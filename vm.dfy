/** The execution engine (src/vm.rs): its own instruction type and decoder,
    and the machine with its register file and stack discipline.

    The machine's state is given two ways: `State`, a value on which the
    behaviour of every operation is specified by a function (`PushSpec`,
    `PopSpec`, `ExecuteSpec`, `StepSpec`), and `Machine`, a class that
    updates an eight-slot register array and the memory in place, whose
    methods are proved to follow those functions.

    `Sp - 2`, `Sp += 2`, `pc + 2` and `a + b` wrap around at 2^16, as they
    do in a release build. */
module Vm {
  import opened Results
  import opened Bits
  import opened Registers
  import opened Memory

  /** `Op`, the engine's own instruction type. */
  datatype Op =
    | Nop
    | Push(arg: u8)
    | PopRegister(reg: Register)
    | AddStack
    | AddRegister(r1: Register, r2: Register)

  /** `Op::value`: the first byte of the value, read through an unsafe
      cast; for a `#[repr(u8)]` enum that is the implicit discriminant, the
      declaration position. */
  function Value(op: Op): (b: u8)
    ensures b < 5
  {
    match op
    case Nop => 0
    case Push(_) => 1
    case PopRegister(_) => 2
    case AddStack => 3
    case AddRegister(_, _) => 4
  }

  /** The engine's failures. The source reports them as formatted strings;
      here each is a tag with the value the message shows. */
  datatype VmErr =
    | UnknownOp(op: u8)
    | UnknownReg(reg: u16)
    | ReadFault(addr: u16)
    | WriteFault(addr: u16)

  /** The opcode field of an instruction word: its low byte. */
  function OpField(ins: u16): u8
  {
    ins % 0x100
  }

  /** The register field of an instruction word: bits 8-11. */
  function RegField(ins: u16): u16
  {
    (ins / 0x100) % 0x10
  }

  /** `parse_instruction`: dispatches on the low byte compared against the
      discriminants of `Op`. Low byte 0 is Nop, 1 is Push with the high
      byte, 2 is PopRegister with the register id in bits 8-11 (bits 12-15
      ignored), 3 is AddStack; every other byte, AddRegister's 4 included,
      is an unknown operation. */
  function ParseInstruction(ins: u16): (r: Result<Op, VmErr>)
    ensures r.Ok? <==> OpField(ins) < 4 && (OpField(ins) == 2 ==> RegField(ins) < 8)
    ensures r.Ok? ==> Value(r.value) == OpField(ins) && !r.value.AddRegister?
    ensures r.Ok? && r.value.Push? ==> r.value.arg == ins / 0x100
    ensures r.Ok? && r.value.PopRegister? ==> Ordinal(r.value.reg) == RegField(ins)
    ensures OpField(ins) == 2 && r.Err? ==> r.error == UnknownReg(RegField(ins))
    ensures OpField(ins) >= 4 ==> r == Err(UnknownOp(OpField(ins)))
  {
    AndLowByte(ins);
    AndHighByte(ins);
    AndHighNibble(ins);
    var op := AsU8(And(ins, 0xFF));
    if op == Value(Op.Nop) then
      Ok(Op.Nop)
    else if op == Value(Op.Push(0)) then
      var arg := Shr(And(ins, 0xFF00), 8);
      Ok(Op.Push(AsU8(arg)))
    else if op == Value(Op.PopRegister(A)) then
      var reg := Shr(And(ins, 0xF00), 8);
      match FromU8(AsU8(reg))
      case Some(r) => Ok(Op.PopRegister(r))
      case None => Err(UnknownReg(reg))
    else if op == Value(Op.AddStack) then
      Ok(Op.AddStack)
    else
      Err(UnknownOp(op))
  }

  /** The word layout the engine documents for its own instructions: the
      operator in the low byte, then an 8-bit literal or the register ids
      (REG1 in bits 8-11, REG2 in bits 12-15). */
  function LayoutWord(op: Op): u16
  {
    match op
    case Nop => Value(op)
    case Push(x) => Value(op) + 0x100 * x
    case PopRegister(r) => Value(op) + 0x100 * Ordinal(r)
    case AddStack => Value(op)
    case AddRegister(r1, r2) => Value(op) + 0x100 * Ordinal(r1) + 0x1000 * Ordinal(r2)
  }

  /** The decoder inverts the documented layout for every operation except
      AddRegister, whose discriminant 4 it does not recognise. */
  lemma ParseLayoutWord(op: Op)
    ensures !op.AddRegister? ==> ParseInstruction(LayoutWord(op)) == Ok(op)
    ensures op.AddRegister? ==> ParseInstruction(LayoutWord(op)) == Err(UnknownOp(4))
  {
    var w := LayoutWord(op);
    match op
    case Nop =>
    case Push(x) =>
      DivModUnique(w, 0x100, x, 1);
      assert OpField(w) == 1 && w / 0x100 == x;
    case PopRegister(r) =>
      DivModUnique(w, 0x100, Ordinal(r), 2);
      DivModUnique(Ordinal(r), 0x10, 0, Ordinal(r));
      assert OpField(w) == 2 && RegField(w) == Ordinal(r);
      var p := ParseInstruction(w);
      OrdinalInjective(p.value.reg, r);
    case AddStack =>
    case AddRegister(r1, r2) =>
      DivModUnique(w, 0x100, Ordinal(r1) + 0x10 * Ordinal(r2), 4);
      assert OpField(w) == 4;
  }

  /** For PopRegister, a register field of 0..7 names that register and
      one of 8..15 is an unknown register. */
  lemma PopRegisterField(field: u16)
    requires field < 0x10
    ensures ParseInstruction(2 + 0x100 * field) ==
      if field < 8 then Ok(Op.PopRegister(FromU8(field).value)) else Err(UnknownReg(field))
  {
    var w := 2 + 0x100 * field;
    DivModUnique(w, 0x100, field, 2);
    assert OpField(w) == 2 && RegField(w) == field;
    var r := ParseInstruction(w);
    if field < 8 {
      assert r.Ok? && r.value.PopRegister? && Ordinal(r.value.reg) == field;
      FromU8Ordinal(r.value.reg);
    }
  }

  /** For PopRegister, bits 12-15 of the word take no part in decoding. */
  lemma PopRegisterIgnoresTop(field: u16, top: u16)
    requires field < 0x10 && top < 0x10
    ensures ParseInstruction(2 + 0x100 * field + 0x1000 * top) == ParseInstruction(2 + 0x100 * field)
  {
    var w, w0 := 2 + 0x100 * field + 0x1000 * top, 2 + 0x100 * field;
    DivModUnique(w, 0x100, field + 0x10 * top, 2);
    DivModUnique(field + 0x10 * top, 0x10, top, field);
    DivModUnique(w0, 0x100, field, 2);
    assert OpField(w) == OpField(w0) == 2 && RegField(w) == RegField(w0) == field;
    var r, r0 := ParseInstruction(w), ParseInstruction(w0);
    if r.Ok? {
      assert r0.Ok? && r.value.PopRegister? && r0.value.PopRegister?;
      OrdinalInjective(r.value.reg, r0.value.reg);
    }
  }

  /** The machine's state as a value: the eight register slots and the
      memory bytes. */
  datatype State = State(regs: seq<u16>, mem: seq<u8>)

  /** Eight registers and a full-size memory. */
  predicate WellFormed(s: State)
  {
    |s.regs| == 8 && |s.mem| == Capacity
  }

  /** The stack pointer: the address of the next free word. */
  function StackPointer(s: State): u16
    requires WellFormed(s)
  {
    s.regs[Index(Sp)]
  }

  /** The state `Machine::new` creates: every register zero, memory zeroed. */
  function Initial(): (s: State)
    ensures WellFormed(s)
    ensures forall r: Register :: s.regs[Index(r)] == 0
  {
    State(seq(8, _ => 0), seq(Capacity, _ => 0))
  }

  /** `push`: writes `v` at Sp; only if the write succeeds is Sp advanced
      by 2. */
  function PushSpec(s: State, v: u16): (r: (Result<(), VmErr>, State))
    requires WellFormed(s)
    ensures WellFormed(r.1)
    ensures r.0.Ok? <==> StackPointer(s) + 1 < Capacity
    ensures r.0.Ok? ==> r.1.regs == s.regs[Index(Sp) := StackPointer(s) + 2]
    ensures r.0.Ok? ==> ReadWord(r.1.mem, StackPointer(s)) == Some(v)
    ensures r.0.Ok? ==> Some(r.1.mem) == WriteWord(s.mem, StackPointer(s), v)
    ensures r.0.Err? ==> r == (Err(WriteFault(StackPointer(s))), s)
  {
    var sp := s.regs[Index(Sp)];
    match WriteWord(s.mem, sp, v)
    case Some(mem) =>
      ReadAfterWrite(s.mem, sp, v);
      (Ok(()), State(s.regs[Index(Sp) := WrappingAdd(sp, 2)], mem))
    case None => (Err(WriteFault(sp)), s)
  }

  /** `pop`: reads the word at Sp - 2; only if the read succeeds is Sp
      lowered by 2. With Sp below 2 the subtraction wraps to 0xFFFE or
      0xFFFF, which is out of range, so the read fails. */
  function PopSpec(s: State): (r: (Result<u16, VmErr>, State))
    requires WellFormed(s)
    ensures WellFormed(r.1) && r.1.mem == s.mem
    ensures r.0.Ok? <==> 2 <= StackPointer(s) <= Capacity
    ensures r.0.Ok? ==> Some(r.0.value) == ReadWord(s.mem, StackPointer(s) - 2)
    ensures r.0.Ok? ==> r.1.regs == s.regs[Index(Sp) := StackPointer(s) - 2]
    ensures r.0.Err? ==> r == (Err(ReadFault(WrappingSub(StackPointer(s), 2))), s)
  {
    var sp := WrappingSub(s.regs[Index(Sp)], 2);
    match ReadWord(s.mem, sp)
    case Some(v) => (Ok(v), s.(regs := s.regs[Index(Sp) := WrappingSub(s.regs[Index(Sp)], 2)]))
    case None => (Err(ReadFault(sp)), s)
  }

  /** What `step` does with a decoded operation. PopRegister stores the
      popped word into its register; AddStack pops `a`, then `b`, then pushes
      `a + b`, and a failing second pop leaves the first one done;
      AddRegister adds register `r2` into `r1` in place. */
  function ExecuteSpec(s: State, op: Op): (r: (Result<(), VmErr>, State))
    requires WellFormed(s)
    ensures WellFormed(r.1)
    ensures op.Nop? ==> r == (Ok(()), s)
    ensures !op.Push? && !op.AddStack? ==> r.1.mem == s.mem
    ensures forall reg: Register ::
      !(reg == Sp && (op.Push? || op.PopRegister? || op.AddStack?)) &&
      !(op.PopRegister? && reg == op.reg) && !(op.AddRegister? && reg == op.r1) ==>
        r.1.regs[Index(reg)] == s.regs[Index(reg)]
    ensures op.AddRegister? ==>
      r.0.Ok? && r.1.regs[Index(op.r1)] == WrappingAdd(s.regs[Index(op.r1)], s.regs[Index(op.r2)])
    ensures op.Push? ==> r == PushSpec(s, op.arg)
    ensures op.PopRegister? ==> (r.0.Ok? <==> PopSpec(s).0.Ok?)
    ensures op.PopRegister? && PopSpec(s).0.Err? ==> r == (Err(PopSpec(s).0.error), s)
    ensures op.AddStack? ==> (r.0.Ok? <==> 4 <= StackPointer(s) <= Capacity)
    ensures op.AddStack? && PopSpec(s).0.Err? ==> r == (Err(PopSpec(s).0.error), s)
    ensures op.AddStack? && PopSpec(s).0.Ok? && PopSpec(PopSpec(s).1).0.Err? ==>
      r == (Err(PopSpec(PopSpec(s).1).0.error), PopSpec(s).1)
  {
    match op
    case Nop => (Ok(()), s)
    case Push(v) => PushSpec(s, v)
    case PopRegister(reg) =>
      var (value, s1) := PopSpec(s);
      if value.Err? then (Err(value.error), s1)
      else (Ok(()), s1.(regs := s1.regs[Index(reg) := value.value]))
    case AddStack =>
      var (a, s1) := PopSpec(s);
      if a.Err? then (Err(a.error), s1)
      else
        var (b, s2) := PopSpec(s1);
        if b.Err? then (Err(b.error), s2)
        else PushSpec(s2, WrappingAdd(a.value, b.value))
    case AddRegister(r1, r2) =>
      (Ok(()), s.(regs := s.regs[Index(r1) := WrappingAdd(s.regs[Index(r1)], s.regs[Index(r2)])]))
  }

  /** The fetch at Pc succeeds; `step` unwraps it, so this is its
      precondition. */
  predicate CanFetch(s: State)
  {
    WellFormed(s) && s.regs[Index(Pc)] + 1 < Capacity
  }

  /** The instruction word at Pc. */
  function Fetch(s: State): u16
    requires CanFetch(s)
  {
    ReadWord(s.mem, s.regs[Index(Pc)]).value
  }

  /** `step`: fetch the word at Pc, advance Pc by 2, then decode and
      execute. Pc stays advanced when decoding or execution fails, and only
      a PopRegister into Pc itself can move it elsewhere. */
  function StepSpec(s: State): (r: (Result<(), VmErr>, State))
    requires CanFetch(s)
    ensures WellFormed(r.1)
    ensures ParseInstruction(Fetch(s)).Err? ==>
      r == (Err(ParseInstruction(Fetch(s)).error), s.(regs := s.regs[Index(Pc) := s.regs[Index(Pc)] + 2]))
    ensures ParseInstruction(Fetch(s)).Ok? ==>
      r == ExecuteSpec(s.(regs := s.regs[Index(Pc) := s.regs[Index(Pc)] + 2]), ParseInstruction(Fetch(s)).value)
    ensures ParseInstruction(Fetch(s)) != Ok(Op.PopRegister(Pc)) ==>
      r.1.regs[Index(Pc)] == s.regs[Index(Pc)] + 2
  {
    var pc := s.regs[Index(Pc)];
    var ins := ReadWord(s.mem, pc).value;
    var s1 := s.(regs := s.regs[Index(Pc) := WrappingAdd(pc, 2)]);
    match ParseInstruction(ins)
    case Err(e) => (Err(e), s1)
    case Ok(op) => ExecuteSpec(s1, op)
  }

  /** Pushing a word and popping it back returns that word and restores
      every register. */
  lemma PushThenPop(s: State, v: u16)
    requires WellFormed(s) && PushSpec(s, v).0.Ok?
    ensures PopSpec(PushSpec(s, v).1) == (Ok(v), State(s.regs, PushSpec(s, v).1.mem))
  {
    var sp := StackPointer(s);
    assert s.regs[Index(Sp) := sp + 2][Index(Sp) := sp] == s.regs;
  }

  /** Pushes each word of `vs` in order, stopping at the first failure. */
  function PushAll(s: State, vs: seq<u16>): (r: (Result<(), VmErr>, State))
    requires WellFormed(s)
    ensures WellFormed(r.1)
    decreases |vs|
  {
    if |vs| == 0 then (Ok(()), s)
    else
      var (res, s1) := PushSpec(s, vs[0]);
      if res.Err? then (Err(res.error), s1) else PushAll(s1, vs[1..])
  }

  /** Pops `n` words, listing them in the order popped, stopping at the
      first failure. */
  function PopAll(s: State, n: nat): (r: (Result<seq<u16>, VmErr>, State))
    requires WellFormed(s)
    ensures WellFormed(r.1) && r.1.mem == s.mem
    ensures r.0.Ok? ==> |r.0.value| == n
    decreases n
  {
    if n == 0 then (Ok([]), s)
    else
      var (res, s1) := PopSpec(s);
      if res.Err? then (Err(res.error), s1)
      else Prepend(res.value, PopAll(s1, n - 1))
  }

  /** One popped word `v` in front of the rest of a run. */
  function Prepend(v: u16, rest: (Result<seq<u16>, VmErr>, State)): (Result<seq<u16>, VmErr>, State)
  {
    if rest.0.Err? then (Err(rest.0.error), rest.1) else (Ok([v] + rest.0.value), rest.1)
  }

  function Reversed(vs: seq<u16>): (r: seq<u16>)
    ensures |r| == |vs|
  {
    if |vs| == 0 then [] else Reversed(vs[1..]) + [vs[0]]
  }

  /** A run of pushes succeeds exactly while every word fits below the end
      of memory; then Sp has grown by two per word and nothing else in the
      register file changed. Whether or not it succeeds, no word below the
      starting Sp is touched. */
  lemma {:induction false} PushAllEffect(s: State, vs: seq<u16>)
    requires WellFormed(s)
    ensures PushAll(s, vs).0.Ok? <==> |vs| == 0 || StackPointer(s) + 2 * |vs| <= Capacity
    ensures PushAll(s, vs).0.Ok? ==>
      PushAll(s, vs).1.regs == s.regs[Index(Sp) := StackPointer(s) + 2 * |vs|]
    ensures forall addr: u16 :: addr + 1 < StackPointer(s) ==>
      ReadWord(PushAll(s, vs).1.mem, addr) == ReadWord(s.mem, addr)
    decreases |vs|
  {
    if |vs| > 0 {
      var sp := StackPointer(s);
      var (res, s1) := PushSpec(s, vs[0]);
      if res.Ok? {
        PushAllEffect(s1, vs[1..]);
        assert StackPointer(s1) == sp + 2;
        if PushAll(s1, vs[1..]).0.Ok? {
          assert s1.regs[Index(Sp) := sp + 2 + 2 * (|vs| - 1)] == s.regs[Index(Sp) := sp + 2 * |vs|];
        }
        forall addr: u16 | addr + 1 < sp
          ensures ReadWord(s1.mem, addr) == ReadWord(s.mem, addr)
        {
          ReadOtherAfterWrite(s.mem, sp, vs[0], addr);
        }
      }
    }
  }

  /** Popping `a + b` words is popping `a`, then `b`. */
  lemma {:induction false} PopAllSplit(s: State, a: nat, b: nat)
    requires WellFormed(s)
    ensures PopAll(s, a + b) == ThenPopAll(PopAll(s, a), b)
    decreases a
  {
    if a > 0 {
      var (res, s1) := PopSpec(s);
      if res.Ok? {
        PopAllSplit(s1, a - 1, b);
        assert a + b - 1 == (a - 1) + b;
        PrependThen(res.value, PopAll(s1, a - 1), b);
      }
    } else {
      var (r2, s2) := PopAll(s, b);
      if r2.Ok? {
        assert [] + r2.value == r2.value;
      }
    }
  }

  /** Pops `b` more words after `first`, unless `first` already failed. */
  function ThenPopAll(first: (Result<seq<u16>, VmErr>, State), b: nat): (Result<seq<u16>, VmErr>, State)
    requires WellFormed(first.1)
  {
    if first.0.Err? then first
    else
      var (r2, s2) := PopAll(first.1, b);
      if r2.Err? then (Err(r2.error), s2) else (Ok(first.0.value + r2.value), s2)
  }

  lemma PrependThen(v: u16, rest: (Result<seq<u16>, VmErr>, State), b: nat)
    requires WellFormed(rest.1)
    ensures ThenPopAll(Prepend(v, rest), b) == Prepend(v, ThenPopAll(rest, b))
  {
    if rest.0.Ok? {
      var (r2, s2) := PopAll(rest.1, b);
      if r2.Ok? {
        assert [v] + (rest.0.value + r2.value) == ([v] + rest.0.value) + r2.value;
      }
    }
  }

  /** The stack is last-in first-out: popping as many words as were pushed
      returns them in reverse order and restores every register. */
  lemma {:induction false} PushAllThenPopAll(s: State, vs: seq<u16>)
    requires WellFormed(s) && PushAll(s, vs).0.Ok?
    ensures PopAll(PushAll(s, vs).1, |vs|) == (Ok(Reversed(vs)), State(s.regs, PushAll(s, vs).1.mem))
    decreases |vs|
  {
    if |vs| > 0 {
      var sp := StackPointer(s);
      var s1 := PushSpec(s, vs[0]).1;
      var t := PushAll(s, vs).1;
      assert t == PushAll(s1, vs[1..]).1;
      PushAllThenPopAll(s1, vs[1..]);
      PushAllEffect(s1, vs[1..]);
      PopAllSplit(t, |vs| - 1, 1);
      var u := State(s1.regs, t.mem);
      assert ReadWord(u.mem, sp) == ReadWord(s1.mem, sp) == Some(vs[0]);
      assert s1.regs[Index(Sp) := sp] == s.regs;
      assert PopSpec(u) == (Ok(vs[0]), State(s.regs, t.mem));
      assert PopAll(State(s.regs, t.mem), 0) == (Ok([]), State(s.regs, t.mem));
      assert [vs[0]] + [] == [vs[0]];
      assert PopAll(u, 1) == (Ok([vs[0]]), State(s.regs, t.mem));
    }
  }

  /** AddStack on a stack of at least two words replaces them by their
      wrapped sum: Sp drops by 2 and the word at the new top is `a + b`. */
  lemma AddStackSum(s: State)
    requires WellFormed(s) && 4 <= StackPointer(s) <= Capacity
    ensures var sp := StackPointer(s);
      var a := ReadWord(s.mem, sp - 2).value;
      var b := ReadWord(s.mem, sp - 4).value;
      var r := ExecuteSpec(s, Op.AddStack);
      r.0.Ok? && r.1.regs == s.regs[Index(Sp) := sp - 2] &&
      Some(r.1.mem) == WriteWord(s.mem, sp - 4, WrappingAdd(a, b))
  {
    var sp := StackPointer(s);
    var s2 := s.(regs := s.regs[Index(Sp) := sp - 4]);
    assert s2.regs[Index(Sp) := sp - 4 + 2] == s.regs[Index(Sp) := sp - 2];
  }

  /** AddStack with Sp at 2 or 3 fails on the second pop, but the first pop
      is not undone: Sp is left lowered by 2 and the fault address is the
      wrapped Sp - 4, 0xFFFE or 0xFFFF. */
  lemma AddStackNoRollback(s: State)
    requires WellFormed(s) && 2 <= StackPointer(s) < 4
    ensures var sp := StackPointer(s);
      ExecuteSpec(s, Op.AddStack) == (Err(ReadFault(sp + 0xFFFC)), s.(regs := s.regs[Index(Sp) := sp - 2]))
  {
  }

  /** AddStack with Sp below 2 or past the end of memory fails on the first
      pop at the wrapped Sp - 2, and leaves the state as it was. */
  lemma AddStackFirstPopFails(s: State)
    requires WellFormed(s) && (StackPointer(s) < 2 || Capacity < StackPointer(s))
    ensures ExecuteSpec(s, Op.AddStack) == (Err(ReadFault(WrappingSub(StackPointer(s), 2))), s)
  {
  }

  /** PopRegister stores the top word into its register and lowers Sp by 2;
      popping into Sp itself overwrites the lowered Sp with the word. */
  lemma PopRegisterStores(s: State, reg: Register)
    requires WellFormed(s) && 2 <= StackPointer(s) <= Capacity
    ensures var sp := StackPointer(s);
      ExecuteSpec(s, Op.PopRegister(reg)) ==
        (Ok(()), s.(regs := s.regs[Index(Sp) := sp - 2][Index(reg) := ReadWord(s.mem, sp - 2).value]))
  {
  }

  /** The engine: a register file of eight words and its memory. */
  class Machine {
    const register: array<u16>
    const memory: LinearMemory

    ghost predicate Valid()
      reads this, memory
    {
      register.Length == 8 && memory.bytes.Length == Capacity
    }

    /** The state as a value. */
    ghost function View(): (s: State)
      reads this, register, memory, memory.bytes
      requires Valid()
      ensures WellFormed(s)
    {
      State(register[..], memory.bytes[..])
    }

    /** `Machine::new`: all registers zero and a fresh zeroed memory. */
    constructor ()
      ensures Valid() && View() == Initial()
      ensures fresh(register) && fresh(memory) && fresh(memory.bytes)
    {
      register := new u16[8](_ => 0);
      memory := new LinearMemory(8 * 1024);
    }

    /** `get_register`. */
    function GetRegister(r: Register): (v: u16)
      reads this, register, memory
      requires Valid()
      ensures v == register[..][Index(r)]
    {
      register[Index(r)]
    }

    /** `pop`, in place. */
    method Pop() returns (r: Result<u16, VmErr>)
      requires Valid()
      modifies register
      ensures Valid()
      ensures (r, View()) == PopSpec(old(View()))
    {
      var sp := WrappingSub(register[Index(Sp)], 2);
      match memory.Read2(sp)
      case Some(v) =>
        register[Index(Sp)] := WrappingSub(register[Index(Sp)], 2);
        r := Ok(v);
      case None =>
        r := Err(ReadFault(sp));
    }

    /** `push`, in place. */
    method Push(v: u16) returns (r: Result<(), VmErr>)
      requires Valid()
      modifies register, memory.bytes
      ensures Valid()
      ensures (r, View()) == PushSpec(old(View()), v)
    {
      var sp := register[Index(Sp)];
      var ok := memory.Write2(sp, v);
      if !ok {
        return Err(WriteFault(sp));
      }
      register[Index(Sp)] := WrappingAdd(register[Index(Sp)], 2);
      r := Ok(());
    }

    /** The execute half of `step`. */
    method Execute(op: Op) returns (r: Result<(), VmErr>)
      requires Valid()
      modifies register, memory.bytes
      ensures Valid()
      ensures (r, View()) == ExecuteSpec(old(View()), op)
    {
      match op
      case Nop =>
        r := Ok(());
      case Push(v) =>
        r := Push(v);
      case PopRegister(reg) =>
        var value :- Pop();
        register[Index(reg)] := value;
        r := Ok(());
      case AddStack =>
        var a :- Pop();
        var b :- Pop();
        r := Push(WrappingAdd(a, b));
      case AddRegister(r1, r2) =>
        register[Index(r1)] := WrappingAdd(register[Index(r1)], register[Index(r2)]);
        r := Ok(());
    }

    /** `step`, in place. */
    method Step() returns (r: Result<(), VmErr>)
      requires Valid() && CanFetch(View())
      modifies register, memory.bytes
      ensures Valid()
      ensures (r, View()) == StepSpec(old(View()))
    {
      var pc := register[Index(Pc)];
      var ins := memory.Read2(pc).value;
      register[Index(Pc)] := WrappingAdd(pc, 2);
      var op :- ParseInstruction(ins);
      r := Execute(op);
    }
  }
}
