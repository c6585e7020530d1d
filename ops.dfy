/** The instruction-set contract (src/op.rs): opcode bytes, mnemonics and the
    16-bit packing the assembler emits. */
module Ops {
  import opened Results
  import opened Registers
  import opened Bits

  /** `OpCode`, a `#[repr(u8)]` enum with explicit discriminants. */
  datatype OpCode =
    | Nop | Push | PopRegister | PushRegister | JmpReg | JmpImm
    | Signal | AddStack | AddRegister

  /** `c as u8`: the opcode byte. */
  function Byte(c: OpCode): u8
  {
    match c
    case Nop => 0x00
    case Push => 0x01
    case PopRegister => 0x02
    case PushRegister => 0x03
    case JmpReg => 0x07
    case JmpImm => 0x08
    case Signal => 0x0F
    case AddStack => 0x10
    case AddRegister => 0x11
  }

  /** Distinct opcodes have distinct bytes. */
  lemma ByteInjective(c: OpCode, d: OpCode)
    ensures Byte(c) == Byte(d) <==> c == d
  {
    OpCodeRoundTrips(c);
    OpCodeRoundTrips(d);
  }

  /** The mnemonic `from_string` accepts for each opcode: the variant's
      own name, spelled exactly. */
  function Mnemonic(c: OpCode): string
  {
    match c
    case Nop => "Nop"
    case Push => "Push"
    case PopRegister => "PopRegister"
    case PushRegister => "PushRegister"
    case JmpReg => "JmpReg"
    case JmpImm => "JmpImm"
    case Signal => "Signal"
    case AddStack => "AddStack"
    case AddRegister => "AddRegister"
  }

  /** `OpCode::from_string`: exact, case-sensitive match on the mnemonic. */
  function FromString(s: string): (r: Option<OpCode>)
    ensures r.Some? ==> Mnemonic(r.value) == s
    ensures r.None? <==> forall c: OpCode :: Mnemonic(c) != s
  {
    match s
    case "Nop" => Some(OpCode.Nop)
    case "Push" => Some(OpCode.Push)
    case "PopRegister" => Some(OpCode.PopRegister)
    case "PushRegister" => Some(OpCode.PushRegister)
    case "Signal" => Some(OpCode.Signal)
    case "AddStack" => Some(OpCode.AddStack)
    case "AddRegister" => Some(OpCode.AddRegister)
    case "JmpReg" => Some(OpCode.JmpReg)
    case "JmpImm" => Some(OpCode.JmpImm)
    case _ => None
  }

  /** `OpCode::from_u8`: a chain of guards comparing against each opcode
      byte in turn. */
  function FromU8(b: u8): (r: Option<OpCode>)
    ensures r.Some? <==> b in {0x00, 0x01, 0x02, 0x03, 0x07, 0x08, 0x0F, 0x10, 0x11}
    ensures r.Some? ==> Byte(r.value) == b
  {
    if b == Byte(OpCode.Nop) then Some(OpCode.Nop)
    else if b == Byte(OpCode.Push) then Some(OpCode.Push)
    else if b == Byte(OpCode.PopRegister) then Some(OpCode.PopRegister)
    else if b == Byte(OpCode.PushRegister) then Some(OpCode.PushRegister)
    else if b == Byte(OpCode.Signal) then Some(OpCode.Signal)
    else if b == Byte(OpCode.AddStack) then Some(OpCode.AddStack)
    else if b == Byte(OpCode.AddRegister) then Some(OpCode.AddRegister)
    else if b == Byte(OpCode.JmpReg) then Some(OpCode.JmpReg)
    else if b == Byte(OpCode.JmpImm) then Some(OpCode.JmpImm)
    else None
  }

  /** Every opcode's byte decodes back to it, and its mnemonic parses back
      to it. */
  lemma OpCodeRoundTrips(c: OpCode)
    ensures FromU8(Byte(c)) == Some(c)
    ensures FromString(Mnemonic(c)) == Some(c)
  {
  }

  /** `Instruction`: a symbolic operation with its operands. */
  datatype Instruction =
    | Nop
    | Push(imm: u8)
    | PopRegister(reg: Register)
    | AddStack
    | JmpReg(reg: Register)
    | JmpImm
    | AddRegister(r1: Register, r2: Register)
    | PushRegister(reg: Register)
    | Signal(imm: u8)

  /** The opcode of an instruction's variant. */
  function OpCodeOf(i: Instruction): OpCode
  {
    match i
    case Nop => OpCode.Nop
    case Push(_) => OpCode.Push
    case PopRegister(_) => OpCode.PopRegister
    case AddStack => OpCode.AddStack
    case JmpReg(_) => OpCode.JmpReg
    case JmpImm => OpCode.JmpImm
    case AddRegister(_, _) => OpCode.AddRegister
    case PushRegister(_) => OpCode.PushRegister
    case Signal(_) => OpCode.Signal
  }

  /** True of the two variants that carry an 8-bit immediate. */
  predicate HasImmediate(i: Instruction)
  {
    i.Push? || i.Signal?
  }

  /** `encode_r1`: MASKS the ordinal with `0xf << 8` instead of shifting
      it into bits 8-11; every ordinal is below 8, so the field is always
      zero. */
  function EncodeR1(r: Register): (w: u16)
    ensures w == 0
  {
    NoHighBits(Ordinal(r));
    And(Ordinal(r), Shl16(0xF, 8))
  }

  /** `encode_r2`: the same mask with `0xf << 12`, likewise always zero. */
  function EncodeR2(r: Register): (w: u16)
    ensures w == 0
  {
    NoHighBits(Ordinal(r));
    And(Ordinal(r), Shl16(0xF, 12))
  }

  /** A register ordinal has no bit in common with the masks 0x0F00 and
      0xF000. */
  lemma NoHighBits(n: u8)
    requires n < 8
    ensures Shl16(0xF, 8) == 0xF00 && And(n, 0xF00) == 0
    ensures Shl16(0xF, 12) == 0xF000 && And(n, 0xF000) == 0
  {
    assert Pow2(8) == 0x100 && Pow2(12) == 0x1000;
    AndShiftedMask(n, 0xF, 8, 0xF00, 0);
    AndShiftedMask(n, 0xF, 12, 0xF000, 0);
  }

  /** `encode_num`: the operand shifted into the high byte; the low byte is
      left free for the opcode. */
  function EncodeNum(num: u16): (w: u16)
    ensures w % 0x100 == 0
    ensures w / 0x100 == num % 0x100
  {
    assert Pow2(8) == 0x100;
    Shl16(num, 8)
  }

  /** `encode_rs`: both register fields, hence always zero. */
  function EncodeRs(r1: Register, r2: Register): (w: u16)
    ensures w == 0
  {
    Or(EncodeR1(r1), EncodeR2(r2))
  }

  /** The opcode byte OR-ed with an operand field that is zero. */
  function WithZeroField(c: OpCode, field: u16): (w: u16)
    requires field == 0
    ensures w == Byte(c)
  {
    Or(Byte(c), field)
  }

  /** The opcode byte OR-ed with an immediate in the high byte. */
  function WithImmediate(c: OpCode, x: u8): (w: u16)
    ensures w == Byte(c) + 0x100 * x
    ensures w % 0x100 == Byte(c) && w / 0x100 == x
  {
    OrHighByte(Byte(c), x);
    DivModUnique(Byte(c) + 0x100 * x, 0x100, x, Byte(c));
    Or(Byte(c), EncodeNum(x))
  }

  /** `Instruction::encode_u16`: opcode in the low byte; the immediate (for
      Push and Signal) in the high byte; the register fields contribute
      nothing, so every other instruction encodes to its bare opcode. */
  function EncodeU16(i: Instruction): (w: u16)
    ensures w == Byte(OpCodeOf(i)) + 0x100 * Immediate(i)
  {
    match i
    case Nop => Byte(OpCode.Nop)
    case Push(x) => WithImmediate(OpCode.Push, x)
    case JmpImm => Byte(OpCode.JmpImm)
    case JmpReg(_) => RegisterWord(i)
    case PopRegister(_) => RegisterWord(i)
    case PushRegister(_) => RegisterWord(i)
    case AddStack => Byte(OpCode.AddStack)
    case AddRegister(_, _) => RegisterWord(i)
    case Signal(x) => WithImmediate(OpCode.Signal, x)
  }

  /** The arms of `encode_u16` with register operands: the opcode OR-ed with
      `encode_r1` of the register, or with `encode_rs` of both for
      AddRegister. */
  function RegisterWord(i: Instruction): (w: u16)
    requires i.JmpReg? || i.PopRegister? || i.PushRegister? || i.AddRegister?
    ensures w == Byte(OpCodeOf(i))
  {
    if i.AddRegister? then WithZeroField(OpCodeOf(i), EncodeRs(i.r1, i.r2))
    else WithZeroField(OpCodeOf(i), EncodeR1(i.reg))
  }

  /** The immediate of Push and Signal; zero for the other variants. */
  function Immediate(i: Instruction): u8
  {
    if HasImmediate(i) then i.imm else 0
  }

  /** The opcode byte is the low byte of the word and the immediate its high
      byte. */
  lemma EncodeU16Bytes(i: Instruction)
    ensures EncodeU16(i) % 0x100 == Byte(OpCodeOf(i))
    ensures EncodeU16(i) / 0x100 == Immediate(i)
  {
    DivModUnique(EncodeU16(i), 0x100, Immediate(i), Byte(OpCodeOf(i)));
  }

  /** The low byte of every encoded word decodes to the instruction's
      opcode. */
  lemma EncodedOpCodeDecodes(i: Instruction)
    ensures FromU8(EncodeU16(i) % 0x100) == Some(OpCodeOf(i))
  {
    EncodeU16Bytes(i);
    OpCodeRoundTrips(OpCodeOf(i));
  }

  /** Two instructions that agree up to their register operands. */
  predicate SameUpToRegisters(i: Instruction, j: Instruction)
  {
    && OpCodeOf(i) == OpCodeOf(j)
    && (HasImmediate(i) ==> i.imm == j.imm)
  }

  /** The encoding forgets exactly the register operands: two instructions
      encode to the same word if and only if they have the same opcode and
      (for Push and Signal) the same immediate. In particular
      `PopRegister(A)` and `PopRegister(B)` share a word. */
  lemma EncodeEqualIff(i: Instruction, j: Instruction)
    ensures EncodeU16(i) == EncodeU16(j) <==> SameUpToRegisters(i, j)
  {
    if EncodeU16(i) == EncodeU16(j) {
      EncodeU16Bytes(i);
      EncodeU16Bytes(j);
      OpCodeRoundTrips(OpCodeOf(i));
      OpCodeRoundTrips(OpCodeOf(j));
    }
  }
}
