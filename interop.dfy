/** How the assembler's encoding (src/op.rs) and the engine's decoder
    (src/vm.rs) meet. The two disagree: the engine compares the low byte with
    the positions of its own `Op` variants (0-4), not with the opcode bytes
    of `OpCode`, and it reads register ids from bits 8-11, which
    `encode_r1` never sets. */
module Interop {
  import opened Results
  import opened Bits
  import opened Registers
  import Ops
  import opened Vm
  import opened Memory
  import Asm
  import Radix

  /** The engine operation an assembler instruction names, when the engine
      has one. */
  function Meaning(i: Ops.Instruction): Option<Op>
  {
    match i
    case Nop => Some(Op.Nop)
    case Push(x) => Some(Op.Push(x))
    case PopRegister(r) => Some(Op.PopRegister(r))
    case AddStack => Some(Op.AddStack)
    case AddRegister(r1, r2) => Some(Op.AddRegister(r1, r2))
    case _ => None
  }

  /** What the engine makes of each encoded instruction: PopRegister always
      comes back with register A, PushRegister's byte 3 is read as AddStack,
      and every other opcode byte above 2 is unknown. */
  lemma DecodeEncoded(i: Ops.Instruction)
    ensures ParseInstruction(Ops.EncodeU16(i)) ==
      match i
      case Nop => Ok(Op.Nop)
      case Push(x) => Ok(Op.Push(x))
      case PopRegister(_) => Ok(Op.PopRegister(A))
      case PushRegister(_) => Ok(Op.AddStack)
      case AddStack => Err(UnknownOp(0x10))
      case JmpReg(_) => Err(UnknownOp(0x07))
      case JmpImm => Err(UnknownOp(0x08))
      case AddRegister(_, _) => Err(UnknownOp(0x11))
      case Signal(_) => Err(UnknownOp(0x0F))
  {
    match i
    case Nop => DecodeNopOrPush(i);
    case Push(_) => DecodeNopOrPush(i);
    case PopRegister(_) => DecodePopRegister(i);
    case PushRegister(_) => DecodePushRegister(i);
    case _ => DecodeUnknown(i);
  }

  /** Every opcode byte from 4 up is an unknown operation to the engine. */
  lemma DecodeUnknown(i: Ops.Instruction)
    requires Ops.Byte(Ops.OpCodeOf(i)) >= 4
    ensures ParseInstruction(Ops.EncodeU16(i)) == Err(UnknownOp(Ops.Byte(Ops.OpCodeOf(i))))
  {
    Ops.EncodeU16Bytes(i);
  }

  lemma DecodeNopOrPush(i: Ops.Instruction)
    requires i.Nop? || i.Push?
    ensures i.Nop? ==> ParseInstruction(Ops.EncodeU16(i)) == Ok(Op.Nop)
    ensures i.Push? ==> ParseInstruction(Ops.EncodeU16(i)) == Ok(Op.Push(i.imm))
  {
    var w := Ops.EncodeU16(i);
    Ops.EncodeU16Bytes(i);
    assert OpField(w) == Ops.Byte(Ops.OpCodeOf(i)) && w / 0x100 == Ops.Immediate(i);
  }

  lemma DecodePushRegister(i: Ops.Instruction)
    requires i.PushRegister?
    ensures ParseInstruction(Ops.EncodeU16(i)) == Ok(Op.AddStack)
  {
    var w := Ops.EncodeU16(i);
    Ops.EncodeU16Bytes(i);
    assert OpField(w) == 3;
  }

  lemma DecodePopRegister(i: Ops.Instruction)
    requires i.PopRegister?
    ensures ParseInstruction(Ops.EncodeU16(i)) == Ok(Op.PopRegister(A))
  {
    var w := Ops.EncodeU16(i);
    Ops.EncodeU16Bytes(i);
    assert OpField(w) == 2 && w / 0x100 == 0;
    assert RegField(w) == 0;
    var r := ParseInstruction(w);
    assert r.Ok? && r.value.PopRegister? && Ordinal(r.value.reg) == 0;
    FromU8Ordinal(r.value.reg);
  }

  /** Encoding with `encode_u16` and decoding with `parse_instruction` gives
      back the same operation exactly for Nop, Push and PopRegister(A). */
  lemma EncodeDecodeIff(i: Ops.Instruction)
    ensures (Meaning(i).Some? && ParseInstruction(Ops.EncodeU16(i)) == Ok(Meaning(i).value)) <==>
      (i.Nop? || i.Push? || i == Ops.Instruction.PopRegister(A))
  {
    DecodeEncoded(i);
  }

  /** The sample program: push 5 and 3, add them, pop the sum into A. */
  const Source: seq<string> := ["Push $05", "Push $03", "AddStack", "PopRegister A"]

  /** The bytes of each of its lines. */
  const LineBytes: seq<seq<u8>> := [[0x01, 0x05], [0x01, 0x03], [0x10, 0x00], [0x02, 0x00]]

  /** Its image as the assembler writes it. */
  const Image: seq<u8> := [0x01, 0x05, 0x01, 0x03, 0x10, 0x00, 0x02, 0x00]

  /** A line of two tokens separated by one space. */
  lemma TwoTokens(a: string, b: string)
    requires a != [] && b != [] && ' ' !in a && ' ' !in b
    ensures Asm.Tokens(a + " " + b) == [a, b]
  {
    var ts := [a, b];
    assert ts[1..] == [b];
    assert Asm.JoinSpaces(ts) == a + " " + b;
    Asm.TokensOfJoin(ts);
  }

  /** A line of a single token. */
  lemma OneToken(a: string)
    requires a != [] && ' ' !in a
    ensures Asm.Tokens(a) == [a]
  {
    Asm.TokensOfJoin([a]);
  }

  /** The sample's Push lines assemble to the Push opcode and their byte.

      Here and below, a fact about a string literal is stated for a
      parameter required to equal the literal: the solver then reasons about
      the parameter rather than unfolding the literal character by
      character, which keeps each proof small. */
  lemma AssemblePush(hex: string, x: u8)
    requires hex == "05" || hex == "03"
    requires x == if hex == "05" then 5 else 3
    ensures Asm.AssembleLine("Push $" + hex) == Ok([0x01, x])
  {
    var line := "Push $" + hex;
    assert line == "Push" + " " + ("$" + hex);
    TwoTokens("Push", "$" + hex);
    ParseSmallHex(hex, x);
    assert Asm.HandleLine(["Push", "$" + hex]) == Ok(Ops.Instruction.Push(x)) by {
      assert Ops.FromString("Push") == Some(Ops.OpCode.Push);
    }
    assert Ops.EncodeU16(Ops.Instruction.Push(x)) == 0x01 + 0x100 * x;
    DivModUnique(0x01 + 0x100 * x, 0x100, x, 1);
    LineAssemblesTo(line, ["Push", "$" + hex], Ops.Instruction.Push(x));
  }

  /** `$05` and `$03` read as hexadecimal bytes. */
  lemma ParseSmallHex(hex: string, x: u8)
    requires hex == "05" || hex == "03"
    requires x == if hex == "05" then 5 else 3
    ensures Asm.ParseNumeric("$" + hex) == Ok(x)
  {
    Asm.ParseNumericPrefix('$', hex);
    assert ("$" + hex) == ['$'] + hex;
    assert hex[..1] == "0" && hex[..1][..0] == [];
    assert Radix.DigitsValue("0", 16) == Some(0) by {
      assert Radix.DigitValue('0', 16) == Some(0);
    }
    assert Radix.DigitValue(hex[1], 16) == Some(x);
    assert Radix.DigitsValue(hex, 16) == Some(x);
  }

  /** A line whose tokens translate to `i` assembles to the bytes of its
      word. */
  lemma LineAssemblesTo(line: string, parts: seq<string>, i: Ops.Instruction)
    requires 0 < |line| && line[0] != ';'
    requires Asm.Tokens(line) == parts && |parts| > 0 && Asm.HandleLine(parts) == Ok(i)
    ensures Asm.AssembleLine(line) == Ok(Asm.WordBytes(Ops.EncodeU16(i)))
  {
    assert !Asm.Skipped(line);
  }

  /** A line whose tokens translate to `i`, whose word is the single byte
      `b`, assembles to `b` and a zero. */
  lemma LowWordLine(line: string, parts: seq<string>, i: Ops.Instruction, b: u8)
    requires 0 < |line| && line[0] != ';'
    requires Asm.Tokens(line) == parts && |parts| > 0 && Asm.HandleLine(parts) == Ok(i)
    requires Ops.EncodeU16(i) == b
    ensures Asm.AssembleLine(line) == Ok([b, 0])
  {
    LineAssemblesTo(line, parts, i);
    ByteWordBytes(b);
  }

  /** The bytes of a word whose high byte is zero. */
  lemma ByteWordBytes(b: u8)
    ensures Asm.WordBytes(b) == [b, 0]
  {
    var bytes := Asm.WordBytes(b);
    assert b % 0x100 == bytes[0] && b / 0x100 == bytes[1];
    DivModUnique(b, 0x100, 0, b);
  }

  /** The sample's "AddStack" line assembles to its bare opcode byte. */
  lemma AssembleAddStack(line: string)
    requires line == "AddStack"
    ensures Asm.AssembleLine(line) == Ok([0x10, 0x00])
  {
    OneToken(line);
    HandleAddStack([line]);
    AddStackWord();
    LowWordLine(line, [line], Ops.Instruction.AddStack, 0x10);
  }

  /** AddStack encodes to its opcode byte alone. */
  lemma AddStackWord()
    ensures Ops.EncodeU16(Ops.Instruction.AddStack) == 0x10
  {
    Ops.EncodeU16Bytes(Ops.Instruction.AddStack);
  }

  /** The single token "AddStack" translates to AddStack. */
  lemma HandleAddStack(parts: seq<string>)
    requires parts == ["AddStack"]
    ensures Asm.HandleLine(parts) == Ok(Ops.Instruction.AddStack)
  {
    assert Ops.FromString(parts[0]) == Some(Ops.OpCode.AddStack);
  }

  /** "PopRegister A" is two words joined by one space. */
  lemma PopALine(line: string)
    requires line == "PopRegister A"
    ensures line == "PopRegister" + " " + "A"
  {
  }

  /** The sample's "PopRegister A" line assembles to the PopRegister byte
      and a zero register field. */
  lemma AssemblePopA(line: string)
    requires line == "PopRegister A"
    ensures Asm.AssembleLine(line) == Ok([0x02, 0x00])
  {
    PopALine(line);
    TwoTokens("PopRegister", "A");
    HandlePopA(["PopRegister", "A"]);
    LowWordLine(line, ["PopRegister", "A"], Ops.Instruction.PopRegister(A), 0x02);
  }

  /** The tokens "PopRegister", "A" translate to PopRegister(A). */
  lemma HandlePopA(parts: seq<string>)
    requires parts == ["PopRegister", "A"]
    ensures Asm.HandleLine(parts) == Ok(Ops.Instruction.PopRegister(A))
  {
    assert Ops.FromString(parts[0]) == Some(Ops.OpCode.PopRegister);
  }

  /** Each line of the sample program assembles to its entry of
      `LineBytes`. */
  lemma SourceLines(lines: seq<string>)
    requires lines == Source
    ensures |lines| == |LineBytes|
    ensures forall k :: 0 <= k < |lines| ==> Asm.AssembleLine(lines[k]) == Ok(LineBytes[k])
  {
    forall k | 0 <= k < |lines|
      ensures Asm.AssembleLine(lines[k]) == Ok(LineBytes[k])
    {
      if k == 0 {
        assert lines[0] == "Push $" + "05";
        AssemblePush("05", 5);
      } else if k == 1 {
        assert lines[1] == "Push $" + "03";
        AssemblePush("03", 3);
      } else if k == 2 {
        AssembleAddStack(lines[2]);
      } else {
        AssemblePopA(lines[3]);
      }
    }
  }

  /** The sample program assembles to its eight-byte image. */
  lemma AssembleSource(lines: seq<string>)
    requires lines == Source
    ensures Asm.Assemble(lines) == Ok(Image)
  {
    SourceLines(lines);
    Asm.AssembleEach(lines, LineBytes);
    ImageParts();
  }

  /** The per-line bytes, concatenated, are the image. */
  lemma ImageParts()
    ensures Asm.Concat(LineBytes) == Image
  {
    var p := LineBytes;
    assert p[..1][..0] == LineBytes[..0];
    assert Asm.Concat(p[..0]) == [];
    assert Asm.Concat(p[..1]) == p[0];
    assert p[..2][..1] == p[..1];
    assert p[..3][..2] == p[..2];
    assert p[..4][..3] == p[..3] && p[..4] == p;
    assert Asm.Concat(p) == p[0] + p[1] + p[2] + p[3];
  }

  /** A machine with `image` loaded at address 0, Pc 0 and Sp at 0x1000. */
  function Loaded(image: seq<u8>): (s: State)
    requires |image| <= Capacity
    ensures WellFormed(s)
  {
    State([0, 0, 0, 0, 0x1000, 0, 0, 0], image + seq(Capacity - |image|, _ => 0))
  }

  /** Run on the engine, the sample image pushes 5 and 3 and then stops at
      the third instruction: the word 0x0010 is not an operation the engine
      knows, so A never receives the sum and Pc is left at 6. */
  lemma SourceStopsAtAddStack()
    ensures var s1 := StepSpec(Loaded(Image)).1;
      var s2 := StepSpec(s1).1;
      StepSpec(s2) == (Err(UnknownOp(0x10)), s2.(regs := s2.regs[Index(Pc) := 6]))
  {
    LoadedRun(Loaded(Image));
  }

  /** The three steps of `SourceStopsAtAddStack`, each fetch in range. */
  lemma LoadedRun(s0: State)
    requires s0 == Loaded(Image)
    ensures CanFetch(s0) && CanFetch(StepSpec(s0).1) && CanFetch(StepSpec(StepSpec(s0).1).1)
    ensures var s2 := StepSpec(StepSpec(s0).1).1;
      StepSpec(s2) == (Err(UnknownOp(0x10)), s2.(regs := s2.regs[Index(Pc) := 6]))
  {
    LoadedImage(s0);
    StepPushImmediate(s0, 5);
    var s1 := StepSpec(s0).1;
    ReadOtherAfterWrite(s0.mem, 0x1000, 5, 2);
    ReadOtherAfterWrite(s0.mem, 0x1000, 5, 4);
    StepPushImmediate(s1, 3);
    var s2 := StepSpec(s1).1;
    ReadOtherAfterWrite(s1.mem, 0x1002, 3, 4);
    assert Fetch(s2) == 0x0010;
    UnknownWord(0x0010);
  }

  /** Pc, Sp and the first three words of the loaded sample image. */
  lemma LoadedImage(s0: State)
    requires s0 == Loaded(Image)
    ensures CanFetch(s0) && s0.regs[Index(Pc)] == 0 && StackPointer(s0) == 0x1000
    ensures ReadWord(s0.mem, 0) == Some(1 + 0x100 * 5)
    ensures ReadWord(s0.mem, 2) == Some(1 + 0x100 * 3)
    ensures ReadWord(s0.mem, 4) == Some(0x0010)
  {
    assert s0.mem[..8] == Image;
  }

  /** A word whose low byte is 4 or more does not decode. */
  lemma UnknownWord(w: u16)
    requires w % 0x100 >= 4
    ensures ParseInstruction(w) == Err(UnknownOp(w % 0x100))
  {
  }

  /** One step over a Push word with room on the stack: Pc and Sp each move
      on by 2 and the immediate is written at the old Sp. */
  lemma StepPushImmediate(s: State, x: u8)
    requires CanFetch(s) && Fetch(s) == 1 + 0x100 * x
    requires StackPointer(s) + 1 < Capacity
    ensures StepSpec(s).0 == Ok(())
    ensures StepSpec(s).1.regs[Index(Pc)] == s.regs[Index(Pc)] + 2
    ensures StepSpec(s).1.regs[Index(Sp)] == StackPointer(s) + 2
    ensures Some(StepSpec(s).1.mem) == WriteWord(s.mem, StackPointer(s), x)
  {
    DivModUnique(Fetch(s), 0x100, x, 1);
    assert ParseInstruction(Fetch(s)) == Ok(Op.Push(x));
  }
}
