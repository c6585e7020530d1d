/** The assembler (src/bin/asm.rs): the operand parsers, the per-line
    translator `handle_line`, and the loop of `main` that turns source lines
    into a little-endian byte image, lifted out of its file and stdout
    handling into a function of the line sequence. */
module Asm {
  import opened Results
  import opened Bits
  import opened Registers
  import opened Ops
  import opened Memory
  import opened Radix

  /** `AsmErr`. The last three only arise from `main`'s I/O. */
  datatype AsmErr = ParseErr | UnknownReg | UnknownOpCode | LenErr | NoArg | UnknownFile | WriteErr

  /** `parse_numeric`: a leading '$' selects hexadecimal and '%' binary for
      the rest of the token; anything else is decimal. Any failure of the
      underlying `u8::from_str_radix` is a ParseErr. */
  function ParseNumeric(s: string): (r: Result<u8, AsmErr>)
    ensures |s| == 0 ==> r == Err(ParseErr)
    ensures r.Err? ==> r.error == ParseErr
  {
    if |s| == 0 then Err(ParseErr)
    else
      var (num, radix) := if s[0] == '$' then (s[1..], 16) else if s[0] == '%' then (s[1..], 2) else (s, 10);
      match FromStrRadix(num, radix)
      case Some(v) => Ok(v)
      case None => Err(ParseErr)
  }

  /** Every byte written in decimal, in hexadecimal after '$' or in binary
      after '%' parses back to itself. */
  lemma ParseNumericRoundTrip(x: u8)
    ensures ParseNumeric(Digits(x, 10)) == Ok(x)
    ensures ParseNumeric("$" + Digits(x, 16)) == Ok(x)
    ensures ParseNumeric("%" + Digits(x, 2)) == Ok(x)
  {
    DecimalRoundTrip(x);
    PrefixedRoundTrip(x, '$', 16);
    PrefixedRoundTrip(x, '%', 2);
  }

  /** The decimal case of `ParseNumericRoundTrip`. */
  lemma DecimalRoundTrip(x: u8)
    ensures ParseNumeric(Digits(x, 10)) == Ok(x)
  {
    FromStrRadixDigits(x, 10);
    ParseNumericDecimal(Digits(x, 10));
  }

  /** The '$' and '%' cases of `ParseNumericRoundTrip`. */
  lemma PrefixedRoundTrip(x: u8, p: char, radix: nat)
    requires (p == '$' && radix == 16) || (p == '%' && radix == 2)
    ensures ParseNumeric([p] + Digits(x, radix)) == Ok(x)
  {
    FromStrRadixDigits(x, radix);
    ParseNumericPrefix(p, Digits(x, radix));
  }

  /** How `parse_numeric` reads a token with a radix prefix. */
  lemma ParseNumericPrefix(p: char, rest: string)
    requires p == '$' || p == '%'
    ensures ParseNumeric([p] + rest) ==
      match FromStrRadix(rest, if p == '$' then 16 else 2)
      case Some(v) => Ok(v)
      case None => Err(ParseErr)
  {
    assert ([p] + rest)[1..] == rest;
  }

  /** How `parse_numeric` reads a token without a radix prefix: the whole
      token in radix 10. */
  lemma ParseNumericDecimal(s: string)
    requires |s| > 0 && s[0] != '$' && s[0] != '%'
    ensures ParseNumeric(s) ==
      match FromStrRadix(s, 10)
      case Some(v) => Ok(v)
      case None => Err(ParseErr)
  {
  }

  /** `u8::from_str_radix` takes one leading '+': a '+' before the
      decimal digits of `x` still reads as `x`. */
  lemma ParseNumericPlusDecimal(x: u8)
    ensures ParseNumeric("+" + Digits(x, 10)) == Ok(x)
  {
    FromStrRadixDigits(x, 10);
    assert ("+" + Digits(x, 10))[0] == '+';
  }

  /** The '+' may also follow the '$' prefix. */
  lemma ParseNumericPlusHex(x: u8)
    ensures ParseNumeric("$+" + Digits(x, 16)) == Ok(x)
  {
    var h := Digits(x, 16);
    FromStrRadixDigits(x, 16);
    ParseNumericPrefix('$', "+" + h);
    assert "$+" + h == ['$'] + ("+" + h);
  }

  /** A leading zero is accepted. */
  lemma ParseNumericLeadingZero(x: u8)
    ensures ParseNumeric("0" + Digits(x, 10)) == Ok(x)
  {
    FromStrRadixLeadingZero(x);
    assert ("0" + Digits(x, 10))[0] == '0';
  }

  /** A formatted byte, with or without a leading '+', is read back. */
  lemma FromStrRadixDigits(x: u8, radix: nat)
    requires 2 <= radix <= 36
    ensures FromStrRadix(Digits(x, radix), radix) == Some(x)
    ensures FromStrRadix("+" + Digits(x, radix), radix) == Some(x)
  {
    var d := Digits(x, radix);
    DigitsRoundTrip(x, radix);
    assert Unsigned(d) == d;
    assert Unsigned("+" + d) == d by {
      assert ("+" + d)[1..] == d;
    }
  }

  /** A formatted byte after a leading zero is read back in decimal. */
  lemma FromStrRadixLeadingZero(x: u8)
    ensures FromStrRadix("0" + Digits(x, 10), 10) == Some(x)
  {
    var d := Digits(x, 10);
    DigitsRoundTrip(x, 10);
    LeadingZero(d, 10);
    assert Unsigned("0" + d) == "0" + d;
  }

  /** Hexadecimal digits are read regardless of case. */
  lemma ParseNumericHexCase(s: string)
    ensures ParseNumeric("$" + Upper(s)) == ParseNumeric("$" + s)
  {
    ParseNumericPrefix('$', Upper(s));
    ParseNumericPrefix('$', s);
    DigitsValueUpper(s, 16);
    if 0 < |s| {
      assert Upper(s)[0] == UpperChar(s[0]) by {
        UpperHead(s);
      }
      if s[0] == '+' {
        assert Upper(s)[1..] == Upper(s[1..]) by {
          UpperTail(s);
        }
        DigitsValueUpper(s[1..], 16);
      }
    }
  }

  lemma {:induction false} UpperHead(s: string)
    requires 0 < |s|
    ensures Upper(s)[0] == UpperChar(s[0])
    decreases |s|
  {
    if 1 < |s| {
      UpperHead(s[..|s| - 1]);
    }
  }

  lemma {:induction false} UpperTail(s: string)
    requires 0 < |s|
    ensures Upper(s)[1..] == Upper(s[1..])
    decreases |s|
  {
    if 1 < |s| {
      UpperTail(s[..|s| - 1]);
      assert s[1..][..|s| - 2] == s[..|s| - 1][1..];
    }
  }

  /** Empty operands, and a sign or a prefix with no digits after it,
      are rejected. */
  lemma ParseNumericRejectsEmpty()
    ensures ParseNumeric("") == Err(ParseErr)
    ensures ParseNumeric("+") == Err(ParseErr)
    ensures ParseNumeric("$") == Err(ParseErr)
  {
  }

  /** A minus sign and a digit outside the radix are rejected; an
      unprefixed token is decimal, so a hexadecimal letter there is too. */
  lemma ParseNumericRejectsDigits()
    ensures ParseNumeric("-1") == Err(ParseErr)
    ensures ParseNumeric("%2") == Err(ParseErr)
    ensures ParseNumeric("12a") == Err(ParseErr)
  {
    assert "12a"[..2] == "12" && "12"[..1] == "1" && "1"[..0] == "";
    assert "%2"[1..] == "2";
    assert "-1"[..1] == "-";
  }

  /** Values above 255 are rejected, in decimal and in hexadecimal. */
  lemma ParseNumericRejectsOverflow()
    ensures ParseNumeric("256") == Err(ParseErr)
    ensures ParseNumeric("$100") == Err(ParseErr)
  {
    assert "256"[..2] == "25" && "25"[..1] == "2" && "2"[..0] == "";
    assert "$100"[1..] == "100";
    assert "100"[..2] == "10" && "10"[..1] == "1" && "1"[..0] == "";
  }

  /** `parse_register`: only "A" names a register. */
  function ParseRegister(s: string): (r: Result<Register, AsmErr>)
    ensures r.Ok? <==> s == "A"
    ensures r == Ok(A) || r == Err(UnknownReg)
  {
    if s == "A" then Ok(A) else Err(UnknownReg)
  }

  /** `assert_length`. */
  function AssertLength(parts: seq<string>, n: nat): (r: Result<(), AsmErr>)
    ensures r.Ok? <==> |parts| == n
    ensures r.Err? ==> r.error == LenErr
  {
    if |parts| == n then Ok(()) else Err(LenErr)
  }

  /** The token count `handle_line` demands of each opcode; Nop accepts any
      count and the jumps are never checked. */
  function RequiredLength(c: OpCode): Option<nat>
  {
    match c
    case Push => Some(2)
    case Signal => Some(2)
    case PopRegister => Some(2)
    case PushRegister => Some(2)
    case AddStack => Some(1)
    case AddRegister => Some(3)
    case _ => None
  }

  /** The assembler's operands: every register operand is A. */
  predicate RegistersAreA(i: Instruction)
  {
    match i
    case PopRegister(r) => r == A
    case PushRegister(r) => r == A
    case JmpReg(r) => r == A
    case AddRegister(r1, r2) => r1 == A && r2 == A
    case _ => true
  }

  /** `handle_line`: look up the mnemonic, check the token count, then parse
      the operands. The source's match has no arm for JmpReg or JmpImm;
      here both are UnknownOpCode. `parts` is never empty where it is
      called, and the source indexes `parts[0]` unchecked. */
  function HandleLine(parts: seq<string>): (r: Result<Instruction, AsmErr>)
    requires |parts| >= 1
    ensures FromString(parts[0]).None? ==> r == Err(UnknownOpCode)
    ensures FromString(parts[0]) == Some(OpCode.JmpReg) ==> r == Err(UnknownOpCode)
    ensures FromString(parts[0]) == Some(OpCode.JmpImm) ==> r == Err(UnknownOpCode)
    ensures FromString(parts[0]) == Some(OpCode.Nop) ==> r == Ok(Instruction.Nop)
    ensures (FromString(parts[0]).Some? && RequiredLength(FromString(parts[0]).value).Some? &&
      |parts| != RequiredLength(FromString(parts[0]).value).value) ==> r == Err(LenErr)
    ensures FromString(parts[0]) == Some(OpCode.AddStack) && |parts| == 1 ==> r == Ok(Instruction.AddStack)
    ensures FromString(parts[0]) in {Some(OpCode.Push), Some(OpCode.Signal)} && |parts| == 2 ==>
      (r.Ok? <==> ParseNumeric(parts[1]).Ok?) && (r.Err? ==> r.error == ParseErr)
    ensures FromString(parts[0]) in {Some(OpCode.PopRegister), Some(OpCode.PushRegister)} && |parts| == 2 ==>
      (r.Ok? <==> parts[1] == "A") && (r.Err? ==> r.error == UnknownReg)
    ensures FromString(parts[0]) == Some(OpCode.AddRegister) && |parts| == 3 ==>
      (r.Ok? <==> parts[1] == "A" && parts[2] == "A") && (r.Err? ==> r.error == UnknownReg)
    ensures r.Ok? ==> Mnemonic(OpCodeOf(r.value)) == parts[0] && RegistersAreA(r.value)
    ensures r.Ok? && HasImmediate(r.value) ==> |parts| == 2 && ParseNumeric(parts[1]) == Ok(r.value.imm)
    ensures r.Err? ==> r.error in {UnknownOpCode, LenErr, ParseErr, UnknownReg}
  {
    match FromString(parts[0])
    case None => Err(UnknownOpCode)
    case Some(opcode) =>
      match opcode
      case Nop => Ok(Instruction.Nop)
      case Push =>
        var _ :- AssertLength(parts, 2);
        var x :- ParseNumeric(parts[1]);
        Ok(Instruction.Push(x))
      case AddStack =>
        var _ :- AssertLength(parts, 1);
        Ok(Instruction.AddStack)
      case AddRegister =>
        var _ :- AssertLength(parts, 3);
        var r1 :- ParseRegister(parts[1]);
        var r2 :- ParseRegister(parts[2]);
        Ok(Instruction.AddRegister(r1, r2))
      case PopRegister =>
        var _ :- AssertLength(parts, 2);
        var r :- ParseRegister(parts[1]);
        Ok(Instruction.PopRegister(r))
      case PushRegister =>
        var _ :- AssertLength(parts, 2);
        var r :- ParseRegister(parts[1]);
        Ok(Instruction.PushRegister(r))
      case Signal =>
        var _ :- AssertLength(parts, 2);
        var x :- ParseNumeric(parts[1]);
        Ok(Instruction.Signal(x))
      case JmpReg => Err(UnknownOpCode)
      case JmpImm => Err(UnknownOpCode)
  }

  /** The name a register is written with. */
  function RegisterName(r: Register): string
  {
    match r
    case A => "A"
    case B => "B"
    case C => "C"
    case M => "M"
    case Sp => "Sp"
    case Pc => "Pc"
    case Bp => "Bp"
    case Flags => "Flags"
  }

  /** The tokens of a source line for `i`: the mnemonic, then the operands,
      immediates in decimal. */
  function Render(i: Instruction): (parts: seq<string>)
    ensures |parts| >= 1 && parts[0] == Mnemonic(OpCodeOf(i))
  {
    [Mnemonic(OpCodeOf(i))] +
    match i
    case Push(x) => [Digits(x, 10)]
    case Signal(x) => [Digits(x, 10)]
    case PopRegister(r) => [RegisterName(r)]
    case PushRegister(r) => [RegisterName(r)]
    case JmpReg(r) => [RegisterName(r)]
    case AddRegister(r1, r2) => [RegisterName(r1), RegisterName(r2)]
    case _ => []
  }

  /** The instructions the assembler can produce are exactly those without a
      jump and whose register operands are all A; each of them is read back
      from its rendering. */
  lemma HandleLineRender(i: Instruction)
    ensures HandleLine(Render(i)) == Ok(i) <==> !i.JmpReg? && !i.JmpImm? && RegistersAreA(i)
  {
    OpCodeRoundTrips(OpCodeOf(i));
    match i
    case Push(x) => ParseNumericRoundTrip(x);
    case Signal(x) => ParseNumericRoundTrip(x);
    case _ =>
  }

  /** `line.split(' ')`: the pieces between single spaces, empty ones
      included; there is always at least one piece. */
  function Split(s: string): (r: seq<string>)
    ensures |r| >= 1
    ensures forall k :: 0 <= k < |r| ==> ' ' !in r[k]
    ensures JoinSpaces(r) == s
    decreases |s|
  {
    if |s| == 0 then [""]
    else if s[0] == ' ' then [""] + Split(s[1..])
    else
      var rest := Split(s[1..]);
      [[s[0]] + rest[0]] + rest[1..]
  }

  /** The pieces joined back with one space between neighbours. */
  function JoinSpaces(r: seq<string>): string
    requires |r| >= 1
    decreases |r|
  {
    if |r| == 1 then r[0] else r[0] + " " + JoinSpaces(r[1..])
  }

  /** Splitting a join of space-free pieces gives the pieces back. */
  lemma {:induction false} SplitJoin(r: seq<string>)
    requires |r| >= 1 && forall k :: 0 <= k < |r| ==> ' ' !in r[k]
    ensures Split(JoinSpaces(r)) == r
    decreases |r|, |r[0]|
  {
    var s := JoinSpaces(r);
    if |r[0]| == 0 {
      if |r| > 1 {
        assert s == " " + JoinSpaces(r[1..]);
        assert s[1..] == JoinSpaces(r[1..]);
        SplitJoin(r[1..]);
        assert [""] + r[1..] == r;
      }
    } else {
      var r' := [r[0][1..]] + r[1..];
      assert r'[1..] == r[1..];
      assert ' ' !in r'[0];
      assert s[1..] == JoinSpaces(r') by {
        if |r| == 1 {
        } else {
          assert (r[0] + " " + JoinSpaces(r[1..]))[1..] == r[0][1..] + " " + JoinSpaces(r[1..]);
        }
      }
      assert s[0] == r[0][0];
      SplitJoin(r');
      assert [r[0][0]] + r[0][1..] == r[0];
      assert [[r[0][0]] + r'[0]] + r'[1..] == r;
    }
  }

  /** The non-empty pieces, in order. */
  function NonEmpty(r: seq<string>): (t: seq<string>)
    ensures forall k :: 0 <= k < |t| ==> t[k] != [] && t[k] in r
    ensures forall p :: p in r && p != [] ==> p in t
    decreases |r|
  {
    if |r| == 0 then []
    else if r[0] == [] then NonEmpty(r[1..])
    else [r[0]] + NonEmpty(r[1..])
  }

  /** The tokens of a line: maximal runs of characters other than ' '.
      Other white space, a tab for one, is part of a token. */
  function Tokens(line: string): (t: seq<string>)
    ensures forall k :: 0 <= k < |t| ==> t[k] != [] && ' ' !in t[k]
  {
    NonEmpty(Split(line))
  }

  /** Tokens joined with single spaces are read back exactly. */
  lemma TokensOfJoin(ts: seq<string>)
    requires |ts| >= 1 && forall k :: 0 <= k < |ts| ==> ts[k] != [] && ' ' !in ts[k]
    ensures Tokens(JoinSpaces(ts)) == ts
  {
    SplitJoin(ts);
    NonEmptyAll(ts);
  }

  lemma {:induction false} NonEmptyAll(r: seq<string>)
    requires forall k :: 0 <= k < |r| ==> r[k] != []
    ensures NonEmpty(r) == r
    decreases |r|
  {
    if |r| > 0 {
      NonEmptyAll(r[1..]);
    }
  }

  /** Dropping the empty pieces of two runs of pieces, one after the other,
      keeps the non-empty pieces of each, in order. */
  lemma {:induction false} NonEmptyAppend(a: seq<string>, b: seq<string>)
    ensures NonEmpty(a + b) == NonEmpty(a) + NonEmpty(b)
    decreases |a|
  {
    if |a| == 0 {
      assert a + b == b;
    } else {
      assert (a + b)[0] == a[0] && (a + b)[1..] == a[1..] + b;
      NonEmptyAppend(a[1..], b);
    }
  }

  /** Splitting at a space: the pieces before it, then the pieces after it. */
  lemma {:induction false} SplitAtSpace(a: string, b: string)
    ensures Split(a + " " + b) == Split(a) + Split(b)
    decreases |a|
  {
    var line := a + " " + b;
    if |a| == 0 {
      assert line == " " + b && line[1..] == b;
    } else {
      assert line[0] == a[0] && line[1..] == a[1..] + " " + b;
      SplitAtSpace(a[1..], b);
    }
  }

  /** A space separates tokens: the tokens of the text before it, then those
      of the text after it. Together with `TokensOfWord`, this determines
      the tokens of every line. */
  lemma TokensAtSpace(a: string, b: string)
    ensures Tokens(a + " " + b) == Tokens(a) + Tokens(b)
  {
    SplitAtSpace(a, b);
    NonEmptyAppend(Split(a), Split(b));
  }

  /** Text without a space is one token, or none when it is empty. */
  lemma TokensOfWord(t: string)
    requires ' ' !in t
    ensures Tokens(t) == if t == [] then [] else [t]
  {
    assert JoinSpaces([t]) == t;
    SplitJoin([t]);
    assert Split(t) == [t];
    assert [t][1..] == [];
    assert NonEmpty([t][1..]) == [];
    if t != [] {
      assert NonEmpty([t]) == [t] + NonEmpty([t][1..]);
    }
  }

  /** A run of `n` spaces. */
  function Spaces(n: nat): (s: string)
    ensures |s| == n && forall k :: 0 <= k < n ==> s[k] == ' '
  {
    seq(n, _ => ' ')
  }

  /** A line of spaces has no tokens, and spaces around text add none. */
  lemma {:induction false} TokensOfSpaces(n: nat, x: string)
    ensures Tokens(Spaces(n)) == []
    ensures Tokens(Spaces(n) + x) == Tokens(x)
    ensures Tokens(x + Spaces(n)) == Tokens(x)
    decreases n
  {
    if n == 0 {
      TokensOfWord("");
      assert Spaces(n) + x == x && x + Spaces(n) == x;
    } else {
      var sp := Spaces(n - 1);
      TokensOfSpaces(n - 1, x);
      TokensOfWord("");
      assert Spaces(n) == sp + " " + "";
      TokensAtSpace(sp, "");
      assert Spaces(n) + x == sp + " " + x;
      TokensAtSpace(sp, x);
      assert x + Spaces(n) == x + " " + sp;
      TokensAtSpace(x, sp);
    }
  }

  /** Two words with any spaces before, between (at least one) and after
      them are the line's two tokens. */
  lemma TokensSpaced(t: string, u: string, a: nat, b: nat, c: nat)
    requires t != [] && u != [] && ' ' !in t && ' ' !in u && b >= 1
    ensures Tokens(Spaces(a) + t + Spaces(b) + u + Spaces(c)) == [t, u]
  {
    var left, right := Spaces(a) + t + Spaces(b - 1), u + Spaces(c);
    assert Spaces(b) == Spaces(b - 1) + " ";
    assert Spaces(a) + t + Spaces(b) + u + Spaces(c) == left + " " + right;
    TokensAtSpace(left, right);
    TokensOfSpaces(b - 1, Spaces(a) + t);
    TokensOfSpaces(a, t);
    TokensOfSpaces(c, u);
    TokensOfWord(t);
    TokensOfWord(u);
  }

  /** A line of one or more spaces contributes no bytes. */
  lemma SpacesSkipped(n: nat)
    requires n > 0
    ensures AssembleLine(Spaces(n)) == Ok([])
  {
    TokensOfSpaces(n, "");
  }

  /** Whether a line contributes nothing: empty, a comment starting in the
      first column, or nothing but spaces. */
  predicate Skipped(line: string)
  {
    |line| == 0 || line[0] == ';' || |Tokens(line)| == 0
  }

  /** One pass of `main`'s loop: a skipped line yields no bytes; any other
      line yields the low byte and then the high byte of its encoding. */
  function AssembleLine(line: string): (r: Result<seq<u8>, AsmErr>)
    ensures Skipped(line) ==> r == Ok([])
    ensures !Skipped(line) ==> (r.Ok? <==> HandleLine(Tokens(line)).Ok?)
    ensures !Skipped(line) && r.Err? ==> r.error == HandleLine(Tokens(line)).error
    ensures !Skipped(line) && r.Ok? ==>
      |r.value| == 2 && Word(r.value[0], r.value[1]) == EncodeU16(HandleLine(Tokens(line)).value)
  {
    if |line| == 0 then Ok([])
    else if line[0] == ';' then Ok([])
    else
      var parts := Tokens(line);
      if |parts| == 0 then Ok([])
      else
        var instruction :- HandleLine(parts);
        Ok(WordBytes(EncodeU16(instruction)))
  }

  /** The two bytes `main` pushes for an encoded word:
      `(raw & 0xff) as u8`, then `(raw >> 8) as u8`. */
  function WordBytes(raw: u16): (b: seq<u8>)
    ensures |b| == 2 && Word(b[0], b[1]) == raw
  {
    AndLowByte(raw);
    assert Pow2(8) == 0x100;
    ShrDiv(raw, 8);
    DivModUnique(raw, 0x100, raw / 0x100, raw % 0x100);
    [AsU8(And(raw, 0xFF)), AsU8(Shr(raw, 8))]
  }

  /** `main`'s loop as a whole: the bytes of every line in order, or the
      error of the first line that fails; an error is always some line's. */
  function Assemble(lines: seq<string>): (r: Result<seq<u8>, AsmErr>)
    ensures r.Err? ==> exists k :: 0 <= k < |lines| && AssembleLine(lines[k]) == Err(r.error)
    decreases |lines|
  {
    if |lines| == 0 then Ok([])
    else
      var init := lines[..|lines| - 1];
      assert forall k :: 0 <= k < |init| ==> init[k] == lines[k];
      var prev :- Assemble(init);
      var bytes :- AssembleLine(lines[|lines| - 1]);
      Ok(prev + bytes)
  }

  /** The number of lines that are not skipped. */
  function InstructionLines(lines: seq<string>): (n: nat)
    ensures n <= |lines|
    decreases |lines|
  {
    if |lines| == 0 then 0
    else InstructionLines(lines[..|lines| - 1]) + if Skipped(lines[|lines| - 1]) then 0 else 1
  }

  /** Assembly succeeds exactly when every line does. */
  lemma {:induction false} AssembleOk(lines: seq<string>)
    ensures Assemble(lines).Ok? <==> forall k :: 0 <= k < |lines| ==> AssembleLine(lines[k]).Ok?
    decreases |lines|
  {
    if |lines| > 0 {
      var init, last := lines[..|lines| - 1], lines[|lines| - 1];
      AssembleOk(init);
      assert Assemble(lines).Ok? <==> Assemble(init).Ok? && AssembleLine(last).Ok?;
      AllLinesSplit(lines);
    }
  }

  lemma AllLinesSplit(lines: seq<string>)
    requires |lines| > 0
    ensures (forall k :: 0 <= k < |lines| ==> AssembleLine(lines[k]).Ok?) <==>
      (forall line :: line in lines[..|lines| - 1] ==> AssembleLine(line).Ok?) &&
      AssembleLine(lines[|lines| - 1]).Ok?
  {
    var init := lines[..|lines| - 1];
    assert forall k :: 0 <= k < |init| ==> init[k] == lines[k];
  }

  /** A successful run writes exactly two bytes per instruction line. */
  lemma {:induction false} AssembleLength(lines: seq<string>)
    requires Assemble(lines).Ok?
    ensures |Assemble(lines).value| == 2 * InstructionLines(lines)
    decreases |lines|
  {
    if |lines| > 0 {
      AssembleLength(lines[..|lines| - 1]);
    }
  }

  /** The byte strings of a run of lines, one after the other. */
  function Concat(parts: seq<seq<u8>>): seq<u8>
    decreases |parts|
  {
    if |parts| == 0 then [] else Concat(parts[..|parts| - 1]) + parts[|parts| - 1]
  }

  /** When line `k` assembles to `parts[k]` for every `k`, the program
      assembles to those byte strings in line order. */
  lemma {:induction false} AssembleEach(lines: seq<string>, parts: seq<seq<u8>>)
    requires |parts| == |lines|
    requires forall k :: 0 <= k < |lines| ==> AssembleLine(lines[k]) == Ok(parts[k])
    ensures Assemble(lines) == Ok(Concat(parts))
    decreases |lines|
  {
    if |lines| > 0 {
      var n := |lines| - 1;
      assert forall k :: 0 <= k < n ==> lines[..n][k] == lines[k] && parts[..n][k] == parts[k];
      AssembleEach(lines[..n], parts[..n]);
    }
  }

  /** The run stops at the first failing line and reports its error. */
  lemma {:induction false} AssembleFirstError(lines: seq<string>, k: nat)
    requires k < |lines| && AssembleLine(lines[k]).Err?
    requires forall j :: 0 <= j < k ==> AssembleLine(lines[j]).Ok?
    ensures Assemble(lines) == Err(AssembleLine(lines[k]).error)
    decreases |lines|
  {
    var init := lines[..|lines| - 1];
    if k < |lines| - 1 {
      assert init[k] == lines[k];
      assert forall j :: 0 <= j < k ==> init[j] == lines[j];
      AssembleFirstError(init, k);
      assert Assemble(lines) == Assemble(init);
    } else {
      assert forall j :: 0 <= j < |init| ==> init[j] == lines[j];
      AssembleOk(init);
      assert Assemble(init).Ok?;
    }
  }

  /** One more line: its bytes are appended, or its error ends the run. */
  lemma AssembleExtend(lines: seq<string>, k: nat, output: seq<u8>)
    requires k < |lines| && Assemble(lines[..k]) == Ok(output)
    ensures AssembleLine(lines[k]).Ok? ==> Assemble(lines[..k + 1]) == Ok(output + AssembleLine(lines[k]).value)
    ensures AssembleLine(lines[k]).Err? ==> Assemble(lines) == Err(AssembleLine(lines[k]).error)
  {
    assert lines[..k + 1][..k] == lines[..k];
    if AssembleLine(lines[k]).Err? {
      AssembleOk(lines[..k]);
      assert forall j :: 0 <= j < k ==> lines[..k][j] == lines[j];
      AssembleFirstError(lines, k);
    }
  }

  /** The loop of `main`: skips empty lines, comment lines and lines of
      spaces, appends two bytes for every other line, and gives up with the
      first error. */
  method AssembleProgram(lines: seq<string>) returns (r: Result<seq<u8>, AsmErr>)
    ensures r == Assemble(lines)
  {
    var output: seq<u8> := [];
    var k := 0;
    while k < |lines|
      invariant k <= |lines|
      invariant Assemble(lines[..k]) == Ok(output)
    {
      var line := lines[k];
      AssembleExtend(lines, k, output);
      if |line| == 0 {
        assert output + [] == output;
        assert Assemble(lines[..k + 1]) == Ok(output);
        k := k + 1;
        continue;
      }
      if line[0] == ';' {
        assert output + [] == output;
        assert Assemble(lines[..k + 1]) == Ok(output);
        k := k + 1;
        continue;
      }
      var parts := Tokens(line);
      if |parts| == 0 {
        assert output + [] == output;
        assert Assemble(lines[..k + 1]) == Ok(output);
        k := k + 1;
        continue;
      }
      var instruction := HandleLine(parts);
      if instruction.Err? {
        return Err(instruction.error);
      }
      var raw := EncodeU16(instruction.value);
      ghost var before := output;
      output := output + [AsU8(And(raw, 0xFF))];
      output := output + [AsU8(Shr(raw, 8))];
      assert output == before + WordBytes(raw);
      assert AssembleLine(line) == Ok(WordBytes(raw));
      assert Assemble(lines[..k + 1]) == Ok(output);
      k := k + 1;
    }
    assert lines[..k] == lines;
    r := Ok(output);
  }

  /** A comment must start in the first column: after a leading space the
      ';' begins an unknown mnemonic. */
  lemma IndentedComment(line: string)
    requires line == " ; note"
    ensures AssembleLine(line) == Err(UnknownOpCode)
  {
    IndentedCommentTokens(line);
    UnknownMnemonicLine(line);
  }

  /** A line whose first token is not a mnemonic fails with UnknownOpCode. */
  lemma UnknownMnemonicLine(line: string)
    requires 0 < |line| && line[0] != ';' && |Tokens(line)| > 0
    requires FromString(Tokens(line)[0]).None?
    ensures AssembleLine(line) == Err(UnknownOpCode)
  {
    assert !Skipped(line);
  }

  /** The tokens of " ; note". As in the other lemmas about one literal
      line, the line is a parameter required to equal the literal, so that
      the solver does not unfold the literal character by character. */
  lemma IndentedCommentTokens(line: string)
    requires line == " ; note"
    ensures Tokens(line) == [";", "note"] && FromString(";").None?
  {
    var pieces := ["", ";", "note"];
    assert JoinSpaces(pieces) == " ; note" by {
      assert pieces[1..] == [";", "note"] && pieces[1..][1..] == ["note"];
    }
    SplitJoin(pieces);
    assert NonEmpty(pieces) == [";", "note"] by {
      assert pieces[1..] == [";", "note"] && pieces[1..][1..] == ["note"] && pieces[1..][1..][1..] == [];
    }
  }

  /** Only ' ' separates tokens: a tab is part of the mnemonic, which is
      then unknown. */
  lemma TabIsNotSeparator(line: string)
    requires line == "Push\t5"
    ensures AssembleLine(line) == Err(UnknownOpCode)
  {
    TabTokens(line);
    UnknownMnemonicLine(line);
  }

  /** "Push\t5" is a single token, and not a mnemonic. */
  lemma TabTokens(line: string)
    requires line == "Push\t5"
    ensures Tokens(line) == [line] && FromString(line).None?
  {
    var pieces := ["Push\t5"];
    SplitJoin(pieces);
    assert NonEmpty(pieces) == pieces by {
      assert pieces[1..] == [];
    }
  }
}
