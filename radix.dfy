/** Rust's `u8::from_str_radix` and `char::to_digit`, which the assembler's
    numeric parser relies on, together with a digit formatter used to state
    what the parser accepts. */
module Radix {
  import opened Results
  import opened Bits

  /** `char::to_digit(radix)`: '0'-'9' are 0-9, and letters of either case
      are 10-35; the digit must be below the radix. */
  function DigitValue(c: char, radix: nat): (r: Option<nat>)
    ensures r.Some? ==> r.value < radix
    ensures r.Some? ==> '0' <= c <= '9' || 'a' <= c <= 'z' || 'A' <= c <= 'Z'
  {
    var d: int :=
      if '0' <= c <= '9' then c as int - '0' as int
      else if 'a' <= c <= 'z' then c as int - 'a' as int + 10
      else if 'A' <= c <= 'Z' then c as int - 'A' as int + 10
      else -1;
    if 0 <= d < radix then Some(d) else None
  }

  /** The value of a numeral, most significant digit first, or nothing
      when some character is not a digit of the radix. The empty numeral is
      0; its callers reject it beforehand. */
  function DigitsValue(ds: string, radix: nat): Option<nat>
    decreases |ds|
  {
    if |ds| == 0 then Some(0)
    else
      match DigitsValue(ds[..|ds| - 1], radix)
      case None => None
      case Some(v) =>
        match DigitValue(ds[|ds| - 1], radix)
        case None => None
        case Some(d) => Some(v * radix + d)
  }

  /** `u8::from_str_radix`: empty input and a lone sign are errors; one
      leading '+' is skipped ('-' is not a digit, so it is an error for an
      unsigned type); every remaining character must be a digit, and the
      value must fit in eight bits. */
  function FromStrRadix(src: string, radix: nat): (r: Option<u8>)
    requires 2 <= radix <= 36
    ensures |src| == 0 ==> r.None?
    ensures r.Some? ==> |Unsigned(src)| > 0 && DigitsValue(Unsigned(src), radix) == Some(r.value)
    ensures (|Unsigned(src)| > 0 && DigitsValue(Unsigned(src), radix).Some? &&
      DigitsValue(Unsigned(src), radix).value < 0x100) ==> r.Some?
  {
    if |src| == 0 then None
    else if (src[0] == '+' || src[0] == '-') && |src| == 1 then None
    else
      var digits := if src[0] == '+' then src[1..] else src;
      match DigitsValue(digits, radix)
      case None => None
      case Some(v) => if v < 0x100 then Some(v) else None
  }

  /** The numeral with its optional leading '+' removed. */
  function Unsigned(src: string): string
  {
    if 0 < |src| && src[0] == '+' then src[1..] else src
  }

  /** The lower-case digit character for `d`. */
  function DigitChar(d: nat): (c: char)
    requires d < 36
    ensures forall radix: nat :: d < radix ==> DigitValue(c, radix) == Some(d)
  {
    if d < 10 then ('0' as int + d) as char else ('a' as int + d - 10) as char
  }

  /** The digit table is exactly the lower-case digits `DigitChar` writes
      and their upper-case forms: every character read as digit `d` is one
      of the two, and both are read as `d` in any radix above `d`. */
  lemma DigitValueTable(c: char, d: nat, radix: nat)
    requires d < radix
    ensures DigitValue(c, radix) == Some(d) <==>
      d < 36 && (c == DigitChar(d) || c == UpperChar(DigitChar(d)))
  {
  }

  /** `n` written in `radix`, most significant digit first, without leading
      zeros. */
  function Digits(n: nat, radix: nat): (s: string)
    requires 2 <= radix <= 36
    ensures |s| >= 1 && ('0' <= s[0] <= '9' || 'a' <= s[0] <= 'z')
    decreases n
  {
    if n < radix then [DigitChar(n)]
    else
      DivideStep(n, radix);
      Digits(n / radix, radix) + [DigitChar(n % radix)]
  }

  /** One step of long division by the radix. */
  lemma DivideStep(n: nat, d: nat)
    requires 2 <= d <= n
    ensures n / d < n && n % d < d && (n / d) * d + n % d == n
  {
  }

  /** Reading back a formatted number gives the number. */
  lemma {:induction false} DigitsRoundTrip(n: nat, radix: nat)
    requires 2 <= radix <= 36
    ensures DigitsValue(Digits(n, radix), radix) == Some(n)
    decreases n
  {
    var s := Digits(n, radix);
    if n < radix {
      assert s[..0] == [];
    } else {
      DivideStep(n, radix);
      DigitsRoundTrip(n / radix, radix);
      assert s[..|s| - 1] == Digits(n / radix, radix);
    }
  }

  /** Leading zeros do not change the value. */
  lemma {:induction false} LeadingZero(ds: string, radix: nat)
    requires 2 <= radix
    ensures DigitsValue("0" + ds, radix) == DigitsValue(ds, radix)
    decreases |ds|
  {
    if |ds| > 0 {
      var s := "0" + ds;
      assert s[..|s| - 1] == "0" + ds[..|ds| - 1];
      LeadingZero(ds[..|ds| - 1], radix);
    } else {
      assert ("0" + ds)[..0] == [];
    }
  }

  /** The upper-case form of a letter; other characters are unchanged. */
  function UpperChar(c: char): char
  {
    if 'a' <= c <= 'z' then (c as int - 'a' as int + 'A' as int) as char else c
  }

  /** A string with every lower-case letter made upper-case. */
  function Upper(s: string): (r: string)
    ensures |r| == |s|
    decreases |s|
  {
    if |s| == 0 then [] else Upper(s[..|s| - 1]) + [UpperChar(s[|s| - 1])]
  }

  /** Letter digits are read without regard to case. */
  lemma {:induction false} DigitsValueUpper(ds: string, radix: nat)
    ensures DigitsValue(Upper(ds), radix) == DigitsValue(ds, radix)
    decreases |ds|
  {
    if |ds| > 0 {
      var u := Upper(ds);
      assert u[..|u| - 1] == Upper(ds[..|ds| - 1]);
      DigitsValueUpper(ds[..|ds| - 1], radix);
    }
  }
}
