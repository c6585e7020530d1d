/** The register file's identifiers (src/register.rs; src/vm.rs declares an
    identical copy with the same `from_u8`, modelled here once). */
module Registers {
  import opened Results
  import opened Bits

  /** The eight registers, in declaration order. */
  datatype Register = A | B | C | M | Sp | Pc | Bp | Flags

  /** `r as u8`: the implicit discriminant of a `#[repr(u8)]` enum, which is
      the declaration position. It always fits the 4-bit register field. */
  function Ordinal(r: Register): (n: u8)
    ensures n < 8
  {
    match r
    case A => 0
    case B => 1
    case C => 2
    case M => 3
    case Sp => 4
    case Pc => 5
    case Bp => 6
    case Flags => 7
  }

  /** The slot of `r` in the eight-entry register file (`r as usize`). */
  function Index(r: Register): (i: nat)
    ensures i < 8
  {
    Ordinal(r)
  }

  /** `Register::from_u8`: a chain of guards comparing against each
      discriminant in turn. */
  function FromU8(v: u8): (r: Option<Register>)
    ensures r.Some? <==> v < 8
    ensures r.Some? ==> Ordinal(r.value) == v
  {
    if v == Ordinal(A) then Some(A)
    else if v == Ordinal(B) then Some(B)
    else if v == Ordinal(C) then Some(C)
    else if v == Ordinal(M) then Some(M)
    else if v == Ordinal(Sp) then Some(Sp)
    else if v == Ordinal(Pc) then Some(Pc)
    else if v == Ordinal(Bp) then Some(Bp)
    else if v == Ordinal(Flags) then Some(Flags)
    else None
  }

  /** Decoding the discriminant gives the register back. */
  lemma FromU8Ordinal(r: Register)
    ensures FromU8(Ordinal(r)) == Some(r)
  {
  }

  /** Ids 0..7 name the registers in the fixed order A, B, C, M, Sp, Pc, Bp,
      Flags. */
  lemma FromU8Order()
    ensures FromU8(0) == Some(A) && FromU8(1) == Some(B)
    ensures FromU8(2) == Some(C) && FromU8(3) == Some(M)
    ensures FromU8(4) == Some(Sp) && FromU8(5) == Some(Pc)
    ensures FromU8(6) == Some(Bp) && FromU8(7) == Some(Flags)
  {
  }

  /** Distinct registers have distinct ordinals, so the register file slots
      never alias. */
  lemma OrdinalInjective(r1: Register, r2: Register)
    ensures Ordinal(r1) == Ordinal(r2) <==> r1 == r2
  {
    FromU8Ordinal(r1);
    FromU8Ordinal(r2);
  }
}
