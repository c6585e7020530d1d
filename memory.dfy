/** The byte memory the engine owns. Its implementation (`crate::memory`,
    `Addressable`, `LinearMemory`) is not part of this model; what the engine
    relies on is stated here as an assumption: a fixed 8192-byte store whose
    `read2`/`write2` succeed exactly when both bytes `addr` and `addr+1` are
    in range, are little-endian, and write both bytes or neither. */
module Memory {
  import opened Results
  import opened Bits

  /** Capacity of the memory `Machine::new` allocates (8 * 1024 bytes). */
  const Capacity: nat := 8192

  /** The word whose low byte is `lo` and high byte is `hi`. */
  function Word(lo: u8, hi: u8): (w: u16)
    ensures w % 0x100 == lo && w / 0x100 == hi
  {
    DivModUnique(lo + 0x100 * hi, 0x100, hi, lo);
    lo + 0x100 * hi
  }

  /** `read2`: the little-endian word at `addr`, or nothing when `addr+1`
      is out of range. */
  function ReadWord(mem: seq<u8>, addr: u16): (r: Option<u16>)
    ensures r.Some? <==> addr + 1 < |mem|
    ensures r.Some? ==> r.value % 0x100 == mem[addr] && r.value / 0x100 == mem[addr + 1]
  {
    if addr + 1 < |mem| then Some(Word(mem[addr], mem[addr + 1])) else None
  }

  /** `write2`: the memory with the low byte of `v` at `addr` and its high
      byte at `addr+1`, or nothing (no byte written) when `addr+1` is out of
      range. */
  function WriteWord(mem: seq<u8>, addr: u16, v: u16): (r: Option<seq<u8>>)
    ensures r.Some? <==> addr + 1 < |mem|
    ensures r.Some? ==> |r.value| == |mem|
    ensures r.Some? ==> r.value[addr] == v % 0x100 && r.value[addr + 1] == v / 0x100
    ensures r.Some? ==> forall i :: 0 <= i < |mem| && i != addr && i != addr + 1 ==> r.value[i] == mem[i]
  {
    if addr + 1 < |mem| then
      Some(mem[addr := v % 0x100][addr + 1 := v / 0x100])
    else
      None
  }

  /** Reading back a word just written gives that word. */
  lemma ReadAfterWrite(mem: seq<u8>, addr: u16, v: u16)
    requires WriteWord(mem, addr, v).Some?
    ensures ReadWord(WriteWord(mem, addr, v).value, addr) == Some(v)
  {
  }

  /** A write leaves every word that does not overlap it unchanged. */
  lemma ReadOtherAfterWrite(mem: seq<u8>, addr: u16, v: u16, other: u16)
    requires WriteWord(mem, addr, v).Some?
    requires other + 1 < addr || addr + 1 < other
    ensures ReadWord(WriteWord(mem, addr, v).value, other) == ReadWord(mem, other)
  {
  }

  /** The linear backing store: a fixed byte array. */
  class LinearMemory {
    const bytes: array<u8>

    /** A zero-filled memory of `size` bytes. */
    constructor (size: nat)
      ensures fresh(bytes) && bytes.Length == size
      ensures forall i :: 0 <= i < size ==> bytes[i] == 0
    {
      bytes := new u8[size](_ => 0);
    }

    /** `read2` on the array. */
    function Read2(addr: u16): (r: Option<u16>)
      reads bytes
      ensures r == ReadWord(bytes[..], addr)
    {
      if addr + 1 < bytes.Length then Some(Word(bytes[addr], bytes[addr + 1])) else None
    }

    /** `write2` on the array, in place, both bytes or neither. */
    method Write2(addr: u16, v: u16) returns (ok: bool)
      modifies bytes
      ensures ok <==> addr + 1 < bytes.Length
      ensures ok ==> WriteWord(old(bytes[..]), addr, v) == Some(bytes[..])
      ensures !ok ==> bytes[..] == old(bytes[..])
    {
      ok := addr + 1 < bytes.Length;
      if ok {
        bytes[addr] := v % 0x100;
        bytes[addr + 1] := v / 0x100;
      }
    }
  }
}
