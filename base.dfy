// Fixed-width integers, byte encodings and small helpers shared by the
// layout manager, the producer and the logger.

module Base {

  const U8: nat := 0x100
  const U16: nat := 0x1_0000
  const U32: nat := 0x1_0000_0000
  const U64: nat := 0x1_0000_0000_0000_0000

  /** An unsigned byte (uint8_t). */
  newtype u8 = x: int | 0 <= x < 0x100

  /** An unsigned 16-bit value: sample_t and uint16_t. */
  newtype u16 = x: int | 0 <= x < 0x1_0000

  datatype Option<+T> = None | Some(value: T)

  function Min(a: nat, b: nat): nat
  {
    if a <= b then a else b
  }

  /** htole16: the low 16 bits of x, least significant byte first. */
  function LE16(x: nat): (r: seq<u8>)
    ensures |r| == 2
  {
    [(x % 0x100) as u8, ((x / 0x100) % 0x100) as u8]
  }

  /** htole32: the low 32 bits of x, least significant byte first. */
  function LE32(x: nat): (r: seq<u8>)
    ensures |r| == 4
  {
    [(x % 0x100) as u8, ((x / 0x100) % 0x100) as u8,
     ((x / 0x1_0000) % 0x100) as u8, ((x / 0x100_0000) % 0x100) as u8]
  }

  /** Reads a little-endian 16-bit value at offset k. */
  function U16At(b: seq<u8>, k: nat): nat
    requires k + 2 <= |b|
  {
    b[k] as nat + 0x100 * b[k + 1] as nat
  }

  /** Reads a little-endian 32-bit value at offset k. */
  function U32At(b: seq<u8>, k: nat): nat
    requires k + 4 <= |b|
  {
    b[k] as nat + 0x100 * b[k + 1] as nat + 0x1_0000 * b[k + 2] as nat + 0x100_0000 * b[k + 3] as nat
  }

  lemma LE16Decodes(x: nat)
    ensures U16At(LE16(x), 0) == x % U16
  {
    var b := LE16(x);
    assert x % 0x1_0000 == (x % 0x100) + 0x100 * ((x / 0x100) % 0x100);
  }

  lemma LE32Decodes(x: nat)
    ensures U32At(LE32(x), 0) == x % U32
  {
    var q1 := x / 0x100;
    var q2 := q1 / 0x100;
    var q3 := q2 / 0x100;
    var lo := x % 0x100 + 0x100 * (q1 % 0x100) + 0x1_0000 * (q2 % 0x100) + 0x100_0000 * (q3 % 0x100);
    assert U32At(LE32(x), 0) == lo by {
      assert x / 0x1_0000 == q2;
      assert x / 0x100_0000 == q3;
    }
    assert x == lo + U32 * (q3 / 0x100) by {
      assert x == x % 0x100 + 0x100 * q1;
      assert q1 == q1 % 0x100 + 0x100 * q2;
      assert q2 == q2 % 0x100 + 0x100 * q3;
      assert q3 == q3 % 0x100 + 0x100 * (q3 / 0x100);
    }
    SplitMod(x, lo, q3 / 0x100);
  }

  /** x = lo + 2^32 hi with lo a 32-bit value leaves lo as the remainder. */
  lemma SplitMod(x: nat, lo: nat, hi: nat)
    requires x == lo + U32 * hi && lo < U32
    ensures x % U32 == lo
  {
  }
}
