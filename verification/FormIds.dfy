/** 32-bit form ids: a file index in the top byte, a base id in the low 24
    bits, and the shard an id belongs to in the VR map. Ids are numbers below
    2^32; the mask lemmas say that division and remainder are what the
    source's masks and shifts compute. */
module FormIds {
  type FormId = x: int | 0 <= x < 0x1_0000_0000

  const SHARD_COUNT := 64

  function SplitID(id: FormId): (nat, nat) {
    (id % 0x100_0000, id / 0x100_0000)
  }

  function Base(id: FormId): nat { SplitID(id).0 }

  function FileIndex(id: FormId): nat { SplitID(id).1 }

  /** Ids of file 0x00 and of index 0xFD are kept in an exact map. */
  predicate IsSpecial(id: FormId) { FileIndex(id) == 0x00 || FileIndex(id) == 0xFD }

  function ShardIndex(id: FormId): (k: nat)
    ensures k < SHARD_COUNT
  {
    Base(id) % SHARD_COUNT
  }

  lemma SplitAt24(x: bv32)
    ensures x as int == 0x100_0000 * ((x >> 24) as int) + ((x & 0x00FF_FFFF) as int)
  {
  }

  lemma SplitAt16(y: bv32)
    requires y < 0x100_0000
    ensures y as int == 0x1_0000 * ((y >> 16) as int) + ((y & 0xFFFF) as int)
  {
  }

  lemma SplitAt8(y: bv32)
    requires y < 0x1_0000
    ensures y as int == 0x100 * ((y >> 8) as int) + ((y & 0xFF) as int)
  {
  }

  lemma SplitAt6(y: bv32)
    requires y < 0x100
    ensures y as int == 64 * ((y >> 6) as int) + ((y & 63) as int)
  {
  }

  lemma Below8(y: bv32)
    requires y < 0x100
    ensures y as int < 0x100
  {
  }

  lemma Below16(y: bv32)
    requires y < 0x1_0000
    ensures y as int < 0x1_0000
  {
    SplitAt8(y);
    HighAndLow(y);
    Below8(y >> 8);
    Below8(y & 0xFF);
  }

  lemma Below24(y: bv32)
    requires y < 0x100_0000
    ensures y as int < 0x100_0000
  {
    SplitAt16(y);
    HighAndLow(y);
    Below8(y >> 16);
    Below16(y & 0xFFFF);
  }

  lemma HighAndLow(y: bv32)
    ensures y < 0x1_0000 ==> y >> 8 < 0x100
    ensures y < 0x100_0000 ==> y >> 16 < 0x100
    ensures y & 0xFF < 0x100 && y & 0xFFFF < 0x1_0000
  {
  }

  lemma ShardRange(x: bv32)
    ensures 0 <= (x & 63) as int < 64
  {
    assert x & 63 < 64;
  }

  lemma MaskedBase(x: bv32)
    ensures x & 0x00FF_FFFF < 0x100_0000
  {
  }

  lemma LowSixBits(y: bv32)
    ensures ((y & 0xFFFF) & 0xFF) & 63 == y & 63
    ensures y & 0xFFFF < 0x1_0000 && (y & 0xFFFF) & 0xFF < 0x100
  {
  }

  lemma TopByte(x: bv32)
    ensures (x >> 24) & 0xFF == x >> 24
  {
  }

  lemma QuotientAndRemainder(id: FormId, q: int, r: int)
    requires id == 0x100_0000 * q + r && 0 <= r < 0x100_0000
    ensures SplitID(id) == (r, q)
  {
  }

  lemma MaskAndShiftParts(x: bv32) returns (q: int, r: int)
    ensures q == ((x >> 24) & 0xFF) as int && r == (x & 0x00FF_FFFF) as int
    ensures x as int == 0x100_0000 * q + r && 0 <= r < 0x100_0000
  {
    SplitAt24(x);
    MaskedBase(x);
    Below24(x & 0x00FF_FFFF);
    TopByte(x);
    q, r := (x >> 24) as int, (x & 0x00FF_FFFF) as int;
  }

  /** `& 0x00FFFFFF` and `>> 24 & 0xFF` are the remainder and the quotient by 2^24. */
  lemma SplitIsMaskAndShift(id: FormId, x: bv32)
    requires id == x as int
    ensures SplitID(id) == ((x & 0x00FF_FFFF) as int, ((x >> 24) & 0xFF) as int)
  {
    var q, r := MaskAndShiftParts(x);
    QuotientAndRemainder(id, q, r);
  }

  /** `(id & 0x00FFFFFF) & 63` is the remainder of the base id by 64. */
  lemma ShardIsMask(id: FormId, x: bv32)
    requires id == x as int
    ensures ShardIndex(id) == ((x & 0x00FF_FFFF) & 63) as int
  {
    SplitIsMaskAndShift(id, x);
    MaskedBase(x);
    LowBitsAreModulo(x & 0x00FF_FFFF);
  }

  lemma LowBitsAreModulo(y: bv32)
    requires y < 0x100_0000
    ensures (y & 63) as int == y as int % 64
  {
    var y2 := y & 0xFFFF;
    var y1 := y2 & 0xFF;
    LowSixBits(y);
    SplitAt16(y);
    SplitAt8(y2);
    SplitAt6(y1);
    ShardRange(y);
    SumModulo((y >> 16) as int, (y2 >> 8) as int, (y1 >> 6) as int, (y & 63) as int);
  }

  lemma SumModulo(a: int, b: int, c: int, r: int)
    requires 0 <= r < 64
    ensures (0x1_0000 * a + 0x100 * b + 64 * c + r) % 64 == r
  {
    assert 0x1_0000 * a + 0x100 * b + 64 * c + r == 64 * (1024 * a + 4 * b + c) + r;
  }

  /** A whole bucket lies in one shard, and inside a bucket ascending full id
      is ascending file index. */
  lemma SameBase(a: FormId, b: FormId)
    requires Base(a) == Base(b)
    ensures ShardIndex(a) == ShardIndex(b)
    ensures a < b <==> FileIndex(a) < FileIndex(b)
    ensures a == b <==> FileIndex(a) == FileIndex(b)
  {
  }

  /** The special ids are those whose top byte is 0x00 or 0xFD. */
  lemma SpecialRanges(id: FormId)
    ensures IsSpecial(id) <==> id < 0x0100_0000 || 0xFD00_0000 <= id < 0xFE00_0000
  {
  }
}
