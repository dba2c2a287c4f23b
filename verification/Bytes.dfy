/** Machine integers, sectors and the little-endian fields laid over raw bytes. */
module Bytes {
  type uint8 = x: int | 0 <= x < 0x100
  type uint16 = x: int | 0 <= x < 0x1_0000
  type uint32 = x: int | 0 <= x < 0x1_0000_0000

  const SECTOR_SIZE := 512
  const TWO_TO_THE_28 := 0x1000_0000
  const TWO_TO_THE_32 := 0x1_0000_0000

  type Sector = s: seq<uint8> | |s| == SECTOR_SIZE witness seq(SECTOR_SIZE, _ => 0)

  /** The `uint16_t` stored at offset `o`. */
  function Half(b: seq<uint8>, o: nat): (v: uint16)
    requires o + 2 <= |b|
  {
    b[o] as int + 0x100 * (b[o + 1] as int)
  }

  /** The `uint32_t` stored at offset `o`. */
  function Word(b: seq<uint8>, o: nat): (v: uint32)
    requires o + 4 <= |b|
  {
    b[o] as int + 0x100 * (b[o + 1] as int) + 0x1_0000 * (b[o + 2] as int) + 0x100_0000 * (b[o + 3] as int)
  }

  function HalfBytes(v: uint16): (b: seq<uint8>)
    ensures |b| == 2 && Half(b, 0) == v
  {
    [v % 0x100, v / 0x100]
  }

  function WordBytes(v: uint32): (b: seq<uint8>)
    ensures |b| == 4 && Word(b, 0) == v
  {
    var b := [v % 0x100, v / 0x100 % 0x100, v / 0x1_0000 % 0x100, v / 0x100_0000];
    assert v / 0x100 == v / 0x1_0000 * 0x100 + v / 0x100 % 0x100;
    assert v / 0x1_0000 == v / 0x100_0000 * 0x100 + v / 0x1_0000 % 0x100;
    b
  }

  /** `b` with the bytes `w` stored at offset `o`. */
  function Put(b: seq<uint8>, o: nat, w: seq<uint8>): (r: seq<uint8>)
    requires o + |w| <= |b|
    ensures |r| == |b|
    ensures forall k | 0 <= k < |b| :: r[k] == if o <= k < o + |w| then w[k - o] else b[k]
    ensures r[o..o + |w|] == w
  {
    b[..o] + w + b[o + |w|..]
  }

  lemma WordOfPut(b: seq<uint8>, o: nat, v: uint32)
    requires o + 4 <= |b|
    ensures Word(Put(b, o, WordBytes(v)), o) == v
  {
    var w := WordBytes(v);
    var r := Put(b, o, w);
    assert r[o] == w[0] && r[o + 1] == w[1] && r[o + 2] == w[2] && r[o + 3] == w[3];
  }

  lemma SmallEntry(c: nat)
    requires c < TWO_TO_THE_28
    ensures c % TWO_TO_THE_28 == c
  {}

  lemma Associative<T>(a: seq<T>, b: seq<T>, c: seq<T>)
    ensures a + (b + c) == a + b + c
  {}

  /** A 32-bit FAT word with its low 28 bits replaced. */
  function Merge(word: uint32, value: uint32): (r: uint32)
    ensures r % TWO_TO_THE_28 == value % TWO_TO_THE_28
    ensures r / TWO_TO_THE_28 == word / TWO_TO_THE_28
  {
    word / TWO_TO_THE_28 * TWO_TO_THE_28 + value % TWO_TO_THE_28
  }
}
