// The Bloom filter: k positions per key in a byte array of m bits, and its binary image.

module Bloom {
  import opened ByteStrings

  /** The first two 64-bit words of a key's SHA-256 digest. */
  type Digest = Bytes -> (nat, nat)

  /** m counts the bits after alignment to whole bytes; the error rate is four opaque bytes. */
  datatype Shape = Shape(capacity: nat, errorRate: Bytes, m: nat, k: nat)

  predicate WellShaped(shape: Shape) {
    shape.m > 0 && shape.m % 8 == 0 && |shape.errorRate| == 4
  }

  function Aligned(bitCount: nat): (m: nat)
    ensures bitCount <= m < bitCount + 8 && m % 8 == 0
  {
    (bitCount + 7) / 8 * 8
  }

  // ---------- Bits of a byte ----------

  /** b & (1 << i) != 0 */
  predicate Bit(b: nat, i: nat) {
    if i == 0 then b % 2 == 1 else Bit(b / 2, i - 1)
  }

  /** b | (1 << i) */
  function WithBit(b: nat, i: nat): nat {
    if i == 0 then (if b % 2 == 1 then b else b + 1) else 2 * WithBit(b / 2, i - 1) + b % 2
  }

  lemma {:induction false} WithBitSetsOneBit(b: nat, i: nat, j: nat)
    ensures Bit(WithBit(b, i), j) <==> i == j || Bit(b, j)
  {
    var c := WithBit(b, i);
    if i == 0 {
      assert c / 2 == b / 2;
    } else {
      assert c / 2 == WithBit(b / 2, i - 1) && c % 2 == b % 2;
      if j > 0 {
        WithBitSetsOneBit(b / 2, i - 1, j - 1);
      }
    }
  }

  function PowerOf2(w: nat): nat {
    if w == 0 then 1 else 2 * PowerOf2(w - 1)
  }

  lemma {:induction false} WithBitStaysBelow(b: nat, i: nat, w: nat)
    requires i < w && b < PowerOf2(w)
    ensures WithBit(b, i) < PowerOf2(w)
  {
    var half, c := PowerOf2(w - 1), b / 2;
    assert PowerOf2(w) == 2 * half;
    HalvesBelow(b, half);
    if i > 0 {
      hide PowerOf2;
      WithBitStaysBelow(c, i - 1, w - 1);
      assert WithBit(b, i) == 2 * WithBit(c, i - 1) + b % 2;
    }
  }

  lemma HalvesBelow(b: nat, half: nat)
    requires b < 2 * half
    ensures b / 2 < half && b == 2 * (b / 2) + b % 2 && 2 * (b / 2) + 1 < 2 * half
  {
  }

  function SetInByte(b: Byte, i: nat): (r: Byte)
    requires i < 8 && b as int < 256
    ensures r as int == WithBit(b as int, i) < 256
  {
    assert PowerOf2(8) == 256 by {
      assert PowerOf2(4) == 16 && PowerOf2(6) == 64;
    }
    WithBitStaysBelow(b as int, i, 8);
    WithBit(b as int, i) as char
  }

  // ---------- The bit array ----------

  predicate Octets(bits: Bytes) {
    forall i :: 0 <= i < |bits| ==> bits[i] as int < 256
  }

  predicate BitAt(bits: Bytes, pos: nat)
    requires pos / 8 < |bits|
  {
    Bit(bits[pos / 8] as int, pos % 8)
  }

  function SetAt(bits: Bytes, pos: nat): (r: Bytes)
    requires pos / 8 < |bits| && Octets(bits)
    ensures |r| == |bits| && Octets(r)
  {
    bits[pos / 8 := SetInByte(bits[pos / 8], pos % 8)]
  }

  lemma SetAtSetsOneBit(bits: Bytes, pos: nat, q: nat)
    requires pos / 8 < |bits| && q / 8 < |bits| && Octets(bits)
    ensures BitAt(SetAt(bits, pos), q) <==> pos == q || BitAt(bits, q)
  {
    var b := bits[pos / 8];
    if pos / 8 == q / 8 {
      assert SetAt(bits, pos)[q / 8] as int == WithBit(b as int, pos % 8);
      WithBitSetsOneBit(b as int, pos % 8, q % 8);
      assert pos == 8 * (pos / 8) + pos % 8 && q == 8 * (q / 8) + q % 8;
    } else {
      assert SetAt(bits, pos)[q / 8] == bits[q / 8];
    }
  }

  /** (h1 + i * h2) mod m, for the filter's m bits */
  function Position(shape: Shape, digest: Digest, key: Bytes, i: nat): (pos: nat)
    requires WellShaped(shape)
    ensures pos < shape.m
  {
    (digest(key).0 + i * digest(key).1) % shape.m
  }

  /** The positions start at the first word of the digest and go on in steps of the second,
      modulo the number of bits. */
  lemma PositionsStep(shape: Shape, digest: Digest, key: Bytes, i: nat)
    requires WellShaped(shape)
    ensures Position(shape, digest, key, 0) == digest(key).0 % shape.m
    ensures Position(shape, digest, key, i + 1) == (Position(shape, digest, key, i) + digest(key).1) % shape.m
  {
    var x, y := digest(key).0 + i * digest(key).1, digest(key).1;
    assert x + y == digest(key).0 + (i + 1) * y;
    StepModulo(x, y, shape.m);
  }

  lemma StepModulo(x: nat, y: nat, m: nat)
    requires m > 0
    ensures (x + y) % m == (x % m + y) % m
  {
    var q, r := x / m, x % m;
    var p, s := (r + y) / m, (r + y) % m;
    assert x == q * m + r && r + y == p * m + s;
    assert (q + p) * m == q * m + p * m;
    RemainderIs(x + y, q + p, s, m);
  }

  lemma RemainderIs(n: nat, q: nat, r: nat, m: nat)
    requires n == q * m + r && r < m
    ensures n % m == r
  {
    var d := q - n / m;
    assert d * m == n % m - r && -d * m == r - n % m;
    if d > 0 {
      Stretched(d, m);
    } else if d < 0 {
      Stretched(-d, m);
    }
  }

  lemma Stretched(d: nat, m: nat)
    requires d > 0
    ensures d * m >= m
  {
  }

  predicate Sized(shape: Shape, bits: Bytes) {
    WellShaped(shape) && 8 * |bits| == shape.m && Octets(bits)
  }

  /** The array after the first n of the key's positions are set. */
  function AddFirst(shape: Shape, digest: Digest, bits: Bytes, key: Bytes, n: nat): (r: Bytes)
    requires Sized(shape, bits)
    ensures Sized(shape, r)
  {
    if n == 0 then bits
    else SetAt(AddFirst(shape, digest, bits, key, n - 1), Position(shape, digest, key, n - 1))
  }

  function AddKey(shape: Shape, digest: Digest, bits: Bytes, key: Bytes): (r: Bytes)
    requires Sized(shape, bits)
    ensures Sized(shape, r)
  {
    AddFirst(shape, digest, bits, key, shape.k)
  }

  function Empty(shape: Shape): (r: Bytes)
    requires WellShaped(shape)
    ensures Sized(shape, r)
  {
    seq(shape.m / 8, _ => 0 as char)
  }

  /** The array after a run of adds on an empty filter. */
  function AddAll(shape: Shape, digest: Digest, keys: seq<Bytes>): (r: Bytes)
    requires WellShaped(shape)
    ensures Sized(shape, r)
  {
    if keys == [] then Empty(shape)
    else AddKey(shape, digest, AddAll(shape, digest, keys[..|keys| - 1]), keys[|keys| - 1])
  }

  predicate Contains(shape: Shape, digest: Digest, bits: Bytes, key: Bytes)
    requires Sized(shape, bits)
  {
    forall i: nat :: i < shape.k ==> BitAt(bits, Position(shape, digest, key, i))
  }

  predicate IsPositionOf(shape: Shape, digest: Digest, key: Bytes, n: nat, pos: nat)
    requires WellShaped(shape)
  {
    exists i: nat :: i < n && Position(shape, digest, key, i) == pos
  }

  lemma {:induction false} AddFirstSets(shape: Shape, digest: Digest, bits: Bytes, key: Bytes, n: nat, pos: nat)
    requires Sized(shape, bits) && pos < shape.m
    ensures BitAt(AddFirst(shape, digest, bits, key, n), pos)
       <==> IsPositionOf(shape, digest, key, n, pos) || BitAt(bits, pos)
  {
    if n > 0 {
      AddFirstSets(shape, digest, bits, key, n - 1, pos);
      SetAtSetsOneBit(AddFirst(shape, digest, bits, key, n - 1), Position(shape, digest, key, n - 1), pos);
    }
  }

  lemma {:induction false} NoBitOfZero(i: nat)
    ensures !Bit(0, i)
  {
    if i > 0 {
      NoBitOfZero(i - 1);
    }
  }

  /** After any run of adds a bit is set exactly when it is a position of an added key. */
  lemma {:induction false} BitsAreThePositions(shape: Shape, digest: Digest, keys: seq<Bytes>, pos: nat)
    requires WellShaped(shape) && pos < shape.m
    ensures BitAt(AddAll(shape, digest, keys), pos)
       <==> exists j :: 0 <= j < |keys| && IsPositionOf(shape, digest, keys[j], shape.k, pos)
  {
    hide Bit, IsPositionOf;
    if keys == [] {
      NoBitOfZero(pos % 8);
    } else {
      var n := |keys| - 1;
      var before := AddAll(shape, digest, keys[..n]);
      BitsAreThePositions(shape, digest, keys[..n], pos);
      AddFirstSets(shape, digest, before, keys[n], shape.k, pos);
      if j :| 0 <= j < |keys| && IsPositionOf(shape, digest, keys[j], shape.k, pos) {
        assert j < n ==> keys[..n][j] == keys[j];
      }
    }
  }

  /** No false negatives: every added key is contained, however many others were added. */
  lemma NoFalseNegatives(shape: Shape, digest: Digest, keys: seq<Bytes>, j: nat)
    requires WellShaped(shape) && j < |keys|
    ensures Contains(shape, digest, AddAll(shape, digest, keys), keys[j])
  {
    forall i: nat | i < shape.k
      ensures BitAt(AddAll(shape, digest, keys), Position(shape, digest, keys[j], i))
    {
      var pos := Position(shape, digest, keys[j], i);
      BitsAreThePositions(shape, digest, keys, pos);
      assert IsPositionOf(shape, digest, keys[j], shape.k, pos);
    }
  }

  // ---------- The binary image ----------

  const HEADER_SIZE := 18

  predicate ShapeFits(shape: Shape) {
    Fits(shape.capacity, 4) && Fits(shape.m, 4) && Fits(shape.k, 2)
  }

  function Header(shape: Shape): (r: Bytes)
    requires |shape.errorRate| == 4
    ensures |r| == HEADER_SIZE
  {
    "ZBLM" + Pack(shape.capacity, 4) + shape.errorRate + Pack(shape.m, 4) + Pack(shape.k, 2)
  }

  function ToBytes(shape: Shape, bits: Bytes): Bytes
    requires |shape.errorRate| == 4
  {
    Header(shape) + bits
  }

  /** What from_bytes rebuilds; None is its ValueError. */
  function FromBytes(data: Bytes): Option<(Shape, Bytes)> {
    if |data| < HEADER_SIZE || data[..4] != "ZBLM" then None
    else
      Some((Shape(Unpack(data[4..8]), data[8..12], Aligned(Unpack(data[12..16])), Unpack(data[16..18])),
            data[HEADER_SIZE..]))
  }

  /** The image of a filter reads back as the same filter. */
  lemma ImageRoundTrip(shape: Shape, bits: Bytes)
    requires Sized(shape, bits) && ShapeFits(shape)
    ensures FromBytes(ToBytes(shape, bits)) == Some((shape, bits))
  {
    hide Pack, Unpack;
    var d := ToBytes(shape, bits);
    assert d[..4] == "ZBLM";
    assert d[4..8] == Pack(shape.capacity, 4);
    assert d[8..12] == shape.errorRate;
    assert d[12..16] == Pack(shape.m, 4);
    assert d[16..18] == Pack(shape.k, 2);
    assert d[HEADER_SIZE..] == bits;
    UnpackPack(shape.capacity, 4);
    UnpackPack(shape.m, 4);
    UnpackPack(shape.k, 2);
  }

  // ---------- The filter object ----------

  class BloomFilter {
    const shape: Shape
    const digest: Digest
    var bits: array<Byte>
    var count: nat

    ghost predicate Valid()
      reads this, bits
    {
      Sized(shape, bits[..])
    }

    constructor (capacity: nat, errorRate: Bytes, bitCount: nat, hashCount: nat, digest: Digest)
      requires bitCount > 0 && |errorRate| == 4
      ensures Valid() && fresh(bits)
      ensures shape == Shape(capacity, errorRate, Aligned(bitCount), hashCount) && this.digest == digest
      ensures bits[..] == Empty(shape) && count == 0
    {
      shape := Shape(capacity, errorRate, Aligned(bitCount), hashCount);
      this.digest := digest;
      bits := new Byte[Aligned(bitCount) / 8](_ => 0 as char);
      count := 0;
    }

    /** from_bytes, once the payload has been split into its fields. */
    constructor FromImage(shape: Shape, image: Bytes, digest: Digest)
      ensures fresh(bits) && bits[..] == image
      ensures this.shape == shape && this.digest == digest && count == 0
    {
      this.shape := shape;
      this.digest := digest;
      bits := new Byte[|image|](i requires 0 <= i < |image| => image[i]);
      count := 0;
    }

    method Add(key: Bytes)
      requires Valid()
      modifies this`count, bits
      ensures Valid() && count == old(count) + 1
      ensures bits[..] == AddKey(shape, digest, old(bits[..]), key)
    {
      for i := 0 to shape.k
        invariant Sized(shape, bits[..]) && count == old(count)
        invariant bits[..] == AddFirst(shape, digest, old(bits[..]), key, i)
      {
        var pos := Position(shape, digest, key, i);
        SetBit(pos);
      }
      count := count + 1;
    }

    /** bits[pos // 8] |= 1 << pos % 8 */
    method SetBit(pos: nat)
      requires pos / 8 < bits.Length && Octets(bits[..])
      modifies bits
      ensures bits[..] == SetAt(old(bits[..]), pos)
    {
      bits[pos / 8] := SetInByte(bits[pos / 8], pos % 8);
    }

    method MightContain(key: Bytes) returns (r: bool)
      requires Valid()
      ensures r == Contains(shape, digest, bits[..], key)
    {
      r := Probe(shape, digest, bits[..], key);
    }
  }

  /** contains: stops at the first clear bit. */
  method Probe(shape: Shape, digest: Digest, bits: Bytes, key: Bytes) returns (r: bool)
    requires Sized(shape, bits)
    ensures r == Contains(shape, digest, bits, key)
  {
    for i := 0 to shape.k
      invariant forall j: nat :: j < i ==> BitAt(bits, Position(shape, digest, key, j))
    {
      var pos := Position(shape, digest, key, i);
      if !Bit(bits[pos / 8] as int, pos % 8) {
        assert !BitAt(bits, Position(shape, digest, key, i));
        return false;
      }
    }
    return true;
  }
}
