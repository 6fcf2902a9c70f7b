/**
 256-bit node ids, the XOR metric and the bucket index
 (crates/network/src/dht.rs). An id is its 32 bytes, most significant first.
 */
module NodeIds {
  import opened Machine

  const WIDTH := 32

  type byte = b: int | 0 <= b < 256

  type Bytes = s: seq<byte> | |s| == WIDTH witness seq(WIDTH, i => 0)

  datatype Id = Id(bytes: Bytes)

  /** The exclusive or of the lowest `bits` bits. */
  function BitXor(a: nat, b: nat, bits: nat): (x: nat)
    ensures x < Pow2(bits)
    decreases bits
  {
    if bits == 0 then 0
    else 2 * BitXor(a / 2, b / 2, bits - 1) + if a % 2 == b % 2 then 0 else 1
  }

  function ByteXor(a: byte, b: byte): byte {
    Pow2Byte(0);
    BitXor(a, b, 8)
  }

  function Xor(a: Id, b: Id): Bytes {
    seq(WIDTH, i requires 0 <= i < WIDTH => ByteXor(a.bytes[i], b.bytes[i]))
  }

  function Pow2(n: nat): (p: nat)
    ensures p >= 1
  {
    if n == 0 then 1 else 2 * Pow2(n - 1)
  }

  /** The number a byte string spells. */
  function Number(bytes: seq<byte>): nat {
    if bytes == [] then 0 else Number(bytes[..|bytes| - 1]) * 256 + bytes[|bytes| - 1]
  }

  function Distance(a: Id, b: Id): nat { Number(Xor(a, b)) }

  function LeadingZeros(b: byte): nat {
    if b >= 128 then 0 else if b >= 64 then 1 else if b >= 32 then 2 else if b >= 16 then 3
    else if b >= 8 then 4 else if b >= 4 then 5 else if b >= 2 then 6 else if b >= 1 then 7 else 8
  }

  /** The first nonzero byte at or after `i`. */
  function FirstSet(d: seq<byte>, i: nat): (r: nat)
    requires i <= |d|
    ensures i <= r <= |d|
    ensures forall j :: i <= j < r ==> d[j] == 0
    ensures r < |d| ==> d[r] != 0
    decreases |d| - i
  {
    if i == |d| || d[i] != 0 then i else FirstSet(d, i + 1)
  }

  function BucketIndex(a: Id, b: Id): nat {
    var d := Xor(a, b);
    var i := FirstSet(d, 0);
    if i < WIDTH then Max(255 - (i * 8 + LeadingZeros(d[i])), 0) else 0
  }

  method FindBucketIndex(a: Id, b: Id) returns (index: nat)
    ensures index == BucketIndex(a, b)
  {
    var d := Xor(a, b);
    for i := 0 to WIDTH
      invariant FirstSet(d, 0) == FirstSet(d, i)
    {
      if d[i] != 0 {
        return Max(255 - (i * 8 + LeadingZeros(d[i])), 0);
      }
    }
    index := 0;
  }

  // ----- powers and numbers

  lemma {:induction false} Pow2Add(m: nat, n: nat)
    ensures Pow2(m + n) == Pow2(m) * Pow2(n)
  {
    if m > 0 {
      Pow2Add(m - 1, n);
      assert (2 * Pow2(m - 1)) * Pow2(n) == 2 * (Pow2(m - 1) * Pow2(n));
    }
  }

  lemma Pow2Byte(n: nat)
    ensures Pow2(n + 8) == Pow2(n) * 256
  {
    Pow2Add(n, 8);
    assert Pow2(8) == 256 by { assert Pow2(4) == 16; Pow2Add(4, 4); }
  }

  lemma {:induction false} NumberBound(bytes: seq<byte>)
    ensures Number(bytes) < Pow2(8 * |bytes|)
  {
    if bytes != [] {
      var n := 8 * (|bytes| - 1);
      NumberBound(bytes[..|bytes| - 1]);
      Pow2Byte(n);
      assert 8 * |bytes| == n + 8;
    }
  }

  lemma {:induction false} NumberConcat(a: seq<byte>, b: seq<byte>)
    ensures Number(a + b) == Number(a) * Pow2(8 * |b|) + Number(b)
  {
    if b == [] {
      assert a + b == a;
    } else {
      var before, last := b[..|b| - 1], b[|b| - 1];
      NumberConcat(a, before);
      assert (a + b)[..|a + b| - 1] == a + before;
      Pow2Byte(8 * |before|);
      assert 8 * |b| == 8 * |before| + 8;
      assert Number(a) * (Pow2(8 * |before|) * 256) == (Number(a) * Pow2(8 * |before|)) * 256;
    }
  }

  lemma {:induction false} NumberOfZeros(bytes: seq<byte>)
    requires forall i :: 0 <= i < |bytes| ==> bytes[i] == 0
    ensures Number(bytes) == 0
  {
    if bytes != [] {
      NumberOfZeros(bytes[..|bytes| - 1]);
    }
  }

  lemma {:induction false} NumberInjective(a: seq<byte>, b: seq<byte>)
    requires |a| == |b| && Number(a) == Number(b)
    ensures a == b
  {
    if a != [] {
      assert a == a[..|a| - 1] + [a[|a| - 1]] && b == b[..|b| - 1] + [b[|b| - 1]];
      NumberInjective(a[..|a| - 1], b[..|b| - 1]);
    }
  }

  /** A byte in front of a string counts once for every number the string can spell. */
  lemma HeadNumber(h: byte, rest: seq<byte>)
    ensures Number([h] + rest) == h * Pow2(8 * |rest|) + Number(rest)
    ensures Number(rest) < Pow2(8 * |rest|)
  {
    NumberConcat([h], rest);
    SingleByte(h);
    NumberBound(rest);
  }

  /** A digit in front decides, whatever the rests below the base are. */
  lemma DigitDecides(x: int, y: int, base: int, u: int, v: int)
    requires x < y && 0 <= u < base && 0 <= v
    ensures x * base + u < y * base + v
  {
    MulLe(x + 1, y, base);
    assert (x + 1) * base == x * base + base;
  }

  lemma HeadOrder(x: byte, y: byte, p: seq<byte>, q: seq<byte>)
    requires x < y && |p| == |q|
    ensures Number([x] + p) < Number([y] + q)
  {
    HeadNumber(x, p);
    HeadNumber(y, q);
    DigitDecides(x, y, Pow2(8 * |p|), Number(p), Number(q));
  }

  /** Byte strings of one length compare as arrays the way their numbers do. */
  lemma NumberOrder(a: seq<byte>, b: seq<byte>, i: nat)
    requires |a| == |b| && i < |a| && a[..i] == b[..i] && a[i] < b[i]
    ensures Number(a) < Number(b)
  {
    var p, q := [a[i]] + a[i + 1..], [b[i]] + b[i + 1..];
    assert a == a[..i] + p && b == b[..i] + q;
    NumberConcat(a[..i], p);
    NumberConcat(b[..i], q);
    HeadOrder(a[i], b[i], a[i + 1..], b[i + 1..]);
  }

  lemma SingleByte(b: byte)
    ensures Number([b]) == b
  {
    assert [b][..0] == [];
  }

  // ----- the metric

  lemma {:induction false} BitXorInjective(x: nat, y: nat, t: nat, bits: nat)
    requires x < Pow2(bits) && y < Pow2(bits) && BitXor(x, t, bits) == BitXor(y, t, bits)
    ensures x == y
  {
    if bits > 0 {
      assert x % 2 == y % 2;
      BitXorInjective(x / 2, y / 2, t / 2, bits - 1);
    }
  }

  lemma {:induction false} BitXorFacts(x: nat, y: nat, bits: nat)
    ensures BitXor(x, x, bits) == 0 && BitXor(x, y, bits) == BitXor(y, x, bits)
  {
    if bits > 0 {
      BitXorFacts(x / 2, y / 2, bits - 1);
    }
  }

  lemma XorInjective(a: Id, b: Id, t: Id)
    requires Xor(a, t) == Xor(b, t)
    ensures a == b
  {
    forall i | 0 <= i < WIDTH ensures a.bytes[i] == b.bytes[i] {
      assert Xor(a, t)[i] == Xor(b, t)[i];
      Pow2Byte(0);
      BitXorInjective(a.bytes[i], b.bytes[i], t.bytes[i], 8);
    }
    assert a.bytes == b.bytes;
  }

  lemma XorFacts(a: Id, b: Id)
    ensures Xor(a, b) == Xor(b, a)
    ensures forall i :: 0 <= i < WIDTH ==> Xor(a, a)[i] == 0
  {
    forall i | 0 <= i < WIDTH ensures Xor(a, b)[i] == Xor(b, a)[i] && Xor(a, a)[i] == 0 {
      BitXorFacts(a.bytes[i], b.bytes[i], 8);
    }
  }

  /** Distinct ids are at distinct distances from any target. */
  lemma DistanceInjective(a: Id, b: Id, t: Id)
    requires Distance(a, t) == Distance(b, t)
    ensures a == b
  {
    NumberInjective(Xor(a, t), Xor(b, t));
    XorInjective(a, b, t);
  }

  lemma DistanceZeroIff(a: Id, b: Id)
    ensures Distance(a, b) == 0 <==> a == b
    ensures Distance(a, b) == Distance(b, a)
  {
    XorFacts(a, b);
    XorFacts(b, b);
    NumberOfZeros(Xor(b, b));
    if Distance(a, b) == 0 {
      DistanceInjective(a, b, b);
    }
  }

  // ----- the bucket index

  lemma ByteLog(b: byte)
    requires b != 0
    ensures LeadingZeros(b) <= 7
    ensures Pow2(7 - LeadingZeros(b)) <= b < Pow2(8 - LeadingZeros(b))
  {
    assert Pow2(0) == 1 && Pow2(1) == 2 && Pow2(2) == 4 && Pow2(3) == 8;
    assert Pow2(4) == 16 && Pow2(5) == 32 && Pow2(6) == 64 && Pow2(7) == 128 && Pow2(8) == 256;
  }

  lemma HeadBetween(h: byte, rest: seq<byte>, low: nat, high: nat)
    requires low <= h < high
    ensures low * Pow2(8 * |rest|) <= Number([h] + rest) < high * Pow2(8 * |rest|)
  {
    HeadNumber(h, rest);
    MulLe(low, h, Pow2(8 * |rest|));
    DigitDecides(h, high, Pow2(8 * |rest|), Number(rest), 0);
  }

  lemma HeadLog(h: byte, rest: seq<byte>, low: nat)
    requires Pow2(low) <= h < Pow2(low + 1)
    ensures Pow2(low + 8 * |rest|) <= Number([h] + rest) < Pow2(low + 1 + 8 * |rest|)
  {
    HeadBetween(h, rest, Pow2(low), Pow2(low + 1));
    Pow2Add(low, 8 * |rest|);
    Pow2Add(low + 1, 8 * |rest|);
  }

  lemma {:induction false} NumberDropsZeros(zeros: seq<byte>, rest: seq<byte>)
    requires forall i :: 0 <= i < |zeros| ==> zeros[i] == 0
    ensures Number(zeros + rest) == Number(rest)
  {
    NumberOfZeros(zeros);
    NumberConcat(zeros, rest);
  }

  /** A byte string whose first set byte is at `i` has its highest bit there. */
  lemma NumberLog(d: seq<byte>, i: nat, low: nat, bit: nat)
    requires i < |d| && Pow2(low) <= d[i] < Pow2(low + 1) && forall j :: 0 <= j < i ==> d[j] == 0
    requires bit == low + 8 * (|d| - 1 - i)
    ensures Pow2(bit) <= Number(d) < Pow2(bit + 1)
  {
    var rest := d[i + 1..];
    assert d == d[..i] + ([d[i]] + rest);
    NumberDropsZeros(d[..i], [d[i]] + rest);
    HeadLog(d[i], rest, low);
  }

  /** The first byte in which two ids differ, and its highest set bit. */
  lemma TopBit(a: Id, b: Id) returns (i: nat, low: nat)
    requires a != b
    ensures i < WIDTH && low < 8 && BucketIndex(a, b) == low + 8 * (WIDTH - 1 - i)
    ensures Pow2(low) <= Xor(a, b)[i] < Pow2(low + 1)
    ensures forall j :: 0 <= j < i ==> Xor(a, b)[j] == 0
  {
    SomeByteSet(a, b);
    i := FirstSet(Xor(a, b), 0);
    ByteLog(Xor(a, b)[i]);
    low := 7 - LeadingZeros(Xor(a, b)[i]);
  }

  lemma SomeByteSet(a: Id, b: Id)
    requires a != b
    ensures FirstSet(Xor(a, b), 0) < WIDTH
  {
    DistanceZeroIff(a, b);
    if FirstSet(Xor(a, b), 0) == WIDTH {
      NumberOfZeros(Xor(a, b));
    }
  }

  /** For distinct ids the bucket index is the floor of the base-2 logarithm of their distance. */
  lemma BucketIsLog(a: Id, b: Id)
    requires a != b
    ensures BucketIndex(a, b) < 256
    ensures Pow2(BucketIndex(a, b)) <= Distance(a, b) < Pow2(BucketIndex(a, b) + 1)
  {
    var i, low := TopBit(a, b);
    NumberLog(Xor(a, b), i, low, BucketIndex(a, b));
  }
}
