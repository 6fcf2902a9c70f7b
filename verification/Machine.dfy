/** Machine arithmetic and the small containers shared by every model. */
module Machine {

  const U64_MAX: int := 0xFFFF_FFFF_FFFF_FFFF
  const I64_MAX: int := 0x7FFF_FFFF_FFFF_FFFF
  const I64_MIN: int := -0x8000_0000_0000_0000

  type u64 = x: int | 0 <= x <= U64_MAX

  datatype Option<+T> = None | Some(value: T)

  function Min(a: int, b: int): int { if a <= b then a else b }

  function Max(a: int, b: int): int { if a <= b then b else a }

  function Abs(a: int): nat { if a < 0 then -a else a }

  /** `u64::saturating_add`. */
  function SatAdd(a: u64, b: u64): u64 { Min(a + b, U64_MAX) }

  /** `u64::saturating_sub`. */
  function SatSub(a: u64, b: u64): u64 { Max(a - b, 0) }

  /** `i64` saturation of an exact result. */
  function SatI64(a: int): int { Max(I64_MIN, Min(a, I64_MAX)) }

  /** Integer division that truncates toward zero, as Rust's `/` does. */
  function TruncDiv(a: int, b: int): int
    requires b > 0
  {
    if a >= 0 then a / b else -((-a) / b)
  }

  /** A truncated quotient stays between any integer bounds of the exact one. */
  lemma TruncDivBounds(a: int, b: int, lo: int, hi: int)
    requires b > 0
    requires lo * b <= a <= hi * b
    ensures lo <= TruncDiv(a, b) <= hi
  {
    if a >= 0 {
      QuotientBounds(a, b, lo, hi);
    } else {
      assert (-hi) * b == -(hi * b) && (-lo) * b == -(lo * b);
      QuotientBounds(-a, b, -hi, -lo);
    }
  }

  lemma QuotientBounds(a: int, b: int, lo: int, hi: int)
    requires b > 0 && a >= 0
    requires lo * b <= a <= hi * b
    ensures lo <= a / b <= hi
  {
    var q := a / b;
    assert a == q * b + a % b;
    assert q < lo ==> (q + 1) * b <= lo * b;
    assert hi < q ==> (hi + 1) * b <= q * b;
  }

  /** A quotient and remainder in range are the quotient and remainder. */
  lemma DivModIs(a: int, b: int, q: int, r: int)
    requires b > 0 && a == q * b + r && 0 <= r < b
    ensures a / b == q && a % b == r
  {
    var d := a / b - q;
    assert (a / b) * b + a % b == q * b + r;
    assert d * b == (a / b) * b - q * b;
    assert d >= 1 ==> d * b >= b;
    assert d <= -1 ==> d * b <= -b;
  }

  lemma MulLe(a: int, b: int, c: int)
    requires a <= b && c >= 0
    ensures a * c <= b * c
  {
  }

  lemma DivLe(a: nat, b: nat, c: int)
    requires a <= b && c > 0
    ensures a / c <= b / c
  {
    var p, q := a / c, b / c;
    assert a == p * c + a % c && b == q * c + b % c;
    assert q < p ==> (q + 1) * c <= p * c;
  }

  lemma SubsetSize<T>(a: set<T>, b: set<T>)
    requires a <= b
    ensures |a| <= |b|
  {
    assert b == a + (b - a);
  }

  // ----- the first key of a BTreeMap

  predicate IsLeast(keys: set<nat>, k: nat) {
    k in keys && forall other :: other in keys ==> k <= other
  }

  lemma LeastExists(keys: set<nat>)
    requires keys != {}
    ensures exists k :: IsLeast(keys, k)
  {
    var k :| k in keys;
    if keys == {k} {
      assert IsLeast(keys, k);
    } else {
      var rest := keys - {k};
      LeastExists(rest);
      var m :| IsLeast(rest, m);
      assert keys == rest + {k};
      assert IsLeast(keys, if k <= m then k else m);
    }
  }

  function Least(keys: set<nat>): (k: nat)
    requires keys != {}
    ensures IsLeast(keys, k)
  {
    LeastExists(keys);
    var k :| k in keys && IsLeast(keys, k);
    k
  }
}
