/** Integer arithmetic as C does it. */
module CArith {
  function Abs(a: int): nat { if a < 0 then -a else a }

  /** Integer division as in C: towards zero. */
  function Quot(a: int, b: int): int
    requires b != 0
  {
    Signed(Abs(a) / Abs(b), (a < 0) == (b < 0))
  }

  function Signed(q: int, positive: bool): int { if positive then q else -q }

  lemma QuotNegates(a: int, b: int)
    requires b != 0
    ensures Quot(-a, b) == -Quot(a, b)
  {
    assert Abs(-a) == Abs(a);
    if a == 0 {
      assert Abs(a) / Abs(b) == 0;
    }
    var q := Abs(a) / Abs(b);
    assert Quot(-a, b) == Signed(q, (-a < 0) == (b < 0));
  }

  /** q is n / d cut towards zero: exact up to less than d, and on the side of zero. */
  predicate IsCut(q: int, n: int, d: int) {
    Abs(n - q * d) < Abs(d) && (0 <= q * d <= n || n <= q * d <= 0)
  }

  lemma Divides(n: nat, d: nat)
    requires d > 0
    ensures 0 <= n / d * d <= n < n / d * d + d
  {
    assert n == d * (n / d) + n % d;
  }

  lemma QuotIsCut(n: int, d: int)
    requires d != 0
    ensures IsCut(Quot(n, d), n, d)
  {
    Divides(Abs(n), Abs(d));
    var q := Abs(n) / Abs(d);
    assert (-q) * d == -(q * d) == q * -d;
  }

  lemma Apart(k: int, d: int)
    requires k >= 1
    ensures Abs(k * d) >= Abs(d)
  {
    assert k * d == d + (k - 1) * d;
    if d >= 0 {
      assert (k - 1) * d >= 0;
    } else {
      assert (k - 1) * -d >= 0;
    }
  }

  /** There is only one cut of a value. */
  lemma OneCut(q: int, r: int, n: int, d: int)
    requires d != 0 && IsCut(q, n, d) && IsCut(r, n, d)
    ensures q == r
  {
    var x, y := q * d, r * d;
    assert Abs(x - y) < Abs(d);
    assert (q - r) * d == x - y && (r - q) * d == y - x;
    if q > r {
      Apart(q - r, d);
    } else if q < r {
      Apart(r - q, d);
    }
  }

  lemma Products(n: int, k: int)
    ensures Abs(n * k) == Abs(n) * Abs(k)
  {
    assert (-n) * k == -(n * k) && n * -k == -(n * k) && (-n) * (-k) == n * k;
    if n >= 0 && k >= 0 {
      assert n * k >= 0;
    } else if n < 0 && k < 0 {
      assert (-n) * (-k) >= 0;
    } else if n < 0 {
      assert (-n) * k >= 0;
    } else {
      assert n * (-k) >= 0;
    }
  }

  lemma Grows(a: int, b: int, k: int)
    requires k > 0
    ensures (a < b ==> a * k < b * k) && (a <= b ==> a * k <= b * k)
  {
    assert b * k - a * k == (b - a) * k;
    assert a < b ==> (b - a) * k > 0;
  }

  lemma CutScaled(q: int, n: int, d: int, k: int)
    requires d != 0 && k != 0 && IsCut(q, n, d)
    ensures d * k != 0 && IsCut(q, n * k, d * k)
  {
    var x := q * d;
    assert q * (d * k) == x * k && n * k - x * k == (n - x) * k;
    Products(n - x, k);
    Products(d, k);
    Grows(Abs(n - x), Abs(d), Abs(k));
    Grows(0, Abs(d), Abs(k));
    var j := Abs(k);
    Grows(0, x, j);
    Grows(x, 0, j);
    Grows(x, n, j);
    Grows(n, x, j);
    assert x * -k == -(x * k) && n * -k == -(n * k);
  }

  /** Scaling both sides of a division changes nothing. */
  lemma QuotScaled(n: int, d: int, k: int)
    requires d != 0 && k != 0
    ensures d * k != 0 && Quot(n * k, d * k) == Quot(n, d)
  {
    hide IsCut, Quot;
    QuotIsCut(n, d);
    CutScaled(Quot(n, d), n, d, k);
    QuotIsCut(n * k, d * k);
    OneCut(Quot(n * k, d * k), Quot(n, d), n * k, d * k);
  }
}
