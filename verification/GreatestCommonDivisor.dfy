/** math.gcd on natural numbers, and the greatest common step of a column's values. */
module GreatestCommonDivisor {

  ghost predicate Divides(d: int, n: int) {
    exists k: int :: Product(k, d) == n
  }

  function Product(k: int, d: int): int {
    k * d
  }

  function Gcd(a: nat, b: nat): (g: nat)
    ensures g == 0 <==> a == 0 && b == 0
    decreases b
  {
    if b == 0 then a else Gcd(b, a % b)
  }

  lemma {:induction false} GcdDivides(a: nat, b: nat)
    ensures Divides(Gcd(a, b), a) && Divides(Gcd(a, b), b)
    decreases b
  {
    var g := Gcd(a, b);
    if b == 0 {
      assert Product(1, a) == a && Product(0, a) == 0;
    } else {
      GcdDivides(b, a % b);
      var k: int :| Product(k, g) == b;
      var m: int :| Product(m, g) == a % b;
      assert Product(a / b * k + m, g) == a by {
        assert a == a / b * b + a % b;
        assert (a / b * k + m) * g == a / b * (k * g) + m * g;
      }
    }
  }

  lemma {:induction false} GcdIsGreatest(a: nat, b: nat, d: int)
    requires Divides(d, a) && Divides(d, b)
    ensures Divides(d, Gcd(a, b))
    decreases b
  {
    if b != 0 {
      var k: int :| Product(k, d) == a;
      var m: int :| Product(m, d) == b;
      assert Product(k - a / b * m, d) == a % b by {
        assert a == a / b * b + a % b;
        assert (k - a / b * m) * d == k * d - a / b * (m * d);
      }
      GcdIsGreatest(b, a % b, d);
    }
  }

  lemma DividesTransitively(d: int, e: int, n: int)
    requires Divides(d, e) && Divides(e, n)
    ensures Divides(d, n)
  {
    var k: int :| Product(k, d) == e;
    var m: int :| Product(m, e) == n;
    assert Product(m * k, d) == n by {
      assert m * (k * d) == m * k * d;
    }
  }

  /** The step the packing loop computes: gcd(… gcd(gcd(0, n₀), n₁) …). */
  function GcdOf(ns: seq<nat>): (g: nat)
    ensures g == 0 <==> forall i :: 0 <= i < |ns| ==> ns[i] == 0
  {
    if ns == [] then 0 else
    var last := |ns| - 1;
    assert forall i :: 0 <= i < last ==> ns[..last][i] == ns[i];
    Gcd(GcdOf(ns[..last]), ns[last])
  }

  lemma {:induction false} GcdOfDividesEach(ns: seq<nat>, i: nat)
    requires i < |ns|
    ensures Divides(GcdOf(ns), ns[i])
  {
    var last := |ns| - 1;
    GcdDivides(GcdOf(ns[..last]), ns[last]);
    if i < last {
      GcdOfDividesEach(ns[..last], i);
      DividesTransitively(GcdOf(ns), GcdOf(ns[..last]), ns[i]);
    }
  }

  lemma {:induction false} GcdOfIsGreatest(ns: seq<nat>, d: int)
    requires forall n :: n in ns ==> Divides(d, n)
    ensures Divides(d, GcdOf(ns))
  {
    if ns == [] {
      assert Product(0, d) == 0;
    } else {
      var last := |ns| - 1;
      GcdOfIsGreatest(ns[..last], d);
      GcdIsGreatest(GcdOf(ns[..last]), ns[last], d);
    }
  }

  lemma AtLeastOneMore(m: int, d: int)
    requires m >= 1 && d > 0
    ensures m * d >= d
  {}

  lemma QuotientIsUnique(k: int, q: int, r: int, d: int)
    requires 0 <= r < d && Product(k, d) == Product(q, d) + r
    ensures k == q
  {
    assert Product(k - q, d) == Product(k, d) - Product(q, d);
    assert Product(q - k, d) == -r;
    if k > q {
      AtLeastOneMore(k - q, d);
    } else if k < q {
      AtLeastOneMore(q - k, d);
    }
  }

  function Quotient(n: int, d: int): int
    requires d > 0
  {
    n / d
  }

  lemma DividedExactly(d: int, n: int)
    requires d > 0 && Divides(d, n)
    ensures Product(Quotient(n, d), d) == n
  {
    var k: int :| Product(k, d) == n;
    assert n == Product(n / d, d) + n % d;
    QuotientIsUnique(k, n / d, n % d, d);
  }

  lemma QuotientMonotone(a: int, b: int, d: int)
    requires 0 <= a <= b && d > 0
    ensures 0 <= Quotient(a, d) <= Quotient(b, d)
  {
    var p, q := a / d, b / d;
    assert (p - q) * d == p * d - q * d;
    if p > q {
      AtLeastOneMore(p - q, d);
    }
  }
}
