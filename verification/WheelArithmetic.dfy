/** Division and remainder facts behind the hierarchical time wheel (lib/util/timer/timewheel.go). */
module WheelArithmetic {

  lemma DivModUnique(s: nat, a: int, q: int, r: int)
    requires s > 0 && a == s * q + r && 0 <= r < s
    ensures a / s == q && a % s == r
  {
    var d := q - a / s;
    assert s * d == a % s - r;
    assert d == 0 by {
      if d >= 1 {
        MulMonotone(1, d, s);
      }
      if d <= -1 {
        MulMonotone(d, -1, s);
      }
    }
  }

  lemma MulMonotone(a: int, b: int, p: nat)
    requires a <= b
    ensures a * p <= b * p
  {
  }

  lemma MulAssoc(a: int, b: int, c: int)
    ensures a * (b * c) == (a * b) * c
  {
  }

  lemma LessFromProducts(a: int, b: int, p: nat)
    requires a * p < b * p
    ensures a < b
  {
    if b <= a {
      MulMonotone(b, a, p);
    }
  }

  lemma DivAtLeast(x: int, p: nat, n: int)
    requires p > 0 && n * p <= x
    ensures x / p >= n
  {
    DivExactAdd(n, p, x - n * p);
  }

  /** Reducing a summand modulo `s` first does not change the remainder of the sum. */
  lemma ModAdd(s: nat, c: nat, d: nat)
    requires s > 0
    ensures (c % s + d) % s == (c + d) % s
  {
    var r := c % s + d;
    DivModUnique(s, c + d, c / s + r / s, r % s);
  }

  lemma DivStep(s: nat, a: nat)
    requires s > 0
    ensures (a + 1) % s == 0 ==> (a + 1) / s == a / s + 1
    ensures (a + 1) % s != 0 ==> (a + 1) / s == a / s
    ensures (a + 1) % s == if a % s + 1 >= s then 0 else a % s + 1
  {
    if a % s + 1 < s {
      DivModUnique(s, a + 1, a / s, a % s + 1);
    } else {
      DivModUnique(s, a + 1, a / s + 1, 0);
    }
  }

  /** Adding `d` to an exact multiple of `t` adds `d / t` to the quotient. */
  lemma DivExactAdd(k: int, t: nat, d: int)
    requires t > 0
    ensures (k * t + d) / t == k + d / t
  {
    DivModUnique(t, k * t + d, k + d / t, d % t);
  }

  lemma DivBounds(a: int, p: nat)
    requires p > 0
    ensures (a / p) * p <= a < (a / p + 1) * p
  {
    assert a == p * (a / p) + a % p;
  }

  lemma DivUnique(a: int, p: nat, q: int)
    requires p > 0 && q * p <= a < (q + 1) * p
    ensures a / p == q
  {
    DivModUnique(p, a, q, a - p * q);
  }

  /** Counting in steps `s` times as large divides the count by `s`. */
  lemma CoarserSteps(c: nat, p: nat, s: nat, e: nat)
    requires s > 0 && c * p <= e < (c + 1) * p
    ensures (c / s) * (p * s) <= e < (c / s + 1) * (p * s)
  {
    var q := c / s;
    DivBounds(c, s);
    MulMonotone(q * s, c, p);
    MulMonotone(c + 1, (q + 1) * s, p);
    assert q * s * p == q * (p * s) && (q + 1) * s * p == (q + 1) * (p * s);
  }

  /** Where a pointer that has moved `a` times over `s` slots stands. */
  function Wrapped(a: nat, s: nat): (r: nat)
    requires s > 0
    ensures r < s
  {
    a % s
  }

  lemma WrappedStep(a: nat, s: nat)
    requires s > 0
    ensures Wrapped(a + 1, s) == if Wrapped(a, s) + 1 >= s then 0 else Wrapped(a, s) + 1
  {
    DivStep(s, a);
  }

  /** How often layer `i` has moved after `k` ticks: `k` divided by `s` to the power `i`. */
  function Turns(k: nat, s: nat, i: nat): (turns: nat)
    requires s > 0
    ensures i == 0 ==> turns == k
  {
    if i == 0 then k else Turns(k, s, i - 1) / s
  }

  lemma {:induction false} TurnsOfZero(s: nat, i: nat)
    requires s > 0
    ensures Turns(0, s, i) == 0
  {
    if i > 0 {
      TurnsOfZero(s, i - 1);
    }
  }

  /** While layer `i` moves without wrapping, no layer above it moves. */
  lemma {:induction false} TurnsAbove(k: nat, s: nat, i: nat, h: nat)
    requires s > 0 && i < h
    requires Turns(k + 1, s, i) == Turns(k, s, i) + 1 && Wrapped(Turns(k + 1, s, i), s) != 0
    ensures Turns(k + 1, s, h) == Turns(k, s, h)
  {
    if h == i + 1 {
      DivStep(s, Turns(k, s, i));
    } else {
      TurnsAbove(k, s, i, h - 1);
    }
  }

  /** When layer `i` wraps, the layer above it moves by one. */
  lemma TurnsWrap(k: nat, s: nat, i: nat)
    requires s > 0
    requires Turns(k + 1, s, i) == Turns(k, s, i) + 1 && Wrapped(Turns(k + 1, s, i), s) == 0
    ensures Turns(k + 1, s, i + 1) == Turns(k, s, i + 1) + 1
    ensures Turns(k + 1, s, i + 1) * s == Turns(k + 1, s, i)
  {
    ExactDiv(Turns(k, s, i), s);
  }

  lemma TurnsAlign(k: nat, s: nat, i: nat)
    requires s > 0 && k > 0 && Wrapped(Turns(k, s, i), s) == 0
    requires forall h :: 0 <= h <= i ==> Turns(k, s, h) == Turns(k - 1, s, h) + 1
    ensures forall h :: 0 <= h <= i + 1 ==> Turns(k, s, h) == Turns(k - 1, s, h) + 1
    ensures Turns(k, s, i + 1) * s == Turns(k, s, i)
  {
    TurnsWrap(k - 1, s, i);
  }

  lemma ExactDiv(a: nat, s: nat)
    requires s > 0 && Wrapped(a + 1, s) == 0
    ensures (a + 1) / s == a / s + 1 && ((a + 1) / s) * s == a + 1
  {
    DivStep(s, a);
  }
}
