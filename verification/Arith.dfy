/** Division and multiplication facts the solver does not find by itself. */
module Arith {
  lemma {:induction false} MulLe(a: nat, b: nat, t: nat)
    requires a <= b
    ensures a * t <= b * t
  {
  }

  lemma {:induction false} MulGap(a: nat, b: nat, t: nat)
    requires a < b
    ensures a * t + t <= b * t
  {
    MulLe(a + 1, b, t);
  }

  lemma {:induction false} NoOther(t: nat, q: nat, r: nat, a: nat, b: nat)
    requires r < t && b < t && q * t + r == a * t + b
    ensures q == a && r == b
  {
    if q > a {
      MulGap(a, q, t);
    } else if a > q {
      MulGap(q, a, t);
    }
  }

  lemma {:induction false} DivUnique(x: nat, t: nat, q: nat, r: nat)
    requires t > 0 && x == q * t + r && r < t
    ensures x / t == q && x % t == r
  {
    NoOther(t, q, r, x / t, x % t);
  }

  lemma {:induction false} DivAtLeast(i: nat, q: nat, g: nat)
    requires g > 0 && q * g <= i
    ensures q <= i / g
  {
    if i / g < q {
      MulGap(i / g, q, g);
    }
  }

  /** Counting modulo t. */
  lemma {:induction false} ModNext(x: nat, t: nat)
    requires x < t
    ensures (x + 1) % t == if x + 1 == t then 0 else x + 1
  {
    if x + 1 == t {
      DivUnique(x + 1, t, 1, 0);
    } else {
      DivUnique(x + 1, t, 0, x + 1);
    }
  }
}
