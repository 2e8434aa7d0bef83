/** Products and quotients of reals by name. Proofs elsewhere keep the two operations abstract and
    use only the facts below. */
module Products {

  function Times(a: real, b: real): real {
    a * b
  }

  function Quot(a: real, b: real): real
    requires b != 0.0
  {
    a / b
  }

  function Min(a: real, b: real): real {
    if a <= b then a else b
  }

  function Max(a: real, b: real): real {
    if a <= b then b else a
  }

  function Abs(a: real): real {
    if a < 0.0 then -a else a
  }

  function Ceil(a: real): int {
    -((-a).Floor)
  }

  lemma TimesZero(a: real)
    ensures Times(a, 0.0) == 0.0 && Times(0.0, a) == 0.0 && Times(a, 1.0) == a && Times(1.0, a) == a
  {
  }

  lemma TimesNeg(a: real, b: real)
    ensures Times(-a, b) == -Times(a, b) && Times(a, -b) == -Times(a, b)
  {
  }

  lemma TimesComm(a: real, b: real)
    ensures Times(a, b) == Times(b, a)
  {
  }

  lemma TimesAssoc(a: real, b: real, c: real)
    ensures Times(Times(a, b), c) == Times(a, Times(b, c))
  {
  }

  lemma TimesSwap(a: real, b: real, c: real)
    ensures Times(Times(a, b), c) == Times(Times(a, c), b)
  {
  }

  lemma TimesPlus(k: real, a: real, b: real)
    ensures Times(k, a + b) == Times(k, a) + Times(k, b)
    ensures Times(a + b, k) == Times(a, k) + Times(b, k)
  {
  }

  lemma TimesMinus(k: real, a: real, b: real)
    ensures Times(k, a - b) == Times(k, a) - Times(k, b)
    ensures Times(a - b, k) == Times(a, k) - Times(b, k)
  {
  }

  lemma TimesSign(a: real, b: real)
    ensures a >= 0.0 && b >= 0.0 ==> Times(a, b) >= 0.0
    ensures a > 0.0 && b > 0.0 ==> Times(a, b) > 0.0
  {
  }

  /** Scaling by a non-negative factor keeps order; by a positive one it also reflects it. */
  lemma TimesMonotone(a: real, b: real, c: real)
    requires c >= 0.0
    ensures a <= b ==> Times(a, c) <= Times(b, c) && Times(c, a) <= Times(c, b)
    ensures c > 0.0 && a < b ==> Times(a, c) < Times(b, c) && Times(c, a) < Times(c, b)
  {
    TimesSign(b - a, c);
    Expand(a, b, c);
  }

  lemma Expand(a: real, b: real, c: real)
    ensures Times(b - a, c) == b * c - a * c
  {
  }

  /** A fraction of a positive amount is a smaller positive amount. */
  lemma TimesShrinks(a: real, f: real)
    requires a > 0.0 && 0.0 < f < 1.0
    ensures 0.0 < Times(a, f) < a
  {
    TimesSign(a, f);
    TimesMonotone(f, 1.0, a);
    TimesZero(a);
  }

  lemma QuotTimes(a: real, b: real)
    requires b != 0.0
    ensures Times(Quot(a, b), b) == a && Times(b, Quot(a, b)) == a
  {
  }

  lemma QuotOf(a: real, b: real, q: real)
    requires b != 0.0 && Times(q, b) == a
    ensures Quot(a, b) == q
  {
  }

  lemma QuotBetween(c: real, t: real, lo: real, hi: real)
    requires t > 0.0
    ensures Times(lo, t) <= c ==> lo <= Quot(c, t)
    ensures c <= Times(hi, t) ==> Quot(c, t) <= hi
    ensures c < Times(hi, t) ==> Quot(c, t) < hi
    ensures Times(lo, t) < c ==> lo < Quot(c, t)
  {
    hide Times, Quot;
    QuotTimes(c, t);
    TimesMonotone(Quot(c, t), lo, t);
    TimesMonotone(hi, Quot(c, t), t);
  }

  lemma QuotSign(a: real, b: real)
    requires b > 0.0
    ensures a >= 0.0 <==> Quot(a, b) >= 0.0
    ensures a > 0.0 <==> Quot(a, b) > 0.0
  {
    hide Times, Quot;
    QuotBetween(a, b, 0.0, 0.0);
    TimesZero(b);
  }

  lemma FloorMultiple(q: real, step: real)
    requires step > 0.0
    ensures Times(Quot(q, step).Floor as real, step) <= q < Times(Quot(q, step).Floor as real, step) + step
    ensures q >= 0.0 ==> Quot(q, step).Floor >= 0 && Times(Quot(q, step).Floor as real, step) >= 0.0
  {
    hide Times, Quot;
    var s := Quot(q, step);
    var n := s.Floor as real;
    QuotTimes(q, step);
    TimesMonotone(n, s, step);
    TimesMonotone(s, n + 1.0, step);
    TimesPlus(step, n, 1.0);
    TimesZero(step);
    QuotSign(q, step);
    TimesSign(n, step);
  }

  lemma CeilMultiple(q: real, step: real)
    requires step > 0.0
    ensures Times(Ceil(Quot(q, step)) as real, step) - step < q <= Times(Ceil(Quot(q, step)) as real, step)
  {
    hide Times, Quot;
    var s := Quot(q, step);
    var n := Ceil(s) as real;
    QuotTimes(q, step);
    TimesMonotone(s, n, step);
    TimesMonotone(n - 1.0, s, step);
    TimesMinus(step, n, 1.0);
    TimesZero(step);
  }
}
