/** Costs of the solver: IEEE doubles that are either finite or +infinity.
    The engine never produces -infinity or NaN on the paths modelled here, so a
    real number extended by one point at infinity is enough. */
module ExtendedReals {

  datatype ExtReal = Finite(value: real) | Infinity

  /** Addition; anything plus infinity is infinity. */
  function Add(a: ExtReal, b: ExtReal): (r: ExtReal)
    ensures r.Finite? <==> a.Finite? && b.Finite?
    ensures r.Finite? ==> r.value == a.value + b.value
  {
    if a.Finite? && b.Finite? then Finite(a.value + b.value) else Infinity
  }

  /** Order: every finite value lies below infinity. */
  predicate Le(a: ExtReal, b: ExtReal)
  {
    b.Infinity? || (a.Finite? && a.value <= b.value)
  }

  /** std::min on two costs. */
  function Min(a: ExtReal, b: ExtReal): (r: ExtReal)
    ensures Le(r, a) && Le(r, b)
    ensures r == a || r == b
  {
    if Le(a, b) then a else b
  }

  lemma LeTransitive(a: ExtReal, b: ExtReal, c: ExtReal)
    requires Le(a, b) && Le(b, c)
    ensures Le(a, c)
  {
  }

  /** Adding the same finite amount to both sides keeps the minimum aligned. */
  lemma MinShift(a: ExtReal, b: ExtReal, d: real)
    ensures Min(Add(a, Finite(d)), Add(b, Finite(d))) == Add(Min(a, b), Finite(d))
  {
  }

  lemma AddAssociative(a: ExtReal, b: ExtReal, c: ExtReal)
    ensures Add(Add(a, b), c) == Add(a, Add(b, c))
  {
  }

  lemma AddCommutative(a: ExtReal, b: ExtReal)
    ensures Add(a, b) == Add(b, a)
  {
  }

  /** Adding a cost on both sides keeps the order. */
  lemma AddMonotone(a: ExtReal, b: ExtReal, d: ExtReal)
    requires Le(a, b)
    ensures Le(Add(a, d), Add(b, d))
  {
  }

  lemma AddMonotoneBoth(a: ExtReal, b: ExtReal, c: ExtReal, d: ExtReal)
    requires Le(a, b) && Le(c, d)
    ensures Le(Add(a, c), Add(b, d))
  {
  }
}
