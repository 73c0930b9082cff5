/** Multiples of a step, k * w, built by repeated addition so that proofs
    about the table stay in linear arithmetic. */
module Multiples {

  /** The k-th multiple of `w`: w added k times to 0. */
  function Times(k: nat, w: int): (r: int) {
    if k == 0 then 0 else Times(k - 1, w) + w
  }

  /** Repeated addition is multiplication. */
  lemma {:induction false} TimesIsProduct(k: nat, w: int)
    ensures Times(k, w) == k * w
  {
    if k > 0 {
      TimesIsProduct(k - 1, w);
      assert (k - 1) * w + w == k * w;
    }
  }

  /** Adding one step in front is the same as one more multiple. */
  lemma {:induction false} TimesShift(k: nat, w: int)
    ensures w + Times(k, w) == Times(k + 1, w)
  {
  }

  /** For a positive step the multiples strictly increase with k, for a
      negative one they strictly decrease. */
  lemma {:induction false} TimesStrict(k: nat, m: nat, w: int)
    requires k < m && w != 0
    ensures w > 0 ==> Times(k, w) < Times(m, w)
    ensures w < 0 ==> Times(k, w) > Times(m, w)
    decreases m - k
  {
    if k + 1 < m {
      TimesStrict(k + 1, m, w);
    }
  }

  /** A non-negative step gives non-negative multiples. */
  lemma {:induction false} TimesNonNegative(k: nat, w: int)
    requires w >= 0
    ensures Times(k, w) >= 0
  {
    if k > 0 {
      TimesNonNegative(k - 1, w);
    }
  }

  /** A larger step gives a larger (or equal) k-th multiple. */
  lemma {:induction false} TimesMonotone(k: nat, v: int, w: int)
    requires v <= w
    ensures Times(k, v) <= Times(k, w)
  {
    if k > 0 {
      TimesMonotone(k - 1, v, w);
    }
  }

  /** For a non-negative step, more multiples are never fewer. */
  lemma {:induction false} TimesGrow(k: nat, m: nat, w: int)
    requires k <= m && w >= 0
    ensures Times(k, w) <= Times(m, w)
    decreases m - k
  {
    if k < m {
      TimesGrow(k + 1, m, w);
    }
  }
}
