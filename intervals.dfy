// The query interval [t_min, t_max] of a hit test. The source passes f64
// bounds and uses -f64::INFINITY for a lower bound and f64::INFINITY for an
// upper bound; no call ever passes +infinity as a lower or -infinity as an
// upper bound, so each end has its own type with only the infinity it can take.
module Intervals {

  datatype Lo = NegInf | LoFin(lo: real)

  datatype Hi = HiFin(hi: real) | PosInf

  /** `t_min <= t`. */
  predicate AboveLo(t: real, lo: Lo)
  {
    lo.NegInf? || lo.lo <= t
  }

  /** `t <= t_max`. */
  predicate BelowHi(t: real, hi: Hi)
  {
    hi.PosInf? || t <= hi.hi
  }

  /** `t` lies in the closed interval [lo, hi]; the source rejects `t < t_min || t > t_max`. */
  predicate InInterval(t: real, lo: Lo, hi: Hi)
  {
    AboveLo(t, lo) && BelowHi(t, hi)
  }

  /** `s <= h` on upper bounds. */
  predicate HiLe(s: Hi, h: Hi)
  {
    h.PosInf? || (s.HiFin? && s.hi <= h.hi)
  }

  lemma BelowHiMono(t: real, s: Hi, h: Hi)
    requires BelowHi(t, s) && HiLe(s, h)
    ensures BelowHi(t, h)
  {
  }
}
