/** Division and multiplication facts used throughout. */
module Arithmetic {
  lemma MulMono(a: int, b: int, m: int)
    requires a <= b && 0 <= m
    ensures a * m <= b * m
  {}

  /** A split into whole parts and a rest is unique. */
  lemma SplitUnique(m: int, quot: int, rem: int, quot': int, rem': int)
    requires 0 <= rem < m && 0 <= rem' < m
    requires quot * m + rem == quot' * m + rem'
    ensures quot == quot' && rem == rem'
  {
    if quot < quot' {
      MulMono(quot + 1, quot', m);
    } else if quot' < quot {
      MulMono(quot' + 1, quot, m);
    }
  }

  lemma DivModUnique(n: int, m: int, quot: int, rem: int)
    requires 0 <= rem < m && n == quot * m + rem
    ensures n / m == quot && n % m == rem
  {
    SplitUnique(m, quot, rem, n / m, n % m);
  }

  lemma QuotientFits(n: int, m: int)
    requires 0 < m
    ensures n / m * m <= n < n / m * m + m
  {}
}
