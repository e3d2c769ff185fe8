/**
Smaller and greater of two numbers, and division told by what it means. The division functions can be hidden, so
that proofs about refills and rounds stay linear and use the few facts below.
*/
module Arithmetic {

  function Min(a: int, b: int): int {
    if a <= b then a else b
  }

  function Max(a: int, b: int): int {
    if a >= b then a else b
  }

  function Quotient(x: int, d: int): int
    requires d >= 1
  {
    x / d
  }

  function Times(n: int, d: int): int {
    n * d
  }

  function Remainder(x: int, d: int): (r: int)
    requires d >= 1
    ensures 0 <= r < d
  {
    x % d
  }

  lemma QuotientOf(x: int, d: int)
    requires d >= 1
    ensures Times(Quotient(x, d), d) <= x < Times(Quotient(x, d), d) + d
    ensures Remainder(x, d) == x - Times(Quotient(x, d), d)
    ensures x >= 0 ==> Quotient(x, d) >= 0
  {
  }

  lemma TimesAdds(a: int, b: int, d: int)
    ensures Times(a + b, d) == Times(a, d) + Times(b, d)
    ensures Times(a - b, d) == Times(a, d) - Times(b, d)
    ensures Times(0, d) == 0 && Times(1, d) == d && Times(-1, d) == -d
  {
  }

  lemma TimesGrows(a: int, b: int, d: int)
    requires a <= b && d >= 0
    ensures Times(a, d) <= Times(b, d)
  {
  }

  lemma TimesOrders(a: int, b: int, d: int)
    requires d >= 1 && Times(a, d) < Times(b, d) + d
    ensures a <= b
  {
    hide Times;
    if a > b {
      TimesAdds(b, 1, d);
      TimesGrows(b + 1, a, d);
      assert false;
    }
  }

  lemma QuotientIs(x: int, d: int, q: int)
    requires d >= 1 && Times(q, d) <= x < Times(q, d) + d
    ensures Quotient(x, d) == q
  {
    hide Times, Quotient, Remainder;
    QuotientOf(x, d);
    TimesOrders(Quotient(x, d), q, d);
    TimesOrders(q, Quotient(x, d), d);
  }
}
