/** Integer arithmetic: minimum and maximum, and division facts about pages that the solver does not find on its own. */
module PageMath {

  function Min(a: int, b: int): int { if a < b then a else b }

  function Max(a: int, b: int): int { if a < b then b else a }

  lemma MulMonotone(x: int, y: int, p: int)
    requires x <= y && p >= 0
    ensures x * p <= y * p
  {
  }

  lemma MulStrict(x: int, y: int, p: int)
    requires x < y && p > 0
    ensures x * p + p <= y * p
  {
    MulMonotone(x + 1, y, p);
    assert (x + 1) * p == x * p + p;
  }

  /** An address between two page boundaries belongs to that page. */
  lemma PageIs(a: int, q: int, ps: int)
    requires ps > 0 && q * ps <= a < q * ps + ps
    ensures a / ps == q && a % ps == a - q * ps
  {
    var d := a / ps;
    assert d * ps <= a < d * ps + ps;
    if d < q {
      MulStrict(d, q, ps);
    } else if q < d {
      MulStrict(q, d, ps);
    }
  }

  lemma PageBounds(a: int, ps: int)
    requires ps > 0
    ensures a / ps * ps <= a < a / ps * ps + ps
    ensures a - a % ps == a / ps * ps
  {
  }

  /** An address lies on one of the first `np` pages exactly when it is below their end. */
  lemma PageInRange(a: int, np: int, ps: int)
    requires ps > 0 && a >= 0
    ensures 0 <= a / ps && (a / ps < np <==> a < np * ps)
  {
    var q := a / ps;
    PageBounds(a, ps);
    if q < np {
      MulStrict(q, np, ps);
    } else {
      MulMonotone(np, q, ps);
    }
  }

  /** A memory of at least one page has at least one whole page, and no more than it has bytes. */
  lemma WholePages(size: int, ps: int)
    requires 0 < ps <= size
    ensures 0 < size / ps <= size && size / ps * ps <= size
  {
    PageBounds(size, ps);
    MulMonotone(1, ps, size / ps);
    if size / ps <= 0 {
      MulMonotone(size / ps, 0, ps);
    }
  }

  lemma SmallMod(a: int, n: int)
    requires 0 <= a < n
    ensures a % n == a
  {
  }
}
