/** How an allocation is cut into minipages, and the search through the views for free virtual pages. */
module Minipages {
  import opened Sets
  import opened PageMath

  datatype Minipage = Minipage(offset: int, length: int)

  /** Cut `left` bytes from address `i` on at the page boundaries. */
  function Pieces(i: int, left: int, ps: int): (r: seq<Minipage>)
    requires ps > 0
    ensures left > 0 ==> r != []
    decreases left
  {
    if left <= 0 then []
    else
      var offset := i % ps;
      var length := Min(left, ps - offset);
      [Minipage(offset, length)] + Pieces(i + length, left - length, ps)
  }

  /** Where piece `k` lies: it starts where the previous one ended, stays on its own page, and only the last one
      stops before the page does. */
  ghost predicate PieceAt(i: int, left: int, ps: int, k: nat)
    requires ps > 0
  {
    var r := Pieces(i, left, ps);
    k < |r| ==>
      var base := (i / ps + k) * ps;
      && 0 <= r[k].offset && 0 < r[k].length && r[k].offset + r[k].length <= ps
      && base + r[k].offset == (if k == 0 then i else base)
      && base + r[k].offset + r[k].length == (if k == |r| - 1 then i + left else base + ps)
  }

  lemma {:induction false} PiecesTile(i: int, left: int, ps: int, k: nat)
    requires ps > 0 && left > 0
    ensures PieceAt(i, left, ps, k)
    decreases left
  {
    var r := Pieces(i, left, ps);
    var offset := i % ps;
    var length := Min(left, ps - offset);
    PageBounds(i, ps);
    if left > length {
      var q := i / ps;
      assert (q + 1) * ps == q * ps + ps;
      PageIs(i + length, q + 1, ps);
      assert r[1..] == Pieces(i + length, left - length, ps);
      if k > 0 {
        PiecesTile(i + length, left - length, ps, k - 1);
        assert (q + 1) + (k - 1) == q + k;
      }
    } else {
      assert Pieces(i + length, left - length, ps) == [];
      assert |r| == 1;
    }
  }

  /** Byte `b` lies in piece `k`. */
  ghost predicate InPiece(i: int, left: int, ps: int, k: nat, b: int)
    requires ps > 0
  {
    var r := Pieces(i, left, ps);
    k < |r| && (i / ps + k) * ps + r[k].offset <= b < (i / ps + k) * ps + r[k].offset + r[k].length
  }

  /** The pieces after the first are those of the rest, which starts on the next page. */
  lemma RestOfPieces(i: int, left: int, ps: int)
    requires ps > 0 && left > 0 && Pieces(i, left, ps)[0].length < left
    ensures var r := Pieces(i, left, ps); var length := r[0].length;
            length > 0 && r[1..] == Pieces(i + length, left - length, ps) && (i + length) / ps == i / ps + 1
  {
    var length := Pieces(i, left, ps)[0].length;
    var q := i / ps;
    PageBounds(i, ps);
    assert (q + 1) * ps == q * ps + ps;
    PageIs(i + length, q + 1, ps);
  }

  lemma {:induction false} SomePiece(i: int, left: int, ps: int, b: int) returns (k: nat)
    requires ps > 0 && i <= b < i + left
    ensures InPiece(i, left, ps, k, b)
    decreases left
  {
    var r := Pieces(i, left, ps);
    PiecesTile(i, left, ps, 0);
    if b < i + r[0].length {
      k := 0;
    } else {
      var length := r[0].length;
      RestOfPieces(i, left, ps);
      k := SomePiece(i + length, left - length, ps, b);
      assert (i / ps + 1) + k == i / ps + (k + 1);
      k := k + 1;
    }
  }

  /** The pieces cover exactly the allocated bytes, each byte once. */
  lemma PiecesPartition(i: int, left: int, ps: int, b: int)
    requires ps > 0 && left > 0
    ensures i <= b < i + left <==> exists k: nat :: InPiece(i, left, ps, k, b)
    ensures forall k: nat, j: nat | InPiece(i, left, ps, k, b) && InPiece(i, left, ps, j, b) :: k == j
  {
    if i <= b < i + left {
      var k := SomePiece(i, left, ps, b);
    }
    PageBounds(i, ps);
    forall k: nat | InPiece(i, left, ps, k, b) ensures i <= b < i + left && b / ps == i / ps + k {
      PieceInside(i, left, ps, k);
      PiecesTile(i, left, ps, k);
      PageIs(b, i / ps + k, ps);
    }
  }

  /** No piece sticks out of the allocation. */
  lemma PieceInside(i: int, left: int, ps: int, k: nat)
    requires ps > 0 && left > 0 && k < |Pieces(i, left, ps)|
    ensures var r := Pieces(i, left, ps); var base := (i / ps + k) * ps;
            i <= base + r[k].offset && base + r[k].offset + r[k].length <= i + left
  {
    var r := Pieces(i, left, ps);
    PiecesTile(i, left, ps, k);
    PageBounds(i, ps);
    if k > 0 {
      MulStrict(i / ps, i / ps + k, ps);
    }
    if k < |r| - 1 {
      PiecesTile(i, left, ps, |r| - 1);
      MulStrict(i / ps + k, i / ps + |r| - 1, ps);
    }
  }

  lemma LastPieceStarts(i: int, left: int, ps: int)
    requires ps > 0 && left > 0
    ensures (i / ps + |Pieces(i, left, ps)| - 1) * ps < i + left
  {
    PiecesTile(i, left, ps, |Pieces(i, left, ps)| - 1);
  }

  /** The pages that are used lie within the range that the search looks at. */
  lemma PiecesFit(i: int, left: int, ps: int)
    requires ps > 0 && left > 0
    ensures i / ps + |Pieces(i, left, ps)| - 1 <= (i + left) / ps
  {
    var q, last := (i + left) / ps, i / ps + |Pieces(i, left, ps)| - 1;
    LastPieceStarts(i, left, ps);
    PageBounds(i + left, ps);
    if q < last {
      MulStrict(q, last, ps);
    }
  }

  // ---- the search through the views ----

  /** No page of [lo, hi] is mapped. */
  ghost predicate AllFree(mapped: set<int>, lo: int, hi: int) {
    forall j | lo <= j <= hi :: j !in mapped
  }

  /** The pages of columns [s, e] in view `v` are all free. */
  ghost predicate ViewFree(mapped: set<int>, s: int, e: int, np: int, v: int) {
    AllFree(mapped, s + v * np, e + v * np)
  }

  /** The view the loop stops at: the first one from `i` on with all pages free, else the last one tried. */
  ghost function SearchView(mapped: set<int>, s: int, e: int, np: int, i: int, ps: int): int
    decreases ps - i
  {
    if i >= ps then i - 1
    else if ViewFree(mapped, s, e, np, i) then i
    else SearchView(mapped, s, e, np, i + 1, ps)
  }

  ghost predicate FreeView(mapped: set<int>, s: int, e: int, np: int, ps: int, v: int) {
    1 <= v < ps && ViewFree(mapped, s, e, np, v)
  }

  ghost predicate SomeViewFree(mapped: set<int>, s: int, e: int, np: int, ps: int) {
    exists v :: FreeView(mapped, s, e, np, ps, v)
  }

  lemma {:induction false} SearchFrom(mapped: set<int>, s: int, e: int, np: int, i: int, ps: int)
    requires 1 <= i <= ps
    ensures var v := SearchView(mapped, s, e, np, i, ps);
            && i - 1 <= v < ps
            && (FreeView(mapped, s, e, np, ps, v) && v >= i
                <==> exists u | i <= u < ps :: FreeView(mapped, s, e, np, ps, u))
            && (v < i || !FreeView(mapped, s, e, np, ps, v) ==> v == ps - 1)
            && (forall u | i <= u < v :: !FreeView(mapped, s, e, np, ps, u))
    decreases ps - i
  {
    if i < ps {
      if ViewFree(mapped, s, e, np, i) {
        assert FreeView(mapped, s, e, np, ps, i);
      } else {
        SearchFrom(mapped, s, e, np, i + 1, ps);
      }
    }
  }

  /** The search ends at a view whose pages are all free if and only if there is one, and then at the first. */
  lemma SearchSucceedsIff(mapped: set<int>, s: int, e: int, np: int, ps: int)
    requires ps > 0
    ensures FreeView(mapped, s, e, np, ps, SearchView(mapped, s, e, np, 1, ps))
       <==> SomeViewFree(mapped, s, e, np, ps)
    ensures forall u | 1 <= u < SearchView(mapped, s, e, np, 1, ps) :: !FreeView(mapped, s, e, np, ps, u)
  {
    SearchFrom(mapped, s, e, np, 1, ps);
  }

  /** One mapped page for each of the first `m` views, if none of them is free. */
  lemma {:induction false} OnePerView(mapped: set<int>, s: int, e: int, np: int, m: int) returns (hit: set<int>)
    requires 0 <= s <= e < np && 0 <= m
    requires forall v | 1 <= v <= m :: !ViewFree(mapped, s, e, np, v)
    ensures hit <= mapped && |hit| == m
    ensures forall j | j in hit :: 1 <= j / np <= m && s <= j % np <= e
    decreases m
  {
    if m == 0 {
      hit := {};
    } else {
      hit := OnePerView(mapped, s, e, np, m - 1);
      assert !ViewFree(mapped, s, e, np, m);
      var j :| s + m * np <= j <= e + m * np && j in mapped;
      PageIs(j, m, np);
      assert j !in hit;
      hit := hit + {j};
    }
  }

  /** The mapped pages that share a column with the pages being searched for. */
  ghost predicate InColumns(columns: set<int>, mapped: set<int>, s: int, e: int, np: int, ps: int)
    requires np > 0
  {
    forall j :: j in columns <==> j in mapped && 1 <= j / np < ps && s <= j % np <= e
  }

  lemma HitsAreColumns(hit: set<int>, columns: set<int>, mapped: set<int>, s: int, e: int, np: int, ps: int)
    requires np > 0 && InColumns(columns, mapped, s, e, np, ps) && hit <= mapped
    requires forall j | j in hit :: 1 <= j / np <= ps - 1 && s <= j % np <= e
    ensures |hit| <= |columns|
  {
    forall j | j in hit ensures j in columns { }
    SubsetSize(hit, columns);
  }

  /** Pigeonhole: if fewer pages are mapped in the searched columns than there are views, the search succeeds. */
  lemma SearchSucceedsByCounting(mapped: set<int>, columns: set<int>, s: int, e: int, np: int, ps: int)
    requires 0 <= s <= e < np && ps > 1 && InColumns(columns, mapped, s, e, np, ps)
    requires |columns| < ps - 1
    ensures FreeView(mapped, s, e, np, ps, SearchView(mapped, s, e, np, 1, ps))
  {
    SearchSucceedsIff(mapped, s, e, np, ps);
    if !exists v :: FreeView(mapped, s, e, np, ps, v) {
      forall v | 1 <= v <= ps - 1 ensures !ViewFree(mapped, s, e, np, v) {
        assert !FreeView(mapped, s, e, np, ps, v);
      }
      var hit := OnePerView(mapped, s, e, np, ps - 1);
      HitsAreColumns(hit, columns, mapped, s, e, np, ps);
    }
  }
}
