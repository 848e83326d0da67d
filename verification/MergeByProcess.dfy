/** Merging when only different processes must not race: what one process writes twice keeps its order. */
module MergeByProcess {
  import opened DiffMerge
  import opened MergeOrder

  /** Notices, each with the process whose list it comes from. */
  type Tagged = seq<(nat, Notice)>

  function ApplyTagged(page: Page, order: Tagged): Page
    decreases |order|
  {
    if order == [] then page else ApplyTagged(Apply(page, DiffOf(order[0].1)), order[1..])
  }

  ghost predicate CausalTagged(order: Tagged) {
    forall i, j | 0 <= i < j < |order| :: !After(order[i].1, order[j].1)
  }

  /** Concurrent notices of different processes touch different bytes. */
  ghost predicate RaceFreeAcross(order: Tagged) {
    forall x, y | x in order && y in order && x.0 != y.0 && Concurrent(x.1, y.1) :: Disjoint(DiffOf(x.1), DiffOf(y.1))
  }

  // ---- the tags do not matter for the page ----

  lemma {:induction false} ApplyTaggedIs(page: Page, order: Tagged)
    ensures ApplyTagged(page, order) == ApplyAll(page, Plain(order))
    decreases |order|
  {
    if order != [] {
      assert Plain(order)[1..] == Plain(order[1..]);
      ApplyTaggedIs(Apply(page, DiffOf(order[0].1)), order[1..]);
    }
  }

  lemma CausalTaggedIs(order: Tagged)
    ensures CausalTagged(order) <==> CausalOrder(Plain(order))
  {
    var ns := Plain(order);
    assert forall i | 0 <= i < |order| :: ns[i] == order[i].1;
  }

  lemma PlainRest(order: Tagged, k: nat, rest: Tagged)
    requires k < |order| && rest == order[..k] + order[k + 1..]
    ensures Plain(rest) == Plain(order)[..k] + Plain(order)[k + 1..]
  {
  }

  lemma TakeFirstTagged(page: Page, order: Tagged, k: nat, rest: Tagged)
    requires k < |order| && rest == order[..k] + order[k + 1..]
    requires forall j | 0 <= j < k :: Disjoint(DiffOf(order[j].1), DiffOf(order[k].1))
    ensures ApplyTagged(page, order) == ApplyTagged(Apply(page, DiffOf(order[k].1)), rest)
  {
    PlainRest(order, k, rest);
    TakeFirst(page, Plain(order), k, Plain(rest));
    ApplyTaggedIs(page, order);
    ApplyTaggedIs(Apply(page, DiffOf(order[k].1)), rest);
  }

  lemma CausalTaggedRest(order: Tagged, k: nat, rest: Tagged)
    requires k < |order| && rest == order[..k] + order[k + 1..] && CausalTagged(order)
    ensures CausalTagged(rest)
  {
  }

  // ---- confluence ----

  /** Each process's notices come in the same order. */
  ghost predicate SameLists(a: Tagged, b: Tagged) {
    forall p: nat :: SameList(a, b, p)
  }

  ghost predicate SameList(a: Tagged, b: Tagged, p: nat) {
    OfProc(a, p) == OfProc(b, p)
  }

  lemma {:induction false} OfProcHolds(order: Tagged, e: (nat, Notice))
    ensures e.1 in OfProc(order, e.0) <==> e in order
    decreases |order|
  {
    if order != [] {
      OfProcHolds(order[1..], e);
      assert order == [order[0]] + order[1..];
    }
  }

  lemma OtherHolds(a: Tagged, b: Tagged, e: (nat, Notice))
    requires SameLists(a, b) && e in b
    ensures e in a
  {
    assert SameList(a, b, e.0);
    OfProcHolds(a, e);
    OfProcHolds(b, e);
  }

  /** `rest` is the order without its first notice of `p`, which stands at `k`. */
  ghost predicate WithoutFirst(order: Tagged, p: nat, k: nat, rest: Tagged) {
    && k < |order| && rest == order[..k] + order[k + 1..]
    && OfProc(order, p) == [order[k].1] + OfProc(rest, p) && order[k].0 == p
    && (forall j | 0 <= j < k :: order[j].0 != p)
  }

  lemma {:induction false} FirstOf(order: Tagged, p: nat) returns (k: nat, rest: Tagged)
    requires OfProc(order, p) != []
    ensures WithoutFirst(order, p, k, rest)
    ensures forall q: nat | q != p :: SameList(order, rest, q)
    decreases |order|
  {
    var head, tail := order[0], order[1..];
    if head.0 == p {
      k, rest := 0, tail;
    } else {
      var k', rest' := FirstOf(tail, p);
      k, rest := k' + 1, [head] + rest';
      assert rest[1..] == rest';
      assert order[..k] == [head] + tail[..k'] && order[k + 1..] == tail[k' + 1..];
      forall q: nat | q != p ensures SameList(order, rest, q) { assert SameList(tail, rest', q); }
    }
  }

  /** What stands before the first notice of `a` in another causal order of the same lists commutes with it. */
  lemma FirstPassesAhead(a: Tagged, e: (nat, Notice), first: (nat, Notice))
    requires a != [] && a[0] == first && e in a && e.0 != first.0
    requires CausalTagged(a) && RaceFreeAcross(a) && !After(e.1, first.1)
    ensures Disjoint(DiffOf(e.1), DiffOf(first.1))
  {
    var i :| 0 <= i < |a| && a[i] == e;
    assert !After(a[0].1, a[i].1);
  }

  lemma BehindHead(x: Notice, s: seq<Notice>, y: Notice, t: seq<Notice>)
    requires [x] + s == [y] + t
    ensures x == y && s == t
  {
    assert ([x] + s)[0] == ([y] + t)[0];
    assert s == ([x] + s)[1..] && t == ([y] + t)[1..];
  }

  /** Both orders without the first notice of one process. */
  lemma RestKeepsList(a: Tagged, b: Tagged, k: nat, rest: Tagged, q: nat)
    requires a != [] && SameList(a, b, q) && WithoutFirst(b, a[0].0, k, rest) && (q != a[0].0 ==> SameList(b, rest, q))
    ensures SameList(a[1..], rest, q) && (q == a[0].0 ==> b[k] == a[0])
  {
    if q == a[0].0 {
      BehindHead(a[0].1, OfProc(a[1..], q), b[k].1, OfProc(rest, q));
    }
  }

  lemma TakeFirstAcross(page: Page, a: Tagged, b: Tagged) returns (rest: Tagged)
    requires a != [] && SameLists(a, b) && CausalTagged(a) && CausalTagged(b) && RaceFreeAcross(a)
    ensures SameLists(a[1..], rest) && CausalTagged(rest)
    ensures ApplyTagged(page, b) == ApplyTagged(Apply(page, DiffOf(a[0].1)), rest)
  {
    var first := a[0];
    assert SameList(a, b, first.0);
    var k: nat;
    k, rest := FirstOf(b, first.0);
    forall q: nat ensures SameList(a[1..], rest, q) && (q == first.0 ==> b[k] == first) {
      assert SameList(a, b, q);
      RestKeepsList(a, b, k, rest, q);
    }
    assert SameList(a[1..], rest, first.0);
    forall j | 0 <= j < k ensures Disjoint(DiffOf(b[j].1), DiffOf(b[k].1)) {
      OtherHolds(a, b, b[j]);
      FirstPassesAhead(a, b[j], first);
    }
    TakeFirstTagged(page, b, k, rest);
    CausalTaggedRest(b, k, rest);
  }

  /** Confluence process by process: two causal orders in which each process's notices come in the same order give the
      same page, if there is no race between processes. */
  lemma {:induction false} ConfluenceByProcess(page: Page, a: Tagged, b: Tagged)
    requires SameLists(a, b) && CausalTagged(a) && CausalTagged(b) && RaceFreeAcross(a)
    ensures ApplyTagged(page, a) == ApplyTagged(page, b)
    decreases |a|
  {
    if a == [] {
      if b != [] {
        OtherHolds(a, b, b[0]);
      }
    } else {
      var rest := TakeFirstAcross(page, a, b);
      assert a[1..] == a[..0] + a[1..];
      CausalTaggedRest(a, 0, a[1..]);
      ConfluenceByProcess(Apply(page, DiffOf(a[0].1)), a[1..], rest);
    }
  }

  /** Without a bypass the merge leaves the page of any causal order that takes each process's notices in list order. */
  lemma MergeIsAnyOrderOfLists(wnl: Lists, index: seq<nat>, n: nat, page: Page, other: Tagged)
    requires Indexed(wnl, index, n) && Ascending(wnl, n) && NoBypass(wnl, index)
    requires forall p: nat :: OfProc(other, p) == if p < |wnl| then Tail(wnl, index, p) else []
    requires CausalTagged(other) && RaceFreeAcross(other)
    ensures ApplyAll(page, Plain(Order(wnl, index, n))) == ApplyTagged(page, other)
  {
    var order := Order(wnl, index, n);
    CausalIffNoBypass(wnl, index, n);
    CausalTaggedIs(order);
    ApplyTaggedIs(page, order);
    forall p: nat ensures SameList(other, order, p) { OrderTakesTails(wnl, index, n, p); }
    ConfluenceByProcess(page, other, order);
  }

  lemma OrderTakesTails(wnl: Lists, index: seq<nat>, n: nat, p: nat)
    requires Indexed(wnl, index, n)
    ensures OfProc(Order(wnl, index, n), p) == if p < |wnl| then Tail(wnl, index, p) else []
  {
    if p < |wnl| {
      EachOnceInListOrder(wnl, index, n, p);
    } else if OfProc(Order(wnl, index, n), p) != [] {
      var k, rest := FirstOf(Order(wnl, index, n), p);
      OrderTakesFrom(wnl, index, n, Order(wnl, index, n)[k]);
    }
  }
}
