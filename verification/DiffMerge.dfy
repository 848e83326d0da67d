/** Page diffs: making them from a twin, applying them, and merging the notices of all processes in one pass. */
module DiffMerge {
  import opened Timestamps
  import opened Wrappers

  type Page = seq<nat>
  type Diff = map<int, nat>

  /** A write notice; its diff is None until it has been made or fetched. */
  datatype Notice = Notice(owner: nat, ts: Timestamp, diff: Option<Diff>)

  // ---- one diff ----

  /** A missing diff is a nil map in the source: applying it changes nothing. */
  function DiffOf(n: Notice): Diff {
    if n.diff.Some? then n.diff.value else map[]
  }

  function Apply(page: Page, d: Diff): (r: Page)
    ensures |r| == |page|
  {
    seq(|page|, k requires 0 <= k < |page| => if k in d then d[k] else page[k])
  }

  function Generate(twin: Page, data: Page): Diff
    requires |twin| == |data|
  {
    map i | 0 <= i < |data| && data[i] != twin[i] :: data[i]
  }

  /** The diff of a page against its twin turns the twin into the page. */
  lemma GenerateThenApply(twin: Page, data: Page)
    requires |twin| == |data|
    ensures Apply(twin, Generate(twin, data)) == data
  {
  }

  predicate Disjoint(a: Diff, b: Diff) {
    a.Keys !! b.Keys
  }

  lemma DisjointCommute(page: Page, a: Diff, b: Diff)
    requires Disjoint(a, b)
    ensures Apply(Apply(page, a), b) == Apply(Apply(page, b), a)
  {
  }

  /** Two writers of the same twin that touch different bytes: both sets of changes survive, in either order. */
  lemma TwoWriters(twin: Page, one: Page, two: Page, k: nat)
    requires |twin| == |one| == |two| && k < |twin|
    requires forall i | 0 <= i < |twin| :: one[i] == twin[i] || two[i] == twin[i]
    ensures var both := Apply(Apply(twin, Generate(twin, one)), Generate(twin, two));
            && both == Apply(Apply(twin, Generate(twin, two)), Generate(twin, one))
            && both[k] == if one[k] != twin[k] then one[k] else two[k]
  {
  }

  // ---- a sequence of notices ----

  function ApplyAll(page: Page, ns: seq<Notice>): (r: Page)
    ensures |r| == |page|
    decreases |ns|
  {
    if ns == [] then page else ApplyAll(Apply(page, DiffOf(ns[0])), ns[1..])
  }

  lemma {:induction false} ApplyAllConcat(page: Page, a: seq<Notice>, b: seq<Notice>)
    ensures ApplyAll(page, a + b) == ApplyAll(ApplyAll(page, a), b)
    decreases |a|
  {
    if a == [] {
      assert a + b == b;
    } else {
      assert (a + b)[1..] == a[1..] + b;
      ApplyAllConcat(Apply(page, DiffOf(a[0])), a[1..], b);
    }
  }

  /** `a` happened strictly after `b`. */
  predicate After(a: Notice, b: Notice) {
    |a.ts| == |b.ts| && Covers(a.ts, b.ts) && a.ts != b.ts
  }

  predicate Concurrent(a: Notice, b: Notice) {
    !After(a, b) && !After(b, a)
  }

  /** No notice comes before one that it has seen. */
  ghost predicate CausalOrder(ns: seq<Notice>) {
    forall i, j | 0 <= i < j < |ns| :: !After(ns[i], ns[j])
  }

  /** Concurrent notices touch different bytes: the program has no data race on the page. */
  ghost predicate RaceFree(ns: seq<Notice>) {
    forall a, b | a in ns && b in ns && a != b && Concurrent(a, b) :: Disjoint(DiffOf(a), DiffOf(b))
  }

  lemma {:induction false} BringToFront(page: Page, ns: seq<Notice>, k: nat)
    requires k < |ns|
    requires forall j | 0 <= j < k :: ns[j] == ns[k] || Disjoint(DiffOf(ns[j]), DiffOf(ns[k]))
    ensures ApplyAll(page, ns) == ApplyAll(page, [ns[k]] + ns[..k] + ns[k + 1..])
    decreases k
  {
    if k == 0 {
      assert [ns[0]] + ns[..0] + ns[1..] == ns;
    } else {
      var front, rest := ns[0], ns[1..];
      BringToFront(Apply(page, DiffOf(front)), rest, k - 1);
      var moved := [ns[k]] + rest[..k - 1] + rest[k..];
      assert rest[k - 1] == ns[k];
      assert moved[1..] == ns[1..k] + ns[k + 1..];
      var target := [ns[k]] + ns[..k] + ns[k + 1..];
      assert target[1..][0] == front && target[1..][1..] == ns[1..k] + ns[k + 1..];
      if front != ns[k] {
        DisjointCommute(page, DiffOf(front), DiffOf(ns[k]));
      }
    }
  }

  lemma RemoveAt(ns: seq<Notice>, k: nat)
    requires k < |ns|
    ensures multiset(ns) == multiset{ns[k]} + multiset(ns[..k] + ns[k + 1..])
  {
    assert ns == ns[..k] + [ns[k]] + ns[k + 1..];
  }

  lemma CausalOrderRest(ns: seq<Notice>, k: nat)
    requires k < |ns| && CausalOrder(ns)
    ensures CausalOrder(ns[..k] + ns[k + 1..])
  {
  }

  /** The first notice of one causal order sits, in any other, behind notices that it commutes with. */
  lemma FirstElsewhere(a: seq<Notice>, b: seq<Notice>) returns (k: nat)
    requires multiset(a) == multiset(b) && CausalOrder(a) && CausalOrder(b) && RaceFree(a) && a != []
    ensures k < |b| && b[k] == a[0]
    ensures forall j | 0 <= j < k :: b[j] == b[k] || Disjoint(DiffOf(b[j]), DiffOf(b[k]))
  {
    assert a[0] in multiset(b);
    k :| k < |b| && b[k] == a[0];
    forall j | 0 <= j < k ensures b[j] == b[k] || Disjoint(DiffOf(b[j]), DiffOf(b[k])) {
      assert b[j] in multiset(a);
      var i :| 0 <= i < |a| && a[i] == b[j];
      assert i == 0 || !After(a[0], a[i]);
      assert !After(b[j], b[k]);
    }
  }

  lemma RaceFreeRest(ns: seq<Notice>)
    requires RaceFree(ns) && ns != []
    ensures RaceFree(ns[1..])
  {
  }

  lemma Cancel(x: multiset<Notice>, a: multiset<Notice>, b: multiset<Notice>)
    requires x + a == x + b
    ensures a == b
  {
    forall e ensures a[e] == b[e] {
      assert (x + a)[e] == (x + b)[e];
    }
  }

  /** The same notices without the first of `a`: what is left of `b`, still in causal order. */
  lemma RestOf(a: seq<Notice>, b: seq<Notice>, k: nat) returns (rest: seq<Notice>)
    requires multiset(a) == multiset(b) && a != [] && k < |b| && b[k] == a[0] && CausalOrder(b)
    ensures rest == b[..k] + b[k + 1..]
    ensures multiset(rest) == multiset(a[1..]) && CausalOrder(rest)
  {
    rest := b[..k] + b[k + 1..];
    CausalOrderRest(b, k);
    RemoveAt(b, k);
    RemoveFirst(a);
    Cancel(multiset{a[0]}, multiset(rest), multiset(a[1..]));
  }

  lemma RemoveFirst(ns: seq<Notice>)
    requires ns != []
    ensures multiset(ns) == multiset{ns[0]} + multiset(ns[1..])
  {
    assert ns == [ns[0]] + ns[1..];
  }

  lemma TakeFirst(page: Page, b: seq<Notice>, k: nat, rest: seq<Notice>)
    requires k < |b| && rest == b[..k] + b[k + 1..]
    requires forall j | 0 <= j < k :: b[j] == b[k] || Disjoint(DiffOf(b[j]), DiffOf(b[k]))
    ensures ApplyAll(page, b) == ApplyAll(Apply(page, DiffOf(b[k])), rest)
  {
    BringToFront(page, b, k);
    assert [b[k]] + b[..k] + b[k + 1..] == [b[k]] + rest;
    assert ([b[k]] + rest)[1..] == rest;
  }

  /** Confluence: without races, every causal order of the same notices gives the same page. */
  lemma {:induction false} Confluence(page: Page, a: seq<Notice>, b: seq<Notice>)
    requires multiset(a) == multiset(b) && CausalOrder(a) && CausalOrder(b) && RaceFree(a)
    ensures ApplyAll(page, a) == ApplyAll(page, b)
    decreases |a|
  {
    if a == [] {
      assert |multiset(b)| == 0;
    } else {
      var k := FirstElsewhere(a, b);
      var rest := RestOf(a, b, k);
      TakeFirst(page, b, k, rest);
      RaceFreeRest(a);
      Confluence(Apply(page, DiffOf(a[0])), a[1..], rest);
    }
  }

  // ---- merging the lists of all processes ----

  type Lists = seq<seq<Notice>>

  ghost predicate Indexed(wnl: Lists, index: seq<nat>, n: nat) {
    && |wnl| == |index|
    && (forall p, k | 0 <= p < |wnl| && 0 <= k < |wnl[p]| :: |wnl[p][k].ts| == n)
  }

  predicate HasHead(wnl: Lists, index: seq<nat>, p: nat)
    requires |wnl| == |index| && p < |wnl|
  {
    index[p] < |wnl[p]|
  }

  function Head(wnl: Lists, index: seq<nat>, p: nat): Notice
    requires |wnl| == |index| && p < |wnl| && HasHead(wnl, index, p)
  {
    wnl[p][index[p]]
  }

  /** One pass over the first `k` processes: a head replaces the best so far unless it covers it. */
  function Best(wnl: Lists, index: seq<nat>, n: nat, k: nat): (b: Option<nat>)
    requires Indexed(wnl, index, n) && k <= |wnl|
    ensures b.Some? ==> b.value < k && HasHead(wnl, index, b.value)
    ensures b.None? ==> forall p: nat | p < k :: !HasHead(wnl, index, p)
  {
    if k == 0 then None
    else
      var b := Best(wnl, index, n, k - 1);
      if HasHead(wnl, index, k - 1)
         && (b.None? || !Covers(Head(wnl, index, k - 1).ts, Head(wnl, index, b.value).ts))
      then Some(k - 1)
      else b
  }

  /** The heads after the pick all cover it. */
  lemma LaterHeadsCoverPick(wnl: Lists, index: seq<nat>, n: nat, k: nat, p: nat)
    requires Indexed(wnl, index, n) && k <= |wnl|
    requires var b := Best(wnl, index, n, k); b.Some? && b.value < p < k && HasHead(wnl, index, p)
    ensures Covers(Head(wnl, index, p).ts, Head(wnl, index, Best(wnl, index, n, k).value).ts)
  {
  }

  /** Of the heads before it, the pick does not cover the one that those alone would have picked. */
  lemma {:induction false} PickBeatsEarlier(wnl: Lists, index: seq<nat>, n: nat, k: nat)
    requires Indexed(wnl, index, n) && k <= |wnl| && Best(wnl, index, n, k).Some?
    ensures var b := Best(wnl, index, n, k).value; var q := Best(wnl, index, n, b);
            q.Some? ==> !Covers(Head(wnl, index, b).ts, Head(wnl, index, q.value).ts)
    decreases k
  {
    if Best(wnl, index, n, k) != Some(k - 1) {
      PickBeatsEarlier(wnl, index, n, k - 1);
    }
  }

  /** The notices of one process from its index on. The index may lie past the end: dropping an empty diff takes a
      notice away that may have been passed already. */
  function Tail(wnl: Lists, index: seq<nat>, p: nat): seq<Notice>
    requires |wnl| == |index| && p < |wnl|
  {
    if HasHead(wnl, index, p) then wnl[p][index[p]..] else []
  }

  function Behind(wnl: Lists, index: seq<nat>, p: nat): nat
    requires |wnl| == |index| && p < |wnl|
  {
    if HasHead(wnl, index, p) then |wnl[p]| - index[p] else 0
  }

  function Left(wnl: Lists, index: seq<nat>, k: nat): nat
    requires |wnl| == |index| && k <= |wnl|
  {
    if k == 0 then 0 else Left(wnl, index, k - 1) + Behind(wnl, index, k - 1)
  }

  lemma {:induction false} LeftFalls(wnl: Lists, index: seq<nat>, b: nat, k: nat)
    requires |wnl| == |index| && k <= |wnl| && b < |wnl| && HasHead(wnl, index, b)
    ensures Left(wnl, index[b := index[b] + 1], k) == Left(wnl, index, k) - if b < k then 1 else 0
  {
    if k > 0 {
      LeftFalls(wnl, index, b, k - 1);
      var index' := index[b := index[b] + 1];
      assert Behind(wnl, index', k - 1) == Behind(wnl, index, k - 1) - if k - 1 == b then 1 else 0;
    }
  }

  lemma TailStep(wnl: Lists, index: seq<nat>, b: nat, p: nat)
    requires |wnl| == |index| && p < |wnl| && b < |wnl| && HasHead(wnl, index, b)
    ensures var t, t' := Tail(wnl, index, p), Tail(wnl, index[b := index[b] + 1], p);
            t == if b == p then [Head(wnl, index, b)] + t' else t'
  {
  }

  /** The notices in the order in which they are applied, each with the process whose list it came from. */
  function Order(wnl: Lists, index: seq<nat>, n: nat): seq<(nat, Notice)>
    requires Indexed(wnl, index, n)
    decreases Left(wnl, index, |wnl|)
  {
    var b := Best(wnl, index, n, |wnl|);
    if b.None? then []
    else
      LeftFalls(wnl, index, b.value, |wnl|);
      [(b.value, Head(wnl, index, b.value))] + Order(wnl, index[b.value := index[b.value] + 1], n)
  }

  function Plain(order: seq<(nat, Notice)>): (r: seq<Notice>)
    ensures |r| == |order|
  {
    seq(|order|, i requires 0 <= i < |order| => order[i].1)
  }

  /** What the order takes from one process. */
  function OfProc(order: seq<(nat, Notice)>, p: nat): seq<Notice> {
    if order == [] then []
    else (if order[0].0 == p then [order[0].1] else []) + OfProc(order[1..], p)
  }

  lemma OfProcFirst(e: (nat, Notice), rest: seq<(nat, Notice)>, p: nat)
    ensures OfProc([e] + rest, p) == (if e.0 == p then [e.1] else []) + OfProc(rest, p)
  {
    assert ([e] + rest)[1..] == rest;
  }

  /** The order begins with the head of the pick, and goes on behind it. */
  lemma OrderFirst(wnl: Lists, index: seq<nat>, n: nat, b: nat)
    requires Indexed(wnl, index, n) && Best(wnl, index, n, |wnl|) == Some(b)
    ensures Left(wnl, index[b := index[b] + 1], |wnl|) == Left(wnl, index, |wnl|) - 1
    ensures Order(wnl, index, n) == [(b, Head(wnl, index, b))] + Order(wnl, index[b := index[b] + 1], n)
  {
    LeftFalls(wnl, index, b, |wnl|);
  }

  /** Every notice from the index on is applied once, in list order, whatever the timestamps are. */
  lemma {:induction false} EachOnceInListOrder(wnl: Lists, index: seq<nat>, n: nat, p: nat)
    requires Indexed(wnl, index, n) && p < |wnl|
    ensures OfProc(Order(wnl, index, n), p) == Tail(wnl, index, p)
    ensures forall e | e in Order(wnl, index, n) :: e.0 < |wnl|
    decreases Left(wnl, index, |wnl|)
  {
    var b := Best(wnl, index, n, |wnl|);
    if b.Some? {
      var index' := index[b.value := index[b.value] + 1];
      OrderFirst(wnl, index, n, b.value);
      EachOnceInListOrder(wnl, index', n, p);
      TailStep(wnl, index, b.value, p);
      OfProcFirst((b.value, Head(wnl, index, b.value)), Order(wnl, index', n), p);
    } else {
      assert !HasHead(wnl, index, p);
    }
  }

  lemma {:induction false} OfProcConcat(a: seq<(nat, Notice)>, b: seq<(nat, Notice)>, p: nat)
    ensures OfProc(a + b, p) == OfProc(a, p) + OfProc(b, p)
    decreases |a|
  {
    if a == [] {
      assert a + b == b;
    } else {
      assert (a + b)[1..] == a[1..] + b;
      OfProcConcat(a[1..], b, p);
      var first := if a[0].0 == p then [a[0].1] else [];
      calc {
        OfProc(a + b, p);
        first + (OfProc(a[1..], p) + OfProc(b, p));
        (first + OfProc(a[1..], p)) + OfProc(b, p);
        OfProc(a, p) + OfProc(b, p);
      }
    }
  }

  /** Where the indices end: at the ends of the lists, unless they were past them. */
  function Done(wnl: Lists, index: seq<nat>): (r: seq<nat>)
    requires |wnl| == |index|
    ensures |r| == |wnl|
  {
    seq(|wnl|, p requires 0 <= p < |wnl| => if HasHead(wnl, index, p) then |wnl[p]| else index[p])
  }

  lemma TailAcross(wnl: Lists, wnl': Lists, index: seq<nat>, p: nat)
    requires |wnl| == |wnl'| == |index| && p < |wnl|
    ensures Tail(wnl, index, p) + Tail(wnl', Done(wnl, index), p) == Tail(wnl', index, p)
            <==> Tail(wnl, index, p) <= Tail(wnl', index, p)
  {
    var t, t', later := Tail(wnl, index, p), Tail(wnl', index, p), Tail(wnl', Done(wnl, index), p);
    if HasHead(wnl, index, p) {
      if t <= t' {
        assert t'[|t|..] == later;
        assert t' == t'[..|t|] + t'[|t|..];
      }
    } else {
      assert t == [] && later == t';
    }
  }

  /** Two calls in a row, whatever happened to the lists in between, apply what the first one left to be applied and
      then what lies behind; that is each notice of the new list once, exactly when nothing was taken away that the
      first call had applied. */
  lemma AcrossCalls(wnl: Lists, wnl': Lists, index: seq<nat>, n: nat, p: nat)
    requires Indexed(wnl, index, n) && |wnl'| == |wnl| && p < |wnl| && Indexed(wnl', index, n)
    ensures var both := OfProc(Order(wnl, index, n) + Order(wnl', Done(wnl, index), n), p);
            && both == Tail(wnl, index, p) + Tail(wnl', Done(wnl, index), p)
            && (both == Tail(wnl', index, p) <==> Tail(wnl, index, p) <= Tail(wnl', index, p))
  {
    var done := Done(wnl, index);
    EachOnceInListOrder(wnl, index, n, p);
    EachOnceInListOrder(wnl', done, n, p);
    OfProcConcat(Order(wnl, index, n), Order(wnl', done, n), p);
    TailAcross(wnl, wnl', index, p);
  }

  // ---- lists in causal order ----

  predicate Sized(list: seq<Notice>, n: nat) {
    forall i | 0 <= i < |list| :: |list[i].ts| == n
  }

  predicate Ascends(list: seq<Notice>, n: nat)
    requires Sized(list, n)
  {
    forall i, j | 0 <= i <= j < |list| :: Covers(list[j].ts, list[i].ts)
  }

  /** Each process's list is in causal order, as the interval logs are. */
  ghost predicate Ascending(wnl: Lists, n: nat) {
    forall p | 0 <= p < |wnl| :: Sized(wnl[p], n) && Ascends(wnl[p], n)
  }

  lemma CoversTransitive(a: Timestamp, b: Timestamp, c: Timestamp)
    requires |a| == |b| == |c| && Covers(a, b) && Covers(b, c)
    ensures Covers(a, c)
  {
  }
}
