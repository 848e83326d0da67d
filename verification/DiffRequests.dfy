/** Asking for missing diffs and answering from the notice lists. */
module DiffRequests {
  import opened Timestamps
  import opened Wrappers
  import opened DiffMerge

  datatype Request = Request(to: nat, first: Timestamp, last: Timestamp)

  predicate Within(w: Notice, r: Request)
    requires |w.ts| == |r.first| == |r.last|
  {
    Covers(w.ts, r.first) && Covers(r.last, w.ts)
  }

  // ---- asking ----

  /** Where the trailing run of missing diffs begins. */
  function RunStart(list: seq<Notice>): (s: nat)
    ensures s <= |list|
    ensures forall i | s <= i < |list| :: list[i].diff.None?
    ensures s > 0 ==> list[s - 1].diff.Some?
  {
    if list == [] || list[|list| - 1].diff.Some? then |list| else RunStart(list[..|list| - 1])
  }

  function RequestFor(list: seq<Notice>, proc: nat): Option<Request> {
    var s := RunStart(list);
    if s == |list| then None else Some(Request(proc, list[s].ts, list[|list| - 1].ts))
  }

  /** A process is asked for its trailing run of missing diffs and no more: First is the stamp of the oldest notice of
      the run, Last that of the newest, and what stands before the run has its diff. */
  predicate AsksForRun(list: seq<Notice>, r: Request, proc: nat, s: nat) {
    && s < |list| && r == Request(proc, list[s].ts, list[|list| - 1].ts)
    && (forall i | s <= i < |list| :: list[i].diff.None?) && (s > 0 ==> list[s - 1].diff.Some?)
  }

  lemma RequestIsRun(list: seq<Notice>, proc: nat)
    ensures RequestFor(list, proc).None? <==> list == [] || list[|list| - 1].diff.Some?
    ensures RequestFor(list, proc).Some? ==> AsksForRun(list, RequestFor(list, proc).value, proc, RunStart(list))
  {
  }

  predicate SizedRequest(r: Request, n: nat) {
    |r.first| == |r.last| == n
  }

  predicate Overlap(o: Request, r: Request)
    requires |o.last| == |r.last|
  {
    Covers(o.last, r.last) || Covers(r.last, o.last)
  }

  /** An earlier request takes a later one in when one of the two Last stamps covers the other. */
  function Absorb(o: Request, r: Request, n: nat): (a: Request)
    requires SizedRequest(o, n) && SizedRequest(r, n)
    ensures SizedRequest(a, n)
  {
    if Covers(o.last, r.last) then o.(first := Min(o.first, r.first))
    else if Covers(r.last, o.last) then Request(r.to, Min(o.first, r.first), Merge(o.last, r.last))
    else o
  }

  predicate AllSized(rs: seq<Request>, n: nat) {
    forall i | 0 <= i < |rs| :: SizedRequest(rs[i], n)
  }

  function Join(rs: seq<Request>, r: Request, n: nat): (js: seq<Request>)
    requires AllSized(rs, n) && SizedRequest(r, n)
    ensures AllSized(js, n)
  {
    seq(|rs|, i requires 0 <= i < |rs| => Absorb(rs[i], r, n))
    + if exists i | 0 <= i < |rs| :: Overlap(rs[i], r) then [] else [r]
  }

  /** The requests made after looking at the first `k` processes. */
  function Requests(wnl: Lists, n: nat, k: nat): (rs: seq<Request>)
    requires k <= |wnl| && forall p | 0 <= p < |wnl| :: Sized(wnl[p], n)
    ensures AllSized(rs, n)
  {
    if k == 0 then []
    else
      var rs := Requests(wnl, n, k - 1);
      var r := RequestFor(wnl[k - 1], k - 1);
      if r.None? then rs else Join(rs, r.value, n)
  }

  /** Two Last stamps are equal or causally unrelated. */
  predicate Apart(a: Timestamp, b: Timestamp)
    requires |a| == |b|
  {
    a == b || (!Covers(a, b) && !Covers(b, a))
  }

  ghost predicate LastsApart(rs: seq<Request>, n: nat)
    requires AllSized(rs, n)
  {
    forall i, j | 0 <= i < |rs| && 0 <= j < |rs| :: Apart(rs[i].last, rs[j].last)
  }

  /** The request goes to the process whose newest notice is stamped Last, and that diff is missing. */
  ghost predicate ToOwner(wnl: Lists, r: Request) {
    && r.to < |wnl| && wnl[r.to] != []
    && var newest := wnl[r.to][|wnl[r.to]| - 1];
       newest.ts == r.last && newest.diff.None?
  }

  /** The old request, or the new one when its Last is strictly above. */
  lemma AbsorbWidens(o: Request, r: Request, n: nat)
    requires SizedRequest(o, n) && SizedRequest(r, n)
    ensures var a := Absorb(o, r, n);
            && Covers(o.first, a.first) && Covers(a.last, o.last)
            && (Overlap(o, r) ==> Covers(r.first, a.first) && Covers(a.last, r.last))
            && ((a.to == o.to && a.last == o.last) || (a.to == r.to && a.last == r.last && Covers(r.last, o.last)))
  {
  }

  lemma RequestForGoesToOwner(wnl: Lists, p: nat)
    requires p < |wnl| && RequestFor(wnl[p], p).Some?
    ensures ToOwner(wnl, RequestFor(wnl[p], p).value)
  {
  }

  /** Target and Last of a joined request are those of the old request in its place, or of the new one. */
  lemma JoinKeepsTargets(rs: seq<Request>, r: Request, n: nat, i: nat)
    requires AllSized(rs, n) && SizedRequest(r, n) && i < |Join(rs, r, n)|
    ensures var a := Join(rs, r, n)[i];
            (a.to == r.to && a.last == r.last) || (i < |rs| && a.to == rs[i].to && a.last == rs[i].last)
  {
    if i < |rs| {
      AbsorbWidens(rs[i], r, n);
    }
  }

  lemma JoinGoesToOwners(wnl: Lists, rs: seq<Request>, r: Request, n: nat, i: nat)
    requires AllSized(rs, n) && SizedRequest(r, n) && i < |Join(rs, r, n)|
    requires ToOwner(wnl, r) && (i < |rs| ==> ToOwner(wnl, rs[i]))
    ensures ToOwner(wnl, Join(rs, r, n)[i])
  {
    JoinKeepsTargets(rs, r, n, i);
  }

  lemma {:induction false} RequestsGoToOwners(wnl: Lists, n: nat, k: nat, i: nat)
    requires k <= |wnl| && (forall p | 0 <= p < |wnl| :: Sized(wnl[p], n)) && i < |Requests(wnl, n, k)|
    ensures ToOwner(wnl, Requests(wnl, n, k)[i])
  {
    var q: nat := k - 1;
    var rs, r := Requests(wnl, n, q), RequestFor(wnl[q], q);
    if i < |rs| {
      RequestsGoToOwners(wnl, n, q, i);
    }
    if r.Some? {
      RequestForGoesToOwner(wnl, q);
      JoinGoesToOwners(wnl, rs, r.value, n, i);
    }
  }

  /** Entry `e` of the oldest notice of some run of missing diffs is `v`. */
  ghost predicate OldestMissing(wnl: Lists, e: nat, v: int) {
    exists p: nat :: p < |wnl| && OldestAt(wnl[p], e, v)
  }

  predicate OldestAt(list: seq<Notice>, e: nat, v: int) {
    var s := RunStart(list);
    s < |list| && e < |list[s].ts| && list[s].ts[e] == v
  }

  lemma AbsorbIsTight(o: Request, r: Request, n: nat, e: nat)
    requires SizedRequest(o, n) && SizedRequest(r, n) && e < n
    ensures Absorb(o, r, n).first[e] == o.first[e] || Absorb(o, r, n).first[e] == r.first[e]
  {
  }

  lemma JoinIsTight(rs: seq<Request>, r: Request, n: nat, i: nat, e: nat)
    requires AllSized(rs, n) && SizedRequest(r, n) && i < |Join(rs, r, n)| && e < n
    ensures var v := Join(rs, r, n)[i].first[e]; v == r.first[e] || (i < |rs| && v == rs[i].first[e])
  {
    if i < |rs| {
      AbsorbIsTight(rs[i], r, n, e);
    }
  }

  /** First goes no further back than it must: each of its entries is that of the oldest missing notice of some list. */
  lemma {:induction false} FirstsAreTight(wnl: Lists, n: nat, k: nat, i: nat, e: nat)
    requires k <= |wnl| && (forall p | 0 <= p < |wnl| :: Sized(wnl[p], n)) && i < |Requests(wnl, n, k)| && e < n
    ensures OldestMissing(wnl, e, Requests(wnl, n, k)[i].first[e])
  {
    var rs := Requests(wnl, n, k - 1);
    var r := RequestFor(wnl[k - 1], k - 1);
    if r.Some? {
      JoinIsTight(rs, r.value, n, i, e);
      assert OldestAt(wnl[k - 1], e, r.value.first[e]);
    }
    if i < |rs| {
      FirstsAreTight(wnl, n, k - 1, i, e);
    }
  }

  lemma JoinKeepsApart(rs: seq<Request>, r: Request, n: nat, i: nat, j: nat)
    requires AllSized(rs, n) && SizedRequest(r, n) && LastsApart(rs, n)
    requires var js := Join(rs, r, n); i < |js| && j < |js|
    ensures Apart(Join(rs, r, n)[i].last, Join(rs, r, n)[j].last)
  {
    if i < |rs| && j < |rs| {
      AbsorbKeepsApart(rs[i], rs[j], r, n);
    } else if i < |rs| {
      assert !Overlap(rs[i], r);
    } else if j < |rs| {
      assert !Overlap(rs[j], r);
    }
  }

  lemma AbsorbKeepsApart(o: Request, o': Request, r: Request, n: nat)
    requires SizedRequest(o, n) && SizedRequest(o', n) && SizedRequest(r, n) && Apart(o.last, o'.last)
    ensures Apart(Absorb(o, r, n).last, Absorb(o', r, n).last)
  {
  }

  lemma {:induction false} LastsStayApart(wnl: Lists, n: nat, k: nat)
    requires k <= |wnl| && forall p | 0 <= p < |wnl| :: Sized(wnl[p], n)
    ensures LastsApart(Requests(wnl, n, k), n)
  {
    if k > 0 {
      LastsStayApart(wnl, n, k - 1);
      var rs := Requests(wnl, n, k - 1);
      var r := RequestFor(wnl[k - 1], k - 1);
      if r.Some? {
        var js := Join(rs, r.value, n);
        forall i, j | 0 <= i < |js| && 0 <= j < |js| ensures Apart(js[i].last, js[j].last) {
          JoinKeepsApart(rs, r.value, n, i, j);
        }
      }
    }
  }

  /** Every notice in a process's trailing run of missing diffs lies within some request. */
  lemma {:induction false} RunsAreRequested(wnl: Lists, n: nat, k: nat, p: nat, i: nat) returns (q: nat)
    requires k <= |wnl| && Ascending(wnl, n) && p < k && RunStart(wnl[p]) <= i < |wnl[p]|
    ensures q < |Requests(wnl, n, k)| && Within(wnl[p][i], Requests(wnl, n, k)[q])
  {
    var rs := Requests(wnl, n, k - 1);
    var r := RequestFor(wnl[k - 1], k - 1);
    var w := wnl[p][i];
    if p == k - 1 {
      assert Ascends(wnl[p], n) && Within(w, r.value);
      if j: nat :| j < |rs| && Overlap(rs[j], r.value) {
        q := j;
        WithinAbsorbed(w, rs[j], r.value, n);
      } else {
        q := |rs|;
      }
    } else {
      q := RunsAreRequested(wnl, n, k - 1, p, i);
      if r.Some? {
        WithinAbsorbed(w, rs[q], r.value, n);
      }
    }
  }

  lemma WithinAbsorbed(w: Notice, o: Request, r: Request, n: nat)
    requires SizedRequest(o, n) && SizedRequest(r, n) && |w.ts| == n
    requires Within(w, o) || (Overlap(o, r) && Within(w, r))
    ensures Within(w, Absorb(o, r, n))
  {
  }

  // ---- answering ----

  /** The backward scan of one list: it stops at the first notice that does not cover First. */
  function Scan(list: seq<Notice>, r: Request, n: nat): seq<Notice>
    requires Sized(list, n) && SizedRequest(r, n)
  {
    if list == [] then []
    else
      var newest, older := list[|list| - 1], list[..|list| - 1];
      if !Covers(newest.ts, r.first) then []
      else (if Covers(r.last, newest.ts) then [newest] else []) + Scan(older, r, n)
  }

  lemma ScanStep(list: seq<Notice>, i: nat, r: Request, n: nat)
    requires Sized(list, n) && SizedRequest(r, n) && i < |list|
    ensures Scan(list[..i + 1], r, n)
         == if !Covers(list[i].ts, r.first) then []
            else if Covers(r.last, list[i].ts) then [list[i]] + Scan(list[..i], r, n) else Scan(list[..i], r, n)
  {
    assert list[..i + 1][..i] == list[..i];
  }

  /** All notices of the list within the request, newest first. */
  function Wanted(list: seq<Notice>, r: Request, n: nat): seq<Notice>
    requires Sized(list, n) && SizedRequest(r, n)
  {
    if list == [] then []
    else
      var newest, older := list[|list| - 1], list[..|list| - 1];
      (if Within(newest, r) then [newest] else []) + Wanted(older, r, n)
  }

  lemma {:induction false} NothingWanted(list: seq<Notice>, r: Request, n: nat)
    requires Sized(list, n) && SizedRequest(r, n) && forall i | 0 <= i < |list| :: !Within(list[i], r)
    ensures Wanted(list, r, n) == []
  {
    if list != [] {
      NothingWanted(list[..|list| - 1], r, n);
    }
  }

  /** In an ascending list the early exit loses nothing. */
  lemma {:induction false} ScanIsExact(list: seq<Notice>, r: Request, n: nat)
    requires Sized(list, n) && SizedRequest(r, n) && Ascends(list, n)
    ensures Scan(list, r, n) == Wanted(list, r, n)
  {
    if list != [] {
      var newest, older := list[|list| - 1], list[..|list| - 1];
      if Covers(newest.ts, r.first) {
        ScanIsExact(older, r, n);
      } else {
        forall i | 0 <= i < |list| ensures !Within(list[i], r) {
          if Covers(list[i].ts, r.first) {
            CoversTransitive(newest.ts, list[i].ts, r.first);
          }
        }
        NothingWanted(list, r, n);
      }
    }
  }

  lemma {:induction false} WantedHolds(list: seq<Notice>, r: Request, n: nat, w: Notice)
    requires Sized(list, n) && SizedRequest(r, n) && |w.ts| == n
    ensures w in Wanted(list, r, n) <==> w in list && Within(w, r)
  {
    if list != [] {
      WantedHolds(list[..|list| - 1], r, n, w);
      assert list == list[..|list| - 1] + [list[|list| - 1]];
    }
  }

  /** What the answer takes from each list; the requester's own is skipped. */
  function Parts(wnl: Lists, from: nat, r: Request, n: nat): (parts: Lists)
    requires SizedRequest(r, n) && forall p | 0 <= p < |wnl| :: Sized(wnl[p], n)
    ensures |parts| == |wnl|
  {
    seq(|wnl|, p requires 0 <= p < |wnl| => if p == from then [] else Scan(wnl[p], r, n))
  }

  /** The first `k` parts, one after the other. */
  function Flat(parts: Lists, k: nat): (f: seq<Notice>)
    requires k <= |parts|
  {
    if k == 0 then [] else Flat(parts, k - 1) + parts[k - 1]
  }

  /** The answer over the first `k` processes. */
  function Answer(wnl: Lists, from: nat, r: Request, n: nat, k: nat): seq<Notice>
    requires k <= |wnl| && SizedRequest(r, n) && forall p | 0 <= p < |wnl| :: Sized(wnl[p], n)
  {
    Flat(Parts(wnl, from, r, n), k)
  }

  /** One of the first `k` processes, other than the requester, has the notice in its list. */
  ghost predicate Known(wnl: Lists, from: nat, k: nat, w: Notice)
    requires k <= |wnl|
  {
    exists p: nat :: p < k && p != from && w in wnl[p]
  }

  ghost predicate InParts(parts: Lists, k: nat, w: Notice)
    requires k <= |parts|
  {
    exists p: nat :: p < k && w in parts[p]
  }

  lemma {:induction false} FlatHolds(parts: Lists, k: nat, w: Notice)
    requires k <= |parts|
    ensures w in Flat(parts, k) <==> InParts(parts, k, w)
  {
    if k > 0 {
      FlatHolds(parts, k - 1, w);
      var before, last := Flat(parts, k - 1), parts[k - 1];
      assert w in before + last <==> w in before || w in last;
    }
  }

  /** The answer holds exactly the notices within the request of every process but the requester. */
  lemma AnswerIsExact(wnl: Lists, from: nat, r: Request, n: nat, k: nat, w: Notice)
    requires k <= |wnl| && SizedRequest(r, n) && Ascending(wnl, n) && |w.ts| == n
    ensures w in Answer(wnl, from, r, n, k) <==> Within(w, r) && Known(wnl, from, k, w)
  {
    var parts := Parts(wnl, from, r, n);
    FlatHolds(parts, k, w);
    forall p: nat | p < k ensures w in parts[p] <==> p != from && w in wnl[p] && Within(w, r) {
      assert Sized(wnl[p], n) && Ascends(wnl[p], n);
      ScanIsExact(wnl[p], r, n);
      WantedHolds(wnl[p], r, n, w);
    }
    if w in Answer(wnl, from, r, n, k) {
      var p: nat :| p < k && w in parts[p];
      assert w in wnl[p];
    } else if Known(wnl, from, k, w) {
      var p: nat :| p < k && p != from && w in wnl[p];
      assert w !in parts[p];
    }
  }

  /** Request and answer together: for each missing notice there is a request, to a process whose newest notice
      bounds it, and an answer by whoever knows a notice with that stamp contains it. */
  lemma MissingIsAnswered(wnl: Lists, me: nat, n: nat, p: nat, i: nat, theirs: Lists, w: Notice) returns (q: nat)
    requires Ascending(wnl, n) && p < |wnl| && p != me && RunStart(wnl[p]) <= i < |wnl[p]|
    requires Ascending(theirs, n) && |theirs| == |wnl| && w in theirs[p] && w.ts == wnl[p][i].ts
    ensures q < |Requests(wnl, n, |wnl|)|
    ensures ToOwner(wnl, Requests(wnl, n, |wnl|)[q])
    ensures w in Answer(theirs, me, Requests(wnl, n, |wnl|)[q], n, |theirs|)
  {
    q := RunsAreRequested(wnl, n, |wnl|, p, i);
    RequestsGoToOwners(wnl, n, |wnl|, q);
    assert Known(theirs, me, |theirs|, w);
    AnswerIsExact(theirs, me, Requests(wnl, n, |wnl|)[q], n, |theirs|, w);
  }
}
