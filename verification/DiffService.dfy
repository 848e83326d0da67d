/** When one request brings every missing diff: the newest missing notices are comparable, and the host that answers
    knows the same notices up to the Last of the request. */
module DiffService {
  import opened Timestamps
  import opened DiffMerge
  import opened DiffRequests
  import opened DiffStore

  // ---- one request ----

  predicate MissesNewest(list: seq<Notice>) {
    list != [] && list[|list| - 1].diff.None?
  }

  /** Of any two lists whose newest diff is missing, one newest notice has seen the other. */
  ghost predicate NewestComparable(wnl: Lists, n: nat) {
    forall p: nat, q: nat | p < |wnl| && q < |wnl| && MissesNewest(wnl[p]) && MissesNewest(wnl[q]) ::
      Comparable(wnl[p][|wnl[p]| - 1], wnl[q][|wnl[q]| - 1])
  }

  predicate Comparable(v: Notice, w: Notice) {
    |v.ts| == |w.ts| ==> Covers(v.ts, w.ts) || Covers(w.ts, v.ts)
  }

  lemma {:induction false} OneRequest(wnl: Lists, n: nat, k: nat)
    requires k <= |wnl| && (forall p | 0 <= p < |wnl| :: Sized(wnl[p], n)) && NewestComparable(wnl, n)
    ensures |Requests(wnl, n, k)| <= 1
  {
    if k > 0 {
      OneRequest(wnl, n, k - 1);
      var rs := Requests(wnl, n, k - 1);
      var r := RequestFor(wnl[k - 1], k - 1);
      if r.Some? && |rs| == 1 {
        RequestsGoToOwners(wnl, n, k - 1, 0);
        assert MissesNewest(wnl[rs[0].to]) && MissesNewest(wnl[k - 1]);
        assert Overlap(rs[0], r.value);
      }
    }
  }

  lemma TheRequest(wnl: Lists, n: nat, p: nat, i: nat) returns (r: Request)
    requires Ascending(wnl, n) && NewestComparable(wnl, n) && p < |wnl| && RunStart(wnl[p]) <= i < |wnl[p]|
    ensures Requests(wnl, n, |wnl|) == [r] && SizedRequest(r, n) && Within(wnl[p][i], r)
  {
    OneRequest(wnl, n, |wnl|);
    var q := RunsAreRequested(wnl, n, |wnl|, p, i);
    var rs := Requests(wnl, n, |wnl|);
    r := rs[0];
    assert q == 0 && rs == [r];
  }

  // ---- an answer by a host that knows the same ----

  /** The newest notice of the list, and so every one, is covered. */
  predicate CoveredBy(list: seq<Notice>, last: Timestamp, n: nat)
    requires Sized(list, n) && |last| == n
  {
    list != [] ==> Covers(last, list[|list| - 1].ts)
  }

  predicate SameStamp(list: seq<Notice>, other: seq<Notice>, i: nat) {
    i < |list| && i < |other| ==> list[i].ts == other[i].ts
  }

  predicate Beyond(other: seq<Notice>, last: Timestamp, i: nat) {
    i < |other| && |other[i].ts| == |last| ==> !Covers(last, other[i].ts)
  }

  /** The other list has the same stamps, and then only notices that `last` does not cover. */
  ghost predicate Agrees(list: seq<Notice>, other: seq<Notice>, last: Timestamp) {
    && |list| <= |other|
    && (forall i: nat :: SameStamp(list, other, i))
    && (forall i: nat | |list| <= i :: Beyond(other, last, i))
  }

  /** If all notices are covered by Last, the scan takes the newest ones, as far as they cover First. */
  lemma {:induction false} ScanTakes(list: seq<Notice>, r: Request, n: nat, i: nat)
    requires Sized(list, n) && SizedRequest(r, n) && Ascends(list, n) && CoveredBy(list, r.last, n)
    ensures |Scan(list, r, n)| <= |list|
    ensures forall t | 0 <= t < |Scan(list, r, n)| :: Scan(list, r, n)[t] == list[|list| - 1 - t]
    ensures i < |list| && Covers(list[i].ts, r.first) ==> |list| - 1 - i < |Scan(list, r, n)|
    decreases |list|
  {
    if list != [] {
      var newest, older := list[|list| - 1], list[..|list| - 1];
      if older != [] {
        CoversTransitive(r.last, newest.ts, older[|older| - 1].ts);
      }
      ScanTakes(older, r, n, i);
      if i < |list| && Covers(list[i].ts, r.first) {
        CoversTransitive(newest.ts, list[i].ts, r.first);
      }
    }
  }

  /** Notices at the end that Last does not cover are skipped. */
  lemma {:induction false} ScanSkips(list: seq<Notice>, c: nat, r: Request, n: nat)
    requires Sized(list, n) && SizedRequest(r, n) && Ascends(list, n) && c <= |list|
    requires forall i: nat | c <= i :: Beyond(list, r.last, i)
    ensures Scan(list, r, n) == Scan(list[..c], r, n)
    decreases |list|
  {
    if c < |list| {
      var newest, older := list[|list| - 1], list[..|list| - 1];
      assert Beyond(list, r.last, |list| - 1);
      forall i: nat | c <= i ensures Beyond(older, r.last, i) { assert Beyond(list, r.last, i); }
      ScanSkips(older, c, r, n);
      assert older[..c] == list[..c];
      if c > 0 && Covers(list[c - 1].ts, r.first) {
        CoversTransitive(newest.ts, list[c - 1].ts, r.first);
      }
    } else {
      assert list[..c] == list;
    }
  }

  lemma TakenAlike(list: seq<Notice>, known: seq<Notice>, part: seq<Notice>, t: nat, j: nat)
    requires |known| == |list| && t < |part| && t < |list| && j == |list| - 1 - t
    requires part[t] == known[|known| - 1 - t] && list[j].ts == known[j].ts
    ensures Alike(list, part, 0, t)
  {
  }

  lemma AgreeingKnown(list: seq<Notice>, known: seq<Notice>, other: seq<Notice>, r: Request, n: nat, i: nat)
    requires Sized(list, n) && Sized(known, n) && SizedRequest(r, n) && Ascends(known, n)
    requires |list| <= |other| && known == other[..|list|] && CoveredBy(known, r.last, n)
    requires forall j: nat :: SameStamp(list, other, j)
    ensures var part := Scan(known, r, n);
            && Matches(list, part, 0, |part|)
            && (i < |list| && Covers(list[i].ts, r.first) ==>
                  |list| - 1 - i < |part| && part[|list| - 1 - i] == other[i])
  {
    ScanTakes(known, r, n, i);
    var part := Scan(known, r, n);
    assert SameStamp(list, other, i);
    forall t: nat | t < |part| ensures Alike(list, part, 0, t) {
      var j := |list| - 1 - t;
      assert SameStamp(list, other, j);
      TakenAlike(list, known, part, t, j);
    }
  }

  lemma AgreeingPart(list: seq<Notice>, other: seq<Notice>, r: Request, n: nat, i: nat)
    requires Sized(list, n) && Sized(other, n) && SizedRequest(r, n) && Ascends(other, n)
    requires CoveredBy(list, r.last, n) && Agrees(list, other, r.last)
    ensures var part := Scan(other, r, n);
            && Matches(list, part, 0, |part|)
            && (i < |list| && Covers(list[i].ts, r.first) ==>
                  |list| - 1 - i < |part| && part[|list| - 1 - i] == other[i])
  {
    var known := other[..|list|];
    ScanSkips(other, |list|, r, n);
    assert known != [] ==> SameStamp(list, other, |list| - 1);
    AgreeingKnown(list, known, other, r, n, i);
  }

  ghost predicate AllAgree(wnl: Lists, me: nat, theirs: Lists, r: Request, n: nat)
    requires |theirs| == |wnl| && SizedRequest(r, n) && forall p | 0 <= p < |wnl| :: Sized(wnl[p], n)
  {
    forall p: nat | p < |wnl| && p != me :: CoveredBy(wnl[p], r.last, n) && Agrees(wnl[p], theirs[p], r.last)
  }

  lemma PartIsKnown(wnl: Lists, me: nat, theirs: Lists, r: Request, n: nat, p: nat, i: nat, q: nat, j: nat)
      returns (t: nat)
    requires Ascending(theirs, n) && |theirs| == |wnl| && SizedRequest(r, n)
    requires Foreign(wnl, me, Parts(theirs, me, r, n), p, i, q, j)
    ensures Foreign(wnl, me, theirs, p, i, q, t)
  {
    var w := Parts(theirs, me, r, n)[q][j];
    assert Sized(theirs[q], n) && Ascends(theirs[q], n);
    ScanIsExact(theirs[q], r, n);
    ScanSized(theirs[q], r, n, j);
    WantedHolds(theirs[q], r, n, w);
    t :| t < |theirs[q]| && theirs[q][t] == w;
  }

  lemma PartsHaveNoForeignStamp(wnl: Lists, me: nat, theirs: Lists, r: Request, n: nat)
    requires Ascending(theirs, n) && |theirs| == |wnl| && SizedRequest(r, n) && NoForeignStamp(wnl, me, theirs)
    ensures NoForeignStamp(wnl, me, Parts(theirs, me, r, n))
  {
    var parts := Parts(theirs, me, r, n);
    forall p: nat, i: nat, q: nat, j: nat ensures !Foreign(wnl, me, parts, p, i, q, j) {
      if Foreign(wnl, me, parts, p, i, q, j) {
        var t := PartIsKnown(wnl, me, theirs, r, n, p, i, q, j);
      }
    }
  }

  lemma {:induction false} ScanSized(list: seq<Notice>, r: Request, n: nat, j: nat)
    requires Sized(list, n) && SizedRequest(r, n) && j < |Scan(list, r, n)|
    ensures |Scan(list, r, n)[j].ts| == n
    decreases |list|
  {
    if j > 0 || !Covers(r.last, list[|list| - 1].ts) {
      var older := list[..|list| - 1];
      ScanSized(older, r, n, if Covers(r.last, list[|list| - 1].ts) then j - 1 else j);
    }
  }

  lemma AgreeingFits(wnl: Lists, me: nat, theirs: Lists, r: Request, n: nat, p: nat)
    requires Ascending(wnl, n) && Ascending(theirs, n) && |theirs| == |wnl| && SizedRequest(r, n) && p < |wnl|
    requires AllAgree(wnl, me, theirs, r, n) && NoForeignStamp(wnl, me, theirs)
    ensures FitsAt(wnl, me, Parts(theirs, me, r, n), p)
  {
    if p != me {
      PartsHaveNoForeignStamp(wnl, me, theirs, r, n);
      LaterIsForeign(wnl, me, Parts(theirs, me, r, n), p);
      AgreeingPart(wnl[p], theirs[p], r, n, 0);
    }
  }

  lemma StoredAt(wnl: Lists, me: nat, parts: Lists, p: nat, t: nat, i: nat, w: Notice)
    requires |parts| == |wnl| && StoredAtOwner(wnl, me, parts) && p < |wnl| && p != me && t < |parts[p]|
    requires t + 1 + i == |wnl[p]| && parts[p][t] == w
    ensures i < |Fill(wnl, me, Flat(parts, |parts|))[p]|
    ensures Fill(wnl, me, Flat(parts, |parts|))[p][i] == wnl[p][i].(diff := w.diff)
  {
    var j := StoredWithItsNotice(wnl, me, parts, p, t);
  }

  /** A host that knows the same notices as the receiver up to Last, which covers all that the receiver knows, answers
      with nothing that is lost; and each notice that covers First gets the diff that this host has for it. */
  lemma AgreeingAnswerIsStored(wnl: Lists, me: nat, theirs: Lists, r: Request, n: nat, p: nat, i: nat)
    requires Ascending(wnl, n) && Ascending(theirs, n) && |theirs| == |wnl| && SizedRequest(r, n)
    requires AllAgree(wnl, me, theirs, r, n) && NoForeignStamp(wnl, me, theirs)
    requires p < |wnl| && p != me && i < |wnl[p]| && i < |theirs[p]| && Covers(wnl[p][i].ts, r.first)
    ensures var answer := Answer(theirs, me, r, n, |theirs|);
            && Lost(wnl, me, answer) == []
            && i < |Fill(wnl, me, answer)[p]|
            && Fill(wnl, me, answer)[p][i] == wnl[p][i].(diff := theirs[p][i].diff)
  {
    var parts := Parts(theirs, me, r, n);
    forall q: nat | q < |wnl| ensures FitsAt(wnl, me, parts, q) { AgreeingFits(wnl, me, theirs, r, n, q); }
    StoredAtOwnerIff(wnl, me, parts);
    AgreeingPart(wnl[p], theirs[p], r, n, i);
    StoredAt(wnl, me, parts, p, |wnl[p]| - 1 - i, i, theirs[p][i]);
  }

  /** If the newest missing notices are comparable there is one request, and its answer by such a host brings every
      missing diff that this host has. */
  lemma OneAnswerServesAll(wnl: Lists, me: nat, theirs: Lists, n: nat, p: nat, i: nat) returns (r: Request)
    requires Ascending(wnl, n) && Ascending(theirs, n) && |theirs| == |wnl| && NewestComparable(wnl, n)
    requires p < |wnl| && p != me && RunStart(wnl[p]) <= i < |wnl[p]|
    requires forall o | o in Requests(wnl, n, |wnl|) :: AllAgree(wnl, me, theirs, o, n)
    requires NoForeignStamp(wnl, me, theirs)
    ensures Requests(wnl, n, |wnl|) == [r] && SizedRequest(r, n) && i < |theirs[p]|
    ensures var answer := Answer(theirs, me, r, n, |theirs|);
            && Lost(wnl, me, answer) == []
            && i < |Fill(wnl, me, answer)[p]|
            && Fill(wnl, me, answer)[p][i] == wnl[p][i].(diff := theirs[p][i].diff)
  {
    r := TheRequest(wnl, n, p, i);
    assert r in Requests(wnl, n, |wnl|);
    assert AllAgree(wnl, me, theirs, r, n) && Agrees(wnl[p], theirs[p], r.last);
    AgreeingAnswerIsStored(wnl, me, theirs, r, n, p, i);
  }
}
