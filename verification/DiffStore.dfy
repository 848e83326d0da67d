/** Storing the diffs of an answer by walking the lists backwards, and when that loses nothing. */
module DiffStore {
  import opened DiffMerge
  import opened DiffRequests

  // ---- the walk ----

  /** The notice `t` places from the end of the list carries the stamp that stands `t` places behind `o` in the
      answer. */
  predicate Alike(list: seq<Notice>, answer: seq<Notice>, o: nat, t: nat) {
    t < |list| && o + t < |answer| && list[|list| - 1 - t].ts == answer[o + t].ts
  }

  predicate Matches(list: seq<Notice>, answer: seq<Notice>, o: nat, c: nat) {
    forall t: nat | t < c :: Alike(list, answer, o, t)
  }

  function MatchFrom(list: seq<Notice>, answer: seq<Notice>, o: nat, c: nat): (m: nat)
    requires c <= |list| && o + c <= |answer| && Matches(list, answer, o, c)
    ensures m <= |list| && o + m <= |answer| && Matches(list, answer, o, m) && !Alike(list, answer, o, m)
    decreases |list| - c
  {
    if Alike(list, answer, o, c) then MatchFrom(list, answer, o, c + 1) else c
  }

  /** How far the backward walk over one list gets in the answer from `o` on. */
  function MatchLength(list: seq<Notice>, answer: seq<Notice>, o: nat): (m: nat)
    requires o <= |answer|
    ensures m <= |list| && o + m <= |answer| && Matches(list, answer, o, m) && !Alike(list, answer, o, m)
  {
    MatchFrom(list, answer, o, 0)
  }

  lemma MatchesAt(list: seq<Notice>, answer: seq<Notice>, o: nat, c: nat, t: nat)
    requires Matches(list, answer, o, c)
    ensures t < c ==> Alike(list, answer, o, t)
  {
  }

  lemma MatchIs(list: seq<Notice>, answer: seq<Notice>, o: nat, c: nat)
    requires o <= |answer|
    ensures c == MatchLength(list, answer, o) <==> Matches(list, answer, o, c) && !Alike(list, answer, o, c)
  {
    var m := MatchLength(list, answer, o);
    assert c < m ==> Alike(list, answer, o, c);
    if Matches(list, answer, o, c) {
      MatchesAt(list, answer, o, c, m);
    }
  }

  /** The list with the diffs of the matching part of the answer stored. */
  function FillList(list: seq<Notice>, answer: seq<Notice>, o: nat): (r: seq<Notice>)
    requires o <= |answer|
    ensures |r| == |list|
  {
    var c := MatchLength(list, answer, o);
    seq(|list|, i requires 0 <= i < |list| =>
      if i < |list| - c then list[i] else list[i].(diff := answer[o + |list| - 1 - i].diff))
  }

  /** How much of the answer the lists before process `k` take; the own list is skipped. */
  function Offset(wnl: Lists, me: nat, answer: seq<Notice>, k: nat): (o: nat)
    requires k <= |wnl|
    ensures o <= |answer|
  {
    if k == 0 then 0 else Advance(wnl, me, answer, k - 1, Offset(wnl, me, answer, k - 1))
  }

  /** Where the walk stands after the list of `p`, if it came to it at `o`. */
  function Advance(wnl: Lists, me: nat, answer: seq<Notice>, p: nat, o: nat): (o': nat)
    requires p < |wnl| && o <= |answer|
    ensures o <= o' <= |answer|
  {
    if p == me then o else o + MatchLength(wnl[p], answer, o)
  }

  function FilledList(wnl: Lists, me: nat, answer: seq<Notice>, p: nat): seq<Notice>
    requires p < |wnl|
  {
    if p == me then wnl[p] else FillList(wnl[p], answer, Offset(wnl, me, answer, p))
  }

  /** The lists after the walk over all of them has stored what it can. */
  function Fill(wnl: Lists, me: nat, answer: seq<Notice>): (r: Lists)
    ensures |r| == |wnl|
  {
    seq(|wnl|, p requires 0 <= p < |wnl| => FilledList(wnl, me, answer, p))
  }

  /** What is left of the answer when the walk ends: these diffs are lost. */
  function Lost(wnl: Lists, me: nat, answer: seq<Notice>): seq<Notice> {
    answer[Offset(wnl, me, answer, |wnl|)..]
  }

  /** The walk takes the whole answer. */
  predicate TakesAll(wnl: Lists, me: nat, answer: seq<Notice>) {
    Offset(wnl, me, answer, |wnl|) == |answer|
  }

  lemma LostIff(wnl: Lists, me: nat, answer: seq<Notice>)
    ensures Lost(wnl, me, answer) == [] <==> TakesAll(wnl, me, answer)
  {
    assert |Lost(wnl, me, answer)| == |answer| - Offset(wnl, me, answer, |wnl|);
  }

  predicate HasNotice(wnl: Lists, p: nat, i: nat) {
    p < |wnl| && i < |wnl[p]|
  }

  /** A place that the lists from `lo` up to `k` take is taken by one of them. */
  lemma {:induction false} TakenBy(wnl: Lists, me: nat, answer: seq<Notice>, lo: nat, k: nat, j: nat) returns (p: nat)
    requires lo <= k <= |wnl| && Offset(wnl, me, answer, lo) <= j < Offset(wnl, me, answer, k)
    ensures lo <= p < k && Offset(wnl, me, answer, p) <= j
    ensures j < Advance(wnl, me, answer, p, Offset(wnl, me, answer, p))
  {
    p := k - 1;
    if j < Offset(wnl, me, answer, k - 1) {
      p := TakenBy(wnl, me, answer, lo, k - 1, j);
    }
  }

  /** What a list takes from the answer at `o`. */
  lemma FilledAt(list: seq<Notice>, answer: seq<Notice>, o: nat, t: nat) returns (i: nat)
    requires o <= |answer| && t < MatchLength(list, answer, o)
    ensures o + t < |answer| && i < |list| && i == |list| - 1 - t && list[i].ts == answer[o + t].ts
    ensures FillList(list, answer, o)[i] == list[i].(diff := answer[o + t].diff)
  {
    assert Alike(list, answer, o, t);
    i := |list| - 1 - t;
  }

  /** Each diff before the lost part is stored with the notice of its stamp, and of another process. */
  lemma StoredUnlessLost(wnl: Lists, me: nat, answer: seq<Notice>, j: nat) returns (p: nat, i: nat)
    requires j < |answer| - |Lost(wnl, me, answer)|
    ensures p < |wnl| && p != me && i < |wnl[p]| && wnl[p][i].ts == answer[j].ts
    ensures i < |Fill(wnl, me, answer)[p]|
    ensures Fill(wnl, me, answer)[p][i] == wnl[p][i].(diff := answer[j].diff)
  {
    p := TakenBy(wnl, me, answer, 0, |wnl|, j);
    var o := Offset(wnl, me, answer, p);
    i := FilledAt(wnl[p], answer, o, j - o);
  }

  /** The notice is as it was, or it has the diff that the answer gives for its stamp. */
  predicate Refilled(w: Notice, w': Notice, answer: seq<Notice>) {
    w' == w || exists j :: 0 <= j < |answer| && answer[j].ts == w.ts && w' == w.(diff := answer[j].diff)
  }

  /** Storing changes nothing but diffs, and those only where the answer has the stamp: every other notice keeps the
      diff that it had. */
  ghost predicate OnlyRefilled(wnl: Lists, wnl': Lists, me: nat, answer: seq<Notice>) {
    && |wnl'| == |wnl| && (me < |wnl| ==> wnl'[me] == wnl[me])
    && forall p: nat, i: nat :: RefilledAt(wnl, wnl', answer, p, i)
  }

  predicate RefilledAt(wnl: Lists, wnl': Lists, answer: seq<Notice>, p: nat, i: nat) {
    p < |wnl| && p < |wnl'| ==>
      |wnl'[p]| == |wnl[p]| && (i < |wnl[p]| ==> Refilled(wnl[p][i], wnl'[p][i], answer))
  }

  lemma FillListRefills(list: seq<Notice>, answer: seq<Notice>, o: nat, i: nat)
    requires o <= |answer| && i < |list|
    ensures Refilled(list[i], FillList(list, answer, o)[i], answer)
  {
    var c, t := MatchLength(list, answer, o), |list| - 1 - i;
    if t < c {
      assert Alike(list, answer, o, t);
      assert answer[o + t].ts == list[i].ts;
    }
  }

  lemma FillRefillsOnly(wnl: Lists, me: nat, answer: seq<Notice>)
    ensures OnlyRefilled(wnl, Fill(wnl, me, answer), me, answer)
  {
    var wnl' := Fill(wnl, me, answer);
    forall p: nat, i: nat ensures RefilledAt(wnl, wnl', answer, p, i) {
      if p < |wnl| && p != me && i < |wnl[p]| {
        FillListRefills(wnl[p], answer, Offset(wnl, me, answer, p), i);
      }
    }
  }

  /** A notice whose stamp is not in the answer keeps its diff. */
  lemma UnnamedIsKept(wnl: Lists, me: nat, answer: seq<Notice>, p: nat, i: nat)
    requires p < |wnl| && i < |wnl[p]| && forall j | 0 <= j < |answer| :: answer[j].ts != wnl[p][i].ts
    ensures i < |Fill(wnl, me, answer)[p]| && Fill(wnl, me, answer)[p][i] == wnl[p][i]
  {
    FillRefillsOnly(wnl, me, answer);
    assert RefilledAt(wnl, Fill(wnl, me, answer), answer, p, i);
  }

  // ---- any answer ----

  /** From `o` on the answer is, process by process, the newest part of the list, newest first. */
  ghost predicate Aligned(wnl: Lists, me: nat, k: nat, answer: seq<Notice>, o: nat)
    requires k <= |wnl|
    decreases |wnl| - k
  {
    if k == |wnl| then o == |answer|
    else if k == me then Aligned(wnl, me, k + 1, answer, o)
    else exists c: nat :: Matches(wnl[k], answer, o, c) && Aligned(wnl, me, k + 1, answer, o + c)
  }

  /** No two processes have notices with the same stamp. Only the own list, which the walk skips, may repeat one: a host
      that flushes its writes stamps the notice with its current timestamp. */
  ghost predicate DistinctStamps(wnl: Lists, me: nat) {
    forall p: nat, q: nat, i: nat, j: nat
      | p < q && p != me && q != me && HasNotice(wnl, p, i) && HasNotice(wnl, q, j) ::
      wnl[p][i].ts != wnl[q][j].ts
  }

  lemma {:induction false} AlignedStampIsLater(wnl: Lists, me: nat, k: nat, answer: seq<Notice>, o: nat)
      returns (p: nat, i: nat)
    requires k <= |wnl| && Aligned(wnl, me, k, answer, o) && o < |answer|
    ensures k <= p && p != me && HasNotice(wnl, p, i) && wnl[p][i].ts == answer[o].ts
    decreases |wnl| - k
  {
    if k == me {
      p, i := AlignedStampIsLater(wnl, me, k + 1, answer, o);
    } else {
      var c: nat :| Matches(wnl[k], answer, o, c) && Aligned(wnl, me, k + 1, answer, o + c);
      if c == 0 {
        p, i := AlignedStampIsLater(wnl, me, k + 1, answer, o);
      } else {
        assert Alike(wnl[k], answer, o, 0);
        p, i := k, |wnl[k]| - 1;
      }
    }
  }

  lemma GreedyIsForced(wnl: Lists, me: nat, k: nat, answer: seq<Notice>, o: nat, c: nat)
    requires k < |wnl| && k != me && DistinctStamps(wnl, me) && o <= |answer|
    requires Matches(wnl[k], answer, o, c) && Aligned(wnl, me, k + 1, answer, o + c)
    ensures c == MatchLength(wnl[k], answer, o)
  {
    MatchIs(wnl[k], answer, o, c);
    if Alike(wnl[k], answer, o, c) {
      assert HasNotice(wnl, k, |wnl[k]| - 1 - c);
      var p, i := AlignedStampIsLater(wnl, me, k + 1, answer, o + c);
    }
  }

  lemma {:induction false} RestAligned(wnl: Lists, me: nat, k: nat, answer: seq<Notice>)
    requires k <= |wnl| && DistinctStamps(wnl, me)
    ensures Lost(wnl, me, answer) == [] <==> Aligned(wnl, me, k, answer, Offset(wnl, me, answer, k))
    decreases |wnl| - k
  {
    if k < |wnl| {
      RestAligned(wnl, me, k + 1, answer);
      var o := Offset(wnl, me, answer, k);
      if k != me && Aligned(wnl, me, k, answer, o) {
        var c: nat :| Matches(wnl[k], answer, o, c) && Aligned(wnl, me, k + 1, answer, o + c);
        GreedyIsForced(wnl, me, k, answer, o, c);
      }
    }
  }

  /** Every diff of the answer is stored exactly when the answer is aligned with the lists. */
  lemma NothingLostIffAligned(wnl: Lists, me: nat, answer: seq<Notice>)
    requires DistinctStamps(wnl, me)
    ensures Lost(wnl, me, answer) == [] <==> Aligned(wnl, me, 0, answer, 0)
  {
    RestAligned(wnl, me, 0, answer);
  }

  // ---- answers made of one part for each process ----

  /** Each list takes exactly the part of its process. */
  ghost predicate StoredAtOwner(wnl: Lists, me: nat, parts: Lists)
    requires |parts| == |wnl|
  {
    forall p: nat | p <= |wnl| :: TakenUpTo(wnl, me, parts, p)
  }

  predicate TakenUpTo(wnl: Lists, me: nat, parts: Lists, p: nat)
    requires p <= |parts| == |wnl|
  {
    Offset(wnl, me, Flat(parts, |parts|), p) == |Flat(parts, p)|
  }

  /** The part of process `p` is, stamp by stamp, the newest part of the receiver's list, and the next older notice
      there is not stamped like what follows in the answer. */
  predicate FitsAt(wnl: Lists, me: nat, parts: Lists, p: nat)
    requires p < |wnl| == |parts|
  {
    if p == me then parts[p] == [] else IsNewestPart(wnl, parts, p) && !NextAlike(wnl, parts, p)
  }

  predicate IsNewestPart(wnl: Lists, parts: Lists, p: nat)
    requires p < |wnl| == |parts|
  {
    Matches(wnl[p], parts[p], 0, |parts[p]|)
  }

  predicate NextAlike(wnl: Lists, parts: Lists, p: nat)
    requires p < |wnl| == |parts|
  {
    Alike(wnl[p], Flat(parts, |parts|), |Flat(parts, p)|, |parts[p]|)
  }

  lemma {:induction false} FlatGrows(parts: Lists, p: nat, k: nat)
    requires p <= k <= |parts|
    ensures |Flat(parts, p)| <= |Flat(parts, k)|
    ensures forall t | 0 <= t < |Flat(parts, p)| :: Flat(parts, k)[t] == Flat(parts, p)[t]
  {
    if p < k {
      FlatGrows(parts, p, k - 1);
    }
  }

  /** Place `j` of the answer, `t` places behind `o`, holds notice `t` of the part. */
  predicate StandsAt(answer: seq<Notice>, o: nat, part: seq<Notice>, t: nat, j: nat) {
    t < |part| && j == o + t ==> j < |answer| && answer[j] == part[t]
  }

  /** The answer holds the part from `o` on. */
  ghost predicate Stands(answer: seq<Notice>, o: nat, part: seq<Notice>) {
    o + |part| <= |answer| && forall t: nat, j: nat :: StandsAt(answer, o, part, t, j)
  }

  lemma PlaceInNextPart(parts: Lists, p: nat, t: nat, j: nat)
    requires p < |parts| && t < |parts[p]| && j == |Flat(parts, p)| + t
    ensures j < |Flat(parts, p + 1)| && Flat(parts, p + 1)[j] == parts[p][t]
  {
  }

  /** Where the part of `p` stands in the answer. */
  lemma PartStands(parts: Lists, p: nat, answer: seq<Notice>, o: nat)
    requires p < |parts| && answer == Flat(parts, |parts|) && o == |Flat(parts, p)|
    ensures |Flat(parts, p + 1)| == o + |parts[p]| && Stands(answer, o, parts[p])
  {
    FlatGrows(parts, p + 1, |parts|);
    forall t: nat, j: nat ensures StandsAt(answer, o, parts[p], t, j) {
      if t < |parts[p]| && j == o + t {
        PlaceInNextPart(parts, p, t, j);
      }
    }
  }

  lemma PartHolds(parts: Lists, p: nat, t: nat, answer: seq<Notice>, j: nat)
    requires p < |parts| && t < |parts[p]| && answer == Flat(parts, |parts|) && j == |Flat(parts, p)| + t
    ensures j < |answer| && answer[j].ts == parts[p][t].ts
  {
    PartStands(parts, p, answer, |Flat(parts, p)|);
    assert StandsAt(answer, |Flat(parts, p)|, parts[p], t, j);
  }

  lemma MatchesInPart(list: seq<Notice>, answer: seq<Notice>, o: nat, part: seq<Notice>)
    requires Stands(answer, o, part)
    ensures Matches(list, answer, o, |part|) <==> Matches(list, part, 0, |part|)
  {
    forall t: nat | t < |part| ensures Alike(list, answer, o, t) <==> Alike(list, part, 0, t) {
      assert StandsAt(answer, o, part, t, o + t);
    }
  }

  /** The part of `p` in the answer matches a list exactly when the part by itself does. */
  lemma PartMatches(parts: Lists, p: nat, list: seq<Notice>)
    requires p < |parts|
    ensures |Flat(parts, p)| + |parts[p]| <= |Flat(parts, |parts|)|
    ensures Matches(list, Flat(parts, |parts|), |Flat(parts, p)|, |parts[p]|)
       <==> Matches(list, parts[p], 0, |parts[p]|)
  {
    var answer, o := Flat(parts, |parts|), |Flat(parts, p)|;
    PartStands(parts, p, answer, o);
    MatchesInPart(list, answer, o, parts[p]);
  }

  lemma MatchesUpTo(list: seq<Notice>, answer: seq<Notice>, o: nat, c: nat)
    requires o <= |answer| && c <= MatchLength(list, answer, o)
    ensures Matches(list, answer, o, c)
  {
  }

  lemma FitsIffLength(wnl: Lists, me: nat, parts: Lists, p: nat)
    requires p < |wnl| == |parts| && p != me
    ensures |Flat(parts, p)| <= |Flat(parts, |parts|)|
    ensures FitsAt(wnl, me, parts, p) <==> MatchLength(wnl[p], Flat(parts, |parts|), |Flat(parts, p)|) == |parts[p]|
  {
    PartMatches(parts, p, wnl[p]);
    MatchIs(wnl[p], Flat(parts, |parts|), |Flat(parts, p)|, |parts[p]|);
  }

  lemma FitsIffTaken(wnl: Lists, me: nat, parts: Lists, p: nat)
    requires p < |wnl| == |parts| && TakenUpTo(wnl, me, parts, p)
    ensures FitsAt(wnl, me, parts, p) <==> TakenUpTo(wnl, me, parts, p + 1)
  {
    var answer, begin := Flat(parts, |parts|), |Flat(parts, p)|;
    assert Offset(wnl, me, answer, p + 1) == Advance(wnl, me, answer, p, begin);
    assert |Flat(parts, p + 1)| == begin + |parts[p]|;
    if p != me {
      FitsIffLength(wnl, me, parts, p);
    }
  }

  lemma {:induction false} FitsBelow(wnl: Lists, me: nat, parts: Lists, k: nat)
    requires k <= |wnl| == |parts| && forall p: nat | p < k :: FitsAt(wnl, me, parts, p)
    ensures TakenUpTo(wnl, me, parts, k)
  {
    if k > 0 {
      FitsBelow(wnl, me, parts, k - 1);
      assert FitsAt(wnl, me, parts, k - 1);
      FitsIffTaken(wnl, me, parts, k - 1);
    }
  }

  /** An answer is stored in full, each diff with the process that it is of, exactly when it fits every list. */
  lemma StoredAtOwnerIff(wnl: Lists, me: nat, parts: Lists)
    requires |parts| == |wnl|
    ensures StoredAtOwner(wnl, me, parts) <==> forall p: nat | p < |wnl| :: FitsAt(wnl, me, parts, p)
    ensures StoredAtOwner(wnl, me, parts) ==> Lost(wnl, me, Flat(parts, |parts|)) == []
  {
    if forall p: nat | p < |wnl| :: FitsAt(wnl, me, parts, p) {
      forall p: nat | p <= |wnl| ensures TakenUpTo(wnl, me, parts, p) {
        FitsBelow(wnl, me, parts, p);
      }
    }
    if StoredAtOwner(wnl, me, parts) {
      assert TakenUpTo(wnl, me, parts, |wnl|);
      forall p: nat | p < |wnl| ensures FitsAt(wnl, me, parts, p) {
        assert TakenUpTo(wnl, me, parts, p) && TakenUpTo(wnl, me, parts, p + 1);
        FitsIffTaken(wnl, me, parts, p);
      }
    }
  }

  /** Then every diff of the part of `p` is stored with the notice of `p` that has its stamp. */
  lemma StoredWithItsNotice(wnl: Lists, me: nat, parts: Lists, p: nat, t: nat) returns (i: nat)
    requires |parts| == |wnl| && StoredAtOwner(wnl, me, parts) && p < |wnl| && p != me && t < |parts[p]|
    ensures i < |wnl[p]| && i == |wnl[p]| - 1 - t && wnl[p][i].ts == parts[p][t].ts
    ensures i < |Fill(wnl, me, Flat(parts, |parts|))[p]|
    ensures Fill(wnl, me, Flat(parts, |parts|))[p][i] == wnl[p][i].(diff := parts[p][t].diff)
  {
    assert TakenUpTo(wnl, me, parts, p) && TakenUpTo(wnl, me, parts, p + 1);
    var answer, o := Flat(parts, |parts|), |Flat(parts, p)|;
    PartStands(parts, p, answer, o);
    assert StandsAt(answer, o, parts[p], t, o + t);
    FitsIffTaken(wnl, me, parts, p);
    FitsIffLength(wnl, me, parts, p);
    i := FilledAt(wnl[p], answer, o, t);
  }

  // ---- when nothing is lost at all ----

  /** Notice `i` of the receiver's list of `p` is stamped like notice `j` in the part of another process. */
  predicate Foreign(wnl: Lists, me: nat, parts: Lists, p: nat, i: nat, q: nat, j: nat) {
    && p != q && p != me && q != me && HasNotice(wnl, p, i) && HasNotice(parts, q, j)
    && wnl[p][i].ts == parts[q][j].ts
  }

  ghost predicate NoForeignStamp(wnl: Lists, me: nat, parts: Lists) {
    forall p: nat, i: nat, q: nat, j: nat :: !Foreign(wnl, me, parts, p, i, q, j)
  }

  /** Place `j` of the answer belongs to the part of some process. */
  lemma {:induction false} PlaceInPart(parts: Lists, k: nat, j: nat) returns (q: nat, i: nat)
    requires k <= |parts| && j < |Flat(parts, k)|
    ensures q < k && HasNotice(parts, q, i) && Flat(parts, k)[j] == parts[q][i]
    ensures |Flat(parts, q)| <= j < |Flat(parts, q + 1)|
  {
    var before := Flat(parts, k - 1);
    if j < |before| {
      q, i := PlaceInPart(parts, k - 1, j);
    } else {
      q, i := k - 1, j - |before|;
    }
  }

  /** What follows the part of `p` is of a later process. */
  lemma LaterIsForeign(wnl: Lists, me: nat, parts: Lists, p: nat)
    requires p < |wnl| == |parts| && p != me && NoForeignStamp(wnl, me, parts) && (me < |parts| ==> parts[me] == [])
    ensures !NextAlike(wnl, parts, p)
  {
    var taken, next := |parts[p]|, |Flat(parts, p + 1)|;
    if taken < |wnl[p]| && next < |Flat(parts, |parts|)| {
      var q, j := PlaceInPart(parts, |parts|, next);
      if q < p {
        FlatGrows(parts, q + 1, p + 1);
      }
      assert !Foreign(wnl, me, parts, p, |wnl[p]| - 1 - taken, q, j);
    }
  }

  /** If nothing is lost, what the list of `p` leaves of its part is taken by a later list. */
  lemma LeftToLater(wnl: Lists, me: nat, answer: seq<Notice>, p: nat, j: nat) returns (q: nat, i: nat)
    requires p < |wnl| && TakesAll(wnl, me, answer) && j < |answer| && Offset(wnl, me, answer, p + 1) == j
    ensures p < q && q != me && HasNotice(wnl, q, i) && wnl[q][i].ts == answer[j].ts
  {
    q := TakenBy(wnl, me, answer, p + 1, |wnl|, j);
    var o := Offset(wnl, me, answer, q);
    i := FilledAt(wnl[q], answer, o, j - o);
  }

  lemma OffsetStep(wnl: Lists, me: nat, answer: seq<Notice>, p: nat, o: nat)
    requires p < |wnl| && p != me && Offset(wnl, me, answer, p) == o
    ensures o <= |answer| && Offset(wnl, me, answer, p + 1) == o + MatchLength(wnl[p], answer, o)
  {
  }

  /** A list that stops inside its part leaves a notice whose stamp a later list must have. */
  lemma ShortIsForeign(wnl: Lists, me: nat, answer: seq<Notice>, parts: Lists, p: nat, m: nat, j: nat)
    requires p < |wnl| && p != me && TakesAll(wnl, me, answer)
    requires var o := Offset(wnl, me, answer, p); m == MatchLength(wnl[p], answer, o) && j == o + m
    requires HasNotice(parts, p, m) && j < |answer| && answer[j].ts == parts[p][m].ts
    ensures !NoForeignStamp(wnl, me, parts)
  {
    OffsetStep(wnl, me, answer, p, Offset(wnl, me, answer, p));
    var q, i := LeftToLater(wnl, me, answer, p, j);
    assert Foreign(wnl, me, parts, q, i, p, m);
  }

  /** If nothing is lost, each list takes at least its part. */
  lemma NothingLostReaches(wnl: Lists, me: nat, parts: Lists, p: nat)
    requires p < |wnl| == |parts| && NoForeignStamp(wnl, me, parts) && p != me
    requires TakesAll(wnl, me, Flat(parts, |parts|)) && TakenUpTo(wnl, me, parts, p)
    ensures |parts[p]| <= MatchLength(wnl[p], Flat(parts, |parts|), |Flat(parts, p)|)
  {
    var answer, begin := Flat(parts, |parts|), |Flat(parts, p)|;
    var m := MatchLength(wnl[p], answer, begin);
    if m < |parts[p]| {
      var j := begin + m;
      PartHolds(parts, p, m, answer, j);
      ShortIsForeign(wnl, me, answer, parts, p, m, j);
    }
  }

  lemma NothingLostTakes(wnl: Lists, me: nat, parts: Lists, p: nat)
    requires p < |wnl| == |parts| && NoForeignStamp(wnl, me, parts) && (me < |parts| ==> parts[me] == [])
    requires TakesAll(wnl, me, Flat(parts, |parts|)) && TakenUpTo(wnl, me, parts, p)
    ensures FitsAt(wnl, me, parts, p)
  {
    if p != me {
      LaterIsForeign(wnl, me, parts, p);
      NothingLostReaches(wnl, me, parts, p);
      PartMatches(parts, p, wnl[p]);
      MatchesUpTo(wnl[p], Flat(parts, |parts|), |Flat(parts, p)|, |parts[p]|);
    }
  }

  lemma {:induction false} NothingLostTakesAll(wnl: Lists, me: nat, parts: Lists, k: nat)
    requires k <= |wnl| == |parts| && NoForeignStamp(wnl, me, parts) && (me < |parts| ==> parts[me] == [])
    requires TakesAll(wnl, me, Flat(parts, |parts|))
    ensures TakenUpTo(wnl, me, parts, k)
  {
    if k > 0 {
      NothingLostTakesAll(wnl, me, parts, k - 1);
      NothingLostTakes(wnl, me, parts, k - 1);
      FitsIffTaken(wnl, me, parts, k - 1);
    }
  }

  /** With no foreign stamps, nothing is lost exactly when each part is the newest part of the receiver's list. */
  lemma NothingLostIff(wnl: Lists, me: nat, parts: Lists)
    requires |wnl| == |parts| && NoForeignStamp(wnl, me, parts) && (me < |parts| ==> parts[me] == [])
    ensures Lost(wnl, me, Flat(parts, |parts|)) == []
       <==> forall p: nat | p < |wnl| && p != me :: IsNewestPart(wnl, parts, p)
  {
    StoredAtOwnerIff(wnl, me, parts);
    LostIff(wnl, me, Flat(parts, |parts|));
    if forall p: nat | p < |wnl| && p != me :: IsNewestPart(wnl, parts, p) {
      forall p: nat | p < |wnl| ensures FitsAt(wnl, me, parts, p) {
        if p != me {
          LaterIsForeign(wnl, me, parts, p);
        }
      }
    }
    if TakesAll(wnl, me, Flat(parts, |parts|)) {
      forall p: nat | p < |wnl| && p != me ensures IsNewestPart(wnl, parts, p) {
        NothingLostTakesAll(wnl, me, parts, p);
        NothingLostTakes(wnl, me, parts, p);
      }
    }
  }

  // ---- the answers that hosts give ----

  /** The walk puts each diff of a host's answer with the process that it is of, exactly when the answer fits the lists:
      a condition on the receiver's lists, the answerer's lists and the request. */
  lemma AnswerStoredIff(wnl: Lists, me: nat, theirs: Lists, r: Request, n: nat)
    requires |theirs| == |wnl| && SizedRequest(r, n) && forall q | 0 <= q < |theirs| :: Sized(theirs[q], n)
    ensures var parts, answer := Parts(theirs, me, r, n), Answer(theirs, me, r, n, |theirs|);
            && (StoredAtOwner(wnl, me, parts) <==> forall p: nat | p < |wnl| :: FitsAt(wnl, me, parts, p))
            && (StoredAtOwner(wnl, me, parts) ==> Lost(wnl, me, answer) == [])
            && (NoForeignStamp(wnl, me, parts) ==>
                  (Lost(wnl, me, answer) == []
                   <==> forall p: nat | p < |wnl| && p != me :: IsNewestPart(wnl, parts, p)))
  {
    var parts := Parts(theirs, me, r, n);
    StoredAtOwnerIff(wnl, me, parts);
    if NoForeignStamp(wnl, me, parts) {
      NothingLostIff(wnl, me, parts);
    }
  }

  /** If the answer fits the lists, each notice within the request gets the diff that the answerer has for it. */
  lemma AnsweredIsStored(wnl: Lists, me: nat, theirs: Lists, r: Request, n: nat, p: nat, w: Notice) returns (j: nat)
    requires Ascending(theirs, n) && |theirs| == |wnl| && SizedRequest(r, n)
    requires p < |wnl| && p != me && w in theirs[p] && Within(w, r)
    requires forall q: nat | q < |wnl| :: FitsAt(wnl, me, Parts(theirs, me, r, n), q)
    ensures j < |wnl[p]| && wnl[p][j].ts == w.ts && j < |Fill(wnl, me, Answer(theirs, me, r, n, |theirs|))[p]|
    ensures Fill(wnl, me, Answer(theirs, me, r, n, |theirs|))[p][j] == wnl[p][j].(diff := w.diff)
  {
    var parts := Parts(theirs, me, r, n);
    StoredAtOwnerIff(wnl, me, parts);
    assert Sized(theirs[p], n) && Ascends(theirs[p], n);
    ScanIsExact(theirs[p], r, n);
    WantedHolds(theirs[p], r, n, w);
    var t :| 0 <= t < |parts[p]| && parts[p][t] == w;
    j := StoredWithItsNotice(wnl, me, parts, p, t);
  }

  /** Request, answer and store together: for a missing notice there is a request, to a process whose newest notice
      bounds it; whoever knows the notice and answers it, the notice gets the diff that is known there, if the answer
      fits. */
  lemma MissingIsStored(wnl: Lists, me: nat, n: nat, p: nat, i: nat, theirs: Lists, w: Notice) returns (q: nat, j: nat)
    requires Ascending(wnl, n) && p < |wnl| && p != me && RunStart(wnl[p]) <= i < |wnl[p]|
    requires Ascending(theirs, n) && |theirs| == |wnl| && w in theirs[p] && w.ts == wnl[p][i].ts
    ensures q < |Requests(wnl, n, |wnl|)| && ToOwner(wnl, Requests(wnl, n, |wnl|)[q])
    ensures var r := Requests(wnl, n, |wnl|)[q]; var answer := Answer(theirs, me, r, n, |theirs|);
            && w in answer
            && ((forall k: nat | k < |wnl| :: FitsAt(wnl, me, Parts(theirs, me, r, n), k)) ==>
                  && j < |wnl[p]| && wnl[p][j].ts == wnl[p][i].ts && j < |Fill(wnl, me, answer)[p]|
                  && Fill(wnl, me, answer)[p][j].diff == w.diff)
  {
    q := MissingIsAnswered(wnl, me, n, p, i, theirs, w);
    var r := Requests(wnl, n, |wnl|)[q];
    AnswerIsExact(theirs, me, r, n, |theirs|, w);
    j := 0;
    if forall k: nat | k < |wnl| :: FitsAt(wnl, me, Parts(theirs, me, r, n), k) {
      j := AnsweredIsStored(wnl, me, theirs, r, n, p, w);
    }
  }
}
