/** In the runs of the lock protocol the owner of the one request knows the same notices as the receiver up to Last,
    so its answer brings every missing diff. */
module DiffOwner {
  import opened Timestamps
  import opened LockHost
  import opened LockProtocol
  import opened LockTheorems
  import opened IntervalLog
  import opened LogTheorems
  import opened DiffMerge
  import opened DiffRequests
  import opened DiffStore
  import opened DiffLogs
  import opened DiffService

  /** The stamps of the intervals that wrote to the page. */
  function PageStamps(log: seq<Interval>, page: nat): seq<Timestamp> {
    if log == [] then []
    else
      var newest := log[|log| - 1];
      PageStamps(log[..|log| - 1], page) + if page in newest.pages then [newest.ts] else []
  }

  predicate HasStamps(list: seq<Notice>, stamps: seq<Timestamp>) {
    |list| == |stamps| && forall i | 0 <= i < |list| :: list[i].ts == stamps[i]
  }

  /** Host `h` has a notice, in order, for each interval that it knows and that wrote to the page; `skip` is left out.
      */
  ghost predicate FromHost(s: State, h: nat, page: nat, wnl: Lists, skip: nat) {
    && h < |s.hosts| == |s.hosts[h].procarray| == |wnl|
    && forall p: nat | p < |wnl| && p != skip :: HasStamps(wnl[p], PageStamps(s.hosts[h].procarray[p], page))
  }

  /** The stamps of a longer part of a log begin with those of a shorter part; the others are of intervals behind it. */
  lemma {:induction false} StampsGrow(log: seq<Interval>, page: nat, a: nat, b: nat, i: nat) returns (j: nat)
    requires a <= b <= |log|
    ensures PageStamps(log[..a], page) <= PageStamps(log[..b], page)
    ensures |PageStamps(log[..a], page)| <= i < |PageStamps(log[..b], page)| ==>
              a <= j < b && page in log[j].pages && PageStamps(log[..b], page)[i] == log[j].ts
  {
    j := a;
    if a < b {
      assert log[..b][..b - 1] == log[..b - 1];
      j := StampsGrow(log, page, a, b - 1, i);
      if i >= |PageStamps(log[..b - 1], page)| {
        j := b - 1;
      }
    }
  }

  /** The stamp of a notice is that of an interval that the host knows. */
  lemma NoticeIsLogged(log: seq<Interval>, known: seq<Interval>, page: nat, list: seq<Notice>, i: nat) returns (j: nat)
    requires known <= log && HasStamps(list, PageStamps(known, page)) && i < |list|
    ensures j < |known| && page in log[j].pages && list[i].ts == log[j].ts
  {
    assert log[..|known|] == known && log[..0] == [];
    j := StampsGrow(log, page, 0, |known|, i);
  }

  // ---- the owner of Last ----

  /** The state that a run within the range of the counters has reached. */
  ghost predicate Reached(n: nat, states: seq<State>, steps: seq<Step>) {
    Run(n, states, steps) && StateShaped(states[|steps|]) && InRange(states[|steps|])
  }

  /** What the receiver does not know is not covered by an interval that it knows. */
  lemma UnknownIsBeyond(n: nat, states: seq<State>, steps: seq<Step>, me: nat, o: nat, k: nat, p: nat, j: nat)
    requires Reached(n, states, steps) && me < n && o < n && p < n
    requires At(OwnLogs(states[|steps|]), o, k) && At(OwnLogs(states[|steps|]), p, j)
    requires me < |states[|steps|].hosts| && o < |states[|steps|].hosts[me].procarray|
    requires k < |states[|steps|].hosts[me].procarray[o]| && p < |states[|steps|].hosts[me].procarray|
    requires |states[|steps|].hosts[me].procarray[p]| <= j
    ensures var logs: Logs := OwnLogs(states[|steps|]);
            |logs[o][k].ts| == |logs[p][j].ts| == n && !Covers(logs[o][k].ts, logs[p][j].ts)
  {
    var s := states[|steps|];
    var logs: Logs := OwnLogs(s);
    RunLogs(n, states, steps);
    HostsKnowPrefixes(n, states, steps, me, o);
    HostsKnowPrefixes(n, states, steps, me, p);
    assert IntervalLog.Stamped(logs, o, k) && IntervalLog.Stamped(logs, p, j);
    if Covers(logs[o][k].ts, logs[p][j].ts) {
      CoversTransitive(s.hosts[me].timestamp, logs[o][k].ts, logs[p][j].ts);
    }
  }

  ghost predicate NotCovered(log: seq<Interval>, last: Timestamp, j: nat) {
    j < |log| && |log[j].ts| == |last| ==> !Covers(last, log[j].ts)
  }

  /** The other knows at least as much: what it has more is behind what I know. */
  lemma MoreIsBeyond(log: seq<Interval>, a: nat, b: nat, page: nat, list: seq<Notice>, other: seq<Notice>,
                     last: Timestamp)
    requires a <= b <= |log|
    requires HasStamps(list, PageStamps(log[..a], page)) && HasStamps(other, PageStamps(log[..b], page))
    requires forall j: nat | a <= j :: NotCovered(log, last, j)
    ensures Agrees(list, other, last)
  {
    var unused := StampsGrow(log, page, a, b, 0);
    forall i: nat ensures SameStamp(list, other, i) {
      if i < |list| {
        assert PageStamps(log[..a], page)[i] == PageStamps(log[..b], page)[i];
      }
    }
    forall i: nat | |list| <= i ensures Beyond(other, last, i) {
      if i < |other| {
        var j := StampsGrow(log, page, a, b, i);
        assert NotCovered(log, last, j);
      }
    }
  }

  lemma MoreIsCovered(log: seq<Interval>, a: nat, b: nat, page: nat, list: seq<Notice>, other: seq<Notice>,
                      last: Timestamp, n: nat) returns (j: nat)
    requires b <= a <= |log|
    requires HasStamps(list, PageStamps(log[..a], page)) && HasStamps(other, PageStamps(log[..b], page))
    requires |last| == n && Sized(list, n) && Ascends(list, n) && CoveredBy(list, last, n) && |other| < |list|
    ensures b <= j && !NotCovered(log, last, j)
  {
    var i := |other|;
    j := StampsGrow(log, page, b, a, i);
    CoversTransitive(last, list[|list| - 1].ts, list[i].ts);
  }

  /** The other knows less: but then no notice of mine is of an interval that it does not know. */
  lemma LessIsSame(log: seq<Interval>, a: nat, b: nat, page: nat, list: seq<Notice>, other: seq<Notice>,
                   last: Timestamp, n: nat)
    requires b <= a <= |log|
    requires HasStamps(list, PageStamps(log[..a], page)) && HasStamps(other, PageStamps(log[..b], page))
    requires |last| == n && Sized(list, n) && Ascends(list, n) && CoveredBy(list, last, n)
    requires forall j: nat | b <= j :: NotCovered(log, last, j)
    ensures |list| == |other| && PageStamps(log[..a], page) == PageStamps(log[..b], page)
  {
    var unused := StampsGrow(log, page, b, a, 0);
    if |other| < |list| {
      var j := MoreIsCovered(log, a, b, page, list, other, last, n);
    }
  }

  /** Two parts of one log: the stamps of the notices agree up to `last` if what only the one knows is not covered,
      and all that is covered is known to the other. */
  lemma PartsAgree(log: seq<Interval>, mine: seq<Interval>, theirs: seq<Interval>, page: nat, list: seq<Notice>,
                   other: seq<Notice>, last: Timestamp, n: nat)
    requires mine <= log && theirs <= log && |last| == n && (forall j | 0 <= j < |log| :: |log[j].ts| == n)
    requires HasStamps(list, PageStamps(mine, page)) && HasStamps(other, PageStamps(theirs, page))
    requires forall j: nat | |mine| <= j :: NotCovered(log, last, j)
    requires forall j: nat | |theirs| <= j :: NotCovered(log, last, j)
    requires Sized(list, n) && Ascends(list, n) && CoveredBy(list, last, n)
    ensures Agrees(list, other, last)
  {
    var a, b := |mine|, |theirs|;
    assert log[..a] == mine && log[..b] == theirs;
    if a <= b {
      MoreIsBeyond(log, a, b, page, list, other, last);
    } else {
      LessIsSame(log, a, b, page, list, other, last, n);
      forall i: nat ensures SameStamp(list, other, i) { }
      forall i: nat | |list| <= i ensures Beyond(other, last, i) { }
    }
  }

  lemma OwnerAgrees(n: nat, states: seq<State>, steps: seq<Step>, me: nat, o: nat, k: nat, p: nat, page: nat,
                    list: seq<Notice>, other: seq<Notice>)
    requires Reached(n, states, steps) && me < n && p < n && At(OwnLogs(states[|steps|]), o, k)
    requires me < |states[|steps|].hosts| && o < |states[|steps|].hosts|
    requires |states[|steps|].hosts[me].procarray| == |states[|steps|].hosts[o].procarray| == n
    requires o < n && k < |states[|steps|].hosts[me].procarray[o]|
    requires HasStamps(list, PageStamps(states[|steps|].hosts[me].procarray[p], page))
    requires HasStamps(other, PageStamps(states[|steps|].hosts[o].procarray[p], page))
    requires |OwnLogs(states[|steps|])[o][k].ts| == n
    requires Sized(list, n) && Ascends(list, n) && CoveredBy(list, OwnLogs(states[|steps|])[o][k].ts, n)
    ensures Agrees(list, other, OwnLogs(states[|steps|])[o][k].ts)
  {
    var s := states[|steps|];
    var logs: Logs := OwnLogs(s);
    RunLogs(n, states, steps);
    HostsKnowPrefixes(n, states, steps, me, p);
    HostsKnowPrefixes(n, states, steps, o, p);
    var log, mine, theirs, last := logs[p], s.hosts[me].procarray[p], s.hosts[o].procarray[p], logs[o][k].ts;
    forall j | 0 <= j < |log| ensures |log[j].ts| == n { assert IntervalLog.Stamped(logs, p, j); }
    forall j: nat | |mine| <= j ensures NotCovered(log, last, j) {
      if j < |log| {
        UnknownIsBeyond(n, states, steps, me, o, k, p, j);
      }
    }
    forall j: nat | |theirs| <= j ensures NotCovered(log, last, j) {
      if j < |log| && Covers(last, log[j].ts) {
        OwnerKnows(n, states, steps, o, k, p, j);
      }
    }
    PartsAgree(log, mine, theirs, page, list, other, last, n);
  }

  // ---- request, answer and store ----

  /** The request goes to another host, whose notices are those of the intervals that it knows; and the receiver knows
      nothing of other processes that Last has not seen. */
  ghost predicate AskedOfOwner(s: State, me: nat, page: nat, wnl: Lists, theirs: Lists, r: Request, n: nat)
    requires SizedRequest(r, n) && forall p | 0 <= p < |wnl| :: Sized(wnl[p], n)
  {
    && r.to != me && FromHost(s, r.to, page, theirs, me)
    && forall p: nat | p < |wnl| && p != me :: CoveredBy(wnl[p], r.last, n)
  }

  /** The Last of a request is the stamp of an interval of its owner that the receiver knows. */
  lemma LastIsLogged(n: nat, states: seq<State>, steps: seq<Step>, me: nat, page: nat, wnl: Lists, r: Request)
      returns (k: nat)
    requires Reached(n, states, steps) && FromHost(states[|steps|], me, page, wnl, me)
    requires ToOwner(wnl, r) && r.to != me
    ensures At(OwnLogs(states[|steps|]), r.to, k) && OwnLogs(states[|steps|])[r.to][k].ts == r.last
    ensures r.to < n && me < |states[|steps|].hosts| == |states[|steps|].hosts[me].procarray| == n
    ensures k < |states[|steps|].hosts[me].procarray[r.to]|
  {
    var s := states[|steps|];
    var g := RunInv(n, states, steps);
    HostsKnowPrefixes(n, states, steps, me, r.to);
    var known, list := s.hosts[me].procarray[r.to], wnl[r.to];
    k := NoticeIsLogged(OwnLogs(s)[r.to], known, page, list, |list| - 1);
  }

  lemma OwnerAllAgree(n: nat, states: seq<State>, steps: seq<Step>, me: nat, page: nat, wnl: Lists, theirs: Lists,
                      r: Request)
    requires Reached(n, states, steps) && FromHost(states[|steps|], me, page, wnl, me)
    requires Ascending(wnl, n) && |theirs| == |wnl| && SizedRequest(r, n) && ToOwner(wnl, r)
    requires AskedOfOwner(states[|steps|], me, page, wnl, theirs, r, n)
    ensures AllAgree(wnl, me, theirs, r, n)
  {
    var k := LastIsLogged(n, states, steps, me, page, wnl, r);
    forall p: nat | p < |wnl| && p != me
      ensures CoveredBy(wnl[p], r.last, n) && Agrees(wnl[p], theirs[p], r.last)
    {
      assert Sized(wnl[p], n) && Ascends(wnl[p], n);
      OwnerAgrees(n, states, steps, me, r.to, k, p, page, wnl[p], theirs[p]);
    }
  }

  lemma HostNoticeIsLogged(n: nat, states: seq<State>, steps: seq<Step>, h: nat, page: nat, wnl: Lists, skip: nat,
                           p: nat, i: nat)
    requires Reached(n, states, steps) && FromHost(states[|steps|], h, page, wnl, skip)
    requires HasNotice(wnl, p, i) && p != skip
    ensures Logged(OwnLogs(states[|steps|]), p, wnl[p][i])
  {
    var s := states[|steps|];
    var g := RunInv(n, states, steps);
    HostsKnowPrefixes(n, states, steps, h, p);
    var j := NoticeIsLogged(OwnLogs(s)[p], s.hosts[h].procarray[p], page, wnl[p], i);
    assert At(OwnLogs(s), p, j);
  }

  lemma NoNoticeIsForeign(n: nat, states: seq<State>, steps: seq<Step>, me: nat, h: nat, page: nat, wnl: Lists,
                          theirs: Lists)
    requires Reached(n, states, steps)
    requires FromHost(states[|steps|], me, page, wnl, me) && FromHost(states[|steps|], h, page, theirs, me)
    ensures NoForeignStamp(wnl, me, theirs)
  {
    forall p: nat, i: nat, q: nat, j: nat ensures !Foreign(wnl, me, theirs, p, i, q, j) {
      if p != q && p != me && q != me && HasNotice(wnl, p, i) && HasNotice(theirs, q, j) {
        HostNoticeIsLogged(n, states, steps, me, page, wnl, me, p, i);
        HostNoticeIsLogged(n, states, steps, h, page, theirs, me, q, j);
        LoggedStampsDiffer(n, states, steps, p, q, wnl[p][i], theirs[q][j]);
      }
    }
  }

  /** A host that misses diffs of a page, whose newest missing notices are comparable, makes one request; and if Last
      has seen all that it knows of others, the answer of Last's owner brings each missing notice the owner's diff. */
  lemma OwnerServesAll(n: nat, states: seq<State>, steps: seq<Step>, me: nat, page: nat, wnl: Lists, theirs: Lists,
                       p: nat, i: nat) returns (r: Request)
    requires Reached(n, states, steps) && FromHost(states[|steps|], me, page, wnl, me)
    requires Ascending(wnl, n) && Ascending(theirs, n) && |theirs| == |wnl| && NewestComparable(wnl, n)
    requires p < |wnl| && p != me && RunStart(wnl[p]) <= i < |wnl[p]|
    requires forall o | o in Requests(wnl, n, |wnl|) :: AskedOfOwner(states[|steps|], me, page, wnl, theirs, o, n)
    ensures Requests(wnl, n, |wnl|) == [r] && SizedRequest(r, n) && i < |theirs[p]|
    ensures var answer := Answer(theirs, me, r, n, |theirs|);
            && Lost(wnl, me, answer) == []
            && i < |Fill(wnl, me, answer)[p]|
            && Fill(wnl, me, answer)[p][i] == wnl[p][i].(diff := theirs[p][i].diff)
  {
    r := TheRequest(wnl, n, p, i);
    assert r in Requests(wnl, n, |wnl|);
    RequestsGoToOwners(wnl, n, |wnl|, 0);
    OwnerAllAgree(n, states, steps, me, page, wnl, theirs, r);
    NoNoticeIsForeign(n, states, steps, me, r.to, page, wnl, theirs);
    var same := OneAnswerServesAll(wnl, me, theirs, n, p, i);
  }
}
