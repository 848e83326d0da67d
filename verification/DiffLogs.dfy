/** What the interval logs say about diff requests: whoever owns the Last stamp of a request can answer it, and notices
    that come from the logs never share a stamp. */
module DiffLogs {
  import opened Timestamps
  import opened LockProtocol
  import opened LockTheorems
  import opened IntervalLog
  import opened LogTheorems
  import opened DiffMerge
  import opened DiffRequests
  import opened DiffStore

  /** A host knows every interval that one of its own intervals has seen. */
  lemma OwnerKnows(n: nat, states: seq<State>, steps: seq<Step>, o: nat, k: nat, p: nat, j: nat)
    requires Run(n, states, steps) && StateShaped(states[|steps|]) && InRange(states[|steps|])
    requires At(OwnLogs(states[|steps|]), o, k) && At(OwnLogs(states[|steps|]), p, j)
    requires var logs: Logs := OwnLogs(states[|steps|]);
             |logs[o][k].ts| == |logs[p][j].ts| && Covers(logs[o][k].ts, logs[p][j].ts)
    ensures |states[|steps|].hosts| == n && o < n && p < n
    ensures var known := states[|steps|].hosts[o].procarray[p];
            j < |known| && known[j] == OwnLogs(states[|steps|])[p][j]
  {
    var s := states[|steps|];
    RunLogs(n, states, steps);
    var logs: Logs := OwnLogs(s);
    var g := RunInv(n, states, steps);
    assert HostKnows(s, o) && Stamped(logs, o, k) && Stamped(logs, p, j);
    assert CoversAt(logs, s.hosts[o], o, k);
    CoversTransitive(s.hosts[o].timestamp, logs[o][k].ts, logs[p][j].ts);
    HostsKnowPrefixes(n, states, steps, o, p);
  }

  /** Each notice of a process but `skip` carries the stamp of one of that process's intervals. */
  ghost predicate FromLogs(logs: Logs, wnl: Lists, skip: nat) {
    |wnl| == |logs| && forall p: nat, i: nat | p != skip && HasNotice(wnl, p, i) :: Logged(logs, p, wnl[p][i])
  }

  ghost predicate Logged(logs: Logs, p: nat, w: Notice) {
    exists k: nat :: At(logs, p, k) && w.ts == logs[p][k].ts
  }

  /** Intervals of different processes have different stamps, and so have the notices that come from them. */
  lemma LoggedStampsDiffer(n: nat, states: seq<State>, steps: seq<Step>, p: nat, q: nat, v: Notice, w: Notice)
    requires Run(n, states, steps) && StateShaped(states[|steps|]) && InRange(states[|steps|]) && p != q
    requires Logged(OwnLogs(states[|steps|]), p, v) && Logged(OwnLogs(states[|steps|]), q, w)
    ensures v.ts != w.ts
  {
    var logs: Logs := OwnLogs(states[|steps|]);
    var k: nat :| At(logs, p, k) && v.ts == logs[p][k].ts;
    var m: nat :| At(logs, q, m) && w.ts == logs[q][m].ts;
    TimestampsOrderIntervals(n, states, steps, p, k, q, m);
  }

  /** So the conditions under which storing an answer was analysed hold of lists that come from the logs. */
  lemma LogsGiveDistinctStamps(n: nat, states: seq<State>, steps: seq<Step>, wnl: Lists, me: nat, parts: Lists)
    requires Run(n, states, steps) && StateShaped(states[|steps|]) && InRange(states[|steps|])
    requires FromLogs(OwnLogs(states[|steps|]), wnl, me) && FromLogs(OwnLogs(states[|steps|]), parts, me)
    ensures DistinctStamps(wnl, me) && NoForeignStamp(wnl, me, parts)
  {
    forall p: nat, q: nat, i: nat, j: nat | p < q && p != me && q != me && HasNotice(wnl, p, i) && HasNotice(wnl, q, j)
      ensures wnl[p][i].ts != wnl[q][j].ts
    {
      LoggedStampsDiffer(n, states, steps, p, q, wnl[p][i], wnl[q][j]);
    }
    forall p: nat, q: nat, i: nat, j: nat
      | p != q && p != me && q != me && HasNotice(wnl, p, i) && HasNotice(parts, q, j)
      ensures wnl[p][i].ts != parts[q][j].ts
    {
      LoggedStampsDiffer(n, states, steps, p, q, wnl[p][i], parts[q][j]);
    }
  }

  /** A host has a notice for every interval that it knows and that wrote to the page. */
  ghost predicate Noticed(s: State, o: nat, page: nat, theirs: Lists)
    requires o < |s.hosts|
  {
    forall p: nat, j: nat | p < |s.hosts[o].procarray| && j < |s.hosts[o].procarray[p]| ::
      NoticedAt(s, o, page, theirs, p, j)
  }

  ghost predicate NoticedAt(s: State, o: nat, page: nat, theirs: Lists, p: nat, j: nat)
    requires o < |s.hosts| && p < |s.hosts[o].procarray| && j < |s.hosts[o].procarray[p]|
  {
    var iv := s.hosts[o].procarray[p][j];
    page in iv.pages ==> p < |theirs| && exists i: nat :: i < |theirs[p]| && theirs[p][i].ts == iv.ts
  }

  /** The owner of a request's Last has a notice for each interval within the request, so MissingIsStored applies to
      it. */
  lemma OwnerHasNotice(n: nat, states: seq<State>, steps: seq<Step>, r: Request, k: nat, p: nat, j: nat, page: nat,
                       theirs: Lists) returns (w: Notice)
    requires Run(n, states, steps) && StateShaped(states[|steps|]) && InRange(states[|steps|])
    requires At(OwnLogs(states[|steps|]), r.to, k) && At(OwnLogs(states[|steps|]), p, j)
    requires var logs: Logs := OwnLogs(states[|steps|]);
             && r.last == logs[r.to][k].ts && |r.last| == |logs[p][j].ts| && Covers(r.last, logs[p][j].ts)
             && page in logs[p][j].pages
    requires r.to < |states[|steps|].hosts| && Noticed(states[|steps|], r.to, page, theirs)
    ensures p < |theirs| && w in theirs[p] && w.ts == OwnLogs(states[|steps|])[p][j].ts
  {
    OwnerKnows(n, states, steps, r.to, k, p, j);
    assert NoticedAt(states[|steps|], r.to, page, theirs, p, j);
    var i: nat :| i < |theirs[p]| && theirs[p][i].ts == OwnLogs(states[|steps|])[p][j].ts;
    w := theirs[p][i];
  }
}
