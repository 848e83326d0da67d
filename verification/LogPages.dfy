/** Which pages the intervals of a run name: each record lists the pages that were dirty when it was made, and whoever
    gets the token is told of them. */
module LogPages {
  import opened LockHost
  import opened LockProtocol
  import opened LockQueue
  import opened LockTheorems
  import opened LogTheorems

  /** The step makes host `i` record its dirty pages, of which there are some. */
  predicate Records(s: State, step: Step, i: nat) {
    i < |s.hosts| && match step
    case Acquire(_) => false
    case Release(h, pages) => h == i && s.hosts[i].next.Some? && pages != []
    case DeliverRequest(m, pages) => m.to == i && s.hosts[i].haveToken && !s.hosts[i].locked && pages != []
    case DeliverGrant(m, pages) => m.to == i && pages != []
  }

  function OwnLog(s: State, i: nat): seq<Interval> {
    if i < |s.hosts| && i < |s.hosts[i].procarray| then s.hosts[i].procarray[i] else []
  }

  /** One more record, which names exactly these pages. */
  predicate OneMore(log: seq<Interval>, log': seq<Interval>, owner: nat, pages: seq<nat>) {
    && |log'| == |log| + 1 && log <= log'
    && log'[|log|].owner == owner && log'[|log|].pages == pages
  }

  lemma NewIntervalNames(h: Host, me: nat, pages: seq<nat>)
    requires Shaped(h, |h.timestamp|) && me < |h.timestamp|
    ensures var log, log' := h.procarray[me], NewInterval(h, me, pages).procarray[me];
            if pages == [] then log' == log else OneMore(log, log', me, pages)
  {
  }

  lemma GrantRecords(s: State, g: Queue, m: Msg, pages: seq<nat>, i: nat)
    requires LogInv(s) && Inv(s, g) && Enabled(s, DeliverGrant(m, pages)) && i < |s.hosts|
    requires InRange(Apply(s, DeliverGrant(m, pages)))
    ensures OwnLog(Apply(s, DeliverGrant(m, pages)), i)
         == if i == m.to then NewInterval(s.hosts[i], i, pages).procarray[i] else OwnLog(s, i)
  {
    assert MsgShaped(m, |s.hosts|) && m.to < |s.hosts|;
    AddAllGrows(NewInterval(s.hosts[m.to], m.to, pages), m.intervals);
    var s' := Apply(s, DeliverGrant(m, pages));
    assert s'.hosts[m.to] == OnGrant(s.hosts[m.to], m.to, m, pages);
    var logs' := ReceiverKnows(s, g, m, pages);
  }

  /** A step adds one record to the own log of a host that records, and leaves all other own logs as they are. */
  lemma StepRecords(s: State, g: Queue, step: Step, i: nat)
    requires LogInv(s) && Inv(s, g) && Enabled(s, step) && i < |s.hosts| && InRange(Apply(s, step))
    ensures if Records(s, step, i) then OneMore(OwnLog(s, i), OwnLog(Apply(s, step), i), i, step.pages)
            else OwnLog(Apply(s, step), i) == OwnLog(s, i)
  {
    assert Shaped(s.hosts[i], |s.hosts|) && HostInv(s, i);
    if step.DeliverGrant? {
      GrantRecords(s, g, step.m, step.pages, i);
    }
    if !step.Acquire? {
      NewIntervalNames(s.hosts[i], i, step.pages);
      NewIntervalNames(s.hosts[i].(locked := false), i, step.pages);
    }
  }

  // ---- runs ----

  lemma OwnLogsStep(n: nat, states: seq<State>, steps: seq<Step>, j: nat, h: nat)
    requires Run(n, states, steps) && h == j + 1 <= |steps|
    ensures StateShaped(states[j]) && |states[j].hosts| == |states[h].hosts| == n
    ensures forall i: nat | i < n :: OwnLog(states[j], i) <= OwnLog(states[h], i)
    ensures InRange(states[h]) ==> InRange(states[j])
  {
    var g := StateAt(n, states, steps, j);
    LogsGrow(states[j], steps[j]);
  }

  /** Own logs only grow, so what is in range at the end was so before. */
  lemma {:induction false} OwnLogsGrow(n: nat, states: seq<State>, steps: seq<Step>, j: nat, k: nat)
    requires Run(n, states, steps) && j <= k <= |steps|
    ensures StateShaped(states[j]) && |states[j].hosts| == |states[k].hosts| == n
    ensures forall i: nat | i < n :: OwnLog(states[j], i) <= OwnLog(states[k], i)
    ensures InRange(states[k]) ==> InRange(states[j])
    decreases k - j
  {
    if j < k {
      var h := j + 1;
      OwnLogsStep(n, states, steps, j, h);
      OwnLogsGrow(n, states, steps, h, k);
    } else {
      var g := StateAt(n, states, steps, k);
    }
  }

  lemma GrantGivesToken(n: nat, states: seq<State>, steps: seq<Step>, k: nat, h: nat, m: Msg, pages: seq<nat>)
    requires Run(n, states, steps) && h == k + 1 <= |steps| && steps[k] == DeliverGrant(m, pages)
    ensures m.to < |states[h].hosts| && states[h].hosts[m.to].haveToken
  {
    var g := StateAt(n, states, steps, k);
    HostsStay(states[k], steps[k]);
  }

  /** In every run in range, each step adds a record with exactly its dirty pages to the own log of the host that
      records, and to no other own log. */
  lemma RunRecords(n: nat, states: seq<State>, steps: seq<Step>, k: nat, i: nat)
    requires Run(n, states, steps) && k < |steps| && i < n
    requires StateShaped(states[k + 1]) && InRange(states[k + 1])
    ensures if Records(states[k], steps[k], i)
            then OneMore(OwnLog(states[k], i), OwnLog(states[k + 1], i), i, steps[k].pages)
            else OwnLog(states[k + 1], i) == OwnLog(states[k], i)
  {
    var g := StateAt(n, states, steps, k);
    OwnLogsGrow(n, states, steps, k, k + 1);
    LogsAt(n, states, steps, k);
    StepRecords(states[k], g, steps[k], i);
  }

  lemma LogsAt(n: nat, states: seq<State>, steps: seq<Step>, k: nat)
    requires Run(n, states, steps) && k <= |steps| && StateShaped(states[k]) && InRange(states[k])
    ensures LogInv(states[k])
  {
    assert states[..k + 1][k] == states[k];
    RunLogs(n, states[..k + 1], steps[..k]);
  }

  /** What host `i` recorded at step `j` is known to whoever holds the token later: the same record, in the same place,
      with exactly the pages that were dirty then.  So no acquirer misses a written page. */
  lemma HolderKnowsPages(n: nat, states: seq<State>, steps: seq<Step>, j: nat, i: nat, w: nat)
    requires Run(n, states, steps) && StateShaped(states[|steps|]) && InRange(states[|steps|])
    requires j < |steps| && i < n && Records(states[j], steps[j], i)
    requires w < |states[|steps|].hosts| && states[|steps|].hosts[w].haveToken
    ensures |states[|steps|].hosts[w].procarray| == n
    ensures var known := states[|steps|].hosts[w].procarray[i]; var c := |OwnLog(states[j], i)|;
            c < |known| && known[c].owner == i && known[c].pages == steps[j].pages
  {
    OwnLogsGrow(n, states, steps, j + 1, |steps|);
    RunRecords(n, states, steps, j, i);
    HolderKnowsAll(n, states, steps, w);
    assert OwnLogs(states[|steps|])[i] == OwnLog(states[|steps|], i);
  }

  /** In particular the acquirer, as soon as it has handled the grant. */
  lemma GrantTellsPages(n: nat, states: seq<State>, steps: seq<Step>, j: nat, i: nat, k: nat, m: Msg,
                         pages: seq<nat>)
    requires Run(n, states, steps) && StateShaped(states[|steps|]) && InRange(states[|steps|])
    requires j < k && k + 1 == |steps| && steps[k] == DeliverGrant(m, pages)
    requires i < n && Records(states[j], steps[j], i)
    ensures m.to < |states[|steps|].hosts| && |states[|steps|].hosts[m.to].procarray| == n
    ensures var known := states[|steps|].hosts[m.to].procarray[i]; var c := |OwnLog(states[j], i)|;
            c < |known| && known[c].owner == i && known[c].pages == steps[j].pages
  {
    GrantGivesToken(n, states, steps, k, |steps|, m, pages);
    HolderKnowsPages(n, states, steps, j, i, m.to);
  }
}
