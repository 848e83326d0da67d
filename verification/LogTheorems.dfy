/** The interval logs in every run on one lock: whoever holds the token knows every interval ever recorded. */
module LogTheorems {
  import opened Timestamps
  import opened LockHost
  import opened LockProtocol
  import opened LockQueue
  import opened LockTheorems
  import opened IntervalLog

  /** The log that each process keeps of its own intervals. */
  ghost function OwnLogs(s: State): (r: Logs)
    requires StateShaped(s)
    ensures |r| == |s.hosts|
  {
    seq(|s.hosts|, p requires 0 <= p < |s.hosts| => s.hosts[p].procarray[p])
  }

  ghost predicate HostKnows(s: State, i: nat)
    requires StateShaped(s)
  {
    i < |s.hosts| ==>
      && Knows(OwnLogs(s), s.hosts[i])
      && (s.hosts[i].haveToken ==> s.hosts[i].procarray == OwnLogs(s))
  }

  /** A request carries the current timestamp of its sender; a grant carries all that its receiver lacks. */
  ghost predicate Carries(s: State, m: Msg)
    requires StateShaped(s)
  {
    m in s.net ==>
      && (m.Request? ==> m.from < |s.hosts| && m.ts == s.hosts[m.from].timestamp)
      && (m.Grant? && HostKnows(s, m.to) && Sound(OwnLogs(s)) ==>
            (forall p | 0 <= p < |s.hosts| :: LogShaped(OwnLogs(s)[p], |s.hosts|))
            && m.intervals == Missing(OwnLogs(s), s.hosts[m.to].timestamp))
  }

  /** The timestamp stored with a successor is that host's current one. */
  ghost predicate Remembers(s: State, j: nat)
    requires StateShaped(s)
  {
    j < |s.hosts| && s.hosts[j].next.Some? ==>
      s.hosts[j].nextId < |s.hosts| && s.hosts[j].next.value == s.hosts[s.hosts[j].nextId].timestamp
  }

  ghost predicate LogInv(s: State) {
    && StateShaped(s)
    && Sound(OwnLogs(s))
    && (forall i: nat :: HostKnows(s, i))
    && (forall m :: Carries(s, m))
    && (forall j: nat :: Remembers(s, j))
  }

  /** No log has outgrown the int32 counters. */
  ghost predicate InRange(s: State) {
    forall p | 0 <= p < |s.hosts| :: p < |s.hosts[p].procarray| && |s.hosts[p].procarray[p]| <= MAX_INT32
  }

  lemma InitLogs(s: State, n: nat)
    requires Init(s, n) && StateShaped(s)
    ensures LogInv(s)
  {
  }

  /** A step that leaves logs and timestamps alone, and sends nothing new or a faithful copy. */
  lemma QuietStepKeeps(s: State, s': State)
    requires LogInv(s) && StateShaped(s') && |s'.hosts| == |s.hosts|
    requires forall i: nat | i < |s.hosts| ::
               s'.hosts[i].timestamp == s.hosts[i].timestamp && s'.hosts[i].procarray == s.hosts[i].procarray
    requires forall i: nat | i < |s.hosts| :: s'.hosts[i].haveToken ==> s.hosts[i].haveToken
    requires forall m | m in s'.net && m !in s.net ::
               m.Request? && m.from < |s.hosts| && m.ts == s.hosts[m.from].timestamp
    requires forall j: nat | j < |s.hosts| && s'.hosts[j].next.Some? :: Remembers(s', j)
    ensures LogInv(s') && OwnLogs(s') == OwnLogs(s)
  {
    assert OwnLogs(s') == OwnLogs(s);
    forall i: nat ensures HostKnows(s', i) {
      assert HostKnows(s, i);
      if i < |s.hosts| {
        SameKnowledge(OwnLogs(s), s.hosts[i], s'.hosts[i]);
      }
    }
    forall m ensures Carries(s', m) {
      assert Carries(s, m);
      if m in s'.net && m in s.net && m.Grant? {
        assert m.to < |s.hosts|;
        assert HostKnows(s, m.to);
      }
    }
    forall j: nat ensures Remembers(s', j) { assert j < |s.hosts| && s'.hosts[j].next.Some? ==> Remembers(s', j); }
  }

  lemma SameKnowledge(logs: Logs, h: Host, h': Host)
    requires Knows(logs, h) && h'.timestamp == h.timestamp && h'.procarray == h.procarray
    requires Shaped(h', |h'.timestamp|)
    ensures Knows(logs, h')
  {
    forall p: nat, k: nat ensures CoversAt(logs, h', p, k) { assert CoversAt(logs, h, p, k); }
  }

  lemma ExactIsAdding(logs: Logs, h: Host)
    requires Knows(logs, h)
    ensures Adding(logs, h)
  {
  }

  lemma {:induction false} AddAllGrows(h: Host, ivs: seq<Interval>)
    requires Shaped(h, |h.timestamp|) && LogShaped(ivs, |h.timestamp|)
    ensures |AddAll(h, ivs).procarray| == |h.procarray|
    ensures forall p | 0 <= p < |h.procarray| :: h.procarray[p] <= AddAll(h, ivs).procarray[p]
    decreases |ivs|
  {
    if ivs != [] {
      AddAllGrows(AddInterval(h, ivs[|ivs| - 1]), ivs[..|ivs| - 1]);
    }
  }

  /** What a host knows after recording its dirty pages, and what the others still know. */
  lemma RecordKeeps(s: State, i: nat, pages: seq<nat>) returns (logs': Logs)
    requires LogInv(s) && i < |s.hosts| && |s.hosts[i].procarray| == |s.hosts|
    requires pages == [] || |s.hosts[i].procarray[i]| < MAX_INT32
    ensures |s.hosts[i].timestamp| == |s.hosts| && Shaped(s.hosts[i], |s.hosts|)
    ensures var h1 := NewInterval(s.hosts[i], i, pages);
            && |h1.procarray| == |s.hosts| && logs' == OwnLogs(s)[i := h1.procarray[i]]
            && Sound(logs') && Knows(logs', h1)
            && (s.hosts[i].haveToken ==> h1.procarray == logs')
    ensures OwnLogs(s)[i] <= logs'[i]
    ensures forall j | 0 <= j < |s.hosts| && j != i :: Knows(logs', s.hosts[j])
  {
    var logs: Logs := OwnLogs(s);
    var h1 := NewInterval(s.hosts[i], i, pages);
    assert HostKnows(s, i);
    logs' := logs[i := h1.procarray[i]];
    if pages == [] {
      assert logs' == logs;
    } else {
      AppendKeepsSound(logs, s.hosts[i], i, pages);
    }
    forall j | 0 <= j < |s.hosts| && j != i ensures Knows(logs', s.hosts[j]) {
      assert HostKnows(s, j);
      OthersStillKnow(logs, logs', s.hosts[j], i);
    }
  }

  /** The holder records its dirty pages and sends the token to `to`, with all that `to` lacks. */
  lemma GrantSentKeeps(s: State, s': State, g: Queue, i: nat, pages: seq<nat>, grant: Msg)
    requires LogInv(s) && Inv(s, g) && StateShaped(s') && |s'.hosts| == |s.hosts|
    requires i < |s.hosts| && s.hosts[i].haveToken && !s'.hosts[i].haveToken && s'.hosts[i].next.None?
    requires var h1 := NewInterval(s.hosts[i], i, pages);
             s'.hosts[i].timestamp == h1.timestamp && s'.hosts[i].procarray == h1.procarray
    requires forall j | 0 <= j < |s.hosts| && j != i :: s'.hosts[j] == s.hosts[j]
    requires grant.Grant? && grant.to < |s.hosts| && grant.to != i
    requires var h1 := NewInterval(s.hosts[i], i, pages);
             |s.hosts[grant.to].timestamp| == |s.hosts|
             && grant.intervals == Missing(h1.procarray, s.hosts[grant.to].timestamp)
    requires forall m | m in s'.net :: m in s.net || m == grant
    requires InRange(s')
    ensures LogInv(s')
  {
    var logs' := RecordKeeps(s, i, pages);
    assert OwnLogs(s') == logs';
    assert HolderInv(s, g, i) && HostInv(s, i);
    forall j: nat ensures HostKnows(s', j) {
      assert HostKnows(s, j) && HolderInv(s, g, j);
      if j == i {
        SameKnowledge(logs', NewInterval(s.hosts[i], i, pages), s'.hosts[i]);
      }
    }
    forall m ensures Carries(s', m) {
      assert Carries(s, m) && MsgInv(s, g, m);
      if m in s'.net && m.Request? {
        assert RequestInv(s, g, m.from);
      }
    }
    forall j: nat ensures Remembers(s', j) {
      assert Remembers(s, j) && FollowInv(s, g, j);
    }
  }

  /** The handler of a grant, on the values alone. */
  lemma ReceiverKnows(s: State, g: Queue, m: Msg, pages: seq<nat>) returns (logs': Logs)
    requires LogInv(s) && Inv(s, g) && m in s.net && m.Grant? && m.to < |s.hosts|
    requires MsgShaped(m, |s.hosts|)
    requires |OnGrant(s.hosts[m.to], m.to, m, pages).procarray| == |s.hosts|
    requires |OnGrant(s.hosts[m.to], m.to, m, pages).procarray[m.to]| <= MAX_INT32
    ensures var h1 := NewInterval(s.hosts[m.to], m.to, pages);
            |h1.procarray| == |s.hosts| && logs' == OwnLogs(s)[m.to := h1.procarray[m.to]]
    ensures Sound(logs') && OwnLogs(s)[m.to] <= logs'[m.to]
    ensures Knows(logs', OnGrant(s.hosts[m.to], m.to, m, pages))
    ensures OnGrant(s.hosts[m.to], m.to, m, pages).procarray == logs'
    ensures forall j | 0 <= j < |s.hosts| && j != m.to :: Knows(logs', s.hosts[j])
  {
    var w, n := m.to, |s.hosts|;
    var h, logs := s.hosts[w], OwnLogs(s);
    var h1 := NewInterval(h, w, pages);
    AddAllGrows(h1, m.intervals);
    logs' := RecordKeeps(s, w, pages);
    assert HostKnows(s, w) && Carries(s, m);
    ExactIsAdding(logs', h1);
    AddMissing(logs, logs', h, h1, w, n);
    var h2 := AddAll(h1, m.intervals);
    AllKnownIsExact(logs', h2);
    SameKnowledge(logs', h2, OnGrant(h, w, m, pages));
  }

  /** The receiver of the token ends up with every log. */
  lemma GrantReceivedKeeps(s: State, s': State, g: Queue, m: Msg, pages: seq<nat>)
    requires LogInv(s) && Inv(s, g) && StateShaped(s') && |s'.hosts| == |s.hosts|
    requires m in s.net && m.Grant? && m.to < |s.hosts| && MsgShaped(m, |s.hosts|)
    requires s'.hosts[m.to] == OnGrant(s.hosts[m.to], m.to, m, pages)
    requires forall j | 0 <= j < |s.hosts| && j != m.to :: s'.hosts[j] == s.hosts[j]
    requires s'.net == s.net - multiset{m}
    requires InRange(s')
    ensures LogInv(s')
    ensures s'.hosts[m.to].procarray == OwnLogs(s')
  {
    var w := m.to;
    var logs' := ReceiverKnows(s, g, m, pages);
    assert OwnLogs(s') == logs';
    assert MsgInv(s, g, m) && RequestInv(s, g, w);
    AddAllKeepsLock(NewInterval(s.hosts[w], w, pages), m.intervals);
    forall j: nat ensures HostKnows(s', j) {
      assert HolderInv(s, g, j);
    }
    forall m2 ensures Carries(s', m2) {
      assert Carries(s, m2) && MsgInv(s, g, m2);
    }
    forall j: nat ensures Remembers(s', j) {
      assert Remembers(s, j) && FollowInv(s, g, j);
    }
  }

  /** A request that is answered with the token. */
  lemma GivenKeepsLogs(s: State, s': State, g: Queue, m: Msg, pages: seq<nat>)
    requires LogInv(s) && Inv(s, g) && m in s.net && m.Request? && Enabled(s, DeliverRequest(m, pages))
    requires m.to < |s.hosts| && s.hosts[m.to].haveToken && !s.hosts[m.to].locked
    requires s' == Apply(s, DeliverRequest(m, pages)) && StateShaped(s') && InRange(s')
    ensures LogInv(s')
  {
    assert MsgShaped(m, |s.hosts|) && Carries(s, m) && HostInv(s, m.to);
    RequestLink(s, g, m);
    var r := OnRequest(s.hosts[m.to], m.to, m, pages);
    forall m2 | m2 in s'.net ensures m2 in s.net || m2 in r.1 { }
    GrantSentKeeps(s, s', g, m.to, pages, r.1[0]);
  }

  lemma DeliverRequestKeepsLogs(s: State, g: Queue, m: Msg, pages: seq<nat>)
    requires LogInv(s) && Inv(s, g) && m in s.net && m.Request?
    requires var s' := Apply(s, DeliverRequest(m, pages)); StateShaped(s') && InRange(s')
    ensures LogInv(Apply(s, DeliverRequest(m, pages)))
  {
    var t := m.to;
    assert t < |s.hosts| && MsgShaped(m, |s.hosts|) && Carries(s, m);
    RequestLink(s, g, m);
    assert HostInv(s, t);
    var h := s.hosts[t];
    var s' := Apply(s, DeliverRequest(m, pages));
    if h.haveToken && !h.locked {
      GivenKeepsLogs(s, s', g, m, pages);
    } else {
      PassedOnKeepsLogs(s, s', m, pages);
    }
  }

  /** A request that is stored or forwarded leaves all logs as they are. */
  lemma PassedOnKeepsLogs(s: State, s': State, m: Msg, pages: seq<nat>)
    requires LogInv(s) && m in s.net && m.Request? && Carries(s, m) && Enabled(s, DeliverRequest(m, pages))
    requires m.to < |s.hosts| && !(s.hosts[m.to].haveToken && !s.hosts[m.to].locked)
    requires s' == Apply(s, DeliverRequest(m, pages)) && StateShaped(s')
    ensures LogInv(s')
  {
    PassedOnChanges(s, s', m, pages);
    PassedOnSends(s, s', m, pages);
    forall j: nat ensures Remembers(s', j) { PassedOnRemembers(s, s', m, pages, j); }
    QuietStepKeeps(s, s');
  }

  lemma PassedOnSends(s: State, s': State, m: Msg, pages: seq<nat>)
    requires StateShaped(s) && m in s.net && m.Request? && Enabled(s, DeliverRequest(m, pages)) && m.to < |s.hosts|
    requires !(s.hosts[m.to].haveToken && !s.hosts[m.to].locked) && s' == Apply(s, DeliverRequest(m, pages))
    ensures forall m2 | m2 in s'.net && m2 !in s.net :: m2.Request? && m2.from == m.from && m2.ts == m.ts
  {
    var r := OnRequest(s.hosts[m.to], m.to, m, pages);
    forall m2 | m2 in s'.net ensures m2 in s.net || m2 in r.1 { }
  }

  lemma PassedOnChanges(s: State, s': State, m: Msg, pages: seq<nat>)
    requires StateShaped(s) && m in s.net && m.Request? && Enabled(s, DeliverRequest(m, pages)) && m.to < |s.hosts|
    requires !(s.hosts[m.to].haveToken && !s.hosts[m.to].locked) && s' == Apply(s, DeliverRequest(m, pages))
    ensures |s'.hosts| == |s.hosts| && forall i: nat | i < |s.hosts| ::
              && s'.hosts[i].timestamp == s.hosts[i].timestamp && s'.hosts[i].procarray == s.hosts[i].procarray
              && (s'.hosts[i].haveToken ==> s.hosts[i].haveToken)
  {
  }

  lemma PassedOnRemembers(s: State, s': State, m: Msg, pages: seq<nat>, j: nat)
    requires LogInv(s) && m in s.net && m.Request? && Carries(s, m) && Enabled(s, DeliverRequest(m, pages))
    requires m.to < |s.hosts| && !(s.hosts[m.to].haveToken && !s.hosts[m.to].locked)
    requires s' == Apply(s, DeliverRequest(m, pages)) && StateShaped(s')
    ensures Remembers(s', j)
  {
    PassedOnChanges(s, s', m, pages);
    assert Remembers(s, j);
  }

  lemma AcquireKeepsLogs(s: State, i: nat)
    requires LogInv(s) && Enabled(s, Acquire(i)) && StateShaped(Apply(s, Acquire(i)))
    ensures LogInv(Apply(s, Acquire(i)))
  {
    var s' := Apply(s, Acquire(i));
    var r := AcquireLock(s.hosts[i], i);
    forall m2 | m2 in s'.net ensures m2 in s.net || m2 in r.1 { }
    forall j: nat | j < |s.hosts| && s'.hosts[j].next.Some? ensures Remembers(s', j) {
      assert Remembers(s, j);
    }
    QuietStepKeeps(s, s');
  }

  lemma PassKeepsLogs(s: State, g: Queue, i: nat, pages: seq<nat>)
    requires LogInv(s) && Inv(s, g) && Enabled(s, Release(i, pages)) && s.hosts[i].next.Some?
    requires StateShaped(Apply(s, Release(i, pages))) && InRange(Apply(s, Release(i, pages)))
    ensures LogInv(Apply(s, Release(i, pages)))
  {
    var s' := Apply(s, Release(i, pages));
    var r := ReleaseLock(s.hosts[i], i, pages);
    forall m2 | m2 in s'.net ensures m2 in s.net || m2 in r.1 { }
    assert HostInv(s, i) && FollowInv(s, g, i) && Remembers(s, i);
    assert NewInterval(s.hosts[i].(locked := false), i, pages) == NewInterval(s.hosts[i], i, pages).(locked := false);
    GrantSentKeeps(s, s', g, i, pages, r.1[0]);
  }

  lemma ReleaseKeepsLogs(s: State, g: Queue, i: nat, pages: seq<nat>)
    requires LogInv(s) && Inv(s, g) && Enabled(s, Release(i, pages))
    requires StateShaped(Apply(s, Release(i, pages))) && InRange(Apply(s, Release(i, pages)))
    ensures LogInv(Apply(s, Release(i, pages)))
  {
    if s.hosts[i].next.Some? {
      PassKeepsLogs(s, g, i, pages);
    } else {
      var s' := Apply(s, Release(i, pages));
      forall j: nat | j < |s.hosts| && s'.hosts[j].next.Some? ensures Remembers(s', j) {
        assert Remembers(s, j);
      }
      QuietStepKeeps(s, s');
    }
  }

  lemma StepKeepsLogs(s: State, g: Queue, step: Step)
    requires LogInv(s) && Inv(s, g) && Enabled(s, step)
    requires StateShaped(Apply(s, step)) && InRange(Apply(s, step))
    ensures LogInv(Apply(s, step))
  {
    match step
    case Acquire(i) =>
      AcquireKeepsLogs(s, i);
    case Release(i, pages) =>
      ReleaseKeepsLogs(s, g, i, pages);
    case DeliverRequest(m, pages) =>
      DeliverRequestKeepsLogs(s, g, m, pages);
    case DeliverGrant(m, pages) =>
      assert MsgShaped(m, |s.hosts|);
      GrantReceivedKeeps(s, Apply(s, step), g, m, pages);
  }

  ghost predicate Grows(h: Host, h': Host) {
    |h'.procarray| == |h.procarray| && forall q | 0 <= q < |h.procarray| :: h.procarray[q] <= h'.procarray[q]
  }

  lemma PutGrows(s: State, i: nat, r: Result, net: multiset<Msg>)
    requires i < |s.hosts| && Grows(s.hosts[i], r.0)
    requires forall p | 0 <= p < |s.hosts| :: |s.hosts[p].procarray| == |s.hosts|
    ensures var s' := Put(s.(net := net), i, r);
            |s'.hosts| == |s.hosts| && forall p | 0 <= p < |s.hosts| :: Grows(s.hosts[p], s'.hosts[p])
  {
  }

  /** No step takes anything out of a log. */
  lemma LogsGrow(s: State, step: Step)
    requires StateShaped(s) && Enabled(s, step)
    ensures |Apply(s, step).hosts| == |s.hosts|
    ensures forall p | 0 <= p < |s.hosts| :: Grows(s.hosts[p], Apply(s, step).hosts[p])
  {
    match step
    case Acquire(i) =>
      PutGrows(s, i, AcquireLock(s.hosts[i], i), s.net);
    case Release(i, pages) =>
      PutGrows(s, i, ReleaseLock(s.hosts[i], i, pages), s.net);
    case DeliverRequest(m, pages) =>
      assert m.to < |s.hosts| && MsgShaped(m, |s.hosts|);
      PutGrows(s, m.to, OnRequest(s.hosts[m.to], m.to, m, pages), Take(s, m).net);
    case DeliverGrant(m, pages) =>
      assert m.to < |s.hosts| && MsgShaped(m, |s.hosts|);
      AddAllGrows(NewInterval(s.hosts[m.to], m.to, pages), m.intervals);
      PutGrows(s, m.to, (OnGrant(s.hosts[m.to], m.to, m, pages), []), Take(s, m).net);
  }

  /** Every state of every run within the range of the counters has sound, fully explained logs. */
  lemma {:induction false} RunLogs(n: nat, states: seq<State>, steps: seq<Step>)
    requires Run(n, states, steps) && StateShaped(states[|steps|]) && InRange(states[|steps|])
    ensures LogInv(states[|steps|])
    decreases |steps|
  {
    if steps == [] {
      InitLogs(states[0], n);
    } else {
      var k := |steps| - 1;
      var g := RunInv(n, states[..k + 1], steps[..k]);
      assert states[..k + 1][k] == states[k];
      assert StateShaped(states[k]) && Enabled(states[k], steps[k]) && states[k + 1] == Apply(states[k], steps[k]);
      LogsGrow(states[k], steps[k]);
      RunLogs(n, states[..k + 1], steps[..k]);
      StepKeepsLogs(states[k], g, steps[k]);
    }
  }

  // ---- what a reader takes away ----

  /** Every host's timestamp counts its logs, each of which is a prefix, without repetition, of the owner's
      own log; everything known is covered; and only what is known is counted. */
  lemma HostsKnowPrefixes(n: nat, states: seq<State>, steps: seq<Step>, i: nat, p: nat)
    requires Run(n, states, steps) && StateShaped(states[|steps|]) && InRange(states[|steps|])
    requires i < n && p < n
    ensures |states[|steps|].hosts| == n
    ensures var h := states[|steps|].hosts[i]; var log := states[|steps|].hosts[p].procarray[p];
            && h.timestamp[p] == |h.procarray[p]|
            && h.procarray[p] <= log
            && (forall k | 0 <= k < |log| ::
                  log[k].owner == p && (Covers(h.timestamp, log[k].ts) <==> k < |h.procarray[p]|))
            && (forall k, k' | 0 <= k < k' < |log| :: log[k] != log[k'] && Covers(log[k'].ts, log[k].ts))
  {
    RunLogs(n, states, steps);
    var g := RunInv(n, states, steps);
    var s := states[|steps|];
    var logs: Logs := OwnLogs(s);
    var h := s.hosts[i];
    assert HostKnows(s, i);
    forall k | 0 <= k < |logs[p]|
      ensures logs[p][k].owner == p && (Covers(h.timestamp, logs[p][k].ts) <==> k < |h.procarray[p]|)
    {
      assert Stamped(logs, p, k) && CoversAt(logs, h, p, k);
    }
    forall k, k' | 0 <= k < k' < |logs[p]| ensures logs[p][k] != logs[p][k'] && Covers(logs[p][k'].ts, logs[p][k].ts) {
      assert Stamped(logs, p, k) && Stamped(logs, p, k') && Causal(logs, p, k', p, k);
    }
  }

  /** Whoever holds the token knows every interval that any process has ever recorded. */
  lemma HolderKnowsAll(n: nat, states: seq<State>, steps: seq<Step>, i: nat)
    requires Run(n, states, steps) && StateShaped(states[|steps|]) && InRange(states[|steps|])
    requires i < n && |states[|steps|].hosts| == n && states[|steps|].hosts[i].haveToken
    ensures states[|steps|].hosts[i].procarray == OwnLogs(states[|steps|])
    ensures forall p | 0 <= p < n :: states[|steps|].hosts[i].timestamp[p] == |OwnLogs(states[|steps|])[p]|
  {
    RunLogs(n, states, steps);
    assert HostKnows(states[|steps|], i);
  }

  /** Happens-before is exactly what the timestamps say: between any two intervals of any two processes,
      either one has seen the other and covers it strictly, or neither entry reaches the other. */
  lemma TimestampsOrderIntervals(n: nat, states: seq<State>, steps: seq<Step>, p: nat, k: nat, q: nat, m: nat)
    requires Run(n, states, steps) && StateShaped(states[|steps|]) && InRange(states[|steps|])
    requires At(OwnLogs(states[|steps|]), p, k) && At(OwnLogs(states[|steps|]), q, m) && (p, k) != (q, m)
    ensures var logs: Logs := OwnLogs(states[|steps|]); var a, b := logs[p][k].ts, logs[q][m].ts;
            && |a| == |b| == |logs| && a != b
            && (Covers(b, a) <==> b[p] >= k + 1)
            && !(Covers(a, b) && Covers(b, a))
  {
    RunLogs(n, states, steps);
    var logs: Logs := OwnLogs(states[|steps|]);
    assert Stamped(logs, p, k) && Stamped(logs, q, m) && Causal(logs, q, m, p, k) && Causal(logs, p, k, q, m);
  }

  /** Handling the token message: the acquirer adds one record to its own log if it has dirty pages, and for
      every other process it ends up with that process's whole log, which is what the granter knew. */
  lemma GrantBringsEverything(n: nat, states: seq<State>, steps: seq<Step>, m: Msg, pages: seq<nat>)
    requires Run(n, states, steps) && m in states[|steps|].net && m.Grant?
    requires StateShaped(states[|steps|])
    requires InRange(Apply(states[|steps|], DeliverGrant(m, pages)))
    requires StateShaped(Apply(states[|steps|], DeliverGrant(m, pages)))
    ensures var s := states[|steps|]; var w := m.to;
            |s.hosts| == n && w < n && |s.hosts[w].procarray| == n
    ensures var s := states[|steps|]; var w := m.to; var h' := Apply(s, DeliverGrant(m, pages)).hosts[w];
            && h'.locked && h'.haveToken && !h'.waiting
            && |h'.procarray| == n
            && (forall p | 0 <= p < n && p != w :: h'.procarray[p] == s.hosts[p].procarray[p])
            && s.hosts[w].procarray[w] <= h'.procarray[w]
            && |h'.procarray[w]| == |s.hosts[w].procarray[w]| + if pages == [] then 0 else 1
  {
    var s := states[|steps|];
    var g := RunInv(n, states, steps);
    LogsGrow(s, DeliverGrant(m, pages));
    RunLogs(n, states, steps);
    assert MsgShaped(m, n);
    var logs' := ReceiverKnows(s, g, m, pages);
  }
}
