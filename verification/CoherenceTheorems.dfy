/** Single writer, no panics, exact invalidation counts, and coherent data, over all runs of one page. */
module CoherenceTheorems {
  import opened Coherence
  import opened CoherenceInvariant

  lemma ManagerStepKeeps(s: State, g: Ghost, m: Msg) returns (g': Ghost)
    requires Inv(s, g) && Enabled(s, ManagerGets(m))
    ensures Inv(Apply(s, ManagerGets(m)), g') && g' == Next(s, g, ManagerGets(m))
  {
    var s' := Apply(s, ManagerGets(m));
    var r := OnManager(s.page, m);
    match m
    case RR(h) =>
      assert r.1 != [] ==> multiset(r.1) == multiset{r.1[0]};
      g' := ReadReqKeeps(s, s', g, h);
    case WR(w) =>
      g' := WriteReqKeeps(s, s', g, w);
    case InvReply(w) =>
      InvReplyFacts(s, g, w);
      if |s.page.copies| == 1 {
        assert multiset(r.1) == multiset{r.1[0]};
        g' := LastInvReplyKeeps(s, s', g, w);
      } else {
        g' := InvReplyKeeps(s, s', g, w);
      }
    case ReadAck(h) =>
      g' := ReadAckKeeps(s, s', g, h);
    case WriteAck(w) =>
      g' := WriteAckKeeps(s, s', g, w);
  }

  lemma HostStepKeeps(s: State, g: Ghost, m: Msg) returns (g': Ghost)
    requires Inv(s, g) && Enabled(s, HostGets(m))
    ensures Inv(Apply(s, HostGets(m)), g') && g' == Next(s, g, HostGets(m))
  {
    var s' := Apply(s, HostGets(m));
    var r := OnHost(s.hosts[m.to], m);
    assert r.1 != [] ==> multiset(r.1) == multiset{r.1[0]};
    match m
    case ReadReq(p, h) => g' := HostReadReqKeeps(s, s', g, p, h);
    case WriteReq(p, w) => g' := HostWriteReqKeeps(s, s', g, p, w);
    case InvReq(h, w) => g' := HostInvalidateKeeps(s, s', g, h, w);
    case ReadReply(h, d) => g' := HostReadReplyKeeps(s, s', g, h, d);
    case WriteReply(w, d) => g' := HostWriteReplyKeeps(s, s', g, w, d);
  }

  lemma ReadStepKeeps(s: State, g: Ghost, h: nat) returns (g': Ghost)
    requires Inv(s, g) && Enabled(s, Read(h))
    ensures Inv(Apply(s, Read(h)), g') && g' == Next(s, g, Read(h))
  {
    var s' := Apply(s, Read(h));
    g' := g;
    if s.hosts[h].access == NoAccess {
      assert multiset([RR(h)]) == multiset{RR(h)};
      g' := FaultKeeps(s, s', g, h, ReadFault, RQ, RR(h));
    } else {
      QuietKeeps(s, s', g, h);
    }
  }

  lemma WriteStepKeeps(s: State, g: Ghost, h: nat, e: Edit) returns (g': Ghost)
    requires Inv(s, g) && Enabled(s, Write(h, e))
    ensures Inv(Apply(s, Write(h, e)), g') && g' == Next(s, g, Write(h, e))
  {
    var s' := Apply(s, Write(h, e));
    g' := g;
    if s.hosts[h].access != ReadWrite {
      assert multiset([WR(h)]) == multiset{WR(h)};
      g' := FaultKeeps(s, s', g, h, WriteFault(e), WQ, WR(h));
    } else {
      QuietKeeps(s, s', g, h);
    }
  }

  lemma AckStepKeeps(s: State, g: Ghost, h: nat) returns (g': Ghost)
    requires Inv(s, g) && Enabled(s, Ack(h))
    ensures Inv(Apply(s, Ack(h)), g') && g' == Next(s, g, Ack(h))
  {
    var s' := Apply(s, Ack(h));
    if s.hosts[h].pc.ReadServed? {
      assert multiset([ReadAck(h)]) == multiset{ReadAck(h)};
      g' := AckReadKeeps(s, s', g, h);
    } else {
      assert multiset([WriteAck(h)]) == multiset{WriteAck(h)};
      g' := AckWriteKeeps(s, s', g, h);
    }
  }

  lemma StepKeeps(s: State, g: Ghost, step: Step) returns (g': Ghost)
    requires Inv(s, g) && Enabled(s, step)
    ensures Inv(Apply(s, step), g') && g' == Next(s, g, step)
  {
    g' := g;
    match step
    case Read(h) => g' := ReadStepKeeps(s, g, h);
    case Write(h, e) => g' := WriteStepKeeps(s, g, h, e);
    case Ack(h) => g' := AckStepKeeps(s, g, h);
    case Load(h) => QuietKeeps(s, Apply(s, step), g, h);
    case Store(h) => QuietKeeps(s, Apply(s, step), g, h);
    case ManagerGets(m) => g' := ManagerStepKeeps(s, g, m);
    case HostGets(m) => g' := HostStepKeeps(s, g, m);
  }

  lemma {:induction false} RunInv(n: nat, owner: nat, states: seq<State>, steps: seq<Step>) returns (g: Ghost)
    requires Run(n, owner, states, steps)
    ensures Inv(states[|steps|], g) && |states[|steps|].hosts| == n
    decreases |steps|
  {
    if steps == [] {
      g := InitInv(states[0], n, owner);
    } else {
      var k := |steps| - 1;
      var g0 := RunInv(n, owner, states[..k + 1], steps[..k]);
      assert states[..k + 1][k] == states[k];
      assert Enabled(states[k], steps[k]) && states[k + 1] == Apply(states[k], steps[k]);
      g := StepKeeps(states[k], g0, steps[k]);
    }
  }

  // ---- rights and locks: all runs, guarded or not ----

  /** A host that may write is alone, and when the page lock is free everybody with access is in the copyset. */
  lemma SingleWriter(n: nat, owner: nat, states: seq<State>, steps: seq<Step>, i: nat, j: nat)
    requires Run(n, owner, states, steps) && i < n && j < n && i != j
    ensures |states[|steps|].hosts| == n
    ensures var s := states[|steps|];
            && (s.hosts[i].access == ReadWrite ==> s.hosts[j].access == NoAccess)
            && (!s.page.writer && s.page.readers == 0 && s.hosts[i].access != NoAccess ==> i in s.page.copies)
  {
    var s := states[|steps|];
    var g := RunInv(n, owner, states, steps);
    assert PairInv(s, g, i, j) && HostInv(s, g, i);
  }

  /** The panics of the source are out of reach: a copyset is empty only between the last invalidate reply and
      the WRITE_ACK of the same write, it never holds a host twice, and no lock is released that is not held. */
  lemma NeverPanics(n: nat, owner: nat, states: seq<State>, steps: seq<Step>)
    requires Run(n, owner, states, steps)
    ensures var p := states[|steps|].page;
            && !p.crashed
            && NoDup(p.copies)
            && (p.copies == [] ==> p.writer && p.ledger.forwarded == 1)
            && (p.writer ==> p.readers == 0)
  {
    var g := RunInv(n, owner, states, steps);
  }

  /** One write transaction: as many replies are handled as invalidations were sent; the WRITE_REQUEST goes out
      once, after the last of them, when no host has access any more. */
  lemma WriteTransaction(n: nat, owner: nat, states: seq<State>, steps: seq<Step>, p: nat, w: nat, d: Data)
    requires Run(n, owner, states, steps)
    ensures var s := states[|steps|]; var led := s.page.ledger;
            && (s.page.writer && s.page.copies != [] ==>
                  led.forwarded == 0 && led.sent == led.replied + |s.page.copies|)
            && (s.page.writer && s.page.copies == [] ==> led.forwarded == 1 && led.sent == led.replied)
            && (WriteReq(p, w) in s.net || WriteReply(w, d) in s.net ==>
                  && s.page.writer && s.page.copies == []
                  && s.net[WriteReq(p, w)] + s.net[WriteReply(w, d)] == 1
                  && (forall i | 0 <= i < n :: i < |s.hosts| && s.hosts[i].access == NoAccess))
  {
    var s := states[|steps|];
    var g := RunInv(n, owner, states, steps);
    assert NetInv(s, g, WriteReq(p, w)) && NetInv(s, g, WriteReply(w, d)) && HostInv(s, g, w);
    if WriteReq(p, w) in s.net || WriteReply(w, d) in s.net {
      forall i: nat | i < n ensures s.hosts[i].access == NoAccess {
        assert WriterInv(s, g, i);
      }
    }
  }

  // ---- data ----

  /** Copies that the protocol may hand out or that a thread may look at. */
  ghost predicate Holds(s: State, i: nat)
    requires i < |s.hosts|
  {
    s.hosts[i].access != NoAccess || i in s.page.copies || exists w: nat :: WriteReq(i, w) in s.net
  }

  ghost predicate HostData(s: State, i: nat) {
    i < |s.hosts| && Holds(s, i) ==> s.hosts[i].mem == s.last
  }

  predicate Reply(m: Msg) { m.ReadReply? || m.WriteReply? }

  ghost predicate MsgData(s: State, m: Msg) {
    m in s.net && Reply(m) ==> m.data == s.last
  }

  ghost predicate Coherent(s: State) {
    && (forall i: nat :: HostData(s, i))
    && (forall m :: MsgData(s, m))
  }

  /** Nobody but host `h` holds a copy that the protocol still uses, and no reply is in flight. */
  ghost predicate Alone(s: State, h: nat) {
    && (forall i: nat | i < |s.hosts| && i != h :: !Holds(s, i))
    && (forall m | m in s.net :: !Reply(m))
  }

  /** If the step is a store that changes the value, the storing host is alone. */
  ghost predicate LoneStep(s: State, step: Step)
    requires Enabled(s, step)
  {
    step.Store? && Patch(s.last, s.hosts[step.h].pc.e) != s.last ==> Alone(s, step.h)
  }

  /** A host with the right READ_WRITE is alone. */
  lemma WriterIsAlone(s: State, g: Ghost, h: nat)
    requires Inv(s, g) && h < |s.hosts| && s.hosts[h].access == ReadWrite
    ensures Alone(s, h)
  {
    assert HostInv(s, g, h) && WriterInv(s, g, h);
    forall i: nat | i < |s.hosts| && i != h ensures !Holds(s, i) {
      assert PairInv(s, g, h, i);
      forall w: nat ensures WriteReq(i, w) !in s.net {
        assert NetInv(s, g, WriteReq(i, w)) && HostInv(s, g, w);
      }
    }
    forall m | Reply(m) ensures m !in s.net {
      assert NetInv(s, g, m) && HostInv(s, g, m.to) && PairInv(s, g, h, m.to);
    }
  }

  lemma SameValueKeepsCoherent(s: State, h: nat)
    requires Coherent(s) && Enabled(s, Store(h)) && Patch(s.last, s.hosts[h].pc.e) == s.last
    ensures Coherent(Apply(s, Store(h)))
  {
    var s' := Apply(s, Store(h));
    assert s'.net == s.net;
    forall i: nat ensures HostData(s', i) { assert HostData(s, i); }
    forall m ensures MsgData(s', m) { assert MsgData(s, m); }
  }

  /** A store that changes the value leaves the page coherent exactly when the storing host is alone. */
  lemma StoreIsCoherentIffAlone(s: State, h: nat)
    requires Coherent(s) && Enabled(s, Store(h)) && Patch(s.last, s.hosts[h].pc.e) != s.last
    ensures Coherent(Apply(s, Store(h))) <==> Alone(s, h)
  {
    var s' := Apply(s, Store(h));
    assert s'.net == s.net;
    forall i: nat | i < |s.hosts| ensures Holds(s', i) <==> Holds(s, i) { }
    forall i: nat | i < |s.hosts| && i != h ensures HostData(s', i) <==> !Holds(s, i) { assert HostData(s, i); }
    forall m | m in s.net ensures MsgData(s', m) <==> !Reply(m) { assert MsgData(s, m); }
    assert HostData(s, h) && HostData(s', h);
    if Alone(s, h) {
      forall i: nat ensures HostData(s', i) { assert i < |s.hosts| && i != h ==> !Holds(s, i); }
      forall m ensures MsgData(s', m) { }
    }
  }

  predicate ThreadStep(step: Step) {
    step.Read? || step.Write? || step.Ack? || step.Load?
  }

  lemma ThreadSends(s: State, step: Step, m: Msg)
    requires Enabled(s, step) && ThreadStep(step)
    ensures m in Apply(s, step).net && m !in s.net ==> !Reply(m) && !m.WriteReq?
  {
  }

  lemma ThreadStepKeepsCoherent(s: State, g: Ghost, step: Step)
    requires Inv(s, g) && Coherent(s) && Enabled(s, step) && ThreadStep(step)
    ensures Coherent(Apply(s, step))
  {
    var s' := Apply(s, step);
    forall m ensures MsgData(s', m) && (m.WriteReq? && m in s'.net ==> m in s.net) {
      ThreadSends(s, step, m);
      assert MsgData(s, m);
    }
    forall i: nat ensures HostData(s', i) { assert HostData(s, i); }
  }

  lemma ManagerKeepsHostData(s: State, g: Ghost, m0: Msg, i: nat)
    requires Inv(s, g) && Coherent(s) && Enabled(s, ManagerGets(m0))
    ensures HostData(Apply(s, ManagerGets(m0)), i)
  {
    var s' := Apply(s, ManagerGets(m0));
    var r := OnManager(s.page, m0);
    if m0.InvReply? { InvReplyFacts(s, g, m0.from); }
    assert NetInv(s, g, m0);
    if m0.ReadAck? || m0.WriteAck? {
      assert HostInv(s, g, m0.from) && WriterInv(s, g, m0.from);
    }
    forall m | m in s'.net ensures m in s.net || m in r.1 { }
    assert HostData(s, i);
    if i < |s.hosts| && Holds(s', i) && !Holds(s, i) {
      assert m0.ReadAck? || m0.WriteAck? || m0.InvReply?;
    }
  }

  lemma ManagerKeepsMsgData(s: State, g: Ghost, m0: Msg, m: Msg)
    requires Inv(s, g) && Coherent(s) && Enabled(s, ManagerGets(m0))
    ensures MsgData(Apply(s, ManagerGets(m0)), m)
  {
    var s' := Apply(s, ManagerGets(m0));
    var r := OnManager(s.page, m0);
    assert m in s'.net ==> m in s.net || m in r.1;
    assert MsgData(s, m);
  }

  lemma ManagerStepKeepsCoherent(s: State, g: Ghost, m0: Msg)
    requires Inv(s, g) && Coherent(s) && Enabled(s, ManagerGets(m0))
    ensures Coherent(Apply(s, ManagerGets(m0)))
  {
    var s' := Apply(s, ManagerGets(m0));
    forall m ensures MsgData(s', m) { ManagerKeepsMsgData(s, g, m0, m); }
    forall i: nat ensures HostData(s', i) { ManagerKeepsHostData(s, g, m0, i); }
  }

  lemma HostKeepsMsgData(s: State, g: Ghost, m0: Msg, m: Msg)
    requires Inv(s, g) && Coherent(s) && Enabled(s, HostGets(m0))
    ensures MsgData(Apply(s, HostGets(m0)), m)
    ensures m in Apply(s, HostGets(m0)).net && m.WriteReq? ==> m in s.net
  {
    var s' := Apply(s, HostGets(m0));
    var r := OnHost(s.hosts[m0.to], m0);
    assert NetInv(s, g, m0) && MsgData(s, m) && HostData(s, m0.to);
    if m0.ReadReq? { assert HostInv(s, g, m0.from); }
    assert m in s'.net ==> m in s.net || m in r.1;
  }

  lemma HostStepKeepsCoherent(s: State, g: Ghost, m0: Msg)
    requires Inv(s, g) && Coherent(s) && Enabled(s, HostGets(m0))
    ensures Coherent(Apply(s, HostGets(m0)))
  {
    var s' := Apply(s, HostGets(m0));
    assert MsgData(s, m0);
    forall m ensures MsgData(s', m) && (m in s'.net && m.WriteReq? ==> m in s.net) { HostKeepsMsgData(s, g, m0, m); }
    forall i: nat ensures HostData(s', i) { assert HostData(s, i); }
  }

  /** Of all steps only a store can spoil the data, and only one that changes the value and is not alone. */
  lemma StepCoherentIffLone(s: State, g: Ghost, step: Step)
    requires Inv(s, g) && Coherent(s) && Enabled(s, step)
    ensures Coherent(Apply(s, step)) <==> LoneStep(s, step)
  {
    match step
    case Store(h) =>
      if Patch(s.last, s.hosts[h].pc.e) == s.last {
        SameValueKeepsCoherent(s, h);
      } else {
        StoreIsCoherentIffAlone(s, h);
      }
    case ManagerGets(m) => ManagerStepKeepsCoherent(s, g, m);
    case HostGets(m) => HostStepKeepsCoherent(s, g, m);
    case _ => ThreadStepKeepsCoherent(s, g, step);
  }

  ghost predicate LoneAt(states: seq<State>, steps: seq<Step>, k: nat) {
    k < |steps| && k < |states| && Enabled(states[k], steps[k]) ==> LoneStep(states[k], steps[k])
  }

  lemma StateAt(n: nat, owner: nat, states: seq<State>, steps: seq<Step>, k: nat) returns (g: Ghost)
    requires Run(n, owner, states, steps) && k <= |steps|
    ensures Inv(states[k], g) && |states[k].hosts| == n
    ensures k < |steps| ==> Enabled(states[k], steps[k]) && states[k + 1] == Apply(states[k], steps[k])
  {
    g := RunInv(n, owner, states[..k + 1], steps[..k]);
    assert states[..k + 1][k] == states[k];
  }

  lemma {:induction false} LoneIsCoherent(n: nat, owner: nat, states: seq<State>, steps: seq<Step>, k: nat)
    requires Run(n, owner, states, steps) && k <= |steps|
    requires forall j: nat | j < k :: LoneAt(states, steps, j)
    ensures Coherent(states[k])
  {
    if k == 0 {
      var s := states[0];
      forall i: nat ensures HostData(s, i) { }
    } else {
      LoneIsCoherent(n, owner, states, steps, k - 1);
      var g := StateAt(n, owner, states, steps, k - 1);
      assert LoneAt(states, steps, k - 1);
      StepCoherentIffLone(states[k - 1], g, steps[k - 1]);
    }
  }

  /** A run is coherent throughout exactly when every store that changes the value is made alone. */
  lemma CoherentIffStoresAlone(n: nat, owner: nat, states: seq<State>, steps: seq<Step>)
    requires Run(n, owner, states, steps)
    ensures (forall k | 0 <= k <= |steps| :: Coherent(states[k]))
       <==> (forall k: nat | k < |steps| :: LoneAt(states, steps, k))
  {
    if forall k: nat | k < |steps| :: LoneAt(states, steps, k) {
      forall k | 0 <= k <= |steps| ensures Coherent(states[k]) {
        LoneIsCoherent(n, owner, states, steps, k);
      }
    }
    if forall k | 0 <= k <= |steps| :: Coherent(states[k]) {
      forall k: nat | k < |steps| ensures LoneAt(states, steps, k) {
        var g := StateAt(n, owner, states, steps, k);
        assert Coherent(states[k + 1]);
        StepCoherentIffLone(states[k], g, steps[k]);
      }
    }
  }

  /** Stores made with the right READ_WRITE are made alone. */
  lemma GuardedStoresAreAlone(n: nat, owner: nat, states: seq<State>, steps: seq<Step>, k: nat)
    requires Run(n, owner, states, steps) && k < |steps| && GuardedStep(states[k], steps[k])
    ensures LoneAt(states, steps, k)
  {
    var g := StateAt(n, owner, states, steps, k);
    if steps[k].Store? {
      WriterIsAlone(states[k], g, steps[k].h);
    }
  }

  /** In every run whose stores are made alone, under any reordering of messages: every host with access sees the last
      store, so does every member of the copyset whenever the page lock is free or shared, and every reply carries it.
      */
  lemma DataCoherence(n: nat, owner: nat, states: seq<State>, steps: seq<Step>)
    requires Run(n, owner, states, steps) && forall k: nat | k < |steps| :: LoneAt(states, steps, k)
    ensures var s := states[|steps|];
            && (forall i | 0 <= i < |s.hosts| && s.hosts[i].access != NoAccess :: s.hosts[i].mem == s.last)
            && (!s.page.writer ==> s.page.copies != [])
            && (!s.page.writer ==> forall c | c in s.page.copies :: c < |s.hosts| && s.hosts[c].mem == s.last)
            && (forall m | m in s.net && Reply(m) :: m.data == s.last)
  {
    var s := states[|steps|];
    var g := RunInv(n, owner, states, steps);
    LoneIsCoherent(n, owner, states, steps, |steps|);
    forall i: nat | i < |s.hosts| && Holds(s, i) ensures s.hosts[i].mem == s.last { assert HostData(s, i); }
    forall m | m in s.net && Reply(m) ensures m.data == s.last { assert MsgData(s, m); }
  }

  // ---- a run that is not guarded ----

  ghost predicate Reachable(s: State) {
    exists states: seq<State>, steps: seq<Step> :: Run(2, 0, states, steps) && states[|steps|] == s
  }

  lemma Extend(s: State, step: Step, s': State)
    requires Reachable(s) && Enabled(s, step) && s' == Apply(s, step)
    ensures Reachable(s')
  {
    var states: seq<State>, steps: seq<Step> :| Run(2, 0, states, steps) && states[|steps|] == s;
    var states', steps' := states + [s'], steps + [step];
    forall k | 0 <= k < |steps'|
      ensures Enabled(states'[k], steps'[k]) && states'[k + 1] == Apply(states'[k], steps'[k])
    {
      if k < |steps| {
        assert Enabled(states[k], steps[k]) && states[k + 1] == Apply(states[k], steps[k]);
      }
    }
    assert Run(2, 0, states', steps') && states'[|steps'|] == s';
  }

  function Two(page: Page, h0: HostPage, h1: HostPage, net: seq<Msg>, last: Data): State {
    State(page, [h0, h1], multiset(net), last)
  }

  /** The one message in flight reaches the manager. */
  lemma ToManager(page: Page, h0: HostPage, h1: HostPage, m: Msg, r: ManagerResult, last: Data)
    requires Reachable(Two(page, h0, h1, [m], last)) && ManagerReady(page, m) && r == OnManager(page, m)
    ensures Reachable(Two(r.0, h0, h1, r.1, last))
  {
    var s, s' := Two(page, h0, h1, [m], last), Two(r.0, h0, h1, r.1, last);
    assert s.net - multiset{m} + multiset(r.1) == s'.net;
    Extend(s, ManagerGets(m), s');
  }

  /** The one message in flight reaches host `m.to`. */
  lemma ToHost(page: Page, h0: HostPage, h1: HostPage, m: Msg, r: HostResult, last: Data)
    requires Reachable(Two(page, h0, h1, [m], last)) && ForHost(m, 2)
    requires r == OnHost(if m.to == 0 then h0 else h1, m)
    ensures m.to == 0 ==> Reachable(Two(page, r.0, h1, r.1, last))
    ensures m.to == 1 ==> Reachable(Two(page, h0, r.0, r.1, last))
  {
    var s := Two(page, h0, h1, [m], last);
    var s' := if m.to == 0 then Two(page, r.0, h1, r.1, last) else Two(page, h0, r.0, r.1, last);
    assert s.net - multiset{m} + multiset(r.1) == s'.net;
    assert s'.hosts == s.hosts[m.to := r.0];
    Extend(s, HostGets(m), s');
  }

  /** With nothing in flight, the application thread of host `h` moves. */
  lemma Thread(page: Page, h0: HostPage, h1: HostPage, step: Step, r: HostResult, last: Data)
    requires Reachable(Two(page, h0, h1, [], last)) && (step.Read? || step.Write? || step.Ack?)
    requires step.h < 2 && Enabled(Two(page, h0, h1, [], last), step)
    requires var h := if step.h == 0 then h0 else h1;
             r == match step case Read(i) => BeginRead(h, i) case Write(i, e) => BeginWrite(h, i, e)
                  case Ack(i) => Acknowledge(h, i)
    ensures step.h == 0 ==> Reachable(Two(page, r.0, h1, r.1, last))
    ensures step.h == 1 ==> Reachable(Two(page, h0, r.0, r.1, last))
  {
    var s := Two(page, h0, h1, [], last);
    var s' := if step.h == 0 then Two(page, r.0, h1, r.1, last) else Two(page, h0, r.0, r.1, last);
    assert s.net + multiset(r.1) == s'.net;
    assert s'.hosts == s.hosts[step.h := r.0];
    Extend(s, step, s');
  }

  const OLD: Data := [0]
  const NEW: Data := [1]
  const EDIT: Edit := Edit(0, 1)
  const IDLE: HostPage := HostPage(NoAccess, OLD, Running)
  const WANTS: HostPage := HostPage(NoAccess, OLD, WriteFault(EDIT))
  const LATE: HostPage := HostPage(ReadOnly, OLD, Storing(EDIT))
  const FREE: Page := Page(0, false, [0], false, Ledger(1, 1, 1))
  const EMPTY: Page := Page(0, true, [], false, Ledger(1, 1, 1))

  /** Host 0 faults on a write and its own copy is invalidated. */
  lemma WriteRequested()
    ensures Reachable(Two(Page(0, true, [0], false, Ledger(1, 0, 0)), WANTS, IDLE, [InvReq(0, 0)], OLD))
  {
    var start := Page(0, false, [0], false, Ledger(0, 0, 0));
    var s0 := Two(start, IDLE, IDLE, [], OLD);
    var none: seq<Step> := [];
    assert Run(2, 0, [s0], none) && [s0][|none|] == s0;
    Thread(start, IDLE, IDLE, Write(0, EDIT), (WANTS, [WR(0)]), OLD);
    assert Invalidations([0], 0) == [InvReq(0, 0)];
    ToManager(start, WANTS, IDLE, WR(0), (Page(0, true, [0], false, Ledger(1, 0, 0)), [InvReq(0, 0)]), OLD);
  }

  lemma WriteForwarded()
    ensures Reachable(Two(EMPTY, WANTS, IDLE, [WriteReq(0, 0)], OLD))
  {
    WriteRequested();
    var locked := Page(0, true, [0], false, Ledger(1, 0, 0));
    ToHost(locked, WANTS, IDLE, InvReq(0, 0), (WANTS, [InvReply(0)]), OLD);
    ToManager(locked, WANTS, IDLE, InvReply(0), (EMPTY, [WriteReq(0, 0)]), OLD);
  }

  lemma WriteServed0()
    ensures Reachable(Two(EMPTY, HostPage(ReadWrite, OLD, WriteServed(EDIT)), IDLE, [], OLD))
  {
    WriteForwarded();
    ToHost(EMPTY, WANTS, IDLE, WriteReq(0, 0), (WANTS, [WriteReply(0, OLD)]), OLD);
    ToHost(EMPTY, WANTS, IDLE, WriteReply(0, OLD), (HostPage(ReadWrite, OLD, WriteServed(EDIT)), []), OLD);
  }

  /** Host 0 has acknowledged; only its store is still to come. */
  lemma WriteAcknowledged()
    ensures Reachable(Two(FREE, HostPage(ReadWrite, OLD, Storing(EDIT)), IDLE, [], OLD))
  {
    WriteServed0();
    var served, storing := HostPage(ReadWrite, OLD, WriteServed(EDIT)), HostPage(ReadWrite, OLD, Storing(EDIT));
    Thread(EMPTY, served, IDLE, Ack(0), (storing, [WriteAck(0)]), OLD);
    assert AddCopy([], 0) == [0];
    ToManager(EMPTY, storing, IDLE, WriteAck(0), (FREE, []), OLD);
  }

  /** Before host 0 stores, host 1 faults on a read. */
  lemma ReaderForwarded()
    ensures Reachable(Two(FREE.(readers := 1), HostPage(ReadWrite, OLD, Storing(EDIT)),
                          HostPage(NoAccess, OLD, ReadFault), [ReadReq(0, 1)], OLD))
  {
    WriteAcknowledged();
    var storing, faulting := HostPage(ReadWrite, OLD, Storing(EDIT)), HostPage(NoAccess, OLD, ReadFault);
    Thread(FREE, storing, IDLE, Read(1), (faulting, [RR(1)]), OLD);
    ToManager(FREE, storing, faulting, RR(1), (FREE.(readers := 1), [ReadReq(0, 1)]), OLD);
  }

  lemma ReaderAnswered()
    ensures Reachable(Two(FREE.(readers := 1), LATE, HostPage(ReadOnly, OLD, ReadServed), [], OLD))
  {
    ReaderForwarded();
    var storing, faulting := HostPage(ReadWrite, OLD, Storing(EDIT)), HostPage(NoAccess, OLD, ReadFault);
    var shared := FREE.(readers := 1);
    ToHost(shared, storing, faulting, ReadReq(0, 1), (LATE, [ReadReply(1, OLD)]), OLD);
    ToHost(shared, LATE, faulting, ReadReply(1, OLD), (HostPage(ReadOnly, OLD, ReadServed), []), OLD);
  }

  lemma ReaderServed()
    ensures Reachable(Two(FREE.(copies := [0, 1]), LATE, HostPage(ReadOnly, OLD, Loading), [], OLD))
  {
    ReaderAnswered();
    var shared, loading := FREE.(readers := 1), HostPage(ReadOnly, OLD, Loading);
    Thread(shared, LATE, HostPage(ReadOnly, OLD, ReadServed), Ack(1), (loading, [ReadAck(1)]), OLD);
    assert AddCopy([0], 1) == [0, 1];
    ToManager(shared, LATE, loading, ReadAck(1), (FREE.(copies := [0, 1]), []), OLD);
  }

  /** Without the guard coherence fails: host 0 acknowledges, host 1 reads and is served the old bytes, then host 0
      stores.  The page lock is free, host 1 may read, and what it sees is not the last store. */
  lemma UnguardedStoreIsLost() returns (s: State)
    ensures Reachable(s)
    ensures |s.hosts| == 2 && !s.page.writer && s.page.readers == 0
    ensures s.hosts[1].access == ReadOnly && 1 in s.page.copies && s.hosts[1].mem != s.last
  {
    ReaderServed();
    var s14 := Two(FREE.(copies := [0, 1]), LATE, HostPage(ReadOnly, OLD, Loading), [], OLD);
    s := Two(FREE.(copies := [0, 1]), HostPage(ReadOnly, NEW, Running), HostPage(ReadOnly, OLD, Loading), [], NEW);
    assert s.hosts == s14.hosts[0 := HostPage(ReadOnly, NEW, Running)];
    assert Patch(OLD, EDIT) == NEW;
    Extend(s14, Store(0), s);
  }
}
