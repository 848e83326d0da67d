/** What holds in every reachable state of one virtual page.

    A `Ghost` says at which stage each host's transaction is; the messages in flight are then exactly the ones
    `Expect` lists, so every message that arrives tells the stage of its transaction. */
module CoherenceInvariant {
  import opened Wrappers
  import opened Coherence

  /** Stages of a fault: queued at the manager (RQ, WQ), forwarded (RF, WF), answered (RA, WA), served but not
      acknowledged (RG, WG); a write is in WInv while copies are being invalidated. */
  datatype Txn = Idle | RQ | RF(p: nat) | RA(d: Data) | RG | WQ | WInv | WF(p: nat) | WA(d: Data) | WG

  /** `rd`: hosts whose read holds the read lock; `rack`: those whose READ_ACK is in flight; `writer`: the host
      whose write holds the lock; `wack`: its WRITE_ACK is in flight; `inv`: hosts still to be invalidated;
      `done`: invalidate replies in flight. */
  datatype Ghost = Ghost(
    txn: seq<Txn>, rd: set<nat>, rack: set<nat>, writer: Option<nat>, wack: bool, inv: set<nat>, done: nat)

  predicate Stage(g: Ghost, i: nat, t: Txn) {
    i < |g.txn| && g.txn[i] == t
  }

  function One(b: bool): nat { if b then 1 else 0 }

  /** How often each message is in flight. */
  function Expect(g: Ghost, m: Msg): nat {
    match m
    case RR(r) => One(Stage(g, r, RQ))
    case WR(w) => One(Stage(g, w, WQ))
    case ReadReq(p, r) => One(Stage(g, r, RF(p)))
    case WriteReq(p, w) => One(Stage(g, w, WF(p)))
    case ReadReply(r, d) => One(Stage(g, r, RA(d)))
    case WriteReply(w, d) => One(Stage(g, w, WA(d)))
    case InvReq(h, w) => One(g.writer == Some(w) && h in g.inv)
    case InvReply(w) => if g.writer == Some(w) then g.done else 0
    case ReadAck(r) => One(r in g.rack)
    case WriteAck(w) => One(g.writer == Some(w) && g.wack)
  }

  ghost predicate NetInv(s: State, g: Ghost, m: Msg) {
    s.net[m] == Expect(g, m)
  }

  predicate PcFits(pc: Pc, t: Txn) {
    match t
    case Idle => pc.Running? || pc.Loading? || pc.Storing?
    case RQ => pc.ReadFault?
    case RF(_) => pc.ReadFault?
    case RA(_) => pc.ReadFault?
    case RG => pc.ReadServed?
    case WG => pc.WriteServed?
    case _ => pc.WriteFault?
  }

  predicate Writing(t: Txn) { t.WInv? || t.WF? || t.WA? || t.WG? }

  predicate Reading(t: Txn) { t.RF? || t.RA? || t.RG? }

  ghost predicate HostInv(s: State, g: Ghost, i: nat) {
    i < |s.hosts| && i < |g.txn| ==>
      var h, t := s.hosts[i], g.txn[i];
      && PcFits(h.pc, t)
      && (t.RQ? || t.RF? || t.RA? ==> h.access == NoAccess)
      && (t.RG? ==> h.access == ReadOnly)
      && (t.RF? ==> t.p in s.page.copies)
      && (t.WF? ==> t.p < |s.hosts|)
      && (i in g.rd <==> Reading(t) || i in g.rack)
      && (i in g.rack ==> h.access == ReadOnly && (t.Idle? || t.WQ?))
      && (Writing(t) ==> g.writer == Some(i))
      && (h.access != NoAccess ==> i in s.page.copies || i in g.rd || g.writer.Some?)
      && (h.access == ReadWrite ==> s.page.copies == [i] || (g.writer == Some(i) && s.page.copies == []))
  }

  /** How the stage of the writing host shows at every other host. */
  ghost predicate WriterInv(s: State, g: Ghost, i: nat) {
    i < |s.hosts| == |g.txn| && g.writer.Some? && g.writer.value < |g.txn| ==>
      var t, h := g.txn[g.writer.value], s.hosts[i];
      && (t.WInv? && h.access != NoAccess ==> i in g.inv)
      && (t.WF? || t.WA? ==> h.access == NoAccess)
      && ((t.WG? || t.Idle?) && i == g.writer.value ==> h.access == ReadWrite)
  }

  /** One writer or many readers, and no read is being served while somebody can write. */
  ghost predicate PairInv(s: State, g: Ghost, i: nat, j: nat) {
    i < |s.hosts| == |g.txn| && j < |s.hosts| && i != j && s.hosts[i].access == ReadWrite ==>
      s.hosts[j].access == NoAccess && !g.txn[j].RA?
  }

  ghost predicate NoDup(copies: seq<nat>) {
    forall i, j | 0 <= i < j < |copies| :: copies[i] != copies[j]
  }

  ghost predicate Invalidating(p: Page, g: Ghost) {
    |p.copies| == |g.inv| + g.done && p.copies != []
    && p.ledger.sent == p.ledger.replied + |p.copies| && p.ledger.forwarded == 0
  }

  ghost predicate Between(p: Page, g: Ghost) {
    p.copies == [] && g.inv == {} && g.done == 0
    && p.ledger.replied == p.ledger.sent && p.ledger.forwarded == 1
  }

  ghost predicate PageInv(s: State, g: Ghost) {
    var p := s.page;
    && |g.txn| == |s.hosts|
    && !p.crashed
    && p.readers == |g.rd|
    && (p.writer <==> g.writer.Some?)
    && NoDup(p.copies)
    && (forall c | c in p.copies :: c < |s.hosts|)
    && (forall c | c in g.rd || c in g.inv || c in g.rack :: c < |s.hosts|)
    && (g.writer.None? ==> g.inv == {} && g.done == 0 && !g.wack && p.copies != [])
    && (g.writer.Some? ==>
          && g.writer.value < |g.txn| && g.rd == {}
          && var t := g.txn[g.writer.value];
          && (t.WInv? || t.WF? || t.WA? || t.WG? || t.Idle?)
          && (g.wack <==> t.Idle?)
          && (if t.WInv? then Invalidating(p, g) else Between(p, g)))
  }

  ghost predicate Inv(s: State, g: Ghost) {
    && PageInv(s, g)
    && (forall m :: NetInv(s, g, m))
    && (forall i: nat :: HostInv(s, g, i))
    && (forall i: nat :: WriterInv(s, g, i))
    && (forall i: nat, j: nat :: PairInv(s, g, i, j))
  }

  ghost function WithTxn(g: Ghost, i: nat, t: Txn): Ghost {
    if i < |g.txn| then g.(txn := g.txn[i := t]) else g
  }

  function First(copies: seq<nat>): nat { if copies == [] then 0 else copies[0] }

  ghost function SetOf(copies: seq<nat>): set<nat> {
    set c | c in copies
  }

  /** How the stages move on with a step. */
  ghost function Next(s: State, g: Ghost, step: Step): Ghost {
    match step
    case Read(h) => if h < |s.hosts| && s.hosts[h].access == NoAccess then WithTxn(g, h, RQ) else g
    case Write(h, _) => if h < |s.hosts| && s.hosts[h].access != ReadWrite then WithTxn(g, h, WQ) else g
    case Ack(h) =>
      if h < |s.hosts| && s.hosts[h].pc.ReadServed? then WithTxn(g, h, Idle).(rack := g.rack + {h})
      else WithTxn(g, h, Idle).(wack := true)
    case Load(_) => g
    case Store(_) => g
    case ManagerGets(m) => NextAtManager(s.page.copies, g, m)
    case HostGets(m) => NextAtHost(s, g, m)
  }

  ghost function NextAtManager(copies: seq<nat>, g: Ghost, m: Msg): Ghost {
    match m
    case RR(r) => WithTxn(g, r, RF(First(copies))).(rd := g.rd + {r})
    case WR(w) => WithTxn(g, w, WInv).(writer := Some(w), inv := SetOf(copies), done := 0)
    case InvReply(w) =>
      if |copies| == 1 then WithTxn(g, w, WF(First(copies))).(done := 0)
      else g.(done := if g.done > 0 then g.done - 1 else 0)
    case ReadAck(r) => g.(rd := g.rd - {r}, rack := g.rack - {r})
    case WriteAck(w) => g.(writer := None, wack := false)
    case _ => g
  }

  ghost function NextAtHost(s: State, g: Ghost, m: Msg): Ghost {
    match m
    case ReadReq(p, r) => if p < |s.hosts| then WithTxn(g, r, RA(s.hosts[p].mem)) else g
    case WriteReq(p, w) => if p < |s.hosts| then WithTxn(g, w, WA(s.hosts[p].mem)) else g
    case InvReq(h, _) => g.(inv := g.inv - {h}, done := g.done + 1)
    case ReadReply(r, _) => WithTxn(g, r, RG)
    case WriteReply(w, _) => WithTxn(g, w, WG)
    case _ => g
  }

  lemma InitInv(s: State, n: nat, owner: nat) returns (g: Ghost)
    requires Init(s, n, owner)
    ensures Inv(s, g)
  {
    g := Ghost(seq(n, _ => Idle), {}, {}, None, false, {}, 0);
  }

  // ---- the application threads ----

  /** Only the application thread's own position changes. */
  lemma QuietKeeps(s: State, s': State, g: Ghost, h: nat)
    requires Inv(s, g) && h < |s.hosts| == |s'.hosts| && s'.page == s.page && s'.net == s.net
    requires forall i: nat | i < |s.hosts| :: s'.hosts[i].access == s.hosts[i].access
    requires forall i: nat | i < |s.hosts| && i != h :: s'.hosts[i].pc == s.hosts[i].pc
    requires (s.hosts[h].pc.Running? || s.hosts[h].pc.Loading? || s.hosts[h].pc.Storing?)
    requires (s'.hosts[h].pc.Running? || s'.hosts[h].pc.Loading? || s'.hosts[h].pc.Storing?)
    ensures Inv(s', g)
  {
    assert HostInv(s, g, h);
    forall m ensures NetInv(s', g, m) { assert NetInv(s, g, m); }
    forall i: nat ensures HostInv(s', g, i) { assert HostInv(s, g, i); }
    forall i: nat ensures WriterInv(s', g, i) { assert WriterInv(s, g, i); }
    forall i: nat, j: nat ensures PairInv(s', g, i, j) { assert PairInv(s, g, i, j); }
  }

  /** A fault blocks the thread and queues a request. */
  lemma FaultKeepsNet(s: State, s': State, g: Ghost, h: nat, t: Txn, m0: Msg, m: Msg)
    requires Inv(s, g) && h < |s.hosts| && s.hosts[h].pc.Running? && h < |g.txn|
    requires (t.RQ? && m0 == RR(h)) || (t.WQ? && m0 == WR(h))
    requires s'.net == s.net + multiset{m0}
    ensures NetInv(s', g.(txn := g.txn[h := t]), m)
  {
    assert HostInv(s, g, h) && NetInv(s, g, m);
  }

  lemma FaultKeeps(s: State, s': State, g: Ghost, h: nat, pc: Pc, t: Txn, m0: Msg) returns (g': Ghost)
    requires Inv(s, g) && h < |s.hosts| && s.hosts[h].pc.Running?
    requires (t.RQ? && pc.ReadFault? && m0 == RR(h) && s.hosts[h].access == NoAccess)
          || (t.WQ? && pc.WriteFault? && m0 == WR(h) && s.hosts[h].access != ReadWrite)
    requires s' == s.(hosts := s.hosts[h := s.hosts[h].(pc := pc)], net := s.net + multiset{m0})
    ensures Inv(s', g') && g' == WithTxn(g, h, t)
  {
    assert HostInv(s, g, h) && WriterInv(s, g, h);
    g' := g.(txn := g.txn[h := t]);
    forall m ensures NetInv(s', g', m) { FaultKeepsNet(s, s', g, h, t, m0, m); }
    forall i: nat ensures HostInv(s', g', i) && WriterInv(s', g', i) {
      assert HostInv(s, g, i) && WriterInv(s, g, i);
    }
    forall i: nat, j: nat ensures PairInv(s', g', i, j) { assert PairInv(s, g, i, j); }
  }

  lemma AckReadKeeps(s: State, s': State, g: Ghost, h: nat) returns (g': Ghost)
    requires Inv(s, g) && h < |s.hosts| && s.hosts[h].pc.ReadServed?
    requires s' == s.(hosts := s.hosts[h := s.hosts[h].(pc := Loading)], net := s.net + multiset{ReadAck(h)})
    ensures Inv(s', g') && g' == Next(s, g, Ack(h))
  {
    assert HostInv(s, g, h) && WriterInv(s, g, h);
    g' := g.(txn := g.txn[h := Idle], rack := g.rack + {h});
    forall m ensures NetInv(s', g', m) { assert NetInv(s, g, m); }
    forall i: nat ensures HostInv(s', g', i) { assert HostInv(s, g, i); }
    forall i: nat ensures WriterInv(s', g', i) { assert WriterInv(s, g, i); }
    forall i: nat, j: nat ensures PairInv(s', g', i, j) { assert PairInv(s, g, i, j); }
  }

  lemma AckWriteKeeps(s: State, s': State, g: Ghost, h: nat) returns (g': Ghost)
    requires Inv(s, g) && h < |s.hosts| && s.hosts[h].pc.WriteServed?
    requires s' == s.(hosts := s.hosts[h := s.hosts[h].(pc := Storing(s.hosts[h].pc.e))],
                      net := s.net + multiset{WriteAck(h)})
    ensures Inv(s', g') && g' == Next(s, g, Ack(h))
  {
    assert HostInv(s, g, h) && WriterInv(s, g, h);
    g' := g.(txn := g.txn[h := Idle], wack := true);
    forall m ensures NetInv(s', g', m) { assert NetInv(s, g, m); }
    forall i: nat ensures HostInv(s', g', i) { assert HostInv(s, g, i); }
    forall i: nat ensures WriterInv(s', g', i) { assert WriterInv(s, g, i); }
    forall i: nat, j: nat ensures PairInv(s', g', i, j) { assert PairInv(s, g, i, j); }
  }

  // ---- the manager ----

  lemma ReadReqNet(s: State, s': State, g: Ghost, r: nat, m: Msg)
    requires Inv(s, g) && RR(r) in s.net && !s.page.writer && s.page.copies != [] && r < |g.txn|
    requires s'.net == s.net - multiset{RR(r)} + multiset{ReadReq(s.page.copies[0], r)}
    ensures NetInv(s', g.(txn := g.txn[r := RF(s.page.copies[0])], rd := g.rd + {r}), m)
  {
    assert NetInv(s, g, RR(r)) && HostInv(s, g, r) && NetInv(s, g, m);
  }

  lemma ReadReqKeeps(s: State, s': State, g: Ghost, r: nat) returns (g': Ghost)
    requires Inv(s, g) && RR(r) in s.net && !s.page.writer
    requires s.page.copies != [] ==>
      s' == s.(page := s.page.(readers := s.page.readers + 1),
               net := s.net - multiset{RR(r)} + multiset{ReadReq(s.page.copies[0], r)})
    ensures s.page.copies != []
    ensures Inv(s', g') && g' == NextAtManager(s.page.copies, g, RR(r))
  {
    assert NetInv(s, g, RR(r)) && HostInv(s, g, r);
    g' := g.(txn := g.txn[r := RF(s.page.copies[0])], rd := g.rd + {r});
    forall m ensures NetInv(s', g', m) { ReadReqNet(s, s', g, r, m); }
    forall i: nat ensures HostInv(s', g', i) { assert HostInv(s, g, i); }
    forall i: nat ensures WriterInv(s', g', i) { assert WriterInv(s, g, i); }
    forall i: nat, j: nat ensures PairInv(s', g', i, j) { assert PairInv(s, g, i, j); }
  }

  lemma {:induction false} NoDupSize(copies: seq<nat>)
    requires NoDup(copies)
    ensures |SetOf(copies)| == |copies|
  {
    if copies != [] {
      NoDupSize(copies[1..]);
      assert SetOf(copies) == {copies[0]} + SetOf(copies[1..]);
      assert copies[0] !in copies[1..];
    }
  }

  lemma {:induction false} InvalidationsOnce(copies: seq<nat>, w: nat, m: Msg)
    requires NoDup(copies)
    ensures multiset(Invalidations(copies, w))[m] == One(m.InvReq? && m.from == w && m.to in copies)
  {
    var msgs := Invalidations(copies, w);
    if copies == [] {
      assert msgs == [];
    } else {
      InvalidationsOnce(copies[1..], w, m);
      assert msgs == [InvReq(copies[0], w)] + Invalidations(copies[1..], w);
      assert multiset(msgs) == multiset{InvReq(copies[0], w)} + multiset(Invalidations(copies[1..], w));
      assert copies[0] !in copies[1..];
    }
  }

  lemma WriteReqKeeps(s: State, s': State, g: Ghost, w: nat) returns (g': Ghost)
    requires Inv(s, g) && WR(w) in s.net && !s.page.writer && s.page.readers == 0
    requires s.page.copies != [] ==>
      s' == s.(page := s.page.(writer := true, ledger := Ledger(|s.page.copies|, 0, 0)),
               net := s.net - multiset{WR(w)} + multiset(Invalidations(s.page.copies, w)))
    ensures s.page.copies != []
    ensures Inv(s', g') && g' == NextAtManager(s.page.copies, g, WR(w))
  {
    assert NetInv(s, g, WR(w)) && HostInv(s, g, w);
    assert g.rd == {};
    NoDupSize(s.page.copies);
    g' := g.(txn := g.txn[w := WInv], writer := Some(w), inv := SetOf(s.page.copies), done := 0);
    forall m ensures NetInv(s', g', m) {
      assert NetInv(s, g, m);
      InvalidationsOnce(s.page.copies, w, m);
    }
    forall i: nat ensures HostInv(s', g', i) && WriterInv(s', g', i) { assert HostInv(s, g, i); }
    forall i: nat, j: nat ensures PairInv(s', g', i, j) { assert PairInv(s, g, i, j); }
  }

  /** An invalidate reply always belongs to the write that holds the lock, and finds a copyset to count down. */
  lemma InvReplyFacts(s: State, g: Ghost, w: nat)
    requires Inv(s, g) && InvReply(w) in s.net
    ensures g.writer == Some(w) && w < |g.txn| && g.txn[w].WInv? && g.done > 0 && s.page.copies != []
    ensures |s.page.copies| == 1 ==> g.inv == {} && g.done == 1
  {
    assert NetInv(s, g, InvReply(w));
  }

  /** The last invalidate reply of a write: the copyset is emptied and the request goes to its last member. */
  ghost predicate LastReplied(s: State, s': State, w: nat) {
    && InvReply(w) in s.net && |s.page.copies| == 1
    && var led := s.page.ledger;
       s' == s.(page := s.page.(copies := [], ledger := Ledger(led.sent, led.replied + 1, led.forwarded + 1)),
                net := s.net - multiset{InvReply(w)} + multiset{WriteReq(s.page.copies[0], w)})
  }

  lemma LastInvReplyNet(s: State, s': State, g: Ghost, w: nat, m: Msg)
    requires Inv(s, g) && LastReplied(s, s', w) && w < |g.txn|
    ensures NetInv(s', g.(txn := g.txn[w := WF(s.page.copies[0])], done := 0), m)
  {
    InvReplyFacts(s, g, w);
    assert HostInv(s, g, w) && s.page.copies[0] in s.page.copies;
    assert NetInv(s, g, m);
  }

  lemma LastInvReplyKeeps(s: State, s': State, g: Ghost, w: nat) returns (g': Ghost)
    requires Inv(s, g) && LastReplied(s, s', w)
    ensures Inv(s', g') && g' == NextAtManager(s.page.copies, g, InvReply(w))
  {
    InvReplyFacts(s, g, w);
    assert HostInv(s, g, w);
    assert s.page.copies[0] in s.page.copies;
    g' := g.(txn := g.txn[w := WF(s.page.copies[0])], done := 0);
    forall m ensures NetInv(s', g', m) { LastInvReplyNet(s, s', g, w, m); }
    forall i: nat ensures HostInv(s', g', i) && WriterInv(s', g', i) {
      assert HostInv(s, g, i) && WriterInv(s, g, i);
    }
    forall i: nat, j: nat ensures PairInv(s', g', i, j) { assert PairInv(s, g, i, j); }
  }

  lemma InvReplyKeeps(s: State, s': State, g: Ghost, w: nat) returns (g': Ghost)
    requires Inv(s, g) && InvReply(w) in s.net && |s.page.copies| > 1
    requires var led := s.page.ledger;
      s' == s.(page := s.page.(copies := s.page.copies[1..], ledger := led.(replied := led.replied + 1)),
               net := s.net - multiset{InvReply(w)})
    ensures Inv(s', g') && g' == NextAtManager(s.page.copies, g, InvReply(w))
  {
    InvReplyFacts(s, g, w);
    g' := g.(done := g.done - 1);
    assert forall c | c in s'.page.copies :: c in s.page.copies;
    forall m ensures NetInv(s', g', m) { assert NetInv(s, g, m); }
    forall i: nat ensures HostInv(s', g', i) && WriterInv(s', g', i) {
      assert HostInv(s, g, i) && WriterInv(s, g, i);
    }
    forall i: nat, j: nat ensures PairInv(s', g', i, j) { assert PairInv(s, g, i, j); }
  }

  lemma ReadAckKeeps(s: State, s': State, g: Ghost, r: nat) returns (g': Ghost)
    requires Inv(s, g) && ReadAck(r) in s.net
    requires s.page.readers > 0 ==>
      s' == s.(page := s.page.(copies := AddCopy(s.page.copies, r), readers := s.page.readers - 1),
               net := s.net - multiset{ReadAck(r)})
    ensures s.page.readers > 0
    ensures Inv(s', g') && g' == NextAtManager(s.page.copies, g, ReadAck(r))
  {
    assert NetInv(s, g, ReadAck(r)) && HostInv(s, g, r);
    assert r in g.rd;
    g' := g.(rd := g.rd - {r}, rack := g.rack - {r});
    forall m ensures NetInv(s', g', m) { assert NetInv(s, g, m); }
    forall i: nat ensures HostInv(s', g', i) {
      assert HostInv(s, g, i) && PairInv(s, g, i, r);
    }
    forall i: nat ensures WriterInv(s', g', i) { assert WriterInv(s, g, i); }
    forall i: nat, j: nat ensures PairInv(s', g', i, j) { assert PairInv(s, g, i, j); }
  }

  lemma WriteAckKeeps(s: State, s': State, g: Ghost, w: nat) returns (g': Ghost)
    requires Inv(s, g) && WriteAck(w) in s.net
    requires s.page.writer ==>
      s' == s.(page := s.page.(copies := AddCopy(s.page.copies, w), writer := false),
               net := s.net - multiset{WriteAck(w)})
    ensures s.page.writer
    ensures Inv(s', g') && g' == NextAtManager(s.page.copies, g, WriteAck(w))
  {
    assert NetInv(s, g, WriteAck(w)) && HostInv(s, g, w) && WriterInv(s, g, w);
    g' := g.(writer := None, wack := false);
    forall m ensures NetInv(s', g', m) { assert NetInv(s, g, m); }
    forall i: nat ensures HostInv(s', g', i) {
      assert HostInv(s, g, i) && PairInv(s, g, w, i) && PairInv(s, g, i, w);
    }
    forall i: nat ensures WriterInv(s', g', i) { }
    forall i: nat, j: nat ensures PairInv(s', g', i, j) { assert PairInv(s, g, i, j); }
  }

  // ---- the hosts ----

  lemma HostReadReqNet(s: State, s': State, g: Ghost, p: nat, r: nat, d: Data, m: Msg)
    requires Inv(s, g) && ReadReq(p, r) in s.net && r < |g.txn|
    requires s'.net == s.net - multiset{ReadReq(p, r)} + multiset{ReadReply(r, d)}
    ensures NetInv(s', g.(txn := g.txn[r := RA(d)]), m)
  {
    assert NetInv(s, g, ReadReq(p, r)) && NetInv(s, g, m);
  }

  lemma HostReadReqKeeps(s: State, s': State, g: Ghost, p: nat, r: nat) returns (g': Ghost)
    requires Inv(s, g) && ReadReq(p, r) in s.net && p < |s.hosts|
    requires s' == s.(hosts := s.hosts[p := OnReadReq(s.hosts[p], r).0],
                      net := s.net - multiset{ReadReq(p, r)} + multiset{ReadReply(r, s.hosts[p].mem)})
    ensures Inv(s', g') && g' == NextAtHost(s, g, ReadReq(p, r))
  {
    assert NetInv(s, g, ReadReq(p, r)) && HostInv(s, g, r) && HostInv(s, g, p);
    g' := g.(txn := g.txn[r := RA(s.hosts[p].mem)]);
    forall m ensures NetInv(s', g', m) { HostReadReqNet(s, s', g, p, r, s.hosts[p].mem, m); }
    forall i: nat ensures HostInv(s', g', i) { assert HostInv(s, g, i); }
    forall i: nat ensures WriterInv(s', g', i) { assert WriterInv(s, g, i); }
    forall i: nat, j: nat ensures PairInv(s', g', i, j) { assert PairInv(s, g, i, j) && HostInv(s, g, i); }
  }

  lemma HostWriteReqNet(s: State, s': State, g: Ghost, p: nat, w: nat, d: Data, m: Msg)
    requires Inv(s, g) && WriteReq(p, w) in s.net && w < |g.txn|
    requires s'.net == s.net - multiset{WriteReq(p, w)} + multiset{WriteReply(w, d)}
    ensures NetInv(s', g.(txn := g.txn[w := WA(d)]), m)
  {
    assert NetInv(s, g, WriteReq(p, w)) && NetInv(s, g, m);
  }

  lemma HostWriteReqKeeps(s: State, s': State, g: Ghost, p: nat, w: nat) returns (g': Ghost)
    requires Inv(s, g) && WriteReq(p, w) in s.net && p < |s.hosts|
    requires s' == s.(hosts := s.hosts[p := s.hosts[p].(access := NoAccess)],
                      net := s.net - multiset{WriteReq(p, w)} + multiset{WriteReply(w, s.hosts[p].mem)})
    ensures Inv(s', g') && g' == NextAtHost(s, g, WriteReq(p, w))
  {
    assert NetInv(s, g, WriteReq(p, w)) && HostInv(s, g, w) && HostInv(s, g, p) && WriterInv(s, g, p);
    g' := g.(txn := g.txn[w := WA(s.hosts[p].mem)]);
    forall m ensures NetInv(s', g', m) { HostWriteReqNet(s, s', g, p, w, s.hosts[p].mem, m); }
    forall i: nat ensures HostInv(s', g', i) { assert HostInv(s, g, i); }
    forall i: nat ensures WriterInv(s', g', i) { assert WriterInv(s, g, i); }
    forall i: nat, j: nat ensures PairInv(s', g', i, j) { assert PairInv(s, g, i, j); }
  }

  lemma InvalidatedNet(s: State, s': State, g: Ghost, h: nat, w: nat, m: Msg)
    requires Inv(s, g) && InvReq(h, w) in s.net && h < |s.hosts|
    requires s'.net == s.net - multiset{InvReq(h, w)} + multiset{InvReply(w)}
    ensures NetInv(s', g.(inv := g.inv - {h}, done := g.done + 1), m)
  {
    assert NetInv(s, g, InvReq(h, w)) && NetInv(s, g, m);
  }

  lemma HostInvalidateKeeps(s: State, s': State, g: Ghost, h: nat, w: nat) returns (g': Ghost)
    requires Inv(s, g) && InvReq(h, w) in s.net && h < |s.hosts|
    requires s' == s.(hosts := s.hosts[h := s.hosts[h].(access := NoAccess)],
                      net := s.net - multiset{InvReq(h, w)} + multiset{InvReply(w)})
    ensures Inv(s', g') && g' == NextAtHost(s, g, InvReq(h, w))
  {
    assert NetInv(s, g, InvReq(h, w)) && HostInv(s, g, h) && HostInv(s, g, w);
    assert |g.inv - {h}| == |g.inv| - 1;
    g' := g.(inv := g.inv - {h}, done := g.done + 1);
    forall m ensures NetInv(s', g', m) { InvalidatedNet(s, s', g, h, w, m); }
    forall i: nat ensures HostInv(s', g', i) { assert HostInv(s, g, i); }
    forall i: nat ensures WriterInv(s', g', i) { assert WriterInv(s, g, i); }
    forall i: nat, j: nat ensures PairInv(s', g', i, j) { assert PairInv(s, g, i, j); }
  }

  lemma HostReadReplyKeeps(s: State, s': State, g: Ghost, r: nat, d: Data) returns (g': Ghost)
    requires Inv(s, g) && ReadReply(r, d) in s.net && r < |s.hosts|
    requires s' == s.(hosts := s.hosts[r := OnReadReply(s.hosts[r], d)], net := s.net - multiset{ReadReply(r, d)})
    ensures Inv(s', g') && g' == NextAtHost(s, g, ReadReply(r, d))
  {
    assert NetInv(s, g, ReadReply(r, d)) && HostInv(s, g, r);
    g' := g.(txn := g.txn[r := RG]);
    forall m ensures NetInv(s', g', m) { assert NetInv(s, g, m); }
    forall i: nat ensures HostInv(s', g', i) { assert HostInv(s, g, i); }
    forall i: nat ensures WriterInv(s', g', i) { assert WriterInv(s, g, i); }
    forall i: nat, j: nat ensures PairInv(s', g', i, j) { assert PairInv(s, g, i, j) && PairInv(s, g, i, r); }
  }

  lemma HostWriteReplyKeeps(s: State, s': State, g: Ghost, w: nat, d: Data) returns (g': Ghost)
    requires Inv(s, g) && WriteReply(w, d) in s.net && w < |s.hosts|
    requires s' == s.(hosts := s.hosts[w := OnWriteReply(s.hosts[w], d)], net := s.net - multiset{WriteReply(w, d)})
    ensures Inv(s', g') && g' == NextAtHost(s, g, WriteReply(w, d))
  {
    assert NetInv(s, g, WriteReply(w, d)) && HostInv(s, g, w);
    g' := g.(txn := g.txn[w := WG]);
    forall m ensures NetInv(s', g', m) { assert NetInv(s, g, m); }
    forall i: nat ensures HostInv(s', g', i) && WriterInv(s', g', i) {
      assert HostInv(s, g, i) && WriterInv(s, g, i);
    }
    forall i: nat, j: nat ensures PairInv(s', g', i, j) {
      assert WriterInv(s, g, i) && WriterInv(s, g, j) && HostInv(s, g, j);
    }
  }
}
