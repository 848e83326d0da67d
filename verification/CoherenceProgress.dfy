/** The coherence protocol never gets stuck: while a thread waits in a fault, some message can be handled or some
    acknowledgement can be sent. */
module CoherenceProgress {
  import opened Wrappers
  import opened Sets
  import opened Coherence
  import opened CoherenceInvariant
  import opened CoherenceTheorems

  /** A step that the protocol makes on its own, without a new access by any thread. */
  predicate Serves(step: Step) {
    step.Ack? || step.ManagerGets? || step.HostGets?
  }

  /** While a read is being served, or its acknowledgement is on its way, it can go on. */
  lemma ReaderMoves(s: State, g: Ghost, r: nat) returns (step: Step)
    requires Inv(s, g) && r in g.rd
    ensures Enabled(s, step) && Serves(step)
  {
    assert HostInv(s, g, r);
    if r in g.rack {
      step := ManagerGets(ReadAck(r));
      assert NetInv(s, g, ReadAck(r));
    } else {
      match g.txn[r]
      case RF(p) =>
        step := HostGets(ReadReq(p, r));
        assert NetInv(s, g, ReadReq(p, r));
      case RA(d) =>
        step := HostGets(ReadReply(r, d));
        assert NetInv(s, g, ReadReply(r, d));
      case RG =>
        step := Ack(r);
    }
  }

  /** While some copies are still to be invalidated, a request or a reply is in flight. */
  lemma InvalidationMoves(s: State, g: Ghost, w: nat) returns (step: Step)
    requires Inv(s, g) && g.writer == Some(w) && g.txn[w].WInv?
    ensures Enabled(s, step) && Serves(step)
  {
    if g.done > 0 {
      step := ManagerGets(InvReply(w));
      assert NetInv(s, g, InvReply(w));
    } else {
      var h := Pick(g.inv);
      step := HostGets(InvReq(h, w));
      assert NetInv(s, g, InvReq(h, w));
    }
  }

  /** While a write is being served, it can go on. */
  lemma WriterMoves(s: State, g: Ghost) returns (step: Step)
    requires Inv(s, g) && g.writer.Some?
    ensures Enabled(s, step) && Serves(step)
  {
    var w := g.writer.value;
    assert HostInv(s, g, w);
    match g.txn[w]
    case WInv =>
      step := InvalidationMoves(s, g, w);
    case WF(p) =>
      step := HostGets(WriteReq(p, w));
      assert NetInv(s, g, WriteReq(p, w));
    case WA(d) =>
      step := HostGets(WriteReply(w, d));
      assert NetInv(s, g, WriteReply(w, d));
    case WG =>
      step := Ack(w);
    case Idle =>
      step := ManagerGets(WriteAck(w));
      assert NetInv(s, g, WriteAck(w));
  }

  /** A host whose thread waits in a fault, or has been served and is to acknowledge it. */
  predicate InFault(pc: Pc) {
    pc.ReadFault? || pc.WriteFault? || pc.ReadServed? || pc.WriteServed?
  }

  /** No deadlock: while some thread is in a fault, the protocol can make a step. */
  lemma FaultsAreServed(n: nat, owner: nat, states: seq<State>, steps: seq<Step>, h: nat) returns (step: Step)
    requires Run(n, owner, states, steps) && h < |states[|steps|].hosts| && InFault(states[|steps|].hosts[h].pc)
    ensures Enabled(states[|steps|], step) && Serves(step)
  {
    var s := states[|steps|];
    var g := RunInv(n, owner, states, steps);
    assert HostInv(s, g, h);
    if g.writer.Some? {
      step := WriterMoves(s, g);
    } else if g.rd != {} {
      var r := Pick(g.rd);
      step := ReaderMoves(s, g, r);
    } else if g.txn[h].RQ? {
      step := ManagerGets(RR(h));
      assert NetInv(s, g, RR(h));
    } else {
      step := ManagerGets(WR(h));
      assert NetInv(s, g, WR(h));
    }
  }
}
