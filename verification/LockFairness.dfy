/** The queue of stored successors is served in turn: a host that is `d` places behind the token gets it with the `d`-th
    grant, however often the others go on acquiring. */
module LockFairness {
  import opened Sets
  import opened LockHost
  import opened LockProtocol
  import opened LockQueue
  import opened LockTheorems

  /** Host `i` has the token, or the token is on its way to it. */
  ghost predicate TokenAt(s: State, i: nat) {
    i < |s.hosts| && (s.hosts[i].haveToken || InGrant(s, i))
  }

  /** Going from host `i` along the stored successors, host `w` comes after `d` links. */
  ghost predicate Behind(s: State, i: nat, d: nat, w: nat)
    decreases d
  {
    i < |s.hosts| && if d == 0 then i == w else s.hosts[i].next.Some? && Behind(s, s.hosts[i].nextId, d - 1, w)
  }

  /** The step sends the token. */
  ghost predicate Grants(s: State, step: Step) {
    match step
    case Release(i, _) => i < |s.hosts| && s.hosts[i].next.Some?
    case DeliverRequest(m, _) => m.to < |s.hosts| && s.hosts[m.to].haveToken && !s.hosts[m.to].locked
    case _ => false
  }

  // ---- one step ----

  lemma TokenIsThere(s: State, g: Queue, i: nat)
    requires Inv(s, g) && TokenAt(s, i)
    ensures i == g.tok
  {
    assert HolderInv(s, g, i);
    if InGrant(s, i) {
      var m :| m in s.net && m.Grant? && m.to == i;
      assert MsgInv(s, g, m);
    }
  }

  /** A stored successor stays stored until the token is sent to it. */
  lemma LinkKept(s: State, g: Queue, step: Step, i: nat)
    requires StateShaped(s) && Inv(s, g) && Enabled(s, step) && !Grants(s, step)
    requires i < |s.hosts| && s.hosts[i].next.Some?
    ensures var s' := Apply(s, step);
            i < |s'.hosts| && s'.hosts[i].next == s.hosts[i].next && s'.hosts[i].nextId == s.hosts[i].nextId
  {
    if step.DeliverGrant? {
      var m := step.m;
      assert MsgShaped(m, |s.hosts|);
      AddAllKeepsLock(NewInterval(s.hosts[m.to], m.to, step.pages), m.intervals);
    }
  }

  lemma {:induction false} BehindKept(s: State, g: Queue, step: Step, i: nat, d: nat, w: nat)
    requires StateShaped(s) && Inv(s, g) && Enabled(s, step) && !Grants(s, step) && Behind(s, i, d, w)
    ensures Behind(Apply(s, step), i, d, w)
    decreases d
  {
    var s' := Apply(s, step);
    HostsStay(s, step);
    if d > 0 {
      LinkKept(s, g, step, i);
      BehindKept(s, g, step, s.hosts[i].nextId, d - 1, w);
    }
  }

  lemma TokenKept(s: State, g: Queue, step: Step, i: nat)
    requires StateShaped(s) && Inv(s, g) && Enabled(s, step) && !Grants(s, step) && TokenAt(s, i)
    ensures TokenAt(Apply(s, step), i)
  {
    var s' := Apply(s, step);
    HostsStay(s, step);
    if step.DeliverGrant? {
      assert MsgShaped(step.m, |s.hosts|);
      AddAllKeepsLock(NewInterval(s.hosts[step.m.to], step.m.to, step.pages), step.m.intervals);
    }
    if !s.hosts[i].haveToken {
      var m :| m in s.net && m.Grant? && m.to == i;
      assert MsgInv(s, g, m);
      if step.DeliverGrant? {
        assert MsgInv(s, g, step.m);
      } else {
        assert m in s'.net;
      }
    }
  }

  /** Places in the queue are counted by `pos`. */
  lemma {:induction false} PlaceOf(s: State, g: Queue, i: nat, d: nat, w: nat)
    requires Inv(s, g) && Behind(s, i, d, w)
    ensures w < |s.hosts| && g.pos[w] == g.pos[i] + d && (d > 0 ==> s.hosts[w].waiting)
    decreases d
  {
    if d > 0 {
      assert FollowInv(s, g, i);
      PlaceOf(s, g, s.hosts[i].nextId, d - 1, w);
    }
  }

  /** A change at host `i` does not touch the queue behind it. */
  lemma {:induction false} BehindOthers(s: State, g: Queue, s': State, i: nat, k: nat, d: nat, w: nat)
    requires Inv(s, g) && Behind(s, k, d, w) && i < |s.hosts| == |s'.hosts|
    requires g.pos[i] < g.pos[k]
    requires forall j: nat | j < |s.hosts| && j != i :: s'.hosts[j] == s.hosts[j]
    ensures Behind(s', k, d, w)
    decreases d
  {
    if d > 0 {
      assert FollowInv(s, g, k);
      BehindOthers(s, g, s', i, s.hosts[k].nextId, d - 1, w);
    }
  }

  lemma GranterHasToken(s: State, g: Queue, step: Step, i: nat)
    requires StateShaped(s) && Inv(s, g) && Enabled(s, step) && Grants(s, step) && TokenAt(s, i)
    ensures i == if step.Release? then step.i else step.m.to
  {
    TokenIsThere(s, g, i);
    var t := if step.Release? then step.i else step.m.to;
    assert HostInv(s, t) && HolderInv(s, g, t);
  }

  /** Sending the token moves the queue up by one place. */
  lemma GrantMovesUp(s: State, g: Queue, step: Step, i: nat, d: nat, w: nat) returns (i': nat)
    requires StateShaped(s) && Inv(s, g) && Enabled(s, step) && Grants(s, step)
    requires TokenAt(s, i) && d > 0 && Behind(s, i, d, w)
    ensures TokenAt(Apply(s, step), i') && Behind(Apply(s, step), i', d - 1, w)
  {
    GranterHasToken(s, g, step, i);
    assert HostInv(s, i) && FollowInv(s, g, i);
    i' := s.hosts[i].nextId;
    var s' := Apply(s, step);
    var grant := ReleaseLock(s.hosts[i], i, step.pages).1[0];
    assert multiset(ReleaseLock(s.hosts[i], i, step.pages).1) == multiset{grant};
    assert grant in s'.net && grant.Grant? && grant.to == i';
    BehindOthers(s, g, s', i, i', d - 1, w);
  }

  lemma QueueMoves(s: State, g: Queue, step: Step, i: nat, d: nat, w: nat)
      returns (i': nat, d': nat)
    requires StateShaped(s) && Inv(s, g) && Enabled(s, step) && TokenAt(s, i) && Behind(s, i, d, w)
    requires Grants(s, step) ==> d > 0
    ensures TokenAt(Apply(s, step), i') && Behind(Apply(s, step), i', d', w)
    ensures d == d' + if Grants(s, step) then 1 else 0
  {
    if Grants(s, step) {
      i' := GrantMovesUp(s, g, step, i, d, w);
      d' := d - 1;
    } else {
      i', d' := i, d;
      TokenKept(s, g, step, i);
      BehindKept(s, g, step, i, d, w);
    }
  }

  /** A request that is stored by a host of the queue takes the place behind it. */
  lemma StoredTakesPlace(s: State, g: Queue, m: Msg, pages: seq<nat>, i: nat, d: nat)
    requires StateShaped(s) && Inv(s, g) && Enabled(s, DeliverRequest(m, pages)) && TokenAt(s, i)
    requires Behind(s, i, d, m.to) && s.hosts[m.to].last == m.to && !Grants(s, DeliverRequest(m, pages))
    ensures var s' := Apply(s, DeliverRequest(m, pages)); TokenAt(s', i) && Behind(s', i, d + 1, m.from)
  {
    var step := DeliverRequest(m, pages);
    RequestLink(s, g, m);
    TokenKept(s, g, step, i);
    TokenIsThere(s, g, i);
    PlaceOf(s, g, i, d, m.to);
    assert HostInv(s, m.to) && HostInv(s, i) && MsgShaped(m, |s.hosts|);
    BehindKept(s, g, step, i, d, m.to);
    OneBehind(Apply(s, step), i, d, m.to, m.from);
  }

  lemma {:induction false} OneBehind(s: State, i: nat, d: nat, t: nat, w: nat)
    requires Behind(s, i, d, t) && t < |s.hosts| && s.hosts[t].next.Some? && s.hosts[t].nextId == w && w < |s.hosts|
    ensures Behind(s, i, d + 1, w)
    decreases d
  {
    if d > 0 {
      OneBehind(s, s.hosts[i].nextId, d - 1, t, w);
    } else {
      assert Behind(s, w, 0, w);
    }
  }

  // ---- runs ----

  lemma {:induction false} QueueMembers(s: State, g: Queue, i: nat, d: nat, w: nat) returns (list: seq<int>)
    requires Inv(s, g) && Behind(s, i, d, w)
    ensures |list| == d + 1
    ensures forall t | 0 <= t <= d :: 0 <= list[t] < |s.hosts| && g.pos[list[t]] == g.pos[i] + t
    decreases d
  {
    if d == 0 {
      list := [i];
    } else {
      assert FollowInv(s, g, i);
      var rest := QueueMembers(s, g, s.hosts[i].nextId, d - 1, w);
      list := [i] + rest;
    }
  }

  /** There are fewer places than hosts. */
  lemma QueueIsShort(s: State, g: Queue, i: nat, d: nat, w: nat)
    requires Inv(s, g) && Behind(s, i, d, w)
    ensures d < |s.hosts|
  {
    var list := QueueMembers(s, g, i, d, w);
    DistinctFew(list, Below(|s.hosts|));
  }

  /** How often the token is sent between states `j` and `k`. */
  ghost function GrantsIn(states: seq<State>, steps: seq<Step>, j: nat, k: nat): nat
    requires j <= k <= |steps| < |states|
  {
    if k == j then 0 else GrantsIn(states, steps, j, k - 1) + if Grants(states[k - 1], steps[k - 1]) then 1 else 0
  }

  lemma QueueMovesAt(n: nat, states: seq<State>, steps: seq<Step>, h: nat, k: nat, i: nat, d: nat, w: nat)
      returns (i': nat, d': nat)
    requires Run(n, states, steps) && k == h + 1 <= |steps| && TokenAt(states[h], i) && Behind(states[h], i, d, w)
    requires Grants(states[h], steps[h]) ==> d > 0
    ensures TokenAt(states[k], i') && Behind(states[k], i', d', w)
    ensures d == d' + if Grants(states[h], steps[h]) then 1 else 0
  {
    var g := StateAt(n, states, steps, h);
    i', d' := QueueMoves(states[h], g, steps[h], i, d, w);
  }

  lemma {:induction false} QueueMovesOn(n: nat, states: seq<State>, steps: seq<Step>, j: nat, k: nat,
                                        i: nat, d: nat, w: nat) returns (i': nat, left: nat)
    requires Run(n, states, steps) && j <= k <= |steps| && TokenAt(states[j], i) && Behind(states[j], i, d, w)
    requires GrantsIn(states, steps, j, k) <= d
    ensures TokenAt(states[k], i') && Behind(states[k], i', left, w)
    ensures d == left + GrantsIn(states, steps, j, k)
    decreases k
  {
    if k == j {
      i', left := i, d;
    } else {
      var h := k - 1;
      i', left := QueueMovesOn(n, states, steps, j, h, i, d, w);
      i', left := QueueMovesAt(n, states, steps, h, k, i', left, w);
    }
  }

  lemma ServedAtLast(s: State, g: Queue, i: nat, left: nat, w: nat)
    requires Inv(s, g) && TokenAt(s, i) && Behind(s, i, left, w)
    ensures w < |s.hosts| && if left > 0 then s.hosts[w].waiting && !TokenAt(s, w) else TokenAt(s, w)
  {
    PlaceOf(s, g, i, left, w);
    TokenIsThere(s, g, i);
    if left > 0 && TokenAt(s, w) {
      TokenIsThere(s, g, w);
    }
  }

  /** First come, first served: a host `d` places behind the token waits until it has been sent `d` times, and then
      has it or is being sent it; and `d` is less than the number of hosts. Others may acquire again and again
      meanwhile. */
  lemma ServedInTurn(n: nat, states: seq<State>, steps: seq<Step>, j: nat, k: nat, i: nat, d: nat, w: nat)
    requires Run(n, states, steps) && j <= k <= |steps| && TokenAt(states[j], i) && Behind(states[j], i, d, w)
    requires GrantsIn(states, steps, j, k) <= d
    ensures d < n && w < n == |states[k].hosts|
    ensures GrantsIn(states, steps, j, k) < d ==> states[k].hosts[w].waiting && !TokenAt(states[k], w)
    ensures GrantsIn(states, steps, j, k) == d ==> TokenAt(states[k], w)
  {
    var g := StateAt(n, states, steps, j);
    QueueIsShort(states[j], g, i, d, w);
    var g' := StateAt(n, states, steps, k);
    var i', left := QueueMovesOn(n, states, steps, j, k, i, d, w);
    ServedAtLast(states[k], g', i', left, w);
  }
}
