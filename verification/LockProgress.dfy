/** How far a lock request travels: no host sees the same request twice. */
module LockProgress {
  import opened Sets
  import opened LockHost
  import opened LockProtocol
  import opened PathReversal
  import opened LockQueue
  import opened LockTheorems

  /** In the forest, `w` lies below the tail of the group of `r`, and so below the target of r's request. */
  ghost predicate Leads(g: Queue, w: nat, r: nat) {
    w < |g.par| && r < |g.tl| && Reaches(g.par, w, g.tl[r])
  }

  /** A host that has passed the request on lies below the requester's tail. */
  lemma PassedOnLeads(s: State, g: Queue, m: Msg, g': Queue)
    requires Inv(s, g) && m in s.net && m.Request? && Reversed(g, m, g')
    ensures Leads(g', m.to, m.from)
  {
    RequestLink(s, g, m);
    var t, a, x := m.to, m.from, g.tl[m.from];
    ReverseKeepsAcyclic(g.par, t, x, a);
    ReverseKeepsGroup(g.par, t, x, a);
    ReachStep(g'.par, t, x);
  }

  /** It stays there as long as the request is in flight. */
  lemma LeadsKept(s: State, g: Queue, step: Step, g': Queue, w: nat, r: nat)
    requires StateShaped(s) && Inv(s, g) && Enabled(s, step) && QueueStep(g, step, g')
    requires Leads(g, w, r) && r < |g.req| && g.req[r].Some? && r < |g'.req| && g'.req[r].Some?
    ensures Leads(g', w, r)
  {
    if step.DeliverRequest? {
      var m := step.m;
      RequestLink(s, g, m);
      ReverseKeepsReach(g.par, m.to, g.tl[m.from], m.from, w, g.tl[r]);
    }
  }

  /** The request never comes to a host that lies below the requester's tail. */
  lemma NextHopIsNew(s: State, g: Queue, m: Msg, w: nat)
    requires Inv(s, g) && m in s.net && m.Request? && Leads(g, w, m.from)
    ensures m.to != w && m.to != m.from
  {
    RequestLink(s, g, m);
    if m.to == w {
      var rank: seq<nat> :| Ranked(g.par, rank);
      ReachRank(g.par, rank, w, g.tl[m.from]);
    }
  }

  // ---- along a run ----

  ghost predicate Handles(step: Step, r: nat) {
    step.DeliverRequest? && step.m.Request? && step.m.from == r
  }

  /** From step `j` on, which handles a request of `r`, that request stays in flight up to state `k`. */
  ghost predicate InFlight(states: seq<State>, steps: seq<Step>, j: nat, k: nat, r: nat)
    requires |states| == |steps| + 1
  {
    j < k <= |steps| && Handles(steps[j], r) && forall i | j < i <= k :: InRequest(states[i], r)
  }

  lemma RequestIsKnown(s: State, g: Queue, r: nat)
    requires Inv(s, g) && InRequest(s, r)
    ensures r < |g.req| && g.req[r].Some?
  {
    var m :| m in s.net && m.Request? && m.from == r;
    assert MsgInv(s, g, m);
  }

  lemma FirstStep(s: State, g: Queue, step: Step, r: nat) returns (g': Queue)
    requires StateShaped(s) && Inv(s, g) && Enabled(s, step)
    requires Handles(step, r) && InRequest(Apply(s, step), r)
    ensures Inv(Apply(s, step), g') && Leads(g', step.m.to, r)
  {
    g' := StepKeeps(s, g, step);
    RequestLink(s, g, step.m);
    PassedOnLeads(s, g, step.m, g');
  }

  lemma FirstHop(n: nat, states: seq<State>, steps: seq<Step>, j: nat, r: nat) returns (g: Queue)
    requires Run(n, states, steps) && InFlight(states, steps, j, j + 1, r)
    ensures Inv(states[j + 1], g) && Leads(g, steps[j].m.to, r)
  {
    var g0 := RunInv(n, states[..j + 1], steps[..j]);
    assert states[..j + 1][j] == states[j];
    assert InRequest(states[j + 1], r);
    g := FirstStep(states[j], g0, steps[j], r);
  }

  lemma NextStep(s: State, g: Queue, step: Step, w: nat, r: nat) returns (g': Queue)
    requires StateShaped(s) && Inv(s, g) && Enabled(s, step)
    requires Leads(g, w, r) && InRequest(s, r) && InRequest(Apply(s, step), r)
    ensures Inv(Apply(s, step), g') && Leads(g', w, r)
  {
    g' := StepKeeps(s, g, step);
    RequestIsKnown(s, g, r);
    RequestIsKnown(Apply(s, step), g', r);
    LeadsKept(s, g, step, g', w, r);
  }

  lemma {:induction false} HandlerLeads(n: nat, states: seq<State>, steps: seq<Step>, j: nat, k: nat, r: nat)
      returns (g: Queue)
    requires Run(n, states, steps) && InFlight(states, steps, j, k, r)
    ensures Inv(states[k], g) && Leads(g, steps[j].m.to, r)
    decreases k
  {
    if k == j + 1 {
      g := FirstHop(n, states, steps, j, r);
    } else {
      var i := k - 1;
      g := HandlerLeads(n, states, steps, j, i, r);
      assert StateShaped(states[i]) && Enabled(states[i], steps[i]) && states[i + 1] == Apply(states[i], steps[i]);
      g := NextStep(states[i], g, steps[i], steps[j].m.to, r);
    }
  }

  /** While a request is in flight, no two steps handle it at the same host. */
  lemma HopsAreDistinct(n: nat, states: seq<State>, steps: seq<Step>, j: nat, k: nat, r: nat)
    requires Run(n, states, steps) && k < |steps| && InFlight(states, steps, j, k, r) && Handles(steps[k], r)
    ensures steps[j].m.to != steps[k].m.to
  {
    var g := HandlerLeads(n, states, steps, j, k, r);
    assert Enabled(states[k], steps[k]);
    NextHopIsNew(states[k], g, steps[k].m, steps[j].m.to);
  }

  // ---- counting ----

  /** The steps `ks`, in order, all handle one and the same request of `r`. */
  ghost predicate Hops(states: seq<State>, steps: seq<Step>, ks: seq<nat>, r: nat)
    requires |states| == |steps| + 1
  {
    && (forall a | 0 <= a < |ks| :: ks[a] < |steps| && Handles(steps[ks[a]], r))
    && (forall a, b | 0 <= a < b < |ks| :: InFlight(states, steps, ks[a], ks[b], r))
  }

  lemma HopAvoidsRequester(n: nat, states: seq<State>, steps: seq<Step>, k: nat, r: nat)
    requires Run(n, states, steps) && k < |steps| && Handles(steps[k], r)
    ensures steps[k].m.to < n && steps[k].m.to != r
  {
    var g := RunInv(n, states[..k + 1], steps[..k]);
    assert states[..k + 1][k] == states[k] && Enabled(states[k], steps[k]);
    RequestLink(states[k], g, steps[k].m);
  }

  /** A request is handled by fewer hosts than there are, each of them once: forwarding always comes to an end. */
  lemma FewHops(n: nat, states: seq<State>, steps: seq<Step>, ks: seq<nat>, r: nat)
    requires Run(n, states, steps) && Hops(states, steps, ks, r) && r < n
    ensures |ks| < n
  {
    var others := Below(n) - {r};
    var visited: seq<int> := seq(|ks|, a requires 0 <= a < |ks| => steps[ks[a]].m.to);
    forall a | 0 <= a < |ks| ensures visited[a] in others {
      HopAvoidsRequester(n, states, steps, ks[a], r);
    }
    forall a, b | 0 <= a < b < |ks| ensures visited[a] != visited[b] {
      HopsAreDistinct(n, states, steps, ks[a], ks[b], r);
    }
    DistinctFew(visited, others);
  }
}
