/** Every waiting host is served: once no host makes a new acquire, only boundedly many steps remain, and as long as a
    host waits there is one. */
module LockLiveness {
  import opened Sets
  import opened LockHost
  import opened LockProtocol
  import opened LockQueue
  import opened LockTheorems
  import opened LockProgress

  // ---- a measure ----

  /** The hosts that the request of `r` may still visit. */
  ghost function Unvisited(g: Queue, r: nat): (v: set<int>)
    ensures v <= Below(|g.par|)
  {
    set w: nat | w in Below(|g.par|) && !Leads(g, w, r)
  }

  function Duty(h: Host): nat {
    (if h.waiting then 2 else 0) + (if h.locked then 1 else 0)
  }

  /** What host `r` still has before it: hops of its request, the arrival of the token, and its release. */
  ghost function Cost(s: State, g: Queue, r: nat): nat
    requires r < |s.hosts| && r < |g.req|
  {
    (if g.req[r].Some? then |Unvisited(g, r)| + 1 else 0) + Duty(s.hosts[r])
  }

  /** What all hosts together still have before them. */
  ghost function Costs(s: State, g: Queue): (c: seq<nat>)
    requires |s.hosts| == |g.req|
  {
    seq(|s.hosts|, r requires 0 <= r < |s.hosts| => Cost(s, g, r))
  }

  lemma CostBound(s: State, g: Queue, r: nat)
    requires r < |s.hosts| && r < |g.req| && |g.par| == |s.hosts|
    ensures Cost(s, g, r) <= |s.hosts| + 4
  {
    SubsetSize(Unvisited(g, r), Below(|g.par|));
  }

  // ---- every step but an acquire lowers it ----

  /** A request in flight after the step was in flight before. */
  lemma NoNewRequest(s: State, g: Queue, step: Step, g': Queue, r: nat)
    requires StateShaped(s) && Inv(s, g) && Enabled(s, step) && !step.Acquire? && Inv(Apply(s, step), g')
    requires r < |g.req| == |g'.req| && g'.req[r].Some?
    ensures g.req[r].Some?
  {
    var s' := Apply(s, step);
    assert RequestInv(s', g', r);
    var m := g'.req[r].value;
    if m in s.net {
      assert MsgInv(s, g, m);
    } else {
      assert step.DeliverRequest? && m.from == step.m.from;
      assert MsgInv(s, g, step.m);
    }
  }

  lemma UnvisitedShrinks(s: State, g: Queue, step: Step, g': Queue, r: nat)
    requires StateShaped(s) && Inv(s, g) && Enabled(s, step) && QueueStep(g, step, g')
    requires |g'.par| == |g.par| && r < |g.req| && g.req[r].Some? && r < |g'.req| && g'.req[r].Some?
    ensures |Unvisited(g', r)| <= |Unvisited(g, r)|
  {
    forall w | w in Unvisited(g', r) ensures w in Unvisited(g, r) {
      if Leads(g, w, r) {
        LeadsKept(s, g, step, g', w, r);
      }
    }
    SubsetSize(Unvisited(g', r), Unvisited(g, r));
  }

  lemma RequestCostKept(s: State, g: Queue, step: Step, g': Queue, r: nat)
    requires StateShaped(s) && Inv(s, g) && Enabled(s, step) && !step.Acquire?
    requires Inv(Apply(s, step), g') && QueueStep(g, step, g') && |Apply(s, step).hosts| == |s.hosts|
    requires r < |s.hosts|
    ensures g'.req[r].Some? ==> g.req[r].Some? && |Unvisited(g', r)| <= |Unvisited(g, r)|
  {
    if g'.req[r].Some? {
      NoNewRequest(s, g, step, g', r);
      UnvisitedShrinks(s, g, step, g', r);
    }
  }

  /** The host that passes a request on is one that it had not visited. */
  lemma HopIsCounted(s: State, g: Queue, step: Step, g': Queue)
    requires StateShaped(s) && Inv(s, g) && Enabled(s, step) && step.DeliverRequest? && QueueStep(g, step, g')
    requires |g'.par| == |g.par| && step.m.from < |g.req| && g.req[step.m.from].Some?
    requires step.m.from < |g'.req| && g'.req[step.m.from].Some?
    ensures |Unvisited(g', step.m.from)| < |Unvisited(g, step.m.from)|
  {
    var m := step.m;
    var r, t := m.from, m.to;
    RequestLink(s, g, m);
    PassedOnLeads(s, g, m, g');
    if Leads(g, t, r) {
      NextHopIsNew(s, g, m, t);
    }
    forall w | w in Unvisited(g', r) ensures w in Unvisited(g, r) - {t} {
      if Leads(g, w, r) {
        LeadsKept(s, g, step, g', w, r);
      }
    }
    SubsetSize(Unvisited(g', r), Unvisited(g, r) - {t});
  }

  /** The host that a step brings forward. */
  function Actor(step: Step): nat {
    match step
    case Acquire(i) => i
    case Release(i, _) => i
    case DeliverRequest(m, _) => if m.Request? then m.from else 0
    case DeliverGrant(m, _) => m.to
  }

  lemma DutyKept(s: State, g: Queue, step: Step, r: nat)
    requires StateShaped(s) && Inv(s, g) && Enabled(s, step) && !step.Acquire? && r < |s.hosts|
    ensures |Apply(s, step).hosts| == |s.hosts|
    ensures Duty(Apply(s, step).hosts[r]) + (if r == Actor(step) && !step.DeliverRequest? then 1 else 0)
            <= Duty(s.hosts[r])
  {
    if step.DeliverGrant? {
      var m := step.m;
      assert MsgShaped(m, |s.hosts|) && MsgInv(s, g, m) && HostInv(s, m.to);
      AddAllKeepsLock(NewInterval(s.hosts[m.to], m.to, step.pages), m.intervals);
    }
  }

  lemma StepLowersTotal(s: State, g: Queue, step: Step) returns (g': Queue)
    requires StateShaped(s) && Inv(s, g) && Enabled(s, step) && !step.Acquire? && s.hosts != []
    ensures Inv(Apply(s, step), g') && |Apply(s, step).hosts| == |s.hosts|
    ensures Sum(Costs(Apply(s, step), g')) < Sum(Costs(s, g))
  {
    g' := StepKeeps(s, g, step);
    var s', a := Apply(s, step), Actor(step);
    DutyKept(s, g, step, 0);
    forall r: nat | r < |s.hosts| ensures Cost(s', g', r) <= Cost(s, g, r) {
      DutyKept(s, g, step, r);
      RequestCostKept(s, g, step, g', r);
    }
    ActorMoves(s, g, step, g');
    SumFalls(Costs(s, g), Costs(s', g'), a);
  }

  lemma ActorMoves(s: State, g: Queue, step: Step, g': Queue)
    requires StateShaped(s) && Inv(s, g) && Enabled(s, step) && !step.Acquire?
    requires Inv(Apply(s, step), g') && QueueStep(g, step, g') && |Apply(s, step).hosts| == |s.hosts|
    ensures Actor(step) < |s.hosts| && Cost(Apply(s, step), g', Actor(step)) < Cost(s, g, Actor(step))
  {
    var a := Actor(step);
    if step.DeliverRequest? {
      RequestLink(s, g, step.m);
      if g'.req[a].Some? {
        HopIsCounted(s, g, step, g');
      }
    }
    DutyKept(s, g, step, a);
    RequestCostKept(s, g, step, g', a);
  }

  // ---- runs ----

  /** From state `j` on, no host makes a new acquire. */
  ghost predicate Quiet(steps: seq<Step>, j: nat) {
    forall k | j <= k < |steps| :: !steps[k].Acquire?
  }

  lemma {:induction false} QuietLowersTotal(n: nat, states: seq<State>, steps: seq<Step>, j: nat, g: Queue, k: nat)
      returns (g': Queue)
    requires Run(n, states, steps) && Quiet(steps, j) && j <= k <= |steps|
    requires Inv(states[j], g) && |states[j].hosts| == n
    ensures Inv(states[k], g') && |states[k].hosts| == n
    ensures Sum(Costs(states[k], g')) + (k - j) <= Sum(Costs(states[j], g))
    decreases k
  {
    if k == j {
      g' := g;
    } else {
      var i := k - 1;
      var unused := StateAt(n, states, steps, i);
      g' := QuietLowersTotal(n, states, steps, j, g, i);
      g' := StepLowersTotal(states[i], g', steps[i]);
    }
  }

  /** After the last acquire a run makes at most n(n+4) more steps. */
  lemma QuietRunsEnd(n: nat, states: seq<State>, steps: seq<Step>, j: nat)
    requires Run(n, states, steps) && Quiet(steps, j) && j <= |steps|
    ensures |steps| - j <= n * (n + 4)
  {
    var g := StateAt(n, states, steps, j);
    var g' := QuietLowersTotal(n, states, steps, j, g, |steps|);
    forall r: nat | r < n ensures Cost(states[j], g, r) <= n + 4 { CostBound(states[j], g, r); }
    SumBound(Costs(states[j], g), n, n + 4);
  }

  /** As long as a host waits, some step is possible that is not an acquire.  So every run that is quiet from some point
      on, and goes on while it can, ends with no host waiting. */
  lemma WaitersKeepItGoing(n: nat, states: seq<State>, steps: seq<Step>, w: nat) returns (step: Step)
    requires Run(n, states, steps) && w < |states[|steps|].hosts| && states[|steps|].hosts[w].waiting
    ensures Enabled(states[|steps|], step) && !step.Acquire?
  {
    var s := states[|steps|];
    var g := RunInv(n, states, steps);
    WaitersAreServed(n, states, steps, w);
    if s.net != multiset{} {
      var m :| m in s.net;
      step := if m.Request? then DeliverRequest(m, []) else DeliverGrant(m, []);
    } else {
      var i :| 0 <= i < n && s.hosts[i].locked;
      assert HostInv(s, i);
      step := Release(i, []);
    }
  }
}
