/** Every fault is served: once no thread begins a new access, only boundedly many steps remain, and while a thread is
    in a fault there is one. */
module CoherenceLiveness {
  import opened Wrappers
  import opened Sets
  import opened Coherence
  import opened CoherenceInvariant
  import opened CoherenceTheorems
  import opened CoherenceProgress

  // ---- a measure ----

  /** Messages and acknowledgements that a transaction still needs from this stage on, the last acknowledgement
      included; `todo` counts the invalidations and replies that its write waits for, and `n` the hosts. */
  function StageWork(t: Txn, n: nat, todo: nat): nat {
    match t
    case Idle => 0
    case RQ => 5
    case RF(_) => 4
    case RA(_) => 3
    case RG => 2
    case WQ => 2 * n + 5
    case WInv => todo + 4
    case WF(_) => 4
    case WA(_) => 3
    case WG => 2
  }

  function Todo(g: Ghost): nat {
    2 * |g.inv| + g.done
  }

  /** What is left to do for the accesses that host `i` has begun. */
  ghost function Work(s: State, g: Ghost, i: nat): nat
    requires i < |s.hosts| == |g.txn|
  {
    StageWork(g.txn[i], |s.hosts|, Todo(g)) + One(i in g.rack) + One(g.wack && g.writer == Some(i))
    + One(!s.hosts[i].pc.Running?)
  }

  ghost function Works(s: State, g: Ghost): (w: seq<nat>)
    requires |s.hosts| == |g.txn|
  {
    seq(|s.hosts|, i requires 0 <= i < |s.hosts| => Work(s, g, i))
  }

  lemma CopiesFew(s: State, g: Ghost)
    requires Inv(s, g)
    ensures |s.page.copies| <= |s.hosts|
  {
    var copies: seq<int> := s.page.copies;
    forall i | 0 <= i < |copies| ensures copies[i] in Below(|s.hosts|) { assert s.page.copies[i] in s.page.copies; }
    DistinctFew(copies, Below(|s.hosts|));
  }

  lemma WorkBound(s: State, g: Ghost, i: nat)
    requires Inv(s, g) && i < |s.hosts|
    ensures Work(s, g, i) <= 2 * |s.hosts| + 7
  {
    CopiesFew(s, g);
    assert HostInv(s, g, i);
  }

  // ---- every step but the beginning of an access lowers it ----

  predicate Begins(step: Step) {
    step.Read? || step.Write?
  }

  /** The host whose access a step brings forward. */
  function Actor(step: Step): nat {
    match step
    case Read(h) => h
    case Write(h, _) => h
    case Ack(h) => h
    case Load(h) => h
    case Store(h) => h
    case ManagerGets(m) => Requester(m)
    case HostGets(m) => Requester(m)
  }

  function Requester(m: Msg): nat {
    match m
    case RR(r) => r
    case WR(w) => w
    case ReadReq(_, r) => r
    case WriteReq(_, w) => w
    case ReadReply(r, _) => r
    case WriteReply(w, _) => w
    case InvReq(_, w) => w
    case InvReply(w) => w
    case ReadAck(r) => r
    case WriteAck(w) => w
  }

  /** Only the host whose access it is moves to another stage, and its work falls. */
  ghost predicate Lowers(s: State, g: Ghost, step: Step, i: nat)
    requires Enabled(s, step)
  {
    var s', g' := Apply(s, step), Next(s, g, step);
    i < |s.hosts| == |s'.hosts| == |g.txn| == |g'.txn| ==>
      Work(s', g', i) <= Work(s, g, i) - if i == Actor(step) then 1 else 0
  }

  lemma ThreadLowers(s: State, g: Ghost, step: Step, i: nat)
    requires Inv(s, g) && Enabled(s, step) && (step.Ack? || step.Load? || step.Store?)
    ensures Actor(step) < |s.hosts| && Lowers(s, g, step, i)
  {
    assert HostInv(s, g, Actor(step)) && HostInv(s, g, i);
  }

  lemma ManagerLowers(s: State, g: Ghost, m: Msg, i: nat)
    requires Inv(s, g) && Enabled(s, ManagerGets(m))
    ensures Actor(ManagerGets(m)) < |s.hosts| && Lowers(s, g, ManagerGets(m), i)
  {
    assert NetInv(s, g, m) && HostInv(s, g, i) && HostInv(s, g, Requester(m));
    if m.WR? {
      CopiesFew(s, g);
      NoDupSize(s.page.copies);
    }
    if m.InvReply? {
      InvReplyFacts(s, g, m.from);
    }
  }

  lemma InvalidationLowers(s: State, g: Ghost, m: Msg, i: nat)
    requires Inv(s, g) && Enabled(s, HostGets(m)) && m.InvReq?
    ensures Actor(HostGets(m)) < |s.hosts| && Lowers(s, g, HostGets(m), i)
  {
    assert NetInv(s, g, m) && HostInv(s, g, i) && HostInv(s, g, m.from);
    assert |g.inv - {m.to}| == |g.inv| - 1;
  }

  lemma HostLowers(s: State, g: Ghost, m: Msg, i: nat)
    requires Inv(s, g) && Enabled(s, HostGets(m))
    ensures Actor(HostGets(m)) < |s.hosts| && Lowers(s, g, HostGets(m), i)
  {
    if m.InvReq? {
      InvalidationLowers(s, g, m, i);
    } else {
      assert NetInv(s, g, m) && HostInv(s, g, i) && HostInv(s, g, Requester(m));
    }
  }

  lemma WorkLowers(s: State, g: Ghost, step: Step, i: nat)
    requires Inv(s, g) && Enabled(s, step) && !Begins(step)
    ensures Actor(step) < |s.hosts| && Lowers(s, g, step, i)
  {
    match step
    case ManagerGets(m) => ManagerLowers(s, g, m, i);
    case HostGets(m) => HostLowers(s, g, m, i);
    case _ => ThreadLowers(s, g, step, i);
  }

  lemma HostsStay(s: State, step: Step)
    requires Enabled(s, step)
    ensures |Apply(s, step).hosts| == |s.hosts|
  {
  }

  lemma StepLowers(s: State, g: Ghost, step: Step) returns (g': Ghost)
    requires Inv(s, g) && Enabled(s, step) && !Begins(step)
    ensures Inv(Apply(s, step), g') && |Apply(s, step).hosts| == |s.hosts|
    ensures Sum(Works(Apply(s, step), g')) < Sum(Works(s, g))
  {
    g' := StepKeeps(s, g, step);
    HostsStay(s, step);
    var before, after, a := Works(s, g), Works(Apply(s, step), g'), Actor(step);
    WorkLowers(s, g, step, a);
    forall i | 0 <= i < |s.hosts| ensures after[i] <= before[i] - if i == a then 1 else 0 { WorkLowers(s, g, step, i); }
    SumFalls(before, after, a);
  }

  // ---- runs ----

  /** From state `j` on, no thread begins an access. */
  ghost predicate Quiet(steps: seq<Step>, j: nat) {
    forall k | j <= k < |steps| :: !Begins(steps[k])
  }

  lemma {:induction false} QuietLowers(n: nat, owner: nat, states: seq<State>, steps: seq<Step>, j: nat, g: Ghost,
                                       k: nat) returns (g': Ghost)
    requires Run(n, owner, states, steps) && Quiet(steps, j) && j <= k <= |steps|
    requires Inv(states[j], g) && |states[j].hosts| == n
    ensures Inv(states[k], g') && |states[k].hosts| == n
    ensures Sum(Works(states[k], g')) + (k - j) <= Sum(Works(states[j], g))
    decreases k
  {
    if k == j {
      g' := g;
    } else {
      var i := k - 1;
      var unused := StateAt(n, owner, states, steps, i);
      g' := QuietLowers(n, owner, states, steps, j, g, i);
      g' := StepLowers(states[i], g', steps[i]);
    }
  }

  /** Once no thread begins a new access, a run makes at most n(2n+7) more steps. By `FaultsAreServed` it can go on
      while a thread is in a fault, so when it can go no further every access that was begun has been served. */
  lemma QuietRunsEnd(n: nat, owner: nat, states: seq<State>, steps: seq<Step>, j: nat)
    requires Run(n, owner, states, steps) && Quiet(steps, j) && j <= |steps|
    ensures |steps| - j <= n * (2 * n + 7)
  {
    var g := StateAt(n, owner, states, steps, j);
    var g' := QuietLowers(n, owner, states, steps, j, g, |steps|);
    forall i: nat | i < n ensures Work(states[j], g, i) <= 2 * n + 7 { WorkBound(states[j], g, i); }
    SumBound(Works(states[j], g), n, 2 * n + 7);
  }

  /** While a thread has begun an access, some step is possible that begins no other. */
  lemma AccessesGoOn(n: nat, owner: nat, states: seq<State>, steps: seq<Step>, h: nat) returns (step: Step)
    requires Run(n, owner, states, steps) && h < |states[|steps|].hosts| && !states[|steps|].hosts[h].pc.Running?
    ensures Enabled(states[|steps|], step) && !Begins(step)
  {
    var pc := states[|steps|].hosts[h].pc;
    if pc.Loading? {
      step := Load(h);
    } else if pc.Storing? {
      step := Store(h);
    } else {
      step := FaultsAreServed(n, owner, states, steps, h);
    }
  }
}
