/** Barrier rounds: every host's call sends one request to the manager, which answers all hosts when it has handled
    one request of each. Messages may be delivered in any order. */
module Barrier {
  import opened Sets

  /** One host manages all barriers, whatever their id.  A request carries which call of the sending host it belongs to,
      and the barrier id that the program gave. */
  datatype Request = Request(from: nat, id: nat, call: nat)

  // ---- the manager ----

  /** The counter and the latest request of each host, after one request; and whether all hosts are answered. */
  function OnRequest(counter: nat, stored: seq<Request>, r: Request): (nat, seq<Request>, bool)
    requires r.from < |stored|
  {
    var n := counter + 1;
    if n < |stored| then (n, stored[r.from := r], false) else (0, stored[r.from := r], true)
  }

  class BarrierManager {
    var barrier: nat
    const barrierreq: array<Request>

    constructor (nrProcs: nat)
      ensures barrier == 0 && fresh(barrierreq) && barrierreq[..] == seq(nrProcs, _ => Request(0, 0, 0))
    {
      barrier := 0;
      barrierreq := new Request[nrProcs](_ => Request(0, 0, 0));
    }

    /** Returns the hosts that are answered, the manager itself last. */
    method HandleBarrierRequest(me: nat, req: Request) returns (answered: seq<nat>)
      requires req.from < barrierreq.Length && me < barrierreq.Length
      modifies this`barrier, barrierreq
      ensures (barrier, barrierreq[..], answered != []) == OnRequest(old(barrier), old(barrierreq[..]), req)
      ensures answered == [] || answered == Others(barrierreq.Length, me) + [me]
      ensures barrierreq[..] == old(barrierreq[..])[req.from := req]
      ensures if old(barrier) + 1 < barrierreq.Length then answered == [] && barrier == old(barrier) + 1
              else (barrier == 0 && multiset(answered) == Everyone(barrierreq.Length)
                && answered != [] && answered[|answered| - 1] == me)
    {
      barrierreq[req.from] := req;
      var n := barrier + 1;
      answered := [];
      if n < barrierreq.Length {
        barrier := n;
      } else {
        for i := 0 to barrierreq.Length
          invariant answered == Others(i, me)
          modifies {}
        {
          if i != me {
            answered := answered + [i];
          }
        }
        barrier := 0;
        answered := answered + [me];
        OthersAndManager(barrierreq.Length, me);
      }
    }
  }

  function Others(n: nat, me: nat): seq<nat> {
    if n == 0 then [] else Others(n - 1, me) + if n - 1 == me then [] else [n - 1]
  }

  /** With the manager at the end, every host is answered once. */
  lemma {:induction false} OthersAndManager(n: nat, me: nat)
    ensures multiset(Others(n, me)) + (if me < n then multiset{me} else multiset{}) == Everyone(n)
    ensures me < n ==> multiset(Others(n, me) + [me]) == Everyone(n)
  {
    if n > 0 {
      OthersAndManager(n - 1, me);
    }
  }

  /** Every host once. */
  function Everyone(n: nat): (m: multiset<nat>)
    ensures forall h: nat :: m[h] == if h < n then 1 else 0
  {
    if n == 0 then multiset{} else Everyone(n - 1) + multiset{n - 1}
  }

  // ---- all runs ----

  /** `called` and `returned` count each host's barrier calls; `rounds` lists what the manager had stored whenever it
      answered everyone. */
  datatype State = State(
    called: seq<nat>,
    returned: seq<nat>,
    requests: multiset<Request>,
    responses: multiset<nat>,
    counter: nat,
    stored: seq<Request>,
    rounds: seq<seq<Request>>)

  datatype Step = Call(h: nat, id: nat) | Handle(r: Request) | Return(h: nat)

  ghost predicate Init(s: State, n: nat) {
    && n > 0
    && s.called == s.returned == seq(n, _ => 0)
    && s.requests == multiset{} && s.responses == multiset{}
    && s.counter == 0 && |s.stored| == n && s.rounds == []
  }

  ghost predicate Shaped(s: State) {
    && |s.called| == |s.returned| == |s.stored|
    && forall r | r in s.requests :: r.from < |s.stored|
  }

  /** A host in a barrier call makes no other; a call returns when the answer is there. */
  ghost predicate Enabled(s: State, step: Step)
    requires Shaped(s)
  {
    match step
    case Call(h, _) => h < |s.called| && s.called[h] == s.returned[h]
    case Handle(r) => r in s.requests
    case Return(h) => h < |s.called| && h in s.responses && s.called[h] != s.returned[h]
  }

  ghost function Apply(s: State, step: Step): State
    requires Shaped(s) && Enabled(s, step)
  {
    match step
    case Call(h, id) =>
      s.(called := s.called[h := s.called[h] + 1], requests := s.requests + multiset{Request(h, id, s.called[h] + 1)})
    case Handle(r) =>
      var (counter, stored, all) := OnRequest(s.counter, s.stored, r);
      s.(requests := s.requests - multiset{r}, counter := counter, stored := stored,
         responses := s.responses + if all then Everyone(|s.stored|) else multiset{},
         rounds := s.rounds + if all then [stored] else [])
    case Return(h) =>
      s.(returned := s.returned[h := s.returned[h] + 1], responses := s.responses - multiset{h})
  }

  ghost predicate Run(n: nat, states: seq<State>, steps: seq<Step>) {
    && |states| == |steps| + 1
    && Init(states[0], n)
    && forall k | 0 <= k < |steps| ::
        Shaped(states[k]) && Enabled(states[k], steps[k]) && states[k + 1] == Apply(states[k], steps[k])
  }

  // ---- the invariant ----

  /** Where one host stands in the current round; `done` are the hosts whose request was handled in it. */
  ghost predicate HostInv(s: State, done: set<int>, h: nat)
    requires Shaped(s) && h < |s.called|
  {
    var k := |s.rounds|;
    if s.called[h] == k then
      h !in done && if s.returned[h] == k then s.responses[h] == 0 else s.returned[h] == k - 1 && s.responses[h] == 1
    else
      && s.called[h] == k + 1 && s.returned[h] == k && s.responses[h] == 0
      && if h in done then s.stored[h].from == h && s.stored[h].call == k + 1
         else exists r | r in s.requests :: r.from == h
  }

  ghost predicate RequestInv(s: State, done: set<int>, r: Request)
    requires Shaped(s)
  {
    && r.from < |s.called| && r.call == |s.rounds| + 1 == s.called[r.from] && r.from !in done
    && s.requests[r] == 1 && forall r' | r' in s.requests && r'.from == r.from :: r' == r
  }

  /** A finished round was made of that round's call of every host. */
  ghost predicate RoundInv(s: State, k: nat)
    requires k < |s.rounds|
  {
    && |s.rounds[k]| == |s.called|
    && forall h | 0 <= h < |s.called| :: s.rounds[k][h].from == h && s.rounds[k][h].call == k + 1
  }

  ghost predicate Inv(s: State, done: set<int>) {
    && Shaped(s) && s.called != []
    && (forall h | h in done :: 0 <= h < |s.called|)
    && s.counter == |done| < |s.called|
    && (forall h: nat | h < |s.called| :: HostInv(s, done, h))
    && (forall r | r in s.requests :: RequestInv(s, done, r))
    && (forall k: nat | k < |s.rounds| :: RoundInv(s, k))
  }

  lemma CallKeeps(s: State, done: set<int>, h: nat, id: nat)
    requires Inv(s, done) && Enabled(s, Call(h, id))
    ensures Inv(Apply(s, Call(h, id)), done)
  {
    var s' := Apply(s, Call(h, id));
    assert HostInv(s, done, h);
    var q := Request(h, id, s.called[h] + 1);
    forall r | r in s.requests ensures r.from != h {
      assert RequestInv(s, done, r);
    }
    forall r | r in s'.requests ensures RequestInv(s', done, r) {
      if r != q {
        assert RequestInv(s, done, r);
      }
      forall r' | r' in s'.requests && r'.from == r.from ensures r' == r {
        assert r' == q || RequestInv(s, done, r');
      }
    }
    forall g: nat | g < |s.called| ensures HostInv(s', done, g) {
      assert HostInv(s, done, g);
      if g == h {
        assert q in s'.requests;
      } else if r :| r in s.requests && r.from == g {
        assert r in s'.requests;
      }
    }
    forall k: nat | k < |s'.rounds| ensures RoundInv(s', k) {
      assert RoundInv(s, k);
    }
  }

  lemma ReturnKeeps(s: State, done: set<int>, h: nat)
    requires Inv(s, done) && Enabled(s, Return(h))
    ensures Inv(Apply(s, Return(h)), done)
    ensures s.called[h] == |s.rounds| && s.returned[h] + 1 == |s.rounds|
  {
    var s' := Apply(s, Return(h));
    assert HostInv(s, done, h);
    forall r | r in s'.requests ensures RequestInv(s', done, r) {
      assert RequestInv(s, done, r);
    }
    forall g: nat | g < |s.called| ensures HostInv(s', done, g) {
      assert HostInv(s, done, g);
    }
    forall k: nat | k < |s'.rounds| ensures RoundInv(s', k) {
      assert RoundInv(s, k);
    }
  }

  lemma HandleKeeps(s: State, done: set<int>, r: Request) returns (done': set<int>)
    requires Inv(s, done) && r in s.requests
    ensures Inv(Apply(s, Handle(r)), done')
  {
    assert RequestInv(s, done, r);
    done' := done + {r.from};
    if s.counter + 1 < |s.stored| {
      CountKeeps(s, done, r);
    } else {
      SubsetSize(done', Below(|s.called|));
      assert done' == Below(|s.called|);
      LastKeeps(s, done, r);
      done' := {};
    }
  }

  lemma CountKeepsHost(s: State, done: set<int>, r: Request, g: nat)
    requires Inv(s, done) && r in s.requests && s.counter + 1 < |s.stored| && g < |s.called|
    ensures Shaped(Apply(s, Handle(r))) && HostInv(Apply(s, Handle(r)), done + {r.from}, g)
  {
    var s' := Apply(s, Handle(r));
    assert RequestInv(s, done, r) && HostInv(s, done, g);
    if g != r.from && s.called[g] != |s.rounds| && g !in done {
      var q :| q in s.requests && q.from == g;
      assert q in s'.requests;
    }
  }

  lemma CountKeeps(s: State, done: set<int>, r: Request)
    requires Inv(s, done) && r in s.requests && s.counter + 1 < |s.stored|
    ensures Inv(Apply(s, Handle(r)), done + {r.from})
  {
    var s', done' := Apply(s, Handle(r)), done + {r.from};
    assert RequestInv(s, done, r);
    forall q | q in s'.requests ensures RequestInv(s', done', q) {
      assert RequestInv(s, done, q);
    }
    forall g: nat | g < |s.called| ensures HostInv(s', done', g) {
      CountKeepsHost(s, done, r, g);
    }
    forall k: nat | k < |s'.rounds| ensures RoundInv(s', k) {
      assert RoundInv(s, k);
    }
  }

  lemma LastIsAlone(s: State, done: set<int>, r: Request)
    requires Inv(s, done) && r in s.requests && s.counter + 1 == |s.stored|
    requires done + {r.from} == Below(|s.called|)
    ensures Apply(s, Handle(r)).requests == multiset{}
  {
    assert RequestInv(s, done, r);
    forall q | q in s.requests ensures q == r {
      assert RequestInv(s, done, q) && q.from in Below(|s.called|);
    }
  }

  lemma LastKeepsHost(s: State, done: set<int>, r: Request, g: nat)
    requires Inv(s, done) && r in s.requests && s.counter + 1 == |s.stored| && g < |s.called|
    requires done + {r.from} == Below(|s.called|)
    ensures Shaped(Apply(s, Handle(r))) && HostInv(Apply(s, Handle(r)), {}, g)
    ensures var stored := s.stored[r.from := r]; stored[g].from == g && stored[g].call == |s.rounds| + 1
  {
    LastIsAlone(s, done, r);
    assert RequestInv(s, done, r) && HostInv(s, done, g) && g in Below(|s.called|);
  }

  lemma LastKeeps(s: State, done: set<int>, r: Request)
    requires Inv(s, done) && r in s.requests && s.counter + 1 == |s.stored|
    requires done + {r.from} == Below(|s.called|)
    ensures Inv(Apply(s, Handle(r)), {})
  {
    var s' := Apply(s, Handle(r));
    LastIsAlone(s, done, r);
    forall g: nat | g < |s.called|
      ensures HostInv(s', {}, g) && s'.stored[g].from == g && s'.stored[g].call == |s.rounds| + 1
    {
      LastKeepsHost(s, done, r, g);
    }
    forall k: nat | k < |s'.rounds| ensures RoundInv(s', k) {
      if k < |s.rounds| {
        assert RoundInv(s, k);
      }
    }
  }

  lemma {:induction false} RunInv(n: nat, states: seq<State>, steps: seq<Step>) returns (done: set<int>)
    requires Run(n, states, steps)
    ensures Inv(states[|steps|], done) && |states[|steps|].called| == n
    decreases |steps|
  {
    if steps == [] {
      done := {};
      forall h: nat | h < n ensures HostInv(states[0], done, h) {
      }
    } else {
      var k := |steps| - 1;
      done := RunInv(n, states[..k + 1], steps[..k]);
      var s := states[k];
      match steps[k]
      case Call(h, id) => CallKeeps(s, done, h, id);
      case Handle(r) => done := HandleKeeps(s, done, r);
      case Return(h) => ReturnKeeps(s, done, h);
    }
  }

  // ---- what barriers are for ----

  /** No host returns from its k-th call before every host has made its k-th call. */
  lemma NoEarlyReturn(n: nat, states: seq<State>, steps: seq<Step>, h: nat, g: nat)
    requires Run(n, states, steps) && h < n && g < n
    ensures |states[|steps|].called| == |states[|steps|].returned| == n
    ensures states[|steps|].returned[h] <= states[|steps|].called[g]
  {
    var done := RunInv(n, states, steps);
    var s := states[|steps|];
    assert HostInv(s, done, h) && HostInv(s, done, g);
  }

  /** Hosts are never more than one finished round apart. */
  lemma RoundsStayClose(n: nat, states: seq<State>, steps: seq<Step>, h: nat, g: nat)
    requires Run(n, states, steps) && h < n && g < n
    ensures |states[|steps|].returned| == n
    ensures states[|steps|].returned[h] <= states[|steps|].returned[g] + 1
  {
    var done := RunInv(n, states, steps);
    var s := states[|steps|];
    assert HostInv(s, done, h) && HostInv(s, done, g);
  }

  /** Requests handled so far, over the whole run. */
  ghost function Handled(steps: seq<Step>): nat {
    if steps == [] then 0 else Handled(steps[..|steps| - 1]) + if steps[|steps| - 1].Handle? then 1 else 0
  }

  /** One step of the count. */
  lemma StepCounts(s: State, done: set<int>, step: Step)
    requires Inv(s, done) && Enabled(s, step)
    ensures var s', n, one := Apply(s, step), |s.called|, if step.Handle? then 1 else 0;
            || (s'.rounds == s.rounds && s'.counter == s.counter + one)
            || (|s'.rounds| == |s.rounds| + 1 && s'.counter == 0 && s.counter + one == n)
  {
  }

  lemma Tally(k: nat, k': nat, n: nat, c: nat, c': nat, one: nat, total: nat)
    requires total == k * n + c
    requires (k' == k && c' == c + one) || (k' == k + 1 && c' == 0 && c + one == n)
    ensures total + one == k' * n + c'
  {
  }

  /** The handled requests are one of each host for every finished round, and as many more as the counter says. */
  ghost predicate Counted(s: State, n: nat, handled: nat) {
    handled == |s.rounds| * n + s.counter && s.counter < n
  }

  lemma CountedStep(s: State, done: set<int>, step: Step, n: nat, handled: nat)
    requires Inv(s, done) && Enabled(s, step) && |s.called| == n && Counted(s, n, handled)
    ensures Counted(Apply(s, step), n, handled + if step.Handle? then 1 else 0)
  {
    var s' := Apply(s, step);
    StepCounts(s, done, step);
    Tally(|s.rounds|, |s'.rounds|, n, s.counter, s'.counter, if step.Handle? then 1 else 0, handled);
  }

  lemma LastStepCounts(n: nat, states: seq<State>, steps: seq<Step>, handled: nat)
    requires Run(n, states, steps) && steps != [] && Counted(states[|steps| - 1], n, handled)
    ensures Counted(states[|steps|], n, handled + if steps[|steps| - 1].Handle? then 1 else 0)
  {
    var k := |steps| - 1;
    RunPrefix(n, states, steps);
    var done := RunInv(n, states[..k + 1], steps[..k]);
    CountedStep(states[k], done, steps[k], n, handled);
  }

  lemma RunPrefix(n: nat, states: seq<State>, steps: seq<Step>)
    requires Run(n, states, steps) && steps != []
    ensures var k := |steps| - 1;
            Run(n, states[..k + 1], steps[..k]) && states[..k + 1][k] == states[k]
  {
  }

  /** The counter is the number of requests handled in the current round. */
  lemma {:induction false} CounterIsHandledThisRound(n: nat, states: seq<State>, steps: seq<Step>)
    requires Run(n, states, steps)
    ensures Counted(states[|steps|], n, Handled(steps))
    decreases |steps|
  {
    if steps == [] {
      assert Init(states[0], n);
    } else {
      var k := |steps| - 1;
      RunPrefix(n, states, steps);
      CounterIsHandledThisRound(n, states[..k + 1], steps[..k]);
      LastStepCounts(n, states, steps, Handled(steps[..k]));
    }
  }

  /** What the manager merges when it answers round k is exactly the k-th request of every host. */
  lemma RoundsAreWhole(n: nat, states: seq<State>, steps: seq<Step>, k: nat, h: nat)
    requires Run(n, states, steps) && k < |states[|steps|].rounds| && h < n
    ensures |states[|steps|].rounds[k]| == n
    ensures states[|steps|].rounds[k][h].from == h && states[|steps|].rounds[k][h].call == k + 1
  {
    var done := RunInv(n, states, steps);
    assert RoundInv(states[|steps|], k);
  }

  /** When every host is in a call, some message is there to be handled: barriers do not deadlock. */
  lemma SomeoneCanMove(n: nat, states: seq<State>, steps: seq<Step>) returns (step: Step)
    requires Run(n, states, steps)
    requires Shaped(states[|steps|])
    requires forall h | 0 <= h < |states[|steps|].called| :: states[|steps|].called[h] != states[|steps|].returned[h]
    ensures Enabled(states[|steps|], step) && !step.Call?
  {
    var done := RunInv(n, states, steps);
    var s := states[|steps|];
    SubsetSize(done, Below(n));
    forall h | h in done ensures h in Below(n) {
    }
    var h := Pick(Below(n) - done);
    assert HostInv(s, done, h);
    if s.called[h] == |s.rounds| {
      step := Return(h);
    } else {
      var r :| r in s.requests && r.from == h;
      step := Handle(r);
    }
  }
}
