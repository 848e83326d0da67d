/** What every run on one lock guarantees: one token, no cycle of pointers, every waiter in one place. */
module LockTheorems {
  import opened Wrappers
  import opened LockHost
  import opened LockProtocol
  import opened PathReversal
  import opened LockQueue

  lemma DeliverRequestKeeps(s: State, g: Queue, m: Msg, pages: seq<nat>) returns (g': Queue)
    requires StateShaped(s) && Inv(s, g) && m in s.net && m.Request?
    ensures Inv(Apply(s, DeliverRequest(m, pages)), g') && Reversed(g, m, g')
  {
    var t := m.to;
    assert t < |s.hosts| && MsgShaped(m, |s.hosts|);
    var h := s.hosts[t];
    var s' := Apply(s, DeliverRequest(m, pages));
    var r := OnRequest(h, t, m, pages);
    assert HostInv(s, t);
    if h.haveToken && !h.locked {
      assert multiset(r.1) == multiset{r.1[0]};
      g' := GiveKeeps(s, s', g, m, r.1[0]);
    } else if h.last == t && h.next.None? && (h.locked || h.waiting) {
      g' := StoreKeeps(s, s', g, m);
    } else {
      assert multiset(r.1) == multiset{r.1[0]};
      g' := ForwardKeeps(s, s', g, m, r.1[0]);
    }
  }

  /** What one step does to the forest and to the tails of the groups that have a request in flight. */
  ghost predicate QueueStep(g: Queue, step: Step, g': Queue) {
    match step
    case DeliverRequest(m, _) => Reversed(g, m, g')
    case _ => g'.par == g.par && |g'.tl| == |g.tl| == |g.req| == |g'.req|
              && forall r | 0 <= r < |g.req| && g.req[r].Some? && g'.req[r].Some? :: g'.tl[r] == g.tl[r]
  }

  lemma AcquireKeeps(s: State, g: Queue, i: nat) returns (g': Queue)
    requires Inv(s, g) && StateShaped(s) && Enabled(s, Acquire(i))
    ensures Inv(Apply(s, Acquire(i)), g') && QueueStep(g, Acquire(i), g')
  {
    var s' := Apply(s, Acquire(i));
    assert HostInv(s, i);
    if s.hosts[i].haveToken {
      LocalAcquireKeeps(s, s', g, i);
      g' := g;
    } else {
      var m := Request(s.hosts[i].last, i, s.hosts[i].timestamp);
      assert multiset([m]) == multiset{m};
      g' := SendRequestKeeps(s, s', g, i, m);
      assert RequestInv(s, g, i);
    }
  }

  lemma ReleaseKeeps(s: State, g: Queue, i: nat, pages: seq<nat>) returns (g': Queue)
    requires Inv(s, g) && StateShaped(s) && Enabled(s, Release(i, pages))
    ensures Inv(Apply(s, Release(i, pages)), g') && QueueStep(g, Release(i, pages), g')
  {
    var s' := Apply(s, Release(i, pages));
    var r := ReleaseLock(s.hosts[i], i, pages);
    if s.hosts[i].next.Some? {
      assert multiset(r.1) == multiset{r.1[0]};
      g' := PassTokenKeeps(s, s', g, i, r.1[0]);
      assert RequestInv(s', g', g'.tok);
    } else {
      LocalReleaseKeeps(s, s', g, i);
      g' := g;
    }
  }

  lemma StepKeeps(s: State, g: Queue, step: Step) returns (g': Queue)
    requires StateShaped(s) && Inv(s, g) && Enabled(s, step)
    ensures Inv(Apply(s, step), g') && QueueStep(g, step, g')
  {
    match step
    case Acquire(i) =>
      g' := AcquireKeeps(s, g, i);
    case Release(i, pages) =>
      g' := ReleaseKeeps(s, g, i, pages);
    case DeliverRequest(m, pages) =>
      g' := DeliverRequestKeeps(s, g, m, pages);
    case DeliverGrant(m, pages) =>
      assert MsgShaped(m, |s.hosts|);
      AddAllKeepsLock(NewInterval(s.hosts[m.to], m.to, pages), m.intervals);
      g' := GrantArrivesKeeps(s, Apply(s, step), g, m);
  }

  lemma InitInv(s: State, n: nat) returns (g: Queue)
    requires Init(s, n)
    ensures Inv(s, g)
  {
    g := Queue(MANAGER, None, seq(n, _ => None), seq(n, _ => 0), seq(n, i => i), seq(n, _ => 0), seq(n, i => i),
               seq(n, i => if i == MANAGER then -1 else MANAGER));
    var rank: seq<nat> := seq(n, i => if i == MANAGER then 0 else 1);
    assert Ranked(g.par, rank);
    assert s.hosts[MANAGER] == InitialHost(MANAGER, n);
  }

  /** Every state of every run has a queue, and no step of a run is blocked by the shape test. */
  lemma {:induction false} RunInv(n: nat, states: seq<State>, steps: seq<Step>) returns (g: Queue)
    requires Run(n, states, steps)
    ensures Inv(states[|steps|], g) && |states[|steps|].hosts| == n
    ensures StateShaped(states[|steps|])
    decreases |steps|
  {
    if steps == [] {
      g := InitInv(states[0], n);
      forall i | 0 <= i < n ensures |states[0].hosts[i].timestamp| == n && Shaped(states[0].hosts[i], n) {
        assert states[0].hosts[i] == InitialHost(i, n);
      }
    } else {
      var k := |steps| - 1;
      var g0 := RunInv(n, states[..k + 1], steps[..k]);
      assert states[..k + 1][k] == states[k];
      assert states[k + 1] == Apply(states[k], steps[k]);
      g := StepKeeps(states[k], g0, steps[k]);
      forall i | 0 <= i < n ensures states[k].hosts[i].last < n && states[k].hosts[i].nextId < n {
        assert HostInv(states[k], i);
      }
      ApplyShaped(states[k], steps[k]);
    }
  }

  lemma StateAt(n: nat, states: seq<State>, steps: seq<Step>, k: nat) returns (g: Queue)
    requires Run(n, states, steps) && k <= |steps|
    ensures Inv(states[k], g) && |states[k].hosts| == n && n > 0 && StateShaped(states[k])
    ensures k < |steps| ==>
              StateShaped(states[k]) && Enabled(states[k], steps[k]) && states[k + 1] == Apply(states[k], steps[k])
  {
    g := RunInv(n, states[..k + 1], steps[..k]);
    assert states[..k + 1][k] == states[k];
    assert Init(states[0], n);
  }

  // ---- safety ----

  ghost predicate HolderOnly(s: State, i: nat) {
    && i < |s.hosts| && s.hosts[i].haveToken
    && (forall j | 0 <= j < |s.hosts| && j != i :: !s.hosts[j].haveToken)
    && (forall m | m in s.net :: !m.Grant?)
  }

  ghost predicate FlyingOnly(s: State, m: Msg) {
    && m in s.net && m.Grant? && s.net[m] == 1
    && (forall m' | m' in s.net && m'.Grant? :: m' == m)
    && (forall j | 0 <= j < |s.hosts| :: !s.hosts[j].haveToken)
  }

  /** The token exists exactly once: at one host, or in one message. */
  lemma TokenConserved(n: nat, states: seq<State>, steps: seq<Step>)
    requires Run(n, states, steps)
    ensures var s := states[|steps|];
            (exists i: nat :: HolderOnly(s, i)) || (exists m :: FlyingOnly(s, m))
  {
    var s := states[|steps|];
    var g := RunInv(n, states, steps);
    forall m | m in s.net ensures m.Grant? ==> g.grant == Some(m) && s.net[m] == 1 {
      assert MsgInv(s, g, m);
    }
    forall j: nat | j < |s.hosts| ensures s.hosts[j].haveToken ==> j == g.tok {
      assert HolderInv(s, g, j);
    }
    if g.grant.None? {
      assert HolderOnly(s, g.tok);
    } else {
      assert FlyingOnly(s, g.grant.value);
    }
  }

  /** At most one host is inside the lock, and it has the token. */
  lemma MutualExclusion(n: nat, states: seq<State>, steps: seq<Step>, i: nat, j: nat)
    requires Run(n, states, steps) && i < n && j < n
    ensures |states[|steps|].hosts| == n
    ensures states[|steps|].hosts[i].locked ==> states[|steps|].hosts[i].haveToken
    ensures states[|steps|].hosts[i].locked && states[|steps|].hosts[j].locked ==> i == j
  {
    var s := states[|steps|];
    var g := RunInv(n, states, steps);
    assert HostInv(s, i) && HostInv(s, j) && HolderInv(s, g, i) && HolderInv(s, g, j);
  }

  // ---- the shape of the queue ----

  /** `rank` falls along every `last` pointer and from every requester to the target of its request. */
  ghost predicate Descends(s: State, rank: seq<nat>) {
    && |rank| == |s.hosts|
    && (forall i | 0 <= i < |s.hosts| ::
          s.hosts[i].last < |s.hosts| && (s.hosts[i].last != i ==> rank[s.hosts[i].last] < rank[i]))
    && (forall m | m in s.net && m.Request? ::
          m.to < |s.hosts| && m.from < |s.hosts| && rank[m.to] < rank[m.from])
  }

  /** `last` pointers and requests in flight never form a cycle; in particular no host is sent its own request. */
  lemma NoCycle(n: nat, states: seq<State>, steps: seq<Step>)
    requires Run(n, states, steps)
    ensures exists rank: seq<nat> :: Descends(states[|steps|], rank)
    ensures forall m | m in states[|steps|].net && m.Request? :: m.to != m.from
  {
    var s := states[|steps|];
    var g := RunInv(n, states, steps);
    var rank: seq<nat> :| Ranked(g.par, rank);
    forall i | 0 <= i < |s.hosts|
      ensures s.hosts[i].last < |s.hosts| && (s.hosts[i].last != i ==> rank[s.hosts[i].last] < rank[i])
    {
      assert HostInv(s, i) && LinkInv(s, g, i);
    }
    forall m | m in s.net && m.Request?
      ensures m.to < |s.hosts| && m.from < |s.hosts| && rank[m.to] < rank[m.from]
    {
      RequestLink(s, g, m);
      ReachRank(g.par, rank, m.from, g.tl[m.from]);
    }
    assert Descends(s, rank);
  }

  /** The branch that forwards a request to the handling host itself is never taken. */
  lemma NeverForwardsToSelf(n: nat, states: seq<State>, steps: seq<Step>, m: Msg, pages: seq<nat>)
    requires Run(n, states, steps) && m in states[|steps|].net && m.Request?
    ensures StateShaped(states[|steps|]) && m.to < |states[|steps|].hosts|
    ensures var r := OnRequest(states[|steps|].hosts[m.to], m.to, m, pages);
            forall k | 0 <= k < |r.1| :: r.1[k].to != m.to
  {
    var s := states[|steps|];
    var g := RunInv(n, states, steps);
    RequestLink(s, g, m);
    assert HostInv(s, m.to);
  }

  ghost predicate InRequest(s: State, i: nat) {
    exists m :: m in s.net && m.Request? && m.from == i
  }

  ghost predicate InNext(s: State, i: nat) {
    exists j: nat :: Follows(s, j, i)
  }

  ghost predicate InGrant(s: State, i: nat) {
    exists m :: m in s.net && m.Grant? && m.to == i
  }

  /** A waiting host is in exactly one place, once; any other host is in none. */
  lemma OnePlace(n: nat, states: seq<State>, steps: seq<Step>, i: nat)
    requires Run(n, states, steps) && i < n
    ensures var s := states[|steps|];
            |s.hosts| == n && if s.hosts[i].waiting
            then (InRequest(s, i) && !InNext(s, i) && !InGrant(s, i))
              || (!InRequest(s, i) && InNext(s, i) && !InGrant(s, i))
              || (!InRequest(s, i) && !InNext(s, i) && InGrant(s, i))
            else !InRequest(s, i) && !InNext(s, i) && !InGrant(s, i)
    ensures var s := states[|steps|];
            && (forall m, m' | m in s.net && m' in s.net && m.Request? && m'.Request? && m.from == m'.from == i ::
                  m == m')
            && (forall j: nat, k: nat | Follows(s, j, i) && Follows(s, k, i) :: j == k)
            && (forall m | m in s.net :: s.net[m] == 1)
  {
    var s := states[|steps|];
    var g := RunInv(n, states, steps);
    assert HostInv(s, i) && HolderInv(s, g, i) && MemberInv(s, g, i) && RequestInv(s, g, i) && RequestInv(s, g, g.tok);
    forall m | m in s.net
      ensures s.net[m] == 1
      ensures m.Request? && m.from == i ==> g.req[i] == Some(m)
      ensures m.Grant? ==> g.grant == Some(m)
    {
      assert MsgInv(s, g, m);
    }
    forall j: nat | Follows(s, j, i) ensures g.prev[i] == j && g.hd[i] != i && s.hosts[i].waiting {
      assert FollowInv(s, g, j);
    }
    assert InRequest(s, i) <==> g.req[i].Some?;
    assert InGrant(s, i) <==> g.grant.Some? && g.tok == i;
    if s.hosts[i].waiting && g.hd[i] != i {
      assert Follows(s, g.prev[i], i);
    }
  }

  /** If some host waits, a message is in flight or some host is inside the lock. */
  lemma WaitersAreServed(n: nat, states: seq<State>, steps: seq<Step>, w: nat)
    requires Run(n, states, steps) && w < n
    ensures |states[|steps|].hosts| == n
    ensures states[|steps|].hosts[w].waiting ==>
            states[|steps|].net != multiset{} || exists i | 0 <= i < n :: states[|steps|].hosts[i].locked
  {
    var s := states[|steps|];
    var g := RunInv(n, states, steps);
    assert HostInv(s, w) && MemberInv(s, g, w);
    if s.hosts[w].waiting && s.net == multiset{} {
      var h := g.hd[w];
      assert MemberInv(s, g, h) && RequestInv(s, g, h) && HostInv(s, h);
      assert h == g.tok && s.hosts[h].haveToken;
      assert PairInv(s, g, h, w) && PairInv(s, g, w, h);
      assert s.hosts[h].locked;
    }
  }
}
