/** The distributed queue behind one lock.

    Waiting hosts form groups linked by `nextId`.  The head of a group holds the token, is being sent the
    token, or has a request in flight; the tail of a group is the one host whose `last` is itself.
    A `Queue` describes, for each reachable state, those groups and the forest whose parent links are the
    `last` pointers plus, for the tail of a group, the target of that group's request in flight. */
module LockQueue {
  import opened Wrappers
  import opened LockHost
  import opened LockProtocol
  import opened PathReversal

  /** `tok`: the host that holds the token or is being sent it; `grant`: the token message in flight;
      `req[i]`: the request of `i` in flight; `prev[i]`: the host that stores `i` as its successor;
      `hd[i]`, `pos[i]`: head of the group of `i` and place in it; `tl[h]`: tail of the group of `h`;
      `par`: the forest. */
  datatype Queue = Queue(
    tok: nat,
    grant: Option<Msg>,
    req: seq<Option<Msg>>,
    prev: seq<nat>,
    hd: seq<nat>,
    pos: seq<int>,
    tl: seq<nat>,
    par: Parents)

  predicate Busy(h: Host) {
    h.waiting || h.haveToken
  }

  ghost predicate Sized(s: State, g: Queue) {
    && |g.req| == |g.prev| == |g.hd| == |g.pos| == |g.tl| == |g.par| == |s.hosts|
    && g.tok < |s.hosts|
  }

  ghost predicate HostInv(s: State, i: nat) {
    i < |s.hosts| ==>
      var h := s.hosts[i];
      && h.last < |s.hosts| && h.nextId < |s.hosts|
      && (h.locked ==> h.haveToken)
      && !(h.waiting && h.haveToken)
      && (h.haveToken && !h.locked ==> h.next.None?)
      && (Busy(h) ==> (h.next.None? <==> h.last == i))
      && (!Busy(h) ==> h.next.None? && h.last != i)
  }

  ghost predicate TokenInv(s: State, g: Queue)
    requires Sized(s, g)
  {
    && Busy(s.hosts[g.tok]) && g.hd[g.tok] == g.tok
    && g.tl[g.tok] < |s.hosts| && g.par[g.tl[g.tok]] == -1
    && (s.hosts[g.tok].haveToken <==> g.grant.None?)
    && (g.grant.Some? ==> g.grant.value in s.net && g.grant.value.Grant? && g.grant.value.to == g.tok)
  }

  ghost predicate HolderInv(s: State, g: Queue, i: nat) {
    i < |s.hosts| && s.hosts[i].haveToken ==> i == g.tok
  }

  ghost predicate MsgInv(s: State, g: Queue, m: Msg)
    requires Sized(s, g)
  {
    m in s.net ==>
      && s.net[m] == 1
      && m.to < |s.hosts|
      && (m.Grant? ==> g.grant == Some(m))
      && (m.Request? ==> m.from < |s.hosts| && g.req[m.from] == Some(m))
  }

  ghost predicate RequestInv(s: State, g: Queue, i: nat)
    requires Sized(s, g)
  {
    i < |s.hosts| && g.req[i].Some? ==>
      var m := g.req[i].value;
      && m in s.net && m.Request? && m.from == i
      && s.hosts[i].waiting && i != g.tok && g.hd[i] == i
      && g.tl[i] < |s.hosts| && g.par[g.tl[i]] == m.to
  }

  ghost predicate Follows(s: State, j: nat, k: nat) {
    j < |s.hosts| && s.hosts[j].next.Some? && s.hosts[j].nextId == k
  }

  ghost predicate FollowInv(s: State, g: Queue, j: nat)
    requires Sized(s, g)
  {
    j < |s.hosts| && s.hosts[j].next.Some? ==>
      var k := s.hosts[j].nextId;
      && k < |s.hosts| && s.hosts[k].waiting
      && g.hd[k] == g.hd[j] && g.hd[k] != k && g.pos[k] == g.pos[j] + 1 && g.prev[k] == j
  }

  /** Every busy host has its place in one group. */
  ghost predicate MemberInv(s: State, g: Queue, i: nat)
    requires Sized(s, g)
  {
    i < |s.hosts| && Busy(s.hosts[i]) ==>
      var h := g.hd[i];
      && h < |s.hosts| && Busy(s.hosts[h]) && g.hd[h] == h
      && g.pos[h] <= g.pos[i]
      && (h == i ==> i == g.tok || g.req[i].Some?)
      && (h != i ==> Follows(s, g.prev[i], i))
      && g.tl[h] < |s.hosts| && Busy(s.hosts[g.tl[h]]) && g.hd[g.tl[h]] == h && s.hosts[g.tl[h]].next.None?
      && Reaches(g.par, i, g.tl[h])
  }

  /** Places are distinct, and the tail is last. */
  ghost predicate PairInv(s: State, g: Queue, i: nat, j: nat)
    requires Sized(s, g)
  {
    i < |s.hosts| && j < |s.hosts| && Busy(s.hosts[i]) && Busy(s.hosts[j]) && g.hd[i] == g.hd[j] ==>
      && (g.pos[i] == g.pos[j] ==> i == j)
      && (s.hosts[i].next.None? ==> g.pos[j] <= g.pos[i])
  }

  ghost predicate LinkInv(s: State, g: Queue, i: nat)
    requires Sized(s, g)
  {
    i < |s.hosts| && s.hosts[i].last != i ==> g.par[i] == s.hosts[i].last
  }

  ghost predicate Inv(s: State, g: Queue) {
    && Sized(s, g)
    && Acyclic(g.par)
    && TokenInv(s, g)
    && (forall i: nat :: HostInv(s, i))
    && (forall i: nat :: HolderInv(s, g, i))
    && (forall m :: MsgInv(s, g, m))
    && (forall i: nat :: RequestInv(s, g, i))
    && (forall i: nat :: FollowInv(s, g, i))
    && (forall i: nat :: MemberInv(s, g, i))
    && (forall i: nat, j: nat :: PairInv(s, g, i, j))
    && (forall i: nat :: LinkInv(s, g, i))
  }

  /** What a step changes, as far as the queue is concerned. */
  ghost predicate Changed(s: State, s': State, i: nat, h: Host) {
    && i < |s.hosts| == |s'.hosts|
    && SameLock(s'.hosts[i], h)
    && forall j: nat | j < |s.hosts| && j != i :: s'.hosts[j] == s.hosts[j]
  }

  lemma LocalAcquireKeeps(s: State, s': State, g: Queue, i: nat)
    requires Inv(s, g) && i < |s.hosts| && s.hosts[i].haveToken
    requires Changed(s, s', i, s.hosts[i].(locked := true)) && s'.net == s.net
    ensures Inv(s', g)
  {
    forall k: nat ensures HostInv(s', k) && HolderInv(s', g, k) && LinkInv(s', g, k) {
      assert HostInv(s, k) && HolderInv(s, g, k) && LinkInv(s, g, k);
    }
    forall k: nat ensures RequestInv(s', g, k) { assert RequestInv(s, g, k); }
    forall m ensures MsgInv(s', g, m) { assert MsgInv(s, g, m); }
    forall k: nat ensures FollowInv(s', g, k) { assert FollowInv(s, g, k); }
    forall k: nat ensures MemberInv(s', g, k) { assert MemberInv(s, g, k); }
    forall k: nat, j: nat ensures PairInv(s', g, k, j) { assert PairInv(s, g, k, j); }
  }

  lemma LocalReleaseKeeps(s: State, s': State, g: Queue, i: nat)
    requires Inv(s, g) && i < |s.hosts| && s.hosts[i].locked && s.hosts[i].next.None?
    requires Changed(s, s', i, s.hosts[i].(locked := false)) && s'.net == s.net
    ensures Inv(s', g)
  {
    assert HostInv(s, i);
    forall k: nat ensures HostInv(s', k) && HolderInv(s', g, k) && LinkInv(s', g, k) {
      assert HostInv(s, k) && HolderInv(s, g, k) && LinkInv(s, g, k);
    }
    forall k: nat ensures RequestInv(s', g, k) { assert RequestInv(s, g, k); }
    forall m ensures MsgInv(s', g, m) { assert MsgInv(s, g, m); }
    forall k: nat ensures FollowInv(s', g, k) { assert FollowInv(s, g, k); }
    forall k: nat ensures MemberInv(s', g, k) { assert MemberInv(s, g, k); }
    forall k: nat, j: nat ensures PairInv(s', g, k, j) { assert PairInv(s, g, k, j); }
  }

  lemma GrantArrivesKeeps(s: State, s': State, g: Queue, m: Msg) returns (g': Queue)
    requires Inv(s, g) && m in s.net && m.Grant? && m.to < |s.hosts|
    requires Changed(s, s', m.to, s.hosts[m.to].(locked := true, haveToken := true, waiting := false))
    requires s'.net == s.net - multiset{m}
    ensures Inv(s', g') && g'.par == g.par && g'.tl == g.tl
  {
    var w := m.to;
    assert MsgInv(s, g, m);
    assert w == g.tok && HostInv(s, w) && RequestInv(s, g, w) && MemberInv(s, g, w);
    g' := g.(grant := None);
    forall k: nat ensures HostInv(s', k) && HolderInv(s', g', k) && LinkInv(s', g', k) {
      assert HostInv(s, k) && HolderInv(s, g, k) && LinkInv(s, g, k);
    }
    forall k: nat ensures RequestInv(s', g', k) { assert RequestInv(s, g, k); }
    forall m' ensures MsgInv(s', g', m') { assert MsgInv(s, g, m'); }
    forall k: nat ensures FollowInv(s', g', k) { assert FollowInv(s, g, k); }
    forall k: nat ensures MemberInv(s', g', k) { assert MemberInv(s, g, k); }
    forall k: nat, j: nat ensures PairInv(s', g', k, j) { assert PairInv(s, g, k, j); }
  }

  /** Host `i` sends a request along its `last` pointer. */
  ghost predicate Sends(s: State, s': State, i: nat, m: Msg) {
    && i < |s.hosts| && !Busy(s.hosts[i])
    && m == Request(s.hosts[i].last, i, s.hosts[i].timestamp)
    && Changed(s, s', i, s.hosts[i].(last := i, waiting := true))
    && s'.net == s.net + multiset{m}
  }

  ghost function Sent(s: State, g: Queue, i: nat, m: Msg): (r: Queue)
    requires Sized(s, g) && i < |s.hosts|
    ensures Sized(s, r)
  {
    g.(req := g.req[i := Some(m)], hd := g.hd[i := i], pos := g.pos[i := 0], tl := g.tl[i := i])
  }

  lemma SendKeepsMembers(s: State, s': State, g: Queue, i: nat, m: Msg, k: nat)
    requires Inv(s, g) && Sends(s, s', i, m)
    ensures MemberInv(s', Sent(s, g, i, m), k) && RequestInv(s', Sent(s, g, i, m), k)
  {
    assert HostInv(s, i) && RequestInv(s, g, i) && LinkInv(s, g, i);
    assert RequestInv(s, g, k) && MemberInv(s, g, k);
  }

  lemma SendKeepsPairs(s: State, s': State, g: Queue, i: nat, m: Msg, k: nat, j: nat)
    requires Inv(s, g) && Sends(s, s', i, m)
    ensures PairInv(s', Sent(s, g, i, m), k, j)
  {
    assert PairInv(s, g, k, j) && MemberInv(s, g, k) && MemberInv(s, g, j);
  }

  /** A host without the token sends a request along `last` and becomes a group of its own. */
  lemma SendRequestKeeps(s: State, s': State, g: Queue, i: nat, m: Msg) returns (g': Queue)
    requires Inv(s, g) && Sends(s, s', i, m)
    ensures Inv(s', g') && g'.par == g.par && g'.tl == g.tl[i := i]
  {
    assert HostInv(s, i) && RequestInv(s, g, i) && MsgInv(s, g, m);
    g' := Sent(s, g, i, m);
    assert MemberInv(s, g, g.tok);
    forall k: nat ensures HostInv(s', k) && HolderInv(s', g', k) && LinkInv(s', g', k) {
      assert HostInv(s, k) && HolderInv(s, g, k) && LinkInv(s, g, k);
    }
    forall m' ensures MsgInv(s', g', m') { assert MsgInv(s, g, m'); }
    forall k: nat ensures FollowInv(s', g', k) {
      assert FollowInv(s, g, k) && HostInv(s, k);
    }
    forall k: nat ensures MemberInv(s', g', k) && RequestInv(s', g', k) { SendKeepsMembers(s, s', g, i, m, k); }
    forall k: nat, j: nat ensures PairInv(s', g', k, j) { SendKeepsPairs(s, s', g, i, m, k, j); }
  }

  /** The holder `i` releases with a stored successor and sends it the token. */
  ghost predicate Passes(s: State, s': State, i: nat, m: Msg) {
    && i < |s.hosts| && s.hosts[i].locked && s.hosts[i].next.Some?
    && m.Grant? && m.to == s.hosts[i].nextId
    && Changed(s, s', i, s.hosts[i].(locked := false, next := None, nextId := MANAGER, haveToken := false))
    && s'.net == s.net + multiset{m}
  }

  ghost function Passed(s: State, g: Queue, i: nat, m: Msg): (r: Queue)
    requires Sized(s, g) && i < |s.hosts| && m.Grant? && m.to < |s.hosts|
    ensures Sized(s, r)
  {
    var n, k := |s.hosts|, m.to;
    g.(tok := k, grant := Some(m),
       hd := seq(n, y requires 0 <= y < n => if g.hd[y] == i then k else g.hd[y]),
       tl := g.tl[k := g.tl[i]])
  }

  lemma PassFacts(s: State, s': State, g: Queue, i: nat, m: Msg)
    requires Inv(s, g) && Passes(s, s', i, m)
    ensures i == g.tok && m.to < |s.hosts| && m.to != i && g.hd[m.to] == i == g.hd[i] && g.req[m.to].None?
    ensures s.hosts[m.to].waiting && g.tl[i] < |s.hosts| && g.par[g.tl[i]] == -1
    ensures g.pos[m.to] == g.pos[i] + 1 && g.prev[m.to] == i && s.net[m] == 0
  {
    assert HostInv(s, i) && HolderInv(s, g, i) && FollowInv(s, g, i) && MemberInv(s, g, i) && MsgInv(s, g, m);
    assert RequestInv(s, g, m.to);
  }

  lemma PassKeepsMembers(s: State, s': State, g: Queue, i: nat, m: Msg, y: nat)
    requires Inv(s, g) && Passes(s, s', i, m) && m.to < |s.hosts|
    ensures MemberInv(s', Passed(s, g, i, m), y)
  {
    PassFacts(s, s', g, i, m);
    assert HostInv(s, i) && HostInv(s, m.to) && MemberInv(s, g, m.to);
    assert MemberInv(s, g, y) && PairInv(s, g, y, i) && PairInv(s, g, i, y);
  }

  lemma PassKeepsHosts(s: State, s': State, g: Queue, i: nat, m: Msg, y: nat)
    requires Inv(s, g) && Passes(s, s', i, m) && m.to < |s.hosts|
    ensures var g' := Passed(s, g, i, m); HostInv(s', y) && HolderInv(s', g', y) && LinkInv(s', g', y)
  {
    PassFacts(s, s', g, i, m);
    assert HostInv(s, i) && HostInv(s, m.to) && MemberInv(s, g, m.to);
    assert HostInv(s, y) && HolderInv(s, g, y) && LinkInv(s, g, y);
  }

  lemma PassKeepsRequests(s: State, s': State, g: Queue, i: nat, m: Msg, y: nat)
    requires Inv(s, g) && Passes(s, s', i, m) && m.to < |s.hosts|
    ensures RequestInv(s', Passed(s, g, i, m), y) && FollowInv(s', Passed(s, g, i, m), y)
  {
    PassFacts(s, s', g, i, m);
    assert HostInv(s, i) && RequestInv(s, g, y) && FollowInv(s, g, y);
    assert TokenInv(s, g) && HostInv(s, y);
  }

  lemma PassKeepsPairs(s: State, s': State, g: Queue, i: nat, m: Msg, y: nat, j: nat)
    requires Inv(s, g) && Passes(s, s', i, m) && m.to < |s.hosts|
    ensures PairInv(s', Passed(s, g, i, m), y, j)
  {
    PassFacts(s, s', g, i, m);
    assert HostInv(s, i) && !Busy(s'.hosts[i]);
    assert PairInv(s, g, y, j) && MemberInv(s, g, y) && MemberInv(s, g, j);
  }

  /** Releasing with a stored successor: the head leaves its group and the successor becomes the head. */
  lemma PassTokenKeeps(s: State, s': State, g: Queue, i: nat, m: Msg) returns (g': Queue)
    requires Inv(s, g) && Passes(s, s', i, m)
    ensures Inv(s', g') && g'.par == g.par && g'.tok < |g.tl| == |g'.tl|
    ensures forall r | 0 <= r < |g.tl| && r != g'.tok :: g'.tl[r] == g.tl[r]
  {
    PassFacts(s, s', g, i, m);
    assert HostInv(s, i) && HostInv(s, m.to) && MemberInv(s, g, m.to);
    g' := Passed(s, g, i, m);
    forall y: nat ensures HostInv(s', y) && HolderInv(s', g', y) && LinkInv(s', g', y) {
      PassKeepsHosts(s, s', g, i, m, y);
    }
    forall y: nat ensures RequestInv(s', g', y) && FollowInv(s', g', y) { PassKeepsRequests(s, s', g, i, m, y); }
    forall m' ensures MsgInv(s', g', m') { assert MsgInv(s, g, m'); }
    forall y: nat ensures MemberInv(s', g', y) { PassKeepsMembers(s, s', g, i, m, y); }
    forall y: nat, j: nat ensures PairInv(s', g', y, j) { PassKeepsPairs(s, s', g, i, m, y, j); }
  }

  /** The tail `x` of the requester's group points at the host `t` that handles the request, and the
      requester leads to it: the link that the handler reverses. */
  lemma RequestLink(s: State, g: Queue, m: Msg)
    requires Inv(s, g) && m in s.net && m.Request?
    ensures m.to < |s.hosts| && m.from < |s.hosts| && m.to != m.from
    ensures var x := g.tl[m.from]; x < |s.hosts| && x != m.to && g.par[x] == m.to
    ensures Reaches(g.par, m.from, g.tl[m.from])
    ensures Acyclic(Reverse(g.par, m.to, g.tl[m.from], m.from))
    ensures s.hosts[m.from].waiting && g.hd[m.from] == m.from && m.from != g.tok && g.req[m.from] == Some(m)
    ensures s.net[m] == 1
  {
    assert MsgInv(s, g, m) && RequestInv(s, g, m.from) && MemberInv(s, g, m.from);
    ReverseKeepsAcyclic(g.par, m.to, g.tl[m.from], m.from);
  }

  /** Chains towards tails of groups other than the one that ends in `t` survive the reversal. */
  lemma ReachKept(s: State, g: Queue, m: Msg, y: nat)
    requires Inv(s, g) && m in s.net && m.Request? && m.to < |s.hosts| && m.from < |s.hosts|
    requires y < |s.hosts| && Busy(s.hosts[y]) && g.tl[m.from] < |s.hosts|
    ensures g.hd[y] < |s.hosts|
    ensures var z := g.tl[g.hd[y]]; var x := g.tl[m.from];
            Reaches(Reverse(g.par, m.to, x, m.from), y, if z == m.to then x else z)
  {
    RequestLink(s, g, m);
    assert MemberInv(s, g, y);
    ReverseKeepsReach(g.par, m.to, g.tl[m.from], m.from, y, g.tl[g.hd[y]]);
  }

  /** Handling a request reverses its link; a group with a request in flight keeps its tail, unless that handled the
      request and stored it: then it gets the requester's. */
  ghost predicate Reversed(g: Queue, m: Msg, g': Queue) {
    && m.Request? && m.to < |g.par| && m.from < |g.tl| == |g.par| == |g.req| == |g'.tl| && g.tl[m.from] < |g.par|
    && g'.par == Reverse(g.par, m.to, g.tl[m.from], m.from)
    && forall r | 0 <= r < |g.req| && g.req[r].Some? :: g'.tl[r] == if g.tl[r] == m.to then g.tl[m.from] else g.tl[r]
  }

  /** No group with a request in flight ends in the host that handles a request without storing it. */
  lemma TailsKept(s: State, g: Queue, m: Msg, r: nat)
    requires Inv(s, g) && m in s.net && m.Request? && r < |s.hosts| && g.req[r].Some? && g.tl[r] == m.to
    ensures m.to < |s.hosts| && s.hosts[m.to].last == m.to && Busy(s.hosts[m.to]) && g.hd[m.to] == r && r != g.tok
  {
    RequestLink(s, g, m);
    assert RequestInv(s, g, r) && MemberInv(s, g, r) && HostInv(s, m.to);
  }

  /** The host `t` that handles the request is not the tail of its group and passes the request on. */
  ghost predicate Forwards(s: State, s': State, m: Msg, m': Msg) {
    && m in s.net && m.Request? && m.to < |s.hosts|
    && s.hosts[m.to].last != m.to
    && m' == Request(s.hosts[m.to].last, m.from, m.ts)
    && Changed(s, s', m.to, s.hosts[m.to].(last := m.from))
    && s'.net == s.net - multiset{m} + multiset{m'}
  }

  ghost function Forwarded(s: State, g: Queue, m: Msg, m': Msg): Queue
    requires Sized(s, g) && m.Request? && m.to < |s.hosts| && m.from < |s.hosts| && g.tl[m.from] < |s.hosts|
  {
    g.(req := g.req[m.from := Some(m')], par := Reverse(g.par, m.to, g.tl[m.from], m.from))
  }

  lemma ForwardKeepsMembers(s: State, s': State, g: Queue, m: Msg, m': Msg, y: nat)
    requires Inv(s, g) && Forwards(s, s', m, m') && m.from < |s.hosts| && g.tl[m.from] < |s.hosts|
    ensures MemberInv(s', Forwarded(s, g, m, m'), y)
  {
    assert MemberInv(s, g, y) && HostInv(s, m.to);
    if y < |s.hosts| && Busy(s.hosts[y]) {
      ReachKept(s, g, m, y);
      var h := g.hd[y];
      assert g.tl[h] != m.to by { assert HostInv(s, g.tl[h]); }
    }
  }

  /** Two groups do not share their tail. */
  lemma TailsDiffer(s: State, g: Queue, h: nat, k: nat)
    requires Inv(s, g) && h < |s.hosts| && k < |s.hosts| && Busy(s.hosts[h]) && Busy(s.hosts[k])
    requires g.hd[h] == h && g.hd[k] == k && h != k
    ensures g.tl[h] != g.tl[k]
  {
    assert MemberInv(s, g, h) && MemberInv(s, g, k);
  }

  lemma ForwardKeepsRequests(s: State, s': State, g: Queue, m: Msg, m': Msg, y: nat)
    requires Inv(s, g) && Forwards(s, s', m, m') && m.from < |s.hosts| && g.tl[m.from] < |s.hosts|
    ensures RequestInv(s', Forwarded(s, g, m, m'), y)
  {
    RequestLink(s, g, m);
    assert RequestInv(s, g, y) && MemberInv(s, g, y) && HostInv(s, m.to) && LinkInv(s, g, m.to);
    if y < |s.hosts| && g.req[y].Some? && y != m.from {
      TailsDiffer(s, g, y, m.from);
      assert HostInv(s, g.tl[y]);
    }
  }

  lemma ForwardKeepsToken(s: State, s': State, g: Queue, m: Msg, m': Msg)
    requires Inv(s, g) && Forwards(s, s', m, m') && m.from < |s.hosts| && g.tl[m.from] < |s.hosts|
    ensures Sized(s', Forwarded(s, g, m, m')) && TokenInv(s', Forwarded(s, g, m, m'))
  {
    RequestLink(s, g, m);
    assert MemberInv(s, g, g.tok) && HostInv(s, m.to);
    TailsDiffer(s, g, g.tok, m.from);
    assert HostInv(s, g.tl[g.tok]);
  }

  lemma ForwardKeepsHosts(s: State, s': State, g: Queue, m: Msg, m': Msg, y: nat)
    requires Inv(s, g) && Forwards(s, s', m, m') && m.from < |s.hosts| && g.tl[m.from] < |s.hosts|
    ensures var g' := Forwarded(s, g, m, m');
            Sized(s', g') && HostInv(s', y) && HolderInv(s', g', y) && LinkInv(s', g', y) && FollowInv(s', g', y)
  {
    RequestLink(s, g, m);
    assert HostInv(s, m.to) && LinkInv(s, g, m.to) && MemberInv(s, g, m.from) && HostInv(s, g.tl[m.from]);
    assert HostInv(s, y) && HolderInv(s, g, y) && LinkInv(s, g, y) && FollowInv(s, g, y);
  }

  lemma ForwardKeeps(s: State, s': State, g: Queue, m: Msg, m': Msg) returns (g': Queue)
    requires Inv(s, g) && Forwards(s, s', m, m')
    ensures Inv(s', g') && Reversed(g, m, g')
  {
    RequestLink(s, g, m);
    var t, a, x := m.to, m.from, g.tl[m.from];
    assert HostInv(s, t) && LinkInv(s, g, t) && MsgInv(s, g, m') && MemberInv(s, g, a) && HostInv(s, x);
    g' := Forwarded(s, g, m, m');
    ForwardKeepsToken(s, s', g, m, m');
    forall y: nat ensures HostInv(s', y) && HolderInv(s', g', y) && LinkInv(s', g', y) && FollowInv(s', g', y) {
      ForwardKeepsHosts(s, s', g, m, m', y);
    }
    forall m2 ensures MsgInv(s', g', m2) { assert MsgInv(s, g, m2); }
    forall y: nat ensures RequestInv(s', g', y) { ForwardKeepsRequests(s, s', g, m, m', y); }
    forall r: nat | r < |s.hosts| && g.req[r].Some? ensures g.tl[r] != t {
      if g.tl[r] == t {
        TailsKept(s, g, m, r);
      }
    }
    forall y: nat ensures MemberInv(s', g', y) { ForwardKeepsMembers(s, s', g, m, m', y); }
    forall y: nat, j: nat ensures PairInv(s', g', y, j) { assert PairInv(s, g, y, j); }
  }

  /** A waiting or locked tail `t` stores the requester: the requester's group is appended to the group of `t`. */
  ghost predicate Stores(s: State, s': State, m: Msg) {
    && m in s.net && m.Request? && m.to < |s.hosts|
    && (s.hosts[m.to].locked || s.hosts[m.to].waiting) && s.hosts[m.to].last == m.to
    && Changed(s, s', m.to, s.hosts[m.to].(last := m.from, next := Some(m.ts), nextId := m.from))
    && s'.net == s.net - multiset{m}
  }

  ghost function Stored(s: State, g: Queue, m: Msg): (r: Queue)
    requires Sized(s, g) && m.Request? && m.to < |s.hosts| && m.from < |s.hosts| && g.tl[m.from] < |s.hosts|
    requires g.hd[m.to] < |s.hosts|
    ensures Sized(s, r)
  {
    var n, t, a := |s.hosts|, m.to, m.from;
    g.(req := g.req[a := None],
       prev := g.prev[a := t],
       hd := seq(n, y requires 0 <= y < n => if g.hd[y] == a then g.hd[t] else g.hd[y]),
       pos := seq(n, y requires 0 <= y < n => if g.hd[y] == a then g.pos[y] - g.pos[a] + g.pos[t] + 1 else g.pos[y]),
       tl := g.tl[g.hd[t] := g.tl[a]],
       par := Reverse(g.par, t, g.tl[a], a))
  }

  lemma StoreFacts(s: State, s': State, g: Queue, m: Msg)
    requires Inv(s, g) && Stores(s, s', m)
    ensures m.from < |s.hosts| && g.tl[m.from] < |s.hosts| && m.to != m.from
    ensures var h := g.hd[m.to]; h < |s.hosts| && Busy(s.hosts[h]) && g.hd[h] == h && h != m.from && g.tl[h] == m.to
    ensures var x := g.tl[m.from]; Busy(s.hosts[x]) && s.hosts[x].next.None? && g.hd[x] == m.from
    ensures s.hosts[m.to].next.None? && Busy(s.hosts[m.to])
  {
    RequestLink(s, g, m);
    var t, a, x := m.to, m.from, g.tl[m.from];
    assert HostInv(s, t) && MemberInv(s, g, t) && MemberInv(s, g, a) && PairInv(s, g, t, x) && PairInv(s, g, x, t);
    var z := g.tl[g.hd[t]];
    assert PairInv(s, g, t, z) && PairInv(s, g, z, t);
  }

  /** A member of a group leads to the tail of its group, which is the requester's tail for the group of `m.to`. */
  lemma StoreKeepsReach(s: State, s': State, g: Queue, m: Msg, y: nat)
    requires Inv(s, g) && Stores(s, s', m) && y < |s.hosts| && Busy(s.hosts[y])
    requires m.from < |s.hosts| && g.tl[m.from] < |s.hosts| && g.hd[m.to] < |s.hosts|
    ensures var g' := Stored(s, g, m); var h := g'.hd[y];
            h < |s.hosts| && g'.tl[h] < |s.hosts| && Reaches(g'.par, y, g'.tl[h])
  {
    StoreFacts(s, s', g, m);
    RequestLink(s, g, m);
    assert MemberInv(s, g, y);
    ReachKept(s, g, m, y);
    if g.hd[y] != g.hd[m.to] {
      TailsDiffer(s, g, g.hd[y], g.hd[m.to]);
    }
  }

  lemma StoreKeepsMembers(s: State, s': State, g: Queue, m: Msg, y: nat)
    requires Inv(s, g) && Stores(s, s', m)
    requires m.from < |s.hosts| && g.tl[m.from] < |s.hosts| && g.hd[m.to] < |s.hosts|
    ensures MemberInv(s', Stored(s, g, m), y)
  {
    StoreFacts(s, s', g, m);
    RequestLink(s, g, m);
    assert MemberInv(s, g, y) && MemberInv(s, g, m.to) && MemberInv(s, g, m.from);
    if y < |s.hosts| && Busy(s.hosts[y]) {
      StoreKeepsReach(s, s', g, m, y);
    }
  }

  lemma StoreKeepsPairs(s: State, s': State, g: Queue, m: Msg, y: nat, j: nat)
    requires Inv(s, g) && Stores(s, s', m)
    requires m.from < |s.hosts| && g.tl[m.from] < |s.hosts| && g.hd[m.to] < |s.hosts|
    ensures PairInv(s', Stored(s, g, m), y, j)
  {
    StoreFacts(s, s', g, m);
    RequestLink(s, g, m);
    var t := m.to;
    assert PairInv(s, g, y, j) && MemberInv(s, g, y) && MemberInv(s, g, j);
    assert PairInv(s, g, t, y) && PairInv(s, g, t, j) && PairInv(s, g, y, t) && PairInv(s, g, j, t);
  }

  lemma StoreKeepsRequests(s: State, s': State, g: Queue, m: Msg, y: nat)
    requires Inv(s, g) && Stores(s, s', m)
    requires m.from < |s.hosts| && g.tl[m.from] < |s.hosts| && g.hd[m.to] < |s.hosts|
    ensures RequestInv(s', Stored(s, g, m), y)
  {
    StoreFacts(s, s', g, m);
    RequestLink(s, g, m);
    assert RequestInv(s, g, y) && MemberInv(s, g, y) && RequestInv(s, g, g.hd[m.to]);
    if y < |s.hosts| && g.req[y].Some? && y != m.from {
      TailsDiffer(s, g, y, m.from);
      if y != g.hd[m.to] {
        TailsDiffer(s, g, y, g.hd[m.to]);
      }
    }
  }

  lemma StoreKeepsToken(s: State, s': State, g: Queue, m: Msg)
    requires Inv(s, g) && Stores(s, s', m)
    requires m.from < |s.hosts| && g.tl[m.from] < |s.hosts| && g.hd[m.to] < |s.hosts|
    ensures Sized(s', Stored(s, g, m)) && TokenInv(s', Stored(s, g, m))
  {
    StoreFacts(s, s', g, m);
    RequestLink(s, g, m);
    assert MemberInv(s, g, g.tok);
    TailsDiffer(s, g, g.tok, m.from);
    if g.tok != g.hd[m.to] {
      TailsDiffer(s, g, g.tok, g.hd[m.to]);
    }
  }

  lemma StoreReverses(s: State, s': State, g: Queue, m: Msg)
    requires Inv(s, g) && Stores(s, s', m)
    requires m.from < |s.hosts| && g.tl[m.from] < |s.hosts| && g.hd[m.to] < |s.hosts|
    ensures Reversed(g, m, Stored(s, g, m))
  {
    StoreFacts(s, s', g, m);
    forall r: nat | r < |s.hosts| && g.req[r].Some? && g.tl[r] == m.to ensures r == g.hd[m.to] {
      TailsKept(s, g, m, r);
    }
  }

  lemma StoreKeepsHosts(s: State, s': State, g: Queue, m: Msg, y: nat)
    requires Inv(s, g) && Stores(s, s', m)
    requires m.from < |s.hosts| && g.tl[m.from] < |s.hosts| && g.hd[m.to] < |s.hosts|
    ensures var g' := Stored(s, g, m);
            HostInv(s', y) && HolderInv(s', g', y) && LinkInv(s', g', y) && FollowInv(s', g', y)
  {
    StoreFacts(s, s', g, m);
    RequestLink(s, g, m);
    assert HostInv(s, m.to) && HostInv(s, g.tl[m.from]) && FollowInv(s, g, m.to);
    assert HostInv(s, y) && HolderInv(s, g, y) && LinkInv(s, g, y) && FollowInv(s, g, y);
  }

  lemma StoreKeeps(s: State, s': State, g: Queue, m: Msg) returns (g': Queue)
    requires Inv(s, g) && Stores(s, s', m)
    ensures Inv(s', g') && Reversed(g, m, g')
  {
    StoreFacts(s, s', g, m);
    RequestLink(s, g, m);
    var t, a, x := m.to, m.from, g.tl[m.from];
    assert HostInv(s, t) && HostInv(s, x) && FollowInv(s, g, t) && MemberInv(s, g, a);
    g' := Stored(s, g, m);
    StoreKeepsToken(s, s', g, m);
    forall y: nat ensures HostInv(s', y) && HolderInv(s', g', y) && LinkInv(s', g', y) && FollowInv(s', g', y) {
      StoreKeepsHosts(s, s', g, m, y);
    }
    forall m2 ensures MsgInv(s', g', m2) { assert MsgInv(s, g, m2); }
    forall y: nat ensures RequestInv(s', g', y) { StoreKeepsRequests(s, s', g, m, y); }
    StoreReverses(s, s', g, m);
    forall y: nat ensures MemberInv(s', g', y) { StoreKeepsMembers(s, s', g, m, y); }
    forall y: nat, j: nat ensures PairInv(s', g', y, j) { StoreKeepsPairs(s, s', g, m, y, j); }
  }

  /** An idle holder gives the token away: it leaves the queue and the requester's group moves to the front. */
  ghost predicate Gives(s: State, s': State, m: Msg, m': Msg) {
    && m in s.net && m.Request? && m.to < |s.hosts|
    && s.hosts[m.to].haveToken && !s.hosts[m.to].locked
    && m'.Grant? && m'.to == m.from
    && Changed(s, s', m.to, s.hosts[m.to].(haveToken := false, last := m.from))
    && s'.net == s.net - multiset{m} + multiset{m'}
  }

  ghost function Given(s: State, g: Queue, m: Msg, m': Msg): (r: Queue)
    requires Sized(s, g) && m.Request? && m.to < |s.hosts| && m.from < |s.hosts| && g.tl[m.from] < |s.hosts|
    ensures Sized(s, r)
  {
    g.(tok := m.from, grant := Some(m'), req := g.req[m.from := None],
       par := Reverse(g.par, m.to, g.tl[m.from], m.from))
  }

  lemma GiveFacts(s: State, s': State, g: Queue, m: Msg, m': Msg)
    requires Inv(s, g) && Gives(s, s', m, m')
    ensures m.from < |s.hosts| && g.tl[m.from] < |s.hosts| && m.to != m.from
    ensures m.to == g.tok && g.hd[g.tok] == g.tok && g.tl[g.tok] == g.tok && g.par[g.tok] == -1 && g.grant.None?
    ensures s.hosts[m.to].next.None? && s.hosts[m.to].last == m.to
    ensures var x := g.tl[m.from]; Busy(s.hosts[x]) && s.hosts[x].next.None? && g.hd[x] == m.from
  {
    RequestLink(s, g, m);
    var t := m.to;
    assert HostInv(s, t) && HolderInv(s, g, t) && MemberInv(s, g, t) && MemberInv(s, g, m.from);
    var z := g.tl[t];
    assert PairInv(s, g, t, z) && PairInv(s, g, z, t);
  }

  lemma GiveKeepsMembers(s: State, s': State, g: Queue, m: Msg, m': Msg, y: nat)
    requires Inv(s, g) && Gives(s, s', m, m') && m.from < |s.hosts| && g.tl[m.from] < |s.hosts|
    ensures MemberInv(s', Given(s, g, m, m'), y)
  {
    GiveFacts(s, s', g, m, m');
    assert MemberInv(s, g, y) && HostInv(s, m.to);
    if y < |s.hosts| && Busy(s.hosts[y]) && y != m.to {
      ReachKept(s, g, m, y);
      assert PairInv(s, g, m.to, y) && PairInv(s, g, y, m.to);
      TailsDiffer(s, g, g.hd[y], g.tok);
    }
  }

  lemma GiveKeepsRequests(s: State, s': State, g: Queue, m: Msg, m': Msg, y: nat)
    requires Inv(s, g) && Gives(s, s', m, m') && m.from < |s.hosts| && g.tl[m.from] < |s.hosts|
    ensures RequestInv(s', Given(s, g, m, m'), y)
  {
    GiveFacts(s, s', g, m, m');
    RequestLink(s, g, m);
    assert RequestInv(s, g, y) && MemberInv(s, g, y);
    if y < |s.hosts| && g.req[y].Some? && y != m.from {
      TailsDiffer(s, g, y, m.from);
      TailsDiffer(s, g, y, g.tok);
    }
  }

  lemma GiveKeepsHosts(s: State, s': State, g: Queue, m: Msg, m': Msg, y: nat)
    requires Inv(s, g) && Gives(s, s', m, m') && m.from < |s.hosts| && g.tl[m.from] < |s.hosts|
    ensures var g' := Given(s, g, m, m');
            HostInv(s', y) && HolderInv(s', g', y) && LinkInv(s', g', y) && FollowInv(s', g', y)
  {
    GiveFacts(s, s', g, m, m');
    RequestLink(s, g, m);
    assert HostInv(s, g.tl[m.from]);
    assert HostInv(s, y) && HolderInv(s, g, y) && LinkInv(s, g, y) && FollowInv(s, g, y);
  }

  lemma GiveKeeps(s: State, s': State, g: Queue, m: Msg, m': Msg) returns (g': Queue)
    requires Inv(s, g) && Gives(s, s', m, m')
    ensures Inv(s', g') && Reversed(g, m, g')
  {
    GiveFacts(s, s', g, m, m');
    RequestLink(s, g, m);
    var t, a, x := m.to, m.from, g.tl[m.from];
    assert HostInv(s, x) && MsgInv(s, g, m') && MemberInv(s, g, a) && HostInv(s, a);
    g' := Given(s, g, m, m');
    forall y: nat ensures HostInv(s', y) && HolderInv(s', g', y) && LinkInv(s', g', y) && FollowInv(s', g', y) {
      GiveKeepsHosts(s, s', g, m, m', y);
    }
    forall m2 ensures MsgInv(s', g', m2) { assert MsgInv(s, g, m2); }
    forall y: nat ensures RequestInv(s', g', y) { GiveKeepsRequests(s, s', g, m, m', y); }
    forall r: nat | r < |s.hosts| && g.req[r].Some? ensures g.tl[r] != t {
      if g.tl[r] == t {
        TailsKept(s, g, m, r);
      }
    }
    forall y: nat ensures MemberInv(s', g', y) { GiveKeepsMembers(s, s', g, m, m', y); }
    forall y: nat, j: nat ensures PairInv(s', g', y, j) { assert PairInv(s, g, y, j); }
  }
}
