/** All runs of the hosts on one lock: handlers fire one at a time, messages may be delivered in any order,
    and each application thread acquires only what it does not hold and releases only what it holds. */
module LockProtocol {
  import opened LockHost

  datatype State = State(hosts: seq<Host>, net: multiset<Msg>)

  datatype Step =
    | Acquire(i: nat)
    | Release(i: nat, pages: seq<nat>)
    | DeliverRequest(m: Msg, pages: seq<nat>)
    | DeliverGrant(m: Msg, pages: seq<nat>)

  ghost predicate StateShaped(s: State) {
    && (forall i | 0 <= i < |s.hosts| :: |s.hosts[i].timestamp| == |s.hosts| && Shaped(s.hosts[i], |s.hosts|))
    && (forall m | m in s.net :: m.to < |s.hosts| && MsgShaped(m, |s.hosts|))
  }

  ghost predicate Init(s: State, n: nat) {
    && n > 0
    && |s.hosts| == n
    && (forall i | 0 <= i < n :: s.hosts[i] == InitialHost(i, n))
    && s.net == multiset{}
  }

  function Put(s: State, i: nat, r: Result): State
    requires i < |s.hosts|
  {
    State(s.hosts[i := r.0], s.net + multiset(r.1))
  }

  function Take(s: State, m: Msg): State {
    s.(net := s.net - multiset{m})
  }

  /** Whether the application thread or the message handler can make this step now. */
  ghost predicate Enabled(s: State, step: Step) {
    match step
    case Acquire(i) => i < |s.hosts| && !s.hosts[i].waiting && !s.hosts[i].locked
    case Release(i, _) => i < |s.hosts| && !s.hosts[i].waiting && s.hosts[i].locked
    case DeliverRequest(m, _) => m in s.net && m.Request?
    case DeliverGrant(m, _) => m in s.net && m.Grant?
  }

  ghost function Apply(s: State, step: Step): State
    requires StateShaped(s) && Enabled(s, step)
  {
    match step
    case Acquire(i) => Put(s, i, AcquireLock(s.hosts[i], i))
    case Release(i, pages) => Put(s, i, ReleaseLock(s.hosts[i], i, pages))
    case DeliverRequest(m, pages) => Put(Take(s, m), m.to, OnRequest(s.hosts[m.to], m.to, m, pages))
    case DeliverGrant(m, pages) => Put(Take(s, m), m.to, (OnGrant(s.hosts[m.to], m.to, m, pages), []))
  }

  lemma HostsStay(s: State, step: Step)
    requires StateShaped(s) && Enabled(s, step)
    ensures |Apply(s, step).hosts| == |s.hosts|
  {
  }

  /** A run lists the steps taken and the states between them. */
  ghost predicate Run(n: nat, states: seq<State>, steps: seq<Step>) {
    && |states| == |steps| + 1
    && Init(states[0], n)
    && forall k | 0 <= k < |steps| ::
        StateShaped(states[k]) && Enabled(states[k], steps[k]) && states[k + 1] == Apply(states[k], steps[k])
  }

  // ---- the lock fields do not depend on the interval bookkeeping ----

  ghost predicate SameLock(a: Host, b: Host) {
    && a.locked == b.locked && a.haveToken == b.haveToken && a.last == b.last
    && a.nextId == b.nextId && a.next == b.next && a.waiting == b.waiting
  }

  lemma {:induction false} AddAllKeepsLock(h: Host, ivs: seq<Interval>)
    requires Shaped(h, |h.timestamp|) && LogShaped(ivs, |h.timestamp|)
    ensures SameLock(h, AddAll(h, ivs))
    ensures |AddAll(h, ivs).timestamp| == |h.timestamp|
    decreases |ivs|
  {
    if ivs != [] {
      AddAllKeepsLock(AddInterval(h, ivs[|ivs| - 1]), ivs[..|ivs| - 1]);
    }
  }

  ghost predicate MsgsShaped(msgs: seq<Msg>, n: nat) {
    forall k | 0 <= k < |msgs| :: msgs[k].to < n && MsgShaped(msgs[k], n)
  }

  lemma PutShaped(s: State, i: nat, r: Result)
    requires StateShaped(s) && i < |s.hosts|
    requires |r.0.timestamp| == |s.hosts| && Shaped(r.0, |s.hosts|) && MsgsShaped(r.1, |s.hosts|)
    ensures StateShaped(Put(s, i, r))
  {
  }

  lemma ReleaseShaped(h: Host, me: nat, pages: seq<nat>, n: nat)
    requires |h.timestamp| == n && Shaped(h, n) && me < n && h.nextId < n
    ensures var r := ReleaseLock(h, me, pages);
            |r.0.timestamp| == n && Shaped(r.0, n) && MsgsShaped(r.1, n)
  {
  }

  lemma OnRequestShaped(h: Host, me: nat, req: Msg, pages: seq<nat>, n: nat)
    requires |h.timestamp| == n && Shaped(h, n) && me < n && h.last < n
    requires req.Request? && MsgShaped(req, n)
    ensures var r := OnRequest(h, me, req, pages);
            |r.0.timestamp| == n && Shaped(r.0, n) && MsgsShaped(r.1, n)
  {
  }

  /** The shape test in `Run` never blocks a step. */
  lemma ApplyShaped(s: State, step: Step)
    requires StateShaped(s) && Enabled(s, step)
    requires forall i | 0 <= i < |s.hosts| :: s.hosts[i].last < |s.hosts| && s.hosts[i].nextId < |s.hosts|
    ensures StateShaped(Apply(s, step)) && |Apply(s, step).hosts| == |s.hosts|
  {
    var n := |s.hosts|;
    match step
    case Acquire(i) =>
      PutShaped(s, i, AcquireLock(s.hosts[i], i));
    case Release(i, pages) =>
      ReleaseShaped(s.hosts[i], i, pages, n);
      PutShaped(s, i, ReleaseLock(s.hosts[i], i, pages));
    case DeliverRequest(m, pages) =>
      assert m.to < n && MsgShaped(m, n);
      OnRequestShaped(s.hosts[m.to], m.to, m, pages, n);
      PutShaped(Take(s, m), m.to, OnRequest(s.hosts[m.to], m.to, m, pages));
    case DeliverGrant(m, pages) =>
      assert m.to < n && MsgShaped(m, n);
      AddAllKeepsLock(NewInterval(s.hosts[m.to], m.to, pages), m.intervals);
      PutShaped(Take(s, m), m.to, (OnGrant(s.hosts[m.to], m.to, m, pages), []));
  }
}
