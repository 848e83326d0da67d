/** One TreadMarks host as seen by one lock: its lock record, its vector timestamp and its interval logs.

    The functions on `Host` values say what each handler does; the class below runs the source's
    statements and loops and is proved to do exactly that. */
module LockHost {
  import Sets
  import opened Timestamps
  import opened Wrappers

  datatype Interval = Interval(owner: nat, ts: Timestamp, pages: seq<nat>)

  datatype Msg =
    | Request(to: nat, from: nat, ts: Timestamp)
    | Grant(to: nat, intervals: seq<Interval>, ts: Timestamp)

  /** `next` is the source's nextTimestamp (None for nil); `waiting` says that the application thread
      is blocked on the channel inside AcquireLock. */
  datatype Host = Host(
    locked: bool,
    haveToken: bool,
    last: nat,
    nextId: nat,
    next: Option<Timestamp>,
    waiting: bool,
    timestamp: Timestamp,
    procarray: seq<seq<Interval>>)

  type Result = (Host, seq<Msg>)

  const MANAGER: nat := 0

  predicate IntervalShaped(iv: Interval, n: nat) {
    iv.owner < n && |iv.ts| == n
  }

  predicate LogShaped(log: seq<Interval>, n: nat) {
    forall k | 0 <= k < |log| :: IntervalShaped(log[k], n)
  }

  /** All timestamps of the host have one entry per process. */
  predicate Shaped(h: Host, n: nat) {
    && |h.timestamp| == n
    && |h.procarray| == n
    && (forall p | 0 <= p < n :: LogShaped(h.procarray[p], n))
    && (h.next.Some? ==> |h.next.value| == n)
  }

  predicate MsgShaped(m: Msg, n: nat) {
    match m
    case Request(_, from, ts) => from < n && |ts| == n
    case Grant(_, ivs, _) => LogShaped(ivs, n)
  }

  // ---- interval bookkeeping ----

  /** `pages` is the set of dirty pages in the order in which they were visited. */
  function NewInterval(h: Host, me: nat, pages: seq<nat>): (r: Host)
    requires Shaped(h, |h.timestamp|) && me < |h.timestamp|
    ensures Shaped(r, |h.timestamp|)
  {
    if pages == [] then h
    else
      var ts := Increment(h.timestamp, me);
      var iv := Interval(me, Merge(Zero(|ts|), ts), pages);
      h.(timestamp := ts, procarray := h.procarray[me := h.procarray[me] + [iv]])
  }

  /** The duplicate test only asks for a difference between the two timestamps. */
  function AddInterval(h: Host, iv: Interval): (r: Host)
    requires Shaped(h, |h.timestamp|) && IntervalShaped(iv, |h.timestamp|)
    ensures Shaped(r, |h.timestamp|)
  {
    var ts := Merge(Zero(|h.timestamp|), h.timestamp);
    if !Covers(ts, iv.ts) || !Covers(iv.ts, ts) then
      h.(procarray := h.procarray[iv.owner := h.procarray[iv.owner] + [iv]],
         timestamp := Merge(h.timestamp, iv.ts))
    else h
  }

  /** The intervals of a response are added from the last to the first. */
  function AddAll(h: Host, ivs: seq<Interval>): (r: Host)
    requires Shaped(h, |h.timestamp|) && LogShaped(ivs, |h.timestamp|)
    ensures Shaped(r, |h.timestamp|)
    decreases |ivs|
  {
    if ivs == [] then h
    else AddAll(AddInterval(h, ivs[|ivs| - 1]), ivs[..|ivs| - 1])
  }

  /** Backward scan of one log that stops at the first covered interval. */
  function MissingFor(log: seq<Interval>, ts: Timestamp): (r: seq<Interval>)
    requires LogShaped(log, |ts|)
    ensures LogShaped(r, |ts|)
  {
    if log == [] || Covers(ts, log[|log| - 1].ts) then []
    else [log[|log| - 1]] + MissingFor(log[..|log| - 1], ts)
  }

  lemma MissingStep(log: seq<Interval>, i: nat, ts: Timestamp)
    requires LogShaped(log, |ts|) && 0 < i <= |log|
    ensures MissingFor(log[..i], ts)
         == if Covers(ts, log[i - 1].ts) then [] else [log[i - 1]] + MissingFor(log[..i - 1], ts)
  {
    assert log[..i][..i - 1] == log[..i - 1];
  }

  /** The scans of the first `k` processes, concatenated. */
  function MissingUpTo(logs: seq<seq<Interval>>, ts: Timestamp, k: nat): (r: seq<Interval>)
    requires k <= |logs| && forall p | 0 <= p < |logs| :: LogShaped(logs[p], |ts|)
    ensures LogShaped(r, |ts|)
  {
    if k == 0 then [] else MissingUpTo(logs, ts, k - 1) + MissingFor(logs[k - 1], ts)
  }

  function Missing(logs: seq<seq<Interval>>, ts: Timestamp): (r: seq<Interval>)
    requires forall p | 0 <= p < |logs| :: LogShaped(logs[p], |ts|)
    ensures LogShaped(r, |ts|)
  {
    MissingUpTo(logs, ts, |logs|)
  }

  // ---- lock handlers ----

  function AcquireLock(h: Host, me: nat): Result {
    if h.haveToken then (h.(locked := true), [])
    else (h.(last := me, waiting := true), [Request(h.last, me, h.timestamp)])
  }

  function ReleaseLock(h: Host, me: nat, pages: seq<nat>): Result
    requires Shaped(h, |h.timestamp|) && me < |h.timestamp|
  {
    if h.next.Some? then
      var h1 := NewInterval(h.(locked := false), me, pages);
      (h1.(next := None, nextId := MANAGER, haveToken := false),
       [Grant(h.nextId, Missing(h1.procarray, h.next.value), h1.timestamp)])
    else (h.(locked := false), [])
  }

  /** A request is stored as the successor, answered with the token, or forwarded along `last`;
      in every case `last` is turned towards the requester. */
  function OnRequest(h: Host, me: nat, req: Msg, pages: seq<nat>): Result
    requires Shaped(h, |h.timestamp|) && me < |h.timestamp|
    requires req.Request? && MsgShaped(req, |h.timestamp|)
  {
    var turned := h.(last := req.from);
    var stored := turned.(next := Some(req.ts), nextId := req.from);
    var forward := [Request(h.last, req.from, req.ts)];
    if h.locked then
      if h.next.None? then (stored, []) else (turned, forward)
    else if h.haveToken then
      var h1 := NewInterval(h, me, pages);
      (h1.(haveToken := false, last := req.from),
       [Grant(req.from, Missing(h1.procarray, req.ts), h1.timestamp)])
    else if h.last == me && h.next.None? then (stored, [])
    else (turned, forward)
  }

  function OnGrant(h: Host, me: nat, grant: Msg, pages: seq<nat>): Host
    requires Shaped(h, |h.timestamp|) && me < |h.timestamp|
    requires grant.Grant? && MsgShaped(grant, |h.timestamp|)
  {
    AddAll(NewInterval(h, me, pages), grant.intervals).(locked := true, haveToken := true, waiting := false)
  }

  /** `pages` lists a set of dirty pages, each once. */
  ghost predicate Lists(pages: seq<nat>, dirty: set<nat>) {
    multiset(pages) == multiset(dirty)
  }

  /** The comparison of the duplicate test, in which negative entries count as 0. */
  predicate Duplicates(ts: Timestamp, other: Timestamp) {
    |ts| == |other| && forall i | 0 <= i < |ts| :: other[i] == if ts[i] > 0 then ts[i] else 0
  }

  /** Only the log of `me` has grown, by one record of `me` that lists the dirty pages, each once, and is stamped with
      the timestamp, negative entries as 0. */
  ghost predicate Recorded(
    old': seq<seq<Interval>>, new': seq<seq<Interval>>, me: nat, dirty: set<nat>, ts: Timestamp) {
    && |new'| == |old'| && me < |old'| && (forall p | 0 <= p < |old'| && p != me :: new'[p] == old'[p])
    && |new'[me]| == |old'[me]| + 1 && old'[me] <= new'[me]
    && var record := new'[me][|old'[me]|];
       && record.owner == me && Lists(record.pages, dirty)
       && |record.ts| == |ts| && forall i | 0 <= i < |ts| :: record.ts[i] == if ts[i] > 0 then ts[i] else 0
  }

  /** Only the entry of `me` has changed: it is one more, or the least int32 if it was the greatest. */
  predicate Bumped(ts: Timestamp, ts': Timestamp, me: nat) {
    && |ts'| == |ts| && me < |ts| && (forall i | 0 <= i < |ts| && i != me :: ts'[i] == ts[i])
    && ts'[me] == if ts[me] == MAX_INT32 then -MAX_INT32 - 1 else ts[me] + 1
  }

  /** The host object: the fields that the handlers update, and the outgoing channel. */
  class TreadmarksHost {
    var myId: nat
    var nrProcs: nat
    var locked: bool
    var haveToken: bool
    var last: nat
    var nextId: nat
    var nextTimestamp: Option<Timestamp>
    var waiting: bool
    var timestamp: Timestamp
    var procarray: seq<seq<Interval>>
    var dirtyPages: set<nat>
    var out: seq<Msg>

    ghost function Abs(): Host
      reads this
    {
      Host(locked, haveToken, last, nextId, nextTimestamp, waiting, timestamp, procarray)
    }

    ghost predicate Valid()
      reads this
    {
      myId < nrProcs && |timestamp| == nrProcs && Shaped(Abs(), nrProcs)
    }

    /** A host that has joined the network as process `id`. */
    constructor (id: nat, n: nat)
      requires id < n
      ensures Valid() && myId == id && nrProcs == n && out == [] && dirtyPages == {}
      ensures Abs() == InitialHost(id, n)
      ensures !locked && !waiting && nextTimestamp == None && last == MANAGER && haveToken == (id == MANAGER)
      ensures forall p | 0 <= p < n :: timestamp[p] == 0 && procarray[p] == []
    {
      myId, nrProcs := id, n;
      locked, haveToken, last, nextId, nextTimestamp := false, id == MANAGER, MANAGER, 0, None;
      waiting := false;
      timestamp := Zero(n);
      procarray := seq(n, _ => []);
      dirtyPages, out := {}, [];
    }

    /** The dirty pages have been recorded in the own log. */
    twostate predicate OwnRecord(pages: seq<nat>)
      reads this
    {
      && Lists(pages, old(dirtyPages))
      && (old(dirtyPages) == {} ==> pages == [] && timestamp == old(timestamp) && procarray == old(procarray))
      && (old(dirtyPages) != {} ==>
            && Recorded(old(procarray), procarray, myId, old(dirtyPages), timestamp)
            && Bumped(old(timestamp), timestamp, myId))
    }

    /** The loop over the dirty pages, in whatever order. */
    method TakeDirtyPages() returns (visited: seq<nat>)
      modifies this`dirtyPages
      ensures Lists(visited, old(dirtyPages)) && dirtyPages == {}
      ensures visited == [] <==> old(dirtyPages) == {}
    {
      visited := [];
      while dirtyPages != {}
        invariant multiset(visited) + multiset(dirtyPages) == multiset(old(dirtyPages))
        invariant |visited| + |dirtyPages| == |old(dirtyPages)|
        decreases dirtyPages
      {
        var page: nat :| page in dirtyPages;
        visited := visited + [page];
        dirtyPages := dirtyPages - {page};
      }
    }

    /** If pages are dirty the own log grows by one record, which lists them, each once, and carries the new
        timestamp. */
    method NewIntervalRecord() returns (ghost pages: seq<nat>)
      requires Valid()
      modifies this`timestamp, this`procarray, this`dirtyPages
      ensures Valid() && Lists(pages, old(dirtyPages)) && dirtyPages == {}
      ensures Abs() == NewInterval(old(Abs()), myId, pages)
      ensures OwnRecord(pages)
    {
      pages := [];
      if dirtyPages != {} {
        timestamp := ComputeIncrement(timestamp, myId);
        var visited := TakeDirtyPages();
        var ts := ComputeMerge(Zero(nrProcs), timestamp);
        var interval := Interval(myId, ts, visited);
        procarray := procarray[myId := procarray[myId] + [interval]];
        pages := visited;
      }
    }

    method AddIntervalRecord(interval: Interval)
      requires Valid() && IntervalShaped(interval, nrProcs)
      modifies this`procarray, this`timestamp
      ensures Valid()
      ensures Abs() == AddInterval(old(Abs()), interval)
      ensures Duplicates(old(timestamp), interval.ts) ==> Abs() == old(Abs())
      ensures !Duplicates(old(timestamp), interval.ts) ==> timestamp == Merge(old(timestamp), interval.ts)
      ensures !Duplicates(old(timestamp), interval.ts) ==>
                procarray == old(procarray)[interval.owner := old(procarray)[interval.owner] + [interval]]
    {
      var ts := ComputeMerge(Zero(nrProcs), timestamp);
      var above := ComputeCovers(ts, interval.ts);
      var below := ComputeCovers(interval.ts, ts);
      if !above || !below {
        procarray := procarray[interval.owner := procarray[interval.owner] + [interval]];
        timestamp := ComputeMerge(timestamp, interval.ts);
      }
    }

    method GetMissingIntervalsForProc(procId: nat, ts: Timestamp) returns (result: seq<Interval>)
      requires Valid() && procId < nrProcs && |ts| == nrProcs
      ensures result == MissingFor(procarray[procId], ts)
    {
      var intervals := procarray[procId];
      result := [];
      var i := |intervals|;
      ghost var goal := MissingFor(intervals, ts);
      assert intervals[..i] == intervals;
      while i > 0
        invariant 0 <= i <= |intervals|
        invariant goal == result + MissingFor(intervals[..i], ts)
      {
        MissingStep(intervals, i, ts);
        var covered := ComputeCovers(ts, intervals[i - 1].ts);
        if !covered {
          Sets.Associative(result, [intervals[i - 1]], MissingFor(intervals[..i - 1], ts));
          result := result + [intervals[i - 1]];
        } else {
          break;
        }
        i := i - 1;
      }
    }

    method GetMissingIntervals(ts: Timestamp) returns (intervals: seq<Interval>)
      requires Valid() && |ts| == nrProcs
      ensures intervals == Missing(procarray, ts)
    {
      intervals := [];
      for proc := 0 to nrProcs
        invariant intervals == MissingUpTo(procarray, ts, proc)
      {
        var more := GetMissingIntervalsForProc(proc, ts);
        intervals := intervals + more;
      }
    }

    method SendLockAcquireResponse(to: nat, ts: Timestamp)
      requires Valid() && |ts| == nrProcs
      modifies this`out
      ensures out == old(out) + [Grant(to, Missing(procarray, ts), timestamp)]
    {
      var intervals := GetMissingIntervals(ts);
      out := out + [Grant(to, intervals, timestamp)];
    }

    /** What both ways of giving the token away do: record the dirty pages, then answer. */
    method RecordAndGrant(to: nat, ts: Timestamp) returns (ghost pages: seq<nat>)
      requires Valid() && |ts| == nrProcs
      modifies this`timestamp, this`procarray, this`dirtyPages, this`out
      ensures Valid() && Lists(pages, old(dirtyPages)) && dirtyPages == {}
      ensures Abs() == NewInterval(old(Abs()), myId, pages)
      ensures OwnRecord(pages)
      ensures out == old(out) + [Grant(to, Missing(procarray, ts), timestamp)]
    {
      pages := NewIntervalRecord();
      SendLockAcquireResponse(to, ts);
    }

    /** Locking a lock that is already held makes the source panic. */
    method Acquire()
      requires Valid() && !(haveToken && locked)
      modifies this`locked, this`last, this`waiting, this`out
      ensures Valid()
      ensures var r := AcquireLock(old(Abs()), myId); Abs() == r.0 && out == old(out) + r.1
      ensures haveToken ==> locked && last == old(last) && waiting == old(waiting) && out == old(out)
      ensures !haveToken ==> locked == old(locked) && last == myId && waiting
      ensures !haveToken ==> out == old(out) + [Request(old(last), myId, timestamp)]
    {
      if haveToken {
        locked := true;
      } else {
        out := out + [Request(last, myId, timestamp)];
        last := myId;
        waiting := true;
      }
    }

    /** The token goes to the stored successor, which is then forgotten. */
    method PassOn() returns (ghost pages: seq<nat>)
      requires Valid() && nextTimestamp.Some?
      modifies this`nextTimestamp, this`nextId, this`haveToken
      modifies this`timestamp, this`procarray, this`dirtyPages, this`out
      ensures Valid() && Lists(pages, old(dirtyPages)) && dirtyPages == {} && OwnRecord(pages)
      ensures Abs() == NewInterval(old(Abs()), myId, pages).(next := None, nextId := MANAGER, haveToken := false)
      ensures out == old(out) + [Grant(old(nextId), Missing(procarray, old(nextTimestamp).value), timestamp)]
    {
      pages := RecordAndGrant(nextId, nextTimestamp.value);
      nextTimestamp := None;
      nextId := MANAGER;
      haveToken := false;
    }

    method Release() returns (ghost pages: seq<nat>)
      requires Valid()
      modifies this`locked, this`nextTimestamp, this`nextId, this`haveToken
      modifies this`timestamp, this`procarray, this`dirtyPages, this`out
      ensures Valid() && Lists(pages, old(dirtyPages))
      ensures var r := ReleaseLock(old(Abs()), myId, pages); Abs() == r.0 && out == old(out) + r.1
      ensures !locked && nextTimestamp == None
      ensures old(nextTimestamp).None? ==>
                && haveToken == old(haveToken) && nextId == old(nextId) && dirtyPages == old(dirtyPages)
                && timestamp == old(timestamp) && procarray == old(procarray) && out == old(out)
      ensures old(nextTimestamp).Some? ==> !haveToken && nextId == MANAGER && dirtyPages == {} && OwnRecord(pages)
      ensures old(nextTimestamp).Some? ==>
                out == old(out) + [Grant(old(nextId), Missing(procarray, old(nextTimestamp).value), timestamp)]
    {
      locked := false;
      if nextTimestamp.Some? {
        pages := PassOn();
      } else {
        pages := ListOf(dirtyPages);
      }
    }

    method HandleLockAcquireRequest(req: Msg) returns (ghost pages: seq<nat>)
      requires Valid() && req.Request? && MsgShaped(req, nrProcs)
      modifies this`nextTimestamp, this`nextId, this`haveToken, this`last
      modifies this`timestamp, this`procarray, this`dirtyPages, this`out
      ensures Valid() && Lists(pages, old(dirtyPages)) && last == req.from
      ensures !old(locked) && old(haveToken) ==>
                && !haveToken && nextTimestamp == old(nextTimestamp) && nextId == old(nextId)
                && dirtyPages == {} && OwnRecord(pages)
                && out == old(out) + [Grant(req.from, Missing(procarray, req.ts), timestamp)]
      ensures old(locked) || !old(haveToken) ==>
                && haveToken == old(haveToken) && dirtyPages == old(dirtyPages)
                && timestamp == old(timestamp) && procarray == old(procarray)
                && if old(nextTimestamp).None? && (old(locked) || old(last) == myId)
                   then nextTimestamp == Some(req.ts) && nextId == req.from && out == old(out)
                   else nextTimestamp == old(nextTimestamp) && nextId == old(nextId)
                        && out == old(out) + [Request(old(last), req.from, req.ts)]
      ensures var r := OnRequest(old(Abs()), myId, req, pages); Abs() == r.0 && out == old(out) + r.1
    {
      if locked {
        pages := ListOf(dirtyPages);
        if nextTimestamp.None? {
          nextTimestamp := Some(req.ts);
          nextId := req.from;
        } else {
          out := out + [Request(last, req.from, req.ts)];
        }
        last := req.from;
      } else {
        if haveToken {
          haveToken := false;
          pages := RecordAndGrant(req.from, req.ts);
          last := req.from;
        } else {
          pages := ListOf(dirtyPages);
          if last == myId {
            if nextTimestamp.None? {
              nextTimestamp := Some(req.ts);
              nextId := req.from;
            } else {
              out := out + [Request(last, req.from, req.ts)];
            }
          } else {
            out := out + [Request(last, req.from, req.ts)];
          }
          last := req.from;
        }
      }
    }

    /** The intervals of a response are added from its end. */
    method AddIntervals(ivs: seq<Interval>)
      requires Valid() && LogShaped(ivs, nrProcs)
      modifies this`procarray, this`timestamp
      ensures Valid() && Abs() == AddAll(old(Abs()), ivs)
      ensures |procarray| == |old(procarray)| && forall p | 0 <= p < |procarray| :: old(procarray)[p] <= procarray[p]
    {
      ghost var goal := AddAll(Abs(), ivs);
      var i := |ivs|;
      assert ivs[..i] == ivs;
      while i > 0
        invariant 0 <= i <= |ivs|
        invariant Valid() && AddAll(Abs(), ivs[..i]) == goal
        invariant |procarray| == |old(procarray)|
        invariant forall p | 0 <= p < |procarray| :: old(procarray)[p] <= procarray[p]
      {
        assert ivs[..i][..i - 1] == ivs[..i - 1];
        AddIntervalRecord(ivs[i - 1]);
        i := i - 1;
      }
    }

    /** The own dirty pages are recorded before the response is added. */
    method HandleLockAcquireResponse(resp: Msg) returns (ghost pages: seq<nat>)
      requires Valid() && resp.Grant? && MsgShaped(resp, nrProcs)
      modifies this`locked, this`haveToken, this`waiting, this`timestamp, this`procarray, this`dirtyPages
      ensures Valid() && Lists(pages, old(dirtyPages)) && dirtyPages == {}
      ensures Abs() == OnGrant(old(Abs()), myId, resp, pages)
      ensures locked && haveToken && !waiting
      ensures old(dirtyPages) != {} ==>
                var k := |old(procarray)[myId]|;
                k < |procarray[myId]| && Lists(procarray[myId][k].pages, old(dirtyPages))
    {
      pages := NewIntervalRecord();
      AddIntervals(resp.intervals);
      locked := true;
      haveToken := true;
      waiting := false;
    }
  }

  function InitialHost(id: nat, n: nat): Host {
    Host(false, id == MANAGER, MANAGER, 0, None, false, Zero(n), seq(n, _ => []))
  }

  ghost function ListOf(s: set<nat>): (r: seq<nat>)
    ensures Lists(r, s)
  {
    if s == {} then []
    else
      var x :| x in s;
      assert multiset(s) == multiset(s - {x}) + multiset{x};
      [x] + ListOf(s - {x})
  }
}
