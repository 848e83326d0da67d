/** Interval logs as values: what it means for a set of logs to be causally sound, what a host that knows
    prefixes of them looks like, and why adding a response never drops or repeats an interval. */
module IntervalLog {
  import opened Timestamps
  import opened LockHost

  /** `logs[p]` is the log that process `p` keeps of its own intervals. */
  type Logs = seq<seq<Interval>>

  ghost predicate At(logs: Logs, p: nat, k: nat) {
    p < |logs| && k < |logs[p]|
  }

  /** The k-th interval of `p` carries k+1 in its own entry and never runs ahead of the other logs. */
  ghost predicate Stamped(logs: Logs, p: nat, k: nat) {
    At(logs, p, k) ==>
      var iv := logs[p][k];
      && iv.owner == p && |iv.ts| == |logs|
      && iv.ts[p] == k + 1
      && forall q | 0 <= q < |logs| :: 0 <= iv.ts[q] <= |logs[q]|
  }

  /** If interval (q,m) has seen interval (p,k), it covers it, and (p,k) has not seen (q,m). */
  ghost predicate Causal(logs: Logs, q: nat, m: nat, p: nat, k: nat) {
    At(logs, q, m) && At(logs, p, k) && |logs[q][m].ts| == |logs[p][k].ts| == |logs| && logs[q][m].ts[p] >= k + 1 ==>
      && Covers(logs[q][m].ts, logs[p][k].ts)
      && ((p, k) != (q, m) ==> logs[p][k].ts[q] <= m)
  }

  ghost predicate Sound(logs: Logs) {
    && (forall p: nat, k: nat :: Stamped(logs, p, k))
    && (forall q: nat, m: nat, p: nat, k: nat :: Causal(logs, q, m, p, k))
  }

  ghost predicate CoversAt(logs: Logs, h: Host, p: nat, k: nat) {
    At(logs, p, k) && p < |h.procarray| && k < |h.procarray[p]| && |h.timestamp| == |logs[p][k].ts| ==>
      Covers(h.timestamp, logs[p][k].ts)
  }

  /** The host knows a prefix of every log, and its timestamp covers what it knows. */
  ghost predicate Prefixes(logs: Logs, h: Host) {
    && |h.timestamp| == |h.procarray| == |logs|
    && Shaped(h, |logs|)
    && (forall p | 0 <= p < |logs| :: h.procarray[p] <= logs[p])
    && (forall p: nat, k: nat :: CoversAt(logs, h, p, k))
  }

  /** Between handlers the timestamp counts exactly the known intervals. */
  ghost predicate Knows(logs: Logs, h: Host) {
    && Prefixes(logs, h)
    && forall p | 0 <= p < |logs| :: h.timestamp[p] == |h.procarray[p]|
  }

  ghost predicate Explains(logs: Logs, h: Host, r: nat, q: nat, m: nat) {
    At(logs, q, m) && q < |h.procarray| && m < |h.procarray[q]| && r < |logs[q][m].ts| && r < |h.timestamp|
    && logs[q][m].ts[r] >= h.timestamp[r]
  }

  /** While a response is being added, an entry may run ahead, but only because of a known interval. */
  ghost predicate Ahead(logs: Logs, h: Host, r: nat) {
    r < |h.timestamp| && r < |h.procarray| ==>
      h.timestamp[r] >= |h.procarray[r]|
      && (h.timestamp[r] > |h.procarray[r]| ==> exists q: nat, m: nat :: Explains(logs, h, r, q, m))
  }

  ghost predicate Adding(logs: Logs, h: Host) {
    Prefixes(logs, h) && forall r: nat :: Ahead(logs, h, r)
  }

  lemma ZeroMerge(ts: Timestamp)
    requires forall i | 0 <= i < |ts| :: ts[i] >= 0
    ensures Merge(Zero(|ts|), ts) == ts
  {
  }

  /** The duplicate test never fires on the next unknown interval, although it only compares for equality. */
  lemma NextIsDifferent(logs: Logs, h: Host, p: nat)
    requires Sound(logs) && Adding(logs, h) && p < |logs| && |h.procarray[p]| < |logs[p]|
    ensures var iv := logs[p][|h.procarray[p]|];
            |iv.ts| == |h.timestamp| && iv.ts != h.timestamp
  {
    var k := |h.procarray[p]|;
    var iv := logs[p][k];
    assert Stamped(logs, p, k) && Ahead(logs, h, p);
    if h.timestamp[p] > k {
      // p's entry runs ahead because of a known interval (q,m); that one has seen iv, so iv has not seen it
      var q: nat, m: nat :| Explains(logs, h, p, q, m);
      assert Stamped(logs, q, m) && Causal(logs, q, m, p, k) && CoversAt(logs, h, q, m);
      assert iv.ts[q] <= m < h.timestamp[q];
    }
  }

  lemma NextKeepsAhead(logs: Logs, h: Host, p: nat, h': Host, r: nat)
    requires Sound(logs) && Adding(logs, h) && p < |logs| && |h.procarray[p]| < |logs[p]|
    requires var iv := logs[p][|h.procarray[p]|];
             && |iv.ts| == |h.timestamp| && h'.timestamp == Merge(h.timestamp, iv.ts)
             && h'.procarray == h.procarray[p := h.procarray[p] + [iv]]
    ensures Ahead(logs, h', r)
  {
    var k := |h.procarray[p]|;
    var iv := logs[p][k];
    assert Stamped(logs, p, k) && Ahead(logs, h, r);
    if r < |h.timestamp| && h'.timestamp[r] > |h'.procarray[r]| {
      if h'.timestamp[r] == iv.ts[r] {
        assert Explains(logs, h', r, p, k);
      } else {
        var q: nat, m: nat :| Explains(logs, h, r, q, m);
        assert Explains(logs, h', r, q, m);
      }
    }
  }

  lemma AddNext(logs: Logs, h: Host, p: nat)
    requires Sound(logs) && Adding(logs, h) && p < |logs| && |h.procarray[p]| < |logs[p]|
    ensures IntervalShaped(logs[p][|h.procarray[p]|], |h.timestamp|)
    ensures var k := |h.procarray[p]|; var h' := AddInterval(h, logs[p][k]);
            Adding(logs, h') && h'.procarray == h.procarray[p := logs[p][..k + 1]]
  {
    var k := |h.procarray[p]|;
    var iv := logs[p][k];
    var ts := h.timestamp;
    assert Stamped(logs, p, k);
    NextIsDifferent(logs, h, p);
    forall i | 0 <= i < |ts| ensures ts[i] >= 0 { assert Ahead(logs, h, i); }
    ZeroMerge(ts);
    if Covers(ts, iv.ts) && Covers(iv.ts, ts) {
      CoversAntisymmetric(ts, iv.ts);
    }
    var h' := AddInterval(h, iv);
    assert h.procarray[p] + [iv] == logs[p][..k + 1];
    forall q: nat, m: nat ensures CoversAt(logs, h', q, m) {
      assert CoversAt(logs, h, q, m) && Stamped(logs, q, m);
    }
    forall r: nat ensures Ahead(logs, h', r) { NextKeepsAhead(logs, h, p, h', r); }
  }

  /** `log[from..]` with the newest first: the order in which the backward scan collects. */
  ghost function Newest(log: seq<Interval>, from: nat): (r: seq<Interval>) {
    if |log| <= from then [] else [log[|log| - 1]] + Newest(log[..|log| - 1], from)
  }

  lemma {:induction false} NewestEndsInOldest(log: seq<Interval>, from: nat)
    requires from < |log|
    ensures Newest(log, from) == Newest(log, from + 1) + [log[from]]
  {
    if |log| > from + 1 {
      NewestEndsInOldest(log[..|log| - 1], from);
    }
  }

  lemma {:induction false} NewestMembers(log: seq<Interval>, from: nat, n: nat)
    requires LogShaped(log, n)
    ensures LogShaped(Newest(log, from), n)
  {
    if |log| > from {
      NewestMembers(log[..|log| - 1], from, n);
    }
  }

  /** The early exit of the scan loses nothing: for a host that knows a prefix, it returns all the rest. */
  lemma {:induction false} MissingIsTail(logs: Logs, h: Host, p: nat, len: nat)
    requires Sound(logs) && Knows(logs, h) && p < |logs| && len <= |logs[p]|
    ensures LogShaped(logs[p][..len], |h.timestamp|)
    ensures MissingFor(logs[p][..len], h.timestamp) == Newest(logs[p][..len], |h.procarray[p]|)
    decreases len
  {
    forall k | 0 <= k < len ensures IntervalShaped(logs[p][k], |h.timestamp|) {
      assert Stamped(logs, p, k);
    }
    if len > 0 {
      assert Stamped(logs, p, len - 1) && CoversAt(logs, h, p, len - 1);
      assert logs[p][..len][..len - 1] == logs[p][..len - 1];
      MissingIsTail(logs, h, p, len - 1);
      if len - 1 < |h.procarray[p]| {
        assert Newest(logs[p][..len], |h.procarray[p]|) == [];
      }
    }
  }

  lemma {:induction false} AddAllConcat(h: Host, a: seq<Interval>, b: seq<Interval>)
    requires Shaped(h, |h.timestamp|) && LogShaped(a, |h.timestamp|) && LogShaped(b, |h.timestamp|)
    ensures |AddAll(h, b).timestamp| == |h.timestamp|
    ensures AddAll(h, a + b) == AddAll(AddAll(h, b), a)
    decreases |b|
  {
    if b == [] {
      assert a + b == a;
    } else {
      var h1 := AddInterval(h, b[|b| - 1]);
      AddAllConcat(h1, a, b[..|b| - 1]);
      assert (a + b)[..|a + b| - 1] == a + b[..|b| - 1];
    }
  }

  /** A response that ends in the oldest unknown interval adds that one first. */
  lemma AddOldest(h: Host, log: seq<Interval>, from: nat)
    requires Shaped(h, |h.timestamp|) && LogShaped(log, |h.timestamp|) && from < |log|
    ensures LogShaped(Newest(log, from), |h.timestamp|) && LogShaped(Newest(log, from + 1), |h.timestamp|)
    ensures AddAll(h, Newest(log, from)) == AddAll(AddInterval(h, log[from]), Newest(log, from + 1))
  {
    var ivs := Newest(log, from);
    NewestMembers(log, from, |h.timestamp|);
    NewestMembers(log, from + 1, |h.timestamp|);
    NewestEndsInOldest(log, from);
    assert ivs[..|ivs| - 1] == Newest(log, from + 1);
  }

  /** Adding a whole tail leaves the host with the whole log. */
  lemma {:induction false} AddTail(logs: Logs, h: Host, p: nat)
    requires Sound(logs) && Adding(logs, h) && p < |logs|
    ensures LogShaped(Newest(logs[p], |h.procarray[p]|), |h.timestamp|)
    ensures var h' := AddAll(h, Newest(logs[p], |h.procarray[p]|));
            Adding(logs, h') && h'.procarray == h.procarray[p := logs[p]]
    decreases |logs[p]| - |h.procarray[p]|
  {
    var from := |h.procarray[p]|;
    forall k | 0 <= k < |logs[p]| ensures IntervalShaped(logs[p][k], |h.timestamp|) {
      assert Stamped(logs, p, k);
    }
    NewestMembers(logs[p], from, |h.timestamp|);
    if from < |logs[p]| {
      AddOldest(h, logs[p], from);
      AddNext(logs, h, p);
      AddTail(logs, AddInterval(h, logs[p][from]), p);
    } else {
      assert h.procarray[p] == logs[p];
    }
  }

  /** The part of a response for one process brings that process's whole log. */
  lemma AddMissingFor(logs: Logs, logs': Logs, asked: Host, h: Host, w: nat, p: nat)
    requires Sound(logs) && Sound(logs') && Knows(logs, asked) && Adding(logs', h)
    requires w < |logs| && |logs'| == |logs| && p < |logs| && LogShaped(logs[p], |asked.timestamp|)
    requires asked.procarray[w] == logs[w] && h.procarray[w] == logs'[w]
    requires p != w ==> logs'[p] == logs[p] && h.procarray[p] == asked.procarray[p]
    ensures LogShaped(MissingFor(logs[p], asked.timestamp), |h.timestamp|)
    ensures var h1 := AddAll(h, MissingFor(logs[p], asked.timestamp));
            Adding(logs', h1) && h1.procarray == h.procarray[p := logs'[p]]
  {
    assert logs[p][..|logs[p]|] == logs[p];
    MissingIsTail(logs, asked, p, |logs[p]|);
    if p == w {
      assert h.procarray[p := logs'[p]] == h.procarray;
    } else {
      AddTail(logs', h, p);
    }
  }

  /** The logs of an acquirer while the response is added: still its own for the first `k` processes, complete for the
      others and for itself. */
  ghost function PartlyKnown(own: Logs, all: Logs, w: nat, k: nat): Logs
    requires |own| == |all|
  {
    seq(|all|, q requires 0 <= q < |all| => if q < k && q != w then own[q] else all[q])
  }

  lemma PartlyKnownStep(own: Logs, all: Logs, w: nat, k: nat)
    requires |own| == |all| && k <= |all|
    ensures k == 0 ==> PartlyKnown(own, all, w, k) == all
    ensures k > 0 ==> PartlyKnown(own, all, w, k)[k - 1 := all[k - 1]] == PartlyKnown(own, all, w, k - 1)
  {
  }

  /** A response is added process by process, the last process first. */
  lemma AddUpTo(logs: Logs, ts: Timestamp, h: Host, k: nat)
    requires Shaped(h, |h.timestamp|) && |ts| == |h.timestamp| && 0 < k <= |logs|
    requires forall p | 0 <= p < |logs| :: LogShaped(logs[p], |ts|)
    ensures AddAll(h, MissingUpTo(logs, ts, k))
         == AddAll(AddAll(h, MissingFor(logs[k - 1], ts)), MissingUpTo(logs, ts, k - 1))
    ensures |AddAll(h, MissingFor(logs[k - 1], ts)).timestamp| == |h.timestamp|
  {
    AddAllConcat(h, MissingUpTo(logs, ts, k - 1), MissingFor(logs[k - 1], ts));
  }

  /** The part of the response for the last process, which is added first. */
  lemma AddMissingStep(logs: Logs, logs': Logs, asked: Host, h: Host, w: nat, p: nat, k: nat) returns (h1: Host)
    requires Sound(logs) && Sound(logs') && Knows(logs, asked) && Adding(logs', h)
    requires w < |logs| && |logs'| == |logs| && k == p + 1 <= |logs|
    requires asked.procarray[w] == logs[w] && logs' == logs[w := logs'[w]]
    requires h.procarray == PartlyKnown(asked.procarray, logs', w, k)
    requires forall q | 0 <= q < |logs| :: LogShaped(logs[q], |asked.timestamp|)
    ensures |h1.timestamp| == |h.timestamp| && Adding(logs', h1)
    ensures h1.procarray == PartlyKnown(asked.procarray, logs', w, p)
    ensures AddAll(h, MissingUpTo(logs, asked.timestamp, k)) == AddAll(h1, MissingUpTo(logs, asked.timestamp, p))
  {
    PartlyKnownStep(asked.procarray, logs', w, k);
    AddMissingFor(logs, logs', asked, h, w, p);
    AddUpTo(logs, asked.timestamp, h, k);
    h1 := AddAll(h, MissingFor(logs[p], asked.timestamp));
  }

  /** The response of a granter that knows `logs`, added by a host that has meanwhile appended to its own
      log (`logs'`), leaves that host with everything. */
  lemma {:induction false} AddMissing(logs: Logs, logs': Logs, asked: Host, h: Host, w: nat, k: nat)
    requires Sound(logs) && Sound(logs') && Knows(logs, asked) && Adding(logs', h)
    requires w < |logs| && |logs'| == |logs| && k <= |logs|
    requires asked.procarray[w] == logs[w] && logs' == logs[w := logs'[w]]
    requires h.procarray == PartlyKnown(asked.procarray, logs', w, k)
    requires forall p | 0 <= p < |logs| :: LogShaped(logs[p], |asked.timestamp|)
    ensures var h' := AddAll(h, MissingUpTo(logs, asked.timestamp, k));
            Adding(logs', h') && h'.procarray == logs'
    decreases k
  {
    if k == 0 {
      PartlyKnownStep(asked.procarray, logs', w, 0);
    } else {
      var p := k - 1;
      var h1 := AddMissingStep(logs, logs', asked, h, w, p, k);
      AddMissing(logs, logs', asked, h1, w, p);
    }
  }

  /** When everything is known, no entry can be ahead any more. */
  lemma AllKnownIsExact(logs: Logs, h: Host)
    requires Sound(logs) && Adding(logs, h) && h.procarray == logs
    ensures Knows(logs, h)
  {
    forall r | 0 <= r < |logs| ensures h.timestamp[r] == |h.procarray[r]| {
      assert Ahead(logs, h, r);
      forall q: nat, m: nat | Explains(logs, h, r, q, m) ensures h.timestamp[r] <= |logs[r]| {
        assert Stamped(logs, q, m);
      }
    }
  }

  /** A new interval, stamped by a host that knows prefixes, keeps the logs sound. */
  lemma AppendKeepsSound(logs: Logs, h: Host, me: nat, pages: seq<nat>)
    requires Sound(logs) && Knows(logs, h) && me < |logs| && h.procarray[me] == logs[me] && pages != []
    requires |logs[me]| < MAX_INT32
    ensures var h' := NewInterval(h, me, pages); var logs' := logs[me := h'.procarray[me]];
            Sound(logs') && Knows(logs', h') && |h'.procarray[me]| == |logs[me]| + 1
  {
    var n := |logs|;
    var h' := NewInterval(h, me, pages);
    var logs' := logs[me := h'.procarray[me]];
    ZeroMerge(Increment(h.timestamp, me));
    var iv := h'.procarray[me][|logs[me]|];
    assert iv.ts == Increment(h.timestamp, me);
    forall p: nat, k: nat ensures Stamped(logs', p, k) {
      assert Stamped(logs, p, k);
    }
    forall q: nat, m: nat, p: nat, k: nat ensures Causal(logs', q, m, p, k) {
      assert Causal(logs, q, m, p, k) && Stamped(logs, q, m) && Stamped(logs, p, k) && CoversAt(logs, h, p, k);
      assert Stamped(logs', q, m) && Stamped(logs', p, k);
    }
    forall p: nat, k: nat ensures CoversAt(logs', h', p, k) {
      assert CoversAt(logs, h, p, k);
    }
  }

  /** Other hosts still know prefixes after an append. */
  lemma OthersStillKnow(logs: Logs, logs': Logs, h: Host, me: nat)
    requires Knows(logs, h) && me < |logs| && |logs'| == |logs| && logs[me] <= logs'[me]
    requires forall p | 0 <= p < |logs| && p != me :: logs'[p] == logs[p]
    ensures Knows(logs', h)
  {
    forall p: nat, k: nat ensures CoversAt(logs', h, p, k) {
      assert CoversAt(logs, h, p, k);
    }
  }

  /** The int32 counter is the one limit: recording an interval keeps the host's timestamp exact if and only
      if its log is not yet 2^31 - 1 intervals long. */
  lemma RecordIsExactInRange(logs: Logs, h: Host, me: nat, pages: seq<nat>)
    requires Sound(logs) && Knows(logs, h) && me < |logs| && h.procarray[me] == logs[me] && pages != []
    requires |logs[me]| <= MAX_INT32
    ensures var h' := NewInterval(h, me, pages);
            Knows(logs[me := h'.procarray[me]], h') <==> |logs[me]| < MAX_INT32
  {
    if |logs[me]| < MAX_INT32 {
      AppendKeepsSound(logs, h, me, pages);
    } else {
      assert Increment(h.timestamp, me)[me] == -MAX_INT32 - 1;
    }
  }
}
