/** Vector timestamps: the pointwise lattice under every log, notice and diff of the TreadMarks side.
    A timestamp holds one int32 counter per process. */
module Timestamps {

  type Timestamp = seq<int>

  const MAX_INT32 := 0x7fff_ffff

  /** One step of an int32 counter, with the wrap-around of the machine integer. */
  function Bump(x: int): int {
    if x == MAX_INT32 then -MAX_INT32 - 1 else x + 1
  }

  function Zero(n: nat): (ts: Timestamp)
    ensures |ts| == n && forall i | 0 <= i < n :: ts[i] == 0
  {
    seq(n, _ => 0)
  }

  predicate Covers(t: Timestamp, o: Timestamp)
    requires |t| == |o|
  {
    forall i | 0 <= i < |t| :: o[i] <= t[i]
  }

  /** The least timestamp that covers both arguments (lemma MergeIsLub). */
  function Merge(t: Timestamp, o: Timestamp): (r: Timestamp)
    requires |t| == |o|
    ensures |r| == |t|
  {
    seq(|t|, i requires 0 <= i < |t| => if t[i] > o[i] then t[i] else o[i])
  }

  /** The greatest timestamp that both arguments cover (lemma MinIsGlb). */
  function Min(t: Timestamp, o: Timestamp): (r: Timestamp)
    requires |t| == |o|
    ensures |r| == |t|
  {
    seq(|t|, i requires 0 <= i < |t| => if t[i] < o[i] then t[i] else o[i])
  }

  function Increment(t: Timestamp, p: nat): (r: Timestamp)
    requires p < |t|
    ensures |r| == |t|
  {
    t[p := Bump(t[p])]
  }

  // ---- the order ----

  lemma CoversAntisymmetric(a: Timestamp, b: Timestamp)
    requires |a| == |b| && Covers(a, b) && Covers(b, a)
    ensures a == b
  {
  }

  lemma MergeIsLub(a: Timestamp, b: Timestamp, c: Timestamp)
    requires |a| == |b| == |c|
    ensures Covers(c, Merge(a, b)) <==> Covers(c, a) && Covers(c, b)
  {
  }

  lemma MinIsGlb(a: Timestamp, b: Timestamp, c: Timestamp)
    requires |a| == |b| == |c|
    ensures Covers(Min(a, b), c) <==> Covers(a, c) && Covers(b, c)
  {
  }

  /** Merging with something already covered changes nothing; the two scans of `addInterval` rest on this. */
  lemma MergeAbsorbs(a: Timestamp, b: Timestamp)
    requires |a| == |b|
    ensures Covers(a, b) <==> Merge(a, b) == a
  {
  }

  /** Away from the int32 ceiling an increment is strictly above the old timestamp, and only in its own entry. */
  lemma IncrementIsAbove(t: Timestamp, p: nat)
    requires p < |t|
    ensures Covers(Increment(t, p), t) <==> t[p] != MAX_INT32
    ensures !Covers(t, Increment(t, p)) <==> t[p] != MAX_INT32
  {
  }

  // ---- the loops of the source, against the functions above ----

  method ComputeIncrement(t: Timestamp, p: nat) returns (ts: Timestamp)
    requires p < |t|
    ensures ts == Increment(t, p)
    ensures |ts| == |t| && forall i | 0 <= i < |t| && i != p :: ts[i] == t[i]
    ensures Covers(ts, t) && !Covers(t, ts) <==> t[p] != MAX_INT32
    ensures t[p] != MAX_INT32 ==> forall u: Timestamp | |u| == |t| && Covers(u, t) && u[p] > t[p] :: Covers(u, ts)
    ensures t[p] == MAX_INT32 ==> ts[p] == -MAX_INT32 - 1
  {
    ts := t;
    ts := ts[p := Bump(ts[p])];
    IncrementIsAbove(t, p);
  }

  method ComputeCovers(t: Timestamp, o: Timestamp) returns (b: bool)
    requires |t| == |o|
    ensures b == Covers(t, o)
  {
    for i := 0 to |t|
      invariant forall k | 0 <= k < i :: o[k] <= t[k]
    {
      if t[i] < o[i] {
        return false;
      }
    }
    return true;
  }

  method ComputeEquals(t: Timestamp, o: Timestamp) returns (b: bool)
    requires |t| == |o|
    ensures b <==> t == o
  {
    for i := 0 to |t|
      invariant t[..i] == o[..i]
    {
      if t[i] != o[i] {
        return false;
      }
    }
    return true;
  }

  method ComputeMerge(t: Timestamp, o: Timestamp) returns (ts: Timestamp)
    requires |t| == |o|
    ensures ts == Merge(t, o)
  {
    ts := Zero(|t|);
    for i := 0 to |t|
      invariant |ts| == |t|
      invariant ts[..i] == Merge(t, o)[..i]
    {
      if t[i] > o[i] {
        ts := ts[i := t[i]];
      } else {
        ts := ts[i := o[i]];
      }
    }
  }

  method ComputeMin(t: Timestamp, o: Timestamp) returns (ts: Timestamp)
    requires |t| == |o|
    ensures ts == Min(t, o)
  {
    ts := Zero(|t|);
    for i := 0 to |t|
      invariant |ts| == |t|
      invariant ts[..i] == Min(t, o)[..i]
    {
      if t[i] < o[i] {
        ts := ts[i := t[i]];
      } else {
        ts := ts[i := o[i]];
      }
    }
  }
}
