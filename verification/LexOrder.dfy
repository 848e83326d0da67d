/** The older timestamps and the order that sorts them: a total order that extends the pointwise causal one. */
module LexOrder {

  type Timestamp = seq<int>

  const MAX_INT := 0x7fff_ffff_ffff_ffff

  /** Lexicographic order on timestamps of one length. */
  predicate Less(t: Timestamp, o: Timestamp)
    requires |t| == |o|
  {
    t != [] && (t[0] < o[0] || (t[0] == o[0] && Less(t[1..], o[1..])))
  }

  /** `t` happened before `o`: no entry is greater and some entry is smaller. */
  predicate Before(t: Timestamp, o: Timestamp) {
    |t| == |o| && (forall i | 0 <= i < |t| :: t[i] <= o[i]) && t != o
  }

  /** The same order, by the first entry that differs. */
  lemma {:induction false} LessAtFirstDifference(t: Timestamp, o: Timestamp, k: nat)
    requires |t| == |o| && k < |t| && t[..k] == o[..k] && t[k] != o[k]
    ensures Less(t, o) <==> t[k] < o[k]
    decreases k
  {
    if k > 0 {
      assert t[0] == t[..k][0] == o[..k][0] == o[0];
      assert t[1..][..k - 1] == t[..k][1..] && o[1..][..k - 1] == o[..k][1..];
      LessAtFirstDifference(t[1..], o[1..], k - 1);
    }
  }

  lemma {:induction false} FirstDifference(t: Timestamp, o: Timestamp) returns (k: nat)
    requires |t| == |o| && t != o
    ensures k < |t| && t[..k] == o[..k] && t[k] != o[k]
  {
    if t[0] != o[0] {
      k := 0;
    } else {
      assert t == [t[0]] + t[1..] && o == [o[0]] + o[1..];
      k := FirstDifference(t[1..], o[1..]);
      assert t[..k + 1] == [t[0]] + t[1..][..k] && o[..k + 1] == [o[0]] + o[1..][..k];
      k := k + 1;
    }
  }

  lemma {:induction false} LessIrreflexive(t: Timestamp)
    ensures !Less(t, t)
  {
    if t != [] {
      LessIrreflexive(t[1..]);
    }
  }

  /** Of two timestamps exactly one is less, or they are equal. */
  lemma {:induction false} LessIsTotal(t: Timestamp, o: Timestamp)
    requires |t| == |o|
    ensures Less(t, o) <==> t != o && !Less(o, t)
  {
    LessIrreflexive(t);
    if t != o {
      var k := FirstDifference(t, o);
      LessAtFirstDifference(t, o, k);
      LessAtFirstDifference(o, t, k);
    }
  }

  lemma {:induction false} LessTransitive(a: Timestamp, b: Timestamp, c: Timestamp)
    requires |a| == |b| == |c| && Less(a, b) && Less(b, c)
    ensures Less(a, c)
  {
    if a[0] == b[0] == c[0] {
      LessTransitive(a[1..], b[1..], c[1..]);
    }
  }

  /** The total order extends the causal one. */
  lemma {:induction false} LessExtendsBefore(t: Timestamp, o: Timestamp)
    requires Before(t, o)
    ensures Less(t, o)
  {
    var k := FirstDifference(t, o);
    LessAtFirstDifference(t, o, k);
  }

  // ---- sorted lists ----

  predicate Sized(ts: seq<Timestamp>, n: nat) {
    forall i | 0 <= i < |ts| :: |ts[i]| == n
  }

  /** What sorting by `ByVal` leaves: no neighbour is less than the one before it. */
  predicate Sorted(ts: seq<Timestamp>, n: nat)
    requires Sized(ts, n)
  {
    forall i | 0 < i < |ts| :: !Less(ts[i], ts[i - 1])
  }

  lemma {:induction false} SortedAll(ts: seq<Timestamp>, n: nat, i: nat, j: nat)
    requires Sized(ts, n) && Sorted(ts, n) && i <= j < |ts|
    ensures !Less(ts[j], ts[i])
    decreases j
  {
    if i == j {
      LessIrreflexive(ts[i]);
    } else {
      SortedAll(ts, n, i, j - 1);
      LessIsTotal(ts[j], ts[i]);
      LessIsTotal(ts[j - 1], ts[i]);
      LessIsTotal(ts[j], ts[j - 1]);
      if ts[j - 1] != ts[i] && ts[j] != ts[j - 1] {
        LessTransitive(ts[i], ts[j - 1], ts[j]);
      }
    }
  }

  /** A sorted list is a linear extension of happened-before: nothing stands after something that it precedes. */
  lemma SortedIsCausal(ts: seq<Timestamp>, n: nat, i: nat, j: nat)
    requires Sized(ts, n) && Sorted(ts, n) && i < j < |ts|
    ensures !Before(ts[j], ts[i])
  {
    SortedAll(ts, n, i, j);
    if Before(ts[j], ts[i]) {
      LessExtendsBefore(ts[j], ts[i]);
    }
  }

  lemma SortedRest(ts: seq<Timestamp>, n: nat)
    requires Sized(ts, n) && Sorted(ts, n) && ts != []
    ensures Sized(ts[1..], n) && Sorted(ts[1..], n) && multiset(ts[1..]) == multiset(ts) - multiset{ts[0]}
  {
    assert ts == [ts[0]] + ts[1..];
    forall i | 0 < i < |ts| - 1 ensures !Less(ts[1..][i], ts[1..][i - 1]) {
      assert !Less(ts[i + 1], ts[i]);
    }
  }

  lemma FirstIsLeast(ts: seq<Timestamp>, n: nat, t: Timestamp)
    requires Sized(ts, n) && Sorted(ts, n) && t in ts
    ensures |t| == n && !Less(t, ts[0])
  {
    var j :| 0 <= j < |ts| && ts[j] == t;
    SortedAll(ts, n, 0, j);
  }

  /** The order being total, a collection of timestamps has only one sorted list. */
  lemma {:induction false} SortedIsUnique(a: seq<Timestamp>, b: seq<Timestamp>, n: nat)
    requires Sized(a, n) && Sized(b, n) && Sorted(a, n) && Sorted(b, n) && multiset(a) == multiset(b)
    ensures a == b
    decreases |a|
  {
    assert |a| == |multiset(a)| == |multiset(b)| == |b|;
    if a != [] {
      assert a[0] in multiset(b) && b[0] in multiset(a);
      FirstIsLeast(a, n, b[0]);
      FirstIsLeast(b, n, a[0]);
      LessIsTotal(a[0], b[0]);
      SortedRest(a, n);
      SortedRest(b, n);
      SortedIsUnique(a[1..], b[1..], n);
      assert a == [a[0]] + a[1..] && b == [b[0]] + b[1..];
    }
  }

  // ---- the loops of the source ----

  method ComputeEquals(t: Timestamp, o: Timestamp) returns (b: bool)
    ensures b <==> t == o
  {
    if |t| != |o| {
      return false;
    }
    for i := 0 to |t|
      invariant t[..i] == o[..i]
    {
      if t[i] != o[i] {
        return false;
      }
    }
    return true;
  }

  /** Process ids count from 1; the entry wraps around at the ceiling of the machine integer. */
  method ComputeIncrement(t: Timestamp, procId: nat) returns (r: Timestamp)
    requires 1 <= procId <= |t|
    ensures |r| == |t| && forall i | 0 <= i < |t| && i != procId - 1 :: r[i] == t[i]
    ensures Before(t, r) <==> t[procId - 1] != MAX_INT
    ensures t[procId - 1] == MAX_INT ==> Before(r, t)
    ensures t[procId - 1] != MAX_INT ==> r[procId - 1] == t[procId - 1] + 1
    ensures t[procId - 1] == MAX_INT ==> r[procId - 1] == -MAX_INT - 1
  {
    var k := procId - 1;
    r := t[k := if t[k] == MAX_INT then -MAX_INT - 1 else t[k] + 1];
    assert r[k] != t[k];
  }

  method ComputeLess(t: Timestamp, o: Timestamp) returns (b: bool)
    requires |t| == |o|
    ensures b == Less(t, o)
  {
    var less, notEqual := true, false;
    for i := 0 to |t|
      invariant less <==> forall k | 0 <= k < i :: t[k] <= o[k]
      invariant notEqual <==> t[..i] != o[..i]
    {
      less := less && t[i] <= o[i];
      assert t[..i + 1] == t[..i] + [t[i]] && o[..i + 1] == o[..i] + [o[i]];
      notEqual := notEqual || t[i] != o[i];
    }
    assert t[..|t|] == t && o[..|o|] == o;
    if less && notEqual {
      LessExtendsBefore(t, o);
    }
    if !less && notEqual {
      for i := 0 to |t|
        invariant t[..i] == o[..i]
        invariant !less
      {
        if t[i] != o[i] {
          LessAtFirstDifference(t, o, i);
          less := t[i] < o[i];
          break;
        }
      }
    }
    if !notEqual {
      LessIrreflexive(t);
    }
    return less && notEqual;
  }
}
