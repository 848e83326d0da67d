/** The integer sort benchmark: ranks are counted batch by batch, then every key is scattered to its rank. */
module RankSort {
  import opened Sets

  // ---- ranks ----

  /** Key `l` goes before key `j`: it is smaller, or equal and to the left. */
  predicate Precedes(keys: seq<int>, l: nat, j: nat)
    requires l < |keys| && j < |keys|
  {
    keys[l] < keys[j] || (keys[l] == keys[j] && l < j)
  }

  function RankUpTo(keys: seq<int>, j: nat, m: nat): (r: nat)
    requires j < |keys| && m <= |keys|
    ensures r <= m
  {
    if m == 0 then 0 else RankUpTo(keys, j, m - 1) + if Precedes(keys, m - 1, j) then 1 else 0
  }

  function Rank(keys: seq<int>, j: nat): nat
    requires j < |keys|
  {
    RankUpTo(keys, j, |keys|)
  }

  /** What precedes `i` precedes `j`, and `i` itself does too. */
  lemma {:induction false} RankUpToGrows(keys: seq<int>, i: nat, j: nat, m: nat)
    requires i < |keys| && j < |keys| && m <= |keys| && Precedes(keys, i, j)
    ensures RankUpTo(keys, i, m) + (if i < m then 1 else 0) <= RankUpTo(keys, j, m)
  {
    if m > 0 {
      RankUpToGrows(keys, i, j, m - 1);
    }
  }

  lemma {:induction false} RankInRange(keys: seq<int>, j: nat, m: nat)
    requires j < |keys| && m <= |keys|
    ensures RankUpTo(keys, j, m) <= m - if j < m then 1 else 0
  {
    if m > 0 {
      RankInRange(keys, j, m - 1);
    }
  }

  /** Ranks are positions, and they order the keys as `Precedes` does. */
  lemma RankOrders(keys: seq<int>, i: nat, j: nat)
    requires i < |keys| && j < |keys|
    ensures Rank(keys, i) < |keys|
    ensures Rank(keys, i) < Rank(keys, j) <==> Precedes(keys, i, j)
    ensures Rank(keys, i) == Rank(keys, j) <==> i == j
  {
    RankInRange(keys, i, |keys|);
    if Precedes(keys, i, j) {
      RankUpToGrows(keys, i, j, |keys|);
    } else if Precedes(keys, j, i) {
      RankUpToGrows(keys, j, i, |keys|);
    }
  }

  // ---- permutations ----

  /** `p` lists each index below its length once. */
  ghost predicate Permutation(p: seq<nat>) {
    && (forall a | 0 <= a < |p| :: p[a] < |p|)
    && (forall a, b | 0 <= a < b < |p| :: p[a] != p[b])
  }

  lemma PermutationHits(p: seq<nat>, r: nat) returns (a: nat)
    requires Permutation(p) && r < |p|
    ensures a < |p| && p[a] == r
  {
    if r !in p {
      DistinctFew(p, Below(|p|) - {r});
    }
    a :| a < |p| && p[a] == r;
  }

  function Ranks(keys: seq<int>): (p: seq<nat>)
    ensures |p| == |keys|
  {
    seq(|keys|, i requires 0 <= i < |keys| => Rank(keys, i))
  }

  lemma RanksArePermutation(keys: seq<int>)
    ensures Permutation(Ranks(keys))
  {
    var p := Ranks(keys);
    forall a, b | 0 <= a < |p| && 0 <= b < |p| ensures p[a] < |p| && (a < b ==> p[a] != p[b]) {
      RankOrders(keys, a, b);
    }
  }

  /** Every position is the rank of some key. */
  lemma EveryPositionIsARank(keys: seq<int>, r: nat) returns (i: nat)
    requires r < |keys|
    ensures i < |keys| && Rank(keys, i) == r
  {
    RanksArePermutation(keys);
    i := PermutationHits(Ranks(keys), r);
  }

  // ---- the scattered result ----

  ghost predicate Scattered(keys: seq<int>, s: seq<int>) {
    |s| == |keys| && forall i: nat | i < |keys| :: Rank(keys, i) < |s| && s[Rank(keys, i)] == keys[i]
  }

  /** The result is sorted, and equal keys keep their order. */
  lemma ScatterSortsStably(keys: seq<int>, s: seq<int>, a: nat, b: nat) returns (i: nat, j: nat)
    requires Scattered(keys, s) && a < b < |s|
    ensures i < |keys| && Rank(keys, i) == a && keys[i] == s[a]
    ensures j < |keys| && Rank(keys, j) == b && keys[j] == s[b]
    ensures s[a] < s[b] || (s[a] == s[b] && i < j)
  {
    i := EveryPositionIsARank(keys, a);
    j := EveryPositionIsARank(keys, b);
    RankOrders(keys, i, j);
  }

  function Without<T>(s: seq<T>, a: nat): seq<T>
    requires a < |s|
  {
    s[..a] + s[a + 1..]
  }

  lemma WithoutElements<T>(s: seq<T>, a: nat)
    requires a < |s|
    ensures multiset(s) == multiset(Without(s, a)) + multiset{s[a]}
  {
    assert s == s[..a] + [s[a]] + s[a + 1..];
  }

  lemma WithoutLast(p: seq<nat>, a: nat)
    requires Permutation(p) && a < |p| && p[a] == |p| - 1
    ensures Permutation(Without(p, a))
  {
  }

  lemma {:induction false} PermutedSameElements(keys: seq<int>, s: seq<int>, p: seq<nat>)
    requires Permutation(p) && |p| == |keys| == |s| && forall a | 0 <= a < |p| :: s[a] == keys[p[a]]
    ensures multiset(s) == multiset(keys)
    decreases |p|
  {
    if p == [] {
      assert s == [] && keys == [];
    } else {
      var n := |p| - 1;
      var a := PermutationHits(p, n);
      WithoutLast(p, a);
      WithoutElements(s, a);
      WithoutElements(keys, n);
      assert Without(keys, n) == keys[..n];
      PermutedSameElements(keys[..n], Without(s, a), Without(p, a));
    }
  }

  /** Scattering loses no key and makes up none. */
  lemma ScatterKeepsKeys(keys: seq<int>, s: seq<int>)
    requires Scattered(keys, s)
    ensures multiset(s) == multiset(keys)
  {
    var p := KeysByRank(keys, |keys|);
    forall a | 0 <= a < |p| ensures s[a] == keys[p[a]] {
      assert Rank(keys, p[a]) == a;
    }
    PermutedSameElements(keys, s, p);
  }

  lemma {:induction false} KeysByRank(keys: seq<int>, m: nat) returns (p: seq<nat>)
    requires m <= |keys|
    ensures |p| == m && forall a | 0 <= a < m :: p[a] < |keys| && Rank(keys, p[a]) == a
    ensures forall a, b | 0 <= a < b < m :: p[a] != p[b]
  {
    if m == 0 {
      p := [];
    } else {
      p := KeysByRank(keys, m - 1);
      var i := EveryPositionIsARank(keys, m - 1);
      p := p + [i];
    }
  }

  // ---- batches ----

  /** The shared cursor after `t` calls. */
  function Cursor(size: nat, n: nat, t: nat): (c: nat)
    ensures c <= n
  {
    if t == 0 then 0 else End(Cursor(size, n, t - 1), size, n)
  }

  /** A batch has `size` keys, unless it is cut off by the end of the list. */
  function End(start: nat, size: nat, n: nat): (end: nat)
    ensures end <= n && (start <= n ==> start <= end <= start + size && (end == start + size || end == n))
  {
    if start + size < n then start + size else n
  }

  /** The starts that host `h` was given and replays in later iterations; `calls` lists the hosts in lock order. */
  function MyBatches(calls: seq<nat>, size: nat, n: nat, h: nat): seq<nat> {
    if calls == [] then []
    else
      var t := |calls| - 1;
      MyBatches(calls[..t], size, n, h) + if calls[t] == h then [Cursor(size, n, t)] else []
  }

  /** Key `j` is in the batch that starts at `start`. */
  predicate InBatch(start: nat, size: nat, n: nat, j: nat) {
    start <= j < End(start, size, n)
  }

  ghost predicate RankedIn(calls: seq<nat>, size: nat, n: nat, h: nat, b: nat, j: nat) {
    b < |MyBatches(calls, size, n, h)| && InBatch(MyBatches(calls, size, n, h)[b], size, n, j)
  }

  lemma {:induction false} OnlyBelowCursor(calls: seq<nat>, size: nat, n: nat, h: nat, b: nat, j: nat)
    requires RankedIn(calls, size, n, h, b, j)
    ensures j < Cursor(size, n, |calls|)
    decreases |calls|
  {
    var t := |calls| - 1;
    if b < |MyBatches(calls[..t], size, n, h)| {
      OnlyBelowCursor(calls[..t], size, n, h, b, j);
    }
  }

  /** Every key below the cursor is in exactly one batch of exactly one host, however the hosts took turns. */
  lemma {:induction false} RankedByOne(calls: seq<nat>, size: nat, n: nat, j: nat) returns (h: nat, b: nat)
    requires j < Cursor(size, n, |calls|)
    ensures RankedIn(calls, size, n, h, b, j)
    ensures forall h': nat, b': nat :: RankedIn(calls, size, n, h', b', j) ==> h' == h && b' == b
    decreases |calls|
  {
    var t := |calls| - 1;
    var before := calls[..t];
    if j < Cursor(size, n, t) {
      h, b := RankedByOne(before, size, n, j);
      forall h': nat, b': nat | RankedIn(calls, size, n, h', b', j) ensures h' == h && b' == b {
        assert b' < |MyBatches(before, size, n, h')|;
        assert RankedIn(before, size, n, h', b', j);
      }
    } else {
      h, b := calls[t], |MyBatches(before, size, n, calls[t])|;
      forall h': nat, b': nat | RankedIn(calls, size, n, h', b', j) ensures h' == h && b' == b {
        if b' < |MyBatches(before, size, n, h')| {
          OnlyBelowCursor(before, size, n, h', b', j);
        }
      }
    }
  }

  /** A host leaves its loop when it is given a start at or past the end: by then all keys are in some batch. */
  lemma AllRankedWhenOneStops(calls: seq<nat>, size: nat, n: nat, t: nat, j: nat) returns (h: nat, b: nat)
    requires t < |calls| && Cursor(size, n, t) >= n && j < n
    ensures RankedIn(calls, size, n, h, b, j)
    ensures forall h': nat, b': nat :: RankedIn(calls, size, n, h', b', j) ==> h' == h && b' == b
  {
    CursorStays(size, n, t, |calls|);
    h, b := RankedByOne(calls, size, n, j);
  }

  lemma {:induction false} CursorStays(size: nat, n: nat, t: nat, u: nat)
    requires t <= u && Cursor(size, n, t) >= n
    ensures Cursor(size, n, u) == n
  {
    if t < u {
      CursorStays(size, n, t, u - 1);
    }
  }

  /** With batches that are not empty the cursor reaches the end. */
  lemma {:induction false} CursorReachesEnd(size: nat, n: nat, t: nat)
    requires size > 0
    ensures Cursor(size, n, t) >= t || Cursor(size, n, t) == n
  {
    if t > 0 {
      CursorReachesEnd(size, n, t - 1);
    }
  }

  // ---- all batches ----

  /** The shared ranks after the keys from `start` to `end` have been ranked. */
  function WriteRanks(keys: seq<int>, ranks: seq<nat>, start: nat, end: nat): (r: seq<nat>)
    requires |ranks| == |keys|
    ensures |r| == |keys|
  {
    seq(|keys|, j requires 0 <= j < |keys| => if start <= j < end then Rank(keys, j) else ranks[j])
  }

  /** After the batches that begin at `starts` have been ranked, in this order. */
  function WriteAll(keys: seq<int>, ranks: seq<nat>, size: nat, starts: seq<nat>): (r: seq<nat>)
    requires |ranks| == |keys|
    ensures |r| == |keys|
  {
    if starts == [] then ranks
    else
      var last := |starts| - 1;
      WriteRanks(keys, WriteAll(keys, ranks, size, starts[..last]), starts[last], End(starts[last], size, |keys|))
  }

  lemma {:induction false} WrittenOnce(keys: seq<int>, ranks: seq<nat>, size: nat, starts: seq<nat>, b: nat, j: nat)
    requires |ranks| == |keys| && b < |starts| && j < |keys| && InBatch(starts[b], size, |keys|, j)
    ensures WriteAll(keys, ranks, size, starts)[j] == Rank(keys, j)
    decreases |starts|
  {
    var last := |starts| - 1;
    if b < last {
      WrittenOnce(keys, ranks, size, starts[..last], b, j);
    }
  }

  /** Once some host has left its loop, ranking every batch that any host was given, in whatever order they come, leaves
      all ranks: what the scatter needs. */
  lemma AllBatchesGiveAllRanks(keys: seq<int>, ranks: seq<nat>, calls: seq<nat>, size: nat, t: nat, starts: seq<nat>)
    requires |ranks| == |keys| && t < |calls| && Cursor(size, |keys|, t) >= |keys|
    requires forall h: nat, b: nat | b < |MyBatches(calls, size, |keys|, h)| ::
               MyBatches(calls, size, |keys|, h)[b] in starts
    ensures WriteAll(keys, ranks, size, starts) == Ranks(keys)
  {
    var written := WriteAll(keys, ranks, size, starts);
    forall j | 0 <= j < |keys| ensures written[j] == Rank(keys, j) {
      var h, b := AllRankedWhenOneStops(calls, size, |keys|, t, j);
      var start := MyBatches(calls, size, |keys|, h)[b];
      var i :| 0 <= i < |starts| && starts[i] == start;
      WrittenOnce(keys, ranks, size, starts, i, j);
    }
  }

  // ---- the loops of the source ----

  class SharedSort {
    const keys: seq<int>
    const batchSize: nat
    var prog: nat
    const ranks: array<nat>
    ghost var calls: seq<nat>

    ghost predicate Valid()
      reads this
    {
      prog == Cursor(batchSize, |keys|, |calls|) && ranks.Length == |keys|
    }

    constructor (keys: seq<int>, batchSize: nat)
      ensures Valid() && this.keys == keys && this.batchSize == batchSize && calls == [] && fresh(ranks)
    {
      this.keys, this.batchSize, prog, calls := keys, batchSize, 0, [];
      ranks := new nat[|keys|];
    }

    /** Under the lock: read the shared cursor, keep the start, move the cursor on. */
    method TakeBatch(host: nat, batches: seq<nat>) returns (start: nat, end: nat, kept: seq<nat>)
      requires Valid() && batches == MyBatches(calls, batchSize, |keys|, host)
      modifies this`prog, this`calls
      ensures Valid() && calls == old(calls) + [host]
      ensures start == old(prog) && end == End(start, batchSize, |keys|) == prog
      ensures start <= end <= |keys| && end - start <= batchSize && (end - start == batchSize || end == |keys|)
      ensures kept == batches + [start] && kept == MyBatches(calls, batchSize, |keys|, host)
    {
      start := prog;
      kept := batches + [start];
      end := if start + batchSize < |keys| then start + batchSize else |keys|;
      prog := end;
      calls := calls + [host];
      assert calls[..|calls| - 1] == old(calls);
    }

    method ComputeRank(j: nat) returns (rj: nat)
      requires j < |keys|
      ensures rj == Rank(keys, j)
    {
      var kj := keys[j];
      rj := 0;
      for l := 0 to |keys|
        invariant rj == RankUpTo(keys, j, l)
      {
        var kl := keys[l];
        if kl < kj || (kj == kl && l < j) {
          rj := rj + 1;
        }
      }
    }

    method RankBatch(start: nat, end: nat)
      requires Valid() && start <= end <= |keys|
      modifies ranks
      ensures ranks[..] == WriteRanks(keys, old(ranks[..]), start, end)
      ensures forall j | 0 <= j < |keys| :: ranks[j] == if start <= j < end then Rank(keys, j) else old(ranks[j])
    {
      for j := start to end
        invariant forall i | 0 <= i < |keys| :: ranks[i] == if start <= i < j then Rank(keys, i) else old(ranks[i])
      {
        var rj := ComputeRank(j);
        ranks[j] := rj;
      }
    }

    method Scatter() returns (sorted: array<int>)
      requires Valid() && ranks[..] == Ranks(keys)
      ensures fresh(sorted) && Scattered(keys, sorted[..])
    {
      sorted := new int[|keys|];
      for i := 0 to |keys|
        invariant forall k: nat | k < i :: Rank(keys, k) < |keys| && sorted[Rank(keys, k)] == keys[k]
      {
        RankOrders(keys, i, i);
        forall k: nat | k < i ensures Rank(keys, k) != Rank(keys, i) {
          RankOrders(keys, k, i);
        }
        sorted[ranks[i]] := keys[i];
      }
    }
  }

  /** The value at `i` is less than the one before it; the first value is compared with 0. */
  predicate Falls(s: seq<int>, i: nat)
    requires i < |s|
  {
    s[i] < if i == 0 then 0 else s[i - 1]
  }

  /** The places before `n` where the value falls. */
  ghost function Descents(s: seq<int>, n: nat): set<nat>
    requires n <= |s|
  {
    set i: nat | i < n && Falls(s, i)
  }

  lemma NoDescents(s: seq<int>)
    ensures |Descents(s, |s|)| == 0 <==> forall i: nat | i < |s| :: !Falls(s, i)
  {
    var descents := Descents(s, |s|);
    assert descents == {} <==> forall i: nat | i < |s| :: i !in descents;
    assert forall i: nat | i < |s| :: i in descents <==> Falls(s, i);
  }

  /** The final check of the benchmark counts them. */
  method CountDescents(sorted: seq<int>) returns (x: nat)
    ensures x == |Descents(sorted, |sorted|)|
    ensures x == 0 <==> forall i: nat | i < |sorted| :: !Falls(sorted, i)
  {
    x := 0;
    var last := 0;
    for i := 0 to |sorted|
      invariant last == if i == 0 then 0 else sorted[i - 1]
      invariant x == |Descents(sorted, i)|
    {
      assert Falls(sorted, i) <==> last > sorted[i];
      assert Descents(sorted, i + 1) == Descents(sorted, i) + if Falls(sorted, i) then {i} else {};
      if last > sorted[i] {
        x := x + 1;
      }
      last := sorted[i];
    }
    NoDescents(sorted);
  }

  /** The check finds nothing in the scattered keys exactly when no key is negative. */
  lemma CheckPassesIff(keys: seq<int>, s: seq<int>)
    requires Scattered(keys, s)
    ensures (forall i: nat | i < |s| :: !Falls(s, i)) <==> (forall i | 0 <= i < |keys| :: 0 <= keys[i])
  {
    forall i | 0 < i < |s| ensures !Falls(s, i) {
      var k, l := ScatterSortsStably(keys, s, i - 1, i);
    }
    forall i: nat | i < |keys| ensures s[0] <= keys[i] {
      RankOrders(keys, i, i);
      var r := Rank(keys, i);
      assert s[r] == keys[i];
      if r > 0 {
        var k, l := ScatterSortsStably(keys, s, 0, r);
      }
    }
    if keys != [] {
      var i := EveryPositionIsARank(keys, 0);
      assert Falls(s, 0) <==> keys[i] < 0;
    }
  }
}
