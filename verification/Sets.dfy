/** Small facts about finite sets and sequences that several modules need. */
module Sets {

  lemma Pick<T>(s: set<T>) returns (y: T)
    requires s != {}
    ensures y in s
  {
    y :| y in s;
  }

  lemma SubsetSize<T>(a: set<T>, b: set<T>)
    requires a <= b
    ensures |a| <= |b|
    ensures |a| == |b| ==> a == b
    decreases b
  {
    var rest := b - a;
    assert b == a + rest && |b| == |a| + |rest|;
    if rest == {} {
      assert a == b;
    }
  }

  /** A list without repetition is no longer than a set that holds its members. */
  lemma {:induction false} DistinctFew<T>(list: seq<T>, s: set<T>)
    requires forall i | 0 <= i < |list| :: list[i] in s
    requires forall i, j | 0 <= i < j < |list| :: list[i] != list[j]
    ensures |list| <= |s|
    decreases |list|
  {
    if list != [] {
      var last := |list| - 1;
      DistinctFew(list[..last], s - {list[last]});
    }
  }

  lemma Associative<T>(a: seq<T>, b: seq<T>, c: seq<T>)
    ensures a + (b + c) == (a + b) + c
  {
  }

  function Sum(a: seq<nat>): nat {
    if a == [] then 0 else Sum(a[..|a| - 1]) + a[|a| - 1]
  }

  /** If no entry rises and one falls, the sum falls. */
  lemma {:induction false} SumFalls(a: seq<nat>, b: seq<nat>, i: nat)
    requires |a| == |b| && i < |a| && b[i] < a[i]
    requires forall j | 0 <= j < |a| :: b[j] <= a[j]
    ensures Sum(b) < Sum(a)
    decreases |a|
  {
    var last := |a| - 1;
    if i < last {
      SumFalls(a[..last], b[..last], i);
    } else {
      SumNotAbove(a[..last], b[..last]);
    }
  }

  lemma {:induction false} SumNotAbove(a: seq<nat>, b: seq<nat>)
    requires |a| == |b| && forall j | 0 <= j < |a| :: b[j] <= a[j]
    ensures Sum(b) <= Sum(a)
    decreases |a|
  {
    if a != [] {
      SumNotAbove(a[..|a| - 1], b[..|a| - 1]);
    }
  }

  lemma {:induction false} SumBound(a: seq<nat>, n: nat, c: nat)
    requires |a| == n && forall j | 0 <= j < n :: a[j] <= c
    ensures Sum(a) <= n * c
    decreases n
  {
    if n > 0 {
      var m := n - 1;
      SumBound(a[..m], m, c);
      assert m * c + c == n * c;
    }
  }

  /** The first `n` naturals. */
  function Below(n: nat): (s: set<int>)
    ensures forall x :: x in s <==> 0 <= x < n
    ensures |s| == n
  {
    if n == 0 then {} else Below(n - 1) + {n - 1}
  }
}
