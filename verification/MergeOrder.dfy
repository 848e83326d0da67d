/** When the merge of all processes' notices goes in causal order: exactly when no notice still to be applied bypasses
    another one. */
module MergeOrder {
  import opened Timestamps
  import opened Wrappers
  import opened DiffMerge

  /** `z` has seen `x` but not `y`, and `y` has not seen `x`. */
  predicate Bypass(x: Notice, y: Notice, z: Notice) {
    |x.ts| == |y.ts| == |z.ts| && After(z, x) && !Covers(z.ts, y.ts) && !Covers(y.ts, x.ts)
  }

  /** Notice `i` of process `p` is still to be applied. */
  predicate Open(wnl: Lists, index: seq<nat>, p: nat, i: nat) {
    |wnl| == |index| && p < |wnl| && index[p] <= i < |wnl[p]|
  }

  /** Three processes, in this order, of which the last bypasses the middle one. */
  predicate BypassAt(wnl: Lists, index: seq<nat>, p: nat, q: nat, r: nat, i: nat, j: nat, k: nat) {
    && p < q < r && Open(wnl, index, p, i) && Open(wnl, index, q, j) && Open(wnl, index, r, k)
    && Bypass(wnl[p][i], wnl[q][j], wnl[r][k])
  }

  ghost predicate NoBypass(wnl: Lists, index: seq<nat>) {
    forall p: nat, q: nat, r: nat, i: nat, j: nat, k: nat :: !BypassAt(wnl, index, p, q, r, i, j, k)
  }

  // ---- no bypass, so every pick is minimal ----

  lemma {:induction false} OrderTakesFrom(wnl: Lists, index: seq<nat>, n: nat, e: (nat, Notice))
    requires Indexed(wnl, index, n) && e in Order(wnl, index, n)
    ensures e.0 < |wnl| && e.1 in Tail(wnl, index, e.0)
    decreases Left(wnl, index, |wnl|)
  {
    var b := Best(wnl, index, n, |wnl|);
    if b.Some? && e != Order(wnl, index, n)[0] {
      var index' := index[b.value := index[b.value] + 1];
      LeftFalls(wnl, index, b.value, |wnl|);
      assert Order(wnl, index, n)[1..] == Order(wnl, index', n);
      OrderTakesFrom(wnl, index', n, e);
      TailStep(wnl, index, b.value, e.0);
    }
  }

  /** Without a bypass the best head so far has never seen a head that the pass has already looked at. */
  lemma {:induction false} BestIsMinimal(wnl: Lists, index: seq<nat>, n: nat, k: nat, p: nat)
    requires Indexed(wnl, index, n) && k <= |wnl| && NoBypass(wnl, index)
    requires var b := Best(wnl, index, n, k); b.Some? && p < b.value && HasHead(wnl, index, p)
    ensures !After(Head(wnl, index, Best(wnl, index, n, k).value), Head(wnl, index, p))
  {
    var b, m := Best(wnl, index, n, k).value, Best(wnl, index, n, k - 1);
    if b < k - 1 {
      BestIsMinimal(wnl, index, n, k - 1, p);
    } else {
      var hk, hm, hp := Head(wnl, index, b), Head(wnl, index, m.value), Head(wnl, index, p);
      if p < m.value {
        BestIsMinimal(wnl, index, n, k - 1, p);
        assert !BypassAt(wnl, index, p, m.value, b, index[p], index[m.value], index[b]);
      } else if m.value < p && Covers(hk.ts, hp.ts) {
        LaterHeadsCoverPick(wnl, index, n, k - 1, p);
        CoversTransitive(hk.ts, hp.ts, hm.ts);
      }
    }
  }

  lemma PickIsMinimal(wnl: Lists, index: seq<nat>, n: nat, p: nat)
    requires Indexed(wnl, index, n) && NoBypass(wnl, index)
    requires p < |wnl| && HasHead(wnl, index, p) && Best(wnl, index, n, |wnl|).Some?
    ensures !After(Head(wnl, index, Best(wnl, index, n, |wnl|).value), Head(wnl, index, p))
  {
    var b := Best(wnl, index, n, |wnl|).value;
    if p < b {
      BestIsMinimal(wnl, index, n, |wnl|, p);
    } else if b < p {
      LaterHeadsCoverPick(wnl, index, n, |wnl|, p);
      var hb, hp := Head(wnl, index, b), Head(wnl, index, p);
      if Covers(hb.ts, hp.ts) {
        CoversAntisymmetric(hb.ts, hp.ts);
      }
    }
  }

  /** A pick that has not seen any head has not seen anything still to come. */
  lemma PickIsFirst(wnl: Lists, index: seq<nat>, n: nat, e: (nat, Notice))
    requires Indexed(wnl, index, n) && Ascending(wnl, n) && NoBypass(wnl, index)
    requires e in Order(wnl, index, n)
    ensures !After(Order(wnl, index, n)[0].1, e.1)
  {
    OrderTakesFrom(wnl, index, n, e);
    var tail := Tail(wnl, index, e.0);
    var k :| 0 <= k < |tail| && tail[k] == e.1;
    var head, first := Head(wnl, index, e.0), Order(wnl, index, n)[0].1;
    assert Ascends(wnl[e.0], n) && e.1 == wnl[e.0][index[e.0] + k];
    assert Covers(e.1.ts, head.ts);
    PickIsMinimal(wnl, index, n, e.0);
    if Covers(first.ts, e.1.ts) {
      CoversTransitive(first.ts, e.1.ts, head.ts);
      CoversAntisymmetric(first.ts, e.1.ts);
    }
  }

  lemma CausalOrderSplit(ns: seq<Notice>)
    requires ns != []
    ensures CausalOrder(ns) <==> CausalOrder(ns[1..]) && forall j | 1 <= j < |ns| :: !After(ns[0], ns[j])
  {
  }

  lemma {:induction false} NoBypassIsCausal(wnl: Lists, index: seq<nat>, n: nat)
    requires Indexed(wnl, index, n) && Ascending(wnl, n) && NoBypass(wnl, index)
    ensures CausalOrder(Plain(Order(wnl, index, n)))
    decreases Left(wnl, index, |wnl|)
  {
    var b := Best(wnl, index, n, |wnl|);
    if b.Some? {
      var index' := index[b.value := index[b.value] + 1];
      LeftFalls(wnl, index, b.value, |wnl|);
      forall p: nat, q: nat, r: nat, i: nat, j: nat, k: nat ensures !BypassAt(wnl, index', p, q, r, i, j, k) {
        assert !BypassAt(wnl, index, p, q, r, i, j, k);
      }
      NoBypassIsCausal(wnl, index', n);
      var order := Order(wnl, index, n);
      assert Plain(order)[1..] == Plain(Order(wnl, index', n));
      CausalOrderSplit(Plain(order));
      forall j | 1 <= j < |order| ensures !After(order[0].1, order[j].1) {
        PickIsFirst(wnl, index, n, order[j]);
      }
    }
  }

  // ---- a bypass, so the order is not causal ----

  lemma {:induction false} OpenIsInOrder(wnl: Lists, index: seq<nat>, n: nat, p: nat, i: nat)
    requires Indexed(wnl, index, n) && Open(wnl, index, p, i)
    ensures (p, wnl[p][i]) in Order(wnl, index, n)
    decreases Left(wnl, index, |wnl|)
  {
    assert HasHead(wnl, index, p);
    var b := Best(wnl, index, n, |wnl|).value;
    if b != p || i != index[p] {
      var index' := index[b := index[b] + 1];
      LeftFalls(wnl, index, b, |wnl|);
      OpenIsInOrder(wnl, index', n, p, i);
      assert Order(wnl, index, n)[1..] == Order(wnl, index', n);
    }
  }

  /** While list `q` still has a notice that does not cover `x`, the pass does not pick `x` from an earlier list. */
  lemma HeldBack(wnl: Lists, index: seq<nat>, n: nat, p: nat, q: nat, j: nat)
    requires Indexed(wnl, index, n) && Ascending(wnl, n) && p < q && Open(wnl, index, q, j)
    requires p < |wnl| && HasHead(wnl, index, p) && !Covers(wnl[q][j].ts, Head(wnl, index, p).ts)
    ensures Best(wnl, index, n, |wnl|) != Some(p)
  {
    if Best(wnl, index, n, |wnl|) == Some(p) {
      assert Ascends(wnl[q], n);
      LaterHeadsCoverPick(wnl, index, n, |wnl|, q);
    }
  }

  lemma SeenComesLater(wnl: Lists, index: seq<nat>, n: nat, p: nat, i: nat)
    requires Indexed(wnl, index, n) && Open(wnl, index, p, i) && Best(wnl, index, n, |wnl|).Some?
    requires After(Head(wnl, index, Best(wnl, index, n, |wnl|).value), wnl[p][i])
    ensures !CausalOrder(Plain(Order(wnl, index, n)))
  {
    OpenIsInOrder(wnl, index, n, p, i);
    var order := Order(wnl, index, n);
    var t :| 0 <= t < |order| && order[t] == (p, wnl[p][i]);
    assert After(Plain(order)[0], Plain(order)[t]);
  }

  /** So `z` is applied before `x`, which it has seen. */
  lemma {:induction false} BypassIsNotCausal(wnl: Lists, index: seq<nat>, n: nat, p: nat, q: nat, r: nat,
                                             i: nat, j: nat, k: nat)
    requires Indexed(wnl, index, n) && Ascending(wnl, n) && BypassAt(wnl, index, p, q, r, i, j, k)
    ensures !CausalOrder(Plain(Order(wnl, index, n)))
    decreases Left(wnl, index, |wnl|)
  {
    assert HasHead(wnl, index, p);
    var b := Best(wnl, index, n, |wnl|).value;
    var index' := index[b := index[b] + 1];
    LeftFalls(wnl, index, b, |wnl|);
    var order := Order(wnl, index, n);
    var ns := Plain(order);
    assert order[1..] == Order(wnl, index', n) && ns[1..] == Plain(Order(wnl, index', n));
    CausalOrderSplit(ns);
    if b == r && index[r] == k {
      SeenComesLater(wnl, index, n, p, i);
    } else {
      if index[p] == i {
        HeldBack(wnl, index, n, p, q, j);
      }
      if index[q] == j {
        HeldBack(wnl, index, n, q, r, k);
      }
      BypassIsNotCausal(wnl, index', n, p, q, r, i, j, k);
    }
  }

  // ---- the theorem ----

  /** For any number of hosts, the merge applies the notices in causal order exactly when no notice still to be applied
      bypasses another one. */
  lemma CausalIffNoBypass(wnl: Lists, index: seq<nat>, n: nat)
    requires Indexed(wnl, index, n) && Ascending(wnl, n)
    ensures CausalOrder(Plain(Order(wnl, index, n))) <==> NoBypass(wnl, index)
  {
    if NoBypass(wnl, index) {
      NoBypassIsCausal(wnl, index, n);
    } else {
      var p: nat, q: nat, r: nat, i: nat, j: nat, k: nat :| BypassAt(wnl, index, p, q, r, i, j, k);
      BypassIsNotCausal(wnl, index, n, p, q, r, i, j, k);
    }
  }

  /** With no bypass, the page that the merge leaves is the one that any causal order of the same race-free notices
      leaves. */
  lemma MergeIsAnyCausalOrder(wnl: Lists, index: seq<nat>, n: nat, page: Page, other: seq<Notice>)
    requires Indexed(wnl, index, n) && Ascending(wnl, n) && NoBypass(wnl, index)
    requires multiset(other) == multiset(Plain(Order(wnl, index, n))) && CausalOrder(other)
    requires RaceFree(Plain(Order(wnl, index, n)))
    ensures ApplyAll(page, Plain(Order(wnl, index, n))) == ApplyAll(page, other)
  {
    CausalIffNoBypass(wnl, index, n);
    Confluence(page, Plain(Order(wnl, index, n)), other);
  }

  // ---- lists without a bypass, and one with ----

  predicate ComparableAt(wnl: Lists, index: seq<nat>, p: nat, q: nat, i: nat, j: nat) {
    Open(wnl, index, p, i) && Open(wnl, index, q, j) && |wnl[p][i].ts| == |wnl[q][j].ts| ==>
      Covers(wnl[p][i].ts, wnl[q][j].ts) || Covers(wnl[q][j].ts, wnl[p][i].ts)
  }

  /** Two hosts never have a bypass, and neither have pairwise comparable notices. */
  lemma FewOrComparableHaveNoBypass(wnl: Lists, index: seq<nat>)
    requires |wnl| == 2 || forall p: nat, q: nat, i: nat, j: nat :: ComparableAt(wnl, index, p, q, i, j)
    ensures NoBypass(wnl, index)
  {
    forall p: nat, q: nat, r: nat, i: nat, j: nat, k: nat ensures !BypassAt(wnl, index, p, q, r, i, j, k) {
      if p < q < r && Open(wnl, index, p, i) && Open(wnl, index, q, j) && Open(wnl, index, r, k) {
        var x, y, z := wnl[p][i], wnl[q][j], wnl[r][k];
        assert ComparableAt(wnl, index, q, r, j, k);
        if |x.ts| == |y.ts| == |z.ts| && Covers(y.ts, z.ts) && Covers(z.ts, x.ts) {
          CoversTransitive(y.ts, z.ts, x.ts);
        }
      }
    }
  }

  /** Three hosts with one notice each: in causal order exactly when the third does not bypass the second. */
  lemma ThreeHeadsCausalIff(wnl: Lists, index: seq<nat>, n: nat)
    requires Indexed(wnl, index, n) && |wnl| == 3 && forall p | 0 <= p < 3 :: |wnl[p]| == 1 && index[p] == 0
    ensures CausalOrder(Plain(Order(wnl, index, n))) <==> !Bypass(wnl[0][0], wnl[1][0], wnl[2][0])
  {
    CausalIffNoBypass(wnl, index, n);
    if Bypass(wnl[0][0], wnl[1][0], wnl[2][0]) {
      assert BypassAt(wnl, index, 0, 1, 2, 0, 0, 0);
    }
  }

  /** Such timestamps exist: [1,0,0], [0,1,0], [1,0,1]. */
  lemma BypassExists(wnl: Lists, index: seq<nat>, x: Notice, y: Notice, z: Notice)
    requires x.ts == [1, 0, 0] && y.ts == [0, 1, 0] && z.ts == [1, 0, 1]
    requires wnl == [[x], [y], [z]] && index == [0, 0, 0]
    ensures Indexed(wnl, index, 3) && Ascending(wnl, 3) && !CausalOrder(Plain(Order(wnl, index, 3)))
  {
    assert z.ts[1] < y.ts[1] && y.ts[0] < x.ts[0] && z.ts[2] != x.ts[2];
    assert Bypass(x, y, z);
    assert forall p | 0 <= p < 3 :: |wnl[p]| == 1 && index[p] == 0;
    ThreeHeadsCausalIff(wnl, index, 3);
  }
}
