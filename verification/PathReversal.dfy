/** Parent forests and the one surgery every lock request performs on them.

    A forest is a sequence of parents: `par[y]` is the parent of node `y`, or -1 when `y` is a root.
    When a node `t` redirects its pointer to the requester `a`, whose group ends in `x`, and `x` was
    pointing at `t`, the link `x -> t -> u` becomes `t -> a ... x -> u`.  The lemmas below show that this
    keeps the forest free of cycles and keeps who-reaches-whom. */
module PathReversal {
  type Parents = seq<int>

  ghost predicate WellFormed(par: Parents) {
    forall y | 0 <= y < |par| :: -1 <= par[y] < |par|
  }

  /** `rank` strictly decreases along every parent link, so no cycle exists. */
  ghost predicate Ranked(par: Parents, rank: seq<nat>) {
    && WellFormed(par)
    && |rank| == |par|
    && forall y | 0 <= y < |par| && par[y] != -1 :: rank[par[y]] < rank[y]
  }

  ghost predicate Acyclic(par: Parents) {
    exists rank: seq<nat> :: Ranked(par, rank)
  }

  ghost predicate UpClosed(par: Parents, s: set<int>) {
    forall y | y in s :: 0 <= y < |par| && (par[y] == -1 || par[y] in s)
  }

  /** `k` lies on the parent chain of `y`: every parent-closed set around `y` contains it. */
  ghost predicate Reaches(par: Parents, y: int, k: int) {
    forall s: set<int> :: UpClosed(par, s) && y in s ==> k in s
  }

  function Reverse(par: Parents, t: nat, x: nat, a: nat): (r: Parents)
    requires t < |par| && x < |par|
    ensures |r| == |par|
  {
    par[t := a][x := par[t]]
  }

  lemma ReachStep(par: Parents, y: int, k: int)
    requires WellFormed(par) && 0 <= y < |par| && y != k
    ensures Reaches(par, y, k) <==> par[y] != -1 && Reaches(par, par[y], k)
  {
    if Reaches(par, y, k) {
      assert par[y] != -1 by {
        if par[y] == -1 {
          assert UpClosed(par, {y});
        }
      }
      forall s: set<int> | UpClosed(par, s) && par[y] in s ensures k in s {
        assert UpClosed(par, s + {y});
      }
    }
  }

  /** Along a chain the rank only goes down. */
  lemma ReachRank(par: Parents, rank: seq<nat>, y: int, k: int)
    requires Ranked(par, rank) && 0 <= y < |par| && Reaches(par, y, k)
    ensures 0 <= k < |par| && rank[k] <= rank[y]
  {
    var s := set z: int | 0 <= z < |par| && rank[z] <= rank[y];
    assert UpClosed(par, s);
  }

  ghost function Ceiling(rank: seq<nat>): (b: nat)
    ensures forall i | 0 <= i < |rank| :: rank[i] < b
  {
    if rank == [] then 0
    else
      var b := Ceiling(rank[1..]);
      assert forall i | 1 <= i < |rank| :: rank[i] == rank[1..][i - 1];
      if rank[0] < b then b else rank[0] + 1
  }

  /** The surgery keeps the forest acyclic. */
  lemma ReverseKeepsAcyclic(par: Parents, t: nat, x: nat, a: nat)
    requires Acyclic(par) && t < |par| && x < |par| && a < |par|
    requires par[x] == t && Reaches(par, a, x)
    ensures t != x && t != a && Acyclic(Reverse(par, t, x, a))
  {
    var rank: seq<nat> :| Ranked(par, rank);
    var big := Ceiling(rank);
    var n := |par|;
    // the nodes that hang below t without passing through x move above everything else
    var c := set y: int | 0 <= y < n && Reaches(par, y, t) && !Reaches(par, y, x);
    if Reaches(par, t, x) {
      ReachRank(par, rank, t, x);
    }
    assert t in c && x !in c && a !in c;
    if par[t] != -1 && par[t] in c {
      ReachRank(par, rank, par[t], t);
    }
    var par' := Reverse(par, t, x, a);
    var rank': seq<nat> := seq(n, y requires 0 <= y < n => if y in c then rank[y] + big else rank[y]);
    forall y | 0 <= y < n && par'[y] != -1 ensures rank'[par'[y]] < rank'[y] {
      if y != t && y != x {
        ReachStep(par, y, t);
        ReachStep(par, y, x);
      }
    }
    assert Ranked(par', rank');
  }

  /** After the surgery the requester still leads to the end of its own group. */
  lemma ReverseKeepsGroup(par: Parents, t: nat, x: nat, a: nat)
    requires Acyclic(par) && t < |par| && x < |par| && a < |par|
    requires par[x] == t && Reaches(par, a, x)
    ensures Reaches(Reverse(par, t, x, a), a, x)
  {
    var rank: seq<nat> :| Ranked(par, rank);
    if Reaches(par, t, x) {
      ReachRank(par, rank, t, x);
    }
    var par' := Reverse(par, t, x, a);
    forall s: set<int> | UpClosed(par', s) && a in s ensures x in s {
      if x !in s {
        var m := s + set y: int | 0 <= y < |par| && !Reaches(par, y, x);
        forall y | y in m ensures 0 <= y < |par| && (par[y] == -1 || par[y] in m) {
          if y in s && Reaches(par, y, x) {
            assert par'[y] == par[y];
          } else if par[y] != -1 {
            ReachStep(par, y, x);
            assert -1 <= par[y] < |par|;
          }
        }
        assert UpClosed(par, m);
      }
    }
  }

  /** Every chain through anything but `t` survives, and a chain that ended in `t` now goes on to `x`. */
  lemma ReverseKeepsReach(par: Parents, t: nat, x: nat, a: nat, w: int, k: int)
    requires Acyclic(par) && t < |par| && x < |par| && a < |par|
    requires par[x] == t && Reaches(par, a, x)
    requires Reaches(par, w, k)
    ensures Reaches(Reverse(par, t, x, a), w, if k == t then x else k)
  {
    var par' := Reverse(par, t, x, a);
    ReverseKeepsAcyclic(par, t, x, a);
    ReverseKeepsGroup(par, t, x, a);
    forall s: set<int> | UpClosed(par', s) && w in s ensures (if k == t then x else k) in s {
      if t in s {
        assert par'[t] == a && a in s;
      }
      var s' := if x in s then s + {t} else s;
      forall y | y in s' ensures 0 <= y < |par| && (par[y] == -1 || par[y] in s') {
        if y != t && y != x {
          assert par'[y] == par[y];
        } else if y == t {
          assert par'[x] == par[t];
        }
      }
      assert UpClosed(par, s');
    }
  }
}
