/** A request and an answer to it that is lost as a whole. */
module DiffLoss {
  import opened Timestamps
  import opened Wrappers
  import opened DiffMerge
  import opened DiffRequests
  import opened DiffStore

  lemma RunOfTwo(list: seq<Notice>, x: Notice, y: Notice, proc: nat)
    requires list == [x, y] && x.diff.None? && y.diff.None?
    ensures RequestFor(list, proc) == Some(Request(proc, x.ts, y.ts))
  {
    assert list[..1] == [x] && [x][..0] == [];
    assert RunStart([x]) == 0;
  }

  lemma TwoRequests(wnl: Lists, n: nat, k: nat, a: Notice, b: Notice, c: Notice, d: Notice)
    requires wnl == [[], [a, b], [c, d]] && k == 3 && |a.ts| == |b.ts| == |c.ts| == |d.ts| == n
    requires a.diff.None? && b.diff.None? && c.diff.None? && d.diff.None?
    requires !Covers(b.ts, d.ts) && !Covers(d.ts, b.ts)
    ensures forall p | 0 <= p < |wnl| :: Sized(wnl[p], n)
    ensures Requests(wnl, n, k) == [Request(1, a.ts, b.ts), Request(2, c.ts, d.ts)]
  {
    RunOfTwo(wnl[1], a, b, 1);
    RunOfTwo(wnl[2], c, d, 2);
    assert RequestFor(wnl[0], 0) == None;
    var r1, r2 := Request(1, a.ts, b.ts), Request(2, c.ts, d.ts);
    assert Requests(wnl, n, 1) == [];
    assert Requests(wnl, n, 2) == [r1];
    assert Absorb(r1, r2, n) == r1 && !Overlap([r1][0], r2);
  }

  lemma ScanOne(list: seq<Notice>, x: Notice, r: Request, n: nat)
    requires list == [x] && |x.ts| == n && Sized(list, n) && SizedRequest(r, n) && Within(x, r)
    ensures Scan(list, r, n) == [x]
  {
    assert list[..0] == [];
  }

  lemma ScanTwo(list: seq<Notice>, x: Notice, y: Notice, r: Request, n: nat)
    requires list == [x, y] && |x.ts| == |y.ts| == n && Sized(list, n)
    requires SizedRequest(r, n) && Within(x, r) && Within(y, r)
    ensures Scan(list, r, n) == [y, x]
  {
    assert list[..1] == [x];
    ScanOne([x], x, r, n);
  }

  lemma AnswerOfThree(theirs: Lists, n: nat, k: nat, me: nat, r: Request, a: Notice, c: Notice, d: Notice)
    requires theirs == [[], [a], [c, d]] && k == 3 && me == 0 && SizedRequest(r, n)
    requires |a.ts| == |c.ts| == |d.ts| == n && Within(a, r) && Within(c, r) && Within(d, r)
    ensures forall p | 0 <= p < |theirs| :: Sized(theirs[p], n)
    ensures Answer(theirs, me, r, n, k) == [a, d, c]
  {
    ScanOne(theirs[1], a, r, n);
    ScanTwo(theirs[2], c, d, r, n);
    var parts := Parts(theirs, me, r, n);
    assert parts == [[], [a], [d, c]];
    assert Flat(parts, 1) == [];
    assert Flat(parts, 2) == [a];
  }

  lemma NoneTaken(wnl: Lists, me: nat, answer: seq<Notice>, a: Notice, b: Notice, c: Notice, d: Notice, k: nat)
    requires wnl == [[], [a, b], [c, d]] && me == 0 && k == 3
    requires answer != [] && answer[0].ts != b.ts && answer[0].ts != d.ts
    ensures Lost(wnl, me, answer) == answer && Fill(wnl, me, answer) == wnl
  {
    MatchIs(wnl[1], answer, 0, 0);
    MatchIs(wnl[2], answer, 0, 0);
    assert Offset(wnl, me, answer, 1) == 0;
    assert Offset(wnl, me, answer, 2) == 0;
    assert Offset(wnl, me, answer, k) == 0;
    assert FillList(wnl[1], answer, 0) == wnl[1] && FillList(wnl[2], answer, 0) == wnl[2];
  }

  /** Host 0 misses the diffs [0,1,1] and [0,2,1] of host 1, and [0,0,1] and [0,1,2] of host 2. It makes two requests.
      Host 2, which has not heard of [0,2,1], answers the second with all it has in that range; but the newest notice
      that host 0 knows of host 1 is not in the answer, so the walk stops before its first diff and never gets to the
      others. */
  lemma GenuineAnswerIsLost(wnl: Lists, theirs: Lists, me: nat, n: nat, k: nat, a: Notice, b: Notice, c: Notice,
                            d: Notice, a': Notice, c': Notice, d': Notice)
    requires me == 0 && n == 3 && k == 3 && wnl == [[], [a, b], [c, d]] && theirs == [[], [a'], [c', d']]
    requires a.ts == a'.ts == [0, 1, 1] && b.ts == [0, 2, 1] && c.ts == c'.ts == [0, 0, 1] && d.ts == d'.ts == [0, 1, 2]
    requires a.diff.None? && b.diff.None? && c.diff.None? && d.diff.None?
    ensures Ascending(wnl, n) && Ascending(theirs, n)
    ensures var r := Request(2, c.ts, d.ts); var answer := Answer(theirs, me, r, n, k);
            && Requests(wnl, n, k) == [Request(1, a.ts, b.ts), r]
            && answer == [a', d', c'] && Lost(wnl, me, answer) == answer && Fill(wnl, me, answer) == wnl
  {
    assert a.ts[1] == 1 && b.ts[1] == 2 && d.ts[1] == 1 && b.ts[2] == 1 && d.ts[2] == 2 && c.ts[1] == 0;
    assert Covers(b.ts, a.ts) && Covers(d.ts, c.ts);
    assert forall p | 0 <= p < |wnl| :: Sized(wnl[p], n) && Ascends(wnl[p], n);
    assert forall p | 0 <= p < |theirs| :: Sized(theirs[p], n) && Ascends(theirs[p], n);
    var r := Request(2, c.ts, d.ts);
    TwoRequests(wnl, n, k, a, b, c, d);
    AnswerOfThree(theirs, n, k, me, r, a', c', d');
    NoneTaken(wnl, me, [a', d', c'], a, b, c, d, k);
  }
}
