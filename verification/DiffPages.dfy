/** A page's entry in the TreadMarks page array: making and applying diffs in place, against the functions of
    DiffMerge. */
module DiffPages {
  import opened Timestamps
  import opened Wrappers
  import opened Sets
  import opened DiffMerge
  import opened DiffRequests
  import opened DiffStore

  /** The own list after a diff was made: an empty diff takes the newest notice away, any other is attached to it. */
  function Finish(own: seq<Notice>, d: Diff): (r: seq<Notice>)
    requires own != []
  {
    var front := own[..|own| - 1];
    if d.Keys == {} then front else front + [own[|own| - 1].(diff := Some(d))]
  }

  /** Dropped or attached, the own notices always replay to the page as it was when the diff was made. */
  lemma OwnNoticesRebuildPage(page: Page, own: seq<Notice>, twin: Page, data: Page)
    requires own != [] && |twin| == |data|
    requires ApplyAll(page, own[..|own| - 1]) == twin
    ensures ApplyAll(page, Finish(own, Generate(twin, data))) == data
  {
    var d := Generate(twin, data);
    GenerateThenApply(twin, data);
    if d.Keys == {} {
      assert Apply(twin, d) == twin;
    } else {
      var last := own[|own| - 1].(diff := Some(d));
      ApplyAllConcat(page, own[..|own| - 1], [last]);
      assert ApplyAll(Apply(twin, d), []) == Apply(twin, d);
      assert [last][1..] == [];
    }
  }

  /** The own list after a diff: without a changed byte the newest notice is gone, else it has the diff that maps
      exactly the changed bytes to what they are now. */
  ghost predicate DiffMade(own: seq<Notice>, own': seq<Notice>, twin: Page, data: Page)
    requires own != [] && |twin| == |data|
  {
    var last := |own| - 1;
    if data == twin then own' == own[..last]
    else
      && |own'| == |own| && own'[..last] == own[..last]
      && own'[last].owner == own[last].owner && own'[last].ts == own[last].ts && own'[last].diff.Some?
      && forall k :: Changes(own'[last].diff.value, twin, data, k)
  }

  predicate Changes(d: Diff, twin: Page, data: Page, k: int)
    requires |twin| == |data|
  {
    (k in d <==> 0 <= k < |data| && data[k] != twin[k]) && (k in d ==> d[k] == data[k])
  }

  lemma FinishMakesDiff(own: seq<Notice>, twin: Page, data: Page)
    requires own != [] && |twin| == |data|
    ensures DiffMade(own, Finish(own, Generate(twin, data)), twin, data)
  {
    var d := Generate(twin, data);
    forall k ensures Changes(d, twin, data, k) { }
    if d.Keys == {} {
      forall i | 0 <= i < |data| ensures data[i] == twin[i] { assert i !in d; }
      assert data == twin;
    } else {
      var k :| k in d;
      assert data[k] != twin[k];
    }
  }

  predicate InPage(d: Diff, size: nat) {
    forall k | k in d.Keys :: 0 <= k < size
  }

  lemma OrderStep(wnl: Lists, index: seq<nat>, n: nat, page: Page)
    requires Indexed(wnl, index, n) && Best(wnl, index, n, |wnl|).Some?
    ensures var b := Best(wnl, index, n, |wnl|).value;
            var index' := index[b := index[b] + 1];
            && Left(wnl, index', |wnl|) < Left(wnl, index, |wnl|)
            && Done(wnl, index') == Done(wnl, index)
            && ApplyAll(page, Plain(Order(wnl, index, n)))
               == ApplyAll(Apply(page, DiffOf(Head(wnl, index, b))), Plain(Order(wnl, index', n)))
  {
    var b := Best(wnl, index, n, |wnl|).value;
    var index' := index[b := index[b] + 1];
    LeftFalls(wnl, index, b, |wnl|);
    assert Plain(Order(wnl, index, n))[1..] == Plain(Order(wnl, index', n));
  }

  lemma NothingLeft(wnl: Lists, index: seq<nat>, n: nat)
    requires Indexed(wnl, index, n) && Best(wnl, index, n, |wnl|).None?
    ensures Order(wnl, index, n) == [] && Done(wnl, index) == index
  {
  }

  lemma AbsorbAt(rs: seq<Request>, r: Request, n: nat, done: seq<Request>, i: nat)
    requires AllSized(rs, n) && SizedRequest(r, n) && i < |rs| && |done| == |rs|
    requires forall k | 0 <= k < |rs| :: done[k] == if k < i then Absorb(rs[k], r, n) else rs[k]
    ensures var next := done[i := Absorb(rs[i], r, n)];
            forall k | 0 <= k < |rs| :: next[k] == if k < i + 1 then Absorb(rs[k], r, n) else rs[k]
  {
  }

  /** What answering does to the own list: pending writes get a notice, and the twin is turned into its diff. */
  function Flushed(own: seq<Notice>, me: nat, ts: Timestamp, dirty: bool, twin: Option<Page>, data: Page): seq<Notice>
    requires twin.Some? ==> |twin.value| == |data| && (dirty || own != [])
  {
    if twin.None? then own
    else Finish(if dirty then own + [Notice(me, ts, None)] else own, Generate(twin.value, data))
  }

  /** Notice `i` is one of the newest `c` and has got the diff that stands at its place in the answer, from `j` on, with
      its stamp; or it is an older one, and is as it was. */
  predicate Walked(list: seq<Notice>, filled: seq<Notice>, answer: seq<Notice>, j: nat, c: nat, i: nat)
    requires i < |list| == |filled|
  {
    if i < |list| - c then filled[i] == list[i]
    else
      var k := j + |list| - 1 - i;
      k < |answer| && answer[k].ts == list[i].ts && filled[i] == list[i].(diff := answer[k].diff)
  }

  lemma FillStep(lists: Lists, me: nat, answer: seq<Notice>, p: nat, o: nat)
    requires p < |lists| && o == Offset(lists, me, answer, p)
    ensures Offset(lists, me, answer, p + 1) == if p == me then o else o + MatchLength(lists[p], answer, o)
    ensures FilledList(lists, me, answer, p) == if p == me then lists[p] else FillList(lists[p], answer, o)
  {
  }

  class PageEntry {
    var writenotices: Lists
    var hasMissingDiffs: bool
    var dirty: bool
    var twin: Option<Page>
    const index: array<nat>
    const data: array<nat>

    constructor (nrProcs: nat, data: array<nat>)
      ensures writenotices == seq(nrProcs, _ => []) && !hasMissingDiffs
      ensures !dirty && twin == None
      ensures fresh(index) && index[..] == seq(nrProcs, _ => 0) && this.data == data
    {
      writenotices := seq(nrProcs, _ => []);
      hasMissingDiffs, dirty, twin := false, false, None;
      this.data := data;
      index := new nat[nrProcs](_ => 0);
    }

    method ApplyDiff(diff: Diff)
      requires InPage(diff, data.Length)
      modifies data
      ensures data[..] == Apply(old(data[..]), diff)
      ensures forall k | 0 <= k < data.Length :: data[k] == if k in diff then diff[k] else old(data[k])
    {
      var left := diff.Keys;
      while left != {}
        invariant left <= diff.Keys
        invariant forall k | 0 <= k < data.Length ::
          data[k] == if k in diff && k !in left then diff[k] else old(data[k])
        decreases |left|
      {
        ghost var some := Pick(left);
        var key :| key in left;
        data[key] := diff[key];
        left := left - {key};
      }
    }

    method ComputeBest(n: nat) returns (best: Option<nat>)
      requires Indexed(writenotices, index[..], n)
      ensures best == Best(writenotices, index[..], n, |writenotices|)
    {
      best := None;
      for proc := 0 to |writenotices|
        invariant best == Best(writenotices, index[..], n, proc)
      {
        if |writenotices[proc]| > index[proc] {
          var wn := writenotices[proc][index[proc]];
          if best.None? || !Covers(wn.ts, writenotices[best.value][index[best.value]].ts) {
            best := Some(proc);
          }
        }
      }
    }

    method ApplyAllDiffs(n: nat)
      requires Indexed(writenotices, index[..], n) && data != index
      requires forall p, k | 0 <= p < |writenotices| && 0 <= k < |writenotices[p]| ::
        InPage(DiffOf(writenotices[p][k]), data.Length)
      modifies data, index
      ensures data[..] == ApplyAll(old(data[..]), Plain(Order(writenotices, old(index[..]), n)))
      ensures index[..] == Done(writenotices, old(index[..]))
      ensures forall p | 0 <= p < index.Length ::
                index[p] == if old(index[p]) < |writenotices[p]| then |writenotices[p]| else old(index[p])
    {
      var best := ComputeBest(n);
      while best.Some?
        invariant Indexed(writenotices, index[..], n)
        invariant best == Best(writenotices, index[..], n, |writenotices|)
        invariant Done(writenotices, index[..]) == Done(writenotices, old(index[..]))
        invariant ApplyAll(data[..], Plain(Order(writenotices, index[..], n)))
               == ApplyAll(old(data[..]), Plain(Order(writenotices, old(index[..]), n)))
        decreases Left(writenotices, index[..], |writenotices|)
      {
        var b := best.value;
        OrderStep(writenotices, index[..], n, data[..]);
        ghost var before := index[..];
        ApplyDiff(DiffOf(writenotices[b][index[b]]));
        index[b] := index[b] + 1;
        assert index[..] == before[b := before[b] + 1];
        best := ComputeBest(n);
      }
      NothingLeft(writenotices, index[..], n);
    }

    method GenerateDiff(me: nat, twin: Page)
      requires |twin| == data.Length && me < |writenotices| && writenotices[me] != []
      modifies this`writenotices, this`hasMissingDiffs
      ensures writenotices == old(writenotices)[me := Finish(old(writenotices[me]), Generate(twin, data[..]))]
      ensures DiffMade(old(writenotices[me]), writenotices[me], twin, data[..])
      ensures !hasMissingDiffs
    {
      FinishMakesDiff(writenotices[me], twin, data[..]);
      var diff: Diff := map[];
      for i := 0 to data.Length
        invariant diff == map k | 0 <= k < i && data[k] != twin[k] :: data[k]
      {
        if data[i] != twin[i] {
          diff := diff[i := data[i]];
        }
      }
      assert diff == Generate(twin, data[..]);
      hasMissingDiffs := false;
      var own := writenotices[me];
      if |diff.Keys| == 0 {
        writenotices := writenotices[me := own[..|own| - 1]];
      } else {
        writenotices := writenotices[me := own[|own| - 1 := own[|own| - 1].(diff := Some(diff))]];
        assert writenotices[me] == own[..|own| - 1] + [own[|own| - 1].(diff := Some(diff))];
      }
    }

    method CreateDiffRequest(procId: nat) returns (r: Option<Request>)
      requires procId < |writenotices|
      ensures r == RequestFor(writenotices[procId], procId)
      ensures r.Some? ==> exists s: nat :: AsksForRun(writenotices[procId], r.value, procId, s)
      ensures r.None? <==> var list := writenotices[procId]; list == [] || list[|list| - 1].diff.Some?
    {
      RequestIsRun(writenotices[procId], procId);
      var wnl := writenotices[procId];
      r := None;
      var l: int := |wnl| - 1;
      if l >= 0 && wnl[l].diff == None {
        var first := wnl[l].ts;
        while l >= 0 && wnl[l].diff == None
          invariant -1 <= l < |wnl|
          invariant RunStart(wnl[..l + 1]) == RunStart(wnl)
          invariant l < |wnl| - 1 ==> first == wnl[l + 1].ts
          invariant l == |wnl| - 1 ==> wnl[l].diff == None
        {
          first := wnl[l].ts;
          assert wnl[..l + 1][..l] == wnl[..l];
          l := l - 1;
        }
        r := Some(Request(procId, first, wnl[|wnl| - 1].ts));
      }
      assert wnl[..|wnl|] == wnl;
    }

    method CreateDiffRequests(n: nat) returns (rs: seq<Request>)
      requires forall p | 0 <= p < |writenotices| :: Sized(writenotices[p], n)
      ensures rs == Requests(writenotices, n, |writenotices|)
    {
      rs := [];
      for proc := 0 to |writenotices|
        invariant rs == Requests(writenotices, n, proc)
      {
        var req := CreateDiffRequest(proc);
        if req.Some? {
          rs := InsertRequest(rs, req.value, n);
        }
      }
    }

    /** The inner loop of the source: it changes the requests in place while it walks over them. */
    static method InsertRequest(requests: seq<Request>, req: Request, n: nat) returns (rs: seq<Request>)
      requires AllSized(requests, n) && SizedRequest(req, n)
      ensures rs == Join(requests, req, n)
    {
      rs := requests;
      var insert := true;
      for i := 0 to |requests|
        invariant |rs| == |requests|
        invariant forall k | 0 <= k < |rs| :: rs[k] == if k < i then Absorb(requests[k], req, n) else requests[k]
        invariant insert <==> forall k | 0 <= k < i :: !Overlap(requests[k], req)
      {
        AbsorbAt(requests, req, n, rs, i);
        var old' := rs[i];
        if Covers(old'.last, req.last) {
          rs := rs[i := old'.(first := Min(old'.first, req.first))];
          insert := false;
        } else if Covers(req.last, old'.last) {
          rs := rs[i := Request(req.to, Min(old'.first, req.first), Merge(old'.last, req.last))];
          insert := false;
        }
      }
      if insert {
        rs := rs + [req];
      }
    }

    /** Makes the own pending writes visible: a notice if the page is dirty, and its diff against the twin. */
    method FlushTwin(me: nat, ts: Timestamp)
      requires me < |writenotices|
      requires twin.Some? ==> |twin.value| == data.Length && (dirty || writenotices[me] != [])
      modifies this
      ensures writenotices
           == old(writenotices)[me := Flushed(old(writenotices[me]), me, ts, old(dirty), old(twin), data[..])]
      ensures |writenotices| == |old(writenotices)| && (old(twin).None? ==> writenotices == old(writenotices))
      ensures forall p | 0 <= p < |writenotices| && p != me :: writenotices[p] == old(writenotices)[p]
      ensures old(twin).Some? ==>
                var own := old(writenotices)[me] + if old(dirty) then [Notice(me, ts, None)] else [];
                DiffMade(own, writenotices[me], old(twin).value, data[..])
      ensures twin == None && dirty == (old(dirty) && old(twin).None?)
      ensures hasMissingDiffs == (old(hasMissingDiffs) && old(twin).None?)
    {
      if twin.Some? {
        if dirty {
          writenotices := writenotices[me := writenotices[me] + [Notice(me, ts, None)]];
          dirty := false;
        }
        GenerateDiff(me, twin.value);
        twin := None;
      }
    }

    method CollectNotices(from: nat, req: Request, n: nat) returns (result: seq<Notice>)
      requires SizedRequest(req, n) && forall p | 0 <= p < |writenotices| :: Sized(writenotices[p], n)
      ensures result == Answer(writenotices, from, req, n, |writenotices|)
    {
      result := [];
      for proc := 0 to |writenotices|
        invariant result == Answer(writenotices, from, req, n, proc)
      {
        if proc != from {
          var found := ScanBackwards(writenotices[proc], req, n);
          result := result + found;
        }
      }
    }

    method HandleDiffRequest(me: nat, from: nat, req: Request, ts: Timestamp) returns (result: seq<Notice>)
      requires me < |writenotices| && SizedRequest(req, |ts|)
      requires twin.Some? ==> |twin.value| == data.Length && (dirty || writenotices[me] != [])
      requires forall p | 0 <= p < |writenotices| :: Sized(writenotices[p], |ts|)
      modifies this
      ensures writenotices
           == old(writenotices)[me := Flushed(old(writenotices[me]), me, ts, old(dirty), old(twin), data[..])]
      ensures twin == None && dirty == (old(dirty) && old(twin).None?)
      ensures hasMissingDiffs == (old(hasMissingDiffs) && old(twin).None?)
      ensures forall p | 0 <= p < |writenotices| :: Sized(writenotices[p], |ts|)
      ensures result == Answer(writenotices, from, req, |ts|, |writenotices|)
    {
      FlushTwin(me, ts);
      result := CollectNotices(from, req, |ts|);
    }

    static method ScanBackwards(list: seq<Notice>, req: Request, n: nat) returns (found: seq<Notice>)
      requires Sized(list, n) && SizedRequest(req, n)
      ensures found == Scan(list, req, n)
    {
      found := [];
      var i: int := |list| - 1;
      ghost var goal := Scan(list, req, n);
      assert list[..i + 1] == list;
      while i >= 0 && Covers(list[i].ts, req.first)
        invariant -1 <= i < |list|
        invariant found + Scan(list[..i + 1], req, n) == goal
      {
        ScanStep(list, i, req, n);
        var wn := list[i];
        if Covers(req.last, wn.ts) {
          Associative(found, [wn], Scan(list[..i], req, n));
          found := found + [wn];
        }
        i := i - 1;
      }
      if i >= 0 {
        ScanStep(list, i, req, n);
      }
    }

    /** Stores the diffs of an answer by walking each list backwards while the stamps agree. */
    method HandleDiffResponse(me: nat, answer: seq<Notice>)
      modifies this`writenotices
      ensures writenotices == Fill(old(writenotices), me, answer)
      ensures OnlyRefilled(old(writenotices), writenotices, me, answer)
    {
      FillRefillsOnly(writenotices, me, answer);
      writenotices := FillEach(writenotices, me, answer);
    }

    static method FillEach(lists: Lists, me: nat, answer: seq<Notice>) returns (filled: Lists)
      ensures filled == Fill(lists, me, answer)
    {
      filled := [];
      var j := 0;
      for proc := 0 to |lists|
        invariant |filled| == proc
        invariant j == Offset(lists, me, answer, proc)
        invariant forall p | 0 <= p < proc :: filled[p] == FilledList(lists, me, answer, p)
      {
        FillStep(lists, me, answer, proc, j);
        var list := lists[proc];
        if proc != me {
          var c;
          list, c := FillBackwards(list, answer, j);
          j := j + c;
        }
        filled := filled + [list];
      }
    }

    static method FillBackwards(list: seq<Notice>, answer: seq<Notice>, j: nat) returns (filled: seq<Notice>, c: nat)
      requires j <= |answer|
      ensures c == MatchLength(list, answer, j) && filled == FillList(list, answer, j)
      ensures |filled| == |list| && forall i: nat | i < |list| :: Walked(list, filled, answer, j, c, i)
    {
      filled, c := list, 0;
      while c < |list| && j + c < |answer| && filled[|list| - 1 - c].ts == answer[j + c].ts
        invariant c <= |list| && j + c <= |answer| && |filled| == |list|
        invariant Matches(list, answer, j, c)
        invariant forall i | 0 <= i < |list| ::
          filled[i] == if i < |list| - c then list[i] else list[i].(diff := answer[j + |list| - 1 - i].diff)
      {
        assert Alike(list, answer, j, c);
        filled := filled[|list| - 1 - c := filled[|list| - 1 - c].(diff := answer[j + c].diff)];
        c := c + 1;
      }
      MatchIs(list, answer, j, c);
      forall i: nat | i < |list| ensures Walked(list, filled, answer, j, c, i) {
        assert |list| - c <= i ==> Alike(list, answer, j, |list| - 1 - i);
      }
    }
  }
}
