/** The MultiView manager object: its tables, its page locks and its outgoing messages.  Each method is proved to do
    to one page what `Coherence` says, or to the tables what `ViewAlloc` says, and nothing else. */
module MultiviewManager {
  import opened Wrappers
  import opened PageMath
  import FreeList
  import opened Minipages
  import opened ViewAlloc
  import C = Coherence

  /** A message on its way out, with the fields that the manager fills in. */
  datatype Sent = Sent(msg: C.Msg, addr: int, base: int, size: int, priv: int)

  /** One table gets one more entry of the run. */
  lemma EnterSame<V>(m: map<int, V>, start: int, k: nat, v: V)
    ensures m + Uniform(Span(start, k + 1), v) == (m + Uniform(Span(start, k), v))[start + k := v]
  {
    assert Span(start, k + 1) == Span(start, k) + {start + k};
  }

  lemma EnterPiece(m: map<int, Minipage>, start: int, pieces: seq<Minipage>, k: nat)
    requires k < |pieces|
    ensures m + Laid(start, pieces[..k + 1]) == (m + Laid(start, pieces[..k]))[start + k := pieces[k]]
  {
    assert Span(start, k + 1) == Span(start, k) + {start + k};
  }

  /** Entering one more minipage. */
  lemma EnterStep(tab: Tables, start: int, pieces: seq<Minipage>, k: nat, from: nat)
    requires k < |pieces|
    ensures EnterAll(tab, start, pieces[..k + 1], from)
         == EnterOne(EnterAll(tab, start, pieces[..k], from), start + k, pieces[k], start, from)
  {
    assert |pieces[..k]| == k && |pieces[..k + 1]| == k + 1;
    EnterPiece(tab.mpt, start, pieces, k);
    EnterSame(tab.log, start, k, start);
    EnterSame(tab.copies, start, k, [from]);
    EnterSame(tab.locks, start, k, RwLock(0, false));
  }

  function EnterOne(t: Tables, x: int, mp: Minipage, start: int, from: nat): Tables {
    Tables(t.mpt[x := mp], t.log[x := start], t.copies[x := [from]], t.locks[x := RwLock(0, false)])
  }

  class Manager {
    const vm: FreeList.Vmem
    var mpt: map<int, Minipage>
    var log: map<int, int>
    var copies: map<int, seq<nat>>
    var locks: map<int, RwLock>
    var out: seq<Sent>
    /** History only: the counts of the current write transaction of each page. */
    ghost var ledgers: map<int, C.Ledger>

    constructor (vm: FreeList.Vmem)
      ensures this.vm == vm && Tab() == Tables(map[], map[], map[], map[]) && out == []
    {
      this.vm := vm;
      mpt, log, copies, locks, out := map[], map[], map[], map[], [];
      ledgers := map[];
    }

    function Tab(): Tables
      reads this
    {
      Tables(mpt, log, copies, locks)
    }

    /** Page `v` as the coherence protocol sees it. */
    ghost function PageOf(v: int): C.Page
      requires v in copies && v in locks
      reads this
    {
      C.Page(locks[v].readers, locks[v].writer, copies[v], false,
             if v in ledgers then ledgers[v] else C.Ledger(0, 0, 0))
    }

    ghost predicate Mapped(addr: int)
      reads this
    {
      && vm.pageSize > 0 && vm.size > 0
      && addr / vm.pageSize in mpt && addr / vm.pageSize in copies && addr / vm.pageSize in locks
    }

    /** Nothing but page `v` has changed. */
    twostate predicate OnlyPage(v: int)
      reads this
    {
      && mpt == old(mpt) && log == old(log)
      && copies.Keys == old(copies).Keys && locks.Keys == old(locks).Keys
      && (forall j | j in copies && j != v :: copies[j] == old(copies)[j])
      && (forall j | j in locks && j != v :: locks[j] == old(locks)[j])
      && (forall j | j in old(ledgers) && j != v :: j in ledgers && ledgers[j] == old(ledgers)[j])
    }

    function Fill(msg: C.Msg, addr: int): Sent
      requires vm.pageSize > 0 && vm.size > 0 && addr / vm.pageSize in mpt
      reads this`mpt
    {
      var (base, size, priv) := Translate(mpt, vm.pageSize, vm.size, addr);
      Sent(msg, addr, base, size, priv)
    }

    /** The message is about `addr`, and names the minipage of its page: where it starts virtually, how long it is, and
        which bytes of the memory it holds. */
    ghost predicate Addressed(m: Sent, addr: int)
      requires vm.pageSize > 0 && vm.size > 0 && addr / vm.pageSize in mpt
      reads this`mpt
    {
      var v, mp := addr / vm.pageSize, mpt[addr / vm.pageSize];
      && m.addr == addr && m.size == mp.length && m.base % vm.size == m.priv
      && (forall b :: m.priv <= b < m.priv + m.size <==> InPrivileged(mpt, vm.pageSize, vm.size, v, b))
      && (0 <= mp.offset < vm.pageSize ==> m.base / vm.pageSize == v && m.base % vm.pageSize == mp.offset)
    }

    method Send(msg: C.Msg, addr: int)
      requires vm.pageSize > 0 && vm.size > 0 && addr / vm.pageSize in mpt
      modifies this`out
      ensures |out| == |old(out)| + 1 && out[..|old(out)|] == old(out) && out[|old(out)|] == Fill(msg, addr)
      ensures out[|old(out)|].msg == msg && Addressed(out[|old(out)|], addr)
    {
      var m := Fill(msg, addr);
      forall b ensures m.priv <= b < m.priv + m.size
                  <==> InPrivileged(mpt, vm.pageSize, vm.size, addr / vm.pageSize, b) {
        TranslateIsPrivileged(mpt, vm.pageSize, vm.size, addr, b);
      }
      TranslateIsPrivileged(mpt, vm.pageSize, vm.size, addr, 0);
      out := out + [m];
    }

    /** Runs once the read lock of the page is free to take; the source panics on an empty copyset. */
    method HandleReadReq(addr: int, from: nat)
      requires Mapped(addr) && !locks[addr / vm.pageSize].writer && copies[addr / vm.pageSize] != []
      modifies this`locks, this`out
      ensures var v := addr / vm.pageSize;
              && OnlyPage(v)
              && var r := C.HandleReadReq(old(PageOf(v)), from);
                 PageOf(v) == r.0 && |r.1| == 1 && out == old(out) + [old(Fill(r.1[0], addr))]
      ensures var v := addr / vm.pageSize;
              && copies == old(copies)
              && locks == old(locks)[v := RwLock(old(locks)[v].readers + 1, false)]
              && |out| == |old(out)| + 1
              && out[|old(out)|].msg == C.ReadReq(copies[v][0], from) && Addressed(out[|old(out)|], addr)
    {
      var v := addr / vm.pageSize;
      locks := locks[v := locks[v].(readers := locks[v].readers + 1)];
      var p := copies[v][0];
      Send(C.ReadReq(p, from), addr);
    }

    /** Runs once the write lock of the page is free to take; the source panics on an empty copyset. */
    method HandleWriteReq(addr: int, from: nat)
      requires Mapped(addr) && copies[addr / vm.pageSize] != []
      requires !locks[addr / vm.pageSize].writer && locks[addr / vm.pageSize].readers == 0
      modifies this`locks, this`out, this`ledgers
      ensures var v := addr / vm.pageSize;
              && OnlyPage(v)
              && var r := C.HandleWriteReq(old(PageOf(v)), from);
                 PageOf(v) == r.0
                 && |out| == |old(out)| + |r.1| && old(out) <= out
                 && forall i | 0 <= i < |r.1| :: out[|old(out)| + i] == old(Fill(r.1[i], addr))
      ensures var v := addr / vm.pageSize;
              && copies == old(copies) && locks == old(locks)[v := RwLock(0, true)]
              && |out| == |old(out)| + |copies[v]|
              && (forall i | 0 <= i < |copies[v]| :: out[|old(out)| + i].msg == C.InvReq(copies[v][i], from))
              && (forall j | |old(out)| <= j < |out| :: Addressed(out[j], addr))
    {
      var v := addr / vm.pageSize;
      locks := locks[v := locks[v].(writer := true)];
      var members := copies[v];
      ledgers := ledgers[v := C.Ledger(|members|, 0, 0)];
      ghost var msgs := C.Invalidations(members, from);
      for i := 0 to |members|
        invariant |out| == |old(out)| + i && old(out) <= out
        invariant forall k | 0 <= k < i :: out[|old(out)| + k] == old(Fill(msgs[k], addr))
        invariant forall k | 0 <= k < i :: out[|old(out)| + k].msg == C.InvReq(members[k], from)
        invariant forall j | |old(out)| <= j < |out| :: Addressed(out[j], addr)
        modifies this`out
      {
        Send(C.InvReq(members[i], from), addr);
      }
    }

    /** Handling a reply for a page whose copyset is empty makes the source panic. */
    method HandleInvalidateReply(addr: int, from: nat)
      requires Mapped(addr) && copies[addr / vm.pageSize] != []
      modifies this`copies, this`out, this`ledgers
      ensures var v := addr / vm.pageSize;
              && OnlyPage(v)
              && var r := C.HandleInvalidateReply(old(PageOf(v)), from);
                 PageOf(v) == r.0 && |r.1| <= 1
                 && out == old(out) + (if r.1 == [] then [] else [old(Fill(r.1[0], addr))])
      ensures var v := addr / vm.pageSize;
              && locks == old(locks) && copies == old(copies)[v := old(copies)[v][1..]]
              && (if |old(copies)[v]| > 1 then out == old(out)
                  else && |out| == |old(out)| + 1 && out[|old(out)|].msg == C.WriteReq(old(copies)[v][0], from)
                       && Addressed(out[|old(out)|], addr))
    {
      var v := addr / vm.pageSize;
      ghost var led := if v in ledgers then ledgers[v] else C.Ledger(0, 0, 0);
      assert |copies[v]| == 1 ==> copies[v][1..] == [];
      if |copies[v]| == 1 {
        var p := copies[v][0];
        copies := copies[v := []];
        Send(C.WriteReq(p, from), addr);
        ledgers := ledgers[v := C.Ledger(led.sent, led.replied + 1, led.forwarded + 1)];
      } else {
        copies := copies[v := copies[v][1..]];
        ledgers := ledgers[v := led.(replied := led.replied + 1)];
      }
    }

    method HandleAck(addr: int, from: nat) returns (v: int)
      requires Mapped(addr)
      modifies this`copies
      ensures v == addr / vm.pageSize && copies == old(copies)[v := C.AddCopy(old(copies)[v], from)]
      ensures var was := old(copies)[v];
              copies == old(copies)[v := if from in was then was else was + [from]]
    {
      v := addr / vm.pageSize;
      var alreadyHas := false;
      var i := 0;
      while i < |copies[v]|
        invariant 0 <= i <= |copies[v]| && !alreadyHas && from !in copies[v][..i]
      {
        if copies[v][i] == from {
          alreadyHas := true;
          break;
        }
        i := i + 1;
      }
      if !alreadyHas {
        copies := copies[v := copies[v] + [from]];
      } else {
        assert copies == copies[v := copies[v]];
      }
    }

    /** Unlocking a lock that is not held is fatal in the source. */
    method HandleReadAck(addr: int, from: nat)
      requires Mapped(addr) && locks[addr / vm.pageSize].readers > 0
      modifies this`copies, this`locks
      ensures var v := addr / vm.pageSize;
              OnlyPage(v) && PageOf(v) == C.HandleReadAck(old(PageOf(v)), from)
      ensures var v := addr / vm.pageSize; var was, lock := old(copies)[v], old(locks)[v];
              && copies == old(copies)[v := if from in was then was else was + [from]]
              && locks == old(locks)[v := RwLock(lock.readers - 1, lock.writer)]
    {
      var v := HandleAck(addr, from);
      locks := locks[v := locks[v].(readers := locks[v].readers - 1)];
    }

    method HandleWriteAck(addr: int, from: nat)
      requires Mapped(addr) && locks[addr / vm.pageSize].writer
      modifies this`copies, this`locks
      ensures var v := addr / vm.pageSize;
              OnlyPage(v) && PageOf(v) == C.HandleWriteAck(old(PageOf(v)), from)
      ensures var v := addr / vm.pageSize; var was, lock := old(copies)[v], old(locks)[v];
              && copies == old(copies)[v := if from in was then was else was + [from]]
              && locks == old(locks)[v := RwLock(lock.readers, false)]
    {
      var v := HandleAck(addr, from);
      locks := locks[v := locks[v].(writer := false)];
    }

    /** Cut the allocation into minipages. */
    method CutPieces(ptr: int, size: int) returns (resultArray: seq<Minipage>)
      requires vm.pageSize > 0
      ensures resultArray == Pieces(ptr, size, vm.pageSize)
    {
      var ps := vm.pageSize;
      var sizeLeft := size;
      var i := ptr;
      resultArray := [];
      while sizeLeft > 0
        invariant Pieces(ptr, size, ps) == resultArray + Pieces(i, sizeLeft, ps)
      {
        var offset := i - (i - i % ps);
        var length := Min(sizeLeft, ps - offset);
        i := i + length;
        sizeLeft := sizeLeft - length;
        resultArray := resultArray + [Minipage(offset, length)];
      }
    }

    /** Look for a view with all pages free; the last one tried is used if there is none. */
    method FindView(ptr: int, size: int) returns (startpg: int)
      requires vm.pageSize > 0
      ensures startpg == ChosenStart(Tab(), vm.pageSize, vm.size, ptr, size)
    {
      var ps := vm.pageSize;
      startpg := ptr / ps;
      var endpg := (ptr + size) / ps;
      var npages := vm.size / ps;
      if vm.size % ps > 0 {
        npages := npages + 1;
      }
      ghost var s, e := startpg, endpg;
      var i := 1;
      var failed := true;
      while i < ps
        invariant 1 <= i <= ps && startpg == s + (i - 1) * npages && endpg == e + (i - 1) * npages
        invariant SearchView(mpt.Keys, s, e, npages, i, ps) == SearchView(mpt.Keys, s, e, npages, 1, ps)
      {
        assert (i - 1) * npages + npages == i * npages;
        startpg := startpg + npages;
        endpg := endpg + npages;
        failed := false;
        var j := startpg;
        while j <= endpg
          invariant startpg <= j && (forall k | startpg <= k < j :: k !in mpt.Keys) && !failed
        {
          if j in mpt {
            failed := true;
            break;
          }
          j := j + 1;
        }
        assert !failed <==> ViewFree(mpt.Keys, s, e, npages, i);
        if !failed {
          break;
        }
        i := i + 1;
      }
    }

    method EnterPieces(startpg: int, resultArray: seq<Minipage>, from: nat)
      modifies this`mpt, this`log, this`copies, this`locks
      ensures Tab() == EnterAll(old(Tab()), startpg, resultArray, from)
      ensures forall j :: EnteredAt(old(Tab()), Tab(), startpg, resultArray, from, j)
    {
      ghost var tab := Tab();
      assert EnterAll(tab, startpg, resultArray[..0], from) == tab by {
        assert Span(startpg, 0) == {};
      }
      for i := 0 to |resultArray|
        invariant Tab() == EnterAll(tab, startpg, resultArray[..i], from)
      {
        EnterStep(tab, startpg, resultArray, i, from);
        ghost var before := Tab();
        mpt := mpt[startpg + i := resultArray[i]];
        log := log[startpg + i := startpg];
        locks := locks[startpg + i := RwLock(0, false)];
        copies := copies[startpg + i := [from]];
        assert Tab() == EnterOne(before, startpg + i, resultArray[i], startpg, from);
      }
      assert resultArray[..|resultArray|] == resultArray;
      forall j {
        EnterAllAt(tab, startpg, resultArray, from, j);
      }
    }

    /** Find pages for an allocated range of physical memory, enter its minipages, and give its virtual address. */
    method PlaceRange(ptr: int, size: int, from: nat) returns (addr: int)
      requires vm.pageSize > 0
      modifies this`mpt, this`log, this`copies, this`locks
      ensures Tab() == Place(old(Tab()), vm.pageSize, vm.size, ptr, size, from).0
      ensures addr == Place(old(Tab()), vm.pageSize, vm.size, ptr, size, from).1
    {
      var resultArray := CutPieces(ptr, size);
      var startpg := FindView(ptr, size);
      EnterPieces(startpg, resultArray, from);
      return startpg * vm.pageSize + OffsetAt(mpt, startpg);
    }

    /** The reply: the virtual address, or nothing when the memory has no room.  A page that was unmapped and is
        mapped now is one that the coherence protocol may start from, with the requester as owner. */
    method HandleAlloc(size: int, from: nat) returns (r: Option<int>)
      requires vm.pageSize > 0
      modifies this`mpt, this`log, this`copies, this`locks, this`ledgers, vm
      ensures (State(vm.Abs(), Tab()), r)
           == ViewAlloc.HandleAlloc(old(State(vm.Abs(), Tab())), vm.pageSize, vm.size, size, from)
      ensures r.None? ==> Tab() == old(Tab())
      ensures r.Some? ==> forall j :: NewPage(old(Tab()), Tab(), r.value / vm.pageSize, from, j)
      ensures r.Some? ==> forall j | j in mpt && j !in old(mpt) ::
                PageOf(j) == C.Page(0, false, [from], false, C.Ledger(0, 0, 0))
      ensures var ptr := old(FreeList.Malloc(vm.Abs(), size).1);
              && SameKeys(old(Tab()))
              && ptr.Some? && RoomInViews(old(Tab()), vm.pageSize, vm.size, ptr.value, size) ==>
                forall j :: SamePage(old(Tab()), Tab(), j)
    {
      forall j {
        AllocEnters(State(vm.Abs(), Tab()), vm.pageSize, vm.size, size, from, j);
      }
      var ptr := vm.Allocate(size);
      if ptr.None? {
        return None;
      }
      var addr := PlaceRange(ptr.value, size, from);
      ledgers := ledgers - (mpt.Keys - old(mpt.Keys));
      return Some(addr);
    }

    method RemovePage(i: int)
      modifies this`mpt, this`log, this`copies, this`locks
      ensures Tab() == Remove(old(Tab()), {i})
    {
      log := log - {i};
      mpt := mpt - {i};
      copies := copies - {i};
      locks := locks - {i};
    }

    /** The page locks of the run are taken first, so no handler is at work on it.  Page 0 belongs to no view. */
    method HandleFree(addr: int)
      requires vm.pageSize > 0 && vm.size > 0 && addr / vm.pageSize in mpt && addr / vm.pageSize != 0
      modifies this`mpt, this`log, this`copies, this`locks, vm
      ensures State(vm.Abs(), Tab()) == ViewAlloc.HandleFree(old(State(vm.Abs(), Tab())), vm.pageSize, vm.size, addr)
      ensures forall j :: FreedAt(old(Tab()), Tab(), addr / vm.pageSize, j)
    {
      forall j {
        FreeTakesOwnPages(State(vm.Abs(), Tab()), vm.pageSize, vm.size, addr, j);
      }
      var vpage := addr / vm.pageSize;
      var i := vpage;
      ghost var k: nat := 0;
      ghost var tab := Tab();
      assert Remove(tab, Span(vpage, 0)) == tab by {
        assert Span(vpage, 0) == {};
      }
      while (if i in log then log[i] else 0) == vpage
        invariant i == vpage + k && vm.Abs() == old(vm.Abs())
        invariant Tab() == Remove(tab, Span(vpage, k))
        invariant RunLength(tab.log, vpage, vpage) == k + RunLength(log, i, vpage)
        decreases RunLength(log, i, vpage)
      {
        RemoveOneMore(tab, vpage, k, i);
        RunLengthStep(log, i, vpage);
        RemovePage(i);
        i := i + 1;
        k := k + 1;
      }
      var ok := vm.Release(addr % vm.size);
    }
  }
}
