/** Whole runs of the MultiView allocator: from an empty memory, any sequence of allocations and frees. */
module ViewRuns {
  import opened Wrappers
  import FreeList
  import opened Minipages
  import opened ViewAlloc

  datatype Op = Alloc(size: int, from: nat) | Release(p: int)

  /** The manager's state beside the blocks handed out and not yet freed, by physical address. */
  datatype Use = Use(s: State, live: Live)

  ghost function Do(u: Use, op: Op, ps: int, n: nat): Use
    requires ps > 0 && n > 0
  {
    match op
    case Alloc(size, from) =>
      var ptr := FreeList.Malloc(u.s.heap, size).1;
      Use(HandleAlloc(u.s, ps, n, size, from).0,
          if ptr.Some? then u.live[ptr.value := NewBlock(u.s, ps, n, ptr.value, size)] else u.live)
    case Release(p) =>
      if p in u.live then Use(HandleFree(u.s, ps, n, AddressOf(p, u.live[p], ps)), u.live - {p}) else u
  }

  /** Clients ask for at least one byte and free only addresses that they were told; and there is room in the views for
      a new block. */
  ghost predicate Proper(u: Use, op: Op, ps: int, n: nat)
    requires ps > 0
  {
    match op
    case Alloc(size, _) =>
      var ptr := FreeList.Malloc(u.s.heap, size).1;
      size > 0 && (ptr.Some? ==> RoomInViews(u.s.tab, ps, n, ptr.value, size))
    case Release(p) => p in u.live
  }

  ghost predicate ProperRun(u: Use, ops: seq<Op>, ps: int, n: nat)
    requires ps > 0 && n > 0
    decreases |ops|
  {
    ops == [] || (Proper(u, ops[0], ps, n) && ProperRun(Do(u, ops[0], ps, n), ops[1..], ps, n))
  }

  ghost function DoAll(u: Use, ops: seq<Op>, ps: int, n: nat): Use
    requires ps > 0 && n > 0
    decreases |ops|
  {
    if ops == [] then u else DoAll(Do(u, ops[0], ps, n), ops[1..], ps, n)
  }

  ghost function Empty(n: nat): Use {
    Use(State(FreeList.NewHeap(n), Tables(map[], map[], map[], map[])), map[])
  }

  lemma EmptyIsInOrder(ps: int, n: nat, np: int)
    requires Geometry(ps, n, np)
    ensures AllocInv(Empty(n).s, Empty(n).live, ps, n, np)
  {
    FreeList.NewHeapInv(n);
    assert Sizes(map[]) == map[];
  }

  lemma StepStaysInOrder(u: Use, op: Op, ps: int, n: nat, np: int)
    requires ps > 1 && n > 0 && AllocInv(u.s, u.live, ps, n, np) && Proper(u, op, ps, n)
    ensures AllocInv(Do(u, op, ps, n).s, Do(u, op, ps, n).live, ps, n, np)
  {
    match op
    case Alloc(size, from) =>
      var ptr := FreeList.Malloc(u.s.heap, size).1;
      if ptr.Some? {
        AllocKeepsIffRoom(u.s, u.live, ps, n, np, size, from);
      }
    case Release(p) =>
      FreeKeeps(u.s, u.live, ps, n, np, p);
  }

  /** After any proper run tables, blocks and heap agree: each mapped page holds a minipage of exactly one live block,
      and the blocks and the free ranges partition the physical memory. */
  lemma {:induction false} RunsStayInOrder(u: Use, ops: seq<Op>, ps: int, n: nat, np: int)
    requires ps > 1 && n > 0 && AllocInv(u.s, u.live, ps, n, np) && ProperRun(u, ops, ps, n)
    ensures AllocInv(DoAll(u, ops, ps, n).s, DoAll(u, ops, ps, n).live, ps, n, np)
    decreases |ops|
  {
    if ops != [] {
      StepStaysInOrder(u, ops[0], ps, n, np);
      RunsStayInOrder(Do(u, ops[0], ps, n), ops[1..], ps, n, np);
    }
  }

  /** In every such run, no two virtual pages translate to a common physical byte. */
  lemma RunsKeepPagesApart(ops: seq<Op>, ps: int, n: nat, np: int, j: int, j': int, b: int)
    requires ps > 1 && n > 0 && Geometry(ps, n, np) && ProperRun(Empty(n), ops, ps, n)
    requires var tab := DoAll(Empty(n), ops, ps, n).s.tab;
             InPrivileged(tab.mpt, ps, n, j, b) && InPrivileged(tab.mpt, ps, n, j', b)
    ensures j == j'
  {
    EmptyIsInOrder(ps, n, np);
    RunsStayInOrder(Empty(n), ops, ps, n, np);
    var u := DoAll(Empty(n), ops, ps, n);
    PrivilegedDisjoint(u.s, u.live, ps, n, np, j, j', b);
  }

  /** When everything has been freed, no page is mapped and every byte is free. */
  lemma NothingLeaks(ops: seq<Op>, ps: int, n: nat, np: int, b: int)
    requires ps > 1 && n > 0 && Geometry(ps, n, np) && ProperRun(Empty(n), ops, ps, n)
    requires DoAll(Empty(n), ops, ps, n).live == map[]
    ensures var s := DoAll(Empty(n), ops, ps, n).s;
            && s.tab == Empty(n).s.tab
            && (0 <= b < n <==> FreeList.IsFree(s.heap.free, b))
  {
    EmptyIsInOrder(ps, n, np);
    RunsStayInOrder(Empty(n), ops, ps, n, np);
    var u := DoAll(Empty(n), ops, ps, n);
    forall j ensures j !in u.s.tab.mpt {
      assert PageInv(u.s, u.live, j);
    }
    assert u.s.tab.mpt.Keys == {};
    assert FreeList.ByteInv(u.s.heap, Sizes(u.live), n, b);
  }

  /** Only such runs stay in order: the first allocation that finds no room breaks the tables. */
  lemma NoRoomBreaksOrder(u: Use, size: int, from: nat, ps: int, n: nat, np: int)
    requires ps > 1 && n > 0 && size > 0 && AllocInv(u.s, u.live, ps, n, np) && !Proper(u, Alloc(size, from), ps, n)
    ensures var u' := Do(u, Alloc(size, from), ps, n); !AllocInv(u'.s, u'.live, ps, n, np)
  {
    AllocKeepsIffRoom(u.s, u.live, ps, n, np, size, from);
  }

  // ---- a run that finds no room ----

  /** One page of two bytes: there is one view, and every one-byte block goes to page 1. */
  predicate Tiny(ps: int, n: nat, size: int) {
    ps == 2 && n == 2 && size == 1
  }

  lemma OneView(mapped: set<int>, e: int, ps: int)
    requires ps == 2
    ensures SearchView(mapped, 0, e, 1, 1, ps) == 1
  {
  }

  lemma OnePiece(ptr: int, size: int, ps: int)
    requires ps == 2 && size == 1 && 0 <= ptr < ps
    ensures Pieces(ptr, size, ps) == [Minipage(ptr, 1)]
  {
  }

  lemma OneStart(tab: Tables, ps: int, n: nat, ptr: int, size: int)
    requires Tiny(ps, n, size) && 0 <= ptr < ps
    ensures ChosenStart(tab, ps, n, ptr, size) == 1
  {
    OneView(tab.mpt.Keys, (ptr + size) / ps, ps);
    assert PageCount(n, ps) == 1 && ptr / ps == 0;
  }

  lemma OneEntry(tab: Tables, piece: Minipage, from: nat)
    ensures EnterAll(tab, 1, [piece], from).mpt == tab.mpt[1 := piece]
  {
    var pieces := [piece];
    var tab' := EnterAll(tab, 1, pieces, from);
    forall j ensures j in tab'.mpt <==> j == 1 || j in tab.mpt { EnterAllAt(tab, 1, pieces, from, j); }
    forall j | j in tab'.mpt ensures tab'.mpt[j] == if j == 1 then piece else tab.mpt[j] {
      EnterAllAt(tab, 1, pieces, from, j);
    }
  }

  lemma OneByte(tab: Tables, ps: int, n: nat, ptr: int, size: int, from: nat)
    requires Tiny(ps, n, size) && 0 <= ptr < ps
    ensures Place(tab, ps, n, ptr, size, from) == (EnterAll(tab, 1, [Minipage(ptr, 1)], from), 2 + ptr)
    ensures EnterAll(tab, 1, [Minipage(ptr, 1)], from).mpt == tab.mpt[1 := Minipage(ptr, 1)]
  {
    OnePiece(ptr, size, ps);
    OneStart(tab, ps, n, ptr, size);
    OneEntry(tab, Minipage(ptr, 1), from);
  }

  /** Two requests for one byte get bytes 0 and 1. */
  lemma TwoBytes(n: nat, size: int)
    requires n == 2 && size == 1
    ensures var (h1, r1) := FreeList.Malloc(FreeList.NewHeap(n), size);
            r1 == Some(0) && FreeList.Malloc(h1, size).1 == Some(1)
  {
  }

  lemma RoomForOneByte(tab: Tables, ps: int, n: nat, ptr: int, size: int)
    requires Tiny(ps, n, size) && 0 <= ptr < ps
    ensures RoomInViews(tab, ps, n, ptr, size) <==> 1 !in tab.mpt
  {
    OnePiece(ptr, size, ps);
    assert PageCount(n, ps) == 1 && ptr / ps == 0;
    assert Span(1, 1) == {1};
    if SomeViewFree(tab.mpt.Keys, 0, (ptr + size) / ps, 1, ps) {
      var v :| FreeView(tab.mpt.Keys, 0, (ptr + size) / ps, 1, ps, v);
      assert v == 1;
    }
  }

  /** Page 1 stands for byte `p`. */
  predicate HoldsByte(u: Use, p: int) {
    1 in u.s.tab.mpt && u.s.tab.mpt[1] == Minipage(p, 1)
  }

  lemma AllocOneByte(u: Use, p: int, ps: int, n: nat, size: int, from: nat)
    requires Tiny(ps, n, size) && 0 <= p < ps && FreeList.Malloc(u.s.heap, size).1 == Some(p)
    ensures HandleAlloc(u.s, ps, n, size, from).1 == Some(2 + p)
    ensures var u' := Do(u, Alloc(size, from), ps, n);
            u'.s.heap == FreeList.Malloc(u.s.heap, size).0 && HoldsByte(u', p)
    ensures Proper(u, Alloc(size, from), ps, n) <==> 1 !in u.s.tab.mpt
  {
    OneByte(u.s.tab, ps, n, p, size, from);
    RoomForOneByte(u.s.tab, ps, n, p, size);
  }

  lemma FirstByte(u0: Use, u1: Use, ps: int, n: nat, size: int, from: nat)
    requires Tiny(ps, n, size) && u0 == Empty(n) && u1 == Do(u0, Alloc(size, from), ps, n)
    ensures Proper(u0, Alloc(size, from), ps, n) && HandleAlloc(u0.s, ps, n, size, from).1 == Some(2)
    ensures HoldsByte(u1, 0) && FreeList.Malloc(u1.s.heap, size).1 == Some(1)
  {
    TwoBytes(n, size);
    AllocOneByte(u0, 0, ps, n, size, from);
  }

  /** The second byte is placed on the virtual page of the first and overwrites its entry: the first address, 2, now
      means byte 1. */
  lemma SecondByte(u1: Use, ps: int, n: nat, size: int, from: nat)
    requires Tiny(ps, n, size) && HoldsByte(u1, 0) && FreeList.Malloc(u1.s.heap, size).1 == Some(1)
    ensures !Proper(u1, Alloc(size, from), ps, n) && HandleAlloc(u1.s, ps, n, size, from).1 == Some(3)
    ensures HoldsByte(Do(u1, Alloc(size, from), ps, n), 1)
  {
    AllocOneByte(u1, 1, ps, n, size, from);
  }

  /** In a memory of one two-byte page, allocate one byte and then another: after the first allocation everything is in
      order, after the second it is not. */
  lemma ViewsRunOut(ps: int, n: nat, size: int, from: nat, u0: Use, u1: Use, u2: Use)
    requires Tiny(ps, n, size)
    requires u0 == Empty(n) && u1 == Do(u0, Alloc(size, from), ps, n) && u2 == Do(u1, Alloc(size, from), ps, n)
    ensures HandleAlloc(u0.s, ps, n, size, from).1 == Some(2) && HoldsByte(u1, 0) && AllocInv(u1.s, u1.live, ps, n, 1)
    ensures HandleAlloc(u1.s, ps, n, size, from).1 == Some(3) && HoldsByte(u2, 1) && !AllocInv(u2.s, u2.live, ps, n, 1)
  {
    FirstByte(u0, u1, ps, n, size, from);
    SecondByte(u1, ps, n, size, from);
    assert AllocInv(u1.s, u1.live, ps, n, 1) by {
      EmptyIsInOrder(ps, n, 1);
      StepStaysInOrder(u0, Alloc(size, from), ps, n, 1);
    }
    NoRoomBreaksOrder(u1, size, from, ps, n, 1);
  }
}
