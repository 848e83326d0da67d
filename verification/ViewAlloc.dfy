/** The view allocator of the MultiView manager, on values: allocations become runs of virtual pages in one view,
    and a free gives back exactly that run. */
module ViewAlloc {
  import opened Wrappers
  import opened PageMath
  import FreeList
  import opened Minipages

  datatype RwLock = RwLock(readers: nat, writer: bool)

  /** `mpt`: minipage of a virtual page; `log`: first virtual page of its allocation; `copies`: its copyset. */
  datatype Tables = Tables(
    mpt: map<int, Minipage>, log: map<int, int>, copies: map<int, seq<nat>>, locks: map<int, RwLock>)

  datatype State = State(heap: FreeList.Heap, tab: Tables)

  function PageCount(n: nat, ps: int): int
    requires ps > 0
  {
    n / ps + if n % ps > 0 then 1 else 0
  }

  /** The same value for each of these pages. */
  function Uniform<V>(pages: set<int>, v: V): map<int, V> {
    map j | j in pages :: v
  }

  /** Page `start` holds the first piece, the next page the second, and so on. */
  function Laid(start: int, pieces: seq<Minipage>): map<int, Minipage> {
    map j | j in Span(start, |pieces|) :: pieces[j - start]
  }

  /** The pages from `start` on get the minipages, point back at `start`, and are held by the requester. */
  function EnterAll(tab: Tables, start: int, pieces: seq<Minipage>, from: nat): Tables {
    var pages := Span(start, |pieces|);
    Tables(tab.mpt + Laid(start, pieces), tab.log + Uniform(pages, start),
           tab.copies + Uniform(pages, [from]), tab.locks + Uniform(pages, RwLock(0, false)))
  }

  function OffsetAt(mpt: map<int, Minipage>, j: int): int {
    if j in mpt then mpt[j].offset else 0
  }

  ghost function ChosenStart(tab: Tables, ps: int, n: nat, ptr: int, size: int): int
    requires ps > 0
  {
    var np := PageCount(n, ps);
    ptr / ps + SearchView(tab.mpt.Keys, ptr / ps, (ptr + size) / ps, np, 1, ps) * np
  }

  /** Place `size` physical bytes from `ptr` on, and give their virtual address. */
  ghost function Place(tab: Tables, ps: int, n: nat, ptr: int, size: int, from: nat): (Tables, int)
    requires ps > 0
  {
    var start := ChosenStart(tab, ps, n, ptr, size);
    var tab' := EnterAll(tab, start, Pieces(ptr, size, ps), from);
    (tab', start * ps + OffsetAt(tab'.mpt, start))
  }

  /** The reply is the virtual address of the allocation, or an error if the memory has no room. */
  ghost function HandleAlloc(s: State, ps: int, n: nat, size: int, from: nat): (r: (State, Option<int>))
    requires ps > 0
    ensures r.1.Some? <==> FreeList.Malloc(s.heap, size).1.Some?
  {
    var (heap, ptr) := FreeList.Malloc(s.heap, size);
    if ptr.None? then (State(heap, s.tab), None)
    else
      var (tab, addr) := Place(s.tab, ps, n, ptr.value, size, from);
      (State(heap, tab), Some(addr))
  }

  /** How many pages from `i` on point back at `start`. */
  function RunLength(log: map<int, int>, i: int, start: int): nat
    decreases |log|
  {
    if i in log && log[i] == start then
      assert |log - {i}| < |log| by { assert (log - {i}).Keys == log.Keys - {i}; }
      1 + RunLength(log - {i}, i + 1, start)
    else 0
  }

  /** The integers from `lo` on, `k` of them. */
  function Span(lo: int, k: nat): (r: set<int>)
    ensures forall j :: j in r <==> lo <= j < lo + k
  {
    if k == 0 then {} else Span(lo, k - 1) + {lo + k - 1}
  }

  function Remove(tab: Tables, gone: set<int>): Tables {
    Tables(tab.mpt - gone, tab.log - gone, tab.copies - gone, tab.locks - gone)
  }

  lemma RunLengthStep(log: map<int, int>, i: int, start: int)
    ensures RunLength(log, i, start)
         == if i in log && log[i] == start then 1 + RunLength(log - {i}, i + 1, start) else 0
  {
  }

  /** Taking one more page away. */
  lemma RemoveOneMore(tab: Tables, lo: int, k: nat, j: int)
    requires j == lo + k
    ensures Remove(tab, Span(lo, k + 1)) == Remove(Remove(tab, Span(lo, k)), {j})
  {
  }

  function HandleFree(s: State, ps: int, n: nat, addr: int): State
    requires ps > 0 && n > 0
  {
    var vpage := addr / ps;
    State(FreeList.Free(s.heap, addr % n).0, Remove(s.tab, Span(vpage, RunLength(s.tab.log, vpage, vpage))))
  }

  // ---- what the tables mean ----

  /** A live allocation: its size, its first virtual page and its minipages.  The key is its physical address. */
  datatype Block = Block(size: int, first: int, pieces: seq<Minipage>)

  type Live = map<int, Block>

  predicate Geometry(ps: int, n: nat, np: int) {
    ps > 0 && np > 0 && n == np * ps && PageCount(n, ps) == np
  }

  /** Every memory of whole pages has this shape: the count of its pages is then what the search works with. */
  lemma WholePagesGeometry(ps: int, n: nat, np: int)
    requires ps > 0
    ensures Geometry(ps, n, np) <==> np > 0 && n == np * ps
  {
    if n == np * ps {
      PageIs(n, np, ps);
    }
  }

  ghost predicate OnBlock(live: Live, p: int, j: int) {
    p in live && live[p].first <= j < live[p].first + |live[p].pieces|
  }

  ghost predicate EntryInv(s: State, live: Live, p: int, j: int) {
    OnBlock(live, p, j) ==>
      && j in s.tab.mpt && j in s.tab.log
      && s.tab.mpt[j] == live[p].pieces[j - live[p].first]
      && s.tab.log[j] == live[p].first
  }

  /** Page `first` is the page of address `p` in one of the views 1 to ps-1. */
  ghost predicate InSomeView(p: int, first: int, ps: int, np: int)
    requires ps > 0
  {
    exists v: int :: InView(p, first, ps, np, v)
  }

  ghost predicate InView(p: int, first: int, ps: int, np: int, v: int)
    requires ps > 0
  {
    1 <= v < ps && first == p / ps + v * np
  }

  ghost predicate BlockInv(live: Live, ps: int, n: nat, np: int, p: int)
    requires ps > 0
  {
    p in live ==>
      && live[p].size > 0 && 0 <= p && p + live[p].size <= n
      && live[p].pieces == Pieces(p, live[p].size, ps)
      && InSomeView(p, live[p].first, ps, np)
  }

  /** No virtual page belongs to two allocations. */
  ghost predicate Apart(live: Live, p: int, q: int, j: int) {
    OnBlock(live, p, j) && OnBlock(live, q, j) ==> p == q
  }

  ghost predicate PageInv(s: State, live: Live, j: int) {
    j in s.tab.mpt ==> exists p :: OnBlock(live, p, j)
  }

  ghost predicate SameKeys(tab: Tables) {
    tab.mpt.Keys == tab.log.Keys == tab.copies.Keys == tab.locks.Keys
  }

  function Sizes(live: Live): map<int, int> {
    map p | p in live :: live[p].size
  }

  ghost predicate TableInv(s: State, live: Live) {
    && SameKeys(s.tab)
    && (forall p, j :: EntryInv(s, live, p, j))
    && (forall p, q, j :: Apart(live, p, q, j))
    && (forall j :: PageInv(s, live, j))
  }

  ghost predicate AllocInv(s: State, live: Live, ps: int, n: nat, np: int) {
    && Geometry(ps, n, np)
    && FreeList.HeapInv(s.heap, Sizes(live), n)
    && (forall p :: BlockInv(live, ps, n, np, p))
    && TableInv(s, live)
  }

  // ---- entering and removing runs of pages ----

  /** The loop of the free stops after exactly the pages of the run. */
  lemma {:induction false} RunLengthIs(log: map<int, int>, i: int, start: int, k: nat)
    requires forall j | i <= j < i + k :: j in log && log[j] == start
    requires i + k in log ==> log[i + k] != start
    ensures RunLength(log, i, start) == k
    decreases k
  {
    if k > 0 {
      assert i in log && log[i] == start;
      RunLengthIs(log - {i}, i + 1, start, k - 1);
    }
  }

  lemma RemoveUndoesUpdate<V>(m: map<int, V>, add: map<int, V>, gone: set<int>)
    requires add.Keys == gone && gone !! m.Keys
    ensures (m + add) - gone == m
  {
  }

  lemma RemoveUndoesEnter(tab: Tables, start: int, pieces: seq<Minipage>, from: nat)
    requires SameKeys(tab) && Span(start, |pieces|) !! tab.mpt.Keys
    ensures Remove(EnterAll(tab, start, pieces, from), Span(start, |pieces|)) == tab
  {
    var gone := Span(start, |pieces|);
    RemoveUndoesUpdate(tab.mpt, Laid(start, pieces), gone);
    RemoveUndoesUpdate(tab.log, Uniform(gone, start), gone);
    RemoveUndoesUpdate(tab.copies, Uniform(gone, [from]), gone);
    RemoveUndoesUpdate(tab.locks, Uniform(gone, RwLock(0, false)), gone);
  }

  // ---- allocation ----

  /** The block that an allocation is going to make. */
  ghost function NewBlock(s: State, ps: int, n: nat, ptr: int, size: int): Block
    requires ps > 0
  {
    Block(size, ChosenStart(s.tab, ps, n, ptr, size), Pieces(ptr, size, ps))
  }

  /** The pages of the block are unmapped. */
  ghost predicate Fresh(s: State, b: Block) {
    Span(b.first, |b.pieces|) !! s.tab.mpt.Keys
  }

  /** There is room for the bytes from `ptr` on: some view has all pages free that the search looks at, or at least
      the last view has those free that the minipages need. */
  ghost predicate RoomInViews(tab: Tables, ps: int, n: nat, ptr: int, size: int)
    requires ps > 0
  {
    var np := PageCount(n, ps);
    || SomeViewFree(tab.mpt.Keys, ptr / ps, (ptr + size) / ps, np, ps)
    || Span(ptr / ps + (ps - 1) * np, |Pieces(ptr, size, ps)|) !! tab.mpt.Keys
  }

  /** If the search found a free view, the pages used are unmapped. */
  lemma FoundIsFresh(s: State, ps: int, n: nat, ptr: int, size: int)
    requires ps > 0 && size > 0
    requires SomeViewFree(s.tab.mpt.Keys, ptr / ps, (ptr + size) / ps, PageCount(n, ps), ps)
    ensures Fresh(s, NewBlock(s, ps, n, ptr, size))
  {
    SearchSucceedsIff(s.tab.mpt.Keys, ptr / ps, (ptr + size) / ps, PageCount(n, ps), ps);
    PiecesFit(ptr, size, ps);
  }

  lemma NotFoundIsLast(tab: Tables, ps: int, n: nat, ptr: int, size: int)
    requires ps > 0 && !SomeViewFree(tab.mpt.Keys, ptr / ps, (ptr + size) / ps, PageCount(n, ps), ps)
    ensures ChosenStart(tab, ps, n, ptr, size) == ptr / ps + (ps - 1) * PageCount(n, ps)
  {
    SearchFrom(tab.mpt.Keys, ptr / ps, (ptr + size) / ps, PageCount(n, ps), 1, ps);
    SearchSucceedsIff(tab.mpt.Keys, ptr / ps, (ptr + size) / ps, PageCount(n, ps), ps);
  }

  /** The pages that the search ends at are unmapped exactly when there is room: if it finds no free view, it ends at
      the last one. */
  lemma FreshIffRoom(s: State, ps: int, n: nat, ptr: int, size: int)
    requires ps > 0 && size > 0
    ensures Fresh(s, NewBlock(s, ps, n, ptr, size)) <==> RoomInViews(s.tab, ps, n, ptr, size)
  {
    if SomeViewFree(s.tab.mpt.Keys, ptr / ps, (ptr + size) / ps, PageCount(n, ps), ps) {
      FoundIsFresh(s, ps, n, ptr, size);
    } else {
      NotFoundIsLast(s.tab, ps, n, ptr, size);
    }
  }

  lemma SizesUpdate(live: Live, p: int, b: Block)
    ensures Sizes(live[p := b]) == Sizes(live)[p := b.size]
  {
  }

  /** What an allocation does to the tables. */
  ghost predicate Placed(s: State, s': State, live: Live, ptr: int, b: Block, from: nat) {
    ptr !in live && b.pieces != [] && s'.tab == EnterAll(s.tab, b.first, b.pieces, from)
  }

  lemma PlacedKeepsEntries(s: State, s': State, live: Live, ptr: int, b: Block, from: nat, p: int, j: int)
    requires TableInv(s, live) && Placed(s, s', live, ptr, b, from) && Fresh(s, b)
    ensures EntryInv(s', live[ptr := b], p, j)
  {
    assert EntryInv(s, live, p, j);
    if OnBlock(live[ptr := b], p, j) {
      if p == ptr {
        assert j in Span(b.first, |b.pieces|);
      } else {
        assert OnBlock(live, p, j) && j !in Span(b.first, |b.pieces|);
      }
    }
  }

  lemma PlacedKeepsPages(s: State, s': State, live: Live, ptr: int, b: Block, from: nat, j: int)
    requires TableInv(s, live) && Placed(s, s', live, ptr, b, from)
    ensures PageInv(s', live[ptr := b], j)
  {
    assert PageInv(s, live, j);
    if j in s.tab.mpt {
      var p :| OnBlock(live, p, j);
      assert OnBlock(live[ptr := b], p, j);
    } else if j in s'.tab.mpt {
      assert OnBlock(live[ptr := b], ptr, j);
    }
  }

  lemma PlacedKeepsApart(s: State, s': State, live: Live, ptr: int, b: Block, from: nat, p: int, q: int, j: int)
    requires TableInv(s, live) && Placed(s, s', live, ptr, b, from) && Fresh(s, b)
    ensures Apart(live[ptr := b], p, q, j)
  {
    assert Apart(live, p, q, j) && EntryInv(s, live, p, j) && EntryInv(s, live, q, j);
    assert OnBlock(live[ptr := b], ptr, j) ==> j in Span(b.first, |b.pieces|);
  }

  /** The tables stay in order exactly when the pages that are entered were unmapped. */
  lemma PlacedIffFresh(s: State, s': State, live: Live, ptr: int, b: Block, from: nat)
    requires TableInv(s, live) && Placed(s, s', live, ptr, b, from)
    ensures TableInv(s', live[ptr := b]) <==> Fresh(s, b)
  {
    var live' := live[ptr := b];
    if Fresh(s, b) {
      forall p, j ensures EntryInv(s', live', p, j) { PlacedKeepsEntries(s, s', live, ptr, b, from, p, j); }
      forall p, q, j ensures Apart(live', p, q, j) { PlacedKeepsApart(s, s', live, ptr, b, from, p, q, j); }
      forall j ensures PageInv(s', live', j) { PlacedKeepsPages(s, s', live, ptr, b, from, j); }
    } else {
      var j :| j in Span(b.first, |b.pieces|) && j in s.tab.mpt;
      assert PageInv(s, live, j);
      var p :| OnBlock(live, p, j);
      assert OnBlock(live', p, j) && OnBlock(live', ptr, j) && !Apart(live', p, ptr, j);
    }
  }

  /** The block made by an allocation, apart from the tables. */
  lemma NewBlockInv(s: State, live: Live, ps: int, n: nat, np: int, size: int)
    requires Geometry(ps, n, np) && FreeList.HeapInv(s.heap, Sizes(live), n) && size > 0 && ps > 1
    requires FreeList.Malloc(s.heap, size).1.Some?
    ensures var (heap, r) := FreeList.Malloc(s.heap, size); var ptr := r.value; var b := NewBlock(s, ps, n, ptr, size);
            && ptr !in live && b.pieces != []
            && FreeList.HeapInv(heap, Sizes(live[ptr := b]), n)
            && BlockInv(live[ptr := b], ps, n, np, ptr)
  {
    var ptr := FreeList.Malloc(s.heap, size).1.value;
    var b := NewBlock(s, ps, n, ptr, size);
    FreeList.MallocKeeps(s.heap, Sizes(live), n, size);
    assert ptr !in Sizes(live);
    SizesUpdate(live, ptr, b);
    var v := SearchView(s.tab.mpt.Keys, ptr / ps, (ptr + size) / ps, np, 1, ps);
    SearchFrom(s.tab.mpt.Keys, ptr / ps, (ptr + size) / ps, np, 1, ps);
    assert InView(ptr, b.first, ps, np, v);
  }

  /** An allocation keeps everything in order exactly when there is room in the views.  The source goes on with the
      last view it tried even when none was free. */
  lemma AllocKeepsIffRoom(s: State, live: Live, ps: int, n: nat, np: int, size: int, from: nat)
    requires AllocInv(s, live, ps, n, np) && size > 0 && ps > 1
    requires FreeList.Malloc(s.heap, size).1.Some?
    ensures var ptr := FreeList.Malloc(s.heap, size).1.value; var b := NewBlock(s, ps, n, ptr, size);
            && ptr !in live
            && (AllocInv(HandleAlloc(s, ps, n, size, from).0, live[ptr := b], ps, n, np)
                <==> RoomInViews(s.tab, ps, n, ptr, size))
  {
    var ptr := FreeList.Malloc(s.heap, size).1.value;
    var b := NewBlock(s, ps, n, ptr, size);
    var s' := HandleAlloc(s, ps, n, size, from).0;
    NewBlockInv(s, live, ps, n, np, size);
    assert BlockInv(live[ptr := b], ps, n, np, ptr);
    FreshIffRoom(s, ps, n, ptr, size);
    PlacedIffFresh(s, s', live, ptr, b, from);
    var live' := live[ptr := b];
    forall p ensures BlockInv(live', ps, n, np, p) {
      assert BlockInv(live, ps, n, np, p) && BlockInv(live', ps, n, np, ptr);
    }
  }

  // ---- addresses ----

  /** The address that the requester is told: page `first`, at the offset of the first minipage. */
  function AddressOf(p: int, b: Block, ps: int): int
    requires ps > 0
  {
    b.first * ps + p % ps
  }

  lemma ViewAddress(p: int, v: int, k: int, ps: int, n: int, np: int)
    requires ps > 0 && n == np * ps
    ensures (p / ps + v * np + k) * ps == v * n + (p / ps + k) * ps
  {
  }

  /** The reply lies on the block's first page, and modulo the memory size it is the physical address. */
  lemma AddressIsPhysical(live: Live, p: int, ps: int, n: nat, np: int)
    requires Geometry(ps, n, np) && BlockInv(live, ps, n, np, p) && p in live
    ensures var a := AddressOf(p, live[p], ps); a / ps == live[p].first && a % n == p
  {
    var b := live[p];
    var a := AddressOf(p, b, ps);
    var v :| InView(p, b.first, ps, np, v);
    PageBounds(p, ps);
    ViewAddress(p, v, 0, ps, n, np);
    PageIs(a, b.first, ps);
    PageIs(a, v, n);
  }

  /** Address `a` is on page `v`, and physically it is byte `p`. */
  predicate AddressFits(a: int, p: int, v: int, ps: int, n: nat)
    requires ps > 0
  {
    n > 0 && a % n == p && a / ps == v
  }

  /** Page `j`, if it was unmapped and is mapped now, points at page `first`, is held by the requester alone, and has
      a lock that nobody holds. */
  ghost predicate NewPage(tab: Tables, tab': Tables, first: int, from: nat, j: int) {
    j in tab'.mpt && j !in tab.mpt ==>
      && j in tab'.log && tab'.log[j] == first
      && j in tab'.copies && tab'.copies[j] == [from]
      && j in tab'.locks && tab'.locks[j] == RwLock(0, false)
  }

  /** Page `j` keeps the entries that it had. */
  ghost predicate SamePage(tab: Tables, tab': Tables, j: int) {
    && (j in tab.mpt ==> j in tab'.mpt && tab'.mpt[j] == tab.mpt[j])
    && (j in tab.log ==> j in tab'.log && tab'.log[j] == tab.log[j])
    && (j in tab.copies ==> j in tab'.copies && tab'.copies[j] == tab.copies[j])
    && (j in tab.locks ==> j in tab'.locks && tab'.locks[j] == tab.locks[j])
  }

  /** Page `j` holds the matching minipage, if there is one, and is the requester's; else it is as before. */
  ghost predicate EnteredAt(tab: Tables, tab': Tables, start: int, pieces: seq<Minipage>, from: nat, j: int) {
    if start <= j < start + |pieces| then
      && j in tab'.mpt && tab'.mpt[j] == pieces[j - start] && j in tab'.log && tab'.log[j] == start
      && j in tab'.copies && tab'.copies[j] == [from] && j in tab'.locks && tab'.locks[j] == RwLock(0, false)
    else SamePage(tab, tab', j) && SamePage(tab', tab, j)
  }

  lemma EnterAllAt(tab: Tables, start: int, pieces: seq<Minipage>, from: nat, j: int)
    ensures EnteredAt(tab, EnterAll(tab, start, pieces, from), start, pieces, from, j)
  {
  }

  lemma PlaceReplies(tab: Tables, ps: int, n: nat, ptr: int, size: int, from: nat)
    requires ps > 0 && size > 0
    ensures Place(tab, ps, n, ptr, size, from).1 == ChosenStart(tab, ps, n, ptr, size) * ps + ptr % ps
  {
    var start, pieces := ChosenStart(tab, ps, n, ptr, size), Pieces(ptr, size, ps);
    EnterAllAt(tab, start, pieces, from, start);
    assert pieces[0].offset == ptr % ps;
  }

  lemma PlaceEnters(tab: Tables, ps: int, n: nat, ptr: int, size: int, from: nat, j: int)
    requires ps > 0
    ensures var (tab', addr) := Place(tab, ps, n, ptr, size, from);
            && (size > 0 ==> addr / ps in tab'.mpt)
            && NewPage(tab, tab', addr / ps, from, j)
            && (SameKeys(tab) && RoomInViews(tab, ps, n, ptr, size) ==> SamePage(tab, tab', j))
  {
    var (tab', addr) := Place(tab, ps, n, ptr, size, from);
    if size > 0 {
      var start := ChosenStart(tab, ps, n, ptr, size);
      PlaceReplies(tab, ps, n, ptr, size, from);
      PageIs(addr, start, ps);
      FreshIffRoom(State(FreeList.Heap([], map[]), tab), ps, n, ptr, size);
      assert start in Span(start, |Pieces(ptr, size, ps)|);
    }
  }

  /** An allocation, on the pages that were unmapped before it and on those that were mapped. */
  lemma AllocEnters(s: State, ps: int, n: nat, size: int, from: nat, j: int)
    requires ps > 0
    ensures var (s', r) := HandleAlloc(s, ps, n, size, from); var ptr := FreeList.Malloc(s.heap, size).1;
            && (r.None? ==> s'.tab == s.tab)
            && (r.Some? && size > 0 ==> r.value / ps in s'.tab.mpt)
            && (r.Some? ==> NewPage(s.tab, s'.tab, r.value / ps, from, j))
            && (SameKeys(s.tab) && ptr.Some? && RoomInViews(s.tab, ps, n, ptr.value, size) ==>
                  SamePage(s.tab, s'.tab, j))
  {
    var ptr := FreeList.Malloc(s.heap, size).1;
    if ptr.Some? {
      PlaceEnters(s.tab, ps, n, ptr.value, size, from, j);
    }
  }

  /** HandleAlloc replies with that address. */
  lemma ReplyIsAddress(s: State, live: Live, ps: int, n: nat, np: int, size: int, from: nat)
    requires AllocInv(s, live, ps, n, np) && size > 0 && ps > 1
    requires FreeList.Malloc(s.heap, size).1.Some?
    ensures var ptr := FreeList.Malloc(s.heap, size).1.value;
            var b, r := NewBlock(s, ps, n, ptr, size), HandleAlloc(s, ps, n, size, from).1;
            r == Some(AddressOf(ptr, b, ps)) && AddressFits(r.value, ptr, b.first, ps, n)
  {
    var ptr := FreeList.Malloc(s.heap, size).1.value;
    var b := NewBlock(s, ps, n, ptr, size);
    NewBlockInv(s, live, ps, n, np, size);
    AddressIsPhysical(live[ptr := b], ptr, ps, n, np);
    PlaceReplies(s.tab, ps, n, ptr, size, from);
  }

  /** What the manager adds to a message about address `addr`: base, size and privileged base of the minipage. */
  function Translate(mpt: map<int, Minipage>, ps: int, n: nat, addr: int): (int, int, int)
    requires ps > 0 && n > 0 && addr / ps in mpt
  {
    var base := addr - addr % ps + mpt[addr / ps].offset;
    (base, mpt[addr / ps].length, base % n)
  }

  /** Byte `b` of the memory belongs to the privileged range of virtual page `j`. */
  ghost predicate InPrivileged(mpt: map<int, Minipage>, ps: int, n: nat, j: int, b: int)
    requires ps > 0 && n > 0
  {
    j in mpt
    && var priv := (j * ps + mpt[j].offset) % n;
    priv <= b < priv + mpt[j].length
  }

  /** A message about `addr` names the minipage of its page: where it starts virtually, how long it is, and which
      bytes of the memory it holds. */
  lemma TranslateIsPrivileged(mpt: map<int, Minipage>, ps: int, n: nat, addr: int, b: int)
    requires ps > 0 && n > 0 && addr / ps in mpt
    ensures var (base, length, priv) := Translate(mpt, ps, n, addr); var mp := mpt[addr / ps];
            && (priv <= b < priv + length <==> InPrivileged(mpt, ps, n, addr / ps, b))
            && length == mp.length && base % n == priv
            && (0 <= mp.offset < ps ==> base / ps == addr / ps && base % ps == mp.offset)
  {
    var offset := mpt[addr / ps].offset;
    PageBounds(addr, ps);
    if 0 <= offset < ps {
      PageIs(addr / ps * ps + offset, addr / ps, ps);
    }
  }

  /** The privileged range of a page of a block is the matching piece of the block's physical bytes. */
  lemma PrivilegedIsPiece(s: State, live: Live, ps: int, n: nat, np: int, p: int, j: int, b: int)
    requires AllocInv(s, live, ps, n, np) && OnBlock(live, p, j)
    ensures n > 0 && InPrivileged(s.tab.mpt, ps, n, j, b) <==> InPiece(p, live[p].size, ps, j - live[p].first, b)
    ensures InPrivileged(s.tab.mpt, ps, n, j, b) ==> p <= b < p + live[p].size
  {
    var blk := live[p];
    assert BlockInv(live, ps, n, np, p) && EntryInv(s, live, p, j);
    var k := j - blk.first;
    var v :| InView(p, blk.first, ps, np, v);
    ViewAddress(p, v, k, ps, n, np);
    PiecesTile(p, blk.size, ps, k);
    PieceInside(p, blk.size, ps, k);
    PageIs(j * ps + blk.pieces[k].offset, v, n);
  }

  /** No byte of the memory is reached through two virtual pages. */
  lemma PrivilegedDisjoint(s: State, live: Live, ps: int, n: nat, np: int, j: int, j': int, b: int)
    requires AllocInv(s, live, ps, n, np)
    requires n > 0 && InPrivileged(s.tab.mpt, ps, n, j, b) && InPrivileged(s.tab.mpt, ps, n, j', b)
    ensures j == j' && 0 <= b < n
  {
    assert PageInv(s, live, j) && PageInv(s, live, j');
    var p :| OnBlock(live, p, j);
    var q :| OnBlock(live, q, j');
    PrivilegedIsPiece(s, live, ps, n, np, p, j, b);
    PrivilegedIsPiece(s, live, ps, n, np, q, j', b);
    assert BlockInv(live, ps, n, np, p) && BlockInv(live, ps, n, np, q);
    assert FreeList.ByteInv(s.heap, Sizes(live), n, b);
    assert FreeList.InBlock(Sizes(live), p, b) && FreeList.InBlock(Sizes(live), q, b);
    PiecesPartition(p, live[p].size, ps, b);
  }

  /** The pages of a live block reach exactly its bytes. */
  lemma PrivilegedCovers(s: State, live: Live, ps: int, n: nat, np: int, p: int, b: int)
    requires AllocInv(s, live, ps, n, np) && p in live && n > 0
    ensures p <= b < p + live[p].size <==> exists j :: OnBlock(live, p, j) && InPrivileged(s.tab.mpt, ps, n, j, b)
  {
    assert BlockInv(live, ps, n, np, p);
    if p <= b < p + live[p].size {
      var k := SomePiece(p, live[p].size, ps, b);
      var j := live[p].first + k;
      assert OnBlock(live, p, j);
      PrivilegedIsPiece(s, live, ps, n, np, p, j, b);
    }
    if j :| OnBlock(live, p, j) && InPrivileged(s.tab.mpt, ps, n, j, b) {
      PrivilegedIsPiece(s, live, ps, n, np, p, j, b);
    }
  }

  // ---- freeing ----

  /** The loop of the free runs over exactly the pages of the block. */
  lemma FreeFindsBlock(s: State, live: Live, ps: int, n: nat, np: int, p: int)
    requires AllocInv(s, live, ps, n, np) && p in live
    ensures RunLength(s.tab.log, live[p].first, live[p].first) == |live[p].pieces|
  {
    var b := live[p];
    var k := |b.pieces|;
    forall j | b.first <= j < b.first + k ensures j in s.tab.log && s.tab.log[j] == b.first {
      assert OnBlock(live, p, j) && EntryInv(s, live, p, j);
    }
    var j := b.first + k;
    if j in s.tab.log {
      assert PageInv(s, live, j);
      var q :| OnBlock(live, q, j);
      assert EntryInv(s, live, q, j) && BlockInv(live, ps, n, np, q) && BlockInv(live, ps, n, np, p);
      assert OnBlock(live, p, b.first) && OnBlock(live, q, live[q].first);
      assert Apart(live, p, q, b.first) && q != p;
    }
    RunLengthIs(s.tab.log, b.first, b.first, k);
  }

  lemma {:induction false} RunPointsBack(log: map<int, int>, i: int, start: int, j: int)
    requires i <= j < i + RunLength(log, i, start)
    ensures j in log && log[j] == start
    decreases |log|
  {
    RunLengthStep(log, i, start);
    if i < j {
      assert |log - {i}| < |log| by { assert (log - {i}).Keys == log.Keys - {i}; }
      RunPointsBack(log - {i}, i + 1, start, j);
    }
  }

  /** Page `j` has lost its entries, and then it belonged to the allocation that starts at page `first`; or it is as
      before. */
  ghost predicate FreedAt(tab: Tables, tab': Tables, first: int, j: int) {
    || (j in tab.log && tab.log[j] == first
        && j !in tab'.mpt && j !in tab'.log && j !in tab'.copies && j !in tab'.locks)
    || (SamePage(tab, tab', j) && SamePage(tab', tab, j))
  }

  /** Freeing an address takes nothing away but pages of the allocation that starts at the page of the address. */
  lemma FreeTakesOwnPages(s: State, ps: int, n: nat, addr: int, j: int)
    requires ps > 0 && n > 0
    ensures FreedAt(s.tab, HandleFree(s, ps, n, addr).tab, addr / ps, j)
  {
    var vpage := addr / ps;
    if vpage <= j < vpage + RunLength(s.tab.log, vpage, vpage) {
      RunPointsBack(s.tab.log, vpage, vpage, j);
    }
  }

  lemma SizesRemove(live: Live, p: int)
    ensures Sizes(live - {p}) == Sizes(live) - {p}
  {
  }

  /** Freeing the address of a live block removes exactly its pages, frees exactly its bytes, and keeps order. */
  lemma FreeKeeps(s: State, live: Live, ps: int, n: nat, np: int, p: int)
    requires AllocInv(s, live, ps, n, np) && p in live
    ensures var s' := HandleFree(s, ps, n, AddressOf(p, live[p], ps));
            && AllocInv(s', live - {p}, ps, n, np)
            && s'.tab == Remove(s.tab, Span(live[p].first, |live[p].pieces|))
            && (forall b :: FreeList.IsFree(s'.heap.free, b) <==>
                  FreeList.IsFree(s.heap.free, b) || p <= b < p + live[p].size)
  {
    var b := live[p];
    var s' := HandleFree(s, ps, n, AddressOf(p, b, ps));
    assert BlockInv(live, ps, n, np, p);
    AddressIsPhysical(live, p, ps, n, np);
    FreeFindsBlock(s, live, ps, n, np, p);
    SizesRemove(live, p);
    FreeList.FreeKeeps(s.heap, Sizes(live), n, p);
    var live' := live - {p};
    forall q ensures BlockInv(live', ps, n, np, q) { assert BlockInv(live, ps, n, np, q); }
    forall q, j ensures EntryInv(s', live', q, j) {
      assert EntryInv(s, live, q, j) && Apart(live, p, q, j);
      assert OnBlock(live', q, j) ==> !OnBlock(live, p, j);
    }
    forall q, r, j ensures Apart(live', q, r, j) { assert Apart(live, q, r, j); }
    forall j ensures PageInv(s', live', j) {
      assert PageInv(s, live, j);
      if j in s'.tab.mpt {
        var q :| OnBlock(live, q, j);
        assert q != p && OnBlock(live', q, j);
      }
    }
  }

  /** Freeing what was just allocated restores the four tables and the free list themselves. */
  lemma AllocThenFree(s: State, live: Live, ps: int, n: nat, np: int, size: int, from: nat)
    requires ps > 1 && n > 0 && size > 0 && AllocInv(s, live, ps, n, np)
    requires FreeList.Malloc(s.heap, size).1.Some?
    requires RoomInViews(s.tab, ps, n, FreeList.Malloc(s.heap, size).1.value, size)
    ensures var (s1, r) := HandleAlloc(s, ps, n, size, from);
            r.Some? && HandleFree(s1, ps, n, r.value).tab == s.tab
            && HandleFree(s1, ps, n, r.value).heap.free == s.heap.free
  {
    var ptr := FreeList.Malloc(s.heap, size).1.value;
    var b := NewBlock(s, ps, n, ptr, size);
    var (s1, r) := HandleAlloc(s, ps, n, size, from);
    AllocKeepsIffRoom(s, live, ps, n, np, size, from);
    NewBlockInv(s, live, ps, n, np, size);
    assert BlockInv(live[ptr := b], ps, n, np, ptr);
    FreshIffRoom(s, ps, n, ptr, size);
    ReplyIsAddress(s, live, ps, n, np, size, from);
    var live' := live[ptr := b];
    FreeKeeps(s1, live', ps, n, np, ptr);
    RemoveUndoesEnter(s.tab, b.first, b.pieces, from);
    FreeList.MallocThenFree(s.heap, size);
  }
}
