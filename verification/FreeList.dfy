/** The first-fit allocator with a coalescing free list that lies under both shared memory systems. */
module FreeList {
  import opened PageMath
  import opened Wrappers

  /** An inclusive range of addresses; a range that was allocated to its end stays in the list with `end == start -
      1`. */
  datatype AddrPair = AddrPair(start: int, end: int)

  /** `history` maps an address to the size last allocated there; the source never removes an entry. */
  datatype Heap = Heap(free: seq<AddrPair>, history: map<int, int>)

  predicate Fits(p: AddrPair, size: int) {
    p.end - p.start + 1 >= size
  }

  /** Index of the first range that fits, or the length of the list. */
  function FirstFit(list: seq<AddrPair>, size: int): (i: nat)
    ensures i <= |list|
    ensures forall k | 0 <= k < i :: !Fits(list[k], size)
    ensures i < |list| ==> Fits(list[i], size)
  {
    if list == [] || Fits(list[0], size) then 0
    else
      var i := FirstFit(list[1..], size);
      assert forall k | 1 <= k < i + 1 :: list[k] == list[1..][k - 1];
      i + 1
  }

  function Malloc(h: Heap, size: int): (Heap, Option<int>) {
    var i := FirstFit(h.free, size);
    if i == |h.free| then (h, None)
    else
      var p := h.free[i];
      (Heap(h.free[i := AddrPair(p.start + size, p.end)], h.history[p.start := size]), Some(p.start))
  }

  /** Ranges left of the block are kept, ranges that touch it are swallowed, ranges right of it end the walk. */
  function Insert(list: seq<AddrPair>, s: int, e: int): (r: seq<AddrPair>)
    ensures r != []
  {
    if list == [] then [AddrPair(s, e)]
    else if list[0].end + 1 < s then [list[0]] + Insert(list[1..], s, e)
    else if e + 1 < list[0].start then [AddrPair(s, e)] + list
    else Insert(list[1..], Min(s, list[0].start), Max(e, list[0].end))
  }

  function SizeAt(h: Heap, p: int): int {
    if p in h.history then h.history[p] else 0
  }

  /** An address without a recorded size is an error, and changes nothing. */
  function Free(h: Heap, p: int): (Heap, bool) {
    var size := SizeAt(h, p);
    if size == 0 then (h, false)
    else (h.(free := Insert(h.free, p, p + size - 1)), true)
  }

  function NewHeap(n: nat): Heap {
    Heap([AddrPair(0, n - 1)], map[])
  }

  // ---- the object ----

  /** The allocator object: the two fields that Malloc and Free update. */
  class Vmem {
    const size: nat
    const pageSize: nat
    var freeMemObjects: seq<AddrPair>
    var mallocHistory: map<int, int>

    constructor (memSize: nat, pageByteSize: nat)
      requires pageByteSize > 0
      ensures size == Max(memSize, pageByteSize) && pageSize == pageByteSize
      ensures Abs() == NewHeap(size)
    {
      size := if memSize < pageByteSize then pageByteSize else memSize;
      pageSize := pageByteSize;
      freeMemObjects := [AddrPair(0, (if memSize < pageByteSize then pageByteSize else memSize) - 1)];
      mallocHistory := map[];
    }

    function Abs(): Heap
      reads this
    {
      Heap(freeMemObjects, mallocHistory)
    }

    method Allocate(sizeInBytes: int) returns (r: Option<int>)
      modifies this
      ensures (Abs(), r) == Malloc(old(Abs()), sizeInBytes)
      ensures mallocHistory == if r.Some? then old(mallocHistory)[r.value := sizeInBytes] else old(mallocHistory)
      ensures r.None? <==> forall k | 0 <= k < |old(freeMemObjects)| :: !Fits(old(freeMemObjects)[k], sizeInBytes)
    {
      var i := 0;
      while i < |freeMemObjects|
        invariant 0 <= i <= |freeMemObjects| && Abs() == old(Abs())
        invariant FirstFit(freeMemObjects, sizeInBytes) == i + FirstFit(freeMemObjects[i..], sizeInBytes)
      {
        var pair := freeMemObjects[i];
        if pair.end - pair.start + 1 >= sizeInBytes {
          freeMemObjects := freeMemObjects[i := AddrPair(pair.start + sizeInBytes, pair.end)];
          mallocHistory := mallocHistory[pair.start := sizeInBytes];
          return Some(pair.start);
        }
        assert freeMemObjects[i..][1..] == freeMemObjects[i + 1..];
        i := i + 1;
      }
      return None;
    }

    method Release(pointer: int) returns (ok: bool)
      modifies this`freeMemObjects
      ensures (Abs(), ok) == Free(old(Abs()), pointer)
      ensures ok <==> pointer in mallocHistory && mallocHistory[pointer] != 0
      ensures !ok ==> freeMemObjects == old(freeMemObjects)
    {
      var blockSize := if pointer in mallocHistory then mallocHistory[pointer] else 0;
      if blockSize == 0 {
        return false;
      }
      var start, end := pointer, pointer + blockSize - 1;
      ghost var goal := Insert(freeMemObjects, start, end);
      var newlist: seq<AddrPair> := [];
      var j := -1;
      var i := 0;
      while i < |freeMemObjects|
        invariant 0 <= i <= |freeMemObjects| && Abs() == old(Abs()) && j == -1
        invariant goal == newlist + Insert(freeMemObjects[i..], start, end)
      {
        var pair := freeMemObjects[i];
        assert freeMemObjects[i..][1..] == freeMemObjects[i + 1..];
        if pair.end + 1 < start {
          newlist := newlist + [pair];
        } else if end + 1 < pair.start {
          j := i;
          assert goal == newlist + [AddrPair(start, end)] + freeMemObjects[j..];
          break;
        } else {
          start := Min(start, pair.start);
          end := Max(end, pair.end);
        }
        i := i + 1;
      }
      newlist := newlist + [AddrPair(start, end)];
      if j != -1 {
        newlist := newlist + freeMemObjects[j..];
      }
      assert newlist == goal;
      freeMemObjects := newlist;
      return true;
    }
  }

  // ---- what the list means ----

  ghost predicate IsFree(list: seq<AddrPair>, b: int) {
    exists i :: 0 <= i < |list| && list[i].start <= b <= list[i].end
  }

  /** Sorted, and so far apart that no two ranges could be merged. */
  ghost predicate Coalesced(list: seq<AddrPair>) {
    && (forall i | 0 <= i < |list| :: list[i].start - 1 <= list[i].end)
    && (forall i, j | 0 <= i < j < |list| :: list[i].end + 1 < list[j].start)
  }

  ghost predicate InBlock(live: map<int, int>, p: int, b: int) {
    p in live && p <= b < p + live[p]
  }

  /** `live` holds the blocks handed out and not yet freed. */
  ghost predicate BlockInv(h: Heap, live: map<int, int>, n: nat, p: int) {
    p in live ==> live[p] > 0 && 0 <= p && p + live[p] <= n && SizeAt(h, p) == live[p]
  }

  /** Every address is free, or in one block, and not both. */
  ghost predicate ByteInv(h: Heap, live: map<int, int>, n: nat, b: int) {
    && (IsFree(h.free, b) ==> 0 <= b < n && forall p :: !InBlock(live, p, b))
    && (0 <= b < n && !IsFree(h.free, b) ==> exists p :: InBlock(live, p, b))
    && (forall p, q :: InBlock(live, p, b) && InBlock(live, q, b) ==> p == q)
  }

  ghost predicate HeapInv(h: Heap, live: map<int, int>, n: nat) {
    && Coalesced(h.free)
    && (forall p :: BlockInv(h, live, n, p))
    && (forall b :: ByteInv(h, live, n, b))
  }

  lemma NewHeapInv(n: nat)
    ensures HeapInv(NewHeap(n), map[], n)
  {
    forall b ensures ByteInv(NewHeap(n), map[], n, b) {
      if 0 <= b < n {
        assert NewHeap(n).free[0].start <= b <= NewHeap(n).free[0].end;
      }
    }
  }

  /** A run of consecutive free addresses lies inside one range, because ranges that touch are merged. */
  lemma RunInOneRange(list: seq<AddrPair>, a: int, size: int, i: nat)
    requires Coalesced(list) && size > 0 && i < |list| && list[i].start <= a <= list[i].end
    requires forall b | a <= b < a + size :: IsFree(list, b)
    ensures a + size - 1 <= list[i].end
  {
    assert !IsFree(list, list[i].end + 1);
  }

  /** The `size` bytes from `a` on are all free. */
  ghost predicate Room(list: seq<AddrPair>, a: int, size: int) {
    forall b | a <= b < a + size :: IsFree(list, b)
  }

  /** Malloc fails exactly when nowhere in memory there are `size` consecutive free bytes. */
  lemma MallocFailsIffNoRoom(h: Heap, size: int)
    requires Coalesced(h.free) && size > 0
    ensures Malloc(h, size).1.None? <==> forall a :: !Room(h.free, a, size)
  {
    var list := h.free;
    var i := FirstFit(list, size);
    if i < |list| {
      var a := list[i].start;
      forall b | a <= b < a + size ensures IsFree(list, b) {
        assert list[i].start <= b <= list[i].end;
      }
      assert Room(list, a, size);
    }
    forall a | Room(list, a, size) ensures i < |list| {
      assert IsFree(list, a);
      var k: nat :| k < |list| && list[k].start <= a <= list[k].end;
      RunInOneRange(list, a, size, k);
      assert Fits(list[k], size);
    }
  }

  /** Malloc gives out the lowest address from which on there are `size` free bytes. */
  lemma MallocIsLowest(h: Heap, size: int, a: int)
    requires Coalesced(h.free) && size > 0 && Room(h.free, a, size)
    ensures var r := Malloc(h, size).1; r.Some? && r.value <= a && Room(h.free, r.value, size)
  {
    var list := h.free;
    var i := FirstFit(list, size);
    assert IsFree(list, a);
    var k: nat :| k < |list| && list[k].start <= a <= list[k].end;
    RunInOneRange(list, a, size, k);
    assert Fits(list[k], size) && i <= k;
    forall b | list[i].start <= b < list[i].start + size ensures IsFree(list, b) {
      assert list[i].start <= b <= list[i].end;
    }
  }

  lemma MallocTakes(list: seq<AddrPair>, i: nat, size: int, b: int)
    requires Coalesced(list) && i < |list| && size > 0 && Fits(list[i], size)
    ensures var list' := list[i := AddrPair(list[i].start + size, list[i].end)];
            && Coalesced(list')
            && (IsFree(list', b) <==> IsFree(list, b) && !(list[i].start <= b < list[i].start + size))
  {
    var list' := list[i := AddrPair(list[i].start + size, list[i].end)];
    if IsFree(list', b) {
      var k :| 0 <= k < |list'| && list'[k].start <= b <= list'[k].end;
      assert list[k].start <= b <= list[k].end;
    }
    if IsFree(list, b) && !(list[i].start <= b < list[i].start + size) {
      var k :| 0 <= k < |list| && list[k].start <= b <= list[k].end;
      assert list'[k].start <= b <= list'[k].end;
    }
  }

  lemma MallocKeepsByte(h: Heap, live: map<int, int>, n: nat, size: int, i: nat, b: int)
    requires HeapInv(h, live, n) && size > 0 && i < |h.free| && i == FirstFit(h.free, size)
    requires h.free[i].start !in live
    ensures ByteInv(Malloc(h, size).0, live[h.free[i].start := size], n, b)
  {
    var a := h.free[i].start;
    var live' := live[a := size];
    MallocTakes(h.free, i, size, b);
    assert ByteInv(h, live, n, b);
    assert a <= b < a + size ==> h.free[i].start <= b <= h.free[i].end;
    forall p | p != a ensures InBlock(live', p, b) <==> InBlock(live, p, b) { }
    if a <= b < a + size {
      assert InBlock(live', a, b);
    } else if 0 <= b < n && !IsFree(h.free, b) {
      var p :| InBlock(live, p, b);
      assert InBlock(live', p, b);
    }
  }

  lemma MallocKeeps(h: Heap, live: map<int, int>, n: nat, size: int)
    requires HeapInv(h, live, n) && size > 0
    ensures var (h', r) := Malloc(h, size);
            && (r.None? ==> h' == h)
            && (r.Some? ==> r.value !in live && HeapInv(h', live[r.value := size], n))
            && (r.Some? ==> 0 <= r.value && r.value + size <= n)
  {
    var i := FirstFit(h.free, size);
    if i < |h.free| {
      var a := h.free[i].start;
      var h' := Malloc(h, size).0;
      var live' := live[a := size];
      forall b | a <= b < a + size ensures IsFree(h.free, b) && 0 <= b < n && forall p :: !InBlock(live, p, b) {
        assert h.free[i].start <= b <= h.free[i].end;
        assert ByteInv(h, live, n, b);
      }
      assert IsFree(h.free, a) && IsFree(h.free, a + size - 1);
      assert a !in live by {
        assert BlockInv(h, live, n, a) && ByteInv(h, live, n, a) && !InBlock(live, a, a);
      }
      MallocTakes(h.free, i, size, a);
      forall p ensures BlockInv(h', live', n, p) { assert BlockInv(h, live, n, p); }
      forall b ensures ByteInv(h', live', n, b) { MallocKeepsByte(h, live, n, size, i, b); }
    }
  }

  lemma {:induction false} InsertAbove(list: seq<AddrPair>, s: int, e: int, lo: int)
    requires lo < s && forall i | 0 <= i < |list| :: lo < list[i].start
    ensures forall i | 0 <= i < |Insert(list, s, e)| :: lo < Insert(list, s, e)[i].start
    decreases |list|
  {
    if list != [] {
      if list[0].end + 1 < s {
        InsertAbove(list[1..], s, e, lo);
      } else if e + 1 < list[0].start {
      } else {
        InsertAbove(list[1..], Min(s, list[0].start), Max(e, list[0].end), lo);
      }
    }
  }

  lemma {:induction false} InsertCoalesced(list: seq<AddrPair>, s: int, e: int)
    requires Coalesced(list) && s <= e
    ensures Coalesced(Insert(list, s, e))
    decreases |list|
  {
    if list != [] {
      if list[0].end + 1 < s {
        InsertCoalesced(list[1..], s, e);
        InsertAbove(list[1..], s, e, list[0].end + 1);
      } else if e + 1 < list[0].start {
      } else {
        InsertCoalesced(list[1..], Min(s, list[0].start), Max(e, list[0].end));
      }
    }
  }

  lemma IsFreeSplit(list: seq<AddrPair>, b: int)
    requires list != []
    ensures IsFree(list, b) <==> list[0].start <= b <= list[0].end || IsFree(list[1..], b)
  {
  }

  /** Inserting a block frees its bytes and no others. */
  lemma {:induction false} InsertFrees(list: seq<AddrPair>, s: int, e: int, b: int)
    requires Coalesced(list) && s <= e
    ensures IsFree(Insert(list, s, e), b) <==> IsFree(list, b) || s <= b <= e
    decreases |list|
  {
    var r := Insert(list, s, e);
    IsFreeSplit(r, b);
    if list == [] {
      assert r[1..] == [];
    } else {
      IsFreeSplit(list, b);
      if list[0].end + 1 < s {
        assert r[1..] == Insert(list[1..], s, e);
        InsertFrees(list[1..], s, e, b);
      } else if e + 1 < list[0].start {
        assert r[1..] == list;
      } else {
        InsertFrees(list[1..], Min(s, list[0].start), Max(e, list[0].end), b);
      }
    }
  }

  lemma FreeKeeps(h: Heap, live: map<int, int>, n: nat, p: int)
    requires HeapInv(h, live, n) && p in live
    ensures Free(h, p).1
    ensures HeapInv(Free(h, p).0, live - {p}, n)
    ensures forall b :: IsFree(Free(h, p).0.free, b) <==> IsFree(h.free, b) || p <= b < p + live[p]
  {
    assert BlockInv(h, live, n, p);
    var h' := Free(h, p).0;
    var live' := live - {p};
    InsertCoalesced(h.free, p, p + live[p] - 1);
    forall b ensures IsFree(h'.free, b) <==> IsFree(h.free, b) || p <= b < p + live[p] {
      InsertFrees(h.free, p, p + live[p] - 1, b);
    }
    forall q ensures BlockInv(h', live', n, q) { assert BlockInv(h, live, n, q); }
    forall b ensures ByteInv(h', live', n, b) {
      assert ByteInv(h, live, n, b);
      forall q ensures InBlock(live', q, b) <==> InBlock(live, q, b) && q != p { }
      if 0 <= b < n && !IsFree(h'.free, b) {
        var q :| InBlock(live, q, b);
        assert InBlock(live', q, b);
      }
      if p <= b < p + live[p] {
        assert InBlock(live, p, b);
      }
    }
  }

  lemma InsertUndoesTakeHere(list: seq<AddrPair>, size: int)
    requires Coalesced(list) && list != [] && size > 0 && Fits(list[0], size)
    ensures var a := list[0].start;
            Insert(list[0 := AddrPair(a + size, list[0].end)], a, a + size - 1) == list
  {
    assert list[0 := AddrPair(list[0].start + size, list[0].end)][1..] == list[1..];
  }

  lemma InsertSkips(head: AddrPair, tail: seq<AddrPair>, s: int, e: int)
    requires head.end + 1 < s
    ensures Insert([head] + tail, s, e) == [head] + Insert(tail, s, e)
  {
    assert ([head] + tail)[1..] == tail;
  }

  lemma UpdateBehind(list: seq<AddrPair>, i: nat, j: nat, v: AddrPair)
    requires i == j + 1 && i < |list|
    ensures list[i := v] == [list[0]] + list[1..][j := v] && list[1..][j] == list[i]
  {
  }

  lemma CoalescedTail(list: seq<AddrPair>, i: nat)
    requires Coalesced(list) && 0 < i < |list|
    ensures Coalesced(list[1..]) && list[0].end + 1 < list[i].start
  {
  }

  lemma InsertUndoesTakeBehind(list: seq<AddrPair>, i: nat, j: nat, v: AddrPair, s: int, e: int)
    requires i == j + 1 && i < |list| && list[0].end + 1 < s
    requires Insert(list[1..][j := v], s, e) == list[1..]
    ensures Insert(list[i := v], s, e) == list
  {
    UpdateBehind(list, i, j, v);
    InsertSkips(list[0], list[1..][j := v], s, e);
    assert [list[0]] + list[1..] == list;
  }

  lemma {:induction false} InsertUndoesTake(list: seq<AddrPair>, i: nat, size: int)
    requires Coalesced(list) && i < |list| && size > 0 && Fits(list[i], size)
    ensures var a := list[i].start;
            Insert(list[i := AddrPair(a + size, list[i].end)], a, a + size - 1) == list
    decreases |list|
  {
    var a := list[i].start;
    var rest := AddrPair(a + size, list[i].end);
    if i == 0 {
      InsertUndoesTakeHere(list, size);
    } else {
      var j: nat := i - 1;
      CoalescedTail(list, i);
      UpdateBehind(list, i, j, rest);
      InsertUndoesTake(list[1..], j, size);
      InsertUndoesTakeBehind(list, i, j, rest, a, a + size - 1);
    }
  }

  /** Freeing what was just allocated gives back the free list itself, not only its bytes. */
  lemma MallocThenFree(h: Heap, size: int)
    requires Coalesced(h.free) && size > 0
    ensures var (h1, r) := Malloc(h, size);
            r.Some? ==> Free(h1, r.value).1 && Free(h1, r.value).0.free == h.free
  {
    var i := FirstFit(h.free, size);
    if i < |h.free| {
      InsertUndoesTake(h.free, i, size);
    }
  }

  // ---- whole runs ----

  datatype Op = Alloc(size: int) | Release(p: int)

  /** The blocks handed out so far and not yet freed, beside the heap. */
  datatype Use = Use(heap: Heap, live: map<int, int>)

  function Do(u: Use, op: Op): Use {
    match op
    case Alloc(size) =>
      var (h, r) := Malloc(u.heap, size);
      Use(h, if r.Some? then u.live[r.value := size] else u.live)
    case Release(p) => Use(Free(u.heap, p).0, u.live - {p})
  }

  /** Clients ask for at least one byte and free only what they hold. */
  predicate Proper(u: Use, op: Op) {
    match op
    case Alloc(size) => size > 0
    case Release(p) => p in u.live
  }

  predicate ProperRun(u: Use, ops: seq<Op>)
    decreases |ops|
  {
    ops == [] || (Proper(u, ops[0]) && ProperRun(Do(u, ops[0]), ops[1..]))
  }

  function DoAll(u: Use, ops: seq<Op>): Use
    decreases |ops|
  {
    if ops == [] then u else DoAll(Do(u, ops[0]), ops[1..])
  }

  /** After any proper run the free ranges and the live blocks partition the memory, and the list is coalesced. */
  lemma {:induction false} RunsPartition(u: Use, ops: seq<Op>, n: nat)
    requires HeapInv(u.heap, u.live, n) && ProperRun(u, ops)
    ensures HeapInv(DoAll(u, ops).heap, DoAll(u, ops).live, n)
    decreases |ops|
  {
    if ops != [] {
      match ops[0] {
        case Alloc(size) => MallocKeeps(u.heap, u.live, n, size);
        case Release(p) => FreeKeeps(u.heap, u.live, n, p);
      }
      RunsPartition(Do(u, ops[0]), ops[1..], n);
    }
  }

  // ---- where clients must be careful: the source checks neither ----

  /** Freeing an address that is not live does harm exactly when its old block is not wholly free by now. */
  lemma StaleFreeIff(h: Heap, live: map<int, int>, n: nat, p: int)
    requires HeapInv(h, live, n) && p !in live && SizeAt(h, p) > 0
    ensures HeapInv(Free(h, p).0, live, n) <==> forall b | p <= b < p + SizeAt(h, p) :: IsFree(h.free, b)
  {
    var size := SizeAt(h, p);
    var h' := Free(h, p).0;
    InsertCoalesced(h.free, p, p + size - 1);
    forall b ensures IsFree(h'.free, b) <==> IsFree(h.free, b) || p <= b < p + size {
      InsertFrees(h.free, p, p + size - 1, b);
    }
    if forall b | p <= b < p + size :: IsFree(h.free, b) {
      forall q ensures BlockInv(h', live, n, q) { assert BlockInv(h, live, n, q); }
      forall b ensures ByteInv(h', live, n, b) { assert ByteInv(h, live, n, b); }
    } else {
      var b :| p <= b < p + size && !IsFree(h.free, b);
      assert ByteInv(h, live, n, b);
      assert !ByteInv(h', live, n, b);
    }
  }

  /** The harm is real: allocate 2 and 2 bytes, free both, allocate 4, then free the second address again. */
  lemma StaleFreeHarms()
    ensures var u := DoAll(Use(NewHeap(4), map[]), [Alloc(2), Alloc(2), Release(0), Release(2), Alloc(4)]);
            && u.live == map[0 := 4]
            && Free(u.heap, 2).1
            && IsFree(Free(u.heap, 2).0.free, 3) && InBlock(u.live, 0, 3)
  {
    var u0 := Use(NewHeap(4), map[]);
    var u1 := Do(u0, Alloc(2));
    assert u1 == Use(Heap([AddrPair(2, 3)], map[0 := 2]), map[0 := 2]);
    var u2 := Do(u1, Alloc(2));
    assert u2 == Use(Heap([AddrPair(4, 3)], map[0 := 2, 2 := 2]), map[0 := 2, 2 := 2]);
    var u3 := Do(u2, Release(0));
    assert u3 == Use(Heap([AddrPair(0, 1), AddrPair(4, 3)], map[0 := 2, 2 := 2]), map[2 := 2]);
    var u4 := Do(u3, Release(2));
    assert Insert([AddrPair(4, 3)], 0, 3) == Insert([], 0, 3);
    assert u4 == Use(Heap([AddrPair(0, 3)], map[0 := 2, 2 := 2]), map[]);
    var u5 := Do(u4, Alloc(4));
    assert u5 == Use(Heap([AddrPair(4, 3)], map[0 := 4, 2 := 2]), map[0 := 4]);
    assert DoAll(u0, [Alloc(2), Alloc(2), Release(0), Release(2), Alloc(4)])
        == DoAll(u1, [Alloc(2), Release(0), Release(2), Alloc(4)])
        == DoAll(u2, [Release(0), Release(2), Alloc(4)])
        == DoAll(u3, [Release(2), Alloc(4)]) == DoAll(u4, [Alloc(4)]) == DoAll(u5, []);
    var l := Free(u5.heap, 2).0.free;
    assert l == [AddrPair(2, 3)];
    assert l[0].start <= 3 <= l[0].end;
  }

  /** A request for zero bytes gets the start of the first range, whatever its length, and overwrites the size record
      kept for that address; it is harmless exactly when no live block starts there. */
  lemma ZeroMallocIff(h: Heap, live: map<int, int>, n: nat)
    requires HeapInv(h, live, n) && h.free != []
    ensures Malloc(h, 0).1 == Some(h.free[0].start)
    ensures HeapInv(Malloc(h, 0).0, live, n) <==> h.free[0].start !in live
  {
    var (h', r) := Malloc(h, 0);
    assert h.free[0].end - h.free[0].start + 1 >= 0;
    assert FirstFit(h.free, 0) == 0;
    assert h'.free == h.free;
    assert BlockInv(h, live, n, r.value);
    if r.value in live {
      assert !BlockInv(h', live, n, r.value);
    } else {
      forall p ensures BlockInv(h', live, n, p) { assert BlockInv(h, live, n, p); }
      forall b ensures ByteInv(h', live, n, b) { assert ByteInv(h, live, n, b); }
    }
  }

  /** It happens: allocate 4 and 4 bytes of eight, free the first block, allocate it again, and ask for nothing. The
      answer is the address of the second block, which can then no longer be freed. */
  lemma ZeroMallocHarms()
    ensures var u := DoAll(Use(NewHeap(8), map[]), [Alloc(4), Alloc(4), Release(0), Alloc(4)]);
            && u.live == map[0 := 4, 4 := 4]
            && Malloc(u.heap, 0).1 == Some(4) && !Free(Malloc(u.heap, 0).0, 4).1
  {
    var u0 := Use(NewHeap(8), map[]);
    var u1 := Do(u0, Alloc(4));
    assert u1 == Use(Heap([AddrPair(4, 7)], map[0 := 4]), map[0 := 4]);
    var u2 := Do(u1, Alloc(4));
    assert u2 == Use(Heap([AddrPair(8, 7)], map[0 := 4, 4 := 4]), map[0 := 4, 4 := 4]);
    var u3 := Do(u2, Release(0));
    assert u3 == Use(Heap([AddrPair(0, 3), AddrPair(8, 7)], map[0 := 4, 4 := 4]), map[4 := 4]);
    var u4 := Do(u3, Alloc(4));
    assert u4 == Use(Heap([AddrPair(4, 3), AddrPair(8, 7)], map[0 := 4, 4 := 4]), map[0 := 4, 4 := 4]);
    assert DoAll(u0, [Alloc(4), Alloc(4), Release(0), Alloc(4)]) == DoAll(u1, [Alloc(4), Release(0), Alloc(4)])
        == DoAll(u2, [Release(0), Alloc(4)]) == DoAll(u3, [Alloc(4)]) == DoAll(u4, []);
    var (h', r) := Malloc(u4.heap, 0);
    assert FirstFit(u4.heap.free, 0) == 0 && r == Some(4) && SizeAt(h', 4) == 0;
  }
}
