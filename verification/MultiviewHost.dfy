/** The MultiView host object: access rights per virtual page, and the physical memory that all views share, both
    written in place.  Each message handler is proved to do to the page of the message what `Coherence` says. */
module MultiviewHost {
  import opened PageMath
  import C = Coherence

  class Host {
    const pageSize: nat
    const npages: nat
    var id: nat
    /** One right per virtual page; the pages of view 0 are the privileged view and stay readable and writable. */
    const accessMap: array<C.Access>
    const stack: array<nat>
    /** The page that the application thread is busy with, and where it stands. */
    var busy: int
    var pc: C.Pc
    var out: seq<C.Msg>

    constructor (memSize: int, pageByteSize: nat, id: nat)
      requires pageByteSize > 0
      ensures Valid() && fresh(accessMap) && fresh(stack) && this.id == id && out == []
      ensures stack.Length == Max(memSize, pageByteSize) && pageSize == pageByteSize && pc == C.Running
      ensures forall j | npages <= j < accessMap.Length :: accessMap[j] == C.NoAccess
      ensures forall a | 0 <= a < stack.Length :: stack[a] == 0
    {
      var size := Max(memSize, pageByteSize);
      WholePages(size, pageByteSize);
      pageSize := pageByteSize;
      npages := size / pageByteSize;
      this.id := id;
      accessMap := new C.Access[size](_ => C.NoAccess);
      stack := new nat[size](_ => 0);
      busy, pc, out := 0, C.Running, [];
      new;
      for i := 0 to npages
        invariant fresh(accessMap) && fresh(stack) && npages <= accessMap.Length
        invariant forall j | 0 <= j < i :: accessMap[j] == C.ReadWrite
        invariant forall j | i <= j < accessMap.Length :: accessMap[j] == C.NoAccess
        invariant forall a | 0 <= a < stack.Length :: stack[a] == 0
        modifies accessMap
      {
        accessMap[i] := C.ReadWrite;
      }
    }

    ghost predicate Valid()
      reads this, accessMap, stack
    {
      && pageSize > 0 && stack.Length > 0 && accessMap.Length == stack.Length
      && npages == stack.Length / pageSize && npages <= accessMap.Length && PrivilegedSize() <= stack.Length
      && (accessMap as object) != (stack as object)
      && forall j | 0 <= j < npages :: accessMap[j] == C.ReadWrite
    }

    /** The bytes of the whole pages: all of the memory if its size is a multiple of the page size. */
    ghost function PrivilegedSize(): int
      reads this
    {
      npages * pageSize
    }

    /** A virtual page outside the privileged view, and its minipage in the whole pages of the physical memory. */
    ghost predicate Location(v: int, priv: int, len: nat)
      reads this
    {
      npages <= v < accessMap.Length && 0 <= priv && priv + len <= PrivilegedSize()
    }

    ghost function PageOf(v: int, priv: int, len: nat): C.HostPage
      requires Location(v, priv, len) && PrivilegedSize() <= stack.Length
      reads this, accessMap, stack
    {
      C.HostPage(accessMap[v], stack[priv..priv + len], if busy == v then pc else C.Running)
    }

    function TranslateAddr(addr: int): int
      requires stack.Length > 0
    {
      addr % stack.Length
    }

    function GetVPageNr(addr: int): int
      requires pageSize > 0
    {
      addr / pageSize
    }

    /** A physical address is its own translation, and lies on a page of the privileged view exactly when it is on a
        whole page of the memory. */
    lemma PrivilegedPage(a: int)
      requires Valid() && 0 <= a < stack.Length
      ensures 0 <= GetVPageNr(a) && (GetVPageNr(a) < npages <==> a < PrivilegedSize()) && TranslateAddr(a) == a
    {
      PageInRange(a, npages, pageSize);
      SmallMod(a, stack.Length);
    }

    /** The host looks for a fault where none can be only if the last page is not whole. */
    lemma AllPrivilegedIff()
      requires Valid()
      ensures PrivilegedSize() == stack.Length <==> stack.Length % pageSize == 0
    {
      PageBounds(stack.Length, pageSize);
    }

    /** The loop of ReadBytes over privileged addresses. */
    method ReadPrivileged(priv: int, len: nat) returns (result: seq<nat>)
      requires Valid() && 0 <= priv && priv + len <= PrivilegedSize()
      ensures result == stack[priv..priv + len]
    {
      result := [];
      for i := 0 to len
        invariant result == stack[priv..priv + i]
      {
        PrivilegedPage(priv + i);
        assert accessMap[GetVPageNr(priv + i)] != C.NoAccess;
        result := result + [stack[TranslateAddr(priv + i)]];
      }
    }

    /** The loop that stores the bytes of a reply. */
    method WritePrivileged(priv: int, data: seq<nat>)
      requires Valid() && 0 <= priv && priv + |data| <= PrivilegedSize()
      modifies stack
      ensures Valid() && stack[priv..priv + |data|] == data
      ensures forall a | 0 <= a < stack.Length && !(priv <= a < priv + |data|) :: stack[a] == old(stack[a])
    {
      for i := 0 to |data|
        invariant Valid() && stack[priv..priv + i] == data[..i]
        invariant forall a | 0 <= a < stack.Length && !(priv <= a < priv + i) :: stack[a] == old(stack[a])
      {
        PrivilegedPage(priv + i);
        assert accessMap[GetVPageNr(priv + i)] == C.ReadWrite;
        stack[TranslateAddr(priv + i)] := data[i];
      }
    }

    method OnReply(v: int, priv: int, data: seq<nat>, write: bool)
      requires Valid() && Location(v, priv, |data|)
      modifies stack, accessMap, this`pc
      ensures Valid()
      ensures PageOf(v, priv, |data|) == (if write then C.OnWriteReply(old(PageOf(v, priv, |data|)), data)
                                         else C.OnReadReply(old(PageOf(v, priv, |data|)), data))
      ensures forall a | 0 <= a < stack.Length && !(priv <= a < priv + |data|) :: stack[a] == old(stack[a])
      ensures forall j | 0 <= j < accessMap.Length && j != v :: accessMap[j] == old(accessMap[j])
      ensures busy != v ==> pc == old(pc)
      ensures stack[priv..priv + |data|] == data && accessMap[v] == if write then C.ReadWrite else C.ReadOnly
      ensures busy == v && write && old(pc).WriteFault? ==> pc == C.WriteServed(old(pc).e)
      ensures busy == v && !write && old(pc).ReadFault? ==> pc == C.ReadServed
    {
      WritePrivileged(priv, data);
      accessMap[v] := if write then C.ReadWrite else C.ReadOnly;
      if busy == v {
        if write && pc.WriteFault? {
          pc := C.WriteServed(pc.e);
        } else if !write && pc.ReadFault? {
          pc := C.ReadServed;
        }
      }
    }

    method OnRequest(v: int, priv: int, len: nat, from: nat, write: bool)
      requires Valid() && Location(v, priv, len)
      modifies accessMap, this`out
      ensures Valid()
      ensures var r := if write then C.OnWriteReq(old(PageOf(v, priv, len)), from)
                       else C.OnReadReq(old(PageOf(v, priv, len)), from);
              PageOf(v, priv, len) == r.0 && out == old(out) + r.1
      ensures accessMap[v] == if write then C.NoAccess
                              else if old(accessMap[v]) == C.ReadWrite then C.ReadOnly else old(accessMap[v])
      ensures var data := stack[priv..priv + len];
              out == old(out) + [if write then C.WriteReply(from, data) else C.ReadReply(from, data)]
      ensures forall j | 0 <= j < accessMap.Length && j != v :: accessMap[j] == old(accessMap[j])
    {
      if !write && accessMap[v] == C.ReadWrite {
        accessMap[v] := C.ReadOnly;
      } else if write {
        accessMap[v] := C.NoAccess;
      }
      var res := ReadPrivileged(priv, len);
      out := out + [if write then C.WriteReply(from, res) else C.ReadReply(from, res)];
    }

    method OnInvalidateRequest(v: int, priv: int, len: nat, from: nat)
      requires Valid() && Location(v, priv, len)
      modifies accessMap, this`out
      ensures Valid()
      ensures var r := C.OnInvalidate(old(PageOf(v, priv, len)), from);
              PageOf(v, priv, len) == r.0 && out == old(out) + r.1
      ensures accessMap[v] == C.NoAccess && out == old(out) + [C.InvReply(from)]
      ensures forall j | 0 <= j < accessMap.Length && j != v :: accessMap[j] == old(accessMap[j])
    {
      accessMap[v] := C.NoAccess;
      out := out + [C.InvReply(from)];
    }

    /** The first half of Read and Write: the check of the right, and the fault if it does not suffice. */
    method StartRead(v: int, priv: int, len: nat)
      requires Valid() && Location(v, priv, len) && pc.Running?
      modifies this`busy, this`pc, this`out
      ensures Valid() && busy == v
      ensures var r := C.BeginRead(old(PageOf(v, priv, len)), id);
              PageOf(v, priv, len) == r.0 && out == old(out) + r.1
      ensures if accessMap[v] == C.NoAccess then pc == C.ReadFault && out == old(out) + [C.RR(id)]
              else pc == C.Loading && out == old(out)
    {
      busy := v;
      if accessMap[v] == C.NoAccess {
        pc := C.ReadFault;
        out := out + [C.RR(id)];
      } else {
        pc := C.Loading;
      }
    }

    method StartWrite(v: int, priv: int, len: nat, e: C.Edit)
      requires Valid() && Location(v, priv, len) && pc.Running?
      modifies this`busy, this`pc, this`out
      ensures Valid() && busy == v
      ensures var r := C.BeginWrite(old(PageOf(v, priv, len)), id, e);
              PageOf(v, priv, len) == r.0 && out == old(out) + r.1
      ensures if accessMap[v] != C.ReadWrite then pc == C.WriteFault(e) && out == old(out) + [C.WR(id)]
              else pc == C.Storing(e) && out == old(out)
    {
      busy := v;
      if accessMap[v] != C.ReadWrite {
        pc := C.WriteFault(e);
        out := out + [C.WR(id)];
      } else {
        pc := C.Storing(e);
      }
    }

    /** The end of onFault. */
    method SendAck(v: int, priv: int, len: nat)
      requires Valid() && Location(v, priv, len) && busy == v && (pc.ReadServed? || pc.WriteServed?)
      modifies this`pc, this`out
      ensures Valid()
      ensures var r := C.Acknowledge(old(PageOf(v, priv, len)), id);
              PageOf(v, priv, len) == r.0 && out == old(out) + r.1
      ensures if old(pc).ReadServed? then pc == C.Loading && out == old(out) + [C.ReadAck(id)]
              else pc == C.Storing(old(pc).e) && out == old(out) + [C.WriteAck(id)]
    {
      if pc.ReadServed? {
        pc := C.Loading;
        out := out + [C.ReadAck(id)];
      } else {
        pc := C.Storing(pc.e);
        out := out + [C.WriteAck(id)];
      }
    }

    /** The second half of Read: one byte of the minipage, whatever the right says by now. */
    method FinishRead(v: int, priv: int, len: nat, offset: nat) returns (b: nat)
      requires Valid() && Location(v, priv, len) && offset < len && busy == v && pc.Loading?
      modifies this`pc
      ensures Valid() && PageOf(v, priv, len) == old(PageOf(v, priv, len)).(pc := C.Running)
      ensures b == PageOf(v, priv, len).mem[offset] == stack[priv + offset] && pc == C.Running
    {
      PrivilegedPage(priv + offset);
      b := stack[TranslateAddr(priv + offset)];
      pc := C.Running;
    }

    /** The second half of Write: one byte is stored, whatever the right says by now. */
    method FinishWrite(v: int, priv: int, len: nat)
      requires Valid() && Location(v, priv, len) && busy == v && pc.Storing? && pc.e.offset < len
      modifies this`pc, stack
      ensures Valid() && PageOf(v, priv, len) == C.FinishWrite(old(PageOf(v, priv, len)))
      ensures stack[priv + old(pc).e.offset] == old(pc).e.byte && pc == C.Running
      ensures forall a | 0 <= a < stack.Length && a != priv + old(pc).e.offset :: stack[a] == old(stack[a])
    {
      var a := priv + pc.e.offset;
      PrivilegedPage(a);
      stack[TranslateAddr(a)] := pc.e.byte;
      assert stack[priv..priv + len] == old(stack[priv..priv + len])[pc.e.offset := pc.e.byte];
      pc := C.Running;
    }
  }
}
