/** The MultiView protocol for one virtual page: the manager's reader/writer lock and copyset, the hosts'
    access rights and copies of the minipage, and the messages between them.

    The functions say what each handler does; the relation `Run` below lets them fire in any order. */
module Coherence {

  /** The bytes of the minipage. */
  type Data = seq<nat>

  /** One byte to be stored. */
  datatype Edit = Edit(offset: nat, byte: nat)

  function Patch(d: Data, e: Edit): Data {
    if e.offset < |d| then d[e.offset := e.byte] else d
  }

  datatype Access = NoAccess | ReadOnly | ReadWrite

  datatype Msg =
    | RR(from: nat)                        // READ_REQUEST from a host to the manager
    | WR(from: nat)                        // WRITE_REQUEST from a host to the manager
    | ReadReq(to: nat, from: nat)          // READ_REQUEST forwarded by the manager
    | WriteReq(to: nat, from: nat)         // WRITE_REQUEST forwarded by the manager
    | ReadReply(to: nat, data: Data)
    | WriteReply(to: nat, data: Data)
    | InvReq(to: nat, from: nat)           // INVALIDATE_REQUEST; `from` is the host that wants to write
    | InvReply(from: nat)                  // INVALIDATE_REPLY: does not name the host that replies
    | ReadAck(from: nat)
    | WriteAck(from: nat)

  /** Where the application thread of a host stands: blocked in a fault, served but not yet acknowledged,
      or about to touch the memory itself. */
  datatype Pc =
    | Running
    | ReadFault | ReadServed | Loading
    | WriteFault(e: Edit) | WriteServed(e: Edit) | Storing(e: Edit)

  datatype HostPage = HostPage(access: Access, mem: Data, pc: Pc)

  /** Counts of one write transaction: invalidations sent, replies handled, requests forwarded. */
  datatype Ledger = Ledger(sent: nat, replied: nat, forwarded: nat)

  /** The manager's side.  `crashed` records a panic of the source; the ledger is a history variable. */
  datatype Page = Page(readers: nat, writer: bool, copies: seq<nat>, crashed: bool, ledger: Ledger)

  type ManagerResult = (Page, seq<Msg>)
  type HostResult = (HostPage, seq<Msg>)

  // ---- manager handlers ----

  function Invalidations(copies: seq<nat>, w: nat): (r: seq<Msg>)
    ensures |r| == |copies|
  {
    seq(|copies|, i requires 0 <= i < |copies| => InvReq(copies[i], w))
  }

  /** With the read lock taken, the request goes to the first member of the copyset. */
  function HandleReadReq(p: Page, r: nat): ManagerResult {
    if p.copies == [] then (p.(readers := p.readers + 1, crashed := true), [])
    else (p.(readers := p.readers + 1), [ReadReq(p.copies[0], r)])
  }

  /** With the write lock taken, every member of the copyset is told to give up its copy. */
  function HandleWriteReq(p: Page, w: nat): ManagerResult {
    if p.copies == [] then (p.(writer := true, crashed := true), [])
    else (p.(writer := true, ledger := Ledger(|p.copies|, 0, 0)), Invalidations(p.copies, w))
  }

  /** Replies are counted by dropping one member of the copyset each; the last one left supplies the data. */
  function HandleInvalidateReply(p: Page, w: nat): ManagerResult {
    var led := p.ledger.(replied := p.ledger.replied + 1);
    if |p.copies| == 1 then
      (p.(copies := [], ledger := led.(forwarded := led.forwarded + 1)), [WriteReq(p.copies[0], w)])
    else if p.copies == [] then (p.(crashed := true), [])
    else (p.(copies := p.copies[1..], ledger := led), [])
  }

  function AddCopy(copies: seq<nat>, h: nat): seq<nat> {
    if h in copies then copies else copies + [h]
  }

  function HandleReadAck(p: Page, r: nat): Page {
    if p.readers == 0 then p.(copies := AddCopy(p.copies, r), crashed := true)
    else p.(copies := AddCopy(p.copies, r), readers := p.readers - 1)
  }

  function HandleWriteAck(p: Page, w: nat): Page {
    if !p.writer then p.(copies := AddCopy(p.copies, w), crashed := true)
    else p.(copies := AddCopy(p.copies, w), writer := false)
  }

  // ---- host handlers ----

  function OnReadReq(h: HostPage, r: nat): HostResult {
    (if h.access == ReadWrite then h.(access := ReadOnly) else h, [ReadReply(r, h.mem)])
  }

  function OnWriteReq(h: HostPage, w: nat): HostResult {
    (h.(access := NoAccess), [WriteReply(w, h.mem)])
  }

  function OnInvalidate(h: HostPage, w: nat): HostResult {
    (h.(access := NoAccess), [InvReply(w)])
  }

  function OnReadReply(h: HostPage, d: Data): HostPage {
    h.(mem := d, access := ReadOnly, pc := if h.pc.ReadFault? then ReadServed else h.pc)
  }

  function OnWriteReply(h: HostPage, d: Data): HostPage {
    h.(mem := d, access := ReadWrite, pc := if h.pc.WriteFault? then WriteServed(h.pc.e) else h.pc)
  }

  // ---- the application thread ----

  function BeginRead(h: HostPage, me: nat): HostResult {
    if h.access == NoAccess then (h.(pc := ReadFault), [RR(me)]) else (h.(pc := Loading), [])
  }

  function BeginWrite(h: HostPage, me: nat, e: Edit): HostResult {
    if h.access != ReadWrite then (h.(pc := WriteFault(e)), [WR(me)]) else (h.(pc := Storing(e)), [])
  }

  /** The acknowledgement leaves before the memory is touched. */
  function Acknowledge(h: HostPage, me: nat): HostResult
    requires h.pc.ReadServed? || h.pc.WriteServed?
  {
    if h.pc.ReadServed? then (h.(pc := Loading), [ReadAck(me)]) else (h.(pc := Storing(h.pc.e)), [WriteAck(me)])
  }

  /** The store itself looks at no right. */
  function FinishWrite(h: HostPage): HostPage
    requires h.pc.Storing?
  {
    h.(mem := Patch(h.mem, h.pc.e), pc := Running)
  }

  // ---- runs ----

  /** `last` is what the minipage would hold if every store had gone to one common memory. */
  datatype State = State(page: Page, hosts: seq<HostPage>, net: multiset<Msg>, last: Data)

  datatype Step =
    | Read(h: nat)
    | Write(h: nat, e: Edit)
    | Ack(h: nat)
    | Load(h: nat)
    | Store(h: nat)
    | ManagerGets(m: Msg)
    | HostGets(m: Msg)

  /** Right after the allocation: the allocating host is the only member of the copyset, nobody has access. */
  ghost predicate Init(s: State, n: nat, owner: nat) {
    && owner < n == |s.hosts|
    && s.page == Page(0, false, [owner], false, Ledger(0, 0, 0))
    && (forall i | 0 <= i < n :: s.hosts[i].access == NoAccess && s.hosts[i].pc == Running)
    && s.net == multiset{}
    && s.last == s.hosts[owner].mem
  }

  /** The manager's handlers for requests wait until they get the page's lock. */
  predicate ManagerReady(p: Page, m: Msg) {
    match m
    case RR(_) => !p.writer
    case WR(_) => !p.writer && p.readers == 0
    case InvReply(_) => true
    case ReadAck(_) => true
    case WriteAck(_) => true
    case _ => false
  }

  predicate ForHost(m: Msg, n: nat) {
    (m.ReadReq? || m.WriteReq? || m.InvReq? || m.ReadReply? || m.WriteReply?) && m.to < n
  }

  ghost predicate Enabled(s: State, step: Step) {
    match step
    case Read(h) => h < |s.hosts| && s.hosts[h].pc.Running?
    case Write(h, _) => h < |s.hosts| && s.hosts[h].pc.Running?
    case Ack(h) => h < |s.hosts| && (s.hosts[h].pc.ReadServed? || s.hosts[h].pc.WriteServed?)
    case Load(h) => h < |s.hosts| && s.hosts[h].pc.Loading?
    case Store(h) => h < |s.hosts| && s.hosts[h].pc.Storing?
    case ManagerGets(m) => m in s.net && ManagerReady(s.page, m)
    case HostGets(m) => m in s.net && ForHost(m, |s.hosts|)
  }

  function OnManager(p: Page, m: Msg): ManagerResult
    requires ManagerReady(p, m)
  {
    match m
    case RR(r) => HandleReadReq(p, r)
    case WR(w) => HandleWriteReq(p, w)
    case InvReply(w) => HandleInvalidateReply(p, w)
    case ReadAck(r) => (HandleReadAck(p, r), [])
    case WriteAck(w) => (HandleWriteAck(p, w), [])
  }

  function OnHost(h: HostPage, m: Msg): HostResult
    requires m.ReadReq? || m.WriteReq? || m.InvReq? || m.ReadReply? || m.WriteReply?
  {
    match m
    case ReadReq(_, r) => OnReadReq(h, r)
    case WriteReq(_, w) => OnWriteReq(h, w)
    case InvReq(_, w) => OnInvalidate(h, w)
    case ReadReply(_, d) => (OnReadReply(h, d), [])
    case WriteReply(_, d) => (OnWriteReply(h, d), [])
  }

  function PutHost(s: State, h: nat, r: HostResult): State
    requires h < |s.hosts|
  {
    s.(hosts := s.hosts[h := r.0], net := s.net + multiset(r.1))
  }

  ghost function Apply(s: State, step: Step): State
    requires Enabled(s, step)
  {
    match step
    case Read(h) => PutHost(s, h, BeginRead(s.hosts[h], h))
    case Write(h, e) => PutHost(s, h, BeginWrite(s.hosts[h], h, e))
    case Ack(h) => PutHost(s, h, Acknowledge(s.hosts[h], h))
    case Load(h) => PutHost(s, h, (s.hosts[h].(pc := Running), []))
    case Store(h) =>
      PutHost(s, h, (FinishWrite(s.hosts[h]), [])).(last := Patch(s.last, s.hosts[h].pc.e))
    case ManagerGets(m) =>
      var r := OnManager(s.page, m);
      s.(page := r.0, net := s.net - multiset{m} + multiset(r.1))
    case HostGets(m) => PutHost(s.(net := s.net - multiset{m}), m.to, OnHost(s.hosts[m.to], m))
  }

  ghost predicate Run(n: nat, owner: nat, states: seq<State>, steps: seq<Step>) {
    && |states| == |steps| + 1
    && Init(states[0], n, owner)
    && forall k | 0 <= k < |steps| :: Enabled(states[k], steps[k]) && states[k + 1] == Apply(states[k], steps[k])
  }

  /** A host stores only while it has READ_WRITE.  The source does not ensure this: it stores after its acknowledgement,
      without looking at the right again. */
  ghost predicate GuardedStep(s: State, step: Step) {
    step.Store? ==> step.h < |s.hosts| && s.hosts[step.h].access == ReadWrite
  }
}
