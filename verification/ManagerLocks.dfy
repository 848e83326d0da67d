/** The mutexes of the MultiView manager. A handler looks up its page under the manager's mutex, then takes the lock
    of the lock table for reading, and only then waits for the page's lock or gives it back. An allocation holds the
    mutex all the time and takes the lock of the table for writing, which nobody passes who comes after it. */
module ManagerLocks {
  import opened Sets

  /** One page: the requests that are in the table and wait for the page's lock, the acknowledgements that are in the
      table and are about to give it back, and the lock itself. */
  datatype PageLock = PageLock(
    readWaits: nat, writeWaits: nat, readAcks: nat, writeAck: bool, readers: nat, writer: bool)

  /** Where an allocation stands: it has the mutex; it has asked for the table; it has the table. */
  datatype Alloc = NoAlloc | Holding | Waiting | Inserting

  /** `leaving` counts the handlers that are done with the page's lock and are about to leave the table. */
  datatype State = State(alloc: Alloc, pages: seq<PageLock>, leaving: nat)

  datatype Step =
    | ReadArrives(p: nat)
    | WriteArrives(p: nat)
    | ReadAckArrives(p: nat)
    | WriteAckArrives(p: nat)
    | TakeRead(p: nat)
    | TakeWrite(p: nat)
    | GiveRead(p: nat)
    | GiveWrite(p: nat)
    | Leave
    | AllocBegins
    | AllocAsks
    | AllocInserts
    | AllocEnds(pages: nat)

  const UNLOCKED := PageLock(0, 0, 0, false, 0, false)

  predicate Arrives(step: Step) {
    step.ReadArrives? || step.WriteArrives? || step.ReadAckArrives? || step.WriteAckArrives?
  }

  predicate AtPage(step: Step) {
    Arrives(step) || step.TakeRead? || step.TakeWrite? || step.GiveRead? || step.GiveWrite?
  }

  /** No handler is in the table because of this page. */
  predicate Empty(l: PageLock) {
    l.readWaits == l.writeWaits == l.readAcks == 0 && !l.writeAck
  }

  predicate PageReady(l: PageLock, step: Step) {
    match step
    case ReadArrives(_) => true
    case WriteArrives(_) => true
    case ReadAckArrives(_) => l.readAcks < l.readers
    case WriteAckArrives(_) => l.writer && !l.writeAck
    case TakeRead(_) => l.readWaits > 0 && !l.writer
    case TakeWrite(_) => l.writeWaits > 0 && !l.writer && l.readers == 0
    case GiveRead(_) => l.readAcks > 0 && l.readers > 0
    case GiveWrite(_) => l.writeAck
    case _ => false
  }

  /** Requests may get the page's lock in any order here; Go prefers a writer that waits to readers that come later.
      A handler that has looked up its page before the allocation took the mutex may still enter the table, until the
      allocation asks for it.  An acknowledgement comes from a host that holds the page's lock. */
  ghost predicate Enabled(s: State, step: Step) {
    if AtPage(step) then
      && step.p < |s.pages| && PageReady(s.pages[step.p], step)
      && (Arrives(step) ==> s.alloc.NoAlloc? || s.alloc.Holding?)
    else
      match step
      case Leave => s.leaving > 0
      case AllocBegins => s.alloc.NoAlloc?
      case AllocAsks => s.alloc.Holding?
      case AllocInserts => s.alloc.Waiting? && s.leaving == 0 && forall p | 0 <= p < |s.pages| :: Empty(s.pages[p])
      case AllocEnds(_) => s.alloc.Inserting?
  }

  function OnPage(l: PageLock, step: Step): PageLock
    requires PageReady(l, step)
  {
    match step
    case ReadArrives(_) => l.(readWaits := l.readWaits + 1)
    case WriteArrives(_) => l.(writeWaits := l.writeWaits + 1)
    case ReadAckArrives(_) => l.(readAcks := l.readAcks + 1)
    case WriteAckArrives(_) => l.(writeAck := true)
    case TakeRead(_) => l.(readWaits := l.readWaits - 1, readers := l.readers + 1)
    case TakeWrite(_) => l.(writeWaits := l.writeWaits - 1, writer := true)
    case GiveRead(_) => l.(readAcks := l.readAcks - 1, readers := l.readers - 1)
    case GiveWrite(_) => l.(writeAck := false, writer := false)
  }

  ghost function Apply(s: State, step: Step): State
    requires Enabled(s, step)
  {
    if AtPage(step) then
      s.(pages := s.pages[step.p := OnPage(s.pages[step.p], step)],
         leaving := if Arrives(step) then s.leaving else s.leaving + 1)
    else
      match step
      case Leave => s.(leaving := s.leaving - 1)
      case AllocBegins => s.(alloc := Holding)
      case AllocAsks => s.(alloc := Waiting)
      case AllocInserts => s.(alloc := Inserting)
      case AllocEnds(k) => s.(alloc := NoAlloc, pages := s.pages + seq(k, _ => UNLOCKED))
  }

  ghost predicate Goes(s: State, steps: seq<Step>)
    decreases |steps|
  {
    steps == [] || (Enabled(s, steps[0]) && Goes(Apply(s, steps[0]), steps[1..]))
  }

  ghost function After(s: State, steps: seq<Step>): State
    requires Goes(s, steps)
    decreases |steps|
  {
    if steps == [] then s else After(Apply(s, steps[0]), steps[1..])
  }

  function Start(n: nat): State {
    State(NoAlloc, seq(n, _ => UNLOCKED), 0)
  }

  // ---- what always holds ----

  predicate PageInv(l: PageLock) {
    l.readAcks <= l.readers && (l.writeAck ==> l.writer) && (l.writer ==> l.readers == 0)
  }

  ghost predicate Inv(s: State) {
    forall p | 0 <= p < |s.pages| :: PageInv(s.pages[p])
  }

  lemma StepKeeps(s: State, step: Step)
    requires Inv(s) && Enabled(s, step)
    ensures Inv(Apply(s, step))
  {
  }

  lemma {:induction false} RunKeeps(s: State, steps: seq<Step>)
    requires Inv(s) && Goes(s, steps)
    ensures Inv(After(s, steps))
    decreases |steps|
  {
    if steps != [] {
      StepKeeps(s, steps[0]);
      RunKeeps(Apply(s, steps[0]), steps[1..]);
    }
  }

  // ---- when an allocation that has asked for the table never gets it ----

  /** With the acknowledgements that are in the table already, all requests that are in it can get the page's lock:
      there are only readers, or a single writer, and nobody keeps the lock from them. */
  predicate Drains(l: PageLock) {
    || l.readWaits == l.writeWaits == 0
    || ((l.writer ==> l.writeAck)
        && (l.writeWaits == 0 || (l.writeWaits == 1 && l.readWaits == 0 && l.readers == l.readAcks)))
  }

  /** An allocation has asked for the table, and some request in the table cannot get its page's lock any more. */
  ghost predicate Jammed(s: State) {
    s.alloc.Waiting? && exists p :: 0 <= p < |s.pages| && !Drains(s.pages[p])
  }

  lemma NotDrainedStays(l: PageLock, step: Step)
    requires PageInv(l) && !Drains(l) && PageReady(l, step) && !Arrives(step)
    ensures !Drains(OnPage(l, step))
  {
  }

  lemma JamStays(s: State, step: Step)
    requires Inv(s) && Jammed(s) && Enabled(s, step)
    ensures !Arrives(step) && Jammed(Apply(s, step))
  {
    var p :| 0 <= p < |s.pages| && !Drains(s.pages[p]);
    if AtPage(step) && step.p == p {
      NotDrainedStays(s.pages[p], step);
    }
    assert !Empty(s.pages[p]) && !Drains(Apply(s, step).pages[p]);
  }

  /** From then on the allocation has the mutex for ever, and no message about any page is handled any more. */
  lemma {:induction false} JamIsForEver(s: State, steps: seq<Step>)
    requires Inv(s) && Jammed(s) && Goes(s, steps)
    ensures Jammed(After(s, steps)) && forall k | 0 <= k < |steps| :: !Arrives(steps[k])
    decreases |steps|
  {
    if steps != [] {
      JamStays(s, steps[0]);
      StepKeeps(s, steps[0]);
      JamIsForEver(Apply(s, steps[0]), steps[1..]);
    }
  }

  // ---- and when it does ----

  function Load(l: PageLock): nat {
    l.readWaits + l.writeWaits + l.readAcks + if l.writeAck then 1 else 0
  }

  function Loads(pages: seq<PageLock>): seq<nat> {
    seq(|pages|, p requires 0 <= p < |pages| => Load(pages[p]))
  }

  /** A page that is not empty can be brought one handler further. */
  lemma PageMoves(l: PageLock, p: nat) returns (step: Step)
    requires PageInv(l) && Drains(l) && !Empty(l)
    ensures AtPage(step) && !Arrives(step) && step.p == p && PageReady(l, step)
    ensures Drains(OnPage(l, step)) && Load(OnPage(l, step)) < Load(l)
  {
    step := if l.readAcks > 0 then GiveRead(p)
            else if l.writeAck then GiveWrite(p)
            else if l.readWaits > 0 then TakeRead(p)
            else TakeWrite(p);
  }

  ghost predicate AllDrain(s: State) {
    forall p | 0 <= p < |s.pages| :: Drains(s.pages[p])
  }

  lemma SomeoneMoves(s: State, p: nat) returns (step: Step)
    requires Inv(s) && s.alloc.Waiting? && AllDrain(s) && p < |s.pages| && !Empty(s.pages[p])
    ensures Enabled(s, step) && AllDrain(Apply(s, step)) && Apply(s, step).alloc.Waiting?
    ensures Apply(s, step).leaving == s.leaving + 1 && Sum(Loads(Apply(s, step).pages)) < Sum(Loads(s.pages))
  {
    step := PageMoves(s.pages[p], p);
    SumFalls(Loads(s.pages), Loads(Apply(s, step).pages), p);
  }

  lemma {:induction false} TableIsLeft(s: State) returns (steps: seq<Step>)
    requires Inv(s) && s.alloc.Waiting? && AllDrain(s)
    ensures Goes(s, steps) && After(s, steps).alloc.Inserting?
    decreases 2 * Sum(Loads(s.pages)) + s.leaving
  {
    var step := AllocInserts;
    if p :| 0 <= p < |s.pages| && !Empty(s.pages[p]) {
      step := SomeoneMoves(s, p);
    } else if s.leaving > 0 {
      step := Leave;
    }
    if step == AllocInserts {
      steps := [step];
      assert Goes(Apply(s, step), steps[1..]);
    } else {
      StepKeeps(s, step);
      var rest := TableIsLeft(Apply(s, step));
      steps := [step] + rest;
      assert steps[1..] == rest;
    }
  }

  /** An allocation that has asked for the table can still get it exactly when every request that is in the table can
      get its page's lock with the acknowledgements that are in it too. */
  lemma AllocationEndsIff(s: State)
    requires Inv(s) && s.alloc.Waiting?
    ensures (exists steps: seq<Step> :: Goes(s, steps) && After(s, steps).alloc.Inserting?) <==> AllDrain(s)
  {
    if AllDrain(s) {
      var steps := TableIsLeft(s);
      assert Goes(s, steps) && After(s, steps).alloc.Inserting?;
    } else {
      forall steps: seq<Step> | Goes(s, steps) ensures !After(s, steps).alloc.Inserting? {
        JamIsForEver(s, steps);
      }
    }
  }

  /** Without an allocation nothing is stuck: the request gets the page's lock, or someone who has it can give it
      back. */
  lemma RequestsGoOn(s: State, p: nat) returns (step: Step)
    requires Inv(s) && s.alloc.NoAlloc? && p < |s.pages| && s.pages[p].readWaits + s.pages[p].writeWaits > 0
    ensures Enabled(s, step) && AtPage(step) && step.p == p && !step.ReadArrives? && !step.WriteArrives?
  {
    var l := s.pages[p];
    step := if l.writer then if l.writeAck then GiveWrite(p) else WriteAckArrives(p)
            else if l.writeWaits == 0 then TakeRead(p)
            else if l.readers == 0 then TakeWrite(p)
            else if l.readAcks > 0 then GiveRead(p)
            else ReadAckArrives(p);
  }

  // ---- a run that jams ----

  lemma {:induction false} GoesOn(s: State, steps: seq<Step>, step: Step)
    requires Goes(s, steps) && Enabled(After(s, steps), step)
    ensures Goes(s, steps + [step]) && After(s, steps + [step]) == Apply(After(s, steps), step)
    decreases |steps|
  {
    if steps == [] {
      assert Goes(Apply(s, step), []);
    } else {
      GoesOn(Apply(s, steps[0]), steps[1..], step);
      assert (steps + [step])[1..] == steps[1..] + [step];
    }
  }

  /** After these steps one write holds the page's lock, and the table is empty. */
  lemma WriteIsServed() returns (steps: seq<Step>)
    ensures Goes(Start(1), steps)
    ensures After(Start(1), steps) == State(NoAlloc, [PageLock(0, 0, 0, false, 0, true)], 0)
  {
    var s := Start(1);
    GoesOn(s, [], WriteArrives(0));
    steps := [] + [WriteArrives(0)];
    GoesOn(s, steps, TakeWrite(0));
    steps := steps + [TakeWrite(0)];
    GoesOn(s, steps, Leave);
    steps := steps + [Leave];
  }

  /** A write is being served, a read of the same page waits in the table, and a client allocates: the write's
      acknowledgement can never be handled. */
  lemma JamHappens() returns (steps: seq<Step>)
    ensures Goes(Start(1), steps) && Inv(After(Start(1), steps)) && Jammed(After(Start(1), steps))
  {
    var s := Start(1);
    steps := WriteIsServed();
    GoesOn(s, steps, ReadArrives(0));
    steps := steps + [ReadArrives(0)];
    GoesOn(s, steps, AllocBegins);
    steps := steps + [AllocBegins];
    GoesOn(s, steps, AllocAsks);
    steps := steps + [AllocAsks];
    assert !Drains(After(s, steps).pages[0]);
    RunKeeps(s, steps);
  }
}
