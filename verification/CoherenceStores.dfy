/** Where the bytes of a store land, whose they are, and which of them a reader sees. */
module CoherenceStores {
  import opened Coherence
  import opened CoherenceTheorems

  /** The byte of the edit stands at its offset, every other byte is as before. */
  ghost predicate Stored(d: Data, d': Data, e: Edit) {
    |d'| == |d| && forall o | 0 <= o < |d| :: d'[o] == if o == e.offset then e.byte else d[o]
  }

  /** A store changes one byte of the storing host's memory, and of the common memory that it is compared with. */
  lemma StoreLands(s: State, h: nat)
    requires Enabled(s, Store(h))
    ensures var s' := Apply(s, Store(h)); var e := s.hosts[h].pc.e;
            && |s'.hosts| == |s.hosts| && s'.hosts[h].pc == Running
            && Stored(s.hosts[h].mem, s'.hosts[h].mem, e) && Stored(s.last, s'.last, e)
            && forall i | 0 <= i < |s.hosts| && i != h :: s'.hosts[i] == s.hosts[i]
  {
    var d, e := s.hosts[h].mem, s.hosts[h].pc.e;
    forall o | 0 <= o < |d| ensures Patch(d, e)[o] == if o == e.offset then e.byte else d[o] { }
  }

  // ---- the edit of a store is that of a write ----

  predicate HasEdit(pc: Pc) {
    pc.WriteFault? || pc.WriteServed? || pc.Storing?
  }

  predicate WriteBy(step: Step, h: nat) {
    step.Write? && step.h == h
  }

  /** Step `w` is the latest write that host `h` began before step `k`, and it is to store `e`. */
  ghost predicate LatestWrite(steps: seq<Step>, w: nat, k: nat, h: nat, e: Edit) {
    w < k <= |steps| && steps[w] == Write(h, e) && forall i | w < i < k :: !WriteBy(steps[i], h)
  }

  /** The thread of host `h` is on its way to store `e`. */
  predicate EditIs(s: State, h: nat, e: Edit) {
    h < |s.hosts| && HasEdit(s.hosts[h].pc) && s.hosts[h].pc.e == e
  }

  lemma EditStep(s: State, step: Step, h: nat, e: Edit)
    requires Enabled(s, step) && EditIs(Apply(s, step), h, e)
    ensures if WriteBy(step, h) then step == Write(h, e) else EditIs(s, h, e)
  {
  }

  lemma EditStaysOne(n: nat, owner: nat, states: seq<State>, steps: seq<Step>, k: nat, h: nat, e: Edit)
    requires Run(n, owner, states, steps) && k < |steps| && EditIs(states[k + 1], h, e)
    ensures if WriteBy(steps[k], h) then steps[k] == Write(h, e) else EditIs(states[k], h, e)
  {
    var g := StateAt(n, owner, states, steps, k);
    EditStep(states[k], steps[k], h, e);
  }

  lemma NoEditAtFirst(n: nat, owner: nat, states: seq<State>, steps: seq<Step>, h: nat, e: Edit)
    requires Run(n, owner, states, steps)
    ensures !EditIs(states[0], h, e)
  {
  }

  /** A thread that is about to store carries the edit of the latest write that its host began. */
  lemma {:induction false} EditIsWritten(
    n: nat, owner: nat, states: seq<State>, steps: seq<Step>, k: nat, h: nat, e: Edit) returns (w: nat)
    requires Run(n, owner, states, steps) && k <= |steps| && EditIs(states[k], h, e)
    ensures LatestWrite(steps, w, k, h, e)
    decreases k
  {
    NoEditAtFirst(n, owner, states, steps, h, e);
    var j: nat :| j + 1 == k;
    EditStaysOne(n, owner, states, steps, j, h, e);
    w := j;
    if !WriteBy(steps[j], h) {
      w := EditIsWritten(n, owner, states, steps, j, h, e);
    }
  }

  // ---- each byte is that of the latest store to it ----

  /** Step `k` stores the byte at offset `o`. */
  ghost predicate StoresAt(states: seq<State>, steps: seq<Step>, k: nat, o: nat) {
    && k < |steps| && k < |states|
    && steps[k].Store? && Enabled(states[k], steps[k]) && states[k].hosts[steps[k].h].pc.e.offset == o
  }

  /** Nothing is stored at offset `o` from step `j` on until step `k`. */
  ghost predicate Untouched(states: seq<State>, steps: seq<Step>, j: nat, k: nat, o: nat) {
    forall i: nat | j <= i < k :: !StoresAt(states, steps, i, o)
  }

  lemma LastStep(s: State, step: Step, o: nat)
    requires Enabled(s, step) && o < |s.last|
    requires !(step.Store? && s.hosts[step.h].pc.e.offset == o)
    ensures var s' := Apply(s, step); |s'.last| == |s.last| && s'.last[o] == s.last[o]
  {
    if step.Store? {
      StoreLands(s, step.h);
    }
  }

  lemma LastStaysOne(n: nat, owner: nat, states: seq<State>, steps: seq<Step>, k: nat, o: nat)
    requires Run(n, owner, states, steps) && k < |steps| && o < |states[k].last|
    requires !StoresAt(states, steps, k, o)
    ensures |states[k + 1].last| == |states[k].last| && states[k + 1].last[o] == states[k].last[o]
  {
    var g := StateAt(n, owner, states, steps, k);
    LastStep(states[k], steps[k], o);
  }

  lemma {:induction false} LastStays(
    n: nat, owner: nat, states: seq<State>, steps: seq<Step>, j: nat, k: nat, o: nat)
    requires Run(n, owner, states, steps) && j <= k <= |steps| && o < |states[j].last|
    requires Untouched(states, steps, j, k, o)
    ensures |states[k].last| == |states[j].last| && states[k].last[o] == states[j].last[o]
    decreases k
  {
    if j < k {
      assert !StoresAt(states, steps, k - 1, o);
      LastStays(n, owner, states, steps, j, k - 1, o);
      LastStaysOne(n, owner, states, steps, k - 1, o);
    }
  }

  lemma {:induction false} LengthStays(n: nat, owner: nat, states: seq<State>, steps: seq<Step>, k: nat)
    requires Run(n, owner, states, steps) && k <= |steps|
    ensures |states[k].last| == |states[0].last|
  {
    if k > 0 {
      LengthStays(n, owner, states, steps, k - 1);
      var g := StateAt(n, owner, states, steps, k - 1);
      if steps[k - 1].Store? {
        StoreLands(states[k - 1], steps[k - 1].h);
      }
    }
  }

  /** Step `j` is the latest store at offset `o` before step `k`. */
  ghost predicate LatestStore(states: seq<State>, steps: seq<Step>, j: nat, k: nat, o: nat) {
    j < k && StoresAt(states, steps, j, o) && Untouched(states, steps, j + 1, k, o)
  }

  /** What the common memory holds at `o`: the byte that the host of the latest store there had set out to write, in
      the latest write it began; or the first byte, if nothing was stored there. */
  lemma LastByteIsWritten(n: nat, owner: nat, states: seq<State>, steps: seq<Step>, j: nat, k: nat, o: nat)
    returns (w: nat, b: nat)
    requires Run(n, owner, states, steps) && k <= |steps| && o < |states[0].last|
    requires LatestStore(states, steps, j, k, o)
    ensures o < |states[k].last| && states[k].last[o] == b && LatestWrite(steps, w, j, steps[j].h, Edit(o, b))
  {
    var g := StateAt(n, owner, states, steps, j);
    var h, e := steps[j].h, states[j].hosts[steps[j].h].pc.e;
    b := e.byte;
    w := EditIsWritten(n, owner, states, steps, j, h, e);
    LengthStays(n, owner, states, steps, j);
    StoreLands(states[j], h);
    LastStays(n, owner, states, steps, j + 1, k, o);
  }

  /** In a run whose stores are made alone, a host with access finds at each offset the byte that the latest store
      there was to write, and before any store what the owner had there. */
  lemma ReadersSeeWrites(n: nat, owner: nat, states: seq<State>, steps: seq<Step>, i: nat, o: nat)
    requires Run(n, owner, states, steps) && forall k: nat | k < |steps| :: LoneAt(states, steps, k)
    requires i < |states[|steps|].hosts| && states[|steps|].hosts[i].access != NoAccess && o < |states[0].last|
    ensures var mem := states[|steps|].hosts[i].mem;
            && |mem| == |states[0].last|
            && (forall j: nat | LatestStore(states, steps, j, |steps|, o) ::
                  exists w: nat :: LatestWrite(steps, w, j, steps[j].h, Edit(o, mem[o])))
            && (Untouched(states, steps, 0, |steps|, o) ==> mem[o] == states[0].last[o])
  {
    var k := |steps|;
    DataCoherence(n, owner, states, steps);
    LengthStays(n, owner, states, steps, k);
    forall j: nat | LatestStore(states, steps, j, k, o)
      ensures exists w: nat :: LatestWrite(steps, w, j, steps[j].h, Edit(o, states[k].hosts[i].mem[o]))
    {
      var w, b := LastByteIsWritten(n, owner, states, steps, j, k, o);
    }
    if Untouched(states, steps, 0, k, o) {
      LastStays(n, owner, states, steps, 0, k, o);
    }
  }
}
