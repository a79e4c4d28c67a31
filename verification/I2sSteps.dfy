/** Steps of the stream, one after the other: lemmas that lead from one state of a run to another.
    They are about any set of states that is closed under the steps, so about those of all runs. */
module I2sSteps {
  import opened Bytes
  import opened I2sMachine
  import opened I2sStream

  /** Closed under all steps but those in which the caller gives up. */
  ghost predicate Closed(R: iset<State>) {
    forall s, a :: s in R && Enabled(s, a) && a != Main(true) ==> Step(s, a) in R
  }

  /** Closed under those, too. */
  ghost predicate Impatient(R: iset<State>) {
    Closed(R) && forall s :: s in R && Enabled(s, Main(true)) ==> Step(s, Main(true)) in R
  }

  lemma Go(R: iset<State>, s: State, a: Action) returns (t: State)
    requires Closed(R) && s in R && Enabled(s, a) && a != Main(true)
    ensures t == Step(s, a) && t in R
  {
    t := Step(s, a);
  }

  predicate Ready(s: State) { Shaped(s) && s.isr == NoIsr && !s.error }

  lemma Main1(R: iset<State>, s: State) returns (t: State)
    requires Closed(R) && s in R && Ready(s) && s.pc != Out && s.pc != WReturn && !s.pc.DReturn?
    ensures t == MainStep(s, false) && t in R
  {
    t := Go(R, s, Main(false));
  }

  lemma EnterWrite(R: iset<State>, s: State, b: byte) returns (t: State)
    requires Closed(R) && s in R && Ready(s) && s.pc == Out
    ensures t == s.(pc := WReclaim(Test), src := [b], written := 0, base := s.accepted) && t in R
  {
    t := Go(R, s, CallWrite([b]));
    t := Main1(R, t);
    t := Main1(R, t);
  }

  lemma TailUnsent(R: iset<State>, s: State) returns (t: State)
    requires Closed(R) && s in R && Ready(s) && (s.pc == WReclaim(Test) || s.pc == DReclaim(Test))
    requires s.queued > 0 ==> s.descs[s.tail].ownerDma
    ensures t == s.(pc := if s.pc.WReclaim? then WReclaim(Stop) else DReclaim(Stop)) && t in R
  {
    t := Main1(R, s);
  }

  lemma StopReclaim(R: iset<State>, s: State) returns (t: State)
    requires Closed(R) && s in R && Ready(s) && (s.pc == WReclaim(Stop) || s.pc == DReclaim(Stop))
    requires s.queued == 0 ==> !s.started
    ensures t == s.(pc := if s.pc.WReclaim? then WFull else RError(DResumed)) && t in R
  {
    t := Main1(R, s);
  }

  lemma NothingToReclaim(R: iset<State>, s: State) returns (t: State)
    requires Closed(R) && s in R && Ready(s) && (s.pc == WReclaim(Test) || s.pc == DReclaim(Test))
    requires s.queued > 0 ==> s.descs[s.tail].ownerDma
    requires s.queued == 0 ==> !s.started
    ensures t == s.(pc := if s.pc.WReclaim? then WFull else RError(DResumed)) && t in R
  {
    t := TailUnsent(R, s);
    t := StopReclaim(R, t);
  }

  /** A buffer whose first byte is `b`. */
  function With(b: byte, data: seq<byte>): seq<byte>
    requires data != []
  {
    [b] + data[1..]
  }

  lemma CopyByte(R: iset<State>, s: State, b: byte) returns (t: State)
    requires Closed(R) && s in R && Ready(s) && s.pc == WFull && s.size > 0
    requires s.queued < s.count && |s.descs[s.head].data| == s.size && s.src == [b] && s.written == 0
    ensures t == s.(pc := WLock(1), descs := s.descs[s.head := s.descs[s.head].(data := With(b, s.descs[s.head].data))])
    ensures t in R
  {
    t := Main1(R, s);
    assert s.src[0..1] == [b];
    t := Main1(R, t);
  }

  /** A filled descriptor while the DMA owns it, and when it is sent. */
  function Filled(data: seq<byte>): Desc { Desc(true, true, 1, NULL, data) }
  function Sent(data: seq<byte>): Desc { Desc(false, true, 1, NULL, data) }

  lemma FillByte(R: iset<State>, s: State, data: seq<byte>) returns (t: State)
    requires Closed(R) && s in R && Ready(s) && s.pc == WLock(1) && s.descs[s.head].data == data
    ensures t == s.(pc := WOwn(1), descs := s.descs[s.head := Sent(data)]) && t in R
  {
    t := Main1(R, s);
    t := Main1(R, t);
    assert t == s.(pc := WFields(1), descs := s.descs[s.head := Desc(false, false, 0, NULL, data)]);
    t := Main1(R, t);
  }

  lemma OwnByte(R: iset<State>, s: State, b: byte, data: seq<byte>) returns (t: State)
    requires Closed(R) && s in R && Ready(s) && s.pc == WOwn(1) && s.descs[s.head] == Sent(data)
    requires |data| > 0 && data[0] == b
    ensures t == s.(pc := WLink(1), descs := s.descs[s.head := Filled(data)], accepted := s.accepted + [[b]]) && t in R
  {
    assert data[..1] == [b];
    t := Main1(R, s);
  }

  /** A write of one byte up to the copy, with nothing to reclaim. */
  lemma WriteUpToCopy(R: iset<State>, s: State, b: byte) returns (t: State)
    requires Closed(R) && s in R && Ready(s) && s.pc == Out && s.size > 0
    requires s.queued < s.count && |s.descs[s.head].data| == s.size
    requires s.queued > 0 ==> s.descs[s.tail].ownerDma
    requires s.queued == 0 ==> !s.started
    ensures t in R
    ensures t == s.(pc := WLock(1), descs := s.descs[s.head := s.descs[s.head].(data := With(b, s.descs[s.head].data))],
                    src := [b], written := 0, base := s.accepted)
  {
    var u := EnterWrite(R, s, b);
    var v := NothingToReclaim(R, u);
    t := CopyByte(R, v, b);
  }

  /** The same up to the link. */
  lemma WriteUpToLink(R: iset<State>, s: State, b: byte, data: seq<byte>) returns (t: State)
    requires Closed(R) && s in R && Ready(s) && s.pc == Out && s.size > 0
    requires s.queued < s.count && |s.descs[s.head].data| == s.size && data == With(b, s.descs[s.head].data)
    requires s.queued > 0 ==> s.descs[s.tail].ownerDma
    requires s.queued == 0 ==> !s.started
    ensures t in R
    ensures t == s.(pc := WLink(1), descs := s.descs[s.head := Filled(data)],
                    src := [b], written := 0, base := s.accepted, accepted := s.accepted + [[b]])
  {
    var u := WriteUpToCopy(R, s, b);
    var v := FillByte(R, u, data);
    assert v.descs == s.descs[s.head := Sent(data)];
    t := OwnByte(R, v, b, data);
    assert t.descs == s.descs[s.head := Filled(data)];
  }

  /** The end of a write that leaves the queue below the prefill threshold. */
  lemma CountFirst(R: iset<State>, s: State) returns (t: State)
    requires Closed(R) && s in R && Ready(s) && s.pc == WLink(1) && s.queued == 0
    ensures t == s.(pc := TError, head := Succ(s.count, s.head), queued := 1, written := s.written + 1) && t in R
  {
    t := Main1(R, s);
    t := Main1(R, t);
  }

  lemma BelowPrefill(R: iset<State>, s: State) returns (t: State)
    requires Closed(R) && s in R && Ready(s) && s.pc == TError && s.queued == 1 && s.count >= 2 && s.written >= |s.src|
    ensures t == s.(pc := Out) && t in R
  {
    t := Main1(R, s);
    t := Main1(R, t);
    t := Main1(R, t);
    t := Go(R, t, Return);
  }

  lemma EnterDrain(R: iset<State>, s: State) returns (t: State)
    requires Closed(R) && s in R && Ready(s) && s.pc == Out
    ensures t == s.(pc := DError, src := [], written := 0, base := s.accepted) && t in R
  {
    t := Go(R, s, CallDrain);
    t := Main1(R, t);
  }

  lemma DrainToStart(R: iset<State>, s: State) returns (t: State)
    requires Closed(R) && s in R && Ready(s) && s.pc == DError && !s.started && s.queued > 0
    ensures t == s.(pc := SCheck(DReclaim(Test))) && t in R
  {
    t := Main1(R, s);
    t := Main1(R, t);
    assert t == s.(pc := DQueued);
    t := QueuedToStart(R, t);
  }

  lemma QueuedToStart(R: iset<State>, s: State) returns (t: State)
    requires Closed(R) && s in R && Ready(s) && s.pc == DQueued && s.queued > 0
    ensures t == s.(pc := SCheck(DReclaim(Test))) && t in R
  {
    t := Main1(R, s);
  }

  lemma LatchTail(R: iset<State>, s: State, ret: Pc) returns (t: State)
    requires Closed(R) && s in R && Ready(s) && s.pc == SCheck(ret) && s.queued > 0
    ensures t == s.(pc := SDesc(ret), dma := Parked, descError := false) && t in R
  {
    t := Main1(R, s);
    t := Main1(R, t);
  }

  lemma RunTail(R: iset<State>, s: State, ret: Pc) returns (t: State)
    requires Closed(R) && s in R && Ready(s) && s.pc == SDesc(ret) && s.descs[s.tail].ownerDma
    ensures t == s.(pc := SMark(ret), dma := Running(s.tail)) && t in R
  {
    t := Main1(R, s);
    t := Main1(R, t);
  }

  /** A start sets the DMA running at a DMA-owned tail. */
  lemma StartDma(R: iset<State>, s: State, ret: Pc) returns (t: State)
    requires Closed(R) && s in R && Ready(s) && s.pc == SCheck(ret) && s.queued > 0 && s.descs[s.tail].ownerDma
    ensures t == s.(pc := SMark(ret), dma := Running(s.tail), descError := false) && t in R
  {
    t := LatchTail(R, s, ret);
    t := RunTail(R, t, ret);
  }

  lemma MarkStarted(R: iset<State>, s: State, ret: Pc) returns (t: State)
    requires Closed(R) && s in R && Ready(s) && s.pc == SMark(ret)
    ensures t == s.(pc := ret, started := true) && t in R
  {
    t := Main1(R, s);
    t := Main1(R, t);
  }

  lemma ToIdleTest(R: iset<State>, s: State, ret: Pc) returns (t: State)
    requires Closed(R) && s in R && Ready(s) && s.pc == RError(ret) && s.queued > 0
    ensures t == s.(pc := RIdle(ret)) && t in R
  {
    t := Main1(R, s);
    t := Main1(R, t);
  }

  /** A parked channel is to be started again. */
  lemma Unpark(R: iset<State>, s: State, ret: Pc) returns (t: State)
    requires Closed(R) && s in R && Ready(s) && s.pc == RIdle(ret) && s.dma == Parked
    ensures t == s.(pc := SCheck(ret), started := false) && t in R
  {
    t := Main1(R, s);
    t := Main1(R, t);
  }

  lemma DrainChecks(R: iset<State>, s: State) returns (t: State)
    requires Closed(R) && s in R && Ready(s) && s.pc == RIdle(DResumed) && s.dma != Parked && s.queued > 0
    ensures t == s.(pc := DLoop) && t in R
  {
    t := Main1(R, s);
    assert t == s.(pc := DResumed);
    t := NotDrained(R, t);
  }

  lemma NotDrained(R: iset<State>, s: State) returns (t: State)
    requires Closed(R) && s in R && Ready(s) && s.pc == DResumed && s.queued > 0
    ensures t == s.(pc := DLoop) && t in R
  {
    t := Main1(R, s);
    assert t == s.(pc := DEmpty);
    t := Main1(R, t);
  }

  lemma DrainGivesUp(R: iset<State>, s: State) returns (t: State)
    requires Impatient(R) && s in R && Ready(s) && s.pc == DLoop
    ensures t == s.(pc := Out) && t in R
  {
    t := Step(s, Main(true));
    t := Go(R, t, Return);
  }

  function Zeros(n: nat): seq<byte> { seq(n, i => 0) }

  function Buffer(b: byte, size: nat): (d: seq<byte>)
    requires size > 0
    ensures |d| == size && d[0] == b && d == With(b, Zeros(size))
  {
    [b] + Zeros(size)[1..]
  }

  lemma FirstByteWritten(R: iset<State>, count: nat, size: nat) returns (s: State)
    requires Closed(R) && 1 <= count <= MAX_BUFFERS && size > 0 && Begin(count, size) in R
    ensures s in R
    ensures s == Begin(count, size).(descs := Begin(count, size).descs[0 := Filled(Buffer(1, size))], pc := TError,
                                     head := Succ(count, 0), queued := 1, src := [1], written := 1, accepted := [[1]])
  {
    s := Begin(count, size);
    assert s.descs[0].data == Zeros(size);
    s := WriteUpToLink(R, s, 1, Buffer(1, size));
    s := CountFirst(R, s);
  }

  lemma FirstByteQueued(R: iset<State>, count: nat, size: nat) returns (s: State)
    requires Closed(R) && 2 <= count <= MAX_BUFFERS && size > 0 && Begin(count, size) in R
    ensures s in R
    ensures s == Begin(count, size).(descs := Begin(count, size).descs[0 := Filled(Buffer(1, size))],
                                     head := 1, queued := 1, src := [1], written := 1, accepted := [[1]])
  {
    s := FirstByteWritten(R, count, size);
    s := BelowPrefill(R, s);
  }

  /** One byte is queued below the prefill threshold; a drain starts the DMA and gives up. */
  lemma FirstByteRunning(R: iset<State>, count: nat, size: nat) returns (s: State)
    requires Impatient(R) && 2 <= count <= MAX_BUFFERS && size > 0 && Begin(count, size) in R
    ensures s in R
    ensures s == State(count, size, Begin(count, size).descs[0 := Filled(Buffer(1, size))],
                       1, 0, 1, true, false, Running(0), false, Out, NoIsr, [], 0, [[1]], [[1]], [])
  {
    s := FirstByteQueued(R, count, size);
    s := EnterDrain(R, s);
    s := DrainToStart(R, s);
    s := StartDma(R, s, DReclaim(Test));
    s := DrainTimesOut(R, s);
  }

  lemma DrainTimesOut(R: iset<State>, s: State) returns (t: State)
    requires Impatient(R) && s in R && Ready(s) && s.pc == SMark(DReclaim(Test))
    requires s.queued > 0 && s.descs[s.tail].ownerDma && s.dma != Parked
    ensures t == s.(pc := Out, started := true) && t in R
  {
    t := MarkStarted(R, s, DReclaim(Test));
    t := NothingToReclaim(R, t);
    t := ToIdleTest(R, t, DResumed);
    t := DrainChecks(R, t);
    t := DrainGivesUp(R, t);
  }

  /** The states of the runs with these buffers. */
  ghost function Reached(count: nat, size: nat): iset<State> {
    iset run | From(run, count, size) && After(run).Some? :: After(run).value
  }

  lemma ReachedClosed(count: nat, size: nat)
    requires 1 <= count <= MAX_BUFFERS && size > 0
    ensures Impatient(Reached(count, size)) && Begin(count, size) in Reached(count, size)
  {
    assert After(Start(count, size)).value == Begin(count, size) && From(Start(count, size), count, size);
    forall s, a | s in Reached(count, size) && Enabled(s, a)
      ensures Step(s, a) in Reached(count, size)
    {
      var r :| From(r, count, size) && After(r) == Some(s);
      assert From(Then(r, a), count, size) && After(Then(r, a)) == Some(Step(s, a));
    }
  }
}
