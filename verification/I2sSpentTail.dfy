/** A start at a tail that is already sent: the descriptor error it raises, and a run in which a drain
    fails on it although everything was sent. */
module I2sSpentTail {
  import opened Bytes
  import opened I2sMachine
  import opened I2sShape
  import opened I2sStream
  import opened I2sSteps

  /** A start raises a descriptor error exactly when the descriptor at the tail is not the DMA's. In a
      run without a lost write-back that is when nothing is queued or the tail is already sent. */
  lemma StartErrsExactly(run: Run, fails: bool)
    requires After(Then(run, Main(fails))).Some? && NoLostWriteBack(run) && After(run).value.pc.SGo?
    ensures var s, t := After(run).value, After(Then(run, Main(fails))).value;
            && Shaped(s) && (t.descError <==> !s.descs[s.tail].ownerDma)
            && (t.descError <==> s.queued == 0 || |s.accepted| - |s.sent| < s.queued)
  {
    var s := After(run).value;
    RunInv(run);
    StartErrs(s, fails);
    assert After(Then(run, Main(fails))).value == MainStep(s, fails);
  }

  lemma StartErrs(s: State, fails: bool)
    requires Inv(s) && Enabled(s, Main(fails)) && s.pc.SGo?
    ensures MainStep(s, fails).descError <==> !s.descs[s.tail].ownerDma
    ensures MainStep(s, fails).descError <==> s.queued == 0 || |s.accepted| - |s.sent| < s.queued
  {
    TailOwner(RingOf(s), HistoryOf(s));
    StartAtTail(s, fails);
    assert MainStep(s, fails) == StartStep(s, fails) && RingOf(s).n == s.queued;
  }

  /** The DMA owns the tail exactly when it is queued and not sent. */
  lemma TailOwner(g: Ring, h: History)
    requires DataInv(g, h)
    ensures g.descs[g.tail].ownerDma <==> g.n > 0 && Done(g, h) == 0
  {
    assert DataOk(g, h, g.tail);
  }

  lemma StartAtTail(s: State, fails: bool)
    requires Shaped(s) && WindowInv(s) && s.pc.SGo?
    ensures StartStep(s, fails).descError <==> !s.descs[s.tail].ownerDma
  {
  }

  /** One byte is queued and the DMA is sending it; no call is in progress. */
  predicate OneRunning(s: State) {
    && Ready(s) && s.size > 0 && !s.descError && s.pc == Out && s.queued == 1 && s.started
    && s.dma == Running(0) && s.tail == 0 && s.descs[0] == Filled(Buffer(1, s.size))
    && s.accepted == [[1]] && s.sent == []
  }

  /** With one buffer the write that fills it starts the DMA. */
  lemma StartsAtOnce(R: iset<State>, s: State) returns (t: State)
    requires Closed(R) && s in R && Ready(s) && s.pc == TError && s.count == 1 && s.queued == 1 && !s.started
    ensures t == s.(pc := SCheck(WLoop)) && t in R
  {
    t := Main1(R, s);
    t := Main1(R, t);
    assert t == s.(pc := TStarted);
    t := Main1(R, t);
  }

  lemma WriteReturns(R: iset<State>, s: State) returns (t: State)
    requires Closed(R) && s in R && Ready(s) && s.pc == WLoop && s.written >= |s.src|
    ensures t == s.(pc := Out) && t in R
  {
    t := Main1(R, s);
    t := Go(R, t, Return);
  }

  lemma OneByteRunning(R: iset<State>, count: nat, size: nat) returns (s: State)
    requires Impatient(R) && 1 <= count <= MAX_BUFFERS && size > 0 && Begin(count, size) in R
    ensures s in R && OneRunning(s)
  {
    if count == 1 {
      s := FirstByteWritten(R, count, size);
      s := StartsAtOnce(R, s);
      s := StartDma(R, s, WLoop);
      s := MarkStarted(R, s, WLoop);
      s := WriteReturns(R, s);
    } else {
      s := FirstByteRunning(R, count, size);
    }
  }

  lemma DrainToReclaim(R: iset<State>, s: State) returns (t: State)
    requires Closed(R) && s in R && Ready(s) && s.pc == DError && s.started
    ensures t == s.(pc := DReclaim(Test)) && t in R
  {
    t := Main1(R, s);
    t := Main1(R, t);
  }

  /** A drain up to its look at the channel, with nothing to reclaim yet. */
  lemma DrainToIdleTest(R: iset<State>, s: State) returns (t: State)
    requires Closed(R) && s in R && OneRunning(s)
    ensures t == s.(pc := RIdle(DResumed), src := [], written := 0, base := s.accepted) && t in R
  {
    t := EnterDrain(R, s);
    t := DrainToReclaim(R, t);
    t := NothingToReclaim(R, t);
    t := ToIdleTest(R, t, DResumed);
  }

  /** Then the DMA sends the buffer and parks. */
  lemma SendsAndParks(R: iset<State>, s: State) returns (t: State)
    requires Closed(R) && s in R && Shaped(s) && s.size > 0 && s.dma == Running(0)
             && s.descs[0] == Filled(Buffer(1, s.size)) && s.sent == []
    ensures t == s.(dma := Parked, sent := [[1]], descs := s.descs[0 := I2sSteps.Sent(Buffer(1, s.size))]) && t in R
  {
    assert Buffer(1, s.size)[..1] == [1];
    var u := Go(R, s, Complete);
    assert u == s.(descs := s.descs[0 := I2sSteps.Sent(Buffer(1, s.size))], dma := Following(0), sent := [[1]]);
    t := Go(R, u, Follow);
  }

  /** The restart finds a tail that is not the DMA's. */
  lemma StartRefused(R: iset<State>, s: State, ret: Pc) returns (t: State)
    requires Closed(R) && s in R && Ready(s) && s.pc == SDesc(ret) && !s.descs[s.tail].ownerDma
    ensures t == s.(pc := SMark(ret), dma := Parked, descError := true) && t in R
  {
    t := Main1(R, s);
    t := Main1(R, t);
  }

  /** The handler reports the descriptor error, and the drain fails. */
  lemma ErrorReported(R: iset<State>, s: State) returns (t: State)
    requires Closed(R) && s in R && Ready(s) && s.pc == DResumed && s.descError
    ensures t == s.(pc := DReturn(false), descError := false, dma := Parked, started := false, error := true) && t in R
  {
    var u := Go(R, s, Interrupt);
    assert u == s.(descError := false, dma := Parked, started := false, error := true);
    t := Go(R, u, Main(false));
  }

  lemma DrainFails(R: iset<State>, s: State) returns (t: State)
    requires Closed(R) && s in R && OneRunning(s)
    ensures t in R && t.pc == DReturn(false) && t.error && t.sent == t.accepted == [[1]]
  {
    t := DrainToIdleTest(R, s);
    t := SendsAndParks(R, t);
    t := Unpark(R, t, DResumed);
    t := LatchTail(R, t, DResumed);
    t := StartRefused(R, t, DResumed);
    t := MarkStarted(R, t, DResumed);
    t := ErrorReported(R, t);
  }

  /** For every legal number and size of buffers, a run in which a drain returns false with the stream
      in error although everything accepted was sent: the DMA sends the last buffer and parks between
      the reclaim and the look at the channel, and the restart meets the sent tail. */
  lemma DrainFailsThoughSent(count: nat, size: nat) returns (run: Run)
    requires 1 <= count <= MAX_BUFFERS && size > 0
    ensures From(run, count, size) && After(run).Some?
    ensures var s := After(run).value; s.pc == DReturn(false) && s.error && s.sent == s.accepted == [[1]]
  {
    ReachedClosed(count, size);
    var s := OneByteRunning(Reached(count, size), count, size);
    s := DrainFails(Reached(count, size), s);
    run :| From(run, count, size) && After(run) == Some(s);
  }
}
