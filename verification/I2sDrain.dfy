/** Drains that report success: from every state in which everything is sent, and a whole run. */
module I2sDrain {
  import opened Bytes
  import opened I2sMachine
  import opened I2sShape
  import opened I2sStream
  import opened I2sSteps
  import opened I2sSpentTail

  // ---------------------------------------------------------------------------------------------
  // Calls that nothing disturbs

  /** The run goes on with steps of the caller alone, and it does not give up. */
  predicate Alone(run: Run, r: Run) { r == run || (r.Then? && r.a == Main(false) && Alone(run, r.before)) }

  lemma {:induction false} AloneOn(run: Run, mid: Run, r: Run)
    requires Alone(run, mid) && Alone(mid, r)
    ensures Alone(run, r)
  {
    if r != mid { AloneOn(run, mid, r.before); }
  }

  lemma Goes(run: Run, s: State) returns (r: Run)
    requires After(run) == Some(s) && Shaped(s) && s.isr == NoIsr && s.pc != Out && s.pc != WReturn && !s.pc.DReturn?
    ensures Alone(run, r) && After(r) == Some(MainStep(s, false))
  {
    r := Then(run, Main(false));
    assert Alone(run, run);
  }

  lemma GoesTwice(run: Run, s: State, t: State, u: State) returns (r: Run)
    requires After(run) == Some(s) && Shaped(s) && s.isr == NoIsr && s.pc != Out && s.pc != WReturn && !s.pc.DReturn?
    requires t == MainStep(s, false) && Shaped(t) && t.isr == NoIsr && t.pc != Out && t.pc != WReturn && !t.pc.DReturn?
    requires u == MainStep(t, false)
    ensures Alone(run, r) && After(r) == Some(u)
  {
    var mid := Goes(run, s);
    r := Goes(mid, t);
    AloneOn(run, mid, r);
  }

  // ---------------------------------------------------------------------------------------------
  // The reclaim of a drain

  lemma ReclaimElsewhere(s: State, stage: Stage, pc: Pc)
    requires Shaped(s)
    ensures var p := s.(pc := pc);
            ReclaimStep(p, stage) == (ReclaimStep(s, stage).0.(pc := pc), ReclaimStep(s, stage).1)
  {
  }

  /** A whole reclaim does not depend on the program point. */
  lemma {:induction false} ReclaimAtPc(s: State, stage: Stage, pc: Pc)
    requires Shaped(s) && (Active(stage) ==> s.queued > 0)
    ensures ReclaimFrom(s.(pc := pc), stage) == ReclaimFrom(s, stage).(pc := pc)
    decreases s.queued, Rank(stage)
  {
    ReclaimElsewhere(s, stage, pc);
    var next := ReclaimStep(s, stage).1;
    if next != None {
      ReclaimAtPc(ReclaimStep(s, stage).0, next.value, pc);
    }
  }

  /** The program point with another stage, and the one behind the reclaim. */
  function AtStage(pc: Pc, stage: Stage): Pc
    requires Reclaiming(pc)
  {
    match pc
    case WReclaim(_) => WReclaim(stage)
    case WReclaimAgain(_) => WReclaimAgain(stage)
    case _ => DReclaim(stage)
  }

  function Behind(pc: Pc): Pc
    requires Reclaiming(pc)
  {
    match pc case WReclaim(_) => WFull case WReclaimAgain(_) => RError(WResumed) case _ => RError(DResumed)
  }

  lemma ReclaimGoes(s: State, stage: Stage)
    requires Shaped(s) && Reclaiming(s.pc) && s.pc.stage == stage
    ensures var (r, next) := ReclaimStep(s, stage);
            LockedReclaimStep(s) == r.(pc := if next == None then Behind(s.pc) else AtStage(s.pc, next.value))
  {
  }

  /** The reclaim of a call, undisturbed, is a whole reclaim. */
  lemma {:induction false} ReclaimAlone(run: Run, s: State, stage: Stage) returns (r: Run)
    requires After(run) == Some(s) && Shaped(s) && s.isr == NoIsr && Reclaiming(s.pc) && s.pc.stage == stage
    requires Active(stage) ==> s.queued > 0
    ensures Alone(run, r) && After(r) == Some(ReclaimFrom(s, stage).(pc := Behind(s.pc)))
    decreases s.queued, Rank(stage)
  {
    var t, next := ReclaimStep(s, stage).0, ReclaimStep(s, stage).1;
    ReclaimFrame(s, stage);
    ReclaimGoes(s, stage);
    var mid := Goes(run, s);
    if next == None {
      r := mid;
    } else {
      r := ReclaimAlone(mid, t.(pc := AtStage(s.pc, next.value)), next.value);
      ReclaimAtPc(t, next.value, AtStage(s.pc, next.value));
      AloneOn(run, mid, r);
    }
  }

  // ---------------------------------------------------------------------------------------------
  // Drains

  /** Everything queued is sent, and the channel is parked or stopped. */
  predicate AllSent(s: State) {
    && Shaped(s) && s.queued <= s.count && (forall i :: 0 <= i < s.queued ==> !s.descs[SlotAt(s, i)].ownerDma)
    && (if s.started then s.dma == Parked else s.queued == 0)
  }

  lemma ReclaimsAll(s: State)
    requires AllSent(s)
    ensures var r := ReclaimFrom(s, Test); Shaped(r) && r.queued == 0 && !r.started
  {
    var j := ReclaimFreesPrefix(s);
    assert j == s.queued;
  }

  lemma {:induction false} ReclaimFromFrame(s: State, stage: Stage)
    requires Shaped(s) && (Active(stage) ==> s.queued > 0)
    ensures var r := ReclaimFrom(s, stage);
            Shaped(r) && r == s.(descs := r.descs, tail := r.tail, queued := r.queued, started := r.started)
    decreases s.queued, Rank(stage)
  {
    ReclaimFrame(s, stage);
    if ReclaimStep(s, stage).1 != None {
      ReclaimFromFrame(ReclaimStep(s, stage).0, ReclaimStep(s, stage).1.value);
    }
  }

  /** From the call to the reclaim. */
  lemma DrainBegins(run: Run, s: State) returns (r: Run)
    requires After(run) == Some(s) && Ready(s) && s.pc == DLoop && (s.started || s.queued == 0)
    ensures Alone(run, r) && After(r) == Some(s.(pc := DReclaim(Test)))
  {
    var mid := LooksAtError(run, s);
    r := LooksAtStarted(mid, s.(pc := DStarted));
    AloneOn(run, mid, r);
  }

  lemma LooksAtError(run: Run, s: State) returns (r: Run)
    requires After(run) == Some(s) && Ready(s) && s.pc == DLoop
    ensures Alone(run, r) && After(r) == Some(s.(pc := DStarted))
  {
    r := GoesTwice(run, s, s.(pc := DError), s.(pc := DStarted));
  }

  lemma LooksAtStarted(run: Run, s: State) returns (r: Run)
    requires After(run) == Some(s) && Ready(s) && s.pc == DStarted && (s.started || s.queued == 0)
    ensures Alone(run, r) && After(r) == Some(s.(pc := DReclaim(Test)))
  {
    if s.started {
      r := Goes(run, s);
    } else {
      r := NothingToStart(run, s);
    }
  }

  lemma NothingToStart(run: Run, s: State) returns (r: Run)
    requires After(run) == Some(s) && Ready(s) && s.pc == DStarted && !s.started && s.queued == 0
    ensures Alone(run, r) && After(r) == Some(s.(pc := DReclaim(Test)))
  {
    var mid := Goes(run, s);
    assert MainStep(s, false) == s.(pc := DQueued);
    r := Goes(mid, s.(pc := DQueued));
    AloneOn(run, mid, r);
  }

  /** From the reclaim to the end, with nothing left. */
  lemma DrainEnds(run: Run, s: State) returns (r: Run)
    requires After(run) == Some(s) && Ready(s) && s.pc == RError(DResumed) && s.queued == 0 && !s.started
    ensures Alone(run, r) && After(r) == Some(s.(pc := DReturn(true)))
  {
    var mid := NothingToResume(run, s);
    r := FindsNothing(mid, s.(pc := DResumed));
    AloneOn(run, mid, r);
  }

  lemma NothingToResume(run: Run, s: State) returns (r: Run)
    requires After(run) == Some(s) && Ready(s) && s.pc == RError(DResumed) && s.queued == 0
    ensures Alone(run, r) && After(r) == Some(s.(pc := DResumed))
  {
    r := GoesTwice(run, s, s.(pc := RQueued(DResumed)), s.(pc := DResumed));
  }

  lemma FindsNothing(run: Run, s: State) returns (r: Run)
    requires After(run) == Some(s) && Ready(s) && s.pc == DResumed && s.queued == 0 && !s.started
    ensures Alone(run, r) && After(r) == Some(s.(pc := DReturn(true)))
  {
    var mid := FindsNoError(run, s);
    var end := FindsEmpty(mid, s.(pc := DEmpty));
    r := FindsStopped(end, s.(pc := DStopped));
    AloneOn(run, mid, end);
    AloneOn(run, end, r);
  }

  lemma FindsNoError(run: Run, s: State) returns (r: Run)
    requires After(run) == Some(s) && Ready(s) && s.pc == DResumed
    ensures Alone(run, r) && After(r) == Some(s.(pc := DEmpty))
  {
    r := Goes(run, s);
  }

  lemma FindsEmpty(run: Run, s: State) returns (r: Run)
    requires After(run) == Some(s) && Ready(s) && s.pc == DEmpty && s.queued == 0
    ensures Alone(run, r) && After(r) == Some(s.(pc := DStopped))
  {
    r := Goes(run, s);
  }

  lemma FindsStopped(run: Run, s: State) returns (r: Run)
    requires After(run) == Some(s) && Ready(s) && s.pc == DStopped && !s.started
    ensures Alone(run, r) && After(r) == Some(s.(pc := DReturn(true)))
  {
    r := Goes(run, s);
  }

  lemma DrainFromReclaim(run: Run, s: State) returns (r: Run)
    requires After(run) == Some(s) && Ready(s) && s.pc == DReclaim(Test) && AllSent(s)
    ensures Alone(run, r) && After(r).Some?
    ensures var t := After(r).value;
            t.pc == DReturn(true) && t.queued == 0 && t.sent == s.sent && t.accepted == s.accepted
  {
    var mid := ReclaimAlone(run, s, Test);
    ReclaimsAll(s);
    ReclaimFromFrame(s, Test);
    r := DrainEnds(mid, ReclaimFrom(s, Test).(pc := RError(DResumed)));
    AloneOn(run, mid, r);
  }

  lemma Called(run: Run, s: State) returns (t: State)
    requires After(run) == Some(s) && Ready(s) && s.pc == Out && AllSent(s)
    ensures t == s.(pc := DLoop, src := [], written := 0, base := s.accepted)
    ensures After(Then(run, CallDrain)) == Some(t) && AllSent(t) && AllSent(t.(pc := DReclaim(Test)))
  {
    t := s.(pc := DLoop, src := [], written := 0, base := s.accepted);
    SameSent(s, t);
    SameSent(s, t.(pc := DReclaim(Test)));
  }

  lemma SameSent(s: State, t: State)
    requires AllSent(s) && t == s.(pc := t.pc, src := t.src, written := t.written, base := t.base)
    ensures AllSent(t)
  {
    forall i | 0 <= i < t.queued
      ensures !t.descs[SlotAt(t, i)].ownerDma
    {
      assert SlotAt(t, i) == SlotAt(s, i);
    }
  }

  /** In every run, when no call is in progress, there is no error, and everything queued is sent: a
      drain that nothing disturbs returns true, without waiting, and leaves nothing queued. */
  lemma QuietDrainSucceeds(run: Run) returns (r: Run)
    requires After(run).Some? && After(run).value.pc == Out && After(run).value.isr == NoIsr && !After(run).value.error
    requires AllSent(After(run).value)
    ensures Alone(Then(run, CallDrain), r) && After(r).Some?
    ensures var s, t := After(run).value, After(r).value;
            t.pc == DReturn(true) && t.queued == 0 && t.sent == s.sent && t.accepted == s.accepted
  {
    var call := Then(run, CallDrain);
    var t := Called(run, After(run).value);
    var mid := DrainBegins(call, t);
    r := DrainFromReclaim(mid, t.(pc := DReclaim(Test)));
    AloneOn(call, mid, r);
  }

  // ---------------------------------------------------------------------------------------------
  // A run in which nobody gives up

  predicate Patient(run: Run) { run.Then? ==> run.a != Main(true) && Patient(run.before) }

  lemma {:induction false} AlonePatient(run: Run, r: Run)
    requires Patient(run) && Alone(run, r)
    ensures Patient(r)
  {
    if r != run { AlonePatient(run, r.before); }
  }

  lemma {:induction false} AloneFrom(run: Run, r: Run, count: nat, size: nat)
    requires From(run, count, size) && Alone(run, r)
    ensures From(r, count, size)
  {
    if r != run { AloneFrom(run, r.before, count, size); }
  }

  /** The states of the runs in which nobody gives up. */
  ghost function PatientlyReached(count: nat, size: nat): iset<State> {
    iset run | From(run, count, size) && Patient(run) && After(run).Some? :: After(run).value
  }

  lemma PatientClosed(count: nat, size: nat)
    requires 1 <= count <= MAX_BUFFERS && size > 0
    ensures Closed(PatientlyReached(count, size)) && Begin(count, size) in PatientlyReached(count, size)
  {
    assert After(Start(count, size)).value == Begin(count, size) && From(Start(count, size), count, size);
    forall s, a | s in PatientlyReached(count, size) && Enabled(s, a) && a != Main(true)
      ensures Step(s, a) in PatientlyReached(count, size)
    {
      var r :| From(r, count, size) && Patient(r) && After(r) == Some(s);
      assert From(Then(r, a), count, size) && Patient(Then(r, a)) && After(Then(r, a)) == Some(Step(s, a));
    }
  }

  /** One byte is being sent, and a drain is about to reclaim. */
  predicate OneInDrain(s: State) {
    && Ready(s) && s.size > 0 && s.pc == DReclaim(Test) && s.queued == 1 && s.started
    && s.dma == Running(0) && s.tail == 0 && s.descs[0] == Filled(Buffer(1, s.size))
    && s.accepted == [[1]] && s.sent == []
  }

  lemma OneBufferInDrain(R: iset<State>, size: nat) returns (s: State)
    requires Closed(R) && size > 0 && Begin(1, size) in R
    ensures s in R && OneInDrain(s)
  {
    s := FirstByteWritten(R, 1, size);
    s := StartsAtOnce(R, s);
    s := StartDma(R, s, WLoop);
    s := MarkStarted(R, s, WLoop);
    s := WriteReturns(R, s);
    s := EnterDrain(R, s);
    s := DrainToReclaim(R, s);
  }

  lemma MoreBuffersInDrain(R: iset<State>, count: nat, size: nat) returns (s: State)
    requires Closed(R) && 2 <= count <= MAX_BUFFERS && size > 0 && Begin(count, size) in R
    ensures s in R && OneInDrain(s)
  {
    s := FirstByteQueued(R, count, size);
    s := EnterDrain(R, s);
    s := DrainToStart(R, s);
    s := StartDma(R, s, DReclaim(Test));
    s := MarkStarted(R, s, DReclaim(Test));
  }

  /** One byte written, sent, and the channel parked, in the drain's reclaim. */
  lemma SentInDrain(R: iset<State>, count: nat, size: nat) returns (s: State)
    requires Closed(R) && 1 <= count <= MAX_BUFFERS && size > 0 && Begin(count, size) in R
    ensures s in R && Ready(s) && s.pc == DReclaim(Test) && AllSent(s) && s.sent == s.accepted == [[1]]
  {
    if count == 1 {
      s := OneBufferInDrain(R, size);
    } else {
      s := MoreBuffersInDrain(R, count, size);
    }
    s := SendsAndParks(R, s);
    assert SlotAt(s, 0) == 0;
  }

  /** For every legal number and size of buffers, a run in which a byte is written and a drain returns
      true with everything sent, though nobody gives up waiting. */
  lemma DrainSucceeds(count: nat, size: nat) returns (run: Run)
    requires 1 <= count <= MAX_BUFFERS && size > 0
    ensures From(run, count, size) && Patient(run) && After(run).Some?
    ensures var s := After(run).value; s.pc == DReturn(true) && s.queued == 0 && s.sent == s.accepted == [[1]]
  {
    PatientClosed(count, size);
    var s := SentInDrain(PatientlyReached(count, size), count, size);
    var before :| From(before, count, size) && Patient(before) && After(before) == Some(s);
    run := DrainFromReclaim(before, s);
    AlonePatient(before, run);
    AloneFrom(before, run, count, size);
  }
}
