/** Starts and interrupts that nothing disturbs: what they leave behind, from every reachable state. */
module I2sStart {
  import opened Bytes
  import opened I2sMachine
  import opened I2sShape
  import opened I2sStream
  import opened I2sSteps
  import opened I2sCalls
  import opened I2sSpentTail
  import opened I2sDrain

  // ---------------------------------------------------------------------------------------------
  // Starts

  lemma StartGoes(run: Run, s: State, t: State) returns (r: Run)
    requires After(run) == Some(s) && Shaped(s) && s.isr == NoIsr && Starting(s.pc) && t == StartStep(s, false)
    ensures Alone(run, r) && After(r) == Some(t)
  {
    StartIsMain(s);
    r := Goes(run, s);
  }

  lemma StartIsMain(s: State)
    requires Shaped(s) && Starting(s.pc)
    ensures s.pc != Out && s.pc != WReturn && !s.pc.DReturn? && MainStep(s, false) == StartStep(s, false)
  {
  }

  /** Two steps of a start. */
  lemma StartGoesTwice(run: Run, s: State, t: State, u: State) returns (r: Run)
    requires After(run) == Some(s) && Shaped(s) && s.isr == NoIsr && Starting(s.pc) && t == StartStep(s, false)
    requires Shaped(t) && t.isr == NoIsr && Starting(t.pc) && u == StartStep(t, false)
    ensures Alone(run, r) && After(r) == Some(u)
  {
    var mid := StartGoes(run, s, t);
    r := StartGoes(mid, t, u);
    AloneOn(run, mid, r);
  }

  /** The channel started at the tail, which it takes exactly when it owns it. */
  function StartedAtTail(s: State, pc: Pc): State
    requires Shaped(s)
  {
    if s.descs[s.tail].ownerDma then
      s.(dma := Running(s.tail), descError := false, started := true, error := false, pc := pc)
    else s.(dma := Parked, descError := true, started := true, error := false, pc := pc)
  }

  /** The channel is given the tail. */
  function Given(s: State, ret: Pc): State
    requires Shaped(s)
  {
    if s.descs[s.tail].ownerDma then s.(dma := Running(s.tail), descError := false, pc := SMark(ret))
    else s.(dma := Parked, descError := true, pc := SMark(ret))
  }

  lemma Initialised(run: Run, s: State, ret: Pc) returns (r: Run)
    requires After(run) == Some(s) && Shaped(s) && s.isr == NoIsr && s.pc == SCheck(ret) && s.queued > 0
    ensures Alone(run, r) && After(r) == Some(s.(dma := Parked, descError := false, pc := SDesc(ret)))
  {
    r := StartGoesTwice(run, s, s.(pc := SInit(ret)), s.(dma := Parked, descError := false, pc := SDesc(ret)));
  }

  lemma TailGiven(run: Run, s: State, ret: Pc) returns (r: Run)
    requires After(run) == Some(s) && Shaped(s) && s.isr == NoIsr && s.pc == SDesc(ret) && !s.descError
    ensures Alone(run, r) && After(r) == Some(Given(s, ret))
  {
    r := StartGoesTwice(run, s, s.(pc := SGo(ret, s.tail)), Given(s, ret));
  }

  lemma Marked(run: Run, s: State, ret: Pc) returns (r: Run)
    requires After(run) == Some(s) && Shaped(s) && s.isr == NoIsr && s.pc == SMark(ret)
    ensures Alone(run, r) && After(r) == Some(s.(started := true, error := false, pc := ret))
  {
    r := StartGoesTwice(run, s, s.(started := true, pc := SClear(ret)), s.(started := true, error := false, pc := ret));
  }

  /** A start with nothing queued, or whose channel cannot be initialised, changes nothing. */
  lemma NoStart(run: Run, s: State, ret: Pc, fails: bool)
    requires After(run) == Some(s) && Shaped(s) && s.isr == NoIsr && s.pc == SCheck(ret) && (s.queued == 0 || fails)
    ensures After(Then(run, Main(fails))) == Some(s.(pc := ret))
  {
  }

  /** A start with something queued. */
  lemma StartAlone(run: Run, s: State, ret: Pc) returns (r: Run)
    requires After(run) == Some(s) && Shaped(s) && s.isr == NoIsr && s.pc == SCheck(ret) && s.queued > 0
    ensures Alone(run, r) && After(r) == Some(StartedAtTail(s, ret))
  {
    var a := Initialised(run, s, ret);
    var t := s.(dma := Parked, descError := false, pc := SDesc(ret));
    var b := TailGiven(a, t, ret);
    AloneOn(run, a, b);
    r := Marked(b, Given(t, ret), ret);
    AloneOn(run, b, r);
  }

  /** A resume that finds the channel parked. */
  lemma ResumeParked(run: Run, s: State, ret: Pc) returns (r: Run)
    requires After(run) == Some(s) && Shaped(s) && s.isr == NoIsr && s.pc == RIdle(ret) && s.queued > 0
             && s.dma == Parked
    ensures Alone(run, r) && After(r) == Some(StartedAtTail(s, ret))
  {
    var t := s.(started := false, pc := SCheck(ret));
    var mid := StartGoesTwice(run, s, s.(pc := RMark(ret)), t);
    r := StartAlone(mid, t, ret);
    AloneOn(run, mid, r);
  }

  /** A resume starts the channel again exactly when there is no error, something is queued, and the
      channel is parked. */
  lemma ResumeAlone(run: Run, s: State, ret: Pc) returns (r: Run)
    requires After(run) == Some(s) && Shaped(s) && s.isr == NoIsr && s.pc == RError(ret)
    ensures Alone(run, r)
    ensures After(r) == Some(if !s.error && s.queued > 0 && s.dma == Parked
                             then StartedAtTail(s, ret) else s.(pc := ret))
  {
    if s.error {
      r := StartGoes(run, s, s.(pc := ret));
    } else if s.queued == 0 {
      r := StartGoesTwice(run, s, s.(pc := RQueued(ret)), s.(pc := ret));
    } else {
      var mid := StartGoesTwice(run, s, s.(pc := RQueued(ret)), s.(pc := RIdle(ret)));
      var t := s.(pc := RIdle(ret));
      if s.dma != Parked {
        r := StartGoes(mid, t, t.(pc := ret));
      } else {
        r := ResumeParked(mid, t, ret);
      }
      AloneOn(run, mid, r);
    }
  }

  /** A start, or the resume of a started channel. */
  lemma TryFrom(run: Run, s: State) returns (r: Run)
    requires After(run) == Some(s) && Shaped(s) && s.isr == NoIsr && s.pc == TStarted && !s.error && s.queued > 0
    ensures Alone(run, r)
    ensures After(r) == Some(if s.started && s.dma != Parked then s.(pc := WLoop) else StartedAtTail(s, WLoop))
  {
    var mid;
    if s.started {
      mid := StartGoes(run, s, s.(pc := RError(WLoop)));
      r := ResumeAlone(mid, s.(pc := RError(WLoop)), WLoop);
    } else {
      mid := StartGoes(run, s, s.(pc := SCheck(WLoop)));
      r := StartAlone(mid, s.(pc := SCheck(WLoop)), WLoop);
    }
    AloneOn(run, mid, r);
  }

  /** Behind a publication: with two buffers queued, or with all that there are, the channel is started
      or found running. */
  lemma TryStartAlone(run: Run, s: State) returns (r: Run)
    requires After(run) == Some(s) && Shaped(s) && s.isr == NoIsr && s.pc == TError
    ensures Alone(run, r)
    ensures After(r) == Some(if s.error || s.queued < Least(2, s.count) || (s.started && s.dma != Parked)
                             then s.(pc := WLoop) else StartedAtTail(s, WLoop))
  {
    if s.error {
      r := StartGoes(run, s, s.(pc := WLoop));
    } else if s.queued < Least(2, s.count) {
      r := StartGoesTwice(run, s, s.(pc := TQueued), s.(pc := WLoop));
    } else {
      var mid := StartGoesTwice(run, s, s.(pc := TQueued), s.(pc := TStarted));
      r := TryFrom(mid, s.(pc := TStarted));
      AloneOn(run, mid, r);
    }
  }

  // ---------------------------------------------------------------------------------------------
  // The channel

  lemma FollowStep(s: State)
    requires Shaped(s) && s.dma.Following? && s.dma.slot < s.count
    requires var next := s.descs[s.dma.slot].next; next == NULL || (0 <= next < s.count && s.descs[next].ownerDma)
    ensures var next := s.descs[s.dma.slot].next;
            DmaStep(s) == if next == NULL then s.(dma := Parked) else if next >= 0 then s.(dma := Running(next)) else s
  {
  }

  /** In every run that loses no write-back a channel that has sent a buffer goes on to the next one
      exactly when it is linked, and parks otherwise; it never meets a descriptor error there. */
  lemma FollowsLinks(run: Run)
    requires After(run).Some? && NoLostWriteBack(run) && After(Then(run, Follow)).Some?
    ensures var s, t := After(run).value, After(Then(run, Follow)).value;
            && s.dma.Following? && s.dma.slot < |s.descs|
            && var next := s.descs[s.dma.slot].next;
               t == if next == NULL then s.(dma := Parked) else if next >= 0 then s.(dma := Running(next)) else s
  {
    var s := After(run).value;
    RunInv(run);
    FollowFinds(RingOf(s), HistoryOf(s), s.dma.slot);
    FollowStep(s);
  }

  // ---------------------------------------------------------------------------------------------
  // Interrupts

  /** The run goes on with steps of the interrupt handler alone. */
  predicate HandlerAlone(run: Run, r: Run) { r == run || (r.Then? && r.a == Isr && HandlerAlone(run, r.before)) }

  lemma {:induction false} HandlerOn(run: Run, mid: Run, r: Run)
    requires HandlerAlone(run, mid) && HandlerAlone(mid, r)
    ensures HandlerAlone(run, r)
  {
    if r != mid { HandlerOn(run, mid, r.before); }
  }

  lemma HandlerGoes(run: Run, s: State) returns (r: Run)
    requires After(run) == Some(s) && Shaped(s) && s.isr != NoIsr
    ensures HandlerAlone(run, r) && After(r) == Some(IsrStep(s))
  {
    r := Then(run, Isr);
    assert HandlerAlone(run, run);
  }

  lemma ReclaimInHandler(s: State, stage: Stage)
    requires Shaped(s) && s.isr == NoIsr
    ensures var (t, next) := ReclaimStep(s, stage);
            t.isr == NoIsr && IsrStep(s.(isr := IReclaim(stage)))
            == t.(isr := if next == None then IStop else IReclaim(next.value))
  {
  }

  /** The reclaim of the handler is a whole reclaim. */
  lemma {:induction false} HandlerReclaims(run: Run, s: State, stage: Stage) returns (r: Run)
    requires Shaped(s) && s.isr == NoIsr && After(run) == Some(s.(isr := IReclaim(stage)))
    requires Active(stage) ==> s.queued > 0
    ensures HandlerAlone(run, r) && After(r) == Some(ReclaimFrom(s, stage).(isr := IStop))
    decreases s.queued, Rank(stage)
  {
    var t, next := ReclaimStep(s, stage).0, ReclaimStep(s, stage).1;
    ReclaimInHandler(s, stage);
    var mid := HandlerGoes(run, s.(isr := IReclaim(stage)));
    if next == None {
      r := mid;
    } else {
      r := HandlerReclaims(mid, t, next.value);
      HandlerOn(run, mid, r);
    }
  }

  /** An interrupt that nothing disturbs: after a descriptor error the stream is in error and stopped;
      otherwise, while it is started, everything sent is reclaimed, and the stream is stopped exactly
      when nothing is left and the channel is parked. */
  lemma InterruptAlone(run: Run, s: State) returns (r: Run)
    requires After(run) == Some(s) && Enabled(s, Interrupt)
    ensures HandlerAlone(Then(run, Interrupt), r)
    ensures After(r) == Some(
              if s.descError then s.(descError := false, dma := Parked, started := false, error := true)
              else if !s.started then s
              else var t := ReclaimFrom(s, Test);
                   t.(started := t.queued > 0 || t.dma != Parked))
  {
    r := Then(run, Interrupt);
    if !s.descError && s.started {
      r := HandlerReclaims(r, s, Test);
      ReclaimFromFrame(s, Test);
      ReclaimStops(s, Test);
      var t := ReclaimFrom(s, Test);
      var end := HandlerGoes(r, t.(isr := IStop));
      HandlerOn(Then(run, Interrupt), r, end);
      r := end;
    }
  }

  /** A reclaim of a started stream stops it exactly when nothing is left and the channel is parked. */
  lemma {:induction false} ReclaimStops(s: State, stage: Stage)
    requires Shaped(s) && s.started && (Active(stage) ==> s.queued > 0)
    ensures var t := ReclaimFrom(s, stage); t.started <==> t.queued > 0 || t.dma != Parked
    decreases s.queued, Rank(stage)
  {
    ReclaimFrame(s, stage);
    var (t, next) := ReclaimStep(s, stage);
    if next != None { ReclaimStops(t, next.value); }
  }
}
