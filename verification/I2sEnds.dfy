/** Calls that end without success: in error, or with their time used up. */
module I2sEnds {
  import opened Bytes
  import opened I2sMachine
  import opened I2sShape
  import opened I2sStream
  import opened I2sCalls
  import opened I2sDrain
  import opened I2sStart

  /** What a call has reported and accepted, and the error flag. */
  predicate SameReport(s: State, t: State) {
    && t.isr == s.isr && t.error == s.error && t.written == s.written && t.accepted == s.accepted && t.sent == s.sent
    && t.src == s.src && t.count == s.count
  }

  lemma Reclaims(run: Run, s: State) returns (r: Run, t: State)
    requires After(run) == Some(s) && Shaped(s) && s.isr == NoIsr && Reclaiming(s.pc) && s.pc.stage == Test
    ensures Alone(run, r) && After(r) == Some(t) && Shaped(t) && SameReport(s, t) && t.pc == Behind(s.pc)
    ensures s.queued > 0 && s.descs[s.tail].ownerDma ==> t == s.(pc := Behind(s.pc))
  {
    r := ReclaimAlone(run, s, Test);
    ReclaimFromFrame(s, Test);
    t := ReclaimFrom(s, Test).(pc := Behind(s.pc));
    if s.queued > 0 && s.descs[s.tail].ownerDma { NothingReclaimed(s); }
  }

  lemma NothingReclaimed(s: State)
    requires Shaped(s) && s.queued > 0 && s.descs[s.tail].ownerDma
    ensures ReclaimFrom(s, Test) == s
  {
    assert ReclaimStep(s, Test) == (s, Some(Stop));
    assert ReclaimFrom(s, Stop) == s;
  }

  lemma Plain(run: Run, s: State, t: State) returns (r: Run)
    requires After(run) == Some(s) && Shaped(s) && s.isr == NoIsr && t == PlainStep(s, false)
    requires s.pc == WLoop || s.pc == WFull || s.pc == WResumed || s.pc.WLock? || s.pc == DLoop || s.pc == DError
             || s.pc == DResumed
    ensures Alone(run, r) && After(r) == Some(t)
  {
    PlainIsMain(s);
    r := Goes(run, s);
  }

  lemma PlainIsMain(s: State)
    requires Shaped(s) && !Reclaiming(s.pc) && !Publishing(s.pc) && !Starting(s.pc) && s.pc != WCopy
    requires s.pc != Out && s.pc != WReturn && !s.pc.DReturn?
    ensures MainStep(s, false) == PlainStep(s, false)
  {
  }

  // ---------------------------------------------------------------------------------------------
  // In error

  lemma WriteReturns(run: Run, s: State) returns (r: Run, t: State)
    requires After(run) == Some(s) && Shaped(s) && s.isr == NoIsr && s.pc == RError(WResumed) && s.error
    ensures Alone(run, r) && After(r) == Some(t) && SameReport(s, t) && t.pc == WReturn
  {
    var a := StartGoes(run, s, s.(pc := WResumed));
    t := s.(pc := WReturn);
    r := WriteErrs(a, s.(pc := WResumed));
    AloneOn(run, a, r);
  }

  lemma WriteErrs(run: Run, s: State) returns (r: Run)
    requires After(run) == Some(s) && Shaped(s) && s.isr == NoIsr && s.pc == WResumed && s.error
    ensures Alone(run, r) && After(r) == Some(s.(pc := WReturn))
  {
    r := Plain(run, s, s.(pc := WReturn));
  }

  lemma DrainReturns(run: Run, s: State) returns (r: Run, t: State)
    requires After(run) == Some(s) && Shaped(s) && s.isr == NoIsr && s.pc == RError(DResumed) && s.error
    ensures Alone(run, r) && After(r) == Some(t) && SameReport(s, t) && t.pc == DReturn(false)
  {
    var a := StartGoes(run, s, s.(pc := DResumed));
    t := s.(pc := DReturn(false));
    r := DrainErrs(a, s.(pc := DResumed));
    AloneOn(run, a, r);
  }

  lemma DrainErrs(run: Run, s: State) returns (r: Run)
    requires After(run) == Some(s) && Shaped(s) && s.isr == NoIsr && s.pc == DResumed && s.error
    ensures Alone(run, r) && After(r) == Some(s.(pc := DReturn(false)))
  {
    r := Plain(run, s, s.(pc := DReturn(false)));
  }

  lemma FullWriteErrs(run: Run, s: State) returns (r: Run, t: State)
    requires After(run) == Some(s) && Shaped(s) && s.isr == NoIsr && s.pc == WFull && s.error && s.queued >= s.count
    ensures Alone(run, r) && After(r) == Some(t) && SameReport(s, t) && t.pc == WReturn
  {
    var a := Plain(run, s, s.(pc := WReclaimAgain(Test)));
    var b, u := Reclaims(a, s.(pc := WReclaimAgain(Test)));
    AloneOn(run, a, b);
    r, t := WriteReturns(b, u);
    AloneOn(run, b, r);
  }

  lemma Copies(run: Run, s: State) returns (r: Run, t: State)
    requires After(run) == Some(s) && Shaped(s) && s.isr == NoIsr && s.pc == WCopy
    ensures Alone(run, r) && After(r) == Some(t) && Shaped(t) && SameReport(s, t) && t.pc.WLock?
  {
    RunWriteShape(run);
    CopyChunk(s);
    CopyFrame(s);
    r := Goes(run, s);
    t := CopyStep(s);
  }

  lemma CopyErrs(run: Run, s: State) returns (r: Run, t: State)
    requires After(run) == Some(s) && Shaped(s) && s.isr == NoIsr && s.pc == WFull && s.error && s.queued < s.count
    ensures Alone(run, r) && After(r) == Some(t) && SameReport(s, t) && t.pc == WReturn
  {
    var a := Plain(run, s, s.(pc := WCopy));
    var b, u := Copies(a, s.(pc := WCopy));
    AloneOn(run, a, b);
    t := u.(pc := WReturn);
    r := Plain(b, u, t);
    AloneOn(run, b, r);
  }

  /** A write that is in error at the head of its loop ends there and accepts nothing more. */
  lemma WriteEndsInError(run: Run, s: State) returns (r: Run, t: State)
    requires After(run) == Some(s) && Shaped(s) && s.isr == NoIsr && s.pc == WLoop && s.error
    ensures Alone(run, r) && After(r) == Some(t) && SameReport(s, t) && t.pc == WReturn
  {
    if s.written >= |s.src| {
      t := s.(pc := WReturn);
      r := Plain(run, s, t);
    } else {
      var a := Plain(run, s, s.(pc := WReclaim(Test)));
      var b, u := Reclaims(a, s.(pc := WReclaim(Test)));
      AloneOn(run, a, b);
      if u.queued >= u.count {
        r, t := FullWriteErrs(b, u);
      } else {
        r, t := CopyErrs(b, u);
      }
      AloneOn(run, b, r);
    }
  }

  lemma DrainLooks(run: Run, s: State) returns (r: Run)
    requires After(run) == Some(s) && Shaped(s) && s.isr == NoIsr && s.pc == DLoop && s.error
    ensures Alone(run, r) && After(r) == Some(s.(pc := DReclaim(Test)))
  {
    var a := HasTime(run, s);
    r := SeesError(a, s.(pc := DError));
    AloneOn(run, a, r);
  }

  lemma HasTime(run: Run, s: State) returns (r: Run)
    requires After(run) == Some(s) && Shaped(s) && s.isr == NoIsr && s.pc == DLoop
    ensures Alone(run, r) && After(r) == Some(s.(pc := DError))
  {
    r := Plain(run, s, s.(pc := DError));
  }

  lemma SeesError(run: Run, s: State) returns (r: Run)
    requires After(run) == Some(s) && Shaped(s) && s.isr == NoIsr && s.pc == DError && s.error
    ensures Alone(run, r) && After(r) == Some(s.(pc := DReclaim(Test)))
  {
    r := Plain(run, s, s.(pc := DReclaim(Test)));
  }

  /** A drain that is in error at the head of its loop returns false. */
  lemma DrainEndsInError(run: Run, s: State) returns (r: Run, t: State)
    requires After(run) == Some(s) && Shaped(s) && s.isr == NoIsr && s.pc == DLoop && s.error
    ensures Alone(run, r) && After(r) == Some(t) && SameReport(s, t) && t.pc == DReturn(false)
  {
    var b := DrainLooks(run, s);
    var c, u := Reclaims(b, s.(pc := DReclaim(Test)));
    AloneOn(run, b, c);
    r, t := DrainReturns(c, u);
    AloneOn(run, c, r);
  }

  // ---------------------------------------------------------------------------------------------
  // Out of time

  lemma FindsFull(run: Run, s: State) returns (r: Run)
    requires After(run) == Some(s) && Shaped(s) && s.isr == NoIsr && s.pc == WLoop && s.written < |s.src|
    requires s.queued >= s.count && s.descs[s.tail].ownerDma
    ensures Alone(run, r) && After(r) == Some(s.(pc := WReclaimAgain(Test)))
  {
    var a := Plain(run, s, s.(pc := WReclaim(Test)));
    var b, u := Reclaims(a, s.(pc := WReclaim(Test)));
    AloneOn(run, a, b);
    r := Plain(b, u, s.(pc := WReclaimAgain(Test)));
    AloneOn(run, b, r);
  }

  /** A write that finds the ring full and nothing sent waits: with time left it tries again, with its
      time used up it returns. */
  lemma WriteWaits(run: Run, s: State) returns (r: Run, t: State)
    requires After(run) == Some(s) && Shaped(s) && s.isr == NoIsr && s.pc == WLoop && !s.error && s.written < |s.src|
    requires s.queued >= s.count && s.descs[s.tail].ownerDma
    ensures Alone(run, r) && SameReport(s, t)
    ensures After(Then(r, Main(false))) == Some(t.(pc := WLoop))
    ensures After(Then(r, Main(true))) == Some(t.(pc := WReturn))
  {
    var c := FindsFull(run, s);
    var d, v := Reclaims(c, s.(pc := WReclaimAgain(Test)));
    AloneOn(run, c, d);
    r, t := Resumed(d, v);
    AloneOn(run, d, r);
  }

  lemma Resumed(run: Run, s: State) returns (r: Run, t: State)
    requires After(run) == Some(s) && Shaped(s) && s.isr == NoIsr && s.pc == RError(WResumed) && !s.error
    ensures Alone(run, r) && SameReport(s, t)
    ensures After(Then(r, Main(false))) == Some(t.(pc := WLoop))
    ensures After(Then(r, Main(true))) == Some(t.(pc := WReturn))
  {
    t := if !s.error && s.queued > 0 && s.dma == Parked then StartedAtTail(s, WResumed) else s.(pc := WResumed);
    r := ResumeAlone(run, s, WResumed);
    TimeUp(r, t);
  }

  lemma TimeUp(run: Run, t: State)
    requires After(run) == Some(t) && Shaped(t) && t.isr == NoIsr && t.pc == WResumed && !t.error
    ensures After(Then(run, Main(false))) == Some(t.(pc := WLoop))
    ensures After(Then(run, Main(true))) == Some(t.(pc := WReturn))
  {
  }

  /** A drain whose time is used up returns false. */
  lemma DrainOutOfTime(run: Run, s: State)
    requires After(run) == Some(s) && Shaped(s) && s.isr == NoIsr && s.pc == DLoop
    ensures After(Then(run, Main(true))) == Some(s.(pc := DReturn(false)))
  {
    assert MainStep(s, true) == PlainStep(s, true);
  }
}
