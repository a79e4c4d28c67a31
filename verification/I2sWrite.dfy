/** Writes that accept everything: a write that nothing disturbs, into a ring with room. */
module I2sWrite {
  import opened Bytes
  import opened I2sMachine
  import opened I2sShape
  import opened I2sStream
  import opened I2sSteps
  import opened I2sCalls
  import opened I2sDrain

  // ---------------------------------------------------------------------------------------------
  // Publishing

  function PublishRank(pc: Pc): nat {
    match pc
    case WLock(_) => 8 case WZero(_) => 7 case WFields(_) => 6 case WOwn(_) => 5
    case WLink(_) => 4 case WEofLoad(_) => 3 case WEofStore(_, _) => 2 case WAdvance(_) => 1
    case _ => 0
  }

  /** The fields that decide how a write goes on. */
  predicate SameCourse(s: State, t: State) {
    t.count == s.count && t.size == s.size && t.src == s.src && t.isr == s.isr && t.error == s.error
  }

  /** A step on: from the lock through the stores to the look at the start. */
  predicate PublishesTo(s: State, t: State) {
    && SameCourse(s, t)
    && if s.pc.WAdvance? then t.pc == TError && t.queued == s.queued + 1 && t.written == s.written + s.pc.chunk
       else Publishing(t.pc) && PublishRank(t.pc) < PublishRank(s.pc) && ChunkOf(t.pc) == ChunkOf(s.pc)
            && t.queued == s.queued && t.written == s.written
  }

  lemma LockGoes(s: State)
    requires Ready(s) && s.pc.WLock?
    ensures PublishesTo(s, MainStep(s, false))
  {
    assert MainStep(s, false) == PlainStep(s, false);
  }

  lemma StoreGoes(s: State)
    requires Ready(s) && Publishing(s.pc)
    ensures PublishesTo(s, PublishStep(s))
  {
  }

  lemma PublishOne(run: Run, s: State) returns (r: Run, t: State)
    requires After(run) == Some(s) && Ready(s) && (s.pc.WLock? || Publishing(s.pc))
    ensures Alone(run, r) && After(r) == Some(t) && Shaped(t) && PublishesTo(s, t)
  {
    r := Goes(run, s);
    t := MainStep(s, false);
    if s.pc.WLock? { LockGoes(s); } else { StoreGoes(s); }
    MainShaped(s);
  }

  lemma MainShaped(s: State)
    requires Ready(s) && s.pc != Out && s.pc != WReturn && !s.pc.DReturn?
    requires s.pc.WLock? || Publishing(s.pc) || Starting(s.pc)
    ensures Shaped(MainStep(s, false))
  {
  }

  lemma {:induction false} PublishAlone(run: Run, s: State) returns (r: Run, t: State)
    requires After(run) == Some(s) && Ready(s) && (s.pc.WLock? || Publishing(s.pc))
    ensures Alone(run, r) && After(r) == Some(t) && Ready(t) && SameCourse(s, t)
    ensures t.pc == TError && t.queued == s.queued + 1 && t.written == s.written + ChunkOf(s.pc)
    decreases PublishRank(s.pc)
  {
    var mid, u := PublishOne(run, s);
    if s.pc.WAdvance? {
      r, t := mid, u;
    } else {
      r, t := PublishAlone(mid, u);
      AloneOn(run, mid, r);
    }
  }

  // ---------------------------------------------------------------------------------------------
  // Starting

  function StartRank(pc: Pc): nat {
    match pc
    case TError => 13 case TQueued => 12 case TStarted => 11
    case RError(_) => 10 case RQueued(_) => 9 case RIdle(_) => 8 case RMark(_) => 7
    case SCheck(_) => 6 case SInit(_) => 5 case SDesc(_) => 4 case SGo(_, _) => 3 case SMark(_) => 2 case SClear(_) => 1
    case _ => 0
  }

  /** A start on behalf of a write. */
  predicate ForWrite(pc: Pc) { Starting(pc) && (pc.TError? || pc.TQueued? || pc.TStarted? || pc.ret == WLoop) }

  predicate GoesTo(s: State, t: State) {
    && SameCourse(s, t) && t.queued == s.queued && t.written == s.written
    && (t.pc == WLoop || (ForWrite(t.pc) && StartRank(t.pc) < StartRank(s.pc)))
  }

  lemma TryGoes(s: State)
    requires Ready(s) && (s.pc.TError? || s.pc.TQueued? || s.pc.TStarted?)
    ensures GoesTo(s, StartStep(s, false))
  {
  }

  lemma ResumeGoes(s: State)
    requires Ready(s) && Resuming(s.pc) && s.pc.ret == WLoop
    ensures GoesTo(s, StartStep(s, false))
  {
  }

  lemma BeginGoes(s: State)
    requires Ready(s) && (s.pc.SCheck? || s.pc.SInit? || s.pc.SDesc? || s.pc.SGo? || s.pc.SMark? || s.pc.SClear?)
    requires s.pc.ret == WLoop
    ensures GoesTo(s, StartStep(s, false))
  {
  }

  lemma StartGoes(s: State)
    requires Ready(s) && ForWrite(s.pc)
    ensures GoesTo(s, MainStep(s, false))
  {
    assert MainStep(s, false) == StartStep(s, false);
    if s.pc.TError? || s.pc.TQueued? || s.pc.TStarted? {
      TryGoes(s);
    } else if Resuming(s.pc) {
      ResumeGoes(s);
    } else {
      BeginGoes(s);
    }
  }

  lemma StartOne(run: Run, s: State) returns (r: Run, t: State)
    requires After(run) == Some(s) && Ready(s) && ForWrite(s.pc)
    ensures Alone(run, r) && After(r) == Some(t) && Shaped(t) && GoesTo(s, t)
  {
    r := Goes(run, s);
    t := MainStep(s, false);
    StartGoes(s);
    MainShaped(s);
  }

  lemma {:induction false} StartAlone(run: Run, s: State) returns (r: Run, t: State)
    requires After(run) == Some(s) && Ready(s) && ForWrite(s.pc)
    ensures Alone(run, r) && After(r) == Some(t) && Ready(t) && SameCourse(s, t)
    ensures t.pc == WLoop && t.queued == s.queued && t.written == s.written
    decreases StartRank(s.pc)
  {
    var mid, u := StartOne(run, s);
    if u.pc == WLoop {
      r, t := mid, u;
    } else {
      r, t := StartAlone(mid, u);
      AloneOn(run, mid, r);
    }
  }

  // ---------------------------------------------------------------------------------------------
  // The loop

  /** From the head of the loop to the lock, with a free slot. */
  lemma CopyAlone(run: Run, s: State) returns (r: Run, t: State)
    requires After(run) == Some(s) && Ready(s) && s.pc == WLoop && s.written < |s.src| && s.queued < s.count
    ensures Alone(run, r) && After(r) == Some(t) && Ready(t) && SameCourse(s, t)
    ensures t.pc == WLock(Least(s.size, |s.src| - s.written)) && t.queued <= s.queued && t.written == s.written
  {
    var mid, u := LoopToFull(run, s);
    var next := Goes(mid, u);
    AloneOn(run, mid, next);
    RunWriteShape(next);
    r := Goes(next, u.(pc := WCopy));
    CopyChunk(u.(pc := WCopy));
    CopyFrame(u.(pc := WCopy));
    t := CopyStep(u.(pc := WCopy));
    AloneOn(run, next, r);
  }

  lemma LoopToFull(run: Run, s: State) returns (r: Run, t: State)
    requires After(run) == Some(s) && Ready(s) && s.pc == WLoop && s.written < |s.src| && s.queued < s.count
    ensures Alone(run, r) && After(r) == Some(t) && Ready(t) && SameCourse(s, t)
    ensures t.pc == WFull && t.queued <= s.queued && t.written == s.written
    ensures MainStep(t, false) == t.(pc := WCopy)
  {
    var mid := LoopHead(run, s);
    r, t := ReclaimInWrite(mid, s.(pc := WReclaim(Test)));
    AloneOn(run, mid, r);
  }

  lemma LoopHead(run: Run, s: State) returns (r: Run)
    requires After(run) == Some(s) && Ready(s) && s.pc == WLoop && s.written < |s.src|
    ensures Alone(run, r) && After(r) == Some(s.(pc := WReclaim(Test)))
  {
    r := Goes(run, s);
  }

  lemma ReclaimInWrite(run: Run, s: State) returns (r: Run, t: State)
    requires After(run) == Some(s) && Ready(s) && s.pc == WReclaim(Test) && s.queued < s.count
    ensures Alone(run, r) && After(r) == Some(t) && Ready(t) && SameCourse(s, t)
    ensures t.pc == WFull && t.queued <= s.queued && t.written == s.written
    ensures MainStep(t, false) == t.(pc := WCopy)
  {
    r := ReclaimAlone(run, s, Test);
    ReclaimFromFrame(s, Test);
    ReclaimLowers(s);
    t := ReclaimFrom(s, Test).(pc := WFull);
    FullGoes(t);
  }

  lemma FullGoes(t: State)
    requires Shaped(t) && t.pc == WFull && t.queued < t.count
    ensures MainStep(t, false) == t.(pc := WCopy)
  {
  }

  lemma ReclaimLowers(s: State)
    requires Shaped(s) && s.queued <= s.count
    ensures Shaped(ReclaimFrom(s, Test)) && ReclaimFrom(s, Test).queued <= s.queued
  {
    var j := ReclaimFreesPrefix(s);
  }

  /** Room in the ring for what is left to write. */
  predicate HasRoom(s: State) { s.queued <= s.count && |s.src| - s.written <= s.size * (s.count - s.queued) }

  lemma RoomAfter(size: nat, left: nat, room: nat)
    requires 0 < left <= size * room
    ensures room > 0 && left - Least(size, left) <= size * (room - 1)
  {
    assert size * room == size * (room - 1) + size;
  }

  lemma MoreRoom(size: nat, a: nat, b: nat)
    requires a <= b
    ensures size * a <= size * b
  {
  }

  /** One turn of the loop. */
  lemma TurnAlone(run: Run, s: State) returns (r: Run, t: State)
    requires After(run) == Some(s) && Ready(s) && s.pc == WLoop && s.written < |s.src| && HasRoom(s) && s.size > 0
    ensures Alone(run, r) && After(r) == Some(t) && Ready(t) && SameCourse(s, t) && t.pc == WLoop
    ensures s.written < t.written <= |s.src| && HasRoom(t)
  {
    EnoughRoom(s);
    var a, u := CopyAlone(run, s);
    var b, v := PublishAlone(a, u);
    r, t := StartAlone(b, v);
    AloneOn(run, a, b);
    AloneOn(run, b, r);
    StillRoom(s, t);
  }

  lemma EnoughRoom(s: State)
    requires HasRoom(s) && s.written < |s.src| && s.size > 0
    ensures s.queued < s.count
  {
    RoomAfter(s.size, |s.src| - s.written, s.count - s.queued);
  }

  lemma StillRoom(s: State, t: State)
    requires HasRoom(s) && s.written < |s.src| && s.size > 0 && SameCourse(s, t) && s.queued < s.count
    requires t.written == s.written + Least(s.size, |s.src| - s.written) && t.queued <= s.queued + 1
    ensures HasRoom(t) && s.written < t.written <= |s.src|
  {
    RoomAfter(s.size, |s.src| - s.written, s.count - s.queued);
    MoreRoom(s.size, s.count - s.queued - 1, t.count - t.queued);
  }

  lemma {:induction false} LoopAlone(run: Run, s: State) returns (r: Run, t: State)
    requires After(run) == Some(s) && Ready(s) && s.pc == WLoop && s.written <= |s.src| && HasRoom(s) && s.size > 0
    ensures Alone(run, r) && After(r) == Some(t) && Ready(t) && t.pc == WReturn && SameCourse(s, t)
    decreases |s.src| - s.written
  {
    if s.written < |s.src| {
      var mid, u := TurnAlone(run, s);
      r, t := LoopAlone(mid, u);
      AloneOn(run, mid, r);
    } else {
      r := Goes(run, s);
      t := s.(pc := WReturn);
    }
  }

  // ---------------------------------------------------------------------------------------------
  // Writes

  lemma {:induction false} AloneLog(run: Run, r: Run)
    requires Alone(run, r) && After(r).Some?
    ensures After(run).Some? && LogOf(r) == LogOf(run)
    ensures After(r).value.base == After(run).value.base && After(r).value.src == After(run).value.src
  {
    if r != run {
      AloneLog(run, r.before);
      MainKeepsCall(After(r.before).value);
    }
  }

  lemma MainKeepsCall(s: State)
    requires Enabled(s, Main(false))
    ensures MainStep(s, false).base == s.base && MainStep(s, false).src == s.src
  {
    if Reclaiming(s.pc) {
      ReclaimFrame(s, s.pc.stage);
    } else if Publishing(s.pc) {
      PublishKeepsCall(s);
    } else if Starting(s.pc) {
      StartKeepsCall(s);
    } else if s.pc != WCopy {
      PlainFrame(s, false);
    }
  }

  lemma PublishKeepsCall(s: State)
    requires Shaped(s) && Publishing(s.pc)
    ensures PublishStep(s).base == s.base && PublishStep(s).src == s.src
  {
  }

  lemma StartKeepsCall(s: State)
    requires Shaped(s) && Starting(s.pc)
    ensures StartStep(s, false).base == s.base && StartStep(s, false).src == s.src
  {
  }

  /** In every run, when no call is in progress, there is no error, and the ring has room for the bytes:
      a write that nothing disturbs accepts them all and returns. */
  lemma QuietWriteAccepts(run: Run, bytes: seq<byte>) returns (r: Run)
    requires After(run).Some? && After(run).value.pc == Out && After(run).value.isr == NoIsr && !After(run).value.error
    requires bytes != [] && |bytes| <= After(run).value.size * (After(run).value.count - After(run).value.queued)
    ensures Alone(Then(run, CallWrite(bytes)), r) && After(r).Some?
    ensures var s, t := After(run).value, After(r).value;
            t.pc == WReturn && t.written == |bytes| && Flat(t.accepted) == Flat(s.accepted) + bytes
  {
    var u;
    r, u := WriteAccepts(run, After(run).value, bytes);
  }

  lemma WriteAccepts(run: Run, s: State, bytes: seq<byte>) returns (r: Run, u: State)
    requires After(run) == Some(s) && s.pc == Out && s.isr == NoIsr && !s.error && bytes != []
    requires |bytes| <= s.size * (s.count - s.queued)
    ensures Alone(Then(run, CallWrite(bytes)), r) && After(r) == Some(u)
    ensures u.pc == WReturn && u.written == |bytes| && Flat(u.accepted) == Flat(s.accepted) + bytes
  {
    r, u := WriteAlone(run, s, bytes);
    WriteEnds(r, u, bytes);
  }

  lemma WriteEnds(run: Run, s: State, bytes: seq<byte>)
    requires After(run) == Some(s) && s.pc == WReturn && !s.error && s.src == bytes && LogOf(run) == Log(false, false)
    ensures s.written == |bytes| && Flat(s.accepted) == Flat(s.base) + bytes
  {
    WriteReports(run);
    assert bytes[..|bytes|] == bytes;
  }

  /** The write, up to its return. */
  lemma WriteAlone(run: Run, s: State, bytes: seq<byte>) returns (r: Run, u: State)
    requires After(run) == Some(s) && s.pc == Out && s.isr == NoIsr && !s.error && bytes != []
    requires |bytes| <= s.size * (s.count - s.queued)
    ensures Alone(Then(run, CallWrite(bytes)), r) && After(r) == Some(u) && LogOf(r) == Log(false, false)
    ensures u.pc == WReturn && !u.error && u.src == bytes && u.base == s.accepted
  {
    var call := Then(run, CallWrite(bytes));
    var t := WriteCalled(run, s, bytes);
    r, u := WriteRuns(call, t);
    AloneLog(call, r);
  }

  lemma WriteRuns(run: Run, s: State) returns (r: Run, u: State)
    requires After(run) == Some(s) && Ready(s) && HasRoom(s) && s.size > 0 && s.pc == WEntry && s.written == 0
    ensures Alone(run, r) && After(r) == Some(u) && Ready(u) && u.pc == WReturn
  {
    var mid, t := AtLoop(run, s);
    r, u := LoopAlone(mid, t);
    AloneOn(run, mid, r);
  }

  lemma AtLoop(run: Run, s: State) returns (r: Run, t: State)
    requires After(run) == Some(s) && Ready(s) && HasRoom(s) && s.size > 0 && s.pc == WEntry && s.written == 0
    ensures Alone(run, r) && After(r) == Some(t) && Ready(t) && HasRoom(t) && t.size > 0
    ensures t.pc == WLoop && t.written == 0
  {
    r := NoErrorYet(run, s);
    t := s.(pc := WLoop);
    SameRoom(s, t);
  }

  lemma SameRoom(s: State, t: State)
    requires HasRoom(s) && t.queued == s.queued && t.count == s.count && t.size == s.size
    requires t.src == s.src && t.written == s.written
    ensures HasRoom(t)
  {
  }

  lemma WriteCalled(run: Run, s: State, bytes: seq<byte>) returns (t: State)
    requires After(run) == Some(s) && s.pc == Out && s.isr == NoIsr && !s.error && bytes != []
    requires |bytes| <= s.size * (s.count - s.queued)
    ensures t == s.(pc := WEntry, src := bytes, written := 0, base := s.accepted)
    ensures After(Then(run, CallWrite(bytes))) == Some(t) && Ready(t) && HasRoom(t) && t.size > 0
    ensures LogOf(Then(run, CallWrite(bytes))) == Log(false, false)
  {
    CountsInRing(run, s);
    t := CalledState(run, s, bytes);
    CallRoom(s, t, bytes);
  }

  lemma CalledState(run: Run, s: State, bytes: seq<byte>) returns (t: State)
    requires After(run) == Some(s) && Shaped(s) && s.pc == Out && s.isr == NoIsr && !s.error && bytes != []
    ensures t == s.(pc := WEntry, src := bytes, written := 0, base := s.accepted)
    ensures After(Then(run, CallWrite(bytes))) == Some(t) && Ready(t)
    ensures LogOf(Then(run, CallWrite(bytes))) == Log(false, false)
  {
    t := s.(pc := WEntry, src := bytes, written := 0, base := s.accepted);
  }

  lemma CallRoom(s: State, t: State, bytes: seq<byte>)
    requires s.queued <= s.count && |bytes| <= s.size * (s.count - s.queued)
    requires t.queued == s.queued && t.count == s.count && t.size == s.size && t.src == bytes && t.written == 0
    ensures HasRoom(t)
  {
  }

  lemma CountsInRing(run: Run, s: State)
    requires After(run) == Some(s)
    ensures Shaped(s) && s.size > 0 && s.queued <= s.count
  {
    RunWriteShape(run);
  }

  lemma NoErrorYet(run: Run, s: State) returns (r: Run)
    requires After(run) == Some(s) && Ready(s) && s.pc == WEntry
    ensures Alone(run, r) && After(r) == Some(s.(pc := WLoop))
  {
    r := Goes(run, s);
  }
}
