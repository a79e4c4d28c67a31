/** What the calls of the stream report, in every run, write-backs lost or not. */
module I2sCalls {
  import opened Bytes
  import opened I2sMachine
  import opened I2sShape
  import opened I2sStream

  // ---------------------------------------------------------------------------------------------
  // The bytes of a write

  /** Every buffer has the size of the stream. */
  predicate Sizes(s: State) {
    |s.descs| == s.count && forall t :: 0 <= t < s.count ==> |s.descs[t].data| == s.size
  }

  /** What holds of a write in progress, whatever the DMA has done to the owner bits. */
  predicate WriteShape(s: State) { Shape(s) && s.size > 0 && Sizes(s) && WriteInv(s) }

  lemma ReclaimKeepsBytes(s: State, s': State, stage: Stage)
    requires WriteShape(s) && Shape(s') && s' == ReclaimStep(s, stage).0.(pc := s'.pc, isr := s'.isr)
    requires s'.pc == s.pc
             || (Reclaiming(s.pc) && !s'.pc.WLock? && !Publishing(s'.pc)
                 && (Unfinished(s'.pc) ==> Unfinished(s.pc)))
    requires s.pc.WOwn? ==> s'.descs[s.head].length == s.descs[s.head].length
    ensures WriteShape(s')
  {
    ReclaimFrame(s, stage);
    assert Taken(s') == Taken(s);
  }

  lemma MainReclaimKeeps(s: State)
    requires WriteShape(s) && Reclaiming(s.pc) && s.isr == NoIsr
    ensures WriteShape(LockedReclaimStep(s))
  {
    LockedReclaimKeepsShape(s);
    ReclaimKeepsBytes(s, LockedReclaimStep(s), s.pc.stage);
  }

  lemma IsrKeeps(s: State)
    requires WriteShape(s) && Enabled(s, Isr)
    ensures WriteShape(IsrStep(s))
  {
    IsrKeepsShape(s);
    if s.isr.IReclaim? {
      ReclaimKeepsBytes(s, IsrStep(s), s.isr.stage);
    } else {
      WriteFrame(s, IsrStep(s));
    }
  }

  lemma FillKeeps(s: State)
    requires WriteShape(s) && s.isr == NoIsr && (s.pc.WZero? || s.pc.WFields?)
    ensures WriteShape(PublishStep(s))
  {
    FillKeepsShape(s);
    assert Taken(PublishStep(s)) == Taken(s);
  }

  lemma OwnKeeps(s: State)
    requires WriteShape(s) && s.isr == NoIsr && s.pc.WOwn?
    ensures WriteShape(PublishStep(s))
  {
    OwnKeepsShape(s);
    OwnKeepsWrite(s);
  }

  lemma LinkKeeps(s: State)
    requires WriteShape(s) && s.isr == NoIsr && (s.pc.WLink? || s.pc.WEofLoad? || s.pc.WEofStore? || s.pc.WAdvance?)
    ensures WriteShape(PublishStep(s))
  {
    PublishKeepsShape(s);
    LinkingKeepsWrite(s);
  }

  lemma StartKeeps(s: State, fails: bool)
    requires WriteShape(s) && s.isr == NoIsr && Starting(s.pc)
    ensures WriteShape(StartStep(s, fails))
  {
    StartKeepsShape(s, fails);
    StartFrame(s, fails);
    StartCalm(s, fails);
    StartUnfinished(s, fails);
    assert Taken(StartStep(s, fails)) == Taken(s);
  }

  lemma PlainKeeps(s: State, giveUp: bool)
    requires WriteShape(s) && Enabled(s, Main(giveUp)) && Plain(s.pc)
    ensures WriteShape(PlainStep(s, giveUp))
  {
    PlainKeepsShape(s, giveUp);
    PlainFrame(s, giveUp);
    PlainControl(s, giveUp);
    PlainUnfinished(s, giveUp);
    assert Taken(PlainStep(s, giveUp)) == Taken(s);
  }

  lemma CopyKeeps(s: State)
    requires WriteShape(s) && s.isr == NoIsr && s.pc == WCopy
    ensures WriteShape(CopyStep(s))
  {
    CopyKeepsShape(s);
    CopyKeepsWrite(s);
  }

  lemma MainKeeps(s: State, giveUp: bool)
    requires WriteShape(s) && Enabled(s, Main(giveUp))
    ensures WriteShape(MainStep(s, giveUp))
  {
    if Reclaiming(s.pc) {
      MainReclaimKeeps(s);
    } else if s.pc.WZero? || s.pc.WFields? {
      FillKeeps(s);
    } else if s.pc.WOwn? {
      OwnKeeps(s);
    } else if Publishing(s.pc) {
      LinkKeeps(s);
    } else if Starting(s.pc) {
      StartKeeps(s, giveUp);
    } else if s.pc == WCopy {
      CopyKeeps(s);
    } else {
      PlainKeeps(s, giveUp);
    }
  }

  lemma CompleteKeeps(s: State)
    requires WriteShape(s) && Enabled(s, Complete)
    ensures WriteShape(DmaStep(s))
  {
    var s', d := DmaStep(s), s.descs[s.dma.slot];
    CompleteKeepsShape(s);
    assert s' == s.(descs := s.descs[s.dma.slot := d.(ownerDma := false)], dma := s'.dma, sent := s'.sent);
    WriteFrame(s, s');
  }

  lemma FollowKeeps(s: State)
    requires WriteShape(s) && Enabled(s, Follow)
    ensures WriteShape(DmaStep(s))
  {
    FollowKeepsShape(s);
    FollowFrame(s);
    WriteFrame(s, DmaStep(s));
  }

  lemma CallKeeps(s: State, a: Action)
    requires WriteShape(s) && Enabled(s, a) && (a.CallWrite? || a.CallDrain? || a.Return? || a.Interrupt?)
    ensures WriteShape(Step(s, a))
  {
    StepKeepsShape(s, a);
    if a.Interrupt? {
      WriteFrame(s, Step(s, a));
    }
  }

  lemma StepKeepsWrite(s: State, a: Action)
    requires WriteShape(s) && Enabled(s, a)
    ensures WriteShape(Step(s, a))
  {
    match a {
      case Main(giveUp) => MainKeeps(s, giveUp);
      case Isr => IsrKeeps(s);
      case Complete => CompleteKeeps(s);
      case Follow => FollowKeeps(s);
      case CallWrite(_) | CallDrain | Return | Interrupt => CallKeeps(s, a);
    }
  }

  lemma {:induction false} RunWriteShape(run: Run)
    requires After(run).Some?
    ensures WriteShape(After(run).value)
  {
    match run
    case Start(count, size) => BeginShape(count, size);
    case Then(before, a) =>
      RunWriteShape(before);
      StepKeepsWrite(After(before).value, a);
  }

  // ---------------------------------------------------------------------------------------------
  // Chunks

  function Least(a: nat, b: int): int { if a <= b then a else b }

  /** A write works with chunks of a full buffer, or of what is left. */
  predicate ChunkInv(s: State) {
    && (s.pc.WLock? || Publishing(s.pc) ==> ChunkOf(s.pc) == Least(s.size, |s.src| - s.written))
    && |s.base| <= |s.accepted| && s.base == s.accepted[..|s.base|]
    && (forall i {:trigger s.accepted[i]} :: |s.base| <= i < |s.accepted| ==>
          |s.accepted[i]| == s.size || (i == |s.accepted| - 1 && 0 < |s.accepted[i]| < s.size && Taken(s) == |s.src|))
  }

  lemma CopyChunk(s: State)
    requires WriteShape(s) && s.pc == WCopy
    ensures CopyStep(s).pc == WLock(Least(s.size, |s.src| - s.written))
  {
  }

  lemma OwnChunk(s: State)
    requires WriteShape(s) && ChunkInv(s) && s.pc.WOwn?
    ensures ChunkInv(PublishStep(s))
  {
    var s', chunk := PublishStep(s), Payload(s.descs[s.head]);
    assert s'.accepted == s.accepted + [chunk] && |chunk| == ChunkOf(s.pc);
    assert Taken(s') == s.written + |chunk| && Taken(s) == s.written < |s.src|;
  }

  /** A step that accepts nothing, and keeps the chunk if it is in the middle of one. */
  lemma ChunkFrame(s: State, s': State)
    requires ChunkInv(s) && s'.size == s.size && s'.src == s.src && s'.base == s.base && s'.accepted == s.accepted
    requires Taken(s') == Taken(s)
    requires s'.pc.WLock? || Publishing(s'.pc) ==>
               ChunkOf(s'.pc) == Least(s'.size, |s'.src| - s'.written)
    ensures ChunkInv(s')
  {
  }

  lemma PublishChunk(s: State)
    requires WriteShape(s) && ChunkInv(s) && Publishing(s.pc) && s.isr == NoIsr
    ensures ChunkInv(PublishStep(s))
  {
    if s.pc.WOwn? {
      OwnChunk(s);
    } else if s.pc.WAdvance? {
      AdvanceChunk(s);
    } else {
      StoresChunk(s);
    }
  }

  lemma AdvanceChunk(s: State)
    requires WriteShape(s) && ChunkInv(s) && s.pc.WAdvance?
    ensures ChunkInv(PublishStep(s))
  {
    ChunkFrame(s, PublishStep(s));
  }

  lemma StoresChunk(s: State)
    requires WriteShape(s) && ChunkInv(s) && Publishing(s.pc) && !s.pc.WOwn? && !s.pc.WAdvance?
    ensures ChunkInv(PublishStep(s))
  {
    if s.pc.WZero? || s.pc.WFields? { FillFrame(s); } else { LinkFrame(s); }
    ChunkFrame(s, PublishStep(s));
  }

  lemma FillFrame(s: State)
    requires Shaped(s) && (s.pc.WZero? || s.pc.WFields?)
    ensures var s' := PublishStep(s);
            s' == s.(descs := s'.descs, pc := s'.pc) && Publishing(s'.pc) && ChunkOf(s'.pc) == ChunkOf(s.pc)
            && Taken(s') == Taken(s)
  {
  }

  lemma LinkFrame(s: State)
    requires Shaped(s) && (s.pc.WLink? || s.pc.WEofLoad? || s.pc.WEofStore?)
    ensures var s' := PublishStep(s);
            s' == s.(descs := s'.descs, pc := s'.pc) && Publishing(s'.pc) && ChunkOf(s'.pc) == ChunkOf(s.pc)
            && Taken(s') == Taken(s)
  {
  }

  lemma MainChunk(s: State, giveUp: bool)
    requires WriteShape(s) && ChunkInv(s) && Enabled(s, Main(giveUp))
    ensures ChunkInv(MainStep(s, giveUp))
  {
    if Reclaiming(s.pc) {
      ReclaimFrame(s, s.pc.stage);
      LockedReclaimFrame(s);
      ChunkFrame(s, MainStep(s, giveUp));
    } else if Publishing(s.pc) {
      PublishChunk(s);
    } else if Starting(s.pc) {
      StartFrame(s, giveUp);
      StartCalm(s, giveUp);
      ChunkFrame(s, MainStep(s, giveUp));
    } else if s.pc == WCopy {
      CopyChunk(s);
      CopyFrame(s);
      ChunkFrame(s, MainStep(s, giveUp));
    } else {
      PlainFrame(s, giveUp);
      PlainControl(s, giveUp);
      ChunkFrame(s, MainStep(s, giveUp));
    }
  }

  lemma StepChunk(s: State, a: Action)
    requires WriteShape(s) && ChunkInv(s) && Enabled(s, a)
    ensures ChunkInv(Step(s, a))
  {
    match a {
      case Main(giveUp) => MainChunk(s, giveUp);
      case Isr => IsrChunk(s);
      case Complete | Follow | Interrupt => DmaChunk(s, a);
      case CallWrite(_) | CallDrain | Return => CallChunk(s, a);
    }
  }

  lemma DmaChunk(s: State, a: Action)
    requires WriteShape(s) && ChunkInv(s) && Enabled(s, a) && (a.Complete? || a.Follow? || a.Interrupt?)
    ensures ChunkInv(Step(s, a))
  {
    ChunkFrame(s, Step(s, a));
  }

  lemma IsrChunk(s: State)
    requires WriteShape(s) && ChunkInv(s) && Enabled(s, Isr)
    ensures ChunkInv(IsrStep(s))
  {
    if s.isr.IReclaim? { ReclaimFrame(s, s.isr.stage); }
    ChunkFrame(s, IsrStep(s));
  }

  lemma CallChunk(s: State, a: Action)
    requires WriteShape(s) && ChunkInv(s) && Enabled(s, a) && (a.CallWrite? || a.CallDrain? || a.Return?)
    ensures ChunkInv(Step(s, a))
  {
  }

  // ---------------------------------------------------------------------------------------------
  // Results

  /** Of the call in progress or the last one: whether the caller has given up waiting, at the head of
      the drain's loop or behind the full ring of a write, and whether the stream was in error when it
      was called. */
  datatype Log = Log(gaveUp: bool, errorFirst: bool)

  function NextLog(s: State, log: Log, a: Action): Log {
    match a
    case CallWrite(_) | CallDrain => Log(false, s.error)
    case Main(giveUp) => if giveUp && (s.pc == DLoop || s.pc == WResumed) then log.(gaveUp := true) else log
    case _ => log
  }

  function LogOf(run: Run): Log
    requires After(run).Some?
  {
    match run
    case Start(_, _) => Log(false, false)
    case Then(before, a) => NextLog(After(before).value, LogOf(before), a)
  }

  /** Where a call that found the stream in error can be. */
  predicate InError(s: State) {
    && s.error
    && match s.pc
       case Out | WEntry | DLoop | DError | DReclaim(_) | DResumed => s.written == 0
       case WReturn => s.written == 0
       case RError(ret) => ret == DResumed && s.written == 0
       case DReturn(ok) => !ok && s.written == 0
       case _ => false
  }

  predicate Reasons(s: State, log: Log) {
    && (s.pc == DReturn(false) ==> s.error || log.gaveUp)
    && (s.pc == WReturn ==> s.written >= |s.src| || s.error || log.gaveUp)
    && (Publishing(s.pc) ==> !s.error)
    && (log.errorFirst ==> InError(s))
  }

  lemma ReclaimReasons(s: State, log: Log)
    requires Shaped(s) && Reasons(s, log) && Reclaiming(s.pc) && s.isr == NoIsr
    ensures Reasons(LockedReclaimStep(s), log)
  {
    ReclaimFrame(s, s.pc.stage);
  }

  lemma StartReasons(s: State, log: Log, fails: bool)
    requires WriteShape(s) && Reasons(s, log) && Starting(s.pc) && s.isr == NoIsr
    ensures Reasons(StartStep(s, fails), log)
  {
    StartFrame(s, fails);
    StartCalm(s, fails);
    StartReturnsNot(s, fails);
  }

  /** No step of a start is the last of a call, and in error there is only the look at it. */
  lemma StartReturnsNot(s: State, fails: bool)
    requires Shaped(s) && WindowInv(s) && Starting(s.pc)
    ensures var pc := StartStep(s, fails).pc; !pc.WReturn? && !pc.DReturn?
    ensures InError(s) ==> InError(StartStep(s, fails))
  {
    if !s.pc.TError? && !s.pc.TQueued? && !s.pc.TStarted? {
      assert StartStep(s, fails).pc == s.pc.ret || Starting(StartStep(s, fails).pc);
    }
  }

  lemma PlainReasons(s: State, log: Log, giveUp: bool)
    requires Reasons(s, log) && Plain(s.pc) && s.pc != Out && s.pc != WReturn && !s.pc.DReturn?
    ensures Reasons(PlainStep(s, giveUp), NextLog(s, log, Main(giveUp)))
  {
    PlainFrame(s, giveUp);
    if log.errorFirst { PlainInError(s, giveUp); }
    PlainReturns(s, log, giveUp);
  }

  lemma PlainInError(s: State, giveUp: bool)
    requires InError(s) && Plain(s.pc) && s.pc != Out && s.pc != WReturn && !s.pc.DReturn?
    ensures InError(PlainStep(s, giveUp))
  {
  }

  lemma PlainReturns(s: State, log: Log, giveUp: bool)
    requires Plain(s.pc) && s.pc != Out && s.pc != WReturn && !s.pc.DReturn?
    ensures var pc, now := PlainStep(s, giveUp).pc, NextLog(s, log, Main(giveUp));
            && (pc == DReturn(false) ==> s.error || now.gaveUp)
            && (pc == WReturn ==> s.written >= |s.src| || s.error || now.gaveUp)
            && (Publishing(pc) ==> !s.error)
  {
  }

  lemma MainReasons(s: State, log: Log, giveUp: bool)
    requires WriteShape(s) && Reasons(s, log) && Enabled(s, Main(giveUp))
    ensures Reasons(MainStep(s, giveUp), NextLog(s, log, Main(giveUp)))
  {
    if Reclaiming(s.pc) {
      ReclaimReasons(s, log);
    } else if Publishing(s.pc) {
    } else if Starting(s.pc) {
      StartReasons(s, log, giveUp);
    } else if s.pc != WCopy {
      PlainReasons(s, log, giveUp);
    }
  }

  lemma StepReasons(s: State, log: Log, a: Action)
    requires WriteShape(s) && Reasons(s, log) && Enabled(s, a)
    ensures Reasons(Step(s, a), NextLog(s, log, a))
  {
    match a {
      case Main(giveUp) => MainReasons(s, log, giveUp);
      case Isr => IsrReasons(s, log);
      case Complete | Follow | Interrupt => DmaReasons(s, log, a);
      case CallWrite(_) | CallDrain | Return =>
    }
  }

  lemma IsrReasons(s: State, log: Log)
    requires WriteShape(s) && Reasons(s, log) && Enabled(s, Isr)
    ensures Reasons(IsrStep(s), log)
  {
    if s.isr.IReclaim? { ReclaimFrame(s, s.isr.stage); }
  }

  lemma DmaReasons(s: State, log: Log, a: Action)
    requires WriteShape(s) && Reasons(s, log) && Enabled(s, a) && (a.Complete? || a.Follow? || a.Interrupt?)
    ensures Reasons(Step(s, a), log)
  {
  }

  lemma {:induction false} RunReasons(run: Run)
    requires After(run).Some?
    ensures WriteShape(After(run).value) && ChunkInv(After(run).value) && Reasons(After(run).value, LogOf(run))
  {
    RunWriteShape(run);
    match run
    case Start(count, size) =>
    case Then(before, a) =>
      RunReasons(before);
      StepChunk(After(before).value, a);
      StepReasons(After(before).value, LogOf(before), a);
  }

  /** In every run, write-backs lost or not: a write that returns has accepted exactly the bytes it
      reports, in chunks of a full buffer but for the last. It reports fewer than it was given only if
      the stream is in error or the caller gave up waiting, and none if the stream was in error when it
      was called. */
  lemma WriteReports(run: Run)
    requires After(run).Some? && After(run).value.pc == WReturn
    ensures var s, log := After(run).value, LogOf(run);
            && s.written <= |s.src| && Flat(s.accepted) == Flat(s.base) + s.src[..s.written]
            && (forall i :: |s.base| <= i < |s.accepted| - 1 ==> |s.accepted[i]| == s.size)
            && (s.written < |s.src| ==> s.error || log.gaveUp)
            && (log.errorFirst ==> s.written == 0)
  {
    RunReasons(run);
  }

  /** In every run: a drain that returns false found the stream in error or its time used up. One that
      returns true has nothing queued, and was not called in error. */
  lemma DrainReports(run: Run)
    requires After(run).Some? && After(run).value.pc.DReturn?
    ensures var s, log := After(run).value, LogOf(run);
            && (!s.pc.ok ==> s.error || log.gaveUp)
            && (s.pc.ok ==> s.queued == 0 && !log.errorFirst)
  {
    RunReasons(run);
    DrainStates(After(run).value, LogOf(run));
  }

  lemma DrainStates(s: State, log: Log)
    requires WindowInv(s) && Reasons(s, log) && s.pc.DReturn?
    ensures !s.pc.ok ==> s.error || log.gaveUp
    ensures s.pc.ok ==> s.queued == 0 && !log.errorFirst
  {
  }

  /** In every run: nothing is published while the stream is in error. */
  lemma NothingPublishedInError(run: Run)
    requires After(run).Some? && After(run).value.error
    ensures !Publishing(After(run).value.pc)
  {
    RunReasons(run);
  }
}
