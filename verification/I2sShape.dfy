/** The shape of the stream's descriptor ring in every run: indices, links, EOF bits, and which
    descriptors the DMA may own. It does not depend on which of the published descriptors the DMA
    has sent, so it survives a write-back that is lost. */
module I2sShape {
  import opened Bytes
  import opened I2sMachine

  /** The ring while `n` slots from `tail` are published, of which `m` are linked and `e` have their
      predecessor's EOF bit cleared; `clearing` is the reclaim stage. */
  datatype Ring = Ring(count: nat, descs: seq<Desc>, tail: nat, n: nat, m: nat, e: nat, clearing: Stage)

  function Clearing(s: State): Stage {
    if s.isr.IReclaim? then s.isr.stage
    else if Reclaiming(s.pc) then s.pc.stage
    else Test
  }

  function RingOf(s: State): Ring {
    var n := s.queued + if s.pc.WLink? || s.pc.WEofLoad? || s.pc.WEofStore? || s.pc.WAdvance? then 1 else 0;
    var m := s.queued + if s.pc.WEofLoad? || s.pc.WEofStore? || s.pc.WAdvance? then 1 else 0;
    var e := s.queued + if s.pc.WAdvance? then 1 else 0;
    Ring(s.count, s.descs, s.tail, n, m, e, Clearing(s))
  }

  /** Position of a slot, counted from the tail. */
  function Pos(g: Ring, slot: nat): int { if slot >= g.tail then slot - g.tail else slot - g.tail + g.count }

  /** Only published slots may belong to the DMA; links and EOF bits follow the position. */
  predicate LinkOk(g: Ring, slot: nat)
    requires slot < |g.descs|
  {
    var d, p := g.descs[slot], Pos(g, slot);
    && (d.ownerDma ==> p < g.n)
    && d.next == (if p + 1 < g.m && !(p == 0 && g.clearing == Advance) then Succ(g.count, slot) else NULL)
    && (p < g.n ==> d.eof == (p + 1 >= g.e || (p == 0 && (g.clearing == Next || g.clearing == Advance))))
  }

  /** A slot at the tail is being cleared. */
  predicate Active(clearing: Stage) { clearing != Test && clearing != Stop }

  predicate Sized(g: Ring) {
    1 <= g.count <= MAX_BUFFERS && |g.descs| == g.count && g.tail < g.count && g.n <= g.count
  }

  predicate LinksInv(g: Ring) {
    && Sized(g) && g.e <= g.m <= g.n <= g.e + 1
    && (Active(g.clearing) ==> g.n > 0 && !g.descs[g.tail].ownerDma)
    && forall slot :: 0 <= slot < g.count ==> LinkOk(g, slot)
  }

  predicate Returnable(pc: Pc) { pc == WLoop || pc == WResumed || pc == DResumed || pc == DReclaim(Test) }

  /** What the program point says about the start window, and where it goes on. */
  predicate WindowInv(s: State) {
    && (s.dma != Parked ==> s.started || s.pc.SMark?)
    && (s.descError ==> s.dma == Parked)
    && (s.isr.IReclaim? ==> s.started) && (s.isr != NoIsr ==> !Locked(s.pc))
    && match s.pc
       case RError(ret) => Returnable(ret)
       case RQueued(ret) => Returnable(ret)
       case RIdle(ret) => Returnable(ret)
       case RMark(ret) => Returnable(ret) && s.dma == Parked
       case SCheck(ret) => Returnable(ret) && !s.started
       case SInit(ret) => Returnable(ret) && !s.started
       case SDesc(ret) => Returnable(ret) && !s.started && !s.descError
       case SGo(ret, addr) => Returnable(ret) && !s.started && !s.descError && addr == s.tail
       case SMark(ret) => Returnable(ret) && !s.started
       case SClear(ret) => Returnable(ret)
       case DQueued => !s.started
       case DStopped => s.queued == 0
       case DReturn(ok) => ok ==> s.queued == 0
       case _ => true
  }

  predicate HeadInv(s: State) {
    && s.queued <= s.count && s.head < s.count
    && s.head == (if s.tail + s.queued < s.count then s.tail + s.queued else s.tail + s.queued - s.count)
    && (s.pc.WCopy? || s.pc.WLock? || Publishing(s.pc) ==> s.queued < s.count)
  }

  predicate Shape(s: State) {
    && LinksInv(RingOf(s)) && HeadInv(s) && WindowInv(s)
    && (s.pc.WEofLoad? || s.pc.WEofStore? ==> s.queued > 0)
    && (s.pc.WOwn? ==> s.descs[s.head].eof)
  }

  // ---------------------------------------------------------------------------------------------
  // What the stores do to the ring

  function Rewrite(g: Ring, slot: nat, d: Desc): Ring
    requires slot < |g.descs|
  {
    g.(descs := g.descs[slot := d])
  }

  lemma ReleaseLinks(g: Ring, slot: nat)
    requires LinksInv(g) && slot < g.count
    ensures LinksInv(Rewrite(g, slot, g.descs[slot].(ownerDma := false)))
  {
    forall t | 0 <= t < g.count
      ensures LinkOk(Rewrite(g, slot, g.descs[slot].(ownerDma := false)), t)
    {
      assert LinkOk(g, t);
    }
  }

  /** Stores of the reclaim loop to the descriptor at the tail. */
  lemma ClearTailLinks(g: Ring, d: Desc, stage: Stage)
    requires LinksInv(g) && Active(g.clearing) && g.clearing != Advance && Active(stage) && !d.ownerDma
    requires LinkOk(Rewrite(g, g.tail, d).(clearing := stage), g.tail)
    ensures LinksInv(Rewrite(g, g.tail, d).(clearing := stage))
  {
    forall t | 0 <= t < g.count
      ensures LinkOk(Rewrite(g, g.tail, d).(clearing := stage), t)
    {
      assert LinkOk(g, t);
    }
  }

  function TailAdvanced(g: Ring): Ring
    requires g.n > 0 && g.m > 0 && g.e > 0
  {
    g.(tail := Succ(g.count, g.tail), n := g.n - 1, m := g.m - 1, e := g.e - 1, clearing := Test)
  }

  lemma AdvanceTailLinks(g: Ring)
    requires LinksInv(g) && g.e == g.n && g.clearing == Advance
    ensures LinksInv(TailAdvanced(g))
  {
    forall t | 0 <= t < g.count
      ensures LinkOk(TailAdvanced(g), t)
    {
      assert LinkOk(g, t) && LinkOk(g, g.tail);
    }
  }

  /** Stores to the free slot at position `n`. */
  lemma FillFreeLinks(g: Ring, slot: nat, d: Desc)
    requires LinksInv(g) && slot < g.count && Pos(g, slot) >= g.n && g.clearing == Test && !d.ownerDma && d.next == NULL
    ensures LinksInv(Rewrite(g, slot, d))
  {
    forall t | 0 <= t < g.count
      ensures LinkOk(Rewrite(g, slot, d), t)
    {
      assert LinkOk(g, t);
    }
  }

  /** The ring with the slot at position `n` handed to the DMA. */
  function Published(g: Ring, slot: nat): Ring
    requires slot < |g.descs|
  {
    Rewrite(g, slot, g.descs[slot].(ownerDma := true)).(n := g.n + 1)
  }

  lemma PublishLinks(g: Ring, slot: nat)
    requires LinksInv(g) && g.clearing == Test && g.e == g.n < g.count && slot < g.count && Pos(g, slot) == g.n
    requires g.descs[slot].eof
    ensures LinksInv(Published(g, slot))
  {
    forall t | 0 <= t < g.count
      ensures LinkOk(Published(g, slot), t)
    {
      assert LinkOk(g, t);
    }
  }

  function Linked(g: Ring, slot: nat): Ring
    requires Pred(g.count, slot) < |g.descs|
  {
    var prev := Pred(g.count, slot);
    Rewrite(g, prev, g.descs[prev].(next := slot)).(m := g.n)
  }

  lemma LinkLinks(g: Ring, slot: nat)
    requires LinksInv(g) && g.clearing == Test && g.e == g.m == g.n - 1 && g.n > 1
    requires slot < g.count && Pos(g, slot) == g.n - 1
    ensures LinksInv(Linked(g, slot))
  {
    forall t | 0 <= t < g.count
      ensures LinkOk(Linked(g, slot), t)
    {
      assert LinkOk(g, t);
    }
  }

  function EofCleared(g: Ring, slot: nat, tmp: bool): Ring
    requires Pred(g.count, slot) < |g.descs|
  {
    var prev := Pred(g.count, slot);
    Rewrite(g, prev, g.descs[prev].(eof := false, ownerDma := tmp)).(e := g.n)
  }

  /** Storing the word back keeps the links whatever owner bit was loaded. */
  lemma ClearEofLinks(g: Ring, slot: nat, tmp: bool)
    requires LinksInv(g) && g.clearing == Test && g.e == g.n - 1 && g.m == g.n && g.n > 1
    requires slot < g.count && Pos(g, slot) == g.n - 1
    ensures LinksInv(EofCleared(g, slot, tmp))
  {
    forall t | 0 <= t < g.count
      ensures LinkOk(EofCleared(g, slot, tmp), t)
    {
      assert LinkOk(g, t);
    }
  }

  lemma OnlySlotLinks(g: Ring)
    requires LinksInv(g) && g.clearing == Test && g.n == 1 && g.m == g.e == 0
    ensures LinksInv(g.(m := 1, e := 1))
  {
    forall t | 0 <= t < g.count
      ensures LinkOk(g.(m := 1, e := 1), t)
    {
      assert LinkOk(g, t);
    }
  }

  // ---------------------------------------------------------------------------------------------
  // Reclaiming

  /** The ring outside a publication, at a reclaim stage. */
  function RingAt(s: State, stage: Stage): Ring {
    Ring(s.count, s.descs, s.tail, s.queued, s.queued, s.queued, stage)
  }

  function StageOr(next: Option<Stage>): Stage { if next == None then Test else next.value }

  /** The ring after one reclaim step. */
  function Reclaimed(s: State, stage: Stage): Ring
    requires Shaped(s)
  {
    RingAt(ReclaimStep(s, stage).0, StageOr(ReclaimStep(s, stage).1))
  }

  lemma StageLinks(g: Ring, stage: Stage)
    requires LinksInv(g) && !Active(g.clearing) && stage != Next && stage != Advance
    requires Active(stage) ==> g.n > 0 && !g.descs[g.tail].ownerDma
    ensures LinksInv(g.(clearing := stage))
  {
    forall t | 0 <= t < g.count
      ensures LinkOk(g.(clearing := stage), t)
    {
      assert LinkOk(g, t);
    }
  }

  lemma ReclaimKeepsLinks(s: State, stage: Stage)
    requires Shaped(s) && LinksInv(RingAt(s, stage))
    ensures LinksInv(Reclaimed(s, stage))
  {
    var g, s', next := RingAt(s, stage), ReclaimStep(s, stage).0, ReclaimStep(s, stage).1;
    match stage {
      case Test | Stop => StageLinks(g, StageOr(next));
      case Len | Eof | Next =>
        assert LinkOk(g, s.tail);
        ClearTailLinks(g, s'.descs[s.tail], next.value);
        assert Reclaimed(s, stage) == Rewrite(g, s.tail, s'.descs[s.tail]).(clearing := next.value);
      case Advance => AdvanceTailLinks(g);
    }
  }

  /** A reclaim changes no data, no history and no program state but the start flag. */
  lemma ReclaimFrame(s: State, stage: Stage)
    requires Shaped(s)
    ensures var s' := ReclaimStep(s, stage).0;
            && s' == s.(descs := s'.descs, tail := s'.tail, queued := s'.queued, started := s'.started)
            && (s'.started ==> s.started) && (s.started && !s'.started ==> s.dma == Parked)
            && (ReclaimStep(s, stage).1 != None ==> s'.started == s.started)
            && |s'.descs| == s.count
            && (forall t :: 0 <= t < s.count ==> s'.descs[t].data == s.descs[t].data)
  {
  }

  lemma ReclaimKeepsHead(s: State, stage: Stage)
    requires HeadInv(s) && Shaped(s) && (stage == Advance ==> s.queued > 0)
    ensures HeadInv(ReclaimStep(s, stage).0)
  {
  }

  lemma LockedReclaimKeepsWindow(s: State)
    requires WindowInv(s) && Shaped(s) && Reclaiming(s.pc) && s.isr == NoIsr
    ensures WindowInv(LockedReclaimStep(s))
  {
    ReclaimFrame(s, s.pc.stage);
  }

  lemma LockedReclaimFrame(s: State)
    requires Shaped(s) && Reclaiming(s.pc) && s.isr == NoIsr
    ensures var s', r := LockedReclaimStep(s), ReclaimStep(s, s.pc.stage).0;
            && s' == r.(pc := s'.pc) && RingOf(s') == Reclaimed(s, s.pc.stage)
            && !Publishing(s'.pc) && !s'.pc.WCopy? && !s'.pc.WLock?
  {
    ReclaimFrame(s, s.pc.stage);
  }

  lemma LockedReclaimKeepsShape(s: State)
    requires Shape(s) && Shaped(s) && Reclaiming(s.pc) && s.isr == NoIsr
    ensures Shape(LockedReclaimStep(s))
  {
    assert RingOf(s) == RingAt(s, s.pc.stage);
    ReclaimKeepsLinks(s, s.pc.stage);
    ReclaimKeepsHead(s, s.pc.stage);
    LockedReclaimFrame(s);
    LockedReclaimKeepsWindow(s);
  }

  lemma IsrKeepsShape(s: State)
    requires Shape(s) && Enabled(s, Isr)
    ensures Shape(IsrStep(s))
  {
    var s' := IsrStep(s);
    if s.isr.IReclaim? {
      assert RingOf(s) == RingAt(s, s.isr.stage);
      ReclaimKeepsLinks(s, s.isr.stage);
      ReclaimFrame(s, s.isr.stage);
      ReclaimKeepsHead(s, s.isr.stage);
      assert RingOf(s') == Reclaimed(s, s.isr.stage);
    } else {
      assert RingOf(s') == RingOf(s);
    }
    assert HeadInv(s') && WindowInv(s');
  }

  // ---------------------------------------------------------------------------------------------
  // Publishing, starting and the program's tests

  lemma FillKeepsShape(s: State)
    requires Shape(s) && Shaped(s) && s.isr == NoIsr && (s.pc.WZero? || s.pc.WFields?)
    ensures Shape(PublishStep(s))
  {
    var g, s' := RingOf(s), PublishStep(s);
    assert LinkOk(g, s.head);
    FillFreeLinks(g, s.head, s'.descs[s.head]);
    assert RingOf(s') == Rewrite(g, s.head, s'.descs[s.head]);
  }

  lemma OwnKeepsShape(s: State)
    requires Shape(s) && Shaped(s) && s.isr == NoIsr && s.pc.WOwn?
    ensures Shape(PublishStep(s))
  {
    PublishLinks(RingOf(s), s.head);
    assert RingOf(PublishStep(s)) == Published(RingOf(s), s.head);
  }

  lemma LinkKeepsShape(s: State)
    requires Shape(s) && Shaped(s) && s.isr == NoIsr && s.pc.WLink?
    ensures Shape(PublishStep(s))
  {
    var g, s' := RingOf(s), PublishStep(s);
    if s.queued > 0 {
      LinkLinks(g, s.head);
      assert RingOf(s') == Linked(g, s.head);
    } else {
      OnlySlotLinks(g);
      assert RingOf(s') == g.(m := 1, e := 1);
    }
  }

  lemma EofStoreKeepsShape(s: State)
    requires Shape(s) && Shaped(s) && s.isr == NoIsr && s.pc.WEofStore?
    ensures Shape(PublishStep(s))
  {
    ClearEofLinks(RingOf(s), s.head, s.pc.tmp);
    assert RingOf(PublishStep(s)) == EofCleared(RingOf(s), s.head, s.pc.tmp);
  }

  lemma PublishKeepsShape(s: State)
    requires Shape(s) && Shaped(s) && s.isr == NoIsr && Publishing(s.pc)
    ensures Shape(PublishStep(s))
  {
    match s.pc {
      case WZero(_) | WFields(_) => FillKeepsShape(s);
      case WOwn(_) => OwnKeepsShape(s);
      case WLink(_) => LinkKeepsShape(s);
      case WEofLoad(_) | WAdvance(_) => assert RingOf(PublishStep(s)) == RingOf(s);
      case WEofStore(_, _) => EofStoreKeepsShape(s);
    }
  }

  /** The program points of tests and of starting: nothing is being published or copied. */
  predicate Calm(pc: Pc) { !Publishing(pc) && !pc.WCopy? && !pc.WLock? && (Reclaiming(pc) ==> pc.stage == Test) }

  /** Starting changes no descriptor, index or history. */
  lemma StartFrame(s: State, fails: bool)
    requires Shaped(s) && Starting(s.pc) && WindowInv(s)
    ensures var s' := StartStep(s, fails);
            && s' == s.(pc := s'.pc, dma := s'.dma, started := s'.started, error := s'.error, descError := s'.descError)
            && (s'.dma == s.dma || s'.dma == Parked || (s.descs[s.tail].ownerDma && s'.dma == Running(s.tail)))
  {
  }

  lemma StartCalm(s: State, fails: bool)
    requires Shaped(s) && Starting(s.pc) && WindowInv(s)
    ensures Calm(StartStep(s, fails).pc)
  {
    if s.pc.TError? || s.pc.TQueued? || s.pc.TStarted? {
    } else {
      assert Returnable(s.pc.ret) && Calm(s.pc.ret);
      assert StartStep(s, fails).pc == s.pc.ret || Starting(StartStep(s, fails).pc);
    }
  }

  lemma StartKeepsWindow(s: State, fails: bool)
    requires Shaped(s) && s.isr == NoIsr && Starting(s.pc) && WindowInv(s)
    ensures WindowInv(StartStep(s, fails))
  {
  }

  lemma StartKeepsShape(s: State, fails: bool)
    requires Shape(s) && Shaped(s) && s.isr == NoIsr && Starting(s.pc)
    ensures Shape(StartStep(s, fails))
  {
    var s' := StartStep(s, fails);
    StartFrame(s, fails);
    StartCalm(s, fails);
    StartKeepsWindow(s, fails);
    assert RingOf(s') == RingOf(s);
  }

  /** The program's own tests: no shared memory but the flags they read. */
  predicate Plain(pc: Pc) { !Publishing(pc) && !Starting(pc) && !Reclaiming(pc) && pc != WCopy }

  lemma PlainFrame(s: State, giveUp: bool)
    requires Plain(s.pc) && s.pc != Out && s.pc != WReturn && !s.pc.DReturn?
    ensures PlainStep(s, giveUp) == s.(pc := PlainStep(s, giveUp).pc)
  {
  }

  lemma PlainControl(s: State, giveUp: bool)
    requires Plain(s.pc) && s.pc != Out && s.pc != WReturn && !s.pc.DReturn?
    ensures var pc := PlainStep(s, giveUp).pc;
            Calm(pc) || (pc == WCopy && s.queued < s.count) || (s.pc.WLock? && pc == WZero(s.pc.chunk))
  {
  }

  lemma PlainKeepsWindow(s: State, giveUp: bool)
    requires WindowInv(s) && s.isr == NoIsr && Plain(s.pc) && s.pc != Out && s.pc != WReturn && !s.pc.DReturn?
    ensures WindowInv(PlainStep(s, giveUp))
  {
  }

  lemma PlainKeepsShape(s: State, giveUp: bool)
    requires Shape(s) && Enabled(s, Main(giveUp)) && Plain(s.pc)
    ensures Shape(PlainStep(s, giveUp))
  {
    var s' := PlainStep(s, giveUp);
    PlainFrame(s, giveUp);
    PlainControl(s, giveUp);
    PlainKeepsWindow(s, giveUp);
    assert RingOf(s') == RingOf(s);
    assert HeadInv(s');
  }

  lemma CopyFrame(s: State)
    requires Shaped(s) && s.pc == WCopy
    ensures var s' := CopyStep(s);
            && s' == s.(pc := s'.pc, descs := s.descs[s.head := s.descs[s.head].(data := s'.descs[s.head].data)])
            && (s'.pc.WLock? || s' == s)
  {
  }

  lemma CopyKeepsShape(s: State)
    requires Shape(s) && Shaped(s) && s.isr == NoIsr && s.pc == WCopy
    ensures Shape(CopyStep(s))
  {
    var g, s' := RingOf(s), CopyStep(s);
    CopyFrame(s);
    assert LinkOk(g, s.head);
    FillFreeLinks(g, s.head, s'.descs[s.head]);
    assert RingOf(s') == Rewrite(g, s.head, s'.descs[s.head]);
  }

  lemma MainKeepsShape(s: State, giveUp: bool)
    requires Shape(s) && Enabled(s, Main(giveUp))
    ensures Shape(MainStep(s, giveUp))
  {
    if Reclaiming(s.pc) {
      LockedReclaimKeepsShape(s);
    } else if Publishing(s.pc) {
      PublishKeepsShape(s);
    } else if Starting(s.pc) {
      StartKeepsShape(s, giveUp);
    } else if s.pc == WCopy {
      CopyKeepsShape(s);
    } else {
      PlainKeepsShape(s, giveUp);
    }
  }

  lemma CompleteKeepsShape(s: State)
    requires Shape(s) && Enabled(s, Complete)
    ensures Shape(DmaStep(s))
  {
    ReleaseLinks(RingOf(s), s.dma.slot);
    assert RingOf(DmaStep(s)) == Rewrite(RingOf(s), s.dma.slot, s.descs[s.dma.slot].(ownerDma := false));
    assert HeadInv(DmaStep(s)) && WindowInv(DmaStep(s));
  }

  lemma FollowFrame(s: State)
    requires Enabled(s, Follow)
    ensures var s' := DmaStep(s);
            && s' == s.(dma := s'.dma, descError := s'.descError)
            && (s'.descError ==> s.descError || s'.dma == Parked)
  {
  }

  lemma FollowedKeepsShape(s: State, dma: Dma, descError: bool)
    requires Shape(s) && s.dma != Parked && (descError ==> s.descError || dma == Parked)
    ensures Shape(s.(dma := dma, descError := descError))
  {
    assert RingOf(s.(dma := dma, descError := descError)) == RingOf(s);
  }

  lemma FollowKeepsShape(s: State)
    requires Shape(s) && Enabled(s, Follow)
    ensures Shape(DmaStep(s))
  {
    FollowFrame(s);
    FollowedKeepsShape(s, DmaStep(s).dma, DmaStep(s).descError);
  }

  /** Every step of the writer, the handler and the DMA keeps the shape, a store that undoes a
      write-back included. */
  lemma StepKeepsShape(s: State, a: Action)
    requires Shape(s) && Enabled(s, a)
    ensures Shape(Step(s, a))
  {
    match a {
      case CallWrite(_) | CallDrain | Return | Interrupt => assert RingOf(Step(s, a)) == RingOf(s);
      case Main(giveUp) => MainKeepsShape(s, giveUp);
      case Isr => IsrKeepsShape(s);
      case Complete => CompleteKeepsShape(s);
      case Follow => FollowKeepsShape(s);
    }
  }

  lemma BeginShape(count: nat, size: nat)
    requires 1 <= count <= MAX_BUFFERS && size > 0
    ensures Shape(Begin(count, size))
  {
    forall t | 0 <= t < count
      ensures LinkOk(RingOf(Begin(count, size)), t)
    {
    }
  }

  lemma {:induction false} RunShape(run: Run)
    requires After(run).Some?
    ensures Shape(After(run).value)
  {
    match run
    case Start(count, size) => BeginShape(count, size);
    case Then(before, a) =>
      RunShape(before);
      StepKeepsShape(After(before).value, a);
  }

  // ---------------------------------------------------------------------------------------------
  // The queue along the links

  /** The slots visited from `slot` along `next`, at most `fuel` of them. */
  function Visit(descs: seq<Desc>, slot: int, fuel: nat): seq<int>
    decreases fuel
  {
    if fuel == 0 || !(0 <= slot < |descs|) then [] else [slot] + Visit(descs, descs[slot].next, fuel - 1)
  }

  /** Slot at a queue position. */
  function SlotAt(s: State, i: nat): int { if s.tail + i < s.count then s.tail + i else s.tail + i - s.count }

  /** The descriptor at a queue position is linked to the next one, the last one to none. */
  predicate LinkedAt(s: State, p: nat)
    requires Shaped(s) && p < s.queued <= s.count
  {
    s.descs[SlotAt(s, p)].next == if p + 1 < s.queued then SlotAt(s, p + 1) else NULL
  }

  lemma {:induction false} VisitFrom(s: State, i: nat, fuel: nat)
    requires Shaped(s) && i < s.queued <= s.count && fuel >= s.queued - i
    requires forall p :: i <= p < s.queued ==> LinkedAt(s, p)
    ensures var v := Visit(s.descs, SlotAt(s, i), fuel);
            |v| == s.queued - i && forall j :: 0 <= j < |v| ==> v[j] == SlotAt(s, i + j)
    decreases fuel
  {
    var here := SlotAt(s, i);
    assert LinkedAt(s, i);
    assert Visit(s.descs, here, fuel) == [here] + Visit(s.descs, s.descs[here].next, fuel - 1);
    if i + 1 < s.queued {
      VisitFrom(s, i + 1, fuel - 1);
    } else {
      assert Visit(s.descs, NULL, fuel - 1) == [];
      assert Visit(s.descs, here, fuel) == [here];
    }
  }

  lemma LinksInOrder(s: State, p: nat)
    requires Shaped(s) && LinksInv(RingAt(s, Test)) && p < s.queued
    ensures LinkedAt(s, p)
  {
    assert LinkOk(RingAt(s, Test), SlotAt(s, p));
  }

  lemma WrapOnce(a: nat, b: nat)
    requires 0 < b && a < 2 * b
    ensures a % b == if a < b then a else a - b
  {
    if a >= b {
      assert a == b + (a - b);
    }
  }

  /** Head is tail + queued, and the links from the tail visit exactly the queued slots, in order,
      up to a descriptor with EOF = 1 and next = NULL. */
  predicate WellLinked(s: State) {
    && Shaped(s) && s.queued <= s.count && s.head == (s.tail + s.queued) % s.count
    && (s.queued > 0 ==>
          && |Visit(s.descs, s.tail, s.count)| == s.queued
          && (forall i :: 0 <= i < s.queued ==> Visit(s.descs, s.tail, s.count)[i] == SlotAt(s, i))
          && s.descs[SlotAt(s, s.queued - 1)].eof && s.descs[SlotAt(s, s.queued - 1)].next == NULL)
  }

  lemma ShapeWellLinked(s: State)
    requires Shape(s) && !Active(Clearing(s)) && !Publishing(s.pc)
    ensures WellLinked(s)
  {
    WrapOnce(s.tail + s.queued, s.count);
    StageLinks(RingOf(s), Test);
    assert RingOf(s).(clearing := Test) == RingAt(s, Test);
    if s.queued > 0 {
      QueueVisited(s);
      assert LinkOk(RingAt(s, Test), SlotAt(s, s.queued - 1));
    }
  }

  lemma QueueVisited(s: State)
    requires Shaped(s) && LinksInv(RingAt(s, Test)) && s.queued > 0
    ensures var v := Visit(s.descs, s.tail, s.count);
            |v| == s.queued && forall i :: 0 <= i < |v| ==> v[i] == SlotAt(s, i)
  {
    forall p: nat | p < s.queued
      ensures LinkedAt(s, p)
    {
      LinksInOrder(s, p);
    }
    VisitFrom(s, 0, s.count);
  }

  // ---------------------------------------------------------------------------------------------
  // A whole reclaim

  function Rank(stage: Stage): nat {
    match stage case Test => 5 case Len => 4 case Eof => 3 case Next => 2 case Advance => 1 case Stop => 0
  }

  /** A reclaim from a stage to its end, with no step of the DMA in between. */
  function ReclaimFrom(s: State, stage: Stage): State
    requires Shaped(s) && (Active(stage) ==> s.queued > 0)
    decreases s.queued, Rank(stage)
  {
    var (s', next) := ReclaimStep(s, stage);
    if next == None then s' else ReclaimFrom(s', next.value)
  }

  function Freed(d: Desc): Desc { d.(length := 0, eof := true, next := NULL) }

  /** The ring with its first queued slot cleared, and without it. */
  function TailCleared(s: State): State
    requires Shaped(s)
  {
    s.(descs := s.descs[s.tail := Freed(s.descs[s.tail])])
  }

  function TailFreed(s: State): State
    requires Shaped(s) && s.queued > 0
  {
    TailCleared(s).(tail := Succ(s.count, s.tail), queued := s.queued - 1)
  }

  lemma TailStores(s: State)
    requires Shaped(s)
    ensures ReclaimStep(ReclaimStep(ReclaimStep(s, Len).0, Eof).0, Next).0 == TailCleared(s)
  {
    assert ReclaimStep(ReclaimStep(s, Len).0, Eof).0.descs
        == s.descs[s.tail := s.descs[s.tail].(length := 0, eof := true)];
  }

  lemma OneTurn(s: State)
    requires Shaped(s) && s.queued > 0 && !s.descs[s.tail].ownerDma
    ensures ReclaimFrom(s, Test) == ReclaimFrom(TailFreed(s), Test)
  {
    var a := ReclaimStep(s, Len).0;
    var b := ReclaimStep(a, Eof).0;
    TailStores(s);
    assert ReclaimFrom(s, Test) == ReclaimFrom(s, Len) == ReclaimFrom(a, Eof);
    assert ReclaimFrom(a, Eof) == ReclaimFrom(b, Next) == ReclaimFrom(TailCleared(s), Advance);
    TurnEnds(s);
  }

  lemma TurnEnds(s: State)
    requires Shaped(s) && s.queued > 0
    ensures ReclaimFrom(TailCleared(s), Advance) == ReclaimFrom(TailFreed(s), Test)
  {
    assert ReclaimStep(TailCleared(s), Advance) == (TailFreed(s), Some(Test));
  }

  /** The first `j` queued slots, which the CPU owns, are freed and cleared, and no other slot is
      changed; the next one is the DMA's. The stream ends when nothing is queued and the channel is
      idle. */
  predicate FreedUpTo(s: State, r: State, j: nat)
    requires Shaped(s) && s.queued <= s.count
  {
    && j <= s.queued && (forall i :: 0 <= i < j ==> !s.descs[SlotAt(s, i)].ownerDma)
    && (j < s.queued ==> s.descs[SlotAt(s, j)].ownerDma)
    && Shaped(r) && r.tail == SlotAt(s, j) && r.queued == s.queued - j && r.count == s.count && r.head == s.head
    && r.started == (s.started && !(r.queued == 0 && s.dma == Parked))
    && forall i :: 0 <= i < s.count ==>
         r.descs[SlotAt(s, i)] == if i < j then Freed(s.descs[SlotAt(s, i)]) else s.descs[SlotAt(s, i)]
  }

  lemma ShiftedSlots(s: State)
    requires Shaped(s) && s.queued > 0
    ensures forall i :: 0 < i <= s.count ==> SlotAt(s, i) == SlotAt(TailFreed(s), i - 1)
    ensures SlotAt(s, 0) == SlotAt(TailFreed(s), s.count - 1)
    ensures forall i :: 0 < i < s.count ==> SlotAt(s, i) != s.tail
  {
  }

  lemma FreedOneMore(s: State, r: State, k: nat)
    requires Shaped(s) && 0 < s.queued <= s.count && !s.descs[s.tail].ownerDma && FreedUpTo(TailFreed(s), r, k)
    ensures FreedUpTo(s, r, k + 1)
  {
    var t := TailFreed(s);
    ShiftedSlots(s);
    assert SlotAt(s, 0) == s.tail;
    forall i | 0 <= i < s.count
      ensures r.descs[SlotAt(s, i)] == if i < k + 1 then Freed(s.descs[SlotAt(s, i)]) else s.descs[SlotAt(s, i)]
    {
      assert SlotAt(s, i) == SlotAt(t, if i > 0 then i - 1 else s.count - 1);
    }
  }

  lemma NothingFreed(s: State)
    requires Shaped(s) && s.queued <= s.count && (s.queued == 0 || s.descs[s.tail].ownerDma)
    ensures FreedUpTo(s, ReclaimFrom(s, Test), 0)
  {
    assert SlotAt(s, 0) == s.tail;
    assert ReclaimFrom(s, Test) == ReclaimFrom(s, Stop) == ReclaimStep(s, Stop).0;
  }

  /** A reclaim frees exactly the leading queued slots that the CPU owns. */
  lemma {:induction false} ReclaimFreesPrefix(s: State) returns (j: nat)
    requires Shaped(s) && s.queued <= s.count
    ensures FreedUpTo(s, ReclaimFrom(s, Test), j)
    decreases s.queued
  {
    if s.queued > 0 && !s.descs[s.tail].ownerDma {
      OneTurn(s);
      var k := ReclaimFreesPrefix(TailFreed(s));
      FreedOneMore(s, ReclaimFrom(s, Test), k);
      j := k + 1;
    } else {
      NothingFreed(s);
      j := 0;
    }
  }

  /** In every run, the ring is well linked whenever the lock is free and no descriptor is being
      cleared by the handler. */
  lemma {:induction false} RingShape(run: Run)
    requires After(run).Some?
    requires !Locked(After(run).value.pc) && !Active(Clearing(After(run).value))
    ensures WellLinked(After(run).value)
  {
    RunShape(run);
    ShapeWellLinked(After(run).value);
  }

  /** In every run, at every memory step: no DMA-owned descriptor has EOF = 0 and a NULL next. */
  lemma {:induction false} NoDanglingDescriptor(run: Run, slot: nat)
    requires After(run).Some? && slot < |After(run).value.descs|
    ensures var d := After(run).value.descs[slot]; d.ownerDma ==> d.eof || d.next != NULL
  {
    RunShape(run);
    assert LinkOk(RingOf(After(run).value), slot);
  }
}
