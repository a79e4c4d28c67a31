/** What the stream sends: in every run that loses no write-back, the bytes sent are those accepted,
    in order. A run can lose one exactly when the ring has more than one buffer. */
module I2sStream {
  import opened Bytes
  import opened I2sMachine
  import opened I2sShape

  /** The DMA writes back the owner bit of the descriptor whose word the writer has loaded and not
      yet stored: the store will undo the write-back. */
  predicate LosesWriteBack(s: State, a: Action) {
    a == Complete && s.pc.WEofStore? && s.pc.tmp && s.dma == Running(Pred(s.count, s.head))
  }

  predicate NoLostWriteBack(run: Run)
    requires After(run).Some?
  {
    run.Then? ==>
      After(run.before).Some? && !LosesWriteBack(After(run.before).value, run.a) && NoLostWriteBack(run.before)
  }

  // ---------------------------------------------------------------------------------------------
  // Owners and data

  datatype History = History(size: nat, accepted: seq<seq<byte>>, sent: seq<seq<byte>>)

  function HistoryOf(s: State): History { History(s.size, s.accepted, s.sent) }

  /** How many published slots are sent and not yet reclaimed. */
  function Done(g: Ring, h: History): int { g.n - (|h.accepted| - |h.sent|) }

  /** The DMA owns exactly the published slots that are not sent, and they hold the next chunks. */
  predicate DataOk(g: Ring, h: History, slot: nat)
    requires slot < |g.descs|
  {
    var d, p, k := g.descs[slot], Pos(g, slot), Done(g, h);
    && |d.data| == h.size
    && (d.ownerDma <==> k <= p < g.n)
    && (k <= p < g.n ==> 0 < d.length <= h.size
                         && 0 <= |h.sent| + p - k < |h.accepted| && d.data[..d.length] == h.accepted[|h.sent| + p - k])
  }

  predicate DataInv(g: Ring, h: History) {
    && Sized(g) && h.size > 0
    && |h.sent| <= |h.accepted| && h.sent == h.accepted[..|h.sent|]
    && 0 <= Done(g, h) && (Active(g.clearing) ==> Done(g, h) > 0)
    && forall slot :: 0 <= slot < g.count ==> DataOk(g, h, slot)
  }

  predicate DmaInv(g: Ring, h: History, dma: Dma) {
    match dma
    case Parked => true
    case Running(slot) => slot < g.count && Done(g, h) < g.n && Pos(g, slot) == Done(g, h)
    case Following(slot) => slot < g.count && Pos(g, slot) == if Done(g, h) > 0 then Done(g, h) - 1 else g.count - 1
  }

  /** Both, for the ring of a state. */
  predicate SendInv(g: Ring, h: History, dma: Dma) { DataInv(g, h) && DmaInv(g, h, dma) }

  /** Changes to links, EOF bits and the reclaim stage do not matter. */
  lemma SameData(g: Ring, g': Ring, h: History, dma: Dma)
    requires SendInv(g, h, dma) && Sized(g') && g'.count == g.count && g'.tail == g.tail && g'.n == g.n
    requires forall t :: 0 <= t < g.count ==>
               g'.descs[t] == g.descs[t].(next := g'.descs[t].next, eof := g'.descs[t].eof)
    requires Active(g'.clearing) ==> Done(g, h) > 0
    ensures SendInv(g', h, dma)
  {
    forall t | 0 <= t < g.count
      ensures DataOk(g', h, t)
    {
      assert DataOk(g, h, t);
    }
  }

  /** The DMA sends the first unsent slot. */
  lemma CompleteKeepsData(g: Ring, h: History, slot: nat)
    requires SendInv(g, h, Running(slot))
    ensures var d := g.descs[slot];
            SendInv(Rewrite(g, slot, d.(ownerDma := false)), h.(sent := h.sent + [Payload(d)]), Following(slot))
  {
    var d := g.descs[slot];
    var g', h' := Rewrite(g, slot, d.(ownerDma := false)), h.(sent := h.sent + [Payload(d)]);
    assert DataOk(g, h, slot);
    forall t | 0 <= t < g.count
      ensures DataOk(g', h', t)
    {
      assert DataOk(g, h, t);
    }
  }

  /** Following `next` finds the first unsent slot or nothing: never a CPU-owned descriptor. */
  lemma FollowFinds(g: Ring, h: History, slot: nat)
    requires LinksInv(g) && SendInv(g, h, Following(slot))
    ensures g.descs[slot].next != NULL ==>
              && 0 <= g.descs[slot].next < g.count && g.descs[g.descs[slot].next].ownerDma
              && DmaInv(g, h, Running(g.descs[slot].next))
  {
    assert LinkOk(g, slot);
    if g.descs[slot].next != NULL {
      assert DataOk(g, h, g.descs[slot].next as nat);
    }
  }

  /** A DMA-owned tail is the first unsent slot. */
  lemma TailStarts(g: Ring, h: History)
    requires DataInv(g, h)
    ensures g.descs[g.tail].ownerDma ==> DmaInv(g, h, Running(g.tail))
    ensures g.n > 0 && !g.descs[g.tail].ownerDma ==> Done(g, h) > 0
  {
    assert DataOk(g, h, g.tail);
  }

  /** Stores to a slot that is free or sent, without giving it to the DMA. */
  lemma StoreKeepsData(g: Ring, h: History, dma: Dma, slot: nat, d: Desc)
    requires SendInv(g, h, dma) && slot < g.count && |d.data| == h.size && !d.ownerDma
    requires Pos(g, slot) >= g.n || Pos(g, slot) < Done(g, h)
    ensures SendInv(Rewrite(g, slot, d), h, dma)
  {
    forall t | 0 <= t < g.count
      ensures DataOk(Rewrite(g, slot, d), h, t)
    {
      assert DataOk(g, h, t);
    }
  }

  lemma AdvanceTailData(g: Ring, h: History, dma: Dma)
    requires SendInv(g, h, dma) && g.clearing == Advance && g.n > 0 && g.m > 0 && g.e > 0
    ensures SendInv(TailAdvanced(g), h, dma)
  {
    forall t | 0 <= t < g.count
      ensures DataOk(TailAdvanced(g), h, t)
    {
      assert DataOk(g, h, t);
    }
  }

  /** Handing the filled slot to the DMA accepts its bytes. */
  lemma PublishData(g: Ring, h: History, dma: Dma, slot: nat)
    requires SendInv(g, h, dma) && g.clearing == Test && g.n < g.count && slot < g.count && Pos(g, slot) == g.n
    requires 0 < g.descs[slot].length <= h.size
    ensures SendInv(Published(g, slot), h.(accepted := h.accepted + [Payload(g.descs[slot])]), dma)
  {
    var g', h' := Published(g, slot), h.(accepted := h.accepted + [Payload(g.descs[slot])]);
    assert DataOk(g, h, slot);
    forall t | 0 <= t < g.count
      ensures DataOk(g', h', t)
    {
      assert DataOk(g, h, t);
    }
  }

  /** A stale owner bit marks the wrong descriptor as unsent (or sent). */
  lemma StaleBitBreaksData(g: Ring, h: History, slot: nat, tmp: bool)
    requires DataInv(g, h) && g.n > 1 && slot < g.count && Pos(g, slot) == g.n - 1
    requires tmp != g.descs[Pred(g.count, slot)].ownerDma
    ensures !DataInv(EofCleared(g, slot, tmp), h)
  {
    var prev := Pred(g.count, slot);
    assert DataOk(g, h, prev);
    assert !DataOk(EofCleared(g, slot, tmp), h, prev);
  }

  // ---------------------------------------------------------------------------------------------
  // The program

  function Flat(chunks: seq<seq<byte>>): seq<byte> {
    if chunks == [] then [] else Flat(chunks[..|chunks| - 1]) + chunks[|chunks| - 1]
  }

  /** Inside the write loop with bytes left to write. */
  predicate Unfinished(pc: Pc) {
    match pc
    case WReclaim(_) | WFull | WReclaimAgain(_) | WResumed | WCopy | WLock(_) => true
    case RError(ret) => ret == WResumed
    case RQueued(ret) => ret == WResumed
    case RIdle(ret) => ret == WResumed
    case RMark(ret) => ret == WResumed
    case SCheck(ret) => ret == WResumed
    case SInit(ret) => ret == WResumed
    case SDesc(ret) => ret == WResumed
    case SGo(ret, _) => ret == WResumed
    case SMark(ret) => ret == WResumed
    case SClear(ret) => ret == WResumed
    case _ => false
  }

  function ChunkOf(pc: Pc): nat {
    match pc
    case WLock(c) => c case WZero(c) => c case WFields(c) => c case WOwn(c) => c
    case WLink(c) => c case WEofLoad(c) => c case WEofStore(c, _) => c case WAdvance(c) => c
    case _ => 0
  }

  /** The bytes of this call that are already accepted. */
  function Taken(s: State): nat {
    s.written + if s.pc.WLink? || s.pc.WEofLoad? || s.pc.WEofStore? || s.pc.WAdvance? then ChunkOf(s.pc) else 0
  }

  predicate WriteInv(s: State)
    requires |s.descs| == s.count && s.head < s.count
  {
    && Taken(s) <= |s.src| && Flat(s.accepted) == Flat(s.base) + s.src[..Taken(s)]
    && (Unfinished(s.pc) ==> s.written < |s.src|)
    && (s.pc.WLock? || Publishing(s.pc) ==>
          && 0 < ChunkOf(s.pc) <= s.size && s.written + ChunkOf(s.pc) <= |s.src|)
    && (s.pc.WLock? || s.pc.WZero? || s.pc.WFields? || s.pc.WOwn? ==>
          && |s.descs[s.head].data| == s.size
          && s.descs[s.head].data[..ChunkOf(s.pc)] == s.src[s.written..s.written + ChunkOf(s.pc)])
    && (s.pc.WOwn? ==> s.descs[s.head].length == ChunkOf(s.pc))
  }

  /** Everything but the owner bit the writer holds in a register. */
  predicate WeakInv(s: State) { Shape(s) && SendInv(RingOf(s), HistoryOf(s), s.dma) && WriteInv(s) }

  /** The register still agrees with memory. */
  predicate RegisterFresh(s: State)
    requires |s.descs| == s.count && s.head < s.count && s.count > 0
  {
    s.pc.WEofStore? ==> s.pc.tmp == s.descs[Pred(s.count, s.head)].ownerDma
  }

  predicate Inv(s: State) { WeakInv(s) && RegisterFresh(s) }

  // ---------------------------------------------------------------------------------------------
  // Every step keeps the invariant

  lemma FlatAppend(chunks: seq<seq<byte>>, c: seq<byte>)
    ensures Flat(chunks + [c]) == Flat(chunks) + c
  {
    assert (chunks + [c])[..|chunks|] == chunks;
  }

  lemma CompleteKeepsInv(s: State)
    requires WeakInv(s) && Enabled(s, Complete)
    ensures WeakInv(Step(s, Complete))
  {
    var s' := Step(s, Complete);
    CompleteKeepsShape(s);
    CompleteKeepsData(RingOf(s), HistoryOf(s), s.dma.slot);
    assert RingOf(s') == Rewrite(RingOf(s), s.dma.slot, s.descs[s.dma.slot].(ownerDma := false));
    WriteFrame(s, s');
  }

  /** The register goes stale exactly when the DMA writes back under the writer's load. */
  lemma CompleteKeepsRegister(s: State)
    requires Inv(s) && Enabled(s, Complete)
    ensures RegisterFresh(Step(s, Complete)) <==> !LosesWriteBack(s, Complete)
  {
    assert DataOk(RingOf(s), HistoryOf(s), s.dma.slot);
  }

  /** The write in progress depends only on its own fields and the descriptor at the head. */
  lemma WriteFrame(s: State, s': State)
    requires |s.descs| == s.count == |s'.descs| == s'.count && s.head < s.count && WriteInv(s)
    requires s'.pc == s.pc && s'.head == s.head && s'.size == s.size && s'.src == s.src && s'.written == s.written
    requires s'.base == s.base && s'.accepted == s.accepted
    requires s'.descs[s.head].data == s.descs[s.head].data && s'.descs[s.head].length == s.descs[s.head].length
    ensures WriteInv(s')
  {
    assert Taken(s') == Taken(s);
  }

  lemma FollowKeepsInv(s: State)
    requires WeakInv(s) && Enabled(s, Follow)
    ensures WeakInv(Step(s, Follow)) && (Step(s, Follow).descError ==> s.descError)
    ensures RegisterFresh(s) ==> RegisterFresh(Step(s, Follow))
  {
    var s' := Step(s, Follow);
    FollowKeepsShape(s);
    FollowKeepsData(s);
    FollowFrame(s);
    WriteFrame(s, s');
  }

  lemma FollowKeepsData(s: State)
    requires WeakInv(s) && Enabled(s, Follow)
    ensures var s' := Step(s, Follow); SendInv(RingOf(s'), HistoryOf(s'), s'.dma) && (s'.descError ==> s.descError)
  {
    FollowFinds(RingOf(s), HistoryOf(s), s.dma.slot);
    assert RingOf(Step(s, Follow)) == RingOf(s);
  }

  lemma TestKeepsData(s: State, stage: Stage)
    requires Shaped(s) && (stage == Test || stage == Stop) && Sized(Reclaimed(s, stage))
    requires SendInv(RingAt(s, stage), HistoryOf(s), s.dma)
    ensures SendInv(Reclaimed(s, stage), HistoryOf(s), s.dma) && ReclaimStep(s, stage).0.dma == s.dma
  {
    TailStarts(RingAt(s, stage), HistoryOf(s));
    SameData(RingAt(s, stage), Reclaimed(s, stage), HistoryOf(s), s.dma);
  }

  lemma ClearKeepsData(s: State, stage: Stage)
    requires Shaped(s) && (stage == Len || stage == Eof || stage == Next) && Sized(Reclaimed(s, stage))
    requires SendInv(RingAt(s, stage), HistoryOf(s), s.dma)
    ensures SendInv(Reclaimed(s, stage), HistoryOf(s), s.dma)
  {
    var g, h, d := RingAt(s, stage), HistoryOf(s), ReclaimStep(s, stage).0.descs[s.tail];
    assert DataOk(g, h, s.tail);
    StoreKeepsData(g, h, s.dma, s.tail, d);
    SameData(Rewrite(g, s.tail, d), Reclaimed(s, stage), h, s.dma);
  }

  lemma ReclaimKeepsData(s: State, stage: Stage)
    requires Shaped(s) && LinksInv(RingAt(s, stage)) && SendInv(RingAt(s, stage), HistoryOf(s), s.dma)
    ensures SendInv(Reclaimed(s, stage), HistoryOf(s), ReclaimStep(s, stage).0.dma)
  {
    ReclaimKeepsLinks(s, stage);
    match stage {
      case Test | Stop => TestKeepsData(s, stage);
      case Len | Eof | Next => ClearKeepsData(s, stage);
      case Advance => AdvanceTailData(RingAt(s, stage), HistoryOf(s), s.dma);
    }
  }

  lemma LockedReclaimKeepsData(s: State)
    requires Inv(s) && Shaped(s) && Reclaiming(s.pc) && s.isr == NoIsr
    ensures var s' := LockedReclaimStep(s); SendInv(RingOf(s'), HistoryOf(s'), s'.dma)
  {
    assert RingOf(s) == RingAt(s, s.pc.stage);
    ReclaimKeepsData(s, s.pc.stage);
    ReclaimFrame(s, s.pc.stage);
    assert RingOf(LockedReclaimStep(s)) == Reclaimed(s, s.pc.stage);
  }

  lemma LockedReclaimKeepsInv(s: State)
    requires Inv(s) && Shaped(s) && Reclaiming(s.pc) && s.isr == NoIsr
    ensures Inv(LockedReclaimStep(s))
  {
    var s' := LockedReclaimStep(s);
    LockedReclaimKeepsShape(s);
    LockedReclaimKeepsData(s);
    ReclaimFrame(s, s.pc.stage);
    assert WriteInv(s') by { assert Taken(s') == Taken(s); }
  }

  lemma IsrReclaimKeepsInv(s: State)
    requires Inv(s) && Enabled(s, Isr) && s.isr.IReclaim?
    ensures Inv(Step(s, Isr))
  {
    var s' := Step(s, Isr);
    IsrKeepsShape(s);
    assert RingOf(s) == RingAt(s, s.isr.stage);
    ReclaimKeepsData(s, s.isr.stage);
    ReclaimFrame(s, s.isr.stage);
    assert RingOf(s') == Reclaimed(s, s.isr.stage);
    assert WriteInv(s') by { assert Taken(s') == Taken(s); }
  }

  lemma IsrKeepsInv(s: State)
    requires Inv(s) && Enabled(s, Isr)
    ensures Inv(Step(s, Isr))
  {
    var s' := Step(s, Isr);
    if s.isr.IReclaim? {
      IsrReclaimKeepsInv(s);
    } else {
      IsrKeepsShape(s);
      assert RingOf(s') == RingOf(s);
      assert WriteInv(s') by { assert Taken(s') == Taken(s); }
    }
  }

  lemma InterruptKeepsInv(s: State)
    requires Inv(s) && Enabled(s, Interrupt)
    ensures Inv(Step(s, Interrupt))
  {
    var s' := Step(s, Interrupt);
    StepKeepsShape(s, Interrupt);
    SameData(RingOf(s), RingOf(s'), HistoryOf(s), s.dma);
    assert WriteInv(s') by { assert Taken(s') == Taken(s); }
  }

  lemma FillKeepsInv(s: State)
    requires Inv(s) && Shaped(s) && s.isr == NoIsr && (s.pc.WZero? || s.pc.WFields?)
    ensures Inv(PublishStep(s))
  {
    var s' := PublishStep(s);
    FillKeepsShape(s);
    assert DataOk(RingOf(s), HistoryOf(s), s.head);
    StoreKeepsData(RingOf(s), HistoryOf(s), s.dma, s.head, s'.descs[s.head]);
    assert RingOf(s') == Rewrite(RingOf(s), s.head, s'.descs[s.head]);
    assert WriteInv(s');
  }

  lemma OwnKeepsInv(s: State)
    requires Inv(s) && Shaped(s) && s.isr == NoIsr && s.pc.WOwn?
    ensures Inv(PublishStep(s))
  {
    OwnKeepsShape(s);
    assert DataOk(RingOf(s), HistoryOf(s), s.head);
    PublishData(RingOf(s), HistoryOf(s), s.dma, s.head);
    assert RingOf(PublishStep(s)) == Published(RingOf(s), s.head);
    OwnKeepsWrite(s);
  }

  lemma AcceptChunk(accepted: seq<seq<byte>>, base: seq<byte>, chunk: seq<byte>, src: seq<byte>, n: nat)
    requires n + |chunk| <= |src| && chunk == src[n..n + |chunk|] && Flat(accepted) == base + src[..n]
    ensures Flat(accepted + [chunk]) == base + src[..n + |chunk|]
  {
    FlatAppend(accepted, chunk);
    assert src[..n + |chunk|] == src[..n] + chunk;
    Assoc(base, src[..n], chunk);
  }

  lemma OwnKeepsWrite(s: State)
    requires Shaped(s) && WriteInv(s) && s.pc.WOwn?
    requires |s.descs[s.head].data| == s.size
    ensures WriteInv(PublishStep(s))
  {
    var s', chunk := PublishStep(s), Payload(s.descs[s.head]);
    assert chunk == s.src[s.written..s.written + s.pc.chunk];
    AcceptChunk(s.accepted, Flat(s.base), chunk, s.src, s.written);
    assert Taken(s') == s.written + |chunk| && s'.accepted == s.accepted + [chunk];
  }

  /** Links, and a word stored back as it is in memory. */
  lemma LinkingKeepsInv(s: State)
    requires Inv(s) && Shaped(s) && s.isr == NoIsr
             && (s.pc.WLink? || s.pc.WEofLoad? || s.pc.WEofStore? || s.pc.WAdvance?)
    ensures Inv(PublishStep(s))
  {
    var s' := PublishStep(s);
    PublishKeepsShape(s);
    LinkingKeepsData(s);
    LinkingKeepsWrite(s);
  }

  lemma LinkingKeepsData(s: State)
    requires Inv(s) && Shaped(s) && s.isr == NoIsr
             && (s.pc.WLink? || s.pc.WEofLoad? || s.pc.WEofStore? || s.pc.WAdvance?)
    requires Sized(RingOf(PublishStep(s)))
    ensures var s' := PublishStep(s); SendInv(RingOf(s'), HistoryOf(s'), s'.dma) && RegisterFresh(s')
  {
    SameData(RingOf(s), RingOf(PublishStep(s)), HistoryOf(s), s.dma);
  }

  lemma LinkingKeepsWrite(s: State)
    requires Shaped(s) && WriteInv(s) && (s.pc.WLink? || s.pc.WEofLoad? || s.pc.WEofStore? || s.pc.WAdvance?)
    ensures WriteInv(PublishStep(s))
  {
    if s.pc.WAdvance? {
      AdvanceKeepsWrite(s);
    } else {
      assert Taken(PublishStep(s)) == Taken(s);
    }
  }

  lemma AdvanceKeepsWrite(s: State)
    requires Shaped(s) && WriteInv(s) && s.pc.WAdvance?
    ensures WriteInv(PublishStep(s))
  {
    assert Taken(PublishStep(s)) == Taken(s);
  }

  lemma PublishKeepsInv(s: State)
    requires Inv(s) && Shaped(s) && s.isr == NoIsr && Publishing(s.pc)
    ensures Inv(PublishStep(s))
  {
    match s.pc {
      case WZero(_) | WFields(_) => FillKeepsInv(s);
      case WOwn(_) => OwnKeepsInv(s);
      case WLink(_) | WEofLoad(_) | WEofStore(_, _) | WAdvance(_) => LinkingKeepsInv(s);
    }
  }

  predicate Resuming(pc: Pc) { pc.RError? || pc.RQueued? || pc.RIdle? || pc.RMark? }

  lemma ResumeUnfinished(s: State, fails: bool)
    requires Shaped(s) && Resuming(s.pc) && WindowInv(s)
    ensures Unfinished(StartStep(s, fails).pc) ==> Unfinished(s.pc)
  {
    assert StartStep(s, fails).pc == s.pc.ret || Starting(StartStep(s, fails).pc);
  }

  lemma StartUnfinished(s: State, fails: bool)
    requires Shaped(s) && Starting(s.pc) && WindowInv(s)
    ensures Unfinished(StartStep(s, fails).pc) ==> Unfinished(s.pc)
  {
    if Resuming(s.pc) {
      ResumeUnfinished(s, fails);
    }
  }

  lemma {:induction false} StartKeepsInv(s: State, fails: bool)
    requires Inv(s) && Shaped(s) && s.isr == NoIsr && Starting(s.pc)
    ensures Inv(StartStep(s, fails))
  {
    var s' := StartStep(s, fails);
    StartKeepsShape(s, fails);
    StartFrame(s, fails);
    StartCalm(s, fails);
    StartUnfinished(s, fails);
    assert RingOf(s') == RingOf(s) && Taken(s') == Taken(s);
    TailStarts(RingOf(s), HistoryOf(s));
    assert WriteInv(s');
  }

  lemma PlainUnfinished(s: State, giveUp: bool)
    requires Plain(s.pc) && s.pc != Out && s.pc != WReturn && !s.pc.DReturn?
    ensures Unfinished(PlainStep(s, giveUp).pc) ==> Unfinished(s.pc) || s.written < |s.src|
  {
  }

  lemma PlainKeepsInv(s: State, giveUp: bool)
    requires Inv(s) && Enabled(s, Main(giveUp)) && Plain(s.pc)
    ensures Inv(PlainStep(s, giveUp))
  {
    var s' := PlainStep(s, giveUp);
    PlainKeepsShape(s, giveUp);
    PlainFrame(s, giveUp);
    PlainControl(s, giveUp);
    PlainUnfinished(s, giveUp);
    assert RingOf(s') == RingOf(s) && Taken(s') == Taken(s);
    assert WriteInv(s');
  }

  lemma CopyKeepsWrite(s: State)
    requires Shaped(s) && s.pc == WCopy && s.size > 0 && WriteInv(s) && |s.descs[s.head].data| == s.size
    ensures WriteInv(CopyStep(s)) && CopyStep(s).pc.WLock?
    ensures CopyStep(s) == s.(pc := CopyStep(s).pc, descs := CopyStep(s).descs)
  {
    var s' := CopyStep(s);
    assert Taken(s') == Taken(s);
    assert s'.descs[s.head].data[..ChunkOf(s'.pc)] == s.src[s.written..s.written + ChunkOf(s'.pc)];
  }

  lemma CopyKeepsInv(s: State)
    requires Inv(s) && Shaped(s) && s.isr == NoIsr && s.pc == WCopy
    ensures Inv(CopyStep(s))
  {
    var s' := CopyStep(s);
    CopyKeepsShape(s);
    assert DataOk(RingOf(s), HistoryOf(s), s.head);
    CopyKeepsWrite(s);
    assert RingOf(s') == Rewrite(RingOf(s), s.head, s'.descs[s.head]);
    StoreKeepsData(RingOf(s), HistoryOf(s), s.dma, s.head, s'.descs[s.head]);
  }

  lemma {:induction false} MainKeepsInv(s: State, giveUp: bool)
    requires Inv(s) && Enabled(s, Main(giveUp))
    ensures Inv(MainStep(s, giveUp))
  {
    if Reclaiming(s.pc) {
      LockedReclaimKeepsInv(s);
    } else if Publishing(s.pc) {
      PublishKeepsInv(s);
    } else if Starting(s.pc) {
      StartKeepsInv(s, giveUp);
    } else if s.pc == WCopy {
      CopyKeepsInv(s);
    } else {
      PlainKeepsInv(s, giveUp);
    }
  }

  lemma CallKeepsInv(s: State, a: Action)
    requires Inv(s) && Enabled(s, a) && (a.CallWrite? || a.CallDrain? || a.Return?)
    ensures Inv(Step(s, a))
  {
    StepKeepsShape(s, a);
    assert RingOf(Step(s, a)) == RingOf(s);
  }

  /** One step keeps the invariant exactly when it loses no write-back. */
  lemma {:induction false} StepKeepsInv(s: State, a: Action)
    requires Inv(s) && Enabled(s, a)
    ensures WeakInv(Step(s, a))
    ensures Inv(Step(s, a)) <==> !LosesWriteBack(s, a)
  {
    match a {
      case CallWrite(_) => CallKeepsInv(s, a);
      case CallDrain => CallKeepsInv(s, a);
      case Return => CallKeepsInv(s, a);
      case Main(giveUp) => MainKeepsInv(s, giveUp);
      case Interrupt => InterruptKeepsInv(s);
      case Isr => IsrKeepsInv(s);
      case Complete =>
        CompleteKeepsInv(s);
        CompleteKeepsRegister(s);
      case Follow => FollowKeepsInv(s);
    }
  }

  lemma BeginInv(count: nat, size: nat)
    requires 1 <= count <= MAX_BUFFERS && size > 0
    ensures Inv(Begin(count, size))
  {
    var s := Begin(count, size);
    BeginShape(count, size);
    forall t | 0 <= t < count
      ensures DataOk(RingOf(s), HistoryOf(s), t)
    {
    }
  }

  lemma {:induction false} RunInv(run: Run)
    requires After(run).Some? && NoLostWriteBack(run)
    ensures Inv(After(run).value)
  {
    match run
    case Start(count, size) => BeginInv(count, size);
    case Then(before, a) =>
      RunInv(before);
      StepKeepsInv(After(before).value, a);
  }

  // ---------------------------------------------------------------------------------------------
  // Main results

  lemma {:induction false} FlatPrefix(chunks: seq<seq<byte>>, n: nat)
    requires n <= |chunks|
    ensures Flat(chunks[..n]) <= Flat(chunks)
    decreases |chunks|
  {
    if n < |chunks| {
      var front := chunks[..|chunks| - 1];
      assert front[..n] == chunks[..n];
      FlatPrefix(front, n);
    } else {
      assert chunks[..n] == chunks;
    }
  }

  /** What the DMA has sent is a prefix of what was accepted; a returning write has accepted exactly
      the bytes it reports; and a drain that returns true leaves nothing unsent. */
  predicate Safe(s: State) {
    && Flat(s.sent) <= Flat(s.accepted)
    && (s.pc == WReturn ==> s.written <= |s.src| && Flat(s.accepted) == Flat(s.base) + s.src[..s.written])
    && (s.pc == DReturn(true) ==> s.sent == s.accepted)
  }

  /** Every run without a lost write-back is safe, whatever the number of buffers. */
  lemma {:induction false} StreamSafety(run: Run)
    requires After(run).Some? && NoLostWriteBack(run)
    ensures Safe(After(run).value)
  {
    RunInv(run);
    InvSafe(After(run).value);
  }

  lemma InvSafe(s: State)
    requires DataInv(RingOf(s), HistoryOf(s)) && HeadInv(s) && WindowInv(s) && WriteInv(s)
    ensures Safe(s)
  {
    FlatPrefix(s.accepted, |s.sent|);
  }

  // ---------------------------------------------------------------------------------------------
  // One buffer

  /** The run starts with this many buffers of this size. */
  predicate From(run: Run, count: nat, size: nat) {
    match run
    case Start(c, z) => c == count && z == size
    case Then(before, _) => From(before, count, size)
  }

  lemma PublishKeepsCount(s: State)
    requires Shaped(s) && Publishing(s.pc)
    ensures PublishStep(s).count == s.count
  {
  }

  lemma StartKeepsCount(s: State, fails: bool)
    requires Shaped(s) && Starting(s.pc)
    ensures StartStep(s, fails).count == s.count
  {
  }

  lemma MainKeepsCount(s: State, giveUp: bool)
    requires Enabled(s, Main(giveUp))
    ensures MainStep(s, giveUp).count == s.count
  {
    if Reclaiming(s.pc) {
      ReclaimFrame(s, s.pc.stage);
    } else if Publishing(s.pc) {
      PublishKeepsCount(s);
    } else if Starting(s.pc) {
      StartKeepsCount(s, giveUp);
    } else if s.pc != WCopy {
      PlainFrame(s, giveUp);
    }
  }

  lemma CountKept(s: State, a: Action)
    requires Enabled(s, a)
    ensures Step(s, a).count == s.count
  {
    match a {
      case Main(giveUp) => MainKeepsCount(s, giveUp);
      case Isr => if s.isr.IReclaim? { ReclaimFrame(s, s.isr.stage); }
      case _ =>
    }
  }

  /** A ring of one buffer is full while a descriptor is linked, so there is no EOF bit to clear. */
  lemma {:induction false} OneBufferLosesNothing(run: Run, size: nat)
    requires From(run, 1, size) && After(run).Some?
    ensures After(run).value.count == 1 && NoLostWriteBack(run)
  {
    if run.Then? {
      OneBufferLosesNothing(run.before, size);
      RunShape(run.before);
      CountKept(After(run.before).value, run.a);
    }
  }
}
