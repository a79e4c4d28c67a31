/** The I2S transmit stream: the writer, the interrupt handler and the DMA engine share a ring of
    descriptors. Every access to memory the DMA can see is a step of its own; the handler may run
    between any two steps of the writer outside its interrupt lock, the DMA between any two steps.

    The DMA works on whole descriptors. Started at a slot it refuses a CPU-owned one; when it has
    sent a buffer it first writes back owner = CPU and then, in another step, follows `next`. */
module I2sMachine {
  import opened Bytes

  const NULL: int := -1
  const MAX_BUFFERS: nat := 4
  const MIN_PREFILL: nat := 2

  datatype Desc = Desc(ownerDma: bool, eof: bool, length: nat, next: int, data: seq<byte>)

  datatype Dma = Parked | Running(slot: nat) | Following(slot: nat)

  /** Places in the loop that reclaims completed buffers. */
  datatype Stage = Test | Len | Eof | Next | Advance | Stop

  datatype Pc =
    | Out                                                     // no call in progress
    // stream write
    | WEntry | WLoop | WReclaim(stage: Stage) | WFull | WReclaimAgain(stage: Stage) | WResumed
    | WCopy | WLock(chunk: nat) | WZero(chunk: nat) | WFields(chunk: nat) | WOwn(chunk: nat)
    | WLink(chunk: nat) | WEofLoad(chunk: nat) | WEofStore(chunk: nat, tmp: bool) | WAdvance(chunk: nat)
    | WReturn
    // try start, resume if idle, start; `ret` is where the caller goes on
    | TError | TQueued | TStarted
    | RError(ret: Pc) | RQueued(ret: Pc) | RIdle(ret: Pc) | RMark(ret: Pc)
    | SCheck(ret: Pc) | SInit(ret: Pc) | SDesc(ret: Pc) | SGo(ret: Pc, addr: nat) | SMark(ret: Pc) | SClear(ret: Pc)
    // stream drain
    | DLoop | DError | DStarted | DQueued | DReclaim(stage: Stage) | DResumed | DEmpty | DStopped
    | DReturn(ok: bool)

  datatype IsrPc = NoIsr | IReclaim(stage: Stage) | IStop

  /** `src`, `written`: the current write call. `base`, `accepted`, `sent` are histories: chunks
      accepted before this call, accepted so far, and sent by the DMA so far. */
  datatype State = State(
    count: nat, size: nat, descs: seq<Desc>,
    head: nat, tail: nat, queued: nat, started: bool, error: bool,
    dma: Dma, descError: bool, pc: Pc, isr: IsrPc,
    src: seq<byte>, written: nat,
    base: seq<seq<byte>>, accepted: seq<seq<byte>>, sent: seq<seq<byte>>)

  datatype Action =
    | CallWrite(bytes: seq<byte>) | CallDrain | Return
    | Main(giveUp: bool)          // the caller's next step; `giveUp`: the time budget is used up, or
                                  // the DMA cannot be initialised
    | Interrupt | Isr
    | Complete | Follow           // the DMA

  /** The bytes the DMA sends for a descriptor. */
  function Payload(d: Desc): seq<byte> { if d.length <= |d.data| then d.data[..d.length] else d.data }

  // ---------------------------------------------------------------------------------------------
  // The steps

  function Succ(count: nat, slot: nat): nat { if slot + 1 >= count then 0 else slot + 1 }
  function Pred(count: nat, slot: nat): nat { if slot > 0 then slot - 1 else if count > 0 then count - 1 else 0 }

  predicate Shaped(s: State) {
    1 <= s.count <= MAX_BUFFERS && |s.descs| == s.count && s.head < s.count && s.tail < s.count
  }

  /** Between zeroing the new descriptor and counting it. */
  predicate Publishing(pc: Pc) {
    pc.WZero? || pc.WFields? || pc.WOwn? || pc.WLink? || pc.WEofLoad? || pc.WEofStore? || pc.WAdvance?
  }

  predicate Starting(pc: Pc) {
    || pc.TError? || pc.TQueued? || pc.TStarted?
    || pc.RError? || pc.RQueued? || pc.RIdle? || pc.RMark?
    || pc.SCheck? || pc.SInit? || pc.SDesc? || pc.SGo? || pc.SMark? || pc.SClear?
  }

  /** The interrupt lock is held. */
  predicate Locked(pc: Pc) { Publishing(pc) || Reclaiming(pc) }

  predicate Reclaiming(pc: Pc) { pc.WReclaim? || pc.WReclaimAgain? || pc.DReclaim? }

  /** The state after the queue reset of a begin. */
  function Begin(count: nat, size: nat): State
    requires 1 <= count <= MAX_BUFFERS && size > 0
  {
    State(count, size, seq(count, i => Desc(false, true, 0, NULL, seq(size, j => 0))),
          0, 0, 0, false, false, Parked, false, Out, NoIsr, [], 0, [], [], [])
  }

  /** One step of the reclaim loop; None as stage means the loop and its epilogue are done. */
  function ReclaimStep(s: State, stage: Stage): (r: (State, Option<Stage>))
    requires Shaped(s)
    ensures Shaped(r.0)
  {
    var d := s.descs[s.tail];
    match stage
    case Test => (s, Some(if s.queued > 0 && !d.ownerDma then Len else Stop))
    case Len => (s.(descs := s.descs[s.tail := d.(length := 0)]), Some(Eof))
    case Eof => (s.(descs := s.descs[s.tail := d.(eof := true)]), Some(Next))
    case Next => (s.(descs := s.descs[s.tail := d.(next := NULL)]), Some(Advance))
    case Advance =>
      (s.(tail := Succ(s.count, s.tail), queued := if s.queued > 0 then s.queued - 1 else 255), Some(Test))
    case Stop =>
      (if s.started && s.queued == 0 && s.dma == Parked then s.(dma := Parked, started := false) else s, None)
  }

  /** A step of a reclaim that the caller runs under the interrupt lock. */
  function LockedReclaimStep(s: State): State
    requires Shaped(s) && Reclaiming(s.pc)
  {
    var (s', next) := ReclaimStep(s, s.pc.stage);
    s'.(pc := match s.pc
              case WReclaim(_) => if next == None then WFull else WReclaim(next.value)
              case WReclaimAgain(_) => if next == None then RError(WResumed) else WReclaimAgain(next.value)
              case _ => if next == None then RError(DResumed) else DReclaim(next.value))
  }

  function Store(s: State, slot: nat, d: Desc, pc: Pc): State
    requires slot < |s.descs|
  {
    s.(descs := s.descs[slot := d], pc := pc)
  }

  /** Copies the next chunk into the buffer at the head, outside the lock. */
  function CopyStep(s: State): State
    requires Shaped(s)
  {
    var left := if |s.src| > s.written then |s.src| - s.written else 0;
    var chunk := if left > s.size then s.size else left;
    var d := s.descs[s.head];
    if chunk <= |d.data| && s.written + chunk <= |s.src| then
      Store(s, s.head, d.(data := s.src[s.written..s.written + chunk] + d.data[chunk..]), WLock(chunk))
    else s
  }

  /** A step of the publishing part of a write, under the interrupt lock. */
  function PublishStep(s: State): State
    requires Shaped(s)
    requires Publishing(s.pc)
  {
    var d, prev := s.descs[s.head], Pred(s.count, s.head);
    var p := s.descs[prev];
    match s.pc
    case WZero(chunk) => Store(s, s.head, Desc(false, false, 0, NULL, d.data), WFields(chunk))
    case WFields(chunk) => Store(s, s.head, d.(length := chunk, eof := true, next := NULL), WOwn(chunk))
    case WOwn(chunk) =>
      Store(s, s.head, d.(ownerDma := true), WLink(chunk))
      .(accepted := s.accepted + [Payload(d)])
    case WLink(chunk) =>
      if s.queued > 0 then Store(s, prev, p.(next := s.head), WEofLoad(chunk)) else s.(pc := WAdvance(chunk))
    // Clearing the EOF bit loads and stores the word that also holds the owner bit.
    case WEofLoad(chunk) => s.(pc := WEofStore(chunk, p.ownerDma))
    case WEofStore(chunk, tmp) => Store(s, prev, p.(eof := false, ownerDma := tmp), WAdvance(chunk))
    case WAdvance(chunk) =>
      s.(head := Succ(s.count, s.head), queued := s.queued + 1, written := s.written + chunk, pc := TError)
  }

  /** A step of try start, resume or start. */
  function StartStep(s: State, fails: bool): State
    requires Shaped(s)
    requires Starting(s.pc)
  {
    match s.pc
    case TError => s.(pc := if s.error then WLoop else TQueued)
    case TQueued =>
      var prefill := if s.count < MIN_PREFILL then s.count else MIN_PREFILL;
      s.(pc := if s.queued < prefill then WLoop else TStarted)
    case TStarted => s.(pc := if s.started then RError(WLoop) else SCheck(WLoop))
    case RError(ret) => s.(pc := if s.error then ret else RQueued(ret))
    case RQueued(ret) => s.(pc := if s.queued == 0 then ret else RIdle(ret))
    case RIdle(ret) => s.(pc := if s.dma != Parked then ret else RMark(ret))
    case RMark(ret) => s.(started := false, pc := SCheck(ret))
    case SCheck(ret) => s.(pc := if s.queued == 0 || fails then ret else SInit(ret))
    case SInit(ret) => s.(dma := Parked, descError := false, pc := SDesc(ret))
    case SDesc(ret) => s.(pc := SGo(ret, s.tail))
    case SGo(ret, addr) =>
      if addr < s.count && s.descs[addr].ownerDma then s.(dma := Running(addr), pc := SMark(ret))
      else s.(dma := Parked, descError := true, pc := SMark(ret))
    case SMark(ret) => s.(started := true, pc := SClear(ret))
    case SClear(ret) => s.(error := false, pc := ret)
  }

  /** The program's own tests of its state. */
  function PlainStep(s: State, giveUp: bool): State {
    match s.pc
    case WEntry => s.(pc := if s.error then WReturn else WLoop)
    case WLoop => s.(pc := if s.written < |s.src| then WReclaim(Test) else WReturn)
    case WFull => s.(pc := if s.queued >= s.count then WReclaimAgain(Test) else WCopy)
    case WResumed => s.(pc := if s.error || giveUp then WReturn else WLoop)
    case WLock(chunk) => s.(pc := if s.error then WReturn else WZero(chunk))
    case DLoop => s.(pc := if giveUp then DReturn(false) else DError)
    case DError => s.(pc := if s.error then DReclaim(Test) else DStarted)
    case DStarted => s.(pc := if s.started then DReclaim(Test) else DQueued)
    case DQueued => s.(pc := if s.queued > 0 then SCheck(DReclaim(Test)) else DReclaim(Test))
    case DResumed => s.(pc := if s.error then DReturn(false) else DEmpty)
    case DEmpty => s.(pc := if s.queued == 0 then DStopped else DLoop)
    case DStopped => s.(pc := if !s.started then DReturn(true) else DLoop)
    case _ => s
  }

  /** The next step of the calling program. */
  function MainStep(s: State, giveUp: bool): State
    requires Shaped(s) && s.pc != Out && s.pc != WReturn && !s.pc.DReturn?
  {
    if Reclaiming(s.pc) then LockedReclaimStep(s)
    else if Publishing(s.pc) then PublishStep(s)
    else if Starting(s.pc) then StartStep(s, giveUp)
    else if s.pc == WCopy then CopyStep(s)
    else PlainStep(s, giveUp)
  }

  function IsrStep(s: State): State
    requires Shaped(s) && s.isr != NoIsr
  {
    match s.isr
    case IReclaim(stage) =>
      var (s', next) := ReclaimStep(s, stage);
      s'.(isr := if next == None then IStop else IReclaim(next.value))
    case IStop =>
      var stop := s.queued == 0 && s.dma == Parked;
      s.(started := s.started && !stop, isr := NoIsr)
  }

  function InterruptStep(s: State): State {
    if s.descError then s.(descError := false, dma := Parked, started := false, error := true)
    else if !s.started then s
    else s.(isr := IReclaim(Test))
  }

  function DmaStep(s: State): State
    requires Shaped(s) && s.dma != Parked && s.dma.slot < s.count
  {
    var d := s.descs[s.dma.slot];
    match s.dma
    case Running(slot) =>
      s.(descs := s.descs[slot := d.(ownerDma := false)], dma := Following(slot),
         sent := s.sent + [Payload(d)])
    case Following(slot) =>
      if !(0 <= d.next < s.count) then s.(dma := Parked)
      else if s.descs[d.next].ownerDma then s.(dma := Running(d.next))
      else s.(dma := Parked, descError := true)
  }

  predicate Enabled(s: State, a: Action) {
    && Shaped(s)
    && match a
       case CallWrite(bytes) => s.isr == NoIsr && s.pc == Out && bytes != []
       case CallDrain => s.isr == NoIsr && s.pc == Out
       case Return => s.isr == NoIsr && (s.pc == WReturn || s.pc.DReturn?)
       case Main(_) => s.isr == NoIsr && s.pc != Out && s.pc != WReturn && !s.pc.DReturn?
       case Interrupt => s.isr == NoIsr && !Locked(s.pc)
       case Isr => s.isr != NoIsr
       case Complete => s.dma.Running? && s.dma.slot < s.count
       case Follow => s.dma.Following? && s.dma.slot < s.count
  }

  function Step(s: State, a: Action): State
    requires Enabled(s, a)
  {
    match a
    case CallWrite(bytes) => s.(pc := WEntry, src := bytes, written := 0, base := s.accepted)
    case CallDrain => s.(pc := DLoop, src := [], written := 0, base := s.accepted)
    case Return => s.(pc := Out)
    case Main(giveUp) => MainStep(s, giveUp)
    case Interrupt => InterruptStep(s)
    case Isr => IsrStep(s)
    case Complete | Follow => DmaStep(s)
  }

  datatype Run = Start(count: nat, size: nat) | Then(before: Run, a: Action)

  /** The state a run ends in; None when the ring is not legal or an action was not enabled. */
  function After(run: Run): Option<State> {
    match run
    case Start(count, size) => if 1 <= count <= MAX_BUFFERS && size > 0 then Some(Begin(count, size)) else None
    case Then(before, a) =>
      match After(before)
      case Some(s) => if Enabled(s, a) then Some(Step(s, a)) else None
      case None => None
  }
}
