/** The SDIO transport: credits and byte counts against the slave's wrapping registers, sending a
    frame, and one turn of receiving. */
module SdioHost {
  import opened Bytes
  import opened RxRing
  import SdioFrame
  import opened SdioTransfer

  const TX_BUF_MAX: nat := 0x1000
  const RX_BYTE_MAX: nat := 0x10_0000
  const RX_BUF_WINDOW: nat := 1536

  /** Free slave buffers: the 12-bit count in bits 16 to 27 of the token register, less those used. */
  function TxBuffers(token: u32, txBufCount: nat): nat {
    (token / 0x1_0000 % TX_BUF_MAX + TX_BUF_MAX - txBufCount) % TX_BUF_MAX
  }

  /** Unread bytes: the 20-bit count of the length register, less those consumed. */
  function UnreadBytes(lenReg: u32, rxByteCount: nat): int {
    var len := lenReg % RX_BYTE_MAX;
    if len >= rxByteCount then (len + RX_BYTE_MAX - rxByteCount) % RX_BYTE_MAX
    else RX_BYTE_MAX - rxByteCount + len
  }

  function BuffersNeeded(frameLen: nat): nat { (frameLen + RX_BUF_WINDOW - 1) / RX_BUF_WINDOW }

  /** The least number of 1536-byte buffers that hold the frame. */
  lemma BuffersCover(frameLen: nat, n: nat)
    ensures n * 1536 >= frameLen <==> n >= BuffersNeeded(frameLen)
  {
  }

  /** Network traffic, which throttling holds back. */
  predicate IsData(info: FrameInfo) { info.ifType == IF_STA || info.ifType == IF_AP || info.ifType == IF_ETH }

  // ---------------------------------------------------------------------------------------------
  // Runs against the slave's cumulative counters

  /** `granted`, `used`: buffers the slave ever granted and the host ever used. `produced`,
      `consumed`: bytes the slave ever offered and the host ever took. */
  datatype System = System(txBufCount: nat, rxByteCount: nat, granted: nat, used: nat, produced: nat, consumed: nat)

  const INIT := System(0, 0, 0, 0, 0, 0)

  /** `other`, `low`: register bits outside the counts. `written`, `read`: the transfer succeeded. */
  datatype Action =
    | Grant(n: nat)
    | Produce(n: nat)
    | Send(frameLen: nat, other: nat, low: nat, written: bool)
    | Receive(other: nat, read: bool)

  function TokenReg(granted: nat, other: nat, low: nat): u32
    requires other < 0x10 && low < 0x1_0000
  {
    other * 0x1000_0000 + granted % 0x1000 * 0x1_0000 + low
  }

  function LenReg(produced: nat, other: nat): u32
    requires other < 0x1000
  {
    other * 0x10_0000 + produced % 0x10_0000
  }

  predicate Enabled(s: System, a: Action) {
    match a
    case Grant(_) | Produce(_) => true
    case Send(_, other, low, _) => other < 0x10 && low < 0x1_0000
    case Receive(other, _) => other < 0x1000
  }

  function Next(s: System, a: Action): System
    requires Enabled(s, a) && s.txBufCount < TX_BUF_MAX && s.rxByteCount < RX_BYTE_MAX
  {
    match a
    case Grant(n) => s.(granted := s.granted + n)
    case Produce(n) => s.(produced := s.produced + n)
    case Send(frameLen, other, low, written) =>
      var needed := BuffersNeeded(frameLen);
      if TxBuffers(TokenReg(s.granted, other, low), s.txBufCount) < needed || !written then s
      else s.(txBufCount := (s.txBufCount + needed) % TX_BUF_MAX, used := s.used + needed)
    case Receive(other, read) =>
      var len := UnreadBytes(LenReg(s.produced, other), s.rxByteCount);
      if len <= 0 || !read then s
      else s.(rxByteCount := (s.rxByteCount + len) % RX_BYTE_MAX, consumed := s.consumed + len)
  }

  /** The slave keeps its side: fewer than 4096 granted buffers unused, fewer than 2^20 bytes unread. */
  predicate SlaveBounded(s: System) { s.granted - s.used < 0x1000 && s.produced - s.consumed < 0x10_0000 }

  /** Some run of the slave within its bounds ends in `s`. */
  ghost predicate Reaches(run: seq<Action>, s: System)
    decreases |run|
  {
    if run == [] then s == INIT
    else exists p {:trigger Reaches(run[..|run| - 1], p)} ::
      Reaches(run[..|run| - 1], p) && p.txBufCount < TX_BUF_MAX && p.rxByteCount < RX_BYTE_MAX
      && Enabled(p, run[|run| - 1]) && s == Next(p, run[|run| - 1]) && SlaveBounded(s)
  }

  predicate Inv(s: System) {
    && s.used <= s.granted && s.consumed <= s.produced && SlaveBounded(s)
    && s.txBufCount == s.used % 0x1000 && s.rxByteCount == s.consumed % 0x10_0000
  }

  lemma TokenDifference(a: nat, b: nat)
    requires b <= a < b + 0x1000
    ensures (a % 0x1000 + 0x1000 - b % 0x1000) % 0x1000 == a - b
  {
  }

  lemma LengthDifference(a: nat, b: nat)
    requires b <= a < b + 0x10_0000
    ensures (a % 0x10_0000 + 0x10_0000 - b % 0x10_0000) % 0x10_0000 == a - b
  {
  }

  lemma WrappedSums(a: nat, d: nat)
    ensures (a % 0x1000 + d) % 0x1000 == (a + d) % 0x1000
    ensures (a % 0x10_0000 + d) % 0x10_0000 == (a + d) % 0x10_0000
  {
  }

  /** Both wrapped differences are the true ones. */
  lemma {:induction false} DifferencesAreTrue(s: System, txOther: nat, txLow: nat, rxOther: nat)
    requires Inv(s) && txOther < 0x10 && txLow < 0x1_0000 && rxOther < 0x1000
    ensures TxBuffers(TokenReg(s.granted, txOther, txLow), s.txBufCount) == s.granted - s.used
    ensures UnreadBytes(LenReg(s.produced, rxOther), s.rxByteCount) == s.produced - s.consumed
  {
    var token, reg := TokenReg(s.granted, txOther, txLow), LenReg(s.produced, rxOther);
    assert token / 0x1_0000 == txOther * TX_BUF_MAX + s.granted % TX_BUF_MAX;
    assert token / 0x1_0000 % TX_BUF_MAX == s.granted % TX_BUF_MAX;
    TokenDifference(s.granted, s.used);
    assert reg % RX_BYTE_MAX == s.produced % RX_BYTE_MAX;
    LengthDifference(s.produced, s.consumed);
  }

  lemma StepKeepsInv(s: System, a: Action)
    requires Inv(s) && Enabled(s, a) && SlaveBounded(Next(s, a))
    ensures Inv(Next(s, a))
  {
    match a
    case Grant(_) | Produce(_) =>
    case Send(frameLen, other, low, written) =>
      DifferencesAreTrue(s, other, low, 0);
      WrappedSums(s.used, BuffersNeeded(frameLen));
    case Receive(other, read) =>
      DifferencesAreTrue(s, 0, 0, other);
      WrappedSums(s.consumed, s.produced - s.consumed);
  }

  /** The counters after a sending step. */
  lemma SendCounts(s: System, frameLen: nat, other: nat, low: nat, token: u32)
    requires other < 0x10 && low < 0x1_0000 && s.txBufCount < TX_BUF_MAX && s.rxByteCount < RX_BYTE_MAX
    requires token == TokenReg(s.granted, other, low)
    ensures Next(s, Send(frameLen, other, low, false)) == s
    ensures var needed, t := BuffersNeeded(frameLen), Next(s, Send(frameLen, other, low, true));
            && t.rxByteCount == s.rxByteCount
            && (TxBuffers(token, s.txBufCount) >= needed ==> t.txBufCount == (s.txBufCount + needed) % TX_BUF_MAX)
  {
  }

  /** The host's own steps keep the slave within its bounds, and the invariant. */
  lemma SendKeepsInv(s: System, frameLen: nat, other: nat, low: nat, written: bool)
    requires other < 0x10 && low < 0x1_0000 && s.txBufCount < TX_BUF_MAX && s.rxByteCount < RX_BYTE_MAX
    ensures Inv(s) ==> Inv(Next(s, Send(frameLen, other, low, written)))
  {
    if Inv(s) {
      DifferencesAreTrue(s, other, low, 0);
      StepKeepsInv(s, Send(frameLen, other, low, written));
    }
  }

  lemma ReceiveKeepsInv(s: System, other: nat, read: bool)
    requires other < 0x1000 && s.txBufCount < TX_BUF_MAX && s.rxByteCount < RX_BYTE_MAX
    ensures Inv(s) ==> Inv(Next(s, Receive(other, read)))
  {
    if Inv(s) {
      DifferencesAreTrue(s, 0, 0, other);
      StepKeepsInv(s, Receive(other, read));
    }
  }

  /** Over every run within the slave's bounds: the differences the host computes are the true
      ones, it never uses more buffers than were granted, and its byte count is the total it has
      consumed mod 2^20. */
  lemma {:induction false} CountersAreTrue(run: seq<Action>, s: System)
    requires Reaches(run, s)
    ensures Inv(s)
    ensures forall other, low :: 0 <= other < 0x10 && 0 <= low < 0x1_0000 ==>
              TxBuffers(TokenReg(s.granted, other, low), s.txBufCount) == s.granted - s.used
    ensures forall other :: 0 <= other < 0x1000 ==>
              UnreadBytes(LenReg(s.produced, other), s.rxByteCount) == s.produced - s.consumed
    decreases |run|
  {
    if run != [] {
      var p :| Reaches(run[..|run| - 1], p) && p.txBufCount < TX_BUF_MAX && p.rxByteCount < RX_BYTE_MAX
               && Enabled(p, run[|run| - 1]) && s == Next(p, run[|run| - 1]) && SlaveBounded(s);
      CountersAreTrue(run[..|run| - 1], p);
      StepKeepsInv(p, run[|run| - 1]);
    }
    forall other: nat, low: nat | other < 0x10 && low < 0x1_0000
      ensures TxBuffers(TokenReg(s.granted, other, low), s.txBufCount) == s.granted - s.used
    {
      DifferencesAreTrue(s, other, low, 0);
    }
    forall other: nat | other < 0x1000
      ensures UnreadBytes(LenReg(s.produced, other), s.rxByteCount) == s.produced - s.consumed
    {
      DifferencesAreTrue(s, 0, 0, other);
    }
  }

  // ---------------------------------------------------------------------------------------------
  // The transport

  /** The first `n` bytes of the frame, padded with zeros to whole blocks, were stored so that the
      frame itself ends at the end address. */
  ghost predicate Stored(before: seq<byte>, after: seq<byte>, frame: seq<byte>, n: nat)
    requires |before| == ADDR_SPACE
  {
    && SdioFrame.Padded(|frame|) <= SdioFrame.TX_FRAME_SIZE && n <= SdioFrame.Padded(|frame|)
    && after == Patch(before, 0x1_F800 - |frame|, SdioFrame.PaddedFrame(frame)[..n])
  }

  lemma NothingStored(w: seq<byte>, frame: seq<byte>)
    requires |w| == ADDR_SPACE && |frame| <= SdioFrame.HEADER + PAYLOAD_MAX
    ensures Stored(w, w, frame, 0)
  {
  }

  /** Pads the frame in the transmit buffer and writes it in front of the end address; refuses an
      empty frame and one whose padding does not fit the buffer. */
  method WritePaddedBlocks(link: Link, txFrame: array<byte>, frameLen: nat) returns (ok: bool, ghost n: nat)
    requires link.Valid() && txFrame.Length == SdioFrame.TX_FRAME_SIZE && frameLen + BLOCK <= 0x1_0000_0000
    modifies link, txFrame
    ensures link.Valid()
    ensures if 0 < frameLen && SdioFrame.Padded(frameLen) <= txFrame.Length
            then ok == !link.fails(old(link.attempts) + 1) && (ok ==> n == SdioFrame.Padded(frameLen))
                 && Stored(old(link.window), link.window, old(txFrame[..frameLen]), n)
            else !ok && link.window == old(link.window) && link.attempts == old(link.attempts)
                 && txFrame[..] == old(txFrame[..])
  {
    ok, n := false, 0;
    if frameLen == 0 || SdioFrame.Padded(frameLen) > txFrame.Length {
      return;
    }
    var paddedLen := SdioFrame.Padded(frameLen);
    SdioFrame.PadToBlocks(txFrame, frameLen);
    n := link.Moved(paddedLen);
    ok := link.Cmd53Write(1, END_ADDR - frameLen, true, txFrame[..paddedLen]);
  }

  class Host {
    const link: Link
    const ring: Ring
    const txFrame: array<byte>
    const frameBuf: array<byte>
    var attached: bool
    var txThrottled: bool
    var txBufCount: nat
    var rxByteCount: nat

    ghost predicate Valid()
      reads this, link, ring, ring.items, txFrame, frameBuf
    {
      && link.Valid() && ring.Valid() && txFrame != frameBuf
      && txFrame.Length == SdioFrame.TX_FRAME_SIZE && frameBuf.Length == FRAME_BUF_SIZE
      && txBufCount < TX_BUF_MAX && rxByteCount < RX_BYTE_MAX
    }

    constructor (l: Link, r: Ring)
      requires l.Valid() && r.Valid()
      ensures Valid() && link == l && ring == r && fresh(txFrame) && fresh(frameBuf)
      ensures attached && !txThrottled && txBufCount == 0 && rxByteCount == 0
    {
      link, ring := l, r;
      txFrame, frameBuf := new byte[SdioFrame.TX_FRAME_SIZE], new byte[FRAME_BUF_SIZE];
      attached, txThrottled, txBufCount, rxByteCount := true, false, 0, 0;
    }

    /** The host's counters are those of the system. */
    ghost predicate Matches(s: System)
      reads this
    {
      txBufCount == s.txBufCount && rxByteCount == s.rxByteCount
    }

    /** The counters are those after a step of the system, which keeps its invariant. */
    ghost predicate Follows(s: System, a: Action)
      reads this
    {
      && Enabled(s, a) && s.txBufCount < TX_BUF_MAX && s.rxByteCount < RX_BYTE_MAX
      && Matches(Next(s, a)) && (Inv(s) ==> Inv(Next(s, a)))
    }

    /** Sends a frame when the transport is attached, the payload fits, data traffic is not throttled
        and the slave has the buffers; `token` is what the token register reads, None on a failed
        read. The frame, padded with zeros to whole blocks, then ends the slave's address window. */
    method TransportTx(info: FrameInfo, payload: seq<byte>, token: Option<u32>)
      returns (sent: nat, ok: bool, ghost n: nat)
      requires Valid()
      modifies this`txBufCount, link, txFrame
      ensures Valid()
      ensures ok <==> attached && |payload| <= 1600 && !(txThrottled && info.ifType in {1, 2, 7}) && token.Some?
                      && TxBuffers(token.value, old(txBufCount)) >= BuffersNeeded(SdioFrame.HEADER + |payload|)
                      && !link.fails(old(link.attempts) + 1)
      ensures |payload| <= 1600 ==> Stored(old(link.window), link.window, SdioFrame.Frame(info, payload), n)
      ensures |payload| > 1600 ==> link.window == old(link.window)
      ensures ok ==> sent == |payload| && n == SdioFrame.Padded(SdioFrame.HEADER + |payload|)
                     && txBufCount == (old(txBufCount) + BuffersNeeded(SdioFrame.HEADER + |payload|)) % TX_BUF_MAX
      ensures !ok ==> sent == 0 && txBufCount == old(txBufCount)
    {
      sent, ok, n := 0, false, 0;
      if |payload| <= PAYLOAD_MAX {
        NothingStored(link.window, SdioFrame.Frame(info, payload));
      }
      if !attached || |payload| > PAYLOAD_MAX {
        return;
      }
      if txThrottled && IsData(info) {
        return;
      }
      var frameLen := SdioFrame.BuildFrame(txFrame, info, payload);
      var needed := (frameLen + RX_BUF_WINDOW - 1) / RX_BUF_WINDOW;
      if token.None? || TxBuffers(token.value, txBufCount) < needed {
        return;
      }
      ok, n := SendBuilt(frameLen, needed);
      sent := if ok then |payload| else 0;
    }

    /** Writes the frame that stands in the transmit buffer and counts its buffers. */
    method SendBuilt(frameLen: nat, needed: nat) returns (ok: bool, ghost n: nat)
      requires Valid() && 0 < frameLen <= SdioFrame.HEADER + PAYLOAD_MAX
      modifies this`txBufCount, link, txFrame
      ensures Valid() && ok == !link.fails(old(link.attempts) + 1)
      ensures Stored(old(link.window), link.window, old(txFrame[..frameLen]), n)
              && (ok ==> n == SdioFrame.Padded(frameLen))
      ensures txBufCount == if ok then (old(txBufCount) + needed) % TX_BUF_MAX else old(txBufCount)
    {
      ok, n := WritePaddedBlocks(link, txFrame, frameLen);
      if ok {
        txBufCount := (txBufCount + needed) % TX_BUF_MAX;
      }
    }

    /** When the token shows what the system has granted, sending is the system's sending step. */
    method SendInSystem(info: FrameInfo, payload: seq<byte>, ghost sys: System, other: nat, low: nat, token: u32)
      returns (sent: nat, ok: bool, ghost n: nat)
      requires Valid() && Matches(sys) && other < 0x10 && low < 0x1_0000 && token == TokenReg(sys.granted, other, low)
      modifies this`txBufCount, link, txFrame
      ensures Valid() && Follows(sys, Send(SdioFrame.HEADER + |payload|, other, low, ok))
    {
      SendCounts(sys, SdioFrame.HEADER + |payload|, other, low, token);
      sent, ok, n := TransportTx(info, payload, Some(token));
      SendKeepsInv(sys, SdioFrame.HEADER + |payload|, other, low, ok);
    }

    /** Reads what the slave has, or drains it when it is larger than the frame buffer. */
    method TakeBytes(len: nat) returns (ok: bool)
      requires Valid()
      modifies link`attempts, link`log, frameBuf
      ensures Valid() && ok == link.AllPassed(old(link.attempts), link.attempts)
      ensures ok && len <= FRAME_BUF_SIZE ==> frameBuf[..len] == link.window[END_ADDR - len..END_ADDR]
    {
      if len > FRAME_BUF_SIZE {
        ok := DrainRxBytes(link, frameBuf, len);
      } else {
        ok := ReadBytes(link, 1, END_ADDR - len, frameBuf, len);
      }
    }

    /** A turn of the poll loop that sees a new packet: reads what the slave has and submits its
        frames, or drains it when it is larger than the frame buffer. `lenReg` is what the length
        register reads, None on a failed read. */
    method ReceiveTurn(lenReg: Option<u32>) returns (ok: bool, submitted: seq<Packet>)
      requires Valid()
      modifies this`rxByteCount, link`attempts, link`log, frameBuf, ring, ring.items
      ensures Valid()
      ensures ok ==> lenReg.Some? && var len := UnreadBytes(lenReg.value, old(rxByteCount));
              && len > 0 && rxByteCount == (old(rxByteCount) + len) % RX_BYTE_MAX
              && (if len <= 2048
                  then submitted == SdioFrame.FramesAfter(link.window[0x1_F800 - len..0x1_F800], 0, [])
                  else submitted == [])
      ensures ok <==> lenReg.Some? && UnreadBytes(lenReg.value, old(rxByteCount)) > 0
                      && link.AllPassed(old(link.attempts), link.attempts)
      ensures !ok ==> rxByteCount == old(rxByteCount) && submitted == []
      ensures ring.Contents() == Submitted(old(ring.Contents()), submitted)
    {
      ok, submitted := false, [];
      if lenReg.None? {
        return;
      }
      var len := UnreadBytes(lenReg.value, rxByteCount);
      if len == 0 {
        return;
      }
      ok := TakeBytes(len);
      if !ok {
        return;
      }
      rxByteCount := (rxByteCount + len) % RX_BYTE_MAX;
      if len <= FRAME_BUF_SIZE {
        submitted := SdioFrame.ParseRxFrames(frameBuf, len, ring);
      }
    }

    /** When the length register shows what the system has produced, a turn is the system's receiving
        step. */
    method ReceiveInSystem(ghost sys: System, other: nat, lenReg: u32) returns (ok: bool, submitted: seq<Packet>)
      requires Valid() && Matches(sys) && other < 0x1000 && lenReg == LenReg(sys.produced, other)
      modifies this`rxByteCount, link`attempts, link`log, frameBuf, ring, ring.items
      ensures Valid() && Follows(sys, Receive(other, ok))
    {
      ok, submitted := ReceiveTurn(Some(lenReg));
      ReceiveKeepsInv(sys, other, ok);
      assert Matches(Next(sys, Receive(other, ok)));
    }
  }
}
