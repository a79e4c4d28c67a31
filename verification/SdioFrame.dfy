/** Frames on the SDIO link: the 12-byte header, its checksum, and the parser of received bytes. */
module SdioFrame {
  import opened Bytes
  import opened RxRing
  import opened SdioTransfer

  const HEADER: nat := 12
  const TX_FRAME_SIZE: nat := 2048

  // ---------------------------------------------------------------------------------------------
  // Layout

  /** Header bytes 0-3: type and number nibbles, flags, payload length, offset; the checksum; then
      sequence number, throttle bits and the byte shared by the HCI and private packet types. */
  function HeaderFront(info: FrameInfo, len: nat): seq<byte> {
    [info.ifType % 16 + 16 * (info.ifNum % 16), info.flags] + Le16(len) + Le16(HEADER)
  }

  function HeaderBack(info: FrameInfo): seq<byte> {
    Le16(info.seqNum) + [info.throttleCmd % 4, if info.ifType == IF_HCI then info.hciPktType else 0]
  }

  function FrameWith(info: FrameInfo, payload: seq<byte>, checksum: nat): seq<byte> {
    HeaderFront(info, |payload|) + Le16(checksum) + HeaderBack(info) + payload
  }

  /** Sum of the first `n` bytes. */
  function ByteSum(b: seq<byte>, n: nat): nat
    requires n <= |b|
  {
    if n == 0 then 0 else ByteSum(b, n - 1) + b[n - 1]
  }

  /** Byte sum of the frame with the checksum field zeroed. */
  function Checksum(info: FrameInfo, payload: seq<byte>): u16 {
    var zeroed := FrameWith(info, payload, 0);
    ByteSum(zeroed, |zeroed|) % 0x1_0000
  }

  function Frame(info: FrameInfo, payload: seq<byte>): seq<byte> {
    FrameWith(info, payload, Checksum(info, payload))
  }

  lemma {:induction false} ByteSumUpdate(b: seq<byte>, n: nat, i: nat, v: byte)
    requires i < |b| && n <= |b|
    ensures ByteSum(b[i := v], n) == ByteSum(b, n) + if i < n then v - b[i] else 0
  {
    if n > 0 { ByteSumUpdate(b, n - 1, i, v); }
  }

  /** A frame byte by byte, with little-endian words: interface type and number, flags, payload length,
      the offset 12, checksum, sequence number, throttle bits, the packet type of HCI, and the payload. */
  lemma FrameLayout(info: FrameInfo, payload: seq<byte>)
    ensures var len, sum := |payload|, Checksum(info, payload);
            Frame(info, payload)
            == [info.ifType % 16 + 16 * (info.ifNum % 16), info.flags, len % 0x100, len / 0x100 % 0x100, 12, 0,
                sum % 0x100, sum / 0x100, info.seqNum % 0x100, info.seqNum / 0x100, info.throttleCmd % 4,
                if info.ifType == 4 then info.hciPktType else 0] + payload
  {
  }

  /** The checksum of a frame without payload is the sum of its other header bytes. */
  lemma EmptyChecksum(info: FrameInfo)
    ensures Checksum(info, []) == (info.ifType % 16 + 16 * (info.ifNum % 16)) as int + info.flags + 12
                                  + info.seqNum % 0x100 + info.seqNum / 0x100 + info.throttleCmd % 4
                                  + if info.ifType == 4 then info.hciPktType else 0
  {
    var f := EmptyFrame(info);
    FourMore(f, 0);
    FourMore(f, 4);
    FourMore(f, 8);
    assert ByteSum(f, 0) == 0;
  }

  lemma EmptyFrame(info: FrameInfo) returns (f: seq<byte>)
    ensures f == FrameWith(info, [], 0)
    ensures f == [info.ifType % 16 + 16 * (info.ifNum % 16), info.flags, 0, 0, 12, 0, 0, 0, info.seqNum % 0x100,
                  info.seqNum / 0x100, info.throttleCmd % 4, if info.ifType == 4 then info.hciPktType else 0]
  {
    f := FrameWith(info, [], 0);
  }

  lemma FourMore(b: seq<byte>, n: nat)
    requires n + 4 <= |b|
    ensures ByteSum(b, n + 4) == ByteSum(b, n) + (b[n] as int) + b[n + 1] + b[n + 2] + b[n + 3]
  {
    assert ByteSum(b, n + 1) == ByteSum(b, n) + b[n];
    assert ByteSum(b, n + 2) == ByteSum(b, n + 1) + b[n + 1];
    assert ByteSum(b, n + 3) == ByteSum(b, n + 2) + b[n + 2];
  }

  /** A receiver that sums a frame without its checksum field gets the field's value. */
  lemma ChecksumVerifies(info: FrameInfo, payload: seq<byte>)
    ensures var f := Frame(info, payload);
            |f| > 7 && Word16(f[6], f[7]) == Checksum(info, payload)
                    && (ByteSum(f, |f|) - f[6] - f[7]) % 0x1_0000 == Word16(f[6], f[7])
  {
    var sum, zeroed := Checksum(info, payload), FrameWith(info, payload, 0);
    PutChecksum(info, payload, sum);
    assert zeroed[6] == 0 && zeroed[7] == 0 by {
      assert zeroed == HeaderFront(info, |payload|) + Le16(0) + HeaderBack(info) + payload;
    }
    ByteSumUpdate(zeroed, |zeroed|, 6, sum % 0x100);
    ByteSumUpdate(zeroed[6 := sum % 0x100], |zeroed|, 7, sum / 0x100);
  }

  // ---------------------------------------------------------------------------------------------
  // Parsing

  /** Nothing but zeros from `at` on. */
  predicate ZeroFrom(b: seq<byte>, at: nat) { forall i :: at <= i < |b| ==> b[i] == 0 }

  /** The packet whose header stands at `at`. */
  function PacketAt(b: seq<byte>, at: nat): Packet
    requires at + HEADER <= |b|
  {
    var len, aux := Word16(b[at + 2], b[at + 3]), b[at + 11];
    var end := if at + HEADER + len <= |b| then at + HEADER + len else |b|;
    Packet(FrameInfo(b[at] % 16, b[at] / 16, b[at + 1], len, Word16(b[at + 4], b[at + 5]), Word16(b[at + 6], b[at + 7]),
                     Word16(b[at + 8], b[at + 9]), b[at + 10] % 4, aux, aux),
           b[at + HEADER..end])
  }

  /** A complete frame stands at `at`. */
  predicate FrameAt(b: seq<byte>, at: nat) {
    && at + HEADER <= |b|
    && var len, offset := Word16(b[at + 2], b[at + 3]), Word16(b[at + 4], b[at + 5]);
       && !(len == 0 && ZeroFrom(b, at))
       && offset == HEADER && at + HEADER + len <= |b| && len <= PAYLOAD_MAX
  }

  /** The packets submitted from `at` on: up to padding, the end, or the first bad frame. */
  function Frames(b: seq<byte>, at: nat): seq<Packet>
    decreases |b| - at
  {
    if FrameAt(b, at) then [PacketAt(b, at)] + Frames(b, at + HEADER + PacketAt(b, at).info.payloadLen) else []
  }

  method IsZeroPadding(buf: array<byte>, start: nat, len: nat) returns (zero: bool)
    requires start <= len <= buf.Length
    ensures zero == ZeroFrom(buf[..len], start)
  {
    var i := start;
    while i < len
      invariant start <= i <= len && forall j :: start <= j < i ==> buf[j] == 0
    {
      if buf[i] != 0 {
        assert buf[..len][i] != 0;
        return false;
      }
      i := i + 1;
    }
    return true;
  }

  /** The packet whose header is at the cursor. */
  method DecodePacket(buf: array<byte>, len: nat, cursor: nat, payloadLen: nat) returns (p: Packet)
    requires payloadLen <= 0xFFFF && cursor + HEADER + payloadLen <= len <= buf.Length
    requires payloadLen == Word16(buf[cursor + 2], buf[cursor + 3])
    ensures p == PacketAt(buf[..len], cursor)
  {
    ghost var b := buf[..len];
    var aux := buf[cursor + 11];
    var info := FrameInfo(buf[cursor] % 16, buf[cursor] / 16, buf[cursor + 1], payloadLen,
                          Word16(buf[cursor + 4], buf[cursor + 5]), Word16(buf[cursor + 6], buf[cursor + 7]),
                          Word16(buf[cursor + 8], buf[cursor + 9]), buf[cursor + 10] % 4, aux, aux);
    p := Packet(info, buf[cursor + HEADER..cursor + HEADER + payloadLen]);
    assert b[cursor + HEADER..cursor + HEADER + payloadLen] == p.payload;
  }

  /** Decodes the frame at the cursor; None at padding and at a bad frame. */
  method ReadRxFrame(buf: array<byte>, len: nat, cursor: nat) returns (r: Option<Packet>)
    requires cursor + HEADER <= len <= buf.Length
    ensures r == if FrameAt(buf[..len], cursor) then Some(PacketAt(buf[..len], cursor)) else None
  {
    var payloadLen, payloadOffset := Word16(buf[cursor + 2], buf[cursor + 3]), Word16(buf[cursor + 4], buf[cursor + 5]);
    if payloadLen == 0 {
      var padding := IsZeroPadding(buf, cursor, len);
      if padding { return None; }
    }
    if payloadOffset + payloadLen == 0 || payloadOffset != HEADER
       || cursor + payloadOffset + payloadLen > len || payloadLen > PAYLOAD_MAX {
      return None;
    }
    var p := DecodePacket(buf, len, cursor, payloadLen);
    return Some(p);
  }

  method SubmitOne(ring: Ring, p: Packet, ghost q: seq<Packet>, ghost before: seq<Packet>)
    requires ring.Valid() && ring.Contents() == Submitted(q, before)
    modifies ring, ring.items
    ensures ring.Valid() && ring.Contents() == Submitted(q, before + [p])
  {
    SubmittedSnoc(q, before, p);
    ghost var was := ring.Contents();
    var ok := ring.Submit(p);
    assert !ok ==> ring.Contents() == was;
  }

  /** Reads the frame at the cursor, if there is one, and moves past it. */
  method TakeFrame(buf: array<byte>, len: nat, ring: Ring, cursor: nat, submitted: seq<Packet>, ghost q: seq<Packet>)
    returns (more: bool, next: nat, now: seq<Packet>)
    requires ring.Valid() && ring.Contents() == Submitted(q, submitted)
    requires cursor + HEADER <= len <= buf.Length
    modifies ring, ring.items
    ensures ring.Valid() && ring.Contents() == Submitted(q, now)
    ensures Moved(old(buf[..len]), cursor, submitted, more, next, now)
  {
    ghost var b: seq<byte> := buf[..len];
    var r := ReadRxFrame(buf, len, cursor);
    if r.None? {
      return false, cursor, submitted;
    }
    assert Moved(b, cursor, submitted, true, cursor + HEADER + r.value.info.payloadLen, submitted + [r.value]);
    SubmitOne(ring, r.value, q, submitted);
    more, next, now := true, cursor + HEADER + r.value.info.payloadLen, submitted + [r.value];
  }

  /** What one turn of the parser does to its cursor and its packets. */
  ghost predicate Moved(b: seq<byte>, at: nat, before: seq<Packet>, more: bool, next: nat, now: seq<Packet>) {
    if more then
      FrameAt(b, at) && now == before + [PacketAt(b, at)]
      && next == at + HEADER + PacketAt(b, at).info.payloadLen
    else !FrameAt(b, at) && now == before && next == at
  }

  lemma FramesMove(b: seq<byte>, at: nat, before: seq<Packet>, more: bool, next: nat, now: seq<Packet>,
                   goal: seq<Packet>)
    requires Moved(b, at, before, more, next, now) && at <= |b| && goal == FramesAfter(b, at, before)
    ensures at <= next <= |b| && (more ==> at < next)
    ensures goal == if more then FramesAfter(b, next, now) else now
  {
    if more { FramesStep(b, at, before, PacketAt(b, at)); } else { FramesEnd(b, at, before); }
  }

  /** Submits every frame of the buffer, in order, to the receive ring. */
  method ParseRxFrames(buf: array<byte>, len: nat, ring: Ring) returns (submitted: seq<Packet>)
    requires len <= buf.Length && ring.Valid()
    modifies ring, ring.items
    ensures ring.Valid() && submitted == old(FramesAfter(buf[..len], 0, []))
    ensures ring.Contents() == Submitted(old(ring.Contents()), submitted)
  {
    assert (buf as object) != ring.items;
    submitted := [];
    ghost var b, q, goal := buf[..len], ring.Contents(), FramesAfter(buf[..len], 0, submitted);
    var cursor, more := 0, true;
    while more && cursor + HEADER <= len
      invariant cursor <= len && ring.Valid() && b == buf[..len]
      invariant goal == if more then FramesAfter(b, cursor, submitted) else submitted
      invariant ring.Contents() == Submitted(q, submitted)
      decreases more, len - cursor
    {
      ghost var at, before := cursor, submitted;
      more, cursor, submitted := TakeFrame(buf, len, ring, cursor, submitted, q);
      FramesMove(b, at, before, more, cursor, submitted, goal);
    }
    if more { FramesEnd(b, cursor, submitted); }
  }

  /** The packets read before `at`, and those from there on. */
  function FramesAfter(b: seq<byte>, at: nat, before: seq<Packet>): seq<Packet> { before + Frames(b, at) }

  lemma FramesEnd(b: seq<byte>, at: nat, before: seq<Packet>)
    requires !FrameAt(b, at)
    ensures FramesAfter(b, at, before) == before
  {
  }

  lemma FramesStep(b: seq<byte>, at: nat, before: seq<Packet>, p: Packet)
    requires FrameAt(b, at) && p == PacketAt(b, at)
    ensures at + HEADER + p.info.payloadLen <= |b|
    ensures FramesAfter(b, at, before) == FramesAfter(b, at + HEADER + p.info.payloadLen, before + [p])
  {
    var rest := NextFrames(b, at, p);
    Assoc(before, [p], rest);
  }

  lemma NextFrames(b: seq<byte>, at: nat, p: Packet) returns (rest: seq<Packet>)
    requires FrameAt(b, at) && p == PacketAt(b, at)
    ensures at + HEADER + p.info.payloadLen <= |b| && rest == Frames(b, at + HEADER + p.info.payloadLen)
    ensures Frames(b, at) == [p] + rest
  {
    rest := Frames(b, at + HEADER + p.info.payloadLen);
  }

  lemma {:induction false} SubmittedSnoc(q: seq<Packet>, arrivals: seq<Packet>, p: Packet)
    ensures var r := Submitted(q, arrivals);
            Submitted(q, arrivals + [p]) == if |p.payload| <= PAYLOAD_MAX && |r| < DEPTH then r + [p] else r
    decreases |arrivals|
  {
    if arrivals == [] {
      assert [p][1..] == [];
    } else {
      var a := arrivals[0];
      assert (arrivals + [p])[1..] == arrivals[1..] + [p];
      SubmittedSnoc(if |a.payload| <= PAYLOAD_MAX && |q| < DEPTH then q + [a] else q, arrivals[1..], p);
    }
  }

  // ---------------------------------------------------------------------------------------------
  // Sending

  /** Byte sum of the first `len` bytes, mod 2^16. */
  method ComputeChecksum(buf: array<byte>, len: nat) returns (sum: u16)
    requires len <= buf.Length
    ensures sum == ByteSum(buf[..len], len) % 0x1_0000
  {
    var total: int, i := 0, 0;
    while i < len
      invariant i <= len && total == ByteSum(buf[..len], i)
    {
      total := total + buf[i];
      i := i + 1;
    }
    sum := total % 0x1_0000;
  }

  method WriteHeader(txFrame: array<byte>, info: FrameInfo, len: nat)
    requires txFrame.Length == TX_FRAME_SIZE && len <= PAYLOAD_MAX
    modifies txFrame
    ensures txFrame[..HEADER] == HeaderFront(info, len) + Le16(0) + HeaderBack(info)
  {
    txFrame[0], txFrame[1] := info.ifType % 16 + 16 * (info.ifNum % 16), info.flags;
    txFrame[2], txFrame[3] := len % 0x100, len / 0x100;
    txFrame[4], txFrame[5] := HEADER, 0;
    txFrame[6], txFrame[7] := 0, 0;
    txFrame[8], txFrame[9] := info.seqNum % 0x100, info.seqNum / 0x100;
    txFrame[10] := info.throttleCmd % 4;
    txFrame[11] := if info.ifType == IF_HCI then info.hciPktType else 0;
  }

  /** Header with a zero checksum and payload. */
  method WriteUnsummed(txFrame: array<byte>, info: FrameInfo, payload: seq<byte>)
    requires txFrame.Length == TX_FRAME_SIZE && |payload| <= PAYLOAD_MAX
    modifies txFrame
    ensures txFrame[..HEADER + |payload|] == FrameWith(info, payload, 0)
  {
    WriteHeader(txFrame, info, |payload|);
    ghost var head := txFrame[..HEADER];
    forall i | 0 <= i < |payload| { txFrame[HEADER + i] := payload[i]; }
    assert txFrame[..HEADER] == head;
    assert txFrame[..HEADER + |payload|] == head + payload;
  }

  lemma PutChecksum(info: FrameInfo, payload: seq<byte>, sum: u16)
    ensures |FrameWith(info, payload, 0)| == HEADER + |payload|
    ensures FrameWith(info, payload, sum) == FrameWith(info, payload, 0)[6 := sum % 0x100][7 := sum / 0x100]
  {
    var front, back := HeaderFront(info, |payload|), HeaderBack(info);
    assert FrameWith(info, payload, 0)[6 := sum % 0x100][7 := sum / 0x100] == front + Le16(sum) + back + payload;
  }

  /** Builds the frame in the transmit buffer. */
  method BuildFrame(txFrame: array<byte>, info: FrameInfo, payload: seq<byte>) returns (frameLen: nat)
    requires txFrame.Length == TX_FRAME_SIZE && |payload| <= PAYLOAD_MAX
    modifies txFrame
    ensures frameLen == HEADER + |payload| && txFrame[..frameLen] == Frame(info, payload)
  {
    frameLen := HEADER + |payload|;
    WriteUnsummed(txFrame, info, payload);
    var sum := ComputeChecksum(txFrame, frameLen);
    PutChecksum(info, payload, sum);
    ghost var zeroed: seq<byte> := txFrame[..frameLen];
    txFrame[6], txFrame[7] := sum % 0x100, sum / 0x100;
    assert txFrame[..frameLen] == zeroed[6 := sum % 0x100][7 := sum / 0x100];
  }

  /** A length rounded up to whole blocks. */
  function Padded(len: nat): (n: nat)
    ensures len <= n < len + BLOCK && n % BLOCK == 0
  {
    (len + BLOCK - 1) / BLOCK * BLOCK
  }

  /** The frame filled up with zeros to whole blocks. */
  function PaddedFrame(frame: seq<byte>): (r: seq<byte>)
    ensures |r| == Padded(|frame|) && r[..|frame|] == frame && ZeroFrom(r, |frame|)
  {
    frame + seq(Padded(|frame|) - |frame|, i => 0)
  }

  /** Fills up the last block with zeros. */
  method PadToBlocks(txFrame: array<byte>, frameLen: nat)
    requires Padded(frameLen) <= txFrame.Length
    modifies txFrame
    ensures txFrame[..Padded(frameLen)] == PaddedFrame(old(txFrame[..frameLen]))
    ensures txFrame[Padded(frameLen)..] == old(txFrame[Padded(frameLen)..])
  {
    ghost var frame: seq<byte> := txFrame[..frameLen];
    forall i | frameLen <= i < Padded(frameLen) { txFrame[i] := 0; }
    assert txFrame[..Padded(frameLen)] == PaddedFrame(frame);
  }

  // ---------------------------------------------------------------------------------------------
  // Round trip

  predicate Legal(p: Packet) {
    |p.payload| <= 1600 && p.info.ifType < 16 && p.info.ifNum < 16 && p.info.throttleCmd < 4
  }

  predicate AllLegal(ps: seq<Packet>) { forall i :: 0 <= i < |ps| ==> Legal(ps[i]) }

  /** What the other side submits for a packet: type, number, flags, sequence, throttle and payload
      as sent; the packet type only for HCI. */
  function Arriving(p: Packet): Packet {
    var aux := if p.info.ifType == 4 then p.info.hciPktType else 0;
    p.(info := p.info.(payloadLen := |p.payload| % 0x1_0000, payloadOffset := HEADER,
                       checksum := Checksum(p.info, p.payload), hciPktType := aux, privPktType := aux))
  }

  /** The frames of the packets from the i-th on, one after the other. */
  function Stream(ps: seq<Packet>, i: nat): seq<byte>
    decreases |ps| - i
  {
    if i >= |ps| then [] else Frame(ps[i].info, ps[i].payload) + Stream(ps, i + 1)
  }

  lemma Le16Word(n: u16)
    ensures Word16(Le16(n)[0], Le16(n)[1]) == n
  {
  }

  /** The frame of a packet, standing at `at`, is a frame and carries the packet. */
  lemma FrameStands(b: seq<byte>, at: nat, p: Packet)
    requires Legal(p) && StandsAt(b, at, Frame(p.info, p.payload))
    ensures FrameAt(b, at) && PacketAt(b, at) == Arriving(p)
  {
    HeaderStands(b, at, p);
    var sum := ChecksumOf(p);
    HeaderReads(b, at, p, sum);
    FieldsMake(b, at, p, sum);
  }

  lemma ChecksumOf(p: Packet) returns (sum: u16)
    ensures sum == Checksum(p.info, p.payload)
  {
    sum := Checksum(p.info, p.payload);
  }

  /** A header with these fields, and the payload behind it, are the packet. */
  lemma FieldsMake(b: seq<byte>, at: nat, p: Packet, sum: u16)
    requires Legal(p) && at + HEADER + |p.payload| <= |b| && b[at + HEADER..at + HEADER + |p.payload|] == p.payload
    requires Word16(b[at + 2], b[at + 3]) == |p.payload| && Word16(b[at + 4], b[at + 5]) == HEADER
    requires Word16(b[at + 6], b[at + 7]) == sum && Word16(b[at + 8], b[at + 9]) == p.info.seqNum
    requires b[at] % 16 == p.info.ifType && b[at] / 16 == p.info.ifNum && b[at + 1] == p.info.flags
    requires b[at + 10] % 4 == p.info.throttleCmd && b[at + 11] == if p.info.ifType == 4 then p.info.hciPktType else 0
    ensures FrameAt(b, at)
    ensures PacketAt(b, at)
         == p.(info := p.info.(payloadLen := |p.payload|, payloadOffset := HEADER, checksum := sum,
                               hciPktType := b[at + 11], privPktType := b[at + 11]))
  {
  }

  /** The fields of the header are read back. */
  lemma HeaderReads(b: seq<byte>, at: nat, p: Packet, sum: u16)
    requires Legal(p) && at + HEADER <= |b| && forall i :: 0 <= i < HEADER ==> b[at + i] == HeaderList(p, sum)[i]
    ensures Word16(b[at + 2], b[at + 3]) == |p.payload| && Word16(b[at + 4], b[at + 5]) == HEADER
    ensures Word16(b[at + 6], b[at + 7]) == sum && Word16(b[at + 8], b[at + 9]) == p.info.seqNum
    ensures b[at] % 16 == p.info.ifType && b[at] / 16 == p.info.ifNum && b[at + 1] == p.info.flags
    ensures b[at + 10] % 4 == p.info.throttleCmd
            && b[at + 11] == if p.info.ifType == IF_HCI then p.info.hciPktType else 0
  {
    var h := HeaderList(p, sum);
    assert b[at] == h[0] && b[at + 1] == h[1] && b[at + 4] == h[4] && b[at + 5] == h[5] && b[at + 10] == h[10]
           && b[at + 11] == h[11];
    assert b[at + 2] == h[2] && b[at + 3] == h[3] && b[at + 6] == h[6] && b[at + 7] == h[7] && b[at + 8] == h[8]
           && b[at + 9] == h[9];
    WordReads(b, at + 2, |p.payload|);
    WordReads(b, at + 6, sum);
    WordReads(b, at + 8, p.info.seqNum);
  }

  lemma WordReads(b: seq<byte>, at: nat, n: u16)
    requires at + 1 < |b| && b[at] == Le16(n)[0] && b[at + 1] == Le16(n)[1]
    ensures Word16(b[at], b[at + 1]) == n
  {
    Le16Word(n);
  }

  /** The twelve header bytes. */
  function HeaderList(p: Packet, sum: u16): seq<byte> {
    var info, len := p.info, |p.payload|;
    [info.ifType % 16 + 16 * (info.ifNum % 16), info.flags, Le16(len)[0], Le16(len)[1], 12, 0,
     Le16(sum)[0], Le16(sum)[1], Le16(info.seqNum)[0], Le16(info.seqNum)[1], info.throttleCmd % 4,
     if info.ifType == IF_HCI then info.hciPktType else 0]
  }

  lemma HeaderStands(b: seq<byte>, at: nat, p: Packet)
    requires Legal(p) && StandsAt(b, at, Frame(p.info, p.payload))
    ensures at + HEADER + |p.payload| <= |b| && b[at + HEADER..at + HEADER + |p.payload|] == p.payload
    ensures forall i :: 0 <= i < HEADER ==> b[at + i] == HeaderList(p, Checksum(p.info, p.payload))[i]
  {
    var sum := Checksum(p.info, p.payload);
    var head := HeaderFront(p.info, |p.payload|) + Le16(sum) + HeaderBack(p.info);
    assert head == HeaderList(p, sum);
    StandsAtParts(b, at, head, p.payload);
    forall i | 0 <= i < HEADER
      ensures b[at + i] == head[i]
    {
      assert b[at + i] == b[at..at + HEADER][i];
    }
  }

  /** Any legal frames followed by any zero padding are submitted, all of them and in order. */
  lemma {:induction false} FramesRoundTrip(b: seq<byte>, ps: seq<Packet>)
    requires AllLegal(ps) && StandsAt(b, 0, Stream(ps, 0)) && ZeroFrom(b, |Stream(ps, 0)|)
    ensures Frames(b, 0) == seq(|ps|, i requires 0 <= i < |ps| => Arriving(ps[i]))
  {
    var r := RoundTripFrom(b, 0, [], ps, 0);
  }

  /** `r` is what the first `i` packets arrive as. */
  predicate Arrived(r: seq<Packet>, ps: seq<Packet>, i: nat) {
    |r| == i <= |ps| && forall j :: 0 <= j < i ==> r[j] == Arriving(ps[j])
  }

  lemma ArrivedMore(r: seq<Packet>, p: Packet, ps: seq<Packet>, i: nat)
    requires i < |ps| && Arrived(r, ps, i) && p == Arriving(ps[i])
    ensures Arrived(r + [p], ps, i + 1)
  {
  }

  lemma {:induction false} RoundTripFrom(b: seq<byte>, at: nat, before: seq<Packet>, ps: seq<Packet>, i: nat)
    returns (r: seq<Packet>)
    requires AllLegal(ps) && i <= |ps| && Arrived(before, ps, i)
    requires StandsAt(b, at, Stream(ps, i)) && ZeroFrom(b, at + |Stream(ps, i)|)
    ensures r == FramesAfter(b, at, before) && Arrived(r, ps, |ps|)
    decreases |ps| - i
  {
    if i == |ps| {
      ZerosAreNoFrame(b, at);
      FramesEnd(b, at, before);
      r := before;
    } else {
      var next, p, rest := FirstFrame(b, at, before, ps, i);
      ArrivedMore(before, p, ps, i);
      r := RoundTripFrom(b, next, before + [p], ps, i + 1);
    }
  }

  lemma ZerosAreNoFrame(b: seq<byte>, at: nat)
    requires at <= |b| && ZeroFrom(b, at)
    ensures !FrameAt(b, at)
  {
    if at + HEADER <= |b| { assert b[at + 2] == 0 && b[at + 3] == 0; }
  }

  lemma FirstFrame(b: seq<byte>, at: nat, before: seq<Packet>, ps: seq<Packet>, i: nat)
    returns (next: nat, p: Packet, rest: seq<byte>)
    requires i < |ps| && Legal(ps[i])
    requires StandsAt(b, at, Stream(ps, i)) && ZeroFrom(b, at + |Stream(ps, i)|)
    ensures rest == Stream(ps, i + 1) && StandsAt(b, next, rest) && ZeroFrom(b, next + |rest|)
    ensures p == Arriving(ps[i]) && FramesAfter(b, at, before) == FramesAfter(b, next, before + [p])
  {
    var f: seq<byte>;
    f, rest := SplitStream(ps, i);
    next := StandsSplit(b, at, f, rest);
    FrameLength(ps[i]);
    FrameStands(b, at, ps[i]);
    p := OneFrame(b, at, before, ps[i], next);
  }

  lemma FrameLength(p: Packet)
    ensures |Frame(p.info, p.payload)| == HEADER + |p.payload|
  {
  }

  lemma SplitStream(ps: seq<Packet>, i: nat) returns (f: seq<byte>, rest: seq<byte>)
    requires i < |ps|
    ensures f == Frame(ps[i].info, ps[i].payload) && rest == Stream(ps, i + 1) && Stream(ps, i) == f + rest
  {
    f, rest := Frame(ps[i].info, ps[i].payload), Stream(ps, i + 1);
  }

  lemma OneFrame(b: seq<byte>, at: nat, before: seq<Packet>, sent: Packet, next: nat) returns (p: Packet)
    requires Legal(sent) && FrameAt(b, at) && PacketAt(b, at) == Arriving(sent) && next == at + HEADER + |sent.payload|
    ensures p == Arriving(sent)
    ensures FramesAfter(b, at, before) == FramesAfter(b, next, before + [p])
  {
    p := PacketAt(b, at);
    FramesStep(b, at, before, p);
  }
}
