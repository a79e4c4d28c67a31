/** Responses on the wire, and what a restart of the control channel does to them. */
module HostedRestart {
  import opened Bytes
  import opened Protobuf
  import opened HostedRpc
  import opened HostedRequests
  import opened RxRing
  import opened HostedCtrl
  import opened HostedWire

  // ---------------------------------------------------------------------------------------------
  // Responses

  /** A signed code as it stands on the wire. */
  function Wire(code: int): u64
    requires -0x8000_0000 <= code < 0x8000_0000
  {
    if code >= 0 then code else code + TWO64
  }

  /** The payload of a response: its code, which a MAC response holds in field 2 behind the address, and
      every other one in field 1. */
  function CodePayload(kind: Kind, mac: seq<byte>, code: int): seq<byte>
    requires -0x8000_0000 <= code < 0x8000_0000
  {
    match kind
    case GetMac => LenFieldBytes(1, mac) + VarintFieldBytes(2, Wire(code))
    case _ => VarintFieldBytes(1, Wire(code))
  }

  /** The serial packet of a response. */
  function ResponsePacket(kind: Kind, respId: u32, uid: u32, mac: seq<byte>, code: int): (p: Packet)
    requires -0x8000_0000 <= code < 0x8000_0000 && |mac| == 6
  {
    ResponseSize(kind, respId, uid, mac, code);
    Packet(FrameInfo(3, 0, 0, 0, 0, 0, 0, 0, 0, 0),
           Envelope(MessageBytes(2, respId, uid, CodePayload(kind, mac, code))))
  }

  lemma PlainCodeReadBack(num: u32, code: int)
    requires -0x8000_0000 <= code < 0x8000_0000
    ensures var b := VarintFieldBytes(num, Wire(code)); ResponseIn(b, num) == Some(Response(code, true))
  {
    var items, f: Field := Cons(V(num, Wire(code)), Nil), VarintField(num, Wire(code));
    assert Encode(items) == VarintFieldBytes(num, Wire(code)) + [] by { assert Encode(Nil) == []; }
    assert Encode(items) == VarintFieldBytes(num, Wire(code));
    MessageRoundTrip(items);
    assert FieldsOf(0, items) == [f];
    LastOfOne(f, num);
    SignedRoundTrip(code);
  }

  lemma LastOfOne(f: Field, num: u32)
    requires f.VarintField? && f.num == num
    ensures LastVarint([f], num) == Some(f.value)
  {
  }

  lemma MacCodeReadBack(mac: seq<byte>, code: int)
    requires -0x8000_0000 <= code < 0x8000_0000 && |mac| == 6
    ensures ResponseIn(LenFieldBytes(1, mac) + VarintFieldBytes(2, Wire(code)), 2) == Some(Response(code, true))
  {
    var tail := Cons(V(2, Wire(code)), Nil);
    var items := Cons(B(1, mac), tail);
    assert Encode(tail) == VarintFieldBytes(2, Wire(code)) by { assert Encode(Nil) == []; }
    assert Encode(items) == LenFieldBytes(1, mac) + VarintFieldBytes(2, Wire(code));
    assert Small(tail);
    MessageRoundTrip(items);
    var f, g: Field := FieldOf(0, B(1, mac)), VarintField(2, Wire(code));
    var off := |LenFieldBytes(1, mac)|;
    assert FieldsOf(off, tail) == [g] by { assert FieldsOf(off + |ItemBytes(tail.head)|, Nil) == []; }
    assert FieldsOf(0, items) == [f] + FieldsOf(off, tail);
    assert ([f] + [g])[..1] == [f] && ([f] + [g])[1] == g;
    SignedRoundTrip(code);
  }

  /** The code is read where it stands. */
  lemma CodeReadBack(kind: Kind, mac: seq<byte>, code: int)
    requires -0x8000_0000 <= code < 0x8000_0000 && |mac| == 6
    ensures CodeIn(kind, CodePayload(kind, mac, code)) == code
  {
    if kind == GetMac {
      MacCodeReadBack(mac, code);
    } else {
      PlainCodeReadBack(1, code);
    }
  }

  lemma VarintSize(v: u64)
    ensures |Varint(v)| <= 10
  {
    VarintIsVarint(v);
  }

  lemma CodePayloadSize(kind: Kind, mac: seq<byte>, code: int)
    requires -0x8000_0000 <= code < 0x8000_0000 && |mac| == 6
    ensures |CodePayload(kind, mac, code)| <= 46
  {
    VarintSize(1 * 8);
    VarintSize(2 * 8);
    VarintSize(1 * 8 + 2);
    VarintSize(6);
    VarintSize(Wire(code));
  }

  /** The message of a response is short. */
  lemma ResponseSize(kind: Kind, respId: u32, uid: u32, mac: seq<byte>, code: int)
    requires -0x8000_0000 <= code < 0x8000_0000 && |mac| == 6
    ensures |CodePayload(kind, mac, code)| <= 46
    ensures |MessageBytes(2, respId, uid, CodePayload(kind, mac, code))| <= 100
  {
    CodePayloadSize(kind, mac, code);
    VarintSize(respId);
    VarintSize(uid);
    VarintSize(respId * 8 + 2);
    VarintSize(|CodePayload(kind, mac, code)|);
  }

  /** The packet carries the response to the request with this id and uid. */
  predicate Carries(p: Packet, kind: Kind, respId: u32, uid: u32, code: int) {
    && p.info.ifType == IF_SERIAL && |p.payload| <= PAYLOAD_MAX && MessageIn(p.payload).Some?
    && var (msg, payload) := MessageIn(p.payload).value;
       && msg.msgType == TYPE_RESP && msg.msgId == respId && msg.uid == uid
       && msg.payload.Some? && msg.payload.value.field == respId && CodeIn(kind, payload) == code
  }

  lemma ResponseArrives(kind: Kind, respId: u32, uid: u32, mac: seq<byte>, code: int) returns (p: Packet)
    requires -0x8000_0000 <= code < 0x8000_0000 && |mac| == 6
    ensures p == ResponsePacket(kind, respId, uid, mac, code) && Carries(p, kind, respId, uid, code)
  {
    var payload := CodePayload(kind, mac, code);
    p := ResponsePacket(kind, respId, uid, mac, code);
    ResponseSize(kind, respId, uid, mac, code);
    CodeReadBack(kind, mac, code);
    ResponseOnWire(respId, uid, payload);
    EnvelopeIsTlv(MessageBytes(2, respId, uid, payload));
    SerialReadBack(TYPE_RESP, respId, uid, payload);
  }

  /** A wrapped message is what the receive callback finds. */
  lemma SerialReadBack(ty: u32, id: u32, uid: u32, payload: seq<byte>)
    requires |Message(ty, id, uid, Some(payload))| <= 0xFFFF && |payload| < TWO64
    ensures MessageIn(Tlv(EP_RSP, Message(ty, id, uid, Some(payload))))
            == Some((MessageRpc(ty, id, uid, Some(payload)), payload))
    ensures |payload| <= |Message(ty, id, uid, Some(payload))|
  {
    var data := Message(ty, id, uid, Some(payload));
    var b, start := Tlv(EP_RSP, data), |data| - |payload|;
    assert b + [] == b;
    TlvUnwraps(EP_RSP, data, []);
    MessageParses(ty, id, uid, Some(payload));
    assert data[start..][..|payload|] == payload;
    FoundMessage(b, data, MessageRpc(ty, id, uid, Some(payload)), id, start, payload);
  }

  lemma FoundMessage(b: seq<byte>, data: seq<byte>, msg: Rpc, field: u32, start: nat, payload: seq<byte>)
    requires Unwrapped(b) == Some((12, |data|)) && b[12..][..|data|] == data && RpcIn(data) == Some(msg)
    requires msg.payload == Some(Payload(field, start, |payload|)) && start + |payload| <= |data|
    requires data[start..][..|payload|] == payload
    ensures MessageIn(b) == Some((msg, payload))
  {
  }

  // ---------------------------------------------------------------------------------------------
  // A response completes its request

  lemma {:induction false} DispatchedSnoc(c: Ctrl, q: seq<Packet>, p: Packet)
    ensures Dispatched(c, q + [p])
         == if p.info.ifType == IF_SERIAL then Received(Dispatched(c, q), p.payload) else Dispatched(c, q)
    decreases |q|
  {
    if q == [] {
      assert [p][1..] == [];
    } else {
      assert (q + [p])[1..] == q[1..] + [p];
      DispatchedSnoc(if q[0].info.ifType == IF_SERIAL then Received(c, q[0].payload) else c, q[1..], p);
    }
  }

  /** A response that arrives in the first turn of the wait, into a ring with room, completes the
      request with its code, whatever else is queued. */
  lemma WaitCompletes(c: Ctrl, q: seq<Packet>, p: Packet, more: seq<seq<Packet>>, code: int)
    requires |q| < DEPTH && c.waiting && Carries(p, c.kind, c.waitMsgId, c.waitUid, code)
    ensures Waited(c, q, [[p]] + more).2 == Some(code)
  {
    var polls := [[p]] + more;
    assert polls[0] == [p];
    assert Submitted(q, [p]) == q + [p] by { assert [p][1..] == []; }
    DispatchedSnoc(c, q, p);
    DispatchedFrame(c, q);
  }

  /** After every run that leaves room in the ring, a request is completed by its response, with the
      code that the response carries. */
  lemma ResponseCompletes(steps: seq<Step>, kind: Kind, respId: u32, mac: seq<byte>, code: int, more: seq<seq<Packet>>)
    returns (p: Packet)
    requires -0x8000_0000 <= code < 0x8000_0000 && |mac| == 6 && |After(steps).q| < DEPTH
    ensures p == ResponsePacket(kind, respId, Uid(After(steps).issued), mac, code)
    ensures Outcome(After(steps), kind, respId, [[p]] + more) == Some(code)
  {
    var s := After(steps);
    RunInv(steps);
    p := ResponseArrives(kind, respId, Uid(s.issued), mac, code);
    WaitCompletes(Begun(Taken(s).c, kind, respId, s.c.nextUid), s.q, p, more, code);
  }

  /** `n` turns in which nothing arrives. */
  function Quiet(n: nat): seq<seq<Packet>> { if n == 0 then [] else [[]] + Quiet(n - 1) }

  lemma QuietTurn(c: Ctrl, q: seq<Packet>, polls: seq<seq<Packet>>)
    requires !Dispatched(c, q).seen
    ensures Waited(c, q, [[]] + polls).2 == Waited(Dispatched(c, q), [], polls).2
  {
    assert ([[]] + polls)[1..] == polls && Submitted(q, []) == q;
  }

  /** It completes the request in a later turn as well, when nothing completed it before. */
  lemma {:induction false} WaitCompletesLater(c: Ctrl, q: seq<Packet>, p: Packet, n: nat, more: seq<seq<Packet>>,
                                              code: int)
    requires |q| < DEPTH && c.waiting && Carries(p, c.kind, c.waitMsgId, c.waitUid, code) && !Dispatched(c, q).seen
    ensures Waited(c, q, Quiet(n) + ([[p]] + more)).2 == Some(code)
    decreases n
  {
    if n == 0 {
      assert Quiet(0) + ([[p]] + more) == [[p]] + more;
      WaitCompletes(c, q, p, more, code);
    } else {
      assert Quiet(n) + ([[p]] + more) == [[]] + (Quiet(n - 1) + ([[p]] + more));
      QuietTurn(c, q, Quiet(n - 1) + ([[p]] + more));
      DispatchedFrame(c, q);
      WaitCompletesLater(Dispatched(c, q), [], p, n - 1, more, code);
    }
  }

  /** A response that arrives after any number of turns completes its request, when none of the queued
      packets is the awaited response. */
  lemma ResponseCompletesLater(steps: seq<Step>, kind: Kind, respId: u32, mac: seq<byte>, code: int, n: nat,
                               more: seq<seq<Packet>>)
    returns (p: Packet)
    requires -0x8000_0000 <= code < 0x8000_0000 && |mac| == 6 && |After(steps).q| < DEPTH
    requires var s := After(steps);
             forall i :: 0 <= i < |s.q| ==> !Completes(Begun(Taken(s).c, kind, respId, s.c.nextUid), s.q[i])
    ensures p == ResponsePacket(kind, respId, Uid(After(steps).issued), mac, code)
    ensures Outcome(After(steps), kind, respId, Quiet(n) + ([[p]] + more)) == Some(code)
  {
    var s := After(steps);
    RunInv(steps);
    p := ResponseArrives(kind, respId, Uid(s.issued), mac, code);
    var c := Begun(Taken(s).c, kind, respId, s.c.nextUid);
    DispatchCompletesExactly(c, s.q);
    WaitCompletesLater(c, s.q, p, n, more, code);
  }

  // ---------------------------------------------------------------------------------------------
  // Restarts

  /** A request that times out, and its answer, which arrives late. */
  function LateAnswer(kind: Kind, respId: u32, p: Packet): seq<Step> { [Req(kind, respId, true, [[]]), Arrive([p])] }

  lemma AfterLate(kind: Kind, respId: u32, p: Packet) returns (s: System)
    requires |p.payload| <= PAYLOAD_MAX
    ensures Outcome(After([]), kind, respId, [[]]) == None
    ensures s == After(LateAnswer(kind, respId, p)) && s.q == [p] && s.issued == 1
  {
    var r := Req(kind, respId, true, [[]]);
    var one, steps := [r], LateAnswer(kind, respId, p);
    assert one[..0] == [] && steps[..1] == one;
    var c := Begun(Taken(INIT).c, kind, respId, 1);
    NothingArrives(c);
    assert After(one) == Next(INIT, r);
    assert Submitted([], [p]) == [p] by { assert [p][1..] == []; }
    s := After(steps);
    assert s == Next(After(one), Arrive([p]));
  }

  lemma NothingArrives(c: Ctrl)
    requires !c.seen
    ensures Waited(c, [], [[]]) == (c, [], None)
  {
    var polls: seq<seq<Packet>> := [[]];
    assert polls[1..] == [];
  }

  /** Without a restart in between, the next request does not take the late answer for its own. After
      a restart the uids begin again while the ring keeps the answer, and the next request with the
      same response id is completed by it. */
  lemma LateAnswerCompletes(kind: Kind, respId: u32, mac: seq<byte>, code: int) returns (p: Packet)
    requires -0x8000_0000 <= code < 0x8000_0000 && |mac| == 6
    ensures p == ResponsePacket(kind, respId, Uid(0), mac, code)
    ensures Outcome(After([]), kind, respId, [[]]) == None
    ensures Outcome(After(LateAnswer(kind, respId, p)), kind, respId, [[]]) == None
    ensures Outcome(After(LateAnswer(kind, respId, p) + [Restart]), kind, respId, [[]]) == Some(code)
  {
    p := ResponseArrives(kind, respId, Uid(0), mac, code);
    var s := AfterLate(kind, respId, p);
    LateNotTaken(kind, respId, p, code, s);
    RestartTakes(kind, respId, p, code, s);
  }

  lemma LateNotTaken(kind: Kind, respId: u32, p: Packet, code: int, s: System)
    requires Carries(p, kind, respId, Uid(0), code)
    requires s == After(LateAnswer(kind, respId, p)) && s.q == [p] && s.issued == 1
    ensures Outcome(s, kind, respId, [[]]) == None
  {
    RunInv(LateAnswer(kind, respId, p));
    NotTaken(Begun(Taken(s).c, kind, respId, s.c.nextUid), p);
  }

  lemma RestartTakes(kind: Kind, respId: u32, p: Packet, code: int, s: System)
    requires Carries(p, kind, respId, Uid(0), code) && s == After(LateAnswer(kind, respId, p)) && s.q == [p]
    ensures Outcome(After(LateAnswer(kind, respId, p) + [Restart]), kind, respId, [[]]) == Some(code)
  {
    var late := LateAnswer(kind, respId, p);
    assert (late + [Restart])[..|late|] == late;
    QueuedCompletes(Begun(Taken(INIT).c, kind, respId, 1), p, code);
  }

  lemma NotTaken(c: Ctrl, p: Packet)
    requires !c.seen && (MessageIn(p.payload).Some? ==> MessageIn(p.payload).value.0.uid != c.waitUid)
    ensures Waited(c, [p], [[]]).2 == None
  {
    var polls: seq<seq<Packet>> := [[]];
    assert [p][1..] == [] && polls[1..] == [];
    assert Dispatched(c, [p]) == c;
  }

  lemma QueuedCompletes(c: Ctrl, p: Packet, code: int)
    requires c.waiting && Carries(p, c.kind, c.waitMsgId, c.waitUid, code)
    ensures Waited(c, [p], [[]]).2 == Some(code)
  {
    assert [p][1..] == [];
    assert Dispatched(c, [p]) == Received(c, p.payload);
  }
}
