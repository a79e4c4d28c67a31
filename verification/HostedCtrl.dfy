/** Matching RPC responses to requests: the control state, its receive callback, the request loop,
    and what holds over every run of requests, timeouts and late or stray frames. */
module HostedCtrl {
  import opened Bytes
  import opened Protobuf
  import opened HostedRpc
  import opened RxRing

  const ERR_STATE: int := -1000
  const ERR_PROTO: int := -1001
  const ERR_TX: int := -1002
  const ERR_TIMEOUT: int := -1003
  const TLV_BUF_SIZE: nat := 256
  const MAX_UID: nat := 0xFFFF_FFFF

  /** What a waiting caller expects; the response code is field 2 for a MAC address, else field 1. */
  datatype Kind = NoWait | FeatureControl | FwVersion | GetMac | Simple

  datatype Ctrl = Ctrl(nextUid: u32, waiting: bool, kind: Kind, waitUid: u32, waitMsgId: u32, seen: bool, code: int)

  // ---------------------------------------------------------------------------------------------
  // Uids

  function NextUid(uid: u32): u32 { if uid + 1 > MAX_UID then 1 else uid + 1 }

  /** The uid of the n-th request after start-up, counted from 0. */
  function Uid(n: nat): u32 { n % MAX_UID + 1 }

  lemma UidSequence(n: nat)
    ensures Uid(0) == 1 && Uid(n) != 0 && Uid(n + 1) == NextUid(Uid(n))
  {
  }

  /** Within 2^32 - 1 requests no uid repeats. */
  lemma UidsDiffer(m: nat, n: nat)
    requires m < n < m + MAX_UID
    ensures Uid(m) != Uid(n)
  {
  }

  // ---------------------------------------------------------------------------------------------
  // Receiving

  /** The RPC message in a serial payload, with the bytes its first payload field spans. */
  function MessageIn(b: seq<byte>): Option<(Rpc, seq<byte>)> {
    match Unwrapped(b)
    case None => None
    case Some((start, len)) =>
      var data := b[start..][..len];
      match RpcIn(data)
      case None => None
      case Some(msg) =>
        if msg.payload.Some? && msg.payload.value.start + msg.payload.value.len <= |data|
        then Some((msg, data[msg.payload.value.start..][..msg.payload.value.len]))
        else Some((msg, []))
  }

  /** The message is the awaited response. */
  predicate Matches(c: Ctrl, msg: Rpc) {
    && c.waiting && msg.msgType == TYPE_RESP && msg.msgId == c.waitMsgId && msg.uid == c.waitUid
    && msg.payload.Some? && msg.payload.value.field == c.waitMsgId
  }

  function CodeField(kind: Kind): u32 { if kind == GetMac then 2 else 1 }

  function CodeIn(kind: Kind, payload: seq<byte>): int {
    match ResponseIn(payload, CodeField(kind)) case Some(r) => r.code case None => -1001
  }

  /** The receive callback. */
  function Received(c: Ctrl, b: seq<byte>): Ctrl {
    match MessageIn(b)
    case Some((msg, payload)) => if Matches(c, msg) then c.(seen := true, code := CodeIn(c.kind, payload)) else c
    case None => c
  }

  /** Serial packets go to the control callback, in order; the others do not touch its state. */
  function Dispatched(c: Ctrl, q: seq<Packet>): Ctrl
    decreases |q|
  {
    if q == [] then c
    else Dispatched(if q[0].info.ifType == IF_SERIAL then Received(c, q[0].payload) else c, q[1..])
  }

  /** The wait loop: every turn polls the transport, which submits `polls[i]`, and dispatches.
      None when all turns pass without a response. */
  function Waited(c: Ctrl, q: seq<Packet>, polls: seq<seq<Packet>>): (r: (Ctrl, seq<Packet>, Option<int>))
    decreases |polls|
  {
    if polls == [] then (c, q, None)
    else
      var c' := Dispatched(c, Submitted(q, polls[0]));
      if c'.seen then (c', [], Some(c'.code)) else Waited(c', [], polls[1..])
  }

  function Begun(c: Ctrl, kind: Kind, respId: u32, uid: u32): Ctrl {
    c.(waiting := true, kind := kind, waitUid := uid, waitMsgId := respId, seen := false, code := ERR_TIMEOUT)
  }

  function Ended(c: Ctrl): Ctrl { c.(waiting := false, kind := NoWait) }

  /** The bytes in memory of their own. */
  method ToArray(b: seq<byte>) returns (buf: array<byte>)
    ensures fresh(buf) && buf.Length == |b| && buf[..|b|] == b
  {
    buf := new byte[|b|](i requires 0 <= i < |b| => b[i]);
  }

  /** Unwraps and parses a serial payload; an empty one is none. */
  method ReadMessage(payload: seq<byte>) returns (m: Option<(Rpc, seq<byte>)>)
    ensures m == MessageIn(payload)
  {
    if payload == [] { return None; }
    var buf := ToArray(payload);
    var ok, start, len := UnwrapTlv(buf, |payload|);
    if !ok { return None; }
    var data := payload[start..][..len];
    var dataBuf := ToArray(data);
    var rpc := ParseRpc(dataBuf, len);
    if rpc.None? { return None; }
    var p := rpc.value.payload;
    if p.Some? && p.value.start + p.value.len <= |data| {
      m := Some((rpc.value, data[p.value.start..][..p.value.len]));
    } else {
      m := Some((rpc.value, []));
    }
  }

  /** The code of a response; a malformed one has a code of its own. */
  method ReadCode(kind: Kind, payload: seq<byte>) returns (code: int)
    ensures code == CodeIn(kind, payload)
  {
    var buf := ToArray(payload);
    var r := ParseResponse(buf, |payload|, CodeField(kind));
    code := if r.Some? then r.value.code else ERR_PROTO;
  }

  class Control {
    const ring: Ring
    var nextUid: u32
    var waiting: bool
    var kind: Kind
    var waitUid: u32
    var waitMsgId: u32
    var responseSeen: bool
    var responseCode: int

    ghost predicate Valid()
      reads this, ring, ring.items
    {
      ring.Valid() && 0 < nextUid
    }

    ghost function View(): Ctrl
      reads this
    {
      Ctrl(nextUid, waiting, kind, waitUid, waitMsgId, responseSeen, responseCode)
    }

    constructor (r: Ring)
      requires r.Valid()
      ensures Valid() && ring == r && View() == Ctrl(Uid(0), false, NoWait, 0, 0, false, 0)
    {
      ring := r;
      nextUid, waiting, kind, waitUid, waitMsgId, responseSeen, responseCode := 1, false, NoWait, 0, 0, false, 0;
    }

    /** Deinitialising the channel and initialising it again: the control state starts anew, the
        receive ring stays as it is. */
    method Restart()
      requires Valid()
      modifies this
      ensures Valid() && View() == INIT.c && ring.Contents() == old(ring.Contents())
    {
      nextUid, waiting, kind, waitUid, waitMsgId, responseSeen, responseCode := 1, false, NoWait, 0, 0, false, 0;
    }

    method TakeUid() returns (uid: u32)
      requires Valid()
      modifies this`nextUid
      ensures Valid() && uid == old(nextUid) && uid != 0 && View() == old(View()).(nextUid := NextUid(uid))
    {
      uid := nextUid;
      nextUid := (nextUid + 1) % 0x1_0000_0000;
      if nextUid == 0 {
        nextUid := 1;
      }
    }

    method Receive(payload: seq<byte>)
      requires Valid()
      modifies this`responseSeen, this`responseCode
      ensures Valid() && View() == Received(old(View()), payload)
    {
      var m := ReadMessage(payload);
      if m.None? {
        return;
      }
      var msg := m.value.0;
      if !waiting || msg.msgType != TYPE_RESP || msg.msgId != waitMsgId || msg.uid != waitUid
         || msg.payload.None? || msg.payload.value.field != waitMsgId {
        return;
      }
      responseSeen := true;
      responseCode := ReadCode(kind, m.value.1);
    }

    /** Pops every queued packet and hands it to its callback. */
    method DispatchRx()
      requires Valid()
      modifies this`responseSeen, this`responseCode, ring
      ensures Valid() && ring.Contents() == [] && View() == Dispatched(old(View()), old(ring.Contents()))
    {
      ghost var goal := Dispatched(View(), ring.Contents());
      while ring.count > 0
        invariant Valid() && goal == Dispatched(View(), ring.Contents())
        decreases ring.count
      {
        var p := ring.Pop();
        if p.value.info.ifType == IF_SERIAL {
          Receive(p.value.payload);
        }
      }
    }

    method Poll(arrivals: seq<Packet>)
      requires Valid()
      modifies ring, ring.items
      ensures Valid() && ring.Contents() == Submitted(old(ring.Contents()), arrivals)
    {
      var i := 0;
      while i < |arrivals|
        invariant i <= |arrivals| && Valid()
        invariant Submitted(old(ring.Contents()), arrivals) == Submitted(ring.Contents(), arrivals[i..])
      {
        assert arrivals[i..][1..] == arrivals[i + 1..];
        ghost var before := ring.Contents();
        var ok := ring.Submit(arrivals[i]);
        assert !ok ==> ring.Contents() == before;
        i := i + 1;
      }
    }

    method ResetWait()
      requires Valid()
      modifies this`waiting, this`kind
      ensures Valid() && View() == Ended(old(View()))
    {
      waiting, kind := false, NoWait;
    }

    /** Sends a request and waits for its response: `up` is whether the channel could be initialised,
        `sent` whether the transport took the whole frame, `polls` what arrives in each turn until the
        timeout. A request that the envelope has no room for is not sent. */
    method Request(kind: Kind, respId: u32, uid: u32, up: bool, reqBuf: array<byte>, reqLen: nat, sent: bool,
                   polls: seq<seq<Packet>>)
      returns (rc: int)
      requires Valid() && reqLen <= reqBuf.Length
      modifies this, ring, ring.items
      ensures Valid()
      ensures !up || 12 + reqLen > 256 ==>
                rc == (if !up then -1000 else -1001) && View() == old(View())
                && ring.Contents() == old(ring.Contents())
      ensures up && 12 + reqLen <= 256 ==>
              var (c, q, code) := Waited(Begun(old(View()), kind, respId, uid), old(ring.Contents()), polls);
              if sent then
                && rc == (match code case Some(n) => n case None => -1003)
                && View() == Ended(c) && ring.Contents() == q
              else
                && rc == -1002 && ring.Contents() == old(ring.Contents())
                && View() == Ended(Begun(old(View()), kind, respId, uid))
    {
      if !up { return ERR_STATE; }
      var tlvBuf := new byte[TLV_BUF_SIZE];
      var ok, tlvLen := WrapTlv(reqBuf, reqLen, tlvBuf, TLV_BUF_SIZE);
      if !ok { return ERR_PROTO; }
      rc := Exchange(kind, respId, uid, sent, polls);
    }

    /** The exchange of a wrapped request. */
    method Exchange(kind: Kind, respId: u32, uid: u32, sent: bool, polls: seq<seq<Packet>>) returns (rc: int)
      requires Valid()
      modifies this, ring, ring.items
      ensures Valid()
      ensures var (c, q, code) := Waited(Begun(old(View()), kind, respId, uid), old(ring.Contents()), polls);
              if sent then
                && rc == (match code case Some(n) => n case None => ERR_TIMEOUT)
                && View() == Ended(c) && ring.Contents() == q
              else
                && rc == ERR_TX && ring.Contents() == old(ring.Contents())
                && View() == Ended(Begun(old(View()), kind, respId, uid))
    {
      waiting, this.kind, waitUid, waitMsgId := true, kind, uid, respId;
      responseSeen, responseCode := false, ERR_TIMEOUT;
      if !sent {
        ResetWait();
        return ERR_TX;
      }
      ghost var goal := Waited(View(), ring.Contents(), polls);
      var waited := 0;
      while waited < |polls|
        invariant waited <= |polls| && Valid() && !responseSeen
        invariant goal == Waited(View(), ring.Contents(), polls[waited..])
      {
        assert polls[waited..][1..] == polls[waited + 1..];
        Poll(polls[waited]);
        DispatchRx();
        if responseSeen {
          rc := responseCode;
          ResetWait();
          return;
        }
        waited := waited + 1;
      }
      ResetWait();
      return ERR_TIMEOUT;
    }
  }

  // ---------------------------------------------------------------------------------------------
  // Runs

  /** A request (`sent`: the transport took it), a uid used up by a request that was not encoded or
      not wrapped, packets that arrive, a dispatch while no request waits, a restart of the control
      channel, or one of the transport layer, which empties the ring. */
  datatype Step =
    | Req(kind: Kind, respId: u32, sent: bool, polls: seq<seq<Packet>>)
    | Unencoded
    | Arrive(arrivals: seq<Packet>)
    | Dispatch
    | Restart
    | Relink

  /** `issued`: how many uids were taken since the last restart. */
  datatype System = System(c: Ctrl, q: seq<Packet>, issued: nat)

  const INIT := System(Ctrl(1, false, NoWait, 0, 0, false, 0), [], 0)

  function Taken(s: System): System { s.(c := s.c.(nextUid := NextUid(s.c.nextUid)), issued := s.issued + 1) }

  function Next(s: System, step: Step): System {
    match step
    case Req(kind, respId, sent, polls) =>
      var t := Taken(s);
      var c := Begun(t.c, kind, respId, s.c.nextUid);
      if !sent then t.(c := Ended(c))
      else
        var (c', q', _) := Waited(c, t.q, polls);
        t.(c := Ended(c'), q := q')
    case Unencoded => Taken(s)
    case Arrive(arrivals) => s.(q := Submitted(s.q, arrivals))
    case Dispatch => s.(c := Dispatched(s.c, s.q), q := [])
    case Restart => INIT.(q := s.q)
    case Relink => s.(q := [])
  }

  /** The state after a run. */
  function After(steps: seq<Step>): System {
    if steps == [] then INIT else Next(After(steps[..|steps| - 1]), steps[|steps| - 1])
  }

  /** What the request that follows the run returns. */
  function Outcome(s: System, kind: Kind, respId: u32, polls: seq<seq<Packet>>): Option<int> {
    Waited(Begun(Taken(s).c, kind, respId, s.c.nextUid), s.q, polls).2
  }

  lemma {:induction false} DispatchedFrame(c: Ctrl, q: seq<Packet>)
    ensures var c' := Dispatched(c, q); c' == c.(seen := c'.seen, code := c'.code)
    ensures !c.waiting ==> Dispatched(c, q) == c
    decreases |q|
  {
    if q != [] { DispatchedFrame(if q[0].info.ifType == IF_SERIAL then Received(c, q[0].payload) else c, q[1..]); }
  }

  lemma {:induction false} WaitedFrame(c: Ctrl, q: seq<Packet>, polls: seq<seq<Packet>>)
    ensures var c' := Waited(c, q, polls).0; c' == c.(seen := c'.seen, code := c'.code)
    decreases |polls|
  {
    if polls != [] {
      DispatchedFrame(c, Submitted(q, polls[0]));
      WaitedFrame(Dispatched(c, Submitted(q, polls[0])), [], polls[1..]);
    }
  }

  /** In every run the next uid is the one of the number of requests made since the last restart, and
      nobody waits. */
  lemma {:induction false} RunInv(steps: seq<Step>)
    ensures var s := After(steps); s.c.nextUid == Uid(s.issued) && !s.c.waiting
    decreases |steps|
  {
    if steps != [] {
      var before, step := After(steps[..|steps| - 1]), steps[|steps| - 1];
      RunInv(steps[..|steps| - 1]);
      UidSequence(before.issued);
      match step
      case Req(kind, respId, sent, polls) =>
        WaitedFrame(Begun(Taken(before).c, kind, respId, before.c.nextUid), before.q, polls);
      case Dispatch => DispatchedFrame(before.c, before.q);
      case Unencoded | Arrive(_) | Restart | Relink =>
    }
  }

  /** This packet carries the awaited response, and the code is the one in its payload. */
  predicate Answers(c: Ctrl, p: Packet, code: int) {
    && p.info.ifType == IF_SERIAL && MessageIn(p.payload).Some?
    && Matches(c, MessageIn(p.payload).value.0) && code == CodeIn(c.kind, MessageIn(p.payload).value.1)
  }

  predicate Completes(c: Ctrl, p: Packet) {
    p.info.ifType == IF_SERIAL && MessageIn(p.payload).Some? && Matches(c, MessageIn(p.payload).value.0)
  }

  /** A dispatch completes the wait exactly when one of the queued packets is the awaited response. */
  lemma {:induction false} DispatchCompletesExactly(c: Ctrl, q: seq<Packet>)
    ensures Dispatched(c, q).seen <==> c.seen || exists i :: 0 <= i < |q| && Completes(c, q[i])
    decreases |q|
  {
    if q != [] {
      var c1 := if q[0].info.ifType == IF_SERIAL then Received(c, q[0].payload) else c;
      DispatchCompletesExactly(c1, q[1..]);
      assert c1.seen <==> c.seen || Completes(c, q[0]);
      forall i | 0 < i < |q|
        ensures Completes(c, q[i]) <==> Completes(c1, q[1..][i - 1])
      {
      }
    }
  }

  lemma {:induction false} DispatchedSeen(c: Ctrl, q: seq<Packet>) returns (p: Packet)
    requires Dispatched(c, q).seen
    ensures c.seen || (p in q && Answers(c, p, Dispatched(c, q).code))
    ensures c.seen ==> Dispatched(c, q).code == c.code || (p in q && Answers(c, p, Dispatched(c, q).code))
    decreases |q|
  {
    p := NO_PACKET;
    if q != [] {
      var c1 := if q[0].info.ifType == IF_SERIAL then Received(c, q[0].payload) else c;
      p := DispatchedSeen(c1, q[1..]);
      if !(p in q[1..] && Answers(c1, p, Dispatched(c, q).code)) && c1 != c {
        p := q[0];
      }
    }
  }

  lemma {:induction false} SubmittedFrom(q: seq<Packet>, arrivals: seq<Packet>, p: Packet)
    requires p in Submitted(q, arrivals)
    ensures p in q || p in arrivals
    decreases |arrivals|
  {
    if arrivals != [] {
      var a := arrivals[0];
      SubmittedFrom(if |a.payload| <= PAYLOAD_MAX && |q| < DEPTH then q + [a] else q, arrivals[1..], p);
    }
  }

  lemma {:induction false} WaitedAnswered(c: Ctrl, q: seq<Packet>, polls: seq<seq<Packet>>) returns (p: Packet)
    requires !c.seen && Waited(c, q, polls).2.Some?
    ensures Answers(c, p, Waited(c, q, polls).2.value)
    ensures p in q || exists i :: 0 <= i < |polls| && p in polls[i]
    decreases |polls|
  {
    var now := Submitted(q, polls[0]);
    var c' := Dispatched(c, now);
    if c'.seen {
      p := DispatchedSeen(c, now);
      SubmittedFrom(q, polls[0], p);
    } else {
      DispatchedFrame(c, now);
      p := WaitedAnswered(c', [], polls[1..]);
      var i :| 0 <= i < |polls[1..]| && p in polls[1..][i];
      assert polls[i + 1] == polls[1..][i];
    }
  }

  /** After any run, a request that completes was completed by a response that was queued or arrived
      while it waited and that carries its own uid and response id. Of the requests since the last
      restart no other, less than 2^32 - 1 requests away, has that uid. */
  lemma {:induction false} ResponseIsOwn(steps: seq<Step>, kind: Kind, respId: u32, polls: seq<seq<Packet>>)
    returns (p: Packet)
    requires Outcome(After(steps), kind, respId, polls).Some?
    ensures var s := After(steps);
            && (p in s.q || exists i :: 0 <= i < |polls| && p in polls[i])
            && p.info.ifType == 3 && MessageIn(p.payload).Some?
            && var (msg, payload) := MessageIn(p.payload).value;
               && msg.msgType == 2 && msg.msgId == respId && msg.uid == Uid(s.issued) != 0
               && Outcome(s, kind, respId, polls).value == CodeIn(kind, payload)
               && (forall m: nat :: msg.uid == Uid(m) && s.issued < m + MAX_UID && m < s.issued + MAX_UID ==>
                    m == s.issued)
  {
    var s := After(steps);
    RunInv(steps);
    p := WaitedAnswered(Begun(Taken(s).c, kind, respId, s.c.nextUid), s.q, polls);
    forall m: nat | m != s.issued && s.issued < m + MAX_UID && m < s.issued + MAX_UID
      ensures Uid(m) != Uid(s.issued)
    {
      UidsDiffer(if m < s.issued then m else s.issued, if m < s.issued then s.issued else m);
    }
  }
}
