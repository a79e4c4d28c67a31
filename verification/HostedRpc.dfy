/** RPC messages of the hosted control channel: parsing, the TLV envelope and the request builders. */
module HostedRpc {
  import opened Bytes
  import opened Protobuf
  import opened ProtobufIo

  const TYPE_REQ: u32 := 1
  const TYPE_RESP: u32 := 2

  const REQ_WIFI_INIT: u32 := 278
  const REQ_SET_CONFIG: u32 := 284
  const REQ_FW_VERSION: u32 := 350
  const REQ_FEATURE: u32 := 387

  // ---------------------------------------------------------------------------------------------
  // Parsing

  datatype Payload = Payload(field: u32, start: nat, len: nat)
  datatype Rpc = Rpc(msgType: u32, msgId: u32, uid: u32, payload: Option<Payload>)

  /** Value of the last varint field with this number. */
  function LastVarint(fs: seq<Field>, num: u32): Option<u64> {
    if fs == [] then None
    else
      var f := fs[|fs| - 1];
      if f.VarintField? && f.num == num then Some(f.value) else LastVarint(fs[..|fs| - 1], num)
  }

  function Low32(value: Option<u64>): u32 { if value.Some? then value.value % TWO32 else 0 }

  /** The first length-delimited field. */
  function FirstLen(fs: seq<Field>): Option<Payload> {
    if fs == [] then None
    else
      var first, f := FirstLen(fs[..|fs| - 1]), fs[|fs| - 1];
      if first.None? && f.LenField? then Some(Payload(f.num, f.start, f.len)) else first
  }

  function RpcOf(fs: seq<Field>): Rpc {
    Rpc(Low32(LastVarint(fs, 1)), Low32(LastVarint(fs, 2)), Low32(LastVarint(fs, 3)), FirstLen(fs))
  }

  /** What a byte string means as an RPC message. */
  function RpcIn(b: seq<byte>): Option<Rpc> {
    match ReadFields(b, 0)
    case Some(fs) => Some(RpcOf(fs))
    case None => None
  }

  /** Parsing succeeds exactly on byte strings that split entirely into fields, and gives the last
      varints of fields 1 to 3 and the number and span of the first length-delimited field. */
  lemma RpcInExact(b: seq<byte>, rpc: Rpc)
    ensures RpcIn(b) == Some(rpc) <==> exists fs :: SplitsInto(b, 0, fs) && rpc == RpcOf(fs)
  {
    if RpcIn(b).Some? {
      ReadFieldsExact(b, 0, ReadFields(b, 0).value);
    }
    forall fs | SplitsInto(b, 0, fs)
      ensures ReadFields(b, 0) == Some(fs)
    {
      ReadFieldsExact(b, 0, fs);
    }
  }

  /** A message with one more field taken in. */
  function Absorb(msg: Rpc, f: Field): Rpc {
    match f
    case VarintField(num, value) =>
      if num == 1 then msg.(msgType := value % TWO32)
      else if num == 2 then msg.(msgId := value % TWO32)
      else if num == 3 then msg.(uid := value % TWO32)
      else msg
    case LenField(num, start, len) => if msg.payload.None? then msg.(payload := Some(Payload(num, start, len))) else msg
    case _ => msg
  }

  lemma RpcOfAppend(fs: seq<Field>, f: Field)
    ensures RpcOf(fs + [f]) == Absorb(RpcOf(fs), f)
  {
    assert (fs + [f])[..|fs|] == fs;
  }

  /** The fields read so far, `fs`, and those from `off` on are all the fields. */
  ghost predicate ReadUpTo(b: seq<byte>, fs: seq<Field>, off: nat) {
    off <= |b| && ReadFields(b, 0) == Join(fs, ReadFields(b, off))
  }

  lemma ReadOneMore(b: seq<byte>, fs: seq<Field>, off: nat)
    requires ReadUpTo(b, fs, off) && off < |b|
    ensures ReadField(b, off).None? ==> ReadFields(b, 0).None?
    ensures ReadField(b, off).Some? ==>
              ReadUpTo(b, fs + [ReadField(b, off).value.0], ReadField(b, off).value.1)
  {
    if ReadField(b, off).Some? {
      var (f, end) := ReadField(b, off).value;
      JoinJoin(fs, [f], ReadFields(b, end));
    }
  }

  lemma ReadNone(b: seq<byte>)
    ensures ReadUpTo(b, [], 0)
  {
    if ReadFields(b, 0).Some? { assert [] + ReadFields(b, 0).value == ReadFields(b, 0).value; }
  }

  lemma ReadAll(b: seq<byte>, fs: seq<Field>)
    requires ReadUpTo(b, fs, |b|)
    ensures ReadFields(b, 0) == Some(fs)
  {
    assert fs + [] == fs;
  }

  /** One turn of the parse loop: the key at `off` and the body after it. */
  method ParseRpcField(buf: array<byte>, len: nat, off: nat, msg: Rpc) returns (ok: bool, end: nat, msg': Rpc)
    requires off < len <= buf.Length
    ensures ok <==> ReadField(buf[..len], off).Some?
    ensures ok ==> ReadField(buf[..len], off).value.1 == end && msg' == Absorb(msg, ReadField(buf[..len], off).value.0)
  {
    var k, key, value: u64;
    msg' := msg;
    ok, k, key := PbReadVarint(buf, len, off);
    if !ok { return false, off, msg; }
    var num, wire := KeyNumber(key), key % 8;
    if (num == 1 || num == 2 || num == 3) && wire == 0 {
      ok, end, value := PbReadVarint(buf, len, k);
      if !ok { return false, off, msg; }
      if num == 1 {
        msg' := msg.(msgType := value % TWO32);
      } else if num == 2 {
        msg' := msg.(msgId := value % TWO32);
      } else {
        msg' := msg.(uid := value % TWO32);
      }
    } else if wire == 2 {
      ok, end, value := PbReadVarint(buf, len, k);
      if !ok || value > len - end { return false, off, msg; }
      if msg.payload.None? {
        msg' := msg.(payload := Some(Payload(num, end, value)));
      }
      end := end + value;
    } else {
      ok, end := PbSkipField(buf, len, k, wire);
    }
  }

  /** The parser computes what the byte string means; its offset grows with every field. */
  method ParseRpc(buf: array<byte>, len: nat) returns (r: Option<Rpc>)
    requires len <= buf.Length
    ensures r == RpcIn(buf[..len])
  {
    var msg, off := Rpc(0, 0, 0, None), 0;
    ghost var b, fs := buf[..len], [];
    ReadNone(b);
    while off < len
      invariant off <= len && ReadUpTo(b, fs, off) && msg == RpcOf(fs)
      decreases len - off
    {
      ReadOneMore(b, fs, off);
      var ok, end, next := ParseRpcField(buf, len, off, msg);
      if !ok { return None; }
      ghost var f := ReadField(b, off).value.0;
      RpcOfAppend(fs, f);
      fs := fs + [f];
      off, msg := end, next;
    }
    ReadAll(b, fs);
    return Some(msg);
  }

  // ---------------------------------------------------------------------------------------------
  // Response payloads

  function ResponseCode(fs: seq<Field>, num: u32): int {
    match LastVarint(fs, num) case Some(v) => ToI32(v) case None => 0
  }

  /** What a response says: its code, 0 when it carries none, and whether it carries one. */
  datatype Response = Response(code: int, present: bool)

  /** The response of a payload whose code is field `num`; None when the payload is malformed. */
  function ResponseIn(b: seq<byte>, num: u32): Option<Response> {
    match ReadFields(b, 0)
    case Some(fs) => Some(Response(ResponseCode(fs, num), LastVarint(fs, num).Some?))
    case None => None
  }

  /** The response after one more field. */
  function WithField(resp: Response, f: Field, num: u32): Response {
    if f.VarintField? && f.num == num then Response(ToI32(f.value), true) else resp
  }

  /** One turn of the loop over the fields of a response. */
  method ParseResponseField(buf: array<byte>, len: nat, off: nat, num: u32, resp: Response)
    returns (ok: bool, end: nat, next: Response)
    requires off < len <= buf.Length
    ensures var field := ReadField(buf[..len], off);
            && (ok <==> field.Some?)
            && (ok ==> end == field.value.1 && next == WithField(resp, field.value.0, num))
  {
    var k, key, value: u64;
    next := resp;
    ok, k, key := PbReadVarint(buf, len, off);
    if !ok { return false, off, resp; }
    if KeyNumber(key) == num && key % 8 == 0 {
      ok, end, value := PbReadVarint(buf, len, k);
      if ok { next := Response(ToI32(value), true); }
    } else {
      ok, end := PbSkipField(buf, len, k, key % 8);
    }
  }

  /** The loop that all response parsers share, for the number of the field they take the code from. */
  method ParseResponse(buf: array<byte>, len: nat, num: u32) returns (r: Option<Response>)
    requires len <= buf.Length
    ensures r == ResponseIn(buf[..len], num)
  {
    var resp, off := Response(0, false), 0;
    ghost var b, fs := buf[..len], [];
    ReadNone(b);
    while off < len
      invariant off <= len && ReadUpTo(b, fs, off) && resp == Response(ResponseCode(fs, num), LastVarint(fs, num).Some?)
      decreases len - off
    {
      ReadOneMore(b, fs, off);
      var ok, end, next := ParseResponseField(buf, len, off, num, resp);
      if !ok { return None; }
      ghost var f := ReadField(b, off).value.0;
      assert (fs + [f])[..|fs|] == fs;
      fs := fs + [f];
      off, resp := end, next;
    }
    ReadAll(b, fs);
    return Some(resp);
  }

  // ---------------------------------------------------------------------------------------------
  // The TLV envelope

  const EP_RSP: seq<byte> := [0x52, 0x50, 0x43, 0x52, 0x73, 0x70]   // "RPCRsp"
  const EP_EVT: seq<byte> := [0x52, 0x50, 0x43, 0x45, 0x76, 0x74]   // "RPCEvt"

  function Tlv(ep: seq<byte>, data: seq<byte>): seq<byte> {
    [1] + Le16(|ep|) + ep + [2] + Le16(|data|) + data
  }

  /** Span of the data in an envelope that names one of the two endpoints. */
  function Unwrapped(b: seq<byte>): (r: Option<(nat, nat)>)
    ensures r.Some? ==> r.value.0 + r.value.1 <= |b|
  {
    if |b| < 6 || b[0] != 1 then None
    else
      var ep := Word16(b[1], b[2]);
      if |b| - 3 < ep || (b[3..3 + ep] != EP_RSP && b[3..3 + ep] != EP_EVT) then None
      else if |b| - 3 - ep < 3 || b[3 + ep] != 2 then None
      else
        var len := Word16(b[4 + ep], b[5 + ep]);
        if |b| - 6 - ep < len then None else Some((6 + ep, len))
  }

  /** What is unwrapped stands in an envelope of one of the endpoints. */
  lemma EnvelopeOf(b: seq<byte>, data: seq<byte>) returns (ep: seq<byte>, rest: seq<byte>)
    requires |data| <= 0xFFFF && Unwrapped(b).Some? && b[Unwrapped(b).value.0..][..Unwrapped(b).value.1] == data
    ensures (ep == EP_RSP || ep == EP_EVT) && b == Tlv(ep, data) + rest
  {
    ep, rest := b[3..9], b[12 + |data|..];
    assert b[12..12 + |data|] == data;
    EnvelopeHead(b, |data|);
    EnvelopeParts(b, ep, data, rest);
  }

  lemma EnvelopeHead(b: seq<byte>, len: nat)
    requires Unwrapped(b).Some? && Unwrapped(b).value.1 == len
    ensures Unwrapped(b).value.0 == 12 && 12 + len <= |b| && (b[3..9] == EP_RSP || b[3..9] == EP_EVT)
    ensures b[..3] == [1] + Le16(6) && b[9..12] == [2] + Le16(len)
  {
  }

  lemma EnvelopeParts(b: seq<byte>, ep: seq<byte>, data: seq<byte>, rest: seq<byte>)
    requires 12 + |data| <= |b| && ep == b[3..9] && data == b[12..12 + |data|] && rest == b[12 + |data|..]
    requires b[..3] == [1] + Le16(6) && b[9..12] == [2] + Le16(|data|)
    ensures b == Tlv(ep, data) + rest
  {
    assert b == b[..3] + ep + b[9..12] + data + rest;
  }

  /** Unwrapping succeeds exactly on an envelope followed by anything, and spans its data. */
  lemma UnwrappedExact(b: seq<byte>, data: seq<byte>)
    requires |data| <= 0xFFFF
    ensures (exists ep, rest :: (ep == EP_RSP || ep == EP_EVT) && b == Tlv(ep, data) + rest)
            <==> Unwrapped(b).Some? && b[Unwrapped(b).value.0..][..Unwrapped(b).value.1] == data
  {
    if Unwrapped(b).Some? && b[Unwrapped(b).value.0..][..Unwrapped(b).value.1] == data {
      var ep, rest := EnvelopeOf(b, data);
    }
    forall ep, rest | (ep == EP_RSP || ep == EP_EVT) && b == Tlv(ep, data) + rest
      ensures Unwrapped(b) == Some((12, |data|)) && b[12..][..|data|] == data
    {
      TlvUnwraps(ep, data, rest);
    }
  }

  lemma TlvUnwraps(ep: seq<byte>, data: seq<byte>, rest: seq<byte>)
    requires (ep == EP_RSP || ep == EP_EVT) && |data| <= 0xFFFF
    ensures var b := Tlv(ep, data) + rest; Unwrapped(b) == Some((12, |data|)) && b[12..][..|data|] == data
  {
    var b := Tlv(ep, data) + rest;
    var front, back := [1] + Le16(6), [2] + Le16(|data|);
    assert |front| == 3 && |ep| == 6 && |back| == 3;
    assert b == front + ep + (back + data + rest);
    Middle(front, ep, back + data + rest);
    assert b == (front + ep + back) + data + rest;
    Middle(front + ep + back, data, rest);
    assert b[0] == 1 && b[1] == 6 && b[2] == 0 && b[9] == 2;
    assert b[10] == |data| % 0x100 && b[11] == |data| / 0x100;
    assert b[12..][..|data|] == b[12..12 + |data|];
  }

  method WrapTlv(payload: array<byte>, len: nat, buf: array<byte>, cap: nat) returns (ok: bool, n: nat)
    requires len <= payload.Length && cap <= buf.Length && buf != payload
    modifies buf
    ensures ok <==> len <= 0xFFFF && 12 + len <= cap
    ensures ok ==> n <= cap && buf[..n] == Tlv(EP_RSP, payload[..len])
  {
    if len > 0xFFFF || cap < 12 + len { return false, 0; }
    buf[0], buf[1], buf[2] := 1, 6, 0;
    forall i | 0 <= i < 6 { buf[3 + i] := EP_RSP[i]; }
    assert buf[..9] == [1] + Le16(6) + EP_RSP;
    buf[9], buf[10], buf[11] := 2, len % 0x100, len / 0x100;
    ghost var head := buf[..12];
    assert head == [1] + Le16(6) + EP_RSP + [2] + Le16(len);
    forall i | 0 <= i < len { buf[12 + i] := payload[i]; }
    assert buf[..12] == head;
    assert buf[..12 + len] == buf[..12] + payload[..len];
    return true, 12 + len;
  }

  method UnwrapTlv(buf: array<byte>, len: nat) returns (ok: bool, start: nat, n: nat)
    requires len <= buf.Length
    ensures Unwrapped(buf[..len]) == if ok then Some((start, n)) else None
  {
    ghost var b := buf[..len];
    if len < 6 || buf[0] != 1 { return false, 0, 0; }
    var ep := Word16(buf[1], buf[2]);
    if len - 3 < ep { return false, 0, 0; }
    assert b[3..3 + ep] == buf[3..3 + ep];
    if buf[3..3 + ep] != EP_RSP && buf[3..3 + ep] != EP_EVT { return false, 0, 0; }
    if len - 3 - ep < 3 || buf[3 + ep] != 2 { return false, 0, 0; }
    n := Word16(buf[4 + ep], buf[5 + ep]);
    if len - 6 - ep < n { return false, 0, 0; }
    return true, 6 + ep, n;
  }
}
