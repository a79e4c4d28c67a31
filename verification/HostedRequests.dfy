/** The request builders of the control channel and their round trip through parser and envelope. */
module HostedRequests {
  import opened Bytes
  import opened Protobuf
  import opened ProtobufIo
  import opened HostedRpc

  // ---------------------------------------------------------------------------------------------
  // Messages as lists of fields

  datatype Item = V(num: u32, value: u64) | B(num: u32, bytes: seq<byte>)
  datatype Items = Nil | Cons(head: Item, tail: Items)

  function ItemBytes(item: Item): seq<byte> {
    match item
    case V(num, value) => VarintFieldBytes(num, value)
    case B(num, bytes) => LenFieldBytes(num, bytes)
  }

  function Encode(items: Items): seq<byte> {
    match items case Nil => [] case Cons(item, rest) => ItemBytes(item) + Encode(rest)
  }

  predicate Small(items: Items) {
    match items
    case Nil => true
    case Cons(item, rest) => (item.B? ==> |item.bytes| < TWO64) && Small(rest)
  }

  /** The field an item at `off` is read as: same number, and its value or the span of its bytes. */
  function FieldOf(off: nat, item: Item): Field {
    match item
    case V(num, value) => VarintField(num, value)
    case B(num, bytes) => LenField(num, off + |ItemBytes(item)| - |bytes|, |bytes|)
  }

  function FieldsOf(off: nat, items: Items): seq<Field>
    decreases items
  {
    match items
    case Nil => []
    case Cons(item, rest) => [FieldOf(off, item)] + FieldsOf(off + |ItemBytes(item)|, rest)
  }

  /** `b[off..]` is the encoding of the items. */
  predicate IsEncoding(b: seq<byte>, off: nat, items: Items) {
    Small(items) && StandsAt(b, off, Encode(items)) && off + |Encode(items)| == |b|
  }

  /** Reading an encoded message gives its fields back, in order. */
  lemma {:induction false} EncodeReads(b: seq<byte>, off: nat, items: Items)
    requires IsEncoding(b, off, items)
    ensures ReadFields(b, off) == Some(FieldsOf(off, items))
    decreases items
  {
    if items.Cons? {
      var f, end, rest := ReadFirst(b, off, items);
      EncodeReads(b, end, items.tail);
      ReadFieldsCons(b, off, f, end, rest);
    }
  }

  /** A message on its own. */
  lemma MessageRoundTrip(items: Items)
    requires Small(items)
    ensures ReadFields(Encode(items), 0) == Some(FieldsOf(0, items))
  {
    EncodeReads(Encode(items), 0, items);
  }

  /** The first item is read, and what is left is the encoding of the others. */
  lemma ReadFirst(b: seq<byte>, off: nat, items: Items) returns (f: Field, end: nat, rest: seq<Field>)
    requires items.Cons? && IsEncoding(b, off, items)
    ensures off < |b| && ReadField(b, off) == Some((f, end)) && IsEncoding(b, end, items.tail)
    ensures rest == FieldsOf(end, items.tail) && FieldsOf(off, items) == [f] + rest
  {
    EncodingSplits(b, off, items);
    f, end := ReadItem(b, off, items.head);
    rest := FieldsCons(off, items, f, end);
  }

  lemma FieldsCons(off: nat, items: Items, f: Field, end: nat) returns (rest: seq<Field>)
    requires items.Cons? && f == FieldOf(off, items.head) && end == off + |ItemBytes(items.head)|
    ensures rest == FieldsOf(end, items.tail) && FieldsOf(off, items) == [f] + rest
  {
    rest := FieldsOf(end, items.tail);
  }

  lemma ReadFieldsCons(b: seq<byte>, off: nat, f: Field, end: nat, rest: seq<Field>)
    requires ReadField(b, off) == Some((f, end)) && off < |b| && ReadFields(b, end) == Some(rest)
    ensures ReadFields(b, off) == Some([f] + rest)
  {
  }

  lemma EncodingSplits(b: seq<byte>, off: nat, items: Items)
    requires items.Cons? && IsEncoding(b, off, items)
    ensures StandsAt(b, off, ItemBytes(items.head)) && (items.head.B? ==> |items.head.bytes| < TWO64)
    ensures IsEncoding(b, off + |ItemBytes(items.head)|, items.tail)
  {
    StandsAtParts(b, off, ItemBytes(items.head), Encode(items.tail));
  }

  lemma ReadItem(b: seq<byte>, off: nat, item: Item) returns (f: Field, end: nat)
    requires StandsAt(b, off, ItemBytes(item)) && (item.B? ==> |item.bytes| < TWO64)
    ensures f == FieldOf(off, item) && end == off + |ItemBytes(item)| && off < |b|
            && ReadField(b, off) == Some((f, end))
  {
    f, end := FieldOf(off, item), off + |ItemBytes(item)|;
    match item
    case V(num, value) => ReadVarintFieldBytes(b, off, num, value);
    case B(num, bytes) => ReadLenFieldBytes(b, off, num, bytes);
  }

  // ---------------------------------------------------------------------------------------------
  // Requests

  /** Every message: type, message id and uid and, but for the version request, one payload field
      whose number is the message id. */
  function MessageItems(ty: u32, id: u32, uid: u32, payload: Option<seq<byte>>): Items {
    Cons(V(1, ty), Cons(V(2, id), Cons(V(3, uid), PayloadItems(id, payload))))
  }

  function PayloadItems(id: u32, payload: Option<seq<byte>>): Items {
    if payload.Some? then Cons(B(id, payload.value), Nil) else Nil
  }

  function Message(ty: u32, id: u32, uid: u32, payload: Option<seq<byte>>): seq<byte> {
    Encode(MessageItems(ty, id, uid, payload))
  }

  function Request(id: u32, uid: u32, payload: Option<seq<byte>>): seq<byte> { Message(TYPE_REQ, id, uid, payload) }

  /** What a message stands for; its payload bytes are its last ones. */
  function MessageRpc(ty: u32, id: u32, uid: u32, payload: Option<seq<byte>>): Rpc {
    var b := Message(ty, id, uid, payload);
    Rpc(ty, id, uid, if payload.Some? && |payload.value| <= |b|
                     then Some(Payload(id, |b| - |payload.value|, |payload.value|)) else None)
  }

  function RequestRpc(id: u32, uid: u32, payload: Option<seq<byte>>): Rpc { MessageRpc(TYPE_REQ, id, uid, payload) }

  /** Parsing a message recovers type, id, uid, payload field and payload bytes. */
  lemma MessageParses(ty: u32, id: u32, uid: u32, payload: Option<seq<byte>>)
    requires payload.Some? ==> |payload.value| < TWO64
    ensures var b := Message(ty, id, uid, payload);
            && RpcIn(b) == Some(MessageRpc(ty, id, uid, payload))
            && (payload.Some? ==> |payload.value| <= |b| && StandsAt(b, |b| - |payload.value|, payload.value))
  {
    var b, items := Message(ty, id, uid, payload), MessageItems(ty, id, uid, payload);
    assert StandsAt(b, 0, b);
    assert Small(PayloadItems(id, payload)) && Small(Cons(V(3, uid), PayloadItems(id, payload)));
    EncodeReads(b, 0, items);
    MessageFields(ty, id, uid, payload);
  }

  /** The fields of the head, and where the payload field starts. */
  lemma HeadFields(ty: u32, id: u32, uid: u32, payload: Option<seq<byte>>) returns (head: seq<Field>, n: nat)
    ensures head == [VarintField(1, ty), VarintField(2, id), VarintField(3, uid)]
    ensures n == |VarintFieldBytes(1, ty)| + |VarintFieldBytes(2, id)| + |VarintFieldBytes(3, uid)|
    ensures FieldsOf(0, MessageItems(ty, id, uid, payload)) == head + FieldsOf(n, PayloadItems(id, payload))
  {
    var v1, v2, v3, p := V(1, ty), V(2, id), V(3, uid), PayloadItems(id, payload);
    var n1 := |ItemBytes(v1)|;
    var n2 := n1 + |ItemBytes(v2)|;
    n := n2 + |ItemBytes(v3)|;
    head := [VarintField(1, ty), VarintField(2, id), VarintField(3, uid)];
    assert FieldsOf(n2, Cons(v3, p)) == [FieldOf(n2, v3)] + FieldsOf(n, p);
    assert FieldsOf(n1, Cons(v2, Cons(v3, p))) == [FieldOf(n1, v2)] + FieldsOf(n2, Cons(v3, p));
  }

  /** The payload stands behind the head. */
  lemma PayloadField(ty: u32, id: u32, uid: u32, payload: seq<byte>, n: nat) returns (f: Field)
    requires n == |VarintFieldBytes(1, ty)| + |VarintFieldBytes(2, id)| + |VarintFieldBytes(3, uid)|
    ensures var b := Message(ty, id, uid, Some(payload));
            && |payload| <= |b| && b[|b| - |payload|..] == payload
            && f == LenField(id, |b| - |payload|, |payload|) && FieldsOf(n, PayloadItems(id, Some(payload))) == [f]
  {
    f := FieldOf(n, B(id, payload));
    HeadBytes(ty, id, uid, Some(payload));
    assert LenFieldBytes(id, payload)[|LenFieldBytes(id, payload)| - |payload|..] == payload;
    assert FieldsOf(n + |LenFieldBytes(id, payload)|, Nil) == [];
  }

  lemma MessageFields(ty: u32, id: u32, uid: u32, payload: Option<seq<byte>>)
    ensures RpcOf(FieldsOf(0, MessageItems(ty, id, uid, payload))) == MessageRpc(ty, id, uid, payload)
    ensures payload.Some? ==> var b := Message(ty, id, uid, payload);
                              |payload.value| <= |b| && b[|b| - |payload.value|..] == payload.value
  {
    var head, n := HeadFields(ty, id, uid, payload);
    RpcOfHead(ty, id, uid);
    if payload.Some? {
      var f := PayloadField(ty, id, uid, payload.value, n);
      RpcOfAppend(head, f);
    } else {
      assert head + FieldsOf(n, Nil) == head;
    }
  }

  lemma RpcOfHead(ty: u32, id: u32, uid: u32)
    ensures RpcOf([VarintField(1, ty), VarintField(2, id), VarintField(3, uid)]) == Rpc(ty, id, uid, None)
  {
    var f1: Field, f2: Field, f3: Field := VarintField(1, ty), VarintField(2, id), VarintField(3, uid);
    RpcOfAppend([], f1);
    RpcOfAppend([f1], f2);
    RpcOfAppend([f1, f2], f3);
    assert [] + [f1] == [f1] && [f1] + [f2] == [f1, f2] && [f1, f2] + [f3] == [f1, f2, f3];
  }

  /** The whole way: wrapped by either endpoint, unwrapped and parsed again. */
  lemma MessageComesBack(ep: seq<byte>, ty: u32, id: u32, uid: u32, payload: Option<seq<byte>>, rest: seq<byte>)
    requires ep == EP_RSP || ep == EP_EVT
    requires |Message(ty, id, uid, payload)| <= 0xFFFF && (payload.Some? ==> |payload.value| < TWO64)
    ensures var b := Tlv(ep, Message(ty, id, uid, payload)) + rest;
            && Unwrapped(b).Some?
            && var data := b[Unwrapped(b).value.0..][..Unwrapped(b).value.1];
               && data == Message(ty, id, uid, payload) && RpcIn(data) == Some(MessageRpc(ty, id, uid, payload))
               && (payload.Some? ==> |payload.value| <= |data| && data[|data| - |payload.value|..] == payload.value)
  {
    TlvUnwraps(ep, Message(ty, id, uid, payload), rest);
    MessageParses(ty, id, uid, payload);
  }

  lemma RequestRoundTrip(id: u32, uid: u32, payload: Option<seq<byte>>, rest: seq<byte>)
    requires |Request(id, uid, payload)| <= 0xFFFF && (payload.Some? ==> |payload.value| < TWO64)
    ensures var b := Tlv(EP_RSP, Request(id, uid, payload)) + rest;
            && Unwrapped(b).Some?
            && var data := b[Unwrapped(b).value.0..][..Unwrapped(b).value.1];
               && RpcIn(data) == Some(RequestRpc(id, uid, payload))
               && (payload.Some? ==> |payload.value| <= |data| && data[|data| - |payload.value|..] == payload.value)
  {
    MessageComesBack(EP_RSP, TYPE_REQ, id, uid, payload, rest);
  }

  // ---------------------------------------------------------------------------------------------
  // Sizes: seven bits a byte

  lemma VarintSizes(v: u64)
    ensures v < 0x80 ==> |Varint(v)| == 1
    ensures v < 0x4000 ==> |Varint(v)| <= 2
    ensures v < TWO32 ==> |Varint(v)| <= 5
  {
    Pow128Values();
    VarintShape(v, 1);
    VarintShape(v, 2);
    VarintShape(v, 5);
  }

  predicate AllVarints(items: Items) {
    match items case Nil => true case Cons(item, rest) => item.V? && AllVarints(rest)
  }
  function Length(items: Items): nat { match items case Nil => 0 case Cons(_, rest) => 1 + Length(rest) }

  /** Field numbers below 2048 and 32-bit values: at most seven bytes each. */
  predicate Moderate(items: Items) {
    match items
    case Nil => true
    case Cons(item, rest) => item.V? && item.num < 2048 && item.value < TWO32 && Moderate(rest)
  }

  lemma {:induction false} ModerateSize(items: Items)
    requires Moderate(items)
    ensures |Encode(items)| <= 7 * Length(items) && AllVarints(items)
  {
    match items
    case Nil =>
    case Cons(item, rest) =>
      ModerateSize(rest);
      VarintSizes(item.num * 8);
      VarintSizes(item.value);
  }

  /** Field numbers below 16 and values below 128: two bytes. */
  lemma TinyFieldSize(num: u32, value: u64)
    requires num < 16 && value < 0x80
    ensures |VarintFieldBytes(num, value)| == 2
  {
    VarintSizes(num * 8);
    VarintSizes(value);
  }

  lemma ShortLenFieldSize(num: u32, payload: seq<byte>)
    requires num < 15 && |payload| < 0x80
    ensures |LenFieldBytes(num, payload)| == 2 + |payload|
  {
    VarintSizes(num * 8 + 2);
    VarintSizes(|payload|);
  }

  // ---------------------------------------------------------------------------------------------
  // The builders

  lemma HeadBytes(ty: u32, id: u32, uid: u32, payload: Option<seq<byte>>)
    ensures Message(ty, id, uid, payload)
         == VarintFieldBytes(1, ty) + VarintFieldBytes(2, id) + VarintFieldBytes(3, uid)
            + if payload.Some? then LenFieldBytes(id, payload.value) else []
  {
    var a, b, c, p := VarintFieldBytes(1, ty), VarintFieldBytes(2, id), VarintFieldBytes(3, uid),
                      PayloadItems(id, payload);
    var d := if payload.Some? then LenFieldBytes(id, payload.value) else [];
    assert Encode(p) == d by {
      if payload.Some? { assert Encode(Nil) == []; }
    }
    assert Encode(Cons(V(3, uid), p)) == c + d;
    assert Encode(Cons(V(2, id), Cons(V(3, uid), p))) == b + (c + d);
    Assoc(a, b, c + d);
    Assoc(a + b, c, d);
  }

  lemma PayloadBehindHead(id: u32, uid: u32, payload: seq<byte>)
    ensures Request(id, uid, Some(payload)) == Request(id, uid, None) + LenFieldBytes(id, payload)
  {
    HeadBytes(TYPE_REQ, id, uid, None);
    HeadBytes(TYPE_REQ, id, uid, Some(payload));
  }

  /** A request with a message id below 2048 needs at most 11 bytes, and 3 more than its payload. */
  lemma RequestSize(id: u32, uid: u32, payload: Option<seq<byte>>)
    requires 16 <= id < 2048 && (payload.Some? ==> |payload.value| < 0x80)
    ensures |Request(id, uid, payload)| <= 11 + if payload.Some? then 3 + |payload.value| else 0
  {
    HeadBytes(TYPE_REQ, id, uid, payload);
    TinyFieldSize(1, TYPE_REQ);
    VarintSizes(16);
    VarintSizes(24);
    VarintSizes(id);
    VarintSizes(uid);
    if payload.Some? {
      VarintSizes(id * 8 + 2);
      VarintSizes(|payload.value|);
    }
  }

  /** Type, message id and uid; the whole of a version request. */
  method EncodeHead(buf: array<byte>, cap: nat, id: u32, uid: u32) returns (ok: bool, n: nat)
    requires cap <= buf.Length
    modifies buf
    ensures ok <==> |Request(id, uid, None)| <= cap
    ensures n <= cap && (ok ==> buf[..n] == Request(id, uid, None))
  {
    HeadBytes(TYPE_REQ, id, uid, None);
    ghost var a, b, c := VarintFieldBytes(1, TYPE_REQ), VarintFieldBytes(2, id), VarintFieldBytes(3, uid);
    ok, n := PbWriteVarintField(buf, cap, 0, 1, TYPE_REQ);
    if !ok { return; }
    assert buf[..n] == a;
    ok, n := PbWriteVarintField(buf, cap, n, 2, id);
    if !ok { return; }
    assert buf[..n] == a + b;
    ok, n := PbWriteVarintField(buf, cap, n, 3, uid);
  }

  /** The message head and payload field, which every builder writes alike. */
  method EncodeRequest(buf: array<byte>, cap: nat, id: u32, uid: u32, payload: array<byte>, len: nat)
    returns (ok: bool, n: nat)
    requires cap <= buf.Length && len <= payload.Length && buf != payload && len < TWO64
    modifies buf
    ensures ok <==> |Request(id, uid, Some(payload[..len]))| <= cap
    ensures ok ==> n <= cap && buf[..n] == Request(id, uid, Some(payload[..len]))
  {
    PayloadBehindHead(id, uid, payload[..len]);
    ok, n := EncodeHead(buf, cap, id, uid);
    if ok {
      ok, n := PbWriteBytesField(buf, cap, n, id, payload, len);
    }
  }

  /** Writes a list of varint fields. */
  method WriteVarintFields(buf: array<byte>, items: Items) returns (ok: bool, n: nat)
    requires AllVarints(items)
    modifies buf
    ensures ok <==> |Encode(items)| <= buf.Length
    ensures ok ==> n <= buf.Length && buf[..n] == Encode(items)
  {
    var rest := items;
    ok, n := true, 0;
    while rest.Cons?
      invariant n <= buf.Length && AllVarints(rest) && ok
      invariant Encode(items) == buf[..n] + Encode(rest)
      decreases rest
    {
      Assoc(buf[..n], ItemBytes(rest.head), Encode(rest.tail));
      ok, n := PbWriteVarintField(buf, buf.Length, n, rest.head.num, rest.head.value);
      if !ok { return; }
      rest := rest.tail;
    }
  }

  /** Feature control: feature and command, and the option unless it is none. */
  function FeatureItems(feature: u32, command: u32, option: u32): Items {
    Cons(V(1, feature), Cons(V(2, command), OptionItems(option)))
  }

  function OptionItems(option: u32): Items { if option != 0 then Cons(V(3, option), Nil) else Nil }

  lemma FeatureSize(feature: u32, command: u32, option: u32)
    requires feature < 0x80 && command < 0x80 && option < 0x80
    ensures AllVarints(FeatureItems(feature, command, option)) && |Encode(FeatureItems(feature, command, option))| <= 6
  {
    TinyFieldSize(1, feature);
    TinyFieldSize(2, command);
    TinyFieldSize(3, option);
    assert |Encode(Nil)| == 0 && |Encode(Cons(V(3, option), Nil))| == 2;
    assert |Encode(OptionItems(option))| <= 2 && AllVarints(OptionItems(option));
    assert |Encode(Cons(V(2, command), OptionItems(option)))| <= 4;
  }

  method EncodeFeatureRequest(uid: u32, feature: u32, command: u32, option: u32, buf: array<byte>)
    returns (ok: bool, n: nat)
    requires feature < 0x80 && command < 0x80 && option < 0x80 && buf.Length == 32
    modifies buf
    ensures ok && n <= 32 && buf[..n] == Request(387, uid, Some(Encode(FeatureItems(feature, command, option))))
  {
    FeatureSize(feature, command, option);
    var featureBuf := new byte[16];
    var len;
    ok, len := WriteVarintFields(featureBuf, FeatureItems(feature, command, option));
    RequestSize(REQ_FEATURE, uid, Some(featureBuf[..len]));
    ok, n := EncodeRequest(buf, 32, REQ_FEATURE, uid, featureBuf, len);
  }

  method EncodeFwVersionRequest(uid: u32, buf: array<byte>) returns (ok: bool, n: nat)
    requires buf.Length == 16
    modifies buf
    ensures ok && n <= 16 && buf[..n] == Request(350, uid, None)
  {
    RequestSize(REQ_FW_VERSION, uid, None);
    ok, n := EncodeHead(buf, 16, REQ_FW_VERSION, uid);
  }

  /** Set mode, 260, and get MAC address, 257: one enumerated value. */
  method EncodeValueRequest(id: u32, uid: u32, value: u32, buf: array<byte>) returns (ok: bool, n: nat)
    requires (id == 260 || id == 257) && value < 0x80 && buf.Length == 32
    modifies buf
    ensures ok && n <= 32 && buf[..n] == Request(id, uid, Some(VarintFieldBytes(1, value)))
  {
    TinyFieldSize(1, value);
    var reqBuf := new byte[16];
    var len;
    ok, len := PbWriteVarintField(reqBuf, 16, 0, 1, value);
    assert reqBuf[..len] == VarintFieldBytes(1, value);
    RequestSize(id, uid, Some(reqBuf[..len]));
    ok, n := EncodeRequest(buf, 32, id, uid, reqBuf, len);
  }

  /** Start, 280, connect, 282, and disconnect, 283: an empty payload field. */
  method EncodeEmptyRequest(id: u32, uid: u32, buf: array<byte>) returns (ok: bool, n: nat)
    requires id == 280 || id == 282 || id == 283
    requires buf.Length == 16
    modifies buf
    ensures ok && n <= 16 && buf[..n] == Request(id, uid, Some([]))
  {
    var none := new byte[0];
    assert none[..0] == [];
    RequestSize(id, uid, Some([]));
    ok, n := EncodeRequest(buf, 16, id, uid, none, 0);
  }

  /** The default set-up: field numbers and values of the configuration message, in order. */
  function WifiInitItems(): Items {
    Cons(V(1, 10), Cons(V(2, 32), Cons(V(3, 1), Cons(V(5, 32), Cons(V(8, 1), Cons(V(9, 1), Cons(V(11, 1),
    Cons(V(13, 6), Cons(V(15, 752), Cons(V(16, 32), Cons(V(21, 1), Cons(V(23, 1), Cons(V(20, 0x1F2F3F4F),
    Nil)))))))))))))
  }

  lemma WifiInitSize()
    ensures |Encode(WifiInitItems())| <= 91 && AllVarints(WifiInitItems())
  {
    ModerateSize(WifiInitItems());
  }

  method EncodeWifiInitRequest(uid: u32, buf: array<byte>) returns (ok: bool, n: nat)
    requires buf.Length == 160
    modifies buf
    ensures ok && n <= 160 && 12 + n <= 256
    ensures buf[..n] == Request(278, uid, Some(LenFieldBytes(1, Encode(WifiInitItems()))))
  {
    var cfgBuf, reqBuf := new byte[96], new byte[112];
    var cfgLen, reqLen;
    WifiInitSize();
    ok, cfgLen := WriteVarintFields(cfgBuf, WifiInitItems());
    ShortLenFieldSize(1, cfgBuf[..cfgLen]);
    ok, reqLen := PbWriteBytesField(reqBuf, 112, 0, 1, cfgBuf, cfgLen);
    assert reqBuf[..reqLen] == LenFieldBytes(1, cfgBuf[..cfgLen]);
    RequestSize(REQ_WIFI_INIT, uid, Some(reqBuf[..reqLen]));
    ok, n := EncodeRequest(buf, 160, REQ_WIFI_INIT, uid, reqBuf, reqLen);
  }

  // Station configuration: SSID and password go out as C strings, clamped to the field size.

  function CString(s: seq<byte>, max: nat): seq<byte> { if |s| + 1 <= max then s + [0] else s }

  function Threshold(password: seq<byte>): seq<byte> { VarintFieldBytes(2, if |password| >= 8 then 3 else 0) }

  function Pmf(): seq<byte> { VarintFieldBytes(1, 1) + VarintFieldBytes(2, 0) }

  function StaItems(ssid: seq<byte>, password: seq<byte>): Items {
    Cons(B(1, CString(ssid, 32)), Cons(B(2, CString(password, 64)), Cons(B(9, Threshold(password)), Cons(B(10, Pmf()),
    Cons(V(12, 0), Nil)))))
  }

  function ConfigItems(ssid: seq<byte>, password: seq<byte>): Items {
    Cons(V(1, 0), Cons(B(2, LenFieldBytes(2, Encode(StaItems(ssid, password)))), Nil))
  }

  lemma StaBytes(ssid: seq<byte>, password: seq<byte>)
    ensures Encode(StaItems(ssid, password))
         == LenFieldBytes(1, CString(ssid, 32)) + LenFieldBytes(2, CString(password, 64))
            + LenFieldBytes(9, Threshold(password)) + LenFieldBytes(10, Pmf()) + VarintFieldBytes(12, 0)
  {
    Encode5(B(1, CString(ssid, 32)), B(2, CString(password, 64)), B(9, Threshold(password)), B(10, Pmf()), V(12, 0));
  }

  lemma Encode5(i1: Item, i2: Item, i3: Item, i4: Item, i5: Item)
    ensures Encode(Cons(i1, Cons(i2, Cons(i3, Cons(i4, Cons(i5, Nil))))))
         == ItemBytes(i1) + ItemBytes(i2) + ItemBytes(i3) + ItemBytes(i4) + ItemBytes(i5)
  {
    var b1, b2, b3, b4, b5 := ItemBytes(i1), ItemBytes(i2), ItemBytes(i3), ItemBytes(i4), ItemBytes(i5);
    assert Encode(Cons(i5, Nil)) == b5;
    assert Encode(Cons(i4, Cons(i5, Nil))) == b4 + b5;
    var tail3 := Encode(Cons(i3, Cons(i4, Cons(i5, Nil))));
    assert tail3 == b3 + (b4 + b5);
    assert Encode(Cons(i2, Cons(i3, Cons(i4, Cons(i5, Nil))))) == b2 + tail3;
    Assoc(b1, b2, tail3);
    Assoc(b1 + b2, b3, b4 + b5);
    Assoc(b1 + b2 + b3, b4, b5);
  }

  lemma StaSizes(ssid: seq<byte>, password: seq<byte>)
    requires |ssid| <= 32 && |password| <= 64
    ensures |Threshold(password)| == 2 && |Pmf()| == 4
    ensures |LenFieldBytes(1, CString(ssid, 32))| <= 34 && |LenFieldBytes(2, CString(password, 64))| <= 66
    ensures |LenFieldBytes(9, Threshold(password))| == 4 && |LenFieldBytes(10, Pmf())| == 6
    ensures |VarintFieldBytes(12, 0)| == 2 && |VarintFieldBytes(1, 0)| == 2
  {
    TinyFieldSize(2, if |password| >= 8 then 3 else 0);
    TinyFieldSize(1, 1);
    TinyFieldSize(2, 0);
    TinyFieldSize(12, 0);
    TinyFieldSize(1, 0);
    ShortLenFieldSize(1, CString(ssid, 32));
    ShortLenFieldSize(2, CString(password, 64));
    ShortLenFieldSize(9, Threshold(password));
    ShortLenFieldSize(10, Pmf());
  }

  /** The station record in its 192-byte buffer. */
  method EncodeSta(ssid: array<byte>, ssidLen: nat, password: array<byte>, passLen: nat, staBuf: array<byte>)
    returns (ok: bool, n: nat)
    requires ssidLen < ssid.Length && ssid[ssidLen] == 0 && passLen < password.Length && password[passLen] == 0
    requires ssidLen <= 32 && passLen <= 64 && staBuf.Length == 192 && staBuf != ssid && staBuf != password
    modifies staBuf
    ensures ok && n <= 112 && staBuf[..n] == Encode(StaItems(old(ssid[..ssidLen]), old(password[..passLen])))
  {
    ghost var s, p := ssid[..ssidLen], password[..passLen];
    StaSizes(s, p);
    StaBytes(s, p);
    var thresholdBuf, pmfBuf := new byte[16], new byte[16];
    var thresholdLen, pmfLen;
    ok, thresholdLen := PbWriteVarintField(thresholdBuf, 16, 0, 2, if passLen >= 8 then 3 else 0);
    assert thresholdBuf[..thresholdLen] == Threshold(p);
    ok, pmfLen := WritePmf(pmfBuf);
    ok, n := EncodeStrings(ssid, ssidLen, password, passLen, staBuf);
    ok, n := FinishSta(staBuf, n, thresholdBuf, thresholdLen, pmfBuf, pmfLen);
  }

  /** The two strings. */
  method EncodeStrings(ssid: array<byte>, ssidLen: nat, password: array<byte>, passLen: nat, staBuf: array<byte>)
    returns (ok: bool, n: nat)
    requires ssidLen < ssid.Length && ssid[ssidLen] == 0 && passLen < password.Length && password[passLen] == 0
    requires ssidLen <= 32 && passLen <= 64 && staBuf.Length == 192 && staBuf != ssid && staBuf != password
    modifies staBuf
    ensures ok && n <= 100
    ensures staBuf[..n] == LenFieldBytes(1, CString(ssid[..ssidLen], 32))
            + LenFieldBytes(2, CString(password[..passLen], 64))
  {
    var ssidWire := if ssidLen + 1 <= 32 then ssidLen + 1 else 32;
    var passWire := if passLen + 1 <= 64 then passLen + 1 else 64;
    assert ssid[..ssidWire] == CString(ssid[..ssidLen], 32) && password[..passWire] == CString(password[..passLen], 64);
    ShortLenFieldSize(1, ssid[..ssidWire]);
    ShortLenFieldSize(2, password[..passWire]);
    ok, n := PbWriteBytesField(staBuf, 192, 0, 1, ssid, ssidWire);
    assert staBuf[..n] == LenFieldBytes(1, ssid[..ssidWire]);
    ok, n := PbWriteBytesField(staBuf, 192, n, 2, password, passWire);
  }

  /** The fields after the two strings. */
  method FinishSta(staBuf: array<byte>, off: nat, thresholdBuf: array<byte>, thresholdLen: nat, pmfBuf: array<byte>,
                   pmfLen: nat)
    returns (ok: bool, n: nat)
    requires off <= 100 && staBuf.Length == 192 && staBuf != thresholdBuf && staBuf != pmfBuf
    requires thresholdLen <= thresholdBuf.Length && pmfLen <= pmfBuf.Length && thresholdLen == 2 && pmfLen == 4
    modifies staBuf
    ensures ok && n == off + 12
    ensures staBuf[..n] == old(staBuf[..off]) + LenFieldBytes(9, thresholdBuf[..thresholdLen])
                           + LenFieldBytes(10, pmfBuf[..pmfLen]) + VarintFieldBytes(12, 0)
  {
    ShortLenFieldSize(9, thresholdBuf[..thresholdLen]);
    ShortLenFieldSize(10, pmfBuf[..pmfLen]);
    TinyFieldSize(12, 0);
    ok, n := PbWriteBytesField(staBuf, 192, off, 9, thresholdBuf, thresholdLen);
    ok, n := PbWriteBytesField(staBuf, 192, n, 10, pmfBuf, pmfLen);
    ok, n := PbWriteVarintField(staBuf, 192, n, 12, 0);
  }

  method WritePmf(pmfBuf: array<byte>) returns (ok: bool, n: nat)
    requires pmfBuf.Length == 16
    modifies pmfBuf
    ensures ok && n <= 16 && pmfBuf[..n] == Pmf()
  {
    TinyFieldSize(1, 1);
    TinyFieldSize(2, 0);
    ok, n := PbWriteVarintField(pmfBuf, 16, 0, 1, 1);
    assert pmfBuf[..n] == VarintFieldBytes(1, 1);
    ok, n := PbWriteVarintField(pmfBuf, 16, n, 2, 0);
  }

  /** The interface, and the station record in the configuration. */
  method WrapSta(staBuf: array<byte>, staLen: nat, reqBuf: array<byte>) returns (ok: bool, n: nat)
    requires staBuf.Length == 192 && staLen <= 112 && reqBuf.Length == 240 && reqBuf != staBuf
    modifies reqBuf
    ensures ok && n <= 118
    ensures reqBuf[..n] == VarintFieldBytes(1, 0) + LenFieldBytes(2, LenFieldBytes(2, staBuf[..staLen]))
  {
    var cfgBuf := new byte[208];
    var cfgLen;
    ghost var sta := staBuf[..staLen];
    ShortLenFieldSize(2, sta);
    ok, cfgLen := PbWriteBytesField(cfgBuf, 208, 0, 2, staBuf, staLen);
    assert cfgBuf[..cfgLen] == LenFieldBytes(2, sta);
    ok, n := WrapConfig(cfgBuf, cfgLen, reqBuf);
  }

  method WrapConfig(cfgBuf: array<byte>, cfgLen: nat, reqBuf: array<byte>) returns (ok: bool, n: nat)
    requires cfgLen <= cfgBuf.Length && cfgLen <= 114 && reqBuf.Length == 240 && reqBuf != cfgBuf
    modifies reqBuf
    ensures ok && n == 4 + cfgLen && reqBuf[..n] == VarintFieldBytes(1, 0) + LenFieldBytes(2, cfgBuf[..cfgLen])
  {
    TinyFieldSize(1, 0);
    ShortLenFieldSize(2, cfgBuf[..cfgLen]);
    ok, n := PbWriteVarintField(reqBuf, 240, 0, 1, 0);
    assert reqBuf[..n] == VarintFieldBytes(1, 0);
    ok, n := PbWriteBytesField(reqBuf, 240, n, 2, cfgBuf, cfgLen);
  }

  /** Fails exactly on an empty or too long SSID and on a too long password. */
  method EncodeSetStaConfigRequest(uid: u32, ssid: array<byte>, ssidLen: nat, password: array<byte>, passLen: nat,
                                   buf: array<byte>)
    returns (ok: bool, n: nat)
    requires ssidLen < ssid.Length && ssid[ssidLen] == 0 && passLen < password.Length && password[passLen] == 0
    requires buf.Length == 224 && buf != ssid && buf != password
    modifies buf
    ensures ok <==> 1 <= ssidLen <= 32 && passLen <= 64
    ensures ok ==> n <= 224 && 12 + n <= 256
    ensures ok ==> var items := ConfigItems(old(ssid[..ssidLen]), old(password[..passLen]));
                   buf[..n] == Request(284, uid, Some(Encode(items)))
  {
    if ssidLen == 0 || ssidLen > 32 || passLen > 64 { return false, 0; }
    ghost var s, p := ssid[..ssidLen], password[..passLen];
    var staBuf, reqBuf := new byte[192], new byte[240];
    var staLen, reqLen;
    ok, staLen := EncodeSta(ssid, ssidLen, password, passLen, staBuf);
    ok, reqLen := WrapSta(staBuf, staLen, reqBuf);
    ConfigBytes(s, p);
    RequestSize(REQ_SET_CONFIG, uid, Some(reqBuf[..reqLen]));
    ok, n := EncodeRequest(buf, 224, REQ_SET_CONFIG, uid, reqBuf, reqLen);
  }

  lemma ConfigBytes(ssid: seq<byte>, password: seq<byte>)
    ensures Encode(ConfigItems(ssid, password))
         == VarintFieldBytes(1, 0) + LenFieldBytes(2, LenFieldBytes(2, Encode(StaItems(ssid, password))))
  {
    var cfg := B(2, LenFieldBytes(2, Encode(StaItems(ssid, password))));
    assert Encode(Cons(cfg, Nil)) == ItemBytes(cfg);
  }
}
