/** The control channel byte by byte: envelopes, requests and responses as they stand on the wire, and
    what a reader of the encoded records finds in them. */
module HostedWire {
  import opened Bytes
  import opened Protobuf
  import opened HostedRpc
  import opened HostedRequests

  // ---------------------------------------------------------------------------------------------
  // Messages

  /** Tag 1 and the name of the endpoint, "RPCRsp", tag 2 and the data, each with its length. */
  function Envelope(data: seq<byte>): seq<byte>
    requires |data| <= 0xFFFF
  {
    [0x01, 0x06, 0x00, 0x52, 0x50, 0x43, 0x52, 0x73, 0x70, 0x02, |data| % 0x100, |data| / 0x100] + data
  }

  lemma EnvelopeIsTlv(data: seq<byte>)
    requires |data| <= 0xFFFF
    ensures Envelope(data) == Tlv(EP_RSP, data)
  {
    assert Le16(6) == [6, 0] && Le16(|data|) == [|data| % 0x100, |data| / 0x100];
  }

  /** Field 1: the type; field 2: the message id; field 3: the uid; then the payload field, whose number
      is the message id. */
  function MessageBytes(ty: byte, id: u32, uid: u32, payload: seq<byte>): seq<byte> {
    [0x08, ty] + ([0x10] + Varint(id)) + ([0x18] + Varint(uid)) + (Varint(id * 8 + 2) + Varint(|payload|) + payload)
  }

  /** Type 1 on the wire is a request, type 2 a response. */
  lemma RequestOnWire(id: u32, uid: u32, payload: seq<byte>)
    ensures Request(id, uid, Some(payload)) == MessageBytes(1, id, uid, payload)
    ensures Request(id, uid, None) == [0x08, 0x01] + ([0x10] + Varint(id)) + ([0x18] + Varint(uid))
  {
    HeadBytes(TYPE_REQ, id, uid, Some(payload));
    HeadBytes(TYPE_REQ, id, uid, None);
    HeadKeys(1);
  }

  lemma ResponseOnWire(id: u32, uid: u32, payload: seq<byte>)
    ensures Message(TYPE_RESP, id, uid, Some(payload)) == MessageBytes(2, id, uid, payload)
  {
    HeadBytes(TYPE_RESP, id, uid, Some(payload));
    HeadKeys(2);
  }

  lemma HeadKeys(ty: byte)
    requires ty < 0x80
    ensures VarintFieldBytes(1, ty) == [0x08, ty] && Varint(16) == [0x10] && Varint(24) == [0x18]
  {
    assert Varint(8) == [0x08] && Varint(ty) == [ty];
  }

  // ---------------------------------------------------------------------------------------------
  // Reading a record

  /** What a reader finds in the last field with this number. */
  function Content(b: seq<byte>, num: u32): Option<Item> {
    match ReadFields(b, 0)
    case None => None
    case Some(fs) => LastContent(b, fs, num)
  }

  function LastContent(b: seq<byte>, fs: seq<Field>, num: u32): Option<Item> {
    if fs == [] then None
    else
      var rest := LastContent(b, fs[1..], num);
      if rest.Some? || fs[0].num != num then rest else ContentOf(b, fs[0])
  }

  function ContentOf(b: seq<byte>, f: Field): Option<Item> {
    match f
    case VarintField(num, value) => Some(V(num, value))
    case LenField(num, start, len) => if start + len <= |b| then Some(B(num, b[start..start + len])) else None
    case _ => None
  }

  /** The last item with this number. */
  function LastItem(items: Items, num: u32): Option<Item> {
    match items
    case Nil => None
    case Cons(item, rest) =>
      var last := LastItem(rest, num);
      if last.Some? || item.num != num then last else Some(item)
  }

  lemma ItemContent(b: seq<byte>, off: nat, item: Item)
    requires StandsAt(b, off, ItemBytes(item)) && (item.B? ==> |item.bytes| < TWO64)
    ensures ContentOf(b, FieldOf(off, item)) == Some(item)
  {
    if item.B? {
      ReadLenFieldBytes(b, off, item.num, item.bytes);
      LenFits(item.num, item.bytes);
    }
  }

  lemma LenFits(num: u32, bytes: seq<byte>)
    ensures |LenFieldBytes(num, bytes)| >= |bytes|
  {
  }

  lemma {:induction false} ContentsBack(b: seq<byte>, off: nat, items: Items, num: u32)
    requires IsEncoding(b, off, items)
    ensures LastContent(b, FieldsOf(off, items), num) == LastItem(items, num)
    decreases items
  {
    if items.Cons? {
      var item, end := items.head, off + |ItemBytes(items.head)|;
      EncodingSplits(b, off, items);
      ContentsBack(b, end, items.tail, num);
      ItemContent(b, off, item);
      var rest := FieldsCons(off, items, FieldOf(off, item), end);
      ContentCons(b, FieldOf(off, item), rest, num);
    }
  }

  lemma ContentCons(b: seq<byte>, f: Field, rest: seq<Field>, num: u32)
    ensures LastContent(b, [f] + rest, num)
            == if LastContent(b, rest, num).Some? || f.num != num then LastContent(b, rest, num) else ContentOf(b, f)
  {
    assert ([f] + rest)[1..] == rest;
  }

  /** A reader of an encoded record finds, under every number, the last item with that number. */
  lemma ReadsBack(items: Items, num: u32)
    requires Small(items)
    ensures Content(Encode(items), num) == LastItem(items, num)
  {
    MessageRoundTrip(items);
    ContentsBack(Encode(items), 0, items, num);
  }

  lemma OneReadsBack(item: Item)
    requires item.B? ==> |item.bytes| < TWO64
    ensures Content(ItemBytes(item), item.num) == Some(item)
  {
    var items := Cons(item, Nil);
    assert Encode(items) == ItemBytes(item) + [] by { assert Encode(Nil) == []; }
    assert Encode(items) == ItemBytes(item);
    ReadsBack(items, item.num);
  }

  /** No bytes stand under this number. */
  predicate NoBytes(items: Items, num: u32) {
    match items case Nil => true case Cons(item, rest) => (item.B? ==> item.num != num) && NoBytes(rest, num)
  }

  lemma {:induction false} LastVarintCons(f: Field, rest: seq<Field>, num: u32)
    ensures LastVarint([f] + rest, num)
            == if LastVarint(rest, num).Some? then LastVarint(rest, num)
               else if f.VarintField? && f.num == num then Some(f.value) else None
    decreases |rest|
  {
    if rest == [] {
      assert [f] + rest == [f];
    } else {
      assert ([f] + rest)[..|rest|] == [f] + rest[..|rest| - 1];
      LastVarintCons(f, rest[..|rest| - 1], num);
    }
  }

  lemma {:induction false} LastVarintOf(off: nat, items: Items, num: u32)
    requires NoBytes(items, num)
    ensures LastItem(items, num).Some? ==> LastItem(items, num).value.V?
    ensures LastVarint(FieldsOf(off, items), num)
            == if LastItem(items, num).Some? then Some(LastItem(items, num).value.value) else None
    decreases items
  {
    if items.Cons? {
      var end := off + |ItemBytes(items.head)|;
      LastVarintOf(end, items.tail, num);
      var rest := FieldsCons(off, items, FieldOf(off, items.head), end);
      LastVarintCons(FieldOf(off, items.head), rest, num);
    }
  }

  /** The code of a response record is that of the last item with its number; without one it is 0, and
      the record does not say that it has a code. */
  lemma CodeOfRecord(items: Items, num: u32)
    requires Small(items) && NoBytes(items, num)
    ensures ResponseIn(Encode(items), num)
            == Some(match LastItem(items, num)
                    case Some(V(_, value)) => Response(ToI32(value), true) case _ => Response(0, false))
  {
    MessageRoundTrip(items);
    LastVarintOf(0, items, num);
  }

  // ---------------------------------------------------------------------------------------------
  // What the requests say

  /** An item in front of others with other numbers. */
  lemma FirstItem(item: Item, rest: Items) returns (items: Items)
    requires LastItem(rest, item.num) == None
    ensures items == Cons(item, rest)
    ensures forall num :: LastItem(items, num) == if num == item.num then Some(item) else LastItem(rest, num)
  {
    items := Cons(item, rest);
  }

  /** Feature in field 1, command in field 2, and the option, unless it is none, in field 3. */
  lemma FeatureReadsBack(feature: u32, command: u32, option: u32) returns (b: seq<byte>)
    ensures b == Encode(FeatureItems(feature, command, option))
    ensures Content(b, 1) == Some(V(1, feature)) && Content(b, 2) == Some(V(2, command))
    ensures Content(b, 3) == if option == 0 then None else Some(V(3, option))
  {
    var items := OptionItems(option);
    if option != 0 { items := FirstItem(V(3, option), Nil); }
    assert Small(items);
    assert forall num :: LastItem(items, num) == if option == 0 || num != 3 then None else Some(V(3, option));
    items := FirstItem(V(2, command), items);
    items := FirstItem(V(1, feature), items);
    b := Encode(items);
    ReadsBack(items, 1);
    ReadsBack(items, 2);
    ReadsBack(items, 3);
  }

  /** A varint of one or two bytes. */
  function Short(v: nat): seq<byte>
    requires v < 0x4000
  {
    if v < 0x80 then [v] else [v % 0x80 + 0x80, v / 0x80]
  }

  lemma VarintShort(v: nat) returns (e: seq<byte>)
    requires v < 0x4000
    ensures e == Varint(v) && e == Short(v)
  {
    e := Varint(v);
    if v >= 0x80 { assert Varint(v / 0x80) == [v / 0x80]; }
  }

  lemma FirstItemBytes(num: u32, value: u64, rest: Items, more: seq<byte>, key: seq<byte>, val: seq<byte>)
    returns (items: Items, b: seq<byte>)
    requires more == Encode(rest) && key == Varint(num * 8) && val == Varint(value)
    ensures items == Cons(V(num, value), rest) && b == Encode(items) && b == key + val + more
  {
    items := Cons(V(num, value), rest);
    b := Encode(items);
  }

  lemma FirstShort(num: u32, value: u64, rest: Items, more: seq<byte>) returns (items: Items, b: seq<byte>)
    requires num * 8 < 0x4000 && value < 0x4000 && more == Encode(rest)
    ensures items == Cons(V(num, value), rest) && b == Encode(items) && b == Short(num * 8) + Short(value) + more
  {
    var key := VarintShort(num * 8);
    var val := VarintShort(value);
    items, b := FirstItemBytes(num, value, rest, more, key, val);
  }

  /** Key and value of one byte. */
  lemma FirstTiny(num: u32, value: u64, rest: Items, more: seq<byte>) returns (items: Items, b: seq<byte>)
    requires num < 16 && value < 0x80 && more == Encode(rest)
    ensures items == Cons(V(num, value), rest) && b == Encode(items) && b == [num * 8, value] + more
  {
    items, b := FirstShort(num, value, rest, more);
  }

  /** A value of two bytes. */
  lemma FirstLarge(num: u32, value: u64, rest: Items, more: seq<byte>) returns (items: Items, b: seq<byte>)
    requires num < 16 && 0x80 <= value < 0x4000 && more == Encode(rest)
    ensures items == Cons(V(num, value), rest) && b == Encode(items)
    ensures b == [num * 8, value % 0x80 + 0x80, value / 0x80] + more
  {
    items, b := FirstShort(num, value, rest, more);
  }

  /** A key of two bytes. */
  lemma FirstFar(num: u32, value: u64, rest: Items, more: seq<byte>) returns (items: Items, b: seq<byte>)
    requires 16 <= num < 32 && value < 0x80 && more == Encode(rest)
    ensures items == Cons(V(num, value), rest) && b == Encode(items) && b == [num * 8, 1, value] + more
  {
    items, b := FirstShort(num, value, rest, more);
  }

  lemma MagicOnWire() returns (items: Items, b: seq<byte>)
    ensures items == Cons(V(20, 0x1F2F3F4F), Nil) && b == Encode(items)
    ensures b == [0xA0, 0x01, 0xCF, 0xFE, 0xBC, 0xF9, 0x01]
  {
    items := Cons(V(20, 0x1F2F3F4F), Nil);
    b := Encode(items);
    var key := VarintShort(160);
    var rest := VarintShort(249);
    assert Varint(31932) == [0xBC, 0xF9, 0x01];
    assert Varint(4087422) == [0xFE, 0xBC, 0xF9, 0x01];
    assert Varint(0x1F2F3F4F) == [0xCF, 0xFE, 0xBC, 0xF9, 0x01];
  }

  lemma TailInits() returns (items: Items, b: seq<byte>)
    ensures items == Cons(V(23, 1), Cons(V(20, 0x1F2F3F4F), Nil)) && b == Encode(items)
    ensures b == [0xB8, 0x01, 1, 0xA0, 0x01, 0xCF, 0xFE, 0xBC, 0xF9, 0x01]
  {
    items, b := MagicOnWire();
    items, b := FirstFar(23, 1, items, b);
  }

  lemma LastInits() returns (items: Items, b: seq<byte>)
    ensures items == Cons(V(16, 32), Cons(V(21, 1), Cons(V(23, 1), Cons(V(20, 0x1F2F3F4F), Nil)))) && b == Encode(items)
    ensures b == [0x80, 0x01, 32, 0xA8, 0x01, 1, 0xB8, 0x01, 1, 0xA0, 0x01, 0xCF, 0xFE, 0xBC, 0xF9, 0x01]
  {
    items, b := TailInits();
    items, b := FirstFar(21, 1, items, b);
    items, b := FirstFar(16, 32, items, b);
  }

  lemma MiddleInits(rest: Items, more: seq<byte>) returns (items: Items, b: seq<byte>)
    requires more == Encode(rest)
    ensures items == Cons(V(8, 1), Cons(V(9, 1), Cons(V(11, 1), Cons(V(13, 6), Cons(V(15, 752), rest)))))
    ensures b == Encode(items) && b == [0x40, 1, 0x48, 1, 0x58, 1, 0x68, 6, 0x78, 0xF0, 0x05] + more
  {
    items, b := FirstLarge(15, 752, rest, more);
    items, b := FirstTiny(13, 6, items, b);
    items, b := FirstTiny(11, 1, items, b);
    items, b := FirstTiny(9, 1, items, b);
    items, b := FirstTiny(8, 1, items, b);
  }

  lemma FirstInits(rest: Items, more: seq<byte>) returns (items: Items, b: seq<byte>)
    requires more == Encode(rest)
    ensures items == Cons(V(1, 10), Cons(V(2, 32), Cons(V(3, 1), Cons(V(5, 32), rest))))
    ensures b == Encode(items) && b == [0x08, 10, 0x10, 32, 0x18, 1, 0x28, 32] + more
  {
    items, b := FirstTiny(5, 32, rest, more);
    items, b := FirstTiny(3, 1, items, b);
    items, b := FirstTiny(2, 32, items, b);
    items, b := FirstTiny(1, 10, items, b);
  }

  /** The default set-up on the wire. */
  lemma WifiInitOnWire()
    ensures Encode(WifiInitItems())
         == [0x08, 10, 0x10, 32, 0x18, 1, 0x28, 32]
            + ([0x40, 1, 0x48, 1, 0x58, 1, 0x68, 6, 0x78, 0xF0, 0x05]
               + [0x80, 0x01, 32, 0xA8, 0x01, 1, 0xB8, 0x01, 1, 0xA0, 0x01, 0xCF, 0xFE, 0xBC, 0xF9, 0x01])
  {
    var items, b := LastInits();
    items, b := MiddleInits(items, b);
    items, b := FirstInits(items, b);
  }

  /** The items of a station record, found by number. */
  lemma StaItem(ssid: seq<byte>, password: seq<byte>, num: u32) returns (items: Items)
    requires |ssid| <= 32 && |password| <= 64
    ensures items == StaItems(ssid, password) && Small(items)
    ensures Content(Encode(items), num) == LastItem(items, num)
  {
    items := StaItems(ssid, password);
    StaSizes(ssid, password);
    var tail := Cons(B(10, Pmf()), Cons(V(12, 0), Nil));
    assert Small(Cons(V(12, 0), Nil)) && Small(tail) && Small(Cons(B(9, Threshold(password)), tail));
    ReadsBack(items, num);
  }

  lemma StaContents(ssid: seq<byte>, password: seq<byte>) returns (items: Items)
    ensures items == StaItems(ssid, password)
    ensures LastItem(items, 1) == Some(B(1, CString(ssid, 32)))
            && LastItem(items, 2) == Some(B(2, CString(password, 64)))
    ensures LastItem(items, 9) == Some(B(9, Threshold(password))) && LastItem(items, 10) == Some(B(10, Pmf()))
    ensures LastItem(items, 12) == Some(V(12, 0))
  {
    items := FirstItem(V(12, 0), Nil);
    items := FirstItem(B(10, Pmf()), items);
    items := FirstItem(B(9, Threshold(password)), items);
    items := FirstItem(B(2, CString(password, 64)), items);
    items := FirstItem(B(1, CString(ssid, 32)), items);
  }

  lemma StaReadsBack(ssid: seq<byte>, password: seq<byte>) returns (sta: seq<byte>)
    requires |ssid| <= 32 && |password| <= 64
    ensures sta == Encode(StaItems(ssid, password)) && |sta| <= 112
    ensures Content(sta, 1) == Some(B(1, if |ssid| < 32 then ssid + [0] else ssid))
    ensures Content(sta, 2) == Some(B(2, if |password| < 64 then password + [0] else password))
    ensures Content(sta, 9) == Some(B(9, Threshold(password))) && Content(sta, 10) == Some(B(10, Pmf()))
    ensures Content(sta, 12) == Some(V(12, 0))
  {
    var items := StaItem(ssid, password, 1);
    items := StaItem(ssid, password, 2);
    items := StaItem(ssid, password, 9);
    items := StaItem(ssid, password, 10);
    items := StaItem(ssid, password, 12);
    sta := Encode(items);
    StaBytes(ssid, password);
    StaSizes(ssid, password);
    items := StaContents(ssid, password);
  }

  lemma PmfReadsBack()
    ensures Content(Pmf(), 1) == Some(V(1, 1)) && Content(Pmf(), 2) == Some(V(2, 0))
  {
    var items := Cons(V(1, 1), Cons(V(2, 0), Nil));
    assert Encode(Cons(V(2, 0), Nil)) == ItemBytes(V(2, 0));
    assert Encode(items) == Pmf();
    ReadsBack(items, 1);
    ReadsBack(items, 2);
  }

  lemma ConfigReadsBack(ssid: seq<byte>, password: seq<byte>, sta: seq<byte>) returns (req: seq<byte>, cfg: seq<byte>)
    requires sta == Encode(StaItems(ssid, password)) && |sta| < 0x80
    ensures req == Encode(ConfigItems(ssid, password))
    ensures Content(req, 1) == Some(V(1, 0)) && Content(req, 2) == Some(B(2, cfg)) && Content(cfg, 2) == Some(B(2, sta))
  {
    cfg := LenFieldBytes(2, sta);
    OneReadsBack(B(2, sta));
    ShortLenFieldSize(2, sta);
    var items := FirstItem(B(2, cfg), Nil);
    items := FirstItem(V(1, 0), items);
    req := Encode(items);
    assert Small(Cons(B(2, cfg), Nil));
    ReadsBack(items, 1);
    ReadsBack(items, 2);
  }

  /** The set-up of a station: interface 0 and, nested, SSID and password as C strings clamped to 32
      and 64 bytes, WPA2 as the least authentication for a password of 8 bytes or more, protected
      management frames possible but not required, and the unspecified way of deriving SAE's password
      element. */
  lemma SetConfigReadsBack(ssid: seq<byte>, password: seq<byte>)
    returns (req: seq<byte>, cfg: seq<byte>, sta: seq<byte>, threshold: seq<byte>, pmf: seq<byte>)
    requires |ssid| <= 32 && |password| <= 64
    ensures req == Encode(ConfigItems(ssid, password))
    ensures Content(req, 1) == Some(V(1, 0)) && Content(req, 2) == Some(B(2, cfg)) && Content(cfg, 2) == Some(B(2, sta))
    ensures Content(sta, 1) == Some(B(1, if |ssid| < 32 then ssid + [0] else ssid))
    ensures Content(sta, 2) == Some(B(2, if |password| < 64 then password + [0] else password))
    ensures Content(sta, 9) == Some(B(9, threshold)) && Content(sta, 10) == Some(B(10, pmf))
    ensures Content(sta, 12) == Some(V(12, 0))
    ensures Content(threshold, 2) == Some(V(2, if |password| >= 8 then 3 else 0))
    ensures Content(pmf, 1) == Some(V(1, 1)) && Content(pmf, 2) == Some(V(2, 0))
  {
    sta := StaReadsBack(ssid, password);
    threshold, pmf := Threshold(password), Pmf();
    PmfReadsBack();
    OneReadsBack(V(2, if |password| >= 8 then 3 else 0));
    req, cfg := ConfigReadsBack(ssid, password, sta);
  }
}
