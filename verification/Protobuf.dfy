/** Protocol Buffers wire format: base-128 varints and fields of wire types 0, 1, 2 and 5,
    as the control channel reads and writes them. */
module Protobuf {
  import opened Bytes

  const TWO64: nat := 0x1_0000_0000_0000_0000
  const TWO32: nat := 0x1_0000_0000
  const MAX_VARINT: nat := 10

  // ---------------------------------------------------------------------------------------------
  // Varints

  /** A complete varint: at most ten bytes, the continuation bit set on all but the last. */
  predicate IsVarint(e: seq<byte>) {
    && 1 <= |e| <= MAX_VARINT
    && (forall i :: 0 <= i < |e| - 1 ==> e[i] >= 0x80)
    && e[|e| - 1] < 0x80
  }

  /** Little-endian base-128 value of the low seven bits of each byte. */
  function Sum128(e: seq<byte>): nat {
    if e == [] then 0 else e[0] % 0x80 + 0x80 * Sum128(e[1..])
  }

  /** End of the varint that starts at `off`, looking no further than `stop`. */
  function VarintEnd(b: seq<byte>, off: nat, stop: nat): (end: Option<nat>)
    ensures end.Some? ==> off < end.value <= |b| && end.value <= stop
    decreases stop - off
  {
    if off >= stop || off >= |b| then None
    else if b[off] < 0x80 then Some(off + 1)
    else VarintEnd(b, off + 1, stop)
  }

  /** Value (64 bits, higher bits dropped) and end offset of the varint at `off`. */
  function ReadVarint(b: seq<byte>, off: nat): (r: Option<(u64, nat)>)
    ensures r.Some? ==> off < r.value.1 <= |b|
  {
    match VarintEnd(b, off, off + MAX_VARINT)
    case Some(end) => Some((Sum128(b[off..end]) % TWO64, end))
    case None => None
  }

  function Varint(v: nat): (e: seq<byte>)
    ensures e != []
  {
    if v < 0x80 then [v] else [v % 0x80 + 0x80] + Varint(v / 0x80)
  }

  lemma {:induction false} VarintEndIsVarint(b: seq<byte>, off: nat, stop: nat, end: nat)
    requires off <= |b| && off <= stop <= off + MAX_VARINT
    ensures VarintEnd(b, off, stop) == Some(end) <==> off < end <= |b| && end <= stop && IsVarint(b[off..end])
    decreases stop - off
  {
    if off >= stop || off >= |b| {
    } else if b[off] < 0x80 || end <= off + 1 {
      if off < end <= |b| { assert b[off..end][0] == b[off]; }
    } else {
      VarintEndIsVarint(b, off + 1, stop, end);
      if end <= |b| && end <= stop {
        VarintTail(b[off..end]);
        assert b[off..end][1..] == b[off + 1..end];
      }
    }
  }

  lemma VarintTail(e: seq<byte>)
    requires 2 <= |e| <= MAX_VARINT && e[0] >= 0x80
    ensures IsVarint(e) <==> IsVarint(e[1..])
  {
    if IsVarint(e[1..]) {
      forall i | 0 <= i < |e| - 1
        ensures e[i] >= 0x80
      {
        if i > 0 { assert e[1..][i - 1] == e[i]; }
      }
    }
  }

  /** Reading succeeds exactly where a complete varint stands, which is then unique. */
  lemma ReadVarintExact(b: seq<byte>, off: nat, value: u64, end: nat)
    requires off <= |b|
    ensures ReadVarint(b, off) == Some((value, end))
            <==> off < end <= |b| && IsVarint(b[off..end]) && value == Sum128(b[off..end]) % TWO64
  {
    VarintEndIsVarint(b, off, off + MAX_VARINT, end);
    match VarintEnd(b, off, off + MAX_VARINT)
    case Some(e) => VarintEndIsVarint(b, off, off + MAX_VARINT, e);
    case None =>
  }

  lemma {:induction false} VarintSum(v: nat)
    ensures Sum128(Varint(v)) == v
  {
    if v >= 0x80 {
      VarintSum(v / 0x80);
      assert Varint(v)[1..] == Varint(v / 0x80);
      assert (v % 0x80 + 0x80) % 0x80 == v % 0x80;
    } else {
      assert Varint(v)[1..] == [];
    }
  }

  /** `n` bytes of seven bits hold the value. */
  function Pow128(n: nat): nat { if n == 0 then 1 else 0x80 * Pow128(n - 1) }

  lemma {:induction false} VarintShape(v: nat, n: nat)
    requires n > 0
    ensures |Varint(v)| <= n <==> v < Pow128(n)
    ensures forall i :: 0 <= i < |Varint(v)| - 1 ==> Varint(v)[i] >= 0x80
    ensures Varint(v)[|Varint(v)| - 1] < 0x80
  {
    if v >= 0x80 {
      VarintShape(v / 0x80, if n > 1 then n - 1 else 1);
    }
    assert Pow128(n) == 0x80 * Pow128(n - 1);
    PowPositive(n - 1);
  }

  lemma {:induction false} PowPositive(n: nat)
    ensures Pow128(n) > 0
  {
    if n > 0 { PowPositive(n - 1); }
  }

  lemma Pow128Values()
    ensures Pow128(1) == 0x80 && Pow128(2) == 0x4000 && Pow128(3) == 0x20_0000
    ensures Pow128(5) == 0x8_0000_0000 && Pow128(10) == 0x40_0000_0000_0000_0000
  {
    assert Pow128(3) == 0x20_0000;
    assert Pow128(6) == 0x400_0000_0000;
    assert Pow128(8) == 0x100_0000_0000_0000;
  }

  lemma VarintIsVarint(v: u64)
    ensures IsVarint(Varint(v))
  {
    Pow128Values();
    VarintShape(v, 10);
  }

  lemma {:induction false} SumBound(e: seq<byte>)
    ensures Sum128(e) < Pow128(|e|)
  {
    if e != [] { SumBound(e[1..]); }
  }

  /** No complete varint of the value is shorter than the one written. */
  lemma {:induction false} VarintMinimal(v: u64, e: seq<byte>)
    requires IsVarint(e) && Sum128(e) == v
    ensures 1 <= |Varint(v)| <= |e| <= 10
  {
    SumBound(e);
    VarintShape(v, |e|);
  }

  /** Every 64-bit value is read back, with its end, from any position of any buffer. */
  lemma VarintRoundTrip(before: seq<byte>, v: u64, after: seq<byte>)
    ensures ReadVarint(before + Varint(v) + after, |before|) == Some((v, |before| + |Varint(v)|))
  {
    var b, end := before + Varint(v) + after, |before| + |Varint(v)|;
    assert b[|before|..end] == Varint(v);
    VarintIsVarint(v);
    VarintSum(v);
    ReadVarintExact(b, |before|, v, end);
  }

  /** `k` septets further up. */
  function Shift7(d: nat, k: nat): nat { if k == 0 then d else 0x80 * Shift7(d, k - 1) }

  lemma {:induction false} SumAppend(e: seq<byte>, x: byte)
    ensures Sum128(e + [x]) == Sum128(e) + Shift7(x % 0x80, |e|)
  {
    if e == [] {
      assert [x][1..] == [];
    } else {
      assert (e + [x])[1..] == e[1..] + [x];
      SumAppend(e[1..], x);
    }
  }

  /** Two's complement reading of the low 32 bits. */
  function ToI32(value: u64): (r: int)
    ensures -0x8000_0000 <= r < 0x8000_0000
  {
    if value <= 0x7FFF_FFFF then value
    else
      var raw := value % TWO32;
      if raw < 0x8000_0000 then raw else raw - TWO32
  }

  /** A signed 32-bit code, sign-extended to 64 bits on the wire, comes back unchanged. */
  lemma SignedRoundTrip(code: int)
    requires -0x8000_0000 <= code < 0x8000_0000
    ensures ToI32(if code >= 0 then code else code + TWO64) == code
  {
    if code < 0 {
      assert (code + TWO64) % TWO32 == code + TWO32 by {
        assert code + TWO64 == (code + TWO32) + 0xFFFF_FFFF * TWO32;
      }
    }
  }

  // ---------------------------------------------------------------------------------------------
  // Fields

  /** A field as the reader sees it; a length-delimited one by the span of its payload. The field
      number is the key shifted right by three and truncated to 32 bits. */
  datatype Field =
    | VarintField(num: u32, value: u64)
    | Fixed64Field(num: u32)
    | LenField(num: u32, start: nat, len: nat)
    | Fixed32Field(num: u32)

  function KeyNumber(key: u64): u32 { key / 8 % TWO32 }

  /** The field at `off` and where it ends. */
  function ReadField(b: seq<byte>, off: nat): (r: Option<(Field, nat)>)
    ensures r.Some? ==> off < r.value.1 <= |b|
  {
    match ReadVarint(b, off)
    case None => None
    case Some((key, k)) =>
      var num, wire := KeyNumber(key), key % 8;
      if wire == 0 then
        match ReadVarint(b, k)
        case Some((value, end)) => Some((VarintField(num, value), end))
        case None => None
      else if wire == 1 then
        if |b| - k < 8 then None else Some((Fixed64Field(num), k + 8))
      else if wire == 2 then
        match ReadVarint(b, k)
        case Some((len, m)) => if len > |b| - m then None else Some((LenField(num, m, len), m + len))
        case None => None
      else if wire == 5 then
        if |b| - k < 4 then None else Some((Fixed32Field(num), k + 4))
      else None
  }

  /** All fields from `off` to the end, or None. */
  function ReadFields(b: seq<byte>, off: nat): Option<seq<Field>>
    decreases |b| - off
  {
    if off >= |b| then Some([])
    else match ReadField(b, off)
         case None => None
         case Some((f, end)) => Join([f], ReadFields(b, end))
  }

  function Join(fs: seq<Field>, rest: Option<seq<Field>>): Option<seq<Field>> {
    match rest case Some(gs) => Some(fs + gs) case None => None
  }

  lemma JoinJoin(fs: seq<Field>, gs: seq<Field>, rest: Option<seq<Field>>)
    ensures Join(fs, Join(gs, rest)) == Join(fs + gs, rest)
  {
    if rest.Some? { assert fs + (gs + rest.value) == (fs + gs) + rest.value; }
  }

  /** The grammar: `b[off..end]` is one field. A key varint, then by its low three bits a varint,
      eight bytes, a length varint and that many bytes, or four bytes. */
  ghost predicate IsField(b: seq<byte>, off: nat, end: nat, f: Field)
    requires off <= end <= |b|
  {
    exists k: nat :: off < k <= end && IsKeyAndBody(b, off, k, end, f)
  }

  ghost predicate IsKeyAndBody(b: seq<byte>, off: nat, k: nat, end: nat, f: Field)
    requires off < k <= end <= |b|
  {
    var key := Sum128(b[off..k]) % TWO64;
    && IsVarint(b[off..k]) && f.num == KeyNumber(key)
    && match f
       case VarintField(_, value) => key % 8 == 0 && IsVarint(b[k..end]) && value == Sum128(b[k..end]) % TWO64
       case Fixed64Field(_) => key % 8 == 1 && end == k + 8
       case LenField(_, start, len) =>
         && key % 8 == 2 && k < start <= end && IsVarint(b[k..start])
         && len == Sum128(b[k..start]) % TWO64 && end == start + len
       case Fixed32Field(_) => key % 8 == 5 && end == k + 4
  }

  /** `b[off..]` is exactly the fields `fs`, one after the other. */
  ghost predicate SplitsInto(b: seq<byte>, off: nat, fs: seq<Field>)
    requires off <= |b|
    decreases |fs|
  {
    if fs == [] then off == |b|
    else exists end: nat :: off < end <= |b| && IsField(b, off, end, fs[0]) && SplitsInto(b, end, fs[1..])
  }

  lemma ReadFieldSound(b: seq<byte>, off: nat)
    requires off <= |b| && ReadField(b, off).Some?
    ensures var (f, end) := ReadField(b, off).value; IsField(b, off, end, f)
  {
    var (f, end) := ReadField(b, off).value;
    var (key, k) := ReadVarint(b, off).value;
    ReadVarintExact(b, off, key, k);
    if key % 8 == 0 || key % 8 == 2 {
      var (value, m) := ReadVarint(b, k).value;
      ReadVarintExact(b, k, value, m);
    }
    assert IsKeyAndBody(b, off, k, end, f);
  }

  lemma ReadFieldComplete(b: seq<byte>, off: nat, end: nat, f: Field)
    requires off <= end <= |b| && IsField(b, off, end, f)
    ensures ReadField(b, off) == Some((f, end))
  {
    var k: nat :| off < k <= end && IsKeyAndBody(b, off, k, end, f);
    ReadBody(b, off, k, end, f);
  }

  lemma ReadBody(b: seq<byte>, off: nat, k: nat, end: nat, f: Field)
    requires off < k <= end <= |b| && IsKeyAndBody(b, off, k, end, f)
    ensures ReadField(b, off) == Some((f, end))
  {
    ReadVarintExact(b, off, Sum128(b[off..k]) % TWO64, k);
    match f
    case VarintField(_, value) => ReadVarintExact(b, k, value, end);
    case LenField(_, start, len) => ReadVarintExact(b, k, len, start);
    case _ =>
  }

  /** The reader accepts exactly the byte strings that split entirely into fields of wire types
      0, 1, 2 and 5, and the split it returns is the only one. */
  lemma {:induction false} ReadFieldsExact(b: seq<byte>, off: nat, fs: seq<Field>)
    requires off <= |b|
    ensures ReadFields(b, off) == Some(fs) <==> SplitsInto(b, off, fs)
    decreases |b| - off
  {
    if off < |b| {
      if SplitsInto(b, off, fs) {
        var end: nat :| off < end <= |b| && IsField(b, off, end, fs[0]) && SplitsInto(b, end, fs[1..]);
        ReadFieldComplete(b, off, end, fs[0]);
        ReadFieldsExact(b, end, fs[1..]);
        assert [fs[0]] + fs[1..] == fs;
      }
      if ReadFields(b, off) == Some(fs) {
        var (f, end) := ReadField(b, off).value;
        ReadFieldSound(b, off);
        var gs := ReadFields(b, end).value;
        assert fs == [f] + gs && fs[1..] == gs;
        ReadFieldsExact(b, end, gs);
      }
    } else if fs != [] && SplitsInto(b, off, fs) {
      assert false;
    }
  }

  // ---------------------------------------------------------------------------------------------
  // Writing fields

  function VarintFieldBytes(num: u32, value: u64): seq<byte> { Varint(num * 8) + Varint(value) }

  function LenFieldBytes(num: u32, payload: seq<byte>): seq<byte> {
    Varint(num * 8 + 2) + Varint(|payload|) + payload
  }

  lemma ReadVarintAt(b: seq<byte>, off: nat, v: u64)
    requires StandsAt(b, off, Varint(v))
    ensures ReadVarint(b, off) == Some((v, off + |Varint(v)|))
  {
    var end := off + |Varint(v)|;
    assert b == b[..off] + Varint(v) + b[end..];
    VarintRoundTrip(b[..off], v, b[end..]);
  }

  lemma KeySplits(num: u32, wire: nat)
    requires wire < 8
    ensures (num * 8 + wire) % 8 == wire && KeyNumber(num * 8 + wire) == num
  {
  }

  lemma ReadVarintFieldBytes(b: seq<byte>, off: nat, num: u32, value: u64)
    requires StandsAt(b, off, VarintFieldBytes(num, value))
    ensures ReadField(b, off) == Some((VarintField(num, value), off + |VarintFieldBytes(num, value)|))
  {
    KeySplits(num, 0);
    StandsAtParts(b, off, Varint(num * 8), Varint(value));
    ReadVarintAt(b, off, num * 8);
    ReadVarintAt(b, off + |Varint(num * 8)|, value);
  }

  lemma ReadLenFieldBytes(b: seq<byte>, off: nat, num: u32, payload: seq<byte>)
    requires |payload| < TWO64 && StandsAt(b, off, LenFieldBytes(num, payload))
    ensures var end := off + |LenFieldBytes(num, payload)|;
            && ReadField(b, off) == Some((LenField(num, end - |payload|, |payload|), end))
            && StandsAt(b, end - |payload|, payload)
  {
    var key, len := Varint(num * 8 + 2), Varint(|payload|);
    KeySplits(num, 2);
    StandsAtParts(b, off, key + len, payload);
    StandsAtParts(b, off, key, len);
    var start := off + |key| + |len|;
    ReadVarintAt(b, off, num * 8 + 2);
    ReadVarintAt(b, off + |key|, |payload|);
    assert ReadField(b, off) == Some((LenField(num, start, |payload|), start + |payload|));
  }
}
