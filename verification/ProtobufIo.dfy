/** The reader and writer loops over byte buffers. */
module ProtobufIo {
  import opened Bytes
  import opened Protobuf

  lemma ModAdd(a: int, b: int, sum: int, low: int)
    requires sum == a + b && low == a % TWO64
    ensures (low + b) % TWO64 == sum % TWO64
  {
  }

  /** Ors the low seven bits of a byte into the 64-bit accumulator, above the `k` septets of `sum`. */
  method OrSeptet(value: u64, x: byte, k: nat, ghost sum: nat) returns (r: u64)
    requires value == sum % TWO64
    ensures r == (sum + Shift7(x % 0x80, k)) % TWO64
  {
    ModAdd(sum, Shift7(x % 0x80, k), sum + Shift7(x % 0x80, k), value);
    r := (value + Shift7(x % 0x80, k)) % TWO64;
  }

  /** Reads the varint at `off`; on success `end` is just past it. The shifted bits of each byte lie
      above those already read, so or-ing them in is adding them. */
  method PbReadVarint(buf: array<byte>, len: nat, off: nat) returns (ok: bool, end: nat, value: u64)
    requires off <= len <= buf.Length
    ensures ok <==> ReadVarint(buf[..len], off).Some?
    ensures ok ==> ReadVarint(buf[..len], off) == Some((value, end))
    ensures off <= end <= len
  {
    var shift: nat := 0;
    ghost var b, sum := buf[..len], 0;
    value := 0;
    end := off;
    while end < len && shift < 64
      invariant off <= end <= len && shift == 7 * (end - off) && shift <= 70
      invariant VarintEnd(b, off, off + MAX_VARINT) == VarintEnd(b, end, off + MAX_VARINT)
      invariant value == sum % TWO64 && sum == Sum128(b[off..end])
    {
      var byte := buf[end];
      assert b[off..end + 1] == b[off..end] + [byte];
      SumAppend(b[off..end], byte);
      value := OrSeptet(value, byte, shift / 7, sum);
      sum := sum + Shift7(byte % 0x80, shift / 7);
      end := end + 1;
      if byte < 0x80 {
        assert VarintEnd(b, off, off + MAX_VARINT) == Some(end);
        return true, end, value;
      }
      shift := shift + 7;
    }
    ok := false;
  }

  /** Skips the body of a field whose key ends at `off`. */
  method PbSkipField(buf: array<byte>, len: nat, off: nat, wire: nat) returns (ok: bool, end: nat)
    requires off <= len <= buf.Length && wire < 8
    ensures var b := buf[..len];
            ok <==> match wire
                    case 0 => ReadVarint(b, off).Some?
                    case 1 => len - off >= 8
                    case 2 => ReadVarint(b, off).Some? && ReadVarint(b, off).value.0 <= len - ReadVarint(b, off).value.1
                    case 5 => len - off >= 4
                    case _ => false
    ensures var b := buf[..len];
            ok ==> end == match wire
                          case 0 => ReadVarint(b, off).value.1
                          case 1 => off + 8
                          case 2 => ReadVarint(b, off).value.1 + ReadVarint(b, off).value.0
                          case _ => off + 4
    ensures off <= end <= len
  {
    var value: u64;
    end := off;
    match wire {
      case 0 =>
        ok, end, value := PbReadVarint(buf, len, off);
      case 1 =>
        if len - off < 8 { return false, off; }
        return true, off + 8;
      case 2 =>
        ok, end, value := PbReadVarint(buf, len, off);
        if !ok || value > len - end { return false, end; }
        end := end + value;
      case 5 =>
        if len - off < 4 { return false, off; }
        return true, off + 4;
      case _ =>
        return false, off;
    }
  }

  /** The next byte to write, and what is left of the value. */
  method NextSeptet(v: u64) returns (x: byte, rest: u64)
    ensures Varint(v) == if rest != 0 then [x] + Varint(rest) else [x]
    ensures rest != 0 ==> rest < v
  {
    x, rest := v % 0x80, v / 0x80;
    if rest != 0 {
      x := x + 0x80;
    }
  }

  /** Appends the varint of `value` at `off` when the capacity allows it. */
  method PbWriteVarint(buf: array<byte>, cap: nat, off: nat, value: u64) returns (ok: bool, end: nat)
    requires off <= cap <= buf.Length
    modifies buf
    ensures ok <==> off + |Varint(value)| <= cap
    ensures off <= end <= cap
    ensures ok ==> buf[..end] == old(buf[..off]) + Varint(value)
  {
    ghost var start := buf[..off];
    var v := value;
    var more := true;
    ok, end := true, off;
    while more
      invariant off <= end <= cap
      invariant more ==> start + Varint(value) == buf[..end] + Varint(v)
      invariant !more ==> start + Varint(value) == buf[..end]
      decreases v, more
    {
      ghost var before, was := buf[..end], v;
      var byte;
      byte, v := NextSeptet(v);
      if end >= cap {
        assert |start + Varint(value)| == end + |Varint(was)| > cap;
        return false, end;
      }
      Assoc(before, [byte], Varint(v));
      buf[end] := byte;
      end := end + 1;
      assert buf[..end] == before + [byte];
      more := v != 0;
    }
  }

  method PbWriteKey(buf: array<byte>, cap: nat, off: nat, num: u32, wire: nat) returns (ok: bool, end: nat)
    requires off <= cap <= buf.Length && wire < 8
    modifies buf
    ensures ok <==> off + |Varint(num * 8 + wire)| <= cap
    ensures off <= end <= cap
    ensures ok ==> buf[..end] == old(buf[..off]) + Varint(num * 8 + wire)
  {
    ok, end := PbWriteVarint(buf, cap, off, num * 8 + wire);
  }

  method PbWriteVarintField(buf: array<byte>, cap: nat, off: nat, num: u32, value: u64) returns (ok: bool, end: nat)
    requires off <= cap <= buf.Length
    modifies buf
    ensures ok <==> off + |VarintFieldBytes(num, value)| <= cap
    ensures off <= end <= cap
    ensures ok ==> buf[..end] == old(buf[..off]) + VarintFieldBytes(num, value)
  {
    ok, end := PbWriteKey(buf, cap, off, num, 0);
    if ok {
      ok, end := PbWriteVarint(buf, cap, end, value);
    }
  }

  /** Key and length of a length-delimited field. */
  method PbWriteLenHead(buf: array<byte>, cap: nat, off: nat, num: u32, len: nat) returns (ok: bool, end: nat)
    requires off <= cap <= buf.Length && len < TWO64
    modifies buf
    ensures ok <==> off + |Varint(num * 8 + 2)| + |Varint(len)| <= cap
    ensures off <= end <= cap
    ensures ok ==> buf[..end] == old(buf[..off]) + (Varint(num * 8 + 2) + Varint(len))
  {
    ok, end := PbWriteKey(buf, cap, off, num, 2);
    if !ok { return; }
    ok, end := PbWriteVarint(buf, cap, end, len);
    Assoc(old(buf[..off]), Varint(num * 8 + 2), Varint(len));
  }

  method PbWriteBytesField(buf: array<byte>, cap: nat, off: nat, num: u32, value: array<byte>, len: nat)
    returns (ok: bool, end: nat)
    requires off <= cap <= buf.Length && len <= value.Length && buf != value && len < TWO64
    modifies buf
    ensures ok <==> off + |LenFieldBytes(num, value[..len])| <= cap
    ensures off <= end <= cap
    ensures ok ==> buf[..end] == old(buf[..off]) + LenFieldBytes(num, value[..len])
  {
    ok, end := PbWriteLenHead(buf, cap, off, num, len);
    if !ok || cap - end < len { return false, end; }
    ghost var before := buf[..end];
    Assoc(old(buf[..off]), Varint(num * 8 + 2) + Varint(len), value[..len]);
    forall i | 0 <= i < len {
      buf[end + i] := value[i];
    }
    assert buf[..end + len] == before + value[..len];
    end := end + len;
  }
}
