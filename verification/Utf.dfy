/** UTF-8 (RFC 3629, section 3) and UTF-16 (RFC 2781, sections 2.1 and 2.2) as the FAT library
    converts between them. Or-ing of disjoint bit fields is written as a sum. */
module Utf {
  import opened Bytes

  /** A character a C string can hold. */
  type Scalar = c: int | 0 < c <= 0x10FFFF && !(0xD800 <= c <= 0xDFFF) witness 1

  function Utf8(c: Scalar): seq<byte> {
    if c < 0x80 then [c]
    else if c < 0x800 then [0xC0 + c / 0x40, 0x80 + c % 0x40]
    else if c < 0x1_0000 then [0xE0 + c / 0x1000, 0x80 + c / 0x40 % 0x40, 0x80 + c % 0x40]
    else [0xF0 + c / 0x4_0000, 0x80 + c / 0x1000 % 0x40, 0x80 + c / 0x40 % 0x40, 0x80 + c % 0x40]
  }

  function Utf16(c: int): seq<u16>
    requires 0 <= c <= 0x10_FFFF
  {
    if c < 0x1_0000 then [c] else [0xD800 + (c - 0x1_0000) / 0x400, 0xDC00 + (c - 0x1_0000) % 0x400]
  }

  /** The characters from the i-th on. */
  function Utf8From(cs: seq<Scalar>, i: nat): seq<byte>
    decreases |cs| - i
  {
    if i >= |cs| then [] else Utf8(cs[i]) + Utf8From(cs, i + 1)
  }

  function Utf16From(cs: seq<Scalar>, i: nat): seq<u16>
    decreases |cs| - i
  {
    if i >= |cs| then [] else Utf16(cs[i]) + Utf16From(cs, i + 1)
  }

  // ---------------------------------------------------------------------------------------------
  // Decoding UTF-8

  const QUESTION: int := 0x3F

  /** The byte at `i` of a C string. */
  function Char(s: seq<byte>, i: nat): byte { if i < |s| then s[i] else 0 }

  predicate Trailing(b: byte) { 0x80 <= b < 0xC0 }

  function Two(a: byte, b: byte): int { a % 0x20 * 0x40 + b % 0x40 }
  function Three(a: byte, b: byte, c: byte): int { a % 0x10 * 0x1000 + b % 0x40 * 0x40 + c % 0x40 }
  function Four(a: byte, b: byte, c: byte, d: byte): int {
    a % 8 * 0x4_0000 + b % 0x40 * 0x1000 + c % 0x40 * 0x40 + d % 0x40
  }

  predicate IsTwo(a: byte, b: byte) { a / 0x20 == 6 && Trailing(b) && Two(a, b) >= 0x80 }
  predicate IsThree(a: byte, b: byte, c: byte) {
    var cp := Three(a, b, c);
    a / 0x10 == 14 && Trailing(b) && Trailing(c) && cp >= 0x800 && !(0xD800 <= cp <= 0xDFFF)
  }
  predicate IsFour(a: byte, b: byte, c: byte, d: byte) {
    a / 8 == 30 && Trailing(b) && Trailing(c) && Trailing(d) && 0x1_0000 <= Four(a, b, c, d) <= 0x10_FFFF
  }

  datatype Decoded = Decoded(cp: int, len: nat)

  /** The character at `at`, or a question mark for a byte that begins none. */
  function DecodeNext(s: seq<byte>, at: nat): (d: Decoded)
    ensures 0 <= d.cp <= 0x10_FFFF && d.len > 0
  {
    var b0, b1, b2, b3 := Char(s, at), Char(s, at + 1), Char(s, at + 2), Char(s, at + 3);
    if b0 < 0x80 then Decoded(b0, 1)
    else if IsTwo(b0, b1) then Decoded(Two(b0, b1), 2)
    else if IsThree(b0, b1, b2) then Decoded(Three(b0, b1, b2), 3)
    else if IsFour(b0, b1, b2, b3) then Decoded(Four(b0, b1, b2, b3), 4)
    else Decoded(QUESTION, 1)
  }

  lemma TwoBytes(c: Scalar)
    requires 0x80 <= c < 0x800
    ensures IsTwo(0xC0 + c / 0x40, 0x80 + c % 0x40) && Two(0xC0 + c / 0x40, 0x80 + c % 0x40) == c
  {
  }

  lemma ThreeBytes(c: Scalar)
    requires 0x800 <= c < 0x1_0000
    ensures var a, b, d := 0xE0 + c / 0x1000, 0x80 + c / 0x40 % 0x40, 0x80 + c % 0x40;
            a / 0x20 == 7 && IsThree(a, b, d) && Three(a, b, d) == c
  {
    assert c / 0x40 / 0x40 == c / 0x1000;
  }

  /** A number and its base-64 digits. */
  lemma Digits(c: nat)
    requires c <= 0x10_FFFF
    ensures c / 0x4_0000 < 5
    ensures c == c / 0x4_0000 * 0x4_0000 + c / 0x1000 % 0x40 * 0x1000 + c / 0x40 % 0x40 * 0x40 + c % 0x40
  {
    assert c / 0x40 / 0x40 == c / 0x1000 && c / 0x1000 / 0x40 == c / 0x4_0000;
  }

  lemma FourBytes(c: Scalar)
    requires 0x1_0000 <= c
    ensures var a, b, d, e := 0xF0 + c / 0x4_0000, 0x80 + c / 0x1000 % 0x40, 0x80 + c / 0x40 % 0x40, 0x80 + c % 0x40;
            a / 0x10 == 15 && IsFour(a, b, d, e) && Four(a, b, d, e) == c
  {
    Digits(c);
    FourSum(c / 0x4_0000, c / 0x1000 % 0x40, c / 0x40 % 0x40, c % 0x40);
  }

  lemma FourSum(w: nat, x: nat, y: nat, z: nat)
    requires w < 5 && x < 0x40 && y < 0x40 && z < 0x40
    ensures (0xF0 + w) / 8 == 30
    ensures Four(0xF0 + w, 0x80 + x, 0x80 + y, 0x80 + z) == w * 0x4_0000 + x * 0x1000 + y * 0x40 + z
  {
  }

  /** The decoder reads back every encoded character and steps behind it. */
  lemma {:induction false} DecodesUtf8(s: seq<byte>, at: nat, c: Scalar)
    requires StandsAt(s, at, Utf8(c))
    ensures DecodeNext(s, at) == Decoded(c, |Utf8(c)|)
  {
    CharsStand(s, at, Utf8(c));
    if c < 0x80 {
    } else if c < 0x800 {
      TwoBytes(c);
    } else if c < 0x1_0000 {
      ThreeBytes(c);
    } else {
      FourBytes(c);
    }
  }

  lemma CharsStand(s: seq<byte>, at: nat, u: seq<byte>)
    requires StandsAt(s, at, u) && 0 < |u| <= 4
    ensures Char(s, at) == u[0] && (|u| > 1 ==> Char(s, at + 1) == u[1])
    ensures (|u| > 2 ==> Char(s, at + 2) == u[2]) && (|u| > 3 ==> Char(s, at + 3) == u[3])
  {
    assert s[at..at + |u|][0] == s[at];
    if |u| > 1 { assert s[at..at + |u|][1] == s[at + 1]; }
    if |u| > 2 { assert s[at..at + |u|][2] == s[at + 2]; }
    if |u| > 3 { assert s[at..at + |u|][3] == s[at + 3]; }
  }

  lemma TwoBack(a: byte, b: byte)
    requires IsTwo(a, b)
    ensures Two(a, b) < 0x800 && Utf8(Two(a, b)) == [a, b]
  {
    assert a == 0xC0 + a % 0x20 && b == 0x80 + b % 0x40;
  }

  lemma TrailingByte(b: byte)
    requires Trailing(b)
    ensures b == 0x80 + b % 0x40
  {
  }

  lemma ThreeDigits(x: nat, y: nat, z: nat) returns (n: nat)
    requires x < 0x10 && y < 0x40 && z < 0x40
    ensures n == x * 0x1000 + y * 0x40 + z && n / 0x1000 == x && n / 0x40 % 0x40 == y && n % 0x40 == z
  {
    n := x * 0x1000 + y * 0x40 + z;
    assert n / 0x40 == x * 0x40 + y;
  }

  lemma ThreeBack(a: byte, b: byte, c: byte)
    requires IsThree(a, b, c)
    ensures Three(a, b, c) < 0x1_0000 && Utf8(Three(a, b, c)) == [a, b, c]
  {
    TrailingByte(b);
    TrailingByte(c);
    var n := ThreeDigits(a % 0x10, b % 0x40, c % 0x40);
    assert 0xE0 + n / 0x1000 == a;
  }

  lemma DigitsOf(w: nat, x: nat, y: nat, z: nat) returns (n: nat)
    requires w < 8 && x < 0x40 && y < 0x40 && z < 0x40
    ensures n == w * 0x4_0000 + x * 0x1000 + y * 0x40 + z
    ensures n / 0x4_0000 == w && n / 0x1000 % 0x40 == x && n / 0x40 % 0x40 == y && n % 0x40 == z
  {
    n := w * 0x4_0000 + x * 0x1000 + y * 0x40 + z;
    assert n / 0x40 == w * 0x1000 + x * 0x40 + y;
    assert n / 0x1000 == w * 0x40 + x;
  }

  lemma FourBack(a: byte, b: byte, c: byte, d: byte)
    requires IsFour(a, b, c, d)
    ensures Utf8(Four(a, b, c, d)) == [a, b, c, d]
  {
    TrailingByte(b);
    TrailingByte(c);
    TrailingByte(d);
    var n := DigitsOf(a % 8, b % 0x40, c % 0x40, d % 0x40);
    assert 0xF0 + n / 0x4_0000 == a;
  }

  /** And nothing but the encoding of a character is taken for one: whatever else stands there
      counts as one bad byte. */
  lemma {:induction false} DecodeIsStrict(s: seq<byte>, at: nat)
    requires at < |s| && s[at] != 0
    ensures var d := DecodeNext(s, at);
            || (0 < d.cp <= 0x10_FFFF && !(0xD800 <= d.cp <= 0xDFFF) && StandsAt(s, at, Utf8(d.cp))
               && d.len == |Utf8(d.cp)|)
            || (d == Decoded(0x3F, 1) && forall c: Scalar :: !StandsAt(s, at, Utf8(c)))
  {
    var b0, b1, b2, b3 := Char(s, at), Char(s, at + 1), Char(s, at + 2), Char(s, at + 3);
    if b0 < 0x80 {
      assert s[at..at + 1] == [b0];
    } else if IsTwo(b0, b1) {
      TwoBack(b0, b1);
      assert s[at..at + 2] == [b0, b1];
    } else if IsThree(b0, b1, b2) {
      ThreeBack(b0, b1, b2);
      assert s[at..at + 3] == [b0, b1, b2];
    } else if IsFour(b0, b1, b2, b3) {
      FourBack(b0, b1, b2, b3);
      assert s[at..at + 4] == [b0, b1, b2, b3];
    } else {
      forall c: Scalar
        ensures !StandsAt(s, at, Utf8(c))
      {
        if StandsAt(s, at, Utf8(c)) { NotBad(s, at, c); }
      }
    }
  }

  lemma NotBad(s: seq<byte>, at: nat, c: Scalar)
    requires StandsAt(s, at, Utf8(c))
    ensures var b0, b1, b2, b3 := Char(s, at), Char(s, at + 1), Char(s, at + 2), Char(s, at + 3);
            b0 < 0x80 || IsTwo(b0, b1) || IsThree(b0, b1, b2) || IsFour(b0, b1, b2, b3)
  {
    DecodesUtf8(s, at, c);
    CharsStand(s, at, Utf8(c));
  }

  /** A C string's bytes before its NUL. */
  predicate CString(s: seq<byte>) { forall i :: 0 <= i < |s| ==> s[i] != 0 }

  /** Decodes the character at the cursor; false at the end of the string. */
  method Utf8DecodeNext(src: seq<byte>, at: nat) returns (more: bool, cp: int, next: nat)
    requires CString(src) && at <= |src|
    ensures more == (at < |src|)
    ensures more ==> cp == DecodeNext(src, at).cp && next == at + DecodeNext(src, at).len <= |src|
  {
    cp, next := 0, at;
    var a := Char(src, at);
    if a == 0 { return false, cp, next; }
    var b, c, d := Char(src, at + 1), Char(src, at + 2), Char(src, at + 3);
    more := true;
    if a < 0x80 {
      cp, next := a, at + 1;
    } else if IsTwo(a, b) {
      cp, next := Two(a, b), at + 2;
    } else if IsThree(a, b, c) {
      cp, next := Three(a, b, c), at + 3;
    } else if IsFour(a, b, c, d) {
      cp, next := Four(a, b, c, d), at + 4;
    } else {
      cp, next := QUESTION, at + 1;
    }
  }

  /** Writes a character; nothing when it does not fit. */
  method Utf8Encode(dst: array<byte>, at: nat, dstSize: nat, cp: Scalar) returns (n: nat)
    requires at + dstSize <= dst.Length
    modifies dst
    ensures n == (if |Utf8(cp)| <= dstSize then |Utf8(cp)| else 0)
    ensures n > 0 ==> dst[at..at + n] == Utf8(cp)
    ensures dst[..at] == old(dst[..at]) && dst[at + n..] == old(dst[at + n..])
  {
    if dstSize == 0 { return 0; }
    if cp <= 0x7F {
      dst[at] := cp;
      return 1;
    }
    if cp <= 0x7FF {
      if dstSize < 2 { return 0; }
      dst[at], dst[at + 1] := 0xC0 + cp / 0x40, 0x80 + cp % 0x40;
      return 2;
    }
    if cp <= 0xFFFF {
      if dstSize < 3 { return 0; }
      dst[at], dst[at + 1], dst[at + 2] := 0xE0 + cp / 0x1000, 0x80 + cp / 0x40 % 0x40, 0x80 + cp % 0x40;
      return 3;
    }
    if dstSize < 4 { return 0; }
    dst[at], dst[at + 1] := 0xF0 + cp / 0x4_0000, 0x80 + cp / 0x1000 % 0x40;
    dst[at + 2], dst[at + 3] := 0x80 + cp / 0x40 % 0x40, 0x80 + cp % 0x40;
    return 4;
  }

  // ---------------------------------------------------------------------------------------------
  // Strings

  /** The UTF-16 of a string from `at` on, cut before the first character that does not fit. */
  function Units(s: seq<byte>, at: nat, room: nat): (u: seq<u16>)
    ensures |u| <= room
    decreases |s| - at
  {
    if at >= |s| || room == 0 then []
    else
      var d := DecodeNext(s, at);
      if |Utf16(d.cp)| > room then [] else Utf16(d.cp) + Units(s, at + d.len, room - |Utf16(d.cp)|)
  }

  function UnitsAfter(s: seq<byte>, at: nat, before: seq<u16>, room: nat): seq<u16> { before + Units(s, at, room) }

  /** One character on: its units go behind those before. */
  lemma UnitsFit(s: seq<byte>, at: nat, before: seq<u16>, room: nat, d: Decoded, now: seq<u16>)
    requires at < |s| && d == DecodeNext(s, at) && now == before + Utf16(d.cp) && |now| <= |before| + room
    ensures UnitsAfter(s, at, before, room) == UnitsAfter(s, at + d.len, now, room - (|now| - |before|))
  {
    Assoc(before, Utf16(d.cp), Units(s, at + d.len, room - |Utf16(d.cp)|));
  }

  lemma UnitsFull(s: seq<byte>, at: nat, before: seq<u16>, room: nat, d: Decoded)
    requires at < |s| && d == DecodeNext(s, at) && |Utf16(d.cp)| > room
    ensures UnitsAfter(s, at, before, room) == before
  {
  }

  lemma WholeUnits(s: seq<byte>, room: nat)
    ensures UnitsAfter(s, 0, [], room) == Units(s, 0, room)
  {
  }

  /** Stores the units of a decoded value; nothing when they do not fit. */
  method PutUnits(dst: array<u16>, units: nat, dstUnits: nat, codepoint: int) returns (now: nat)
    requires units < dstUnits <= dst.Length && 0 <= codepoint <= 0x10_FFFF
    modifies dst
    ensures units <= now <= dstUnits
    ensures if now == units then units + |Utf16(codepoint)| > dstUnits && dst[..units] == old(dst[..units])
            else dst[..now] == old(dst[..units]) + Utf16(codepoint)
  {
    if codepoint > 0xFFFF {
      if units + 1 >= dstUnits { return units; }
      var cp := codepoint - 0x1_0000;
      dst[units], dst[units + 1] := 0xD800 + cp / 0x400, 0xDC00 + cp % 0x400;
      now := units + 2;
    } else {
      dst[units] := codepoint;
      now := units + 1;
    }
  }

  /** Converts the character at the cursor; `done` when it does not fit. */
  method ConvertOne(src: seq<byte>, at: nat, dst: array<u16>, units: nat, dstUnits: nat, ghost all: seq<u16>)
    returns (done: bool, next: nat, now: nat)
    requires CString(src) && at < |src| && units < dstUnits <= dst.Length
    requires UnitsAfter(src, at, dst[..units], dstUnits - units) == all
    modifies dst
    ensures at < next <= |src| && units <= now <= dstUnits
    ensures if done then now == units && dst[..units] == all
            else UnitsAfter(src, next, dst[..now], dstUnits - now) == all
  {
    var more, cp;
    more, cp, next := Utf8DecodeNext(src, at);
    ghost var before: seq<u16>, d := dst[..units], DecodeNext(src, at);
    now := PutUnits(dst, units, dstUnits, cp);
    done := now == units;
    if done {
      UnitsFull(src, at, before, dstUnits - units, d);
    } else {
      UnitsFit(src, at, before, dstUnits - units, d, dst[..now]);
    }
  }

  /** Converts a name to UTF-16. */
  method Utf8ToUtf16(src: seq<byte>, dst: array<u16>, dstUnits: nat) returns (units: nat)
    requires CString(src) && dstUnits <= dst.Length
    modifies dst
    ensures units <= dstUnits && dst[..units] == Units(src, 0, dstUnits)
  {
    units := 0;
    WholeUnits(src, dstUnits);
    ghost var all := Units(src, 0, dstUnits);
    var at, done := 0, false;
    while !done && at < |src| && units < dstUnits
      invariant at <= |src| && units <= dstUnits
      invariant if done then dst[..units] == all else UnitsAfter(src, at, dst[..units], dstUnits - units) == all
      decreases |src| - at
    {
      done, at, units := ConvertOne(src, at, dst, units, dstUnits, all);
    }
    if !done { UnitsDone(src, at, dst[..units], dstUnits - units); }
  }

  lemma UnitsDone(s: seq<byte>, at: nat, before: seq<u16>, room: nat)
    requires at >= |s| || room == 0
    ensures UnitsAfter(s, at, before, room) == before
  {
  }

  lemma UnitsOfOne(s: seq<byte>, at: nat, room: nat, c: Scalar)
    requires at < |s| && DecodeNext(s, at) == Decoded(c, |Utf8(c)|) && |Utf16(c)| <= room
    ensures Units(s, at, room) == Utf16(c) + Units(s, at + |Utf8(c)|, room - |Utf16(c)|)
  {
  }

  lemma UnitsOfFirst(s: seq<byte>, at: nat, room: nat, c: Scalar, e: seq<byte>, w: seq<u16>, next: nat, rest: seq<u16>)
    requires e == Utf8(c) && w == Utf16(c) && StandsAt(s, at, e) && |w| <= room
    requires next == at + |e| && rest == Units(s, next, room - |w|)
    ensures Units(s, at, room) == w + rest
  {
    DecodesUtf8(s, at, c);
    UnitsOfOne(s, at, room, c);
  }

  lemma SplitChars(cs: seq<Scalar>, i: nat) returns (c: seq<byte>, rest: seq<byte>, w: seq<u16>, wRest: seq<u16>)
    requires i < |cs|
    ensures c == Utf8(cs[i]) && c != [] && rest == Utf8From(cs, i + 1) && Utf8From(cs, i) == c + rest
    ensures w == Utf16(cs[i]) && wRest == Utf16From(cs, i + 1) && Utf16From(cs, i) == w + wRest
  {
    c, rest, w, wRest := Utf8(cs[i]), Utf8From(cs, i + 1), Utf16(cs[i]), Utf16From(cs, i + 1);
  }

  /** The same in front of the m-th character. */
  lemma SplitPrefix(cs: seq<Scalar>, m: nat, i: nat)
    returns (c: seq<byte>, rest: seq<byte>, w: seq<u16>, wRest: seq<u16>)
    requires i < m <= |cs|
    ensures c == Utf8(cs[i]) && rest == Utf8From(cs[..m], i + 1) && Utf8From(cs[..m], i) == c + rest
    ensures w == Utf16(cs[i]) && wRest == Utf16From(cs[..m], i + 1) && Utf16From(cs[..m], i) == w + wRest
  {
    c, rest, w, wRest := SplitChars(cs[..m], i);
  }

  /** A string of characters converts to their UTF-16, cut before the first character, the m-th, that
      does not fit. */
  lemma {:induction false} UnitsOfChars(s: seq<byte>, at: nat, cs: seq<Scalar>, i: nat, room: nat)
    returns (m: nat, u: seq<u16>)
    requires i <= |cs| && StandsAt(s, at, Utf8From(cs, i)) && at + |Utf8From(cs, i)| == |s|
    ensures i <= m <= |cs| && u == Units(s, at, room) && u == Utf16From(cs[..m], i)
    ensures |u| <= room && (m < |cs| ==> |u| + |Utf16(cs[m])| > room)
    decreases |cs| - i
  {
    m, u := i, [];
    if i < |cs| {
      var c, chars, w, units := SplitChars(cs, i);
      var next := StandsSplit(s, at, c, chars);
      if |w| <= room {
        var rest;
        m, rest := UnitsOfChars(s, next, cs, i + 1, room - |w|);
        u := UnitsOfPrefix(s, at, cs, i, m, room, c, w, next, rest);
      } else {
        NoUnits(s, at, room, cs[i], c);
      }
    }
  }

  lemma UnitsOfPrefix(s: seq<byte>, at: nat, cs: seq<Scalar>, i: nat, m: nat, room: nat, c: seq<byte>, w: seq<u16>,
                      next: nat, rest: seq<u16>)
    returns (u: seq<u16>)
    requires i < m <= |cs| && c == Utf8(cs[i]) && w == Utf16(cs[i]) && StandsAt(s, at, c) && |w| <= room
    requires next == at + |c| && rest == Units(s, next, room - |w|) && rest == Utf16From(cs[..m], i + 1)
    ensures u == w + rest && u == Units(s, at, room) && u == Utf16From(cs[..m], i)
  {
    u := w + rest;
    UnitsOfFirst(s, at, room, cs[i], c, w, next, rest);
    var d, dRest, v, vRest := SplitPrefix(cs, m, i);
  }

  lemma NoUnits(s: seq<byte>, at: nat, room: nat, c: Scalar, e: seq<byte>)
    requires e == Utf8(c) && StandsAt(s, at, e) && |Utf16(c)| > room
    ensures Units(s, at, room) == []
  {
    DecodesUtf8(s, at, c);
  }

  // ---------------------------------------------------------------------------------------------
  // Back to UTF-8

  predicate High(u: u16) { 0xD800 <= u <= 0xDBFF }
  predicate Low(u: u16) { 0xDC00 <= u <= 0xDFFF }

  /** A pair of surrogates stands at `i`. */
  predicate PairAt(u: seq<u16>, i: nat) { i + 1 < |u| && High(u[i]) && Low(u[i + 1]) }

  /** The character at `i`; a lone surrogate counts as a question mark. */
  function ScalarAt(u: seq<u16>, i: nat): Scalar
    requires i < |u| && u[i] != 0
  {
    if PairAt(u, i) then 0x1_0000 + (u[i] - 0xD800) * 0x400 + (u[i + 1] - 0xDC00)
    else if High(u[i]) || Low(u[i]) then QUESTION
    else u[i]
  }

  /** The UTF-8 of the units from `i` to the first zero, cut where the room ends. */
  function NameFrom(u: seq<u16>, i: nat, room: nat): (s: seq<byte>)
    ensures |s| <= room
    decreases |u| - i
  {
    if i >= |u| || u[i] == 0 then []
    else
      var c := Utf8(ScalarAt(u, i));
      if |c| > room then [] else c + NameFrom(u, if PairAt(u, i) then i + 2 else i + 1, room - |c|)
  }

  function NameAfter(u: seq<u16>, i: nat, before: seq<byte>, room: nat): seq<byte> { before + NameFrom(u, i, room) }

  lemma NameStep(u: seq<u16>, i: nat, before: seq<byte>, room: nat)
    requires i < |u| && u[i] != 0
    ensures var c := Utf8(ScalarAt(u, i));
            NameAfter(u, i, before, room) ==
              if |c| > room then before else NameAfter(u, if PairAt(u, i) then i + 2 else i + 1, before + c, room - |c|)
  {
    var c := Utf8(ScalarAt(u, i));
    if |c| <= room {
      Assoc(before, c, NameFrom(u, if PairAt(u, i) then i + 2 else i + 1, room - |c|));
    }
  }

  lemma WholeName(u: seq<u16>, room: nat)
    ensures NameAfter(u, 0, [], room) == NameFrom(u, 0, room)
  {
  }

  /** The character at `i` and the index behind it. */
  method NextScalar(nameUtf16: array<u16>, i: nat) returns (cp: int, next: nat)
    requires i < nameUtf16.Length && nameUtf16[i] != 0
    ensures cp == ScalarAt(nameUtf16[..], i) && next == if PairAt(nameUtf16[..], i) then i + 2 else i + 1
  {
    cp, next := nameUtf16[i], i + 1;
    if 0xD800 <= cp <= 0xDBFF && i + 1 < nameUtf16.Length && 0xDC00 <= nameUtf16[i + 1] <= 0xDFFF {
      cp := 0x1_0000 + (cp - 0xD800) * 0x400 + (nameUtf16[i + 1] - 0xDC00);
      next := next + 1;
    } else if 0xD800 <= cp <= 0xDFFF {
      cp := QUESTION;
    }
  }

  lemma NameDone(u: seq<u16>, i: nat, before: seq<byte>, room: nat)
    requires i >= |u| || u[i] == 0
    ensures NameAfter(u, i, before, room) == before
  {
  }

  /** Writes the character at `i`; `done` when it does not fit. */
  method EncodeOne(nameUtf16: array<u16>, i: nat, fileName: array<byte>, len: nat, ghost all: seq<byte>)
    returns (done: bool, next: nat, now: nat)
    requires i < nameUtf16.Length && nameUtf16[i] != 0 && len < fileName.Length
    requires NameAfter(nameUtf16[..], i, fileName[..len], fileName.Length - 1 - len) == all
    modifies fileName
    ensures i < next <= nameUtf16.Length && len <= now < fileName.Length
    ensures fileName[now..] == old(fileName[now..])
    ensures if done then now == len && fileName[..len] == all
            else NameAfter(old(nameUtf16[..]), next, fileName[..now], fileName.Length - 1 - now) == all
  {
    ghost var before: seq<byte> := fileName[..len];
    NameStep(nameUtf16[..], i, before, fileName.Length - 1 - len);
    var cp;
    cp, next := NextScalar(nameUtf16, i);
    var written := Utf8Encode(fileName, len, fileName.Length - len - 1, cp);
    done, now := written == 0, len + written;
    assert !done ==> fileName[..now] == before + Utf8(cp);
  }

  /** Writes the name held by the units into a buffer, and leaves the rest of it. */
  method EncodeName(nameUtf16: array<u16>, fileName: array<byte>) returns (len: nat)
    requires fileName.Length > 0
    modifies fileName
    ensures len < fileName.Length && fileName[..len] == NameFrom(old(nameUtf16[..]), 0, fileName.Length - 1)
    ensures fileName[len..] == old(fileName[len..])
  {
    assert (nameUtf16 as object) != fileName;
    ghost var u := nameUtf16[..];
    ghost var all := NameFrom(u, 0, fileName.Length - 1);
    WholeName(u, fileName.Length - 1);
    len := 0;
    var i, done := 0, false;
    while !done && i < nameUtf16.Length && nameUtf16[i] != 0
      invariant i <= nameUtf16.Length && len < fileName.Length && u == nameUtf16[..]
      invariant fileName[len..] == old(fileName[len..])
      invariant if done then fileName[..len] == all
                else NameAfter(u, i, fileName[..len], fileName.Length - 1 - len) == all
      decreases nameUtf16.Length - i
    {
      done, i, len := EncodeOne(nameUtf16, i, fileName, len, all);
    }
    if !done { NameDone(u, i, fileName[..len], fileName.Length - 1 - len); }
  }

  predicate UnitsStand(u: seq<u16>, at: nat, w: seq<u16>) { at + |w| <= |u| && u[at..at + |w|] == w }

  lemma UnitsStandParts(u: seq<u16>, at: nat, x: seq<u16>, y: seq<u16>)
    requires UnitsStand(u, at, x + y)
    ensures UnitsStand(u, at, x) && UnitsStand(u, at + |x|, y)
  {
    assert u[at..at + |x|] == u[at..at + |x + y|][..|x|];
    assert u[at + |x|..at + |x| + |y|] == u[at..at + |x + y|][|x|..];
  }

  lemma ScalarStands(u: seq<u16>, i: nat, c: Scalar)
    requires UnitsStand(u, i, Utf16(c))
    ensures i < |u| && u[i] != 0 && ScalarAt(u, i) == c && |Utf16(c)| == if PairAt(u, i) then 2 else 1
  {
    assert u[i..i + |Utf16(c)|][0] == u[i];
    if c >= 0x1_0000 { assert u[i..i + |Utf16(c)|][1] == u[i + 1]; }
  }

  lemma NameOfFirst(u: seq<u16>, at: nat, room: nat, c: Scalar, e: seq<byte>, w: seq<u16>, rest: seq<byte>)
    requires e == Utf8(c) && w == Utf16(c) && UnitsStand(u, at, w) && |e| <= room
    requires rest == NameFrom(u, at + |w|, room - |e|)
    ensures NameFrom(u, at, room) == e + rest
  {
    ScalarStands(u, at, c);
  }

  /** The units from `at` on, encoded in this room, are `s`. */
  predicate NameIs(u: seq<u16>, at: nat, room: nat, s: seq<byte>) { s == NameFrom(u, at, room) }

  /** The characters from the i-th on end the array or stand before a zero. */
  predicate CharsStandAt(u: seq<u16>, at: nat, cs: seq<Scalar>, i: nat) {
    UnitsStand(u, at, Utf16From(cs, i)) && var end := at + |Utf16From(cs, i)|; end == |u| || u[end] == 0
  }

  lemma FirstStands(u: seq<u16>, at: nat, cs: seq<Scalar>, i: nat) returns (e: seq<byte>, w: seq<u16>)
    requires i < |cs| && CharsStandAt(u, at, cs, i)
    ensures e == Utf8(cs[i]) && w == Utf16(cs[i]) && UnitsStand(u, at, w) && CharsStandAt(u, at + |w|, cs, i + 1)
  {
    var chars, units;
    e, chars, w, units := SplitChars(cs, i);
    UnitsStandParts(u, at, w, units);
  }

  /** Such characters are read back, up to the first, the n-th, for which there is no room. */
  lemma {:induction false} CharsReadBack(u: seq<u16>, at: nat, cs: seq<Scalar>, i: nat, room: nat)
    returns (n: nat, s: seq<byte>)
    requires i <= |cs| && CharsStandAt(u, at, cs, i)
    ensures i <= n <= |cs| && NameIs(u, at, room, s) && s == Utf8From(cs[..n], i)
    ensures |s| <= room && (n < |cs| ==> |s| + |Utf8(cs[n])| > room)
    decreases |cs| - i
  {
    n, s := i, [];
    if i < |cs| {
      var e, w := FirstStands(u, at, cs, i);
      if |e| <= room {
        var rest;
        n, rest := CharsReadBack(u, at + |w|, cs, i + 1, room - |e|);
        s := NameOfPrefix(u, at, cs, i, n, room, e, w, rest);
      } else {
        NoName(u, at, room, cs[i], e, w);
      }
    }
  }

  lemma NoName(u: seq<u16>, at: nat, room: nat, c: Scalar, e: seq<byte>, w: seq<u16>)
    requires e == Utf8(c) && w == Utf16(c) && UnitsStand(u, at, w) && |e| > room
    ensures NameIs(u, at, room, [])
  {
    ScalarStands(u, at, c);
  }

  lemma NameOfPrefix(u: seq<u16>, at: nat, cs: seq<Scalar>, i: nat, n: nat, room: nat, e: seq<byte>, w: seq<u16>,
                     rest: seq<byte>)
    returns (s: seq<byte>)
    requires i < n <= |cs| && e == Utf8(cs[i]) && w == Utf16(cs[i]) && UnitsStand(u, at, w) && |e| <= room
    requires NameIs(u, at + |w|, room - |e|, rest) && rest == Utf8From(cs[..n], i + 1)
    ensures s == e + rest && NameIs(u, at, room, s) && s == Utf8From(cs[..n], i)
  {
    s := e + rest;
    NameOfFirst(u, at, room, cs[i], e, w, rest);
    var d, dRest, v, vRest := SplitPrefix(cs, n, i);
  }
}
