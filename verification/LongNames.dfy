/** FAT long file names: packed into directory entries by file creation, and read back by name lookup. */
module LongNames {
  import opened Bytes
  import opened Utf
  import FatTable
  import FatFiles

  const ENTRY: nat := 32
  const ENTRIES: nat := 16
  const PER_ENTRY: nat := 13
  const UNITS_MAX: nat := 255
  const FILE_NAME_SIZE: nat := 512
  const ATTR_LONG_FILE_NAME: byte := 0x0F
  const LAST_LONG_ENTRY: nat := 0x40

  /** Where the i-th of an entry's 13 name units stands. */
  function SlotOffset(i: nat): (o: nat)
    requires i < PER_ENTRY
    ensures o < 31 && o !in {0, 11, 12, 13, 26, 27} && o + 1 !in {0, 11, 12, 13, 26, 27}
  {
    if i < 5 then 1 + 2 * i else if i < 11 then 14 + 2 * (i - 5) else 28 + 2 * (i - 11)
  }

  /** The three name fields of an entry, joined. */
  function NameBytes(b: seq<byte>, pos: nat): (r: seq<byte>)
    requires pos + 32 <= |b|
    ensures |r| == 26
  {
    b[pos + 1..pos + 11] + b[pos + 14..pos + 26] + b[pos + 28..pos + 32]
  }

  /** The i-th little-endian word of a string. */
  function Word(s: seq<byte>, i: nat): u16
    requires 2 * i + 1 < |s|
  {
    (s[2 * i] as int) + 0x100 * (s[2 * i + 1] as int)
  }

  /** The i-th of an entry's 13 name units. */
  function SlotAt(b: seq<byte>, pos: nat, i: nat): u16
    requires pos + ENTRY <= |b| && i < PER_ENTRY
  {
    Word(NameBytes(b, pos), i)
  }

  /** Where that word stands. */
  lemma SlotStands(b: seq<byte>, pos: nat, i: nat)
    requires pos + ENTRY <= |b| && i < PER_ENTRY
    ensures SlotAt(b, pos, i) == Word16(b[pos + SlotOffset(i)], b[pos + SlotOffset(i) + 1])
  {
    var s, at := NameBytes(b, pos), pos + SlotOffset(i);
    assert s[2 * i] == b[at] && s[2 * i + 1] == b[at + 1];
  }

  /** Each name byte belongs to one word. */
  lemma SlotsApart(i: nat, k: nat)
    requires i < PER_ENTRY && k < PER_ENTRY && i != k
    ensures SlotOffset(i) + 1 < SlotOffset(k) || SlotOffset(k) + 1 < SlotOffset(i)
  {
  }

  /** What the entries hold at index `j` of the name: its units, a zero behind them, then ones. */
  function UnitValue(units: seq<u16>, j: nat): u16 {
    if j < |units| then units[j] else if j == |units| then 0 else 0xFFFF
  }

  function EntryCount(n: nat): nat { if n % PER_ENTRY != 0 then n / PER_ENTRY + 1 else n / PER_ENTRY }

  /** The entry with this ordinal, of `cnt`, stands at `pos`. */
  predicate EntryAt(b: seq<byte>, pos: nat, units: seq<u16>, ord: nat, cnt: nat, chksum: byte) {
    && pos + ENTRY <= |b| && ord > 0
    && b[pos] == ord + (if ord == cnt then LAST_LONG_ENTRY else 0)
    && b[pos + 11] == ATTR_LONG_FILE_NAME && b[pos + 12] == 0 && b[pos + 13] == chksum
    && b[pos + 26] == 0 && b[pos + 27] == 0
    && forall i :: 0 <= i < PER_ENTRY ==> SlotAt(b, pos, i) == UnitValue(units, PER_ENTRY * (ord - 1) + i)
  }

  /** The entries of a name stand from the e-th on, the last ordinal first. */
  predicate EntryOf(b: seq<byte>, e: nat, units: seq<u16>, ord: nat, chksum: byte) {
    var cnt := EntryCount(|units|);
    0 < ord <= cnt && EntryAt(b, ENTRY * (e + cnt - ord), units, ord, cnt, chksum)
  }

  /** An entry byte by byte: its ordinal, with 0x40 on the last one, and its name units in order, little
      endian, with a zero behind the name and then ones, around the fixed bytes. */
  lemma EntryLayout(b: seq<byte>, pos: nat, units: seq<u16>, ord: nat, cnt: nat, chksum: byte) returns (s: seq<byte>)
    requires EntryAt(b, pos, units, ord, cnt, chksum)
    ensures pos + 32 <= |b| && s == b[pos + 1..pos + 11] + b[pos + 14..pos + 26] + b[pos + 28..pos + 32] && |s| == 26
    ensures b[pos] == (if ord == cnt then ord + 0x40 else ord)
    ensures b[pos + 11..pos + 14] == [0x0F, 0, chksum] && b[pos + 26..pos + 28] == [0, 0]
    ensures forall i :: 0 <= i < 13 ==>
              var j := 13 * (ord - 1) + i;
              && (j < |units| ==> s[2 * i] == units[j] % 0x100 && s[2 * i + 1] == units[j] / 0x100)
              && (j == |units| ==> s[2 * i] == 0 && s[2 * i + 1] == 0)
              && (j > |units| ==> s[2 * i] == 0xFF && s[2 * i + 1] == 0xFF)
  {
    s := NameBytes(b, pos);
    forall i | 0 <= i < 13
      ensures (s[2 * i] as int) + 0x100 * (s[2 * i + 1] as int) == UnitValue(units, 13 * (ord - 1) + i)
    {
      assert SlotAt(b, pos, i) == UnitValue(units, PER_ENTRY * (ord - 1) + i);
    }
  }

  predicate RunAt(b: seq<byte>, e: nat, units: seq<u16>, chksum: byte) {
    forall ord :: 0 < ord <= EntryCount(|units|) ==> EntryOf(b, e, units, ord, chksum)
  }

  // ---------------------------------------------------------------------------------------------
  // Writing

  method WriteNameSlot(sdBuffer: array<byte>, pos: nat, i: nat, value: u16)
    requires sdBuffer.Length == FatTable.SECTOR && pos + ENTRY <= FatTable.SECTOR && i < PER_ENTRY
    modifies sdBuffer
    ensures SlotAt(sdBuffer[..], pos, i) == value
    ensures forall k :: 0 <= k < PER_ENTRY && k != i ==>
              SlotAt(sdBuffer[..], pos, k) == old(SlotAt(sdBuffer[..], pos, k))
    ensures forall k :: 0 <= k < FatTable.SECTOR && k != pos + SlotOffset(i) && k != pos + SlotOffset(i) + 1 ==>
              sdBuffer[k] == old(sdBuffer[k])
  {
    var at := pos + SlotOffset(i);
    ghost var was: seq<byte> := sdBuffer[..];
    sdBuffer[at], sdBuffer[at + 1] := value % 0x100, value / 0x100;
    SlotStands(sdBuffer[..], pos, i);
    forall k | 0 <= k < PER_ENTRY && k != i
      ensures SlotAt(sdBuffer[..], pos, k) == SlotAt(was, pos, k)
    {
      SlotsApart(i, k);
      SlotStands(was, pos, k);
      SlotStands(sdBuffer[..], pos, k);
    }
  }

  /** Writes one entry. */
  method WriteEntry(sdBuffer: array<byte>, pos: nat, units: seq<u16>, ord: nat, cnt: nat, chksum: byte)
    requires sdBuffer.Length == FatTable.SECTOR && pos + ENTRY <= FatTable.SECTOR && 0 < ord <= cnt <= ENTRIES
    modifies sdBuffer
    ensures EntryAt(sdBuffer[..], pos, units, ord, cnt, chksum)
    ensures forall k :: 0 <= k < FatTable.SECTOR && !(pos <= k < pos + ENTRY) ==> sdBuffer[k] == old(sdBuffer[k])
  {
    sdBuffer[pos] := if ord == cnt then ord + LAST_LONG_ENTRY else ord;
    sdBuffer[pos + 11], sdBuffer[pos + 12], sdBuffer[pos + 13] := ATTR_LONG_FILE_NAME, 0, chksum;
    sdBuffer[pos + 26], sdBuffer[pos + 27] := 0, 0;
    var base := PER_ENTRY * (ord - 1);
    var i := 0;
    while i < PER_ENTRY
      invariant i <= PER_ENTRY
      invariant sdBuffer[pos] == ord + (if ord == cnt then LAST_LONG_ENTRY else 0)
      invariant sdBuffer[pos + 11] == ATTR_LONG_FILE_NAME && sdBuffer[pos + 12] == 0 && sdBuffer[pos + 13] == chksum
      invariant sdBuffer[pos + 26] == 0 && sdBuffer[pos + 27] == 0
      invariant forall k :: 0 <= k < i ==> SlotAt(sdBuffer[..], pos, k) == UnitValue(units, base + k)
      invariant forall k :: 0 <= k < FatTable.SECTOR && !(pos <= k < pos + ENTRY) ==> sdBuffer[k] == old(sdBuffer[k])
    {
      var value: u16 := 0xFFFF;
      if base + i < |units| {
        value := units[base + i];
      } else if base + i == |units| {
        value := 0;
      }
      WriteNameSlot(sdBuffer, pos, i, value);
      i := i + 1;
    }
  }

  /** Bytes outside the e-th to the (e + n - 1)-th entry are as before. */
  predicate SameOutside(b: seq<byte>, was: seq<byte>, e: nat, n: nat) {
    |b| == |was| && forall k :: 0 <= k < |b| && !(ENTRY * e <= k < ENTRY * (e + n)) ==> b[k] == was[k]
  }

  lemma NameMoved(was: seq<byte>, pos: nat, now: seq<byte>, pos': nat)
    requires pos + ENTRY <= |was| && pos' + ENTRY <= |now|
    requires forall x :: pos' <= x < pos' + ENTRY ==> now[x] == was[x - pos' + pos]
    ensures NameBytes(now, pos') == NameBytes(was, pos)
  {
  }

  /** Bytes of an entry make the same entry elsewhere. */
  lemma EntryMoved(was: seq<byte>, pos: nat, now: seq<byte>, pos': nat, units: seq<u16>, ord: nat, cnt: nat,
                   chksum: byte)
    requires EntryAt(was, pos, units, ord, cnt, chksum)
    requires pos' + ENTRY <= |now| && forall x :: pos' <= x < pos' + ENTRY ==> now[x] == was[x - pos' + pos]
    ensures EntryAt(now, pos', units, ord, cnt, chksum)
  {
    NameMoved(was, pos, now, pos');
    forall i | 0 <= i < PER_ENTRY
      ensures SlotAt(now, pos', i) == UnitValue(units, PER_ENTRY * (ord - 1) + i)
    {
      assert SlotAt(was, pos, i) == UnitValue(units, PER_ENTRY * (ord - 1) + i);
    }
  }

  /** Writes the entry with ordinal `ord` of a run, and leaves the others. */
  method WriteOrdinal(sdBuffer: array<byte>, e: nat, units: seq<u16>, ord: nat, chksum: byte)
    requires sdBuffer.Length == FatTable.SECTOR && e + EntryCount(|units|) < ENTRIES && 0 < ord <= EntryCount(|units|)
    modifies sdBuffer
    ensures EntryOf(sdBuffer[..], e, units, ord, chksum)
    ensures forall o :: 0 < o < ord && old(EntryOf(sdBuffer[..], e, units, o, chksum)) ==>
              EntryOf(sdBuffer[..], e, units, o, chksum)
    ensures SameOutside(sdBuffer[..], old(sdBuffer[..]), e, EntryCount(|units|))
  {
    var cnt := EntryCount(|units|);
    var pos := ENTRY * (e + cnt - ord);
    ghost var was: seq<byte> := sdBuffer[..];
    WriteEntry(sdBuffer, pos, units, ord, cnt, chksum);
    forall o | 0 < o < ord && EntryOf(was, e, units, o, chksum)
      ensures EntryOf(sdBuffer[..], e, units, o, chksum)
    {
      var at := ENTRY * (e + cnt - o);
      EntryMoved(was, at, sdBuffer[..], at, units, o, cnt, chksum);
    }
  }

  /** Writes the entries of a name from the e-th on. */
  method WriteRun(sdBuffer: array<byte>, e: nat, units: seq<u16>, chksum: byte) returns (cnt: nat)
    requires sdBuffer.Length == FatTable.SECTOR && e + EntryCount(|units|) < ENTRIES
    modifies sdBuffer
    ensures cnt == EntryCount(|units|) && RunAt(sdBuffer[..], e, units, chksum)
    ensures SameOutside(sdBuffer[..], old(sdBuffer[..]), e, cnt)
  {
    cnt := |units| / PER_ENTRY;
    if |units| % PER_ENTRY != 0 {
      cnt := cnt + 1;
    }
    var left := cnt;
    while left > 0
      invariant left <= cnt
      invariant forall o :: 0 < o <= cnt - left ==> EntryOf(sdBuffer[..], e, units, o, chksum)
      invariant SameOutside(sdBuffer[..], old(sdBuffer[..]), e, cnt)
    {
      WriteOrdinal(sdBuffer, e, units, cnt - left + 1, chksum);
      left := left - 1;
    }
  }

  // ---------------------------------------------------------------------------------------------
  // Reading

  /** The name after the slots from the i-th on of an entry, up to a zero or a unit of ones. */
  function WithSlots(name: seq<u16>, b: seq<byte>, pos: nat, base: nat, i: nat): (r: seq<u16>)
    requires |name| == UNITS_MAX && pos + ENTRY <= |b|
    ensures |r| == UNITS_MAX
    decreases PER_ENTRY - i
  {
    if i >= PER_ENTRY || base + i >= UNITS_MAX then name
    else
      var ch := SlotAt(b, pos, i);
      if ch == 0 || ch == 0xFFFF then name else WithSlots(name[base + i := ch], b, pos, base, i + 1)
  }

  /** The name after an entry, which goes where its ordinal says. */
  function WithEntry(name: seq<u16>, b: seq<byte>, pos: nat): (r: seq<u16>)
    requires |name| == UNITS_MAX && pos + ENTRY <= |b|
    ensures |r| == UNITS_MAX
  {
    var ordinal := b[pos] % 0x20;
    if ordinal == 0 then name else WithSlots(name, b, pos, (ordinal - 1) * PER_ENTRY, 0)
  }

  /** The name after `cnt` entries from the e-th on, or after those there are. */
  function WithRun(name: seq<u16>, b: seq<byte>, e: nat, cnt: nat): (r: seq<u16>)
    requires |name| == UNITS_MAX
    ensures |r| == UNITS_MAX
    decreases cnt
  {
    if cnt == 0 || ENTRY * (e + 1) > |b| then name else WithRun(WithEntry(name, b, ENTRY * e), b, e + 1, cnt - 1)
  }

  function Blank(): (z: seq<u16>)
    ensures |z| == UNITS_MAX && forall j :: 0 <= j < UNITS_MAX ==> z[j] == 0
  {
    seq(UNITS_MAX, i => 0)
  }

  method ReadNameSlot(sdBuffer: array<byte>, pos: nat, i: nat) returns (value: u16)
    requires sdBuffer.Length == FatTable.SECTOR && pos + ENTRY <= FatTable.SECTOR && i < PER_ENTRY
    ensures value == SlotAt(sdBuffer[..], pos, i)
  {
    var at := pos + SlotOffset(i);
    value := Word16(sdBuffer[at], sdBuffer[at + 1]);
    SlotStands(sdBuffer[..], pos, i);
  }

  method ReadEntry(sdBuffer: array<byte>, pos: nat, nameUtf16: array<u16>)
    requires sdBuffer.Length == FatTable.SECTOR && pos + ENTRY <= FatTable.SECTOR && nameUtf16.Length == UNITS_MAX
    modifies nameUtf16
    ensures nameUtf16[..] == old(WithEntry(nameUtf16[..], sdBuffer[..], pos))
  {
    assert (sdBuffer as object) != nameUtf16;
    var ordinal := sdBuffer[pos] % 0x20;
    if ordinal > 0 {
      var base := (ordinal - 1) * PER_ENTRY;
      ghost var b, all := sdBuffer[..], WithSlots(nameUtf16[..], sdBuffer[..], pos, base, 0);
      var i := 0;
      while i < PER_ENTRY && base + i < UNITS_MAX
        invariant i <= PER_ENTRY && b == sdBuffer[..]
        invariant SlotsLead(nameUtf16[..], b, pos, base, i, all)
      {
        var ch := ReadNameSlot(sdBuffer, pos, i);
        ghost var name: seq<u16> := nameUtf16[..];
        SlotStep(name, b, pos, base, i, ch, all);
        if ch == 0 || ch == 0xFFFF { return; }
        nameUtf16[base + i] := ch;
        assert nameUtf16[..] == name[base + i := ch];
        i := i + 1;
      }
      SlotsEnd(nameUtf16[..], b, pos, base, i, all);
    }
  }

  /** The slots from the i-th on, read on top of the name, give `all`. */
  ghost predicate SlotsLead(name: seq<u16>, b: seq<byte>, pos: nat, base: nat, i: nat, all: seq<u16>) {
    && |name| == UNITS_MAX && pos + ENTRY <= |b|
    && forall k {:trigger WithSlots(name, b, pos, base, k)} :: k == i ==> WithSlots(name, b, pos, base, k) == all
  }

  lemma SlotStep(name: seq<u16>, b: seq<byte>, pos: nat, base: nat, i: nat, ch: u16, all: seq<u16>)
    requires SlotsLead(name, b, pos, base, i, all) && i < PER_ENTRY && base + i < UNITS_MAX && ch == SlotAt(b, pos, i)
    ensures if ch == 0 || ch == 0xFFFF then name == all
            else SlotsLead(name[base + i := ch], b, pos, base, i + 1, all)
  {
    assert WithSlots(name, b, pos, base, i) == all;
  }

  lemma SlotsEnd(name: seq<u16>, b: seq<byte>, pos: nat, base: nat, i: nat, all: seq<u16>)
    requires SlotsLead(name, b, pos, base, i, all) && (i >= PER_ENTRY || base + i >= UNITS_MAX)
    ensures name == all
  {
    assert WithSlots(name, b, pos, base, i) == all;
  }

  lemma SlotAlike(b: seq<byte>, pos: nat, b': seq<byte>, pos': nat, i: nat)
    requires pos + ENTRY <= |b| && pos' + ENTRY <= |b'| && i < PER_ENTRY && NameBytes(b, pos) == NameBytes(b', pos')
    ensures SlotAt(b, pos, i) == SlotAt(b', pos', i)
  {
  }

  /** Bytes that are the same are read the same, wherever they stand. */
  lemma {:induction false} SlotsAlike(name: seq<u16>, b: seq<byte>, pos: nat, b': seq<byte>, pos': nat, base: nat,
                                      i: nat)
    requires |name| == UNITS_MAX && pos + ENTRY <= |b| && pos' + ENTRY <= |b'|
    requires NameBytes(b, pos) == NameBytes(b', pos')
    ensures WithSlots(name, b, pos, base, i) == WithSlots(name, b', pos', base, i)
    decreases PER_ENTRY - i
  {
    if i < PER_ENTRY && base + i < UNITS_MAX {
      var ch := SlotAt(b, pos, i);
      SlotAlike(b, pos, b', pos', i);
      SlotsAlike(name[base + i := ch], b, pos, b', pos', base, i + 1);
    }
  }

  /** Reading puts the words of an entry's name fields in order behind 13 * (ordinal - 1), as many as
      stand before a zero, ones or the end of the name, and changes nothing else. */
  lemma EntryPut(name: seq<u16>, b: seq<byte>, pos: nat) returns (s: seq<byte>, base: int, n: nat, r: seq<u16>)
    requires |name| == 255 && pos + 32 <= |b|
    ensures s == b[pos + 1..pos + 11] + b[pos + 14..pos + 26] + b[pos + 28..pos + 32] && |s| == 26
    ensures base == 13 * (b[pos] as int % 0x20 - 1) && n <= 13 && r == WithEntry(name, b, pos) && |r| == 255
    ensures if base < 0 then n == 0 else n == 13 || base + n >= 255 || Word(s, n) in {0, 0xFFFF}
    ensures n > 0 ==> base + n <= 255
    ensures forall i :: 0 <= i < n ==> r[base + i] == Word(s, i) && r[base + i] !in {0, 0xFFFF}
    ensures forall j :: 0 <= j < 255 && !(base <= j < base + n) ==> r[j] == name[j]
  {
    s, r, n, base := NameBytes(b, pos), WithEntry(name, b, pos), 0, 13 * (b[pos] as int % 0x20 - 1);
    if base >= 0 {
      n := SlotsPut(name, b, pos, base, 0);
      forall i | 0 <= i < n
        ensures r[base + i] == Word(s, i) && r[base + i] != 0 && r[base + i] != 0xFFFF
      {
        assert r[base + i] == SlotAt(b, pos, i);
      }
      if n < PER_ENTRY { assert SlotAt(b, pos, n) == Word(s, n); }
    }
  }

  lemma {:induction false} SlotsPut(name: seq<u16>, b: seq<byte>, pos: nat, base: nat, i: nat) returns (n: nat)
    requires |name| == UNITS_MAX && pos + ENTRY <= |b| && i <= PER_ENTRY
    ensures var r := WithSlots(name, b, pos, base, i);
            && i <= n <= PER_ENTRY && (n > i ==> base + n <= UNITS_MAX)
            && (forall k :: i <= k < n ==> r[base + k] == SlotAt(b, pos, k))
            && (forall j :: 0 <= j < UNITS_MAX && !(base + i <= j < base + n) ==> r[j] == name[j])
            && (forall k :: i <= k < n ==> SlotAt(b, pos, k) != 0 && SlotAt(b, pos, k) != 0xFFFF)
            && (n < PER_ENTRY && base + n < UNITS_MAX ==> SlotAt(b, pos, n) == 0 || SlotAt(b, pos, n) == 0xFFFF)
    decreases PER_ENTRY - i
  {
    n := i;
    if i < PER_ENTRY && base + i < UNITS_MAX {
      var ch := SlotAt(b, pos, i);
      if ch != 0 && ch != 0xFFFF { n := SlotsPut(name[base + i := ch], b, pos, base, i + 1); }
    }
  }

  lemma EntriesAlike(name: seq<u16>, b: seq<byte>, pos: nat, b': seq<byte>, pos': nat)
    requires |name| == UNITS_MAX && pos + ENTRY <= |b| && pos' + ENTRY <= |b'|
    requires b[pos..pos + ENTRY] == b'[pos'..pos' + ENTRY]
    ensures WithEntry(name, b, pos) == WithEntry(name, b', pos')
  {
    forall x | pos <= x < pos + ENTRY
      ensures b[x] == b'[x - pos + pos']
    {
      assert b[pos..pos + ENTRY][x - pos] == b'[pos'..pos' + ENTRY][x - pos];
    }
    NameMoved(b', pos', b, pos);
    if b[pos] % 0x20 > 0 {
      SlotsAlike(name, b, pos, b', pos', (b[pos] % 0x20 - 1) * PER_ENTRY, 0);
    }
  }

  /** The buffer holds the s-th sector of the k-th cluster of a directory. */
  ghost predicate AtSector(vol: FatTable.Volume, chain: seq<nat>, k: nat, s: nat, cluster: int)
    reads vol, vol.sdBuffer
  {
    && vol.Valid() && FatTable.Chain(vol.g, vol.disk, chain) && FatFiles.InRange(vol.g, chain)
    && k < |chain| && cluster == chain[k] && s < vol.g.secPerClus
    && vol.sdBuffer[..] == FatFiles.SectorOf(vol.g, vol.disk, chain[k], s)
  }

  /** What is left of the directory from the e-th entry of a sector on. */
  ghost function DirFrom(vol: FatTable.Volume, chain: seq<nat>, k: nat, s: nat, e: nat): seq<byte>
    requires vol.Valid() && FatFiles.InRange(vol.g, chain) && k < |chain| && s < vol.g.secPerClus && e < ENTRIES
    reads vol
  {
    FatFiles.Rest(vol.g, vol.disk, chain, k, s, ENTRY * e)
  }

  /** It is the rest of the sector and what follows. */
  lemma DirParts(vol: FatTable.Volume, chain: seq<nat>, k: nat, s: nat, e: nat) returns (b: seq<byte>, more: seq<byte>)
    requires vol.Valid() && FatFiles.InRange(vol.g, chain) && k < |chain| && s < vol.g.secPerClus && e < ENTRIES
    ensures b == FatFiles.SectorOf(vol.g, vol.disk, chain[k], s) && |b| == FatTable.SECTOR
    ensures DirFrom(vol, chain, k, s, e) == b[ENTRY * e..] + more
    ensures FatFiles.Rest(vol.g, vol.disk, chain, k, s, ENTRY * e + ENTRY) == b[ENTRY * e + ENTRY..] + more
  {
    b := FatFiles.SectorOf(vol.g, vol.disk, chain[k], s);
    more := FatFiles.SectorsFrom(vol.g, vol.disk, chain[k], s + 1)
            + FatFiles.ClustersFrom(vol.g, vol.disk, chain, k + 1);
  }

  /** The entry at the cursor comes first in what is left. */
  lemma FirstEntry(vol: FatTable.Volume, chain: seq<nat>, k: nat, s: nat, e: nat)
    requires vol.Valid() && FatFiles.InRange(vol.g, chain) && k < |chain| && s < vol.g.secPerClus && e < ENTRIES
    ensures var b, o, rest := FatFiles.SectorOf(vol.g, vol.disk, chain[k], s), ENTRY * e, DirFrom(vol, chain, k, s, e);
            && o + ENTRY <= FatTable.SECTOR && |rest| >= ENTRY && rest[..ENTRY] == b[o..o + ENTRY]
            && rest[ENTRY..] == FatFiles.Rest(vol.g, vol.disk, chain, k, s, o + ENTRY)
  {
    var b, more := DirParts(vol, chain, k, s, e);
    SplitFront(b, ENTRY * e, more);
  }

  lemma SplitFront(b: seq<byte>, o: nat, more: seq<byte>)
    requires o + ENTRY <= |b|
    ensures (b[o..] + more)[..ENTRY] == b[o..o + ENTRY] && (b[o..] + more)[ENTRY..] == b[o + ENTRY..] + more
  {
  }

  /** Reads a sector of a directory. */
  method LoadDirSector(vol: FatTable.Volume, s: nat, cluster: u32, ghost chain: seq<nat>, ghost k: nat)
    requires vol.Valid() && FatTable.Chain(vol.g, vol.disk, chain) && FatFiles.InRange(vol.g, chain)
    requires k < |chain| && cluster == chain[k] && s < vol.g.secPerClus
    modifies vol.sdBuffer
    ensures AtSector(vol, chain, k, s, cluster)
  {
    FatFiles.SectorOnDisk(vol.g, vol.disk, chain[k], s);
    vol.ReadSector(vol.g.dataStart + (cluster - 2) * vol.g.secPerClus + s);
  }

  /** At the end of a sector of a directory: reads the next one, in the next cluster of the chain if
      this one is used up; false at the end of the chain. */
  method NextDirSector(vol: FatTable.Volume, sectorIndex: nat, currentCluster: u32, ghost chain: seq<nat>, ghost k: nat)
    returns (more: bool, s: nat, cluster: u32, ghost l: nat)
    requires AtSector(vol, chain, k, sectorIndex, currentCluster)
    modifies vol.sdBuffer
    ensures vol.Valid()
    ensures var rest := FatFiles.Rest(vol.g, vol.disk, chain, k, sectorIndex, FatTable.SECTOR);
            if more then AtSector(vol, chain, l, s, cluster) && FatFiles.Rest(vol.g, vol.disk, chain, l, s, 0) == rest
            else rest == []
  {
    more, s, cluster, l := true, sectorIndex + 1, currentCluster, k;
    if s == vol.g.secPerClus {
      FatFiles.RestCluster(vol.g, vol.disk, chain, k);
      assert FatTable.LinkAt(vol.g, vol.disk, chain, k);
      s := 0;
      cluster := vol.FatNextCluster(cluster);
      if cluster >= FatTable.FAT_EOC {
        more := false;
        return;
      }
      l := k + 1;
      FatFiles.RestStart(vol.g, vol.disk, chain, l);
    } else {
      FatFiles.RestSector(vol.g, vol.disk, chain, k, sectorIndex);
    }
    LoadDirSector(vol, s, cluster, chain, l);
  }

  /** Moves to the next entry of a directory; false at its end. */
  method DirNextEntryExists(vol: FatTable.Volume, entryIndex: nat, sectorIndex: nat, currentCluster: u32,
                            ghost chain: seq<nat>, ghost k: nat)
    returns (more: bool, e: nat, s: nat, cluster: u32, ghost l: nat)
    requires AtSector(vol, chain, k, sectorIndex, currentCluster)
    modifies vol.sdBuffer
    ensures vol.Valid()
    ensures var rest := DirFrom(vol, chain, k, sectorIndex, entryIndex % ENTRIES);
            && |rest| >= ENTRY
            && if more then AtSector(vol, chain, l, s, cluster) && e == entryIndex + 1
                            && DirFrom(vol, chain, l, s, e % ENTRIES) == rest[ENTRY..]
               else e == 2 && rest[ENTRY..] == []
  {
    FirstEntry(vol, chain, k, sectorIndex, entryIndex % ENTRIES);
    NextOffset(entryIndex);
    more, e, s, cluster, l := true, entryIndex + 1, sectorIndex, currentCluster, k;
    if e % ENTRIES == 0 {
      more, s, cluster, l := NextDirSector(vol, sectorIndex, currentCluster, chain, k);
      if !more { e := 2; }
    }
  }

  lemma NextOffset(e: nat)
    ensures (e + 1) % ENTRIES == if e % ENTRIES == ENTRIES - 1 then 0 else e % ENTRIES + 1
  {
  }

  /** The cursor is at the t-th entry of `rest`. */
  ghost predicate AtEntry(vol: FatTable.Volume, chain: seq<nat>, rest: seq<byte>, t: nat, k: nat, s: nat, e: nat,
                          cluster: int)
    reads vol, vol.sdBuffer
  {
    && AtSector(vol, chain, k, s, cluster) && ENTRY * t <= |rest|
    && DirFrom(vol, chain, k, s, e % ENTRIES) == rest[ENTRY * t..]
  }

  /** Reads the entry at the cursor. */
  method ReadAtCursor(vol: FatTable.Volume, entryIndex: nat, nameUtf16: array<u16>,
                      ghost rest: seq<byte>, ghost t: nat, ghost chain: seq<nat>, ghost k: nat, ghost s: nat,
                      ghost cluster: int)
    requires AtEntry(vol, chain, rest, t, k, s, entryIndex, cluster) && nameUtf16.Length == UNITS_MAX
    modifies nameUtf16
    ensures AtEntry(vol, chain, rest, t, k, s, entryIndex, cluster)
    ensures ENTRY * (t + 1) <= |rest| && nameUtf16[..] == WithEntry(old(nameUtf16[..]), rest, ENTRY * t)
  {
    assert (vol.sdBuffer as object) != nameUtf16;
    FirstEntry(vol, chain, k, s, entryIndex % ENTRIES);
    ghost var b, o := vol.sdBuffer[..], ENTRY * (entryIndex % ENTRIES);
    assert rest[ENTRY * t..][..ENTRY] == rest[ENTRY * t..ENTRY * t + ENTRY];
    EntriesAlike(nameUtf16[..], b, o, rest, ENTRY * t);
    ReadEntry(vol.sdBuffer, ENTRY * (entryIndex % ENTRIES), nameUtf16);
  }

  /** The entries still to read, on top of the name, give `goal`. */
  ghost predicate Leads(name: seq<u16>, rest: seq<byte>, t: nat, left: nat, goal: seq<u16>) {
    |name| == UNITS_MAX
    && forall n {:trigger WithRun(name, rest, t, n)} :: n == left ==> WithRun(name, rest, t, n) == goal
  }

  lemma LedTo(name: seq<u16>, rest: seq<byte>, t: nat, goal: seq<u16>)
    requires Leads(name, rest, t, 0, goal)
    ensures name == goal
  {
    assert WithRun(name, rest, t, 0) == goal;
  }

  /** One turn of collecting: reads the entry at the cursor and moves on. */
  method ReadNext(vol: FatTable.Volume, entryIndex: nat, sectorIndex: nat, currentCluster: u32, nameUtf16: array<u16>,
                  ghost rest: seq<byte>, ghost t: nat, ghost left: nat, ghost goal: seq<u16>, ghost chain: seq<nat>,
                  ghost k: nat)
    returns (more: bool, e: nat, s: nat, cluster: u32, ghost l: nat)
    requires AtEntry(vol, chain, rest, t, k, sectorIndex, entryIndex, currentCluster) && nameUtf16.Length == UNITS_MAX
    requires left > 0 && Leads(nameUtf16[..], rest, t, left, goal)
    modifies vol.sdBuffer, nameUtf16
    ensures if more then AtEntry(vol, chain, rest, t + 1, l, s, e, cluster)
                         && Leads(nameUtf16[..], rest, t + 1, left - 1, goal)
            else nameUtf16[..] == goal
  {
    assert (vol.sdBuffer as object) != nameUtf16;
    ghost var name: seq<u16> := nameUtf16[..];
    ReadAtCursor(vol, entryIndex, nameUtf16, rest, t, chain, k, sectorIndex, currentCluster);
    RunStep(name, rest, t, left, nameUtf16[..]);
    more, e, s, cluster, l := DirNextEntryExists(vol, entryIndex, sectorIndex, currentCluster, chain, k);
    assert rest[ENTRY * t..][ENTRY..] == rest[ENTRY * (t + 1)..];
    if !more { RunEnds(nameUtf16[..], rest, t + 1, left - 1); }
  }

  lemma RunEnds(name: seq<u16>, rest: seq<byte>, t: nat, left: nat)
    requires |name| == UNITS_MAX && |rest| < ENTRY * (t + 1)
    ensures WithRun(name, rest, t, left) == name
  {
  }

  lemma RunStep(name: seq<u16>, rest: seq<byte>, t: nat, left: nat, next: seq<u16>)
    requires |name| == UNITS_MAX && left > 0 && ENTRY * (t + 1) <= |rest| && next == WithEntry(name, rest, ENTRY * t)
    ensures WithRun(name, rest, t, left) == WithRun(next, rest, t + 1, left - 1)
  {
  }

  /** Collects the units of the name from its entries, in the order they stand in the directory, over
      sectors and clusters, up to the end of the directory. */
  method ReadRun(vol: FatTable.Volume, entryIndex: nat, sectorIndex: nat, cluster: u32, lfnEntCnt: nat,
                 nameUtf16: array<u16>, ghost chain: seq<nat>, ghost k: nat)
    requires AtSector(vol, chain, k, sectorIndex, cluster) && nameUtf16.Length == UNITS_MAX
    modifies vol.sdBuffer, nameUtf16
    ensures nameUtf16[..] == WithRun(old(nameUtf16[..]), old(DirFrom(vol, chain, k, sectorIndex, entryIndex % ENTRIES)),
                                     0, lfnEntCnt)
  {
    assert (vol.sdBuffer as object) != nameUtf16;
    var left: nat, e: nat, s: nat, c, more := lfnEntCnt, entryIndex, sectorIndex, cluster, true;
    ghost var rest, l, t := DirFrom(vol, chain, k, s, e % ENTRIES), k, 0;
    ghost var goal := WithRun(nameUtf16[..], rest, 0, lfnEntCnt);
    assert rest[0..] == rest;
    while left > 0 && more
      invariant if more then AtEntry(vol, chain, rest, t, l, s, e, c) && Leads(nameUtf16[..], rest, t, left, goal)
                else nameUtf16[..] == goal
      decreases left
    {
      more, e, s, c, l := ReadNext(vol, e, s, c, nameUtf16, rest, t, left, goal, chain, l);
      left, t := left - 1, t + 1;
    }
    if more { LedTo(nameUtf16[..], rest, t, goal); }
  }

  // ---------------------------------------------------------------------------------------------
  // What is read back

  /** No unit of the same entry, up to `j`, is all ones. */
  predicate Unmarked(units: seq<u16>, j: nat)
    requires j < |units|
  {
    forall i :: PER_ENTRY * (j / PER_ENTRY) <= i <= j ==> units[i] != 0xFFFF
  }

  function Target(units: seq<u16>, j: nat): u16 { if j < |units| && Unmarked(units, j) then units[j] else 0 }

  /** `name` holds what comes back for the indices from `lo` to `hi`, and zeros up to `top`. */
  predicate HoldsFrom(name: seq<u16>, units: seq<u16>, lo: nat, hi: nat, top: nat) {
    && (forall j :: lo <= j < hi && j < |name| ==> name[j] == Target(units, j))
    && (forall j :: hi <= j < top && j < |name| ==> name[j] == 0)
  }

  lemma {:induction false} SlotsRead(name: seq<u16>, b: seq<byte>, pos: nat, units: seq<u16>, ord: nat, cnt: nat,
                                     chksum: byte, i: nat)
    requires |name| == UNITS_MAX && EntryAt(b, pos, units, ord, cnt, chksum) && i <= PER_ENTRY
    requires forall k :: 0 <= k < |units| ==> units[k] != 0
    requires var base := PER_ENTRY * (ord - 1);
             HoldsFrom(name, units, base, base + i, base + PER_ENTRY)
             && forall k :: base <= k < base + i ==> k < |units| && units[k] != 0xFFFF
    ensures var base, r := PER_ENTRY * (ord - 1), WithSlots(name, b, pos, PER_ENTRY * (ord - 1), i);
            && HoldsFrom(r, units, base, base + PER_ENTRY, base + PER_ENTRY)
            && forall j :: 0 <= j < UNITS_MAX && !(base <= j < base + PER_ENTRY) ==> r[j] == name[j]
    decreases PER_ENTRY - i
  {
    var base := PER_ENTRY * (ord - 1);
    if i < PER_ENTRY && base + i < UNITS_MAX {
      var ch := SlotAt(b, pos, i);
      assert ch == UnitValue(units, base + i);
      if ch == 0 || ch == 0xFFFF {
        forall j | base + i <= j < base + PER_ENTRY
          ensures Target(units, j) == 0
        {
          assert j / PER_ENTRY == ord - 1;
        }
      } else {
        assert (base + i) / PER_ENTRY == ord - 1;
        SlotsRead(name[base + i := ch], b, pos, units, ord, cnt, chksum, i + 1);
      }
    }
  }

  /** An entry of a run goes where its ordinal says. */
  lemma OrdinalRead(name: seq<u16>, b: seq<byte>, pos: nat, units: seq<u16>, ord: nat, cnt: nat, chksum: byte)
    requires |name| == UNITS_MAX && EntryAt(b, pos, units, ord, cnt, chksum) && ord < 0x20
    ensures WithEntry(name, b, pos) == WithSlots(name, b, pos, PER_ENTRY * (ord - 1), 0)
  {
    LowBits(b[pos], ord);
  }

  lemma LowBits(x: byte, ord: nat)
    requires ord < 0x20 && (x == ord || x == ord + LAST_LONG_ENTRY)
    ensures x % 0x20 == ord
  {
  }

  /** `name` holds what comes back from index `lo` on, and zeros in front. */
  predicate HoldsBehind(name: seq<u16>, units: seq<u16>, lo: nat) {
    && |name| == UNITS_MAX && (forall j :: 0 <= j < lo && j < UNITS_MAX ==> name[j] == 0)
    && forall j :: lo <= j < UNITS_MAX ==> name[j] == Target(units, j)
  }

  /** One entry of a run, read into a name that is blank where it goes. */
  lemma EntryRead(name: seq<u16>, b: seq<byte>, pos: nat, units: seq<u16>, ord: nat, cnt: nat, chksum: byte)
    returns (r: seq<u16>)
    requires EntryAt(b, pos, units, ord, cnt, chksum) && ord < 0x20
    requires (forall k :: 0 <= k < |units| ==> units[k] != 0) && HoldsBehind(name, units, PER_ENTRY * ord)
    ensures r == WithEntry(name, b, pos) && HoldsBehind(r, units, PER_ENTRY * (ord - 1))
  {
    r := WithSlots(name, b, pos, PER_ENTRY * (ord - 1), 0);
    OrdinalRead(name, b, pos, units, ord, cnt, chksum);
    SlotsRead(name, b, pos, units, ord, cnt, chksum, 0);
  }

  /** The entry with ordinal `ord` of a run, read. */
  lemma OrdinalStep(name: seq<u16>, b: seq<byte>, e: nat, units: seq<u16>, ord: nat, chksum: byte)
    returns (next: seq<u16>)
    requires EntryOf(b, e, units, ord, chksum) && ord < 0x20
    requires (forall k :: 0 <= k < |units| ==> units[k] != 0) && HoldsBehind(name, units, PER_ENTRY * ord)
    ensures HoldsBehind(next, units, PER_ENTRY * (ord - 1))
    ensures var t := e + EntryCount(|units|) - ord; WithRun(name, b, t, ord) == WithRun(next, b, t + 1, ord - 1)
  {
    var cnt := EntryCount(|units|);
    next := EntryRead(name, b, ENTRY * (e + cnt - ord), units, ord, cnt, chksum);
    RunStep(name, b, e + cnt - ord, ord, next);
  }

  /** A run read from ordinal `ord` down. */
  lemma {:induction false} RunRead(name: seq<u16>, b: seq<byte>, e: nat, units: seq<u16>, ord: nat, chksum: byte)
    returns (r: seq<u16>)
    requires RunAt(b, e, units, chksum) && ord <= EntryCount(|units|) && |units| <= UNITS_MAX
    requires (forall k :: 0 <= k < |units| ==> units[k] != 0) && HoldsBehind(name, units, PER_ENTRY * ord)
    ensures r == WithRun(name, b, e + EntryCount(|units|) - ord, ord) && HoldsBehind(r, units, 0)
    decreases ord
  {
    if ord == 0 {
      r := name;
    } else {
      var next := OrdinalStep(name, b, e, units, ord, chksum);
      r := RunRead(next, b, e, units, ord - 1, chksum);
    }
  }

  /** Index of the first U+FFFF at or behind `i`, or the number of characters. */
  function KeptLength(cs: seq<Scalar>, i: nat): (m: nat)
    requires i <= |cs|
    ensures i <= m <= |cs| && (m < |cs| ==> cs[m] == 0xFFFF) && forall k :: i <= k < m ==> cs[k] != 0xFFFF
    decreases |cs| - i
  {
    if i == |cs| || cs[i] == 0xFFFF then i else KeptLength(cs, i + 1)
  }

  /** The characters before the first U+FFFF. */
  function Kept(cs: seq<Scalar>): seq<Scalar> { cs[..KeptLength(cs, 0)] }

  /** The characters from `i` on, cut at `m`. */
  lemma {:induction false} CutBytes(cs: seq<Scalar>, m: nat, i: nat)
    returns (p: seq<byte>, q: seq<byte>, all: seq<byte>)
    requires i <= m <= |cs|
    ensures p == Utf8From(cs[..m], i) && q == Utf8From(cs, m) && all == Utf8From(cs, i) && all == p + q
    decreases m - i
  {
    if i == m {
      p, q, all := [], Utf8From(cs, m), Utf8From(cs, m);
    } else {
      p, q, all := CutBytes(cs, m, i + 1);
      p, all := JoinBytes(cs, m, i, p, q, all);
    }
  }

  lemma JoinBytes(cs: seq<Scalar>, m: nat, i: nat, r: seq<byte>, q: seq<byte>, rest: seq<byte>)
    returns (p: seq<byte>, all: seq<byte>)
    requires i < m <= |cs| && r == Utf8From(cs[..m], i + 1) && rest == Utf8From(cs, i + 1) && rest == r + q
    ensures p == Utf8From(cs[..m], i) && all == Utf8From(cs, i) && all == p + q
  {
    var c, cRest, w, wRest := SplitChars(cs, i);
    var d, dRest, v, vRest := SplitPrefix(cs, m, i);
    Assoc(c, r, q);
    p, all := d + dRest, c + cRest;
  }

  lemma {:induction false} CutUnits(cs: seq<Scalar>, m: nat, i: nat) returns (p: seq<u16>, q: seq<u16>, all: seq<u16>)
    requires i <= m <= |cs|
    ensures p == Utf16From(cs[..m], i) && q == Utf16From(cs, m) && all == Utf16From(cs, i) && all == p + q
    decreases m - i
  {
    if i == m {
      p, q, all := [], Utf16From(cs, m), Utf16From(cs, m);
    } else {
      p, q, all := CutUnits(cs, m, i + 1);
      p, all := JoinUnits(cs, m, i, p, q, all);
    }
  }

  lemma JoinUnits(cs: seq<Scalar>, m: nat, i: nat, r: seq<u16>, q: seq<u16>, rest: seq<u16>)
    returns (p: seq<u16>, all: seq<u16>)
    requires i < m <= |cs| && r == Utf16From(cs[..m], i + 1) && rest == Utf16From(cs, i + 1) && rest == r + q
    ensures p == Utf16From(cs[..m], i) && all == Utf16From(cs, i) && all == p + q
  {
    var c, cRest, w, wRest := SplitChars(cs, i);
    var d, dRest, v, vRest := SplitPrefix(cs, m, i);
    Assoc(w, r, q);
    p, all := v + vRest, w + wRest;
  }

  /** No unit of a character is zero, and none but those of U+FFFF is all ones. */
  lemma {:induction false} PlainUnits(cs: seq<Scalar>, i: nat)
    ensures forall k :: 0 <= k < |Utf16From(cs, i)| ==> Utf16From(cs, i)[k] != 0
    ensures (forall k :: i <= k < |cs| ==> cs[k] != 0xFFFF) ==>
              forall k :: 0 <= k < |Utf16From(cs, i)| ==> Utf16From(cs, i)[k] != 0xFFFF
    decreases |cs| - i
  {
    if i < |cs| {
      var c, cRest, w, wRest := SplitChars(cs, i);
      PlainUnits(cs, i + 1);
      assert forall k :: 0 <= k < |w| ==> w[k] != 0 && (cs[i] != 0xFFFF ==> w[k] != 0xFFFF);
    }
  }

  /** What comes back is the name up to the first U+FFFF, and then a zero or the end. */
  lemma TargetIsKept(cs: seq<Scalar>, units: seq<u16>, r: seq<u16>) returns (w: seq<u16>)
    requires units == Utf16From(cs, 0) && |units| <= UNITS_MAX == |r|
    requires forall j :: 0 <= j < UNITS_MAX ==> r[j] == Target(units, j)
    ensures w == Utf16From(Kept(cs), 0) && UnitsStand(r, 0, w) && (|w| == |r| || r[|w|] == 0)
  {
    var m := KeptLength(cs, 0);
    var rest, all;
    w, rest, all := CutUnits(cs, m, 0);
    PlainUnits(Kept(cs), 0);
    forall j | 0 <= j < |w|
      ensures r[j] == w[j]
    {
      assert forall k :: 0 <= k <= j ==> units[k] == w[k];
    }
    if |w| < |r| && m < |cs| {
      var c, cRest, v, vRest := SplitChars(cs, m);
      assert units[|w|] == rest[0] == 0xFFFF;
    }
  }

  lemma NonzeroUnits(cs: seq<Scalar>, units: seq<u16>)
    requires units == Utf16From(cs, 0)
    ensures forall k :: 0 <= k < |units| ==> units[k] != 0
  {
    PlainUnits(cs, 0);
  }

  /** The units read from the entries of a name. */
  lemma BlankRunRead(b: seq<byte>, e: nat, units: seq<u16>, chksum: byte) returns (r: seq<u16>)
    requires RunAt(b, e, units, chksum) && |units| <= UNITS_MAX
    requires forall k :: 0 <= k < |units| ==> units[k] != 0
    ensures r == WithRun(Blank(), b, e, EntryCount(|units|)) && |r| == UNITS_MAX
    ensures forall j :: 0 <= j < UNITS_MAX ==> r[j] == Target(units, j)
  {
    r := RunRead(Blank(), b, e, units, EntryCount(|units|), chksum);
  }

  /** The first `n` characters are the front of the name, and the next one needs more. */
  lemma PrefixGrows(cs: seq<Scalar>, k: nat, n: nat)
    requires k < n <= |cs|
    ensures |Utf8From(cs[..k], 0)| + |Utf8(cs[k])| <= |Utf8From(cs[..n], 0)|
    ensures |Utf16From(cs[..k], 0)| + |Utf16(cs[k])| <= |Utf16From(cs[..n], 0)|
  {
    var ds := cs[..n];
    var p, q, all := CutBytes(ds, k, 0);
    var v, w, units := CutUnits(ds, k, 0);
    var c, cRest, x, xRest := SplitChars(ds, k);
    assert ds[..k] == cs[..k];
  }

  /** The k-th character does not come back: it is U+FFFF, or the name up to it has more than 255
      units, or more bytes than the buffer of the lookup holds beside its zero. */
  predicate Stops(cs: seq<Scalar>, k: nat)
    requires k < |cs|
  {
    || cs[k] == 0xFFFF
    || |Utf16From(cs[..k], 0)| + |Utf16(cs[k])| > UNITS_MAX
    || |Utf8From(cs[..k], 0)| + |Utf8(cs[k])| >= FILE_NAME_SIZE
  }

  /** The characters that come back are those before the first that does not. */
  predicate ComesBack(cs: seq<Scalar>, n: nat) {
    n <= |cs| && (forall k :: 0 <= k < n ==> !Stops(cs, k)) && (n < |cs| ==> Stops(cs, n))
  }

  /** The characters `ks` were written, `j` of them stand before the first U+FFFF, `n` of these fit. */
  lemma StopsFirst(cs: seq<Scalar>, ks: seq<Scalar>, j: nat, n: nat)
    requires |ks| <= |cs| && ks == cs[..|ks|]
    requires n <= j <= |ks| && (forall k :: 0 <= k < j ==> ks[k] != 0xFFFF) && (j < |ks| ==> ks[j] == 0xFFFF)
    requires |Utf16From(ks, 0)| <= UNITS_MAX
    requires |ks| < |cs| ==> |Utf16From(ks, 0)| + |Utf16(cs[|ks|])| > UNITS_MAX
    requires |Utf8From(cs[..n], 0)| < FILE_NAME_SIZE
    requires n < j ==> |Utf8From(cs[..n], 0)| + |Utf8(ks[n])| >= FILE_NAME_SIZE
    ensures ComesBack(cs, n)
  {
    forall k | 0 <= k < n
      ensures !Stops(cs, k)
    {
      assert ks[k] == cs[k];
      PrefixGrows(cs, k, n);
      PrefixGrows(cs, k, |ks|);
    }
  }

  /** All characters come back exactly when none is U+FFFF and the name keeps both limits. */
  lemma AllComeBack(cs: seq<Scalar>, n: nat)
    requires ComesBack(cs, n)
    ensures n == |cs| ==> Utf8From(cs[..n], 0) == Utf8From(cs, 0)
    ensures n < |cs| ==> |Utf8From(cs[..n], 0)| < |Utf8From(cs, 0)|
    ensures n == |cs| <==> 0xFFFF !in cs && |Utf16From(cs, 0)| <= UNITS_MAX && |Utf8From(cs, 0)| < FILE_NAME_SIZE
  {
    assert cs[..|cs|] == cs;
    if n < |cs| {
      PrefixGrows(cs, n, |cs|);
    } else {
      if n > 0 { LastFits(cs); }
      forall k | 0 <= k < n
        ensures cs[k] != 0xFFFF
      {
        assert !Stops(cs, k);
      }
    }
  }

  lemma LastFits(cs: seq<Scalar>)
    requires cs != [] && !Stops(cs, |cs| - 1)
    ensures |Utf16From(cs, 0)| <= UNITS_MAX && |Utf8From(cs, 0)| < FILE_NAME_SIZE
  {
    var k := |cs| - 1;
    var p, q, all := CutBytes(cs, k, 0);
    var v, w, units := CutUnits(cs, k, 0);
    var c, cRest, x, xRest := SplitChars(cs, k);
  }

  /** What comes back from the entries of a run of characters. */
  lemma NameOfRun(cs: seq<Scalar>, units: seq<u16>, b: seq<byte>, e: nat, chksum: byte)
    returns (back: seq<byte>, j: nat, n: nat)
    requires units == Utf16From(cs, 0) && |units| <= UNITS_MAX
    requires RunAt(b, e, units, chksum)
    ensures back == NameFrom(WithRun(Blank(), b, e, EntryCount(|units|)), 0, FILE_NAME_SIZE - 1)
    ensures n <= j <= |cs| && (forall k :: 0 <= k < j ==> cs[k] != 0xFFFF) && (j < |cs| ==> cs[j] == 0xFFFF)
    ensures back == Utf8From(cs[..n], 0) && |back| < FILE_NAME_SIZE
    ensures n < j ==> |back| + |Utf8(cs[n])| >= FILE_NAME_SIZE
  {
    NonzeroUnits(cs, units);
    var r := BlankRunRead(b, e, units, chksum);
    var w := TargetIsKept(cs, units, r);
    n, back := CharsReadBack(r, 0, Kept(cs), 0, FILE_NAME_SIZE - 1);
    j := KeptLength(cs, 0);
    assert Kept(cs)[..n] == cs[..n];
  }

  /** Reading back a long name from its entries gives its first `n` characters, those before the first
      that is U+FFFF or passes 255 units or 511 bytes; so it gives the name exactly when it holds no
      U+FFFF and keeps both limits. */
  lemma {:induction false} LongNameRoundTrip(cs: seq<Scalar>, name: seq<byte>, units: seq<u16>, b: seq<byte>, e: nat,
                                             chksum: byte)
    returns (back: seq<byte>, n: nat)
    requires name == Utf8From(cs, 0) && units == Units(name, 0, UNITS_MAX)
    requires RunAt(b, e, units, chksum)
    ensures back == NameFrom(WithRun(Blank(), b, e, EntryCount(|units|)), 0, FILE_NAME_SIZE - 1)
    ensures ComesBack(cs, n) && back == Utf8From(cs[..n], 0)
    ensures back == name <==> 0xFFFF !in cs && |Utf16From(cs, 0)| <= UNITS_MAX && |name| < FILE_NAME_SIZE
  {
    var m, u := UnitsOfChars(name, 0, cs, 0, UNITS_MAX);
    var j;
    back, j, n := NameOfRun(cs[..m], units, b, e, chksum);
    assert cs[..m][..n] == cs[..n];
    StopsFirst(cs, cs[..m], j, n);
    AllComeBack(cs, n);
  }

  // ---------------------------------------------------------------------------------------------
  // A name that the lookup cuts

  /** "a." and 170 times U+20AC. */
  const EUROS: seq<Scalar> := [0x61, 0x2E] + seq(170, i => 0x20AC)

  lemma {:induction false} EurosFrom(i: nat)
    requires 2 <= i <= |EUROS| == 172
    ensures |Utf8From(EUROS, i)| == 3 * (172 - i) && |Utf16From(EUROS, i)| == 172 - i
    decreases 172 - i
  {
    if i < 172 {
      var c, rest, w, wRest := SplitChars(EUROS, i);
      EurosFrom(i + 1);
    }
  }

  lemma EurosSize()
    ensures |EUROS| == 172 && 0xFFFF !in EUROS && |Utf8From(EUROS, 0)| == 512 && |Utf16From(EUROS, 0)| == 172
  {
    EurosFrom(2);
    var c, rest, w, wRest := SplitChars(EUROS, 1);
    var d, dRest, v, vRest := SplitChars(EUROS, 0);
  }

  /** A name without U+FFFF, whose run and short entry fit a sector, that comes back one character
      short. */
  lemma LongNameCutShort(b: seq<byte>, e: nat, chksum: byte) returns (name: seq<byte>, back: seq<byte>)
    requires RunAt(b, e, Units(Utf8From(EUROS, 0), 0, UNITS_MAX), chksum)
    ensures name == Utf8From(EUROS, 0) && 0xFFFF !in EUROS && EntryCount(|Units(name, 0, UNITS_MAX)|) == 14
    ensures back == NameFrom(WithRun(Blank(), b, e, 14), 0, FILE_NAME_SIZE - 1)
    ensures back == Utf8From(EUROS[..171], 0) && back != name
  {
    name := Utf8From(EUROS, 0);
    EurosSize();
    var m, u := UnitsOfChars(name, 0, EUROS, 0, UNITS_MAX);
    AllUnits(EUROS, m);
    FourteenEntries(|u|);
    var n;
    back, n := LongNameRoundTrip(EUROS, name, u, b, e, chksum);
    OnlyLastStops(n);
  }

  lemma FourteenEntries(n: nat)
    requires n == 172
    ensures EntryCount(n) == 14
  {
  }

  lemma AllUnits(cs: seq<Scalar>, m: nat)
    requires m <= |cs| && |Utf16From(cs, 0)| <= UNITS_MAX
    requires m < |cs| ==> |Utf16From(cs[..m], 0)| + |Utf16(cs[m])| > UNITS_MAX
    ensures m == |cs| && cs[..m] == cs
  {
    assert cs[..|cs|] == cs;
    if m < |cs| { PrefixGrows(cs, m, |cs|); }
  }

  lemma OnlyLastStops(n: nat)
    requires ComesBack(EUROS, n)
    ensures n == 171
  {
    EurosSize();
    AllComeBack(EUROS, n);
    var p, q, all := CutBytes(EUROS, n, 0);
    var v, w, units := CutUnits(EUROS, n, 0);
    if n >= 2 { EurosFrom(n); }
    if n < 2 { EurosFrom(2); }
  }

  // ---------------------------------------------------------------------------------------------
  // The operations

  /** The long-name part of creating a file: converts the name and writes its entries. */
  method WriteLongName(filename: seq<byte>, sdBuffer: array<byte>, e: nat, chksum: byte) returns (cnt: nat)
    requires CString(filename) && sdBuffer.Length == FatTable.SECTOR
    requires e + EntryCount(|Units(filename, 0, UNITS_MAX)|) < ENTRIES
    modifies sdBuffer
    ensures cnt == EntryCount(|Units(filename, 0, UNITS_MAX)|)
    ensures RunAt(sdBuffer[..], e, Units(filename, 0, UNITS_MAX), chksum)
    ensures SameOutside(sdBuffer[..], old(sdBuffer[..]), e, cnt)
  {
    var nameUtf16 := new u16[UNITS_MAX];
    var n := Utf8ToUtf16(filename, nameUtf16, UNITS_MAX);
    cnt := WriteRun(sdBuffer, e, nameUtf16[..n], chksum);
  }

  /** A run that fits behind the e-th entry of a sector: the guard of the write. A sector holds a run
      and its short entry exactly when the name has at most 13 units for every entry in front of the
      last one. */
  lemma RunFits(n: nat, e: nat)
    ensures e < 16 ==> (ENTRY * (e + EntryCount(n) + 1) <= 512 <==> n <= 13 * (15 - e))
  {
  }

  lemma EntryInSuffix(b: seq<byte>, from: nat, more: seq<byte>, pos: nat, units: seq<u16>, ord: nat, cnt: nat,
                      chksum: byte)
    requires from <= pos && EntryAt(b, pos, units, ord, cnt, chksum)
    ensures EntryAt(b[from..] + more, pos - from, units, ord, cnt, chksum)
  {
    EntryMoved(b, pos, b[from..] + more, pos - from, units, ord, cnt, chksum);
  }

  lemma RunInSuffix(b: seq<byte>, e: nat, more: seq<byte>, units: seq<u16>, chksum: byte)
    requires ENTRY * e <= |b| && RunAt(b, e, units, chksum)
    ensures RunAt(b[ENTRY * e..] + more, 0, units, chksum)
  {
    var cnt := EntryCount(|units|);
    forall ord | 0 < ord <= cnt
      ensures EntryOf(b[ENTRY * e..] + more, 0, units, ord, chksum)
    {
      assert EntryOf(b, e, units, ord, chksum);
      EntryInSuffix(b, ENTRY * e, more, ENTRY * (e + cnt - ord), units, ord, cnt, chksum);
    }
  }

  /** What stands from the e-th entry of a sector on stands first in the rest of the directory. */
  lemma RunInDirectory(vol: FatTable.Volume, chain: seq<nat>, k: nat, s: nat, e: nat, units: seq<u16>, chksum: byte)
    requires vol.Valid() && FatFiles.InRange(vol.g, chain) && k < |chain| && s < vol.g.secPerClus && e < ENTRIES
    requires RunAt(FatFiles.SectorOf(vol.g, vol.disk, chain[k], s), e, units, chksum)
    ensures RunAt(DirFrom(vol, chain, k, s, e), 0, units, chksum)
  {
    var b, more := DirParts(vol, chain, k, s, e);
    RunInSuffix(b, e, more, units, chksum);
  }

  /** Collects the units of a name, from the sector of its first entry on. */
  method LookUpUnits(vol: FatTable.Volume, entryIndex: nat, sectorIndex: nat, cluster: u32, lfnEntCnt: nat,
                     ghost chain: seq<nat>, ghost k: nat)
    returns (nameUtf16: array<u16>)
    requires vol.Valid() && FatTable.Chain(vol.g, vol.disk, chain) && FatFiles.InRange(vol.g, chain)
    requires k < |chain| && cluster == chain[k] && sectorIndex < vol.g.secPerClus
    modifies vol.sdBuffer
    ensures fresh(nameUtf16)
    ensures nameUtf16[..] == WithRun(Blank(), old(DirFrom(vol, chain, k, sectorIndex, entryIndex % ENTRIES)), 0,
                                     lfnEntCnt)
  {
    nameUtf16 := new u16[UNITS_MAX](_ => 0);
    assert nameUtf16[..] == Blank();
    LoadDirSector(vol, sectorIndex, cluster, chain, k);
    ReadRun(vol, entryIndex, sectorIndex, cluster, lfnEntCnt, nameUtf16, chain, k);
  }

  /** The long-name part of looking up a file's name: reads its entries and encodes the name. */
  method ReadLongName(vol: FatTable.Volume, entryIndex: nat, sectorIndex: nat, cluster: u32, lfnEntCnt: nat,
                      ghost chain: seq<nat>, ghost k: nat)
    returns (fileName: array<byte>, len: nat)
    requires vol.Valid() && FatTable.Chain(vol.g, vol.disk, chain) && FatFiles.InRange(vol.g, chain)
    requires k < |chain| && cluster == chain[k] && sectorIndex < vol.g.secPerClus && 0 < lfnEntCnt
    modifies vol.sdBuffer
    ensures fresh(fileName) && len < fileName.Length == FILE_NAME_SIZE
    ensures fileName[..len] == NameFrom(WithRun(Blank(), old(DirFrom(vol, chain, k, sectorIndex, entryIndex % ENTRIES)),
                                                0, lfnEntCnt), 0, FILE_NAME_SIZE - 1)
    ensures forall i :: len <= i < FILE_NAME_SIZE ==> fileName[i] == 0
  {
    fileName := new byte[FILE_NAME_SIZE](_ => 0);
    var nameUtf16 := LookUpUnits(vol, entryIndex, sectorIndex, cluster, lfnEntCnt, chain, k);
    len := EncodeName(nameUtf16, fileName);
    assert forall i :: len <= i < FILE_NAME_SIZE ==> fileName[i] == fileName[len..][i - len];
  }

  // ---------------------------------------------------------------------------------------------
  // On the disk

  lemma RunKept(was: seq<byte>, now: seq<byte>, e: nat, units: seq<u16>, chksum: byte)
    requires RunAt(was, e, units, chksum) && |now| == |was|
    requires forall x :: 0 <= x < ENTRY * (e + EntryCount(|units|)) && x < |was| ==> now[x] == was[x]
    ensures RunAt(now, e, units, chksum)
  {
    var cnt := EntryCount(|units|);
    forall ord | 0 < ord <= cnt
      ensures EntryOf(now, e, units, ord, chksum)
    {
      assert EntryOf(was, e, units, ord, chksum);
      EntryMoved(was, ENTRY * (e + cnt - ord), now, ENTRY * (e + cnt - ord), units, ord, cnt, chksum);
    }
  }

  /** Fills the sector buffer with the entries of a name and the short entry behind them. */
  method FillEntries(sdBuffer: array<byte>, e: nat, filename: seq<byte>, chksum: byte, entry: seq<byte>)
    returns (cnt: nat)
    requires CString(filename) && sdBuffer.Length == FatTable.SECTOR && |entry| == ENTRY
    requires e + EntryCount(|Units(filename, 0, UNITS_MAX)|) < ENTRIES
    modifies sdBuffer
    ensures cnt == EntryCount(|Units(filename, 0, UNITS_MAX)|) && e + cnt < ENTRIES
    ensures RunAt(sdBuffer[..], e, Units(filename, 0, UNITS_MAX), chksum)
    ensures sdBuffer[ENTRY * (e + cnt)..ENTRY * (e + cnt + 1)] == entry
    ensures SameOutside(sdBuffer[..], old(sdBuffer[..]), e, cnt + 1)
  {
    ghost var units := Units(filename, 0, UNITS_MAX);
    cnt := WriteLongName(filename, sdBuffer, e, chksum);
    ghost var was: seq<byte> := sdBuffer[..];
    var at := ENTRY * (e + cnt);
    forall i | 0 <= i < ENTRY { sdBuffer[at + i] := entry[i]; }
    assert forall x :: 0 <= x < at ==> sdBuffer[..][x] == was[x];
    RunKept(was, sdBuffer[..], e, units, chksum);
  }

  /** Stores the entries of a new file in a sector of a directory. */
  method CreateEntries(vol: FatTable.Volume, cluster: u32, sectorIndex: nat, e: nat, filename: seq<byte>, chksum: byte,
                       entry: seq<byte>, ghost chain: seq<nat>, ghost k: nat)
    returns (cnt: nat)
    requires vol.Valid() && FatTable.Chain(vol.g, vol.disk, chain) && FatFiles.InRange(vol.g, chain)
    requires k < |chain| && cluster == chain[k] && sectorIndex < vol.g.secPerClus
    requires CString(filename) && |entry| == ENTRY && e + EntryCount(|Units(filename, 0, UNITS_MAX)|) < ENTRIES
    modifies vol`disk, vol.sdBuffer
    ensures vol.Valid() && FatTable.Chain(vol.g, vol.disk, chain)
    ensures cnt == EntryCount(|Units(filename, 0, UNITS_MAX)|) && e + cnt < ENTRIES
    ensures 0 <= FatFiles.StartSector(vol.g, chain[k]) + sectorIndex < |vol.disk| == |old(vol.disk)|
    ensures var now := FatFiles.SectorOf(vol.g, vol.disk, chain[k], sectorIndex);
            && RunAt(now, e, Units(filename, 0, UNITS_MAX), chksum)
            && now[ENTRY * (e + cnt)..ENTRY * (e + cnt + 1)] == entry
            && SameOutside(now, old(FatFiles.SectorOf(vol.g, vol.disk, chain[k], sectorIndex)), e, cnt + 1)
            && vol.disk == old(vol.disk)[FatFiles.StartSector(vol.g, chain[k]) + sectorIndex := now]
  {
    ghost var g, was := vol.g, vol.disk;
    FatFiles.SectorOnDisk(g, was, chain[k], sectorIndex);
    var at := vol.g.dataStart + (cluster - 2) * vol.g.secPerClus + sectorIndex;
    vol.ReadSector(at);
    cnt := FillEntries(vol.sdBuffer, e, filename, chksum, entry);
    vol.WriteSector(at);
    FatFiles.ChainsKept(g, was, vol.disk, chain[k], at, chain);
  }

  /** Creating a file and looking its name up again gives the characters of the name before the first
      that is U+FFFF or passes 255 units or 511 bytes. */
  method CreateThenLookUp(vol: FatTable.Volume, cluster: u32, sectorIndex: nat, e: nat, filename: seq<byte>,
                          chksum: byte, entry: seq<byte>, ghost cs: seq<Scalar>, ghost chain: seq<nat>, ghost k: nat)
    returns (fileName: array<byte>, len: nat, ghost n: nat)
    requires vol.Valid() && FatTable.Chain(vol.g, vol.disk, chain) && FatFiles.InRange(vol.g, chain)
    requires k < |chain| && cluster == chain[k] && sectorIndex < vol.g.secPerClus
    requires CString(filename) && |entry| == ENTRY && 0 < EntryCount(|Units(filename, 0, UNITS_MAX)|) < ENTRIES - e
    requires filename == Utf8From(cs, 0)
    modifies vol`disk, vol.sdBuffer
    ensures len < fileName.Length && ComesBack(cs, n) && fileName[..len] == Utf8From(cs[..n], 0)
    ensures fileName[..len] == filename
            <==> 0xFFFF !in cs && |Utf16From(cs, 0)| <= UNITS_MAX && |filename| < FILE_NAME_SIZE
  {
    InSector(e);
    var cnt := CreateEntries(vol, cluster, sectorIndex, e, filename, chksum, entry, chain, k);
    ghost var back;
    back, n := NameOnDisk(vol, sectorIndex, e, filename, chksum, cs, chain, k);
    fileName, len := ReadLongName(vol, e, sectorIndex, cluster, cnt, chain, k);
  }

  lemma InSector(e: nat)
    requires e < ENTRIES
    ensures e % ENTRIES == e
  {
  }

  /** The directory from the entry on, read as a run, gives what comes back of the name. */
  lemma NameOnDisk(vol: FatTable.Volume, s: nat, e: nat, filename: seq<byte>, chksum: byte, cs: seq<Scalar>,
                   chain: seq<nat>, k: nat)
    returns (back: seq<byte>, n: nat)
    requires vol.Valid() && FatFiles.InRange(vol.g, chain) && k < |chain| && s < vol.g.secPerClus && e < ENTRIES
    requires filename == Utf8From(cs, 0)
    requires RunAt(FatFiles.SectorOf(vol.g, vol.disk, chain[k], s), e, Units(filename, 0, UNITS_MAX), chksum)
    ensures back == NameFrom(WithRun(Blank(), DirFrom(vol, chain, k, s, e), 0,
                                     EntryCount(|Units(filename, 0, UNITS_MAX)|)), 0, FILE_NAME_SIZE - 1)
    ensures ComesBack(cs, n) && back == Utf8From(cs[..n], 0)
    ensures back == filename <==> 0xFFFF !in cs && |Utf16From(cs, 0)| <= UNITS_MAX && |filename| < FILE_NAME_SIZE
  {
    var units := Units(filename, 0, UNITS_MAX);
    RunInDirectory(vol, chain, k, s, e, units, chksum);
    back, n := LongNameRoundTrip(cs, filename, units, DirFrom(vol, chain, k, s, e), 0, chksum);
  }
}
