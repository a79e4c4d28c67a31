/** The FAT on a disk of 512-byte sectors: entries, cluster chains, and freeing a chain. */
module FatTable {
  import opened Bytes

  const SECTOR: nat := 512
  const FAT_EOC: u32 := 0x0FFF_FFF8

  type Sector = s: seq<byte> | |s| == 512 witness seq(512, i => 0)
  type Disk = seq<Sector>

  /** Where the first FAT and the data area start, sectors per cluster, and the first cluster number
      that has no entry. */
  datatype Layout = Layout(fatStart: nat, dataStart: nat, secPerClus: nat, clusters: nat)

  predicate Fits(g: Layout, disk: Disk) {
    && 0 < g.secPerClus < 0x100 && 2 <= g.clusters <= FAT_EOC
    && g.fatStart + (g.clusters + 127) / 128 <= g.dataStart
    && g.dataStart + (g.clusters - 2) * g.secPerClus <= |disk|
  }

  // ---------------------------------------------------------------------------------------------
  // Entries

  /** The little-endian word at an offset. */
  function Word32(b: seq<byte>, at: nat): u32
    requires at + 4 <= |b|
  {
    (b[at] as int) + 0x100 * (b[at + 1] as int) + 0x1_0000 * (b[at + 2] as int) + 0x100_0000 * (b[at + 3] as int)
  }

  function Le32(v: u32): seq<byte> { [v % 0x100, v / 0x100 % 0x100, v / 0x1_0000 % 0x100, v / 0x100_0000] }

  lemma Le32Word(v: u32)
    ensures Word32(Le32(v), 0) == v
  {
    assert v / 0x100 / 0x100 == v / 0x1_0000 && v / 0x1_0000 / 0x100 == v / 0x100_0000;
  }

  lemma PatchWord(b: seq<byte>, at: nat, v: u32, k: nat)
    requires at + 4 <= |b| && k + 4 <= |b| && at % 4 == 0 && k % 4 == 0
    ensures Word32(Patch(b, at, Le32(v)), k) == if k == at then v else Word32(b, k)
  {
    var r := Patch(b, at, Le32(v));
    if k == at {
      Le32Word(v);
    } else {
      assert r[k] == b[k] && r[k + 1] == b[k + 1] && r[k + 2] == b[k + 2] && r[k + 3] == b[k + 3];
    }
  }

  /** Sector and byte offset of a cluster's FAT entry. */
  function FatSecNum(g: Layout, c: nat): nat { g.fatStart + c * 4 / SECTOR }
  function FatEntOffset(c: nat): nat { c * 4 % SECTOR }

  /** The entry of cluster c is the c-th word of the FAT: distinct clusters have distinct slots, each
      inside one sector of the FAT. */
  lemma {:induction false} SlotsDistinct(g: Layout, disk: Disk, c: nat, d: nat)
    requires Fits(g, disk) && c < g.clusters && d < g.clusters
    ensures FatEntOffset(c) % 4 == 0 && FatEntOffset(c) + 4 <= SECTOR && g.fatStart <= FatSecNum(g, c) < g.dataStart
    ensures 512 * FatSecNum(g, c) + FatEntOffset(c) == 512 * g.fatStart + 4 * c
    ensures FatSecNum(g, c) == FatSecNum(g, d) && FatEntOffset(c) == FatEntOffset(d) ==> c == d
  {
    assert c * 4 / 512 == c / 128 && c * 4 % 512 == 4 * (c % 128);
    assert d * 4 / 512 == d / 128 && d * 4 % 512 == 4 * (d % 128);
  }

  lemma FatOnDisk(g: Layout, disk: Disk)
    requires Fits(g, disk)
    ensures g.dataStart <= |disk|
  {
    assert (g.clusters - 2) * g.secPerClus >= 0;
  }

  function Entry(g: Layout, disk: Disk, c: nat): u32
    requires Fits(g, disk) && c < g.clusters
  {
    FatOnDisk(g, disk);
    SlotsDistinct(g, disk, c, c);
    Word32(disk[FatSecNum(g, c)], FatEntOffset(c))
  }

  function WithEntry(g: Layout, disk: Disk, c: nat, v: u32): (r: Disk)
    requires Fits(g, disk) && c < g.clusters
    ensures |r| == |disk| && Fits(g, r)
  {
    FatOnDisk(g, disk);
    SlotsDistinct(g, disk, c, c);
    disk[FatSecNum(g, c) := Patch(disk[FatSecNum(g, c)], FatEntOffset(c), Le32(v))]
  }

  lemma WordInSector(disk: Disk, s: nat, o: nat, v: u32, t: nat, p: nat)
    requires s < |disk| && t < |disk| && o + 4 <= SECTOR && p + 4 <= SECTOR && o % 4 == 0 && p % 4 == 0
    ensures Word32(disk[s := Patch(disk[s], o, Le32(v))][t], p) == if t == s && p == o then v else Word32(disk[t], p)
  {
    if t == s {
      PatchWord(disk[s], o, v, p);
    }
  }

  /** Setting an entry changes that entry and nothing else. */
  lemma {:induction false} EntrySet(g: Layout, disk: Disk, c: nat, v: u32, d: nat)
    requires Fits(g, disk) && c < g.clusters && d < g.clusters
    ensures Entry(g, WithEntry(g, disk, c, v), d) == if d == c then v else Entry(g, disk, d)
  {
    SlotsDistinct(g, disk, c, d);
    SlotsDistinct(g, disk, d, c);
    FatOnDisk(g, disk);
    WordInSector(disk, FatSecNum(g, c), FatEntOffset(c), v, FatSecNum(g, d), FatEntOffset(d));
  }

  // ---------------------------------------------------------------------------------------------
  // Chains

  /** The i-th entry of a chain names the next cluster, the last one carries an end mark. */
  predicate LinkAt(g: Layout, disk: Disk, chain: seq<nat>, i: nat)
    requires Fits(g, disk)
  {
    && i < |chain| && 2 <= chain[i] < g.clusters
    && if i + 1 < |chain| then Entry(g, disk, chain[i]) == chain[i + 1] else Entry(g, disk, chain[i]) >= 0x0FFF_FFF8
  }

  /** A cluster chain: acyclic, ending in an end mark. */
  predicate Chain(g: Layout, disk: Disk, chain: seq<nat>)
    requires Fits(g, disk)
  {
    && chain != []
    && (forall i, j :: 0 <= i < j < |chain| ==> chain[i] != chain[j])
    && (forall i :: 0 <= i < |chain| ==> LinkAt(g, disk, chain, i))
  }

  const WORDS: nat := 128

  function WordAt(disk: Disk, s: nat, w: nat): u32
    requires s < |disk| && w < WORDS
  {
    Word32(disk[s], 4 * w)
  }

  /** The w-th word of a sector is the FAT entry of one of these clusters. */
  predicate IsSlotOf(g: Layout, s: nat, w: nat, clusters: seq<nat>) {
    s >= g.fatStart && (s - g.fatStart) * WORDS + w in clusters
  }

  /** Every word of every sector is as before, but for the entries of `cleared`, which are zero. */
  ghost predicate Cleared(g: Layout, was: Disk, now: Disk, cleared: seq<nat>) {
    && |now| == |was|
    && forall s, w :: 0 <= s < |was| && 0 <= w < WORDS ==>
         WordAt(now, s, w) == if IsSlotOf(g, s, w, cleared) then 0 else WordAt(was, s, w)
  }

  lemma EntryWord(g: Layout, disk: Disk, c: nat) returns (s: nat, w: nat)
    requires Fits(g, disk) && c < g.clusters
    ensures s == FatSecNum(g, c) < |disk| && w < WORDS && 4 * w == FatEntOffset(c)
    ensures Entry(g, disk, c) == WordAt(disk, s, w) && s >= g.fatStart && (s - g.fatStart) * WORDS + w == c
  {
    FatOnDisk(g, disk);
    SlotsDistinct(g, disk, c, c);
    s, w := g.fatStart + c / 128, c % 128;
  }

  /** So the cleared entries are zero and the others are as before. */
  lemma ClearedEntry(g: Layout, was: Disk, now: Disk, cleared: seq<nat>, c: nat)
    requires Fits(g, was) && Fits(g, now) && Cleared(g, was, now, cleared) && c < g.clusters
    ensures Entry(g, now, c) == if c in cleared then 0 else Entry(g, was, c)
  {
    var s, w := EntryWord(g, was, c);
    var t, x := EntryWord(g, now, c);
  }

  /** A chain that shares no cluster with the cleared one is untouched. */
  lemma OtherChainKept(g: Layout, was: Disk, now: Disk, cleared: seq<nat>, other: seq<nat>)
    requires Fits(g, was) && Fits(g, now) && Cleared(g, was, now, cleared) && Chain(g, was, other)
    requires forall c :: c in other ==> c !in cleared
    ensures Chain(g, now, other)
  {
    forall i | 0 <= i < |other|
      ensures LinkAt(g, now, other, i)
    {
      assert LinkAt(g, was, other, i) && other[i] in other;
      ClearedEntry(g, was, now, cleared, other[i]);
    }
  }

  /** Where the entry of a 32-bit cluster number is looked for. */
  method Slot(g: Layout, c: u32) returns (s: nat, o: nat)
    ensures o % 4 == 0 && o + 4 <= SECTOR && (c < 0x4000_0000 ==> s == FatSecNum(g, c) && o == FatEntOffset(c))
  {
    var at := c * 4 % 0x1_0000_0000;
    s, o := g.fatStart + at / SECTOR, at % SECTOR;
  }

  lemma EntrySlot(g: Layout, disk: Disk, c: nat)
    requires Fits(g, disk)
    ensures c < g.clusters ==>
              && c < 0x4000_0000 && FatSecNum(g, c) < |disk| && FatEntOffset(c) + 4 <= SECTOR
              && Entry(g, disk, c) == Word32(disk[FatSecNum(g, c)], FatEntOffset(c))
  {
    if c < g.clusters {
      FatOnDisk(g, disk);
      SlotsDistinct(g, disk, c, c);
    }
  }

  // ---------------------------------------------------------------------------------------------
  // The volume

  class Volume {
    const g: Layout
    /** The one sector buffer everything goes through. */
    const sdBuffer: array<byte>
    var disk: Disk

    ghost predicate Valid()
      reads this
    {
      Fits(g, disk) && sdBuffer.Length == SECTOR
    }

    constructor (g: Layout, disk: Disk)
      requires Fits(g, disk)
      ensures Valid() && fresh(sdBuffer) && this.g == g && this.disk == disk
    {
      this.g, this.disk := g, disk;
      sdBuffer := new byte[SECTOR];
    }

    method ReadSector(s: nat)
      requires Valid() && s < |disk|
      modifies sdBuffer
      ensures sdBuffer[..] == disk[s]
    {
      forall i | 0 <= i < SECTOR { sdBuffer[i] := disk[s][i]; }
    }

    method WriteSector(s: nat)
      requires Valid() && s < |disk|
      modifies this`disk
      ensures Valid() && disk == old(disk)[s := sdBuffer[..]]
    {
      disk := disk[s := sdBuffer[..]];
    }

    /** The word where the FAT entry of a cluster stands, or would stand: the number comes from the
        disk and need not be that of a cluster. A sector behind the end of the disk is not read. */
    method FatNextCluster(c: u32) returns (next: u32)
      requires Valid()
      modifies sdBuffer
      ensures c < g.clusters ==> next == Entry(g, disk, c)
    {
      var s, o := Slot(g, c);
      EntrySlot(g, disk, c);
      if s < |disk| {
        ReadSector(s);
      }
      next := Word32(sdBuffer[..], o);
    }

    method FatSetNextClus(c: nat, v: u32)
      requires Valid() && c < g.clusters
      modifies this`disk, sdBuffer
      ensures Valid() && disk == WithEntry(g, old(disk), c, v)
    {
      FatOnDisk(g, disk);
      SlotsDistinct(g, disk, c, c);
      ReadSector(FatSecNum(g, c));
      var at := FatEntOffset(c);
      ghost var was: seq<byte> := sdBuffer[..];
      sdBuffer[at], sdBuffer[at + 1], sdBuffer[at + 2], sdBuffer[at + 3] :=
        v % 0x100, v / 0x100 % 0x100, v / 0x1_0000 % 0x100, v / 0x100_0000;
      assert sdBuffer[..] == Patch(was, at, Le32(v));
      WriteSector(FatSecNum(g, c));
    }

    /** The loop of a file's deletion that frees its clusters. */
    method FreeChain(start: u32, ghost chain: seq<nat>)
      requires Valid() && Chain(g, disk, chain) && chain[0] == start
      modifies this`disk, sdBuffer
      ensures Valid() && Cleared(g, old(disk), disk, chain)
    {
      var currentCluster := start;
      ghost var k := 0;
      assert LinkAt(g, disk, chain, 0);
      while currentCluster < FAT_EOC
        invariant Valid() && k <= |chain|
        invariant if k < |chain| then currentCluster == chain[k] < g.clusters else currentCluster >= FAT_EOC
        invariant Cleared(g, old(disk), disk, chain[..k])
        decreases |chain| - k
      {
        assert LinkAt(g, old(disk), chain, k);
        assert chain[k] !in chain[..k];
        ClearedEntry(g, old(disk), disk, chain[..k], chain[k]);
        var tempCluster := currentCluster;
        currentCluster := FatNextCluster(currentCluster);
        assert k + 1 < |chain| ==> LinkAt(g, old(disk), chain, k + 1);
        ClearOne(g, old(disk), disk, chain, k);
        FatSetNextClus(tempCluster, 0);
        k := k + 1;
      }
      assert chain[..k] == chain;
    }
  }

  lemma InPrefix(chain: seq<nat>, k: nat, c: nat)
    requires k < |chain|
    ensures c in chain[..k + 1] <==> c in chain[..k] || c == chain[k]
  {
    assert chain[..k + 1] == chain[..k] + [chain[k]];
  }

  /** Setting an entry changes one word of the disk. */
  lemma EntrySetWord(g: Layout, disk: Disk, c: nat, v: u32, s: nat, w: nat)
    requires Fits(g, disk) && c < g.clusters && s < |disk| && w < WORDS
    ensures WordAt(WithEntry(g, disk, c, v), s, w)
         == if s >= g.fatStart && (s - g.fatStart) * WORDS + w == c then v else WordAt(disk, s, w)
  {
    var t, x := EntryWord(g, disk, c);
    WordSet(disk, WithEntry(g, disk, c, v), t, x, v, s, w);
    SameWord(s - g.fatStart, w, t - g.fatStart, x);
  }

  lemma WordSet(disk: Disk, disk': Disk, t: nat, x: nat, v: u32, s: nat, w: nat)
    requires t < |disk| && s < |disk| && x < WORDS && w < WORDS && disk' == disk[t := Patch(disk[t], 4 * x, Le32(v))]
    ensures WordAt(disk', s, w) == if s == t && w == x then v else WordAt(disk, s, w)
  {
    WordInSector(disk, t, 4 * x, v, s, 4 * w);
  }

  lemma SameWord(s: int, w: nat, t: int, x: nat)
    requires w < WORDS && x < WORDS
    ensures s * WORDS + w == t * WORDS + x <==> s == t && w == x
  {
  }

  lemma ClearOne(g: Layout, was: Disk, now: Disk, chain: seq<nat>, k: nat)
    requires Fits(g, was) && Fits(g, now) && k < |chain| && chain[k] < g.clusters && Cleared(g, was, now, chain[..k])
    ensures Cleared(g, was, WithEntry(g, now, chain[k], 0), chain[..k + 1])
  {
    forall s, w | 0 <= s < |was| && 0 <= w < WORDS
      ensures WordAt(WithEntry(g, now, chain[k], 0), s, w)
              == if IsSlotOf(g, s, w, chain[..k + 1]) then 0 else WordAt(was, s, w)
    {
      EntrySetWord(g, now, chain[k], 0, s, w);
      if s >= g.fatStart { InPrefix(chain, k, (s - g.fatStart) * WORDS + w); }
    }
  }
}
