/** Reading and writing the contents of files on a FAT volume. */
module FatFiles {
  import opened Bytes
  import opened FatTable

  // ---------------------------------------------------------------------------------------------
  // The data area

  /** First sector of a cluster. */
  function StartSector(g: Layout, c: nat): int { g.dataStart + (c - 2) * g.secPerClus }

  /** Sector by sector, the clusters from the second on cover the data area. */
  lemma ClustersCover(g: Layout, x: nat)
    requires g.secPerClus > 0
    ensures StartSector(g, 2) == g.dataStart
    ensures forall c: nat :: StartSector(g, c + 1) == StartSector(g, c) + g.secPerClus
    ensures StartSector(g, 2 + x / g.secPerClus) + x % g.secPerClus == g.dataStart + x
  {
    assert x == x / g.secPerClus * g.secPerClus + x % g.secPerClus;
    forall c: nat
      ensures StartSector(g, c + 1) == StartSector(g, c) + g.secPerClus
    {
      assert (c + 1 - 2) * g.secPerClus == (c - 2) * g.secPerClus + g.secPerClus;
    }
  }

  lemma MulMono(a: nat, b: nat, m: nat)
    requires a <= b
    ensures a * m <= b * m
  {
  }

  lemma {:induction false} SectorOnDisk(g: Layout, disk: Disk, c: nat, s: nat)
    requires Fits(g, disk) && 2 <= c < g.clusters && s < g.secPerClus
    ensures g.dataStart <= StartSector(g, c) + s < |disk|
  {
    MulMono(c - 1, g.clusters - 2, g.secPerClus);
    MulMono(0, c - 2, g.secPerClus);
    assert (c - 1) * g.secPerClus == (c - 2) * g.secPerClus + g.secPerClus;
  }

  function SectorOf(g: Layout, disk: Disk, c: nat, s: nat): Sector
    requires Fits(g, disk) && 2 <= c < g.clusters && s < g.secPerClus
  {
    SectorOnDisk(g, disk, c, s);
    disk[StartSector(g, c) + s]
  }

  /** The sectors of a cluster from the s-th on, joined. */
  function SectorsFrom(g: Layout, disk: Disk, c: nat, s: nat): (b: seq<byte>)
    requires Fits(g, disk) && 2 <= c < g.clusters
    ensures s <= g.secPerClus ==> |b| == (g.secPerClus - s) * SECTOR
    decreases g.secPerClus - s
  {
    if s >= g.secPerClus then [] else SectorOf(g, disk, c, s) + SectorsFrom(g, disk, c, s + 1)
  }

  predicate InRange(g: Layout, chain: seq<nat>) { forall i :: 0 <= i < |chain| ==> 2 <= chain[i] < g.clusters }

  /** The clusters of a chain from the k-th on, joined. */
  function ClustersFrom(g: Layout, disk: Disk, chain: seq<nat>, k: nat): seq<byte>
    requires Fits(g, disk) && InRange(g, chain)
    decreases |chain| - k
  {
    if k >= |chain| then [] else SectorsFrom(g, disk, chain[k], 0) + ClustersFrom(g, disk, chain, k + 1)
  }

  lemma ChainInRange(g: Layout, disk: Disk, chain: seq<nat>)
    requires Fits(g, disk) && Chain(g, disk, chain)
    ensures InRange(g, chain)
  {
    forall i | 0 <= i < |chain|
      ensures 2 <= chain[i] < g.clusters
    {
      assert LinkAt(g, disk, chain, i);
    }
  }

  // ---------------------------------------------------------------------------------------------
  // Positions

  lemma ModOf(n: nat, q: nat, r: nat, m: nat)
    requires m > 0 && n == q * m + r && r < m
    ensures n % m == r
  {
    var p := n / m;
    assert n == p * m + n % m;
    if p > q {
      MulMono(q + 1, p, m);
    } else if p < q {
      MulMono(p + 1, q, m);
    }
  }

  /** A position behind at least one byte of the s-th sector of the k-th cluster. */
  predicate IsPosition(idx: nat, spc: nat, k: nat, s: nat, o: nat) {
    idx == k * (spc * SECTOR) + s * SECTOR + o && s < spc && o <= SECTOR
  }

  lemma SectorOffset(idx: nat, spc: nat, k: nat, s: nat, o: nat)
    requires IsPosition(idx, spc, k, s, o)
    ensures idx % SECTOR == if o < SECTOR then o else 0
  {
    assert idx == SECTOR * (k * spc + s) + o;
    OffsetOf(k * spc + s, o);
  }

  lemma OffsetOf(q: nat, o: nat)
    requires o <= SECTOR
    ensures (SECTOR * q + o) % SECTOR == if o < SECTOR then o else 0
  {
  }

  lemma AtBoundary(idx: nat, spc: nat, k: nat, s: nat, o: nat)
    requires IsPosition(idx, spc, k, s, o)
    ensures o > 0 ==> (idx % (spc * SECTOR) == 0 <==> s == spc - 1 && o == SECTOR)
    ensures s == spc - 1 && o == SECTOR ==> IsPosition(idx, spc, k + 1, 0, 0)
    ensures s < spc - 1 && o == SECTOR ==> IsPosition(idx, spc, k, s + 1, 0)
  {
    var cb := spc * SECTOR;
    assert (k + 1) * cb == k * cb + cb;
    var r := s * SECTOR + o;
    if r < cb {
      ModOf(idx, k, r, cb);
    } else {
      ModOf(idx, k + 1, 0, cb);
    }
  }

  // ---------------------------------------------------------------------------------------------
  // Reading

  /** The bytes of `cur` behind its first `o`, and all sectors behind the s-th of the k-th cluster. */
  function Following(g: Layout, disk: Disk, chain: seq<nat>, k: nat, s: nat, cur: Sector, o: nat): seq<byte>
    requires Fits(g, disk) && InRange(g, chain) && k < |chain| && s < g.secPerClus && o <= SECTOR
  {
    cur[o..] + (SectorsFrom(g, disk, chain[k], s + 1) + ClustersFrom(g, disk, chain, k + 1))
  }

  /** What is left of the contents behind byte `o` of the s-th sector of the k-th cluster. */
  function Rest(g: Layout, disk: Disk, chain: seq<nat>, k: nat, s: nat, o: nat): seq<byte>
    requires Fits(g, disk) && InRange(g, chain) && k < |chain| && s < g.secPerClus && o <= SECTOR
  {
    Following(g, disk, chain, k, s, SectorOf(g, disk, chain[k], s), o)
  }

  /** At the end of a sector it does not matter what the buffer held. */
  lemma FollowingEnd(g: Layout, disk: Disk, chain: seq<nat>, k: nat, s: nat, cur: Sector)
    requires Fits(g, disk) && InRange(g, chain) && k < |chain| && s < g.secPerClus
    ensures Following(g, disk, chain, k, s, cur, SECTOR) == Rest(g, disk, chain, k, s, SECTOR)
  {
    assert cur[SECTOR..] == [] == SectorOf(g, disk, chain[k], s)[SECTOR..];
  }

  lemma RestStart(g: Layout, disk: Disk, chain: seq<nat>, k: nat)
    requires Fits(g, disk) && InRange(g, chain) && k < |chain|
    ensures Rest(g, disk, chain, k, 0, 0) == ClustersFrom(g, disk, chain, k)
  {
    var first := SectorOf(g, disk, chain[k], 0);
    assert first[0..] == first;
    Assoc(first, SectorsFrom(g, disk, chain[k], 1), ClustersFrom(g, disk, chain, k + 1));
  }

  lemma RestSector(g: Layout, disk: Disk, chain: seq<nat>, k: nat, s: nat)
    requires Fits(g, disk) && InRange(g, chain) && k < |chain| && s + 1 < g.secPerClus
    ensures Rest(g, disk, chain, k, s, SECTOR) == Rest(g, disk, chain, k, s + 1, 0)
  {
    var next := SectorOf(g, disk, chain[k], s + 1);
    assert next[0..] == next && SectorOf(g, disk, chain[k], s)[SECTOR..] == [];
    Assoc(next, SectorsFrom(g, disk, chain[k], s + 2), ClustersFrom(g, disk, chain, k + 1));
  }

  lemma RestCluster(g: Layout, disk: Disk, chain: seq<nat>, k: nat)
    requires Fits(g, disk) && InRange(g, chain) && k < |chain|
    ensures Rest(g, disk, chain, k, g.secPerClus - 1, SECTOR) == ClustersFrom(g, disk, chain, k + 1)
  {
    assert SectorOf(g, disk, chain[k], g.secPerClus - 1)[SECTOR..] == [];
  }

  lemma FollowingByte(g: Layout, disk: Disk, chain: seq<nat>, k: nat, s: nat, cur: Sector, o: nat)
    requires Fits(g, disk) && InRange(g, chain) && k < |chain| && s < g.secPerClus && o < SECTOR
    ensures Following(g, disk, chain, k, s, cur, o) == [cur[o]] + Following(g, disk, chain, k, s, cur, o + 1)
  {
    assert cur[o..] == [cur[o]] + cur[o + 1..];
    Assoc([cur[o]], cur[o + 1..], SectorsFrom(g, disk, chain[k], s + 1) + ClustersFrom(g, disk, chain, k + 1));
  }

  lemma TailKept(a: seq<byte>, b: seq<byte>, i: nat)
    requires i < |a| == |b| && a[i..] == b[i..]
    ensures a[i + 1..] == b[i + 1..]
  {
    assert a[i + 1..] == a[i..][1..] && b[i + 1..] == b[i..][1..];
  }

  class File {
    const startCluster: nat
    const canRead: bool
    const canWrite: bool
    const canAppend: bool
    /** Where its directory entry is. */
    const dirCluster: nat
    const dirSector: nat
    const dirEntry: nat
    /** The directory entry before the size. */
    const head: seq<byte>
    var fileSize: u32
    var entryIndex: nat
  }

  class Files {
    const vol: Volume
    /** Where a read stands: its cluster, and the next sector in it. */
    var cluster: u32
    var sectorIndex: nat

    constructor (vol: Volume)
      ensures this.vol == vol
    {
      this.vol, cluster, sectorIndex := vol, 0, 0;
    }

    /** The cursor of a read: the s-th sector of the k-th cluster was read last. */
    ghost predicate Loaded(chain: seq<nat>, k: nat, s: nat)
      requires vol.Valid() && InRange(vol.g, chain)
      reads this, vol
    {
      k < |chain| && s < vol.g.secPerClus && cluster == chain[k] && sectorIndex == s + 1
    }

    /** What a read finds behind byte `o` of the sector buffer. */
    ghost function Ahead(chain: seq<nat>, k: nat, s: nat, o: nat): seq<byte>
      requires vol.Valid() && InRange(vol.g, chain) && k < |chain| && s < vol.g.secPerClus && o <= SECTOR
      reads vol, vol.sdBuffer
    {
      Following(vol.g, vol.disk, chain, k, s, vol.sdBuffer[..], o)
    }

    /** Reads the next sector of the current cluster. */
    method LoadSector(ghost chain: seq<nat>, ghost k: nat, ghost s: nat)
      requires vol.Valid() && InRange(vol.g, chain) && k < |chain| && s < vol.g.secPerClus
      requires cluster == chain[k] && sectorIndex == s
      modifies `sectorIndex, vol.sdBuffer
      ensures vol.Valid() && Loaded(chain, k, s) && Ahead(chain, k, s, 0) == Rest(vol.g, vol.disk, chain, k, s, 0)
    {
      SectorOnDisk(vol.g, vol.disk, chain[k], s);
      vol.ReadSector(vol.g.dataStart + (cluster - 2) * vol.g.secPerClus + sectorIndex);
      sectorIndex := sectorIndex + 1;
    }

    /** At the end of a sector: moves to the next one, in the next cluster if this one is used up. */
    method NextSector(entryIndex: nat, ghost chain: seq<nat>, ghost k: nat, ghost s: nat)
      returns (more: bool, ghost l: nat, ghost t: nat)
      requires vol.Valid() && Chain(vol.g, vol.disk, chain) && InRange(vol.g, chain) && Loaded(chain, k, s)
      requires IsPosition(entryIndex, vol.g.secPerClus, k, s, SECTOR)
      modifies `cluster, `sectorIndex, vol.sdBuffer
      ensures vol.Valid()
      ensures var rest := Rest(vol.g, vol.disk, chain, k, s, SECTOR);
              if more then Loaded(chain, l, t) && IsPosition(entryIndex, vol.g.secPerClus, l, t, 0)
                           && Ahead(chain, l, t, 0) == rest
              else rest == []
    {
      AtBoundary(entryIndex, vol.g.secPerClus, k, s, SECTOR);
      l, t := k, s + 1;
      if entryIndex % (vol.g.secPerClus * SECTOR) == 0 {
        assert LinkAt(vol.g, vol.disk, chain, k);
        RestCluster(vol.g, vol.disk, chain, k);
        sectorIndex := 0;
        cluster := vol.FatNextCluster(cluster);
        if cluster >= FAT_EOC {
          assert k + 1 == |chain|;
          return false, l, t;
        }
        l, t := k + 1, 0;
        RestStart(vol.g, vol.disk, chain, l);
      } else {
        RestSector(vol.g, vol.disk, chain, k, s);
      }
      LoadSector(chain, l, t);
      more := true;
    }

    /** Where a read stands behind the first `pos` bytes of a file. */
    ghost predicate Standing(pos: nat, chain: seq<nat>, k: nat, s: nat, o: nat)
      requires vol.Valid() && InRange(vol.g, chain)
      reads this, vol
    {
      && k < |chain| && IsPosition(pos, vol.g.secPerClus, k, s, o)
      && if pos == 0 then k == s == o == 0 && cluster == chain[0] && sectorIndex == 0 else o > 0 && Loaded(chain, k, s)
    }

    /** What a read at `pos` finds. */
    ghost function Coming(pos: nat, chain: seq<nat>, k: nat, s: nat, o: nat): seq<byte>
      requires vol.Valid() && InRange(vol.g, chain) && k < |chain| && s < vol.g.secPerClus && o <= SECTOR
      reads vol, vol.sdBuffer
    {
      if pos == 0 then ClustersFrom(vol.g, vol.disk, chain, 0) else Ahead(chain, k, s, o)
    }

    /** The loaded byte moves from what is ahead to what is read. */
    lemma TakeByte(got: seq<byte>, whole: seq<byte>, chain: seq<nat>, k: nat, s: nat, o: nat, b: byte)
      requires vol.Valid() && InRange(vol.g, chain) && k < |chain| && s < vol.g.secPerClus && o < SECTOR
               && b == vol.sdBuffer[o]
      requires got + Ahead(chain, k, s, o) == whole
      ensures (got + [b]) + Ahead(chain, k, s, o + 1) == whole
    {
      FollowingByte(vol.g, vol.disk, chain, k, s, vol.sdBuffer[..], o);
      Assoc(got, [b], Ahead(chain, k, s, o + 1));
    }

    /** Makes the sector of the next byte available; false at the end of the chain. */
    method Fetch(entryIndex: nat, ghost got: seq<byte>, ghost whole: seq<byte>, ghost chain: seq<nat>, ghost k: nat,
                 ghost s: nat, ghost o: nat)
      returns (more: bool, ghost l: nat, ghost t: nat, ghost p: nat)
      requires vol.Valid() && Chain(vol.g, vol.disk, chain) && InRange(vol.g, chain)
      requires Standing(entryIndex, chain, k, s, o) && got + Coming(entryIndex, chain, k, s, o) == whole
      modifies `cluster, `sectorIndex, vol.sdBuffer
      ensures vol.Valid()
      ensures if more then p < SECTOR && p == entryIndex % SECTOR && Loaded(chain, l, t)
                           && IsPosition(entryIndex, vol.g.secPerClus, l, t, p) && got + Ahead(chain, l, t, p) == whole
              else got == whole
    {
      if entryIndex == 0 {
        more, l, t, p := true, 0, 0, 0;
        RestStart(vol.g, vol.disk, chain, 0);
        LoadSector(chain, 0, 0);
      } else {
        more, l, t, p := FetchOn(entryIndex, got, whole, chain, k, s, o);
      }
    }

    /** The same behind the first byte. */
    method FetchOn(entryIndex: nat, ghost got: seq<byte>, ghost whole: seq<byte>, ghost chain: seq<nat>, ghost k: nat,
                   ghost s: nat, ghost o: nat)
      returns (more: bool, ghost l: nat, ghost t: nat, ghost p: nat)
      requires vol.Valid() && Chain(vol.g, vol.disk, chain) && InRange(vol.g, chain) && Loaded(chain, k, s) && o > 0
      requires IsPosition(entryIndex, vol.g.secPerClus, k, s, o) && got + Ahead(chain, k, s, o) == whole
      modifies `cluster, `sectorIndex, vol.sdBuffer
      ensures vol.Valid()
      ensures if more then p < SECTOR && p == entryIndex % SECTOR && Loaded(chain, l, t)
                           && IsPosition(entryIndex, vol.g.secPerClus, l, t, p) && got + Ahead(chain, l, t, p) == whole
              else got == whole
    {
      more, l, t, p := true, k, s, o;
      SectorOffset(entryIndex, vol.g.secPerClus, k, s, o);
      if entryIndex % SECTOR == 0 {
        assert o == SECTOR;
        FollowingEnd(vol.g, vol.disk, chain, k, s, vol.sdBuffer[..]);
        more, l, t := NextSector(entryIndex, chain, k, s);
        p := 0;
      }
    }

    /** Copies the next byte. */
    method ReadByte(f: File, buffer: array<byte>, idx: nat, ghost whole: seq<byte>, ghost chain: seq<nat>, ghost k: nat,
                    ghost s: nat, ghost o: nat)
      returns (more: bool, ghost l: nat, ghost t: nat, ghost p: nat)
      requires vol.Valid() && Chain(vol.g, vol.disk, chain) && InRange(vol.g, chain) && buffer != vol.sdBuffer
      requires idx < buffer.Length && Standing(f.entryIndex, chain, k, s, o)
      requires buffer[..idx] + Coming(f.entryIndex, chain, k, s, o) == whole
      modifies `cluster, `sectorIndex, vol.sdBuffer, f`entryIndex, buffer
      ensures vol.Valid() && buffer[idx + 1..] == old(buffer[idx + 1..])
      ensures if more then f.entryIndex == old(f.entryIndex) + 1 && Standing(f.entryIndex, chain, l, t, p)
                           && buffer[..idx + 1] + Coming(f.entryIndex, chain, l, t, p) == whole
              else f.entryIndex == 0 && buffer[..] == old(buffer[..]) && buffer[..idx] == whole
    {
      ghost var got: seq<byte> := buffer[..idx];
      more, l, t, p := Fetch(f.entryIndex, got, whole, chain, k, s, o);
      if !more {
        f.entryIndex := 0;
        return;
      }
      var b := vol.sdBuffer[f.entryIndex % SECTOR];
      TakeByte(got, whole, chain, l, t, p, b);
      buffer[idx] := b;
      f.entryIndex := f.entryIndex + 1;
      p := p + 1;
      assert buffer[..idx + 1] == got + [b];
    }

    /** The loop of a read, which finds `whole` from where it stands. */
    method ReadOn(f: File, buffer: array<byte>, len: u32, ghost whole: seq<byte>, ghost chain: seq<nat>, ghost k: nat,
                  ghost s: nat, ghost o: nat)
      returns (idx: nat, ghost l: nat, ghost t: nat, ghost p: nat)
      requires vol.Valid() && Chain(vol.g, vol.disk, chain) && InRange(vol.g, chain) && len <= buffer.Length
               && buffer != vol.sdBuffer
      requires Standing(f.entryIndex, chain, k, s, o) && whole == Coming(f.entryIndex, chain, k, s, o)
      modifies `cluster, `sectorIndex, vol.sdBuffer, f`entryIndex, buffer
      ensures vol.Valid() && idx <= len && buffer[idx..] == old(buffer[idx..])
      ensures idx == (if len <= |whole| then len else |whole|) && buffer[..idx] == whole[..idx]
      ensures if len <= |whole| then f.entryIndex == old(f.entryIndex) + idx && Standing(f.entryIndex, chain, l, t, p)
                                     && Coming(f.entryIndex, chain, l, t, p) == whole[idx..]
              else f.entryIndex == 0
    {
      idx, l, t, p := 0, k, s, o;
      var more := true;
      ghost var was: seq<byte> := buffer[..];
      assert buffer[..0] + whole == whole;
      while more && idx < len
        invariant vol.Valid() && idx <= len && buffer[idx..] == was[idx..]
        invariant if more then f.entryIndex == old(f.entryIndex) + idx && Standing(f.entryIndex, chain, l, t, p)
                               && buffer[..idx] + Coming(f.entryIndex, chain, l, t, p) == whole
                  else f.entryIndex == 0 && buffer[..idx] == whole && idx < len
        decreases more, len - idx
      {
        TailKept(buffer[..], was, idx);
        more, l, t, p := ReadByte(f, buffer, idx, whole, chain, l, t, p);
        if more {
          idx := idx + 1;
        }
      }
    }

    /** Reads the next `len` bytes of a file, from the start or from where the last read stopped.
        `valid` says whether the file has a name, and `looked` which sector the name lookup has left
        in the buffer, if it read one. A read that continues inside a sector takes its bytes from the
        buffer, whatever that holds now. At the end of the chain the position goes back to the start. */
    method FileRead(f: File, buffer: array<byte>, len: u32, valid: bool, looked: Option<nat>, ghost chain: seq<nat>,
                    ghost k: nat, ghost s: nat, ghost o: nat)
      returns (idx: nat, ghost l: nat, ghost t: nat, ghost p: nat)
      requires vol.Valid() && Chain(vol.g, vol.disk, chain) && InRange(vol.g, chain) && chain[0] == f.startCluster
      requires len <= buffer.Length && buffer != vol.sdBuffer && (looked.Some? ==> looked.value < |vol.disk|)
      requires if f.entryIndex == 0 then k == s == o == 0 else Standing(f.entryIndex, chain, k, s, o)
      modifies `cluster, `sectorIndex, vol.sdBuffer, f`entryIndex, buffer
      ensures vol.Valid() && idx <= len && buffer[idx..] == old(buffer[idx..])
      ensures !valid || !f.canRead ==> idx == 0 && f.entryIndex == old(f.entryIndex)
      ensures var cur := if looked.Some? then vol.disk[looked.value] else old(vol.sdBuffer[..]);
              var whole := if old(f.entryIndex) == 0 then ClustersFrom(vol.g, vol.disk, chain, 0)
                           else Following(vol.g, vol.disk, chain, k, s, cur, o);
              valid && f.canRead ==>
                && idx == (if len <= |whole| then len else |whole|) && buffer[..idx] == whole[..idx]
                && if len <= |whole| then
                     f.entryIndex == old(f.entryIndex) + idx && Standing(f.entryIndex, chain, l, t, p)
                     && Coming(f.entryIndex, chain, l, t, p) == whole[idx..]
                   else f.entryIndex == 0
    {
      idx, l, t, p := 0, k, s, o;
      if looked.Some? {
        vol.ReadSector(looked.value);
      }
      if !valid || !f.canRead { return; }
      if f.entryIndex == 0 {
        cluster, sectorIndex := f.startCluster, 0;
      }
      ghost var whole := Coming(f.entryIndex, chain, k, s, o);
      idx, l, t, p := ReadOn(f, buffer, len, whole, chain, k, s, o);
    }
  }

  // ---------------------------------------------------------------------------------------------
  // Reading in pieces

  /** What the buffer held does not matter at the end of a sector, or when it held that sector. */
  lemma FollowingKept(g: Layout, disk: Disk, chain: seq<nat>, k: nat, s: nat, cur: Sector, o: nat)
    requires Fits(g, disk) && InRange(g, chain) && k < |chain| && s < g.secPerClus && o <= SECTOR
    ensures Following(g, disk, chain, k, s, cur, o) == Rest(g, disk, chain, k, s, o)
            <==> cur[o..] == SectorOf(g, disk, chain[k], s)[o..]
  {
    var b, after := SectorOf(g, disk, chain[k], s),
                    SectorsFrom(g, disk, chain[k], s + 1) + ClustersFrom(g, disk, chain, k + 1);
    assert (cur[o..] + after)[..SECTOR - o] == cur[o..] && (b[o..] + after)[..SECTOR - o] == b[o..];
  }

  function Least(a: nat, b: nat): nat { if a <= b then a else b }

  /** The sector that a name lookup leaves in the buffer, if it reads one. */
  function LookupSector(disk: Disk, looked: Option<nat>): Option<Sector>
    requires looked.Some? ==> looked.value < |disk|
  {
    if looked.Some? then Some(disk[looked.value]) else None
  }

  /** What a read behind the first `n` bytes finds. When a lookup has read a sector, and `n` bytes do
      not end with one, the bytes up to the sector's end are those of the sector looked up. */
  function Found(whole: seq<byte>, n: nat, dir: Option<Sector>): seq<byte>
    requires n <= |whole| && (n % SECTOR != 0 ==> n + SECTOR - n % SECTOR <= |whole|)
  {
    if dir.None? || n % SECTOR == 0 then whole[n..]
    else dir.value[n % SECTOR..] + whole[n + SECTOR - n % SECTOR..]
  }

  /** A file of whole sectors that has `n` bytes has the sector of the next one. */
  predicate WholeSectors(whole: seq<byte>, n: nat) {
    n <= |whole| && (n % SECTOR != 0 ==> n + SECTOR - n % SECTOR <= |whole|)
  }

  /** How many of the next `m` bytes come from the sector that the first `n` bytes end in. */
  function FromBuffer(n: nat, m: nat): (k: nat)
    ensures k <= m && (k < m ==> n % SECTOR + k == SECTOR) && n % SECTOR + k <= SECTOR
  {
    Least(m, SECTOR - n % SECTOR)
  }

  /** The next `m` bytes found are those of the file exactly when the lookup has read no sector, which
      holds of a short name, or the first `n` bytes end with a sector, or the sector looked up agrees
      with the file on the bytes taken from it. */
  lemma FoundIsRight(whole: seq<byte>, n: nat, m: nat, dir: Option<Sector>)
    requires WholeSectors(whole, n)
    ensures |Found(whole, n, dir)| == |whole| - n
    ensures Found(whole, n, dir)[..Least(m, |whole| - n)] == whole[n..][..Least(m, |whole| - n)]
            <==> dir.None? || n % SECTOR == 0
                 || dir.value[n % SECTOR..][..FromBuffer(n, m)] == whole[n..][..FromBuffer(n, m)]
  {
    if dir.Some? && n % SECTOR != 0 {
      var left, k, j := SECTOR - n % SECTOR, FromBuffer(n, m), Least(m, |whole| - n);
      var d, rest := dir.value[n % SECTOR..], whole[n..];
      assert k <= j;
      assert whole[n + SECTOR - n % SECTOR..] == rest[left..];
      SpliceAgrees(d, rest, left, j, k);
    }
  }

  /** A string whose front is replaced agrees with the old one up to `j` exactly when the fronts do. */
  lemma SpliceAgrees(d: seq<byte>, rest: seq<byte>, left: nat, j: nat, k: nat)
    requires |d| == left <= |rest| && j <= |rest| && k == Least(j, left)
    ensures (d + rest[left..])[..j] == rest[..j] <==> d[..k] == rest[..k]
  {
    var all := d + rest[left..];
    assert all[..j][..k] == d[..k] && rest[..j][..k] == rest[..k];
    if d[..k] == rest[..k] {
      forall i | 0 <= i < j
        ensures all[i] == rest[i]
      {
        if i < left { assert d[..k][i] == rest[..k][i]; }
      }
    }
  }

  /** Reads the second piece. */
  method ReadSecond(files: Files, f: File, n: nat, second: array<byte>, m: u32, looked: Option<nat>,
                    ghost whole: seq<byte>, ghost chain: seq<nat>, ghost k: nat, ghost s: nat, ghost o: nat)
    returns (j: nat)
    requires files.vol.Valid() && Chain(files.vol.g, files.vol.disk, chain) && InRange(files.vol.g, chain)
             && chain[0] == f.startCluster
    requires m <= second.Length && second != files.vol.sdBuffer && (looked.Some? ==> looked.value < |files.vol.disk|)
    requires whole == ClustersFrom(files.vol.g, files.vol.disk, chain, 0)
    requires f.canRead && f.entryIndex == n <= |whole| && files.Standing(n, chain, k, s, o)
             && files.Coming(n, chain, k, s, o) == whole[n..]
    modifies files`cluster, files`sectorIndex, files.vol.sdBuffer, f`entryIndex, second
    ensures files.vol.Valid() && WholeSectors(whole, n) && j == Least(m, |whole| - n)
    ensures second[..j] == Found(whole, n, LookupSector(files.vol.disk, looked))[..j]
  {
    ghost var next := NextPiece(files, n, looked, whole, chain, k, s, o);
    FoundIsRight(whole, n, m, LookupSector(files.vol.disk, looked));
    ghost var l, t, p;
    j, l, t, p := files.FileRead(f, second, m, true, looked, chain, k, s, o);
  }

  /** Reading a file in two pieces. */
  method ReadInPieces(files: Files, f: File, first: array<byte>, n: u32, second: array<byte>, m: u32,
                      looked: Option<nat>, ghost chain: seq<nat>)
    returns (i: nat, j: nat)
    requires files.vol.Valid() && Chain(files.vol.g, files.vol.disk, chain) && InRange(files.vol.g, chain)
             && chain[0] == f.startCluster
    requires n <= first.Length && m <= second.Length && first != second && first != files.vol.sdBuffer
             && second != files.vol.sdBuffer
    requires (looked.Some? ==> looked.value < |files.vol.disk|) && f.entryIndex == 0 && f.canRead
    requires n <= |ClustersFrom(files.vol.g, files.vol.disk, chain, 0)|
    modifies files`cluster, files`sectorIndex, files.vol.sdBuffer, f`entryIndex, first, second
    ensures files.vol.Valid() && i == n && j <= m
            && first[..i] == ClustersFrom(files.vol.g, files.vol.disk, chain, 0)[..n]
    ensures var whole, dir := ClustersFrom(files.vol.g, files.vol.disk, chain, 0), LookupSector(files.vol.disk, looked);
            && WholeSectors(whole, n) && j == Least(m, |whole| - n) && second[..j] == Found(whole, n, dir)[..j]
            && (second[..j] == whole[n..][..j]
                <==> looked.None? || n % SECTOR == 0
                     || dir.value[n % SECTOR..][..FromBuffer(n, m)] == whole[n..][..FromBuffer(n, m)])
  {
    ghost var whole, k, s, o := ClustersFrom(files.vol.g, files.vol.disk, chain, 0), 0, 0, 0;
    i, k, s, o := files.FileRead(f, first, n, true, looked, chain, 0, 0, 0);
    j := ReadSecond(files, f, n, second, m, looked, whole, chain, k, s, o);
    FoundIsRight(whole, n, m, LookupSector(files.vol.disk, looked));
  }

  lemma NextPiece(files: Files, pos: nat, looked: Option<nat>, whole: seq<byte>, chain: seq<nat>, k: nat, s: nat,
                  o: nat)
    returns (next: seq<byte>)
    requires files.vol.Valid() && InRange(files.vol.g, chain) && files.Standing(pos, chain, k, s, o)
    requires (looked.Some? ==> looked.value < |files.vol.disk|)
             && whole == ClustersFrom(files.vol.g, files.vol.disk, chain, 0)
    requires pos <= |whole| && files.Coming(pos, chain, k, s, o) == whole[pos..]
    ensures var cur := if looked.Some? then files.vol.disk[looked.value] else files.vol.sdBuffer[..];
            next == if pos == 0 then whole else Following(files.vol.g, files.vol.disk, chain, k, s, cur, o)
    ensures WholeSectors(whole, pos) && next == Found(whole, pos, LookupSector(files.vol.disk, looked))
  {
    var g, cur := files.vol.g, if looked.Some? then files.vol.disk[looked.value] else files.vol.sdBuffer[..];
    next := if pos == 0 then whole else Following(g, files.vol.disk, chain, k, s, cur, o);
    SectorOffset(pos, g.secPerClus, k, s, o);
    if pos % SECTOR == 0 {
      if pos > 0 {
        FollowingEnd(g, files.vol.disk, chain, k, s, cur);
        FollowingEnd(g, files.vol.disk, chain, k, s, files.vol.sdBuffer[..]);
      }
    } else {
      var after := SectorsFrom(g, files.vol.disk, chain[k], s + 1) + ClustersFrom(g, files.vol.disk, chain, k + 1);
      BehindSector(whole, pos, files.vol.sdBuffer[..], o, after);
    }
  }

  lemma BehindSector(whole: seq<byte>, pos: nat, cur: Sector, o: nat, after: seq<byte>)
    requires o < SECTOR && pos <= |whole| && whole[pos..] == cur[o..] + after
    ensures pos + SECTOR - o <= |whole| && after == whole[pos + SECTOR - o..]
  {
    assert |whole| - pos == |whole[pos..]| == SECTOR - o + |after|;
    assert whole[pos + SECTOR - o..] == whole[pos..][SECTOR - o..];
  }

  // ---------------------------------------------------------------------------------------------
  // Writing

  /** The byte at position `p` of a cluster. */
  function ByteAt(g: Layout, disk: Disk, c: nat, p: nat): byte
    requires Fits(g, disk) && 2 <= c < g.clusters && p < g.secPerClus * SECTOR
  {
    SectorOf(g, disk, c, p / SECTOR)[p % SECTOR]
  }

  /** The bytes of a cluster up to `n` are those of `wanted`. */
  predicate HoldsUpTo(g: Layout, disk: Disk, c: nat, wanted: seq<byte>, n: nat)
    requires Fits(g, disk) && 2 <= c < g.clusters && n <= g.secPerClus * SECTOR
  {
    n <= |wanted| && forall p :: 0 <= p < n ==> ByteAt(g, disk, c, p) == wanted[p]
  }

  lemma {:induction false} SectorsFromAt(g: Layout, disk: Disk, c: nat, s: nat, p: nat)
    requires Fits(g, disk) && 2 <= c < g.clusters && s <= g.secPerClus && p < (g.secPerClus - s) * SECTOR
    ensures SectorsFrom(g, disk, c, s)[p] == SectorOf(g, disk, c, s + p / SECTOR)[p % SECTOR]
    decreases g.secPerClus - s
  {
    InFirst(p);
    var first: seq<byte>, rest := SectorOf(g, disk, c, s), SectorsFrom(g, disk, c, s + 1);
    assert SectorsFrom(g, disk, c, s) == first + rest;
    if p >= SECTOR {
      SectorsFromAt(g, disk, c, s + 1, p - SECTOR);
      assert (first + rest)[p] == rest[p - SECTOR];
    }
  }

  lemma InFirst(p: nat)
    ensures p < SECTOR ==> p / SECTOR == 0 && p % SECTOR == p
    ensures p >= SECTOR ==> (p - SECTOR) / SECTOR == p / SECTOR - 1 && (p - SECTOR) % SECTOR == p % SECTOR
  {
  }

  /** The contents of the first cluster of a file, up to its size. */
  function FirstBytes(g: Layout, disk: Disk, c: nat, n: nat): (b: seq<byte>)
    requires Fits(g, disk) && 2 <= c < g.clusters && n <= g.secPerClus * SECTOR
    ensures |b| == n
  {
    SectorsFrom(g, disk, c, 0)[..n]
  }

  lemma HeldBytes(g: Layout, disk: Disk, c: nat, wanted: seq<byte>, n: nat)
    requires Fits(g, disk) && 2 <= c < g.clusters && n <= g.secPerClus * SECTOR && n <= |wanted|
    ensures HoldsUpTo(g, disk, c, wanted, n) <==> FirstBytes(g, disk, c, n) == wanted[..n]
  {
    var b := FirstBytes(g, disk, c, n);
    forall p | 0 <= p < n
      ensures b[p] == ByteAt(g, disk, c, p)
    {
      SectorsFromAt(g, disk, c, 0, p);
    }
    assert b == wanted[..n] <==> forall p :: 0 <= p < n ==> b[p] == wanted[p];
  }

  /** What writing the s-th sector of a cluster does to its bytes. */
  lemma SectorSet(g: Layout, was: Disk, c: nat, s: nat, buf: Sector, p: nat) returns (now: Disk)
    requires Fits(g, was) && 2 <= c < g.clusters && s < g.secPerClus && p < g.secPerClus * SECTOR
    ensures 0 <= StartSector(g, c) + s < |was| && now == was[StartSector(g, c) + s := buf] && Fits(g, now)
    ensures ByteAt(g, now, c, p) == if p / SECTOR == s then buf[p % SECTOR] else ByteAt(g, was, c, p)
  {
    SectorOnDisk(g, was, c, s);
    SectorOnDisk(g, was, c, p / SECTOR);
    now := was[StartSector(g, c) + s := buf];
  }

  /** Writing the next sector of a cluster extends what it holds. */
  lemma SectorWritten(g: Layout, was: Disk, c: nat, wanted: seq<byte>, s: nat, buf: Sector, from: nat, n: nat)
    returns (now: Disk)
    requires Fits(g, was) && 2 <= c < g.clusters && s < g.secPerClus && s * SECTOR <= from <= n <= (s + 1) * SECTOR
    requires HoldsUpTo(g, was, c, wanted, from) && n <= |wanted|
    requires forall i :: s * SECTOR <= i < n ==> buf[i - s * SECTOR] == wanted[i]
    ensures 0 <= StartSector(g, c) + s < |was| && now == was[StartSector(g, c) + s := buf] && Fits(g, now)
    ensures n <= g.secPerClus * SECTOR && HoldsUpTo(g, now, c, wanted, n)
  {
    now := SectorSet(g, was, c, s, buf, 0);
    forall p | 0 <= p < n
      ensures ByteAt(g, now, c, p) == wanted[p]
    {
      var d := SectorSet(g, was, c, s, buf, p);
      if p / SECTOR == s {
        assert p % SECTOR == p - s * SECTOR;
      }
    }
  }

  /** The disk as before outside one cluster and one sector. */
  predicate SameElsewhere(g: Layout, was: Disk, now: Disk, c: nat, dir: int) {
    && |now| == |was|
    && forall t :: 0 <= t < |was| && !(StartSector(g, c) <= t < StartSector(g, c) + g.secPerClus) && t != dir ==>
         now[t] == was[t]
  }

  /** Sectors of different clusters are different sectors. */
  lemma {:induction false} ClustersApart(g: Layout, c: nat, d: nat, t: nat)
    requires 2 <= c && 2 <= d && c != d && t < g.secPerClus
    ensures !(StartSector(g, c) <= StartSector(g, d) + t < StartSector(g, c) + g.secPerClus)
  {
    if c < d {
      MulMono(c - 1, d - 2, g.secPerClus);
      assert (c - 1) * g.secPerClus == (c - 2) * g.secPerClus + g.secPerClus;
    } else {
      MulMono(d - 1, c - 2, g.secPerClus);
      assert (d - 1) * g.secPerClus == (d - 2) * g.secPerClus + g.secPerClus;
    }
  }

  /** A sector elsewhere does not matter to what a cluster holds. */
  lemma HeldElsewhere(g: Layout, was: Disk, c: nat, wanted: seq<byte>, n: nat, d: nat, t: nat, buf: Sector)
    returns (now: Disk)
    requires Fits(g, was) && 2 <= c < g.clusters && 2 <= d < g.clusters && c != d && t < g.secPerClus
    requires n <= g.secPerClus * SECTOR && HoldsUpTo(g, was, c, wanted, n)
    ensures 0 <= StartSector(g, d) + t < |was| && now == was[StartSector(g, d) + t := buf] && Fits(g, now)
    ensures HoldsUpTo(g, now, c, wanted, n)
  {
    SectorOnDisk(g, was, d, t);
    ClustersApart(g, c, d, t);
    now := was[StartSector(g, d) + t := buf];
    forall p | 0 <= p < n
      ensures ByteAt(g, now, c, p) == wanted[p]
    {
      SectorOnDisk(g, was, c, p / SECTOR);
      assert ByteAt(g, was, c, p) == wanted[p];
    }
  }

  /** Copies data into the sector buffer from `byteIndex` on, up to the end of either. */
  method FillBuffer(sdBuffer: array<byte>, data: seq<byte>, byteCnt: nat, byteIndex: nat) returns (now: nat)
    requires sdBuffer.Length == SECTOR && byteIndex < SECTOR && byteCnt < |data|
    modifies sdBuffer
    ensures now == if byteCnt + SECTOR - byteIndex <= |data| then byteCnt + SECTOR - byteIndex else |data|
    ensures forall i :: 0 <= i < byteIndex ==> sdBuffer[i] == old(sdBuffer[i])
    ensures forall i :: byteIndex <= i < byteIndex + now - byteCnt ==> sdBuffer[i] == data[byteCnt + i - byteIndex]
  {
    var i := byteIndex;
    now := byteCnt;
    while i < SECTOR
      invariant byteIndex <= i <= SECTOR && now == byteCnt + i - byteIndex && (now < |data| || i == SECTOR)
      invariant now <= |data|
      invariant forall j :: 0 <= j < byteIndex ==> sdBuffer[j] == old(sdBuffer[j])
      invariant forall j :: byteIndex <= j < i ==> sdBuffer[j] == data[byteCnt + j - byteIndex]
    {
      sdBuffer[i] := data[now];
      now := now + 1;
      if now == |data| { break; }
      i := i + 1;
    }
  }

  /** Writes the next sector of a cluster: what the buffer holds up to `byteIndex`, then data. */
  method WriteData(vol: Volume, c: nat, sector: nat, byteIndex: nat, data: seq<byte>, byteCnt: nat,
                   ghost wanted: seq<byte>)
    returns (now: nat)
    requires vol.Valid() && 2 <= c < vol.g.clusters && sector < vol.g.secPerClus
    requires byteIndex < SECTOR && byteCnt < |data|
    requires |wanted| == sector * SECTOR + byteIndex + |data| - byteCnt
             && wanted[sector * SECTOR + byteIndex..] == data[byteCnt..]
    requires HoldsUpTo(vol.g, vol.disk, c, wanted, sector * SECTOR + byteIndex)
    requires forall i :: 0 <= i < byteIndex ==> vol.sdBuffer[i] == wanted[sector * SECTOR + i]
    modifies vol`disk, vol.sdBuffer
    ensures vol.Valid() && byteCnt < now <= |data|
    ensures now < |data| ==> now - byteCnt == SECTOR - byteIndex
    ensures var n := sector * SECTOR + byteIndex + now - byteCnt;
            n <= vol.g.secPerClus * SECTOR && HoldsUpTo(vol.g, vol.disk, c, wanted, n)
    ensures 0 <= StartSector(vol.g, c) + sector < |old(vol.disk)|
    ensures SameElsewhere(vol.g, old(vol.disk), vol.disk, c, -1)
  {
    var from := sector * SECTOR + byteIndex;
    now := FillBuffer(vol.sdBuffer, data, byteCnt, byteIndex);
    forall i | sector * SECTOR <= i < from + now - byteCnt
      ensures vol.sdBuffer[i - sector * SECTOR] == wanted[i]
    {
      if i >= from {
        assert wanted[i] == wanted[from..][i - from] == data[byteCnt..][i - from];
      }
    }
    ghost var d := SectorWritten(vol.g, vol.disk, c, wanted, sector, vol.sdBuffer[..], from, from + now - byteCnt);
    vol.WriteSector(vol.g.dataStart + (c - 2) * vol.g.secPerClus + sector);
  }

  /** How much of the data a cluster takes from position `from` on. */
  function Room(g: Layout, from: nat, n: nat): (m: nat)
    requires from <= g.secPerClus * SECTOR
    ensures m <= n && from + m <= g.secPerClus * SECTOR
  {
    if from + n <= g.secPerClus * SECTOR then n else g.secPerClus * SECTOR - from
  }

  /** Writes data into a cluster from position `from` on, sector by sector, up to the end of the
      data or of the cluster. */
  method WriteSectors(vol: Volume, c: nat, from: nat, data: seq<byte>, ghost wanted: seq<byte>) returns (byteCnt: nat)
    requires vol.Valid() && 2 <= c < vol.g.clusters && data != [] && from < vol.g.secPerClus * SECTOR
    requires |wanted| == from + |data| && wanted[from..] == data
    requires HoldsUpTo(vol.g, vol.disk, c, wanted, from)
    modifies vol`disk, vol.sdBuffer
    ensures vol.Valid() && byteCnt == Room(vol.g, from, |data|) && HoldsUpTo(vol.g, vol.disk, c, wanted, from + byteCnt)
    ensures SameElsewhere(vol.g, old(vol.disk), vol.disk, c, -1)
  {
    var byteIndex: nat, sector: nat := from % SECTOR, from / SECTOR;
    InsideCluster(vol.g, from);
    if byteIndex != 0 {
      ReadPartial(vol, c, sector, byteIndex, wanted);
    }
    byteCnt := 0;
    while sector < vol.g.secPerClus && byteCnt < |data|
      invariant vol.Valid() && byteCnt <= |data| && byteIndex < SECTOR && sector <= vol.g.secPerClus
      invariant from + byteCnt <= vol.g.secPerClus * SECTOR && HoldsUpTo(vol.g, vol.disk, c, wanted, from + byteCnt)
      invariant byteCnt < |data| ==>
          from + byteCnt == sector * SECTOR + byteIndex && (sector == vol.g.secPerClus ==> byteIndex == 0)
          && forall i :: 0 <= i < byteIndex ==> vol.sdBuffer[i] == wanted[sector * SECTOR + i]
      invariant SameElsewhere(vol.g, old(vol.disk), vol.disk, c, -1)
    {
      byteCnt := WriteOne(vol, c, from, sector, byteIndex, data, byteCnt, wanted);
      byteIndex, sector := 0, sector + 1;
    }
  }

  /** One turn of the loop over the sectors. */
  method WriteOne(vol: Volume, c: nat, from: nat, sector: nat, byteIndex: nat, data: seq<byte>, byteCnt: nat,
                  ghost wanted: seq<byte>)
    returns (now: nat)
    requires vol.Valid() && 2 <= c < vol.g.clusters && sector < vol.g.secPerClus && byteIndex < SECTOR
             && byteCnt < |data|
    requires |wanted| == from + |data| && wanted[from..] == data
    requires from + byteCnt == sector * SECTOR + byteIndex
    requires HoldsUpTo(vol.g, vol.disk, c, wanted, from + byteCnt)
    requires forall i :: 0 <= i < byteIndex ==> vol.sdBuffer[i] == wanted[sector * SECTOR + i]
    modifies vol`disk, vol.sdBuffer
    ensures vol.Valid() && byteCnt < now <= |data|
    ensures from + now <= vol.g.secPerClus * SECTOR && HoldsUpTo(vol.g, vol.disk, c, wanted, from + now)
    ensures now < |data| ==> from + now == (sector + 1) * SECTOR
    ensures SameElsewhere(vol.g, old(vol.disk), vol.disk, c, -1)
  {
    assert wanted[from + byteCnt..] == wanted[from..][byteCnt..] == data[byteCnt..];
    now := WriteData(vol, c, sector, byteIndex, data, byteCnt, wanted);
  }

  lemma InsideCluster(g: Layout, p: nat)
    requires p < g.secPerClus * SECTOR
    ensures p / SECTOR < g.secPerClus
  {
  }

  /** Loads the sector that data is appended to. */
  method ReadPartial(vol: Volume, c: nat, sector: nat, byteIndex: nat, ghost wanted: seq<byte>)
    requires vol.Valid() && 2 <= c < vol.g.clusters && sector < vol.g.secPerClus && byteIndex < SECTOR
    requires HoldsUpTo(vol.g, vol.disk, c, wanted, sector * SECTOR + byteIndex)
    modifies vol.sdBuffer
    ensures vol.Valid() && forall i :: 0 <= i < byteIndex ==> vol.sdBuffer[i] == wanted[sector * SECTOR + i]
  {
    SectorOnDisk(vol.g, vol.disk, c, sector);
    vol.ReadSector(vol.g.dataStart + (c - 2) * vol.g.secPerClus + sector);
    forall i | 0 <= i < byteIndex
      ensures vol.sdBuffer[i] == wanted[sector * SECTOR + i]
    {
      var p := sector * SECTOR + i;
      assert p / SECTOR == sector && p % SECTOR == i;
      assert ByteAt(vol.g, vol.disk, c, p) == wanted[p] && vol.sdBuffer[..][i] == vol.sdBuffer[i];
    }
  }

  /** Where the file's directory entry is, and that it lies outside the file's first cluster. */
  ghost predicate WellPlaced(g: Layout, f: File) {
    && 2 <= f.startCluster < g.clusters && 2 <= f.dirCluster < g.clusters && f.dirCluster != f.startCluster
    && f.dirSector < g.secPerClus && f.dirEntry < 16 && |f.head| == 28
  }

  /** Stores the file's directory entry with its present size. */
  method UpdateEntry(vol: Volume, f: File)
    requires vol.Valid() && WellPlaced(vol.g, f)
    modifies vol`disk, vol.sdBuffer
    ensures vol.Valid() && 0 <= StartSector(vol.g, f.dirCluster) + f.dirSector < |vol.disk| == |old(vol.disk)|
    ensures var dir := StartSector(vol.g, f.dirCluster) + f.dirSector;
            vol.disk == old(vol.disk)[dir := Patch(old(vol.disk)[dir], 32 * f.dirEntry, f.head + Le32(f.fileSize))]
  {
    SectorOnDisk(vol.g, vol.disk, f.dirCluster, f.dirSector);
    var dir := vol.g.dataStart + (f.dirCluster - 2) * vol.g.secPerClus + f.dirSector;
    vol.ReadSector(dir);
    var at, entry := 32 * f.dirEntry, f.head + Le32(f.fileSize);
    ghost var was: seq<byte> := vol.sdBuffer[..];
    forall i | 0 <= i < 32 { vol.sdBuffer[at + i] := entry[i]; }
    assert vol.sdBuffer[..] == Patch(was, at, entry);
    vol.WriteSector(dir);
  }

  function SizeBefore(f: File): nat
    reads f
  {
    if f.canWrite then 0 else f.fileSize
  }

  /** Follows the FAT for `clusterCnt` steps: the cluster reached, and the one in front of it. */
  method WalkClusters(vol: Volume, start: u32, clusterCnt: nat, ghost chain: seq<nat>)
    returns (tempCluster: u32, currentCluster: u32)
    requires vol.Valid() && Chain(vol.g, vol.disk, chain) && chain[0] == start && 0 < clusterCnt
    modifies vol.sdBuffer
    ensures vol.Valid()
    ensures clusterCnt <= |chain| ==>
              && tempCluster == chain[clusterCnt - 1]
              && if clusterCnt < |chain| then currentCluster == chain[clusterCnt] else currentCluster >= FAT_EOC
  {
    tempCluster, currentCluster := start, start;
    ghost var i := 0;
    var left := clusterCnt;
    assert LinkAt(vol.g, vol.disk, chain, 0);
    while left > 0
      invariant vol.Valid() && 0 <= left <= clusterCnt && i == clusterCnt - left
      invariant 0 < i <= |chain| ==> tempCluster == chain[i - 1]
      invariant i < |chain| ==> currentCluster == chain[i] < vol.g.clusters
      invariant i == |chain| ==> currentCluster >= FAT_EOC
    {
      if i < |chain| { assert LinkAt(vol.g, vol.disk, chain, i); }
      if i + 1 < |chain| { assert LinkAt(vol.g, vol.disk, chain, i + 1); }
      tempCluster := currentCluster;
      currentCluster := vol.FatNextCluster(currentCluster);
      left, i := left - 1, i + 1;
    }
  }

  /** The cluster an append begins in. It is the one that holds the end of the file exactly when the
      file is smaller than a cluster. */
  method AppendCluster(vol: Volume, f: File, ghost chain: seq<nat>) returns (currentCluster: u32)
    requires vol.Valid() && Chain(vol.g, vol.disk, chain) && chain[0] == f.startCluster
    modifies vol.sdBuffer
    ensures vol.Valid()
    ensures var k := f.fileSize / SECTOR / vol.g.secPerClus;
            k < |chain| && currentCluster == chain[k] <==> f.fileSize < vol.g.secPerClus * SECTOR
  {
    var sectorIndex := f.fileSize / SECTOR;
    var clusterCnt := sectorIndex / vol.g.secPerClus + 1;
    SmallFile(f.fileSize, vol.g.secPerClus);
    assert LinkAt(vol.g, vol.disk, chain, 0);
    if clusterCnt <= |chain| { assert LinkAt(vol.g, vol.disk, chain, clusterCnt - 1); }
    currentCluster := f.startCluster;
    if clusterCnt > 1 {
      var tempCluster;
      tempCluster, currentCluster := WalkClusters(vol, f.startCluster, clusterCnt, chain);
    }
  }

  lemma SmallFile(size: nat, spc: nat)
    requires spc > 0
    ensures size / SECTOR / spc == 0 <==> size < spc * SECTOR
  {
    var q := size / SECTOR;
    assert q < spc <==> size < spc * SECTOR;
    assert q == q / spc * spc + q % spc;
    if q < spc && q / spc > 0 {
      MulMono(1, q / spc, spc);
    }
  }

  /** The data and what comes before it end inside the file's first cluster. */
  predicate FitsFirst(g: Layout, before: nat, n: nat) { before + n <= g.secPerClus * SECTOR }

  /** Overwrites a file, or appends to one that is smaller than a cluster. When the data ends inside
      the cluster, the contents become the old ones, when appending, and the data, and the directory
      entry gets the new size. Otherwise the write succeeds as well, but the cluster takes what fits
      of the data and the size stays as it was. Nothing else on the disk changes. */
  method FileWrite(vol: Volume, f: File, data: seq<byte>) returns (ok: bool)
    requires vol.Valid() && WellPlaced(vol.g, f) && data != []
    requires SizeBefore(f) < vol.g.secPerClus * SECTOR
    modifies vol`disk, vol.sdBuffer, f`fileSize
    ensures vol.Valid() && ok == (f.canWrite != f.canAppend)
    ensures !ok ==> vol.disk == old(vol.disk) && f.fileSize == old(f.fileSize)
    ensures ok ==> var before := old(SizeBefore(f));
                   var n := Room(vol.g, before, |data|);
                   FirstBytes(vol.g, vol.disk, f.startCluster, before + n)
                   == FirstBytes(vol.g, old(vol.disk), f.startCluster, before) + data[..n]
    ensures ok && !FitsFirst(vol.g, old(SizeBefore(f)), |data|) ==>
              f.fileSize == old(f.fileSize) && SameElsewhere(vol.g, old(vol.disk), vol.disk, f.startCluster, -1)
    ensures ok && FitsFirst(vol.g, old(SizeBefore(f)), |data|) ==>
              && f.fileSize == old(SizeBefore(f)) + |data|
              && var dir := StartSector(vol.g, f.dirCluster) + f.dirSector;
                 && 0 <= dir < |vol.disk| && SameElsewhere(vol.g, old(vol.disk), vol.disk, f.startCluster, dir)
                 && vol.disk[dir] == Patch(old(vol.disk)[dir], 32 * f.dirEntry, f.head + Le32(f.fileSize))
  {
    if !f.canWrite && !f.canAppend { return false; }
    if f.canWrite && f.canAppend { return false; }
    var from := if f.canWrite then 0 else f.fileSize;
    ghost var g, c, was := vol.g, f.startCluster, vol.disk;
    ghost var wanted := FirstBytes(g, was, c, from) + data;
    HeldBytes(g, was, c, wanted, from);
    assert wanted[..from] == FirstBytes(g, was, c, from);
    var byteCnt := WriteSectors(vol, f.startCluster, from, data, wanted);
    HeldBytes(g, vol.disk, c, wanted, from + byteCnt);
    assert wanted[..from + byteCnt] == FirstBytes(g, was, c, from) + data[..byteCnt];
    if byteCnt == |data| {
      TotalFits(g, |wanted|);
      f.fileSize := from + |data|;
      Finish(vol, f, was, wanted);
    }
    ok := true;
  }

  /** The directory entry is stored after the data, and leaves the data alone. */
  method Finish(vol: Volume, f: File, ghost was: Disk, ghost wanted: seq<byte>)
    requires vol.Valid() && WellPlaced(vol.g, f) && f.fileSize == |wanted| <= vol.g.secPerClus * SECTOR
    requires HoldsUpTo(vol.g, vol.disk, f.startCluster, wanted, |wanted|)
             && SameElsewhere(vol.g, was, vol.disk, f.startCluster, -1)
    modifies vol`disk, vol.sdBuffer
    ensures vol.Valid() && FirstBytes(vol.g, vol.disk, f.startCluster, f.fileSize) == wanted
    ensures var dir := StartSector(vol.g, f.dirCluster) + f.dirSector;
            && 0 <= dir < |vol.disk| && SameElsewhere(vol.g, was, vol.disk, f.startCluster, dir)
            && vol.disk[dir] == Patch(was[dir], 32 * f.dirEntry, f.head + Le32(f.fileSize))
  {
    ghost var g, mid := vol.g, vol.disk;
    DirOutside(g, mid, f);
    UpdateEntry(vol, f);
    ghost var dir := StartSector(g, f.dirCluster) + f.dirSector;
    ghost var d := HeldElsewhere(g, mid, f.startCluster, wanted, |wanted|, f.dirCluster, f.dirSector, vol.disk[dir]);
    HeldBytes(g, vol.disk, f.startCluster, wanted, |wanted|);
    assert wanted[..|wanted|] == wanted;
  }

  lemma TotalFits(g: Layout, n: nat)
    requires g.secPerClus < 0x100 && n <= g.secPerClus * SECTOR
    ensures n < 0x1_0000_0000
  {
  }

  lemma DirOutside(g: Layout, disk: Disk, f: File)
    requires Fits(g, disk) && WellPlaced(g, f)
    ensures var dir := StartSector(g, f.dirCluster) + f.dirSector;
            0 <= dir < |disk|
            && !(StartSector(g, f.startCluster) <= dir < StartSector(g, f.startCluster) + g.secPerClus)
  {
    SectorOnDisk(g, disk, f.dirCluster, f.dirSector);
    ClustersApart(g, f.startCluster, f.dirCluster, f.dirSector);
  }

  // ---------------------------------------------------------------------------------------------
  // Writing, then reading

  /** Writing to data sectors leaves every chain. */
  lemma ChainsKept(g: Layout, was: Disk, now: Disk, c: nat, dir: int, chain: seq<nat>)
    requires Fits(g, was) && Fits(g, now) && SameElsewhere(g, was, now, c, dir) && 2 <= c < g.clusters
             && g.dataStart <= dir
    requires Chain(g, was, chain)
    ensures Chain(g, now, chain)
  {
    SectorOnDisk(g, was, c, 0);
    forall i | 0 <= i < |chain|
      ensures LinkAt(g, now, chain, i)
    {
      assert LinkAt(g, was, chain, i);
      FatOnDisk(g, was);
      SlotsDistinct(g, was, chain[i], chain[i]);
    }
  }

  /** What the first cluster holds comes first when the file is read. */
  lemma {:induction false} FirstBytesRead(g: Layout, disk: Disk, chain: seq<nat>, n: nat)
    requires Fits(g, disk) && InRange(g, chain) && chain != [] && n <= g.secPerClus * SECTOR
    ensures var whole := ClustersFrom(g, disk, chain, 0); n <= |whole| && whole[..n] == FirstBytes(g, disk, chain[0], n)
  {
    var first, rest := SectorsFrom(g, disk, chain[0], 0), ClustersFrom(g, disk, chain, 1);
    assert (first + rest)[..n] == first[..n];
  }

  /** A write to a file smaller than a cluster, or over a file, then a read: the old contents, when
      appending, and the data, exactly when they end inside the first cluster; otherwise the size is
      still the old one. */
  method WriteThenRead(files: Files, f: File, data: seq<byte>, buffer: array<byte>, looked: Option<nat>,
                       ghost chain: seq<nat>)
    requires files.vol.Valid() && WellPlaced(files.vol.g, f) && data != [] && f.canWrite != f.canAppend && f.canRead
    requires SizeBefore(f) < files.vol.g.secPerClus * SECTOR && f.entryIndex == 0
    requires Chain(files.vol.g, files.vol.disk, chain) && chain[0] == f.startCluster
    requires buffer != files.vol.sdBuffer && SizeBefore(f) + |data| <= buffer.Length && f.fileSize <= buffer.Length
    requires looked.Some? ==> looked.value < |files.vol.disk|
    modifies files`cluster, files`sectorIndex, files.vol`disk, files.vol.sdBuffer, f`fileSize, f`entryIndex, buffer
    ensures var before := old(FirstBytes(files.vol.g, files.vol.disk, f.startCluster,
                                         if f.canWrite then 0 else f.fileSize));
            if |before| + |data| <= files.vol.g.secPerClus * 512 then
              f.fileSize == |before + data| && buffer[..f.fileSize] == before + data
            else f.fileSize == old(f.fileSize)
    ensures f.canAppend ==>
              (f.fileSize == old(f.fileSize) + |data| <==> FitsFirst(files.vol.g, old(f.fileSize), |data|))
  {
    ghost var g, was := files.vol.g, files.vol.disk;
    ChainInRange(g, was, chain);
    DirOutside(g, was, f);
    SectorOnDisk(g, was, f.dirCluster, f.dirSector);
    var ok := FileWrite(files.vol, f, data);
    ChainsKept(g, was, files.vol.disk, f.startCluster, StartSector(g, f.dirCluster) + f.dirSector, chain);
    assert data[..|data|] == data;
    ReadBack(files, f, buffer, looked, chain);
  }

  /** Reads a whole file. */
  method ReadBack(files: Files, f: File, buffer: array<byte>, looked: Option<nat>, ghost chain: seq<nat>)
    requires files.vol.Valid() && Chain(files.vol.g, files.vol.disk, chain) && InRange(files.vol.g, chain)
             && chain[0] == f.startCluster
    requires f.entryIndex == 0 && f.canRead && f.fileSize <= buffer.Length && buffer != files.vol.sdBuffer
    requires looked.Some? ==> looked.value < |files.vol.disk|
    modifies files`cluster, files`sectorIndex, files.vol.sdBuffer, f`entryIndex, buffer
    ensures f.fileSize <= files.vol.g.secPerClus * SECTOR ==>
              buffer[..f.fileSize] == FirstBytes(files.vol.g, files.vol.disk, f.startCluster, f.fileSize)
  {
    if f.fileSize <= files.vol.g.secPerClus * SECTOR {
      FirstBytesRead(files.vol.g, files.vol.disk, chain, f.fileSize);
    }
    var idx;
    ghost var l, t, p;
    idx, l, t, p := files.FileRead(f, buffer, f.fileSize, true, looked, chain, 0, 0, 0);
  }
}
