/**
 The layout of a FAT volume by regions of the disk, and the FAT as bytes: what the arithmetic of
 kernel/src/fs/fat.rs comes to (Microsoft's FAT32 File System Specification 1.03, section "FAT Data Structure").
 */
module FatLayout {
  import opened Prelude
  import opened FatChain

  // ---------------------------------------------------------------------------
  // Regions of the disk
  // ---------------------------------------------------------------------------

  /** How many sectors of `size` bytes it takes to hold `bytes` bytes, taken off one at a time. */
  function SectorsFor(bytes: nat, size: nat): (n: nat)
    requires size > 0
  {
    if bytes == 0 then 0 else if bytes <= size then 1 else 1 + SectorsFor(bytes - size, size)
  }

  /** The lengths of the regions before the clusters: the reserved sectors, each copy of the FAT, and the root
      directory, which has no region of its own on FAT32. */
  function Regions(v: Volume): (r: seq<nat>)
    requires VolumeOk(v)
  {
    [v.reservedSectors] + Copies(v.fatSectors, v.fatCopies)
    + if v.fat32 then [] else [SectorsFor(v.rootDirEntries * 32, v.bytesPerSector)]
  }

  function Copies(length: nat, n: nat): (r: seq<nat>) {
    if n == 0 then [] else Copies(length, n - 1) + [length]
  }

  function Total(r: seq<nat>): (n: nat) {
    if r == [] then 0 else Total(r[..|r| - 1]) + r[|r| - 1]
  }

  /** Where a cluster begins: cluster 2 right after all regions, and each other one where the one before ends. */
  function ClusterBegins(v: Volume, c: nat): (n: nat)
    requires VolumeOk(v) && c >= 2
  {
    if c == 2 then Total(Regions(v)) else ClusterBegins(v, c - 1) + v.sectorsPerCluster
  }

  lemma TotalMore(r: seq<nat>, n: nat)
    ensures Total(r + [n]) == Total(r) + n
  {
    assert (r + [n])[..|r|] == r;
  }

  lemma {:induction false} TotalJoin(a: seq<nat>, b: seq<nat>)
    ensures Total(a + b) == Total(a) + Total(b)
  {
    if b == [] {
      assert a + b == a;
    } else {
      var most, last := b[..|b| - 1], b[|b| - 1];
      assert a + b == a + most + [last] && b == most + [last];
      TotalJoin(a, most);
      TotalMore(a + most, last);
      TotalMore(most, last);
    }
  }

  lemma {:induction false} CopiesTotal(length: nat, n: nat)
    ensures |Copies(length, n)| == n && Total(Copies(length, n)) == n * length
  {
    if n > 0 {
      CopiesTotal(length, n - 1);
      TotalMore(Copies(length, n - 1), length);
      Distribute(n - 1, 1, length);
    }
  }

  lemma {:induction false} SectorsForIs(bytes: nat, size: nat)
    requires size > 0
    ensures SectorsFor(bytes, size) == (bytes + size - 1) / size
  {
    if bytes == 0 {
      Quotient(size, 0, size - 1);
    } else if bytes <= size {
      Quotient(size, 1, bytes + size - 1);
    } else {
      SectorsForIs(bytes - size, size);
      var k := bytes - size + size - 1;
      Distribute(k / size, 1, size);
      Quotient(size, k / size + 1, bytes + size - 1);
    }
  }

  /** The clusters begin after all the regions. */
  lemma DataAfterRegions(v: Volume)
    requires VolumeOk(v)
    ensures FirstDataSector(v) == Total(Regions(v))
  {
    hide Total, Copies, SectorsFor;
    var fats, root := Copies(v.fatSectors, v.fatCopies), SectorsFor(v.rootDirEntries * 32, v.bytesPerSector);
    CopiesTotal(v.fatSectors, v.fatCopies);
    TotalJoin([v.reservedSectors], fats);
    TotalOne(v.reservedSectors);
    SectorsForIs(v.rootDirEntries * 32, v.bytesPerSector);
    assert v.fatCopies * v.fatSectors == v.fatSectors * v.fatCopies;
    if v.fat32 {
      assert [v.reservedSectors] + fats + [] == [v.reservedSectors] + fats;
    } else {
      TotalMore([v.reservedSectors] + fats, root);
    }
  }

  lemma TotalOne(n: nat)
    ensures Total([n]) == n
  {
    assert [n][..0] == [];
  }

  /** `get_start_sector_of_cluster` gives where the cluster begins. */
  lemma {:induction false} StartIsWhereItBegins(v: Volume, c: nat)
    requires VolumeOk(v) && c >= 2
    ensures StartSector(v, c) == ClusterBegins(v, c)
  {
    hide FirstDataSector, Total;
    if c == 2 {
      DataAfterRegions(v);
    } else {
      StartIsWhereItBegins(v, c - 1);
      Distribute(c - 3, 1, v.sectorsPerCluster);
    }
  }

  /** Sector `x` belongs to cluster `c`. */
  predicate InCluster(v: Volume, c: nat, x: nat)
    requires VolumeOk(v)
  {
    c >= 2 && StartSector(v, c) <= x < StartSector(v, c) + v.sectorsPerCluster
  }

  /** Sector `x` belongs to copy `i` of the FAT. */
  predicate InFat(v: Volume, i: nat, x: nat) {
    i < v.fatCopies && v.reservedSectors + i * v.fatSectors <= x < v.reservedSectors + (i + 1) * v.fatSectors
  }

  /** A sector belongs to one cluster at most, and no sector of a cluster is reserved, or of a FAT. */
  lemma ClustersApart(v: Volume, c: nat, c': nat, i: nat, x: nat)
    requires VolumeOk(v) && InCluster(v, c, x)
    ensures InCluster(v, c', x) ==> c' == c
    ensures x >= v.reservedSectors && !InFat(v, i, x)
  {
    hide FirstDataSector;
    FatsBeforeData(v);
    var n, y := v.sectorsPerCluster, x - FirstDataSector(v);
    Quotient(n, c - 2, y);
    if InCluster(v, c', x) { Quotient(n, c' - 2, y); }
    if InFat(v, i, x) { Times(i + 1, v.fatCopies, v.fatSectors); }
  }

  lemma FatsBeforeData(v: Volume)
    requires VolumeOk(v)
    ensures v.reservedSectors + v.fatCopies * v.fatSectors <= FirstDataSector(v)
  {
    hide RootDirSectors;
    assert v.fatCopies * v.fatSectors == v.fatSectors * v.fatCopies;
  }

  // ---------------------------------------------------------------------------
  // The FAT as bytes
  // ---------------------------------------------------------------------------

  /** Byte `b` of the disk is `n`. */
  predicate ByteIs(d: Disk, b: nat, n: nat) {
    b / 512 < |d| && d[b / 512][b % 512] == n
  }

  /** A number as `width` bytes, the lowest first. */
  function LittleEndian(n: nat, width: nat): (r: seq<nat>)
    ensures |r| == width
  {
    if width == 0 then [] else [n % 256] + LittleEndian(n / 256, width - 1)
  }

  /** Bytes of an entry of the FAT. */
  function Width(v: Volume): (w: nat) {
    if v.fat32 then 4 else 2
  }

  /** The first byte of the entry of cluster `c`: the entries follow each other from the start of the first FAT. */
  function EntryByte(v: Volume, c: nat): (b: nat) {
    v.reservedSectors * 512 + c * Width(v)
  }

  predicate IsEntry(v: Volume, n: nat) {
    n < if v.fat32 then 0x1_0000_0000 else 0x1_0000
  }

  /** The bytes of the FAT for cluster `c` spell out `next`. */
  ghost predicate Links(v: Volume, d: Disk, c: nat, next: nat) {
    && IsEntry(v, next)
    && forall i: nat :: i < Width(v) ==> ByteIs(d, EntryByte(v, c) + i, LittleEndian(next, Width(v))[i])
  }

  lemma ByteOfEntry(v: Volume, c: nat, i: nat)
    requires i < Width(v)
    ensures (EntryByte(v, c) + i) / 512 == FatSector(v, c)
    ensures (EntryByte(v, c) + i) % 512 == Width(v) * (c % EntriesPerSector(v)) + i
  {
    var per := EntriesPerSector(v);
    var q, r := c / per, c % per;
    assert c == q * per + r;
    Quotient(512, q + v.reservedSectors, EntryByte(v, c) + i);
  }

  lemma TwoBytes(a: nat, b: nat, n: nat)
    requires a < 256 && b < 256 && n < 0x1_0000
    ensures a + 0x100 * b == n <==> [a, b] == LittleEndian(n, 2)
  {
    assert LittleEndian(n, 2) == [n % 256, n / 256 % 256];
  }

  lemma FourBytes(a: nat, b: nat, c: nat, d: nat, n: nat)
    requires a < 256 && b < 256 && c < 256 && d < 256 && n < 0x1_0000_0000
    ensures a + 0x100 * b + 0x1_0000 * c + 0x100_0000 * d == n <==> [a, b, c, d] == LittleEndian(n, 4)
  {
    var high := n / 0x1_0000;
    TwoBytes(a, b, n % 0x1_0000);
    TwoBytes(c, d, high);
    assert LittleEndian(n, 4) == [n % 256, n / 256 % 256] + LittleEndian(high, 2);
    assert LittleEndian(n % 0x1_0000, 2) == [n % 256, n / 256 % 256];
    assert [a, b, c, d] == [a, b] + [c, d];
    if [a, b, c, d] == LittleEndian(n, 4) {
      assert [a, b] == [a, b, c, d][..2] && [c, d] == [a, b, c, d][2..];
    }
  }

  /** The bytes of the entry of a cluster, in the sector of the FAT that holds it. */
  lemma EntryBytes(v: Volume, d: Disk, c: nat, i: nat, b: nat)
    requires FatSector(v, c) < |d| && i < Width(v)
    ensures Width(v) * (c % EntriesPerSector(v)) + i < 512
    ensures ByteIs(d, EntryByte(v, c) + i, b) <==> d[FatSector(v, c)][Width(v) * (c % EntriesPerSector(v)) + i] == b
  {
    hide FatSector, EntryByte;
    ByteOfEntry(v, c, i);
  }

  /** A sector holds `bytes` from position `at` on. */
  predicate Holds(s: Sector, at: nat, bytes: seq<nat>)
    requires at + |bytes| <= 512
  {
    forall i: nat :: i < |bytes| ==> s[at + i] == bytes[i]
  }

  lemma EntryHolds(v: Volume, s: Sector, i: nat, n: nat)
    requires i < EntriesPerSector(v)
    ensures Width(v) * i + Width(v) <= 512
    ensures EntryIn(v, s, i) == n <==> IsEntry(v, n) && Holds(s, Width(v) * i, LittleEndian(n, Width(v)))
  {
    hide LittleEndian;
    var at := Width(v) * i;
    if !IsEntry(v, n) {
    } else if v.fat32 {
      FourBytes(s[at], s[at + 1], s[at + 2], s[at + 3], n);
      HoldsFour(s, at, LittleEndian(n, 4));
    } else {
      TwoBytes(s[at], s[at + 1], n);
      HoldsTwo(s, at, LittleEndian(n, 2));
    }
  }

  lemma HoldsTwo(s: Sector, at: nat, bytes: seq<nat>)
    requires at + 2 <= 512 && |bytes| == 2
    ensures Holds(s, at, bytes) <==> [s[at], s[at + 1]] == bytes
  {
    if Holds(s, at, bytes) { assert s[at + 0] == bytes[0] && s[at + 1] == bytes[1]; }
  }

  lemma HoldsFour(s: Sector, at: nat, bytes: seq<nat>)
    requires at + 4 <= 512 && |bytes| == 4
    ensures Holds(s, at, bytes) <==> [s[at], s[at + 1], s[at + 2], s[at + 3]] == bytes
  {
    if Holds(s, at, bytes) {
      assert s[at + 0] == bytes[0] && s[at + 1] == bytes[1] && s[at + 2] == bytes[2] && s[at + 3] == bytes[3];
    }
  }

  /** `get_next_cluster` gives the number that the bytes of the FAT spell out for the cluster. */
  lemma NextIsLinked(v: Volume, d: Disk, c: nat, n: nat)
    requires FatSector(v, c) < |d|
    ensures NextCluster(v, d, c) == n <==> Links(v, d, c, n)
  {
    hide FatSector, EntryByte, LittleEndian, EntryIn, IsEntry, ByteIs;
    var s, at, bytes := d[FatSector(v, c)], Width(v) * (c % EntriesPerSector(v)), LittleEndian(n, Width(v));
    EntryHolds(v, s, c % EntriesPerSector(v), n);
    forall i: nat | i < Width(v)
      ensures ByteIs(d, EntryByte(v, c) + i, bytes[i]) <==> s[at + i] == bytes[i]
    {
      EntryBytes(v, d, c, i, bytes[i]);
    }
  }

  // ---------------------------------------------------------------------------
  // The sectors of a file
  // ---------------------------------------------------------------------------

  /** The clusters `cs` follow each other in the FAT. */
  ghost predicate IsChain(v: Volume, d: Disk, cs: seq<nat>) {
    && (forall i :: 0 <= i < |cs| ==> cs[i] >= 2)
    && forall i :: 0 < i < |cs| ==> Links(v, d, cs[i - 1], cs[i])
  }

  /** Sector `x` of the disk is sector `k` of the file that begins at cluster `first`: as many clusters on as its chain
      says, and as far into that cluster. */
  ghost predicate IsFileSector(v: Volume, d: Disk, first: nat, k: nat, x: nat)
    requires VolumeOk(v)
  {
    exists cs: seq<nat> :: LeadsTo(v, d, first, k, cs, x)
  }

  ghost predicate LeadsTo(v: Volume, d: Disk, first: nat, k: nat, cs: seq<nat>, x: nat)
    requires VolumeOk(v)
  {
    && IsChain(v, d, cs) && |cs| == k / v.sectorsPerCluster + 1 && cs[0] == first
    && x == ClusterBegins(v, cs[|cs| - 1]) + k % v.sectorsPerCluster && x < |d|
  }

  /** `s` is what the disk holds in sector `k` of the file. */
  ghost predicate ReadsSector(v: Volume, d: Disk, first: nat, k: nat, s: seq<nat>)
    requires VolumeOk(v)
  {
    exists x: nat :: IsFileSector(v, d, first, k, x) && x < |d| && s == d[x]
  }

  /** The first `n` clusters of a chain, one by one. */
  ghost function ChainOf(v: Volume, d: Disk, first: nat, n: nat): (cs: seq<nat>)
    requires n > 0 && Chained(v, d, first, n)
    ensures |cs| == n
    decreases n
  {
    if n == 1 then [first] else [first] + ChainOf(v, d, NextCluster(v, d, first), n - 1)
  }

  lemma {:induction false} ChainOfLinks(v: Volume, d: Disk, first: nat, n: nat)
    requires n > 0 && Chained(v, d, first, n)
    ensures var cs := ChainOf(v, d, first, n);
            IsChain(v, d, cs) && cs[0] == first && Chained(v, d, first, n - 1) && cs[n - 1] == ClusterAt(v, d, first, n - 1)
    decreases n
  {
    hide NextCluster, FatSector, Links;
    if n > 1 {
      var next := NextCluster(v, d, first);
      ChainOfLinks(v, d, next, n - 1);
      NextIsLinked(v, d, first, next);
    }
  }

  /** The plain walk of the chain leads to sector `k` of the file. */
  lemma WalkFindsSector(v: Volume, d: Disk, first: nat, k: nat)
    requires VolumeOk(v) && SectorPresent(v, d, first, k)
    ensures IsFileSector(v, d, first, k, Location(v, d, first, k))
    ensures ReadsSector(v, d, first, k, SectorAt(v, d, first, k))
  {
    hide IsChain, ClusterAt, Chained, ChainOf, StartSector, ClusterBegins;
    var n := k / v.sectorsPerCluster + 1;
    var cs := ChainOf(v, d, first, n);
    ChainOfLinks(v, d, first, n);
    ClusterStep(v, d, first, n - 1);
    StartIsWhereItBegins(v, cs[n - 1]);
    assert LeadsTo(v, d, first, k, cs, Location(v, d, first, k));
  }

  /** The bytes of the FAT spell out one number. */
  lemma LinksOnce(v: Volume, d: Disk, c: nat, n: nat, n': nat)
    requires Links(v, d, c, n) && Links(v, d, c, n')
    ensures n == n'
  {
    hide EntryByte, FatSector, NextCluster, Links;
    FirstEntryByte(v, d, c, n);
    NextIsLinked(v, d, c, n);
    NextIsLinked(v, d, c, n');
  }

  lemma FirstEntryByte(v: Volume, d: Disk, c: nat, n: nat)
    requires Links(v, d, c, n)
    ensures FatSector(v, c) < |d|
  {
    hide EntryByte, FatSector;
    ByteOfEntry(v, c, 0);
    assert ByteIs(d, EntryByte(v, c) + 0, LittleEndian(n, Width(v))[0]);
  }

  lemma {:induction false} OneChain(v: Volume, d: Disk, cs: seq<nat>, cs': seq<nat>, i: nat)
    requires IsChain(v, d, cs) && IsChain(v, d, cs') && |cs| == |cs'| && i < |cs| && cs[0] == cs'[0]
    ensures cs[i] == cs'[i]
  {
    hide Links;
    if i > 0 {
      OneChain(v, d, cs, cs', i - 1);
      LinksOnce(v, d, cs[i - 1], cs[i], cs'[i]);
    }
  }

  /** A file has one sector `k`. */
  lemma OneFileSector(v: Volume, d: Disk, first: nat, k: nat, x: nat, x': nat)
    requires VolumeOk(v) && IsFileSector(v, d, first, k, x) && IsFileSector(v, d, first, k, x')
    ensures x == x'
  {
    hide IsChain, ClusterBegins;
    var cs :| LeadsTo(v, d, first, k, cs, x);
    var cs' :| LeadsTo(v, d, first, k, cs', x');
    OneChain(v, d, cs, cs', |cs| - 1);
  }
}
