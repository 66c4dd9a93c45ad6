/**
 Where the bytes of a file are on a FAT volume (kernel/src/fs/fat.rs; the format is that of
 Microsoft's FAT32 File System Specification 1.03, section "FAT Data Structure").

 A disk is a sequence of 512-byte sectors; every read of it succeeds.
 */
module FatChain {
  import opened Prelude

  type Sector = s: seq<nat> | |s| == 512 && forall b :: b in s ==> b < 256 witness seq(512, _ => 0)
  type Disk = seq<Sector>

  /** The fields of the boot sector that the code uses; `fatSectors` is the length of one FAT. */
  datatype Volume = Volume(fat32: bool, bytesPerSector: nat, sectorsPerCluster: nat, reservedSectors: nat,
                           fatCopies: nat, rootDirEntries: nat, fatSectors: nat)

  predicate VolumeOk(v: Volume) {
    v.sectorsPerCluster > 0 && v.bytesPerSector > 0
  }

  function RootDirSectors(v: Volume): (n: nat)
    requires VolumeOk(v)
  {
    if v.fat32 then 0 else (v.rootDirEntries * 32 + v.bytesPerSector - 1) / v.bytesPerSector
  }

  function FirstDataSector(v: Volume): (n: nat)
    requires VolumeOk(v)
  {
    v.reservedSectors + v.fatSectors * v.fatCopies + RootDirSectors(v)
  }

  /** `get_start_sector_of_cluster`, which asserts that the cluster is at least 2. */
  function StartSector(v: Volume, cluster: nat): (n: nat)
    requires VolumeOk(v) && cluster >= 2
  {
    (cluster - 2) * v.sectorsPerCluster + FirstDataSector(v)
  }

  function EntriesPerSector(v: Volume): (n: nat)
    ensures n > 0
  {
    if v.fat32 then 128 else 256
  }

  /** The sector of the FAT that holds the entry of a cluster. */
  function FatSector(v: Volume, cluster: nat): (n: nat) {
    cluster / EntriesPerSector(v) + v.reservedSectors
  }

  /** Entry `i` of a sector of the FAT, little end first. */
  function EntryIn(v: Volume, s: Sector, i: nat): (n: nat)
    requires i < EntriesPerSector(v)
  {
    if v.fat32 then s[4 * i] + 0x100 * s[4 * i + 1] + 0x1_0000 * s[4 * i + 2] + 0x100_0000 * s[4 * i + 3]
    else s[2 * i] + 0x100 * s[2 * i + 1]
  }

  /** What the FAT on disk gives as the next cluster. */
  function NextCluster(v: Volume, d: Disk, cluster: nat): (n: nat)
    requires FatSector(v, cluster) < |d|
  {
    EntryIn(v, d[FatSector(v, cluster)], cluster % EntriesPerSector(v))
  }

  /** The first `n` clusters of the chain from `cluster` can be followed. */
  ghost predicate Chained(v: Volume, d: Disk, cluster: nat, n: nat)
    decreases n
  {
    n > 0 ==> cluster >= 2 && FatSector(v, cluster) < |d| && Chained(v, d, NextCluster(v, d, cluster), n - 1)
  }

  /** Cluster `i` of the chain. */
  ghost function ClusterAt(v: Volume, d: Disk, cluster: nat, i: nat): (n: nat)
    requires Chained(v, d, cluster, i)
    decreases i
  {
    if i == 0 then cluster else ClusterAt(v, d, NextCluster(v, d, cluster), i - 1)
  }

  lemma {:induction false} ChainedPrefix(v: Volume, d: Disk, cluster: nat, i: nat, n: nat)
    requires Chained(v, d, cluster, n) && i <= n
    ensures Chained(v, d, cluster, i)
    decreases i
  {
    if i > 0 { ChainedPrefix(v, d, NextCluster(v, d, cluster), i - 1, n - 1); }
  }

  /** Following the chain one step at a time. */
  lemma {:induction false} ClusterStep(v: Volume, d: Disk, cluster: nat, i: nat)
    requires Chained(v, d, cluster, i + 1)
    ensures Chained(v, d, cluster, i)
    ensures var c := ClusterAt(v, d, cluster, i);
            c >= 2 && FatSector(v, c) < |d| && ClusterAt(v, d, cluster, i + 1) == NextCluster(v, d, c)
    decreases i
  {
    if i > 0 { ClusterStep(v, d, NextCluster(v, d, cluster), i - 1); }
  }

  /** Where sector `k` of a file is, by the plain walk of its chain. */
  ghost function Location(v: Volume, d: Disk, cluster: nat, k: nat): (n: nat)
    requires VolumeOk(v) && Chained(v, d, cluster, k / v.sectorsPerCluster + 1)
  {
    ClusterStep(v, d, cluster, k / v.sectorsPerCluster);
    StartSector(v, ClusterAt(v, d, cluster, k / v.sectorsPerCluster)) + k % v.sectorsPerCluster
  }

  /** Sector `k` of a file can be found and is on the disk. */
  ghost predicate SectorPresent(v: Volume, d: Disk, cluster: nat, k: nat)
    requires VolumeOk(v)
  {
    Chained(v, d, cluster, k / v.sectorsPerCluster + 1) && Location(v, d, cluster, k) < |d|
  }

  ghost predicate Present(v: Volume, d: Disk, cluster: nat, n: nat)
    requires VolumeOk(v)
  {
    forall k: nat :: k < n ==> SectorPresent(v, d, cluster, k)
  }

  /** Sector `k` of a file, by the plain walk of its chain. */
  ghost function SectorAt(v: Volume, d: Disk, cluster: nat, k: nat): (s: Sector)
    requires VolumeOk(v) && SectorPresent(v, d, cluster, k)
  {
    d[Location(v, d, cluster, k)]
  }

  /** Where the first `n` sectors of a file are, in order. */
  ghost function Locations(v: Volume, d: Disk, cluster: nat, n: nat): (r: seq<nat>)
    requires VolumeOk(v) && Present(v, d, cluster, n)
    ensures |r| == n && forall k: nat :: k < n ==> SectorPresent(v, d, cluster, k) && r[k] == Location(v, d, cluster, k)
  {
    seq(n, k requires 0 <= k < n => assert SectorPresent(v, d, cluster, k); Location(v, d, cluster, k))
  }

  // ---------------------------------------------------------------------------
  // Reading sectors
  // ---------------------------------------------------------------------------

  predicate OnDisk(d: Disk, sectors: seq<nat>) {
    forall i :: 0 <= i < |sectors| ==> sectors[i] < |d|
  }

  /** The contents of a sequence of sectors, one after the other. */
  function Contents(d: Disk, sectors: seq<nat>): (r: seq<nat>)
    requires OnDisk(d, sectors)
    ensures |r| == 512 * |sectors|
  {
    if sectors == [] then [] else d[sectors[0]] + Contents(d, sectors[1..])
  }

  lemma {:induction false} ContentsAt(d: Disk, sectors: seq<nat>, k: nat)
    requires OnDisk(d, sectors) && k < |sectors|
    ensures Contents(d, sectors)[512 * k..512 * k + 512] == d[sectors[k]]
  {
    if k > 0 {
      ContentsAt(d, sectors[1..], k - 1);
      var rest := Contents(d, sectors[1..]);
      assert Contents(d, sectors)[512 * k..512 * k + 512] == rest[512 * (k - 1)..512 * (k - 1) + 512];
    }
  }

  lemma {:induction false} ContentsJoin(d: Disk, a: seq<nat>, b: seq<nat>)
    requires OnDisk(d, a) && OnDisk(d, b)
    ensures OnDisk(d, a + b) && Contents(d, a + b) == Contents(d, a) + Contents(d, b)
  {
    if a == [] {
      assert a + b == b;
    } else {
      assert (a + b)[1..] == a[1..] + b;
      ContentsJoin(d, a[1..], b);
    }
  }

  // ---------------------------------------------------------------------------
  // Runs of consecutive sectors
  // ---------------------------------------------------------------------------

  datatype Run = Run(start: nat, len: nat)

  function Consecutive(start: nat, len: nat): (r: seq<nat>)
    ensures |r| == len && forall k :: 0 <= k < len ==> r[k] == start + k
  {
    seq(len, k => start + k)
  }

  function Expand(runs: seq<Run>): (r: seq<nat>) {
    if runs == [] then [] else Expand(runs[..|runs| - 1]) + Consecutive(runs[|runs| - 1].start, runs[|runs| - 1].len)
  }

  /** `read_file`'s coalescing: extend the last run, or begin a new one. */
  function Coalesce(runs: seq<Run>, start: nat, len: nat): (r: seq<Run>) {
    var last := |runs| - 1;
    if runs != [] && runs[last].start + runs[last].len == start
    then runs[last := Run(runs[last].start, runs[last].len + len)]
    else runs + [Run(start, len)]
  }

  /** Coalescing does not change which sectors are read, nor their order. */
  lemma CoalesceExpands(runs: seq<Run>, start: nat, len: nat)
    ensures Expand(Coalesce(runs, start, len)) == Expand(runs) + Consecutive(start, len)
  {
    hide Expand, Consecutive;
    var last := |runs| - 1;
    if runs != [] && runs[last].start + runs[last].len == start {
      var front, r := runs[..last], runs[last];
      assert runs == front + [r];
      assert Coalesce(runs, start, len) == front + [Run(r.start, r.len + len)];
      ExpandLast(front, r);
      ExpandLast(front, Run(r.start, r.len + len));
      ConsecutiveSplit(r.start, r.len, len);
    } else {
      ExpandLast(runs, Run(start, len));
    }
  }

  lemma ExpandLast(runs: seq<Run>, r: Run)
    ensures Expand(runs + [r]) == Expand(runs) + Consecutive(r.start, r.len)
  {
    assert (runs + [r])[..|runs|] == runs;
  }

  lemma ConsecutiveSplit(start: nat, a: nat, b: nat)
    ensures Consecutive(start, a + b) == Consecutive(start, a) + Consecutive(start + a, b)
  {
  }
}
