/** Reading files from a FAT volume (kernel/src/fs/fat.rs). */
module FatFiles {
  import opened Prelude
  import opened FatChain
  import opened FatLayout

  datatype FileType = Folder | File(length: nat)
  datatype FatFile = FatFile(cluster: nat, entryType: FileType)

  datatype FsError = FileNotFound | InvalidRequestForFileType
  datatype Result<T> = Ok(value: T) | Err(error: FsError)

  function SectorsOf(length: nat): (n: nat)
    ensures length <= 512 * n < length + 512
  {
    (length + 511) / 512
  }

  /** The most sectors that one request to the disk asks for. */
  const MAX_READ: nat := 56

  class Fat {
    const volume: Volume
    const disk: Disk
    var files: map<nat, FatFile>
    /** Sectors of the FAT that have been read. */
    var clusterChainBuffer: map<nat, Sector>

    constructor (volume: Volume, disk: Disk, files: map<nat, FatFile>)
      requires VolumeOk(volume)
      ensures Valid() && this.volume == volume && this.disk == disk && this.files == files
    {
      this.volume, this.disk, this.files := volume, disk, files;
      clusterChainBuffer := map[];
    }

    /** The buffered sectors agree with the disk. */
    ghost predicate Valid()
      reads this
    {
      && VolumeOk(volume)
      && forall s :: s in clusterChainBuffer ==> s < |disk| && clusterChainBuffer[s] == disk[s]
    }

    /** `get_next_cluster`: whatever was read before, the answer is that of the disk. */
    method GetNextCluster(cluster: nat) returns (n: nat)
      requires Valid() && FatSector(volume, cluster) < |disk|
      modifies this`clusterChainBuffer
      ensures Valid() && n == NextCluster(volume, disk, cluster) && Links(volume, disk, cluster, n)
    {
      hide Links;
      NextIsLinked(volume, disk, cluster, NextCluster(volume, disk, cluster));
      var sector := FatSector(volume, cluster);
      if sector !in clusterChainBuffer {
        clusterChainBuffer := clusterChainBuffer[sector := disk[sector]];
      }
      n := EntryIn(volume, clusterChainBuffer[sector], cluster % EntriesPerSector(volume));
    }

    /** The first loop of `read_file`: the sectors of a file as runs of consecutive sectors. */
    method FindRuns(first: nat, n: nat) returns (runs: seq<Run>)
      requires Valid() && Present(volume, disk, first, n)
      modifies this`clusterChainBuffer
      ensures Valid() && Expand(runs) == Locations(volume, disk, first, n)
      ensures forall k: nat :: k < n ==> IsFileSector(volume, disk, first, k, Expand(runs)[k])
    {
      hide Present, Chained, ClusterAt, Location, StartSector, NextCluster, FatSector, Expand, Coalesce, Links,
           IsFileSector;
      AllFileSectors(volume, disk, first, n);
      var spc, left, cluster := volume.sectorsPerCluster, n, first;
      ghost var i := 0;
      runs := [];
      StartOfChain(volume, disk, first);
      while left > 0
        invariant Valid() && 0 <= left <= n
        invariant left > 0 ==> n - left == i * spc && Chained(volume, disk, first, i) && cluster == ClusterAt(volume, disk, first, i)
        invariant Expand(runs) == Locations(volume, disk, first, n)[..n - left]
      {
        var amount := if left < spc then left else spc;
        ghost var done := n - left;
        ClusterOnDisk(volume, disk, first, n, i, done, amount);
        var sector := StartSector(volume, cluster);
        CoalesceExpands(runs, sector, amount);
        runs := Coalesce(runs, sector, amount);
        assert Locations(volume, disk, first, n)[..done + amount]
            == Locations(volume, disk, first, n)[..done] + Locations(volume, disk, first, n)[done..done + amount];
        left := left - amount;
        cluster := GetNextCluster(cluster);
        i := i + 1;
      }
    }

    /** The second loop of `read_file`: read the runs, in requests of at most 56 sectors. */
    method ReadRuns(runs: seq<Run>) returns (buffer: seq<nat>, ghost requests: seq<Run>)
      requires Valid() && OnDisk(disk, Expand(runs))
      ensures buffer == Contents(disk, Expand(runs))
      ensures forall r :: r in requests ==> 0 < r.len <= MAX_READ
    {
      hide Contents, Expand, OnDisk;
      buffer, requests := seq(512 * |Expand(runs)|, _ => 0), [];
      var offset := 0;
      NoRuns(disk, runs);
      for j := 0 to |runs|
        invariant |buffer| == 512 * |Expand(runs)| && OnDisk(disk, Expand(runs[..j]))
        invariant offset == 512 * |Expand(runs[..j])| && offset <= |buffer|
        invariant buffer[..offset] == Contents(disk, Expand(runs[..j]))
        invariant forall r :: r in requests ==> 0 < r.len <= MAX_READ
      {
        var sector, len := runs[j].start, runs[j].len;
        NextRun(disk, runs, j);
        ghost var before := Expand(runs[..j]);
        NothingMore(before, sector);
        while len > 0
          invariant 0 <= len <= runs[j].len && sector == runs[j].start + (runs[j].len - len)
          invariant |buffer| == 512 * |Expand(runs)| && |before| + runs[j].len <= |Expand(runs)|
          invariant offset == 512 * (|before| + (runs[j].len - len))
          invariant OnDisk(disk, before + Consecutive(runs[j].start, runs[j].len - len))
          invariant buffer[..offset] == Contents(disk, before + Consecutive(runs[j].start, runs[j].len - len))
          invariant forall r :: r in requests ==> 0 < r.len <= MAX_READ
        {
          var amount := if len < MAX_READ then len else MAX_READ;
          PartOfRun(disk, before, runs[j].start, runs[j].len, runs[j].len - len, amount);
          var data := Contents(disk, Consecutive(sector, amount));
          requests := requests + [Run(sector, amount)];
          buffer := buffer[..offset] + data + buffer[offset + |data|..];
          assert buffer[..offset + |data|] == buffer[..offset] + data;
          sector, len, offset := sector + amount, len - amount, offset + amount * 512;
        }
      }
      assert runs[..|runs|] == runs && buffer[..offset] == buffer;
    }

    /** The chain of the file is long enough and within the disk. */
    ghost predicate FilePresent(id: nat)
      reads this
      requires VolumeOk(volume)
    {
      id in files && files[id].entryType.File? ==>
        Present(volume, disk, files[id].cluster, SectorsOf(files[id].entryType.length))
    }

    /** `read_file`: the bytes of the file, in a buffer of whole sectors. Each sector of the buffer is the
        one that the plain walk of the chain leads to, and no request asks for more than 56. */
    method ReadFile(id: nat) returns (r: Result<seq<nat>>, buffer: seq<nat>, ghost requests: seq<Run>)
      requires Valid() && FilePresent(id)
      modifies this`clusterChainBuffer
      ensures Valid()
      ensures r == Err(FileNotFound) <==> id !in files
      ensures r == Err(InvalidRequestForFileType) <==> id in files && files[id].entryType.Folder?
      ensures r.Ok? <==> id in files && files[id].entryType.File?
      ensures r.Ok? ==> |buffer| == 512 * SectorsOf(files[id].entryType.length)
      ensures r.Ok? ==> |r.value| == files[id].entryType.length && r.value <= buffer
      ensures r.Ok? ==> HoldsFile(buffer, files[id].cluster, SectorsOf(files[id].entryType.length))
      ensures r.Ok? ==> forall k: nat :: k < SectorsOf(files[id].entryType.length) ==>
        ReadsSector(volume, disk, files[id].cluster, k, SectorIn(buffer, k))
      ensures forall x :: x in requests ==> 0 < x.len <= MAX_READ
    {
      hide Contents, Location, Chained, Expand, IsFileSector;
      buffer, requests := [], [];
      if id !in files {
        return Err(FileNotFound), buffer, requests;
      }
      var file := files[id];
      if file.entryType.Folder? {
        return Err(InvalidRequestForFileType), buffer, requests;
      }
      var n := SectorsOf(file.entryType.length);
      var runs := FindRuns(file.cluster, n);
      ghost var sectors := Locations(volume, disk, file.cluster, n);
      LocationsOnDisk(volume, disk, file.cluster, n);
      buffer, requests := ReadRuns(runs);
      forall k: nat | k < n
        ensures SectorIn(buffer, k) == SectorAt(volume, disk, file.cluster, k)
        ensures ReadsSector(volume, disk, file.cluster, k, SectorIn(buffer, k))
      {
        ContentsAt(disk, sectors, k);
        WalkFindsSector(volume, disk, file.cluster, k);
      }
      r := Ok(buffer[..file.entryType.length]);
    }

    /** Sector `k` of the buffer is sector `k` of the file, for each of its `n` sectors. */
    ghost predicate HoldsFile(buffer: seq<nat>, cluster: nat, n: nat)
      reads this
      requires VolumeOk(volume) && Present(volume, disk, cluster, n) && |buffer| == 512 * n
    {
      forall k: nat :: k < n ==> SectorIn(buffer, k) == SectorAt(volume, disk, cluster, k)
    }

    /** The plain walk of the chain to sector `k` of a file. */
    method LoadSector(first: nat, k: nat) returns (buffer: seq<nat>)
      requires Valid() && SectorPresent(volume, disk, first, k)
      modifies this`clusterChainBuffer
      ensures Valid() && buffer == SectorAt(volume, disk, first, k) && ReadsSector(volume, disk, first, k, buffer)
    {
      hide Chained, ClusterAt, NextCluster, StartSector, FatSector, Links, ReadsSector;
      WalkFindsSector(volume, disk, first, k);
      var cluster, m := first, k / volume.sectorsPerCluster;
      StartOfChain(volume, disk, cluster);
      for i := 0 to m
        invariant Valid() && Chained(volume, disk, first, i) && cluster == ClusterAt(volume, disk, first, i)
      {
        ChainedPrefix(volume, disk, first, i + 1, m + 1);
        ClusterStep(volume, disk, first, i);
        cluster := GetNextCluster(cluster);
      }
      ClusterStep(volume, disk, first, m);
      SectorOfCluster(volume, disk, first, m, k);
      buffer := disk[StartSector(volume, cluster) + k % volume.sectorsPerCluster];
    }

    /** `read_file_sector`: sector `k` of the file and how many of its bytes count; nothing at the end. */
    method ReadFileSector(id: nat, k: nat) returns (r: Result<Option<nat>>, buffer: seq<nat>)
      requires Valid()
      requires id in files && files[id].entryType.File? && k != SectorsOf(files[id].entryType.length) ==>
        SectorPresent(volume, disk, files[id].cluster, k)
      modifies this`clusterChainBuffer
      ensures Valid()
      ensures r == Err(FileNotFound) <==> id !in files
      ensures r == Err(InvalidRequestForFileType) <==> id in files && files[id].entryType.Folder?
      ensures r.Ok? <==> id in files && files[id].entryType.File?
      ensures r == Ok(None) <==> id in files && files[id].entryType.File? && k == SectorsOf(files[id].entryType.length)
      ensures r.Ok? && r.value.Some? ==> buffer == SectorAt(volume, disk, files[id].cluster, k)
      ensures r.Ok? && r.value.Some? ==> ReadsSector(volume, disk, files[id].cluster, k, buffer)
      ensures r.Ok? && r.value.Some? ==> r.value.value == CountOf(files[id].entryType.length, k)
    {
      hide SectorPresent, SectorAt, ReadsSector;
      buffer := [];
      if id !in files {
        return Err(FileNotFound), buffer;
      }
      var file := files[id];
      if file.entryType.Folder? {
        return Err(InvalidRequestForFileType), buffer;
      }
      var length := file.entryType.length;
      if k == SectorsOf(length) {
        return Ok(None), buffer;
      }
      var count := if k + 1 == SectorsOf(length) then length % 512 else 512;
      buffer := LoadSector(file.cluster, k);
      r := Ok(Some(count));
    }
  }

  /** The number that `read_file_sector` returns beside sector `k`. */
  function CountOf(length: nat, k: nat): (n: nat) {
    if k + 1 == SectorsOf(length) then length % 512 else 512
  }

  /** How many bytes of the file sector `k` holds. */
  function BytesIn(length: nat, k: nat): (n: nat) {
    if 512 * (k + 1) <= length then 512 else if 512 * k <= length then length - 512 * k else 0
  }

  /** Where `read_file_sector` returns a number at all, it is right exactly for the sectors of the file other
      than the last one of a file whose length is a multiple of 512. */
  lemma CountRightExactly(length: nat, k: nat)
    requires k != SectorsOf(length)
    ensures CountOf(length, k) == BytesIn(length, k) <==>
      k < SectorsOf(length) && !(k + 1 == SectorsOf(length) && length % 512 == 0)
  {
  }

  /** A file of 512 bytes: nothing is counted in its only sector, and a full sector past its end. */
  lemma CountOfFullSector()
    ensures CountOf(512, 0) == 0 && BytesIn(512, 0) == 512
    ensures SectorsOf(512) == 1 && CountOf(512, 2) == 512 && BytesIn(512, 2) == 0
  {
  }

  function SectorIn(buffer: seq<nat>, k: nat): (s: seq<nat>)
    requires 512 * k + 512 <= |buffer|
  {
    buffer[512 * k..512 * k + 512]
  }

  lemma LocationsOnDisk(v: Volume, d: Disk, cluster: nat, n: nat)
    requires VolumeOk(v) && Present(v, d, cluster, n)
    ensures OnDisk(d, Locations(v, d, cluster, n))
  {
    hide Location, Chained;
  }

  /** `read_file` and `read_file_sector` agree: sector `k` of the buffer that the one fills is the sector
      that the other loads. */
  method ReadBothWays(fat: Fat, id: nat, k: nat) returns (buffer: seq<nat>, sector: seq<nat>)
    requires fat.Valid() && fat.FilePresent(id)
    requires id in fat.files && fat.files[id].entryType.File? && k < SectorsOf(fat.files[id].entryType.length)
    modifies fat`clusterChainBuffer
    ensures |buffer| == 512 * SectorsOf(fat.files[id].entryType.length) && SectorIn(buffer, k) == sector
  {
    hide SectorAt, SectorPresent, ReadsSector;
    var r, s;
    ghost var requests;
    r, buffer, requests := fat.ReadFile(id);
    s, sector := fat.ReadFileSector(id, k);
  }

  lemma AllFileSectors(v: Volume, d: Disk, first: nat, n: nat)
    requires VolumeOk(v) && Present(v, d, first, n)
    ensures forall k: nat :: k < n ==> IsFileSector(v, d, first, k, Locations(v, d, first, n)[k])
  {
    hide Location, Chained, IsFileSector;
    forall k: nat | k < n
      ensures IsFileSector(v, d, first, k, Locations(v, d, first, n)[k])
    {
      WalkFindsSector(v, d, first, k);
    }
  }

  lemma StartOfChain(v: Volume, d: Disk, cluster: nat)
    ensures Chained(v, d, cluster, 0) && ClusterAt(v, d, cluster, 0) == cluster
    ensures Expand([]) == []
  {
  }

  /** The part of a file that is in its cluster `i` is consecutive on disk. */
  lemma ClusterOnDisk(v: Volume, d: Disk, first: nat, n: nat, i: nat, done: nat, amount: nat)
    requires VolumeOk(v) && Present(v, d, first, n)
    requires done == i * v.sectorsPerCluster && 0 < amount <= v.sectorsPerCluster && done + amount <= n
    ensures Chained(v, d, first, i) && Chained(v, d, first, i + 1)
    ensures var c := ClusterAt(v, d, first, i);
            && c >= 2 && FatSector(v, c) < |d| && ClusterAt(v, d, first, i + 1) == NextCluster(v, d, c)
            && Locations(v, d, first, n)[done..done + amount] == Consecutive(StartSector(v, c), amount)
  {
    hide Chained, ClusterAt, NextCluster, StartSector, FatSector, Location;
    var spc, all := v.sectorsPerCluster, Locations(v, d, first, n);
    Quotient(spc, i, done);
    assert SectorPresent(v, d, first, done);
    ClusterStep(v, d, first, i);
    var start := StartSector(v, ClusterAt(v, d, first, i));
    forall k | done <= k < done + amount
      ensures all[k] == start + (k - done)
    {
      Quotient(spc, i, k);
      SectorOfCluster(v, d, first, i, k);
    }
    assert all[done..done + amount] == Consecutive(start, amount);
  }

  lemma SectorOfCluster(v: Volume, d: Disk, first: nat, i: nat, k: nat)
    requires VolumeOk(v) && Chained(v, d, first, i + 1) && k / v.sectorsPerCluster == i
    ensures Chained(v, d, first, i) && ClusterAt(v, d, first, i) >= 2
    ensures Location(v, d, first, k) == StartSector(v, ClusterAt(v, d, first, i)) + k % v.sectorsPerCluster
  {
    hide Chained, ClusterAt, StartSector;
    ClusterStep(v, d, first, i);
  }

  lemma NoRuns(d: Disk, runs: seq<Run>)
    ensures Expand(runs[..0]) == [] && OnDisk(d, []) && Contents(d, []) == []
  {
  }

  lemma {:induction false} ExpandPrefix(runs: seq<Run>, j: nat)
    requires j <= |runs|
    ensures Expand(runs[..j]) <= Expand(runs)
  {
    if j < |runs| {
      var most := runs[..|runs| - 1];
      assert most[..j] == runs[..j];
      ExpandPrefix(most, j);
    } else {
      assert runs[..j] == runs;
    }
  }

  lemma NextRun(d: Disk, runs: seq<Run>, j: nat)
    requires j < |runs| && OnDisk(d, Expand(runs))
    ensures var next := Expand(runs[..j]) + Consecutive(runs[j].start, runs[j].len);
            next == Expand(runs[..j + 1]) && OnDisk(d, next) && |next| <= |Expand(runs)|
  {
    assert runs[..j + 1][..j] == runs[..j];
    ExpandPrefix(runs, j + 1);
  }

  lemma NothingMore(before: seq<nat>, sector: nat)
    ensures before + Consecutive(sector, 0) == before
  {
  }

  /** Reading `amount` more sectors of a run. */
  lemma PartOfRun(d: Disk, before: seq<nat>, start: nat, len: nat, done: nat, amount: nat)
    requires done + amount <= len && OnDisk(d, before + Consecutive(start, len))
    ensures OnDisk(d, before + Consecutive(start, done)) && OnDisk(d, Consecutive(start + done, amount))
    ensures OnDisk(d, before + Consecutive(start, done + amount))
    ensures Contents(d, before + Consecutive(start, done + amount))
            == Contents(d, before + Consecutive(start, done)) + Contents(d, Consecutive(start + done, amount))
  {
    hide Contents;
    var all := before + Consecutive(start, len);
    var a, b := before + Consecutive(start, done), Consecutive(start + done, amount);
    assert all[..|before| + done] == a && all[|before| + done..|before| + done + amount] == b;
    assert before + Consecutive(start, done + amount) == a + b;
    assert OnDisk(d, a) by { assert forall i :: 0 <= i < |a| ==> a[i] == all[i]; }
    assert OnDisk(d, b) by { assert forall i :: 0 <= i < |b| ==> b[i] == all[|before| + done + i]; }
    ContentsJoin(d, a, b);
  }
}
