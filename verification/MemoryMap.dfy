/** The firmware memory map as `PageFrameAllocator::new` consumes it
    (kernel/src/paging/page_allocator.rs, lines 84-132). */
module MemoryMap {
  import opened FrameLists

  /** Frames set aside below 4 GiB. */
  const RESERVED_FRAMES: nat := 32
  /** The frame at 0x8000, kept for booting the other processors. */
  const BOOT_FRAME: nat := 8

  /** A run of usable frames. */
  datatype Region = Region(start: nat, count: nat)

  /** Usable regions are sorted, do not overlap and leave out frame 0. */
  ghost predicate WellFormedMap(regions: seq<Region>) {
    && (forall i :: 0 <= i < |regions| ==> regions[i].start > 0)
    && forall i, j :: 0 <= i < j < |regions| ==> regions[i].start + regions[i].count <= regions[j].start
  }

  ghost function RegionFrames(regions: seq<Region>): (s: set<nat>) {
    if regions == [] then {} else
      var r := regions[|regions| - 1];
      RegionFrames(regions[..|regions| - 1]) + Frames(r.start, r.count)
  }

  predicate HoldsBootFrame(r: Region) {
    Within(r.start, r.count, BOOT_FRAME)
  }

  /** Frames of a region that may be reserved: all but the boot frame. */
  function Reservable(r: Region): (n: nat) {
    if HoldsBootFrame(r) then r.count - 1 else r.count
  }

  function Reserved(regions: seq<Region>): (n: nat) {
    if regions == [] then 0 else Reserved(regions[..|regions| - 1]) + Reservable(regions[|regions| - 1])
  }

  /** The last frame of the region holding the boot frame is lost when the whole region is
      needed for the reserve and the boot frame is not its last: `take` stops one frame short
      because the boot frame, though skipped, is counted among the frames taken. */
  ghost function Lost(regions: seq<Region>): (s: set<nat>) {
    set i | 0 <= i < |regions| && LosesLast(regions, i) :: regions[i].start + regions[i].count - 1
  }

  predicate LosesLast(regions: seq<Region>, i: nat)
    requires i < |regions|
  {
    && HoldsBootFrame(regions[i])
    && regions[i].start + regions[i].count - 1 != BOOT_FRAME
    && Reserved(regions[..i]) + regions[i].count - 1 < RESERVED_FRAMES
  }

  /** Sorted regions before region `k` lie below it and hold at most `start - 1` frames. */
  lemma {:induction false} EarlierRegions(regions: seq<Region>, bound: nat)
    requires WellFormedMap(regions) && bound > 0
    requires forall i :: 0 <= i < |regions| ==> regions[i].start + regions[i].count <= bound
    ensures forall f :: f in RegionFrames(regions) ==> 0 < f < bound
    ensures Reserved(regions) < bound
  {
    if regions != [] {
      var r := regions[|regions| - 1];
      EarlierRegions(regions[..|regions| - 1], r.start);
    }
  }

  lemma RegionsUpTo(regions: seq<Region>, k: nat)
    requires WellFormedMap(regions) && k < |regions|
    ensures WellFormedMap(regions[..k]) && regions[..k + 1][..k] == regions[..k]
    ensures RegionFrames(regions[..k + 1]) == RegionFrames(regions[..k]) + Frames(regions[k].start, regions[k].count)
    ensures Reserved(regions[..k + 1]) == Reserved(regions[..k]) + Reservable(regions[k])
    ensures forall f :: f in RegionFrames(regions[..k]) ==> 0 < f < regions[k].start
    ensures Reserved(regions[..k]) < regions[k].start
  {
    assert regions[..k + 1][..k] == regions[..k];
    EarlierRegions(regions[..k], regions[k].start);
  }

  lemma AboveEarlier(regions: seq<Region>, k: nat, start: nat, count: nat)
    requires WellFormedMap(regions) && k < |regions| && regions[k].start <= start
    ensures RegionFrames(regions[..k]) !! Frames(start, count) && start > 0
  {
    RegionsUpTo(regions, k);
  }

  lemma EmptyMap()
    ensures RegionFrames([]) == {} && Reserved([]) == 0 && Lost([]) == {}
  {
  }

  lemma BootFrameIn(r: Region)
    ensures HoldsBootFrame(r) <==> BOOT_FRAME in Frames(r.start, r.count)
  {
  }

  /** The frames lost among the first `k + 1` regions. */
  lemma LostUpTo(regions: seq<Region>, k: nat)
    requires k < |regions|
    ensures Lost(regions[..k + 1]) == Lost(regions[..k]) +
      (if LosesLast(regions, k) then {regions[k].start + regions[k].count - 1} else {})
  {
    assert regions[..k + 1][..k] == regions[..k];
    forall i | 0 <= i < k
      ensures LosesLast(regions[..k + 1], i) <==> LosesLast(regions[..k], i)
    {
      assert regions[..k + 1][..i] == regions[..k][..i];
    }
  }

  lemma {:induction false} LostAreUsable(regions: seq<Region>)
    ensures Lost(regions) <= RegionFrames(regions) && BOOT_FRAME !in Lost(regions)
  {
    if regions != [] {
      var k := |regions| - 1;
      assert regions[..k + 1] == regions;
      LostUpTo(regions, k);
      LostAreUsable(regions[..k]);
    }
  }

  /** Reserving a whole region: what is not reserved is the boot frame or lost. */
  lemma ReserveRegion(regions: seq<Region>, k: nat)
    requires WellFormedMap(regions) && k < |regions|
    requires Reserved(regions[..k]) + Reservable(regions[k]) < RESERVED_FRAMES
    ensures RegionFrames(regions[..k + 1]) - {BOOT_FRAME} - Lost(regions[..k + 1])
         == RegionFrames(regions[..k]) - {BOOT_FRAME} - Lost(regions[..k])
            + (Frames(regions[k].start, Reservable(regions[k])) - {BOOT_FRAME})
  {
    hide RegionFrames, Lost, Reserved;
    var r := regions[k];
    RegionsUpTo(regions, k);
    LostUpTo(regions, k);
    LostAreUsable(regions[..k]);
    FramesSplit(r.start, Reservable(r), r.count - Reservable(r));
    if HoldsBootFrame(r) {
      assert Frames(r.start + r.count - 1, 1) == {r.start + r.count - 1};
    } else {
      assert Frames(r.start + r.count, 0) == {};
      assert BOOT_FRAME !in Frames(r.start, r.count);
    }
  }

  /** The region that completes the reserve keeps the boot frame among the frames taken, and no
      later region holds it or loses a frame: the regions before it cannot hold 32 frames. */
  lemma {:induction false} ReserveComplete(regions: seq<Region>, k: nat, n: nat)
    requires WellFormedMap(regions) && k < n <= |regions|
    requires Reserved(regions[..k]) < RESERVED_FRAMES <= Reserved(regions[..k]) + Reservable(regions[k])
    ensures HoldsBootFrame(regions[k]) ==>
      BOOT_FRAME in Frames(regions[k].start, RESERVED_FRAMES - Reserved(regions[..k]))
    ensures Lost(regions[..n]) == Lost(regions[..k])
    ensures BOOT_FRAME in RegionFrames(regions[..n]) <==> BOOT_FRAME in RegionFrames(regions[..k + 1])
    ensures Reserved(regions[..n]) >= RESERVED_FRAMES
  {
    hide RegionFrames, Lost, Reserved;
    RegionsUpTo(regions, n - 1);
    LostUpTo(regions, n - 1);
    if n - 1 > k {
      ReserveComplete(regions, k, n - 1);
      BootFrameIn(regions[n - 1]);
    }
  }

  /** What the first loop of `new` leaves behind: every region before region `k` taken whole, `taken`
      frames of region `k`, and among all these the frames reserved. */
  ghost predicate Captured(regions: seq<Region>, k: nat, taken: nat, reserved: set<nat>) {
    && k < |regions| && Reserved(regions[..k]) + taken == RESERVED_FRAMES && 0 < taken <= Reservable(regions[k])
    && reserved == RegionFrames(regions[..k]) - {BOOT_FRAME} - Lost(regions[..k])
                   + (Frames(regions[k].start, taken) - {BOOT_FRAME})
  }

  /** After both loops every usable frame is listed, reserved, lost, or the boot frame. */
  lemma ReservePartition(regions: seq<Region>, k: nat, taken: nat, free: set<nat>, reserved: set<nat>)
    requires WellFormedMap(regions) && Captured(regions, k, taken, reserved)
    requires var low := RegionFrames(regions[..k]) + Frames(regions[k].start, taken);
             free + low == RegionFrames(regions[..|regions|]) && free !! low
    ensures BOOT_FRAME in RegionFrames(regions[..k + 1]) <==> BOOT_FRAME in RegionFrames(regions)
    ensures BOOT_FRAME !in free && BOOT_FRAME !in reserved
    ensures free !! reserved && free !! Lost(regions) && reserved !! Lost(regions)
    ensures free + reserved + Lost(regions) == RegionFrames(regions) - {BOOT_FRAME}
  {
    hide RegionFrames, Lost, Reserved, Frames, WellFormedMap;
    assert regions[..|regions|] == regions;
    ReserveComplete(regions, k, |regions|);
    BootFrameIn(regions[k]);
    RegionsUpTo(regions, k);
    AboveEarlier(regions, k, regions[k].start, taken);
    LostAreUsable(regions[..k]);
  }

  // ---------------------------------------------------------------------------
  // How many frames are reserved
  // ---------------------------------------------------------------------------

  /** The region holds the boot frame, and a frame after it. */
  predicate HoldsInside(r: Region) {
    HoldsBootFrame(r) && r.start + r.count - 1 != BOOT_FRAME
  }

  predicate BootFrameInside(regions: seq<Region>) {
    exists i :: 0 <= i < |regions| && HoldsInside(regions[i])
  }

  /** Of the first `n` frames of a region all are reserved but the boot frame. */
  lemma PartSize(r: Region, n: nat)
    ensures |Frames(r.start, n) - {BOOT_FRAME}| == if Within(r.start, n, BOOT_FRAME) then n - 1 else n
  {
    FramesSize(r.start, n);
    var all := Frames(r.start, n);
    if BOOT_FRAME in all {
      assert all == (all - {BOOT_FRAME}) + {BOOT_FRAME};
    } else {
      assert all - {BOOT_FRAME} == all;
    }
  }

  lemma InsideUpTo(regions: seq<Region>, k: nat)
    requires k < |regions|
    ensures BootFrameInside(regions[..k + 1]) <==> BootFrameInside(regions[..k]) || HoldsInside(regions[k])
  {
    var upTo, before := regions[..k + 1], regions[..k];
    assert upTo == before + [regions[k]];
    if BootFrameInside(before) {
      var i :| 0 <= i < |before| && HoldsInside(before[i]);
      assert HoldsInside(upTo[i]);
    }
    if HoldsInside(regions[k]) {
      assert HoldsInside(upTo[k]);
    }
  }

  /** A region that holds the boot frame is one of the usable ones, so a later region does not hold it. */
  lemma {:induction false} InsideIsUsable(regions: seq<Region>)
    ensures BootFrameInside(regions) ==> BOOT_FRAME in RegionFrames(regions)
  {
    if regions != [] {
      var k := |regions| - 1;
      assert regions[..k + 1] == regions;
      InsideUpTo(regions, k);
      InsideIsUsable(regions[..k]);
      BootFrameIn(regions[k]);
    }
  }

  /** The frames reserved from regions taken whole: one fewer than counted when the boot frame is inside. */
  lemma {:induction false} WholeRegionsSize(regions: seq<Region>, k: nat)
    requires WellFormedMap(regions) && k <= |regions| && Reserved(regions[..k]) < RESERVED_FRAMES
    ensures |RegionFrames(regions[..k]) - {BOOT_FRAME} - Lost(regions[..k])|
         == Reserved(regions[..k]) - if BootFrameInside(regions[..k]) then 1 else 0
  {
    hide RegionFrames, Lost, Reserved, Frames;
    if k == 0 {
      EmptyMap();
      assert regions[..0] == [];
    } else {
      var r := regions[k - 1];
      RegionsUpTo(regions, k - 1);
      WholeRegionsSize(regions, k - 1);
      ReserveRegion(regions, k - 1);
      InsideUpTo(regions, k - 1);
      InsideIsUsable(regions[..k - 1]);
      AboveEarlier(regions, k - 1, r.start, Reservable(r));
      PartSize(r, Reservable(r));
      var before := RegionFrames(regions[..k - 1]) - {BOOT_FRAME} - Lost(regions[..k - 1]);
      var part := Frames(r.start, Reservable(r)) - {BOOT_FRAME};
      assert before !! part && |before + part| == |before| + |part|;
    }
  }

  /** `new` reserves 32 frames exactly when no region holds the boot frame other than as its last frame;
      otherwise it reserves 31. */
  lemma ReservedSize(regions: seq<Region>, k: nat, taken: nat, reserved: set<nat>)
    requires WellFormedMap(regions) && Captured(regions, k, taken, reserved)
    ensures |reserved| == if BootFrameInside(regions) then RESERVED_FRAMES - 1 else RESERVED_FRAMES
  {
    hide RegionFrames, Lost, Reserved, Frames;
    var r := regions[k];
    RegionsUpTo(regions, k);
    WholeRegionsSize(regions, k);
    AboveEarlier(regions, k, r.start, taken);
    PartSize(r, taken);
    InsideUpTo(regions, k);
    InsideIsUsable(regions[..k]);
    NoneInsideLater(regions, k, |regions|);
    assert regions[..|regions|] == regions;
    var before := RegionFrames(regions[..k]) - {BOOT_FRAME} - Lost(regions[..k]);
    var part := Frames(r.start, taken) - {BOOT_FRAME};
    assert before !! part && |before + part| == |before| + |part|;
  }

  lemma {:induction false} NoneInsideLater(regions: seq<Region>, k: nat, n: nat)
    requires WellFormedMap(regions) && k < n <= |regions|
    requires Reserved(regions[..k]) < RESERVED_FRAMES <= Reserved(regions[..k]) + Reservable(regions[k])
    ensures BootFrameInside(regions[..n]) <==> BootFrameInside(regions[..k + 1])
  {
    hide RegionFrames, Lost, Reserved, Frames;
    if n - 1 > k {
      NoneInsideLater(regions, k, n - 1);
      ReserveComplete(regions, k, n - 1);
      RegionsUpTo(regions, n - 1);
      InsideUpTo(regions, n - 1);
    }
  }

  /** With one region from frame 1 on, 31 frames are reserved. */
  lemma ReserveFallsShort(k: nat, taken: nat, reserved: set<nat>)
    requires Captured([Region(1, 200)], k, taken, reserved)
    ensures WellFormedMap([Region(1, 200)]) && |reserved| == 31
  {
    assert HoldsInside([Region(1, 200)][0]);
    ReservedSize([Region(1, 200)], k, taken, reserved);
  }

  /** With a first region of 20 frames, frame 20 is neither listed nor reserved. */
  lemma FrameIsLost()
    ensures var regions := [Region(1, 20), Region(100, 100)];
            WellFormedMap(regions) && Reserved(regions) >= RESERVED_FRAMES && 20 in Lost(regions) && 20 in RegionFrames(regions)
  {
    var regions := [Region(1, 20), Region(100, 100)];
    assert regions[..0] == [] && regions[..1] == [Region(1, 20)] && [Region(1, 20)][..0] == [];
    assert LosesLast(regions, 0);
    LostAreUsable(regions);
  }
}
