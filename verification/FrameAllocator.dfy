/** The physical frame allocator (kernel/src/paging/page_allocator.rs). */
module FrameAllocator {
  import opened Prelude
  import opened FrameLists
  import opened MemoryMap
  import Runs = AllocatorRuns

  class PageFrameAllocator {
    var heads: seq<Option<nat>>
    var meta: map<nat, PageMetadata>
    var reserved: set<nat>
    var capturedBootFrame: bool
    var totalFree: nat

    /** Contents of the linked lists, and the frames they cover. */
    ghost var lists: Lists
    ghost var free: set<nat>

    ghost predicate Valid()
      reads this
    {
      && Linked(heads, meta, lists)
      && BlocksDisjoint(lists)
      && free == FreeFrames(lists)
      && 0 !in free
    }

    /** Memory outside `s` is as it was. */
    twostate predicate WritesOnly(s: set<nat>)
      reads this
    {
      forall f: nat :: f !in s ==> (f in meta <==> f in old(meta)) && (f in meta ==> meta[f] == old(meta)[f])
    }

    /** The page carries the order of the block it is in. */
    ghost predicate Marked(f: nat, order: nat)
      reads this
    {
      f in meta && meta[f].order == order
    }

    /** The call is the step `c` of a run. */
    twostate predicate Steps(c: Runs.Call)
      reads this
    {
      Runs.IsStep(old(lists), lists, c, old(free) - free, free - old(free))
    }

    /** `new`, over the usable regions of the firmware map. It needs 32 frames to reserve. */
    constructor (regions: seq<Region>)
      requires WellFormedMap(regions) && Reserved(regions) >= RESERVED_FRAMES
      ensures Valid()
      ensures totalFree == |free|
      ensures capturedBootFrame <==> BOOT_FRAME in RegionFrames(regions)
      ensures BOOT_FRAME !in free && BOOT_FRAME !in reserved
      ensures |reserved| == RESERVED_FRAMES <==> !BootFrameInside(regions)
      ensures free !! reserved && free !! Lost(regions) && reserved !! Lost(regions)
      ensures free + reserved + Lost(regions) == RegionFrames(regions) - {BOOT_FRAME}
    {
      hide FreeFrames, BlocksDisjoint, Linked, Count, InsertRange, RegionFrames, Lost, Reserved, Frames, WellFormedMap,
           Captured, BootFrameInside;
      heads := seq(MAX_ORDER + 1, _ => None);
      meta, reserved, capturedBootFrame, totalFree := map[], {}, false, 0;
      lists := seq(MAX_ORDER + 1, _ => []);
      free := {};
      new;
      EmptyLists(lists);
      var k, taken := CaptureReserved(regions);
      ListRest(regions, k, taken);
      assert regions[..|regions|] == regions;
      ReservePartition(regions, k, taken, free, reserved);
      CountIsFreeFrames(lists);
    }

    /** The rest of `new`: list region `k` from frame `taken` on, then every later region. */
    method ListRest(regions: seq<Region>, k: nat, taken: nat)
      requires Valid() && free == {} && totalFree == Count(lists)
      requires WellFormedMap(regions) && k < |regions| && taken <= regions[k].count
      modifies this`heads, this`meta, this`lists, this`free, this`totalFree
      ensures Valid() && totalFree == Count(lists)
      ensures var low := RegionFrames(regions[..k]) + Frames(regions[k].start, taken);
              free + low == RegionFrames(regions[..|regions|]) && free !! low
    {
      hide FreeFrames, BlocksDisjoint, Linked, Count, InsertRange, RegionFrames, Lost, Reserved, Frames, WellFormedMap;
      ghost var low := RegionFrames(regions[..k]) + Frames(regions[k].start, taken);
      RegionsUpTo(regions, k);
      FramesSplit(regions[k].start, taken, regions[k].count - taken);
      AboveEarlier(regions, k, regions[k].start + taken, regions[k].count - taken);
      AddRegion(regions[k].start + taken, regions[k].count - taken);
      for i := k + 1 to |regions|
        invariant Valid() && totalFree == Count(lists)
        invariant free + low == RegionFrames(regions[..i]) && free !! low
      {
        RegionsUpTo(regions, i);
        AboveEarlier(regions, i, regions[i].start, regions[i].count);
        AddRegion(regions[i].start, regions[i].count);
      }
    }

    /** The first loop of `new`: set aside the lowest frames, up to part of region `k`. */
    method CaptureReserved(regions: seq<Region>) returns (k: nat, taken: nat)
      requires WellFormedMap(regions) && Reserved(regions) >= RESERVED_FRAMES
      requires reserved == {} && !capturedBootFrame
      modifies this`reserved, this`capturedBootFrame
      ensures Captured(regions, k, taken, reserved) && k < |regions| && taken <= regions[k].count
      ensures |reserved| == if BootFrameInside(regions) then RESERVED_FRAMES - 1 else RESERVED_FRAMES
      ensures capturedBootFrame <==> BOOT_FRAME in RegionFrames(regions[..k + 1])
    {
      hide RegionFrames, Lost, Reserved, Frames, WellFormedMap, BootFrameInside, HoldsBootFrame;
      EmptyMap();
      assert regions[..0] == [] && regions[..|regions|] == regions;
      var found: nat := 0;
      k := 0;
      while true
        invariant k <= |regions|
        invariant found == Reserved(regions[..k]) < RESERVED_FRAMES
        invariant reserved == RegionFrames(regions[..k]) - {BOOT_FRAME} - Lost(regions[..k])
        invariant capturedBootFrame <==> BOOT_FRAME in RegionFrames(regions[..k])
        decreases |regions| - k
      {
        var entry := regions[k];
        RegionsUpTo(regions, k);
        BootFrameIn(entry);
        var pages := entry.count;
        if HoldsBootFrame(entry) {
          capturedBootFrame := true;
          pages := entry.count - 1;
        }
        taken := if pages < RESERVED_FRAMES - found then pages else RESERVED_FRAMES - found;
        found := found + taken;
        Reserve(entry.start, taken);
        if found == RESERVED_FRAMES {
          break;
        }
        ReserveRegion(regions, k);
        k := k + 1;
      }
      ReservedSize(regions, k, taken, reserved);
    }

    /** Insert a region of fresh frames and count it. */
    method AddRegion(start: nat, count: nat)
      requires Valid() && start > 0 && Frames(start, count) !! free && totalFree == Count(lists)
      modifies this`heads, this`meta, this`lists, this`free, this`totalFree
      ensures Valid() && free == old(free) + Frames(start, count) && totalFree == Count(lists)
    {
      hide FreeFrames, BlocksDisjoint, Linked, Count, InsertRange;
      InsertRangeAdds(lists, start, count);
      totalFree := totalFree + count;
      InsertFreeOfRange(start, count);
    }

    /** `free_32bit_reserved_page` on the first `taken` frames from `start`, the boot frame left out. */
    method Reserve(start: nat, taken: nat)
      modifies this`reserved
      ensures reserved == old(reserved) + (Frames(start, taken) - {BOOT_FRAME})
    {
      for i := 0 to taken
        invariant reserved == old(reserved) + (Frames(start, i) - {BOOT_FRAME})
      {
        assert Frames(start, i + 1) == Frames(start, i) + {start + i};
        if start + i != BOOT_FRAME {
          reserved := reserved + {start + i};
        }
      }
    }

    method InsertFreeOfOrder(base: nat, order: nat)
      requires Valid() && order <= MAX_ORDER && base > 0
      requires Frames(base, Pow2(order)) !! free
      modifies this`heads, this`meta, this`lists, this`free
      ensures Valid()
      ensures lists == Push(old(lists), base, order)
      ensures free == old(free) + Frames(base, Pow2(order))
      ensures WritesOnly(Frames(base, Pow2(order)))
      ensures Marked(base + Pow2(order) - 1, order)
    {
      hide FreeFrames, BlocksDisjoint, Linked, Pow2;
      UnitPower();
      PushAdds(lists, base, order);
      assert base in Frames(base, Pow2(order)) && base + Pow2(order) - 1 in Frames(base, Pow2(order));
      assert |heads| == MAX_ORDER + 1 by { LinkedHeads(heads, meta, lists); }
      meta := meta[base := PageMetadata(order, None, None)];
      if order > 0 {
        var right := base + Pow2(order) - 1;
        meta := meta[right := (if right in meta then meta[right] else ZEROED).(order := order)];
      }
      LinkedFrame(heads, old(meta), meta, lists);
      LinkedPush(heads, meta, lists, base, order);
      meta := meta[base := meta[base].(next := heads[order])];
      heads := heads[order := Some(base)];
      lists := Push(lists, base, order);
      free := free + Frames(base, Pow2(order));
    }

    method InsertFreeOfRange(start: nat, count: nat)
      requires Valid() && start > 0 && Frames(start, count) !! free
      modifies this`heads, this`meta, this`lists, this`free
      ensures Valid()
      ensures lists == InsertRange(old(lists), start, count)
      ensures free == old(free) + Frames(start, count)
      ensures WritesOnly(Frames(start, count))
    {
      hide FreeFrames, BlocksDisjoint, Linked, Push, Pow2, Ilog2, Marked;
      var startAddr: nat, pagesLeft: nat := start, count;
      assert Frames(start, 0) == {};
      while pagesLeft > 0
        invariant Valid() && start <= startAddr && startAddr + pagesLeft == start + count
        invariant free == old(free) + Frames(start, startAddr - start)
        invariant InsertRange(lists, startAddr, pagesLeft) == InsertRange(old(lists), start, count)
        invariant WritesOnly(Frames(start, count))
      {
        var order := RangeOrder(startAddr, pagesLeft);
        FramesSplit(start, startAddr - start, Pow2(order));
        FramesSplit(start, startAddr - start + Pow2(order), pagesLeft - Pow2(order));
        InsertFreeOfOrder(startAddr, order);
        pagesLeft := pagesLeft - Pow2(order);
        startAddr := startAddr + Pow2(order);
      }
    }

    /** Currently splits the left: a larger block keeps its low half and lists the upper one. */
    method RequestPageOfOrder(order: nat) returns (r: Option<nat>)
      requires Valid()
      modifies this`heads, this`meta, this`lists, this`free
      ensures Valid()
      ensures r == Granted(old(lists), order)
      ensures r.None? <==> forall o: nat :: order <= o <= MAX_ORDER ==> old(lists)[o] == []
      ensures r.Some? ==> exists j: nat :: RequestedFrom(old(lists), order, j, lists) && r.value == old(lists)[j][0]
      ensures lists == AfterRequest(old(lists), order) && Steps(Runs.Request(order))
      ensures r.Some? ==> Frames(r.value, Pow2(order)) <= old(free)
                          && free == old(free) - Frames(r.value, Pow2(order))
      ensures r.None? ==> lists == old(lists) && free == old(free) && meta == old(meta) && heads == old(heads)
      ensures WritesOnly(old(free))
      decreases MAX_ORDER + 1 - order
    {
      hide FreeFrames, BlocksDisjoint, AfterRequest, Granted, Linked, InsertRange, Pow2, Frames, RequestedFrom, Runs.IsStep;
      RequestServes(lists, order);
      if order > MAX_ORDER {
        RequestNone(lists, order);
        Runs.RequestIsStep(lists, order, free, free);
        return None;
      }
      LinkedList(heads, meta, lists, order);
      if heads[order].Some? {
        var block := heads[order].value;
        RequestHead(lists, order);
        RequestTakes(lists, order);
        LinkedPop(heads, meta, lists, order);
        match meta[block].next {
          case Some(nxt) => meta := meta[nxt := meta[nxt].(prev := None)];
          case None =>
        }
        assert meta == old(meta);
        heads := heads[order := meta[block].next];
        lists := AfterRequest(lists, order);
        free := free - Frames(block, Pow2(order));
        r := Some(block);
      } else {
        Pow2Double(order);
        RequestSplits(lists, order);
        r := RequestPageOfOrder(order + 1);
        if r.Some? {
          FramesSplit(r.value, Pow2(order), Pow2(order));
          InsertFreeOfRange(r.value + Pow2(order), Pow2(order + 1) - Pow2(order));
        }
      }
      Runs.RequestIsStep(old(lists), order, old(free), free);
    }

    method ZeroPages(base: nat, count: nat)
      requires Valid() && Frames(base, count) !! free
      modifies this`meta
      ensures Valid()
      ensures forall f :: f in Frames(base, count) ==> f in meta && meta[f] == ZEROED
      ensures WritesOnly(Frames(base, count))
    {
      hide FreeFrames, BlocksDisjoint, Linked;
      for i := 0 to count
        invariant WritesOnly(Frames(base, count))
        invariant forall f :: Within(base, i, f) ==> f in meta && meta[f] == ZEROED
      {
        assert base + i in Frames(base, count);
        meta := meta[base + i := ZEROED];
      }
      LinkedFrame(heads, old(meta), meta, lists);
    }

    /** `allocate_page`: the frame is zeroed before it is handed out. */
    method AllocatePage() returns (r: Option<nat>)
      requires Valid()
      modifies this`heads, this`meta, this`lists, this`free
      ensures Valid()
      ensures r.None? <==> old(free) == {}
      ensures r.None? ==> lists == old(lists) && free == old(free) && meta == old(meta)
      ensures r.Some? ==> r.value > 0 && r.value in old(free) && free == old(free) - {r.value}
      ensures r.Some? ==> r.value in meta && meta[r.value] == ZEROED
      ensures lists == AfterRequest(old(lists), 0) && Steps(Runs.Request(0))
      ensures WritesOnly(old(free))
    {
      hide FreeFrames, BlocksDisjoint, AfterRequest, Granted, Linked, Runs.IsStep;
      NoneWhenEmpty(lists);
      r := RequestPageOfOrder(0);
      if r.Some? {
        assert Frames(r.value, Pow2(0)) == {r.value};
        LinkedFrame(heads, meta, meta[r.value := ZEROED], lists);
        meta := meta[r.value := ZEROED];
      }
    }

    /** `allocate_pages`: `count` consecutive frames, all zeroed. */
    method AllocatePages(count: nat) returns (r: Option<nat>)
      requires Valid() && count > 0
      modifies this`heads, this`meta, this`lists, this`free
      ensures Valid()
      ensures r.None? <==> forall o: nat :: o <= MAX_ORDER && count <= Pow2(o) ==> old(lists)[o] == []
      ensures r.Some? ==> exists j: nat, k: nat ::
        ServedFrom(old(lists), count, j, k, lists) && r.value == old(lists)[j][0]
      ensures lists == AfterAllocate(old(lists), count) && Steps(Runs.Allocate(count))
      ensures r.Some? ==> Frames(r.value, count) <= old(free) && free == old(free) - Frames(r.value, count)
      ensures r.Some? ==> forall f :: f in Frames(r.value, count) ==> f in meta && meta[f] == ZEROED
      ensures r.None? ==> lists == old(lists) && free == old(free) && meta == old(meta)
      ensures WritesOnly(old(free))
    {
      hide FreeFrames, BlocksDisjoint, AfterRequest, Granted, Linked, InsertRange, Pow2, ServedFrom, Runs.IsStep;
      AllocateServes(lists, count);
      var order := Ilog2(count);
      if Pow2(order) == count {
        r := RequestPageOfOrder(order);
        AllocateExact(old(lists), count);
      } else {
        r := RequestPageOfOrder(order + 1);
        if r.Some? {
          FramesSplit(r.value, count, Pow2(order + 1) - count);
          assert r.value in Frames(r.value, Pow2(order + 1));
          InsertFreeOfRange(r.value + count, Pow2(order + 1) - count);
        }
      }
      Runs.AllocateIsStep(old(lists), count, old(free), free);
      if r.Some? {
        ZeroPages(r.value, count);
      }
    }

    method FreePageOfOrder(base: nat, order: nat)
      requires Valid() && order <= MAX_ORDER && base > 0
      requires Frames(base, Pow2(order)) !! free
      modifies this`heads, this`meta, this`lists, this`free
      ensures Valid()
      ensures lists == Push(old(lists), base, order) && Steps(Runs.FreeBlock(base, order))
      ensures free == old(free) + Frames(base, Pow2(order))
      ensures WritesOnly(Frames(base, Pow2(order)))
      ensures Marked(base + Pow2(order) - 1, order)
    {
      hide FreeFrames, BlocksDisjoint, Linked, Runs.IsStep;
      Runs.FreeIsStep(lists, base, order, free);
      InsertFreeOfOrder(base, order);
    }

    method FreePage(f: nat)
      requires Valid() && f > 0 && f !in free
      modifies this`heads, this`meta, this`lists, this`free
      ensures Valid()
      ensures lists == Push(old(lists), f, 0) && Steps(Runs.FreeBlock(f, 0))
      ensures free == old(free) + {f}
      ensures WritesOnly({f})
    {
      hide FreeFrames, BlocksDisjoint, Linked, Runs.IsStep;
      assert Frames(f, Pow2(0)) == {f};
      Runs.FreeIsStep(lists, f, 0, free);
      InsertFreeOfOrder(f, 0);
    }

    method FreePages(f: nat, count: nat)
      requires Valid() && f > 0 && Frames(f, count) !! free
      modifies this`heads, this`meta, this`lists, this`free
      ensures Valid()
      ensures lists == Runs.Released(old(lists), f, count)
      ensures free == old(free) + Frames(f, count)
      ensures WritesOnly(Frames(f, count))
    {
      hide FreeFrames, BlocksDisjoint, Linked, Push, Runs.IsStep;
      assert Frames(f, 0) == {};
      for p := 0 to count
        invariant Valid() && free == old(free) + Frames(f, p) && lists == Runs.Released(old(lists), f, p)
        invariant WritesOnly(Frames(f, count))
      {
        assert f + p in Frames(f, count) && f + p !in Frames(f, p);
        assert Frames(f, p + 1) == Frames(f, p) + {f + p};
        FreePage(f + p);
      }
    }
  }
}
