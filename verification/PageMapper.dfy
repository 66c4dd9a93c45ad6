/** The page mapper of an address space (kernel/src/paging/page_mapper.rs). */
module PageMapper {
  import opened Prelude
  import opened PageTables
  import opened TableOps
  import opened FrameAllocator
  import FrameLists
  import opened RangeList
  import opened SpaceModel

  /** Highest address the fault handler serves. */
  const END_USER_MEM: nat := 0x0000_ffff_ffff_ffff

  /** `Exhausted` is the panic of an `unwrap` on an empty allocator. */
  datatype InsertResult = Inserted | Refused | Exhausted

  datatype FaultResult = Handled | NotListed | NoFrame

  datatype FreeResult = Freed | MemNotMapped(start: nat)

  /** The frame holds zero bytes only. */
  ghost predicate Zeroed(alloc: PageFrameAllocator, f: nat)
    reads alloc
  {
    f in alloc.meta && alloc.meta[f] == FrameLists.ZEROED
  }

  /** The shared mappings. */
  class MappingHeap {
    var maps: map<nat, PageMapping>

    /** `base_top_stack`: the frame of the last page of a lazy mapping, allocated on first use. `None` is the
        panic for device memory, or for want of a frame. */
    method BaseTopStack(alloc: PageFrameAllocator, id: nat) returns (frame: Option<nat>)
      requires alloc.Valid() && id in maps && MappingOk(maps[id])
      modifies this, alloc
      ensures alloc.Valid() && alloc.free <= old(alloc.free) && id in maps
      ensures frame.Some? ==> maps[id].Lazy? && maps[id].pages != [] && maps[id].pages[|maps[id].pages| - 1] == frame
      ensures frame.Some? ==>
        FilledFor(old(maps), maps, id, |maps[id].pages| - 1, old(alloc.free) - alloc.free)
      ensures frame.Some? && maps != old(maps) ==> Zeroed(alloc, frame.value)
      ensures frame.None? ==> maps == old(maps) && (maps[id].Mmap? || alloc.free == {})
    {
      hide PageFrameAllocator.Valid;
      frame := None;
      match maps[id] {
        case Mmap(_, _) =>
        case Lazy(size, pages) =>
          var last: nat := |pages| - 1;
          frame := pages[last];
          if frame.None? {
            frame := alloc.AllocatePage();
            if frame.Some? {
              maps := maps[id := Fill(maps[id], last, frame.value)];
              assert old(alloc.free) - alloc.free == {frame.value};
            }
          } else {
            assert old(alloc.free) - alloc.free == {};
          }
      }
    }
  }

  class PageMapperManager {
    const root: nat
    const store: TableStore
    const alloc: PageFrameAllocator
    const heap: MappingHeap
    var mappings: seq<Listed>

    /** `new`, around an empty top-level table. */
    constructor (store: TableStore, alloc: PageFrameAllocator, heap: MappingHeap, root: nat)
      requires alloc.Valid() && Tree(store.tables, 4, root) && Reach(store.tables, 4, root) !! alloc.free
      requires forall x: nat :: Walk(store.tables, 4, root, x) == Miss
      ensures this.store == store && this.alloc == alloc && this.heap == heap && this.root == root
      ensures Valid() && mappings == []
    {
      this.store, this.alloc, this.heap, this.root := store, alloc, heap, root;
      mappings := [];
    }

    ghost function Mach(): (c: Machine)
      reads store, alloc, heap
    {
      Machine(store.tables, alloc.free, heap.maps)
    }

    ghost function View(): (s: Space)
      reads this
    {
      Space(root, mappings)
    }

    ghost predicate Valid()
      reads this, store, alloc, heap
    {
      alloc.Valid() && SpaceOk(Mach(), View())
    }

    /** The new range, when it may be listed. */
    ghost predicate CanList(e: Listed)
      reads heap
    {
      ListedOk(heap.maps, e)
    }

    lemma ListIsSorted()
      requires Valid()
      ensures Sorted(mappings)
    {
    }

    /** List a range whose place has been found. */
    method ListRange(i: nat, e: Listed)
      requires Valid() && CanList(e) && i <= |mappings| && Sorted(InsertAt(mappings, i, e))
      modifies this
      ensures Valid() && InsertChange(Mach(), old(View()), i, e, 0, Mach(), View())
    {
      hide Tree, Reach, Walk, Sorted, CacheOk, Shows, TableStep, PageFrameAllocator.Valid;
      InsertAtMembers(mappings, i, e);
      ShowsNothing(store.tables, root, e, heap.maps[e.id]);
      CacheAfterInsert(Mach(), Mach(), View(), i, e);
      NothingSpent(store.tables, alloc.free, root);
      mappings := InsertAt(mappings, i, e);
    }

    /** `insert_mapping_at`. */
    method InsertMappingAt(base: nat, id: nat, flags: Flags) returns (r: InsertResult)
      requires Valid() && id in heap.maps && CanList(Listed(base, base + heap.maps[id].size, id, flags))
      modifies this
      ensures Valid()
      ensures r.Inserted? || r.Refused?
      ensures r.Refused? <==> exists i :: 0 <= i < |old(mappings)|
                                          && Clashes(old(mappings)[i], base, base + heap.maps[id].size)
      ensures r.Refused? ==> mappings == old(mappings)
      ensures r.Inserted? ==> InsertsRange(Mach(), old(View()),
        Listed(base, base + heap.maps[id].size, id, flags), 0, Mach(), View())
    {
      hide Tree, Reach, Walk, Sorted, CacheOk, Shows, PageFrameAllocator.Valid;
      var e := Listed(base, base + heap.maps[id].size, id, flags);
      var idx := Place(mappings, e);
      if idx.None? {
        return Refused;
      }
      InsertAtMembers(mappings, idx.value, e);
      ListRange(idx.value, e);
      r := Inserted;
    }

    /** Enter one page of a range. The `unwrap` on the map call fails only for want of frames. */
    method EnterPage(v: nat, frame: nat, flags: Flags) returns (ok: bool)
      requires alloc.Valid() && PageAddress(v)
      requires Tree(store.tables, 4, root) && Reach(store.tables, 4, root) !! alloc.free
      requires Walk(store.tables, 4, root, v) == Miss
      modifies store, alloc
      ensures alloc.Valid()
      ensures ok ==> TableStep(old(store.tables), old(alloc.free), store.tables, alloc.free, root, {})
      ensures ok ==> Sets(old(store.tables), store.tables, root, v, Hit(1, frame, flags))
      ensures !ok ==> |alloc.free| < 3
    {
      hide Tree, Reach, Walk, Translated, UnderLarger, Missing, Maps, PageFrameAllocator.Valid;
      TranslatedPage(store.tables, root, v);
      MissingAtMost(store.tables, 4, root, 1, v);
      var r := store.Map(alloc, 4, root, 1, v, frame, flags);
      if r.OutOfFrames? {
        SubsetSize(alloc.free, old(alloc.free));
        return false;
      }
      MapsOnePage(old(store.tables), old(alloc.free), store.tables, alloc.free, root, v, frame, flags);
      ok := true;
    }

    /** Enter every page of a new range that has a frame. */
    method EnterRange(e: Listed) returns (ok: bool)
      requires alloc.Valid() && ListedOk(heap.maps, e)
      requires Tree(store.tables, 4, root) && Reach(store.tables, 4, root) !! alloc.free
      requires forall x: nat :: PageAddress(x) && Contains(e, x) ==> Walk(store.tables, 4, root, x) == Miss
      modifies store, alloc
      ensures alloc.Valid()
      ensures ok ==> TableStep(old(store.tables), old(alloc.free), store.tables, alloc.free, root, {})
      ensures ok ==> var p := heap.maps[e.id]; Shows(old(store.tables), store.tables, root, e, p, p.size / PAGE)
      ensures !ok ==> |alloc.free| < 3
    {
      hide Tree, Reach, Walk, PageFrameAllocator.Valid;
      var p := heap.maps[e.id];
      ShowsNothing(store.tables, root, e, p);
      for i := 0 to p.size / PAGE
        invariant alloc.Valid()
        invariant TableStep(old(store.tables), old(alloc.free), store.tables, alloc.free, root, {})
        invariant Shows(old(store.tables), store.tables, root, e, p, i)
      {
        ghost var m, free := store.tables, alloc.free;
        if FrameAt(p, i).Some? {
          var v := e.start + i * PAGE;
          PageOfRange(e, p.size, i, v);
          ok := EnterPage(v, FrameAt(p, i).value, e.flags);
          if !ok {
            return;
          }
          StepTrans(old(store.tables), old(alloc.free), m, free, store.tables, alloc.free, root, {});
        }
        ShowsPage(old(store.tables), m, store.tables, root, e, p, i);
      }
      ok := true;
    }

    /** List a range whose place has been found and enter its pages. */
    method EnterAndList(i: nat, e: Listed) returns (r: InsertResult)
      requires Valid() && CanList(e) && i <= |mappings| && Sorted(InsertAt(mappings, i, e))
      modifies this, store, alloc
      ensures r.Inserted? || r.Exhausted?
      ensures r.Inserted? ==> Valid()
      ensures r.Inserted? ==> InsertChange(old(Mach()), old(View()), i, e, heap.maps[e.id].size / PAGE, Mach(), View())
      ensures r.Inserted? ==> ShowsBytes(Mach(), root, e)
      ensures r.Exhausted? ==> |alloc.free| < 3
    {
      hide Tree, Reach, Walk, Sorted, CacheOk, ShowsBytes, PageFrameAllocator.Valid;
      forall x: nat | PageAddress(x) && Contains(e, x)
        ensures Walk(store.tables, 4, root, x) == Miss
      {
        NewRangeUnmapped(Mach(), View(), i, e, x);
      }
      ghost var c := Mach();
      var ok := EnterRange(e);
      if !ok {
        return Exhausted;
      }
      InsertAtMembers(mappings, i, e);
      CacheAfterInsert(c, Mach(), View(), i, e);
      EnteredShowsBytes(c, Mach(), root, e);
      mappings := InsertAt(mappings, i, e);
      r := Inserted;
    }

    /** `insert_mapping_at_set`: list the range and enter the pages that have a frame. */
    method InsertMappingAtSet(base: nat, id: nat, flags: Flags) returns (r: InsertResult)
      requires Valid() && id in heap.maps && CanList(Listed(base, base + heap.maps[id].size, id, flags))
      modifies this, store, alloc
      ensures r.Refused? <==> exists i :: 0 <= i < |old(mappings)|
                                          && Clashes(old(mappings)[i], base, base + heap.maps[id].size)
      ensures r.Refused? ==> Valid() && Mach() == old(Mach()) && mappings == old(mappings)
      ensures r.Inserted? ==> Valid()
      ensures r.Inserted? ==> InsertsRange(old(Mach()), old(View()),
        Listed(base, base + heap.maps[id].size, id, flags), heap.maps[id].size / PAGE, Mach(), View())
      ensures r.Inserted? ==> ShowsBytes(Mach(), root, Listed(base, base + heap.maps[id].size, id, flags))
      ensures r.Exhausted? ==> |alloc.free| < 3
    {
      hide Tree, Reach, Walk, Sorted, CacheOk, Shows, ShowsBytes, PageFrameAllocator.Valid;
      var e := Listed(base, base + heap.maps[id].size, id, flags);
      var idx := Place(mappings, e);
      if idx.None? {
        return Refused;
      }
      InsertAtMembers(mappings, idx.value, e);
      r := EnterAndList(idx.value, e);
    }

    /** `insert_mapping`: list the mapping in the lowest gap; `None` is the panic when there is none. */
    method InsertMapping(id: nat, flags: Flags) returns (r: Option<nat>)
      requires Valid() && id in heap.maps && MappingOk(heap.maps[id])
      requires forall i: nat :: FirstGap(mappings, heap.maps[id].size, i) ==>
        GoodRange(mappings[i].end + PAGE, mappings[i].end + PAGE + heap.maps[id].size)
      modifies this
      ensures Valid()
      ensures r.None? <==> forall i: nat :: !Fits(old(mappings), i, heap.maps[id].size)
      ensures r.None? ==> mappings == old(mappings)
      ensures r.Some? ==> exists i: nat ::
        && FirstGap(old(mappings), heap.maps[id].size, i)
        && r.value == old(mappings)[i].end + PAGE
        && mappings == InsertAt(old(mappings), i + 1, Listed(r.value, r.value + heap.maps[id].size, id, flags))
      ensures r.Some? ==> InsertsRange(Mach(), old(View()),
        Listed(r.value, r.value + heap.maps[id].size, id, flags), 0, Mach(), View())
    {
      hide SpaceOk, Shows, TableStep, Sorted, RangeOk, Fits, PageFrameAllocator.Valid;
      ListIsSorted();
      var idx := FindGap(mappings, heap.maps[id].size);
      if idx.None? {
        return None;
      }
      GapIsListable(heap.maps, mappings, idx.value, id, flags);
      var base := mappings[idx.value].end + PAGE;
      var e := Listed(base, base + heap.maps[id].size, id, flags);
      ListRange(idx.value + 1, e);
      r := Some(base);
    }

    /** `insert_mapping_set`: the same, entering the pages that have a frame. */
    method InsertMappingSet(id: nat, flags: Flags) returns (r: InsertResult, base: nat)
      requires Valid() && id in heap.maps && MappingOk(heap.maps[id])
      requires forall i: nat :: FirstGap(mappings, heap.maps[id].size, i) ==>
        GoodRange(mappings[i].end + PAGE, mappings[i].end + PAGE + heap.maps[id].size)
      modifies this, store, alloc
      ensures r.Refused? <==> forall i: nat :: !Fits(old(mappings), i, heap.maps[id].size)
      ensures r.Refused? ==> Valid() && Mach() == old(Mach()) && mappings == old(mappings)
      ensures r.Inserted? ==> Valid()
      ensures r.Inserted? ==> exists i: nat ::
        && FirstGap(old(mappings), heap.maps[id].size, i)
        && base == old(mappings)[i].end + PAGE
        && mappings == InsertAt(old(mappings), i + 1, Listed(base, base + heap.maps[id].size, id, flags))
      ensures r.Inserted? ==> InsertsRange(old(Mach()), old(View()),
        Listed(base, base + heap.maps[id].size, id, flags), heap.maps[id].size / PAGE, Mach(), View())
      ensures r.Inserted? ==> ShowsBytes(Mach(), root, Listed(base, base + heap.maps[id].size, id, flags))
      ensures r.Exhausted? ==> |alloc.free| < 3
    {
      hide Tree, Reach, Walk, CacheOk, Shows, ShowsBytes, Sorted, RangeOk, Fits, PageFrameAllocator.Valid;
      var idx := FindGap(mappings, heap.maps[id].size);
      if idx.None? {
        return Refused, 0;
      }
      GapIsListable(heap.maps, mappings, idx.value, id, flags);
      base := mappings[idx.value].end + PAGE;
      var e := Listed(base, base + heap.maps[id].size, id, flags);
      r := EnterAndList(idx.value + 1, e);
    }

    /** The frame of page `i` of a range, allocated on first use. */
    method FrameFor(e: Listed, i: nat) returns (frame: Option<nat>)
      requires alloc.Valid() && ListedOk(heap.maps, e) && i * PAGE < e.end - e.start
      modifies alloc, heap
      ensures alloc.Valid() && ListedOk(heap.maps, e) && alloc.free <= old(alloc.free)
      ensures FilledFor(old(heap.maps), heap.maps, e.id, i, old(alloc.free) - alloc.free)
      ensures frame.Some? ==> FrameAt(heap.maps[e.id], i) == frame
      ensures frame.Some? && heap.maps != old(heap.maps) ==> Zeroed(alloc, frame.value)
      ensures frame.None? ==> alloc.free == {}
    {
      hide PageFrameAllocator.Valid;
      match heap.maps[e.id] {
        case Mmap(_, base) =>
          frame := Some((base + i * PAGE) / PAGE);
          assert old(alloc.free) - alloc.free == {};
        case Lazy(size, pages) =>
          frame := pages[i];
          if frame.None? {
            frame := alloc.AllocatePage();
            if frame.Some? {
              heap.maps := heap.maps[e.id := Fill(heap.maps[e.id], i, frame.value)];
              assert old(alloc.free) - alloc.free == {frame.value};
            } else {
              assert old(alloc.free) - alloc.free == {};
            }
          } else {
            assert old(alloc.free) - alloc.free == {};
          }
      }
    }

    /** Serve a fault in range `e`. */
    method Resolve(e: Listed, address: nat) returns (r: FaultResult)
      requires Valid() && e in mappings && Contains(e, address)
      modifies store, alloc, heap
      ensures r.Handled? || r.NoFrame?
      ensures r.Handled? ==> Valid() && Resolved(old(Mach()), Mach(), View(), e, address)
      ensures r.Handled? ==> ShowsByte(Mach(), root, e, address)
      ensures r.NoFrame? ==> |alloc.free| < 3
    {
      hide Tree, Reach, Walk, CacheOk, Sets, Translated, UnderLarger, Missing, Maps, FilledFor, ShowsByte,
           PageFrameAllocator.Valid;
      ghost var c := Mach();
      PageHolding(e, address);
      var v: nat := address - address % PAGE;
      var frame := FrameFor(e, PageOf(e, v));
      if frame.None? {
        return NoFrame;
      }
      ghost var free, spent := alloc.free, c.free - alloc.free;
      SpendFrames(c.m, c.free, free, root);
      AlreadyRight(c, View(), e, v, heap.maps, spent);
      TranslatedPage(store.tables, root, v);
      MissingAtMost(store.tables, 4, root, 1, v);
      var mapped := store.Map(alloc, 4, root, 1, v, frame.value, e.flags);
      match mapped {
        case OutOfFrames =>
          SubsetSize(alloc.free, free);
          return NoFrame;
        case Mapped(_) =>
          MapsOnePage(c.m, free, store.tables, alloc.free, root, v, frame.value, e.flags);
        case LargerPage =>
          assert false;
        case AlreadyMapped(_, _, _) =>
          SetsAlready(c.m, root, v, Hit(1, frame.value, e.flags));
      }
      StepSpent(c.m, c.free, free, store.tables, alloc.free, root);
      CacheAfterFault(c, Mach(), View(), e, v, spent);
      FaultShowsByte(c, Mach(), View(), e, address);
      r := Handled;
    }

    /** `page_fault_handler`: find the range of the address and enter its page, giving the page a
        frame first if it has none. A page that is already entered is left alone. */
    method PageFaultHandler(address: nat) returns (r: FaultResult)
      requires Valid()
      modifies store, alloc, heap
      ensures r.NotListed? <==> address > END_USER_MEM || forall e :: e in mappings ==> !Contains(e, address)
      ensures r.NotListed? ==> Valid() && Mach() == old(Mach())
      ensures r.Handled? ==> Valid() && exists e :: Resolved(old(Mach()), Mach(), View(), e, address)
      ensures r.Handled? ==> forall e :: e in mappings && Contains(e, address) ==> ShowsByte(Mach(), root, e, address)
      ensures r.NoFrame? ==> |alloc.free| < 3
    {
      hide Tree, Reach, Walk, CacheOk, Sets, ShowsByte, PageFrameAllocator.Valid;
      if address > END_USER_MEM {
        return NotListed;
      }
      ComparisonsGoUp(mappings, address, 0, 0);
      var idx := BinarySearchBy(mappings, ByAddress(address));
      if idx.Err? {
        return NotListed;
      }
      var e := mappings[idx.index];
      r := Resolve(e, address);
      if r.Handled? {
        OnlyRange(mappings, e, address);
      }
    }

    /** `free_mapping`: drop a listed range and every translation in it. */
    method FreeMapping(start: nat, end: nat) returns (r: FreeResult)
      requires Valid()
      modifies this, store, alloc
      ensures Valid()
      ensures r.Freed? <==> exists i :: 0 <= i < |old(mappings)| && old(mappings)[i].start == start && old(mappings)[i].end == end
      ensures r.MemNotMapped? ==> Mach() == old(Mach()) && mappings == old(mappings)
      ensures r.Freed? ==> exists i: nat ::
        && FreeChange(old(Mach()), old(View()), i, Mach(), View())
        && old(mappings)[i].start == start && old(mappings)[i].end == end
    {
      hide Tree, Reach, Walk, CacheOk, Clears, PageFrameAllocator.Valid;
      ComparisonsGoUp(mappings, 0, start, end);
      var idx := BinarySearchBy(mappings, ByRange(start, end));
      ByRangeFinds(mappings, start, end);
      if idx.Err? {
        return MemNotMapped(start);
      }
      var e := mappings[idx.index];
      RemoveSorted(mappings, idx.index);
      RemoveAtMembers(mappings, idx.index);
      ghost var c, s := Mach(), View();
      mappings := RemoveAt(mappings, idx.index);
      ClearRange(e, s);
      CacheAfterRemove(c, Mach(), s, idx.index);
      assert FreeChange(old(Mach()), old(View()), idx.index, Mach(), View());
      r := Freed;
    }

    /** The loop of `free_mapping`: unmap every page of a range that is entered. */
    method ClearRange(e: Listed, ghost s: Space)
      requires alloc.Valid() && SpaceOk(Mach(), s) && s.root == root && e in s.list
      modifies store, alloc
      ensures alloc.Valid()
      ensures TableStep(old(store.tables), old(alloc.free), store.tables, alloc.free, root, {})
      ensures Clears(old(store.tables), store.tables, root, e, (e.end - e.start) / PAGE)
    {
      hide Tree, Reach, Walk, CacheOk, Sorted, Translated, Unmaps, PageFrameAllocator.Valid;
      ghost var c := Mach();
      NothingSpent(store.tables, alloc.free, root);
      for i := 0 to (e.end - e.start) / PAGE
        invariant alloc.Valid()
        invariant TableStep(c.m, c.free, store.tables, alloc.free, root, {})
        invariant Clears(c.m, store.tables, root, e, i)
      {
        ghost var m, free := store.tables, alloc.free;
        var v := e.start + i * PAGE;
        PageOfRange(e, e.end - e.start, i, v);
        SmallPages(c, s, v);
        TranslatedPage(store.tables, root, v);
        var r := store.Unmap(alloc, 4, root, 1, v);
        if r.Unmapped? {
          UnmapsOnePage(m, free, store.tables, alloc.free, root, v);
          StepTrans(c.m, c.free, m, free, store.tables, alloc.free, root, {});
        } else {
          SetsAlready(m, root, v, Miss);
        }
        ClearsPage(c.m, m, store.tables, root, e, i);
      }
    }
  }

  /** A page that is translated before the fault is translated as its range prescribes, so its slot
      was not empty and no larger page covers it. */
  lemma AlreadyRight(c: Machine, s: Space, e: Listed, v: nat, maps': map<nat, PageMapping>, spent: set<nat>)
    requires CacheOk(c, s) && ListOk(c.maps, s.list) && e in s.list && Contains(e, v) && PageAddress(v)
    requires FilledFor(c.maps, maps', e.id, PageOf(e, v), spent) && ListedOk(maps', e)
    requires Prescribed(maps', e, v).Some?
    ensures Walk(c.m, 4, s.root, v).Hit? ==>
      Walk(c.m, 4, s.root, v) == Hit(1, Prescribed(maps', e, v).value, e.flags)
    ensures !UnderLarger(c.m, 4, s.root, 1, v)
  {
    hide Walk;
    if Walk(c.m, 4, s.root, v).Hit? {
      assert Explained(c, s, v);
      var e' :| e' in s.list && CachedBy(c, s.root, e', v);
      var i :| 0 <= i < |s.list| && s.list[i] == e;
      var j :| 0 <= j < |s.list| && s.list[j] == e';
      InOneRange(s.list, i, j, v);
    }
  }

  lemma OnlyRange(list: seq<Listed>, e: Listed, a: nat)
    requires Sorted(list) && e in list && Contains(e, a)
    ensures forall e' :: e' in list && Contains(e', a) ==> e' == e
  {
    forall e' | e' in list && Contains(e', a)
      ensures e' == e
    {
      var i :| 0 <= i < |list| && list[i] == e;
      var j :| 0 <= j < |list| && list[j] == e';
      InOneRange(list, i, j, a);
    }
  }

  lemma FaultShowsByte(c: Machine, c': Machine, s: Space, e: Listed, a: nat)
    requires Resolved(c, c', s, e, a)
    ensures ShowsByte(c', s.root, e, a)
  {
    hide Walk, Tree, Reach, ShowsByte;
    PageHolding(e, a);
    PageShowsByte(c', s.root, e, a);
  }

  /** Every translation of a space is by a 4 KiB page. */
  lemma SmallPages(c: Machine, s: Space, v: nat)
    requires CacheOk(c, s) && PageAddress(v)
    ensures Walk(c.m, 4, s.root, v).Hit? ==> Walk(c.m, 4, s.root, v).level == 1
  {
    hide Walk;
    if Walk(c.m, 4, s.root, v).Hit? {
      assert Explained(c, s, v);
    }
  }

  /** Comparing ranges element by element finds exactly a listed range. */
  lemma ByRangeFinds(list: seq<Listed>, start: nat, end: nat)
    requires Sorted(list)
    ensures forall i :: 0 <= i < |list| ==>
      (ByRange(start, end)(list[i]) == Equal <==> list[i].start == start && list[i].end == end)
  {
    forall i | 0 <= i < |list|
      ensures ByRange(start, end)(list[i]) == Equal <==> list[i].start == start && list[i].end == end
    {
      CompareElementsIs(list[i].start, list[i].end, start, end);
    }
  }

  lemma SetsAlready(m: Memory, root: nat, v: nat, leaf: Leaf)
    requires Walk(m, 4, root, v) == leaf
    ensures Sets(m, m, root, v, leaf)
  {
  }

  lemma SpendFrames(m: Memory, free: set<nat>, free': set<nat>, root: nat)
    requires Tree(m, 4, root) && Reach(m, 4, root) !! free && free' <= free
    ensures TableStep(m, free, m, free', root, free - free')
  {
  }

  lemma NothingSpent(m: Memory, free: set<nat>, root: nat)
    requires Tree(m, 4, root) && Reach(m, 4, root) !! free
    ensures TableStep(m, free, m, free, root, {})
  {
    assert free - free == {};
  }

  lemma StepSpent(m: Memory, free: set<nat>, free1: set<nat>, m2: Memory, free2: set<nat>, root: nat)
    requires TableStep(m, free, m, free1, root, free - free1) && free1 <= free
    requires TableStep(m, free1, m2, free2, root, {}) || (m2 == m && free2 == free1)
    ensures TableStep(m, free, m2, free2, root, free - free1)
  {
    hide Tree, Reach;
    if TableStep(m, free1, m2, free2, root, {}) {
      StepTrans(m, free, m, free1, m2, free2, root, free - free1);
    }
  }

  /** What serving a fault at `a` in range `e` does: the page at `a` is translated as `e` prescribes,
      every other page as before, and at most one empty slot has been given a free frame. */
  ghost predicate Resolved(c: Machine, c': Machine, s: Space, e: Listed, a: nat) {
    var v: nat := a - a % PAGE;
    && e in s.list && ListedOk(c'.maps, e) && Contains(e, v) && Contains(e, a)
    && Prescribed(c'.maps, e, v).Some?
    && Sets(c.m, c'.m, s.root, v, Hit(1, Prescribed(c'.maps, e, v).value, e.flags))
    && exists spent :: FilledFor(c.maps, c'.maps, e.id, PageOf(e, v), spent)
                       && TableStep(c.m, c.free, c'.m, c'.free, s.root, spent)
  }

  // ---------------------------------------------------------------------------
  // What the calls do to an address space
  // ---------------------------------------------------------------------------

  /** Range `e` is put in at position `i`, and `n` of its pages are entered: all, or none. */
  ghost predicate InsertChange(c: Machine, s: Space, i: nat, e: Listed, n: nat, c': Machine, s': Space) {
    && c'.maps == c.maps && ListedOk(c.maps, e)
    && IsInsertAt(s.list, i, e, s'.list) && Sorted(s'.list)
    && TableStep(c.m, c.free, c'.m, c'.free, s.root, {})
    && (n == 0 || n * PAGE == c.maps[e.id].size) && Shows(c.m, c'.m, s.root, e, c.maps[e.id], n)
  }

  /** The range was put in somewhere. */
  ghost predicate InsertsRange(c: Machine, s: Space, e: Listed, n: nat, c': Machine, s': Space) {
    exists i: nat :: InsertChange(c, s, i, e, n, c', s')
  }

  ghost predicate FaultChange(c: Machine, s: Space, e: Listed, a: nat, c': Machine, s': Space) {
    s'.list == s.list && Resolved(c, c', s, e, a)
  }

  /** The range at position `i` is taken out, and none of its pages is entered any more. */
  ghost predicate FreeChange(c: Machine, s: Space, i: nat, c': Machine, s': Space) {
    && c'.maps == c.maps
    && i < |s.list| && s.list[i].start <= s.list[i].end && s'.list == RemoveAt(s.list, i)
    && TableStep(c.m, c.free, c'.m, c'.free, s.root, {})
    && Clears(c.m, c'.m, s.root, s.list[i], (s.list[i].end - s.list[i].start) / PAGE)
  }

  /** A mapping placed in a gap can be listed there. */
  lemma GapIsListable(maps: map<nat, PageMapping>, list: seq<Listed>, i: nat, id: nat, flags: Flags)
    requires Sorted(list) && id in maps && MappingOk(maps[id]) && Fits(list, i, maps[id].size)
    requires GoodRange(list[i].end + PAGE, list[i].end + PAGE + maps[id].size)
    ensures i + 1 < |list|
    ensures var e := Listed(list[i].end + PAGE, list[i].end + PAGE + maps[id].size, id, flags);
            ListedOk(maps, e) && Sorted(InsertAt(list, i + 1, e))
  {
    var e := Listed(list[i].end + PAGE, list[i].end + PAGE + maps[id].size, id, flags);
    InsertInGap(list, i, e);
  }

  lemma ShowsNothing(m: Memory, root: nat, e: Listed, p: PageMapping)
    requires MappingOk(p)
    ensures Shows(m, m, root, e, p, 0)
  {
  }
}
