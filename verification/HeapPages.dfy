/**
 The pages under the kernel heap: the level-3 table `KERNEL_HEAP_MAP`, which serves the
 512 GiB of the heap, and the frames mapped in it (kernel/src/paging/mod.rs and
 kernel/src/allocator/slab_allocator.rs).
 */
module HeapPages {
  import opened Prelude
  import opened Addresses
  import opened PageTables
  import opened TableOps
  import opened FrameAllocator

  const PAGE: nat := 0x1000
  const HEAP: nat := 0xffff_ff00_0000_0000
  /** Where the part of the address space served by the heap's table ends. */
  const HEAP_END: nat := 0xffff_ff80_0000_0000

  const WRITEABLE := Flags(true, false)

  predicate HeapPage(v: nat) {
    v % PAGE == 0 && HEAP <= v < HEAP_END
  }

  /** What the walk of a heap page finds when `owned` gives the frame of every mapped page. */
  function OwnedLeaf(owned: map<nat, nat>, v: nat): (leaf: Leaf) {
    if v in owned then Hit(1, owned[v], WRITEABLE) else Miss
  }

  /** Exactly the pages of `owned` are mapped, each to a frame that is its own: used by no other heap
      page, by no table, and not free. */
  ghost predicate Owns(m: Memory, root: nat, free: set<nat>, owned: map<nat, nat>) {
    && Tree(m, 3, root) && Reach(m, 3, root) !! free
    && (forall v: nat :: HeapPage(v) ==> Walk(m, 3, root, v) == OwnedLeaf(owned, v))
    && (forall v :: v in owned ==> HeapPage(v) && owned[v] > 0 && owned[v] !in free && owned[v] !in Reach(m, 3, root))
    && forall u, v :: u in owned && v in owned && u != v ==> owned[u] != owned[v]
  }

  /** All frames of the heap, its tables and the allocator. */
  ghost function Total(m: Memory, root: nat, free: set<nat>, owned: map<nat, nat>): (s: set<nat>)
    requires root in m
  {
    Reach(m, 3, root) + free + owned.Values
  }

  /** The heap's table tells heap pages apart. */
  lemma SameHeapPage(v: nat, x: nat)
    requires HeapPage(v) && HeapPage(x)
    ensures SamePage(1, 3, v, x) <==> v == x
  {
    assert v / Span(4) == 0x1ff_fffe && x / Span(4) == 0x1ff_fffe;
    SamePageIsSameNumber(1, 3, v, x);
  }

  lemma UnmappedHeapPage(m: Memory, root: nat, v: nat)
    ensures Translated(m, 3, root, 1, v) <==> Walk(m, 3, root, v).Hit?
  {
    if x: nat :| SamePage(1, 3, v, x) && Walk(m, 3, root, x).Hit? {
      WalkSelects(m, 3, root, v, x);
    }
    assert SamePage(1, 3, v, v);
  }

  lemma AddHeapPage(m: Memory, m': Memory, root: nat, free: set<nat>, free': set<nat>, owned: map<nat, nat>, v: nat, f: nat)
    requires Owns(m, root, free + {f}, owned) && f !in free && f > 0 && HeapPage(v) && v !in owned
    requires free' <= free && Maps(m, m', 3, root, 1, v, f, WRITEABLE, free - free')
    ensures Owns(m', root, free', owned[v := f])
    ensures root in m && root in m' && Total(m', root, free', owned[v := f]) == Total(m, root, free + {f}, owned)
  {
    hide Reach, Walk, SamePage;
    forall x: nat | HeapPage(x)
      ensures Walk(m', 3, root, x) == OwnedLeaf(owned[v := f], x)
    {
      SameHeapPage(v, x);
    }
    assert owned[v := f].Values == owned.Values + {f} by {
      assert v in owned[v := f].Keys;
      forall x | x in owned.Values
        ensures x in owned[v := f].Values
      {
        var u :| u in owned && owned[u] == x;
        assert u in owned[v := f] && owned[v := f][u] == x;
      }
    }
  }

  lemma RemoveHeapPage(m: Memory, m': Memory, root: nat, free: set<nat>, free': set<nat>, owned: map<nat, nat>, v: nat)
    requires Owns(m, root, free, owned) && v in owned
    requires free <= free' && Unmaps(m, m', 3, root, 1, v, free' - free)
    ensures owned[v] !in free' && Owns(m', root, free' + {owned[v]}, owned - {v})
    ensures root in m && root in m' && Total(m', root, free' + {owned[v]}, owned - {v}) == Total(m, root, free, owned)
  {
    hide Reach, Walk, SamePage;
    forall x: nat | HeapPage(x)
      ensures Walk(m', 3, root, x) == OwnedLeaf(owned - {v}, x)
    {
      SameHeapPage(v, x);
    }
    forall x | x in owned.Values
      ensures x == owned[v] || x in (owned - {v}).Values
    {
      var u :| u in owned && owned[u] == x;
      if u != v { assert u in (owned - {v}) && (owned - {v})[u] == x; }
    }
  }

  /** Give a heap page a frame. The `unwrap`s fail only when frames have run out. */
  method MapHeapPage(store: TableStore, alloc: PageFrameAllocator, root: nat, v: nat, ghost owned: map<nat, nat>)
    returns (frame: Option<nat>)
    requires alloc.Valid() && Owns(store.tables, root, alloc.free, owned) && HeapPage(v) && v !in owned
    modifies store, alloc
    ensures alloc.Valid()
    ensures frame.Some? ==> Owns(store.tables, root, alloc.free, owned[v := frame.value])
    ensures frame.Some? ==> root in old(store.tables) && root in store.tables
                            && Total(store.tables, root, alloc.free, owned[v := frame.value])
                               == Total(old(store.tables), root, old(alloc.free), owned)
    ensures frame.None? ==> |alloc.free| < 2
  {
    hide Tree, Reach, Walk, Translated, UnderLarger, Missing, Maps, PageFrameAllocator.Valid;
    ghost var m := store.tables;
    frame := alloc.AllocatePage();
    if frame.None? {
      return;
    }
    ghost var free := alloc.free;
    UnmappedHeapPage(store.tables, root, v);
    MissingAtMost(store.tables, 3, root, 1, v);
    var r := store.Map(alloc, 3, root, 1, v, frame.value, WRITEABLE);
    if !r.Mapped? {
      SubsetSize(alloc.free, free);
      return None;
    }
    assert free + {frame.value} == old(alloc.free);
    AddHeapPage(m, store.tables, root, free, alloc.free, owned, v, frame.value);
  }

  /** Take the frame of a heap page back. None of the `unwrap`s fails. */
  method UnmapHeapPage(store: TableStore, alloc: PageFrameAllocator, root: nat, v: nat, ghost owned: map<nat, nat>)
    requires alloc.Valid() && Owns(store.tables, root, alloc.free, owned) && v in owned
    modifies store, alloc
    ensures alloc.Valid() && owned[v] in alloc.free && old(alloc.free) <= alloc.free
    ensures Owns(store.tables, root, alloc.free, owned - {v})
    ensures root in old(store.tables) && root in store.tables
    ensures Total(store.tables, root, alloc.free, owned - {v})
            == Total(old(store.tables), root, old(alloc.free), owned)
  {
    hide Tree, Reach, Walk, Translated, UnderLarger, Unmaps, AddressOf, PageFrameAllocator.Valid;
    assert Walk(store.tables, 3, root, v) == OwnedLeaf(owned, v);
    AddressOfIsWalk(store.tables, 3, root, 1, v);
    var phys := AddressOf(store.tables, 3, root, 1, v);
    assert phys == Found(owned[v]);
    var r := store.Unmap(alloc, 3, root, 1, v);
    RemoveHeapPage(old(store.tables), store.tables, root, old(alloc.free), alloc.free, owned, v);
    alloc.FreePage(phys.frame);
  }
}
