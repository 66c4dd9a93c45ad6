/** The kernel heap (kernel/src/allocator/slab_allocator.rs). */
module Slab {
  import opened Prelude
  import Addresses
  import opened PageTables
  import opened TableOps
  import opened FrameAllocator
  import opened HeapPages
  import opened SlabBlocks

  class SlabAllocator {
    const root: nat
    const store: TableStore
    const alloc: PageFrameAllocator
    /** First block of each size that is not in use; 0 is none. */
    var slabHeads: seq<nat>
    /** The list nodes, each in the first bytes of its block. */
    var next: map<nat, nat>
    var baseAddress: nat

    ghost var lists: seq<seq<nat>>
    /** Every block by address, with its length. */
    ghost var blocks: map<nat, nat>
    /** The blocks in use. */
    ghost var live: set<nat>
    /** The mapped heap pages, with their frames. */
    ghost var owned: map<nat, nat>

    /** `new`, with an empty heap table. */
    constructor (store: TableStore, alloc: PageFrameAllocator, root: nat)
      requires alloc.Valid() && Owns(store.tables, root, alloc.free, map[])
      ensures this.store == store && this.alloc == alloc && this.root == root
      ensures Valid() && baseAddress == HEAP && live == {} && owned == map[]
      ensures forall i :: 0 <= i < |slabHeads| ==> slabHeads[i] == 0
    {
      this.store, this.alloc, this.root := store, alloc, root;
      slabHeads, next, baseAddress := [0, 0, 0, 0, 0, 0, 0, 0, 0], map[], HEAP;
      lists, blocks, live, owned := [[], [], [], [], [], [], [], [], []], map[], {}, map[];
    }

    ghost predicate Valid()
      reads this, store, alloc
    {
      && alloc.Valid() && Owns(store.tables, root, alloc.free, owned)
      && HEAP <= baseAddress <= HEAP_END && baseAddress % PAGE == 0
      && BlocksOk(blocks, baseAddress) && Backed(blocks, owned, baseAddress)
      && ListsOk(lists, blocks, live) && ChainsOk(next, slabHeads, lists)
    }

    ghost function Frames(): (s: set<nat>)
      requires root in store.tables
      reads this, store, alloc
    {
      Total(store.tables, root, alloc.free, owned)
    }

    /** Take the first block of a list that is not empty. */
    method TakeHead(i: nat) returns (a: nat)
      requires Valid() && i < 9 && lists[i] != []
      modifies this`slabHeads, this`next, this`lists, this`live
      ensures Valid() && a == old(lists)[i][0] && a in blocks && blocks[a] == SLAB_SIZES[i]
      ensures a !in old(live) && live == old(live) + {a} && lists == old(lists)[i := old(lists)[i][1..]]
    {
      hide ListsOk, ChainsOk, BlocksOk, Backed, Owns, PageFrameAllocator.Valid;
      ListsShape(lists, blocks, live, next, slabHeads);
      PopList(lists, blocks, live, i);
      ChainsPop(next, slabHeads, lists, blocks, live, i);
      a := slabHeads[i];
      slabHeads := slabHeads[i := next[a]];
      next := next[a := 0];
      lists, live := lists[i := lists[i][1..]], live + {a};
    }

    /** The loop that cuts the page at `base` into blocks, each node pointing to the one before it. */
    method Carve(base: nat, size: nat) returns (head: nat, ghost made: seq<nat>)
      requires Small(size) && base % PAGE == 0 && base > 0
      modifies this`next
      ensures Carved(made, base, base + PAGE, size) && made != [] && Distinct(made) && Chain(next, head, made)
      ensures SameBelow(old(next), next, base)
    {
      hide Chain, Carved;
      PageIsMultiple(base, size);
      PageIsMultiple(base + PAGE, size);
      NothingCarved(next, base, size);
      head, made := 0, [];
      var block := base;
      while block < base + PAGE
        invariant base <= block <= base + PAGE && block % size == 0
        invariant Carved(made, base, block, size) && Distinct(made) && Chain(next, head, made)
        invariant block > base ==> made != []
        invariant SameBelow(old(next), next, base)
      {
        CarveOne(made, base, block, size);
        NextMultiple(block, size);
        MultiplesApart(block, base + PAGE, size);
        CarveNode(next, head, made, base, block, size);
        next := next[block := head];
        head, made := block, [block] + made;
        block := block + size;
      }
    }

    /** Map a new page, cut it into blocks of size `i`, and take the last of them. */
    method Refill(i: nat) returns (r: Option<nat>)
      requires Valid() && i < 9 && lists[i] == [] && baseAddress + PAGE <= HEAP_END
      modifies this, store, alloc
      ensures r.None? ==> |alloc.free| < 2
      ensures r.Some? ==> Valid() && r.value in blocks && blocks[r.value] == SLAB_SIZES[i]
      ensures r.Some? ==> r.value !in old(live) && live == old(live) + {r.value}
      ensures r.Some? ==> Grown(old(blocks), blocks) && Grown(old(owned), owned)
      ensures r.Some? ==> baseAddress == old(baseAddress) + PAGE
      ensures r.Some? ==> root in old(store.tables) && root in store.tables && Frames() == old(Frames())
    {
      hide ListsOk, ChainsOk, BlocksOk, Backed, Owns, Carved, Chain, Distinct, Total, PageFrameAllocator.Valid;
      var size, base := SLAB_SIZES[i], baseAddress;
      ListsShape(lists, blocks, live, next, slabHeads);
      FreshPage(owned, blocks, base);
      var frame := MapHeapPage(store, alloc, root, base, owned);
      if frame.None? {
        return None;
      }
      baseAddress := baseAddress + PAGE;
      ghost var next0 := next;
      ghost var made;
      var head;
      head, made := Carve(base, size);
      AddCarvedPage(lists, blocks, live, owned, base, i, made, frame.value);
      ChainsCarved(next0, next, slabHeads, lists, blocks, live, base, i, head, made);
      lists, blocks := lists[i := made], blocks + Uniform(made, size);
      owned := owned[base := frame.value];
      slabHeads := slabHeads[i := head];
      var a := TakeHead(i);
      r := Some(a);
    }

    /** Map `length` bytes of whole pages at the end of the heap. */
    method AllocLarge(length: nat) returns (r: Option<nat>)
      requires Valid() && length % PAGE == 0 && length > 0 && !Small(length) && baseAddress + length <= HEAP_END
      modifies this, store, alloc
      ensures r.None? ==> |alloc.free| < 2
      ensures r.Some? ==> Valid() && r.value == old(baseAddress) && blocks == old(blocks)[r.value := length]
      ensures r.Some? ==> baseAddress == old(baseAddress) + length
      ensures r.Some? ==> r.value !in old(live) && live == old(live) + {r.value}
      ensures r.Some? ==> Grown(old(owned), owned)
      ensures r.Some? ==> forall v :: v in owned <==> v in old(owned) || PageOf(r.value, length, v)
      ensures r.Some? ==> forall v :: v in old(owned) ==> !PageOf(r.value, length, v)
      ensures r.Some? ==> root in old(store.tables) && root in store.tables && Frames() == old(Frames())
    {
      hide ListsOk, ChainsOk, BlocksOk, Backed, Owns, Total, Small, GivenPages, PageFrameAllocator.Valid;
      var base := baseAddress;
      FreshPage(owned, blocks, base);
      NoneGiven(owned, base);
      OwnsRoot(store.tables, root, alloc.free, owned);
      baseAddress := baseAddress + length;
      var page := base;
      while page < base + length
        invariant base <= page <= base + length && page % PAGE == 0 && alloc.Valid()
        invariant Owns(store.tables, root, alloc.free, owned) && GivenPages(old(owned), owned, base, page - base)
        invariant root in store.tables && Frames() == old(Frames())
        invariant unchanged(`slabHeads, `next, `lists, `blocks, `live) && baseAddress == base + length
      {
        NextIsNew(old(owned), owned, base, page);
        var frame := MapHeapPage(store, alloc, root, page, owned);
        if frame.None? {
          return None;
        }
        GiveNext(old(owned), owned, base, page, frame.value);
        owned := owned[page := frame.value];
        page := page + PAGE;
      }
      AllGiven(old(owned), owned, base, length);
      AddLarge(blocks, base, length);
      AddLargeList(lists, blocks, live, base, length);
      BackLarge(blocks, old(owned), owned, base, length);
      LiveBlocks(lists, blocks, live);
      blocks, live := blocks[base := length], live + {base};
      r := Some(base);
    }

    /** No block of the size is at hand. */
    predicate NeedsPages(layout: Layout)
      reads this
    {
      var i := Position(MinSize(layout), 0);
      i.None? || i.value >= |slabHeads| || slabHeads[i.value] == 0
    }

    /** `alloc`. The block is new, serves the layout, and is aligned for it. For an alignment above a page
        it lies at the end of the heap, so that it is aligned only if that end is. `None` is the panic when
        frames run out. */
    method Alloc(layout: Layout) returns (r: Option<nat>)
      requires Valid() && LayoutOk(layout)
      requires NeedsPages(layout) ==> baseAddress + RoundUp(MinSize(layout)) <= HEAP_END
      modifies this, store, alloc
      ensures r.None? ==> |alloc.free| < 2
      ensures r.Some? ==> Valid() && r.value !in old(live) && live == old(live) + {r.value}
      ensures r.Some? ==> r.value in blocks && blocks[r.value] == BlockLength(MinSize(layout))
      ensures r.Some? ==> Tight(layout, blocks[r.value])
      ensures r.Some? && layout.align <= PAGE ==> Aligned(r.value, layout.align)
      ensures r.Some? && layout.align > PAGE ==> r.value == old(baseAddress)
      ensures r.Some? ==> baseAddress == old(baseAddress) + if old(NeedsPages(layout)) then RoundUp(MinSize(layout)) else 0
      ensures r.Some? ==> Grown(old(blocks), blocks) && Grown(old(owned), owned)
      ensures r.Some? ==> root in old(store.tables) && root in store.tables && Frames() == old(Frames())
    {
      hide ListsOk, ChainsOk, Backed, Owns, Total, Position, LayoutOk, Aligned, Tight, PageFrameAllocator.Valid;
      BlockIsTight(layout);
      var minSize := MinSize(layout);
      AlignPositive(layout);
      OwnsRoot(store.tables, root, alloc.free, owned);
      var index := Position(minSize, 0);
      match index {
        case Some(i) =>
          HeadOf(next, slabHeads, lists, i);
          if slabHeads[i] != 0 {
            var a := TakeHead(i);
            r := Some(a);
          } else {
            r := Refill(i);
          }
        case None =>
          LargeLength(minSize);
          r := AllocLarge(RoundUp(minSize));
      }
      if index.Some? { OnePage(minSize); }
      if r.Some? && layout.align <= PAGE {
        BlockAligned(layout, r.value);
      }
      if layout.align > PAGE {
        LargeOnly(minSize);
      }
    }

    /** `dealloc`. A small block goes back on the list of its size. A large one is unmapped, and the
        frames under it, which are its own, become free. No `unwrap` fails. */
    method Dealloc(ptr: nat, layout: Layout)
      requires Valid() && ptr in live && ptr in blocks && blocks[ptr] == BlockLength(MinSize(layout))
      modifies this, store, alloc
      ensures Valid() && live == old(live) - {ptr} && baseAddress == old(baseAddress)
      ensures var i := Position(MinSize(layout), 0);
        if i.Some? then
          blocks == old(blocks) && owned == old(owned) && |old(lists)| == 9
          && lists == old(lists)[i.value := [ptr] + old(lists)[i.value]] && alloc.free == old(alloc.free)
        else
          blocks == old(blocks) - {ptr} && GivenBack(old(owned), owned, ptr, old(blocks)[ptr], alloc.free)
          && lists == old(lists)
      ensures root in old(store.tables) && root in store.tables && Frames() == old(Frames())
    {
      hide ListsOk, ChainsOk, BlocksOk, Backed, Owns, Total, Position, PageFrameAllocator.Valid;
      OwnsRoot(store.tables, root, alloc.free, owned);
      var index := Position(MinSize(layout), 0);
      match index {
        case Some(i) =>
          ListsShape(lists, blocks, live, next, slabHeads);
          PushList(lists, blocks, live, i, ptr);
          BlockPositive(blocks, baseAddress, ptr);
          ChainsPush(next, slabHeads, lists, blocks, live, i, ptr);
          next := next[ptr := slabHeads[i]];
          slabHeads := slabHeads[i := ptr];
          lists, live := lists[i := [ptr] + lists[i]], live - {ptr};
        case None =>
          LargeLength(MinSize(layout));
          FreeLarge(ptr, RoundUp(MinSize(layout)));
      }
    }

    /** Unmap the pages of a large block and free their frames. */
    method FreeLarge(base: nat, length: nat)
      requires Valid() && base in live && base in blocks && blocks[base] == length && !Small(length)
      modifies this, store, alloc
      ensures Valid() && live == old(live) - {base} && baseAddress == old(baseAddress)
      ensures blocks == old(blocks) - {base} && lists == old(lists)
      ensures GivenBack(old(owned), owned, base, length, alloc.free)
      ensures root in old(store.tables) && root in store.tables && Frames() == old(Frames())
    {
      hide ListsOk, ChainsOk, BlocksOk, Backed, Owns, Total, Small, GivenBack, PageFrameAllocator.Valid;
      NoneGivenBack(owned, base, alloc.free);
      OwnsRoot(store.tables, root, alloc.free, owned);
      BlockPositive(blocks, baseAddress, base);
      var page := base;
      while page < base + length
        invariant base <= page <= base + length && page % PAGE == 0 && alloc.Valid()
        invariant Owns(store.tables, root, alloc.free, owned)
        invariant GivenBack(old(owned), owned, base, page - base, alloc.free)
        invariant root in store.tables && Frames() == old(Frames())
        invariant unchanged(`slabHeads, `next, `lists, `blocks, `live, `baseAddress)
      {
        BackedPage(blocks, old(owned), baseAddress, base, page);
        ghost var free := alloc.free;
        NextIsOwned(old(owned), owned, base, page, free);
        UnmapHeapPage(store, alloc, root, page, owned);
        GiveBackNext(old(owned), owned, base, page, free, alloc.free);
        owned := owned - {page};
        page := page + PAGE;
      }
      UnbackLarge(blocks, old(owned), owned, baseAddress, base, alloc.free);
      RemoveLargeList(lists, blocks, live, base);
      RemoveLarge(blocks, baseAddress, base);
      blocks, live := blocks - {base}, live - {base};
    }
  }

  /** The pages of `[a, a + n)` are no longer mapped and their frames are free; all others are as before. */
  ghost predicate GivenBack(owned: map<nat, nat>, owned': map<nat, nat>, a: nat, n: nat, free: set<nat>) {
    && (forall v :: v in owned' <==> v in owned && !PageOf(a, n, v))
    && (forall v :: v in owned' ==> owned'[v] == owned[v])
    && forall v :: v in owned && PageOf(a, n, v) ==> owned[v] in free
  }

  /** The pages of `[a, a + n)` have been given frames; all others are as before. */
  ghost predicate GivenPages(owned: map<nat, nat>, owned': map<nat, nat>, a: nat, n: nat) {
    && Grown(owned, owned') && (forall v :: v in owned ==> v < a)
    && forall v :: v in owned' <==> v in owned || PageOf(a, n, v)
  }

  lemma NoneGiven(owned: map<nat, nat>, a: nat)
    requires forall v :: v in owned ==> v < a
    ensures GivenPages(owned, owned, a, 0)
  {
  }

  lemma NextIsNew(owned: map<nat, nat>, owned': map<nat, nat>, a: nat, page: nat)
    requires a <= page && GivenPages(owned, owned', a, page - a)
    ensures page !in owned'
  {
  }

  lemma GiveNext(owned: map<nat, nat>, owned': map<nat, nat>, a: nat, page: nat, frame: nat)
    requires a <= page && page % PAGE == 0 && GivenPages(owned, owned', a, page - a)
    ensures GivenPages(owned, owned'[page := frame], a, page + PAGE - a)
  {
    var next := owned'[page := frame];
    forall v: nat
      ensures v in next <==> v in owned || PageOf(a, page + PAGE - a, v)
    {
      NextPage(a, page, v);
    }
  }

  lemma AllGiven(owned: map<nat, nat>, owned': map<nat, nat>, a: nat, n: nat)
    requires GivenPages(owned, owned', a, n)
    ensures Grown(owned, owned') && forall v :: v in owned' <==> v in owned || PageOf(a, n, v)
    ensures forall v :: v in owned ==> !PageOf(a, n, v)
  {
  }

  lemma NoneGivenBack(owned: map<nat, nat>, a: nat, free: set<nat>)
    ensures GivenBack(owned, owned, a, 0, free)
  {
  }

  lemma NextIsOwned(owned: map<nat, nat>, owned': map<nat, nat>, a: nat, page: nat, free: set<nat>)
    requires a <= page && GivenBack(owned, owned', a, page - a, free) && page in owned
    ensures page in owned'
  {
  }

  /** One round of the loop of `dealloc`. */
  lemma GiveBackNext(owned: map<nat, nat>, owned': map<nat, nat>, a: nat, page: nat, free: set<nat>, free': set<nat>)
    requires a <= page && page % PAGE == 0 && GivenBack(owned, owned', a, page - a, free) && free <= free'
    requires page in owned' && owned'[page] in free'
    ensures GivenBack(owned, owned' - {page}, a, page + PAGE - a, free')
  {
    forall v: nat
      ensures v in owned && PageOf(a, page + PAGE - a, v) <==> v in owned && (PageOf(a, page - a, v) || v == page)
    {
      NextPage(a, page, v);
    }
  }

  lemma NextPage(a: nat, page: nat, v: nat)
    requires a <= page && page % PAGE == 0
    ensures PageOf(a, page + PAGE - a, v) <==> PageOf(a, page - a, v) || v == page
  {
  }

  lemma OwnsRoot(m: Memory, root: nat, free: set<nat>, owned: map<nat, nat>)
    requires Owns(m, root, free, owned)
    ensures root in m
  {
  }

  lemma BackLarge(blocks: map<nat, nat>, owned: map<nat, nat>, owned': map<nat, nat>, base: nat, n: nat)
    requires Backed(blocks, owned, base) && Grown(owned, owned') && base % PAGE == 0 && n % PAGE == 0
    requires forall v :: v in owned' <==> v in owned || PageOf(base, n, v)
    ensures Backed(blocks[base := n], owned', base + n)
  {
  }

  lemma LiveBlocks(lists: seq<seq<nat>>, blocks: map<nat, nat>, live: set<nat>)
    requires ListsOk(lists, blocks, live)
    ensures live <= blocks.Keys
  {
  }

  lemma HeadOf(next: map<nat, nat>, heads: seq<nat>, lists: seq<seq<nat>>, i: nat)
    requires ChainsOk(next, heads, lists) && i < 9
    ensures |heads| == 9 && |lists| == 9 && (heads[i] == 0 <==> lists[i] == [])
  {
    assert Chain(next, heads[i], lists[i]);
  }

  lemma AlignPositive(l: Layout)
    requires LayoutOk(l)
    ensures l.align > 0
  {
  }

  /** A request that a slab size serves is rounded up to one page. */
  lemma OnePage(min: nat)
    requires min > 0 && Position(min, 0).Some?
    ensures RoundUp(min) == PAGE
  {
  }

  /** A request above a page is served by a large block. */
  lemma LargeOnly(min: nat)
    requires min > PAGE
    ensures Position(min, 0).None?
  {
  }

  lemma BlockPositive(blocks: map<nat, nat>, base: nat, a: nat)
    requires BlocksOk(blocks, base) && a in blocks
    ensures 0 < a < base && BlockOk(a, blocks[a])
  {
  }

  lemma BackedPage(blocks: map<nat, nat>, owned: map<nat, nat>, base: nat, a: nat, v: nat)
    requires Backed(blocks, owned, base) && a in blocks && PageOf(a, blocks[a], v)
    ensures v in owned
  {
    assert Touches(a, blocks[a], v);
  }

  lemma UnbackLarge(blocks: map<nat, nat>, owned: map<nat, nat>, owned': map<nat, nat>, base: nat, a: nat, free: set<nat>)
    requires Backed(blocks, owned, base) && BlocksOk(blocks, base) && a in blocks && !Small(blocks[a])
    requires GivenBack(owned, owned', a, blocks[a], free)
    ensures Backed(blocks - {a}, owned', base)
  {
    hide BlocksOk;
    forall b, v | b in blocks - {a} && Touches(b, blocks[b], v)
      ensures v in owned'
    {
      LargeAlone(blocks, base, a, b, v);
    }
  }

  lemma RemoveLarge(blocks: map<nat, nat>, base: nat, a: nat)
    requires BlocksOk(blocks, base)
    ensures BlocksOk(blocks - {a}, base)
  {
  }

  /** Every key of `a` keeps its value in `b`. */
  ghost predicate Grown(a: map<nat, nat>, b: map<nat, nat>) {
    forall x :: x in a ==> x in b && b[x] == a[x]
  }

  lemma ListsShape(lists: seq<seq<nat>>, blocks: map<nat, nat>, live: set<nat>, next: map<nat, nat>, heads: seq<nat>)
    requires ListsOk(lists, blocks, live) && ChainsOk(next, heads, lists)
    ensures |lists| == 9 && |heads| == 9
  {
  }

  lemma NothingCarved(next: map<nat, nat>, base: nat, size: nat)
    ensures Carved([], base, base, size) && Chain(next, 0, [])
  {
  }

  lemma CarveNode(next: map<nat, nat>, head: nat, made: seq<nat>, base: nat, block: nat, size: nat)
    requires Carved(made, base, block, size) && Chain(next, head, made) && Distinct(made) && block > 0
    ensures Distinct([block] + made) && Chain(next[block := head], block, [block] + made)
  {
    hide Chain;
    ChainFrame(next, head, made, block, head);
    ChainPush(next[block := head], head, made, block);
  }

  lemma FreshPage(owned: map<nat, nat>, blocks: map<nat, nat>, base: nat)
    requires Backed(blocks, owned, base)
    ensures forall v :: v in owned ==> v < base
  {
  }

  lemma AddCarvedPage(lists: seq<seq<nat>>, blocks: map<nat, nat>, live: set<nat>, owned: map<nat, nat>,
                      base: nat, i: nat, made: seq<nat>, f: nat)
    requires BlocksOk(blocks, base) && Backed(blocks, owned, base) && ListsOk(lists, blocks, live)
    requires i < 9 && lists[i] == [] && HEAP <= base && base % PAGE == 0
    requires Carved(made, base, base + PAGE, SLAB_SIZES[i]) && Distinct(made)
    ensures var blocks' := blocks + Uniform(made, SLAB_SIZES[i]);
            && BlocksOk(blocks', base + PAGE) && Backed(blocks', owned[base := f], base + PAGE)
            && ListsOk(lists[i := made], blocks', live) && Grown(blocks, blocks')
    ensures Grown(owned, owned[base := f])
  {
    hide BlocksOk, ListsOk, Carved;
    AddCarved(blocks, base, made, SLAB_SIZES[i]);
    AddCarvedList(lists, blocks, live, i, made);
    BackCarved(blocks, owned, base, made, SLAB_SIZES[i], f);
  }

  lemma ChainsCarved(next: map<nat, nat>, next': map<nat, nat>, heads: seq<nat>, lists: seq<seq<nat>>,
                     blocks: map<nat, nat>, live: set<nat>, base: nat, i: nat, head: nat, made: seq<nat>)
    requires ChainsOk(next, heads, lists) && ListsOk(lists, blocks, live) && BlocksOk(blocks, base)
    requires i < 9 && Chain(next', head, made)
    requires SameBelow(next, next', base)
    ensures ChainsOk(next', heads[i := head], lists[i := made])
  {
    hide Chain, OnList, SameBelow;
    forall j | 0 <= j < 9 && j != i
      ensures Chain(next', heads[j], lists[j])
    {
      assert ListHolds(lists[j], SLAB_SIZES[j], blocks, live);
      forall a | a in lists[j]
        ensures a < base
      {
        BlockPositive(blocks, base, a);
      }
      ChainBelow(next, next', heads[j], lists[j], base);
    }
  }

  lemma ChainBelow(next: map<nat, nat>, next': map<nat, nat>, head: nat, list: seq<nat>, base: nat)
    requires Chain(next, head, list) && SameBelow(next, next', base) && forall a :: a in list ==> a < base
    ensures Chain(next', head, list)
  {
    assert forall k :: 0 <= k < |list| ==> list[k] in list;
  }

  /** No node below `base` has been written. */
  ghost predicate SameBelow(next: map<nat, nat>, next': map<nat, nat>, base: nat) {
    forall a :: a < base ==> (a in next <==> a in next') && (a in next ==> next'[a] == next[a])
  }

  /** A new heap that serves a word and then a byte aligned to two pages: the second block is not aligned.
      The calls can fail only when frames run out. */
  method AlignmentFails(store: TableStore, alloc: PageFrameAllocator, root: nat)
    returns (h: SlabAllocator, ok: bool, block: nat)
    requires alloc.Valid() && Owns(store.tables, root, alloc.free, map[])
    modifies store, alloc
    ensures ok ==> h.Valid() && block in h.live && !Aligned(block, 0x2000)
    ensures !ok ==> |alloc.free| < 2
  {
    hide Owns, SlabAllocator.Valid, LayoutOk, Aligned, MinSize, Position, RoundUp, BlockLength, Grown, PageFrameAllocator.Valid;
    SomeLayouts();
    h := new SlabAllocator(store, alloc, root);
    ok, block := false, 0;
    var first := h.Alloc(Layout(8, 8));
    if first.Some? {
      var second := h.Alloc(Layout(1, 0x2000));
      if second.Some? {
        ok, block := true, second.value;
      }
    }
  }

  // ---------------------------------------------------------------------------
  // What a valid heap guarantees
  // ---------------------------------------------------------------------------

  /** Byte `x` belongs to the block at `a`. */
  ghost predicate ByteOf(h: SlabAllocator, a: nat, x: nat)
    reads h
  {
    a in h.blocks && a <= x < a + h.blocks[a]
  }

  /** A byte belongs to one block, in use or not; a block in use is on no list; every byte of a block
      can be read and written, in a frame that is neither free nor a table. */
  lemma HeapIsSound(h: SlabAllocator, a: nat, x: nat)
    requires h.Valid() && ByteOf(h, a, x)
    ensures forall b :: ByteOf(h, b, x) ==> b == a
    ensures a in h.live <==> forall i :: 0 <= i < |h.lists| ==> a !in h.lists[i]
    ensures var leaf := Walk(h.store.tables, 3, h.root, x);
            leaf.Hit? && leaf.flags == WRITEABLE && leaf.level == 1
            && leaf.frame !in h.alloc.free && leaf.frame !in Reach(h.store.tables, 3, h.root)
  {
    hide Walk, Reach, Tree, Chain, PageFrameAllocator.Valid;
    var v := x - x % PAGE;
    assert Touches(a, h.blocks[a], v) by { PageHoldsByte(h.blocks, h.baseAddress, a, x); }
    assert Walk(h.store.tables, 3, h.root, v) == OwnedLeaf(h.owned, v);
    WalkInPage(h.store.tables, h.root, v, x);
    if a in h.live {
      forall i | 0 <= i < |h.lists|
        ensures a !in h.lists[i]
      {
        assert ListHolds(h.lists[i], SLAB_SIZES[i], h.blocks, h.live);
      }
    }
  }

  lemma PageHoldsByte(blocks: map<nat, nat>, base: nat, a: nat, x: nat)
    requires BlocksOk(blocks, base) && a in blocks && a <= x < a + blocks[a]
    ensures Touches(a, blocks[a], x - x % PAGE)
  {
  }

  /** All bytes of a page are translated alike. */
  lemma WalkInPage(m: Memory, root: nat, v: nat, x: nat)
    requires HeapPage(v) && v == x - x % PAGE
    ensures Walk(m, 3, root, x) == Walk(m, 3, root, v)
  {
    hide Walk, Addresses.SamePage;
    assert v / Addresses.Span(4) == x / Addresses.Span(4) == 0x1ff_fffe;
    Addresses.SamePageIsSameNumber(1, 3, v, x);
    WalkSelects(m, 3, root, v, x);
  }

  /** Different bytes of the heap are different bytes of memory. */
  lemma BytesApart(h: SlabAllocator, a: nat, x: nat, b: nat, y: nat)
    requires h.Valid() && ByteOf(h, a, x) && ByteOf(h, b, y) && x != y
    ensures Walk(h.store.tables, 3, h.root, x).Hit? && Walk(h.store.tables, 3, h.root, y).Hit?
    ensures Walk(h.store.tables, 3, h.root, x).frame != Walk(h.store.tables, 3, h.root, y).frame
            || x % PAGE != y % PAGE
  {
    hide Walk, Reach, Tree, Chain, ListsOk, ChainsOk, PageFrameAllocator.Valid;
    var u, v := x - x % PAGE, y - y % PAGE;
    PageHoldsByte(h.blocks, h.baseAddress, a, x);
    PageHoldsByte(h.blocks, h.baseAddress, b, y);
    assert Walk(h.store.tables, 3, h.root, u) == OwnedLeaf(h.owned, u);
    assert Walk(h.store.tables, 3, h.root, v) == OwnedLeaf(h.owned, v);
    WalkInPage(h.store.tables, h.root, u, x);
    WalkInPage(h.store.tables, h.root, v, y);
  }
}
