/** Mapping, unmapping and looking up pages (kernel/src/paging/page_table.rs, lines 227-370). */
module TableOps {
  import opened Prelude
  import opened Addresses
  import opened PageTables
  import opened FrameLists
  import opened FrameAllocator
  import Runs = TableRuns

  /** The result of `map`; the last two are the panics of its `assert!` and `unwrap`. */
  datatype MapResult =
    | Mapped(page: nat)
    | AlreadyMapped(from: nat, to: nat, current: nat)
    | LargerPage
    | OutOfFrames

  /** The result of `unmap`; the last is the panic of its assertions. */
  datatype UnmapResult =
    | Unmapped(page: nat)
    | NotMapped(page: nat)
    | WrongSize

  datatype AddressResult = Found(frame: nat) | NotFound | Asserted

  /** What a call did to the tables, as a step of a run. */
  function MapChange(r: MapResult, k: nat, v: nat, frame: nat, flags: Flags): (c: Runs.Change) {
    if r.Mapped? then Runs.MapPage(k, v, frame, flags) else Runs.Refused
  }

  function UnmapChange(r: UnmapResult, k: nat, v: nat): (c: Runs.Change) {
    if r.Unmapped? then Runs.UnmapPage(k, v) else Runs.Refused
  }

  /** A frame read as a table: empty when the allocator has zeroed it, and full of entries that were never
      written when it has not. */
  function ReadAsTable(content: PageMetadata): (t: Table) {
    if content == ZEROED then EMPTY else seq(512, _ => Entry(true, true, true, true, 0))
  }

  /** Some byte of the page of `v` is translated. */
  ghost predicate Translated(m: Memory, l: nat, t: nat, k: nat, v: nat)
    requires 1 <= k <= l <= 4
  {
    exists x: nat :: SamePage(k, l, v, x) && Walk(m, l, t, x).Hit?
  }

  /** The walk of `v` ends at a leaf larger than level `k`. */
  ghost predicate UnderLarger(m: Memory, l: nat, t: nat, k: nat, v: nat)
    requires 1 <= k <= l <= 4
  {
    Walk(m, l, t, v).Hit? && Walk(m, l, t, v).level > k
  }

  /** Tables missing on the path of `v` from level `l` down to level `k`. */
  ghost function Missing(m: Memory, l: nat, t: nat, k: nat, v: nat): (n: nat)
    requires 1 <= k <= l <= 4
    decreases l
  {
    if l == k || t !in m then 0
    else
      var e := m[t][Index(l, v)];
      if !e.present then l - k
      else if IsInner(l, e) then Missing(m, l - 1, e.frame, k, v)
      else 0
  }

  lemma MissingStep(m: Memory, l: nat, t: nat, k: nat, v: nat)
    requires 1 <= k <= l <= 4 && t in m
    ensures var e := m[t][Index(l, v)];
            && (l == k ==> Missing(m, l, t, k, v) == 0)
            && (l > k && !e.present ==> Missing(m, l, t, k, v) == l - k)
            && (l > k && IsInner(l, e) ==> Missing(m, l, t, k, v) == Missing(m, l - 1, e.frame, k, v))
  {
  }

  lemma {:induction false} MissingAtMost(m: Memory, l: nat, t: nat, k: nat, v: nat)
    requires 1 <= k <= l <= 4
    ensures Missing(m, l, t, k, v) <= l - k
    decreases l
  {
    if l > k && t in m && IsInner(l, m[t][Index(l, v)]) {
      MissingAtMost(m, l - 1, m[t][Index(l, v)].frame, k, v);
    }
  }

  /** A walk from level `l` ends at level `l` or below. */
  lemma {:induction false} WalkLevel(m: Memory, l: nat, t: nat, x: nat)
    requires 1 <= l <= 4 && Walk(m, l, t, x).Hit?
    ensures 1 <= Walk(m, l, t, x).level <= l
    decreases l
  {
    if IsInner(l, m[t][Index(l, x)]) {
      WalkLevel(m, l - 1, m[t][Index(l, x)].frame, x);
    }
  }

  /** At the level of the page: the entry is present exactly when some byte is translated. */
  lemma TranslatedAtLeaf(m: Memory, k: nat, t: nat, v: nat)
    requires 1 <= k <= 4 && Tree(m, k, t)
    ensures Translated(m, k, t, k, v) <==> m[t][Index(k, v)].present
    ensures !UnderLarger(m, k, t, k, v)
  {
    if m[t][Index(k, v)].present {
      var x := PresentIsTranslated(m, k, t, v);
    }
    if x: nat :| SamePage(k, k, v, x) && Walk(m, k, t, x).Hit? {
      assert Index(k, x) == Index(k, v);
    }
    if Walk(m, k, t, v).Hit? { WalkLevel(m, k, t, v); }
  }

  /** One level up: through an inner entry the question is that of the table below. */
  lemma TranslatedThrough(m: Memory, l: nat, t: nat, k: nat, v: nat)
    requires 1 <= k < l <= 4 && Tree(m, l, t)
    ensures var e := m[t][Index(l, v)];
            if IsInner(l, e) then
              && (Translated(m, l, t, k, v) <==> Translated(m, l - 1, e.frame, k, v))
              && (UnderLarger(m, l, t, k, v) <==> UnderLarger(m, l - 1, e.frame, k, v))
              && Walk(m, l, t, v) == Walk(m, l - 1, e.frame, v)
            else
              && (Translated(m, l, t, k, v) <==> e.present)
              && (UnderLarger(m, l, t, k, v) <==> e.present)
  {
    hide Tree;
    var e := m[t][Index(l, v)];
    TreeEntry(m, l, t, Index(l, v));
    if IsInner(l, e) {
      TranslatedBelow(m, l, t, k, v);
    } else {
      if x: nat :| SamePage(k, l, v, x) && Walk(m, l, t, x).Hit? {
        assert Index(l, x) == Index(l, v);
      }
      assert SamePage(k, l, v, v);
    }
  }

  lemma TranslatedBelow(m: Memory, l: nat, t: nat, k: nat, v: nat)
    requires 1 <= k < l <= 4 && t in m && IsInner(l, m[t][Index(l, v)])
    ensures Translated(m, l, t, k, v) <==> Translated(m, l - 1, m[t][Index(l, v)].frame, k, v)
  {
    var e := m[t][Index(l, v)];
    if x: nat :| SamePage(k, l, v, x) && Walk(m, l, t, x).Hit? {
      assert Index(l, x) == Index(l, v);
      assert SamePage(k, l - 1, v, x) && Walk(m, l - 1, e.frame, x).Hit?;
    }
    if Translated(m, l - 1, e.frame, k, v) {
      var x := TranslatedByte(m, l - 1, e.frame, k, v);
      assert SamePage(k, l, v, x) && Walk(m, l, t, x).Hit?;
    }
  }

  lemma LeafFound(m: Memory, k: nat, t: nat, v: nat)
    requires 1 <= k <= 4 && Tree(m, k, t)
    ensures Walk(m, k, t, v).Hit? && Walk(m, k, t, v).level == k
        <==> m[t][Index(k, v)].present && !IsInner(k, m[t][Index(k, v)])
    ensures Walk(m, k, t, v).Hit? && Walk(m, k, t, v).level == k
        ==> Walk(m, k, t, v).frame == m[t][Index(k, v)].frame
  {
    var e := m[t][Index(k, v)];
    if IsInner(k, e) && Walk(m, k, t, v).Hit? {
      WalkLevel(m, k - 1, e.frame, v);
    }
  }

  /** A translated byte can be chosen in the page of `v` itself. */
  lemma {:induction false} TranslatedByte(m: Memory, l: nat, t: nat, k: nat, v: nat) returns (x: nat)
    requires 1 <= k <= l <= 4 && Translated(m, l, t, k, v)
    ensures SamePage(k, 4, v, x) && x / Span(k) == v / Span(k) && Walk(m, l, t, x).Hit?
  {
    var x0: nat :| SamePage(k, l, v, x0) && Walk(m, l, t, x0).Hit?;
    if k == 1 {
      x := v;
      assert SamePage(1, l, v, x0);
      WalkSelects(m, l, t, v, x0);
    } else {
      var y := x0 % Span(k);
      x := ByteOf(k, v, y);
      ByteOfUp(k, v, y, k);
      forall j | 1 <= j <= 4
        ensures j >= k ==> Index(j, x) == Index(j, v)
        ensures j < k ==> Index(j, x) == Index(j, x0)
      {
        if j >= k { ByteOfUp(k, v, y, j); } else { ByteOfDown(k, v, y, j); LowBits(k, x0, j); }
      }
      WalkSelects(m, l, t, x0, x);
    }
  }

  /** `address_of`; it panics when the walk meets a larger page above level `k`. */
  function AddressOf(m: Memory, l: nat, t: nat, k: nat, v: nat): (r: AddressResult)
    requires 1 <= k <= l <= 4
    decreases l
  {
    if t !in m then NotFound else
      var e := m[t][Index(l, v)];
      if l == k then (if e.present && e.larger == (k > 1) then Found(e.frame) else NotFound)
      else if !e.present then NotFound
      else if e.larger then Asserted
      else AddressOf(m, l - 1, e.frame, k, v)
  }

  /** `address_of` finds exactly the leaf that the hardware walk finds, when it has the page's size. */
  lemma {:induction false} AddressOfIsWalk(m: Memory, l: nat, t: nat, k: nat, v: nat)
    requires 1 <= k <= l <= 4 && Tree(m, l, t)
    ensures forall f: nat :: AddressOf(m, l, t, k, v) == Found(f) <==>
              Walk(m, l, t, v).Hit? && Walk(m, l, t, v).level == k && Walk(m, l, t, v).frame == f
    ensures AddressOf(m, l, t, k, v) == Asserted <==> UnderLarger(m, l, t, k, v)
    decreases l
  {
    var e := m[t][Index(l, v)];
    TreeEntry(m, l, t, Index(l, v));
    if l == k {
      LeafFound(m, k, t, v);
      TranslatedAtLeaf(m, k, t, v);
    } else if IsInner(l, e) {
      AddressOfIsWalk(m, l - 1, e.frame, k, v);
    }
  }

  /** When nothing is translated any more, every table but the root has been freed. */
  lemma NothingLeft(m: Memory, l: nat, t: nat)
    requires 1 <= l <= 4 && Tree(m, l, t)
    requires forall x: nat :: Walk(m, l, t, x) == Miss
    ensures Reach(m, l, t) == {t}
  {
    if i :| 0 <= i < 512 && m[t][i].present {
      DivSpan(l, i, 0);
      var x := PresentIsTranslated(m, l, t, i * Span(l));
    }
    BareTable(m, l, t);
  }

  // ---------------------------------------------------------------------------
  // What `map` does, case by case
  // ---------------------------------------------------------------------------

  /** What `map` promises: `m` and `free` are the tables and the free frames before, `m'` and `free'` after. */
  ghost predicate MapOutcome(r: MapResult, m: Memory, free: set<nat>, m': Memory, free': set<nat>,
                             l: nat, t: nat, k: nat, v: nat, frame: nat, flags: Flags)
    requires 1 <= k <= l <= 4
  {
    && free' <= free
    && (r.Mapped? ==> r.page == v && Maps(m, m', l, t, k, v, frame, flags, free - free'))
    && (r.Mapped? ==> |free| == |free'| + Missing(m, l, t, k, v))
    && (!r.OutOfFrames? ==>
          Runs.Step(l, t, Runs.State(m, free), MapChange(r, k, v, frame, flags), Runs.State(m', free')))
    && (r.AlreadyMapped? || r.LargerPage? ==> m' == m && free' == free)
    && (r.Mapped? || r.OutOfFrames? <==> !Translated(m, l, t, k, v))
    && (r.LargerPage? <==> UnderLarger(m, l, t, k, v))
    && (r.OutOfFrames? <==> !Translated(m, l, t, k, v) && |free| < Missing(m, l, t, k, v))
    && (r.AlreadyMapped? ==> r.from == v && r.to == frame * 0x1000)
    && (r.AlreadyMapped? && Walk(m, l, t, v).Hit? && Walk(m, l, t, v).level == k ==>
          r.current == Walk(m, l, t, v).frame * 0x1000)
  }

  lemma LeafOutcome(r: MapResult, m: Memory, m': Memory, free: set<nat>, k: nat, t: nat, v: nat, frame: nat, flags: Flags)
    requires 1 <= k <= 4 && Tree(m, k, t) && (r.Mapped? || r.AlreadyMapped?)
    requires r.Mapped? <==> !Translated(m, k, t, k, v)
    requires r.Mapped? ==> r.page == v && Maps(m, m', k, t, k, v, frame, flags, {})
    requires r.AlreadyMapped? ==> m' == m && r.from == v && r.to == frame * 0x1000
    requires r.AlreadyMapped? && Walk(m, k, t, v).Hit? && Walk(m, k, t, v).level == k ==>
             r.current == Walk(m, k, t, v).frame * 0x1000
    ensures MapOutcome(r, m, free, m', free, k, t, k, v, frame, flags)
  {
    hide Tree, Translated, UnderLarger, Maps, Walk;
    TranslatedAtLeaf(m, k, t, v);
    assert free - free == {};
    MapIsStep(r, m, free, m', free, k, t, k, v, frame, flags);
  }

  lemma LargerOutcome(m: Memory, free: set<nat>, l: nat, t: nat, k: nat, v: nat, frame: nat, flags: Flags)
    requires 1 <= k < l <= 4 && Tree(m, l, t) && m[t][Index(l, v)].present && m[t][Index(l, v)].larger
    ensures MapOutcome(LargerPage, m, free, m, free, l, t, k, v, frame, flags)
  {
    hide Tree, Translated, UnderLarger, Maps, Walk;
    TranslatedThrough(m, l, t, k, v);
    MapIsStep(LargerPage, m, free, m, free, l, t, k, v, frame, flags);
  }

  lemma NoFrameOutcome(m: Memory, l: nat, t: nat, k: nat, v: nat, frame: nat, flags: Flags)
    requires 1 <= k < l <= 4 && Tree(m, l, t) && !m[t][Index(l, v)].present
    ensures MapOutcome(OutOfFrames, m, {}, m, {}, l, t, k, v, frame, flags)
  {
    hide Tree, Translated, UnderLarger, Maps, Walk;
    TranslatedThrough(m, l, t, k, v);
    MissingStep(m, l, t, k, v);
  }

  /** Through a table that is there: what the table below did. */
  lemma ThroughOutcome(r: MapResult, m: Memory, free: set<nat>, m': Memory, free': set<nat>,
                       l: nat, t: nat, k: nat, v: nat, frame: nat, flags: Flags)
    requires 1 <= k < l <= 4 && Tree(m, l, t) && IsInner(l, m[t][Index(l, v)]) && Reach(m, l, t) !! free
    requires MapOutcome(r, m, free, m', free', l - 1, m[t][Index(l, v)].frame, k, v, frame, flags)
    ensures MapOutcome(r, m, free, m', free', l, t, k, v, frame, flags)
  {
    hide Tree, Reach, Translated, UnderLarger, Maps, Walk, Missing, Runs.Step;
    TranslatedThrough(m, l, t, k, v);
    MissingStep(m, l, t, k, v);
    if r.Mapped? { MapThrough(m, m', l, t, k, v, frame, flags, free - free'); }
    MapIsStep(r, m, free, m', free', l, t, k, v, frame, flags);
  }

  /** Through the new table `c`: what the table below did, and one frame more. */
  lemma LinkedOutcome(r: MapResult, m: Memory, free: set<nat>, m': Memory, free': set<nat>,
                      l: nat, t: nat, c: nat, k: nat, v: nat, frame: nat, flags: Flags)
    requires 1 <= k < l <= 4 && Tree(m, l, t) && !m[t][Index(l, v)].present
    requires c > 0 && c in free && Reach(m, l, t) !! free
    requires var m1: Memory := m[c := EMPTY][t := m[t][Index(l, v) := InnerEntry(c)]];
             MapOutcome(r, m1, free - {c}, m', free', l - 1, c, k, v, frame, flags)
    ensures MapOutcome(r, m, free, m', free', l, t, k, v, frame, flags)
  {
    hide Tree, Reach, Translated, UnderLarger, Maps, Walk, Missing, Runs.Step;
    var m1: Memory := m[c := EMPTY][t := m[t][Index(l, v) := InnerEntry(c)]];
    TranslatedThrough(m, l, t, k, v);
    MissingStep(m, l, t, k, v);
    RootReached(m, l, t);
    EmptyTable(m1, l - 1, c);
    NothingInEmpty(m1, l - 1, c, k, v);
    MissingStep(m1, l - 1, c, k, v);
    if r.Mapped? {
      MapFresh(m, m', l, t, c, k, v, frame, flags, free - {c} - free');
      assert free - {c} - free' + {c} == free - free';
    }
    MapIsStep(r, m, free, m', free', l, t, k, v, frame, flags);
  }

  lemma RootReached(m: Memory, l: nat, t: nat)
    requires 1 <= l <= 4 && Tree(m, l, t)
    ensures t in m && t in Reach(m, l, t)
  {
  }

  /** All page tables of the machine. */
  class TableStore {
    var tables: Memory

    /** `PageTable::new`: an empty root table. */
    method NewTable(alloc: PageFrameAllocator, l: nat) returns (t: Option<nat>)
      requires 1 <= l <= 4 && alloc.Valid()
      modifies this, alloc
      ensures alloc.Valid() && (t.None? <==> old(alloc.free) == {})
      ensures t.None? ==> tables == old(tables) && alloc.free == old(alloc.free)
      ensures t.Some? ==>
        && t.value in old(alloc.free) && alloc.free == old(alloc.free) - {t.value}
        && tables == old(tables)[t.value := EMPTY]
        && Tree(tables, l, t.value) && Reach(tables, l, t.value) == {t.value}
        && forall x: nat :: Walk(tables, l, t.value, x) == Miss
    {
      hide PageFrameAllocator.Valid;
      t := alloc.AllocatePage();
      if t.Some? {
        tables := tables[t.value := ReadAsTable(alloc.meta[t.value])];
        EmptyTable(tables, l, t.value);
      }
    }

    /** `map_inner`: fill the entry of the page in a table of its own level. */
    method MapInner(k: nat, t: nat, v: nat, frame: nat, flags: Flags) returns (r: MapResult)
      requires 1 <= k <= 3 && Tree(tables, k, t)
      modifies this
      ensures r.Mapped? || r.AlreadyMapped?
      ensures r.Mapped? <==> !old(Translated(tables, k, t, k, v))
      ensures r.Mapped? ==> r.page == v && Maps(old(tables), tables, k, t, k, v, frame, flags, {})
      ensures r.AlreadyMapped? ==> tables == old(tables) && r.from == v && r.to == frame * 0x1000
      ensures r.AlreadyMapped? && old(Walk(tables, k, t, v)).Hit? && old(Walk(tables, k, t, v)).level == k ==>
              r.current == old(Walk(tables, k, t, v)).frame * 0x1000
    {
      hide Tree, Reach, Translated, UnderLarger, Maps, Walk;
      var index := Index(k, v);
      var e := tables[t][index];
      TranslatedAtLeaf(tables, k, t, v);
      if e.present {
        LeafFound(tables, k, t, v);
        return AlreadyMapped(v, frame * 0x1000, e.frame * 0x1000);
      }
      MapLeaf(tables, k, t, v, frame, flags);
      e := e.(present := true, larger := k > 1, writable := flags.writable, user := flags.user, frame := frame);
      tables := tables[t := tables[t][index := e]];
      r := Mapped(v);
    }

    /** Take a zeroed frame for a new table and link it into entry `index` of table `t`. */
    method LinkTable(alloc: PageFrameAllocator, t: nat, index: nat) returns (next: Option<nat>)
      requires alloc.Valid() && t in tables && t !in alloc.free && index < 512
      modifies this, alloc
      ensures alloc.Valid() && (next.None? <==> old(alloc.free) == {})
      ensures next.None? ==> tables == old(tables) && alloc.free == old(alloc.free)
      ensures next.Some? ==>
        && next.value > 0 && next.value in old(alloc.free) && alloc.free == old(alloc.free) - {next.value}
        && |old(alloc.free)| == |alloc.free| + 1
        && tables == old(tables)[next.value := EMPTY][t := old(tables)[t][index := InnerEntry(next.value)]]
    {
      hide PageFrameAllocator.Valid;
      next := alloc.AllocatePage();
      if next.Some? {
        tables := tables[next.value := ReadAsTable(alloc.meta[next.value])];
        var e := tables[t][index];
        e := e.(present := true, larger := false, writable := true, user := true, frame := next.value);
        tables := tables[t := tables[t][index := e]];
      }
    }

    /** `map` on the table of level `l` in frame `t`, for a page whose leaf is of level `k`. */
    method Map(alloc: PageFrameAllocator, l: nat, t: nat, k: nat, v: nat, frame: nat, flags: Flags)
      returns (r: MapResult)
      requires 1 <= k <= l <= 4 && k <= 3
      requires alloc.Valid() && Tree(tables, l, t) && Reach(tables, l, t) !! alloc.free
      modifies this, alloc
      ensures alloc.Valid()
      ensures MapOutcome(r, old(tables), old(alloc.free), tables, alloc.free, l, t, k, v, frame, flags)
      decreases l
    {
      hide Tree, Reach, Translated, UnderLarger, Maps, Walk, Index, Below, EntryOk, Siblings, MapOutcome,
           PageFrameAllocator.Valid;
      if l == k {
        r := MapInner(k, t, v, frame, flags);
        LeafOutcome(r, old(tables), tables, alloc.free, k, t, v, frame, flags);
        return;
      }
      var index := Index(l, v);
      var e := tables[t][index];
      if e.present {
        if e.larger {
          LargerOutcome(tables, alloc.free, l, t, k, v, frame, flags);
          return LargerPage;
        }
        TreeEntry(tables, l, t, index);
        ReachSplit(tables, l, t, index);
        r := Map(alloc, l - 1, e.frame, k, v, frame, flags);
        ThroughOutcome(r, old(tables), old(alloc.free), tables, alloc.free, l, t, k, v, frame, flags);
      } else {
        RootReached(tables, l, t);
        var next := LinkTable(alloc, t, index);
        if next.None? {
          NoFrameOutcome(tables, l, t, k, v, frame, flags);
          return OutOfFrames;
        }
        EmptyTable(tables, l - 1, next.value);
        r := Map(alloc, l - 1, next.value, k, v, frame, flags);
        LinkedOutcome(r, old(tables), old(alloc.free), tables, alloc.free, l, t, next.value, k, v, frame, flags);
      }
    }

    /** `unmap`: clear the leaf and free every table left without a present entry. */
    method Unmap(alloc: PageFrameAllocator, l: nat, t: nat, k: nat, v: nat) returns (r: UnmapResult)
      requires 1 <= k <= l <= 4 && k <= 3
      requires alloc.Valid() && Tree(tables, l, t) && Reach(tables, l, t) !! alloc.free
      modifies this, alloc
      ensures alloc.Valid() && old(alloc.free) <= alloc.free
      ensures r.Unmapped? ==> r.page == v
                              && Unmaps(old(tables), tables, l, t, k, v, alloc.free - old(alloc.free))
      ensures !r.Unmapped? ==> tables == old(tables) && alloc.free == old(alloc.free)
      ensures Runs.Step(l, t, Runs.State(old(tables), old(alloc.free)), UnmapChange(r, k, v), Runs.State(tables, alloc.free))
      ensures r.NotMapped? <==> !old(Translated(tables, l, t, k, v))
      ensures r.Unmapped? <==> old(Walk(tables, l, t, v)).Hit? && old(Walk(tables, l, t, v)).level == k
      decreases l
    {
      hide Tree, Reach, Translated, UnderLarger, Unmaps, Walk, Index, Below, Siblings, PageFrameAllocator.Valid;
      var index := Index(l, v);
      var e := tables[t][index];
      if l == k {
        TranslatedAtLeaf(tables, k, t, v);
        LeafFound(tables, k, t, v);
        if !e.present {
          return NotMapped(v);
        }
        TreeEntry(tables, l, t, index);
        if e.larger != (k > 1) {
          return WrongSize;
        }
        UnmapLeaf(tables, k, t, v);
        tables := tables[t := tables[t][index := Cleared(e)]];
        assert alloc.free - old(alloc.free) == {};
        return Unmapped(v);
      }
      TranslatedThrough(tables, l, t, k, v);
      if !e.present {
        NoLeaf(tables, l, t, k, v);
        return NotMapped(v);
      }
      if e.larger {
        NoLeaf(tables, l, t, k, v);
        return WrongSize;
      }
      TreeEntry(tables, l, t, index);
      ReachSplit(tables, l, t, index);
      r := Unmap(alloc, l - 1, e.frame, k, v);
      if r.WrongSize? {
        return;
      }
      ghost var freed := alloc.free - old(alloc.free);
      if r.Unmapped? {
        UnmapsRoot(old(tables), tables, l - 1, e.frame, k, v, freed);
      }
      if !HasPresent(tables[e.frame]) {
        UnmapPrune(old(tables), tables, l, t, k, v, freed);
        tables := tables[t := tables[t][index := Cleared(e)]] - {e.frame};
        alloc.FreePage(e.frame);
        assert alloc.free - old(alloc.free) == freed + {e.frame};
      } else if r.Unmapped? {
        UnmapThrough(old(tables), tables, l, t, k, v, freed);
      }
    }
  }

  lemma MapIsStep(r: MapResult, m: Memory, free: set<nat>, m': Memory, free': set<nat>,
                  l: nat, t: nat, k: nat, v: nat, frame: nat, flags: Flags)
    requires 1 <= k <= l <= 4 && free' <= free
    requires r.Mapped? ==> Maps(m, m', l, t, k, v, frame, flags, free - free')
    requires r.AlreadyMapped? || r.LargerPage? ==> m' == m && free' == free
    ensures !r.OutOfFrames? ==>
      Runs.Step(l, t, Runs.State(m, free), MapChange(r, k, v, frame, flags), Runs.State(m', free'))
  {
    hide Maps;
  }

  lemma UnmapsRoot(m: Memory, m': Memory, l: nat, t: nat, k: nat, v: nat, freed: set<nat>)
    requires 1 <= k <= l <= 4 && Unmaps(m, m', l, t, k, v, freed)
    ensures t in m' && t > 0 && t in Reach(m, l, t) && t !in freed
  {
  }

  lemma NoLeaf(m: Memory, l: nat, t: nat, k: nat, v: nat)
    requires 1 <= k < l <= 4 && t in m && !IsInner(l, m[t][Index(l, v)])
    ensures Walk(m, l, t, v).Hit? ==> Walk(m, l, t, v).level == l
  {
  }

  lemma NothingInEmpty(m: Memory, l: nat, t: nat, k: nat, v: nat)
    requires 1 <= k <= l <= 4 && forall x: nat :: Walk(m, l, t, x) == Miss
    ensures !Translated(m, l, t, k, v) && !UnderLarger(m, l, t, k, v)
  {
  }
}
