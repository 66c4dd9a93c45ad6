/** Mapping all physical memory at a fixed offset (kernel/src/paging/offset_map.rs, lines 22-84). */
module OffsetMap {
  import opened Prelude
  import opened Addresses
  import opened PageTables
  import opened TableOps
  import opened Chunks
  import opened FrameLists
  import opened FrameAllocator
  import opened MemoryMap

  const PHYS_MAP_OFFSET: nat := 0xffff_e000_0000_0000
  const END_PHYS_MAP_OFFSET: nat := 0xffff_efff_ffff_ffff
  /** One level-3 table reaches 512 GiB. */
  const LIMIT: nat := 0x80_0000_0000

  const KERNEL_ONLY := Flags(true, false)

  /** Memory lies in a region, and not in the zero page. */
  ghost predicate InMemory(regions: seq<Region>, a: nat) {
    a >= 0x1000 && exists i :: 0 <= i < |regions| && Within(regions[i].start, regions[i].count, a / 0x1000)
  }

  /** The walk of the offset address of byte `a` ends at `a`, for the kernel alone. */
  ghost predicate WalksTo(m: Memory, t: nat, a: nat) {
    var x := PHYS_MAP_OFFSET + a;
    Walk(m, 3, t, x).Hit? && Walk(m, 3, t, x).flags == KERNEL_ONLY && Translate(m, 3, t, x) == Some(a)
  }

  ghost predicate WalksNowhere(m: Memory, t: nat, a: nat) {
    Walk(m, 3, t, PHYS_MAP_OFFSET + a) == Miss
  }

  /** Exactly the bytes `done` are translated, each to itself. */
  ghost predicate MapsExactly(m: Memory, t: nat, done: iset<nat>) {
    && Tree(m, 3, t)
    && (forall a: nat :: a < LIMIT && a in done ==> WalksTo(m, t, a))
    && (forall a: nat :: a < LIMIT && a !in done ==> WalksNowhere(m, t, a))
  }

  predicate Between(lo: nat, hi: nat, a: nat) {
    lo <= a < hi
  }

  ghost function Bytes(lo: nat, hi: nat): (s: iset<nat>) {
    iset a: nat | Between(lo, hi, a)
  }

  lemma ShiftDiv(k: nat, p: nat, a: nat)
    requires 1 <= k <= 4
    ensures (p * Span(k) + a) / Span(k) == p + a / Span(k)
    ensures (p * Span(k) + a) % Span(k) == a % Span(k)
  {
    Distribute(p, a / Span(k), Span(k));
    assert p * Span(k) + a == (p + a / Span(k)) * Span(k) + a % Span(k);
    DivSpan(k, p + a / Span(k), a % Span(k));
  }

  /** Addresses of the offset map lie in one window, and keep their place in a page. */
  lemma OffsetPage(k: nat, b: nat, a: nat)
    requires 1 <= k <= 3 && a < LIMIT && b < LIMIT && b % Span(k) == 0
    ensures SameWindow(3, PHYS_MAP_OFFSET + b, PHYS_MAP_OFFSET + a)
    ensures (PHYS_MAP_OFFSET + b) / Span(k) == (PHYS_MAP_OFFSET + a) / Span(k) <==> Between(b, b + Span(k), a)
    ensures (PHYS_MAP_OFFSET + a) % Span(k) == a % Span(k)
    ensures Between(b, b + Span(k), a) ==> a % Span(k) == a - b
  {
    OneWindow(a);
    OneWindow(b);
    var p := OffsetPages(k);
    ShiftDiv(k, p, a);
    ShiftDiv(k, p, b);
    PagePlace(k, b, a);
  }

  lemma OneWindow(a: nat)
    requires a < LIMIT
    ensures (PHYS_MAP_OFFSET + a) / Span(4) == 0x1ff_ffc0
  {
    ShiftDiv(4, 0x1ff_ffc0, a);
  }

  /** The offset in pages of level `k`. */
  function OffsetPages(k: nat): (p: nat)
    requires 1 <= k <= 3
    ensures p * Span(k) == PHYS_MAP_OFFSET
  {
    if k == 1 then 0xf_fffe_0000_0000 else if k == 2 then 0x7ff_ff00_0000 else 0x3_ffff_8000
  }

  lemma PagePlace(k: nat, b: nat, a: nat)
    requires 1 <= k <= 3 && b % Span(k) == 0
    ensures b / Span(k) == a / Span(k) <==> Between(b, b + Span(k), a)
    ensures Between(b, b + Span(k), a) ==> a % Span(k) == a - b
  {
    var n := b / Span(k);
    if Between(b, b + Span(k), a) {
      DivSpan(k, n, a - b);
    }
  }

  lemma AddByte(m: Memory, m': Memory, t: nat, k: nat, b: nat, taken: set<nat>, a: nat)
    requires 1 <= k <= 3 && b % Span(k) == 0 && b + Span(k) <= LIMIT && a < LIMIT
    requires Maps(m, m', 3, t, k, PHYS_MAP_OFFSET + b, b / 0x1000, KERNEL_ONLY, taken)
    ensures if Between(b, b + Span(k), a) then WalksTo(m', t, a)
            else (WalksTo(m', t, a) <==> WalksTo(m, t, a)) && (WalksNowhere(m', t, a) <==> WalksNowhere(m, t, a))
  {
    hide Tree, Walk, Reach, SamePage;
    OffsetPage(k, b, a);
    SamePageIsSameNumber(k, 3, PHYS_MAP_OFFSET + b, PHYS_MAP_OFFSET + a);
    WholeFrames(k, b);
  }

  /** Mapping a page adds exactly its bytes. */
  lemma AddPage(m: Memory, m': Memory, t: nat, done: iset<nat>, k: nat, b: nat, taken: set<nat>)
    requires 1 <= k <= 3 && b % Span(k) == 0 && b + Span(k) <= LIMIT
    requires MapsExactly(m, t, done)
    requires Maps(m, m', 3, t, k, PHYS_MAP_OFFSET + b, b / 0x1000, KERNEL_ONLY, taken)
    ensures MapsExactly(m', t, done + Bytes(b, b + Span(k)))
  {
    hide WalksTo, WalksNowhere, Reach, Walk, SamePage;
    forall a: nat | a < LIMIT
      ensures a in done + Bytes(b, b + Span(k)) ==> WalksTo(m', t, a)
      ensures a !in done + Bytes(b, b + Span(k)) ==> WalksNowhere(m', t, a)
    {
      AddByte(m, m', t, k, b, taken, a);
    }
  }

  lemma WholeFrames(k: nat, b: nat)
    requires 1 <= k <= 3 && b % Span(k) == 0
    ensures b / 0x1000 * 0x1000 == b
  {
    match k
    case 1 =>
    case 2 => FramesIn(b, b / 0x20_0000 * 512);
    case 3 => FramesIn(b, b / 0x4000_0000 * 0x4_0000);
  }

  lemma FramesIn(b: nat, n: nat)
    requires b == n * 0x1000
    ensures b / 0x1000 == n
  {
  }

  /** A page none of whose bytes is translated yet can be mapped, whatever the sizes around it. */
  lemma UntranslatedPage(m: Memory, t: nat, done: iset<nat>, k: nat, b: nat)
    requires 1 <= k <= 3 && b % Span(k) == 0 && b + Span(k) <= LIMIT
    requires MapsExactly(m, t, done) && done !! Bytes(b, b + Span(k))
    ensures !Translated(m, 3, t, k, PHYS_MAP_OFFSET + b)
  {
    if Translated(m, 3, t, k, PHYS_MAP_OFFSET + b) {
      var x := TranslatedByte(m, 3, t, k, PHYS_MAP_OFFSET + b);
      OffsetPageMissed(m, t, done, k, b, x);
    }
  }

  lemma OffsetPageMissed(m: Memory, t: nat, done: iset<nat>, k: nat, b: nat, x: nat)
    requires 1 <= k <= 3 && b % Span(k) == 0 && b + Span(k) <= LIMIT
    requires MapsExactly(m, t, done) && done !! Bytes(b, b + Span(k))
    requires x / Span(k) == (PHYS_MAP_OFFSET + b) / Span(k)
    ensures Walk(m, 3, t, x) == Miss
  {
    InOffsetPage(k, b, x);
    var a: nat := x - PHYS_MAP_OFFSET;
    assert a in Bytes(b, b + Span(k));
    assert WalksNowhere(m, t, a);
  }

  lemma InOffsetPage(k: nat, b: nat, x: nat)
    requires 1 <= k <= 3 && b % Span(k) == 0 && b + Span(k) <= LIMIT
    requires x / Span(k) == (PHYS_MAP_OFFSET + b) / Span(k)
    ensures PHYS_MAP_OFFSET + b <= x < PHYS_MAP_OFFSET + b + Span(k)
  {
    OffsetPage(k, b, b);
  }

  /** What `Page::new` asserts of an address. */
  predicate ValidPage(k: nat, a: nat)
    requires 1 <= k <= 3
  {
    a % Span(k) == 0 && Canonical(a) && a > 0
  }

  lemma OffsetPageValid(k: nat, b: nat)
    requires 1 <= k <= 3 && b % Span(k) == 0 && 0 < b < LIMIT
    ensures ValidPage(k, b) && ValidPage(k, b + PHYS_MAP_OFFSET)
  {
    OffsetPage(k, b, b);
  }

  /** Map one page at its offset; the `unwrap` can fail only when the allocator is all but empty. */
  method MapPage(store: TableStore, alloc: PageFrameAllocator, t: nat, k: nat, b: nat, ghost done: iset<nat>)
    returns (ok: bool)
    requires 1 <= k <= 3 && b % Span(k) == 0 && 0 < b && b + Span(k) <= LIMIT
    requires alloc.Valid() && MapsExactly(store.tables, t, done)
    requires Reach(store.tables, 3, t) !! alloc.free && done !! Bytes(b, b + Span(k))
    modifies store, alloc
    ensures alloc.Valid()
    ensures ok ==> MapsExactly(store.tables, t, done + Bytes(b, b + Span(k)))
    ensures ok ==> Reach(store.tables, 3, t) !! alloc.free
    ensures !ok ==> |alloc.free| < 2
  {
    hide Tree, Reach, Span, WalksTo, WalksNowhere, Walk, Translated, UnderLarger, Missing, PageFrameAllocator.Valid;
    OffsetPageValid(k, b);
    UntranslatedPage(store.tables, t, done, k, b);
    MissingAtMost(store.tables, 3, t, k, PHYS_MAP_OFFSET + b);
    var r := store.Map(alloc, 3, t, k, PHYS_MAP_OFFSET + b, b / 0x1000, KERNEL_ONLY);
    if r.OutOfFrames? {
      SubsetSize(alloc.free, old(alloc.free));
      return false;
    }
    AddPage(old(store.tables), store.tables, t, done, k, b, old(alloc.free) - alloc.free);
    ok := true;
  }

  /** `PageRange::next`: the first page of a range, and what is left of it. */
  lemma NextPage(r: PageRange, k: nat, lo: nat, hi: nat)
    requires 1 <= k <= 3 && lo <= hi && Exactly(r, k, lo, hi) && r.count > 0
    ensures r.base == lo && lo % Span(k) == 0 && lo + Span(k) <= hi
    ensures Exactly(PageRange(r.base + Span(k), r.count - 1), k, lo + Span(k), hi)
  {
    Distribute(1, r.count - 1, Span(k));
    if k == 1 { } else if k == 2 { } else { }
  }

  /** Map the pages of one range. */
  method MapRange(store: TableStore, alloc: PageFrameAllocator, t: nat, k: nat, range: PageRange,
                  ghost lo: nat, ghost hi: nat, ghost done: iset<nat>) returns (ok: bool)
    requires 1 <= k <= 3 && 0 < lo <= hi <= LIMIT && Exactly(range, k, lo, hi)
    requires alloc.Valid() && MapsExactly(store.tables, t, done)
    requires Reach(store.tables, 3, t) !! alloc.free && done !! Bytes(lo, hi)
    modifies store, alloc
    ensures alloc.Valid()
    ensures ok ==> MapsExactly(store.tables, t, done + Bytes(lo, hi))
    ensures ok ==> Reach(store.tables, 3, t) !! alloc.free
    ensures !ok ==> |alloc.free| < 2
  {
    hide MapsExactly, Reach, Span, Exactly, PageFrameAllocator.Valid;
    ghost var at := lo;
    var left := range;
    assert done + Bytes(lo, lo) == done;
    while left.count > 0
      invariant alloc.Valid() && lo <= at <= hi && Exactly(left, k, at, hi)
      invariant MapsExactly(store.tables, t, done + Bytes(lo, at))
      invariant Reach(store.tables, 3, t) !! alloc.free
      decreases left.count
    {
      NextPage(left, k, at, hi);
      ok := MapPage(store, alloc, t, k, left.base, done + Bytes(lo, at));
      if !ok {
        return;
      }
      assert done + Bytes(lo, at) + Bytes(at, at + Span(k)) == done + Bytes(lo, at + Span(k));
      left := PageRange(left.base + Span(k), left.count - 1);
      at := at + Span(k);
    }
    NoPages(left, k, at, hi);
    ok := true;
  }

  lemma NoPages(r: PageRange, k: nat, lo: nat, hi: nat)
    requires 1 <= k <= 3 && lo <= hi && Exactly(r, k, lo, hi) && r.count == 0
    ensures lo == hi
  {
  }

  /** The part of a region that is mapped: the zero page is left out. */
  function From(r: Region): (lo: nat) {
    Max(r.start * 0x1000, 0x1000)
  }

  function To(r: Region): (hi: nat) {
    (r.start + r.count) * 0x1000
  }

  /** What the code asserts of a region, with the factor written in decimal. */
  predicate PassesAssertion(r: Region) {
    r.start * 0x1000 + r.count * 1000 <= END_PHYS_MAP_OFFSET - PHYS_MAP_OFFSET
  }

  /** Regions are in order, apart from each other and below 512 GiB; none is empty at address 0. */
  ghost predicate Mappable(regions: seq<Region>) {
    && (forall i :: 0 <= i < |regions| ==> regions[i].start + regions[i].count > 0 && To(regions[i]) <= LIMIT)
    && forall i, j :: 0 <= i < j < |regions| ==> regions[i].start + regions[i].count <= regions[j].start
  }

  ghost function Mapped(regions: seq<Region>): (s: iset<nat>) {
    iset a: nat | InMemory(regions, a)
  }

  lemma RegionBytes(regions: seq<Region>, i: nat)
    requires Mappable(regions) && i < |regions|
    ensures 0x1000 <= From(regions[i]) <= To(regions[i]) <= LIMIT
    ensures Mapped(regions[..i + 1]) == Mapped(regions[..i]) + Bytes(From(regions[i]), To(regions[i]))
    ensures Mapped(regions[..i]) !! Bytes(From(regions[i]), To(regions[i]))
  {
    var r := regions[i];
    forall a: nat
      ensures InMemory(regions[..i + 1], a) <==> InMemory(regions[..i], a) || Between(From(r), To(r), a)
      ensures InMemory(regions[..i], a) ==> a < r.start * 0x1000
    {
      assert Between(From(r), To(r), a) <==> a >= 0x1000 && Within(r.start, r.count, a / 0x1000);
      assert regions[..i + 1][i] == r;
      if InMemory(regions[..i], a) {
        var j :| 0 <= j < |regions[..i]| && Within(regions[..i][j].start, regions[..i][j].count, a / 0x1000);
        assert regions[..i + 1][j] == regions[..i][j] == regions[j];
        assert a / 0x1000 < r.start;
      }
      if InMemory(regions[..i + 1], a) {
        var j :| 0 <= j < |regions[..i + 1]| && Within(regions[..i + 1][j].start, regions[..i + 1][j].count, a / 0x1000);
        if j < i { assert regions[..i][j] == regions[..i + 1][j]; }
      }
    }
  }

  /** Map one region: 4 KiB pages first, then 2 MiB pages, then 1 GiB pages. */
  method MapRegion(store: TableStore, alloc: PageFrameAllocator, t: nat, r: Region, ghost done: iset<nat>)
    returns (ok: bool)
    requires 0x1000 <= From(r) <= To(r) <= LIMIT && done !! Bytes(From(r), To(r))
    requires alloc.Valid() && MapsExactly(store.tables, t, done) && Reach(store.tables, 3, t) !! alloc.free
    modifies store, alloc
    ensures alloc.Valid()
    ensures ok ==> MapsExactly(store.tables, t, done + Bytes(From(r), To(r)))
    ensures ok ==> Reach(store.tables, 3, t) !! alloc.free
    ensures !ok ==> |alloc.free| < 2
  {
    hide MapsExactly, Reach, Exactly, HoldsBlocks, PageFrameAllocator.Valid;
    assert PassesAssertion(r);
    var pages := GetChunkedPageRange(From(r), To(r));
    ghost var a: nat, b: nat, c: nat, d: nat :| EndToEnd(pages, From(r), To(r), a, b, c, d);
    ok := MapRange(store, alloc, t, 1, pages.s4kb, From(r), a, done);
    if !ok { return; }
    ghost var s1 := done + Bytes(From(r), a);
    ok := MapRange(store, alloc, t, 1, pages.e4kb, d, To(r), s1);
    if !ok { return; }
    ghost var s2 := s1 + Bytes(d, To(r));
    ok := MapRange(store, alloc, t, 2, pages.s2mb, a, b, s2);
    if !ok { return; }
    ghost var s3 := s2 + Bytes(a, b);
    ok := MapRange(store, alloc, t, 2, pages.e2mb, c, d, s3);
    if !ok { return; }
    ghost var s4 := s3 + Bytes(c, d);
    ok := MapRange(store, alloc, t, 3, pages.gb, b, c, s4);
    if !ok { return; }
    assert s4 + Bytes(b, c) == done + Bytes(From(r), To(r));
  }

  /** `create_offset_map` on an empty table: afterwards the hardware walk of the offset address of a
      byte yields that byte when it is memory outside the zero page, and nothing otherwise. */
  method CreateOffsetMap(store: TableStore, alloc: PageFrameAllocator, t: nat, regions: seq<Region>)
    returns (ok: bool)
    requires Mappable(regions)
    requires alloc.Valid() && MapsExactly(store.tables, t, iset{}) && Reach(store.tables, 3, t) !! alloc.free
    modifies store, alloc
    ensures alloc.Valid()
    ensures ok ==> MapsExactly(store.tables, t, Mapped(regions)) && Reach(store.tables, 3, t) !! alloc.free
    ensures !ok ==> |alloc.free| < 2
  {
    hide MapsExactly, Reach, From, To, PageFrameAllocator.Valid;
    assert Mapped(regions[..0]) == iset{};
    for i := 0 to |regions|
      invariant alloc.Valid() && MapsExactly(store.tables, t, Mapped(regions[..i]))
      invariant Reach(store.tables, 3, t) !! alloc.free
    {
      RegionBytes(regions, i);
      ok := MapRegion(store, alloc, t, regions[i], Mapped(regions[..i]));
      if !ok { return; }
    }
    assert regions[..|regions|] == regions;
    ok := true;
  }
}
