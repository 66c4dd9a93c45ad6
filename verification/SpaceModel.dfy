/**
 An address space as a value: the list of ranges, the shared mappings it shows, and
 the page table that caches them (kernel/src/paging/page_mapper.rs).

 A shared mapping (`Arc<PageMapping>`) is named by a number; sharing it is using the
 same number.
 */
module SpaceModel {
  import opened Prelude
  import opened Addresses
  import opened PageTables
  import opened TableOps
  import opened RangeList

  datatype PageMapping =
    | Mmap(size: nat, base: nat)
    | Lazy(size: nat, pages: seq<Option<nat>>)

  /** Sizes are whole pages; device memory is mapped from a page address below 128 TiB that is not
      zero; a lazy mapping has a slot for each page. */
  predicate MappingOk(p: PageMapping) {
    && p.size > 0 && p.size % PAGE == 0
    && match p
       case Mmap(size, base) => base > 0 && base % PAGE == 0 && base + size <= 0x8000_0000_0000
       case Lazy(size, pages) => |pages| * PAGE == size
  }

  /** The frame that a mapping prescribes for its page `i`, if it has one yet. */
  function FrameAt(p: PageMapping, i: nat): (r: Option<nat>)
    requires MappingOk(p) && i * PAGE < p.size
  {
    match p
    case Mmap(_, base) => Some(base / PAGE + i)
    case Lazy(_, pages) => pages[i]
  }

  /** The whole range is canonical. */
  predicate GoodRange(start: nat, end: nat) {
    end <= 0x8000_0000_0000 || (0xffff_8000_0000_0000 <= start && end <= 0x1_0000_0000_0000_0000)
  }

  /** A canonical page address. */
  predicate PageAddress(v: nat) {
    v % PAGE == 0 && Canonical(v)
  }

  /** Number of the page of a range that holds `v`. */
  function PageOf(e: Listed, v: nat): (i: nat)
    requires e.start <= v
  {
    (v - e.start) / PAGE
  }

  ghost predicate ListedOk(maps: map<nat, PageMapping>, e: Listed) {
    && RangeOk(e) && GoodRange(e.start, e.end)
    && e.id in maps && MappingOk(maps[e.id]) && e.end - e.start == maps[e.id].size
  }

  ghost predicate ListOk(maps: map<nat, PageMapping>, list: seq<Listed>) {
    Sorted(list) && forall e :: e in list ==> ListedOk(maps, e)
  }

  /** What all address spaces share: memory holding tables, free frames, and the mappings. */
  datatype Machine = Machine(m: Memory, free: set<nat>, maps: map<nat, PageMapping>)

  datatype Space = Space(root: nat, list: seq<Listed>)

  /** The frame that range `e` prescribes for the page at `v`. */
  ghost function Prescribed(maps: map<nat, PageMapping>, e: Listed, v: nat): (r: Option<nat>)
    requires ListedOk(maps, e) && Contains(e, v)
  {
    FrameAt(maps[e.id], PageOf(e, v))
  }

  /** The translation of `v` is the one range `e` prescribes. */
  ghost predicate CachedBy(c: Machine, root: nat, e: Listed, v: nat) {
    && ListedOk(c.maps, e) && Contains(e, v)
    && Prescribed(c.maps, e, v).Some?
    && Walk(c.m, 4, root, v) == Hit(1, Prescribed(c.maps, e, v).value, e.flags)
  }

  ghost predicate Explained(c: Machine, s: Space, v: nat) {
    exists e :: e in s.list && CachedBy(c, s.root, e, v)
  }

  /** The page table is a correct partial cache of the list. */
  ghost predicate CacheOk(c: Machine, s: Space) {
    forall v: nat :: PageAddress(v) && Walk(c.m, 4, s.root, v).Hit? ==> Explained(c, s, v)
  }

  ghost predicate SpaceOk(c: Machine, s: Space) {
    && Tree(c.m, 4, s.root) && Reach(c.m, 4, s.root) !! c.free
    && ListOk(c.maps, s.list) && CacheOk(c, s)
  }

  // ---------------------------------------------------------------------------
  // Changing the page table one page at a time
  // ---------------------------------------------------------------------------

  /** For page addresses, selecting the same entries is being the same page. */
  lemma SamePageAddress(v: nat, x: nat)
    requires PageAddress(v) && PageAddress(x)
    ensures SamePage(1, 4, v, x) <==> v == x
  {
    SamePageIsSameNumber(1, 4, v, x);
  }

  /** A 4 KiB page is translated exactly when the walk of its address hits. */
  lemma TranslatedPage(m: Memory, root: nat, v: nat)
    ensures Translated(m, 4, root, 1, v) <==> Walk(m, 4, root, v).Hit?
  {
    if x: nat :| SamePage(1, 4, v, x) && Walk(m, 4, root, x).Hit? {
      WalkSelects(m, 4, root, v, x);
    }
    assert SamePage(1, 4, v, v);
  }

  /** Tables may change only within the tree of `root` and frames that are free; together these are
      conserved, except for the frames `spent`. */
  ghost predicate TableStep(m: Memory, free: set<nat>, m': Memory, free': set<nat>, root: nat, spent: set<nat>) {
    && Tree(m', 4, root)
    && Reach(m', 4, root) !! free' && spent !! free' && spent !! Reach(m', 4, root)
    && Reach(m', 4, root) + free' + spent == Reach(m, 4, root) + free
    && AgreeOutside(m, m', Reach(m, 4, root) + free)
  }

  lemma StepTrans(m: Memory, free: set<nat>, m1: Memory, free1: set<nat>, m2: Memory, free2: set<nat>, root: nat, spent: set<nat>)
    requires TableStep(m, free, m1, free1, root, spent) && TableStep(m1, free1, m2, free2, root, {})
    requires spent !! Reach(m2, 4, root) + free2
    ensures TableStep(m, free, m2, free2, root, spent)
  {
    hide Tree, Reach;
  }

  /** Only the page at `v` is translated differently, and it now as `leaf`. */
  ghost predicate Sets(m: Memory, m': Memory, root: nat, v: nat, leaf: Leaf) {
    forall x: nat :: PageAddress(x) ==> Walk(m', 4, root, x) == if x == v then leaf else Walk(m, 4, root, x)
  }

  lemma MapsOnePage(m: Memory, free: set<nat>, m': Memory, free': set<nat>, root: nat, v: nat, frame: nat, flags: Flags)
    requires PageAddress(v) && free' <= free && Reach(m, 4, root) !! free
    requires Maps(m, m', 4, root, 1, v, frame, flags, free - free')
    ensures TableStep(m, free, m', free', root, {})
    ensures Sets(m, m', root, v, Hit(1, frame, flags))
  {
    hide Tree, Reach, Walk, SamePage;
    forall x: nat | PageAddress(x)
      ensures Walk(m', 4, root, x) == if x == v then Hit(1, frame, flags) else Walk(m, 4, root, x)
    {
      SamePageAddress(v, x);
    }
  }

  lemma UnmapsOnePage(m: Memory, free: set<nat>, m': Memory, free': set<nat>, root: nat, v: nat)
    requires PageAddress(v) && free <= free' && Reach(m, 4, root) !! free
    requires Unmaps(m, m', 4, root, 1, v, free' - free)
    ensures TableStep(m, free, m', free', root, {})
    ensures Sets(m, m', root, v, Miss)
  {
    hide Tree, Reach, Walk, SamePage;
    forall x: nat | PageAddress(x)
      ensures Walk(m', 4, root, x) == if x == v then Miss else Walk(m, 4, root, x)
    {
      SamePageAddress(v, x);
    }
  }

  // ---------------------------------------------------------------------------
  // Changing it for the pages of a range
  // ---------------------------------------------------------------------------

  /** `v` is one of the first `n` pages of range `e`. */
  predicate InFirst(e: Listed, n: nat, v: nat) {
    e.start <= v < e.start + n * PAGE
  }

  /** The first `n` pages of range `e` have been entered as mapping `p` prescribes; a page it has no
      frame for is left alone, and so is every other page. */
  ghost predicate Shows(m: Memory, m': Memory, root: nat, e: Listed, p: PageMapping, n: nat)
    requires MappingOk(p) && n * PAGE <= p.size
  {
    forall x: nat :: PageAddress(x) ==>
      Walk(m', 4, root, x) ==
      if InFirst(e, n, x) && FrameAt(p, PageOf(e, x)).Some?
      then Hit(1, FrameAt(p, PageOf(e, x)).value, e.flags) else Walk(m, 4, root, x)
  }

  /** The first `n` pages of range `e` are no longer translated; every other page is left alone. */
  ghost predicate Clears(m: Memory, m': Memory, root: nat, e: Listed, n: nat) {
    forall x: nat :: PageAddress(x) ==>
      Walk(m', 4, root, x) == if InFirst(e, n, x) then Miss else Walk(m, 4, root, x)
  }

  /** The pages of a range: page `i` is at a page address, and is the only one with number `i`. */
  lemma PageOfRange(e: Listed, size: nat, i: nat, x: nat)
    requires RangeOk(e) && GoodRange(e.start, e.end) && e.end - e.start == size && (i + 1) * PAGE <= size
    ensures PageAddress(e.start + i * PAGE) && Contains(e, e.start + i * PAGE)
    ensures PageOf(e, e.start + i * PAGE) == i
    ensures x % PAGE == 0 ==> (InFirst(e, i + 1, x) <==> InFirst(e, i, x) || x == e.start + i * PAGE)
  {
  }

  lemma ShowsPage(m: Memory, m1: Memory, m2: Memory, root: nat, e: Listed, p: PageMapping, i: nat)
    requires MappingOk(p) && (i + 1) * PAGE <= p.size && Shows(m, m1, root, e, p, i)
    requires RangeOk(e) && GoodRange(e.start, e.end) && e.end - e.start == p.size
    requires FrameAt(p, i).Some? ==> Sets(m1, m2, root, e.start + i * PAGE, Hit(1, FrameAt(p, i).value, e.flags))
    requires FrameAt(p, i).None? ==> m2 == m1
    ensures Shows(m, m2, root, e, p, i + 1)
  {
    hide Walk;
    forall x: nat | PageAddress(x)
      ensures Walk(m2, 4, root, x) ==
        if InFirst(e, i + 1, x) && FrameAt(p, PageOf(e, x)).Some?
        then Hit(1, FrameAt(p, PageOf(e, x)).value, e.flags) else Walk(m, 4, root, x)
    {
      PageOfRange(e, p.size, i, x);
    }
  }

  lemma ClearsPage(m: Memory, m1: Memory, m2: Memory, root: nat, e: Listed, i: nat)
    requires RangeOk(e) && GoodRange(e.start, e.end) && (i + 1) * PAGE <= e.end - e.start
    requires Clears(m, m1, root, e, i) && Sets(m1, m2, root, e.start + i * PAGE, Miss)
    ensures Clears(m, m2, root, e, i + 1)
  {
    hide Walk;
    forall x: nat | PageAddress(x)
      ensures Walk(m2, 4, root, x) == if InFirst(e, i + 1, x) then Miss else Walk(m, 4, root, x)
    {
      PageOfRange(e, e.end - e.start, i, x);
    }
  }

  // ---------------------------------------------------------------------------
  // The cache stays correct
  // ---------------------------------------------------------------------------

  /** A range put in order into the list shares no address with the others. */
  lemma NewRangeApart(list: seq<Listed>, i: nat, e: Listed, e': Listed, x: nat)
    requires i <= |list| && Sorted(InsertAt(list, i, e)) && e' in list && Contains(e, x)
    ensures !Contains(e', x)
  {
    var j :| 0 <= j < |list| && list[j] == e';
    var r := InsertAt(list, i, e);
    assert r[i] == e && r[if j < i then j else j + 1] == e';
  }

  /** Pages of the new range are not translated yet. */
  lemma NewRangeUnmapped(c: Machine, s: Space, i: nat, e: Listed, x: nat)
    requires CacheOk(c, s) && i <= |s.list| && Sorted(InsertAt(s.list, i, e))
    requires PageAddress(x) && Contains(e, x)
    ensures Walk(c.m, 4, s.root, x) == Miss
  {
    if Walk(c.m, 4, s.root, x).Hit? {
      assert Explained(c, s, x);
      var e' :| e' in s.list && CachedBy(c, s.root, e', x);
      NewRangeApart(s.list, i, e, e', x);
    }
  }

  /** Listing a range, with its pages entered or not, keeps the cache correct. */
  lemma CacheAfterInsert(c: Machine, c': Machine, s: Space, i: nat, e: Listed)
    requires CacheOk(c, s) && c'.maps == c.maps && ListedOk(c.maps, e)
    requires i <= |s.list| && Sorted(InsertAt(s.list, i, e))
    requires Shows(c.m, c'.m, s.root, e, c.maps[e.id], 0)
             || Shows(c.m, c'.m, s.root, e, c.maps[e.id], c.maps[e.id].size / PAGE)
    ensures CacheOk(c', Space(s.root, InsertAt(s.list, i, e)))
  {
    hide Walk;
    var s' := Space(s.root, InsertAt(s.list, i, e));
    InsertAtMembers(s.list, i, e);
    forall v: nat | PageAddress(v) && Walk(c'.m, 4, s.root, v).Hit?
      ensures Explained(c', s', v)
    {
      if Walk(c.m, 4, s.root, v).Hit? {
        assert Explained(c, s, v);
        var e' :| e' in s.list && CachedBy(c, s.root, e', v);
        if Contains(e, v) { NewRangeApart(s.list, i, e, e', v); }
        assert e' in s'.list && CachedBy(c', s.root, e', v);
      } else {
        assert e in s'.list && CachedBy(c', s.root, e, v);
      }
    }
  }

  /** Dropping a range together with its translations keeps the cache correct. */
  lemma CacheAfterRemove(c: Machine, c': Machine, s: Space, i: nat)
    requires CacheOk(c, s) && c'.maps == c.maps && ListOk(c.maps, s.list) && i < |s.list|
    requires var e := s.list[i]; Clears(c.m, c'.m, s.root, e, (e.end - e.start) / PAGE)
    ensures CacheOk(c', Space(s.root, RemoveAt(s.list, i)))
  {
    hide Walk;
    var e := s.list[i];
    var s' := Space(s.root, RemoveAt(s.list, i));
    RemoveAtMembers(s.list, i);
    forall v: nat | PageAddress(v) && Walk(c'.m, 4, s.root, v).Hit?
      ensures Explained(c', s', v)
    {
      assert Explained(c, s, v);
      var e' :| e' in s.list && CachedBy(c, s.root, e', v);
      assert e' != e;
      assert e' in s'.list && CachedBy(c', s.root, e', v);
    }
  }

  /** Filling an empty slot of a lazy mapping. */
  function Fill(p: PageMapping, i: nat, frame: nat): (r: PageMapping)
    requires p.Lazy? && i < |p.pages|
  {
    Lazy(p.size, p.pages[i := Some(frame)])
  }

  /** The mappings after a fault on page `i` of mapping `id`: an empty slot got a frame, or nothing changed. */
  ghost predicate FilledFor(maps: map<nat, PageMapping>, maps': map<nat, PageMapping>, id: nat, i: nat, spent: set<nat>)
  {
    || (maps' == maps && spent == {})
    || (&& id in maps && maps[id].Lazy? && i < |maps[id].pages| && maps[id].pages[i] == None
        && exists f: nat :: spent == {f} && maps' == maps[id := Fill(maps[id], i, f)])
  }

  /** A fault enters one page as its range prescribes, and keeps the cache correct. */
  lemma CacheAfterFault(c: Machine, c': Machine, s: Space, e: Listed, v: nat, spent: set<nat>)
    requires CacheOk(c, s) && ListOk(c.maps, s.list) && e in s.list && Contains(e, v) && PageAddress(v)
    requires FilledFor(c.maps, c'.maps, e.id, PageOf(e, v), spent)
    requires ListedOk(c'.maps, e) && Prescribed(c'.maps, e, v).Some?
    requires var leaf := Hit(1, Prescribed(c'.maps, e, v).value, e.flags);
             Sets(c.m, c'.m, s.root, v, leaf) || (Walk(c.m, 4, s.root, v) == leaf && c'.m == c.m)
    ensures ListOk(c'.maps, s.list) && CacheOk(c', s)
  {
    hide Walk, Sorted;
    forall e' | e' in s.list
      ensures ListedOk(c'.maps, e')
    {
      assert ListedOk(c.maps, e');
    }
    forall x: nat | PageAddress(x) && Walk(c'.m, 4, s.root, x).Hit?
      ensures Explained(c', s, x)
    {
      if x == v {
        assert CachedBy(c', s.root, e, v);
      } else {
        assert Explained(c, s, x);
        var e' :| e' in s.list && CachedBy(c, s.root, e', x);
        assert CachedBy(c', s.root, e', x);
      }
    }
  }

  /** The page holding an address in a listed range. */
  lemma PageHolding(e: Listed, a: nat)
    requires RangeOk(e) && GoodRange(e.start, e.end) && Contains(e, a)
    ensures var v := a - a % PAGE;
            PageAddress(v) && Contains(e, v) && PageOf(e, v) == PageOf(e, a) && v > 0
    ensures PageOf(e, a) * PAGE < e.end - e.start
  {
  }

  // ---------------------------------------------------------------------------
  // In bytes
  // ---------------------------------------------------------------------------

  /** Mapping `p` has memory for its byte `x`. */
  predicate HasByte(p: PageMapping, x: nat) {
    match p
    case Mmap(size, _) => x < size
    case Lazy(_, pages) => x / PAGE < |pages| && pages[x / PAGE].Some?
  }

  /** The physical byte that byte `x` of a mapping is: `x` into device memory, or the same place in its frame. */
  function ByteIn(p: PageMapping, x: nat): (b: nat)
    requires HasByte(p, x)
  {
    match p
    case Mmap(_, base) => base + x
    case Lazy(_, pages) => pages[x / PAGE].value * PAGE + x % PAGE
  }

  /** Address `a` of range `e` is translated to the byte of its mapping, with the rights of the range. */
  ghost predicate ShowsByte(c: Machine, root: nat, e: Listed, a: nat) {
    && e.id in c.maps && e.start <= a && HasByte(c.maps[e.id], a - e.start)
    && Translate(c.m, 4, root, a) == Some(ByteIn(c.maps[e.id], a - e.start))
    && Walk(c.m, 4, root, a).flags == e.flags
  }

  /** Every byte of range `e` that has memory is shown. */
  ghost predicate ShowsBytes(c: Machine, root: nat, e: Listed) {
    forall a: nat :: Contains(e, a) && e.id in c.maps && HasByte(c.maps[e.id], a - e.start) ==> ShowsByte(c, root, e, a)
  }

  lemma SameInPage(m: Memory, root: nat, a: nat)
    requires Canonical(a)
    ensures var v: nat := a - a % PAGE; Walk(m, 4, root, a) == Walk(m, 4, root, v) && v % PAGE == 0
  {
    hide Walk, SamePage;
    var v: nat := a - a % PAGE;
    PageNumber(a);
    SamePageIsSameNumber(1, 4, a, v);
    WalkSelects(m, 4, root, a, v);
  }

  lemma PageNumber(a: nat)
    requires Canonical(a)
    ensures var v: nat := a - a % PAGE; v / Span(1) == a / Span(1) && Canonical(v) && v % PAGE == 0
  {
  }

  lemma CanonicalIn(e: Listed, a: nat)
    requires GoodRange(e.start, e.end) && Contains(e, a)
    ensures Canonical(a)
  {
  }

  lemma DeviceByte(base: nat, start: nat, a: nat)
    requires base % PAGE == 0 && start % PAGE == 0 && start <= a
    ensures (base / PAGE + (a - start) / PAGE) * 0x1000 + a % 0x1000 == base + (a - start)
    ensures a % 0x1000 == (a - start) % PAGE
  {
  }

  /** A page entered as its range prescribes shows every byte of it. */
  lemma PageShowsByte(c: Machine, root: nat, e: Listed, a: nat)
    requires ListedOk(c.maps, e) && Contains(e, a) && CachedBy(c, root, e, a - a % PAGE)
    ensures ShowsByte(c, root, e, a)
  {
    hide Walk;
    CanonicalIn(e, a);
    SameInPage(c.m, root, a);
    PageHolding(e, a);
    match c.maps[e.id]
    case Mmap(size, base) => DeviceByte(base, e.start, a);
    case Lazy(_, pages) => DeviceByte(0, e.start, a);
  }

  /** In a correct address space an address is translated only inside a listed range, and then to the byte that
      the mapping of the range has there: for device memory the byte as far from its base as the address is from
      the start of the range. */
  lemma TranslatesBytes(c: Machine, s: Space, a: nat) returns (e: Listed)
    requires SpaceOk(c, s) && Canonical(a) && Walk(c.m, 4, s.root, a).Hit?
    ensures e in s.list && Contains(e, a) && ShowsByte(c, s.root, e, a)
  {
    hide Walk, Tree, Reach;
    var v: nat := a - a % PAGE;
    PageNumber(a);
    SameInPage(c.m, s.root, a);
    assert Explained(c, s, v);
    e :| e in s.list && CachedBy(c, s.root, e, v);
    EndOfPage(e, a);
    PageShowsByte(c, s.root, e, a);
  }

  lemma EndOfPage(e: Listed, a: nat)
    requires RangeOk(e) && Contains(e, a - a % PAGE)
    ensures Contains(e, a)
  {
  }

  /** Entering all pages of a range shows every byte of it that has memory. */
  lemma EnteredShowsBytes(c: Machine, c': Machine, root: nat, e: Listed)
    requires ListedOk(c.maps, e) && c'.maps == c.maps && Shows(c.m, c'.m, root, e, c.maps[e.id], c.maps[e.id].size / PAGE)
    ensures ShowsBytes(c', root, e)
  {
    hide Walk, ShowsByte;
    forall a: nat | Contains(e, a) && HasByte(c.maps[e.id], a - e.start)
      ensures ShowsByte(c', root, e, a)
    {
      PageHolding(e, a);
      assert CachedBy(c', root, e, a - a % PAGE);
      PageShowsByte(c', root, e, a);
    }
  }
}
