/**
 How far the offset map can reach (kernel/src/paging/offset_map.rs, lines 30-83): the assertion
 on the regions admits memory that no level-3 table can show at its offset.
 */
module OffsetReach {
  import opened Addresses
  import opened PageTables
  import opened TableOps
  import opened FrameLists
  import opened MemoryMap
  import opened OffsetMap

  /** Regions as the firmware gives them: in order, apart, none empty, and let through by the assertion. */
  ghost predicate LetThrough(regions: seq<Region>) {
    && (forall i :: 0 <= i < |regions| ==> regions[i].count > 0 && PassesAssertion(regions[i]))
    && forall i, j :: 0 <= i < j < |regions| ==> regions[i].start + regions[i].count <= regions[j].start
  }

  /** The table does what the offset map is for: the offset of every byte of memory walks to that byte,
      and within the window of the table every other offset walks nowhere. */
  ghost predicate ShowsMemory(m: Memory, t: nat, regions: seq<Region>) {
    && Tree(m, 3, t)
    && (forall a: nat :: InMemory(regions, a) ==> WalksTo(m, t, a))
    && forall a: nat :: a < LIMIT && !InMemory(regions, a) ==> WalksNowhere(m, t, a)
  }

  // ---------------------------------------------------------------------------
  // Past the window the table repeats itself
  // ---------------------------------------------------------------------------

  /** 512 GiB is a multiple of 512 pages of every size. */
  lemma SameEntry(x: nat, j: nat)
    requires 1 <= j <= 3
    ensures Index(j, x + LIMIT) == Index(j, x) && (x + LIMIT) % Span(j) == x % Span(j)
  {
    var q := if j == 1 then 0x4_0000 else if j == 2 then 0x200 else 1;
    Wraps(j, q, x);
    assert 512 * q * Span(j) == LIMIT;
  }

  lemma Wraps(j: nat, q: nat, x: nat)
    requires 1 <= j <= 3
    ensures Index(j, x + 512 * q * Span(j)) == Index(j, x) && (x + 512 * q * Span(j)) % Span(j) == x % Span(j)
  {
    ShiftDiv(j, 512 * q, x);
    AddRounds(q, x / Span(j));
  }

  lemma AddRounds(q: nat, d: nat)
    ensures (512 * q + d) % 512 == d % 512
  {
  }

  lemma SameEntries(x: nat, y: nat)
    requires y == x + LIMIT
    ensures SamePage(1, 3, y, x)
    ensures forall j :: 1 <= j <= 3 ==> y % Span(j) == x % Span(j)
  {
    hide Index, Span;
    forall j | 1 <= j <= 3
      ensures Index(j, y) == Index(j, x) && y % Span(j) == x % Span(j)
    {
      SameEntry(x, j);
    }
  }

  /** The offset of a byte 512 GiB further on shows the same memory. */
  lemma Repeats(m: Memory, t: nat, a: nat)
    ensures Walk(m, 3, t, PHYS_MAP_OFFSET + a + LIMIT) == Walk(m, 3, t, PHYS_MAP_OFFSET + a)
    ensures Translate(m, 3, t, PHYS_MAP_OFFSET + a + LIMIT) == Translate(m, 3, t, PHYS_MAP_OFFSET + a)
  {
    hide Walk, Index, Span, SamePage;
    var x, y := PHYS_MAP_OFFSET + a, PHYS_MAP_OFFSET + a + LIMIT;
    SameEntries(x, y);
    WalkSelects(m, 3, t, y, x);
    if Walk(m, 3, t, x).Hit? {
      WalkLevel(m, 3, t, x);
    }
  }

  lemma {:induction false} RepeatsOften(m: Memory, t: nat, a: nat, n: nat)
    ensures Walk(m, 3, t, PHYS_MAP_OFFSET + a + n * LIMIT) == Walk(m, 3, t, PHYS_MAP_OFFSET + a)
    ensures Translate(m, 3, t, PHYS_MAP_OFFSET + a + n * LIMIT) == Translate(m, 3, t, PHYS_MAP_OFFSET + a)
  {
    hide Walk, Translate;
    if n > 0 {
      RepeatsOften(m, t, a, n - 1);
      Repeats(m, t, a + (n - 1) * LIMIT);
      assert PHYS_MAP_OFFSET + (a + (n - 1) * LIMIT) + LIMIT == PHYS_MAP_OFFSET + a + n * LIMIT;
    }
  }

  /** A table that shows all memory shows none past the limit. */
  lemma NonePastLimit(m: Memory, t: nat, regions: seq<Region>, a: nat)
    requires ShowsMemory(m, t, regions) && InMemory(regions, a)
    ensures a < LIMIT
  {
    hide Walk, Translate, Tree, InMemory;
    var low, n := a % LIMIT, a / LIMIT;
    assert a == low + n * LIMIT;
    RepeatsOften(m, t, low, n);
    assert PHYS_MAP_OFFSET + low + n * LIMIT == PHYS_MAP_OFFSET + a;
    assert WalksTo(m, t, a);
    assert InMemory(regions, low) || WalksNowhere(m, t, low);
    assert WalksTo(m, t, low);
  }

  // ---------------------------------------------------------------------------
  // Below the limit a table exists
  // ---------------------------------------------------------------------------

  /** Any page that is not translated can be mapped, given frames that are not in use. */
  lemma {:induction false} CanMap(m: Memory, l: nat, t: nat, k: nat, v: nat, frame: nat, flags: Flags, unused: nat)
    returns (m': Memory, taken: set<nat>)
    requires 1 <= k <= l <= 4 && k <= 3 && Tree(m, l, t) && !Translated(m, l, t, k, v)
    requires unused > 0 && forall f :: f in Reach(m, l, t) ==> f < unused
    ensures Maps(m, m', l, t, k, v, frame, flags, taken)
    ensures forall f :: f in taken ==> unused <= f < unused + l
    decreases l
  {
    hide Tree, Reach, Translated, Maps, Walk, Below, EntryOk, Siblings, HasPresent;
    taken := {};
    if l == k {
      TranslatedAtLeaf(m, k, t, v);
      MapLeaf(m, k, t, v, frame, flags);
      m' := m[t := m[t][Index(k, v) := LeafEntry(k, frame, flags)]];
      return;
    }
    var i := Index(l, v);
    var e := m[t][i];
    TranslatedThrough(m, l, t, k, v);
    ReachSplit(m, l, t, i);
    if IsInner(l, e) {
      TreeEntry(m, l, t, i);
      m', taken := CanMap(m, l - 1, e.frame, k, v, frame, flags, unused);
      MapThrough(m, m', l, t, k, v, frame, flags, taken);
    } else {
      var m1: Memory := m[unused := EMPTY][t := m[t][i := InnerEntry(unused)]];
      EmptyTable(m1, l - 1, unused);
      NothingInEmpty(m1, l - 1, unused, k, v);
      m', taken := CanMap(m1, l - 1, unused, k, v, frame, flags, unused + 1);
      MapFresh(m, m', l, t, unused, k, v, frame, flags, taken);
      taken := taken + {unused};
    }
  }

  /** The bytes of memory in the first `n` pages. */
  ghost function FirstPages(regions: seq<Region>, n: nat): (s: iset<nat>) {
    iset a: nat | InMemory(regions, a) && a < n * 0x1000
  }

  /** Memory is whole pages. */
  lemma PageInMemory(regions: seq<Region>, n: nat)
    ensures FirstPages(regions, n + 1) == FirstPages(regions, n) +
      (if InMemory(regions, n * 0x1000) then Bytes(n * 0x1000, n * 0x1000 + 0x1000) else iset{})
  {
    forall a: nat | n * 0x1000 <= a < n * 0x1000 + 0x1000
      ensures InMemory(regions, a) <==> InMemory(regions, n * 0x1000)
    {
      assert a / 0x1000 == n && n * 0x1000 / 0x1000 == n;
    }
  }

  lemma {:induction false} Build(regions: seq<Region>, n: nat) returns (m: Memory, unused: nat)
    requires n * 0x1000 <= LIMIT
    ensures MapsExactly(m, 1, FirstPages(regions, n))
    ensures unused > 0 && forall f :: f in Reach(m, 3, 1) ==> f < unused
  {
    hide Tree, Reach, Walk, WalksTo, Translated, Maps, InMemory;
    if n == 0 {
      m, unused := map[1 := EMPTY], 2;
      EmptyTable(m, 3, 1);
    } else {
      var b := (n - 1) * 0x1000;
      m, unused := Build(regions, n - 1);
      PageInMemory(regions, n - 1);
      if InMemory(regions, b) {
        m, unused := AddOnePage(m, FirstPages(regions, n - 1), b, unused);
      }
    }
  }

  lemma AddOnePage(m: Memory, done: iset<nat>, b: nat, unused: nat) returns (m': Memory, unused': nat)
    requires MapsExactly(m, 1, done) && b % 0x1000 == 0 && b + 0x1000 <= LIMIT && done !! Bytes(b, b + 0x1000)
    requires unused > 0 && forall f :: f in Reach(m, 3, 1) ==> f < unused
    ensures MapsExactly(m', 1, done + Bytes(b, b + 0x1000))
    ensures unused' > 0 && forall f :: f in Reach(m', 3, 1) ==> f < unused'
  {
    hide Tree, Reach, Walk, WalksTo, WalksNowhere, Translated;
    UntranslatedPage(m, 1, done, 1, b);
    var taken;
    m', taken := CanMap(m, 3, 1, 1, PHYS_MAP_OFFSET + b, b / 0x1000, KERNEL_ONLY, unused);
    AddPage(m, m', 1, done, 1, b, taken);
    unused' := unused + 3;
  }

  // ---------------------------------------------------------------------------
  // The exact condition
  // ---------------------------------------------------------------------------

  /** Among the memory maps that the assertion lets through, the offset map can do what it is for exactly
      when all memory lies below 512 GiB. */
  lemma ReachIsExact(regions: seq<Region>)
    requires LetThrough(regions)
    ensures (exists m, t :: ShowsMemory(m, t, regions)) <==> (forall i :: 0 <= i < |regions| ==> To(regions[i]) <= LIMIT)
  {
    hide Walk, Tree, WalksTo, WalksNowhere, Reach;
    if m, t :| ShowsMemory(m, t, regions) {
      forall i | 0 <= i < |regions|
        ensures To(regions[i]) <= LIMIT
      {
        LastByte(regions, i);
        if To(regions[i]) > LIMIT { NonePastLimit(m, t, regions, To(regions[i]) - 1); }
      }
    }
    if forall i :: 0 <= i < |regions| ==> To(regions[i]) <= LIMIT {
      var m, unused := Build(regions, LIMIT / 0x1000);
      forall a: nat | InMemory(regions, a)
        ensures a < LIMIT
      {
        var i :| 0 <= i < |regions| && Within(regions[i].start, regions[i].count, a / 0x1000);
      }
      assert ShowsMemory(m, 1, regions);
    }
  }

  lemma LastByte(regions: seq<Region>, i: nat)
    requires LetThrough(regions) && i < |regions|
    ensures To(regions[i]) > LIMIT ==> InMemory(regions, To(regions[i]) - 1)
  {
  }

  /** The window has to be part of the statement: no table shows any memory at its offset and nothing at
      all other offsets, because the table repeats itself. */
  lemma NoneForAllOffsets(regions: seq<Region>, m: Memory, t: nat, a: nat)
    requires forall x: nat :: if InMemory(regions, x) then WalksTo(m, t, x) else WalksNowhere(m, t, x)
    ensures !InMemory(regions, a)
  {
    hide Walk, Translate, InMemory;
    Repeats(m, t, a);
    assert PHYS_MAP_OFFSET + (a + LIMIT) == PHYS_MAP_OFFSET + a + LIMIT;
    assert WalksTo(m, t, a + LIMIT) || WalksNowhere(m, t, a + LIMIT);
  }

  /** A region at 512 GiB is let through. */
  lemma LetThroughPastLimit()
    ensures var r := Region(0x800_0000, 1); LetThrough([r]) && To(r) > LIMIT
  {
  }
}
