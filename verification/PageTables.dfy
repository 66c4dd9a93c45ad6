/**
 The four-level page tables (kernel/src/paging/page_table.rs): a radix tree of
 512-entry tables, each in a frame of its own, with leaves of 4 KiB, 2 MiB and
 1 GiB. Inner tables are created while mapping and freed while unmapping.

 Tables are kept by frame number. A table of level `l` translates the address
 bits above `12 + 9 * (l - 1)`; page sizes are named by the level of their leaf.
 */
module PageTables {
  import opened Prelude
  import opened Addresses

  datatype Flags = Flags(writable: bool, user: bool)

  /** The bits of a page directory entry that the code reads or writes. */
  datatype Entry = Entry(present: bool, larger: bool, writable: bool, user: bool, frame: nat)

  const ABSENT := Entry(false, false, false, false, 0)

  type Table = t: seq<Entry> | |t| == 512 witness seq(512, _ => ABSENT)

  /** A zeroed frame, read as a table. */
  const EMPTY: Table := seq(512, _ => ABSENT)

  predicate AllAbsent(t: Table) {
    forall i :: 0 <= i < 512 ==> t[i] == ABSENT
  }

  /** Physical memory, as far as it holds tables. */
  type Memory = map<nat, Table>

  predicate HasPresent(t: Table) {
    exists i :: 0 <= i < 512 && t[i].present
  }

  predicate IsInner(l: nat, e: Entry) {
    l > 1 && e.present && !e.larger
  }

  // ---------------------------------------------------------------------------
  // The hardware walk
  // ---------------------------------------------------------------------------

  /** What the walk of an address finds: nothing, or a leaf of some level. */
  datatype Leaf = Miss | Hit(level: nat, frame: nat, flags: Flags)

  /** Rights are the conjunction over the levels walked. */
  function Restrict(h: Leaf, e: Entry): (r: Leaf) {
    match h
    case Miss => Miss
    case Hit(l, f, flags) => Hit(l, f, Flags(flags.writable && e.writable, flags.user && e.user))
  }

  /** The walk from a table of level `l`. */
  ghost function Walk(m: Memory, l: nat, t: nat, x: nat): (r: Leaf)
    requires 1 <= l <= 4
    decreases l, 1
  {
    if t in m then WalkEntry(m, l, m[t][Index(l, x)], x) else Miss
  }

  /** The walk from an entry of such a table. */
  ghost function WalkEntry(m: Memory, l: nat, e: Entry, x: nat): (r: Leaf)
    requires 1 <= l <= 4
    decreases l, 0
  {
    if !e.present then Miss
    else if IsInner(l, e) then Restrict(Walk(m, l - 1, e.frame, x), e)
    else Hit(l, e.frame, Flags(e.writable, e.user))
  }

  /** The physical byte address that a byte address translates to. */
  ghost function Translate(m: Memory, l: nat, t: nat, x: nat): (r: Option<nat>)
    requires 1 <= l <= 4
  {
    match Walk(m, l, t, x)
    case Miss => None
    case Hit(k, f, _) => if 1 <= k <= 4 then Some(f * 0x1000 + x % Span(k)) else None
  }

  // ---------------------------------------------------------------------------
  // The tree of tables
  // ---------------------------------------------------------------------------

  /** Frames of the tables under an entry of a level-`l` table. */
  ghost function Below(m: Memory, l: nat, e: Entry): (s: set<nat>)
    requires 1 <= l <= 4
    decreases l, 0
  {
    if IsInner(l, e) then Reach(m, l - 1, e.frame) else {}
  }

  /** Frames of all tables of the tree rooted at `t`. */
  ghost function Reach(m: Memory, l: nat, t: nat): (s: set<nat>)
    requires 1 <= l <= 4
    decreases l, 1
  {
    {t} + (if t !in m then {} else set i, f | 0 <= i < 512 && f in Below(m, l, m[t][i]) :: f)
  }

  ghost predicate EntryOk(m: Memory, l: nat, e: Entry)
    requires 1 <= l <= 4
    decreases l, 0
  {
    e.present ==>
      if IsInner(l, e)
      then e.writable && e.user && Tree(m, l - 1, e.frame) && HasPresent(m[e.frame])
      else e.larger == (l > 1) && l < 4
  }

  /** The tables under `t` form a tree: no table is reached by two paths, and every table but
      the root has a present entry. */
  ghost predicate Tree(m: Memory, l: nat, t: nat)
    requires 1 <= l <= 4
    ensures Tree(m, l, t) ==> t in m
    decreases l, 1
  {
    && t in m && t > 0
    && (forall i :: 0 <= i < 512 ==> EntryOk(m, l, m[t][i]) && t !in Below(m, l, m[t][i]))
    && (forall i, j :: 0 <= i < j < 512 ==> Below(m, l, m[t][i]) !! Below(m, l, m[t][j]))
  }

  ghost predicate AgreeOn(m: Memory, m': Memory, s: set<nat>) {
    forall f :: f in s && f in m ==> f in m' && m'[f] == m[f]
  }

  /** Memory that agrees on a tree's frames holds the same tree. */
  lemma {:induction false} TreeFrame(m: Memory, m': Memory, l: nat, t: nat)
    requires 1 <= l <= 4 && Tree(m, l, t) && AgreeOn(m, m', Reach(m, l, t))
    ensures Tree(m', l, t) && Reach(m', l, t) == Reach(m, l, t) && m'[t] == m[t]
    ensures forall x: nat :: Walk(m', l, t, x) == Walk(m, l, t, x)
    decreases l
  {
    assert t in Reach(m, l, t);
    forall i | 0 <= i < 512
      ensures Below(m', l, m[t][i]) == Below(m, l, m[t][i]) && EntryOk(m', l, m[t][i])
      ensures forall x: nat :: WalkEntry(m', l, m[t][i], x) == WalkEntry(m, l, m[t][i], x)
    {
      EntryFrame(m, m', l, m[t][i]);
    }
  }

  lemma {:induction false} EntryFrame(m: Memory, m': Memory, l: nat, e: Entry)
    requires 1 <= l <= 4 && EntryOk(m, l, e) && AgreeOn(m, m', Below(m, l, e))
    ensures Below(m', l, e) == Below(m, l, e) && EntryOk(m', l, e)
    ensures forall x: nat :: WalkEntry(m', l, e, x) == WalkEntry(m, l, e, x)
    decreases l, 0
  {
    if IsInner(l, e) {
      TreeFrame(m, m', l - 1, e.frame);
    }
  }

  lemma TreeEntry(m: Memory, l: nat, t: nat, i: nat)
    requires 1 <= l <= 4 && Tree(m, l, t) && i < 512
    ensures EntryOk(m, l, m[t][i]) && t !in Below(m, l, m[t][i])
    ensures var e := m[t][i];
            IsInner(l, e) ==> Below(m, l, e) == Reach(m, l - 1, e.frame)
                              && Tree(m, l - 1, e.frame) && HasPresent(m[e.frame])
  {
  }

  /** Frames of the tables under all entries of `t` but entry `i`. */
  ghost function Siblings(m: Memory, l: nat, t: nat, i: nat): (s: set<nat>)
    requires 1 <= l <= 4 && t in m
  {
    set j, f | 0 <= j < 512 && j != i && f in Below(m, l, m[t][j]) :: f
  }

  lemma ReachSplit(m: Memory, l: nat, t: nat, i: nat)
    requires 1 <= l <= 4 && t in m && i < 512
    ensures Reach(m, l, t) == {t} + Siblings(m, l, t, i) + Below(m, l, m[t][i])
    ensures Tree(m, l, t) ==> t !in Siblings(m, l, t, i) && t !in Below(m, l, m[t][i])
                              && Siblings(m, l, t, i) !! Below(m, l, m[t][i])
  {
  }

  /** `m'` is `m` with entry `i` of table `t` set to `e`, where what hangs under `e` is sound and
      apart from the tables under the other entries, which are untouched. */
  ghost predicate Rewrites(m: Memory, m': Memory, l: nat, t: nat, i: nat, e: Entry)
    requires 1 <= l <= 4 && i < 512
  {
    && Tree(m, l, t)
    && t in m' && m'[t] == m[t][i := e]
    && AgreeOn(m, m', Siblings(m, l, t, i))
    && EntryOk(m', l, e)
    && t !in Below(m', l, e) && Siblings(m, l, t, i) !! Below(m', l, e)
  }

  lemma RewriteSibling(m: Memory, m': Memory, l: nat, t: nat, i: nat, e: Entry, j: nat)
    requires 1 <= l <= 4 && i < 512 && Rewrites(m, m', l, t, i, e) && j < 512 && j != i
    ensures m'[t][j] == m[t][j]
    ensures Below(m', l, m[t][j]) == Below(m, l, m[t][j]) && EntryOk(m', l, m[t][j])
    ensures Below(m, l, m[t][j]) <= Siblings(m, l, t, i)
    ensures forall x: nat :: WalkEntry(m', l, m[t][j], x) == WalkEntry(m, l, m[t][j], x)
  {
    hide Below;
    assert Below(m, l, m[t][j]) <= Siblings(m, l, t, i);
    EntryFrame(m, m', l, m[t][j]);
  }

  lemma RewriteTree(m: Memory, m': Memory, l: nat, t: nat, i: nat, e: Entry)
    requires 1 <= l <= 4 && i < 512 && Rewrites(m, m', l, t, i, e)
    ensures Tree(m', l, t)
  {
    hide Below, EntryOk, Siblings, WalkEntry;
    forall j | 0 <= j < 512
      ensures EntryOk(m', l, m'[t][j]) && t !in Below(m', l, m'[t][j])
    {
      if j != i { RewriteSibling(m, m', l, t, i, e, j); }
    }
    forall j, k | 0 <= j < k < 512
      ensures Below(m', l, m'[t][j]) !! Below(m', l, m'[t][k])
    {
      if j != i { RewriteSibling(m, m', l, t, i, e, j); }
      if k != i { RewriteSibling(m, m', l, t, i, e, k); }
    }
  }

  /** Writing one entry of a tree gives a tree again, and only addresses that select the entry
      see a change. */
  lemma ReplaceEntry(m: Memory, m': Memory, l: nat, t: nat, i: nat, e: Entry)
    requires 1 <= l <= 4 && i < 512 && Rewrites(m, m', l, t, i, e)
    ensures Tree(m', l, t)
    ensures Reach(m', l, t) == {t} + Siblings(m, l, t, i) + Below(m', l, e)
    ensures forall x: nat :: Walk(m', l, t, x) == if Index(l, x) == i then WalkEntry(m', l, e, x) else Walk(m, l, t, x)
  {
    hide Below, EntryOk, WalkEntry, Tree, Reach;
    RewriteTree(m, m', l, t, i, e);
    forall j | 0 <= j < 512 && j != i
      ensures Below(m', l, m'[t][j]) == Below(m, l, m[t][j])
      ensures forall x: nat :: WalkEntry(m', l, m'[t][j], x) == WalkEntry(m, l, m[t][j], x)
    {
      RewriteSibling(m, m', l, t, i, e, j);
    }
    assert Siblings(m', l, t, i) == Siblings(m, l, t, i);
    ReachSplit(m', l, t, i);
  }

  // ---------------------------------------------------------------------------
  // No bare tables: every table below the root leads to a leaf
  // ---------------------------------------------------------------------------

  /** The walk depends only on the entries selected. */
  lemma {:induction false} WalkSelects(m: Memory, l: nat, t: nat, x: nat, y: nat)
    requires 1 <= l <= 4 && SamePage(1, l, x, y)
    ensures Walk(m, l, t, x) == Walk(m, l, t, y)
    decreases l
  {
    if t in m && IsInner(l, m[t][Index(l, x)]) {
      WalkSelects(m, l - 1, m[t][Index(l, x)].frame, x, y);
    }
  }

  /** A byte of the page of `v` that is translated, when the entry for it is present. */
  lemma {:induction false} PresentIsTranslated(m: Memory, l: nat, t: nat, v: nat) returns (x: nat)
    requires 1 <= l <= 4 && Tree(m, l, t) && m[t][Index(l, v)].present
    ensures SamePage(l, 4, v, x) && Walk(m, l, t, x).Hit?
    decreases l
  {
    var e := m[t][Index(l, v)];
    assert EntryOk(m, l, e);
    if IsInner(l, e) {
      var i :| 0 <= i < 512 && m[e.frame][i].present;
      var y0 := i * Span(l - 1);
      assert Index(l - 1, y0) == i by { DivSpan(l - 1, i, 0); }
      var y1 := PresentIsTranslated(m, l - 1, e.frame, y0);
      var y := y1 % Span(l);
      forall j | 1 <= j < l
        ensures Index(j, y) == Index(j, y1)
      {
        LowBits(l, y1, j);
      }
      WalkSelects(m, l - 1, e.frame, y1, y);
      x := ByteOf(l, v, y);
      forall j | 1 <= j <= 4
        ensures Index(j, x) == if j >= l then Index(j, v) else Index(j, y)
      {
        if j >= l { ByteOfUp(l, v, y, j); } else { ByteOfDown(l, v, y, j); }
      }
      WalkSelects(m, l - 1, e.frame, y, x);
    } else {
      x := v;
    }
  }

  // ---------------------------------------------------------------------------
  // What mapping and unmapping a page do to the memory of the tables
  // ---------------------------------------------------------------------------

  /** Memory outside `s` is the same. */
  ghost predicate AgreeOutside(m: Memory, m': Memory, s: set<nat>) {
    forall f :: f !in s ==> (f in m <==> f in m') && (f in m ==> m'[f] == m[f])
  }

  /** From `m` to `m'` the page of `v` has been mapped to `frame` by a leaf of level `k`, the frames
      `taken` have become tables, and nothing else has changed. */
  ghost predicate Maps(m: Memory, m': Memory, l: nat, t: nat, k: nat, v: nat, frame: nat, flags: Flags, taken: set<nat>)
    requires 1 <= k <= l <= 4
  {
    && Tree(m', l, t) && HasPresent(m'[t])
    && Reach(m', l, t) == Reach(m, l, t) + taken
    && AgreeOutside(m, m', Reach(m, l, t) + taken)
    && forall x: nat :: Walk(m', l, t, x) == if SamePage(k, l, v, x) then Hit(k, frame, flags) else Walk(m, l, t, x)
  }

  function InnerEntry(frame: nat): (e: Entry) {
    Entry(true, false, true, true, frame)
  }

  function LeafEntry(k: nat, frame: nat, flags: Flags): (e: Entry) {
    Entry(true, k > 1, flags.writable, flags.user, frame)
  }

  /** `map_inner` on an absent entry. */
  lemma MapLeaf(m: Memory, k: nat, t: nat, v: nat, frame: nat, flags: Flags)
    requires 1 <= k <= 3 && Tree(m, k, t) && !m[t][Index(k, v)].present
    ensures Maps(m, m[t := m[t][Index(k, v) := LeafEntry(k, frame, flags)]], k, t, k, v, frame, flags, {})
  {
    hide Tree, Reach;
    var i, e := Index(k, v), LeafEntry(k, frame, flags);
    var m' := m[t := m[t][i := e]];
    ReachSplit(m, k, t, i);
    ReplaceEntry(m, m', k, t, i, e);
    assert m'[t][i].present;
    assert forall x: nat :: SamePage(k, k, v, x) <==> Index(k, x) == Index(k, v);
  }

  /** One level up, through a table that was there. */
  lemma MapThrough(m: Memory, m': Memory, l: nat, t: nat, k: nat, v: nat, frame: nat, flags: Flags, taken: set<nat>)
    requires 1 <= k < l <= 4 && Tree(m, l, t) && IsInner(l, m[t][Index(l, v)])
    requires Maps(m, m', l - 1, m[t][Index(l, v)].frame, k, v, frame, flags, taken)
    requires taken !! Reach(m, l, t)
    ensures Maps(m, m', l, t, k, v, frame, flags, taken)
  {
    hide Tree, Reach;
    var i := Index(l, v);
    var e := m[t][i];
    TreeEntry(m, l, t, i);
    ReachSplit(m, l, t, i);
    ReplaceEntry(m, m', l, t, i, e);
    assert m'[t][i].present;
    assert forall x: nat :: SamePage(k, l, v, x) <==> SamePage(k, l - 1, v, x) && Index(l, x) == i;
  }

  /** Linking the table `c` taken from the allocator and mapping below it is one write to table `t`. */
  lemma FreshRewrites(m: Memory, m': Memory, l: nat, t: nat, c: nat, k: nat, v: nat, frame: nat, flags: Flags, taken: set<nat>)
    requires 1 <= k < l <= 4 && Tree(m, l, t) && !m[t][Index(l, v)].present
    requires c > 0 && c !in Reach(m, l, t) && c !in taken && taken !! Reach(m, l, t)
    requires var m1: Memory := m[c := EMPTY][t := m[t][Index(l, v) := InnerEntry(c)]];
             Maps(m1, m', l - 1, c, k, v, frame, flags, taken)
    ensures Rewrites(m, m', l, t, Index(l, v), InnerEntry(c))
    ensures Reach(m', l - 1, c) == {c} + taken
  {
    hide Tree, Reach, Walk, Siblings, Index;
    ReachSplit(m, l, t, Index(l, v));
    EmptyTable(m[c := EMPTY][t := m[t][Index(l, v) := InnerEntry(c)]], l - 1, c);
  }

  lemma FreshWalks(m: Memory, m': Memory, l: nat, t: nat, c: nat, k: nat, v: nat, frame: nat, flags: Flags, x: nat)
    requires 1 <= k < l <= 4 && Tree(m, l, t) && !m[t][Index(l, v)].present
    requires Rewrites(m, m', l, t, Index(l, v), InnerEntry(c))
    requires Walk(m', l - 1, c, x) == if SamePage(k, l - 1, v, x) then Hit(k, frame, flags) else Miss
    ensures Walk(m', l, t, x) == if SamePage(k, l, v, x) then Hit(k, frame, flags) else Walk(m, l, t, x)
  {
    hide Tree, Reach, Walk, Rewrites, Index;
    ReplaceEntry(m, m', l, t, Index(l, v), InnerEntry(c));
    if Index(l, x) == Index(l, v) { AbsentIsMissed(m, l, t, x); }
  }

  /** One level up, through a table taken from the allocator and linked before descending. */
  lemma MapFresh(m: Memory, m': Memory, l: nat, t: nat, c: nat, k: nat, v: nat, frame: nat, flags: Flags, taken: set<nat>)
    requires 1 <= k < l <= 4 && Tree(m, l, t) && !m[t][Index(l, v)].present
    requires c > 0 && c !in Reach(m, l, t) && c !in taken && taken !! Reach(m, l, t)
    requires var m1: Memory := m[c := EMPTY][t := m[t][Index(l, v) := InnerEntry(c)]];
             Maps(m1, m', l - 1, c, k, v, frame, flags, taken)
    ensures Maps(m, m', l, t, k, v, frame, flags, taken + {c})
  {
    hide Tree, Reach, Walk, Siblings, SamePage, Index;
    var i := Index(l, v);
    ReachSplit(m, l, t, i);
    FreshRewrites(m, m', l, t, c, k, v, frame, flags, taken);
    ReplaceEntry(m, m', l, t, i, InnerEntry(c));
    assert m'[t][i].present;
    EmptyTable(m[c := EMPTY][t := m[t][i := InnerEntry(c)]], l - 1, c);
    forall x: nat
      ensures Walk(m', l, t, x) == if SamePage(k, l, v, x) then Hit(k, frame, flags) else Walk(m, l, t, x)
    {
      FreshWalks(m, m', l, t, c, k, v, frame, flags, x);
    }
  }

  lemma AbsentIsMissed(m: Memory, l: nat, t: nat, x: nat)
    requires 1 <= l <= 4 && t in m && !m[t][Index(l, x)].present
    ensures Walk(m, l, t, x) == Miss
  {
  }

  lemma EmptyTable(m: Memory, l: nat, t: nat)
    requires 1 <= l <= 4 && t > 0 && t in m && m[t] == EMPTY
    ensures Tree(m, l, t) && Reach(m, l, t) == {t}
    ensures forall x: nat :: Walk(m, l, t, x) == Miss
  {
  }

  /** From `m` to `m'` the page of `v` has been unmapped, the tables `freed` are no longer part of
      the tree, and nothing else has changed. */
  ghost predicate Unmaps(m: Memory, m': Memory, l: nat, t: nat, k: nat, v: nat, freed: set<nat>)
    requires 1 <= k <= l <= 4
  {
    && Tree(m', l, t)
    && freed <= Reach(m, l, t) && t !in freed
    && Reach(m', l, t) == Reach(m, l, t) - freed
    && AgreeOutside(m, m', Reach(m, l, t))
    && forall x: nat :: Walk(m', l, t, x) == if SamePage(k, l, v, x) then Miss else Walk(m, l, t, x)
  }

  function Cleared(e: Entry): (r: Entry) {
    e.(present := false, frame := 0)
  }

  /** `unmap_inner` on a leaf. */
  lemma UnmapLeaf(m: Memory, k: nat, t: nat, v: nat)
    requires 1 <= k <= 3 && Tree(m, k, t) && !IsInner(k, m[t][Index(k, v)])
    ensures Unmaps(m, m[t := m[t][Index(k, v) := Cleared(m[t][Index(k, v)])]], k, t, k, v, {})
  {
    hide Tree, Reach;
    var i := Index(k, v);
    var e := Cleared(m[t][i]);
    var m' := m[t := m[t][i := e]];
    ReachSplit(m, k, t, i);
    ReplaceEntry(m, m', k, t, i, e);
    assert forall x: nat :: SamePage(k, k, v, x) <==> Index(k, x) == Index(k, v);
  }

  /** One level up, when the table below still has a present entry. */
  lemma UnmapThrough(m: Memory, m': Memory, l: nat, t: nat, k: nat, v: nat, freed: set<nat>)
    requires 1 <= k < l <= 4 && Tree(m, l, t) && IsInner(l, m[t][Index(l, v)])
    requires var c := m[t][Index(l, v)].frame;
             Unmaps(m, m', l - 1, c, k, v, freed) && HasPresent(m'[c])
    ensures Unmaps(m, m', l, t, k, v, freed)
  {
    hide Tree, Reach;
    var i := Index(l, v);
    TreeEntry(m, l, t, i);
    ReachSplit(m, l, t, i);
    ReplaceEntry(m, m', l, t, i, m[t][i]);
    assert forall x: nat :: SamePage(k, l, v, x) <==> SamePage(k, l - 1, v, x) && Index(l, x) == i;
  }

  /** A table without a present entry has nothing under it and translates nothing. */
  lemma BareTable(m: Memory, l: nat, t: nat)
    requires 1 <= l <= 4 && t in m && !HasPresent(m[t])
    ensures Reach(m, l, t) == {t}
    ensures forall x: nat :: Walk(m, l, t, x) == Miss
  {
  }

  /** One level up, when the table below is left without a present entry and is dropped. */
  lemma UnmapPrune(m: Memory, m1: Memory, l: nat, t: nat, k: nat, v: nat, freed: set<nat>)
    requires 1 <= k < l <= 4 && Tree(m, l, t) && IsInner(l, m[t][Index(l, v)])
    requires var c := m[t][Index(l, v)].frame;
             Unmaps(m, m1, l - 1, c, k, v, freed) && !HasPresent(m1[c])
    ensures t in m1 && m1[t] == m[t]
    ensures var c := m[t][Index(l, v)].frame;
            var m': Memory := m1[t := m1[t][Index(l, v) := Cleared(m1[t][Index(l, v)])]] - {c};
            Unmaps(m, m', l, t, k, v, freed + {c})
  {
    hide Tree, Reach;
    var i := Index(l, v);
    var c := m[t][i].frame;
    TreeEntry(m, l, t, i);
    ReachSplit(m, l, t, i);
    BareTable(m1, l - 1, c);
    var e := Cleared(m[t][i]);
    var m': Memory := m1[t := m1[t][i := e]] - {c};
    ReplaceEntry(m, m', l, t, i, e);
    assert forall x: nat :: SamePage(k, l, v, x) <==> SamePage(k, l - 1, v, x) && Index(l, x) == i;
  }
}
