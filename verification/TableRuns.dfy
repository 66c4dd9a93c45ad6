/** Whole runs of map and unmap calls on one page table. */
module TableRuns {
  import opened Addresses
  import opened PageTables

  /** What one call did: mapped a page, unmapped a page, or refused. */
  datatype Change =
    | MapPage(k: nat, v: nat, frame: nat, flags: Flags)
    | UnmapPage(k: nat, v: nat)
    | Refused

  /** The tables in memory and the frames the allocator has free. */
  datatype State = State(m: Memory, free: set<nat>)

  ghost predicate Step(l: nat, t: nat, s: State, c: Change, s': State)
    requires 1 <= l <= 4
  {
    match c
    case MapPage(k, v, frame, flags) =>
      && 1 <= k <= l && s'.free <= s.free
      && Maps(s.m, s'.m, l, t, k, v, frame, flags, s.free - s'.free)
    case UnmapPage(k, v) =>
      && 1 <= k <= l && s.free <= s'.free
      && Unmaps(s.m, s'.m, l, t, k, v, s'.free - s.free)
    case Refused => s' == s
  }

  ghost predicate IsRun(l: nat, t: nat, ss: seq<State>, cs: seq<Change>)
    requires 1 <= l <= 4
  {
    |ss| == |cs| + 1 && forall i :: 0 <= i < |cs| ==> Step(l, t, ss[i], cs[i], ss[i + 1])
  }

  /** The flat map after one change: only the page named changes. */
  ghost function Changed(l: nat, c: Change, x: nat, before: Leaf): (r: Leaf)
    requires 1 <= l <= 4
  {
    match c
    case MapPage(k, v, frame, flags) =>
      if 1 <= k && SamePage(k, l, v, x) then Hit(k, frame, flags) else before
    case UnmapPage(k, v) => if 1 <= k && SamePage(k, l, v, x) then Miss else before
    case Refused => before
  }

  /** The flat map after a run: the last change that touches an address decides. */
  ghost function Flat(l: nat, cs: seq<Change>, x: nat, before: Leaf): (r: Leaf)
    requires 1 <= l <= 4
  {
    if cs == [] then before
    else Changed(l, cs[|cs| - 1], x, Flat(l, cs[..|cs| - 1], x, before))
  }

  ghost predicate Inv(l: nat, t: nat, s: State)
    requires 1 <= l <= 4
  {
    Tree(s.m, l, t) && Reach(s.m, l, t) !! s.free
  }

  /** Over any run the tables stay a tree apart from the free frames, tables plus free frames are
      conserved, and the tree translates exactly as the flat map of the changes does. */
  lemma {:induction false} RunRefinesFlatMap(l: nat, t: nat, ss: seq<State>, cs: seq<Change>)
    requires 1 <= l <= 4 && IsRun(l, t, ss, cs) && Inv(l, t, ss[0])
    ensures var last := ss[|cs|];
            && Inv(l, t, last)
            && Reach(last.m, l, t) + last.free == Reach(ss[0].m, l, t) + ss[0].free
            && forall x: nat :: Walk(last.m, l, t, x) == Flat(l, cs, x, Walk(ss[0].m, l, t, x))
    decreases |cs|
  {
    hide Tree, Reach, Walk;
    if cs != [] {
      var n := |cs| - 1;
      assert IsRun(l, t, ss[..n + 1], cs[..n]);
      RunRefinesFlatMap(l, t, ss[..n + 1], cs[..n]);
      assert Step(l, t, ss[n], cs[n], ss[n + 1]);
    }
  }
}
