/**
 The sorted list of address ranges of an address space and the searches made in it
 (kernel/src/paging/page_mapper.rs, lines 123-374).
 */
module RangeList {
  import opened Prelude
  import opened PageTables

  const PAGE: nat := 0x1000

  /** A listed mapping: a range of virtual addresses, the shared mapping it shows, and rights. */
  datatype Listed = Listed(start: nat, end: nat, id: nat, flags: Flags)

  /** A listed range holds at least one page, whole pages only, and not the zero page. */
  predicate RangeOk(e: Listed) {
    0 < e.start < e.end && e.start % PAGE == 0 && e.end % PAGE == 0
  }

  /** In order and apart from each other. */
  ghost predicate Sorted(list: seq<Listed>) {
    && (forall i :: 0 <= i < |list| ==> RangeOk(list[i]))
    && forall i, j :: 0 <= i < j < |list| ==> list[i].end <= list[j].start
  }

  predicate Contains(e: Listed, a: nat) {
    e.start <= a < e.end
  }

  /** An address lies in at most one listed range. */
  lemma InOneRange(list: seq<Listed>, i: nat, j: nat, a: nat)
    requires Sorted(list) && i < |list| && j < |list| && Contains(list[i], a) && Contains(list[j], a)
    ensures i == j
  {
  }

  // ---------------------------------------------------------------------------
  // Binary search
  // ---------------------------------------------------------------------------

  datatype Ordering = Less | Equal | Greater

  datatype SearchResult = Ok(index: nat) | Err(index: nat)

  /** `binary_search_by` needs the comparison to go up along the list. */
  ghost predicate GoesUp(list: seq<Listed>, cmp: Listed -> Ordering) {
    forall i, j :: 0 <= i < j < |list| ==>
      && (cmp(list[j]) == Less ==> cmp(list[i]) == Less)
      && (cmp(list[i]) == Greater ==> cmp(list[j]) == Greater)
  }

  /** `slice::binary_search_by`. */
  method BinarySearchBy(list: seq<Listed>, cmp: Listed -> Ordering) returns (r: SearchResult)
    requires GoesUp(list, cmp)
    ensures r.Ok? ==> r.index < |list| && cmp(list[r.index]) == Equal
    ensures r.Err? ==> r.index <= |list|
    ensures r.Err? ==> forall i :: 0 <= i < r.index ==> cmp(list[i]) == Less
    ensures r.Err? ==> forall i :: r.index <= i < |list| ==> cmp(list[i]) == Greater
  {
    var left, right := 0, |list|;
    while left < right
      invariant 0 <= left <= right <= |list|
      invariant forall i :: 0 <= i < left ==> cmp(list[i]) == Less
      invariant forall i :: right <= i < |list| ==> cmp(list[i]) == Greater
    {
      var mid := left + (right - left) / 2;
      match cmp(list[mid]) {
        case Less => left := mid + 1;
        case Greater => right := mid;
        case Equal => return Ok(mid);
      }
    }
    return Err(left);
  }

  function Compare(a: nat, b: nat): (r: Ordering) {
    if a < b then Less else if a > b then Greater else Equal
  }

  /** The comparison by start of a range, used when inserting. */
  function ByStart(base: nat): (cmp: Listed -> Ordering) {
    (e: Listed) => Compare(e.start, base)
  }

  /** The comparison by containment, used on a page fault. */
  function ByAddress(a: nat): (cmp: Listed -> Ordering) {
    (e: Listed) => if e.start > a then Greater else if e.end <= a then Less else Equal
  }

  /** `Iterator::cmp` of the ranges `a..b` and `c..d`: element by element, then by length. */
  function CompareElements(a: nat, b: nat, c: nat, d: nat): (r: Ordering)
    decreases b - a
  {
    if a >= b then (if c >= d then Equal else Less)
    else if c >= d then Greater
    else if a < c then Less
    else if a > c then Greater
    else CompareElements(a + 1, b, c + 1, d)
  }

  /** On a range that is not empty it is the comparison of the bounds, and any empty range is below. */
  lemma {:induction false} CompareElementsIs(a: nat, b: nat, c: nat, d: nat)
    requires a < b
    ensures CompareElements(a, b, c, d) ==
            if c >= d then Greater else if a != c then Compare(a, c) else Compare(b, d)
    decreases b - a
  {
    if c < d && a == c {
      if a + 1 < b { CompareElementsIs(a + 1, b, c + 1, d); }
    }
  }

  /** The comparison of ranges as iterators, used when freeing. */
  function ByRange(start: nat, end: nat): (cmp: Listed -> Ordering) {
    (e: Listed) => CompareElements(e.start, e.end, start, end)
  }

  /** All three go up along a sorted list. */
  lemma ComparisonsGoUp(list: seq<Listed>, a: nat, start: nat, end: nat)
    requires Sorted(list)
    ensures GoesUp(list, ByStart(a)) && GoesUp(list, ByAddress(a)) && GoesUp(list, ByRange(start, end))
  {
    forall i, j | 0 <= i < j < |list|
      ensures ByRange(start, end)(list[j]) == Less ==> ByRange(start, end)(list[i]) == Less
      ensures ByRange(start, end)(list[i]) == Greater ==> ByRange(start, end)(list[j]) == Greater
    {
      CompareElementsIs(list[i].start, list[i].end, start, end);
      CompareElementsIs(list[j].start, list[j].end, start, end);
    }
  }

  // ---------------------------------------------------------------------------
  // Inserting and removing
  // ---------------------------------------------------------------------------

  /** The test of `insert_mapping_at`: a range that overlaps, or begins right after, the new one. */
  predicate Clashes(e: Listed, base: nat, end: nat) {
    base < e.end && e.start <= end
  }

  /** The ranges have an address in common. */
  predicate Overlaps(e: Listed, base: nat, end: nat) {
    base < e.end && e.start < end
  }

  predicate OverlapsSome(list: seq<Listed>, base: nat, end: nat) {
    exists i :: 0 <= i < |list| && Overlaps(list[i], base, end)
  }

  predicate ClashesSome(list: seq<Listed>, base: nat, end: nat) {
    exists i :: 0 <= i < |list| && Clashes(list[i], base, end)
  }

  predicate BeginsSome(list: seq<Listed>, end: nat) {
    exists i :: 0 <= i < |list| && list[i].start == end
  }

  /** The test refuses every range that overlaps a listed one. A range that overlaps none it refuses exactly
      when a listed range begins where it ends. */
  lemma RefusedExactly(list: seq<Listed>, base: nat, end: nat)
    requires Sorted(list) && base < end
    ensures OverlapsSome(list, base, end) ==> ClashesSome(list, base, end)
    ensures !OverlapsSome(list, base, end) ==> (ClashesSome(list, base, end) <==> BeginsSome(list, end))
  {
    if i :| 0 <= i < |list| && Overlaps(list[i], base, end) {
      assert Clashes(list[i], base, end);
    } else {
      if i :| 0 <= i < |list| && Clashes(list[i], base, end) {
        assert !Overlaps(list[i], base, end);
        assert list[i].start == end;
      }
      if i :| 0 <= i < |list| && list[i].start == end {
        assert Clashes(list[i], base, end);
      }
    }
  }

  /** A page right below a listed page is refused. */
  lemma RefusesTouching(flags: Flags)
    ensures var list := [Listed(0x3000, 0x4000, 0, flags)];
            Sorted(list) && !OverlapsSome(list, 0x2000, 0x3000) && ClashesSome(list, 0x2000, 0x3000)
  {
    var list := [Listed(0x3000, 0x4000, 0, flags)];
    assert Clashes(list[0], 0x2000, 0x3000);
  }

  function InsertAt(list: seq<Listed>, i: nat, e: Listed): (r: seq<Listed>)
    requires i <= |list|
  {
    list[..i] + [e] + list[i..]
  }

  /** `list'` is `list` with `e` put in at position `i`. */
  predicate IsInsertAt(list: seq<Listed>, i: nat, e: Listed, list': seq<Listed>) {
    i <= |list| && list' == InsertAt(list, i, e)
  }

  function RemoveAt(list: seq<Listed>, i: nat): (r: seq<Listed>)
    requires i < |list|
  {
    list[..i] + list[i + 1..]
  }

  /** Membership after inserting: the new range and the old ones. */
  lemma InsertAtMembers(list: seq<Listed>, i: nat, e: Listed)
    requires i <= |list|
    ensures forall x :: x in InsertAt(list, i, e) <==> x == e || x in list
    ensures multiset(InsertAt(list, i, e)) == multiset(list) + multiset{e}
  {
    assert list == list[..i] + list[i..];
  }

  lemma RemoveSorted(list: seq<Listed>, i: nat)
    requires Sorted(list) && i < |list|
    ensures Sorted(RemoveAt(list, i))
  {
    var r := RemoveAt(list, i);
    assert forall j :: 0 <= j < |r| ==> r[j] == if j < i then list[j] else list[j + 1];
  }

  /** Membership after removing: every range but the removed one. */
  lemma RemoveAtMembers(list: seq<Listed>, i: nat)
    requires Sorted(list) && i < |list|
    ensures forall x :: x in RemoveAt(list, i) <==> x in list && x != list[i]
    ensures multiset(RemoveAt(list, i)) + multiset{list[i]} == multiset(list)
  {
    assert list == list[..i] + [list[i]] + list[i + 1..];
    forall x
      ensures x in RemoveAt(list, i) <==> x in list && x != list[i]
    {
      RemoveAtMember(list, i, x);
    }
  }

  lemma RemoveAtMember(list: seq<Listed>, i: nat, x: Listed)
    requires Sorted(list) && i < |list|
    ensures x in RemoveAt(list, i) <==> x in list && x != list[i]
  {
    var r := RemoveAt(list, i);
    if x in list && x != list[i] {
      var j :| 0 <= j < |list| && list[j] == x;
      assert r[if j < i then j else j - 1] == x;
    }
    if x in r {
      var j :| 0 <= j < |r| && r[j] == x;
      assert x == list[if j < i then j else j + 1];
    }
  }

  lemma InsertSorted(list: seq<Listed>, i: nat, e: Listed)
    requires Sorted(list) && i <= |list| && RangeOk(e)
    requires forall j :: 0 <= j < i ==> list[j].end <= e.start
    requires forall j :: i <= j < |list| ==> e.end <= list[j].start
    ensures Sorted(InsertAt(list, i, e))
  {
    var r := InsertAt(list, i, e);
    assert forall j :: 0 <= j < |r| ==> r[j] == if j < i then list[j] else if j == i then e else list[j - 1];
  }

  /** `insert_mapping_at` without the page table: scan for a clash, then insert in order. */
  method Place(list: seq<Listed>, e: Listed) returns (r: Option<nat>)
    requires Sorted(list) && RangeOk(e)
    ensures r.None? <==> exists i :: 0 <= i < |list| && Clashes(list[i], e.start, e.end)
    ensures r.Some? ==> r.value <= |list| && Sorted(InsertAt(list, r.value, e))
  {
    for i := 0 to |list|
      invariant forall j :: 0 <= j < i ==> !Clashes(list[j], e.start, e.end)
    {
      if Clashes(list[i], e.start, e.end) {
        return None;
      }
    }
    ComparisonsGoUp(list, e.start, 0, 0);
    var found := BinarySearchBy(list, ByStart(e.start));
    assert found.Err?;
    InsertSorted(list, found.index, e);
    return Some(found.index);
  }

  // ---------------------------------------------------------------------------
  // Gaps
  // ---------------------------------------------------------------------------

  /** Between ranges `i` and `i + 1` there is room for `size` bytes after a page of padding. */
  predicate Fits(list: seq<Listed>, i: nat, size: nat) {
    i + 1 < |list| && list[i].end + PAGE + size <= list[i + 1].start
  }

  /** The first window that fits. */
  ghost predicate FirstGap(list: seq<Listed>, size: nat, i: nat) {
    Fits(list, i, size) && forall j: nat :: j < i ==> !Fits(list, j, size)
  }

  /** `insert_mapping` picks the first window that fits; without one it panics. */
  method FindGap(list: seq<Listed>, size: nat) returns (r: Option<nat>)
    requires Sorted(list)
    ensures r.None? <==> forall i: nat :: !Fits(list, i, size)
    ensures r.Some? ==> FirstGap(list, size, r.value)
  {
    var i: nat := 0;
    while i + 1 < |list|
      invariant forall j: nat :: j < i ==> !Fits(list, j, size)
      invariant i <= |list|
    {
      if list[i].end + PAGE + size <= list[i + 1].start {
        assert Fits(list, i, size);
        return Some(i);
      }
      i := i + 1;
    }
    return None;
  }

  /** The place it picks is the lowest one: no lower address at least a page past the first range
      leaves a page of padding below it and fits between listed ranges. */
  lemma LowestGap(list: seq<Listed>, i: nat, size: nat, base: nat)
    requires Sorted(list) && size > 0 && FirstGap(list, size, i)
    requires list[0].end + PAGE <= base
    requires forall j :: 0 <= j < |list| ==> base + size <= list[j].start || list[j].end + PAGE <= base
    ensures list[i].end + PAGE <= base
  {
    if base < list[i].end + PAGE {
      var j := LastBelow(list, i, base, size);
      assert Fits(list, j, size);
    }
  }

  lemma {:induction false} LastBelow(list: seq<Listed>, i: nat, base: nat, size: nat) returns (j: nat)
    requires Sorted(list) && i < |list|
    requires list[0].end + PAGE <= base < list[i].end + PAGE
    requires forall j :: 0 <= j < |list| ==> base + size <= list[j].start || list[j].end + PAGE <= base
    ensures j < i && list[j].end + PAGE <= base && base + size <= list[j + 1].start
    decreases i
  {
    if list[i - 1].end + PAGE <= base {
      j := i - 1;
    } else {
      j := LastBelow(list, i - 1, base, size);
    }
  }

  lemma InsertInGap(list: seq<Listed>, i: nat, e: Listed)
    requires Sorted(list) && RangeOk(e) && Fits(list, i, e.end - e.start) && e.start == list[i].end + PAGE
    ensures Sorted(InsertAt(list, i + 1, e))
  {
    InsertSorted(list, i + 1, e);
  }
}
