/**
 The free lists of the physical frame allocator (kernel/src/paging/page_allocator.rs).

 Physical memory is addressed by frame number (byte address / 0x1000). Free
 blocks of 2^order frames are kept on singly linked lists whose nodes live in the
 first frame of each free block, so the allocator's only private state is the
 table of list heads. This module defines what each operation does to the
 contents of the lists, proves what that means for the free frames, and says when
 memory holds given lists.
 */
module FrameLists {
  import opened Prelude

  /** A 1 GiB block is the largest kept on a list. */
  const MAX_ORDER: nat := 18

  /** What the allocator stores in a frame. */
  datatype PageMetadata = PageMetadata(order: nat, prev: Option<nat>, next: Option<nat>)

  /** A frame of zero bytes, read as metadata. */
  const ZEROED := PageMetadata(0, None, None)

  type Lists = l: seq<seq<nat>> | |l| == MAX_ORDER + 1 witness seq(MAX_ORDER + 1, _ => [])

  // ---------------------------------------------------------------------------
  // Blocks and the frames they cover
  // ---------------------------------------------------------------------------

  predicate Within(base: nat, count: nat, f: nat) {
    base <= f < base + count
  }

  predicate Covers(base: nat, order: nat, f: nat) {
    Within(base, Pow2(order), f)
  }

  /** Block `i` of list `o` covers frame `f`. */
  predicate CoveredBy(lists: Lists, o: nat, i: nat, f: nat) {
    o <= MAX_ORDER && i < |lists[o]| && Covers(lists[o][i], o, f)
  }

  ghost function Frames(base: nat, count: nat): (s: set<nat>) {
    set f: nat | base <= f < base + count && Within(base, count, f)
  }

  lemma FramesSplit(base: nat, a: nat, b: nat)
    ensures Frames(base, a + b) == Frames(base, a) + Frames(base + a, b)
    ensures Frames(base, a) !! Frames(base + a, b)
  {
  }

  /** All frames covered by listed blocks. */
  ghost function FreeFrames(lists: Lists): (s: set<nat>) {
    set o, i, f | 0 <= o <= MAX_ORDER && 0 <= i < |lists[o]|
                  && f in Frames(lists[o][i], Pow2(o)) :: f
  }

  lemma FreeFramesIff(lists: Lists, f: nat)
    ensures f in FreeFrames(lists) <==> exists o: nat, i: nat :: CoveredBy(lists, o, i, f)
  {
    if o: nat, i: nat :| CoveredBy(lists, o, i, f) {
      assert f in Frames(lists[o][i], Pow2(o));
    }
    if f in FreeFrames(lists) {
      var o, i :| 0 <= o <= MAX_ORDER && 0 <= i < |lists[o]| && f in Frames(lists[o][i], Pow2(o));
      assert CoveredBy(lists, o, i, f);
    }
  }

  /** No frame is covered twice: listed blocks are pairwise disjoint. */
  ghost predicate BlocksDisjoint(lists: Lists) {
    forall o: nat, i: nat, p: nat, j: nat, f: nat ::
      CoveredBy(lists, o, i, f) && CoveredBy(lists, p, j, f) ==> o == p && i == j
  }

  /** Number of frames on the lists, counted block by block. */
  ghost function CountUpTo(lists: Lists, orders: nat): (n: nat)
    requires orders <= MAX_ORDER + 1
  {
    if orders == 0 then 0 else CountUpTo(lists, orders - 1) + |lists[orders - 1]| * Pow2(orders - 1)
  }

  ghost function Count(lists: Lists): (n: nat) { CountUpTo(lists, MAX_ORDER + 1) }

  // ---------------------------------------------------------------------------
  // The list operations, as functions on the lists' contents
  // ---------------------------------------------------------------------------

  function Push(lists: Lists, base: nat, order: nat): (r: Lists)
    requires order <= MAX_ORDER
  {
    lists[order := [base] + lists[order]]
  }

  /** The order `insert_free_of_range` picks for the next block. */
  function RangeOrder(start: nat, count: nat): (o: nat)
    requires start > 0 && count > 0
    ensures o <= MAX_ORDER && Pow2(o) <= count
  {
    var p := Ilog2(count);
    var a := Ilog2(start);
    var m := if p < a then p else a;
    var o := if m < MAX_ORDER then m else MAX_ORDER;
    Pow2Mono(o, p);
    o
  }

  function InsertRange(lists: Lists, start: nat, count: nat): (r: Lists)
    requires start > 0
    decreases count
  {
    if count == 0 then lists else
      var o := RangeOrder(start, count);
      InsertRange(Push(lists, start, o), start + Pow2(o), count - Pow2(o))
  }

  /** `j` is the smallest order of at least `k` whose list is not empty. */
  predicate SmallestFit(lists: Lists, k: nat, j: nat) {
    && k <= j <= MAX_ORDER && lists[j] != []
    && forall i :: k <= i < j ==> lists[i] == []
  }

  /** The lists after taking the first block of order `j` and splitting it down to order `k`. */
  function SplitDown(lists: Lists, k: nat, j: nat): (r: Lists)
    requires k <= j <= MAX_ORDER && lists[j] != []
  {
    seq(MAX_ORDER + 1, i requires 0 <= i <= MAX_ORDER =>
      if i == j then lists[j][1..]
      else if k <= i < j then [lists[j][0] + Pow2(i)] + lists[i]
      else lists[i])
  }

  // ---------------------------------------------------------------------------
  // Lemmas about the list operations
  // ---------------------------------------------------------------------------

  lemma PushCovers(lists: Lists, base: nat, order: nat, o: nat, i: nat, f: nat)
    requires order <= MAX_ORDER
    ensures CoveredBy(Push(lists, base, order), o, i, f) <==>
            if o == order then (if i == 0 then Covers(base, order, f) else CoveredBy(lists, o, i - 1, f))
            else CoveredBy(lists, o, i, f)
  {
  }

  lemma PushFrames(lists: Lists, base: nat, order: nat)
    requires order <= MAX_ORDER
    ensures FreeFrames(Push(lists, base, order)) == FreeFrames(lists) + Frames(base, Pow2(order))
  {
    hide FreeFrames;
    var r := Push(lists, base, order);
    forall f: nat
      ensures f in FreeFrames(r) <==> f in FreeFrames(lists) || Covers(base, order, f)
    {
      FreeFramesIff(r, f);
      FreeFramesIff(lists, f);
      if o: nat, i: nat :| CoveredBy(r, o, i, f) {
        PushCovers(lists, base, order, o, i, f);
      }
      if o: nat, i: nat :| CoveredBy(lists, o, i, f) {
        var i' := if o == order then i + 1 else i;
        PushCovers(lists, base, order, o, i', f);
        assert CoveredBy(r, o, i', f);
      }
      if Covers(base, order, f) {
        assert CoveredBy(r, order, 0, f);
      }
    }
  }

  lemma PushDisjoint(lists: Lists, base: nat, order: nat)
    requires order <= MAX_ORDER && BlocksDisjoint(lists)
    requires FreeFrames(lists) !! Frames(base, Pow2(order))
    ensures BlocksDisjoint(Push(lists, base, order))
  {
    var r := Push(lists, base, order);
    forall o: nat, i: nat, p: nat, j: nat, f: nat | CoveredBy(r, o, i, f) && CoveredBy(r, p, j, f)
      ensures o == p && i == j
    {
      PushCovers(lists, base, order, o, i, f);
      PushCovers(lists, base, order, p, j, f);
      FreeFramesIff(lists, f);
      assert Covers(base, order, f) ==> f in Frames(base, Pow2(order));
    }
  }

  lemma OneMore(n: nat, block: nat)
    ensures (n + 1) * block == n * block + block
  {
  }

  lemma {:induction false} CountPush(lists: Lists, base: nat, order: nat, orders: nat)
    requires order <= MAX_ORDER && orders <= MAX_ORDER + 1
    ensures CountUpTo(Push(lists, base, order), orders)
         == CountUpTo(lists, orders) + (if order < orders then Pow2(order) else 0)
  {
    if orders > 0 {
      hide Pow2;
      CountPush(lists, base, order, orders - 1);
      OneMore(|lists[orders - 1]|, Pow2(orders - 1));
    }
  }

  /** Listing one more block adds its frames and nothing else. */
  lemma PushAdds(lists: Lists, base: nat, order: nat)
    requires order <= MAX_ORDER && BlocksDisjoint(lists)
    requires FreeFrames(lists) !! Frames(base, Pow2(order))
    ensures BlocksDisjoint(Push(lists, base, order))
    ensures FreeFrames(Push(lists, base, order)) == FreeFrames(lists) + Frames(base, Pow2(order))
    ensures Count(Push(lists, base, order)) == Count(lists) + Pow2(order)
  {
    hide FreeFrames, BlocksDisjoint;
    PushFrames(lists, base, order);
    PushDisjoint(lists, base, order);
    CountPush(lists, base, order, MAX_ORDER + 1);
  }

  /** Inserting a range lists exactly its frames, keeps blocks disjoint and counts right. */
  lemma {:induction false} InsertRangeAdds(lists: Lists, start: nat, count: nat)
    requires start > 0 && BlocksDisjoint(lists) && FreeFrames(lists) !! Frames(start, count)
    ensures BlocksDisjoint(InsertRange(lists, start, count))
    ensures FreeFrames(InsertRange(lists, start, count)) == FreeFrames(lists) + Frames(start, count)
    ensures Count(InsertRange(lists, start, count)) == Count(lists) + count
    decreases count
  {
    hide FreeFrames, BlocksDisjoint, Count, Push, Pow2, Ilog2;
    if count == 0 {
      assert Frames(start, 0) == {};
    } else {
      var o := RangeOrder(start, count);
      var l := Push(lists, start, o);
      FramesSplit(start, Pow2(o), count - Pow2(o));
      PushAdds(lists, start, o);
      InsertRangeAdds(l, start + Pow2(o), count - Pow2(o));
    }
  }

  /** The upper half of a split block goes back as one block: the highest bits of its
      address and of its length never cut it into smaller ones. */
  lemma UpperHalfStaysWhole(lists: Lists, base: nat, k: nat)
    requires k <= MAX_ORDER
    ensures InsertRange(lists, base + Pow2(k), Pow2(k)) == Push(lists, base + Pow2(k), k)
  {
    hide Pow2, Ilog2, Push;
    var start := base + Pow2(k);
    Pow2Double(k);
    Ilog2AtLeast(start, k);
    Ilog2AtLeast(Pow2(k), k);
    Ilog2AtLeast(Pow2(k), k + 1);
    assert RangeOrder(start, Pow2(k)) == k;
    assert InsertRange(Push(lists, start, k), start + Pow2(k), 0) == Push(lists, start, k);
  }

  /** Each block that a range is cut into is the largest that is no longer than what is left of the range, than the
      address it begins at, and than the largest block kept. */
  lemma RangeOrderIsLargest(start: nat, count: nat, i: nat)
    requires start > 0 && count > 0
    ensures i <= RangeOrder(start, count) <==> i <= MAX_ORDER && Pow2(i) <= count && Pow2(i) <= start
  {
    hide Pow2, Ilog2;
    Ilog2AtLeast(count, i);
    Ilog2AtLeast(start, i);
  }

  /** The block of order `o` among those that a range is cut into: one for each binary digit of its length,
      largest first. */
  function DigitBlock(start: nat, count: nat, o: nat): (r: seq<nat>) {
    if count / Pow2(o) % 2 == 1 then [start + count / Pow2(o + 1) * Pow2(o + 1)] else []
  }

  /** A range no longer than its address is listed as the binary digits of its length. */
  lemma {:induction false} RangeInDigits(lists: Lists, start: nat, count: nat, o: nat)
    requires 0 < start && count <= start && count < Pow2(MAX_ORDER + 1) && o <= MAX_ORDER
    ensures InsertRange(lists, start, count)[o] == DigitBlock(start, count, o) + lists[o]
    decreases count
  {
    hide Pow2, Ilog2, Push;
    if count == 0 {
      NoDigits(start, o);
    } else {
      var t := Ilog2(count);
      Ilog2AtLeast(count, MAX_ORDER + 1);
      Ilog2AtLeast(start, t);
      assert RangeOrder(start, count) == t;
      RangeInDigits(Push(lists, start, t), start + Pow2(t), count - Pow2(t), o);
      DigitsBelow(start, count, t, o);
      PushAt(lists, start, t, o);
    }
  }

  lemma NoDigits(start: nat, o: nat)
    ensures DigitBlock(start, 0, o) == []
  {
  }

  lemma PushAt(lists: Lists, base: nat, order: nat, o: nat)
    requires order <= MAX_ORDER && o <= MAX_ORDER
    ensures Push(lists, base, order)[o] == (if o == order then [base] else []) + lists[o]
  {
  }

  /** Taking off the highest digit leaves the others. */
  lemma DigitsBelow(start: nat, count: nat, t: nat, o: nat)
    requires Pow2(t) <= count < Pow2(t + 1)
    ensures DigitBlock(start, count, o)
         == DigitBlock(start + Pow2(t), count - Pow2(t), o) + if o == t then [start] else []
  {
    hide Pow2, DigitBlock;
    Pow2Double(t);
    if o < t {
      LowerDigit(start, count, t, o);
    } else {
      TopDigit(start, count, t, o);
      TopDigit(start + Pow2(t), count - Pow2(t), t, o);
    }
  }

  lemma TopDigit(start: nat, count: nat, t: nat, o: nat)
    requires t <= o && count < Pow2(t + 1)
    ensures DigitBlock(start, count, o) == if o == t && Pow2(t) <= count then [start] else []
  {
    hide Pow2;
    Pow2Double(t);
    Pow2Mono(t + 1, o + 1);
    Quotient(Pow2(o + 1), 0, count);
    if o > t { Pow2Mono(t + 1, o); }
    Quotient(Pow2(o), if o == t && Pow2(t) <= count then 1 else 0, count);
  }

  lemma LowerDigit(start: nat, count: nat, t: nat, o: nat)
    requires o < t && Pow2(t) <= count
    ensures DigitBlock(start, count, o) == DigitBlock(start + Pow2(t), count - Pow2(t), o)
  {
    hide Pow2;
    Pow2Double(o);
    Pow2Parts(o + 1, t);
    DigitParity(Pow2(o), Pow2(o + 1), Pow2(t - o - 1), count - Pow2(t), count);
    DigitHigh(Pow2(o + 1), Pow2(t - o - 1), count - Pow2(t), count);
  }

  lemma DigitParity(p: nat, d: nat, q: nat, c: nat, count: nat)
    requires p > 0 && d == p + p && count == q * d + c
    ensures count / p % 2 == c / p % 2
  {
    Doubled(q, p);
    DivideOff(p, 2 * q, c);
    SameParity(q, c / p);
  }

  lemma DigitHigh(d: nat, q: nat, c: nat, count: nat)
    requires d > 0 && count == q * d + c
    ensures count / d * d == count - c + c / d * d
  {
    DivideOff(d, q, c);
    Distribute(q, c / d, d);
  }

  lemma Doubled(q: nat, p: nat)
    ensures q * (p + p) == 2 * q * p
  {
  }

  lemma SameParity(q: nat, n: nat)
    ensures (2 * q + n) % 2 == n % 2
  {
  }

  lemma DivideOff(d: nat, q: nat, c: nat)
    requires d > 0
    ensures (q * d + c) / d == q + c / d
  {
    Distribute(q, c / d, d);
    Quotient(d, q + c / d, q * d + c);
  }

  lemma {:induction false} Pow2Parts(a: nat, b: nat)
    requires a <= b
    ensures Pow2(b) == Pow2(b - a) * Pow2(a)
    decreases b - a
  {
    if a < b {
      Pow2Parts(a, b - 1);
      Pow2Double(b - 1);
      Pow2Double(b - 1 - a);
    }
  }

  /** Splitting one order further is one more `Push` of an upper half. */
  lemma SplitStep(lists: Lists, k: nat, j: nat)
    requires k < j <= MAX_ORDER && lists[j] != []
    ensures SplitDown(lists, k, j) == Push(SplitDown(lists, k + 1, j), lists[j][0] + Pow2(k), k)
  {
  }

  /** Taking the first block of a list keeps the others disjoint. */
  lemma PopDisjoint(lists: Lists, j: nat)
    requires j <= MAX_ORDER && lists[j] != [] && BlocksDisjoint(lists)
    ensures BlocksDisjoint(lists[j := lists[j][1..]])
  {
    var l: Lists := lists[j := lists[j][1..]];
    forall o: nat, i: nat, p: nat, k: nat, f: nat | CoveredBy(l, o, i, f) && CoveredBy(l, p, k, f)
      ensures o == p && i == k
    {
      var i', k' := if o == j then i + 1 else i, if p == j then k + 1 else k;
      assert CoveredBy(lists, o, i', f) && CoveredBy(lists, p, k', f);
    }
  }

  lemma PopLeavesNoFrame(lists: Lists, j: nat, f: nat)
    requires j <= MAX_ORDER && lists[j] != [] && BlocksDisjoint(lists)
    requires Covers(lists[j][0], j, f)
    ensures f !in FreeFrames(lists[j := lists[j][1..]])
  {
    var l: Lists := lists[j := lists[j][1..]];
    FreeFramesIff(l, f);
    if o: nat, i: nat :| CoveredBy(l, o, i, f) {
      assert CoveredBy(lists, o, if o == j then i + 1 else i, f);
      assert CoveredBy(lists, j, 0, f);
    }
  }

  /** Taking the first block of a list removes exactly its frames. */
  lemma PopRemoves(lists: Lists, j: nat)
    requires j <= MAX_ORDER && lists[j] != [] && BlocksDisjoint(lists)
    ensures var l: Lists := lists[j := lists[j][1..]];
            && BlocksDisjoint(l)
            && FreeFrames(l) == FreeFrames(lists) - Frames(lists[j][0], Pow2(j))
            && Frames(lists[j][0], Pow2(j)) <= FreeFrames(lists)
            && Count(lists) == Count(l) + Pow2(j)
  {
    hide FreeFrames, BlocksDisjoint;
    var l: Lists := lists[j := lists[j][1..]];
    var base := lists[j][0];
    assert [base] + lists[j][1..] == lists[j];
    assert lists == Push(l, base, j);
    PopDisjoint(lists, j);
    forall f | f in Frames(base, Pow2(j))
      ensures f !in FreeFrames(l)
    {
      PopLeavesNoFrame(lists, j, f);
    }
    PushAdds(l, base, j);
  }

  /** A split hands out the low `2^k` frames of the block and keeps every other frame listed. */
  lemma {:induction false} SplitRemoves(lists: Lists, k: nat, j: nat)
    requires k <= j <= MAX_ORDER && lists[j] != [] && BlocksDisjoint(lists)
    ensures BlocksDisjoint(SplitDown(lists, k, j))
    ensures FreeFrames(SplitDown(lists, k, j)) == FreeFrames(lists) - Frames(lists[j][0], Pow2(k))
    ensures Frames(lists[j][0], Pow2(k)) <= FreeFrames(lists)
    ensures Count(SplitDown(lists, k, j)) + Pow2(k) == Count(lists)
    ensures forall o :: k <= o < j ==> |SplitDown(lists, k, j)[o]| == |lists[o]| + 1
    ensures forall o :: 0 <= o <= MAX_ORDER && !(k <= o <= j) ==> SplitDown(lists, k, j)[o] == lists[o]
    decreases j - k
  {
    hide FreeFrames, BlocksDisjoint, CoveredBy;
    if k == j {
      PopRemoves(lists, j);
      assert SplitDown(lists, k, j) == lists[j := lists[j][1..]];
    } else {
      var base := lists[j][0];
      var l := SplitDown(lists, k + 1, j);
      SplitRemoves(lists, k + 1, j);
      SplitStep(lists, k, j);
      FramesSplit(base, Pow2(k), Pow2(k));
      assert Pow2(k + 1) == Pow2(k) + Pow2(k);
      PushAdds(l, base + Pow2(k), k);
    }
  }

  /** The order the recursive search of `request_page_of_order` ends at. */
  function FitOrder(lists: Lists, k: nat): (r: Option<nat>)
    decreases MAX_ORDER + 1 - k
  {
    if k > MAX_ORDER then None
    else if lists[k] != [] then Some(k)
    else FitOrder(lists, k + 1)
  }

  /** It is the smallest order that fits, and there is none exactly when every list from `k` up is empty. */
  lemma {:induction false} FitOrderIsSmallest(lists: Lists, k: nat)
    ensures forall j: nat :: FitOrder(lists, k) == Some(j) <==> SmallestFit(lists, k, j)
    ensures FitOrder(lists, k).None? <==> forall i :: k <= i <= MAX_ORDER ==> lists[i] == []
    decreases MAX_ORDER + 1 - k
  {
    if k <= MAX_ORDER && lists[k] == [] {
      FitOrderIsSmallest(lists, k + 1);
      forall j: nat
        ensures SmallestFit(lists, k, j) <==> SmallestFit(lists, k + 1, j)
      {
      }
    }
  }

  /** What `request_page_of_order` hands out, and the lists it leaves. */
  function Granted(lists: Lists, k: nat): (r: Option<nat>)
    ensures r.Some? <==> FitOrder(lists, k).Some?
  {
    FitOrderIsSmallest(lists, k);
    match FitOrder(lists, k)
    case None => None
    case Some(j) => Some(lists[j][0])
  }

  function AfterRequest(lists: Lists, k: nat): (r: Lists) {
    FitOrderIsSmallest(lists, k);
    match FitOrder(lists, k)
    case None => lists
    case Some(j) => SplitDown(lists, k, j)
  }

  /** A request that succeeds takes `2^k` free frames and nothing else. */
  lemma RequestTakes(lists: Lists, k: nat)
    requires BlocksDisjoint(lists) && Granted(lists, k).Some?
    ensures BlocksDisjoint(AfterRequest(lists, k))
    ensures FreeFrames(AfterRequest(lists, k)) == FreeFrames(lists) - Frames(Granted(lists, k).value, Pow2(k))
    ensures Frames(Granted(lists, k).value, Pow2(k)) <= FreeFrames(lists)
    ensures Count(AfterRequest(lists, k)) + Pow2(k) == Count(lists)
  {
    hide FreeFrames, BlocksDisjoint, SplitDown, Count, Pow2, Frames;
    FitOrderIsSmallest(lists, k);
    SplitRemoves(lists, k, FitOrder(lists, k).value);
  }

  /** `lists'` is `lists` after the first block of order `j`, the smallest at hand of at least order `k`, was split
      down to order `k`. */
  ghost predicate RequestedFrom(lists: Lists, k: nat, j: nat, lists': Lists) {
    SmallestFit(lists, k, j) && forall o :: 0 <= o <= MAX_ORDER ==> lists'[o] == SplitAt(lists, k, j, o)
  }

  /** `request_page_of_order` is refused exactly when all lists of at least the order are empty. */
  lemma RequestServes(lists: Lists, k: nat)
    ensures Granted(lists, k).None? <==> forall o: nat :: k <= o <= MAX_ORDER ==> lists[o] == []
    ensures Granted(lists, k).Some? ==> exists j: nat ::
      RequestedFrom(lists, k, j, AfterRequest(lists, k)) && Granted(lists, k).value == lists[j][0]
  {
    hide FitOrder, Pow2, SplitDown, RequestedFrom;
    FitOrderIsSmallest(lists, k);
    if Granted(lists, k).Some? {
      var j := FitOrder(lists, k).value;
      assert SmallestFit(lists, k, j);
      SplitsFrom(lists, k, j);
      assert RequestedFrom(lists, k, j, AfterRequest(lists, k));
    }
  }

  lemma SplitsFrom(lists: Lists, k: nat, j: nat)
    requires SmallestFit(lists, k, j)
    ensures RequestedFrom(lists, k, j, SplitDown(lists, k, j))
  {
    hide Pow2;
  }

  lemma RequestNone(lists: Lists, k: nat)
    requires k > MAX_ORDER
    ensures Granted(lists, k) == None && AfterRequest(lists, k) == lists
  {
  }

  lemma RequestHead(lists: Lists, k: nat)
    requires k <= MAX_ORDER && lists[k] != []
    ensures Granted(lists, k) == Some(lists[k][0]) && AfterRequest(lists, k) == lists[k := lists[k][1..]]
  {
  }

  /** A single frame can be handed out as long as any frame is free. */
  lemma NoneWhenEmpty(lists: Lists)
    ensures Granted(lists, 0).None? <==> FreeFrames(lists) == {}
  {
    FitOrderIsSmallest(lists, 0);
    if Granted(lists, 0).Some? {
      var j := FitOrder(lists, 0).value;
      assert CoveredBy(lists, j, 0, lists[j][0]);
      FreeFramesIff(lists, lists[j][0]);
    } else if f :| f in FreeFrames(lists) {
      FreeFramesIff(lists, f);
    }
  }

  /** When list `k` is empty, a request asks one order up and returns the upper half. */
  lemma RequestSplits(lists: Lists, k: nat)
    requires k <= MAX_ORDER && lists[k] == []
    ensures Granted(lists, k) == Granted(lists, k + 1)
    ensures Granted(lists, k).None? ==> AfterRequest(lists, k) == lists
    ensures Granted(lists, k).Some? ==>
      AfterRequest(lists, k) ==
      InsertRange(AfterRequest(lists, k + 1), Granted(lists, k).value + Pow2(k), Pow2(k + 1) - Pow2(k))
  {
    hide SplitDown, InsertRange, Push;
    FitOrderIsSmallest(lists, k + 1);
    if Granted(lists, k).Some? {
      var j := FitOrder(lists, k + 1).value;
      SplitStep(lists, k, j);
      UpperHalfStaysWhole(AfterRequest(lists, k + 1), lists[j][0], k);
    }
  }

  /** `allocate_pages`: the order asked for, and the lists left. */
  function AskedOrder(count: nat): (k: nat)
    requires count > 0
    ensures count <= Pow2(k)
  {
    if Pow2(Ilog2(count)) == count then Ilog2(count) else Ilog2(count) + 1
  }

  function AfterAllocate(lists: Lists, count: nat): (r: Lists)
    requires count > 0
  {
    var k := AskedOrder(count);
    match Granted(lists, k)
    case None => lists
    case Some(base) => InsertRange(AfterRequest(lists, k), base + count, Pow2(k) - count)
  }

  lemma AllocateExact(lists: Lists, count: nat)
    requires count > 0 && Pow2(Ilog2(count)) == count
    ensures AskedOrder(count) == Ilog2(count)
    ensures AfterAllocate(lists, count) == AfterRequest(lists, Ilog2(count))
  {
  }

  /** Order `o` is the smallest whose blocks hold `count` frames and whose list is not empty. */
  predicate SmallestHolding(lists: Lists, count: nat, o: nat) {
    && o <= MAX_ORDER && count <= Pow2(o) && lists[o] != []
    && forall i: nat :: i < o && count <= Pow2(i) ==> lists[i] == []
  }

  /** The order asked for is the smallest whose blocks hold `count` frames. */
  lemma AskedOrderIsSmallest(count: nat, i: nat)
    requires count > 0
    ensures AskedOrder(count) <= i <==> count <= Pow2(i)
  {
    if AskedOrder(count) <= i {
      Pow2Mono(AskedOrder(count), i);
    } else {
      Pow2Mono(i, AskedOrder(count) - 1);
      if Pow2(Ilog2(count)) == count { Pow2Double(i); Pow2Mono(i + 1, Ilog2(count)); }
    }
  }

  /** `k` is the smallest order whose blocks hold `count` frames. */
  predicate LeastOrder(count: nat, k: nat) {
    count <= Pow2(k) && forall i: nat :: i < k ==> Pow2(i) < count
  }

  /** `lists'` is `lists` after `count` frames were served from the first block of order `j`. The block was split
      down to the least order `k` that holds them, each upper half going to the list of its order, and the tail
      that was not asked for is listed as the binary digits of its length. */
  ghost predicate ServedFrom(lists: Lists, count: nat, j: nat, k: nat, lists': Lists) {
    && SmallestHolding(lists, count, j) && LeastOrder(count, k)
    && forall o :: 0 <= o <= MAX_ORDER ==>
         lists'[o] == DigitBlock(lists[j][0] + count, Pow2(k) - count, o) + SplitAt(lists, k, j, o)
  }

  /** List `o` after the first block of order `j` was split down to order `k`. */
  function SplitAt(lists: Lists, k: nat, j: nat, o: nat): (r: seq<nat>)
    requires j <= MAX_ORDER && o <= MAX_ORDER && lists[j] != []
  {
    if o == j then lists[j][1..] else if k <= o < j then [lists[j][0] + Pow2(o)] + lists[o] else lists[o]
  }

  /** `allocate_pages` is refused exactly when no list of blocks that hold `count` frames has one, and is served
      from the first block of the smallest such order. */
  lemma AllocateServes(lists: Lists, count: nat)
    requires count > 0
    ensures Granted(lists, AskedOrder(count)).None? <==>
      forall o: nat :: o <= MAX_ORDER && count <= Pow2(o) ==> lists[o] == []
    ensures Granted(lists, AskedOrder(count)).Some? ==> exists j: nat, k: nat ::
      && ServedFrom(lists, count, j, k, AfterAllocate(lists, count))
      && Granted(lists, AskedOrder(count)).value == lists[j][0]
  {
    hide AskedOrder, AfterAllocate, Pow2, ServedFrom;
    var k := AskedOrder(count);
    FitOrderIsSmallest(lists, k);
    forall i: nat
      ensures k <= i <==> count <= Pow2(i)
    {
      AskedOrderIsSmallest(count, i);
    }
    if Granted(lists, k).Some? {
      var j := FitOrder(lists, k).value;
      assert SmallestFit(lists, k, j);
      assert SmallestHolding(lists, count, j);
      AllocateLeaves(lists, count, j);
      assert ServedFrom(lists, count, j, k, AfterAllocate(lists, count));
    } else {
      assert forall o: nat :: o <= MAX_ORDER && k <= o ==> lists[o] == [];
    }
  }

  lemma AllocateLeaves(lists: Lists, count: nat, j: nat)
    requires count > 0 && SmallestHolding(lists, count, j) && FitOrder(lists, AskedOrder(count)) == Some(j)
    ensures ServedFrom(lists, count, j, AskedOrder(count), AfterAllocate(lists, count))
  {
    hide Pow2, DigitBlock, InsertRange, FitOrder, AskedOrder;
    var k, base := AskedOrder(count), lists[j][0];
    LeastAsked(count, j);
    var split := AfterRequest(lists, k);
    forall o | 0 <= o <= MAX_ORDER
      ensures AfterAllocate(lists, count)[o] == DigitBlock(base + count, Pow2(k) - count, o) + SplitAt(lists, k, j, o)
    {
      RangeInDigits(split, base + count, Pow2(k) - count, o);
    }
  }

  lemma LeastAsked(count: nat, j: nat)
    requires count > 0 && j <= MAX_ORDER && count <= Pow2(j)
    ensures var k := AskedOrder(count);
            LeastOrder(count, k) && k <= j && Pow2(k) - count <= count && Pow2(k) < Pow2(MAX_ORDER + 1)
  {
    hide AskedOrder, Pow2;
    var k := AskedOrder(count);
    AskedOrderIsSmallest(count, j);
    forall i: nat
      ensures k <= i <==> count <= Pow2(i)
    {
      AskedOrderIsSmallest(count, i);
    }
    Pow2Mono(k, MAX_ORDER);
    Pow2Double(MAX_ORDER);
    if k > 0 { Pow2Double(k - 1); } else { assert Pow2(0) < Pow2(1) <= 2 * count by { Pow2Double(0); UnitPower(); } }
  }

  lemma UnitPower()
    ensures Pow2(0) == 1
  {
  }

  /** An allocation that succeeds takes exactly `count` free frames: the tail of the block goes back. */
  lemma AllocateTakes(lists: Lists, count: nat)
    requires count > 0 && BlocksDisjoint(lists) && Granted(lists, AskedOrder(count)).Some?
    ensures var base := Granted(lists, AskedOrder(count)).value;
            && BlocksDisjoint(AfterAllocate(lists, count))
            && FreeFrames(AfterAllocate(lists, count)) == FreeFrames(lists) - Frames(base, count)
            && Frames(base, count) <= FreeFrames(lists)
            && Count(AfterAllocate(lists, count)) + count == Count(lists)
  {
    hide FreeFrames, BlocksDisjoint, AfterRequest, Granted, Count, InsertRange;
    var k := AskedOrder(count);
    var base := Granted(lists, k).value;
    RequestTakes(lists, k);
    FramesSplit(base, count, Pow2(k) - count);
    InsertRangeAdds(AfterRequest(lists, k), base + count, Pow2(k) - count);
  }

  lemma {:induction false} FramesSize(base: nat, count: nat)
    ensures |Frames(base, count)| == count
  {
    if count == 0 {
      assert Frames(base, 0) == {};
    } else {
      FramesSize(base, count - 1);
      assert Frames(base, count) == Frames(base, count - 1) + {base + count - 1};
    }
  }

  ghost function Blocks(lists: Lists, orders: nat): (n: nat)
    requires orders <= MAX_ORDER + 1
  {
    if orders == 0 then 0 else Blocks(lists, orders - 1) + |lists[orders - 1]|
  }

  lemma {:induction false} BlocksPop(lists: Lists, j: nat, orders: nat)
    requires j <= MAX_ORDER && lists[j] != [] && orders <= MAX_ORDER + 1
    ensures Blocks(lists, orders) == Blocks(lists[j := lists[j][1..]], orders) + (if j < orders then 1 else 0)
  {
    if orders > 0 { BlocksPop(lists, j, orders - 1); }
  }

  lemma {:induction false} CountEmpty(lists: Lists, orders: nat)
    requires orders <= MAX_ORDER + 1 && forall i :: 0 <= i < orders ==> lists[i] == []
    ensures CountUpTo(lists, orders) == 0
  {
    if orders > 0 { CountEmpty(lists, orders - 1); }
  }

  /** On disjoint blocks the block-by-block count is the number of distinct free frames. */
  lemma {:induction false} CountIsFreeFrames(lists: Lists)
    requires BlocksDisjoint(lists)
    ensures Count(lists) == |FreeFrames(lists)|
    decreases Blocks(lists, MAX_ORDER + 1)
  {
    if j :| 0 <= j <= MAX_ORDER && lists[j] != [] {
      var l: Lists := lists[j := lists[j][1..]];
      PopRemoves(lists, j);
      BlocksPop(lists, j, MAX_ORDER + 1);
      CountIsFreeFrames(l);
      FramesSize(lists[j][0], Pow2(j));
      assert FreeFrames(lists) == FreeFrames(l) + Frames(lists[j][0], Pow2(j));
    } else {
      CountEmpty(lists, MAX_ORDER + 1);
      assert FreeFrames(lists) == {};
    }
  }

  // ---------------------------------------------------------------------------
  // The linked lists in memory
  // ---------------------------------------------------------------------------

  function NodeAt(list: seq<nat>, i: nat): (r: Option<nat>) {
    if i < |list| then Some(list[i]) else None
  }

  /** Memory holds `lists`: each head and each link points to the next block of its list. */
  ghost predicate Linked(heads: seq<Option<nat>>, meta: map<nat, PageMetadata>, lists: Lists) {
    && |heads| == MAX_ORDER + 1
    && (forall o :: 0 <= o <= MAX_ORDER ==> heads[o] == NodeAt(lists[o], 0))
    && forall o, i :: 0 <= o <= MAX_ORDER && 0 <= i < |lists[o]| ==>
         lists[o][i] in meta && meta[lists[o][i]] == PageMetadata(o, None, NodeAt(lists[o], i + 1))
  }

  /** The head of a list is its first node, whose link is the second. */
  lemma LinkedList(heads: seq<Option<nat>>, meta: map<nat, PageMetadata>, lists: Lists, o: nat)
    requires Linked(heads, meta, lists) && o <= MAX_ORDER
    ensures |heads| == MAX_ORDER + 1 && heads[o] == NodeAt(lists[o], 0)
    ensures lists[o] != [] ==> lists[o][0] in meta && meta[lists[o][0]].next == NodeAt(lists[o], 1)
    ensures |lists[o]| > 1 ==> lists[o][1] in meta && meta[lists[o][1]].prev == None
  {
  }

  lemma EmptyLists(lists: Lists)
    requires lists == seq(MAX_ORDER + 1, _ => [])
    ensures Linked(seq(MAX_ORDER + 1, _ => None), map[], lists)
    ensures BlocksDisjoint(lists) && FreeFrames(lists) == {} && Count(lists) == 0
  {
    CountEmpty(lists, MAX_ORDER + 1);
  }

  lemma LinkedHeads(heads: seq<Option<nat>>, meta: map<nat, PageMetadata>, lists: Lists)
    requires Linked(heads, meta, lists)
    ensures |heads| == MAX_ORDER + 1
  {
  }

  lemma NodeIsFree(lists: Lists, o: nat, i: nat)
    requires o <= MAX_ORDER && i < |lists[o]|
    ensures lists[o][i] in FreeFrames(lists)
  {
    FreeFramesIff(lists, lists[o][i]);
    assert CoveredBy(lists, o, i, lists[o][i]);
  }

  /** Memory that differs from a linked one only outside the free frames is linked the same. */
  lemma LinkedFrame(heads: seq<Option<nat>>, meta: map<nat, PageMetadata>, meta': map<nat, PageMetadata>, lists: Lists)
    requires Linked(heads, meta, lists)
    requires forall f :: f in FreeFrames(lists) && f in meta ==> f in meta' && meta'[f] == meta[f]
    ensures Linked(heads, meta', lists)
  {
    hide FreeFrames;
    forall o, i | 0 <= o <= MAX_ORDER && 0 <= i < |lists[o]|
      ensures lists[o][i] in meta' && meta'[lists[o][i]] == meta[lists[o][i]]
    {
      NodeIsFree(lists, o, i);
    }
  }

  /** Writing the new first node and moving the head links the longer list. */
  lemma LinkedPush(heads: seq<Option<nat>>, meta: map<nat, PageMetadata>, lists: Lists, base: nat, order: nat)
    requires Linked(heads, meta, lists) && order <= MAX_ORDER && base !in FreeFrames(lists)
    ensures Linked(heads[order := Some(base)], meta[base := PageMetadata(order, None, heads[order])],
                   Push(lists, base, order))
  {
    var meta' := meta[base := PageMetadata(order, None, heads[order])];
    var lists' := Push(lists, base, order);
    hide FreeFrames;
    LinkedFrame(heads, meta, meta', lists);
    forall o, i | 0 <= o <= MAX_ORDER && 0 <= i < |lists'[o]|
      ensures lists'[o][i] in meta' && meta'[lists'[o][i]] == PageMetadata(o, None, NodeAt(lists'[o], i + 1))
    {
      if o == order && i > 0 {
        assert lists'[o][i] == lists[o][i - 1];
      }
    }
  }

  /** Unlinking the first node of a list. */
  lemma LinkedPop(heads: seq<Option<nat>>, meta: map<nat, PageMetadata>, lists: Lists, j: nat)
    requires Linked(heads, meta, lists) && j <= MAX_ORDER && lists[j] != []
    ensures Linked(heads[j := meta[lists[j][0]].next], meta, lists[j := lists[j][1..]])
  {
    var lists': Lists := lists[j := lists[j][1..]];
    forall o, i | 0 <= o <= MAX_ORDER && 0 <= i < |lists'[o]|
      ensures meta[lists'[o][i]] == PageMetadata(o, None, NodeAt(lists'[o], i + 1))
    {
      if o == j {
        assert lists'[o][i] == lists[o][i + 1];
      }
    }
  }

  /** Follow `n` links from a node. */
  function Follow(meta: map<nat, PageMetadata>, node: Option<nat>, n: nat): (r: Option<nat>)
    decreases n
  {
    if n == 0 || node.None? then node
    else if node.value !in meta then None
    else Follow(meta, meta[node.value].next, n - 1)
  }

  /** Following links from list element `i` visits the rest of the list in order and then stops. */
  lemma {:induction false} FollowVisits(heads: seq<Option<nat>>, meta: map<nat, PageMetadata>, lists: Lists,
                                        o: nat, i: nat, n: nat)
    requires Linked(heads, meta, lists) && o <= MAX_ORDER
    ensures Follow(meta, NodeAt(lists[o], i), n) == NodeAt(lists[o], i + n)
    decreases n
  {
    if n > 0 && i < |lists[o]| {
      FollowVisits(heads, meta, lists, o, i + 1, n - 1);
    }
  }

  /** The chains are acyclic: no two steps from a head reach the same frame, within a list or across lists. */
  lemma ChainsAcyclic(heads: seq<Option<nat>>, meta: map<nat, PageMetadata>, lists: Lists,
                      o: nat, m: nat, p: nat, n: nat)
    requires Linked(heads, meta, lists) && BlocksDisjoint(lists)
    requires o <= MAX_ORDER && p <= MAX_ORDER && (o, m) != (p, n)
    requires Follow(meta, heads[o], m).Some?
    ensures Follow(meta, heads[o], m) != Follow(meta, heads[p], n)
    ensures Follow(meta, heads[o], |lists[o]|) == None
  {
    FollowVisits(heads, meta, lists, o, 0, m);
    FollowVisits(heads, meta, lists, p, 0, n);
    FollowVisits(heads, meta, lists, o, 0, |lists[o]|);
    if Follow(meta, heads[o], m) == Follow(meta, heads[p], n) {
      assert CoveredBy(lists, o, m, lists[o][m]) && CoveredBy(lists, p, n, lists[o][m]);
    }
  }
}
