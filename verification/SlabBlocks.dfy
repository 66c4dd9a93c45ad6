/**
 The blocks of the kernel heap as values: sizes, alignment, what overlaps what, and the
 free lists of the nine slab sizes (kernel/src/allocator/slab_allocator.rs).
 */
module SlabBlocks {
  import opened Prelude
  import opened HeapPages

  const SLAB_SIZES: seq<nat> := [8, 16, 32, 64, 128, 256, 512, 1024, 2048]

  /** `block_size`: the first slab size, from index `i` on, that is large enough. */
  function Position(min: nat, i: nat): (r: Option<nat>)
    requires i <= 9
    ensures r.Some? ==> i <= r.value < 9 && SLAB_SIZES[r.value] >= min
    ensures r.Some? ==> forall j :: i <= j < r.value ==> SLAB_SIZES[j] < min
    ensures r.None? ==> forall j :: i <= j < 9 ==> SLAB_SIZES[j] < min
    decreases 9 - i
  {
    if i == 9 then None else if SLAB_SIZES[i] >= min then Some(i) else Position(min, i + 1)
  }

  datatype Layout = Layout(size: nat, align: nat)

  /** What `Layout` guarantees: the alignment is a power of two. */
  ghost predicate LayoutOk(l: Layout) {
    exists j: nat :: l.align == Pow2(j)
  }

  function MinSize(l: Layout): (n: nat) {
    if l.size >= l.align then l.size else l.align
  }

  /** `(n + 0xFFF) & !0xFFF`. */
  function RoundUp(n: nat): (r: nat)
    ensures n <= r < n + PAGE && r % PAGE == 0
  {
    (n + 0xfff) / 0x1000 * 0x1000
  }

  /** Length of the block that serves a request for `min` bytes. */
  function BlockLength(min: nat): (n: nat)
    ensures n >= min
  {
    var i := Position(min, 0);
    if i.Some? then SLAB_SIZES[i.value] else RoundUp(min)
  }

  /** `n` bytes hold the layout, and no less: the smallest slab size that holds its size and its alignment, or else the
      fewest whole pages. */
  ghost predicate Tight(l: Layout, n: nat) {
    && l.size <= n && l.align <= n
    && (forall i :: 0 <= i < 9 && l.size <= SLAB_SIZES[i] && l.align <= SLAB_SIZES[i] ==> n <= SLAB_SIZES[i])
    && (Small(n) || (n % PAGE == 0 && (n < l.size + PAGE || n < l.align + PAGE)))
  }

  lemma BlockIsTight(l: Layout)
    ensures Tight(l, BlockLength(MinSize(l)))
  {
    var i := Position(MinSize(l), 0);
    if i.Some? {
      assert SLAB_SIZES[i.value] in SLAB_SIZES;
      forall j | 0 <= j < 9 && MinSize(l) <= SLAB_SIZES[j]
        ensures SLAB_SIZES[i.value] <= SLAB_SIZES[j]
      {
        assert j >= i.value;
      }
    }
  }

  predicate Aligned(a: nat, align: nat) {
    align > 0 && a % align == 0
  }

  predicate Small(n: nat) {
    n in SLAB_SIZES
  }

  /** Small blocks are multiples of their size; the others are whole pages. */
  predicate BlockOk(a: nat, n: nat) {
    if Small(n) then a % n == 0 else n > 0 && n % PAGE == 0 && a % PAGE == 0
  }

  /** The page at `v` holds a byte of the block of `n` bytes at `a`. */
  predicate Touches(a: nat, n: nat, v: nat) {
    v % PAGE == 0 && v < a + n && a < v + PAGE
  }

  predicate Apart(a: nat, n: nat, b: nat, k: nat) {
    a + n <= b || b + k <= a
  }

  /** Blocks, by address: well placed below `base`, and no two overlap. */
  ghost predicate BlocksOk(blocks: map<nat, nat>, base: nat) {
    && (forall a :: a in blocks ==> BlockOk(a, blocks[a]) && HEAP <= a && a + blocks[a] <= base)
    && forall a, b :: a in blocks && b in blocks && a != b ==> Apart(a, blocks[a], b, blocks[b])
  }

  /** Every page under a block is mapped, and no page at `base` or above is. */
  ghost predicate Backed(blocks: map<nat, nat>, owned: map<nat, nat>, base: nat) {
    && (forall a, v :: a in blocks && Touches(a, blocks[a], v) ==> v in owned)
    && forall v :: v in owned ==> v < base
  }

  // ---------------------------------------------------------------------------
  // Sizes and alignment
  // ---------------------------------------------------------------------------

  lemma SlabSizesArePowers(i: nat)
    requires i < 9
    ensures SLAB_SIZES[i] == Pow2(i + 3)
  {
    assert Pow2(3) == 8 && Pow2(4) == 16 && Pow2(5) == 32;
    assert Pow2(6) == 64 && Pow2(7) == 128 && Pow2(8) == 256;
    assert Pow2(9) == 512 && Pow2(10) == 1024 && Pow2(11) == 2048;
  }

  lemma {:induction false} Pow2Divides(j: nat, k: nat, a: nat)
    requires j <= k && a % Pow2(k) == 0
    ensures a % Pow2(j) == 0
  {
    if j < k {
      HalfDivides(Pow2(k - 1), a);
      Pow2Divides(j, k - 1, a);
    }
  }

  lemma HalfDivides(d: nat, a: nat)
    requires d > 0 && a % (2 * d) == 0
    ensures a % d == 0
  {
    var q := a / (2 * d);
    assert a == 2 * d * q == d * (2 * q);
    MultipleOf(d, 2 * q);
  }

  lemma MultipleOf(d: nat, q: nat)
    requires d > 0
    ensures (d * q) % d == 0
  {
    var m := d * q;
    var k := q - m / d;
    assert d * k == m % d by { Spread(d, q, m / d); }
    if k >= 1 { Grows(d, k); }
    if k <= -1 { Grows(d, -k); }
  }

  /** Multiples of `d` are at least `d` apart. */
  lemma MultiplesApart(x: nat, y: nat, d: nat)
    requires d > 0 && x % d == 0 && y % d == 0 && x < y
    ensures x + d <= y
  {
    var k := y / d - x / d;
    assert d * k == y - x by { Spread(d, y / d, x / d); }
    if k >= 1 { Grows(d, k); }
    if k <= 0 { Grows(d, 1 - k); Spread(d, 1, k); }
  }

  lemma NextMultiple(x: nat, d: nat)
    requires d > 0 && x % d == 0
    ensures (x + d) % d == 0
  {
    assert x + d == d * (x / d + 1);
    MultipleOf(d, x / d + 1);
  }

  lemma Spread(d: nat, x: int, y: int)
    ensures d * (x - y) == d * x - d * y
  {
  }

  lemma Grows(d: nat, k: int)
    requires k >= 1
    ensures d * k >= d && d * -k == -(d * k)
  {
  }

  lemma Pow2Less(j: nat, k: nat)
    requires Pow2(j) <= Pow2(k)
    ensures j <= k
  {
    if k < j {
      Pow2Mono(k + 1, j);
    }
  }

  lemma PowerAligned(j: nat, k: nat, a: nat)
    requires j <= k && Aligned(a, Pow2(k))
    ensures Aligned(a, Pow2(j))
  {
    hide Pow2;
    Pow2Divides(j, k, a);
  }

  /** A block lies at a multiple of a power of two that is as large as the request, or a page. */
  lemma BlockPower(a: nat, min: nat) returns (e: nat)
    requires BlockOk(a, BlockLength(min))
    ensures Aligned(a, Pow2(e)) && (Pow2(e) >= min || Pow2(e) == PAGE)
  {
    var i := Position(min, 0);
    if i.Some? {
      e := i.value + 3;
      SlabSizesArePowers(i.value);
    } else {
      e := 12;
      LargeLength(min);
      assert Pow2(12) == PAGE;
    }
  }

  /** A block is aligned for every layout it serves, as long as the alignment is at most a page. */
  lemma BlockAligned(l: Layout, a: nat)
    requires LayoutOk(l) && BlockOk(a, BlockLength(MinSize(l))) && l.align <= PAGE
    ensures Aligned(a, l.align)
  {
    hide Pow2, BlockLength, BlockOk, Position, Aligned;
    var j: nat :| l.align == Pow2(j);
    var e := BlockPower(a, MinSize(l));
    Pow2Less(j, e);
    PowerAligned(j, e, a);
  }

  /** A request that no slab size serves gets a block of whole pages. */
  lemma LargeLength(min: nat)
    requires Position(min, 0).None?
    ensures BlockLength(min) == RoundUp(min) && !Small(RoundUp(min)) && RoundUp(min) >= PAGE
  {
    assert SLAB_SIZES[8] < min;
  }

  /** Layouts of a word, and of a byte aligned to two pages. */
  lemma SomeLayouts()
    ensures LayoutOk(Layout(8, 8)) && MinSize(Layout(8, 8)) == 8 && Position(8, 0) == Some(0) && RoundUp(8) == PAGE
    ensures LayoutOk(Layout(1, 0x2000)) && MinSize(Layout(1, 0x2000)) == 0x2000 && RoundUp(0x2000) == 0x2000
    ensures !Aligned(HEAP + PAGE, 0x2000)
  {
    assert Pow2(3) == 8 && Pow2(13) == 0x2000;
  }

  /** Pages begin at multiples of every slab size. */
  lemma PageIsMultiple(v: nat, n: nat)
    requires Small(n) && v % PAGE == 0
    ensures n > 0 && v % n == 0
  {
    var i: nat :| i < 9 && SLAB_SIZES[i] == n;
    SlabSizesArePowers(i);
    assert Pow2(12) == PAGE;
    Pow2Divides(i + 3, 12, v);
  }

  // ---------------------------------------------------------------------------
  // Free lists
  // ---------------------------------------------------------------------------

  /** The block after position `k` of a list; 0 is no block. */
  function After(list: seq<nat>, k: nat): (a: nat) {
    if k < |list| then list[k] else 0
  }

  /** The list nodes in memory chain the blocks of `list` together, starting at `head`. */
  ghost predicate Chain(next: map<nat, nat>, head: nat, list: seq<nat>) {
    && head == After(list, 0)
    && forall k: nat :: k < |list| ==> list[k] > 0 && list[k] in next && next[list[k]] == After(list, k + 1)
  }

  ghost predicate Distinct(list: seq<nat>) {
    forall i, j :: 0 <= i < j < |list| ==> list[i] != list[j]
  }

  /** Everything on the list of one size is a block of that size that is not in use. */
  ghost predicate ListHolds(list: seq<nat>, size: nat, blocks: map<nat, nat>, live: set<nat>) {
    Distinct(list) && forall a :: a in list ==> a in blocks && blocks[a] == size && a !in live
  }

  ghost predicate OnList(lists: seq<seq<nat>>, a: nat, n: nat) {
    exists i :: 0 <= i < |lists| && i < 9 && SLAB_SIZES[i] == n && a in lists[i]
  }

  /** Every block is in use or on the list of its size, never both. */
  ghost predicate ListsOk(lists: seq<seq<nat>>, blocks: map<nat, nat>, live: set<nat>) {
    && |lists| == 9 && live <= blocks.Keys
    && (forall i :: 0 <= i < 9 ==> ListHolds(lists[i], SLAB_SIZES[i], blocks, live))
    && forall a :: a in blocks && a !in live ==> OnList(lists, a, blocks[a])
  }

  ghost predicate ChainsOk(next: map<nat, nat>, heads: seq<nat>, lists: seq<seq<nat>>) {
    |heads| == 9 && |lists| == 9 && forall i :: 0 <= i < 9 ==> Chain(next, heads[i], lists[i])
  }

  lemma SizesDiffer(i: nat, j: nat)
    requires i < 9 && j < 9 && SLAB_SIZES[i] == SLAB_SIZES[j]
    ensures i == j
  {
  }

  /** Taking the first block of a list into use. */
  lemma PopList(lists: seq<seq<nat>>, blocks: map<nat, nat>, live: set<nat>, i: nat)
    requires ListsOk(lists, blocks, live) && i < 9 && lists[i] != []
    ensures lists[i][0] in blocks && blocks[lists[i][0]] == SLAB_SIZES[i] && lists[i][0] !in live
    ensures ListsOk(lists[i := lists[i][1..]], blocks, live + {lists[i][0]})
  {
    var a, lists', live' := lists[i][0], lists[i := lists[i][1..]], live + {lists[i][0]};
    assert a in lists[i];
    forall j | 0 <= j < 9
      ensures ListHolds(lists'[j], SLAB_SIZES[j], blocks, live')
    {
      assert ListHolds(lists[j], SLAB_SIZES[j], blocks, live);
      if j != i && a in lists[j] { SizesDiffer(i, j); }
    }
    forall b | b in blocks && b !in live'
      ensures OnList(lists', b, blocks[b])
    {
      assert OnList(lists, b, blocks[b]);
      var j :| 0 <= j < 9 && SLAB_SIZES[j] == blocks[b] && b in lists[j];
      assert b in lists'[j];
    }
  }

  /** Putting a block in use back on the list of its size. */
  lemma PushList(lists: seq<seq<nat>>, blocks: map<nat, nat>, live: set<nat>, i: nat, a: nat)
    requires ListsOk(lists, blocks, live) && i < 9 && a in live && blocks[a] == SLAB_SIZES[i]
    ensures ListsOk(lists[i := [a] + lists[i]], blocks, live - {a})
  {
    var lists', live' := lists[i := [a] + lists[i]], live - {a};
    forall j | 0 <= j < 9
      ensures ListHolds(lists'[j], SLAB_SIZES[j], blocks, live')
    {
      assert ListHolds(lists[j], SLAB_SIZES[j], blocks, live);
    }
    forall b | b in blocks && b !in live'
      ensures OnList(lists', b, blocks[b])
    {
      if b == a {
        assert a in lists'[i];
      } else {
        assert OnList(lists, b, blocks[b]);
        var j :| 0 <= j < 9 && SLAB_SIZES[j] == blocks[b] && b in lists[j];
        assert b in lists'[j];
      }
    }
  }

  /** A list not holding `a` is not disturbed by writing the node at `a`. */
  lemma ChainFrame(next: map<nat, nat>, head: nat, list: seq<nat>, a: nat, to: nat)
    requires Chain(next, head, list) && a !in list
    ensures Chain(next[a := to], head, list)
  {
  }

  lemma ChainsPop(next: map<nat, nat>, heads: seq<nat>, lists: seq<seq<nat>>, blocks: map<nat, nat>, live: set<nat>, i: nat)
    requires ChainsOk(next, heads, lists) && ListsOk(lists, blocks, live) && i < 9 && lists[i] != []
    ensures heads[i] == lists[i][0] && heads[i] in next
    ensures ChainsOk(next[heads[i] := 0], heads[i := next[heads[i]]], lists[i := lists[i][1..]])
  {
    hide Chain, OnList;
    var a := heads[i];
    ChainPop(next, heads[i], lists[i]);
    assert ListHolds(lists[i], SLAB_SIZES[i], blocks, live);
    ChainFrame(next, next[a], lists[i][1..], a, 0);
    forall j | 0 <= j < 9 && j != i
      ensures Chain(next[a := 0], heads[j], lists[j])
    {
      assert ListHolds(lists[j], SLAB_SIZES[j], blocks, live);
      if a in lists[j] { SizesDiffer(i, j); }
      ChainFrame(next, heads[j], lists[j], a, 0);
    }
  }

  lemma ChainPop(next: map<nat, nat>, head: nat, list: seq<nat>)
    requires Chain(next, head, list) && list != []
    ensures head == list[0] && head in next && Chain(next, next[head], list[1..])
  {
    assert forall k: nat :: k < |list| ==> After(list[1..], k) == After(list, k + 1);
  }

  lemma ChainsPush(next: map<nat, nat>, heads: seq<nat>, lists: seq<seq<nat>>, blocks: map<nat, nat>, live: set<nat>, i: nat, a: nat)
    requires ChainsOk(next, heads, lists) && ListsOk(lists, blocks, live) && i < 9 && a in live && a > 0
    ensures ChainsOk(next[a := heads[i]], heads[i := a], lists[i := [a] + lists[i]])
  {
    hide Chain, OnList;
    forall j | 0 <= j < 9
      ensures Chain(next[a := heads[i]], heads[j], lists[j])
    {
      assert ListHolds(lists[j], SLAB_SIZES[j], blocks, live);
      ChainFrame(next, heads[j], lists[j], a, heads[i]);
    }
    ChainPush(next[a := heads[i]], heads[i], lists[i], a);
  }

  lemma ChainPush(next: map<nat, nat>, head: nat, list: seq<nat>, a: nat)
    requires Chain(next, head, list) && a > 0 && a in next && next[a] == head
    ensures Chain(next, a, [a] + list)
  {
    assert forall k: nat :: After([a] + list, k + 1) == After(list, k);
  }

  // ---------------------------------------------------------------------------
  // Carving a page into blocks
  // ---------------------------------------------------------------------------

  /** `made` are all multiples of `size` from `base` up to `end`, the last first. */
  ghost predicate Carved(made: seq<nat>, base: nat, end: nat, size: nat) {
    && (forall k :: 0 <= k < |made| ==> size > 0 && made[k] % size == 0 && base <= made[k] && made[k] + size <= end)
    && (forall j, k :: 0 <= j < k < |made| ==> made[k] + size <= made[j])
    && forall x: nat :: size > 0 && base <= x < end && x % size == 0 ==> x in made
  }

  lemma CarveOne(made: seq<nat>, base: nat, block: nat, size: nat)
    requires Carved(made, base, block, size) && size > 0 && block % size == 0 && base <= block
    ensures Carved([block] + made, base, block + size, size)
  {
    var made' := [block] + made;
    forall x: nat | base <= x < block + size && x % size == 0
      ensures x in made'
    {
      if x > block { MultiplesApart(block, x, size); }
    }
  }

  /** The blocks `made`, all of one size. */
  ghost function Uniform(made: seq<nat>, size: nat): (r: map<nat, nat>) {
    map a | a in made :: size
  }

  lemma AddCarved(blocks: map<nat, nat>, base: nat, made: seq<nat>, size: nat)
    requires BlocksOk(blocks, base) && Carved(made, base, base + PAGE, size) && Small(size) && HEAP <= base
    ensures BlocksOk(blocks + Uniform(made, size), base + PAGE)
    ensures forall a :: a in made ==> a !in blocks
  {
    hide BlockOk, Small, Carved;
    var blocks' := blocks + Uniform(made, size);
    forall a | a in made
      ensures BlockOk(a, size) && base <= a && a + size <= base + PAGE && a !in blocks
    {
      CarvedBlock(made, base, size, a);
      if a in blocks { LengthPositive(a, blocks[a]); }
    }
    forall a, b | a in blocks' && b in blocks' && a != b
      ensures Apart(a, blocks'[a], b, blocks'[b])
    {
      if a in made && b in made { CarvedApart(made, base, size, a, b); }
    }
  }

  lemma LengthPositive(a: nat, n: nat)
    requires BlockOk(a, n)
    ensures n > 0
  {
  }

  lemma CarvedBlock(made: seq<nat>, base: nat, size: nat, a: nat)
    requires Carved(made, base, base + PAGE, size) && Small(size) && a in made
    ensures BlockOk(a, size) && base <= a && a + size <= base + PAGE
  {
  }

  lemma CarvedApart(made: seq<nat>, base: nat, size: nat, a: nat, b: nat)
    requires Carved(made, base, base + PAGE, size) && a in made && b in made && a != b
    ensures Apart(a, size, b, size)
  {
    var j :| 0 <= j < |made| && made[j] == a;
    var k :| 0 <= k < |made| && made[k] == b;
  }

  lemma AddCarvedList(lists: seq<seq<nat>>, blocks: map<nat, nat>, live: set<nat>, i: nat, made: seq<nat>)
    requires ListsOk(lists, blocks, live) && i < 9 && lists[i] == []
    requires Distinct(made) && forall a :: a in made ==> a !in blocks
    ensures ListsOk(lists[i := made], blocks + Uniform(made, SLAB_SIZES[i]), live)
  {
    var lists', blocks' := lists[i := made], blocks + Uniform(made, SLAB_SIZES[i]);
    forall j | 0 <= j < 9
      ensures ListHolds(lists'[j], SLAB_SIZES[j], blocks', live)
    {
      assert ListHolds(lists[j], SLAB_SIZES[j], blocks, live);
    }
    forall b | b in blocks' && b !in live
      ensures OnList(lists', b, blocks'[b])
    {
      if b in made {
        assert b in lists'[i];
      } else {
        assert OnList(lists, b, blocks[b]);
        var j :| 0 <= j < 9 && SLAB_SIZES[j] == blocks[b] && b in lists[j];
        assert b in lists'[j];
      }
    }
  }

  lemma BackCarved(blocks: map<nat, nat>, owned: map<nat, nat>, base: nat, made: seq<nat>, size: nat, f: nat)
    requires Backed(blocks, owned, base) && base % PAGE == 0
    requires Carved(made, base, base + PAGE, size)
    ensures Backed(blocks + Uniform(made, size), owned[base := f], base + PAGE)
  {
    var blocks' := blocks + Uniform(made, size);
    forall a, v | a in blocks' && Touches(a, blocks'[a], v)
      ensures v in owned[base := f]
    {
      if a in made { OnlyPage(made, base, size, a, v); }
    }
  }

  /** Blocks carved from a page lie in that page. */
  lemma OnlyPage(made: seq<nat>, base: nat, size: nat, a: nat, v: nat)
    requires Carved(made, base, base + PAGE, size) && base % PAGE == 0 && a in made && Touches(a, size, v)
    ensures v == base
  {
    assert base <= a && a + size <= base + PAGE;
    SamePageBase(base, v);
  }

  lemma SamePageBase(base: nat, v: nat)
    requires base % PAGE == 0 && v % PAGE == 0 && v < base + PAGE && base < v + PAGE
    ensures v == base
  {
  }

  // ---------------------------------------------------------------------------
  // Blocks of whole pages
  // ---------------------------------------------------------------------------

  lemma AddLarge(blocks: map<nat, nat>, base: nat, n: nat)
    requires BlocksOk(blocks, base) && BlockOk(base, n) && HEAP <= base
    ensures base !in blocks && BlocksOk(blocks[base := n], base + n)
  {
  }

  lemma AddLargeList(lists: seq<seq<nat>>, blocks: map<nat, nat>, live: set<nat>, a: nat, n: nat)
    requires ListsOk(lists, blocks, live) && a !in blocks
    ensures ListsOk(lists, blocks[a := n], live + {a})
  {
    hide OnList;
    forall j | 0 <= j < 9
      ensures ListHolds(lists[j], SLAB_SIZES[j], blocks[a := n], live + {a})
    {
      assert ListHolds(lists[j], SLAB_SIZES[j], blocks, live);
    }
  }

  lemma RemoveLargeList(lists: seq<seq<nat>>, blocks: map<nat, nat>, live: set<nat>, a: nat)
    requires ListsOk(lists, blocks, live) && a in live
    ensures ListsOk(lists, blocks - {a}, live - {a})
  {
    hide OnList;
    forall j | 0 <= j < 9
      ensures ListHolds(lists[j], SLAB_SIZES[j], blocks - {a}, live - {a})
    {
      assert ListHolds(lists[j], SLAB_SIZES[j], blocks, live);
    }
  }

  /** The pages of a block of whole pages. */
  predicate PageOf(a: nat, n: nat, v: nat) {
    v % PAGE == 0 && a <= v < a + n
  }

  /** No other block has a byte in a page of a large block. */
  lemma LargeAlone(blocks: map<nat, nat>, base: nat, a: nat, b: nat, v: nat)
    requires BlocksOk(blocks, base) && a in blocks && !Small(blocks[a]) && b in blocks && b != a
    requires Touches(b, blocks[b], v)
    ensures !PageOf(a, blocks[a], v)
  {
  }
}
