/** How addresses select table entries (kernel/src/paging/page_table.rs, lines 48-60). A page of
    level `l` spans 4 KiB, 2 MiB, 1 GiB, 512 GiB or the whole 256 TiB space. */
module Addresses {
  import opened Prelude

  /** Bytes covered by one entry of a table of level `l`. */
  function Span(l: nat): (n: nat)
    requires 1 <= l <= 5
    ensures n > 0
  {
    match l
    case 1 => 0x1000
    case 2 => 0x20_0000
    case 3 => 0x4000_0000
    case 4 => 0x80_0000_0000
    case _ => 0x1_0000_0000_0000
  }

  /** `calculate_index`: shift by `9 * l + 3`, keep nine bits. */
  function Index(l: nat, v: nat): (i: nat)
    requires 1 <= l <= 4
    ensures i < 512
  {
    (v / Span(l)) % 512
  }

  /** `x` and `v` select the same entries from level `l` down to level `k`. */
  ghost predicate SamePage(k: nat, l: nat, v: nat, x: nat)
    requires 1 <= k && l <= 4
  {
    forall j :: k <= j <= l ==> Index(j, x) == Index(j, v)
  }

  /** Each index is the next nine bits of the address. */
  lemma Digits(k: nat, v: nat)
    requires 1 <= k <= 4
    ensures v / Span(k) == 512 * (v / Span(k + 1)) + Index(k, v)
  {
    match k
    case 1 => assert v / 0x20_0000 == v / 0x1000 / 512;
    case 2 => assert v / 0x4000_0000 == v / 0x20_0000 / 512;
    case 3 => assert v / 0x80_0000_0000 == v / 0x4000_0000 / 512;
    case 4 => assert v / 0x1_0000_0000_0000 == v / 0x80_0000_0000 / 512;
  }

  /** Two addresses in the window of a level-`l` table lie in the same page of level `k` exactly
      when they select the same entries. */
  lemma {:induction false} SamePageIff(k: nat, l: nat, v: nat, x: nat)
    requires 1 <= k <= l <= 4 && v / Span(l + 1) == x / Span(l + 1)
    ensures SamePage(k, l, v, x) <==> v / Span(k) == x / Span(k)
    decreases l - k
  {
    Digits(k, v);
    Digits(k, x);
    if k < l {
      SamePageIff(k + 1, l, v, x);
    }
  }

  /** The byte `y` into the page of level `k` that holds `v`. */
  function ByteOf(k: nat, v: nat, y: nat): (x: nat)
    requires 1 <= k <= 4
  {
    v / Span(k) * Span(k) + y
  }

  lemma DivSpan(k: nat, n: nat, r: nat)
    requires 1 <= k <= 4 && r < Span(k)
    ensures (n * Span(k) + r) / Span(k) == n
  {
    match k
    case 1 => assert (n * 0x1000 + r) / 0x1000 == n;
    case 2 => assert (n * 0x20_0000 + r) / 0x20_0000 == n;
    case 3 => assert (n * 0x4000_0000 + r) / 0x4000_0000 == n;
    case 4 => assert (n * 0x80_0000_0000 + r) / 0x80_0000_0000 == n;
  }

  lemma {:induction false} ByteOfUp(k: nat, v: nat, y: nat, j: nat)
    requires 1 <= k <= j <= 5 && k <= 4 && y < Span(k)
    ensures ByteOf(k, v, y) / Span(j) == v / Span(j)
    decreases j
  {
    if j == k {
      DivSpan(k, v / Span(k), y);
    } else {
      ByteOfUp(k, v, y, j - 1);
      Digits(j - 1, v);
      Digits(j - 1, ByteOf(k, v, y));
    }
  }

  /** `Span(k)` in units of `512 * Span(j)`. */
  function Ratio(k: nat, j: nat): (c: nat)
    requires 1 <= j < k <= 4
    ensures Span(k) == 512 * c * Span(j)
  {
    if k == j + 1 then 1 else if k == j + 2 then 512 else 0x4_0000
  }

  lemma ByteOfDown(k: nat, v: nat, y: nat, j: nat)
    requires 1 <= j < k <= 4 && y < Span(k)
    ensures Index(j, ByteOf(k, v, y)) == Index(j, y)
  {
    hide Span, Ratio;
    var n := v / Span(k) * Ratio(k, j);
    var high, low := y / Span(j), y % Span(j);
    Regroup(v / Span(k), Ratio(k, j), Span(j));
    Distribute(512 * n, high, Span(j));
    assert ByteOf(k, v, y) == (512 * n + high) * Span(j) + low;
    DivSpan(j, 512 * n + high, low);
    LowDigit(n, high);
  }

  lemma LowDigit(n: nat, r: nat)
    ensures (512 * n + r) % 512 == r % 512
  {
  }

  /** The indices below level `k` are those of the offset into the page. */
  lemma LowBits(k: nat, v: nat, j: nat)
    requires 1 <= j < k <= 4
    ensures Index(j, v % Span(k)) == Index(j, v)
  {
    assert ByteOf(k, v, v % Span(k)) == v;
    ByteOfDown(k, v, v % Span(k), j);
  }

  lemma Regroup(q: nat, c: nat, s: nat)
    ensures q * (512 * c * s) == 512 * (q * c) * s
  {
  }

  /** Addresses whose top bits repeat bit 47, as `Page::new` demands. */
  predicate Canonical(v: nat) {
    v < 0x8000_0000_0000 || 0xffff_8000_0000_0000 <= v < 0x1_0000_0000_0000_0000
  }

  /** `v` and `x` are told apart by the indices of a level-`l` root: for the top level both are
      canonical, for a lower one both lie in the part of the space the root serves. */
  predicate SameWindow(l: nat, v: nat, x: nat)
    requires 1 <= l <= 4
  {
    if l == 4 then Canonical(v) && Canonical(x) else v / Span(l + 1) == x / Span(l + 1)
  }

  /** Within a window, selecting the same entries down to level `k` is lying in the same page. */
  lemma SamePageIsSameNumber(k: nat, l: nat, v: nat, x: nat)
    requires 1 <= k <= l <= 4 && SameWindow(l, v, x)
    ensures SamePage(k, l, v, x) <==> v / Span(k) == x / Span(k)
  {
    if v / Span(l + 1) == x / Span(l + 1) {
      SamePageIff(k, l, v, x);
    } else {
      HalvesDiffer(v, x);
      if v / Span(k) == x / Span(k) { SameUp(k, v, x, 4); }
    }
  }

  /** Addresses in the same page of level `k` select the same entry of every level from `k` up. */
  lemma {:induction false} SameUp(k: nat, v: nat, x: nat, j: nat)
    requires 1 <= k <= j <= 4 && v / Span(k) == x / Span(k)
    ensures v / Span(j) == x / Span(j) && Index(j, v) == Index(j, x)
    decreases j
  {
    if j > k {
      SameUp(k, v, x, j - 1);
      Digits(j - 1, v);
      Digits(j - 1, x);
    }
  }

  /** The two canonical halves use different halves of the top table. */
  lemma HalvesDiffer(v: nat, x: nat)
    requires Canonical(v) && Canonical(x) && v / Span(5) != x / Span(5)
    ensures Index(4, v) != Index(4, x)
  {
    Digits(4, v);
    Digits(4, x);
  }
}
