/** Splitting a physical range into aligned pages of three sizes (kernel/src/paging/page.rs). */
module Chunks {
  import opened Prelude
  import opened Addresses

  /** `count` consecutive pages of level `k` from byte address `base`. */
  datatype PageRange = PageRange(base: nat, count: nat)

  const EMPTY_RANGE := PageRange(0, 0)

  datatype Chunked = Chunked(s4kb: PageRange, s2mb: PageRange, gb: PageRange, e2mb: PageRange, e4kb: PageRange)

  /** The range is exactly the bytes `[lo, hi)`, as whole aligned pages. */
  ghost predicate Exactly(r: PageRange, k: nat, lo: nat, hi: nat)
    requires 1 <= k <= 3
  {
    if lo == hi then r.count == 0
    else r.base == lo && lo % Span(k) == 0 && lo + r.count * Span(k) == hi
  }

  /** The five ranges lie end to end from `start` to `end`, cut at `a`, `b`, `c` and `d`. */
  ghost predicate EndToEnd(p: Chunked, start: nat, end: nat, a: nat, b: nat, c: nat, d: nat) {
    && start <= a <= b <= c <= d <= end
    && Exactly(p.s4kb, 1, start, a)
    && Exactly(p.s2mb, 2, a, b)
    && Exactly(p.gb, 3, b, c)
    && Exactly(p.e2mb, 2, c, d)
    && Exactly(p.e4kb, 1, d, end)
  }

  /** The start of the `n`-th block of level `k`. */
  function BlockStart(k: nat, n: nat): (x: nat)
    requires 1 <= k <= 3
  {
    n * Span(k)
  }

  /** Every whole aligned block of level `k` inside `[start, end)` lies inside `[lo, hi)`. */
  ghost predicate HoldsBlocks(k: nat, start: nat, end: nat, lo: nat, hi: nat)
    requires 1 <= k <= 3
  {
    forall n: nat :: start <= BlockStart(k, n) && BlockStart(k, n) + Span(k) <= end ==>
                       lo <= BlockStart(k, n) && BlockStart(k, n) + Span(k) <= hi
  }

  /** `x & (size - 1)` for a page of level `k`. */
  function Rem(k: nat, x: nat): (r: nat)
    requires 1 <= k <= 3
    ensures r <= x && r < Span(k)
  {
    x % Span(k)
  }

  /** Whole pages of level `k` in `n` bytes. */
  function Whole(k: nat, n: nat): (r: nat)
    requires 1 <= k <= 3
  {
    n / Span(k)
  }

  /** The first multiple of `Span(k + 1)` from `lo` on, cut off at `hi`. */
  function CutUp(k: nat, lo: nat, hi: nat): (a: nat)
    requires 1 <= k <= 2 && lo <= hi
    ensures lo <= a <= hi
  {
    if Rem(k + 1, lo) > 0 then Min(lo - Rem(k + 1, lo) + Span(k + 1), hi) else lo
  }

  /** The last multiple of `Span(k + 1)` up to `hi`, but not before `lo`. */
  function CutDown(k: nat, lo: nat, hi: nat): (d: nat)
    requires 1 <= k <= 2 && lo <= hi
    ensures lo <= d <= hi
  {
    if Rem(k + 1, hi) > 0 && lo != hi then Max(hi - Rem(k + 1, hi), lo) else hi
  }

  /** A multiple of the small page, in units of the small page: 512 of them make the big one. */
  lemma Units(k: nat, n: nat)
    requires 1 <= k <= 2
    ensures n * Span(k) / Span(k) == n && n * Span(k) % Span(k) == 0
    ensures n * Span(k) % Span(k + 1) == n % 512 * Span(k)
  {
    hide Span;
    var q, r := n / 512, n % 512;
    DivSpan(k, n, 0);
    ModSpan(k, n, 0);
    BiggerSpan(k, r);
    Regroup(q, 1, Span(k));
    Distribute(512 * q, r, Span(k));
    ModSpan(k + 1, q, r * Span(k));
  }

  lemma ModSpan(k: nat, n: nat, r: nat)
    requires 1 <= k <= 4 && r < Span(k)
    ensures (n * Span(k) + r) % Span(k) == r
  {
    hide Span;
    DivSpan(k, n, r);
  }

  lemma BiggerSpan(k: nat, r: nat)
    requires 1 <= k <= 3 && r < 512
    ensures Span(k + 1) == 512 * Span(k) && r * Span(k) < Span(k + 1)
  {
  }

  lemma CutUpExact(k: nat, lo: nat, hi: nat)
    requires 1 <= k <= 2 && lo <= hi && lo % Span(k) == 0 && hi % Span(k) == 0
    ensures var a := CutUp(k, lo, hi);
            && Exactly(PageRange(lo, Whole(k, a - lo)), k, lo, a)
            && a % Span(k) == 0 && (a == hi || a % Span(k + 1) == 0)
  {
    hide CutUp, Exactly, Span;
    var n, m := lo / Span(k), hi / Span(k);
    var u := if n % 512 > 0 then Min(n - n % 512 + 512, m) else n;
    Order(lo, hi, Span(k));
    CutUpUnits(k, n, m);
    InUnits(k, n, u);
  }

  lemma CutDownExact(k: nat, lo: nat, hi: nat)
    requires 1 <= k <= 2 && lo <= hi && lo % Span(k) == 0 && hi % Span(k) == 0
    ensures var d := CutDown(k, lo, hi);
            && Exactly(PageRange(d, Whole(k, hi - d)), k, d, hi)
            && d % Span(k) == 0 && (lo == d || d % Span(k + 1) == 0)
  {
    hide CutDown, Exactly, Span, Max, Whole;
    var n, m := lo / Span(k), hi / Span(k);
    var u := if m % 512 > 0 && n != m then Max(m - m % 512, n) else m;
    Order(lo, hi, Span(k));
    CutDownUnits(k, n, m);
    DownTo(n, m);
    InUnits(k, u, m);
  }

  lemma DownTo(n: nat, m: nat)
    requires n <= m
    ensures var u := if m % 512 > 0 && n != m then Max(m - m % 512, n) else m;
            n <= u <= m && (u == n || u % 512 == 0)
  {
  }

  lemma Order(lo: nat, hi: nat, unit: nat)
    requires unit > 0 && lo <= hi && lo % unit == 0 && hi % unit == 0
    ensures lo == lo / unit * unit && hi == hi / unit * unit && lo / unit <= hi / unit
  {
    if lo / unit > hi / unit { Spread(unit, lo / unit, hi / unit); }
  }

  /** In units of the small page the cut is the next multiple of 512. */
  lemma CutUpUnits(k: nat, n: nat, m: nat)
    requires 1 <= k <= 2 && n <= m
    ensures n * Span(k) <= m * Span(k)
    ensures CutUp(k, n * Span(k), m * Span(k)) ==
            (if n % 512 > 0 then Min(n - n % 512 + 512, m) else n) * Span(k)
  {
    Units(k, n);
    CutScaled(Span(k), n, m);
    CutScaled(Span(k), n - n % 512 + 512, m);
  }

  lemma CutDownUnits(k: nat, n: nat, m: nat)
    requires 1 <= k <= 2 && n <= m
    ensures n * Span(k) <= m * Span(k)
    ensures CutDown(k, n * Span(k), m * Span(k)) ==
            (if m % 512 > 0 && n != m then Max(m - m % 512, n) else m) * Span(k)
  {
    Units(k, m);
    CutScaled(Span(k), m, n);
    CutScaled(Span(k), n, m);
    CutScaled(Span(k), n, m - m % 512);
    CutScaled(Span(k), m - m % 512, n);
  }

  lemma InUnits(k: nat, n: nat, u: nat)
    requires 1 <= k <= 2 && n <= u
    ensures n * Span(k) <= u * Span(k)
    ensures Exactly(PageRange(n * Span(k), Whole(k, u * Span(k) - n * Span(k))), k, n * Span(k), u * Span(k))
    ensures u * Span(k) % Span(k) == 0 && n * Span(k) % Span(k) == 0
    ensures u % 512 == 0 ==> u * Span(k) % Span(k + 1) == 0
    ensures n % 512 == 0 ==> n * Span(k) % Span(k + 1) == 0
  {
    Units(k, n);
    Units(k, u);
    Units(k, u - n);
    Spread(Span(k), u, n);
  }

  lemma Spread(unit: nat, a: nat, b: nat)
    requires b <= a
    ensures a * unit - b * unit == (a - b) * unit
  {
  }

  lemma CutScaled(unit: nat, n: nat, m: nat)
    requires unit == 0x1000 || unit == 0x20_0000
    ensures n % 512 > 0 <==> n % 512 * unit > 0
    ensures n * unit - n % 512 * unit + 512 * unit == (n - n % 512 + 512) * unit
    ensures m * unit - m % 512 * unit == (m - m % 512) * unit
    ensures n <= m <==> n * unit <= m * unit
  {
  }

  /** Cutting off the ends touches no whole big block. */
  lemma CutKeepsBlocks(k: nat, lo: nat, hi: nat)
    requires 1 <= k <= 2 && lo <= hi
    ensures HoldsBlocks(k + 1, lo, hi, CutUp(k, lo, hi), hi)
    ensures HoldsBlocks(k + 1, lo, hi, lo, CutDown(k, lo, hi))
  {
    var big := k + 1;
    forall n: nat | lo <= BlockStart(big, n) && BlockStart(big, n) + Span(big) <= hi
      ensures CutUp(k, lo, hi) <= BlockStart(big, n)
      ensures BlockStart(big, n) + Span(big) <= CutDown(k, lo, hi)
    {
      BlockAbove(big, lo, n);
      BlockBelow(big, hi, n);
    }
  }

  lemma BlockAbove(k: nat, lo: nat, n: nat)
    requires 2 <= k <= 3 && lo <= BlockStart(k, n)
    ensures lo % Span(k) > 0 ==> lo - lo % Span(k) + Span(k) <= BlockStart(k, n)
  {
    if k == 2 { assert lo / 0x20_0000 <= n; } else { assert lo / 0x4000_0000 <= n; }
  }

  lemma BlockBelow(k: nat, hi: nat, n: nat)
    requires 2 <= k <= 3 && BlockStart(k, n) + Span(k) <= hi
    ensures BlockStart(k, n) + Span(k) <= hi - hi % Span(k)
  {
    if k == 2 { assert n + 1 <= hi / 0x20_0000; } else { assert n + 1 <= hi / 0x4000_0000; }
  }

  lemma HoldsBlocksTrans(k: nat, start: nat, end: nat, lo: nat, hi: nat, lo': nat, hi': nat)
    requires 1 <= k <= 3 && HoldsBlocks(k, start, end, lo, hi) && HoldsBlocks(k, lo, hi, lo', hi')
    ensures HoldsBlocks(k, start, end, lo', hi')
  {
  }

  /** A 1 GiB block is made of whole 2 MiB blocks. */
  lemma BlocksOfBlocks(start: nat, end: nat, lo: nat, hi: nat)
    requires HoldsBlocks(2, start, end, lo, hi)
    ensures HoldsBlocks(3, start, end, lo, hi)
  {
    forall n: nat | start <= BlockStart(3, n) && BlockStart(3, n) + Span(3) <= end
      ensures lo <= BlockStart(3, n) && BlockStart(3, n) + Span(3) <= hi
    {
      assert BlockStart(3, n) == BlockStart(2, 512 * n);
      assert BlockStart(3, n) + Span(3) == BlockStart(2, 512 * n + 511) + Span(2);
    }
  }

  /** What lies between two multiples of 1 GiB is whole 1 GiB pages. */
  lemma WholeBlocks(b: nat, c: nat, d: nat)
    requires b <= c <= d && (b == d || b % Span(3) == 0) && (b == c || c % Span(3) == 0)
    ensures Exactly(PageRange(b, Whole(3, c - b)), 3, b, c)
  {
    if b < c {
      assert (c - b) % 0x4000_0000 == 0;
    }
  }

  lemma NothingLeftToCut(a: nat)
    ensures CutUp(2, a, a) == a && CutDown(2, a, a) == a
    ensures Exactly(PageRange(a, Whole(2, a - a)), 2, a, a) && Exactly(PageRange(a, Whole(3, a - a)), 3, a, a)
  {
  }

  /** The four cut points: whole 2 MiB blocks lie between `a` and `d`, whole 1 GiB blocks between
      `b` and `c`, and every part is made of whole pages of its size. */
  lemma CutsCorrect(start: nat, end: nat)
    requires start % 0x1000 == 0 && end % 0x1000 == 0 && start <= end
    ensures var a := CutUp(1, start, end);
            var d := CutDown(1, a, end);
            var b := CutUp(2, a, d);
            var c := CutDown(2, b, d);
            && Exactly(PageRange(start, Whole(1, a - start)), 1, start, a)
            && Exactly(PageRange(d, Whole(1, end - d)), 1, d, end)
            && Exactly(PageRange(a, Whole(2, b - a)), 2, a, b)
            && Exactly(PageRange(c, Whole(2, d - c)), 2, c, d)
            && Exactly(PageRange(b, Whole(3, c - b)), 3, b, c)
            && HoldsBlocks(2, start, end, a, d)
            && HoldsBlocks(3, start, end, b, c)
  {
    hide CutUp, CutDown, HoldsBlocks, Exactly, Whole, Rem;
    var a := CutUp(1, start, end);
    CutUpExact(1, start, end);
    var d := CutDown(1, a, end);
    CutDownExact(1, a, end);
    var b := CutUp(2, a, d);
    var c := CutDown(2, b, d);
    if a < d {
      CutUpExact(2, a, d);
      CutDownExact(2, b, d);
      WholeBlocks(b, c, d);
    } else {
      NothingLeftToCut(a);
    }
    CutKeepsBlocks(1, start, end);
    CutKeepsBlocks(1, a, end);
    HoldsBlocksTrans(2, start, end, a, end, a, d);
    BlocksOfBlocks(start, end, a, d);
    CutKeepsBlocks(2, a, d);
    CutKeepsBlocks(2, b, d);
    HoldsBlocksTrans(3, start, end, a, d, b, d);
    HoldsBlocksTrans(3, start, end, b, d, b, c);
  }

  lemma Adopt(r: PageRange, k: nat, lo: nat, hi: nat)
    requires 1 <= k <= 3 && lo <= hi && Exactly(PageRange(lo, Whole(k, hi - lo)), k, lo, hi)
    requires r == PageRange(lo, Whole(k, hi - lo)) || (lo == hi && r.count == 0)
    ensures Exactly(r, k, lo, hi)
  {
  }

  /** One of the two normalizing stages: cut both ends of `[start, end)` back to multiples of the
      next larger page, covering what is cut off with pages of level `k`. */
  method Normalize(k: nat, start: nat, end: nat) returns (s: PageRange, e: PageRange, from: nat, to: nat)
    requires 1 <= k <= 2 && start <= end
    ensures from == CutUp(k, start, end) && to == CutDown(k, from, end)
    ensures s == PageRange(start, Whole(k, from - start)) || (start == from && s.count == 0)
    ensures e == PageRange(to, Whole(k, end - to)) || (to == end && e.count == 0)
  {
    hide Rem, Whole, Span;
    from, to, s, e := start, end, EMPTY_RANGE, EMPTY_RANGE;
    if Rem(k + 1, from) > 0 && (k == 1 || from != to) {
      var newStart := Min(from - Rem(k + 1, from) + Span(k + 1), to);
      s := PageRange(from, Whole(k, newStart - from));
      from := newStart;
    }
    if Rem(k + 1, to) > 0 && from != to {
      var newEnd := Max(to - Rem(k + 1, to), from);
      e := PageRange(newEnd, Whole(k, to - newEnd));
      to := newEnd;
    }
  }

  /** `get_chunked_page_range`: the ranges partition `[start, end)`, and no whole 2 MiB block is cut
      into 4 KiB pages, nor a whole 1 GiB block into 2 MiB pages. */
  method GetChunkedPageRange(start: nat, end: nat) returns (p: Chunked)
    requires start % 0x1000 == 0 && end % 0x1000 == 0 && start <= end
    ensures exists a: nat, b: nat, c: nat, d: nat ::
      && EndToEnd(p, start, end, a, b, c, d)
      && HoldsBlocks(2, start, end, a, d)
      && HoldsBlocks(3, start, end, b, c)
  {
    hide HoldsBlocks, Exactly, CutUp, CutDown, Whole;
    CutsCorrect(start, end);
    var s4kb, e4kb, from, to := Normalize(1, start, end);
    Adopt(s4kb, 1, start, from);
    Adopt(e4kb, 1, to, end);
    var s2mb, e2mb, first, last := Normalize(2, from, to);
    Adopt(s2mb, 2, from, first);
    Adopt(e2mb, 2, last, to);
    var gb := EMPTY_RANGE;
    if first < last && first != last {
      gb := PageRange(first, Whole(3, last - first));
    }
    Adopt(gb, 3, first, last);
    p := Chunked(s4kb, s2mb, gb, e2mb, e4kb);
    assert EndToEnd(p, start, end, from, first, last, to);
  }

  function Min(x: nat, y: nat): (r: nat) { if x < y then x else y }

  function Max(x: nat, y: nat): (r: nat) { if x < y then y else x }
}
