/**
  The linked-list heap of src/allocator/linked_list.rs on values: which regions are free, which are
  live, and which bytes alignment has skipped.
*/
module HeapModel {
  import opened Options
  import opened Bytes
  import opened Alignment
  import opened Regions

  const NODE_SIZE := 16
  const NODE_ALIGN := 8
  const ISIZE_MAX := 0x7FFF_FFFF_FFFF_FFFF

  /** The rules of `core::alloc::Layout`. */
  predicate ValidLayout(l: Layout) {
    IsPow2(l.align) && l.align <= ISIZE_MAX + 1 && l.size <= ISIZE_MAX && AlignUp(l.size, l.align) <= ISIZE_MAX
  }

  // ---------------------------------------------------------------- size_align

  /** `size_align`; `None` is the panic of its `expect`. */
  function SizeAlign(l: Layout): Option<(nat, nat)>
    requires ValidLayout(l)
  {
    var align := if l.align < NODE_ALIGN then NODE_ALIGN else l.align;
    var size := AlignUp(l.size, align);
    if size > ISIZE_MAX then None else Some((if size < NODE_SIZE then NODE_SIZE else size, align))
  }

  /** An adjusted request: it can hold a node, and a region of it ends aligned for a node. */
  predicate Request(size: nat, align: nat) {
    && NODE_SIZE <= size <= ISIZE_MAX && size % NODE_ALIGN == 0
    && IsPow2(align) && NODE_ALIGN <= align <= ISIZE_MAX + 1
  }

  lemma SizeAlignIsRequest(l: Layout)
    requires ValidLayout(l) && SizeAlign(l).Some?
    ensures var (size, align) := SizeAlign(l).value;
            && Request(size, align) && size >= l.size && align >= l.align
            && (forall a: nat | a % align == 0 :: a % l.align == 0)
            && (l.align <= NODE_ALIGN ==> align == NODE_ALIGN)
  {
    assert l.align > 0;
    hide AlignUp, IsPow2;
    EightIsPow2();
    var align := if l.align < NODE_ALIGN then NODE_ALIGN else l.align;
    AlignUpIsLeast(l.size, align);
    MultipleOfSmaller(AlignUp(l.size, align), align, NODE_ALIGN);
    forall a: nat | a % align == 0 ensures a % l.align == 0 { MultipleOfSmaller(a, align, l.align); }
  }

  /**
    The adjusted layout exactly: the larger of the two alignments, and the least multiple of it that covers the
    request, or 16 where that is smaller; a panic exactly when that multiple is out of range.
  */
  lemma SizeAlignExact(l: Layout)
    requires ValidLayout(l)
    ensures var a := if l.align < 8 then 8 else l.align;
            match SizeAlign(l)
            case None => forall m: nat | m >= l.size && m % a == 0 :: m > ISIZE_MAX
            case Some(p) =>
              && p.1 == a && p.0 <= ISIZE_MAX
              && if exists m: nat :: l.size <= m <= 16 && m % a == 0 then p.0 == 16
                 else p.0 % a == 0 && l.size <= p.0 < l.size + a
  {
    hide AlignUp, IsPow2;
    EightIsPow2();
    var a := if l.align < 8 then 8 else l.align;
    AlignUpIsLeast(l.size, a);
    var m := AlignUp(l.size, a);
    if m <= 16 { assert l.size <= m <= 16 && m % a == 0; }
  }

  lemma EightIsPow2()
    ensures IsPow2(NODE_ALIGN)
  {
    assert IsPow2(1) && IsPow2(2) && IsPow2(4);
  }

  // ---------------------------------------------------------------- first fit

  /** `alloc_from_region` */
  function AllocFromRegion(r: Region, size: nat, align: nat): (p: Option<nat>)
    requires IsPow2(align) && align < WORD && r.start + align - 1 < WORD
    ensures p.Some? ==> r.start <= p.value && p.value + size <= r.End()
  {
    AlignUpIsLeast(r.start, align);
    var start := AlignUp(r.start, align);
    if start + size >= WORD then None            // checked_add
    else if start + size > r.End() then None     // region too small
    else if 0 < r.End() - (start + size) < NODE_SIZE then None
    else Some(start)
  }

  /** `start` is the least aligned address of `r`, and the rest of `r` is empty or can hold a node. */
  predicate Fits(r: Region, size: nat, align: nat, start: nat)
    requires align > 0
  {
    && r.start <= start < r.start + align && start % align == 0
    && start + size <= r.End() && (start + size == r.End() || start + size + NODE_SIZE <= r.End())
  }

  lemma AllocFromRegionExact(r: Region, size: nat, align: nat)
    requires Request(size, align) && r.End() <= ISIZE_MAX + 1
    ensures match AllocFromRegion(r, size, align)
            case Some(start) => Fits(r, size, align, start) && forall t: nat | Fits(r, size, align, t) :: t == start
            case None => forall t: nat :: !Fits(r, size, align, t)
  {
    hide AlignUp, IsPow2;
    AlignUpIsLeast(r.start, align);
    var start := AlignUp(r.start, align);
    forall t: nat | Fits(r, size, align, t) ensures t == start {
      NoMultipleBetween(start, t, align);
      NoMultipleBetween(t, start, align);
    }
  }

  predicate Suits(r: Region, size: nat, align: nat)
    requires IsPow2(align) && align < WORD
  {
    r.start + align - 1 < WORD && AllocFromRegion(r, size, align).Some?
  }

  /** The first region from `k` on that suits. */
  function FirstFit(free: seq<Region>, size: nat, align: nat, k: nat := 0): (r: Option<nat>)
    requires IsPow2(align) && align < WORD && k <= |free|
    ensures r.Some? ==> k <= r.value < |free| && Suits(free[r.value], size, align)
    ensures forall j | k <= j < (if r.Some? then r.value else |free|) :: !Suits(free[j], size, align)
    decreases |free| - k
  {
    if k == |free| then None else if Suits(free[k], size, align) then Some(k) else FirstFit(free, size, align, k + 1)
  }

  // ---------------------------------------------------------------- the heap and its steps

  /** `skipped` are the bytes between a region and the aligned start of an allocation: they never come back. */
  datatype Heap = Heap(lo: nat, hi: nat, free: seq<Region>, live: seq<Region>, skipped: seq<Region>)

  /** The region left over behind an allocation goes to the front of the list. */
  function Leftover(r: Region, end: nat): seq<Region>
    requires end <= r.End()
  {
    if end < r.End() then [Region(end, r.End() - end)] else []
  }

  function Take(h: Heap, k: nat, start: nat, size: nat): Heap
    requires k < |h.free| && h.free[k].start <= start && start + size <= h.free[k].End()
  {
    var r := h.free[k];
    h.(free := Leftover(r, start + size) + Without(h.free, k),
       live := h.live + [Region(start, size)],
       skipped := h.skipped + [Region(r.start, start - r.start)])
  }

  function AllocStep(h: Heap, size: nat, align: nat): (Heap, Option<nat>)
    requires Request(size, align)
  {
    match FirstFit(h.free, size, align)
    case None => (h, None)
    case Some(k) =>
      var start := AllocFromRegion(h.free[k], size, align).value;
      (Take(h, k, start, size), Some(start))
  }

  function FreeStep(h: Heap, i: nat): Heap
    requires i < |h.live|
  {
    h.(free := [h.live[i]] + h.free, live := Without(h.live, i))
  }

  function Initial(lo: nat, size: nat): Heap {
    Heap(lo, lo + size, [Region(lo, size)], [], [])
  }

  // ---------------------------------------------------------------- counting

  function One(r: Region, a: nat): nat { if r.Contains(a) then 1 else 0 }

  /** How many of the regions contain address `a`. */
  function Cover(rs: seq<Region>, a: nat): nat {
    if rs == [] then 0 else One(rs[0], a) + Cover(rs[1..], a)
  }

  function Total(rs: seq<Region>): nat {
    if rs == [] then 0 else rs[0].size + Total(rs[1..])
  }

  lemma {:induction false} CoverAppend(s: seq<Region>, t: seq<Region>, a: nat)
    ensures Cover(s + t, a) == Cover(s, a) + Cover(t, a)
    ensures Total(s + t) == Total(s) + Total(t)
    decreases |s|
  {
    if s == [] {
      assert s + t == t;
    } else {
      assert (s + t)[0] == s[0] && (s + t)[1..] == s[1..] + t;
      CoverAppend(s[1..], t, a);
    }
  }

  lemma CoverOne(r: Region, a: nat)
    ensures Cover([r], a) == One(r, a) && Total([r]) == r.size
  {
    assert [r][1..] == [];
  }

  lemma CoverLeftover(r: Region, end: nat, a: nat)
    requires r.start <= end <= r.End()
    ensures Cover(Leftover(r, end), a) == if end <= a < r.End() then 1 else 0
    ensures Total(Leftover(r, end)) == r.End() - end
  {
    if end < r.End() { CoverOne(Region(end, r.End() - end), a); }
  }

  lemma CoverWithout(s: seq<Region>, i: nat, a: nat)
    requires i < |s|
    ensures Cover(s, a) == Cover(Without(s, i), a) + One(s[i], a)
    ensures Total(s) == Total(Without(s, i)) + s[i].size
  {
    assert s == s[..i] + ([s[i]] + s[i + 1..]);
    CoverAppend(s[..i], [s[i]] + s[i + 1..], a);
    CoverAppend([s[i]], s[i + 1..], a);
    CoverAppend(s[..i], s[i + 1..], a);
    CoverOne(s[i], a);
  }

  // ---------------------------------------------------------------- the invariant

  function AllRegions(h: Heap): seq<Region> {
    h.free + h.live + h.skipped
  }

  /** Every heap address lies in exactly one region, every other address in none. */
  ghost predicate Tiled(h: Heap) {
    forall a: nat :: Cover(AllRegions(h), a) == if h.lo <= a < h.hi then 1 else 0
  }

  predicate Conserved(h: Heap) {
    Total(h.free) + Total(h.live) + Total(h.skipped) == h.hi - h.lo
  }

  predicate CanHoldNode(r: Region) {
    r.start % NODE_ALIGN == 0 && r.size >= NODE_SIZE
  }

  ghost predicate HeapOk(h: Heap) {
    && 0 < h.lo <= h.hi <= ISIZE_MAX + 1
    && Tiled(h) && Conserved(h)
    && (forall r | r in h.free :: CanHoldNode(r))
    && (forall r | r in h.live :: CanHoldNode(r))
  }

  lemma CoverRegions(h: Heap, a: nat)
    ensures Cover(AllRegions(h), a) == Cover(h.free, a) + Cover(h.live, a) + Cover(h.skipped, a)
  {
    CoverAppend(h.free + h.live, h.skipped, a);
    CoverAppend(h.free, h.live, a);
  }

  lemma InitialOk(lo: nat, size: nat)
    requires 0 < lo && lo % NODE_ALIGN == 0 && size >= NODE_SIZE && lo + size <= ISIZE_MAX + 1
    ensures HeapOk(Initial(lo, size))
  {
    var h := Initial(lo, size);
    forall a: nat ensures Cover(AllRegions(h), a) == if h.lo <= a < h.hi then 1 else 0 {
      CoverRegions(h, a);
      CoverOne(h.free[0], a);
    }
    CoverOne(h.free[0], 0);
  }

  /** Splitting a region changes neither which addresses are covered nor how many bytes there are. */
  lemma TakeCover(h: Heap, k: nat, start: nat, size: nat, a: nat)
    requires k < |h.free| && h.free[k].start <= start && start + size <= h.free[k].End()
    ensures var g := Take(h, k, start, size);
            && Cover(AllRegions(g), a) == Cover(AllRegions(h), a)
            && Total(g.free) + Total(g.live) + Total(g.skipped) == Total(h.free) + Total(h.live) + Total(h.skipped)
  {
    hide Cover, Total;
    var r := h.free[k];
    var g := Take(h, k, start, size);
    CoverRegions(h, a);
    CoverRegions(g, a);
    CoverWithout(h.free, k, a);
    var left := Leftover(r, start + size);
    CoverAppend(left, Without(h.free, k), a);
    CoverLeftover(r, start + size, a);
    CoverAppend(h.live, [Region(start, size)], a);
    CoverOne(Region(start, size), a);
    CoverAppend(h.skipped, [Region(r.start, start - r.start)], a);
    CoverOne(Region(r.start, start - r.start), a);
  }

  lemma FreeCover(h: Heap, i: nat, a: nat)
    requires i < |h.live|
    ensures var g := FreeStep(h, i);
            && Cover(AllRegions(g), a) == Cover(AllRegions(h), a)
            && Total(g.free) + Total(g.live) + Total(g.skipped) == Total(h.free) + Total(h.live) + Total(h.skipped)
  {
    CoverRegions(h, a);
    CoverRegions(FreeStep(h, i), a);
    CoverWithout(h.live, i, a);
    CoverAppend([h.live[i]], h.free, a);
    CoverOne(h.live[i], a);
  }

  // ---------------------------------------------------------------- what the tiling means

  lemma {:induction false} CoverAt(s: seq<Region>, i: nat, a: nat)
    requires i < |s| && s[i].Contains(a)
    ensures Cover(s, a) >= 1
  {
    CoverWithout(s, i, a);
  }

  /** No two regions, free, live or skipped, share an address. */
  lemma TiledApart(h: Heap, i: nat, j: nat)
    requires Tiled(h) && i < j < |AllRegions(h)|
    requires AllRegions(h)[i].size > 0 && AllRegions(h)[j].size > 0
    ensures Apart(AllRegions(h)[i], AllRegions(h)[j])
  {
    var s := AllRegions(h);
    if !Apart(s[i], s[j]) {
      var a := if s[i].start <= s[j].start then s[j].start else s[i].start;
      CoverWithout(s, j, a);
      assert Without(s, j)[i] == s[i];
      CoverAt(Without(s, j), i, a);
    }
  }

  lemma TiledInside(h: Heap, i: nat)
    requires Tiled(h) && i < |AllRegions(h)| && AllRegions(h)[i].size > 0
    ensures h.lo <= AllRegions(h)[i].start && AllRegions(h)[i].End() <= h.hi
  {
    var r := AllRegions(h)[i];
    CoverAt(AllRegions(h), i, r.start);
    CoverAt(AllRegions(h), i, r.End() - 1);
  }

  // ---------------------------------------------------------------- every step keeps the invariant

  lemma FreeInside(h: Heap, k: nat)
    requires HeapOk(h) && k < |h.free|
    ensures h.lo <= h.free[k].start && h.free[k].End() <= h.hi && CanHoldNode(h.free[k])
  {
    assert h.free[k] in h.free;
    assert AllRegions(h)[k] == h.free[k];
    TiledInside(h, k);
  }

  lemma LiveInside(h: Heap, i: nat)
    requires HeapOk(h) && i < |h.live|
    ensures h.lo <= h.live[i].start && h.live[i].End() <= h.hi && CanHoldNode(h.live[i])
  {
    assert h.live[i] in h.live;
    assert AllRegions(h)[|h.free| + i] == h.live[i];
    TiledInside(h, |h.free| + i);
  }

  lemma TakeKeepsOk(h: Heap, k: nat, size: nat, align: nat, start: nat)
    requires HeapOk(h) && Request(size, align) && k < |h.free| && Fits(h.free[k], size, align, start)
    ensures HeapOk(Take(h, k, start, size))
  {
    hide Cover, Total;
    var g := Take(h, k, start, size);
    EightIsPow2();
    MultipleOfSmaller(start, align, NODE_ALIGN);
    forall a: nat ensures Cover(AllRegions(g), a) == if h.lo <= a < h.hi then 1 else 0 {
      TakeCover(h, k, start, size, a);
    }
    TakeCover(h, k, start, size, 0);
    SumOfMultiples(start, size);
    assert CanHoldNode(Region(start, size));
    forall r | r in g.free ensures CanHoldNode(r) {
      if r in Without(h.free, k) { assert r in h.free; }
    }
  }

  lemma SumOfMultiples(a: nat, b: nat)
    requires a % NODE_ALIGN == 0 && b % NODE_ALIGN == 0
    ensures (a + b) % NODE_ALIGN == 0
  {
  }

  lemma AllocKeepsOk(h: Heap, size: nat, align: nat)
    requires HeapOk(h) && Request(size, align)
    ensures var (g, p) := AllocStep(h, size, align);
            && HeapOk(g) && g.lo == h.lo && g.hi == h.hi
            && (p.Some? ==> p.value % align == 0 && g.live == h.live + [Region(p.value, size)])
            && (p.None? ==> g == h && forall r, t: nat | r in h.free :: !Fits(r, size, align, t))
  {
    hide AlignUp, AllocFromRegion, Tiled, Conserved, IsPow2;
    match FirstFit(h.free, size, align)
    case None =>
      forall r, t: nat | r in h.free ensures !Fits(r, size, align, t) {
        var k :| 0 <= k < |h.free| && h.free[k] == r;
        FreeInside(h, k);
        AllocFromRegionExact(r, size, align);
        assert !Suits(h.free[k], size, align);
      }
    case Some(k) =>
      FreeInside(h, k);
      AllocFromRegionExact(h.free[k], size, align);
      TakeKeepsOk(h, k, size, align, AllocFromRegion(h.free[k], size, align).value);
  }

  lemma FreeKeepsOk(h: Heap, i: nat)
    requires HeapOk(h) && i < |h.live|
    ensures HeapOk(FreeStep(h, i))
  {
    hide Cover, Total;
    var g := FreeStep(h, i);
    LiveInside(h, i);
    forall a: nat ensures Cover(AllRegions(g), a) == if h.lo <= a < h.hi then 1 else 0 {
      FreeCover(h, i, a);
    }
    FreeCover(h, i, 0);
    forall r | r in g.live ensures CanHoldNode(r) { assert r in h.live; }
  }

  // ---------------------------------------------------------------- whole runs

  /** An allocation with a layout, or the release of the i-th live allocation. */
  datatype Event = Alloc(layout: Layout) | Free(i: nat)

  /** A panic in `size_align` and the release of something not live leave the heap alone. */
  function Step(h: Heap, e: Event): Heap {
    match e
    case Alloc(l) =>
      if !ValidLayout(l) || SizeAlign(l).None? then h else
        SizeAlignIsRequest(l);
        AllocStep(h, SizeAlign(l).value.0, SizeAlign(l).value.1).0
    case Free(i) => if i < |h.live| then FreeStep(h, i) else h
  }

  function Run(h: Heap, events: seq<Event>): Heap
    decreases |events|
  {
    if events == [] then h else Run(Step(h, events[0]), events[1..])
  }

  /** The layouts that the live allocations were made for, in the same order. */
  function Layouts(h: Heap, ls: seq<Layout>, events: seq<Event>): seq<Layout>
    requires |ls| == |h.live|
    decreases |events|
  {
    if events == [] then ls else
      var g := Step(h, events[0]);
      StepLive(h, events[0]);
      var next := match events[0]
                  case Alloc(l) => if |g.live| > |h.live| then ls + [l] else ls
                  case Free(i) => if i < |ls| then Without(ls, i) else ls;
      Layouts(g, next, events[1..])
  }

  lemma StepLive(h: Heap, e: Event)
    ensures match e
            case Alloc(_) => |Step(h, e).live| == |h.live| || |Step(h, e).live| == |h.live| + 1
            case Free(i) => |Step(h, e).live| == if i < |h.live| then |h.live| - 1 else |h.live|
  {
    hide FirstFit, AllocFromRegion, SizeAlign, ValidLayout;
  }

  /** Region `r` is aligned for the layout and large enough for it. */
  predicate Serves(r: Region, l: Layout) {
    l.align > 0 && r.start % l.align == 0 && r.size >= l.size
  }

  predicate AllServe(live: seq<Region>, ls: seq<Layout>) {
    |live| == |ls| && forall i | 0 <= i < |live| :: Serves(live[i], ls[i])
  }

  /** A successful allocation, aligned and large enough for the layout it was asked for. */
  lemma AllocServes(h: Heap, l: Layout)
    requires HeapOk(h) && ValidLayout(l) && SizeAlign(l).Some?
    ensures var (size, align) := SizeAlign(l).value;
            && Request(size, align)
            && var (g, p) := AllocStep(h, size, align);
               p.Some? ==> g.live == h.live + [Region(p.value, size)] && Serves(Region(p.value, size), l)
  {
    assert l.align > 0;
    hide Tiled, Conserved, AlignUp, IsPow2, AllocStep, SizeAlign;
    SizeAlignIsRequest(l);
    var (size, align) := SizeAlign(l).value;
    AllocKeepsOk(h, size, align);
  }

  lemma {:induction false} LayoutsServed(h: Heap, ls: seq<Layout>, events: seq<Event>)
    requires HeapOk(h) && AllServe(h.live, ls)
    ensures AllServe(Run(h, events).live, Layouts(h, ls, events))
    decreases |events|
  {
    hide HeapOk, AllocStep, SizeAlign, ValidLayout, Serves;
    if events != [] {
      var e, g := events[0], Step(h, events[0]);
      StepLive(h, e);
      RunKeepsOk(h, [e]);
      assert [e][1..] == [] && Run(h, [e]) == Run(g, []) == g;
      match e {
        case Alloc(l) =>
          if ValidLayout(l) && SizeAlign(l).Some? {
            AllocServes(h, l);
            AllocKeepsOk(h, SizeAlign(l).value.0, SizeAlign(l).value.1);
          }
          LayoutsServed(g, if |g.live| > |h.live| then ls + [l] else ls, events[1..]);
        case Free(i) =>
          LayoutsServed(g, if i < |ls| then Without(ls, i) else ls, events[1..]);
      }
    }
  }

  lemma {:induction false} RunKeepsOk(h: Heap, events: seq<Event>)
    requires HeapOk(h)
    ensures HeapOk(Run(h, events)) && Run(h, events).lo == h.lo && Run(h, events).hi == h.hi
    decreases |events|
  {
    hide HeapOk, AllocStep, SizeAlign, ValidLayout;
    if events != [] {
      var e := events[0];
      match e {
        case Alloc(l) =>
          if ValidLayout(l) && SizeAlign(l).Some? {
            SizeAlignIsRequest(l);
            AllocKeepsOk(h, SizeAlign(l).value.0, SizeAlign(l).value.1);
          }
        case Free(i) => if i < |h.live| { FreeKeepsOk(h, i); }
      }
      RunKeepsOk(Step(h, e), events[1..]);
    }
  }

  /**
    Heap safety over every run: free and live regions are pairwise disjoint and inside the heap, free, live
    and skipped bytes always add up to the heap, and every live region meets the layout it was allocated for.
  */
  lemma HeapSafety(lo: nat, size: nat, events: seq<Event>, i: nat, j: nat)
    requires 0 < lo && lo % NODE_ALIGN == 0 && size >= NODE_SIZE && lo + size <= ISIZE_MAX + 1
    ensures var h := Run(Initial(lo, size), events);
            var used := h.free + h.live;
            && Total(h.free) + Total(h.live) + Total(h.skipped) == size
            && (i < j < |used| ==> Apart(used[i], used[j]))
            && (i < |used| ==> lo <= used[i].start && used[i].End() <= lo + size && CanHoldNode(used[i]))
            && AllServe(h.live, Layouts(Initial(lo, size), [], events))
  {
    hide Run;
    LayoutsServedInitially(lo, size, events);
    var h := Run(Initial(lo, size), events);
    InitialOk(lo, size);
    RunKeepsOk(Initial(lo, size), events);
    UsedApart(h, i, j);
  }

  lemma LayoutsServedInitially(lo: nat, size: nat, events: seq<Event>)
    requires 0 < lo && lo % NODE_ALIGN == 0 && size >= NODE_SIZE && lo + size <= ISIZE_MAX + 1
    ensures AllServe(Run(Initial(lo, size), events).live, Layouts(Initial(lo, size), [], events))
  {
    hide Run, Layouts, HeapOk;
    InitialOk(lo, size);
    LayoutsServed(Initial(lo, size), [], events);
  }

  lemma UsedApart(h: Heap, i: nat, j: nat)
    requires HeapOk(h)
    ensures var used := h.free + h.live;
            && (i < j < |used| ==> Apart(used[i], used[j]))
            && (i < |used| ==> h.lo <= used[i].start && used[i].End() <= h.hi && CanHoldNode(used[i]))
  {
    hide Cover, Total;
    var used := h.free + h.live;
    if i < |used| {
      assert AllRegions(h)[i] == used[i] && (used[i] in h.free || used[i] in h.live);
      TiledInside(h, i);
      if i < j < |used| {
        assert AllRegions(h)[j] == used[j] && (used[j] in h.free || used[j] in h.live);
        TiledApart(h, i, j);
      }
    }
  }

  // ---------------------------------------------------------------- requests of alignment at most 8

  predicate SmallAlign(events: seq<Event>) {
    forall i :: 0 <= i < |events| ==> (events[i].Alloc? ==> events[i].layout.align <= NODE_ALIGN)
  }

  lemma AlignedSkipsNothing(h: Heap, size: nat)
    requires HeapOk(h) && Request(size, NODE_ALIGN)
    ensures Total(AllocStep(h, size, NODE_ALIGN).0.skipped) == Total(h.skipped)
  {
    hide AlignUp, AllocFromRegion, Tiled, Conserved, IsPow2;
    var f := FirstFit(h.free, size, NODE_ALIGN);
    if f.Some? {
      var k := f.value;
      FreeInside(h, k);
      AllocFromRegionExact(h.free[k], size, NODE_ALIGN);
      var start := AllocFromRegion(h.free[k], size, NODE_ALIGN).value;
      assert start == h.free[k].start;
      CoverAppend(h.skipped, [Region(start, 0)], 0);
      CoverOne(Region(start, 0), 0);
    }
  }

  lemma {:induction false} SmallAlignSkipsNothing(h: Heap, events: seq<Event>)
    requires HeapOk(h) && SmallAlign(events)
    ensures Total(Run(h, events).skipped) == Total(h.skipped)
    decreases |events|
  {
    hide HeapOk, AllocStep, SizeAlign, ValidLayout, Total;
    if events != [] {
      var e := events[0];
      match e {
        case Alloc(l) =>
          if ValidLayout(l) && SizeAlign(l).Some? {
            SizeAlignIsRequest(l);
            AllocKeepsOk(h, SizeAlign(l).value.0, SizeAlign(l).value.1);
            AlignedSkipsNothing(h, SizeAlign(l).value.0);
          }
        case Free(i) => if i < |h.live| { FreeKeepsOk(h, i); }
      }
      assert SmallAlign(events[1..]);
      SmallAlignSkipsNothing(Step(h, e), events[1..]);
    }
  }

  lemma {:induction false} NothingCovers(s: seq<Region>, a: nat)
    requires Total(s) == 0
    ensures Cover(s, a) == 0
  {
    if s != [] { NothingCovers(s[1..], a); }
  }

  /** If no request is aligned above 8, free and live regions tile the heap: each address is in exactly one. */
  lemma FreeAndLiveTile(lo: nat, size: nat, events: seq<Event>, a: nat)
    requires 0 < lo && lo % NODE_ALIGN == 0 && size >= NODE_SIZE && lo + size <= ISIZE_MAX + 1
    requires SmallAlign(events)
    ensures var h := Run(Initial(lo, size), events);
            && Total(h.free) + Total(h.live) == size
            && Cover(h.free + h.live, a) == if lo <= a < lo + size then 1 else 0
  {
    hide Run;
    var h := Run(Initial(lo, size), events);
    InitialOk(lo, size);
    RunKeepsOk(Initial(lo, size), events);
    SmallAlignSkipsNothing(Initial(lo, size), events);
    NothingCovers(h.skipped, a);
    CoverRegions(h, a);
    CoverAppend(h.free, h.live, a);
  }
}
