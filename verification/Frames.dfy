/**
  `BootInfoFrameAllocator` of src/memory.rs: the n-th call returns the n-th frame of the usable regions.
*/
module Frames {
  import opened Options

  const PAGE := 4096

  datatype MemoryRegion = MemoryRegion(start: nat, end: nat, usable: bool)

  /** `PhysFrame::containing_address`: the frame's start address. */
  function FrameOf(addr: nat): nat {
    addr - addr % PAGE
  }

  /** The frames of the addresses from `start` to `end` in steps of one page. */
  function FramesFrom(start: nat, end: nat): seq<nat>
    decreases end - start
  {
    if start >= end then [] else [FrameOf(start)] + FramesFrom(start + PAGE, end)
  }

  /** `usable_frames` */
  function UsableFrames(regions: seq<MemoryRegion>): seq<nat> {
    if regions == [] then [] else
      (if regions[0].usable then FramesFrom(regions[0].start, regions[0].end) else []) + UsableFrames(regions[1..])
  }

  /** Frame `f` lies wholly in a usable region. */
  predicate InUsable(regions: seq<MemoryRegion>, f: nat) {
    f % PAGE == 0 &&
    exists i :: 0 <= i < |regions| && regions[i].usable && regions[i].start <= f && f + PAGE <= regions[i].end
  }

  predicate PageAligned(regions: seq<MemoryRegion>) {
    forall r | r in regions && r.usable :: r.start % PAGE == 0 && r.end % PAGE == 0
  }

  predicate DisjointRegions(regions: seq<MemoryRegion>) {
    forall i, j | 0 <= i < j < |regions| && regions[i].usable && regions[j].usable ::
      regions[i].end <= regions[j].start || regions[j].end <= regions[i].start
  }

  predicate Distinct(s: seq<nat>) {
    forall i, j | 0 <= i < j < |s| :: s[i] != s[j]
  }

  lemma {:induction false} FramesFromExact(start: nat, end: nat, f: nat)
    requires start % PAGE == 0 && end % PAGE == 0
    ensures f in FramesFrom(start, end) <==> f % PAGE == 0 && start <= f && f + PAGE <= end
    decreases end - start
  {
    if start < end { FramesFromExact(start + PAGE, end, f); }
  }

  lemma {:induction false} FramesFromDistinct(start: nat, end: nat)
    requires start % PAGE == 0 && end % PAGE == 0
    ensures Distinct(FramesFrom(start, end))
    decreases end - start
  {
    if start < end {
      FramesFromDistinct(start + PAGE, end);
      var rest := FramesFrom(start + PAGE, end);
      forall j | 0 <= j < |rest| ensures rest[j] != start {
        FramesFromExact(start + PAGE, end, rest[j]);
      }
    }
  }

  lemma {:induction false} UsableExact(regions: seq<MemoryRegion>, f: nat)
    requires PageAligned(regions)
    ensures f in UsableFrames(regions) <==> InUsable(regions, f)
  {
    if regions != [] {
      var r, rest := regions[0], regions[1..];
      assert PageAligned(rest);
      UsableExact(rest, f);
      if r.usable { FramesFromExact(r.start, r.end, f); }
      if InUsable(regions, f) {
        var i :| 0 <= i < |regions| && regions[i].usable && regions[i].start <= f && f + PAGE <= regions[i].end;
        if i > 0 { assert rest[i - 1] == regions[i]; }
      }
      if InUsable(rest, f) {
        var i :| 0 <= i < |rest| && rest[i].usable && rest[i].start <= f && f + PAGE <= rest[i].end;
        assert regions[i + 1] == rest[i];
      }
    }
  }

  /** With page-aligned, disjoint usable regions no frame is listed twice. */
  lemma {:induction false} UsableDistinct(regions: seq<MemoryRegion>)
    requires PageAligned(regions) && DisjointRegions(regions)
    ensures Distinct(UsableFrames(regions))
  {
    if regions != [] {
      var r, rest := regions[0], regions[1..];
      assert PageAligned(rest) && DisjointRegions(rest);
      UsableDistinct(rest);
      if r.usable {
        var a, b := FramesFrom(r.start, r.end), UsableFrames(rest);
        FramesFromDistinct(r.start, r.end);
        forall i, j | 0 <= i < |a| && 0 <= j < |b| ensures a[i] != b[j] {
          FramesFromExact(r.start, r.end, a[i]);
          UsableExact(rest, b[j]);
          var k :| 0 <= k < |rest| && rest[k].usable && rest[k].start <= b[j] && b[j] + PAGE <= rest[k].end;
          assert regions[k + 1] == rest[k];
        }
      }
    }
  }

  /** How many pages start in a region, in steps of one page from its start. */
  function Pages(r: MemoryRegion): nat {
    if !r.usable || r.end <= r.start then 0 else (r.end - r.start + 4095) / 4096
  }

  /** The pages of the regions before the `i`-th. */
  function PagesBefore(regions: seq<MemoryRegion>, i: nat): nat
    requires i <= |regions|
  {
    if i == 0 then 0 else Pages(regions[0]) + PagesBefore(regions[1..], i - 1)
  }

  lemma {:induction false} FramesFromOrder(start: nat, end: nat, k: nat)
    ensures |FramesFrom(start, end)| == if end <= start then 0 else (end - start + 4095) / 4096
    ensures k < |FramesFrom(start, end)| ==> FramesFrom(start, end)[k] == (start + 4096 * k) / 4096 * 4096
    decreases end - start
  {
    if start < end { FramesFromOrder(start + PAGE, end, if k > 0 then k - 1 else 0); }
  }

  lemma {:induction false} UsableOrder(regions: seq<MemoryRegion>, i: nat, k: nat)
    requires i < |regions| && k < Pages(regions[i])
    ensures PagesBefore(regions, i) + k < |UsableFrames(regions)|
    ensures UsableFrames(regions)[PagesBefore(regions, i) + k] == (regions[i].start + 4096 * k) / 4096 * 4096
    decreases i
  {
    var r, rest := regions[0], regions[1..];
    FramesFromOrder(r.start, r.end, k);
    if i > 0 {
      assert rest[i - 1] == regions[i];
      UsableOrder(rest, i - 1, k);
    }
  }

  lemma {:induction false} UsableCount(regions: seq<MemoryRegion>)
    ensures |UsableFrames(regions)| == PagesBefore(regions, |regions|)
  {
    if regions != [] {
      FramesFromOrder(regions[0].start, regions[0].end, 0);
      UsableCount(regions[1..]);
    }
  }

  // ---------------------------------------------------------------- calls

  /** The result of the call numbered `n`, from 0. */
  function Nth(regions: seq<MemoryRegion>, n: nat): Option<nat> {
    if n < |UsableFrames(regions)| then Some(UsableFrames(regions)[n]) else None
  }

  /**
    Which call returns which frame, for any memory map: page `k` of usable region `i` comes after the pages of
    all usable regions before it, and nothing comes after the last.
  */
  lemma FramesInOrder(regions: seq<MemoryRegion>, i: nat, k: nat, n: nat)
    ensures i < |regions| && k < Pages(regions[i]) ==>
              Nth(regions, PagesBefore(regions, i) + k) == Some((regions[i].start + 4096 * k) / 4096 * 4096)
    ensures Nth(regions, n).None? <==> n >= PagesBefore(regions, |regions|)
  {
    hide UsableFrames, Pages;
    if i < |regions| && k < Pages(regions[i]) { UsableOrder(regions, i, k); }
    UsableCount(regions);
  }

  /**
    No frame is handed out twice, every frame handed out is usable, every usable frame is handed out
    before the first `None`, and `None` is permanent.
  */
  lemma FramesOnce(regions: seq<MemoryRegion>, m: nat, n: nat, f: nat)
    requires PageAligned(regions) && DisjointRegions(regions)
    ensures m != n && Nth(regions, m).Some? ==> Nth(regions, m) != Nth(regions, n)
    ensures Nth(regions, n).Some? ==> InUsable(regions, Nth(regions, n).value)
    ensures InUsable(regions, f) ==> exists k: nat :: Nth(regions, k) == Some(f)
    ensures Nth(regions, m).None? && m <= n ==> Nth(regions, n).None?
  {
    var s := UsableFrames(regions);
    UsableDistinct(regions);
    if m < |s| && n < |s| && m != n { assert if m < n then s[m] != s[n] else s[n] != s[m]; }
    if n < |s| { UsableExact(regions, s[n]); }
    UsableExact(regions, f);
    if f in s {
      var k :| 0 <= k < |s| && s[k] == f;
      assert Nth(regions, k) == Some(f);
    }
  }

  /** Frame `f` was the result of one of the calls from `lo` to `hi - 1`. */
  predicate Drawn(regions: seq<MemoryRegion>, lo: nat, hi: nat, f: nat) {
    exists k: nat :: lo <= k < hi && Nth(regions, k) == Some(f)
  }

  lemma DrawnIsUsed(regions: seq<MemoryRegion>, lo: nat, hi: nat, f: nat)
    requires PageAligned(regions) && DisjointRegions(regions) && Drawn(regions, lo, hi, f)
    ensures InUsable(regions, f) && Nth(regions, hi) != Some(f)
  {
    var k: nat :| lo <= k < hi && Nth(regions, k) == Some(f);
    FramesOnce(regions, k, hi, f);
    FramesOnce(regions, hi, k, f);
  }

  /** `pages` and `tables` together hold no frame twice, and all of them came from those calls. */
  ghost predicate Apart(regions: seq<MemoryRegion>, lo: nat, hi: nat, pages: seq<nat>, tables: seq<nat>) {
    && Distinct(pages) && Distinct(tables) && (forall f | f in pages :: f !in tables)
    && (forall f | f in pages + tables :: Drawn(regions, lo, hi, f))
  }

  /** A frame that a later call returns, for a DMA buffer say, is none of those. */
  lemma LaterFrameIsNew(regions: seq<MemoryRegion>, lo: nat, hi: nat, pages: seq<nat>, tables: seq<nat>, n: nat, f: nat)
    requires PageAligned(regions) && DisjointRegions(regions) && Apart(regions, lo, hi, pages, tables)
    requires n >= hi && Nth(regions, n) == Some(f)
    ensures f !in pages + tables
  {
    hide Nth, UsableFrames;
    if f in pages + tables {
      var k: nat :| lo <= k < hi && Nth(regions, k) == Some(f);
      FramesOnce(regions, k, n, f);
    }
  }

  lemma OneMore(regions: seq<MemoryRegion>, lo: nat, hi: nat, pages: seq<nat>, tables: seq<nat>, f: nat)
    requires PageAligned(regions) && DisjointRegions(regions) && lo <= hi
    requires Apart(regions, lo, hi, pages, tables) && Nth(regions, hi) == Some(f)
    ensures Apart(regions, lo, hi + 1, pages + [f], tables) && Apart(regions, lo, hi + 1, pages, tables + [f])
  {
    forall g | g in pages + tables ensures g != f && Drawn(regions, lo, hi + 1, g) {
      DrawnIsUsed(regions, lo, hi, g);
      var k: nat :| lo <= k < hi && Nth(regions, k) == Some(g);
    }
    assert Drawn(regions, lo, hi + 1, f);
    assert forall i | 0 <= i < |pages| :: pages[i] in pages + tables;
    assert forall i | 0 <= i < |tables| :: tables[i] in pages + tables;
    assert forall g | g in (pages + [f]) + tables :: g == f || g in pages + tables;
    assert forall g | g in pages + (tables + [f]) :: g == f || g in pages + tables;
  }

  function Sum(needs: seq<nat>): nat {
    if needs == [] then 0 else Sum(needs[..|needs| - 1]) + needs[|needs| - 1]
  }

  lemma SumOfNone()
    ensures Sum([]) == 0
  {
  }

  lemma SumNext(needs: seq<nat>, i: nat)
    requires i < |needs|
    ensures Sum(needs[..i + 1]) == Sum(needs[..i]) + needs[i]
  {
    assert needs[..i + 1][..i] == needs[..i];
  }

  /** Page `i` got the frame of the call after those for the pages before it and their page tables. */
  predicate PagesFirst(regions: seq<MemoryRegion>, first: nat, needs: seq<nat>, pages: seq<nat>) {
    && |pages| <= |needs|
    && forall i | 0 <= i < |pages| :: Nth(regions, first + i + Sum(needs[..i])) == Some(pages[i])
  }

  class BootInfoFrameAllocator {
    const memoryMap: seq<MemoryRegion>
    var next: nat

    constructor (memoryMap: seq<MemoryRegion>)
      ensures this.memoryMap == memoryMap && next == 0
    {
      this.memoryMap, next := memoryMap, 0;
    }

    method AllocateFrame() returns (frame: Option<nat>)
      modifies this
      ensures frame == Nth(memoryMap, old(next)) && next == old(next) + 1
    {
      var frames := UsableFrames(memoryMap);
      frame := if next < |frames| then Some(frames[next]) else None;
      next := next + 1;
    }

    /**
      The page loop of `init_heap`: one frame per page, and `needs[i]` more for the page tables that
      mapping page `i` takes. `None` is the error of a failed allocation. No two of them share a frame.
    */
    method MapHeap(needs: seq<nat>) returns (pages: Option<seq<nat>>, tables: seq<nat>)
      requires PageAligned(memoryMap) && DisjointRegions(memoryMap)
      modifies this
      ensures next >= old(next)
      ensures pages.Some? ==> |pages.value| == |needs| && Apart(memoryMap, old(next), next, pages.value, tables)
      ensures pages.Some? ==>
                PagesFirst(memoryMap, old(next), needs, pages.value) && next == old(next) + |needs| + Sum(needs)
      ensures pages.None? ==> next > 0 && Nth(memoryMap, next - 1).None?
    {
      hide UsableFrames, Nth, Sum;
      SumOfNone();
      var frames := [];
      tables := [];
      for i := 0 to |needs|
        invariant next >= old(next) && |frames| == i && Apart(memoryMap, old(next), next, frames, tables)
        invariant next == old(next) + i + Sum(needs[..i]) && PagesFirst(memoryMap, old(next), needs, frames)
      {
        SumNext(needs, i);
        var frame := AllocateFrame();
        if frame.None? { return None, tables; }
        OneMore(memoryMap, old(next), next - 1, frames, tables, frame.value);
        frames := frames + [frame.value];
        for j := 0 to needs[i]
          invariant next >= old(next) && |frames| == i + 1 && Apart(memoryMap, old(next), next, frames, tables)
          invariant next == old(next) + i + 1 + Sum(needs[..i]) + j
          invariant PagesFirst(memoryMap, old(next), needs, frames)
        {
          var table := AllocateFrame();
          if table.None? { return None, tables; }
          OneMore(memoryMap, old(next), next - 1, frames, tables, table.value);
          tables := tables + [table.value];
        }
      }
      assert needs[..|needs|] == needs;
      return Some(frames), tables;
    }
  }
}
