/**
  `LinkedListAllocator` of src/allocator/linked_list.rs: the free list is kept in the free memory itself.
*/
module LinkedListHeap {
  import opened Options
  import opened Bytes
  import opened Alignment
  import opened Regions
  import opened HeapModel

  /** Memory by 8-byte words. A node at `a` keeps its size at `a` and its next pointer at `a + 8`; 0 is `None`. */
  type Memory = map<nat, nat>

  /** The address of the k-th node of the list, or the null pointer behind its end. */
  function NodeAt(free: seq<Region>, k: nat): nat {
    if k < |free| then free[k].start else 0
  }

  /** The k-th node is in memory, with its size and a pointer to the next one. */
  predicate NodeLinked(mem: Memory, free: seq<Region>, k: nat)
    requires k < |free|
  {
    && free[k].start in mem && free[k].start + 8 in mem
    && mem[free[k].start] == free[k].size && mem[free[k].start + 8] == NodeAt(free, k + 1)
  }

  /** The chain from `head` through memory runs through exactly the regions of `free`, in order. */
  predicate Linked(mem: Memory, head: nat, free: seq<Region>) {
    head == NodeAt(free, 0) && forall k: nat | k < |free| :: NodeLinked(mem, free, k)
  }

  /** Every word of the heap is there. */
  predicate Backed(mem: Memory, lo: nat, hi: nat) {
    forall a: nat | lo <= a && a + 8 <= hi && a % NODE_ALIGN == 0 :: a in mem
  }

  predicate Inside(rs: seq<Region>, a: nat) {
    exists k :: 0 <= k < |rs| && rs[k].Contains(a)
  }

  /** Words outside the given regions are as they were. */
  predicate OnlyWithin(before: Memory, after: Memory, rs: seq<Region>) {
    && after.Keys == before.Keys
    && forall a | a in before && !Inside(rs, a) :: after[a] == before[a]
  }

  predicate Separate(free: seq<Region>) {
    && (forall k | 0 <= k < |free| :: CanHoldNode(free[k]) && free[k].start > 0 && free[k].size >= NODE_SIZE)
    && (forall i, j | 0 <= i < j < |free| :: Apart(free[i], free[j]))
  }

  lemma OkIsSeparate(h: Heap)
    requires HeapOk(h)
    ensures Separate(h.free)
    ensures forall i, k | 0 <= i < |h.live| && 0 <= k < |h.free| :: Apart(h.free[k], h.live[i])
  {
    hide Tiled, Conserved;
    forall k | 0 <= k < |h.free|
      ensures CanHoldNode(h.free[k]) && h.free[k].start > 0 && h.free[k].size >= NODE_SIZE
    {
      FreeInside(h, k);
    }
    forall i, j | 0 <= i < j < |h.free| ensures Apart(h.free[i], h.free[j]) { UsedApart(h, i, j); }
    forall i, k | 0 <= i < |h.live| && 0 <= k < |h.free| ensures Apart(h.free[k], h.live[i]) {
      UsedApart(h, k, |h.free| + i);
    }
  }

  /** Writing a node into memory that no list node uses puts it in front of the list. */
  lemma LinkFront(mem: Memory, head: nat, free: seq<Region>, r: Region)
    requires Linked(mem, head, free) && Separate(free) && r.size >= NODE_SIZE
    requires forall k | 0 <= k < |free| :: Apart(free[k], r)
    ensures Linked(mem[r.start := r.size][r.start + 8 := head], r.start, [r] + free)
  {
    hide CanHoldNode;
    var m, list := mem[r.start := r.size][r.start + 8 := head], [r] + free;
    forall k: nat | k < |list| ensures NodeLinked(m, list, k) {
      if k > 0 { assert list[k] == free[k - 1] && Apart(free[k - 1], r) && NodeLinked(mem, free, k - 1); }
    }
  }

  // ---------------------------------------------------------------- what the code does to memory

  /** Node `k` of a walk: it is in memory with its size, and points to the next node of the walk if there is one. */
  predicate NodeMet(mem: Memory, free: seq<Region>, k: nat)
    requires k < |free|
  {
    && free[k].start > 0 && free[k].start in mem && free[k].start + 8 in mem && mem[free[k].start] == free[k].size
    && (k + 1 < |free| ==> mem[free[k].start + 8] == free[k + 1].start)
  }

  /** The chain from `head`, as far as `free` follows it: what the last node points to is left open. */
  predicate Walk(mem: Memory, head: nat, free: seq<Region>) {
    head == NodeAt(free, 0) && forall k: nat | k < |free| :: NodeMet(mem, free, k)
  }

  /** A search along the walk ends there: at a region that suits, or at a null pointer. */
  predicate SearchEnds(mem: Memory, head: nat, free: seq<Region>, size: nat, align: nat)
    requires Walk(mem, head, free) && IsPow2(align) && align < WORD
  {
    FirstFit(free, size, align).Some? || free == [] ||
    (assert NodeMet(mem, free, |free| - 1); mem[free[|free| - 1].start + 8] == 0)
  }

  lemma LinkedIsWalk(mem: Memory, head: nat, free: seq<Region>, size: nat, align: nat)
    requires Linked(mem, head, free) && Separate(free) && IsPow2(align) && align < WORD
    ensures Walk(mem, head, free) && SearchEnds(mem, head, free, size, align)
  {
    hide CanHoldNode, Apart, FirstFit;
    forall k: nat | k < |free| ensures NodeMet(mem, free, k) { assert NodeLinked(mem, free, k); }
    if free != [] { assert NodeLinked(mem, free, |free| - 1); }
  }

  /** Relinking around node `k`: its own next pointer is cleared and goes to the link before it. */
  function Unlink(mem: Memory, free: seq<Region>, k: nat): Memory
    requires k < |free| && free[k].start + 8 in mem
  {
    var cleared := mem[free[k].start + 8 := 0];
    if k == 0 then cleared else cleared[free[k - 1].start + 8 := mem[free[k].start + 8]]
  }

  function UnlinkHead(mem: Memory, head: nat, free: seq<Region>, k: nat): nat
    requires k < |free| && free[k].start + 8 in mem
  {
    if k == 0 then mem[free[k].start + 8] else head
  }

  datatype AllocResult = Pointer(address: nat) | Null | Panicked

  /** Memory, head and result after `alloc` of an adjusted request whose search ends on the walk. */
  function AllocEffect(mem: Memory, head: nat, free: seq<Region>, size: nat, align: nat): (Memory, nat, AllocResult)
    requires Walk(mem, head, free) && IsPow2(align) && align < WORD
  {
    match FirstFit(free, size, align)
    case None => (mem, head, Null)
    case Some(k) =>
      assert NodeMet(mem, free, k);
      var start := AllocFromRegion(free[k], size, align).value;
      var m, h, end := Unlink(mem, free, k), UnlinkHead(mem, head, free, k), start + size;
      if end < free[k].End() then (m[end := free[k].End() - end][end + 8 := h], end, Pointer(start))
      else (m, h, Pointer(start))
  }

  lemma UnlinkNode(mem: Memory, head: nat, free: seq<Region>, k: nat, i: nat)
    requires Linked(mem, head, free) && Separate(free) && k < |free| && i < |free| && i != k
    ensures NodeLinked(mem, free, k)
    ensures var m := Unlink(mem, free, k);
            && free[i].start in m && free[i].start + 8 in m && m[free[i].start] == free[i].size
            && m[free[i].start + 8] == NodeAt(free, if i + 1 == k then k + 1 else i + 1)
  {
    hide CanHoldNode;
    assert NodeLinked(mem, free, i) && NodeLinked(mem, free, k);
    assert if i < k then Apart(free[i], free[k]) else Apart(free[k], free[i]);
    if k > 0 && i != k - 1 {
      assert if i < k - 1 then Apart(free[i], free[k - 1]) else Apart(free[k - 1], free[i]);
    }
  }

  lemma UnlinkRemoves(mem: Memory, head: nat, free: seq<Region>, k: nat)
    requires Linked(mem, head, free) && Separate(free) && k < |free|
    ensures NodeLinked(mem, free, k)
    ensures Linked(Unlink(mem, free, k), UnlinkHead(mem, head, free, k), Without(free, k))
  {
    hide CanHoldNode, Apart, Unlink, Separate;
    assert NodeLinked(mem, free, k) && NodeLinked(mem, free, 0);
    var m, rest := Unlink(mem, free, k), Without(free, k);
    forall j: nat | j < |rest| ensures NodeLinked(m, rest, j) {
      var i := if j < k then j else j + 1;
      assert rest[j] == free[i];
      UnlinkNode(mem, head, free, k, i);
    }
  }

  // ---------------------------------------------------------------- init, once per page

  /** Memory and head after `n` calls of `init` with the same bounds. */
  function Inits(mem: Memory, lo: nat, size: nat, n: nat): (Memory, nat) {
    if n == 0 then (mem, 0) else
      var (m, h) := Inits(mem, lo, size, n - 1);
      (m[lo := size][lo + 8 := h], lo)
  }

  /** From the second call on the node is linked to itself. */
  lemma {:induction false} InitsShape(mem: Memory, lo: nat, size: nat, n: nat)
    requires n >= 1
    ensures Inits(mem, lo, size, n) == (mem[lo := size][lo + 8 := if n == 1 then 0 else lo], lo)
  {
    if n > 1 {
      InitsShape(mem, lo, size, n - 1);
      var m := mem[lo := size][lo + 8 := if n == 2 then 0 else lo];
      assert m[lo := size][lo + 8 := lo] == mem[lo := size][lo + 8 := lo];
    } else {
      assert Inits(mem, lo, size, 0) == (mem, 0);
    }
  }

  /** Some list describes the memory after `n` calls if and only if there was one, that is, on a heap of one page. */
  lemma LinkedIffOneInit(mem: Memory, lo: nat, size: nat, n: nat)
    requires lo > 0 && n >= 1
    ensures var (m, h) := Inits(mem, lo, size, n);
            (exists free: seq<Region> :: Linked(m, h, free)) <==> n == 1
  {
    var (m, h) := Inits(mem, lo, size, n);
    InitsShape(mem, lo, size, n);
    if n == 1 {
      var free := [Region(lo, size)];
      assert NodeLinked(m, free, 0);
      assert Linked(m, h, free);
    } else {
      forall free: seq<Region> ensures !Linked(m, h, free) {
        if Linked(m, h, free) { NeverEnds(m, lo, free, |free|); }
      }
    }
  }

  lemma {:induction false} NeverEnds(mem: Memory, lo: nat, free: seq<Region>, k: nat)
    requires lo > 0 && lo + 8 in mem && mem[lo + 8] == lo && Linked(mem, lo, free) && k <= |free|
    ensures NodeAt(free, k) == lo
  {
    if k > 0 {
      NeverEnds(mem, lo, free, k - 1);
      assert NodeLinked(mem, free, k - 1);
    }
  }

  /** Then every walk meets the heap region again and again. */
  lemma {:induction false} WalksInCircles(mem: Memory, lo: nat, size: nat, n: nat, free: seq<Region>, k: nat)
    requires lo > 0 && n >= 2 && k < |free|
    requires var (m, h) := Inits(mem, lo, size, n); Walk(m, h, free)
    ensures free[k] == Region(lo, size)
  {
    var (m, h) := Inits(mem, lo, size, n);
    InitsShape(mem, lo, size, n);
    assert NodeMet(m, free, k);
    if k > 0 {
      WalksInCircles(mem, lo, size, n, free, k - 1);
      assert NodeMet(m, free, k - 1);
    }
  }

  /**
    After a second `init` the search for a region ends if and only if the whole heap suits the request. Where it
    does not, `alloc` runs for ever instead of returning the null pointer.
  */
  lemma SecondInitSearch(mem: Memory, lo: nat, heapSize: nat, n: nat, size: nat, align: nat)
    requires lo > 0 && n >= 2 && Request(size, align) && lo + heapSize <= ISIZE_MAX + 1
    ensures var (m, h) := Inits(mem, lo, heapSize, n);
            (exists free: seq<Region> :: Walk(m, h, free) && SearchEnds(m, h, free, size, align))
            <==> exists start: nat :: Fits(Region(lo, heapSize), size, align, start)
  {
    hide AllocFromRegion, IsPow2, AlignUp;
    var (m, h) := Inits(mem, lo, heapSize, n);
    var r := Region(lo, heapSize);
    InitsShape(mem, lo, heapSize, n);
    AllocFromRegionExact(r, size, align);
    if start: nat :| Fits(r, size, align, start) {
      assert NodeMet(m, [r], 0) && Suits([r][0], size, align);
      assert Walk(m, h, [r]) && SearchEnds(m, h, [r], size, align);
    } else {
      forall free: seq<Region> | Walk(m, h, free) ensures !SearchEnds(m, h, free, size, align) {
        forall k | 0 <= k < |free| ensures free[k] == r && !Suits(free[k], size, align) {
          WalksInCircles(mem, lo, heapSize, n, free, k);
        }
      }
    }
  }

  /**
    Where it does, the first allocation leaves its own region on the list: the memory it returned is still listed
    as free, in a well-formed list.
  */
  lemma SecondInitOverlaps(mem: Memory, lo: nat, heapSize: nat, n: nat, size: nat, align: nat, start: nat)
    requires lo > 0 && n >= 2 && Request(size, align) && lo + heapSize <= ISIZE_MAX + 1
    requires Fits(Region(lo, heapSize), size, align, start)
    ensures var (m, h) := Inits(mem, lo, heapSize, n);
            var r := Region(lo, heapSize);
            && Walk(m, h, [r]) && SearchEnds(m, h, [r], size, align)
            && var (after, head, p) := AllocEffect(m, h, [r], size, align);
               var list := Leftover(r, start + size) + [r];
               && p == Pointer(start) && Linked(after, head, list)
               && !Apart(list[|list| - 1], Region(start, size))
  {
    hide AllocFromRegion, IsPow2, AlignUp;
    var (m, h) := Inits(mem, lo, heapSize, n);
    var r := Region(lo, heapSize);
    InitsShape(mem, lo, heapSize, n);
    AllocFromRegionExact(r, size, align);
    assert NodeMet(m, [r], 0) && Suits([r][0], size, align);
    assert FirstFit([r], size, align) == Some(0);
    var left := Unlink(m, [r], 0);
    assert NodeLinked(left, [r], 0) && Linked(left, lo, [r]);
    var end := start + size;
    if end < r.End() {
      var list := [Region(end, r.End() - end)] + [r];
      var after: Memory := left[end := r.End() - end][end + 8 := lo];
      assert NodeLinked(after, list, 0) && NodeLinked(after, list, 1);
      assert Linked(after, end, list);
    } else {
      assert [] + [r] == [r];
    }
  }

  /** What the allocator writes, inside free regions, is never inside a live allocation. */
  lemma LiveUntouched(h: Heap, before: Memory, after: Memory, i: nat, a: nat)
    requires HeapOk(h) && OnlyWithin(before, after, h.free)
    requires i < |h.live| && h.live[i].Contains(a) && a in before
    ensures a in after && after[a] == before[a]
  {
    OkIsSeparate(h);
    forall k | 0 <= k < |h.free| ensures !h.free[k].Contains(a) { assert Apart(h.free[k], h.live[i]); }
  }

  /** What a client writes inside its own live allocation leaves the list as it is. */
  lemma ClientKeepsList(h: Heap, before: Memory, after: Memory, head: nat, i: nat)
    requires HeapOk(h) && i < |h.live| && OnlyWithin(before, after, [h.live[i]])
    requires Linked(before, head, h.free) && Backed(before, h.lo, h.hi)
    ensures Linked(after, head, h.free) && Backed(after, h.lo, h.hi)
  {
    hide HeapOk, CanHoldNode;
    OkIsSeparate(h);
    forall k: nat | k < |h.free| ensures NodeLinked(after, h.free, k) {
      var r := h.free[k];
      assert NodeLinked(before, h.free, k) && Apart(r, h.live[i]);
      assert !Inside([h.live[i]], r.start) && !Inside([h.live[i]], r.start + 8);
    }
  }

  /** On a linked list `alloc` refines the allocation step and writes into free regions only. */
  lemma AllocRefines(h: Heap, mem: Memory, head: nat, size: nat, align: nat)
    requires HeapOk(h) && Linked(mem, head, h.free) && Backed(mem, h.lo, h.hi) && Request(size, align)
    ensures Walk(mem, head, h.free) && SearchEnds(mem, head, h.free, size, align)
    ensures var (m, hd, r) := AllocEffect(mem, head, h.free, size, align);
            var (g, p) := AllocStep(h, size, align);
            && HeapOk(g) && Linked(m, hd, g.free) && Backed(m, g.lo, g.hi) && OnlyWithin(mem, m, h.free)
            && r == match p case Some(a) => Pointer(a) case None => Null
  {
    hide Tiled, Conserved, AllocFromRegion, IsPow2, CanHoldNode, Apart, Unlink, UnlinkHead, OnlyWithin, Inside;
    hide Linked, Separate, NodeMet, Backed;
    OkIsSeparate(h);
    LinkedIsWalk(mem, head, h.free, size, align);
    AllocKeepsOk(h, size, align);
    NothingWritten(mem, h.free);
    var f := FirstFit(h.free, size, align);
    if f.Some? {
      var k := f.value;
      UnlinkRemoves(mem, head, h.free, k);
      UnlinkWithin(mem, head, h.free, k);
      var end := AllocFromRegion(h.free[k], size, align).value + size;
      if end < h.free[k].End() {
        SplitRefines(h, mem, head, size, align, k);
      } else {
        SameKeysBacked(mem, Unlink(mem, h.free, k), h.lo, h.hi, h.free);
        assert [] + Without(h.free, k) == Without(h.free, k);
      }
    }
  }

  lemma SameKeysBacked(before: Memory, after: Memory, lo: nat, hi: nat, rs: seq<Region>)
    requires Backed(before, lo, hi) && OnlyWithin(before, after, rs)
    ensures Backed(after, lo, hi)
  {
  }

  lemma BackedNode(mem: Memory, lo: nat, hi: nat, r: Region)
    requires Backed(mem, lo, hi) && CanHoldNode(r) && lo <= r.start && r.End() <= hi
    ensures r.start in mem && r.start + 8 in mem
  {
  }

  /** The case with a region left over. */
  lemma SplitRefines(h: Heap, mem: Memory, head: nat, size: nat, align: nat, k: nat)
    requires HeapOk(h) && Linked(mem, head, h.free) && Backed(mem, h.lo, h.hi) && Request(size, align)
    requires FirstFit(h.free, size, align) == Some(k) && h.free[k].start + 8 in mem
    requires var end := AllocFromRegion(h.free[k], size, align).value + size; end < h.free[k].End()
    ensures var end := AllocFromRegion(h.free[k], size, align).value + size;
            var left := Region(end, h.free[k].End() - end);
            var hd := UnlinkHead(mem, head, h.free, k);
            var m := Unlink(mem, h.free, k)[end := left.size][end + 8 := hd];
            Linked(m, end, [left] + Without(h.free, k)) && Backed(m, h.lo, h.hi) && OnlyWithin(mem, m, h.free)
  {
    hide Tiled, Conserved, AllocFromRegion, IsPow2, Apart, Unlink, UnlinkHead, OnlyWithin, Inside;
    hide Linked, Separate, Backed;
    OkIsSeparate(h);
    FreeInside(h, k);
    UnlinkRemoves(mem, head, h.free, k);
    UnlinkWithin(mem, head, h.free, k);
    var mid, hd := Unlink(mem, h.free, k), UnlinkHead(mem, head, h.free, k);
    var end := AllocFromRegion(h.free[k], size, align).value + size;
    var left := Region(end, h.free[k].End() - end);
    LeftoverCanHoldNode(h, size, align, k);
    WithoutApart(h.free, k, left);
    LinkFront(mid, hd, Without(h.free, k), left);
    SameKeysBacked(mem, mid, h.lo, h.hi, h.free);
    BackedNode(mid, h.lo, h.hi, left);
    var m := mid[end := left.size][end + 8 := hd];
    assert m.Keys == mid.Keys;
    WrittenWithin(mem, mid, m, h.free, k, end);
    SameKeysBacked(mem, m, h.lo, h.hi, h.free);
  }

  class LinkedListAllocator {
    /** The next pointer of the dummy head node. */
    var head: nat
    var mem: Memory
    ghost var heap: Heap

    ghost predicate Valid()
      reads this
    {
      HeapOk(heap) && Linked(mem, head, heap.free) && Backed(mem, heap.lo, heap.hi)
    }

    /** `new` */
    constructor Empty(mem: Memory)
      ensures this.mem == mem && head == 0
    {
      this.mem, head := mem, 0;
    }

    /** `new` and a single call of `init`. */
    constructor (mem: Memory, heapStart: nat, heapSize: nat)
      requires 0 < heapStart && heapStart % NODE_ALIGN == 0 && heapSize >= NODE_SIZE
      requires heapStart + heapSize <= ISIZE_MAX + 1 && Backed(mem, heapStart, heapStart + heapSize)
      ensures Valid() && heap == Initial(heapStart, heapSize)
      ensures OnlyWithin(mem, this.mem, [Region(heapStart, heapSize)])
    {
      this.mem := mem;
      head := 0;
      heap := Initial(heapStart, heapSize);
      new;
      InitialOk(heapStart, heapSize);
      ghost var r := Region(heapStart, heapSize);
      LinkFront(mem, 0, [], r);
      assert [r] + [] == [r];
      Init(heapStart, heapSize);
      assert [r][0].Contains(heapStart) && [r][0].Contains(heapStart + 8);
    }

    method Init(heapStart: nat, heapSize: nat)
      requires heapStart % NODE_ALIGN == 0 && heapSize >= NODE_SIZE && heapStart <= ISIZE_MAX + 1
      requires heapStart in mem && heapStart + 8 in mem
      modifies this`head, this`mem
      ensures mem == old(mem)[heapStart := heapSize][heapStart + 8 := old(head)] && head == heapStart
      ensures mem.Keys == old(mem).Keys
    {
      AddFreeRegion(heapStart, heapSize);
    }

    /** The loop of `init_heap`, which calls `init` once for every page of the heap. */
    method InitHeap(pages: nat, heapStart: nat, heapSize: nat)
      requires heapStart % NODE_ALIGN == 0 && heapSize >= NODE_SIZE && heapStart <= ISIZE_MAX + 1
      requires heapStart in mem && heapStart + 8 in mem && head == 0
      modifies this`head, this`mem
      ensures (mem, head) == Inits(old(mem), heapStart, heapSize, pages)
    {
      for page := 0 to pages
        invariant (mem, head) == Inits(old(mem), heapStart, heapSize, page)
        invariant heapStart in mem && heapStart + 8 in mem
      {
        Init(heapStart, heapSize);
      }
    }

    /** Adds the region to the front of the list. */
    method AddFreeRegion(addr: nat, size: nat)
      requires addr % NODE_ALIGN == 0 && size >= NODE_SIZE && addr <= ISIZE_MAX + 1
      requires addr in mem && addr + 8 in mem
      modifies this`head, this`mem
      ensures mem == old(mem)[addr := size][addr + 8 := old(head)] && head == addr
      ensures mem.Keys == old(mem).Keys
    {
      // the two assertions of the source
      assert AlignUp(addr, NODE_ALIGN) == addr by {
        EightIsPow2();
        AlignUpIsLeast(addr, NODE_ALIGN);
      }
      assert size >= NODE_SIZE;
      var next := head;
      head := 0;
      mem := mem[addr := size][addr + 8 := next];
      head := addr;
    }

    /** Finds the first region that suits, takes it off the list and returns it with the start address. */
    method FindRegion(size: nat, align: nat, ghost free: seq<Region>) returns (found: Option<(Region, nat)>)
      requires Request(size, align) && Walk(mem, head, free) && SearchEnds(mem, head, free, size, align)
      requires forall k | 0 <= k < |free| :: free[k].End() <= ISIZE_MAX + 1
      modifies this`head, this`mem
      ensures mem.Keys == old(mem).Keys
      ensures match FirstFit(free, size, align)
              case None => found == None && head == old(head) && mem == old(mem)
              case Some(k) =>
                && NodeMet(old(mem), free, k)
                && found == Some((free[k], AllocFromRegion(free[k], size, align).value))
                && mem == Unlink(old(mem), free, k) && head == UnlinkHead(old(mem), old(head), free, k)
    {
      hide AllocFromRegion, IsPow2;
      var current: Option<nat> := None;  // None: the dummy head
      var region := head;
      ghost var k := 0;
      while region != 0
        invariant 0 <= k <= |free| && region == NodeAt(free, k)
        invariant current == if k == 0 then None else Some(free[k - 1].start)
        invariant head == old(head) && mem == old(mem)
        invariant FirstFit(free, size, align) == FirstFit(free, size, align, k)
        decreases |free| - k
      {
        assert NodeMet(mem, free, k);
        var node := Region(region, mem[region]);
        assert node == free[k];
        var start := AllocFromRegion(node, size, align);
        if start.Some? {
          if k > 0 { assert NodeMet(mem, free, k - 1); }
          var next := mem[region + 8];
          mem := mem[region + 8 := 0];
          if current.None? {
            head := next;
          } else {
            mem := mem[current.value + 8 := next];
          }
          return Some((node, start.value));
        }
        current := Some(region);
        region := mem[region + 8];
        k := k + 1;
      }
      assert k < |free| ==> NodeMet(mem, free, k);
      return None;
    }

    /** `alloc`: a pointer is aligned and its live region large enough for the layout. */
    method Alloc(layout: Layout) returns (r: AllocResult)
      requires Valid() && ValidLayout(layout)
      modifies this
      ensures Valid()
      ensures SizeAlign(layout).None? ==> r == Panicked && heap == old(heap) && mem == old(mem)
      ensures SizeAlign(layout).Some? ==>
                var (size, align) := SizeAlign(layout).value;
                && Request(size, align)
                && heap == AllocStep(old(heap), size, align).0
                && r == match AllocStep(old(heap), size, align).1 case Some(p) => Pointer(p) case None => Null
      ensures r.Pointer? ==>
                && SizeAlign(layout).Some?
                && var live := Region(r.address, SizeAlign(layout).value.0);
                   heap.live == old(heap).live + [live] && Serves(live, layout)
      ensures OnlyWithin(old(mem), mem, old(heap).free)
    {
      hide HeapOk, Linked, Backed, OnlyWithin, SizeAlign, ValidLayout, AllocStep, AllocEffect, Request, Walk;
      hide SearchEnds;
      var adjusted := SizeAlign(layout);
      if adjusted.None? {
        NothingWritten(mem, heap.free);
        return Panicked;
      }
      var (size, align) := adjusted.value;
      SizeAlignIsRequest(layout);
      AllocServes(heap, layout);
      AllocRefines(heap, mem, head, size, align);
      LeftoverOnHeap(heap, mem, size, align);
      r := AllocAdjusted(size, align, heap.free);
      heap := AllocStep(heap, size, align).0;
    }

    method AllocAdjusted(size: nat, align: nat, ghost free: seq<Region>) returns (r: AllocResult)
      requires Request(size, align) && Walk(mem, head, free) && SearchEnds(mem, head, free, size, align)
      requires forall k | 0 <= k < |free| :: free[k].End() <= ISIZE_MAX + 1
      requires LeftoverWritable(mem, free, size, align)
      modifies this`head, this`mem
      ensures (mem, head, r) == AllocEffect(old(mem), old(head), free, size, align)
    {
      hide AllocFromRegion, IsPow2, Walk, SearchEnds, NodeMet;
      var found := FindRegion(size, align, free);
      if found.None? { return Null; }
      var (region, start) := found.value;
      AllocFromRegionExact(region, size, align);
      assert start + size < WORD;  // the checked addition
      var end := start + size;
      var excess := region.End() - end;  // never negative
      if excess > 0 { AddFreeRegion(end, excess); }
      return Pointer(start);
    }

    method Dealloc(ptr: nat, layout: Layout, ghost i: nat)
      requires Valid() && ValidLayout(layout) && SizeAlign(layout).Some?
      requires i < |heap.live| && heap.live[i] == Region(ptr, SizeAlign(layout).value.0)
      modifies this
      ensures Valid() && heap == FreeStep(old(heap), i)
      ensures OnlyWithin(old(mem), mem, [old(heap).live[i]])
    {
      hide Tiled, Conserved, IsPow2, AlignUp;
      var (size, _) := SizeAlign(layout).value;
      ghost var h := heap;
      OkIsSeparate(h);
      LiveInside(h, i);
      FreeKeepsOk(h, i);
      BackedNode(mem, h.lo, h.hi, h.live[i]);
      LinkFront(mem, head, h.free, h.live[i]);
      AddFreeRegion(ptr, size);
      InsideRegion([h.live[i]], 0, ptr);
      heap := FreeStep(h, i);
    }
  }

  /** A region left over behind an allocation can take a list node, in memory that is there. */
  predicate LeftoverWritable(mem: Memory, free: seq<Region>, size: nat, align: nat)
    requires IsPow2(align) && align < WORD
  {
    var f := FirstFit(free, size, align);
    f.Some? ==>
      var r := free[f.value];
      var end := AllocFromRegion(r, size, align).value + size;
      end < r.End() ==> end % NODE_ALIGN == 0 && r.End() - end >= NODE_SIZE && end in mem && end + 8 in mem
  }

  lemma LeftoverOnHeap(h: Heap, mem: Memory, size: nat, align: nat)
    requires HeapOk(h) && Request(size, align) && Backed(mem, h.lo, h.hi)
    ensures LeftoverWritable(mem, h.free, size, align)
    ensures forall k | 0 <= k < |h.free| :: h.free[k].End() <= ISIZE_MAX + 1
  {
    hide Tiled, Conserved, AllocFromRegion, IsPow2, Backed;
    forall k | 0 <= k < |h.free| ensures h.free[k].End() <= ISIZE_MAX + 1 { FreeInside(h, k); }
    var f := FirstFit(h.free, size, align);
    if f.Some? {
      var r := h.free[f.value];
      FreeInside(h, f.value);
      LeftoverCanHoldNode(h, size, align, f.value);
      var end := AllocFromRegion(r, size, align).value + size;
      if end < r.End() { BackedNode(mem, h.lo, h.hi, Region(end, r.End() - end)); }
    }
  }

  lemma LeftoverCanHoldNode(h: Heap, size: nat, align: nat, k: nat)
    requires HeapOk(h) && Request(size, align) && FirstFit(h.free, size, align) == Some(k)
    ensures var end := AllocFromRegion(h.free[k], size, align).value + size;
            end < h.free[k].End() ==> CanHoldNode(Region(end, h.free[k].End() - end))
  {
    hide Tiled, Conserved, AllocFromRegion, IsPow2;
    AllocKeepsOk(h, size, align);
    var g := AllocStep(h, size, align).0;
    var end := AllocFromRegion(h.free[k], size, align).value + size;
    if end < h.free[k].End() {
      assert g.free[0] == Region(end, h.free[k].End() - end) && g.free[0] in g.free;
    }
  }

  /** A node written at the start of part of a region stays inside that region. */
  lemma InsideRegion(rs: seq<Region>, k: nat, addr: nat)
    requires k < |rs| && rs[k].start <= addr && addr + NODE_SIZE <= rs[k].End()
    ensures Inside(rs, addr) && Inside(rs, addr + 8)
  {
    assert rs[k].Contains(addr) && rs[k].Contains(addr + 8);
  }

  lemma NothingWritten(mem: Memory, rs: seq<Region>)
    ensures OnlyWithin(mem, mem, rs)
  {
  }

  lemma WrittenWithin(before: Memory, mid: Memory, after: Memory, rs: seq<Region>, k: nat, addr: nat)
    requires OnlyWithin(before, mid, rs) && after.Keys == mid.Keys && addr in after && addr + 8 in after
    requires after == mid[addr := after[addr]][addr + 8 := after[addr + 8]]
    requires k < |rs| && rs[k].start <= addr && addr + NODE_SIZE <= rs[k].End()
    ensures OnlyWithin(before, after, rs)
  {
    InsideRegion(rs, k, addr);
  }

  lemma UnlinkWithin(mem: Memory, head: nat, free: seq<Region>, k: nat)
    requires k < |free| && Separate(free) && Linked(mem, head, free)
    ensures NodeLinked(mem, free, k) && OnlyWithin(mem, Unlink(mem, free, k), free)
  {
    assert NodeLinked(mem, free, k);
    InsideRegion(free, k, free[k].start);
    if k > 0 {
      assert NodeLinked(mem, free, k - 1);
      InsideRegion(free, k - 1, free[k - 1].start);
    }
  }

  /** A part of region `k` is apart from all the other regions. */
  lemma WithoutApart(free: seq<Region>, k: nat, part: Region)
    requires k < |free| && Separate(free) && free[k].start <= part.start && part.End() <= free[k].End()
    ensures Separate(Without(free, k))
    ensures forall j | 0 <= j < |Without(free, k)| :: Apart(Without(free, k)[j], part)
  {
    var rest := Without(free, k);
    forall j | 0 <= j < |rest|
      ensures Apart(rest[j], part) && CanHoldNode(rest[j]) && rest[j].start > 0 && rest[j].size >= NODE_SIZE
    {
      var i := if j < k then j else j + 1;
      assert rest[j] == free[i];
      assert if i < k then Apart(free[i], free[k]) else Apart(free[k], free[i]);
    }
    forall i, j | 0 <= i < j < |rest| ensures Apart(rest[i], rest[j]) {
      var i', j' := if i < k then i else i + 1, if j < k then j else j + 1;
      assert rest[i] == free[i'] && rest[j] == free[j'] && Apart(free[i'], free[j']);
    }
  }
}
