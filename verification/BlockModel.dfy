/**
  The fixed-size block allocator of src/allocator/fixed_size_block.rs on values: nine lists of blocks
  over a fallback heap. The fallback is known only by its contract; its answers are part of a run.
*/
module BlockModel {
  import opened Options
  import opened Bytes
  import opened Alignment
  import opened Words
  import opened Regions

  const CLASSES := 9

  /** `BLOCK_SIZES` */
  function BlockSize(c: nat): (n: nat)
    requires c < CLASSES
    ensures 8 <= n <= 2048
  {
    if c == 0 then 8 else if c == 1 then 16 else if c == 2 then 32 else if c == 3 then 64 else if c == 4 then 128
    else if c == 5 then 256 else if c == 6 then 512 else if c == 7 then 1024 else 2048
  }

  lemma BlockSizeIsPow2(c: nat)
    requires c < CLASSES
    ensures IsPow2(BlockSize(c))
  {
    assert IsPow2(1) && IsPow2(2) && IsPow2(4) && IsPow2(8) && IsPow2(16) && IsPow2(32) && IsPow2(64);
    assert IsPow2(128) && IsPow2(256) && IsPow2(512) && IsPow2(1024) && IsPow2(2048);
  }

  /** The sizes double from 8 on. */
  lemma BlockSizeDoubles(c: nat)
    requires c < CLASSES
    ensures BlockSize(c) == 8 * Pow2(c)
  {
    assert Pow2(1) == 2 && Pow2(2) == 4 && Pow2(3) == 8 && Pow2(4) == 16 && Pow2(5) == 32;
    assert Pow2(6) == 64 && Pow2(7) == 128 && Pow2(8) == 256;
  }

  function Needed(l: Layout): nat {
    if l.size >= l.align then l.size else l.align
  }

  /** `list_index`: the first class whose blocks are large enough. */
  function ListIndex(l: Layout, c: nat := 0): (r: Option<nat>)
    requires c <= CLASSES
    ensures r.Some? ==> c <= r.value < CLASSES && BlockSize(r.value) >= Needed(l)
    ensures forall j: nat | c <= j < (if r.Some? then r.value else CLASSES) :: BlockSize(j) < Needed(l)
    decreases CLASSES - c, l.size
  {
    if c == CLASSES then None else if BlockSize(c) >= Needed(l) then Some(c) else ListIndex(l, c + 1)
  }

  /** A block of the chosen class, at a multiple of its size, meets the layout; only larger layouts have no class. */
  lemma ListIndexServes(l: Layout)
    requires IsPow2(l.align)
    ensures match ListIndex(l)
            case Some(c) =>
              && l.size <= BlockSize(c)
              && (forall a: nat | a % BlockSize(c) == 0 :: a % l.align == 0)
              && (forall b: nat | b < CLASSES && BlockSize(b) >= Needed(l) :: BlockSize(c) <= BlockSize(b))
            case None => Needed(l) > 2048
  {
    match ListIndex(l)
    case None => assert BlockSize(8) < Needed(l);
    case Some(c) =>
      BlockSizeIsPow2(c);
      forall a: nat | a % BlockSize(c) == 0 ensures a % l.align == 0 {
        MultipleOfSmaller(a, BlockSize(c), l.align);
      }
      forall b: nat | b < CLASSES && BlockSize(b) >= Needed(l) ensures BlockSize(c) <= BlockSize(b) { }
  }

  /** Exactly: the least class whose doubled size reaches both size and alignment. */
  lemma ListIndexExact(l: Layout)
    ensures match ListIndex(l)
            case Some(c) =>
              && c < 9 && l.size <= 8 * Pow2(c) && l.align <= 8 * Pow2(c)
              && (c > 0 ==> l.size > 8 * Pow2(c - 1) || l.align > 8 * Pow2(c - 1))
            case None => l.size > 2048 || l.align > 2048
  {
    hide Pow2, BlockSize;
    match ListIndex(l)
    case None => assert BlockSize(8) < Needed(l) && BlockSize(8) == 2048 by { LargestBlock(); }
    case Some(c) =>
      BlockSizeDoubles(c);
      if c > 0 {
        BlockSizeDoubles(c - 1);
        assert BlockSize(c - 1) < Needed(l);
      }
  }

  lemma LargestBlock()
    ensures BlockSize(8) == 2048
  {
  }

  // ---------------------------------------------------------------- states and steps

  datatype Allocation = Allocation(addr: nat, layout: Layout)

  /** `obtained` counts, per class, the blocks ever got from the fallback; `owned` is all that it has handed out. */
  datatype Pool = Pool(lists: seq<seq<nat>>, live: seq<Allocation>, owned: multiset<Region>, obtained: seq<nat>)

  predicate Shaped(s: Pool) {
    |s.lists| == CLASSES && |s.obtained| == CLASSES
  }

  function Empty(): Pool {
    Pool(seq(CLASSES, _ => []), [], multiset{}, seq(CLASSES, _ => 0))
  }

  /** The memory behind an allocation: a whole block of its class, or exactly what a large layout asks for. */
  function Footprint(a: Allocation): Region {
    match ListIndex(a.layout)
    case Some(c) => Region(a.addr, BlockSize(c))
    case None => Region(a.addr, a.layout.size)
  }

  /** The layout with which the fallback is asked. */
  function FallbackLayout(l: Layout): Layout {
    match ListIndex(l)
    case Some(c) => Layout(BlockSize(c), BlockSize(c))
    case None => l
  }

  /** The fallback is asked for a whole block, aligned to its size, or for exactly the layout; that is what is used. */
  lemma FallbackExact(l: Layout, addr: nat)
    ensures match ListIndex(l)
            case Some(c) =>
              && FallbackLayout(l) == Layout(8 * Pow2(c), 8 * Pow2(c))
              && Footprint(Allocation(addr, l)) == Region(addr, 8 * Pow2(c))
            case None => FallbackLayout(l) == l && Footprint(Allocation(addr, l)) == Region(addr, l.size)
  {
    hide ListIndex, Pow2, BlockSize;
    if ListIndex(l).Some? { BlockSizeDoubles(ListIndex(l).value); }
  }

  predicate AsksFallback(s: Pool, l: Layout)
    requires Shaped(s)
  {
    ListIndex(l).None? || s.lists[ListIndex(l).value] == []
  }

  function Obtain(s: Pool, l: Layout, addr: nat): Pool
    requires Shaped(s)
  {
    var a := Allocation(addr, l);
    var t := s.(live := s.live + [a], owned := s.owned + multiset{Footprint(a)});
    match ListIndex(l)
    case None => t
    case Some(c) => t.(obtained := t.obtained[c := t.obtained[c] + 1])
  }

  /** `alloc`; a fallback answer of `None` is the null pointer. */
  function AllocStep(s: Pool, l: Layout, answer: Option<nat>): (Pool, Option<nat>)
    requires Shaped(s)
  {
    if AsksFallback(s, l) then
      (if answer.None? then (s, None) else (Obtain(s, l, answer.value), answer))
    else
      var c := ListIndex(l).value;
      var addr := s.lists[c][0];
      (s.(lists := s.lists[c := s.lists[c][1..]], live := s.live + [Allocation(addr, l)]), Some(addr))
  }

  /** `dealloc` of the i-th live allocation, with the layout it was made with. */
  function FreeStep(s: Pool, i: nat): Pool
    requires Shaped(s) && i < |s.live|
  {
    var a := s.live[i];
    var t := s.(live := Without(s.live, i));
    match ListIndex(a.layout)
    case Some(c) => t.(lists := t.lists[c := [a.addr] + t.lists[c]])
    case None => t.(owned := t.owned - multiset{Footprint(a)})
  }

  // ---------------------------------------------------------------- runs

  datatype Event = Alloc(layout: Layout, answer: Option<nat>) | Free(i: nat)

  function Step(s: Pool, e: Event): Pool
    requires Shaped(s)
  {
    match e
    case Alloc(l, answer) => AllocStep(s, l, answer).0
    case Free(i) => if i < |s.live| then FreeStep(s, i) else s
  }

  /** The contract of the fallback: the region is aligned and apart from everything it has handed out. */
  predicate Grants(owned: multiset<Region>, r: Region, align: nat) {
    align > 0 && r.start > 0 && r.start % align == 0 && forall o | o in owned :: Apart(o, r)
  }

  predicate Fair(s: Pool, e: Event)
    requires Shaped(s)
  {
    && (e.Alloc? ==> IsPow2(e.layout.align))
    && (e.Alloc? && AsksFallback(s, e.layout) && e.answer.Some? ==>
          Grants(s.owned, Footprint(Allocation(e.answer.value, e.layout)), FallbackLayout(e.layout).align))
  }

  function Run(events: seq<Event>): (s: Pool)
    ensures Shaped(s)
    decreases |events|
  {
    if events == [] then Empty() else Step(Run(events[..|events| - 1]), events[|events| - 1])
  }

  /** Every answer of the fallback in the run kept its contract. */
  predicate FairRun(events: seq<Event>)
    decreases |events|
  {
    events == [] || (FairRun(events[..|events| - 1]) && Fair(Run(events[..|events| - 1]), events[|events| - 1]))
  }

  // ---------------------------------------------------------------- what lists and allocations occupy

  function Blocks(list: seq<nat>, size: nat): multiset<Region> {
    if list == [] then multiset{} else multiset{Region(list[0], size)} + Blocks(list[1..], size)
  }

  /** The blocks on the lists of the first `k` classes. */
  function Listed(lists: seq<seq<nat>>, k: nat): multiset<Region>
    requires k <= CLASSES && |lists| == CLASSES
    decreases k, |lists|
  {
    if k == 0 then multiset{} else Listed(lists, k - 1) + Blocks(lists[k - 1], BlockSize(k - 1))
  }

  function Occupied(live: seq<Allocation>): multiset<Region> {
    if live == [] then multiset{} else multiset{Footprint(live[0])} + Occupied(live[1..])
  }

  lemma {:induction false} OccupiedAppend(s: seq<Allocation>, t: seq<Allocation>)
    ensures Occupied(s + t) == Occupied(s) + Occupied(t)
    decreases |s|
  {
    hide Footprint;
    if s == [] {
      assert s + t == t;
    } else {
      assert (s + t)[0] == s[0] && (s + t)[1..] == s[1..] + t;
      OccupiedAppend(s[1..], t);
    }
  }

  lemma OccupiedOne(a: Allocation)
    ensures Occupied([a]) == multiset{Footprint(a)}
  {
    hide Footprint;
    assert [a][1..] == [];
  }

  lemma OccupiedWithout(live: seq<Allocation>, i: nat)
    requires i < |live|
    ensures Occupied(live) == Occupied(Without(live, i)) + multiset{Footprint(live[i])}
  {
    hide Footprint, Occupied;
    assert live == live[..i] + ([live[i]] + live[i + 1..]);
    OccupiedAppend(live[..i], [live[i]] + live[i + 1..]);
    OccupiedAppend([live[i]], live[i + 1..]);
    OccupiedAppend(live[..i], live[i + 1..]);
    OccupiedOne(live[i]);
  }

  lemma BlocksPush(addr: nat, list: seq<nat>, size: nat)
    ensures Blocks([addr] + list, size) == multiset{Region(addr, size)} + Blocks(list, size)
  {
    assert ([addr] + list)[1..] == list;
  }

  lemma {:induction false} ListedPush(lists: seq<seq<nat>>, c: nat, addr: nat, k: nat)
    requires k <= CLASSES && |lists| == CLASSES && c < CLASSES
    ensures Listed(lists[c := [addr] + lists[c]], k)
         == Listed(lists, k) + if c < k then multiset{Region(addr, BlockSize(c))} else multiset{}
    decreases k
  {
    hide BlockSize, Blocks;
    if k > 0 {
      ListedPush(lists, c, addr, k - 1);
      if c == k - 1 { BlocksPush(addr, lists[c], BlockSize(c)); }
    }
  }

  lemma {:induction false} BlocksAt(list: seq<nat>, size: nat, k: nat)
    requires k < |list|
    ensures Region(list[k], size) in Blocks(list, size)
    decreases k
  {
    if k > 0 { BlocksAt(list[1..], size, k - 1); }
  }

  lemma {:induction false} ListedAt(lists: seq<seq<nat>>, c: nat, k: nat, n: nat)
    requires |lists| == CLASSES && c < n <= CLASSES && k < |lists[c]|
    ensures Region(lists[c][k], BlockSize(c)) in Listed(lists, n)
    decreases n
  {
    hide BlockSize;
    if c == n - 1 { BlocksAt(lists[c], BlockSize(c), k); } else { ListedAt(lists, c, k, n - 1); }
  }

  // ---------------------------------------------------------------- the invariant

  predicate Disjoint(owned: multiset<Region>) {
    forall r, o | r in owned && o in owned :: if r == o then owned[r] == 1 || r.size == 0 else Apart(r, o)
  }

  /** Every listed address is a multiple of its block size. */
  predicate AlignedLists(s: Pool)
    requires Shaped(s)
  {
    forall c: nat, k: nat | c < CLASSES && k < |s.lists[c]| :: s.lists[c][k] % BlockSize(c) == 0 && s.lists[c][k] > 0
  }

  predicate AlignedTo(addr: nat, align: nat) {
    align > 0 && addr % align == 0
  }

  predicate GoodAllocation(a: Allocation) {
    IsPow2(a.layout.align) && a.addr > 0 && AlignedTo(a.addr, FallbackLayout(a.layout).align)
  }

  predicate AlignedLive(s: Pool) {
    forall a | a in s.live :: GoodAllocation(a)
  }

  predicate Accounted(s: Pool)
    requires Shaped(s)
  {
    Listed(s.lists, CLASSES) + Occupied(s.live) == s.owned
  }

  predicate PoolOk(s: Pool) {
    Shaped(s) && Accounted(s) && Disjoint(s.owned) && AlignedLists(s) && AlignedLive(s)
  }

  lemma {:induction false} EmptyListed(k: nat)
    requires k <= CLASSES
    ensures Listed(Empty().lists, k) == multiset{}
  {
    hide BlockSize;
    if k > 0 { EmptyListed(k - 1); }
  }

  lemma GrantKeepsDisjoint(owned: multiset<Region>, r: Region, align: nat)
    requires Disjoint(owned) && Grants(owned, r, align)
    ensures Disjoint(owned + multiset{r})
  {
    var all := owned + multiset{r};
    forall x, y | x in all && y in all ensures if x == y then all[x] == 1 || x.size == 0 else Apart(x, y) {
      if x == r && r in owned { assert Apart(r, r); }
      if x != r && y == r { assert x in owned; }
      if y != r && x == r { assert y in owned; }
      if x != r && y != r { assert x in owned && y in owned; }
    }
  }

  lemma ObtainKeepsOk(s: Pool, l: Layout, addr: nat)
    requires PoolOk(s) && IsPow2(l.align) && Grants(s.owned, Footprint(Allocation(addr, l)), FallbackLayout(l).align)
    ensures PoolOk(Obtain(s, l, addr))
  {
    hide Listed, Occupied, Disjoint, Footprint, IsPow2;
    var a := Allocation(addr, l);
    var t := Obtain(s, l, addr);
    GrantKeepsDisjoint(s.owned, Footprint(a), FallbackLayout(l).align);
    OccupiedAppend(s.live, [a]);
    OccupiedOne(a);
    FootprintStart(a);
    assert GoodAllocation(Allocation(addr, l));
  }

  lemma FootprintStart(a: Allocation)
    ensures Footprint(a).start == a.addr
  {
  }

  /** Taking the head of a list for an allocation moves the block from listed to occupied. */
  lemma PopKeepsOk(s: Pool, l: Layout)
    requires PoolOk(s) && IsPow2(l.align) && !AsksFallback(s, l)
    ensures PoolOk(AllocStep(s, l, None).0)
  {
    hide Listed, Occupied, Disjoint, IsPow2, BlockSize;
    var c := ListIndex(l).value;
    var addr, rest := s.lists[c][0], s.lists[c][1..];
    var t := AllocStep(s, l, None).0;
    assert s.lists[c] == [addr] + rest && t.lists[c := [addr] + rest] == s.lists;
    ListedPush(t.lists, c, addr, CLASSES);
    OccupiedAppend(s.live, [Allocation(addr, l)]);
    OccupiedOne(Allocation(addr, l));
    forall d: nat, k: nat | d < CLASSES && k < |t.lists[d]|
      ensures t.lists[d][k] % BlockSize(d) == 0 && t.lists[d][k] > 0
    {
      if d == c { assert t.lists[d][k] == s.lists[c][k + 1]; }
    }
    assert s.lists[c][0] % BlockSize(c) == 0;
    assert GoodAllocation(Allocation(addr, l));
  }

  lemma FreeKeepsOk(s: Pool, i: nat)
    requires PoolOk(s) && i < |s.live|
    ensures PoolOk(FreeStep(s, i))
  {
    hide Listed, Occupied, GoodAllocation, BlockSize, ListIndex, AlignedLists, Disjoint;
    var a, t := s.live[i], FreeStep(s, i);
    OccupiedWithout(s.live, i);
    assert forall b | b in t.live :: b in s.live;
    match ListIndex(a.layout)
    case Some(c) =>
      ListedPush(s.lists, c, a.addr, CLASSES);
      PushKeepsAligned(s, i, c);
    case None =>
      FewerDisjoint(s.owned, t.owned);
      assert t.lists == s.lists;
      SameAligned(s, t);
  }

  lemma SameAligned(s: Pool, t: Pool)
    requires Shaped(s) && Shaped(t) && AlignedLists(s) && t.lists == s.lists
    ensures AlignedLists(t)
  {
  }

  lemma FewerDisjoint(owned: multiset<Region>, fewer: multiset<Region>)
    requires Disjoint(owned) && fewer <= owned
    ensures Disjoint(fewer)
  {
    forall r, o | r in fewer && o in fewer ensures if r == o then fewer[r] == 1 || r.size == 0 else Apart(r, o) {
      assert r in owned && o in owned && fewer[r] <= owned[r];
    }
  }

  lemma PushKeepsAligned(s: Pool, i: nat, c: nat)
    requires Shaped(s) && AlignedLists(s) && AlignedLive(s) && i < |s.live| && ListIndex(s.live[i].layout) == Some(c)
    ensures AlignedLists(FreeStep(s, i))
  {
    hide GoodAllocation, BlockSize, ListIndex;
    var t := FreeStep(s, i);
    FreedIsAligned(s, i);
    forall d: nat, k: nat | d < CLASSES && k < |t.lists[d]|
      ensures t.lists[d][k] % BlockSize(d) == 0 && t.lists[d][k] > 0
    {
      if d == c && k > 0 { assert t.lists[d][k] == s.lists[c][k - 1]; }
    }
  }

  lemma FreedIsAligned(s: Pool, i: nat)
    requires AlignedLive(s) && i < |s.live| && ListIndex(s.live[i].layout).Some?
    ensures s.live[i].addr % BlockSize(ListIndex(s.live[i].layout).value) == 0 && s.live[i].addr > 0
  {
    assert GoodAllocation(s.live[i]);
  }

  lemma StepKeepsOk(s: Pool, e: Event)
    requires PoolOk(s) && Fair(s, e)
    ensures PoolOk(Step(s, e))
  {
    hide Accounted, Disjoint, AlignedLists, AlignedLive, ListIndex;
    match e
    case Alloc(l, answer) =>
      if !AsksFallback(s, l) {
        PopKeepsOk(s, l);
      } else if answer.Some? {
        ObtainKeepsOk(s, l, answer.value);
      }
    case Free(i) => if i < |s.live| { FreeKeepsOk(s, i); }
  }

  lemma {:induction false} RunOk(events: seq<Event>)
    requires FairRun(events)
    ensures PoolOk(Run(events))
    decreases |events|
  {
    hide Accounted, Disjoint, AlignedLists, AlignedLive, Step, Fair;
    if events == [] {
      assert PoolOk(Empty()) by { EmptyOk(); }
    } else {
      RunOk(events[..|events| - 1]);
      StepKeepsOk(Run(events[..|events| - 1]), events[|events| - 1]);
    }
  }

  lemma EmptyOk()
    ensures PoolOk(Empty())
  {
    hide Listed;
    EmptyListed(CLASSES);
  }

  /**
    Block safety over every run with a fair fallback: two blocks, listed or live, never overlap; listed
    blocks sit at multiples of their size; every live allocation meets its layout.
  */
  lemma BlockSafety(events: seq<Event>, r: Region, o: Region, i: nat)
    requires FairRun(events)
    ensures var s := Run(events);
            && (multiset{r, o} <= Listed(s.lists, CLASSES) + Occupied(s.live) ==> Apart(r, o))
            && AlignedLists(s)
            && (i < |s.live| ==>
                  && AlignedTo(s.live[i].addr, s.live[i].layout.align)
                  && Footprint(s.live[i]).start == s.live[i].addr && Footprint(s.live[i]).size >= s.live[i].layout.size)
  {
    hide Run, FairRun, Listed, Occupied, BlockSize, GoodAllocation, ListIndex;
    RunOk(events);
    var s := Run(events);
    if multiset{r, o} <= s.owned {
      assert r in multiset{r, o} && o in multiset{r, o};
      assert r in s.owned && o in s.owned;
      if r == o { assert multiset{r, o}[r] == 2; }
    }
    if i < |s.live| {
      assert s.live[i] in s.live;
      MeetsLayout(s.live[i]);
    }
  }

  lemma MeetsLayout(a: Allocation)
    requires GoodAllocation(a)
    ensures AlignedTo(a.addr, a.layout.align)
    ensures Footprint(a).start == a.addr && Footprint(a).size >= a.layout.size
  {
    hide BlockSize;
    assert a.layout.align > 0;
    ListIndexServes(a.layout);
  }

  /** A live block is on no list. */
  lemma LiveNotListed(s: Pool, i: nat, c: nat, k: nat)
    requires PoolOk(s) && i < |s.live| && c < CLASSES && k < |s.lists[c]|
    requires Footprint(s.live[i]).size > 0
    ensures s.live[i].addr != s.lists[c][k]
  {
    hide Listed, Occupied, ListIndex, AlignedLists, AlignedLive;
    var r, o := Footprint(s.live[i]), Region(s.lists[c][k], BlockSize(c));
    OccupiedWithout(s.live, i);
    ListedAt(s.lists, c, k, CLASSES);
    assert r in s.owned && o in s.owned;
    assert r == o ==> s.owned[r] >= 2;
  }

  // ---------------------------------------------------------------- high-water mark

  function LiveIn(live: seq<Allocation>, c: nat): nat {
    if live == [] then 0 else (if ListIndex(live[0].layout) == Some(c) then 1 else 0) + LiveIn(live[1..], c)
  }

  function Max(a: nat, b: nat): nat { if a >= b then a else b }

  /** The largest number of blocks of class `c` that were live at once, at any point of the run. */
  function HighWater(events: seq<Event>, c: nat): nat
    decreases |events|
  {
    var now := LiveIn(Run(events).live, c);
    if events == [] then now else Max(HighWater(events[..|events| - 1], c), now)
  }

  lemma {:induction false} LiveInAppend(s: seq<Allocation>, t: seq<Allocation>, c: nat)
    ensures LiveIn(s + t, c) == LiveIn(s, c) + LiveIn(t, c)
    decreases |s|
  {
    hide ListIndex;
    if s == [] {
      assert s + t == t;
    } else {
      assert (s + t)[0] == s[0] && (s + t)[1..] == s[1..] + t;
      LiveInAppend(s[1..], t, c);
    }
  }

  lemma LiveInOne(a: Allocation, c: nat)
    ensures LiveIn([a], c) == if ListIndex(a.layout) == Some(c) then 1 else 0
  {
    hide ListIndex;
    assert [a][1..] == [];
  }

  lemma LiveInWithout(live: seq<Allocation>, i: nat, c: nat)
    requires i < |live|
    ensures LiveIn(live, c) == LiveIn(Without(live, i), c) + if ListIndex(live[i].layout) == Some(c) then 1 else 0
  {
    hide ListIndex;
    assert live == live[..i] + ([live[i]] + live[i + 1..]);
    LiveInAppend(live[..i], [live[i]] + live[i + 1..], c);
    LiveInAppend([live[i]], live[i + 1..], c);
    LiveInAppend(live[..i], live[i + 1..], c);
    LiveInOne(live[i], c);
  }

  /** Blocks obtained are blocks listed plus blocks live; a step obtains one only when none is listed. */
  predicate Balanced(s: Pool, c: nat)
    requires Shaped(s) && c < CLASSES
  {
    s.obtained[c] == |s.lists[c]| + LiveIn(s.live, c)
  }

  lemma StepBalanced(s: Pool, e: Event, c: nat)
    requires Shaped(s) && c < CLASSES && Balanced(s, c)
    ensures var t := Step(s, e);
            && Balanced(t, c)
            && t.obtained[c] == Max(s.obtained[c], LiveIn(t.live, c))
  {
    hide ListIndex, Footprint;
    match e
    case Alloc(l, answer) =>
      var p := AllocStep(s, l, answer).1;
      if p.Some? {
        LiveInAppend(s.live, [Allocation(p.value, l)], c);
        LiveInOne(Allocation(p.value, l), c);
      }
    case Free(i) => if i < |s.live| { LiveInWithout(s.live, i, c); }
  }

  /**
    For every run and every class: the blocks ever obtained are those listed plus those live, and their
    number is the largest number of blocks of the class ever live at once.
  */
  lemma {:induction false} HighWaterMark(events: seq<Event>, c: nat)
    requires c < CLASSES
    ensures var s := Run(events);
            s.obtained[c] == |s.lists[c]| + LiveIn(s.live, c) == HighWater(events, c)
    decreases |events|
  {
    hide Step, ListIndex;
    if events != [] {
      HighWaterMark(events[..|events| - 1], c);
      StepBalanced(Run(events[..|events| - 1]), events[|events| - 1], c);
    }
  }

  /** A loop that allocates a layout and frees it again. */
  predicate Alternating(events: seq<Event>, l: Layout) {
    forall i :: 0 <= i < |events| ==>
      if i % 2 == 0 then events[i].Alloc? && events[i].layout == l else events[i] == Free(0)
  }

  lemma StepLive(s: Pool, e: Event)
    requires Shaped(s)
    ensures |Step(s, e).live| <= |s.live| + 1
    ensures e == Free(0) && |s.live| > 0 ==> |Step(s, e).live| == |s.live| - 1
    ensures e.Free? ==> |Step(s, e).live| <= |s.live|
  {
    hide ListIndex, Footprint;
  }

  lemma {:induction false} AlternatingLive(events: seq<Event>, l: Layout)
    requires Alternating(events, l)
    ensures |Run(events).live| <= |events| % 2
    decreases |events|
  {
    hide ListIndex, Footprint, Obtain;
    if events != [] {
      var s, e := events[..|events| - 1], events[|events| - 1];
      AlternatingLive(s, l);
      StepLive(Run(s), e);
    }
  }

  lemma {:induction false} LiveInBound(live: seq<Allocation>, c: nat)
    ensures LiveIn(live, c) <= |live|
  {
    if live != [] { LiveInBound(live[1..], c); }
  }

  lemma {:induction false} AlternatingHighWater(events: seq<Event>, l: Layout, c: nat)
    requires Alternating(events, l)
    ensures HighWater(events, c) <= 1
    decreases |events|
  {
    hide ListIndex, Run;
    AlternatingLive(events, l);
    LiveInBound(Run(events).live, c);
    if events != [] { AlternatingHighWater(events[..|events| - 1], l, c); }
  }

  /** However long such a loop runs, it needs one block. */
  lemma AlternatingNeedsOneBlock(events: seq<Event>, l: Layout, c: nat)
    requires Alternating(events, l) && c < CLASSES
    ensures Run(events).obtained[c] <= 1
  {
    HighWaterMark(events, c);
    AlternatingHighWater(events, l, c);
  }

  /** A block taken from a list and released goes back to where it was; a large one leaves the fallback as it was. */
  lemma FreeUndoesAlloc(s: Pool, l: Layout, answer: Option<nat>)
    requires Shaped(s) && AllocStep(s, l, answer).1.Some?
    ensures var (t, p) := AllocStep(s, l, answer);
            var u := FreeStep(t, |s.live|);
            && u.live == s.live
            && (match ListIndex(l)
                case Some(c) =>
                  && u.lists == s.lists[c := [p.value] + t.lists[c]] && u.owned == t.owned
                  && (!AsksFallback(s, l) ==> u == s)
                case None => u == s)
  {
    hide ListIndex, Footprint;
    var (t, p) := AllocStep(s, l, answer);
    assert t.live == s.live + [Allocation(p.value, l)];
    assert Without(t.live, |s.live|) == s.live;
    if ListIndex(l).Some? && !AsksFallback(s, l) {
      var c := ListIndex(l).value;
      assert [s.lists[c][0]] + s.lists[c][1..] == s.lists[c];
    }
  }
}
