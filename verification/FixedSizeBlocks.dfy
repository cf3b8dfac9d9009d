/**
  `FixedSizeBlockAllocator` of src/allocator/fixed_size_block.rs: free blocks are chained through their
  own first word.
*/
module FixedSizeBlocks {
  import opened Options
  import opened Bytes
  import opened Alignment
  import opened Regions
  import opened BlockModel

  /** The next pointers of listed blocks, by block address; 0 is `None`. */
  type Memory = map<nat, nat>

  function NodeAt(list: seq<nat>, k: nat): nat {
    if k < |list| then list[k] else 0
  }

  predicate NodeLinked(mem: Memory, list: seq<nat>, k: nat)
    requires k < |list|
  {
    list[k] in mem && mem[list[k]] == NodeAt(list, k + 1)
  }

  predicate Chained(mem: Memory, head: nat, list: seq<nat>) {
    head == NodeAt(list, 0) && forall k: nat | k < |list| :: NodeLinked(mem, list, k)
  }

  /** Writing a word that no node of the list uses leaves the chain alone. */
  lemma ChainFrame(mem: Memory, head: nat, list: seq<nat>, a: nat, v: nat)
    requires Chained(mem, head, list) && forall k: nat | k < |list| :: list[k] != a
    ensures Chained(mem[a := v], head, list)
  {
    var m := mem[a := v];
    forall k: nat | k < |list| ensures NodeLinked(m, list, k) { assert NodeLinked(mem, list, k); }
  }

  lemma ChainPush(mem: Memory, head: nat, list: seq<nat>, a: nat)
    requires Chained(mem, head, list) && forall k: nat | k < |list| :: list[k] != a
    ensures Chained(mem[a := head], a, [a] + list)
  {
    var m, l := mem[a := head], [a] + list;
    forall k: nat | k < |l| ensures NodeLinked(m, l, k) {
      if k > 0 { assert l[k] == list[k - 1] && NodeLinked(mem, list, k - 1); }
    }
  }

  lemma ChainPop(mem: Memory, head: nat, list: seq<nat>)
    requires Chained(mem, head, list) && list != []
    ensures head == list[0] && head in mem && Chained(mem, mem[head], list[1..])
  {
    assert NodeLinked(mem, list, 0);
    forall k: nat | k < |list[1..]| ensures NodeLinked(mem, list[1..], k) {
      assert list[1..][k] == list[k + 1] && NodeLinked(mem, list, k + 1);
    }
  }

  /**
    `linked_list_allocator::Heap` by its contract: what it grants is aligned and apart from everything
    it has granted and not got back. The body here, which never reuses memory, is one that keeps it.
  */
  class Fallback {
    ghost var owned: multiset<Region>
    var top: nat

    ghost predicate Valid()
      reads this
    {
      top > 0 && forall r | r in owned :: r.End() <= top
    }

    constructor ()
      ensures Valid() && owned == multiset{}
    {
      owned, top := multiset{}, 1;
    }

    method AllocateFirstFit(l: Layout) returns (p: Option<nat>)
      requires Valid() && l.align > 0
      modifies this
      ensures Valid()
      ensures p.None? ==> owned == old(owned)
      ensures p.Some? ==>
                && Grants(old(owned), Region(p.value, l.size), l.align)
                && owned == old(owned) + multiset{Region(p.value, l.size)}
    {
      if * { return None; }
      var a := NextMultiple(top, l.align);
      owned := owned + multiset{Region(a, l.size)};
      top := a + l.size;
      return Some(a);
    }

    method Deallocate(addr: nat, l: Layout)
      requires Valid() && Region(addr, l.size) in owned
      modifies this
      ensures Valid() && owned == old(owned) - multiset{Region(addr, l.size)}
    {
      owned := owned - multiset{Region(addr, l.size)};
    }
  }

  function NextMultiple(top: nat, align: nat): (a: nat)
    requires align > 0
    ensures a > top && a % align == 0
  {
    DivMod(top, align);
    FieldByte(align, top / align + 1, 0);
    TimesNext(align, top / align);
    align * (top / align + 1)
  }

  lemma TimesNext(x: nat, y: nat)
    ensures x * (y + 1) == x * y + x
  {
  }

  class FixedSizeBlockAllocator {
    var listHeads: seq<nat>
    var mem: Memory
    const fallback: Fallback
    ghost var pool: Pool

    ghost predicate Valid()
      reads this, fallback
    {
      && PoolOk(pool) && fallback.Valid() && fallback.owned == pool.owned
      && |listHeads| == CLASSES
      && forall c: nat | c < CLASSES :: Chained(mem, listHeads[c], pool.lists[c])
    }

    constructor ()
      ensures Valid() && pool == Empty() && fresh(fallback)
    {
      listHeads := seq(CLASSES, _ => 0);
      mem := map[];
      fallback := new Fallback();
      pool := Empty();
      new;
      EmptyOk();
    }

    /** `answer` is what the fallback says if it is asked. */
    method Alloc(l: Layout) returns (p: Option<nat>, ghost answer: Option<nat>)
      requires Valid() && IsPow2(l.align)
      modifies this, fallback
      ensures Valid() && Fair(old(pool), Event.Alloc(l, answer))
      ensures (pool, p) == AllocStep(old(pool), l, answer)
      ensures mem.Keys == old(mem).Keys && forall a | a in mem && p != Some(a) :: mem[a] == old(mem)[a]
    {
      hide ListIndex, Accounted, Disjoint, AlignedLists, AlignedLive, IsPow2, Chained;
      var index := ListIndex(l);
      if index.Some? && listHeads[index.value] != 0 {
        p := TakeBlock(l, index.value);
        answer := None;
      } else {
        assert AsksFallback(pool, l) by {
          if index.Some? { HeadIsNull(pool, mem, listHeads[index.value], index.value); }
        }
        var asked := if index.Some? then Layout(BlockSize(index.value), BlockSize(index.value)) else l;
        p := FallbackAlloc(l, asked);
        answer := p;
      }
    }

    method FallbackAlloc(ghost l: Layout, asked: Layout) returns (p: Option<nat>)
      requires Valid() && IsPow2(l.align) && AsksFallback(pool, l) && asked == FallbackLayout(l)
      modifies this`pool, fallback
      ensures Valid() && Fair(old(pool), Event.Alloc(l, p))
      ensures (pool, p) == AllocStep(old(pool), l, p)
    {
      hide ListIndex, Accounted, Disjoint, AlignedLists, AlignedLive, IsPow2, Chained;
      ghost var s := pool;
      PositiveAlign(l);
      p := fallback.AllocateFirstFit(asked);
      assert p.Some? ==> Region(p.value, asked.size) == Footprint(Allocation(p.value, l));
      StepKeepsOk(s, Event.Alloc(l, p));
      pool := AllocStep(s, l, p).0;
      assert pool.lists == s.lists;
    }

    method TakeBlock(l: Layout, c: nat) returns (p: Option<nat>)
      requires Valid() && IsPow2(l.align) && ListIndex(l) == Some(c) && listHeads[c] != 0
      modifies this
      ensures Valid() && !AsksFallback(old(pool), l)
      ensures (pool, p) == AllocStep(old(pool), l, None)
      ensures mem.Keys == old(mem).Keys && forall a | a in mem && p != Some(a) :: mem[a] == old(mem)[a]
    {
      hide ListIndex, Accounted, Disjoint, AlignedLists, AlignedLive, IsPow2, Chained;
      ghost var s := pool;
      var node := listHeads[c];
      assert Chained(mem, listHeads[c], s.lists[c]);
      HeadIsFirst(mem, node, s.lists[c]);
      ChainPop(mem, node, s.lists[c]);
      pool := AllocStep(s, l, None).0;
      PopKeepsOk(s, l);
      var next := mem[node];
      ghost var i := |s.live|;
      forall d: nat | d < CLASSES
        ensures Chained(mem[node := 0], if d == c then next else listHeads[d], pool.lists[d])
      {
        assert Chained(mem, listHeads[d], s.lists[d]);
        forall k: nat | k < |pool.lists[d]| ensures pool.lists[d][k] != node {
          assert pool.live[i] == Allocation(node, l);
          BlocksAreNotEmpty(l, node, c);
          LiveNotListed(pool, i, d, k);
        }
        ChainFrame(mem, if d == c then next else listHeads[d], pool.lists[d], node, 0);
      }
      mem := mem[node := 0];
      listHeads := listHeads[c := next];
      return Some(node);
    }

    method Dealloc(addr: nat, l: Layout, ghost i: nat)
      requires Valid() && i < |pool.live| && pool.live[i] == Allocation(addr, l)
      modifies this, fallback
      ensures Valid() && pool == FreeStep(old(pool), i)
      ensures forall a | a in old(mem) && a != addr :: a in mem && mem[a] == old(mem)[a]
    {
      hide ListIndex, Accounted, Disjoint, AlignedLists, AlignedLive, Chained;
      ghost var s := pool;
      FreeKeepsOk(s, i);
      var index := ListIndex(l);
      if index.Some? {
        var c := index.value;
        var next := listHeads[c];
        assert 8 <= BlockSize(c);  // size and alignment of a node
        forall d: nat, k: nat | d < CLASSES && k < |s.lists[d]| ensures s.lists[d][k] != addr {
          BlocksAreNotEmpty(l, addr, c);
          LiveNotListed(s, i, d, k);
        }
        pool := FreeStep(s, i);
        forall d: nat | d < CLASSES
          ensures Chained(mem[addr := next], if d == c then addr else listHeads[d], pool.lists[d])
        {
          assert Chained(mem, listHeads[d], s.lists[d]);
          if d == c {
            ChainPush(mem, next, s.lists[c], addr);
          } else {
            ChainFrame(mem, listHeads[d], s.lists[d], addr, next);
          }
        }
        mem := mem[addr := next];
        listHeads := listHeads[c := addr];
      } else {
        OwnedByFallback(s, i);
        fallback.Deallocate(addr, l);
        pool := FreeStep(s, i);
        assert pool.lists == s.lists;
      }
    }
  }

  lemma HeadIsNull(s: Pool, mem: Memory, head: nat, c: nat)
    requires PoolOk(s) && c < CLASSES && Chained(mem, head, s.lists[c]) && head == 0
    ensures s.lists[c] == []
  {
  }

  lemma HeadIsFirst(mem: Memory, head: nat, list: seq<nat>)
    requires Chained(mem, head, list) && head != 0
    ensures list != [] && head == list[0]
  {
  }

  lemma PositiveAlign(l: Layout)
    requires IsPow2(l.align)
    ensures FallbackLayout(l).align > 0
  {
  }

  lemma BlocksAreNotEmpty(l: Layout, addr: nat, c: nat)
    requires ListIndex(l) == Some(c)
    ensures Footprint(Allocation(addr, l)).size > 0
  {
  }

  lemma OwnedByFallback(s: Pool, i: nat)
    requires PoolOk(s) && i < |s.live| && ListIndex(s.live[i].layout).None?
    ensures Region(s.live[i].addr, s.live[i].layout.size) in s.owned
  {
    hide ListIndex, Listed, Occupied, Disjoint, AlignedLists, AlignedLive;
    OccupiedWithout(s.live, i);
  }
}
