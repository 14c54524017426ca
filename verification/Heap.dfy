/**
 * The metric-set heap: a best-fit allocator whose free chunks are indexed both
 * by size and by address.  The heap lock makes every operation atomic.
 */
module Heap {
  import opened Prelude
  import opened HeapLayout
  import opened HeapSizes
  import Idx = OrderedIndex

  /** Each free chunk outside `out` has one node in either tree, and nothing else has. */
  ghost predicate Indexed(m: Layout, bySize: seq<Idx.Node>, byAddr: seq<Idx.Node>, out: set<nat>) {
    && Idx.Valid(bySize) && Idx.Valid(byAddr)
    && (forall n :: n in bySize <==> n.off in m && n.off !in out && m[n.off] == FreeHdr(n.key))
    && (forall n :: n in byAddr <==> n.off in m && n.off !in out && m[n.off].FreeHdr? && n.key == n.off)
  }

  /** `p` is a smallest free chunk among those with at least `k` grains. */
  ghost predicate BestFit(m: Layout, k: nat, p: nat) {
    && p in m && m[p].FreeHdr? && k <= m[p].count
    && (forall c | c in m && m[c].FreeHdr? && k <= m[c].count :: m[p].count <= m[c].count)
  }

  lemma ChunkWithinTotal(m: Layout, grain: nat, total: nat, c: nat)
    requires Tiled(m, grain, total) && c in m
    ensures m[c].count <= total
  {
    assert End(m, grain, c) <= Limit(grain, total);
    BytesOrder(total, m[c].count, grain);
  }

  /** What the size tree's least upper bound tells about the memory. */
  lemma RoomIffLubFound(m: Layout, grain: nat, total: nat, bySize: seq<Idx.Node>, byAddr: seq<Idx.Node>, k: nat,
                        lub: Option<Idx.Node>)
    requires Tiled(m, grain, total) && Coalesced(m, grain) && Indexed(m, bySize, byAddr, {}) && 0 < k
    requires lub.None? ==> forall n | n in bySize :: n.key < k
    requires lub.Some? ==> lub.value in bySize && k <= lub.value.key
                           && forall n | n in bySize && k <= n.key :: lub.value.key <= n.key
    ensures lub.Some? <==> HasRoom(m, grain, k)
    ensures lub.Some? ==> BestFit(m, k, lub.value.off) && k <= total
  {
    RunIffChunk(m, grain, total, k);
    assert forall c | c in m && m[c].FreeHdr? :: Idx.Node(m[c].count, c) in bySize;
    if lub.Some? {
      ChunkWithinTotal(m, grain, total, lub.value.off);
    }
  }

  lemma InitiallyTiled(grain: nat, total: nat)
    requires 0 < grain && 0 < total
    ensures var m := map[START := FreeHdr(total)];
            Tiled(m, grain, total) && Coalesced(m, grain) && Live(m) == map[]
  {
    var m := map[START := FreeHdr(total)];
    BytesOrder(0, total, grain);
    assert START == START + Bytes(0, grain);
    assert End(m, grain, START) == Limit(grain, total);
  }

  /** The bytes of the chunks at the given nodes. */
  ghost function Covered(m: Layout, grain: nat, nodes: seq<Idx.Node>): set<nat>
    requires forall n | n in nodes :: n.off in m
  {
    if nodes == [] then {}
    else
      var n := nodes[|nodes| - 1];
      Covered(m, grain, nodes[..|nodes| - 1]) + Span(n.off, End(m, grain, n.off))
  }

  lemma {:induction false} InCovered(m: Layout, grain: nat, nodes: seq<Idx.Node>, x: nat)
    requires forall n | n in nodes :: n.off in m
    ensures x in Covered(m, grain, nodes) <==> exists n :: n in nodes && n.off <= x < End(m, grain, n.off)
  {
    if nodes != [] {
      var n, init := nodes[|nodes| - 1], nodes[..|nodes| - 1];
      InCovered(m, grain, init, x);
      assert forall k | k in nodes :: k == n || k in init;
    }
  }

  /** One tree node visited by the statistics callback. */
  function Visit(info: Info, count: nat): Info {
    Info(info.freeChunks + 1, info.freeGrains + count,
         if count < info.smallest then count else info.smallest,
         if count > info.largest then count else info.largest)
  }

  function Stat(m: Layout, nodes: seq<Idx.Node>, size: nat): Info {
    if nodes == [] then Info(0, 0, size + 1, 0)
    else
      var n := nodes[|nodes| - 1];
      Visit(Stat(m, nodes[..|nodes| - 1], size), if n.off in m then m[n.off].count else 0)
  }

  ghost function Offsets(nodes: seq<Idx.Node>): set<nat> { set n | n in nodes :: n.off }

  ghost predicate Ascending(m: Layout, nodes: seq<Idx.Node>) {
    && (forall n | n in nodes :: n.off in m)
    && (forall j, k | 0 <= j < k < |nodes| :: nodes[j].off < nodes[k].off)
  }

  lemma CoverOneMore(m: Layout, grain: nat, init: seq<Idx.Node>, n: Idx.Node)
    requires Apart(m, grain) && Ascending(m, init) && n.off in m
    requires forall k | k in init :: k.off < n.off
    ensures |Covered(m, grain, init) + Span(n.off, End(m, grain, n.off))|
         == |Covered(m, grain, init)| + Bytes(m[n.off].count, grain)
  {
    SpanSize(n.off, End(m, grain, n.off));
    forall x | x in Covered(m, grain, init) ensures x !in Span(n.off, End(m, grain, n.off)) {
      InCovered(m, grain, init, x);
      var k :| k in init && k.off <= x < End(m, grain, k.off);
      assert End(m, grain, k.off) <= n.off;
    }
  }

  ghost function SizeSum(m: Layout, grain: nat, nodes: seq<Idx.Node>): nat {
    if nodes == [] then 0
    else
      var n := nodes[|nodes| - 1];
      SizeSum(m, grain, nodes[..|nodes| - 1]) + if n.off in m then Bytes(m[n.off].count, grain) else 0
  }

  lemma {:induction false} StatSumsSizes(m: Layout, grain: nat, nodes: seq<Idx.Node>, size: nat)
    ensures Bytes(Stat(m, nodes, size).freeGrains, grain) == SizeSum(m, grain, nodes)
  {
    if nodes != [] {
      var n, init := nodes[|nodes| - 1], nodes[..|nodes| - 1];
      StatSumsSizes(m, grain, init, size);
      BytesAdd(Stat(m, init, size).freeGrains, if n.off in m then m[n.off].count else 0, grain);
    }
  }

  lemma {:induction false} CoveredSize(m: Layout, grain: nat, nodes: seq<Idx.Node>)
    requires Apart(m, grain) && Ascending(m, nodes)
    ensures |Covered(m, grain, nodes)| == SizeSum(m, grain, nodes)
  {
    if nodes != [] {
      var n, init := nodes[|nodes| - 1], nodes[..|nodes| - 1];
      CoveredSize(m, grain, init);
      assert n in nodes && forall k | k in init :: k in nodes && k.off < n.off;
      CoverOneMore(m, grain, init, n);
    }
  }

  lemma {:induction false} StatCountsChunks(m: Layout, nodes: seq<Idx.Node>, size: nat)
    requires Ascending(m, nodes)
    ensures Stat(m, nodes, size).freeChunks == |Offsets(nodes)|
  {
    if nodes != [] {
      var n, init := nodes[|nodes| - 1], nodes[..|nodes| - 1];
      StatCountsChunks(m, init, size);
      assert forall k :: k in nodes <==> k == n || k in init;
      assert Offsets(nodes) == Offsets(init) + {n.off};
      assert forall k | k in init :: k.off < n.off;
    }
  }

  lemma {:induction false} StatBounds(m: Layout, nodes: seq<Idx.Node>, size: nat)
    requires forall n | n in nodes :: n.off in m && m[n.off].FreeHdr? && m[n.off].count <= size
    ensures var info := Stat(m, nodes, size);
            && (forall n | n in nodes :: info.smallest <= m[n.off].count <= info.largest)
            && (nodes == [] ==> info.largest == 0 && info.smallest == size + 1)
            && (nodes != [] ==> FreeHdr(info.largest) in m.Values && FreeHdr(info.smallest) in m.Values)
  {
    if nodes != [] {
      var n, init := nodes[|nodes| - 1], nodes[..|nodes| - 1];
      StatBounds(m, init, size);
      assert forall k | k in nodes :: k == n || k in init;
      assert m[n.off] in m.Values;
    }
  }

  ghost function FreeStarts(m: Layout): set<nat> { set c | c in m && m[c].FreeHdr? }

  /** Chunk starts, and chunk counts, stay below the heap size; no chunk runs past the region. */
  lemma SmallerThanHeap(m: Layout, grain: nat, total: nat, size: nat, bits: nat, c: nat)
    requires Tiled(m, grain, total) && c in m
    requires MM_FREE_SIZE <= grain == Pow2(bits) && total == Shr(size, bits)
    ensures c < size && m[c].count <= size
    ensures End(m, grain, c) <= size + START
  {
    ClearLowBits(size, bits);
    ShlIsBytes(total, bits);
    assert c < End(m, grain, c) <= Limit(grain, total);
    BytesOrder(0, m[c].count, grain);
    BytesAdd(1, m[c].count - 1, grain);
    assert Bytes(1, grain) == grain;
    BytesAtLeast(m[c].count, grain);
  }

  lemma {:induction false} BytesAtLeast(n: nat, grain: nat)
    requires 0 < grain
    ensures n <= Bytes(n, grain)
  {
    if n > 0 {
      BytesAtLeast(n - 1, grain);
    }
  }

  datatype Info = Info(freeChunks: nat, freeGrains: nat, smallest: nat, largest: nat)

  /** The statistics are those of the chunks: bytes and chunks counted, extremes attained. */
  ghost predicate Describes(info: Info, m: Layout, grain: nat, total: nat, size: nat) {
    && Bytes(info.freeGrains, grain) == |FreeBytes(m, grain, total)|
    && Bytes(info.freeGrains, grain) + |LiveBytes(Live(m), grain, total)| == Bytes(total, grain)
    && info.freeChunks == |FreeStarts(m)|
    && (forall c | c in m && m[c].FreeHdr? :: info.smallest <= m[c].count <= info.largest)
    && (FreeStarts(m) != {} ==> FreeHdr(info.largest) in m.Values && FreeHdr(info.smallest) in m.Values)
    && (FreeStarts(m) == {} ==> info.largest == 0 && info.smallest == size + 1)
  }

  lemma NodesAreFree(m: Layout, grain: nat, total: nat, bySize: seq<Idx.Node>, byAddr: seq<Idx.Node>, size: nat,
                     bits: nat)
    requires Tiled(m, grain, total) && Indexed(m, bySize, byAddr, {})
    requires MM_FREE_SIZE <= grain == Pow2(bits) && total == Shr(size, bits)
    ensures Ascending(m, byAddr) && Offsets(byAddr) == FreeStarts(m)
    ensures forall n | n in byAddr :: n.off in m && m[n.off].FreeHdr? && m[n.off].count <= size
    ensures forall c | c in m && m[c].FreeHdr? :: Idx.Node(c, c) in byAddr
  {
    forall n | n in byAddr ensures m[n.off].count <= size {
      SmallerThanHeap(m, grain, total, size, bits, n.off);
    }
    assert forall c | c in m && m[c].FreeHdr? :: Idx.Node(c, c) in byAddr;
  }

  lemma StatCountsBytes(m: Layout, grain: nat, total: nat, byAddr: seq<Idx.Node>, size: nat)
    requires Tiled(m, grain, total) && Ascending(m, byAddr)
    requires forall n | n in byAddr :: n.off in m && m[n.off].FreeHdr?
    requires forall c | c in m && m[c].FreeHdr? :: Idx.Node(c, c) in byAddr
    ensures Bytes(Stat(m, byAddr, size).freeGrains, grain) == |FreeBytes(m, grain, total)|
  {
    StatSumsSizes(m, grain, byAddr, size);
    CoveredSize(m, grain, byAddr);
    CoveredIsFree(m, grain, total, byAddr);
  }

  lemma StatDescribesHeap(m: Layout, grain: nat, total: nat, bySize: seq<Idx.Node>, byAddr: seq<Idx.Node>, size: nat,
                          bits: nat)
    requires Tiled(m, grain, total) && Indexed(m, bySize, byAddr, {})
    requires MM_FREE_SIZE <= grain == Pow2(bits) && total == Shr(size, bits)
    ensures Describes(Stat(m, byAddr, size), m, grain, total, size)
  {
    NodesAreFree(m, grain, total, bySize, byAddr, size, bits);
    StatBounds(m, byAddr, size);
    StatCountsChunks(m, byAddr, size);
    StatCountsBytes(m, grain, total, byAddr, size);
    BytesAreConserved(m, grain, total);
    if byAddr == [] {
      assert Offsets(byAddr) == {};
    } else {
      assert byAddr[0] in byAddr;
      assert byAddr[0].off in Offsets(byAddr);
    }
  }

  lemma CoveredIsFree(m: Layout, grain: nat, total: nat, byAddr: seq<Idx.Node>)
    requires Tiled(m, grain, total)
    requires forall n | n in byAddr :: n.off in m && m[n.off].FreeHdr?
    requires forall c | c in m && m[c].FreeHdr? :: Idx.Node(c, c) in byAddr
    ensures Covered(m, grain, byAddr) == FreeBytes(m, grain, total)
  {
    forall x: nat ensures x in Covered(m, grain, byAddr) <==> x in FreeBytes(m, grain, total) {
      InCovered(m, grain, byAddr, x);
      if x in Covered(m, grain, byAddr) {
        var n :| n in byAddr && n.off <= x < End(m, grain, n.off);
        assert FreeByte(m, grain, x);
      }
      if x in FreeBytes(m, grain, total) {
        var c :| c in m && m[c].FreeHdr? && c <= x < End(m, grain, c);
        assert Idx.Node(c, c) in byAddr;
      }
    }
  }

  datatype Op = OpAlloc(size: nat) | OpFree(ptr: nat)

  /** What one request does to the live blocks, given what it returned. */
  ghost function Changed(live: map<nat, nat>, op: Op, p: Option<nat>, bits: nat): map<nat, nat> {
    if op.OpFree? then
      if MM_ALLOC_SIZE <= op.ptr then live - {op.ptr - MM_ALLOC_SIZE} else live
    else
      if p.Some? && MM_ALLOC_SIZE <= p.value then live[p.value - MM_ALLOC_SIZE := Grains(bits, op.size)] else live
  }

  /** The live blocks after some requests, given what each of them returned. */
  ghost function LiveAfter(live: map<nat, nat>, ops: seq<Op>, ptrs: seq<Option<nat>>, bits: nat): map<nat, nat>
    requires |ops| == |ptrs|
  {
    if ops == [] then live
    else
      var n := |ops| - 1;
      Changed(LiveAfter(live, ops[..n], ptrs[..n], bits), ops[n], ptrs[n], bits)
  }

  lemma LiveAfterNext(live: map<nat, nat>, ops: seq<Op>, i: nat, ptrs: seq<Option<nat>>, p: Option<nat>, bits: nat)
    requires i < |ops| && |ptrs| == i
    ensures LiveAfter(live, ops[..i + 1], ptrs + [p], bits) == Changed(LiveAfter(live, ops[..i], ptrs, bits), ops[i], p, bits)
  {
    var more, all := ops[..i + 1], ptrs + [p];
    assert more[..i] == ops[..i] && all[..i] == ptrs && more[i] == ops[i] && all[i] == p;
  }

  class Heap {
    const size: nat
    const grain: nat
    const grainBits: nat
    /** Grains in the managed region. */
    const total: nat
    var gn: nat
    var mem: Layout
    var sizeTree: seq<Idx.Node>
    var addrTree: seq<Idx.Node>

    ghost predicate Valid()
      reads this
    {
      && MM_FREE_SIZE <= grain < GRAIN_FIELD && grain == Pow2(grainBits)
      && total == Shr(size, grainBits) < UINT32
      && Tiled(mem, grain, total)
      && Coalesced(mem, grain)
      && Indexed(mem, sizeTree, addrTree, {})
    }

    constructor (size: nat, grain: nat)
      requires 0 < size && size + MIN_SIZE <= SIZE_T
      requires var bits := LeastBits(GrainSize(grain));
               Pow2(bits) < GRAIN_FIELD && Pow2(bits) <= HeapSize(size) && Shr(HeapSize(size), bits) < UINT32
      ensures Valid()
      ensures this.size == HeapSize(size) && grainBits == LeastBits(GrainSize(grain)) && gn == 0
      ensures size <= this.size < size + MIN_SIZE && this.size % MIN_SIZE == 0
      ensures this.grain == Pow2(grainBits) && MM_FREE_SIZE <= this.grain && grain <= this.grain
      ensures forall b: nat | MM_FREE_SIZE <= Pow2(b) && grain <= Pow2(b) :: grainBits <= b
      ensures Bytes(total, this.grain) <= this.size < Bytes(total, this.grain) + this.grain
      ensures mem == map[START := FreeHdr(total)]
    {
      var rounded := HeapSize(size);
      var g, bits := 1, 0;
      while g < GrainSize(grain)
        invariant g == Pow2(bits) && (bits == 0 || Pow2(bits - 1) < GrainSize(grain))
        decreases GrainSize(grain) - g
      {
        g, bits := 2 * g, bits + 1;
      }
      LeastBitsUnique(GrainSize(grain), bits);
      this.size, this.grain, this.grainBits, this.gn := rounded, g, bits, 0;
      var count := Shr(rounded, bits);
      total := count;
      mem := map[START := FreeHdr(count)];
      sizeTree := [Idx.Node(count, START)];
      addrTree := [Idx.Node(START, START)];
      SomeGrains(rounded, bits);
      InitiallyTiled(g, count);
      HeapSizeIs(size);
      forall b: nat | MM_FREE_SIZE <= Pow2(b) && grain <= Pow2(b) ensures bits <= b {
        GrainIsLeast(grain, bits, b);
      }
      ClearLowBits(rounded, bits);
      ShlIsBytes(count, bits);
    }

    // Tree bookkeeping

    method Unlink(q: nat, ghost out: set<nat>)
      requires Indexed(mem, sizeTree, addrTree, out)
      requires q in mem && mem[q].FreeHdr? && q !in out
      modifies this`sizeTree, this`addrTree
      ensures Indexed(mem, sizeTree, addrTree, out + {q})
    {
      sizeTree := Idx.Del(sizeTree, Idx.Node(mem[q].count, q));
      addrTree := Idx.Del(addrTree, Idx.Node(q, q));
    }

    method Link(p: nat)
      requires Indexed(mem, sizeTree, addrTree, {p})
      requires p in mem && mem[p].FreeHdr?
      modifies this`sizeTree, this`addrTree
      ensures Indexed(mem, sizeTree, addrTree, {})
    {
      sizeTree := Idx.Ins(sizeTree, Idx.Node(mem[p].count, p));
      addrTree := Idx.Ins(addrTree, Idx.Node(p, p));
    }

    // Allocation

    /** Hands out the first `count` grains of free chunk `p`; what is left over stays indexed. */
    method Carve(p: nat, count: nat)
      requires Valid() && p in mem && mem[p].FreeHdr? && 0 < count <= mem[p].count
      requires count < UINT32
      modifies this`mem, this`sizeTree, this`addrTree
      ensures Valid() && mem == Cut(old(mem), grain, p, count)
    {
      ghost var was := mem;
      Unlink(p, {});
      var remainder := mem[p].count - count;
      if remainder != 0 {
        CutEnds(mem, grain, total, p, count);
        ShlIsBytes(count, grainBits);
        var n := p + Shl(count, grainBits);
        mem := mem[p := AllocHdr(count % UINT32)][n := FreeHdr(remainder)];
        assert mem == Cut(was, grain, p, count);
        Link(n);
      } else {
        mem := mem[p := AllocHdr(count % UINT32)];
        assert mem == Cut(was, grain, p, count);
      }
      CutKeepsTiling(was, grain, total, p, count);
      CutKeepsCoalesced(was, grain, total, p, count);
    }

    method Alloc(request: nat) returns (r: Option<nat>)
      requires Valid() && NoWrap(grainBits, request)
      modifies this
      ensures Valid()
      ensures r.None? <==> !HasRoom(old(mem), grain, Grains(grainBits, request))
      ensures r.None? ==> mem == old(mem) && gn == old(gn)
      ensures r.Some? ==> MM_ALLOC_SIZE <= r.value
                          && BestFit(old(mem), Grains(grainBits, request), r.value - MM_ALLOC_SIZE)
                          && Live(mem) == old(Live(mem))[r.value - MM_ALLOC_SIZE := Grains(grainBits, request)]
                          && gn == (old(gn) + 1) % UINT32
      ensures r.Some? ==> var block := Bytes(Live(mem)[r.value - MM_ALLOC_SIZE], grain);
                          request + MM_ALLOC_SIZE <= block
                          && (block < request + MM_ALLOC_SIZE + grain || block == grain)
    {
      var count := Grains(grainBits, request);
      BlockHoldsRequest(grainBits, request);
      var node := Idx.FindLub(sizeTree, count);
      RoomIffLubFound(mem, grain, total, sizeTree, addrTree, count, node);
      if node.None? {
        return None;
      }
      var p := node.value.off;
      ghost var was := mem;
      assert BestFit(was, count, p);
      Carve(p, count);
      assert Live(mem) == Live(was)[p := count] by {
        CutLive(was, grain, total, p, count);
      }
      gn := (gn + 1) % UINT32;
      r := Some(p + MM_ALLOC_SIZE);
      assert r.value - MM_ALLOC_SIZE == p;
    }

    // Release

    method Free(ptr: nat)
      requires Valid() && MM_ALLOC_SIZE <= ptr && ptr - MM_ALLOC_SIZE in Live(mem)
      modifies this
      ensures Valid()
      ensures Live(mem) == old(Live(mem)) - {ptr - MM_ALLOC_SIZE}
      ensures gn == (old(gn) + 1) % UINT32
    {
      var p := ptr - MM_ALLOC_SIZE;
      ReleaseOpensGapAtMost(mem, grain, total, p);
      mem := mem[p := FreeHdr(mem[p].count)];
      p := MergeLeft(p);
      MergeRight(p);
      Link(p);
      gn := (gn + 1) % UINT32;
    }

    ghost predicate Releasing(p: nat)
      reads this
    {
      && MM_FREE_SIZE <= grain < GRAIN_FIELD && grain == Pow2(grainBits)
      && p in mem && mem[p].FreeHdr?
      && Tiled(mem, grain, total)
      && Indexed(mem, sizeTree, addrTree, {p})
    }

    method MergeLeft(p: nat) returns (q: nat)
      requires Releasing(p) && CoalescedBut(mem, grain, p)
      modifies this`mem, this`sizeTree, this`addrTree
      ensures Releasing(q) && CoalescedBut(mem, grain, q) && NoFreeBefore(mem, grain, q)
      ensures Live(mem) == old(Live(mem))
    {
      var node := Idx.FindGlb(addrTree, p);
      if node.Some? && node.value.off + Shl(mem[node.value.off].count, grainBits) == p {
        q := node.value.off;
        ShlIsBytes(mem[q].count, grainBits);
        JoinLeft(mem, grain, total, q, p);
        Unlink(q, {p});
        mem := Join(mem, q, p);
      } else {
        q := p;
        if node.Some? {
          ShlIsBytes(mem[node.value.off].count, grainBits);
        }
        assert forall c | c in mem && mem[c].FreeHdr? && c != p :: Idx.Node(c, c) in addrTree;
      }
    }

    method MergeRight(p: nat)
      requires Releasing(p) && CoalescedBut(mem, grain, p) && NoFreeBefore(mem, grain, p)
      modifies this`mem, this`sizeTree, this`addrTree
      ensures Releasing(p) && Coalesced(mem, grain)
      ensures Live(mem) == old(Live(mem))
    {
      var node := Idx.FindLub(addrTree, p);
      ShlIsBytes(mem[p].count, grainBits);
      if node.Some? && p + Shl(mem[p].count, grainBits) == node.value.off {
        var q := node.value.off;
        JoinRight(mem, grain, total, p, q);
        Unlink(q, {p});
        mem := Join(mem, p, q);
      } else {
        assert forall c | c in mem && mem[c].FreeHdr? && c != p :: Idx.Node(c, c) in addrTree;
      }
    }

    // Statistics

    method GetInfo() returns (info: Info)
      requires Valid()
      ensures Describes(info, mem, grain, total, size)
    {
      info := Info(0, 0, size + 1, 0);
      var i := 0;
      while i < |addrTree|
        invariant 0 <= i <= |addrTree|
        invariant info == Stat(mem, addrTree[..i], size)
      {
        assert addrTree[..i + 1][..i] == addrTree[..i];
        info := Visit(info, mem[addrTree[i].off].count);
        i := i + 1;
      }
      assert addrTree[..i] == addrTree;
      StatDescribesHeap(mem, grain, total, sizeTree, addrTree, size, grainBits);
    }

    // Whole runs

    /** One request; a release of a pointer that is not live is skipped. */
    method Serve(op: Op) returns (p: Option<nat>)
      requires Valid() && (op.OpAlloc? ==> NoWrap(grainBits, op.size))
      modifies this
      ensures Valid()
      ensures Live(mem) == Changed(old(Live(mem)), op, p, grainBits)
      ensures p.Some? ==> op.OpAlloc? && MM_ALLOC_SIZE <= p.value && p.value - MM_ALLOC_SIZE !in old(Live(mem))
      ensures op.OpAlloc? ==> (p.None? <==> !HasRoom(old(mem), grain, Grains(grainBits, op.size)))
    {
      match op {
        case OpAlloc(size) =>
          p := Alloc(size);
        case OpFree(ptr) =>
          p := None;
          if MM_ALLOC_SIZE <= ptr && ptr - MM_ALLOC_SIZE in mem && mem[ptr - MM_ALLOC_SIZE].AllocHdr? {
            Free(ptr);
          }
      }
    }

    /** Any sequence of requests: the live blocks are those handed out and not released, and never overlap. */
    method Run(ops: seq<Op>) returns (ptrs: seq<Option<nat>>)
      requires Valid() && forall op | op in ops :: op.OpAlloc? ==> NoWrap(grainBits, op.size)
      modifies this
      ensures Valid() && |ptrs| == |ops| && Live(mem) == LiveAfter(old(Live(mem)), ops, ptrs, grainBits)
      ensures |FreeBytes(mem, grain, total)| + |LiveBytes(Live(mem), grain, total)| == Bytes(total, grain)
      ensures forall c, d | c in Live(mem) && d in Live(mem) && c < d :: c + Bytes(Live(mem)[c], grain) <= d
    {
      ptrs := [];
      for i := 0 to |ops|
        invariant Valid() && |ptrs| == i && Live(mem) == LiveAfter(old(Live(mem)), ops[..i], ptrs, grainBits)
      {
        assert ops[i] in ops;
        var p := Serve(ops[i]);
        LiveAfterNext(old(Live(mem)), ops, i, ptrs, p, grainBits);
        ptrs := ptrs + [p];
      }
      assert ops[..|ops|] == ops;
      BytesAreConserved(mem, grain, total);
      forall c, d | c in Live(mem) && d in Live(mem) && c < d
        ensures c + Bytes(Live(mem)[c], grain) <= d
      {
        assert End(mem, grain, c) <= d;
      }
    }

    /** Releasing a block that was just handed out puts every chunk back as it was. */
    method AllocThenFree(request: nat)
      requires Valid() && NoWrap(grainBits, request)
      modifies this
      ensures Valid() && mem == old(mem)
    {
      var p := Alloc(request);
      if p.Some? {
        Free(p.value);
        LiveBlocksDetermineLayout(mem, old(mem), grain, total);
      }
    }

    /** Releasing all live blocks, in whatever order, leaves the single initial chunk. */
    method FreeAll(order: seq<nat>)
      requires Valid() && Distinct(order)
      requires forall c :: c in order <==> c in Live(mem)
      modifies this
      ensures Valid() && mem == map[START := FreeHdr(total)]
    {
      for i := 0 to |order|
        invariant Valid()
        invariant forall c :: c in order[i..] <==> c in Live(mem)
      {
        assert order[i] in order[i..] && order[i] !in order[i + 1..];
        assert forall c | c in order[i..] :: c == order[i] || c in order[i + 1..];
        Free(order[i] + MM_ALLOC_SIZE);
      }
      assert Live(mem) == map[];
      InitiallyTiled(grain, total);
      LiveBlocksDetermineLayout(mem, map[START := FreeHdr(total)], grain, total);
    }
  }

  /**
   * The region is cut from the end of the signature, so its last grain can end past the size:
   * a chunk lies within the first `size` bytes exactly if it is not the last one, or if the
   * grains leave room for the signature.
   */
  lemma WithinSizeIffNotLast(m: Layout, grain: nat, total: nat, size: nat, bits: nat, c: nat)
    requires Tiled(m, grain, total) && c in m
    requires MM_FREE_SIZE <= grain == Pow2(bits) && total == Shr(size, bits)
    ensures End(m, grain, c) <= size <==> End(m, grain, c) != Limit(grain, total) || Shl(total, bits) + START <= size
  {
    ShlIsBytes(total, bits);
    var e := End(m, grain, c);
    if e != Limit(grain, total) {
      SmallerThanHeap(m, grain, total, size, bits, e);
    }
  }

  /** The grains of a heap leave room for the signature exactly if they do not divide its size. */
  lemma RoomForSignatureIff(asked: nat, bits: nat)
    ensures var size := HeapSize(asked);
            Shl(Shr(size, bits), bits) + START <= size <==> Shl(Shr(size, bits), bits) != size
  {
    RoundDownTakes(Shr((asked + Pow2(9) - 1) % SIZE_T, 9), bits, 9);
    assert Pow2(3) == 8 && Pow2(9) == 64 * Pow2(3);
  }

  /** In a new heap of 512 bytes the only chunk ends eight bytes past the size. */
  lemma FirstChunkOverruns()
    ensures Tiled(map[START := FreeHdr(8)], 64, 8) && End(map[START := FreeHdr(8)], 64, START) == 520
  {
    InitiallyTiled(64, 8);
    BytesIsProduct(8, 64);
  }
}
