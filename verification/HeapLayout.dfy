/**
 * What the chunk headers of the heap describe: how the managed region is cut
 * into free and allocated chunks.  Offsets and lengths are in bytes from the
 * heap base; a header counts grains.
 */
module HeapLayout {

  /** The header found at the start of a chunk. */
  datatype Header = FreeHdr(count: nat) | AllocHdr(count: nat)

  type Layout = map<nat, Header>

  /** The region starts after the eight signature bytes. */
  const START: nat := 8

  function End(m: Layout, grain: nat, c: nat): nat
    requires c in m
  {
    c + Bytes(m[c].count, grain)
  }

  function Limit(grain: nat, total: nat): nat { START + Bytes(total, grain) }

  ghost predicate OnGrid(m: Layout, grain: nat) {
    START in m && forall c | c in m :: START <= c && 0 < m[c].count && OnGrain(c, grain)
  }

  ghost predicate Bounded(m: Layout, grain: nat, total: nat) {
    forall c {:trigger End(m, grain, c)} | c in m :: c < End(m, grain, c) <= Limit(grain, total)
  }

  ghost predicate Gapless(m: Layout, grain: nat, total: nat) {
    forall c {:trigger End(m, grain, c)} | c in m :: End(m, grain, c) in m || End(m, grain, c) == Limit(grain, total)
  }

  ghost predicate Apart(m: Layout, grain: nat) {
    forall c, d {:trigger End(m, grain, c), d in m} | c in m && d in m && c < d :: End(m, grain, c) <= d
  }

  /** The chunks are non-empty, whole grains, disjoint, and leave no gap in the region. */
  ghost predicate Tiled(m: Layout, grain: nat, total: nat) {
    && 0 < grain && 0 < total
    && OnGrid(m, grain) && Bounded(m, grain, total) && Gapless(m, grain, total) && Apart(m, grain)
  }

  /** No free chunk ends where another free chunk starts. */
  ghost predicate Coalesced(m: Layout, grain: nat) {
    forall c {:trigger End(m, grain, c)} | c in m && m[c].FreeHdr? && End(m, grain, c) in m :: m[End(m, grain, c)].AllocHdr?
  }

  ghost function Live(m: Layout): map<nat, nat> {
    map c | c in m && m[c].AllocHdr? :: m[c].count
  }

  // Grain arithmetic

  /** `n` shifted left by the grain bits, as repeated addition; see BytesIsProduct. */
  function Bytes(n: nat, grain: nat): nat {
    if n == 0 then 0 else Bytes(n - 1, grain) + grain
  }

  lemma {:induction false} BytesIsProduct(n: nat, grain: nat)
    ensures Bytes(n, grain) == n * grain
  {
    if n > 0 {
      BytesIsProduct(n - 1, grain);
      assert n * grain == (n - 1) * grain + grain;
    }
  }

  lemma BytesAdd(a: nat, b: nat, grain: nat)
    ensures Bytes(a + b, grain) == Bytes(a, grain) + Bytes(b, grain)
  {
    if b > 0 {
      BytesAdd(a, b - 1, grain);
    }
  }

  lemma BytesOrder(a: nat, b: nat, grain: nat)
    requires 0 < grain
    ensures a < b <==> Bytes(a, grain) < Bytes(b, grain)
    ensures a == b <==> Bytes(a, grain) == Bytes(b, grain)
  {
    if a < b {
      BytesAdd(a, b - a, grain);
    } else if b < a {
      BytesAdd(b, a - b, grain);
    }
  }

  /** The offset is a whole number of grains into the region. */
  ghost predicate OnGrain(x: nat, grain: nat) {
    exists k: nat :: x == START + Bytes(k, grain)
  }

  // Every byte of the region has one owner

  ghost function OwnerFrom(m: Layout, grain: nat, total: nat, c: nat, x: nat): (d: nat)
    requires Tiled(m, grain, total) && c in m && c <= x < Limit(grain, total)
    ensures d in m && d <= x < End(m, grain, d)
    decreases Limit(grain, total) - c
  {
    if x < End(m, grain, c) then c else OwnerFrom(m, grain, total, End(m, grain, c), x)
  }

  ghost function Owner(m: Layout, grain: nat, total: nat, x: nat): (d: nat)
    requires Tiled(m, grain, total) && START <= x < Limit(grain, total)
    ensures d in m && d <= x < End(m, grain, d)
    ensures forall c | c in m && c <= x < End(m, grain, c) :: c == d
  {
    OwnerFrom(m, grain, total, START, x)
  }

  ghost predicate FreeByte(m: Layout, grain: nat, x: nat) {
    exists c :: c in m && m[c].FreeHdr? && c <= x < End(m, grain, c)
  }

  ghost predicate LiveByte(live: map<nat, nat>, grain: nat, x: nat) {
    exists c :: c in live && c <= x < c + Bytes(live[c], grain)
  }

  lemma FreeIffNotLive(m: Layout, grain: nat, total: nat, x: nat)
    requires Tiled(m, grain, total) && START <= x < Limit(grain, total)
    ensures FreeByte(m, grain, x) <==> !LiveByte(Live(m), grain, x)
    ensures FreeByte(m, grain, x) <==> m[Owner(m, grain, total, x)].FreeHdr?
  {
    var d := Owner(m, grain, total, x);
    if m[d].AllocHdr? {
      assert d in Live(m);
    }
    if LiveByte(Live(m), grain, x) {
      var c :| c in Live(m) && c <= x < c + Bytes(Live(m)[c], grain);
      assert End(m, grain, c) == c + Bytes(Live(m)[c], grain);
      assert c == d;
    }
  }

  // Cutting and joining chunks

  /** The first `k` grains of chunk `c` are handed out; the rest, if any, stays free. */
  function Cut(m: Layout, grain: nat, c: nat, k: nat): Layout
    requires c in m && k <= m[c].count
  {
    if k == m[c].count then m[c := AllocHdr(k)]
    else m[c := AllocHdr(k)][c + Bytes(k, grain) := FreeHdr(m[c].count - k)]
  }

  lemma CutEnds(m: Layout, grain: nat, total: nat, c: nat, k: nat)
    requires Tiled(m, grain, total) && c in m && 0 < k < m[c].count
    ensures c < c + Bytes(k, grain) < End(m, grain, c) && OnGrain(c + Bytes(k, grain), grain)
    ensures c + Bytes(k, grain) + Bytes(m[c].count - k, grain) == End(m, grain, c)
    ensures c + Bytes(k, grain) !in m
  {
    BytesAdd(k, m[c].count - k, grain);
    BytesOrder(0, k, grain);
    BytesOrder(0, m[c].count - k, grain);
    var g: nat :| c == START + Bytes(g, grain);
    BytesAdd(g, k, grain);
    assert c + Bytes(k, grain) == START + Bytes(g + k, grain);
  }

  lemma CutShape(m: Layout, grain: nat, c: nat, k: nat)
    requires c in m && k < m[c].count && c + Bytes(k, grain) !in m
    ensures var r, mid := Cut(m, grain, c, k), c + Bytes(k, grain);
            && r.Keys == m.Keys + {mid} && r[c] == AllocHdr(k) && r[mid] == FreeHdr(m[c].count - k)
            && End(r, grain, c) == mid && End(r, grain, mid) == mid + Bytes(m[c].count - k, grain)
            && forall d {:trigger End(r, grain, d)} | d in m && d != c :: r[d] == m[d] && End(r, grain, d) == End(m, grain, d)
  {
  }

  /** After a cut chunk `c` ends at the cut and the rest ends where `c` did; all else is as before. */
  lemma CutFacts(m: Layout, grain: nat, total: nat, c: nat, k: nat)
    requires Tiled(m, grain, total) && c in m && 0 < k < m[c].count
    ensures var r, mid := Cut(m, grain, c, k), c + Bytes(k, grain);
            && r.Keys == m.Keys + {mid} && c < mid < End(m, grain, c) && mid !in m && OnGrain(mid, grain)
            && End(r, grain, c) == mid && End(r, grain, mid) == End(m, grain, c)
            && r[c] == AllocHdr(k) && r[mid] == FreeHdr(m[c].count - k)
            && forall d {:trigger End(r, grain, d)} | d in m && d != c :: r[d] == m[d] && End(r, grain, d) == End(m, grain, d)
  {
    CutEnds(m, grain, total, c, k);
    CutShape(m, grain, c, k);
  }

  lemma CutGapless(m: Layout, grain: nat, total: nat, c: nat, k: nat)
    requires Tiled(m, grain, total) && c in m && 0 < k < m[c].count
    ensures Gapless(Cut(m, grain, c, k), grain, total)
  {
    CutFacts(m, grain, total, c, k);
  }

  lemma CutApart(m: Layout, grain: nat, total: nat, c: nat, k: nat)
    requires Tiled(m, grain, total) && c in m && 0 < k < m[c].count
    ensures Apart(Cut(m, grain, c, k), grain)
  {
    CutFacts(m, grain, total, c, k);
    var r, mid := Cut(m, grain, c, k), c + Bytes(k, grain);
    forall a, b {:trigger End(r, grain, a), b in r} | a in r && b in r && a < b ensures End(r, grain, a) <= b {
      var x := if a == mid then c else a;
      assert End(r, grain, a) <= End(m, grain, x);
      if b == mid {
        assert a == c || End(m, grain, a) <= c;
      } else {
        assert a == c || End(m, grain, x) <= b;
      }
    }
  }

  lemma CutKeepsTiling(m: Layout, grain: nat, total: nat, c: nat, k: nat)
    requires Tiled(m, grain, total) && c in m && m[c].FreeHdr? && 0 < k <= m[c].count
    ensures Tiled(Cut(m, grain, c, k), grain, total)
  {
    if k < m[c].count {
      CutGapless(m, grain, total, c, k);
      CutApart(m, grain, total, c, k);
      CutFacts(m, grain, total, c, k);
    } else {
      RelabelKeepsTiling(m, grain, total, c, AllocHdr(k));
    }
  }

  lemma CutLive(m: Layout, grain: nat, total: nat, c: nat, k: nat)
    requires Tiled(m, grain, total) && c in m && m[c].FreeHdr? && 0 < k <= m[c].count
    ensures Live(Cut(m, grain, c, k)) == Live(m)[c := k]
  {
    if k < m[c].count {
      CutFacts(m, grain, total, c, k);
    }
  }

  lemma CutKeepsCoalesced(m: Layout, grain: nat, total: nat, c: nat, k: nat)
    requires Tiled(m, grain, total) && c in m && m[c].FreeHdr? && 0 < k <= m[c].count
    requires Coalesced(m, grain)
    ensures Coalesced(Cut(m, grain, c, k), grain)
  {
    var r := Cut(m, grain, c, k);
    if k < m[c].count {
      CutFacts(m, grain, total, c, k);
    } else {
      assert forall d {:trigger End(r, grain, d)} | d in m :: End(r, grain, d) == End(m, grain, d);
    }
  }

  lemma RelabelKeepsTiling(m: Layout, grain: nat, total: nat, c: nat, h: Header)
    requires Tiled(m, grain, total) && c in m && h.count == m[c].count
    ensures Tiled(m[c := h], grain, total)
  {
    var r := m[c := h];
    assert forall d {:trigger End(r, grain, d)} | d in m :: End(r, grain, d) == End(m, grain, d);
  }

  /** Chunk `d`, which starts where `c` ends, becomes part of `c`. */
  function Join(m: Layout, c: nat, d: nat): Layout
    requires c in m && d in m && c != d
  {
    (m - {d})[c := FreeHdr(m[c].count + m[d].count)]
  }

  /** After a join `c` ends where `d` did, and no other chunk ended at `d`. */
  lemma JoinFacts(m: Layout, grain: nat, total: nat, c: nat, d: nat)
    requires Tiled(m, grain, total) && c in m && d in m && End(m, grain, c) == d
    ensures var r := Join(m, c, d);
            && r.Keys == m.Keys - {d} && c < d && End(r, grain, c) == End(m, grain, d)
            && forall e {:trigger End(r, grain, e)} | e in r && e != c ::
                 r[e] == m[e] && End(r, grain, e) == End(m, grain, e) != d
  {
    var r := Join(m, c, d);
    BytesAdd(m[c].count, m[d].count, grain);
    assert c < End(m, grain, c);
    forall e {:trigger End(r, grain, e)} | e in r && e != c ensures End(m, grain, e) != d {
      assert e < End(m, grain, e);
      assert e < c ==> End(m, grain, e) <= c;
      assert c < e ==> End(m, grain, c) <= e;
    }
  }

  lemma JoinApart(m: Layout, grain: nat, total: nat, c: nat, d: nat)
    requires Tiled(m, grain, total) && c in m && d in m && End(m, grain, c) == d
    ensures Apart(Join(m, c, d), grain)
  {
    JoinFacts(m, grain, total, c, d);
  }

  lemma JoinKeepsTiling(m: Layout, grain: nat, total: nat, c: nat, d: nat)
    requires Tiled(m, grain, total) && c in m && d in m && End(m, grain, c) == d
    ensures Tiled(Join(m, c, d), grain, total)
    ensures End(Join(m, c, d), grain, c) == End(m, grain, d)
  {
    JoinApart(m, grain, total, c, d);
    JoinFacts(m, grain, total, c, d);
  }

  // The free chunks are the maximal free runs, so they are a function of the live blocks

  ghost predicate MaximalRun(live: map<nat, nat>, grain: nat, total: nat, c: nat, n: nat) {
    && START <= c && 0 < n && c + Bytes(n, grain) <= Limit(grain, total)
    && (forall x | c <= x < c + Bytes(n, grain) :: !LiveByte(live, grain, x))
    && (c == START || LiveByte(live, grain, c - 1))
    && (c + Bytes(n, grain) == Limit(grain, total) || LiveByte(live, grain, c + Bytes(n, grain)))
  }

  lemma LeftOfFreeChunk(m: Layout, grain: nat, total: nat, c: nat)
    requires Tiled(m, grain, total) && Coalesced(m, grain)
    requires c in m && m[c].FreeHdr? && c != START
    ensures LiveByte(Live(m), grain, c - 1)
  {
    assert c < End(m, grain, c);
    FreeIffNotLive(m, grain, total, c - 1);
    var d := Owner(m, grain, total, c - 1);
    assert End(m, grain, d) == c;
  }

  lemma RightOfFreeChunk(m: Layout, grain: nat, total: nat, c: nat)
    requires Tiled(m, grain, total) && Coalesced(m, grain)
    requires c in m && m[c].FreeHdr? && End(m, grain, c) != Limit(grain, total)
    ensures LiveByte(Live(m), grain, End(m, grain, c))
  {
    var e := End(m, grain, c);
    FreeIffNotLive(m, grain, total, e);
    assert e < End(m, grain, e);
  }

  lemma FreeChunkIsMaximal(m: Layout, grain: nat, total: nat, c: nat)
    requires Tiled(m, grain, total) && Coalesced(m, grain)
    requires c in m && m[c].FreeHdr?
    ensures MaximalRun(Live(m), grain, total, c, m[c].count)
  {
    var e := End(m, grain, c);
    forall x | c <= x < e ensures !LiveByte(Live(m), grain, x) {
      FreeIffNotLive(m, grain, total, x);
    }
    if c != START {
      LeftOfFreeChunk(m, grain, total, c);
    }
    if e != Limit(grain, total) {
      RightOfFreeChunk(m, grain, total, c);
    }
  }

  lemma MaximalRunsAgree(live: map<nat, nat>, grain: nat, total: nat, c: nat, n: nat, d: nat, k: nat)
    requires 0 < grain
    requires MaximalRun(live, grain, total, c, n) && MaximalRun(live, grain, total, d, k)
    requires d <= c < d + Bytes(k, grain)
    ensures c == d && n == k
  {
    assert d == c;
    BytesOrder(n, k, grain);
  }

  lemma FreeChunkCarriesOver(m: Layout, r: Layout, grain: nat, total: nat, c: nat)
    requires Tiled(m, grain, total) && Coalesced(m, grain)
    requires Tiled(r, grain, total) && Coalesced(r, grain)
    requires Live(m) == Live(r) && c in m && m[c].FreeHdr?
    ensures c in r && r[c] == m[c]
  {
    FreeChunkIsMaximal(m, grain, total, c);
    FreeIffNotLive(m, grain, total, c);
    FreeIffNotLive(r, grain, total, c);
    var d := Owner(r, grain, total, c);
    FreeChunkIsMaximal(r, grain, total, d);
    MaximalRunsAgree(Live(m), grain, total, c, m[c].count, d, r[d].count);
  }

  /** Two fully coalesced layouts of one region with the same live blocks are the same layout. */
  lemma LiveBlocksDetermineLayout(m: Layout, r: Layout, grain: nat, total: nat)
    requires Tiled(m, grain, total) && Coalesced(m, grain)
    requires Tiled(r, grain, total) && Coalesced(r, grain)
    requires Live(m) == Live(r)
    ensures m == r
  {
    forall c | c in m ensures c in r && r[c] == m[c] {
      if m[c].FreeHdr? {
        FreeChunkCarriesOver(m, r, grain, total, c);
      } else {
        assert Live(m)[c] == Live(r)[c];
      }
    }
    forall c | c in r ensures c in m {
      if r[c].FreeHdr? {
        FreeChunkCarriesOver(r, m, grain, total, c);
      } else {
        assert c in Live(m);
      }
    }
  }

  // Runs of free memory

  ghost predicate FreeRun(m: Layout, grain: nat, a: nat, len: nat) {
    forall x | a <= x < a + len :: FreeByte(m, grain, x)
  }

  lemma FreeStopsAtChunkEnd(m: Layout, grain: nat, total: nat, c: nat)
    requires Tiled(m, grain, total) && Coalesced(m, grain)
    requires c in m && m[c].FreeHdr?
    ensures !FreeByte(m, grain, End(m, grain, c))
  {
    var e := End(m, grain, c);
    if e < Limit(grain, total) {
      RightOfFreeChunk(m, grain, total, c);
      FreeIffNotLive(m, grain, total, e);
    }
  }

  /** Somewhere in the heap `k` contiguous grains are free. */
  ghost predicate HasRoom(m: Layout, grain: nat, k: nat) {
    exists a: nat :: FreeRun(m, grain, a, Bytes(k, grain))
  }

  /** A contiguous run of free bytes lies inside one free chunk. */
  lemma RunInOneChunk(m: Layout, grain: nat, total: nat, a: nat, len: nat)
    requires Tiled(m, grain, total) && Coalesced(m, grain)
    requires 0 < len && FreeRun(m, grain, a, len)
    ensures exists c :: c in m && m[c].FreeHdr? && c <= a && a + len <= End(m, grain, c)
  {
    assert FreeByte(m, grain, a);
    var c :| c in m && m[c].FreeHdr? && c <= a < End(m, grain, c);
    FreeStopsAtChunkEnd(m, grain, total, c);
  }

  /** `n` contiguous free grains exist exactly when one free chunk has `n` grains. */
  lemma RunIffChunk(m: Layout, grain: nat, total: nat, n: nat)
    requires Tiled(m, grain, total) && Coalesced(m, grain) && 0 < n
    ensures HasRoom(m, grain, n) <==> (exists c :: c in m && m[c].FreeHdr? && n <= m[c].count)
  {
    BytesOrder(0, n, grain);
    if a: nat :| FreeRun(m, grain, a, Bytes(n, grain)) {
      RunInOneChunk(m, grain, total, a, Bytes(n, grain));
      var c :| c in m && m[c].FreeHdr? && c <= a && a + Bytes(n, grain) <= End(m, grain, c);
      BytesOrder(m[c].count, n, grain);
    }
    if c :| c in m && m[c].FreeHdr? && n <= m[c].count {
      BytesOrder(m[c].count, n, grain);
      assert FreeRun(m, grain, c, Bytes(n, grain));
    }
  }

  // Giving a block back

  /** Free neighbours touch only at chunk `p`. */
  ghost predicate CoalescedBut(m: Layout, grain: nat, p: nat) {
    forall c {:trigger End(m, grain, c)}
      | c in m && m[c].FreeHdr? && End(m, grain, c) in m && m[End(m, grain, c)].FreeHdr?
      :: c == p || End(m, grain, c) == p
  }

  ghost predicate NoFreeBefore(m: Layout, grain: nat, p: nat) {
    forall c {:trigger End(m, grain, c)} | c in m && m[c].FreeHdr? :: End(m, grain, c) != p
  }

  lemma ReleaseOpensGapAtMost(m: Layout, grain: nat, total: nat, p: nat)
    requires Tiled(m, grain, total) && Coalesced(m, grain) && p in m && m[p].AllocHdr?
    ensures var r := m[p := FreeHdr(m[p].count)];
            Tiled(r, grain, total) && CoalescedBut(r, grain, p) && Live(r) == Live(m) - {p}
  {
    var r := m[p := FreeHdr(m[p].count)];
    RelabelKeepsTiling(m, grain, total, p, FreeHdr(m[p].count));
    assert forall d {:trigger End(r, grain, d)} | d in m :: End(r, grain, d) == End(m, grain, d);
  }

  lemma JoinLive(m: Layout, grain: nat, total: nat, c: nat, d: nat)
    requires Tiled(m, grain, total) && c in m && d in m && End(m, grain, c) == d
    requires m[c].FreeHdr? && m[d].FreeHdr?
    ensures Live(Join(m, c, d)) == Live(m)
  {
    JoinFacts(m, grain, total, c, d);
  }

  lemma JoinLeft(m: Layout, grain: nat, total: nat, q: nat, p: nat)
    requires Tiled(m, grain, total) && CoalescedBut(m, grain, p)
    requires p in m && q in m && m[p].FreeHdr? && m[q].FreeHdr? && End(m, grain, q) == p
    ensures var r := Join(m, q, p);
            Tiled(r, grain, total) && CoalescedBut(r, grain, q) && NoFreeBefore(r, grain, q) && Live(r) == Live(m)
  {
    var r := Join(m, q, p);
    assert CoalescedBut(r, grain, q) && NoFreeBefore(r, grain, q) by {
      JoinFacts(m, grain, total, q, p);
    }
    JoinKeepsTiling(m, grain, total, q, p);
    JoinLive(m, grain, total, q, p);
  }

  lemma JoinRight(m: Layout, grain: nat, total: nat, p: nat, q: nat)
    requires Tiled(m, grain, total) && CoalescedBut(m, grain, p) && NoFreeBefore(m, grain, p)
    requires p in m && q in m && m[p].FreeHdr? && m[q].FreeHdr? && End(m, grain, p) == q
    ensures var r := Join(m, p, q);
            Tiled(r, grain, total) && Coalesced(r, grain) && Live(r) == Live(m)
  {
    var r := Join(m, p, q);
    assert Coalesced(r, grain) by {
      JoinFacts(m, grain, total, p, q);
    }
    JoinKeepsTiling(m, grain, total, p, q);
    JoinLive(m, grain, total, p, q);
  }

  // Counting bytes

  ghost function Span(a: nat, b: nat): (s: set<nat>)
    ensures forall x: nat :: x in s <==> a <= x < b
    decreases b - a
  {
    if a < b then {a} + Span(a + 1, b) else {}
  }

  lemma {:induction false} SpanSize(a: nat, b: nat)
    requires a <= b
    ensures |Span(a, b)| == b - a
    decreases b - a
  {
    if a < b {
      SpanSize(a + 1, b);
      assert Span(a, b) == {a} + Span(a + 1, b);
    } else {
      assert Span(a, b) == {};
    }
  }

  ghost function FreeBytes(m: Layout, grain: nat, total: nat): set<nat> {
    set x: nat | START <= x < Limit(grain, total) && FreeByte(m, grain, x)
  }

  ghost function LiveBytes(live: map<nat, nat>, grain: nat, total: nat): set<nat> {
    set x: nat | START <= x < Limit(grain, total) && LiveByte(live, grain, x)
  }

  /** Free and live bytes add up to the whole region. */
  lemma BytesAreConserved(m: Layout, grain: nat, total: nat)
    requires Tiled(m, grain, total)
    ensures FreeBytes(m, grain, total) !! LiveBytes(Live(m), grain, total)
    ensures |FreeBytes(m, grain, total)| + |LiveBytes(Live(m), grain, total)| == Bytes(total, grain)
  {
    forall x: nat | START <= x < Limit(grain, total)
      ensures FreeByte(m, grain, x) <==> !LiveByte(Live(m), grain, x)
    {
      FreeIffNotLive(m, grain, total, x);
    }
    SpanSize(START, Limit(grain, total));
    assert Span(START, Limit(grain, total)) == FreeBytes(m, grain, total) + LiveBytes(Live(m), grain, total);
  }
}
