/** Balancing producers over a group of aggregators, and looking names up. */
module Balance {
  import opened Prelude
  import opened Digits
  import opened Sorting
  import opened Wire
  import opened HostSyntax
  import opened HostExpand
  import HostDenote
  import opened HostSort

  // Numeric order of names

  datatype Piece = Num(n: nat) | Text(t: string)

  /** The length of the leading run of digits, or of anything else. */
  function RunLength(s: string, digits: bool): (k: nat)
    ensures k <= |s| && (forall i | 0 <= i < k :: IsDigit(s[i]) == digits)
    ensures k < |s| ==> IsDigit(s[k]) != digits
  {
    if s == "" || IsDigit(s[0]) != digits then 0 else 1 + RunLength(s[1..], digits)
  }

  /** The maximal runs of digits and of other characters. */
  function Pieces(s: string): (ps: seq<Piece>)
    ensures s == "" <==> ps == []
    ensures s != "" ==> (ps[0].Num? <==> IsDigit(s[0]))
    decreases |s|
  {
    if s == "" then []
    else
      var digits := IsDigit(s[0]);
      var k := RunLength(s, digits);
      if digits then
        assert AllDigits(s[..k]);
        [Num(ToInt(s[..k]))] + Pieces(s[k..])
      else [Text(s[..k])] + Pieces(s[k..])
  }

  /** A blank string goes first if the list would otherwise start with a number. */
  function WithBlank(ps: seq<Piece>): seq<Piece> { if ps != [] && ps[0].Num? then [Text("")] + ps else ps }

  function NumericKey(s: string): seq<Piece> { WithBlank(Pieces(s)) }

  ghost predicate Alternate(ps: seq<Piece>) {
    forall i | 0 < i < |ps| :: ps[i].Num? != ps[i - 1].Num?
  }

  lemma PrependPiece(p: Piece, ps: seq<Piece>)
    requires Alternate(ps) && (ps != [] ==> ps[0].Num? != p.Num?)
    ensures Alternate([p] + ps)
  {
  }

  lemma {:induction false} PiecesAlternate(s: string)
    ensures Alternate(Pieces(s))
    decreases |s|
  {
    if s != "" {
      var k := RunLength(s, IsDigit(s[0]));
      PiecesAlternate(s[k..]);
      PrependPiece(Pieces(s)[0], Pieces(s[k..]));
    }
  }

  lemma {:induction false} BlankParity(ps: seq<Piece>, i: nat)
    requires Alternate(ps) && i < |WithBlank(ps)|
    ensures WithBlank(ps)[i].Num? <==> i % 2 == 1
  {
    if i > 0 {
      BlankParity(ps, i - 1);
      if ps[0].Num? {
        assert WithBlank(ps)[i] == ps[i - 1];
      }
    }
  }

  /** Keys can always be compared: a position holds a number in all of them or in none. */
  lemma KeysComparable(a: string, b: string, i: nat)
    requires i < |NumericKey(a)| && i < |NumericKey(b)|
    ensures NumericKey(a)[i].Num? <==> NumericKey(b)[i].Num?
  {
    PiecesAlternate(a);
    PiecesAlternate(b);
    BlankParity(Pieces(a), i);
    BlankParity(Pieces(b), i);
  }

  predicate PieceLE(a: Piece, b: Piece) {
    match (a, b)
    case (Num(m), Num(n)) => m <= n
    case (Num(_), Text(_)) => true
    case (Text(_), Num(_)) => false
    case (Text(s), Text(t)) => StringLE(s, t)
  }

  predicate KeyLE(a: seq<Piece>, b: seq<Piece>) {
    a == [] || (b != [] && (if a[0] == b[0] then KeyLE(a[1..], b[1..]) else PieceLE(a[0], b[0])))
  }

  lemma PieceOrder(a: Piece, b: Piece, c: Piece)
    ensures PieceLE(a, b) || PieceLE(b, a)
    ensures PieceLE(a, b) && PieceLE(b, a) ==> a == b
    ensures PieceLE(a, b) && PieceLE(b, c) ==> PieceLE(a, c)
  {
    if a.Text? && b.Text? {
      StringTotal(a.t, b.t);
      if PieceLE(a, b) && PieceLE(b, a) {
        StringAntisymmetric(a.t, b.t);
      }
      if c.Text? && PieceLE(a, b) && PieceLE(b, c) {
        StringTransitive(a.t, b.t, c.t);
      }
    }
  }

  lemma {:induction false} KeyTotal(a: seq<Piece>, b: seq<Piece>)
    ensures KeyLE(a, b) || KeyLE(b, a)
  {
    if a != [] && b != [] {
      if a[0] == b[0] {
        KeyTotal(a[1..], b[1..]);
      } else {
        PieceOrder(a[0], b[0], b[0]);
      }
    }
  }

  lemma {:induction false} KeyTransitive(a: seq<Piece>, b: seq<Piece>, c: seq<Piece>)
    requires KeyLE(a, b) && KeyLE(b, c)
    ensures KeyLE(a, c)
  {
    if a != [] {
      if a[0] == b[0] && b[0] == c[0] {
        KeyTransitive(a[1..], b[1..], c[1..]);
      } else {
        PieceOrder(a[0], b[0], c[0]);
        PieceOrder(b[0], c[0], a[0]);
      }
    }
  }

  predicate NumericLE(a: string, b: string) { KeyLE(NumericKey(a), NumericKey(b)) }

  lemma NumericPreorder()
    ensures Preorder(NumericLE)
  {
    forall x, y ensures NumericLE(x, y) || NumericLE(y, x) {
      KeyTotal(NumericKey(x), NumericKey(y));
    }
    forall x, y, z | NumericLE(x, y) && NumericLE(y, z) ensures NumericLE(x, z) {
      KeyTransitive(NumericKey(x), NumericKey(y), NumericKey(z));
    }
  }

  // Numbers in names are compared as numbers

  predicate DigitMeetsOther(a: string, b: string) {
    a == "" || b == "" || IsDigit(a[|a| - 1]) != IsDigit(b[0])
  }

  lemma {:induction false} RunOfFront(a: string, b: string, digits: bool)
    requires RunLength(a, digits) < |a| || DigitMeetsOther(a, b)
    requires a != "" && IsDigit(a[0]) == digits
    ensures RunLength(a + b, digits) == RunLength(a, digits)
  {
    var w := a + b;
    assert w[1..] == a[1..] + b;
    if |a| == 1 {
      assert w[1..] == b;
    } else if IsDigit(a[1]) == digits {
      RunOfFront(a[1..], b, digits);
    } else {
      assert w[1..][0] == a[1];
    }
  }

  function PieceOf(t: string): Piece { if t != "" && AllDigits(t) then Num(ToInt(t)) else Text(t) }

  lemma FirstPiece(s: string, k: nat, front: string, rest: string)
    requires s != "" && k == RunLength(s, IsDigit(s[0])) && front == s[..k] && rest == s[k..]
    ensures 0 < k && Pieces(s) == [PieceOf(front)] + Pieces(rest)
  {
    assert front[0] == s[0] && front[0] in front;
  }

  lemma FirstPieceStays(a: string, b: string, w: string, k: nat, front: string, rest: string)
    requires a != "" && DigitMeetsOther(a, b) && w == a + b
    requires k == RunLength(a, IsDigit(a[0])) && front == a[..k] && rest == a[k..]
    ensures Pieces(w) == [PieceOf(front)] + Pieces(rest + b)
  {
    RunOfFront(a, b, IsDigit(a[0]));
    assert w[0] == a[0] && w[..k] == front && w[k..] == rest + b;
    FirstPiece(w, k, front, rest + b);
  }

  lemma Grouped<T>(a: seq<T>, b: seq<T>, c: seq<T>)
    ensures a + (b + c) == a + b + c
  {
  }

  /** Where a digit meets another character the pieces of both sides stand one after the other. */
  lemma {:induction false} PiecesJoin(a: string, b: string)
    requires DigitMeetsOther(a, b)
    ensures Pieces(a + b) == Pieces(a) + Pieces(b)
    decreases |a|
  {
    var w := a + b;
    if a == "" {
      assert w == b && Pieces(a) + Pieces(b) == Pieces(b);
    } else {
      var k := RunLength(a, IsDigit(a[0]));
      var front, rest := a[..k], a[k..];
      FirstPiece(a, k, front, rest);
      PiecesJoin(rest, b);
      FirstPieceStays(a, b, w, k, front, rest);
      Grouped([PieceOf(front)], Pieces(rest), Pieces(b));
    }
  }

  lemma PiecesOfNumber(d: string)
    requires AllDigits(d) && d != ""
    ensures Pieces(d) == [Num(ToInt(d))]
  {
    var k := RunLength(d, true);
    assert forall i | 0 <= i < |d| :: d[i] in d;
    assert k == |d| && d[..k] == d && d[k..] == "";
  }

  lemma {:induction false} CommonFront(k: seq<Piece>, a: seq<Piece>, b: seq<Piece>)
    ensures KeyLE(k + a, k + b) <==> KeyLE(a, b)
  {
    if k == [] {
      assert k + a == a && k + b == b;
    } else {
      assert (k + a)[1..] == k[1..] + a && (k + b)[1..] == k[1..] + b;
      CommonFront(k[1..], a, b);
    }
  }

  /** The key of a name with a number in it. */
  lemma KeyAround(p: string, d: string, s: string) returns (front: seq<Piece>)
    requires AllDigits(d) && d != "" && (p == "" || !IsDigit(p[|p| - 1])) && (s == "" || !IsDigit(s[0]))
    ensures NumericKey(p + d + s) == front + ([Num(ToInt(d))] + Pieces(s))
    ensures front == if p == "" then [Text("")] else WithBlank(Pieces(p))
  {
    assert d[0] in d && d[|d| - 1] in d;
    assert (p + d)[|p + d| - 1] == d[|d| - 1];
    PiecesJoin(p, d);
    PiecesJoin(p + d, s);
    PiecesOfNumber(d);
    Grouped(Pieces(p), [Num(ToInt(d))], Pieces(s));
    front := if p == "" then [Text("")] else WithBlank(Pieces(p));
    BlankInFront(Pieces(p), [Num(ToInt(d))] + Pieces(s));
  }

  lemma BlankInFront(a: seq<Piece>, b: seq<Piece>)
    requires b != [] && b[0].Num?
    ensures WithBlank(a + b) == (if a == [] then [Text("")] else WithBlank(a)) + b
  {
    if a == [] {
      assert a + b == b;
    } else {
      assert (a + b)[0] == a[0];
      Grouped([Text("")], a, b);
    }
  }

  /** Of two names that agree up to a number, the one with the smaller number comes first, whatever its width. */
  lemma SmallerNumberFirst(p: string, d: string, e: string, s: string, t: string)
    requires AllDigits(d) && d != "" && AllDigits(e) && e != "" && ToInt(d) < ToInt(e)
    requires p == "" || !IsDigit(p[|p| - 1])
    requires (s == "" || !IsDigit(s[0])) && (t == "" || !IsDigit(t[0]))
    ensures NumericLE(p + d + s, p + e + t) && !NumericLE(p + e + t, p + d + s)
  {
    var f := KeyAround(p, d, s);
    var g := KeyAround(p, e, t);
    NumbersDecide(f, ToInt(d), ToInt(e), Pieces(s), Pieces(t));
  }

  lemma NumbersDecide(front: seq<Piece>, m: nat, n: nat, a: seq<Piece>, b: seq<Piece>)
    requires m < n
    ensures KeyLE(front + ([Num(m)] + a), front + ([Num(n)] + b))
    ensures !KeyLE(front + ([Num(n)] + b), front + ([Num(m)] + a))
  {
    CommonFront(front, [Num(m)] + a, [Num(n)] + b);
    CommonFront(front, [Num(n)] + b, [Num(m)] + a);
  }

  function NumericallySorted(l: seq<string>): seq<string> { Sort(NumericLE, l) }

  lemma NumericSortSorts(l: seq<string>)
    ensures Sorted(NumericLE, NumericallySorted(l)) && multiset(NumericallySorted(l)) == multiset(l)
  {
    NumericPreorder();
    SortSorts(NumericLE, l);
  }

  // Slices

  /** Where slice `i` starts when the first `r` of them get one more than `q`. */
  function StartOf(i: nat, q: nat, r: nat): nat {
    if i == 0 then 0 else StartOf(i - 1, q, r) + if i <= r then q + 1 else q
  }

  lemma {:induction false} StartIs(i: nat, q: nat, r: nat)
    ensures StartOf(i, q, r) == q * i + if i <= r then i else r
  {
    if i > 0 {
      StartIs(i - 1, q, r);
      assert q * i == q * (i - 1) + q;
    }
  }

  lemma {:induction false} StartsGrow(i: nat, j: nat, q: nat, r: nat)
    requires i <= j
    ensures StartOf(i, q, r) <= StartOf(j, q, r)
    decreases j
  {
    if i < j {
      StartsGrow(i, j - 1, q, r);
    }
  }

  function Quotient(len: nat, n: nat): nat
    requires n > 0
  {
    len / n
  }

  function Remainder(len: nat, n: nat): (r: nat)
    requires n > 0
    ensures r < n && n * Quotient(len, n) + r == len
  {
    len % n
  }

  lemma AllPlaced(len: nat, n: nat)
    requires n > 0
    ensures StartOf(n, Quotient(len, n), Remainder(len, n)) == len
  {
    StartIs(n, Quotient(len, n), Remainder(len, n));
  }

  lemma SliceBounds(len: nat, n: nat, i: nat)
    requires i < n
    ensures StartOf(i, Quotient(len, n), Remainder(len, n)) <= StartOf(i + 1, Quotient(len, n), Remainder(len, n)) <= len
  {
    StartsGrow(i + 1, n, Quotient(len, n), Remainder(len, n));
    AllPlaced(len, n);
  }

  function Slice(sorted: seq<string>, q: nat, r: nat, i: nat): seq<string> {
    if StartOf(i + 1, q, r) <= |sorted| then sorted[StartOf(i, q, r)..StartOf(i + 1, q, r)] else []
  }

  /** The producers that go to aggregator number `i` of `n`. */
  function SliceOf(l: seq<string>, n: nat, i: nat): seq<string>
    requires i < n
  {
    Slice(NumericallySorted(l), Quotient(|l|, n), Remainder(|l|, n), i)
  }

  /** Sizes differ by at most one. */
  lemma SliceSize(l: seq<string>, n: nat, i: nat)
    requires i < n
    ensures |SliceOf(l, n, i)| == |l| / n + if i < |l| % n then 1 else 0
  {
    SliceBounds(|l|, n, i);
  }

  method CutSlices(sorted: seq<string>, n: nat, q: nat, r: nat) returns (slices: seq<seq<string>>)
    requires StartOf(n, q, r) <= |sorted|
    ensures |slices| == n && forall i | 0 <= i < n :: slices[i] == Slice(sorted, q, r, i)
  {
    slices := [];
    var idx := 0;
    for i := 1 to n + 1
      invariant |slices| == i - 1 && idx == StartOf(i - 1, q, r)
      invariant forall k | 0 <= k < i - 1 :: slices[k] == Slice(sorted, q, r, k)
    {
      var s := idx;
      idx := idx + if i <= r then q + 1 else q;
      StartsGrow(i, n, q, r);
      slices := slices + [sorted[s..idx]];
    }
  }

  method DistList(l: seq<string>, n: nat) returns (slices: seq<seq<string>>)
    requires n > 0
    ensures |slices| == n && forall i | 0 <= i < n :: slices[i] == SliceOf(l, n, i)
  {
    AllPlaced(|l|, n);
    slices := CutSlices(NumericallySorted(l), n, Quotient(|l|, n), Remainder(|l|, n));
  }

  lemma {:induction false} SlicesJoinUpTo(sorted: seq<string>, q: nat, r: nat, slices: seq<seq<string>>, i: nat)
    requires i <= |slices| && StartOf(i, q, r) <= |sorted|
    requires forall k | 0 <= k < |slices| :: slices[k] == Slice(sorted, q, r, k)
    ensures Flatten(slices[..i]) == sorted[..StartOf(i, q, r)]
  {
    if i == 0 {
      assert slices[..0] == [] && sorted[..0] == [];
    } else {
      var s, e, last := StartOf(i - 1, q, r), StartOf(i, q, r), slices[i - 1];
      SlicesJoinUpTo(sorted, q, r, slices, i - 1);
      FlattenAppend(slices[..i - 1], last);
      assert slices[..i] == slices[..i - 1] + [last];
      assert sorted[..s] + sorted[s..e] == sorted[..e];
    }
  }

  lemma SlicesJoinAll(sorted: seq<string>, q: nat, r: nat, slices: seq<seq<string>>)
    requires StartOf(|slices|, q, r) == |sorted|
    requires forall k | 0 <= k < |slices| :: slices[k] == Slice(sorted, q, r, k)
    ensures Flatten(slices) == sorted
  {
    SlicesJoinUpTo(sorted, q, r, slices, |slices|);
    assert slices[..|slices|] == slices && sorted[..|sorted|] == sorted;
  }

  /** The slices one after the other are the sorted list. */
  lemma SlicesJoin(l: seq<string>, n: nat, slices: seq<seq<string>>)
    requires |slices| == n && n > 0 && forall k | 0 <= k < n :: slices[k] == SliceOf(l, n, k)
    ensures Flatten(slices) == NumericallySorted(l) && multiset(Flatten(slices)) == multiset(l)
  {
    AllPlaced(|l|, n);
    forall k | 0 <= k < n ensures slices[k] == Slice(NumericallySorted(l), Quotient(|l|, n), Remainder(|l|, n), k) {
      assert slices[k] == SliceOf(l, n, k);
    }
    SlicesJoinAll(NumericallySorted(l), Quotient(|l|, n), Remainder(|l|, n), slices);
    NumericSortSorts(l);
  }

  // Assignment to aggregators

  ghost predicate InOneSlice(slices: seq<seq<string>>, x: string, i: nat) {
    i < |slices| && x in slices[i] && forall j | 0 <= j < |slices| && j != i :: x !in slices[j]
  }

  lemma {:induction false} OneSlice(slices: seq<seq<string>>, x: string) returns (i: nat)
    requires Distinct(Flatten(slices)) && x in Flatten(slices)
    ensures InOneSlice(slices, x, i)
  {
    var rest := slices[1..];
    HostDenote.DistinctParts(slices[0], Flatten(rest));
    if x in slices[0] {
      i := 0;
      forall j | 0 < j < |slices| ensures x !in slices[j] {
        if x in slices[j] {
          SliceInFlatten(rest, j - 1, x);
        }
      }
    } else {
      var k := OneSlice(rest, x);
      i := k + 1;
      forall j | 0 <= j < |slices| && j != i ensures x !in slices[j] {
        if j > 0 {
          assert slices[j] == rest[j - 1];
        }
      }
    }
  }

  lemma {:induction false} SliceInFlatten(slices: seq<seq<string>>, i: nat, x: string)
    requires i < |slices| && x in slices[i]
    ensures x in Flatten(slices)
  {
    if i > 0 {
      SliceInFlatten(slices[1..], i - 1, x);
    }
  }

  lemma {:induction false} DistinctCount(l: seq<string>)
    ensures Distinct(l) <==> forall x | x in l :: multiset(l)[x] == 1
  {
    if l != [] {
      var init, last := l[..|l| - 1], l[|l| - 1];
      assert l == init + [last];
      DistinctCount(init);
      if Distinct(l) {
        assert last !in init;
        assert forall x | x in init :: x != last && multiset(l)[x] == multiset(init)[x];
      } else {
        if last in init {
          assert multiset(l)[last] == multiset(init)[last] + 1 && multiset(init)[last] > 0;
        } else {
          assert !Distinct(init);
          var x :| x in init && multiset(init)[x] != 1;
          assert x in l && multiset(l)[x] == multiset(init)[x];
        }
      }
    }
  }

  lemma DistinctPermutation(a: seq<string>, b: seq<string>)
    requires multiset(a) == multiset(b) && Distinct(a)
    ensures Distinct(b)
  {
    DistinctCount(a);
    DistinctCount(b);
    SameElements(a, b);
  }

  /** Every producer is in exactly one aggregator's slice. */
  lemma EachProducerOnce(producers: seq<string>, n: nat, x: string) returns (i: nat)
    requires Distinct(producers) && n > 0 && x in producers
    ensures i < n && x in SliceOf(producers, n, i)
    ensures forall j: nat | j < n && j != i :: x !in SliceOf(producers, n, j)
  {
    var slices := seq(n, k requires 0 <= k < n => SliceOf(producers, n, k));
    SlicesJoin(producers, n, slices);
    DistinctPermutation(producers, Flatten(slices));
    SameElements(producers, Flatten(slices));
    i := OneSlice(slices, x);
    forall j: nat | j < n && j != i ensures x !in SliceOf(producers, n, j) {
      assert slices[j] == SliceOf(producers, n, j);
    }
  }

  // Names

  lemma StringPreorder()
    ensures Preorder(StringLE)
  {
    forall x, y ensures StringLE(x, y) || StringLE(y, x) {
      StringTotal(x, y);
    }
    forall x, y, z | StringLE(x, y) && StringLE(y, z) ensures StringLE(x, z) {
      StringTransitive(x, y, z);
    }
  }

  ghost predicate Expandable(s: string) { ListBalanced(s, false) && AllFit(TopSplit(s, false)) }

  ghost function NamesOf(s: string): seq<string> {
    if Expandable(s) then FirstOnes(Together(TopSplit(s, false))) else []
  }

  /** A specification is one expression or a list of them. */
  datatype NameSpec = One(s: string) | Many(l: seq<string>)

  function Expressions(spec: NameSpec): seq<string> { if spec.One? then [spec.s] else spec.l }

  ghost function AllNames(l: seq<string>): seq<string> {
    if l == [] then [] else AllNames(l[..|l| - 1]) + NamesOf(l[|l| - 1])
  }

  lemma AllNamesNext(l: seq<string>, k: nat)
    requires k < |l|
    ensures AllNames(l[..k + 1]) == AllNames(l[..k]) + NamesOf(l[k])
  {
    assert l[..k + 1][..k] == l[..k];
  }

  lemma OneExpression(s: string)
    ensures AllNames([s]) == NamesOf(s) && Distinct(NamesOf(s))
  {
    var l := [s];
    assert l[..0] == [] && AllNames(l) == AllNames(l[..0]) + NamesOf(s) && [] + NamesOf(s) == NamesOf(s);
    if Expandable(s) {
      FirstOnesContents(Together(TopSplit(s, false)));
    }
  }

  lemma NamesSorted(names: seq<string>)
    ensures Sorted(StringLE, Sort(StringLE, names)) && multiset(Sort(StringLE, names)) == multiset(names)
    ensures Distinct(names) ==> Distinct(Sort(StringLE, names))
  {
    StringPreorder();
    SortSorts(StringLE, names);
    if Distinct(names) {
      DistinctPermutation(names, Sort(StringLE, names));
    }
  }

  ghost predicate AllExpandable(l: seq<string>) { forall s | s in l :: Expandable(s) }

  lemma AllExpandableNext(l: seq<string>, k: nat)
    requires k < |l|
    ensures AllExpandable(l[..k + 1]) <==> AllExpandable(l[..k]) && Expandable(l[k])
    ensures AllExpandable(l) ==> Expandable(l[k])
  {
    assert l[..k + 1] == l[..k] + [l[k]];
  }

  method NamesIn(s: string) returns (r: Result<seq<string>, Bad>)
    ensures r.Ok? <==> Expandable(s)
    ensures r.Ok? ==> r.value == NamesOf(s)
  {
    r := ExpandHostlist(s, false);
  }

  method GatherNames(l: seq<string>) returns (r: Result<seq<string>, Bad>)
    ensures r.Ok? <==> AllExpandable(l)
    ensures r.Ok? ==> r.value == AllNames(l)
  {
    var names: seq<string> := [];
    for k := 0 to |l|
      invariant names == AllNames(l[..k]) && AllExpandable(l[..k])
    {
      AllExpandableNext(l, k);
      var one := NamesIn(l[k]);
      if one.Err? {
        return one;
      }
      AllNamesNext(l, k);
      names := names + one.value;
    }
    assert l[..|l|] == l;
    return Ok(names);
  }

  /** The names of a specification in plain string order; those of one expression are all different. */
  method ExpandNames(spec: NameSpec) returns (r: Result<seq<string>, Bad>)
    ensures r.Ok? <==> AllExpandable(Expressions(spec))
    ensures r.Ok? ==> Sorted(StringLE, r.value) && multiset(r.value) == multiset(AllNames(Expressions(spec)))
    ensures r.Ok? && spec.One? ==> r.value == Sort(StringLE, NamesOf(spec.s)) && Distinct(r.value)
  {
    var names := GatherNames(Expressions(spec));
    if names.Err? {
      return names;
    }
    NamesSorted(names.value);
    if spec.One? {
      OneExpression(spec.s);
    }
    return Ok(Sort(StringLE, names.value));
  }

  /** The first position whose element is not below `x`. */
  method BisectLeft(slist: seq<string>, x: string) returns (idx: nat)
    requires Sorted(StringLE, slist)
    ensures idx <= |slist| && (forall k | 0 <= k < idx :: !StringLE(x, slist[k]))
    ensures forall k | idx <= k < |slist| :: StringLE(x, slist[k])
  {
    var lo, hi := 0, |slist|;
    while lo < hi
      invariant 0 <= lo <= hi <= |slist|
      invariant forall k | 0 <= k < lo :: !StringLE(x, slist[k])
      invariant forall k | hi <= k < |slist| :: StringLE(x, slist[k])
    {
      var mid := (lo + hi) / 2;
      StringPreorder();
      if !StringLE(x, slist[mid]) {
        lo := mid + 1;
      } else {
        hi := mid;
      }
    }
    idx := lo;
  }

  lemma FirstNotBelow(slist: seq<string>, x: string, idx: nat, k: nat)
    requires Sorted(StringLE, slist) && k < |slist| && slist[k] == x && idx <= |slist|
    requires forall i | 0 <= i < idx :: !StringLE(x, slist[i])
    requires forall i | idx <= i < |slist| :: StringLE(x, slist[i])
    ensures idx < |slist| && slist[idx] == x
  {
    StringTotal(x, x);
    if idx < k {
      StringAntisymmetric(slist[idx], slist[k]);
    }
  }

  /** Binary search agrees with plain membership. */
  method BinSearch(slist: seq<string>, x: string) returns (found: bool)
    requires Sorted(StringLE, slist)
    ensures found <==> x in slist
  {
    var idx := BisectLeft(slist, x);
    found := idx < |slist| && slist[idx] == x;
    if x in slist {
      var k :| 0 <= k < |slist| && slist[k] == x;
      FirstNotBelow(slist, x, idx, k);
    }
  }

  /** Whether a name is among those a specification stands for. */
  method IsNamed(spec: NameSpec, x: string) returns (r: Result<bool, Bad>)
    ensures r.Ok? <==> AllExpandable(Expressions(spec))
    ensures r.Ok? ==> (r.value <==> x in AllNames(Expressions(spec)))
  {
    var names := ExpandNames(spec);
    if names.Err? {
      return Err(names.error);
    }
    SameElements(names.value, AllNames(Expressions(spec)));
    var found := BinSearch(names.value, x);
    return Ok(found);
  }

  // The aggregators of a group

  function IndexOf(l: seq<string>, x: string): (i: nat)
    requires x in l
    ensures i < |l| && l[i] == x
  {
    if l[0] == x then 0 else 1 + IndexOf(l[1..], x)
  }

  datatype Failure = BadNames(bad: Bad) | NotInGroup

  /** The producers one aggregator of a group is given. */
  ghost function Share(producers: seq<string>, group: string, daemon: string): seq<string>
    requires daemon in Sort(StringLE, NamesOf(group))
  {
    var aggs := Sort(StringLE, NamesOf(group));
    SliceOf(producers, |aggs|, IndexOf(aggs, daemon))
  }

  /** The aggregator in place `i` of the sorted group is given slice `i`. */
  lemma ShareIsOwnSlice(producers: seq<string>, group: string, i: nat)
    requires i < |Sort(StringLE, NamesOf(group))|
    ensures var aggs := Sort(StringLE, NamesOf(group));
            aggs[i] in aggs && Share(producers, group, aggs[i]) == SliceOf(producers, |aggs|, i)
  {
    OneExpression(group);
    NamesSorted(NamesOf(group));
    var aggs := Sort(StringLE, NamesOf(group));
    assert aggs[i] in aggs && IndexOf(aggs, aggs[i]) == i;
  }

  method ProducersFor(producers: seq<string>, group: string, daemon: string)
    returns (r: Result<seq<string>, Failure>)
    ensures r.Ok? <==> Expandable(group) && daemon in Sort(StringLE, NamesOf(group))
    ensures r.Ok? ==> r.value == Share(producers, group, daemon)
  {
    var names := ExpandNames(One(group));
    assert Expressions(One(group)) == [group] && group in [group];
    if names.Err? {
      return Err(BadNames(names.error));
    }
    var aggs := names.value;
    if daemon !in aggs {
      return Err(NotInGroup);
    }
    var slices := DistList(producers, |aggs|);
    return Ok(slices[IndexOf(aggs, daemon)]);
  }

  /** Across a group every producer is given to exactly one aggregator. */
  lemma EachProducerAssignedOnce(producers: seq<string>, group: string, p: string) returns (daemon: string)
    requires Distinct(producers) && p in producers && NamesOf(group) != []
    ensures daemon in Sort(StringLE, NamesOf(group)) && p in Share(producers, group, daemon)
    ensures forall d | d in Sort(StringLE, NamesOf(group)) && d != daemon :: p !in Share(producers, group, d)
  {
    var aggs := Sort(StringLE, NamesOf(group));
    OneExpression(group);
    NamesSorted(NamesOf(group));
    var i := EachProducerOnce(producers, |aggs|, p);
    daemon := aggs[i];
  }
}
