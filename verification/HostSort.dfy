/** The order of the sort list: prefix, suffix with none first, number, width, host. */
module HostSort {
  import opened Prelude
  import opened Sorting
  import opened HostTokens

  /** Strings compare by their first differing character, and a prefix comes first. */
  predicate StringLE(a: string, b: string) {
    a == "" || (b != "" && (if a[0] == b[0] then StringLE(a[1..], b[1..]) else a[0] < b[0]))
  }

  lemma {:induction false} StringTotal(a: string, b: string)
    ensures StringLE(a, b) || StringLE(b, a)
  {
    if a != "" && b != "" && a[0] == b[0] {
      StringTotal(a[1..], b[1..]);
    }
  }

  lemma {:induction false} StringAntisymmetric(a: string, b: string)
    requires StringLE(a, b) && StringLE(b, a)
    ensures a == b
  {
    if a != "" {
      StringAntisymmetric(a[1..], b[1..]);
      assert a == [a[0]] + a[1..] && b == [b[0]] + b[1..];
    }
  }

  lemma {:induction false} StringTransitive(a: string, b: string, c: string)
    requires StringLE(a, b) && StringLE(b, c)
    ensures StringLE(a, c)
  {
    if a != "" && a[0] == b[0] == c[0] {
      StringTransitive(a[1..], b[1..], c[1..]);
    }
  }

  /** The first differing character decides. */
  lemma {:induction false} FirstDifferenceDecides(p: string, c: char, d: char, s: string, t: string)
    requires c < d
    ensures StringLE(p + [c] + s, p + [d] + t) && !StringLE(p + [d] + t, p + [c] + s)
  {
    var x, y := p + [c] + s, p + [d] + t;
    if p != "" {
      assert x[1..] == p[1..] + [c] + s && y[1..] == p[1..] + [d] + t;
      FirstDifferenceDecides(p[1..], c, d, s, t);
    }
  }

  /** A string comes before what it is the beginning of. */
  lemma {:induction false} BeginningComesFirst(p: string, s: string)
    ensures StringLE(p, p + s) && (s != "" ==> !StringLE(p + s, p))
  {
    if p == "" {
      assert p + s == s;
    } else {
      assert (p + s)[1..] == p[1..] + s;
      BeginningComesFirst(p[1..], s);
    }
  }

  predicate SuffixLE(a: Option<string>, b: Option<string>) {
    a.None? || (b.Some? && StringLE(a.value, b.value))
  }

  predicate SameKey(x: Item, y: Item) { x.prefix == y.prefix && x.suffix == y.suffix }

  predicate KeyLE(x: Item, y: Item) {
    if x.prefix == y.prefix then SuffixLE(x.suffix, y.suffix) else StringLE(x.prefix, y.prefix)
  }

  predicate ItemLE(x: Item, y: Item) {
    if !SameKey(x, y) then KeyLE(x, y)
    else if x.num != y.num then x.num < y.num
    else if x.width != y.width then x.width < y.width
    else StringLE(x.host, y.host)
  }

  lemma KeyAntisymmetric(x: Item, y: Item)
    requires KeyLE(x, y) && KeyLE(y, x)
    ensures SameKey(x, y)
  {
    if x.prefix != y.prefix {
      StringAntisymmetric(x.prefix, y.prefix);
    } else if x.suffix.Some? && y.suffix.Some? {
      StringAntisymmetric(x.suffix.value, y.suffix.value);
    }
  }

  lemma KeyTransitive(x: Item, y: Item, z: Item)
    requires KeyLE(x, y) && KeyLE(y, z)
    ensures KeyLE(x, z)
  {
    if x.prefix == z.prefix && x.prefix != y.prefix {
      StringAntisymmetric(x.prefix, y.prefix);
    } else if x.prefix != y.prefix && y.prefix != z.prefix {
      StringTransitive(x.prefix, y.prefix, z.prefix);
    } else if x.prefix == y.prefix == z.prefix && x.suffix.Some? && y.suffix.Some? && z.suffix.Some? {
      StringTransitive(x.suffix.value, y.suffix.value, z.suffix.value);
    }
  }

  lemma KeyReflexive(x: Item)
    ensures KeyLE(x, x)
  {
    if x.suffix.Some? {
      StringTotal(x.suffix.value, x.suffix.value);
    }
  }

  lemma ItemTotal(x: Item, y: Item)
    ensures ItemLE(x, y) || ItemLE(y, x)
  {
    StringTotal(x.prefix, y.prefix);
    if x.suffix.Some? && y.suffix.Some? {
      StringTotal(x.suffix.value, y.suffix.value);
    }
    StringTotal(x.host, y.host);
  }

  lemma ItemTransitive(x: Item, y: Item, z: Item)
    requires ItemLE(x, y) && ItemLE(y, z)
    ensures ItemLE(x, z)
  {
    if SameKey(x, y) && SameKey(y, z) {
      if x.num == y.num == z.num && x.width == y.width == z.width {
        StringTransitive(x.host, y.host, z.host);
      }
    } else {
      KeyReflexive(x);
      KeyReflexive(z);
      KeyTransitive(x, y, z);
      if SameKey(x, z) {
        KeyAntisymmetric(x, y);
      }
    }
  }

  /** Equal keys and otherwise equal items only: the sorted order is fully determined. */
  lemma ItemAntisymmetric(x: Item, y: Item)
    requires ItemLE(x, y) && ItemLE(y, x)
    ensures x == y
  {
    if !SameKey(x, y) {
      KeyAntisymmetric(x, y);
    } else {
      StringAntisymmetric(x.host, y.host);
    }
  }

  lemma ItemPreorder()
    ensures Preorder(ItemLE)
  {
    forall x, y ensures ItemLE(x, y) || ItemLE(y, x) {
      ItemTotal(x, y);
    }
    forall x, y, z | ItemLE(x, y) && ItemLE(y, z) ensures ItemLE(x, z) {
      ItemTransitive(x, y, z);
    }
  }

  function SortItems(s: seq<Item>): seq<Item> { Sort(ItemLE, s) }

  lemma ItemsSorted(s: seq<Item>)
    ensures Sorted(ItemLE, SortItems(s)) && multiset(SortItems(s)) == multiset(s)
    ensures forall y :: y in SortItems(s) <==> y in s
  {
    ItemPreorder();
    SortSorts(ItemLE, s);
    SameElements(SortItems(s), s);
  }

  /** Items with one key stand together. */
  lemma SortedGroups(s: seq<Item>, i: nat, j: nat, k: nat)
    requires Sorted(ItemLE, s) && i <= j <= k < |s| && SameKey(s[i], s[k])
    ensures SameKey(s[i], s[j])
  {
    if i < j < k && !SameKey(s[i], s[j]) {
      assert ItemLE(s[i], s[j]) && ItemLE(s[j], s[k]);
      assert KeyLE(s[j], s[i]);
      KeyAntisymmetric(s[i], s[j]);
    }
  }

  // Length of the text still to be analysed

  /** A bound on what an item's left part had, before its number is split off. */
  function Analysed(x: Item): nat { if x.suffix.None? then 0 else |x.prefix| + x.width }

  function AnalysedTotal(s: seq<Item>): nat {
    if s == [] then 0 else Analysed(s[0]) + AnalysedTotal(s[1..])
  }

  lemma {:induction false} InsertTotal(x: Item, s: seq<Item>)
    ensures AnalysedTotal(Insert(ItemLE, x, s)) == Analysed(x) + AnalysedTotal(s)
  {
    var r := Insert(ItemLE, x, s);
    if s == [] || ItemLE(x, s[0]) {
      assert r[1..] == s;
    } else {
      InsertTotal(x, s[1..]);
      assert r[1..] == Insert(ItemLE, x, s[1..]);
    }
  }

  lemma {:induction false} SortTotal(s: seq<Item>)
    ensures AnalysedTotal(SortItems(s)) == AnalysedTotal(s)
  {
    if s != [] {
      SortTotal(s[1..]);
      InsertTotal(s[0], SortItems(s[1..]));
    }
  }

  /** The total drops by at least the first item's share when a group is done. */
  lemma {:induction false} TotalAfter(s: seq<Item>, i: nat, j: nat)
    requires i < j <= |s|
    ensures AnalysedTotal(s[i..]) >= Analysed(s[i]) + AnalysedTotal(s[j..])
    decreases j - i
  {
    assert s[i..][1..] == s[i + 1..];
    if i + 1 < j {
      TotalAfter(s, i + 1, j);
    }
  }
}
