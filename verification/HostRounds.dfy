/** One round of collection. */
module HostRounds {
  import opened Prelude
  import opened Digits
  import opened HostSyntax
  import opened Sorting
  import opened HostTokens
  import opened HostSort
  import opened HostDenote
  import opened HostEven
  import opened HostNeat
  import opened HostClash
  import opened HostCollect

  function Texts(l: seq<Entry>): (t: seq<string>)
    ensures |t| == |l|
  {
    if l == [] then [] else Texts(l[..|l| - 1]) + [l[|l| - 1].left + l[|l| - 1].right]
  }

  lemma {:induction false} TextAt(l: seq<Entry>, i: nat)
    requires i < |l|
    ensures Texts(l)[i] == l[i].left + l[i].right
  {
    if i < |l| - 1 {
      TextAt(l[..|l| - 1], i);
    }
  }

  lemma TextsAppend(l: seq<Entry>, e: Entry)
    ensures Texts(l + [e]) == Texts(l) + [e.left + e.right]
  {
    var m := l + [e];
    assert m[..|m| - 1] == l && m[|m| - 1] == e;
  }

  /** The length of the text still to be analysed. */
  function LeftTotal(l: seq<Entry>): nat {
    if l == [] then 0 else LeftTotal(l[..|l| - 1]) + |l[|l| - 1].left|
  }

  lemma LeftTotalAppend(l: seq<Entry>, e: Entry)
    ensures LeftTotal(l + [e]) == LeftTotal(l) + |e.left|
  {
    var m := l + [e];
    assert m[..|m| - 1] == l && m[|m| - 1] == e;
  }

  ghost predicate EntriesOk(l: seq<Entry>, r: nat) { forall e | e in l :: EntryOk(e, r) }

  /** The right part is even and neat; newlines are gone from the left, and from all if `clean` hosts have none. */
  ghost predicate EntryTidy(e: Entry, r: nat, clean: bool) {
    && Even(e.right) && Neat(e.right) && (r > 0 ==> '\n' !in e.left)
    && (clean ==> '\n' !in e.left && '\n' !in e.right)
  }

  ghost predicate ItemTidy(x: Item, clean: bool) {
    && ItemEven(x) && Neat(if x.suffix.None? then x.host else x.suffix.value)
    && (x.suffix.Some? ==> '\n' !in x.prefix)
    && (clean ==> '\n' !in x.host)
  }

  ghost predicate EntriesTidy(l: seq<Entry>, r: nat, clean: bool) { forall e | e in l :: EntryTidy(e, r, clean) }

  ghost predicate ItemsTidy(l: seq<Item>, clean: bool) { forall x | x in l :: ItemTidy(x, clean) }

  ghost function TextSet(l: seq<Entry>): set<string> { set x | x in Texts(l) }

  /** What holds before round `r`: the entries stand for the hosts, and the unbracketed ones are those alone. */
  ghost predicate Stage(l: seq<Entry>, hosts: set<string>, r: nat, clean: bool) {
    && EntriesOk(l, r) && EntriesTidy(l, r, clean) && AllPlain(hosts)
    && Family(TextSet(l), hosts) && AloneOnly(hosts, TextSet(l), r)
  }

  // The sort list

  ghost predicate SortListOf(l: seq<Entry>, k: nat, items: seq<Item>, remaining: set<string>, r: nat) {
    && k <= |l| && |items| == k && ItemsOk(items, r)
    && (forall i | 0 <= i < k :: items[i].host == l[i].left + l[i].right)
    && (forall x :: x in remaining <==> exists i | 0 <= i < k :: items[i].host == x)
  }

  lemma {:induction false} AnalysedTotalAppend(s: seq<Item>, x: Item)
    ensures AnalysedTotal(s + [x]) == AnalysedTotal(s) + Analysed(x)
  {
    if s == [] {
      assert (s + [x])[1..] == [];
    } else {
      assert (s + [x])[1..] == s[1..] + [x];
      AnalysedTotalAppend(s[1..], x);
    }
  }

  lemma PrepareShrinks(e: Entry)
    ensures Analysed(Prepare(e)) <= |e.left|
  {
  }

  lemma AnalyseStep(l: seq<Entry>, k: nat, items: seq<Item>, remaining: set<string>, r: nat)
    requires SortListOf(l, k, items, remaining, r) && k < |l| && EntryOk(l[k], r)
    ensures SortListOf(l, k + 1, items + [Prepare(l[k])], remaining + {l[k].left + l[k].right}, r)
  {
    PrepareOk(l[k], r);
    var more, all := items + [Prepare(l[k])], remaining + {l[k].left + l[k].right};
    forall x ensures x in all <==> exists i | 0 <= i < k + 1 :: more[i].host == x {
      if x in remaining {
        var i :| 0 <= i < k && items[i].host == x;
        assert more[i].host == x;
      } else if x == l[k].left + l[k].right {
        assert more[k].host == x;
      }
    }
  }

  lemma TotalsStep(l: seq<Entry>, k: nat, items: seq<Item>)
    requires k < |l| && AnalysedTotal(items) <= LeftTotal(l[..k])
    ensures AnalysedTotal(items + [Prepare(l[k])]) <= LeftTotal(l[..k + 1])
  {
    AnalysedTotalAppend(items, Prepare(l[k]));
    PrepareShrinks(l[k]);
    assert l[..k + 1] == l[..k] + [l[k]];
    LeftTotalAppend(l[..k], l[k]);
  }

  lemma PrepareTidy(e: Entry, r: nat, clean: bool)
    requires EntryOk(e, r) && EntryTidy(e, r, clean) && !Unmatched(e.left)
    ensures ItemTidy(Prepare(e), clean)
  {
    PrepareEven(e, r);
    PrepareNeat(e, r);
  }

  lemma PrepareNeat(e: Entry, r: nat)
    requires EntryOk(e, r) && Neat(e.right)
    ensures var x := Prepare(e); Neat(if x.suffix.None? then x.host else x.suffix.value)
  {
    var t := TailAt(e.left);
    if t == 0 {
      NeatBehind(e.left, e.right);
    } else {
      assert e.left[t..] == e.left[t..|e.left|];
      PlainPart(e.left, t, |e.left|);
      NeatBehind(e.left[t..], e.right);
    }
  }

  ghost predicate AnyUnmatched(l: seq<Entry>) { exists e | e in l :: Unmatched(e.left) }

  lemma UnmatchedNext(l: seq<Entry>, k: nat)
    requires k < |l|
    ensures l[k] in l && (Unmatched(l[k].left) ==> AnyUnmatched(l))
    ensures AnyUnmatched(l[..k + 1]) <==> AnyUnmatched(l[..k]) || Unmatched(l[k].left)
  {
    assert l[..k + 1] == l[..k] + [l[k]];
  }

  lemma TidyNext(items: seq<Item>, x: Item, clean: bool)
    requires ItemsTidy(items, clean) && ItemTidy(x, clean)
    ensures ItemsTidy(items + [x], clean)
  {
  }

  /** Builds the sort list; fails exactly if some left part does not match. */
  method Analyse(l: seq<Entry>, ghost r: nat, ghost clean: bool)
    returns (failed: bool, items: seq<Item>, remaining: set<string>)
    requires EntriesOk(l, r) && EntriesTidy(l, r, clean)
    ensures failed <==> AnyUnmatched(l)
    ensures !failed ==> SortListOf(l, |l|, items, remaining, r) && ItemsTidy(items, clean)
    ensures !failed ==> AnalysedTotal(items) <= LeftTotal(l)
  {
    failed, items, remaining := false, [], {};
    for k := 0 to |l|
      invariant SortListOf(l, k, items, remaining, r) && ItemsTidy(items, clean)
      invariant AnalysedTotal(items) <= LeftTotal(l[..k])
      invariant !failed && !AnyUnmatched(l[..k])
    {
      UnmatchedNext(l, k);
      if Unmatched(l[k].left) {
        return true, [], {};
      }
      AnalyseStep(l, k, items, remaining, r);
      TotalsStep(l, k, items);
      PrepareTidy(l[k], r, clean);
      TidyNext(items, Prepare(l[k]), clean);
      items, remaining := items + [Prepare(l[k])], remaining + {l[k].left + l[k].right};
    }
    assert l[..|l|] == l;
  }

  // Sorting

  lemma {:induction false} ClashNextTo(s: seq<Item>, a: nat, b: nat) returns (i: nat)
    requires Sorted(ItemLE, s) && a < b < |s| && Clash(s[a], s[b])
    ensures 0 < i < |s| && Clash(s[i - 1], s[i])
    decreases b - a
  {
    var c := a + 1;
    if c == b {
      return b;
    }
    if s[c].prefix != s[a].prefix {
      assert ItemLE(s[a], s[c]) && ItemLE(s[c], s[b]);
      StringAntisymmetric(s[a].prefix, s[c].prefix);
    }
    if Clash(s[a], s[c]) {
      return c;
    }
    i := ClashNextTo(s, c, b);
  }

  lemma NeighboursDecide(s: seq<Item>)
    requires Sorted(ItemLE, s) && forall k | 0 < k < |s| :: !Clash(s[k - 1], s[k])
    ensures !HasClash(s)
  {
    forall k, m | 0 <= k < m < |s| ensures !Clash(s[k], s[m]) {
      if Clash(s[k], s[m]) {
        var i := ClashNextTo(s, k, m);
      }
    }
  }

  lemma SameClashes(items: seq<Item>)
    ensures HasClash(SortItems(items)) <==> HasClash(items)
  {
    var sorted := SortItems(items);
    ItemsSorted(items);
    if k, m :| 0 <= k < |items| && 0 <= m < |items| && Clash(items[k], items[m]) {
      assert items[k] in sorted && items[m] in sorted;
    } else if k, m :| 0 <= k < |sorted| && 0 <= m < |sorted| && Clash(sorted[k], sorted[m]) {
      assert sorted[k] in items && sorted[m] in items;
    }
  }

  /**
   * Sorts the list.  Whatever the order of comparisons, neighbours in the result have been
   * compared, so that a strict comparison fails exactly if two items of the list clash.
   */
  method SortList(items: seq<Item>, strict: bool) returns (r: Result<seq<Item>, Bad>)
    ensures r == if strict && HasClash(items) then Err(Incomparable) else Ok(SortItems(items))
  {
    var sorted := SortItems(items);
    SameClashes(items);
    if strict {
      ItemsSorted(items);
      for i := 0 to |sorted|
        invariant forall k | 0 < k < i :: !Clash(sorted[k - 1], sorted[k])
      {
        if i > 0 && Clash(sorted[i - 1], sorted[i]) {
          return Err(Incomparable);
        }
      }
      NeighboursDecide(sorted);
    }
    return Ok(sorted);
  }

  // One round

  /** Items not yet reached still have their host. */
  ghost predicate Pending(sorted: seq<Item>, i: nat, remaining: set<string>) {
    forall k | i <= k < |sorted| :: sorted[k].host in remaining
  }

  ghost predicate ResultsOk(results: seq<Entry>, gone: seq<string>, r: nat) {
    && EntriesOk(results, r + 1)
    && (forall x | x in Texts(results) :: Meaningful(x))
    && Denoted(Texts(results)) == Denoted(gone)
  }

  ghost predicate Round(sorted: seq<Item>, i: nat, all: set<string>, remaining: set<string>,
                        gone: seq<string>, results: seq<Entry>, r: nat) {
    && i <= |sorted| && Removed(all, gone, remaining)
    && Pending(sorted, i, remaining) && Processed(sorted, i, remaining)
    && ResultsOk(results, gone, r)
  }

  /** Where the group that starts at `i` ends. */
  method GroupEnd(sorted: seq<Item>, i: nat) returns (j: nat)
    requires i < |sorted| && Sorted(ItemLE, sorted)
    ensures i < j <= |sorted|
    ensures forall k | i <= k < j :: SameKey(sorted[k], sorted[i])
    ensures forall k | j <= k < |sorted| :: !SameKey(sorted[k], sorted[i])
  {
    j := i + 1;
    while j < |sorted| && SameKey(sorted[j], sorted[i])
      invariant i < j <= |sorted|
      invariant forall k | i <= k < j :: SameKey(sorted[k], sorted[i])
    {
      j := j + 1;
    }
    forall k | j <= k < |sorted| ensures !SameKey(sorted[k], sorted[i]) {
      if SameKey(sorted[k], sorted[i]) {
        SortedGroups(sorted, i, j, k);
      }
    }
  }

  /** A range scan takes nothing from the groups still to come. */
  lemma ScanLeavesOthers(sorted: seq<Item>, i: nat, j: nat, remaining: set<string>, gone: seq<string>,
                         rest: set<string>, r: nat)
    requires i < j <= |sorted| && ItemsOk(sorted, r) && sorted[i].suffix.Some?
    requires forall k | j <= k < |sorted| :: !SameKey(sorted[k], sorted[i])
    requires Pending(sorted, i, remaining) && Removed(remaining, gone, rest)
    requires AllInGroup(gone, sorted[i].prefix, sorted[i].suffix.value)
    ensures Pending(sorted, j, rest)
  {
    var prefix, suffix := sorted[i].prefix, sorted[i].suffix.value;
    assert ItemOk(sorted[i], r);
    forall k | j <= k < |sorted| ensures sorted[k].host in rest {
      var x := sorted[k];
      assert ItemOk(x, r);
      if x.host in gone {
        assert InGroup(x.host, prefix, suffix);
        var width: nat, n: nat :| x.host == Host(prefix, width, n, suffix);
        ScanStaysInGroup(prefix, suffix, width, n, x, r);
      }
    }
  }

  /** A host without a number to the left is no other group's host. */
  lemma SpecialLeavesOthers(sorted: seq<Item>, i: nat, j: nat, remaining: set<string>, r: nat)
    requires i < j <= |sorted| && ItemsOk(sorted, r) && sorted[i].suffix.None?
    requires forall k | j <= k < |sorted| :: !SameKey(sorted[k], sorted[i])
    requires Pending(sorted, i, remaining)
    ensures Pending(sorted, j, remaining - {sorted[i].host})
  {
    assert ItemOk(sorted[i], r);
    forall k | j <= k < |sorted| ensures sorted[k].host != sorted[i].host {
      var x := sorted[k];
      assert ItemOk(x, r);
      if x.suffix.Some? {
        HostCount(x.prefix, x.suffix.value, x.width, x.num, r);
      }
    }
  }

  lemma ResultsStep(results: seq<Entry>, gone: seq<string>, e: Entry, more: seq<string>, r: nat)
    requires ResultsOk(results, gone, r) && GroupResult(e, more, r)
    ensures ResultsOk(results + [e], gone + more, r)
  {
    TextsAppend(results, e);
    DenotedAppend(Texts(results), [e.left + e.right]);
    DenotedOne(e.left + e.right);
    DenotedAppend(gone, more);
  }

  lemma SpecialResult(x: Item, r: nat)
    requires ItemOk(x, r) && x.suffix.None? && Meaningful(x.host)
    ensures GroupResult(Entry("", x.prefix), [x.host], r)
  {
    assert "" + x.prefix == x.prefix;
    DenotedOne(x.host);
  }

  lemma ProcessedGroup(sorted: seq<Item>, i: nat, j: nat, remaining: set<string>, rest: set<string>)
    requires i <= j <= |sorted| && Processed(sorted, i, remaining) && rest <= remaining
    requires Processed(sorted[i..j], j - i, rest)
    ensures Processed(sorted, j, rest)
  {
    forall m | 0 <= m < j ensures sorted[m].host !in rest {
      if m >= i {
        assert sorted[m] == sorted[i..j][m - i];
      }
    }
  }

  /** One group is done: its hosts are gone and its entry stands for them. */
  lemma RoundStep(sorted: seq<Item>, i: nat, j: nat, all: set<string>, remaining: set<string>, gone: seq<string>,
                  results: seq<Entry>, r: nat, e: Entry, rest: set<string>, more: seq<string>)
    requires Round(sorted, i, all, remaining, gone, results, r) && i < j <= |sorted|
    requires Removed(remaining, more, rest) && GroupResult(e, more, r)
    requires Processed(sorted[i..j], j - i, rest) && Pending(sorted, j, rest)
    ensures Round(sorted, j, all, rest, gone + more, results + [e], r)
  {
    RemovedMore(all, gone, remaining, more, rest);
    ResultsStep(results, gone, e, more, r);
    ProcessedGroup(sorted, i, j, remaining, rest);
  }

  /** After the last group nothing remains, and the results denote what the input did. */
  lemma RoundEnd(sorted: seq<Item>, all: set<string>, remaining: set<string>, gone: seq<string>,
                 results: seq<Entry>, r: nat, hosts: set<string>)
    requires Round(sorted, |sorted|, all, remaining, gone, results, r) && Family(all, hosts)
    requires HostsOf(sorted, all)
    ensures remaining == {} && ListsOnce(Texts(results), hosts)
  {
    forall x | x in all ensures x !in remaining {
      var i :| 0 <= i < |sorted| && sorted[i].host == x;
    }
    FamilyListedWhole(gone, all, hosts);
  }

  lemma MeaningfulHost(x: string, all: set<string>, hosts: set<string>)
    requires Family(all, hosts) && x in all
    ensures Meaningful(x)
  {
    assert Within(x, hosts);
  }

  lemma SortedItems(items: seq<Item>, all: set<string>, r: nat, clean: bool)
    requires ItemsOk(items, r) && ItemsTidy(items, clean) && HostsOf(items, all)
    ensures var sorted := SortItems(items);
            && Sorted(ItemLE, sorted) && ItemsOk(sorted, r) && ItemsTidy(sorted, clean)
            && HostsOf(sorted, all) && AnalysedTotal(sorted) == AnalysedTotal(items)
  {
    var sorted := SortItems(items);
    ItemsSorted(items);
    SortTotal(items);
    forall k | 0 <= k < |sorted| ensures sorted[k].host in all {
      assert sorted[k] in sorted;
      var i :| 0 <= i < |items| && items[i] == sorted[k];
    }
    forall x | x in all ensures exists i | 0 <= i < |sorted| :: sorted[i].host == x {
      var i :| 0 <= i < |items| && items[i].host == x;
      assert items[i] in sorted;
      var k :| 0 <= k < |sorted| && sorted[k] == items[i];
    }
  }

  // The hosts still alone

  /** Equal keys are all on one side of `i`. */
  ghost predicate Boundary(sorted: seq<Item>, i: nat) {
    forall a, b | 0 <= a < i <= b < |sorted| :: !SameKey(sorted[a], sorted[b])
  }

  /** The group from `i` to `j` has the hosts `more`. */
  ghost predicate GroupIs(sorted: seq<Item>, i: nat, j: nat, more: seq<string>) {
    forall x :: x in more <==> exists k | i <= k < j && k < |sorted| :: sorted[k].host == x
  }

  /** Among the first `i` items, the hosts alone in their group are the results without a bracket. */
  ghost predicate PlainSole(sorted: seq<Item>, i: nat, results: seq<Entry>) {
    forall x | Plain(x) ::
      x in Texts(results) <==> Sole(sorted, x) && exists k | 0 <= k < i && k < |sorted| :: sorted[k].host == x
  }

  lemma BoundaryNext(sorted: seq<Item>, i: nat, j: nat)
    requires i < j <= |sorted| && Boundary(sorted, i)
    requires forall k | i <= k < j :: SameKey(sorted[k], sorted[i])
    requires forall k | j <= k < |sorted| :: !SameKey(sorted[k], sorted[i])
    ensures Boundary(sorted, j)
  {
    forall a, b | 0 <= a < j <= b < |sorted| ensures !SameKey(sorted[a], sorted[b]) {
      assert !SameKey(sorted[b], sorted[i]);
      assert i <= a ==> SameKey(sorted[a], sorted[i]);
    }
  }

  /** A group has exactly the hosts taken out for it. */
  lemma GroupContents(sorted: seq<Item>, i: nat, j: nat, all: set<string>, remaining: set<string>,
                      more: seq<string>, rest: set<string>, r: nat)
    requires i < j <= |sorted| && ItemsOk(sorted, r) && HostsOf(sorted, all) && remaining <= all
    requires Boundary(sorted, i) && Boundary(sorted, j) && Pending(sorted, i, remaining)
    requires Removed(remaining, more, rest) && Processed(sorted[i..j], j - i, rest)
    requires sorted[i].suffix.Some? && AllInGroup(more, sorted[i].prefix, sorted[i].suffix.value)
    ensures GroupIs(sorted, i, j, more)
  {
    var prefix, suffix := sorted[i].prefix, sorted[i].suffix.value;
    assert ItemOk(sorted[i], r);
    forall x | x in more ensures exists k | i <= k < j && k < |sorted| :: sorted[k].host == x {
      var k :| 0 <= k < |sorted| && sorted[k].host == x;
      assert ItemOk(sorted[k], r);
      var width: nat, n: nat :| x == Host(prefix, width, n, suffix);
      ScanStaysInGroup(prefix, suffix, width, n, sorted[k], r);
      assert SameKey(sorted[k], sorted[i]) && SameKey(sorted[i], sorted[k]);
    }
    forall k | i <= k < j ensures sorted[k].host in more {
      assert sorted[i..j][k - i] == sorted[k];
    }
  }

  lemma SoleInGroup(sorted: seq<Item>, i: nat, j: nat, more: seq<string>, x: string)
    requires i < j <= |sorted| && Boundary(sorted, i) && Boundary(sorted, j) && GroupIs(sorted, i, j, more)
    requires forall k | i <= k < j :: SameKey(sorted[k], sorted[i])
    requires Distinct(more) && x in more
    requires forall k | 0 <= k < |sorted| && !(i <= k < j) :: sorted[k].host !in more
    ensures Sole(sorted, x) <==> more == [x]
  {
    if Sole(sorted, x) {
      var a :| i <= a < j && sorted[a].host == x;
      forall n | 0 <= n < |more| ensures more[n] == x {
        assert more[n] in more;
        var b :| i <= b < j && b < |sorted| && sorted[b].host == more[n];
        assert SameKey(sorted[a], sorted[b]);
      }
      assert more[0] == x && more[|more| - 1] == x;
    }
    if more == [x] {
      forall k, m | 0 <= k < |sorted| && 0 <= m < |sorted| && sorted[k].host == x && SameKey(sorted[k], sorted[m])
        ensures sorted[m].host == x
      {
        assert i <= k < j;
        assert SameKey(sorted[m], sorted[k]);
        assert i <= m < j;
        assert sorted[m].host in more;
      }
    }
  }

  lemma PlainSoleStep(sorted: seq<Item>, i: nat, j: nat, results: seq<Entry>, e: Entry, more: seq<string>)
    requires i < j <= |sorted| && Boundary(sorted, i) && Boundary(sorted, j) && GroupIs(sorted, i, j, more)
    requires forall k | i <= k < j :: SameKey(sorted[k], sorted[i])
    requires Distinct(more) && SingleStays(e, more)
    requires forall k | 0 <= k < |sorted| && !(i <= k < j) :: sorted[k].host !in more
    requires PlainSole(sorted, i, results)
    ensures PlainSole(sorted, j, results + [e])
  {
    TextsAppend(results, e);
    var t := e.left + e.right;
    forall x | Plain(x)
      ensures x in Texts(results + [e])
         <==> Sole(sorted, x) && exists k | 0 <= k < j && k < |sorted| :: sorted[k].host == x
    {
      if x in more {
        SoleInGroup(sorted, i, j, more, x);
        var k :| i <= k < j && k < |sorted| && sorted[k].host == x;
        assert x !in Texts(results);
        assert x == t <==> more == [x];
      } else {
        assert x != t;
      }
    }
  }

  /** The hosts alone in their groups are the hosts alone for one more round. */
  lemma AloneNext(sorted: seq<Item>, all: set<string>, hosts: set<string>, results: seq<Entry>, r: nat)
    requires ItemsOk(sorted, r) && HostsOf(sorted, all) && AllPlain(hosts) && AloneOnly(hosts, all, r)
    requires PlainSole(sorted, |sorted|, results)
    ensures AloneOnly(hosts, TextSet(results), r + 1)
  {
    forall x | Plain(x) ensures x in TextSet(results) <==> Alone(hosts, x, r + 1) {
      if x in Texts(results) {
        SoleStaysAlone(sorted, all, hosts, x, r);
      } else if Alone(hosts, x, r + 1) {
        AloneWasSole(sorted, all, hosts, x, r);
      }
    }
  }

  lemma SameTexts(l: seq<Entry>, items: seq<Item>, remaining: set<string>, r: nat)
    requires SortListOf(l, |l|, items, remaining, r)
    ensures remaining == TextSet(l) && HostsOf(items, remaining)
  {
    forall x ensures x in remaining <==> x in Texts(l) {
      if x in remaining {
        var i :| 0 <= i < |l| && items[i].host == x;
        TextAt(l, i);
      } else if x in Texts(l) {
        var i :| 0 <= i < |l| && Texts(l)[i] == x;
        TextAt(l, i);
      }
    }
  }

  lemma SpecialGroup(sorted: seq<Item>, i: nat, j: nat, r: nat)
    requires i < j <= |sorted| && ItemsOk(sorted, r) && sorted[i].suffix.None?
    requires forall k | i <= k < j :: SameKey(sorted[k], sorted[i])
    ensures forall k | i <= k < j :: sorted[k].host == sorted[i].host
    ensures GroupIs(sorted, i, j, [sorted[i].host])
  {
    forall k | i <= k < j ensures sorted[k].host == sorted[i].host {
      assert sorted[k] in sorted && sorted[i] in sorted;
    }
  }

  /** Handles the group from `i` to `j`. */
  method CollectOneGroup(sorted: seq<Item>, i: nat, j: nat, remaining: set<string>,
                         ghost all: set<string>, ghost hosts: set<string>, ghost r: nat, ghost clean: bool)
    returns (e: Entry, rest: set<string>, ghost more: seq<string>)
    requires i < j <= |sorted| && ItemsOk(sorted, r) && ItemsTidy(sorted, clean)
    requires Family(all, hosts) && remaining <= all && HostsOf(sorted, all)
    requires Boundary(sorted, i) && Boundary(sorted, j)
    requires forall k | i <= k < j :: SameKey(sorted[k], sorted[i])
    requires Pending(sorted, i, remaining) && NumsAscend(sorted[i..j])
    ensures Removed(remaining, more, rest) && GroupResult(e, more, r)
    ensures Processed(sorted[i..j], j - i, rest) && Pending(sorted, j, rest)
    ensures |e.left| <= Analysed(sorted[i])
    ensures sorted[i].suffix.Some? ==> |e.left| < Analysed(sorted[i])
    ensures sorted[i].suffix.None? ==> e == Entry("", sorted[i].prefix)
    ensures EntryTidy(e, r + 1, clean) && SingleStays(e, more) && GroupIs(sorted, i, j, more)
  {
    assert ItemOk(sorted[i], r) && ItemTidy(sorted[i], clean);
    MeaningfulHost(sorted[i].host, all, hosts);
    var group := sorted[i..j];
    forall k | 0 <= k < |group| ensures SameKey(group[k], sorted[i]) && ItemOk(group[k], r) {
      assert group[k] == sorted[i + k];
    }
    if sorted[i].suffix.None? {
      SpecialResult(sorted[i], r);
      SpecialLeavesOthers(sorted, i, j, remaining, r);
      SpecialGroup(sorted, i, j, r);
      e, rest, more := Entry("", sorted[i].prefix), remaining - {sorted[i].prefix}, [sorted[i].host];
      assert e.left + e.right == sorted[i].host;
    } else {
      SuffixMeaningful(sorted[i], r);
      assert group[0] == sorted[i];
      e, rest, more := CollectGroup(group, sorted[i].prefix, sorted[i].suffix.value, remaining, r);
      ScanLeavesOthers(sorted, i, j, remaining, more, rest, r);
      GroupContents(sorted, i, j, all, remaining, more, rest, r);
    }
  }

  lemma GroupAscends(sorted: seq<Item>, i: nat, j: nat)
    requires Sorted(ItemLE, sorted) && i < j <= |sorted|
    requires forall k | i <= k < j :: SameKey(sorted[k], sorted[i])
    ensures NumsAscend(sorted[i..j])
  {
    forall a, b | 0 <= a < b < j - i ensures sorted[i..j][a].num <= sorted[i..j][b].num {
      assert SameKey(sorted[i + a], sorted[i]) && SameKey(sorted[i + b], sorted[i]);
      assert ItemLE(sorted[i + a], sorted[i + b]);
    }
  }

  // Groups are shown as one

  /** One of the texts stands for all hosts of `x` and of `y`. */
  ghost predicate OneFor(texts: seq<string>, x: string, y: string) {
    exists t | t in texts :: (forall h | h in Hosts(x) :: h in Hosts(t)) && (forall h | h in Hosts(y) :: h in Hosts(t))
  }

  /** The first `i` items are shown group by group. */
  ghost predicate Gathered(sorted: seq<Item>, i: nat, texts: seq<string>) {
    forall a, b | 0 <= a < i && 0 <= b < i && a < |sorted| && b < |sorted| && SameKey(sorted[a], sorted[b]) ::
      OneFor(texts, sorted[a].host, sorted[b].host)
  }

  lemma OneForMore(texts: seq<string>, t: string, x: string, y: string)
    requires OneFor(texts, x, y)
    ensures OneFor(texts + [t], x, y)
  {
    var u :| u in texts && (forall h | h in Hosts(x) :: h in Hosts(u)) && (forall h | h in Hosts(y) :: h in Hosts(u));
    assert u in texts + [t];
  }

  lemma GroupIsOne(texts: seq<string>, t: string, more: seq<string>, x: string, y: string)
    requires x in more && y in more && Hosts(t) == Denoted(more)
    ensures OneFor(texts + [t], x, y)
  {
    forall z, h | (z == x || z == y) && h in Hosts(z) ensures h in Hosts(t) {
      var n :| 0 <= n < |more| && more[n] == z;
      HostOfPart(more, n, h);
    }
    assert t in texts + [t];
  }

  lemma GatheredNext(sorted: seq<Item>, i: nat, j: nat, results: seq<Entry>, e: Entry, more: seq<string>, r: nat)
    requires i < j <= |sorted| && Boundary(sorted, i) && GroupIs(sorted, i, j, more) && GroupResult(e, more, r)
    requires Gathered(sorted, i, Texts(results))
    ensures Gathered(sorted, j, Texts(results + [e]))
  {
    TextsAppend(results, e);
    var t := e.left + e.right;
    forall a, b | 0 <= a < j && 0 <= b < j && SameKey(sorted[a], sorted[b])
      ensures OneFor(Texts(results) + [t], sorted[a].host, sorted[b].host)
    {
      if a < i && b < i {
        OneForMore(Texts(results), t, sorted[a].host, sorted[b].host);
      } else {
        assert SameKey(sorted[b], sorted[a]);
        assert i <= a && i <= b;
        GroupIsOne(Texts(results), t, more, sorted[a].host, sorted[b].host);
      }
    }
  }

  // The order of the results

  ghost predicate Ascending(texts: seq<string>) {
    forall a, b | 0 <= a < b < |texts| :: StringLE(texts[a], texts[b]) && texts[a] != texts[b]
  }

  /** The texts ascend and come before the items from `i` on. */
  ghost predicate InFrontOf(texts: seq<string>, sorted: seq<Item>, i: nat) {
    && Ascending(texts)
    && forall a, k | 0 <= a < |texts| && i <= k < |sorted| ::
         StringLE(texts[a], sorted[k].prefix) && (sorted[k].suffix.None? ==> texts[a] != sorted[k].prefix)
  }

  lemma NextInOrder(texts: seq<string>, sorted: seq<Item>, i: nat, j: nat)
    requires Sorted(ItemLE, sorted) && i < j <= |sorted| && sorted[i].suffix.None?
    requires forall k | j <= k < |sorted| :: !SameKey(sorted[k], sorted[i])
    requires InFrontOf(texts, sorted, i)
    ensures InFrontOf(texts + [sorted[i].prefix], sorted, j)
  {
    var more := texts + [sorted[i].prefix];
    forall a, k | 0 <= a < |more| && j <= k < |sorted|
      ensures StringLE(more[a], sorted[k].prefix) && (sorted[k].suffix.None? ==> more[a] != sorted[k].prefix)
    {
      if a == |texts| {
        assert ItemLE(sorted[i], sorted[k]) && !SameKey(sorted[k], sorted[i]);
        StringTotal(sorted[i].prefix, sorted[i].prefix);
      }
    }
  }

  /** What a round knows beside the hosts its results stand for. */
  ghost predicate RoundAlone(sorted: seq<Item>, i: nat, results: seq<Entry>, r: nat, clean: bool) {
    Boundary(sorted, i) && PlainSole(sorted, i, results) && EntriesTidy(results, r + 1, clean)
  }

  lemma RoundAloneStep(sorted: seq<Item>, i: nat, j: nat, remaining: set<string>, results: seq<Entry>, r: nat,
                       clean: bool, e: Entry, more: seq<string>, rest: set<string>)
    requires i < j <= |sorted| && RoundAlone(sorted, i, results, r, clean) && Boundary(sorted, j)
    requires forall k | i <= k < j :: SameKey(sorted[k], sorted[i])
    requires Processed(sorted, i, remaining) && Removed(remaining, more, rest) && Pending(sorted, j, rest)
    requires EntryTidy(e, r + 1, clean) && SingleStays(e, more) && GroupIs(sorted, i, j, more)
    ensures RoundAlone(sorted, j, results + [e], r, clean)
  {
    PlainSoleStep(sorted, i, j, results, e, more);
  }

  /** What the results show of the groups done so far, and in which order if no number was found. */
  ghost predicate RoundShows(sorted: seq<Item>, i: nat, results: seq<Entry>, again: bool) {
    && Gathered(sorted, i, Texts(results))
    && (!again ==> InFrontOf(Texts(results), sorted, i))
    && (!again ==> forall k | 0 <= k < i && k < |sorted| :: sorted[k].suffix.None?)
  }

  lemma RoundShowsNext(sorted: seq<Item>, i: nat, j: nat, results: seq<Entry>, e: Entry, more: seq<string>, r: nat,
                       again: bool)
    requires Sorted(ItemLE, sorted) && i < j <= |sorted| && Boundary(sorted, i)
    requires forall k | i <= k < j :: SameKey(sorted[k], sorted[i])
    requires forall k | j <= k < |sorted| :: !SameKey(sorted[k], sorted[i])
    requires GroupIs(sorted, i, j, more) && GroupResult(e, more, r) && RoundShows(sorted, i, results, again)
    requires sorted[i].suffix.None? ==> e == Entry("", sorted[i].prefix)
    ensures RoundShows(sorted, j, results + [e], again || sorted[i].suffix.Some?)
  {
    GatheredNext(sorted, i, j, results, e, more, r);
    if !again && sorted[i].suffix.None? {
      TextsAppend(results, e);
      assert e.left + e.right == sorted[i].prefix;
      NextInOrder(Texts(results), sorted, i, j);
    }
  }

  /** Goes through the groups of the sorted list. */
  method CollectGroups(sorted: seq<Item>, all: set<string>, ghost hosts: set<string>, ghost r: nat, ghost clean: bool)
    returns (results: seq<Entry>, again: bool)
    requires Sorted(ItemLE, sorted) && ItemsOk(sorted, r) && ItemsTidy(sorted, clean)
    requires HostsOf(sorted, all) && Family(all, hosts)
    ensures EntriesOk(results, r + 1) && ListsOnce(Texts(results), hosts)
    ensures RoundAlone(sorted, |sorted|, results, r, clean) && RoundShows(sorted, |sorted|, results, again)
    ensures LeftTotal(results) + (if again then 1 else 0) <= AnalysedTotal(sorted)
  {
    results, again := [], false;
    var remaining := all;
    ghost var gone: seq<string> := [];
    var i := 0;
    assert sorted[0..] == sorted;
    while i < |sorted|
      invariant Round(sorted, i, all, remaining, gone, results, r) && RoundAlone(sorted, i, results, r, clean)
      invariant RoundShows(sorted, i, results, again)
      invariant LeftTotal(results) + AnalysedTotal(sorted[i..]) + (if again then 1 else 0) <= AnalysedTotal(sorted)
      decreases |sorted| - i
    {
      var j := GroupEnd(sorted, i);
      BoundaryNext(sorted, i, j);
      GroupAscends(sorted, i, j);
      var e, rest;
      ghost var more;
      e, rest, more := CollectOneGroup(sorted, i, j, remaining, all, hosts, r, clean);
      RoundStep(sorted, i, j, all, remaining, gone, results, r, e, rest, more);
      RoundAloneStep(sorted, i, j, remaining, results, r, clean, e, more, rest);
      RoundShowsNext(sorted, i, j, results, e, more, r, again);
      TotalAfter(sorted, i, j);
      LeftTotalAppend(results, e);
      again := again || sorted[i].suffix.Some?;
      results, remaining, gone, i := results + [e], rest, gone + more, j;
    }
    RoundEnd(sorted, all, remaining, gone, results, r, hosts);
    assert remaining == {};
  }

  /** The error of a round: a left part without a match, then items the sort cannot compare. */
  ghost function RoundFailure(l: seq<Entry>, hosts: set<string>, r: nat, strict: bool): Option<Bad> {
    if AnyUnmatched(l) then Some(NoMatch)
    else if strict && ClashAt(hosts, r) then Some(Incomparable)
    else None
  }

  lemma SortFails(l: seq<Entry>, items: seq<Item>, hosts: set<string>, r: nat, clean: bool)
    requires Stage(l, hosts, r, clean) && ItemsOk(items, r) && ItemsTidy(items, clean) && HostsOf(items, TextSet(l))
    ensures HasClash(items) <==> ClashAt(hosts, r)
  {
    ClashIff(items, TextSet(l), hosts, r);
  }

  lemma StageNext(l: seq<Entry>, sorted: seq<Item>, results: seq<Entry>, hosts: set<string>, r: nat, clean: bool)
    requires Stage(l, hosts, r, clean) && ItemsOk(sorted, r) && HostsOf(sorted, TextSet(l))
    requires EntriesOk(results, r + 1) && ListsOnce(Texts(results), hosts)
    requires RoundAlone(sorted, |sorted|, results, r, clean)
    ensures Stage(results, hosts, r + 1, clean)
  {
    ListedFamily(Texts(results), hosts);
    AloneNext(sorted, TextSet(l), hosts, results, r);
  }

  /** No text is torn apart, and hosts that differ in the number of this round only are shown by one text. */
  ghost predicate Merges(l: seq<Entry>, texts: seq<string>, r: nat) {
    && (forall x | x in TextSet(l) :: OneFor(texts, x, x))
    && forall x, y | x in TextSet(l) && y in TextSet(l) && Plain(x) && Plain(y) && SameGroup(x, y, r) ::
         OneFor(texts, x, y)
  }

  lemma MergedBy(l: seq<Entry>, sorted: seq<Item>, texts: seq<string>, r: nat)
    requires ItemsOk(sorted, r) && HostsOf(sorted, TextSet(l)) && Gathered(sorted, |sorted|, texts)
    ensures Merges(l, texts, r)
  {
    forall x | x in TextSet(l) ensures OneFor(texts, x, x) {
      var a :| 0 <= a < |sorted| && sorted[a].host == x;
      assert SameKey(sorted[a], sorted[a]);
    }
    forall x, y | x in TextSet(l) && y in TextSet(l) && Plain(x) && Plain(y) && SameGroup(x, y, r)
      ensures OneFor(texts, x, y)
    {
      var a :| 0 <= a < |sorted| && sorted[a].host == x;
      var b :| 0 <= b < |sorted| && sorted[b].host == y;
      assert sorted[a] in sorted && sorted[b] in sorted;
      GroupHasKey(sorted[a], sorted[b], r);
    }
  }

  lemma LastRound(l: seq<Entry>, sorted: seq<Item>, hosts: set<string>, r: nat, clean: bool)
    requires Stage(l, hosts, r, clean) && ItemsOk(sorted, r) && ItemsTidy(sorted, clean) && HostsOf(sorted, TextSet(l))
    requires forall x | x in sorted :: x.suffix.None?
    ensures forall h | h in hosts :: Count(h) <= r
    ensures forall q | q >= r :: !ClashAt(hosts, q)
  {
    NoLaterClash(sorted, TextSet(l), hosts, r);
  }

  /**
   * One round moves the rightmost number of every left part to the right.
   * The parts keep standing for the same hosts, each of them once; nothing
   * remains over; and if another round is asked for, the text still to be
   * analysed has become shorter.  If none is, no later round could clash.
   */
  method CollectOnce(leftRight: seq<Entry>, strict: bool, ghost r: nat, ghost hosts: set<string>, ghost clean: bool)
    returns (results: Result<seq<Entry>, Bad>, again: bool)
    requires Stage(leftRight, hosts, r, clean)
    ensures var failure := RoundFailure(leftRight, hosts, r, strict);
            if failure.Some? then results == Err(failure.value) else results.Ok?
    ensures results.Ok? ==> Stage(results.value, hosts, r + 1, clean) && ListsOnce(Texts(results.value), hosts)
    ensures results.Ok? && again ==> LeftTotal(results.value) < LeftTotal(leftRight)
    ensures results.Ok? && !again ==> forall q | q >= r :: !ClashAt(hosts, q)
    ensures results.Ok? && !again ==> (forall h | h in hosts :: Count(h) <= r) && Ascending(Texts(results.value))
    ensures results.Ok? ==> Merges(leftRight, Texts(results.value), r)
  {
    var failed, items, all := Analyse(leftRight, r, clean);
    if failed {
      return Err(NoMatch), false;
    }
    SameTexts(leftRight, items, all, r);
    SortFails(leftRight, items, hosts, r, clean);
    SortedItems(items, all, r, clean);
    var sorted := SortList(items, strict);
    if sorted.Err? {
      return Err(sorted.error), false;
    }
    var collected;
    collected, again := CollectGroups(sorted.value, all, hosts, r, clean);
    StageNext(leftRight, sorted.value, collected, hosts, r, clean);
    MergedBy(leftRight, sorted.value, Texts(collected), r);
    if !again {
      LastRound(leftRight, sorted.value, hosts, r, clean);
    }
    results := Ok(collected);
  }
}
