/**
 * When sorting has to compare a missing suffix with a string, which Python 3
 * refuses: a condition on the hosts alone, and its meaning for one round.
 */
module HostClash {
  import opened Prelude
  import opened Digits
  import opened HostSyntax
  import opened HostTokens
  import opened HostSort
  import opened HostDenote
  import opened HostEven
  import HostExpand

  /** `h` is `p`, a number and `s`, where `s` has `k` numbers more. */
  ghost predicate SplitsAs(h: string, p: string, d: string, s: string, k: nat) {
    && h == p + (d + s) && AllDigits(d) && d != ""
    && !EndsInDigit(p) && !StartsWithDigit(s) && Count(s) == k
  }

  /** The two hosts differ in one number only, with `k` numbers behind it. */
  ghost predicate SameGroup(g: string, h: string, k: nat) {
    exists p, d, e, s :: SplitsAs(g, p, d, s, k) && SplitsAs(h, p, e, s, k)
  }

  /** In each of the first `r` rounds the host is in no group with another one that is still alone. */
  ghost predicate Alone(hosts: set<string>, g: string, r: nat)
    decreases r
  {
    if r == 0 then g in hosts
    else
      && Alone(hosts, g, r - 1)
      && forall h | h in hosts && h != g && Alone(hosts, h, r - 1) :: !SameGroup(g, h, r - 1)
  }

  /** `h` is `g` followed by a number and then by text with `r` numbers. */
  ghost predicate NumberBehind(g: string, h: string, r: nat) { exists d, s :: SplitsAs(h, g, d, s, r) }

  /** A host that is out of numbers and still alone, and another that has the next number right behind it. */
  ghost predicate ClashAt(hosts: set<string>, r: nat) {
    exists g, h | g in hosts && h in hosts :: Alone(hosts, g, r) && Count(g) <= r && NumberBehind(g, h, r)
  }

  ghost predicate Clashes(hosts: set<string>) { exists r: nat :: ClashAt(hosts, r) }

  ghost predicate AllPlain(hosts: set<string>) { forall h | h in hosts :: Plain(h) }

  lemma SplitIsPlain(h: string, p: string, d: string, s: string, k: nat)
    requires Plain(h) && SplitsAs(h, p, d, s, k)
    ensures Plain(p) && Plain(s) && Plain(p + d) && EndsInDigit(p + d) && h == (p + d) + s
  {
    assert forall c | c in p || c in d || c in s :: c in h;
    assert d[|d| - 1] in d && (p + d)[|p + d| - 1] == d[|d| - 1];
  }

  lemma SplitCount(h: string, p: string, d: string, s: string, k: nat)
    requires Plain(h) && SplitsAs(h, p, d, s, k)
    ensures Count(h) > k
  {
    SplitIsPlain(h, p, d, s, k);
    var m := p + d;
    assert m[|m| - 1] in m;
    TokensAdd(m, s, false);
    TokensOfText(m, false);
  }

  /** The number with a given count behind it is found in one way only. */
  lemma SplitOnce(h: string, p: string, d: string, s: string, q: string, e: string, t: string, k: nat)
    requires Plain(h) && SplitsAs(h, p, d, s, k) && SplitsAs(h, q, e, t, k)
    ensures p == q && d == e && s == t
  {
    SplitIsPlain(h, p, d, s, k);
    SplitIsPlain(h, q, e, t, k);
    var m, u := p + d, q + e;
    if |s| < |t| {
      ShorterSuffix(m, s, u, t);
    } else if |t| < |s| {
      ShorterSuffix(u, t, m, s);
    } else {
      assert m == h[..|m|] == u && s == h[|m|..] == t;
      LastRunIsUnique(p, d, q, e);
    }
  }

  /** Hosts with few numbers are in no group of a later round. */
  lemma NoLaterGroup(g: string, h: string, k: nat)
    requires Plain(g) && Count(g) <= k
    ensures !SameGroup(g, h, k)
  {
    if SameGroup(g, h, k) {
      var p, d, e, s :| SplitsAs(g, p, d, s, k) && SplitsAs(h, p, e, s, k);
      SplitCount(g, p, d, s, k);
    }
  }

  // A condition that is easy to see

  lemma {:induction false} DigitFreeStaysAlone(hosts: set<string>, g: string, r: nat)
    requires AllPlain(hosts) && g in hosts && NoDigit(g)
    ensures Alone(hosts, g, r) && Count(g) == 0
  {
    TokensOfText(g, false);
    if r > 0 {
      DigitFreeStaysAlone(hosts, g, r - 1);
      forall h | h in hosts && h != g && Alone(hosts, h, r - 1) ensures !SameGroup(g, h, r - 1) {
        if SameGroup(g, h, r - 1) {
          var p, d, e, s :| SplitsAs(g, p, d, s, r - 1) && SplitsAs(h, p, e, s, r - 1);
          SplitCount(g, p, d, s, r - 1);
        }
      }
    }
  }

  /** A host without a digit, and another that goes on with a number: the two clash, whatever else is there. */
  lemma NumberBehindClashes(hosts: set<string>, g: string, d: string, s: string)
    requires AllPlain(hosts) && g in hosts && NoDigit(g)
    requires AllDigits(d) && d != "" && !StartsWithDigit(s) && g + (d + s) in hosts
    ensures Clashes(hosts)
  {
    var r := Count(s);
    DigitFreeStaysAlone(hosts, g, r);
    assert g != "" ==> g[|g| - 1] in g;
    assert SplitsAs(g + (d + s), g, d, s, r);
    assert NumberBehind(g, g + (d + s), r);
    assert ClashAt(hosts, r);
  }

  /** In any case a clash needs a host, and the same host with a number and at least as many numbers behind. */
  lemma ClashNeedsNumberBehind(hosts: set<string>) returns (g: string, d: string, s: string)
    requires Clashes(hosts)
    ensures g in hosts && g + (d + s) in hosts && Count(g) <= Count(s)
    ensures !EndsInDigit(g) && AllDigits(d) && d != "" && !StartsWithDigit(s)
  {
    var r: nat :| ClashAt(hosts, r);
    var h;
    g, h :| g in hosts && h in hosts && Alone(hosts, g, r) && Count(g) <= r && NumberBehind(g, h, r);
    d, s :| SplitsAs(h, g, d, s, r);
  }

  lemma NumberBehindIsLonger(g: string, h: string, r: nat)
    requires NumberBehind(g, h, r)
    ensures g < h
  {
    var d, s :| SplitsAs(h, g, d, s, r);
    assert h[..|g|] == g;
  }

  /** If no host starts with another host, there is no clash. */
  lemma PrefixFreeNeverClashes(hosts: set<string>)
    requires forall g, h | g in hosts && h in hosts && g <= h :: g == h
    ensures !Clashes(hosts)
  {
    forall g, h, r: nat | NumberBehind(g, h, r) ensures g < h {
      NumberBehindIsLonger(g, h, r);
    }
  }

  // One round

  /** The texts without brackets are the hosts that are still alone. */
  ghost predicate AloneOnly(hosts: set<string>, texts: set<string>, r: nat) {
    forall x {:trigger Alone(hosts, x, r)} {:trigger x in texts} | Plain(x) :: x in texts <==> Alone(hosts, x, r)
  }

  lemma {:induction false} AloneIsHost(hosts: set<string>, g: string, r: nat)
    requires Alone(hosts, g, r)
    ensures g in hosts
  {
    if r > 0 {
      AloneIsHost(hosts, g, r - 1);
    }
  }

  ghost predicate ItemsOk(l: seq<Item>, r: nat) { forall x | x in l :: ItemOk(x, r) }

  /** The items' hosts are `texts`. */
  ghost predicate HostsOf(items: seq<Item>, texts: set<string>) {
    forall x :: x in texts <==> exists k | 0 <= k < |items| :: items[k].host == x
  }

  lemma ItemSplits(x: Item, r: nat)
    requires ItemOk(x, r) && x.suffix.Some?
    ensures SplitsAs(x.host, x.prefix, Pad(x.width, x.num), x.suffix.value, r)
  {
  }

  /** Nothing else is in the host's group. */
  ghost predicate Sole(items: seq<Item>, x: string) {
    forall k, m | 0 <= k < |items| && 0 <= m < |items| && items[k].host == x && SameKey(items[k], items[m]) ::
      items[m].host == x
  }

  /** A host in one group with an item's host has an item with the same key. */
  lemma GroupHasKey(x: Item, y: Item, r: nat)
    requires ItemOk(x, r) && ItemOk(y, r) && Plain(x.host) && Plain(y.host) && SameGroup(x.host, y.host, r)
    ensures SameKey(x, y)
  {
    var p, d, e, s :| SplitsAs(x.host, p, d, s, r) && SplitsAs(y.host, p, e, s, r);
    SplitCount(x.host, p, d, s, r);
    ItemSplits(x, r);
    SplitOnce(x.host, p, d, s, x.prefix, Pad(x.width, x.num), x.suffix.value, r);
    PadRead(e);
    ScanStaysInGroup(p, s, |e|, ToInt(e), y, r);
  }

  lemma KeyMakesGroup(x: Item, y: Item, r: nat)
    requires ItemOk(x, r) && ItemOk(y, r) && Plain(x.host) && SameKey(x, y) && x.host != y.host
    ensures Plain(y.host) && SameGroup(x.host, y.host, r)
  {
    ItemSplits(x, r);
    ItemSplits(y, r);
    SplitIsPlain(x.host, x.prefix, Pad(x.width, x.num), x.suffix.value, r);
    DigitsArePlain(Pad(y.width, y.num));
  }

  lemma SoleStaysAlone(items: seq<Item>, texts: set<string>, hosts: set<string>, x: string, r: nat)
    requires ItemsOk(items, r) && HostsOf(items, texts) && AloneOnly(hosts, texts, r) && AllPlain(hosts)
    requires Plain(x) && x in texts && Sole(items, x)
    ensures Alone(hosts, x, r + 1)
  {
    var k :| 0 <= k < |items| && items[k].host == x;
    forall h | h in hosts && h != x && Alone(hosts, h, r) ensures !SameGroup(x, h, r) {
      assert h in texts;
      var m :| 0 <= m < |items| && items[m].host == h;
      assert items[k] in items && items[m] in items;
      if SameGroup(x, h, r) {
        GroupHasKey(items[k], items[m], r);
      }
    }
  }

  lemma AloneWasSole(items: seq<Item>, texts: set<string>, hosts: set<string>, x: string, r: nat)
    requires ItemsOk(items, r) && HostsOf(items, texts) && AloneOnly(hosts, texts, r)
    requires Plain(x) && Alone(hosts, x, r + 1)
    ensures x in texts && Sole(items, x)
  {
    forall k, m | 0 <= k < |items| && 0 <= m < |items| && items[k].host == x && SameKey(items[k], items[m])
      ensures items[m].host == x
    {
      assert items[k] in items && items[m] in items;
      if items[m].host != x {
        KeyMakesGroup(items[k], items[m], r);
        assert items[m].host in texts;
        AloneIsHost(hosts, items[m].host, r);
      }
    }
  }

  // Clashing items

  /** The sort would have to compare no suffix with a string. */
  predicate Clash(x: Item, y: Item) { x.prefix == y.prefix && x.suffix.None? != y.suffix.None? }

  ghost predicate HasClash(items: seq<Item>) {
    exists k, m | 0 <= k < |items| && 0 <= m < |items| :: Clash(items[k], items[m])
  }

  ghost predicate ItemEven(x: Item) {
    if x.suffix.None? then Even(x.host) else EvenSuffix(x.suffix.value)
  }

  lemma PrepareEven(e: Entry, r: nat)
    requires EntryOk(e, r) && Even(e.right)
    ensures ItemEven(Prepare(e))
  {
    var t := TailAt(e.left);
    if t == 0 {
      if e.left != "" {
        assert e.left[|e.left| - 1] in e.left;
      }
      EvenBehind(e.left, e.right);
    } else {
      var tail := e.left[t..];
      assert tail == e.left[t..|e.left|];
      PlainPart(e.left, t, |e.left|);
      assert tail == "" ==> e.left[..t] == e.left;
      EvenTail(tail, e.right);
    }
  }

  /** Every host of a numbered item has the item's prefix and number. */
  lemma HostOfItem(x: Item, h: string, r: nat)
    requires ItemOk(x, r) && ItemEven(x) && x.suffix.Some? && h in Hosts(x.host)
    ensures exists s :: SplitsAs(h, x.prefix, Pad(x.width, x.num), s, r)
  {
    var d, suffix := Pad(x.width, x.num), x.suffix.value;
    DigitsArePlain(d);
    PlainBalanced(d, suffix);
    HostsBehind(x.prefix, d + suffix);
    HostsBehind(d, suffix);
    var y := InPrefixed(x.prefix, Hosts(d + suffix), h);
    var s := InPrefixed(d, Hosts(suffix), y);
    assert SplitsAs(h, x.prefix, d, s, r);
  }

  lemma HasHost(x: string, texts: set<string>, hosts: set<string>) returns (h: string)
    requires Family(texts, hosts) && x in texts
    ensures h in Hosts(x) && h in hosts
  {
    assert Within(x, hosts);
    HostExpand.ExpansionNotEmpty(x);
    h := Hosts(x)[0];
  }

  lemma ItemsClash(x: Item, y: Item, texts: set<string>, hosts: set<string>, r: nat)
    requires ItemOk(x, r) && ItemOk(y, r) && ItemEven(y) && Family(texts, hosts) && AloneOnly(hosts, texts, r)
    requires x.host in texts && y.host in texts && x.prefix == y.prefix && x.suffix.None? && y.suffix.Some?
    ensures ClashAt(hosts, r)
  {
    var g := x.host;
    var h := HasHost(y.host, texts, hosts);
    HostOfItem(y, h, r);
    assert NumberBehind(g, h, r);
    AloneIsHost(hosts, g, r);
  }

  lemma ClashHasItems(items: seq<Item>, texts: set<string>, hosts: set<string>, r: nat) returns (k: nat, m: nat)
    requires ItemsOk(items, r) && HostsOf(items, texts) && (forall x | x in items :: ItemEven(x))
    requires Family(texts, hosts) && AloneOnly(hosts, texts, r) && AllPlain(hosts) && ClashAt(hosts, r)
    ensures k < |items| && m < |items| && Clash(items[k], items[m])
  {
    var g, h :| g in hosts && h in hosts && Alone(hosts, g, r) && Count(g) <= r && NumberBehind(g, h, r);
    var d, s :| SplitsAs(h, g, d, s, r);
    SplitCount(h, g, d, s, r);
    assert g in texts && Covered(h, texts);
    k :| 0 <= k < |items| && items[k].host == g;
    var t :| t in texts && h in Hosts(t);
    m :| 0 <= m < |items| && items[m].host == t;
    assert items[k] in items && items[m] in items;
    OutOfNumbers(items[k], r);
    StillNumbered(items[m], h, r);
    HostOfItem(items[m], h, r);
    var u :| SplitsAs(h, items[m].prefix, Pad(items[m].width, items[m].num), u, r);
    SplitOnce(h, g, d, s, items[m].prefix, Pad(items[m].width, items[m].num), u, r);
  }

  lemma OutOfNumbers(x: Item, r: nat)
    requires ItemOk(x, r) && Count(x.host) <= r
    ensures x.suffix.None? && x.prefix == x.host
  {
    if x.suffix.Some? {
      HostCount(x.prefix, x.suffix.value, x.width, x.num, r);
    }
  }

  lemma StillNumbered(x: Item, h: string, r: nat)
    requires ItemOk(x, r) && ItemEven(x) && h in Hosts(x.host) && Count(h) > r
    ensures x.suffix.Some?
  {
  }

  /** A round has items that clash exactly if the hosts say so. */
  lemma ClashIff(items: seq<Item>, texts: set<string>, hosts: set<string>, r: nat)
    requires ItemsOk(items, r) && HostsOf(items, texts) && (forall x | x in items :: ItemEven(x))
    requires Family(texts, hosts) && AloneOnly(hosts, texts, r) && AllPlain(hosts)
    ensures HasClash(items) <==> ClashAt(hosts, r)
  {
    if k, m :| 0 <= k < |items| && 0 <= m < |items| && Clash(items[k], items[m]) {
      assert items[k] in items && items[m] in items && items[k].host in texts && items[m].host in texts;
      if items[k].suffix.None? {
        ItemsClash(items[k], items[m], texts, hosts, r);
      } else {
        ItemsClash(items[m], items[k], texts, hosts, r);
      }
    } else if ClashAt(hosts, r) {
      var k, m := ClashHasItems(items, texts, hosts, r);
    }
  }

  /** Once no item has a number left, no host has more than `r` numbers, and no later round clashes. */
  lemma NoLaterClash(items: seq<Item>, texts: set<string>, hosts: set<string>, r: nat)
    requires ItemsOk(items, r) && HostsOf(items, texts) && (forall x | x in items :: ItemEven(x) && x.suffix.None?)
    requires Family(texts, hosts) && AllPlain(hosts)
    ensures forall h | h in hosts :: Count(h) <= r
    ensures forall q | q >= r :: !ClashAt(hosts, q)
  {
    forall h | h in hosts ensures Count(h) <= r {
      assert Covered(h, texts);
      var t :| t in texts && h in Hosts(t);
      var m :| 0 <= m < |items| && items[m].host == t;
      assert items[m] in items;
    }
    forall g, h, q: nat | h in hosts && NumberBehind(g, h, q) ensures Count(h) > q {
      var d, s :| SplitsAs(h, g, d, s, q);
      SplitCount(h, g, d, s, q);
    }
  }
}
