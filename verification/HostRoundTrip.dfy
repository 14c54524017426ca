/** Collecting a list of hosts, and the round trip through expansion. */
module HostRoundTrip {
  import opened Prelude
  import opened Digits
  import opened HostSyntax
  import opened HostTokens
  import opened HostDenote
  import opened HostEven
  import opened HostNeat
  import opened HostClash
  import opened HostExpand
  import opened HostRounds

  // The list of hosts

  /** White space as `str.strip` knows it. */
  predicate IsSpace(c: char) {
    var n := c as int;
    || 0x09 <= n <= 0x0d || 0x1c <= n <= 0x20 || n == 0x85 || n == 0xa0 || n == 0x1680
    || 0x2000 <= n <= 0x200a || n == 0x2028 || n == 0x2029 || n == 0x202f || n == 0x205f || n == 0x3000
  }

  function Strip(s: string): (r: string)
    ensures r != "" ==> !IsSpace(r[0]) && !IsSpace(r[|r| - 1])
    ensures forall c | c in r :: c in s
    ensures forall c | c in s && !IsSpace(c) :: c in r
  {
    if s == "" then ""
    else if IsSpace(s[0]) then Strip(s[1..])
    else if IsSpace(s[|s| - 1]) then Strip(s[..|s| - 1])
    else s
  }

  lemma OneMoreInFront(c: char, s: string, a: string, m: string, b: string)
    requires s == a + m + b
    ensures [c] + s == ([c] + a) + m + b
  {
    assert [c] + (a + m + b) == ([c] + a) + m + b;
  }

  lemma OneMoreBehind(c: char, s: string, a: string, m: string, b: string)
    requires s == a + m + b
    ensures s + [c] == a + m + (b + [c])
  {
  }

  /** What is stripped is white space at the two ends, all of it. */
  lemma {:induction false} StripIs(s: string) returns (a: string, b: string)
    ensures s == a + Strip(s) + b && AllSpace(a) && AllSpace(b)
  {
    a, b := "", "";
    if s == "" {
      return;
    }
    var c, d, tail, init := s[0], s[|s| - 1], s[1..], s[..|s| - 1];
    if IsSpace(c) {
      a, b := StripIs(tail);
      OneMoreInFront(c, tail, a, Strip(tail), b);
      assert s == [c] + tail;
      a := [c] + a;
    } else if IsSpace(d) {
      a, b := StripIs(init);
      OneMoreBehind(d, init, a, Strip(init), b);
      assert s == init + [d];
      b := b + [d];
    }
  }

  ghost predicate AllSpace(s: string) { forall c | c in s :: IsSpace(c) }

  /** The stripped, non-empty hosts without special characters. */
  ghost function Wanted(hosts: seq<string>): set<string> {
    set h | h in hosts && Strip(h) != "" && Plain(Strip(h)) :: Strip(h)
  }

  /** Entries as they stand before the first round: distinct texts are apart, each stands for itself. */
  lemma {:induction false} PlainFamily(parts: set<string>)
    requires forall x | x in parts :: Plain(x)
    ensures Family(parts, parts)
  {
    forall x | x in parts ensures Meaningful(x) && Hosts(x) == [x] {
      PlainAlone(x);
    }
    assert forall h | h in parts :: h in Hosts(h);
  }

  lemma WantedNext(hosts: seq<string>, k: nat)
    requires k < |hosts|
    ensures Wanted(hosts[..k + 1])
         == Wanted(hosts[..k]) + var h := Strip(hosts[k]); if h != "" && Plain(h) then {h} else {}
  {
    assert hosts[..k + 1] == hosts[..k] + [hosts[k]];
  }

  ghost predicate Loaded(hosts: seq<string>, k: nat, leftRight: seq<Entry>) {
    && k <= |hosts|
    && (forall e | e in leftRight :: e.right == "" && Plain(e.left) && e.left != "")
    && (forall x :: x in Wanted(hosts[..k]) <==> Entry(x, "") in leftRight)
  }

  lemma LoadStep(hosts: seq<string>, k: nat, leftRight: seq<Entry>)
    requires k < |hosts| && Loaded(hosts, k, leftRight)
    ensures var h := Strip(hosts[k]);
            if h != "" && Plain(h) then Loaded(hosts, k + 1, leftRight + [Entry(h, "")])
            else Loaded(hosts, k + 1, leftRight)
  {
    WantedNext(hosts, k);
  }

  ghost predicate OneLine(hosts: set<string>) { forall h | h in hosts :: '\n' !in h }

  lemma FirstEntry(h: string, clean: bool)
    requires Plain(h) && h != "" && (clean ==> '\n' !in h)
    ensures EntryOk(Entry(h, ""), 0) && EntryTidy(Entry(h, ""), 0, clean) && h + "" == h
  {
    assert h + "" == h;
    TokensOfText(h, false);
    assert Count("") == 0;
    EvenPlain("");
    NeatPlain("");
  }

  lemma LoadedTexts(hosts: seq<string>, leftRight: seq<Entry>)
    requires Loaded(hosts, |hosts|, leftRight)
    ensures TextSet(leftRight) == Wanted(hosts)
    ensures forall e | e in leftRight :: e.left in Wanted(hosts)
    ensures forall h | h in Wanted(hosts) :: Entry(h, "") in leftRight
  {
    assert hosts[..|hosts|] == hosts;
    forall e | e in leftRight ensures e == Entry(e.left, "") && e.left + e.right == e.left {
      assert e.left + "" == e.left;
    }
    forall x ensures x in TextSet(leftRight) <==> x in Wanted(hosts) {
      if x in TextSet(leftRight) {
        var i :| 0 <= i < |leftRight| && Texts(leftRight)[i] == x;
        TextAt(leftRight, i);
        assert leftRight[i] in leftRight;
      } else if x in Wanted(hosts) {
        var i :| 0 <= i < |leftRight| && leftRight[i] == Entry(x, "");
        TextAt(leftRight, i);
      }
    }
  }

  /** Why the rounds fail on `hosts`, if they do; only a `strict` sort refuses to compare no suffix with a string. */
  ghost function RoundsFailure(hosts: set<string>, strict: bool): Option<Bad> {
    if SomeUnmatched(hosts) then Some(NoMatch)
    else if strict && Clashes(hosts) then Some(Incomparable)
    else None
  }

  ghost predicate SomeUnmatched(hosts: set<string>) { exists h | h in hosts :: Unmatched(h) }

  /** How far the rounds have come without a failure. */
  ghost predicate Underway(l: seq<Entry>, hosts: set<string>, r: nat, strict: bool) {
    && Stage(l, hosts, r, OneLine(hosts))
    && (AnyUnmatched(l) <==> SomeUnmatched(hosts)) && (r > 0 ==> !SomeUnmatched(hosts))
    && (strict ==> forall q: nat | q < r :: !ClashAt(hosts, q))
  }

  lemma FirstEntries(l: seq<Entry>, clean: bool)
    requires forall e | e in l :: e.right == "" && e.left != "" && Plain(e.left) && (clean ==> '\n' !in e.left)
    ensures EntriesOk(l, 0) && EntriesTidy(l, 0, clean)
  {
    forall e | e in l ensures EntryOk(e, 0) && EntryTidy(e, 0, clean) {
      FirstEntry(e.left, clean);
    }
  }

  lemma FirstAlone(hosts: set<string>)
    ensures AloneOnly(hosts, hosts, 0)
  {
  }

  lemma FirstStage(hosts: set<string>, l: seq<Entry>)
    requires TextSet(l) == hosts && AllPlain(hosts) && forall e | e in l :: e.right == "" && e.left != ""
    requires forall e | e in l :: e.left in hosts
    ensures Stage(l, hosts, 0, OneLine(hosts))
  {
    FirstEntries(l, OneLine(hosts));
    FirstAlone(hosts);
    PlainFamily(hosts);
  }

  lemma LoadedReady(hosts: set<string>, l: seq<Entry>, strict: bool)
    requires TextSet(l) == hosts && AllPlain(hosts) && forall e | e in l :: e.right == "" && e.left != ""
    requires (forall e | e in l :: e.left in hosts) && forall h | h in hosts :: Entry(h, "") in l
    ensures Underway(l, hosts, 0, strict)
  {
    FirstStage(hosts, l);
    if h :| h in hosts && Unmatched(h) {
      assert Unmatched(Entry(h, "").left);
    }
  }

  lemma UnderwayNext(l: seq<Entry>, next: seq<Entry>, hosts: set<string>, r: nat, strict: bool)
    requires Underway(l, hosts, r, strict) && RoundFailure(l, hosts, r, strict).None?
    requires Stage(next, hosts, r + 1, OneLine(hosts))
    ensures Underway(next, hosts, r + 1, strict)
  {
    forall e | e in next ensures !Unmatched(e.left) {
      assert EntryTidy(e, r + 1, OneLine(hosts));
    }
  }

  lemma RoundFailureIs(l: seq<Entry>, hosts: set<string>, r: nat, strict: bool)
    requires Underway(l, hosts, r, strict) && RoundFailure(l, hosts, r, strict).Some?
    ensures RoundsFailure(hosts, strict) == RoundFailure(l, hosts, r, strict)
  {
    assert ClashAt(hosts, r) ==> Clashes(hosts);
  }

  lemma NoFailure(l: seq<Entry>, hosts: set<string>, r: nat, strict: bool)
    requires Underway(l, hosts, r, strict) && r > 0 && forall q | q >= r - 1 :: !ClashAt(hosts, q)
    ensures RoundsFailure(hosts, strict) == None
  {
  }

  // Collecting

  /** The expression is made of non-empty parts that stand for `hosts`, each of them once. */
  ghost predicate Shows(s: string, parts: seq<string>, hosts: set<string>) {
    s == Join(parts) && ListsOnce(parts, hosts) && forall p | p in parts :: p != ""
  }

  lemma TextsNotEmpty(l: seq<Entry>, r: nat)
    requires EntriesOk(l, r)
    ensures forall p | p in Texts(l) :: p != ""
  {
    forall p | p in Texts(l) ensures p != "" {
      var i :| 0 <= i < |l| && Texts(l)[i] == p;
      TextAt(l, i);
      assert l[i] in l;
    }
  }

  lemma TextsOneLine(l: seq<Entry>, r: nat, clean: bool)
    requires EntriesTidy(l, r, clean) && clean
    ensures forall p | p in Texts(l) :: '\n' !in p
  {
    forall p | p in Texts(l) ensures '\n' !in p {
      var i :| 0 <= i < |l| && Texts(l)[i] == p;
      TextAt(l, i);
      assert l[i] in l;
    }
  }

  // What the result looks like

  /** One of the texts stands for both hosts. */
  ghost predicate InOne(texts: seq<string>, g: string, h: string) {
    exists t | t in texts :: g in Hosts(t) && h in Hosts(t)
  }

  /** Hosts that come into one group in round `q` are shown by one of the texts. */
  ghost predicate GroupShown(texts: seq<string>, hosts: set<string>, q: nat) {
    forall g, h | Alone(hosts, g, q) && Alone(hosts, h, q) && SameGroup(g, h, q) :: InOne(texts, g, h)
  }

  ghost predicate GroupsShown(texts: seq<string>, hosts: set<string>, r: nat) {
    forall q: nat | q < r :: GroupShown(texts, hosts, q)
  }

  lemma StaysInOne(l: seq<Entry>, texts: seq<string>, r: nat, g: string, h: string)
    requires Merges(l, texts, r) && InOne(Texts(l), g, h)
    ensures InOne(texts, g, h)
  {
    var t :| t in Texts(l) && g in Hosts(t) && h in Hosts(t);
    assert t in TextSet(l) && OneFor(texts, t, t);
  }

  lemma NewInOne(l: seq<Entry>, texts: seq<string>, hosts: set<string>, r: nat, clean: bool, g: string, h: string)
    requires Stage(l, hosts, r, clean) && Merges(l, texts, r)
    requires Alone(hosts, g, r) && Alone(hosts, h, r) && SameGroup(g, h, r)
    ensures InOne(texts, g, h)
  {
    AloneIsHost(hosts, g, r);
    AloneIsHost(hosts, h, r);
    PlainHosts(g);
    PlainHosts(h);
    assert g in TextSet(l) && h in TextSet(l);
    assert OneFor(texts, g, h);
  }

  lemma GroupsShownNext(l: seq<Entry>, texts: seq<string>, hosts: set<string>, r: nat, clean: bool)
    requires Stage(l, hosts, r, clean) && Merges(l, texts, r) && GroupsShown(Texts(l), hosts, r)
    ensures GroupsShown(texts, hosts, r + 1)
  {
    forall q: nat, g, h | q < r + 1 && Alone(hosts, g, q) && Alone(hosts, h, q) && SameGroup(g, h, q)
      ensures InOne(texts, g, h)
    {
      if q < r {
        assert GroupShown(Texts(l), hosts, q);
        StaysInOne(l, texts, r, g, h);
      } else {
        NewInOne(l, texts, hosts, r, clean, g, h);
      }
    }
  }

  /** Once no host has more numbers than there were rounds, all groups there are have been shown. */
  lemma AllGroupsShown(texts: seq<string>, hosts: set<string>, r: nat)
    requires GroupsShown(texts, hosts, r) && AllPlain(hosts) && r > 0 && forall h | h in hosts :: Count(h) <= r - 1
    ensures forall q: nat :: GroupShown(texts, hosts, q)
  {
    forall q: nat, g, h | Alone(hosts, g, q) && Alone(hosts, h, q) && SameGroup(g, h, q) ensures InOne(texts, g, h) {
      AloneIsHost(hosts, g, q);
      if q >= r {
        NoLaterGroup(g, h, q);
      } else {
        assert GroupShown(texts, hosts, q);
      }
    }
  }

  lemma TextsNeat(l: seq<Entry>, r: nat, clean: bool)
    requires EntriesOk(l, r) && EntriesTidy(l, r, clean)
    ensures forall p | p in Texts(l) :: Neat(p)
  {
    forall p | p in Texts(l) ensures Neat(p) {
      var i :| 0 <= i < |l| && Texts(l)[i] == p;
      TextAt(l, i);
      assert l[i] in l;
      NeatBehind(l[i].left, l[i].right);
    }
  }

  /**
   * The parts are ascending strings; each bracket holds ascending ranges none of which goes on where
   * another stops; and hosts that differ in one number only, with no group to join before, share a part.
   */
  ghost predicate Tidied(parts: seq<string>, hosts: set<string>) {
    && Ascending(parts) && (forall p | p in parts :: Neat(p))
    && forall q: nat :: GroupShown(parts, hosts, q)
  }

  /** In particular hosts that differ in their last number only share a part. */
  lemma LastNumbersShareAPart(parts: seq<string>, hosts: set<string>, p: string, d: string, e: string, s: string)
    requires Tidied(parts, hosts) && p + (d + s) in hosts && p + (e + s) in hosts && NoDigit(s) && Plain(s)
    requires AllDigits(d) && d != "" && AllDigits(e) && e != "" && !EndsInDigit(p)
    ensures InOne(parts, p + (d + s), p + (e + s))
  {
    TokensOfText(s, false);
    assert s != "" ==> s[0] in s;
    assert SplitsAs(p + (d + s), p, d, s, 0) && SplitsAs(p + (e + s), p, e, s, 0);
    assert GroupShown(parts, hosts, 0);
  }

  /** Calls one round after the other until no number is left. */
  method CollectRounds(loaded: seq<Entry>, strict: bool, ghost hosts: set<string>)
    returns (r: Result<string, Bad>, ghost parts: seq<string>)
    requires Underway(loaded, hosts, 0, strict)
    ensures var failure := RoundsFailure(hosts, strict);
            if failure.Some? then r == Err(failure.value) else r.Ok?
    ensures r.Ok? ==> Shows(r.value, parts, hosts) && Tidied(parts, hosts)
    ensures r.Ok? && OneLine(hosts) ==> forall p | p in parts :: '\n' !in p
  {
    parts := [];
    var leftRight, looping := loaded, true;
    ghost var r0, clean := 0, OneLine(hosts);
    while looping
      invariant Underway(leftRight, hosts, r0, strict)
      invariant !looping ==> r0 > 0 && ListsOnce(Texts(leftRight), hosts)
      invariant !looping ==> forall q | q >= r0 - 1 :: !ClashAt(hosts, q)
      invariant !looping ==> Ascending(Texts(leftRight)) && forall h | h in hosts :: Count(h) <= r0 - 1
      invariant GroupsShown(Texts(leftRight), hosts, r0)
      decreases looping, LeftTotal(leftRight)
    {
      var next;
      next, looping := CollectOnce(leftRight, strict, r0, hosts, clean);
      if next.Err? {
        RoundFailureIs(leftRight, hosts, r0, strict);
        return Err(next.error), [];
      }
      UnderwayNext(leftRight, next.value, hosts, r0, strict);
      GroupsShownNext(leftRight, Texts(next.value), hosts, r0, clean);
      leftRight, r0 := next.value, r0 + 1;
    }
    NoFailure(leftRight, hosts, r0, strict);
    AllGroupsShown(Texts(leftRight), hosts, r0);
    TextsNeat(leftRight, r0, clean);
    parts := Texts(leftRight);
    TextsNotEmpty(leftRight, r0);
    if clean {
      TextsOneLine(leftRight, r0, clean);
    }
    return Ok(Join(Texts(leftRight))), parts;
  }

  ghost predicate AnyForbidden(hosts: seq<string>) { exists h | h in hosts :: !Plain(Strip(h)) }

  lemma ForbiddenNext(hosts: seq<string>, k: nat)
    requires k < |hosts|
    ensures !Plain(Strip(hosts[k])) ==> AnyForbidden(hosts)
    ensures AnyForbidden(hosts[..k + 1]) <==> AnyForbidden(hosts[..k]) || !Plain(Strip(hosts[k]))
  {
    assert hosts[..k + 1] == hosts[..k] + [hosts[k]];
  }

  /** Why collection fails, if it does. */
  ghost function Failure(hosts: seq<string>, discardBad: bool, strict: bool): Option<Bad> {
    if !discardBad && AnyForbidden(hosts) then Some(ForbiddenCharacter)
    else RoundsFailure(Wanted(hosts), strict)
  }

  /**
   * Collects a list of hosts.  The errors are those `Failure` names and no others; otherwise
   * the result shows the wanted hosts, each once.
   */
  method CollectHostlist(hosts: seq<string>, discardBad: bool, strict: bool)
    returns (r: Result<string, Bad>, ghost parts: seq<string>)
    ensures var failure := Failure(hosts, discardBad, strict);
            if failure.Some? then r == Err(failure.value) else r.Ok?
    ensures r.Ok? ==> Shows(r.value, parts, Wanted(hosts)) && Tidied(parts, Wanted(hosts))
    ensures r.Ok? && OneLine(Wanted(hosts)) ==> forall p | p in parts :: '\n' !in p
  {
    parts := [];
    var leftRight: seq<Entry> := [];
    for k := 0 to |hosts|
      invariant Loaded(hosts, k, leftRight)
      invariant discardBad || !AnyForbidden(hosts[..k])
    {
      var host := Strip(hosts[k]);
      LoadStep(hosts, k, leftRight);
      ForbiddenNext(hosts, k);
      if host == "" {
        continue;
      }
      if !Plain(host) {
        if discardBad {
          continue;
        }
        return Err(ForbiddenCharacter), [];
      }
      leftRight := leftRight + [Entry(host, "")];
    }
    assert hosts[..|hosts|] == hosts;
    LoadedTexts(hosts, leftRight);
    LoadedReady(Wanted(hosts), leftRight, strict);
    r, parts := CollectRounds(leftRight, strict, Wanted(hosts));
  }

  // The round trip

  lemma {:induction false} PartThenComma(p: string, s: string, open: bool)
    requires Balanced(p, open)
    ensures ListBalanced(p + "," + s, open) <==> ListBalanced(s, false)
    ensures TopSplit(p + "," + s, open) == [p] + TopSplit(s, false)
  {
    var w := p + "," + s;
    if p == "" {
      assert w[0] == ',' && w[1..] == s;
    } else {
      assert w[0] == p[0] && w[1..] == p[1..] + "," + s;
      PartThenComma(p[1..], s, After(open, p[0]));
      var rest := TopSplit(s, false);
      assert Glue([p[0]], [p[1..]] + rest) == [[p[0]] + p[1..]] + rest;
      assert [p[0]] + p[1..] == p;
    }
  }

  lemma {:induction false} PartAlone(p: string, open: bool)
    requires Balanced(p, open)
    ensures ListBalanced(p, open) && TopSplit(p, open) == [p]
  {
    if p != "" {
      PartAlone(p[1..], After(open, p[0]));
      assert [p[0]] + p[1..] == p;
      assert Glue([p[0]], [p[1..]]) == [p];
    }
  }

  lemma {:induction false} JoinedSplits(parts: seq<string>)
    requires parts != [] && forall p | p in parts :: Balanced(p, false)
    ensures ListBalanced(Join(parts), false) && TopSplit(Join(parts), false) == parts
  {
    assert parts[0] in parts;
    if |parts| == 1 {
      PartAlone(parts[0], false);
    } else {
      JoinedSplits(parts[1..]);
      PartThenComma(parts[0], Join(parts[1..]), false);
      assert parts == [parts[0]] + parts[1..];
    }
  }

  lemma {:induction false} VisibleWhole(parts: seq<string>)
    requires forall p | p in parts :: p != "" && Seen(p) == Some(p)
    ensures Visible(parts) == parts
  {
    if parts != [] {
      var init, last := parts[..|parts| - 1], parts[|parts| - 1];
      assert last in parts && parts == init + [last];
      assert forall p | p in init :: p in parts;
      VisibleWhole(init);
    }
  }

  /** Expanding an expression that shows hosts gives them all, if each of its parts is within the limit. */
  lemma ShownIsExpanded(s: string, parts: seq<string>, hosts: set<string>)
    requires Shows(s, parts, hosts) && forall p | p in parts :: '\n' !in p
    ensures ListBalanced(s, false)
    ensures AllFit(TopSplit(s, false)) <==> forall p | p in parts :: |Hosts(p)| <= MAX_SIZE
    ensures Together(TopSplit(s, false)) == Denoted(parts)
  {
    if parts == [] {
      var none: seq<string> := [""];
      assert s == "" && TopSplit(s, false) == none && none[..0] == [];
    } else {
      forall p | p in parts 
        ensures Balanced(p, false) && Seen(p) == Some(p) && (Expands(p) <==> |Hosts(p)| <= MAX_SIZE)
      {
        SeenWhole(p);
        assert Meaningful(p);
      }
      JoinedSplits(parts);
      VisibleWhole(parts);
    }
  }

  lemma PartsWithinLimit(parts: seq<string>, hosts: set<string>)
    requires ListsOnce(parts, hosts) && |hosts| <= MAX_SIZE
    ensures forall p | p in parts :: |Hosts(p)| <= MAX_SIZE
  {
    DistinctSize(Denoted(parts), hosts);
    forall p | p in parts ensures |Hosts(p)| <= MAX_SIZE {
      PartSize(parts, p);
    }
  }

  /**
   * Collecting hosts and expanding the result gives back the distinct hosts, each of them once,
   * exactly if each collected part is within the limit of expansion; all are if the hosts are.
   */
  method CollectThenExpand(hosts: seq<string>, discardBad: bool, strict: bool)
    returns (back: Result<seq<string>, Bad>, ghost parts: seq<string>)
    ensures var failure := Failure(hosts, discardBad, strict);
            failure.Some? ==> back == Err(failure.value)
    ensures back.Ok? && OneLine(Wanted(hosts)) ==>
              Distinct(back.value) && forall x :: x in back.value <==> x in Wanted(hosts)
    ensures Failure(hosts, discardBad, strict).None? && OneLine(Wanted(hosts)) && |Wanted(hosts)| <= MAX_SIZE ==>
              back.Ok?
    ensures Failure(hosts, discardBad, strict).None? ==> ListsOnce(parts, Wanted(hosts))
    ensures Failure(hosts, discardBad, strict).None? && OneLine(Wanted(hosts)) ==>
              (back.Ok? <==> forall p | p in parts :: |Hosts(p)| <= MAX_SIZE)
  {
    var collected;
    collected, parts := CollectHostlist(hosts, discardBad, strict);
    if collected.Err? {
      return Err(collected.error), parts;
    }
    back := ExpandHostlist(collected.value, false);
    if OneLine(Wanted(hosts)) {
      ShownIsExpanded(collected.value, parts, Wanted(hosts));
      FirstOnesContents(Denoted(parts));
      if |Wanted(hosts)| <= MAX_SIZE {
        PartsWithinLimit(parts, Wanted(hosts));
      }
    }
  }
}
