/** Expanding a hostlist expression, with the limits on its size. */
module HostExpand {
  import opened Prelude
  import opened Digits
  import opened HostSyntax
  import opened HostDenote

  const MAX_SIZE: nat := 100000

  // Nothing expands to nothing

  lemma {:induction false} NumbersSize(low: nat, high: int, width: nat)
    requires low <= high + 1
    ensures |Numbers(low, high, width)| == high - low + 1
    decreases high - low
  {
    if low <= high {
      NumbersSize(low + 1, high, width);
    }
  }

  lemma RangeNotEmpty(r: string)
    ensures RangeMeaning(r).Ok? ==> 0 < |RangeMeaning(r).value|
  {
  }

  lemma {:induction false} RangesSizes(rs: seq<string>, r: string)
    requires RangesMeaning(rs).Ok? && r in rs
    ensures RangeMeaning(r).Ok? && |RangeMeaning(r).value| <= |RangesMeaning(rs).value|
  {
    if r != rs[0] {
      RangesSizes(rs[1..], r);
    }
  }

  lemma {:induction false} ExpansionNotEmpty(s: string)
    requires Balanced(s, false) && Expansion(s).Ok?
    ensures 0 < |Expansion(s).value|
  {
    if s == "" {
    } else if s[0] != '[' {
      ExpansionNotEmpty(s[1..]);
      PrefixedSize([s[0]], Expansion(s[1..]).value);
    } else {
      var u := s[1..];
      CloseFacts(u);
      var k := CloseAt(u);
      ExpansionNotEmpty(u[k + 1..]);
      var rs := SplitComma(u[..k]);
      RangesSizes(rs, rs[0]);
      RangeNotEmpty(rs[0]);
      var nums, rest := RangesMeaning(rs).value, Expansion(u[k + 1..]).value;
      CrossSize(nums, rest);
      assert |nums| * |rest| >= 1;
    }
  }

  // Ranges

  method ExpandRange(prefix: string, range_: string) returns (r: Result<seq<string>, Bad>)
    ensures var meaning := RangeMeaning(range_);
            r == if meaning.Err? then meaning
                 else if |meaning.value| <= MAX_SIZE + 1 then Ok(Prefixed(prefix, meaning.value))
                 else Err(RangeTooLarge)
  {
    var text := Chomp(range_);
    if text != "" && AllDigits(text) {
      ghost var one := [range_];
      assert RangeMeaning(range_) == Ok(one) && one[1..] == [];
      assert Prefixed(prefix, one) == [prefix + range_];
      return Ok([prefix + range_]);
    }
    if !IsSpan(text) {
      return Err(BadRange);
    }
    var width := DashAt(text);
    var low, high := ToInt(text[..width]), ToInt(text[width + 1..]);
    if high < low {
      return Err(StartAfterStop);
    }
    NumbersSize(low, high, width);
    if high - low > MAX_SIZE {
      return Err(RangeTooLarge);
    }
    var results := ExpandSpan(prefix, low, high, width);
    return Ok(results);
  }

  method ExpandSpan(prefix: string, low: nat, high: nat, width: nat) returns (results: seq<string>)
    requires low <= high
    ensures results == Prefixed(prefix, Numbers(low, high, width))
  {
    results := [];
    var i := low;
    while i <= high
      invariant low <= i <= high + 1
      invariant results + Prefixed(prefix, Numbers(i, high, width)) == Prefixed(prefix, Numbers(low, high, width))
    {
      ghost var more := Numbers(i + 1, high, width);
      assert Numbers(i, high, width) == [Pad(width, i)] + more;
      assert ([Pad(width, i)] + more)[1..] == more;
      results := results + [prefix + Pad(width, i)];
      i := i + 1;
    }
    assert Numbers(i, high, width) == [];
  }

  ghost predicate RangesFit(rs: seq<string>) {
    forall r | r in rs :: RangeMeaning(r).Ok? && |RangeMeaning(r).value| <= MAX_SIZE + 1
  }

  lemma {:induction false} RangesAppend(a: seq<string>, r: string)
    requires RangesMeaning(a).Ok?
    ensures RangesMeaning(a + [r]) == if RangeMeaning(r).Err? then RangeMeaning(r)
                                      else Ok(RangesMeaning(a).value + RangeMeaning(r).value)
  {
    if a == [] {
      assert a + [r] == [r] && [r][1..] == [];
      assert RangesMeaning([]) == Ok([]);
      assert RangeMeaning(r).Ok? ==> RangeMeaning(r).value + [] == [] + RangeMeaning(r).value;
    } else {
      assert (a + [r])[1..] == a[1..] + [r];
      RangesAppend(a[1..], r);
      if RangeMeaning(r).Ok? {
        var first, more, v := RangeMeaning(a[0]).value, RangesMeaning(a[1..]).value, RangeMeaning(r).value;
        assert first + (more + v) == first + more + v;
      }
    }
  }

  lemma RangelistStep(prefix: string, rs: seq<string>, i: nat)
    requires i < |rs| && RangesMeaning(rs[..i]).Ok? && RangeMeaning(rs[i]).Ok?
    ensures RangesMeaning(rs[..i + 1]).Ok?
    ensures Prefixed(prefix, RangesMeaning(rs[..i + 1]).value)
         == Prefixed(prefix, RangesMeaning(rs[..i]).value) + Prefixed(prefix, RangeMeaning(rs[i]).value)
  {
    assert rs[..i + 1] == rs[..i] + [rs[i]];
    RangesAppend(rs[..i], rs[i]);
    PrefixedAppend(prefix, RangesMeaning(rs[..i]).value, RangeMeaning(rs[i]).value);
  }

  lemma FitStep(rs: seq<string>, i: nat)
    requires i < |rs| && RangesFit(rs[..i]) && RangesFit([rs[i]])
    ensures RangesFit(rs[..i + 1])
  {
    assert rs[..i + 1] == rs[..i] + [rs[i]];
  }

  method ExpandRangelist(prefix: string, rangelist: string) returns (r: Result<seq<string>, Bad>)
    ensures r.Ok? <==> RangesFit(SplitComma(rangelist))
    ensures r.Ok? ==> RangesMeaning(SplitComma(rangelist)).Ok?
                      && r.value == Prefixed(prefix, RangesMeaning(SplitComma(rangelist)).value)
  {
    var rs := SplitComma(rangelist);
    var results := [];
    for i := 0 to |rs|
      invariant RangesFit(rs[..i]) && RangesMeaning(rs[..i]).Ok?
      invariant results == Prefixed(prefix, RangesMeaning(rs[..i]).value)
    {
      var one := ExpandRange(prefix, rs[i]);
      assert rs[i] in rs;
      if one.Err? {
        return one;
      }
      RangelistStep(prefix, rs, i);
      FitStep(rs, i);
      results := results + one.value;
    }
    assert rs[..|rs|] == rs;
    return Ok(results);
  }

  // Parts

  function OpenAt(s: string): (k: nat)
    ensures k <= |s| && (k < |s| ==> s[k] == '[')
    ensures forall i | 0 <= i < k :: s[i] != '['
  {
    if s == "" || s[0] == '[' then 0 else 1 + OpenAt(s[1..])
  }

  lemma {:induction false} TextBeforeBracket(s: string)
    requires Balanced(s, false)
    ensures Plain(s[..OpenAt(s)]) && Balanced(s[OpenAt(s)..], false)
    ensures s == s[..OpenAt(s)] + s[OpenAt(s)..]
  {
    if s != "" && s[0] != '[' {
      TextBeforeBracket(s[1..]);
      var k := OpenAt(s[1..]);
      assert s[..k + 1] == [s[0]] + s[1..][..k] && s[k + 1..] == s[1..][k..];
    }
  }

  ghost predicate Fits(s: string) { Meaningful(s) && |Hosts(s)| <= MAX_SIZE }

  /** When a bracket and what follows it stay within the limit together, so does each alone. */
  lemma BracketFits(body: string, rest: string, nums: seq<string>, tail: seq<string>)
    requires Balanced(rest, false) && Expansion(rest) == Ok(tail)
    requires RangesMeaning(SplitComma(body)) == Ok(nums)
    requires |nums| * |tail| <= MAX_SIZE
    ensures |tail| <= MAX_SIZE && RangesFit(SplitComma(body))
  {
    ExpansionNotEmpty(rest);
    var rs := SplitComma(body);
    RangesSizes(rs, rs[0]);
    RangeNotEmpty(rs[0]);
    assert |tail| <= |nums| * |tail| && |nums| <= |nums| * |tail| by { Factors(|nums|, |tail|); }
    forall r | r in rs ensures RangeMeaning(r).Ok? && |RangeMeaning(r).value| <= MAX_SIZE + 1 {
      RangesSizes(rs, r);
    }
  }

  lemma Factors(a: nat, b: nat)
    requires 0 < a && 0 < b
    ensures a <= a * b && b <= a * b
  {
    assert a * b == a + a * (b - 1);
    assert a * b == b + (a - 1) * b;
  }

  /** When text, a bracket and the rest of a part fit together. */
  lemma PartFits(prefix: string, body: string, rest: string)
    requires Plain(prefix) && NoBrackets(body) && Balanced(rest, false)
    ensures Balanced(prefix + ("[" + body + "]" + rest), false)
    ensures var s := prefix + ("[" + body + "]" + rest);
            var nums := RangesMeaning(SplitComma(body));
            && (Fits(s) <==> Fits(rest) && RangesFit(SplitComma(body)) && nums.Ok?
                             && |nums.value| * |Hosts(rest)| <= MAX_SIZE)
            && (Fits(s) ==> Hosts(s) == Cross(Prefixed(prefix, nums.value), Hosts(rest)))
  {
    BracketBalanced(body, rest);
    BracketExpansion(body, rest);
    var w := "[" + body + "]" + rest;
    PlainExpansion(prefix, w);
    var nums := RangesMeaning(SplitComma(body));
    if nums.Ok? && Expansion(rest).Ok? {
      var tail := Expansion(rest).value;
      CrossSize(nums.value, tail);
      CrossPrefixed(prefix, nums.value, tail);
      PrefixedSize(prefix, Cross(nums.value, tail));
      if |nums.value| * |tail| <= MAX_SIZE {
        BracketFits(body, rest, nums.value, tail);
      }
    }
  }

  /** A part with a bracket is cut into text, bracket and rest. */
  lemma CutAtBracket(s: string, p: nat, u: string)
    requires Balanced(s, false) && p == OpenAt(s) < |s| && u == s[p + 1..]
    ensures Plain(s[..p]) && Balanced(u, true)
  {
    TextBeforeBracket(s);
    assert s[p..][1..] == u;
  }

  // Newlines: what follows a bracket is only matched up to the first one

  function NewlineAt(s: string): (k: nat)
    ensures k <= |s| && (k < |s| ==> s[k] == '\n')
    ensures forall i | 0 <= i < k :: s[i] != '\n'
  {
    if s == "" || s[0] == '\n' then 0 else 1 + NewlineAt(s[1..])
  }

  function UpToNewline(s: string): string { s[..NewlineAt(s)] }

  lemma NewlineFree(s: string)
    ensures '\n' !in UpToNewline(s) && |UpToNewline(s)| <= |s|
  {
  }

  lemma NoNewline(s: string)
    requires '\n' !in s
    ensures UpToNewline(s) == s
  {
    assert NewlineAt(s) == |s|;
  }

  /** What is matched behind the bracket whose inside `u` starts with. */
  function Behind(u: string): string
    requires Balanced(u, true)
  {
    CloseFacts(u);
    UpToNewline(u[CloseAt(u) + 1..])
  }

  /** The text of a part that is looked at; none if it ends inside a bracket. */
  function Seen(s: string): Option<string> {
    if !Balanced(s, false) then None
    else
      var p := OpenAt(s);
      if p == |s| then Some(s)
      else
        CutAtBracket(s, p, s[p + 1..]);
        SeenFrom(s[..p], s[p + 1..])
  }

  function SeenFrom(prefix: string, u: string): Option<string>
    requires Balanced(u, true)
  {
    if Balanced(Behind(u), false) then Some(prefix + ("[" + u[..CloseAt(u)] + "]" + Behind(u))) else None
  }

  lemma OpenedAgain(prefix: string, u: string, body: string, rest: string)
    requires u == body + "]" + rest
    ensures prefix + ("[" + body + "]" + rest) == prefix + ("[" + u)
  {
    assert "[" + body + "]" + rest == "[" + (body + "]" + rest);
  }

  lemma {:induction false} SeenFromWhole(prefix: string, u: string)
    requires Balanced(u, true) && '\n' !in u
    ensures SeenFrom(prefix, u) == Some(prefix + ("[" + u))
  {
    BracketParts(u);
    var body, rest := u[..CloseAt(u)], u[CloseAt(u) + 1..];
    NoNewline(rest);
    OpenedAgain(prefix, u, body, rest);
  }

  lemma UpToIs(b: string, more: string)
    requires '\n' !in b
    ensures UpToNewline(b + "\n" + more) == b
  {
    var w := b + "\n" + more;
    assert w[|b|] == '\n' && forall i | 0 <= i < |b| :: w[i] == b[i] && b[i] in b;
    assert NewlineAt(w) == |b| && w[..|b|] == b;
  }

  lemma OpensAfter(a: string, w: string, s: string)
    requires Plain(a) && w != "" && w[0] == '[' && s == a + w
    ensures OpenAt(s) == |a|
  {
    assert s[|a|] == '[' && forall i | 0 <= i < |a| :: s[i] == a[i] && a[i] in a;
  }

  /** What follows a newline behind the first bracket is not looked at. */
  lemma NewlineCuts(a: string, body: string, b: string, more: string)
    requires Plain(a) && NoBrackets(body) && '\n' !in b && Balanced(b, false) && Balanced(b + "\n" + more, false)
    ensures Seen(a + ("[" + (body + "]" + (b + "\n" + more)))) == Some(a + ("[" + body + "]" + b))
  {
    var rest := b + "\n" + more;
    var u := body + "]" + rest;
    var w := "[" + u;
    var s := a + w;
    BracketBalanced(body, rest);
    UpToIs(b, more);
    assert w[0] == '[' && w[1..] == u;
    PlainBalanced(a, w);
    OpensAfter(a, w, s);
    assert s[|a| + 1..] == u && s[..|a|] == a;
    assert u[..|body|] == body && u[|body| + 1..] == rest;
  }

  /** Without a newline all of a part is looked at. */
  lemma SeenWhole(s: string)
    requires Balanced(s, false) && '\n' !in s
    ensures Seen(s) == Some(s)
  {
    var p := OpenAt(s);
    if p < |s| {
      var u := s[p + 1..];
      CutAtBracket(s, p, u);
      SeenFromWhole(s[..p], u);
      assert s == s[..p] + ("[" + u);
    }
  }

  /** From a bracket `w` with inside `u`: the text behind it if it is closed, otherwise all of it. */
  function Remaining(w: string, u: string): string {
    UpToNewline(if CloseAt(u) < |u| then u[CloseAt(u) + 1..] else w)
  }

  /** What one match leaves for the next. */
  function LeftOver(s: string): string {
    if OpenAt(s) == |s| then "" else Remaining(s[OpenAt(s)..], s[OpenAt(s) + 1..])
  }

  /** Matching again and again comes to a text that it does not shorten. */
  predicate NeverEnds(s: string)
    decreases |s|
  {
    s != "" && (LeftOver(s) == s || (|LeftOver(s)| < |s| && NeverEnds(LeftOver(s))))
  }

  /** Legal up to its end, where a bracket is open. */
  predicate Unclosed(s: string, open: bool) {
    if s == "" then open
    else if open then
      if s[0] == ']' then Unclosed(s[1..], false) else s[0] != '[' && Unclosed(s[1..], true)
    else
      s[0] != ',' && s[0] != ']' && Unclosed(s[1..], s[0] == '[')
  }

  lemma {:induction false} CutShort(s: string, open: bool, k: nat)
    requires Balanced(s, open) && k <= |s|
    ensures Balanced(s[..k], open) || Unclosed(s[..k], open)
  {
    if k > 0 {
      var r := s[..k];
      assert r[0] == s[0] && r[1..] == s[1..][..k - 1];
      CutShort(s[1..], After(open, s[0]), k - 1);
    }
  }

  lemma {:induction false} UnclosedFrom(s: string)
    requires Unclosed(s, false)
    ensures OpenAt(s) < |s| && Unclosed(s[OpenAt(s) + 1..], true)
  {
    if s[0] != '[' {
      UnclosedFrom(s[1..]);
      assert s[1..][OpenAt(s[1..]) + 1..] == s[OpenAt(s) + 1..];
    }
  }

  lemma {:induction false} UnclosedBehind(u: string)
    requires Unclosed(u, true) && CloseAt(u) < |u|
    ensures Unclosed(u[CloseAt(u) + 1..], false)
  {
    if u[0] != ']' {
      UnclosedBehind(u[1..]);
      assert u[1..][CloseAt(u[1..]) + 1..] == u[CloseAt(u) + 1..];
    }
  }

  lemma NoNewlineBehind(s: string, k: nat)
    requires '\n' !in s && k <= |s|
    ensures UpToNewline(s[k..]) == s[k..]
  {
    var t := s[k..];
    assert forall i | 0 <= i < |t| :: t[i] == s[k + i];
    NoNewline(t);
  }

  lemma RemainingIs(w: string, u: string)
    requires '\n' !in w && '\n' !in u
    ensures Remaining(w, u) == if CloseAt(u) < |u| then u[CloseAt(u) + 1..] else w
  {
    var k := CloseAt(u);
    if k < |u| {
      NoNewlineBehind(u, k + 1);
    } else {
      NoNewline(w);
    }
  }

  lemma LeftOverIs(s: string, p: nat, w: string, u: string)
    requires p == OpenAt(s) < |s| && w == s[p..] && u == s[p + 1..]
    ensures LeftOver(s) == Remaining(w, u)
  {
  }

  lemma StuckAtBracket(w: string, u: string)
    requires w != "" && w[0] == '[' && w[1..] == u && '\n' !in w && CloseAt(u) == |u|
    ensures NeverEnds(w)
  {
    assert w[0..] == w;
    LeftOverIs(w, 0, w, u);
    RemainingIs(w, u);
  }

  lemma LeftNeverEnds(s: string, t: string)
    requires s != "" && LeftOver(s) == t && |t| < |s| && NeverEnds(t)
    ensures NeverEnds(s)
  {
  }

  lemma {:induction false} StuckBehindText(s: string, p: nat, w: string, u: string)
    requires '\n' !in s && p < |s| && w == s[p..] && w[0] == '[' && u == w[1..] && CloseAt(u) == |u|
    requires LeftOver(s) == w
    ensures NeverEnds(s)
  {
    assert forall c | c in w :: c in s;
    StuckAtBracket(w, u);
    if p > 0 {
      LeftNeverEnds(s, w);
    } else {
      assert w == s;
    }
  }

  lemma PartOneLine(s: string, k: nat)
    requires '\n' !in s && k <= |s|
    ensures '\n' !in s[k..]
  {
  }

  /** A text that ends in an open bracket is matched for ever. */
  lemma {:induction false} UnclosedNeverEnds(s: string)
    requires Unclosed(s, false) && '\n' !in s
    ensures NeverEnds(s)
    decreases |s|
  {
    UnclosedFrom(s);
    var p := OpenAt(s);
    var w, u := s[p..], s[p + 1..];
    assert w[1..] == u;
    LeftOverIs(s, p, w, u);
    RemainingIs(w, u);
    if CloseAt(u) < |u| {
      var rest := u[CloseAt(u) + 1..];
      UnclosedBehind(u);
      PartOneLine(s, p + 1);
      PartOneLine(u, CloseAt(u) + 1);
      UnclosedNeverEnds(rest);
      LeftNeverEnds(s, rest);
    } else {
      StuckBehindText(s, p, w, u);
    }
  }

  lemma RemainingBehind(w: string, u: string)
    requires Balanced(u, true)
    ensures Remaining(w, u) == Behind(u)
  {
    CloseFacts(u);
  }

  lemma NotSeenFrom(prefix: string, u: string)
    requires Balanced(u, true) && SeenFrom(prefix, u).None?
    ensures NeverEnds(Behind(u))
  {
    CloseFacts(u);
    var rest := u[CloseAt(u) + 1..];
    CutShort(rest, false, NewlineAt(rest));
    NewlineFree(rest);
    UnclosedNeverEnds(Behind(u));
  }

  /** Where a newline cuts a part off inside a later bracket, matching never ends. */
  lemma NotSeenNeverEnds(s: string)
    requires Balanced(s, false) && Seen(s).None?
    ensures NeverEnds(LeftOver(s))
  {
    var p := OpenAt(s);
    var u := s[p + 1..];
    CutAtBracket(s, p, u);
    LeftOverIs(s, p, s[p..], u);
    RemainingBehind(s[p..], u);
    NotSeenFrom(s[..p], u);
  }

  /** Expands the rest first, then this part's own bracket, and combines them if the result is not too large. */
  method ExpandPart(s: string) returns (r: Result<seq<string>, Bad>)
    requires Balanced(s, false)
    ensures r.Ok? <==> Seen(s).Some? && Fits(Seen(s).value)
    ensures r.Ok? ==> r.value == Hosts(Seen(s).value)
    ensures Seen(s).None? ==> r == Err(RecursionLimit)
    decreases |s|
  {
    if s == "" {
      return Ok([""]);
    }
    var p := OpenAt(s);
    if p == |s| {
      TextBeforeBracket(s);
      assert s[..p] == s;
      PlainAlone(s);
      return Ok([s]);
    }
    var prefix, u := s[..p], s[p + 1..];
    CutAtBracket(s, p, u);
    BracketParts(u);
    var k := CloseAt(u);
    var body, rest := u[..k], Behind(u);
    if !Balanced(rest, false) {
      return Err(RecursionLimit);
    }
    NewlineFree(u[k + 1..]);
    PartFits(prefix, body, rest);
    SeenWhole(rest);
    var restExpanded := ExpandPart(rest);
    if restExpanded.Err? {
      return restExpanded;
    }
    var us := ExpandRangelist(prefix, body);
    if us.Err? {
      return us;
    }
    PrefixedSize(prefix, RangesMeaning(SplitComma(body)).value);
    if |us.value| * |restExpanded.value| > MAX_SIZE {
      return Err(ResultsTooLarge);
    }
    var combined := Combine(us.value, restExpanded.value);
    return Ok(combined);
  }

  lemma CrossStep(us: seq<string>, rest: seq<string>, i: nat)
    requires i < |us|
    ensures Cross(us[i..], rest) == Prefixed(us[i], rest) + Cross(us[i + 1..], rest)
  {
    assert us[i..][1..] == us[i + 1..];
  }

  lemma PrefixedStep(t: string, l: seq<string>, j: nat)
    requires j < |l|
    ensures Prefixed(t, l[j..]) == [t + l[j]] + Prefixed(t, l[j + 1..])
  {
    assert l[j..][1..] == l[j + 1..];
  }

  /** One string in front of every string of a list. */
  method PutInFront(t: string, l: seq<string>) returns (r: seq<string>)
    ensures r == Prefixed(t, l)
  {
    r := [];
    assert l[0..] == l;
    for j := 0 to |l|
      invariant r + Prefixed(t, l[j..]) == Prefixed(t, l)
    {
      PrefixedStep(t, l, j);
      r := r + [t + l[j]];
    }
    assert l[|l|..] == [];
  }

  /** The nested comprehension over both lists. */
  method Combine(us: seq<string>, rest: seq<string>) returns (r: seq<string>)
    ensures r == Cross(us, rest)
  {
    r := [];
    assert us[0..] == us;
    for i := 0 to |us|
      invariant r + Cross(us[i..], rest) == Cross(us, rest)
    {
      CrossStep(us, rest, i);
      var more := PutInFront(us[i], rest);
      r := r + more;
    }
    assert us[|us|..] == [];
  }

  // Duplicates

  /** The first occurrence of every element, in order. */
  function FirstOnes(l: seq<string>): seq<string> {
    if l == [] then []
    else
      var init, x := FirstOnes(l[..|l| - 1]), l[|l| - 1];
      if x in l[..|l| - 1] then init else init + [x]
  }

  lemma {:induction false} FirstOnesContents(l: seq<string>)
    ensures Distinct(FirstOnes(l))
    ensures forall x :: x in FirstOnes(l) <==> x in l
    ensures Distinct(l) ==> FirstOnes(l) == l
  {
    if l != [] {
      FirstOnesContents(l[..|l| - 1]);
      assert l == l[..|l| - 1] + [l[|l| - 1]];
    }
  }

  method RemoveDuplicates(l: seq<string>) returns (results: seq<string>)
    ensures results == FirstOnes(l)
  {
    var seen: set<string> := {};
    results := [];
    for i := 0 to |l|
      invariant results == FirstOnes(l[..i])
      invariant forall x :: x in seen <==> x in l[..i]
    {
      assert l[..i + 1][..i] == l[..i];
      if l[i] !in seen {
        results := results + [l[i]];
        seen := seen + {l[i]};
      }
    }
    assert l[..|l|] == l;
  }

  // Whole expressions

  /** Brackets closed and not nested; commas anywhere. */
  predicate ListBalanced(s: string, open: bool) {
    if s == "" then !open
    else if open then
      if s[0] == ']' then ListBalanced(s[1..], false) else s[0] != '[' && ListBalanced(s[1..], true)
    else s[0] != ']' && ListBalanced(s[1..], s[0] == '[')
  }

  function After(open: bool, c: char): bool { if open then c != ']' else c == '[' }

  /** The current part is glued to the first of the parts still to come. */
  function Glue(part: string, parts: seq<string>): seq<string>
    requires parts != []
  {
    [part + parts[0]] + parts[1..]
  }

  /** Splitting at the commas outside brackets. */
  function TopSplit(s: string, open: bool): (parts: seq<string>)
    ensures parts != []
  {
    if s == "" then [""]
    else if s[0] == ',' && !open then [""] + TopSplit(s[1..], false)
    else Glue([s[0]], TopSplit(s[1..], After(open, s[0])))
  }

  /** The parts, joined by commas again, are the expression. */
  lemma {:induction false} SplitJoinsBack(s: string, open: bool)
    ensures Join(TopSplit(s, open)) == s
  {
    if s != "" {
      var c, rest := s[0], TopSplit(s[1..], After(open, s[0]));
      assert s == [c] + s[1..];
      SplitJoinsBack(s[1..], After(open, c));
      if c == ',' && !open {
        JoinCons("", rest);
      } else {
        JoinChar(c, rest);
      }
    }
  }

  /** Each part of a balanced expression is balanced; the first one from wherever the scan is. */
  lemma {:induction false} SplitBalanced(s: string, open: bool)
    requires ListBalanced(s, open)
    ensures Balanced(TopSplit(s, open)[0], open)
    ensures forall i | 1 <= i < |TopSplit(s, open)| :: Balanced(TopSplit(s, open)[i], false)
  {
    if s == "" {
    } else if s[0] == ',' && !open {
      SplitBalanced(s[1..], false);
    } else {
      SplitBalanced(s[1..], After(open, s[0]));
      var rest := TopSplit(s[1..], After(open, s[0]));
      assert ([s[0]] + rest[0])[1..] == rest[0];
    }
  }

  ghost predicate Expands(p: string) { Seen(p).Some? && Fits(Seen(p).value) }

  ghost predicate AllFit(parts: seq<string>) {
    forall p | p in parts && p != "" :: Expands(p)
  }

  /** The text looked at in each part; empty parts are skipped. */
  function Visible(parts: seq<string>): seq<string> {
    if parts == [] then []
    else
      var last := parts[|parts| - 1];
      Visible(parts[..|parts| - 1]) + (if last == "" || Seen(last).None? then [] else [Seen(last).value])
  }

  /** What a list of parts stands for. */
  ghost function Together(parts: seq<string>): seq<string> { Denoted(Visible(parts)) }

  /** The text scanned so far, from outside brackets, is legal and leaves the scan `open` or not. */
  ghost predicate Reaches(part: string, open: bool) {
    if part == "" then !open
    else
      var before, c := part[..|part| - 1], part[|part| - 1];
      if open then (c == '[' && Reaches(before, false)) || (c != '[' && c != ']' && Reaches(before, true))
      else (c == ']' && Reaches(before, true)) || (c != '[' && c != ']' && c != ',' && Reaches(before, false))
  }

  lemma {:induction false} ReachedIsBalanced(part: string, open: bool, rest: string)
    requires Reaches(part, open) && Balanced(rest, open)
    ensures Balanced(part + rest, false)
  {
    if part == "" {
      assert part + rest == rest;
    } else {
      var before, c := part[..|part| - 1], part[|part| - 1];
      assert part + rest == before + ([c] + rest);
      assert ([c] + rest)[1..] == rest;
      if Reaches(before, false) && Balanced([c] + rest, false) {
        ReachedIsBalanced(before, false, [c] + rest);
      } else {
        ReachedIsBalanced(before, true, [c] + rest);
      }
    }
  }

  lemma {:induction false} CommaKeepsBalance(s: string, open: bool)
    ensures ListBalanced(s + ",", open) <==> ListBalanced(s, open)
  {
    var t := s + ",";
    if s == "" {
      assert t[0] == ',' && t[1..] == "";
    } else {
      assert t[0] == s[0] && t[1..] == s[1..] + ",";
      CommaKeepsBalance(s[1..], After(open, s[0]));
    }
  }

  lemma GlueAppend(part: string, parts: seq<string>, p: string)
    requires parts != []
    ensures Glue(part, parts + [p]) == Glue(part, parts) + [p]
  {
  }

  lemma {:induction false} SplitWithComma(s: string, open: bool)
    requires ListBalanced(s, open)
    ensures TopSplit(s + ",", open) == TopSplit(s, open) + [""]
  {
    var t := s + ",";
    if s == "" {
      assert t[0] == ',' && t[1..] == "";
    } else {
      assert t[0] == s[0] && t[1..] == s[1..] + ",";
      SplitWithComma(s[1..], After(open, s[0]));
      GlueAppend([s[0]], TopSplit(s[1..], After(open, s[0])), "");
    }
  }

  lemma GlueNothing(parts: seq<string>)
    requires parts != []
    ensures Glue("", parts) == parts
  {
    assert "" + parts[0] == parts[0];
  }

  lemma TogetherAppend(parts: seq<string>, p: string)
    requires AllFit(parts) && (p == "" || Expands(p))
    ensures AllFit(parts + [p])
    ensures Together(parts + [p]) == Together(parts) + (if p == "" then [] else Hosts(Seen(p).value))
  {
    var more := parts + [p];
    assert more[..|more| - 1] == parts && more[|more| - 1] == p;
    if p == "" {
      assert Visible(more) == Visible(parts) + [] == Visible(parts);
    } else {
      DenotedAppend(Visible(parts), [Seen(p).value]);
      DenotedOne(Seen(p).value);
    }
  }

  /** Where the scan of `t` stands: parts cut off so far, and the one being read. */
  ghost predicate Scanned(t: string, i: nat, open: bool, part: string, done: seq<string>) {
    && i <= |t| && AllFit(done) && Reaches(part, open)
    && (ListBalanced(t, false) <==> ListBalanced(t[i..], open))
    && TopSplit(t, false) == done + Glue(part, TopSplit(t[i..], open))
    && (i > 0 && t[i - 1] == ',' && !open ==> part == "")
  }

  lemma ScanStart(t: string)
    ensures Scanned(t, 0, false, "", [])
  {
    assert t[0..] == t;
    GlueNothing(TopSplit(t, false));
  }

  lemma CommaSplits(t: string, i: nat, part: string, done: seq<string>)
    requires i < |t| && t[i] == ',' && TopSplit(t, false) == done + Glue(part, TopSplit(t[i..], false))
    ensures TopSplit(t, false) == (done + [part]) + Glue("", TopSplit(t[i + 1..], false))
    ensures part in TopSplit(t, false)
  {
    var here, rest := t[i..], TopSplit(t[i + 1..], false);
    assert here[0] == ',' && here[1..] == t[i + 1..];
    assert TopSplit(here, false) == [""] + rest && part + "" == part;
    GlueNothing(rest);
    assert Glue(part, [""] + rest) == [part] + rest;
  }

  lemma ScanPart(t: string, i: nat, part: string, done: seq<string>)
    requires i < |t| && t[i] == ',' && Scanned(t, i, false, part, done)
    ensures part in TopSplit(t, false) && Balanced(part, false)
  {
    CommaSplits(t, i, part, done);
    ReachedIsBalanced(part, false, "");
    assert part + "" == part;
  }

  lemma ScanCut(t: string, i: nat, part: string, done: seq<string>)
    requires i < |t| && t[i] == ',' && Scanned(t, i, false, part, done)
    requires part == "" || Expands(part)
    ensures Scanned(t, i + 1, false, "", done + [part])
    ensures Together(done + [part]) == Together(done) + (if part == "" then [] else Hosts(Seen(part).value))
  {
    CommaSplits(t, i, part, done);
    TogetherAppend(done, part);
    assert t[i..][1..] == t[i + 1..];
  }

  lemma CharStays(t: string, i: nat, open: bool, part: string, done: seq<string>)
    requires i < |t| && !(t[i] == ',' && !open) && TopSplit(t, false) == done + Glue(part, TopSplit(t[i..], open))
    ensures TopSplit(t, false) == done + Glue(part + [t[i]], TopSplit(t[i + 1..], After(open, t[i])))
  {
    var c, here, next := t[i], t[i..], t[i + 1..];
    var rest := TopSplit(next, After(open, c));
    assert here[0] == c && here[1..] == next;
    assert TopSplit(here, open) == Glue([c], rest);
    assert part + ([c] + rest[0]) == part + [c] + rest[0];
  }

  lemma ScanChar(t: string, i: nat, open: bool, part: string, done: seq<string>)
    requires i < |t| && Scanned(t, i, open, part, done) && !(t[i] == ',' && !open)
    ensures if t[i] == (if open then '[' else ']') then !ListBalanced(t, false)
            else Scanned(t, i + 1, After(open, t[i]), part + [t[i]], done)
  {
    CharStays(t, i, open, part, done);
    assert t[i..][0] == t[i] && t[i..][1..] == t[i + 1..];
    assert (part + [t[i]])[..|part|] == part;
  }

  lemma ScanEnd(s: string, open: bool, part: string, done: seq<string>)
    requires Scanned(s + ",", |s| + 1, open, part, done)
    ensures ListBalanced(s, false) <==> !open
    ensures !open ==> done == TopSplit(s, false)
  {
    var t := s + ",";
    CommaKeepsBalance(s, false);
    assert t[|s| + 1..] == "" && t[|s|] == ',';
    if !open {
      SplitWithComma(s, false);
      assert TopSplit(t, false) == done + [""];
      assert (done + [""])[..|done|] == done;
      assert (TopSplit(s, false) + [""])[..|done|] == TopSplit(s, false);
    }
  }

  lemma PartBelongs(s: string, part: string)
    requires part in TopSplit(s + ",", false) && part != ""
    ensures ListBalanced(s, false) ==> part in TopSplit(s, false)
  {
    if ListBalanced(s, false) {
      SplitWithComma(s, false);
    }
  }

  /**
   * The character scan: parts are cut off at commas outside brackets and
   * expanded one by one.  It succeeds exactly on balanced, un-nested
   * expressions whose parts all expand within the limit.
   */
  method ExpandHostlist(hostlist: string, allowDuplicates: bool) returns (r: Result<seq<string>, Bad>)
    ensures r.Ok? <==> ListBalanced(hostlist, false) && AllFit(TopSplit(hostlist, false))
    ensures r.Ok? ==> r.value == if allowDuplicates then Together(TopSplit(hostlist, false))
                                 else FirstOnes(Together(TopSplit(hostlist, false)))
  {
    var t := hostlist + ",";
    var results, level, part, i := [], 0, "", 0;
    ghost var done: seq<string> := [];
    ScanStart(t);
    while i < |t|
      invariant 0 <= i <= |t| && 0 <= level <= 1
      invariant Scanned(t, i, level == 1, part, done) && results == Together(done)
    {
      var c := t[i];
      if c == ',' && level == 0 {
        ScanPart(t, i, part, done);
        if part != "" {
          var one := ExpandPart(part);
          if one.Err? {
            PartBelongs(hostlist, part);
            return one;
          }
          results := results + one.value;
        }
        ScanCut(t, i, part, done);
        done := done + [part];
        part := "";
      } else {
        ScanChar(t, i, level == 1, part, done);
        CommaKeepsBalance(hostlist, false);
        part := part + [c];
      }
      if c == '[' {
        level := level + 1;
      } else if c == ']' {
        level := level - 1;
      }
      if level > 1 {
        return Err(NestedBrackets);
      } else if level < 0 {
        return Err(UnbalancedBrackets);
      }
      i := i + 1;
    }
    ScanEnd(hostlist, level == 1, part, done);
    if level > 0 {
      return Err(UnbalancedBrackets);
    }
    if !allowDuplicates {
      results := RemoveDuplicates(results);
    }
    return Ok(results);
  }
}
