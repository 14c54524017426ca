/** Hostlist expressions and what they stand for, without any limit on size. */
module HostSyntax {
  import opened Prelude
  import opened Digits

  datatype Bad =
    | ForbiddenCharacter | NestedBrackets | UnbalancedBrackets
    | ResultsTooLarge | BadRange | StartAfterStop | RangeTooLarge
    | RecursionLimit | NoMatch | Incomparable

  predicate PlainChar(c: char) { c != '[' && c != ']' && c != ',' }

  predicate Plain(s: string) { forall c | c in s :: PlainChar(c) }

  /** One part of an expression: brackets closed and not nested, commas only inside brackets. */
  predicate Balanced(s: string, open: bool) {
    if s == "" then !open
    else if open then
      if s[0] == ']' then Balanced(s[1..], false) else s[0] != '[' && Balanced(s[1..], true)
    else
      s[0] != ',' && s[0] != ']' && Balanced(s[1..], s[0] == '[')
  }

  // Lists of strings

  function Prefixed(t: string, l: seq<string>): seq<string> {
    if l == [] then [] else [t + l[0]] + Prefixed(t, l[1..])
  }

  /** Every element of `us` followed by every element of `rest`, in that order. */
  function Cross(us: seq<string>, rest: seq<string>): seq<string> {
    if us == [] then [] else Prefixed(us[0], rest) + Cross(us[1..], rest)
  }

  lemma {:induction false} PrefixedNothing(l: seq<string>)
    ensures Prefixed("", l) == l
  {
    if l != [] {
      assert l == [l[0]] + l[1..] && "" + l[0] == l[0];
      PrefixedNothing(l[1..]);
    }
  }

  lemma {:induction false} PrefixedTwice(a: string, b: string, l: seq<string>)
    ensures Prefixed(a, Prefixed(b, l)) == Prefixed(a + b, l)
  {
    if l != [] {
      assert Prefixed(b, l)[1..] == Prefixed(b, l[1..]);
      assert a + (b + l[0]) == a + b + l[0];
      PrefixedTwice(a, b, l[1..]);
    }
  }

  lemma {:induction false} PrefixedAppend(t: string, a: seq<string>, b: seq<string>)
    ensures Prefixed(t, a + b) == Prefixed(t, a) + Prefixed(t, b)
  {
    if a == [] {
      assert a + b == b;
    } else {
      assert (a + b)[1..] == a[1..] + b;
      PrefixedAppend(t, a[1..], b);
    }
  }

  lemma {:induction false} CrossAppend(a: seq<string>, b: seq<string>, rest: seq<string>)
    ensures Cross(a + b, rest) == Cross(a, rest) + Cross(b, rest)
  {
    if a == [] {
      assert a + b == b;
    } else {
      assert (a + b)[1..] == a[1..] + b;
      CrossAppend(a[1..], b, rest);
    }
  }

  lemma {:induction false} CrossPrefixed(t: string, us: seq<string>, rest: seq<string>)
    ensures Cross(Prefixed(t, us), rest) == Prefixed(t, Cross(us, rest))
  {
    if us != [] {
      assert Prefixed(t, us)[1..] == Prefixed(t, us[1..]);
      PrefixedTwice(t, us[0], rest);
      PrefixedAppend(t, Prefixed(us[0], rest), Cross(us[1..], rest));
      CrossPrefixed(t, us[1..], rest);
    }
  }

  lemma {:induction false} PrefixedAt(t: string, l: seq<string>, i: nat)
    requires i < |l|
    ensures |Prefixed(t, l)| == |l| && Prefixed(t, l)[i] == t + l[i]
  {
    if i > 0 {
      PrefixedAt(t, l[1..], i - 1);
    } else if |l| > 1 {
      PrefixedAt(t, l[1..], 0);
    }
  }

  lemma {:induction false} CrossSize(us: seq<string>, rest: seq<string>)
    ensures |Cross(us, rest)| == |us| * |rest|
  {
    if us != [] {
      CrossSize(us[1..], rest);
      PrefixedSize(us[0], rest);
      assert |us| * |rest| == |us[1..]| * |rest| + |rest|;
    }
  }

  /** The elements of `rest` vary fastest. */
  lemma {:induction false} CrossAt(us: seq<string>, rest: seq<string>, i: nat, j: nat)
    requires i < |us| && j < |rest|
    ensures i * |rest| + j < |Cross(us, rest)| && Cross(us, rest)[i * |rest| + j] == us[i] + rest[j]
  {
    CrossSize(us, rest);
    PrefixedAt(us[0], rest, j);
    if i > 0 {
      CrossAt(us[1..], rest, i - 1, j);
      assert i * |rest| == (i - 1) * |rest| + |rest|;
    }
    assert Cross(us, rest) == Prefixed(us[0], rest) + Cross(us[1..], rest);
  }

  lemma {:induction false} PrefixedSize(t: string, l: seq<string>)
    ensures |Prefixed(t, l)| == |l|
  {
    if l != [] {
      PrefixedSize(t, l[1..]);
    }
  }

  // Ranges

  function Numbers(low: nat, high: int, width: nat): seq<string>
    decreases high - low
  {
    if high < low then [] else [Pad(width, low)] + Numbers(low + 1, high, width)
  }

  /** Every number from `low` to `high`, in order, zero-padded to the width. */
  lemma {:induction false} NumbersAt(low: nat, high: int, width: nat, i: nat)
    requires low + i <= high
    ensures |Numbers(low, high, width)| == high - low + 1 && Numbers(low, high, width)[i] == Pad(width, low + i)
    decreases high - low
  {
    if low < high {
      NumbersAt(low + 1, high, width, if i > 0 then i - 1 else 0);
    } else {
      assert Numbers(low + 1, high, width) == [];
    }
  }

  function DashAt(r: string): (k: nat)
    ensures k <= |r|
    ensures k < |r| ==> r[k] == '-'
    ensures forall i | 0 <= i < k :: r[i] != '-'
  {
    if r == "" || r[0] == '-' then 0 else 1 + DashAt(r[1..])
  }

  /** The text is two numbers with a dash between them. */
  predicate IsSpan(r: string) {
    var k := DashAt(r);
    0 < k < |r| - 1 && AllDigits(r[..k]) && AllDigits(r[k + 1..])
  }

  /** What an end-of-line anchor lets through: a newline at the very end does not count. */
  function Chomp(r: string): string { if r != "" && r[|r| - 1] == '\n' then r[..|r| - 1] else r }

  /** A number stands for itself, a span for every number in it, all as wide as its lower end. */
  function RangeMeaning(r: string): Result<seq<string>, Bad> {
    var c := Chomp(r);
    if c != "" && AllDigits(c) then Ok([r])
    else if !IsSpan(c) then Err(BadRange)
    else
      var k := DashAt(c);
      var low, high := ToInt(c[..k]), ToInt(c[k + 1..]);
      if high < low then Err(StartAfterStop) else Ok(Numbers(low, high, k))
  }

  function RangesMeaning(rs: seq<string>): Result<seq<string>, Bad> {
    if rs == [] then Ok([])
    else
      var first := RangeMeaning(rs[0]);
      if first.Err? then first
      else
        var more := RangesMeaning(rs[1..]);
        if more.Err? then more else Ok(first.value + more.value)
  }

  /** Text between commas. */
  function SplitComma(s: string): (parts: seq<string>)
    ensures parts != []
  {
    if s == "" then [""]
    else
      var rest := SplitComma(s[1..]);
      if s[0] == ',' then [""] + rest else [[s[0]] + rest[0]] + rest[1..]
  }

  function Join(parts: seq<string>): string {
    if parts == [] then "" else if |parts| == 1 then parts[0] else parts[0] + "," + Join(parts[1..])
  }

  // Parts

  /** Where the next closing bracket is, if there is one. */
  function CloseAt(s: string): (k: nat)
    ensures k <= |s|
  {
    if s == "" || s[0] == ']' then 0 else 1 + CloseAt(s[1..])
  }

  lemma {:induction false} CloseFacts(s: string)
    requires Balanced(s, true)
    ensures CloseAt(s) < |s| && s[CloseAt(s)] == ']' && Balanced(s[CloseAt(s) + 1..], false)
    ensures NoBrackets(s[..CloseAt(s)])
  {
    if s[0] != ']' {
      CloseFacts(s[1..]);
      var k := CloseAt(s[1..]);
      assert s[k + 2..] == s[1..][k + 1..] && s[..k + 1] == [s[0]] + s[1..][..k];
    }
  }

  /** What one part stands for: plain text is kept, a bracket gives each of its numbers in turn. */
  function Expansion(s: string): Result<seq<string>, Bad>
    requires Balanced(s, false)
  {
    if s == "" then Ok([""])
    else if s[0] != '[' then
      var r := Expansion(s[1..]);
      if r.Err? then r else Ok(Prefixed([s[0]], r.value))
    else
      CloseFacts(s[1..]);
      var k := CloseAt(s[1..]);
      var rest := Expansion(s[1..][k + 1..]);
      var nums := RangesMeaning(SplitComma(s[1..][..k]));
      if rest.Err? then rest else if nums.Err? then nums else Ok(Cross(nums.value, rest.value))
  }

  lemma {:induction false} PlainBalanced(t: string, s: string)
    requires Plain(t)
    ensures Balanced(t + s, false) <==> Balanced(s, false)
  {
    if t == "" {
      assert t + s == s;
    } else {
      assert (t + s)[1..] == t[1..] + s && t[0] in t;
      PlainBalanced(t[1..], s);
    }
  }

  /** Plain text in front of a part is put in front of everything it stands for. */
  lemma {:induction false} PlainExpansion(t: string, s: string)
    requires Plain(t) && Balanced(s, false)
    ensures Balanced(t + s, false)
    ensures Expansion(t + s) == if Expansion(s).Err? then Expansion(s) else Ok(Prefixed(t, Expansion(s).value))
  {
    PlainBalanced(t, s);
    if t == "" {
      assert t + s == s;
      if Expansion(s).Ok? {
        PrefixedNothing(Expansion(s).value);
      }
    } else {
      assert (t + s)[1..] == t[1..] + s && t[0] in t && (t + s)[0] == t[0];
      PlainExpansion(t[1..], s);
      if Expansion(s).Ok? {
        PrefixedTwice([t[0]], t[1..], Expansion(s).value);
        assert [t[0]] + t[1..] == t;
      }
    }
  }

  lemma PlainAlone(t: string)
    requires Plain(t)
    ensures Balanced(t, false) && Expansion(t) == Ok([t])
  {
    PlainExpansion(t, "");
    var one := [""];
    assert Expansion("") == Ok(one);
    assert t + "" == t;
    assert Prefixed(t, one) == [t] by {
      assert one[1..] == [] && Prefixed(t, one) == [t + ""] + Prefixed(t, one[1..]);
    }
    assert Expansion(t + "") == Ok(Prefixed(t, one));
  }

  ghost predicate NoBrackets(s: string) { forall c | c in s :: c != '[' && c != ']' }

  lemma CutAtClose(u: string, k: nat)
    requires k < |u| && u[k] == ']'
    ensures u == u[..k] + "]" + u[k + 1..]
  {
  }

  lemma {:induction false} BracketParts(u: string)
    requires Balanced(u, true)
    ensures CloseAt(u) < |u| && NoBrackets(u[..CloseAt(u)]) && Balanced(u[CloseAt(u) + 1..], false)
    ensures u == u[..CloseAt(u)] + "]" + u[CloseAt(u) + 1..]
  {
    CloseFacts(u);
    CutAtClose(u, CloseAt(u));
  }

  lemma Glued(s: string, p: nat, u: string, body: string, rest: string)
    requires p < |s| && s[p] == '[' && u == s[p + 1..] == body + "]" + rest
    ensures s == s[..p] + ("[" + body + "]" + rest) && s[p..] == ['['] + u
  {
    assert s == s[..p] + s[p..] && s[p..] == "[" + u;
  }

  lemma {:induction false} BracketBalanced(body: string, s: string)
    requires NoBrackets(body) && Balanced(s, false)
    ensures Balanced(body + "]" + s, true) && CloseAt(body + "]" + s) == |body|
  {
    var w := body + "]" + s;
    if body == "" {
      assert w[0] == ']' && w[1..] == s;
    } else {
      assert w[1..] == body[1..] + "]" + s && w[0] == body[0] && body[0] in body;
      assert forall c | c in body[1..] :: c in body;
      BracketBalanced(body[1..], s);
    }
  }

  lemma BracketSlices(body: string, s: string)
    ensures var w, u := "[" + body + "]" + s, body + "]" + s;
            w[0] == '[' && w[1..] == u && u[..|body|] == body && u[|body| + 1..] == s
  {
    var w, u := "[" + body + "]" + s, body + "]" + s;
    assert w == "[" + u;
  }

  lemma OpenedExpansion(w: string, u: string, k: nat, body: string, s: string)
    requires w != "" && w[0] == '[' && w[1..] == u && Balanced(u, true) && k == CloseAt(u) < |u|
    requires u[..k] == body && u[k + 1..] == s
    ensures Balanced(w, false) && Balanced(s, false)
    ensures Expansion(w) == if Expansion(s).Err? then Expansion(s)
                            else if RangesMeaning(SplitComma(body)).Err? then RangesMeaning(SplitComma(body))
                            else Ok(Cross(RangesMeaning(SplitComma(body)).value, Expansion(s).value))
  {
    CloseFacts(u);
  }

  /** A bracket in front of a part multiplies what it stands for. */
  lemma BracketExpansion(body: string, s: string)
    requires NoBrackets(body) && Balanced(s, false)
    ensures Balanced("[" + body + "]" + s, false)
    ensures Expansion("[" + body + "]" + s)
         == if Expansion(s).Err? then Expansion(s)
            else if RangesMeaning(SplitComma(body)).Err? then RangesMeaning(SplitComma(body))
            else Ok(Cross(RangesMeaning(SplitComma(body)).value, Expansion(s).value))
  {
    BracketBalanced(body, s);
    BracketSlices(body, s);
    OpenedExpansion("[" + body + "]" + s, body + "]" + s, |body|, body, s);
  }

  // Joining and splitting

  ghost predicate NoComma(s: string) { ',' !in s }

  lemma {:induction false} SplitPlain(t: string)
    requires NoComma(t)
    ensures SplitComma(t) == [t]
  {
    if t != "" {
      assert t[0] in t && forall c | c in t[1..] :: c in t;
      SplitPlain(t[1..]);
      assert [t[0]] + t[1..] == t;
    }
  }

  lemma {:induction false} SplitFirst(t: string, s: string)
    requires NoComma(t)
    ensures SplitComma(t + "," + s) == [t] + SplitComma(s)
  {
    var w := t + "," + s;
    if t == "" {
      assert w[0] == ',' && w[1..] == s;
    } else {
      assert t[0] in t && forall c | c in t[1..] :: c in t;
      assert w[0] == t[0] && w[1..] == t[1..] + "," + s;
      SplitFirst(t[1..], s);
      assert [t[0]] + t[1..] == t;
      assert ([t[1..]] + SplitComma(s))[1..] == SplitComma(s);
    }
  }

  lemma {:induction false} SplitJoin(parts: seq<string>)
    requires parts != [] && forall p | p in parts :: NoComma(p)
    ensures SplitComma(Join(parts)) == parts
  {
    if |parts| == 1 {
      SplitPlain(parts[0]);
    } else {
      SplitJoin(parts[1..]);
      SplitFirst(parts[0], Join(parts[1..]));
      assert parts == [parts[0]] + parts[1..];
    }
  }

  lemma JoinCons(x: string, l: seq<string>)
    requires l != []
    ensures Join([x] + l) == x + "," + Join(l)
  {
    assert ([x] + l)[1..] == l;
  }

  lemma JoinChar(c: char, l: seq<string>)
    requires l != []
    ensures Join([[c] + l[0]] + l[1..]) == [c] + Join(l)
  {
    var m := [[c] + l[0]] + l[1..];
    assert m[1..] == l[1..];
    if |l| > 1 {
      assert [c] + l[0] + "," + Join(l[1..]) == [c] + (l[0] + "," + Join(l[1..]));
    }
  }

  lemma {:induction false} JoinSplit(s: string)
    ensures Join(SplitComma(s)) == s
  {
    if s != "" {
      var rest := SplitComma(s[1..]);
      JoinSplit(s[1..]);
      if s[0] == ',' {
        JoinCons("", rest);
        assert "" + "," + s[1..] == s;
      } else {
        JoinChar(s[0], rest);
        assert s == [s[0]] + s[1..];
      }
    }
  }

  lemma {:induction false} SplitParts(s: string)
    ensures forall p | p in SplitComma(s) :: NoComma(p) && (forall c | c in p :: c in s)
  {
    if s != "" {
      var rest := SplitComma(s[1..]);
      SplitParts(s[1..]);
      assert rest[0] in rest;
    }
  }

  // The grammar of a part, and the ordered product it stands for

  /** Plain text followed by a bracketed list of ranges. */
  datatype Group = Group(text: string, ranges: seq<string>)

  function ShowGroups(gs: seq<Group>, tail: string): string {
    if gs == [] then tail
    else gs[0].text + ("[" + Join(gs[0].ranges) + "]" + ShowGroups(gs[1..], tail))
  }

  ghost predicate GoodGroup(g: Group) {
    Plain(g.text) && g.ranges != [] && forall r | r in g.ranges :: Plain(r)
  }

  ghost predicate GoodGroups(gs: seq<Group>, tail: string) {
    Plain(tail) && forall g | g in gs :: GoodGroup(g)
  }

  /** The ordered Cartesian product of the groups' numbers, with the text between them. */
  function Product(gs: seq<Group>, tail: string): seq<string>
    requires forall g | g in gs :: RangesMeaning(g.ranges).Ok?
  {
    if gs == [] then [tail]
    else
      assert gs[0] in gs;
      Prefixed(gs[0].text, Cross(RangesMeaning(gs[0].ranges).value, Product(gs[1..], tail)))
  }

  function ProductSize(gs: seq<Group>): nat
    requires forall g | g in gs :: RangesMeaning(g.ranges).Ok?
  {
    if gs == [] then 1
    else
      assert gs[0] in gs;
      |RangesMeaning(gs[0].ranges).value| * ProductSize(gs[1..])
  }

  lemma {:induction false} ProductLength(gs: seq<Group>, tail: string)
    requires forall g | g in gs :: RangesMeaning(g.ranges).Ok?
    ensures |Product(gs, tail)| == ProductSize(gs)
  {
    if gs != [] {
      assert gs[0] in gs;
      var nums, rest := RangesMeaning(gs[0].ranges).value, Product(gs[1..], tail);
      ProductLength(gs[1..], tail);
      CrossSize(nums, rest);
      PrefixedSize(gs[0].text, Cross(nums, rest));
    }
  }

  lemma {:induction false} JoinHasNoBrackets(parts: seq<string>)
    requires forall p | p in parts :: Plain(p)
    ensures NoBrackets(Join(parts))
  {
    if |parts| == 1 {
      assert parts[0] in parts;
    } else if |parts| > 1 {
      assert parts[0] in parts;
      JoinHasNoBrackets(parts[1..]);
    }
  }

  /** A printed part stands for the ordered product of its range lists. */
  lemma {:induction false} GroupsMeanProduct(gs: seq<Group>, tail: string)
    requires GoodGroups(gs, tail)
    ensures Balanced(ShowGroups(gs, tail), false)
    ensures Expansion(ShowGroups(gs, tail)).Ok? <==> forall g | g in gs :: RangesMeaning(g.ranges).Ok?
    ensures Expansion(ShowGroups(gs, tail)).Ok? ==> Expansion(ShowGroups(gs, tail)) == Ok(Product(gs, tail))
  {
    if gs == [] {
      PlainAlone(tail);
    } else {
      var g, rest := gs[0], ShowGroups(gs[1..], tail);
      assert GoodGroup(g) && forall h :: h in gs <==> h == g || h in gs[1..];
      GroupsMeanProduct(gs[1..], tail);
      JoinHasNoBrackets(g.ranges);
      forall r | r in g.ranges ensures NoComma(r) {
        assert Plain(r);
      }
      SplitJoin(g.ranges);
      BracketExpansion(Join(g.ranges), rest);
      PlainExpansion(g.text, "[" + Join(g.ranges) + "]" + rest);
    }
  }

  lemma PrependChar(c: char, gs: seq<Group>, tail: string) returns (hs: seq<Group>, end: string)
    requires PlainChar(c) && GoodGroups(gs, tail)
    ensures GoodGroups(hs, end) && ShowGroups(hs, end) == [c] + ShowGroups(gs, tail)
  {
    if gs == [] {
      hs, end := [], [c] + tail;
    } else {
      var first := Group([c] + gs[0].text, gs[0].ranges);
      assert GoodGroup(gs[0]);
      hs, end := [first] + gs[1..], tail;
      assert hs[1..] == gs[1..];
      var rest := "[" + Join(gs[0].ranges) + "]" + ShowGroups(gs[1..], tail);
      assert ShowGroups(gs, tail) == gs[0].text + rest;
      assert [c] + gs[0].text + rest == [c] + (gs[0].text + rest);
      assert forall h | h in hs :: h == first || h in gs;
    }
  }

  lemma PrependBracket(body: string, gs: seq<Group>, tail: string) returns (hs: seq<Group>)
    requires NoBrackets(body) && GoodGroups(gs, tail)
    ensures GoodGroups(hs, tail) && ShowGroups(hs, tail) == "[" + body + "]" + ShowGroups(gs, tail)
  {
    JoinSplit(body);
    SplitParts(body);
    var g := Group("", SplitComma(body));
    hs := [g] + gs;
    assert hs[1..] == gs;
    assert "" + ("[" + body + "]" + ShowGroups(gs, tail)) == "[" + body + "]" + ShowGroups(gs, tail);
  }

  /** Every part with closed, un-nested brackets is a printed one. */
  lemma {:induction false} PartsAreGroups(s: string) returns (gs: seq<Group>, tail: string)
    requires Balanced(s, false)
    ensures GoodGroups(gs, tail) && ShowGroups(gs, tail) == s
  {
    if s == "" {
      gs, tail := [], "";
    } else if s[0] != '[' {
      gs, tail := PartsAreGroups(s[1..]);
      gs, tail := PrependChar(s[0], gs, tail);
      assert s == [s[0]] + s[1..];
    } else {
      var u := s[1..];
      BracketParts(u);
      var k := CloseAt(u);
      gs, tail := PartsAreGroups(u[k + 1..]);
      gs := PrependBracket(u[..k], gs, tail);
      Glued(s, 0, u, u[..k], u[k + 1..]);
      assert s[..0] == "" && "" + ("[" + u[..k] + "]" + u[k + 1..]) == "[" + u[..k] + "]" + u[k + 1..];
    }
  }
}
