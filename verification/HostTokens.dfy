/**
 * How collection takes host names apart: each round splits off the
 * rightmost number, and the numbers already moved to the right are counted.
 */
module HostTokens {
  import opened Prelude
  import opened Digits
  import opened HostSyntax

  /** The left part is still to be analysed, the right part is only copied. */
  datatype Entry = Entry(left: string, right: string)

  /** One line of the sort list; a host without a number to the left has no suffix. */
  datatype Item = Item(prefix: string, suffix: Option<string>, num: nat, width: nat, host: string)

  predicate NoDigit(s: string) { forall c | c in s :: !IsDigit(c) }

  predicate EndsInDigit(s: string) { s != "" && IsDigit(s[|s| - 1]) }

  predicate StartsWithDigit(s: string) { s != "" && IsDigit(s[0]) }

  /** Where the trailing text without digits begins. */
  function TailAt(s: string): (k: nat)
    ensures k <= |s| && NoDigit(s[k..]) && (k > 0 ==> EndsInDigit(s[..k]))
    ensures k == 0 <==> NoDigit(s)
  {
    if s == "" || IsDigit(s[|s| - 1]) then
      assert s == "" || s[|s| - 1] in s;
      |s|
    else
      var k := TailAt(s[..|s| - 1]);
      assert s == s[..|s| - 1] + [s[|s| - 1]];
      assert s[k..] == s[..|s| - 1][k..] + [s[|s| - 1]] && s[..|s| - 1][..k] == s[..k];
      k
  }

  /** Where the digits at the end begin. */
  function RunAt(s: string): (k: nat)
    ensures k <= |s| && AllDigits(s[k..]) && !EndsInDigit(s[..k])
    ensures EndsInDigit(s) ==> k < |s|
  {
    if !EndsInDigit(s) then
      assert s[..|s|] == s;
      |s|
    else
      var k := RunAt(s[..|s| - 1]);
      assert s[k..] == s[..|s| - 1][k..] + [s[|s| - 1]] && s[..|s| - 1][..k] == s[..k];
      k
  }

  /** The text is digits, possibly none, followed by text without digits. */
  ghost predicate DigitsThenText(t: string) {
    exists m | 0 <= m <= |t| :: AllDigits(t[..m]) && NoDigit(t[m..])
  }

  lemma TextThenDigit(s: string, a: nat, b: nat)
    requires a < b < |s| && !IsDigit(s[a]) && IsDigit(s[b])
    ensures !DigitsThenText(s)
  {
    forall m | 0 <= m <= |s| ensures !(AllDigits(s[..m]) && NoDigit(s[m..])) {
      assert a < m ==> s[..m][a] in s[..m];
      assert m <= b ==> s[m..][b - m] in s[m..];
    }
  }

  /**
   * The split is the one the lazy regular expression finds: the shortest
   * prefix after which only one number and text without digits follow.
   */
  lemma ShortestPrefix(left: string)
    requires !NoDigit(left)
    ensures var t := TailAt(left); var p := RunAt(left[..t]);
            && p < t && AllDigits(left[p..t]) && NoDigit(left[t..])
            && DigitsThenText(left[p..])
            && forall q | 0 <= q < p :: !DigitsThenText(left[q..])
  {
    var t := TailAt(left);
    var p := RunAt(left[..t]);
    assert left[..t][p..] == left[p..t];
    assert left[p..][..t - p] == left[p..t] && left[p..][t - p..] == left[t..];
    forall q | 0 <= q < p ensures !DigitsThenText(left[q..]) {
      assert left[..t][..p][p - 1] == left[q..][p - 1 - q] && left[..t][t - 1] == left[q..][t - 1 - q];
      TextThenDigit(left[q..], p - 1 - q, t - 1 - q);
    }
  }

  /** The expression does not match: its prefix would have to run over a newline. */
  predicate Unmatched(left: string) {
    var t := TailAt(left);
    t > 0 && '\n' in left[..RunAt(left[..t])]
  }

  /** No match exactly if no prefix of one line can be split off. */
  lemma UnmatchedIff(left: string)
    ensures Unmatched(left) <==> !exists p | 0 <= p <= |left| :: '\n' !in left[..p] && DigitsThenText(left[p..])
  {
    var t := TailAt(left);
    if t == 0 {
      assert left[0..] == left && left[..0] == "" && DigitsThenText(left);
      assert '\n' !in left[..0] && DigitsThenText(left[0..]);
    } else {
      var p := RunAt(left[..t]);
      ShortestPrefix(left);
      if i :| 0 <= i < p && left[i] == '\n' {
        forall q | 0 <= q <= |left| ensures !('\n' !in left[..q] && DigitsThenText(left[q..])) {
          assert q >= p ==> left[..q][i] in left[..q];
        }
      }
    }
  }

  /** And that is if a digit follows a newline. */
  lemma UnmatchedIfBroken(left: string)
    ensures Unmatched(left) <==> exists i, j | 0 <= i < j < |left| :: left[i] == '\n' && IsDigit(left[j])
  {
    var t := TailAt(left);
    if t == 0 {
      assert forall j | 0 <= j < |left| :: left[j] in left;
    } else {
      var p := RunAt(left[..t]);
      assert left[..t][p..] == left[p..t] && left[..t][t - 1] == left[t - 1];
      if i :| 0 <= i < p && left[i] == '\n' {
        assert left[i] == '\n' && IsDigit(left[t - 1]);
      } else {
        assert forall j | t <= j < |left| :: left[j] in left[t..];
        assert forall i | p <= i < t :: left[i] in left[p..t];
      }
    }
  }

  lemma DigitBehindNewline()
    ensures Unmatched("a\n1")
  {
    var s := "a\n1";
    assert s[1] == '\n' && IsDigit(s[2]);
    UnmatchedIfBroken(s);
  }

  function Prepare(e: Entry): Item {
    var host := e.left + e.right;
    var t := TailAt(e.left);
    if t == 0 then Item(host, None, 0, 0, host)
    else
      var p := RunAt(e.left[..t]);
      assert e.left[..t][p..] == e.left[p..t];
      Item(e.left[..p], Some(e.left[t..] + e.right), ToInt(e.left[p..t]), t - p, host)
  }

  // Counting numbers and brackets

  /** Runs of digits outside brackets, plus brackets; `prev` says whether a digit came just before. */
  ghost function Tokens(s: string, prev: bool, inside: bool): nat {
    if s == "" then 0
    else if inside then Tokens(s[1..], false, s[0] != ']')
    else if s[0] == '[' then 1 + Tokens(s[1..], false, true)
    else (if IsDigit(s[0]) && !prev then 1 else 0) + Tokens(s[1..], IsDigit(s[0]), false)
  }

  ghost function Count(s: string): nat { Tokens(s, false, false) }

  lemma {:induction false} TokensAdd(m: string, s: string, prev: bool)
    requires Plain(m)
    requires StartsWithDigit(s) ==> if m == "" then !prev else !EndsInDigit(m)
    ensures Tokens(m + s, prev, false) == Tokens(m, prev, false) + Count(s)
  {
    var w := m + s;
    if m == "" {
      assert w == s;
    } else {
      assert m[0] in m && w[0] == m[0] && w[1..] == m[1..] + s;
      assert forall c | c in m[1..] :: c in m;
      TokensAdd(m[1..], s, IsDigit(m[0]));
    }
  }

  lemma {:induction false} TokensOfText(m: string, prev: bool)
    requires Plain(m)
    ensures NoDigit(m) ==> Tokens(m, prev, false) == 0
    ensures !NoDigit(m) && !prev ==> Tokens(m, prev, false) >= 1
  {
    if m != "" {
      assert m[0] in m && forall c | c in m[1..] :: c in m;
      assert forall c | c in m :: c == m[0] || c in m[1..];
      TokensOfText(m[1..], IsDigit(m[0]));
    }
  }

  lemma {:induction false} TokensOfNumber(d: string, prev: bool)
    requires AllDigits(d)
    ensures Tokens(d, prev, false) == if d == "" || prev then 0 else 1
  {
    if d != "" {
      assert d[0] in d && forall c | c in d[1..] :: c in d;
      TokensOfNumber(d[1..], true);
    }
  }

  lemma {:induction false} TokensInside(body: string, s: string)
    requires NoBrackets(body)
    ensures Tokens(body + "]" + s, false, true) == Count(s)
  {
    var w := body + "]" + s;
    if body == "" {
      assert w[0] == ']' && w[1..] == s;
    } else {
      assert body[0] in body && w[0] == body[0] && w[1..] == body[1..] + "]" + s;
      assert forall c | c in body[1..] :: c in body;
      TokensInside(body[1..], s);
    }
  }

  lemma DigitsArePlain(d: string)
    requires AllDigits(d)
    ensures Plain(d) && NoBrackets(d) && NoComma(d) && '-' !in d
  {
    forall c | c in d ensures PlainChar(c) && c != '-' {
      assert IsDigit(c);
    }
  }

  lemma NumberInFront(d: string, s: string)
    requires AllDigits(d) && d != "" && !StartsWithDigit(s)
    ensures Count(d + s) == 1 + Count(s)
  {
    DigitsArePlain(d);
    TokensAdd(d, s, false);
    TokensOfNumber(d, false);
  }

  lemma BracketInFront(body: string, s: string)
    requires NoBrackets(body)
    ensures Count("[" + body + "]" + s) == 1 + Count(s)
  {
    var w := "[" + body + "]" + s;
    assert w[0] == '[' && w[1..] == body + "]" + s;
    TokensInside(body, s);
  }

  // What holds of the lists at round `r`

  /** After `r` rounds every entry still to be analysed has moved exactly `r` numbers to the right. */
  ghost predicate EntryOk(e: Entry, r: nat) {
    && Plain(e.left) && Balanced(e.right, false) && e.left + e.right != ""
    && (r == 0 ==> e.right == "")
    && (r > 0 ==> !EndsInDigit(e.left))
    && if NoDigit(e.left) then Count(e.left + e.right) <= r else Count(e.right) == r
  }

  ghost predicate ItemOk(x: Item, r: nat) {
    && x.host != ""
    && match x.suffix
       case None => x.prefix == x.host && Balanced(x.host, false) && Count(x.host) <= r
       case Some(suffix) =>
         && KeyOk(x.prefix, suffix, r)
         && x.width > 0 && |Pad(x.width, x.num)| == x.width
         && x.host == Host(x.prefix, x.width, x.num, suffix)
  }

  ghost predicate KeyOk(prefix: string, suffix: string, r: nat) {
    && Plain(prefix) && !EndsInDigit(prefix)
    && Balanced(suffix, false) && !StartsWithDigit(suffix) && Count(suffix) == r
  }

  function Host(prefix: string, width: nat, n: nat, suffix: string): string {
    prefix + (Pad(width, n) + suffix)
  }

  lemma PlainEntryBalanced(e: Entry, r: nat)
    requires EntryOk(e, r)
    ensures Balanced(e.left + e.right, false)
  {
    PlainBalanced(e.left, e.right);
  }

  lemma PlainPart(s: string, a: nat, b: nat)
    requires a <= b <= |s| && Plain(s)
    ensures Plain(s[a..b])
  {
    forall c | c in s[a..b] ensures PlainChar(c) {
      assert c in s;
    }
  }

  lemma SuffixOk(left: string, right: string, t: nat, r: nat)
    requires EntryOk(Entry(left, right), r) && t == TailAt(left) && t > 0
    ensures Balanced(left[t..] + right, false) && !StartsWithDigit(left[t..] + right)
    ensures Count(left[t..] + right) == r
  {
    var tail := left[t..];
    assert tail == left[t..|left|];
    PlainPart(left, t, |left|);
    PlainBalanced(tail, right);
    assert forall c | c in tail :: !IsDigit(c);
    if tail == "" {
      assert left[..t] == left && right == "" && tail + right == "";
    } else {
      assert tail[0] in tail && tail[|tail| - 1] in tail;
      TokensAdd(tail, right, false);
      TokensOfText(tail, false);
    }
  }

  lemma NumberOk(left: string, t: nat, p: nat)
    requires p < t <= |left| && AllDigits(left[p..t])
    ensures Pad(t - p, ToInt(left[p..t])) == left[p..t]
  {
    PadRead(left[p..t]);
  }

  lemma FourPieces(left: string, right: string, p: nat, t: nat)
    requires p <= t <= |left|
    ensures left + right == left[..p] + (left[p..t] + (left[t..] + right))
  {
    assert left == left[..p] + left[p..t] + left[t..];
  }

  lemma PrepareOk(e: Entry, r: nat)
    requires EntryOk(e, r)
    ensures ItemOk(Prepare(e), r) && Prepare(e).host == e.left + e.right
  {
    var t := TailAt(e.left);
    if t == 0 {
      PlainEntryBalanced(e, r);
    } else {
      var p := RunAt(e.left[..t]);
      assert e.left[..t][p..] == e.left[p..t] && e.left[..t][..p] == e.left[..p];
      NumberOk(e.left, t, p);
      assert KeyOk(e.left[..p], e.left[t..] + e.right, r) by {
        SuffixOk(e.left, e.right, t, r);
        PlainPart(e.left, 0, p);
        assert e.left[0..p] == e.left[..p];
      }
      FourPieces(e.left, e.right, p, t);
    }
  }

  // A host's number, once split off, is found again

  lemma NotPastTheRun(p: string, d: string, q: string, e: string)
    requires p + d == q + e && AllDigits(d) && !EndsInDigit(q)
    ensures |q| <= |p|
  {
    assert forall k | |p| <= k < |p + d| :: (p + d)[k] in d;
    assert q != "" ==> (q + e)[|q| - 1] == q[|q| - 1];
  }

  lemma LastRunIsUnique(p: string, d: string, q: string, e: string)
    requires p + d == q + e && AllDigits(d) && AllDigits(e) && d != "" && e != ""
    requires !EndsInDigit(p) && !EndsInDigit(q)
    ensures p == q && d == e
  {
    NotPastTheRun(p, d, q, e);
    NotPastTheRun(q, e, p, d);
    assert p == (p + d)[..|p|] && d == (p + d)[|p|..];
    assert q == (q + e)[..|q|] && e == (q + e)[|q|..];
  }

  /** If one of two splits of a string has the shorter suffix, it has split off a later number. */
  lemma ShorterSuffix(m: string, s: string, u: string, t: string)
    requires m + s == u + t && |s| < |t| && Plain(m) && EndsInDigit(m)
    requires !StartsWithDigit(s)
    ensures Count(t) > Count(s)
  {
    var x, k := m + s, |u|;
    var mid := m[k..];
    assert t == x[k..] == mid + s && mid[|mid| - 1] == m[|m| - 1] && mid[|mid| - 1] in mid;
    assert mid == m[k..|m|];
    PlainPart(m, k, |m|);
    TokensAdd(mid, s, false);
    TokensOfText(mid, false);
  }

  lemma HostCount(prefix: string, suffix: string, width: nat, n: nat, r: nat)
    requires KeyOk(prefix, suffix, r)
    ensures var m := prefix + Pad(width, n);
            Plain(m) && EndsInDigit(m) && Host(prefix, width, n, suffix) == m + suffix
    ensures Count(Host(prefix, width, n, suffix)) > r
  {
    var d := Pad(width, n);
    var m := prefix + d;
    DigitsArePlain(d);
    assert d[|d| - 1] in d && m[|m| - 1] == d[|d| - 1] && m[|m| - 1] in m;
    assert Host(prefix, width, n, suffix) == m + suffix;
    TokensAdd(m, suffix, false);
    TokensOfText(m, false);
  }

  /** Every host a range scan can meet belongs to the scanned prefix and suffix. */
  lemma ScanStaysInGroup(prefix: string, suffix: string, width: nat, n: nat, x: Item, r: nat)
    requires KeyOk(prefix, suffix, r) && ItemOk(x, r) && x.host == Host(prefix, width, n, suffix)
    ensures x.prefix == prefix && x.suffix == Some(suffix)
  {
    HostCount(prefix, suffix, width, n, r);
    var m, s := prefix + Pad(width, n), suffix;
    if x.suffix.Some? {
      var t := x.suffix.value;
      HostCount(x.prefix, t, x.width, x.num, r);
      var u := x.prefix + Pad(x.width, x.num);
      if |s| < |t| {
        ShorterSuffix(m, s, u, t);
      } else if |t| < |s| {
        ShorterSuffix(u, t, m, s);
      } else {
        assert m == x.host[..|m|] == u && s == x.host[|m|..] == t;
        LastRunIsUnique(prefix, Pad(width, n), x.prefix, Pad(x.width, x.num));
      }
    }
  }

  /** What a group turns into: its number or bracket moves to the right. */
  lemma MovedRight(prefix: string, token: string, suffix: string, r: nat)
    requires KeyOk(prefix, suffix, r) && Balanced(token + suffix, false) && token != ""
    requires Count(token + suffix) == r + 1
    ensures EntryOk(Entry(prefix, token + suffix), r + 1)
  {
    if NoDigit(prefix) {
      TokensAdd(prefix, token + suffix, false);
      TokensOfText(prefix, false);
    }
  }
}
