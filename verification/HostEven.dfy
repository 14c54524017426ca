/** Hosts that one text stands for all have as many numbers as the text. */
module HostEven {
  import opened Prelude
  import opened Digits
  import opened HostSyntax
  import opened HostTokens
  import opened HostDenote

  ghost predicate Even(s: string) { forall h | h in Hosts(s) :: Count(h) == Count(s) }

  /** What a number or a bracket may be put in front of. */
  ghost predicate EvenSuffix(s: string) {
    Even(s) && !StartsWithDigit(s) && forall h | h in Hosts(s) :: !StartsWithDigit(h)
  }

  lemma {:induction false} InPrefixed(t: string, l: seq<string>, h: string) returns (x: string)
    requires h in Prefixed(t, l)
    ensures x in l && h == t + x
  {
    if h == t + l[0] {
      x := l[0];
    } else {
      x := InPrefixed(t, l[1..], h);
    }
  }

  lemma {:induction false} InCross(us: seq<string>, rest: seq<string>, h: string) returns (u: string, x: string)
    requires h in Cross(us, rest)
    ensures u in us && x in rest && h == u + x
  {
    if h in Prefixed(us[0], rest) {
      u := us[0];
      x := InPrefixed(us[0], rest, h);
    } else {
      u, x := InCross(us[1..], rest, h);
    }
  }

  lemma HostsBehind(t: string, s: string)
    requires Plain(t) && Balanced(s, false)
    ensures Hosts(t + s) == Prefixed(t, Hosts(s))
  {
    PlainExpansion(t, s);
  }

  lemma PlainHosts(t: string)
    requires Plain(t)
    ensures Meaningful(t) && Hosts(t) == [t]
  {
    PlainAlone(t);
  }

  lemma EvenPlain(t: string)
    requires Plain(t)
    ensures Even(t)
  {
    PlainHosts(t);
  }

  /** Text may be put in front as long as no digit meets a digit. */
  lemma EvenBehind(t: string, s: string)
    requires Plain(t) && Balanced(s, false) && Even(s) && (EndsInDigit(t) ==> s == "")
    ensures Even(t + s)
  {
    if s == "" {
      assert t + s == t;
      EvenPlain(t);
    } else {
      HostsBehind(t, s);
      TokensAdd(t, s, false);
      forall h | h in Hosts(t + s) ensures Count(h) == Count(t + s) {
        var x := InPrefixed(t, Hosts(s), h);
        TokensAdd(t, x, false);
      }
    }
  }

  /** A number in front of an even suffix. */
  lemma EvenNumber(d: string, s: string)
    requires AllDigits(d) && d != "" && Balanced(s, false) && EvenSuffix(s)
    ensures Even(d + s)
  {
    DigitsArePlain(d);
    HostsBehind(d, s);
    NumberInFront(d, s);
    forall h | h in Hosts(d + s) ensures Count(h) == Count(d + s) {
      var x := InPrefixed(d, Hosts(s), h);
      NumberInFront(d, x);
    }
  }

  /** A bracket in front of an even suffix. */
  lemma EvenBracket(body: string, s: string, nums: seq<string>)
    requires NoBrackets(body) && Balanced(s, false) && EvenSuffix(s) && RangesMeaning(SplitComma(body)) == Ok(nums)
    requires forall d | d in nums :: AllDigits(d) && d != ""
    ensures Even("[" + body + "]" + s)
  {
    var w := "[" + body + "]" + s;
    BracketExpansion(body, s);
    BracketInFront(body, s);
    forall h | h in Hosts(w) ensures Count(h) == Count(w) {
      var d, x := InCross(nums, Hosts(s), h);
      NumberInFront(d, x);
    }
  }

  /** The suffix split off with a number: text without digits, then what was moved before. */
  lemma EvenTail(tail: string, right: string)
    requires Plain(tail) && NoDigit(tail) && Balanced(right, false) && Even(right) && (tail == "" ==> right == "")
    ensures EvenSuffix(tail + right)
  {
    if tail == "" {
      assert tail + right == "";
      PlainHosts("");
    } else {
      assert tail[0] in tail && tail[|tail| - 1] in tail;
      EvenBehind(tail, right);
      HostsBehind(tail, right);
      forall h | h in Hosts(tail + right) ensures !StartsWithDigit(h) {
        var x := InPrefixed(tail, Hosts(right), h);
        assert h[0] == tail[0];
      }
    }
  }
}
