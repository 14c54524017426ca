/** What a collected text looks like: its brackets hold few ranges, in order. */
module HostNeat {
  import opened Digits
  import opened HostSyntax

  function NumberOf(t: string): nat { if AllDigits(t) then ToInt(t) else 0 }

  /** The first and the last number of a range, as text. */
  function FirstOf(r: string): string { r[..DashAt(r)] }

  function LastOf(r: string): string { if DashAt(r) < |r| then r[DashAt(r) + 1..] else r }

  /** The number that would make the range longer. */
  function FollowerOf(r: string): string { Pad(|FirstOf(r)|, NumberOf(LastOf(r)) + 1) }

  /** No range goes on where an earlier one stops, and the ranges ascend. */
  ghost predicate NeatPair(a: string, b: string) {
    FollowerOf(a) != FirstOf(b) && NumberOf(FirstOf(a)) <= NumberOf(FirstOf(b))
  }

  /** A range with a dash has more than one number. */
  ghost predicate NeatRange(r: string) { DashAt(r) < |r| ==> NumberOf(FirstOf(r)) < NumberOf(LastOf(r)) }

  /** The ranges of a bracket; a single number needs no bracket. */
  ghost predicate NeatRanges(rs: seq<string>) {
    && (forall r | r in rs :: NeatRange(r))
    && (|rs| == 1 ==> DashAt(rs[0]) < |rs[0]|)
    && forall i, j | 0 <= i < j < |rs| :: NeatPair(rs[i], rs[j])
  }

  /** An opening and a closing bracket with no other between them. */
  ghost predicate BracketAt(x: string, i: nat, j: nat) {
    i < j < |x| && x[i] == '[' && x[j] == ']' && NoBrackets(x[i + 1..j])
  }

  /** Every bracket of a text is neat. */
  ghost predicate Neat(x: string) {
    forall i: nat, j: nat | BracketAt(x, i, j) :: NeatRanges(SplitComma(x[i + 1..j]))
  }

  lemma NeatPlain(x: string)
    requires Plain(x)
    ensures Neat(x)
  {
    forall i: nat, j: nat | i < |x| ensures !BracketAt(x, i, j) {
      assert x[i] in x;
    }
  }

  lemma BracketBehind(t: string, s: string, i: nat, j: nat)
    requires BracketAt(t + s, i, j) && |t| <= i
    ensures BracketAt(s, i - |t|, j - |t|) && (t + s)[i + 1..j] == s[i - |t| + 1..j - |t|]
  {
    assert (t + s)[i + 1..j] == s[i - |t| + 1..j - |t|];
  }

  lemma NeatBehind(t: string, s: string)
    requires Plain(t) && Neat(s)
    ensures Neat(t + s)
  {
    var x := t + s;
    assert forall k | 0 <= k < |t| :: x[k] == t[k] && t[k] in t;
    forall i: nat, j: nat | BracketAt(x, i, j) ensures NeatRanges(SplitComma(x[i + 1..j])) {
      BracketBehind(t, s, i, j);
    }
  }

  /** In front of a text, a bracket is closed by its own closing bracket. */
  lemma FirstBracket(body: string, s: string, x: string, i: nat, j: nat)
    requires NoBrackets(body) && x == "[" + body + "]" + s && BracketAt(x, i, j) && i < |body| + 2
    ensures i == 0 && j == |body| + 1 && x[1..j] == body
  {
    var k := |body| + 1;
    assert x[k] == ']' && forall n | 1 <= n < k :: x[n] == body[n - 1] && body[n - 1] in body;
    assert i == 0 && forall n | 1 <= n < j :: x[n] in x[1..j];
  }

  lemma NeatBracket(body: string, s: string)
    requires NoBrackets(body) && NeatRanges(SplitComma(body)) && Neat(s)
    ensures Neat("[" + body + "]" + s)
  {
    var t := "[" + body + "]";
    var x := t + s;
    forall i: nat, j: nat | BracketAt(x, i, j) ensures NeatRanges(SplitComma(x[i + 1..j])) {
      if i < |t| {
        FirstBracket(body, s, x, i, j);
      } else {
        BracketBehind(t, s, i, j);
      }
    }
  }
}
