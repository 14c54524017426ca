/** Collecting host names into a hostlist expression. */
module HostCollect {
  import opened Prelude
  import opened Digits
  import opened HostSyntax
  import opened HostTokens
  import opened HostSort
  import opened HostDenote
  import opened HostNeat
  import opened HostEven
  import opened HostExpand

  // Ranges

  datatype Span = Span(low: nat, high: nat, width: nat)

  function FormatRange(s: Span): string {
    if s.low == s.high then Pad(s.width, s.low) else Pad(s.width, s.low) + "-" + Pad(s.width, s.high)
  }

  function FormatRanges(l: seq<Span>): (r: seq<string>)
    ensures |r| == |l|
  {
    if l == [] then [] else FormatRanges(l[..|l| - 1]) + [FormatRange(l[|l| - 1])]
  }

  lemma DashAfter(a: string, b: string)
    requires '-' !in a
    ensures DashAt(a) == |a| && DashAt(a + "-" + b) == |a|
  {
    var w := a + "-" + b;
    assert w[|a|] == '-' && forall i | 0 <= i < |a| :: w[i] == a[i] && a[i] in a;
  }

  lemma DigitIsKept(w: string)
    requires w != "" && IsDigit(w[|w| - 1])
    ensures Chomp(w) == w
  {
  }

  lemma SpanMeans(w: string, k: nat, a: string, b: string)
    requires k == DashAt(w) < |w| && w[..k] == a && w[k + 1..] == b && Chomp(w) == w
    requires AllDigits(a) && AllDigits(b) && a != "" && b != "" && ToInt(a) <= ToInt(b)
    ensures RangeMeaning(w) == Ok(Numbers(ToInt(a), ToInt(b), |a|))
  {
    assert w[k] in w && !IsDigit(w[k]);
  }

  /** A newline at the end of a range is let through: it stays with a number and is dropped from a span. */
  lemma NewlineAtEnd(r: string)
    requires r != "" && IsDigit(r[|r| - 1])
    ensures AllDigits(r) ==> RangeMeaning(r + "\n") == Ok([r + "\n"])
    ensures !AllDigits(r) ==> RangeMeaning(r + "\n") == RangeMeaning(r)
  {
    DigitIsKept(r);
    var w := r + "\n";
    assert w[|w| - 1] == '\n' && Chomp(w) == w[..|r|] == r;
  }

  lemma DashedPlain(a: string, b: string)
    requires AllDigits(a) && AllDigits(b)
    ensures Plain(a + "-" + b)
  {
    DigitsArePlain(a);
    DigitsArePlain(b);
  }

  lemma DashedSlices(a: string, b: string, w: string)
    requires AllDigits(b) && b != "" && w == a + "-" + b
    ensures w[..|a|] == a && w[|a| + 1..] == b && IsDigit(w[|w| - 1])
  {
    assert w[|w| - 1] == b[|b| - 1] && b[|b| - 1] in b;
  }

  lemma DashedReadsBack(a: string, b: string)
    requires AllDigits(a) && AllDigits(b) && a != "" && b != "" && ToInt(a) <= ToInt(b)
    ensures RangeMeaning(a + "-" + b) == Ok(Numbers(ToInt(a), ToInt(b), |a|))
  {
    DigitsArePlain(a);
    DashAfter(a, b);
    DashedSlices(a, b, a + "-" + b);
    DigitIsKept(a + "-" + b);
    SpanMeans(a + "-" + b, |a|, a, b);
  }

  /** A range whose lower end fills its width reads back as the numbers it was made from. */
  lemma RangeReadsBack(s: Span)
    requires s.low <= s.high && |Pad(s.width, s.low)| == s.width
    ensures RangeMeaning(FormatRange(s)) == Ok(Numbers(s.low, s.high, s.width))
    ensures Plain(FormatRange(s))
  {
    var a, b := Pad(s.width, s.low), Pad(s.width, s.high);
    if s.low == s.high {
      DigitsArePlain(a);
      assert a[|a| - 1] in a && Chomp(a) == a;
      var none := Numbers(s.low + 1, s.high, s.width);
      assert none == [] && Numbers(s.low, s.high, s.width) == [a] + none == [a];
    } else {
      ReadPad(s.width, s.low);
      ReadPad(s.width, s.high);
      DashedReadsBack(a, b);
      DashedPlain(a, b);
    }
  }

  lemma PadAscii(width: nat, n: nat)
    ensures AllDigits(Pad(width, n)) && '-' !in Pad(width, n) && NumberOf(Pad(width, n)) == n
  {
    DigitsArePlain(Pad(width, n));
    ReadPad(width, n);
  }

  lemma OneNumberShows(a: string)
    requires '-' !in a
    ensures DashAt(a) == |a| && FirstOf(a) == a && LastOf(a) == a
  {
    DashAfter(a, "");
    assert a[..|a|] == a;
  }

  lemma DashedShows(a: string, b: string)
    requires '-' !in a
    ensures var r := a + "-" + b; DashAt(r) < |r| && FirstOf(r) == a && LastOf(r) == b
  {
    DashAfter(a, b);
    var r := a + "-" + b;
    assert r[..|a|] == a && r[|a| + 1..] == b;
  }

  /** What can be read off a formatted range. */
  lemma RangeShows(s: Span)
    requires s.low <= s.high && |Pad(s.width, s.low)| == s.width
    ensures var r := FormatRange(s);
            && FirstOf(r) == Pad(s.width, s.low) && NumberOf(FirstOf(r)) == s.low
            && NumberOf(LastOf(r)) == s.high && FollowerOf(r) == Pad(s.width, s.high + 1)
            && (DashAt(r) < |r| <==> s.low < s.high)
  {
    var a, b, r := Pad(s.width, s.low), Pad(s.width, s.high), FormatRange(s);
    PadAscii(s.width, s.low);
    PadAscii(s.width, s.high);
    if s.low < s.high {
      DashedShows(a, b);
    } else {
      OneNumberShows(a);
    }
  }

  lemma {:induction false} NumbersSnoc(low: nat, high: int, width: nat)
    requires low <= high
    ensures Numbers(low, high, width) == Numbers(low, high - 1, width) + [Pad(width, high)]
    decreases high - low
  {
    if low < high {
      NumbersSnoc(low + 1, high, width);
    } else {
      assert Numbers(low + 1, high, width) == [];
    }
  }

  // One range

  /** The hosts with numbers from `low` up to, not including, `next`. */
  ghost function RunHosts(prefix: string, suffix: string, width: nat, low: nat, next: nat): seq<string> {
    if next <= low then []
    else RunHosts(prefix, suffix, width, low, next - 1) + [Host(prefix, width, next - 1, suffix)]
  }

  lemma {:induction false} RunHostsContents(prefix: string, suffix: string, width: nat, low: nat, next: nat, x: string)
    ensures x in RunHosts(prefix, suffix, width, low, next)
       <==> exists n | low <= n < next :: x == Host(prefix, width, n, suffix)
  {
    if low < next {
      RunHostsContents(prefix, suffix, width, low, next - 1, x);
    }
  }

  lemma HostsDiffer(prefix: string, suffix: string, width: nat, a: nat, b: nat)
    requires a != b
    ensures Host(prefix, width, a, suffix) != Host(prefix, width, b, suffix)
  {
    var x, y := Host(prefix, width, a, suffix), Host(prefix, width, b, suffix);
    if x == y {
      assert Pad(width, a) + suffix == x[|prefix|..] == Pad(width, b) + suffix;
      var w := Pad(width, a) + suffix;
      assert Pad(width, a) == w[..|w| - |suffix|] == Pad(width, b);
      PadInjective(width, a, b);
    }
  }

  lemma OneHost(prefix: string, suffix: string, width: nat, n: nat)
    requires Plain(prefix) && Meaningful(suffix)
    ensures Meaningful(Host(prefix, width, n, suffix))
    ensures Hosts(Host(prefix, width, n, suffix)) == Prefixed(prefix, Prefixed(Pad(width, n), Hosts(suffix)))
  {
    var d := Pad(width, n);
    DigitsArePlain(d);
    PlainExpansion(d, suffix);
    PlainExpansion(prefix, d + suffix);
  }

  /** The numbers of a bracket, with its prefix and suffix around each. */
  ghost function Spread(prefix: string, nums: seq<string>, suffix: string): seq<string> {
    Prefixed(prefix, Cross(nums, Hosts(suffix)))
  }

  lemma SpreadAppend(prefix: string, a: seq<string>, b: seq<string>, suffix: string)
    ensures Spread(prefix, a + b, suffix) == Spread(prefix, a, suffix) + Spread(prefix, b, suffix)
  {
    CrossAppend(a, b, Hosts(suffix));
    PrefixedAppend(prefix, Cross(a, Hosts(suffix)), Cross(b, Hosts(suffix)));
  }

  lemma SpreadOne(prefix: string, d: string, suffix: string)
    ensures Spread(prefix, [d], suffix) == Prefixed(prefix, Prefixed(d, Hosts(suffix)))
  {
    var one := [d];
    assert one[1..] == [] && Cross(one[1..], Hosts(suffix)) == [];
    assert Cross(one, Hosts(suffix)) == Prefixed(d, Hosts(suffix)) + Cross(one[1..], Hosts(suffix))
        == Prefixed(d, Hosts(suffix));
  }

  lemma DenotedOneMore(init: seq<string>, prefix: string, suffix: string, width: nat, n: nat, nums: seq<string>)
    requires Plain(prefix) && Meaningful(suffix) && RunSpread(prefix, suffix, init, nums)
    ensures RunSpread(prefix, suffix, init + [Host(prefix, width, n, suffix)], nums + [Pad(width, n)])
  {
    var host := Host(prefix, width, n, suffix);
    DenotedAppend(init, [host]);
    DenotedOne(host);
    OneHost(prefix, suffix, width, n);
    SpreadOne(prefix, Pad(width, n), suffix);
    SpreadAppend(prefix, nums, [Pad(width, n)], suffix);
  }

  /** The hosts of a run denote what its numbers spread to. */
  ghost predicate RunSpread(prefix: string, suffix: string, run: seq<string>, nums: seq<string>) {
    Denoted(run) == Spread(prefix, nums, suffix)
  }

  lemma {:induction false} RunDenotes(prefix: string, suffix: string, width: nat, low: nat, next: nat)
    requires Plain(prefix) && Meaningful(suffix)
    ensures RunSpread(prefix, suffix, RunHosts(prefix, suffix, width, low, next), Numbers(low, next - 1, width))
  {
    if next <= low {
      SpreadNothing(prefix, suffix);
    } else {
      RunDenotes(prefix, suffix, width, low, next - 1);
      RunDenotesNext(prefix, suffix, width, low, next - 1);
    }
  }

  lemma RunDenotesNext(prefix: string, suffix: string, width: nat, low: nat, n: nat)
    requires Plain(prefix) && Meaningful(suffix) && low <= n
    requires RunSpread(prefix, suffix, RunHosts(prefix, suffix, width, low, n), Numbers(low, n - 1, width))
    ensures RunSpread(prefix, suffix, RunHosts(prefix, suffix, width, low, n + 1), Numbers(low, n, width))
  {
    NumbersSnoc(low, n, width);
    DenotedOneMore(RunHosts(prefix, suffix, width, low, n), prefix, suffix, width, n, Numbers(low, n - 1, width));
  }

  lemma SpreadNothing(prefix: string, suffix: string)
    ensures Spread(prefix, [], suffix) == []
  {
    assert Cross([], Hosts(suffix)) == [];
  }

  // One group

  ghost predicate SpanOk(s: Span) { s.low <= s.high && |Pad(s.width, s.low)| == s.width }

  ghost predicate SpansOk(l: seq<Span>) { forall s | s in l :: SpanOk(s) }

  ghost predicate InGroup(x: string, prefix: string, suffix: string) {
    exists width: nat, n: nat :: x == Host(prefix, width, n, suffix)
  }

  /** The ranges found so far stand for exactly the hosts removed so far, in order. */
  ghost predicate Accounted(prefix: string, suffix: string, spans: seq<Span>, gone: seq<string>) {
    && RangesMeaning(FormatRanges(spans)).Ok?
    && Denoted(gone) == Spread(prefix, RangesMeaning(FormatRanges(spans)).value, suffix)
  }

  /** A single number is there exactly if a single host is gone. */
  ghost predicate SingleHost(prefix: string, suffix: string, spans: seq<Span>, gone: seq<string>) {
    && (spans == [] <==> gone == [])
    && (|gone| == 1 <==> |spans| == 1 && spans[0].low == spans[0].high)
    && (|gone| == 1 ==> gone == [Host(prefix, spans[0].width, spans[0].low, suffix)])
  }

  ghost predicate GroupState(prefix: string, suffix: string, spans: seq<Span>, gone: seq<string>) {
    SpansOk(spans) && Accounted(prefix, suffix, spans, gone) && SingleHost(prefix, suffix, spans, gone)
  }

  lemma GroupStart(prefix: string, suffix: string)
    ensures GroupState(prefix, suffix, [], [])
  {
  }

  lemma SpansAppend(spans: seq<Span>, s: Span)
    requires SpanOk(s) && RangesMeaning(FormatRanges(spans)).Ok?
    ensures RangesMeaning(FormatRanges(spans + [s]))
         == Ok(RangesMeaning(FormatRanges(spans)).value + Numbers(s.low, s.high, s.width))
  {
    var more := spans + [s];
    assert more[..|more| - 1] == spans && more[|more| - 1] == s;
    RangeReadsBack(s);
    RangesAppend(FormatRanges(spans), FormatRange(s));
  }

  lemma RunInGroup(prefix: string, suffix: string, width: nat, low: nat, next: nat)
    ensures AllInGroup(RunHosts(prefix, suffix, width, low, next), prefix, suffix)
  {
    forall x | x in RunHosts(prefix, suffix, width, low, next) ensures InGroup(x, prefix, suffix) {
      RunHostsContents(prefix, suffix, width, low, next, x);
    }
  }

  lemma AccountedStep(prefix: string, suffix: string, spans: seq<Span>, gone: seq<string>, s: Span)
    requires Accounted(prefix, suffix, spans, gone) && Plain(prefix) && Meaningful(suffix) && SpanOk(s)
    ensures Accounted(prefix, suffix, spans + [s], gone + RunHosts(prefix, suffix, s.width, s.low, s.high + 1))
  {
    SpansAppend(spans, s);
    RunDenotes(prefix, suffix, s.width, s.low, s.high + 1);
    DenotedAppend(gone, RunHosts(prefix, suffix, s.width, s.low, s.high + 1));
    SpreadAppend(prefix, RangesMeaning(FormatRanges(spans)).value, Numbers(s.low, s.high, s.width), suffix);
  }

  lemma {:induction false} RunLength(prefix: string, suffix: string, width: nat, low: nat, next: nat)
    requires low <= next
    ensures |RunHosts(prefix, suffix, width, low, next)| == next - low
  {
    if low < next {
      RunLength(prefix, suffix, width, low, next - 1);
    }
  }

  lemma SingleStep(prefix: string, suffix: string, spans: seq<Span>, gone: seq<string>, s: Span)
    requires SingleHost(prefix, suffix, spans, gone) && s.low <= s.high
    ensures SingleHost(prefix, suffix, spans + [s], gone + RunHosts(prefix, suffix, s.width, s.low, s.high + 1))
  {
    RunLength(prefix, suffix, s.width, s.low, s.high + 1);
    if spans == [] && s.low == s.high {
      var none := RunHosts(prefix, suffix, s.width, s.low, s.low);
      var host := Host(prefix, s.width, s.low, suffix);
      assert none == [] && none + [host] == [host] && gone + [host] == [host];
      assert (spans + [s])[0] == s;
    }
  }

  lemma GroupStep(prefix: string, suffix: string, spans: seq<Span>, gone: seq<string>, s: Span)
    requires GroupState(prefix, suffix, spans, gone) && Plain(prefix) && Meaningful(suffix) && SpanOk(s)
    ensures GroupState(prefix, suffix, spans + [s], gone + RunHosts(prefix, suffix, s.width, s.low, s.high + 1))
  {
    AccountedStep(prefix, suffix, spans, gone, s);
    SingleStep(prefix, suffix, spans, gone, s);
  }

  /** No host is left that would make one of the ranges longer. */
  ghost predicate Ended(prefix: string, suffix: string, spans: seq<Span>, rest: set<string>) {
    forall s | s in spans :: Host(prefix, s.width, s.high + 1, suffix) !in rest
  }

  /** No range goes on where an earlier one stops. */
  ghost predicate Unjoined(spans: seq<Span>) {
    forall i, j | 0 <= i < j < |spans| ::
      Pad(spans[i].width, spans[i].high + 1) != Pad(spans[j].width, spans[j].low)
  }

  lemma UnjoinedNext(prefix: string, suffix: string, spans: seq<Span>, rest: set<string>, s: Span, taken: set<string>)
    requires Unjoined(spans) && Ended(prefix, suffix, spans, rest) && taken <= rest
    requires Host(prefix, s.width, s.low, suffix) in rest && Host(prefix, s.width, s.high + 1, suffix) !in taken
    ensures Unjoined(spans + [s]) && Ended(prefix, suffix, spans + [s], taken)
  {
    forall t | t in spans ensures Pad(t.width, t.high + 1) != Pad(s.width, s.low) {
      assert Host(prefix, t.width, t.high + 1, suffix) !in rest;
    }
  }

  /** `gone` has been taken out of `remaining`, which leaves `rest`. */
  ghost predicate Removed(remaining: set<string>, gone: seq<string>, rest: set<string>) {
    && Distinct(gone)
    && (forall x | x in gone :: x in remaining)
    && (forall x :: x in rest <==> x in remaining && x !in gone)
  }

  lemma RemovedMore(a: set<string>, gone: seq<string>, b: set<string>, more: seq<string>, c: set<string>)
    requires Removed(a, gone, b) && Removed(b, more, c)
    ensures Removed(a, gone + more, c)
  {
    DistinctJoin(gone, more);
  }

  /** Scans upwards from one number for as long as the host is still there, and removes what it finds. */
  method ScanRange(remaining: set<string>, prefix: string, suffix: string, width: nat, low: nat)
    returns (rest: set<string>, next: nat, ghost run: seq<string>)
    ensures low <= next && Host(prefix, width, next, suffix) !in remaining
    ensures Host(prefix, width, low, suffix) in remaining ==> low < next
    ensures forall n | low <= n < next :: Host(prefix, width, n, suffix) in remaining
    ensures run == RunHosts(prefix, suffix, width, low, next) && Removed(remaining, run, rest)
  {
    rest, next, run := remaining, low, [];
    while Host(prefix, width, next, suffix) in rest
      invariant low <= next
      invariant forall n | low <= n < next :: Host(prefix, width, n, suffix) in remaining
      invariant run == RunHosts(prefix, suffix, width, low, next) && Removed(remaining, run, rest)
      decreases |rest|
    {
      run := run + [Host(prefix, width, next, suffix)];
      rest := rest - {Host(prefix, width, next, suffix)};
      next := next + 1;
    }
    var host := Host(prefix, width, next, suffix);
    if host in remaining {
      RunHostsContents(prefix, suffix, width, low, next, host);
      var n :| low <= n < next && host == Host(prefix, width, n, suffix);
      HostsDiffer(prefix, suffix, width, n, next);
    }
  }

  /** What a finished group contributes. */
  ghost predicate GroupResult(e: Entry, gone: seq<string>, r: nat) {
    EntryOk(e, r + 1) && Meaningful(e.left + e.right) && Hosts(e.left + e.right) == Denoted(gone)
  }

  /** A single host is left as it is, more than one get a bracket. */
  ghost predicate SingleStays(e: Entry, gone: seq<string>) {
    if |gone| == 1 then e.left + e.right == gone[0] else !Plain(e.left + e.right)
  }

  lemma SingleResult(prefix: string, suffix: string, width: nat, n: nat, r: nat)
    requires KeyOk(prefix, suffix, r) && Meaningful(suffix)
    ensures GroupResult(Entry(prefix, Pad(width, n) + suffix), [Host(prefix, width, n, suffix)], r)
  {
    var d := Pad(width, n);
    OneHost(prefix, suffix, width, n);
    DenotedOne(Host(prefix, width, n, suffix));
    DigitsArePlain(d);
    PlainBalanced(d, suffix);
    NumberInFront(d, suffix);
    MovedRight(prefix, d, suffix, r);
  }

  lemma {:induction false} FormattedPlain(spans: seq<Span>)
    requires SpansOk(spans)
    ensures forall p | p in FormatRanges(spans) :: Plain(p) && NoComma(p)
  {
    if spans != [] {
      var last := spans[|spans| - 1];
      assert last in spans;
      FormattedPlain(spans[..|spans| - 1]);
      RangeReadsBack(last);
    }
  }

  lemma BracketResult(prefix: string, suffix: string, spans: seq<Span>, gone: seq<string>, r: nat)
    requires KeyOk(prefix, suffix, r) && Meaningful(suffix)
    requires GroupState(prefix, suffix, spans, gone) && spans != []
    ensures GroupResult(Entry(prefix, "[" + Join(FormatRanges(spans)) + "]" + suffix), gone, r)
  {
    var l := FormatRanges(spans);
    var body := Join(l);
    FormattedPlain(spans);
    JoinHasNoBrackets(l);
    SplitJoin(l);
    BracketExpansion(body, suffix);
    PlainExpansion(prefix, "[" + body + "]" + suffix);
    BracketInFront(body, suffix);
    MovedRight(prefix, "[" + body + "]", suffix, r);
  }

  lemma {:induction false} NumbersAreDigits(low: nat, high: int, width: nat, d: string)
    requires d in Numbers(low, high, width)
    ensures AllDigits(d) && d != ""
    decreases high - low
  {
    if d != Pad(width, low) {
      NumbersAreDigits(low + 1, high, width, d);
    }
  }

  lemma {:induction false} SpansAreDigits(spans: seq<Span>)
    requires SpansOk(spans)
    ensures RangesMeaning(FormatRanges(spans)).Ok?
    ensures forall d | d in RangesMeaning(FormatRanges(spans)).value :: AllDigits(d) && d != ""
  {
    if spans != [] {
      var init, last := spans[..|spans| - 1], spans[|spans| - 1];
      assert spans == init + [last] && last in spans;
      SpansAreDigits(init);
      SpansAppend(init, last);
      forall d | d in Numbers(last.low, last.high, last.width) ensures AllDigits(d) && d != "" {
        NumbersAreDigits(last.low, last.high, last.width, d);
      }
    }
  }

  lemma BracketEven(suffix: string, spans: seq<Span>)
    requires SpansOk(spans) && spans != [] && Balanced(suffix, false) && EvenSuffix(suffix)
    ensures Even("[" + Join(FormatRanges(spans)) + "]" + suffix)
  {
    var l := FormatRanges(spans);
    FormattedPlain(spans);
    JoinHasNoBrackets(l);
    SplitJoin(l);
    SpansAreDigits(spans);
    EvenBracket(Join(l), suffix, RangesMeaning(l).value);
  }

  lemma {:induction false} FormatAt(spans: seq<Span>, i: nat)
    requires i < |spans|
    ensures FormatRanges(spans)[i] == FormatRange(spans[i])
  {
    if i < |spans| - 1 {
      FormatAt(spans[..|spans| - 1], i);
    }
  }

  lemma SpanIsNeat(s: Span)
    requires SpanOk(s)
    ensures NeatRange(FormatRange(s))
  {
    RangeShows(s);
  }

  lemma SpansAreNeat(s: Span, t: Span)
    requires SpanOk(s) && SpanOk(t) && Pad(s.width, s.high + 1) != Pad(t.width, t.low) && s.low <= t.low
    ensures NeatPair(FormatRange(s), FormatRange(t))
  {
    RangeShows(s);
    RangeShows(t);
  }

  lemma FormatNeatAt(spans: seq<Span>, i: nat)
    requires SpansOk(spans) && i < |spans|
    ensures NeatRange(FormatRanges(spans)[i])
  {
    FormatAt(spans, i);
    assert spans[i] in spans;
    SpanIsNeat(spans[i]);
  }

  lemma FormatNeatPair(spans: seq<Span>, i: nat, j: nat)
    requires SpansOk(spans) && Unjoined(spans) && Ascends(spans) && i < j < |spans|
    ensures NeatPair(FormatRanges(spans)[i], FormatRanges(spans)[j])
  {
    FormatAt(spans, i);
    FormatAt(spans, j);
    assert spans[i] in spans && spans[j] in spans;
    SpansAreNeat(spans[i], spans[j]);
  }

  lemma OneSpanHasDash(spans: seq<Span>)
    requires SpansOk(spans) && |spans| == 1 && spans[0].low < spans[0].high
    ensures var r := FormatRanges(spans)[0]; DashAt(r) < |r|
  {
    FormatAt(spans, 0);
    assert spans[0] in spans;
    RangeShows(spans[0]);
  }

  /** The ranges found in a group make a neat bracket, unless they are a single number. */
  lemma FormatNeat(spans: seq<Span>)
    requires SpansOk(spans) && Unjoined(spans) && Ascends(spans)
    requires |spans| == 1 ==> spans[0].low < spans[0].high
    ensures NeatRanges(FormatRanges(spans))
  {
    var rs := FormatRanges(spans);
    forall r | r in rs ensures NeatRange(r) {
      var i :| 0 <= i < |rs| && rs[i] == r;
      FormatNeatAt(spans, i);
    }
    forall i, j | 0 <= i < j < |rs| ensures NeatPair(rs[i], rs[j]) {
      FormatNeatPair(spans, i, j);
    }
    if |spans| == 1 {
      OneSpanHasDash(spans);
    }
  }

  lemma BracketNeat(suffix: string, spans: seq<Span>)
    requires SpansOk(spans) && Unjoined(spans) && Ascends(spans) && spans != []
    requires |spans| == 1 ==> spans[0].low < spans[0].high
    ensures Neat(suffix) ==> Neat("[" + Join(FormatRanges(spans)) + "]" + suffix)
  {
    var l := FormatRanges(spans);
    FormattedPlain(spans);
    JoinHasNoBrackets(l);
    SplitJoin(l);
    FormatNeat(spans);
    if Neat(suffix) {
      NeatBracket(Join(l), suffix);
    }
  }

  lemma NumberNeat(d: string, suffix: string)
    requires AllDigits(d)
    ensures Neat(suffix) ==> Neat(d + suffix)
  {
    DigitsArePlain(d);
    if Neat(suffix) {
      NeatBehind(d, suffix);
    }
  }

  lemma {:induction false} JoinKeepsOut(parts: seq<string>, c: char)
    requires c != ',' && forall p | p in parts :: c !in p
    ensures c !in Join(parts)
  {
    if |parts| > 1 {
      JoinKeepsOut(parts[1..], c);
    }
    assert parts != [] ==> parts[0] in parts;
  }

  lemma FormattedOneLine(spans: seq<Span>)
    ensures '\n' !in Join(FormatRanges(spans))
  {
    RangesOneLine(spans);
    JoinKeepsOut(FormatRanges(spans), '\n');
  }

  lemma {:induction false} RangesOneLine(spans: seq<Span>)
    ensures forall p | p in FormatRanges(spans) :: '\n' !in p
  {
    if spans != [] {
      var last := spans[|spans| - 1];
      RangesOneLine(spans[..|spans| - 1]);
      assert '\n' !in Pad(last.width, last.low) && '\n' !in Pad(last.width, last.high);
    }
  }

  lemma SuffixMeaningful(x: Item, r: nat)
    requires ItemOk(x, r) && x.suffix.Some? && Meaningful(x.host)
    ensures Meaningful(x.suffix.value)
  {
    var d := Pad(x.width, x.num);
    DigitsArePlain(d);
    PlainExpansion(d, x.suffix.value);
    PlainExpansion(x.prefix, d + x.suffix.value);
  }

  lemma RunStartsGone(prefix: string, suffix: string, width: nat, low: nat, next: nat)
    requires low < next
    ensures Host(prefix, width, low, suffix) in RunHosts(prefix, suffix, width, low, next)
  {
    RunHostsContents(prefix, suffix, width, low, next, Host(prefix, width, low, suffix));
  }

  ghost predicate AllInGroup(gone: seq<string>, prefix: string, suffix: string) {
    forall x | x in gone :: InGroup(x, prefix, suffix)
  }

  ghost predicate GroupScan(prefix: string, suffix: string, spans: seq<Span>, gone: seq<string>,
                            remaining: set<string>, rest: set<string>) {
    && GroupState(prefix, suffix, spans, gone)
    && Removed(remaining, gone, rest) && AllInGroup(gone, prefix, suffix)
    && Unjoined(spans) && Ended(prefix, suffix, spans, rest)
  }

  /** The span is the longest run from its number on, and its hosts have been taken out. */
  ghost predicate Taken(prefix: string, suffix: string, s: Span, rest: set<string>, run: seq<string>,
                        taken: set<string>) {
    && SpanOk(s) && run == RunHosts(prefix, suffix, s.width, s.low, s.high + 1) && Removed(rest, run, taken)
    && (forall n | s.low <= n <= s.high :: Host(prefix, s.width, n, suffix) in rest)
    && Host(prefix, s.width, s.high + 1, suffix) !in rest
  }

  /** Takes the range that starts at a host that is still there. */
  method TakeRange(prefix: string, suffix: string, width: nat, low: nat, rest: set<string>)
    returns (span: Span, taken: set<string>, ghost run: seq<string>)
    requires |Pad(width, low)| == width && Host(prefix, width, low, suffix) in rest
    ensures span.low == low && span.width == width && Taken(prefix, suffix, span, rest, run, taken)
  {
    var next;
    taken, next, run := ScanRange(rest, prefix, suffix, width, low);
    span := Span(low, next - 1, width);
    assert span.high + 1 == next;
  }

  lemma ScanStep(prefix: string, suffix: string, spans: seq<Span>, gone: seq<string>,
                 remaining: set<string>, rest: set<string>, s: Span, run: seq<string>, taken: set<string>)
    requires GroupScan(prefix, suffix, spans, gone, remaining, rest)
    requires Plain(prefix) && Meaningful(suffix) && Taken(prefix, suffix, s, rest, run, taken)
    ensures GroupScan(prefix, suffix, spans + [s], gone + run, remaining, taken)
    ensures Host(prefix, s.width, s.low, suffix) !in taken && taken <= rest
  {
    GroupStep(prefix, suffix, spans, gone, s);
    RemovedMore(remaining, gone, rest, run, taken);
    RunInGroup(prefix, suffix, s.width, s.low, s.high + 1);
    RunStartsGone(prefix, suffix, s.width, s.low, s.high + 1);
    UnjoinedNext(prefix, suffix, spans, rest, s, taken);
  }

  ghost predicate InRange(x: Item, prefix: string, suffix: string) {
    x.host == Host(prefix, x.width, x.num, suffix) && |Pad(x.width, x.num)| == x.width
  }

  ghost predicate Processed(group: seq<Item>, k: nat, rest: set<string>) {
    forall m | 0 <= m < k && m < |group| :: group[m].host !in rest
  }

  lemma ProcessedNext(group: seq<Item>, k: nat, rest: set<string>, taken: set<string>)
    requires k < |group| && Processed(group, k, rest) && taken <= rest && group[k].host !in taken
    ensures Processed(group, k + 1, taken)
  {
  }

  /** The ranges start with ascending numbers. */
  ghost predicate Ascends(spans: seq<Span>) {
    forall i, j | 0 <= i < j < |spans| :: spans[i].low <= spans[j].low
  }

  ghost predicate NumsAscend(group: seq<Item>) {
    forall i, j | 0 <= i < j < |group| :: group[i].num <= group[j].num
  }

  /** Every range so far starts at a number an item before `k` has. */
  ghost predicate StartsBefore(spans: seq<Span>, group: seq<Item>, k: nat) {
    Ascends(spans) && forall s | s in spans :: exists m | 0 <= m < k && m < |group| :: group[m].num == s.low
  }

  lemma StartsNext(spans: seq<Span>, group: seq<Item>, k: nat, found: seq<Span>)
    requires StartsBefore(spans, group, k) && NumsAscend(group) && k < |group|
    requires found == spans || exists s: Span :: found == spans + [s] && s.low == group[k].num
    ensures StartsBefore(found, group, k + 1)
  {
  }

  /** Collects the ranges of a group of items, which share prefix and suffix. */
  method CollectRanges(group: seq<Item>, prefix: string, suffix: string, remaining: set<string>)
    returns (spans: seq<Span>, rest: set<string>, ghost gone: seq<string>)
    requires group != [] && Plain(prefix) && Meaningful(suffix) && NumsAscend(group)
    requires forall k | 0 <= k < |group| :: InRange(group[k], prefix, suffix)
    requires group[0].host in remaining
    ensures GroupScan(prefix, suffix, spans, gone, remaining, rest) && spans != []
    ensures Processed(group, |group|, rest) && Unjoined(spans) && Ascends(spans)
  {
    spans, rest, gone := [], remaining, [];
    GroupStart(prefix, suffix);
    for k := 0 to |group|
      invariant GroupScan(prefix, suffix, spans, gone, remaining, rest)
      invariant k > 0 ==> spans != []
      invariant k == 0 ==> rest == remaining
      invariant Processed(group, k, rest) && StartsBefore(spans, group, k)
    {
      assert InRange(group[k], prefix, suffix);
      ghost var before, earlier := rest, spans;
      if group[k].host in rest {
        var span;
        ghost var run;
        span, rest, run := TakeRange(prefix, suffix, group[k].width, group[k].num, rest);
        ScanStep(prefix, suffix, spans, gone, remaining, before, span, run, rest);
        spans, gone := spans + [span], gone + run;
      }
      ProcessedNext(group, k, before, rest);
      StartsNext(earlier, group, k, spans);
    }
  }

  /** What the entry of a finished group is like. */
  ghost predicate GroupDone(e: Entry, prefix: string, suffix: string, gone: seq<string>, r: nat) {
    && e.left == prefix && GroupResult(e, gone, r) && SingleStays(e, gone)
    && Even(e.right) && ('\n' !in suffix ==> '\n' !in e.right) && (Neat(suffix) ==> Neat(e.right))
  }

  lemma SingleDone(prefix: string, suffix: string, spans: seq<Span>, gone: seq<string>, r: nat)
    requires KeyOk(prefix, suffix, r) && Meaningful(suffix) && EvenSuffix(suffix)
    requires GroupState(prefix, suffix, spans, gone) && |spans| == 1 && spans[0].low == spans[0].high
    ensures GroupDone(Entry(prefix, Pad(spans[0].width, spans[0].low) + suffix), prefix, suffix, gone, r)
  {
    var d := Pad(spans[0].width, spans[0].low);
    SingleResult(prefix, suffix, spans[0].width, spans[0].low, r);
    EvenNumber(d, suffix);
    NumberNeat(d, suffix);
  }

  lemma BracketDone(prefix: string, suffix: string, spans: seq<Span>, gone: seq<string>, r: nat)
    requires KeyOk(prefix, suffix, r) && Meaningful(suffix) && EvenSuffix(suffix)
    requires GroupState(prefix, suffix, spans, gone) && spans != [] && Unjoined(spans) && Ascends(spans)
    requires |spans| == 1 ==> spans[0].low < spans[0].high
    ensures GroupDone(Entry(prefix, "[" + Join(FormatRanges(spans)) + "]" + suffix), prefix, suffix, gone, r)
  {
    BracketResult(prefix, suffix, spans, gone, r);
    BracketEven(suffix, spans);
    BracketNeat(suffix, spans);
    FormattedOneLine(spans);
    BracketLook(prefix, Join(FormatRanges(spans)), suffix);
  }

  lemma BracketLook(prefix: string, body: string, suffix: string)
    ensures !Plain(prefix + ("[" + body + "]" + suffix))
    ensures '\n' !in body && '\n' !in suffix ==> '\n' !in "[" + body + "]" + suffix
  {
    var x := prefix + ("[" + body + "]" + suffix);
    assert x[|prefix|] == '[' && x[|prefix|] in x;
  }

  /** The entry a group of items becomes. */
  method CollectGroup(group: seq<Item>, prefix: string, suffix: string, remaining: set<string>, ghost r: nat)
    returns (e: Entry, rest: set<string>, ghost gone: seq<string>)
    requires group != [] && KeyOk(prefix, suffix, r) && Meaningful(suffix) && EvenSuffix(suffix) && NumsAscend(group)
    requires forall k | 0 <= k < |group| :: InRange(group[k], prefix, suffix)
    requires group[0].host in remaining
    ensures GroupDone(e, prefix, suffix, gone, r)
    ensures Removed(remaining, gone, rest) && AllInGroup(gone, prefix, suffix)
    ensures Processed(group, |group|, rest)
  {
    var spans;
    spans, rest, gone := CollectRanges(group, prefix, suffix, remaining);
    if |spans| == 1 && spans[0].low == spans[0].high {
      SingleDone(prefix, suffix, spans, gone, r);
      e := Entry(prefix, Pad(spans[0].width, spans[0].low) + suffix);
    } else {
      assert |spans| == 1 ==> spans[0] in spans;
      BracketDone(prefix, suffix, spans, gone, r);
      e := Entry(prefix, "[" + Join(FormatRanges(spans)) + "]" + suffix);
    }
  }
}
