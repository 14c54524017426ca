/** Counters that roll over: what is reported for a register and the count it stands for. */
module Rollover {

  const U64: nat := 0x1_0000_0000_0000_0000

  /** What the five arrays hold for one register. */
  datatype Row = Row(addr: nat, current: nat, prev: nat, rollovers: nat, incr: nat)

  /** The count a register stands for when it was last sampled, and the fixed amount it is reported short by. */
  datatype History = Unseen | Seen(truth: nat, base: nat)

  // Arithmetic

  /** The part of a count that a register of period `p` cannot show. */
  function Wraps(t: nat, p: nat): (w: nat)
    requires p > 0
    ensures w + t % p == t && w == p * (t / p)
  {
    t - t % p
  }

  lemma NextMultiple(p: nat, a: nat)
    ensures p * (a + 1) == p * a + p
  {
  }

  lemma {:induction false} Multiples(p: nat, a: nat, b: nat)
    requires a < b
    ensures p * a + p <= p * b
    decreases b
  {
    NextMultiple(p, b - 1);
    if a + 1 < b {
      Multiples(p, a, b - 1);
    }
  }

  /** A smaller reading means exactly one rollover, as long as the count advanced by less than the period. */
  lemma OneRollover(p: nat, t: nat, u: nat)
    requires p > 0 && t <= u
    ensures u < t + p <==> Wraps(u, p) == Wraps(t, p) + if u % p < t % p then p else 0
  {
    var q, s := t / p, u / p;
    if s < q {
      Multiples(p, s, q);
    } else if q < s {
      Multiples(p, q, s);
      if q + 1 < s {
        Multiples(p, q + 1, s);
      }
      NextMultiple(p, q);
    }
  }

  /** Two rollovers between samples go unnoticed if the reading does not drop. */
  lemma TwoRolloversMissed()
    ensures Wraps(25, 10) == Wraps(5, 10) + 20 && !(25 % 10 < 5 % 10)
  {
  }

  // One register

  /** One sample: the old reading becomes the previous one, and a smaller new one counts as a rollover. */
  function Sampled(row: Row, value: nat): Row {
    row.(current := value,
         prev := row.current,
         rollovers := if row.incr > 0 && value < row.current then (row.rollovers + row.incr) % U64 else row.rollovers)
  }

  function Advance(h: History, incr: nat, truth: nat): History {
    match h
    case Unseen => Seen(truth, if incr > 0 then Wraps(truth, incr) else 0)
    case Seen(_, base) => Seen(truth, base)
  }

  ghost predicate RowOk(row: Row, h: History) {
    match h
    case Unseen => row.current == 0 && row.prev == 0 && row.rollovers == 0
    case Seen(truth, base) =>
      row.incr > 0 ==>
        && row.current == truth % row.incr && base <= Wraps(truth, row.incr)
        && row.rollovers == (Wraps(truth, row.incr) - base) % U64
  }

  /** The count may be anything at the first sample; later it has advanced by less than the period. */
  ghost predicate MayBecome(h: History, incr: nat, truth: nat) {
    h.Seen? && incr > 0 ==> h.truth <= truth < h.truth + incr
  }

  lemma AddModulo(a: nat, b: nat)
    ensures (a % U64 + b) % U64 == (a + b) % U64
  {
  }

  lemma SampleKeeps(row: Row, h: History, value: nat, truth: nat)
    requires RowOk(row, h) && MayBecome(h, row.incr, truth)
    requires row.incr > 0 ==> value == truth % row.incr
    ensures RowOk(Sampled(row, value), Advance(h, row.incr, truth))
  {
    if h.Seen? && row.incr > 0 {
      OneRollover(row.incr, h.truth, truth);
      AddModulo(Wraps(h.truth, row.incr) - h.base, row.incr);
    }
  }

  function Reported(row: Row): nat { (row.current + row.rollovers) % U64 }

  /** What is reported is the true count, short of the fixed amount, in 64 bits. */
  lemma ReportedIsTrue(row: Row, h: History)
    requires RowOk(row, h) && h.Seen? && row.incr > 0
    ensures h.base <= h.truth && Reported(row) == (h.truth - h.base) % U64
  {
    AddModulo(Wraps(h.truth, row.incr) - h.base, row.current);
  }

  // Any number of samples

  ghost predicate Steady(incr: nat, truths: seq<nat>) {
    forall i | 0 < i < |truths| :: truths[i - 1] <= truths[i] < truths[i - 1] + incr
  }

  function AfterSamples(row: Row, truths: seq<nat>): Row
    requires row.incr > 0
    ensures AfterSamples(row, truths).incr == row.incr
  {
    if truths == [] then row
    else Sampled(AfterSamples(row, truths[..|truths| - 1]), truths[|truths| - 1] % row.incr)
  }

  lemma {:induction false} ManySamples(addr: nat, incr: nat, truths: seq<nat>)
    requires incr > 0 && truths != [] && Steady(incr, truths)
    ensures RowOk(AfterSamples(Row(addr, 0, 0, 0, incr), truths),
                  Seen(truths[|truths| - 1], Wraps(truths[0], incr)))
  {
    var row, init, last := Row(addr, 0, 0, 0, incr), truths[..|truths| - 1], truths[|truths| - 1];
    if init == [] {
      SampleKeeps(row, Unseen, last % incr, last);
    } else {
      assert truths[|truths| - 2] <= last;
      ManySamples(addr, incr, init);
      SampleKeeps(AfterSamples(row, init), Seen(init[|init| - 1], Wraps(truths[0], incr)), last % incr, last);
    }
  }

  /** However often it is sampled, a new register reports its count up to what its first sample could not show. */
  lemma ReportsTrueCount(addr: nat, incr: nat, truths: seq<nat>)
    requires incr > 0 && truths != [] && Steady(incr, truths)
    ensures Wraps(truths[0], incr) <= truths[|truths| - 1]
    ensures Reported(AfterSamples(Row(addr, 0, 0, 0, incr), truths))
         == (truths[|truths| - 1] - Wraps(truths[0], incr)) % U64
  {
    ManySamples(addr, incr, truths);
    ReportedIsTrue(AfterSamples(Row(addr, 0, 0, 0, incr), truths), Seen(truths[|truths| - 1], Wraps(truths[0], incr)));
  }
}
