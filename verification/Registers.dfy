/** The five parallel arrays of tracked registers. */
module Registers {
  import opened Rollover

  datatype Outcome = Done | InvalidArgument | OutOfMemory

  /** One address always rolls over by the same amount. */
  ghost predicate OneIncrement(rows: seq<Row>) {
    forall i, j | 0 <= i < |rows| && 0 <= j < |rows| && rows[i].addr == rows[j].addr :: rows[i].incr == rows[j].incr
  }

  ghost predicate Tracked(rows: seq<Row>, addr: nat) { exists j | 0 <= j < |rows| :: rows[j].addr == addr }

  /** Some wanted register is tracked with another increment. */
  ghost predicate Conflict(rows: seq<Row>, wanted: seq<nat>, incr: nat) {
    exists i, j | 0 <= i < |wanted| && 0 <= j < |rows| :: rows[j].addr == wanted[i] && rows[j].incr != incr
  }

  /** The index is that of a register tracked with this increment; -1 is left for registers not tracked yet. */
  ghost predicate Located(rows: seq<Row>, addr: nat, step: nat, j: int) {
    && -1 <= j < |rows| && (j == -1 ==> !Tracked(rows, addr))
    && (j >= 0 ==> rows[j].addr == addr && rows[j].incr == step)
  }

  /** Registers were only added behind the ones there before, none of which has moved or changed. */
  ghost predicate Extended(before: seq<Row>, rows: seq<Row>, step: nat) {
    && before <= rows
    && forall k | |before| <= k < |rows| :: rows[k] == Row(rows[k].addr, 0, 0, 0, step)
  }

  ghost predicate Found(rows: seq<Row>, addr: nat, step: nat, j: int) {
    0 <= j < |rows| && rows[j].addr == addr && rows[j].incr == step
  }

  ghost predicate NewlyUnseen(before: seq<History>, history: seq<History>) {
    && before <= history
    && forall k | |before| <= k < |history| :: history[k] == Unseen
  }

  /** How many registers are still marked as new. */
  function Missing(idxs: seq<int>): nat {
    if idxs == [] then 0 else (if idxs[0] == -1 then 1 else 0) + Missing(idxs[1..])
  }

  lemma {:induction false} MissingAppend(idxs: seq<int>, x: int)
    ensures Missing(idxs + [x]) == Missing(idxs) + if x == -1 then 1 else 0
  {
    var more := idxs + [x];
    if idxs == [] {
      assert more[1..] == [];
    } else {
      assert more[0] == idxs[0] && more[1..] == idxs[1..] + [x];
      MissingAppend(idxs[1..], x);
    }
  }

  lemma NoNewConflict(rows: seq<Row>, wanted: seq<nat>, i: nat, step: nat)
    requires i < |wanted| && OneIncrement(rows) && !Conflict(rows, wanted[..i], step)
    requires Tracked(rows, wanted[i]) ==> exists j | 0 <= j < |rows| :: Found(rows, wanted[i], step, j)
    ensures !Conflict(rows, wanted[..i + 1], step)
  {
  }

  lemma MissingNext(idxs: seq<int>, i: nat)
    requires i < |idxs|
    ensures Missing(idxs[i..]) == (if idxs[i] == -1 then 1 else 0) + Missing(idxs[i + 1..])
  {
    assert idxs[i..][1..] == idxs[i + 1..];
  }

  ghost predicate AllFound(rows: seq<Row>, wanted: seq<nat>, step: nat, idxs: seq<int>, n: nat) {
    n <= |wanted| && n <= |idxs| && forall k | 0 <= k < n :: Found(rows, wanted[k], step, idxs[k])
  }

  /** A register that was not tracked before can only have been added with this increment. */
  lemma OnlyAdded(before: seq<Row>, rows: seq<Row>, addr: nat, step: nat)
    requires Extended(before, rows, step) && !Tracked(before, addr)
    ensures forall j | 0 <= j < |rows| && rows[j].addr == addr :: rows[j].incr == step
  {
  }

  lemma AddedOne(before: seq<Row>, past: seq<History>, rows: seq<Row>, history: seq<History>, addr: nat, step: nat)
    requires Extended(before, rows, step) && NewlyUnseen(past, history)
    ensures Extended(before, rows + [Row(addr, 0, 0, 0, step)], step) && NewlyUnseen(past, history + [Unseen])
  {
  }

  lemma FoundMore(rows: seq<Row>, wanted: seq<nat>, step: nat, idxs: seq<int>, n: nat, after: seq<Row>, j: int)
    requires AllFound(rows, wanted, step, idxs, n) && n < |wanted| && n < |idxs| && rows <= after
    requires Found(after, wanted[n], step, j)
    ensures AllFound(after, wanted, step, idxs[n := j], n + 1)
  {
    forall k | 0 <= k < n + 1 ensures Found(after, wanted[k], step, idxs[n := j][k]) {
      if k < n {
        assert Found(rows, wanted[k], step, idxs[k]);
      }
    }
  }

  function Refreshed(rows: seq<Row>, values: seq<nat>): seq<Row>
    requires |rows| <= |values|
  {
    seq(|rows|, i requires 0 <= i < |rows| => rows[i].(current := values[i], prev := rows[i].current))
  }

  function Advanced(history: seq<History>, rows: seq<Row>, truths: seq<nat>): seq<History>
    requires |history| == |rows| == |truths|
  {
    seq(|history|, i requires 0 <= i < |history| => Advance(history[i], rows[i].incr, truths[i]))
  }

  function Rolled(row: Row): Row {
    if row.incr > 0 && row.current < row.prev then row.(rollovers := (row.rollovers + row.incr) % U64) else row
  }

  /** A new array with the contents of the old one. */
  method Grow(a: array<nat>, n: nat) returns (b: array<nat>)
    ensures fresh(b) && b.Length == n
    ensures forall k | 0 <= k < n && k < a.Length :: b[k] == a[k]
  {
    b := new nat[n];
    var m := if n < a.Length then n else a.Length;
    for k := 0 to m
      invariant forall i | 0 <= i < k :: b[i] == a[i]
    {
      b[k] := a[k];
    }
  }

  class Registers {
    var num: nat
    var size: nat
    var regs: array<nat>
    var current: array<nat>
    var prev: array<nat>
    var rollovers: array<nat>
    var incr: array<nat>
    var ready: bool
    var sampleTs: nat
    const lifetime: nat

    /** What the arrays hold, register by register, and what is known of each true count. */
    ghost var rows: seq<Row>
    ghost var history: seq<History>

    ghost function Arrays(): set<object>
      reads this
    {
      {regs, current, prev, rollovers, incr}
    }

    ghost predicate Shape()
      reads this
    {
      && regs != current && regs != prev && regs != rollovers && regs != incr && current != prev
      && current != rollovers && current != incr && prev != rollovers && prev != incr && rollovers != incr
      && num <= size && size <= regs.Length && size <= current.Length && size <= prev.Length
      && size <= rollovers.Length && size <= incr.Length
    }

    ghost predicate Holds()
      requires Shape()
      reads this, Arrays()
    {
      && |rows| == num
      && forall i | 0 <= i < num :: rows[i] == Row(regs[i], current[i], prev[i], rollovers[i], incr[i])
    }

    /** The arrays stay within bounds, and every register reports its true count. */
    ghost predicate Valid()
      reads this, Arrays()
    {
      && Shape() && Holds() && |history| == num && OneIncrement(rows)
      && forall i | 0 <= i < num :: RowOk(rows[i], history[i])
    }

    constructor (lifetime: nat)
      ensures Valid() && fresh(Arrays()) && num == 0 && size == 0 && rows == []
    {
      this.lifetime := lifetime;
      num, size, sampleTs, ready := 0, 0, 0, false;
      regs, current, prev := new nat[0], new nat[0], new nat[0];
      rollovers, incr := new nat[0], new nat[0];
      rows, history := [], [];
    }

    /** Makes room in the first three arrays, as far as allocations are granted. */
    method ResizeSamples(nregs: nat, grants: nat)
      requires Valid() && size <= nregs
      modifies this`regs, this`current, this`prev, this`ready
      ensures Valid() && (grants >= 1 ==> ready)
      ensures grants >= 3 ==> regs.Length == nregs && current.Length == nregs && prev.Length == nregs
      ensures forall a | a in Arrays() :: a in old(Arrays()) || fresh(a)
    {
      if grants >= 1 {
        regs := Grow(regs, nregs);
        ready := true;
      }
      if grants >= 2 {
        current := Grow(current, nregs);
      }
      if grants >= 3 {
        prev := Grow(prev, nregs);
      }
    }

    /**
     * Makes room for `nregs` registers; `grants` says how many of the five
     * allocations are granted.  Arrays replaced before one is refused stay
     * replaced, but the size is raised only when all of them are there.
     */
    method Resize(nregs: nat, grants: nat) returns (ok: bool)
      requires Valid() && size <= nregs
      modifies this
      ensures Valid() && rows == old(rows) && history == old(history) && num == old(num)
      ensures ok == (grants >= 5) && size == (if ok then nregs else old(size)) && (ok ==> ready)
      ensures forall a | a in Arrays() :: a in old(Arrays()) || fresh(a)
    {
      ResizeSamples(nregs, grants);
      if grants >= 4 {
        rollovers := Grow(rollovers, nregs);
      }
      ok := grants >= 5;
      if ok {
        incr := Grow(incr, nregs);
        size := nregs;
      }
    }

    /** The index of a register, or -1. */
    method Find(addr: nat) returns (j: int)
      requires Valid()
      ensures -1 <= j < num && (j == -1 <==> !Tracked(rows, addr)) && (j >= 0 ==> rows[j].addr == addr)
    {
      for k := 0 to num
        invariant forall i | 0 <= i < k :: rows[i].addr != addr
      {
        if regs[k] == addr {
          return k;
        }
      }
      return -1;
    }

    /** Puts a register behind the ones already there. */
    method AddReg(addr: nat, step: nat)
      requires Valid() && num < size
      requires forall j | 0 <= j < num && rows[j].addr == addr :: rows[j].incr == step
      modifies this`num, this`rows, this`history, Arrays()
      ensures Valid() && rows == old(rows) + [Row(addr, 0, 0, 0, step)] && history == old(history) + [Unseen]
    {
      regs[num], current[num], prev[num] := addr, 0, 0;
      rollovers[num], incr[num] := 0, step;
      rows, history := rows + [Row(addr, 0, 0, 0, step)], history + [Unseen];
      num := num + 1;
    }
  
    /** Looks up every wanted register and counts those that are not tracked yet. */
    method Locate(wanted: seq<nat>, idxs: array<int>, step: nat) returns (conflict: bool, missing: nat)
      requires Valid() && idxs.Length == |wanted| && idxs !in Arrays()
      modifies idxs
      ensures conflict <==> Conflict(rows, wanted, step)
      ensures !conflict ==> missing == Missing(idxs[..])
      ensures !conflict ==> forall i | 0 <= i < |wanted| :: Located(rows, wanted[i], step, idxs[i])
    {
      missing := 0;
      for i := 0 to |wanted|
        invariant missing == Missing(idxs[..i])
        invariant forall k | 0 <= k < i :: Located(rows, wanted[k], step, idxs[k])
        invariant !Conflict(rows, wanted[..i], step)
      {
        var j := Find(wanted[i]);
        if j >= 0 && incr[j] != step {
          assert rows[j].addr == wanted[i] && rows[j].incr != step;
          return true, missing;
        }
        assert j >= 0 ==> Found(rows, wanted[i], step, j);
        NoNewConflict(rows, wanted, i, step);
        idxs[i] := j;
        assert idxs[..i + 1] == idxs[..i] + [j];
        MissingAppend(idxs[..i], j);
        if j == -1 {
          missing := missing + 1;
        }
      }
      assert wanted[..|wanted|] == wanted && idxs[..|wanted|] == idxs[..];
      return false, missing;
    }

    /** Adds the registers marked as new; there is room for all of them. */
    method AddMissing(wanted: seq<nat>, idxs: array<int>, step: nat)
      requires Valid() && idxs.Length == |wanted| && idxs !in Arrays() && num + Missing(idxs[..]) <= size
      requires forall i | 0 <= i < |wanted| :: Located(rows, wanted[i], step, idxs[i])
      modifies this`num, this`rows, this`history, Arrays(), idxs
      ensures Valid() && Extended(old(rows), rows, step) && NewlyUnseen(old(history), history)
      ensures forall i | 0 <= i < |wanted| :: Found(rows, wanted[i], step, idxs[i])
    {
      ghost var before, past, marks := rows, history, idxs[..];
      assert marks[0..] == marks;
      ghost var left := Missing(marks);
      for i := 0 to |wanted|
        invariant Valid() && left == Missing(marks[i..]) && num + left <= size
        invariant Extended(before, rows, step) && NewlyUnseen(past, history)
        invariant AllFound(rows, wanted, step, idxs[..], i) && idxs[i..] == marks[i..]
      {
        ghost var sofar, found := rows, idxs[..];
        assert idxs[i] == idxs[i..][0] == marks[i..][0] == marks[i];
        MissingNext(marks, i);
        assert Located(before, wanted[i], step, marks[i]);
        if idxs[i] == -1 {
          OnlyAdded(before, rows, wanted[i], step);
          AddedOne(before, past, rows, history, wanted[i], step);
          AddReg(wanted[i], step);
          idxs[i] := num - 1;
          left := left - 1;
        }
        FoundMore(sofar, wanted, step, found, i, rows, idxs[i]);
        assert idxs[..] == found[i := idxs[i]];
      }
      assert forall i | 0 <= i < |wanted| :: idxs[..][i] == idxs[i];
    }

    /**
     * Finds or adds every wanted register.  On success each index leads to
     * its register with the wanted increment; registers tracked before
     * keep their places and contents, also on failure.
     */
    method TrackRegs(wanted: seq<nat>, idxs: array<int>, step: nat, grants: nat) returns (r: Outcome)
      requires Valid() && idxs.Length == |wanted| && idxs !in Arrays()
      modifies this, Arrays(), idxs
      ensures Valid() && (r == InvalidArgument <==> Conflict(old(rows), wanted, step))
      ensures r != Done ==> rows == old(rows) && history == old(history)
      ensures r == OutOfMemory ==> grants < 5
      ensures r == Done ==> Extended(old(rows), rows, step) && NewlyUnseen(old(history), history)
      ensures r == Done ==> forall i | 0 <= i < |wanted| :: Found(rows, wanted[i], step, idxs[i])
    {
      var conflict, missing := Locate(wanted, idxs, step);
      if conflict {
        return InvalidArgument;
      }
      if num + missing >= size {
        var ok := Resize(num + missing, grants);
        if !ok {
          return OutOfMemory;
        }
      }
      AddMissing(wanted, idxs, step);
      return Done;
    }
  
    /** Adds the increment of every register whose reading has become smaller. */
    method UpdateRollovers()
      requires Shape() && Holds()
      modifies rollovers, this`rows
      ensures Shape() && Holds() && |rows| == |old(rows)|
      ensures forall i | 0 <= i < num :: rows[i] == Rolled(old(rows)[i])
    {
      for i := 0 to num
        invariant Holds()
        invariant forall k | 0 <= k < i :: rows[k] == Rolled(old(rows)[k])
        invariant forall k | i <= k < num :: rows[k] == old(rows)[k]
      {
        if incr[i] != 0 && current[i] < prev[i] {
          rollovers[i] := (rollovers[i] + incr[i]) % U64;
        }
        rows := rows[i := Rolled(rows[i])];
      }
    }

    /** Swaps the two sample arrays and reads every register into the current one. */
    method ReadRegisters(values: seq<nat>)
      requires Shape() && Holds() && |values| == size
      modifies this`current, this`prev, this`rows, prev
      ensures Shape() && Holds() && |rows| == |old(rows)| && Arrays() == old(Arrays())
      ensures forall i | 0 <= i < num :: rows[i] == old(rows)[i].(current := values[i], prev := old(rows)[i].current)
    {
      current, prev := prev, current;
      for k := 0 to size
        invariant current == old(prev) && prev == old(current) && rows == old(rows)
        invariant forall i | 0 <= i < k :: current[i] == values[i]
      {
        current[k] := values[k];
      }
      rows := Refreshed(rows, values);
    }

    /** A sample is due unless the last one is still alive. */
    predicate Due(now: nat)
      reads this
    {
      ready && (lifetime == 0 || sampleTs == 0 || now > sampleTs + lifetime)
    }

    /**
     * Takes a sample if one is due.  `values` is what the hardware shows of
     * the true counts, each of which has advanced by less than its period.
     */
    method Sample(now: nat, values: seq<nat>, ghost truths: seq<nat>) returns (taken: bool)
      requires Valid() && |values| == size && |truths| == num
      requires Due(now) ==> forall i | 0 <= i < num && rows[i].incr > 0 ::
                 values[i] == truths[i] % rows[i].incr && MayBecome(history[i], rows[i].incr, truths[i])
      modifies this, Arrays()
      ensures Valid() && taken == old(Due(now)) && num == old(num) && size == old(size) && Arrays() == old(Arrays())
      ensures taken <==> old(ready && (lifetime == 0 || sampleTs == 0 || now > sampleTs + lifetime))
      ensures !taken ==> rows == old(rows) && history == old(history) && sampleTs == old(sampleTs)
      ensures taken ==> forall i | 0 <= i < num ::
                rows[i] == Sampled(old(rows)[i], values[i])
                && history[i] == Advance(old(history)[i], old(rows)[i].incr, truths[i])
      ensures taken ==> sampleTs == now
    {
      taken := Due(now);
      if !taken {
        return;
      }
      ghost var before, past := rows, history;
      ReadRegisters(values);
      UpdateRollovers();
      history := Advanced(past, before, truths);
      sampleTs := now;
      forall i | 0 <= i < num ensures rows[i] == Sampled(before[i], values[i]) && RowOk(rows[i], history[i]) {
        SampleKeeps(before[i], past[i], values[i], truths[i]);
      }
    }
  }
}
