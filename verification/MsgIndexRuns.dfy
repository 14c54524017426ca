/** What holds in every state the message service can reach, whatever the interleaving. */
module MsgIndexRuns {
  import opened Prelude
  import opened MsgIndex
  import opened MsgIndexInv

  /** The steps can be taken one after the other. */
  ghost predicate CanRun(rx: Regex, s: State, steps: seq<Step>)
    decreases |steps|
  {
    steps == [] || (Enabled(s, steps[0]) && CanRun(rx, Next(rx, s, steps[0]), steps[1..]))
  }

  ghost function Run(rx: Regex, s: State, steps: seq<Step>): State
    requires CanRun(rx, s, steps)
    decreases |steps|
  {
    if steps == [] then s else Run(rx, Next(rx, s, steps[0]), steps[1..])
  }

  lemma {:induction false} RunsKeepInv(rx: Regex, s: State, steps: seq<Step>)
    requires Inv(rx, s) && CanRun(rx, s, steps)
    ensures Inv(rx, Run(rx, s, steps))
    decreases |steps|
  {
    if steps != [] {
      StepKeepsInv(rx, s, steps[0]);
      RunsKeepInv(rx, Next(rx, s, steps[0]), steps[1..]);
    }
  }

  lemma ReachableHasInv(rx: Regex, steps: seq<Step>)
    requires CanRun(rx, INIT, steps)
    ensures Inv(rx, Run(rx, INIT, steps))
  {
    InitInv(rx);
    RunsKeepInv(rx, INIT, steps);
  }

  // What the steps of a run say about a client

  /** The subscription asked for: a tag, or a regular expression for tags. */
  predicate Wants(rx: Regex, m: string, x: bool, t: string) { if x then rx(m, t) else m == t }

  /** How far a client has come: 0 before its subscription is entered, 1 while it is open, 2 from its close on. */
  function Progress(p: Phase): nat {
    match p
    case Fresh | Resolved => 0
    case Joining | Live => 1
    case Leaving | Detached | Released => 2
  }

  function Stage(s: State, c: nat): nat { if c in s.clients then Progress(s.clients[c].phase) else 0 }

  /** The subscription of the client was entered. */
  ghost predicate Entered(steps: seq<Step>, c: nat) { DoBindExact(c) in steps || DoJoinBegin(c) in steps }

  ghost function StageAfter(stage: nat, steps: seq<Step>, c: nat): nat {
    if stage == 2 || DoCloseBegin(c) in steps then 2 else if stage == 1 || Entered(steps, c) then 1 else 0
  }

  lemma BindStepMovesStage(rx: Regex, s: State, a: Step, c: nat)
    requires LockOk(s) && Enabled(s, a) && Binds(a)
    ensures Stage(Next(rx, s, a), c) == StageAfter(Stage(s, c), [a], c)
  {
  }

  lemma CloseStepMovesStage(rx: Regex, s: State, a: Step, c: nat)
    requires LockOk(s) && Enabled(s, a) && Closes(a)
    ensures Stage(Next(rx, s, a), c) == StageAfter(Stage(s, c), [a], c)
  {
  }

  lemma DeliveryStepMovesStage(rx: Regex, s: State, a: Step, c: nat)
    requires LockOk(s) && Enabled(s, a) && !Binds(a) && !Closes(a)
    ensures Stage(Next(rx, s, a), c) == StageAfter(Stage(s, c), [a], c)
  {
  }

  lemma StepMovesStage(rx: Regex, s: State, a: Step, c: nat)
    requires LockOk(s) && Enabled(s, a)
    ensures Stage(Next(rx, s, a), c) == StageAfter(Stage(s, c), [a], c)
  {
    if Binds(a) {
      BindStepMovesStage(rx, s, a, c);
    } else if Closes(a) {
      CloseStepMovesStage(rx, s, a, c);
    } else {
      DeliveryStepMovesStage(rx, s, a, c);
    }
  }

  lemma StageComposes(stage: nat, a: Step, rest: seq<Step>, c: nat)
    requires stage <= 2
    ensures StageAfter(StageAfter(stage, [a], c), rest, c) == StageAfter(stage, [a] + rest, c)
  {
  }

  lemma {:induction false} RunMovesStage(rx: Regex, s: State, steps: seq<Step>, c: nat)
    requires Inv(rx, s) && CanRun(rx, s, steps)
    ensures Stage(Run(rx, s, steps), c) == StageAfter(Stage(s, c), steps, c)
    decreases |steps|
  {
    if steps != [] {
      var a, rest := steps[0], steps[1..];
      assert steps == [a] + rest && LockOk(s);
      StepMovesStage(rx, s, a, c);
      StepKeepsInv(rx, s, a);
      RunMovesStage(rx, Next(rx, s, a), rest, c);
      StageComposes(Stage(s, c), a, rest, c);
    }
  }

  /** Outside the write lock a client is open exactly if its subscription was entered and its close not begun. */
  lemma OpenIff(rx: Regex, steps: seq<Step>, c: nat)
    requires CanRun(rx, INIT, steps) && Run(rx, INIT, steps).lock.Unlocked? && c in Run(rx, INIT, steps).clients
    ensures Run(rx, INIT, steps).clients[c].phase.Live? <==> Entered(steps, c) && DoCloseBegin(c) !in steps
  {
    InitInv(rx);
    RunMovesStage(rx, INIT, steps, c);
    ReachableHasInv(rx, steps);
    assert PhaseOk(Run(rx, INIT, steps), c);
  }

  ghost predicate Records(s: State, c: nat, m: string, x: bool) {
    c in s.clients && s.clients[c].match_ == m && s.clients[c].isRegex == x
  }

  lemma BindStepKeepsRecord(rx: Regex, s: State, a: Step, c: nat, m: string, x: bool)
    requires Enabled(s, a) && Records(s, c, m, x) && Binds(a)
    ensures Records(Next(rx, s, a), c, m, x)
  {
  }

  lemma CloseStepKeepsRecord(rx: Regex, s: State, a: Step, c: nat, m: string, x: bool)
    requires Enabled(s, a) && Records(s, c, m, x) && Closes(a)
    ensures Records(Next(rx, s, a), c, m, x)
  {
  }

  lemma DeliveryStepKeepsRecord(rx: Regex, s: State, a: Step, c: nat, m: string, x: bool)
    requires Enabled(s, a) && Records(s, c, m, x) && !Binds(a) && !Closes(a)
    ensures Records(Next(rx, s, a), c, m, x)
  {
  }

  lemma StepKeepsRecord(rx: Regex, s: State, a: Step, c: nat, m: string, x: bool)
    requires Enabled(s, a) && Records(s, c, m, x)
    ensures Records(Next(rx, s, a), c, m, x)
  {
    if Binds(a) {
      BindStepKeepsRecord(rx, s, a, c, m, x);
    } else if Closes(a) {
      CloseStepKeepsRecord(rx, s, a, c, m, x);
    } else {
      DeliveryStepKeepsRecord(rx, s, a, c, m, x);
    }
  }

  lemma {:induction false} RunKeepsRecord(rx: Regex, s: State, steps: seq<Step>, c: nat, m: string, x: bool)
    requires CanRun(rx, s, steps) && (Records(s, c, m, x) || DoNew(c, m, x) in steps)
    ensures Records(Run(rx, s, steps), c, m, x)
    decreases |steps|
  {
    if steps != [] {
      if Records(s, c, m, x) {
        StepKeepsRecord(rx, s, steps[0], c, m, x);
      }
      RunKeepsRecord(rx, Next(rx, s, steps[0]), steps[1..], c, m, x);
    }
  }

  /** What was asked for when a client was made is what the service holds for it, in every later state. */
  lemma SubscriptionIsKept(rx: Regex, steps: seq<Step>, c: nat, m: string, x: bool)
    requires CanRun(rx, INIT, steps) && DoNew(c, m, x) in steps
    ensures Records(Run(rx, INIT, steps), c, m, x)
  {
    RunKeepsRecord(rx, INIT, steps, c, m, x);
  }

  lemma {:induction false} ClientWasMade(rx: Regex, s: State, steps: seq<Step>, c: nat)
    requires CanRun(rx, s, steps) && c in Run(rx, s, steps).clients && c !in s.clients
    ensures exists m, x :: DoNew(c, m, x) in steps
    decreases |steps|
  {
    var a := steps[0];
    if c in Next(rx, s, a).clients {
      StepMakes(rx, s, a, c);
    } else {
      ClientWasMade(rx, Next(rx, s, a), steps[1..], c);
      var m, x :| DoNew(c, m, x) in steps[1..];
    }
  }

  lemma StepMakes(rx: Regex, s: State, a: Step, c: nat)
    requires Enabled(s, a) && c !in s.clients && c in Next(rx, s, a).clients
    ensures a.DoNew? && a.c == c && a == DoNew(c, a.match_, a.isRegex)
  {
    match a
    case DoNew(d, m, x) =>
    case _ =>
  }

  /** Every client a delivery has called and is done with has received the message. */
  ghost predicate Logged(s: State, t: string) {
    t in s.deliveries ==>
      forall c | c in s.deliveries[t].called :: s.deliveries[t].inflight == Some(c) || Recv(c, t) in s.log
  }

  lemma BindStepLogs(rx: Regex, s: State, a: Step, t: string)
    requires Enabled(s, a) && Logged(s, t) && Binds(a)
    ensures Logged(Next(rx, s, a), t)
  {
  }

  lemma CloseStepLogs(rx: Regex, s: State, a: Step, t: string)
    requires Enabled(s, a) && Logged(s, t) && Closes(a)
    ensures Logged(Next(rx, s, a), t)
  {
  }

  lemma DeliveryStepLogs(rx: Regex, s: State, a: Step, t: string)
    requires Enabled(s, a) && Logged(s, t) && !Binds(a) && !Closes(a)
    ensures Logged(Next(rx, s, a), t)
  {
  }

  lemma StepLogs(rx: Regex, s: State, a: Step, t: string)
    requires Enabled(s, a) && Logged(s, t)
    ensures Logged(Next(rx, s, a), t)
  {
    if Binds(a) {
      BindStepLogs(rx, s, a, t);
    } else if Closes(a) {
      CloseStepLogs(rx, s, a, t);
    } else {
      DeliveryStepLogs(rx, s, a, t);
    }
  }

  lemma {:induction false} RunLogs(rx: Regex, s: State, steps: seq<Step>, t: string)
    requires CanRun(rx, s, steps) && Logged(s, t)
    ensures Logged(Run(rx, s, steps), t)
    decreases |steps|
  {
    if steps != [] {
      StepLogs(rx, s, steps[0], t);
      RunLogs(rx, Next(rx, s, steps[0]), steps[1..], t);
    }
  }

  ghost function Positions(l: seq<Id>, id: Id): set<nat> { set i: nat | i < |l| && l[i] == id }

  lemma OnePosition(l: seq<Id>, id: Id)
    requires Distinct(l) && id in l
    ensures |Positions(l, id)| == 1
  {
    var i: nat :| i < |l| && l[i] == id;
    assert Positions(l, id) == {i};
  }

  /**
   * Outside the write lock, a client and a channel share one live binding exactly if the client's
   * subscription was entered, its close has not begun, and what it asked for matches the tag.
   */
  lemma BindingsAreExact(rx: Regex, steps: seq<Step>, c: nat, m: string, x: bool, t: string)
    requires CanRun(rx, INIT, steps) && DoNew(c, m, x) in steps
    requires var s := Run(rx, INIT, steps); s.lock.Unlocked? && t in s.channels
    ensures var s := Run(rx, INIT, steps);
            && c in s.clients
            && (BoundPair(s, c, t) <==> Entered(steps, c) && DoCloseBegin(c) !in steps && Wants(rx, m, x, t))
            && (BoundPair(s, c, t) ==> |Positions(s.channels[t], Id(c, t))| == 1)
  {
    var s := Run(rx, INIT, steps);
    SubscriptionIsKept(rx, steps, c, m, x);
    OpenIff(rx, steps, c);
    BindingOfRecord(rx, steps, c, t);
  }

  lemma BindingOfRecord(rx: Regex, steps: seq<Step>, c: nat, t: string)
    requires CanRun(rx, INIT, steps)
    requires var s := Run(rx, INIT, steps); s.lock.Unlocked? && c in s.clients && t in s.channels
    ensures var s := Run(rx, INIT, steps);
            && (BoundPair(s, c, t) <==> s.clients[c].phase.Live? && Matches(rx, s.clients[c], t))
            && (BoundPair(s, c, t) ==> |Positions(s.channels[t], Id(c, t))| == 1)
  {
    var s := Run(rx, INIT, steps);
    ReachableHasInv(rx, steps);
    assert PhaseOk(s, c) && PairOk(rx, s, c, t) && ChannelOk(s, t);
    if BoundPair(s, c, t) {
      assert EntryOk(rx, s, Id(c, t)) && BoundOk(s, Id(c, t));
      OnePosition(s.channels[t], Id(c, t));
    }
  }

  lemma CalledAtEnd(rx: Regex, s: State, t: string)
    requires Shape(rx, s) && Exact(rx, s) && Calls(s) && s.lock.Unlocked? && AtEnd(s, t)
    ensures var called := s.deliveries[t].called;
            && Distinct(called)
            && (forall c | c in called :: c in s.clients && Matches(rx, s.clients[c], t))
            && (forall c | c in s.clients && s.clients[c].phase.Live? :: c in called <==> Matches(rx, s.clients[c], t))
  {
    assert DeliveryOk(s, t) && ChannelOk(s, t);
    var called, l := s.deliveries[t].called, s.channels[t];
    assert l[..|l|] == l;
    forall c | c in called ensures c in s.clients && Matches(rx, s.clients[c], t) {
      assert Id(c, t) in l;
      assert EntryOk(rx, s, Id(c, t));
    }
    forall c | c in s.clients && s.clients[c].phase.Live? && Matches(rx, s.clients[c], t) ensures c in called {
      assert PairOk(rx, s, c, t);
      assert EntryOk(rx, s, Id(c, t));
      var i :| 0 <= i < |l| && l[i] == Id(c, t);
    }
  }

  lemma StepCreates(rx: Regex, s: State, a: Step, t: string)
    requires Enabled(s, a)
    ensures t in Next(rx, s, a).channels <==> t in s.channels || a == DoCreateBegin(t)
  {
  }

  /** The channels are those that were created. */
  lemma {:induction false} ChannelsAreCreated(rx: Regex, s: State, steps: seq<Step>, t: string)
    requires CanRun(rx, s, steps)
    ensures t in Run(rx, s, steps).channels <==> t in s.channels || DoCreateBegin(t) in steps
    decreases |steps|
  {
    if steps != [] {
      StepCreates(rx, s, steps[0], t);
      ChannelsAreCreated(rx, Next(rx, s, steps[0]), steps[1..], t);
    }
  }

  /** A client that was called has asked for the tag and has received the message. */
  lemma CalledAsked(rx: Regex, steps: seq<Step>, t: string, c: nat) returns (m: string, x: bool)
    requires CanRun(rx, INIT, steps)
    requires var s := Run(rx, INIT, steps); s.lock.Unlocked? && AtEnd(s, t) && c in s.deliveries[t].called
    ensures DoNew(c, m, x) in steps && Wants(rx, m, x, t) && Recv(c, t) in Run(rx, INIT, steps).log
  {
    var s := Run(rx, INIT, steps);
    ReachableHasInv(rx, steps);
    CalledAtEnd(rx, s, t);
    RunLogs(rx, INIT, steps, t);
    ClientWasMade(rx, INIT, steps, c);
    m, x :| DoNew(c, m, x) in steps;
    SubscriptionIsKept(rx, steps, c, m, x);
  }

  /** An open client has been called exactly if it asked for the tag. */
  lemma OpenCalledIff(rx: Regex, steps: seq<Step>, t: string, c: nat, m: string, x: bool)
    requires CanRun(rx, INIT, steps) && DoNew(c, m, x) in steps && Entered(steps, c) && DoCloseBegin(c) !in steps
    requires var s := Run(rx, INIT, steps); s.lock.Unlocked? && AtEnd(s, t)
    ensures c in Run(rx, INIT, steps).deliveries[t].called <==> Wants(rx, m, x, t)
  {
    ReachableHasInv(rx, steps);
    CalledAtEnd(rx, Run(rx, INIT, steps), t);
    SubscriptionIsKept(rx, steps, c, m, x);
    OpenIff(rx, steps, c);
  }

  /**
   * When a delivery has gone through its channel, the clients it called that are still open are
   * exactly the open ones among all that ever subscribed whose subscription matches the tag; each
   * was called once and has received the message, and nobody was called who had not asked for it.
   */
  lemma DeliveryIsNaiveScan(rx: Regex, steps: seq<Step>, t: string)
    requires CanRun(rx, INIT, steps)
    requires var s := Run(rx, INIT, steps); s.lock.Unlocked? && AtEnd(s, t)
    ensures var s := Run(rx, INIT, steps);
            var called := s.deliveries[t].called;
            && Distinct(called)
            && (forall c | c in called :: Recv(c, t) in s.log)
            && (forall c | c in called :: exists m, x :: DoNew(c, m, x) in steps && Wants(rx, m, x, t))
            && (forall c, m, x | DoNew(c, m, x) in steps && Entered(steps, c) && DoCloseBegin(c) !in steps ::
                  c in called <==> Wants(rx, m, x, t))
  {
    var s := Run(rx, INIT, steps);
    ReachableHasInv(rx, steps);
    CalledAtEnd(rx, s, t);
    var called := s.deliveries[t].called;
    forall c | c in called
      ensures Recv(c, t) in s.log && exists m, x :: DoNew(c, m, x) in steps && Wants(rx, m, x, t)
    {
      var m, x := CalledAsked(rx, steps, t, c);
    }
    forall c, m, x | DoNew(c, m, x) in steps && Entered(steps, c) && DoCloseBegin(c) !in steps
      ensures c in called <==> Wants(rx, m, x, t)
    {
      OpenCalledIff(rx, steps, t, c, m, x);
    }
  }

  /** A callback is only started for a client that matches and whose close has not unbound it. */
  lemma VisitCallsOpenClient(rx: Regex, steps: seq<Step>, t: string)
    requires CanRun(rx, INIT, steps)
    requires CanVisit(Run(rx, INIT, steps), t)
    ensures var s := Run(rx, INIT, steps);
            var id := s.channels[t][s.deliveries[t].pos];
            s.entries[id].bound ==>
              && id.cli !in s.deliveries[t].called && Matches(rx, s.clients[id.cli], t)
              && (InPhase(s, id.cli, Live) || InPhase(s, id.cli, Joining) || InPhase(s, id.cli, Leaving))
  {
    var s := Run(rx, INIT, steps);
    ReachableHasInv(rx, steps);
    NotCalledTwice(rx, s, t);
    var id := s.channels[t][s.deliveries[t].pos];
    assert ChannelOk(s, t) && EntryOk(rx, s, id) && BoundOk(s, id) && LockOk(s);
  }

  /** A client's count is its handle, its place in the regex queue, its live bindings and its running callbacks. */
  lemma RefcountIsExact(rx: Regex, steps: seq<Step>, c: nat)
    requires CanRun(rx, INIT, steps) && c in Run(rx, INIT, steps).clients
    ensures var s := Run(rx, INIT, steps);
            s.clients[c].refs == B(!s.clients[c].phase.Released?) + B(c in s.regexTq)
                                 + |BoundTags(s.entries, c)| + |InFlight(s.deliveries, c)|
  {
    ReachableHasInv(rx, steps);
    assert CountOk(Run(rx, INIT, steps), c);
  }

  /**
   * The close event reaches a client at most once and is the last thing that does.  A client
   * nobody refers to any more is waiting for it or has had it; a client that is being freed or
   * is gone has had it; and a client that is gone holds no binding, queue place or callback.
   */
  lemma CloseComesOnceAndLast(rx: Regex, steps: seq<Step>, c: nat)
    requires CanRun(rx, INIT, steps)
    ensures var s := Run(rx, INIT, steps);
            && (forall i | 0 <= i < |s.log| && s.log[i] == Closed(c) :: forall j | i < j < |s.log| :: s.log[j].cli != c)
            && (c in s.clients ==> (s.clients[c].refs == 0 <==> c in s.closeTq || Closed(c) in s.log))
            && (Closed(c) in s.log <==> s.reaper == Some(c) || (c in s.clients && s.clients[c].gone))
            && !(c in s.closeTq && Closed(c) in s.log)
            && (c in s.clients && s.clients[c].gone ==>
                  && Closed(c) in s.log && s.clients[c].links == {} && c !in s.regexTq && c !in s.closeTq
                  && (forall id | id in s.entries && id.cli == c :: !s.entries[id].bound)
                  && (forall t | t in s.deliveries :: s.deliveries[t].inflight != Some(c)))
  {
    var s := Run(rx, INIT, steps);
    ReachableHasInv(rx, steps);
    assert EndOk(s, c);
    if c in s.clients && s.clients[c].gone {
      assert CountOk(s, c) && LinksOk(s, c);
      forall id | id in s.entries && id.cli == c ensures !s.entries[id].bound {
        assert EntryOk(rx, s, id);
      }
      assert forall t | t in s.clients[c].links :: EntryOk(rx, s, Id(c, t));
      forall t | t in s.deliveries ensures s.deliveries[t].inflight != Some(c) {
        assert t !in InFlight(s.deliveries, c);
      }
    }
  }

  /** When the close thread frees a client, every entry in its list has been unbound. */
  lemma FreeFindsNothingBound(rx: Regex, steps: seq<Step>)
    requires CanRun(rx, INIT, steps) && Enabled(Run(rx, INIT, steps), DoFree)
    ensures var s := Run(rx, INIT, steps);
            forall t | t in s.clients[s.reaper.value].links :: !BoundPair(s, s.reaper.value, t)
  {
    ReachableHasInv(rx, steps);
    ReaperIsUnreferenced(Run(rx, INIT, steps));
  }

  /** An entry is freed exactly when it has left both the channel's and the client's list. */
  lemma EntryFreedAfterBothLists(rx: Regex, steps: seq<Step>, id: Id)
    requires CanRun(rx, INIT, steps) && id in Run(rx, INIT, steps).entries
    ensures var s := Run(rx, INIT, steps);
            && id.cli in s.clients && id.tag in s.channels
            && (s.entries[id].freed <==> id !in s.channels[id.tag] && id.tag !in s.clients[id.cli].links)
  {
    ReachableHasInv(rx, steps);
    assert EntryOk(rx, Run(rx, INIT, steps), id);
  }

  /** The regex queue and the close queue thread the same link, and never hold the same client. */
  lemma QueuesAreDisjoint(rx: Regex, steps: seq<Step>, c: nat)
    requires CanRun(rx, INIT, steps)
    ensures var s := Run(rx, INIT, steps); !(c in s.regexTq && c in s.closeTq)
  {
    var s := Run(rx, INIT, steps);
    ReachableHasInv(rx, steps);
    assert EndOk(s, c);
    if c in s.regexTq {
      assert CountOk(s, c);
    }
  }

  // Unbound entries are swept

  /** A delivery remembers whether it skipped an unbound entry. */
  ghost predicate SkipsKnown(s: State, t: string) {
    t in s.deliveries ==>
      var d := s.deliveries[t];
      |d.called| <= d.pos + B(d.inflight.Some?) && (d.gc <==> |d.called| < d.pos + B(d.inflight.Some?))
  }

  lemma BindStepKnowsSkips(rx: Regex, s: State, a: Step, t: string)
    requires Enabled(s, a) && SkipsKnown(s, t) && Binds(a)
    ensures SkipsKnown(Next(rx, s, a), t)
  {
  }

  lemma CloseStepKnowsSkips(rx: Regex, s: State, a: Step, t: string)
    requires Enabled(s, a) && SkipsKnown(s, t) && Closes(a)
    ensures SkipsKnown(Next(rx, s, a), t)
  {
  }

  lemma DeliveryStepKnowsSkips(rx: Regex, s: State, a: Step, t: string)
    requires Enabled(s, a) && SkipsKnown(s, t) && !Binds(a) && !Closes(a)
    ensures SkipsKnown(Next(rx, s, a), t)
  {
  }

  lemma StepKnowsSkips(rx: Regex, s: State, a: Step, t: string)
    requires Enabled(s, a) && SkipsKnown(s, t)
    ensures SkipsKnown(Next(rx, s, a), t)
  {
    if Binds(a) {
      BindStepKnowsSkips(rx, s, a, t);
    } else if Closes(a) {
      CloseStepKnowsSkips(rx, s, a, t);
    } else {
      DeliveryStepKnowsSkips(rx, s, a, t);
    }
  }

  lemma {:induction false} RunKnowsSkips(rx: Regex, s: State, steps: seq<Step>, t: string)
    requires CanRun(rx, s, steps) && SkipsKnown(s, t)
    ensures SkipsKnown(Run(rx, s, steps), t)
    decreases |steps|
  {
    if steps != [] {
      StepKnowsSkips(rx, s, steps[0], t);
      RunKnowsSkips(rx, Next(rx, s, steps[0]), steps[1..], t);
    }
  }

  lemma {:induction false} KeptContents(l: seq<Id>, entries: map<Id, Entry>, id: Id)
    ensures id in Kept(l, entries) <==> id in l && (id in entries ==> entries[id].bound)
  {
    if l != [] {
      KeptContents(l[1..], entries, id);
    }
  }

  /** A delivery that skipped an entry sweeps its channel before it ends, and then only bound entries are left. */
  lemma UnboundIsSwept(rx: Regex, steps: seq<Step>, t: string)
    requires CanRun(rx, INIT, steps) && t in Run(rx, INIT, steps).deliveries
    ensures var s := Run(rx, INIT, steps);
            && (AtEnd(s, t) ==>
                  var r := Next(rx, s, DoDeliverEnd(t));
                  if |s.deliveries[t].called| < |s.channels[t]| then t in r.deliveries && r.deliveries[t].sweeping
                  else t !in r.deliveries)
            && (Enabled(s, DoSweep(t)) ==>
                  var r := Next(rx, s, DoSweep(t));
                  t !in r.deliveries && forall id ::
                    id in r.channels[t] <==> id in s.channels[t] && id in s.entries && s.entries[id].bound)
  {
    var s := Run(rx, INIT, steps);
    ReachableHasInv(rx, steps);
    RunKnowsSkips(rx, INIT, steps, t);
    assert DeliveryOk(s, t) && ChannelOk(s, t);
    var l := s.channels[t];
    forall id ensures id in Kept(l, s.entries) <==> id in l && id in s.entries && s.entries[id].bound {
      KeptContents(l, s.entries, id);
    }
  }

  // Nobody waits for ever

  /** Whoever holds the write lock has a step to take, so that the lock is given up in the end. */
  lemma HolderCanGoOn(rx: Regex, steps: seq<Step>) returns (a: Step)
    requires CanRun(rx, INIT, steps) && !Run(rx, INIT, steps).lock.Unlocked?
    ensures Enabled(Run(rx, INIT, steps), a)
    ensures a.DoCreateOne? || a.DoCreateEnd? || a.DoJoinOne? || a.DoJoinEnd? || a.DoCloseOne? || a.DoCloseEnd?
  {
    var s := Run(rx, INIT, steps);
    ReachableHasInv(rx, steps);
    assert LockOk(s);
    match s.lock
    case CreatingCh(t, todo) =>
      a := if todo == [] then DoCreateEnd else DoCreateOne;
      assert todo != [] ==> todo[0] in s.regexTq;
    case JoiningAll(c, tags) =>
      if tags == {} {
        a := DoJoinEnd;
      } else {
        var t :| t in tags;
        a := DoJoinOne(t);
      }
    case ClosingCli(c, tags) =>
      if tags == {} {
        a := DoCloseEnd;
      } else {
        var t :| t in tags;
        assert LinksOk(s, c);
        a := DoCloseOne(t);
      }
  }

  /** A delivery under way has a step to take, whoever holds the write lock. */
  lemma DeliveryCanGoOn(rx: Regex, steps: seq<Step>, t: string) returns (a: Step)
    requires CanRun(rx, INIT, steps) && t in Run(rx, INIT, steps).deliveries
    ensures Enabled(Run(rx, INIT, steps), a)
    ensures a == DoVisit(t) || a == DoReturn(t) || a == DoDeliverEnd(t) || a == DoSweep(t)
  {
    var s := Run(rx, INIT, steps);
    ReachableHasInv(rx, steps);
    assert DeliveryOk(s, t) && ChannelOk(s, t);
    var d, l := s.deliveries[t], s.channels[t];
    if d.sweeping {
      a := DoSweep(t);
    } else if d.inflight.Some? {
      a := DoReturn(t);
    } else if d.pos == |l| {
      a := DoDeliverEnd(t);
    } else {
      assert l[d.pos] in l && EntryOk(rx, s, l[d.pos]);
      a := DoVisit(t);
    }
  }

  /** Outside the write lock a client can take the next step of its life. */
  lemma ClientCanGoOn(rx: Regex, steps: seq<Step>, c: nat, m: string, x: bool)
    requires CanRun(rx, INIT, steps) && DoNew(c, m, x) in steps && Run(rx, INIT, steps).lock.Unlocked?
    ensures var s := Run(rx, INIT, steps);
            && (InPhase(s, c, Fresh) && x ==> Enabled(s, DoJoinBegin(c)))
            && (InPhase(s, c, Fresh) && !x ==> Enabled(s, if m in s.channels then DoResolve(c) else DoCreateBegin(m)))
            && (InPhase(s, c, Resolved) ==> Enabled(s, DoBindExact(c)))
            && (InPhase(s, c, Live) ==> Enabled(s, DoCloseBegin(c)))
            && (InPhase(s, c, Detached) ==> Enabled(s, DoPutHandle(c)))
            && !InPhase(s, c, Joining) && !InPhase(s, c, Leaving)
  {
    SubscriptionIsKept(rx, steps, c, m, x);
    ReachableHasInv(rx, steps);
    assert PhaseOk(Run(rx, INIT, steps), c);
  }

  /** A client in the close queue, or taken from it, can be served. */
  lemma CloserCanGoOn(rx: Regex, steps: seq<Step>)
    requires CanRun(rx, INIT, steps)
    ensures var s := Run(rx, INIT, steps);
            s.reaper.Some? || s.closeTq != [] ==> Enabled(s, if s.reaper.Some? then DoFree else DoReap)
  {
    ReachableHasInv(rx, steps);
    assert Ending(Run(rx, INIT, steps));
  }
}
