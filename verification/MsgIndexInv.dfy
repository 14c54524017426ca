/** What every step of the channel and client index keeps. */
module MsgIndexInv {
  import opened Prelude
  import opened MsgIndex

  function B(b: bool): nat { if b then 1 else 0 }

  // Lists, entries and entry reference counts agree

  ghost predicate EntryOk(rx: Regex, s: State, id: Id)
    requires id in s.entries
  {
    && id.cli in s.clients && id.tag in s.channels
    && var cl, e := s.clients[id.cli], s.entries[id];
    && Matches(rx, cl, id.tag)
    && (id.tag in cl.links <==> !cl.gone)
    && e.refs == B(id.tag in cl.links) + B(id in s.channels[id.tag])
    && (e.freed <==> e.refs == 0)
    && (e.bound ==> id in s.channels[id.tag] && id.tag in cl.links)
  }

  ghost predicate ChannelOk(s: State, t: string)
    requires t in s.channels
  {
    Distinct(s.channels[t]) && forall id | id in s.channels[t] :: id.tag == t && id in s.entries
  }

  ghost predicate LinksOk(s: State, c: nat)
    requires c in s.clients
  {
    forall t | t in s.clients[c].links :: Id(c, t) in s.entries
  }

  ghost predicate Shape(rx: Regex, s: State) {
    && (forall id | id in s.entries :: EntryOk(rx, s, id))
    && (forall t | t in s.channels :: ChannelOk(s, t))
    && (forall c | c in s.clients :: LinksOk(s, c))
  }

  // The lock holder, the phases and the regex queue agree

  ghost predicate LockOk(s: State) {
    match s.lock
    case Unlocked => true
    case CreatingCh(t, todo) =>
      && t in s.channels && t !in s.deliveries && Distinct(todo)
      && (forall c | c in todo :: c in s.regexTq && Id(c, t) !in s.entries)
    case JoiningAll(c, tags) =>
      && c in s.clients && s.clients[c].phase.Joining? && tags <= s.channels.Keys
      && (forall t | t in tags :: Id(c, t) !in s.entries)
    case ClosingCli(c, tags) =>
      c in s.clients && s.clients[c].phase.Leaving? && tags <= s.clients[c].links
  }

  ghost predicate Queued(p: Phase) { p.Joining? || p.Live? || p.Leaving? }

  ghost predicate PhaseOk(s: State, c: nat)
    requires c in s.clients
  {
    var cl := s.clients[c];
    && (cl.phase.Joining? ==> cl.isRegex && s.lock.JoiningAll? && s.lock.cli == c)
    && (cl.phase.Leaving? ==> s.lock.ClosingCli? && s.lock.cli == c)
    && (c in s.regexTq <==> cl.isRegex && Queued(cl.phase))
    && (cl.phase.Resolved? ==> !cl.isRegex)
    && (!cl.isRegex && (cl.phase.Resolved? || cl.phase.Live?) ==> cl.match_ in s.channels)
  }

  ghost predicate UsedOk(s: State, id: Id) {
    id.cli in s.clients ==> !s.clients[id.cli].phase.Fresh? && !s.clients[id.cli].phase.Resolved?
  }

  ghost predicate Phases(s: State) {
    && LockOk(s)
    && Distinct(s.regexTq)
    && (forall c | c in s.regexTq :: c in s.clients)
    && (forall c | c in s.clients :: PhaseOk(s, c))
    && (forall id | id in s.entries :: UsedOk(s, id))
  }

  // Bindings are exact

  /** The lock holder has yet to look at this pair. */
  ghost predicate Pending(s: State, c: nat, t: string) {
    || (s.lock.CreatingCh? && s.lock.tag == t && c in s.lock.todo)
    || (s.lock.JoiningAll? && s.lock.cli == c && t in s.lock.tags)
  }

  ghost predicate Attached(s: State, c: nat) {
    c in s.clients && (s.clients[c].phase.Live? || s.clients[c].phase.Joining?)
  }

  ghost predicate BoundPair(s: State, c: nat, t: string) {
    Id(c, t) in s.entries && s.entries[Id(c, t)].bound
  }

  ghost predicate PairOk(rx: Regex, s: State, c: nat, t: string) {
    Attached(s, c) && t in s.channels && Matches(rx, s.clients[c], t) && !Pending(s, c, t) ==> BoundPair(s, c, t)
  }

  ghost predicate BoundOk(s: State, id: Id)
    requires id in s.entries
  {
    s.entries[id].bound ==>
      Attached(s, id.cli) || (s.lock.ClosingCli? && s.lock.cli == id.cli && id.tag in s.lock.tags)
  }

  ghost predicate Exact(rx: Regex, s: State) {
    && (forall c, t | c in s.clients && t in s.channels :: PairOk(rx, s, c, t))
    && (forall id | id in s.entries :: BoundOk(s, id))
  }

  // Client reference counts

  ghost function BoundTags(entries: map<Id, Entry>, c: nat): set<string> {
    set id | id in entries && id.cli == c && entries[id].bound :: id.tag
  }

  ghost function InFlight(deliveries: map<string, Delivery>, c: nat): set<string> {
    set t | t in deliveries && deliveries[t].inflight == Some(c)
  }

  /** Handle, regex queue, live bindings and callbacks in flight. */
  ghost function Held(s: State, c: nat): nat
    requires c in s.clients
  {
    B(!s.clients[c].phase.Released?) + B(c in s.regexTq) + |BoundTags(s.entries, c)| + |InFlight(s.deliveries, c)|
  }

  ghost predicate CountOk(s: State, c: nat)
    requires c in s.clients
  {
    s.clients[c].refs == Held(s, c)
  }

  ghost predicate Counted(s: State) {
    forall c | c in s.clients :: CountOk(s, c)
  }

  // Closing

  ghost predicate ClosedSeen(s: State, c: nat) { s.reaper == Some(c) || (c in s.clients && s.clients[c].gone) }

  ghost predicate EndOk(s: State, c: nat) {
    && (c in s.clients ==> (s.clients[c].refs == 0 <==> c in s.closeTq || ClosedSeen(s, c)))
    && (Closed(c) in s.log <==> ClosedSeen(s, c))
    && (c in s.closeTq ==> c in s.clients && !ClosedSeen(s, c))
  }

  /** Nothing reaches a client after its close event. */
  ghost predicate LogOk(log: seq<Event>) {
    forall i, j | 0 <= i < j < |log| && log[i].Closed? :: log[j].cli != log[i].cli
  }

  ghost predicate Ending(s: State) {
    && Distinct(s.closeTq)
    && (s.reaper.Some? ==> s.reaper.value in s.clients && !s.clients[s.reaper.value].gone)
    && (forall c :: EndOk(s, c))
    && LogOk(s.log)
  }

  // Deliveries

  ghost predicate DeliveryOk(s: State, t: string)
    requires t in s.deliveries
  {
    var d := s.deliveries[t];
    && t in s.channels
    && var l := s.channels[t];
    var seen := d.pos + B(d.inflight.Some?);
    && seen <= |l|
    && (d.sweeping ==> d.inflight.None?)
    && (d.inflight.Some? ==> d.inflight.value == l[d.pos].cli && d.inflight.value in s.clients)
    && Distinct(d.called)
    && (forall c | c in d.called :: Id(c, t) in l[..seen])
    && (forall i | 0 <= i < seen && l[i] in s.entries && s.entries[l[i]].bound :: l[i].cli in d.called)
  }

  ghost predicate Calls(s: State) {
    forall t | t in s.deliveries :: DeliveryOk(s, t)
  }

  ghost predicate Inv(rx: Regex, s: State) {
    Shape(rx, s) && Phases(s) && Exact(rx, s) && Counted(s) && Ending(s) && Calls(s)
  }

  lemma InitInv(rx: Regex)
    ensures Inv(rx, INIT)
  {
  }

  // Shape

  ghost predicate SameIndex(s: State, r: State) {
    && r.entries == s.entries && r.channels == s.channels && r.clients.Keys == s.clients.Keys
    && (forall c | c in s.clients ::
          && r.clients[c].match_ == s.clients[c].match_ && r.clients[c].isRegex == s.clients[c].isRegex
          && r.clients[c].links == s.clients[c].links && r.clients[c].gone == s.clients[c].gone)
  }

  lemma ShapeSame(rx: Regex, s: State, r: State)
    requires Shape(rx, s) && SameIndex(s, r)
    ensures Shape(rx, r)
  {
  }

  lemma ShapeNewClient(rx: Regex, s: State, c: nat, cl: Client)
    requires Shape(rx, s) && c !in s.clients && cl.links == {}
    ensures Shape(rx, s.(clients := s.clients[c := cl]))
  {
  }

  lemma ShapeNewChannel(rx: Regex, s: State, t: string)
    requires Shape(rx, s) && t !in s.channels
    ensures Shape(rx, s.(channels := s.channels[t := []]))
  {
  }

  lemma ShapeBind(rx: Regex, s: State, c: nat, t: string)
    requires Shape(rx, s) && c in s.clients && t in s.channels && Id(c, t) !in s.entries
    requires Matches(rx, s.clients[c], t) && !s.clients[c].gone
    ensures Shape(rx, Bind(s, c, t))
  {
    var r, id := Bind(s, c, t), Id(c, t);
    assert ChannelOk(s, t) && LinksOk(s, c);
    forall k | k in r.entries ensures EntryOk(rx, r, k) {
      if k != id {
        assert EntryOk(rx, s, k);
      }
    }
    forall u | u in r.channels ensures ChannelOk(r, u) {
      assert ChannelOk(s, u);
    }
    forall d | d in r.clients ensures LinksOk(r, d) {
      assert LinksOk(s, d);
    }
  }

  lemma ShapeUnbind(rx: Regex, s: State, id: Id)
    requires Shape(rx, s) && id in s.entries
    ensures EntryOk(rx, s, id) && Shape(rx, Unbind(s, id))
  {
    assert EntryOk(rx, s, id);
    var r := Unbind(s, id);
    forall k | k in r.entries ensures EntryOk(rx, r, k) {
      assert EntryOk(rx, s, k);
    }
    forall u | u in r.channels ensures ChannelOk(r, u) {
      assert ChannelOk(s, u);
    }
    forall d | d in r.clients ensures LinksOk(r, d) {
      assert LinksOk(s, d);
    }
  }

  lemma {:induction false} KeptContents(l: seq<Id>, entries: map<Id, Entry>)
    requires Distinct(l)
    ensures Distinct(Kept(l, entries))
    ensures forall id :: id in Kept(l, entries) <==> id in l && !(id in entries && !entries[id].bound)
  {
    if l != [] {
      assert l == [l[0]] + l[1..];
      KeptContents(l[1..], entries);
    }
  }

  lemma ShapeSweep(rx: Regex, s: State, t: string)
    requires Shape(rx, s) && t in s.channels
    ensures Shape(rx, Sweep(s, t))
  {
    var r := Sweep(s, t);
    assert ChannelOk(s, t);
    KeptContents(s.channels[t], s.entries);
    forall k | k in r.entries ensures EntryOk(rx, r, k) {
      assert EntryOk(rx, s, k);
    }
    forall u | u in r.channels ensures ChannelOk(r, u) {
      assert ChannelOk(s, u);
    }
    forall d | d in r.clients ensures LinksOk(r, d) {
      assert LinksOk(s, d);
    }
  }

  lemma ShapeFree(rx: Regex, s: State)
    requires Shape(rx, s) && s.reaper.Some? && s.reaper.value in s.clients && !s.clients[s.reaper.value].gone
    requires forall id | id in s.entries && id.cli == s.reaper.value :: !s.entries[id].bound
    ensures Shape(rx, FreeClient(s))
  {
    var r := FreeClient(s);
    forall k | k in r.entries ensures EntryOk(rx, r, k) {
      assert EntryOk(rx, s, k);
    }
    forall u | u in r.channels ensures ChannelOk(r, u) {
      assert ChannelOk(s, u);
    }
    forall d | d in r.clients ensures LinksOk(r, d) {
      assert LinksOk(s, d);
    }
  }

  // Phases

  lemma {:induction false} WithoutContents(q: seq<nat>, c: nat)
    requires Distinct(q)
    ensures Distinct(Without(q, c))
    ensures forall d :: d in Without(q, c) <==> d in q && d != c
  {
    if q != [] {
      assert q == [q[0]] + q[1..];
      WithoutContents(q[1..], c);
      assert q[0] !in q[1..];
    }
  }

  /** Nothing that the phases depend on has changed. */
  ghost predicate SamePhases(s: State, r: State) {
    && r.lock == s.lock && r.regexTq == s.regexTq
    && r.entries.Keys == s.entries.Keys && r.channels.Keys == s.channels.Keys && r.clients.Keys == s.clients.Keys
    && (forall c | c in s.clients ::
          && r.clients[c].match_ == s.clients[c].match_ && r.clients[c].isRegex == s.clients[c].isRegex
          && r.clients[c].phase == s.clients[c].phase)
    && (s.lock.CreatingCh? && s.lock.tag !in s.deliveries ==> s.lock.tag !in r.deliveries)
    && (s.lock.ClosingCli? && s.lock.cli in s.clients ==> r.clients[s.lock.cli].links == s.clients[s.lock.cli].links)
  }

  lemma PhasesSame(s: State, r: State)
    requires Phases(s) && SamePhases(s, r)
    ensures Phases(r)
  {
    forall c | c in r.clients ensures PhaseOk(r, c) {
      assert PhaseOk(s, c);
    }
    forall id | id in r.entries ensures UsedOk(r, id) {
      assert UsedOk(s, id);
    }
  }

  lemma PhasesNew(rx: Regex, s: State, c: nat, cl: Client)
    requires Shape(rx, s) && Phases(s) && c !in s.clients && cl.phase.Fresh?
    ensures Phases(s.(clients := s.clients[c := cl]))
  {
    var r := s.(clients := s.clients[c := cl]);
  }

  lemma PhasesCreateBegin(rx: Regex, s: State, t: string)
    requires Shape(rx, s) && Phases(s) && s.lock.Unlocked? && t !in s.channels && t !in s.deliveries
    ensures Phases(CreateBegin(s, t))
  {
    var r := CreateBegin(s, t);
  }

  lemma PhasesCreateOne(rx: Regex, s: State)
    requires Shape(rx, s) && Phases(s) && CanCreateOne(s)
    ensures Phases(CreateOne(rx, s))
  {
    var r := CreateOne(rx, s);
    assert PhaseOk(s, s.lock.todo[0]);
  }

  lemma PhasesCreateEnd(rx: Regex, s: State)
    requires Shape(rx, s) && Phases(s) && s.lock.CreatingCh?
    ensures Phases(s.(lock := Unlocked))
  {
    var r := s.(lock := Unlocked);
  }

  lemma PhasesResolve(rx: Regex, s: State, c: nat)
    requires Shape(rx, s) && Phases(s) && s.lock.Unlocked? && InPhase(s, c, Fresh) && !s.clients[c].isRegex
             && s.clients[c].match_ in s.channels
    ensures Phases(SetPhase(s, c, Resolved))
  {
    var r := SetPhase(s, c, Resolved);
  }

  lemma PhasesBindExact(rx: Regex, s: State, c: nat)
    requires Shape(rx, s) && Phases(s) && CanBindExact(s, c)
    ensures Phases(BindExact(s, c))
  {
    var r := BindExact(s, c);
  }

  lemma PhasesJoinBegin(rx: Regex, s: State, c: nat)
    requires Shape(rx, s) && Phases(s) && s.lock.Unlocked? && InPhase(s, c, Fresh) && s.clients[c].isRegex
    ensures Phases(JoinBegin(s, c))
  {
    var r := JoinBegin(s, c);
  }

  lemma PhasesJoinOne(rx: Regex, s: State, t: string)
    requires Shape(rx, s) && Phases(s) && CanJoinOne(s, t)
    ensures Phases(JoinOne(rx, s, t))
  {
    var r := JoinOne(rx, s, t);
  }

  lemma PhasesJoinEnd(rx: Regex, s: State)
    requires Shape(rx, s) && Phases(s) && s.lock.JoiningAll? && s.lock.cli in s.clients
    ensures Phases(JoinEnd(s))
  {
    var r := JoinEnd(s);
  }

  lemma PhasesCloseBegin(rx: Regex, s: State, c: nat)
    requires Shape(rx, s) && Phases(s) && s.lock.Unlocked? && InPhase(s, c, Live)
    ensures Phases(CloseBegin(s, c))
  {
    var r := CloseBegin(s, c);
  }

  lemma PhasesCloseOne(rx: Regex, s: State, t: string)
    requires Shape(rx, s) && Phases(s) && CanCloseOne(s, t)
    ensures Phases(CloseOne(s, t))
  {
    var r := CloseOne(s, t);
  }

  lemma PhasesCloseEnd(rx: Regex, s: State)
    requires Shape(rx, s) && Phases(s) && s.lock.ClosingCli? && s.lock.cli in s.clients
    ensures Phases(CloseEnd(s))
  {
    var r := CloseEnd(s);
    WithoutContents(s.regexTq, s.lock.cli);
  }

  lemma PhasesPutHandle(rx: Regex, s: State, c: nat)
    requires Shape(rx, s) && Phases(s) && InPhase(s, c, Detached)
    ensures Phases(PutHandle(s, c))
  {
    var r := PutHandle(s, c);
  }

  // Exactness

  /** Nothing that the bindings depend on has changed. */
  ghost predicate SameBindings(s: State, r: State) {
    && r.lock == s.lock && r.channels.Keys == s.channels.Keys && r.clients.Keys == s.clients.Keys
    && (forall c | c in s.clients ::
          && r.clients[c].match_ == s.clients[c].match_ && r.clients[c].isRegex == s.clients[c].isRegex
          && r.clients[c].phase == s.clients[c].phase)
    && r.entries.Keys == s.entries.Keys
    && (forall id | id in s.entries :: r.entries[id].bound == s.entries[id].bound)
  }

  lemma ExactSame(rx: Regex, s: State, r: State)
    requires Exact(rx, s) && SameBindings(s, r)
    ensures Exact(rx, r)
  {
    forall c, t | c in r.clients && t in r.channels ensures PairOk(rx, r, c, t) {
      assert PairOk(rx, s, c, t);
    }
    forall id | id in r.entries ensures BoundOk(r, id) {
      assert BoundOk(s, id);
    }
  }

  lemma ExactNew(rx: Regex, s: State, c: nat, cl: Client)
    requires Exact(rx, s) && c !in s.clients && cl.phase.Fresh?
    ensures Exact(rx, s.(clients := s.clients[c := cl]))
  {
    var r := s.(clients := s.clients[c := cl]);
    forall d, u | d in r.clients && u in r.channels ensures PairOk(rx, r, d, u) {
      if d in s.clients && u in s.channels {
        assert PairOk(rx, s, d, u);
      }
    }
    forall k | k in r.entries ensures BoundOk(r, k) {
      if k in s.entries {
        assert BoundOk(s, k);
      }
    }
  }

  lemma ExactCreateBegin(rx: Regex, s: State, t: string)
    requires Phases(s) && Exact(rx, s) && s.lock.Unlocked? && t !in s.channels
    ensures Exact(rx, CreateBegin(s, t))
  {
    var r := CreateBegin(s, t);
    assert forall d | d in s.clients :: PhaseOk(s, d);
    forall d, u | d in r.clients && u in r.channels ensures PairOk(rx, r, d, u) {
      if d in s.clients && u in s.channels {
        assert PairOk(rx, s, d, u);
      }
    }
    forall k | k in r.entries ensures BoundOk(r, k) {
      if k in s.entries {
        assert BoundOk(s, k);
      }
    }
  }

  lemma ExactCreateOne(rx: Regex, s: State)
    requires Shape(rx, s) && Phases(s) && Exact(rx, s) && CanCreateOne(s)
    ensures Exact(rx, CreateOne(rx, s))
  {
    var r := CreateOne(rx, s);
    assert s.lock.todo == [s.lock.todo[0]] + s.lock.todo[1..];
    assert PhaseOk(s, s.lock.todo[0]);
    forall d, u | d in r.clients && u in r.channels ensures PairOk(rx, r, d, u) {
      assert PairOk(rx, s, d, u);
    }
    forall k | k in r.entries ensures BoundOk(r, k) {
      if k in s.entries {
        assert BoundOk(s, k);
      }
    }
  }

  lemma ExactCreateEnd(rx: Regex, s: State)
    requires Shape(rx, s) && Phases(s) && Exact(rx, s) && s.lock.CreatingCh? && s.lock.todo == []
    ensures Exact(rx, s.(lock := Unlocked))
  {
    var r := s.(lock := Unlocked);
    forall d, u | d in r.clients && u in r.channels ensures PairOk(rx, r, d, u) {
      assert PairOk(rx, s, d, u);
    }
    forall k | k in r.entries ensures BoundOk(r, k) {
      assert BoundOk(s, k);
    }
  }

  lemma ExactResolve(rx: Regex, s: State, c: nat)
    requires Shape(rx, s) && Phases(s) && Exact(rx, s) && s.lock.Unlocked? && InPhase(s, c, Fresh)
    ensures Exact(rx, SetPhase(s, c, Resolved))
  {
    var r := SetPhase(s, c, Resolved);
    forall d, u | d in r.clients && u in r.channels ensures PairOk(rx, r, d, u) {
      assert PairOk(rx, s, d, u);
    }
    forall k | k in r.entries ensures BoundOk(r, k) {
      assert BoundOk(s, k);
    }
  }

  lemma ExactBindExact(rx: Regex, s: State, c: nat)
    requires Exact(rx, s) && CanBindExact(s, c) && !s.clients[c].isRegex
    ensures Exact(rx, BindExact(s, c))
  {
    var r := BindExact(s, c);
    forall d, u | d in r.clients && u in r.channels ensures PairOk(rx, r, d, u) {
      if d in s.clients && u in s.channels {
        assert PairOk(rx, s, d, u);
      }
    }
    forall k | k in r.entries ensures BoundOk(r, k) {
      if k in s.entries {
        assert BoundOk(s, k);
      }
    }
  }

  lemma ExactJoinBegin(rx: Regex, s: State, c: nat)
    requires Exact(rx, s) && s.lock.Unlocked? && InPhase(s, c, Fresh) && s.clients[c].isRegex
    ensures Exact(rx, JoinBegin(s, c))
  {
    var r := JoinBegin(s, c);
    forall d, u | d in r.clients && u in r.channels ensures PairOk(rx, r, d, u) {
      if d in s.clients && u in s.channels {
        assert PairOk(rx, s, d, u);
      }
    }
    forall k | k in r.entries ensures BoundOk(r, k) {
      if k in s.entries {
        assert BoundOk(s, k);
      }
    }
  }

  lemma ExactJoinOne(rx: Regex, s: State, t: string)
    requires LockOk(s) && Exact(rx, s) && CanJoinOne(s, t)
    ensures Exact(rx, JoinOne(rx, s, t))
  {
    var r := JoinOne(rx, s, t);
    forall d, u | d in r.clients && u in r.channels ensures PairOk(rx, r, d, u) {
      assert PairOk(rx, s, d, u);
    }
    forall k | k in r.entries ensures BoundOk(r, k) {
      if k in s.entries {
        assert BoundOk(s, k);
      }
    }
  }

  lemma ExactJoinEnd(rx: Regex, s: State)
    requires LockOk(s) && Exact(rx, s) && s.lock.JoiningAll? && s.lock.tags == {} && s.lock.cli in s.clients
    ensures Exact(rx, JoinEnd(s))
  {
    var r := JoinEnd(s);
    forall d, u | d in r.clients && u in r.channels ensures PairOk(rx, r, d, u) {
      if d in s.clients && u in s.channels {
        assert PairOk(rx, s, d, u);
      }
    }
    forall k | k in r.entries ensures BoundOk(r, k) {
      if k in s.entries {
        assert BoundOk(s, k);
      }
    }
  }

  lemma ExactCloseBegin(rx: Regex, s: State, c: nat)
    requires Shape(rx, s) && Exact(rx, s) && s.lock.Unlocked? && InPhase(s, c, Live)
    ensures Exact(rx, CloseBegin(s, c))
  {
    var r := CloseBegin(s, c);
    assert forall id | id in s.entries :: EntryOk(rx, s, id);
    forall d, u | d in r.clients && u in r.channels ensures PairOk(rx, r, d, u) {
      if d in s.clients && u in s.channels {
        assert PairOk(rx, s, d, u);
      }
    }
    forall k | k in r.entries ensures BoundOk(r, k) {
      if k in s.entries {
        assert BoundOk(s, k);
      }
    }
  }

  lemma ExactCloseOne(rx: Regex, s: State, t: string)
    requires LockOk(s) && Exact(rx, s) && CanCloseOne(s, t)
    ensures Exact(rx, CloseOne(s, t))
  {
    var r := CloseOne(s, t);
    forall d, u | d in r.clients && u in r.channels ensures PairOk(rx, r, d, u) {
      assert PairOk(rx, s, d, u);
    }
    forall k | k in r.entries ensures BoundOk(r, k) {
      if k in s.entries {
        assert BoundOk(s, k);
      }
    }
  }

  lemma ExactCloseEnd(rx: Regex, s: State)
    requires LockOk(s) && Exact(rx, s) && s.lock.ClosingCli? && s.lock.tags == {} && s.lock.cli in s.clients
    ensures Exact(rx, CloseEnd(s))
  {
    var r := CloseEnd(s);
    forall d, u | d in r.clients && u in r.channels ensures PairOk(rx, r, d, u) {
      if d in s.clients && u in s.channels {
        assert PairOk(rx, s, d, u);
      }
    }
    forall k | k in r.entries ensures BoundOk(r, k) {
      if k in s.entries {
        assert BoundOk(s, k);
      }
    }
  }

  lemma ExactPutHandle(rx: Regex, s: State, c: nat)
    requires Exact(rx, s) && InPhase(s, c, Detached)
    ensures Exact(rx, PutHandle(s, c))
  {
    var r := PutHandle(s, c);
    forall d, u | d in r.clients && u in r.channels ensures PairOk(rx, r, d, u) {
      if d in s.clients && u in s.channels {
        assert PairOk(rx, s, d, u);
      }
    }
    forall k | k in r.entries ensures BoundOk(r, k) {
      if k in s.entries {
        assert BoundOk(s, k);
      }
    }
  }

  // Reference counts

  lemma TagsAfterBind(entries: map<Id, Entry>, id: Id, e: Entry, c: nat)
    requires id !in entries && e.bound
    ensures id.tag !in BoundTags(entries, id.cli)
    ensures BoundTags(entries[id := e], c) == BoundTags(entries, c) + (if c == id.cli then {id.tag} else {})
  {
    var r := entries[id := e];
    assert forall k | k in entries :: r[k] == entries[k];
    if c == id.cli {
      assert id in r && id.tag in BoundTags(r, c);
    }
  }

  lemma TagsAfterUnbind(entries: map<Id, Entry>, id: Id, c: nat)
    requires id in entries && entries[id].bound
    ensures id.tag in BoundTags(entries, id.cli)
    ensures BoundTags(entries[id := entries[id].(bound := false)], c)
         == BoundTags(entries, c) - (if c == id.cli then {id.tag} else {})
  {
    var r := entries[id := entries[id].(bound := false)];
    forall t ensures t in BoundTags(r, c) <==> t in BoundTags(entries, c) - (if c == id.cli then {id.tag} else {}) {
      var k := Id(c, t);
      assert t in BoundTags(r, c) <==> k in r && r[k].bound;
      assert t in BoundTags(entries, c) <==> k in entries && entries[k].bound;
    }
  }

  lemma SameTags(entries: map<Id, Entry>, r: map<Id, Entry>, c: nat)
    requires r.Keys == entries.Keys && forall id | id in entries :: r[id].bound == entries[id].bound
    ensures BoundTags(r, c) == BoundTags(entries, c)
  {
  }

  lemma FlightsAfter(deliveries: map<string, Delivery>, t: string, d: Delivery, c: nat)
    ensures InFlight(deliveries[t := d], c)
         == InFlight(deliveries, c) - {t} + (if d.inflight == Some(c) then {t} else {})
  {
  }

  lemma CountedBind(s: State, c: nat, t: string)
    requires Counted(s) && c in s.clients && t in s.channels && Id(c, t) !in s.entries
    ensures Counted(Bind(s, c, t))
  {
    var r := Bind(s, c, t);
    forall d | d in r.clients ensures CountOk(r, d) {
      assert CountOk(s, d);
      TagsAfterBind(s.entries, Id(c, t), Entry(true, 2, false), d);
    }
  }

  lemma FewerTags(entries: map<Id, Entry>, id: Id, c: nat)
    requires id in entries && entries[id].bound
    ensures |BoundTags(entries[id := entries[id].(bound := false)], c)|
         == |BoundTags(entries, c)| - (if c == id.cli then 1 else 0)
  {
    TagsAfterUnbind(entries, id, c);
  }

  lemma CountedUnbind(s: State, id: Id)
    requires Counted(s) && id in s.entries && id.cli in s.clients
    ensures Counted(Unbind(s, id))
  {
    if s.entries[id].bound {
      var r := Unbind(s, id);
      forall d | d in r.clients ensures CountOk(r, d) {
        assert CountOk(s, d);
        FewerTags(s.entries, id, d);
      }
    }
  }

  /** Phases, lock and lists may change, but nobody gains or loses a reference. */
  ghost predicate SameCounts(s: State, r: State) {
    && r.regexTq == s.regexTq && r.clients.Keys == s.clients.Keys
    && (forall c | c in s.clients ::
          r.clients[c].refs == s.clients[c].refs && (r.clients[c].phase.Released? <==> s.clients[c].phase.Released?))
    && r.entries.Keys == s.entries.Keys && (forall id | id in s.entries :: r.entries[id].bound == s.entries[id].bound)
    && (forall t | t in s.deliveries || t in r.deliveries ::
          && (t !in s.deliveries ==> r.deliveries[t].inflight.None?)
          && (t !in r.deliveries ==> s.deliveries[t].inflight.None?)
          && (t in s.deliveries && t in r.deliveries ==> r.deliveries[t].inflight == s.deliveries[t].inflight))
  }

  lemma CountedSame(s: State, r: State)
    requires Counted(s) && SameCounts(s, r)
    ensures Counted(r)
  {
    forall c | c in r.clients ensures CountOk(r, c) {
      assert CountOk(s, c);
      SameTags(s.entries, r.entries, c);
      assert InFlight(r.deliveries, c) == InFlight(s.deliveries, c);
    }
  }

  lemma CountedNew(rx: Regex, s: State, c: nat, cl: Client)
    requires Shape(rx, s) && Phases(s) && Calls(s) && Counted(s) && c !in s.clients && cl.refs == 1 && cl.phase.Fresh?
    ensures Counted(s.(clients := s.clients[c := cl]))
  {
    var r := s.(clients := s.clients[c := cl]);
    forall d | d in r.clients ensures CountOk(r, d) {
      if d != c {
        assert CountOk(s, d);
      } else {
        assert BoundTags(r.entries, c) == {} by {
          assert forall id | id in s.entries :: EntryOk(rx, s, id);
        }
        assert InFlight(r.deliveries, c) == {} by {
          assert forall t | t in s.deliveries :: DeliveryOk(s, t);
        }
      }
    }
  }

  lemma CountedJoinBegin(s: State, c: nat)
    requires Phases(s) && Counted(s) && InPhase(s, c, Fresh)
    ensures Counted(JoinBegin(s, c))
  {
    var r := JoinBegin(s, c);
    assert PhaseOk(s, c);
    forall d | d in r.clients ensures CountOk(r, d) {
      assert CountOk(s, d);
    }
  }

  lemma CountedCloseEnd(s: State)
    requires Phases(s) && Counted(s) && s.lock.ClosingCli? && s.lock.cli in s.clients
    ensures Counted(CloseEnd(s))
  {
    var r := CloseEnd(s);
    WithoutContents(s.regexTq, s.lock.cli);
    assert PhaseOk(s, s.lock.cli);
    forall d | d in r.clients ensures CountOk(r, d) {
      assert CountOk(s, d);
    }
  }

  lemma CountedPutHandle(s: State, c: nat)
    requires Counted(s) && InPhase(s, c, Detached)
    ensures Counted(PutHandle(s, c))
  {
    var r := PutHandle(s, c);
    forall d | d in r.clients ensures CountOk(r, d) {
      assert CountOk(s, d);
    }
  }

  lemma OneMoreFlight(deliveries: map<string, Delivery>, t: string, d: Delivery, c: nat)
    requires t in deliveries && deliveries[t].inflight.None?
    ensures |InFlight(deliveries[t := d], c)| == |InFlight(deliveries, c)| + (if d.inflight == Some(c) then 1 else 0)
  {
    FlightsAfter(deliveries, t, d, c);
    assert InFlight(deliveries, c) - {t} == InFlight(deliveries, c);
  }

  lemma CountedVisit(s: State, t: string)
    requires Counted(s) && CanVisit(s, t)
    ensures Counted(Visit(s, t))
  {
    var r := Visit(s, t);
    forall d | d in r.clients ensures CountOk(r, d) {
      assert CountOk(s, d);
      OneMoreFlight(s.deliveries, t, r.deliveries[t], d);
    }
  }

  lemma CountedReturn(s: State, t: string)
    requires Counted(s) && CanReturn(s, t)
    ensures Counted(Return(s, t))
  {
    var r := Return(s, t);
    forall d | d in r.clients ensures CountOk(r, d) {
      assert CountOk(s, d);
      FlightsAfter(s.deliveries, t, r.deliveries[t], d);
      assert t in InFlight(s.deliveries, s.deliveries[t].inflight.value);
    }
  }

  // Closing

  ghost predicate SameEnds(s: State, r: State, but: set<nat>) {
    && r.reaper == s.reaper && r.clients.Keys == s.clients.Keys
    && (forall c | c in s.clients :: r.clients[c].gone == s.clients[c].gone)
    && (forall c | c in s.clients && c !in but :: r.clients[c].refs == s.clients[c].refs)
  }

  lemma EndingSame(s: State, r: State)
    requires Ending(s) && SameEnds(s, r, {}) && r.closeTq == s.closeTq && r.log == s.log
    ensures Ending(r)
  {
    forall c ensures EndOk(r, c) {
      assert EndOk(s, c);
    }
  }

  /** A client that is still referenced gains a reference. */
  lemma EndingBump(s: State, r: State, c: nat)
    requires Ending(s) && SameEnds(s, r, {c}) && r.closeTq == s.closeTq && r.log == s.log
    requires c in s.clients && 0 < s.clients[c].refs < r.clients[c].refs
    ensures Ending(r)
  {
    forall d ensures EndOk(r, d) {
      assert EndOk(s, d);
    }
  }

  /** A client loses a reference, and is posted to the close thread if it was the last. */
  lemma EndingDrop(s: State, r: State, c: nat)
    requires Ending(s) && SameEnds(s, r, {c}) && r.log == s.log
    requires c in s.clients && 0 < s.clients[c].refs && r.clients[c].refs == s.clients[c].refs - 1
    requires r.closeTq == if r.clients[c].refs == 0 then s.closeTq + [c] else s.closeTq
    ensures Ending(r)
  {
    assert EndOk(s, c);
    forall d ensures EndOk(r, d) {
      assert EndOk(s, d);
    }
  }

  lemma EndingNew(s: State, c: nat, cl: Client)
    requires Ending(s) && c !in s.clients && cl.refs == 1 && !cl.gone
    ensures Ending(s.(clients := s.clients[c := cl]))
  {
    var r := s.(clients := s.clients[c := cl]);
    forall d ensures EndOk(r, d) {
      assert EndOk(s, d);
    }
  }

  /** A receive event is logged for a client that is still referenced. */
  lemma EndingRecv(s: State, c: nat, t: string)
    requires Ending(s) && c in s.clients && 0 < s.clients[c].refs
    ensures Ending(s.(log := s.log + [Recv(c, t)]))
  {
    var r := s.(log := s.log + [Recv(c, t)]);
    assert EndOk(s, c);
    forall d ensures EndOk(r, d) {
      assert EndOk(s, d);
      assert Closed(d) in r.log <==> Closed(d) in s.log;
    }
    forall i, j | 0 <= i < j < |r.log| && r.log[i].Closed? ensures r.log[j].cli != r.log[i].cli {
      if j == |s.log| {
        assert s.log[i] == Closed(s.log[i].cli) && s.log[i] in s.log;
        assert EndOk(s, s.log[i].cli);
      }
    }
  }

  lemma EndingReap(s: State)
    requires Ending(s) && s.reaper.None? && s.closeTq != []
    ensures Ending(Reap(s))
  {
    var r, c := Reap(s), s.closeTq[0];
    assert s.closeTq == [c] + s.closeTq[1..];
    assert c in s.closeTq && EndOk(s, c);
    forall d ensures EndOk(r, d) {
      assert EndOk(s, d);
      assert Closed(d) in r.log <==> Closed(d) in s.log || d == c;
    }
    forall i, j | 0 <= i < j < |r.log| && r.log[i].Closed? ensures r.log[j].cli != r.log[i].cli {
      if j == |s.log| {
        assert s.log[i] == Closed(s.log[i].cli) && s.log[i] in s.log;
        assert EndOk(s, s.log[i].cli);
      }
    }
  }

  lemma EndingFree(s: State)
    requires Ending(s) && s.reaper.Some? && s.reaper.value in s.clients
    ensures Ending(FreeClient(s))
  {
    var r := FreeClient(s);
    forall d ensures EndOk(r, d) {
      assert EndOk(s, d);
    }
  }

  // Deliveries

  /** Channels in delivery only grow at the end, and nothing becomes bound that was not. */
  ghost predicate Grows(s: State, r: State) {
    && r.deliveries == s.deliveries
    && (forall t | t in s.channels :: t in r.channels && s.channels[t] <= r.channels[t])
    && (forall id | id in s.entries && id in r.entries && r.entries[id].bound :: s.entries[id].bound)
    && (forall c | c in s.clients :: c in r.clients)
  }

  lemma DeliveryGrows(s: State, r: State, t: string)
    requires t in s.deliveries && DeliveryOk(s, t) && ChannelOk(s, t) && Grows(s, r)
    ensures DeliveryOk(r, t)
  {
    var d, l, m := s.deliveries[t], s.channels[t], r.channels[t];
    var seen := d.pos + B(d.inflight.Some?);
    assert l[..seen] == m[..seen];
    assert forall i | 0 <= i < seen :: m[i] == l[i] && l[i] in l;
  }

  lemma CallsGrow(rx: Regex, s: State, r: State)
    requires Calls(s) && Shape(rx, s) && Grows(s, r)
    ensures Calls(r)
  {
    forall t | t in r.deliveries ensures DeliveryOk(r, t) {
      assert DeliveryOk(s, t) && ChannelOk(s, t);
      DeliveryGrows(s, r, t);
    }
  }

  lemma NextNotCalled(s: State, t: string)
    requires CanVisit(s, t) && ChannelOk(s, t) && DeliveryOk(s, t)
    ensures s.channels[t][s.deliveries[t].pos].cli !in s.deliveries[t].called
  {
    var d, l := s.deliveries[t], s.channels[t];
    var id := l[d.pos];
    assert id in l && id == Id(id.cli, t);
    assert id !in l[..d.pos];
  }

  lemma NotCalledTwice(rx: Regex, s: State, t: string)
    requires Calls(s) && Shape(rx, s) && CanVisit(s, t)
    ensures s.channels[t][s.deliveries[t].pos].cli !in s.deliveries[t].called
  {
    assert ChannelOk(s, t) && DeliveryOk(s, t);
    NextNotCalled(s, t);
  }

  lemma VisitedOk(s: State, t: string)
    requires CanVisit(s, t) && ChannelOk(s, t) && DeliveryOk(s, t)
    ensures DeliveryOk(Visit(s, t), t)
  {
    NextNotCalled(s, t);
    var d, l := s.deliveries[t], s.channels[t];
    var id := l[d.pos];
    assert id in l && id == Id(id.cli, t);
    assert l[..d.pos + 1] == l[..d.pos] + [id];
  }

  lemma OthersVisited(s: State, t: string, u: string)
    requires CanVisit(s, t) && u in s.deliveries && u != t && DeliveryOk(s, u)
    ensures DeliveryOk(Visit(s, t), u)
  {
  }

  lemma CallsVisit(rx: Regex, s: State, t: string)
    requires Calls(s) && Shape(rx, s) && CanVisit(s, t)
    ensures Calls(Visit(s, t))
  {
    assert ChannelOk(s, t) && DeliveryOk(s, t);
    VisitedOk(s, t);
    forall u | u in s.deliveries && u != t ensures DeliveryOk(Visit(s, t), u) {
      assert DeliveryOk(s, u);
      OthersVisited(s, t, u);
    }
  }

  lemma CallsStart(s: State, t: string)
    requires Calls(s) && t in s.channels
    ensures Calls(s.(deliveries := s.deliveries[t := Delivery(0, None, [], false, false)]))
  {
    var r := s.(deliveries := s.deliveries[t := Delivery(0, None, [], false, false)]);
    forall u | u in s.deliveries && u != t ensures DeliveryOk(r, u) {
      assert DeliveryOk(s, u);
    }
  }

  lemma CallsEnd(s: State, t: string)
    requires Calls(s) && AtEnd(s, t)
    ensures Calls(DeliverEnd(s, t))
  {
    var r := DeliverEnd(s, t);
    forall u | u in r.deliveries ensures DeliveryOk(r, u) {
      assert DeliveryOk(s, u);
    }
  }

  lemma CallsReturn(s: State, t: string)
    requires Calls(s) && CanReturn(s, t)
    ensures Calls(Return(s, t))
  {
    var r := Return(s, t);
    forall u | u in r.deliveries ensures DeliveryOk(r, u) {
      assert DeliveryOk(s, u);
    }
  }

  lemma CallsSweep(rx: Regex, s: State, t: string)
    requires Calls(s) && Shape(rx, s) && t in s.channels
    ensures Calls(Sweep(s, t))
  {
    var r := Sweep(s, t);
    forall u | u in r.deliveries ensures DeliveryOk(r, u) {
      assert DeliveryOk(s, u);
    }
  }

  // Every step keeps the invariant

  lemma LiveHasRefs(s: State, c: nat)
    requires Counted(s) && c in s.clients && !s.clients[c].phase.Released?
    ensures 0 < s.clients[c].refs
  {
    assert CountOk(s, c);
  }

  /** A client is only freed when nothing refers to it any more. */
  lemma ReaperIsUnreferenced(s: State)
    requires Counted(s) && Ending(s) && s.reaper.Some?
    ensures var c := s.reaper.value;
            && c in s.clients && s.clients[c].phase.Released? && c !in s.regexTq
            && (forall id | id in s.entries && id.cli == c :: !s.entries[id].bound)
            && (forall t | t in s.deliveries :: s.deliveries[t].inflight != Some(c))
  {
    var c := s.reaper.value;
    assert EndOk(s, c) && CountOk(s, c);
    assert |BoundTags(s.entries, c)| == 0 && |InFlight(s.deliveries, c)| == 0;
    forall id | id in s.entries && id.cli == c ensures !s.entries[id].bound {
      assert id.tag !in BoundTags(s.entries, c);
    }
    forall t | t in s.deliveries ensures s.deliveries[t].inflight != Some(c) {
      assert t !in InFlight(s.deliveries, c);
    }
  }

  /** The pair about to be bound has no entry, and its client is in use. */
  lemma BindIsFresh(rx: Regex, s: State, a: Step)
    requires Inv(rx, s) && Enabled(s, a)
    ensures a.DoCreateOne? ==> Id(s.lock.todo[0], s.lock.tag) !in s.entries && InPhase(s, s.lock.todo[0], Live)
    ensures a.DoJoinOne? ==> Id(s.lock.cli, a.t) !in s.entries && InPhase(s, s.lock.cli, Joining)
    ensures a.DoBindExact? ==> Id(a.c, s.clients[a.c].match_) !in s.entries
  {
    if a.DoCreateOne? {
      assert s.lock.todo[0] in s.lock.todo;
      assert PhaseOk(s, s.lock.todo[0]);
    }
  }

  lemma InUse(s: State, c: nat)
    requires Counted(s) && Ending(s) && c in s.clients && !s.clients[c].phase.Released?
    ensures 0 < s.clients[c].refs && !s.clients[c].gone
  {
    LiveHasRefs(s, c);
    assert EndOk(s, c);
  }

  lemma NewFrame(rx: Regex, s: State, c: nat, cl: Client)
    requires c !in s.clients && cl.phase.Fresh? && cl.refs == 1 && cl.links == {} && !cl.gone
    ensures var r := s.(clients := s.clients[c := cl]); Grows(s, r)
  {
  }

  lemma NewKeeps(rx: Regex, s: State, c: nat, cl: Client)
    requires Inv(rx, s) && c !in s.clients && cl.phase.Fresh? && cl.refs == 1 && cl.links == {} && !cl.gone
    ensures Inv(rx, s.(clients := s.clients[c := cl]))
  {
    var r := s.(clients := s.clients[c := cl]);
    NewFrame(rx, s, c, cl);
    assert Shape(rx, r) by { ShapeNewClient(rx, s, c, cl); }
    assert Phases(r) by { PhasesNew(rx, s, c, cl); }
    assert Exact(rx, r) by { ExactNew(rx, s, c, cl); }
    assert Counted(r) by { CountedNew(rx, s, c, cl); }
    assert Ending(r) by { EndingNew(s, c, cl); }
    assert Calls(r) by { CallsGrow(rx, s, r); }
  }

  lemma CreateBeginFrame(rx: Regex, s: State, t: string)
    requires s.lock.Unlocked? && t !in s.channels
    ensures var r := CreateBegin(s, t); SameCounts(s, r) && SameEnds(s, r, {}) && Grows(s, r)
  {
  }

  lemma CreateBeginKeeps(rx: Regex, s: State, t: string)
    requires Inv(rx, s) && s.lock.Unlocked? && t !in s.channels
    ensures Inv(rx, CreateBegin(s, t))
  {
    var r := CreateBegin(s, t);
    CreateBeginFrame(rx, s, t);
    assert Shape(rx, r) by {
      var b := s.(channels := s.channels[t := []]);
      ShapeNewChannel(rx, s, t);
      ShapeSame(rx, b, r);
    }
    assert Phases(r) by {
      assert forall u | u in s.deliveries :: DeliveryOk(s, u);
      PhasesCreateBegin(rx, s, t);
    }
    assert Exact(rx, r) by { ExactCreateBegin(rx, s, t); }
    assert Counted(r) by { CountedSame(s, r); }
    assert Ending(r) by { EndingSame(s, r); }
    assert Calls(r) by { CallsGrow(rx, s, r); }
  }

  lemma CreateOneFrame(rx: Regex, s: State)
    requires CanCreateOne(s)
    ensures var r := CreateOne(rx, s); var c, t := s.lock.todo[0], s.lock.tag; var b := BindIf(rx, s, c, t);
            SameIndex(b, r) && SameCounts(b, r) && SameEnds(s, r, if Matches(rx, s.clients[c], t) then {c} else {})
            && (Id(c, t) !in s.entries ==> Grows(s, r))
  {
  }

  lemma CreateOneKeeps(rx: Regex, s: State)
    requires Inv(rx, s) && CanCreateOne(s)
    ensures Inv(rx, CreateOne(rx, s))
  {
    var r := CreateOne(rx, s);
    CreateOneFrame(rx, s);
    BindIsFresh(rx, s, DoCreateOne);
    var c, t := s.lock.todo[0], s.lock.tag;
    var b := BindIf(rx, s, c, t);
    assert Shape(rx, r) by {
      if Matches(rx, s.clients[c], t) {
        InUse(s, c);
        ShapeBind(rx, s, c, t);
      }
      ShapeSame(rx, b, r);
    }
    assert Phases(r) by { PhasesCreateOne(rx, s); }
    assert Exact(rx, r) by { ExactCreateOne(rx, s); }
    assert Counted(r) by {
      if Matches(rx, s.clients[c], t) {
        CountedBind(s, c, t);
      }
      CountedSame(b, r);
    }
    assert Ending(r) by {
      if Matches(rx, s.clients[c], t) {
        InUse(s, c);
        EndingBump(s, r, c);
      } else {
        EndingSame(s, r);
      }
    }
    assert Calls(r) by { CallsGrow(rx, s, r); }
  }

  lemma CreateEndFrame(rx: Regex, s: State)
    requires s.lock.CreatingCh? && s.lock.todo == []
    ensures var r := s.(lock := Unlocked); SameIndex(s, r) && SameCounts(s, r) && SameEnds(s, r, {}) && Grows(s, r)
  {
  }

  lemma CreateEndKeeps(rx: Regex, s: State)
    requires Inv(rx, s) && s.lock.CreatingCh? && s.lock.todo == []
    ensures Inv(rx, s.(lock := Unlocked))
  {
    var r := s.(lock := Unlocked);
    CreateEndFrame(rx, s);
    assert Shape(rx, r) by { ShapeSame(rx, s, r); }
    assert Phases(r) by { PhasesCreateEnd(rx, s); }
    assert Exact(rx, r) by { ExactCreateEnd(rx, s); }
    assert Counted(r) by { CountedSame(s, r); }
    assert Ending(r) by { EndingSame(s, r); }
    assert Calls(r) by { CallsGrow(rx, s, r); }
  }

  lemma ResolveFrame(rx: Regex, s: State, c: nat)
    requires s.lock.Unlocked? && InPhase(s, c, Fresh) && !s.clients[c].isRegex && s.clients[c].match_ in s.channels
    ensures var r := SetPhase(s, c, Resolved); SameIndex(s, r) && SameCounts(s, r) && SameEnds(s, r, {}) && Grows(s, r)
  {
  }

  lemma ResolveKeeps(rx: Regex, s: State, c: nat)
    requires Inv(rx, s) && s.lock.Unlocked? && InPhase(s, c, Fresh) && !s.clients[c].isRegex
             && s.clients[c].match_ in s.channels
    ensures Inv(rx, SetPhase(s, c, Resolved))
  {
    var r := SetPhase(s, c, Resolved);
    ResolveFrame(rx, s, c);
    assert Shape(rx, r) by { ShapeSame(rx, s, r); }
    assert Phases(r) by { PhasesResolve(rx, s, c); }
    assert Exact(rx, r) by { ExactResolve(rx, s, c); }
    assert Counted(r) by { CountedSame(s, r); }
    assert Ending(r) by { EndingSame(s, r); }
    assert Calls(r) by { CallsGrow(rx, s, r); }
  }

  lemma BindExactFrame(rx: Regex, s: State, c: nat)
    requires CanBindExact(s, c)
    ensures var r := BindExact(s, c); var t := s.clients[c].match_; var b := Bind(s, c, t);
            SameIndex(b, r) && SameCounts(b, r) && SameEnds(s, r, {c}) && (Id(c, t) !in s.entries ==> Grows(s, r))
  {
  }

  lemma BindExactKeeps(rx: Regex, s: State, c: nat)
    requires Inv(rx, s) && CanBindExact(s, c)
    ensures Inv(rx, BindExact(s, c))
  {
    var r := BindExact(s, c);
    BindExactFrame(rx, s, c);
    BindIsFresh(rx, s, DoBindExact(c));
    assert PhaseOk(s, c);
    var t := s.clients[c].match_;
    var b := Bind(s, c, t);
    assert Shape(rx, r) by {
      InUse(s, c);
      ShapeBind(rx, s, c, t);
      ShapeSame(rx, b, r);
    }
    assert Phases(r) by { PhasesBindExact(rx, s, c); }
    assert Exact(rx, r) by { assert PhaseOk(s, c); ExactBindExact(rx, s, c); }
    assert Counted(r) by {
      CountedBind(s, c, t);
      CountedSame(b, r);
    }
    assert Ending(r) by {
      InUse(s, c);
      EndingBump(s, r, c);
    }
    assert Calls(r) by { CallsGrow(rx, s, r); }
  }

  lemma JoinBeginFrame(rx: Regex, s: State, c: nat)
    requires s.lock.Unlocked? && InPhase(s, c, Fresh) && s.clients[c].isRegex
    ensures var r := JoinBegin(s, c); SameIndex(s, r) && SameEnds(s, r, {c}) && Grows(s, r)
  {
  }

  lemma JoinBeginKeeps(rx: Regex, s: State, c: nat)
    requires Inv(rx, s) && s.lock.Unlocked? && InPhase(s, c, Fresh) && s.clients[c].isRegex
    ensures Inv(rx, JoinBegin(s, c))
  {
    var r := JoinBegin(s, c);
    JoinBeginFrame(rx, s, c);
    assert Shape(rx, r) by { ShapeSame(rx, s, r); }
    assert Phases(r) by { PhasesJoinBegin(rx, s, c); }
    assert Exact(rx, r) by { ExactJoinBegin(rx, s, c); }
    assert Counted(r) by { CountedJoinBegin(s, c); }
    assert Ending(r) by {
      InUse(s, c);
      EndingBump(s, r, c);
    }
    assert Calls(r) by { CallsGrow(rx, s, r); }
  }

  lemma JoinOneFrame(rx: Regex, s: State, t: string)
    requires CanJoinOne(s, t)
    ensures var r := JoinOne(rx, s, t); var c := s.lock.cli; var b := BindIf(rx, s, c, t);
            SameIndex(b, r) && SameCounts(b, r) && SameEnds(s, r, if Matches(rx, s.clients[c], t) then {c} else {})
            && (Id(c, t) !in s.entries ==> Grows(s, r))
  {
  }

  lemma JoinOneKeeps(rx: Regex, s: State, t: string)
    requires Inv(rx, s) && CanJoinOne(s, t)
    ensures Inv(rx, JoinOne(rx, s, t))
  {
    var r := JoinOne(rx, s, t);
    JoinOneFrame(rx, s, t);
    BindIsFresh(rx, s, DoJoinOne(t));
    var c := s.lock.cli;
    var b := BindIf(rx, s, c, t);
    assert Shape(rx, r) by {
      if Matches(rx, s.clients[c], t) {
        InUse(s, c);
        ShapeBind(rx, s, c, t);
      }
      ShapeSame(rx, b, r);
    }
    assert Phases(r) by { PhasesJoinOne(rx, s, t); }
    assert Exact(rx, r) by { ExactJoinOne(rx, s, t); }
    assert Counted(r) by {
      if Matches(rx, s.clients[c], t) {
        CountedBind(s, c, t);
      }
      CountedSame(b, r);
    }
    assert Ending(r) by {
      if Matches(rx, s.clients[c], t) {
        InUse(s, c);
        EndingBump(s, r, c);
      } else {
        EndingSame(s, r);
      }
    }
    assert Calls(r) by { CallsGrow(rx, s, r); }
  }

  lemma JoinEndFrame(rx: Regex, s: State)
    requires s.lock.JoiningAll? && s.lock.tags == {} && InPhase(s, s.lock.cli, Joining)
    ensures var r := JoinEnd(s); SameIndex(s, r) && SameCounts(s, r) && SameEnds(s, r, {}) && Grows(s, r)
  {
  }

  lemma JoinEndKeeps(rx: Regex, s: State)
    requires Inv(rx, s) && s.lock.JoiningAll? && s.lock.tags == {} && InPhase(s, s.lock.cli, Joining)
    ensures Inv(rx, JoinEnd(s))
  {
    var r := JoinEnd(s);
    JoinEndFrame(rx, s);
    assert Shape(rx, r) by { ShapeSame(rx, s, r); }
    assert Phases(r) by { PhasesJoinEnd(rx, s); }
    assert Exact(rx, r) by { ExactJoinEnd(rx, s); }
    assert Counted(r) by { CountedSame(s, r); }
    assert Ending(r) by { EndingSame(s, r); }
    assert Calls(r) by { CallsGrow(rx, s, r); }
  }

  lemma CloseBeginFrame(rx: Regex, s: State, c: nat)
    requires s.lock.Unlocked? && InPhase(s, c, Live)
    ensures var r := CloseBegin(s, c); SameIndex(s, r) && SameCounts(s, r) && SameEnds(s, r, {}) && Grows(s, r)
  {
  }

  lemma CloseBeginKeeps(rx: Regex, s: State, c: nat)
    requires Inv(rx, s) && s.lock.Unlocked? && InPhase(s, c, Live)
    ensures Inv(rx, CloseBegin(s, c))
  {
    var r := CloseBegin(s, c);
    CloseBeginFrame(rx, s, c);
    assert Shape(rx, r) by { ShapeSame(rx, s, r); }
    assert Phases(r) by { PhasesCloseBegin(rx, s, c); }
    assert Exact(rx, r) by { ExactCloseBegin(rx, s, c); }
    assert Counted(r) by { CountedSame(s, r); }
    assert Ending(r) by { EndingSame(s, r); }
    assert Calls(r) by { CallsGrow(rx, s, r); }
  }

  lemma CloseOneFrame(rx: Regex, s: State, t: string)
    requires CanCloseOne(s, t) && !s.clients[s.lock.cli].phase.Released?
    ensures var r := CloseOne(s, t); var id := Id(s.lock.cli, t); var b := Unbind(s, id);
            SameIndex(b, r) && SameCounts(b, r) && SameEnds(s, r, if s.entries[id].bound then {id.cli} else {})
            && Grows(s, r)
  {
  }

  lemma CloseOneKeeps(rx: Regex, s: State, t: string)
    requires Inv(rx, s) && CanCloseOne(s, t) && !s.clients[s.lock.cli].phase.Released?
    ensures Inv(rx, CloseOne(s, t))
  {
    var r := CloseOne(s, t);
    CloseOneFrame(rx, s, t);
    var id := Id(s.lock.cli, t);
    var b := Unbind(s, id);
    assert Shape(rx, r) by {
      ShapeUnbind(rx, s, id);
      ShapeSame(rx, b, r);
    }
    assert Phases(r) by { PhasesCloseOne(rx, s, t); }
    assert Exact(rx, r) by { ExactCloseOne(rx, s, t); }
    assert Counted(r) by {
      CountedUnbind(s, id);
      CountedSame(b, r);
    }
    assert Ending(r) by {
      InUse(s, id.cli);
      if s.entries[id].bound {
        EndingDrop(s, r, id.cli);
      } else {
        EndingSame(s, r);
      }
    }
    assert Calls(r) by { CallsGrow(rx, s, r); }
  }

  lemma CloseEndFrame(rx: Regex, s: State)
    requires s.lock.ClosingCli? && s.lock.tags == {} && InPhase(s, s.lock.cli, Leaving)
    ensures var r := CloseEnd(s);
            SameIndex(s, r) && SameEnds(s, r, if s.clients[s.lock.cli].isRegex then {s.lock.cli} else {})
            && Grows(s, r)
  {
  }

  lemma CloseEndKeeps(rx: Regex, s: State)
    requires Inv(rx, s) && s.lock.ClosingCli? && s.lock.tags == {} && InPhase(s, s.lock.cli, Leaving)
    ensures Inv(rx, CloseEnd(s))
  {
    var r := CloseEnd(s);
    CloseEndFrame(rx, s);
    assert Shape(rx, r) by { ShapeSame(rx, s, r); }
    assert Phases(r) by { PhasesCloseEnd(rx, s); }
    assert Exact(rx, r) by { ExactCloseEnd(rx, s); }
    assert Counted(r) by { CountedCloseEnd(s); }
    assert Ending(r) by {
      InUse(s, s.lock.cli);
      if s.clients[s.lock.cli].isRegex {
        EndingDrop(s, r, s.lock.cli);
      } else {
        EndingSame(s, r);
      }
    }
    assert Calls(r) by { CallsGrow(rx, s, r); }
  }

  lemma PutHandleFrame(rx: Regex, s: State, c: nat)
    requires InPhase(s, c, Detached)
    ensures var r := PutHandle(s, c); SameIndex(s, r) && SameEnds(s, r, {c}) && Grows(s, r)
  {
  }

  lemma PutHandleKeeps(rx: Regex, s: State, c: nat)
    requires Inv(rx, s) && InPhase(s, c, Detached)
    ensures Inv(rx, PutHandle(s, c))
  {
    var r := PutHandle(s, c);
    PutHandleFrame(rx, s, c);
    assert Shape(rx, r) by { ShapeSame(rx, s, r); }
    assert Phases(r) by { PhasesPutHandle(rx, s, c); }
    assert Exact(rx, r) by { ExactPutHandle(rx, s, c); }
    assert Counted(r) by { CountedPutHandle(s, c); }
    assert Ending(r) by {
      InUse(s, c);
      EndingDrop(s, r, c);
    }
    assert Calls(r) by { CallsGrow(rx, s, r); }
  }

  lemma DeliverFrame(rx: Regex, s: State, t: string)
    requires s.lock.Unlocked? && t in s.channels && t !in s.deliveries
    ensures var r := s.(deliveries := s.deliveries[t := Delivery(0, None, [], false, false)]);
            SameIndex(s, r) && SamePhases(s, r) && SameBindings(s, r) && SameCounts(s, r) && SameEnds(s, r, {})
  {
  }

  lemma DeliverKeeps(rx: Regex, s: State, t: string)
    requires Inv(rx, s) && s.lock.Unlocked? && t in s.channels && t !in s.deliveries
    ensures Inv(rx, s.(deliveries := s.deliveries[t := Delivery(0, None, [], false, false)]))
  {
    var r := s.(deliveries := s.deliveries[t := Delivery(0, None, [], false, false)]);
    DeliverFrame(rx, s, t);
    assert Shape(rx, r) by { ShapeSame(rx, s, r); }
    assert Phases(r) by { PhasesSame(s, r); }
    assert Exact(rx, r) by { ExactSame(rx, s, r); }
    assert Counted(r) by { CountedSame(s, r); }
    assert Ending(r) by { EndingSame(s, r); }
    assert Calls(r) by { CallsStart(s, t); }
  }

  lemma VisitFrame(rx: Regex, s: State, t: string)
    requires CanVisit(s, t)
    ensures var r := Visit(s, t); var id := s.channels[t][s.deliveries[t].pos];
            SameIndex(s, r) && SamePhases(s, r) && SameBindings(s, r)
            && SameEnds(s, r, if s.entries[id].bound then {id.cli} else {})
  {
  }

  lemma VisitKeeps(rx: Regex, s: State, t: string)
    requires Inv(rx, s) && CanVisit(s, t)
    ensures Inv(rx, Visit(s, t))
  {
    var r := Visit(s, t);
    VisitFrame(rx, s, t);
    var id := s.channels[t][s.deliveries[t].pos];
    assert Shape(rx, r) by { ShapeSame(rx, s, r); }
    assert Phases(r) by { PhasesSame(s, r); }
    assert Exact(rx, r) by { ExactSame(rx, s, r); }
    assert Counted(r) by { CountedVisit(s, t); }
    assert Ending(r) by {
      assert ChannelOk(s, t) && EntryOk(rx, s, id) && BoundOk(s, id);
      if s.entries[id].bound {
        assert LockOk(s);
        InUse(s, id.cli);
        EndingBump(s, r, id.cli);
      } else {
        EndingSame(s, r);
      }
    }
    assert Calls(r) by { CallsVisit(rx, s, t); }
  }

  lemma ReturnFrame(rx: Regex, s: State, t: string)
    requires CanReturn(s, t)
    ensures var r := Return(s, t); var c := s.deliveries[t].inflight.value; var m := s.(log := s.log + [Recv(c, t)]);
            SameIndex(s, r) && SamePhases(s, r) && SameBindings(s, r) && SameEnds(m, r, {c})
  {
  }

  lemma ReturnKeeps(rx: Regex, s: State, t: string)
    requires Inv(rx, s) && CanReturn(s, t)
    ensures Inv(rx, Return(s, t))
  {
    var r := Return(s, t);
    ReturnFrame(rx, s, t);
    var c := s.deliveries[t].inflight.value;
    var m := s.(log := s.log + [Recv(c, t)]);
    assert Shape(rx, r) by { ShapeSame(rx, s, r); }
    assert Phases(r) by { PhasesSame(s, r); }
    assert Exact(rx, r) by { ExactSame(rx, s, r); }
    assert Counted(r) by { CountedReturn(s, t); }
    assert Ending(r) by {
      assert CountOk(s, c) && t in InFlight(s.deliveries, c);
      EndingRecv(s, c, t);
      EndingDrop(m, r, c);
    }
    assert Calls(r) by { CallsReturn(s, t); }
  }

  lemma DeliverEndFrame(rx: Regex, s: State, t: string)
    requires AtEnd(s, t)
    ensures var r := DeliverEnd(s, t);
            SameIndex(s, r) && SamePhases(s, r) && SameBindings(s, r) && SameCounts(s, r) && SameEnds(s, r, {})
  {
  }

  lemma DeliverEndKeeps(rx: Regex, s: State, t: string)
    requires Inv(rx, s) && AtEnd(s, t)
    ensures Inv(rx, DeliverEnd(s, t))
  {
    var r := DeliverEnd(s, t);
    DeliverEndFrame(rx, s, t);
    assert Shape(rx, r) by { ShapeSame(rx, s, r); }
    assert Phases(r) by { PhasesSame(s, r); }
    assert Exact(rx, r) by { ExactSame(rx, s, r); }
    assert Counted(r) by { CountedSame(s, r); }
    assert Ending(r) by { EndingSame(s, r); }
    assert Calls(r) by { CallsEnd(s, t); }
  }

  lemma SweepFrame(rx: Regex, s: State, t: string)
    requires t in s.deliveries && t in s.channels && s.deliveries[t].inflight.None?
    ensures var r := Sweep(s, t); SamePhases(s, r) && SameBindings(s, r) && SameCounts(s, r) && SameEnds(s, r, {})
  {
  }

  lemma SweepKeeps(rx: Regex, s: State, t: string)
    requires Inv(rx, s) && t in s.deliveries && t in s.channels && s.deliveries[t].inflight.None?
    ensures Inv(rx, Sweep(s, t))
  {
    var r := Sweep(s, t);
    SweepFrame(rx, s, t);
    assert Shape(rx, r) by { ShapeSweep(rx, s, t); }
    assert Phases(r) by { PhasesSame(s, r); }
    assert Exact(rx, r) by { ExactSame(rx, s, r); }
    assert Counted(r) by { CountedSame(s, r); }
    assert Ending(r) by { EndingSame(s, r); }
    assert Calls(r) by { CallsSweep(rx, s, t); }
  }

  lemma ReapFrame(rx: Regex, s: State)
    requires s.reaper.None? && s.closeTq != []
    ensures var r := Reap(s);
            SameIndex(s, r) && SamePhases(s, r) && SameBindings(s, r) && SameCounts(s, r) && Grows(s, r)
  {
  }

  lemma ReapKeeps(rx: Regex, s: State)
    requires Inv(rx, s) && s.reaper.None? && s.closeTq != []
    ensures Inv(rx, Reap(s))
  {
    var r := Reap(s);
    ReapFrame(rx, s);
    assert Shape(rx, r) by { ShapeSame(rx, s, r); }
    assert Phases(r) by { PhasesSame(s, r); }
    assert Exact(rx, r) by { ExactSame(rx, s, r); }
    assert Counted(r) by { CountedSame(s, r); }
    assert Ending(r) by { EndingReap(s); }
    assert Calls(r) by { CallsGrow(rx, s, r); }
  }

  lemma FreeFrame(rx: Regex, s: State)
    requires s.reaper.Some? && s.reaper.value in s.clients && !(s.lock.ClosingCli? && s.lock.cli == s.reaper.value)
    ensures var r := FreeClient(s); SamePhases(s, r) && SameBindings(s, r) && SameCounts(s, r) && Grows(s, r)
  {
  }

  lemma FreeKeeps(rx: Regex, s: State)
    requires Inv(rx, s) && s.reaper.Some? && s.reaper.value in s.clients
             && !(s.lock.ClosingCli? && s.lock.cli == s.reaper.value)
    ensures Inv(rx, FreeClient(s))
  {
    var r := FreeClient(s);
    FreeFrame(rx, s);
    assert Shape(rx, r) by {
      ReaperIsUnreferenced(s);
      ShapeFree(rx, s);
    }
    assert Phases(r) by { PhasesSame(s, r); }
    assert Exact(rx, r) by { ExactSame(rx, s, r); }
    assert Counted(r) by { CountedSame(s, r); }
    assert Ending(r) by { EndingFree(s); }
    assert Calls(r) by { CallsGrow(rx, s, r); }
  }

  /** Steps that open clients and bind them, most of them under the service lock. */
  ghost predicate Binds(a: Step) {
    || a.DoNew? || a.DoCreateBegin? || a.DoCreateOne? || a.DoCreateEnd? || a.DoResolve? || a.DoBindExact?
    || a.DoJoinBegin? || a.DoJoinOne? || a.DoJoinEnd?
  }

  /** Steps that close clients and give up references to them. */
  ghost predicate Closes(a: Step) {
    a.DoCloseBegin? || a.DoCloseOne? || a.DoCloseEnd? || a.DoPutHandle? || a.DoReap? || a.DoFree?
  }

  lemma BindStepKeepsInv(rx: Regex, s: State, a: Step)
    requires Inv(rx, s) && Enabled(s, a) && Binds(a)
    ensures Inv(rx, Next(rx, s, a))
  {
    assert LockOk(s);
    match a
    case DoNew(c, m, x) => NewKeeps(rx, s, c, Client(m, x, Fresh, 1, {}, false));
    case DoCreateBegin(t) => CreateBeginKeeps(rx, s, t);
    case DoCreateOne => CreateOneKeeps(rx, s);
    case DoCreateEnd => CreateEndKeeps(rx, s);
    case DoResolve(c) => ResolveKeeps(rx, s, c);
    case DoBindExact(c) => BindExactKeeps(rx, s, c);
    case DoJoinBegin(c) => JoinBeginKeeps(rx, s, c);
    case DoJoinOne(t) => JoinOneKeeps(rx, s, t);
    case DoJoinEnd => JoinEndKeeps(rx, s);
  }

  lemma CloseStepKeepsInv(rx: Regex, s: State, a: Step)
    requires Inv(rx, s) && Enabled(s, a) && Closes(a)
    ensures Inv(rx, Next(rx, s, a))
  {
    assert LockOk(s);
    match a
    case DoCloseBegin(c) => CloseBeginKeeps(rx, s, c);
    case DoCloseOne(t) => CloseOneKeeps(rx, s, t);
    case DoCloseEnd => CloseEndKeeps(rx, s);
    case DoPutHandle(c) => PutHandleKeeps(rx, s, c);
    case DoReap => ReapKeeps(rx, s);
    case DoFree =>
      ReaperIsUnreferenced(s);
      FreeKeeps(rx, s);
  }

  lemma DeliveryStepKeepsInv(rx: Regex, s: State, a: Step)
    requires Inv(rx, s) && Enabled(s, a) && !Binds(a) && !Closes(a)
    ensures Inv(rx, Next(rx, s, a))
  {
    match a
    case DoDeliver(t) => DeliverKeeps(rx, s, t);
    case DoVisit(t) => VisitKeeps(rx, s, t);
    case DoReturn(t) => ReturnKeeps(rx, s, t);
    case DoDeliverEnd(t) => DeliverEndKeeps(rx, s, t);
    case DoSweep(t) =>
      assert DeliveryOk(s, t);
      SweepKeeps(rx, s, t);
  }

  /** Every step, from every state that has the invariant, keeps it. */
  lemma StepKeepsInv(rx: Regex, s: State, a: Step)
    requires Inv(rx, s) && Enabled(s, a)
    ensures Inv(rx, Next(rx, s, a))
  {
    if Binds(a) {
      BindStepKeepsInv(rx, s, a);
    } else if Closes(a) {
      CloseStepKeepsInv(rx, s, a);
    } else {
      DeliveryStepKeepsInv(rx, s, a);
    }
  }
}
