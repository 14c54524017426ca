/**
 * The channel and client index of the message service as a state machine.
 * A step is one critical section: what a thread does while it holds the global
 * write lock is cut into one step per channel-client entry, because deliveries
 * only take the lock of their own channel and run in between.
 */
module MsgIndex {
  import opened Prelude

  /** An entry ties a client to a channel; at most one is ever made for a pair (see BindIsFresh). */
  datatype Id = Id(cli: nat, tag: string)

  /** `bound` while the entry points at its client and channel; one reference for each list it is in. */
  datatype Entry = Entry(bound: bool, refs: int, freed: bool)

  datatype Phase =
    | Fresh       // allocated
    | Resolved    // an exact client that has looked up its channel
    | Joining     // a regex client being bound to the existing channels
    | Live        // subscribed
    | Leaving     // being unbound by close
    | Detached    // unbound, handle not yet dropped
    | Released    // handle dropped

  /** `links` are the tags of the entries in the client's list. */
  datatype Client = Client(match_: string, isRegex: bool, phase: Phase, refs: int, links: set<string>, gone: bool)

  datatype Lock =
    | Unlocked
    | CreatingCh(tag: string, todo: seq<nat>)
    | JoiningAll(cli: nat, tags: set<string>)
    | ClosingCli(cli: nat, tags: set<string>)

  /** A delivery in progress: position in the channel's list, callback in flight, clients called so far. */
  datatype Delivery = Delivery(pos: nat, inflight: Option<nat>, called: seq<nat>, gc: bool, sweeping: bool)

  datatype Event = Recv(cli: nat, tag: string) | Closed(cli: nat)

  datatype State = State(
    clients: map<nat, Client>,
    entries: map<Id, Entry>,
    channels: map<string, seq<Id>>,
    regexTq: seq<nat>,
    closeTq: seq<nat>,
    reaper: Option<nat>,
    lock: Lock,
    deliveries: map<string, Delivery>,
    log: seq<Event>)

  const INIT: State := State(map[], map[], map[], [], [], None, Unlocked, map[], [])

  /** Regular expression matching is left open. */
  type Regex = (string, string) -> bool

  predicate Matches(rx: Regex, c: Client, tag: string) {
    if c.isRegex then rx(c.match_, tag) else c.match_ == tag
  }

  // Reference counts

  function GetRef(s: State, c: nat): State
    requires c in s.clients
  {
    s.(clients := s.clients[c := s.clients[c].(refs := s.clients[c].refs + 1)])
  }

  /** Dropping the last reference posts the client to the close thread. */
  function PutRef(s: State, c: nat): State
    requires c in s.clients
  {
    var n := s.clients[c].refs - 1;
    s.(clients := s.clients[c := s.clients[c].(refs := n)],
       closeTq := if n == 0 then s.closeTq + [c] else s.closeTq)
  }

  function PutEntry(e: Entry): Entry { e.(refs := e.refs - 1, freed := e.refs == 1) }

  // Binding

  function Bind(s: State, c: nat, t: string): State
    requires c in s.clients && t in s.channels
  {
    var cl := s.clients[c];
    s.(clients := s.clients[c := cl.(refs := cl.refs + 1, links := cl.links + {t})],
       entries := s.entries[Id(c, t) := Entry(true, 2, false)],
       channels := s.channels[t := s.channels[t] + [Id(c, t)]])
  }

  function Unbind(s: State, id: Id): State
    requires id in s.entries && id.cli in s.clients
  {
    if !s.entries[id].bound then s
    else PutRef(s.(entries := s.entries[id := s.entries[id].(bound := false)]), id.cli)
  }

  // Queues

  function Without(q: seq<nat>, c: nat): seq<nat> {
    if q == [] then [] else (if q[0] == c then [] else [q[0]]) + Without(q[1..], c)
  }

  function Kept(l: seq<Id>, entries: map<Id, Entry>): seq<Id> {
    if l == [] then []
    else (if l[0] in entries && !entries[l[0]].bound then [] else [l[0]]) + Kept(l[1..], entries)
  }

  function SetPhase(s: State, c: nat, p: Phase): State
    requires c in s.clients
  {
    s.(clients := s.clients[c := s.clients[c].(phase := p)])
  }

  function BindIf(rx: Regex, s: State, c: nat, t: string): State
    requires c in s.clients && t in s.channels
  {
    if Matches(rx, s.clients[c], t) then Bind(s, c, t) else s
  }

  // Channel creation: under the write lock, every queued regex client is looked at

  function CreateBegin(s: State, t: string): State {
    s.(channels := s.channels[t := []], lock := CreatingCh(t, s.regexTq))
  }

  predicate CanCreateOne(s: State) {
    s.lock.CreatingCh? && s.lock.todo != [] && s.lock.tag in s.channels && s.lock.todo[0] in s.clients
  }

  function CreateOne(rx: Regex, s: State): State
    requires CanCreateOne(s)
  {
    BindIf(rx, s, s.lock.todo[0], s.lock.tag).(lock := CreatingCh(s.lock.tag, s.lock.todo[1..]))
  }

  // Subscribing: an exact client looks its channel up and binds; a regex client binds under the write lock

  predicate CanBindExact(s: State, c: nat) {
    c in s.clients && s.clients[c].phase.Resolved? && s.clients[c].match_ in s.channels
  }

  function BindExact(s: State, c: nat): State
    requires CanBindExact(s, c)
  {
    SetPhase(Bind(s, c, s.clients[c].match_), c, Live)
  }

  function JoinBegin(s: State, c: nat): State
    requires c in s.clients
  {
    GetRef(SetPhase(s, c, Joining), c).(regexTq := s.regexTq + [c], lock := JoiningAll(c, s.channels.Keys))
  }

  predicate CanJoinOne(s: State, t: string) {
    s.lock.JoiningAll? && t in s.lock.tags && t in s.channels && s.lock.cli in s.clients
  }

  function JoinOne(rx: Regex, s: State, t: string): State
    requires CanJoinOne(s, t)
  {
    BindIf(rx, s, s.lock.cli, t).(lock := JoiningAll(s.lock.cli, s.lock.tags - {t}))
  }

  function JoinEnd(s: State): State
    requires s.lock.JoiningAll? && s.lock.cli in s.clients
  {
    SetPhase(s, s.lock.cli, Live).(lock := Unlocked)
  }

  // Closing: under the write lock every entry is unbound, then the handle is dropped

  function CloseBegin(s: State, c: nat): State
    requires c in s.clients
  {
    SetPhase(s, c, Leaving).(lock := ClosingCli(c, s.clients[c].links))
  }

  predicate CanCloseOne(s: State, t: string) {
    s.lock.ClosingCli? && t in s.lock.tags && s.lock.cli in s.clients && Id(s.lock.cli, t) in s.entries
  }

  function CloseOne(s: State, t: string): State
    requires CanCloseOne(s, t)
  {
    Unbind(s, Id(s.lock.cli, t)).(lock := ClosingCli(s.lock.cli, s.lock.tags - {t}))
  }

  function CloseEnd(s: State): State
    requires s.lock.ClosingCli? && s.lock.cli in s.clients
  {
    var c := s.lock.cli;
    var d := SetPhase(s, c, Detached).(lock := Unlocked);
    if s.clients[c].isRegex then PutRef(d.(regexTq := Without(s.regexTq, c)), c) else d
  }

  function PutHandle(s: State, c: nat): State
    requires c in s.clients
  {
    PutRef(SetPhase(s, c, Released), c)
  }

  // Delivery: the channel lock is dropped around each callback, a reference keeps the client

  predicate CanVisit(s: State, t: string) {
    && t in s.deliveries && t in s.channels
    && var d := s.deliveries[t];
    && !d.sweeping && d.inflight.None? && d.pos < |s.channels[t]|
    && s.channels[t][d.pos] in s.entries && s.channels[t][d.pos].cli in s.clients
  }

  function Visit(s: State, t: string): State
    requires CanVisit(s, t)
  {
    var d := s.deliveries[t];
    var id := s.channels[t][d.pos];
    if !s.entries[id].bound then s.(deliveries := s.deliveries[t := d.(pos := d.pos + 1, gc := true)])
    else GetRef(s, id.cli).(deliveries := s.deliveries[t := d.(inflight := Some(id.cli), called := d.called + [id.cli])])
  }

  predicate CanReturn(s: State, t: string) {
    t in s.deliveries && s.deliveries[t].inflight.Some? && s.deliveries[t].inflight.value in s.clients
  }

  function Return(s: State, t: string): State
    requires CanReturn(s, t)
  {
    var d := s.deliveries[t];
    PutRef(s.(log := s.log + [Recv(d.inflight.value, t)],
              deliveries := s.deliveries[t := d.(inflight := None, pos := d.pos + 1)]), d.inflight.value)
  }

  /** The end of the list is reached; the list is swept if an unbound entry was seen. */
  predicate AtEnd(s: State, t: string) {
    && t in s.deliveries && t in s.channels
    && var d := s.deliveries[t];
    !d.sweeping && d.inflight.None? && d.pos == |s.channels[t]|
  }

  function DeliverEnd(s: State, t: string): State
    requires AtEnd(s, t)
  {
    var d := s.deliveries[t];
    if d.gc then s.(deliveries := s.deliveries[t := d.(sweeping := true)])
    else s.(deliveries := s.deliveries - {t})
  }

  function Sweep(s: State, t: string): State
    requires t in s.channels
  {
    s.(channels := s.channels[t := Kept(s.channels[t], s.entries)],
       entries := map id | id in s.entries ::
                    if id in s.channels[t] && !s.entries[id].bound then PutEntry(s.entries[id]) else s.entries[id],
       deliveries := s.deliveries - {t})
  }

  // The close thread

  function Reap(s: State): State
    requires s.closeTq != []
  {
    s.(closeTq := s.closeTq[1..], reaper := Some(s.closeTq[0]), log := s.log + [Closed(s.closeTq[0])])
  }

  function FreeClient(s: State): State
    requires s.reaper.Some? && s.reaper.value in s.clients
  {
    var c := s.reaper.value;
    s.(clients := s.clients[c := s.clients[c].(links := {}, gone := true)],
       entries := map id | id in s.entries ::
                    if id.cli == c && id.tag in s.clients[c].links then PutEntry(s.entries[id]) else s.entries[id],
       reaper := None)
  }

  // Steps

  datatype Step =
    | DoNew(c: nat, match_: string, isRegex: bool)
    | DoCreateBegin(t: string) | DoCreateOne | DoCreateEnd
    | DoResolve(c: nat) | DoBindExact(c: nat)
    | DoJoinBegin(c: nat) | DoJoinOne(t: string) | DoJoinEnd
    | DoCloseBegin(c: nat) | DoCloseOne(t: string) | DoCloseEnd | DoPutHandle(c: nat)
    | DoDeliver(t: string) | DoVisit(t: string) | DoReturn(t: string) | DoDeliverEnd(t: string) | DoSweep(t: string)
    | DoReap | DoFree

  predicate InPhase(s: State, c: nat, p: Phase) { c in s.clients && s.clients[c].phase == p }

  predicate Enabled(s: State, a: Step) {
    match a
    case DoNew(c, _, _) => c !in s.clients
    case DoCreateBegin(t) => s.lock.Unlocked? && t !in s.channels
    case DoCreateOne => CanCreateOne(s)
    case DoCreateEnd => s.lock.CreatingCh? && s.lock.todo == []
    case DoResolve(c) => s.lock.Unlocked? && InPhase(s, c, Fresh) && !s.clients[c].isRegex && s.clients[c].match_ in s.channels
    case DoBindExact(c) => CanBindExact(s, c)
    case DoJoinBegin(c) => s.lock.Unlocked? && InPhase(s, c, Fresh) && s.clients[c].isRegex
    case DoJoinOne(t) => CanJoinOne(s, t)
    case DoJoinEnd => s.lock.JoiningAll? && s.lock.tags == {} && s.lock.cli in s.clients
    case DoCloseBegin(c) => s.lock.Unlocked? && InPhase(s, c, Live)
    case DoCloseOne(t) => CanCloseOne(s, t)
    case DoCloseEnd => s.lock.ClosingCli? && s.lock.tags == {} && s.lock.cli in s.clients
    case DoPutHandle(c) => InPhase(s, c, Detached)
    case DoDeliver(t) => s.lock.Unlocked? && t in s.channels && t !in s.deliveries
    case DoVisit(t) => CanVisit(s, t)
    case DoReturn(t) => CanReturn(s, t)
    case DoDeliverEnd(t) => AtEnd(s, t)
    case DoSweep(t) => t in s.deliveries && t in s.channels && s.deliveries[t].sweeping
    case DoReap => s.reaper.None? && s.closeTq != []
    case DoFree => s.reaper.Some? && s.reaper.value in s.clients
  }

  function Next(rx: Regex, s: State, a: Step): State
    requires Enabled(s, a)
  {
    match a
    case DoNew(c, m, r) => s.(clients := s.clients[c := Client(m, r, Fresh, 1, {}, false)])
    case DoCreateBegin(t) => CreateBegin(s, t)
    case DoCreateOne => CreateOne(rx, s)
    case DoCreateEnd => s.(lock := Unlocked)
    case DoResolve(c) => SetPhase(s, c, Resolved)
    case DoBindExact(c) => BindExact(s, c)
    case DoJoinBegin(c) => JoinBegin(s, c)
    case DoJoinOne(t) => JoinOne(rx, s, t)
    case DoJoinEnd => JoinEnd(s)
    case DoCloseBegin(c) => CloseBegin(s, c)
    case DoCloseOne(t) => CloseOne(s, t)
    case DoCloseEnd => CloseEnd(s)
    case DoPutHandle(c) => PutHandle(s, c)
    case DoDeliver(t) => s.(deliveries := s.deliveries[t := Delivery(0, None, [], false, false)])
    case DoVisit(t) => Visit(s, t)
    case DoReturn(t) => Return(s, t)
    case DoDeliverEnd(t) => DeliverEnd(s, t)
    case DoSweep(t) => Sweep(s, t)
    case DoReap => Reap(s)
    case DoFree => FreeClient(s)
  }
}
