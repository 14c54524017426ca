/**
 * Endpoint send quota: what a sender acquires for a message is held by the
 * receiver's buffer, through any re-forwarding, and comes back when the last
 * reference to the buffer is dropped.  Every raw send succeeds.
 */
module MsgQuota {
  import opened Prelude
  import opened Wire
  import opened MsgParts
  import opened MsgAssembly

  /** The sender's side of an endpoint, and the receiver's returns on their way back. */
  datatype Endpoint = Endpoint(quota: nat, avail: nat, pendingRet: nat, rets: seq<nat>)

  /** A message whose quota was acquired and whose first part has not arrived. */
  datatype Flight = Flight(ep: nat, msg: Message)

  /** A receive buffer: references held by its own receive path, and all references. */
  datatype Buf = Buf(ep: nat, msgLen: nat, own: nat, refs: int)

  /** A buffer waiting in an endpoint's queue to be forwarded. */
  datatype Pend = Pend(ep: nat, id: nat)

  datatype State = State(
    eps: map<nat, Endpoint>,
    flights: map<nat, Flight>,
    bufs: map<nat, Buf>,
    pend: seq<Pend>,
    /** The amount each freed buffer has given back. */
    done: map<nat, nat>)

  /** What a sender acquires for a message: tag with terminator, and data. */
  function Cost(m: Message): nat { |m.tag| + 1 + |m.data| }

  function Drop<T>(l: seq<T>, i: nat): seq<T>
    requires i < |l|
  {
    l[..i] + l[i + 1..]
  }

  datatype Step =
    | Publish(ep: nat, id: nat, msg: Message)
    | Arrive(id: nat)
    | ForwardNow(b: nat, ep: nat, id: nat, msg: Message)
    | ForwardLater(b: nat, ep: nat)
    | FlushOne(k: nat, id: nat, msg: Message, granted: bool)
    | DropOwn(b: nat, granted: bool)
    | FlushReturns(ep: nat, amount: nat)
    | Deposit(ep: nat)

  /** The message can be sent on the endpoint now, under a new identifier. */
  predicate CanSend(s: State, ep: nat, id: nat, m: Message) {
    && ep in s.eps && WellFormed(m) && Cost(m) <= s.eps[ep].avail
    && id !in s.flights && id !in s.bufs && id !in s.done
  }

  function Send(s: State, ep: nat, id: nat, m: Message): State
    requires ep in s.eps && Cost(m) <= s.eps[ep].avail
  {
    s.(eps := s.eps[ep := s.eps[ep].(avail := s.eps[ep].avail - Cost(m))], flights := s.flights[id := Flight(ep, m)])
  }

  /** Drops a reference; the last one returns the quota, at once if the quota group grants it. */
  function PutBuf(s: State, b: nat, granted: bool): State
    requires b in s.bufs && s.bufs[b].ep in s.eps
  {
    var buf := s.bufs[b];
    if buf.refs != 1 then s.(bufs := s.bufs[b := buf.(refs := buf.refs - 1)])
    else
      var e := s.eps[buf.ep];
      var e' := if granted then e.(rets := e.rets + [buf.msgLen]) else e.(pendingRet := e.pendingRet + buf.msgLen);
      s.(eps := s.eps[buf.ep := e'], bufs := s.bufs - {b}, done := s.done[b := buf.msgLen])
  }

  predicate Enabled(s: State, a: Step) {
    match a
    case Publish(ep, id, m) => CanSend(s, ep, id, m)
    case Arrive(id) => id in s.flights && |s.flights[id].msg.header| == FULL_HDR
    case ForwardNow(b, ep, id, m) => b in s.bufs && 0 < s.bufs[b].own && CanSend(s, ep, id, m) && Cost(m) == s.bufs[b].msgLen
    case ForwardLater(b, ep) => b in s.bufs && 0 < s.bufs[b].own && ep in s.eps && s.eps[ep].avail < s.bufs[b].msgLen
    case FlushOne(k, id, m, _) =>
      && k < |s.pend| && s.pend[k].id in s.bufs && s.bufs[s.pend[k].id].ep in s.eps
      && (forall j | 0 <= j < k :: s.pend[j].ep != s.pend[k].ep)
      && CanSend(s, s.pend[k].ep, id, m) && Cost(m) == s.bufs[s.pend[k].id].msgLen
    case DropOwn(b, _) => b in s.bufs && 0 < s.bufs[b].own && s.bufs[b].ep in s.eps
    case FlushReturns(ep, n) => ep in s.eps && n <= s.eps[ep].pendingRet
    case Deposit(ep) => ep in s.eps && s.eps[ep].rets != []
  }

  function Arrived(s: State, id: nat): State
    requires id in s.flights && |s.flights[id].msg.header| == FULL_HDR
  {
    var f := s.flights[id];
    var len := FromBE32(f.msg.header[MSG_LEN_AT..MSG_LEN_AT + 4]);
    s.(flights := s.flights - {id}, bufs := s.bufs[id := Buf(f.ep, len, 2, 2)])
  }

  function Queued(s: State, b: nat, ep: nat): State
    requires b in s.bufs
  {
    s.(bufs := s.bufs[b := s.bufs[b].(refs := s.bufs[b].refs + 1)], pend := s.pend + [Pend(ep, b)])
  }

  function Unqueued(s: State, k: nat): State
    requires k < |s.pend|
  {
    s.(pend := Drop(s.pend, k))
  }

  function Disowned(s: State, b: nat): State
    requires b in s.bufs && 0 < s.bufs[b].own
  {
    s.(bufs := s.bufs[b := s.bufs[b].(own := s.bufs[b].own - 1)])
  }

  function Next(s: State, a: Step): State
    requires Enabled(s, a)
  {
    match a
    case Publish(ep, id, m) => Send(s, ep, id, m)
    case Arrive(id) => Arrived(s, id)
    case ForwardNow(b, ep, id, m) => Send(s, ep, id, m)
    case ForwardLater(b, ep) => Queued(s, b, ep)
    case FlushOne(k, id, m, granted) =>
      PutBuf(Unqueued(Send(s, s.pend[k].ep, id, m), k), s.pend[k].id, granted)
    case DropOwn(b, granted) => PutBuf(Disowned(s, b), b, granted)
    case FlushReturns(ep, n) =>
      var e := s.eps[ep];
      s.(eps := s.eps[ep := e.(pendingRet := e.pendingRet - n, rets := e.rets + [n])])
    case Deposit(ep) =>
      var e := s.eps[ep];
      s.(eps := s.eps[ep := e.(avail := e.avail + e.rets[0], rets := e.rets[1..])])
  }

  // Sums

  function Sum(l: seq<nat>): nat { if l == [] then 0 else l[0] + Sum(l[1..]) }

  lemma {:induction false} SumAppend(l: seq<nat>, x: nat)
    ensures Sum(l + [x]) == Sum(l) + x
  {
    if l != [] {
      assert (l + [x])[1..] == l[1..] + [x];
      SumAppend(l[1..], x);
    }
  }

  ghost function MapSum(m: map<nat, nat>): nat {
    if m == map[] then 0 else var k :| k in m; m[k] + MapSum(m - {k})
  }

  /** The order in which a map is summed does not matter. */
  lemma {:induction false} MapSumSplit(m: map<nat, nat>, k: nat)
    requires k in m
    ensures MapSum(m) == m[k] + MapSum(m - {k})
  {
    var j :| j in m && MapSum(m) == m[j] + MapSum(m - {j});
    if j != k {
      MapSumSplit(m - {j}, k);
      MapSumSplit(m - {k}, j);
      assert m - {j} - {k} == m - {k} - {j};
    }
  }

  /** What the messages in flight, or the buffers, hold of one endpoint's quota. */
  ghost function FlightCosts(flights: map<nat, Flight>, ep: nat): map<nat, nat> {
    map id | id in flights && flights[id].ep == ep :: Cost(flights[id].msg)
  }

  ghost function BufCosts(bufs: map<nat, Buf>, ep: nat): map<nat, nat> {
    map id | id in bufs && bufs[id].ep == ep :: bufs[id].msgLen
  }

  ghost function FlightDue(flights: map<nat, Flight>, ep: nat): nat { MapSum(FlightCosts(flights, ep)) }

  ghost function BufDue(bufs: map<nat, Buf>, ep: nat): nat { MapSum(BufCosts(bufs, ep)) }

  lemma FlightAdd(flights: map<nat, Flight>, id: nat, f: Flight, ep: nat)
    requires id !in flights
    ensures FlightDue(flights[id := f], ep) == FlightDue(flights, ep) + (if f.ep == ep then Cost(f.msg) else 0)
  {
    var m, n := FlightCosts(flights[id := f], ep), FlightCosts(flights, ep);
    if f.ep == ep {
      MapSumSplit(m, id);
      assert m - {id} == n;
    } else {
      assert m == n;
    }
  }

  lemma BufAdd(bufs: map<nat, Buf>, id: nat, b: Buf, ep: nat)
    requires id !in bufs
    ensures BufDue(bufs[id := b], ep) == BufDue(bufs, ep) + (if b.ep == ep then b.msgLen else 0)
  {
    var m, n := BufCosts(bufs[id := b], ep), BufCosts(bufs, ep);
    if b.ep == ep {
      MapSumSplit(m, id);
      assert m - {id} == n;
    } else {
      assert m == n;
    }
  }

  lemma BufUpdate(bufs: map<nat, Buf>, id: nat, b: Buf, ep: nat)
    requires id in bufs && b.ep == bufs[id].ep && b.msgLen == bufs[id].msgLen
    ensures BufDue(bufs[id := b], ep) == BufDue(bufs, ep)
  {
    assert BufCosts(bufs[id := b], ep) == BufCosts(bufs, ep);
  }

  function Waiting(l: seq<Pend>, id: nat): nat {
    if l == [] then 0 else (if l[0].id == id then 1 else 0) + Waiting(l[1..], id)
  }

  lemma {:induction false} WaitingSplit(l: seq<Pend>, i: nat, id: nat)
    requires i < |l|
    ensures Waiting(l, id) == Waiting(Drop(l, i), id) + (if l[i].id == id then 1 else 0)
  {
    if i == 0 {
      assert Drop(l, 0) == l[1..];
    } else {
      assert Drop(l, i)[1..] == Drop(l[1..], i - 1);
      WaitingSplit(l[1..], i - 1, id);
    }
  }

  lemma WaitingAdd(l: seq<Pend>, p: Pend, id: nat)
    ensures Waiting(l + [p], id) == Waiting(l, id) + (if p.id == id then 1 else 0)
  {
    WaitingSplit(l + [p], |l|, id);
    assert Drop(l + [p], |l|) == l;
  }

  lemma {:induction false} WaitingNone(l: seq<Pend>, id: nat)
    ensures Waiting(l, id) == 0 <==> forall p | p in l :: p.id != id
  {
    if l != [] {
      assert l == [l[0]] + l[1..];
      WaitingNone(l[1..], id);
    }
  }

  // The invariant

  /** Where an endpoint's quota is: with the sender, in flight, in buffers, waiting to be returned, on its way back. */
  ghost function Total(s: State, ep: nat): nat
    requires ep in s.eps
  {
    var e := s.eps[ep];
    e.avail + FlightDue(s.flights, ep) + BufDue(s.bufs, ep) + e.pendingRet + Sum(e.rets)
  }

  ghost predicate TotalOk(s: State, ep: nat)
    requires ep in s.eps
  {
    Total(s, ep) == s.eps[ep].quota
  }

  ghost predicate Conserved(s: State) {
    forall ep | ep in s.eps :: TotalOk(s, ep)
  }

  /** A buffer's references are its own and one for each place in a forwarding queue; `but` has one to give up. */
  ghost predicate BufOk(s: State, id: nat, but: set<nat>)
    requires id in s.bufs
  {
    && s.bufs[id].ep in s.eps && 0 < s.bufs[id].refs
    && s.bufs[id].refs == s.bufs[id].own + Waiting(s.pend, id) + (if id in but then 1 else 0)
  }

  ghost predicate Linked(s: State, but: set<nat>) {
    && (forall id | id in s.bufs :: BufOk(s, id, but))
    && (forall id | id in s.flights :: WellFormed(s.flights[id].msg) && s.flights[id].ep in s.eps)
    && (forall p | p in s.pend :: p.ep in s.eps && p.id in s.bufs)
    && s.flights.Keys !! s.bufs.Keys && s.flights.Keys !! s.done.Keys && s.bufs.Keys !! s.done.Keys
  }

  ghost predicate Inv(s: State) { Conserved(s) && Linked(s, {}) }

  // Every step conserves every endpoint's quota

  lemma SendConserves(s: State, ep: nat, id: nat, m: Message)
    requires Conserved(s) && CanSend(s, ep, id, m)
    ensures Conserved(Send(s, ep, id, m))
  {
    forall e | e in s.eps ensures TotalOk(Send(s, ep, id, m), e) {
      assert TotalOk(s, e);
      FlightAdd(s.flights, id, Flight(ep, m), e);
    }
  }

  lemma SendLinks(s: State, ep: nat, id: nat, m: Message)
    requires Linked(s, {}) && CanSend(s, ep, id, m)
    ensures Linked(Send(s, ep, id, m), {})
  {
    forall b | b in s.bufs ensures BufOk(Send(s, ep, id, m), b, {}) {
      assert BufOk(s, b, {});
    }
  }

  lemma ArrivedLength(s: State, id: nat)
    requires id in s.flights && WellFormed(s.flights[id].msg)
    ensures Arrived(s, id).bufs[id] == Buf(s.flights[id].ep, Cost(s.flights[id].msg), 2, 2)
  {
    FieldRoundTrip(Cost(s.flights[id].msg));
  }

  lemma ArriveConserves(s: State, id: nat)
    requires Conserved(s) && id in s.flights && id !in s.bufs && WellFormed(s.flights[id].msg)
    ensures Conserved(Arrived(s, id))
  {
    var r, f := Arrived(s, id), s.flights[id];
    ArrivedLength(s, id);
    assert r.flights[id := f] == s.flights;
    forall e | e in r.eps ensures TotalOk(r, e) {
      assert TotalOk(s, e);
      FlightAdd(r.flights, id, f, e);
      BufAdd(s.bufs, id, r.bufs[id], e);
    }
  }

  lemma ArriveLinks(s: State, id: nat)
    requires Linked(s, {}) && id in s.flights && |s.flights[id].msg.header| == FULL_HDR
    ensures Linked(Arrived(s, id), {})
  {
    var r := Arrived(s, id);
    WaitingNone(s.pend, id);
    forall b | b in r.bufs ensures BufOk(r, b, {}) {
      assert b != id ==> BufOk(s, b, {});
    }
  }

  lemma QueueConserves(s: State, b: nat, ep: nat)
    requires Conserved(s) && b in s.bufs
    ensures Conserved(Queued(s, b, ep))
  {
    var r := Queued(s, b, ep);
    forall e | e in r.eps ensures TotalOk(r, e) {
      assert TotalOk(s, e);
      BufUpdate(s.bufs, b, r.bufs[b], e);
    }
  }

  lemma QueueLinks(s: State, b: nat, ep: nat)
    requires Linked(s, {}) && b in s.bufs && ep in s.eps
    ensures Linked(Queued(s, b, ep), {})
  {
    var r := Queued(s, b, ep);
    forall d | d in r.bufs ensures BufOk(r, d, {}) {
      assert BufOk(s, d, {});
      WaitingAdd(s.pend, Pend(ep, b), d);
    }
  }

  lemma PutConserves(s: State, b: nat, granted: bool)
    requires Conserved(s) && b in s.bufs && s.bufs[b].ep in s.eps
    ensures Conserved(PutBuf(s, b, granted))
  {
    var r, buf := PutBuf(s, b, granted), s.bufs[b];
    if buf.refs == 1 {
      assert r.bufs[b := buf] == s.bufs;
    }
    forall e | e in r.eps ensures TotalOk(r, e) {
      assert TotalOk(s, e);
      if buf.refs != 1 {
        BufUpdate(s.bufs, b, r.bufs[b], e);
      } else {
        BufAdd(r.bufs, b, buf, e);
        SumAppend(s.eps[e].rets, buf.msgLen);
      }
    }
  }

  lemma PutLinks(s: State, b: nat, granted: bool)
    requires Linked(s, {b}) && b in s.bufs && s.bufs[b].ep in s.eps
    ensures Linked(PutBuf(s, b, granted), {})
  {
    assert BufOk(s, b, {b});
    var r := PutBuf(s, b, granted);
    WaitingNone(s.pend, b);
    forall d | d in r.bufs ensures BufOk(r, d, {}) {
      assert BufOk(s, d, {b});
    }
  }

  lemma UnqueueConserves(s: State, k: nat)
    requires Conserved(s) && k < |s.pend|
    ensures Conserved(Unqueued(s, k))
  {
    forall e | e in s.eps ensures TotalOk(Unqueued(s, k), e) {
      assert TotalOk(s, e);
    }
  }

  lemma UnqueueLinks(s: State, k: nat)
    requires Linked(s, {}) && k < |s.pend|
    ensures Linked(Unqueued(s, k), {s.pend[k].id})
  {
    var r, b := Unqueued(s, k), s.pend[k].id;
    forall d | d in r.bufs ensures BufOk(r, d, {b}) {
      assert BufOk(s, d, {});
      WaitingSplit(s.pend, k, d);
    }
  }

  lemma DisownConserves(s: State, b: nat)
    requires Conserved(s) && b in s.bufs && 0 < s.bufs[b].own
    ensures Conserved(Disowned(s, b))
  {
    var r := Disowned(s, b);
    forall e | e in r.eps ensures TotalOk(r, e) {
      assert TotalOk(s, e);
      BufUpdate(s.bufs, b, r.bufs[b], e);
    }
  }

  lemma DisownLinks(s: State, b: nat)
    requires Linked(s, {}) && b in s.bufs && 0 < s.bufs[b].own
    ensures Linked(Disowned(s, b), {b})
  {
    var r := Disowned(s, b);
    forall d | d in r.bufs ensures BufOk(r, d, {b}) {
      assert BufOk(s, d, {});
    }
  }

  lemma ReturnsConserve(s: State, a: Step)
    requires Conserved(s) && (a.FlushReturns? || a.Deposit?) && Enabled(s, a)
    ensures Conserved(Next(s, a))
  {
    var r := Next(s, a);
    forall e | e in r.eps ensures TotalOk(r, e) {
      assert TotalOk(s, e);
      if a.FlushReturns? {
        SumAppend(s.eps[e].rets, a.amount);
      }
    }
  }

  lemma ReturnsKeep(s: State, a: Step)
    requires Inv(s) && (a.FlushReturns? || a.Deposit?) && Enabled(s, a)
    ensures Inv(Next(s, a))
  {
    var r := Next(s, a);
    ReturnsConserve(s, a);
    assert Linked(r, {}) by {
      forall b | b in r.bufs ensures BufOk(r, b, {}) {
        assert BufOk(s, b, {});
      }
    }
  }

  lemma FlushOneKeeps(s: State, k: nat, id: nat, m: Message, g: bool)
    requires Inv(s) && Enabled(s, FlushOne(k, id, m, g))
    ensures Inv(Next(s, FlushOne(k, id, m, g)))
  {
    var ep, b := s.pend[k].ep, s.pend[k].id;
    var t := Send(s, ep, id, m);
    SendConserves(s, ep, id, m);
    SendLinks(s, ep, id, m);
    UnqueueConserves(t, k);
    UnqueueLinks(t, k);
    PutConserves(Unqueued(t, k), b, g);
    PutLinks(Unqueued(t, k), b, g);
  }

  lemma StepKeepsInv(s: State, a: Step)
    requires Inv(s) && Enabled(s, a)
    ensures Inv(Next(s, a))
  {
    match a
    case Publish(ep, id, m) => SendConserves(s, ep, id, m); SendLinks(s, ep, id, m);
    case Arrive(id) => ArriveConserves(s, id); ArriveLinks(s, id);
    case ForwardNow(b, ep, id, m) => SendConserves(s, ep, id, m); SendLinks(s, ep, id, m);
    case ForwardLater(b, ep) => QueueConserves(s, b, ep); QueueLinks(s, b, ep);
    case FlushOne(k, id, m, g) => FlushOneKeeps(s, k, id, m, g);
    case DropOwn(b, g) =>
      DisownConserves(s, b);
      DisownLinks(s, b);
      PutConserves(Disowned(s, b), b, g);
      PutLinks(Disowned(s, b), b, g);
    case FlushReturns(ep, n) => ReturnsKeep(s, a);
    case Deposit(ep) => ReturnsKeep(s, a);
  }

  // Runs

  ghost predicate CanRun(s: State, steps: seq<Step>)
    decreases |steps|
  {
    steps == [] || (Enabled(s, steps[0]) && CanRun(Next(s, steps[0]), steps[1..]))
  }

  ghost function Run(s: State, steps: seq<Step>): State
    requires CanRun(s, steps)
    decreases |steps|
  {
    if steps == [] then s else Run(Next(s, steps[0]), steps[1..])
  }

  /** All quota is with the senders, nothing has been sent. */
  ghost predicate Fresh(s: State) {
    && s.flights == map[] && s.bufs == map[] && s.pend == [] && s.done == map[]
    && (forall ep | ep in s.eps :: s.eps[ep] == Endpoint(s.eps[ep].quota, s.eps[ep].quota, 0, []))
  }

  lemma FreshInv(s: State)
    requires Fresh(s)
    ensures Inv(s)
  {
    forall ep | ep in s.eps ensures TotalOk(s, ep) {
      assert FlightCosts(s.flights, ep) == map[] && BufCosts(s.bufs, ep) == map[];
    }
  }

  lemma {:induction false} RunKeeps(s: State, steps: seq<Step>)
    requires Inv(s) && CanRun(s, steps)
    ensures Inv(Run(s, steps))
    ensures forall id | id in s.done :: id in Run(s, steps).done && Run(s, steps).done[id] == s.done[id]
    ensures Run(s, steps).eps.Keys == s.eps.Keys
            && forall ep | ep in s.eps :: Run(s, steps).eps[ep].quota == s.eps[ep].quota
    decreases |steps|
  {
    if steps != [] {
      StepKeepsInv(s, steps[0]);
      forall b | b in s.bufs ensures b !in s.done {
        LiveNotDone(s, b);
      }
      DoneIsFinal(s, steps[0]);
      QuotaIsFixed(s, steps[0]);
      RunKeeps(Next(s, steps[0]), steps[1..]);
    }
  }

  lemma QuotaIsFixed(s: State, a: Step)
    requires Enabled(s, a)
    ensures Next(s, a).eps.Keys == s.eps.Keys && forall ep | ep in s.eps :: Next(s, a).eps[ep].quota == s.eps[ep].quota
  {
  }

  /** What freeing means: an entry in `done` stays, and a new one is for a buffer whose last reference went. */
  ghost predicate FreesAtMostOne(s: State, r: State) {
    && (forall id | id in s.done :: id in r.done && r.done[id] == s.done[id])
    && (forall id | id in r.done && id !in s.done ::
          id in s.bufs && s.bufs[id].refs == 1 && id !in r.bufs && r.done[id] == s.bufs[id].msgLen)
  }

  /** Dropping a reference in a state whose buffers and returns are those of `s`. */
  lemma PutFrees(s: State, t: State, b: nat, granted: bool)
    requires b in t.bufs && b !in s.done && t.bufs[b].ep in t.eps && t.done == s.done
    requires b in s.bufs && t.bufs[b].refs == s.bufs[b].refs && t.bufs[b].msgLen == s.bufs[b].msgLen
    ensures FreesAtMostOne(s, PutBuf(t, b, granted))
  {
  }

  lemma LiveNotDone(s: State, b: nat)
    requires Inv(s) && b in s.bufs
    ensures b !in s.done
  {
    assert BufOk(s, b, {});
  }

  /** A step frees at most one buffer, returning what it holds, and never returns for the same buffer again. */
  lemma DoneIsFinal(s: State, a: Step)
    requires (forall b | b in s.bufs :: b !in s.done) && Enabled(s, a)
    ensures FreesAtMostOne(s, Next(s, a))
  {
    match a
    case FlushOne(k, id, m, granted) =>
      PutFrees(s, Unqueued(Send(s, s.pend[k].ep, id, m), k), s.pend[k].id, granted);
    case DropOwn(b, granted) =>
      PutFrees(s, Disowned(s, b), b, granted);
    case _ =>
  }

  /** The buffers that wait for an endpoint, in the order they were queued. */
  function QueueOf(pend: seq<Pend>, ep: nat): seq<nat> {
    if pend == [] then [] else (if pend[0].ep == ep then [pend[0].id] else []) + QueueOf(pend[1..], ep)
  }

  lemma {:induction false} QueueAppend(pend: seq<Pend>, p: Pend, ep: nat)
    ensures QueueOf(pend + [p], ep) == QueueOf(pend, ep) + if p.ep == ep then [p.id] else []
  {
    if pend == [] {
      assert (pend + [p])[1..] == [];
    } else {
      assert (pend + [p])[1..] == pend[1..] + [p];
      QueueAppend(pend[1..], p, ep);
    }
  }

  lemma {:induction false} QueueDrop(pend: seq<Pend>, k: nat, ep: nat)
    requires k < |pend| && (pend[k].ep == ep ==> forall j | 0 <= j < k :: pend[j].ep != ep)
    ensures QueueOf(pend, ep) == (if pend[k].ep == ep then [pend[k].id] else []) + QueueOf(Drop(pend, k), ep)
  {
    var rest := Drop(pend, k);
    if k == 0 {
      assert rest == pend[1..];
    } else {
      assert rest[0] == pend[0] && rest[1..] == Drop(pend[1..], k - 1);
      QueueDrop(pend[1..], k - 1, ep);
    }
  }

  /** Waiting buffers are forwarded first come, first served, endpoint by endpoint. */
  lemma FirstComeFirstServed(s: State, a: Step, ep: nat)
    requires Enabled(s, a)
    ensures var before, after := QueueOf(s.pend, ep), QueueOf(Next(s, a).pend, ep);
            if a.ForwardLater? && a.ep == ep then after == before + [a.b]
            else if a.FlushOne? && s.pend[a.k].ep == ep then before == [s.pend[a.k].id] + after
            else after == before
  {
    match a
    case ForwardLater(b, e) =>
      QueueAppend(s.pend, Pend(e, b), ep);
    case FlushOne(k, id, m, granted) =>
      QueueDrop(s.pend, k, ep);
    case _ =>
  }

  /** The buffer whose reference a step drops, and whether the quota group grants a return. */
  function Releases(s: State, a: Step): Option<(nat, bool)> {
    match a
    case FlushOne(k, _, _, granted) => if k < |s.pend| then Some((s.pend[k].id, granted)) else None
    case DropOwn(b, granted) => Some((b, granted))
    case _ => None
  }

  /**
   * The last reference to a buffer gives back what the buffer holds, to the endpoint it came from:
   * it is sent back at once if that is granted, and is left pending if not.  No other step of this
   * kind gives anything back.
   */
  lemma LastReferenceReturns(s: State, a: Step)
    requires Enabled(s, a) && Releases(s, a).Some?
    ensures var (b, granted) := Releases(s, a).value;
            && b in s.bufs && s.bufs[b].ep in s.eps
            && var e, r := s.eps[s.bufs[b].ep], Next(s, a).eps[s.bufs[b].ep];
            && r.rets == (if s.bufs[b].refs == 1 && granted then e.rets + [s.bufs[b].msgLen] else e.rets)
            && r.pendingRet == e.pendingRet + (if s.bufs[b].refs == 1 && !granted then s.bufs[b].msgLen else 0)
            && forall ep | ep in s.eps && ep != s.bufs[b].ep ::
                 Next(s, a).eps[ep].rets == s.eps[ep].rets && Next(s, a).eps[ep].pendingRet == s.eps[ep].pendingRet
  {
  }

  /**
   * Over every run, each endpoint's quota is in exactly one place, and once
   * nothing is in flight, held or on its way back the sender has all of it again.
   */
  lemma QuotaIsConserved(s: State, steps: seq<Step>, ep: nat)
    requires Fresh(s) && CanRun(s, steps) && ep in s.eps
    ensures var r := Run(s, steps);
            && ep in r.eps && r.eps[ep].avail + FlightDue(r.flights, ep) + BufDue(r.bufs, ep) + r.eps[ep].pendingRet + Sum(r.eps[ep].rets)
               == s.eps[ep].quota
            && (r.flights == map[] && r.bufs == map[] && r.eps[ep].pendingRet == 0 && r.eps[ep].rets == [] ==>
                  r.eps[ep].avail == s.eps[ep].quota)
  {
    FreshInv(s);
    RunKeeps(s, steps);
    var r := Run(s, steps);
    assert TotalOk(r, ep);
    if r.flights == map[] && r.bufs == map[] {
      assert FlightCosts(r.flights, ep) == map[] && BufCosts(r.bufs, ep) == map[];
    }
  }

  /** A live buffer has not returned its quota, and its count is its own references and its places in queues. */
  lemma BufferReturnsOnce(s: State, steps: seq<Step>, id: nat)
    requires Fresh(s) && CanRun(s, steps)
    ensures var r := Run(s, steps);
            && (id in r.bufs ==> id !in r.done && 0 < r.bufs[id].refs == r.bufs[id].own + Waiting(r.pend, id))
            && (id in r.done ==> id !in r.bufs && id !in r.flights && Waiting(r.pend, id) == 0)
  {
    FreshInv(s);
    RunKeeps(s, steps);
    var r := Run(s, steps);
    assert id in r.bufs ==> BufOk(r, id, {});
    WaitingNone(r.pend, id);
  }
}
