/** Rebuilding messages from parts at the receiving endpoint. */
module MsgAssembly {
  import opened Prelude
  import opened Wire
  import opened MsgParts

  /** Bytes of the full-message header, and where the message length sits in it. */
  const FULL_HDR: nat := 384
  const MSG_LEN_AT: nat := 64

  datatype Key = Key(src: Addr, gn: nat)

  /** A buffer being filled: the body length the header announced, and the bytes collected so far. */
  datatype Sbuf = Sbuf(flen: nat, buf: seq<Byte>) {
    function Full(): nat { FULL_HDR + flen }
  }

  datatype Outcome = NeedMore | Delivered(key: Key, tag: seq<Byte>, data: seq<Byte>) | Dropped | BadMessage

  /** An unresolved source is replaced by the peer's address, unless the peer is a loopback (None). */
  function Resolve(peer: Option<Addr>, src: Addr): Addr {
    if src.family == 0 && peer.Some? then peer.value else src
  }

  function KeyOf(peer: Option<Addr>, p: Part): Key { Key(Resolve(peer, p.src), p.gn) }

  function StrLen(s: seq<Byte>): nat {
    if s == [] || s[0] == 0 then 0 else 1 + StrLen(s[1..])
  }

  /** A complete buffer is split at the end of the tag, if the sender may use the credential in the header. */
  function Finish(key: Key, buf: seq<Byte>, allow: seq<Byte> -> bool): Outcome
    requires FULL_HDR <= |buf|
  {
    var body := buf[FULL_HDR..];
    var t := StrLen(body);
    if !allow(buf[..FULL_HDR]) then Dropped
    else Delivered(key, body[..Min(t, |body|)], body[Min(t + 1, |body|)..])
  }

  function Min(a: nat, b: nat): nat { if a <= b then a else b }

  /** The message length can be read from a first part. */
  predicate Readable(p: Part) { p.first ==> MSG_LEN_AT + 4 <= |p.payload| }

  /** One part for the buffer of its own key. */
  function Collect(b: Option<Sbuf>, key: Key, p: Part, allow: seq<Byte> -> bool): (Option<Sbuf>, Outcome)
    requires Readable(p)
  {
    if b.None? && !p.first then (None, BadMessage)
    else
      var s := if b.Some? then b.value else Sbuf(FromBE32(p.payload[MSG_LEN_AT..MSG_LEN_AT + 4]), []);
      if |p.payload| + |s.buf| > s.Full() then (Some(s), BadMessage)
      else
        var c := Sbuf(s.flen, s.buf + p.payload);
        if p.more then (Some(c), NeedMore)
        else if |c.buf| != c.Full() then (None, BadMessage)
        else (None, Finish(key, c.buf, allow))
  }

  /** The key names the part's own source, or the peer's if the part has none, and the part's number. */
  ghost predicate FromSender(key: Key, p: Part, peer: Option<Addr>) {
    && (p.src.family != 0 || peer.None? ==> key.src == p.src)
    && (p.src.family == 0 && peer.Some? ==> key.src == peer.value)
    && key.gn == p.gn
  }

  /** No more bytes than were announced. */
  ghost predicate Within(b: Sbuf) { |b.buf| <= b.Full() }

  /** A buffer never takes more than its message has, and is given up as a message only when it has all of it. */
  lemma CollectStaysWithin(b: Option<Sbuf>, key: Key, p: Part, allow: seq<Byte> -> bool)
    requires Readable(p)
    ensures var (c, out) := Collect(b, key, p, allow);
            && ((b.Some? ==> Within(b.value)) && c.Some? ==> Within(c.value))
            && (out.Delivered? || out.Dropped? ==>
                  !p.more && c.None? && if b.Some? then |b.value.buf| + |p.payload| == b.value.Full()
                                        else |p.payload| == FULL_HDR + FromBE32(p.payload[MSG_LEN_AT..MSG_LEN_AT + 4]))
            && (out.Delivered? ==> out.key == key)
  {
  }

  type Buffers = map<Key, Sbuf>

  ghost predicate AllWithin(m: Buffers) { forall k | k in m :: Within(m[k]) }

  function Get(m: Buffers, k: Key): Option<Sbuf> { if k in m then Some(m[k]) else None }

  function Put(m: Buffers, k: Key, b: Option<Sbuf>): Buffers { if b.Some? then m[k := b.value] else m - {k} }

  /** The receiver as intended: a buffer is found by the source and number of the message. */
  class IntendedReceiver {
    const peer: Option<Addr>
    const allow: seq<Byte> -> bool
    var sbufs: Buffers

    constructor (peer: Option<Addr>, allow: seq<Byte> -> bool)
      ensures this.peer == peer && this.allow == allow && sbufs == map[]
    {
      this.peer, this.allow, this.sbufs := peer, allow, map[];
    }

    /** A partial message arrives; only the buffer of its key is touched. */
    method ProcessMsg(p: Part) returns (out: Outcome)
      requires Readable(p)
      modifies this
      ensures (Get(sbufs, KeyOf(peer, p)), out) == Collect(old(Get(sbufs, KeyOf(peer, p))), KeyOf(peer, p), p, allow)
      ensures forall k | k != KeyOf(peer, p) :: Get(sbufs, k) == old(Get(sbufs, k))
      ensures out.Delivered? ==> FromSender(out.key, p, peer)
      ensures old(AllWithin(sbufs)) ==> AllWithin(sbufs)
    {
      var key := KeyOf(peer, p);
      CollectStaysWithin(Get(sbufs, key), key, p, allow);
      if key !in sbufs {
        if !p.first {
          return BadMessage;
        }
        var flen := FromBE32(p.payload[MSG_LEN_AT..MSG_LEN_AT + 4]);
        sbufs := sbufs[key := Sbuf(flen, [])];
      }
      var s := sbufs[key];
      if |p.payload| + |s.buf| > s.Full() {
        return BadMessage;
      }
      s := Sbuf(s.flen, s.buf + p.payload);
      sbufs := sbufs[key := s];
      if p.more {
        return NeedMore;
      }
      if |s.buf| != s.Full() {
        out := BadMessage;
      } else {
        out := Finish(key, s.buf, allow);
      }
      sbufs := sbufs - {key};
    }

    method ProcessAll(trace: seq<Part>) returns (events: seq<Event>)
      requires forall p | p in trace :: Readable(p)
      modifies this
      ensures (sbufs, events) == ReceiveAll(old(sbufs), trace, peer, allow)
      decreases |trace|
    {
      if trace == [] {
        return [];
      }
      var key := KeyOf(peer, trace[0]);
      var out := ProcessMsg(trace[0]);
      SameBuffers(sbufs, Put(old(sbufs), key, Collect(Get(old(sbufs), key), key, trace[0], allow).0));
      var rest := ProcessAll(trace[1..]);
      return [Event(key, out)] + rest;
    }
  }

  // A whole trace of parts

  lemma SameBuffers(m: Buffers, n: Buffers)
    requires forall k :: Get(m, k) == Get(n, k)
    ensures m == n
  {
    assert forall k :: k in m ==> Get(n, k) == Some(m[k]);
    assert forall k :: k in n ==> Get(m, k) == Some(n[k]);
  }

  datatype Event = Event(key: Key, out: Outcome)

  function ReceiveAll(m: Buffers, trace: seq<Part>, peer: Option<Addr>, allow: seq<Byte> -> bool): (Buffers, seq<Event>)
    requires forall p | p in trace :: Readable(p)
    decreases |trace|
  {
    if trace == [] then (m, [])
    else
      var k := KeyOf(peer, trace[0]);
      var (b, out) := Collect(Get(m, k), k, trace[0], allow);
      var (last, events) := ReceiveAll(Put(m, k, b), trace[1..], peer, allow);
      (last, [Event(k, out)] + events)
  }

  /** Over any trace no buffer ever takes more than its message has. */
  lemma {:induction false} ReceiveStaysWithin(m: Buffers, trace: seq<Part>, peer: Option<Addr>,
                                              allow: seq<Byte> -> bool)
    requires AllWithin(m) && forall p | p in trace :: Readable(p)
    ensures AllWithin(ReceiveAll(m, trace, peer, allow).0)
    decreases |trace|
  {
    if trace != [] {
      var k := KeyOf(peer, trace[0]);
      var (b, out) := Collect(Get(m, k), k, trace[0], allow);
      CollectStaysWithin(Get(m, k), k, trace[0], allow);
      ReceiveStaysWithin(Put(m, k, b), trace[1..], peer, allow);
    }
  }

  /** The parts of one key on their own. */
  function CollectAll(b: Option<Sbuf>, key: Key, parts: seq<Part>, allow: seq<Byte> -> bool)
    : (Option<Sbuf>, seq<Outcome>)
    requires forall p | p in parts :: Readable(p)
    decreases |parts|
  {
    if parts == [] then (b, [])
    else
      var (c, out) := Collect(b, key, parts[0], allow);
      var (last, outs) := CollectAll(c, key, parts[1..], allow);
      (last, [out] + outs)
  }

  function PartsOf(trace: seq<Part>, peer: Option<Addr>, k: Key): (r: seq<Part>)
    ensures forall p | p in r :: p in trace
  {
    if trace == [] then []
    else (if KeyOf(peer, trace[0]) == k then [trace[0]] else []) + PartsOf(trace[1..], peer, k)
  }

  function OutcomesOf(events: seq<Event>, k: Key): seq<Outcome> {
    if events == [] then []
    else (if events[0].key == k then [events[0].out] else []) + OutcomesOf(events[1..], k)
  }

  /** What happens to one key does not depend on how other keys are interleaved with it. */
  lemma {:induction false} IntendedKeysAreIndependent(m: Buffers, trace: seq<Part>, peer: Option<Addr>,
                                                      allow: seq<Byte> -> bool, k: Key)
    requires forall p | p in trace :: Readable(p)
    ensures var (last, events) := ReceiveAll(m, trace, peer, allow);
            (Get(last, k), OutcomesOf(events, k)) == CollectAll(Get(m, k), k, PartsOf(trace, peer, k), allow)
    decreases |trace|
  {
    if trace != [] {
      var key := KeyOf(peer, trace[0]);
      var (b, out) := Collect(Get(m, key), key, trace[0], allow);
      IntendedKeysAreIndependent(Put(m, key, b), trace[1..], peer, allow, k);
      var (last, events) := ReceiveAll(Put(m, key, b), trace[1..], peer, allow);
      assert ([Event(key, out)] + events)[1..] == events;
      var rest := PartsOf(trace[1..], peer, k);
      if key == k {
        assert PartsOf(trace, peer, k)[1..] == rest;
        assert Get(Put(m, key, b), k) == b;
      } else {
        assert PartsOf(trace, peer, k) == [] + rest == rest;
        assert Get(Put(m, key, b), k) == Get(m, k);
        assert [] + OutcomesOf(events, k) == OutcomesOf(events, k);
      }
    }
  }

  // Messages

  /** A message to be sent: its header with the length field filled in, its tag and its data. */
  datatype Message = Message(src: Addr, gn: nat, header: seq<Byte>, tag: seq<Byte>, data: seq<Byte>)

  predicate WellFormed(m: Message) {
    && |m.header| == FULL_HDR
    && |m.tag| + 1 + |m.data| < U32
    && m.header[MSG_LEN_AT..MSG_LEN_AT + 4] == BE32(|m.tag| + 1 + |m.data|)
    && 0 !in m.tag
  }

  /** The parameters handed to the part sender: header, tag with its terminator, data. */
  function Params(m: Message): seq<seq<Byte>> { [m.header, m.tag + [0], m.data] }

  function Stream(m: Message): seq<Byte> { m.header + m.tag + [0] + m.data }

  lemma ParamsAreStream(m: Message)
    ensures Flatten(Params(m)) == Stream(m)
  {
    var t := m.tag + [0];
    assert [m.header, t, m.data][1..] == [t, m.data] && [t, m.data][1..] == [m.data] && [m.data][1..] == [];
    assert Flatten([m.data]) == m.data + Flatten([]) == m.data;
    assert Flatten([t, m.data]) == t + Flatten([m.data]);
    assert Flatten([m.header, t, m.data]) == m.header + Flatten([t, m.data]);
  }

  /** Publishing to a peer: the length of tag and data goes into the header, then everything is sent in parts. */
  method RepPublish(src: Addr, gn: nat, header: seq<Byte>, tag: seq<Byte>, data: seq<Byte>, zmax: nat)
    returns (m: Message, parts: seq<Part>)
    requires |header| == FULL_HDR && 0 !in tag && |tag| + 1 + |data| < U32 && PART_OVERHEAD < zmax
    ensures WellFormed(m) && m.src == src && m.gn == gn && m.tag == tag && m.data == data
    ensures m.header[..MSG_LEN_AT] == header[..MSG_LEN_AT] && m.header[MSG_LEN_AT + 4..] == header[MSG_LEN_AT + 4..]
    ensures Carries(parts, src, gn, zmax - PART_OVERHEAD, Stream(m))
  {
    var len := |tag| + 1 + |data|;
    m := Message(src, gn, header[..MSG_LEN_AT] + BE32(len) + header[MSG_LEN_AT + 4..], tag, data);
    ParamsAreStream(m);
    parts := PartSend(src, gn, Params(m), zmax);
  }

  lemma {:induction false} StrLenOfTag(tag: seq<Byte>, rest: seq<Byte>)
    requires 0 !in tag
    ensures StrLen(tag + [0] + rest) == |tag|
  {
    var s := tag + [0] + rest;
    if tag != [] {
      assert s[1..] == tag[1..] + [0] + rest;
      assert s[0] == tag[0] && tag[0] in tag;
      StrLenOfTag(tag[1..], rest);
    }
  }

  /** Splitting the complete buffer gives back the tag and the data that were sent. */
  lemma FinishUndoesStream(key: Key, m: Message, allow: seq<Byte> -> bool)
    requires WellFormed(m)
    ensures Finish(key, Stream(m), allow) == if allow(m.header) then Delivered(key, m.tag, m.data) else Dropped
  {
    var body := m.tag + [0] + m.data;
    assert Stream(m)[FULL_HDR..] == body && Stream(m)[..FULL_HDR] == m.header;
    StrLenOfTag(m.tag, m.data);
    assert body[..|m.tag|] == m.tag && body[|m.tag| + 1..] == m.data;
  }

  /** `n` parts arrive, the last one completes the message. */
  function Outcomes(n: nat, final: Outcome): seq<Outcome> {
    seq(n, i => if i == n - 1 then final else NeedMore)
  }

  lemma {:induction false} CollectRest(flen: nat, have: seq<Byte>, key: Key, parts: seq<Part>, allow: seq<Byte> -> bool)
    requires parts != [] && forall p | p in parts :: Readable(p)
    requires forall i | 0 <= i < |parts| :: parts[i].more <==> i < |parts| - 1
    requires |have + Flatten(Payloads(parts))| == FULL_HDR + flen
    ensures CollectAll(Some(Sbuf(flen, have)), key, parts, allow)
         == (None, Outcomes(|parts|, Finish(key, have + Flatten(Payloads(parts)), allow)))
    decreases |parts|
  {
    var p, rest := parts[0], parts[1..];
    assert Payloads(parts)[1..] == Payloads(rest);
    var now := have + p.payload;
    assert now + Flatten(Payloads(rest)) == have + Flatten(Payloads(parts));
    if rest == [] {
      assert now == have + Flatten(Payloads(parts));
      assert CollectAll(None, key, rest, allow) == (None, []);
      var final := Finish(key, now, allow);
      assert [final] + [] == Outcomes(1, final);
    } else {
      CollectRest(flen, now, key, rest, allow);
      var final := Finish(key, have + Flatten(Payloads(parts)), allow);
      assert [NeedMore] + Outcomes(|rest|, final) == Outcomes(|parts|, final);
    }
  }

  lemma FirstPartShowsHeader(parts: seq<Part>, src: Addr, gn: nat, cap: nat, m: Message)
    requires WellFormed(m) && FULL_HDR <= cap && Carries(parts, src, gn, cap, Stream(m))
    ensures FULL_HDR <= |parts[0].payload| && parts[0].payload[..FULL_HDR] == m.header
    ensures forall p | p in parts :: Readable(p)
  {
    var pay := Payloads(parts);
    assert Flatten(pay) == pay[0] + Flatten(pay[1..]);
    if |parts| == 1 {
      assert pay[1..] == [];
    }
    assert Stream(m)[..FULL_HDR] == m.header;
  }

  lemma SliceOfPrefix(payload: seq<Byte>, header: seq<Byte>)
    requires FULL_HDR <= |payload| && payload[..FULL_HDR] == header
    ensures payload[MSG_LEN_AT..MSG_LEN_AT + 4] == header[MSG_LEN_AT..MSG_LEN_AT + 4]
  {
    assert forall k | 0 <= k < FULL_HDR :: payload[k] == header[k];
  }

  /** The parts of one message, on their own, deliver it exactly once, at the last part. */
  lemma IntendedMessageArrives(parts: seq<Part>, key: Key, cap: nat, m: Message, allow: seq<Byte> -> bool)
    requires WellFormed(m) && FULL_HDR <= cap && Carries(parts, m.src, m.gn, cap, Stream(m))
    ensures forall p | p in parts :: Readable(p)
    ensures CollectAll(None, key, parts, allow)
         == (None, Outcomes(|parts|, if allow(m.header) then Delivered(key, m.tag, m.data) else Dropped))
  {
    FirstPartShowsHeader(parts, m.src, m.gn, cap, m);
    FieldRoundTrip(|m.tag| + 1 + |m.data|);
    var flen := |m.tag| + 1 + |m.data|;
    SliceOfPrefix(parts[0].payload, m.header);
    assert [] + Flatten(Payloads(parts)) == Stream(m);
    CollectRest(flen, [], key, parts, allow);
    assert Collect(None, key, parts[0], allow) == Collect(Some(Sbuf(flen, [])), key, parts[0], allow);
    assert CollectAll(None, key, parts, allow) == CollectAll(Some(Sbuf(flen, [])), key, parts, allow);
    FinishUndoesStream(key, m, allow);
  }

  /**
   * Any interleaving that keeps each message's own order rebuilds every message
   * exactly once and leaves no buffer behind.
   */
  lemma IntendedInterleavingArrives(msgs: map<Key, Message>, trace: seq<Part>, peer: Option<Addr>, cap: nat,
                                    allow: seq<Byte> -> bool)
    requires FULL_HDR <= cap
    requires forall k | k in msgs :: WellFormed(msgs[k])
    requires forall k | k in msgs :: Carries(PartsOf(trace, peer, k), msgs[k].src, msgs[k].gn, cap, Stream(msgs[k]))
    requires forall p | p in trace :: KeyOf(peer, p) in msgs
    ensures forall p | p in trace :: Readable(p)
    ensures ReceiveAll(map[], trace, peer, allow).0 == map[]
    ensures forall k | k in msgs ::
              OutcomesOf(ReceiveAll(map[], trace, peer, allow).1, k)
              == Outcomes(|PartsOf(trace, peer, k)|,
                          if allow(msgs[k].header) then Delivered(k, msgs[k].tag, msgs[k].data) else Dropped)
  {
    forall p | p in trace ensures Readable(p) {
      var k := KeyOf(peer, p);
      InOwnParts(trace, peer, p);
      IntendedMessageArrives(PartsOf(trace, peer, k), k, cap, msgs[k], allow);
    }
    var (last, events) := ReceiveAll(map[], trace, peer, allow);
    forall k ensures Get(last, k).None? {
      IntendedKeysAreIndependent(map[], trace, peer, allow, k);
      if k in msgs {
        IntendedMessageArrives(PartsOf(trace, peer, k), k, cap, msgs[k], allow);
      } else {
        NoPartsElsewhere(trace, peer, k);
      }
    }
    assert forall k :: k !in last by {
      assert forall k :: Get(last, k).None? ==> k !in last;
    }
    assert last == map[];
    forall k | k in msgs
      ensures OutcomesOf(events, k)
           == Outcomes(|PartsOf(trace, peer, k)|,
                       if allow(msgs[k].header) then Delivered(k, msgs[k].tag, msgs[k].data) else Dropped)
    {
      IntendedKeysAreIndependent(map[], trace, peer, allow, k);
      IntendedMessageArrives(PartsOf(trace, peer, k), k, cap, msgs[k], allow);
    }
  }

  lemma {:induction false} InOwnParts(trace: seq<Part>, peer: Option<Addr>, p: Part)
    requires p in trace
    ensures p in PartsOf(trace, peer, KeyOf(peer, p))
  {
    if trace[0] != p {
      assert p in trace[1..];
      InOwnParts(trace[1..], peer, p);
    }
  }

  lemma {:induction false} NoPartsElsewhere(trace: seq<Part>, peer: Option<Addr>, k: Key)
    requires forall p | p in trace :: KeyOf(peer, p) != k
    ensures PartsOf(trace, peer, k) == []
  {
    if trace != [] {
      NoPartsElsewhere(trace[1..], peer, k);
    }
  }
}
