/**
 * Rebuilding messages with the buffer lookup as written: the 32 bytes of a
 * stored key are compared with the first 32 bytes of a received part, whose
 * structure is packed differently.
 */
module MsgLookup {
  import opened Prelude
  import opened Wire
  import opened MsgParts
  import opened MsgAssembly

  // The bytes compared

  const U64: nat := U32 * U32

  predicate AddrOk(a: Addr) { a.family < 0x1_0000 && a.port < 0x1_0000 && |a.ip| == 16 }

  function AddrBytes(a: Addr): (b: seq<Byte>)
    requires AddrOk(a)
    ensures |b| == 20
  {
    [a.family / 256, a.family % 256, a.port / 256, a.port % 256] + a.ip
  }

  predicate KeyOk(k: Key) { AddrOk(k.src) && k.gn < U64 }

  /** A stored key: the number is aligned to eight bytes, with four zero bytes in front of it. */
  function StoredKey(k: Key): (b: seq<Byte>)
    requires KeyOk(k)
    ensures |b| == 32
  {
    AddrBytes(k.src) + [0, 0, 0, 0] + LittleEndian(k.gn, 8)
  }

  /** The start of a part: the number follows the address directly, and then comes the flag word. */
  function SoughtKey(k: Key, flags: nat): (b: seq<Byte>)
    requires KeyOk(k) && flags < U32
    ensures |b| == 32
  {
    AddrBytes(k.src) + LittleEndian(k.gn, 8) + LittleEndian(flags, 4)
  }

  lemma AddrBytesDiffer(a: Addr, b: Addr)
    requires AddrOk(a) && AddrOk(b) && AddrBytes(a) == AddrBytes(b)
    ensures a == b
  {
    var x, y := AddrBytes(a), AddrBytes(b);
    assert a.ip == x[4..] == y[4..] == b.ip;
    assert x[0] == y[0] && x[1] == y[1] && x[2] == y[2] && x[3] == y[3];
  }

  lemma FourBytes()
    ensures Pow256(4) == U32 && LittleEndian(0, 4) == [0, 0, 0, 0]
  {
    assert Pow256(2) == 0x1_0000 && LittleEndian(0, 2) == [0, 0];
  }

  /** A 64-bit number is its low half followed by its high half. */
  lemma Halves(n: nat)
    requires n < U64
    ensures LittleEndian(n, 8) == LittleEndian(n % U32, 4) + LittleEndian(n / U32, 4)
  {
    FourBytes();
    LittleEndianSplit(n / U32, n % U32, U32, 4, 4);
  }

  lemma HalfDiffers(m: nat, n: nat)
    requires m < U32 && n < U32
    ensures LittleEndian(m, 4) == LittleEndian(n, 4) <==> m == n
  {
    FourBytes();
    LittleEndianReads(m, 4);
    LittleEndianReads(n, 4);
  }

  lemma SamePieces(x: seq<Byte>, y: seq<Byte>, a: seq<Byte>, b: seq<Byte>, c: seq<Byte>,
                   d: seq<Byte>, e: seq<Byte>, f: seq<Byte>)
    requires |a| == |d| && |b| == |e| == 4 && |c| == |f| == 8
    requires x == a + b + c && y == d + f + e
    ensures x == y <==> a == d && b == f[..4] && c == f[4..] + e
  {
    if x == y {
      assert a == x[..|a|] == y[..|a|] == d;
      assert b == x[|a|..|a| + 4] == y[|a|..|a| + 4] == f[..4];
      assert c == x[|a| + 4..] == y[|a| + 4..] == f[4..] + e;
    }
    if a == d && b == f[..4] && c == f[4..] + e {
      assert f == f[..4] + f[4..];
    }
  }

  /**
   * The bytes agree exactly if the sources do, the part's number is the low half of the stored
   * number moved up by 32 bits, and the part's flag word is the high half of the stored number.
   */
  lemma LookupIff(stored: Key, sought: Key, flags: nat)
    requires KeyOk(stored) && KeyOk(sought) && flags < U32
    ensures StoredKey(stored) == SoughtKey(sought, flags)
       <==> sought.src == stored.src && sought.gn == stored.gn % U32 * U32 && flags == stored.gn / U32
  {
    var a, d := AddrBytes(stored.src), AddrBytes(sought.src);
    var zeros, c, f, e := [0, 0, 0, 0], LittleEndian(stored.gn, 8), LittleEndian(sought.gn, 8), LittleEndian(flags, 4);
    SamePieces(StoredKey(stored), SoughtKey(sought, flags), a, zeros, c, d, e, f);
    var lo, hi := sought.gn % U32, sought.gn / U32;
    Halves(stored.gn);
    Halves(sought.gn);
    FourBytes();
    HalfDiffers(0, lo);
    HalfDiffers(stored.gn % U32, hi);
    HalfDiffers(stored.gn / U32, flags);
    assert f[..4] == LittleEndian(lo, 4) && f[4..] == LittleEndian(hi, 4);
    assert c[..4] == LittleEndian(stored.gn % U32, 4) && c[4..] == LittleEndian(stored.gn / U32, 4);
    assert (f[4..] + e)[..4] == f[4..] && (f[4..] + e)[4..] == e;
    if a == d {
      AddrBytesDiffer(stored.src, sought.src);
    }
  }

  // The receiver

  /** A part as it comes in; the reserved bits of the flag word are not set by the sender. */
  datatype Received = Received(part: Part, reserved: nat)

  function Flags(q: Received): nat {
    (if q.part.more then 1 else 0) + (if q.part.first then 2 else 0) + 4 * q.reserved
  }

  predicate Good(q: Received, peer: Option<Addr>) {
    Readable(q.part) && KeyOk(KeyOf(peer, q.part)) && q.reserved < 0x4000_0000
  }

  datatype Slot = Slot(key: Key, buf: Sbuf)

  predicate Matches(s: Slot, q: Received, peer: Option<Addr>)
    requires KeyOk(s.key) && Good(q, peer)
  {
    StoredKey(s.key) == SoughtKey(KeyOf(peer, q.part), Flags(q))
  }

  ghost predicate SlotsOk(slots: seq<Slot>) { forall s | s in slots :: KeyOk(s.key) }

  /** Some slot whose bytes match, or the position behind the last if there is none. */
  ghost predicate FoundAt(slots: seq<Slot>, at: nat, q: Received, peer: Option<Addr>)
    requires SlotsOk(slots) && Good(q, peer)
  {
    && at <= |slots|
    && if at < |slots| then Matches(slots[at], q, peer) else forall s | s in slots :: !Matches(s, q, peer)
  }

  /** The slots after a part was collected into the one at `at`. */
  function Placed(slots: seq<Slot>, at: nat, key: Key, b: Option<Sbuf>): seq<Slot>
    requires at <= |slots|
  {
    if at < |slots| then
      if b.Some? then slots[at := Slot(slots[at].key, b.value)] else slots[..at] + slots[at + 1..]
    else if b.Some? then slots + [Slot(key, b.value)]
    else slots
  }

  function Step(slots: seq<Slot>, at: nat, q: Received, peer: Option<Addr>, allow: seq<Byte> -> bool)
    : (seq<Slot>, Outcome)
    requires at <= |slots| && Good(q, peer)
  {
    var key := KeyOf(peer, q.part);
    var (b, out) := Collect(if at < |slots| then Some(slots[at].buf) else None, key, q.part, allow);
    (Placed(slots, at, key, b), out)
  }

  lemma StepKeepsSlots(slots: seq<Slot>, at: nat, q: Received, peer: Option<Addr>, allow: seq<Byte> -> bool)
    requires at <= |slots| && Good(q, peer) && SlotsOk(slots)
    ensures SlotsOk(Step(slots, at, q, peer, allow).0)
  {
    var next := Step(slots, at, q, peer, allow).0;
    forall s | s in next ensures KeyOk(s.key) {
      assert at < |slots| ==> slots[at] in slots;
    }
  }

  ghost predicate SlotsWithin(slots: seq<Slot>) { forall s | s in slots :: Within(s.buf) }

  /** However buffers are found, none takes more than its message has. */
  lemma StepStaysWithin(slots: seq<Slot>, at: nat, q: Received, peer: Option<Addr>, allow: seq<Byte> -> bool)
    requires at <= |slots| && Good(q, peer)
    ensures SlotsWithin(slots) ==> SlotsWithin(Step(slots, at, q, peer, allow).0)
    ensures var out := Step(slots, at, q, peer, allow).1; out.Delivered? ==> FromSender(out.key, q.part, peer)
  {
    CollectStaysWithin(if at < |slots| then Some(slots[at].buf) else None, KeyOf(peer, q.part), q.part, allow);
    if SlotsWithin(slots) {
      forall s | s in Step(slots, at, q, peer, allow).0 ensures Within(s.buf) {
        assert at < |slots| ==> slots[at] in slots;
      }
    }
  }

  /** What can come out of a whole trace of parts. */
  ghost predicate Runs(slots: seq<Slot>, trace: seq<Received>, peer: Option<Addr>, allow: seq<Byte> -> bool,
                       last: seq<Slot>, outs: seq<Outcome>)
    requires SlotsOk(slots) && forall q | q in trace :: Good(q, peer)
    decreases |trace|
  {
    if trace == [] then last == slots && outs == []
    else outs != [] && exists at | FoundAt(slots, at, trace[0], peer) ::
      RunsOn(slots, at, trace, peer, allow, last, outs)
  }

  ghost predicate RunsOn(slots: seq<Slot>, at: nat, trace: seq<Received>, peer: Option<Addr>,
                         allow: seq<Byte> -> bool, last: seq<Slot>, outs: seq<Outcome>)
    requires SlotsOk(slots) && trace != [] && outs != [] && forall q | q in trace :: Good(q, peer)
    requires at <= |slots|
    decreases |trace|, 0
  {
    var (next, out) := Step(slots, at, trace[0], peer, allow);
    StepKeepsSlots(slots, at, trace[0], peer, allow);
    outs[0] == out && Runs(next, trace[1..], peer, allow, last, outs[1..])
  }

  class WrittenReceiver {
    const peer: Option<Addr>
    const allow: seq<Byte> -> bool
    var sbufs: seq<Slot>

    constructor (peer: Option<Addr>, allow: seq<Byte> -> bool)
      ensures this.peer == peer && this.allow == allow && sbufs == []
    {
      this.peer, this.allow, this.sbufs := peer, allow, [];
    }

    /** Looks for a buffer whose key has the bytes of the part. */
    method Find(q: Received) returns (at: nat)
      requires SlotsOk(sbufs) && Good(q, peer)
      ensures FoundAt(sbufs, at, q, peer)
    {
      at := 0;
      while at < |sbufs| && !Matches(sbufs[at], q, peer)
        invariant 0 <= at <= |sbufs|
        invariant forall k | 0 <= k < at :: !Matches(sbufs[k], q, peer)
      {
        at := at + 1;
      }
    }

    /** A partial message arrives. */
    method ProcessMsg(q: Received) returns (out: Outcome, ghost found: nat)
      requires SlotsOk(sbufs) && Good(q, peer)
      modifies this
      ensures FoundAt(old(sbufs), found, q, peer)
      ensures (sbufs, out) == Step(old(sbufs), found, q, peer, allow) && SlotsOk(sbufs)
      ensures out.Delivered? ==> FromSender(out.key, q.part, peer)
      ensures old(SlotsWithin(sbufs)) ==> SlotsWithin(sbufs)
    {
      var p, key := q.part, KeyOf(peer, q.part);
      var at := Find(q);
      found := at;
      StepKeepsSlots(sbufs, at, q, peer, allow);
      StepStaysWithin(sbufs, at, q, peer, allow);
      if at == |sbufs| {
        if !p.first {
          return BadMessage, found;
        }
        var flen := FromBE32(p.payload[MSG_LEN_AT..MSG_LEN_AT + 4]);
        sbufs := sbufs + [Slot(key, Sbuf(flen, []))];
      }
      var s := sbufs[at].buf;
      if |p.payload| + |s.buf| > s.Full() {
        assert sbufs == Placed(old(sbufs), at, key, Some(s));
        return BadMessage, found;
      }
      s := Sbuf(s.flen, s.buf + p.payload);
      sbufs := sbufs[at := Slot(sbufs[at].key, s)];
      if p.more {
        assert sbufs == Placed(old(sbufs), at, key, Some(s));
        return NeedMore, found;
      }
      if |s.buf| != s.Full() {
        out := BadMessage;
      } else {
        out := Finish(key, s.buf, allow);
      }
      sbufs := sbufs[..at] + sbufs[at + 1..];
      assert sbufs == Placed(old(sbufs), at, key, None);
    }

    method ProcessAll(trace: seq<Received>) returns (outs: seq<Outcome>)
      requires SlotsOk(sbufs) && forall q | q in trace :: Good(q, peer)
      modifies this
      ensures SlotsOk(old(sbufs)) && Runs(old(sbufs), trace, peer, allow, sbufs, outs)
      decreases |trace|
    {
      if trace == [] {
        return [];
      }
      var out;
      ghost var found;
      out, found := ProcessMsg(trace[0]);
      var rest := ProcessAll(trace[1..]);
      outs := [out] + rest;
      assert outs[1..] == rest;
      assert RunsOn(old(sbufs), found, trace, peer, allow, sbufs, outs);
    }
  }

  // A message alone

  lemma ShiftedIsItself(n: nat)
    ensures n == n % U32 * U32 <==> n == 0
  {
    var lo := n % U32;
    assert n == lo * U32 ==> n % U32 == 0;
  }

  /** A part finds the buffer of its own message exactly if number and flag word are zero. */
  lemma OwnBufferFoundIff(s: Slot, q: Received, peer: Option<Addr>)
    requires KeyOk(s.key) && Good(q, peer) && s.key == KeyOf(peer, q.part)
    ensures Matches(s, q, peer) <==> s.key.gn == 0 && Flags(q) == 0
  {
    LookupIff(s.key, s.key, Flags(q));
    ShiftedIsItself(s.key.gn);
  }

  lemma {:induction false} RunsFirst(trace: seq<Received>, peer: Option<Addr>, allow: seq<Byte> -> bool,
                                     last: seq<Slot>, outs: seq<Outcome>)
    requires trace != [] && (forall q | q in trace :: Good(q, peer)) && Runs([], trace, peer, allow, last, outs)
    ensures outs != [] && RunsOn([], 0, trace, peer, allow, last, outs)
  {
  }

  function PartsIn(trace: seq<Received>): seq<Part> {
    seq(|trace|, i requires 0 <= i < |trace| => trace[i].part)
  }

  /** How a message ends that is complete. */
  function Arrival(key: Key, m: Message, allow: seq<Byte> -> bool): Outcome {
    if allow(m.header) then Delivered(key, m.tag, m.data) else Dropped
  }

  /** A message that meets no other one has been rebuilt: announced at its last part, and nothing left behind. */
  predicate Rebuilt(n: nat, key: Key, m: Message, allow: seq<Byte> -> bool, last: seq<Slot>, outs: seq<Outcome>) {
    last == [] && outs == Outcomes(n, Arrival(key, m, allow))
  }

  /** One part, or two parts with number zero and a zero flag word in the second. */
  predicate Lucky(trace: seq<Received>, gn: nat) {
    |trace| == 1 || (|trace| == 2 && gn == 0 && trace[1].reserved == 0)
  }

  lemma FirstPartCollects(parts: seq<Part>, key: Key, cap: nat, m: Message, allow: seq<Byte> -> bool)
    requires WellFormed(m) && FULL_HDR <= cap && Carries(parts, m.src, m.gn, cap, Stream(m))
    ensures Readable(parts[0])
    ensures var (b, out) := Collect(None, key, parts[0], allow);
            if |parts| == 1 then b == None && out == Arrival(key, m, allow) else b.Some? && out == NeedMore
  {
    IntendedMessageArrives(parts, key, cap, m, allow);
    var (b, out) := Collect(None, key, parts[0], allow);
    var (last, outs) := CollectAll(b, key, parts[1..], allow);
    assert ([out] + outs)[0] == Outcomes(|parts|, Arrival(key, m, allow))[0];
  }

  lemma SecondPartCollects(parts: seq<Part>, key: Key, cap: nat, m: Message, allow: seq<Byte> -> bool)
    requires WellFormed(m) && FULL_HDR <= cap && Carries(parts, m.src, m.gn, cap, Stream(m)) && |parts| == 2
    ensures Readable(parts[0]) && Readable(parts[1])
    ensures Collect(Collect(None, key, parts[0], allow).0, key, parts[1], allow) == (None, Arrival(key, m, allow))
  {
    IntendedMessageArrives(parts, key, cap, m, allow);
    var (b, out) := Collect(None, key, parts[0], allow);
    var rest := parts[1..];
    assert rest == [parts[1]] && rest[1..] == [];
    var (c, final) := Collect(b, key, parts[1], allow);
    assert CollectAll(c, key, rest[1..], allow) == (c, []);
    assert CollectAll(b, key, rest, allow) == (c, [final] + []);
    assert ([out] + [final])[1] == Outcomes(2, Arrival(key, m, allow))[1];
  }

  lemma {:induction false} OnePartRebuilt(trace: seq<Received>, peer: Option<Addr>, cap: nat, m: Message,
                                          allow: seq<Byte> -> bool, last: seq<Slot>, outs: seq<Outcome>)
    requires WellFormed(m) && FULL_HDR <= cap && Carries(PartsIn(trace), m.src, m.gn, cap, Stream(m)) && |trace| == 1
    requires (forall q | q in trace :: Good(q, peer)) && Runs([], trace, peer, allow, last, outs)
    ensures Rebuilt(1, KeyOf(peer, trace[0].part), m, allow, last, outs)
  {
    FirstPartCollects(PartsIn(trace), KeyOf(peer, trace[0].part), cap, m, allow);
    RunsFirst(trace, peer, allow, last, outs);
    assert outs == [outs[0]] + outs[1..];
  }

  lemma {:induction false} SecondPartStep(trace: seq<Received>, peer: Option<Addr>, cap: nat, m: Message,
                                          allow: seq<Byte> -> bool, last: seq<Slot>, outs: seq<Outcome>)
    returns (b: Sbuf)
    requires WellFormed(m) && FULL_HDR <= cap && Carries(PartsIn(trace), m.src, m.gn, cap, Stream(m)) && |trace| > 1
    requires (forall q | q in trace :: Good(q, peer)) && Runs([], trace, peer, allow, last, outs)
    ensures |outs| > 1 && outs[0] == NeedMore && trace[0] in trace && trace[1] in trace
    ensures KeyOf(peer, trace[1].part) == KeyOf(peer, trace[0].part)
    ensures Collect(None, KeyOf(peer, trace[0].part), trace[0].part, allow).0 == Some(b)
    ensures var slot := Slot(KeyOf(peer, trace[0].part), b);
            var at := if m.gn == 0 && Flags(trace[1]) == 0 then 0 else 1;
            && SlotsOk([slot]) && FoundAt([slot], at, trace[1], peer)
            && RunsOn([slot], at, trace[1..], peer, allow, last, outs[1..])
  {
    var parts, key := PartsIn(trace), KeyOf(peer, trace[0].part);
    assert parts[0] == trace[0].part && parts[1] == trace[1].part;
    FirstPartCollects(parts, key, cap, m, allow);
    RunsFirst(trace, peer, allow, last, outs);
    b := Collect(None, key, parts[0], allow).0.value;
    var slot := Slot(key, b);
    var none: seq<Slot> := [];
    assert trace[0] in trace && trace[1] in trace;
    assert none + [slot] == [slot] && Step(none, 0, trace[0], peer, allow) == ([slot], NeedMore);
    OwnBufferFoundIff(slot, trace[1], peer);
    var rest := trace[1..];
    assert rest[0] == trace[1];
    var at: nat :| FoundAt([slot], at, rest[0], peer) && RunsOn([slot], at, rest, peer, allow, last, outs[1..]);
    assert [slot][0] in [slot];
  }

  /**
   * Alone, a message is rebuilt as written exactly if it has one part, or if it has two parts,
   * number zero and a zero flag word; any other message runs into a bad message at its second part.
   */
  lemma {:induction false} WrittenMessageArrivesIff(trace: seq<Received>, peer: Option<Addr>, cap: nat, m: Message,
                                                    allow: seq<Byte> -> bool, last: seq<Slot>, outs: seq<Outcome>)
    requires WellFormed(m) && FULL_HDR <= cap && Carries(PartsIn(trace), m.src, m.gn, cap, Stream(m))
    requires (forall q | q in trace :: Good(q, peer)) && Runs([], trace, peer, allow, last, outs)
    ensures Rebuilt(|trace|, Key(Resolve(peer, m.src), m.gn), m, allow, last, outs) <==> Lucky(trace, m.gn)
    ensures !Lucky(trace, m.gn) ==> |outs| > 1 && outs[1] == BadMessage
  {
    var key := Key(Resolve(peer, m.src), m.gn);
    assert PartsIn(trace)[0] == trace[0].part && key == KeyOf(peer, trace[0].part);
    if |trace| == 1 {
      OnePartRebuilt(trace, peer, cap, m, allow, last, outs);
    } else {
      var b := SecondPartStep(trace, peer, cap, m, allow, last, outs);
      assert PartsIn(trace)[1] == trace[1].part && trace[1..][0] == trace[1];
      if Lucky(trace, m.gn) {
        SecondPartCollects(PartsIn(trace), key, cap, m, allow);
        assert trace[1..][1..] == [] && outs == [outs[0], outs[1]] + outs[1..][1..];
      } else {
        assert outs[1] == BadMessage;
        assert Outcomes(|trace|, Arrival(key, m, allow))[1] != BadMessage;
      }
    }
  }

  /** A message with number one, tag "t" and no data, in parts of 385 bytes. */
  function SampleMessage(src: Addr): Message {
    Message(src, 1, Zeros(MSG_LEN_AT) + BE32(2) + Zeros(316), [116], [])
  }

  function Zeros(n: nat): (z: seq<Byte>)
    ensures |z| == n
  {
    if n == 0 then [] else Zeros(n - 1) + [0]
  }

  function SampleTrace(src: Addr): (trace: seq<Received>)
    requires AddrOk(src)
    ensures forall q | q in trace :: Good(q, None)
  {
    var stream := Stream(SampleMessage(src));
    [Received(Part(src, 1, true, true, stream[..385]), 0), Received(Part(src, 1, false, false, stream[385..]), 0)]
  }

  lemma SampleCarries(src: Addr)
    requires AddrOk(src)
    ensures WellFormed(SampleMessage(src))
    ensures Carries(PartsIn(SampleTrace(src)), src, 1, 385, Stream(SampleMessage(src)))
  {
    var m, trace := SampleMessage(src), SampleTrace(src);
    var stream := Stream(m);
    assert m.header[MSG_LEN_AT..MSG_LEN_AT + 4] == BE32(2);
    var pay := Payloads(PartsIn(trace));
    var one: seq<seq<Byte>> := pay[1..];
    assert pay == [stream[..385], stream[385..]] && one == [stream[385..]] && one[1..] == [];
    assert Flatten(one) == stream[385..] + Flatten(one[1..]) == stream[385..];
    assert stream == stream[..385] + stream[385..];
  }

  /** A two-part message with number one runs into a bad message at its second part. */
  lemma {:induction false} SecondPartIsLost(src: Addr, allow: seq<Byte> -> bool, last: seq<Slot>, outs: seq<Outcome>)
    requires AddrOk(src) && Runs([], SampleTrace(src), None, allow, last, outs)
    ensures outs == [NeedMore, BadMessage] && last != []
  {
    SampleCarries(src);
    var trace := SampleTrace(src);
    var b := SecondPartStep(trace, None, 385, SampleMessage(src), allow, last, outs);
    assert trace[1..][0] == trace[1] && trace[1..][1..] == [];
    assert outs == [outs[0], outs[1]] + outs[1..][1..];
  }

  // Any number of messages

  /** What becomes of a part that finds no buffer. */
  function Unfound(q: Received, peer: Option<Addr>, allow: seq<Byte> -> bool): (Option<Sbuf>, Outcome)
    requires Readable(q.part)
  {
    Collect(None, KeyOf(peer, q.part), q.part, allow)
  }

  predicate SmallNumber(gn: nat) { 0 < gn < U32 }

  ghost predicate SmallSlots(slots: seq<Slot>) { forall s | s in slots :: SmallNumber(s.key.gn) }

  lemma SmallNotFound(slots: seq<Slot>, at: nat, q: Received, peer: Option<Addr>)
    requires SlotsOk(slots) && SmallSlots(slots) && Good(q, peer) && SmallNumber(q.part.gn)
    requires FoundAt(slots, at, q, peer)
    ensures at == |slots|
  {
    if at < |slots| {
      assert slots[at] in slots;
      LookupIff(slots[at].key, KeyOf(peer, q.part), Flags(q));
    }
  }

  /** The buffers a run leaves behind. */
  function Leftover(trace: seq<Received>, peer: Option<Addr>, allow: seq<Byte> -> bool): nat
    requires forall q | q in trace :: Readable(q.part)
  {
    if trace == [] then 0
    else (if Unfound(trace[0], peer, allow).0.Some? then 1 else 0) + Leftover(trace[1..], peer, allow)
  }

  /**
   * In any run in which the numbers are from 1 to 2^32 - 1, no part ever finds a buffer: each
   * comes to what it would come to alone, and every buffer made for more parts stays.
   */
  lemma {:induction false} NothingIsFound(slots: seq<Slot>, trace: seq<Received>, peer: Option<Addr>,
                                          allow: seq<Byte> -> bool, last: seq<Slot>, outs: seq<Outcome>)
    requires SlotsOk(slots) && SmallSlots(slots)
    requires forall q | q in trace :: Good(q, peer) && SmallNumber(q.part.gn)
    requires Runs(slots, trace, peer, allow, last, outs)
    ensures |outs| == |trace| && forall i | 0 <= i < |trace| :: outs[i] == Unfound(trace[i], peer, allow).1
    ensures |last| == |slots| + Leftover(trace, peer, allow)
    decreases |trace|
  {
    if trace != [] {
      var at: nat :| FoundAt(slots, at, trace[0], peer) && RunsOn(slots, at, trace, peer, allow, last, outs);
      SmallNotFound(slots, at, trace[0], peer);
      var next := Step(slots, at, trace[0], peer, allow).0;
      StepKeepsSlots(slots, at, trace[0], peer, allow);
      NothingIsFound(next, trace[1..], peer, allow, last, outs[1..]);
      forall i | 0 <= i < |trace| ensures outs[i] == Unfound(trace[i], peer, allow).1 {
        if i > 0 {
          assert trace[i] == trace[1..][i - 1] && outs[i] == outs[1..][i - 1];
        }
      }
    }
  }

  /** So whatever else comes in, only messages of one part are delivered. */
  lemma {:induction false} OnlyOnePartArrives(trace: seq<Received>, peer: Option<Addr>, allow: seq<Byte> -> bool,
                                              last: seq<Slot>, outs: seq<Outcome>, i: nat)
    requires forall q | q in trace :: Good(q, peer) && SmallNumber(q.part.gn)
    requires Runs([], trace, peer, allow, last, outs) && i < |trace|
    ensures i < |outs| && (outs[i].Delivered? ==> trace[i].part.first && !trace[i].part.more)
    ensures !trace[i].part.first ==> outs[i] == BadMessage
  {
    NothingIsFound([], trace, peer, allow, last, outs);
    assert trace[i] in trace;
  }
}
