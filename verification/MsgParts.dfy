/** Splitting a message into transport-sized parts. */
module MsgParts {
  import opened Prelude
  import opened Wire

  /** A socket address as carried in messages; family 0 means not resolved yet. */
  datatype Addr = Addr(family: nat, port: nat, ip: seq<Byte>)

  datatype Part = Part(src: Addr, gn: nat, first: bool, more: bool, payload: seq<Byte>)

  /** Request header and part header in front of the payload. */
  const PART_OVERHEAD: nat := 16 + 32

  function Payloads(parts: seq<Part>): seq<seq<Byte>> {
    seq(|parts|, i requires 0 <= i < |parts| => parts[i].payload)
  }

  /**
   * The parts carry the stream: every part but the last is full, the first and
   * the last are marked, and the payloads join up to the stream.
   */
  ghost predicate Carries(parts: seq<Part>, src: Addr, gn: nat, cap: nat, stream: seq<Byte>) {
    && parts != []
    && Flatten(Payloads(parts)) == stream
    && (forall i | 0 <= i < |parts| ::
          && parts[i].src == src && parts[i].gn == gn
          && (parts[i].first <==> i == 0)
          && (parts[i].more <==> i < |parts| - 1)
          && |parts[i].payload| <= cap
          && (i < |parts| - 1 ==> |parts[i].payload| == cap))
  }

  /** Full parts sent so far, all marked as having more to come. */
  ghost predicate Filling(parts: seq<Part>, src: Addr, gn: nat, cap: nat) {
    forall i | 0 <= i < |parts| ::
      && parts[i].src == src && parts[i].gn == gn
      && (parts[i].first <==> i == 0) && parts[i].more
      && |parts[i].payload| == cap
  }

  lemma PayloadsAppend(parts: seq<Part>, p: Part)
    ensures Flatten(Payloads(parts + [p])) == Flatten(Payloads(parts)) + p.payload
  {
    assert Payloads(parts + [p]) == Payloads(parts) + [p.payload];
    FlattenAppend(Payloads(parts), p.payload);
  }

  /** Full parts went out, `msg` is in the buffer, and together they are `data`. */
  ghost predicate SentSoFar(parts: seq<Part>, src: Addr, gn: nat, cap: nat, first: bool, msg: seq<Byte>,
                            data: seq<Byte>) {
    && Filling(parts, src, gn, cap) && first == (parts == [])
    && |msg| <= cap && Flatten(Payloads(parts)) + msg == data
  }

  lemma SendFull(parts: seq<Part>, src: Addr, gn: nat, cap: nat, first: bool, msg: seq<Byte>, data: seq<Byte>)
    requires SentSoFar(parts, src, gn, cap, first, msg, data) && |msg| == cap
    ensures SentSoFar(parts + [Part(src, gn, first, true, msg)], src, gn, cap, false, [], data)
  {
    PayloadsAppend(parts, Part(src, gn, first, true, msg));
  }

  lemma SendLast(parts: seq<Part>, src: Addr, gn: nat, cap: nat, first: bool, msg: seq<Byte>, data: seq<Byte>)
    requires SentSoFar(parts, src, gn, cap, first, msg, data)
    ensures Carries(parts + [Part(src, gn, first, false, msg)], src, gn, cap, data)
  {
    PayloadsAppend(parts, Part(src, gn, first, false, msg));
  }

  lemma BufferMore(parts: seq<Part>, src: Addr, gn: nat, cap: nat, first: bool, msg: seq<Byte>, data: seq<Byte>,
                   more: seq<Byte>)
    requires SentSoFar(parts, src, gn, cap, first, msg, data) && |msg + more| <= cap
    ensures SentSoFar(parts, src, gn, cap, first, msg + more, data + more)
  {
    assert Flatten(Payloads(parts)) + (msg + more) == Flatten(Payloads(parts)) + msg + more;
  }

  /** Sends `params` back to back, with the copied length kept until the cursor has moved over it. */
  method PartSend(src: Addr, gn: nat, params: seq<seq<Byte>>, zmax: nat) returns (parts: seq<Part>)
    requires PART_OVERHEAD < zmax
    ensures Carries(parts, src, gn, zmax - PART_OVERHEAD, Flatten(params))
  {
    var cap := zmax - PART_OVERHEAD;
    var i, msg, room, first := 0, [], cap, true;
    parts := [];
    ghost var sent: seq<Byte> := [];
    assert params[..0] == [];
    while i < |params|
      invariant 0 <= i <= |params| && room == cap - |msg|
      invariant SentSoFar(parts, src, gn, cap, first, msg, sent) && sent == Flatten(params[..i])
    {
      var data := params[i];
      i := i + 1;
      assert params[..i] == params[..i - 1] + [data];
      FlattenAppend(params[..i - 1], data);
      if room == 0 {
        SendFull(parts, src, gn, cap, first, msg, sent);
        parts := parts + [Part(src, gn, first, true, msg)];
        msg, room, first := [], cap, false;
      }
      while |data| > room
        invariant 0 < room == cap - |msg|
        invariant SentSoFar(parts, src, gn, cap, first, msg, sent) && sent + data == Flatten(params[..i])
        decreases |data|
      {
        BufferMore(parts, src, gn, cap, first, msg, sent, data[..room]);
        assert sent + data == sent + data[..room] + data[room..];
        msg, sent, data := msg + data[..room], sent + data[..room], data[room..];
        SendFull(parts, src, gn, cap, first, msg, sent);
        parts := parts + [Part(src, gn, first, true, msg)];
        msg, room, first := [], cap, false;
      }
      BufferMore(parts, src, gn, cap, first, msg, sent, data);
      msg, sent := msg + data, sent + data;
      room := room - |data|;
    }
    assert params[..i] == params;
    SendLast(parts, src, gn, cap, first, msg, sent);
    parts := parts + [Part(src, gn, first, false, msg)];
  }

  // The loop as written, where the copied length is zeroed before the cursor is advanced by it

  /**
   * The payloads sent for `data` and then `rest`, with `msg` already in the
   * buffer.  `fuel` bounds the number of parts cut off inside a parameter.
   */
  function WrittenFill(data: seq<Byte>, rest: seq<seq<Byte>>, msg: seq<Byte>, cap: nat,
                       fuel: nat): Option<seq<seq<Byte>>>
    requires |msg| <= cap
    decreases fuel, |rest|
  {
    var room := cap - |msg|;
    if |data| <= room then WrittenNext(rest, msg + data, cap, fuel)
    else if fuel == 0 then None
    else
      var more := WrittenFill(data, rest, [], cap, fuel - 1);
      if more.None? then None else Some([msg + data[..room]] + more.value)
  }

  function WrittenNext(rest: seq<seq<Byte>>, msg: seq<Byte>, cap: nat, fuel: nat): Option<seq<seq<Byte>>>
    requires |msg| <= cap
    decreases fuel, |rest|, 0
  {
    if rest == [] then Some([msg])
    else if |msg| < cap then WrittenFill(rest[0], rest[1..], msg, cap, fuel)
    else
      var more := WrittenFill(rest[0], rest[1..], [], cap, fuel);
      if more.None? then None else Some([msg] + more.value)
  }

  /** Every parameter, in turn, fits in what is left of the part being filled. */
  predicate FitsWhole(params: seq<seq<Byte>>, used: nat, cap: nat) {
    params == []
    || (var u := if used == cap then 0 else used;
        u + |params[0]| <= cap && FitsWhole(params[1..], u + |params[0]|, cap))
  }

  lemma {:induction false} TooLongFill(data: seq<Byte>, rest: seq<seq<Byte>>, msg: seq<Byte>, cap: nat, fuel: nat)
    requires |msg| <= cap
    requires cap < |data| || exists p :: p in rest && cap < |p|
    ensures WrittenFill(data, rest, msg, cap, fuel).None?
    decreases fuel, |rest|
  {
    if |data| <= cap - |msg| {
      TooLongNext(rest, msg + data, cap, fuel);
    } else if fuel != 0 {
      TooLongFill(data, rest, [], cap, fuel - 1);
    }
  }

  lemma {:induction false} TooLongNext(rest: seq<seq<Byte>>, msg: seq<Byte>, cap: nat, fuel: nat)
    requires |msg| <= cap
    requires exists p :: p in rest && cap < |p|
    ensures WrittenNext(rest, msg, cap, fuel).None?
    decreases fuel, |rest|, 0
  {
    assert rest == [rest[0]] + rest[1..];
    TooLongFill(rest[0], rest[1..], if |msg| < cap then msg else [], cap, fuel);
  }

  lemma {:induction false} ShortFill(data: seq<Byte>, rest: seq<seq<Byte>>, msg: seq<Byte>, cap: nat, fuel: nat)
    requires |msg| <= cap && |data| <= cap && |rest| < fuel
    requires forall p | p in rest :: |p| <= cap
    ensures WrittenFill(data, rest, msg, cap, fuel).Some?
    decreases |rest|, fuel
  {
    if |data| <= cap - |msg| {
      ShortNext(rest, msg + data, cap, fuel);
    } else {
      assert WrittenFill(data, rest, [], cap, fuel - 1) == WrittenNext(rest, [] + data, cap, fuel - 1);
      ShortNext(rest, [] + data, cap, fuel - 1);
    }
  }

  lemma {:induction false} ShortNext(rest: seq<seq<Byte>>, msg: seq<Byte>, cap: nat, fuel: nat)
    requires |msg| <= cap && |rest| <= fuel
    requires forall p | p in rest :: |p| <= cap
    ensures WrittenNext(rest, msg, cap, fuel).Some?
    decreases |rest|, fuel, 0
  {
    if rest != [] {
      ShortFill(rest[0], rest[1..], if |msg| < cap then msg else [], cap, fuel);
    }
  }

  /** The loop as written comes to an end exactly when no parameter is longer than a part. */
  lemma WrittenHaltsIff(params: seq<seq<Byte>>, cap: nat)
    requires 0 < cap
    ensures (exists fuel :: WrittenNext(params, [], cap, fuel).Some?) <==> (forall p | p in params :: |p| <= cap)
  {
    if forall p | p in params :: |p| <= cap {
      ShortNext(params, [], cap, |params|);
    } else {
      forall fuel ensures WrittenNext(params, [], cap, fuel).None? {
        TooLongNext(params, [], cap, fuel);
      }
    }
  }

  /** What the written loop sends is at least the stream, and is the stream only if nothing was cut. */
  lemma {:induction false} FillStream(data: seq<Byte>, rest: seq<seq<Byte>>, msg: seq<Byte>, cap: nat, fuel: nat)
    requires 0 < cap && |msg| < cap
    requires WrittenFill(data, rest, msg, cap, fuel).Some?
    ensures var out := Flatten(WrittenFill(data, rest, msg, cap, fuel).value);
            var fits := |msg| + |data| <= cap && FitsWhole(rest, |msg| + |data|, cap);
            && (fits ==> out == msg + data + Flatten(rest))
            && (!fits ==> |out| > |msg| + |data| + |Flatten(rest)|)
    decreases fuel, |rest|
  {
    if |data| <= cap - |msg| {
      NextStream(rest, msg + data, cap, fuel);
    } else {
      FillStream(data, rest, [], cap, fuel - 1);
      var more := WrittenFill(data, rest, [], cap, fuel - 1).value;
      var cut := msg + data[..cap - |msg|];
      assert ([cut] + more)[1..] == more;
    }
  }

  lemma {:induction false} NextStream(rest: seq<seq<Byte>>, msg: seq<Byte>, cap: nat, fuel: nat)
    requires 0 < cap && |msg| <= cap
    requires WrittenNext(rest, msg, cap, fuel).Some?
    ensures var out := Flatten(WrittenNext(rest, msg, cap, fuel).value);
            && (FitsWhole(rest, |msg|, cap) ==> out == msg + Flatten(rest))
            && (!FitsWhole(rest, |msg|, cap) ==> |out| > |msg| + |Flatten(rest)|)
    decreases fuel, |rest|, 0
  {
    if rest == [] {
      assert [msg][1..] == [];
    } else if |msg| < cap {
      FillStream(rest[0], rest[1..], msg, cap, fuel);
      assert msg + rest[0] + Flatten(rest[1..]) == msg + Flatten(rest);
    } else {
      FillStream(rest[0], rest[1..], [], cap, fuel);
      var more := WrittenFill(rest[0], rest[1..], [], cap, fuel).value;
      assert ([msg] + more)[1..] == more;
      assert [] + rest[0] + Flatten(rest[1..]) == Flatten(rest);
    }
  }

  /**
   * The loop as written sends the stream exactly when no parameter has to be
   * cut; otherwise it repeats bytes or, with a parameter longer than a part,
   * never ends.
   */
  lemma WrittenCarriesIff(params: seq<seq<Byte>>, cap: nat)
    requires 0 < cap
    ensures FitsWhole(params, 0, cap) <==>
            exists fuel :: WrittenNext(params, [], cap, fuel).Some?
                           && Flatten(WrittenNext(params, [], cap, fuel).value) == Flatten(params)
  {
    if FitsWhole(params, 0, cap) {
      WholeIsShort(params, 0, cap);
      ShortNext(params, [], cap, |params|);
      NextStream(params, [], cap, |params|);
      assert [] + Flatten(params) == Flatten(params);
    } else {
      forall fuel | WrittenNext(params, [], cap, fuel).Some?
        ensures Flatten(WrittenNext(params, [], cap, fuel).value) != Flatten(params)
      {
        NextStream(params, [], cap, fuel);
      }
    }
  }

  lemma {:induction false} WholeIsShort(params: seq<seq<Byte>>, used: nat, cap: nat)
    requires FitsWhole(params, used, cap)
    ensures forall p | p in params :: |p| <= cap
  {
    if params != [] {
      var u := if used == cap then 0 else used;
      WholeIsShort(params[1..], u + |params[0]|, cap);
    }
  }

  /** A seven-byte tag behind a six-byte header, with ten bytes to a part, arrives with four bytes twice. */
  lemma WrittenRepeatsBytes()
    ensures var hdr: seq<Byte>, tag: seq<Byte> := [1, 1, 1, 1, 1, 1], [2, 2, 2, 2, 3, 3, 3];
            WrittenNext([hdr, tag], [], 10, 1) == Some([hdr + [2, 2, 2, 2], tag])
  {
    var hdr: seq<Byte>, tag: seq<Byte> := [1, 1, 1, 1, 1, 1], [2, 2, 2, 2, 3, 3, 3];
    assert tag[..4] == [2, 2, 2, 2];
    assert [hdr, tag][1..] == [tag] && [tag][1..] == [] && [] + hdr == hdr && [] + tag == tag;
    assert WrittenFill(tag, [], [], 10, 0) == Some([tag]);
    assert [hdr + tag[..4]] + [tag] == [hdr + [2, 2, 2, 2], tag];
    assert WrittenFill(tag, [], hdr, 10, 1) == Some([hdr + [2, 2, 2, 2], tag]);
  }
}
