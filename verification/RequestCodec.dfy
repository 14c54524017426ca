/** The request protocol of the daemon: attributes, records, sending and receiving. */
module RequestCodec {
  import opened Prelude
  import opened Wire

  const HEADER_SIZE := 24
  const ATTR_SIZE := 12
  const DISCRIM_SIZE := 4
  const MARKER: nat := 0xffff_ffff
  const CONFIG_CMD: nat := 1
  const SOM: nat := 1
  const EOM: nat := 2

  const STRING: nat := 16
  const REC_LEN: nat := 25
  const JSON: nat := 26
  const SIZE: nat := 42
  const LAST: nat := 52

  // Attributes

  /** An attribute as it is built for sending; the one with id LAST only terminates a list. */
  datatype Attr = Attr(id: nat, value: Option<seq<Byte>>)

  /** An attribute as it comes out of a received record. */
  datatype Field = Field(id: nat, len: nat, value: seq<Byte>)

  datatype Error = NoData | ShortRecord | MissingMarker | Truncated | UnknownId | TooBig(errcode: nat)

  /** Ids an attribute can be built with, apart from REC_LEN, which is for replies only. */
  ghost predicate Sendable(a: Attr) {
    && 0 < a.id <= LAST && a.id != REC_LEN
    && (a.value.Some? ==> |a.value.value| + 1 < U32)
  }

  /** Ids with a name: the table from ids to names has no entry for SIZE. */
  predicate Named(id: nat) { 0 < id <= LAST && id != SIZE }

  function Pack(a: Attr): (b: seq<Byte>)
    requires Sendable(a)
    ensures |b| == if a.id == LAST then DISCRIM_SIZE else ATTR_SIZE + DeclaredLength(a)
  {
    if a.id == LAST then BE32(0)
    else
      BE32(1) + BE32(a.id) + BE32(DeclaredLength(a)) + match a.value { case None => [] case Some(v) => v + [0] }
  }

  /** One is added to account for the terminating zero. */
  function DeclaredLength(a: Attr): nat { if a.value.None? then 0 else |a.value.value| + 1 }

  function StripLeft(v: seq<Byte>): (r: seq<Byte>)
    ensures r != [] ==> r[0] != 0
  {
    if v != [] && v[0] == 0 then StripLeft(v[1..]) else v
  }

  function StripRight(v: seq<Byte>): (r: seq<Byte>)
    ensures |r| <= |v| && r == v[..|r|]
    ensures r != [] ==> r[|r| - 1] != 0
  {
    if v != [] && v[|v| - 1] == 0 then StripRight(v[..|v| - 1]) else v
  }

  function StripZeros(v: seq<Byte>): seq<Byte> { StripRight(StripLeft(v)) }

  /** A value without zeros at its ends comes through, and no other does. */
  lemma StripKeepsIff(v: seq<Byte>)
    ensures StripZeros(v + [0]) == v <==> v == [] || (v[0] != 0 && v[|v| - 1] != 0)
  {
    var w := v + [0];
    if v == [] {
      assert StripLeft(w) == StripLeft(w[1..]) && w[1..] == [];
    } else if v[0] != 0 {
      assert StripLeft(w) == w && w[..|w| - 1] == v;
      assert StripRight(w) == StripRight(v);
    } else {
      var s := StripLeft(w);
      var t := StripRight(s);
      assert t != [] ==> t[0] == s[0];
    }
  }

  /** A leading zero is lost. */
  lemma LeadingZeroIsLost()
    ensures StripZeros([0, 7] + [0]) == [7]
  {
    var v: seq<Byte> := [0, 7, 0];
    var w: seq<Byte> := [7, 0];
    assert v == [0, 7] + [0] && v[1..] == w && StripLeft(v) == w;
    assert w[..1] == [7] && StripRight(w) == StripRight(w[..1]);
  }

  datatype Step = Terminator | Value(field: Field) | Fail(error: Error)

  /** Reads one attribute from the front of a buffer. */
  function Unpack(buf: seq<Byte>): Step {
    if |buf| < DISCRIM_SIZE then Fail(Truncated)
    else if FromBE32(buf[..4]) == 0 then Terminator
    else if |buf| < ATTR_SIZE then Fail(Truncated)
    else
      var id, len := FromBE32(buf[4..8]), FromBE32(buf[8..12]);
      if id == REC_LEN then
        if Least(len, |buf| - ATTR_SIZE) != 4 then Fail(Truncated)
        else Value(Field(id, len, buf[ATTR_SIZE..ATTR_SIZE + 4]))
      else if |buf| < ATTR_SIZE + len then Fail(Truncated)
      else if id == 0 || id == LAST then Terminator
      else if !Named(id) then Fail(UnknownId)
      else Value(Field(id, len, StripZeros(buf[ATTR_SIZE..ATTR_SIZE + len])))
  }

  /** A slice ends where the buffer does. */
  function Least(a: nat, b: nat): nat { if a <= b then a else b }

  /** Attributes up to the terminating one. */
  function ReadAttrs(buf: seq<Byte>, errcode: nat): Result<seq<Field>, Error>
    decreases |buf|
  {
    match Unpack(buf)
    case Terminator => Ok([])
    case Fail(e) => Err(e)
    case Value(f) =>
      if f.id == REC_LEN then Err(TooBig(errcode))
      else FieldsInFront([f], ReadAttrs(buf[ATTR_SIZE + f.len..], errcode))
  }

  function FieldsInFront(fields: seq<Field>, more: Result<seq<Field>, Error>): Result<seq<Field>, Error> {
    match more
    case Err(e) => Err(e)
    case Ok(rest) => Ok(fields + rest)
  }

  /** What a receiver makes of one sent attribute. */
  function Received(a: Attr): Field {
    Field(a.id, DeclaredLength(a), match a.value { case None => [] case Some(v) => StripZeros(v + [0]) })
  }

  /** What a receiver makes of a list: everything before the first terminator, unless SIZE comes first. */
  function Expected(attrs: seq<Attr>): Result<seq<Field>, Error> {
    if attrs == [] || attrs[0].id == LAST then Ok([])
    else if attrs[0].id == SIZE then Err(UnknownId)
    else FieldsInFront([Received(attrs[0])], Expected(attrs[1..]))
  }

  function PackAll(attrs: seq<Attr>): seq<Byte>
    requires forall a | a in attrs :: Sendable(a)
  {
    if attrs == [] then [] else
    assert attrs[0] in attrs; Pack(attrs[0]) + PackAll(attrs[1..])
  }

  lemma UnpackPacked(a: Attr, rest: seq<Byte>)
    requires Sendable(a)
    ensures Unpack(Pack(a) + rest) == if a.id == LAST then Terminator
                                      else if a.id == SIZE then Fail(UnknownId)
                                      else Value(Received(a))
    ensures (Pack(a) + rest)[|Pack(a)|..] == rest
  {
    var w := Pack(a) + rest;
    if a.id == LAST {
      assert w[..4] == BE32(0);
      FieldRoundTrip(0);
    } else {
      var raw := match a.value { case None => [] case Some(v) => v + [0] };
      assert w[..4] == BE32(1) && w[4..8] == BE32(a.id) && w[8..12] == BE32(DeclaredLength(a));
      FieldRoundTrip(1);
      FieldRoundTrip(a.id);
      FieldRoundTrip(DeclaredLength(a));
      assert w[ATTR_SIZE..ATTR_SIZE + DeclaredLength(a)] == raw;
      if a.value.None? {
        assert StripZeros([]) == [];
      }
    }
  }

  /** On the wire: a marker, the id, the declared length, and the value with its terminating zero. */
  lemma PackedAs(a: Attr)
    requires Sendable(a) && a.id != LAST
    ensures var w := Pack(a);
            && FromBE32(w[..4]) == 1 && FromBE32(w[4..8]) == a.id && FromBE32(w[8..12]) == |w| - ATTR_SIZE
            && (a.value.Some? ==> w[ATTR_SIZE..] == a.value.value + [0])
  {
    var w := Pack(a);
    assert w[..4] == BE32(1) && w[4..8] == BE32(a.id) && w[8..12] == BE32(DeclaredLength(a));
    FieldRoundTrip(1);
    FieldRoundTrip(a.id);
    FieldRoundTrip(DeclaredLength(a));
  }

  lemma ReadOne(a: Attr, more: seq<Byte>, errcode: nat)
    requires Sendable(a)
    ensures ReadAttrs(Pack(a) + more, errcode)
         == if a.id == LAST then Ok([])
            else if a.id == SIZE then Err(UnknownId)
            else FieldsInFront([Received(a)], ReadAttrs(more, errcode))
  {
    UnpackPacked(a, more);
  }

  /** A record length among the attributes says that the request was too big. */
  lemma RecordLengthMeansTooBig(value: seq<Byte>, more: seq<Byte>, errcode: nat)
    requires |value| == 4
    ensures ReadAttrs(BE32(1) + BE32(REC_LEN) + BE32(4) + value + more, errcode) == Err(TooBig(errcode))
  {
    var w := BE32(1) + BE32(REC_LEN) + BE32(4) + value + more;
    assert w[..4] == BE32(1) && w[4..8] == BE32(REC_LEN) && w[8..12] == BE32(4);
    FieldRoundTrip(1);
    FieldRoundTrip(REC_LEN);
    FieldRoundTrip(4);
  }

  lemma ReadEnd(rest: seq<Byte>, errcode: nat)
    ensures ReadAttrs(BE32(0) + rest, errcode) == Ok([])
  {
    assert (BE32(0) + rest)[..4] == BE32(0);
    FieldRoundTrip(0);
  }

  lemma PackFirst(attrs: seq<Attr>, tail: seq<Byte>)
    requires attrs != [] && forall a | a in attrs :: Sendable(a)
    ensures Sendable(attrs[0]) && PackAll(attrs) + tail == Pack(attrs[0]) + (PackAll(attrs[1..]) + tail)
  {
    assert attrs[0] in attrs;
  }

  /** The attribute list is self-delimiting: it is read back whatever follows it. */
  lemma {:induction false} ReadPacked(attrs: seq<Attr>, tail: seq<Byte>, errcode: nat)
    requires forall a | a in attrs :: Sendable(a)
    requires ReadAttrs(tail, errcode) == Ok([])
    ensures ReadAttrs(PackAll(attrs) + tail, errcode) == Expected(attrs)
  {
    if attrs == [] {
      assert PackAll(attrs) + tail == tail;
    } else {
      PackFirst(attrs, tail);
      ReadPacked(attrs[1..], tail, errcode);
      ReadOne(attrs[0], PackAll(attrs[1..]) + tail, errcode);
    }
  }

  /** The attributes before the first terminating one. */
  function Live(attrs: seq<Attr>): seq<Attr> {
    if attrs == [] || attrs[0].id == LAST then [] else [attrs[0]] + Live(attrs[1..])
  }

  /** A list arrives exactly if no SIZE attribute comes before its end. */
  lemma {:induction false} ArrivesIff(attrs: seq<Attr>)
    ensures Expected(attrs).Ok? <==> forall a | a in Live(attrs) :: a.id != SIZE
  {
    if attrs != [] && attrs[0].id != LAST {
      ArrivesIff(attrs[1..]);
      assert forall a :: a in Live(attrs) <==> a == attrs[0] || a in Live(attrs[1..]);
    }
  }

  /** A list with a SIZE attribute is refused. */
  lemma SizeIsRefused(a: Attr)
    requires a.id != LAST
    ensures Expected([a, Attr(SIZE, None)]) == Err(UnknownId)
  {
    assert [a, Attr(SIZE, None)][1..] == [Attr(SIZE, None)];
  }

  /** Neither SIZE nor the terminating attribute, and no zero at either end of a value. */
  predicate Unchanged(a: Attr) {
    && a.id != LAST && a.id != SIZE
    && (a.value.Some? && a.value.value != [] ==> a.value.value[0] != 0 && a.value.value[|a.value.value| - 1] != 0)
  }

  /** An attribute as it was sent. */
  function AsSent(a: Attr): Field { Field(a.id, DeclaredLength(a), if a.value.None? then [] else a.value.value) }

  function AllAsSent(attrs: seq<Attr>): seq<Field> {
    seq(|attrs|, i requires 0 <= i < |attrs| => AsSent(attrs[i]))
  }

  /** Attributes without zeros at the ends of their values arrive as they were sent. */
  lemma {:induction false} ArrivesUnchanged(attrs: seq<Attr>)
    requires forall a | a in attrs :: Unchanged(a)
    ensures Expected(attrs) == Ok(AllAsSent(attrs))
  {
    if attrs == [] {
      assert AllAsSent(attrs) == [];
    } else {
      var a, rest := attrs[0], attrs[1..];
      assert a in attrs && forall b | b in rest :: b in attrs;
      ArrivesUnchanged(rest);
      if a.value.Some? {
        StripKeepsIff(a.value.value);
      }
      assert [AsSent(a)] + AllAsSent(rest) == AllAsSent(attrs);
    }
  }

  /** The attributes arrive in order, each as the receiver sees it. */
  lemma {:induction false} ArrivesInOrder(attrs: seq<Attr>, i: nat)
    requires Expected(attrs).Ok? && i < |Live(attrs)|
    ensures i < |Expected(attrs).value| && Expected(attrs).value[i] == Received(Live(attrs)[i])
    ensures |Expected(attrs).value| == |Live(attrs)|
  {
    if i > 0 {
      ArrivesInOrder(attrs[1..], i - 1);
    } else if Live(attrs[1..]) != [] {
      ArrivesInOrder(attrs[1..], 0);
    } else {
      NothingArrives(attrs[1..]);
    }
  }

  lemma NothingArrives(attrs: seq<Attr>)
    requires Live(attrs) == []
    ensures Expected(attrs) == Ok([])
  {
  }

  // Records

  function Flags(first: bool, last: bool): nat { (if first then SOM else 0) + (if last then EOM else 0) }

  function Header(flags: nat, number: nat, command: nat, len: nat): (h: seq<Byte>)
    requires flags < U32 && number < U32 && command < U32 && len < U32
    ensures |h| == HEADER_SIZE
  {
    BE32(MARKER) + BE32(CONFIG_CMD) + BE32(flags) + BE32(number) + BE32(command) + BE32(len)
  }

  function HeaderField(rec: seq<Byte>, i: nat): nat
    requires HEADER_SIZE <= |rec| && i < 6
  {
    FromBE32(rec[4 * i..4 * i + 4])
  }

  /** The header says what the record is and how long it is, and the record fits the transport. */
  ghost predicate RecordOk(rec: seq<Byte>, first: bool, last: bool, number: nat, command: nat, maxMsg: nat) {
    && HEADER_SIZE <= |rec| <= maxMsg
    && HeaderField(rec, 0) == MARKER && HeaderField(rec, 1) == CONFIG_CMD
    && HeaderField(rec, 2) == Flags(first, last) && HeaderField(rec, 3) == number
    && HeaderField(rec, 4) == command && HeaderField(rec, 5) == |rec|
  }

  lemma HeaderReads(flags: nat, number: nat, command: nat, len: nat, data: seq<Byte>)
    requires flags < U32 && number < U32 && command < U32 && len < U32
    ensures var rec := Header(flags, number, command, len) + data;
            && HeaderField(rec, 0) == MARKER && HeaderField(rec, 1) == CONFIG_CMD
            && HeaderField(rec, 2) == flags && HeaderField(rec, 3) == number
            && HeaderField(rec, 4) == command && HeaderField(rec, 5) == len
            && rec[HEADER_SIZE..] == data
  {
    var rec := Header(flags, number, command, len) + data;
    assert rec[0..4] == BE32(MARKER) && rec[4..8] == BE32(CONFIG_CMD) && rec[8..12] == BE32(flags);
    assert rec[12..16] == BE32(number) && rec[16..20] == BE32(command) && rec[20..24] == BE32(len);
    FieldRoundTrip(MARKER);
    FieldRoundTrip(CONFIG_CMD);
    FieldRoundTrip(flags);
    FieldRoundTrip(number);
    FieldRoundTrip(command);
    FieldRoundTrip(len);
  }

  /** One record around a piece of the packed attributes; the last one also carries the terminating attribute. */
  method NewRecord(first: bool, last: bool, number: nat, command: nat, data: seq<Byte>, ghost maxMsg: nat)
    returns (rec: seq<Byte>)
    requires number < U32 && command < U32 && HEADER_SIZE + |data| + DISCRIM_SIZE <= maxMsg < U32
    ensures RecordOk(rec, first, last, number, command, maxMsg)
    ensures Data(rec) == if last then data + BE32(0) else data
  {
    var len := HEADER_SIZE + |data| + (if last then DISCRIM_SIZE else 0);
    HeaderReads(Flags(first, last), number, command, len, if last then data + BE32(0) else data);
    rec := Header(Flags(first, last), number, command, len) + data;
    if last {
      rec := rec + BE32(0);
      assert rec == Header(Flags(first, last), number, command, len) + (data + BE32(0));
    }
  }

  function Data(rec: seq<Byte>): seq<Byte> { if |rec| < HEADER_SIZE then [] else rec[HEADER_SIZE..] }

  ghost function Payload(records: seq<seq<Byte>>): seq<Byte> {
    if records == [] then [] else Payload(records[..|records| - 1]) + Data(records[|records| - 1])
  }

  lemma PayloadAppend(records: seq<seq<Byte>>, rec: seq<Byte>)
    ensures Payload(records + [rec]) == Payload(records) + Data(rec)
  {
    var more := records + [rec];
    assert more[..|more| - 1] == records && more[|more| - 1] == rec;
  }

  /** Records sent so far: the first opens the message, the last closes it if `closed`. */
  ghost predicate Framed(records: seq<seq<Byte>>, closed: bool, number: nat, command: nat, maxMsg: nat) {
    forall i | 0 <= i < |records| ::
      RecordOk(records[i], i == 0, closed && i == |records| - 1, number, command, maxMsg)
  }

  lemma FramedAppend(records: seq<seq<Byte>>, rec: seq<Byte>, last: bool, number: nat, command: nat, maxMsg: nat)
    requires Framed(records, false, number, command, maxMsg)
    requires RecordOk(rec, records == [], last, number, command, maxMsg)
    ensures Framed(records + [rec], last, number, command, maxMsg)
  {
    var more := records + [rec];
    forall i | 0 <= i < |more|
      ensures RecordOk(more[i], i == 0, last && i == |more| - 1, number, command, maxMsg)
    {
      if i < |records| {
        assert RecordOk(records[i], i == 0, false, number, command, maxMsg);
      }
    }
  }

  ghost predicate SentUpTo(records: seq<seq<Byte>>, packed: seq<Byte>, offset: nat,
                           number: nat, command: nat, maxMsg: nat) {
    && offset <= |packed| && (records == [] <==> offset == 0)
    && Framed(records, false, number, command, maxMsg)
    && Payload(records) == packed[..offset]
  }

  /** All of the packed attributes and the terminating one are in the records. */
  ghost predicate SentWhole(records: seq<seq<Byte>>, packed: seq<Byte>, number: nat, command: nat, maxMsg: nat) {
    && records != [] && Framed(records, true, number, command, maxMsg)
    && Payload(records) == packed + BE32(0)
  }

  lemma PayloadGrows(records: seq<seq<Byte>>, rec: seq<Byte>, packed: seq<Byte>, offset: nat, end: nat)
    requires offset <= end <= |packed| && Payload(records) == packed[..offset]
    ensures Data(rec) == packed[offset..end] ==> Payload(records + [rec]) == packed[..end]
    ensures end == |packed| && Data(rec) == packed[offset..end] + BE32(0) ==>
              Payload(records + [rec]) == packed + BE32(0)
  {
    PayloadAppend(records, rec);
    assert packed[..offset] + packed[offset..end] == packed[..end];
    assert packed[..offset] + (packed[offset..end] + BE32(0)) == packed[..end] + BE32(0);
    assert packed[..|packed|] == packed;
  }

  lemma SendStep(records: seq<seq<Byte>>, rec: seq<Byte>, packed: seq<Byte>, offset: nat, end: nat, last: bool,
                 number: nat, command: nat, maxMsg: nat)
    requires SentUpTo(records, packed, offset, number, command, maxMsg)
    requires RecordOk(rec, offset == 0, last, number, command, maxMsg)
    requires offset <= end <= |packed| && (last <==> end == |packed|) && (last || offset < end)
    requires Data(rec) == if last then packed[offset..end] + BE32(0) else packed[offset..end]
    ensures if last then SentWhole(records + [rec], packed, number, command, maxMsg)
            else SentUpTo(records + [rec], packed, end, number, command, maxMsg)
  {
    PayloadGrows(records, rec, packed, offset, end);
    FramedAppend(records, rec, last, number, command, maxMsg);
  }

  /** The records are as long as the transport takes, short of room for the terminating attribute. */
  ghost predicate Full(records: seq<seq<Byte>>, maxMsg: nat) {
    forall rec | rec in records :: |rec| + DISCRIM_SIZE == maxMsg
  }

  lemma FullStep(records: seq<seq<Byte>>, rec: seq<Byte>, maxMsg: nat)
    requires Full(records, maxMsg)
    ensures var more := records + [rec];
            Full(more[..|more| - 1], maxMsg) && (|rec| + DISCRIM_SIZE == maxMsg ==> Full(more, maxMsg))
  {
    assert (records + [rec])[..|records|] == records;
  }

  /**
   * Sends the packed attributes in as many records as the transport needs.
   * Each record leaves room for the header and the terminating attribute.
   */
  method Send(packed: seq<Byte>, number: nat, command: nat, maxMsg: nat)
    returns (records: seq<seq<Byte>>, tooLong: bool)
    requires number < U32 && command < U32 && maxMsg < U32
    requires maxMsg > HEADER_SIZE + DISCRIM_SIZE
    ensures !tooLong && SentWhole(records, packed, number, command, maxMsg)
    ensures Full(records[..|records| - 1], maxMsg)
  {
    records, tooLong := [], false;
    var dataLen, offset := |packed|, 0;
    while true
      invariant 0 <= offset && 0 <= dataLen && offset + dataLen == |packed|
      invariant SentUpTo(records, packed, offset, number, command, maxMsg)
      invariant Full(records, maxMsg)
      decreases dataLen
    {
      var remaining := maxMsg - HEADER_SIZE - DISCRIM_SIZE;
      if remaining >= dataLen {
        remaining := dataLen;
      }
      var last, data := dataLen == remaining, packed[offset..offset + remaining];
      var rec := NewRecord(offset == 0, last, number, command, data, maxMsg);
      SendStep(records, rec, packed, offset, offset + remaining, last, number, command, maxMsg);
      FullStep(records, rec, maxMsg);
      if |rec| > maxMsg {
        return records, true;
      }
      records, offset, dataLen := records + [rec], offset + remaining, dataLen - remaining;
      if dataLen == 0 {
        return;
      }
    }
  }

  // Receiving

  predicate HasEom(flags: nat) { flags / EOM % 2 == 1 }

  /** The data of one message: records up to the first that closes it, and that record's error code. */
  function Gather(records: seq<seq<Byte>>): Result<(seq<Byte>, nat), Error> {
    if records == [] then Err(NoData)
    else
      var rec := records[0];
      if |rec| < HEADER_SIZE then Err(ShortRecord)
      else if HeaderField(rec, 0) != MARKER then Err(MissingMarker)
      else if HasEom(HeaderField(rec, 2)) then Ok((rec[HEADER_SIZE..], HeaderField(rec, 4)))
      else InFront(rec[HEADER_SIZE..], Gather(records[1..]))
  }

  function InFront(data: seq<Byte>, more: Result<(seq<Byte>, nat), Error>): Result<(seq<Byte>, nat), Error> {
    match more
    case Err(e) => Err(e)
    case Ok((rest, errcode)) => Ok((data + rest, errcode))
  }

  ghost predicate Sound(rec: seq<Byte>) { HEADER_SIZE <= |rec| && HeaderField(rec, 0) == MARKER }

  /** Record `k` is the first that closes the message, and it and those before it are sound. */
  ghost predicate ClosesAt(records: seq<seq<Byte>>, k: nat) {
    && k < |records| && (forall i | 0 <= i <= k :: Sound(records[i]))
    && forall i | 0 <= i <= k :: HasEom(HeaderField(records[i], 2)) <==> i == k
  }

  /** What is gathered is the data of the records up to the closing one, with its error code. */
  lemma {:induction false} GatherAt(records: seq<seq<Byte>>, k: nat)
    requires ClosesAt(records, k)
    ensures Gather(records) == Ok((Payload(records[..k + 1]), HeaderField(records[k], 4)))
  {
    assert Sound(records[0]);
    if k == 0 {
      assert records[..1] == [records[0]];
      PayloadOne(records[0]);
    } else {
      ClosesInRest(records, k);
      GatherAt(records[1..], k - 1);
      PayloadCons(records, k);
    }
  }

  lemma ClosesInRest(records: seq<seq<Byte>>, k: nat)
    requires ClosesAt(records, k) && k > 0
    ensures ClosesAt(records[1..], k - 1) && records[1..][k - 1] == records[k]
  {
    var rest := records[1..];
    forall i | 0 <= i <= k - 1 ensures Sound(rest[i]) && (HasEom(HeaderField(rest[i], 2)) <==> i == k - 1) {
      assert rest[i] == records[i + 1] && Sound(records[i + 1]);
    }
  }

  lemma PayloadOne(rec: seq<Byte>)
    ensures Payload([rec]) == Data(rec)
  {
    assert [rec][..0] == [];
  }

  lemma PayloadCons(records: seq<seq<Byte>>, k: nat)
    requires 0 < k < |records|
    ensures Payload(records[..k + 1]) == Data(records[0]) + Payload(records[1..][..k])
  {
    assert records[..k + 1] == [records[0]] + records[1..][..k];
    PayloadJoin([records[0]], records[1..][..k]);
    PayloadOne(records[0]);
  }

  lemma {:induction false} PayloadJoin(a: seq<seq<Byte>>, b: seq<seq<Byte>>)
    ensures Payload(a + b) == Payload(a) + Payload(b)
  {
    if b == [] {
      assert a + b == a;
    } else {
      var c, last := b[..|b| - 1], b[|b| - 1];
      assert b == c + [last] && a + b == (a + c) + [last];
      PayloadJoin(a, c);
      PayloadAppend(a + c, last);
      PayloadAppend(c, last);
      assert Payload(a) + Payload(c) + Data(last) == Payload(a) + (Payload(c) + Data(last));
    }
  }

  /** A message is gathered only if some record closes it. */
  lemma {:induction false} GatheredCloses(records: seq<seq<Byte>>) returns (k: nat)
    requires Gather(records).Ok?
    ensures ClosesAt(records, k)
  {
    if HasEom(HeaderField(records[0], 2)) {
      k := 0;
    } else {
      var j := GatheredCloses(records[1..]);
      k := j + 1;
      forall i | 0 <= i <= k ensures Sound(records[i]) && (HasEom(HeaderField(records[i], 2)) <==> i == k) {
        assert i > 0 ==> records[i] == records[1..][i - 1] && Sound(records[1..][i - 1]);
      }
    }
  }

  lemma InFrontNothing(more: Result<(seq<Byte>, nat), Error>)
    ensures InFront([], more) == more
  {
    if more.Ok? {
      assert [] + more.value.0 == more.value.0;
    }
  }

  lemma InFrontTwice(a: seq<Byte>, b: seq<Byte>, more: Result<(seq<Byte>, nat), Error>)
    ensures InFront(a, InFront(b, more)) == InFront(a + b, more)
  {
    if more.Ok? {
      assert a + (b + more.value.0) == a + b + more.value.0;
    }
  }

  datatype Response = Response(errcode: nat, msg: Option<seq<Byte>>, attrs: Option<seq<Field>>)

  /** A lone STRING or JSON attribute is also the message; an empty list is reported as none. */
  function Answer(errcode: nat, fields: seq<Field>): Response {
    Response(errcode,
             if |fields| == 1 && (fields[0].id == STRING || fields[0].id == JSON) then Some(fields[0].value) else None,
             if fields == [] then None else Some(fields))
  }

  /** What a caller is told about the attributes of a reply. */
  ghost predicate Tells(resp: Response, errcode: nat, fields: seq<Field>) {
    && resp.errcode == errcode
    && (resp.msg.Some? <==> |fields| == 1 && (fields[0].id == STRING || fields[0].id == JSON))
    && (resp.msg.Some? ==> resp.msg.value == fields[0].value)
    && (resp.attrs.None? <==> fields == []) && (resp.attrs.Some? ==> resp.attrs.value == fields)
  }

  /** The attributes of the message that record `k` closes. */
  ghost function AttrsUpTo(records: seq<seq<Byte>>, k: nat): Result<seq<Field>, Error>
    requires ClosesAt(records, k)
  {
    ReadAttrs(Payload(records[..k + 1]), HeaderField(records[k], 4))
  }

  function Reply(records: seq<seq<Byte>>): Result<Response, Error> {
    match Gather(records)
    case Err(e) => Err(e)
    case Ok((data, errcode)) =>
      match ReadAttrs(data, errcode)
      case Err(e) => Err(e)
      case Ok(fields) => Ok(Answer(errcode, fields))
  }

  lemma FieldsInFrontNothing(more: Result<seq<Field>, Error>)
    ensures FieldsInFront([], more) == more
  {
    if more.Ok? {
      assert [] + more.value == more.value;
    }
  }

  lemma FieldsInFrontTwice(a: seq<Field>, b: seq<Field>, more: Result<seq<Field>, Error>)
    ensures FieldsInFront(a, FieldsInFront(b, more)) == FieldsInFront(a + b, more)
  {
    if more.Ok? {
      assert a + (b + more.value) == a + b + more.value;
    }
  }

  method GatherRecords(records: seq<seq<Byte>>) returns (r: Result<(seq<Byte>, nat), Error>)
    ensures r == Gather(records)
  {
    var resp, i := [], 0;
    assert records[0..] == records;
    InFrontNothing(Gather(records));
    while true
      invariant 0 <= i <= |records| && Gather(records) == InFront(resp, Gather(records[i..]))
      decreases |records| - i
    {
      if i == |records| {
        return Err(NoData);
      }
      var rec := records[i];
      assert records[i..][0] == rec && records[i..][1..] == records[i + 1..];
      if |rec| < HEADER_SIZE {
        return Err(ShortRecord);
      }
      if HeaderField(rec, 0) != MARKER {
        return Err(MissingMarker);
      }
      if HasEom(HeaderField(rec, 2)) {
        return Ok((resp + rec[HEADER_SIZE..], HeaderField(rec, 4)));
      }
      InFrontTwice(resp, rec[HEADER_SIZE..], Gather(records[i + 1..]));
      resp, i := resp + rec[HEADER_SIZE..], i + 1;
    }
  }

  /** What is still to be read goes behind the fields read so far. */
  ghost predicate ReadSoFar(data: seq<Byte>, offset: nat, fields: seq<Field>, errcode: nat,
                            all: Result<seq<Field>, Error>) {
    offset <= |data| && all == FieldsInFront(fields, ReadAttrs(data[offset..], errcode))
  }

  lemma ReadNext(data: seq<Byte>, offset: nat, fields: seq<Field>, f: Field, errcode: nat)
    requires offset + ATTR_SIZE + f.len <= |data|
    requires var buf := data[offset..];
             ReadAttrs(buf, errcode) == FieldsInFront([f], ReadAttrs(buf[ATTR_SIZE + f.len..], errcode))
    ensures FieldsInFront(fields, ReadAttrs(data[offset..], errcode))
         == FieldsInFront(fields + [f], ReadAttrs(data[offset + ATTR_SIZE + f.len..], errcode))
  {
    assert data[offset..][ATTR_SIZE + f.len..] == data[offset + ATTR_SIZE + f.len..];
    FieldsInFrontTwice(fields, [f], ReadAttrs(data[offset + ATTR_SIZE + f.len..], errcode));
  }

  lemma ReadOver(data: seq<Byte>, offset: nat, fields: seq<Field>, errcode: nat, all: Result<seq<Field>, Error>)
    requires ReadSoFar(data, offset, fields, errcode, all)
    ensures var step := Unpack(data[offset..]);
            && (step.Terminator? ==> all == Ok(fields))
            && (step.Fail? ==> all == Err(step.error))
            && (step.Value? && step.field.id == REC_LEN ==> all == Err(TooBig(errcode)))
  {
    assert fields + [] == fields;
  }

  lemma ReadOn(data: seq<Byte>, offset: nat, fields: seq<Field>, errcode: nat, all: Result<seq<Field>, Error>)
    requires ReadSoFar(data, offset, fields, errcode, all)
    requires Unpack(data[offset..]).Value? && Unpack(data[offset..]).field.id != REC_LEN
    ensures var f := Unpack(data[offset..]).field;
            ReadSoFar(data, offset + ATTR_SIZE + f.len, fields + [f], errcode, all)
  {
    ReadNext(data, offset, fields, Unpack(data[offset..]).field, errcode);
  }

  method UnpackFields(data: seq<Byte>, errcode: nat) returns (r: Result<seq<Field>, Error>)
    ensures r == ReadAttrs(data, errcode)
  {
    var fields, offset := [], 0;
    ghost var all := ReadAttrs(data, errcode);
    assert ReadSoFar(data, 0, [], errcode, all) by {
      assert data[0..] == data;
      FieldsInFrontNothing(all);
    }
    while true
      invariant ReadSoFar(data, offset, fields, errcode, all)
      decreases |data| - offset
    {
      var step := Unpack(data[offset..]);
      ReadOver(data, offset, fields, errcode, all);
      match step
      case Terminator =>
        return Ok(fields);
      case Fail(e) =>
        return Err(e);
      case Value(f) =>
        if f.id == REC_LEN {
          return Err(TooBig(errcode));
        }
        ReadOn(data, offset, fields, errcode, all);
        fields, offset := fields + [f], offset + ATTR_SIZE + f.len;
    }
  }

  method Receive(records: seq<seq<Byte>>) returns (r: Result<Response, Error>)
    ensures r == Reply(records)
    ensures r.Ok? <==> exists k: nat | ClosesAt(records, k) :: AttrsUpTo(records, k).Ok?
    ensures r.Ok? ==> exists k: nat | ClosesAt(records, k) ::
              AttrsUpTo(records, k).Ok? && Tells(r.value, HeaderField(records[k], 4), AttrsUpTo(records, k).value)
  {
    forall k: nat | ClosesAt(records, k)
      ensures Gather(records) == Ok((Payload(records[..k + 1]), HeaderField(records[k], 4)))
    {
      GatherAt(records, k);
    }
    if Gather(records).Ok? {
      ghost var k := GatheredCloses(records);
    }
    var gathered := GatherRecords(records);
    if gathered.Err? {
      return Err(gathered.error);
    }
    var (data, errcode) := gathered.value;
    var fields := UnpackFields(data, errcode);
    if fields.Err? {
      return Err(fields.error);
    }
    return Ok(Answer(errcode, fields.value));
  }

  // Both together

  lemma GatherOne(rec: seq<Byte>, more: seq<seq<Byte>>, first: bool, last: bool, number: nat, command: nat, maxMsg: nat)
    requires RecordOk(rec, first, last, number, command, maxMsg)
    ensures Gather([rec] + more) == if last then Ok((Data(rec), command)) else InFront(Data(rec), Gather(more))
  {
    assert ([rec] + more)[1..] == more;
  }

  ghost predicate Linked(records: seq<seq<Byte>>, i: nat, command: nat)
    requires i < |records|
  {
    Gather(records[i..]) == if i == |records| - 1 then Ok((Data(records[i]), command))
                            else InFront(Data(records[i]), Gather(records[i + 1..]))
  }

  lemma FramedLinked(records: seq<seq<Byte>>, i: nat, number: nat, command: nat, maxMsg: nat)
    requires i < |records| && Framed(records, true, number, command, maxMsg)
    ensures Linked(records, i, command)
  {
    var rec, more, last := records[i], records[i + 1..], i == |records| - 1;
    assert RecordOk(records[i], i == 0, true && i == |records| - 1, number, command, maxMsg);
    assert records[i..] == [rec] + more;
    GatherOne(rec, more, i == 0, last, number, command, maxMsg);
  }

  lemma {:induction false} GatherFramed(records: seq<seq<Byte>>, i: nat, command: nat)
    requires i < |records| && forall k | 0 <= k < |records| :: Linked(records, k, command)
    ensures InFront(Payload(records[..i]), Gather(records[i..])) == Ok((Payload(records), command))
    decreases |records| - i
  {
    assert Linked(records, i, command);
    assert records[..i + 1] == records[..i] + [records[i]];
    PayloadAppend(records[..i], records[i]);
    if i == |records| - 1 {
      assert records[..i + 1] == records;
    } else {
      InFrontTwice(Payload(records[..i]), Data(records[i]), Gather(records[i + 1..]));
      GatherFramed(records, i + 1, command);
    }
  }

  lemma SentIsGathered(records: seq<seq<Byte>>, packed: seq<Byte>, number: nat, command: nat, maxMsg: nat)
    requires SentWhole(records, packed, number, command, maxMsg)
    ensures Gather(records) == Ok((packed + BE32(0), command))
  {
    forall k | 0 <= k < |records| ensures Linked(records, k, command) {
      FramedLinked(records, k, number, command, maxMsg);
    }
    GatherFramed(records, 0, command);
    assert records[..0] == [] && records[0..] == records;
    InFrontNothing(Gather(records));
  }

  /** What is sent in records of any size comes back as the attributes the list stands for. */
  method SendThenReceive(attrs: seq<Attr>, number: nat, command: nat, maxMsg: nat)
    returns (r: Result<Response, Error>)
    requires forall a | a in attrs :: Sendable(a)
    requires number < U32 && command < U32 && HEADER_SIZE + DISCRIM_SIZE < maxMsg < U32
    ensures r == if Expected(attrs).Err? then Err(Expected(attrs).error)
                 else Ok(Answer(command, Expected(attrs).value))
    ensures Expected(attrs).Ok? ==> r.Ok? && Tells(r.value, command, Expected(attrs).value)
    ensures (forall a | a in attrs :: Unchanged(a)) ==> r.Ok? && Tells(r.value, command, AllAsSent(attrs))
    ensures forall a | attrs == [a] && Unchanged(a) && a.value.Some? ::
              r.Ok? && r.value.msg == if a.id == STRING || a.id == JSON then a.value else None
  {
    if forall a | a in attrs :: Unchanged(a) {
      ArrivesUnchanged(attrs);
    }
    var records, tooLong := Send(PackAll(attrs), number, command, maxMsg);
    SentIsGathered(records, PackAll(attrs), number, command, maxMsg);
    assert BE32(0) + [] == BE32(0);
    ReadEnd([], command);
    ReadPacked(attrs, BE32(0), command);
    r := Receive(records);
  }
}
