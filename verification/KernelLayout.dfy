/** The memory layout of a kernel metric set: sizes added up by the schema, offsets handed out by the set. */
module KernelLayout {
  import opened Prelude
  import opened Wire

  const SET_HDR := 144
  const DICT_AT := 140
  const DICT_ENTRY := 4
  const DESC_SIZE := 28
  const PAGE_SIZE := 4096

  function RoundUp8(n: nat): (r: nat)
    ensures n <= r < n + 8 && r % 8 == 0
  {
    (n + 7) / 8 * 8
  }

  datatype Elem = NoElem | Char | U8 | S8 | U16 | S16 | U32bit | S32 | U64 | S64 | F32 | D64

  datatype ValueType = Scalar(elem: Elem) | Array(elem: Elem) | Other

  /** The size table has no entry for characters, so they count as zero bytes. */
  function ElemSize(e: Elem): nat {
    match e
    case NoElem | Char => 0
    case U8 | S8 => 1
    case U16 | S16 => 2
    case U32bit | S32 | F32 => 4
    case U64 | S64 | D64 => 8
  }

  predicate IsArray(t: ValueType) { t.Array? && t.elem != NoElem }

  function TypeSize(t: ValueType): nat { if t.Other? then 0 else ElemSize(t.elem) }

  /** The product is taken in 32 bits. */
  function ValueSize(t: ValueType, count: nat): nat { RoundUp8(TypeSize(t) * count % U32) }

  function DescSize(name: string): nat { RoundUp8(DESC_SIZE + |name| + 1) }

  /** A metric definition, with the sizes worked out when it was added. */
  datatype Metric = Metric(name: string, vtype: ValueType, isData: bool, count: nat, metaSz: nat, dataSz: nat)

  ghost predicate MetricOk(m: Metric) {
    m.metaSz == DescSize(m.name) && m.dataSz == ValueSize(m.vtype, m.count)
  }

  ghost predicate Aligned(m: Metric) { m.metaSz % 8 == 0 && m.dataSz % 8 == 0 && DESC_SIZE + |m.name| + 1 <= m.metaSz }

  ghost predicate AllAligned(ms: seq<Metric>) { forall i | 0 <= i < |ms| :: Aligned(ms[i]) }

  ghost predicate MetricsOk(ms: seq<Metric>) {
    forall i {:trigger MetricOk(ms[i])} | 0 <= i < |ms| :: MetricOk(ms[i])
  }

  lemma MetricsAligned(ms: seq<Metric>)
    requires MetricsOk(ms)
    ensures AllAligned(ms)
  {
    forall i | 0 <= i < |ms| ensures Aligned(ms[i]) {
      assert MetricOk(ms[i]);
    }
  }

  // Running totals

  function DescSum(ms: seq<Metric>, i: nat): nat
    requires i <= |ms|
  {
    if i == 0 then 0 else DescSum(ms, i - 1) + ms[i - 1].metaSz
  }

  function DataSum(ms: seq<Metric>, i: nat): nat
    requires i <= |ms|
  {
    if i == 0 then 0 else DataSum(ms, i - 1) + if ms[i - 1].isData then ms[i - 1].dataSz else 0
  }

  function MetaSum(ms: seq<Metric>, i: nat): nat
    requires i <= |ms|
  {
    if i == 0 then 0 else MetaSum(ms, i - 1) + if ms[i - 1].isData then 0 else ms[i - 1].dataSz
  }

  lemma AddAligned(a: nat, b: nat)
    requires a % 8 == 0 && b % 8 == 0
    ensures (a + b) % 8 == 0
  {
  }

  lemma {:induction false} DescAligned(ms: seq<Metric>, i: nat)
    requires i <= |ms| && AllAligned(ms)
    ensures DescSum(ms, i) % 8 == 0
  {
    if i > 0 {
      DescAligned(ms, i - 1);
      assert Aligned(ms[i - 1]);
      AddAligned(DescSum(ms, i - 1), ms[i - 1].metaSz);
    }
  }

  lemma {:induction false} ValuesAligned(ms: seq<Metric>, i: nat)
    requires i <= |ms| && AllAligned(ms)
    ensures DataSum(ms, i) % 8 == 0 && MetaSum(ms, i) % 8 == 0
  {
    if i > 0 {
      ValuesAligned(ms, i - 1);
      assert Aligned(ms[i - 1]);
      AddAligned(DataSum(ms, i - 1), ms[i - 1].dataSz);
      AddAligned(MetaSum(ms, i - 1), ms[i - 1].dataSz);
    }
  }

  /** Each total grows by at least an earlier metric's share before a later one starts. */
  lemma {:induction false} SumsGrow(ms: seq<Metric>, i: nat, j: nat)
    requires i < j <= |ms|
    ensures DescSum(ms, i) + ms[i].metaSz <= DescSum(ms, j)
    ensures ms[i].isData ==> DataSum(ms, i) + ms[i].dataSz <= DataSum(ms, j)
    ensures !ms[i].isData ==> MetaSum(ms, i) + ms[i].dataSz <= MetaSum(ms, j)
    decreases j
  {
    if i < j - 1 {
      SumsGrow(ms, i, j - 1);
    }
  }

  lemma {:induction false} SumsOfPrefix(ms: seq<Metric>, m: Metric, i: nat)
    requires i <= |ms|
    ensures DescSum(ms + [m], i) == DescSum(ms, i)
    ensures DataSum(ms + [m], i) == DataSum(ms, i) && MetaSum(ms + [m], i) == MetaSum(ms, i)
  {
    if i > 0 {
      SumsOfPrefix(ms, m, i - 1);
    }
  }

  lemma SumsAppend(ms: seq<Metric>, m: Metric)
    ensures var n, more := |ms|, ms + [m];
            && DescSum(more, n + 1) == DescSum(ms, n) + m.metaSz
            && DataSum(more, n + 1) == DataSum(ms, n) + (if m.isData then m.dataSz else 0)
            && MetaSum(more, n + 1) == MetaSum(ms, n) + (if m.isData then 0 else m.dataSz)
  {
    SumsOfPrefix(ms, m, |ms|);
  }

  ghost predicate NamesDiffer(ms: seq<Metric>) {
    forall i, j | 0 <= i < j < |ms| :: ms[i].name != ms[j].name
  }

  ghost predicate HasName(ms: seq<Metric>, name: string) { exists i | 0 <= i < |ms| :: ms[i].name == name }

  lemma MetricsAppend(ms: seq<Metric>, name: string, vtype: ValueType, isData: bool, count: nat)
    requires MetricsOk(ms) && NamesDiffer(ms) && !HasName(ms, name)
    ensures var more := ms + [NewMetric(name, vtype, isData, count)]; MetricsOk(more) && NamesDiffer(more)
  {
  }

  // The schema

  datatype Errno = EINVAL | EEXIST

  function NewMetric(name: string, vtype: ValueType, isData: bool, count: nat): Metric {
    Metric(name, vtype, isData, count, DescSize(name), ValueSize(vtype, count))
  }

  /** The metric is the one asked for. */
  ghost predicate Defines(m: Metric, name: string, vtype: ValueType, isData: bool, count: nat) {
    m.name == name && m.vtype == vtype && m.isData == isData && m.count == count
  }

  class Schema {
    const name: string
    const dataHdr: nat
    var metrics: seq<Metric>
    var metaSz: nat
    var dataSz: nat

    /** The sizes kept are those of the headers, the dictionary and all metrics added so far. */
    ghost predicate Valid()
      reads this
    {
      && dataHdr % 8 == 0 && MetricsOk(metrics)
      && NamesDiffer(metrics)
      && metaSz == SET_HDR + DICT_ENTRY * |metrics| + DescSum(metrics, |metrics|) + MetaSum(metrics, |metrics|)
      && dataSz == dataHdr + DataSum(metrics, |metrics|)
    }

    /** `dataHdr` is the size of the data header, whose 64-bit fields make it a multiple of eight. */
    constructor (name: string, dataHdr: nat)
      requires dataHdr % 8 == 0
      ensures Valid() && metrics == [] && this.name == name && this.dataHdr == dataHdr
    {
      this.name, this.dataHdr := name, dataHdr;
      metrics, metaSz, dataSz := [], SET_HDR, dataHdr;
    }

    method Add(name: string, vtype: ValueType, isData: bool, count: nat) returns (r: Result<nat, Errno>)
      requires Valid() && count < U32
      modifies this
      ensures Valid()
      ensures r.Err? <==> HasName(old(metrics), name)
      ensures r.Ok? ==> r.value == |old(metrics)| && metrics == old(metrics) + [NewMetric(name, vtype, isData, count)]
      ensures r.Ok? ==> |metrics| == |old(metrics)| + 1 && metrics[..r.value] == old(metrics)
                        && Defines(metrics[r.value], name, vtype, isData, count)
      ensures r.Err? ==> r.error == EEXIST && metrics == old(metrics)
    {
      for i := 0 to |metrics|
        invariant forall k | 0 <= k < i :: metrics[k].name != name
      {
        if metrics[i].name == name {
          return Err(EEXIST);
        }
      }
      var m := NewMetric(name, vtype, isData, count);
      SumsAppend(metrics, m);
      MetricsAppend(metrics, name, vtype, isData, count);
      metrics := metrics + [m];
      metaSz := metaSz + m.metaSz + DICT_ENTRY;
      if isData {
        dataSz := dataSz + m.dataSz;
      } else {
        metaSz := metaSz + m.dataSz;
      }
      return Ok(|metrics| - 1);
    }

    /** Adds a single value; only the plain types are taken. */
    method AddScalar(name: string, vtype: ValueType, isData: bool) returns (r: Result<nat, Errno>)
      requires Valid()
      modifies this
      ensures Valid()
      ensures r == Err(EINVAL) <==> !vtype.Scalar?
      ensures r == Err(EEXIST) <==> vtype.Scalar? && HasName(old(metrics), name)
      ensures metrics == old(metrics) + if r.Ok? then [NewMetric(name, vtype, isData, 1)] else []
      ensures r.Ok? ==> r.value == |old(metrics)| && Defines(metrics[r.value], name, vtype, isData, 1)
    {
      if !vtype.Scalar? {
        return Err(EINVAL);
      }
      r := Add(name, vtype, isData, 1);
    }

    /** Adds an array; only array types are taken. */
    method AddArray(name: string, vtype: ValueType, isData: bool, count: nat) returns (r: Result<nat, Errno>)
      requires Valid() && count < U32
      modifies this
      ensures Valid()
      ensures r == Err(EINVAL) <==> !IsArray(vtype)
      ensures r == Err(EEXIST) <==> IsArray(vtype) && HasName(old(metrics), name)
      ensures metrics == old(metrics) + if r.Ok? then [NewMetric(name, vtype, isData, count)] else []
      ensures r.Ok? ==> r.value == |old(metrics)| && Defines(metrics[r.value], name, vtype, isData, count)
    {
      if !IsArray(vtype) {
        return Err(EINVAL);
      }
      r := Add(name, vtype, isData, count);
    }
  }

  // Where things are in the meta-data section

  /** The length byte before a name counts the terminating zero and has eight bits. */
  function NameLen(name: string): nat { (|name| + 1) % 256 }

  function InstanceNameAt(n: nat): nat { DICT_AT + DICT_ENTRY * n }

  function SchemaNameAt(n: nat, instance: string): nat { InstanceNameAt(n) + 1 + NameLen(instance) }

  function FirstDescAt(n: nat, instance: string, schemaName: string): nat {
    RoundUp8(SchemaNameAt(n, instance) + 1 + NameLen(schemaName))
  }

  /** Neither name runs into what follows it exactly if both have fewer than 255 characters. */
  lemma NamesIntactIff(n: nat, instance: string, schemaName: string)
    ensures InstanceNameAt(n) + 1 + |instance| + 1 <= SchemaNameAt(n, instance) <==> |instance| < 255
    ensures SchemaNameAt(n, instance) + 1 + |schemaName| + 1 <= FirstDescAt(n, instance, schemaName)
       <==> |schemaName| < 255
  {
  }

  /** A name of 255 characters has length zero in its eight-bit field, and the next name starts right there. */
  lemma LongNameIsOverwritten(n: nat, instance: string)
    requires |instance| == 255
    ensures SchemaNameAt(n, instance) == InstanceNameAt(n) + 1
  {
  }

  /** The size of the meta-data section, as the set works it out from the schema's total. */
  function MetaSize(schemaMetaSz: nat, schemaName: string, instance: string): nat {
    RoundUp8(schemaMetaSz + (|schemaName| + 2) + (|instance| + 2))
  }

  lemma RoundUpSum(a: nat, b: nat)
    requires b % 8 == 0
    ensures RoundUp8(a + b) == RoundUp8(a) + b
  {
  }

  /** What is left over in the meta-data section once everything is placed. */
  function Slack(ms: seq<Metric>, instance: string, schemaName: string): int {
    var n := |ms|;
    MetaSize(SET_HDR + DICT_ENTRY * n + DescSum(ms, n) + MetaSum(ms, n), schemaName, instance)
      - (FirstDescAt(n, instance, schemaName) + DescSum(ms, n) + MetaSum(ms, n))
  }

  /** The bytes of a name that its eight-bit length field does not count. */
  function Uncounted(name: string): nat { 256 * ((|name| + 1) / 256) }

  /** What is left over is what the length fields do not count, and eight bytes unless the names end well. */
  lemma SlackIs(ms: seq<Metric>, instance: string, schemaName: string)
    requires AllAligned(ms)
    ensures var end := DICT_AT + DICT_ENTRY * |ms| + 1 + NameLen(instance) + 1 + NameLen(schemaName);
            Slack(ms, instance, schemaName)
            == Uncounted(instance) + Uncounted(schemaName) + if 1 <= end % 8 <= 4 then 0 else 8
  {
    var n := |ms|;
    var descs, values := DescSum(ms, n), MetaSum(ms, n);
    DescAligned(ms, n);
    ValuesAligned(ms, n);
    AddAligned(descs, values);
    var names := |schemaName| + 2 + (|instance| + 2);
    RoundUpSum(SET_HDR + DICT_ENTRY * n + names, descs + values);
    assert MetaSize(SET_HDR + DICT_ENTRY * n + descs + values, schemaName, instance)
        == RoundUp8(SET_HDR + DICT_ENTRY * n + names) + (descs + values);
    SlackOfNames(DICT_ENTRY * n, instance, schemaName);
  }

  lemma RoundUpAligned(n: nat)
    requires n % 8 == 0
    ensures RoundUp8(n) == n
  {
  }

  lemma RoundUpFour(x: nat)
    ensures RoundUp8(x + 4) - RoundUp8(x) == if 1 <= x % 8 <= 4 then 0 else 8
  {
  }

  lemma SlackOfNames(dict: nat, instance: string, schemaName: string)
    ensures var names := |schemaName| + 2 + (|instance| + 2);
            var first := RoundUp8(DICT_AT + dict + 1 + NameLen(instance) + 1 + NameLen(schemaName));
            var end := DICT_AT + dict + 1 + NameLen(instance) + 1 + NameLen(schemaName);
            RoundUp8(SET_HDR + dict + names) - first
            == Uncounted(instance) + Uncounted(schemaName) + if 1 <= end % 8 <= 4 then 0 else 8
  {
    var x := DICT_AT + dict + 1 + NameLen(instance) + 1 + NameLen(schemaName);
    var more := Uncounted(instance) + Uncounted(schemaName);
    UncountedAligned(instance);
    UncountedAligned(schemaName);
    AddAligned(Uncounted(instance), Uncounted(schemaName));
    assert SET_HDR + dict + (|schemaName| + 2 + (|instance| + 2)) == x + 4 + more;
    RoundUpSum(x + 4, more);
    RoundUpFour(x);
  }

  lemma EightTimes(n: nat)
    ensures 8 * n % 8 == 0
  {
  }

  lemma UncountedAligned(name: string)
    ensures Uncounted(name) % 8 == 0 && |name| + 1 == NameLen(name) + Uncounted(name)
  {
    EightTimes(32 * ((|name| + 1) / 256));
  }

  /** A set without metrics, with names of four and one characters, is given eight bytes too many. */
  lemma EightBytesLeftOver()
    ensures Slack([], "abcd", "e") == 8
  {
    SlackIs([], "abcd", "e");
  }

  // The set

  /** A descriptor as it is stored at its dictionary offset. */
  datatype Desc = Desc(vtype: ValueType, isData: bool, count: nat, name: string, dataOffset: nat)

  /** The descriptor says what the metric is. */
  ghost predicate Says(d: Desc, m: Metric) {
    d.vtype == m.vtype && d.isData == m.isData && d.count == m.count && d.name == m.name
  }

  function DescAt(ms: seq<Metric>, first: nat, i: nat): nat
    requires i <= |ms|
  {
    first + DescSum(ms, i)
  }

  /** Data values follow the data header, meta-data values follow the last descriptor. */
  function ValueAt(ms: seq<Metric>, first: nat, dataHdr: nat, i: nat): nat
    requires i < |ms|
  {
    if ms[i].isData then dataHdr + DataSum(ms, i) else DescAt(ms, first, |ms|) + MetaSum(ms, i)
  }

  function DescOf(ms: seq<Metric>, first: nat, dataHdr: nat, i: nat): Desc
    requires i < |ms|
  {
    Desc(ms[i].vtype, ms[i].isData, ms[i].count, ms[i].name, ValueAt(ms, first, dataHdr, i))
  }

  lemma DescsApart(ms: seq<Metric>, first: nat, i: nat, j: nat)
    requires AllAligned(ms) && i < j < |ms|
    ensures DescAt(ms, first, i) + DESC_SIZE + |ms[i].name| + 1 <= DescAt(ms, first, j)
  {
    SumsGrow(ms, i, j);
    assert Aligned(ms[i]);
  }

  /** Metric `k` has its descriptor; offsets of meta-data values are filled in only below `done`. */
  ghost predicate PlacedAt(ms: seq<Metric>, first: nat, dataHdr: nat, k: nat, done: nat,
                           dict: seq<nat>, descs: map<nat, Desc>) {
    && k < |ms| && k < |dict| && dict[k] == DescAt(ms, first, k) && dict[k] in descs
    && descs[dict[k]] == if k < done || ms[k].isData then DescOf(ms, first, dataHdr, k)
                         else DescOf(ms, first, dataHdr, k).(dataOffset := 0)
  }

  ghost predicate AllPlaced(ms: seq<Metric>, first: nat, dataHdr: nat, done: nat,
                            dict: seq<nat>, descs: map<nat, Desc>) {
    forall k: nat | k < |dict| :: PlacedAt(ms, first, dataHdr, k, done, dict, descs)
  }

  lemma DescsDiffer(ms: seq<Metric>, first: nat, i: nat, k: nat)
    requires AllAligned(ms) && i < |ms| && k < |ms| && i != k
    ensures DescAt(ms, first, i) != DescAt(ms, first, k)
  {
    if i < k {
      DescsApart(ms, first, i, k);
    } else {
      DescsApart(ms, first, k, i);
    }
  }

  lemma PlaceOne(ms: seq<Metric>, first: nat, dataHdr: nat, dict: seq<nat>, descs: map<nat, Desc>)
    requires AllAligned(ms) && |dict| < |ms| && AllPlaced(ms, first, dataHdr, 0, dict, descs)
    ensures var i := |dict|; var vd := DescAt(ms, first, i); var d := DescOf(ms, first, dataHdr, i);
            AllPlaced(ms, first, dataHdr, 0, dict + [vd], descs[vd := if ms[i].isData then d else d.(dataOffset := 0)])
  {
    var i := |dict|;
    var vd, d := DescAt(ms, first, i), DescOf(ms, first, dataHdr, i);
    var more, after := dict + [vd], descs[vd := if ms[i].isData then d else d.(dataOffset := 0)];
    forall k: nat | k < |more| ensures PlacedAt(ms, first, dataHdr, k, 0, more, after) {
      if k < i {
        assert PlacedAt(ms, first, dataHdr, k, 0, dict, descs);
        DescsDiffer(ms, first, i, k);
      }
    }
  }

  lemma FillOne(ms: seq<Metric>, first: nat, dataHdr: nat, i: nat, dict: seq<nat>, descs: map<nat, Desc>)
    requires AllAligned(ms) && i < |dict| == |ms| && AllPlaced(ms, first, dataHdr, i, dict, descs)
    ensures PlacedAt(ms, first, dataHdr, i, i, dict, descs)
    ensures AllPlaced(ms, first, dataHdr, i + 1, dict, descs[dict[i] := DescOf(ms, first, dataHdr, i)])
  {
    var next, after := i + 1, descs[dict[i] := DescOf(ms, first, dataHdr, i)];
    assert PlacedAt(ms, first, dataHdr, i, i, dict, descs);
    forall k: nat | k < |dict| ensures PlacedAt(ms, first, dataHdr, k, next, dict, after) {
      assert PlacedAt(ms, first, dataHdr, k, i, dict, descs);
      if k != i {
        DescsDiffer(ms, first, i, k);
      }
    }
  }

  /** The first pass walks along the descriptors, handing out data offsets. */
  method PlaceDescriptors(ms: seq<Metric>, first: nat, dataHdr: nat)
    returns (dict: seq<nat>, descs: map<nat, Desc>, end: nat)
    requires MetricsOk(ms)
    ensures |dict| == |ms| && AllPlaced(ms, first, dataHdr, 0, dict, descs)
    ensures end == DescAt(ms, first, |ms|)
  {
    MetricsAligned(ms);
    dict, descs := [], map[];
    var vd, valueOff := first, dataHdr;
    for i := 0 to |ms|
      invariant |dict| == i && vd == DescAt(ms, first, i) && valueOff == dataHdr + DataSum(ms, i)
      invariant AllPlaced(ms, first, dataHdr, 0, dict, descs)
    {
      var m := ms[i];
      assert MetricOk(m);
      PlaceOne(ms, first, dataHdr, dict, descs);
      dict := dict + [vd];
      descs := descs[vd := Desc(m.vtype, m.isData, m.count, m.name, if m.isData then valueOff else 0)];
      if m.isData {
        valueOff := valueOff + ValueSize(m.vtype, m.count);
      }
      vd := vd + m.metaSz;
    }
    end := vd;
  }

  /** The second pass hands out the offsets of meta-data values, after the last descriptor. */
  method PlaceMetaValues(ms: seq<Metric>, first: nat, dataHdr: nat, dict: seq<nat>, before: map<nat, Desc>, end: nat)
    returns (descs: map<nat, Desc>)
    requires MetricsOk(ms) && first % 8 == 0 && end == DescAt(ms, first, |ms|)
    requires |dict| == |ms| && AllPlaced(ms, first, dataHdr, 0, dict, before)
    ensures AllPlaced(ms, first, dataHdr, |ms|, dict, descs)
  {
    MetricsAligned(ms);
    DescAligned(ms, |ms|);
    AddAligned(first, DescSum(ms, |ms|));
    RoundUpAligned(end);
    descs := before;
    var valueOff := RoundUp8(end);
    for i := 0 to |ms|
      invariant valueOff == end + MetaSum(ms, i)
      invariant AllPlaced(ms, first, dataHdr, i, dict, descs)
    {
      FillOne(ms, first, dataHdr, i, dict, descs);
      assert MetricOk(ms[i]);
      var d := descs[dict[i]];
      if d.isData {
        assert descs[dict[i] := d] == descs;
      } else {
        descs := descs[dict[i] := d.(dataOffset := valueOff)];
        valueOff := valueOff + ValueSize(d.vtype, d.count);
      }
    }
  }

  // Pages

  function Ilog2(n: nat): (k: nat)
    requires n > 0
    ensures Pages(k) <= n < Pages(k + 1)
  {
    if n == 1 then 0 else 1 + Ilog2(n / 2)
  }

  /** The number of pages of an order. */
  function Pages(order: nat): (p: nat)
    ensures p > 0
  {
    if order == 0 then 1 else 2 * Pages(order - 1)
  }

  /** The least order whose pages hold `size` bytes. */
  method PageOrder(size: nat) returns (order: nat)
    requires PAGE_SIZE <= size
    ensures size <= Pages(order) * PAGE_SIZE
    ensures order > 0 ==> Pages(order - 1) * PAGE_SIZE < size
  {
    order := Ilog2(size / PAGE_SIZE);
    if Pages(order) * PAGE_SIZE < size {
      order := order + 1;
    }
  }

  // Values

  /** The bytes an assignment to a value of this type writes. */
  function Width(e: Elem): nat { if e == Char then 1 else ElemSize(e) }

  /** A slot has room for its value exactly if the size table knows the type. */
  lemma RoomIff(e: Elem)
    ensures Width(e) <= ValueSize(Scalar(e), 1) <==> e != Char
  {
  }

  /** A character has no room at all. */
  lemma CharHasNoRoom()
    ensures ValueSize(Scalar(Char), 1) == 0 < Width(Char)
  {
  }

  lemma ScalarRoom(m: Metric)
    requires MetricOk(m) && m.vtype.Scalar? && m.count == 1 && m.vtype.elem != Char
    ensures Width(m.vtype.elem) <= m.dataSz
  {
    RoomIff(m.vtype.elem);
  }

  /** An array's slot has room for all its elements exactly if their size does not overflow 32 bits. */
  lemma ArrayRoomIff(e: Elem, count: nat)
    ensures ElemSize(e) * count <= ValueSize(Array(e), count) <==> ElemSize(e) * count < U32
  {
  }

  /** An array of 2^29 64-bit numbers has no room at all. */
  lemma LongArrayHasNoRoom()
    ensures ValueSize(Array(U64), 0x2000_0000) == 0
  {
  }

  /** Doubles are passed through a 32-bit conversion on their way into the set. */
  function Stored(e: Elem, v: nat): nat { if e == D64 then v % U32 else v }

  /** The types a value can be set for; anything else is reported and changes nothing. */
  predicate Settable(t: ValueType) { t.Scalar? && t.elem != NoElem }

  /** The value found at the start of a slot is the one stored. */
  ghost predicate ReadsBack(slot: seq<Byte>, e: Elem, v: nat) {
    Width(e) <= |slot| && FromLittleEndian(slot[..Width(e)]) == Stored(e, v)
  }

  /** The bit patterns of a type. */
  predicate Representable(e: Elem, v: nat) {
    match e
    case NoElem => v < 1
    case Char | U8 | S8 => v < 0x100
    case U16 | S16 => v < 0x1_0000
    case U32bit | S32 | F32 => v < 0x1_0000_0000
    case U64 | S64 | D64 => v < 0x1_0000_0000_0000_0000
  }

  /** The bytes of a type hold all its bit patterns, and no more. */
  lemma WidthSuffices(e: Elem, v: nat)
    ensures Representable(e, v) <==> v < Pow256(Width(e))
  {
    assert Pow256(1) == 256 && Pow256(2) == 0x1_0000;
    assert Pow256(4) == 0x1_0000_0000 && Pow256(6) == 0x1_0000_0000_0000;
  }

  lemma StoredReads(e: Elem, v: nat)
    requires v < Pow256(Width(e))
    ensures FromLittleEndian(LittleEndian(Stored(e, v), Width(e))) == Stored(e, v)
  {
    assert Stored(e, v) <= v;
    LittleEndianReads(Stored(e, v), Width(e));
    QuotientIs(Stored(e, v), Pow256(Width(e)), 0, Stored(e, v));
  }

  lemma StoredIff(e: Elem, v: nat)
    requires v < Pow256(Width(e))
    ensures FromLittleEndian(LittleEndian(Stored(e, v), Width(e))) == v <==> e != D64 || v < U32
  {
    StoredReads(e, v);
  }

  /** The bits of the double 1.0 are all lost. */
  lemma DoubleOneIsLost()
    ensures FromLittleEndian(LittleEndian(Stored(D64, 0x3ff0_0000_0000_0000), 8)) == 0
  {
    LittleEndianReads(0, 8);
    QuotientIs(0, Pow256(8), 0, 0);
  }

  const U64MAX: nat := 0x1_0000_0000_0000_0000

  /** Generation numbers have 64 bits. */
  function NextGn(gn: nat): nat { if gn + 1 == U64MAX then 0 else gn + 1 }

  /** A descriptor is aligned and lies with its name between `first` and the end of the descriptors. */
  ghost predicate DescInside(ms: seq<Metric>, first: nat, i: nat)
    requires i < |ms|
  {
    && DescAt(ms, first, i) % 8 == 0 && first <= DescAt(ms, first, i)
    && DescAt(ms, first, i) + DESC_SIZE + |ms[i].name| + 1 <= DescAt(ms, first, |ms|)
  }

  /** A value slot is aligned and lies in its section: after the data header, or after the descriptors. */
  ghost predicate ValueInside(ms: seq<Metric>, first: nat, dataHdr: nat, metaSz: nat, dataSz: nat, i: nat)
    requires i < |ms|
  {
    var at := ValueAt(ms, first, dataHdr, i);
    && at % 8 == 0
    && if ms[i].isData then dataHdr <= at && at + ms[i].dataSz <= dataSz
       else DescAt(ms, first, |ms|) <= at && at + ms[i].dataSz <= metaSz
  }

  ghost predicate BothApart(ms: seq<Metric>, first: nat, dataHdr: nat, i: nat, j: nat)
    requires i < |ms| && j < |ms|
  {
    && DescAt(ms, first, i) + DESC_SIZE + |ms[i].name| + 1 <= DescAt(ms, first, j)
    && (ms[i].isData == ms[j].isData ==>
          ValueAt(ms, first, dataHdr, i) + ms[i].dataSz <= ValueAt(ms, first, dataHdr, j))
  }

  /** Descriptors and values are aligned, apart from each other and inside their sections. */
  ghost predicate LaidOut(ms: seq<Metric>, first: nat, dataHdr: nat, metaSz: nat, dataSz: nat) {
    && (forall i: nat | i < |ms| :: DescInside(ms, first, i))
    && (forall i: nat | i < |ms| :: ValueInside(ms, first, dataHdr, metaSz, dataSz, i))
    && (forall i: nat, j: nat | i < j < |ms| :: BothApart(ms, first, dataHdr, i, j))
  }

  lemma DescIsInside(ms: seq<Metric>, first: nat, i: nat)
    requires AllAligned(ms) && first % 8 == 0 && i < |ms|
    ensures DescInside(ms, first, i)
  {
    DescAligned(ms, i);
    AddAligned(first, DescSum(ms, i));
    SumsGrow(ms, i, |ms|);
    assert Aligned(ms[i]);
  }

  lemma ValueIsInside(ms: seq<Metric>, first: nat, dataHdr: nat, metaSz: nat, dataSz: nat, i: nat)
    requires AllAligned(ms) && first % 8 == 0 && dataHdr % 8 == 0 && i < |ms|
    requires first + DescSum(ms, |ms|) + MetaSum(ms, |ms|) <= metaSz
    requires dataHdr + DataSum(ms, |ms|) <= dataSz
    ensures ValueInside(ms, first, dataHdr, metaSz, dataSz, i)
  {
    ValuesAligned(ms, i);
    AddAligned(dataHdr, DataSum(ms, i));
    DescAligned(ms, |ms|);
    AddAligned(first, DescSum(ms, |ms|));
    AddAligned(DescAt(ms, first, |ms|), MetaSum(ms, i));
    SumsGrow(ms, i, |ms|);
  }

  lemma BothAreApart(ms: seq<Metric>, first: nat, dataHdr: nat, i: nat, j: nat)
    requires AllAligned(ms) && i < j < |ms|
    ensures BothApart(ms, first, dataHdr, i, j)
  {
    DescsApart(ms, first, i, j);
    SumsGrow(ms, i, j);
  }

  lemma LayoutIsGood(ms: seq<Metric>, first: nat, dataHdr: nat, metaSz: nat, dataSz: nat)
    requires AllAligned(ms) && first % 8 == 0 && dataHdr % 8 == 0
    requires first + DescSum(ms, |ms|) + MetaSum(ms, |ms|) <= metaSz
    requires dataHdr + DataSum(ms, |ms|) <= dataSz
    ensures LaidOut(ms, first, dataHdr, metaSz, dataSz)
  {
    forall i: nat | i < |ms| ensures DescInside(ms, first, i) {
      DescIsInside(ms, first, i);
    }
    forall i: nat | i < |ms| ensures ValueInside(ms, first, dataHdr, metaSz, dataSz, i) {
      ValueIsInside(ms, first, dataHdr, metaSz, dataSz, i);
    }
    forall i: nat, j: nat | i < j < |ms| ensures BothApart(ms, first, dataHdr, i, j) {
      BothAreApart(ms, first, dataHdr, i, j);
    }
  }

  /** The bytes of a data metric's slot. */
  ghost function Slot(ms: seq<Metric>, dataHdr: nat, data: seq<Byte>, i: nat): seq<Byte>
    requires i < |ms| && |data| == dataHdr + DataSum(ms, |ms|)
  {
    SumsGrow(ms, i, |ms|);
    var at := dataHdr + DataSum(ms, i);
    if ms[i].isData then data[at..at + ms[i].dataSz] else []
  }

  /** A data metric's slot has room for all its elements, if their size does not overflow 32 bits. */
  ghost predicate HoldsAll(ms: seq<Metric>, dataHdr: nat, data: seq<Byte>, i: nat)
    requires i < |ms| && |data| == dataHdr + DataSum(ms, |ms|)
  {
    ms[i].isData && TypeSize(ms[i].vtype) * ms[i].count < U32 ==>
      TypeSize(ms[i].vtype) * ms[i].count <= |Slot(ms, dataHdr, data, i)|
  }

  lemma SlotHoldsAll(ms: seq<Metric>, dataHdr: nat, data: seq<Byte>, i: nat)
    requires i < |ms| && |data| == dataHdr + DataSum(ms, |ms|) && MetricOk(ms[i])
    ensures HoldsAll(ms, dataHdr, data, i)
  {
    SumsGrow(ms, i, |ms|);
    if TypeSize(ms[i].vtype) * ms[i].count < U32 {
      RoomForAll(ms[i].vtype, ms[i].count);
    }
  }

  lemma RoomForAll(t: ValueType, count: nat)
    requires TypeSize(t) * count < U32
    ensures TypeSize(t) * count <= ValueSize(t, count)
  {
    var bytes := TypeSize(t) * count;
    assert bytes % U32 == bytes;
  }

  /** The data with `bytes` written at an offset. */
  function Written(data: seq<Byte>, at: nat, bytes: seq<Byte>): seq<Byte>
    requires at + |bytes| <= |data|
  {
    data[..at] + bytes + data[at + |bytes|..]
  }

  /** Bytes written into one slot leave every other slot alone. */
  lemma OthersKept(ms: seq<Metric>, dataHdr: nat, data: seq<Byte>, i: nat, j: nat, bytes: seq<Byte>)
    requires i < |ms| && j < |ms| && i != j && |data| == dataHdr + DataSum(ms, |ms|)
    requires ms[i].isData && |bytes| <= ms[i].dataSz && dataHdr + DataSum(ms, i) + |bytes| <= |data|
    ensures Slot(ms, dataHdr, Written(data, dataHdr + DataSum(ms, i), bytes), j) == Slot(ms, dataHdr, data, j)
  {
    var at, other := dataHdr + DataSum(ms, i), dataHdr + DataSum(ms, j);
    SumsGrow(ms, i, |ms|);
    SumsGrow(ms, j, |ms|);
    if ms[j].isData {
      var after, end := Written(data, at, bytes), other + ms[j].dataSz;
      if i < j {
        SumsGrow(ms, i, j);
        assert forall k | other <= k < end :: after[k] == data[k];
      } else {
        SumsGrow(ms, j, i);
        assert forall k | other <= k < end :: after[k] == data[k];
      }
      assert after[other..end] == data[other..end];
    }
  }

  lemma OwnSlot(ms: seq<Metric>, dataHdr: nat, data: seq<Byte>, i: nat, bytes: seq<Byte>)
    requires i < |ms| && |data| == dataHdr + DataSum(ms, |ms|)
    requires ms[i].isData && |bytes| <= ms[i].dataSz && dataHdr + DataSum(ms, i) + |bytes| <= |data|
    ensures |bytes| <= |Slot(ms, dataHdr, Written(data, dataHdr + DataSum(ms, i), bytes), i)|
    ensures Slot(ms, dataHdr, Written(data, dataHdr + DataSum(ms, i), bytes), i)[..|bytes|] == bytes
  {
    SumsGrow(ms, i, |ms|);
    var at := dataHdr + DataSum(ms, i);
    var after := Written(data, at, bytes);
    assert after[at..at + |bytes|] == bytes;
    assert after[at..at + ms[i].dataSz][..|bytes|] == after[at..at + |bytes|];
  }

  lemma SlotsAfter(ms: seq<Metric>, dataHdr: nat, data: seq<Byte>, i: nat, bytes: seq<Byte>, e: Elem, v: nat)
    requires i < |ms| && |data| == dataHdr + DataSum(ms, |ms|)
    requires ms[i].isData && |bytes| <= ms[i].dataSz && dataHdr + DataSum(ms, i) + |bytes| <= |data|
    requires |bytes| == Width(e) && FromLittleEndian(bytes) == Stored(e, v)
    ensures var after := Written(data, dataHdr + DataSum(ms, i), bytes);
            && ReadsBack(Slot(ms, dataHdr, after, i), e, v)
            && forall j: nat | j < |ms| && j != i :: Slot(ms, dataHdr, after, j) == Slot(ms, dataHdr, data, j)
  {
    var after := Written(data, dataHdr + DataSum(ms, i), bytes);
    OwnSlot(ms, dataHdr, data, i, bytes);
    forall j: nat | j < |ms| && j != i ensures Slot(ms, dataHdr, after, j) == Slot(ms, dataHdr, data, j) {
      OthersKept(ms, dataHdr, data, i, j, bytes);
    }
  }

  class KernelSet {
    const instance: string
    const dict: seq<nat>
    const descs: map<nat, Desc>
    const metaSz: nat
    const size: nat
    const pageOrder: nat
    const data: array<Byte>
    var gn: nat

    ghost const metrics: seq<Metric>
    ghost const first: nat
    ghost const dataHdr: nat

    /** The dictionary leads to every metric's descriptor, and all of them are laid out properly. */
    ghost predicate Valid()
      reads this
    {
      && |dict| == |metrics| && AllPlaced(metrics, first, dataHdr, |metrics|, dict, descs)
      && MetricsOk(metrics) && LaidOut(metrics, first, dataHdr, metaSz, data.Length)
      && data.Length == dataHdr + DataSum(metrics, |metrics|) && gn < U64MAX
    }

    /**
     * Takes the sizes from the schema and hands out all offsets in two
     * passes.  The meta-data section holds everything, the data section is
     * filled exactly, and the pages are the fewest that hold both.
     */
    constructor (instance: string, schema: Schema)
      requires schema.Valid() && MetaSize(schema.metaSz, schema.name, instance) + schema.dataSz < U32
      ensures Valid() && fresh(data) && metrics == schema.metrics && dataHdr == schema.dataHdr
      ensures first == FirstDescAt(|metrics|, instance, schema.name)
      ensures metaSz == MetaSize(schema.metaSz, schema.name, instance)
      ensures metaSz - (first + DescSum(metrics, |metrics|) + MetaSum(metrics, |metrics|))
           == Slack(metrics, instance, schema.name)
      ensures data.Length == schema.dataSz == dataHdr + DataSum(metrics, |metrics|)
      ensures forall i: nat | i < |metrics| :: HoldsAll(metrics, dataHdr, data[..], i)
      ensures forall i: nat | i < |metrics| :: i < |dict| && dict[i] in descs && Says(descs[dict[i]], metrics[i])
      ensures metaSz + data.Length <= size <= Pages(pageOrder) * PAGE_SIZE
      ensures pageOrder > 0 ==> Pages(pageOrder - 1) * PAGE_SIZE < metaSz + data.Length
    {
      var ms, n := schema.metrics, |schema.metrics|;
      MetricsAligned(ms);
      SlackIs(ms, instance, schema.name);
      var meta := MetaSize(schema.metaSz, schema.name, instance);
      var sz := meta + schema.dataSz;
      if sz < PAGE_SIZE {
        sz := PAGE_SIZE;
      }
      var order := PageOrder(sz);
      var start := FirstDescAt(n, instance, schema.name);
      var offsets, placed, end := PlaceDescriptors(ms, start, schema.dataHdr);
      var filled := PlaceMetaValues(ms, start, schema.dataHdr, offsets, placed, end);
      LayoutIsGood(ms, start, schema.dataHdr, meta, schema.dataSz);
      this.instance, dict, descs := instance, offsets, filled;
      metaSz, size, pageOrder := meta, sz, order;
      data := new Byte[schema.dataSz];
      gn := 1;
      metrics, first, dataHdr := ms, start, schema.dataHdr;
      new;
      forall i: nat | i < |metrics| ensures HoldsAll(metrics, dataHdr, data[..], i) {
        assert MetricOk(metrics[i]);
        SlotHoldsAll(metrics, dataHdr, data[..], i);
      }
      forall i: nat | i < |metrics| ensures i < |dict| && dict[i] in descs && Says(descs[dict[i]], metrics[i]) {
        assert PlacedAt(metrics, first, dataHdr, i, |metrics|, dict, descs);
      }
    }


    method Store(at: nat, bytes: seq<Byte>)
      requires at + |bytes| <= data.Length
      modifies data
      ensures data[..] == Written(old(data[..]), at, bytes)
    {
      for k := 0 to |bytes|
        invariant data[..at] == old(data[..at]) && data[at..at + k] == bytes[..k]
        invariant data[at + k..] == old(data[at + k..])
      {
        data[at + k] := bytes[k];
        assert data[at..at + k + 1] == data[at..at + k] + [bytes[k]];
        assert data[at + k + 1..] == old(data[at + k + 1..]);
      }
      assert data[..] == data[..at] + data[at..at + |bytes|] + data[at + |bytes|..];
    }

    /** Writes a value's bytes. */
    method WriteValue(at: nat, e: Elem, v: nat) returns (ghost bytes: seq<Byte>)
      requires at + Width(e) <= data.Length && v < Pow256(Width(e))
      modifies data
      ensures |bytes| == Width(e) && FromLittleEndian(bytes) == Stored(e, v)
      ensures data[..] == Written(old(data[..]), at, bytes)
    {
      StoredReads(e, v);
      bytes := LittleEndian(Stored(e, v), Width(e));
      Store(at, LittleEndian(Stored(e, v), Width(e)));
    }

    /**
     * Sets a data metric.  The value can be read back from its slot, up to
     * the conversion doubles go through; no other slot changes.
     */
    method SetMetric(i: nat, v: nat)
      requires Valid() && i < |dict| && metrics[i].isData
      requires Settable(metrics[i].vtype) ==>
                 metrics[i].count == 1 && metrics[i].vtype.elem != Char && Representable(metrics[i].vtype.elem, v)
      modifies data, this`gn
      ensures Valid()
      ensures forall j: nat | j < |metrics| && j != i ::
                Slot(metrics, dataHdr, data[..], j) == Slot(metrics, dataHdr, old(data[..]), j)
      ensures Settable(metrics[i].vtype) ==>
                ReadsBack(Slot(metrics, dataHdr, data[..], i), metrics[i].vtype.elem, v)
      ensures gn == if Settable(metrics[i].vtype) then NextGn(old(gn)) else old(gn)
      ensures !Settable(metrics[i].vtype) ==> data[..] == old(data[..])
    {
      assert PlacedAt(metrics, first, dataHdr, i, |metrics|, dict, descs);
      var desc := descs[dict[i]];
      if !Settable(desc.vtype) {
        return;
      }
      assert MetricOk(metrics[i]);
      ScalarRoom(metrics[i]);
      WidthSuffices(metrics[i].vtype.elem, v);
      SumsGrow(metrics, i, |metrics|);
      var at, e := desc.dataOffset, desc.vtype.elem;
      ghost var before := data[..];
      ghost var bytes := WriteValue(at, e, v);
      SlotsAfter(metrics, dataHdr, before, i, bytes, e, v);
      gn := NextGn(gn);
    }
  }
}
