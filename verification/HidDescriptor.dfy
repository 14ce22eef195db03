/** The HID report descriptor parser: one pass over the short items, with a stack of global states. */
module HidDescriptor {
  import opened Numbers

  const MAX_DESCRIPTOR_SIZE := 4096
  const MAX_REPORT_SIZE := 80
  const LONG_ITEM: U8 := 0xfe
  const U32_MAX := 0xFFFF_FFFF

  datatype DescriptorError =
    | InvalidDescriptorSize | TruncatedItem | LongItemUnsupported | InvalidReportId | GlobalStackUnderflow
    | UnclosedGlobalStack | CollectionUnderflow | UnclosedCollection | MixedReportIds | ArithmeticOverflow
    | InvalidReportSize | MissingInputReport

  datatype Parsed<+T> = Ok(value: T) | Err(error: DescriptorError)

  datatype Globals = Globals(size: nat, count: nat, id: U8)

  type Totals = map<U8, U64>

  type Lengths = map<U8, nat>

  datatype Reports = Reports(input: Lengths, output: Lengths, feature: Lengths)

  datatype Layout = Layout(reports: Reports, usesReportIds: bool)

  /** A short item: its type, its tag, and zero, one, two or four bytes of data. */
  datatype Item = Item(kind: nat, tag: nat, data: seq<U8>)

  function Weight(index: nat): nat {
    if index == 0 then 1 else 256 * Weight(index - 1)
  }

  /** The little-endian value of an item's data. */
  function Value(data: seq<U8>): nat {
    if data == [] then 0 else Value(data[..|data| - 1]) + data[|data| - 1] * Weight(|data| - 1)
  }

  datatype State = State(globals: Globals, stack: seq<Globals>, depth: nat, usesIds: bool,
                         input: Totals, output: Totals, feature: Totals)

  const START := State(Globals(0, 0, 0), [], 0, false, map[], map[], map[])

  function DataSize(prefix: U8): nat {
    if prefix % 4 == 3 then 4 else prefix % 4
  }

  function AddTo(totals: Totals, id: U8, added: nat): Parsed<Totals> {
    var total := if id in totals then totals[id] else 0;
    if added > U64_MAX || total + added > U64_MAX then Err(ArithmeticOverflow) else Ok(totals[id := total + added])
  }

  function ApplyGlobal(s: State, tag: nat, value: nat): Parsed<State> {
    if tag == 7 then Ok(s.(globals := s.globals.(size := value)))
    else if tag == 8 then
      if value > 255 || value == 0 then Err(InvalidReportId)
      else Ok(s.(globals := s.globals.(id := value), usesIds := true))
    else if tag == 9 then Ok(s.(globals := s.globals.(count := value)))
    else if tag == 10 then Ok(s.(stack := s.stack + [s.globals]))
    else if tag == 11 then
      if s.stack == [] then Err(GlobalStackUnderflow)
      else Ok(s.(globals := s.stack[|s.stack| - 1], stack := s.stack[..|s.stack| - 1]))
    else Ok(s)
  }

  function ApplyMain(s: State, tag: nat): Parsed<State> {
    if tag == 10 then if s.depth >= U32_MAX then Err(ArithmeticOverflow) else Ok(s.(depth := s.depth + 1))
    else if tag == 12 then if s.depth == 0 then Err(CollectionUnderflow) else Ok(s.(depth := s.depth - 1))
    else if tag == 8 then
      var t := AddTo(s.input, s.globals.id, s.globals.size * s.globals.count);
      if t.Err? then Err(t.error) else Ok(s.(input := t.value))
    else if tag == 9 then
      var t := AddTo(s.output, s.globals.id, s.globals.size * s.globals.count);
      if t.Err? then Err(t.error) else Ok(s.(output := t.value))
    else if tag == 11 then
      var t := AddTo(s.feature, s.globals.id, s.globals.size * s.globals.count);
      if t.Err? then Err(t.error) else Ok(s.(feature := t.value))
    else Ok(s)
  }

  function Apply(s: State, item: Item): Parsed<State> {
    if item.kind == 1 then ApplyGlobal(s, item.tag, Value(item.data))
    else if item.kind == 0 then ApplyMain(s, item.tag)
    else Ok(s)
  }

  /** The item at the start of the bytes. */
  function NextItem(bytes: seq<U8>): (r: Parsed<Item>)
    requires bytes != []
    ensures r.Ok? ==> 1 + |r.value.data| <= |bytes|
  {
    var prefix := bytes[0];
    if prefix == LONG_ITEM then Err(LongItemUnsupported)
    else if 1 + DataSize(prefix) > |bytes| then Err(TruncatedItem)
    else Ok(Item(prefix / 4 % 4, prefix / 16, bytes[1..1 + DataSize(prefix)]))
  }

  function ParseItems(bytes: seq<U8>, s: State): Parsed<State>
    decreases |bytes|
  {
    if bytes == [] then Ok(s)
    else
      var item := NextItem(bytes);
      if item.Err? then Err(item.error)
      else
        var t := Apply(s, item.value);
        if t.Err? then t else ParseItems(bytes[1 + |item.value.data|..], t.value)
  }

  function ByteLength(bits: nat, usesIds: bool): nat {
    (bits + 7) / 8 + (if usesIds then 1 else 0)
  }

  /** The lengths of the reports with identifiers from `next` on, in the order of their identifiers. */
  function LengthsFrom(totals: Totals, usesIds: bool, next: nat): Parsed<Lengths>
    requires next <= 256
    decreases 256 - next
  {
    if next == 256 then Ok(map[])
    else if next !in totals then LengthsFrom(totals, usesIds, next + 1)
    else if totals[next] + 7 > U64_MAX then Err(ArithmeticOverflow)
    else if !(1 <= ByteLength(totals[next], usesIds) <= MAX_REPORT_SIZE) then Err(InvalidReportSize)
    else
      var rest := LengthsFrom(totals, usesIds, next + 1);
      if rest.Err? then rest else Ok(rest.value[next := ByteLength(totals[next], usesIds)])
  }

  function Conclude(s: State): Parsed<Layout> {
    if s.depth != 0 then Err(UnclosedCollection)
    else if s.stack != [] then Err(UnclosedGlobalStack)
    else if s.usesIds && (0 in s.input || 0 in s.output || 0 in s.feature) then Err(MixedReportIds)
    else
      var input := LengthsFrom(s.input, s.usesIds, 0);
      if input.Err? then Err(input.error)
      else
        var output := LengthsFrom(s.output, s.usesIds, 0);
        if output.Err? then Err(output.error)
        else
          var feature := LengthsFrom(s.feature, s.usesIds, 0);
          if feature.Err? then Err(feature.error)
          else if input.value == map[] then Err(MissingInputReport)
          else Ok(Layout(Reports(input.value, output.value, feature.value), s.usesIds))
  }

  function Parse(bytes: seq<U8>): Parsed<Layout> {
    if bytes == [] || |bytes| > MAX_DESCRIPTOR_SIZE then Err(InvalidDescriptorSize)
    else
      var s := ParseItems(bytes, START);
      if s.Err? then Err(s.error) else Conclude(s.value)
  }

  /** The number whose bytes these are, the lowest first. */
  ghost predicate LittleEndian(data: seq<int>, value: int) {
    match |data|
    case 0 => value == 0
    case 1 => value == data[0]
    case 2 => value == data[0] + 0x100 * data[1]
    case 4 => value == data[0] + 0x100 * data[1] + 0x1_0000 * data[2] + 0x100_0000 * data[3]
    case _ => true
  }

  lemma WeightsOfBytes()
    ensures Weight(0) == 1 && Weight(1) == 0x100 && Weight(2) == 0x1_0000 && Weight(3) == 0x100_0000
  {
    assert Weight(2) == 256 * Weight(1) && Weight(3) == 256 * Weight(2);
  }

  lemma ValueOfOneMore(data: seq<U8>, k: nat)
    requires k < |data|
    ensures Value(data[..k + 1]) == Value(data[..k]) + data[k] * Weight(k)
  {
    assert data[..k + 1][..k] == data[..k];
  }

  lemma ValueIsLittleEndian(data: seq<U8>)
    ensures LittleEndian(data, Value(data))
  {
    WeightsOfBytes();
    assert data[..|data|] == data && data[..0] == [] && Value(data[..0]) == 0;
    hide Value, Weight;
    if |data| >= 1 {
      ValueOfOneMore(data, 0);
    }
    if |data| >= 2 {
      ValueOfOneMore(data, 1);
    }
    if |data| == 4 {
      ValueOfOneMore(data, 2);
      ValueOfOneMore(data, 3);
    }
  }

  /** Adds up the value byte by byte, lowest first. */
  method FoldValue(data: seq<U8>) returns (value: nat)
    ensures value == Value(data) && LittleEndian(data, value)
  {
    ValueIsLittleEndian(data);
    value := 0;
    var weight: nat := 1;
    for index := 0 to |data|
      invariant value == Value(data[..index]) && weight == Weight(index)
    {
      assert data[..index + 1][..index] == data[..index];
      value := value + data[index] * weight;
      weight := weight * 256;
    }
    assert data[..|data|] == data;
  }

  method MeasureReports(totals: Totals, usesIds: bool) returns (r: Parsed<Lengths>)
    ensures r == LengthsFrom(totals, usesIds, 0)
  {
    var lengths: Lengths := map[];
    var id: nat := 0;
    ghost var all := LengthsFrom(totals, usesIds, 0);
    assert all.Ok? ==> lengths + all.value == all.value;
    while id < 256
      invariant 0 <= id <= 256
      invariant forall k :: k in lengths ==> k < id
      invariant LengthsFrom(totals, usesIds, 0) ==
        var rest := LengthsFrom(totals, usesIds, id);
        if rest.Err? then rest else Ok(lengths + rest.value)
    {
      ghost var rest := LengthsFrom(totals, usesIds, id + 1);
      if id in totals {
        if totals[id] + 7 > U64_MAX {
          return Err(ArithmeticOverflow);
        }
        var bytes := ByteLength(totals[id], usesIds);
        if bytes == 0 || bytes > MAX_REPORT_SIZE {
          return Err(InvalidReportSize);
        }
        LengthsAfter(totals, usesIds, id + 1);
        assert rest.Ok? ==> lengths + rest.value[id := bytes] == lengths[id := bytes] + rest.value;
        lengths := lengths[id := bytes];
      }
      id := id + 1;
    }
    assert lengths + map[] == lengths;
    r := Ok(lengths);
  }

  lemma {:induction false} LengthsAfter(totals: Totals, usesIds: bool, next: nat)
    requires next <= 256
    ensures var r := LengthsFrom(totals, usesIds, next);
      r.Ok? ==> forall id :: id in r.value <==> id in totals && id >= next
    ensures var r := LengthsFrom(totals, usesIds, next);
      r.Ok? ==> forall id :: id in r.value ==>
        r.value[id] == ByteLength(totals[id], usesIds) && 1 <= r.value[id] <= MAX_REPORT_SIZE
    decreases 256 - next
  {
    if next < 256 {
      LengthsAfter(totals, usesIds, next + 1);
    }
  }

  /** The parser: one loop over the bytes, then the checks on what it gathered. */
  method ParseReportDescriptor(bytes: seq<U8>) returns (r: Parsed<Layout>)
    ensures r == Parse(bytes)
  {
    if bytes == [] || |bytes| > MAX_DESCRIPTOR_SIZE {
      return Err(InvalidDescriptorSize);
    }
    var s := START;
    var offset := 0;
    while offset < |bytes|
      invariant 0 <= offset <= |bytes|
      invariant ParseItems(bytes, START) == ParseItems(bytes[offset..], s)
    {
      ghost var left := bytes[offset..];
      var prefix := bytes[offset];
      if prefix == LONG_ITEM {
        return Err(LongItemUnsupported);
      }
      var size := DataSize(prefix);
      if offset + 1 + size > |bytes| {
        return Err(TruncatedItem);
      }
      var data := bytes[offset + 1..offset + 1 + size];
      assert left[1..1 + size] == data && left[1 + size..] == bytes[offset + 1 + size..];
      offset := offset + 1 + size;
      var value := FoldValue(data);
      var kind, tag := prefix / 4 % 4, prefix / 16;
      var t: Parsed<State>;
      if kind == 1 {
        t := ApplyGlobal(s, tag, value);
      } else if kind == 0 {
        t := ApplyMain(s, tag);
      } else {
        t := Ok(s);
      }
      if t.Err? {
        return Err(t.error);
      }
      s := t.value;
    }
    r := Finish(s);
  }

  method Finish(s: State) returns (r: Parsed<Layout>)
    ensures r == Conclude(s)
  {
    if s.depth != 0 {
      return Err(UnclosedCollection);
    }
    if s.stack != [] {
      return Err(UnclosedGlobalStack);
    }
    if s.usesIds && (0 in s.input || 0 in s.output || 0 in s.feature) {
      return Err(MixedReportIds);
    }
    var input := MeasureReports(s.input, s.usesIds);
    if input.Err? {
      return Err(input.error);
    }
    var output := MeasureReports(s.output, s.usesIds);
    if output.Err? {
      return Err(output.error);
    }
    var feature := MeasureReports(s.feature, s.usesIds);
    if feature.Err? {
      return Err(feature.error);
    }
    if input.value == map[] {
      return Err(MissingInputReport);
    }
    r := Ok(Layout(Reports(input.value, output.value, feature.value), s.usesIds));
  }
}
