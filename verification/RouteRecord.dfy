/** The record from which an interrupted audio route is recovered: how it is printed, how it is read back, and when the
    two agree. Text is its UTF-8 bytes, as its length limits count it. */
module RouteRecord {
  import opened Decimals
  import opened Numbers

  type Text = seq<U8>
  type U32 = n: int | 0 <= n <= 0xFFFF_FFFF

  const NEWLINE: U8 := 10
  const RETURN: U8 := 13
  const PLUS: U8 := 43
  const MAX_RECORD_BYTES := 4096
  const MAX_ENDPOINT_ID_BYTES := 1024

  datatype RecordError = TooLong | InvalidVersion | MissingField | InvalidSession | UnexpectedField | InvalidEndpointId

  datatype Result<+T> = Success(value: T) | Failure(error: RecordError) {
    predicate IsFailure() {
      Failure?
    }

    function PropagateFailure<U>(): Result<U>
      requires Failure?
    {
      Failure(error)
    }

    function Extract(): T
      requires Success?
    {
      value
    }
  }

  /** Where audio was sent before, for each of the three roles, and the endpoint it is routed to. */
  datatype Record = Record(sessionId: U32, target: Text, console: Text, multimedia: Text, communications: Text) {
    function Endpoints(): seq<Text> {
      [target, console, multimedia, communications]
    }
  }

  function Byte(c: char): U8 {
    c as int % 128
  }

  /** The bytes of a field name, all of whose characters are ASCII. */
  function Ascii(text: string): (r: Text)
    ensures |r| == |text|
  {
    seq(|text|, i requires 0 <= i < |text| => Byte(text[i]))
  }

  // Numbers

  /** A 32-bit number as the standard library reads it: an optional plus, then digits. */
  function ParseU32(text: Text): Option<U32> {
    var digits := if text != [] && text[0] == PLUS then text[1..] else text;
    if digits != [] && AllDigits(digits) && DecimalValue(digits) <= 0xFFFF_FFFF then Some(DecimalValue(digits))
      else None
  }

  // Lines

  function BreakAt(text: Text): (r: nat)
    ensures r <= |text| && (r < |text| ==> text[r] == NEWLINE)
    ensures forall i :: 0 <= i < r ==> text[i] != NEWLINE
  {
    if text == [] || text[0] == NEWLINE then 0 else 1 + BreakAt(text[1..])
  }

  function WithoutReturn(line: Text): Text {
    if line != [] && line[|line| - 1] == RETURN then line[..|line| - 1] else line
  }

  /** The lines of a text: each ends with a newline or a return and a newline, which the last may lack. */
  function Lines(text: Text): seq<Text>
    decreases |text|
  {
    if text == [] then []
    else
      var end := BreakAt(text);
      if end == |text| then [text] else [WithoutReturn(text[..end])] + Lines(text[end + 1..])
  }

  // The record

  predicate ValidEndpointId(id: Text) {
    1 <= |id| <= MAX_ENDPOINT_ID_BYTES && RETURN !in id && NEWLINE !in id && 0 !in id
  }

  predicate ValidEndpoints(record: Record) {
    forall i :: 0 <= i < 4 ==> ValidEndpointId(record.Endpoints()[i])
  }

  function Printed(lines: seq<Text>): Text {
    if lines == [] then [] else lines[0] + [NEWLINE] + Printed(lines[1..])
  }

  function Fields(record: Record): seq<Text> {
    [Ascii("version=1"),
     Ascii("session_id=") + Decimal(record.sessionId),
     Ascii("target=") + record.target,
     Ascii("console=") + record.console,
     Ascii("multimedia=") + record.multimedia,
     Ascii("communications=") + record.communications]
  }

  function Serialize(record: Record): Result<Text> {
    if ValidEndpoints(record) then Success(Printed(Fields(record))) else Failure(InvalidEndpointId)
  }

  /** The value of the field on the next line, and the lines after it. */
  function Field(lines: seq<Text>, name: string): Result<(Text, seq<Text>)>
  {
    if lines != [] && Ascii(name) <= lines[0] then Success((lines[0][|name|..], lines[1..])) else Failure(MissingField)
  }

  function ParseFields(lines: seq<Text>): Result<Record> {
    var (session, afterSession) :- Field(lines, "session_id=");
    var sessionId := ParseU32(session);
    if sessionId.None? then Failure(InvalidSession)
    else
      var (target, afterTarget) :- Field(afterSession, "target=");
      var (console, afterConsole) :- Field(afterTarget, "console=");
      var (multimedia, afterMultimedia) :- Field(afterConsole, "multimedia=");
      var (communications, rest) :- Field(afterMultimedia, "communications=");
      var record := Record(sessionId.value, target, console, multimedia, communications);
      if rest != [] then Failure(UnexpectedField)
      else if !ValidEndpoints(record) then Failure(InvalidEndpointId)
      else Success(record)
  }

  function Parse(text: Text): Result<Record> {
    if |text| > MAX_RECORD_BYTES then Failure(TooLong)
    else
      var lines := Lines(text);
      if lines == [] || lines[0] != Ascii("version=1") then Failure(InvalidVersion) else ParseFields(lines[1..])
  }

  /** One to 1,024 bytes, none of them zero, a newline or a return. */
  ghost predicate Recordable(id: Text) {
    1 <= |id| <= 1024 && forall b :: b in id ==> b != 0 && b != 10 && b != 13
  }

  ghost predicate AllRecordable(record: Record) {
    Recordable(record.target) && Recordable(record.console) && Recordable(record.multimedia)
      && Recordable(record.communications)
  }

  lemma ValidEndpointsIff(record: Record)
    ensures ValidEndpoints(record) <==> AllRecordable(record)
  {
    var ids := record.Endpoints();
    assert ids[0] == record.target && ids[1] == record.console;
    assert ids[2] == record.multimedia && ids[3] == record.communications;
    assert forall id: Text :: ValidEndpointId(id) <==> Recordable(id);
    hide ValidEndpointId, Recordable;
  }

  /** A record is printed exactly when every identifier is recordable, as six lines in this order. */
  lemma SerializesIff(record: Record)
    ensures Serialize(record) ==
      if !AllRecordable(record) then Failure(InvalidEndpointId)
      else Success(Ascii("version=1") + [10]
                   + (Ascii("session_id=") + Decimal(record.sessionId)) + [10]
                   + (Ascii("target=") + record.target) + [10]
                   + (Ascii("console=") + record.console) + [10]
                   + (Ascii("multimedia=") + record.multimedia) + [10]
                   + (Ascii("communications=") + record.communications) + [10])
  {
    ValidEndpointsIff(record);
    PrintedSix(Ascii("version=1"), Ascii("session_id=") + Decimal(record.sessionId), Ascii("target=") + record.target,
               Ascii("console=") + record.console, Ascii("multimedia=") + record.multimedia,
               Ascii("communications=") + record.communications);
    hide AllRecordable, ValidEndpoints, Printed;
  }

  lemma PrintedSix(a: Text, b: Text, c: Text, d: Text, e: Text, f: Text)
    ensures Printed([a, b, c, d, e, f]) ==
      a + [10] + b + [10] + c + [10] + d + [10] + e + [10] + f + [10]
  {
    var lines := [a, b, c, d, e, f];
    assert lines[1..] == [b, c, d, e, f] && lines[1..][1..] == [c, d, e, f] && lines[2..][1..] == [d, e, f];
    assert [d, e, f][1..] == [e, f] && [e, f][1..] == [f] && [f][1..] == [];
    assert Printed([f]) == f + [10];
    assert Printed([e, f]) == e + [10] + Printed([f]);
    assert Printed([d, e, f]) == d + [10] + Printed([e, f]);
    assert Printed([c, d, e, f]) == c + [10] + Printed([d, e, f]) by { assert [c, d, e, f][1..] == [d, e, f]; }
    assert Printed([b, c, d, e, f]) == b + [10] + Printed([c, d, e, f]) by {
      assert [b, c, d, e, f][1..] == [c, d, e, f];
    }
  }

  // Reading a number back

  lemma U32ReadsBack(n: U32)
    ensures ParseU32(Decimal(n)) == Some(n)
  {
    DecimalReadsBack(n);
    assert IsDigit(Decimal(n)[0]);
  }

  // Reading lines back

  /** A line that line splitting leaves as it is. */
  ghost predicate Plain(line: Text) {
    NEWLINE !in line && RETURN !in line
  }

  lemma {:induction false} BreakAfter(line: Text, rest: Text)
    requires NEWLINE !in line
    ensures BreakAt(line + [NEWLINE] + rest) == |line|
  {
    var text := line + [NEWLINE] + rest;
    assert text[|line|] == NEWLINE;
    assert forall i :: 0 <= i < |line| ==> text[i] == line[i] && line[i] in line;
  }

  lemma LinesOfLine(line: Text, rest: Text)
    requires Plain(line)
    ensures Lines(line + [NEWLINE] + rest) == [line] + Lines(rest)
  {
    var text := line + [NEWLINE] + rest;
    BreakAfter(line, rest);
    assert text[..|line|] == line && text[|line| + 1..] == rest;
  }

  /** A return before the newline belongs to the end of the line, and one at the end of the text to the last line. */
  lemma ReturnsEndLines(line: Text, rest: Text)
    requires NEWLINE !in line
    ensures Lines(line + [13, 10] + rest) == [line] + Lines(rest)
    ensures Lines(line + [13]) == [line + [13]]
  {
    var text := line + [13] + [10] + rest;
    assert line + [13, 10] + rest == text;
    BreakAfter(line + [13], rest);
    assert text[..|line| + 1] == line + [13] && text[|line| + 2..] == rest;
    assert NEWLINE !in line + [13];
  }

  lemma {:induction false} LinesReadBack(lines: seq<Text>)
    requires forall i :: 0 <= i < |lines| ==> Plain(lines[i])
    ensures Lines(Printed(lines)) == lines
  {
    if lines != [] {
      LinesOfLine(lines[0], Printed(lines[1..]));
      LinesReadBack(lines[1..]);
    }
  }

  /** Splitting into lines drops at most what printing them puts back, and the newline the last line may lack. */
  lemma {:induction false} LinesPrintShorter(text: Text)
    ensures |Printed(Lines(text))| <= |text| + 1
    decreases |text|
  {
    if text != [] && BreakAt(text) < |text| {
      LinesPrintShorter(text[BreakAt(text) + 1..]);
      var first := WithoutReturn(text[..BreakAt(text)]);
      assert Lines(text)[1..] == Lines(text[BreakAt(text) + 1..]);
      assert |first| <= BreakAt(text);
    } else if text != [] {
      assert Printed([text]) == text + [NEWLINE] + Printed([]);
    }
  }

  // Reading a record back

  ghost predicate PlainName(name: string) {
    forall i :: 0 <= i < |name| ==> name[i] != '\n' && name[i] != '\r' && name[i] as int < 128
  }

  lemma PlainField(name: string, value: Text)
    requires PlainName(name) && Plain(value)
    ensures Plain(Ascii(name) + value)
  {
    var field := Ascii(name) + value;
    forall i | 0 <= i < |field|
      ensures field[i] != NEWLINE && field[i] != RETURN
    {
      if i < |name| {
        assert field[i] == Byte(name[i]);
      } else {
        assert field[i] == value[i - |name|] && value[i - |name|] in value;
      }
    }
  }

  lemma NamesArePlain()
    ensures PlainName("version=1") && PlainName("session_id=") && PlainName("target=") && PlainName("console=")
    ensures PlainName("multimedia=") && PlainName("communications=")
  {
  }

  lemma PlainNumber(n: nat)
    ensures Plain(Decimal(n))
  {
    DecimalReadsBack(n);
  }

  lemma PlainFields(record: Record)
    requires ValidEndpoints(record)
    ensures Plain(Ascii("version=1"))
    ensures Plain(Ascii("session_id=") + Decimal(record.sessionId))
    ensures Plain(Ascii("target=") + record.target)
    ensures Plain(Ascii("console=") + record.console)
    ensures Plain(Ascii("multimedia=") + record.multimedia)
    ensures Plain(Ascii("communications=") + record.communications)
  {
    NamesArePlain();
    PlainNumber(record.sessionId);
    var endpoints := record.Endpoints();
    assert ValidEndpointId(endpoints[0]) && ValidEndpointId(endpoints[1]) && ValidEndpointId(endpoints[2])
      && ValidEndpointId(endpoints[3]);
    PlainField("version=1", []);
    assert Ascii("version=1") + [] == Ascii("version=1");
    PlainField("session_id=", Decimal(record.sessionId));
    PlainField("target=", record.target);
    PlainField("console=", record.console);
    PlainField("multimedia=", record.multimedia);
    PlainField("communications=", record.communications);
  }

  lemma FieldReadsBack(lines: seq<Text>, name: string, value: Text)
    requires lines != [] && lines[0] == Ascii(name) + value
    ensures Field(lines, name) == Success((value, lines[1..]))
  {
  }

  /** The six lines of the record, with this spelling of its session number. */
  ghost predicate Spells(lines: seq<Text>, record: Record, session: Text) {
    && lines == [Ascii("version=1"), Ascii("session_id=") + session, Ascii("target=") + record.target,
                 Ascii("console=") + record.console, Ascii("multimedia=") + record.multimedia,
                 Ascii("communications=") + record.communications]
    && ParseU32(session) == Some(record.sessionId)
  }

  lemma SpellingParses(lines: seq<Text>, record: Record, session: Text)
    requires ValidEndpoints(record) && Spells(lines, record, session)
    ensures ParseFields(lines[1..]) == Success(record)
  {
    FieldReadsBack(lines[1..], "session_id=", session);
    FieldReadsBack(lines[1..][1..], "target=", record.target);
    FieldReadsBack(lines[1..][1..][1..], "console=", record.console);
    FieldReadsBack(lines[1..][1..][1..][1..], "multimedia=", record.multimedia);
    FieldReadsBack(lines[1..][1..][1..][1..][1..], "communications=", record.communications);
  }

  lemma AllPlain(a: Text, b: Text, c: Text, d: Text, e: Text, f: Text, lines: seq<Text>)
    requires lines == [a, b, c, d, e, f]
    requires Plain(a) && Plain(b) && Plain(c) && Plain(d) && Plain(e) && Plain(f)
    ensures Lines(Printed(lines)) == lines
  {
    assert forall i :: 0 <= i < |lines| ==> Plain(lines[i]);
    LinesReadBack(lines);
  }

  lemma RecordLines(record: Record)
    requires ValidEndpoints(record)
    ensures Lines(Printed(Fields(record))) == Fields(record)
  {
    PlainFields(record);
    AllPlain(Ascii("version=1"), Ascii("session_id=") + Decimal(record.sessionId), Ascii("target=") + record.target,
             Ascii("console=") + record.console, Ascii("multimedia=") + record.multimedia,
             Ascii("communications=") + record.communications, Fields(record));
  }

  lemma ParsesLines(record: Record, text: Text, lines: seq<Text>)
    requires lines == Lines(text) && lines != [] && lines[0] == Ascii("version=1")
    requires ParseFields(lines[1..]) == Success(record)
    ensures Parse(text) == if |text| <= MAX_RECORD_BYTES then Success(record) else Failure(TooLong)
  {
  }

  /** What is printed is read back as the same record, exactly when it is no longer than the limit on reading. */
  lemma RecordReadsBack(record: Record, text: Text)
    requires Serialize(record) == Success(text)
    ensures Parse(text) == if |text| <= MAX_RECORD_BYTES then Success(record) else Failure(TooLong)
  {
    assert Lines(text) == Fields(record) by { RecordLines(record); }
    U32ReadsBack(record.sessionId);
    SpellingParses(Fields(record), record, Decimal(record.sessionId));
    ParsesLines(record, text, Fields(record));
  }

  lemma PrintedFrom(lines: seq<Text>, k: nat)
    requires k < |lines|
    ensures |Printed(lines[k..])| == |lines[k]| + 1 + |Printed(lines[k + 1..])|
  {
    assert lines[k..][1..] == lines[k + 1..];
  }

  lemma PrintedLength(lines: seq<Text>)
    requires |lines| == 6
    ensures |Printed(lines)| == |lines[0]| + |lines[1]| + |lines[2]| + |lines[3]| + |lines[4]| + |lines[5]| + 6
  {
    PrintedFrom(lines, 0);
    PrintedFrom(lines, 1);
    PrintedFrom(lines, 2);
    PrintedFrom(lines, 3);
    PrintedFrom(lines, 4);
    PrintedFrom(lines, 5);
    assert lines[0..] == lines;
  }

  ghost function RecordLength(record: Record): nat {
    67 + |Decimal(record.sessionId)| + |record.target| + |record.console| + |record.multimedia|
      + |record.communications|
  }

  lemma SerializedLength(record: Record)
    ensures |Printed(Fields(record))| == RecordLength(record)
  {
    var lines := Fields(record);
    PrintedLength(lines);
    assert |lines[0]| == 9 && |lines[1]| == 11 + |Decimal(record.sessionId)|;
    assert |lines[2]| == 7 + |record.target| && |lines[3]| == 8 + |record.console|;
    assert |lines[4]| == 11 + |record.multimedia| && |lines[5]| == 15 + |record.communications|;
  }

  /** Before a route is changed, its record can be recovered exactly when its identifiers
      together leave it this short. */
  lemma RecoverableIff(record: Record)
    requires ValidEndpoints(record)
    ensures Parse(Serialize(record).value) == Success(record) <==> RecordLength(record) <= MAX_RECORD_BYTES
  {
    RecordReadsBack(record, Serialize(record).value);
    SerializedLength(record);
  }

  /** Identifiers of the greatest length are printed but cannot be read back. */
  lemma LongestIdsAreLost(sessionId: U32) returns (record: Record)
    ensures record.sessionId == sessionId && Serialize(record).Success?
    ensures Parse(Serialize(record).value) == Failure(TooLong)
  {
    var letter: U8 := 65;
    var id: Text := seq(MAX_ENDPOINT_ID_BYTES, i => letter);
    record := Record(sessionId, id, id, id, id);
    RecordReadsBack(record, Serialize(record).value);
    SerializedLength(record);
  }

  // What can be read was printed, up to the spelling of line ends and of the session number

  lemma FieldIsFirst(lines: seq<Text>, name: string)
    requires Field(lines, name).Success?
    ensures lines != [] && Field(lines, name).value == (lines[0][|name|..], lines[1..])
    ensures lines[0] == Ascii(name) + Field(lines, name).value.0
  {
  }

  lemma U32Spelling(text: Text)
    requires ParseU32(text).Some?
    ensures |Decimal(ParseU32(text).value)| <= |text|
  {
    DecimalIsShortest(if text[0] == PLUS then text[1..] else text);
  }

  lemma SpelledFields(lines: seq<Text>) returns (session: Text)
    requires ParseFields(lines).Success?
    ensures var record := ParseFields(lines).value;
      ValidEndpoints(record) && Spells([Ascii("version=1")] + lines, record, session)
  {
    var record := ParseFields(lines).value;
    FieldIsFirst(lines, "session_id=");
    var l2 := lines[1..];
    FieldIsFirst(l2, "target=");
    var l3 := l2[1..];
    FieldIsFirst(l3, "console=");
    var l4 := l3[1..];
    FieldIsFirst(l4, "multimedia=");
    var l5 := l4[1..];
    FieldIsFirst(l5, "communications=");
    session := lines[0][11..];
    assert l5 == [Ascii("communications=") + record.communications];
    assert l4 == [Ascii("multimedia=") + record.multimedia] + l5;
    assert l3 == [Ascii("console=") + record.console] + l4;
    assert l2 == [Ascii("target=") + record.target] + l3;
  }

  /** A text reads as a record exactly when it is short enough and its lines spell that record. */
  lemma ParsesExactlySpellings(text: Text, record: Record)
    ensures Parse(text) == Success(record) <==>
      && |text| <= 4096
      && AllRecordable(record)
      && exists session :: Spells(Lines(text), record, session)
  {
    var lines := Lines(text);
    ValidEndpointsIff(record);
    if Parse(text) == Success(record) {
      var session := SpelledFields(lines[1..]);
      assert [lines[0]] + lines[1..] == lines;
    }
    if session :| ValidEndpoints(record) && Spells(lines, record, session) {
      SpellingParses(lines, record, session);
      ParsesLines(record, text, lines);
    }
  }

  lemma SpellingLength(lines: seq<Text>, record: Record, session: Text)
    requires Spells(lines, record, session)
    ensures RecordLength(record) <= |Printed(lines)|
  {
    PrintedLength(lines);
    U32Spelling(session);
    assert |lines[0]| == 9 && |lines[1]| == 11 + |session|;
    assert |lines[2]| == 7 + |record.target| && |lines[3]| == 8 + |record.console|;
    assert |lines[4]| == 11 + |record.multimedia| && |lines[5]| == 15 + |record.communications|;
  }

  /** Whatever is read can be printed, at most one byte longer, and below the limit the print
      reads as the same record. */
  lemma ReadRecordsReprint(text: Text, record: Record)
    requires Parse(text) == Success(record)
    ensures Serialize(record).Success? && |Serialize(record).value| <= |text| + 1
    ensures |text| < MAX_RECORD_BYTES ==> Parse(Serialize(record).value) == Success(record)
  {
    hide ParseFields, Fields, ValidEndpoints, Printed, AllRecordable;
    ParsesExactlySpellings(text, record);
    ValidEndpointsIff(record);
    var session :| Spells(Lines(text), record, session);
    SpellingLength(Lines(text), record, session);
    LinesPrintShorter(text);
    SerializedLength(record);
    RecordReadsBack(record, Serialize(record).value);
  }

  // Why a text is refused

  /** Line `k` is there and begins with the name. */
  ghost predicate Named(lines: seq<Text>, k: nat, name: string) {
    k < |lines| && Ascii(name) <= lines[k]
  }

  /** The first thing wrong with the lines, in reading order; identifiers are looked at last. */
  ghost predicate Refused(lines: seq<Text>, e: RecordError) {
    if lines == [] || lines[0] != Ascii("version=1") then e == InvalidVersion
    else if !Named(lines, 1, "session_id=") then e == MissingField
    else if ParseU32(lines[1][11..]).None? then e == InvalidSession
    else if !Named(lines, 2, "target=") || !Named(lines, 3, "console=") || !Named(lines, 4, "multimedia=")
            || !Named(lines, 5, "communications=")
    then e == MissingField
    else if |lines| > 6 then e == UnexpectedField
    else e == InvalidEndpointId
         && !(&& Recordable(lines[2][7..]) && Recordable(lines[3][8..]) && Recordable(lines[4][11..])
              && Recordable(lines[5][15..]))
  }

  lemma FieldRefused(lines: seq<Text>, k: nat, name: string)
    requires k <= |lines|
    ensures Field(lines[k..], name) ==
      if Named(lines, k, name) then Success((lines[k][|name|..], lines[k + 1..])) else Failure(MissingField)
  {
    if k < |lines| {
      assert lines[k..][0] == lines[k] && lines[k..][1..] == lines[k + 1..];
    }
  }

  lemma NamedBefore(lines: seq<Text>, k: nat, name: string)
    ensures Named(lines, k, name) ==> k < |lines| && |name| <= |lines[k]|
  {
  }

  lemma FieldsRefused(lines: seq<Text>)
    requires lines != [] && lines[0] == Ascii("version=1") && ParseFields(lines[1..]).Failure?
    ensures Refused(lines, ParseFields(lines[1..]).error)
  {
    hide Named, Field, ParseU32, ValidEndpoints, Recordable, Ascii;
    FieldRefused(lines, 1, "session_id=");
    NamedBefore(lines, 1, "session_id=");
    if Named(lines, 1, "session_id=") && ParseU32(lines[1][11..]).Some? {
      LaterFieldsRefused(lines, ParseU32(lines[1][11..]).value);
    }
  }

  lemma LaterFieldsRefused(lines: seq<Text>, sessionId: U32)
    requires |lines| >= 2 && Field(lines[1..], "session_id=").Success? && ParseFields(lines[1..]).Failure?
    requires Field(lines[1..], "session_id=").value.1 == lines[2..]
    requires ParseU32(Field(lines[1..], "session_id=").value.0) == Some(sessionId)
    ensures var e := ParseFields(lines[1..]).error;
      if !Named(lines, 2, "target=") || !Named(lines, 3, "console=") || !Named(lines, 4, "multimedia=")
          || !Named(lines, 5, "communications=")
      then e == MissingField
      else if |lines| > 6 then e == UnexpectedField
      else e == InvalidEndpointId
           && !(&& Recordable(lines[2][7..]) && Recordable(lines[3][8..]) && Recordable(lines[4][11..])
                && Recordable(lines[5][15..]))
  {
    hide Named, Field, ParseU32, ValidEndpoints, Recordable, Ascii;
    NamedBefore(lines, 2, "target=");
    NamedBefore(lines, 3, "console=");
    NamedBefore(lines, 4, "multimedia=");
    NamedBefore(lines, 5, "communications=");
    FieldRefused(lines, 2, "target=");
    if Named(lines, 2, "target=") {
      FieldRefused(lines, 3, "console=");
      if Named(lines, 3, "console=") {
        FieldRefused(lines, 4, "multimedia=");
        if Named(lines, 4, "multimedia=") {
          FieldRefused(lines, 5, "communications=");
          if Named(lines, 5, "communications=") {
            ValidEndpointsIff(Record(sessionId, lines[2][7..], lines[3][8..], lines[4][11..], lines[5][15..]));
          }
        }
      }
    }
  }

  /** A text is refused for its length, or for the first thing wrong with its lines. */
  lemma RefusedBecause(text: Text)
    requires Parse(text).Failure?
    ensures if |text| > 4096 then Parse(text).error == TooLong else Refused(Lines(text), Parse(text).error)
  {
    hide Lines, ParseFields, ParseU32, Recordable;
    var lines := Lines(text);
    if |text| <= 4096 && lines != [] && lines[0] == Ascii("version=1") {
      FieldsRefused(lines);
    }
  }
}
