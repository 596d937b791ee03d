/** Server-sent events: version ids, the frame printer and a reader after the WHATWG HTML Standard. */
module Sse {
  import opened Text
  import Words

  const LF: Byte := 10
  const CR: Byte := 13
  const SPACE: Byte := 32
  const PLUS: Byte := 43
  const MINUS: Byte := 45

  const ID: seq<Byte> := [105, 100]
  const EVENT: seq<Byte> := [101, 118, 101, 110, 116]
  const DATA: seq<Byte> := [100, 97, 116, 97]
  const RULESET: seq<Byte> := [114, 117, 108, 101, 115, 101, 116]
  const RESYNC: seq<Byte> := [114, 101, 115, 121, 110, 99]
  const MESSAGE: seq<Byte> := [109, 101, 115, 115, 97, 103, 101]

  // ----- version ids

  function Pow10(n: nat): (r: nat)
    ensures r > 0
  {
    if n == 0 then 1 else 10 * Pow10(n - 1)
  }

  lemma Pow10At19()
    ensures Pow10(19) == 10_000_000_000_000_000_000
  {
    assert Pow10(4) == 10_000;
    assert Pow10(8) == 100_000_000;
    assert Pow10(12) == 1_000_000_000_000;
    assert Pow10(16) == 10_000_000_000_000_000;
  }

  lemma {:induction false} Pow10Monotone(m: nat, n: nat)
    requires m <= n
    ensures Pow10(m) <= Pow10(n)
    decreases n
  {
    if m < n {
      Pow10Monotone(m, n - 1);
    }
  }

  /** Fills a 20-byte buffer from the end; a negative version gives no digits. */
  method FormatVersion(version: int) returns (text: seq<Byte>)
    requires -0x8000_0000_0000_0000 <= version < 0x8000_0000_0000_0000
    ensures version >= 0 ==> text == Decimal(version)
    ensures version < 0 ==> text == []
  {
    if version == 0 {
      return [ZERO_DIGIT];
    }
    var buffer := new Byte[20];
    var position := 20;
    var rest := version;
    while rest > 0
      invariant 0 <= position <= 20 && buffer.Length == 20
      invariant version < 0 ==> rest == version && position == 20
      invariant version > 0 ==> 0 <= rest && rest * Pow10(20 - position) <= version
      invariant version > 0 && rest > 0 ==> Decimal(version) == Decimal(rest) + buffer[position..]
      invariant version > 0 && rest == 0 ==> Decimal(version) == buffer[position..]
    {
      DigitsFit(version, rest, 20 - position);
      ghost var printed := buffer[position..];
      position := position - 1;
      buffer[position] := 48 + rest % 10;
      assert buffer[position..] == [48 + rest % 10] + printed;
      ScaleDown(rest, Pow10(19 - position), version);
      rest := rest / 10;
    }
    return buffer[position..];
  }

  /** A version below 2^63 leaves room: while digits remain, fewer than 19 have been written. */
  lemma DigitsFit(version: int, rest: int, written: nat)
    requires 0 < version < 0x8000_0000_0000_0000 && rest > 0 && rest * Pow10(written) <= version
    ensures written < 19
  {
    if written >= 19 {
      Pow10Monotone(19, written);
      Pow10At19();
      Words.MulMonotone(1, rest, Pow10(written));
    }
  }

  lemma ScaleDown(rest: int, scale: nat, version: int)
    requires rest > 0 && rest * scale <= version
    ensures rest / 10 * (10 * scale) <= version
  {
    var q := rest / 10;
    assert q * 10 <= rest;
    assert q * (10 * scale) == (q * 10) * scale;
    Words.MulMonotone(q * 10, rest, scale);
  }

  /** strconv.ParseInt in base 10 for 64 bits: an optional sign, digits, and a range check. */
  function ParseInt(text: seq<Byte>): Option<int> {
    if text == [] then None
    else
      var signed := text[0] == PLUS || text[0] == MINUS;
      var digits := if signed then text[1..] else text;
      if digits == [] || exists c <- digits :: !IsDigit(c) then None
      else
        var magnitude: int := DigitsValue(digits);
        if text[0] == MINUS then
          if magnitude <= 0x8000_0000_0000_0000 then Some(-magnitude) else None
        else if magnitude < 0x8000_0000_0000_0000 then Some(magnitude)
        else None
  }

  /** The cursor a connection resumes after: absent and malformed ids are a cold start. */
  function CursorOf(lastEventId: seq<Byte>): int {
    if lastEventId == [] then 0 else ParseInt(lastEventId).GetOr(0)
  }

  /** The id of a version reads back as that version. */
  lemma VersionIdRoundTrip(version: nat)
    requires version < 0x8000_0000_0000_0000
    ensures CursorOf(Decimal(version)) == version
  {
    var text := Decimal(version);
    assert IsDigit(text[0]);
    DecimalRoundTrip(version);
  }

  // ----- printing

  /** bytes.Split on a line feed. */
  function SplitLf(data: seq<Byte>): (lines: seq<seq<Byte>>)
    ensures |lines| >= 1
    decreases |data|
  {
    if LF !in data then [data]
    else
      var i := IndexOf(data, LF);
      [data[..i]] + SplitLf(data[i + 1..])
  }

  function IndexOf(data: seq<Byte>, c: Byte): (i: nat)
    requires c in data
    ensures i < |data| && data[i] == c && c !in data[..i]
  {
    if data[0] == c then 0 else
      var i := IndexOf(data[1..], c) + 1;
      assert data[..i] == [data[0]] + data[1..][..i - 1];
      i
  }

  /** Each line with its line feed. */
  function Unlines(lines: seq<seq<Byte>>): seq<Byte> {
    if lines == [] then [] else lines[0] + [LF] + Unlines(lines[1..])
  }

  function Field(name: seq<Byte>, value: seq<Byte>): seq<Byte> {
    name + [COLON, SPACE] + value
  }

  function DataLines(lines: seq<seq<Byte>>): seq<seq<Byte>> {
    if lines == [] then [] else [Field(DATA, lines[0])] + DataLines(lines[1..])
  }

  /** The lines of one frame, the blank one included. */
  function FrameLines(id: seq<Byte>, event: seq<Byte>, data: seq<Byte>): seq<seq<Byte>> {
    (if id != [] then [Field(ID, id)] else [])
    + (if event != [] then [Field(EVENT, event)] else [])
    + DataLines(SplitLf(data))
    + [[]]
  }

  /** The connection's response body. */
  class ResponseWriter {
    var body: seq<Byte>

    constructor ()
      ensures body == []
    {
      body := [];
    }

    method Write(bytes: seq<Byte>)
      modifies this
      ensures body == old(body) + bytes
    {
      body := body + bytes;
    }

    method WriteEvent(id: seq<Byte>, event: seq<Byte>, data: seq<Byte>)
      modifies this
      ensures body == old(body) + Unlines(FrameLines(id, event, data))
    {
      hide Unlines, DataLines, Field;
      ghost var before := body;
      ghost var head: seq<seq<Byte>> := [];
      UnlinesNone();
      if id != [] {
        Write(Field(ID, id) + [LF]);
        head := [Field(ID, id)];
        UnlinesOne(Field(ID, id));
      }
      if event != [] {
        Write(Field(EVENT, event) + [LF]);
        UnlinesAppend(head, Field(EVENT, event));
        head := head + [Field(EVENT, event)];
      }
      assert body == before + Unlines(head);
      var lines := SplitLf(data);
      assert head + DataLines(lines[..0]) == head;
      for i := 0 to |lines|
        invariant body == before + Unlines(head + DataLines(lines[..i]))
      {
        Write(Field(DATA, lines[i]) + [LF]);
        DataLinesAppend(lines, i);
        assert head + DataLines(lines[..i + 1]) == head + DataLines(lines[..i]) + [Field(DATA, lines[i])];
        UnlinesAppend(head + DataLines(lines[..i]), Field(DATA, lines[i]));
      }
      assert lines[..|lines|] == lines;
      Write([LF]);
      UnlinesAppend(head + DataLines(lines), []);
      assert [] + [LF] == [LF];
      assert FrameLines(id, event, data) == head + DataLines(lines) + [[]];
    }

    method WriteKeepAlive()
      modifies this
      ensures body == old(body) + Unlines(KEEP_ALIVE_LINES)
    {
      Write(KEEP_ALIVE + [LF, LF]);
      assert KEEP_ALIVE_LINES[1..] == [[]] && KEEP_ALIVE_LINES[1..][1..] == [];
      assert Unlines([[]]) == [LF];
    }
  }

  /** A comment frame. */
  const KEEP_ALIVE: seq<Byte> := [58, 32, 107, 101, 101, 112, 45, 97, 108, 105, 118, 101]
  const KEEP_ALIVE_LINES: seq<seq<Byte>> := [KEEP_ALIVE, []]

  lemma {:induction false} UnlinesConcat(a: seq<seq<Byte>>, b: seq<seq<Byte>>)
    ensures Unlines(a + b) == Unlines(a) + Unlines(b)
  {
    if a == [] {
      assert a + b == b;
    } else {
      UnlinesConcat(a[1..], b);
      assert (a + b)[1..] == a[1..] + b && (a + b)[0] == a[0];
      ConcatAssociates(a[0] + [LF], Unlines(a[1..]), Unlines(b));
    }
  }

  lemma ConcatAssociates<T>(a: seq<T>, b: seq<T>, c: seq<T>)
    ensures a + b + c == a + (b + c)
  {
  }

  lemma UnlinesNone()
    ensures Unlines([]) == [] && DataLines([]) == []
  {
  }

  lemma UnlinesOne(line: seq<Byte>)
    ensures Unlines([line]) == line + [LF]
  {
    assert [line][1..] == [];
    assert line + [LF] + [] == line + [LF];
  }

  lemma UnlinesAppend(lines: seq<seq<Byte>>, line: seq<Byte>)
    ensures Unlines(lines + [line]) == Unlines(lines) + (line + [LF])
  {
    UnlinesConcat(lines, [line]);
    UnlinesOne(line);
  }

  lemma DataLinesAppend(lines: seq<seq<Byte>>, i: nat)
    requires i < |lines|
    ensures DataLines(lines[..i + 1]) == DataLines(lines[..i]) + [Field(DATA, lines[i])]
  {
    assert lines[..i + 1] == lines[..i] + [lines[i]];
    DataLinesConcat(lines[..i], [lines[i]]);
    var one := [lines[i]];
    assert one[1..] == [];
  }

  lemma {:induction false} DataLinesConcat(a: seq<seq<Byte>>, b: seq<seq<Byte>>)
    ensures DataLines(a + b) == DataLines(a) + DataLines(b)
  {
    if a == [] {
      assert a + b == b;
    } else {
      DataLinesConcat(a[1..], b);
      assert (a + b)[1..] == a[1..] + b;
    }
  }

  // ----- reading: section 9.2.6 of the WHATWG HTML Standard

  /** Complete lines of a stream; a line ends at LF, CR or CRLF, and an unfinished last line is discarded. */
  function ReadLines(stream: seq<Byte>, line: seq<Byte>): seq<seq<Byte>>
    decreases |stream|
  {
    if stream == [] then []
    else if stream[0] == LF then [line] + ReadLines(stream[1..], [])
    else if stream[0] == CR then
      [line] + ReadLines(if |stream| > 1 && stream[1] == LF then stream[2..] else stream[1..], [])
    else ReadLines(stream[1..], line + [stream[0]])
  }

  datatype ClientEvent = ClientEvent(eventType: seq<Byte>, data: seq<Byte>, lastEventId: seq<Byte>)

  /** The reader's buffers, its last event id and what it has dispatched. */
  datatype Reader = Reader(
    data: seq<Byte>,
    eventType: seq<Byte>,
    idBuffer: seq<Byte>,
    lastEventId: seq<Byte>,
    events: seq<ClientEvent>)

  function Dispatch(r: Reader): Reader {
    if r.data == [] then r.(lastEventId := r.idBuffer, eventType := [])
    else
      var text := if r.data[|r.data| - 1] == LF then r.data[..|r.data| - 1] else r.data;
      var eventType := if r.eventType == [] then MESSAGE else r.eventType;
      Reader([], [], r.idBuffer, r.idBuffer, r.events + [ClientEvent(eventType, text, r.idBuffer)])
  }

  function ProcessField(r: Reader, name: seq<Byte>, value: seq<Byte>): Reader {
    if name == EVENT then r.(eventType := value)
    else if name == DATA then r.(data := r.data + value + [LF])
    else if name == ID then (if 0 in value then r else r.(idBuffer := value))
    else r
  }

  function ProcessLine(r: Reader, line: seq<Byte>): Reader {
    if line == [] then Dispatch(r)
    else if line[0] == COLON then r
    else if COLON in line then
      var i := IndexOf(line, COLON);
      var value := line[i + 1..];
      ProcessField(r, line[..i], if value != [] && value[0] == SPACE then value[1..] else value)
    else ProcessField(r, line, [])
  }

  function ProcessLines(r: Reader, lines: seq<seq<Byte>>): Reader
    decreases |lines|
  {
    if lines == [] then r else ProcessLines(ProcessLine(r, lines[0]), lines[1..])
  }

  function Read(stream: seq<Byte>, lastEventId: seq<Byte>): Reader {
    ProcessLines(Reader([], [], lastEventId, lastEventId, []), ReadLines(stream, []))
  }

  // ----- the round trip

  datatype Item = Event(id: seq<Byte>, event: seq<Byte>, data: seq<Byte>) | KeepAlive

  predicate OneLine(text: seq<Byte>) {
    LF !in text && CR !in text
  }

  /**
   * What the server prints: one-line ids without NUL, a named one-line event, and payloads without carriage
   * returns.
   */
  predicate Printable(item: Item) {
    item.Event? ==> OneLine(item.id) && 0 !in item.id && OneLine(item.event) && item.event != [] && CR !in item.data
  }

  function LinesOf(item: Item): seq<seq<Byte>> {
    match item
    case Event(id, event, data) => FrameLines(id, event, data)
    case KeepAlive => KEEP_ALIVE_LINES
  }

  function ItemLines(items: seq<Item>): seq<seq<Byte>> {
    if items == [] then [] else LinesOf(items[0]) + ItemLines(items[1..])
  }

  /** Everything a handler writes, frames and keep-alives, in order. */
  method WriteAll(writer: ResponseWriter, items: seq<Item>)
    modifies writer
    ensures writer.body == old(writer.body) + Unlines(ItemLines(items))
  {
    hide Unlines, LinesOf, ItemLines, FrameLines;
    NoItemLines();
    assert items[..0] == [];
    for i := 0 to |items|
      invariant writer.body == old(writer.body) + Unlines(ItemLines(items[..i]))
    {
      NextItemLines(items, i);
      match items[i] {
        case Event(id, event, data) => writer.WriteEvent(id, event, data);
        case KeepAlive => writer.WriteKeepAlive();
      }
    }
    assert items[..|items|] == items;
  }

  lemma NoItemLines()
    ensures Unlines(ItemLines([])) == []
  {
  }

  lemma NextItemLines(items: seq<Item>, i: nat)
    requires i < |items|
    ensures Unlines(ItemLines(items[..i + 1])) == Unlines(ItemLines(items[..i])) + Unlines(LinesOf(items[i]))
    ensures LinesOf(items[i]) ==
            match items[i] case Event(id, event, data) => FrameLines(id, event, data) case KeepAlive => KEEP_ALIVE_LINES
  {
    hide Unlines;
    assert items[..i + 1] == items[..i] + [items[i]];
    ItemLinesConcat(items[..i], [items[i]]);
    assert [items[i]][1..] == [];
    assert ItemLines([items[i]]) == LinesOf(items[i]) + [] == LinesOf(items[i]);
    UnlinesConcat(ItemLines(items[..i]), LinesOf(items[i]));
  }

  lemma {:induction false} ItemLinesConcat(a: seq<Item>, b: seq<Item>)
    ensures ItemLines(a + b) == ItemLines(a) + ItemLines(b)
  {
    hide LinesOf;
    if a == [] {
      assert a + b == b;
    } else {
      ItemLinesConcat(a[1..], b);
      assert (a + b)[1..] == a[1..] + b && (a + b)[0] == a[0];
      ConcatAssociates(LinesOf(a[0]), ItemLines(a[1..]), ItemLines(b));
    }
  }

  /** The id a reader holds after an item; a frame without id leaves it alone. */
  function IdAfter(item: Item, lastEventId: seq<Byte>): seq<Byte> {
    if item.Event? && item.id != [] then item.id else lastEventId
  }

  function FinalId(items: seq<Item>, lastEventId: seq<Byte>): seq<Byte> {
    if items == [] then lastEventId else FinalId(items[1..], IdAfter(items[0], lastEventId))
  }

  function EventsOf(item: Item, lastEventId: seq<Byte>): seq<ClientEvent> {
    if item.Event? then [ClientEvent(item.event, item.data, IdAfter(item, lastEventId))] else []
  }

  /** The events a reader should see. */
  function Expected(items: seq<Item>, lastEventId: seq<Byte>): seq<ClientEvent> {
    if items == [] then []
    else EventsOf(items[0], lastEventId) + Expected(items[1..], IdAfter(items[0], lastEventId))
  }

  lemma {:induction false} ReadOneLine(line: seq<Byte>, read: seq<Byte>, rest: seq<Byte>)
    requires OneLine(line)
    ensures ReadLines(line + [LF] + rest, read) == [read + line] + ReadLines(rest, [])
    decreases |line|
  {
    var stream := line + [LF] + rest;
    if line == [] {
      assert stream[1..] == rest && read + line == read;
    } else {
      assert stream[1..] == line[1..] + [LF] + rest;
      ReadOneLine(line[1..], read + [line[0]], rest);
      assert read + [line[0]] + line[1..] == read + line;
    }
  }

  lemma {:induction false} ReadPrintedLines(lines: seq<seq<Byte>>)
    requires forall line <- lines :: OneLine(line)
    ensures ReadLines(Unlines(lines), []) == lines
  {
    if lines != [] {
      assert lines[0] in lines && forall l :: l in lines[1..] ==> l in lines;
      ReadPrintedLines(lines[1..]);
      ReadOneLine(lines[0], [], Unlines(lines[1..]));
      assert [] + lines[0] == lines[0];
    }
  }

  lemma {:induction false} ProcessConcat(r: Reader, a: seq<seq<Byte>>, b: seq<seq<Byte>>)
    ensures ProcessLines(r, a + b) == ProcessLines(ProcessLines(r, a), b)
    decreases |a|
  {
    if a == [] {
      assert a + b == b;
    } else {
      assert (a + b)[1..] == a[1..] + b;
      ProcessConcat(ProcessLine(r, a[0]), a[1..], b);
    }
  }

  /** The first colon of a printed field ends its name. */
  lemma FieldNameEnds(name: seq<Byte>, value: seq<Byte>)
    requires COLON !in name
    ensures COLON in Field(name, value) && IndexOf(Field(name, value), COLON) == |name|
  {
    hide IndexOf;
    var line := Field(name, value);
    assert line[|name|] == COLON;
    assert forall j :: 0 <= j < |name| ==> line[j] == name[j] != COLON;
    var i := IndexOf(line, COLON);
    assert forall j :: 0 <= j < i ==> line[j] == line[..i][j] != COLON;
  }

  lemma FieldRead(r: Reader, name: seq<Byte>, value: seq<Byte>)
    requires name in {ID, EVENT, DATA}
    ensures ProcessLine(r, Field(name, value)) == ProcessField(r, name, value)
  {
    hide IndexOf, ProcessField;
    FieldNameEnds(name, value);
    var line := Field(name, value);
    assert line[..|name|] == name;
    assert line[|name| + 1..] == [SPACE] + value;
    assert ([SPACE] + value)[1..] == value;
  }

  lemma DataFieldRead(r: Reader, value: seq<Byte>)
    ensures ProcessLine(r, Field(DATA, value)) == r.(data := r.data + (value + [LF]))
  {
    hide Field, ProcessLine;
    FieldRead(r, DATA, value);
    assert |DATA| != |EVENT|;
    assert r.data + value + [LF] == r.data + (value + [LF]);
  }

  lemma {:induction false} DataRead(r: Reader, lines: seq<seq<Byte>>)
    ensures ProcessLines(r, DataLines(lines)) == r.(data := r.data + Unlines(lines))
    decreases |lines|
  {
    hide ProcessLine, Field;
    if lines == [] {
      assert r.data + Unlines([]) == r.data;
    } else {
      var next := r.(data := r.data + (lines[0] + [LF]));
      DataFieldRead(r, lines[0]);
      DataRead(next, lines[1..]);
      assert r.data + (lines[0] + [LF]) + Unlines(lines[1..]) == r.data + (lines[0] + [LF] + Unlines(lines[1..]));
      assert DataLines(lines)[0] == Field(DATA, lines[0]) && DataLines(lines)[1..] == DataLines(lines[1..]);
    }
  }

  lemma {:induction false} JoinAfterSplit(data: seq<Byte>)
    ensures Unlines(SplitLf(data)) == data + [LF]
    decreases |data|
  {
    if LF !in data {
      assert [data][1..] == [];
      assert Unlines([data]) == data + [LF] + Unlines([]);
    } else {
      var i := IndexOf(data, LF);
      JoinAfterSplit(data[i + 1..]);
      var lines := SplitLf(data);
      assert lines[1..] == SplitLf(data[i + 1..]);
      assert data == data[..i] + [LF] + data[i + 1..];
    }
  }

  lemma {:induction false} SplitLinesClean(data: seq<Byte>)
    requires CR !in data
    ensures forall line <- SplitLf(data) :: OneLine(line)
    decreases |data|
  {
    if LF in data {
      var i := IndexOf(data, LF);
      assert forall c :: c in data[i + 1..] || c in data[..i] ==> c in data;
      SplitLinesClean(data[i + 1..]);
    }
  }

  lemma {:induction false} DataLinesClean(lines: seq<seq<Byte>>)
    requires forall line <- lines :: OneLine(line)
    ensures forall line <- DataLines(lines) :: OneLine(line)
  {
    if lines != [] {
      assert lines[0] in lines && forall l :: l in lines[1..] ==> l in lines;
      DataLinesClean(lines[1..]);
      FieldClean(DATA, lines[0]);
    }
  }

  lemma FieldClean(name: seq<Byte>, value: seq<Byte>)
    requires name in {ID, EVENT, DATA} && OneLine(value)
    ensures OneLine(Field(name, value))
  {
  }

  lemma FrameRead(r: Reader, id: seq<Byte>, event: seq<Byte>, data: seq<Byte>)
    requires Printable(Event(id, event, data)) && r.data == []
    ensures var after := IdAfter(Event(id, event, data), r.idBuffer);
            ProcessLines(r, FrameLines(id, event, data))
            == Reader([], [], after, after, r.events + [ClientEvent(event, data, after)])
  {
    var idLines := if id != [] then [Field(ID, id)] else [];
    var eventLines := [Field(EVENT, event)];
    var dataLines := DataLines(SplitLf(data));
    var after := IdAfter(Event(id, event, data), r.idBuffer);
    assert FrameLines(id, event, data) == idLines + (eventLines + (dataLines + [[]]));
    ProcessConcat(r, idLines, eventLines + (dataLines + [[]]));
    if id != [] {
      FieldRead(r, ID, id);
      OneLineProcessed(r, Field(ID, id));
    }
    var r1 := r.(idBuffer := after);
    assert ProcessLines(r, idLines) == r1;
    ProcessConcat(r1, eventLines, dataLines + [[]]);
    FieldRead(r1, EVENT, event);
    OneLineProcessed(r1, Field(EVENT, event));
    var r2 := r1.(eventType := event);
    ProcessConcat(r2, dataLines, [[]]);
    DataRead(r2, SplitLf(data));
    JoinAfterSplit(data);
    var r3 := r2.(data := data + [LF]);
    assert r2.data + (data + [LF]) == data + [LF];
    OneLineProcessed(r3, []);
    assert (data + [LF])[..|data|] == data;
  }

  lemma OneLineProcessed(r: Reader, line: seq<Byte>)
    ensures ProcessLines(r, [line]) == ProcessLine(r, line)
  {
    assert [line][1..] == [];
  }

  lemma ProcessNothing(r: Reader)
    ensures ProcessLines(r, []) == r
  {
  }

  lemma KeepAliveRead(r: Reader)
    requires r.data == [] && r.eventType == [] && r.idBuffer == r.lastEventId
    ensures ProcessLines(r, KEEP_ALIVE_LINES) == r
  {
    assert KEEP_ALIVE_LINES[1..] == [[]];
    OneLineProcessed(r, []);
  }

  lemma ItemRead(r: Reader, item: Item)
    requires Printable(item)
    requires r.data == [] && r.eventType == [] && r.idBuffer == r.lastEventId
    ensures var after := IdAfter(item, r.lastEventId);
            ProcessLines(r, LinesOf(item)) == Reader([], [], after, after, r.events + EventsOf(item, r.lastEventId))
  {
    hide ProcessLines, FrameLines;
    match item {
      case Event(id, event, data) => FrameRead(r, id, event, data);
      case KeepAlive =>
        KeepAliveRead(r);
        assert r.events + [] == r.events;
    }
  }

  lemma {:induction false} ItemsRead(r: Reader, items: seq<Item>)
    requires forall item <- items :: Printable(item)
    requires r.data == [] && r.eventType == [] && r.idBuffer == r.lastEventId
    ensures var id := FinalId(items, r.lastEventId);
            ProcessLines(r, ItemLines(items)) == Reader([], [], id, id, r.events + Expected(items, r.lastEventId))
    decreases |items|
  {
    hide ProcessLines, LinesOf, EventsOf, IdAfter, Printable;
    ProcessNothing(r);
    if items != [] {
      assert items[0] in items && forall i :: i in items[1..] ==> i in items;
      ItemRead(r, items[0]);
      ProcessConcat(r, LinesOf(items[0]), ItemLines(items[1..]));
      var after := IdAfter(items[0], r.lastEventId);
      var next := Reader([], [], after, after, r.events + EventsOf(items[0], r.lastEventId));
      ItemsRead(next, items[1..]);
      assert r.events + EventsOf(items[0], r.lastEventId) + Expected(items[1..], after) ==
             r.events + Expected(items, r.lastEventId);
    } else {
      assert r.events + [] == r.events;
    }
  }

  lemma ItemClean(item: Item)
    requires Printable(item)
    ensures forall line <- LinesOf(item) :: OneLine(line)
  {
    hide Field;
    match item {
      case Event(id, event, data) =>
        FieldClean(ID, id);
        FieldClean(EVENT, event);
        SplitLinesClean(data);
        DataLinesClean(SplitLf(data));
      case KeepAlive =>
    }
  }

  lemma {:induction false} ItemLinesClean(items: seq<Item>)
    requires forall item <- items :: Printable(item)
    ensures forall line <- ItemLines(items) :: OneLine(line)
  {
    hide LinesOf, OneLine, Printable;
    if items != [] {
      assert items[0] in items && forall i :: i in items[1..] ==> i in items;
      ItemLinesClean(items[1..]);
      ItemClean(items[0]);
    }
  }

  /** Reading any printed sequence of frames and keep-alives gives the same events, payloads and final cursor. */
  lemma StreamRoundTrip(items: seq<Item>, lastEventId: seq<Byte>)
    requires forall item <- items :: Printable(item)
    ensures Read(Unlines(ItemLines(items)), lastEventId).events == Expected(items, lastEventId)
    ensures Read(Unlines(ItemLines(items)), lastEventId).lastEventId == FinalId(items, lastEventId)
  {
    ItemLinesClean(items);
    ReadPrintedLines(ItemLines(items));
    ItemsRead(Reader([], [], lastEventId, lastEventId, []), items);
    assert [] + Expected(items, lastEventId) == Expected(items, lastEventId);
  }
}
