/**
 * A client of an event stream, after sections 9.2.5 and 9.2.6 of the WHATWG HTML Standard, working
 * on bytes: line ends, the leading byte order mark, fields, and the dispatch of events.
 */
module EventStream {
  import opened Wrappers

  type Bytes = seq<byte>

  const LF: byte := 10
  const CR: byte := 13
  const COLON: byte := 58
  const SPACE: byte := 32
  const BOM: Bytes := [0xEF, 0xBB, 0xBF]
  const DATA: Bytes := [100, 97, 116, 97]
  const EVENT: Bytes := [101, 118, 101, 110, 116]
  const ID: Bytes := [105, 100]
  const RETRY: Bytes := [114, 101, 116, 114, 121]
  const MESSAGE: Bytes := [109, 101, 115, 115, 97, 103, 101]

  datatype Event = Event(kind: Bytes, data: Bytes, id: Bytes)

  /**
   * The client's state: is the first line still open, was the last byte a carriage return, the
   * partial line, the three buffers, the last event id in force, the retry time, the events so far.
   */
  datatype Client = Client(first: bool, afterCR: bool, line: Bytes, data: Bytes, kind: Bytes, id: Bytes,
                           lastId: Bytes, retry: Option<Bytes>, events: seq<Event>)

  const FRESH := Client(true, false, [], [], [], [], [], None, [])

  /** The event type a type buffer stands for. */
  function EffectiveKind(kind: Bytes): Bytes {
    if kind == [] then MESSAGE else kind
  }

  function Dispatch(q: Client): Client {
    var ready := q.(lastId := q.id, data := [], kind := []);
    if q.data == [] then ready
    else ready.(events := q.events + [Event(EffectiveKind(q.kind), q.data[..|q.data| - 1], q.id)])
  }

  /** The position of the first colon, or the length of the line. */
  function Cut(line: Bytes): (n: nat)
    ensures n <= |line|
  {
    if line == [] || line[0] == COLON then 0 else 1 + Cut(line[1..])
  }

  function FieldName(line: Bytes): Bytes {
    line[..Cut(line)]
  }

  function FieldValue(line: Bytes): Bytes {
    var n := Cut(line);
    if n == |line| then []
    else if n + 1 < |line| && line[n + 1] == SPACE then line[n + 2..]
    else line[n + 1..]
  }

  predicate Digits(value: Bytes) {
    forall b :: b in value ==> 48 <= b <= 57
  }

  /** The fields a client knows. */
  datatype FieldKind = EventField | DataField | IdField | RetryField | UnknownField

  function KindOf(name: Bytes): FieldKind {
    if name == EVENT then EventField
    else if name == DATA then DataField
    else if name == ID then IdField
    else if name == RETRY then RetryField
    else UnknownField
  }

  function Field(q: Client, kind: FieldKind, value: Bytes): Client {
    match kind
    case EventField => q.(kind := value)
    case DataField => q.(data := q.data + value + [LF])
    case IdField => if 0 in value then q else q.(id := value)
    case RetryField => if Digits(value) then q.(retry := Some(value)) else q
    case UnknownField => q
  }

  function ProcessLine(q: Client, line: Bytes): (r: Client)
    ensures r.line == q.line && r.first == q.first && r.afterCR == q.afterCR
  {
    if line == [] then Dispatch(q)
    else if line[0] == COLON then q
    else Field(q, KindOf(FieldName(line)), FieldValue(line))
  }

  /** The text of a line: the first line of the stream loses a leading byte order mark. */
  function Text(first: bool, line: Bytes): Bytes {
    if first && BOM <= line then line[3..] else line
  }

  function EndLine(q: Client): (r: Client)
    ensures r.line == [] && !r.first && r.afterCR == q.afterCR
  {
    ProcessLine(q.(line := [], first := false), Text(q.first, q.line))
  }

  function Receive(q: Client, b: byte): Client {
    if b == LF then (if q.afterCR then q.(afterCR := false) else EndLine(q))
    else if b == CR then EndLine(q).(afterCR := true)
    else q.(afterCR := false, line := q.line + [b])
  }

  function Feed(q: Client, bytes: Bytes): Client {
    if bytes == [] then q else Receive(Feed(q, bytes[..|bytes| - 1]), bytes[|bytes| - 1])
  }

  /** The events a client has seen once these bytes have arrived. */
  function Events(bytes: Bytes): seq<Event> {
    Feed(FRESH, bytes).events
  }

  lemma {:induction false} FeedConcat(q: Client, a: Bytes, b: Bytes)
    ensures Feed(q, a + b) == Feed(Feed(q, a), b)
  {
    if b == [] {
      assert a + b == a;
    } else {
      assert (a + b)[..|a + b| - 1] == a + b[..|b| - 1];
      FeedConcat(q, a, b[..|b| - 1]);
    }
  }

  /** Holds of every state a client can reach. */
  predicate Reachable(q: Client) {
    && (q.afterCR ==> q.line == [] && !q.first)
    && (q.first ==> q.data == [] && q.kind == [])
    && CR !in q.line && LF !in q.line
  }

  lemma {:induction false} FeedReachable(q: Client, bytes: Bytes)
    requires Reachable(q)
    ensures Reachable(Feed(q, bytes))
  {
    if bytes != [] {
      FeedReachable(q, bytes[..|bytes| - 1]);
    }
  }

  /** While the first line is open, it is all that has arrived. */
  lemma {:induction false} FirstLineIsAll(bytes: Bytes)
    ensures Feed(FRESH, bytes).first ==> Feed(FRESH, bytes).line == bytes
  {
    if bytes != [] {
      FirstLineIsAll(bytes[..|bytes| - 1]);
      assert bytes == bytes[..|bytes| - 1] + [bytes[|bytes| - 1]];
    }
  }

  /** Bytes other than line ends only extend the partial line. */
  lemma {:induction false} FeedText(q: Client, text: Bytes)
    requires text != [] && CR !in text && LF !in text
    ensures Feed(q, text) == q.(afterCR := false, line := q.line + text)
  {
    var init := text[..|text| - 1];
    if init == [] {
      assert Feed(q, init) == q;
      assert text == [text[0]];
    } else {
      FeedText(q, init);
      assert q.line + text == q.line + init + [text[|text| - 1]];
    }
  }

  /** A line of text, and the blank line that follows it. */
  lemma FeedBlock(q: Client, text: Bytes)
    requires text != [] && CR !in text && LF !in text
    ensures Feed(q, text + [LF, LF]) == EndLine(EndLine(q.(afterCR := false, line := q.line + text)))
  {
    FeedConcat(q, text, [LF, LF]);
    FeedText(q, text);
    var p := Feed(q, text);
    assert [LF, LF][..1] == [LF] && [LF][..0] == [];
    assert Feed(p, [LF]) == EndLine(p);
    assert !EndLine(p).afterCR;
    assert Feed(p, [LF, LF]) == EndLine(EndLine(p));
  }

  /** The line adds to the data buffer. */
  predicate IsData(line: Bytes) {
    line != [] && line[0] != COLON && KindOf(FieldName(line)).DataField?
  }

  lemma {:induction false} CutConcat(p: Bytes, s: Bytes)
    ensures Cut(p + s) == if COLON in p then Cut(p) else |p| + Cut(s)
  {
    if p == [] {
      assert p + s == s;
    } else if p[0] != COLON {
      CutConcat(p[1..], s);
      assert (p + s)[1..] == p[1..] + s;
      assert COLON in p <==> COLON in p[1..];
    }
  }

  /**
   * Appending text to a non-empty line start: if the start already holds its colon the
   * field is settled whatever follows, otherwise its name grows.
   */
  lemma IsDataConcat(p: Bytes, s: Bytes)
    requires p != []
    ensures COLON in p ==> (IsData(p + s) <==> IsData(p))
    ensures COLON !in p ==> FieldName(p + s) == p + FieldName(s)
  {
    CutConcat(p, s);
    if COLON in p {
      assert (p + s)[..Cut(p)] == p[..Cut(p)];
    } else {
      assert (p + s)[..|p| + Cut(s)] == p + s[..Cut(s)];
    }
  }

  // ---- the client against its own encoding ----

  /** One field line. */
  function FieldText(name: Bytes, value: Bytes): Bytes {
    name + [COLON, SPACE] + value
  }

  /** A data line for each of these. */
  function DataLines(lines: seq<Bytes>): Bytes {
    if lines == [] then []
    else DataLines(lines[..|lines| - 1]) + (FieldText(DATA, lines[|lines| - 1]) + [LF])
  }

  /** The data they stand for: the lines, with a line feed between each two. */
  function Joined(lines: seq<Bytes>): Bytes {
    if lines == [] then []
    else if |lines| == 1 then lines[0]
    else Joined(lines[..|lines| - 1]) + [LF] + lines[|lines| - 1]
  }

  /** The lines that announce one event: its type unless it is the default one, its id, and its data. */
  function Encode(kind: Bytes, id: Bytes, lines: seq<Bytes>): Bytes {
    (if kind == [] then [] else FieldText(EVENT, kind) + [LF])
    + ((FieldText(ID, id) + [LF]) + (DataLines(lines) + [LF]))
  }

  /** A whole line received between lines is processed as it stands. */
  lemma FeedLine(q: Client, text: Bytes)
    requires !q.first && q.line == [] && text != [] && CR !in text && LF !in text
    ensures Feed(q, text + [LF]) == ProcessLine(q.(afterCR := false), text)
  {
    FeedConcat(q, text, [LF]);
    FeedText(q, text);
    assert [] + text == text;
    var p := Feed(q, text);
    assert [LF][..0] == [];
    assert Feed(p, [LF]) == Receive(p, LF);
  }

  /** A field line splits into the name before the colon and the value after the space. */
  lemma FieldLine(name: Bytes, value: Bytes)
    requires COLON !in name
    ensures FieldName(name + [COLON, SPACE] + value) == name
    ensures FieldValue(name + [COLON, SPACE] + value) == value
  {
    var line := name + [COLON, SPACE] + value;
    assert line == name + ([COLON, SPACE] + value);
    CutConcat(name, [COLON, SPACE] + value);
    assert Cut(line) == |name|;
    assert line[..|name|] == name;
    assert line[|name| + 2..] == value;
  }

  lemma FieldEffect(q: Client, name: Bytes, value: Bytes)
    requires name == DATA || name == EVENT || name == ID
    ensures ProcessLine(q, FieldText(name, value)) == Field(q, KindOf(name), value)
  {
    assert COLON !in DATA && COLON !in EVENT && COLON !in ID;
    FieldLine(name, value);
  }

  lemma KnownFields()
    ensures KindOf(EVENT) == EventField && KindOf(DATA) == DataField && KindOf(ID) == IdField
    ensures KindOf(RETRY) == RetryField
    ensures forall name :: name !in {EVENT, DATA, ID, RETRY} ==> KindOf(name) == UnknownField
  {
    assert |EVENT| == |RETRY| == 5 && |DATA| == 4 && |ID| == 2 && EVENT[0] != RETRY[0];
  }

  /** A field line received between lines. */
  lemma FeedField(q: Client, name: Bytes, value: Bytes)
    requires name == DATA || name == EVENT || name == ID
    requires !q.first && q.line == [] && CR !in value && LF !in value
    ensures Feed(q, FieldText(name, value) + [LF]) == Field(q.(afterCR := false), KindOf(name), value)
  {
    FeedLine(q, FieldText(name, value));
    FieldEffect(q.(afterCR := false), name, value);
  }

  /** What each known field line does to a client between lines; the last one of a field counts, but data adds up. */
  lemma FieldLinesMean(q: Client, value: Bytes)
    requires !q.first && q.line == [] && CR !in value && LF !in value
    ensures Feed(q, FieldText(EVENT, value) + [LF]) == q.(afterCR := false, kind := value)
    ensures Feed(q, FieldText(DATA, value) + [LF]) == q.(afterCR := false, data := q.data + value + [LF])
    ensures 0 !in value ==> Feed(q, FieldText(ID, value) + [LF]) == q.(afterCR := false, id := value)
  {
    KnownFields();
    FeedField(q, EVENT, value);
    FeedField(q, DATA, value);
    FeedField(q, ID, value);
  }

  predicate OneLine(text: Bytes) {
    CR !in text && LF !in text
  }

  /** Each data line adds its text and a line feed to the buffer. */
  lemma {:induction false} DataBuffered(q: Client, lines: seq<Bytes>)
    requires !q.first && q.line == [] && q.data == [] && lines != []
    requires forall i :: 0 <= i < |lines| ==> OneLine(lines[i])
    ensures Feed(q, DataLines(lines)) == q.(afterCR := false, data := Joined(lines) + [LF])
  {
    var init, last := lines[..|lines| - 1], lines[|lines| - 1];
    KnownFields();
    FeedConcat(q, DataLines(init), FieldText(DATA, last) + [LF]);
    assert OneLine(last);
    if init == [] {
      assert DataLines(init) == [] && Feed(q, []) == q;
      FeedField(q, DATA, last);
      assert [] + last == last;
    } else {
      DataBuffered(q, init);
      FeedField(Feed(q, DataLines(init)), DATA, last);
    }
  }

  /** A blank line dispatches what has been buffered, less the last line feed, and clears data and type. */
  lemma BlankLine(q: Client, data: Bytes)
    requires !q.first && !q.afterCR && q.line == [] && q.data == data + [LF]
    ensures Feed(q, [LF]) ==
      q.(events := q.events + [Event(EffectiveKind(q.kind), data, q.id)], lastId := q.id, data := [], kind := [])
  {
    assert [LF][..0] == [];
    assert Feed(q, [LF]) == Receive(q, LF);
    assert (data + [LF])[..|data|] == data;
  }

  lemma DataBlock(q: Client, lines: seq<Bytes>)
    requires !q.first && q.line == [] && q.data == [] && lines != []
    requires forall i :: 0 <= i < |lines| ==> OneLine(lines[i])
    ensures Feed(q, DataLines(lines) + [LF]).events
         == q.events + [Event(EffectiveKind(q.kind), Joined(lines), q.id)]
  {
    FeedConcat(q, DataLines(lines), [LF]);
    DataBuffered(q, lines);
    BlankLine(Feed(q, DataLines(lines)), Joined(lines));
  }

  /** Id and data, received between lines. */
  lemma IdAndData(q: Client, id: Bytes, lines: seq<Bytes>)
    requires !q.first && q.line == [] && q.data == [] && OneLine(id) && 0 !in id && lines != []
    requires forall i :: 0 <= i < |lines| ==> OneLine(lines[i])
    ensures Feed(q, (FieldText(ID, id) + [LF]) + (DataLines(lines) + [LF])).events
         == q.events + [Event(EffectiveKind(q.kind), Joined(lines), id)]
  {
    FeedConcat(q, FieldText(ID, id) + [LF], DataLines(lines) + [LF]);
    FeedField(q, ID, id);
    KnownFields();
    DataBlock(Feed(q, FieldText(ID, id) + [LF]), lines);
  }

  /**
   * Whatever a server announces in this form, a client between events dispatches exactly that event:
   * its type, its id, and its lines of data joined by line feeds.
   */
  lemma RoundTrip(q: Client, kind: Bytes, id: Bytes, lines: seq<Bytes>)
    requires !q.first && q.line == [] && q.data == [] && q.kind == []
    requires OneLine(kind) && OneLine(id) && 0 !in id && lines != []
    requires forall i :: 0 <= i < |lines| ==> OneLine(lines[i])
    ensures Feed(q, Encode(kind, id, lines)).events == q.events + [Event(EffectiveKind(kind), Joined(lines), id)]
  {
    var rest := (FieldText(ID, id) + [LF]) + (DataLines(lines) + [LF]);
    if kind == [] {
      assert [] + rest == rest;
      IdAndData(q, id, lines);
    } else {
      FeedConcat(q, FieldText(EVENT, kind) + [LF], rest);
      FeedField(q, EVENT, kind);
      KnownFields();
      IdAndData(Feed(q, FieldText(EVENT, kind) + [LF]), id, lines);
    }
  }

  /** Comments, fields of other names, and ids with a null byte leave a client between lines as it is. */
  lemma IgnoredLines(q: Client, text: Bytes)
    requires !q.first && !q.afterCR && q.line == [] && text != [] && OneLine(text)
    requires || text[0] == COLON
             || FieldName(text) !in {EVENT, DATA, ID, RETRY}
             || (FieldName(text) == ID && 0 in FieldValue(text))
    ensures Feed(q, text + [LF]) == q
  {
    FeedLine(q, text);
    KnownFields();
  }

  /** The three line ends agree: LF and CR LF leave the same client, CR one that only still expects an LF. */
  lemma LineEndsAgree(q: Client)
    requires !q.afterCR
    ensures Feed(q, [CR, LF]) == Feed(q, [LF])
    ensures Feed(q, [CR]) == Feed(q, [LF]).(afterCR := true)
  {
    assert [CR, LF][..1] == [CR] && [CR][..0] == [] && [LF][..0] == [];
    assert Feed(q, [CR]) == Receive(q, CR);
    assert Feed(q, [LF]) == Receive(q, LF);
    assert Feed(q, [CR, LF]) == Receive(Feed(q, [CR]), LF);
  }
}
