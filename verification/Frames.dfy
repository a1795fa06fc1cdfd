/** What a well-formed control stream is, and that the frame reader returns exactly it. */
module Frames {
  import opened Bytes
  import opened Records
  import opened ControlCodec
  import Collector

  // --- Header lines ------------------------------------------------------------------------

  function HeaderBody(kind: bytes, id: FrameID): bytes {
    "%" + kind + " " + Dec(id.time) + " " + Dec(id.number) + " " + Dec(id.flags)
  }

  /** The begin, end and error lines tmux writes. */
  function HeaderLine(kind: bytes, id: FrameID): bytes {
    HeaderBody(kind, id) + "\n"
  }

  predicate ValidID(id: FrameID) {
    id.time <= MAX_UINT64 && id.number <= MAX_UINT64 && id.flags <= 1
  }

  /** Visible ASCII, which no field separator contains. */
  predicate Ink(s: bytes) {
    forall i :: 0 <= i < |s| ==> 0x21 <= s[i] as int < 0x7f
  }

  /** One byte of a field, or the gap that ends one. */
  lemma FieldsStep(s: bytes, word: bytes)
    requires s != []
    ensures SpaceLen(s) == 0 ==> FieldsOf(s, word) == FieldsOf(s[1..], word + [s[0]])
    ensures SpaceLen(s) > 0 && word != [] ==> FieldsOf(s, word) == [word] + FieldsOf(s[SpaceLen(s)..], [])
  {
  }

  lemma InkSpace(s: bytes)
    requires s != [] && 0x21 <= s[0] as int < 0x7f
    ensures SpaceLen(s) == 0
  {
  }

  lemma {:induction false} FieldsWord(w: bytes, rest: bytes, acc: bytes)
    requires Ink(w)
    ensures FieldsOf(w + rest, acc) == FieldsOf(rest, acc + w)
    decreases |w|
  {
    hide FieldsOf, SpaceLen;
    if w == [] {
      assert w + rest == rest && acc + w == acc;
    } else {
      assert (w + rest)[1..] == w[1..] + rest;
      InkSpace(w + rest);
      FieldsStep(w + rest, acc);
      FieldsWord(w[1..], rest, acc + [w[0]]);
      assert acc + [w[0]] + w[1..] == acc + w;
    }
  }

  lemma FieldsNext(w: bytes, rest: bytes)
    requires Ink(w) && w != []
    ensures FieldsOf(w + (" " + rest), []) == [w] + FieldsOf(rest, [])
  {
    FieldsWord(w, " " + rest, []);
    assert [] + w == w && (" " + rest)[1..] == rest;
  }

  lemma {:induction false} DecInk(n: nat)
    ensures Ink(Dec(n))
  {
    if n >= 10 {
      DecInk(n / 10);
    }
  }

  lemma {:induction false} UintForward(n: nat, rest: bytes)
    ensures UintFrom(Dec(n) + rest, 0) == if n <= MAX_UINT64 then UintFrom(rest, n) else None
  {
    if n < 10 {
      assert (Dec(n) + rest)[1..] == rest;
    } else {
      var d := Digit(n % 10);
      assert Dec(n) + rest == Dec(n / 10) + ([d] + rest);
      UintForward(n / 10, [d] + rest);
      assert ([d] + rest)[1..] == rest;
    }
  }

  lemma ParseUintDec(n: nat)
    ensures ParseUint(Dec(n)) == if n <= MAX_UINT64 then Some(n) else None
  {
    UintForward(n, []);
    assert Dec(n) + [] == Dec(n);
  }

  lemma FieldsLast(w: bytes, end: bytes)
    requires Ink(w) && w != [] && (end == [] || end == "\n")
    ensures FieldsOf(w + end, []) == [w]
  {
    FieldsWord(w, end, []);
    assert [] + w == w;
    if end == "\n" {
      assert end[1..] == [];
    }
  }

  lemma Shape(a: bytes, b: bytes, c: bytes, d: bytes, end: bytes)
    ensures a + " " + b + " " + c + " " + d + end == a + (" " + (b + (" " + (c + (" " + (d + end))))))
  {
    Assoc(a + " " + b + " " + c + " ", d, end);
    Assoc(a + " " + b + " " + c, " ", d + end);
    Assoc(a + " " + b + " ", c, " " + (d + end));
    Assoc(a + " " + b, " ", c + (" " + (d + end)));
    Assoc(a + " ", b, " " + (c + (" " + (d + end))));
    Assoc(a, " ", b + (" " + (c + (" " + (d + end)))));
  }

  lemma HeaderFields(kind: bytes, id: FrameID, end: bytes)
    requires Ink(kind) && (end == [] || end == "\n")
    ensures FieldsOf(HeaderBody(kind, id) + end, []) == ["%" + kind, Dec(id.time), Dec(id.number), Dec(id.flags)]
  {
    hide FieldsOf, Dec;
    var a, b, c, d := "%" + kind, Dec(id.time), Dec(id.number), Dec(id.flags);
    DecInk(id.time);
    DecInk(id.number);
    DecInk(id.flags);
    Shape(a, b, c, d, end);
    FieldsNext(a, b + (" " + (c + (" " + (d + end)))));
    FieldsNext(b, c + (" " + (d + end)));
    FieldsNext(c, d + end);
    FieldsLast(d, end);
    assert [a] + ([b] + ([c] + [d])) == [a, b, c, d];
  }

  /** A line of one kind is refused as any other. */
  lemma OtherKind(kind: bytes, id: FrameID, other: bytes)
    requires Ink(kind) && other != kind
    ensures FrameHeader(HeaderLine(kind, id), other) == None
  {
    assert TrimNewline(HeaderLine(kind, id)) == HeaderBody(kind, id);
    assert HeaderBody(kind, id) + [] == HeaderBody(kind, id);
    HeaderFields(kind, id, []);
    assert ("%" + kind)[1..] == kind && ("%" + other)[1..] == other;
  }

  /** frameHeader reads back the identity tmux printed exactly where that is one, and as no other kind. */
  lemma HeaderRoundTrip(kind: bytes, id: FrameID)
    requires Ink(kind)
    ensures FrameHeader(HeaderLine(kind, id), kind) == if ValidID(id) then Some(id) else None
    ensures forall other: bytes :: other != kind ==> FrameHeader(HeaderLine(kind, id), other) == None
    ensures !IsDSCTrailer(HeaderLine(kind, id))
  {
    forall other: bytes | other != kind ensures FrameHeader(HeaderLine(kind, id), other) == None {
      OtherKind(kind, id, other);
    }
    assert TrimNewline(HeaderLine(kind, id)) == HeaderBody(kind, id);
    assert HeaderBody(kind, id) + [] == HeaderBody(kind, id);
    HeaderFields(kind, id, []);
    HeaderFields(kind, id, "\n");
    ParseUintDec(id.time);
    ParseUintDec(id.number);
    ParseUintDec(id.flags);
  }

  // --- Lines -----------------------------------------------------------------------------------

  /** A whole line: one line feed, at the end. */
  predicate WholeLine(line: bytes) {
    line != [] && line[|line| - 1] == '\n' && '\n' !in line[..|line| - 1]
  }

  lemma LineForward(line: bytes, rest: bytes, max: int)
    requires WholeLine(line) && !IsDSCTrailer(line) && |line| <= max
    ensures LineAt(line + rest, max) == Line(line)
  {
    var n := |line|;
    assert (line + rest)[..n - 1] == line[..n - 1] && (line + rest)[..n] == line;
    LineLenAt(line + rest, n);
  }

  lemma HeaderWhole(kind: bytes, id: FrameID)
    requires Ink(kind)
    ensures WholeLine(HeaderLine(kind, id))
  {
    DecInk(id.time);
    DecInk(id.number);
    DecInk(id.flags);
    var body := HeaderBody(kind, id);
    assert forall i :: 0 <= i < |body| ==> body[i] != '\n';
    assert HeaderLine(kind, id)[..|body|] == body;
  }

  // --- Frame contents ----------------------------------------------------------------------------

  /** What tmux writes between a begin and an end line. */
  datatype Item =
    | Record(fields: seq<bytes>)
    | Broken(count: nat, before: seq<bytes>, size: nat, value: bytes)   // a torn record, and on to a line's end
    | Marker(line: bytes)
    | Notice(line: bytes)        // an interleaved notification
    | Diagnostic(line: bytes)    // any other line, as a failing command prints

  /** A line that neither ends the frame nor opens one, and is no record. */
  predicate BodyLine(line: bytes, max: int) {
    && WholeLine(line) && !IsDSCTrailer(line) && |line| <= max
    && !(RECORD_PREFIX <= line) && !(END_PREFIX <= line) && !(ERROR_PREFIX <= line) && !(BEGIN_PREFIX <= line)
  }

  predicate ValidItem(item: Item, max: int, decodes: bytes -> bool) {
    match item
    case Record(fields) => |fields| <= MAX_RECORD_FIELDS
    case Broken(count, before, size, value) =>
      && |before| < count <= MAX_RECORD_FIELDS && TornValue(size, value)
      && '\n' !in value[size + 1..] && !IsDSCTrailer(value[size + 1..] + "\n")
    case Marker(line) => BodyLine(line, max) && IsAllowedMarker(line)
    case Notice(line) => BodyLine(line, max) && line[0] == '%' && decodes(line)
    case Diagnostic(line) => BodyLine(line, max) && !IsAllowedMarker(line) && !(line[0] == '%' && decodes(line))
  }

  function ItemBytes(item: Item): bytes {
    match item
    case Record(fields) => Encode(fields)
    case Broken(count, before, size, value) => Torn(count, before, size, value + "\n")
    case Marker(line) => line
    case Notice(line) => line
    case Diagnostic(line) => line
  }

  function ItemData(item: Item): bytes {
    if item.Notice? then [] else ItemBytes(item)
  }

  function BytesOf(items: seq<Item>): bytes {
    if items == [] then [] else ItemBytes(items[0]) + BytesOf(items[1..])
  }

  function DataOf(items: seq<Item>): bytes {
    if items == [] then [] else ItemData(items[0]) + DataOf(items[1..])
  }

  function NoticesOf(items: seq<Item>): seq<bytes> {
    if items == [] then []
    else (if items[0].Notice? then [items[0].line] else []) + NoticesOf(items[1..])
  }

  function After(item: Item, st: FrameState): FrameState {
    match item
    case Record(_) => st.(used := st.used + |ItemBytes(item)|, data := st.data + ItemBytes(item))
    case Broken(_, _, _, _) => st.(used := st.used + |ItemBytes(item)|, data := st.data + ItemBytes(item))
    case Marker(line) => st.(used := st.used + |line|, data := st.data + line)
    case Notice(line) => st.(published := st.published + [line])
    case Diagnostic(line) => st.(used := st.used + |line|, data := st.data + line, ordinary := true)
  }

  lemma NoRecordAhead(line: bytes, rest: bytes)
    requires WholeLine(line) && !(RECORD_PREFIX <= line) && |line + rest| >= 5
    ensures (line + rest)[..5] != RECORD_PREFIX
  {
    if |line| < 5 {
      assert (line + rest)[..5][|line| - 1] == '\n';
    } else {
      assert (line + rest)[..5] == line[..5];
    }
  }

  lemma ItemStep(item: Item, rest: bytes, id: FrameID, max: int, st: FrameState, decodes: bytes -> bool)
    requires ValidItem(item, max, decodes) && |rest| >= 5
    requires 0 <= st.used && st.used + |ItemData(item)| <= max <= MAX_INT64
    ensures FrameAt(ItemBytes(item) + rest, id, max, st, decodes)
         == Grow(|ItemBytes(item)|, FrameAt(rest, id, max, After(item, st), decodes))
  {
    hide FrameAt, Encode, Torn, RecordAt, LineAt, IsDSCTrailer;
    var t := ItemBytes(item) + rest;
    assert t[|ItemBytes(item)|..] == rest;
    if item.Record? {
      RecordAhead(item.fields, rest, max - st.used);
      assert t[..|ItemBytes(item)|] == ItemBytes(item);
      FrameChunk(t, id, max, st, decodes, Some(|ItemBytes(item)|));
    } else if item.Broken? {
      BrokenAhead(item, rest, max - st.used, max, decodes);
      assert t[..|ItemBytes(item)|] == ItemBytes(item);
      FrameChunk(t, id, max, st, decodes, Some(|ItemBytes(item)|));
    } else {
      NoRecordAhead(item.line, rest);
      LineForward(item.line, rest, max);
      FrameLine(t, id, max, st, decodes, Line(item.line));
      assert LineStep(item.line, id, st, decodes) == Next(After(item, st));
    }
  }

  lemma RecordAhead(fields: seq<bytes>, rest: bytes, left: int)
    requires |fields| <= MAX_RECORD_FIELDS && |Encode(fields)| <= left <= MAX_INT64
    ensures |Encode(fields)| >= 5 && (Encode(fields) + rest)[..5] == RECORD_PREFIX
    ensures ChunkAt(Encode(fields) + rest, left) == Some(|Encode(fields)|)
  {
    hide RecordAt;
    RecordRoundTrip(fields, rest, left);
  }

  /** A torn record is taken to the end of its line. */
  lemma BrokenAhead(item: Item, rest: bytes, left: int, max: int, decodes: bytes -> bool)
    requires item.Broken? && ValidItem(item, max, decodes) && |ItemBytes(item)| <= left <= MAX_INT64
    ensures |ItemBytes(item)| >= 5 && (ItemBytes(item) + rest)[..5] == RECORD_PREFIX
    ensures ChunkAt(ItemBytes(item) + rest, left) == Some(|ItemBytes(item)|)
  {
    hide RecordAt, LineAt, EncodeHeader, EncodeFields, Dec, IsDSCTrailer;
    var line, n := item.value + "\n", TornUsed(item.count, item.before, item.size);
    var text := ItemBytes(item);
    assert text + rest == Torn(item.count, item.before, item.size, line + rest);
    HeaderLong(item.count);
    TornRefused(item.count, item.before, item.size, line + rest, left);
    var end := line[item.size + 1..];
    assert (line + rest)[item.size + 1..] == end + rest && end == item.value[item.size + 1..] + "\n";
    LineForward(end, rest, left - n);
  }

  /**
   * A value one byte shorter than declared makes its record take the line after it, even the one that ends the frame:
   * the scanner has the comma for the value's last byte and the line feed where it expects the comma.
   */
  lemma ShrunkTakesEnd(count: nat, before: seq<bytes>, v: bytes, id: FrameID, rest: bytes, left: int)
    requires |before| < count <= MAX_RECORD_FIELDS
    requires |Torn(count, before, |v| + 1, v + ",\n" + HeaderLine("end", id))| <= left <= MAX_INT64
    ensures var text := Torn(count, before, |v| + 1, v + ",\n" + HeaderLine("end", id));
      ChunkAt(text + rest, left) == Some(|text|)
  {
    hide Torn, HeaderBody, IsDSCTrailer, ChunkAt, WholeLine;
    var body := HeaderBody("end", id);
    var value := v + ",\n" + body;
    HeaderRoundTrip("end", id);
    HeaderWhole("end", id);
    BodyWhole(body);
    assert value + "\n" == v + ",\n" + HeaderLine("end", id) && value[|v| + 2..] == body;
    BrokenAhead(Broken(count, before, |v| + 1, value), rest, left, 0, _ => false);
  }

  lemma BodyWhole(body: bytes)
    requires WholeLine(body + "\n")
    ensures '\n' !in body
  {
    assert (body + "\n")[..|body|] == body;
  }

  lemma NoItems(items: seq<Item>, tail: bytes, st: FrameState)
    requires items == []
    ensures BytesOf(items) + tail == tail && BytesOf(items) == [] && DataOf(items) == [] && NoticesOf(items) == []
    ensures st.data + [] == st.data && st.published + [] == st.published
  {
  }

  /** The first item and the others. */
  lemma ItemsParts(items: seq<Item>, st: FrameState)
    requires items != []
    ensures BytesOf(items) == ItemBytes(items[0]) + BytesOf(items[1..])
    ensures DataOf(items) == ItemData(items[0]) + DataOf(items[1..])
    ensures NoticesOf(items) == (if items[0].Notice? then [items[0].line] else []) + NoticesOf(items[1..])
    ensures After(items[0], st).used == st.used + |ItemData(items[0])|
    ensures After(items[0], st).ordinary <==> st.ordinary || items[0].Diagnostic?
  {
    hide Encode;
  }

  lemma LongEnough(a: bytes, b: bytes)
    ensures |a + b| >= |b|
  {
  }

  lemma {:induction false} ItemsStep(items: seq<Item>, tail: bytes, id: FrameID, max: int, st: FrameState,
                                     decodes: bytes -> bool)
    returns (end: FrameState)
    requires (forall item <- items :: ValidItem(item, max, decodes)) && |tail| >= 5
    requires 0 <= st.used && st.used + |DataOf(items)| <= max <= MAX_INT64
    ensures FrameAt(BytesOf(items) + tail, id, max, st, decodes)
         == Grow(|BytesOf(items)|, FrameAt(tail, id, max, end, decodes))
    ensures end.used == st.used + |DataOf(items)| && end.data == st.data + DataOf(items)
    ensures end.published == st.published + NoticesOf(items)
    ensures end.ordinary <==> st.ordinary || exists item <- items :: item.Diagnostic?
  {
    hide *;
    if items == [] {
      NoItems(items, tail, st);
      GrowNone(FrameAt(tail, id, max, st, decodes));
      return st;
    }
    var item, more := items[0], items[1..];
    var rest := BytesOf(more) + tail;
    ItemsParts(items, st);
    LongEnough(BytesOf(more), tail);
    Assoc(ItemBytes(item), BytesOf(more), tail);
    ItemStep(item, rest, id, max, st, decodes);
    end := ItemsStep(more, tail, id, max, After(item, st), decodes);
    GrowTwice(|ItemBytes(item)|, |BytesOf(more)|, FrameAt(tail, id, max, end, decodes));
    AfterJoins(item, st, DataOf(more), NoticesOf(more));
    DiagnosticsOf(items);
  }

  lemma DiagnosticsOf(items: seq<Item>)
    requires items != []
    ensures (exists item <- items :: item.Diagnostic?)
       <==> items[0].Diagnostic? || exists item <- items[1..] :: item.Diagnostic?
  {
    assert items == [items[0]] + items[1..];
  }

  lemma GrowNone(r: FrameResult)
    ensures Grow(0, r) == r
  {
  }

  lemma AfterJoins(item: Item, st: FrameState, data: bytes, notices: seq<bytes>)
    ensures After(item, st).data + data == st.data + (ItemData(item) + data)
    ensures After(item, st).published + notices == st.published + ((if item.Notice? then [item.line] else []) + notices)
  {
    hide Encode;
  }

  function EndKind(failed: bool): bytes {
    if failed then "error" else "end"
  }

  /**
   * A frame's body reads back as exactly its records, markers and diagnostics, with its notifications
   * published in order and the reader left just after the end line. A diagnostic requires an error end.
   */
  lemma FrameRoundTrip(items: seq<Item>, id: FrameID, failed: bool, begin: nat, rest: bytes, max: int,
                       decodes: bytes -> bool)
    requires ValidID(id) && forall item <- items :: ValidItem(item, max, decodes)
    requires (exists item <- items :: item.Diagnostic?) ==> failed
    requires begin <= max <= MAX_INT64 && |HeaderLine(EndKind(failed), id)| <= max
    ensures var text := BytesOf(items) + HeaderLine(EndKind(failed), id);
      FrameAt(text + rest, id, max, FrameState(begin, [], false, []), decodes)
        == Frame(DataOf(items), failed, NoticesOf(items), |text|)
      <==> begin + |DataOf(items)| <= max
  {
    hide FrameAt, FrameHeader, HeaderBody, ValidItem;
    var end := HeaderLine(EndKind(failed), id);
    var text := BytesOf(items) + end;
    var start := FrameState(begin, [], false, []);
    var r := FrameAt(text + rest, id, max, start, decodes);
    FrameWithinLimit(text + rest, id, max, begin, start, decodes);
    if begin + |DataOf(items)| <= max {
      Assoc(BytesOf(items), end, rest);
      EndLong(EndKind(failed), id);
      var st := ItemsStep(items, end + rest, id, max, start, decodes);
      assert [] + DataOf(items) == DataOf(items) && [] + NoticesOf(items) == NoticesOf(items);
      EndStep(id, failed, rest, max, st, decodes);
    }
  }

  lemma EndLong(kind: bytes, id: FrameID)
    ensures |HeaderLine(kind, id)| >= 5
  {
  }

  lemma EndStep(id: FrameID, failed: bool, rest: bytes, max: int, st: FrameState, decodes: bytes -> bool)
    requires ValidID(id) && (st.ordinary ==> failed)
    requires |HeaderLine(EndKind(failed), id)| <= max
    ensures FrameAt(HeaderLine(EndKind(failed), id) + rest, id, max, st, decodes)
         == Frame(st.data, failed, st.published, |HeaderLine(EndKind(failed), id)|)
  {
    hide FrameAt, FrameHeader, HeaderBody, HeaderLine, LineAt, IsDSCTrailer, WholeLine;
    var end := HeaderLine(EndKind(failed), id);
    EndLong(EndKind(failed), id);
    HeaderRoundTrip(EndKind(failed), id);
    HeaderWhole(EndKind(failed), id);
    EndLooks(failed, id);
    NoRecordAhead(end, rest);
    LineForward(end, rest, max);
    FrameLine(end + rest, id, max, st, decodes, Line(end));
  }

  lemma EndLooks(failed: bool, id: FrameID)
    ensures var end := HeaderLine(EndKind(failed), id);
      !(RECORD_PREFIX <= end) && (if failed then ERROR_PREFIX <= end && !(END_PREFIX <= end) else END_PREFIX <= end)
  {
    var end := HeaderLine(EndKind(failed), id);
    assert end[0] == '%' && end[1] == 'e' && end[2] == EndKind(failed)[1];
    if failed {
      assert end[..7] == ERROR_PREFIX;
    } else {
      assert end[..5] == END_PREFIX;
    }
  }

  /**
   * What ends a frame: of the begin, end and error lines tmux can write after a body that fits, exactly the end and
   * error lines with the frame's own identity, and of those an end line only where there was no diagnostic. Any other
   * loses the frame, whose notifications have been published.
   */
  lemma FrameEndsExactly(items: seq<Item>, id: FrameID, kind: bytes, other: FrameID, begin: nat, rest: bytes, max: int,
                         decodes: bytes -> bool)
    requires ValidID(id) && forall item <- items :: ValidItem(item, max, decodes)
    requires kind == "begin" || kind == "end" || kind == "error"
    requires begin + |DataOf(items)| <= max <= MAX_INT64 && |HeaderLine(kind, other)| <= max
    ensures
      var r := FrameAt(BytesOf(items) + HeaderLine(kind, other) + rest, id, max, FrameState(begin, [], false, []),
                       decodes);
      && (r.Frame? <==>
            kind != "begin" && other == id && (kind == "error" || !exists item <- items :: item.Diagnostic?))
      && (!r.Frame? ==> r == NoFrame(NoticesOf(items)))
  {
    hide FrameAt, FrameHeader, HeaderBody, HeaderLine, ValidItem, Grow;
    var end := HeaderLine(kind, other);
    var start := FrameState(begin, [], false, []);
    Assoc(BytesOf(items), end, rest);
    EndLong(kind, other);
    var st := ItemsStep(items, end + rest, id, max, start, decodes);
    assert [] + NoticesOf(items) == NoticesOf(items);
    EndOutcome(id, kind, other, rest, max, st, decodes);
    GrowKeeps(|BytesOf(items)|, FrameAt(end + rest, id, max, st, decodes));
  }

  lemma GrowKeeps(n: nat, r: FrameResult)
    ensures Grow(n, r).Frame? <==> r.Frame?
    ensures r.NoFrame? ==> Grow(n, r) == r
  {
  }

  lemma EndOutcome(id: FrameID, kind: bytes, other: FrameID, rest: bytes, max: int, st: FrameState,
                   decodes: bytes -> bool)
    requires ValidID(id) && |HeaderLine(kind, other)| <= max && |HeaderLine(kind, other)| >= 5
    requires kind == "begin" || kind == "end" || kind == "error"
    ensures var r := FrameAt(HeaderLine(kind, other) + rest, id, max, st, decodes);
      && (r.Frame? <==> kind != "begin" && other == id && (kind == "error" || !st.ordinary))
      && (!r.Frame? ==> r == NoFrame(st.published))
  {
    hide FrameAt, FrameHeader, HeaderBody, HeaderLine, LineAt, IsDSCTrailer, WholeLine;
    var end := HeaderLine(kind, other);
    HeaderRoundTrip(kind, other);
    HeaderWhole(kind, other);
    KindLooks(kind, other);
    NoRecordAhead(end, rest);
    LineForward(end, rest, max);
    FrameLine(end + rest, id, max, st, decodes, Line(end));
  }

  lemma KindLooks(kind: bytes, id: FrameID)
    requires kind == "begin" || kind == "end" || kind == "error"
    ensures var line := HeaderLine(kind, id);
      && !(RECORD_PREFIX <= line)
      && (END_PREFIX <= line <==> kind == "end") && (ERROR_PREFIX <= line <==> kind == "error")
      && (BEGIN_PREFIX <= line <==> kind == "begin")
  {
    var line := HeaderLine(kind, id);
    assert line[1] == kind[0] && line[2] == kind[1];
    assert END_PREFIX[2] == 'n' && ERROR_PREFIX[2] == 'r' && BEGIN_PREFIX[1] == 'b';
    if kind == "begin" {
      BeginLooks(id);
    } else {
      EndLooks(kind == "error", id);
    }
  }

  /**
   * Of the successful frames the reader accepts, the collector can drop with their data only those that start as a
   * TGO-DONE: or TGO-READY: token: everything else is kept.
   */
  lemma OnlyTokensDropped(s: bytes, id: FrameID, max: int, begin: nat, decodes: bytes -> bool)
    ensures var r := FrameAt(s, id, max, FrameState(begin, [], false, []), decodes);
      r.Frame? && !r.failed && !Collector.Retained(Collector.Frame(id.flags, r.data, false)) ==>
        DONE_PREFIX <= r.data || READY_PREFIX <= r.data
  {
    hide FrameAt;
    FrameLibrary(s, id, max, FrameState(begin, [], false, []), decodes);
  }

  // --- Streams -----------------------------------------------------------------------------------

  /** What tmux sends: a frame, or a notification between frames. */
  datatype Sent = SentFrame(id: FrameID, items: seq<Item>, failed: bool) | SentEvent(line: bytes)

  predicate ValidSent(u: Sent, max: int, decodes: bytes -> bool) {
    match u
    case SentEvent(line) =>
      && WholeLine(line) && !IsDSCTrailer(line) && |line| <= max && decodes(line) && line[0] != ESC
      && !(BEGIN_PREFIX <= line) && !(END_PREFIX <= line) && !(ERROR_PREFIX <= line)
    case SentFrame(id, items, failed) =>
      && ValidID(id) && (forall item <- items :: ValidItem(item, max, decodes))
      && ((exists item <- items :: item.Diagnostic?) ==> failed)
      && |HeaderLine("begin", id)| + |DataOf(items)| <= max && |HeaderLine(EndKind(failed), id)| <= max
  }

  function SentBytes(u: Sent): bytes {
    match u
    case SentEvent(line) => line
    case SentFrame(id, items, failed) => HeaderLine("begin", id) + (BytesOf(items) + HeaderLine(EndKind(failed), id))
  }

  function Received(u: Sent): Unit {
    match u
    case SentEvent(line) => EventUnit(line)
    case SentFrame(id, items, failed) => FrameUnit(id, DataOf(items), failed, NoticesOf(items))
  }

  function StreamBytes(us: seq<Sent>): bytes {
    if us == [] then [] else SentBytes(us[0]) + StreamBytes(us[1..])
  }

  function ReceivedAll(us: seq<Sent>): seq<Unit> {
    if us == [] then [] else [Received(us[0])] + ReceivedAll(us[1..])
  }

  lemma UnitLine(s: bytes, line: bytes, body: bytes, max: int, decodes: bytes -> bool)
    requires s == line + body && line != [] && line[0] != ESC && LineAt(s, max) == Line(line)
    ensures UnitAt(s, max, decodes) == UnitFrom(line, body, max, decodes)
  {
    hide LineAt, UnitFrom;
    assert StreamReader.PreambleLen(s) == 0 && s[0..] == s && s[|line|..] == body;
  }

  lemma UnitForward(u: Sent, rest: bytes, max: int, decodes: bytes -> bool)
    requires ValidSent(u, max, decodes) && max <= MAX_INT64
    ensures UnitAt(SentBytes(u) + rest, max, decodes) == GotUnit(Received(u), |SentBytes(u)|)
  {
    match u {
      case SentEvent(line) =>
        LineForward(line, rest, max);
        UnitLine(line + rest, line, rest, max, decodes);
      case SentFrame(id, items, failed) => FrameForward(id, items, failed, rest, max, decodes);
    }
  }

  lemma FrameForward(id: FrameID, items: seq<Item>, failed: bool, rest: bytes, max: int, decodes: bytes -> bool)
    requires ValidSent(SentFrame(id, items, failed), max, decodes) && max <= MAX_INT64
    ensures var u := SentFrame(id, items, failed);
      UnitAt(SentBytes(u) + rest, max, decodes) == GotUnit(Received(u), |SentBytes(u)|)
  {
    hide *;
    var begin, end := HeaderLine("begin", id), HeaderLine(EndKind(failed), id);
    var text := BytesOf(items) + end;
    SentFits(id, items, failed, max, decodes);
    FrameBody(id, items, failed, rest, max, decodes);
    BeginAhead(id, text + rest, max);
    Assoc(begin, text, rest);
    UnitLine(begin + (text + rest), begin, text + rest, max, decodes);
    FrameFrom(begin, id, text + rest, max, decodes, Frame(DataOf(items), failed, NoticesOf(items), |text|));
    FrameShape(id, items, failed);
  }

  lemma FrameShape(id: FrameID, items: seq<Item>, failed: bool)
    ensures var u := SentFrame(id, items, failed);
      && SentBytes(u) == HeaderLine("begin", id) + (BytesOf(items) + HeaderLine(EndKind(failed), id))
      && Received(u) == FrameUnit(id, DataOf(items), failed, NoticesOf(items))
  {
  }

  lemma BeginAhead(id: FrameID, rest: bytes, max: int)
    requires ValidID(id) && |HeaderLine("begin", id)| <= max
    ensures var begin := HeaderLine("begin", id);
      && begin != [] && begin[0] != ESC && BEGIN_PREFIX <= begin && LineAt(begin + rest, max) == Line(begin)
      && FrameHeader(begin, "begin") == Some(id)
  {
    hide FrameHeader, LineAt, IsDSCTrailer, WholeLine, HeaderLine;
    HeaderRoundTrip("begin", id);
    HeaderWhole("begin", id);
    BeginLooks(id);
    LineForward(HeaderLine("begin", id), rest, max);
  }

  lemma FrameFrom(begin: bytes, id: FrameID, body: bytes, max: int, decodes: bytes -> bool, frame: FrameResult)
    requires BEGIN_PREFIX <= begin && FrameHeader(begin, "begin") == Some(id) && frame.Frame?
    requires FrameAt(body, id, max, FrameState(|begin|, [], false, []), decodes) == frame
    ensures UnitFrom(begin, body, max, decodes)
         == GotUnit(FrameUnit(id, frame.data, frame.failed, frame.published), |begin| + frame.size)
  {
    hide FrameAt, FrameHeader;
  }

  lemma SentFits(id: FrameID, items: seq<Item>, failed: bool, max: int, decodes: bytes -> bool)
    requires ValidSent(SentFrame(id, items, failed), max, decodes)
    ensures ValidID(id) && |HeaderLine("begin", id)| <= max
  {
    hide ValidItem, HeaderLine;
  }

  lemma FrameBody(id: FrameID, items: seq<Item>, failed: bool, rest: bytes, max: int, decodes: bytes -> bool)
    requires ValidSent(SentFrame(id, items, failed), max, decodes) && max <= MAX_INT64
    ensures var text := BytesOf(items) + HeaderLine(EndKind(failed), id);
      FrameAt(text + rest, id, max, FrameState(|HeaderLine("begin", id)|, [], false, []), decodes)
      == Frame(DataOf(items), failed, NoticesOf(items), |text|)
  {
    hide FrameAt, HeaderLine, ValidItem;
    FrameRoundTrip(items, id, failed, |HeaderLine("begin", id)|, rest, max, decodes);
  }

  lemma BeginLooks(id: FrameID)
    ensures BEGIN_PREFIX <= HeaderLine("begin", id) && HeaderLine("begin", id)[0] == '%'
  {
    assert HeaderLine("begin", id)[..7] == BEGIN_PREFIX;
  }

  /**
   * Whatever frames and notifications tmux sends, the reader takes exactly those, in order, and goes
   * on with what follows: no record content is ever mistaken for framing.
   */
  lemma {:induction false} StreamRoundTrip(us: seq<Sent>, rest: bytes, max: int, decodes: bytes -> bool)
    requires (forall u <- us :: ValidSent(u, max, decodes)) && max <= MAX_INT64
    ensures UnitsAt(StreamBytes(us) + rest, max, decodes) == ReceivedAll(us) + UnitsAt(rest, max, decodes)
  {
    hide UnitAt, ValidSent, SentBytes, Received;
    if us == [] {
      assert StreamBytes(us) + rest == rest && [] + UnitsAt(rest, max, decodes) == UnitsAt(rest, max, decodes);
    } else {
      var head, more := SentBytes(us[0]), StreamBytes(us[1..]) + rest;
      Assoc(head, StreamBytes(us[1..]), rest);
      UnitForward(us[0], more, max, decodes);
      StreamRoundTrip(us[1..], rest, max, decodes);
      assert (head + more)[|head|..] == more;
      assert [Received(us[0])] + (ReceivedAll(us[1..]) + UnitsAt(rest, max, decodes))
          == [Received(us[0])] + ReceivedAll(us[1..]) + UnitsAt(rest, max, decodes);
    }
  }

  // --- What ends a stream ---------------------------------------------------------------------------

  /** A line outside a frame: an end or error line, or one that is no notification, is no unit, whatever follows. */
  lemma LineRefused(line: bytes, rest: bytes, max: int, decodes: bytes -> bool)
    requires WholeLine(line) && !IsDSCTrailer(line) && |line| <= max && line[0] != ESC
    ensures var r := UnitAt(line + rest, max, decodes);
      && (END_PREFIX <= line || ERROR_PREFIX <= line || (!(BEGIN_PREFIX <= line) && !decodes(line)) ==> r == NoUnit)
      && (!(BEGIN_PREFIX <= line) && r.GotUnit? ==> r == GotUnit(EventUnit(line), |line|))
  {
    hide FrameHeader, FrameAt, LineAt, IsDSCTrailer;
    LineForward(line, rest, max);
    UnitLine(line + rest, line, rest, max, decodes);
    assert BEGIN_PREFIX[1] == 'b' && END_PREFIX[1] == 'e' && ERROR_PREFIX[1] == 'e';
  }

  /** A begin line that names no identity, or that another body than one the reader accepts follows, is no unit. */
  lemma BeginRefused(id: FrameID, rest: bytes, max: int, decodes: bytes -> bool)
    requires |HeaderLine("begin", id)| <= max
    ensures var line := HeaderLine("begin", id);
      var frame := FrameAt(rest, id, max, FrameState(|line|, [], false, []), decodes);
      UnitAt(line + rest, max, decodes).GotUnit? <==> ValidID(id) && frame.Frame?
  {
    hide FrameHeader, FrameAt, LineAt, IsDSCTrailer, HeaderLine, WholeLine;
    var line := HeaderLine("begin", id);
    HeaderRoundTrip("begin", id);
    HeaderWhole("begin", id);
    BeginLooks(id);
    LineForward(line, rest, max);
    UnitLine(line + rest, line, rest, max, decodes);
  }

  /** A line over the limit is refused for that, what lacks its line feed ends the input, and neither is a unit. */
  lemma LongRefused(line: bytes, rest: bytes, max: int, decodes: bytes -> bool)
    requires '\n' !in line && (line == [] || line[0] != ESC)
    ensures LineAt(line, max) == if 0 < max && |line| <= max then EndOfInput else OverLimit
    ensures UnitAt(line, max, decodes) == NoUnit
    ensures |line| + 1 > max ==>
      LineAt(line + "\n" + rest, max) == OverLimit && UnitAt(line + "\n" + rest, max, decodes) == NoUnit
  {
    hide UnitFrom, IsDSCTrailer;
    var t := line + "\n" + rest;
    assert line + [] == line && t == line + ("\n" + rest);
    LineLenAfter(line, []);
    LineLenAfter(line, "\n" + rest);
    assert StreamReader.PreambleLen(line) == StreamReader.PreambleLen(t) == 0 && line[0..] == line && t[0..] == t;
  }

  /** Blanks: what TrimSpace takes from a line, as far as ASCII goes. */
  predicate Blank(s: bytes) {
    forall c <- s :: c == ' ' || 9 <= c as int <= 13
  }

  lemma {:induction false} FieldsBlank(s: bytes, rest: bytes)
    requires Blank(s)
    ensures FieldsOf(s + rest, []) == FieldsOf(rest, [])
    decreases |s|
  {
    hide SpaceLen, FieldsOf;
    if s == [] {
      assert s + rest == rest;
    } else {
      assert s[0] in s && (s + rest)[1..] == s[1..] + rest && forall c <- s[1..] :: c in s;
      FieldsGap(s + rest);
      FieldsBlank(s[1..], rest);
    }
  }

  /** A blank outside a field is passed over. */
  lemma FieldsGap(s: bytes)
    requires s != [] && (s[0] == ' ' || 9 <= s[0] as int <= 13)
    ensures FieldsOf(s, []) == FieldsOf(s[1..], [])
  {
    assert SpaceLen(s) == 1;
    assert [] + FieldsOf(s[1..], []) == FieldsOf(s[1..], []);
  }

  /** The DSC terminator ends the stream: at its head, or as a line with blanks around it. */
  lemma TrailerEnds(left: bytes, right: bytes, rest: bytes, max: int, decodes: bytes -> bool)
    requires Blank(left) && Blank(right) && '\n' !in left && '\n' !in right
    ensures UnitAt([ESC, '\\'] + rest, max, decodes) == NoUnit
    ensures UnitAt(left + [ESC, '\\'] + right + "\n" + rest, max, decodes) == NoUnit
  {
    hide UnitFrom, FieldsOf;
    var bare, line := [ESC, '\\'] + rest, left + [ESC, '\\'] + right + "\n";
    NoPreamble(bare);
    assert [ESC, '\\'] <= bare;
    var t := line + rest;
    assert left == [] ==> t[0] == ESC && t[1] == '\\';
    assert left != [] ==> left[0] in left && t[0] == left[0];
    NoPreamble(t);
    if left != [] {
      assert t[0..] == t;
      TrailerLine(left, right);
      LineLenAt(t, |line|);
      assert t[..|line|] == line;
    } else {
      assert t == [ESC, '\\'] + (right + "\n" + rest);
    }
  }

  lemma NoPreamble(s: bytes)
    requires s == [] || s[0] != ESC || (|s| > 1 && s[1] != 'P')
    ensures StreamReader.PreambleLen(s) == 0
  {
    assert |s| >= 7 ==> s[..7][0] == s[0] && s[..7][1] == s[1];
  }

  lemma TrailerLine(left: bytes, right: bytes)
    requires Blank(left) && Blank(right)
    ensures IsDSCTrailer(left + [ESC, '\\'] + right + "\n")
  {
    var end: bytes := right + "\n";
    assert left + [ESC, '\\'] + right + "\n" == left + ([ESC, '\\'] + end);
    FieldsBlank(left, [ESC, '\\'] + end);
    FieldsTrailer(end);
  }

  lemma FieldsTrailer(end: bytes)
    requires Blank(end) && end != []
    ensures FieldsOf([ESC, '\\'] + end, []) == [[ESC, '\\']]
  {
    hide FieldsOf, SpaceLen;
    var s, t := [ESC, '\\'] + end, ['\\'] + end;
    assert s[1..] == t && t[1..] == end && [] + [ESC] == [ESC] && [ESC] + ['\\'] == [ESC, '\\'];
    assert end[0] in end && forall c <- end[1..] :: c in end;
    TrailerSpaces(end);
    FieldsStep(s, []);
    FieldsStep(t, [ESC]);
    FieldsStep(end, [ESC, '\\']);
    FieldsBlank(end[1..], []);
    assert end[1..] + [] == end[1..];
    assert FieldsOf([], []) == [] by { NoFields(); }
  }

  lemma TrailerSpaces(end: bytes)
    requires end != [] && (end[0] == ' ' || 9 <= end[0] as int <= 13)
    ensures SpaceLen([ESC, '\\'] + end) == 0 && SpaceLen(['\\'] + end) == 0 && SpaceLen(end) == 1
  {
  }

  lemma NoFields()
    ensures FieldsOf([], []) == []
  {
  }

  // --- Over a terminal ---------------------------------------------------------------------------

  lemma SentLead(u: Sent, rest: bytes, max: int, decodes: bytes -> bool)
    requires ValidSent(u, max, decodes)
    ensures SentBytes(u) + rest != [] && (SentBytes(u) + rest)[0] != ESC
  {
    hide ValidItem, HeaderLine, BytesOf;
    match u {
      case SentEvent(_) =>
      case SentFrame(id, _, _) => BeginLooks(id);
    }
  }

  /** A preamble before a stream changes none of its units. */
  lemma PreambleBefore(t: bytes, max: int, decodes: bytes -> bool)
    requires t != [] ==> t[0] != ESC
    ensures UnitsAt(StreamReader.PREAMBLE + t, max, decodes) == UnitsAt(t, max, decodes)
  {
    hide UnitAt;
    var s, r := StreamReader.PREAMBLE + t, UnitAt(t, max, decodes);
    UnitBehind(t, max, decodes);
    if r.GotUnit? {
      assert s[7 + r.size..] == t[r.size..];
    }
  }

  lemma UnitBehind(t: bytes, max: int, decodes: bytes -> bool)
    requires t != [] ==> t[0] != ESC
    ensures UnitAt(StreamReader.PREAMBLE + t, max, decodes) == Behind(7, UnitAt(t, max, decodes))
  {
    hide LineAt, UnitFrom;
    var s := StreamReader.PREAMBLE + t;
    assert s[7..] == t && StreamReader.PreambleLen(s) == 7 && StreamReader.PreambleLen(t) == 0 && t[0..] == t;
    var line := LineAt(t, max);
    if line.Line? {
      LineIsNext(t, max);
      assert s[7 + |line.line|..] == t[|line.line|..];
    }
  }

  /** A unit found n bytes further on. */
  function Behind(n: nat, r: UnitResult): UnitResult {
    match r
    case NoUnit => NoUnit
    case GotUnit(u, size) => GotUnit(u, n + size)
  }

  lemma NoUnits(max: int, decodes: bytes -> bool)
    ensures UnitsAt([], max, decodes) == []
  {
  }

  /**
   * Over a terminal that sends each LF as CR LF, behind its preamble: whatever frames and notifications tmux sends,
   * with whatever CRs in their records, and whether or not the first chunk of length first holds the preamble whole,
   * the stripped stream is read as exactly those.
   */
  lemma TerminalRoundTrip(us: seq<Sent>, first: nat, max: int, decodes: bytes -> bool)
    requires (forall u <- us :: ValidSent(u, max, decodes)) && max <= MAX_INT64
    ensures var data := StreamReader.PREAMBLE + StreamReader.Onlcr(StreamBytes(us));
      UnitsAt(if first >= 7 then StreamReader.Strip(data[7..]) else StreamReader.Strip(data), max, decodes)
        == ReceivedAll(us)
  {
    hide UnitsAt, ValidSent, SentBytes, StreamReader.Strip, StreamReader.Onlcr;
    var s := StreamBytes(us);
    var sent := StreamReader.Onlcr(s);
    var data := StreamReader.PREAMBLE + sent;
    assert data[7..] == sent;
    StreamReader.StripUndoesOnlcr(s);
    StreamReader.StripNoCR(StreamReader.PREAMBLE, sent);
    StreamRoundTrip(us, [], max, decodes);
    NoUnits(max, decodes);
    assert s + [] == s && ReceivedAll(us) + [] == ReceivedAll(us);
    if us != [] {
      SentLead(us[0], StreamBytes(us[1..]), max, decodes);
    }
    PreambleBefore(s, max, decodes);
  }
}
