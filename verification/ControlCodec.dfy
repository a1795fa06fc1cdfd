/** Control-mode framing: tmux/control_codec.go. Notification decoding is a parameter, decodes. */
module ControlCodec {
  import opened Bytes
  import opened Records
  import StreamReader

  const BUFFER_SIZE: nat := 32768   // readerBufferSize
  const MAX_UINT64: int := 0xffff_ffff_ffff_ffff
  const BEGIN_PREFIX: bytes := "%begin "
  const END_PREFIX: bytes := "%end "
  const ERROR_PREFIX: bytes := "%error "
  const DONE_PREFIX: bytes := "TGO-DONE:"
  const READY_PREFIX: bytes := "TGO-READY:"

  datatype FrameID = FrameID(time: nat, number: nat, flags: nat)

  // --- Fields of a header line -------------------------------------------------------------

  /** The width of the Unicode space at the head of s, or 0. */
  function SpaceLen(s: bytes): (n: nat)
    ensures n <= |s|
  {
    if s == [] then 0
    else if s[0] == ' ' || 9 <= s[0] as int <= 13 then 1
    else if |s| < 2 then 0
    else
      var a, b := s[0] as int, s[1] as int;
      if a == 0xc2 && (b == 0x85 || b == 0xa0) then 2
      else if |s| < 3 then 0
      else
        var c := s[2] as int;
        if a == 0xe1 && b == 0x9a && c == 0x80 then 3
        else if a == 0xe2 && b == 0x80 && (0x80 <= c <= 0x8a || c == 0xa8 || c == 0xa9 || c == 0xaf) then 3
        else if a == 0xe2 && b == 0x81 && c == 0x9f then 3
        else if a == 0xe3 && b == 0x80 && c == 0x80 then 3
        else 0
  }

  /** strings.Fields, with word the part of a field already seen. */
  function FieldsOf(s: bytes, word: bytes): seq<bytes>
    decreases |s|
  {
    if s == [] then (if word == [] then [] else [word])
    else if SpaceLen(s) > 0 then (if word == [] then [] else [word]) + FieldsOf(s[SpaceLen(s)..], [])
    else FieldsOf(s[1..], word + [s[0]])
  }

  function UintFrom(s: bytes, value: nat): Option<nat> {
    if s == [] then Some(value)
    else if !IsDigit(s[0]) || value * 10 + (s[0] as int - '0' as int) > MAX_UINT64 then None
    else UintFrom(s[1..], value * 10 + (s[0] as int - '0' as int))
  }

  /** strconv.ParseUint(s, 10, 64). */
  function ParseUint(s: bytes): Option<nat> {
    if s == [] then None else UintFrom(s, 0)
  }

  function FrameHeader(line: bytes, kind: bytes): Option<FrameID> {
    var fields := FieldsOf(TrimNewline(line), []);
    if |fields| != 4 || fields[0] != "%" + kind then None
    else
      match (ParseUint(fields[1]), ParseUint(fields[2]), ParseUint(fields[3]))
      case (Some(time), Some(number), Some(flags)) =>
        if flags > 1 then None else Some(FrameID(time, number, flags))
      case _ => None
  }

  /** bytes.TrimSpace(line) is the DSC terminator. */
  predicate IsDSCTrailer(line: bytes) {
    FieldsOf(line, []) == [[ESC, '\\']]
  }

  // --- Lines ---------------------------------------------------------------------------------

  datatype LineResult = Line(line: bytes) | OverLimit | EndOfInput

  /** The length of the first line of s with its line feed, or None where there is none. */
  function LineLen(s: bytes): (r: Option<nat>)
    ensures r.Some? ==> 0 < r.value <= |s|
  {
    if s == [] then None
    else if s[0] == '\n' then Some(1)
    else
      match LineLen(s[1..])
      case None => None
      case Some(n) => Some(n + 1)
  }

  /** boundedLine: the line at the head of s unless it is longer than limit or cut off. */
  function LineAt(s: bytes, limit: int): (r: LineResult)
    ensures r.Line? ==> 0 < |r.line| <= |s| && |r.line| <= limit && s[..|r.line|] == r.line
  {
    if limit <= 0 then OverLimit
    else
      match LineLen(s)
      case None => if |s| <= limit then EndOfInput else OverLimit
      case Some(n) =>
        if n > limit then OverLimit
        else if IsDSCTrailer(s[..n]) then EndOfInput
        else Line(s[..n])
  }

  datatype SliceEnd = AtNewline | BufferFull | AtEnd

  /** bufio.Reader.ReadSlice: through the next line feed, or a full buffer, or the rest. */
  method ReadSlice(r: Cursor) returns (part: bytes, end: SliceEnd)
    requires r.pos <= |r.data|
    modifies r
    ensures r.pos == old(r.pos) + |part| <= |r.data| && part == r.data[old(r.pos)..r.pos]
    ensures end == AtNewline ==> part != [] && part[|part| - 1] == '\n' && '\n' !in part[..|part| - 1]
    ensures end == BufferFull ==> '\n' !in part && |part| == BUFFER_SIZE
    ensures end == AtEnd ==> '\n' !in part && r.pos == |r.data|
  {
    var start := r.pos;
    var i := 0;
    while start + i < |r.data| && i < BUFFER_SIZE
      invariant 0 <= i <= BUFFER_SIZE && start + i <= |r.data|
      invariant r.pos == start && forall k :: start <= k < start + i ==> r.data[k] != '\n'
    {
      if r.data[start + i] == '\n' {
        r.pos := start + i + 1;
        return r.data[start..r.pos], AtNewline;
      }
      i := i + 1;
    }
    r.pos := start + i;
    return r.data[start..r.pos], if i == BUFFER_SIZE then BufferFull else AtEnd;
  }

  lemma {:induction false} LineLenAfter(a: bytes, b: bytes)
    requires '\n' !in a
    ensures LineLen(a + b) == (match LineLen(b) case None => None case Some(n) => Some(|a| + n))
  {
    if a == [] {
      assert a + b == b;
    } else {
      assert (a + b)[1..] == a[1..] + b;
      LineLenAfter(a[1..], b);
    }
  }

  lemma {:induction false} LineLenAt(s: bytes, n: nat)
    requires 0 < n <= |s| && s[n - 1] == '\n' && '\n' !in s[..n - 1]
    ensures LineLen(s) == Some(n)
  {
    assert s == s[..n - 1] + s[n - 1..];
    LineLenAfter(s[..n - 1], s[n - 1..]);
  }

  lemma SliceAfter(data: bytes, start: nat, n: nat, end: nat)
    requires start + n <= end <= |data|
    ensures data[start..start + n] + data[start + n..end] == data[start..][..end - start] == data[start..end]
  {
  }

  /** However the buffer splits it, a line is read whole or refused by its whole length. */
  method BoundedLine(r: Cursor, limit: int) returns (out: LineResult)
    requires r.pos <= |r.data|
    modifies r
    ensures old(r.pos) <= r.pos <= |r.data|
    ensures out == LineAt(r.data[old(r.pos)..], limit)
    ensures out.Line? ==> r.pos == old(r.pos) + |out.line|
  {
    if limit <= 0 {
      return OverLimit;
    }
    ghost var start := r.pos;
    ghost var s := r.data[start..];
    var line: bytes := [];
    while true
      invariant start <= r.pos <= |r.data| && line == r.data[start..r.pos] && |line| <= limit
      invariant '\n' !in line
      decreases |r.data| - r.pos
    {
      var part, end := ReadSlice(r);
      SliceAfter(r.data, start, |line|, r.pos);
      LineLenPrefix(s, line, part, end == AtNewline);
      if |part| > limit - |line| {
        return OverLimit;
      }
      line := line + part;
      if end == AtNewline {
        if IsDSCTrailer(line) {
          return EndOfInput;
        }
        return Line(line);
      }
      if end == AtEnd {
        assert line == s;
        return EndOfInput;
      }
    }
  }

  lemma LineLenPrefix(s: bytes, line: bytes, part: bytes, complete: bool)
    requires line + part <= s && '\n' !in line
    requires if complete then part != [] && part[|part| - 1] == '\n' && '\n' !in part[..|part| - 1] else '\n' !in part
    ensures complete ==> LineLen(s) == Some(|line| + |part|)
    ensures !complete ==> LineLen(s).None? || LineLen(s).value > |line| + |part|
  {
    var n := |line| + |part|;
    if complete {
      assert s[..n - 1] == line + part[..|part| - 1];
      LineLenAt(s, n);
    } else {
      assert s == line + part + s[n..];
      LineLenAfter(line + part, s[n..]);
    }
  }

  // --- Frames --------------------------------------------------------------------------------

  /** The length of the record chunk at the head of s: a whole record, or a torn one to the end of its line. */
  function ChunkAt(s: bytes, left: int): (r: Option<nat>)
    ensures r.Some? ==> 0 < r.value <= |s|
  {
    match RecordAt(s, left)
    case Done(_, n) => Some(n)
    case Short => None
    case Bad(n) =>
      match LineAt(s[n..], left - n)
      case Line(line) => Some(n + |line|)
      case _ => None
  }

  predicate IsAllowedMarker(line: bytes) {
    GUARD_PREFIX <= line || DONE_PREFIX <= line || READY_PREFIX <= line
  }

  datatype FrameState = FrameState(used: int, data: bytes, ordinary: bool, published: seq<bytes>)
  datatype FrameResult =
    | Frame(data: bytes, failed: bool, published: seq<bytes>, size: nat)
    | NoFrame(published: seq<bytes>)
  datatype Turn = Finished(failed: bool) | Refused | Next(st: FrameState)

  function Grow(n: nat, r: FrameResult): FrameResult {
    match r
    case Frame(data, failed, published, size) => Frame(data, failed, published, n + size)
    case NoFrame(published) => NoFrame(published)
  }

  /** processFrameLine, with the accounting readFrame does after it. */
  function LineStep(line: bytes, id: FrameID, st: FrameState, decodes: bytes -> bool): Turn {
    if END_PREFIX <= line then
      if FrameHeader(line, "end") == Some(id) && !st.ordinary then Finished(false) else Refused
    else if ERROR_PREFIX <= line then
      if FrameHeader(line, "error") == Some(id) then Finished(true) else Refused
    else if BEGIN_PREFIX <= line then Refused
    else if line != [] && line[0] == '%' && decodes(line) then Next(st.(published := st.published + [line]))
    else Next(st.(used := st.used + |line|, data := st.data + line, ordinary := st.ordinary || !IsAllowedMarker(line)))
  }

  /** The frame whose body starts at the head of s. */
  function FrameAt(s: bytes, id: FrameID, max: int, st: FrameState, decodes: bytes -> bool): (r: FrameResult)
    ensures r.Frame? ==> 0 < r.size <= |s|
    decreases |s|
  {
    if |s| < 5 then NoFrame(st.published)
    else if s[..5] == RECORD_PREFIX then
      match ChunkAt(s, max - st.used)
      case None => NoFrame(st.published)
      case Some(n) =>
        Grow(n, FrameAt(s[n..], id, max, st.(used := st.used + n, data := st.data + s[..n]), decodes))
    else
      match LineAt(s, max)
      case OverLimit => NoFrame(st.published)
      case EndOfInput => NoFrame(st.published)
      case Line(line) =>
        match LineStep(line, id, st, decodes)
        case Finished(failed) => Frame(st.data, failed, st.published, |line|)
        case Refused => NoFrame(st.published)
        case Next(next) =>
          if next.used > max then NoFrame(next.published)
          else Grow(|line|, FrameAt(s[|line|..], id, max, next, decodes))
  }

  /** readRecordWireChunk. */
  method ReadRecordWireChunk(r: Cursor, left: int64) returns (chunk: Option<bytes>)
    requires r.pos <= |r.data|
    modifies r
    ensures old(r.pos) <= r.pos <= |r.data|
    ensures ChunkAt(r.data[old(r.pos)..], left as int) == (match chunk case None => None case Some(c) => Some(|c|))
    ensures chunk.Some? ==> r.pos == old(r.pos) + |chunk.value| && chunk.value == r.data[old(r.pos)..r.pos]
  {
    hide RecordAt, LineAt;
    ghost var start := r.pos;
    var record, _, wire := ReadRecord(r, left);
    match record {
      case Done(_, _) => return Some(wire);
      case Short => return None;
      case Bad(n) =>
        assert r.data[start..][n..] == r.data[r.pos..];
        var rest := BoundedLine(r, left as int - n);
        if rest.Line? {
          LineIsNext(r.data[start + n..], left as int - n);
          return Some(wire + rest.line);
        }
        return None;
    }
  }

  lemma LineIsNext(s: bytes, limit: int)
    ensures var r := LineAt(s, limit); r.Line? ==> |r.line| <= |s| && r.line == s[..|r.line|]
  {
  }

  lemma FrameChunk(t: bytes, id: FrameID, max: int, st: FrameState, decodes: bytes -> bool, n: Option<nat>)
    requires |t| >= 5 && t[..5] == RECORD_PREFIX && n == ChunkAt(t, max - st.used)
    ensures n.None? ==> FrameAt(t, id, max, st, decodes) == NoFrame(st.published)
    ensures n.Some? ==> FrameAt(t, id, max, st, decodes) == Grow(n.value,
      FrameAt(t[n.value..], id, max, st.(used := st.used + n.value, data := st.data + t[..n.value]), decodes))
  {
    hide ChunkAt, LineAt, LineStep;
  }

  lemma FrameLine(t: bytes, id: FrameID, max: int, st: FrameState, decodes: bytes -> bool, line: LineResult)
    requires |t| >= 5 && t[..5] != RECORD_PREFIX && line == LineAt(t, max)
    ensures FrameAt(t, id, max, st, decodes) ==
      match line
      case OverLimit => NoFrame(st.published)
      case EndOfInput => NoFrame(st.published)
      case Line(l) =>
        match LineStep(l, id, st, decodes)
        case Finished(failed) => Frame(st.data, failed, st.published, |l|)
        case Refused => NoFrame(st.published)
        case Next(next) =>
          if next.used > max then NoFrame(next.published) else Grow(|l|, FrameAt(t[|l|..], id, max, next, decodes))
  {
    hide ChunkAt, LineAt, LineStep;
  }

  lemma FrameCutOff(t: bytes, id: FrameID, max: int, st: FrameState, decodes: bytes -> bool)
    requires |t| < 5
    ensures FrameAt(t, id, max, st, decodes) == NoFrame(st.published)
  {
  }

  lemma GrowTwice(n: nat, m: nat, r: FrameResult)
    ensures Grow(n, Grow(m, r)) == Grow(n + m, r)
  {
  }

  /** One turn of readFrame's loop: the frame is over or refused, or its state goes on after size bytes. */
  datatype FrameTurn = Over(out: FrameResult) | Onward(st: FrameState, size: nat)

  ghost predicate Turned(before: bytes, after: bytes, id: FrameID, max: int, st: FrameState, decodes: bytes -> bool,
                         turn: FrameTurn)
  {
    match turn
    case Over(out) => FrameAt(before, id, max, st, decodes) == out && (out.Frame? ==> |before| == |after| + out.size)
    case Onward(next, size) =>
      && 0 < size && |before| == |after| + size && 0 <= next.used <= max
      && FrameAt(before, id, max, st, decodes) == Grow(size, FrameAt(after, id, max, next, decodes))
  }

  method RecordTurn(r: Cursor, id: FrameID, max: int64, st: FrameState, decodes: bytes -> bool)
    returns (turn: FrameTurn)
    requires r.pos + 5 <= |r.data| && 0 <= st.used <= max as int && r.data[r.pos..r.pos + 5] == RECORD_PREFIX
    modifies r
    ensures old(r.pos) <= r.pos <= |r.data|
    ensures Turned(r.data[old(r.pos)..], r.data[r.pos..], id, max as int, st, decodes, turn)
  {
    hide ChunkAt, FrameAt, Grow;
    ghost var t := r.data[r.pos..];
    assert t[..5] == r.data[r.pos..r.pos + 5];
    var chunk := ReadRecordWireChunk(r, max - st.used as int64);
    FrameChunk(t, id, max as int, st, decodes, ChunkAt(t, max as int - st.used));
    if chunk == None {
      return Over(NoFrame(st.published));
    }
    var size := |chunk.value|;
    ChunkBound(t, max as int - st.used);
    assert t[..size] == chunk.value && t[size..] == r.data[r.pos..];
    return Onward(st.(used := st.used + size, data := st.data + chunk.value), size);
  }

  method LineTurn(r: Cursor, id: FrameID, max: int64, st: FrameState, decodes: bytes -> bool) returns (turn: FrameTurn)
    requires r.pos + 5 <= |r.data| && 0 <= st.used <= max as int && r.data[r.pos..r.pos + 5] != RECORD_PREFIX
    modifies r
    ensures old(r.pos) <= r.pos <= |r.data|
    ensures Turned(r.data[old(r.pos)..], r.data[r.pos..], id, max as int, st, decodes, turn)
  {
    hide LineAt, LineStep, FrameAt, Grow;
    ghost var t := r.data[r.pos..];
    assert t[..5] == r.data[r.pos..r.pos + 5];
    var line := BoundedLine(r, max as int);
    FrameLine(t, id, max as int, st, decodes, line);
    if !line.Line? {
      return Over(NoFrame(st.published));
    }
    var size := |line.line|;
    LineIsNext(t, max as int);
    assert t[size..] == r.data[r.pos..];
    match LineStep(line.line, id, st, decodes) {
      case Finished(failed) => return Over(Frame(st.data, failed, st.published, size));
      case Refused => return Over(NoFrame(st.published));
      case Next(next) =>
        if next.used > max as int {
          return Over(NoFrame(next.published));
        }
        LineStepGrows(line.line, id, st, decodes);
        return Onward(next, size);
    }
  }

  lemma GrowOver(n: nat, out: FrameResult)
    ensures Grow(0, out) == out
    ensures Grow(n, out).Frame? <==> out.Frame?
    ensures out.Frame? ==> Grow(n, out).size == n + out.size
  {
  }

  /** readFrame: on success the reader stands just after the end line. */
  method ReadFrame(r: Cursor, beginLine: bytes, max: int64, decodes: bytes -> bool) returns (out: FrameResult)
    requires r.pos <= |r.data| && |beginLine| <= max as int
    modifies r
    ensures old(r.pos) <= r.pos <= |r.data|
    ensures out == match FrameHeader(beginLine, "begin")
      case None => NoFrame([])
      case Some(id) => FrameAt(r.data[old(r.pos)..], id, max as int, FrameState(|beginLine|, [], false, []), decodes)
    ensures out.Frame? ==> r.pos == old(r.pos) + out.size
  {
    hide FrameHeader, FrameAt, Grow;
    var header := FrameHeader(beginLine, "begin");
    if header == None {
      return NoFrame([]);
    }
    var id := header.value;
    var st := FrameState(|beginLine|, [], false, []);
    ghost var start := r.pos;
    ghost var whole := FrameAt(r.data[start..], id, max as int, st, decodes);
    var n := 0;
    GrowOver(0, whole);
    while true
      invariant start <= r.pos == start + n <= |r.data| && 0 <= st.used <= max as int
      invariant whole == Grow(n, FrameAt(r.data[r.pos..], id, max as int, st, decodes))
      decreases |r.data| - r.pos
    {
      var turn: FrameTurn;
      if |r.data| - r.pos < 5 {
        FrameCutOff(r.data[r.pos..], id, max as int, st, decodes);
        turn := Over(NoFrame(st.published));
      } else if r.data[r.pos..r.pos + 5] == RECORD_PREFIX {
        turn := RecordTurn(r, id, max, st, decodes);
      } else {
        turn := LineTurn(r, id, max, st, decodes);
      }
      match turn {
        case Over(last) =>
          GrowOver(n, last);
          return Grow(n, last);
        case Onward(next, size) =>
          GrowTwice(n, size, FrameAt(r.data[r.pos..], id, max as int, next, decodes));
          st, n := next, n + size;
      }
    }
  }

  lemma ChunkBound(s: bytes, left: int)
    ensures var n := ChunkAt(s, left); n.Some? ==> n.value <= left
  {
    if RecordAt(s, left).Done? {
      RecordCanonical(s, left);
    }
  }

  lemma LineStepGrows(line: bytes, id: FrameID, st: FrameState, decodes: bytes -> bool)
    ensures var t := LineStep(line, id, st, decodes);
      t.Next? ==> t.st.used >= st.used && t.st.used - st.used == |t.st.data| - |st.data|
  {
  }

  // --- What a frame holds ----------------------------------------------------------------------

  /** On every return, the begin line and the data together are within the frame limit. */
  lemma {:induction false} FrameWithinLimit(s: bytes, id: FrameID, max: int, begin: nat, st: FrameState,
                                            decodes: bytes -> bool)
    requires st.used == begin + |st.data| <= max
    ensures var r := FrameAt(s, id, max, st, decodes); r.Frame? ==> begin + |r.data| <= max
    decreases |s|
  {
    hide ChunkAt, LineAt, LineStep;
    if |s| < 5 {
    } else if s[..5] == RECORD_PREFIX {
      var n := ChunkAt(s, max - st.used);
      if n.Some? {
        ChunkBound(s, max - st.used);
        FrameWithinLimit(s[n.value..], id, max, begin,
                         st.(used := st.used + n.value, data := st.data + s[..n.value]), decodes);
      }
    } else {
      var line := LineAt(s, max);
      if line.Line? {
        LineStepGrows(line.line, id, st, decodes);
        var t := LineStep(line.line, id, st, decodes);
        if t.Next? && t.st.used <= max {
          FrameWithinLimit(s[|line.line|..], id, max, begin, t.st, decodes);
        }
      }
    }
  }

  /** Data that starts, if it has any, as a record or a marker of the library. */
  predicate Library(data: bytes) {
    data == [] || RECORD_PREFIX <= data || IsAllowedMarker(data)
  }

  lemma LibraryGrows(data: bytes, more: bytes)
    requires Library(data) && (data == [] ==> Library(more))
    ensures Library(data + more)
  {
    assert data == [] ==> data + more == more;
  }

  /** A record chunk holds its prefix. */
  lemma ChunkLong(s: bytes, left: int)
    requires |s| >= 5 && s[..5] == RECORD_PREFIX && ChunkAt(s, left).Some?
    ensures ChunkAt(s, left).value >= 5 && RECORD_PREFIX <= s[..ChunkAt(s, left).value]
  {
    hide TailAt, DecimalAt;
    var n := ChunkAt(s, left).value;
    assert forall i :: 0 <= i < 5 ==> s[i] == s[..5][i] && s[i] != '\n';
    if RecordAt(s, left).Bad? && RecordAt(s, left).used == 0 {
      assert s[0..] == s;
      LineFrom(s, left, 5);
    }
    assert n >= 5 ==> s[..n][..5] == s[..5];
  }

  lemma {:induction false} LineFrom(s: bytes, limit: int, n: nat)
    requires n <= |s| && forall i :: 0 <= i < n ==> s[i] != '\n'
    ensures LineAt(s, limit).Line? ==> |LineAt(s, limit).line| > n
  {
    LineLenFrom(s, n);
  }

  lemma {:induction false} LineLenFrom(s: bytes, n: nat)
    requires n <= |s| && forall i :: 0 <= i < n ==> s[i] != '\n'
    ensures LineLen(s).Some? ==> LineLen(s).value > n
  {
    if n > 0 {
      LineLenFrom(s[1..], n - 1);
    }
  }

  /** A line that leaves a frame free of ordinary text leaves it the library's. */
  lemma LineLibrary(line: bytes, id: FrameID, st: FrameState, decodes: bytes -> bool)
    requires !st.ordinary ==> Library(st.data)
    ensures var turn := LineStep(line, id, st, decodes);
      && (turn.Finished? && !turn.failed ==> Library(st.data))
      && (turn.Next? && !turn.st.ordinary ==> Library(turn.st.data))
  {
    hide FrameHeader;
    if !st.ordinary && IsAllowedMarker(line) {
      LibraryGrows(st.data, line);
    }
  }

  /** A successful frame's data starts, if it has any, as a record or a marker of the library. */
  lemma {:induction false} FrameLibrary(s: bytes, id: FrameID, max: int, st: FrameState, decodes: bytes -> bool)
    requires !st.ordinary ==> Library(st.data)
    ensures var r := FrameAt(s, id, max, st, decodes); r.Frame? && !r.failed ==> Library(r.data)
    decreases |s|
  {
    hide ChunkAt, LineAt, LineStep, Library, FrameAt;
    if |s| < 5 {
      FrameCutOff(s, id, max, st, decodes);
    } else if s[..5] == RECORD_PREFIX {
      var n := ChunkAt(s, max - st.used);
      FrameChunk(s, id, max, st, decodes, n);
      if n.Some? {
        ChunkLong(s, max - st.used);
        RecordLibrary(s[..n.value]);
        if !st.ordinary {
          LibraryGrows(st.data, s[..n.value]);
        }
        FrameLibrary(s[n.value..], id, max, st.(used := st.used + n.value, data := st.data + s[..n.value]), decodes);
      }
    } else {
      var line := LineAt(s, max);
      FrameLine(s, id, max, st, decodes, line);
      if line.Line? {
        LineIsNext(s, max);
        LineLibrary(line.line, id, st, decodes);
        var turn := LineStep(line.line, id, st, decodes);
        if turn.Next? {
          FrameLibrary(s[|line.line|..], id, max, turn.st, decodes);
        }
      }
    }
  }

  lemma RecordLibrary(chunk: bytes)
    requires RECORD_PREFIX <= chunk
    ensures Library(chunk)
  {
  }

  // --- Units -----------------------------------------------------------------------------------

  datatype Unit =
    | FrameUnit(id: FrameID, data: bytes, failed: bool, published: seq<bytes>)
    | EventUnit(line: bytes)

  /** A unit and the bytes it spans. */
  datatype UnitResult = GotUnit(read: Unit, size: nat) | NoUnit

  /** What a first line leads to; body is what follows it. */
  function UnitFrom(line: bytes, body: bytes, max: int, decodes: bytes -> bool): UnitResult {
    if !(BEGIN_PREFIX <= line) then
      if END_PREFIX <= line || ERROR_PREFIX <= line || !decodes(line) then NoUnit
      else GotUnit(EventUnit(line), |line|)
    else
      match FrameHeader(line, "begin")
      case None => NoUnit
      case Some(id) =>
        match FrameAt(body, id, max, FrameState(|line|, [], false, []), decodes)
        case NoFrame(_) => NoUnit
        case Frame(data, failed, published, size) => GotUnit(FrameUnit(id, data, failed, published), |line| + size)
  }

  /** The unit at the head of s. */
  function UnitAt(s: bytes, max: int, decodes: bytes -> bool): (r: UnitResult)
    ensures r.GotUnit? ==> 0 < r.size <= |s|
  {
    var skip := StreamReader.PreambleLen(s);
    if skip == 0 && [ESC, '\\'] <= s then NoUnit
    else
      match LineAt(s[skip..], max)
      case Line(line) =>
        (match UnitFrom(line, s[skip + |line|..], max, decodes)
         case NoUnit => NoUnit
         case GotUnit(u, size) => GotUnit(u, skip + size))
      case _ => NoUnit
  }

  /** Discards a preamble, or finds the DSC trailer. */
  method SkipPreamble(r: Cursor) returns (skip: nat, trailer: bool)
    requires r.pos <= |r.data|
    modifies r
    ensures old(r.pos) <= r.pos <= |r.data|
    ensures var s := r.data[old(r.pos)..];
      && skip == StreamReader.PreambleLen(s) && trailer == (skip == 0 && [ESC, '\\'] <= s)
      && (!trailer ==> r.pos == old(r.pos) + skip)
  {
    ghost var start, s := r.pos, r.data[r.pos..];
    assert |s| >= 7 ==> s[..7] == r.data[start..start + 7];
    assert |s| >= 2 ==> s[..2] == r.data[start..start + 2];
    if |r.data| - r.pos >= 7 && r.data[r.pos..r.pos + 7] == StreamReader.PREAMBLE {
      r.pos := r.pos + 7;
      return 7, false;
    }
    if |r.data| - r.pos >= 2 && r.data[r.pos..r.pos + 2] == [ESC, '\\'] {
      r.pos := r.pos + 2;
      return 0, true;
    }
    return 0, false;
  }

  /** The unit after any preamble. */
  method ReadUnit(r: Cursor, max: int64, decodes: bytes -> bool) returns (out: UnitResult)
    requires r.pos <= |r.data|
    modifies r
    ensures old(r.pos) <= r.pos <= |r.data|
    ensures var s := r.data[old(r.pos)..];
      out == match LineAt(s, max as int)
        case Line(line) => UnitFrom(line, s[|line|..], max as int, decodes)
        case OverLimit => NoUnit
        case EndOfInput => NoUnit
    ensures out.GotUnit? ==> r.pos == old(r.pos) + out.size
  {
    hide LineAt, FrameHeader, FrameAt;
    ghost var s := r.data[r.pos..];
    var line := BoundedLine(r, max as int);
    if !line.Line? {
      return NoUnit;
    }
    LineIsNext(s, max as int);
    LineFits(s, max as int);
    assert r.data[r.pos..] == s[|line.line|..];
    if !(BEGIN_PREFIX <= line.line) {
      if END_PREFIX <= line.line || ERROR_PREFIX <= line.line || !decodes(line.line) {
        return NoUnit;
      }
      return GotUnit(EventUnit(line.line), |line.line|);
    }
    var frame := ReadFrame(r, line.line, max, decodes);
    if frame.NoFrame? {
      return NoUnit;
    }
    var id := FrameHeader(line.line, "begin");
    return GotUnit(FrameUnit(id.value, frame.data, frame.failed, frame.published), |line.line| + frame.size);
  }

  /** readControlUnit. */
  method ReadControlUnit(r: Cursor, max: int64, decodes: bytes -> bool) returns (out: UnitResult)
    requires r.pos <= |r.data|
    modifies r
    ensures old(r.pos) <= r.pos <= |r.data|
    ensures out == UnitAt(r.data[old(r.pos)..], max as int, decodes)
    ensures out.GotUnit? ==> r.pos == old(r.pos) + out.size
  {
    hide LineAt, UnitFrom, StreamReader.PreambleLen;
    ghost var start, s := r.pos, r.data[r.pos..];
    var skip, trailer := SkipPreamble(r);
    if trailer {
      return NoUnit;
    }
    ghost var t := s[skip..];
    assert r.data[r.pos..] == t;
    out := ReadUnit(r, max, decodes);
    LineIsNext(t, max as int);
    assert forall n :: 0 <= n <= |t| ==> t[n..] == s[skip + n..];
    if out.GotUnit? {
      out := GotUnit(out.read, skip + out.size);
    }
  }

  lemma LineFits(s: bytes, limit: int)
    ensures var r := LineAt(s, limit); r.Line? ==> |r.line| <= limit
  {
  }

  /** The units of a stream, as the reader loop takes them until the first that fails. */
  function UnitsAt(s: bytes, max: int, decodes: bytes -> bool): seq<Unit>
    decreases |s|
  {
    match UnitAt(s, max, decodes)
    case NoUnit => []
    case GotUnit(u, size) => [u] + UnitsAt(s[size..], max, decodes)
  }
}
