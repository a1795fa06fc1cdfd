/** Demultiplexing the answer to a multi-list read: decodeRead in tmux/read.go. */
module Read {
  import opened Bytes
  import opened Records

  type Row = seq<bytes>
  type RowMap = map<bytes, bytes>

  /** The record printed between the answers to two requests. */
  const BOUNDARY: bytes := "TGO1:0:\n"

  // --- What the answer means -----------------------------------------------------------------

  function StreamOf(lists: seq<seq<Row>>): bytes {
    if lists == [] then []
    else if |lists| == 1 then EncodeAll(lists[0])
    else EncodeAll(lists[0]) + (BOUNDARY + StreamOf(lists[1..]))
  }

  predicate Fits(lists: seq<seq<Row>>, widths: seq<nat>) {
    |lists| == |widths| && forall i :: 0 <= i < |lists| ==> forall row <- lists[i] :: |row| == widths[i]
  }

  /** One list of rows per width, or None where a record is malformed, misplaced or of the wrong width. */
  function Demux(s: bytes, widths: seq<nat>): (r: Option<seq<seq<Row>>>)
    requires widths != []
    ensures r.Some? ==> |r.value| == |widths|
    decreases |s|
  {
    if s == [] then (if |widths| == 1 then Some([[]]) else None)
    else
      match RecordAt(s, |s|)
      case Done(row, n) =>
        if row == [] then
          if |widths| == 1 then None else FollowBoundary(Demux(s[n..], widths[1..]))
        else if |row| != widths[0] then None
        else FollowRow(row, Demux(s[n..], widths))
      case _ => None
  }

  function FollowBoundary(rest: Option<seq<seq<Row>>>): Option<seq<seq<Row>>> {
    match rest
    case None => None
    case Some(lists) => Some([[]] + lists)
  }

  function FollowRow(row: Row, rest: Option<seq<seq<Row>>>): Option<seq<seq<Row>>>
    requires rest.Some? ==> rest.value != []
  {
    match rest
    case None => None
    case Some(lists) => Some([[row] + lists[0]] + lists[1..])
  }

  // --- recordMap -----------------------------------------------------------------------------

  function RowAsMap(fields: seq<bytes>, values: Row): RowMap
    requires |fields| == |values|
  {
    if fields == [] then map[]
    else
      var last := |fields| - 1;
      RowAsMap(fields[..last], values[..last])[fields[last] := values[last]]
  }

  method RecordMap(fields: seq<bytes>, values: Row) returns (m: RowMap)
    requires |fields| == |values|
    ensures m == RowAsMap(fields, values)
  {
    m := map[];
    for i := 0 to |fields|
      invariant m == RowAsMap(fields[..i], values[..i])
    {
      assert fields[..i + 1][..i] == fields[..i] && values[..i + 1][..i] == values[..i];
      m := m[fields[i] := values[i]];
    }
    assert fields[..|fields|] == fields && values[..|values|] == values;
  }

  /** Every field of a row is found under its own name when no later field repeats it. */
  lemma {:induction false} RowMapLookup(fields: seq<bytes>, values: Row, i: nat)
    requires |fields| == |values| && i < |fields|
    requires forall j :: i < j < |fields| ==> fields[j] != fields[i]
    ensures fields[i] in RowAsMap(fields, values) && RowAsMap(fields, values)[fields[i]] == values[i]
  {
    var last := |fields| - 1;
    if i < last {
      RowMapLookup(fields[..last], values[..last], i);
    }
  }

  // --- The decoder ---------------------------------------------------------------------------

  function Widths(requests: seq<seq<bytes>>): (r: seq<nat>)
    ensures |r| == |requests|
  {
    seq(|requests|, i requires 0 <= i < |requests| => |requests[i]|)
  }

  ghost predicate Maps(requests: seq<seq<bytes>>, lists: seq<seq<Row>>, out: seq<seq<RowMap>>) {
    && |requests| == |lists| == |out|
    && forall i :: 0 <= i < |requests| ==>
         && |lists[i]| == |out[i]|
         && forall j :: 0 <= j < |lists[i]| ==>
              |lists[i][j]| == |requests[i]| && out[i][j] == RowAsMap(requests[i], lists[i][j])
  }

  /** The result of decoding s: lists exactly where the demultiplexer finds them, mapped row by row. */
  ghost predicate Decodes(s: bytes, requests: seq<seq<bytes>>, out: Option<seq<seq<RowMap>>>, lists: seq<seq<Row>>)
    requires requests != []
  {
    && (out.None? <==> Demux(s, Widths(requests)) == None)
    && (out.Some? ==> Demux(s, Widths(requests)) == Some(lists) && Maps(requests, lists, out.value))
  }

  /** Lists already filled, with what the rest of the answer adds from the current one on. */
  function Joined(filled: seq<seq<Row>>, current: nat, rest: Option<seq<seq<Row>>>): Option<seq<seq<Row>>>
    requires current < |filled| && (rest.Some? ==> rest.value != [])
  {
    match rest
    case None => None
    case Some(lists) => Some(filled[..current] + [filled[current] + lists[0]] + lists[1..])
  }

  lemma JoinRow(filled: seq<seq<Row>>, current: nat, row: Row, rest: Option<seq<seq<Row>>>)
    requires current < |filled| && (rest.Some? ==> rest.value != [])
    ensures Joined(filled, current, FollowRow(row, rest))
         == Joined(filled[current := filled[current] + [row]], current, rest)
  {
    if rest.Some? {
      var next := filled[current := filled[current] + [row]];
      var followed := FollowRow(row, rest).value;
      assert next[..current] == filled[..current];
      assert followed[0] == [row] + rest.value[0] && followed[1..] == rest.value[1..];
      assert filled[current] + ([row] + rest.value[0]) == filled[current] + [row] + rest.value[0];
      assert next[current] == filled[current] + [row];
    }
  }

  lemma JoinBoundary(filled: seq<seq<Row>>, current: nat, rest: Option<seq<seq<Row>>>)
    requires current + 1 < |filled| && filled[current + 1] == [] && (rest.Some? ==> rest.value != [])
    ensures Joined(filled, current, FollowBoundary(rest)) == Joined(filled, current + 1, rest)
  {
    if rest.Some? {
      var lists := rest.value;
      var followed := FollowBoundary(rest).value;
      assert followed[0] == [] && followed[1..] == lists;
      assert filled[current] + [] == filled[current] && [] + lists[0] == lists[0];
      assert filled[..current] + [filled[current]] + lists == filled[..current + 1] + [lists[0]] + lists[1..];
    }
  }

  /** The rows of all lists, mapped by their requests' fields: no index leaves its range. */
  method DecodeLists(source: Cursor, requests: seq<seq<bytes>>)
    returns (out: Option<seq<seq<RowMap>>>, ghost lists: seq<seq<Row>>)
    requires requests != [] && source.pos <= |source.data| <= MAX_INT64
    modifies source
    ensures Decodes(source.data[old(source.pos)..], requests, out, lists)
  {
    hide RecordAt;
    ghost var widths := Widths(requests);
    var rows: seq<seq<RowMap>> := seq(|requests|, _ => []);
    lists := seq(|requests|, _ => []);
    var current := 0;
    ghost var data := source.data[source.pos..];
    JoinStart(lists, Demux(data, widths));
    assert widths[0..] == widths;
    while source.pos < |source.data|
      invariant source.pos <= |source.data| && current < |requests| == |widths| == |lists|
      invariant Demux(data, widths) == Joined(lists, current, Demux(source.data[source.pos..], widths[current..]))
      invariant forall k :: current < k < |lists| ==> lists[k] == []
      invariant Maps(requests, lists, rows)
    {
      ghost var s := source.data[source.pos..];
      var record, _, _ := ReadRecord(source, (|source.data| - source.pos) as int64);
      if !record.Done? {
        return None, lists;
      }
      ghost var rest := source.data[source.pos..];
      assert s[record.used..] == rest;
      if record.value == [] {
        if current + 1 == |requests| {
          return None, lists;
        }
        assert widths[current..][1..] == widths[current + 1..];
        JoinBoundary(lists, current, Demux(rest, widths[current + 1..]));
        current := current + 1;
      } else {
        if |record.value| != |requests[current]| {
          return None, lists;
        }
        var m := RecordMap(requests[current], record.value);
        JoinRow(lists, current, record.value, Demux(rest, widths[current..]));
        rows := rows[current := rows[current] + [m]];
        lists := lists[current := lists[current] + [record.value]];
      }
    }
    if current != |requests| - 1 {
      return None, lists;
    }
    JoinEnd(lists, current);
    return Some(rows), lists;
  }

  /** The identity record a subprocess read starts with: its fields, and what serverInfo makes of their values. */
  datatype Probe = Probe(fields: seq<bytes>, accepts: RowMap -> bool)

  /** What follows an accepted identity record, or None where it is refused. */
  function AfterProbe(data: bytes, probe: Option<Probe>): Option<bytes> {
    match probe
    case None => Some(data)
    case Some(p) =>
      match RecordAt(data, |data|)
      case Done(values, n) =>
        if |values| == |p.fields| && p.accepts(RowAsMap(p.fields, values)) then Some(data[n..]) else None
      case _ => None
  }

  /** decodeRead; a control connection has verified its daemon and reads no identity record. */
  method DecodeRead(data: bytes, probe: Option<Probe>, requests: seq<seq<bytes>>)
    returns (out: Option<seq<seq<RowMap>>>, ghost lists: seq<seq<Row>>)
    requires requests != [] && |data| <= MAX_INT64
    ensures out.Some? <==>
      AfterProbe(data, probe).Some? && Demux(AfterProbe(data, probe).value, Widths(requests)).Some?
    ensures match AfterProbe(data, probe)
            case None => out == None
            case Some(rest) => Decodes(rest, requests, out, lists)
  {
    hide RecordAt, RowAsMap, Demux, Maps;
    var source := new Cursor(data);
    assert data[0..] == data;
    lists := [];
    if probe.Some? {
      var record, _, _ := ReadRecord(source, |data| as int64);
      if !record.Done? || |record.value| != |probe.value.fields| {
        return None, lists;
      }
      var info := RecordMap(probe.value.fields, record.value);
      if !probe.value.accepts(info) {
        return None, lists;
      }
    }
    out, lists := DecodeLists(source, requests);
  }

  lemma JoinStart(lists: seq<seq<Row>>, rest: Option<seq<seq<Row>>>)
    requires lists != [] && lists[0] == [] && (rest.Some? ==> |rest.value| == |lists|)
    ensures Joined(lists, 0, rest) == rest
  {
    if rest.Some? {
      assert [] + rest.value[0] == rest.value[0] && lists[..0] == [];
      assert [] + [rest.value[0]] + rest.value[1..] == rest.value;
    }
  }

  lemma JoinEnd(lists: seq<seq<Row>>, current: nat)
    requires current == |lists| - 1
    ensures Joined(lists, current, Some([[]])) == Some(lists)
  {
    var rest: seq<seq<Row>> := [[]];
    assert rest[0] == [] && rest[1..] == [];
    assert lists[current] + [] == lists[current] && lists[..current] + [lists[current]] + [] == lists;
  }

  // --- Demultiplexing is exact -----------------------------------------------------------------

  lemma BoundaryIsRecord()
    ensures BOUNDARY == Encode([])
  {
    assert Dec(0) == "0" && EncodeFields([]) == [];
    assert EncodeHeader(0) == "TGO1:0:" && EncodeFields([]) + "\n" == "\n";
  }

  lemma RecordAhead(row: Row, rest: bytes)
    requires |row| <= MAX_RECORD_FIELDS && |Encode(row) + rest| <= MAX_INT64
    ensures RecordAt(Encode(row) + rest, |Encode(row) + rest|) == Done(row, |Encode(row)|)
    ensures (Encode(row) + rest)[|Encode(row)|..] == rest && Encode(row) != []
  {
    hide RecordAt;
    RecordRoundTrip(row, rest, |Encode(row) + rest|);
  }

  lemma DemuxRow(row: Row, rest: bytes, widths: seq<nat>)
    requires widths != [] && row != [] && |row| == widths[0] <= MAX_RECORD_FIELDS && |Encode(row) + rest| <= MAX_INT64
    ensures Demux(Encode(row) + rest, widths) == FollowRow(row, Demux(rest, widths))
  {
    hide RecordAt, Encode;
    RecordAhead(row, rest);
  }

  lemma DemuxBoundary(rest: bytes, widths: seq<nat>)
    requires |widths| > 1 && |BOUNDARY + rest| <= MAX_INT64
    ensures Demux(BOUNDARY + rest, widths) == FollowBoundary(Demux(rest, widths[1..]))
  {
    hide RecordAt, Encode;
    BoundaryIsRecord();
    RecordAhead([], rest);
  }

  lemma {:induction false} DemuxRows(rows: seq<Row>, rest: bytes, widths: seq<nat>)
    requires widths != [] && 0 < widths[0] <= MAX_RECORD_FIELDS && |EncodeAll(rows) + rest| <= MAX_INT64
    requires forall row <- rows :: |row| == widths[0]
    ensures Demux(EncodeAll(rows) + rest, widths) == match Demux(rest, widths)
      case None => None
      case Some(lists) => Some([rows + lists[0]] + lists[1..])
  {
    hide Demux, Encode;
    var after := Demux(rest, widths);
    if rows == [] {
      assert EncodeAll(rows) + rest == rest;
      if after.Some? {
        assert [] + after.value[0] == after.value[0] && [after.value[0]] + after.value[1..] == after.value;
      }
    } else {
      var tail := EncodeAll(rows[1..]) + rest;
      Assoc(Encode(rows[0]), EncodeAll(rows[1..]), rest);
      DemuxRow(rows[0], tail, widths);
      DemuxRows(rows[1..], rest, widths);
      if after.Some? {
        assert [rows[0]] + (rows[1..] + after.value[0]) == rows + after.value[0];
      }
    }
  }

  lemma EmptyDemux(widths: seq<nat>)
    requires widths != []
    ensures Demux([], widths) == if |widths| == 1 then Some([[]]) else None
  {
  }

  lemma {:induction false} DemuxForward(lists: seq<seq<Row>>, widths: seq<nat>)
    requires lists != [] && Fits(lists, widths)
    requires (forall i :: 0 <= i < |widths| ==> 0 < widths[i] <= MAX_RECORD_FIELDS)
    requires |StreamOf(lists)| <= MAX_INT64
    ensures Demux(StreamOf(lists), widths) == Some(lists)
  {
    hide Encode, EncodeAll, Demux;
    EmptyDemux(widths);
    assert forall row <- lists[0] :: |row| == widths[0];
    if |lists| == 1 {
      DemuxRows(lists[0], [], widths);
      assert EncodeAll(lists[0]) + [] == EncodeAll(lists[0]) && lists[0] + [] == lists[0];
      assert [lists[0]] + [[]][1..] == lists;
    } else {
      var tail := StreamOf(lists[1..]);
      DemuxRows(lists[0], BOUNDARY + tail, widths);
      DemuxBoundary(tail, widths);
      DemuxForward(lists[1..], widths[1..]);
      FirstList(lists);
    }
  }

  lemma FirstList(lists: seq<seq<Row>>)
    requires lists != []
    ensures lists[0] + [] == lists[0] && ([[]] + lists[1..])[1..] == lists[1..] && [lists[0]] + lists[1..] == lists
  {
  }

  lemma StreamRow(row: Row, lists: seq<seq<Row>>)
    requires lists != []
    ensures StreamOf([[row] + lists[0]] + lists[1..]) == Encode(row) + StreamOf(lists)
  {
    hide Encode;
    var more := [[row] + lists[0]] + lists[1..];
    assert ([row] + lists[0])[1..] == lists[0] && more[1..] == lists[1..];
    assert EncodeAll(more[0]) == Encode(row) + EncodeAll(lists[0]);
    if |lists| > 1 {
      Assoc(Encode(row), EncodeAll(lists[0]), BOUNDARY + StreamOf(lists[1..]));
    }
  }

  lemma StreamBoundary(lists: seq<seq<Row>>)
    requires lists != []
    ensures StreamOf([[]] + lists) == BOUNDARY + StreamOf(lists)
  {
    assert ([[]] + lists)[1..] == lists;
    assert [] + (BOUNDARY + StreamOf(lists)) == BOUNDARY + StreamOf(lists);
  }

  lemma {:induction false} DemuxCanonical(s: bytes, widths: seq<nat>)
    requires widths != [] && Demux(s, widths).Some?
    ensures var lists := Demux(s, widths).value; s == StreamOf(lists) && Fits(lists, widths)
    decreases |s|
  {
    hide RecordAt, Encode, StreamOf, Demux, Fits;
    DemuxUnfold(s, widths);
    if s == [] {
      EmptyStream();
      assert Fits([[]], widths) by { FitsEmpty(widths); }
    } else {
      var row, n := RecordAt(s, |s|).value, RecordAt(s, |s|).used;
      RecordCanonical(s, |s|);
      assert s == s[..n] + s[n..];
      if row == [] {
        DemuxCanonical(s[n..], widths[1..]);
        BoundaryIsRecord();
        StreamBoundary(Demux(s[n..], widths[1..]).value);
        FitsBoundary(Demux(s[n..], widths[1..]).value, widths);
      } else {
        DemuxCanonical(s[n..], widths);
        StreamRow(row, Demux(s[n..], widths).value);
        FitsRow(row, Demux(s[n..], widths).value, widths);
      }
    }
  }

  /** What a successful Demux has seen at the head of its input. */
  lemma DemuxUnfold(s: bytes, widths: seq<nat>)
    requires widths != [] && Demux(s, widths).Some?
    ensures s == [] ==> |widths| == 1 && Demux(s, widths) == Some([[]])
    ensures s != [] ==> RecordAt(s, |s|).Done?
    ensures s != [] ==> (
      var row, n := RecordAt(s, |s|).value, RecordAt(s, |s|).used;
      if row == [] then
        && |widths| > 1 && Demux(s[n..], widths[1..]).Some?
        && Demux(s, widths) == FollowBoundary(Demux(s[n..], widths[1..]))
      else
        |row| == widths[0] && Demux(s[n..], widths).Some? && Demux(s, widths) == FollowRow(row, Demux(s[n..], widths)))
  {
    hide RecordAt;
  }

  lemma FitsEmpty(widths: seq<nat>)
    requires |widths| == 1
    ensures Fits([[]], widths)
  {
  }

  lemma FitsBoundary(lists: seq<seq<Row>>, widths: seq<nat>)
    requires |widths| > 1 && Fits(lists, widths[1..])
    ensures Fits([[]] + lists, widths)
  {
    forall i | 0 < i < |widths| ensures forall row <- ([[]] + lists)[i] :: |row| == widths[i] {
      assert ([[]] + lists)[i] == lists[i - 1] && widths[1..][i - 1] == widths[i];
    }
  }

  lemma FitsRow(row: Row, lists: seq<seq<Row>>, widths: seq<nat>)
    requires widths != [] && |row| == widths[0] && Fits(lists, widths)
    ensures Fits([[row] + lists[0]] + lists[1..], widths)
  {
  }

  lemma EmptyStream()
    ensures StreamOf([[]]) == []
  {
  }

  /**
   * For requests that each select at least one field, the decoder returns lists exactly when the
   * answer is those lists' records with one boundary between requests; anything else is refused.
   */
  lemma DemuxRoundTrip(s: bytes, lists: seq<seq<Row>>, widths: seq<nat>)
    requires widths != [] && (forall i :: 0 <= i < |widths| ==> 0 < widths[i] <= MAX_RECORD_FIELDS) && |s| <= MAX_INT64
    ensures Demux(s, widths) == Some(lists) <==> s == StreamOf(lists) && Fits(lists, widths)
  {
    hide Demux, StreamOf;
    if Demux(s, widths) == Some(lists) {
      DemuxCanonical(s, widths);
    }
    if s == StreamOf(lists) && Fits(lists, widths) {
      DemuxForward(lists, widths);
    }
  }

  /** A probed answer is accepted exactly when it is an identity record the caller accepts and then the lists. */
  lemma ProbedRoundTrip(data: bytes, p: Probe, rest: bytes)
    requires |p.fields| <= MAX_RECORD_FIELDS && |data| <= MAX_INT64
    ensures AfterProbe(data, Some(p)) == Some(rest)
       <==> exists values: Row ::
              |values| == |p.fields| && p.accepts(RowAsMap(p.fields, values)) && data == Encode(values) + rest
  {
    hide RecordAt, Encode, RowAsMap;
    if AfterProbe(data, Some(p)) == Some(rest) {
      var r := RecordAt(data, |data|);
      RecordCanonical(data, |data|);
      assert data == Encode(r.value) + rest;
    }
    if values: Row :| |values| == |p.fields| && p.accepts(RowAsMap(p.fields, values)) && data == Encode(values) + rest {
      RecordRoundTrip(values, rest, |data|);
      assert data[|Encode(values)|..] == rest;
    }
  }
}
