/** Length-prefixed records: internal/wire/records.go. */
module Records {
  import opened Bytes

  newtype int64 = x: int | -0x8000_0000_0000_0000 <= x < 0x8000_0000_0000_0000

  const MAX_INT64: int := 0x7fff_ffff_ffff_ffff
  const MIN_RECORD: int := 8       // len(RECORD_PREFIX) + minRecordOverhead
  const MAX_RECORD_FIELDS: int := 1024

  /** A scan of the bytes ahead: a value and how far it reached, a malformed record, or the end of input. */
  datatype Scan<+T> = Done(value: T, used: nat) | Bad(used: nat) | Short

  /** The outcome of a scan that began n bytes later. */
  function Shift<T>(n: nat, r: Scan<T>): Scan<T> {
    match r
    case Done(v, m) => Done(v, n + m)
    case Bad(m) => Bad(n + m)
    case Short => Short
  }

  /** A list scan that already holds fields from the first n bytes. */
  function Prepend(fields: seq<bytes>, n: nat, r: Scan<seq<bytes>>): Scan<seq<bytes>> {
    match r
    case Done(vs, m) => Done(fields + vs, n + m)
    case Bad(m) => Bad(n + m)
    case Short => Short
  }

  lemma PrependNil(r: Scan<seq<bytes>>)
    ensures Prepend([], 0, r) == r
  {
    if r.Done? {
      assert [] + r.value == r.value;
    }
  }

  lemma PrependStep(fields: seq<bytes>, n: nat, b: bytes, m: nat, r: Scan<seq<bytes>>)
    ensures Prepend(fields, n, Prepend([b], m, r)) == Prepend(fields + [b], n + m, r)
  {
    if r.Done? {
      assert fields + ([b] + r.value) == fields + [b] + r.value;
    }
  }

  // --- The encoder -----------------------------------------------------------------------

  function Digit(d: nat): byte
    requires d < 10
  {
    ('0' as int + d) as char
  }

  function Dec(n: nat): (r: bytes)
    ensures r != []
  {
    if n < 10 then [Digit(n)] else Dec(n / 10) + [Digit(n % 10)]
  }

  function EncodeField(v: bytes): bytes {
    Dec(|v|) + ":" + v + ","
  }

  function EncodeFields(vs: seq<bytes>): bytes {
    if vs == [] then [] else EncodeField(vs[0]) + EncodeFields(vs[1..])
  }

  function EncodeHeader(count: nat): bytes {
    RECORD_PREFIX + Dec(count) + ":"
  }

  function Encode(vs: seq<bytes>): bytes {
    EncodeHeader(|vs|) + (EncodeFields(vs) + "\n")
  }

  /** EncodeRecord. */
  method EncodeRecord(values: seq<bytes>) returns (b: bytes)
    ensures b == Encode(values)
  {
    b := RECORD_PREFIX + Dec(|values|) + ":";
    ghost var head := b;
    for i := 0 to |values|
      invariant b == head + EncodeFields(values[..i])
    {
      assert values[..i + 1] == values[..i] + [values[i]];
      EncodeFieldsSnoc(values[..i], values[i]);
      Assoc(head, EncodeFields(values[..i]), EncodeField(values[i]));
      ghost var was := b;
      b := b + Dec(|values[i]|) + ":";
      b := b + values[i];
      b := b + [','];
      assert b == was + EncodeField(values[i]);
    }
    assert values[..|values|] == values;
    b := b + ['\n'];
  }

  // --- What the scanner accepts ------------------------------------------------------------

  predicate IsDigit(c: byte) {
    '0' <= c <= '9'
  }

  predicate InvalidDecimalChar(c: byte, count: int, zero: bool) {
    !IsDigit(c) || count > 19 || (zero && count > 1)
  }

  /** A decimal of count digits read so far, with zero set once its first digit is 0. */
  function DecimalFrom(s: bytes, value: nat, count: nat, zero: bool, max: int): (r: Scan<nat>)
    ensures r.Done? ==> count < r.used <= count + |s|
    ensures r.Bad? ==> count < r.used <= count + |s|
    ensures r.Done? && count <= 19 ==> r.used <= 20
  {
    if s == [] then Short
    else if s[0] == ':' then
      if count == 0 then Bad(1) else Done(value, count + 1)
    else if InvalidDecimalChar(s[0], count + 1, zero) then Bad(count + 1)
    else
      var digit := s[0] as int - '0' as int;
      if value * 10 + digit > max then Bad(count + 1)
      else DecimalFrom(s[1..], value * 10 + digit, count + 1, if count == 0 then s[0] == '0' else zero, max)
  }

  function DecimalAt(s: bytes, max: int): (r: Scan<nat>)
    ensures r.Done? ==> 0 < r.used <= |s|
    ensures r.Bad? ==> 0 < r.used <= |s|
  {
    DecimalFrom(s, 0, 0, false, max)
  }

  /** size bytes and the comma that ends a field. */
  function BodyAt(s: bytes, size: nat): (r: Scan<bytes>)
    ensures r.Done? ==> 0 < r.used <= |s|
    ensures r.Bad? ==> r.used <= |s|
  {
    if |s| <= size then Short
    else if s[size] != ',' then Bad(size + 1)
    else Done(s[..size], size + 1)
  }

  function FieldAt(s: bytes, left: int): (r: Scan<bytes>)
    ensures r.Done? ==> 0 < r.used <= |s|
    ensures r.Bad? ==> r.used <= |s|
  {
    if left <= 0 then Bad(0)
    else
      match DecimalAt(s, left)
      case Bad(n) => Bad(n)
      case Short => Short
      case Done(size, n) => if size > left - n - 1 then Bad(n) else Shift(n, BodyAt(s[n..], size))
  }

  function FieldsAt(s: bytes, count: nat, left: int): (r: Scan<seq<bytes>>)
    ensures r.Done? ==> r.used <= |s| && |r.value| == count
    ensures r.Bad? ==> r.used <= |s|
    decreases count
  {
    if count == 0 then Done([], 0)
    else
      match FieldAt(s, left)
      case Bad(n) => Bad(n)
      case Short => Short
      case Done(b, n) => Prepend([b], n, FieldsAt(s[n..], count - 1, left - n))
  }

  function HeaderAt(s: bytes, max: int): (r: Scan<nat>)
    ensures r.Done? ==> 5 < r.used <= |s| && r.used <= 25 && max > 0
    ensures r.Bad? ==> r.used <= |s|
  {
    if max < MIN_RECORD then Bad(0)
    else if |s| < 5 then Short
    else if s[..5] != RECORD_PREFIX then Bad(5)
    else Shift(5, DecimalAt(s[5..], MAX_RECORD_FIELDS))
  }

  /** The line feed that ends a record whose fields took used of at most max bytes. */
  function TerminatorAt(s: bytes, used: nat, max: int): Scan<()> {
    if used >= max then Bad(0)
    else if s == [] then Short
    else if s[0] != '\n' then Bad(1)
    else Done((), 1)
  }

  /** The fields and terminator of a record whose header took used bytes. */
  function TailAt(s: bytes, count: nat, used: nat, max: int): (r: Scan<seq<bytes>>)
    ensures r.Done? ==> r.used <= |s| && |r.value| == count
    ensures r.Bad? ==> r.used <= |s|
  {
    match FieldsAt(s, count, max - used)
    case Bad(n) => Bad(n)
    case Short => Short
    case Done(fields, n) =>
      match TerminatorAt(s[n..], used + n, max)
      case Bad(m) => Bad(n + m)
      case Short => Short
      case Done(_, m) => Done(fields, n + m)
  }

  /** The record at the head of s under a limit of max encoded bytes. */
  function RecordAt(s: bytes, max: int): (r: Scan<seq<bytes>>)
    ensures r.Done? ==> 0 < r.used <= |s|
    ensures r.Bad? ==> r.used <= |s|
  {
    match HeaderAt(s, max)
    case Bad(n) => Bad(n)
    case Short => Short
    case Done(count, used) => Shift(used, TailAt(s[used..], count, used, max))
  }

  /** How much of s a scan consumes, whatever its outcome. */
  function Consumed<T>(r: Scan<T>, s: bytes): nat {
    match r
    case Done(_, n) => n
    case Bad(n) => n
    case Short => |s|
  }

  // --- The reader ----------------------------------------------------------------------------

  /** A position in a byte stream. */
  class Cursor {
    const data: bytes
    var pos: nat

    constructor (data: bytes)
      ensures this.data == data && pos == 0
    {
      this.data := data;
      pos := 0;
    }
  }

  /** recordReader: a source together with a copy of everything read from it. */
  class RecordReader {
    const source: Cursor
    var data: bytes

    constructor (source: Cursor)
      ensures this.source == source && data == []
    {
      this.source := source;
      data := [];
    }

    ghost predicate Valid()
      reads this, source
    {
      source.pos <= |source.data|
    }

    ghost function Rest(): bytes
      requires Valid()
      reads this, source
    {
      source.data[source.pos..]
    }

    /** Exactly n bytes of what was ahead at start have been read and teed. */
    ghost predicate Advanced(start: nat, before: bytes, n: nat)
      reads this, source
    {
      && start + n == source.pos <= |source.data|
      && data == before + source.data[start..start + n]
    }

    lemma Compose(start: nat, before: bytes, n: nat, m: nat)
      requires start + n <= |source.data| && Advanced(start + n, before + source.data[start..start + n], m)
      ensures Advanced(start, before, n + m)
    {
      assert source.data[start..start + n + m] == source.data[start..start + n] + source.data[start + n..start + n + m];
    }

    method ReadByte() returns (r: Option<byte>)
      requires Valid()
      modifies this, source
      ensures Valid()
      ensures old(Rest()) == [] ==> r == None && Advanced(old(source.pos), old(data), 0)
      ensures old(Rest()) != [] ==> r == Some(old(Rest())[0]) && Advanced(old(source.pos), old(data), 1)
    {
      if source.pos == |source.data| {
        return None;
      }
      r := Some(source.data[source.pos]);
      data := data + [source.data[source.pos]];
      source.pos := source.pos + 1;
    }

    /** io.ReadFull: n bytes, or None having consumed all that was left. */
    method ReadFull(n: nat) returns (r: Option<bytes>)
      requires Valid()
      modifies this, source
      ensures Valid()
      ensures |old(Rest())| < n ==> r == None && Advanced(old(source.pos), old(data), |old(Rest())|)
      ensures n <= |old(Rest())| ==> r == Some(old(Rest())[..n]) && Advanced(old(source.pos), old(data), n)
    {
      var start := source.pos;
      if |source.data| - start < n {
        data := data + source.data[start..];
        source.pos := |source.data|;
        return None;
      }
      assert source.data[start..start + n] == source.data[start..][..n];
      r := Some(source.data[start..start + n]);
      data := data + source.data[start..start + n];
      source.pos := start + n;
    }
  }

  /** One turn of the decimal loop, as the specification sees it. */
  lemma DecimalStep(s: bytes, n: nat, value: nat, count: nat, zero: bool, max: int)
    requires n <= |s|
    ensures DecimalFrom(s[n..], value, count, zero, max) ==
      if n == |s| then Short
      else if s[n] == ':' then (if count == 0 then Bad(1) else Done(value, count + 1))
      else if InvalidDecimalChar(s[n], count + 1, zero) then Bad(count + 1)
      else
        var next := value * 10 + (s[n] as int - '0' as int);
        if next > max then Bad(count + 1)
        else DecimalFrom(s[n + 1..], next, count + 1, if count == 0 then s[n] == '0' else zero, max)
  {
    if n < |s| {
      assert s[n..][1..] == s[n + 1..];
    }
  }

  /** decimal, in int64 arithmetic: no intermediate value overflows. */
  method ReadDecimal(r: RecordReader, maxBytes: int64) returns (out: Scan<int64>)
    requires r.Valid() && maxBytes >= 0
    modifies r, r.source
    ensures r.Valid()
    ensures var spec := DecimalAt(old(r.Rest()), maxBytes as int);
      && r.Advanced(old(r.source.pos), old(r.data), Consumed(spec, old(r.Rest())))
      && match out
         case Done(v, n) => v >= 0 && spec == Done(v as int, n)
         case Bad(n) => spec == Bad(n)
         case Short => spec == Short
  {
    hide DecimalFrom;
    ghost var start, before, s := r.source.pos, r.data, r.Rest();
    var value: int64, count: int64 := 0, 0;
    var zero := false;
    while true
      invariant r.Valid() && 0 <= value <= maxBytes && 0 <= count <= 19
      invariant count as int <= |s| && r.Advanced(start, before, count as int)
      invariant DecimalAt(s, maxBytes as int)
           == DecimalFrom(s[count as int..], value as int, count as int, zero, maxBytes as int)
      decreases |r.Rest()|
    {
      assert r.Rest() == s[count as int..];
      DecimalStep(s, count as int, value as int, count as int, zero, maxBytes as int);
      var ch := r.ReadByte();
      if ch == None {
        return Short;
      }
      count := count + 1;
      if ch.value == ':' {
        if count == 1 {
          return Bad(1);
        }
        return Done(value, count as int);
      }
      if InvalidDecimalChar(ch.value, count as int, zero) {
        return Bad(count as int);
      }
      if count == 1 {
        zero := ch.value == '0';
      }
      var digit := (ch.value as int - '0' as int) as int64;
      if value > (maxBytes - digit) / 10 || maxBytes < digit {
        return Bad(count as int);
      }
      value := value * 10 + digit;
    }
  }

  method ReadBody(r: RecordReader, size: nat) returns (out: Scan<bytes>)
    requires r.Valid()
    modifies r, r.source
    ensures r.Valid()
    ensures out == BodyAt(old(r.Rest()), size)
    ensures r.Advanced(old(r.source.pos), old(r.data), Consumed(out, old(r.Rest())))
  {
    ghost var start, before, s := r.source.pos, r.data, r.Rest();
    var b := r.ReadFull(size);
    if b == None {
      return Short;
    }
    assert r.Rest() == s[size..];
    var ch := r.ReadByte();
    if ch == None {
      return Short;
    }
    r.Compose(start, before, size, 1);
    if ch.value != ',' {
      return Bad(size + 1);
    }
    return Done(b.value, size + 1);
  }

  method ReadField(r: RecordReader, left: int64) returns (out: Scan<bytes>)
    requires r.Valid()
    modifies r, r.source
    ensures r.Valid()
    ensures out == FieldAt(old(r.Rest()), left as int)
    ensures r.Advanced(old(r.source.pos), old(r.data), Consumed(out, old(r.Rest())))
  {
    hide DecimalAt, BodyAt;
    if left <= 0 {
      return Bad(0);
    }
    ghost var start, before, s := r.source.pos, r.data, r.Rest();
    var size := ReadDecimal(r, left);
    match size {
      case Bad(n) => return Bad(n);
      case Short => return Short;
      case Done(v, n) =>
        if v as int > left as int - n - 1 {
          return Bad(n);
        }
        assert r.Rest() == s[n..];
        var body := ReadBody(r, v as int);
        r.Compose(start, before, n, Consumed(body, s[n..]));
        return Shift(n, body);
    }
  }

  /** One turn of the field loop: the field after the n bytes already taken. */
  method ReadNextField(r: RecordReader, left: int, ghost start: nat, ghost before: bytes, ghost n: nat)
    returns (out: Scan<bytes>)
    requires r.Valid() && r.Advanced(start, before, n) && left <= MAX_INT64
    modifies r, r.source
    ensures r.Valid()
    ensures out == FieldAt(old(r.Rest()), left)
    ensures r.Advanced(start, before, n + Consumed(out, old(r.Rest())))
  {
    ghost var s := r.Rest();
    if left <= 0 {
      return Bad(0);
    }
    out := ReadField(r, left as int64);
    r.Compose(start, before, n, Consumed(out, s));
  }

  /** One turn of the field loop, as the specification sees it. */
  lemma FieldsStep(s: bytes, fields: seq<bytes>, n: nat, count: nat, left: int, field: Scan<bytes>)
    requires n <= |s| && count > 0 && field == FieldAt(s[n..], left)
    ensures var ahead := FieldsAt(s[n..], count, left);
      && (field.Bad? ==> Prepend(fields, n, ahead) == Bad(n + field.used))
      && (field.Short? ==> Prepend(fields, n, ahead) == Short)
      && (field.Done? ==>
            Prepend(fields, n, ahead) == Prepend(fields + [field.value], n + field.used,
                                                 FieldsAt(s[n + field.used..], count - 1, left - field.used)))
  {
    hide FieldAt;
    if field.Done? {
      assert s[n..][field.used..] == s[n + field.used..];
      PrependStep(fields, n, field.value, field.used, FieldsAt(s[n + field.used..], count - 1, left - field.used));
    }
  }

  lemma FieldsNone(s: bytes, left: int)
    ensures FieldsAt(s, 0, left) == Done([], 0)
  {
  }

  /** The fields of a record with their re-serialised wire form, when left bytes of the limit remain. */
  method ReadFields(r: RecordReader, count: nat, left: int) returns (out: Scan<seq<bytes>>, wire: bytes)
    requires r.Valid() && left <= MAX_INT64
    modifies r, r.source
    ensures r.Valid()
    ensures out == FieldsAt(old(r.Rest()), count, left)
    ensures r.Advanced(old(r.source.pos), old(r.data), Consumed(out, old(r.Rest())))
    ensures out.Done? ==> wire == EncodeFields(out.value)
  {
    hide FieldAt, FieldsAt;
    ghost var start, before, s := r.source.pos, r.data, r.Rest();
    var fields: seq<bytes> := [];
    var n := 0;
    wire := [];
    ghost var ahead := FieldsAt(s, count, left);
    assert s[0..] == s;
    PrependNil(ahead);
    for i := 0 to count
      invariant r.Valid() && 0 <= n <= |s| && r.Advanced(start, before, n)
      invariant |fields| == i && wire == EncodeFields(fields)
      invariant ahead == FieldsAt(s[n..], count - i, left - n)
      invariant FieldsAt(s, count, left) == Prepend(fields, n, ahead)
    {
      assert r.Rest() == s[n..];
      var field := ReadNextField(r, left - n, start, before, n);
      FieldsStep(s, fields, n, count - i, left - n, field);
      if field.Bad? {
        return Bad(n + field.used), wire;
      }
      if field.Short? {
        return Short, wire;
      }
      ahead := FieldsAt(s[n + field.used..], count - i - 1, left - n - field.used);
      EncodeFieldsSnoc(fields, field.value);
      wire := wire + (Dec(|field.value|) + ":" + field.value + ",");
      fields := fields + [field.value];
      n := n + field.used;
    }
    FieldsNone(s[n..], left - n);
    assert fields + [] == fields;
    return Done(fields, n), wire;
  }

  lemma {:induction false} EncodeFieldsSnoc(vs: seq<bytes>, v: bytes)
    ensures EncodeFields(vs + [v]) == EncodeFields(vs) + EncodeField(v)
  {
    if vs == [] {
      assert [] + [v] == [v] && [v][1..] == [];
      assert [] + EncodeField(v) == EncodeField(v) + [];
    } else {
      assert (vs + [v])[1..] == vs[1..] + [v];
      EncodeFieldsSnoc(vs[1..], v);
    }
  }

  method ReadHeader(r: RecordReader, maxBytes: int64) returns (out: Scan<nat>)
    requires r.Valid()
    modifies r, r.source
    ensures r.Valid()
    ensures out == HeaderAt(old(r.Rest()), maxBytes as int)
    ensures r.Advanced(old(r.source.pos), old(r.data), Consumed(out, old(r.Rest())))
  {
    if maxBytes as int < MIN_RECORD {
      return Bad(0);
    }
    ghost var start, before, s := r.source.pos, r.data, r.Rest();
    var prefix := r.ReadFull(5);
    if prefix == None {
      return Short;
    }
    if prefix.value != RECORD_PREFIX {
      return Bad(5);
    }
    assert r.Rest() == s[5..];
    var count := ReadDecimal(r, MAX_RECORD_FIELDS as int64);
    r.Compose(start, before, 5, Consumed(DecimalAt(s[5..], MAX_RECORD_FIELDS), s[5..]));
    match count {
      case Bad(n) => return Bad(5 + n);
      case Short => return Short;
      case Done(v, n) => return Done(v as int, 5 + n);
    }
  }

  method ReadTerminator(r: RecordReader, used: nat, max: int64) returns (out: Scan<()>)
    requires r.Valid()
    modifies r, r.source
    ensures r.Valid()
    ensures out == TerminatorAt(old(r.Rest()), used, max as int)
    ensures r.Advanced(old(r.source.pos), old(r.data), Consumed(out, old(r.Rest())))
  {
    if used >= max as int {
      return Bad(0);
    }
    var ch := r.ReadByte();
    if ch == None {
      return Short;
    }
    if ch.value != '\n' {
      return Bad(1);
    }
    return Done((), 1);
  }

  /** The rest of a record after its header, with the wire form of its fields and terminator. */
  method ReadTail(r: RecordReader, count: nat, used: nat, max: int64) returns (out: Scan<seq<bytes>>, wire: bytes)
    requires r.Valid() && used <= MAX_INT64 && max > 0
    modifies r, r.source
    ensures r.Valid()
    ensures out == TailAt(old(r.Rest()), count, used, max as int)
    ensures r.Advanced(old(r.source.pos), old(r.data), Consumed(out, old(r.Rest())))
    ensures out.Done? ==> wire == EncodeFields(out.value) + "\n"
  {
    hide FieldsAt;
    ghost var start, before, s := r.source.pos, r.data, r.Rest();
    out, wire := ReadFields(r, count, max as int - used);
    if out.Done? {
      var n := out.used;
      assert r.Rest() == s[n..];
      var end := ReadTerminator(r, used + n, max);
      r.Compose(start, before, n, Consumed(end, s[n..]));
      match end {
        case Bad(m) => out := Bad(n + m);
        case Short => out := Short;
        case Done(_, m) =>
          out := Done(out.value, n + m);
          wire := wire + "\n";
      }
    }
  }

  /** scanRecord: the record ahead, its re-serialised wire form, and the reader left just after it. */
  method ScanRecord(r: RecordReader, maxBytes: int64) returns (out: Scan<seq<bytes>>, wire: bytes)
    requires r.Valid()
    modifies r, r.source
    ensures r.Valid()
    ensures out == RecordAt(old(r.Rest()), maxBytes as int)
    ensures r.Advanced(old(r.source.pos), old(r.data), Consumed(out, old(r.Rest())))
    ensures out.Done? ==> wire == Encode(out.value)
  {
    hide HeaderAt, TailAt, Dec, EncodeFields;
    ghost var start, before, s := r.source.pos, r.data, r.Rest();
    wire := [];
    var header := ReadHeader(r, maxBytes);
    match header {
      case Bad(n) => return Bad(n), wire;
      case Short => return Short, wire;
      case Done(count, used) =>
        assert r.Rest() == s[used..];
        var tail, body := ReadTail(r, count, used, maxBytes);
        r.Compose(start, before, used, Consumed(tail, s[used..]));
        out := Shift(used, tail);
        wire := RECORD_PREFIX + Dec(count) + ":" + body;
    }
  }

  // --- The codec is an exact, canonical prefix code -----------------------------------------

  lemma DecSnoc(value: nat, c: byte)
    requires value > 0 && IsDigit(c)
    ensures Dec(value * 10 + (c as int - '0' as int)) == Dec(value) + [c]
  {
    var next := value * 10 + (c as int - '0' as int);
    assert next / 10 == value && next % 10 == c as int - '0' as int;
  }

  /** An accepted decimal is the canonical one: no leading zero, nothing but digits. */
  lemma {:induction false} DecimalCanonical(s: bytes, value: nat, count: nat, zero: bool, max: int)
    requires 1 <= count && (zero <==> value == 0) && (zero ==> count == 1) && |Dec(value)| == count
    requires DecimalFrom(s, value, count, zero, max).Done?
    ensures var r := DecimalFrom(s, value, count, zero, max);
      && Dec(value) + s[..r.used - count] == Dec(r.value) + ":"
      && (value <= max ==> r.value <= max)
    decreases |s|
  {
    if s[0] == ':' {
      assert s[..1] == ":";
    } else {
      hide Dec, DecimalFrom;
      var next := value * 10 + (s[0] as int - '0' as int);
      var r := DecimalFrom(s, value, count, zero, max);
      AnotherDigit(s, value, count, zero, max);
      DecSnoc(value, s[0]);
      DecimalCanonical(s[1..], next, count + 1, zero, max);
      HeadOf(s, r.used - count);
      Assoc(Dec(value), [s[0]], s[1..][..r.used - count - 1]);
    }
  }

  lemma AnotherDigit(s: bytes, value: nat, count: nat, zero: bool, max: int)
    requires 1 <= count && (zero <==> value == 0)
    requires DecimalFrom(s, value, count, zero, max).Done? && s[0] != ':'
    ensures value > 0 && IsDigit(s[0])
    ensures var next := value * 10 + (s[0] as int - '0' as int);
      next <= max && DecimalFrom(s, value, count, zero, max) == DecimalFrom(s[1..], next, count + 1, zero, max)
  {
  }

  lemma HeadOf(s: bytes, n: nat)
    requires 0 < n <= |s|
    ensures s[..n] == [s[0]] + s[1..][..n - 1]
  {
  }

  lemma DecimalAtCanonical(s: bytes, max: int)
    requires DecimalAt(s, max).Done?
    ensures var r := DecimalAt(s, max); s[..r.used] == Dec(r.value) + ":" && r.value <= max
  {
    var digit := s[0] as int - '0' as int;
    assert Dec(digit) == [s[0]];
    DecimalCanonical(s[1..], digit, 1, s[0] == '0', max);
    var r := DecimalAt(s, max);
    assert s[..r.used] == [s[0]] + s[1..][..r.used - 1];
  }

  lemma FieldCanonical(s: bytes, left: int)
    requires FieldAt(s, left).Done?
    ensures var r := FieldAt(s, left); s[..r.used] == EncodeField(r.value) && r.used <= left
  {
    DecimalAtCanonical(s, left);
    var n, size := DecimalAt(s, left).used, DecimalAt(s, left).value;
    assert s[..n + size + 1] == s[..n] + s[n..][..size] + [s[n..][size]];
  }

  lemma EncodeFieldsCons(b: bytes, rest: seq<bytes>)
    ensures EncodeFields([b] + rest) == EncodeField(b) + EncodeFields(rest)
  {
    assert ([b] + rest)[1..] == rest;
  }

  lemma Slices(s: bytes, n: nat, m: nat)
    requires n + m <= |s|
    ensures s[..n + m] == s[..n] + s[n..][..m]
  {
  }

  lemma {:induction false} FieldsCanonical(s: bytes, count: nat, left: int)
    requires FieldsAt(s, count, left).Done? && left >= 0
    ensures var r := FieldsAt(s, count, left); s[..r.used] == EncodeFields(r.value) && r.used <= left
    decreases count
  {
    hide FieldAt, EncodeField;
    if count > 0 {
      FieldCanonical(s, left);
      var b, n := FieldAt(s, left).value, FieldAt(s, left).used;
      FieldsCanonical(s[n..], count - 1, left - n);
      var rest := FieldsAt(s[n..], count - 1, left - n);
      EncodeFieldsCons(b, rest.value);
      Slices(s, n, rest.used);
    }
  }

  lemma HeaderCanonical(s: bytes, max: int)
    requires HeaderAt(s, max).Done?
    ensures var r := HeaderAt(s, max); s[..r.used] == RECORD_PREFIX + Dec(r.value) + ":" && r.value <= MAX_RECORD_FIELDS
  {
    DecimalAtCanonical(s[5..], MAX_RECORD_FIELDS);
    var used := HeaderAt(s, max).used;
    assert s[..used] == RECORD_PREFIX + s[5..][..used - 5];
  }

  lemma TailCanonical(s: bytes, count: nat, used: nat, max: int)
    requires TailAt(s, count, used, max).Done?
    ensures var r := TailAt(s, count, used, max);
      s[..r.used] == EncodeFields(r.value) + "\n" && used + r.used <= max && |r.value| == count
  {
    var n := FieldsAt(s, count, max - used).used;
    FieldsCanonical(s, count, max - used);
    assert s[..n + 1] == s[..n] + [s[n..][0]];
  }

  /** Every accepted input is byte for byte the encoding of its result, within the limits. */
  lemma RecordCanonical(s: bytes, max: int)
    requires RecordAt(s, max).Done?
    ensures var r := RecordAt(s, max);
      s[..r.used] == Encode(r.value) && r.used <= max && |r.value| <= MAX_RECORD_FIELDS
  {
    HeaderCanonical(s, max);
    var used, count := HeaderAt(s, max).used, HeaderAt(s, max).value;
    TailCanonical(s[used..], count, used, max);
    var tail := TailAt(s[used..], count, used, max);
    assert s[..used + tail.used] == s[..used] + s[used..][..tail.used];
  }

  function Pow10(k: nat): nat {
    if k == 0 then 1 else 10 * Pow10(k - 1)
  }

  lemma {:induction false} Pow10Split(a: nat, b: nat)
    ensures Pow10(a + b) == Pow10(a) * Pow10(b)
  {
    if b > 0 {
      calc {
        Pow10(a + b);
      ==
        10 * Pow10(a + (b - 1));
      ==  { Pow10Split(a, b - 1); }
        10 * (Pow10(a) * Pow10(b - 1));
      ==  { Rotate(10, Pow10(a), Pow10(b - 1)); }
        Pow10(a) * (10 * Pow10(b - 1));
      ==
        Pow10(a) * Pow10(b);
      }
    }
  }

  lemma Rotate(x: int, y: int, z: int)
    ensures x * (y * z) == y * (x * z)
  {
  }

  lemma {:induction false} DecLength(v: nat, k: nat)
    requires k > 0 && v < Pow10(k)
    ensures |Dec(v)| <= k
  {
    assert Pow10(k) == 10 * Pow10(k - 1) && Pow10(0) == 1;
    if v >= 10 {
      DecLength(v / 10, k - 1);
    }
  }

  lemma DecLengthInt64(v: nat)
    requires v <= MAX_INT64
    ensures |Dec(v)| <= 19
  {
    assert Pow10(5) == 100_000 by { assert Pow10(3) == 1000; }
    assert Pow10(4) == 10_000;
    Pow10Split(5, 5);
    Pow10Split(5, 4);
    Pow10Split(10, 9);
    DecLength(v, 19);
  }

  lemma Drop(a: bytes, b: bytes)
    ensures (a + b)[|a|..] == b
  {
  }

  /** No decimal an int64 can hold is refused for its length, and none overflows on the way. */
  lemma {:induction false} DecimalForward(v: nat, rest: bytes, max: int)
    requires v <= max <= MAX_INT64
    ensures DecimalFrom(Dec(v) + rest, 0, 0, false, max) == DecimalFrom(rest, v, |Dec(v)|, v == 0, max)
  {
    if v < 10 {
      assert (Dec(v) + rest)[1..] == rest;
    } else {
      var head, d := Dec(v / 10), Digit(v % 10);
      DecLengthInt64(v);
      assert Dec(v) + rest == head + ([d] + rest);
      DecimalForward(v / 10, [d] + rest, max);
      assert ([d] + rest)[1..] == rest;
    }
  }

  lemma BodyForward(v: bytes, rest: bytes)
    ensures BodyAt(v + "," + rest, |v|) == Done(v, |v| + 1)
  {
    assert (v + "," + rest)[..|v|] == v;
  }

  lemma FieldShape(v: bytes, rest: bytes)
    ensures EncodeField(v) + rest == Dec(|v|) + (":" + (v + "," + rest))
    ensures (EncodeField(v) + rest)[|Dec(|v|)| + 1..] == v + "," + rest
  {
    hide Dec;
    var d, body := Dec(|v|), v + "," + rest;
    Assoc(d + ":" + v, ",", rest);
    Assoc(d + ":", v, "," + rest);
    Assoc(v, ",", rest);
    Assoc(d, ":", body);
    assert EncodeField(v) + rest == d + ":" + body;
    Drop(d + ":", body);
  }

  lemma DecimalEnds(rest: bytes, value: nat, count: nat, zero: bool, max: int)
    requires count > 0
    ensures DecimalFrom(":" + rest, value, count, zero, max) == Done(value, count + 1)
  {
  }

  lemma FieldForward(v: bytes, rest: bytes, left: int)
    requires |EncodeField(v)| <= left <= MAX_INT64
    ensures FieldAt(EncodeField(v) + rest, left) == Done(v, |EncodeField(v)|)
  {
    hide Dec, DecimalFrom, BodyAt;
    var s := EncodeField(v) + rest;
    var n := |Dec(|v|)| + 1;
    FieldShape(v, rest);
    DecimalForward(|v|, ":" + (v + "," + rest), left);
    DecimalEnds(v + "," + rest, |v|, |Dec(|v|)|, |v| == 0, left);
    BodyForward(v, rest);
  }

  lemma {:induction false} FieldsForward(vs: seq<bytes>, rest: bytes, left: int)
    requires |EncodeFields(vs)| <= left <= MAX_INT64
    ensures FieldsAt(EncodeFields(vs) + rest, |vs|, left) == Done(vs, |EncodeFields(vs)|)
  {
    hide FieldAt, EncodeField;
    if vs != [] {
      var head, tail := EncodeField(vs[0]), EncodeFields(vs[1..]);
      Assoc(head, tail, rest);
      FieldForward(vs[0], tail + rest, left);
      FieldsForward(vs[1..], rest, left - |head|);
      Drop(head, tail + rest);
      assert [vs[0]] + vs[1..] == vs;
    }
  }

  lemma HeaderForward(count: nat, rest: bytes, max: int)
    requires count <= MAX_RECORD_FIELDS && max >= MIN_RECORD
    ensures HeaderAt(EncodeHeader(count) + rest, max) == Done(count, |EncodeHeader(count)|)
  {
    var s := EncodeHeader(count) + rest;
    assert s[..5] == RECORD_PREFIX && s[5..] == Dec(count) + (":" + rest);
    DecimalForward(count, ":" + rest, MAX_RECORD_FIELDS);
  }

  lemma TailForward(vs: seq<bytes>, rest: bytes, used: nat, max: int)
    requires used + |EncodeFields(vs)| < max <= MAX_INT64
    ensures TailAt(EncodeFields(vs) + "\n" + rest, |vs|, used, max) == Done(vs, |EncodeFields(vs)| + 1)
  {
    hide FieldsAt;
    Assoc(EncodeFields(vs), "\n", rest);
    FieldsForward(vs, "\n" + rest, max - used);
    Drop(EncodeFields(vs), "\n" + rest);
    assert ("\n" + rest)[0] == '\n';
  }

  /**
   * The record codec is an exact prefix code: under a limit of max bytes, scanning an encoding
   * gives its fields back and stops just after it exactly when it is within both limits.
   */
  lemma RecordRoundTrip(vs: seq<bytes>, rest: bytes, max: int)
    requires max <= MAX_INT64
    ensures RecordAt(Encode(vs) + rest, max) == Done(vs, |Encode(vs)|)
       <==> |vs| <= MAX_RECORD_FIELDS && |Encode(vs)| <= max
  {
    var s := Encode(vs) + rest;
    if RecordAt(s, max) == Done(vs, |Encode(vs)|) {
      RecordCanonical(s, max);
    }
    if |vs| <= MAX_RECORD_FIELDS && |Encode(vs)| <= max {
      var h := |EncodeHeader(|vs|)|;
      Assoc(EncodeHeader(|vs|), EncodeFields(vs) + "\n", rest);
      HeaderForward(|vs|, EncodeFields(vs) + "\n" + rest, max);
      assert s[h..] == EncodeFields(vs) + "\n" + rest;
      TailForward(vs, rest, h, max);
    }
  }

  // --- Torn records ----------------------------------------------------------------------------

  /** A field of size declared bytes whose value is longer and goes on where its comma should be. */
  predicate TornValue(size: nat, value: bytes) {
    size < |value| && value[size] != ','
  }

  /** A record of count fields that breaks off in the one after before; more is what follows of its line. */
  function Torn(count: nat, before: seq<bytes>, size: nat, more: bytes): bytes {
    EncodeHeader(count) + (EncodeFields(before) + (Dec(size) + (":" + more)))
  }

  function TornUsed(count: nat, before: seq<bytes>, size: nat): nat {
    |EncodeHeader(count)| + |EncodeFields(before)| + |Dec(size)| + size + 2
  }

  lemma FieldTorn(size: nat, more: bytes, left: int)
    requires TornValue(size, more) && |Dec(size)| + size + 2 <= left <= MAX_INT64
    ensures FieldAt(Dec(size) + (":" + more), left) == Bad(|Dec(size)| + size + 2)
  {
    hide Dec, DecimalFrom;
    DecimalForward(size, ":" + more, left);
    DecimalEnds(more, size, |Dec(size)|, size == 0, left);
    Assoc(Dec(size), ":", more);
    Drop(Dec(size) + ":", more);
  }

  lemma {:induction false} FieldsTorn(before: seq<bytes>, torn: bytes, n: nat, count: nat, left: int)
    requires |before| < count && |EncodeFields(before)| <= left <= MAX_INT64
    requires FieldAt(torn, left - |EncodeFields(before)|) == Bad(n)
    ensures FieldsAt(EncodeFields(before) + torn, count, left) == Bad(|EncodeFields(before)| + n)
  {
    hide FieldAt, EncodeField;
    if before == [] {
      assert EncodeFields(before) + torn == torn;
    } else {
      var head, tail := EncodeField(before[0]), EncodeFields(before[1..]);
      Assoc(head, tail, torn);
      FieldForward(before[0], tail + torn, left);
      FieldsTorn(before[1..], torn, n, count - 1, left - |head|);
      Drop(head, tail + torn);
    }
  }

  /** The scanner finds a torn record malformed just after the byte where it expected the comma. */
  lemma TornRefused(count: nat, before: seq<bytes>, size: nat, more: bytes, max: int)
    requires |before| < count <= MAX_RECORD_FIELDS && TornValue(size, more)
    requires TornUsed(count, before, size) <= max <= MAX_INT64
    ensures RecordAt(Torn(count, before, size, more), max) == Bad(TornUsed(count, before, size))
    ensures TornUsed(count, before, size) <= |Torn(count, before, size, more)|
    ensures Torn(count, before, size, more)[TornUsed(count, before, size)..] == more[size + 1..]
  {
    hide FieldAt, FieldsAt, HeaderAt, EncodeHeader, EncodeFields, Dec;
    var h, body := |EncodeHeader(count)|, Dec(size) + (":" + more);
    var text := Torn(count, before, size, more);
    HeaderLong(count);
    HeaderForward(count, EncodeFields(before) + body, max);
    Drop(EncodeHeader(count), EncodeFields(before) + body);
    FieldTorn(size, more, max - h - |EncodeFields(before)|);
    FieldsTorn(before, body, |Dec(size)| + size + 2, count, max - h);
    Drop(EncodeFields(before), body);
    Drop(Dec(size), ":" + more);
    assert text[h..][|EncodeFields(before)|..][|Dec(size)|..][size + 2..] == more[size + 1..];
  }

  lemma HeaderLong(count: nat)
    ensures |EncodeHeader(count)| >= 7 && EncodeHeader(count)[..5] == RECORD_PREFIX
  {
    assert |Dec(count)| >= 1;
  }

  /** The wire that ReadRecord re-serialises and the wire that ReadRecordWire tees are both the bytes consumed. */
  method ReadRecord(source: Cursor, maxBytes: int64) returns (out: Scan<seq<bytes>>, wire: bytes, teed: bytes)
    requires source.pos <= |source.data|
    modifies source
    ensures out == RecordAt(source.data[old(source.pos)..], maxBytes as int)
    ensures old(source.pos) <= source.pos <= |source.data|
    ensures source.pos == old(source.pos) + Consumed(out, source.data[old(source.pos)..])
    ensures teed == source.data[old(source.pos)..source.pos]
    ensures out.Done? ==> wire == teed
  {
    hide RecordAt, Encode;
    ghost var start, s := source.pos, source.data[source.pos..];
    var r := new RecordReader(source);
    out, wire := ScanRecord(r, maxBytes);
    teed := r.data;
    if out.Done? {
      RecordCanonical(s, maxBytes as int);
      assert s[..out.used] == source.data[start..start + out.used];
    }
  }

  // --- Record streams ------------------------------------------------------------------------

  function EncodeAll(rows: seq<seq<bytes>>): bytes {
    if rows == [] then [] else Encode(rows[0]) + EncodeAll(rows[1..])
  }

  /** The rows of a record stream, or None where a record is malformed or of the wrong width. */
  function RowsAt(s: bytes, width: nat): Option<seq<seq<bytes>>>
    decreases |s|
  {
    if s == [] then Some([])
    else
      match RecordAt(s, |s|)
      case Done(fields, n) =>
        if |fields| != width then None
        else
          (match RowsAt(s[n..], width)
           case None => None
           case Some(rows) => Some([fields] + rows))
      case _ => None
  }

  function AddRows(rows: seq<seq<bytes>>, more: Option<seq<seq<bytes>>>): Option<seq<seq<bytes>>> {
    match more
    case None => None
    case Some(m) => Some(rows + m)
  }

  lemma RowsStep(s: bytes, rows: seq<seq<bytes>>, width: nat)
    requires s != [] && RecordAt(s, |s|).Done? && |RecordAt(s, |s|).value| == width
    ensures var r := RecordAt(s, |s|);
      AddRows(rows, RowsAt(s, width)) == AddRows(rows + [r.value], RowsAt(s[r.used..], width))
  {
    hide RecordAt;
    var r := RecordAt(s, |s|);
    var more := RowsAt(s[r.used..], width);
    if more.Some? {
      assert rows + ([r.value] + more.value) == rows + [r.value] + more.value;
    }
  }

  method ParseRecords(data: bytes, width: nat) returns (out: Option<seq<seq<bytes>>>)
    requires |data| <= MAX_INT64
    ensures out == RowsAt(data, width)
  {
    hide RecordAt, Encode, EncodeAll;
    var rows: seq<seq<bytes>> := [];
    var source := new Cursor(data);
    assert data[0..] == data && forall more: seq<seq<bytes>> :: rows + more == more;
    while source.pos < |data|
      invariant source.data == data && source.pos <= |data|
      invariant RowsAt(data, width) == AddRows(rows, RowsAt(data[source.pos..], width))
    {
      ghost var start := source.pos;
      var record, _, _ := ReadRecord(source, (|data| - source.pos) as int64);
      if !record.Done? || |record.value| != width {
        return None;
      }
      assert data[start..][record.used..] == data[source.pos..];
      RowsStep(data[start..], rows, width);
      rows := rows + [record.value];
    }
    assert rows + [] == rows;
    return Some(rows);
  }

  /** ParseRecords inverts concatenation: it accepts exactly the streams of width-field records. */
  lemma {:induction false} RecordStreamRoundTrip(rows: seq<seq<bytes>>, width: nat)
    requires width <= MAX_RECORD_FIELDS && |EncodeAll(rows)| <= MAX_INT64
    ensures RowsAt(EncodeAll(rows), width) == Some(rows) <==> forall row <- rows :: |row| == width
  {
    hide RecordAt, Encode;
    if rows != [] {
      var s := EncodeAll(rows);
      RecordRoundTrip(rows[0], EncodeAll(rows[1..]), |s|);
      assert s[|Encode(rows[0])|..] == EncodeAll(rows[1..]);
      RecordStreamRoundTrip(rows[1..], width);
      assert rows == [rows[0]] + rows[1..];
    }
  }

  lemma RowsUnfold(s: bytes, width: nat)
    requires s != [] && RowsAt(s, width).Some?
    ensures var r := RecordAt(s, |s|);
      && r.Done? && RowsAt(s[r.used..], width).Some?
      && RowsAt(s, width).value == [r.value] + RowsAt(s[r.used..], width).value
  {
    hide RecordAt;
  }

  lemma EncodeAllCons(row: seq<bytes>, rows: seq<seq<bytes>>)
    ensures EncodeAll([row] + rows) == Encode(row) + EncodeAll(rows)
  {
    hide Encode;
    assert ([row] + rows)[1..] == rows;
  }

  lemma Rejoin(s: bytes, n: nat)
    requires n <= |s|
    ensures s == s[..n] + s[n..]
  {
  }

  lemma {:induction false} RecordStreamCanonical(s: bytes, width: nat)
    requires RowsAt(s, width).Some?
    ensures s == EncodeAll(RowsAt(s, width).value)
    decreases |s|
  {
    if s != [] {
      hide RowsAt, RecordAt, Encode, EncodeAll;
      RowsUnfold(s, width);
      var r := RecordAt(s, |s|);
      RecordCanonical(s, |s|);
      RecordStreamCanonical(s[r.used..], width);
      EncodeAllCons(r.value, RowsAt(s[r.used..], width).value);
      Rejoin(s, r.used);
    }
  }
}
