/** Quoting and writers for tmux command text: internal/wire/argv.go. */
module Argv {
  import opened Bytes

  // --- Arguments and names -------------------------------------------------------

  /** Escapes the trailing semicolon that tmux would take for a command separator. */
  function EscapeArg(s: bytes): bytes {
    if s != [] && s[|s| - 1] == ';' then s[..|s| - 1] + ['\\', ';'] else s
  }

  predicate IsLetter(c: byte) {
    'a' <= c <= 'z' || 'A' <= c <= 'Z'
  }

  predicate IsCommandChar(c: byte) {
    IsLetter(c) || '0' <= c <= '9' || c == '-' || c == '_'
  }

  predicate ValidCommand(s: bytes) {
    s != [] && IsLetter(s[0]) && forall i :: 1 <= i < |s| ==> IsCommandChar(s[i])
  }

  /** An ASCII letter, by its code. */
  predicate LetterCode(n: int) {
    65 <= n <= 90 || 97 <= n <= 122
  }

  /** A command name is an ASCII letter, then letters, digits, hyphens and underscores, and nothing else is one. */
  lemma ValidCommandExactly(s: bytes)
    ensures ValidCommand(s) <==>
      && s != [] && LetterCode(s[0] as int)
      && forall c <- s :: LetterCode(c as int) || 48 <= c as int <= 57 || c as int == 45 || c as int == 95
  {
    assert forall i :: 0 <= i < |s| ==> s[i] in s;
    assert forall i :: 0 <= i < |s| ==> (IsLetter(s[i]) <==> LetterCode(s[i] as int));
  }

  // --- Quoting ---------------------------------------------------------------------

  predicate IsSafeQuoteByte(c: byte) {
    && 0x20 <= c as int < 0x7f
    && c != '"' && c != '\\' && c != '$' && c != '`' && c != '~'
  }

  function OctalDigit(d: nat): byte
    requires d < 8
  {
    ('0' as int + d) as char
  }

  function OctalEscape(c: byte): bytes {
    var n := c as int;
    ['\\', OctalDigit(n / 64), OctalDigit(n / 8 % 8), OctalDigit(n % 8)]
  }

  function QuoteByte(c: byte): bytes {
    if IsSafeQuoteByte(c) then [c] else OctalEscape(c)
  }

  /** The body of a double-quoted word holding s. */
  function QuoteBytes(s: bytes): bytes {
    if s == [] then [] else QuoteByte(s[0]) + QuoteBytes(s[1..])
  }

  /** WriteQuoted: s as one double-quoted word. */
  function Quoted(s: bytes): bytes {
    "\"" + QuoteBytes(s) + "\""
  }

  /** What reaches the bottom of a stack of depth quoting writers when s enters at the top. */
  function QuoteN(depth: nat, s: bytes): bytes
    decreases depth
  {
    if depth == 0 then s else QuoteN(depth - 1, QuoteBytes(s))
  }

  lemma {:induction false} QuoteAppend(a: bytes, b: bytes)
    ensures QuoteBytes(a + b) == QuoteBytes(a) + QuoteBytes(b)
  {
    if a == [] {
      assert a + b == b;
    } else {
      assert (a + b)[1..] == a[1..] + b;
      QuoteAppend(a[1..], b);
    }
  }

  lemma {:induction false} QuoteNAppend(depth: nat, a: bytes, b: bytes)
    ensures QuoteN(depth, a + b) == QuoteN(depth, a) + QuoteN(depth, b)
    decreases depth
  {
    if depth > 0 {
      QuoteAppend(a, b);
      QuoteNAppend(depth - 1, QuoteBytes(a), QuoteBytes(b));
    }
  }

  lemma {:induction false} QuoteNAppend3(depth: nat, a: bytes, b: bytes, c: bytes)
    ensures QuoteN(depth, a + b + c) == QuoteN(depth, a) + QuoteN(depth, b) + QuoteN(depth, c)
  {
    QuoteNAppend(depth, a + b, c);
    QuoteNAppend(depth, a, b);
  }

  lemma {:induction false} QuoteNEmpty(depth: nat)
    ensures QuoteN(depth, []) == []
    decreases depth
  {
    if depth > 0 {
      QuoteNEmpty(depth - 1);
    }
  }

  /** One writer more quotes once more. */
  lemma QuoteNOnce(depth: nat, s: bytes)
    ensures QuoteN(depth + 1, s) == QuoteN(depth, QuoteBytes(s))
  {
  }

  lemma {:induction false} QuoteSafe(s: bytes)
    requires forall i :: 0 <= i < |s| ==> IsSafeQuoteByte(s[i])
    ensures QuoteBytes(s) == s
  {
    if s != [] {
      QuoteSafe(s[1..]);
    }
  }

  /** A quoted body is printable, free of quotes, and holds neither NUL nor newline. */
  lemma {:induction false} QuotePrintable(s: bytes)
    ensures forall i :: 0 <= i < |QuoteBytes(s)| ==> 0x20 <= QuoteBytes(s)[i] as int < 0x7f && QuoteBytes(s)[i] != '"'
  {
    if s != [] {
      QuotePrintable(s[1..]);
    }
  }

  // --- Writers -----------------------------------------------------------------------

  datatype WriteError = NulText | SizeLimit | BadName
  datatype Outcome = Done | Failed(error: WriteError)

  /** The writer under a stack of QuoteWriters: a strings.Builder, or a Counter when it has a limit. */
  class Sink {
    const limit: Option<int>
    var text: bytes
    var n: int
    var full: bool
    ghost var seen: bytes

    ghost predicate Valid()
      reads this
    {
      && (limit.None? ==> text == seen && !full)
      && (limit.Some? ==> n == |seen|)
    }

    ghost predicate Fits(size: int) {
      limit.Some? ==> size <= limit.value
    }

    constructor (limit: Option<int>)
      ensures this.limit == limit && Valid() && seen == [] && !full
    {
      this.limit := limit;
      text, n, full, seen := [], 0, false, [];
    }

    method Put(p: bytes) returns (r: Outcome)
      requires Valid() && !full
      modifies this
      ensures Valid()
      ensures r == if Fits(|old(seen)| + |p|) then Done else Failed(SizeLimit)
      ensures r.Done? ==> !full && seen == old(seen) + p
    {
      if limit.Some? {
        if n > limit.value - |p| {
          full := true;
          return Failed(SizeLimit);
        }
        n := n + |p|;
      } else {
        text := text + p;
      }
      seen := seen + p;
      return Done;
    }
  }

  /**
   * Where a stack of depth QuoteWriters stands when it has been given done out of whole: the sink
   * has grown by the quoted form of done, or whole cannot fit.
   */
  ghost predicate Wrote(sink: Sink, depth: nat, before: bytes, done: bytes, whole: bytes, r: Outcome)
    reads sink
  {
    && sink.Valid()
    && (r.Done? ==> !sink.full && sink.seen == before + QuoteN(depth, done))
    && (r == Failed(SizeLimit) ==> !sink.Fits(|before| + |QuoteN(depth, whole)|))
  }

  /** One more piece of whole passed down. */
  lemma Extend(sink: Sink, depth: nat, before: bytes, done: bytes, piece: bytes, whole: bytes, r: Outcome)
    requires done + piece <= whole
    requires Wrote(sink, depth, before + QuoteN(depth, done), piece, piece, r)
    ensures Wrote(sink, depth, before, done + piece, whole, r)
  {
    hide QuoteN;
    assert whole == done + piece + whole[|done + piece|..];
    QuoteNAppend3(depth, done, piece, whole[|done + piece|..]);
    QuoteNAppend(depth, done, piece);
  }

  /** Write through a stack of depth QuoteWriters, in the chunks QuoteWriter.Write passes down. */
  method Write(sink: Sink, depth: nat, p: bytes) returns (r: Outcome)
    requires sink.Valid() && !sink.full
    modifies sink
    ensures Wrote(sink, depth, old(sink.seen), p, p, r)
    ensures r == Failed(NulText) ==> depth > 0 && !NulFree(p)
    ensures r.Done? && depth > 0 ==> NulFree(p)
    ensures r == Done || r == Failed(NulText) || r == Failed(SizeLimit)
    decreases depth, 1
  {
    if depth == 0 {
      r := sink.Put(p);
      return;
    }
    ghost var before := sink.seen;
    var start := 0;
    QuoteNEmpty(depth);
    for i := 0 to |p|
      invariant 0 <= start <= i
      invariant Wrote(sink, depth, before, p[..start], p, Done)
      invariant forall k :: start <= k < i ==> IsSafeQuoteByte(p[k])
      invariant NUL !in p[..i]
    {
      var c := p[i];
      if !IsSafeQuoteByte(c) {
        if c == NUL {
          return Failed(NulText);
        }
        r := WriteRun(sink, depth, p, start, i, before);
        if r.Failed? {
          return;
        }
        r := WriteEscape(sink, depth, p, i, before);
        if r.Failed? {
          return;
        }
        start := i + 1;
      }
      assert p[..i + 1] == p[..i] + [c];
    }
    assert p[..|p|] == p;
    r := WriteRun(sink, depth, p, start, |p|, before);
  }

  method WriteRun(sink: Sink, depth: nat, p: bytes, start: nat, i: nat, ghost before: bytes) returns (r: Outcome)
    requires depth > 0 && start <= i <= |p|
    requires Wrote(sink, depth, before, p[..start], p, Done)
    requires forall k :: start <= k < i ==> IsSafeQuoteByte(p[k])
    modifies sink
    ensures Wrote(sink, depth, before, p[..i], p, r) && (r == Done || r == Failed(SizeLimit))
    decreases depth, 0
  {
    if start == i {
      return Done;
    }
    SplitPrefix(depth, p, start, i);
    assert NulFree(p[start..i]);
    r := Write(sink, depth - 1, p[start..i]);
  }

  method WriteEscape(sink: Sink, depth: nat, p: bytes, i: nat, ghost before: bytes) returns (r: Outcome)
    requires depth > 0 && i < |p| && !IsSafeQuoteByte(p[i])
    requires Wrote(sink, depth, before, p[..i], p, Done)
    modifies sink
    ensures Wrote(sink, depth, before, p[..i + 1], p, r) && (r == Done || r == Failed(SizeLimit))
    decreases depth, 0
  {
    SplitByte(depth, p, i);
    assert forall d: nat :: d < 8 ==> OctalDigit(d) != NUL;
    assert NulFree(OctalEscape(p[i]));
    r := Write(sink, depth - 1, OctalEscape(p[i]));
  }

  /** A run of safe bytes passes down one level unchanged. */
  lemma SplitPrefix(depth: nat, p: bytes, start: nat, i: nat)
    requires depth > 0 && start <= i <= |p|
    requires forall k :: start <= k < i ==> IsSafeQuoteByte(p[k])
    ensures QuoteN(depth, p[..i]) == QuoteN(depth, p[..start]) + QuoteN(depth - 1, p[start..i])
    ensures |QuoteN(depth, p)| >= |QuoteN(depth, p[..i])|
  {
    assert p[..i] == p[..start] + p[start..i] && p == p[..i] + p[i..];
    QuoteNAppend(depth, p[..start], p[start..i]);
    QuoteNAppend(depth, p[..i], p[i..]);
    QuoteSafe(p[start..i]);
  }

  /** An unsafe byte passes down one level as its octal escape. */
  lemma SplitByte(depth: nat, p: bytes, i: nat)
    requires depth > 0 && i < |p| && !IsSafeQuoteByte(p[i])
    ensures QuoteN(depth, p[..i + 1]) == QuoteN(depth, p[..i]) + QuoteN(depth - 1, OctalEscape(p[i]))
    ensures |QuoteN(depth, p)| >= |QuoteN(depth, p[..i + 1])|
  {
    assert p[..i + 1] == p[..i] + [p[i]] && p == p[..i + 1] + p[i + 1..];
    QuoteNAppend(depth, p[..i], [p[i]]);
    QuoteNAppend(depth, p[..i + 1], p[i + 1..]);
    assert [p[i]][1..] == [] && OctalEscape(p[i]) + [] == OctalEscape(p[i]);
    assert QuoteBytes([p[i]]) == OctalEscape(p[i]);
  }
}
