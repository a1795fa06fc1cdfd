/** The CR-stripping reader of a PTY connection: controlStreamReader in tmux/control_codec.go. */
module StreamReader {
  import opened Bytes

  const CR: byte := '\r'
  const LF: byte := '\n'
  const PREAMBLE: bytes := [ESC, 'P', '1', '0', '0', '0', 'p']

  // --- What stripping means ---------------------------------------------------------------

  /** The length of a preamble that s holds whole. */
  function PreambleLen(s: bytes): nat {
    if PREAMBLE <= s then 7 else 0
  }

  /** s without each CR that stands immediately before an LF. */
  function Strip(s: bytes): bytes {
    if s == [] then []
    else if |s| > 1 && s[0] == CR && s[1] == LF then Strip(s[1..])
    else [s[0]] + Strip(s[1..])
  }

  /** What a terminal in its usual mode makes of s: each LF goes out as CR LF. */
  function Onlcr(s: bytes): bytes {
    if s == [] then [] else (if s[0] == LF then [CR, LF] else [s[0]]) + Onlcr(s[1..])
  }

  /** How what the terminal sends begins. */
  lemma OnlcrHead(s: bytes)
    requires s != []
    ensures s[0] == LF ==> Onlcr(s) == [CR] + ([LF] + Onlcr(s[1..]))
    ensures s[0] != LF ==> Onlcr(s) == [s[0]] + Onlcr(s[1..])
  {
    assert [CR, LF] == [CR] + [LF];
    Assoc([CR], [LF], Onlcr(s[1..]));
  }

  lemma StripHead(c: byte, t: bytes)
    ensures Strip([c] + t) == if c == CR && t != [] && t[0] == LF then Strip(t) else [c] + Strip(t)
  {
    assert ([c] + t)[1..] == t;
  }

  /** No LF of the data stands first in what the terminal sends. */
  lemma OnlcrNoLF(s: bytes)
    ensures s == [] <==> Onlcr(s) == []
    ensures s != [] ==> Onlcr(s)[0] != LF
  {
  }

  /** Stripping undoes the terminal, whatever the bytes: a CR of the data is never lost. */
  lemma {:induction false} StripUndoesOnlcr(s: bytes)
    ensures Strip(Onlcr(s)) == s
  {
    if s != [] {
      hide Strip, Onlcr;
      var rest := Onlcr(s[1..]);
      StripUndoesOnlcr(s[1..]);
      OnlcrHead(s);
      OnlcrNoLF(s[1..]);
      StripHead(s[0], rest);
      StripHead(CR, [LF] + rest);
      assert [s[0]] + s[1..] == s;
    } else {
      assert Strip([]) == [];
    }
  }

  /** What can be emitted after reading s when a CR may be held back, and whether one is held after. */
  function Feed(s: bytes, held: bool): (r: (bytes, bool))
    ensures |r.0| + (if r.1 then 1 else 0) <= |s| + (if held then 1 else 0)
  {
    if s == [] then ([], held)
    else
      var (rest, after) := Feed(s[1..], s[0] == CR);
      (Front(s[0], held) + rest, after)
  }

  /** What one byte releases. */
  function Front(b: byte, held: bool): bytes {
    (if held && b != LF then [CR] else []) + (if b == CR then [] else [b])
  }

  function Held(held: bool): bytes {
    if held then [CR] else []
  }

  lemma FeedOne(b: byte, held: bool)
    ensures Feed([b], held) == (Front(b, held), b == CR)
  {
    assert [b][1..] == [] && Front(b, held) + [] == Front(b, held);
  }

  lemma {:induction false} FeedAppend(a: bytes, b: bytes, held: bool)
    ensures Feed(a + b, held).0 == Feed(a, held).0 + Feed(b, Feed(a, held).1).0
    ensures Feed(a + b, held).1 == Feed(b, Feed(a, held).1).1
  {
    if a == [] {
      assert a + b == b;
      assert [] + Feed(b, held).0 == Feed(b, held).0;
    } else {
      hide Front;
      assert (a + b)[1..] == a[1..] + b;
      FeedAppend(a[1..], b, a[0] == CR);
      var rest := Feed(a[1..], a[0] == CR);
      Assoc(Front(a[0], held), rest.0, Feed(b, rest.1).0);
    }
  }

  lemma FeedSnoc(s: bytes, i: nat, held: bool)
    requires i < |s|
    ensures var before := Feed(s[..i], held);
      Feed(s[..i + 1], held) == (before.0 + Front(s[i], before.1), s[i] == CR)
  {
    assert s[..i + 1] == s[..i] + [s[i]];
    FeedAppend(s[..i], [s[i]], held);
    FeedOne(s[i], Feed(s[..i], held).1);
  }

  /** Feeding in pieces and releasing a held CR at the end is stripping. */
  lemma {:induction false} FeedIsStrip(s: bytes, held: bool)
    ensures Feed(s, held).0 + Held(Feed(s, held).1) == Strip(Held(held) + s)
  {
    if s == [] {
      assert Held(held) + [] == Held(held);
      assert [] + Held(held) == Held(held);
      assert Strip([CR]) == [CR] + Strip([CR][1..]);
    } else {
      FeedIsStrip(s[1..], s[0] == CR);
      assert Held(s[0] == CR) + s[1..] == if s[0] == CR then s else s[1..];
      var rest := Feed(s[1..], s[0] == CR);
      assert Feed(s, held).0 + Held(rest.1) == Front(s[0], held) + (rest.0 + Held(rest.1));
      StripFront(s, held);
    }
  }

  lemma StripFront(s: bytes, held: bool)
    requires s != []
    ensures Strip(Held(held) + s) == Front(s[0], held) + Strip(if s[0] == CR then s else s[1..])
  {
    hide Strip;
    var lead: bytes := if held && s[0] != LF then [CR] else [];
    var next := if s[0] == CR then s else s[1..];
    StripByte(s, next);
    Assoc(lead, if s[0] == CR then [] else [s[0]], Strip(next));
    if held {
      StripHeld(s);
    } else {
      assert Held(held) + s == s && [] + Strip(s) == Strip(s);
    }
  }

  lemma StripHeld(s: bytes)
    requires s != []
    ensures Strip([CR] + s) == (if s[0] != LF then [CR] else []) + Strip(s)
  {
    assert ([CR] + s)[1..] == s && [] + Strip(s) == Strip(s);
  }

  lemma StripByte(s: bytes, next: bytes)
    requires s != [] && next == if s[0] == CR then s else s[1..]
    ensures Strip(s) == (if s[0] == CR then [] else [s[0]]) + Strip(next)
  {
    if s[0] == CR {
      assert [] + Strip(s) == Strip(s);
    }
  }

  // --- The source ----------------------------------------------------------------------------

  /** A reader that returns at least one byte until its end, in chunks of its own choosing. */
  class Source {
    const data: bytes
    var pos: nat

    constructor (data: bytes)
      ensures this.data == data && pos == 0
    {
      this.data := data;
      pos := 0;
    }

    method Read(p: array<byte>, off: nat) returns (n: nat)
      requires off < p.Length && pos <= |data|
      modifies this, p
      ensures pos == old(pos) + n <= |data| && off + n <= p.Length
      ensures n == 0 <==> old(pos) == |data|
      ensures p[off..off + n] == data[old(pos)..pos]
    {
      var most := if |data| - pos < p.Length - off then |data| - pos else p.Length - off;
      if most == 0 {
        return 0;
      }
      n :| 1 <= n <= most;
      for i := 0 to n
        invariant pos == old(pos) && p[off..off + i] == data[pos..pos + i]
      {
        p[off + i] := data[pos + i];
      }
      pos := pos + n;
    }
  }

  // --- The reader ----------------------------------------------------------------------------

  class ControlStreamReader {
    const source: Source
    var hasCR: bool
    var seenDSC: bool
    var pending: bytes
    ghost var skip: nat          // length of the preamble removed from the first chunk
    ghost var firstChunk: nat
    ghost var emitted: bytes     // everything returned to callers
    ghost var flushed: bool      // a CR held at the end has been released

    ghost predicate Valid()
      reads this, source
    {
      && skip <= source.pos <= |source.data|
      && (seenDSC <==> source.pos > 0)
      && firstChunk <= source.pos && (firstChunk > 0 <==> source.pos > 0)
      && skip == PreambleLen(source.data[..firstChunk])
      && (if flushed then
            source.pos == |source.data| && pending == [] && !hasCR && emitted == Strip(source.data[skip..])
          else
            (emitted + pending, hasCR) == Feed(source.data[skip..source.pos], false))
    }

    constructor (source: Source)
      requires source.pos == 0
      ensures Valid() && this.source == source && emitted == []
    {
      this.source := source;
      hasCR, seenDSC, pending := false, false, [];
      skip, firstChunk, emitted, flushed := 0, 0, [], false;
      new;
      assert source.data[0..0] == [] && emitted + pending == [];
    }

    /** transform's loop after i of the n source bytes at p[off..], which read src on entry. */
    ghost predicate Rewriting(p: array<byte>, off: nat, n: nat, i: nat, dst: nat, src: bytes, held: bool)
      reads this, p
    {
      && i <= n == |src| && off + n <= p.Length && dst <= p.Length
      && (held ==> off > 0 || n <= 1)
      && (dst < p.Length ==> pending == [])
      && dst + (if hasCR then 1 else 0) <= off + i + (if held && off == 0 then 1 else 0)
      && p[off + i..off + n] == src[i..]
      && (p[..dst] + pending, hasCR) == Feed(src[..i], held)
    }

    /**
     * Rewrites the n source bytes at p[off..] to the front of the same array. Every source byte is
     * read before the slot that holds it can be overwritten.
     */
    method Transform(p: array<byte>, off: nat, n: nat) returns (dst: nat)
      requires 0 < p.Length && off + n <= p.Length && pending == []
      requires hasCR ==> off > 0 || n <= 1
      modifies p, this`hasCR, this`pending
      ensures dst <= p.Length
      ensures (p[..dst] + pending, hasCR) == Feed(old(p[off..off + n]), old(hasCR))
      ensures dst < p.Length ==> pending == []
    {
      ghost var src, held := p[off..off + n], hasCR;
      dst := 0;
      assert src[..0] == [] && p[..0] + pending == [];
      for i := 0 to n
        invariant Rewriting(p, off, n, i, dst, src, held)
      {
        dst := TransformNext(p, off, n, i, dst, src, held);
      }
      assert src[..n] == src;
    }

    method TransformNext(p: array<byte>, off: nat, n: nat, i: nat, dst: nat, ghost src: bytes, ghost held: bool)
      returns (next: nat)
      requires i < n && Rewriting(p, off, n, i, dst, src, held)
      modifies p, this`hasCR, this`pending
      ensures Rewriting(p, off, n, i + 1, next, src, held)
    {
      hide Feed, Front;
      var b := p[off + i];
      assert b == src[i];
      FeedSnoc(src, i, held);
      ghost var ahead := p[off + i + 1..off + n];
      assert ahead == p[off + i..off + n][1..] && src[i..][1..] == src[i + 1..];
      next := TransformByte(p, dst, b);
      assert i + 1 < n ==> next <= off + i + 1;
      assert p[off + i + 1..off + n] == ahead;
    }

    /** One turn of transform's loop: it writes only slots below the new dst. */
    method TransformByte(p: array<byte>, dst: nat, b: byte) returns (next: nat)
      requires dst <= p.Length && (dst < p.Length ==> pending == [])
      modifies p, this`hasCR, this`pending
      ensures dst <= next <= p.Length && (next < p.Length ==> pending == [])
      ensures p[..next] + pending == old(p[..dst] + pending) + Front(b, old(hasCR)) && hasCR == (b == CR)
      ensures next + (if hasCR then 1 else 0) <= dst + 1 + (if old(hasCR) then 1 else 0)
      ensures forall k :: next <= k < p.Length ==> p[k] == old(p[k])
    {
      next := dst;
      ghost var before := p[..dst] + pending;
      assert before + [] == before && before + [CR] + [b] == before + ([CR] + [b]);
      if hasCR {
        hasCR := false;
        if b != LF {
          next := Emit(p, next, CR);
        }
      }
      if b == CR {
        hasCR := true;
      } else {
        next := Emit(p, next, b);
      }
    }

    method Emit(p: array<byte>, dst: nat, b: byte) returns (next: nat)
      requires dst <= p.Length && (dst < p.Length ==> pending == [])
      modifies p, this`pending
      ensures next == (if dst < p.Length then dst + 1 else dst)
      ensures p[..next] + pending == old(p[..dst] + pending) + [b]
      ensures next < p.Length ==> pending == []
      ensures forall k :: next <= k < p.Length ==> p[k] == old(p[k])
    {
      if dst < p.Length {
        p[dst] := b;
        return dst + 1;
      }
      pending := pending + [b];
      return dst;
    }

    /** filterDSC: the offset and length of the chunk p[off..off + n] without its preamble. */
    method FilterDSC(p: array<byte>, off: nat, n: nat) returns (from: nat, size: nat)
      requires off + n <= p.Length
      modifies this`seenDSC, this`skip, this`firstChunk
      ensures seenDSC && from >= off && from + size == off + n
      ensures old(seenDSC) ==> from == off && skip == old(skip) && firstChunk == old(firstChunk)
      ensures !old(seenDSC) ==>
        from == off + PreambleLen(p[off..off + n]) && skip == PreambleLen(p[off..off + n]) && firstChunk == n
    {
      from, size := off, n;
      if !seenDSC {
        seenDSC := true;
        firstChunk := n;
        skip := 0;
        if PREAMBLE <= p[off..off + n] {
          from, size := off + 7, n - 7;
          skip := 7;
        }
      }
    }

    /** Rewrites a chunk that continues prior, the preamble-free input read before it. */
    method TransformChunk(p: array<byte>, from: nat, size: nat, ghost prior: bytes) returns (n: nat)
      requires 0 < p.Length && from + size <= p.Length && pending == [] && !flushed && seenDSC
      requires hasCR ==> from > 0 || size <= 1
      requires 0 < firstChunk <= source.pos <= |source.data| && skip <= source.pos
      requires skip == PreambleLen(source.data[..firstChunk])
      requires (emitted, hasCR) == Feed(prior, false)
      requires prior + p[from..from + size] == source.data[skip..source.pos]
      modifies p, this`hasCR, this`pending, this`emitted
      ensures Valid() && n <= p.Length && emitted == old(emitted) + p[..n]
      ensures n == 0 ==> emitted == old(emitted)
    {
      FeedAppend(prior, p[from..from + size], false);
      n := Transform(p, from, size);
      assert emitted + (p[..n] + pending) == emitted + p[..n] + pending;
      emitted := emitted + p[..n];
    }

    /** The end of the source: a held CR is data after all. */
    method Flush(p: array<byte>) returns (n: nat)
      requires Valid() && p.Length > 0 && pending == [] && source.pos == |source.data|
      modifies p, this`hasCR, this`emitted, this`flushed
      ensures Valid() && n <= p.Length && emitted == old(emitted) + p[..n]
      ensures emitted == Strip(source.data[skip..])
    {
      assert p[..0] == [] && emitted + [] == emitted;
      if !flushed {
        assert source.data[..|source.data|] == source.data;
        FeedIsStrip(source.data[skip..], false);
        assert Held(false) + source.data[skip..] == source.data[skip..];
      }
      flushed := true;
      if hasCR {
        hasCR := false;
        p[0] := CR;
        emitted := emitted + [CR];
        return 1;
      }
      return 0;
    }

    /** Bytes an earlier read could not fit. */
    method Drain(p: array<byte>) returns (n: nat)
      requires Valid() && p.Length > 0 && pending != []
      modifies this`pending, this`emitted, p
      ensures Valid() && 0 < n <= p.Length && emitted == old(emitted) + p[..n]
    {
      n := if |pending| < p.Length then |pending| else p.Length;
      forall k | 0 <= k < n {
        p[k] := pending[k];
      }
      assert p[..n] == pending[..n];
      assert emitted + pending == emitted + pending[..n] + pending[n..];
      emitted := emitted + p[..n];
      pending := pending[n..];
    }

    /** One read of the source and what it releases; got is 0 at the end. */
    method ReadChunk(p: array<byte>) returns (got: nat, n: nat)
      requires Valid() && p.Length > 0 && pending == []
      modifies this, source, p
      ensures Valid() && source.pos == old(source.pos) + got
      ensures n <= p.Length && emitted == old(emitted) + p[..n]
      ensures got == 0 ==> emitted == Strip(source.data[skip..])
    {
      hide Feed, Strip;
      var off := if hasCR && p.Length > 1 then 1 else 0;
      ghost var start, prior := source.pos, source.data[skip..source.pos];
      assert emitted + pending == emitted;
      got := source.Read(p, off);
      if got == 0 {
        n := Flush(p);
        return;
      }
      var from, size := FilterDSC(p, off, got);
      if start > 0 {
        assert source.data[skip..start] + source.data[start..source.pos] == source.data[skip..source.pos];
      } else {
        assert source.data[..source.pos] == source.data[0..source.pos];
        assert prior == [] && p[from..from + size] == p[off..off + got][skip..] == source.data[..source.pos][skip..];
      }
      n := TransformChunk(p, from, size, prior);
    }

    /**
     * Read: n bytes into the caller's array, with eof set once nothing can follow. The bytes returned
     * so far are always what stripping allows, and at the end they are the whole stripped input.
     */
    method Read(p: array<byte>) returns (n: nat, eof: bool)
      requires Valid() && p.Length > 0
      modifies this, source, p
      ensures Valid() && n <= p.Length
      ensures emitted == old(emitted) + p[..n]
      ensures n == 0 ==> eof
      ensures eof ==> emitted == Strip(source.data[skip..])
    {
      while true
        invariant Valid() && emitted == old(emitted)
        decreases |source.data| - source.pos
      {
        if |pending| > 0 {
          n := Drain(p);
          return n, false;
        }
        var got;
        got, n := ReadChunk(p);
        if got == 0 || n > 0 {
          return n, got == 0;
        }
        assert p[..0] == [] && emitted == old(emitted) + [];
      }
    }
  }

  /**
   * Reading to the end through buffers and chunks of any sizes strips the whole input; a preamble is dropped on the way
   * exactly when the first chunk, of length first, holds it whole.
   */
  method ReadAll(data: bytes) returns (out: bytes, ghost first: nat)
    ensures out == Strip(data) || (PREAMBLE <= data && out == Strip(data[7..]))
    ensures first <= |data| && (first == 0 <==> data == [])
    ensures out == if first >= 7 && PREAMBLE <= data then Strip(data[7..]) else Strip(data)
  {
    var source := new Source(data);
    var reader := new ControlStreamReader(source);
    out := [];
    var eof := false;
    while !eof
      invariant reader.Valid() && reader.source == source && source.data == data
      invariant fresh(reader) && fresh(source)
      invariant out == reader.emitted
      invariant eof ==> out == Strip(data[reader.skip..])
      decreases !eof, |data| + 1 - |out|
    {
      var size: nat :| size >= 1;
      var p := new byte[size];
      var n;
      n, eof := reader.Read(p);
      out := out + p[..n];
      EmittedBound(reader);
    }
    assert data[0..] == data;
    first := reader.firstChunk;
    assert PREAMBLE <= data[..first] <==> first >= 7 && PREAMBLE <= data;
  }

  lemma {:induction false} StripBound(s: bytes)
    ensures |Strip(s)| <= |s|
  {
    if s != [] {
      StripBound(s[1..]);
    }
  }

  lemma EmittedBound(reader: ControlStreamReader)
    requires reader.Valid()
    ensures |reader.emitted| <= |reader.source.data|
  {
    if reader.flushed {
      StripBound(reader.source.data[reader.skip..]);
    }
  }

  /** readControlUnit discards a preamble at the start of a unit. */
  function DropPreamble(s: bytes): bytes {
    s[PreambleLen(s)..]
  }

  lemma {:induction false} StripNoCR(a: bytes, s: bytes)
    requires CR !in a
    ensures Strip(a + s) == a + Strip(s)
  {
    if a == [] {
      assert a + s == s && [] + Strip(s) == Strip(s);
    } else {
      assert (a + s)[1..] == a[1..] + s;
      StripNoCR(a[1..], s);
      assert [a[0]] + (a[1..] + Strip(s)) == a + Strip(s);
    }
  }

  /**
   * Whether or not the first chunk held the preamble whole, the first unit starts at the same byte: exactly when no
   * second preamble follows.
   */
  lemma PreambleOnce(data: bytes)
    requires PREAMBLE <= data
    ensures DropPreamble(Strip(data)) == DropPreamble(Strip(data[7..])) <==> !(PREAMBLE <= Strip(data[7..]))
  {
    assert data == PREAMBLE + data[7..];
    StripNoCR(PREAMBLE, data[7..]);
    assert (PREAMBLE + Strip(data[7..]))[7..] == Strip(data[7..]);
  }
}
