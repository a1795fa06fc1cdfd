/**
 * How words may be written in tmux command text, as a grammar and not as the lexer's states, and that the lexer of
 * internal/wire/words.go accepts exactly that and gives it that meaning.
 */
module Spelling {
  import opened Bytes
  import opened Words

  // --- Words as they can be written ------------------------------------------------------------

  /** A byte as it is, a backslash before a byte, a backslash and three octal digits, or an escaped line feed. */
  datatype Atom = Byte(c: byte) | Escaped(c: byte) | Octal(n: nat) | Continued

  /** Between words, or a piece of a word: an atom, or a text in single or double quotes. */
  datatype Part = Blank(c: byte) | Loose(atom: Atom) | Quoted(text: bytes) | Grouped(atoms: seq<Atom>)

  /** The bytes that letters stand for after a backslash; any other byte stands for itself. */
  const ESCAPES: map<byte, byte> := map[
    'n' := 10 as char, 'r' := 13 as char, 't' := 9 as char, 'b' := 8 as char, 'f' := 12 as char,
    'v' := 11 as char, 'a' := 7 as char, 'e' := 27 as char, 's' := 32 as char]

  function OctalDigit(n: nat): byte {
    ('0' as int + n % 8) as char
  }

  function AtomText(a: Atom): bytes {
    match a
    case Byte(c) => [c]
    case Escaped(c) => ['\\', c]
    case Octal(n) => ['\\', OctalDigit(n / 64), OctalDigit(n / 8), OctalDigit(n)]
    case Continued => ['\\', '\n']
  }

  function AtomValue(a: Atom): bytes {
    match a
    case Byte(c) => [c]
    case Escaped(c) => [if c in ESCAPES then ESCAPES[c] else c]
    case Octal(n) => [(n % 256) as char]
    case Continued => []
  }

  function AtomsText(atoms: seq<Atom>): bytes {
    if atoms == [] then [] else AtomText(atoms[0]) + AtomsText(atoms[1..])
  }

  function AtomsValue(atoms: seq<Atom>): bytes {
    if atoms == [] then [] else AtomValue(atoms[0]) + AtomsValue(atoms[1..])
  }

  function PartText(p: Part): bytes {
    match p
    case Blank(c) => [c]
    case Loose(a) => AtomText(a)
    case Quoted(text) => "'" + (text + "'")
    case Grouped(atoms) => "\"" + (AtomsText(atoms) + "\"")
  }

  function PartsText(ps: seq<Part>): bytes {
    if ps == [] then [] else PartText(ps[0]) + PartsText(ps[1..])
  }

  /** The word that p ends, if any, where a word that is b so far has been begun or not. */
  function Ended(p: Part, b: bytes, begun: bool): seq<bytes> {
    if p.Blank? && begun then [b] else []
  }

  /** The word that is b so far, after p. */
  function Carried(p: Part, b: bytes): bytes {
    match p
    case Blank(_) => []
    case Loose(a) => b + AtomValue(a)
    case Quoted(text) => b + text
    case Grouped(atoms) => b + AtomsValue(atoms)
  }

  /** Whether a word has been begun after p: quotes begin one even where they hold nothing. */
  predicate Begins(p: Part, begun: bool) {
    match p
    case Blank(_) => false
    case Loose(a) => begun || a != Continued
    case _ => true
  }

  function WordsOf(ps: seq<Part>, b: bytes, begun: bool): seq<bytes> {
    if ps == [] then (if begun then [b] else [])
    else Ended(ps[0], b, begun) + WordsOf(ps[1..], Carried(ps[0], b), Begins(ps[0], begun))
  }

  /** The head of after would make a variable of a '$' before it. */
  predicate NamesVariable(after: bytes) {
    after != [] && (after[0] == '{' || after[0] == '_' || 'a' <= after[0] <= 'z' || 'A' <= after[0] <= 'Z')
  }

  /** An atom that after follows; head is set at the start of a word or of a quoted text, where '~' is a home. */
  predicate AtomOK(a: Atom, head: bool, after: bytes) {
    match a
    case Byte(c) =>
      c != 0 as char && c != '\\' && c != '"' && (c == '$' ==> !NamesVariable(after)) && (c == '~' ==> !head)
    case Escaped(c) => !('0' <= c <= '7') && c != '\n'
    case Octal(n) => 1 <= n <= 255
    case Continued => true
  }

  /** What stands for itself outside quotes: no blank, no separator, no brace, no quote, and '#' only inside a word. */
  predicate BareOK(a: Atom, begun: bool) {
    a.Byte? ==> a.c != ' ' && a.c != '\t' && a.c != '\n' && a.c != ';' && a.c != '{' && a.c != '}' && a.c != '\''
                && (a.c == '#' ==> begun)
  }

  predicate AtomsOK(atoms: seq<Atom>, head: bool, after: bytes) {
    atoms != [] ==> AtomOK(atoms[0], head, AtomsText(atoms[1..]) + after) && AtomsOK(atoms[1..], false, after)
  }

  predicate PartOK(p: Part, begun: bool, head: bool, after: bytes) {
    match p
    case Blank(c) => c == ' ' || c == '\t'
    case Loose(a) => BareOK(a, begun) && AtomOK(a, head, after)
    case Quoted(text) => forall c <- text :: c != 0 as char && c != '\''
    case Grouped(atoms) => AtomsOK(atoms, true, "\"" + after)
  }

  /** The parts can stand in this order before tail, which is nothing or a comment outside a word. */
  predicate PartsOK(ps: seq<Part>, begun: bool, head: bool, tail: bytes) {
    if ps == [] then tail == [] || (tail[0] == '#' && !begun)
    else
      && PartOK(ps[0], begun, head, PartsText(ps[1..]) + tail)
      && PartsOK(ps[1..], Begins(ps[0], begun), !ps[0].Loose?, tail)
  }

  // --- The lexer reads what is written -----------------------------------------------------------

  /** What an atom does to the lexer's state. */
  function AfterAtom(a: Atom, st: LexState): LexState {
    st.(b := st.b + AtomValue(a), started := st.started || a != Continued, wordHead := false)
  }

  lemma ByteLex(c: byte, rest: bytes, st: LexState)
    requires AtomOK(Byte(c), st.wordHead, rest)
    requires st.quote == Double || (st.quote == Bare && BareOK(Byte(c), st.started))
    ensures Lex([c] + rest, st) == Lex(rest, AfterAtom(Byte(c), st))
  {
    var t := [c] + rest;
    assert t[1..] == rest && t[0] == c;
    assert rest != [] ==> t[1] == rest[0];
    assert !RefusedWordByte(t, st.quote, st.wordHead);
  }

  lemma EscapeLex(t: bytes, st: LexState, escape: Escape)
    requires st.quote != Single && t != [] && t[0] == '\\' && ParseEscape(t) == Some(escape)
    ensures Lex(t, st) == match escape.value
      case None => Lex(t[escape.span..], st.(wordHead := false))
      case Some(x) => Lex(t[escape.span..], st.(b := st.b + [x], started := true, wordHead := false))
  {
    hide ParseEscape;
  }

  lemma AtomLex(a: Atom, rest: bytes, st: LexState)
    requires AtomOK(a, st.wordHead, rest)
    requires st.quote == Double || (st.quote == Bare && BareOK(a, st.started))
    ensures Lex(AtomText(a) + rest, st) == Lex(rest, AfterAtom(a, st))
  {
    hide Lex, ParseEscape;
    var t := AtomText(a) + rest;
    assert t[|AtomText(a)|..] == rest;
    match a {
      case Byte(c) => ByteLex(c, rest, st);
      case Escaped(c) =>
        EscapedReads(t);
        EscapeLex(t, st, ParseEscape(t).value);
      case Octal(n) =>
        OctalReads(n, t);
        EscapeLex(t, st, ParseEscape(t).value);
      case Continued =>
        ContinuedReads(t);
        EscapeLex(t, st, ParseEscape(t).value);
        assert st.b + [] == st.b;
    }
  }

  lemma ContinuedReads(t: bytes)
    requires ['\\', '\n'] <= t
    ensures ParseEscape(t) == Some(Escape(None, 2))
  {
  }

  lemma EscapedReads(t: bytes)
    requires |t| >= 2 && !('0' <= t[1] <= '7') && t[1] != '\n'
    ensures ParseEscape(t) == Some(Escape(Some(if t[1] in ESCAPES then ESCAPES[t[1]] else t[1]), 2))
  {
  }

  lemma OctalReads(n: nat, t: bytes)
    requires 1 <= n <= 255 && AtomText(Octal(n)) <= t
    ensures ParseEscape(t) == Some(Escape(Some(n as char), 4))
  {
    assert n == 64 * (n / 64) + 8 * (n / 8 % 8) + n % 8 && n / 64 % 8 == n / 64;
  }

  /** In single quotes a byte stands for itself. */
  lemma InQuotes(c: byte, rest: bytes, st: LexState)
    requires st.quote == Single && c != 0 as char && c != '\''
    ensures Lex([c] + rest, st) == Lex(rest, st.(b := st.b + [c], started := true, wordHead := false))
  {
    assert ([c] + rest)[1..] == rest;
  }

  lemma {:induction false} QuotedLex(text: bytes, rest: bytes, st: LexState)
    requires st.quote == Single && forall c <- text :: c != 0 as char && c != '\''
    ensures Lex(text + ("'" + rest), st)
         == Lex(rest, st.(quote := Bare, b := st.b + text, started := true, wordHead := true))
    decreases |text|
  {
    if text == [] {
      assert text + ("'" + rest) == "'" + rest && ("'" + rest)[1..] == rest && st.b + [] == st.b;
    } else {
      hide Lex;
      var c, more := text[0], text[1..] + ("'" + rest);
      assert c in text;
      assert text + ("'" + rest) == [c] + more && st.b + [c] + text[1..] == st.b + text;
      assert forall d <- text[1..] :: d in text;
      InQuotes(c, more, st);
      QuotedLex(text[1..], rest, st.(b := st.b + [c], started := true, wordHead := false));
    }
  }

  lemma {:induction false} GroupedLex(atoms: seq<Atom>, rest: bytes, st: LexState)
    requires st.quote == Double && AtomsOK(atoms, st.wordHead, "\"" + rest)
    ensures Lex(AtomsText(atoms) + ("\"" + rest), st)
         == Lex(rest, st.(quote := Bare, b := st.b + AtomsValue(atoms), started := true, wordHead := true))
    decreases |atoms|
  {
    hide AtomOK, AtomText, AtomValue;
    if atoms == [] {
      var t := "\"" + rest;
      assert AtomsText(atoms) + t == t && t[1..] == rest && st.b + [] == st.b;
    } else {
      hide Lex;
      var a, more := atoms[0], AtomsText(atoms[1..]) + ("\"" + rest);
      Assoc(AtomText(a), AtomsText(atoms[1..]), "\"" + rest);
      AtomLex(a, more, st);
      GroupedLex(atoms[1..], rest, AfterAtom(a, st));
      Assoc(st.b, AtomValue(a), AtomsValue(atoms[1..]));
    }
  }

  /** The lexer's state once p is read. */
  function AfterPart(p: Part, st: LexState): LexState {
    LexState(st.words + Ended(p, st.b, st.started), Carried(p, st.b), st.quote, Begins(p, st.started), !p.Loose?)
  }

  lemma BlankLex(c: byte, rest: bytes, st: LexState)
    requires st.quote == Bare && (c == ' ' || c == '\t') && (st.started || st.b == [])
    ensures Lex([c] + rest, st) == Lex(rest, AfterPart(Blank(c), st))
  {
    assert ([c] + rest)[1..] == rest && st.words + [] == st.words;
  }

  /** An opening quote. */
  lemma QuoteLex(c: byte, t: bytes, st: LexState)
    requires st.quote == Bare && (c == '\'' || c == '"')
    ensures Lex([c] + t, st)
         == Lex(t, st.(quote := if c == '"' then Double else Single, started := true, wordHead := true))
  {
    assert ([c] + t)[1..] == t;
  }

  lemma PartLex(p: Part, rest: bytes, st: LexState)
    requires st.quote == Bare && PartOK(p, st.started, st.wordHead, rest) && (st.started || st.b == [])
    ensures Lex(PartText(p) + rest, st) == Lex(rest, AfterPart(p, st))
  {
    hide Lex, AtomOK, BareOK, AtomText, AtomsOK;
    assert st.words + [] == st.words;
    match p {
      case Blank(c) => BlankLex(c, rest, st);
      case Loose(a) => AtomLex(a, rest, st);
      case Quoted(text) =>
        Assoc3("'", text, "'", rest);
        QuoteLex('\'', text + ("'" + rest), st);
        QuotedLex(text, rest, st.(quote := Single, started := true, wordHead := true));
      case Grouped(atoms) =>
        Assoc3("\"", AtomsText(atoms), "\"", rest);
        QuoteLex('"', AtomsText(atoms) + ("\"" + rest), st);
        GroupedLex(atoms, rest, st.(quote := Double, started := true, wordHead := true));
    }
  }

  lemma Assoc3(a: bytes, b: bytes, c: bytes, d: bytes)
    ensures a + (b + c) + d == a + (b + (c + d))
  {
  }

  lemma AssocWords(a: seq<bytes>, b: seq<bytes>, c: seq<bytes>)
    ensures a + b + c == a + (b + c)
  {
  }

  lemma TailLex(tail: bytes, st: LexState)
    requires st.quote == Bare && PartsOK([], st.started, st.wordHead, tail)
    ensures Lex(tail, st) == Some(st.words + WordsOf([], st.b, st.started))
  {
    assert st.words + [] == st.words;
  }

  lemma BegunKeeps(p: Part, st: LexState)
    requires st.started || st.b == []
    ensures var next := AfterPart(p, st); next.started || next.b == []
  {
  }

  /** Text written by the grammar is read as the words it spells. */
  lemma {:induction false} PartsLex(ps: seq<Part>, tail: bytes, st: LexState)
    requires st.quote == Bare && PartsOK(ps, st.started, st.wordHead, tail) && (st.started || st.b == [])
    ensures Lex(PartsText(ps) + tail, st) == Some(st.words + WordsOf(ps, st.b, st.started))
    decreases |ps|
  {
    hide Lex, PartOK, PartText, Ended, Carried, Begins;
    if ps == [] {
      assert PartsText(ps) + tail == tail;
      TailLex(tail, st);
    } else {
      var rest := PartsText(ps[1..]) + tail;
      Assoc(PartText(ps[0]), PartsText(ps[1..]), tail);
      PartLex(ps[0], rest, st);
      var next := AfterPart(ps[0], st);
      BegunKeeps(ps[0], st);
      PartsLex(ps[1..], tail, next);
      AssocWords(st.words, Ended(ps[0], st.b, st.started), WordsOf(ps[1..], next.b, next.started));
    }
  }

  // --- The lexer reads nothing else ------------------------------------------------------------------

  /** A text in single quotes that the lexer gets through ends in its quote. */
  lemma {:induction false} ReadQuoted(t: bytes, st: LexState) returns (text: bytes, rest: bytes)
    requires st.quote == Single && Lex(t, st).Some?
    ensures t == text + ("'" + rest) && forall c <- text :: c != 0 as char && c != '\''
    decreases |t|
  {
    assert t != [];
    if t[0] == '\'' {
      return [], t[1..];
    }
    text, rest := ReadQuoted(t[1..], st.(b := st.b + [t[0]], started := true, wordHead := false));
    text := [t[0]] + text;
  }

  /** The atom at the head of what the lexer gets through. */
  lemma ReadAtom(t: bytes, st: LexState) returns (a: Atom, rest: bytes)
    requires Lex(t, st).Some? && t != [] && t[0] != '"'
    requires st.quote == Double || (st.quote == Bare && BareOK(Byte(t[0]), st.started))
    ensures t == AtomText(a) + rest && AtomOK(a, st.wordHead, rest) && |rest| < |t|
    ensures st.quote == Bare ==> BareOK(a, st.started)
  {
    if t[0] != '\\' {
      return Byte(t[0]), t[1..];
    }
    var escape := ParseEscape(t);
    rest := t[escape.value.span..];
    if IsOctal(t[1]) {
      a := Octal(OctalValue(t[1], t[2], t[3]));
      OctalDigits(t[1], t[2], t[3]);
    } else if t[1] == '\n' {
      a := Continued;
    } else {
      a := Escaped(t[1]);
    }
  }

  lemma OctalDigits(x: byte, y: byte, z: byte)
    requires IsOctal(x) && IsOctal(y) && IsOctal(z) && OctalValue(x, y, z) <= 255
    ensures AtomText(Octal(OctalValue(x, y, z))) == ['\\', x, y, z]
  {
    var a, b, c := x as int - '0' as int, y as int - '0' as int, z as int - '0' as int;
    var n := 64 * a + 8 * b + c;
    assert n / 64 == a && n / 8 == 8 * a + b && n / 8 % 8 == b && n % 8 == c;
  }

  lemma {:induction false} ReadGrouped(t: bytes, st: LexState) returns (atoms: seq<Atom>, rest: bytes)
    requires st.quote == Double && Lex(t, st).Some?
    ensures t == AtomsText(atoms) + ("\"" + rest) && AtomsOK(atoms, st.wordHead, "\"" + rest)
    decreases |t|
  {
    hide AtomOK, AtomText, AtomValue;
    assert t != [];
    if t[0] == '"' {
      return [], t[1..];
    }
    var a, more := ReadAtom(t, st);
    AtomLex(a, more, st);
    atoms, rest := ReadGrouped(more, AfterAtom(a, st));
    Assoc(AtomText(a), AtomsText(atoms), "\"" + rest);
    atoms := [a] + atoms;
  }

  /** The part at the head of what the lexer gets through outside quotes, unless it is a comment. */
  lemma ReadPart(t: bytes, st: LexState) returns (p: Part, rest: bytes)
    requires st.quote == Bare && Lex(t, st).Some? && t != [] && (t[0] == '#' ==> st.started)
    ensures t == PartText(p) + rest && PartOK(p, st.started, st.wordHead, rest) && |rest| < |t|
  {
    hide AtomOK, AtomsOK;
    if t[0] == ' ' || t[0] == '\t' {
      return Blank(t[0]), t[1..];
    }
    if t[0] == '\'' {
      var text;
      text, rest := ReadQuoted(t[1..], st.(quote := Single, started := true, wordHead := true));
      return Quoted(text), rest;
    }
    if t[0] == '"' {
      var atoms;
      atoms, rest := ReadGrouped(t[1..], st.(quote := Double, started := true, wordHead := true));
      return Grouped(atoms), rest;
    }
    var a;
    a, rest := ReadAtom(t, st);
    p := Loose(a);
  }

  lemma {:induction false} ReadParts(t: bytes, st: LexState) returns (ps: seq<Part>, tail: bytes)
    requires st.quote == Bare && Lex(t, st).Some? && (st.started || st.b == [])
    ensures t == PartsText(ps) + tail && PartsOK(ps, st.started, st.wordHead, tail)
    decreases |t|
  {
    hide Lex, PartOK, PartText;
    if t == [] || (t[0] == '#' && !st.started) {
      return [], t;
    }
    var p, rest := ReadPart(t, st);
    PartLex(p, rest, st);
    BegunKeeps(p, st);
    ps, tail := ReadParts(rest, AfterPart(p, st));
    Assoc(PartText(p), PartsText(ps), tail);
    ps := [p] + ps;
  }

  /** A way to write words: parts, and a comment or nothing. */
  predicate Spells(ps: seq<Part>, comment: bytes, text: bytes, words: seq<bytes>) {
    PartsOK(ps, false, true, comment) && text == PartsText(ps) + comment && words == WordsOf(ps, [], false)
  }

  /** The lexer accepts exactly the texts the grammar can write, as the words they spell, and refuses every other. */
  lemma LexExactly(text: bytes, words: seq<bytes>)
    ensures Lex(text, LEX_START) == Some(words) <==> exists ps, comment :: Spells(ps, comment, text, words)
  {
    hide Lex, PartsOK, PartsText, WordsOf;
    if Lex(text, LEX_START).Some? {
      var ps, comment := ReadParts(text, LEX_START);
      PartsLex(ps, comment, LEX_START);
      assert [] + WordsOf(ps, [], false) == WordsOf(ps, [], false);
      assert Spells(ps, comment, text, WordsOf(ps, [], false));
    }
    if exists ps, comment :: Spells(ps, comment, text, words) {
      var ps, comment :| Spells(ps, comment, text, words);
      PartsLex(ps, comment, LEX_START);
      assert [] + WordsOf(ps, [], false) == WordsOf(ps, [], false);
    }
  }
}
