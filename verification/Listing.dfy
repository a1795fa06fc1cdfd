/**
 * How sequences of commands may be written, as a grammar, and that the splitter of internal/wire/words.go accepts
 * exactly that and finds exactly those commands.
 */
module Listing {
  import opened Bytes
  import opened Words
  import opened Spelling

  // --- Sequences as they can be written --------------------------------------------------------------

  /** A part of a command, or what ends one: a semicolon, or in a binding a semicolon after a backslash. */
  datatype Piece = Piece(part: Part) | Separator(escaped: bool)

  function PieceText(p: Piece): bytes {
    match p
    case Piece(part) => PartText(part)
    case Separator(escaped) => if escaped then ['\\', ';'] else [';']
  }

  function PiecesText(ps: seq<Piece>): bytes {
    if ps == [] then [] else PieceText(ps[0]) + PiecesText(ps[1..])
  }

  /** The commands of ps without the blanks around them, the first of which is text so far. */
  function CommandsOf(ps: seq<Piece>, text: bytes): seq<bytes> {
    if ps == [] then (if Trim(text) == [] then [] else [Trim(text)])
    else
      match ps[0]
      case Piece(part) => CommandsOf(ps[1..], text + PartText(part))
      case Separator(_) => [Trim(text)] + CommandsOf(ps[1..], [])
  }

  /** The splitter takes whatever follows a backslash with it. */
  predicate SplitAtomOK(a: Atom) {
    match a
    case Byte(c) => c != '\\' && c != '"'
    case Escaped(_) => true
    case _ => false
  }

  predicate SplitPartOK(p: Part, begun: bool, binding: bool) {
    match p
    case Blank(c) => c == ' ' || c == '\t'
    case Loose(a) => SplitAtomOK(a) && BareOK(a, begun) && (binding ==> a != Escaped(';'))
    case Quoted(text) => forall c <- text :: c != '\''
    case Grouped(atoms) => forall a <- atoms :: SplitAtomOK(a)
  }

  /** The pieces can stand in this order before tail, which is nothing or a comment outside a word. */
  predicate PiecesOK(ps: seq<Piece>, text: bytes, begun: bool, binding: bool, tail: bytes) {
    if ps == [] then tail == [] || (tail[0] == '#' && !begun)
    else
      match ps[0]
      case Piece(part) =>
        SplitPartOK(part, begun, binding) && PiecesOK(ps[1..], text + PartText(part), !part.Blank?, binding, tail)
      case Separator(escaped) =>
        (escaped ==> binding) && Trim(text) != [] && PiecesOK(ps[1..], [], false, binding, tail)
  }

  // --- The splitter reads what is written --------------------------------------------------------------

  /** The splitter's state after text, of a quote or outside quotes. */
  function Taken(st: SplitState, text: bytes, quote: Quote, begun: bool): SplitState {
    SplitState(st.out, st.part + text, quote, begun)
  }

  lemma TakeTwice(st: SplitState, a: bytes, q: Quote, x: bool, b: bytes, r: Quote, y: bool)
    ensures Taken(Taken(st, a, q, x), b, r, y) == Taken(st, a + b, r, y)
  {
  }

  /** A byte that neither ends a command nor opens an escape. */
  lemma ByteSplit(c: byte, rest: bytes, st: SplitState, binding: bool)
    requires c != '\\' || st.quote == Single
    requires st.quote == Bare ==> c != '\n' && c != ';' && c != '{' && c != '}' && (c == '#' ==> st.wordStarted)
    ensures var q := ToggleQuote(c, st.quote).0;
      Split([c] + rest, st, binding) == Split(rest, Taken(st, [c], q, q != Bare || !(c == ' ' || c == '\t')), binding)
  {
    assert ([c] + rest)[1..] == rest;
  }

  /** A backslash takes the next byte with it, unless it ends a command. */
  lemma EscapeSplit(c: byte, rest: bytes, st: SplitState, binding: bool)
    requires st.quote == Double || (st.quote == Bare && (binding ==> c != ';'))
    ensures Split(['\\', c] + rest, st, binding) == Split(rest, Taken(st, ['\\', c], st.quote, true), binding)
  {
    var t := ['\\', c] + rest;
    assert t[2..] == rest && t[..2] == ['\\', c];
  }

  lemma {:induction false} QuotedSplit(text: bytes, rest: bytes, st: SplitState, binding: bool)
    requires st.quote == Single && forall c <- text :: c != '\''
    ensures Split(text + ("'" + rest), st, binding) == Split(rest, Taken(st, text + "'", Bare, true), binding)
    decreases |text|
  {
    hide Split;
    if text == [] {
      assert text + ("'" + rest) == ['\''] + rest && text + "'" == ['\''];
      ByteSplit('\'', rest, st, binding);
    } else {
      var c, more := text[0], text[1..] + ("'" + rest);
      assert c in text && forall d <- text[1..] :: d in text;
      assert text + ("'" + rest) == [c] + more && [c] + (text[1..] + "'") == text + "'";
      ByteSplit(c, more, st, binding);
      QuotedSplit(text[1..], rest, Taken(st, [c], Single, true), binding);
      TakeTwice(st, [c], Single, true, text[1..] + "'", Bare, true);
    }
  }

  lemma AtomSplit(a: Atom, rest: bytes, st: SplitState, binding: bool)
    requires SplitAtomOK(a)
    requires st.quote == Double || (st.quote == Bare && BareOK(a, st.wordStarted) && (binding ==> a != Escaped(';')))
    ensures Split(AtomText(a) + rest, st, binding) == Split(rest, Taken(st, AtomText(a), st.quote, true), binding)
  {
    hide Split;
    if a.Byte? {
      ByteSplit(a.c, rest, st, binding);
    } else {
      EscapeSplit(a.c, rest, st, binding);
    }
  }

  lemma {:induction false} GroupedSplit(atoms: seq<Atom>, rest: bytes, st: SplitState, binding: bool)
    requires st.quote == Double && forall a <- atoms :: SplitAtomOK(a)
    ensures Split(AtomsText(atoms) + ("\"" + rest), st, binding)
         == Split(rest, Taken(st, AtomsText(atoms) + "\"", Bare, true), binding)
    decreases |atoms|
  {
    hide Split, SplitAtomOK, AtomText;
    if atoms == [] {
      assert AtomsText(atoms) + ("\"" + rest) == ['"'] + rest && AtomsText(atoms) + "\"" == ['"'];
      ByteSplit('"', rest, st, binding);
    } else {
      var a, more := atoms[0], AtomsText(atoms[1..]) + ("\"" + rest);
      assert a in atoms && forall d <- atoms[1..] :: d in atoms;
      Assoc(AtomText(a), AtomsText(atoms[1..]), "\"" + rest);
      Assoc(AtomText(a), AtomsText(atoms[1..]), "\"");
      AtomSplit(a, more, st, binding);
      GroupedSplit(atoms[1..], rest, Taken(st, AtomText(a), Double, true), binding);
      TakeTwice(st, AtomText(a), Double, true, AtomsText(atoms[1..]) + "\"", Bare, true);
    }
  }

  lemma PartSplit(p: Part, rest: bytes, st: SplitState, binding: bool)
    requires st.quote == Bare && SplitPartOK(p, st.wordStarted, binding)
    ensures Split(PartText(p) + rest, st, binding) == Split(rest, Taken(st, PartText(p), Bare, !p.Blank?), binding)
  {
    hide Split, AtomText, SplitAtomOK, BareOK;
    match p {
      case Blank(c) => ByteSplit(c, rest, st, binding);
      case Loose(a) => AtomSplit(a, rest, st, binding);
      case Quoted(text) =>
        Assoc3("'", text, "'", rest);
        ByteSplit('\'', text + ("'" + rest), st, binding);
        QuotedSplit(text, rest, Taken(st, "'", Single, true), binding);
        TakeTwice(st, "'", Single, true, text + "'", Bare, true);
      case Grouped(atoms) =>
        Assoc3("\"", AtomsText(atoms), "\"", rest);
        ByteSplit('"', AtomsText(atoms) + ("\"" + rest), st, binding);
        GroupedSplit(atoms, rest, Taken(st, "\"", Double, true), binding);
        TakeTwice(st, "\"", Double, true, AtomsText(atoms) + "\"", Bare, true);
    }
  }

  lemma SeparatorSplit(escaped: bool, rest: bytes, st: SplitState, binding: bool)
    requires st.quote == Bare && (escaped ==> binding)
    ensures Split(PieceText(Separator(escaped)) + rest, st, binding)
         == if Trim(st.part) == [] then None
            else Split(rest, SplitState(st.out + [Trim(st.part)], [], Bare, false), binding)
  {
    hide Trim;
    var t := PieceText(Separator(escaped)) + rest;
    assert t[SeparatorSpan(t, binding)..] == rest;
  }

  lemma EndSplit(tail: bytes, st: SplitState, binding: bool)
    requires st.quote == Bare && PiecesOK([], st.part, st.wordStarted, binding, tail)
    ensures Split(tail, st, binding) == Some(st.out + CommandsOf([], st.part))
  {
    assert st.out + [] == st.out;
  }

  /** A sequence written by the grammar is split into its commands. */
  lemma {:induction false} PiecesSplit(ps: seq<Piece>, tail: bytes, st: SplitState, binding: bool)
    requires st.quote == Bare && PiecesOK(ps, st.part, st.wordStarted, binding, tail)
    ensures Split(PiecesText(ps) + tail, st, binding) == Some(st.out + CommandsOf(ps, st.part))
    decreases |ps|
  {
    hide Split, SplitPartOK, PartText, Trim;
    if ps == [] {
      assert PiecesText(ps) + tail == tail;
      EndSplit(tail, st, binding);
    } else {
      var rest := PiecesText(ps[1..]) + tail;
      Assoc(PieceText(ps[0]), PiecesText(ps[1..]), tail);
      match ps[0] {
        case Piece(p) =>
          PartSplit(p, rest, st, binding);
          PiecesSplit(ps[1..], tail, Taken(st, PartText(p), Bare, !p.Blank?), binding);
        case Separator(escaped) =>
          SeparatorSplit(escaped, rest, st, binding);
          PiecesSplit(ps[1..], tail, SplitState(st.out + [Trim(st.part)], [], Bare, false), binding);
          AssocWords(st.out, [Trim(st.part)], CommandsOf(ps[1..], []));
      }
    }
  }

  // --- The splitter reads nothing else -------------------------------------------------------------------

  lemma {:induction false} FindQuote(t: bytes, st: SplitState, binding: bool) returns (text: bytes, rest: bytes)
    requires st.quote == Single && Split(t, st, binding).Some?
    ensures t == text + ("'" + rest) && forall c <- text :: c != '\''
    decreases |t|
  {
    assert t != [];
    if t[0] == '\'' {
      return [], t[1..];
    }
    assert t == [t[0]] + t[1..];
    ByteSplit(t[0], t[1..], st, binding);
    text, rest := FindQuote(t[1..], Taken(st, [t[0]], Single, true), binding);
    text := [t[0]] + text;
  }

  /** The byte or escape at the head of what the splitter gets through. */
  lemma FindAtom(t: bytes, st: SplitState, binding: bool) returns (a: Atom, rest: bytes)
    requires st.quote != Single && Split(t, st, binding).Some? && t != [] && t[0] != '"'
    ensures SplitAtomOK(a) && t == AtomText(a) + rest && |rest| < |t|
    ensures if t[0] == '\\' then |t| > 1 && a == Escaped(t[1]) else a == Byte(t[0])
  {
    if t[0] == '\\' {
      assert |t| >= 2;
      return Escaped(t[1]), t[2..];
    }
    return Byte(t[0]), t[1..];
  }

  lemma {:induction false} FindGroup(t: bytes, st: SplitState, binding: bool) returns (atoms: seq<Atom>, rest: bytes)
    requires st.quote == Double && Split(t, st, binding).Some?
    ensures t == AtomsText(atoms) + ("\"" + rest) && forall a <- atoms :: SplitAtomOK(a)
    decreases |t|
  {
    hide AtomText, SplitAtomOK;
    assert t != [];
    if t[0] == '"' {
      return [], t[1..];
    }
    var a, more := FindAtom(t, st, binding);
    AtomSplit(a, more, st, binding);
    atoms, rest := FindGroup(more, Taken(st, AtomText(a), Double, true), binding);
    Assoc(AtomText(a), AtomsText(atoms), "\"" + rest);
    atoms := [a] + atoms;
  }

  /** The head of t ends a command. */
  predicate Separates(t: bytes, binding: bool) {
    [';'] <= t || (binding && ['\\', ';'] <= t)
  }

  /** What the splitter gets through outside quotes is no separator and no brace. */
  lemma BareSplit(t: bytes, st: SplitState, binding: bool)
    requires st.quote == Bare && Split(t, st, binding).Some? && t != [] && (t[0] == '#' ==> st.wordStarted)
    requires !Separates(t, binding)
    ensures t[0] != ';' && t[0] != '\n' && t[0] != '{' && t[0] != '}'
    ensures binding && |t| > 1 && t[0] == '\\' ==> t[1] != ';'
  {
    hide Trim;
    assert |t| > 1 && t[0] == '\\' && t[1] == ';' ==> ['\\', ';'] <= t;
  }

  lemma FindPart(t: bytes, st: SplitState, binding: bool) returns (p: Part, rest: bytes)
    requires st.quote == Bare && Split(t, st, binding).Some? && t != [] && (t[0] == '#' ==> st.wordStarted)
    requires !Separates(t, binding)
    ensures t == PartText(p) + rest && SplitPartOK(p, st.wordStarted, binding) && |rest| < |t|
  {
    hide SplitAtomOK, Split;
    BareSplit(t, st, binding);
    if t[0] == ' ' || t[0] == '\t' {
      return Blank(t[0]), t[1..];
    }
    assert t == [t[0]] + t[1..];
    if t[0] == '\'' {
      ByteSplit('\'', t[1..], st, binding);
      var text;
      text, rest := FindQuote(t[1..], Taken(st, "'", Single, true), binding);
      return Quoted(text), rest;
    }
    if t[0] == '"' {
      ByteSplit('"', t[1..], st, binding);
      var atoms;
      atoms, rest := FindGroup(t[1..], Taken(st, "\"", Double, true), binding);
      return Grouped(atoms), rest;
    }
    var a;
    a, rest := FindAtom(t, st, binding);
    p := Loose(a);
  }

  lemma {:induction false} FindPieces(t: bytes, st: SplitState, binding: bool) returns (ps: seq<Piece>, tail: bytes)
    requires st.quote == Bare && Split(t, st, binding).Some?
    ensures t == PiecesText(ps) + tail && PiecesOK(ps, st.part, st.wordStarted, binding, tail)
    decreases |t|
  {
    hide Split, SplitPartOK, PartText, Trim;
    if t == [] || (t[0] == '#' && !st.wordStarted) {
      return [], t;
    }
    var p, rest;
    if Separates(t, binding) {
      p, rest := Separator(t[0] != ';'), t[if t[0] != ';' then 2 else 1..];
      assert t == PieceText(p) + rest;
      SeparatorSplit(p.escaped, rest, st, binding);
      ps, tail := FindPieces(rest, SplitState(st.out + [Trim(st.part)], [], Bare, false), binding);
    } else {
      var part;
      part, rest := FindPart(t, st, binding);
      p := Piece(part);
      PartSplit(part, rest, st, binding);
      ps, tail := FindPieces(rest, Taken(st, PartText(part), Bare, !part.Blank?), binding);
    }
    Assoc(PieceText(p), PiecesText(ps), tail);
    ps := [p] + ps;
  }

  /** A way to write a sequence of commands: pieces, and a comment or nothing. */
  predicate Lists(ps: seq<Piece>, comment: bytes, text: bytes, binding: bool, commands: seq<bytes>) {
    PiecesOK(ps, [], false, binding, comment) && text == PiecesText(ps) + comment && commands == CommandsOf(ps, [])
  }

  /**
   * The splitter accepts exactly the texts the grammar can write, as the commands they list, and refuses every other; a
   * semicolon after a backslash ends a command of a binding, and stands for itself in any other text.
   */
  lemma SplitExactly(text: bytes, binding: bool, commands: seq<bytes>)
    ensures Split(text, SPLIT_START, binding) == Some(commands)
       <==> exists ps, comment :: Lists(ps, comment, text, binding, commands)
  {
    hide Split, PiecesOK, PiecesText, CommandsOf;
    if Split(text, SPLIT_START, binding).Some? {
      var ps, comment := FindPieces(text, SPLIT_START, binding);
      PiecesSplit(ps, comment, SPLIT_START, binding);
      assert [] + CommandsOf(ps, []) == CommandsOf(ps, []);
      assert Lists(ps, comment, text, binding, CommandsOf(ps, []));
    }
    if exists ps, comment :: Lists(ps, comment, text, binding, commands) {
      var ps, comment :| Lists(ps, comment, text, binding, commands);
      PiecesSplit(ps, comment, SPLIT_START, binding);
      assert [] + CommandsOf(ps, []) == CommandsOf(ps, []);
    }
  }

  /** Trimming takes the blanks at either end and nothing else. */
  lemma {:induction false} TrimExactly(text: bytes) returns (left: bytes, right: bytes)
    ensures text == left + Trim(text) + right
    ensures forall c <- left + right :: c == ' ' || c == '\t'
    ensures Trim(text) != [] ==> Trim(text)[0] !in [' ', '\t'] && Trim(text)[|Trim(text)| - 1] !in [' ', '\t']
  {
    left := TrimLeftExactly(text);
    right := TrimRightExactly(TrimLeft(text));
    Assoc(left, Trim(text), right);
  }

  lemma {:induction false} TrimLeftExactly(s: bytes) returns (left: bytes)
    ensures s == left + TrimLeft(s) && forall c <- left :: c == ' ' || c == '\t'
    ensures TrimLeft(s) != [] ==> TrimLeft(s)[0] !in [' ', '\t']
    decreases |s|
  {
    left := [];
    if s != [] && IsSpace(s[0]) {
      left := TrimLeftExactly(s[1..]);
      left := [s[0]] + left;
    }
  }

  lemma {:induction false} TrimRightExactly(s: bytes) returns (right: bytes)
    ensures s == TrimRight(s) + right && forall c <- right :: c == ' ' || c == '\t'
    ensures TrimRight(s) != [] ==> TrimRight(s)[|TrimRight(s)| - 1] !in [' ', '\t']
    decreases |s|
  {
    right := [];
    if s != [] && IsSpace(s[|s| - 1]) {
      right := TrimRightExactly(s[..|s| - 1]);
      right := right + [s[|s| - 1]];
    }
  }
}
