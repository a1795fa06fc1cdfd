/** The command-text lexer: internal/wire/words.go. */
module Words {
  import opened Bytes

  datatype Quote = Bare | Single | Double

  predicate IsSpace(c: byte) {
    c == ' ' || c == '\t'
  }

  predicate IsWordSeparator(c: byte) {
    c == '\n' || c == ';' || c == '{' || c == '}'
  }

  predicate IsSequenceInvalid(c: byte) {
    c == '{' || c == '}' || c == '\n'
  }

  predicate IsWordComment(c: byte, quote: Quote, started: bool) {
    c == '#' && quote == Bare && !started
  }

  predicate StartsVariable(c: byte) {
    c == '{' || c == '_' || 'a' <= c <= 'z' || 'A' <= c <= 'Z'
  }

  /** The quote state after c, and whether c was a quote delimiter. */
  function ToggleQuote(c: byte, quote: Quote): (Quote, bool) {
    if c == '\'' && quote != Double then
      (if quote == Single then Bare else Single, true)
    else if c == '"' && quote != Single then
      (if quote == Double then Bare else Double, true)
    else
      (quote, false)
  }

  predicate CanEscape(c: byte, quote: Quote) {
    c == '\\' && quote != Single
  }

  /** A NUL, or a byte at the head of t that tmux would expand outside single quotes. */
  predicate RefusedWordByte(t: bytes, quote: Quote, wordHead: bool)
    requires t != []
  {
    var c := t[0];
    if c == NUL then true
    else if quote == Single then false
    else if c == '$' then |t| > 1 && StartsVariable(t[1])
    else c == '~' && wordHead
  }

  predicate IsOctal(c: byte) {
    '0' <= c <= '7'
  }

  function OctalValue(a: byte, b: byte, c: byte): nat
    requires IsOctal(a) && IsOctal(b) && IsOctal(c)
  {
    64 * (a as int - '0' as int) + 8 * (b as int - '0' as int) + (c as int - '0' as int)
  }

  /** None is the escaped newline, which yields no byte. */
  function MapEscapeChar(c: byte): Option<byte> {
    match c
    case 'n' => Some('\n')
    case 'r' => Some('\r')
    case 't' => Some('\t')
    case 'b' => Some(8 as char)
    case 'f' => Some(12 as char)
    case 'v' => Some(11 as char)
    case 'a' => Some(7 as char)
    case 'e' => Some(ESC)
    case 's' => Some(' ')
    case '\n' => None
    case _ => Some(c)
  }

  /** A decoded escape: the byte it yields, if any, and how many bytes it spans. */
  datatype Escape = Escape(value: Option<byte>, span: nat)

  /** The escape at the head of t (t[0] is the backslash), or None where it is malformed. */
  function ParseEscape(t: bytes): (r: Option<Escape>)
    requires t != []
    ensures r.Some? ==> 2 <= r.value.span <= |t|
  {
    if |t| < 2 then None
    else if IsOctal(t[1]) then
      if |t| < 4 || !IsOctal(t[2]) || !IsOctal(t[3]) then None
      else
        var n := OctalValue(t[1], t[2], t[3]);
        if n > 255 || n == 0 then None else Some(Escape(Some(n as char), 4))
    else Some(Escape(MapEscapeChar(t[1]), 2))
  }

  // --- Words -------------------------------------------------------------------

  datatype LexState = LexState(words: seq<bytes>, b: bytes, quote: Quote, started: bool, wordHead: bool) {
    function Flush(): LexState {
      if started then this.(words := words + [b], b := [], started := false) else this
    }
  }

  const LEX_START := LexState([], [], Bare, false, true)

  /** The word list read from t in state st, or None where the lexer refuses the text. */
  function Lex(t: bytes, st: LexState): Option<seq<bytes>>
    decreases |t|
  {
    if t == [] then
      if st.quote == Bare then Some(st.Flush().words) else None
    else
      var c := t[0];
      if st.quote == Bare && IsSpace(c) then
        Lex(t[1..], st.Flush().(wordHead := true))
      else if IsWordComment(c, st.quote, st.started) then
        Some(st.words)
      else if st.quote == Bare && IsWordSeparator(c) then
        None
      else if ToggleQuote(c, st.quote).1 then
        Lex(t[1..], st.(quote := ToggleQuote(c, st.quote).0, started := true, wordHead := true))
      else if CanEscape(c, st.quote) then
        match ParseEscape(t)
        case None => None
        case Some(Escape(None, n)) => Lex(t[n..], st.(wordHead := false))
        case Some(Escape(Some(x), n)) => Lex(t[n..], st.(b := st.b + [x], started := true, wordHead := false))
      else if RefusedWordByte(t, st.quote, st.wordHead) then
        None
      else
        Lex(t[1..], st.(b := st.b + [c], started := true, wordHead := false))
  }

  method ParseWords(text: bytes) returns (r: Option<seq<bytes>>)
    ensures r == Lex(text, LEX_START)
  {
    var words: seq<bytes> := [];
    var b: bytes := [];
    var quote := Bare;
    var started := false;
    var wordHead := true;
    var i := 0;
    while i < |text|
      invariant 0 <= i <= |text|
      invariant Lex(text, LEX_START) == Lex(text[i..], LexState(words, b, quote, started, wordHead))
    {
      var c := text[i];
      assert text[i..][0] == c && text[i..][1..] == text[i + 1..];
      if quote == Bare && IsSpace(c) {
        if started {
          words, b, started := words + [b], [], false;
        }
        wordHead := true;
        i := i + 1;
        continue;
      }
      if IsWordComment(c, quote, started) {
        return Some(words);
      }
      if quote == Bare && IsWordSeparator(c) {
        return None;
      }
      var (next, changed) := ToggleQuote(c, quote);
      if changed {
        quote, started, wordHead := next, true, true;
        i := i + 1;
        continue;
      }
      if CanEscape(c, quote) {
        var escape := ParseEscape(text[i..]);
        if escape == None {
          return None;
        }
        assert text[i..][escape.value.span..] == text[i + escape.value.span..];
        if escape.value.value.Some? {
          b, started := b + [escape.value.value.value], true;
        }
        wordHead := false;
        i := i + escape.value.span;
        continue;
      }
      if RefusedWordByte(text[i..], quote, wordHead) {
        return None;
      }
      b, started, wordHead := b + [c], true, false;
      i := i + 1;
    }
    if quote != Bare {
      return None;
    }
    if started {
      words := words + [b];
    }
    return Some(words);
  }

  // --- Sequences ---------------------------------------------------------------

  function TrimLeft(s: bytes): (r: bytes)
    ensures |r| <= |s|
    ensures r != [] ==> !IsSpace(r[0])
  {
    if s != [] && IsSpace(s[0]) then TrimLeft(s[1..]) else s
  }

  function TrimRight(s: bytes): (r: bytes)
    ensures |r| <= |s| && r == s[..|r|]
  {
    if s != [] && IsSpace(s[|s| - 1]) then TrimRight(s[..|s| - 1]) else s
  }

  function Trim(s: bytes): bytes {
    TrimRight(TrimLeft(s))
  }

  /** part holds the bytes since the last separator. */
  datatype SplitState = SplitState(out: seq<bytes>, part: bytes, quote: Quote, wordStarted: bool)

  const SPLIT_START := SplitState([], [], Bare, false)

  function FinishSplit(st: SplitState): seq<bytes> {
    if Trim(st.part) == [] then st.out else st.out + [Trim(st.part)]
  }

  /** Whether the head of t ends a part, and over how many bytes. */
  function SeparatorSpan(t: bytes, escapedSeparator: bool): (n: nat)
    requires t != []
    ensures n <= |t|
  {
    if t[0] == ';' then 1
    else if escapedSeparator && t[0] == '\\' && |t| > 1 && t[1] == ';' then 2
    else 0
  }

  /** The trimmed parts of a command sequence, or None where the splitter refuses the text. */
  function Split(t: bytes, st: SplitState, escapedSeparator: bool): Option<seq<bytes>>
    decreases |t|
  {
    if t == [] then
      if st.quote == Bare then Some(FinishSplit(st)) else None
    else
      var c := t[0];
      if IsWordComment(c, st.quote, st.wordStarted) then
        Some(FinishSplit(st))
      else if st.quote == Bare && IsSequenceInvalid(c) then
        None
      else if st.quote == Bare && SeparatorSpan(t, escapedSeparator) > 0 then
        if Trim(st.part) == [] then None
        else Split(t[SeparatorSpan(t, escapedSeparator)..],
                   SplitState(st.out + [Trim(st.part)], [], Bare, false), escapedSeparator)
      else if CanEscape(c, st.quote) then
        if |t| < 2 then None
        else Split(t[2..], st.(part := st.part + t[..2], wordStarted := true), escapedSeparator)
      else
        var q := ToggleQuote(c, st.quote).0;
        Split(t[1..], st.(part := st.part + [c], quote := q, wordStarted := q != Bare || !IsSpace(c)),
              escapedSeparator)
  }

  /** SplitSequence and SplitBindingSequence. */
  method SplitSequence(text: bytes, escapedSeparator: bool) returns (r: Option<seq<bytes>>)
    ensures r == Split(text, SPLIT_START, escapedSeparator)
  {
    var out: seq<bytes> := [];
    var start, end := 0, |text|;
    var quote := Bare;
    var wordStarted := false;
    var i := 0;
    while i < |text|
      invariant 0 <= start <= i <= |text| == end
      invariant Split(text, SPLIT_START, escapedSeparator)
             == Split(text[i..], SplitState(out, text[start..i], quote, wordStarted), escapedSeparator)
      decreases |text| - i
    {
      ghost var st := SplitState(out, text[start..i], quote, wordStarted);
      ghost var t := text[i..];
      var c := text[i];
      if IsWordComment(c, quote, wordStarted) {
        end := i;
        assert Split(t, st, escapedSeparator) == Some(FinishSplit(st));
        break;
      }
      if quote == Bare {
        if IsSequenceInvalid(c) {
          return None;
        }
        var span := SeparatorSpan(text[i..], escapedSeparator);
        if span > 0 {
          var part := Trim(text[start..i]);
          if part == [] {
            return None;
          }
          out := out + [part];
          i := i + span;
          start := i;
          wordStarted := false;
          assert t[span..] == text[i..] && text[start..i] == [];
          assert Split(t, st, escapedSeparator) == Split(t[span..], SplitState(out, [], Bare, false), escapedSeparator);
          continue;
        }
      }
      if CanEscape(c, quote) {
        if i + 1 >= |text| {
          return None;
        }
        i := i + 2;
        wordStarted := true;
        assert t[2..] == text[i..] && st.part + t[..2] == text[start..i];
        assert Split(t, st, escapedSeparator)
            == Split(t[2..], st.(part := st.part + t[..2], wordStarted := true), escapedSeparator);
        continue;
      }
      i := i + 1;
      assert t[1..] == text[i..] && st.part + [c] == text[start..i];
      quote := ToggleQuote(c, quote).0;
      wordStarted := quote != Bare || !IsSpace(c);
      assert Split(t, st, escapedSeparator)
          == Split(t[1..], SplitState(out, st.part + [c], quote, wordStarted), escapedSeparator);
    }
    if quote != Bare {
      return None;
    }
    var part := Trim(text[start..end]);
    if part != [] {
      out := out + [part];
    }
    return Some(out);
  }
}
