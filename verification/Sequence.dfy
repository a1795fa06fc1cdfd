/** ParseSequence, and the agreement of the two transports: tmux/command.go. */
module Sequence {
  import opened Bytes
  import opened Words
  import opened Argv
  import opened Command

  /** NewCommand's check on a word list. */
  predicate ValidWords(words: seq<bytes>) {
    words != [] && ValidCommand(words[0]) && forall w <- words[1..] :: NulFree(w)
  }

  /** The commands of a list of parts, or None where a part is refused. */
  function ParseParts(parts: seq<bytes>): Option<seq<seq<bytes>>> {
    if parts == [] then Some([])
    else
      match Lex(parts[0], LEX_START)
      case None => None
      case Some(words) =>
        if words == [] then ParseParts(parts[1..])
        else if !ValidWords(words) then None
        else
          match ParseParts(parts[1..])
          case None => None
          case Some(rest) => Some([words] + rest)
  }

  function ParseText(text: bytes): Option<seq<seq<bytes>>> {
    match Split(text, SPLIT_START, false)
    case None => None
    case Some(parts) => ParseParts(parts)
  }

  method ParseSequence(text: bytes) returns (r: Option<seq<seq<bytes>>>)
    ensures r == ParseText(text)
  {
    var parts := SplitSequence(text, false);
    if parts == None {
      return None;
    }
    var cmds: seq<seq<bytes>> := [];
    assert parts.value[0..] == parts.value;
    assert forall rest: seq<seq<bytes>> :: cmds + rest == rest;
    for i := 0 to |parts.value|
      invariant match ParseParts(parts.value[i..])
        case None => ParseText(text) == None
        case Some(rest) => ParseText(text) == Some(cmds + rest)
    {
      assert parts.value[i..][0] == parts.value[i] && parts.value[i..][1..] == parts.value[i + 1..];
      var words := ParseWords(parts.value[i]);
      if words == None {
        return None;
      }
      if |words.value| == 0 {
        continue;
      }
      if !ValidWords(words.value) {
        return None;
      }
      assert forall rest: seq<seq<bytes>> :: cmds + ([words.value] + rest) == cmds + [words.value] + rest;
      cmds := cmds + [words.value];
    }
    assert cmds + [] == cmds;
    return Some(cmds);
  }

  /** The lists that hold a word. */
  function NotEmpty(lists: seq<seq<bytes>>): seq<seq<bytes>> {
    if lists == [] then [] else (if lists[0] == [] then [] else [lists[0]]) + NotEmpty(lists[1..])
  }

  /** Every part is read as its list of words, which holds none or makes a command. */
  predicate PartsRead(parts: seq<bytes>, lists: seq<seq<bytes>>) {
    && |lists| == |parts|
    && forall i :: 0 <= i < |parts| ==>
         Lex(parts[i], LEX_START) == Some(lists[i]) && (lists[i] == [] || ValidWords(lists[i]))
  }

  lemma {:induction false} PartsForward(parts: seq<bytes>, lists: seq<seq<bytes>>)
    requires PartsRead(parts, lists)
    ensures ParseParts(parts) == Some(NotEmpty(lists))
  {
    hide Lex, ValidWords;
    if parts != [] {
      assert Lex(parts[0], LEX_START) == Some(lists[0]);
      PartsForward(parts[1..], lists[1..]);
      assert [] + NotEmpty(lists[1..]) == NotEmpty(lists[1..]);
    }
  }

  lemma {:induction false} PartsBackward(parts: seq<bytes>) returns (lists: seq<seq<bytes>>)
    requires ParseParts(parts).Some?
    ensures PartsRead(parts, lists)
  {
    hide Lex, ValidWords;
    lists := [];
    if parts != [] {
      lists := PartsBackward(parts[1..]);
      lists := [Lex(parts[0], LEX_START).value] + lists;
    }
  }

  /**
   * A text is parsed exactly where it splits into parts that all lex, each to no words or to a command, and is then
   * those commands in order; one part that does not spoils the whole.
   */
  lemma SequenceExactly(text: bytes, cmds: seq<seq<bytes>>)
    ensures ParseText(text) == Some(cmds) <==>
      exists parts, lists ::
        Split(text, SPLIT_START, false) == Some(parts) && PartsRead(parts, lists) && cmds == NotEmpty(lists)
  {
    hide Split, ParseParts, PartsRead;
    if ParseText(text) == Some(cmds) {
      var parts := Split(text, SPLIT_START, false).value;
      var lists := PartsBackward(parts);
      PartsForward(parts, lists);
    }
    if parts, lists :|
      Split(text, SPLIT_START, false) == Some(parts) && PartsRead(parts, lists) && cmds == NotEmpty(lists)
    {
      PartsForward(parts, lists);
    }
  }

  // --- Lexing what the printer wrote ---------------------------------------------------

  /** The escape decoder undoes the escape printer, for every byte but NUL, whatever follows. */
  lemma EscapeRoundTrip(c: byte, rest: bytes)
    requires c != NUL
    ensures ParseEscape(OctalEscape(c) + rest) == Some(Escape(Some(c), 4))
    ensures (OctalEscape(c) + rest)[0] == '\\' && (OctalEscape(c) + rest)[4..] == rest
  {
    var n, t := c as int, OctalEscape(c) + rest;
    assert t[1] == OctalDigit(n / 64) && t[2] == OctalDigit(n / 8 % 8) && t[3] == OctalDigit(n % 8);
    assert OctalValue(t[1], t[2], t[3]) == n;
  }

  /** One source byte, plain or as an octal escape, comes back as itself inside double quotes. */
  lemma LexQuoteByte(c: byte, rest: bytes, st: LexState)
    requires c != NUL && st.quote == Double
    ensures Lex(QuoteByte(c) + rest, st) == Lex(rest, st.(b := st.b + [c], started := true, wordHead := false))
  {
    if IsSafeQuoteByte(c) {
      LexSafeByte(c, rest, st);
    } else {
      LexEscape(c, rest, st);
    }
  }

  lemma LexSafeByte(c: byte, rest: bytes, st: LexState)
    requires IsSafeQuoteByte(c) && st.quote == Double
    ensures Lex([c] + rest, st) == Lex(rest, st.(b := st.b + [c], started := true, wordHead := false))
  {
    assert ([c] + rest)[1..] == rest;
  }

  lemma LexEscape(c: byte, rest: bytes, st: LexState)
    requires c != NUL && st.quote == Double
    ensures Lex(OctalEscape(c) + rest, st) == Lex(rest, st.(b := st.b + [c], started := true, wordHead := false))
  {
    hide OctalEscape, ParseEscape;
    EscapeRoundTrip(c, rest);
  }

  lemma {:induction false} LexQuoted(s: bytes, rest: bytes, st: LexState) returns (head: bool)
    requires NulFree(s) && st.quote == Double && st.started
    ensures Lex(QuoteBytes(s) + rest, st) == Lex(rest, st.(b := st.b + s, wordHead := head))
  {
    if s == [] {
      assert [] + rest == rest && st.b + [] == st.b;
      head := st.wordHead;
    } else {
      var next := st.(b := st.b + [s[0]], wordHead := false);
      assert QuoteBytes(s) + rest == QuoteByte(s[0]) + (QuoteBytes(s[1..]) + rest);
      LexQuoteByte(s[0], QuoteBytes(s[1..]) + rest, st);
      head := LexQuoted(s[1..], rest, next);
      assert next.b + s[1..] == st.b + s;
    }
  }

  /** A rendered argument is exactly one word. */
  lemma LexArg(arg: WireArg, rest: bytes, words: seq<bytes>, word: bytes, head: bool)
    requires NulFree(ArgValue(arg))
    ensures Lex(" " + RenderArg(arg) + rest, LexState(words, word, Bare, true, head))
         == Lex(rest, LexState(words + [word], ArgValue(arg), Bare, true, true))
  {
    var value := ArgValue(arg);
    var body := QuoteBytes(value) + ("\"" + rest);
    var t := " " + RenderArg(arg) + rest;
    assert t[0] == ' ' && t[1..] == "\"" + body;
    assert ("\"" + body)[1..] == body;
    var open := LexState(words + [word], [], Double, true, true);
    assert Lex(t, LexState(words, word, Bare, true, head)) == Lex(body, open);
    var _ := LexQuoted(value, "\"" + rest, open);
    assert [] + value == value;
    assert ("\"" + rest)[1..] == rest;
  }

  lemma {:induction false} LexName(name: bytes, rest: bytes, st: LexState)
    requires forall c <- name :: IsCommandChar(c)
    requires st.quote == Bare
    ensures Lex(name + rest, st)
         == Lex(rest, if name == [] then st else st.(b := st.b + name, started := true, wordHead := false))
  {
    if name == [] {
      assert [] + rest == rest;
    } else {
      var next := st.(b := st.b + [name[0]], started := true, wordHead := false);
      assert (name + rest)[1..] == name[1..] + rest;
      assert IsCommandChar(name[0]);
      assert Lex(name + rest, st) == Lex(name[1..] + rest, next);
      LexName(name[1..], rest, next);
      assert st.b + name == next.b + name[1..] && (|name| == 1 ==> st.b + name == next.b);
    }
  }

  lemma NoArgs(args: seq<WireArg>, rest: bytes, word: bytes)
    requires args == []
    ensures RenderArgs(args) + rest == rest
    ensures ([word] + Values(args))[..|args|] == [] && ([word] + Values(args))[|args|] == word
  {
  }

  lemma {:induction false} LexArgs(args: seq<WireArg>, rest: bytes, word: bytes) returns (head: bool)
    requires forall k :: 0 <= k < |args| ==> NulFree(ArgValue(args[k]))
    ensures Lex(RenderArgs(args) + rest, LexState([], word, Bare, true, false))
         == Lex(rest, LexState(([word] + Values(args))[..|args|], ([word] + Values(args))[|args|], Bare, true, head))
  {
    hide *;
    if args == [] {
      NoArgs(args, rest, word);
      head := false;
    } else {
      var last := |args| - 1;
      var init, arg := args[..last], args[last];
      var piece := " " + RenderArg(arg) + rest;
      ArgsParts(args, rest, word);
      head := LexArgs(init, piece, word);
      var before := [word] + Values(init);
      LexArg(arg, rest, before[..last], before[last], head);
      head := true;
    }
  }

  /** The last argument, in the text and among the words. */
  lemma ArgsParts(args: seq<WireArg>, rest: bytes, word: bytes)
    requires args != []
    ensures var last := |args| - 1;
      var init, before := args[..last], [word] + Values(args[..last]);
      && RenderArgs(args) + rest == RenderArgs(init) + (" " + RenderArg(args[last]) + rest)
      && ([word] + Values(args))[..|args|] == before[..last] + [before[last]]
      && ([word] + Values(args))[|args|] == ArgValue(args[last])
  {
    hide RenderArg, ArgValue;
    var last := |args| - 1;
    var before := [word] + Values(args[..last]);
    Assoc(RenderArgs(args[..last]) + " ", RenderArg(args[last]), rest);
    Assoc(RenderArgs(args[..last]), " ", RenderArg(args[last]) + rest);
    Assoc(" ", RenderArg(args[last]), rest);
    assert [word] + Values(args) == before + [ArgValue(args[last])];
    assert (before + [ArgValue(args[last])])[..|before|] == before == before[..last] + [before[last]];
  }

  /** The end of the text ends the word it is in. */
  lemma LexEnds(st: LexState)
    requires st.quote == Bare && st.started
    ensures Lex([], st) == Some(st.words + [st.b])
  {
  }

  lemma NodeParts(node: WireNode)
    requires ValidCommand(node.name)
    ensures RenderNode(node) == node.name + RenderArgs(node.args) && NodeWords(node) == [node.name] + Values(node.args)
    ensures node.name != [] && forall c <- node.name :: IsCommandChar(c)
    ensures LEX_START.quote == Bare
    ensures LEX_START.(b := LEX_START.b + node.name, started := true, wordHead := false)
         == LexState([], node.name, Bare, true, false)
  {
    hide RenderArgs, Values;
    assert [] + node.name == node.name;
  }

  lemma LastWord(words: seq<bytes>, n: nat)
    requires |words| == n + 1
    ensures words == words[..n] + [words[n]]
  {
  }

  /** A rendered command lexes to its own word list. */
  lemma LexNode(node: WireNode)
    requires ValidCommand(node.name)
    requires forall k :: 0 <= k < |node.args| ==> NulFree(ArgValue(node.args[k]))
    ensures Lex(RenderNode(node), LEX_START) == Some(NodeWords(node))
  {
    hide *;
    NodeParts(node);
    LexName(node.name, RenderArgs(node.args), LEX_START);
    var words := NodeWords(node);
    var head := LexArgs(node.args, [], node.name);
    assert RenderArgs(node.args) + [] == RenderArgs(node.args);
    LexEnds(LexState(words[..|node.args|], words[|node.args|], Bare, true, head));
    LastWord(words, |node.args|);
  }

  // --- Splitting what the printer wrote ---------------------------------------------------

  predicate Unspaced(s: bytes) {
    s != [] && !IsSpace(s[0]) && !IsSpace(s[|s| - 1])
  }

  lemma TrimOne(s: bytes)
    requires Unspaced(s)
    ensures Trim(s) == s && Trim(" " + s) == s && Trim(s + " ") == s && Trim(" " + s + " ") == s
  {
    assert (" " + s)[1..] == s && (" " + s + " ")[1..] == s + " ";
    assert (s + " ")[..|s|] == s;
  }

  lemma SplitQuoteByte(c: byte, rest: bytes, st: SplitState)
    requires st.quote == Double
    ensures Split(QuoteByte(c) + rest, st, false)
         == Split(rest, st.(part := st.part + QuoteByte(c), wordStarted := true), false)
  {
    var e := QuoteByte(c);
    var t := e + rest;
    if IsSafeQuoteByte(c) {
      assert t[1..] == rest;
    } else {
      assert forall d: nat :: d < 8 ==> IsOctal(OctalDigit(d));
      assert t[..2] == e[..2] && t[2..][1..] == t[3..] && t[3..][1..] == rest;
      var st2 := st.(part := st.part + e[..2], wordStarted := true);
      assert Split(t, st, false) == Split(t[2..], st2, false);
      var st3 := st2.(part := st2.part + [e[2]]);
      assert Split(t[2..], st2, false) == Split(t[3..], st3, false);
      assert st3.part + [e[3]] == st.part + e;
    }
  }

  lemma {:induction false} SplitQuoted(s: bytes, rest: bytes, st: SplitState)
    requires st.quote == Double && st.wordStarted
    ensures Split(QuoteBytes(s) + rest, st, false) == Split(rest, st.(part := st.part + QuoteBytes(s)), false)
  {
    if s == [] {
      assert [] + rest == rest && st.part + [] == st.part;
    } else {
      assert QuoteBytes(s) + rest == QuoteByte(s[0]) + (QuoteBytes(s[1..]) + rest);
      SplitQuoteByte(s[0], QuoteBytes(s[1..]) + rest, st);
      SplitQuoted(s[1..], rest, st.(part := st.part + QuoteByte(s[0])));
      assert st.part + QuoteByte(s[0]) + QuoteBytes(s[1..]) == st.part + QuoteBytes(s);
    }
  }

  lemma SplitOpen(rest: bytes, st: SplitState)
    requires st.quote == Bare
    ensures Split(" \"" + rest, st, false)
         == Split(rest, st.(part := st.part + " \"", quote := Double, wordStarted := true), false)
  {
    var t := " \"" + rest;
    var st1 := st.(part := st.part + " ", wordStarted := false);
    assert Split(t, st, false) == Split(t[1..], st1, false);
    assert t[1..][1..] == rest && st1.part + "\"" == st.part + " \"";
  }

  lemma SplitClose(rest: bytes, st: SplitState)
    requires st.quote == Double
    ensures Split("\"" + rest, st, false)
         == Split(rest, st.(part := st.part + "\"", quote := Bare, wordStarted := true), false)
  {
    assert ("\"" + rest)[1..] == rest;
  }

  lemma QuotedShape(value: bytes, rest: bytes, before: bytes)
    ensures " " + Quoted(value) + rest == " \"" + (QuoteBytes(value) + ("\"" + rest))
    ensures before + " \"" + QuoteBytes(value) + "\"" == before + (" " + Quoted(value))
  {
  }

  lemma SplitWord(value: bytes, rest: bytes, st: SplitState)
    requires st.quote == Bare
    ensures Split(" " + Quoted(value) + rest, st, false)
         == Split(rest, st.(part := st.part + (" " + Quoted(value)), wordStarted := true), false)
  {
    QuotedShape(value, rest, st.part);
    var inside := st.(part := st.part + " \"", quote := Double, wordStarted := true);
    SplitOpen(QuoteBytes(value) + ("\"" + rest), st);
    SplitQuoted(value, "\"" + rest, inside);
    SplitClose(rest, inside.(part := inside.part + QuoteBytes(value)));
  }

  lemma {:induction false} SplitName(name: bytes, rest: bytes, st: SplitState)
    requires forall c <- name :: IsCommandChar(c)
    requires st.quote == Bare
    ensures Split(name + rest, st, false)
         == Split(rest, if name == [] then st else st.(part := st.part + name, wordStarted := true), false)
  {
    if name == [] {
      assert [] + rest == rest;
    } else {
      var next := st.(part := st.part + [name[0]], wordStarted := true);
      assert (name + rest)[1..] == name[1..] + rest;
      assert IsCommandChar(name[0]);
      assert Split(name + rest, st, false) == Split(name[1..] + rest, next, false);
      SplitName(name[1..], rest, next);
      assert st.part + name == next.part + name[1..] && (|name| == 1 ==> st.part + name == next.part);
    }
  }

  lemma RenderArgsStep(args: seq<WireArg>)
    requires args != []
    ensures RenderArgs(args) == RenderArgs(args[..|args| - 1]) + (" " + Quoted(ArgValue(args[|args| - 1])))
  {
  }

  lemma {:induction false} SplitArgs(args: seq<WireArg>, rest: bytes, st: SplitState)
    requires st.quote == Bare && st.wordStarted
    ensures Split(RenderArgs(args) + rest, st, false) == Split(rest, st.(part := st.part + RenderArgs(args)), false)
  {
    if args == [] {
      assert [] + rest == rest && st.part + [] == st.part;
    } else {
      var init, value := args[..|args| - 1], ArgValue(args[|args| - 1]);
      var before, word := RenderArgs(init), " " + Quoted(value);
      RenderArgsStep(args);
      Assoc(before, word, rest);
      Assoc(st.part, before, word);
      SplitArgs(init, word + rest, st);
      SplitWord(value, rest, st.(part := st.part + before));
    }
  }

  /** A rendered command passes through the splitter whole. */
  lemma SplitNode(name: bytes, args: seq<WireArg>, rest: bytes, st: SplitState)
    requires ValidCommand(name) && st.quote == Bare
    ensures Split(name + RenderArgs(args) + rest, st, false)
         == Split(rest, st.(part := st.part + (name + RenderArgs(args)), wordStarted := true), false)
  {
    var text := RenderArgs(args);
    Assoc(name, text, rest);
    Assoc(st.part, name, text);
    assert forall c <- name :: IsCommandChar(c);
    SplitName(name, text + rest, st);
    SplitArgs(args, rest, st.(part := st.part + name, wordStarted := true));
  }

  /** " ; " closes the part before it. */
  lemma SplitJoin(rest: bytes, st: SplitState, text: bytes)
    requires st.quote == Bare && Unspaced(text) && (st.part == text || st.part == " " + text)
    ensures Split(" ; " + rest, st, false) == Split(rest, SplitState(st.out + [text], " ", Bare, false), false)
  {
    hide TrimLeft, TrimRight, Trim;
    var t := " ; " + rest;
    TrimOne(text);
    assert t[1..][1..] == " " + rest && (" " + rest)[1..] == rest;
    assert Split(t, st, false) == Split(t[1..], st.(part := st.part + " ", wordStarted := false), false);
    assert Split(t[1..], st.(part := st.part + " ", wordStarted := false), false)
        == Split(" " + rest, SplitState(st.out + [text], [], Bare, false), false);
    assert [] + " " == " ";
  }

  function NodeTexts(nodes: seq<WireNode>): (r: seq<bytes>)
    ensures |r| == |nodes|
  {
    if nodes == [] then [] else NodeTexts(nodes[..|nodes| - 1]) + [RenderNode(nodes[|nodes| - 1])]
  }

  lemma RenderNodeUnspaced(node: WireNode)
    requires ValidCommand(node.name)
    ensures Unspaced(RenderNode(node))
  {
    var n := |node.args|;
    assert forall c <- node.name :: IsCommandChar(c);
    if n > 0 {
      var text := RenderArgs(node.args);
      RenderArgsStep(node.args);
      assert text[|text| - 1] == '"';
    }
  }

  lemma SplitFirst(node: WireNode, rest: bytes, out: seq<bytes>, lead: bytes)
    requires ValidCommand(node.name)
    ensures Split(RenderNode(node) + rest, SplitState(out, lead, Bare, false), false)
         == Split(rest, SplitState(out, lead + RenderNode(node), Bare, true), false)
  {
    SplitNode(node.name, node.args, rest, SplitState(out, lead, Bare, false));
  }

  /** A finished part, " ; ", and the next command. */
  lemma SplitNext(node: WireNode, rest: bytes, out: seq<bytes>, part: bytes, text: bytes)
    requires ValidCommand(node.name) && Unspaced(text) && (part == text || part == " " + text)
    ensures Split(" ; " + (RenderNode(node) + rest), SplitState(out, part, Bare, true), false)
         == Split(rest, SplitState(out + [text], " " + RenderNode(node), Bare, true), false)
  {
    SplitJoin(RenderNode(node) + rest, SplitState(out, part, Bare, true), text);
    SplitFirst(node, rest, out + [text], " ");
  }

  /** The splitter's part after the last of count commands. */
  function LastPart(count: nat, text: bytes): bytes {
    if count > 1 then " " + text else text
  }

  lemma RenderOne(nodes: seq<WireNode>)
    requires |nodes| == 1
    ensures Render(nodes) == RenderNode(nodes[0]) && [] + RenderNode(nodes[0]) == RenderNode(nodes[0])
    ensures NodeTexts(nodes[..0]) == []
  {
    hide RenderNode;
    assert nodes[..0] == [];
  }

  lemma {:induction false} SplitNodes(nodes: seq<WireNode>, rest: bytes)
    requires nodes != [] && forall k :: 0 <= k < |nodes| ==> ValidCommand(nodes[k].name)
    ensures Split(Render(nodes) + rest, SPLIT_START, false)
         == Split(rest, SplitState(NodeTexts(nodes[..|nodes| - 1]), LastPart(|nodes|, RenderNode(nodes[|nodes| - 1])),
                                   Bare, true), false)
    decreases |nodes|
  {
    hide Split, RenderNode, Render, Unspaced;
    var last := |nodes| - 1;
    var init, node := nodes[..last], nodes[last];
    if last == 0 {
      RenderOne(nodes);
      SplitFirst(node, rest, [], []);
    } else {
      var tail := " ; " + (RenderNode(node) + rest);
      RenderStep(nodes, rest);
      SplitNodes(init, tail);
      var previous := RenderNode(init[last - 1]);
      RenderNodeUnspaced(init[last - 1]);
      SplitNext(node, rest, NodeTexts(init[..last - 1]), LastPart(last, previous), previous);
    }
  }

  lemma RenderStep(nodes: seq<WireNode>, rest: bytes)
    requires |nodes| > 1
    ensures var last := |nodes| - 1;
      Render(nodes) + rest == Render(nodes[..last]) + (" ; " + (RenderNode(nodes[last]) + rest))
  {
    hide RenderNode;
    var last := |nodes| - 1;
    Assoc(Render(nodes[..last]) + " ; ", RenderNode(nodes[last]), rest);
    Assoc(Render(nodes[..last]), " ; ", RenderNode(nodes[last]) + rest);
  }

  /** The splitter returns exactly the rendered commands. */
  lemma SplitRender(nodes: seq<WireNode>)
    requires forall k :: 0 <= k < |nodes| ==> ValidCommand(nodes[k].name)
    ensures Split(Render(nodes), SPLIT_START, false) == Some(NodeTexts(nodes))
  {
    if nodes != [] {
      var last := |nodes| - 1;
      SplitNodes(nodes, []);
      assert Render(nodes) + [] == Render(nodes);
      RenderNodeUnspaced(nodes[last]);
      TrimOne(RenderNode(nodes[last]));
      assert [] + RenderNode(nodes[last]) == RenderNode(nodes[last]);
    }
  }

  /**
   * The splitter refuses the line feed that ends plan.text, for every plan: the two routes are compared on the line
   * without it.
   */
  lemma TextRefused(nodes: seq<WireNode>)
    requires ValidNodes(nodes)
    ensures Split(Render(nodes) + "\n", SPLIT_START, false) == None
  {
    if nodes == [] {
      assert Render(nodes) + "\n" == "\n";
    } else {
      hide Render;
      assert forall k :: 0 <= k < |nodes| ==> ValidNode(nodes[k]);
      SplitNodes(nodes, "\n");
    }
  }

  // --- The two transports ----------------------------------------------------------------------

  predicate Printable(s: bytes) {
    forall i :: 0 <= i < |s| ==> 0x20 <= s[i] as int < 0x7f
  }

  lemma {:induction false} RenderArgsPrintable(args: seq<WireArg>)
    ensures Printable(RenderArgs(args))
  {
    if args != [] {
      RenderArgsPrintable(args[..|args| - 1]);
      RenderArgsStep(args);
      QuotePrintable(ArgValue(args[|args| - 1]));
    }
  }

  /** Rendered text is printable ASCII, so a plan is one line and a nested value is NUL-free. */
  lemma {:induction false} RenderPrintable(nodes: seq<WireNode>)
    requires forall k :: 0 <= k < |nodes| ==> ValidCommand(nodes[k].name)
    ensures Printable(Render(nodes))
    decreases |nodes|
  {
    if nodes != [] {
      var last := |nodes| - 1;
      RenderPrintable(nodes[..last]);
      RenderArgsPrintable(nodes[last].args);
      assert forall c <- nodes[last].name :: IsCommandChar(c);
    }
  }

  /** plan.text is exactly one line. */
  lemma TextIsOneLine(nodes: seq<WireNode>)
    requires ValidNodes(nodes)
    ensures '\n' !in Render(nodes) && NulFree(Render(nodes))
  {
    assert forall k :: 0 <= k < |nodes| ==> ValidNode(nodes[k]);
    RenderPrintable(nodes);
  }

  lemma ValuesNulFree(node: WireNode)
    requires ValidNode(node)
    ensures forall k :: 0 <= k < |node.args| ==> NulFree(ArgValue(node.args[k]))
    ensures forall k :: 0 <= k < |node.args| ==> NulFree(Values(node.args)[k])
  {
    forall k | 0 <= k < |node.args|
      ensures NulFree(ArgValue(node.args[k])) && Values(node.args)[k] == ArgValue(node.args[k])
    {
      assert ValidArg(node.args[k]);
      ValuesAt(node.args, k);
      if node.args[k].Nested? {
        TextIsOneLine(node.args[k].nodes);
      }
    }
  }

  lemma {:induction false} ValuesAt(args: seq<WireArg>, k: nat)
    requires k < |args|
    ensures Values(args)[k] == ArgValue(args[k])
  {
    if k < |args| - 1 {
      ValuesAt(args[..|args| - 1], k);
    }
  }

  lemma {:induction false} MeaningAt(nodes: seq<WireNode>, k: nat)
    requires k < |nodes|
    ensures Meaning(nodes)[k] == NodeWords(nodes[k]) && NodeTexts(nodes)[k] == RenderNode(nodes[k])
  {
    if k < |nodes| - 1 {
      MeaningAt(nodes[..|nodes| - 1], k);
    }
  }

  lemma {:induction false} ParsePartsSnoc(parts: seq<bytes>, last: bytes, words: seq<bytes>)
    requires ParseParts(parts).Some? && Lex(last, LEX_START) == Some(words) && ValidWords(words)
    ensures ParseParts(parts + [last]) == Some(ParseParts(parts).value + [words])
  {
    if parts == [] {
      assert parts + [last] == [last] && [last][1..] == [];
      assert [words] + [] == [words] && [] + [words] == [words];
    } else {
      assert (parts + [last])[1..] == parts[1..] + [last];
      ParsePartsSnoc(parts[1..], last, words);
      assert (parts + [last])[0] == parts[0];
      var first := Lex(parts[0], LEX_START).value;
      var rest := ParseParts(parts[1..]).value;
      assert [first] + (rest + [words]) == [first] + rest + [words];
    }
  }

  lemma LexNodeValid(node: WireNode)
    requires ValidNode(node)
    ensures Lex(RenderNode(node), LEX_START) == Some(NodeWords(node)) && ValidWords(NodeWords(node))
  {
    ValuesNulFree(node);
    LexNode(node);
    assert NodeWords(node)[1..] == Values(node.args);
  }

  lemma {:induction false} ParseNodeTexts(nodes: seq<WireNode>)
    requires forall k :: 0 <= k < |nodes| ==> ValidNode(nodes[k])
    ensures ParseParts(NodeTexts(nodes)) == Some(Meaning(nodes))
    decreases |nodes|
  {
    if nodes != [] {
      var last := |nodes| - 1;
      ParseNodeTexts(nodes[..last]);
      LexNodeValid(nodes[last]);
      ParsePartsSnoc(NodeTexts(nodes[..last]), RenderNode(nodes[last]), NodeWords(nodes[last]));
    }
  }

  /**
   * Both transports deliver the same commands: the argv a subprocess receives and the line a
   * control connection sends each read back as the plan's own word lists.
   */
  lemma TransportsAgree(nodes: seq<WireNode>)
    requires ValidNodes(nodes)
    ensures SplitArgv(ArgvWords(nodes), [], []) == Meaning(nodes)
    ensures ParseText(Render(nodes)) == Some(Meaning(nodes))
  {
    assert forall k :: 0 <= k < |nodes| ==> ValidNode(nodes[k]);
    ArgvDelivers(nodes);
    SplitRender(nodes);
    ParseNodeTexts(nodes);
  }

  // --- Trees, level by level -------------------------------------------------------------------

  /** text reads as nodes: names and plain arguments literally, nested arguments by reading them again. */
  ghost predicate Denotes(text: bytes, nodes: seq<WireNode>)
    decreases nodes
  {
    var cmds := ParseText(text);
    && cmds.Some?
    && |cmds.value| == |nodes|
    && forall k :: 0 <= k < |nodes| ==> DenotesNode(cmds.value[k], nodes[k])
  }

  ghost predicate DenotesNode(words: seq<bytes>, node: WireNode)
    decreases node
  {
    && |words| == 1 + |node.args|
    && words[0] == node.name
    && forall k :: 0 <= k < |node.args| ==> DenotesArg(words[k + 1], node.args[k])
  }

  ghost predicate DenotesArg(word: bytes, arg: WireArg)
    decreases arg
  {
    match arg
    case Text(text) => word == text
    case Nested(nodes) => Denotes(word, nodes)
  }

  lemma {:induction false} NodeRoundTrip(node: WireNode)
    requires ValidNode(node)
    ensures DenotesNode(NodeWords(node), node)
    decreases node
  {
    forall k | 0 <= k < |node.args| ensures DenotesArg(NodeWords(node)[k + 1], node.args[k]) {
      ValuesAt(node.args, k);
      assert ValidArg(node.args[k]);
      match node.args[k] {
        case Text(_) =>
        case Nested(nodes) => TreeRoundTrip(nodes);
      }
    }
  }

  /** Quoting is undone at every nesting depth: a rendered plan reads back as the whole tree. */
  lemma {:induction false} TreeRoundTrip(nodes: seq<WireNode>)
    requires ValidNodes(nodes)
    ensures Denotes(Render(nodes), nodes)
    decreases nodes
  {
    TransportsAgree(nodes);
    forall k | 0 <= k < |nodes| ensures DenotesNode(Meaning(nodes)[k], nodes[k]) {
      MeaningAt(nodes, k);
      assert ValidNode(nodes[k]);
      NodeRoundTrip(nodes[k]);
    }
  }
}
