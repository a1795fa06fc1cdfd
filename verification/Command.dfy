/** Plans, their two printers and their two readers: tmux/command.go. */
module Command {
  import opened Bytes
  import opened Argv

  /** nested == nil in the source is Text; a non-nil node list, possibly empty, is Nested. */
  datatype WireArg = Text(text: bytes) | Nested(nodes: seq<WireNode>)
  datatype WireNode = WireNode(name: bytes, args: seq<WireArg>)

  // --- What a plan says ----------------------------------------------------------------

  /** Names are tmux identifiers and no text holds a NUL, at every depth. */
  predicate ValidNodes(nodes: seq<WireNode>) {
    forall n <- nodes :: ValidNode(n)
  }

  predicate ValidNode(node: WireNode) {
    ValidCommand(node.name) && forall a <- node.args :: ValidArg(a)
  }

  predicate ValidArg(arg: WireArg) {
    match arg
    case Text(text) => NulFree(text)
    case Nested(nodes) => ValidNodes(nodes)
  }

  /** The command text of a node list, without the line feed that ends a line. */
  function Render(nodes: seq<WireNode>): bytes {
    if nodes == [] then []
    else
      var last := |nodes| - 1;
      Render(nodes[..last]) + (if last > 0 then " ; " else []) + RenderNode(nodes[last])
  }

  function RenderNode(node: WireNode): bytes {
    node.name + RenderArgs(node.args)
  }

  function RenderArgs(args: seq<WireArg>): bytes {
    if args == [] then []
    else
      var last := |args| - 1;
      RenderArgs(args[..last]) + " " + RenderArg(args[last])
  }

  function RenderArg(arg: WireArg): bytes
    decreases arg, 1
  {
    Quoted(ArgValue(arg))
  }

  /** The word tmux receives for an argument: a nested list arrives as its own command text. */
  function ArgValue(arg: WireArg): bytes
    decreases arg, 0
  {
    match arg
    case Text(text) => text
    case Nested(nodes) => Render(nodes)
  }

  function Values(args: seq<WireArg>): (r: seq<bytes>)
    ensures |r| == |args|
  {
    if args == [] then [] else Values(args[..|args| - 1]) + [ArgValue(args[|args| - 1])]
  }

  function NodeWords(node: WireNode): seq<bytes> {
    [node.name] + Values(node.args)
  }

  /** The commands a plan stands for, each as its word list. */
  function Meaning(nodes: seq<WireNode>): (r: seq<seq<bytes>>)
    ensures |r| == |nodes|
  {
    if nodes == [] then [] else Meaning(nodes[..|nodes| - 1]) + [NodeWords(nodes[|nodes| - 1])]
  }

  // --- The text printer ------------------------------------------------------------------

  lemma {:induction false} RenderPrefix(nodes: seq<WireNode>, i: nat)
    requires i <= |nodes|
    ensures Render(nodes[..i]) <= Render(nodes)
  {
    if i == |nodes| {
      assert nodes[..i] == nodes;
    } else {
      var init := nodes[..|nodes| - 1];
      assert init[..i] == nodes[..i];
      RenderPrefix(init, i);
    }
  }

  lemma {:induction false} RenderArgsPrefix(args: seq<WireArg>, i: nat)
    requires i <= |args|
    ensures RenderArgs(args[..i]) <= RenderArgs(args)
  {
    if i == |args| {
      assert args[..i] == args;
    } else {
      var init := args[..|args| - 1];
      assert init[..i] == args[..i];
      RenderArgsPrefix(init, i);
    }
  }

  method Emit(sink: Sink, depth: nat, piece: bytes, ghost before: bytes, ghost done: bytes, ghost whole: bytes)
    returns (r: Outcome)
    requires Wrote(sink, depth, before, done, whole, Done)
    requires NulFree(piece) && done + piece <= whole
    modifies sink
    ensures Wrote(sink, depth, before, done + piece, whole, r)
    ensures r == Done || r == Failed(SizeLimit)
  {
    r := Write(sink, depth, piece);
    Extend(sink, depth, before, done, piece, whole, r);
  }

  method WriteArg(sink: Sink, depth: nat, arg: WireArg) returns (r: Outcome)
    requires sink.Valid() && !sink.full
    modifies sink
    ensures Wrote(sink, depth, old(sink.seen), RenderArg(arg), RenderArg(arg), r)
    ensures r.Done? ==> ValidArg(arg)
    ensures r.Failed? && r != Failed(SizeLimit) ==> !ValidArg(arg)
    decreases arg, 2
  {
    hide QuoteN, QuoteBytes;
    ghost var before, whole := sink.seen, RenderArg(arg);
    QuoteNEmpty(depth);
    QuoteNOnce(depth, ArgValue(arg));
    assert [] + "\"" == "\"";
    r := Emit(sink, depth, "\"", before, [], whole);
    if r.Failed? {
      return;
    }
    match arg {
      case Text(text) => r := Write(sink, depth + 1, text);
      case Nested(nodes) => r := WriteNodes(sink, depth + 1, nodes);
    }
    Extend(sink, depth, before, "\"", QuoteBytes(ArgValue(arg)), whole, r);
    if r.Failed? {
      return;
    }
    r := Emit(sink, depth, "\"", before, "\"" + QuoteBytes(ArgValue(arg)), whole);
  }

  lemma RenderNodeStep(node: WireNode, i: nat)
    requires i < |node.args|
    ensures node.name + RenderArgs(node.args[..i]) + " " + RenderArg(node.args[i])
         == node.name + RenderArgs(node.args[..i + 1])
    ensures node.name + RenderArgs(node.args[..i]) + " " + RenderArg(node.args[i]) <= RenderNode(node)
  {
    var args := node.args[..i + 1];
    assert args[..i] == node.args[..i];
    Assoc(node.name, RenderArgs(node.args[..i]), " " + RenderArg(node.args[i]));
    Assoc(node.name + RenderArgs(node.args[..i]), " ", RenderArg(node.args[i]));
    Assoc(RenderArgs(node.args[..i]), " ", RenderArg(node.args[i]));
    RenderArgsPrefix(node.args, i + 1);
  }

  method WriteNode(sink: Sink, depth: nat, node: WireNode) returns (r: Outcome)
    requires sink.Valid() && !sink.full
    modifies sink
    ensures Wrote(sink, depth, old(sink.seen), RenderNode(node), RenderNode(node), r)
    ensures r.Done? ==> ValidNode(node)
    ensures r.Failed? && r != Failed(SizeLimit) ==> !ValidNode(node)
    decreases node, 1
  {
    hide QuoteN, RenderArg;
    if !ValidCommand(node.name) {
      return Failed(BadName);
    }
    ghost var before, whole := sink.seen, RenderNode(node);
    QuoteNEmpty(depth);
    assert [] + node.name == node.name;
    r := Emit(sink, depth, node.name, before, [], whole);
    if r.Failed? {
      return;
    }
    ghost var done: bytes := node.name;
    assert node.args[..0] == [] && node.name + RenderArgs([]) == node.name;
    for i := 0 to |node.args|
      invariant Wrote(sink, depth, before, done, whole, Done)
      invariant done == node.name + RenderArgs(node.args[..i])
      invariant forall k :: 0 <= k < i ==> ValidArg(node.args[k])
    {
      r := WriteNextArg(sink, depth, node, i, before, done);
      if r.Failed? {
        return;
      }
      RenderNodeStep(node, i);
      done := node.name + RenderArgs(node.args[..i + 1]);
    }
    assert node.args[..|node.args|] == node.args;
    return Done;
  }

  /** One turn of writeNode's loop: a space and the argument. */
  method WriteNextArg(sink: Sink, depth: nat, node: WireNode, i: nat, ghost before: bytes, ghost done: bytes)
    returns (r: Outcome)
    requires i < |node.args| && done == node.name + RenderArgs(node.args[..i])
    requires Wrote(sink, depth, before, done, RenderNode(node), Done)
    modifies sink
    ensures Wrote(sink, depth, before, done + " " + RenderArg(node.args[i]), RenderNode(node), r)
    ensures r.Done? ==> ValidArg(node.args[i])
    ensures r.Failed? && r != Failed(SizeLimit) ==> !ValidArg(node.args[i])
    decreases node, 0
  {
    RenderNodeStep(node, i);
    r := Emit(sink, depth, " ", before, done, RenderNode(node));
    if r.Failed? {
      return;
    }
    r := WriteArg(sink, depth, node.args[i]);
    Extend(sink, depth, before, done + " ", RenderArg(node.args[i]), RenderNode(node), r);
  }

  method WriteNodes(sink: Sink, depth: nat, nodes: seq<WireNode>) returns (r: Outcome)
    requires sink.Valid() && !sink.full
    modifies sink
    ensures Wrote(sink, depth, old(sink.seen), Render(nodes), Render(nodes), r)
    ensures r.Done? ==> ValidNodes(nodes)
    ensures r.Failed? && r != Failed(SizeLimit) ==> !ValidNodes(nodes)
    decreases nodes
  {
    hide QuoteN, RenderNode;
    ghost var before, whole := sink.seen, Render(nodes);
    QuoteNEmpty(depth);
    assert nodes[..0] == [];
    for i := 0 to |nodes|
      invariant Wrote(sink, depth, before, Render(nodes[..i]), whole, Done)
      invariant forall k :: 0 <= k < i ==> ValidNode(nodes[k])
    {
      ghost var done := Render(nodes[..i]);
      ghost var piece := RenderNode(nodes[i]);
      RenderPrefix(nodes, i + 1);
      assert nodes[..i + 1][..i] == nodes[..i];
      assert Render(nodes[..i + 1]) == done + (if i > 0 then " ; " else []) + piece;
      if i > 0 {
        r := Emit(sink, depth, " ; ", before, done, whole);
        if r.Failed? {
          return;
        }
        done := done + " ; ";
      } else {
        assert done + [] == done;
      }
      r := WriteNode(sink, depth, nodes[i]);
      Extend(sink, depth, before, done, piece, whole, r);
      if r.Failed? {
        return;
      }
    }
    assert nodes[..|nodes|] == nodes;
    return Done;
  }

  /** plan.text: one line, or None where a name or a text is invalid. */
  method PlanText(nodes: seq<WireNode>) returns (r: Option<bytes>)
    ensures r == if ValidNodes(nodes) then Some(Render(nodes) + "\n") else None
  {
    var sink := new Sink(None);
    var w := WriteNodes(sink, 0, nodes);
    if w.Failed? {
      return None;
    }
    assert [] + Render(nodes) == Render(nodes);
    return Some(sink.text + "\n");
  }

  /** plan.size counts what plan.text would build: it succeeds exactly where that line fits. */
  method PlanSize(nodes: seq<WireNode>, maxBytes: int) returns (r: Option<int>)
    ensures r == if ValidNodes(nodes) && |Render(nodes)| + 1 <= maxBytes then Some(|Render(nodes)| + 1) else None
  {
    var sink := new Sink(Some(maxBytes));
    var w := WriteNodes(sink, 0, nodes);
    if w.Failed? || sink.n >= maxBytes {
      return None;
    }
    return Some(sink.n + 1);
  }

  // --- The argv printer and reader -----------------------------------------------------------

  function EscapedValues(args: seq<WireArg>): seq<bytes> {
    if args == [] then [] else EscapedValues(args[..|args| - 1]) + [EscapeArg(ArgValue(args[|args| - 1]))]
  }

  function ArgvWords(nodes: seq<WireNode>): seq<bytes> {
    if nodes == [] then []
    else
      var last := |nodes| - 1;
      ArgvWords(nodes[..last]) + (if last > 0 then [";"] else []) + [nodes[last].name] + EscapedValues(nodes[last].args)
  }

  /** The trees plan.argv accepts: it checks nested lists but neither top-level names nor texts. */
  predicate NestedValid(nodes: seq<WireNode>) {
    forall n <- nodes :: forall a <- n.args :: a.Nested? ==> ValidNodes(a.nodes)
  }

  /** An argument as plan.argv passes it, before escaping. */
  method ArgvText(arg: WireArg) returns (r: Option<bytes>)
    ensures r == if arg.Nested? && !ValidNodes(arg.nodes) then None else Some(ArgValue(arg))
  {
    match arg {
      case Text(text) => return Some(text);
      case Nested(nested) =>
        var sink := new Sink(None);
        var w := WriteNodes(sink, 0, nested);
        if w.Failed? {
          return None;
        }
        assert [] + Render(nested) == Render(nested);
        return Some(sink.text);
    }
  }

  /** plan.argv. */
  method PlanArgv(nodes: seq<WireNode>) returns (r: Option<seq<bytes>>)
    ensures r == if NestedValid(nodes) then Some(ArgvWords(nodes)) else None
  {
    hide ValidNodes, ArgValue, EscapeArg;
    var out: seq<bytes> := [];
    for i := 0 to |nodes|
      invariant out == ArgvWords(nodes[..i])
      invariant NestedValid(nodes[..i])
    {
      ghost var before := out;
      var node := nodes[i];
      assert nodes[..i + 1][..i] == nodes[..i] && nodes[..i + 1][i] == node;
      if i > 0 {
        out := out + [";"];
      }
      out := out + [node.name];
      ghost var head := out;
      for j := 0 to |node.args|
        invariant out == head + EscapedValues(node.args[..j])
        invariant forall k :: 0 <= k < j && node.args[k].Nested? ==> ValidNodes(node.args[k].nodes)
      {
        assert node.args[..j + 1][..j] == node.args[..j];
        var s := ArgvText(node.args[j]);
        if s == None {
          assert node in nodes && node.args[j] in node.args;
          return None;
        }
        out := out + [EscapeArg(s.value)];
      }
      assert node.args[..|node.args|] == node.args;
      assert before + [] == before;
    }
    assert nodes[..|nodes|] == nodes;
    return Some(out);
  }

  /** One argv element without its separator, and whether it ends its command. */
  function ArgvWord(a: bytes): (bytes, bool) {
    if a == [] || a[|a| - 1] != ';' then (a, false)
    else
      var arg := a[..|a| - 1];
      if arg != [] && arg[|arg| - 1] == '\\' then (arg[..|arg| - 1] + ";", false) else (arg, true)
  }

  /** The command word lists of args, given the finished commands and the current one. */
  function SplitArgv(args: seq<bytes>, cmds: seq<seq<bytes>>, current: seq<bytes>): seq<seq<bytes>> {
    if args == [] then
      if current == [] then cmds else cmds + [current]
    else
      var (arg, end) := ArgvWord(args[0]);
      var next := if !end || arg != [] then current + [arg] else current;
      if end && next != [] then SplitArgv(args[1..], cmds + [next], [])
      else SplitArgv(args[1..], cmds, next)
  }

  method SplitArgvCommands(args: seq<bytes>) returns (cmds: seq<seq<bytes>>)
    ensures cmds == SplitArgv(args, [], [])
  {
    cmds := [];
    var current: seq<bytes> := [];
    for i := 0 to |args|
      invariant SplitArgv(args, [], []) == SplitArgv(args[i..], cmds, current)
    {
      assert args[i..][0] == args[i] && args[i..][1..] == args[i + 1..];
      var end := false;
      var arg := args[i];
      if |arg| > 0 && arg[|arg| - 1] == ';' {
        arg := arg[..|arg| - 1];
        if |arg| > 0 && arg[|arg| - 1] == '\\' {
          arg := arg[..|arg| - 1] + ";";
        } else {
          end := true;
        }
      }
      if !end || |arg| > 0 {
        current := current + [arg];
      }
      if end && |current| > 0 {
        cmds, current := cmds + [current], [];
      }
    }
    if |current| > 0 {
      cmds := cmds + [current];
    }
  }

  /** EscapeArg shields exactly one argument from the splitter, whatever its bytes. */
  lemma EscapeArgShields(s: bytes)
    ensures ArgvWord(EscapeArg(s)) == (s, false)
  {
    if s != [] && s[|s| - 1] == ';' {
      var e := EscapeArg(s);
      assert e[..|e| - 1][..|s| - 1] == s[..|s| - 1];
      assert s == s[..|s| - 1] + ";";
    }
  }

  lemma {:induction false} SplitArgvArgs(args: seq<WireArg>, rest: seq<bytes>, cmds: seq<seq<bytes>>,
                                         current: seq<bytes>)
    ensures SplitArgv(EscapedValues(args) + rest, cmds, current) == SplitArgv(rest, cmds, current + Values(args))
  {
    if args == [] {
      assert [] + rest == rest && current + [] == current;
    } else {
      var init, v := args[..|args| - 1], ArgValue(args[|args| - 1]);
      assert EscapedValues(args) + rest == EscapedValues(init) + ([EscapeArg(v)] + rest);
      SplitArgvArgs(init, [EscapeArg(v)] + rest, cmds, current);
      EscapeArgShields(v);
      assert ([EscapeArg(v)] + rest)[1..] == rest;
      assert current + Values(init) + [v] == current + Values(args);
    }
  }

  lemma SplitArgvNode(node: WireNode, rest: seq<bytes>, cmds: seq<seq<bytes>>)
    requires ValidCommand(node.name)
    ensures SplitArgv([node.name] + EscapedValues(node.args) + rest, cmds, []) == SplitArgv(rest, cmds, NodeWords(node))
  {
    var words := [node.name] + EscapedValues(node.args) + rest;
    assert ArgvWord(node.name) == (node.name, false);
    assert words[1..] == EscapedValues(node.args) + rest && [] + [node.name] == [node.name];
    SplitArgvArgs(node.args, rest, cmds, [node.name]);
  }

  lemma SplitArgvJoin(rest: seq<bytes>, cmds: seq<seq<bytes>>, current: seq<bytes>)
    requires current != []
    ensures SplitArgv([";"] + rest, cmds, current) == SplitArgv(rest, cmds + [current], [])
  {
    assert ArgvWord(";") == ([], true);
    assert ([";"] + rest)[1..] == rest;
  }

  lemma ArgvWordsStep(nodes: seq<WireNode>, rest: seq<bytes>)
    requires |nodes| > 1
    ensures var last := |nodes| - 1;
      ArgvWords(nodes) + rest
      == ArgvWords(nodes[..last]) + ([";"] + ([nodes[last].name] + EscapedValues(nodes[last].args) + rest))
  {
  }

  lemma {:induction false} SplitArgvNodes(nodes: seq<WireNode>, rest: seq<bytes>)
    requires nodes != [] && forall k :: 0 <= k < |nodes| ==> ValidCommand(nodes[k].name)
    ensures SplitArgv(ArgvWords(nodes) + rest, [], [])
         == SplitArgv(rest, Meaning(nodes[..|nodes| - 1]), NodeWords(nodes[|nodes| - 1]))
    decreases |nodes|
  {
    var last := |nodes| - 1;
    hide SplitArgv, EscapedValues, ArgvWord;
    var init, node := nodes[..last], nodes[last];
    var tail := [node.name] + EscapedValues(node.args) + rest;
    SplitArgvNode(node, rest, Meaning(init));
    if last == 0 {
      assert ArgvWords(nodes) + rest == tail;
    } else {
      ArgvWordsStep(nodes, rest);
      SplitArgvNodes(init, [";"] + tail);
      SplitArgvJoin(tail, Meaning(init[..last - 1]), NodeWords(init[last - 1]));
    }
  }

  /** The argv route: what splitArgvCommands reads back from plan.argv. */
  lemma ArgvDelivers(nodes: seq<WireNode>)
    requires ValidNodes(nodes)
    ensures SplitArgv(ArgvWords(nodes), [], []) == Meaning(nodes)
  {
    if nodes != [] {
      assert forall k :: 0 <= k < |nodes| ==> ValidNode(nodes[k]);
      SplitArgvNodes(nodes, []);
      assert ArgvWords(nodes) + [] == ArgvWords(nodes);
    }
  }

  // --- What the reader makes of any argv ---------------------------------------------------

  /** What one argument can say: a word, the last word of its command, or that the command ends. */
  datatype Argument = Word(word: bytes) | Last(word: bytes) | End

  predicate ArgumentOK(a: Argument) {
    a.Last? ==> a.word != [] && a.word[|a.word| - 1] != '\\'
  }

  function ArgumentText(a: Argument): bytes {
    match a
    case Word(w) => EscapeArg(w)
    case Last(w) => w + ";"
    case End => ";"
  }

  function ArgumentTexts(args: seq<Argument>): seq<bytes> {
    if args == [] then [] else [ArgumentText(args[0])] + ArgumentTexts(args[1..])
  }

  /** The words of args, with None where a command ends. */
  function Tokens(args: seq<Argument>): seq<Option<bytes>> {
    if args == [] then []
    else
      (match args[0]
       case Word(w) => [Some(w)]
       case Last(w) => [Some(w), None]
       case End => [None]) + Tokens(args[1..])
  }

  /** The runs of words between ends that hold a word; run is the first of them so far. */
  function WordRuns(tokens: seq<Option<bytes>>, run: seq<bytes>): seq<seq<bytes>> {
    if tokens == [] then (if run == [] then [] else [run])
    else
      match tokens[0]
      case Some(w) => WordRuns(tokens[1..], run + [w])
      case None => (if run == [] then [] else [run]) + WordRuns(tokens[1..], [])
  }

  /** Every argument says exactly one of these. */
  lemma ArgumentRead(arg: bytes) returns (a: Argument)
    ensures ArgumentOK(a) && ArgumentText(a) == arg
    ensures forall b :: ArgumentOK(b) && ArgumentText(b) == arg ==> b == a
  {
    if arg == [] || arg[|arg| - 1] != ';' {
      a := Word(arg);
    } else if arg == ";" {
      a := End;
    } else if arg[|arg| - 2] == '\\' {
      a := Word(arg[..|arg| - 2] + ";");
      assert arg == arg[..|arg| - 2] + ['\\', ';'];
    } else {
      a := Last(arg[..|arg| - 1]);
    }
    forall b | ArgumentOK(b) && ArgumentText(b) == arg ensures b == a {
      SaysOne(b, a);
    }
  }

  lemma SaysOne(a: Argument, b: Argument)
    requires ArgumentOK(a) && ArgumentOK(b) && ArgumentText(a) == ArgumentText(b)
    ensures a == b
  {
    ArgumentWord(a);
    ArgumentWord(b);
  }

  /** The reader takes an argument for what it says. */
  lemma ArgumentWord(a: Argument)
    requires ArgumentOK(a)
    ensures ArgvWord(ArgumentText(a)) == (if a.End? then [] else a.word, !a.Word?)
  {
    hide ArgvWord, EscapeArg;
    match a {
      case Word(w) => EscapeArgShields(w);
      case Last(w) => LastWord(w);
      case End =>
        LastWord([]);
        assert [] + ";" == ";";
    }
  }

  lemma LastWord(w: bytes)
    requires w == [] || w[|w| - 1] != '\\'
    ensures ArgvWord(w + ";") == (w, true)
  {
    var a: bytes := w + ";";
    assert a[|a| - 1] == ';' && a[..|a| - 1] == w;
  }

  lemma AssocLists(a: seq<seq<bytes>>, b: seq<seq<bytes>>, c: seq<seq<bytes>>)
    ensures a + b + c == a + (b + c)
  {
  }

  lemma {:induction false} SplitArgvFrom(args: seq<Argument>, cmds: seq<seq<bytes>>, current: seq<bytes>)
    requires forall a <- args :: ArgumentOK(a)
    ensures SplitArgv(ArgumentTexts(args), cmds, current) == cmds + WordRuns(Tokens(args), current)
    decreases |args|
  {
    hide ArgvWord, ArgumentText, ArgumentOK;
    if args != [] {
      var a, texts := args[0], ArgumentTexts(args);
      assert a in args && forall b <- args[1..] :: b in args;
      assert texts[1..] == ArgumentTexts(args[1..]);
      ArgumentWord(a);
      TokensFirst(args, current);
      match a {
        case Word(w) => SplitArgvFrom(args[1..], cmds, current + [w]);
        case Last(w) =>
          WordNotEmpty(a);
          SplitArgvFrom(args[1..], cmds + [current + [w]], []);
          AssocLists(cmds, [current + [w]], WordRuns(Tokens(args[1..]), []));
        case End =>
          SplitArgvFrom(args[1..], if current == [] then cmds else cmds + [current], []);
          AssocLists(cmds, if current == [] then [] else [current], WordRuns(Tokens(args[1..]), []));
          assert cmds + [] == cmds;
      }
    } else {
      assert cmds + [] == cmds;
    }
  }

  lemma WordNotEmpty(a: Argument)
    requires a.Last? && ArgumentOK(a)
    ensures a.word != []
  {
  }

  lemma TokensFirst(args: seq<Argument>, run: seq<bytes>)
    requires args != []
    ensures var rest := Tokens(args[1..]);
      && (args[0].Word? ==> WordRuns(Tokens(args), run) == WordRuns(rest, run + [args[0].word]))
      && (args[0].Last? ==> WordRuns(Tokens(args), run) == [run + [args[0].word]] + WordRuns(rest, []))
      && (args[0].End? ==> WordRuns(Tokens(args), run) == (if run == [] then [] else [run]) + WordRuns(rest, []))
  {
    var tokens, rest := Tokens(args), Tokens(args[1..]);
    match args[0] {
      case Word(_) => assert tokens[1..] == rest;
      case Last(_) => assert tokens[1..] == [None] + rest && tokens[1..][1..] == rest;
      case End => assert tokens[1..] == rest;
    }
  }

  /** Whatever arguments there are, their commands are the runs of words between ends that hold a word. */
  lemma SplitArgvExactly(args: seq<Argument>)
    requires forall a <- args :: ArgumentOK(a)
    ensures SplitArgv(ArgumentTexts(args), [], []) == WordRuns(Tokens(args), [])
  {
    SplitArgvFrom(args, [], []);
  }
}
