/**
 * What a tmux command line may be written as and what it means, with its flags as data and not as the parser's state,
 * and that ParseCommandLine (tmux/command.go) accepts exactly that and gives it that meaning.
 */
module RootOptions {
  import opened Bytes
  import opened Command
  import opened Sequence
  import opened CommandLine

  // --- Command lines as they can be written -------------------------------------------------------

  /** A flag and its value, which is empty for a flag that takes none. */
  datatype Flag = Flag(letter: byte, value: bytes)

  /** One dash: letters without values, then at most one with its value, in the same argument or the next. */
  datatype Group = Group(simple: bytes, valued: Option<Flag>, attached: bool)

  predicate Simple(c: byte) {
    c in ['2', 'u', 'l', 'v', 'N', 'D', 'h', 'V', 'C']
  }

  predicate Valued(c: byte) {
    c in ['c', 'f', 'L', 'S', 'T']
  }

  predicate GroupOK(g: Group) {
    && (forall c <- g.simple :: Simple(c))
    && (g.valued.None? ==> g.simple != [] && !g.attached)
    && (g.valued.Some? ==> Valued(g.valued.value.letter) && (g.attached ==> g.valued.value.value != []))
  }

  function GroupArgs(g: Group): seq<bytes> {
    match g.valued
    case None => [['-'] + g.simple]
    case Some(f) =>
      if g.attached then [['-'] + (g.simple + ([f.letter] + f.value))] else [['-'] + (g.simple + [f.letter]), f.value]
  }

  function GroupsArgs(gs: seq<Group>): seq<bytes> {
    if gs == [] then [] else GroupArgs(gs[0]) + GroupsArgs(gs[1..])
  }

  /** The flags of letters that take no value. */
  function Plain(simple: bytes): seq<Flag> {
    seq(|simple|, i requires 0 <= i < |simple| => Flag(simple[i], []))
  }

  function GroupFlags(g: Group): seq<Flag> {
    Plain(g.simple) + (if g.valued.Some? then [g.valued.value] else [])
  }

  function FlagsOf(gs: seq<Group>): seq<Flag> {
    if gs == [] then [] else GroupFlags(gs[0]) + FlagsOf(gs[1..])
  }

  /** The command arguments, after "--" or because the first of them is no flag. */
  predicate TailOK(dashes: bool, cmdArgs: seq<bytes>) {
    dashes || cmdArgs == [] || cmdArgs[0] == [] || cmdArgs[0] == "-" || cmdArgs[0][0] != '-'
  }

  function Tail(dashes: bool, cmdArgs: seq<bytes>): seq<bytes> {
    (if dashes then ["--"] else []) + cmdArgs
  }

  // --- What they mean -----------------------------------------------------------------------------------

  function Count(fs: seq<Flag>, letter: byte): nat {
    if fs == [] then 0 else Count(fs[..|fs| - 1], letter) + if fs[|fs| - 1].letter == letter then 1 else 0
  }

  /** The last flag of those letters. */
  function Last(fs: seq<Flag>, letters: set<byte>): Option<Flag> {
    if fs == [] then None
    else if fs[|fs| - 1].letter in letters then Some(fs[|fs| - 1])
    else Last(fs[..|fs| - 1], letters)
  }

  function ValueOf(fs: seq<Flag>, letter: byte): bytes {
    var last := Last(fs, {letter});
    if last.Some? then last.value.value else []
  }

  function FeaturesOf(fs: seq<Flag>): seq<bytes> {
    if fs == [] then []
    else FeaturesOf(fs[..|fs| - 1]) + if fs[|fs| - 1].letter == 'T' then SplitComma(fs[|fs| - 1].value) else []
  }

  /** A terminal feature: some text, with no blank, line end, comma or NUL in it. */
  predicate FeatureOK(p: bytes) {
    p != [] && forall c <- p :: c !in [' ', '\t', '\r', '\n', ',', 0 as char]
  }

  predicate FlagOK(f: Flag) {
    && (Valued(f.letter) ==> f.value != [])
    && (f.letter == 'T' ==> forall p <- SplitComma(f.value) :: FeatureOK(p))
  }

  /** Every value is well formed, and there is at most one kind of socket. */
  predicate FlagsOK(fs: seq<Flag>) {
    (forall f <- fs :: FlagOK(f)) && (Count(fs, 'L') == 0 || Count(fs, 'S') == 0)
  }

  function ConfigOf(fs: seq<Flag>): Config {
    Config(ValueOf(fs, 'S'), ValueOf(fs, 'L'), ValueOf(fs, 'f'),
           if Count(fs, 'u') > 0 then UTF8Force else UTF8Default, Count(fs, '2') > 0, FeaturesOf(fs),
           if Count(fs, 'v') >= 2 then LogDebug else if Count(fs, 'v') == 1 then LogVerbose else LogNone,
           Count(fs, 'l') > 0)
  }

  /** The last flag that names an action. */
  function Mode(fs: seq<Flag>): Option<byte> {
    var last := Last(fs, {'c', 'D', 'h', 'V'});
    if last.Some? then Some(last.value.letter) else None
  }

  /** The mode is help or version, which look at no command. */
  predicate Asks(fs: seq<Flag>) {
    Mode(fs) == Some('h') || Mode(fs) == Some('V')
  }

  /** A shell command or a foreground server goes with no command and no control mode. */
  predicate Clashes(fs: seq<Flag>, cmdArgs: seq<bytes>) {
    (Mode(fs) == Some('c') || Mode(fs) == Some('D')) && (cmdArgs != [] || Count(fs, 'C') > 0)
  }

  function ActionOf(fs: seq<Flag>, cmdArgs: seq<bytes>): Action {
    if Asks(fs) then (if Mode(fs) == Some('h') then ActHelp else ActVersion)
    else if Count(fs, 'C') > 0 then ActControl
    else if Mode(fs) == Some('c') then ActShell
    else if Mode(fs) == Some('D') then ActForeground
    else if cmdArgs != [] then ActCommand
    else ActDefault
  }

  predicate CommandsOK(fs: seq<Flag>, cmdArgs: seq<bytes>) {
    cmdArgs != [] ==>
      SplitArgv(cmdArgs, [], []) != [] && (Asks(fs) || forall g <- SplitArgv(cmdArgs, [], []) :: ValidWords(g))
  }

  /** What a command line means, or None where it is refused. */
  function Reads(fs: seq<Flag>, cmdArgs: seq<bytes>): Option<Parsed> {
    if !FlagsOK(fs) || Clashes(fs, cmdArgs) || !CommandsOK(fs, cmdArgs) then None
    else
      Some(Parsed(ConfigOf(fs), ActionOf(fs, cmdArgs), if Asks(fs) then [] else SplitArgv(cmdArgs, [], []),
                  ValueOf(fs, 'c'), Count(fs, 'C') >= 2, Count(fs, 'N') > 0))
  }

  // --- The parser's state says the same --------------------------------------------------------------

  /** What the parser knows after fs. */
  function StateOf(fs: seq<Flag>): RawState {
    RawState(ConfigOf(fs).(logLevel := LogNone), RawAction(fs), ValueOf(fs, 'c'), Count(fs, 'C'), Count(fs, 'v'),
             Count(fs, 'N') > 0)
  }

  function RawAction(fs: seq<Flag>): Action {
    match Mode(fs)
    case None => ActDefault
    case Some(c) =>
      if c == 'c' then ActShell
      else if c == 'D' then ActForeground
      else if c == 'h' then ActHelp
      else ActVersion
  }

  lemma LastAdd(fs: seq<Flag>, f: Flag)
    ensures (fs + [f])[..|fs|] == fs && (fs + [f])[|fs|] == f
    ensures forall c :: Count(fs + [f], c) == Count(fs, c) + if f.letter == c then 1 else 0
    ensures forall cs :: Last(fs + [f], cs) == if f.letter in cs then Some(f) else Last(fs, cs)
    ensures FeaturesOf(fs + [f]) == FeaturesOf(fs) + if f.letter == 'T' then SplitComma(f.value) else []
  {
    assert (fs + [f])[..|fs|] == fs && (fs + [f])[|fs|] == f;
  }

  lemma ActionAdd(fs: seq<Flag>, f: Flag)
    ensures RawAction(fs + [f]) ==
      match f.letter
      case 'c' => ActShell
      case 'D' => ActForeground
      case 'h' => ActHelp
      case 'V' => ActVersion
      case _ => RawAction(fs)
  {
    LastAdd(fs, f);
  }

  lemma ValueAdd(fs: seq<Flag>, f: Flag, letter: byte)
    ensures ValueOf(fs + [f], letter) == if f.letter == letter then f.value else ValueOf(fs, letter)
  {
    LastAdd(fs, f);
  }

  /** The state after one flag more, field by field. */
  lemma StateAdd(fs: seq<Flag>, f: Flag)
    ensures var s, t, c := StateOf(fs), StateOf(fs + [f]), f.letter;
      && t.cfg == Config(if c == 'S' then f.value else s.cfg.socketPath, if c == 'L' then f.value else s.cfg.socketName,
                         if c == 'f' then f.value else s.cfg.configFile, if c == 'u' then UTF8Force else s.cfg.utf8,
                         c == '2' || s.cfg.colors256,
                         if c == 'T' then s.cfg.features + SplitComma(f.value) else s.cfg.features, LogNone,
                         c == 'l' || s.cfg.loginShell)
      && t.action == RawAction(fs + [f]) && t.shellCmd == (if c == 'c' then f.value else s.shellCmd)
      && t.controlCount == s.controlCount + (if c == 'C' then 1 else 0)
      && t.verboseCount == s.verboseCount + (if c == 'v' then 1 else 0) && t.hasN == (c == 'N' || s.hasN)
  {
    hide RawAction, ValueOf, Last;
    LastAdd(fs, f);
    ValueAdd(fs, f, 'S');
    ValueAdd(fs, f, 'L');
    ValueAdd(fs, f, 'f');
    ValueAdd(fs, f, 'c');
    assert FeaturesOf(fs) + [] == FeaturesOf(fs);
  }

  lemma SimpleReads(fs: seq<Flag>, c: byte)
    ensures SimpleFlag(c, StateOf(fs)) == if Simple(c) then Some(StateOf(fs + [Flag(c, [])])) else None
  {
    hide StateOf, RawAction;
    StateAdd(fs, Flag(c, []));
    ActionAdd(fs, Flag(c, []));
    RawOf(fs);
  }

  lemma RawOf(fs: seq<Flag>)
    ensures StateOf(fs).action == RawAction(fs) && StateOf(fs).cfg.logLevel == LogNone
  {
  }

  /** One kind of socket is known exactly when it was given. */
  lemma {:induction false} SocketKnown(fs: seq<Flag>, letter: byte)
    requires Valued(letter) && forall f <- fs :: FlagOK(f)
    ensures ValueOf(fs, letter) != [] <==> Count(fs, letter) > 0
  {
    if fs != [] {
      assert fs == fs[..|fs| - 1] + [fs[|fs| - 1]] && fs[|fs| - 1] in fs;
      assert forall f <- fs[..|fs| - 1] :: f in fs;
      SocketKnown(fs[..|fs| - 1], letter);
      LastAdd(fs[..|fs| - 1], fs[|fs| - 1]);
    }
  }

  lemma OKAdd(fs: seq<Flag>, f: Flag)
    ensures FlagsOK(fs + [f])
       <==> && FlagsOK(fs) && FlagOK(f)
            && (f.letter == 'L' ==> Count(fs, 'S') == 0) && (f.letter == 'S' ==> Count(fs, 'L') == 0)
  {
    hide FlagOK;
    LastAdd(fs, f);
    assert forall g :: g in fs + [f] <==> g in fs || g == f;
  }

  lemma ValuedReads(fs: seq<Flag>, f: Flag)
    requires FlagsOK(fs) && Valued(f.letter)
    ensures ValuedFlag(f.letter, f.value, StateOf(fs)) == if FlagsOK(fs + [f]) then Some(StateOf(fs + [f])) else None
  {
    hide StateOf, RawAction, FlagsOK, SplitComma;
    OKAdd(fs, f);
    StateAdd(fs, f);
    ActionAdd(fs, f);
    RawOf(fs);
    Sockets(fs);
    assert forall p <- SplitComma(f.value) :: FeatureOK(p) <==> ValidFeature(p);
  }

  lemma Sockets(fs: seq<Flag>)
    requires FlagsOK(fs)
    ensures StateOf(fs).cfg.socketPath != [] <==> Count(fs, 'S') > 0
    ensures StateOf(fs).cfg.socketName != [] <==> Count(fs, 'L') > 0
  {
    SocketKnown(fs, 'S');
    SocketKnown(fs, 'L');
  }

  // --- The parser reads what is written -----------------------------------------------------------------

  /** The letters of a group and the value that may follow them. */
  function GroupText(g: Group): bytes {
    g.simple + (match g.valued case None => [] case Some(f) => if g.attached then [f.letter] + f.value else [f.letter])
  }

  /** The value of a group in an argument of its own. */
  function GroupRest(g: Group): seq<bytes> {
    if g.valued.Some? && !g.attached then [g.valued.value.value] else []
  }

  lemma GroupShape(g: Group)
    ensures GroupArgs(g) == [['-'] + GroupText(g)] + GroupRest(g)
  {
    match g.valued {
      case None => assert GroupText(g) == g.simple;
      case Some(_) =>
    }
  }

  lemma PlainFirst(c: byte, simple: bytes)
    ensures Plain([c] + simple) == [Flag(c, [])] + Plain(simple)
  {
  }

  lemma AssocFlags(a: seq<Flag>, b: seq<Flag>, c: seq<Flag>)
    ensures a + b + c == a + (b + c)
  {
  }

  lemma BundleStep(c: byte, flags: bytes, after: seq<bytes>, s: RawState)
    requires SimpleFlag(c, s).Some?
    ensures Bundle([c] + flags, after, s) == Bundle(flags, after, SimpleFlag(c, s).value)
  {
    assert ([c] + flags)[1..] == flags;
  }

  lemma BundleValue(f: Flag, attached: bool, rest: seq<bytes>, s: RawState)
    requires Valued(f.letter) && (attached ==> f.value != []) && SimpleFlag(f.letter, s).None?
    ensures Bundle([f.letter] + (if attached then f.value else []), (if attached then [] else [f.value]) + rest, s)
         == match ValuedFlag(f.letter, f.value, s)
            case None => None
            case Some(t) => Some((t, if attached then 0 else 1))
  {
    hide ValuedFlag, SimpleFlag;
    var text := [f.letter] + (if attached then f.value else []);
    assert text[1..] == if attached then f.value else [];
    assert [] + rest == rest;
  }

  /** A group's letters and value. */
  lemma {:induction false} GroupReads(g: Group, rest: seq<bytes>, fs: seq<Flag>)
    requires (forall c <- g.simple :: Simple(c)) && FlagsOK(fs)
    requires g.valued.Some? ==> Valued(g.valued.value.letter) && (g.attached ==> g.valued.value.value != [])
    ensures Bundle(GroupText(g), GroupRest(g) + rest, StateOf(fs)) ==
      if FlagsOK(fs + GroupFlags(g)) then Some((StateOf(fs + GroupFlags(g)), |GroupRest(g)|)) else None
    decreases |g.simple|
  {
    hide FlagsOK, StateOf, Bundle, ValuedFlag, SimpleFlag, Simple, Valued, Plain;
    if g.simple != [] {
      var c, less := g.simple[0], g.(simple := g.simple[1..]);
      assert c in g.simple && forall d <- less.simple :: d in g.simple;
      var head := Flag(c, []);
      SimpleReads(fs, c);
      assert GroupText(g) == [c] + GroupText(less) && g.simple == [c] + less.simple;
      BundleStep(c, GroupText(less), GroupRest(g) + rest, StateOf(fs));
      SimpleOK(fs, c);
      GroupReads(less, rest, fs + [head]);
      PlainFirst(c, less.simple);
      assert GroupFlags(g) == [head] + GroupFlags(less);
      AssocFlags(fs, [head], GroupFlags(less));
    } else if g.valued.Some? {
      var f := g.valued.value;
      PlainNone();
      assert GroupFlags(g) == [f] && GroupText(g) == [f.letter] + (if g.attached then f.value else []);
      SimpleReads(fs, f.letter);
      NotBoth(f.letter);
      BundleValue(f, g.attached, rest, StateOf(fs));
      ValuedReads(fs, f);
    } else {
      PlainNone();
      assert GroupFlags(g) == [] && fs + [] == fs && GroupText(g) == [];
      BundleNone(rest, StateOf(fs));
      assert [] + rest == rest;
    }
  }

  lemma PlainNone()
    ensures Plain([]) == []
  {
  }

  lemma NotBoth(c: byte)
    ensures !(Simple(c) && Valued(c))
  {
  }

  lemma BundleNone(rest: seq<bytes>, s: RawState)
    ensures Bundle([], rest, s) == Some((s, 0))
  {
  }

  lemma SimpleOK(fs: seq<Flag>, c: byte)
    requires FlagsOK(fs) && Simple(c)
    ensures FlagsOK(fs + [Flag(c, [])])
  {
    OKAdd(fs, Flag(c, []));
  }

  lemma {:induction false} OKPrefix(fs: seq<Flag>, more: seq<Flag>)
    requires FlagsOK(fs + more)
    ensures FlagsOK(fs)
    decreases |more|
  {
    if more == [] {
      assert fs + more == fs;
    } else {
      var less, f := more[..|more| - 1], more[|more| - 1];
      assert fs + more == fs + less + [f];
      OKAdd(fs + less, f);
      OKPrefix(fs, less);
    }
  }

  lemma FlagsTail(dashes: bool, cmdArgs: seq<bytes>, s: RawState)
    requires TailOK(dashes, cmdArgs)
    ensures Flags(Tail(dashes, cmdArgs), s) == Some((s, cmdArgs))
  {
    if dashes {
      assert Tail(dashes, cmdArgs)[1..] == cmdArgs;
    } else {
      assert Tail(dashes, cmdArgs) == cmdArgs;
    }
  }

  /** One turn of the flag loop. */
  lemma FlagsGroup(g: Group, rest: seq<bytes>, s: RawState)
    requires GroupOK(g)
    ensures var args := GroupArgs(g) + rest;
      Flags(args, s) == match Bundle(GroupText(g), GroupRest(g) + rest, s)
        case None => None
        case Some((next, taken)) => Flags(args[1 + taken..], next)
  {
    hide Bundle;
    GroupShape(g);
    var args := GroupArgs(g) + rest;
    assert args[0] == ['-'] + GroupText(g) && args[0][1..] == GroupText(g) && args[1..] == GroupRest(g) + rest;
    assert GroupText(g) != [] && GroupText(g)[0] != '-' by { TextLetter(g); }
    assert args[0] != "--" && args[0] != "-";
  }

  lemma TextLetter(g: Group)
    requires GroupOK(g)
    ensures GroupText(g) != [] && GroupText(g)[0] != '-'
  {
    if g.simple != [] {
      assert g.simple[0] in g.simple && GroupText(g)[0] == g.simple[0];
    }
  }

  lemma {:induction false} GroupsRead(gs: seq<Group>, dashes: bool, cmdArgs: seq<bytes>, fs: seq<Flag>)
    requires (forall g <- gs :: GroupOK(g)) && TailOK(dashes, cmdArgs) && FlagsOK(fs)
    ensures Flags(GroupsArgs(gs) + Tail(dashes, cmdArgs), StateOf(fs)) ==
      if FlagsOK(fs + FlagsOf(gs)) then Some((StateOf(fs + FlagsOf(gs)), cmdArgs)) else None
    decreases |gs|
  {
    hide Flags, FlagsOK, StateOf, GroupOK, GroupArgs, GroupFlags, GroupText, GroupRest, Tail, Bundle;
    var tail := Tail(dashes, cmdArgs);
    if gs == [] {
      FlagsTail(dashes, cmdArgs, StateOf(fs));
      assert GroupsArgs(gs) + tail == tail && fs + FlagsOf(gs) == fs;
    } else {
      var g, rest := gs[0], GroupsArgs(gs[1..]) + tail;
      assert g in gs && forall h <- gs[1..] :: h in gs;
      AssocArgs(GroupArgs(g), GroupsArgs(gs[1..]), tail);
      FlagsGroup(g, rest, StateOf(fs));
      GroupParts(g);
      GroupReads(g, rest, fs);
      GroupShape(g);
      AssocFlags(fs, GroupFlags(g), FlagsOf(gs[1..]));
      assert (GroupArgs(g) + rest)[1 + |GroupRest(g)|..] == rest;
      if FlagsOK(fs + GroupFlags(g)) {
        GroupsRead(gs[1..], dashes, cmdArgs, fs + GroupFlags(g));
      } else if FlagsOK(fs + FlagsOf(gs)) {
        OKPrefix(fs + GroupFlags(g), FlagsOf(gs[1..]));
      }
    }
  }

  lemma GroupParts(g: Group)
    requires GroupOK(g)
    ensures forall c <- g.simple :: Simple(c)
    ensures g.valued.Some? ==> Valued(g.valued.value.letter) && (g.attached ==> g.valued.value.value != [])
  {
  }

  lemma {:induction false} LastAmong(fs: seq<Flag>, letters: set<byte>)
    ensures Last(fs, letters).Some? ==> Last(fs, letters).value.letter in letters
  {
    if fs != [] {
      LastAmong(fs[..|fs| - 1], letters);
    }
  }

  lemma NoCommands()
    ensures SplitArgv([], [], []) == []
  {
  }

  lemma FinishReads(fs: seq<Flag>, cmdArgs: seq<bytes>)
    requires FlagsOK(fs)
    ensures Finish(StateOf(fs), cmdArgs) == Reads(fs, cmdArgs)
  {
    hide FlagsOK, SplitArgv, ValidWords, Count, ValueOf, FeaturesOf, Last;
    LastAmong(fs, {'c', 'D', 'h', 'V'});
    NoCommands();
  }

  // --- The parser reads nothing else ----------------------------------------------------------------------

  /** A bundle the parser gets through is a group. */
  lemma {:induction false} ReadBundle(text: bytes, after: seq<bytes>, fs: seq<Flag>) returns (g: Group)
    requires Bundle(text, after, StateOf(fs)).Some?
    ensures (forall c <- g.simple :: Simple(c)) && GroupText(g) == text && GroupRest(g) <= after
    ensures g.valued.None? ==> g.simple == text && !g.attached
    ensures g.valued.Some? ==> Valued(g.valued.value.letter) && (g.attached ==> g.valued.value.value != [])
    decreases |text|
  {
    hide StateOf, ValuedFlag, SimpleFlag;
    if text == [] {
      return Group([], None, false);
    }
    var c := text[0];
    SimpleReads(fs, c);
    assert text == [c] + text[1..];
    if Simple(c) {
      g := ReadBundle(text[1..], after, fs + [Flag(c, [])]);
      assert GroupText(g.(simple := [c] + g.simple)) == [c] + GroupText(g);
      g := g.(simple := [c] + g.simple);
    } else if text[1..] != [] {
      g := Group([], Some(Flag(c, text[1..])), true);
    } else {
      g := Group([], Some(Flag(c, after[0])), false);
    }
  }

  lemma {:induction false} ReadFlags(args: seq<bytes>, fs: seq<Flag>)
    returns (gs: seq<Group>, dashes: bool, cmdArgs: seq<bytes>)
    requires Flags(args, StateOf(fs)).Some? && FlagsOK(fs)
    ensures args == GroupsArgs(gs) + Tail(dashes, cmdArgs)
    ensures (forall g <- gs :: GroupOK(g)) && TailOK(dashes, cmdArgs)
    decreases |args|
  {
    hide StateOf, FlagsOK, GroupArgs, Bundle, GroupText, GroupRest;
    if args == [] {
      return [], false, [];
    }
    var arg := args[0];
    assert args == [arg] + args[1..];
    if arg == "--" {
      return [], true, args[1..];
    }
    if arg == "-" || arg == [] || arg[0] != '-' {
      return [], false, args;
    }
    var g := ReadBundle(arg[1..], args[1..], fs);
    var rest := args[1..][|GroupRest(g)|..];
    assert arg == ['-'] + arg[1..] && args[1..] == GroupRest(g) + rest;
    GroupShape(g);
    GroupReads(g, rest, fs);
    assert args == GroupArgs(g) + rest && args[1 + |GroupRest(g)|..] == rest;
    gs, dashes, cmdArgs := ReadFlags(rest, fs + GroupFlags(g));
    AssocArgs(GroupArgs(g), GroupsArgs(gs), Tail(dashes, cmdArgs));
    assert GroupOK(g);
    gs := [g] + gs;
  }

  /** A way to write flags and command arguments that mean parsed. */
  predicate Means(args: seq<bytes>, gs: seq<Group>, dashes: bool, cmdArgs: seq<bytes>, parsed: Parsed) {
    && (forall g <- gs :: GroupOK(g)) && TailOK(dashes, cmdArgs) && args == GroupsArgs(gs) + Tail(dashes, cmdArgs)
    && Reads(FlagsOf(gs), cmdArgs) == Some(parsed)
  }

  /** However its flags are bundled and its values attached, a command line means what its flags say, in order. */
  lemma FlagsDecide(gs: seq<Group>, dashes: bool, cmdArgs: seq<bytes>)
    requires (forall g <- gs :: GroupOK(g)) && TailOK(dashes, cmdArgs)
    ensures ParseArgs(GroupsArgs(gs) + Tail(dashes, cmdArgs)) == Reads(FlagsOf(gs), cmdArgs)
  {
    hide Flags, GroupOK, TailOK, Finish, GroupsArgs, Tail, FlagsOf;
    StartState();
    GroupsRead(gs, dashes, cmdArgs, []);
    assert [] + FlagsOf(gs) == FlagsOf(gs);
    if FlagsOK(FlagsOf(gs)) {
      FinishReads(FlagsOf(gs), cmdArgs);
    }
  }

  lemma StartState()
    ensures StateOf([]) == PARSE_START && FlagsOK([])
  {
  }

  /**
   * The parser accepts exactly the command lines that can be written and whose flags agree, as what they mean, and
   * refuses every other.
   */
  lemma ParseExactly(args: seq<bytes>, parsed: Parsed)
    ensures ParseArgs(args) == Some(parsed) <==> exists gs, dashes, cmdArgs :: Means(args, gs, dashes, cmdArgs, parsed)
  {
    hide Flags, Finish, GroupOK, TailOK, Reads, GroupsArgs, Tail, FlagsOf;
    if ParseArgs(args) == Some(parsed) {
      StartState();
      var gs, dashes, cmdArgs := ReadFlags(args, []);
      FlagsDecide(gs, dashes, cmdArgs);
      assert Means(args, gs, dashes, cmdArgs, parsed);
    }
    if exists gs, dashes, cmdArgs :: Means(args, gs, dashes, cmdArgs, parsed) {
      var gs, dashes, cmdArgs :| Means(args, gs, dashes, cmdArgs, parsed);
      FlagsDecide(gs, dashes, cmdArgs);
    }
  }
}
