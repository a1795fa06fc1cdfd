/** ParseCommandLine and the root-argument printer it undoes: tmux/command.go, tmux/server.go. */
module CommandLine {
  import opened Bytes
  import opened Command
  import opened Sequence

  datatype UTF8Mode = UTF8Default | UTF8Force | UTF8Omit
  datatype LogLevel = LogNone | LogVerbose | LogDebug
  datatype Action = ActDefault | ActCommand | ActShell | ActForeground | ActHelp | ActVersion | ActControl

  /** The root settings a tmux command line carries; the endpoint's socket selection is part of them. */
  datatype Config = Config(socketPath: bytes, socketName: bytes, configFile: bytes, utf8: UTF8Mode, colors256: bool,
                           features: seq<bytes>, logLevel: LogLevel, loginShell: bool)

  datatype RawState = RawState(cfg: Config, action: Action, shellCmd: bytes, controlCount: nat, verboseCount: nat,
                               hasN: bool)

  datatype Parsed = Parsed(config: Config, action: Action, commands: seq<seq<bytes>>, shellCommand: bytes,
                           controlNoEcho: bool, existingOnly: bool)

  const EMPTY_CONFIG := Config([], [], [], UTF8Default, false, [], LogNone, false)
  const PARSE_START := RawState(EMPTY_CONFIG, ActDefault, [], 0, 0, false)

  // --- The printer ---------------------------------------------------------------------

  function Join(parts: seq<bytes>): bytes {
    if parts == [] then []
    else if |parts| == 1 then parts[0]
    else parts[0] + "," + Join(parts[1..])
  }

  function Utf8Args(c: Config): seq<bytes> {
    if c.utf8 != UTF8Omit then ["-u"] else []
  }

  function ColorArgs(c: Config): seq<bytes> {
    if c.colors256 then ["-2"] else []
  }

  function LoginArgs(c: Config): seq<bytes> {
    if c.loginShell then ["-l"] else []
  }

  function LogArgs(c: Config): seq<bytes> {
    match c.logLevel
    case LogNone => []
    case LogVerbose => ["-v"]
    case LogDebug => ["-vv"]
  }

  function FeatureArgs(c: Config): seq<bytes> {
    if c.features != [] then ["-T", Join(c.features)] else []
  }

  function PolicyArgs(existingOnly: bool): seq<bytes> {
    if existingOnly then ["-N"] else []
  }

  function SocketArgs(c: Config): seq<bytes> {
    if c.socketPath != [] then ["-S", c.socketPath] else ["-L", c.socketName]
  }

  function FileArgs(c: Config): seq<bytes> {
    if c.configFile != [] then ["-f", c.configFile] else []
  }

  /** baseArgs: root flags for a server, where existingOnly is !allowStart || s.bound != nil. */
  function RootArgs(c: Config, existingOnly: bool): seq<bytes> {
    Utf8Args(c) + ColorArgs(c) + LoginArgs(c) + LogArgs(c) + FeatureArgs(c)
    + PolicyArgs(existingOnly) + SocketArgs(c) + FileArgs(c)
  }

  // --- The parser ----------------------------------------------------------------------

  function SimpleFlag(ch: byte, s: RawState): Option<RawState> {
    match ch
    case '2' => Some(s.(cfg := s.cfg.(colors256 := true)))
    case 'u' => Some(s.(cfg := s.cfg.(utf8 := UTF8Force)))
    case 'l' => Some(s.(cfg := s.cfg.(loginShell := true)))
    case 'v' => Some(s.(verboseCount := s.verboseCount + 1))
    case 'N' => Some(s.(hasN := true))
    case 'D' => Some(s.(action := ActForeground))
    case 'h' => Some(s.(action := ActHelp))
    case 'V' => Some(s.(action := ActVersion))
    case 'C' => Some(s.(controlCount := s.controlCount + 1))
    case _ => None
  }

  predicate IsValuedFlag(ch: byte) {
    ch == 'c' || ch == 'f' || ch == 'L' || ch == 'S' || ch == 'T'
  }

  /** strings.Split around commas. */
  function SplitComma(s: bytes): (r: seq<bytes>)
    ensures r != []
  {
    if s == [] then [[]]
    else if s[0] == ',' then [[]] + SplitComma(s[1..])
    else
      var rest := SplitComma(s[1..]);
      [[s[0]] + rest[0]] + rest[1..]
  }

  predicate ValidFeature(p: bytes) {
    p != [] && forall c <- p :: c != ' ' && c != '\t' && c != '\r' && c != '\n' && c != ',' && c != NUL
  }

  /** None where the flag's value is refused. */
  function ValuedFlag(ch: byte, val: bytes, s: RawState): Option<RawState> {
    if val == [] then None
    else
      match ch
      case 'c' => Some(s.(action := ActShell, shellCmd := val))
      case 'f' => Some(s.(cfg := s.cfg.(configFile := val)))
      case 'L' => if s.cfg.socketPath != [] then None else Some(s.(cfg := s.cfg.(socketName := val)))
      case 'S' => if s.cfg.socketName != [] then None else Some(s.(cfg := s.cfg.(socketPath := val)))
      case 'T' =>
        if forall p <- SplitComma(val) :: ValidFeature(p) then
          Some(s.(cfg := s.cfg.(features := s.cfg.features + SplitComma(val))))
        else None
      case _ => Some(s)
  }

  /** One bundle of flags with the arguments after it: the new state and how many arguments it took. */
  function Bundle(flags: bytes, after: seq<bytes>, s: RawState): (r: Option<(RawState, nat)>)
    ensures r.Some? ==> r.value.1 <= |after|
  {
    if flags == [] then Some((s, 0))
    else
      match SimpleFlag(flags[0], s)
      case Some(next) => Bundle(flags[1..], after, next)
      case None =>
        if !IsValuedFlag(flags[0]) then None
        else if flags[1..] != [] then
          match ValuedFlag(flags[0], flags[1..], s)
          case Some(next) => Some((next, 0))
          case None => None
        else if after == [] then None
        else
          match ValuedFlag(flags[0], after[0], s)
          case Some(next) => Some((next, 1))
          case None => None
  }

  /** The state after the root flags at the head of args, and the command arguments that follow. */
  function Flags(args: seq<bytes>, s: RawState): Option<(RawState, seq<bytes>)>
    decreases |args|
  {
    if args == [] then Some((s, []))
    else
      var arg := args[0];
      if arg == "--" then Some((s, args[1..]))
      else if arg == "-" || arg == [] || arg[0] != '-' then Some((s, args))
      else
        match Bundle(arg[1..], args[1..], s)
        case None => None
        case Some((next, taken)) => Flags(args[1 + taken..], next)
  }

  predicate Rejected(s: RawState, cmdArgs: seq<bytes>) {
    (s.action == ActForeground || s.action == ActShell) && (cmdArgs != [] || s.controlCount > 0)
  }

  function Settle(s: RawState): RawState {
    var level := if s.verboseCount >= 2 then LogDebug else if s.verboseCount == 1 then LogVerbose else LogNone;
    var action := if s.controlCount > 0 && s.action != ActHelp && s.action != ActVersion then ActControl else s.action;
    s.(cfg := s.cfg.(logLevel := level), action := action)
  }

  function Finish(raw: RawState, cmdArgs: seq<bytes>): Option<Parsed> {
    if Rejected(raw, cmdArgs) then None
    else
      var s := Settle(raw);
      var groups := SplitArgv(cmdArgs, [], []);
      if cmdArgs != [] && groups == [] then None
      else
        var quiet := cmdArgs == [] || s.action == ActHelp || s.action == ActVersion;
        if !quiet && !forall g <- groups :: ValidWords(g) then None
        else
          var action := if cmdArgs != [] && s.action == ActDefault then ActCommand else s.action;
          Some(Parsed(s.cfg, action, if quiet then [] else groups, s.shellCmd, s.controlCount >= 2, s.hasN))
  }

  function ParseArgs(args: seq<bytes>): Option<Parsed> {
    match Flags(args, PARSE_START)
    case None => None
    case Some((s, cmdArgs)) => Finish(s, cmdArgs)
  }

  method ParseFlagBundle(arg: bytes, args: seq<bytes>, i: nat, state: RawState) returns (r: Option<(RawState, nat)>)
    requires i < |args| && arg != []
    ensures r == match Bundle(arg[1..], args[i + 1..], state)
      case None => None
      case Some((next, taken)) => Some((next, i + taken))
  {
    var s := state;
    var bundle := arg[1..];
    for index := 0 to |bundle|
      invariant Bundle(bundle, args[i + 1..], state) == Bundle(bundle[index..], args[i + 1..], s)
    {
      var ch := bundle[index];
      assert bundle[index..][0] == ch && bundle[index..][1..] == bundle[index + 1..];
      var simple := SimpleFlag(ch, s);
      if simple.Some? {
        s := simple.value;
        continue;
      }
      if !IsValuedFlag(ch) {
        return None;
      }
      var nextI := i;
      var val: bytes;
      if |bundle[index + 1..]| > 0 {
        val := bundle[index + 1..];
      } else if i + 1 < |args| {
        nextI := i + 1;
        val := args[nextI];
      } else {
        return None;
      }
      var valued := ValuedFlag(ch, val, s);
      if valued == None {
        return None;
      }
      return Some((valued.value, nextI));
    }
    return Some((s, i));
  }

  method ParseCommandLine(args: seq<bytes>) returns (r: Option<Parsed>)
    ensures r == ParseArgs(args)
  {
    var s := PARSE_START;
    var cmdArgs: seq<bytes> := [];
    var i := 0;
    while i < |args|
      invariant 0 <= i <= |args|
      invariant cmdArgs == [] && Flags(args, PARSE_START) == Flags(args[i..], s)
    {
      var arg := args[i];
      assert args[i..][1..] == args[i + 1..];
      if arg == "--" {
        cmdArgs := args[i + 1..];
        break;
      }
      if arg == "-" || arg == [] || arg[0] != '-' {
        cmdArgs := args[i..];
        break;
      }
      var bundle := ParseFlagBundle(arg, args, i, s);
      if bundle == None {
        return None;
      }
      assert args[i..][1 + (bundle.value.1 - i)..] == args[bundle.value.1 + 1..];
      s := bundle.value.0;
      i := bundle.value.1 + 1;
    }
    r := Finish(s, cmdArgs);
  }

  // --- The parser undoes the printer -----------------------------------------------------

  /** What New accepts: one socket selection and well-formed terminal features. */
  predicate ValidConfig(c: Config) {
    && (c.socketPath == [] <==> c.socketName != [])
    && forall p <- c.features :: ValidFeature(p)
  }

  /**
   * What a command line gives back of a configuration: UTF8Default and UTF8Force both print -u, which the parser takes
   * for the forced mode, and without it the parser keeps the default.
   */
  function Carried(c: Config): Config {
    c.(utf8 := if c.utf8 == UTF8Omit then UTF8Default else UTF8Force)
  }

  /** A configuration survives the command line exactly when it forces UTF-8. */
  lemma CarriedWhole(c: Config)
    ensures Carried(c) == c <==> c.utf8 == UTF8Force
  {
  }

  /** What is recovered prints as the original did exactly when the original printed -u. */
  lemma CarriedPrints(c: Config, existingOnly: bool)
    ensures RootArgs(Carried(c), existingOnly) == RootArgs(c, existingOnly) <==> c.utf8 != UTF8Omit
  {
    hide RootArgs, ColorArgs, LoginArgs, LogArgs, FeatureArgs, SocketArgs, FileArgs;
    var d := Carried(c);
    RootParts(c, existingOnly);
    RootParts(d, existingOnly);
    SameParts(c, d);
  }

  /** What RootArgs prints after -u. */
  function OtherArgs(c: Config, existingOnly: bool): seq<bytes> {
    ColorArgs(c) + LoginArgs(c) + LogArgs(c) + FeatureArgs(c) + PolicyArgs(existingOnly) + SocketArgs(c) + FileArgs(c)
  }

  lemma RootParts(c: Config, existingOnly: bool)
    ensures RootArgs(c, existingOnly) == Utf8Args(c) + OtherArgs(c, existingOnly)
  {
    hide Utf8Args, ColorArgs, LoginArgs, LogArgs, FeatureArgs, PolicyArgs, SocketArgs, FileArgs;
  }

  lemma SameParts(c: Config, d: Config)
    requires d == c.(utf8 := d.utf8)
    ensures ColorArgs(d) == ColorArgs(c) && LoginArgs(d) == LoginArgs(c) && LogArgs(d) == LogArgs(c)
    ensures FeatureArgs(d) == FeatureArgs(c) && SocketArgs(d) == SocketArgs(c) && FileArgs(d) == FileArgs(c)
  {
    hide Join;
  }

  lemma {:induction false} SplitCommaWord(p: bytes)
    requires ',' !in p
    ensures SplitComma(p) == [p]
  {
    if p != [] {
      SplitCommaWord(p[1..]);
      assert [p[0]] + p[1..] == p;
    }
  }

  lemma {:induction false} SplitCommaCons(p: bytes, rest: bytes)
    requires ',' !in p
    ensures SplitComma(p + "," + rest) == [p] + SplitComma(rest)
  {
    var t := p + "," + rest;
    if p == [] {
      assert t[1..] == rest;
    } else {
      assert t[1..] == p[1..] + "," + rest;
      SplitCommaCons(p[1..], rest);
      assert [p[0]] + p[1..] == p;
      assert ([p[1..]] + SplitComma(rest))[1..] == SplitComma(rest);
    }
  }

  lemma {:induction false} SplitJoin(parts: seq<bytes>)
    requires parts != [] && forall p <- parts :: ',' !in p
    ensures SplitComma(Join(parts)) == parts
  {
    if |parts| == 1 {
      SplitCommaWord(parts[0]);
    } else {
      SplitCommaCons(parts[0], Join(parts[1..]));
      SplitJoin(parts[1..]);
    }
  }

  lemma JoinOne(p: bytes)
    ensures Join([p]) == p
  {
  }

  lemma JoinCons(p: bytes, parts: seq<bytes>)
    requires parts != []
    ensures Join([p] + parts) == p + ([','] + Join(parts))
  {
    assert ([p] + parts)[1..] == parts;
    Assoc(p, [','], Join(parts));
  }

  lemma JoinFirst(c: byte, parts: seq<bytes>)
    requires parts != []
    ensures Join([[c] + parts[0]] + parts[1..]) == [c] + Join(parts)
    ensures Join([[]] + parts) == [','] + Join(parts)
  {
    hide Join;
    JoinCons([], parts);
    assert [] + ([','] + Join(parts)) == [','] + Join(parts) && parts == [parts[0]] + parts[1..];
    if |parts| == 1 {
      JoinOne([c] + parts[0]);
      JoinOne(parts[0]);
      assert parts == [parts[0]] && [[c] + parts[0]] + parts[1..] == [[c] + parts[0]];
    } else {
      JoinCons([c] + parts[0], parts[1..]);
      JoinCons(parts[0], parts[1..]);
      Assoc([c], parts[0], [','] + Join(parts[1..]));
    }
  }

  /** Splitting is at every comma and nowhere else: joining gives the text back, and no comma is left. */
  lemma {:induction false} SplitCommaExactly(s: bytes)
    ensures Join(SplitComma(s)) == s && forall p <- SplitComma(s) :: ',' !in p
  {
    hide Join;
    if s == [] {
      JoinOne([]);
    } else {
      var rest := SplitComma(s[1..]);
      SplitCommaExactly(s[1..]);
      JoinFirst(s[0], rest);
      assert rest[0] in rest && forall p <- rest[1..] :: p in rest;
    }
  }

  lemma FlagAlone(ch: byte, rest: seq<bytes>, s: RawState)
    requires SimpleFlag(ch, s).Some?
    ensures Flags([['-', ch]] + rest, s) == Flags(rest, SimpleFlag(ch, s).value)
  {
    var args: seq<bytes> := [['-', ch]] + rest;
    assert args[0][1..] == [ch] && [ch][1..] == [] && args[1..] == rest;
    assert Bundle([ch], rest, s) == Some((SimpleFlag(ch, s).value, 0));
  }

  lemma FlagValued(ch: byte, val: bytes, rest: seq<bytes>, s: RawState)
    requires IsValuedFlag(ch) && ValuedFlag(ch, val, s).Some?
    ensures Flags([['-', ch], val] + rest, s) == Flags(rest, ValuedFlag(ch, val, s).value)
  {
    var args: seq<bytes> := [['-', ch], val] + rest;
    assert args[0][1..] == [ch] && [ch][1..] == [] && args[1..][0] == val && args[2..] == rest;
    assert Bundle([ch], args[1..], s) == Some((ValuedFlag(ch, val, s).value, 1));
  }

  /** The state after the flags that print before the features. */
  function AfterLogging(c: Config): RawState {
    PARSE_START.(cfg := EMPTY_CONFIG.(utf8 := Carried(c).utf8, colors256 := c.colors256, loginShell := c.loginShell),
                verboseCount := match c.logLevel case LogNone => 0 case LogVerbose => 1 case LogDebug => 2)
  }

  lemma LogFlags(c: Config, rest: seq<bytes>, s: RawState)
    ensures Flags(LogArgs(c) + rest, s) == Flags(rest, s.(verboseCount := s.verboseCount +
              match c.logLevel case LogNone => 0 case LogVerbose => 1 case LogDebug => 2))
  {
    match c.logLevel {
      case LogNone => assert LogArgs(c) + rest == rest;
      case LogVerbose =>
        assert LogArgs(c) == [['-', 'v']];
        FlagAlone('v', rest, s);
      case LogDebug =>
        var args := LogArgs(c) + rest;
        var mid := s.(verboseCount := s.verboseCount + 1);
        assert args[1..] == rest && args[0][1..] == ['v', 'v'] && ['v', 'v'][1..] == ['v'] && ['v'][1..] == [];
        assert Bundle(['v'], rest, mid) == Some((mid.(verboseCount := s.verboseCount + 2), 0));
        assert Bundle(['v', 'v'], rest, s) == Some((s.(verboseCount := s.verboseCount + 2), 0));
    }
  }

  lemma PlainFlag(on: bool, ch: byte, rest: seq<bytes>, s: RawState)
    requires SimpleFlag(ch, s).Some?
    ensures Flags((if on then [['-', ch]] else []) + rest, s) == Flags(rest, if on then SimpleFlag(ch, s).value else s)
  {
    if on {
      FlagAlone(ch, rest, s);
    } else {
      assert [] + rest == rest;
    }
  }

  lemma LoggingFlags(c: Config, rest: seq<bytes>)
    ensures Flags(Utf8Args(c) + (ColorArgs(c) + (LoginArgs(c) + (LogArgs(c) + rest))), PARSE_START)
         == Flags(rest, AfterLogging(c))
  {
    hide Flags, LogArgs;
    var r3 := LogArgs(c) + rest;
    var r2 := LoginArgs(c) + r3;
    var r1 := ColorArgs(c) + r2;
    PlainFlag(c.utf8 != UTF8Omit, 'u', r1, PARSE_START);
    var s1 := PARSE_START.(cfg := EMPTY_CONFIG.(utf8 := Carried(c).utf8));
    PlainFlag(c.colors256, '2', r2, s1);
    var s2 := s1.(cfg := s1.cfg.(colors256 := c.colors256));
    PlainFlag(c.loginShell, 'l', r3, s2);
    var s3 := s2.(cfg := s2.cfg.(loginShell := c.loginShell));
    LogFlags(c, rest, s3);
  }

  lemma FeatureFlags(c: Config, rest: seq<bytes>, s: RawState)
    requires ValidConfig(c) && s.cfg.features == []
    ensures Flags(FeatureArgs(c) + rest, s) == Flags(rest, s.(cfg := s.cfg.(features := c.features)))
  {
    if c.features == [] {
      assert [] + rest == rest;
    } else {
      SplitJoin(c.features);
      assert ValidFeature(c.features[0]);
      assert c.features[0] != [] && Join(c.features) != [];
      assert [] + c.features == c.features;
      FlagValued('T', Join(c.features), rest, s);
    }
  }

  lemma SocketFlags(c: Config, rest: seq<bytes>, s: RawState)
    requires ValidConfig(c) && s.cfg.socketPath == s.cfg.socketName == []
    ensures Flags(SocketArgs(c) + rest, s)
         == Flags(rest, s.(cfg := s.cfg.(socketPath := c.socketPath, socketName := c.socketName)))
  {
    if c.socketPath != [] {
      FlagValued('S', c.socketPath, rest, s);
    } else {
      FlagValued('L', c.socketName, rest, s);
    }
  }

  lemma FileFlags(c: Config, rest: seq<bytes>, s: RawState)
    requires s.cfg.configFile == []
    ensures Flags(FileArgs(c) + rest, s) == Flags(rest, s.(cfg := s.cfg.(configFile := c.configFile)))
  {
    if c.configFile == [] {
      assert [] + rest == rest;
    } else {
      FlagValued('f', c.configFile, rest, s);
    }
  }

  /** The parser state once every root flag has been read. */
  function AfterRoot(c: Config, existingOnly: bool): RawState {
    AfterLogging(c).(cfg := Carried(c).(logLevel := LogNone), hasN := existingOnly)
  }

  lemma EndpointFlags(c: Config, existingOnly: bool, rest: seq<bytes>, s: RawState)
    requires ValidConfig(c) && s.cfg.socketPath == s.cfg.socketName == s.cfg.configFile == [] && !s.hasN
    ensures Flags(PolicyArgs(existingOnly) + (SocketArgs(c) + (FileArgs(c) + rest)), s)
         == Flags(rest, s.(hasN := existingOnly, cfg := s.cfg.(socketPath := c.socketPath, socketName := c.socketName,
                                                               configFile := c.configFile)))
  {
    hide Flags, SocketArgs, FileArgs;
    PlainFlag(existingOnly, 'N', SocketArgs(c) + (FileArgs(c) + rest), s);
    var s1 := s.(hasN := existingOnly);
    SocketFlags(c, FileArgs(c) + rest, s1);
    FileFlags(c, rest, s1.(cfg := s1.cfg.(socketPath := c.socketPath, socketName := c.socketName)));
  }

  lemma RootFlags(c: Config, existingOnly: bool, rest: seq<bytes>)
    requires ValidConfig(c)
    ensures Flags(RootArgs(c, existingOnly) + rest, PARSE_START) == Flags(rest, AfterRoot(c, existingOnly))
  {
    var tail := PolicyArgs(existingOnly) + (SocketArgs(c) + (FileArgs(c) + rest));
    Flatten(Utf8Args(c), ColorArgs(c), LoginArgs(c), LogArgs(c), FeatureArgs(c), PolicyArgs(existingOnly),
            SocketArgs(c), FileArgs(c), rest);
    LoggingFlags(c, FeatureArgs(c) + tail);
    var s := AfterLogging(c);
    FeatureFlags(c, tail, s);
    EndpointFlags(c, existingOnly, rest, s.(cfg := s.cfg.(features := c.features)));
  }

  lemma AssocArgs(a: seq<bytes>, b: seq<bytes>, c: seq<bytes>)
    ensures a + b + c == a + (b + c)
  {
  }

  lemma Flatten(a: seq<bytes>, b: seq<bytes>, c: seq<bytes>, d: seq<bytes>, e: seq<bytes>, f: seq<bytes>,
                g: seq<bytes>, h: seq<bytes>, rest: seq<bytes>)
    ensures a + b + c + d + e + f + g + h + rest == a + (b + (c + (d + (e + (f + (g + (h + rest)))))))
  {
    AssocArgs(a + b + c + d + e + f + g, h, rest);
    AssocArgs(a + b + c + d + e + f, g, h + rest);
    AssocArgs(a + b + c + d + e, f, g + (h + rest));
    AssocArgs(a + b + c + d, e, f + (g + (h + rest)));
    AssocArgs(a + b + c, d, e + (f + (g + (h + rest))));
    AssocArgs(a + b, c, d + (e + (f + (g + (h + rest)))));
    AssocArgs(a, b, c + (d + (e + (f + (g + (h + rest))))));
  }

  lemma {:induction false} ArgvWordsHead(nodes: seq<WireNode>)
    requires nodes != []
    ensures ArgvWords(nodes) != [] && ArgvWords(nodes)[0] == nodes[0].name
    decreases |nodes|
  {
    if |nodes| > 1 {
      ArgvWordsHead(nodes[..|nodes| - 1]);
    }
  }

  /**
   * Parsing what a subprocess server passes to tmux recovers its root settings, its start policy,
   * and the plan's exact commands.
   */
  lemma ParseUndoesPrinter(c: Config, existingOnly: bool, nodes: seq<WireNode>)
    requires ValidConfig(c) && ValidNodes(nodes)
    ensures ParseArgs(RootArgs(c, existingOnly) + ArgvWords(nodes))
         == Some(Parsed(Carried(c), if nodes == [] then ActDefault else ActCommand, Meaning(nodes), [], false,
                        existingOnly))
  {
    RootFlags(c, existingOnly, ArgvWords(nodes));
    CommandsFollow(nodes, AfterRoot(c, existingOnly));
    FinishPlan(c, existingOnly, nodes);
  }

  /** The plan's first word is no flag. */
  lemma CommandsFollow(nodes: seq<WireNode>, s: RawState)
    requires ValidNodes(nodes)
    ensures Flags(ArgvWords(nodes), s) == Some((s, ArgvWords(nodes)))
  {
    if nodes != [] {
      ArgvWordsHead(nodes);
      assert ValidNode(nodes[0]);
    }
  }

  lemma FinishPlan(c: Config, existingOnly: bool, nodes: seq<WireNode>)
    requires ValidNodes(nodes)
    ensures Finish(AfterRoot(c, existingOnly), ArgvWords(nodes))
         == Some(Parsed(Carried(c), if nodes == [] then ActDefault else ActCommand, Meaning(nodes), [], false,
                        existingOnly))
  {
    if nodes != [] {
      ArgvWordsHead(nodes);
    }
    ArgvDelivers(nodes);
    MeaningValid(nodes);
    assert Settle(AfterRoot(c, existingOnly)) == AfterRoot(c, existingOnly).(cfg := Carried(c));
  }

  lemma MeaningValid(nodes: seq<WireNode>)
    requires ValidNodes(nodes)
    ensures forall g <- Meaning(nodes) :: ValidWords(g)
  {
    forall g <- Meaning(nodes) ensures ValidWords(g) {
      var k :| 0 <= k < |nodes| && Meaning(nodes)[k] == g;
      MeaningAt(nodes, k);
      assert ValidNode(nodes[k]);
      LexNodeValid(nodes[k]);
    }
  }
}
