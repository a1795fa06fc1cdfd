/** Guard wrapping: tmux/identity.go, over an execution semantics for the node trees it builds. */
module Identity {
  import opened Bytes
  import opened Command
  import opened Diagnostics
  import opened Formats

  const GUARD_OK: bytes := "TGO-GUARD-1:ok\n"
  const GUARD_SERVER_CHANGED: bytes := "TGO-GUARD-1:server-changed\n"
  const GUARD_LINK_CHANGED: bytes := "TGO-GUARD-1:link-changed\n"
  const GUARD_CLIENT_CHANGED: bytes := "TGO-GUARD-1:client-changed\n"

  datatype ServerIdentity = ServerIdentity(pid: int, started: int, socket: bytes)
  datatype LinkCheck = LinkCheck(session: bytes, index: int, window: bytes)
  datatype ClientCheck = ClientCheck(name: bytes, pid: int, created: int)
  datatype Guard = Guard(identity: ServerIdentity, links: seq<LinkCheck>, clients: seq<ClientCheck>)

  // --- Conditions ------------------------------------------------------------------------

  const PID: bytes := "pid"
  const START_TIME: bytes := "start_time"
  const SOCKET_PATH: bytes := "socket_path"
  const WINDOW_ID: bytes := "window_id"
  const WINDOW_INDEX: bytes := "window_index"
  const CLIENT_NAME: bytes := "client_name"
  const CLIENT_PID: bytes := "client_pid"
  const CLIENT_CREATED: bytes := "client_created"

  function IdentityCondition(i: ServerIdentity): bytes {
    AndFormat(AndFormat(EqFormat(PID, Itoa(i.pid)), EqFormat(START_TIME, Itoa(i.started))),
              EqFormat(SOCKET_PATH, i.socket))
  }

  function LinkCondition(l: LinkCheck): bytes {
    AnyFormat('W', AndFormat(EqFormat(WINDOW_ID, l.window), EqFormat(WINDOW_INDEX, Itoa(l.index))))
  }

  function ClientCondition(c: ClientCheck): bytes {
    AnyFormat('L', AndFormat(EqFormat(CLIENT_NAME, c.name),
                             AndFormat(EqFormat(CLIENT_PID, Itoa(c.pid)), EqFormat(CLIENT_CREATED, Itoa(c.created)))))
  }

  predicate SameServer(i: ServerIdentity, vars: Vars) {
    vars(PID) == Itoa(i.pid) && vars(START_TIME) == Itoa(i.started) && vars(SOCKET_PATH) == i.socket
  }

  predicate SameLink(l: LinkCheck, vars: Vars) {
    vars(WINDOW_ID) == l.window && vars(WINDOW_INDEX) == Itoa(l.index)
  }

  predicate SameClient(c: ClientCheck, vars: Vars) {
    vars(CLIENT_NAME) == c.name && vars(CLIENT_PID) == Itoa(c.pid) && vars(CLIENT_CREATED) == Itoa(c.created)
  }

  lemma Names()
    ensures Name(PID) && Name(START_TIME) && Name(SOCKET_PATH) && Name(WINDOW_ID) && Name(WINDOW_INDEX)
    ensures Name(CLIENT_NAME) && Name(CLIENT_PID) && Name(CLIENT_CREATED)
  {
  }

  /** The identity condition holds exactly in the daemon it names, whatever bytes its socket path is made of. */
  lemma IdentityMeans(i: ServerIdentity, e: Env)
    ensures Truthy(Eval(IdentityCondition(i), e)) <==> SameServer(i, e.vars)
  {
    hide Eval, EqFormat, AndFormat, Operand, Itoa, Name;
    Names();
    EqMeans(PID, Itoa(i.pid), e);
    EqMeans(START_TIME, Itoa(i.started), e);
    EqMeans(SOCKET_PATH, i.socket, e);
    AndMeans(EqFormat(PID, Itoa(i.pid)), EqFormat(START_TIME, Itoa(i.started)), e);
    AndMeans(AndFormat(EqFormat(PID, Itoa(i.pid)), EqFormat(START_TIME, Itoa(i.started))),
             EqFormat(SOCKET_PATH, i.socket), e);
  }

  lemma LinkMeans(l: LinkCheck, e: Env)
    ensures Truthy(Eval(LinkCondition(l), e)) <==> exists i :: 0 <= i < |e.windows| && SameLink(l, e.windows[i])
  {
    hide Eval, EqFormat, AndFormat, AnyFormat, Operand, Itoa, Name;
    Names();
    var condition := AndFormat(EqFormat(WINDOW_ID, l.window), EqFormat(WINDOW_INDEX, Itoa(l.index)));
    LinkAt(l, e);
    forall i | 0 <= i < |e.windows|
      ensures Truthy(Eval(condition, At(e, e.windows, i))) <==> SameLink(l, e.windows[i])
    {
      LinkAt(l, At(e, e.windows, i));
    }
    AnyMeans('W', condition, e);
  }

  lemma LinkAt(l: LinkCheck, e: Env)
    ensures var condition := AndFormat(EqFormat(WINDOW_ID, l.window), EqFormat(WINDOW_INDEX, Itoa(l.index)));
      Operand(condition) && (Truthy(Eval(condition, e)) <==> SameLink(l, e.vars))
  {
    hide Eval, EqFormat, AndFormat, Operand, Itoa, Name;
    Names();
    EqMeans(WINDOW_ID, l.window, e);
    EqMeans(WINDOW_INDEX, Itoa(l.index), e);
    AndMeans(EqFormat(WINDOW_ID, l.window), EqFormat(WINDOW_INDEX, Itoa(l.index)), e);
  }

  lemma ClientMeans(c: ClientCheck, e: Env)
    ensures Truthy(Eval(ClientCondition(c), e)) <==> exists i :: 0 <= i < |e.clients| && SameClient(c, e.clients[i])
  {
    hide Eval, EqFormat, AndFormat, AnyFormat, Operand, Itoa;
    var condition := AndFormat(EqFormat(CLIENT_NAME, c.name),
                               AndFormat(EqFormat(CLIENT_PID, Itoa(c.pid)), EqFormat(CLIENT_CREATED, Itoa(c.created))));
    ClientAt(c, e);
    forall i | 0 <= i < |e.clients|
      ensures Truthy(Eval(condition, At(e, e.clients, i))) <==> SameClient(c, e.clients[i])
    {
      ClientAt(c, At(e, e.clients, i));
    }
    AnyMeans('L', condition, e);
  }

  lemma ClientAt(c: ClientCheck, e: Env)
    ensures var condition := AndFormat(EqFormat(CLIENT_NAME, c.name),
                                       AndFormat(EqFormat(CLIENT_PID, Itoa(c.pid)),
                                                 EqFormat(CLIENT_CREATED, Itoa(c.created))));
      Operand(condition) && (Truthy(Eval(condition, e)) <==> SameClient(c, e.vars))
  {
    hide Eval, EqFormat, AndFormat, Operand, Itoa, Name;
    Names();
    EqMeans(CLIENT_NAME, c.name, e);
    EqMeans(CLIENT_PID, Itoa(c.pid), e);
    EqMeans(CLIENT_CREATED, Itoa(c.created), e);
    var inner := AndFormat(EqFormat(CLIENT_PID, Itoa(c.pid)), EqFormat(CLIENT_CREATED, Itoa(c.created)));
    AndMeans(EqFormat(CLIENT_PID, Itoa(c.pid)), EqFormat(CLIENT_CREATED, Itoa(c.created)), e);
    AndMeans(EqFormat(CLIENT_NAME, c.name), inner, e);
  }

  // --- Wrapping ----------------------------------------------------------------------------

  function MarkerNode(s: bytes): WireNode {
    WireNode("display-message", [Text("-p"), Text(TrimNewline(s))])
  }

  function ConditionNode(condition: bytes, yes: seq<WireNode>, no: seq<WireNode>, target: bytes): WireNode {
    WireNode("if-shell", [Text("-F")] + (if target != [] then [Text("-t"), Text(target)] else [])
                         + [Text(condition), Nested(yes), Nested(no)])
  }

  /** One condition of a guard and the marker its failure prints. */
  datatype Check = Check(condition: bytes, target: bytes, marker: bytes)

  function LinkChecks(links: seq<LinkCheck>): (r: seq<Check>)
    ensures |r| == |links|
  {
    if links == [] then []
    else [Check(LinkCondition(links[0]), links[0].session + ":", GUARD_LINK_CHANGED)] + LinkChecks(links[1..])
  }

  function ClientChecks(clients: seq<ClientCheck>): (r: seq<Check>)
    ensures |r| == |clients|
  {
    if clients == [] then []
    else [Check(ClientCondition(clients[0]), [], GUARD_CLIENT_CHANGED)] + ClientChecks(clients[1..])
  }

  /** The checks of a guard in the order they are made: identity, links, clients. */
  function Checks(g: Guard): (r: seq<Check>)
    ensures |r| == 1 + |g.links| + |g.clients|
  {
    [Check(IdentityCondition(g.identity), [], GUARD_SERVER_CHANGED)] + (LinkChecks(g.links) + ClientChecks(g.clients))
  }

  function Wrapped(checks: seq<Check>, nodes: seq<WireNode>): seq<WireNode> {
    if checks == [] then nodes
    else
      var check := checks[0];
      [ConditionNode(check.condition, Wrapped(checks[1..], nodes), [MarkerNode(check.marker)], check.target)]
  }

  lemma {:induction false} WrappedAppend(a: seq<Check>, b: seq<Check>, nodes: seq<WireNode>)
    ensures Wrapped(a + b, nodes) == Wrapped(a, Wrapped(b, nodes))
  {
    if a == [] {
      assert a + b == b;
    } else {
      assert (a + b)[1..] == a[1..] + b;
      WrappedAppend(a[1..], b, nodes);
    }
  }

  lemma {:induction false} ChecksAt(links: seq<LinkCheck>, clients: seq<ClientCheck>)
    ensures forall i :: 0 <= i < |links| ==>
      LinkChecks(links[i..])
        == [Check(LinkCondition(links[i]), links[i].session + ":", GUARD_LINK_CHANGED)] + LinkChecks(links[i + 1..])
    ensures forall i :: 0 <= i < |clients| ==>
      ClientChecks(clients[i..])
        == [Check(ClientCondition(clients[i]), [], GUARD_CLIENT_CHANGED)] + ClientChecks(clients[i + 1..])
  {
    assert forall i :: 0 <= i < |links| ==> links[i..][1..] == links[i + 1..];
    assert forall i :: 0 <= i < |clients| ==> clients[i..][1..] == clients[i + 1..];
  }

  /** guard.wrap builds its conditionals from the inside out; read outside in they are the checks in order. */
  method Wrap(g: Guard, plan: seq<WireNode>) returns (out: seq<WireNode>)
    ensures out == Guarded(g, plan)
  {
    hide ConditionNode, LinkCondition, ClientCondition, IdentityCondition, MarkerNode;
    var nodes := [MarkerNode(GUARD_OK)] + plan;
    ghost var body := nodes;
    ChecksAt(g.links, g.clients);
    for i := |g.clients| downto 0
      invariant nodes == Wrapped(ClientChecks(g.clients[i..]), body)
    {
      var check := Check(ClientCondition(g.clients[i]), [], GUARD_CLIENT_CHANGED);
      WrappedStep(check, ClientChecks(g.clients[i + 1..]), body);
      nodes := [ConditionNode(check.condition, nodes, [MarkerNode(GUARD_CLIENT_CHANGED)], [])];
    }
    assert g.clients[0..] == g.clients;
    ghost var inner := nodes;
    for i := |g.links| downto 0
      invariant nodes == Wrapped(LinkChecks(g.links[i..]), inner)
    {
      var check := Check(LinkCondition(g.links[i]), g.links[i].session + ":", GUARD_LINK_CHANGED);
      WrappedStep(check, LinkChecks(g.links[i + 1..]), inner);
      nodes := [ConditionNode(check.condition, nodes, [MarkerNode(GUARD_LINK_CHANGED)], check.target)];
    }
    assert g.links[0..] == g.links;
    WrappedAppend(LinkChecks(g.links), ClientChecks(g.clients), body);
    ghost var first := Check(IdentityCondition(g.identity), [], GUARD_SERVER_CHANGED);
    WrappedStep(first, LinkChecks(g.links) + ClientChecks(g.clients), body);
    out := [ConditionNode(IdentityCondition(g.identity), nodes, [MarkerNode(GUARD_SERVER_CHANGED)], [])];
  }

  /** What wrap makes of a plan. */
  function Guarded(g: Guard, plan: seq<WireNode>): seq<WireNode> {
    Wrapped(Checks(g), [MarkerNode(GUARD_OK)] + plan)
  }

  lemma WrappedStep(check: Check, rest: seq<Check>, nodes: seq<WireNode>)
    ensures Wrapped([check] + rest, nodes)
         == [ConditionNode(check.condition, Wrapped(rest, nodes), [MarkerNode(check.marker)], check.target)]
  {
    assert ([check] + rest)[1..] == rest;
  }

  // --- Running node trees ----------------------------------------------------------------------

  /** The world a command list leaves, what it printed, and the diagnostic of the command that stopped it, if any. */
  datatype Ran<W> = Ran(world: W, out: bytes, error: Option<bytes>)

  /** How a condition evaluates at a target. */
  datatype Truth = True | False | NoTarget

  /**
   * A tmux server: how conditions evaluate, its diagnostic for a missing target, and what any command but a conditional
   * or a printed marker does.
   */
  datatype Server<!W> =
    Server(holds: (bytes, bytes, W) -> Truth, missing: bytes -> bytes, run: (WireNode, W) -> Ran<W>)

  /** A node's condition, branches and target, when it has the form conditionNode builds. */
  function Conditional(n: WireNode): Option<(bytes, bytes, seq<WireNode>, seq<WireNode>)> {
    if n.name != "if-shell" then None
    else
      match |n.args|
      case 4 =>
        if n.args[0] == Text("-F") && n.args[1].Text? && n.args[2].Nested? && n.args[3].Nested? then
          Some((n.args[1].text, [], n.args[2].nodes, n.args[3].nodes))
        else None
      case 6 =>
        if n.args[0] == Text("-F") && n.args[1] == Text("-t") && n.args[2].Text? && n.args[2].text != []
           && n.args[3].Text? && n.args[4].Nested? && n.args[5].Nested? then
          Some((n.args[3].text, n.args[2].text, n.args[4].nodes, n.args[5].nodes))
        else None
      case _ => None
  }

  predicate IsPrint(n: WireNode) {
    n.name == "display-message" && |n.args| == 2 && n.args[0] == Text("-p") && n.args[1].Text? && '#' !in n.args[1].text
  }

  /** A command list stops at its first failing command. */
  function Exec<W>(server: Server<W>, nodes: seq<WireNode>, w: W): Ran<W>
    decreases nodes
  {
    if nodes == [] then Ran(w, [], None)
    else
      var first := ExecNode(server, nodes[0], w);
      if first.error.Some? then first
      else
        var rest := Exec(server, nodes[1..], first.world);
        Ran(rest.world, first.out + rest.out, rest.error)
  }

  function ExecNode<W>(server: Server<W>, n: WireNode, w: W): Ran<W>
    decreases n
  {
    match Conditional(n)
    case Some((condition, target, yes, no)) =>
      (match server.holds(condition, target, w)
       case NoTarget => Ran(w, [], Some(server.missing(target)))
       case True => Exec(server, yes, w)
       case False => Exec(server, no, w))
    case None =>
      if IsPrint(n) then Ran(w, n.args[1].text + "\n", None) else server.run(n, w)
  }

  // --- What a guarded plan does ------------------------------------------------------------------

  predicate Holds<W>(server: Server<W>, check: Check, w: W) {
    server.holds(check.condition, check.target, w).True?
  }

  /** The position of the first check that does not hold; |checks| when all do. */
  function FirstFailing<W>(server: Server<W>, checks: seq<Check>, w: W): (i: nat)
    ensures i <= |checks|
    ensures forall j :: 0 <= j < i ==> Holds(server, checks[j], w)
    ensures i < |checks| ==> !Holds(server, checks[i], w)
  {
    if checks == [] || !Holds(server, checks[0], w) then 0 else 1 + FirstFailing(server, checks[1..], w)
  }

  /** What the first failing check leaves: its marker, or an error when its target is missing. */
  function Stopped<W>(server: Server<W>, check: Check, w: W): Ran<W> {
    if server.holds(check.condition, check.target, w).NoTarget? then Ran(w, [], Some(server.missing(check.target)))
    else Ran(w, TrimNewline(check.marker) + "\n", None)
  }

  lemma ExecOne<W>(server: Server<W>, node: WireNode, w: W)
    ensures Exec(server, [node], w) == ExecNode(server, node, w)
  {
    hide ExecNode;
    var first := ExecNode(server, node, w);
    assert [node][1..] == [];
    assert first.out + [] == first.out;
  }

  lemma ConditionRuns<W>(server: Server<W>, check: Check, yes: seq<WireNode>, no: seq<WireNode>, w: W)
    ensures Conditional(ConditionNode(check.condition, yes, no, check.target))
         == Some((check.condition, check.target, yes, no))
    ensures ExecNode(server, ConditionNode(check.condition, yes, no, check.target), w)
         == match server.holds(check.condition, check.target, w)
            case NoTarget => Ran(w, [], Some(server.missing(check.target)))
            case True => Exec(server, yes, w)
            case False => Exec(server, no, w)
  {
    hide Exec;
  }

  lemma MarkerRuns<W>(server: Server<W>, marker: bytes, w: W)
    requires '#' !in marker
    ensures Exec(server, [MarkerNode(marker)], w) == Ran(w, TrimNewline(marker) + "\n", None)
  {
    ExecOne(server, MarkerNode(marker), w);
    assert Conditional(MarkerNode(marker)) == None;
    assert IsPrint(MarkerNode(marker));
  }

  /**
   * Nested conditionals run their body exactly when every check holds, and otherwise stop at the first that does not.
   */
  lemma {:induction false} WrappedRuns<W>(server: Server<W>, checks: seq<Check>, body: seq<WireNode>, w: W)
    requires forall j :: 0 <= j < |checks| ==> '#' !in checks[j].marker
    ensures Exec(server, Wrapped(checks, body), w)
         == if FirstFailing(server, checks, w) == |checks| then Exec(server, body, w)
            else Stopped(server, checks[FirstFailing(server, checks, w)], w)
  {
    hide Exec, ExecNode, ConditionNode, TrimNewline, MarkerNode, Conditional;
    if checks != [] {
      var check := checks[0];
      var yes, no := Wrapped(checks[1..], body), [MarkerNode(check.marker)];
      ExecOne(server, ConditionNode(check.condition, yes, no, check.target), w);
      ConditionRuns(server, check, yes, no, w);
      MarkerRuns(server, check.marker, w);
      WrappedRuns(server, checks[1..], body, w);
    }
  }

  // --- Interpreting the output ---------------------------------------------------------------------

  datatype Cause = ServerChanged | LinkChanged | ClientChanged

  /** A run's error, by what errors.Is(err, ErrNotFound) says of it. */
  datatype Failure = Failure(notFound: bool)

  /**
   * What a transport classifies: a control connection the whole diagnostic, a subprocess the first bytes of it, as many
   * as are left of its stderr budget.
   */
  datatype Transport = Control | Subprocess(stderr: nat)

  function Seen(t: Transport, diagnostic: bytes): bytes {
    match t
    case Control => diagnostic
    case Subprocess(stderr) => First(stderr, diagnostic)
  }

  predicate Recognised(t: Transport, diagnostic: bytes) {
    Classify(Seen(t, diagnostic)) == NotFound
  }

  /** A transport keeps the first `limit` bytes of the output and fails when there are more. */
  datatype Delivery = Delivery(stdout: bytes, error: Option<Failure>)

  /** NotSent: no effect, with its cause. Own: the plan's own result. Unknown: ErrProtocol, effect unknown. */
  datatype Report = NotSent(cause: Cause, rest: bytes) | Own(result: Delivery) | Unknown(stdout: bytes)

  function Deliver<W>(ran: Ran<W>, t: Transport, limit: nat): Delivery {
    Delivery(First(limit, ran.out),
             match ran.error
             case Some(diagnostic) => Some(Failure(Recognised(t, diagnostic)))
             case None => if |ran.out| > limit then Some(Failure(false)) else None)
  }

  function Unwrap(g: Guard, d: Delivery): Report {
    if GUARD_SERVER_CHANGED <= d.stdout then NotSent(ServerChanged, d.stdout[|GUARD_SERVER_CHANGED|..])
    else if GUARD_LINK_CHANGED <= d.stdout then NotSent(LinkChanged, d.stdout[|GUARD_LINK_CHANGED|..])
    else if GUARD_CLIENT_CHANGED <= d.stdout then NotSent(ClientChanged, d.stdout[|GUARD_CLIENT_CHANGED|..])
    else if GUARD_OK <= d.stdout then Own(d.(stdout := d.stdout[|GUARD_OK|..]))
    else
      match d.error
      case Some(e) => if g.links != [] && e.notFound then NotSent(LinkChanged, d.stdout) else Own(d)
      case None => Unknown(d.stdout)
  }

  // --- Transparency ------------------------------------------------------------------------------------

  function CauseAt(g: Guard, i: nat): Cause {
    if i == 0 then ServerChanged else if i <= |g.links| then LinkChanged else ClientChanged
  }

  function MarkerOf(cause: Cause): bytes {
    match cause
    case ServerChanged => GUARD_SERVER_CHANGED
    case LinkChanged => GUARD_LINK_CHANGED
    case ClientChanged => GUARD_CLIENT_CHANGED
  }

  lemma {:induction false} LinkChecksAt(links: seq<LinkCheck>, i: nat)
    requires i < |links|
    ensures LinkChecks(links)[i] == Check(LinkCondition(links[i]), links[i].session + ":", GUARD_LINK_CHANGED)
  {
    hide LinkCondition;
    if i > 0 {
      LinkChecksAt(links[1..], i - 1);
    }
  }

  lemma {:induction false} ClientChecksAt(clients: seq<ClientCheck>, i: nat)
    requires i < |clients|
    ensures ClientChecks(clients)[i] == Check(ClientCondition(clients[i]), [], GUARD_CLIENT_CHANGED)
  {
    hide ClientCondition;
    if i > 0 {
      ClientChecksAt(clients[1..], i - 1);
    }
  }

  /** The checks are made in the order identity, links, clients; only links have a target. */
  lemma ChecksOrder(g: Guard, i: nat)
    requires i < |Checks(g)|
    ensures i == 0 ==> Checks(g)[i].condition == IdentityCondition(g.identity)
    ensures 0 < i <= |g.links| ==> Checks(g)[i].condition == LinkCondition(g.links[i - 1])
    ensures i > |g.links| ==> Checks(g)[i].condition == ClientCondition(g.clients[i - 1 - |g.links|])
    ensures Checks(g)[i].target == if 0 < i <= |g.links| then g.links[i - 1].session + ":" else []
    ensures Checks(g)[i].marker == MarkerOf(CauseAt(g, i))
  {
    hide LinkCondition, ClientCondition, IdentityCondition;
    if 0 < i <= |g.links| {
      LinkChecksAt(g.links, i - 1);
    } else if i > |g.links| {
      ClientChecksAt(g.clients, i - 1 - |g.links|);
    }
  }

  lemma MarkerText(cause: Cause)
    ensures '#' !in MarkerOf(cause) && TrimNewline(MarkerOf(cause)) + "\n" == MarkerOf(cause)
    ensures '#' !in GUARD_OK && TrimNewline(GUARD_OK) + "\n" == GUARD_OK
  {
  }

  /** No marker is a prefix of another: they differ at the first letter of their last word. */
  lemma MarkersDiffer()
    ensures |GUARD_OK| == 15 && |GUARD_SERVER_CHANGED| == 27 && |GUARD_LINK_CHANGED| == |GUARD_CLIENT_CHANGED| - 2 == 25
    ensures GUARD_OK[12] == 'o' && GUARD_SERVER_CHANGED[12] == 's' && GUARD_LINK_CHANGED[12] == 'l'
    ensures GUARD_CLIENT_CHANGED[12] == 'c'
  {
  }

  /** The first check that does not hold, |Checks(g)| when all do. */
  function Failing<W>(server: Server<W>, g: Guard, w: W): (i: nat)
    ensures i <= |Checks(g)|
  {
    FirstFailing(server, Checks(g), w)
  }

  /** wrap run on any server, in any world: p after guardOK when every check holds, otherwise nothing but a marker. */
  lemma GuardTransparency<W>(server: Server<W>, g: Guard, plan: seq<WireNode>, w: W)
    ensures Failing(server, g, w) == |Checks(g)| ==>
      Exec(server, Guarded(g, plan), w)
        == Ran(Exec(server, plan, w).world, GUARD_OK + Exec(server, plan, w).out, Exec(server, plan, w).error)
    ensures Failing(server, g, w) < |Checks(g)| ==>
      var check := Checks(g)[Failing(server, g, w)];
      Exec(server, Guarded(g, plan), w) == if server.holds(check.condition, check.target, w).False?
                                           then Ran(w, MarkerOf(CauseAt(g, Failing(server, g, w))), None)
                                           else Ran(w, [], Some(server.missing(check.target)))
  {
    hide Exec, ExecNode, Conditional, ConditionNode, MarkerNode, Checks, TrimNewline, Wrapped, FirstFailing, MarkerOf;
    var body := [MarkerNode(GUARD_OK)] + plan;
    var i := Failing(server, g, w);
    forall j | 0 <= j < |Checks(g)| ensures '#' !in Checks(g)[j].marker {
      ChecksOrder(g, j);
      MarkerText(CauseAt(g, j));
    }
    WrappedRuns(server, Checks(g), body, w);
    if i == |Checks(g)| {
      MarkerText(ServerChanged);
      BodyRuns(server, plan, w);
    } else {
      ChecksOrder(g, i);
      MarkerText(CauseAt(g, i));
    }
  }

  lemma BodyRuns<W>(server: Server<W>, plan: seq<WireNode>, w: W)
    ensures Exec(server, [MarkerNode(GUARD_OK)] + plan, w)
         == Ran(Exec(server, plan, w).world, GUARD_OK + Exec(server, plan, w).out, Exec(server, plan, w).error)
  {
    hide ExecNode, MarkerNode;
    MarkerText(ServerChanged);
    MarkerRuns(server, GUARD_OK, w);
    ExecOne(server, MarkerNode(GUARD_OK), w);
    assert ([MarkerNode(GUARD_OK)] + plan)[1..] == plan;
  }

  lemma UnwrapMarker(g: Guard, d: Delivery, cause: Cause, rest: bytes)
    requires d.stdout == MarkerOf(cause) + rest
    ensures Unwrap(g, d) == NotSent(cause, rest)
  {
    MarkersDiffer();
    assert d.stdout[|MarkerOf(cause)|..] == rest;
    assert d.stdout[12] == MarkerOf(cause)[12];
  }

  lemma UnwrapOwn(g: Guard, d: Delivery, rest: bytes)
    requires d.stdout == GUARD_OK + rest
    ensures Unwrap(g, d) == Own(Delivery(rest, d.error))
  {
    MarkersDiffer();
    assert d.stdout[|GUARD_OK|..] == rest;
    assert d.stdout[12] == 'o';
  }

  /** Short output holds no marker at all. */
  lemma UnwrapShort(g: Guard, d: Delivery)
    requires |d.stdout| < |GUARD_OK|
    ensures Unwrap(g, d) == match d.error
            case Some(e) => if g.links != [] && e.notFound then NotSent(LinkChanged, d.stdout) else Own(d)
            case None => Unknown(d.stdout)
  {
    MarkersDiffer();
  }

  lemma FirstAfter(limit: nat, marker: bytes, rest: bytes)
    ensures limit >= |marker| ==> First(limit, marker + rest) == marker + First(limit - |marker|, rest)
    ensures limit < |marker| ==> First(limit, marker + rest) == marker[..limit]
  {
  }

  /** A server answers an untargeted condition with a truth value: only a named target can be missing. */
  ghost predicate Untargeted<W(!new)>(server: Server<W>) {
    forall condition: bytes, w: W :: !server.holds(condition, [], w).NoTarget?
  }

  /** Whether the transport can tell what stopped the guard at its check i. */
  predicate Told<W>(server: Server<W>, t: Transport, g: Guard, i: nat, w: W)
    requires i < |Checks(g)|
  {
    var check := Checks(g)[i];
    server.holds(check.condition, check.target, w).NoTarget? ==> Recognised(t, server.missing(check.target))
  }

  /**
   * With an output limit of at least the longest marker, unwrap gives the plan's own delivery, under what the
   * marker leaves of the limit, when every check holds, whatever the plan prints; otherwise it reports a plan not
   * sent, with the cause of the first failing check, unless a link's target is missing and the transport does not
   * recognise the diagnostic that says so: then it passes the error on, with no output.
   */
  lemma UnwrapUndoesWrap<W(!new)>(server: Server<W>, g: Guard, plan: seq<WireNode>, w: W, t: Transport, limit: nat)
    requires Untargeted(server) && limit >= |GUARD_SERVER_CHANGED|
    ensures Unwrap(g, Deliver(Exec(server, Guarded(g, plan), w), t, limit))
         == if Failing(server, g, w) == |Checks(g)| then Own(Deliver(Exec(server, plan, w), t, limit - |GUARD_OK|))
            else if Told(server, t, g, Failing(server, g, w), w) then NotSent(CauseAt(g, Failing(server, g, w)), [])
            else Own(Delivery([], Some(Failure(false))))
  {
    hide Exec, Checks, Unwrap, MarkerOf, Wrapped, FirstFailing, Guarded, Recognised, Told;
    var i := Failing(server, g, w);
    GuardTransparency(server, g, plan, w);
    MarkersDiffer();
    if i == |Checks(g)| {
      var own := Exec(server, plan, w);
      FirstAfter(limit, GUARD_OK, own.out);
      UnwrapOwn(g, Deliver(Exec(server, Guarded(g, plan), w), t, limit), First(limit - |GUARD_OK|, own.out));
    } else {
      Refusal(server, g, w, t, limit, i, Exec(server, Guarded(g, plan), w));
    }
  }

  lemma Refusal<W(!new)>(server: Server<W>, g: Guard, w: W, t: Transport, limit: nat, i: nat, ran: Ran<W>)
    requires i < |Checks(g)| && !Holds(server, Checks(g)[i], w)
    requires Untargeted(server) && limit >= |GUARD_SERVER_CHANGED|
    requires ran == if server.holds(Checks(g)[i].condition, Checks(g)[i].target, w).False?
                    then Ran(w, MarkerOf(CauseAt(g, i)), None)
                    else Ran(w, [], Some(server.missing(Checks(g)[i].target)))
    ensures Unwrap(g, Deliver(ran, t, limit))
         == if Told(server, t, g, i, w) then NotSent(CauseAt(g, i), []) else Own(Delivery([], Some(Failure(false))))
  {
    hide Unwrap, MarkerOf, Checks, Recognised;
    MarkersDiffer();
    ChecksOrder(g, i);
    if server.holds(Checks(g)[i].condition, Checks(g)[i].target, w).False? {
      assert |MarkerOf(CauseAt(g, i))| <= limit by { MarkerLength(CauseAt(g, i)); }
      assert MarkerOf(CauseAt(g, i)) + [] == MarkerOf(CauseAt(g, i));
      UnwrapMarker(g, Deliver(ran, t, limit), CauseAt(g, i), []);
    } else {
      assert Checks(g)[i].target != [];
      UnwrapShort(g, Deliver(ran, t, limit));
    }
  }

  /** The plan's own error, or the one for output that is cut short. */
  function CutShort<W>(own: Ran<W>, t: Transport): Failure {
    Failure(own.error.Some? && Recognised(t, own.error.value))
  }

  /**
   * With an output limit too short for the marker a guard prints, unwrap passes on the error for the cut output, or the
   * plan's own, unless that is a missing target and the guard has links.
   */
  lemma UnwrapCut<W(!new)>(server: Server<W>, g: Guard, plan: seq<WireNode>, w: W, t: Transport, limit: nat)
    requires Untargeted(server)
    ensures var i := Failing(server, g, w);
      var r := Unwrap(g, Deliver(Exec(server, Guarded(g, plan), w), t, limit));
      && (i == |Checks(g)| && limit < |GUARD_OK| ==>
            var e := CutShort(Exec(server, plan, w), t);
            r == if g.links != [] && e.notFound then NotSent(LinkChanged, GUARD_OK[..limit])
                 else Own(Delivery(GUARD_OK[..limit], Some(e))))
      && (i < |Checks(g)| && server.holds(Checks(g)[i].condition, Checks(g)[i].target, w).False?
          && limit < |MarkerOf(CauseAt(g, i))| ==>
            r == Own(Delivery(MarkerOf(CauseAt(g, i))[..limit], Some(Failure(false)))))
  {
    hide Exec, Checks, Unwrap, MarkerOf, Wrapped, FirstFailing, Guarded, Recognised;
    var i := Failing(server, g, w);
    GuardTransparency(server, g, plan, w);
    MarkersDiffer();
    var d := Deliver(Exec(server, Guarded(g, plan), w), t, limit);
    if i == |Checks(g)| {
      if limit < |GUARD_OK| {
        FirstAfter(limit, GUARD_OK, Exec(server, plan, w).out);
        UnwrapShort(g, d);
      }
    } else if server.holds(Checks(g)[i].condition, Checks(g)[i].target, w).False?
              && limit < |MarkerOf(CauseAt(g, i))| {
      UnwrapPart(g, d, CauseAt(g, i), limit);
    }
  }

  lemma UnwrapPart(g: Guard, d: Delivery, cause: Cause, n: nat)
    requires n < |MarkerOf(cause)| && d == Delivery(MarkerOf(cause)[..n], Some(Failure(false)))
    ensures Unwrap(g, d) == Own(d)
  {
    MarkersDiffer();
    assert n > 12 ==> d.stdout[12] == MarkerOf(cause)[12];
  }

  /** Output that starts with no marker and comes without an error is a protocol error of unknown effect. */
  lemma UnwrapForeign(g: Guard, d: Delivery)
    requires d.error.None? && !(GUARD_OK <= d.stdout) && forall cause :: !(MarkerOf(cause) <= d.stdout)
    ensures Unwrap(g, d) == Unknown(d.stdout)
  {
    assert !(MarkerOf(ServerChanged) <= d.stdout) && !(MarkerOf(LinkChanged) <= d.stdout);
    assert !(MarkerOf(ClientChanged) <= d.stdout);
  }

  lemma MarkerLength(cause: Cause)
    ensures |MarkerOf(cause)| <= |GUARD_SERVER_CHANGED|
  {
    MarkersDiffer();
  }

  /** What unwrap promises of a plan it reports as not sent: some check failed, so no node of it ran. */
  ghost predicate Sound<W>(server: Server<W>, g: Guard, plan: seq<WireNode>, w: W, t: Transport, limit: nat) {
    Unwrap(g, Deliver(Exec(server, Guarded(g, plan), w), t, limit)).NotSent? ==> Failing(server, g, w) < |Checks(g)|
  }

  /** The transport can recognise some missing target. */
  predicate Recognises(t: Transport) {
    t.Control? || t.stderr >= |NO_BUFFER|
  }

  /** When a not-sent report can be trusted: guardOK fits the limit, or no missing target can be taken for a link's. */
  predicate Trusted(g: Guard, t: Transport, limit: nat) {
    limit >= |GUARD_OK| || g.links == [] || !Recognises(t)
  }

  lemma NeverRecognised(t: Transport, diagnostic: bytes)
    requires !Recognises(t)
    ensures !Recognised(t, diagnostic)
  {
    hide Classify;
    ShortText(Seen(t, diagnostic));
  }

  /** Whatever the server, under the condition above. */
  lemma NotSentSound<W>(server: Server<W>, g: Guard, plan: seq<WireNode>, w: W, t: Transport, limit: nat)
    requires Trusted(g, t, limit)
    ensures Sound(server, g, plan, w, t, limit)
  {
    hide Exec, Checks, Unwrap, Wrapped, FirstFailing, Guarded, Recognised, Recognises;
    GuardTransparency(server, g, plan, w);
    if Failing(server, g, w) == |Checks(g)| {
      var own := Exec(server, plan, w);
      var d := Deliver(Exec(server, Guarded(g, plan), w), t, limit);
      FirstAfter(limit, GUARD_OK, own.out);
      if limit >= |GUARD_OK| {
        UnwrapOwn(g, d, First(limit - |GUARD_OK|, own.out));
      } else {
        UnwrapShort(g, d);
        if own.error.Some? && !Recognises(t) {
          NeverRecognised(t, own.error.value);
        }
      }
    }
  }

  /** A server on which the plan fails with a missing buffer after guardOK was cut short. */
  lemma NotSentUnsound(g: Guard, t: Transport, limit: nat) returns (server: Server<int>, plan: seq<WireNode>)
    requires !Trusted(g, t, limit)
    ensures Exec(server, Guarded(g, plan), 0).world == 1
    ensures !Sound(server, g, plan, 0, t, limit)
  {
    hide ExecNode, Checks, Unwrap, Wrapped, FirstFailing, Guarded, Recognised;
    server := Server((condition: bytes, target: bytes, w: int) => True, (target: bytes) => [],
                     (n: WireNode, w: int) => Ran(w + 1, [], Some(NO_BUFFER)));
    var node := WireNode("paste-buffer", []);
    plan := [node];
    assert Failing(server, g, 0) == |Checks(g)|;
    GuardTransparency(server, g, plan, 0);
    ExecOne(server, node, 0);
    PlainRuns(server, node, 0);
    FirstAfter(limit, GUARD_OK, []);
    NoBufferSeen(t);
    UnwrapShort(g, Deliver(Exec(server, Guarded(g, plan), 0), t, limit));
  }

  lemma NoBufferSeen(t: Transport)
    requires Recognises(t)
    ensures Recognised(t, NO_BUFFER)
  {
    NoBuffer();
  }

  lemma PlainRuns<W>(server: Server<W>, node: WireNode, w: W)
    requires node.name == "paste-buffer"
    ensures ExecNode(server, node, w) == server.run(node, w)
  {
    assert node.name[0] == 'p';
  }

  /**
   * A not-sent report can be trusted on every server exactly when guardOK fits the limit, no link is checked, or the
   * transport sees too little of a diagnostic to recognise any missing target.
   */
  lemma NotSentExactly(g: Guard, t: Transport, limit: nat)
    ensures Trusted(g, t, limit)
       <==> forall server: Server<int>, plan: seq<WireNode>, w: int :: Sound(server, g, plan, w, t, limit)
  {
    hide Sound, Trusted;
    if Trusted(g, t, limit) {
      forall server: Server<int>, plan: seq<WireNode>, w: int ensures Sound(server, g, plan, w, t, limit) {
        NotSentSound(server, g, plan, w, t, limit);
      }
    } else {
      var server, plan := NotSentUnsound(g, t, limit);
      assert !Sound(server, g, plan, 0, t, limit);
    }
  }

  // --- What the guard checks ----------------------------------------------------------------------------

  /** What a target shows in a world; None where it does not exist. */
  type Views<!W> = (bytes, W) -> Option<Env>

  /** A server that evaluates conditions as tmux expands formats. */
  ghost predicate Expands<W(!new)>(server: Server<W>, view: Views<W>) {
    forall condition: bytes, target: bytes, w: W ::
      server.holds(condition, target, w) ==
        match view(target, w)
        case None => NoTarget
        case Some(e) => if Truthy(Eval(condition, e)) then True else False
  }

  predicate Shows<W>(view: Views<W>, g: Guard, i: nat, w: W)
    requires i < 1 + |g.links| + |g.clients|
  {
    if i == 0 then
      var e := view([], w);
      e.Some? && SameServer(g.identity, e.value.vars)
    else if i <= |g.links| then
      var e := view(g.links[i - 1].session + ":", w);
      e.Some? && exists k :: 0 <= k < |e.value.windows| && SameLink(g.links[i - 1], e.value.windows[k])
    else
      var e := view([], w);
      e.Some? && exists k :: 0 <= k < |e.value.clients| && SameClient(g.clients[i - 1 - |g.links|], e.value.clients[k])
  }

  lemma CheckMeans<W(!new)>(server: Server<W>, view: Views<W>, g: Guard, i: nat, w: W)
    requires Expands(server, view) && i < |Checks(g)|
    ensures Holds(server, Checks(g)[i], w) <==> Shows(view, g, i, w)
  {
    hide Checks, Eval, Truthy, IdentityCondition, LinkCondition, ClientCondition, SameServer, SameLink, SameClient;
    ChecksOrder(g, i);
    var check := Checks(g)[i];
    var e := view(check.target, w);
    if e.Some? {
      if i == 0 {
        IdentityMeans(g.identity, e.value);
      } else if i <= |g.links| {
        LinkMeans(g.links[i - 1], e.value);
      } else {
        ClientMeans(g.clients[i - 1 - |g.links|], e.value);
      }
    }
  }

  /**
   * On a server that expands formats, a guarded plan runs exactly when the daemon is the one the guard names, every
   * linked window stands at its index in its session, and every client is still the same one.
   */
  lemma GuardMeans<W(!new)>(server: Server<W>, view: Views<W>, g: Guard, w: W)
    requires Expands(server, view)
    ensures Failing(server, g, w) == |Checks(g)|
       <==> forall i: nat :: i < 1 + |g.links| + |g.clients| ==> Shows(view, g, i, w)
  {
    hide Shows, Checks, Holds;
    CheckMeans(server, view, g, 0, w);
    var n := Failing(server, g, w);
    forall i: nat | i < |Checks(g)| ensures Holds(server, Checks(g)[i], w) <==> Shows(view, g, i, w) {
      CheckMeans(server, view, g, i, w);
    }
    if n < |Checks(g)| {
      assert !Shows(view, g, n, w);
    }
  }
}
