/** Bounded buffers, operation budgets and the request wire: tmux/exec.go, tmux/executor.go, buildRequestWire. */
module Executor {
  import opened Bytes
  import opened Command
  import Argv
  import Collector
  import Sequence

  // --- The subprocess collector ---------------------------------------------------------------

  /** The buffer of one output pipe; run's callers clamp the limit at zero. */
  class Buffer {
    const limit: nat
    var b: bytes
    var overflowed: bool
    var fired: nat
    ghost var written: bytes

    /** It holds the first limit bytes written, and the overflow callback has fired once iff there were more. */
    ghost predicate Valid()
      reads this
    {
      && b == First(limit, written)
      && (overflowed <==> |written| > limit)
      && fired == if overflowed then 1 else 0
    }

    constructor (limit: nat)
      ensures Valid() && this.limit == limit && written == []
    {
      this.limit := limit;
      b, overflowed, fired, written := [], false, 0, [];
    }

    method Write(p: bytes) returns (n: nat)
      requires Valid()
      modifies this
      ensures Valid() && written == old(written) + p && n == |p|
    {
      n := |p|;
      var left := limit - |b|;
      var take := n;
      if take > left {
        take := if left > 0 then left else 0;
      }
      FirstAppend(limit, written, p);
      if take > 0 {
        b := b + p[..take];
      }
      var over := n > left && !overflowed;
      if over {
        overflowed := true;
      }
      if over {
        fired := fired + 1;
      }
      written := written + p;
    }
  }

  /** io.Copy from a pipe that yields chunks. */
  method CopyAll(chunks: seq<bytes>, limit: nat) returns (kept: bytes, fired: nat)
    ensures kept == First(limit, Concat(chunks))
    ensures fired == if |Concat(chunks)| > limit then 1 else 0
  {
    var buffer := new Buffer(limit);
    for i := 0 to |chunks|
      invariant buffer.Valid() && buffer.limit == limit
      invariant buffer.written + Concat(chunks[i..]) == Concat(chunks)
    {
      assert chunks[i..][0] == chunks[i] && chunks[i..][1..] == chunks[i + 1..];
      Assoc(buffer.written, chunks[i], Concat(chunks[i + 1..]));
      var _ := buffer.Write(chunks[i]);
    }
    assert buffer.written + [] == buffer.written;
    return buffer.b, buffer.fired;
  }

  // --- Operation budgets --------------------------------------------------------------------------

  const CONTROL_WIRE_OVERHEAD: int := 128

  /** What checkInputLimit charges a plan for. */
  function Charge(nodes: seq<WireNode>, control: bool): nat {
    |Render(nodes)| + 1 + if control then CONTROL_WIRE_OVERHEAD else 0
  }

  /** A plan and its standard input, and what the transport produces for it. */
  datatype Execution = Execution(nodes: seq<WireNode>, input: Option<bytes>, reply: Reply)
  datatype Reply = Process(out: seq<bytes>, err: seq<bytes>) | Control(frames: seq<Collector.Frame>)

  datatype Captured = Refused | Captured(charged: nat, stdout: bytes, stderr: bytes)

  function InputSize(e: Execution): nat {
    if e.input.Some? then |e.input.value| else 0
  }

  /**
   * What an execution does when that much of each budget is left: it is admitted exactly when its plan is valid
   * and its charge fits, and what is captured is the first bytes produced. Control transport refuses stdin.
   */
  ghost predicate Runs(e: Execution, c: Captured, input: nat, output: nat, stderr: nat) {
    var charge := Charge(e.nodes, e.reply.Control?) + if e.input.Some? then |e.input.value| else 0;
    && (c.Captured? <==> ValidNodes(e.nodes) && charge <= input)
    && (c.Captured? ==> c.charged == charge && Keeps(e, c, output, stderr))
  }

  ghost predicate Keeps(e: Execution, c: Captured, output: nat, stderr: nat)
    requires c.Captured?
  {
    match e.reply
    case Process(out, err) => c.stdout == First(output, Concat(out)) && c.stderr == First(stderr, Concat(err))
    case Control(frames) =>
      if e.input.Some? then c.stdout == c.stderr == []
      else
        && c.stdout == First(output, Collector.OutOf(frames))
        && c.stderr == First(stderr, Collector.ErrOf(frames, false))
  }

  function Size(c: Captured): (r: (nat, nat, nat)) {
    match c
    case Refused => (0, 0, 0)
    case Captured(charged, stdout, stderr) => (charged, |stdout|, |stderr|)
  }

  /** Bytes charged and captured over a sequence of executions. */
  function Spent(cs: seq<Captured>): (r: (nat, nat, nat)) {
    if cs == [] then (0, 0, 0)
    else
      var (input, out, err) := Spent(cs[..|cs| - 1]);
      var (i, o, e) := Size(cs[|cs| - 1]);
      (input + i, out + o, err + e)
  }

  class Operation {
    var output: int
    var stderr: int
    var input: int
    ghost const inputBytes: nat
    ghost const outputBytes: nat
    ghost var history: seq<Captured>

    /** What is left of each budget and what was spent of it make up the limit. */
    ghost predicate Valid()
      reads this
    {
      && input >= 0 && output >= 0 && stderr >= 0
      && Spent(history) == (inputBytes - input, outputBytes - output, outputBytes - stderr)
    }

    constructor (inputBytes: nat, outputBytes: nat)
      ensures Valid() && history == []
      ensures this.inputBytes == inputBytes && this.outputBytes == outputBytes
    {
      this.output, this.stderr, this.input := outputBytes, outputBytes, inputBytes;
      this.inputBytes, this.outputBytes, this.history := inputBytes, outputBytes, [];
    }

    /** checkInputLimit: admits exactly the valid plans whose text, overhead and input fit what is left. */
    method CheckInputLimit(nodes: seq<WireNode>, control: bool, stdin: nat) returns (r: Option<int>)
      modifies this`input
      ensures r == if ValidNodes(nodes) && Charge(nodes, control) + stdin <= old(input)
                   then Some(Charge(nodes, control)) else None
      ensures input == if r.Some? then old(input) - r.value - stdin else old(input)
    {
      var size := PlanSize(nodes, input);
      if size == None {
        return None;
      }
      var total := size.value;
      if control {
        if size.value > input - CONTROL_WIRE_OVERHEAD {
          return None;
        }
        total := total + CONTROL_WIRE_OVERHEAD;
      }
      if stdin > input - total {
        return None;
      }
      input := input - (total + stdin);
      return Some(total);
    }

    /** execute: charge the input, run the plan on either transport, and pay for what it captured. */
    method Execute(e: Execution) returns (c: Captured)
      requires Valid()
      modifies this
      ensures Valid() && history == old(history) + [c]
      ensures Runs(e, c, old(input), old(output), old(stderr))
    {
      hide Spent, Concat, Collector.OutOf, Collector.ErrOf, Collector.TakeAll, Charge, Render, ValidNodes;
      var total := CheckInputLimit(e.nodes, e.reply.Control?, InputSize(e));
      if total == None {
        SpentNext(history, Refused);
        history := history + [Refused];
        return Refused;
      }
      var stdout: bytes, stderrBytes: bytes := [], [];
      match e.reply {
        case Process(out, err) =>
          var fired;
          stdout, fired := CopyAll(out, if output > 0 then output else 0);
          stderrBytes, fired := CopyAll(err, if stderr > 0 then stderr else 0);
        case Control(frames) =>
          if e.input.None? {
            var limits := Collector.Limits(if output > 0 then output else 0, if stderr > 0 then stderr else 0, false);
            Collector.CollectedMeaning(frames, limits);
            var collected := Collector.TakeAll(frames, limits);
            stdout, stderrBytes := collected.stdout, collected.stderr;
          }
      }
      c := Captured(total.value + InputSize(e), stdout, stderrBytes);
      output := output - |stdout|;
      stderr := stderr - |stderrBytes|;
      SpentNext(history, c);
      history := history + [c];
    }
  }

  lemma SpentNext(cs: seq<Captured>, c: Captured)
    ensures Spent(cs + [c]) == (Spent(cs).0 + Size(c).0, Spent(cs).1 + Size(c).1, Spent(cs).2 + Size(c).2)
  {
    assert (cs + [c])[..|cs|] == cs;
  }

  /** What is left of a limit after what was spent of it. */
  function Left(limit: nat, spent: nat): nat {
    if spent <= limit then limit - spent else 0
  }

  ghost predicate RunsInTurn(e: Execution, cs: seq<Captured>, i: nat, inputBytes: nat, outputBytes: nat)
    requires i < |cs|
  {
    var (input, out, err) := Spent(cs[..i]);
    Runs(e, cs[i], Left(inputBytes, input), Left(outputBytes, out), Left(outputBytes, err))
  }

  /** Any sequence of executions on one operation stays within its limits, on both transports. */
  method ExecuteAll(es: seq<Execution>, inputBytes: nat, outputBytes: nat) returns (cs: seq<Captured>)
    ensures |cs| == |es|
    ensures Spent(cs).0 <= inputBytes && Spent(cs).1 <= outputBytes && Spent(cs).2 <= outputBytes
    ensures forall i :: 0 <= i < |es| ==> RunsInTurn(es[i], cs, i, inputBytes, outputBytes)
  {
    hide Runs, Spent;
    var op := new Operation(inputBytes, outputBytes);
    cs := [];
    for i := 0 to |es|
      invariant op.Valid() && op.inputBytes == inputBytes && op.outputBytes == outputBytes
      invariant op.history == cs && |cs| == i
      invariant forall j :: 0 <= j < i ==> RunsInTurn(es[j], cs, j, inputBytes, outputBytes)
    {
      ghost var before := cs;
      var c := op.Execute(es[i]);
      cs := cs + [c];
      assert cs[..i] == before;
      forall j | 0 <= j < i ensures RunsInTurn(es[j], cs, j, inputBytes, outputBytes) {
        assert cs[..j] == before[..j] && RunsInTurn(es[j], before, j, inputBytes, outputBytes);
      }
    }
  }

  // --- The request wire ---------------------------------------------------------------------------

  /** The command whose reply ends a request; nonce is the token without its line feed. */
  function NonceNodes(nonce: bytes): seq<WireNode> {
    [WireNode("display-message", [Text("-p"), Text(nonce)])]
  }

  predicate IsToken(nonce: bytes) {
    && |nonce| == 41 && nonce[..9] == "TGO-DONE:"
    && forall i :: 9 <= i < 41 ==> '0' <= nonce[i] <= '9' || 'a' <= nonce[i] <= 'f'
  }

  datatype WireError = BadPlan | InputLimit
  datatype RequestWire = RequestWire(payload: bytes) | WireFailed(error: WireError)

  /** buildRequestWire, given its random token. */
  method BuildRequestWire(nodes: seq<WireNode>, budget: int, nonce: bytes) returns (r: RequestWire)
    requires IsToken(nonce)
    ensures r == if !ValidNodes(nodes) then WireFailed(BadPlan)
                 else if |Render(nodes)| + 1 + |Render(NonceNodes(nonce))| + 1 > budget then WireFailed(InputLimit)
                 else RequestWire(Render(nodes) + "\n" + (Render(NonceNodes(nonce)) + "\n"))
  {
    var text := PlanText(nodes);
    if text == None {
      return WireFailed(BadPlan);
    }
    NonceValid(nonce);
    var suffix := PlanText(NonceNodes(nonce));
    if |text.value| + |suffix.value| > budget {
      return WireFailed(InputLimit);
    }
    return RequestWire(text.value + suffix.value);
  }

  lemma NonceValid(nonce: bytes)
    requires IsToken(nonce)
    ensures ValidNodes(NonceNodes(nonce))
  {
    TokenSafe(nonce);
    var node := NonceNodes(nonce)[0];
    assert ValidNode(node) by {
      assert forall a <- node.args :: a == Text("-p") || a == Text(nonce);
    }
  }

  lemma TokenSafe(nonce: bytes)
    requires IsToken(nonce)
    ensures NulFree(nonce) && forall i :: 0 <= i < |nonce| ==> Argv.IsSafeQuoteByte(nonce[i])
  {
    assert forall i :: 0 <= i < 9 ==> nonce[i] == nonce[..9][i];
  }

  lemma NonceLength(nonce: bytes)
    requires IsToken(nonce)
    ensures |Render(NonceNodes(nonce))| == 64
  {
    TokenSafe(nonce);
    Argv.QuoteSafe(nonce);
    var flag: bytes := "-p";
    Argv.QuoteSafe(flag);
    var node := NonceNodes(nonce)[0];
    assert node.args[..1] == [Text(flag)] && node.args[..1][..0] == [];
    assert |RenderArg(Text(flag))| == 4 && |RenderArg(Text(nonce))| == 43;
    assert |RenderArgs(node.args[..1])| == 5;
    assert |RenderArgs(node.args)| == 49;
    assert NonceNodes(nonce)[..0] == [];
  }

  /**
   * For any plan a control connection admits, the request wire is built: the nonce command fits the overhead
   * that was charged, so neither the limit nor the plan can fail it. The wire is two lines, and each reads back
   * as its own commands.
   */
  lemma AdmittedWireFits(nodes: seq<WireNode>, nonce: bytes)
    requires ValidNodes(nodes) && IsToken(nonce)
    ensures |Render(nodes)| + 1 + |Render(NonceNodes(nonce))| + 1 <= Charge(nodes, true)
    ensures '\n' !in Render(nodes) && '\n' !in Render(NonceNodes(nonce))
    ensures Sequence.ParseText(Render(nodes)) == Some(Meaning(nodes))
    ensures Sequence.ParseText(Render(NonceNodes(nonce))) == Some([["display-message", "-p", nonce]])
  {
    NonceLength(nonce);
    NonceValid(nonce);
    Sequence.TextIsOneLine(nodes);
    Sequence.TextIsOneLine(NonceNodes(nonce));
    Sequence.TransportsAgree(nodes);
    Sequence.TransportsAgree(NonceNodes(nonce));
    NonceMeaning(nonce);
  }

  /**
   * A control request from its charge to its wire: once the plan is admitted, the wire is built within what was
   * charged, and neither the plan nor the limit can fail it.
   */
  method ChargeAndBuild(op: Operation, nodes: seq<WireNode>, nonce: bytes) returns (r: Option<RequestWire>)
    requires IsToken(nonce)
    modifies op`input
    ensures r.Some? <==> ValidNodes(nodes) && Charge(nodes, true) <= old(op.input)
    ensures r.Some? ==> r.value == RequestWire(Render(nodes) + "\n" + (Render(NonceNodes(nonce)) + "\n"))
    ensures op.input == if r.Some? then old(op.input) - Charge(nodes, true) else old(op.input)
    ensures r.Some? ==> |r.value.payload| <= old(op.input) - op.input
  {
    var budget := op.CheckInputLimit(nodes, true, 0);
    if budget == None {
      return None;
    }
    AdmittedWireFits(nodes, nonce);
    var wire := BuildRequestWire(nodes, budget.value, nonce);
    return Some(wire);
  }

  lemma NonceMeaning(nonce: bytes)
    ensures Meaning(NonceNodes(nonce)) == [["display-message", "-p", nonce]]
  {
    var args := NonceNodes(nonce)[0].args;
    assert args[..1] == [Text("-p")] && args[..1][..0] == [];
    assert Values(args[..1]) == ["-p"] && Values(args) == ["-p", nonce];
    assert NodeWords(NonceNodes(nonce)[0]) == ["display-message"] + ["-p", nonce] == ["display-message", "-p", nonce];
    assert NonceNodes(nonce)[..0] == [];
  }
}
