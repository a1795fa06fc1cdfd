/**
 * The request protocol of a control connection as a state machine: callers, one dispatcher, tmux and stop, in any
 * interleaving (tmux/control_dispatch.go, stop in tmux/control.go).
 */
module Dispatch {
  import opened Bytes
  import opened Collector

  /** The semaphore sizes of newConnection, the output limit of the handshake, and the nonce of each request. */
  datatype Config = Config(depth: nat, queuedBytes: nat, output: nat, nonce: int -> bytes)

  // --- State -------------------------------------------------------------------------------------

  datatype Effect = NotSent | Unknown | Confirmed

  /**
   * What a caller is told: an effect, Confirmed exactly when there is no error, and the captured output. seen is
   * history: how many of the request's own frames the output was collected from.
   */
  datatype Report = Report(effect: Effect, stdout: bytes, stderr: bytes, seen: nat)

  function Failed(effect: Effect): Report { Report(effect, [], [], 0) }

  /** Where a caller stands in run; second marks abortRequest's look after its compare-and-swap. */
  datatype CallerPc =
    | AcquireCount | AcquireBytes | Enqueue | FailBytes | FailCount
    | Waiting | Load(second: bool) | Try(second: bool) | Swap | Block
    | Returned(report: Report)

  datatype RequestState = Queued | InFlight | Delivered | Canceled

  /** Outside: not enqueued. Settled: its result has been sent. */
  datatype Place = Outside | InQueue | Taken | Settled

  /**
   * What has happened to a request, which no step looks at: whether writing it began, how many of its two lines were
   * written, the frames tmux emitted for it, whether its nonce frame was consumed, and, by then, what had been received
   * and whether its context had been seen done.
   */
  datatype Trail = Trail(touched: bool, lines: nat, answers: seq<Frame>,
                         nonceSeen: bool, heard: seq<Tagged>, canceled: bool)

  const UNTRODDEN: Trail := Trail(false, 0, [], false, [], false)

  /**
   * A request; trail, begun, sends and sent are history: begun that the dispatcher's compare-and-swap took it, the last
   * two the results sent to its caller.
   */
  datatype Req = Req(weight: nat, out: nat, err: nat,
                     pc: CallerPc, state: RequestState, slot: Option<Report>, place: Place,
                     holdsCount: bool, holdsBytes: bool,
                     trail: Trail, begun: bool, sends: nat, sent: Option<Report>)

  datatype Next = ToIdle | ToStop | ToDrain

  /** Where the dispatcher stands with a request. */
  datatype Stage =
    | Chosen | CheckDone | SwapState | Build
    | Writing(line: nat)
    | Collecting(got: Collected, heard: seq<Tagged>, canceled: bool)
    | Halting(report: Report, next: Next)
    | Deliver(report: Report, step: nat, next: Next)

  datatype Dispatcher = Idle | Busy(k: int, stage: Stage) | Stopping | Draining | Exited

  /** Marked: closed is set. Signaled: stopCh is closed. Finished: stop has returned. */
  datatype Phase = Open | Marked | Signaled | Finished

  /** A line tmux has received: a request's commands, or its nonce command. */
  datatype Line = Line(owner: int, nonce: bool)

  datatype Origin = Unsolicited | Answer(k: int) | NonceOf(k: int)
  datatype Tagged = Tagged(frame: Frame, origin: Origin)

  /** The frames of a list that answer a request's line. */
  function Own(tags: seq<Tagged>): seq<Frame> {
    if tags == [] then []
    else Own(tags[..|tags| - 1]) + (if tags[|tags| - 1].origin.Answer? then [tags[|tags| - 1].frame] else [])
  }

  datatype State = State(phase: Phase, reqs: seq<Req>, queue: seq<nat>, count: int, weight: int,
                         disp: Dispatcher, lines: seq<Line>, pipe: seq<Tagged>)

  /** The startup handshake is collected like a request of its own. */
  const STARTUP: int := -1

  function Init(): State {
    State(Open, [], [], 0, 0, Busy(STARTUP, Collecting(NOTHING, [], false)),
          [Line(STARTUP, false), Line(STARTUP, true)], [])
  }

  // --- Steps: callers ------------------------------------------------------------------------------

  function NewRequest(weight: nat, out: nat, err: nat, pc: CallerPc): Req {
    Req(weight, out, err, pc, Queued, None, Outside, false, false, UNTRODDEN, false, 0, None)
  }

  /** run is called; requests that can never fit are refused at once. */
  function Arrive(c: Config, s: State, weight: nat, out: nat, err: nat): State {
    var pc := if weight > c.queuedBytes then Returned(Failed(NotSent)) else AcquireCount;
    s.(reqs := s.reqs + [NewRequest(weight, out, err, pc)])
  }

  function Set(s: State, k: nat, r: Req): State
    requires k < |s.reqs|
  {
    s.(reqs := s.reqs[k := r])
  }

  /** One step of caller k; giveUp is its context ending, or stopCh closing, where it is waiting. */
  function CallerStep(c: Config, s: State, k: nat, giveUp: bool): Option<State>
    requires k < |s.reqs|
  {
    var r := s.reqs[k];
    match r.pc
    case AcquireCount =>
      if giveUp then Some(Set(s, k, r.(pc := Returned(Failed(NotSent)))))
      else if s.count + 1 <= c.depth then
        Some(Set(s, k, r.(pc := AcquireBytes, holdsCount := true)).(count := s.count + 1))
      else None
    case AcquireBytes =>
      if giveUp then Some(Set(s, k, r.(pc := Returned(Failed(NotSent)), holdsCount := false)).(count := s.count - 1))
      else if s.weight + r.weight <= c.queuedBytes then
        Some(Set(s, k, r.(pc := Enqueue, holdsBytes := true)).(weight := s.weight + r.weight))
      else None
    case Enqueue =>
      if s.phase == Open && |s.queue| < c.depth then
        Some(Set(s, k, r.(pc := Waiting, place := InQueue)).(queue := s.queue + [k]))
      else Some(Set(s, k, r.(pc := FailBytes)))
    case FailBytes => Some(Set(s, k, r.(pc := FailCount, holdsBytes := false)).(weight := s.weight - r.weight))
    case FailCount => Some(Set(s, k, r.(pc := Returned(Failed(NotSent)), holdsCount := false)).(count := s.count - 1))
    case Waiting =>
      if giveUp then Some(Set(s, k, r.(pc := Load(false))))
      else if r.slot.Some? then Some(Set(s, k, r.(pc := Returned(r.slot.value), slot := None)))
      else None
    case Load(second) => Some(Set(s, k, r.(pc := if r.state == Delivered then Block else Try(second))))
    case Try(second) =>
      if r.slot.Some? then Some(Set(s, k, r.(pc := Returned(r.slot.value), slot := None)))
      else Some(Set(s, k, r.(pc := if second then Returned(Failed(Unknown)) else Swap)))
    case Swap =>
      if r.state == Queued then Some(Set(s, k, r.(pc := Returned(Failed(NotSent)), state := Canceled)))
      else Some(Set(s, k, r.(pc := Load(true))))
    case Block => if r.slot.Some? then Some(Set(s, k, r.(pc := Returned(r.slot.value), slot := None))) else None
    case Returned(_) => None
  }

  // --- Steps: dispatcher ---------------------------------------------------------------------------

  /**
   * The dispatcher's choices: Go takes the ordinary way, Done sees the request's context done, Fail is a failing
   * build or write, Stop sees stopCh closed or the connection's context done, Timeout is the drain timer.
   */
  datatype Choice = Go | Done | Fail | Stop | Timeout

  function After(next: Next): Dispatcher {
    match next
    case ToIdle => Idle
    case ToStop => Stopping
    case ToDrain => Draining
  }

  /** The start of deliver. */
  function Answered(s: State, k: nat, report: Report, next: Next): State {
    s.(disp := Busy(k, Deliver(report, 0, next)))
  }

  function TakeHead(s: State, stage: Stage): State
    requires s.queue != [] && s.queue[0] < |s.reqs|
  {
    var k := s.queue[0];
    Set(s, k, s.reqs[k].(place := Taken)).(queue := s.queue[1..], disp := Busy(k, stage))
  }

  function LoopStep(s: State, choice: Choice): Option<State> {
    match s.disp
    case Idle =>
      if choice == Stop then Some(s.(disp := Stopping))
      else if choice == Go && s.queue != [] && s.queue[0] < |s.reqs| then Some(TakeHead(s, Chosen))
      else None
    case Stopping => if s.phase == Finished then Some(s.(disp := Draining)) else None
    case Draining =>
      if s.queue == [] then Some(s.(disp := Exited))
      else if s.queue[0] < |s.reqs| then Some(TakeHead(s, Deliver(Failed(NotSent), 0, ToDrain)))
      else None
    case _ => None
  }

  /** dispatchRequest up to the write. */
  function RequestStep(s: State, k: nat, stage: Stage, choice: Choice): Option<State>
    requires k < |s.reqs|
  {
    var r := s.reqs[k];
    match stage
    case Chosen =>
      if s.phase != Open then Some(Answered(s, k, Failed(NotSent), ToIdle)) else Some(s.(disp := Busy(k, CheckDone)))
    case CheckDone =>
      if choice == Done then Some(Answered(s, k, Failed(NotSent), ToIdle)) else Some(s.(disp := Busy(k, SwapState)))
    case SwapState =>
      if r.state == Queued then Some(Set(s, k, r.(state := InFlight, begun := true)).(disp := Busy(k, Build)))
      else Some(Answered(s, k, Failed(NotSent), ToIdle))
    case Build =>
      if choice == Fail then Some(Answered(s, k, Failed(NotSent), ToIdle))
      else Some(Set(s, k, r.(trail := r.trail.(touched := true))).(disp := Busy(k, Writing(0))))
    case Writing(line) =>
      if choice == Fail && line < 2 then Some(s.(disp := Busy(k, Halting(Failed(Unknown), ToStop))))
      else if line < 2 then
        Some(Set(s, k, r.(trail := r.trail.(lines := line + 1)))
             .(disp := Busy(k, Writing(line + 1)), lines := s.lines + [Line(k, line == 1)]))
      else Some(s.(disp := Busy(k, Collecting(NOTHING, [], false))))
    case Halting(report, next) => if s.phase == Finished then Some(Answered(s, k, report, next)) else None
    case Deliver(report, step, next) =>
      (match step
       case 0 =>
         Some(Set(s, k, r.(holdsBytes := false))
              .(weight := s.weight - r.weight, disp := Busy(k, Deliver(report, 1, next))))
       case 1 =>
         Some(Set(s, k, r.(holdsCount := false)).(count := s.count - 1, disp := Busy(k, Deliver(report, 2, next))))
       case 2 => Some(Set(s, k, r.(state := Delivered)).(disp := Busy(k, Deliver(report, 3, next))))
       case 3 =>
         if r.slot.None? then
           Some(Set(s, k, r.(slot := Some(report), sends := r.sends + 1, sent := Some(report), place := Settled))
                .(disp := After(next)))
         else None
       case _ => None)
    case Collecting(_, _, _) => None
  }

  /** The trail of a request whose nonce frame is consumed. */
  function Hears(r: Req, heard: seq<Tagged>, canceled: bool): Req {
    r.(trail := r.trail.(nonceSeen := true, heard := heard, canceled := canceled))
  }

  /** The trail of a request for which tmux emits one frame more. */
  function Answers(r: Req, f: Frame): Req {
    r.(trail := r.trail.(answers := r.trail.answers + [f]))
  }

  function LimitsOf(c: Config, s: State, k: int): Limits {
    if 0 <= k < |s.reqs| then Limits(s.reqs[k].out, s.reqs[k].err, false) else Limits(c.output, c.output, true)
  }

  /** The end of collectRequest with an error, or of the handshake. */
  function GiveUp(s: State, k: int, report: Report): State {
    if 0 <= k < |s.reqs| then Answered(s, k, report, ToIdle) else s.(disp := Stopping)
  }

  /** One turn of collectRequest's select. */
  function CollectStep(c: Config, s: State, k: int, got: Collected, heard: seq<Tagged>, canceled: bool, choice: Choice)
    : Option<State>
  {
    var failed := Report(Unknown, got.stdout, got.stderr, |Own(heard)|);
    match choice
    case Stop => if s.phase == Signaled || s.phase == Finished then Some(GiveUp(s, k, failed)) else None
    case Done =>
      if canceled then None
      else Some(s.(disp := Busy(k, Collecting(got.(failure := got.failure + [ErrCanceled]), heard, true))))
    case Timeout =>
      if !canceled then None
      else if 0 <= k < |s.reqs| then Some(s.(disp := Busy(k, Halting(failed, ToIdle))))
      else Some(s.(disp := Stopping))
    case _ =>
      if s.pipe == [] then None
      else
        var f := s.pipe[0];
        var rest := s.(pipe := s.pipe[1..]);
        if IsNonce(f.frame, c.nonce(k)) then
          if 0 <= k < |s.reqs| then
            var report := failed.(effect := if got.failure == [] then Confirmed else Unknown);
            Some(Answered(Set(rest, k, Hears(s.reqs[k], heard, canceled)), k, report, ToIdle))
          else Some(rest.(disp := if choice == Go && got.failure == [] then Idle else Stopping))
        else
          Some(rest.(disp := Busy(k, Collecting(Take(got, f.frame, LimitsOf(c, s, k)), heard + [f], canceled))))
  }

  function DispatcherStep(c: Config, s: State, choice: Choice): Option<State> {
    match s.disp
    case Busy(k, stage) =>
      if stage.Collecting? then CollectStep(c, s, k, stage.got, stage.heard, stage.canceled, choice)
      else if 0 <= k < |s.reqs| then RequestStep(s, k, stage, choice)
      else None
    case _ => LoopStep(s, choice)
  }

  // --- Steps: tmux and stop --------------------------------------------------------------------------

  /** Nonces are fresh: no other output equals one. */
  ghost predicate NoNonce(c: Config, f: Frame) {
    forall k: int :: !IsNonce(f, c.nonce(k))
  }

  function Record(s: State, k: int, f: Frame): State {
    if 0 <= k < |s.reqs| then Set(s, k, Answers(s.reqs[k], f)) else s
  }

  /** tmux answers the first unanswered line with one frame more. */
  ghost function Emit(c: Config, s: State, f: Frame): Option<State> {
    if s.lines == [] || !NoNonce(c, f) || (s.lines[0].nonce && !f.failed) then None
    else
      var k := s.lines[0].owner;
      var t := Record(s, k, f).(pipe := s.pipe + [Tagged(f, Answer(k))]);
      Some(if s.lines[0].nonce then t.(lines := s.lines[1..]) else t)
  }

  /** tmux has run the first line's last command; a nonce command prints the nonce. */
  function EndLine(c: Config, s: State, flags: nat): Option<State> {
    if s.lines == [] then None
    else
      var k := s.lines[0].owner;
      Some(if s.lines[0].nonce then
             s.(lines := s.lines[1..], pipe := s.pipe + [Tagged(Frame(flags, c.nonce(k), false), NonceOf(k))])
           else s.(lines := s.lines[1..]))
  }

  /** Output that answers no line: unflagged, and without the library's prefixes. */
  ghost function Intrude(c: Config, s: State, f: Frame): Option<State> {
    if Stray(f) && NoNonce(c, f) then Some(s.(pipe := s.pipe + [Tagged(f, Unsolicited)])) else None
  }

  function StopStep(s: State): Option<State> {
    match s.phase
    case Open => Some(s.(phase := Marked))
    case Marked => Some(s.(phase := Signaled))
    case Signaled => Some(s.(phase := Finished))
    case Finished => None
  }

  datatype Label =
    | ArriveL(weight: nat, out: nat, err: nat) | CallerL(k: nat, giveUp: bool) | DispatcherL(choice: Choice)
    | EmitL(frame: Frame) | EndLineL(flags: nat) | IntrudeL(frame: Frame) | StopL

  ghost function Step(c: Config, s: State, l: Label): Option<State> {
    match l
    case ArriveL(weight, out, err) => Some(Arrive(c, s, weight, out, err))
    case CallerL(k, giveUp) => if k < |s.reqs| then CallerStep(c, s, k, giveUp) else None
    case DispatcherL(choice) => DispatcherStep(c, s, choice)
    case EmitL(f) => Emit(c, s, f)
    case EndLineL(flags) => EndLine(c, s, flags)
    case IntrudeL(f) => Intrude(c, s, f)
    case StopL => StopStep(s)
  }

  /** The state after a run of labels, or None where one of them cannot happen. */
  ghost function Run(c: Config, s: State, ls: seq<Label>): Option<State>
    decreases |ls|
  {
    if ls == [] then Some(s)
    else
      match Step(c, s, ls[0])
      case None => None
      case Some(t) => Run(c, t, ls[1..])
  }
}
