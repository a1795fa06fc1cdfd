/** What the callers of the request protocol must be told, over every run. */
module DispatchOutcome {
  import opened Bytes
  import opened Collector
  import opened Dispatch
  import opened DispatchSafety

  // --- Not sent or unknown -------------------------------------------------------------------------

  /** A result says "not sent" exactly where writing has not begun. */
  predicate Fair(r: Req, p: Report) {
    p.effect == NotSent <==> !r.trail.touched
  }

  /** No result on its way to r's caller, or told to it, is vaguer than the request's history. */
  predicate FairSoFar(r: Req, v: Option<Stage>) {
    && (r.state == InFlight || r.trail.touched ==> r.begun)
    && (r.begun ==> r.state == InFlight || r.state == Delivered)
    && (r.state == Canceled ==> r.pc.Returned?)
    && (r.pc == Load(true) ==> r.state == InFlight || r.state == Delivered)
    && (r.pc == Try(true) ==> r.begun)
    && (r.pc.Returned? && r.pc.report.effect == Unknown ==> r.begun)
    && (r.slot.Some? ==> Fair(r, r.slot.value))
    && (r.sent.Some? ==> Fair(r, r.sent.value))
    && (v.Some? && v.value.Deliver? ==> Fair(r, v.value.report))
    && (v.Some? && (v.value.Writing? || v.value.Collecting? || v.value.Halting?) ==> r.trail.touched)
    && (v.Some? && v.value.Halting? ==> v.value.report.effect == Unknown)
  }

  predicate AllFair(s: State) {
    forall k :: 0 <= k < |s.reqs| ==> FairSoFar(s.reqs[k], View(s.disp, k))
  }

  lemma FairKeeps(s: State, t: State, k: nat)
    requires AllFair(s) && k < |s.reqs| == |t.reqs| && t.reqs == s.reqs[k := t.reqs[k]]
    requires t.disp == s.disp || (OnlyOwner(s.disp, k) && OnlyOwner(t.disp, k))
    requires FairSoFar(t.reqs[k], View(t.disp, k))
    ensures AllFair(t)
  {
    hide FairSoFar;
    forall j | 0 <= j < |t.reqs| ensures FairSoFar(t.reqs[j], View(t.disp, j)) {
      assert FairSoFar(s.reqs[j], View(s.disp, j));
    }
  }

  /** What of the invariants of a request matters here. */
  lemma Standing(r: Req, v: Option<Stage>)
    requires ReqOK(r, v)
    ensures r.slot.Some? || r.sent.Some? ==> r.place == Settled && v.None?
    ensures v.Some? && (v.value.Chosen? || v.value.CheckDone? || v.value.SwapState? || v.value.Build?) ==>
      !r.trail.touched
    ensures v == Some(Build) ==> r.state == InFlight
    ensures r.place == InQueue ==> !r.trail.touched
  {
    hide Honest, Exact, Gathered;
  }

  lemma FairAcquires(c: Config, s: State, k: nat, giveUp: bool, t: State)
    requires k < |s.reqs| && CallerStep(c, s, k, giveUp) == Some(t)
    requires s.reqs[k].pc.AcquireCount? || s.reqs[k].pc.AcquireBytes?
    requires FairSoFar(s.reqs[k], View(s.disp, k))
    ensures |t.reqs| == |s.reqs| && t.disp == s.disp && t.reqs == s.reqs[k := t.reqs[k]]
    ensures FairSoFar(t.reqs[k], View(t.disp, k))
  {
  }

  lemma FairEnqueues(c: Config, s: State, k: nat, giveUp: bool, t: State)
    requires k < |s.reqs| && CallerStep(c, s, k, giveUp) == Some(t)
    requires s.reqs[k].pc.Enqueue? || s.reqs[k].pc.FailBytes? || s.reqs[k].pc.FailCount?
    requires FairSoFar(s.reqs[k], View(s.disp, k))
    ensures |t.reqs| == |s.reqs| && t.disp == s.disp && t.reqs == s.reqs[k := t.reqs[k]]
    ensures FairSoFar(t.reqs[k], View(t.disp, k))
  {
  }

  lemma FairWaits(c: Config, s: State, k: nat, giveUp: bool, t: State)
    requires k < |s.reqs| && CallerStep(c, s, k, giveUp) == Some(t)
    requires s.reqs[k].pc.Waiting? || s.reqs[k].pc.Block?
    requires FairSoFar(s.reqs[k], View(s.disp, k))
    ensures |t.reqs| == |s.reqs| && t.disp == s.disp && t.reqs == s.reqs[k := t.reqs[k]]
    ensures FairSoFar(t.reqs[k], View(t.disp, k))
  {
    hide View;
  }

  lemma FairLoads(c: Config, s: State, k: nat, giveUp: bool, t: State)
    requires k < |s.reqs| && CallerStep(c, s, k, giveUp) == Some(t)
    requires s.reqs[k].pc.Load? || s.reqs[k].pc.Swap?
    requires FairSoFar(s.reqs[k], View(s.disp, k))
    ensures |t.reqs| == |s.reqs| && t.disp == s.disp && t.reqs == s.reqs[k := t.reqs[k]]
    ensures FairSoFar(t.reqs[k], View(t.disp, k))
  {
    hide View;
  }

  lemma FairTries(c: Config, s: State, k: nat, giveUp: bool, t: State)
    requires k < |s.reqs| && CallerStep(c, s, k, giveUp) == Some(t)
    requires s.reqs[k].pc.Try?
    requires FairSoFar(s.reqs[k], View(s.disp, k))
    ensures |t.reqs| == |s.reqs| && t.disp == s.disp && t.reqs == s.reqs[k := t.reqs[k]]
    ensures FairSoFar(t.reqs[k], View(t.disp, k))
  {
    hide View;
  }

  lemma FairCaller(c: Config, s: State, k: nat, giveUp: bool, t: State)
    requires k < |s.reqs| && CallerStep(c, s, k, giveUp) == Some(t) && AllFair(s)
    ensures AllFair(t)
  {
    hide FairSoFar, CallerStep;
    assert FairSoFar(s.reqs[k], View(s.disp, k));
    if s.reqs[k].pc.AcquireCount? || s.reqs[k].pc.AcquireBytes? {
      FairAcquires(c, s, k, giveUp, t);
    } else if s.reqs[k].pc.Enqueue? || s.reqs[k].pc.FailBytes? || s.reqs[k].pc.FailCount? {
      FairEnqueues(c, s, k, giveUp, t);
    } else if s.reqs[k].pc.Waiting? || s.reqs[k].pc.Block? {
      FairWaits(c, s, k, giveUp, t);
    } else if s.reqs[k].pc.Try? {
      FairTries(c, s, k, giveUp, t);
    } else {
      AwakeCaller(c, s, k, giveUp, t);
      FairLoads(c, s, k, giveUp, t);
    }
    FairKeeps(s, t, k);
  }

  lemma FairReleases(c: Config, s: State, k: nat, stage: Stage, choice: Choice, t: State)
    requires k < |s.reqs| && s.disp == Busy(k, stage) && RequestStep(s, k, stage, choice) == Some(t)
    requires stage.Deliver? && stage.step < 2
    requires ReqOK(s.reqs[k], Some(stage)) && FairSoFar(s.reqs[k], Some(stage))
    ensures |t.reqs| == |s.reqs| && OnlyOwner(t.disp, k) && t.reqs == s.reqs[k := t.reqs[k]]
    ensures FairSoFar(t.reqs[k], View(t.disp, k))
  {
    hide ReqOK;
    Standing(s.reqs[k], Some(stage));
  }

  lemma FairSends(c: Config, s: State, k: nat, stage: Stage, choice: Choice, t: State)
    requires k < |s.reqs| && s.disp == Busy(k, stage) && RequestStep(s, k, stage, choice) == Some(t)
    requires stage.Deliver? && stage.step >= 2
    requires ReqOK(s.reqs[k], Some(stage)) && FairSoFar(s.reqs[k], Some(stage))
    ensures |t.reqs| == |s.reqs| && OnlyOwner(t.disp, k) && t.reqs == s.reqs[k := t.reqs[k]]
    ensures FairSoFar(t.reqs[k], View(t.disp, k))
  {
    hide ReqOK;
    Standing(s.reqs[k], Some(stage));
  }

  lemma FairWrites(c: Config, s: State, k: nat, stage: Stage, choice: Choice, t: State)
    requires k < |s.reqs| && s.disp == Busy(k, stage) && RequestStep(s, k, stage, choice) == Some(t)
    requires stage.Build? || stage.Writing? || stage.Halting?
    requires ReqOK(s.reqs[k], Some(stage)) && FairSoFar(s.reqs[k], Some(stage))
    ensures |t.reqs| == |s.reqs| && OnlyOwner(t.disp, k) && t.reqs == s.reqs[k := t.reqs[k]]
    ensures FairSoFar(t.reqs[k], View(t.disp, k))
  {
    hide ReqOK;
    Standing(s.reqs[k], Some(stage));
  }

  lemma FairChooses(c: Config, s: State, k: nat, stage: Stage, choice: Choice, t: State)
    requires k < |s.reqs| && s.disp == Busy(k, stage) && RequestStep(s, k, stage, choice) == Some(t)
    requires !stage.Deliver? && !stage.Build? && !stage.Writing? && !stage.Halting?
    requires ReqOK(s.reqs[k], Some(stage)) && FairSoFar(s.reqs[k], Some(stage))
    ensures |t.reqs| == |s.reqs| && OnlyOwner(t.disp, k) && t.reqs == s.reqs[k := t.reqs[k]]
    ensures FairSoFar(t.reqs[k], View(t.disp, k))
  {
    hide ReqOK;
    Standing(s.reqs[k], Some(stage));
  }

  lemma FairRequest(c: Config, s: State, k: nat, stage: Stage, choice: Choice, t: State)
    requires k < |s.reqs| && s.disp == Busy(k, stage) && RequestStep(s, k, stage, choice) == Some(t)
    requires ReqOK(s.reqs[k], Some(stage)) && AllFair(s)
    ensures AllFair(t)
  {
    hide ReqOK, FairSoFar, RequestStep;
    assert FairSoFar(s.reqs[k], View(s.disp, k));
    if stage.Deliver? && stage.step < 2 {
      FairReleases(c, s, k, stage, choice, t);
    } else if stage.Deliver? {
      FairSends(c, s, k, stage, choice, t);
    } else if stage.Build? || stage.Writing? || stage.Halting? {
      FairWrites(c, s, k, stage, choice, t);
    } else {
      FairChooses(c, s, k, stage, choice, t);
    }
    FairKeeps(s, t, k);
  }

  lemma FairCollect(c: Config, s: State, k: int, got: Collected, heard: seq<Tagged>, canceled: bool, choice: Choice,
                    t: State)
    requires s.disp == Busy(k, Collecting(got, heard, canceled)) && AllFair(s)
    requires CollectStep(c, s, k, got, heard, canceled, choice) == Some(t)
    ensures AllFair(t)
  {
    hide Take, IsNonce, Own;
    if 0 <= k < |s.reqs| {
      assert FairSoFar(s.reqs[k], View(s.disp, k));
      FairKeeps(s, t, k);
    } else {
      forall j | 0 <= j < |t.reqs| ensures FairSoFar(t.reqs[j], View(t.disp, j)) {
        assert FairSoFar(s.reqs[j], View(s.disp, j));
      }
    }
  }

  lemma FairLoop(c: Config, s: State, choice: Choice, t: State)
    requires Inv(c, s) && AllFair(s) && LoopStep(s, choice) == Some(t)
    ensures AllFair(t)
  {
    hide ReqOK, PermitsOK, WireOK;
    if t.disp.Busy? {
      var k := s.queue[0];
      RequestOf(c, s, k);
      Standing(s.reqs[k], View(s.disp, k));
      assert FairSoFar(s.reqs[k], View(s.disp, k));
      FairKeeps(s, t, k);
    } else {
      forall j | 0 <= j < |t.reqs| ensures FairSoFar(t.reqs[j], View(t.disp, j)) {
        assert FairSoFar(s.reqs[j], View(s.disp, j));
      }
    }
  }

  /** What tmux can change. */
  lemma TmuxMoves(c: Config, s: State, l: Label, t: State)
    requires Step(c, s, l) == Some(t) && (l.EmitL? || l.EndLineL? || l.IntrudeL?)
    ensures t.disp == s.disp && t.phase == s.phase && |t.reqs| == |s.reqs|
    ensures forall k :: 0 <= k < |s.reqs| ==>
      t.reqs[k] == s.reqs[k].(trail := s.reqs[k].trail.(answers := t.reqs[k].trail.answers))
  {
    hide NoNonce, Stray;
  }

  /** tmux and stop decide nothing. */
  lemma FairOthers(c: Config, s: State, t: State)
    requires AllFair(s) && t.disp == s.disp && |t.reqs| == |s.reqs|
    requires forall k :: 0 <= k < |s.reqs| ==>
      t.reqs[k] == s.reqs[k].(trail := t.reqs[k].trail) && t.reqs[k].trail.touched == s.reqs[k].trail.touched
    ensures AllFair(t)
  {
    forall j | 0 <= j < |t.reqs| ensures FairSoFar(t.reqs[j], View(t.disp, j)) {
      assert FairSoFar(s.reqs[j], View(s.disp, j));
    }
  }

  lemma FairArrive(c: Config, s: State, weight: nat, out: nat, err: nat)
    requires AllFair(s) && Inv(c, s)
    ensures AllFair(Arrive(c, s, weight, out, err))
  {
    hide Locals, QueueOK, PermitsOK, WireOK;
    var t := Arrive(c, s, weight, out, err);
    forall j | 0 <= j < |t.reqs| ensures FairSoFar(t.reqs[j], View(t.disp, j)) {
      if j < |s.reqs| {
        assert FairSoFar(s.reqs[j], View(s.disp, j));
      }
    }
  }

  lemma FairStep(c: Config, s: State, l: Label, t: State)
    requires Inv(c, s) && AllFair(s) && Step(c, s, l) == Some(t)
    ensures AllFair(t)
  {
    hide Inv, AllFair, CallerStep, LoopStep, RequestStep, CollectStep, StopStep, Emit, EndLine, Intrude;
    match l {
      case ArriveL(weight, out, err) => FairArrive(c, s, weight, out, err);
      case CallerL(k, giveUp) =>
        FairCaller(c, s, k, giveUp, t);
      case DispatcherL(choice) =>
        if s.disp.Busy? && s.disp.stage.Collecting? {
          FairCollect(c, s, s.disp.k, s.disp.stage.got, s.disp.stage.heard, s.disp.stage.canceled, choice, t);
        } else if s.disp.Busy? {
          RequestOf(c, s, s.disp.k);
          FairRequest(c, s, s.disp.k, s.disp.stage, choice, t);
        } else {
          FairLoop(c, s, choice, t);
        }
      case StopL =>
        Halts(s, t);
        FairOthers(c, s, t);
      case _ =>
        TmuxMoves(c, s, l, t);
        FairOthers(c, s, t);
    }
  }

  lemma Halts(s: State, t: State)
    requires StopStep(s) == Some(t)
    ensures t == s.(phase := t.phase)
  {
  }

  lemma {:induction false} FairRun(c: Config, s: State, ls: seq<Label>, t: State)
    requires Inv(c, s) && AllFair(s) && Run(c, s, ls) == Some(t)
    ensures AllFair(t)
    decreases |ls|
  {
    hide Inv, AllFair, Step;
    if ls != [] {
      var u := Step(c, s, ls[0]).value;
      StepKeeps(c, s, ls[0], u);
      FairStep(c, s, ls[0], u);
      FairRun(c, u, ls[1..], t);
    }
  }

  /**
   * Nobody is told less than is known, over every interleaving: the result sent to a caller says "not sent" if and only
   * if writing its request never began; and a caller is told "unknown", by delivery or by itself, only if the
   * dispatcher's compare-and-swap had taken its request, so a request never taken is always reported as not sent.
   */
  lemma NotSentWhenever(c: Config, ls: seq<Label>, s: State, k: nat)
    requires Run(c, Init(), ls) == Some(s) && k < |s.reqs|
    ensures s.reqs[k].sent.Some? ==> (s.reqs[k].sent.value.effect == NotSent <==> !s.reqs[k].trail.touched)
    ensures s.reqs[k].pc.Returned? && !s.reqs[k].begun ==> s.reqs[k].pc.report.effect == NotSent
    ensures s.reqs[k].begun || s.reqs[k].trail.touched ==> s.reqs[k].state == InFlight || s.reqs[k].state == Delivered
  {
    InitOK(c);
    FairRun(c, Init(), ls, s);
    RunKeeps(c, Init(), ls, s);
    RequestOf(c, s, k);
    assert FairSoFar(s.reqs[k], View(s.disp, k));
    if s.reqs[k].pc.Returned? {
      ReturnedHonest(s.reqs[k], View(s.disp, k));
    }
  }

  // --- Undisturbed runs ------------------------------------------------------------------------------

  /** A step in which no context ends, nothing fails and nobody stops the connection; timers and tmux are free. */
  predicate Quiet(l: Label) {
    match l
    case CallerL(_, giveUp) => !giveUp
    case DispatcherL(choice) => Orderly(choice)
    case StopL => false
    case _ => true
  }

  predicate Orderly(choice: Choice) {
    choice == Go || choice == Timeout
  }

  /** A request that is on its way to an answer, or has it. */
  predicate Onward(c: Config, r: Req, v: Option<Stage>) {
    && (r.pc.AcquireCount? || r.pc.AcquireBytes? || r.pc.Enqueue? || r.pc.Waiting? || r.pc.Returned?)
    && r.state != Canceled && !r.trail.canceled
    && (r.pc.Returned? ==> r.weight > c.queuedBytes || (r.trail.nonceSeen && r.sent == Some(r.pc.report)))
    && (r.slot.Some? ==> r.trail.nonceSeen && r.sent == r.slot)
    && (v.Some? ==> !v.value.Halting?)
    && (v.Some? && v.value.Collecting? ==> !v.value.canceled)
    && (v.Some? && v.value.Deliver? ==> r.trail.nonceSeen && v.value.next == ToIdle)
  }

  predicate Undisturbed(c: Config, s: State) {
    && s.phase == Open && !s.disp.Draining? && !s.disp.Exited?
    && forall k :: 0 <= k < |s.reqs| ==> Onward(c, s.reqs[k], View(s.disp, k))
  }

  lemma OnwardKeeps(c: Config, s: State, t: State, k: nat)
    requires Undisturbed(c, s) && k < |s.reqs| == |t.reqs| && t.reqs == s.reqs[k := t.reqs[k]]
    requires t.disp == s.disp || (OnlyOwner(s.disp, k) && OnlyOwner(t.disp, k))
    requires t.phase == Open && !t.disp.Draining? && !t.disp.Exited?
    requires Onward(c, t.reqs[k], View(t.disp, k))
    ensures Undisturbed(c, t)
  {
    hide Onward;
    forall j | 0 <= j < |t.reqs| ensures Onward(c, t.reqs[j], View(t.disp, j)) {
      assert Onward(c, s.reqs[j], View(s.disp, j));
    }
  }

  lemma OnwardCaller(c: Config, s: State, k: nat, t: State)
    requires k < |s.reqs| && CallerStep(c, s, k, false) == Some(t)
    requires s.phase == Open && (s.reqs[k].pc.Enqueue? ==> |s.queue| < c.depth)
    requires Onward(c, s.reqs[k], View(s.disp, k))
    ensures |t.reqs| == |s.reqs| && t.disp == s.disp && t.phase == s.phase && t.reqs == s.reqs[k := t.reqs[k]]
    ensures Onward(c, t.reqs[k], View(t.disp, k))
  {
  }

  lemma OnwardCallers(c: Config, s: State, k: nat, t: State)
    requires Inv(c, s) && Undisturbed(c, s) && k < |s.reqs| && CallerStep(c, s, k, false) == Some(t)
    ensures Undisturbed(c, t)
  {
    hide Inv, Onward, CallerStep;
    PermitsCover(c, s, k);
    assert Onward(c, s.reqs[k], View(s.disp, k));
    OnwardCaller(c, s, k, t);
    OnwardKeeps(c, s, t, k);
  }

  /** Where the dispatcher takes a request, its caller has not given up. */
  lemma SwapsQueued(r: Req)
    requires ReqOK(r, Some(SwapState)) && r.state != Canceled
    ensures r.state == Queued
  {
  }

  lemma OnwardReleases(c: Config, s: State, k: nat, stage: Stage, choice: Choice, t: State)
    requires k < |s.reqs| && s.disp == Busy(k, stage) && RequestStep(s, k, stage, choice) == Some(t) && Orderly(choice)
    requires stage.Deliver? && stage.step < 2 && s.reqs[k].sent.None? && s.reqs[k].slot.None?
    requires Onward(c, s.reqs[k], Some(stage))
    ensures |t.reqs| == |s.reqs| && t.phase == s.phase && t.reqs == s.reqs[k := t.reqs[k]]
    ensures OnlyOwner(t.disp, k) && !t.disp.Draining? && !t.disp.Exited?
    ensures Onward(c, t.reqs[k], View(t.disp, k))
  {
  }

  lemma OnwardSends(c: Config, s: State, k: nat, stage: Stage, choice: Choice, t: State)
    requires k < |s.reqs| && s.disp == Busy(k, stage) && RequestStep(s, k, stage, choice) == Some(t) && Orderly(choice)
    requires stage.Deliver? && stage.step >= 2 && s.reqs[k].sent.None? && s.reqs[k].slot.None?
    requires Onward(c, s.reqs[k], Some(stage))
    ensures |t.reqs| == |s.reqs| && t.phase == s.phase && t.reqs == s.reqs[k := t.reqs[k]]
    ensures OnlyOwner(t.disp, k) && !t.disp.Draining? && !t.disp.Exited?
    ensures Onward(c, t.reqs[k], View(t.disp, k))
  {
  }

  lemma OnwardWrites(c: Config, s: State, k: nat, stage: Stage, choice: Choice, t: State)
    requires k < |s.reqs| && s.disp == Busy(k, stage) && RequestStep(s, k, stage, choice) == Some(t) && Orderly(choice)
    requires !stage.Deliver? && s.phase == Open && (stage.SwapState? ==> s.reqs[k].state == Queued)
    requires Onward(c, s.reqs[k], Some(stage))
    ensures |t.reqs| == |s.reqs| && t.phase == s.phase && t.reqs == s.reqs[k := t.reqs[k]]
    ensures OnlyOwner(t.disp, k) && !t.disp.Draining? && !t.disp.Exited?
    ensures Onward(c, t.reqs[k], View(t.disp, k))
  {
  }

  lemma Uncanceled(c: Config, r: Req, v: Option<Stage>)
    requires Onward(c, r, v)
    ensures r.state != Canceled
  {
  }

  lemma OnwardRequest(c: Config, s: State, k: nat, stage: Stage, choice: Choice, t: State)
    requires k < |s.reqs| && s.disp == Busy(k, stage) && RequestStep(s, k, stage, choice) == Some(t) && Orderly(choice)
    requires ReqOK(s.reqs[k], Some(stage)) && Undisturbed(c, s)
    ensures Undisturbed(c, t)
  {
    hide ReqOK, RequestStep, Onward;
    assert Onward(c, s.reqs[k], View(s.disp, k));
    Standing(s.reqs[k], Some(stage));
    if stage.Deliver? && stage.step < 2 {
      OnwardReleases(c, s, k, stage, choice, t);
    } else if stage.Deliver? {
      OnwardSends(c, s, k, stage, choice, t);
    } else {
      if stage.SwapState? {
        Uncanceled(c, s.reqs[k], Some(stage));
        SwapsQueued(s.reqs[k]);
      }
      OnwardWrites(c, s, k, stage, choice, t);
    }
    OnwardKeeps(c, s, t, k);
  }

  /** A request being collected has had no result. */
  lemma Unanswered(r: Req, got: Collected, heard: seq<Tagged>, canceled: bool)
    requires ReqOK(r, Some(Collecting(got, heard, canceled)))
    ensures r.slot.None? && r.sent.None? && !r.trail.nonceSeen
  {
    hide Honest, Exact, Gathered;
  }

  lemma OnwardCollect(c: Config, s: State, k: int, got: Collected, heard: seq<Tagged>, canceled: bool, choice: Choice,
                      t: State)
    requires s.disp == Busy(k, Collecting(got, heard, canceled)) && Undisturbed(c, s)
    requires 0 <= k < |s.reqs| ==> ReqOK(s.reqs[k], Some(s.disp.stage))
    requires CollectStep(c, s, k, got, heard, canceled, choice) == Some(t) && Orderly(choice)
    ensures Undisturbed(c, t)
  {
    hide Take, IsNonce, Own, ReqOK;
    if 0 <= k < |s.reqs| {
      Unanswered(s.reqs[k], got, heard, canceled);
      assert Onward(c, s.reqs[k], View(s.disp, k));
      OnwardKeeps(c, s, t, k);
    } else {
      forall j | 0 <= j < |t.reqs| ensures Onward(c, t.reqs[j], View(t.disp, j)) {
        assert Onward(c, s.reqs[j], View(s.disp, j));
      }
    }
  }

  lemma OnwardLoop(c: Config, s: State, choice: Choice, t: State)
    requires Undisturbed(c, s) && LoopStep(s, choice) == Some(t) && Orderly(choice)
    ensures Undisturbed(c, t)
  {
    if t.disp.Busy? {
      var k := s.queue[0];
      assert Onward(c, s.reqs[k], View(s.disp, k));
      OnwardKeeps(c, s, t, k);
    }
  }

  /** tmux may print anything. */
  lemma OnwardOthers(c: Config, s: State, t: State)
    requires Undisturbed(c, s) && t.disp == s.disp && t.phase == s.phase && |t.reqs| == |s.reqs|
    requires forall k :: 0 <= k < |s.reqs| ==>
      t.reqs[k] == s.reqs[k].(trail := s.reqs[k].trail.(answers := t.reqs[k].trail.answers))
    ensures Undisturbed(c, t)
  {
    forall j | 0 <= j < |t.reqs| ensures Onward(c, t.reqs[j], View(t.disp, j)) {
      assert Onward(c, s.reqs[j], View(s.disp, j));
    }
  }

  lemma OnwardArrive(c: Config, s: State, weight: nat, out: nat, err: nat)
    requires Undisturbed(c, s) && Inv(c, s)
    ensures Undisturbed(c, Arrive(c, s, weight, out, err))
  {
    hide Locals, QueueOK, PermitsOK, WireOK;
    var t := Arrive(c, s, weight, out, err);
    forall j | 0 <= j < |t.reqs| ensures Onward(c, t.reqs[j], View(t.disp, j)) {
      if j < |s.reqs| {
        assert Onward(c, s.reqs[j], View(s.disp, j));
      }
    }
  }

  lemma OnwardDispatcher(c: Config, s: State, choice: Choice, t: State)
    requires Inv(c, s) && Undisturbed(c, s) && DispatcherStep(c, s, choice) == Some(t) && Orderly(choice)
    ensures Undisturbed(c, t)
  {
    hide Inv, Undisturbed, LoopStep, RequestStep, CollectStep;
    if s.disp.Busy? && 0 <= s.disp.k < |s.reqs| {
      RequestOf(c, s, s.disp.k);
    }
    if s.disp.Busy? && s.disp.stage.Collecting? {
      OnwardCollect(c, s, s.disp.k, s.disp.stage.got, s.disp.stage.heard, s.disp.stage.canceled, choice, t);
    } else if s.disp.Busy? {
      OnwardRequest(c, s, s.disp.k, s.disp.stage, choice, t);
    } else {
      OnwardLoop(c, s, choice, t);
    }
  }

  lemma OnwardStep(c: Config, s: State, l: Label, t: State)
    requires Inv(c, s) && Undisturbed(c, s) && Quiet(l) && Step(c, s, l) == Some(t)
    ensures Undisturbed(c, t)
  {
    hide Inv, Undisturbed, CallerStep, DispatcherStep, StopStep, Emit, EndLine, Intrude;
    match l {
      case ArriveL(weight, out, err) => OnwardArrive(c, s, weight, out, err);
      case CallerL(k, _) => OnwardCallers(c, s, k, t);
      case DispatcherL(choice) => OnwardDispatcher(c, s, choice, t);
      case _ =>
        TmuxMoves(c, s, l, t);
        OnwardOthers(c, s, t);
    }
  }

  lemma {:induction false} OnwardRun(c: Config, s: State, ls: seq<Label>, t: State)
    requires Inv(c, s) && Undisturbed(c, s) && Run(c, s, ls) == Some(t)
    requires forall l <- ls :: Quiet(l)
    ensures Undisturbed(c, t)
    decreases |ls|
  {
    hide Inv, Undisturbed, Step, Quiet;
    if ls != [] {
      var u := Step(c, s, ls[0]).value;
      StepKeeps(c, s, ls[0], u);
      OnwardStep(c, s, ls[0], u);
      OnwardRun(c, u, ls[1..], t);
    }
  }

  /**
   * Nothing fails by itself: as long as no context ends, nothing fails to be built or written and nobody stops the
   * connection, a request that can fit and has returned was answered by tmux, and its caller was told so. Whatever tmux
   * printed, the result has no error exactly when every frame received for it was fine and its output was not cut.
   */
  lemma AnsweredUnlessDisturbed(c: Config, ls: seq<Label>, s: State, k: nat)
    requires Run(c, Init(), ls) == Some(s) && (forall l <- ls :: Quiet(l))
    requires k < |s.reqs| && s.reqs[k].pc.Returned? && s.reqs[k].weight <= c.queuedBytes
    ensures var r := s.reqs[k];
      && r.trail.nonceSeen && r.sent == Some(r.pc.report) && r.pc.report.effect != NotSent
      && (r.pc.report.effect == Confirmed <==> Calm(r.trail.heard) && |OutOf(r.trail.answers)| <= r.out)
  {
    hide Quiet, Calm, OutOf, ReqOK, Inv;
    InitOK(c);
    OnwardRun(c, Init(), ls, s);
    assert Onward(c, s.reqs[k], View(s.disp, k));
    NotSentWhenever(c, ls, s, k);
    ConfirmedExactly(c, ls, s, k);
    RunKeeps(c, Init(), ls, s);
    RequestOf(c, s, k);
    ReturnedHonest(s.reqs[k], View(s.disp, k));
  }

  // --- The handshake ---------------------------------------------------------------------------------

  /** All that was received, whatever it answers. */
  function Frames(heard: seq<Tagged>): seq<Frame> {
    seq(|heard|, i requires 0 <= i < |heard| => heard[i].frame)
  }

  /** What the handshake has collected: all it has received, as during startup, unless its context was seen done. */
  ghost predicate Handshaking(c: Config, d: Dispatcher) {
    d.Busy? && d.k == STARTUP && d.stage.Collecting? ==>
      if d.stage.canceled then d.stage.got.failure != []
      else Collects(d.stage.got, Frames(d.stage.heard), Limits(c.output, c.output, true))
  }

  lemma HandshakeStarts(c: Config)
    ensures Handshaking(c, Init().disp)
  {
  }

  lemma HandshakeTakes(c: Config, got: Collected, heard: seq<Tagged>, f: Tagged)
    ensures var l := Limits(c.output, c.output, true);
      Collects(got, Frames(heard), l) ==> Collects(Take(got, f.frame, l), Frames(heard + [f]), l)
    ensures got.failure != [] ==> Take(got, f.frame, Limits(c.output, c.output, true)).failure != []
  {
    hide Collects;
    assert Frames(heard + [f]) == Frames(heard) + [f.frame];
    if Collects(got, Frames(heard), Limits(c.output, c.output, true)) {
      TakeCollects(got, Frames(heard), f.frame, Limits(c.output, c.output, true));
    }
  }

  lemma HandshakeCollects(c: Config, s: State, choice: Choice, t: State)
    requires s.disp.Busy? && s.disp.stage.Collecting? && DispatcherStep(c, s, choice) == Some(t)
    requires Handshaking(c, s.disp)
    ensures Handshaking(c, t.disp)
  {
    hide Take, IsNonce, Own, Frames, Collects;
    if s.disp.k == STARTUP && s.pipe != [] {
      HandshakeTakes(c, s.disp.stage.got, s.disp.stage.heard, s.pipe[0]);
    }
  }

  /** No other step starts or changes a handshake. */
  lemma HandshakeElse(c: Config, s: State, l: Label, t: State)
    requires Step(c, s, l) == Some(t) && Handshaking(c, s.disp)
    requires l.DispatcherL? ==> !(s.disp.Busy? && s.disp.stage.Collecting?)
    ensures Handshaking(c, t.disp)
  {
    hide Frames, Collects, CallerStep, NoNonce, Stray;
    match l {
      case CallerL(k, giveUp) => CallerDisp(c, s, k, giveUp, t);
      case _ =>
    }
  }

  lemma CallerDisp(c: Config, s: State, k: nat, giveUp: bool, t: State)
    requires k < |s.reqs| && CallerStep(c, s, k, giveUp) == Some(t)
    ensures t.disp == s.disp
  {
  }

  lemma {:induction false} HandshakeRun(c: Config, s: State, ls: seq<Label>, t: State)
    requires Handshaking(c, s.disp) && Run(c, s, ls) == Some(t)
    ensures Handshaking(c, t.disp)
    decreases |ls|
  {
    hide Handshaking, DispatcherStep, CallerStep, NoNonce, Stray;
    if ls != [] {
      var u := Step(c, s, ls[0]).value;
      if ls[0].DispatcherL? && s.disp.Busy? && s.disp.stage.Collecting? {
        HandshakeCollects(c, s, ls[0].choice, u);
      } else {
        HandshakeElse(c, s, ls[0], u);
      }
      HandshakeRun(c, u, ls[1..], t);
    }
  }

  /**
   * Over every interleaving, the nonce of the handshake lets the dispatcher serve requests if and only if its context
   * was not seen done, every frame before it was fine by the rules of startup, its output was not cut, and the identity
   * it printed is accepted; otherwise the connection is stopped. That identity is read from all of that output.
   */
  lemma HandshakeDecides(c: Config, ls: seq<Label>, s: State, accepted: bool, t: State)
    requires Run(c, Init(), ls) == Some(s) && s.disp.Busy? && s.disp.k == STARTUP && s.disp.stage.Collecting?
    requires s.pipe != [] && IsNonce(s.pipe[0].frame, c.nonce(STARTUP))
    requires Step(c, s, DispatcherL(if accepted then Go else Fail)) == Some(t)
    ensures var heard := Frames(s.disp.stage.heard);
      && (t.disp == Idle <==> accepted && !s.disp.stage.canceled && FineAtStartup(heard) && |OutOf(heard)| <= c.output)
      && (t.disp != Idle ==> t.disp == Stopping)
      && (!s.disp.stage.canceled ==> s.disp.stage.got.stdout == First(c.output, OutOf(heard)))
  {
    hide Take, IsNonce, Own, Frames, OutOf, ErrOf, Fine;
    HandshakeStarts(c);
    HandshakeRun(c, Init(), ls, s);
  }

  /** Every frame is one that leaves the handshake without an error. */
  predicate FineAtStartup(fs: seq<Frame>) {
    forall i :: 0 <= i < |fs| ==> Fine(fs[i])
  }

  // --- What ends a request early ---------------------------------------------------------------------

  /** The dispatcher has settled on p for a request, where it stands so with it. */
  predicate Settles(v: Option<Stage>, p: Report) {
    v.Some? && (v.value.Deliver? || v.value.Halting?) && v.value.report == p
  }

  predicate Decided(s: State, k: nat, p: Report) {
    k < |s.reqs| && (Settles(View(s.disp, k), p) || s.reqs[k].sent == Some(p))
  }

  lemma AcquirerSent(c: Config, s: State, j: nat, giveUp: bool, t: State)
    requires j < |s.reqs| && CallerStep(c, s, j, giveUp) == Some(t) && Acquiring(s.reqs[j].pc)
    ensures t.disp == s.disp && |t.reqs| == |s.reqs| && t.reqs == s.reqs[j := t.reqs[j]]
    ensures t.reqs[j].sent == s.reqs[j].sent
  {
  }

  lemma WaiterSent(c: Config, s: State, j: nat, giveUp: bool, t: State)
    requires j < |s.reqs| && CallerStep(c, s, j, giveUp) == Some(t) && !Acquiring(s.reqs[j].pc)
    ensures t.disp == s.disp && |t.reqs| == |s.reqs| && t.reqs == s.reqs[j := t.reqs[j]]
    ensures t.reqs[j].sent == s.reqs[j].sent
  {
  }

  lemma DecidedCaller(c: Config, s: State, j: nat, giveUp: bool, t: State, k: nat, p: Report)
    requires j < |s.reqs| && CallerStep(c, s, j, giveUp) == Some(t) && Decided(s, k, p)
    ensures Decided(t, k, p)
  {
    hide View, CallerStep, Acquiring;
    if Acquiring(s.reqs[j].pc) {
      AcquirerSent(c, s, j, giveUp, t);
    } else {
      WaiterSent(c, s, j, giveUp, t);
    }
  }

  lemma DecidedRequest(s: State, j: nat, stage: Stage, choice: Choice, t: State, k: nat, p: Report)
    requires j < |s.reqs| && s.disp == Busy(j, stage) && RequestStep(s, j, stage, choice) == Some(t)
    requires Decided(s, k, p) && (k == j ==> s.reqs[k].sent.None?)
    ensures Decided(t, k, p)
  {
  }

  lemma DecidedLoop(s: State, choice: Choice, t: State, k: nat, p: Report)
    requires LoopStep(s, choice) == Some(t) && Decided(s, k, p) && !s.disp.Busy?
    ensures Decided(t, k, p)
  {
  }

  lemma DecidedCollect(c: Config, s: State, choice: Choice, t: State, k: nat, p: Report)
    requires s.disp.Busy? && s.disp.stage.Collecting? && DispatcherStep(c, s, choice) == Some(t) && Decided(s, k, p)
    ensures Decided(t, k, p)
  {
    hide CollectStep;
    CollectMoves(c, s, s.disp.k, s.disp.stage.got, s.disp.stage.heard, s.disp.stage.canceled, choice, t);
  }

  lemma DecidedStep(c: Config, s: State, l: Label, t: State, k: nat, p: Report)
    requires Inv(c, s) && Step(c, s, l) == Some(t) && Decided(s, k, p)
    ensures Decided(t, k, p)
  {
    hide Inv, CallerStep, LoopStep, RequestStep, CollectStep, NoNonce, Stray, Settles;
    match l {
      case CallerL(j, giveUp) => DecidedCaller(c, s, j, giveUp, t, k, p);
      case DispatcherL(choice) =>
        if s.disp.Busy? && s.disp.stage.Collecting? {
          DecidedCollect(c, s, choice, t, k, p);
        } else if s.disp.Busy? {
          RequestOf(c, s, k);
          Standing(s.reqs[k], View(s.disp, k));
          DecidedRequest(s, s.disp.k, s.disp.stage, choice, t, k, p);
        } else {
          DecidedLoop(s, choice, t, k, p);
        }
      case _ =>
    }
  }

  /** What the dispatcher has settled on for a request is what its caller is sent. */
  lemma {:induction false} DecidedStays(c: Config, s: State, ls: seq<Label>, t: State, k: nat, p: Report)
    requires Inv(c, s) && Run(c, s, ls) == Some(t) && Decided(s, k, p)
    ensures Decided(t, k, p)
    decreases |ls|
  {
    hide Inv, Decided, Step;
    if ls != [] {
      var u := Step(c, s, ls[0]).value;
      StepKeeps(c, s, ls[0], u);
      DecidedStep(c, s, ls[0], u, k, p);
      DecidedStays(c, u, ls[1..], t, k, p);
    }
  }

  /** What the dispatcher meets with request k that ends it: with no byte written, or before its nonce is seen. */
  predicate Withdraws(stage: Stage, choice: Choice) {
    (stage.CheckDone? && choice == Done) || (stage.Build? && choice == Fail)
  }

  predicate Breaks(stage: Stage, choice: Choice) {
    || (stage.Writing? && stage.line < 2 && choice == Fail)
    || (stage.Collecting? && (choice == Stop || choice == Timeout))
  }

  /**
   * What ends a request early, over every interleaving and for ever after: a context seen done before the dispatcher
   * takes the request, or a wire that cannot be built, and not a byte of it is ever written and its result says so; a
   * failing write, stop, or the drain timer while its frames are collected, and its result is unknown, with the output
   * of its own frames so far.
   */
  lemma EndedEarly(c: Config, before: seq<Label>, s: State, k: nat, stage: Stage, choice: Choice, u: State,
                   after: seq<Label>, t: State)
    requires Run(c, Init(), before) == Some(s) && s.disp == Busy(k, stage) && k < |s.reqs|
    requires Step(c, s, DispatcherL(choice)) == Some(u) && Run(c, u, after) == Some(t)
    requires Withdraws(stage, choice) || Breaks(stage, choice)
    ensures k < |t.reqs|
    ensures Withdraws(stage, choice) ==>
      !t.reqs[k].trail.touched && (t.reqs[k].sent.Some? ==> t.reqs[k].sent == Some(Failed(NotSent)))
    ensures Breaks(stage, choice) && t.reqs[k].sent.Some? ==>
      var p := t.reqs[k].sent.value;
      && p.effect == Unknown
      && (stage.Collecting? ==> p.stdout == First(s.reqs[k].out, OutOf(Own(stage.heard))))
  {
    hide Inv, Run, Withdraws, Breaks, Own, OutOf, Step, Settles;
    InitOK(c);
    RunKeeps(c, Init(), before, s);
    StepKeeps(c, s, DispatcherL(choice), u);
    RunKeeps(c, u, after, t);
    RequestOf(c, s, k);
    if Withdraws(stage, choice) {
      WithdrawnReport(c, s, k, stage, choice, u);
      DecidedStays(c, u, after, t, k, Failed(NotSent));
      RequestOf(c, t, k);
      DecidedHonest(c, t, k, Failed(NotSent));
    }
    if Breaks(stage, choice) {
      var p := BrokenReport(c, s, k, stage, choice, u);
      DecidedStays(c, u, after, t, k, p);
      RequestOf(c, t, k);
      DecidedHonest(c, t, k, p);
    }
  }

  lemma WithdrawnReport(c: Config, s: State, k: nat, stage: Stage, choice: Choice, u: State)
    requires s.disp == Busy(k, stage) && k < |s.reqs| && Withdraws(stage, choice)
    requires Step(c, s, DispatcherL(choice)) == Some(u)
    ensures Decided(u, k, Failed(NotSent))
  {
  }

  lemma BrokenReport(c: Config, s: State, k: nat, stage: Stage, choice: Choice, u: State) returns (p: Report)
    requires s.disp == Busy(k, stage) && k < |s.reqs| && Breaks(stage, choice)
    requires Step(c, s, DispatcherL(choice)) == Some(u) && ReqOK(s.reqs[k], Some(stage))
    ensures Decided(u, k, p) && p.effect == Unknown
    ensures stage.Collecting? ==> p.stdout == First(s.reqs[k].out, OutOf(Own(stage.heard)))
  {
    hide ReqOK, Own, OutOf;
    match stage {
      case Writing(_) => p := Failed(Unknown);
      case Collecting(got, heard, canceled) =>
        p := Report(Unknown, got.stdout, got.stderr, |Own(heard)|);
        CollectingParts(s.reqs[k], got, heard, canceled);
    }
  }

  /** Once decided, the result is that report, and "not sent" is and stays the truth. */
  lemma DecidedHonest(c: Config, t: State, k: nat, p: Report)
    requires k < |t.reqs| && ReqOK(t.reqs[k], View(t.disp, k)) && Decided(t, k, p)
    ensures t.reqs[k].sent.Some? ==> t.reqs[k].sent == Some(p)
    ensures p.effect == NotSent ==> !t.reqs[k].trail.touched
  {
    hide Exact, Gathered;
  }
}
