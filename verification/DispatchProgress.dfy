/** That the actors of the request protocol wait only for each other, over every run. */
module DispatchProgress {
  import opened Bytes
  import opened Collector
  import opened Dispatch
  import opened DispatchSafety

  // --- Progress ----------------------------------------------------------------------------------------

  /**
   * What a caller waits for, over every interleaving: a count while all are held, bytes while its own do not fit beside
   * those held, and a result until it has been sent one; it never waits for anything else.
   */
  lemma CallerGoesOn(c: Config, ls: seq<Label>, s: State, k: nat)
    requires Run(c, Init(), ls) == Some(s) && k < |s.reqs|
    ensures var r, on := s.reqs[k], Step(c, s, CallerL(k, false)).Some?;
      && (r.pc.AcquireCount? ==> (on <==> Sum(s.reqs, Counts) + 1 <= c.depth))
      && (r.pc.AcquireBytes? ==> (on <==> Sum(s.reqs, Weighs) + r.weight <= c.queuedBytes))
      && (r.pc.Waiting? || r.pc.Block? ==> (on <==> r.place == Settled))
      && (r.pc.Enqueue? || r.pc.FailBytes? || r.pc.FailCount? || r.pc.Load? || r.pc.Try? || r.pc.Swap? ==> on)
  {
    hide Honest, Exact, Gathered, StageOK, WireOK;
    InitOK(c);
    RunKeeps(c, Init(), ls, s);
    RequestOf(c, s, k);
  }

  /**
   * What the dispatcher waits for, over every interleaving: a request, stop to return once it has called it, or a
   * frame; it never waits for anything else before it exits.
   */
  lemma DispatcherGoesOn(c: Config, ls: seq<Label>, s: State)
    requires Run(c, Init(), ls) == Some(s)
    ensures Step(c, s, DispatcherL(Go)).Some? <==>
      match s.disp
      case Idle => s.queue != []
      case Stopping => s.phase == Finished
      case Draining => true
      case Exited => false
      case Busy(_, stage) =>
        if stage.Halting? then s.phase == Finished else if stage.Collecting? then s.pipe != [] else true
  {
    hide ReqOK, PermitsOK, WireOK, RequestStep, CollectStep;
    InitOK(c);
    RunKeeps(c, Init(), ls, s);
    if s.disp.Busy? && s.disp.stage.Collecting? {
      FramesCollect(c, s, s.disp.k, s.disp.stage.got, s.disp.stage.heard, s.disp.stage.canceled);
    } else if s.disp.Busy? {
      RequestOf(c, s, s.disp.k);
      RequestGoesOn(s, s.disp.k, s.disp.stage);
    }
  }

  /**
   * Collecting can always be ended: its context can be seen done once, the drain timer can fire from then on and not
   * before, and stop is seen once it has been signaled.
   */
  lemma CollectingEnds(c: Config, s: State)
    requires s.disp.Busy? && s.disp.stage.Collecting?
    ensures Step(c, s, DispatcherL(Done)).Some? <==> !s.disp.stage.canceled
    ensures Step(c, s, DispatcherL(Timeout)).Some? <==> s.disp.stage.canceled
    ensures Step(c, s, DispatcherL(Stop)).Some? <==> s.phase == Signaled || s.phase == Finished
    ensures var t := Step(c, s, DispatcherL(Done));
      t.Some? ==> t.value.disp.Busy? && t.value.disp.stage.Collecting? && t.value.disp.stage.canceled
  {
    hide Take, IsNonce, Own;
  }

  lemma FramesCollect(c: Config, s: State, k: int, got: Collected, heard: seq<Tagged>, canceled: bool)
    ensures CollectStep(c, s, k, got, heard, canceled, Go).Some? <==> s.pipe != []
  {
    hide Take, IsNonce, Own;
  }

  lemma RequestGoesOn(s: State, k: nat, stage: Stage)
    requires k < |s.reqs| && ReqOK(s.reqs[k], Some(stage)) && !stage.Collecting?
    ensures RequestStep(s, k, stage, Go).Some? <==> (stage.Halting? ==> s.phase == Finished)
  {
    hide Honest, Exact;
  }

  /** A request too large for the connection is refused at once: it never waits for a permit. */
  lemma {:induction false} TooLargeRefused(c: Config, s: State, ls: seq<Label>, t: State, k: nat)
    requires Run(c, s, ls) == Some(t) && |s.reqs| <= k < |t.reqs|
    ensures t.reqs[k].weight > c.queuedBytes ==> t.reqs[k].pc == Returned(Failed(NotSent))
    decreases |ls|
  {
    hide CallerStep, DispatcherStep, StopStep, NoNonce, Stray;
    var u := Step(c, s, ls[0]).value;
    if k < |u.reqs| {
      assert ls[0].ArriveL? by { OnlyArrivalsAdd(c, s, ls[0], u); }
      WeightStays(c, u, ls[1..], t, k);
      if u.reqs[k].weight > c.queuedBytes {
        RunReturned(c, u, ls[1..], t, k);
      }
    } else {
      TooLargeRefused(c, u, ls[1..], t, k);
    }
  }

  lemma CallerWeight(c: Config, s: State, j: nat, giveUp: bool, t: State, k: nat)
    requires j < |s.reqs| && CallerStep(c, s, j, giveUp) == Some(t) && k < |s.reqs|
    ensures |t.reqs| == |s.reqs| && t.reqs[k].weight == s.reqs[k].weight
  {
  }

  lemma StepWeight(c: Config, s: State, l: Label, t: State, k: nat)
    requires Step(c, s, l) == Some(t) && k < |s.reqs|
    ensures k < |t.reqs| && t.reqs[k].weight == s.reqs[k].weight
  {
    hide CallerStep, DispatcherStep, NoNonce, Stray;
    match l {
      case CallerL(j, giveUp) => CallerWeight(c, s, j, giveUp, t, k);
      case DispatcherL(choice) => DispatcherPc(c, s, choice, t, k);
      case _ =>
    }
  }

  lemma {:induction false} WeightStays(c: Config, s: State, ls: seq<Label>, t: State, k: nat)
    requires Run(c, s, ls) == Some(t) && k < |s.reqs|
    ensures k < |t.reqs| && t.reqs[k].weight == s.reqs[k].weight
    decreases |ls|
  {
    hide Step;
    if ls != [] {
      var u := Step(c, s, ls[0]).value;
      StepWeight(c, s, ls[0], u, k);
      WeightStays(c, u, ls[1..], t, k);
    }
  }

  lemma OnlyArrivalsAdd(c: Config, s: State, l: Label, t: State)
    requires Step(c, s, l) == Some(t) && |t.reqs| > |s.reqs|
    ensures l.ArriveL?
  {
    hide CallerStep, LoopStep, RequestStep, CollectStep, NoNonce, Stray;
    match l {
      case CallerL(j, giveUp) => CallerCount(c, s, j, giveUp, t);
      case DispatcherL(choice) => DispatcherCount(c, s, choice, t);
      case _ =>
    }
  }

  lemma CallerCount(c: Config, s: State, j: nat, giveUp: bool, t: State)
    requires j < |s.reqs| && CallerStep(c, s, j, giveUp) == Some(t)
    ensures |t.reqs| == |s.reqs|
  {
  }

  lemma DispatcherCount(c: Config, s: State, choice: Choice, t: State)
    requires DispatcherStep(c, s, choice) == Some(t)
    ensures |t.reqs| == |s.reqs|
  {
    hide CollectStep, RequestStep;
    if s.disp.Busy? && s.disp.stage.Collecting? {
      CollectMoves(c, s, s.disp.k, s.disp.stage.got, s.disp.stage.heard, s.disp.stage.canceled, choice, t);
    } else if s.disp.Busy? {
      RequestPc(s, s.disp.k, s.disp.stage, choice, t, s.disp.k);
    }
  }

  /**
   * No deadlock on the way down: in every reachable state whose stop has returned, the dispatcher can take a step until
   * it exits, and so can every caller that has not returned, unless it is about to be served.
   */
  lemma ShutdownProgress(c: Config, ls: seq<Label>, s: State)
    requires Run(c, Init(), ls) == Some(s) && s.phase == Finished
    ensures s.disp.Exited? || Step(c, s, DispatcherL(Stop)).Some? || Step(c, s, DispatcherL(Go)).Some?
    ensures forall k :: 0 <= k < |s.reqs| && !s.reqs[k].pc.Returned? ==>
      Step(c, s, CallerL(k, true)).Some? || (s.reqs[k].pc.Block? && s.disp.Busy? && s.disp.k == k
                                          && s.disp.stage.Deliver? && s.disp.stage.step == 3)
  {
    hide ReqOK, PermitsOK, WireOK, RequestStep, CollectStep, Own;
    InitOK(c);
    RunKeeps(c, Init(), ls, s);
    if s.disp.Busy? && 0 <= s.disp.k < |s.reqs| {
      RequestOf(c, s, s.disp.k);
      if s.disp.stage.Collecting? {
        StopsCollecting(c, s);
      } else {
        RequestProgress(s, s.disp.k, s.disp.stage);
      }
    } else if s.disp.Busy? {
      StopsCollecting(c, s);
    }
    forall k | 0 <= k < |s.reqs| && !s.reqs[k].pc.Returned?
      ensures Step(c, s, CallerL(k, true)).Some? || (s.reqs[k].pc.Block? && s.reqs[k].slot.None?)
    {
    }
    forall k | 0 <= k < |s.reqs| {
      ResultNeverBlocks(c, ls, s, k);
    }
  }

  /** How many steps of its own a caller that gives up can still take. */
  function StepsLeft(pc: CallerPc): nat {
    match pc
    case AcquireCount => 1
    case AcquireBytes => 1
    case Enqueue => 8
    case FailBytes => 2
    case FailCount => 1
    case Waiting => 7
    case Load(second) => if second then 3 else 6
    case Try(second) => if second then 2 else 5
    case Swap => 4
    case Block => 1
    case Returned(_) => 0
  }

  lemma AcquirerEnds(c: Config, s: State, k: nat, t: State)
    requires k < |s.reqs| && CallerStep(c, s, k, true) == Some(t) && Acquiring(s.reqs[k].pc)
    ensures |t.reqs| == |s.reqs| && StepsLeft(t.reqs[k].pc) < StepsLeft(s.reqs[k].pc)
  {
  }

  lemma WaiterEnds(c: Config, s: State, k: nat, t: State)
    requires k < |s.reqs| && CallerStep(c, s, k, true) == Some(t) && !Acquiring(s.reqs[k].pc)
    ensures |t.reqs| == |s.reqs| && StepsLeft(t.reqs[k].pc) < StepsLeft(s.reqs[k].pc)
  {
  }

  /** A caller that gives up comes closer to its end with each of its steps, so at most eight of them are left to it. */
  lemma GivingUpEnds(c: Config, s: State, k: nat, t: State)
    requires Step(c, s, CallerL(k, true)) == Some(t)
    ensures k < |s.reqs| == |t.reqs| && StepsLeft(t.reqs[k].pc) < StepsLeft(s.reqs[k].pc) <= 8
  {
    hide CallerStep;
    if Acquiring(s.reqs[k].pc) {
      AcquirerEnds(c, s, k, t);
    } else {
      WaiterEnds(c, s, k, t);
    }
  }

  lemma RequestProgress(s: State, k: nat, stage: Stage)
    requires k < |s.reqs| && ReqOK(s.reqs[k], Some(stage)) && s.phase == Finished && !stage.Collecting?
    ensures RequestStep(s, k, stage, Go).Some?
  {
    hide Honest, Exact;
  }

  lemma StopsCollecting(c: Config, s: State)
    requires s.disp.Busy? && s.disp.stage.Collecting? && s.phase == Finished
    ensures DispatcherStep(c, s, Stop).Some?
  {
  }
}
