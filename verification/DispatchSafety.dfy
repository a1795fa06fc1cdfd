/** Inductive invariants of the request protocol, and what they give over every run. */
module DispatchSafety {
  import opened Bytes
  import opened Collector
  import opened Dispatch

  // --- One request ---------------------------------------------------------------------------------

  /** What dispatcher d is doing with request k. */
  function View(d: Dispatcher, k: int): Option<Stage> {
    if d.Busy? && d.k == k then Some(d.stage) else None
  }

  /** Not a byte written, no result sent. */
  predicate Untouched(r: Req) {
    r.trail == UNTRODDEN
  }

  /** A report that tells the truth about r, now and in every later state. */
  ghost predicate Honest(r: Req, p: Report) {
    && p.seen <= |r.trail.answers|
    && p.stdout == First(r.out, OutOf(r.trail.answers[..p.seen]))
    && p.stderr == First(r.err, ErrOf(r.trail.answers[..p.seen], false))
    && (p.effect == NotSent ==> Untouched(r))
    && (p.effect == Confirmed ==> r.trail.nonceSeen && p.seen == |r.trail.answers|)
    && (p.effect == Confirmed ==> AllFine(r.trail.answers) && |OutOf(r.trail.answers)| <= r.out)
  }

  ghost predicate AllFine(fs: seq<Frame>) {
    forall i :: 0 <= i < |fs| ==> Fine(fs[i])
  }

  predicate Acquiring(pc: CallerPc) {
    pc.AcquireCount? || pc.AcquireBytes? || pc.Enqueue? || pc.FailBytes? || pc.FailCount?
  }

  predicate Second(pc: CallerPc) {
    (pc.Load? || pc.Try?) && pc.second
  }

  /** Enqueued and not yet past the dispatcher's compare-and-swap. */
  predicate Parked(r: Req) {
    && Untouched(r)
    && (r.state == Queued || r.state == Canceled)
    && !r.pc.Block? && !Second(r.pc)
    && (r.state == Canceled <==> r.pc.Returned?)
    && (r.pc.Returned? ==> r.pc.report == Failed(NotSent))
  }

  ghost predicate Calm(heard: seq<Tagged>) {
    forall i :: 0 <= i < |heard| ==> Fine(heard[i].frame)
  }

  /**
   * What was collected from the frames heard so far: the output of r's own ones, and no failure exactly when every one,
   * own or stray, was fine, nothing was cut, and the request's context was not seen done.
   */
  ghost predicate Gathered(r: Req, got: Collected, heard: seq<Tagged>, canceled: bool) {
    && Own(heard) <= r.trail.answers
    && got.stdout == First(r.out, OutOf(Own(heard)))
    && got.stderr == First(r.err, ErrOf(Own(heard), false))
    && (got.failure == [] <==> !canceled && Calm(heard) && |OutOf(Own(heard))| <= r.out)
  }

  /** A result sent after the nonce frame: confirmed exactly when nothing heard by then spoke against it. */
  ghost predicate Exact(r: Req, p: Report) {
    r.trail.nonceSeen ==>
      && r.trail.answers == Own(r.trail.heard)
      && (p.effect == Confirmed <==> !r.trail.canceled && Calm(r.trail.heard) && |OutOf(r.trail.answers)| <= r.out)
  }

  predicate Running(r: Req, lines: nat) {
    && r.state == InFlight && r.trail.touched && r.trail.lines == lines && !r.trail.nonceSeen && !r.pc.Block?
    && (r.pc.Returned? ==> r.pc.report == Failed(Unknown))
  }

  ghost predicate StageOK(r: Req, stage: Stage) {
    match stage
    case Chosen => Parked(r)
    case CheckDone => Parked(r)
    case SwapState => Parked(r)
    case Build =>
      r.state == InFlight && Untouched(r) && !r.pc.Block? && (r.pc.Returned? ==> r.pc.report == Failed(Unknown))
    case Writing(line) => line <= 2 && Running(r, line)
    case Collecting(got, heard, canceled) => Running(r, 2) && Gathered(r, got, heard, canceled)
    case Halting(report, _) => Running(r, r.trail.lines) && Honest(r, report) && report.effect == Unknown
    case Deliver(report, step, _) =>
      && step <= 3
      && Honest(r, report) && Exact(r, report)
      && (r.state == Delivered <==> step == 3)
      && (r.pc.Block? ==> step == 3)
      && (r.state == Queued || r.state == Canceled ==> Parked(r))
      && (r.pc.Returned? ==> Honest(r, r.pc.report) && r.pc.report.effect != Confirmed)
  }

  predicate ReleasesBytes(v: Option<Stage>) { v.Some? && v.value.Deliver? && v.value.step >= 1 }
  predicate ReleasesCount(v: Option<Stage>) { v.Some? && v.value.Deliver? && v.value.step >= 2 }

  ghost predicate ReqOK(r: Req, v: Option<Stage>) {
    && (r.holdsCount <==> r.pc.AcquireBytes? || r.pc.Enqueue? || r.pc.FailBytes? || r.pc.FailCount?
                          || r.place == InQueue || (r.place == Taken && !ReleasesCount(v)))
    && (r.holdsBytes <==> r.pc.Enqueue? || r.pc.FailBytes?
                          || r.place == InQueue || (r.place == Taken && !ReleasesBytes(v)))
    && (r.trail.nonceSeen ==> r.trail.touched && r.trail.lines == 2)
    && (r.trail.answers != [] ==> r.trail.touched)
    && (r.trail.touched ==> r.state == InFlight || r.state == Delivered)
    && r.sends == (if r.place == Settled then 1 else 0)
    && (r.sent.Some? <==> r.place == Settled)
    && (v.Some? <==> r.place == Taken)
    && (r.place != Settled ==> r.slot.None?)
    && PlaceOK(r, v)
  }

  ghost predicate PlaceOK(r: Req, v: Option<Stage>) {
    match r.place
    case Outside => Untouched(r) && r.state == Queued && (Acquiring(r.pc) || r.pc == Returned(Failed(NotSent)))
    case InQueue => Parked(r) && !Acquiring(r.pc)
    case Taken => !Acquiring(r.pc) && v.Some? && StageOK(r, v.value)
    case Settled =>
      && !Acquiring(r.pc) && r.state == Delivered
      && r.sent.Some? && Honest(r, r.sent.value) && Exact(r, r.sent.value)
      && (r.slot.Some? ==> r.slot == r.sent)
      && (r.slot.None? ==> r.pc.Returned?)
      && (r.pc.Returned? ==> Honest(r, r.pc.report))
      && (r.pc.Returned? && r.pc.report.effect == Confirmed ==> r.sent == Some(r.pc.report))
  }

  lemma FailedHonest(r: Req, effect: Effect)
    requires effect != Confirmed && (effect == NotSent ==> Untouched(r))
    ensures Honest(r, Failed(effect))
  {
    assert r.trail.answers[..0] == [];
  }

  predicate SameTrail(r: Req, r2: Req) {
    r2.out == r.out && r2.err == r.err && r2.trail == r.trail
  }

  lemma TrailKeeps(r: Req, r2: Req)
    requires SameTrail(r, r2)
    ensures forall p :: Honest(r, p) == Honest(r2, p)
    ensures forall p :: Exact(r, p) == Exact(r2, p)
    ensures forall got, heard, canceled :: Gathered(r, got, heard, canceled) == Gathered(r2, got, heard, canceled)
  {
  }

  lemma EarlyLocal(c: Config, s: State, k: nat, giveUp: bool, t: State)
    requires k < |s.reqs| && ReqOK(s.reqs[k], View(s.disp, k)) && CallerStep(c, s, k, giveUp) == Some(t)
    requires Acquiring(s.reqs[k].pc)
    ensures |t.reqs| == |s.reqs| && t.reqs == s.reqs[k := t.reqs[k]] && t.disp == s.disp
    ensures SameTrail(s.reqs[k], t.reqs[k])
    ensures ReqOK(t.reqs[k], View(t.disp, k))
  {
    hide StageOK, Gathered;
    FailedHonest(s.reqs[k], NotSent);
  }

  lemma WaitingLocal(c: Config, s: State, k: nat, giveUp: bool, t: State)
    requires k < |s.reqs| && ReqOK(s.reqs[k], View(s.disp, k)) && CallerStep(c, s, k, giveUp) == Some(t)
    requires s.reqs[k].pc.Waiting? || s.reqs[k].pc.Load?
    ensures |t.reqs| == |s.reqs| && t.reqs == s.reqs[k := t.reqs[k]] && t.disp == s.disp
    ensures SameTrail(s.reqs[k], t.reqs[k])
    ensures ReqOK(t.reqs[k], View(t.disp, k))
  {
    hide Honest, Exact, Gathered;
    TrailKeeps(s.reqs[k], t.reqs[k]);
  }

  lemma TakeLocal(c: Config, s: State, k: nat, giveUp: bool, t: State)
    requires k < |s.reqs| && ReqOK(s.reqs[k], View(s.disp, k)) && CallerStep(c, s, k, giveUp) == Some(t)
    requires s.reqs[k].pc.Block? || (s.reqs[k].pc.Try? && s.reqs[k].slot.Some?)
    ensures |t.reqs| == |s.reqs| && t.reqs == s.reqs[k := t.reqs[k]] && t.disp == s.disp
    ensures SameTrail(s.reqs[k], t.reqs[k])
    ensures ReqOK(t.reqs[k], View(t.disp, k))
  {
    hide Honest, Exact, Gathered;
    TrailKeeps(s.reqs[k], t.reqs[k]);
  }

  lemma GiveUpLocal(c: Config, s: State, k: nat, giveUp: bool, t: State)
    requires k < |s.reqs| && ReqOK(s.reqs[k], View(s.disp, k)) && CallerStep(c, s, k, giveUp) == Some(t)
    requires s.reqs[k].pc.Try? && s.reqs[k].slot.None?
    ensures |t.reqs| == |s.reqs| && t.reqs == s.reqs[k := t.reqs[k]] && t.disp == s.disp
    ensures SameTrail(s.reqs[k], t.reqs[k])
    ensures ReqOK(t.reqs[k], View(t.disp, k))
  {
    hide Honest, Exact, Gathered;
    TrailKeeps(s.reqs[k], t.reqs[k]);
    FailedHonest(s.reqs[k], Unknown);
  }

  lemma SwapLocal(c: Config, s: State, k: nat, giveUp: bool, t: State)
    requires k < |s.reqs| && ReqOK(s.reqs[k], View(s.disp, k)) && CallerStep(c, s, k, giveUp) == Some(t)
    requires s.reqs[k].pc.Swap?
    ensures |t.reqs| == |s.reqs| && t.reqs == s.reqs[k := t.reqs[k]] && t.disp == s.disp
    ensures SameTrail(s.reqs[k], t.reqs[k])
    ensures ReqOK(t.reqs[k], View(t.disp, k))
  {
    hide Honest, Exact, Gathered;
    var r := s.reqs[k];
    TrailKeeps(r, t.reqs[k]);
    if Untouched(r) {
      FailedHonest(r, NotSent);
    }
  }

  /** Where the caller may still be when it takes a step. */
  lemma AwakeCaller(c: Config, s: State, k: nat, giveUp: bool, t: State)
    requires k < |s.reqs| && CallerStep(c, s, k, giveUp) == Some(t)
    ensures var pc := s.reqs[k].pc;
      Acquiring(pc) || pc.Waiting? || pc.Load? || pc.Try? || pc.Swap? || pc.Block?
  {
  }

  lemma CallerLocal(c: Config, s: State, k: nat, giveUp: bool, t: State)
    requires k < |s.reqs| && ReqOK(s.reqs[k], View(s.disp, k)) && CallerStep(c, s, k, giveUp) == Some(t)
    ensures |t.reqs| == |s.reqs| && t.reqs == s.reqs[k := t.reqs[k]] && t.disp == s.disp
    ensures SameTrail(s.reqs[k], t.reqs[k])
    ensures ReqOK(t.reqs[k], View(t.disp, k))
  {
    hide *;
    if Acquiring(s.reqs[k].pc) {
      EarlyLocal(c, s, k, giveUp, t);
    } else if s.reqs[k].pc.Waiting? || s.reqs[k].pc.Load? {
      WaitingLocal(c, s, k, giveUp, t);
    } else if s.reqs[k].pc.Swap? {
      SwapLocal(c, s, k, giveUp, t);
    } else if s.reqs[k].pc.Try? && s.reqs[k].slot.None? {
      GiveUpLocal(c, s, k, giveUp, t);
    } else {
      AwakeCaller(c, s, k, giveUp, t);
      TakeLocal(c, s, k, giveUp, t);
    }
  }

  lemma RequestLocal(c: Config, s: State, k: nat, stage: Stage, choice: Choice, t: State)
    requires k < |s.reqs| && s.disp == Busy(k, stage) && ReqOK(s.reqs[k], Some(stage))
    requires RequestStep(s, k, stage, choice) == Some(t)
    ensures |t.reqs| == |s.reqs| && t.reqs == s.reqs[k := t.reqs[k]] && (t.disp.Busy? ==> t.disp.k == k)
    ensures ReqOK(t.reqs[k], View(t.disp, k))
  {
    hide *;
    if stage.Deliver? && stage.step < 2 {
      ReleaseLocal(c, s, k, stage, choice, t);
    } else if stage.Deliver? {
      SendLocal(c, s, k, stage, choice, t);
    } else if stage.Writing? || stage.Halting? {
      WriteLocal(c, s, k, stage, choice, t);
    } else {
      ChooseLocal(c, s, k, stage, choice, t);
    }
  }

  lemma ReleaseLocal(c: Config, s: State, k: nat, stage: Stage, choice: Choice, t: State)
    requires k < |s.reqs| && s.disp == Busy(k, stage) && ReqOK(s.reqs[k], Some(stage)) && stage.Deliver?
    requires stage.step < 2
    requires RequestStep(s, k, stage, choice) == Some(t)
    ensures |t.reqs| == |s.reqs| && t.reqs == s.reqs[k := t.reqs[k]] && (t.disp.Busy? ==> t.disp.k == k)
    ensures ReqOK(t.reqs[k], View(t.disp, k))
  {
    hide Honest, Exact, Gathered;
    TrailKeeps(s.reqs[k], t.reqs[k]);
  }

  lemma SendLocal(c: Config, s: State, k: nat, stage: Stage, choice: Choice, t: State)
    requires k < |s.reqs| && s.disp == Busy(k, stage) && ReqOK(s.reqs[k], Some(stage)) && stage.Deliver?
    requires stage.step >= 2
    requires RequestStep(s, k, stage, choice) == Some(t)
    ensures |t.reqs| == |s.reqs| && t.reqs == s.reqs[k := t.reqs[k]] && (t.disp.Busy? ==> t.disp.k == k)
    ensures ReqOK(t.reqs[k], View(t.disp, k))
  {
    hide Honest, Exact, Gathered;
    TrailKeeps(s.reqs[k], t.reqs[k]);
  }

  lemma WriteLocal(c: Config, s: State, k: nat, stage: Stage, choice: Choice, t: State)
    requires k < |s.reqs| && s.disp == Busy(k, stage) && ReqOK(s.reqs[k], Some(stage))
    requires (stage.Writing? || stage.Halting?)
    requires RequestStep(s, k, stage, choice) == Some(t)
    ensures |t.reqs| == |s.reqs| && t.reqs == s.reqs[k := t.reqs[k]] && (t.disp.Busy? ==> t.disp.k == k)
    ensures ReqOK(t.reqs[k], View(t.disp, k))
  {
    hide Honest;
    FailedHonest(s.reqs[k], Unknown);
  }

  lemma ChooseLocal(c: Config, s: State, k: nat, stage: Stage, choice: Choice, t: State)
    requires k < |s.reqs| && s.disp == Busy(k, stage) && ReqOK(s.reqs[k], Some(stage))
    requires !stage.Deliver? && !stage.Writing? && !stage.Halting?
    requires RequestStep(s, k, stage, choice) == Some(t)
    ensures |t.reqs| == |s.reqs| && t.reqs == s.reqs[k := t.reqs[k]] && (t.disp.Busy? ==> t.disp.k == k)
    ensures ReqOK(t.reqs[k], View(t.disp, k))
  {
    hide Honest, Exact, Gathered;
    var r := s.reqs[k];
    if Untouched(r) {
      FailedHonest(r, NotSent);
      Unseen(r, Failed(NotSent));
    }
    FailedHonest(r, Unknown);
  }

  /** One frame more in what was gathered: its own frames count, others can only add an error. */
  lemma GatherNext(r: Req, got: Collected, heard: seq<Tagged>, canceled: bool, f: Tagged)
    requires Gathered(r, got, heard, canceled)
    requires if f.origin.Answer? then Own(heard) + [f.frame] <= r.trail.answers else Stray(f.frame)
    ensures Gathered(r, Take(got, f.frame, Limits(r.out, r.err, false)), heard + [f], canceled)
  {
    hide LibraryOutput, OutOf, ErrOf, Own;
    OwnSnoc(heard, f);
    CalmNext(heard, f);
    NextFrame(Own(heard), f.frame, false);
    FirstAppend(r.out, OutOf(Own(heard)), f.frame.data);
    FirstAppend(r.err, ErrOf(Own(heard), false), f.frame.data);
    assert |got.stdout| <= r.out && |got.stderr| <= r.err;
  }

  lemma CalmNext(heard: seq<Tagged>, f: Tagged)
    ensures Calm(heard + [f]) <==> Calm(heard) && Fine(f.frame)
  {
    hide Fine;
    var all := heard + [f];
    assert all[|heard|] == f && forall i :: 0 <= i < |heard| ==> heard[i] == all[i];
    assert forall i :: 0 <= i < |all| ==> all[i] == if i < |heard| then heard[i] else f;
  }

  /** A list with one frame more. */
  lemma OwnSnoc(tags: seq<Tagged>, t: Tagged)
    ensures Own(tags + [t]) == if t.origin.Answer? then Own(tags) + [t.frame] else Own(tags)
  {
    assert (tags + [t])[..|tags|] == tags;
    assert Own(tags) + [] == Own(tags);
  }

  lemma {:induction false} CalmOwn(heard: seq<Tagged>)
    requires Calm(heard)
    ensures AllFine(Own(heard))
  {
    if heard != [] {
      CalmOwn(heard[..|heard| - 1]);
    }
  }

  /** A report made of what was gathered. */
  lemma GatheredHonest(r: Req, got: Collected, heard: seq<Tagged>, canceled: bool)
    requires Gathered(r, got, heard, canceled)
    ensures Honest(r, Report(Unknown, got.stdout, got.stderr, |Own(heard)|))
    ensures got.failure == [] && Own(heard) == r.trail.answers && r.trail.nonceSeen ==>
      Honest(r, Report(Confirmed, got.stdout, got.stderr, |Own(heard)|))
  {
    assert r.trail.answers[..|Own(heard)|] == Own(heard);
    if got.failure == [] {
      CalmOwn(heard);
    }
  }

  /** tmux's further frames for a request without its nonce take nothing back. */
  lemma AnswerLocal(r: Req, f: Frame, v: Option<Stage>)
    requires ReqOK(r, v) && r.trail.touched && !r.trail.nonceSeen
    ensures ReqOK(Answers(r, f), v)
  {
    var r2 := Answers(r, f);
    assert forall n: nat :: n <= |r.trail.answers| ==> r2.trail.answers[..n] == r.trail.answers[..n];
    assert forall p :: Honest(r, p) ==> Honest(r2, p);
  }

  // --- All requests ----------------------------------------------------------------------------------

  ghost predicate Locals(s: State) {
    forall k :: 0 <= k < |s.reqs| ==> ReqOK(s.reqs[k], View(s.disp, k))
  }

  predicate Drains(d: Dispatcher) {
    d.Draining? || d.Exited? || (d.Busy? && d.stage.Deliver? && d.stage.next.ToDrain?)
  }

  predicate DispOK(s: State) {
    && (s.disp.Busy? ==> 0 <= s.disp.k < |s.reqs| || (s.disp.k == STARTUP && s.disp.stage.Collecting?))
    && (s.disp.Busy? && s.disp.stage.Halting? ==> !s.disp.stage.next.ToDrain?)
    && (Drains(s.disp) ==> s.phase == Finished)
    && (s.disp.Exited? ==> s.queue == [])
  }

  predicate OnlyOwner(d: Dispatcher, k: int) {
    d.Busy? ==> d.k == k
  }

  /** A step that changes one request and moves the dispatcher, if at all, to or from that request. */
  lemma LocalsKeep(s: State, t: State, k: nat)
    requires Locals(s) && k < |s.reqs| == |t.reqs| && t.reqs == s.reqs[k := t.reqs[k]]
    requires t.disp == s.disp || (OnlyOwner(s.disp, k) && OnlyOwner(t.disp, k))
    requires ReqOK(t.reqs[k], View(t.disp, k))
    ensures Locals(t)
  {
    hide ReqOK;
    forall j | 0 <= j < |t.reqs| ensures ReqOK(t.reqs[j], View(t.disp, j)) {
      assert ReqOK(s.reqs[j], View(s.disp, j));
      if j != k {
        assert View(t.disp, j) == View(s.disp, j);
      }
    }
  }

  // --- The queue and the semaphores --------------------------------------------------------------------

  datatype Kind = Counts | Weighs | Queues

  function Share(r: Req, kind: Kind): nat {
    match kind
    case Counts => if r.holdsCount then 1 else 0
    case Weighs => if r.holdsBytes then r.weight else 0
    case Queues => if r.place == InQueue then 1 else 0
  }

  function Sum(rs: seq<Req>, kind: Kind): nat {
    if rs == [] then 0 else Sum(rs[..|rs| - 1], kind) + Share(rs[|rs| - 1], kind)
  }

  lemma {:induction false} SumSet(rs: seq<Req>, k: nat, r: Req, kind: Kind)
    requires k < |rs|
    ensures Sum(rs[k := r], kind) == Sum(rs, kind) - Share(rs[k], kind) + Share(r, kind)
    ensures Sum(rs, kind) >= Share(rs[k], kind)
  {
    var init := rs[..|rs| - 1];
    if k == |rs| - 1 {
      assert rs[k := r][..|rs| - 1] == init;
    } else {
      assert rs[k := r][..|rs| - 1] == init[k := r];
      SumSet(init, k, r, kind);
    }
  }

  /** Everything queued holds a count. */
  lemma {:induction false} QueuedHold(rs: seq<Req>)
    requires forall k :: 0 <= k < |rs| && rs[k].place == InQueue ==> rs[k].holdsCount
    ensures Sum(rs, Queues) <= Sum(rs, Counts)
  {
    if rs != [] {
      QueuedHold(rs[..|rs| - 1]);
    }
  }

  predicate QueueOK(s: State) {
    && (forall i :: 0 <= i < |s.queue| ==> s.queue[i] < |s.reqs| && s.reqs[s.queue[i]].place == InQueue)
    && (forall i, j :: 0 <= i < j < |s.queue| ==> s.queue[i] != s.queue[j])
    && |s.queue| == Sum(s.reqs, Queues)
  }

  predicate PermitsOK(c: Config, s: State) {
    && s.count == Sum(s.reqs, Counts) && s.count <= c.depth
    && s.weight == Sum(s.reqs, Weighs) && s.weight <= c.queuedBytes
  }

  // --- The wire ----------------------------------------------------------------------------------------

  /** Nothing from any request is on its way. */
  predicate Clean(s: State) {
    s.lines == [] && forall i :: 0 <= i < |s.pipe| ==> s.pipe[i].origin == Unsolicited
  }

  ghost predicate TaggedOK(c: Config, t: Tagged) {
    match t.origin
    case Unsolicited => Stray(t.frame) && NoNonce(c, t.frame)
    case Answer(_) => NoNonce(c, t.frame)
    case NonceOf(k) => IsNonce(t.frame, c.nonce(k))
  }

  predicate LineOK(s: State, l: Line) {
    l.owner == STARTUP || (0 <= l.owner < |s.reqs| && s.reqs[l.owner].trail.touched && !s.reqs[l.owner].trail.nonceSeen)
  }

  /** What tmux still has to do of the first written lines of k. */
  predicate LinesOf(lines: seq<Line>, k: int, written: nat) {
    || lines == []
    || (written >= 1 && lines == [Line(k, false)])
    || (written == 2 && lines == [Line(k, true)])
    || (written == 2 && lines == [Line(k, false), Line(k, true)])
  }

  predicate From(origin: Origin, k: int) {
    origin == Unsolicited || origin == Answer(k) || origin == NonceOf(k)
  }

  /** Everything on its way is k's or unsolicited, and k's nonce comes last. */
  predicate InOrder(s: State, k: int, written: nat) {
    && LinesOf(s.lines, k, written)
    && (forall i :: 0 <= i < |s.pipe| ==> From(s.pipe[i].origin, k))
    && (forall i :: 0 <= i < |s.pipe| && s.pipe[i].origin.NonceOf? ==> written == 2 && s.lines == [])
    && (forall i, j :: 0 <= i < j < |s.pipe| && s.pipe[i].origin.NonceOf? ==> s.pipe[j].origin == Unsolicited)
  }

  /** k's frames are those already taken and those on their way. */
  predicate Mine(s: State, k: int, written: nat, taken: seq<Frame>) {
    InOrder(s, k, written) && (0 <= k < |s.reqs| ==> s.reqs[k].trail.answers == taken + Own(s.pipe))
  }

  predicate Turn(s: State) {
    match s.disp
    case Busy(k, stage) =>
      (match stage
       case Writing(line) => Mine(s, k, line, [])
       case Collecting(_, heard, _) => Mine(s, k, 2, Own(heard))
       case CheckDone => Clean(s)
       case SwapState => Clean(s)
       case Build => Clean(s)
       case Halting(_, _) => true
       case _ => s.phase == Open ==> Clean(s))
    case Idle => s.phase == Open ==> Clean(s)
    case _ => true
  }

  ghost predicate WireOK(c: Config, s: State) {
    && (forall i :: 0 <= i < |s.pipe| ==> TaggedOK(c, s.pipe[i]))
    && (forall i :: 0 <= i < |s.lines| ==> LineOK(s, s.lines[i]))
    && Turn(s)
  }

  ghost predicate Inv(c: Config, s: State) {
    Locals(s) && DispOK(s) && QueueOK(s) && PermitsOK(c, s) && WireOK(c, s)
  }

  // --- Callers keep the invariants ---------------------------------------------------------------------

  /** What a caller holds before it has enqueued its request. */
  lemma EarlyHolds(r: Req, v: Option<Stage>)
    requires ReqOK(r, v)
    ensures Acquiring(r.pc) ==> r.place == Outside
    ensures r.pc.AcquireCount? ==> !r.holdsCount && !r.holdsBytes
    ensures r.pc.AcquireBytes? ==> r.holdsCount && !r.holdsBytes
    ensures r.pc.Enqueue? || r.pc.FailBytes? ==> r.holdsCount && r.holdsBytes
    ensures r.pc.FailCount? ==> r.holdsCount && !r.holdsBytes
    ensures r.place == InQueue ==> r.holdsCount && r.holdsBytes
  {
    hide StageOK, Honest, Parked, Untouched;
  }

  lemma LateStep(c: Config, s: State, k: nat, giveUp: bool, t: State)
    requires k < |s.reqs| && CallerStep(c, s, k, giveUp) == Some(t) && !Acquiring(s.reqs[k].pc)
    ensures |t.reqs| == |s.reqs| && t.count == s.count && t.weight == s.weight
    ensures var r, r2 := s.reqs[k], t.reqs[k]; r2 == r.(pc := r2.pc, state := r2.state, slot := r2.slot)
  {
  }

  /** Once it has enqueued, a caller moves no permit. */
  lemma LateDelta(c: Config, s: State, k: nat, giveUp: bool, t: State)
    requires k < |s.reqs| && CallerStep(c, s, k, giveUp) == Some(t) && !Acquiring(s.reqs[k].pc)
    ensures |t.reqs| == |s.reqs| && t.count == s.count && t.weight == s.weight
    ensures Share(t.reqs[k], Counts) == Share(s.reqs[k], Counts) && Share(t.reqs[k], Weighs) == Share(s.reqs[k], Weighs)
  {
    hide CallerStep, Acquiring;
    LateStep(c, s, k, giveUp, t);
  }

  lemma EarlyDelta(c: Config, s: State, k: nat, giveUp: bool, t: State)
    requires k < |s.reqs| && ReqOK(s.reqs[k], View(s.disp, k)) && CallerStep(c, s, k, giveUp) == Some(t)
    requires Acquiring(s.reqs[k].pc)
    ensures |t.reqs| == |s.reqs|
    ensures t.count == s.count - Share(s.reqs[k], Counts) + Share(t.reqs[k], Counts)
    ensures t.weight == s.weight - Share(s.reqs[k], Weighs) + Share(t.reqs[k], Weighs)
    ensures t.count <= s.count || t.count <= c.depth
    ensures t.weight <= s.weight || t.weight <= c.queuedBytes
  {
    hide ReqOK, View;
    EarlyHolds(s.reqs[k], View(s.disp, k));
  }

  /** The semaphores move with what caller k holds. */
  lemma CallerDelta(c: Config, s: State, k: nat, giveUp: bool, t: State)
    requires k < |s.reqs| && ReqOK(s.reqs[k], View(s.disp, k)) && CallerStep(c, s, k, giveUp) == Some(t)
    ensures |t.reqs| == |s.reqs|
    ensures t.count == s.count - Share(s.reqs[k], Counts) + Share(t.reqs[k], Counts)
    ensures t.weight == s.weight - Share(s.reqs[k], Weighs) + Share(t.reqs[k], Weighs)
    ensures t.count <= s.count || t.count <= c.depth
    ensures t.weight <= s.weight || t.weight <= c.queuedBytes
  {
    hide *;
    if Acquiring(s.reqs[k].pc) {
      EarlyDelta(c, s, k, giveUp, t);
    } else {
      LateDelta(c, s, k, giveUp, t);
    }
  }

  lemma CallerQueues(c: Config, s: State, k: nat, giveUp: bool, t: State)
    requires k < |s.reqs| && ReqOK(s.reqs[k], View(s.disp, k)) && CallerStep(c, s, k, giveUp) == Some(t)
    ensures |t.reqs| == |s.reqs|
    ensures (t.queue == s.queue && t.reqs[k].place == s.reqs[k].place)
         || (t.queue == s.queue + [k] && s.reqs[k].place == Outside && t.reqs[k].place == InQueue)
  {
    hide ReqOK, View;
    EarlyHolds(s.reqs[k], View(s.disp, k));
  }

  lemma CallerPermits(c: Config, s: State, k: nat, giveUp: bool, t: State)
    requires PermitsOK(c, s) && k < |s.reqs| == |t.reqs| && ReqOK(s.reqs[k], View(s.disp, k))
    requires CallerStep(c, s, k, giveUp) == Some(t) && t.reqs == s.reqs[k := t.reqs[k]]
    ensures PermitsOK(c, t)
  {
    hide ReqOK, CallerStep, View, Share;
    CallerDelta(c, s, k, giveUp, t);
    SumSet(s.reqs, k, t.reqs[k], Counts);
    SumSet(s.reqs, k, t.reqs[k], Weighs);
  }

  lemma CallerQueue(c: Config, s: State, k: nat, giveUp: bool, t: State)
    requires QueueOK(s) && k < |s.reqs| == |t.reqs| && ReqOK(s.reqs[k], View(s.disp, k))
    requires CallerStep(c, s, k, giveUp) == Some(t) && t.reqs == s.reqs[k := t.reqs[k]]
    ensures QueueOK(t)
  {
    hide ReqOK, CallerStep, View;
    CallerQueues(c, s, k, giveUp, t);
    SumSet(s.reqs, k, t.reqs[k], Queues);
  }

  /** A step that only adds requests, or moves callers, leaves the wire as it was. */
  lemma WireKeeps(c: Config, s: State, t: State)
    requires WireOK(c, s) && t.lines == s.lines && t.pipe == s.pipe && t.disp == s.disp
    requires t.phase == s.phase || t.phase != Open
    requires |t.reqs| >= |s.reqs| && forall k :: 0 <= k < |s.reqs| ==> SameTrail(s.reqs[k], t.reqs[k])
    requires DispOK(s)
    ensures WireOK(c, t)
  {
    forall i | 0 <= i < |t.lines| ensures LineOK(t, t.lines[i]) {
      assert LineOK(s, s.lines[i]);
    }
  }

  lemma CallerKeeps(c: Config, s: State, k: nat, giveUp: bool, t: State)
    requires Inv(c, s) && k < |s.reqs| && CallerStep(c, s, k, giveUp) == Some(t)
    ensures Inv(c, t)
  {
    hide ReqOK, QueueOK, PermitsOK, WireOK;
    CallerLocal(c, s, k, giveUp, t);
    LocalsKeep(s, t, k);
    CallerPermits(c, s, k, giveUp, t);
    CallerQueue(c, s, k, giveUp, t);
    WireKeeps(c, s, t);
  }

  lemma NewOK(weight: nat, out: nat, err: nat, pc: CallerPc)
    requires pc == AcquireCount || pc == Returned(Failed(NotSent))
    ensures ReqOK(NewRequest(weight, out, err, pc), None)
  {
    hide Honest;
  }

  lemma ArriveKeeps(c: Config, s: State, weight: nat, out: nat, err: nat)
    requires Inv(c, s)
    ensures Inv(c, Arrive(c, s, weight, out, err))
  {
    hide QueueOK, WireOK, ReqOK;
    var t := Arrive(c, s, weight, out, err);
    var n := |s.reqs|;
    assert t.reqs[..n] == s.reqs;
    QueueArrive(s, t);
    WireKeeps(c, s, t);
    NewOK(weight, out, err, t.reqs[n].pc);
    forall k | 0 <= k < |t.reqs| ensures ReqOK(t.reqs[k], View(t.disp, k)) {
      if k < n {
        assert ReqOK(s.reqs[k], View(s.disp, k));
      }
    }
  }

  lemma QueueArrive(s: State, t: State)
    requires QueueOK(s) && t.queue == s.queue && |t.reqs| == |s.reqs| + 1 && t.reqs[..|s.reqs|] == s.reqs
    requires t.reqs[|s.reqs|].place == Outside
    ensures QueueOK(t)
  {
    assert forall k :: 0 <= k < |s.reqs| ==> t.reqs[k] == t.reqs[..|s.reqs|][k];
  }

  // --- The dispatcher keeps the invariants ---------------------------------------------------------------

  lemma HeadLocal(r: Req, stage: Stage)
    requires ReqOK(r, None) && r.place == InQueue
    requires stage == Chosen || stage == Deliver(Failed(NotSent), 0, ToDrain)
    ensures ReqOK(r.(place := Taken), Some(stage))
  {
    FailedHonest(r, NotSent);
  }

  lemma HeadQueue(s: State, t: State, k: nat)
    requires QueueOK(s) && s.queue != [] && k == s.queue[0] && t.queue == s.queue[1..]
    requires k < |s.reqs| && t.reqs == s.reqs[k := s.reqs[k].(place := Taken)]
    ensures QueueOK(t)
  {
    SumSet(s.reqs, k, t.reqs[k], Queues);
    forall i | 0 <= i < |t.queue| ensures t.queue[i] < |t.reqs| && t.reqs[t.queue[i]].place == InQueue {
      assert t.queue[i] == s.queue[i + 1] && s.queue[0] != s.queue[i + 1];
    }
    assert forall i, j :: 0 <= i < j < |t.queue| ==> t.queue[i] == s.queue[i + 1] && t.queue[j] == s.queue[j + 1];
  }

  lemma HeadKeeps(c: Config, s: State, stage: Stage)
    requires Inv(c, s) && s.queue != [] && !s.disp.Busy? && !s.disp.Exited?
    requires (stage == Chosen && s.disp.Idle?) || (stage == Deliver(Failed(NotSent), 0, ToDrain) && s.phase == Finished)
    ensures s.queue[0] < |s.reqs| && Inv(c, TakeHead(s, stage))
  {
    hide ReqOK, Locals, PermitsOK, WireOK;
    var k := s.queue[0];
    assert s.queue[0] < |s.reqs| && s.reqs[k].place == InQueue;
    var t := TakeHead(s, stage);
    assert ReqOK(s.reqs[k], View(s.disp, k)) by { RequestOf(c, s, k); }
    HeadLocal(s.reqs[k], stage);
    LocalsKeep(s, t, k);
    HeadQueue(s, t, k);
    HeadPermits(c, s, t, k);
    HeadWire(c, s, t, k);
  }

  lemma HeadPermits(c: Config, s: State, t: State, k: nat)
    requires PermitsOK(c, s) && k < |s.reqs| && t.reqs == s.reqs[k := s.reqs[k].(place := Taken)]
    requires t.count == s.count && t.weight == s.weight
    ensures PermitsOK(c, t)
  {
    SumSet(s.reqs, k, t.reqs[k], Counts);
    SumSet(s.reqs, k, t.reqs[k], Weighs);
  }

  lemma HeadWire(c: Config, s: State, t: State, k: nat)
    requires WireOK(c, s) && (s.disp.Idle? || s.phase != Open) && !s.disp.Busy?
    requires k < |s.reqs| && t.reqs == s.reqs[k := s.reqs[k].(place := Taken)]
    requires t.lines == s.lines && t.pipe == s.pipe && t.phase == s.phase
    requires t.disp.Busy? && (t.disp.stage.Chosen? || t.disp.stage.Deliver?)
    ensures WireOK(c, t)
  {
    hide TaggedOK, Mine;
    LinesKeep(s, t);
  }

  lemma LoopKeeps(c: Config, s: State, choice: Choice, t: State)
    requires Inv(c, s) && LoopStep(s, choice) == Some(t)
    ensures Inv(c, t)
  {
    hide ReqOK;
    if s.disp.Idle? && choice == Go {
      HeadKeeps(c, s, Chosen);
    } else if s.disp.Draining? && s.queue != [] {
      HeadKeeps(c, s, Deliver(Failed(NotSent), 0, ToDrain));
    } else {
      forall k | 0 <= k < |t.reqs| ensures ReqOK(t.reqs[k], View(t.disp, k)) {
        assert ReqOK(s.reqs[k], View(s.disp, k));
      }
      assert forall i :: 0 <= i < |s.lines| ==> LineOK(s, s.lines[i]);
    }
  }

  /** The permits deliver is about to release are held. */
  lemma DeliverHolds(r: Req, v: Option<Stage>)
    requires ReqOK(r, v) && v.Some?
    ensures r.place == Taken
    ensures !ReleasesBytes(v) ==> r.holdsBytes
    ensures !ReleasesCount(v) ==> r.holdsCount
  {
    hide StageOK, Honest;
  }

  lemma RequestDelta(s: State, k: nat, stage: Stage, choice: Choice, t: State)
    requires k < |s.reqs| && ReqOK(s.reqs[k], Some(stage)) && RequestStep(s, k, stage, choice) == Some(t)
    ensures |t.reqs| == |s.reqs|
    ensures t.count == s.count - Share(s.reqs[k], Counts) + Share(t.reqs[k], Counts) <= s.count
    ensures t.weight == s.weight - Share(s.reqs[k], Weighs) + Share(t.reqs[k], Weighs) <= s.weight
  {
    hide ReqOK;
    DeliverHolds(s.reqs[k], Some(stage));
  }

  lemma RequestPermits(c: Config, s: State, k: nat, stage: Stage, choice: Choice, t: State)
    requires PermitsOK(c, s) && k < |s.reqs| == |t.reqs| && ReqOK(s.reqs[k], Some(stage))
    requires RequestStep(s, k, stage, choice) == Some(t) && t.reqs == s.reqs[k := t.reqs[k]]
    ensures PermitsOK(c, t)
  {
    hide ReqOK, RequestStep, Share;
    RequestDelta(s, k, stage, choice, t);
    SumSet(s.reqs, k, t.reqs[k], Counts);
    SumSet(s.reqs, k, t.reqs[k], Weighs);
  }

  lemma QueueKeeps(s: State, t: State, k: nat)
    requires QueueOK(s) && k < |s.reqs| == |t.reqs| && t.reqs == s.reqs[k := t.reqs[k]] && t.queue == s.queue
    requires s.reqs[k].place != InQueue && t.reqs[k].place != InQueue
    ensures QueueOK(t)
  {
    SumSet(s.reqs, k, t.reqs[k], Queues);
  }

  /** A line k's write has just finished, or none. */
  lemma RequestLines(s: State, k: nat, stage: Stage, choice: Choice, t: State)
    requires k < |s.reqs| && ReqOK(s.reqs[k], Some(stage)) && RequestStep(s, k, stage, choice) == Some(t)
    requires forall i :: 0 <= i < |s.lines| ==> LineOK(s, s.lines[i])
    ensures t.pipe == s.pipe && t.phase == s.phase && |t.reqs| == |s.reqs|
    ensures t.lines == s.lines || (stage.Writing? && stage.line < 2 && t.lines == s.lines + [Line(k, stage.line == 1)])
    ensures forall i :: 0 <= i < |t.lines| ==> LineOK(t, t.lines[i])
  {
    hide ReqOK;
    if stage.Writing? {
      WriteParts(s.reqs[k], stage.line);
    }
    forall i | 0 <= i < |t.lines| ensures LineOK(t, t.lines[i]) {
      if i < |s.lines| {
        assert LineOK(s, s.lines[i]);
      }
    }
  }

  /** Before the write, and after it. */
  lemma QuietTurn(s: State, k: nat, stage: Stage, choice: Choice, t: State)
    requires k < |s.reqs| && s.disp == Busy(k, stage) && !stage.Writing? && !stage.Build? && Turn(s)
    requires RequestStep(s, k, stage, choice) == Some(t)
    ensures Turn(t)
  {
    hide Own;
    assert Clean(s) ==> t.lines == s.lines && t.pipe == s.pipe ==> Clean(t);
  }

  lemma BuildTurn(s: State, k: nat, choice: Choice, t: State)
    requires k < |s.reqs| && s.disp == Busy(k, Build) && Turn(s) && ReqOK(s.reqs[k], Some(Build))
    requires RequestStep(s, k, Build, choice) == Some(t)
    ensures Turn(t)
  {
    hide ReqOK;
    BuildParts(s.reqs[k], Build);
    OwnClean(s.pipe);
    assert [] + Own(s.pipe) == [];
  }

  lemma WriteTurn(s: State, k: nat, line: nat, choice: Choice, t: State)
    requires k < |s.reqs| && s.disp == Busy(k, Writing(line)) && line <= 2 && Turn(s)
    requires RequestStep(s, k, Writing(line), choice) == Some(t)
    ensures Turn(t)
  {
    hide Own;
    OwnClean([]);
  }

  lemma RequestWire(c: Config, s: State, k: nat, stage: Stage, choice: Choice, t: State)
    requires WireOK(c, s) && k < |s.reqs| && s.disp == Busy(k, stage) && ReqOK(s.reqs[k], Some(stage))
    requires RequestStep(s, k, stage, choice) == Some(t)
    ensures WireOK(c, t)
  {
    hide ReqOK, Turn, TaggedOK, LineOK, RequestStep;
    RequestLines(s, k, stage, choice, t);
    match stage {
      case Writing(line) =>
        WriteParts(s.reqs[k], line);
        WriteTurn(s, k, line, choice, t);
      case Build => BuildTurn(s, k, choice, t);
      case _ => QuietTurn(s, k, stage, choice, t);
    }
  }

  lemma WriteParts(r: Req, line: nat)
    requires ReqOK(r, Some(Writing(line)))
    ensures Running(r, line) && line <= 2
  {
    hide Honest, Exact, Gathered;
  }

  lemma BuildParts(r: Req, stage: Stage)
    requires ReqOK(r, Some(stage)) && stage.Build?
    ensures Untouched(r)
  {
    hide Honest, Exact, Gathered;
  }

  lemma {:induction false} OwnClean(pipe: seq<Tagged>)
    requires forall i :: 0 <= i < |pipe| ==> !pipe[i].origin.Answer?
    ensures Own(pipe) == []
  {
    if pipe != [] {
      OwnClean(pipe[..|pipe| - 1]);
    }
  }

  lemma RequestKeeps(c: Config, s: State, k: nat, stage: Stage, choice: Choice, t: State)
    requires Inv(c, s) && k < |s.reqs| && s.disp == Busy(k, stage) && RequestStep(s, k, stage, choice) == Some(t)
    ensures Inv(c, t)
  {
    hide ReqOK, QueueOK, PermitsOK, WireOK;
    assert ReqOK(s.reqs[k], View(s.disp, k));
    RequestLocal(c, s, k, stage, choice, t);
    LocalsKeep(s, t, k);
    RequestPermits(c, s, k, stage, choice, t);
    DeliverHolds(s.reqs[k], Some(stage));
    QueueKeeps(s, t, k);
    RequestWire(c, s, k, stage, choice, t);
  }

  // --- Collecting keeps the invariants -------------------------------------------------------------------

  lemma {:induction false} OwnTail(pipe: seq<Tagged>)
    requires pipe != []
    ensures Own(pipe) == (if pipe[0].origin.Answer? then [pipe[0].frame] else []) + Own(pipe[1..])
  {
    var init := pipe[..|pipe| - 1];
    if |pipe| == 1 {
      assert init == [] && pipe[1..] == [];
    } else {
      OwnTail(init);
      assert pipe[1..][..|pipe| - 2] == init[1..];
    }
  }

  /** The nonce frame is the last of its request's frames: when it is consumed nothing of the request is left. */
  lemma NonceEnds(c: Config, s: State, k: int, taken: seq<Frame>)
    requires WireOK(c, s) && Mine(s, k, 2, taken) && s.pipe != [] && IsNonce(s.pipe[0].frame, c.nonce(k))
    ensures Clean(s.(pipe := s.pipe[1..]))
    ensures 0 <= k < |s.reqs| ==> s.reqs[k].trail.answers == taken
  {
    assert TaggedOK(c, s.pipe[0]);
    assert s.pipe[0].origin.NonceOf?;
    assert forall j :: 0 < j < |s.pipe| ==> s.pipe[j].origin == Unsolicited;
    OwnClean(s.pipe);
  }

  /** Any other frame leaves the rest in order. */
  lemma FrameTaken(c: Config, s: State, k: int, taken: seq<Frame>, t: State)
    requires WireOK(c, s) && Mine(s, k, 2, taken) && s.pipe != [] && !IsNonce(s.pipe[0].frame, c.nonce(k))
    requires t.lines == s.lines && t.pipe == s.pipe[1..] && t.reqs == s.reqs
    ensures s.pipe[0].origin == Answer(k) || (s.pipe[0].origin == Unsolicited && Stray(s.pipe[0].frame))
    ensures Mine(t, k, 2, if s.pipe[0].origin == Answer(k) then taken + [s.pipe[0].frame] else taken)
  {
    hide Stray;
    assert TaggedOK(c, s.pipe[0]) && From(s.pipe[0].origin, k);
    OwnTail(s.pipe);
    assert [] + Own(s.pipe[1..]) == Own(s.pipe[1..]);
    forall i | 0 <= i < |t.pipe| ensures From(t.pipe[i].origin, k) {
      assert t.pipe[i] == s.pipe[i + 1];
    }
  }

  /** The pipe's own frames follow those already taken. */
  lemma TakenFits(s: State, k: nat, taken: seq<Frame>)
    requires k < |s.reqs| && Mine(s, k, 2, taken) && s.pipe != [] && s.pipe[0].origin == Answer(k)
    ensures taken + [s.pipe[0].frame] <= s.reqs[k].trail.answers
  {
    OwnTail(s.pipe);
    assert s.reqs[k].trail.answers == taken + [s.pipe[0].frame] + Own(s.pipe[1..]);
  }

  lemma CollectingParts(r: Req, got: Collected, heard: seq<Tagged>, canceled: bool)
    requires ReqOK(r, Some(Collecting(got, heard, canceled)))
    ensures r.place == Taken && Running(r, 2) && Gathered(r, got, heard, canceled)
  {
    hide Honest, Exact, Gathered;
  }

  /** The request as its nonce frame leaves it, or as it was. */
  function Heard(r: Req, seen: bool, heard: seq<Tagged>, canceled: bool): Req {
    if seen then Hears(r, heard, canceled) else r
  }

  /** From Collecting to another stage with the same permits. */
  lemma StageMoves(r: Req, seen: bool, got: Collected, heard: seq<Tagged>, canceled: bool, stage: Stage)
    requires ReqOK(r, Some(Collecting(got, heard, canceled)))
    requires StageOK(Heard(r, seen, heard, canceled), stage)
    requires stage.Deliver? ==> stage.step == 0
    ensures ReqOK(Heard(r, seen, heard, canceled), Some(stage))
  {
    hide Honest, Exact, Gathered, StageOK;
    CollectingParts(r, got, heard, canceled);
  }

  /** deliver begins with a report made of what was gathered. */
  lemma DeliverBegins(r: Req, seen: bool, heard: seq<Tagged>, canceled: bool, report: Report, next: Next)
    requires Running(r, 2) && report.effect != NotSent
    requires Honest(Heard(r, seen, heard, canceled), report) && Exact(Heard(r, seen, heard, canceled), report)
    ensures StageOK(Heard(r, seen, heard, canceled), Deliver(report, 0, next))
  {
    hide Exact;
    FailedHonest(Heard(r, seen, heard, canceled), Unknown);
  }

  lemma Unseen(r: Req, p: Report)
    requires !r.trail.nonceSeen
    ensures Exact(r, p)
  {
  }

  /** The nonce frame: k's report is exact. */
  lemma NonceLocal(r: Req, got: Collected, heard: seq<Tagged>, canceled: bool)
    requires Running(r, 2) && Gathered(r, got, heard, canceled) && r.trail.answers == Own(heard)
    ensures
      var effect := if got.failure == [] then Confirmed else Unknown;
      var report := Report(effect, got.stdout, got.stderr, |Own(heard)|);
      StageOK(Heard(r, true, heard, canceled), Deliver(report, 0, ToIdle))
  {
    hide StageOK, Running, Honest, Own;
    var r2 := Heard(r, true, heard, canceled);
    assert Gathered(r2, got, heard, canceled);
    GatheredHonest(r2, got, heard, canceled);
    var report := Report(if got.failure == [] then Confirmed else Unknown, got.stdout, got.stderr, |Own(heard)|);
    DeliverBegins(r, true, heard, canceled, report, ToIdle);
  }

  /** A frame received for k. */
  lemma ReceiveLocal(c: Config, s: State, k: nat, got: Collected, heard: seq<Tagged>, canceled: bool, choice: Choice,
                     t: State)
    requires k < |s.reqs| && s.disp == Busy(k, Collecting(got, heard, canceled)) && (choice == Go || choice == Fail)
    requires Running(s.reqs[k], 2) && Gathered(s.reqs[k], got, heard, canceled) && WireOK(c, s)
    requires CollectStep(c, s, k, got, heard, canceled, choice) == Some(t)
    ensures |t.reqs| == |s.reqs| && t.reqs == s.reqs[k := t.reqs[k]]
    ensures t.reqs[k] == Heard(s.reqs[k], t.reqs[k].trail.nonceSeen, heard, canceled)
    ensures t.disp.Busy? && t.disp.k == k && StageOK(t.reqs[k], t.disp.stage)
    ensures t.disp.stage.Deliver? ==> t.disp.stage.step == 0
  {
    hide Honest, Exact, Stray, Take, Gathered, WireOK, Mine, Own;
    var r, f := s.reqs[k], s.pipe[0];
    assert Mine(s, k, 2, Own(heard)) by { CollectTurn(c, s); }
    if IsNonce(f.frame, c.nonce(k)) {
      NonceEnds(c, s, k, Own(heard));
      NonceLocal(r, got, heard, canceled);
    } else {
      FrameTaken(c, s, k, Own(heard), s.(pipe := s.pipe[1..]));
      if f.origin == Answer(k) {
        TakenFits(s, k, Own(heard));
      }
      GatherNext(r, got, heard, canceled, f);
    }
  }

  lemma CollectTurn(c: Config, s: State)
    requires WireOK(c, s) && s.disp.Busy? && s.disp.stage.Collecting?
    ensures Mine(s, s.disp.k, 2, Own(s.disp.stage.heard))
  {
    hide Mine, Own;
  }

  lemma CollectLocal(c: Config, s: State, k: nat, got: Collected, heard: seq<Tagged>, canceled: bool, choice: Choice,
                     t: State)
    requires k < |s.reqs| && s.disp == Busy(k, Collecting(got, heard, canceled))
    requires ReqOK(s.reqs[k], Some(s.disp.stage)) && WireOK(c, s)
    requires CollectStep(c, s, k, got, heard, canceled, choice) == Some(t)
    ensures |t.reqs| == |s.reqs| && t.reqs == s.reqs[k := t.reqs[k]]
    ensures t.reqs[k] == Heard(s.reqs[k], t.reqs[k].trail.nonceSeen, heard, canceled)
    ensures t.disp.Busy? && t.disp.k == k && ReqOK(t.reqs[k], Some(t.disp.stage))
  {
    hide Honest, Exact, ReqOK, Stray, Take, Gathered, WireOK, Own;
    var r := s.reqs[k];
    CollectingParts(r, got, heard, canceled);
    if choice == Go || choice == Fail {
      ReceiveLocal(c, s, k, got, heard, canceled, choice, t);
      StageMoves(r, t.reqs[k].trail.nonceSeen, got, heard, canceled, t.disp.stage);
    } else {
      var report := Report(Unknown, got.stdout, got.stderr, |Own(heard)|);
      GatheredHonest(r, got, heard, canceled);
      Unseen(r, report);
      DeliverBegins(r, false, heard, canceled, report, ToIdle);
      CanceledGathered(r, got, heard, canceled);
      StageMoves(r, false, got, heard, canceled, t.disp.stage);
    }
  }

  lemma CanceledGathered(r: Req, got: Collected, heard: seq<Tagged>, canceled: bool)
    requires Gathered(r, got, heard, canceled)
    ensures Gathered(r, got.(failure := got.failure + [ErrCanceled]), heard, true)
  {
  }

  lemma CollectWire(c: Config, s: State, k: int, got: Collected, heard: seq<Tagged>, canceled: bool, choice: Choice,
                    t: State)
    requires WireOK(c, s) && DispOK(s) && s.disp == Busy(k, Collecting(got, heard, canceled))
    requires CollectStep(c, s, k, got, heard, canceled, choice) == Some(t)
    ensures WireOK(c, t)
  {
    hide Take, Stray, Own;
    var rest := s.(pipe := if s.pipe == [] then [] else s.pipe[1..]);
    assert forall i :: 0 <= i < |rest.pipe| ==> rest.pipe[i] == s.pipe[i + 1];
    assert forall i :: 0 <= i < |s.lines| ==> LineOK(s, s.lines[i]);
    if s.pipe != [] && (choice == Go || choice == Fail) {
      if IsNonce(s.pipe[0].frame, c.nonce(k)) {
        NonceEnds(c, s, k, Own(heard));
      } else {
        FrameTaken(c, s, k, Own(heard), t);
        OwnSnoc(heard, s.pipe[0]);
      }
    }
  }

  lemma CollectKeeps(c: Config, s: State, k: int, got: Collected, heard: seq<Tagged>, canceled: bool, choice: Choice,
                     t: State)
    requires Inv(c, s) && s.disp == Busy(k, Collecting(got, heard, canceled))
    requires CollectStep(c, s, k, got, heard, canceled, choice) == Some(t)
    ensures Inv(c, t)
  {
    hide ReqOK, WireOK, Take, IsNonce, QueueOK, PermitsOK, Own, CollectStep;
    CollectWire(c, s, k, got, heard, canceled, choice, t);
    CollectShared(c, s, k, got, heard, canceled, choice, t);
    if 0 <= k < |s.reqs| {
      assert ReqOK(s.reqs[k], View(s.disp, k));
      CollectLocal(c, s, k, got, heard, canceled, choice, t);
      LocalsKeep(s, t, k);
    } else {
      HandshakeLocals(c, s, k, got, heard, canceled, choice, t);
    }
  }

  /** What a turn of collecting may change. */
  lemma CollectMoves(c: Config, s: State, k: int, got: Collected, heard: seq<Tagged>, canceled: bool, choice: Choice,
                     t: State)
    requires CollectStep(c, s, k, got, heard, canceled, choice) == Some(t)
    ensures t == s.(reqs := t.reqs, disp := t.disp, pipe := t.pipe) && |t.reqs| == |s.reqs|
    ensures if 0 <= k < |s.reqs| then
              t.reqs == s.reqs[k := t.reqs[k]] && t.reqs[k] == s.reqs[k].(trail := t.reqs[k].trail)
              && t.disp.Busy? && t.disp.k == k && (t.disp.stage.Halting? ==> t.disp.stage.next == ToIdle)
              && (t.disp.stage.Deliver? ==> t.disp.stage.next == ToIdle)
            else
              t.reqs == s.reqs
              && (t.disp.Idle? || t.disp.Stopping? || (t.disp.Busy? && t.disp.k == k && t.disp.stage.Collecting?))
  {
    hide Take, IsNonce, Own;
  }

  /** Collecting moves no permit and leaves the queue and the phase alone. */
  lemma CollectShared(c: Config, s: State, k: int, got: Collected, heard: seq<Tagged>, canceled: bool, choice: Choice,
                      t: State)
    requires Inv(c, s) && s.disp == Busy(k, Collecting(got, heard, canceled))
    requires CollectStep(c, s, k, got, heard, canceled, choice) == Some(t)
    ensures QueueOK(t) && PermitsOK(c, t) && DispOK(t)
  {
    hide ReqOK, WireOK, QueueOK, Locals, CollectStep;
    CollectMoves(c, s, k, got, heard, canceled, choice, t);
    if 0 <= k < |s.reqs| {
      assert ReqOK(s.reqs[k], View(s.disp, k)) by { RequestOf(c, s, k); }
      CollectingParts(s.reqs[k], got, heard, canceled);
      QueueKeeps(s, t, k);
      SumSet(s.reqs, k, t.reqs[k], Counts);
      SumSet(s.reqs, k, t.reqs[k], Weighs);
    } else {
      assert QueueOK(t) by { SameQueue(s, t); }
    }
  }

  lemma SameQueue(s: State, t: State)
    requires QueueOK(s) && t.queue == s.queue && t.reqs == s.reqs
    ensures QueueOK(t)
  {
  }

  lemma HandshakeLocals(c: Config, s: State, k: int, got: Collected, heard: seq<Tagged>, canceled: bool,
                        choice: Choice, t: State)
    requires Locals(s) && s.disp == Busy(k, Collecting(got, heard, canceled)) && !(0 <= k < |s.reqs|)
    requires CollectStep(c, s, k, got, heard, canceled, choice) == Some(t)
    ensures Locals(t) && t.reqs == s.reqs && t.queue == s.queue
    ensures t.disp.Idle? || t.disp.Stopping? || (t.disp.Busy? && t.disp.k == k && t.disp.stage.Collecting?)
  {
    hide ReqOK, Take, IsNonce, Own;
    forall j | 0 <= j < |t.reqs| ensures ReqOK(t.reqs[j], View(t.disp, j)) {
      assert ReqOK(s.reqs[j], View(s.disp, j));
      assert View(s.disp, j) == None == View(t.disp, j);
    }
  }

  // --- tmux and stop keep the invariants -------------------------------------------------------------------

  lemma EmitLocals(s: State, k: int, f: Frame)
    requires Locals(s) && LineOK(s, Line(k, false))
    ensures Locals(Record(s, k, f))
  {
    hide ReqOK;
    if 0 <= k < |s.reqs| {
      assert ReqOK(s.reqs[k], View(s.disp, k));
      AnswerLocal(s.reqs[k], f, View(s.disp, k));
      LocalsKeep(s, Record(s, k, f), k);
    }
  }

  lemma EmitShared(c: Config, s: State, k: int, f: Frame)
    requires QueueOK(s) && PermitsOK(c, s)
    ensures QueueOK(Record(s, k, f)) && PermitsOK(c, Record(s, k, f))
  {
    if 0 <= k < |s.reqs| {
      var r := Record(s, k, f).reqs[k];
      SumSet(s.reqs, k, r, Counts);
      SumSet(s.reqs, k, r, Weighs);
      SumSet(s.reqs, k, r, Queues);
    }
  }

  /** One frame more at the end of what is on its way. */
  lemma OrderKeeps(s: State, t: State, k: int, written: nat, last: Tagged)
    requires InOrder(s, k, written) && t.pipe == s.pipe + [last] && From(last.origin, k)
    requires s.lines != [] || last.origin == Unsolicited
    requires t.lines == s.lines || (s.lines != [] && t.lines == s.lines[1..])
    requires last.origin.NonceOf? ==> s.lines != [] && s.lines[0].nonce && t.lines == s.lines[1..]
    ensures InOrder(t, k, written)
  {
    assert forall i :: 0 <= i < |t.pipe| ==> t.pipe[i] == if i < |s.pipe| then s.pipe[i] else last;
    assert s.lines != [] ==> forall i :: 0 <= i < |s.pipe| ==> !s.pipe[i].origin.NonceOf?;
  }

  /** The lines left, and a frame at the end of the pipe, while k is being written or collected. */
  lemma MineKeeps(s: State, t: State, k: int, written: nat, taken: seq<Frame>, last: Tagged)
    requires Mine(s, k, written, taken) && s.lines != []
    requires t.pipe == s.pipe + [last] && From(last.origin, k) && |t.reqs| == |s.reqs|
    requires t.lines == s.lines || t.lines == s.lines[1..]
    requires last.origin.NonceOf? ==> s.lines[0].nonce && t.lines == s.lines[1..]
    requires 0 <= k < |s.reqs| ==>
      t.reqs[k].trail.answers == s.reqs[k].trail.answers + if last.origin.Answer? then [last.frame] else []
    ensures Mine(t, k, written, taken)
  {
    hide InOrder, Own;
    OrderKeeps(s, t, k, written, last);
    OwnSnoc(s.pipe, last);
    assert taken + (Own(s.pipe) + [last.frame]) == taken + Own(s.pipe) + [last.frame];
  }

  /** Unsolicited output can come at any time. */
  lemma MineIntrudes(s: State, t: State, k: int, written: nat, taken: seq<Frame>, f: Frame)
    requires Mine(s, k, written, taken) && t == s.(pipe := s.pipe + [Tagged(f, Unsolicited)])
    ensures Mine(t, k, written, taken)
  {
    hide InOrder, Own;
    OrderKeeps(s, t, k, written, Tagged(f, Unsolicited));
    OwnSnoc(s.pipe, Tagged(f, Unsolicited));
  }

  lemma MineEnds(s: State, t: State, k: int, written: nat, taken: seq<Frame>)
    requires Mine(s, k, written, taken) && s.lines != [] && t == s.(lines := s.lines[1..])
    ensures Mine(t, k, written, taken)
  {
  }

  /** Whose lines are unanswered while the dispatcher writes or collects. */
  lemma LineOwner(s: State, k: int, written: nat, taken: seq<Frame>)
    requires Mine(s, k, written, taken) && s.lines != []
    ensures s.lines[0].owner == k
  {
  }

  lemma LinesKeep(s: State, t: State)
    requires forall i :: 0 <= i < |s.lines| ==> LineOK(s, s.lines[i])
    requires t.lines == s.lines || (s.lines != [] && t.lines == s.lines[1..])
    requires |t.reqs| == |s.reqs| && forall k :: 0 <= k < |s.reqs| ==>
      t.reqs[k].trail.touched == s.reqs[k].trail.touched && t.reqs[k].trail.nonceSeen == s.reqs[k].trail.nonceSeen
    ensures forall i :: 0 <= i < |t.lines| ==> LineOK(t, t.lines[i])
  {
    forall i | 0 <= i < |t.lines| ensures LineOK(t, t.lines[i]) {
      var j := if t.lines == s.lines then i else i + 1;
      assert t.lines[i] == s.lines[j] && LineOK(s, s.lines[j]);
    }
  }

  lemma TaggedKeep(c: Config, s: State, t: State, last: Tagged)
    requires forall i :: 0 <= i < |s.pipe| ==> TaggedOK(c, s.pipe[i])
    requires t.pipe == s.pipe + [last] && TaggedOK(c, last)
    ensures forall i :: 0 <= i < |t.pipe| ==> TaggedOK(c, t.pipe[i])
  {
    hide TaggedOK;
    forall i | 0 <= i < |t.pipe| ensures TaggedOK(c, t.pipe[i]) {
      if i < |s.pipe| {
        assert TaggedOK(c, s.pipe[i]);
      }
    }
  }

  /** tmux prints a frame for its first line: while that line is not done with, or as it ends. */
  lemma PrintTurn(s: State, t: State, last: Tagged)
    requires Turn(s) && s.lines != []
    requires t.pipe == s.pipe + [last] && |t.reqs| == |s.reqs| && t.disp == s.disp && t.phase == s.phase
    requires t.lines == s.lines || t.lines == s.lines[1..]
    requires last.origin == Answer(s.lines[0].owner)
             || (last.origin == NonceOf(s.lines[0].owner) && s.lines[0].nonce && t.lines == s.lines[1..])
    requires forall k :: 0 <= k < |s.reqs| ==>
      t.reqs[k].trail.answers == s.reqs[k].trail.answers + if last.origin == Answer(k) then [last.frame] else []
    ensures Turn(t)
  {
    hide Mine, Own;
    if s.disp.Busy? && s.disp.stage.Writing? {
      LineOwner(s, s.disp.k, s.disp.stage.line, []);
      MineKeeps(s, t, s.disp.k, s.disp.stage.line, [], last);
    } else if s.disp.Busy? && s.disp.stage.Collecting? {
      LineOwner(s, s.disp.k, 2, Own(s.disp.stage.heard));
      MineKeeps(s, t, s.disp.k, 2, Own(s.disp.stage.heard), last);
    }
  }

  lemma EmitKeeps(c: Config, s: State, f: Frame, t: State)
    requires Inv(c, s) && Emit(c, s, f) == Some(t)
    ensures Inv(c, t)
  {
    hide Locals, QueueOK, PermitsOK, Turn, TaggedOK, NoNonce;
    var k := s.lines[0].owner;
    var last := Tagged(f, Answer(k));
    assert LineOK(s, s.lines[0]);
    EmitLocals(s, k, f);
    EmitShared(c, s, k, f);
    LinesKeep(s, t);
    assert TaggedOK(c, last) by { AnswerTag(c, f, k); }
    TaggedKeep(c, s, t, last);
    PrintTurn(s, t, last);
    SameShared(c, Record(s, k, f), t);
  }

  lemma AnswerTag(c: Config, f: Frame, k: int)
    requires NoNonce(c, f)
    ensures TaggedOK(c, Tagged(f, Answer(k)))
  {
  }

  lemma SameShared(c: Config, s: State, t: State)
    requires Locals(s) && QueueOK(s) && PermitsOK(c, s)
    requires t.reqs == s.reqs && t.queue == s.queue && t.count == s.count && t.weight == s.weight && t.disp == s.disp
    ensures Locals(t) && QueueOK(t) && PermitsOK(c, t)
  {
    hide ReqOK;
  }

  lemma EndLineKeeps(c: Config, s: State, flags: nat, t: State)
    requires Inv(c, s) && EndLine(c, s, flags) == Some(t)
    ensures Inv(c, t)
  {
    hide Locals, QueueOK, PermitsOK, Turn, TaggedOK;
    LinesKeep(s, t);
    SameShared(c, s, t);
    if s.lines[0].nonce {
      var last := Tagged(Frame(flags, c.nonce(s.lines[0].owner), false), NonceOf(s.lines[0].owner));
      assert TaggedOK(c, last) by { NonceTag(c, last); }
      TaggedKeep(c, s, t, last);
      PrintTurn(s, t, last);
    } else {
      EndTurn(s, t);
    }
  }

  lemma NonceTag(c: Config, t: Tagged)
    requires t.origin.NonceOf? && IsNonce(t.frame, c.nonce(t.origin.k))
    ensures TaggedOK(c, t)
  {
  }

  lemma EndTurn(s: State, t: State)
    requires Turn(s) && s.lines != [] && t == s.(lines := s.lines[1..])
    ensures Turn(t)
  {
    hide Mine;
    if s.disp.Busy? && s.disp.stage.Writing? {
      MineEnds(s, t, s.disp.k, s.disp.stage.line, []);
    } else if s.disp.Busy? && s.disp.stage.Collecting? {
      MineEnds(s, t, s.disp.k, 2, Own(s.disp.stage.heard));
    }
  }

  lemma IntrudeKeeps(c: Config, s: State, f: Frame, t: State)
    requires Inv(c, s) && Intrude(c, s, f) == Some(t)
    ensures Inv(c, t)
  {
    hide Locals, QueueOK, PermitsOK, NoNonce, Stray, Mine;
    LinesKeep(s, t);
    SameShared(c, s, t);
    TaggedKeep(c, s, t, Tagged(f, Unsolicited));
    if s.disp.Busy? && s.disp.stage.Writing? {
      MineIntrudes(s, t, s.disp.k, s.disp.stage.line, [], f);
    } else if s.disp.Busy? && s.disp.stage.Collecting? {
      MineIntrudes(s, t, s.disp.k, 2, Own(s.disp.stage.heard), f);
    }
  }

  lemma StopKeeps(c: Config, s: State, t: State)
    requires Inv(c, s) && StopStep(s) == Some(t)
    ensures Inv(c, t)
  {
    hide Locals, QueueOK, PermitsOK, TaggedOK, Mine, WireOK;
    SameShared(c, s, t);
    assert WireOK(c, t) by {
      hide ReqOK;
      WireKeeps(c, s, t);
    }
  }

  // --- Every run ---------------------------------------------------------------------------------------------

  lemma InitOK(c: Config)
    ensures Inv(c, Init())
  {
  }

  lemma StepKeeps(c: Config, s: State, l: Label, t: State)
    requires Inv(c, s) && Step(c, s, l) == Some(t)
    ensures Inv(c, t)
  {
    hide Inv, CallerStep, LoopStep, RequestStep, CollectStep, Emit, EndLine, Intrude, StopStep, Arrive;
    match l {
      case ArriveL(weight, out, err) => ArriveKeeps(c, s, weight, out, err);
      case CallerL(k, giveUp) => CallerKeeps(c, s, k, giveUp, t);
      case DispatcherL(choice) =>
        if s.disp.Busy? && s.disp.stage.Collecting? {
          CollectKeeps(c, s, s.disp.k, s.disp.stage.got, s.disp.stage.heard, s.disp.stage.canceled, choice, t);
        } else if s.disp.Busy? {
          RequestKeeps(c, s, s.disp.k, s.disp.stage, choice, t);
        } else {
          LoopKeeps(c, s, choice, t);
        }
      case EmitL(f) => EmitKeeps(c, s, f, t);
      case EndLineL(flags) => EndLineKeeps(c, s, flags, t);
      case IntrudeL(f) => IntrudeKeeps(c, s, f, t);
      case StopL => StopKeeps(c, s, t);
    }
  }

  lemma {:induction false} RunKeeps(c: Config, s: State, ls: seq<Label>, t: State)
    requires Inv(c, s) && Run(c, s, ls) == Some(t)
    ensures Inv(c, t)
    decreases |ls|
  {
    hide Inv, Step;
    if ls != [] {
      var u := Step(c, s, ls[0]).value;
      StepKeeps(c, s, ls[0], u);
      RunKeeps(c, u, ls[1..], t);
    }
  }

  lemma CollectPc(c: Config, s: State, k: int, got: Collected, heard: seq<Tagged>, canceled: bool, choice: Choice,
                  t: State, j: nat)
    requires j < |s.reqs| && CollectStep(c, s, k, got, heard, canceled, choice) == Some(t)
    ensures |t.reqs| == |s.reqs| && t.reqs[j].pc == s.reqs[j].pc && t.reqs[j].weight == s.reqs[j].weight
  {
    hide Take, IsNonce, LimitsOf;
  }

  lemma DeliverPc(s: State, k: nat, stage: Stage, choice: Choice, t: State, j: nat)
    requires k < |s.reqs| && j < |s.reqs| && stage.Deliver? && RequestStep(s, k, stage, choice) == Some(t)
    ensures |t.reqs| == |s.reqs| && t.reqs[j].pc == s.reqs[j].pc && t.reqs[j].weight == s.reqs[j].weight
  {
  }

  lemma WritePc(s: State, k: nat, stage: Stage, choice: Choice, t: State, j: nat)
    requires k < |s.reqs| && j < |s.reqs| && (stage.Writing? || stage.Build?)
    requires RequestStep(s, k, stage, choice) == Some(t)
    ensures |t.reqs| == |s.reqs| && t.reqs[j].pc == s.reqs[j].pc && t.reqs[j].weight == s.reqs[j].weight
  {
  }

  lemma ChoosePc(s: State, k: nat, stage: Stage, choice: Choice, t: State, j: nat)
    requires k < |s.reqs| && j < |s.reqs| && !stage.Deliver? && !stage.Writing? && !stage.Build?
    requires RequestStep(s, k, stage, choice) == Some(t)
    ensures |t.reqs| == |s.reqs| && t.reqs[j].pc == s.reqs[j].pc && t.reqs[j].weight == s.reqs[j].weight
  {
  }

  lemma RequestPc(s: State, k: nat, stage: Stage, choice: Choice, t: State, j: nat)
    requires k < |s.reqs| && j < |s.reqs| && RequestStep(s, k, stage, choice) == Some(t)
    ensures |t.reqs| == |s.reqs| && t.reqs[j].pc == s.reqs[j].pc && t.reqs[j].weight == s.reqs[j].weight
  {
    hide *;
    match stage {
      case Deliver(_, _, _) => DeliverPc(s, k, stage, choice, t, j);
      case Writing(_) => WritePc(s, k, stage, choice, t, j);
      case Build => WritePc(s, k, stage, choice, t, j);
      case _ => ChoosePc(s, k, stage, choice, t, j);
    }
  }

  lemma DispatcherPc(c: Config, s: State, choice: Choice, t: State, j: nat)
    requires j < |s.reqs| && DispatcherStep(c, s, choice) == Some(t)
    ensures |t.reqs| == |s.reqs| && t.reqs[j].pc == s.reqs[j].pc && t.reqs[j].weight == s.reqs[j].weight
  {
    hide CollectStep, RequestStep;
    if s.disp.Busy? && s.disp.stage.Collecting? {
      CollectPc(c, s, s.disp.k, s.disp.stage.got, s.disp.stage.heard, s.disp.stage.canceled, choice, t, j);
    } else if s.disp.Busy? {
      RequestPc(s, s.disp.k, s.disp.stage, choice, t, j);
    }
  }

  lemma CallerReturned(c: Config, s: State, j: nat, giveUp: bool, t: State, k: nat)
    requires j < |s.reqs| && CallerStep(c, s, j, giveUp) == Some(t) && k < |s.reqs| && s.reqs[k].pc.Returned?
    ensures |t.reqs| == |s.reqs| && t.reqs[k].pc == s.reqs[k].pc
  {
    assert j != k;
  }

  lemma StepReturned(c: Config, s: State, l: Label, t: State, k: nat)
    requires Step(c, s, l) == Some(t) && k < |s.reqs| && s.reqs[k].pc.Returned?
    ensures k < |t.reqs| && t.reqs[k].pc == s.reqs[k].pc
  {
    hide NoNonce, Stray, DispatcherStep, CallerStep;
    match l {
      case CallerL(j, giveUp) => CallerReturned(c, s, j, giveUp, t, k);
      case DispatcherL(choice) => DispatcherPc(c, s, choice, t, k);
      case _ =>
    }
  }

  /** What a caller has been told stays told. */
  lemma {:induction false} RunReturned(c: Config, s: State, ls: seq<Label>, t: State, k: nat)
    requires Run(c, s, ls) == Some(t) && k < |s.reqs| && s.reqs[k].pc.Returned?
    ensures k < |t.reqs| && t.reqs[k].pc == s.reqs[k].pc
    decreases |ls|
  {
    hide Step;
    if ls != [] {
      var u := Step(c, s, ls[0]).value;
      StepReturned(c, s, ls[0], u, k);
      RunReturned(c, u, ls[1..], t, k);
    }
  }

  lemma ReturnedHonest(r: Req, v: Option<Stage>)
    requires ReqOK(r, v) && r.pc.Returned?
    ensures Honest(r, r.pc.report)
    ensures r.trail.nonceSeen ==> r.trail.touched && r.trail.lines == 2
  {
    if r.pc.report == Failed(Unknown) {
      FailedHonest(r, Unknown);
    } else if r.pc.report == Failed(NotSent) && Untouched(r) {
      FailedHonest(r, NotSent);
    }
  }

  /**
   * Effects, over every interleaving: once a caller has been told "not sent", by delivery, by its own compare-and-swap
   * or by failing to enqueue, no byte of its request has been written, then or later. A reply without an error means
   * that both of its lines were written and its own nonce frame consumed, that no frame of it failed but by an ignored
   * one, and that its output is that of all the frames tmux emitted for it, then and ever after; which is all that the
   * successful ones hold exactly when none of them is unflagged, unprefixed and not empty.
   */
  lemma EffectSoundness(c: Config, before: seq<Label>, s: State, after: seq<Label>, t: State, k: nat)
    requires Run(c, Init(), before) == Some(s) && Run(c, s, after) == Some(t)
    requires k < |s.reqs| && s.reqs[k].pc.Returned?
    ensures k < |t.reqs| && t.reqs[k].pc == s.reqs[k].pc
    ensures s.reqs[k].pc.report.effect == NotSent ==> !t.reqs[k].trail.touched && t.reqs[k].trail.lines == 0
    ensures s.reqs[k].pc.report.effect == Confirmed ==>
      var r := t.reqs[k];
      && r.trail.touched && r.trail.lines == 2 && r.trail.nonceSeen && AllFine(r.trail.answers)
      && s.reqs[k].pc.report.stdout == OutOf(r.trail.answers)
      && (s.reqs[k].pc.report.stdout == Printed(r.trail.answers)
          <==> forall i :: 0 <= i < |r.trail.answers| ==> Retained(r.trail.answers[i]))
  {
    hide *;
    InitOK(c);
    RunKeeps(c, Init(), before, s);
    RunKeeps(c, s, after, t);
    RunReturned(c, s, after, t, k);
    RequestOf(c, t, k);
    ReturnedHonest(t.reqs[k], View(t.disp, k));
    HonestParts(t.reqs[k], t.reqs[k].pc.report);
    OutputWhole(t.reqs[k].trail.answers);
  }

  lemma HonestParts(r: Req, p: Report)
    requires Honest(r, p)
    ensures p.effect == NotSent ==> !r.trail.touched && r.trail.lines == 0
    ensures p.effect == Confirmed ==>
      r.trail.nonceSeen && AllFine(r.trail.answers) && p.stdout == OutOf(r.trail.answers)
  {
    if p.effect == Confirmed {
      assert r.trail.answers[..p.seen] == r.trail.answers;
    }
  }

  lemma RequestOf(c: Config, s: State, k: nat)
    requires Inv(c, s) && k < |s.reqs|
    ensures ReqOK(s.reqs[k], View(s.disp, k))
  {
    hide ReqOK;
  }

  /**
   * Isolation: whatever other requests, cancellations and unsolicited frames there were, a caller's output is
   * collected, within its limits, from a prefix of the frames tmux emitted for its own request.
   */
  lemma ReplyIsolation(c: Config, ls: seq<Label>, s: State, k: nat)
    requires Run(c, Init(), ls) == Some(s) && k < |s.reqs| && s.reqs[k].pc.Returned?
    ensures var r, p := s.reqs[k], s.reqs[k].pc.report;
      && p.seen <= |r.trail.answers|
      && p.stdout == First(r.out, OutOf(r.trail.answers[..p.seen]))
      && p.stderr == First(r.err, ErrOf(r.trail.answers[..p.seen], false))
      && (r.trail.answers != [] ==> r.trail.touched)
  {
    InitOK(c);
    RunKeeps(c, Init(), ls, s);
    RequestOf(c, s, k);
    ReturnedHonest(s.reqs[k], View(s.disp, k));
  }

  /**
   * When a result says "no error", over every interleaving: a request whose nonce frame was consumed is confirmed if
   * and only if its context was not seen done, every frame received for it by then, its own or stray, was fine, and its
   * output was not cut. Its own frames among them are all that tmux printed for it. Without the nonce it is never
   * confirmed.
   */
  lemma ConfirmedExactly(c: Config, ls: seq<Label>, s: State, k: nat)
    requires Run(c, Init(), ls) == Some(s) && k < |s.reqs| && s.reqs[k].sent.Some?
    ensures var r := s.reqs[k];
      && (r.trail.nonceSeen ==> r.trail.answers == Own(r.trail.heard))
      && (r.sent.value.effect == Confirmed
          <==> r.trail.nonceSeen && !r.trail.canceled && Calm(r.trail.heard) && |OutOf(r.trail.answers)| <= r.out)
    ensures s.reqs[k].pc.Returned? && s.reqs[k].pc.report.effect == Confirmed ==>
      s.reqs[k].sent == Some(s.reqs[k].pc.report)
  {
    hide Calm, OutOf, Own;
    InitOK(c);
    RunKeeps(c, Init(), ls, s);
    RequestOf(c, s, k);
  }

  /**
   * In every reachable state, the nonce frame ends its request: nothing of it is left, and everything of it was heard.
   */
  lemma NonceLast(c: Config, ls: seq<Label>, s: State)
    requires Run(c, Init(), ls) == Some(s) && s.disp.Busy? && s.disp.stage.Collecting?
    requires s.pipe != [] && IsNonce(s.pipe[0].frame, c.nonce(s.disp.k))
    ensures Clean(s.(pipe := s.pipe[1..]))
    ensures 0 <= s.disp.k < |s.reqs| ==> s.reqs[s.disp.k].trail.answers == Own(s.disp.stage.heard)
  {
    hide Clean, Own, Locals;
    InitOK(c);
    RunKeeps(c, Init(), ls, s);
    CollectTurn(c, s);
    NonceEnds(c, s, s.disp.k, Own(s.disp.stage.heard));
  }

  /**
   * One request at a time: when the dispatcher is about to write k, nothing of any other request is unanswered or on
   * its way, and while it writes or collects k, everything on its way is k's or unsolicited, and k's nonce frame comes
   * last.
   */
  lemma OneAtATime(c: Config, ls: seq<Label>, s: State)
    requires Run(c, Init(), ls) == Some(s) && s.disp.Busy?
    ensures s.disp.stage.Build? ==> Clean(s)
    ensures s.disp.stage.Writing? || s.disp.stage.Collecting? ==>
      && (forall i :: 0 <= i < |s.lines| ==> s.lines[i].owner == s.disp.k)
      && (forall i :: 0 <= i < |s.pipe| ==> From(s.pipe[i].origin, s.disp.k))
      && (forall i, j :: 0 <= i < j < |s.pipe| && s.pipe[i].origin.NonceOf? ==> s.pipe[j].origin == Unsolicited)
  {
    hide Locals, QueueOK, PermitsOK, TaggedOK, LineOK, Own, Clean, Init, Run;
    InitOK(c);
    RunKeeps(c, Init(), ls, s);
    if s.disp.stage.Writing? {
      LinesOwned(s.lines, s.disp.k, s.disp.stage.line);
    } else if s.disp.stage.Collecting? {
      LinesOwned(s.lines, s.disp.k, 2);
    }
  }

  lemma LinesOwned(lines: seq<Line>, k: int, written: nat)
    requires LinesOf(lines, k, written)
    ensures forall i :: 0 <= i < |lines| ==> lines[i].owner == k
  {
  }

  /** Permits: what the semaphores hold is what acquirers and enqueued, unreleased requests hold. */
  lemma PermitConservation(c: Config, ls: seq<Label>, s: State)
    requires Run(c, Init(), ls) == Some(s)
    ensures s.count == Sum(s.reqs, Counts) <= c.depth && s.weight == Sum(s.reqs, Weighs) <= c.queuedBytes
    ensures forall k :: 0 <= k < |s.reqs| ==>
      var r := s.reqs[k];
      && (r.holdsCount <==> r.pc.AcquireBytes? || r.pc.Enqueue? || r.pc.FailBytes? || r.pc.FailCount?
                            || r.place == InQueue || (r.place == Taken && !ReleasesCount(View(s.disp, k))))
      && (r.holdsBytes <==> r.pc.Enqueue? || r.pc.FailBytes? || r.place == InQueue
                            || (r.place == Taken && !ReleasesBytes(View(s.disp, k))))
  {
    hide StageOK, PlaceOK;
    InitOK(c);
    RunKeeps(c, Init(), ls, s);
    assert PermitsOK(c, s);
    forall k | 0 <= k < |s.reqs| ensures ReqOK(s.reqs[k], View(s.disp, k)) {
      RequestOf(c, s, k);
    }
  }

  lemma PermitsCover(c: Config, s: State, k: nat)
    requires Inv(c, s) && k < |s.reqs|
    ensures s.reqs[k].holdsCount ==> s.count >= 1
    ensures s.reqs[k].holdsBytes ==> s.weight >= s.reqs[k].weight
    ensures s.reqs[k].pc.Enqueue? ==> |s.queue| < c.depth
  {
    hide StageOK, PlaceOK, WireOK, ReqOK;
    var r := s.reqs[k];
    RequestOf(c, s, k);
    EarlyHolds(r, View(s.disp, k));
    SumSet(s.reqs, k, r, Counts);
    SumSet(s.reqs, k, r, Weighs);
    if r.pc.Enqueue? {
      var freed := s.reqs[k := r.(holdsCount := false)];
      SumSet(s.reqs, k, freed[k], Counts);
      SumSet(s.reqs, k, freed[k], Queues);
      forall j | 0 <= j < |freed| && freed[j].place == InQueue ensures freed[j].holdsCount {
        RequestOf(c, s, j);
        EarlyHolds(s.reqs[j], View(s.disp, j));
      }
      QueuedHold(freed);
    }
  }

  /** A release never gives back more than is held, and the full-queue branch of enqueueRequest cannot be taken. */
  lemma PermitsSuffice(c: Config, ls: seq<Label>, s: State, k: nat)
    requires Run(c, Init(), ls) == Some(s) && k < |s.reqs|
    ensures s.reqs[k].holdsCount ==> s.count >= 1
    ensures s.reqs[k].holdsBytes ==> s.weight >= s.reqs[k].weight
    ensures s.reqs[k].pc.Enqueue? ==> |s.queue| < c.depth
  {
    hide *;
    InitOK(c);
    RunKeeps(c, Init(), ls, s);
    PermitsCover(c, s, k);
  }

  lemma {:induction false} NoneQueued(rs: seq<Req>, k: nat)
    requires Sum(rs, Queues) == 0 && k < |rs|
    ensures rs[k].place != InQueue
  {
    SumSet(rs, k, rs[k], Queues);
  }

  /** Each enqueued request is sent exactly one result, by the time the dispatcher has drained the queue. */
  lemma DeliveredOnce(c: Config, ls: seq<Label>, s: State, k: nat)
    requires Run(c, Init(), ls) == Some(s) && k < |s.reqs|
    ensures s.reqs[k].sends <= 1
    ensures s.disp.Exited? ==> s.queue == [] && s.phase == Finished
    ensures s.disp.Exited? && s.reqs[k].place != Outside ==> s.reqs[k].sends == 1
  {
    hide StageOK, WireOK;
    InitOK(c);
    RunKeeps(c, Init(), ls, s);
    RequestOf(c, s, k);
    if s.disp.Exited? {
      NoneQueued(s.reqs, k);
    }
  }

  lemma {:induction false} NothingHeld(rs: seq<Req>)
    requires forall k :: 0 <= k < |rs| ==> !rs[k].holdsCount && !rs[k].holdsBytes
    ensures Sum(rs, Counts) == 0 && Sum(rs, Weighs) == 0
  {
    if rs != [] {
      NothingHeld(rs[..|rs| - 1]);
    }
  }

  /** No permit leaks: when every caller has returned and the dispatcher has exited, both semaphores are empty. */
  lemma PermitsReturned(c: Config, ls: seq<Label>, s: State)
    requires Run(c, Init(), ls) == Some(s) && s.disp.Exited?
    requires forall k :: 0 <= k < |s.reqs| ==> s.reqs[k].pc.Returned?
    ensures s.count == 0 && s.weight == 0
  {
    hide StageOK, PlaceOK;
    PermitConservation(c, ls, s);
    forall k | 0 <= k < |s.reqs| ensures !s.reqs[k].holdsCount && !s.reqs[k].holdsBytes {
      InitOK(c);
      RunKeeps(c, Init(), ls, s);
      RequestOf(c, s, k);
      NoneQueued(s.reqs, k);
    }
    NothingHeld(s.reqs);
  }

  /**
   * The send into a request's one-slot channel never blocks, and a caller that blocks to receive is about to be served.
   */
  lemma ResultNeverBlocks(c: Config, ls: seq<Label>, s: State, k: nat)
    requires Run(c, Init(), ls) == Some(s) && k < |s.reqs|
    ensures s.disp.Busy? && s.disp.k == k && s.disp.stage.Deliver? ==> RequestStep(s, k, s.disp.stage, Go).Some?
    ensures s.reqs[k].pc.Block? && s.reqs[k].slot.None? ==>
      s.disp.Busy? && s.disp.k == k && s.disp.stage.Deliver? && s.disp.stage.step == 3
  {
    hide Honest, Exact, Gathered, WireOK;
    InitOK(c);
    RunKeeps(c, Init(), ls, s);
    RequestOf(c, s, k);
  }
}
