/** One request's whole life: the protocol does reach a confirmed reply, with the output tmux printed. */
module DispatchExample {
  import opened Bytes
  import opened Collector
  import opened Dispatch

  /** The labels of a run and the state it reaches. */
  datatype Trace = Trace(ls: seq<Label>, s: State)

  ghost predicate Valid(c: Config, r: Trace) {
    Run(c, Init(), r.ls) == Some(r.s)
  }

  lemma {:induction false} RunSnoc(c: Config, s: State, ls: seq<Label>, t: State, l: Label)
    requires Run(c, s, ls) == Some(t)
    ensures Run(c, s, ls + [l]) == Step(c, t, l)
    decreases |ls|
  {
    hide Step;
    if ls == [] {
      assert ls + [l] == [l] && [l][1..] == [];
    } else {
      assert (ls + [l])[1..] == ls[1..] + [l];
      RunSnoc(c, Step(c, s, ls[0]).value, ls[1..], t, l);
    }
  }

  lemma Then(c: Config, r: Trace, l: Label, t: State) returns (next: Trace)
    requires Valid(c, r) && Step(c, r.s, l) == Some(t)
    ensures Valid(c, next) && next.s == t
  {
    RunSnoc(c, Init(), r.ls, r.s, l);
    next := Trace(r.ls + [l], t);
  }

  function Ready(q: Req, queue: seq<nat>): State {
    State(Open, [q], queue, if q.holdsCount then 1 else 0, if q.holdsBytes then q.weight else 0, Idle, [], [])
  }

  lemma Starts(c: Config)
    ensures Valid(c, Trace([], Init()))
  {
  }

  lemma Handshake(c: Config) returns (r: Trace)
    ensures Valid(c, r) && r.s == State(Open, [], [], 0, 0, Idle, [], [])
  {
    hide Valid;
    var nonce := Tagged(Frame(0, c.nonce(STARTUP), false), NonceOf(STARTUP));
    var first, last := [Line(STARTUP, false), Line(STARTUP, true)], [Line(STARTUP, true)];
    assert first[1..] == last && last[1..] == [] && [] + [nonce] == [nonce] && [nonce][1..] == [];
    r := Trace([], Init());
    Starts(c);
    r := Then(c, r, EndLineL(0), Init().(lines := last));
    r := Then(c, r, EndLineL(0), Init().(lines := [], pipe := [nonce]));
    r := Then(c, r, DispatcherL(Go), State(Open, [], [], 0, 0, Idle, [], []));
  }

  /** A caller arrives, acquires both permits and enqueues. */
  lemma Admission(c: Config, r0: Trace, weight: nat, out: nat) returns (r: Trace)
    requires Valid(c, r0) && r0.s == State(Open, [], [], 0, 0, Idle, [], [])
    requires c.depth >= 1 && weight <= c.queuedBytes
    ensures Valid(c, r) && r.s == Ready(NewRequest(weight, out, 0, Waiting)
      .(holdsCount := true, holdsBytes := true, place := InQueue), [0])
  {
    hide Valid;
    var q := NewRequest(weight, out, 0, AcquireCount);
    var q1 := q.(pc := AcquireBytes, holdsCount := true);
    var q2 := q1.(pc := Enqueue, holdsBytes := true);
    var q3 := q2.(pc := Waiting, place := InQueue);
    assert [] + [q] == [q] && [q][0 := q1] == [q1] && [q1][0 := q2] == [q2] && [q2][0 := q3] == [q3];
    assert [] + [0] == [0];
    r := Then(c, r0, ArriveL(weight, out, 0), Ready(q, []));
    r := Then(c, r, CallerL(0, false), Ready(q1, []));
    r := Then(c, r, CallerL(0, false), Ready(q2, []));
    r := Then(c, r, CallerL(0, false), Ready(q3, [0]));
  }

  function At(q: Req, stage: Stage, lines: seq<Line>, pipe: seq<Tagged>): State {
    State(Open, [q], [], if q.holdsCount then 1 else 0, if q.holdsBytes then q.weight else 0, Busy(0, stage), lines,
          pipe)
  }

  /** The dispatcher takes the request and marks it in flight. */
  lemma Takes(c: Config, r0: Trace, q: Req) returns (r: Trace)
    requires Valid(c, r0) && r0.s == Ready(q, [0]) && q.state == Queued && q.place == InQueue
    ensures Valid(c, r) && r.s == At(q.(place := Taken, state := InFlight, begun := true), Build, [], [])
  {
    hide Valid;
    var q1 := q.(place := Taken);
    var q2 := q1.(state := InFlight, begun := true);
    assert [q][0 := q1] == [q1] && [q1][0 := q2] == [q2] && [0][1..] == [];
    r := Then(c, r0, DispatcherL(Go), At(q1, Chosen, [], []));
    r := Then(c, r, DispatcherL(Go), At(q1, CheckDone, [], []));
    r := Then(c, r, DispatcherL(Go), At(q1, SwapState, [], []));
    r := Then(c, r, DispatcherL(Go), At(q2, Build, [], []));
  }

  /** It writes the first of its lines. */
  lemma Touches(c: Config, r0: Trace, q: Req) returns (r: Trace)
    requires Valid(c, r0) && r0.s == At(q, Build, [], [])
    ensures Valid(c, r)
    ensures r.s == At(q.(trail := q.trail.(touched := true, lines := 1)), Writing(1), [Line(0, false)], [])
  {
    hide Valid;
    var q3 := q.(trail := q.trail.(touched := true));
    var q4 := q3.(trail := q3.trail.(lines := 1));
    assert [q][0 := q3] == [q3] && [q3][0 := q4] == [q4];
    var line := [Line(0, false)];
    assert [] + line == line;
    r := Then(c, r0, DispatcherL(Go), At(q3, Writing(0), [], []));
    r := Then(c, r, DispatcherL(Go), At(q4, Writing(1), line, []));
  }

  /** It writes both of its lines. */
  lemma Writes(c: Config, r0: Trace, q: Req) returns (r: Trace)
    requires Valid(c, r0) && r0.s == At(q, Build, [], [])
    ensures Valid(c, r)
    ensures r.s
         == At(q.(trail := q.trail.(touched := true, lines := 2)), Collecting(NOTHING, [], false),
               [Line(0, false), Line(0, true)], [])
  {
    hide Valid;
    var q4 := q.(trail := q.trail.(touched := true, lines := 1));
    var q5 := q4.(trail := q4.trail.(lines := 2));
    assert [q4][0 := q5] == [q5];
    var both := [Line(0, false), Line(0, true)];
    assert [Line(0, false)] + [Line(0, true)] == both;
    r := Touches(c, r0, q);
    r := Then(c, r, DispatcherL(Go), At(q5, Writing(2), both, []));
    r := Then(c, r, DispatcherL(Go), At(q5, Collecting(NOTHING, [], false), both, []));
  }

  /** tmux prints one frame and the nonce. */
  lemma Prints(c: Config, r0: Trace, q: Req, f: Frame) returns (r: Trace)
    requires Valid(c, r0) && r0.s == At(q, Collecting(NOTHING, [], false), [Line(0, false), Line(0, true)], [])
    requires q.trail.answers == [] && NoNonce(c, f)
    ensures Valid(c, r)
    ensures r.s == At(Answers(q, f), Collecting(NOTHING, [], false), [],
                      [Tagged(f, Answer(0)), Tagged(Frame(0, c.nonce(0), false), NonceOf(0))])
  {
    hide Valid, NoNonce;
    var q1 := Answers(q, f);
    assert [q][0 := q1] == [q1] && [] + [f] == [f];
    var nonce, own := Tagged(Frame(0, c.nonce(0), false), NonceOf(0)), Tagged(f, Answer(0));
    var waiting := Collecting(NOTHING, [], false);
    var both, last := [Line(0, false), Line(0, true)], [Line(0, true)];
    assert both[1..] == last && last[1..] == [] && [] + [own] == [own] && [own] + [nonce] == [own, nonce];
    r := Then(c, r0, EmitL(f), At(q1, waiting, both, [own]));
    r := Then(c, r, EndLineL(0), At(q1, waiting, last, [own]));
    r := Then(c, r, EndLineL(0), At(q1, waiting, [], [own, nonce]));
  }

  /** The dispatcher takes the frame. */
  lemma Receives(c: Config, r0: Trace, q: Req, f: Frame, nonce: Tagged) returns (r: Trace)
    requires Valid(c, r0) && NoNonce(c, f) && Fine(f) && |Output(f)| <= q.out
    requires r0.s == At(q, Collecting(NOTHING, [], false), [], [Tagged(f, Answer(0)), nonce])
    ensures Valid(c, r)
    ensures r.s == At(q, Collecting(Collected(Output(f), [], []), [Tagged(f, Answer(0))], false), [], [nonce])
  {
    hide Valid, NoNonce, LibraryOutput;
    var own := Tagged(f, Answer(0));
    assert [own, nonce][1..] == [nonce] && [] + [own] == [own];
    var got := Collected(Output(f), [], []);
    assert Take(NOTHING, f, Limits(q.out, q.err, false)) == got;
    NotNonce(c, f);
    r := Then(c, r0, DispatcherL(Go), At(q, Collecting(got, [own], false), [], [nonce]));
  }

  /** The nonce frame confirms what was collected. */
  lemma Confirms(c: Config, r0: Trace, q: Req, f: Frame) returns (r: Trace)
    requires Valid(c, r0)
    requires r0.s == At(q, Collecting(Collected(Output(f), [], []), [Tagged(f, Answer(0))], false), [],
                        [Tagged(Frame(0, c.nonce(0), false), NonceOf(0))])
    ensures Valid(c, r)
    ensures r.s
         == At(Hears(q, [Tagged(f, Answer(0))], false), Deliver(Report(Confirmed, Output(f), [], 1), 0, ToIdle), [], [])
  {
    hide Valid, Output;
    var q2 := Hears(q, [Tagged(f, Answer(0))], false);
    var nonce := Tagged(Frame(0, c.nonce(0), false), NonceOf(0));
    assert [q][0 := q2] == [q2] && [nonce][1..] == [];
    OwnOne(f);
    r := Then(c, r0, DispatcherL(Go), At(q2, Deliver(Report(Confirmed, Output(f), [], 1), 0, ToIdle), [], []));
  }

  /** What one frame adds to its request's output. */
  function Output(f: Frame): bytes {
    if OwnOutput(f) then f.data else []
  }

  lemma OwnOne(f: Frame)
    ensures Own([Tagged(f, Answer(0))]) == [f]
  {
    assert [Tagged(f, Answer(0))][..0] == [] && [] + [f] == [f];
  }

  lemma NotNonce(c: Config, f: Frame)
    requires NoNonce(c, f)
    ensures !IsNonce(f, c.nonce(0))
  {
  }

  /** Both permits are released. */
  lemma Releases(c: Config, r0: Trace, q: Req, report: Report) returns (r: Trace)
    requires Valid(c, r0) && r0.s == At(q, Deliver(report, 0, ToIdle), [], [])
    requires q.holdsCount && q.holdsBytes
    ensures Valid(c, r)
    ensures r.s == At(q.(holdsBytes := false, holdsCount := false), Deliver(report, 2, ToIdle), [], [])
  {
    hide Valid;
    var q1 := q.(holdsBytes := false);
    var q2 := q1.(holdsCount := false);
    assert [q][0 := q1] == [q1] && [q1][0 := q2] == [q2];
    r := Then(c, r0, DispatcherL(Go), At(q1, Deliver(report, 1, ToIdle), [], []));
    r := Then(c, r, DispatcherL(Go), At(q2, Deliver(report, 2, ToIdle), [], []));
  }

  /** The reply is delivered, and the caller takes it. */
  lemma Delivers(c: Config, r0: Trace, q: Req, report: Report) returns (r: Trace)
    requires Valid(c, r0) && r0.s == At(q, Deliver(report, 0, ToIdle), [], [])
    requires q.holdsCount && q.holdsBytes && q.slot == None && q.pc == Waiting
    ensures Valid(c, r) && |r.s.reqs| == 1 && r.s.reqs[0].pc == Returned(report) && r.s.count == r.s.weight == 0
    ensures r.s.reqs[0].trail == q.trail
  {
    hide Valid;
    r := Releases(c, r0, q, report);
    var q2 := q.(holdsBytes := false, holdsCount := false);
    var q3 := q2.(state := Delivered);
    var q4 := q3.(slot := Some(report), sends := q.sends + 1, sent := Some(report), place := Settled);
    var q5 := q4.(pc := Returned(report), slot := None);
    assert [q2][0 := q3] == [q3] && [q3][0 := q4] == [q4] && [q4][0 := q5] == [q5];
    r := Then(c, r, DispatcherL(Go), At(q3, Deliver(report, 3, ToIdle), [], []));
    r := Then(c, r, DispatcherL(Go), Ready(q4, []));
    r := Then(c, r, CallerL(0, false), Ready(q5, []));
  }

  /**
   * On any connection that can admit it, a request can be confirmed after any fine frame of its own, and leave no
   * permit held: with the frame's output, or with none of it when the frame is stray, whether it failed empty or
   * succeeded.
   */
  lemma Confirmable(c: Config, weight: nat, f: Frame) returns (r: Trace)
    requires c.depth >= 1 && weight <= c.queuedBytes && NoNonce(c, f) && Fine(f)
    ensures Valid(c, r) && |r.s.reqs| == 1 && r.s.count == r.s.weight == 0
    ensures r.s.reqs[0].pc == Returned(Report(Confirmed, Output(f), [], 1)) && r.s.reqs[0].trail.answers == [f]
  {
    hide Valid, NoNonce, Fine, Output;
    r := Handshake(c);
    r := Admission(c, r, weight, |Output(f)|);
    r := Takes(c, r, r.s.reqs[0]);
    r := Writes(c, r, r.s.reqs[0]);
    r := Prints(c, r, r.s.reqs[0], f);
    r := Receives(c, r, r.s.reqs[0], f, Tagged(Frame(0, c.nonce(0), false), NonceOf(0)));
    r := Confirms(c, r, r.s.reqs[0], f);
    r := Delivers(c, r, r.s.reqs[0], Report(Confirmed, Output(f), [], 1));
  }

  /** So a reply without an error can follow a failed frame of its own, and can lack what a successful one printed. */
  lemma ConfirmedDespite(c: Config, f: Frame) returns (r: Trace)
    requires c.depth >= 1 && NoNonce(c, f) && Stray(f) && (f.failed ==> f.data == [])
    ensures Valid(c, r) && |r.s.reqs| == 1 && r.s.reqs[0].trail.answers == [f]
    ensures r.s.reqs[0].pc == Returned(Report(Confirmed, [], [], 1))
  {
    hide Valid, NoNonce;
    r := Confirmable(c, 0, f);
  }
}
