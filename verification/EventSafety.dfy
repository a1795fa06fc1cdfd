/** Inductive invariants of event streams, and what they give over every run. */
module EventSafety {
  import opened Bytes
  import opened EventStream

  // --- Invariants ------------------------------------------------------------------------------------

  function Size(q: seq<Event>): nat {
    if q == [] then 0 else Size(q[..|q| - 1]) + q[|q| - 1].size
  }

  /** The publisher has not yet given stream i the latest event, or has dropped it. */
  predicate Behind(p: Publishing, i: nat) {
    match p
    case Resting => false
    case Pushing(todo) => i in todo
    case Waking(_, todo) => i in todo
    case Dropping(j, todo) => i == j || i in todo
    case Finishing(_, todo) => i in todo
  }

  predicate WakeComes(p: Publishing, i: nat) {
    p.Waking? && p.i == i
  }

  /** stop has still to finish stream i. */
  predicate Pending(t: Stopping, i: nat) {
    match t
    case Running => true
    case Stopping(todo) => i in todo
    case Waiting(_, todo) => i in todo
    case Stopped => false
  }

  function Reached(n: nat, behind: bool): nat {
    if behind && n > 0 then n - 1 else n
  }

  predicate Counted(x: Stream) {
    && 0 < x.maxBytes
    && x.bytes == Size(x.queue) <= x.maxBytes
    && |x.queue| <= x.maxCount
  }

  predicate Ended(x: Stream, stop: Stopping, i: nat) {
    && (x.registered <==> x.life.Live? || x.life.step == Set)
    && (x.life.Over? ==> x.queue == [])
    && (x.life.Live? ==> Pending(stop, i))
    && (x.life.Over? && x.life.who == Stopper && x.life.step != Shut ==> stop.Waiting? && stop.i == i)
  }

  /** Nothing published since registration is missing, out of order or repeated. */
  predicate Gapless(x: Stream, published: seq<Event>, behind: bool) {
    && x.from <= |published|
    && (behind ==> x.from < |published|)
    && x.returned <= published[x.from..]
    && (x.life.Live? ==> x.returned + x.queue == published[x.from..Reached(|published|, behind)])
  }

  predicate Wakeful(x: Stream, comes: bool) {
    x.reader == Parked && x.queue != [] ==> x.wake || comes
  }

  /** The publisher stays with a stream it finishes until done is closed. */
  predicate Dropped(x: Stream, p: Publishing, i: nat) {
    x.life.Over? && x.life.who == Publisher && x.life.step != Shut ==> p.Finishing? && p.i == i
  }

  predicate StreamOK(s: State, x: Stream, i: nat) {
    && Counted(x) && Ended(x, s.stop, i) && Dropped(x, s.publisher, i)
    && Gapless(x, s.published, Behind(s.publisher, i)) && Wakeful(x, WakeComes(s.publisher, i))
  }

  predicate Streams(s: State) {
    forall i :: 0 <= i < |s.streams| ==> StreamOK(s, s.streams[i], i)
  }

  predicate Shared(c: Config, s: State) {
    && s.reserved == Sum(s.streams, Reservations) && s.reserved <= c.eventBytes
    && Sum(s.streams, Members) <= c.maxStreams
  }

  predicate PublisherOK(s: State) {
    match s.publisher
    case Resting => true
    case Pushing(todo) => Known(s, todo)
    case Waking(j, todo) => Known(s, todo) && j < |s.streams| && j !in todo
    case Dropping(j, todo) => Known(s, todo) && j < |s.streams| && j !in todo && s.published != []
    case Finishing(j, todo) => Known(s, todo) && j < |s.streams| && j !in todo && s.streams[j].life.Over?
  }

  predicate StopOK(s: State) {
    match s.stop
    case Stopping(todo) => forall i <- todo :: i < |s.streams|
    case Waiting(j, todo) => j < |s.streams| && s.streams[j].life.Over? && forall i <- todo :: i < |s.streams|
    case _ => true
  }

  predicate Known(s: State, todo: set<nat>) {
    (todo != {} ==> s.published != []) && forall i :: i in todo ==> i < |s.streams|
  }

  predicate Inv(c: Config, s: State) {
    Streams(s) && Shared(c, s) && PublisherOK(s) && StopOK(s)
  }

  // --- Frames ------------------------------------------------------------------------------------------

  /** What concerns stream j in the publisher and in stop is as it was. */
  predicate Same(s: State, t: State, j: nat) {
    && Behind(t.publisher, j) == Behind(s.publisher, j)
    && (WakeComes(s.publisher, j) ==> WakeComes(t.publisher, j))
    && (Pending(s.stop, j) ==> Pending(t.stop, j))
    && (s.stop.Waiting? && s.stop.i == j ==> t.stop.Waiting? && t.stop.i == j)
    && (s.publisher.Finishing? && s.publisher.i == j ==> t.publisher.Finishing? && t.publisher.i == j)
  }

  lemma StreamsKeep(s: State, t: State, i: nat)
    requires Streams(s) && i < |s.streams| == |t.streams| && t.streams == s.streams[i := t.streams[i]]
    requires t.published == s.published && forall j: nat :: j != i ==> Same(s, t, j)
    requires StreamOK(t, t.streams[i], i)
    ensures Streams(t)
  {
    hide Counted, Gapless;
    forall j | 0 <= j < |t.streams| ensures StreamOK(t, t.streams[j], j) {
      assert StreamOK(s, s.streams[j], j);
      assert j != i ==> Same(s, t, j);
    }
  }

  lemma {:induction false} SumSet(ss: seq<Stream>, i: nat, x: Stream, kind: Kind)
    requires i < |ss|
    ensures Sum(ss[i := x], kind) == Sum(ss, kind) - Share(ss[i], kind) + Share(x, kind)
  {
    var init := ss[..|ss| - 1];
    if i == |ss| - 1 {
      assert ss[i := x][..|ss| - 1] == init;
    } else {
      assert ss[i := x][..|ss| - 1] == init[i := x];
      SumSet(init, i, x, kind);
    }
  }

  lemma SharedKeeps(c: Config, s: State, t: State, i: nat)
    requires Shared(c, s) && i < |s.streams| == |t.streams| && t.streams == s.streams[i := t.streams[i]]
    requires t.streams[i].maxBytes == s.streams[i].maxBytes
    requires t.streams[i].registered == s.streams[i].registered && t.reserved == s.reserved
    ensures Shared(c, t)
  {
    SumSet(s.streams, i, t.streams[i], Reservations);
    SumSet(s.streams, i, t.streams[i], Members);
  }

  // --- Queues and publications ------------------------------------------------------------------------

  lemma SizeSnoc(q: seq<Event>, e: Event)
    ensures Size(q + [e]) == Size(q) + e.size
  {
    assert (q + [e])[..|q|] == q;
  }

  lemma {:induction false} SizeTail(q: seq<Event>)
    requires q != []
    ensures Size(q) == q[0].size + Size(q[1..])
  {
    if |q| == 1 {
      assert q[1..] == [] && q[..0] == [];
    } else {
      SizeTail(q[..|q| - 1]);
      assert q[1..][..|q| - 2] == q[..|q| - 1][1..];
    }
  }

  /** The latest event is the one a stream that is behind has still to get. */
  lemma PushGapless(x: Stream, published: seq<Event>)
    requires Gapless(x, published, true) && x.life.Live?
    ensures published != [] && x.returned + (x.queue + [published[|published| - 1]]) == published[x.from..]
  {
    var n := |published|;
    assert published[x.from..] == published[x.from..n - 1] + [published[n - 1]];
    assert x.returned + x.queue + [published[n - 1]] == x.returned + (x.queue + [published[n - 1]]);
  }

  lemma PopGapless(x: Stream, published: seq<Event>, behind: bool, y: Stream)
    requires Gapless(x, published, behind) && x.life.Live? && x.queue != []
    requires y == x.(queue := x.queue[1..], bytes := y.bytes, reader := Away, returned := x.returned + [x.queue[0]])
    ensures Gapless(y, published, behind)
  {
    assert y.returned + y.queue == x.returned + x.queue;
    assert published[x.from..Reached(|published|, behind)] <= published[x.from..];
    assert y.returned == (y.returned + y.queue)[..|y.returned|];
  }

  /** A publication: every live stream gets behind, and nothing returned was wrong. */
  lemma PublishGapless(x: Stream, published: seq<Event>, e: Event, behind: bool)
    requires Gapless(x, published, false) && (x.life.Live? ==> behind) && (behind ==> x.registered)
    ensures Gapless(x, published + [e], behind)
  {
    assert (published + [e])[x.from..] == published[x.from..] + [e];
    if behind {
      assert (published + [e])[x.from..|published|] == published[x.from..];
    }
  }

  // --- Every step keeps the invariants ------------------------------------------------------------------

  /** The reader takes the first event. */
  lemma PopOK(x: Stream, published: seq<Event>, behind: bool, y: Stream)
    requires Counted(x) && Gapless(x, published, behind) && x.life.Live? && x.queue != []
    requires y == x.(queue := x.queue[1..], bytes := x.bytes - x.queue[0].size, reader := Away,
                     returned := x.returned + [x.queue[0]])
    ensures Counted(y) && Gapless(y, published, behind)
  {
    hide Gapless;
    SizeTail(x.queue);
    PopGapless(x, published, behind, y);
  }

  /** What a reader's step does to its stream. */
  lemma ReaderLocal(s: State, i: nat, gaveUp: bool, t: State)
    requires i < |s.streams| && StreamOK(s, s.streams[i], i) && ReaderStep(s, i, gaveUp) == Some(t)
    ensures |t.streams| == |s.streams| && StreamOK(t, t.streams[i], i)
  {
    hide Gapless, Counted;
    var x, y := s.streams[i], t.streams[i];
    if x.reader == Looking && x.life.Live? && !gaveUp && x.queue != [] {
      PopOK(x, s.published, Behind(s.publisher, i), y);
    } else {
      SameGapless(x, y, s.published, Behind(s.publisher, i));
      SameCounted(x, y);
    }
  }

  lemma ReaderKeeps(c: Config, s: State, i: nat, gaveUp: bool, t: State)
    requires Inv(c, s) && i < |s.streams| && ReaderStep(s, i, gaveUp) == Some(t)
    ensures Inv(c, t)
  {
    hide StreamOK;
    assert StreamOK(s, s.streams[i], i);
    ReaderLocal(s, i, gaveUp, t);
    StreamsKeep(s, t, i);
    SharedKeeps(c, s, t, i);
  }

  lemma SameGapless(x: Stream, y: Stream, published: seq<Event>, behind: bool)
    requires Gapless(x, published, behind) && y.from == x.from && y.returned == x.returned
    requires (y.queue == x.queue && y.life.Live? == x.life.Live?) || y.life.Over?
    ensures Gapless(y, published, behind)
  {
  }

  lemma EndKeeps(c: Config, s: State, i: nat, who: Finisher, cause: int, t: State)
    requires Inv(c, s) && i < |s.streams| && s.streams[i].life.Live?
    requires t.streams == End(s, i, who, cause).streams && t.reserved == s.reserved && t.published == s.published
    requires forall j: nat :: j != i ==> Same(s, t, j)
    requires Behind(t.publisher, i) ==> Behind(s.publisher, i)
    requires who == Stopper ==> t.stop.Waiting? && t.stop.i == i
    requires who == Publisher ==> t.publisher.Finishing? && t.publisher.i == i
    requires PublisherOK(t) && StopOK(t)
    ensures Inv(c, t)
  {
    hide Gapless;
    var x, y := s.streams[i], t.streams[i];
    assert StreamOK(s, x, i);
    assert Gapless(y, t.published, Behind(t.publisher, i)) by {
      OverGapless(x, y, s.published, Behind(s.publisher, i), Behind(t.publisher, i));
    }
    StreamsKeep(s, t, i);
    SharedKeeps(c, s, t, i);
  }

  lemma OverGapless(x: Stream, y: Stream, published: seq<Event>, behind: bool, now: bool)
    requires Gapless(x, published, behind) && y.from == x.from && y.returned == x.returned && y.life.Over?
    requires now ==> behind
    ensures Gapless(y, published, now)
  {
  }

  lemma FinishKeeps(c: Config, s: State, i: nat, t: State)
    requires Inv(c, s) && i < |s.streams| && FinishOn(s, i) == Some(t)
    ensures Inv(c, t)
  {
    hide Gapless;
    var x := s.streams[i];
    assert StreamOK(s, x, i);
    assert Gapless(t.streams[i], t.published, Behind(t.publisher, i)) by {
      OverGapless(x, t.streams[i], s.published, Behind(s.publisher, i), Behind(s.publisher, i));
    }
    StreamsKeep(s, t, i);
    SumSet(s.streams, i, t.streams[i], Reservations);
    SumSet(s.streams, i, t.streams[i], Members);
  }

  lemma RegisterKeeps(c: Config, s: State, maxBytes: int, maxCount: int, t: State)
    requires Inv(c, s) && Register(c, s, maxBytes, maxCount) == Some(t)
    ensures Inv(c, t)
  {
    hide Gapless, Counted;
    var n := |s.streams|;
    var x := t.streams[n];
    assert t.streams[..n] == s.streams;
    assert Gapless(x, t.published, false) && Counted(x) by { NewStream(x, t.published); }
    assert !Behind(s.publisher, n);
    forall j | 0 <= j < |t.streams| ensures StreamOK(t, t.streams[j], j) {
      if j < n {
        assert StreamOK(s, s.streams[j], j);
      }
    }
  }

  lemma NewStream(x: Stream, published: seq<Event>)
    requires x.maxBytes > 0 && x.queue == [] && x.bytes == 0 && x.from == |published| && x.returned == []
    ensures Gapless(x, published, false) && Counted(x)
  {
  }

  lemma PublishKeeps(c: Config, s: State, e: Event, t: State)
    requires Inv(c, s) && Publish(s, e) == Some(t)
    ensures Inv(c, t)
  {
    hide Gapless, Counted;
    forall j | 0 <= j < |t.streams| ensures StreamOK(t, t.streams[j], j) {
      assert StreamOK(s, s.streams[j], j);
      PublishGapless(s.streams[j], s.published, e, Behind(t.publisher, j));
    }
  }

  lemma PushEnded(c: Config, s: State, i: nat, todo: set<nat>, t: State)
    requires Inv(c, s) && s.publisher == Pushing(todo) && i in todo && i < |s.streams|
    requires s.streams[i].life.Over? && t == s.(publisher := Pushing(todo - {i}))
    ensures Inv(c, t)
  {
    hide Gapless, Counted;
    var x := s.streams[i];
    assert StreamOK(s, x, i);
    OverGapless(x, x, s.published, true, false);
    StreamsKeep(s, t, i);
  }

  /** An overflowing stream stays behind until it is over. */
  lemma PushOverflows(c: Config, s: State, i: nat, todo: set<nat>, t: State)
    requires Inv(c, s) && s.publisher == Pushing(todo) && i in todo && i < |s.streams| && s.published != []
    requires t == s.(publisher := Dropping(i, todo - {i}))
    ensures Inv(c, t)
  {
    hide Gapless, Counted;
    assert StreamOK(s, s.streams[i], i);
    StreamsKeep(s, t, i);
  }

  lemma PushQueues(c: Config, s: State, i: nat, todo: set<nat>, t: State)
    requires Inv(c, s) && s.publisher == Pushing(todo) && i in todo && i < |s.streams| && s.published != []
    requires s.streams[i].life.Live? && !Overflows(s.streams[i], s.published[|s.published| - 1])
    requires t == Push(s, i, todo - {i})
    ensures Inv(c, t)
  {
    hide Gapless, Counted, Size;
    var x, y, e := s.streams[i], t.streams[i], s.published[|s.published| - 1];
    assert StreamOK(s, x, i);
    PushGapless(x, s.published);
    PushedGapless(x, y, s.published);
    PushCounted(x, e, y);
    StreamsKeep(s, t, i);
    SharedKeeps(c, s, t, i);
  }

  lemma PushCounted(x: Stream, e: Event, y: Stream)
    requires Counted(x) && !Overflows(x, e) && y == x.(queue := x.queue + [e], bytes := x.bytes + e.size)
    ensures Counted(y)
  {
    SizeSnoc(x.queue, e);
  }

  lemma PushKeeps(c: Config, s: State, i: nat, todo: set<nat>, t: State)
    requires Inv(c, s) && s.publisher == Pushing(todo) && i in todo && i < |s.streams| && s.published != []
    requires t == Push(s, i, todo - {i})
    ensures Inv(c, t)
  {
    hide Inv, Overflows;
    if s.streams[i].life.Over? {
      PushEnded(c, s, i, todo, t);
    } else if Overflows(s.streams[i], s.published[|s.published| - 1]) {
      PushOverflows(c, s, i, todo, t);
    } else {
      PushQueues(c, s, i, todo, t);
    }
  }

  lemma PushedGapless(x: Stream, y: Stream, published: seq<Event>)
    requires Gapless(x, published, true) && y.from == x.from && y.returned == x.returned
    requires y.returned + y.queue == published[y.from..]
    ensures Gapless(y, published, false)
  {
    assert published[y.from..] == published[y.from..|published|];
  }

  lemma PublisherKeeps(c: Config, s: State, i: nat, t: State)
    requires Inv(c, s) && PublisherStep(s, i) == Some(t)
    ensures Inv(c, t)
  {
    hide Gapless, Counted, Overflows, Push, Shared;
    match s.publisher {
      case Pushing(todo) =>
        if todo != {} {
          PushKeeps(c, s, i, todo, t);
        } else {
          Unchanged(c, s, t);
        }
      case Waking(j, todo) =>
        assert StreamOK(s, s.streams[j], j);
        assert Gapless(t.streams[j], t.published, false) by {
          SameGapless(s.streams[j], t.streams[j], s.published, false);
        }
        assert Counted(t.streams[j]) by { SameCounted(s.streams[j], t.streams[j]); }
        StreamsKeep(s, t, j);
        SharedKeeps(c, s, t, j);
      case Dropping(j, todo) =>
        if s.streams[j].life.Live? {
          EndKeeps(c, s, j, Publisher, EVENTS_LOST, t);
        } else {
          assert StreamOK(s, s.streams[j], j);
          assert Gapless(t.streams[j], t.published, false) by {
            OverGapless(s.streams[j], t.streams[j], s.published, true, false);
          }
          StreamsKeep(s, t, j);
          SharedKeeps(c, s, t, j);
        }
      case Finishing(j, _) =>
        assert StreamOK(s, s.streams[j], j);
        StreamsKeep(s, t, j);
        SharedKeeps(c, s, t, j);
    }
  }

  lemma SameCounted(x: Stream, y: Stream)
    requires Counted(x) && y == x.(wake := y.wake, reader := y.reader)
    ensures Counted(y)
  {
  }

  /** Only the publisher has moved, and no stream is concerned. */
  lemma Unchanged(c: Config, s: State, t: State)
    requires Streams(s) && Shared(c, s) && t.streams == s.streams && t.reserved == s.reserved
    requires t.published == s.published
    requires forall j: nat :: Same(s, t, j)
    ensures Streams(t) && Shared(c, t)
  {
    hide Gapless, Counted;
    forall j | 0 <= j < |t.streams| ensures StreamOK(t, t.streams[j], j) {
      assert StreamOK(s, s.streams[j], j) && Same(s, t, j);
    }
  }

  /** A stream that is over, or registered, needs less of stop. */
  predicate StopsLess(s: State, t: State, j: nat)
    requires j < |s.streams|
  {
    && t.publisher == s.publisher
    && (s.streams[j].life.Live? && Pending(s.stop, j) ==> Pending(t.stop, j))
    && (s.streams[j].life.Over? && s.streams[j].life.step != Shut && s.stop.Waiting? && s.stop.i == j ==>
          t.stop.Waiting? && t.stop.i == j)
  }

  lemma StopKeeps(c: Config, s: State, i: nat, t: State)
    requires Inv(c, s) && StopStep(s, i) == Some(t)
    ensures Inv(c, t)
  {
    hide Gapless, Counted;
    match s.stop {
      case Running =>
        forall j: nat | j < |s.streams| ensures StopsLess(s, t, j) {
          assert StreamOK(s, s.streams[j], j);
        }
        StopUnchanged(c, s, t);
      case Stopping(todo) =>
        if todo != {} && s.streams[i].life.Live? {
          EndKeeps(c, s, i, Stopper, CLOSED, t);
        } else {
          StopUnchanged(c, s, t);
        }
      case Waiting(_, _) => StopUnchanged(c, s, t);
    }
  }

  lemma StopUnchanged(c: Config, s: State, t: State)
    requires Inv(c, s) && t == s.(stop := t.stop) && StopOK(t)
    requires forall j: nat :: j < |s.streams| ==> StopsLess(s, t, j)
    ensures Inv(c, t)
  {
    hide Gapless, Counted;
    forall j | 0 <= j < |t.streams| ensures StreamOK(t, t.streams[j], j) {
      assert StreamOK(s, s.streams[j], j);
      assert StopsLess(s, t, j);
    }
  }

  lemma StepKeeps(c: Config, s: State, l: Label, t: State)
    requires Inv(c, s) && Step(c, s, l) == Some(t)
    ensures Inv(c, t)
  {
    hide StreamOK, Shared, Register, ReaderStep, Publish, PublisherStep, FinishOn, StopStep;
    match l {
      case RegisterL(maxBytes, maxCount) => RegisterKeeps(c, s, maxBytes, maxCount, t);
      case ReaderL(i, gaveUp) => ReaderKeeps(c, s, i, gaveUp, t);
      case PublishL(e) => PublishKeeps(c, s, e, t);
      case PublisherL(i) => PublisherKeeps(c, s, i, t);
      case EndL(i, cause) =>
        assert PublisherOK(t);
        EndKeeps(c, s, i, Other, cause, t);
      case FinishL(i) => FinishKeeps(c, s, i, t);
      case StopL(i) => StopKeeps(c, s, i, t);
    }
  }

  // --- Every run ---------------------------------------------------------------------------------------------

  lemma {:induction false} RunKeeps(c: Config, s: State, ls: seq<Label>, t: State)
    requires Inv(c, s) && Run(c, s, ls) == Some(t)
    ensures Inv(c, t)
    decreases |ls|
  {
    hide Inv, Step;
    if ls != [] {
      var u := Step(c, s, ls[0]).value;
      StepKeeps(c, s, ls[0], u);
      RunKeeps(c, u, ls[1..], t);
    }
  }

  lemma Reachable(c: Config, ls: seq<Label>, s: State)
    requires Run(c, Init(), ls) == Some(s)
    ensures Inv(c, s)
  {
    RunKeeps(c, Init(), ls, s);
  }

  lemma {:induction false} ContentsReserved(s: State, n: nat)
    requires Streams(s) && n <= |s.streams|
    ensures Sum(s.streams[..n], Contents) <= Sum(s.streams[..n], Reservations)
  {
    if n > 0 {
      assert s.streams[..n][..n - 1] == s.streams[..n - 1];
      ContentsReserved(s, n - 1);
      assert StreamOK(s, s.streams[n - 1], n - 1);
    }
  }

  /** The count of members is that of the registered streams. */
  lemma {:induction false} MembersCounted(s: State, n: nat)
    requires n <= |s.streams|
    ensures Sum(s.streams[..n], Members) == |set i | 0 <= i < n && s.streams[i].registered|
  {
    var now := set i | 0 <= i < n && s.streams[i].registered;
    if n > 0 {
      var before := set i | 0 <= i < n - 1 && s.streams[i].registered;
      assert s.streams[..n][..n - 1] == s.streams[..n - 1];
      MembersCounted(s, n - 1);
      assert now == if s.streams[n - 1].registered then before + {n - 1} else before;
    }
  }

  /**
   * Reservations, over every interleaving: exactly the registered streams' quotas are reserved and fit the
   * connection's, every queue keeps to its own quotas with its counter exact, and all queued bytes together fit the
   * reservation.
   */
  lemma ReservationsExact(c: Config, ls: seq<Label>, s: State)
    requires Run(c, Init(), ls) == Some(s)
    ensures s.reserved == Sum(s.streams, Reservations) <= c.eventBytes && |Registered(s)| <= c.maxStreams
    ensures forall i :: 0 <= i < |s.streams| ==>
      var x := s.streams[i]; x.bytes == Size(x.queue) <= x.maxBytes && |x.queue| <= x.maxCount
    ensures Sum(s.streams, Contents) <= s.reserved
  {
    hide Gapless, Wakeful;
    Reachable(c, ls, s);
    assert s.streams[..|s.streams|] == s.streams;
    AllMembers(s);
    ContentsReserved(s, |s.streams|);
    assert forall i :: 0 <= i < |s.streams| ==> StreamOK(s, s.streams[i], i);
  }

  /**
   * Delivery without gaps: what Next has returned is a prefix of what was published since registration; while the
   * stream lives, that and its queue are everything published, but for the event the publisher is still handing out.
   */
  lemma GapFree(c: Config, ls: seq<Label>, s: State, i: nat)
    requires Run(c, Init(), ls) == Some(s) && i < |s.streams|
    ensures var x := s.streams[i];
      && x.from <= |s.published| && x.returned <= s.published[x.from..]
      && (x.life.Live? && !Behind(s.publisher, i) ==> x.returned + x.queue == s.published[x.from..])
      && (Behind(s.publisher, i) ==> x.from < |s.published|)
      && (x.life.Live? && Behind(s.publisher, i) ==> x.returned + x.queue == s.published[x.from..|s.published| - 1])
      && (x.life.Over? ==> x.queue == [])
  {
    Reachable(c, ls, s);
    var x := s.streams[i];
    assert StreamOK(s, x, i);
    assert s.published[x.from..|s.published|] == s.published[x.from..];
  }

  /**
   * No lost wakeup: a reader parked on a queue that is not empty has a wake token or a publisher about to send one, a
   * reader parked on a stream that is over has done closed or a finisher on its way there, and either lets it go on.
   */
  lemma NoLostWakeup(c: Config, ls: seq<Label>, s: State, i: nat)
    requires Run(c, Init(), ls) == Some(s) && i < |s.streams| && s.streams[i].reader == Parked
    ensures s.streams[i].queue != [] ==>
      Step(c, s, ReaderL(i, false)).Some? || (WakeComes(s.publisher, i) && Step(c, s, PublisherL(0)).Some?)
    ensures s.streams[i].life.Over? ==> Step(c, s, ReaderL(i, false)).Some? || Step(c, s, FinishL(i)).Some?
  {
    Reachable(c, ls, s);
    assert StreamOK(s, s.streams[i], i);
  }

  /**
   * No deadlock, over every interleaving: the publisher rests, where it can publish, or can go on with some stream, or
   * the finish it waits for can; and stop has returned, or it or the finish it waits for can go on.
   */
  lemma NeverStuck(c: Config, ls: seq<Label>, s: State, e: Event) returns (i: nat, j: nat)
    requires Run(c, Init(), ls) == Some(s)
    ensures Step(c, s, PublishL(e)).Some? || Step(c, s, PublisherL(i)).Some? || Step(c, s, FinishL(i)).Some?
    ensures s.stop == Stopped || Step(c, s, StopL(j)).Some? || Step(c, s, FinishL(j)).Some?
  {
    hide *;
    Reachable(c, ls, s);
    i := PublisherGoesOn(c, s, e);
    j := StopGoesOn(c, s);
  }

  lemma PublisherGoesOn(c: Config, s: State, e: Event) returns (i: nat)
    requires Inv(c, s)
    ensures Step(c, s, PublishL(e)).Some? || Step(c, s, PublisherL(i)).Some? || Step(c, s, FinishL(i)).Some?
  {
    hide Streams;
    i := 0;
    match s.publisher {
      case Pushing(todo) =>
        if todo != {} {
          i :| i in todo;
        }
      case Finishing(k, _) => i := k;
      case _ =>
    }
  }

  lemma StopGoesOn(c: Config, s: State) returns (j: nat)
    requires Inv(c, s)
    ensures s.stop == Stopped || Step(c, s, StopL(j)).Some? || Step(c, s, FinishL(j)).Some?
  {
    hide Streams;
    j := 0;
    match s.stop {
      case Stopping(todo) =>
        if todo != {} {
          j :| j in todo;
        }
      case Waiting(k, _) => j := k;
      case _ =>
    }
  }

  lemma EndedOnce(c: Config, s: State, l: Label, t: State, i: nat)
    requires Step(c, s, l) == Some(t) && i < |s.streams| && s.streams[i].life.Over?
    ensures i < |t.streams| && t.streams[i].life.Over?
    ensures t.streams[i].life.cause == s.streams[i].life.cause && t.streams[i].life.who == s.streams[i].life.who
    ensures t.streams[i].returned == s.streams[i].returned
  {
  }

  /** A stream's terminal error is set once, and nothing is returned after it. */
  lemma {:induction false} TerminalOnce(c: Config, s: State, ls: seq<Label>, t: State, i: nat)
    requires Run(c, s, ls) == Some(t) && i < |s.streams| && s.streams[i].life.Over?
    ensures i < |t.streams| && t.streams[i].life.Over?
    ensures t.streams[i].life.cause == s.streams[i].life.cause && t.streams[i].returned == s.streams[i].returned
    decreases |ls|
  {
    hide Step;
    if ls != [] {
      var u := Step(c, s, ls[0]).value;
      EndedOnce(c, s, ls[0], u, i);
      TerminalOnce(c, u, ls[1..], t, i);
    }
  }

  // --- What is accepted ------------------------------------------------------------------------------------------

  /** Both quotas of x have room for e. */
  predicate Fits(x: Stream, e: Event) {
    |x.queue| + 1 <= x.maxCount && Size(x.queue) + e.size <= x.maxBytes
  }

  /** The publisher turns to stream i, which lives. */
  predicate Turning(s: State, i: nat) {
    s.publisher.Pushing? && i in s.publisher.todo && i < |s.streams| && s.streams[i].life.Live? && s.published != []
  }

  /**
   * No event that fits is refused, over every interleaving: when the publisher turns to a live stream, the event goes
   * to the end of its queue, and its reader is about to be woken, if and only if both quotas have room for it, and
   * otherwise nothing is queued and the stream is about to be dropped. Nothing else of the stream changes.
   */
  lemma QueuedExactly(c: Config, ls: seq<Label>, s: State, i: nat)
    requires Run(c, Init(), ls) == Some(s) && s.publisher.Pushing? && i in s.publisher.todo
    ensures i < |s.streams| && s.published != [] && PublisherStep(s, i).Some?
    ensures var x, t, e := s.streams[i], PublisherStep(s, i).value, s.published[|s.published| - 1];
      && |t.streams| == |s.streams| && t.streams[i] == x.(queue := t.streams[i].queue, bytes := t.streams[i].bytes)
      && (x.life.Live? && Fits(x, e) <==> t.streams[i].queue == x.queue + [e])
      && (x.life.Live? && Fits(x, e) <==> WakeComes(t.publisher, i))
      && (x.life.Live? && !Fits(x, e) <==> t.publisher == Dropping(i, s.publisher.todo - {i}))
      && (x.life.Live? && !Fits(x, e) ==> t.streams[i] == x)
  {
    hide Gapless, Wakeful;
    Reachable(c, ls, s);
    assert StreamOK(s, s.streams[i], i);
  }

  /** At its n-th step, a run turned to stream i, alive, with an event that did not fit. */
  predicate OverflowedAt(c: Config, ls: seq<Label>, i: nat, n: nat) {
    n < |ls| && ls[n] == PublisherL(i) &&
    match Run(c, Init(), ls[..n])
    case None => false
    case Some(u) => Turning(u, i) && !Fits(u.streams[i], u.published[|u.published| - 1])
  }

  /** Stream i has been found full: it is about to be dropped, or over with EVENTS_LOST. */
  predicate Lost(s: State, i: nat) {
    && i < |s.streams|
    && ((s.streams[i].life.Over? && s.streams[i].life.cause == EVENTS_LOST)
        || (s.publisher.Dropping? && s.publisher.i == i))
  }

  lemma LostByPublisher(c: Config, s: State, j: nat, t: State, i: nat)
    requires PublisherStep(s, j) == Some(t) && Lost(t, i) && !Lost(s, i)
    requires i < |s.streams| && s.streams[i].bytes == Size(s.streams[i].queue)
    ensures j == i && Turning(s, i) && !Fits(s.streams[i], s.published[|s.published| - 1])
  {
  }

  lemma LostByOthers(c: Config, s: State, l: Label, t: State, i: nat)
    requires PublisherOK(s) && Step(c, s, l) == Some(t) && !l.PublisherL? && Lost(t, i)
    ensures Lost(s, i)
  {
    hide Normalize, Registered, Sum;
  }

  lemma LostBy(c: Config, s: State, l: Label, t: State, i: nat)
    requires Inv(c, s) && Step(c, s, l) == Some(t) && Lost(t, i) && !Lost(s, i)
    ensures l == PublisherL(i) && Turning(s, i) && !Fits(s.streams[i], s.published[|s.published| - 1])
  {
    hide Gapless, Wakeful, Ended, PublisherStep, Turning, Fits;
    if l.PublisherL? {
      StreamCount(s, l.i, t, i);
      assert StreamOK(s, s.streams[i], i);
      LostByPublisher(c, s, l.i, t, i);
    } else {
      LostByOthers(c, s, l, t, i);
    }
  }

  lemma StreamCount(s: State, j: nat, t: State, i: nat)
    requires PublisherStep(s, j) == Some(t) && Lost(t, i)
    ensures i < |s.streams|
  {
  }

  lemma {:induction false} RunSnoc(c: Config, s: State, ls: seq<Label>, t: State)
    requires ls != [] && Run(c, s, ls) == Some(t)
    ensures var u := Run(c, s, ls[..|ls| - 1]); u.Some? && Step(c, u.value, ls[|ls| - 1]) == Some(t)
    decreases |ls|
  {
    hide Step;
    if |ls| > 1 {
      assert ls[..|ls| - 1][1..] == ls[1..][..|ls| - 2];
      RunSnoc(c, Step(c, s, ls[0]).value, ls[1..], t);
    } else {
      assert ls[1..] == [] && ls[..0] == [];
    }
  }

  /** Over every run a stream is over with EVENTS_LOST only after an event that did not fit its quotas. */
  lemma {:induction false} LostOnlyWhenFull(c: Config, ls: seq<Label>, s: State, i: nat)
    requires Run(c, Init(), ls) == Some(s) && Lost(s, i)
    ensures exists n :: 0 <= n < |ls| && OverflowedAt(c, ls, i, n)
    decreases |ls|
  {
    hide Inv, Step, Lost, Turning, Fits;
    if ls == [] {
      InitNotLost(i);
    } else {
      var before := ls[..|ls| - 1];
      RunSnoc(c, Init(), ls, s);
      var u := Run(c, Init(), before).value;
      Reachable(c, before, u);
      if Lost(u, i) {
        LostOnlyWhenFull(c, before, u, i);
        var n :| 0 <= n < |before| && OverflowedAt(c, before, i, n);
        assert before[..n] == ls[..n];
        assert OverflowedAt(c, ls, i, n);
      } else {
        LostBy(c, u, ls[|ls| - 1], s, i);
        assert OverflowedAt(c, ls, i, |ls| - 1);
      }
    }
  }

  lemma InitNotLost(i: nat)
    ensures !Lost(Init(), i)
  {
  }

  /** The quotas a caller asks for, with the defaults of 4 MiB and 256 events for zero. */
  predicate Asked(maxBytes: int, maxCount: int, x: Stream) {
    && 0 <= maxBytes <= 0x100_0000_0000 && 0 <= maxCount <= 0x10_0000
    && x.maxBytes == (if maxBytes == 0 then 4 * 1024 * 1024 else maxBytes)
    && x.maxCount == (if maxCount == 0 then 256 else maxCount)
  }

  /**
   * Registration, over every interleaving: a stream is opened if and only if the options are in range, stop has not
   * begun, and one stream and its bytes more fit beside those registered. It starts empty, from the next publication.
   */
  lemma RegisteredExactly(c: Config, ls: seq<Label>, s: State, maxBytes: int, maxCount: int, x: Stream)
    requires Run(c, Init(), ls) == Some(s)
    requires x.queue == x.returned == [] && x.bytes == 0 && x.life == Live && x.registered && !x.wake
    requires x.reader == Away && x.from == |s.published|
    ensures Register(c, s, maxBytes, maxCount)
              == Some(s.(streams := s.streams + [x], reserved := s.reserved + x.maxBytes))
       <==> && Asked(maxBytes, maxCount, x) && s.stop == Running && |Registered(s)| + 1 <= c.maxStreams
            && Sum(s.streams, Reservations) + x.maxBytes <= c.eventBytes
  {
    hide Register, Asked, Streams, PublisherOK, StopOK, Registered, Sum;
    Reachable(c, ls, s);
    AllMembers(s);
    RegisterRule(c, s, maxBytes, maxCount, x);
  }

  lemma AllMembers(s: State)
    ensures Sum(s.streams, Members) == |Registered(s)|
  {
    assert s.streams[..|s.streams|] == s.streams;
    MembersCounted(s, |s.streams|);
  }

  lemma RegisterRule(c: Config, s: State, maxBytes: int, maxCount: int, x: Stream)
    requires x.queue == x.returned == [] && x.bytes == 0 && x.life == Live && x.registered && !x.wake
    requires x.reader == Away && x.from == |s.published|
    ensures Register(c, s, maxBytes, maxCount)
              == Some(s.(streams := s.streams + [x], reserved := s.reserved + x.maxBytes))
       <==> && Asked(maxBytes, maxCount, x) && s.stop == Running && Sum(s.streams, Members) + 1 <= c.maxStreams
            && s.reserved + x.maxBytes <= c.eventBytes
  {
    hide Sum;
    var t := Register(c, s, maxBytes, maxCount);
    if t.Some? {
      assert t.value.streams[|s.streams|] == (s.streams + [x])[|s.streams|] ==> t.value.streams == s.streams + [x];
    }
  }

  /**
   * Next, over every interleaving: when it looks at a live stream that holds events it returns the oldest publication
   * not yet returned, on one that holds none it waits, and on a stream that is over it returns no event. It goes on
   * from waiting exactly on a wake token or a closed done, and then looks again.
   */
  lemma NextExactly(c: Config, ls: seq<Label>, s: State, i: nat)
    requires Run(c, Init(), ls) == Some(s) && i < |s.streams|
    ensures var x, t := s.streams[i], Step(c, s, ReaderL(i, false));
      && (x.reader == Looking ==> t.Some?)
      && (x.reader == Parked ==> (t.Some? <==> x.wake || (x.life.Over? && x.life.step == Shut)))
      && (t.Some? && x.reader == Parked ==> t.value == Put(s, i, x.(reader := Looking, wake := false)))
      && (x.reader == Looking && x.life.Over? ==> t.value == Put(s, i, x.(reader := Away)))
      && (x.reader == Looking && x.life.Live? && x.queue == [] ==> t.value == Put(s, i, x.(reader := Parked)))
    ensures var x, t := s.streams[i], Step(c, s, ReaderL(i, false));
      x.reader == Looking && x.life.Live? && x.queue != [] ==>
        && x.from + |x.returned| < |s.published| && |t.value.streams| == |s.streams|
        && t.value.streams[i].returned == x.returned + [s.published[x.from + |x.returned|]]
        && t.value.streams[i].queue == x.queue[1..] && t.value.streams[i].reader == Away
  {
    Reachable(c, ls, s);
    var x := s.streams[i];
    assert StreamOK(s, x, i);
    if x.life.Live? && x.queue != [] {
      assert (x.returned + x.queue)[|x.returned|] == x.queue[0];
    }
  }

  /** A reader whose context ends can always leave, and leaves the stream and its unread events as they were. */
  lemma GivingUpKeeps(c: Config, s: State, i: nat)
    requires i < |s.streams| && s.streams[i].reader != Away
    ensures Step(c, s, ReaderL(i, true)) == Some(Put(s, i, s.streams[i].(reader := Away)))
  {
  }

  // --- After stop ------------------------------------------------------------------------------------------------

  lemma {:induction false} NothingReserved(ss: seq<Stream>)
    requires forall i :: 0 <= i < |ss| ==> ss[i].maxBytes > 0
    ensures Sum(ss, Reservations) >= 0
    ensures Sum(ss, Reservations) == 0 <==> forall i :: 0 <= i < |ss| ==> !ss[i].registered
  {
    if ss != [] {
      var init := ss[..|ss| - 1];
      NothingReserved(init);
      assert (forall i :: 0 <= i < |ss| ==> !ss[i].registered)
        <==> (forall i :: 0 <= i < |init| ==> !init[i].registered) && !ss[|ss| - 1].registered;
    }
  }

  /** A finisher other than stop has set the terminal error and not yet released the reservation. */
  predicate ReleasePending(x: Stream) {
    x.life.Over? && x.life.step == Set && x.life.who != Stopper
  }

  /**
   * Once stop has returned every stream is over; reservations are zero exactly when no other finisher stands between
   * setting a terminal error and releasing, and each that does can go on.
   */
  lemma AfterStop(c: Config, ls: seq<Label>, s: State)
    requires Run(c, Init(), ls) == Some(s) && s.stop == Stopped
    ensures forall i :: 0 <= i < |s.streams| ==> s.streams[i].life.Over?
    ensures s.reserved == 0 <==> forall i :: 0 <= i < |s.streams| ==> !ReleasePending(s.streams[i])
    ensures forall i :: 0 <= i < |s.streams| && ReleasePending(s.streams[i]) ==>
      FinishOn(s, i).Some? && FinishOn(s, i).value.reserved < s.reserved
  {
    hide Gapless, Wakeful;
    Reachable(c, ls, s);
    assert forall i :: 0 <= i < |s.streams| ==> StreamOK(s, s.streams[i], i);
    NothingReserved(s.streams);
    assert forall i :: 0 <= i < |s.streams| ==> (s.streams[i].registered <==> ReleasePending(s.streams[i]));
  }

  /** Such a finisher does keep a reservation past stop. */
  lemma ReservedAfterStop(c: Config) returns (ls: seq<Label>, s: State)
    requires c.eventBytes >= 1 && c.maxStreams >= 1
    ensures Run(c, Init(), ls) == Some(s) && s.stop == Stopped && s.reserved == 1
  {
    var s1 := Register(c, Init(), 1, 1).value;
    var s2 := End(s1, 0, Other, 2);
    var s3 := StopStep(s2, 0).value;
    assert Registered(s2) == {0};
    var s4 := StopStep(s3, 0).value;
    assert {0} - {0} == {};
    s := StopStep(s4, 0).value;
    ls := [RegisterL(1, 1), EndL(0, 2), StopL(0), StopL(0), StopL(0)];
    RunCons(c, s4, StopL(0), [], s);
    RunCons(c, s3, StopL(0), [StopL(0)], s4);
    RunCons(c, s2, StopL(0), [StopL(0), StopL(0)], s3);
    RunCons(c, s1, EndL(0, 2), [StopL(0), StopL(0), StopL(0)], s2);
    RunCons(c, Init(), RegisterL(1, 1), [EndL(0, 2), StopL(0), StopL(0), StopL(0)], s1);
  }

  lemma RunCons(c: Config, s: State, l: Label, ls: seq<Label>, t: State)
    requires Step(c, s, l) == Some(t)
    ensures Run(c, s, [l] + ls) == Run(c, t, ls)
  {
    assert ([l] + ls)[1..] == ls;
  }
}
