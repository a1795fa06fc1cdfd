/**
 * Event streams as a state machine over their critical sections: readers, the one publisher, finishers and stop, in any
 * interleaving (tmux/event_stream.go, stop in tmux/control.go).
 */
module EventStream {
  import opened Bytes

  // --- State -------------------------------------------------------------------------------------

  datatype Config = Config(eventBytes: nat, maxStreams: nat)

  datatype Event = Event(id: int, size: nat)

  /** Who called finish: the publisher on overflow, stop, or any other goroutine, which has a cause of its own. */
  datatype Finisher = Publisher | Stopper | Other

  /** How far finish has come: terminal set, reservation released, done closed. */
  datatype FinishStep = Set | Freed | Shut

  /** Over: terminal is cause. */
  datatype Life = Live | Over(who: Finisher, cause: int, step: FinishStep)

  /** Next: not called, about to take the lock, or waiting in its select. */
  datatype Reader = Away | Looking | Parked

  /** from and returned are history: the publications before it was registered, and the events Next has returned. */
  datatype Stream = Stream(maxBytes: nat, maxCount: nat, queue: seq<Event>, bytes: int, life: Life, registered: bool,
                           wake: bool, reader: Reader, from: nat, returned: seq<Event>)

  /** publish: between events, about to push to todo, to wake i, to finish i, or inside that finish. */
  datatype Publishing = Resting | Pushing(todo: set<nat>) | Waking(i: nat, todo: set<nat>)
                      | Dropping(i: nat, todo: set<nat>) | Finishing(i: nat, todo: set<nat>)

  /** stop: before, about to finish todo, inside the finish of i, returned. */
  datatype Stopping = Running | Stopping(todo: set<nat>) | Waiting(i: nat, todo: set<nat>) | Stopped

  /** published is history: every event that passed the output filter. */
  datatype State = State(streams: seq<Stream>, reserved: int, published: seq<Event>, publisher: Publishing,
                         stop: Stopping)

  function Init(): State {
    State([], 0, [], Resting, Running)
  }

  // --- Steps ---------------------------------------------------------------------------------------

  const DEFAULT_MAX_BYTES: int := 0x40_0000
  const DEFAULT_MAX_COUNT: int := 256

  function Normalize(maxBytes: int, maxCount: int): Option<(nat, nat)> {
    if maxBytes < 0 || maxCount < 0 then None
    else
      var b := if maxBytes == 0 then DEFAULT_MAX_BYTES else maxBytes;
      var n := if maxCount == 0 then DEFAULT_MAX_COUNT else maxCount;
      if b > 0x100_0000_0000 || n > 0x10_0000 then None else Some((b, n))
  }

  function Sum(ss: seq<Stream>, kind: Kind): int {
    if ss == [] then 0 else Sum(ss[..|ss| - 1], kind) + Share(ss[|ss| - 1], kind)
  }

  datatype Kind = Members | Reservations | Contents

  function Share(x: Stream, kind: Kind): int {
    match kind
    case Members => if x.registered then 1 else 0
    case Reservations => if x.registered then x.maxBytes else 0
    case Contents => x.bytes
  }

  function Registered(s: State): set<nat> {
    set i | 0 <= i < |s.streams| && s.streams[i].registered
  }

  function Put(s: State, i: nat, x: Stream): State
    requires i < |s.streams|
  {
    s.(streams := s.streams[i := x])
  }

  /** Events: refused after stop has marked the connection closed, and beyond either quota. */
  function Register(c: Config, s: State, maxBytes: int, maxCount: int): Option<State> {
    match Normalize(maxBytes, maxCount)
    case None => None
    case Some((b, n)) =>
      if s.stop != Running || Sum(s.streams, Members) >= c.maxStreams || b > c.eventBytes - s.reserved then None
      else
        var x := Stream(b, n, [], 0, Live, true, false, Away, |s.published|, []);
        Some(s.(streams := s.streams + [x], reserved := s.reserved + b))
  }

  /** The first critical section of finish. */
  function End(s: State, i: nat, who: Finisher, cause: int): State
    requires i < |s.streams|
  {
    Put(s, i, s.streams[i].(life := Over(who, cause, Set), queue := [], bytes := 0))
  }

  /** The rest of finish: release, then close(done). */
  function FinishOn(s: State, i: nat): Option<State>
    requires i < |s.streams|
  {
    var x := s.streams[i];
    if x.life.Live? then None
    else
      match x.life.step
      case Set =>
        var y := x.(life := x.life.(step := Freed), registered := false);
        Some(Put(s, i, y).(reserved := if x.registered then s.reserved - x.maxBytes else s.reserved))
      case Freed => Some(Put(s, i, x.(life := x.life.(step := Shut))))
      case Shut => None
  }

  function Overflows(x: Stream, e: Event): bool {
    |x.queue| >= x.maxCount || e.size > x.maxBytes - x.bytes
  }

  /** The critical section of push. */
  function Push(s: State, i: nat, todo: set<nat>): State
    requires i < |s.streams| && s.published != []
  {
    var x := s.streams[i];
    var e := s.published[|s.published| - 1];
    if !x.life.Live? then s.(publisher := Pushing(todo))
    else if Overflows(x, e) then s.(publisher := Dropping(i, todo))
    else Put(s, i, x.(queue := x.queue + [e], bytes := x.bytes + e.size)).(publisher := Waking(i, todo))
  }

  const EVENTS_LOST: int := 0

  /** One step of the publisher; i is the stream it turns to next, as map iteration order is arbitrary. */
  function PublisherStep(s: State, i: nat): Option<State> {
    match s.publisher
    case Resting => None
    case Pushing(todo) =>
      if todo == {} then Some(s.(publisher := Resting))
      else if i in todo && i < |s.streams| && s.published != [] then Some(Push(s, i, todo - {i}))
      else None
    case Waking(j, todo) =>
      if j < |s.streams| then Some(Put(s, j, s.streams[j].(wake := true)).(publisher := Pushing(todo))) else None
    case Dropping(j, todo) =>
      if j >= |s.streams| then None
      else if s.streams[j].life.Live? then Some(End(s, j, Publisher, EVENTS_LOST).(publisher := Finishing(j, todo)))
      else Some(s.(publisher := Pushing(todo)))
    case Finishing(j, todo) =>
      if j < |s.streams| && s.streams[j].life.Over? && s.streams[j].life.step == Shut then
        Some(s.(publisher := Pushing(todo)))
      else None
  }

  /** publish's snapshot of the streams. */
  function Publish(s: State, e: Event): Option<State> {
    if s.publisher == Resting then Some(s.(published := s.published + [e], publisher := Pushing(Registered(s))))
    else None
  }

  /** Next: gaveUp is its context ending. */
  function ReaderStep(s: State, i: nat, gaveUp: bool): Option<State>
    requires i < |s.streams|
  {
    var x := s.streams[i];
    match x.reader
    case Away => Some(Put(s, i, x.(reader := Looking)))
    case Looking =>
      if x.life.Over? || gaveUp then Some(Put(s, i, x.(reader := Away)))
      else if x.queue != [] then
        Some(Put(s, i, x.(queue := x.queue[1..], bytes := x.bytes - x.queue[0].size, reader := Away,
                          returned := x.returned + [x.queue[0]])))
      else Some(Put(s, i, x.(reader := Parked)))
    case Parked =>
      if gaveUp then Some(Put(s, i, x.(reader := Away)))
      else if x.wake then Some(Put(s, i, x.(reader := Looking, wake := false)))
      else if x.life.Over? && x.life.step == Shut then Some(Put(s, i, x.(reader := Looking)))
      else None
  }

  const CLOSED: int := 1

  /** stop: mark closed and take a snapshot, then finish each stream of it. */
  function StopStep(s: State, i: nat): Option<State> {
    match s.stop
    case Running => Some(s.(stop := Stopping(Registered(s))))
    case Stopping(todo) =>
      if todo == {} then Some(s.(stop := Stopped))
      else if i in todo && i < |s.streams| then
        if s.streams[i].life.Live? then Some(End(s, i, Stopper, CLOSED).(stop := Waiting(i, todo - {i})))
        else Some(s.(stop := Stopping(todo - {i})))
      else None
    case Waiting(j, todo) =>
      if j < |s.streams| && s.streams[j].life.Over? && s.streams[j].life.step == Shut then
        Some(s.(stop := Stopping(todo)))
      else None
    case Stopped => None
  }

  datatype Label =
    | RegisterL(maxBytes: int, maxCount: int) | ReaderL(i: nat, gaveUp: bool)
    | PublishL(event: Event) | PublisherL(i: nat)
    | EndL(i: nat, cause: int) | FinishL(i: nat) | StopL(i: nat)

  function Step(c: Config, s: State, l: Label): Option<State> {
    match l
    case RegisterL(maxBytes, maxCount) => Register(c, s, maxBytes, maxCount)
    case ReaderL(i, gaveUp) => if i < |s.streams| then ReaderStep(s, i, gaveUp) else None
    case PublishL(e) => Publish(s, e)
    case PublisherL(i) => PublisherStep(s, i)
    case EndL(i, cause) =>
      if i < |s.streams| && s.streams[i].life.Live? && cause != EVENTS_LOST then Some(End(s, i, Other, cause)) else None
    case FinishL(i) => if i < |s.streams| then FinishOn(s, i) else None
    case StopL(i) => StopStep(s, i)
  }

  function Run(c: Config, s: State, ls: seq<Label>): Option<State>
    decreases |ls|
  {
    if ls == [] then Some(s)
    else
      match Step(c, s, ls[0])
      case None => None
      case Some(t) => Run(c, t, ls[1..])
  }
}
