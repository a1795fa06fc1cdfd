/**
 * Collecting a request's reply from control frames: handleCollectFrame and appendFrameData in tmux/control_dispatch.go.
 */
module Collector {
  import opened Bytes

  datatype Frame = Frame(flags: nat, data: bytes, failed: bool)

  datatype CollectError = ErrProtocol | ErrOutputLimit | ErrCommandFailed | ErrCanceled | ErrClosed

  /** An unflagged frame that carries a record or a guard marker. */
  predicate LibraryOutput(f: Frame) {
    GUARD_PREFIX <= f.data || RECORD_PREFIX <= f.data
  }

  predicate IsNonce(f: Frame, nonce: bytes) {
    f.data == nonce && !f.failed
  }

  // --- What a list of frames says -----------------------------------------------------------

  /** A frame tmux sent for something other than a command of this connection. */
  predicate Stray(f: Frame) {
    f.flags == 0 && !LibraryOutput(f)
  }

  /** The output of the frames that answer a request, which is not all they hold: see OutputWhole. */
  function OutOf(fs: seq<Frame>): bytes {
    if fs == [] then [] else OutOf(fs[..|fs| - 1]) + (if OwnOutput(fs[|fs| - 1]) then fs[|fs| - 1].data else [])
  }

  predicate OwnOutput(f: Frame) {
    !Stray(f) && !f.failed
  }

  /** The diagnostics of the frames that failed it; during startup unflagged failures are its own. */
  function ErrOf(fs: seq<Frame>, startup: bool): bytes {
    if fs == [] then []
    else ErrOf(fs[..|fs| - 1], startup) + (if OwnFailure(fs[|fs| - 1], startup) then fs[|fs| - 1].data else [])
  }

  predicate OwnFailure(f: Frame, startup: bool) {
    f.failed && (!Stray(f) || (startup && f.data != []))
  }

  /** A frame that leaves a request without an error: it succeeded, or it is stray and empty. */
  predicate Fine(f: Frame) {
    f.failed ==> Stray(f) && f.data == []
  }

  // --- Collecting --------------------------------------------------------------------------------

  /** appendFrameData: false when data had to be cut. */
  method AppendFrameData(dst: bytes, data: bytes, limit: int) returns (grown: bytes, whole: bool)
    ensures whole <==> |dst| + |data| <= limit
    ensures |dst| <= limit ==> grown == dst + First(limit - |dst|, data)
    ensures |dst| > limit ==> grown == dst
  {
    var left := limit - |dst|;
    if |data| > left {
      grown := dst;
      if left > 0 {
        grown := grown + data[..left];
      }
      return grown, false;
    }
    return dst + data, true;
  }

  datatype Limits = Limits(out: nat, err: nat, startup: bool)

  datatype Collected = Collected(stdout: bytes, stderr: bytes, failure: seq<CollectError>)

  const NOTHING: Collected := Collected([], [], [])

  /** One frame other than the nonce. */
  function Take(c: Collected, f: Frame, l: Limits): Collected {
    if Stray(f) && (f.data == [] || !f.failed) then c
    else if Stray(f) && !l.startup then c.(failure := c.failure + [ErrProtocol])
    else if f.failed then
      Collected(c.stdout, Kept(c.stderr, f.data, l.err), c.failure + Cut(c.stderr, f.data, l.err) + [ErrCommandFailed])
    else
      Collected(Kept(c.stdout, f.data, l.out), c.stderr, c.failure + Cut(c.stdout, f.data, l.out))
  }

  function Kept(held: bytes, data: bytes, limit: nat): bytes {
    if |held| > limit then held else held + First(limit - |held|, data)
  }

  function Cut(held: bytes, data: bytes, limit: nat): seq<CollectError> {
    if |held| + |data| > limit then [ErrOutputLimit] else []
  }

  /** The result and failure that collectRequest's loop updates through pointers. */
  class Collection {
    const limits: Limits
    var stdout: bytes
    var stderr: bytes
    var failure: seq<CollectError>

    function Value(): Collected
      reads this
    {
      Collected(stdout, stderr, failure)
    }

    constructor (limits: Limits)
      ensures this.limits == limits && Value() == NOTHING
    {
      this.limits := limits;
      stdout, stderr, failure := [], [], [];
    }

    /** handleCollectFrame: true on the nonce. */
    method Handle(f: Frame, nonce: bytes) returns (done: bool)
      modifies this
      ensures done <==> IsNonce(f, nonce)
      ensures Value() == if done then old(Value()) else Take(old(Value()), f, limits)
    {
      if f.data == nonce && !f.failed {
        return true;
      }
      if f.flags == 0 && !LibraryOutput(f) {
        if |f.data| == 0 || !f.failed {
          return false;
        }
        if !limits.startup {
          failure := failure + [ErrProtocol];
          return false;
        }
      }
      var whole: bool;
      if f.failed {
        stderr, whole := AppendFrameData(stderr, f.data, limits.err);
        if !whole {
          failure := failure + [ErrOutputLimit];
        }
        failure := failure + [ErrCommandFailed];
      } else {
        stdout, whole := AppendFrameData(stdout, f.data, limits.out);
        if !whole {
          failure := failure + [ErrOutputLimit];
        }
      }
      return false;
    }
  }

  /** What frames add up to. */
  function TakeAll(fs: seq<Frame>, l: Limits): Collected {
    if fs == [] then NOTHING else Take(TakeAll(fs[..|fs| - 1], l), fs[|fs| - 1], l)
  }

  /** The frames before the nonce, as far as they have come. */
  function BeforeNonce(fs: seq<Frame>, nonce: bytes): seq<Frame> {
    if fs == [] || IsNonce(fs[0], nonce) then [] else [fs[0]] + BeforeNonce(fs[1..], nonce)
  }

  /** collectRequest over the frames a connection yields: it ends on the nonce, or still waits for it. */
  method CollectFrames(fs: seq<Frame>, nonce: bytes, limits: Limits) returns (c: Collected, done: bool)
    ensures c == TakeAll(BeforeNonce(fs, nonce), limits)
    ensures done <==> exists i :: 0 <= i < |fs| && IsNonce(fs[i], nonce)
  {
    var collection := new Collection(limits);
    assert fs[..0] == [];
    for i := 0 to |fs|
      invariant collection.limits == limits && collection.Value() == TakeAll(fs[..i], limits)
      invariant forall j :: 0 <= j < i ==> !IsNonce(fs[j], nonce)
    {
      NonceAfter(fs, nonce, i);
      var last := collection.Handle(fs[i], nonce);
      if last {
        return collection.Value(), true;
      }
      assert fs[..i + 1][..i] == fs[..i];
    }
    NonceAfter(fs, nonce, |fs|);
    return collection.Value(), false;
  }

  lemma {:induction false} NonceAfter(fs: seq<Frame>, nonce: bytes, i: nat)
    requires i <= |fs| && forall j :: 0 <= j < i ==> !IsNonce(fs[j], nonce)
    ensures i == |fs| || IsNonce(fs[i], nonce) ==> BeforeNonce(fs, nonce) == fs[..i]
  {
    if i > 0 {
      NonceAfter(fs[1..], nonce, i - 1);
      assert i == |fs| || IsNonce(fs[i], nonce) ==> [fs[0]] + fs[1..][..i - 1] == fs[..i];
    }
  }

  /**
   * What was collected from frames: the first bytes of their output and of their diagnostics, and
   * no failure exactly when every frame was fine and nothing was cut.
   */
  ghost predicate Collects(c: Collected, fs: seq<Frame>, l: Limits) {
    && c.stdout == First(l.out, OutOf(fs))
    && c.stderr == First(l.err, ErrOf(fs, l.startup))
    && (c.failure == [] <==> (forall i :: 0 <= i < |fs| ==> Fine(fs[i])) && |OutOf(fs)| <= l.out)
  }

  lemma NextFrame(fs: seq<Frame>, f: Frame, startup: bool)
    ensures OutOf(fs + [f]) == if OwnOutput(f) then OutOf(fs) + f.data else OutOf(fs)
    ensures ErrOf(fs + [f], startup)
         == if OwnFailure(f, startup) then ErrOf(fs, startup) + f.data else ErrOf(fs, startup)
    ensures (forall i :: 0 <= i < |fs + [f]| ==> Fine((fs + [f])[i]))
       <==> (forall i :: 0 <= i < |fs| ==> Fine(fs[i])) && Fine(f)
  {
    hide OwnOutput, OwnFailure, Fine;
    var all := fs + [f];
    assert all[..|fs|] == fs && all[|fs|] == f;
    assert OutOf(fs) + [] == OutOf(fs) && ErrOf(fs, startup) + [] == ErrOf(fs, startup);
    assert forall i :: 0 <= i < |all| ==> all[i] == if i < |fs| then fs[i] else f;
  }

  lemma TakeCollects(c: Collected, fs: seq<Frame>, f: Frame, l: Limits)
    requires Collects(c, fs, l)
    ensures Collects(Take(c, f, l), fs + [f], l)
  {
    hide LibraryOutput, OutOf, ErrOf;
    NextFrame(fs, f, l.startup);
    FirstAppend(l.out, OutOf(fs), f.data);
    FirstAppend(l.err, ErrOf(fs, l.startup), f.data);
    assert |c.stdout| <= l.out && |c.stderr| <= l.err;
  }

  /** The reply is exact, whatever frames come and however the limits cut them. */
  lemma {:induction false} CollectedMeaning(fs: seq<Frame>, l: Limits)
    ensures Collects(TakeAll(fs, l), fs, l)
  {
    if fs != [] {
      CollectedMeaning(fs[..|fs| - 1], l);
      TakeCollects(TakeAll(fs[..|fs| - 1], l), fs[..|fs| - 1], fs[|fs| - 1], l);
      assert fs[..|fs| - 1] + [fs[|fs| - 1]] == fs;
    }
  }

  /**
   * After any frames, a failed frame adds no error exactly when it is unflagged and empty. A stray frame can fail a
   * request that is not its own, but never adds to its output.
   */
  lemma FailureIgnored(fs: seq<Frame>, f: Frame, l: Limits)
    requires f.failed
    ensures TakeAll(fs + [f], l).failure == TakeAll(fs, l).failure <==> f.flags == 0 && f.data == []
    ensures Stray(f) && !l.startup ==>
      TakeAll(fs + [f], l).stdout == TakeAll(fs, l).stdout && TakeAll(fs + [f], l).stderr == TakeAll(fs, l).stderr
  {
    hide TakeAll;
    TakeNext(fs, f, l);
    var c, d := TakeAll(fs, l), TakeAll(fs + [f], l);
    assert f.data == [] ==> !LibraryOutput(f);
    if !(f.flags == 0 && f.data == []) {
      assert |d.failure| > |c.failure|;
    }
  }

  lemma TakeNext(fs: seq<Frame>, f: Frame, l: Limits)
    ensures TakeAll(fs + [f], l) == Take(TakeAll(fs, l), f, l)
  {
    assert (fs + [f])[..|fs|] == fs;
  }

  // --- What is left out ------------------------------------------------------------------------

  /** Everything the successful frames of a list hold. */
  function Printed(fs: seq<Frame>): bytes {
    if fs == [] then [] else Printed(fs[..|fs| - 1]) + (if fs[|fs| - 1].failed then [] else fs[|fs| - 1].data)
  }

  /** A frame that has no output to lose: a successful stray frame is dropped with its data. */
  predicate Retained(f: Frame) {
    f.failed || f.data == [] || !Stray(f)
  }

  lemma {:induction false} OutputFits(fs: seq<Frame>)
    ensures |OutOf(fs)| <= |Printed(fs)|
    ensures |OutOf(fs)| == |Printed(fs)| ==> (forall i :: 0 <= i < |fs| ==> Retained(fs[i]))
  {
    hide LibraryOutput;
    if fs != [] {
      OutputFits(fs[..|fs| - 1]);
      assert forall i :: 0 <= i < |fs| - 1 ==> fs[..|fs| - 1][i] == fs[i];
    }
  }

  lemma {:induction false} OutputKept(fs: seq<Frame>)
    requires forall i :: 0 <= i < |fs| ==> Retained(fs[i])
    ensures OutOf(fs) == Printed(fs)
  {
    hide LibraryOutput;
    if fs != [] {
      OutputKept(fs[..|fs| - 1]);
      assert Retained(fs[|fs| - 1]);
    }
  }

  /** The output of a list is all that its successful frames hold exactly when none of them is dropped. */
  lemma OutputWhole(fs: seq<Frame>)
    ensures OutOf(fs) == Printed(fs) <==> (forall i :: 0 <= i < |fs| ==> Retained(fs[i]))
  {
    hide OutOf, Printed, Retained;
    OutputFits(fs);
    if forall i :: 0 <= i < |fs| ==> Retained(fs[i]) {
      OutputKept(fs);
    }
  }
}
