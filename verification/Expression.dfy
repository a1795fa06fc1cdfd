/** Embedding a user expression in a record format: nestedExpression in internal/wire/records.go. */
module Expression {
  import opened Bytes

  /** The bytes that form an escape or an opening after '#'. */
  predicate Special(c: byte) {
    c == ',' || c == '#' || c == '{' || c == '}' || c == ':'
  }

  predicate Pair(t: bytes) {
    |t| > 1 && t[0] == '#' && Special(t[1])
  }

  // --- The rewriter ---------------------------------------------------------------------

  function Cut(out: bytes, openings: seq<nat>): bytes
    requires openings != [] ==> openings[0] <= |out|
  {
    if openings == [] then out else out[..openings[0]]
  }

  /** The rewriting of t after out, with the positions of the openings not yet closed. */
  function Rewrite(t: bytes, out: bytes, openings: seq<nat>): bytes
    requires openings != [] ==> openings[0] <= |out|
    decreases |t|
  {
    if t == [] || t == "#" then Cut(out, openings)
    else if Pair(t) then
      Rewrite(t[2..], out + t[..2], if t[1] == '{' then openings + [|out|] else openings)
    else if t[0] == '#' then Rewrite(t[2..], out + t[..2], openings)
    else if t[0] == '}' then
      if openings == [] then Rewrite(t[1..], out + "#}", openings)
      else Rewrite(t[1..], out + "}", openings[..|openings| - 1])
    else Rewrite(t[1..], out + [t[0]], openings)
  }

  function Nested(expr: bytes): bytes {
    Rewrite(expr, [], [])
  }

  method NestedExpression(expr: bytes) returns (r: bytes)
    ensures r == Nested(expr)
  {
    var result: bytes := [];
    var openings: seq<nat> := [];
    var index := 0;
    while index < |expr|
      invariant 0 <= index <= |expr|
      invariant openings != [] ==> openings[0] <= |result|
      invariant Nested(expr) == Rewrite(expr[index..], result, openings)
    {
      var c := expr[index];
      ghost var t := expr[index..];
      assert t[1..] == expr[index + 1..];
      if c == '#' {
        if index + 1 == |expr| {
          assert t == "#";
          return Cut(result, openings);
        }
        var next := expr[index + 1];
        assert t[..2] == expr[index..index + 2] && t[2..] == expr[index + 2..];
        if next == '{' {
          openings := openings + [|result|];
        }
        if Special(next) {
          result := result + expr[index..index + 2];
          index := index + 2;
          continue;
        }
        PlainHash(t, result, openings);
      }
      if c == '}' {
        if |openings| == 0 {
          result := result + "#}";
          index := index + 1;
          continue;
        }
        openings := openings[..|openings| - 1];
      }
      result := result + [c];
      index := index + 1;
    }
    return Cut(result, openings);
  }

  /** '#' before an ordinary byte is ordinary itself. */
  lemma PlainHash(t: bytes, out: bytes, openings: seq<nat>)
    requires |t| > 1 && t[0] == '#' && !Special(t[1])
    requires openings != [] ==> openings[0] <= |out|
    ensures Rewrite(t, out, openings) == Rewrite(t[1..], out + "#", openings)
  {
    assert out + t[..2] == out + "#" + [t[1]] && t[1..][1..] == t[2..];
  }

  // --- Balance, read independently ---------------------------------------------------------

  /** The nesting depth after t starting from depth d, or None once it falls below zero. */
  function Depth(t: bytes, d: nat): Option<nat>
    decreases |t|
  {
    if t == [] then Some(d)
    else if Pair(t) then Depth(t[2..], if t[1] == '{' then d + 1 else d)
    else if t[0] == '}' then if d == 0 then None else Depth(t[1..], d - 1)
    else Depth(t[1..], d)
  }

  /** t does not end in a '#' that would capture the byte after it. */
  predicate Clean(t: bytes)
    decreases |t|
  {
    if t == [] then true
    else if Pair(t) then Clean(t[2..])
    else t != "#" && Clean(t[1..])
  }

  predicate Balanced(t: bytes) {
    Clean(t) && Depth(t, 0) == Some(0)
  }

  /** Where the brace that closes an enclosing template stands in t, opened d levels up. */
  function CloseIndex(t: bytes, d: nat): (r: Option<nat>)
    ensures r.Some? ==> r.value < |t|
    decreases |t|
  {
    if t == [] then None
    else if Pair(t) then Later(2, CloseIndex(t[2..], if t[1] == '{' then d + 1 else d))
    else if t[0] == '}' then if d == 0 then Some(0) else Later(1, CloseIndex(t[1..], d - 1))
    else Later(1, CloseIndex(t[1..], d))
  }

  function Later(n: nat, r: Option<nat>): Option<nat> {
    match r
    case None => None
    case Some(k) => Some(n + k)
  }

  lemma {:induction false} DepthAppend(a: bytes, b: bytes, d: nat)
    requires Clean(a)
    ensures Depth(a + b, d) == (match Depth(a, d) case None => None case Some(e) => Depth(b, e))
    ensures Clean(a + b) == Clean(b)
    decreases |a|
  {
    if a == [] {
      assert a + b == b;
    } else {
      var n := if Pair(a) then 2 else 1;
      assert Pair(a + b) == Pair(a);
      assert (a + b)[n..] == a[n..] + b;
      assert a + b != "#";
      if Pair(a) {
        DepthAppend(a[2..], b, if a[1] == '{' then d + 1 else d);
      } else if a[0] == '}' && d > 0 {
        DepthAppend(a[1..], b, d - 1);
      } else {
        DepthAppend(a[1..], b, d);
      }
    }
  }

  // --- The rewriter balances everything -----------------------------------------------------

  /** Every opening on the stack stands after a clean prefix of its own depth. */
  ghost predicate Tracked(out: bytes, openings: seq<nat>) {
    && Clean(out) && Depth(out, 0) == Some(|openings|)
    && forall k :: 0 <= k < |openings| ==>
         openings[k] <= |out| && Clean(out[..openings[k]]) && Depth(out[..openings[k]], 0) == Some(k)
  }

  lemma TrackedStep(out: bytes, piece: bytes, openings: seq<nat>, next: seq<nat>)
    requires Tracked(out, openings) && Clean(piece) && Depth(piece, |openings|) == Some(|next|)
    requires next == openings || next == openings + [|out|] || (openings != [] && next == openings[..|openings| - 1])
    ensures Tracked(out + piece, next)
  {
    DepthAppend(out, piece, 0);
    forall k | 0 <= k < |next|
      ensures next[k] <= |out + piece| && Clean((out + piece)[..next[k]])
      ensures Depth((out + piece)[..next[k]], 0) == Some(k)
    {
      assert (out + piece)[..next[k]] == out[..next[k]];
      if k == |openings| {
        assert out[..|out|] == out;
      }
    }
  }

  lemma {:induction false} RewriteBalanced(t: bytes, out: bytes, openings: seq<nat>)
    requires Tracked(out, openings)
    ensures Balanced(Rewrite(t, out, openings))
    decreases |t|
  {
    if t == [] || t == "#" {
    } else if t[0] == '#' {
      var next := if t[1] == '{' then openings + [|out|] else openings;
      var two := t[..2];
      assert two[2..] == [] && two[1..] == [t[1]] && [t[1]][1..] == [];
      assert Pair(two) == Pair(t);
      if !Pair(t) {
        assert Depth(two, |openings|) == Depth([t[1]], |openings|) == Depth([], |openings|);
      }
      TrackedStep(out, t[..2], openings, next);
      RewriteBalanced(t[2..], out + t[..2], next);
    } else if t[0] == '}' && openings == [] {
      assert "#}"[2..] == [];
      TrackedStep(out, "#}", openings, openings);
      RewriteBalanced(t[1..], out + "#}", openings);
    } else {
      var next := if t[0] == '}' then openings[..|openings| - 1] else openings;
      assert [t[0]][1..] == [];
      TrackedStep(out, [t[0]], openings, next);
      RewriteBalanced(t[1..], out + [t[0]], next);
    }
  }

  /** Whatever the expression, its nested form is balanced. */
  lemma NestedBalanced(expr: bytes)
    ensures Balanced(Nested(expr))
  {
    RewriteBalanced(expr, [], []);
  }

  lemma {:induction false} RewriteIdentity(t: bytes, out: bytes, openings: seq<nat>)
    requires Clean(t) && Depth(t, |openings|) == Some(0)
    requires openings != [] ==> openings[0] <= |out|
    ensures Rewrite(t, out, openings) == out + t
    decreases |t|
  {
    if t == [] {
      assert out + [] == out;
    } else if t[0] == '#' {
      assert !Pair(t) ==> t[1..][1..] == t[2..] && Depth(t[1..], |openings|) == Depth(t[2..], |openings|);
      var next := if t[1] == '{' then openings + [|out|] else openings;
      RewriteIdentity(t[2..], out + t[..2], next);
      assert out + t[..2] + t[2..] == out + t;
    } else {
      var next := if t[0] == '}' then openings[..|openings| - 1] else openings;
      RewriteIdentity(t[1..], out + [t[0]], next);
      assert out + [t[0]] + t[1..] == out + t;
    }
  }

  /** The rewriter leaves alone exactly the balanced expressions; so it is idempotent. */
  lemma NestedFixpoints(t: bytes)
    ensures Nested(t) == t <==> Balanced(t)
    ensures Nested(Nested(t)) == Nested(t)
  {
    NestedBalanced(t);
    var n := Nested(t);
    RewriteIdentity(n, [], []);
    assert [] + n == n;
    if Balanced(t) {
      RewriteIdentity(t, [], []);
      assert [] + t == t;
    }
  }

  // --- What an unbalanced expression keeps -----------------------------------------------------

  /** Where t is cut: at its first opening that no brace closes, at a last lone '#', or nowhere. */
  function CutAt(t: bytes): (n: nat)
    ensures n <= |t|
    decreases |t|
  {
    if t == [] || t == "#" then 0
    else if Pair(t) then
      if t[1] == '{' && CloseIndex(t[2..], 0) == None then 0 else 2 + CutAt(t[2..])
    else 1 + CutAt(t[1..])
  }

  /** t with '#' before each brace that closes nothing, d openings being closed by what follows. */
  function Guarded(t: bytes, d: nat): bytes
    decreases |t|
  {
    if t == [] then []
    else if Pair(t) then t[..2] + Guarded(t[2..], if t[1] == '{' then d + 1 else d)
    else if t[0] == '}' then if d == 0 then "#}" + Guarded(t[1..], 0) else "}" + Guarded(t[1..], d - 1)
    else [t[0]] + Guarded(t[1..], d)
  }

  lemma {:induction false} CloseSooner(t: bytes, d: nat, e: nat)
    requires e <= d && CloseIndex(t, d).Some?
    ensures CloseIndex(t, e).Some?
    decreases |t|
  {
    if Pair(t) {
      var more := if t[1] == '{' then 1 else 0;
      CloseSooner(t[2..], d + more, e + more);
    } else if t[0] == '}' {
      if e > 0 {
        CloseSooner(t[1..], d - 1, e - 1);
      }
    } else {
      CloseSooner(t[1..], d, e);
    }
  }

  /** One token of the part that is kept. */
  lemma GuardedStep(t: bytes, d: nat)
    requires t != [] && CutAt(t) > 0
    ensures Pair(t) ==>
      Guarded(t[..CutAt(t)], d) == t[..2] + Guarded(t[2..][..CutAt(t[2..])], if t[1] == '{' then d + 1 else d)
    ensures !Pair(t) && t[0] == '}' ==>
      Guarded(t[..CutAt(t)], d)
        == (if d == 0 then "#}" else "}") + Guarded(t[1..][..CutAt(t[1..])], if d == 0 then 0 else d - 1)
    ensures !Pair(t) && t[0] != '}' ==> Guarded(t[..CutAt(t)], d) == [t[0]] + Guarded(t[1..][..CutAt(t[1..])], d)
  {
    var kept, n := t[..CutAt(t)], if Pair(t) then 2 else 1;
    assert Pair(kept) == Pair(t);
    assert kept[n..] == t[n..][..CutAt(t[n..])];
    assert Pair(t) ==> kept[..2] == t[..2];
  }

  /** What the closing of t's d-th opening says of the rest of t. */
  lemma CloseStep(t: bytes, d: nat)
    requires t != [] && d > 0
    ensures Pair(t) ==> (CloseIndex(t, d - 1) == None <==> CloseIndex(t[2..], if t[1] == '{' then d else d - 1) == None)
    ensures t[0] != '}' && !Pair(t) ==> (CloseIndex(t, d - 1) == None <==> CloseIndex(t[1..], d - 1) == None)
    ensures t[0] == '}' && d > 1 ==> (CloseIndex(t, d - 1) == None <==> CloseIndex(t[1..], d - 2) == None)
    ensures t[0] == '}' && d == 1 ==> CloseIndex(t, d - 1) == Some(0)
  {
  }

  /** Where an opening that is closed holds more openings, those are closed too. */
  lemma CutStep(t: bytes, d: nat)
    requires t != [] && t != "#" && (d > 0 ==> CloseIndex(t, d - 1).Some?)
    requires Pair(t) && t[1] == '{' && d == 0 ==> CloseIndex(t[2..], 0).Some?
    ensures CutAt(t) == (if Pair(t) then 2 + CutAt(t[2..]) else 1 + CutAt(t[1..]))
  {
    if d > 0 && Pair(t) && t[1] == '{' {
      CloseStep(t, d);
      CloseSooner(t[2..], d, 0);
    }
  }

  /**
   * What follows out: nothing, and out cut off at the outermost opening, where nothing closes that; otherwise t up to
   * where it is cut, its unmatched braces guarded.
   */
  function Kept(t: bytes, out: bytes, openings: seq<nat>): bytes
    requires openings != [] ==> openings[0] <= |out|
  {
    if openings != [] && CloseIndex(t, |openings| - 1) == None then out[..openings[0]]
    else out + Guarded(t[..CutAt(t)], |openings|)
  }

  lemma KeptHash(t: bytes, out: bytes, openings: seq<nat>)
    requires |t| > 1 && t[0] == '#' && !Pair(t) && (openings != [] ==> openings[0] <= |out|)
    ensures Kept(t, out, openings) == Kept(t[1..], out + "#", openings)
  {
    hide Guarded, CutAt, CloseIndex;
    var d := |openings|;
    if d > 0 {
      CloseStep(t, d);
    }
    if d == 0 || CloseIndex(t, d - 1).Some? {
      CutStep(t, d);
      GuardedStep(t, d);
      Assoc(out, "#", Guarded(t[1..][..CutAt(t[1..])], d));
    }
  }

  lemma KeptOpening(t: bytes, out: bytes, openings: seq<nat>)
    requires Pair(t) && t[1] == '{' && (openings != [] ==> openings[0] <= |out|)
    ensures Kept(t, out, openings) == Kept(t[2..], out + t[..2], openings + [|out|])
  {
    hide Guarded, CutAt, CloseIndex;
    var d := |openings|;
    if d > 0 {
      CloseStep(t, d);
    }
    if d == 0 && CloseIndex(t[2..], 0) == None {
      CutHere(t);
      NothingKept(t, d);
      assert (out + t[..2])[..|out|] == out == out + [];
    } else if d == 0 || CloseIndex(t, d - 1).Some? {
      CutStep(t, d);
      GuardedStep(t, d);
      Assoc(out, t[..2], Guarded(t[2..][..CutAt(t[2..])], d + 1));
    }
  }

  lemma KeptToken(t: bytes, out: bytes, openings: seq<nat>)
    requires t != [] && (t[0] == '#' ==> Pair(t) && t[1] != '{') && (openings != [] ==> openings[0] <= |out|)
    ensures Pair(t) ==> Kept(t, out, openings) == Kept(t[2..], out + t[..2], openings)
    ensures t[0] != '#' && t[0] != '}' ==> Kept(t, out, openings) == Kept(t[1..], out + [t[0]], openings)
  {
    hide Guarded, CutAt, CloseIndex;
    var d, n := |openings|, if Pair(t) then 2 else 1;
    assert t[..1] == [t[0]];
    if d > 0 {
      CloseStep(t, d);
    }
    if t[0] != '}' && (d == 0 || CloseIndex(t, d - 1).Some?) {
      CutStep(t, d);
      GuardedStep(t, d);
      Assoc(out, t[..n], Guarded(t[n..][..CutAt(t[n..])], d));
    }
  }

  lemma KeptBrace(t: bytes, out: bytes, openings: seq<nat>)
    requires t != [] && t[0] == '}' && (openings != [] ==> openings[0] <= |out|)
    ensures openings == [] ==> Kept(t, out, openings) == Kept(t[1..], out + "#}", openings)
    ensures openings != [] ==> Kept(t, out, openings) == Kept(t[1..], out + "}", openings[..|openings| - 1])
  {
    hide Guarded, CutAt, CloseIndex;
    var d := |openings|;
    if d > 0 {
      CloseStep(t, d);
    }
    if d == 0 || CloseIndex(t, d - 1).Some? {
      CutStep(t, d);
      GuardedStep(t, d);
      Assoc(out, if d == 0 then "#}" else "}", Guarded(t[1..][..CutAt(t[1..])], if d == 0 then 0 else d - 1));
    } else {
      assert (out + "}")[..openings[0]] == out[..openings[0]];
    }
  }

  lemma {:induction false} RewriteKeeps(t: bytes, out: bytes, openings: seq<nat>)
    requires openings != [] ==> openings[0] <= |out|
    ensures Rewrite(t, out, openings) == Kept(t, out, openings)
    decreases |t|
  {
    if t == [] || t == "#" {
      NothingKept(t, |openings|);
      assert t == "#" ==> t[1..] == [];
      return;
    }
    hide Kept;
    if t[0] == '#' && !Pair(t) {
      PlainHash(t, out, openings);
      KeptHash(t, out, openings);
      RewriteKeeps(t[1..], out + "#", openings);
    } else if Pair(t) && t[1] == '{' {
      KeptOpening(t, out, openings);
      RewriteKeeps(t[2..], out + t[..2], openings + [|out|]);
    } else if t[0] == '}' && openings == [] {
      KeptBrace(t, out, openings);
      RewriteKeeps(t[1..], out + "#}", openings);
    } else if t[0] == '}' {
      KeptBrace(t, out, openings);
      RewriteKeeps(t[1..], out + "}", openings[..|openings| - 1]);
    } else if Pair(t) {
      KeptToken(t, out, openings);
      RewriteKeeps(t[2..], out + t[..2], openings);
    } else {
      KeptToken(t, out, openings);
      RewriteKeeps(t[1..], out + [t[0]], openings);
    }
  }

  lemma CutHere(t: bytes)
    requires Pair(t) && t[1] == '{' && CloseIndex(t[2..], 0) == None
    ensures CutAt(t) == 0
  {
  }

  lemma NothingKept(t: bytes, d: nat)
    requires CutAt(t) == 0
    ensures Guarded(t[..CutAt(t)], d) == []
  {
  }

  /**
   * Whatever the expression, its nested form is all of its bytes up to the first opening that is never closed, or a
   * last lone '#', with '#' before each unmatched brace and nothing else added.
   */
  lemma NestedKeeps(expr: bytes)
    ensures Nested(expr) == Guarded(expr[..CutAt(expr)], 0)
  {
    RewriteKeeps(expr, [], []);
  }

  lemma {:induction false} CloseSkips(t: bytes, rest: bytes, d: nat)
    requires Clean(t) && Depth(t, d) == Some(0)
    ensures CloseIndex(t + "}" + rest, d) == Some(|t|)
    decreases |t|
  {
    var whole := t + "}" + rest;
    if t != [] {
      assert Pair(whole) == Pair(t);
      var n := if Pair(t) then 2 else 1;
      assert whole[n..] == t[n..] + "}" + rest;
      if Pair(t) {
        CloseSkips(t[2..], rest, if t[1] == '{' then d + 1 else d);
      } else if t[0] == '}' {
        CloseSkips(t[1..], rest, d - 1);
      } else {
        CloseSkips(t[1..], rest, d);
      }
    }
  }

  /**
   * A template "#{n:#{l:}" + nested + "}" closes at its own brace: no expression can end it early
   * or swallow its end.
   */
  lemma TemplateCloses(expr: bytes, rest: bytes)
    ensures var body := "n:#{l:}" + Nested(expr); CloseIndex(body + "}" + rest, 0) == Some(|body|)
  {
    var head: bytes := "n:#{l:}";
    NestedBalanced(expr);
    assert Clean(head) && Depth(head, 0) == Some(0) by {
      assert head[1..] == ":#{l:}" && head[1..][1..] == "#{l:}" && "#{l:}"[2..] == "l:}";
      assert "l:}"[1..] == ":}" && ":}"[1..] == "}" && "}"[1..] == [];
    }
    DepthAppend(head, Nested(expr), 0);
    CloseSkips(head + Nested(expr), rest, 0);
  }
}
