/** What a tmux diagnostic says went wrong: classifyStderr in tmux/executor.go. */
module Diagnostics {
  import opened Bytes

  datatype Class = Permission | NoServer | NotFound | AlreadyExists | Ambiguous | Other

  const CANT_FIND_SESSION: bytes := "can't find session:"
  const NO_BUFFER: bytes := "no buffer "

  predicate Contains(s: bytes, part: bytes) {
    part <= s || (s != [] && Contains(s[1..], part))
  }

  predicate PermissionText(s: bytes) {
    Contains(s, "Permission denied") || Contains(s, "Operation not permitted")
  }

  predicate NoServerText(s: bytes) {
    "error connecting to " <= s || "no server running on " <= s
  }

  predicate NotFoundText(s: bytes) {
    || "can't find pane:" <= s
    || "can't find window:" <= s
    || CANT_FIND_SESSION <= s
    || "can't find client:" <= s
    || "no such session:" <= s
    || "no such buffer:" <= s
    || NO_BUFFER <= s
  }

  function Classify(s: bytes): Class {
    if PermissionText(s) then Permission
    else if NoServerText(s) then NoServer
    else if NotFoundText(s) then NotFound
    else if "duplicate session: " <= s then AlreadyExists
    else if "multiple sessions:" <= s || "ambiguous " <= s then Ambiguous
    else Other
  }

  /** Cutting a text takes no words into it. */
  lemma {:induction false} CutContains(s: bytes, limit: nat, part: bytes)
    requires !Contains(s, part) && part != []
    ensures !Contains(First(limit, s), part)
  {
    var t := First(limit, s);
    if t != [] {
      assert t[1..] == First(limit - 1, s[1..]);
      CutContains(s[1..], limit - 1, part);
      assert t <= s && (part <= t ==> part <= s);
    }
  }

  /** No text shorter than the shortest of its prefixes is a missing target. */
  lemma ShortText(s: bytes)
    requires |s| < |NO_BUFFER|
    ensures Classify(s) != NotFound
  {
    hide PermissionText, NoServerText;
    if NotFoundText(s) {
      PrefixesLong(s);
    }
  }

  lemma PrefixesLong(s: bytes)
    requires NotFoundText(s)
    ensures |s| >= |NO_BUFFER|
  {
    assert |"can't find pane:"| == 16 && |"can't find window:"| == 18 && |CANT_FIND_SESSION| == 19;
    assert |"can't find client:"| == 18 && |"no such session:"| == 16 && |"no such buffer:"| == 15 && |NO_BUFFER| == 10;
  }

  lemma NoPrefix(s: bytes, part: bytes)
    requires part != [] && (s == [] || s[0] != part[0])
    ensures !(part <= s)
  {
  }

  lemma {:induction false} Absent(s: bytes, part: bytes)
    requires part != [] && forall i :: 0 <= i < |s| ==> s[i] != part[0]
    ensures !Contains(s, part)
  {
    NoPrefix(s, part);
    if s != [] {
      Absent(s[1..], part);
    }
  }

  lemma NoBuffer()
    ensures Classify(NO_BUFFER) == NotFound
  {
    hide Contains;
    Absent(NO_BUFFER, "Permission denied");
    Absent(NO_BUFFER, "Operation not permitted");
    assert !PermissionText(NO_BUFFER);
    assert NO_BUFFER[0] == 'n' && |NO_BUFFER| == 10;
    assert !NoServerText(NO_BUFFER) && NO_BUFFER <= NO_BUFFER;
    assert NotFoundText(NO_BUFFER);
  }

  /** A missing session is recognised in a cut diagnostic exactly when its prefix is left whole. */
  lemma SessionSeen(name: bytes, limit: nat)
    requires !PermissionText(CANT_FIND_SESSION + name)
    ensures Classify(First(limit, CANT_FIND_SESSION + name)) == NotFound <==> limit >= |CANT_FIND_SESSION|
  {
    hide Contains;
    var s := CANT_FIND_SESSION + name;
    var t := First(limit, s);
    CutContains(s, limit, "Permission denied");
    CutContains(s, limit, "Operation not permitted");
    if limit >= |CANT_FIND_SESSION| {
      assert CANT_FIND_SESSION <= t;
      assert t[0] == 'c';
    } else {
      assert t == CANT_FIND_SESSION[..limit];
      assert |t| > 11 ==> t[11] == 's';
      assert |t| > 0 ==> t[0] == 'c';
    }
  }

  // --- The whole classification --------------------------------------------------------------------

  /** What tmux says first, and what it means. */
  const PREFIXES: seq<(bytes, Class)> := [
    ("error connecting to ", NoServer), ("no server running on ", NoServer),
    ("can't find pane:", NotFound), ("can't find window:", NotFound), ("can't find session:", NotFound),
    ("can't find client:", NotFound), ("no such session:", NotFound), ("no such buffer:", NotFound),
    ("no buffer ", NotFound), ("duplicate session: ", AlreadyExists), ("multiple sessions:", Ambiguous),
    ("ambiguous ", Ambiguous)]

  /** The system's words for a refused access, anywhere in a text. */
  ghost predicate Refuses(s: bytes) {
    exists a: bytes, b: bytes :: s == a + "Permission denied" + b || s == a + "Operation not permitted" + b
  }

  lemma {:induction false} ContainsAt(s: bytes, part: bytes)
    ensures Contains(s, part) <==> exists a: bytes, b: bytes :: s == a + part + b
  {
    if part <= s {
      assert s == [] + part + s[|part|..];
    } else if s != [] {
      ContainsAt(s[1..], part);
      if Contains(s[1..], part) {
        var a: bytes, b: bytes :| s[1..] == a + part + b;
        assert s == [s[0]] + a + part + b;
      }
      forall a: bytes, b: bytes | s == a + part + b ensures Contains(s[1..], part) {
        assert a == [] ==> part <= s;
        assert s[1..] == a[1..] + part + b;
      }
    }
  }

  lemma RefusesText(s: bytes)
    ensures PermissionText(s) <==> Refuses(s)
  {
    hide Contains;
    ContainsAt(s, "Permission denied");
    ContainsAt(s, "Operation not permitted");
  }

  /** Texts that start alike mean the same. */
  lemma PrefixesAgree(s: bytes, i: nat, j: nat)
    requires i < |PREFIXES| && j < |PREFIXES| && PREFIXES[i].0 <= s && PREFIXES[j].0 <= s
    ensures PREFIXES[i].1 == PREFIXES[j].1
  {
    assert forall k :: 0 <= k < |PREFIXES| && PREFIXES[k].0 <= s ==> Marked(s, PREFIXES[k].1) by {
      forall k | 0 <= k < |PREFIXES| && PREFIXES[k].0 <= s ensures Marked(s, PREFIXES[k].1) {
        PrefixMarks(s, k);
      }
    }
  }

  /** A first, fourth or fifth letter that tells the classes apart. */
  predicate Marked(s: bytes, c: Class) {
    |s| > 4 && match c
    case NoServer => s[0] == 'e' || (s[0] == 'n' && s[3] == 's' && s[4] == 'e')
    case NotFound => s[0] == 'c' || (s[0] == 'n' && s[3] == 's' && s[4] == 'u') || (s[0] == 'n' && s[3] == 'b')
    case AlreadyExists => s[0] == 'd'
    case Ambiguous => s[0] == 'm' || s[0] == 'a'
    case _ => false
  }

  lemma PrefixMarks(s: bytes, k: nat)
    requires k < |PREFIXES| && PREFIXES[k].0 <= s
    ensures Marked(s, PREFIXES[k].1)
  {
    var p := PREFIXES[k].0;
    assert |p| > 4 && s[0] == p[0] && s[3] == p[3] && s[4] == p[4];
  }

  /**
   * A diagnostic with the system's words for a refused access is a permission error, wherever they stand; any other
   * means what the first words of it say, and nothing known where it starts with none of them.
   */
  lemma ClassifyExactly(s: bytes)
    ensures Refuses(s) <==> Classify(s) == Permission
    ensures !Refuses(s) ==> forall k :: 0 <= k < |PREFIXES| && PREFIXES[k].0 <= s ==> Classify(s) == PREFIXES[k].1
    ensures !Refuses(s) && (forall k :: 0 <= k < |PREFIXES| ==> !(PREFIXES[k].0 <= s)) ==> Classify(s) == Other
  {
    hide PermissionText, Refuses;
    RefusesText(s);
    if !Refuses(s) {
      var i := PrefixOf(s);
      forall k | 0 <= k < |PREFIXES| && PREFIXES[k].0 <= s ensures Classify(s) == PREFIXES[k].1 {
        PrefixesAgree(s, i, k);
      }
    }
  }

  /** The prefix Classify goes by, or none. */
  lemma PrefixOf(s: bytes) returns (i: nat)
    requires !PermissionText(s)
    ensures i < |PREFIXES| ==> PREFIXES[i].0 <= s && Classify(s) == PREFIXES[i].1
    ensures i >= |PREFIXES| ==> Classify(s) == Other && forall k :: 0 <= k < |PREFIXES| ==> !(PREFIXES[k].0 <= s)
  {
    hide PermissionText;
    if NoServerText(s) {
      i := if "error connecting to " <= s then 0 else 1;
    } else if NotFoundText(s) {
      i := if "can't find pane:" <= s then 2 else if "can't find window:" <= s then 3
           else if CANT_FIND_SESSION <= s then 4 else if "can't find client:" <= s then 5
           else if "no such session:" <= s then 6 else if "no such buffer:" <= s then 7 else 8;
    } else if "duplicate session: " <= s {
      i := 9;
    } else if "multiple sessions:" <= s {
      i := 10;
    } else if "ambiguous " <= s {
      i := 11;
    } else {
      i := 12;
    }
  }
}
