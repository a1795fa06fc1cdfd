/** The formats guard conditions are made of (tmux/identity.go), and what tmux makes of them. */
module Formats {
  import opened Bytes
  import opened Expression
  import Records

  // --- Printing ----------------------------------------------------------------------------

  /** strconv.Itoa. */
  function Itoa(n: int): bytes {
    if n < 0 then "-" + Records.Dec(-n) else Records.Dec(n)
  }

  function Braced(body: bytes): bytes {
    "#{" + body + "}"
  }

  /** Bytes that could be syntax are written as expansions. */
  function FormatByte(c: byte): bytes {
    if c < ' ' || c > '~' then [c] else Braced("a:" + Itoa(c as int))
  }

  function FormatBytes(s: bytes): bytes {
    if s == [] then [] else FormatByte(s[0]) + FormatBytes(s[1..])
  }

  method FormatText(s: bytes) returns (b: bytes)
    ensures b == FormatBytes(s)
  {
    hide FormatByte;
    b := [];
    for i := 0 to |s|
      invariant b + FormatBytes(s[i..]) == FormatBytes(s)
    {
      assert s[i..][1..] == s[i + 1..];
      Assoc(b, FormatByte(s[i]), FormatBytes(s[i + 1..]));
      b := b + FormatByte(s[i]);
    }
  }

  function EqFormat(variable: bytes, value: bytes): bytes {
    Braced("==:" + (Braced(variable) + "," + FormatBytes(value)))
  }

  function AndFormat(a: bytes, b: bytes): bytes {
    Braced("&&:" + (a + "," + b))
  }

  const YES: bytes := ['1']
  const ENDS: bytes := ['1', ',']

  /** 1 for each item of a loop at which the condition holds. */
  function AnyFormat(loop: byte, condition: bytes): bytes {
    Braced([loop, ':'] + Braced("?" + (condition + "," + ENDS)))
  }

  // --- Expansion, read independently ----------------------------------------------------------

  type Vars = bytes -> bytes

  /** The variables in scope, and those of each window of the target and of each client. */
  datatype Env = Env(vars: Vars, windows: seq<Vars>, clients: seq<Vars>)

  /** The first comma of t outside every expansion, d levels down. */
  function TopComma(t: bytes, d: nat): (r: Option<nat>)
    ensures r.Some? ==> r.value < |t|
    decreases |t|
  {
    if t == [] then None
    else if Pair(t) then Later(2, TopComma(t[2..], if t[1] == '{' then d + 1 else d))
    else if t[0] == ',' && d == 0 then Some(0)
    else if t[0] == '}' then if d == 0 then None else Later(1, TopComma(t[1..], d - 1))
    else Later(1, TopComma(t[1..], d))
  }

  predicate Truthy(s: bytes) {
    s != [] && s != "0"
  }

  function Flag(b: bool): bytes {
    if b then "1" else "0"
  }

  function Decimal(t: bytes, n: nat): Option<nat> {
    if t == [] then Some(n)
    else if '0' <= t[0] <= '9' then Decimal(t[1..], 10 * n + (t[0] as int - '0' as int))
    else None
  }

  /** The expansion of a format, for the directives that guard conditions use; empty where it is malformed. */
  function Eval(t: bytes, e: Env): bytes
    decreases |t|, 1
  {
    if t == [] then []
    else if Pair(t) then
      if t[1] != '{' then [t[1]] + Eval(t[2..], e)
      else
        match CloseIndex(t[2..], 0)
        case None => []
        case Some(k) => Directive(t[2..][..k], e) + Eval(t[2..][k + 1..], e)
    else [t[0]] + Eval(t[1..], e)
  }

  function Directive(body: bytes, e: Env): bytes
    decreases |body|, 0
  {
    if "==:" <= body then
      match TopComma(body[3..], 0)
      case None => []
      case Some(k) => Flag(Eval(body[3..][..k], e) == Eval(body[3..][k + 1..], e))
    else if "&&:" <= body then
      match TopComma(body[3..], 0)
      case None => []
      case Some(k) => Flag(Truthy(Eval(body[3..][..k], e)) && Truthy(Eval(body[3..][k + 1..], e)))
    else if "?" <= body then
      match TopComma(body[1..], 0)
      case None => []
      case Some(k) =>
        var branches := body[1..][k + 1..];
        (match TopComma(branches, 0)
         case None => []
         case Some(j) => if Truthy(Eval(body[1..][..k], e)) then Eval(branches[..j], e) else Eval(branches[j + 1..], e))
    else if "a:" <= body then
      match Decimal(body[2..], 0)
      case None => []
      case Some(n) => if n < 256 then [n as char] else []
    else if "W:" <= body then Each(body[2..], e.windows, e)
    else if "L:" <= body then Each(body[2..], e.clients, e)
    else e.vars(body)
  }

  /** A loop expands its body once for each item. */
  function Each(t: bytes, items: seq<Vars>, e: Env): bytes
    decreases |t|, 2, |items|
  {
    if items == [] then [] else Eval(t, e.(vars := items[0])) + Each(t, items[1..], e)
  }

  // --- Operands ------------------------------------------------------------------------------------

  /** No comma of t stands outside every expansion, d levels down. */
  predicate NoComma(t: bytes, d: nat)
    decreases |t|
  {
    if t == [] then true
    else if Pair(t) then NoComma(t[2..], if t[1] == '{' then d + 1 else d)
    else if t[0] == '}' then d > 0 && NoComma(t[1..], d - 1)
    else (t[0] != ',' || d > 0) && NoComma(t[1..], d)
  }

  /** Text that can stand as an operand: nothing around it can close it or cut it. */
  predicate Operand(t: bytes) {
    Balanced(t) && NoComma(t, 0)
  }

  lemma {:induction false} CommaSkips(t: bytes, rest: bytes, d: nat)
    requires Clean(t) && Depth(t, d) == Some(0) && NoComma(t, d)
    ensures TopComma(t + "," + rest, d) == Some(|t|)
    decreases |t|
  {
    var whole := t + "," + rest;
    if t != [] {
      assert Pair(whole) == Pair(t);
      var n := if Pair(t) then 2 else 1;
      assert whole[n..] == t[n..] + "," + rest;
      if Pair(t) {
        CommaSkips(t[2..], rest, if t[1] == '{' then d + 1 else d);
      } else if t[0] == '}' {
        CommaSkips(t[1..], rest, d - 1);
      } else {
        CommaSkips(t[1..], rest, d);
      }
    }
  }

  lemma {:induction false} CommaAppend(a: bytes, b: bytes, d: nat)
    requires Clean(a) && Depth(a, d) == Some(0) && NoComma(a, d) && NoComma(b, 0)
    ensures NoComma(a + b, d)
    decreases |a|
  {
    if a == [] {
      assert a + b == b;
    } else {
      assert Pair(a + b) == Pair(a);
      var n := if Pair(a) then 2 else 1;
      assert (a + b)[n..] == a[n..] + b;
      if Pair(a) {
        CommaAppend(a[2..], b, if a[1] == '{' then d + 1 else d);
      } else if a[0] == '}' {
        CommaAppend(a[1..], b, d - 1);
      } else {
        CommaAppend(a[1..], b, d);
      }
    }
  }

  /** Inside an expansion no comma is at the top. */
  lemma {:induction false} InsideNoComma(t: bytes, d: nat)
    requires Clean(t) && Depth(t, d) == Some(0)
    ensures NoComma(t + "}", d + 1) && Clean(t + "}") && Depth(t + "}", d + 1) == Some(0)
    decreases |t|
  {
    var whole := t + "}";
    if t == [] {
      assert whole == ['}'] && whole[1..] == [];
    } else {
      assert Pair(whole) == Pair(t);
      var n := if Pair(t) then 2 else 1;
      assert whole[n..] == t[n..] + "}";
      if Pair(t) {
        InsideNoComma(t[2..], if t[1] == '{' then d + 1 else d);
      } else if t[0] == '}' {
        InsideNoComma(t[1..], d - 1);
      } else {
        InsideNoComma(t[1..], d);
      }
    }
  }

  lemma BracedOperand(body: bytes)
    requires Balanced(body)
    ensures Operand(Braced(body))
  {
    InsideNoComma(body, 0);
    var t := Braced(body);
    assert t[0] == '#' && t[1] == '{' && t[2..] == body + "}";
  }

  lemma OperandAppend(a: bytes, b: bytes)
    requires Operand(a) && Operand(b)
    ensures Operand(a + b)
  {
    DepthAppend(a, b, 0);
    CommaAppend(a, b, 0);
  }

  lemma BalancedAppend(a: bytes, b: bytes)
    requires Balanced(a) && Balanced(b)
    ensures Balanced(a + b)
  {
    DepthAppend(a, b, 0);
  }

  // --- What expansion makes of what was printed -------------------------------------------------------

  lemma BracedEval(body: bytes, rest: bytes, e: Env)
    requires Balanced(body)
    ensures Eval(Braced(body) + rest, e) == Directive(body, e) + Eval(rest, e)
  {
    hide Directive, Depth, Clean;
    var t := Braced(body) + rest;
    CloseSkips(body, rest, 0);
    assert t[0] == '#' && t[1] == '{' && t[2..] == body + "}" + rest;
    assert (body + "}" + rest)[..|body|] == body && (body + "}" + rest)[|body| + 1..] == rest;
  }

  lemma BracedAlone(body: bytes, e: Env)
    requires Balanced(body)
    ensures Eval(Braced(body), e) == Directive(body, e)
  {
    hide Directive, Depth, Clean;
    BracedEval(body, [], e);
    assert Braced(body) + [] == Braced(body);
    assert Directive(body, e) + [] == Directive(body, e);
  }

  lemma TwoDigits(c: nat)
    requires 32 <= c < 100
    ensures Itoa(c) == [Records.Digit(c / 10), Records.Digit(c % 10)]
  {
    assert Records.Dec(c / 10) == [Records.Digit(c / 10)];
  }

  lemma ThreeDigits(c: nat)
    requires 100 <= c <= 126
    ensures Itoa(c) == [Records.Digit(c / 100), Records.Digit(c / 10 % 10), Records.Digit(c % 10)]
  {
    assert Records.Dec(c / 100) == [Records.Digit(c / 100)] && c / 10 / 10 == c / 100;
    assert Records.Dec(c / 10) == [Records.Digit(c / 100), Records.Digit(c / 10 % 10)];
  }

  lemma DecimalDigit(d: nat, t: bytes, n: nat)
    requires d < 10
    ensures Decimal([Records.Digit(d)] + t, n) == Decimal(t, 10 * n + d)
  {
    assert ([Records.Digit(d)] + t)[1..] == t;
  }

  predicate Digits(t: bytes) {
    forall i :: 0 <= i < |t| ==> '0' <= t[i] <= '9'
  }

  lemma {:induction false} DecReads(n: nat, rest: bytes)
    ensures Decimal(Records.Dec(n) + rest, 0) == Decimal(rest, n)
    ensures Records.Dec(n)[0] == '0' ==> n == 0
    ensures '0' <= Records.Dec(n)[0] <= '9'
  {
    if n < 10 {
      DecimalDigit(n, rest, 0);
    } else {
      var d := Records.Digit(n % 10);
      assert Records.Dec(n) + rest == Records.Dec(n / 10) + ([d] + rest);
      DecReads(n / 10, [d] + rest);
      DecimalDigit(n % 10, rest, n / 10);
    }
  }

  /** A number is written in digits without leading zeros, with a sign exactly where it is negative. */
  lemma ItoaExactly(n: int)
    ensures Itoa(n) != [] && (Itoa(n)[0] == '-' <==> n < 0)
    ensures n >= 0 ==> Decimal(Itoa(n), 0) == Some(n) && (Itoa(n)[0] == '0' <==> n == 0)
    ensures n < 0 ==> Decimal(Itoa(n)[1..], 0) == Some(-n) && Itoa(n)[1] != '0'
  {
    var m := if n < 0 then -n else n;
    DecReads(m, []);
    assert Records.Dec(m) + [] == Records.Dec(m);
    if n < 0 {
      assert ("-" + Records.Dec(m))[1..] == Records.Dec(m);
    }
  }

  /** The code of a printable byte is read back. */
  lemma CodeOf(c: nat)
    requires 32 <= c <= 126
    ensures Digits(Itoa(c)) && Decimal(Itoa(c), 0) == Some(c)
  {
    hide Itoa, Decimal;
    var low, mid, high := Records.Digit(c % 10), Records.Digit(c / 10 % 10), Records.Digit(c / 100);
    if c < 100 {
      TwoDigits(c);
      assert c / 10 % 10 == c / 10 && Itoa(c) == [mid] + ([low] + []);
      DecimalDigit(c / 10, [low] + [], 0);
    } else {
      ThreeDigits(c);
      assert Itoa(c) == [high] + ([mid] + ([low] + []));
      DecimalDigit(c / 100, [mid] + ([low] + []), 0);
      DecimalDigit(c / 10 % 10, [low] + [], c / 100);
    }
    DecimalDigit(c % 10, [], c / 10);
    DecimalEnd(c);
  }

  lemma DecimalEnd(n: nat)
    ensures Decimal([], n) == Some(n)
  {
  }

  /** Text with no syntax in it. */
  predicate Plain(t: bytes) {
    forall i :: 0 <= i < |t| ==> t[i] != '#' && t[i] != '}' && t[i] != ','
  }

  lemma {:induction false} PlainOperand(t: bytes)
    requires Plain(t)
    ensures Operand(t)
  {
    if t != [] {
      PlainOperand(t[1..]);
    }
  }

  lemma PlainEval(c: byte, rest: bytes, e: Env)
    requires c != '#'
    ensures Eval([c] + rest, e) == [c] + Eval(rest, e)
  {
    assert ([c] + rest)[1..] == rest;
  }

  lemma ByteExpansion(digits: bytes, c: byte, e: Env)
    requires Digits(digits) && Decimal(digits, 0) == Some(c as int)
    ensures Balanced("a:" + digits) && Directive("a:" + digits, e) == [c]
  {
    hide Decimal, Eval, TopComma, Each;
    var body := "a:" + digits;
    assert body[0] == 'a' && body[1] == ':' && body[2..] == digits;
    PlainOperand(body);
  }

  lemma ByteEval(c: byte, rest: bytes, e: Env)
    ensures Operand(FormatByte(c))
    ensures Eval(FormatByte(c) + rest, e) == [c] + Eval(rest, e)
  {
    hide Directive, Eval, Itoa, Operand, Balanced, Decimal;
    if c < ' ' || c > '~' {
      PlainOperand([c]);
      PlainEval(c, rest, e);
    } else {
      var digits := Itoa(c as int);
      CodeOf(c as int);
      ByteExpansion(digits, c, e);
      BracedOperand("a:" + digits);
      BracedEval("a:" + digits, rest, e);
    }
  }

  /**
   * No value can alter the comparison it stands in: nothing cuts or closes its formatted form, which expands to exactly
   * it.
   */
  lemma {:induction false} FormatBytesExact(s: bytes, e: Env)
    ensures Operand(FormatBytes(s)) && Eval(FormatBytes(s), e) == s
  {
    if s == [] {
    } else {
      hide FormatByte, Operand, Eval;
      FormatBytesExact(s[1..], e);
      ByteEval(s[0], FormatBytes(s[1..]), e);
      OperandAppend(FormatByte(s[0]), FormatBytes(s[1..]));
      assert [s[0]] + s[1..] == s;
    }
  }

  // --- Comparisons, conjunctions and loops -----------------------------------------------------------

  /** A variable's name: no syntax, and no directive's prefix. */
  predicate Name(v: bytes) {
    Plain(v) && |v| > 2 && v[0] != '=' && v[0] != '&' && v[0] != '?' && v[1] != ':'
  }

  lemma VariableEval(v: bytes, e: Env)
    requires Name(v)
    ensures Operand(Braced(v)) && Eval(Braced(v), e) == e.vars(v)
  {
    hide Operand, Balanced, Eval, TopComma, Each;
    PlainOperand(v);
    assert Balanced(v) by { OperandBalanced(v); }
    BracedOperand(v);
    BracedAlone(v, e);
  }

  lemma OperandBalanced(t: bytes)
    requires Operand(t)
    ensures Balanced(t)
  {
  }

  /** Two operands after a prefix of three bytes. */
  lemma TwoOperands(prefix: bytes, a: bytes, b: bytes)
    requires |prefix| == 3 && Plain(prefix) && Operand(a) && Operand(b)
    ensures var body := prefix + (a + "," + b);
      && Balanced(body) && prefix <= body && TopComma(body[3..], 0) == Some(|a|)
      && body[3..][..|a|] == a && body[3..][|a| + 1..] == b
  {
    hide Balanced, NoComma, TopComma;
    PlainOperand(prefix);
    BalancedComma(a, b);
    BalancedAppend(prefix, a + "," + b);
    assert (prefix + (a + "," + b))[3..] == a + "," + b;
    CommaAt(a, b);
  }

  lemma CommaAt(a: bytes, b: bytes)
    requires Operand(a)
    ensures TopComma(a + "," + b, 0) == Some(|a|)
  {
    CommaSkips(a, b, 0);
  }

  lemma BalancedComma(a: bytes, b: bytes)
    requires Balanced(a) && Balanced(b)
    ensures Balanced(a + "," + b)
  {
    var comma: bytes := [','];
    assert Balanced(comma) by { assert comma[1..] == []; }
    BalancedAppend(a, comma);
    BalancedAppend(a + comma, b);
  }

  /** eqFormat holds exactly where the variable has the value, whatever bytes the value is made of. */
  lemma EqMeans(variable: bytes, value: bytes, e: Env)
    requires Name(variable)
    ensures Operand(EqFormat(variable, value))
    ensures Eval(EqFormat(variable, value), e) == Flag(e.vars(variable) == value)
  {
    hide Operand, Balanced, Eval, TopComma, Each, FormatBytes, Braced;
    VariableEval(variable, e);
    FormatBytesExact(value, e);
    TwoOperands("==:", Braced(variable), FormatBytes(value));
    var body := "==:" + (Braced(variable) + "," + FormatBytes(value));
    BracedOperand(body);
    BracedAlone(body, e);
  }

  lemma AndMeans(a: bytes, b: bytes, e: Env)
    requires Operand(a) && Operand(b)
    ensures Operand(AndFormat(a, b))
    ensures Eval(AndFormat(a, b), e) == Flag(Truthy(Eval(a, e)) && Truthy(Eval(b, e)))
  {
    hide Operand, Balanced, Eval, TopComma, Each, Braced;
    TwoOperands("&&:", a, b);
    var body := "&&:" + (a + "," + b);
    assert body[0] == '&';
    BracedOperand(body);
    BracedAlone(body, e);
  }

  lemma ChoiceParts(condition: bytes)
    requires Operand(condition)
    ensures var body := "?" + (condition + "," + ENDS);
      && Balanced(body) && body[0] == '?' && body[1..] == condition + "," + ENDS
      && TopComma(body[1..], 0) == Some(|condition|)
      && body[1..][..|condition|] == condition && body[1..][|condition| + 1..] == ENDS
    ensures TopComma(ENDS, 0) == Some(1) && ENDS[..1] == YES && ENDS[2..] == []
  {
    hide Operand, Balanced, TopComma;
    PlainOperand("?");
    PlainOperand(YES);
    PlainOperand([]);
    OperandBalanced("?");
    OperandBalanced(YES);
    OperandBalanced([]);
    OperandBalanced(condition);
    assert ENDS == YES + "," + [];
    BalancedComma(YES, []);
    BalancedComma(condition, ENDS);
    BalancedAppend("?", condition + "," + ENDS);
    assert ("?" + (condition + "," + ENDS))[1..] == condition + "," + ENDS;
    CommaAt(condition, ENDS);
    CommaAt(YES, []);
  }

  /** The body of a loop: 1 where the condition holds, and nothing elsewhere. */
  lemma ChoiceMeans(condition: bytes, e: Env)
    requires Operand(condition)
    ensures Balanced("?" + (condition + "," + ENDS))
    ensures Eval(Braced("?" + (condition + "," + ENDS)), e) == if Truthy(Eval(condition, e)) then YES else []
  {
    hide Operand, Balanced, Each, Braced, Eval, TopComma, Truthy;
    ChoiceParts(condition);
    OneEval(e);
    BracedAlone("?" + (condition + "," + ENDS), e);
  }

  lemma OneEval(e: Env)
    ensures Eval(YES, e) == YES && Eval([], e) == []
  {
    PlainEval('1', [], e);
    assert ['1'] + [] == ['1'];
  }

  function At(e: Env, items: seq<Vars>, i: nat): Env
    requires i < |items|
  {
    e.(vars := items[i])
  }

  /** The condition holds for some window, or for some client. */
  ghost predicate Somewhere(condition: bytes, items: seq<Vars>, e: Env) {
    exists i :: 0 <= i < |items| && Truthy(Eval(condition, At(e, items, i)))
  }

  function Items(loop: byte, e: Env): seq<Vars> {
    if loop == 'W' then e.windows else e.clients
  }

  /** A loop is truthy exactly where the condition holds for some item. */
  lemma {:induction false} EachMeans(condition: bytes, items: seq<Vars>, e: Env)
    requires Operand(condition)
    ensures Truthy(Each(Braced("?" + (condition + "," + ENDS)), items, e))
       <==> Somewhere(condition, items, e)
  {
    hide Eval, Braced, Operand;
    if items != [] {
      var body, rest := Braced("?" + (condition + "," + ENDS)), items[1..];
      ChoiceMeans(condition, At(e, items, 0));
      EachMeans(condition, rest, e);
      assert Each(body, items, e) == Eval(body, At(e, items, 0)) + Each(body, rest, e);
      if Truthy(Eval(condition, At(e, items, 0))) {
        assert Each(body, items, e)[0] == '1';
      } else {
        assert Each(body, items, e) == Each(body, rest, e);
        assert forall i :: 0 <= i < |rest| ==> At(e, rest, i) == At(e, items, i + 1);
        assert forall i :: 1 <= i < |items| ==> At(e, items, i) == At(e, rest, i - 1);
      }
    }
  }

  lemma AnyMeans(loop: byte, condition: bytes, e: Env)
    requires Operand(condition) && (loop == 'W' || loop == 'L')
    ensures Truthy(Eval(AnyFormat(loop, condition), e)) <==> Somewhere(condition, Items(loop, e), e)
  {
    hide Eval, Braced, Operand, Balanced, TopComma, Each, Truthy;
    var inner := Braced("?" + (condition + "," + ENDS));
    var body := [loop, ':'] + inner;
    ChoiceMeans(condition, e);
    BracedOperand("?" + (condition + "," + ENDS));
    OperandBalanced(inner);
    PlainOperand([loop, ':']);
    OperandBalanced([loop, ':']);
    BalancedAppend([loop, ':'], inner);
    BracedAlone(body, e);
    assert body[0] == loop && body[1] == ':' && body[2..] == inner;
    EachMeans(condition, Items(loop, e), e);
  }
}
