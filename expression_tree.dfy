/**
 * Expression trees of integer constants, sums and products, with their value
 * and their fully parenthesised rendering. The printed form is read back by
 * `Parse`, which shows that `ToString` loses nothing.
 */
module ExpressionTree {
  import opened Wrappers
  import Decimal

  /** The operation a `BinaryOp` node applies: `Sum` or `Product`. */
  datatype Op = Plus | Times

  datatype Expr = Value(value: int) | BinaryOp(op: Op, lhs: Expr, rhs: Expr)

  /** The factory `Sum(left, right)`. */
  function Sum(left: Expr, right: Expr): (e: Expr)
    ensures e.BinaryOp? && e.op == Plus && e.lhs == left && e.rhs == right
  {
    BinaryOp(Plus, left, right)
  }

  /** The factory `Product(left, right)`. */
  function Product(left: Expr, right: Expr): (e: Expr)
    ensures e.BinaryOp? && e.op == Times && e.lhs == left && e.rhs == right
  {
    BinaryOp(Times, left, right)
  }

  /** `Process` of the node's class. */
  function Process(op: Op, lhs: int, rhs: int): int
  {
    match op
    case Plus => lhs + rhs
    case Times => lhs * rhs
  }

  /** `opName` of the node's class. */
  function OpName(op: Op): char
  {
    match op
    case Plus => '+'
    case Times => '*'
  }

  function Abs(v: int): nat { if v < 0 then -v else v }

  /**
   * `Evaluate`: a constant's value, or `Process` of both children's values.
   * The result never exceeds in size the value of the same tree with every
   * constant replaced by its absolute value.
   */
  function Evaluate(e: Expr): (r: int)
    ensures Abs(r) <= Magnitude(e)
  {
    match e
    case Value(v) => v
    case BinaryOp(op, l, r) =>
      var a, b := Evaluate(l), Evaluate(r);
      ProcessBound(op, a, b, Magnitude(l), Magnitude(r));
      Process(op, a, b)
  }

  /** The value of `e` with every constant replaced by its absolute value. */
  function Magnitude(e: Expr): (m: int)
    ensures m >= 0
  {
    match e
    case Value(v) => Abs(v)
    case BinaryOp(op, l, r) => Process(op, Magnitude(l), Magnitude(r))
  }

  /** `Process` on values bounded by `ma` and `mb` is bounded by `Process` on the bounds. */
  lemma ProcessBound(op: Op, a: int, b: int, ma: int, mb: int)
    requires Abs(a) <= ma && Abs(b) <= mb
    ensures Abs(Process(op, a, b)) <= Process(op, ma, mb)
  {
    if op == Times {
      MulAbs(a, b);
      MulMonotone(Abs(a), Abs(b), ma, mb);
    }
  }

  lemma MulAbs(a: int, b: int)
    ensures Abs(a * b) == Abs(a) * Abs(b)
  {
    if a < 0 && b < 0 {
      assert a * b == (-a) * (-b);
    } else if a < 0 {
      assert -(a * b) == (-a) * b;
    } else if b < 0 {
      assert -(a * b) == a * (-b);
    }
  }

  lemma MulMonotone(x: nat, y: nat, mx: int, my: int)
    requires x <= mx && y <= my
    ensures x * y <= mx * my
  {
    assert x * y <= mx * y;
    assert mx * y <= mx * my;
  }

  /**
   * `ToString`: `to_string` of a constant, `(l)op(r)` for a node. A node's
   * text is the one wrapped in `(` ... `)`; a number's neither starts with
   * `(` nor ends with `)`.
   */
  function ToString(e: Expr): (r: string)
    ensures r != [] && (r[0] == '(' <==> e.BinaryOp?) && (r[|r| - 1] == ')' <==> e.BinaryOp?)
  {
    match e
    case Value(v) =>
      NumberHasNoParens(v);
      Decimal.NatToStringDigits(Abs(v));
      Decimal.IntToString(v)
    case BinaryOp(op, l, r) => "(" + ToString(l) + ")" + [OpName(op)] + "(" + ToString(r) + ")"
  }

  /** An instruction of a stack machine: push a constant, or replace the top two values by their `Process`. */
  datatype Instr = Push(v: int) | Apply(op: Op)

  /** The tree in postfix order: the left operand's code, the right one's, then the operation. */
  function Postfix(e: Expr): seq<Instr>
  {
    match e
    case Value(v) => [Push(v)]
    case BinaryOp(op, l, r) => Postfix(l) + Postfix(r) + [Apply(op)]
  }

  /** Runs `code` on a stack whose top is its first element; `None` when an operation lacks operands. */
  function Exec(code: seq<Instr>, stack: seq<int>): Option<seq<int>>
  {
    if code == [] then Some(stack)
    else match code[0]
      case Push(v) => Exec(code[1..], [v] + stack)
      case Apply(op) =>
        if |stack| < 2 then None else Exec(code[1..], [Process(op, stack[1], stack[0])] + stack[2..])
  }

  /** Running a tree's postfix code pushes exactly its `Evaluate` value, whatever follows and lies below. */
  lemma {:induction false} PostfixEvaluates(e: Expr, rest: seq<Instr>, stack: seq<int>)
    ensures Exec(Postfix(e) + rest, stack) == Exec(rest, [Evaluate(e)] + stack)
  {
    match e
    case Value(v) =>
      assert (Postfix(e) + rest)[1..] == rest;
    case BinaryOp(op, l, r) =>
      var a, b := Evaluate(l), Evaluate(r);
      assert Postfix(e) + rest == Postfix(l) + (Postfix(r) + ([Apply(op)] + rest));
      PostfixEvaluates(l, Postfix(r) + ([Apply(op)] + rest), stack);
      PostfixEvaluates(r, [Apply(op)] + rest, [a] + stack);
      assert ([Apply(op)] + rest)[1..] == rest;
      assert ([b] + ([a] + stack))[2..] == stack;
  }

  /** The stack machine computes what `Evaluate` does: one value, the tree's. */
  lemma StackMachineAgrees(e: Expr)
    ensures Exec(Postfix(e), []) == Some([Evaluate(e)])
  {
    PostfixEvaluates(e, [], []);
    assert Postfix(e) + [] == Postfix(e);
    assert [Evaluate(e)] + [] == [Evaluate(e)];
  }

  /** The expression of the course's test: (2 * 3) + 4 evaluates to 10 and prints as "((2)*(3))+(4)". */
  lemma SampleExpression()
    ensures var e := Sum(Product(Value(2), Value(3)), Value(4));
      Evaluate(e) == 10 && ToString(e) == "((2)*(3))+(4)"
  {
    assert Decimal.NatToString(2) == "2" && Decimal.NatToString(3) == "3" && Decimal.NatToString(4) == "4";
  }

  // Parentheses: depth and well-nestedness of a printed expression.

  function Delta(c: char): int
  {
    if c == '(' then 1 else if c == ')' then -1 else 0
  }

  /** Opening minus closing parentheses. */
  function Depth(s: string): int
  {
    if s == [] then 0 else Delta(s[0]) + Depth(s[1..])
  }

  /** Starting at depth `d`, no prefix of `s` closes more than it opened. */
  predicate Nested(s: string, d: int)
  {
    d >= 0 && (s == [] || Nested(s[1..], d + Delta(s[0])))
  }

  lemma {:induction false} DepthAppend(a: string, b: string)
    ensures Depth(a + b) == Depth(a) + Depth(b)
  {
    if a != [] {
      assert (a + b)[0] == a[0] && (a + b)[1..] == a[1..] + b;
      DepthAppend(a[1..], b);
    } else {
      assert a + b == b;
    }
  }

  lemma {:induction false} NestedAppend(a: string, b: string, d: int)
    requires Nested(a, d) && Nested(b, d + Depth(a))
    ensures Nested(a + b, d)
  {
    if a != [] {
      assert (a + b)[0] == a[0] && (a + b)[1..] == a[1..] + b;
      NestedAppend(a[1..], b, d + Delta(a[0]));
    } else {
      assert a + b == b;
    }
  }

  lemma {:induction false} NoParens(s: string, d: int)
    requires d >= 0 && forall i :: 0 <= i < |s| ==> s[i] != '(' && s[i] != ')'
    ensures Depth(s) == 0 && Nested(s, d)
  {
    if s != [] {
      NoParens(s[1..], d);
    }
  }

  lemma NumberHasNoParens(v: int)
    ensures forall i :: 0 <= i < |Decimal.IntToString(v)| ==>
      Decimal.IntToString(v)[i] != '(' && Decimal.IntToString(v)[i] != ')'
  {
    Decimal.NatToStringDigits(if v < 0 then -v else v);
  }

  /** Every rendering is balanced and never closes a parenthesis it did not open. */
  lemma {:induction false} ToStringBalanced(e: Expr)
    ensures Depth(ToString(e)) == 0 && Nested(ToString(e), 0)
  {
    match e
    case Value(v) =>
      NumberHasNoParens(v);
      NoParens(ToString(e), 0);
    case BinaryOp(op, l, r) =>
      ToStringBalanced(l);
      ToStringBalanced(r);
      BalancedBinary(ToString(l), OpName(op), ToString(r));
  }

  /** `(ls)o(rs)` is balanced when `ls` and `rs` are and `o` is no parenthesis. */
  lemma BalancedBinary(ls: string, o: char, rs: string)
    requires Depth(ls) == 0 && Nested(ls, 0) && Depth(rs) == 0 && Nested(rs, 0)
    requires o != '(' && o != ')'
    ensures Depth("(" + ls + ")" + [o] + "(" + rs + ")") == 0 && Nested("(" + ls + ")" + [o] + "(" + rs + ")", 0)
  {
    var inner := "(" + rs + ")";
    var tail := [o] + inner;
    assert "(" + ls + ")" + [o] + "(" + rs + ")" == "(" + (ls + (")" + tail));
    NestedInside(rs, 0);
    BalancedTail(o, inner);
    WrapLeft(ls, tail);
  }

  /** `o(rs)` is balanced. */
  lemma BalancedTail(o: char, inner: string)
    requires o != '(' && o != ')' && Depth(inner) == 0 && Nested(inner, 0)
    ensures Depth([o] + inner) == 0 && Nested([o] + inner, 0)
  {
    NoParens([o], 0);
    DepthAppend([o], inner);
    NestedAppend([o], inner, 0);
  }

  /** `(ls)tail` is balanced when `ls` and `tail` are. */
  lemma WrapLeft(ls: string, tail: string)
    requires Depth(ls) == 0 && Nested(ls, 0) && Depth(tail) == 0 && Nested(tail, 0)
    ensures Depth("(" + (ls + (")" + tail))) == 0 && Nested("(" + (ls + (")" + tail)), 0)
  {
    NestedInside(ls, 0);
    DepthAppend(")", tail);
    NestedAppend(")", tail, 1);
    DepthAppend(ls, ")" + tail);
    NestedAppend(ls, ")" + tail, 1);
    DepthAppend("(", ls + (")" + tail));
    NestedAppend("(", ls + (")" + tail), 0);
  }

  /** A balanced text wrapped in one pair of parentheses is balanced again. */
  lemma NestedInside(s: string, d: int)
    requires Depth(s) == 0 && Nested(s, 0) && d >= 0
    ensures Nested(s, d + 1) && Nested("(" + s + ")", d) && Depth("(" + s + ")") == 0
  {
    NestedShift(s, 0, d + 1);
    DepthAppend("(", s);
    DepthAppend("(" + s, ")");
    NestedAppend(s, ")", d + 1);
    NestedAppend("(", s + ")", d);
    assert "(" + s + ")" == "(" + (s + ")");
  }

  lemma {:induction false} NestedShift(s: string, d: int, k: int)
    requires Nested(s, d) && k >= 0
    ensures Nested(s, d + k)
  {
    if s != [] {
      NestedShift(s[1..], d + Delta(s[0]), k);
    }
  }

  // Reading a printed expression back.

  /** The index of the `)` that brings depth `d` below zero, if any. */
  function Close(s: string, d: nat): (r: Option<nat>)
    ensures r.Some? ==> r.value < |s| && s[r.value] == ')'
  {
    if s == [] then None
    else if s[0] == ')' && d == 0 then Some(0)
    else
      var d' := d as int + Delta(s[0]);
      if d' < 0 then None
      else match Close(s[1..], d' as nat)
        case None => None
        case Some(k) => Some(k + 1)
  }

  /** An index found in a suffix, as an index of the whole text. */
  function Shift(r: Option<nat>, n: nat): (q: Option<nat>)
    ensures q.None? <==> r.None?
    ensures q.Some? ==> q.value == r.value + n
  {
    if r.None? then None else Some(r.value + n)
  }

  /**
   * `Close` passes over a text that never falls below the starting depth `d`
   * and continues after it at the depth `e` the text ends at.
   */
  lemma {:induction false} CloseSkips(t: string, u: string, d: nat, e: nat)
    requires Nested(t, d) && e == d + Depth(t)
    ensures Close(t + u, d) == Shift(Close(u, e), |t|)
  {
    if t != [] {
      var d' := d + Delta(t[0]);
      assert Nested(t[1..], d');
      CloseSkips(t[1..], u, d', e);
      CloseStep(t, u, d);
    } else {
      assert t + u == u;
    }
  }

  /** One character of `t` that does not fall below depth 0 is passed over. */
  lemma CloseStep(t: string, u: string, d: nat)
    requires t != [] && d + Delta(t[0]) >= 0
    ensures Close(t + u, d) == Shift(Close(t[1..] + u, (d + Delta(t[0])) as nat), 1)
  {
    assert (t + u)[0] == t[0] && (t + u)[1..] == t[1..] + u;
  }

  /** Reads the output of `ToString`: a number, or `(l)o(r)` with `o` one of `+` and `*`. */
  function Parse(s: string): Option<Expr>
    decreases |s|
  {
    if |s| > 0 && s[0] == '(' then
      match Close(s[1..], 0)
      case None => None
      case Some(k) =>
        if k + 4 <= |s| - 1 && s[k + 3] == '(' && s[|s| - 1] == ')' && s[k + 2] in "+*" then
          var op := if s[k + 2] == '+' then Plus else Times;
          match Parse(s[1..k + 1])
          case None => None
          case Some(l) =>
            match Parse(s[k + 4..|s| - 1])
            case None => None
            case Some(r) => Some(BinaryOp(op, l, r))
        else None
    else match Decimal.ParseInt(s)
      case None => None
      case Some(v) => Some(Value(v))
  }

  /** `Parse` reads back every rendering: the printed form determines the tree. */
  lemma {:induction false} ParseToString(e: Expr)
    ensures Parse(ToString(e)) == Some(e)
  {
    match e
    case Value(v) =>
      ParseNumber(v);
    case BinaryOp(op, l, r) =>
      ToStringBalanced(l);
      ParseToString(l);
      ParseToString(r);
      ParseBinary(op, ToString(l), ToString(r), l, r);
  }

  /** A number's text has no `(` and reads back as that number. */
  lemma ParseNumber(v: int)
    ensures Parse(Decimal.IntToString(v)) == Some(Value(v))
  {
    var s := Decimal.IntToString(v);
    Decimal.IntToStringRoundTrip(v);
    NumberHasNoParens(v);
    Decimal.NatToStringDigits(if v < 0 then -v else v);
    assert s[0] != '(';
  }

  /** `(ls)o(rs)` reads back from the trees that `ls` and `rs` read back as, if `ls` is balanced. */
  lemma ParseBinary(op: Op, ls: string, rs: string, l: Expr, r: Expr)
    requires Depth(ls) == 0 && Nested(ls, 0)
    requires Parse(ls) == Some(l) && Parse(rs) == Some(r)
    ensures Parse("(" + ls + ")" + [OpName(op)] + "(" + rs + ")") == Some(BinaryOp(op, l, r))
  {
    BinaryLayout(op, ls, rs);
    CloseAfter(ls, [OpName(op)] + ("(" + rs + ")"));
  }

  /** Where the pieces of `(ls)o(rs)` sit. */
  lemma BinaryLayout(op: Op, ls: string, rs: string)
    ensures var s := "(" + ls + ")" + [OpName(op)] + "(" + rs + ")";
      var k := |ls|;
      |s| == k + |rs| + 5 && s[0] == '(' && s[1..] == ls + (")" + ([OpName(op)] + ("(" + rs + ")"))) &&
      s[k + 2] == OpName(op) && s[k + 3] == '(' && s[|s| - 1] == ')' &&
      s[1..k + 1] == ls && s[k + 4..|s| - 1] == rs
  {
    var s := "(" + ls + ")" + [OpName(op)] + "(" + rs + ")";
    assert s[1..|ls| + 1] == ls;
    assert s[1..] == ls + (")" + ([OpName(op)] + ("(" + rs + ")")));
  }

  /** In `ls)tail` with `ls` balanced, the `)` after `ls` is the one that closes depth 0. */
  lemma CloseAfter(ls: string, tail: string)
    requires Depth(ls) == 0 && Nested(ls, 0)
    ensures Close(ls + (")" + tail), 0) == Some(|ls|)
  {
    CloseSkips(ls, ")" + tail, 0, 0);
  }

  /** Two trees with the same rendering are the same tree. */
  lemma ToStringInjective(a: Expr, b: Expr)
    requires ToString(a) == ToString(b)
    ensures a == b
  {
    ParseToString(a);
    ParseToString(b);
  }
}
