/** How the expressions of a computation are read: the conversion of an infix text to postfix
    with an operator stack. */
module Shunting {

  /** Why a text is refused. */
  datatype Fault = MismatchedClose | MismatchedOpen | ConsecutiveOperators | OperatorAtEnd | BadCharacter | NoOperators

  datatype Result<T> = Ok(value: T) | Err(fault: Fault)

  /** The output queue, the operator stack (its top last), whether the previous character was
      part of a number, and whether an operator or an opening parenthesis came last. */
  datatype Scan = Scan(output: seq<string>, ops: seq<char>, foundNum: bool, foundOp: bool)

  const START := Scan([], [], false, false)

  predicate IsDigit(c: char) {
    '0' <= c <= '9'
  }

  predicate IsOperator(c: char) {
    c == '+' || c == '-' || c == '*'
  }

  function Precedence(op: char): nat {
    if op == '*' then 3 else 2
  }

  /** The top of the stack stays where it is when something of precedence p comes. */
  predicate TopBelow(ops: seq<char>, p: nat) {
    ops == [] || ops[|ops| - 1] == '(' || Precedence(ops[|ops| - 1]) < p
  }

  /** Moves operators from the stack to the output. */
  function Pop(output: seq<string>, ops: seq<char>, p: nat): (r: (seq<string>, seq<char>))
    ensures TopBelow(r.1, p)
    decreases |ops|
  {
    if TopBelow(ops, p) then (output, ops) else Pop(output + [[ops[|ops| - 1]]], ops[..|ops| - 1], p)
  }

  /** One character; atEnd says that it is the first or the last of the text. */
  function Read(s: Scan, c: char, atEnd: bool): Result<Scan> {
    if IsDigit(c) then
      if s.foundNum && s.output != [] then
        Ok(s.(output := s.output[|s.output| - 1 := s.output[|s.output| - 1] + [c]], foundOp := false))
      else Ok(s.(output := s.output + [[c]], foundNum := true, foundOp := false))
    else if c == ' ' then Ok(s.(foundNum := false))
    else if c == '(' then Ok(Scan(s.output, s.ops + ['('], false, true))
    else if c == ')' then
      var (output, ops) := Pop(s.output, s.ops, 0);
      if ops == [] then Err(MismatchedClose) else Ok(Scan(output, ops[..|ops| - 1], false, false))
    else if IsOperator(c) then
      if s.foundOp then Err(ConsecutiveOperators)
      else if atEnd then Err(OperatorAtEnd)
      else
        var (output, ops) := Pop(s.output, s.ops, Precedence(c));
        Ok(Scan(output, ops + [c], false, true))
    else Err(BadCharacter)
  }

  /** The characters of `text`, which stand from position i on in a text of n. */
  function ReadAll(s: Scan, text: string, i: nat, n: nat): Result<Scan> {
    if text == [] then Ok(s)
    else
      var at := i + |text| - 1;
      match ReadAll(s, text[..|text| - 1], i, n)
      case Err(fault) => Err(fault)
      case Ok(t) => Read(t, text[|text| - 1], at == 0 || at + 1 == n)
  }

  function Finish(s: Scan): Result<seq<string>> {
    if s.ops == [] then Err(NoOperators)
    else
      var (output, ops) := Pop(s.output, s.ops, 0);
      if ops == [] then Ok(output) else Err(MismatchedOpen)
  }

  function Shunted(text: string): Result<seq<string>> {
    match ReadAll(START, text, 0, |text|)
    case Err(fault) => Err(fault)
    case Ok(s) => Finish(s)
  }

  // ---------------------------------------------------------------- the loop

  method PopOperators(output0: seq<string>, ops0: seq<char>, p: nat) returns (output: seq<string>, ops: seq<char>)
    ensures (output, ops) == Pop(output0, ops0, p)
  {
    output, ops := output0, ops0;
    while |ops| > 0 && ops[|ops| - 1] != '(' && p <= Precedence(ops[|ops| - 1])
      invariant Pop(output, ops, p) == Pop(output0, ops0, p)
      decreases |ops|
    {
      output, ops := output + [[ops[|ops| - 1]]], ops[..|ops| - 1];
    }
  }

  /** ASTree::shunt */
  method Shunt(expression: string) returns (r: Result<seq<string>>)
    ensures r == Shunted(expression)
  {
    hide Pop;
    var outputQ: seq<string>, operatorStack: seq<char> := [], [];
    var foundNum, foundOperationOperator := false, false;
    var n, i := |expression|, 0;
    while i < n
      invariant 0 <= i <= n
      invariant foundNum ==> outputQ != []
      invariant ReadAll(START, expression[..i], 0, n) == Ok(Scan(outputQ, operatorStack, foundNum, foundOperationOperator))
    {
      var token := expression[i];
      ghost var s := Scan(outputQ, operatorStack, foundNum, foundOperationOperator);
      assert expression[..i + 1][..i] == expression[..i];
      ghost var next := Read(s, token, i == 0 || i == n - 1);
      assert ReadAll(START, expression[..i + 1], 0, n) == next;
      if next.Err? {
        FaultStays(START, expression, i + 1, n);
      }
      i := i + 1;
      if IsDigit(token) {
        foundOperationOperator := false;
        if foundNum {
          outputQ := outputQ[|outputQ| - 1 := outputQ[|outputQ| - 1] + [token]];
        } else {
          outputQ, foundNum := outputQ + [[token]], true;
        }
      } else {
        foundNum := false;
        if token == '(' {
          operatorStack, foundOperationOperator := operatorStack + [token], true;
        } else if token == ')' {
          foundOperationOperator := false;
          outputQ, operatorStack := PopOperators(outputQ, operatorStack, 0);
          if |operatorStack| == 0 {
            return Err(MismatchedClose);
          }
          operatorStack := operatorStack[..|operatorStack| - 1];
        } else if IsOperator(token) {
          if foundOperationOperator {
            return Err(ConsecutiveOperators);
          }
          foundOperationOperator := true;
          if i - 1 == 0 || i - 1 == n - 1 {
            return Err(OperatorAtEnd);
          }
          outputQ, operatorStack := PopOperators(outputQ, operatorStack, Precedence(token));
          operatorStack := operatorStack + [token];
        } else if token != ' ' {
          return Err(BadCharacter);
        }
      }
    }
    assert expression[..i] == expression;
    if |operatorStack| == 0 {
      return Err(NoOperators);
    }
    outputQ, operatorStack := PopOperators(outputQ, operatorStack, 0);
    return if |operatorStack| == 0 then Ok(outputQ) else Err(MismatchedOpen);
  }

  lemma {:induction false} FaultStays(s: Scan, text: string, k: nat, n: nat)
    requires k <= |text| && ReadAll(s, text[..k], 0, n).Err?
    ensures ReadAll(s, text, 0, n) == ReadAll(s, text[..k], 0, n)
    decreases |text|
  {
    if k < |text| {
      assert text[..|text| - 1][..k] == text[..k];
      FaultStays(s, text[..|text| - 1], k, n);
    } else {
      assert text[..k] == text;
    }
  }

  // ---------------------------------------------------------------- expressions

  /** Infix expressions as they can be written, with the number of spaces before each token. */
  datatype Expr =
    | Num(gap: nat, digits: string)
    | Paren(gap: nat, inner: Expr, gapAfter: nat)
    | Bin(left: Expr, gap: nat, op: char, right: Expr)

  predicate AllDigits(s: string) {
    forall i :: 0 <= i < |s| ==> IsDigit(s[i])
  }

  /** A sum or difference; any other expression is a product, a number or in parentheses. */
  predicate IsSum(e: Expr) {
    e.Bin? && (e.op == '+' || e.op == '-')
  }

  /** Sums and differences of products, and products of numbers and parentheses, both grouped
      from the left: on the right of + and - stands no other sum, on the left of * no sum, and on
      its right no operation at all. */
  predicate WellFormed(e: Expr) {
    match e
    case Num(_, digits) => digits != [] && AllDigits(digits)
    case Paren(_, inner, _) => WellFormed(inner)
    case Bin(l, _, op, r) =>
      && WellFormed(l) && WellFormed(r)
      && if op == '*' then !IsSum(l) && !r.Bin? else IsSum(e) && !IsSum(r)
  }

  function Spaces(n: nat): (s: string)
    ensures |s| == n
  {
    if n == 0 then [] else Spaces(n - 1) + [' ']
  }

  function Text(e: Expr): string {
    match e
    case Num(gap, digits) => Spaces(gap) + digits
    case Paren(gap, inner, gapAfter) => Spaces(gap) + ['('] + Text(inner) + Spaces(gapAfter) + [')']
    case Bin(l, gap, op, r) => Text(l) + Spaces(gap) + [op] + Text(r)
  }

  function Postfix(e: Expr): seq<string> {
    match e
    case Num(_, digits) => [digits]
    case Paren(_, inner, _) => Postfix(inner)
    case Bin(l, _, op, r) => Postfix(l) + Postfix(r) + [[op]]
  }

  // ---------------------------------------------------------------- values

  /** What expressions are about: what the numbers stand for, and the three operations, may be
      anything. */
  datatype Algebra<!V> = Algebra(leaf: string -> V, apply: (char, V, V) -> V)

  function Value<V>(e: Expr, alg: Algebra<V>): V {
    match e
    case Num(_, digits) => alg.leaf(digits)
    case Paren(_, inner, _) => Value(inner, alg)
    case Bin(l, _, op, r) => alg.apply(op, Value(l, alg), Value(r, alg))
  }

  /** What evaluating postfix leaves on a stack of values, unless it gets stuck. */
  datatype Evaluation<V> = Stack(values: seq<V>) | Stuck

  function Evaluate<V>(values: seq<V>, postfix: seq<string>, alg: Algebra<V>): Evaluation<V> {
    if postfix == [] then Stack(values)
    else
      match Evaluate(values, postfix[..|postfix| - 1], alg)
      case Stuck => Stuck
      case Stack(vs) => Perform(vs, postfix[|postfix| - 1], alg)
  }

  function Perform<V>(vs: seq<V>, entry: string, alg: Algebra<V>): Evaluation<V> {
    if |entry| == 1 && IsOperator(entry[0]) then
      if |vs| < 2 then Stuck
      else Stack(vs[..|vs| - 2] + [alg.apply(entry[0], vs[|vs| - 2], vs[|vs| - 1])])
    else if AllDigits(entry) then Stack(vs + [alg.leaf(entry)])
    else Stuck
  }

  lemma {:induction false} EvaluateAppend<V>(vs: seq<V>, a: seq<string>, b: seq<string>, alg: Algebra<V>)
    ensures Evaluate(vs, a + b, alg)
         == match Evaluate(vs, a, alg) case Stuck => Stuck case Stack(us) => Evaluate(us, b, alg)
  {
    if b == [] {
      assert a + b == a;
    } else {
      EvaluateAppend(vs, a, b[..|b| - 1], alg);
      assert (a + b)[..|a + b| - 1] == a + b[..|b| - 1];
    }
  }

  lemma EvaluateOne<V>(vs: seq<V>, entry: string, alg: Algebra<V>)
    ensures Evaluate(vs, [entry], alg) == Perform(vs, entry, alg)
  {
    assert [entry][..0] == [];
  }

  /** Postfix means what the expression means, whatever the operands and operations are. */
  lemma {:induction false} PostfixValue<V>(e: Expr, vs: seq<V>, alg: Algebra<V>)
    requires WellFormed(e)
    ensures Evaluate(vs, Postfix(e), alg) == Stack(vs + [Value(e, alg)])
    decreases e
  {
    match e
    case Num(_, digits) =>
      EvaluateOne(vs, digits, alg);
      assert IsDigit(digits[0]);
    case Paren(_, inner, _) => PostfixValue(inner, vs, alg);
    case Bin(l, _, op, r) =>
      var a, b := Value(l, alg), Value(r, alg);
      PostfixValue(l, vs, alg);
      PostfixValue(r, vs + [a], alg);
      EvaluateAppend(vs, Postfix(l), Postfix(r), alg);
      EvaluateAppend(vs, Postfix(l) + Postfix(r), [[op]], alg);
      EvaluateOne(vs + [a] + [b], [op], alg);
      assert vs + [a] + [b] == vs + [a, b];
  }

  // ---------------------------------------------------------------- precedence

  /** How tightly an expression binds; what is no operation binds tightest. */
  function Binding(e: Expr): nat {
    if e.Bin? then Precedence(e.op) else 4
  }

  /** The grouping that the precedences are to give: an operand on the left binds at least as
      tightly as the operation, and one on the right more tightly. */
  lemma OperandsBind(e: Expr)
    requires e.Bin? && WellFormed(e)
    ensures IsOperator(e.op) && Binding(e.left) >= Precedence(e.op) && Binding(e.right) > Precedence(e.op)
  {
    assert e.right.Bin? ==> IsSum(e.right) || e.right.op == '*';
  }

  // ---------------------------------------------------------------- reading an expression

  /** What reading an expression adds to the output, and what it leaves on the stack. */
  function Written(e: Expr): seq<string> {
    match e
    case Num(_, digits) => [digits]
    case Paren(_, inner, _) => Postfix(inner)
    case Bin(l, _, _, r) => Postfix(l) + Written(r)
  }

  function Pending(e: Expr): seq<char> {
    if e.Bin? then [e.op] + Pending(e.right) else []
  }

  /** Operators as output entries, the last one first. */
  function Flushed(ops: seq<char>): seq<string> {
    if ops == [] then [] else [[ops[|ops| - 1]]] + Flushed(ops[..|ops| - 1])
  }

  lemma {:induction false} FlushedAppend(op: char, ops: seq<char>)
    ensures Flushed([op] + ops) == Flushed(ops) + [[op]]
  {
    if ops == [] {
      assert [op] + ops == [op] && [op][..0] == [];
    } else {
      var rest, last := ops[..|ops| - 1], [[ops[|ops| - 1]]];
      FlushedAppend(op, rest);
      assert ([op] + ops)[..|ops|] == [op] + rest;
      assert Flushed([op] + ops) == last + Flushed([op] + rest);
      assert last + (Flushed(rest) + [[op]]) == last + Flushed(rest) + [[op]];
    }
  }

  /** What is pending completes the postfix. */
  lemma {:induction false} WrittenThenPending(e: Expr)
    ensures Written(e) + Flushed(Pending(e)) == Postfix(e)
    decreases e
  {
    if e.Bin? {
      WrittenThenPending(e.right);
      FlushedAppend(e.op, Pending(e.right));
    }
  }

  predicate AllAtLeast(ops: seq<char>, p: nat) {
    forall i :: 0 <= i < |ops| ==> ops[i] != '(' && Precedence(ops[i]) >= p
  }

  lemma {:induction false} PendingBinds(e: Expr)
    requires WellFormed(e)
    ensures AllAtLeast(Pending(e), Binding(e))
    decreases e
  {
    if e.Bin? {
      OperandsBind(e);
      PendingBinds(e.right);
    }
  }

  lemma {:induction false} PopPending(output: seq<string>, base: seq<char>, pending: seq<char>, p: nat)
    requires TopBelow(base, p) && AllAtLeast(pending, p)
    ensures Pop(output, base + pending, p) == (output + Flushed(pending), base)
    decreases |pending|
  {
    if pending == [] {
      assert base + pending == base && output + [] == output;
    } else {
      var op, rest := pending[|pending| - 1], pending[..|pending| - 1];
      PopPending(output + [[op]], base, rest, p);
      assert (base + pending)[..|base + pending| - 1] == base + rest;
      assert output + [[op]] + Flushed(rest) == output + ([[op]] + Flushed(rest));
    }
  }

  lemma {:induction false} ReadAllAppend(s: Scan, a: string, b: string, i: nat, n: nat)
    ensures ReadAll(s, a + b, i, n)
         == match ReadAll(s, a, i, n) case Err(fault) => Err(fault) case Ok(t) => ReadAll(t, b, i + |a|, n)
  {
    if b == [] {
      assert a + b == a;
    } else {
      ReadAllAppend(s, a, b[..|b| - 1], i, n);
      assert (a + b)[..|a + b| - 1] == a + b[..|b| - 1];
    }
  }

  lemma {:induction false} ReadSpaces(s: Scan, k: nat, i: nat, n: nat)
    ensures ReadAll(s, Spaces(k), i, n) == Ok(s.(foundNum := s.foundNum && k == 0))
  {
    if k > 0 {
      ReadSpaces(s, k - 1, i, n);
      assert Spaces(k)[..k - 1] == Spaces(k - 1);
    }
  }

  lemma ReadOne(s: Scan, c: char, i: nat, n: nat)
    ensures ReadAll(s, [c], i, n) == Read(s, c, i == 0 || i + 1 == n)
  {
    assert [c][..0] == [];
  }

  lemma {:induction false} ReadDigits(s: Scan, digits: string, i: nat, n: nat)
    requires !s.foundNum && digits != [] && AllDigits(digits)
    ensures ReadAll(s, digits, i, n) == Ok(Scan(s.output + [digits], s.ops, true, false))
    decreases |digits|
  {
    var before, c := digits[..|digits| - 1], digits[|digits| - 1];
    if before == [] {
      assert digits == [c];
      ReadOne(s, c, i, n);
    } else {
      ReadDigits(s, before, i, n);
      assert digits == before + [c];
      assert (s.output + [before])[|s.output| := digits] == s.output + [digits];
    }
  }

  lemma ReadThen(s: Scan, a: string, t: Scan, b: string, i: nat, n: nat)
    requires ReadAll(s, a, i, n) == Ok(t)
    ensures ReadAll(s, a + b, i, n) == ReadAll(t, b, i + |a|, n)
  {
    hide ReadAll;
    ReadAllAppend(s, a, b, i, n);
  }

  lemma ReadNum(e: Expr, s: Scan, i: nat, n: nat)
    requires e.Num? && WellFormed(e) && !s.foundNum
    ensures ReadAll(s, Text(e), i, n) == Ok(Scan(s.output + Written(e), s.ops + Pending(e), true, false))
  {
    hide ReadAll;
    ReadSpaces(s, e.gap, i, n);
    ReadThen(s, Spaces(e.gap), s, e.digits, i, n);
    ReadDigits(s, e.digits, i + e.gap, n);
    assert s.ops + [] == s.ops;
  }

  lemma ReadOpen(s: Scan, gap: nat, i: nat, n: nat)
    requires !s.foundNum
    ensures ReadAll(s, Spaces(gap) + ['('], i, n) == Ok(Scan(s.output, s.ops + ['('], false, true))
  {
    hide ReadAll;
    ReadSpaces(s, gap, i, n);
    ReadThen(s, Spaces(gap), s, ['('], i, n);
    ReadOne(s, '(', i + gap, n);
  }

  /** The end of an expression in parentheses, of which nothing but its value was on top of
      the opening one. */
  lemma ReadClose(e: Expr, output: seq<string>, ops: seq<char>, t: Scan, gap: nat, i: nat, n: nat)
    requires WellFormed(e) && t == Scan(output + Written(e), ops + ['('] + Pending(e), t.foundNum, false)
    ensures ReadAll(t, Spaces(gap) + [')'], i, n) == Ok(Scan(output + Postfix(e), ops, false, false))
  {
    hide ReadAll, Written, Pending, Postfix, WellFormed;
    var u := t.(foundNum := t.foundNum && gap == 0);
    ReadSpaces(t, gap, i, n);
    ReadThen(t, Spaces(gap), u, [')'], i, n);
    ReadOne(u, ')', i + gap, n);
    PendingBinds(e);
    PopPending(t.output, ops + ['('], Pending(e), 0);
    WrittenThenPending(e);
    assert output + Written(e) + Flushed(Pending(e)) == output + Postfix(e);
    assert (ops + ['('])[..|ops|] == ops;
  }

  /** The operator after a left operand. */
  lemma ReadOperator(l: Expr, output: seq<string>, ops: seq<char>, t: Scan, gap: nat, op: char, i: nat, n: nat)
    requires WellFormed(l) && IsOperator(op) && Binding(l) >= Precedence(op) && TopBelow(ops, Precedence(op))
    requires t == Scan(output + Written(l), ops + Pending(l), t.foundNum, false)
    requires 0 < i && i + gap + 1 < n
    ensures ReadAll(t, Spaces(gap) + [op], i, n) == Ok(Scan(output + Postfix(l), ops + [op], false, true))
  {
    hide ReadAll, Written, Pending, Postfix, WellFormed;
    var u := t.(foundNum := t.foundNum && gap == 0);
    ReadSpaces(t, gap, i, n);
    ReadThen(t, Spaces(gap), u, [op], i, n);
    ReadOne(u, op, i + gap, n);
    PendingBinds(l);
    PopPending(t.output, ops, Pending(l), Precedence(op));
    WrittenThenPending(l);
    assert output + Written(l) + Flushed(Pending(l)) == output + Postfix(l);
  }

  /** An expression was read from s: the rest of its postfix is written, or pending. */
  predicate HasRead(e: Expr, s: Scan, i: nat, n: nat) {
    var r := ReadAll(s, Text(e), i, n);
    r.Ok? && r.value == Scan(s.output + Written(e), s.ops + Pending(e), r.value.foundNum, false)
  }

  lemma {:induction false} TextNotEmpty(e: Expr)
    requires WellFormed(e)
    ensures Text(e) != []
  {
    if e.Bin? {
      TextNotEmpty(e.left);
    }
  }

  /** Reading an expression from position i on, where nothing on top of the stack can be moved
      by its operators and no number comes immediately before. */
  lemma {:induction false} ReadExpr(e: Expr, s: Scan, i: nat, n: nat)
    requires WellFormed(e) && TopBelow(s.ops, Binding(e)) && !s.foundNum && i + |Text(e)| <= n
    ensures HasRead(e, s, i, n)
    decreases e
  {
    hide ReadAll, HasRead, Written, Pending, Postfix;
    match e
    case Num(_, _) =>
      ReadNum(e, s, i, n);
      assert HasRead(e, s, i, n) by { NumHasRead(e, s, i, n); }
    case Paren(gap, inner, gapAfter) =>
      ReadExpr(inner, Scan(s.output, s.ops + ['('], false, true), i + gap + 1, n);
      ParenHasRead(e, s, i, n);
    case Bin(l, gap, op, r) =>
      OperandsBind(e);
      TextNotEmpty(l);
      TextNotEmpty(r);
      ReadExpr(l, s, i, n);
      ReadExpr(r, Scan(s.output + Postfix(l), s.ops + [op], false, true), i + |Text(l)| + gap + 1, n);
      BinHasRead(e, s, i, n);
  }

  lemma NumHasRead(e: Expr, s: Scan, i: nat, n: nat)
    requires e.Num? && WellFormed(e) && !s.foundNum
    ensures HasRead(e, s, i, n)
  {
    hide ReadAll;
    ReadNum(e, s, i, n);
  }

  lemma ParenHasRead(e: Expr, s: Scan, i: nat, n: nat)
    requires e.Paren? && WellFormed(e) && !s.foundNum
    requires HasRead(e.inner, Scan(s.output, s.ops + ['('], false, true), i + e.gap + 1, n)
    ensures HasRead(e, s, i, n)
  {
    hide ReadAll;
    var start, inner, end := Spaces(e.gap) + ['('], Text(e.inner), Spaces(e.gapAfter) + [')'];
    var inside := Scan(s.output, s.ops + ['('], false, true);
    var t := ReadAll(inside, inner, i + |start|, n).value;
    assert Text(e) == start + (inner + end);
    ReadOpen(s, e.gap, i, n);
    ReadThen(s, start, inside, inner + end, i, n);
    ReadThen(inside, inner, t, end, i + |start|, n);
    ReadClose(e.inner, s.output, s.ops, t, e.gapAfter, i + |start| + |inner|, n);
    assert s.ops + Pending(e) == s.ops;
  }

  lemma BinHasRead(e: Expr, s: Scan, i: nat, n: nat)
    requires e.Bin? && WellFormed(e) && TopBelow(s.ops, Precedence(e.op)) && i + |Text(e)| <= n
    requires Text(e.left) != [] && Text(e.right) != []
    requires HasRead(e.left, s, i, n)
    requires HasRead(e.right, Scan(s.output + Postfix(e.left), s.ops + [e.op], false, true), i + |Text(e.left)| + e.gap + 1, n)
    ensures HasRead(e, s, i, n)
  {
    hide ReadAll, TopBelow;
    OperandsBind(e);
    var l, middle, r := Text(e.left), Spaces(e.gap) + [e.op], Text(e.right);
    var t := ReadAll(s, l, i, n).value;
    var u := Scan(s.output + Postfix(e.left), s.ops + [e.op], false, true);
    assert Text(e) == l + (middle + r);
    ReadThen(s, l, t, middle + r, i, n);
    ReadOperator(e.left, s.output, s.ops, t, e.gap, e.op, i + |l|, n);
    ReadThen(t, middle, u, r, i + |l|, n);
    assert u.output + Written(e.right) == s.output + Written(e);
    assert u.ops + Pending(e.right) == s.ops + Pending(e);
  }

  /** Every well-formed expression, however it is spaced, is read to the end.  The result is
      its postfix exactly if an operator is left on the stack, that is, if the expression is an
      operation; a number alone, and an expression in parentheses, are refused. */
  lemma ShuntedExpr(e: Expr, trailing: nat)
    requires WellFormed(e)
    ensures Shunted(Text(e) + Spaces(trailing)) == if e.Bin? then Ok(Postfix(e)) else Err(NoOperators)
  {
    hide ReadAll, Text, Written, Pending, Postfix, WellFormed, HasRead, Read, Finish;
    var text, n := Text(e), |Text(e)| + trailing;
    ReadExpr(e, START, 0, n);
    var t := ReadFromStart(e, n);
    var u := t.(foundNum := t.foundNum && trailing == 0);
    ReadSpaces(t, trailing, |text|, n);
    ReadThen(START, text, t, Spaces(trailing), 0, n);
    FinishExpr(e, u);
  }

  lemma ReadFromStart(e: Expr, n: nat) returns (t: Scan)
    requires HasRead(e, START, 0, n)
    ensures ReadAll(START, Text(e), 0, n) == Ok(t) && t.output == Written(e) && t.ops == Pending(e)
  {
    hide ReadAll, Text, Written, Pending;
    t := ReadAll(START, Text(e), 0, n).value;
    assert [] + Pending(e) == Pending(e) && [] + Written(e) == Written(e);
  }

  lemma FinishExpr(e: Expr, t: Scan)
    requires WellFormed(e) && t.output == Written(e) && t.ops == Pending(e)
    ensures Finish(t) == if e.Bin? then Ok(Postfix(e)) else Err(NoOperators)
  {
    hide Written, WellFormed, Postfix;
    PendingBinds(e);
    PopPending(t.output, [], Pending(e), 0);
    WrittenThenPending(e);
    assert [] + Pending(e) == Pending(e);
  }

  /** If the conversion succeeds, what it gives means what the expression means. */
  lemma ShuntKeepsValue<V>(e: Expr, trailing: nat, alg: Algebra<V>)
    requires WellFormed(e)
    ensures var r := Shunted(Text(e) + Spaces(trailing));
            && (r.Ok? <==> e.Bin?)
            && (r.Ok? ==> Evaluate([], r.value, alg) == Stack([Value(e, alg)]))
  {
    hide Shunted, Value, Evaluate, Postfix, WellFormed;
    ShuntedExpr(e, trailing);
    PostfixValue(e, [], alg);
    assert [] + [Value(e, alg)] == [Value(e, alg)];
  }
}
