/** Exactly which texts the conversion to postfix takes, well-formed expressions or not. */
module ShuntedTexts {
  import opened Shunting

  // ---------------------------------------------------------------- the condition

  /** Opening parentheses minus closing ones. */
  function Depth(text: string): int {
    if text == [] then 0
    else
      var c := text[|text| - 1];
      Depth(text[..|text| - 1]) + if c == '(' then 1 else if c == ')' then -1 else 0
  }

  predicate Opening(c: char) {
    c == '(' || IsOperator(c)
  }

  /** The last character that is no space is an operator or an opening parenthesis. */
  predicate AfterOpening(text: string) {
    exists i :: 0 <= i < |text| && Opening(text[i]) && forall j :: i < j < |text| ==> text[j] == ' '
  }

  predicate Allowed(c: char) {
    IsDigit(c) || c == ' ' || c == '(' || c == ')' || IsOperator(c)
  }

  /** Character i of a text of n: a closing parenthesis closes one, and an operator stands neither
      first nor last nor after another operator or an opening parenthesis. */
  predicate InPlace(text: string, i: nat, n: nat)
    requires i < |text|
  {
    && Allowed(text[i])
    && (text[i] == ')' ==> Depth(text[..i]) > 0)
    && (IsOperator(text[i]) ==> i != 0 && i + 1 != n && !AfterOpening(text[..i]))
  }

  /** An operator stands outside all parentheses. */
  predicate OperatorOutside(text: string) {
    exists i :: 0 <= i < |text| && IsOperator(text[i]) && Depth(text[..i]) == 0
  }

  predicate Taken(text: string) {
    && (forall i :: 0 <= i < |text| ==> InPlace(text, i, |text|))
    && Depth(text) == 0
    && OperatorOutside(text)
  }

  /** What is wrong with a character that is not in place. */
  function FaultAt(text: string, i: nat): Fault
    requires i < |text|
  {
    if !Allowed(text[i]) then BadCharacter
    else if text[i] == ')' then MismatchedClose
    else if AfterOpening(text[..i]) then ConsecutiveOperators
    else OperatorAtEnd
  }

  /** Character i is the first one that is not in place. */
  predicate FirstFault(text: string, i: nat)
    requires i < |text|
  {
    !InPlace(text, i, |text|) && forall j :: 0 <= j < i ==> InPlace(text, j, |text|)
  }

  // ---------------------------------------------------------------- one character more

  lemma AfterOpeningLast(text: string)
    requires text != []
    ensures var before, c := text[..|text| - 1], text[|text| - 1];
            AfterOpening(text) <==> if c == ' ' then AfterOpening(before) else Opening(c)
  {
    var before, n := text[..|text| - 1], |text| - 1;
    if text[n] == ' ' {
      if AfterOpening(text) {
        var i :| 0 <= i < |text| && Opening(text[i]) && forall j :: i < j < |text| ==> text[j] == ' ';
        assert Opening(before[i]) && forall j :: i < j < |before| ==> before[j] == ' ';
      }
      if AfterOpening(before) {
        var i :| 0 <= i < |before| && Opening(before[i]) && forall j :: i < j < |before| ==> before[j] == ' ';
        assert Opening(text[i]) && forall j :: i < j < |text| ==> text[j] == ' ';
      }
    }
  }

  lemma OperatorOutsideLast(text: string)
    requires text != []
    ensures var before, c := text[..|text| - 1], text[|text| - 1];
            OperatorOutside(text) <==> OperatorOutside(before) || (IsOperator(c) && Depth(before) == 0)
  {
    var before, n := text[..|text| - 1], |text| - 1;
    assert forall i :: 0 <= i < n ==> before[i] == text[i] && before[..i] == text[..i];
  }

  lemma InPlaceLast(text: string, n: nat)
    requires text != []
    ensures var before := text[..|text| - 1];
            (forall i :: 0 <= i < |text| ==> InPlace(text, i, n)) <==>
            (forall i :: 0 <= i < |before| ==> InPlace(before, i, n)) && InPlace(text, |text| - 1, n)
  {
    hide AfterOpening, Depth;
    var before := text[..|text| - 1];
    assert forall i :: 0 <= i < |before| ==> before[i] == text[i] && before[..i] == text[..i];
    assert forall i :: 0 <= i < |before| ==> (InPlace(text, i, n) <==> InPlace(before, i, n));
  }

  // ---------------------------------------------------------------- the operator stack

  /** How many opening parentheses are on the stack. */
  function Opens(ops: seq<char>): nat {
    if ops == [] then 0 else Opens(ops[..|ops| - 1]) + if ops[|ops| - 1] == '(' then 1 else 0
  }

  /** An operator lies below all parentheses. */
  predicate OperatorBelow(ops: seq<char>) {
    ops != [] && ops[0] != '('
  }

  /** Popping takes operators off down to a parenthesis at most. */
  lemma {:induction false} PopKeeps(output: seq<string>, ops: seq<char>, p: nat)
    ensures var r := Pop(output, ops, p);
            && r.1 <= ops && Opens(r.1) == Opens(ops)
            && (p == 0 ==> r.1 == [] || r.1[|r.1| - 1] == '(')
            && (r.1 == [] ==> Opens(ops) == 0)
    decreases |ops|
  {
    if !TopBelow(ops, p) {
      PopKeeps(output + [[ops[|ops| - 1]]], ops[..|ops| - 1], p);
    }
  }

  lemma {:induction false} NoOpens(ops: seq<char>)
    requires ops != [] && ops[0] == '('
    ensures Opens(ops) > 0
  {
    if |ops| > 1 {
      NoOpens(ops[..|ops| - 1]);
    }
  }

  lemma PushedOpens(ops: seq<char>, c: char)
    ensures Opens(ops + [c]) == Opens(ops) + if c == '(' then 1 else 0
  {
    assert (ops + [c])[..|ops|] == ops;
  }

  /** What the stack tells about the text read so far. */
  predicate Mirrors(s: Scan, text: string) {
    && Opens(s.ops) == Depth(text)
    && (s.foundOp <==> AfterOpening(text))
    && (OperatorBelow(s.ops) <==> OperatorOutside(text))
  }

  lemma ReadMirrors(s: Scan, text: string, n: nat)
    requires text != [] && Mirrors(s, text[..|text| - 1])
    ensures var at := |text| - 1;
            var r := Read(s, text[at], at == 0 || at + 1 == n);
            && (r.Ok? <==> InPlace(text, at, n))
            && (r.Ok? ==> Mirrors(r.value, text))
            && (r.Err? ==> r.fault == FaultAt(text, at))
  {
    hide AfterOpening, OperatorOutside, Pop;
    var before, c := text[..|text| - 1], text[|text| - 1];
    AfterOpeningLast(text);
    OperatorOutsideLast(text);
    if c == '(' {
      OpenMirrors(s.ops);
    } else if c == ')' {
      CloseMirrors(s, text);
    } else if IsOperator(c) {
      OperatorMirrors(s, text, n);
    }
  }

  lemma OpenMirrors(ops: seq<char>)
    ensures Opens(ops + ['(']) == Opens(ops) + 1
    ensures OperatorBelow(ops + ['(']) <==> OperatorBelow(ops)
  {
    PushedOpens(ops, '(');
    if ops != [] {
      assert (ops + ['('])[0] == ops[0];
    }
  }

  lemma CloseMirrors(s: Scan, text: string)
    requires text != [] && text[|text| - 1] == ')' && Mirrors(s, text[..|text| - 1])
    ensures var ops := Pop(s.output, s.ops, 0).1;
            && (ops == [] <==> Depth(text[..|text| - 1]) <= 0)
            && (ops != [] ==> Opens(ops[..|ops| - 1]) == Depth(text)
                              && (OperatorBelow(ops[..|ops| - 1]) <==> OperatorBelow(s.ops)))
  {
    hide Pop, AfterOpening, OperatorOutside;
    PopKeeps(s.output, s.ops, 0);
    var ops := Pop(s.output, s.ops, 0).1;
    if ops != [] {
      assert ops[0] == s.ops[0];
      PushedOpens(ops[..|ops| - 1], ops[|ops| - 1]);
      assert ops[..|ops| - 1] + [ops[|ops| - 1]] == ops;
    }
  }

  lemma OperatorMirrors(s: Scan, text: string, n: nat)
    requires text != [] && IsOperator(text[|text| - 1]) && Mirrors(s, text[..|text| - 1])
    ensures var c, ops := text[|text| - 1], Pop(s.output, s.ops, Precedence(text[|text| - 1])).1;
            && Opens(ops + [c]) == Depth(text)
            && (OperatorBelow(ops + [c]) <==> OperatorBelow(s.ops) || Depth(text[..|text| - 1]) == 0)
  {
    var c := text[|text| - 1];
    assert Depth(text) == Depth(text[..|text| - 1]);
    hide Pop, AfterOpening, OperatorOutside, Depth, Opens;
    PopKeeps(s.output, s.ops, Precedence(c));
    var ops := Pop(s.output, s.ops, Precedence(c)).1;
    PushedOpens(ops, c);
    if s.ops != [] && s.ops[0] == '(' {
      NoOpens(s.ops);
    }
    if ops != [] {
      assert (ops + [c])[0] == ops[0] == s.ops[0];
    }
  }

  // ---------------------------------------------------------------- whole texts

  lemma {:induction false} ReadAllMirrors(text: string, n: nat)
    ensures var r := ReadAll(START, text, 0, n);
            && (r.Ok? <==> forall i :: 0 <= i < |text| ==> InPlace(text, i, n))
            && (r.Ok? ==> Mirrors(r.value, text))
  {
    hide InPlace, Mirrors, Read;
    if text == [] {
      NothingRead();
    } else {
      var before := text[..|text| - 1];
      ReadAllMirrors(before, n);
      InPlaceLast(text, n);
      var r := ReadAll(START, before, 0, n);
      if r.Ok? {
        ReadMirrors(r.value, text, n);
      }
    }
  }

  lemma NothingRead()
    ensures Mirrors(START, [])
  {
  }

  /** A text is taken exactly if all of its characters are in place, its parentheses match, and
      an operator stands outside all of them. */
  lemma ShuntedIff(text: string)
    ensures Shunted(text).Ok? <==> Taken(text)
  {
    hide InPlace, ReadAll, AfterOpening, OperatorOutside, Pop;
    ReadAllMirrors(text, |text|);
    var r := ReadAll(START, text, 0, |text|);
    if r.Ok? {
      PopKeeps(r.value.output, r.value.ops, 0);
      var ops := Pop(r.value.output, r.value.ops, 0).1;
      if ops != [] {
        PushedOpens(ops[..|ops| - 1], ops[|ops| - 1]);
        assert ops[..|ops| - 1] + [ops[|ops| - 1]] == ops;
      }
      if r.value.ops != [] && r.value.ops[0] == '(' {
        NoOpens(r.value.ops);
      }
    }
  }

  lemma FirstFaultDecides(text: string, i: nat)
    requires i < |text| && FirstFault(text, i)
    ensures Shunted(text) == Err(FaultAt(text, i))
  {
    hide InPlace, ReadAll, Read, Mirrors, AfterOpening, OperatorOutside, Depth;
    var n, upTo := |text|, text[..i + 1];
    assert upTo[..i] == text[..i];
    forall j | 0 <= j <= i
      ensures InPlace(upTo, j, n) <==> InPlace(text, j, n)
      ensures j < i ==> (InPlace(text[..i], j, n) <==> InPlace(text, j, n))
    {
      assert upTo[..j] == text[..j] && (j < i ==> text[..i][..j] == text[..j]);
      SameInPlace(text, upTo, j, n);
      if j < i {
        SameInPlace(text, text[..i], j, n);
      }
    }
    ReadAllMirrors(text[..i], n);
    ReadMirrors(ReadAll(START, text[..i], 0, n).value, upTo, n);
    assert ReadAll(START, upTo, 0, n) == Err(FaultAt(upTo, i)) by { LastRead(upTo, n); }
    FaultStays(START, text, i + 1, n);
  }

  lemma SameInPlace(a: string, b: string, i: nat, n: nat)
    requires i < |a| && i < |b| && a[i] == b[i] && a[..i] == b[..i]
    ensures InPlace(a, i, n) <==> InPlace(b, i, n)
  {
  }

  lemma LastRead(text: string, n: nat)
    requires text != [] && ReadAll(START, text[..|text| - 1], 0, n).Ok?
    ensures var at := |text| - 1;
            ReadAll(START, text, 0, n) == Read(ReadAll(START, text[..at], 0, n).value, text[at], at == 0 || at + 1 == n)
  {
  }

  /** Why a text is refused: for the first character that is not in place; if there is none, for
      an opening parenthesis that is not closed; and otherwise because no operator stands outside
      all parentheses. */
  lemma RefusedFor(text: string)
    ensures forall i :: 0 <= i < |text| && FirstFault(text, i) ==> Shunted(text) == Err(FaultAt(text, i))
    ensures (forall i :: 0 <= i < |text| ==> InPlace(text, i, |text|)) && !Taken(text) ==>
              Shunted(text) == Err(if Depth(text) > 0 then MismatchedOpen else NoOperators)
  {
    hide InPlace, ReadAll, AfterOpening, OperatorOutside, Pop;
    forall i | 0 <= i < |text| && FirstFault(text, i)
      ensures Shunted(text) == Err(FaultAt(text, i))
    {
      FirstFaultDecides(text, i);
    }
    ReadAllMirrors(text, |text|);
    ShuntedIff(text);
    var r := ReadAll(START, text, 0, |text|);
    if r.Ok? && r.value.ops != [] && r.value.ops[0] == '(' {
      NoOpens(r.value.ops);
    }
  }

  // ---------------------------------------------------------------- three expressions

  function Digit(c: char): Expr {
    Num(0, [c])
  }

  lemma Converted(e: Expr, text: string, postfix: seq<string>)
    requires WellFormed(e) && e.Bin? && Text(e) == text && Postfix(e) == postfix
    ensures Shunted(text) == Ok(postfix)
  {
    hide Shunted, Text, Postfix, WellFormed;
    ShuntedExpr(e, 0);
    assert text + Spaces(0) == text;
  }

  /** Products come before sums. */
  lemma ProductFirst()
    ensures Shunted(['1', '+', '2', '*', '3']) == Ok([['1'], ['2'], ['3'], ['*'], ['+']])
  {
    hide Shunted;
    var product := Bin(Digit('2'), 0, '*', Digit('3'));
    var e := Bin(Digit('1'), 0, '+', product);
    assert Text(product) == ['2', '*', '3'] && Postfix(product) == [['2'], ['3'], ['*']];
    Converted(e, ['1', '+', '2', '*', '3'], [['1'], ['2'], ['3'], ['*'], ['+']]);
  }

  /** What is in parentheses comes before both. */
  lemma ParenthesesFirst()
    ensures Shunted(['(', '1', '+', '2', ')', '*', '3']) == Ok([['1'], ['2'], ['+'], ['3'], ['*']])
  {
    hide Shunted;
    var sum := Paren(0, Bin(Digit('1'), 0, '+', Digit('2')), 0);
    var e := Bin(sum, 0, '*', Digit('3'));
    assert Text(sum.inner) == ['1', '+', '2'] && Postfix(sum.inner) == [['1'], ['2'], ['+']];
    assert Text(sum) == ['(', '1', '+', '2', ')'];
    Converted(e, ['(', '1', '+', '2', ')', '*', '3'], [['1'], ['2'], ['+'], ['3'], ['*']]);
  }

  /** Of operations that bind alike the left one comes first. */
  lemma LeftFirst()
    ensures Shunted(['1', '-', '2', '-', '3']) == Ok([['1'], ['2'], ['-'], ['3'], ['-']])
  {
    hide Shunted;
    var left := Bin(Digit('1'), 0, '-', Digit('2'));
    var e := Bin(left, 0, '-', Digit('3'));
    assert Text(left) == ['1', '-', '2'] && Postfix(left) == [['1'], ['2'], ['-']];
    Converted(e, ['1', '-', '2', '-', '3'], [['1'], ['2'], ['-'], ['3'], ['-']]);
  }

  // ---------------------------------------------------------------- texts that are no expressions

  lemma ReadDigit(s: Scan, c: char, t: Scan, i: nat, n: nat)
    requires IsDigit(c) && !s.foundNum && t == Scan(s.output + [[c]], s.ops, true, false)
    ensures ReadAll(s, [c], i, n) == Ok(t)
  {
    ReadOne(s, c, i, n);
  }

  lemma ReadSpace(s: Scan, t: Scan, i: nat, n: nat)
    requires t == s.(foundNum := false)
    ensures ReadAll(s, [' '], i, n) == Ok(t)
  {
    ReadOne(s, ' ', i, n);
  }

  lemma ReadFirstOperator(s: Scan, c: char, t: Scan, i: nat, n: nat)
    requires IsOperator(c) && !s.foundOp && s.ops == [] && 0 < i && i + 1 < n
    requires t == Scan(s.output, [c], false, true)
    ensures ReadAll(s, [c], i, n) == Ok(t)
  {
    ReadOne(s, c, i, n);
    assert s.ops + [c] == [c];
  }

  /** Two numbers and then an operator: taken, and evaluated like an operation on the two. */
  lemma OperatorAfterBoth<V>(alg: Algebra<V>)
    ensures var r := Shunted(['1', ' ', '2', '+', ' ']);
            && r == Ok([['1'], ['2'], ['+']])
            && Evaluate([], r.value, alg) == Stack([alg.apply('+', alg.leaf(['1']), alg.leaf(['2']))])
  {
    hide ReadAll, Evaluate, Read;
    var one, two := Scan([['1']], [], true, false), Scan([['1'], ['2']], [], true, false);
    var gap, plus := one.(foundNum := false), Scan([['1'], ['2']], ['+'], false, true);
    assert [] + [['1']] == [['1']] && [['1']] + [['2']] == [['1'], ['2']];
    ReadDigit(START, '1', one, 0, 5);
    ReadSpace(one, gap, 1, 5);
    ReadDigit(gap, '2', two, 2, 5);
    ReadFirstOperator(two, '+', plus, 3, 5);
    ReadSpace(plus, plus, 4, 5);
    assert ['1'] + [' '] == ['1', ' '] && ['1', ' '] + ['2'] == ['1', ' ', '2'];
    assert ['1', ' ', '2'] + ['+'] == ['1', ' ', '2', '+'] && ['1', ' ', '2', '+'] + [' '] == ['1', ' ', '2', '+', ' '];
    ReadThen(START, ['1'], one, [' '], 0, 5);
    ReadThen(START, ['1', ' '], gap, ['2'], 0, 5);
    ReadThen(START, ['1', ' ', '2'], two, ['+'], 0, 5);
    ReadThen(START, ['1', ' ', '2', '+'], plus, [' '], 0, 5);
    PopOne([['1'], ['2']], '+', [['1'], ['2'], ['+']]);
    EvaluateBoth(alg);
  }

  lemma PopOne(output: seq<string>, op: char, all: seq<string>)
    requires op != '(' && all == output + [[op]]
    ensures Pop(output, [op], 0) == (all, [])
  {
    assert [op][..0] == [];
  }

  lemma EvaluateBoth<V>(alg: Algebra<V>)
    ensures Evaluate([], [['1'], ['2'], ['+']], alg) == Stack([alg.apply('+', alg.leaf(['1']), alg.leaf(['2']))])
  {
    hide Evaluate, AllDigits;
    var a, b := alg.leaf(['1']), alg.leaf(['2']);
    EvaluateIndex([], '1', [a], alg);
    EvaluateIndex([a], '2', [a, b], alg);
    EvaluateOne([a, b], ['+'], alg);
    assert [a, b][..0] + [alg.apply('+', a, b)] == [alg.apply('+', a, b)];
    EvaluateAppend([], [['1']], [['2']], alg);
    EvaluateAppend([], [['1'], ['2']], [['+']], alg);
    assert [['1']] + [['2']] == [['1'], ['2']] && [['1'], ['2']] + [['+']] == [['1'], ['2'], ['+']];
  }

  lemma EvaluateIndex<V>(vs: seq<V>, c: char, us: seq<V>, alg: Algebra<V>)
    requires IsDigit(c) && us == vs + [alg.leaf([c])]
    ensures Evaluate(vs, [[c]], alg) == Stack(us)
  {
    assert [c][..0] == [];
    EvaluateOne(vs, [c], alg);
  }

  /** An operator after a space, with nothing before it: taken, and what comes out cannot be
      evaluated. */
  lemma OperatorBeforeAll<V>(alg: Algebra<V>)
    ensures var r := Shunted([' ', '+', '1']);
            r == Ok([['1'], ['+']]) && Evaluate([], r.value, alg) == Stuck
  {
    hide ReadAll, Evaluate, Read;
    var plus, one := Scan([], ['+'], false, true), Scan([['1']], ['+'], true, false);
    assert [] + [['1']] == [['1']];
    ReadSpace(START, START, 0, 3);
    ReadFirstOperator(START, '+', plus, 1, 3);
    ReadDigit(plus, '1', one, 2, 3);
    assert [' '] + ['+'] == [' ', '+'] && [' ', '+'] + ['1'] == [' ', '+', '1'];
    ReadThen(START, [' '], START, ['+'], 0, 3);
    ReadThen(START, [' ', '+'], plus, ['1'], 0, 3);
    PopOne([['1']], '+', [['1'], ['+']]);
    EvaluateIndex([], '1', [alg.leaf(['1'])], alg);
    EvaluateOne([alg.leaf(['1'])], ['+'], alg);
    EvaluateAppend([], [['1']], [['+']], alg);
    assert [['1']] + [['+']] == [['1'], ['+']];
  }
}
