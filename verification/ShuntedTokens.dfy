/** What the conversion to postfix keeps of any text that it takes: its numbers, in order, and its
    operators. */
module ShuntedTokens {
  import opened Shunting

  /** The numbers of a text: its digits, those next to each other together. */
  function NumbersIn(text: string): (ns: seq<string>)
    ensures text != [] && IsDigit(text[|text| - 1]) ==> ns != []
  {
    if text == [] then []
    else
      var before, c := text[..|text| - 1], text[|text| - 1];
      var ns := NumbersIn(before);
      if !IsDigit(c) then ns
      else if before != [] && IsDigit(before[|before| - 1]) then ns[|ns| - 1 := ns[|ns| - 1] + [c]]
      else ns + [[c]]
  }

  predicate IsOperatorEntry(entry: string) {
    |entry| == 1 && IsOperator(entry[0])
  }

  /** The entries that are no operators. */
  function NumberEntries(output: seq<string>): (ns: seq<string>) {
    if output == [] then []
    else
      var rest, entry := NumberEntries(output[..|output| - 1]), output[|output| - 1];
      if IsOperatorEntry(entry) then rest else rest + [entry]
  }

  lemma OneMoreEntry(output: seq<string>, entry: string)
    ensures NumberEntries(output + [entry])
         == if IsOperatorEntry(entry) then NumberEntries(output) else NumberEntries(output) + [entry]
  {
    assert (output + [entry])[..|output|] == output;
  }

  /** The stack holds operators and opening parentheses. */
  predicate OnlyOperators(ops: seq<char>) {
    forall i :: 0 <= i < |ops| ==> ops[i] == '(' || IsOperator(ops[i])
  }

  /** Popping moves operators. */
  lemma {:induction false} PopMoves(output: seq<string>, ops: seq<char>, p: nat, c: char)
    requires OnlyOperators(ops) && IsOperator(c)
    ensures var r := Pop(output, ops, p);
            && OnlyOperators(r.1) && r.1 <= ops
            && NumberEntries(r.0) == NumberEntries(output)
            && multiset(r.0)[[c]] + multiset(r.1)[c] == multiset(output)[[c]] + multiset(ops)[c]
    decreases |ops|
  {
    if !TopBelow(ops, p) {
      var op, below := ops[|ops| - 1], ops[..|ops| - 1];
      PopMoves(output + [[op]], below, p, c);
      OneMoreEntry(output, [op]);
      assert ops == below + [op];
    }
  }

  // ---------------------------------------------------------------- numbers

  /** The numbers read so far are in the output, the last one at its end if it may go on. */
  predicate KeepsNumbers(s: Scan, text: string) {
    && NumberEntries(s.output) == NumbersIn(text)
    && OnlyOperators(s.ops)
    && (s.foundNum <==> text != [] && IsDigit(text[|text| - 1]))
    && (s.foundNum ==> s.output != [] && !IsOperatorEntry(s.output[|s.output| - 1]))
  }

  lemma ReadKeepsNumbers(s: Scan, text: string, c: char, atEnd: bool)
    requires KeepsNumbers(s, text) && Read(s, c, atEnd).Ok?
    ensures KeepsNumbers(Read(s, c, atEnd).value, text + [c])
  {
    hide Pop, NumberEntries;
    assert (text + [c])[..|text|] == text;
    if IsDigit(c) {
      DigitKeepsNumbers(s, text, c, atEnd);
    } else if c == ')' {
      PopMoves(s.output, s.ops, 0, '+');
    } else if IsOperator(c) {
      PopMoves(s.output, s.ops, Precedence(c), '+');
    }
  }

  lemma DigitKeepsNumbers(s: Scan, text: string, c: char, atEnd: bool)
    requires KeepsNumbers(s, text) && IsDigit(c)
    ensures Read(s, c, atEnd).Ok? && KeepsNumbers(Read(s, c, atEnd).value, text + [c])
  {
    hide NumberEntries;
    assert (text + [c])[..|text|] == text;
    if s.foundNum {
      var before, entry := s.output[..|s.output| - 1], s.output[|s.output| - 1];
      assert s.output == before + [entry] && s.output[|s.output| - 1 := entry + [c]] == before + [entry + [c]];
      OneMoreEntry(before, entry);
      OneMoreEntry(before, entry + [c]);
    } else {
      OneMoreEntry(s.output, [c]);
    }
  }

  // ---------------------------------------------------------------- operators

  /** As often as the operator has been read it is in the output or on the stack. */
  predicate KeepsOperator(s: Scan, text: string, op: char) {
    multiset(s.output)[[op]] + multiset(s.ops)[op] == multiset(text)[op]
  }

  lemma ReadKeepsOperator(s: Scan, text: string, c: char, atEnd: bool, op: char)
    requires KeepsNumbers(s, text) && KeepsOperator(s, text, op) && IsOperator(op) && Read(s, c, atEnd).Ok?
    ensures KeepsOperator(Read(s, c, atEnd).value, text + [c], op)
  {
    hide Pop, NumberEntries, NumbersIn;
    if IsDigit(c) {
      DigitKeepsOperator(s, text, c, atEnd, op);
    } else if c == ')' {
      CloseKeepsOperator(s, text, atEnd, op);
    } else if IsOperator(c) {
      PopMoves(s.output, s.ops, Precedence(c), op);
    }
  }

  lemma DigitKeepsOperator(s: Scan, text: string, c: char, atEnd: bool, op: char)
    requires KeepsNumbers(s, text) && KeepsOperator(s, text, op) && IsOperator(op) && IsDigit(c)
    ensures Read(s, c, atEnd).Ok? && KeepsOperator(Read(s, c, atEnd).value, text + [c], op)
  {
    hide NumberEntries, NumbersIn;
    assert multiset(text + [c])[op] == multiset(text)[op];
    if s.foundNum {
      LongerNumber(s.output, c, op);
    } else {
      assert [c] != [op] by { assert [c][0] == c; }
    }
  }

  lemma LongerNumber(output: seq<string>, c: char, op: char)
    requires output != [] && !IsOperatorEntry(output[|output| - 1]) && IsOperator(op) && IsDigit(c)
    ensures multiset(output[|output| - 1 := output[|output| - 1] + [c]])[[op]] == multiset(output)[[op]]
  {
    var before, entry := output[..|output| - 1], output[|output| - 1];
    assert output == before + [entry] && output[|output| - 1 := entry + [c]] == before + [entry + [c]];
    assert (entry + [c])[|entry|] == c && IsOperatorEntry([op]);
    assert entry != [op] && entry + [c] != [op];
  }

  lemma CloseKeepsOperator(s: Scan, text: string, atEnd: bool, op: char)
    requires KeepsNumbers(s, text) && KeepsOperator(s, text, op) && IsOperator(op) && Read(s, ')', atEnd).Ok?
    ensures KeepsOperator(Read(s, ')', atEnd).value, text + [')'], op)
  {
    hide Pop, NumberEntries, NumbersIn;
    PopMoves(s.output, s.ops, 0, op);
    var ops := Pop(s.output, s.ops, 0).1;
    assert ops == ops[..|ops| - 1] + [ops[|ops| - 1]];
    assert ops[|ops| - 1] == '(';
  }

  // ---------------------------------------------------------------- whole texts

  lemma {:induction false} ReadAllKeeps(text: string, n: nat, op: char)
    requires IsOperator(op) && ReadAll(START, text, 0, n).Ok?
    ensures KeepsNumbers(ReadAll(START, text, 0, n).value, text)
    ensures KeepsOperator(ReadAll(START, text, 0, n).value, text, op)
  {
    hide KeepsNumbers, KeepsOperator, Read;
    if text == [] {
      NothingToKeep(op);
    } else {
      var before, at := text[..|text| - 1], |text| - 1;
      ReadAllKeeps(before, n, op);
      var s := ReadAll(START, before, 0, n).value;
      ReadKeepsNumbers(s, before, text[at], at == 0 || at + 1 == n);
      ReadKeepsOperator(s, before, text[at], at == 0 || at + 1 == n, op);
      assert before + [text[at]] == text;
    }
  }

  lemma NothingToKeep(op: char)
    ensures KeepsNumbers(START, []) && KeepsOperator(START, [], op)
  {
  }

  /** Of any text that is taken, well-formed or not, the postfix has the numbers, in the order of
      the text, and each operator as often as the text. */
  lemma TokensKept(text: string, op: char)
    requires Shunted(text).Ok? && IsOperator(op)
    ensures NumberEntries(Shunted(text).value) == NumbersIn(text)
    ensures multiset(Shunted(text).value)[[op]] == multiset(text)[op]
  {
    hide ReadAll, Pop, NumberEntries, NumbersIn;
    ReadAllKeeps(text, |text|, op);
    var s := ReadAll(START, text, 0, |text|).value;
    PopMoves(s.output, s.ops, 0, op);
  }
}
