/** Worked expressions, each bound to the general lemmas: the expression is
    written out from its tokens, so its response follows from the scan, the
    validator and the left-nested value. */
module Scenarios {
  import opened Results
  import opened Tokens
  import opened Tokenizer
  import opened Validator
  import opened Evaluator
  import opened CalcService

  /** An expression of one number, written without spaces. */
  lemma NoSteps(a: real)
    requires IsNatural(a)
    ensures Calculate(Compact([Num(a)])) == Success(a)
  {
    var ts := [Num(a)];
    assert Alternating(ts);
    CalculateCompact(ts);
    assert Steps(ts) == [];
  }

  /** An expression of one step, written without spaces. */
  lemma OneStep(a: real, o: string, b: real, v: Result<real>)
    requires IsNatural(a) && IsNatural(b) && o in Operators
    requires Apply(o, a, b) == v
    ensures Calculate(Compact([Num(a), Str(o), Num(b)])) == v
  {
    var ts := [Num(a), Str(o), Num(b)];
    assert Alternating(ts);
    CalculateCompact(ts);
    var step := Step(o, b);
    assert Steps(ts) == [step];
    assert [step][..0] == [];
  }

  /** An expression of two steps, written with or without spaces: the first
      step is applied first, whatever the operators. */
  lemma TwoSteps(a: real, o1: string, b: real, o2: string, c: real, v: Result<real>)
    requires IsNatural(a) && IsNatural(b) && IsNatural(c) && o1 in Operators && o2 in Operators
    requires Then(Then(Success(a), Step(o1, b)), Step(o2, c)) == v
    ensures Calculate(Compact([Num(a), Str(o1), Num(b), Str(o2), Num(c)])) == v
    ensures Calculate(Render([Num(a), Str(o1), Num(b), Str(o2), Num(c)])) == v
  {
    var ts := [Num(a), Str(o1), Num(b), Str(o2), Num(c)];
    assert Alternating(ts);
    CalculateCompact(ts);
    CalculateRender(ts);
    assert Steps(ts) == [Step(o1, b), Step(o2, c)];
    NestedTwo(a, Step(o1, b), Step(o2, c));
  }

  /** Two steps, the first applied first. */
  lemma NestedTwo(first: real, a: Step, b: Step)
    ensures Nested(first, [a, b]) == Then(Then(Success(first), a), b)
  {
    assert [a][..0] == [];
    assert Nested(first, [a]) == Then(Success(first), a);
    assert [a, b][..1] == [a];
  }

  /** No precedence: `2+3*4` is `(2 + 3) * 4`. */
  lemma NoPrecedence()
    ensures Calculate("2+3*4") == Success(20.0)
  {
    var e := Compact([Num(2.0), Str("+"), Num(3.0), Str("*"), Num(4.0)]);
    assert e == "2+3*4";
    TwoSteps(2.0, "+", 3.0, "*", 4.0, Success(20.0));
  }

  /** `10/2-3` is `(10 / 2) - 3`. */
  lemma LeftToRight()
    ensures Calculate("10/2-3") == Success(2.0)
  {
    var e := Compact([Num(10.0), Str("/"), Num(2.0), Str("-"), Num(3.0)]);
    assert e == "10/2-3";
    TwoSteps(10.0, "/", 2.0, "-", 3.0, Success(2.0));
  }

  /** Spaces around the tokens change nothing. */
  lemma Spaced()
    ensures Calculate("2 + 3 * 4") == Calculate("2+3*4")
  {
    var e := Render([Num(2.0), Str("+"), Num(3.0), Str("*"), Num(4.0)]);
    assert e == "2 + 3 * 4";
    TwoSteps(2.0, "+", 3.0, "*", 4.0, Success(20.0));
    NoPrecedence();
  }

  /** Leading and trailing white space is dropped: ` 2 + 3 ` is 5. */
  lemma Padded()
    ensures Calculate(" 2 + 3 ") == Success(5.0)
  {
    var ts := [Num(2.0), Str("+"), Num(3.0)];
    var gaps := [" ", " ", " ", " "];
    OneSpace();
    assert Alternating(ts) && Spacing(ts, gaps);
    var e := Layout(ts, gaps);
    assert e == " 2 + 3 ";
    CalculateLayout(ts, gaps);
    var step := Step("+", 3.0);
    assert Steps(ts) == [step];
    assert [step][..0] == [];
  }

  /** A tab and a space between two numbers are one run of white space: the
      numbers stay two, which the validator refuses. */
  lemma Tabbed()
    ensures Lex("2\t 3") == [Num(2.0), Num(3.0)]
    ensures Calculate("2\t 3") == Failure(InvalidExpression)
  {
    var ts := [Num(2.0), Num(3.0)];
    var gaps := ["", "\t ", ""];
    assert AllIn(Spaces, "\t ") by { assert InRun(Spaces, "\t "[0]) && InRun(Spaces, "\t "[1]); }
    assert Spacing(ts, gaps);
    var e := Layout(ts, gaps);
    assert e == "2\t 3";
    LexLayout(ts, gaps);
    assert !PositionOk(ts, 1);
  }

  /** A lone number is its own value. */
  lemma LoneNumber()
    ensures Calculate("7") == Success(7.0)
  {
    var e := Compact([Num(7.0)]);
    assert e == "7";
    NoSteps(7.0);
  }

  /** A zero dividend is fine. */
  lemma ZeroDividend()
    ensures Calculate("0/5") == Success(0.0)
  {
    var e := Compact([Num(0.0), Str("/"), Num(5.0)]);
    assert e == "0/5";
    OneStep(0.0, "/", 5.0, Success(0.0));
  }

  /** A zero divisor is refused with `Division by zero`. */
  lemma ZeroDivisorRefused()
    ensures Calculate("5/0") == Failure(DivisionByZero)
  {
    var e := Compact([Num(5.0), Str("/"), Num(0.0)]);
    assert e == "5/0";
    OneStep(5.0, "/", 0.0, Failure(DivisionByZero));
  }

  /** Numbers separated by white space stay two numbers, which the validator
      refuses to put side by side. */
  lemma TwoNumbers()
    ensures Lex("2 3") == [Num(2.0), Num(3.0)]
    ensures Calculate("2 3") == Failure(InvalidExpression)
  {
    var ts := [Num(2.0), Num(3.0)];
    assert Render(ts) == "2 3";
    LexRender(ts);
    assert !PositionOk(ts, 1);
  }

  /** Two operators in a row. */
  lemma DoubleOperator()
    ensures Lex("2++3") == [Num(2.0), Str("+"), Str("+"), Num(3.0)]
    ensures Calculate("2++3") == Failure(InvalidExpression)
  {
    var ts := [Num(2.0), Str("+"), Str("+"), Num(3.0)];
    assert Separated(ts);
    assert Compact(ts) == "2++3";
    LexCompact(ts);
    assert !PositionOk(ts, 1);
  }

  /** An operator first. */
  lemma LeadingOperator()
    ensures Calculate("+2") == Failure(InvalidExpression)
  {
    var ts := [Str("+"), Num(2.0)];
    assert Separated(ts);
    assert Compact(ts) == "+2";
    LexCompact(ts);
  }

  /** An operator last. */
  lemma TrailingOperator()
    ensures Calculate("2+") == Failure(InvalidExpression)
  {
    var ts := [Num(2.0), Str("+")];
    assert Separated(ts);
    assert Compact(ts) == "2+";
    LexCompact(ts);
  }

  /** The pre-check refuses letters, parentheses and the decimal point, even
      though the scan would read `2.5` as a number and `(` as a token. */
  lemma PreCheckRefusals()
    ensures Calculate("abc") == Failure(InvalidExpression)
    ensures Calculate("2*(3+1)") == Failure(InvalidExpression)
    ensures Calculate("2(3") == Failure(InvalidExpression)
    ensures Calculate("2.5+1") == Failure(InvalidExpression)
    ensures Calculate("") == Failure(InvalidExpression)
    ensures !PreCheck("abc") && !PreCheck("2*(3+1)") && !PreCheck("2(3") && !PreCheck("2.5+1") && !PreCheck("")
  {
    assert !IsAllowed("abc"[0]);
    assert !IsAllowed("2*(3+1)"[2]);
    assert !IsAllowed("2(3"[1]);
    assert !IsAllowed("2.5+1"[1]);
  }

  /** White space alone passes the pre-check and is refused afterwards. */
  lemma Blank()
    ensures PreCheck("  ") && Calculate("  ") == Failure(InvalidExpression)
  {
    assert AllIn(Spaces, "  ") by {
      assert InRun(Spaces, "  "[0]) && InRun(Spaces, "  "[1]);
    }
    BlankRejected("  ");
  }

  /** A parenthesis between two numbers is scanned as a string token of its own. */
  lemma ParenthesisScan(a: nat, b: nat)
    ensures Lex(Numeral(a) + "(" + Numeral(b)) == [Num(a as real), Str("("), Num(b as real)]
  {
    var head, tail := Numeral(a), Numeral(b);
    var rest := "(" + tail;
    StringsAssociative(head, "(", tail);
    LexDigits(head);
    LexDigits(tail);
    LexSymbolFirst("(", tail);
    LexAppend(head, rest);
    ThreeTokens(Num(a as real), Str("("), Num(b as real));
  }

  /** Without the pre-check, the tokens of `ParenthesisScan` would pass the
      validator (which only looks at the four operators) and reach the
      `Invalid operator` branch of the walk. */
  lemma ParenthesisPastValidator(a: real, b: real)
    ensures Accepts([Num(a), Str("("), Num(b)])
    ensures Evaluate([Num(a), Str("("), Num(b)]) == Failure(InvalidOperator)
  {
    var ts := [Num(a), Str("("), Num(b)];
    assert PositionOk(ts, 1) && PositionOk(ts, 2);
    assert ts[1].text !in Operators;
    assert EvalFrom(a, ts, 1) == Failure(InvalidOperator);
  }

  /** With the pre-check, the same expression is refused as invalid. */
  lemma ParenthesisRefused(a: nat, b: nat)
    ensures Calculate(Numeral(a) + "(" + Numeral(b)) == Failure(InvalidExpression)
  {
    var e := Numeral(a) + "(" + Numeral(b);
    assert e[|Numeral(a)|] == '(';
    assert !IsAllowed(e[|Numeral(a)|]);
  }
}
