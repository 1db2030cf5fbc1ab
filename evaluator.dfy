/** `CalcService.evaluateExp`: a strictly left-to-right walk over a validated
    token list, one operator and its right operand at a time. Numbers are exact
    reals here. */
module Evaluator {
  import opened Results
  import opened Tokens
  import opened Validator

  /** One case of the `switch` of lines 85-113: the four operators, division
      refusing a zero divisor, and any other string refused as an operator. */
  function Apply(op: string, acc: real, v: real): (r: Result<real>)
    ensures r.Failure? <==> op !in Operators || (op == "/" && v == 0.0)
    ensures r.Failure? ==> r.error == if op in Operators then DivisionByZero else InvalidOperator
    ensures op == "/" && v != 0.0 ==> r == Success(acc / v)
  {
    if op == "+" then Success(acc + v)
    else if op == "-" then Success(acc - v)
    else if op == "*" then Success(acc * v)
    else if op == "/" then
      if v == 0.0 then Failure(DivisionByZero) else Success(acc / v)
    else Failure(InvalidOperator)
  }

  /** In an accepted list, the token after a number is not a number. */
  lemma AfterNumber(ts: seq<Token>, i: nat)
    requires Accepts(ts) && 1 <= i < |ts| && ts[i - 1].Num?
    ensures ts[i].Str?
    ensures ts[i].text in Operators ==> i + 1 < |ts| && ts[i + 1].Num?
  {
    assert PositionOk(ts, i);
  }

  /** The rest of the loop of lines 82-116 from position `i` with `acc` in
      `result`. The token at `i` is a string, since the validator put a number
      before it; an operator there has a number after it. */
  function EvalFrom(acc: real, ts: seq<Token>, i: nat): Result<real>
    requires Accepts(ts) && 1 <= i <= |ts| && ts[i - 1].Num?
    decreases |ts| - i
  {
    if i == |ts| then Success(acc)
    else
      AfterNumber(ts, i);
      if ts[i].text !in Operators then Failure(InvalidOperator)
      else match Apply(ts[i].text, acc, ts[i + 1].value)
        case Failure(e) => Failure(e)
        case Success(a) => EvalFrom(a, ts, i + 2)
  }

  /** One iteration of the walk at position `i`: a non-operator string fails
      with `Invalid operator`, an operator is applied to the number after it. */
  lemma EvalFromStep(acc: real, ts: seq<Token>, i: nat)
    requires Accepts(ts) && 1 <= i < |ts| && ts[i - 1].Num?
    ensures ts[i].Str?
    ensures ts[i].text !in Operators ==> EvalFrom(acc, ts, i) == Failure(InvalidOperator)
    ensures ts[i].text in Operators ==>
      && i + 1 < |ts| && ts[i + 1].Num?
      && EvalFrom(acc, ts, i) ==
         match Apply(ts[i].text, acc, ts[i + 1].value)
         case Failure(e) => Failure(e)
         case Success(a) => EvalFrom(a, ts, i + 2)
  {
    AfterNumber(ts, i);
  }

  /** What `evaluateExp` returns or throws for a validated list. */
  function Evaluate(ts: seq<Token>): Result<real>
    requires Accepts(ts)
  {
    EvalFrom(ts[0].value, ts, 1)
  }

  /** `evaluateExp` (lines 78-118). Its callers pass a list `isValidExp`
      accepted; the final `Number(result)` leaves a number as it is. */
  method EvaluateExp(tokens: seq<Token>) returns (r: Result<real>)
    requires Accepts(tokens)
    ensures r == Evaluate(tokens)
  {
    var result := tokens[0].value;
    var i := 1;
    while i < |tokens|
      invariant 1 <= i <= |tokens| && tokens[i - 1].Num?
      invariant EvalFrom(result, tokens, i) == Evaluate(tokens)
      decreases |tokens| - i
    {
      AfterNumber(tokens, i);
      EvalFromStep(result, tokens, i);
      var operator := tokens[i].text;
      if operator == "+" {
        result := result + tokens[i + 1].value;
      } else if operator == "-" {
        result := result - tokens[i + 1].value;
      } else if operator == "*" {
        result := result * tokens[i + 1].value;
      } else if operator == "/" {
        var nextValue := tokens[i + 1].value;
        if nextValue == 0.0 {
          return Failure(DivisionByZero);
        }
        result := result / nextValue;
      } else {
        return Failure(InvalidOperator);
      }
      i := i + 2;
    }
    return Success(result);
  }

  // An independent reading of the walk: the expression nested to the left.

  /** An operator with its right operand. */
  datatype Step = Step(op: string, operand: real)

  /** The steps of a list of the grammar `Num (Op Num)*` from the odd position `i`. */
  function StepsFrom(ts: seq<Token>, i: nat): (steps: seq<Step>)
    requires Alternating(ts) && i % 2 == 1 && i <= |ts|
    ensures |steps| == (|ts| - i) / 2
    ensures forall k :: 0 <= k < |steps| ==> steps[k] == Step(ts[i + 2 * k].text, ts[i + 2 * k + 1].value)
    decreases |ts| - i
  {
    if i == |ts| then []
    else [Step(ts[i].text, ts[i + 1].value)] + StepsFrom(ts, i + 2)
  }

  function Steps(ts: seq<Token>): seq<Step>
    requires Alternating(ts)
  {
    StepsFrom(ts, 1)
  }

  /** A result with one more step applied; a failure stays a failure. */
  function Then(r: Result<real>, s: Step): Result<real>
  {
    match r
    case Failure(e) => Failure(e)
    case Success(a) => Apply(s.op, a, s.operand)
  }

  /** The value of `((first op1 x1) op2 x2) ... opn xn`: the last step is applied
      to the value of all the others, with no operator binding tighter. */
  function Nested(first: real, steps: seq<Step>): Result<real>
  {
    if steps == [] then Success(first)
    else Then(Nested(first, steps[..|steps| - 1]), steps[|steps| - 1])
  }

  /** The same steps applied front to back, as the loop does. */
  function Forward(acc: real, steps: seq<Step>): Result<real>
    decreases |steps|
  {
    if steps == [] then Success(acc)
    else match Apply(steps[0].op, acc, steps[0].operand)
      case Failure(e) => Failure(e)
      case Success(a) => Forward(a, steps[1..])
  }

  lemma {:induction false} ForwardSnoc(acc: real, steps: seq<Step>, s: Step)
    ensures Forward(acc, steps + [s]) == Then(Forward(acc, steps), s)
    decreases |steps|
  {
    if steps == [] {
      assert [] + [s] == [s];
      assert [s][1..] == [];
    } else {
      assert (steps + [s])[1..] == steps[1..] + [s];
      assert (steps + [s])[0] == steps[0];
      match Apply(steps[0].op, acc, steps[0].operand)
      case Failure(e) =>
      case Success(a) => ForwardSnoc(a, steps[1..], s);
    }
  }

  /** Applying the steps front to back gives the left-nested value. */
  lemma {:induction false} ForwardIsNested(acc: real, steps: seq<Step>)
    ensures Forward(acc, steps) == Nested(acc, steps)
    decreases |steps|
  {
    if steps != [] {
      var init := steps[..|steps| - 1];
      assert init + [steps[|steps| - 1]] == steps;
      ForwardSnoc(acc, init, steps[|steps| - 1]);
      ForwardIsNested(acc, init);
    }
  }

  lemma {:induction false} EvalFromForward(acc: real, ts: seq<Token>, i: nat)
    requires Alternating(ts) && i % 2 == 1 && i <= |ts|
    ensures Accepts(ts) && ts[i - 1].Num?
    ensures EvalFrom(acc, ts, i) == Forward(acc, StepsFrom(ts, i))
    decreases |ts| - i
  {
    AlternatingAccepted(ts);
    if i < |ts| {
      assert IsOperator(ts[i]) && ts[i + 1].Num?;
      var first := Step(ts[i].text, ts[i + 1].value);
      var rest := StepsFrom(ts, i + 2);
      assert StepsFrom(ts, i) == [first] + rest;
      ConsParts(first, rest);
      match Apply(ts[i].text, acc, ts[i + 1].value)
      case Failure(e) =>
      case Success(a) => EvalFromForward(a, ts, i + 2);
    }
  }

  // A sequence identity, stated by itself so the proof above can cite it.
  lemma ConsParts(first: Step, rest: seq<Step>)
    ensures ([first] + rest)[0] == first && ([first] + rest)[1..] == rest
  {
  }

  /** On the grammar `Num (Op Num)*` the walk computes the left-nested value of
      the expression: operators have no precedence. */
  lemma EvaluateIsNested(ts: seq<Token>)
    requires Alternating(ts)
    ensures Accepts(ts)
    ensures Evaluate(ts) == Nested(ts[0].value, Steps(ts))
  {
    EvalFromForward(ts[0].value, ts, 1);
    ForwardIsNested(ts[0].value, Steps(ts));
  }

  predicate OperatorSteps(steps: seq<Step>)
  {
    forall k :: 0 <= k < |steps| ==> steps[k].op in Operators
  }

  /** A step with operator `/` and a zero operand. */
  predicate ZeroDivisor(s: Step)
  {
    s.op == "/" && s.operand == 0.0
  }

  /** With the four operators only, the left-nested value fails exactly when
      some step divides by zero, and then with `Division by zero`. */
  lemma {:induction false} NestedFailure(first: real, steps: seq<Step>)
    requires OperatorSteps(steps)
    ensures Nested(first, steps).Failure? <==> exists k :: 0 <= k < |steps| && ZeroDivisor(steps[k])
    ensures Nested(first, steps).Failure? ==> Nested(first, steps).error == DivisionByZero
    decreases |steps|
  {
    if steps != [] {
      var init := steps[..|steps| - 1];
      var last := steps[|steps| - 1];
      assert OperatorSteps(init) by {
        forall k | 0 <= k < |init| ensures init[k].op in Operators {
          assert init[k] == steps[k];
        }
      }
      NestedFailure(first, init);
      if exists k :: 0 <= k < |init| && ZeroDivisor(init[k]) {
        var k :| 0 <= k < |init| && ZeroDivisor(init[k]);
        assert steps[k] == init[k];
      }
      if exists k :: 0 <= k < |steps| && ZeroDivisor(steps[k]) {
        var k :| 0 <= k < |steps| && ZeroDivisor(steps[k]);
        if k < |init| {
          assert init[k] == steps[k];
        }
      }
    }
  }

  /** The walk over a validated list fails only on a zero divisor when every
      string is an operator: `Invalid operator` cannot be thrown then. */
  lemma EvaluateFailure(ts: seq<Token>)
    requires Accepts(ts) && OnlyOperators(ts)
    ensures Alternating(ts)
    ensures Evaluate(ts).Failure? <==> exists k :: 0 <= k < |Steps(ts)| && ZeroDivisor(Steps(ts)[k])
    ensures Evaluate(ts).Failure? ==> Evaluate(ts).error == DivisionByZero
  {
    AcceptsIffAlternating(ts);
    EvaluateIsNested(ts);
    var steps := Steps(ts);
    assert OperatorSteps(steps) by {
      forall k | 0 <= k < |steps| ensures steps[k].op in Operators {
        assert IsOperator(ts[1 + 2 * k]);
      }
    }
    NestedFailure(ts[0].value, steps);
  }
}
