/** `CalcService.calculateExpression`: the pre-check, then tokenize, validate and
    evaluate, with every failure turned into a 400 response. */
module CalcService {
  import opened Results
  import opened Tokens
  import opened Tokenizer
  import opened Validator
  import opened Evaluator

  /** `/^[\d+\-*\/\s]+$/.test(value)` (line 10): one or more characters of the
      class, anchored at both ends. */
  function PreCheck(value: string): (ok: bool)
    ensures ok <==> |value| > 0 && forall k :: 0 <= k < |value| ==> IsAllowed(value[k])
  {
    |value| > 0 && IsAllowed(value[0]) && (|value| == 1 || PreCheck(value[1..]))
  }

  /** What the `try` block (lines 7-28) can throw. */
  datatype Thrown = BadRequest(kind: ErrorKind) | OtherError

  /** How the `try` block ends. */
  datatype Outcome = Returned(value: real) | Threw(thrown: Thrown)

  /** The `catch` of lines 29-38: a `BadRequestException` goes out as it is,
      anything else as `An unexpected error occurred`. */
  function Catch(o: Outcome): (r: Result<real>)
    ensures r.Success? <==> o.Returned?
    ensures r.Failure? && r.error != Unexpected ==> o == Threw(BadRequest(r.error))
    ensures o.Returned? ==> r == Success(o.value)
    ensures o.Threw? && o.thrown.BadRequest? ==> r == Failure(o.thrown.kind)
  {
    match o
    case Returned(v) => Success(v)
    case Threw(BadRequest(kind)) => Failure(kind)
    case Threw(OtherError) => Failure(Unexpected)
  }

  /** The response of `calculateExpression` for the expression `value`. */
  function Calculate(value: string): Result<real>
  {
    if !PreCheck(value) then Failure(InvalidExpression)
    else
      var tokens := Lex(value);
      if !Accepts(tokens) then Failure(InvalidExpression)
      else Evaluate(tokens)
  }

  /** `calculateExpression` (lines 6-39). The token list is an array, so
      `!tokens` never holds; `Number(result)` leaves a number as it is. */
  method CalculateExpression(value: string) returns (r: Result<real>)
    ensures r == Calculate(value)
  {
    var outcome: Outcome;
    if !PreCheck(value) {
      outcome := Threw(BadRequest(InvalidExpression));
    } else {
      var tokens := Tokenize(value);
      var valid := IsValidExp(tokens);
      if !valid {
        outcome := Threw(BadRequest(InvalidExpression));
      } else {
        var result := EvaluateExp(tokens);
        outcome := if result.Success? then Returned(result.value) else Threw(BadRequest(result.error));
      }
    }
    r := Catch(outcome);
  }

  /** On a pre-checked expression every token is a natural number or an
      operator, so every string token is an operator. */
  lemma PreCheckedTokens(value: string)
    requires PreCheck(value)
    ensures OnlyOperators(Lex(value))
    ensures forall i :: 0 <= i < |Lex(value)| ==> Printable(Lex(value)[i])
  {
    LexAllowedTokens(value);
  }

  /** The whole behaviour: a pre-checked expression whose tokens follow
      `Num (Op Num)*` gets its left-nested value, or `Division by zero`;
      everything else gets `Invalid expression provided`. */
  lemma CalculateMeaning(value: string)
    ensures Calculate(value) ==
      if PreCheck(value) && Alternating(Lex(value))
      then Nested(Lex(value)[0].value, Steps(Lex(value)))
      else Failure(InvalidExpression)
  {
    if PreCheck(value) {
      PreCheckedTokens(value);
      AcceptsIffAlternating(Lex(value));
      if Alternating(Lex(value)) {
        EvaluateIsNested(Lex(value));
      }
    }
  }

  /** The only failures are `Invalid expression provided` and `Division by zero`:
      the `Invalid operator` branch and the `catch` for other errors are never
      reached. Each is a 400 `Bad Request` body with its message. */
  lemma CalculateErrors(value: string)
    ensures Calculate(value).Failure? ==>
      Calculate(value).error == InvalidExpression || Calculate(value).error == DivisionByZero
    ensures Calculate(value).Failure? ==>
      var b := Body(Calculate(value).error);
      b.statusCode == 400 && b.error == "Bad Request" &&
      (b.message == "Invalid expression provided" || b.message == "Division by zero")
    ensures Calculate(value) == Failure(DivisionByZero) ==>
      PreCheck(value) && Alternating(Lex(value)) &&
      exists k :: 0 <= k < |Steps(Lex(value))| && ZeroDivisor(Steps(Lex(value))[k])
  {
    if PreCheck(value) {
      PreCheckedTokens(value);
      if Accepts(Lex(value)) {
        EvaluateFailure(Lex(value));
      }
      CalculateMeaning(value);
    }
  }

  /** An expression written out from tokens of the grammar `Num (Op Num)*`,
      one space between neighbours, evaluates to the left-nested value of
      those tokens. */
  lemma CalculateRender(ts: seq<Token>)
    requires Alternating(ts) && forall i :: 0 <= i < |ts| ==> Printable(ts[i])
    ensures Calculate(Render(ts)) == Nested(ts[0].value, Steps(ts))
  {
    var r := Render(ts);
    LexRender(ts);
    CalculateTokens(r, ts);
  }

  /** The same expression written with no spaces at all evaluates alike. */
  lemma CalculateCompact(ts: seq<Token>)
    requires Alternating(ts) && forall i :: 0 <= i < |ts| ==> Printable(ts[i])
    ensures Calculate(Compact(ts)) == Nested(ts[0].value, Steps(ts))
  {
    var c := Compact(ts);
    AlternatingSeparated(ts);
    LexCompact(ts);
    CalculateTokens(c, ts);
  }

  /** In the grammar `Num (Op Num)*` an operator stands between any two numbers. */
  lemma AlternatingSeparated(ts: seq<Token>)
    requires Alternating(ts)
    ensures Separated(ts)
  {
    forall i | 0 <= i < |ts| - 1
      ensures !(ts[i].Num? && ts[i + 1].Num?)
    {
      if i % 2 == 0 {
        assert (i + 1) % 2 == 1;
        assert IsOperator(ts[i + 1]);
      } else {
        assert IsOperator(ts[i]);
      }
    }
  }

  /** A pre-checked expression that scans to tokens of the grammar gets their
      left-nested value. */
  lemma CalculateTokens(value: string, ts: seq<Token>)
    requires value != [] && forall k :: 0 <= k < |value| ==> IsAllowed(value[k])
    requires Lex(value) == ts && Alternating(ts)
    ensures Calculate(value) == Nested(ts[0].value, Steps(ts))
  {
    assert PreCheck(value);
    CalculateMeaning(value);
  }

  /** The same tokens in any layout evaluate alike: white space of any kind and
      amount around and between them never changes the response. */
  lemma CalculateLayout(ts: seq<Token>, gaps: seq<string>)
    requires Alternating(ts) && forall i :: 0 <= i < |ts| ==> Printable(ts[i])
    requires Spacing(ts, gaps)
    ensures Calculate(Layout(ts, gaps)) == Nested(ts[0].value, Steps(ts))
  {
    var e := Layout(ts, gaps);
    LexLayout(ts, gaps);
    LayoutAllowed(ts, gaps);
    CalculateTokens(e, ts);
  }

  /** Two layouts of the same tokens get the same response, whether or not the
      tokens form an expression: only white space differs between them. */
  lemma SpacingIrrelevant(ts: seq<Token>, gaps: seq<string>, other: seq<string>)
    requires forall i :: 0 <= i < |ts| ==> Printable(ts[i])
    requires Spacing(ts, gaps) && Spacing(ts, other)
    ensures Calculate(Layout(ts, gaps)) == Calculate(Layout(ts, other))
  {
    var a, b := Layout(ts, gaps), Layout(ts, other);
    if ts == [] {
      BlankRejected(a);
      BlankRejected(b);
    } else {
      LexLayout(ts, gaps);
      LexLayout(ts, other);
      LayoutAllowed(ts, gaps);
      LayoutAllowed(ts, other);
      assert a != [] && b != [];
      SameResponse(a, b);
    }
  }

  /** The response depends on the pre-check and the scan alone. */
  lemma SameResponse(a: string, b: string)
    requires PreCheck(a) == PreCheck(b) && Lex(a) == Lex(b)
    ensures Calculate(a) == Calculate(b)
  {
  }

  /** White space alone passes the pre-check but scans to no tokens, which the
      validator rejects; the empty string fails the pre-check. */
  lemma BlankRejected(value: string)
    requires AllIn(Spaces, value)
    ensures value != [] ==> PreCheck(value) && Lex(value) == []
    ensures value == [] ==> !PreCheck(value)
    ensures Calculate(value) == Failure(InvalidExpression)
  {
    LexBlank(value);
    if value != [] {
      assert InRun(Spaces, value[0]);
    }
  }
}
