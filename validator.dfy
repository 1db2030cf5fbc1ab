/** `CalcService.isValidExp`: the structural check of a token list before it is
    evaluated. */
module Validator {
  import opened Tokens

  /** What the loop of `isValidExp` checks at position `i` (lines 61-72): a number
      may not follow a number; one of the four operators must follow a number,
      may not be last and must be followed by a number. A string that is not one
      of the four operators is not looked at. */
  predicate PositionOk(ts: seq<Token>, i: nat)
    requires 1 <= i < |ts|
  {
    if ts[i].Num? then !ts[i - 1].Num?
    else if ts[i].text in Operators then ts[i - 1].Num? && i < |ts| - 1 && ts[i + 1].Num?
    else true
  }

  /** The verdict of `isValidExp` (lines 58-76): a number first, every position
      after it in order, and a number last. An empty list fails the first test:
      `tokens[0]` is `undefined`, not a number. */
  predicate Accepts(ts: seq<Token>)
  {
    && |ts| > 0
    && ts[0].Num?
    && (forall i :: 1 <= i < |ts| ==> PositionOk(ts, i))
    && ts[|ts| - 1].Num?
  }

  /** `isValidExp` (lines 58-76), with its early returns. */
  method IsValidExp(tokens: seq<Token>) returns (valid: bool)
    ensures valid == Accepts(tokens)
  {
    if |tokens| == 0 || !tokens[0].Num? {
      return false;
    }
    for i := 1 to |tokens|
      invariant forall k :: 1 <= k < i ==> PositionOk(tokens, k)
    {
      var token := tokens[i];
      if token.Num? {
        if tokens[i - 1].Num? {
          assert !PositionOk(tokens, i);
          return false;
        }
      } else if token.text in Operators {
        if !tokens[i - 1].Num? || i == |tokens| - 1 || !tokens[i + 1].Num? {
          assert !PositionOk(tokens, i);
          return false;
        }
      }
    }
    return tokens[|tokens| - 1].Num?;
  }

  /** The grammar `Num (Op Num)*`: numbers at the even positions, one of the four
      operators at the odd ones, and an odd length. */
  predicate Alternating(ts: seq<Token>)
  {
    && |ts| % 2 == 1
    && forall i :: 0 <= i < |ts| ==> if i % 2 == 0 then ts[i].Num? else IsOperator(ts[i])
  }

  /** Every string in the list is one of the four operators: the only strings a
      pre-checked expression can produce. */
  predicate OnlyOperators(ts: seq<Token>)
  {
    forall i :: 0 <= i < |ts| ==> ts[i].Str? ==> IsOperator(ts[i])
  }

  /** In an accepted list whose strings are operators, numbers sit exactly at the
      even positions below `n`. */
  lemma {:induction false} AcceptedParity(ts: seq<Token>, n: nat)
    requires Accepts(ts) && OnlyOperators(ts) && n <= |ts|
    ensures forall i :: 0 <= i < n ==> (ts[i].Num? <==> i % 2 == 0)
  {
    if n > 0 {
      AcceptedParity(ts, n - 1);
      var i := n - 1;
      if i > 0 {
        if ts[i - 1].Num? {
          assert PositionOk(ts, i);
        } else {
          assert i - 1 >= 1 && PositionOk(ts, i - 1);
        }
      }
    }
  }

  /** The validator accepts exactly the lists of the grammar `Num (Op Num)*`,
      when every string in the list is an operator. */
  lemma AcceptsIffAlternating(ts: seq<Token>)
    requires OnlyOperators(ts)
    ensures Accepts(ts) <==> Alternating(ts)
  {
    if Accepts(ts) {
      AcceptedParity(ts, |ts|);
    }
    if Alternating(ts) {
      forall i | 1 <= i < |ts|
        ensures PositionOk(ts, i)
      {
        if i % 2 == 1 {
          assert i + 1 < |ts| by {
            assert (|ts| - 1) % 2 == 0;
          }
          assert ts[i + 1].Num? && ts[i - 1].Num?;
        }
      }
    }
  }

  /** Whatever its strings, the grammar `Num (Op Num)*` is accepted. */
  lemma AlternatingAccepted(ts: seq<Token>)
    requires Alternating(ts)
    ensures Accepts(ts)
  {
    assert OnlyOperators(ts);
    AcceptsIffAlternating(ts);
  }
}
