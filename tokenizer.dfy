/** The scanner of `CalcService.tokenize`: the global regular expression
    `\d+\.?\d*|[+\-*\/()]|\s+` run repeatedly with `exec`, each match trimmed and
    pushed as a number or a string. */
module Tokenizer {
  import opened Results
  import opened Tokens

  /** The two character classes the pattern repeats: `\d` and `\s`. */
  datatype Run = Digits | Spaces

  predicate InRun(r: Run, c: char)
  {
    if r == Digits then IsDigit(c) else IsWhitespace(c)
  }

  predicate AllIn(p: Run, s: string)
  {
    forall k :: 0 <= k < |s| ==> InRun(p, s[k])
  }

  /** Length of the longest prefix of `s` whose characters are all in class `p`. */
  function Span(p: Run, s: string): (n: nat)
    ensures n <= |s|
    ensures AllIn(p, s[..n])
    ensures n == |s| || !InRun(p, s[n])
  {
    if s == [] || !InRun(p, s[0]) then 0 else 1 + Span(p, s[1..])
  }

  lemma {:induction false} SpanAppend(p: Run, s: string, t: string)
    ensures Span(p, s + t) == if Span(p, s) < |s| then Span(p, s) else |s| + Span(p, t)
  {
    if s == [] {
      assert s + t == t;
    } else if InRun(p, s[0]) {
      assert (s + t)[1..] == s[1..] + t;
      SpanAppend(p, s[1..], t);
    }
  }

  lemma SpanPrefix(p: Run, s: string, m: nat)
    requires m <= |s|
    ensures Span(p, s[..m]) == if Span(p, s) < m then Span(p, s) else m
  {
    assert s == s[..m] + s[m..];
    SpanAppend(p, s[..m], s[m..]);
  }

  predicate AllDigits(ds: string)
  {
    AllIn(Digits, ds)
  }

  function Pow10(k: nat): (r: nat)
    ensures r >= 1
  {
    if k == 0 then 1 else 10 * Pow10(k - 1)
  }

  /** The decimal value of a string of digits. */
  function DigitsValue(ds: string): nat
    requires AllDigits(ds)
  {
    if ds == [] then 0 else 10 * DigitsValue(ds[..|ds| - 1]) + DigitValue(ds[|ds| - 1])
  }

  /** A string the first alternative `\d+\.?\d*` matches in full. */
  predicate IsNumberLiteral(v: string)
  {
    var d := Span(Digits, v);
    d >= 1 && (d == |v| || (v[d] == '.' && Span(Digits, v[d + 1..]) == |v| - d - 1))
  }

  /** The value of the number literal at the start of `v`: its integer digits plus
      the digits after a point, scaled down by their count. For a literal in full
      this is `Number(v)` (`"3."` is 3, `"2.50"` is 2.5). */
  function LiteralValue(v: string): real
  {
    var d := Span(Digits, v);
    var whole := DigitsValue(v[..d]) as real;
    if d < |v| && v[d] == '.' then
      var f := v[d + 1..][..Span(Digits, v[d + 1..])];
      whole + DigitsValue(f) as real / Pow10(|f|) as real
    else whole
  }

  lemma LiteralOfDigits(ds: string)
    requires AllDigits(ds)
    ensures Span(Digits, ds) == |ds| && LiteralValue(ds) == DigitsValue(ds) as real
  {
    assert ds[..|ds|] == ds;
  }

  /** Length of the greedy match of `\d+\.?\d*` at the start of `s`. */
  function NumberMatchLength(s: string): (n: nat)
    requires s != [] && IsDigit(s[0])
    ensures 1 <= n <= |s|
  {
    var d := Span(Digits, s);
    if d < |s| && s[d] == '.' then d + 1 + Span(Digits, s[d + 1..]) else d
  }

  /** The greedy match is a number literal in full, with the value read from `s`. */
  lemma NumberMatchIsLiteral(s: string)
    requires s != [] && IsDigit(s[0])
    ensures IsNumberLiteral(s[..NumberMatchLength(s)])
    ensures LiteralValue(s[..NumberMatchLength(s)]) == LiteralValue(s)
  {
    var d := Span(Digits, s);
    var n := NumberMatchLength(s);
    var v := s[..n];
    SpanPrefix(Digits, s, n);
    assert v[..d] == s[..d];
    if d < n {
      var f := s[d + 1..];
      var k := Span(Digits, f);
      assert v[d + 1..] == f[..k];
      SpanPrefix(Digits, f, k);
      assert f[..k][..k] == f[..k];
    }
  }

  /** Length of the match of the whole pattern at the start of `t`; 0 when no
      alternative matches there. */
  function MatchAtStart(t: string): (n: nat)
    ensures n <= |t|
    ensures n > 0 <==> t != [] && (IsDigit(t[0]) || IsSymbol(t[0]) || IsWhitespace(t[0]))
  {
    if t == [] then 0
    else if IsDigit(t[0]) then NumberMatchLength(t)
    else if IsSymbol(t[0]) then 1
    else if IsWhitespace(t[0]) then Span(Spaces, t)
    else 0
  }

  /** What `exec` returns: the matched text `match[0]` and where it starts. */
  datatype Match = Match(index: nat, text: string)
  {
    /** Where the next search starts: `regex.lastIndex` after this match. */
    function End(): nat
    {
      index + |text|
    }
  }

  /** No alternative of the pattern matches at position `p` of `s`. */
  predicate NoMatchAt(s: string, p: nat)
    requires p <= |s|
  {
    MatchAtStart(s[p..]) == 0
  }

  /** `regex.exec(s)` with the regex's `lastIndex` at `lastIndex`: the leftmost match
      at or after it, or null. */
  function Exec(s: string, lastIndex: nat): (found: Option<Match>)
    requires lastIndex <= |s|
    ensures found.Some? ==>
      && lastIndex <= found.value.index < |s|
      && |found.value.text| == MatchAtStart(s[found.value.index..]) > 0
      && found.value.text == s[found.value.index..][..|found.value.text|]
    ensures var stop := if found.Some? then found.value.index else |s|;
      forall p :: lastIndex <= p < stop ==> NoMatchAt(s, p)
    decreases |s| - lastIndex
  {
    if lastIndex == |s| then None
    else if MatchAtStart(s[lastIndex..]) > 0 then
      Some(Match(lastIndex, s[lastIndex..][..MatchAtStart(s[lastIndex..])]))
    else Exec(s, lastIndex + 1)
  }

  /** `s` without its leading white space. */
  function TrimStart(s: string): (r: string)
    ensures |r| <= |s| && r == s[|s| - |r|..]
    ensures AllIn(Spaces, s[..|s| - |r|])
    ensures r != [] ==> !IsWhitespace(r[0])
  {
    if s != [] && IsWhitespace(s[0]) then TrimStart(s[1..]) else s
  }

  /** `s` without its trailing white space. */
  function TrimEnd(s: string): (r: string)
    ensures |r| <= |s| && r == s[..|r|]
    ensures AllIn(Spaces, s[|r|..])
    ensures r != [] ==> !IsWhitespace(r[|r| - 1])
  {
    if s != [] && IsWhitespace(s[|s| - 1]) then TrimEnd(s[..|s| - 1]) else s
  }

  /** `String.prototype.trim`: the middle part of `s` that neither begins nor
      ends with white space, with only white space cut off before and after it. */
  function Trim(s: string): (r: string)
    ensures r != [] ==> !IsWhitespace(r[0]) && !IsWhitespace(r[|r| - 1])
    ensures var i := |s| - |TrimStart(s)|;
      && i + |r| <= |s| && r == s[i..i + |r|]
      && AllIn(Spaces, s[..i]) && AllIn(Spaces, s[i + |r|..])
  {
    TrimEnd(TrimStart(s))
  }

  /** A string of white space trims to the empty string. */
  lemma {:induction false} TrimSpaces(s: string)
    requires AllIn(Spaces, s)
    ensures Trim(s) == []
  {
    if s != [] {
      assert AllIn(Spaces, s[1..]) by {
        forall k | 0 <= k < |s| - 1 ensures InRun(Spaces, s[1..][k]) {
          assert s[1..][k] == s[k + 1];
        }
      }
      TrimSpaces(s[1..]);
    }
  }

  /** A string without white space at either end trims to itself. */
  lemma TrimKeeps(s: string)
    requires s != [] && !IsWhitespace(s[0]) && !IsWhitespace(s[|s| - 1])
    ensures Trim(s) == s
  {
  }

  /** The tokens one match contributes (lines 47-51): its trimmed text is dropped
      when empty, pushed as a number when `Number` parses it, and as a string
      otherwise. Among the texts the scan yields, `Number` parses exactly the
      number literals; a lone symbol character gives NaN. */
  function TokensOfMatch(text: string): (ts: seq<Token>)
    ensures |ts| <= 1
    ensures ts != [] && ts[0].Str? ==> ts[0].text == Trim(text) && !IsNumberLiteral(ts[0].text)
  {
    var value := Trim(text);
    if value == [] then []
    else if IsNumberLiteral(value) then [Num(LiteralValue(value))]
    else [Str(value)]
  }

  /** How far the scan moves past position 0 of a non-empty `s`: over the match
      there, or over one character when nothing matches (`exec` searches on). */
  function Advance(s: string): (n: nat)
    requires s != []
    ensures 1 <= n <= |s|
  {
    if MatchAtStart(s) == 0 then 1 else MatchAtStart(s)
  }

  /** The tokens read at position 0 of a non-empty `s`: a number literal gives its
      value, an operator or parenthesis character a one-character string, and a
      white-space run or an unmatched character nothing. */
  function LeadingTokens(s: string): (ts: seq<Token>)
    requires s != []
    ensures |ts| <= 1
  {
    if IsDigit(s[0]) then [Num(LiteralValue(s))]
    else if IsSymbol(s[0]) then [Str([s[0]])]
    else []
  }

  /** The token list of a string, read left to right; each token uses up at
      least one character. */
  function Lex(s: string): (ts: seq<Token>)
    decreases |s|
  {
    if s == [] then [] else LeadingTokens(s) + Lex(s[Advance(s)..])
  }

  /** A number literal begins with a digit and ends with a digit or the point. */
  lemma LiteralEnds(v: string)
    requires IsNumberLiteral(v)
    ensures v != [] && IsDigit(v[0]) && (IsDigit(v[|v| - 1]) || v[|v| - 1] == '.')
  {
    var d := Span(Digits, v);
    assert InRun(Digits, v[..d][0]);
    if d == |v| {
      assert InRun(Digits, v[..d][d - 1]);
    } else if d + 1 < |v| {
      var f := v[d + 1..];
      assert f[..Span(Digits, f)] == f;
      assert InRun(Digits, f[|f| - 1]);
    }
  }

  /** A match at the start of `t` accounts for the first tokens of `t`. */
  lemma MatchLex(t: string)
    requires MatchAtStart(t) > 0
    ensures LeadingTokens(t) == TokensOfMatch(t[..MatchAtStart(t)])
  {
    var text := t[..MatchAtStart(t)];
    if IsDigit(t[0]) {
      NumberMatchIsLiteral(t);
      LiteralEnds(text);
      TrimKeeps(text);
    } else if IsSymbol(t[0]) {
      assert text == [t[0]];
      TrimKeeps(text);
      assert Span(Digits, text) == 0;
    } else {
      TrimSpaces(text);
    }
  }

  /** A position where nothing matches is skipped without a token. */
  lemma LexAtSkip(t: string)
    requires t != [] && MatchAtStart(t) == 0
    ensures Lex(t) == Lex(t[1..])
  {
  }

  /** One `exec` call accounts for the tokens of the text from `lastIndex`. */
  lemma {:induction false} ExecLex(s: string, lastIndex: nat)
    requires lastIndex <= |s|
    ensures Exec(s, lastIndex).None? ==> Lex(s[lastIndex..]) == []
    ensures Exec(s, lastIndex).Some? ==>
      Lex(s[lastIndex..]) == TokensOfMatch(Exec(s, lastIndex).value.text) + Lex(s[Exec(s, lastIndex).value.End()..])
    decreases |s| - lastIndex
  {
    if lastIndex == |s| {
      assert s[lastIndex..] == [];
    } else if MatchAtStart(s[lastIndex..]) > 0 {
      ExecLexHere(s, lastIndex);
    } else {
      LexAtSkip(s[lastIndex..]);
      DropDrop(s, lastIndex, 1);
      ExecLex(s, lastIndex + 1);
    }
  }

  // ExecLexHere, ExecAt, LexAtText and LexAtSplit state one fact, the case of
  // ExecLex where the pattern matches at `lastIndex`, in steps. Each passes the
  // slices it needs as parameters, so that no single proof has to relate
  // `exec`'s match, the slices of `s` and the recursive scan all at once.

  lemma ExecLexHere(s: string, lastIndex: nat)
    requires lastIndex < |s| && MatchAtStart(s[lastIndex..]) > 0
    ensures Exec(s, lastIndex).Some?
    ensures Lex(s[lastIndex..]) == TokensOfMatch(Exec(s, lastIndex).value.text) + Lex(s[Exec(s, lastIndex).value.End()..])
  {
    var t := s[lastIndex..];
    var m := Match(lastIndex, t[..MatchAtStart(t)]);
    ExecAt(s, lastIndex, t, m);
    LexAtText(s, lastIndex, t, m);
  }

  /** A match at `lastIndex` itself is what `exec` returns. */
  lemma ExecAt(s: string, lastIndex: nat, t: string, m: Match)
    requires lastIndex < |s| && t == s[lastIndex..] && MatchAtStart(t) > 0
    requires m == Match(lastIndex, t[..MatchAtStart(t)])
    ensures Exec(s, lastIndex) == Some(m)
  {
  }

  /** The match at `lastIndex` yields its tokens, and the scan resumes after it. */
  lemma LexAtText(s: string, lastIndex: nat, t: string, m: Match)
    requires lastIndex < |s| && t == s[lastIndex..] && MatchAtStart(t) > 0
    requires m == Match(lastIndex, t[..MatchAtStart(t)])
    ensures Lex(s[lastIndex..]) == TokensOfMatch(m.text) + Lex(s[m.End()..])
  {
    var n := MatchAtStart(t);
    TakeLength(t, n);
    assert m.End() == lastIndex + n;
    DropDrop(s, lastIndex, n);
    LexAtSplit(t, n, m.text, s[m.End()..]);
  }

  /** A match at the scan position yields its tokens, and the scan resumes after it. */
  lemma LexAtSplit(t: string, n: nat, text: string, rest: string)
    requires MatchAtStart(t) > 0 && n == MatchAtStart(t)
    requires text == t[..n] && rest == t[n..]
    ensures Lex(t) == TokensOfMatch(text) + Lex(rest)
  {
    MatchLex(t);
  }

  /** The body of `tokenize`'s loop (lines 47-51): push the tokens of one match. */
  method PushMatch(tokenArray: seq<Token>, text: string) returns (pushed: seq<Token>)
    ensures pushed == tokenArray + TokensOfMatch(text)
  {
    pushed := tokenArray;
    var value := Trim(text);
    if value != [] {
      if IsNumberLiteral(value) {
        pushed := pushed + [Num(LiteralValue(value))];
      } else {
        pushed := pushed + [Str(value)];
      }
    }
  }

  /** `tokenize` (lines 41-56): calls `exec` until it returns null and pushes each
      match's tokens. */
  method Tokenize(expression: string) returns (tokenArray: seq<Token>)
    ensures tokenArray == Lex(expression)
  {
    tokenArray := [];
    var lastIndex := 0;
    assert expression[lastIndex..] == expression;
    while true
      invariant lastIndex <= |expression|
      invariant tokenArray + Lex(expression[lastIndex..]) == Lex(expression)
      decreases |expression| - lastIndex
    {
      var found := Exec(expression, lastIndex);
      ExecLex(expression, lastIndex);
      if found.None? {
        break;
      }
      ghost var before := tokenArray;
      tokenArray := PushMatch(tokenArray, found.value.text);
      lastIndex := found.value.End();
      Associative(before, TokensOfMatch(found.value.text), Lex(expression[lastIndex..]));
    }
  }

  // Properties of the scan

  /** On the alphabet the pre-check admits, every token is a natural number or one
      of the four operators. */
  lemma {:induction false} LexAllowedTokens(s: string)
    requires forall k :: 0 <= k < |s| ==> IsAllowed(s[k])
    ensures forall i :: 0 <= i < |Lex(s)| ==> (Lex(s)[i].Num? && IsNatural(Lex(s)[i].value)) || IsOperator(Lex(s)[i])
    decreases |s|
  {
    if s != [] {
      if IsDigit(s[0]) {
        var d := Span(Digits, s);
        assert d == |s| || s[d] != '.';
        assert IsNatural(LiteralValue(s));
      } else if IsSymbol(s[0]) {
        assert [s[0]] in Operators;
      }
      LexAllowedTokens(s[Advance(s)..]);
    }
  }

  /** A string of white space is all white space in its scan. */
  lemma {:induction false} SpanSpaces(s: string)
    requires AllIn(Spaces, s)
    ensures Span(Spaces, s) == |s|
  {
    if s != [] {
      assert AllIn(Spaces, s[1..]) by {
        forall k | 0 <= k < |s| - 1 ensures InRun(Spaces, s[1..][k]) {
          assert s[1..][k] == s[k + 1];
        }
      }
      SpanSpaces(s[1..]);
    }
  }

  /** A run of digits is a single number token with the run's decimal value. */
  lemma LexDigits(ds: string)
    requires ds != [] && AllDigits(ds)
    ensures Lex(ds) == [Num(DigitsValue(ds) as real)]
  {
    LiteralOfDigits(ds);
    assert ds[NumberMatchLength(ds)..] == [];
  }

  /** A character that no number literal continues with. */
  predicate EndsNumber(c: char)
  {
    !IsDigit(c) && c != '.'
  }

  lemma NumberMatchAppend(s: string, t: string)
    requires s != [] && IsDigit(s[0]) && t != [] && EndsNumber(t[0])
    ensures NumberMatchLength(s + t) == NumberMatchLength(s)
  {
    var d := Span(Digits, s);
    SpanAppend(Digits, s, t);
    if d < |s| {
      assert (s + t)[d] == s[d];
      if s[d] == '.' {
        assert (s + t)[d + 1..] == s[d + 1..] + t;
        SpanAppend(Digits, s[d + 1..], t);
      }
    } else {
      assert (s + t)[d] == t[0];
    }
  }

  lemma LiteralValueAppend(s: string, t: string)
    requires s != [] && IsDigit(s[0]) && t != [] && EndsNumber(t[0])
    ensures LiteralValue(s + t) == LiteralValue(s)
  {
    var d := Span(Digits, s);
    SpanAppend(Digits, s, t);
    assert Span(Digits, s + t) == d by {
      if d == |s| {
        assert !InRun(Digits, t[0]);
      }
    }
    assert (s + t)[..d] == s[..d];
    if d < |s| {
      assert (s + t)[d] == s[d];
      if s[d] == '.' {
        FractionAppend(s, t, d, s[d + 1..], (s + t)[d + 1..]);
      }
    }
  }

  /** The digits after the point are the same with `t` appended. */
  lemma FractionAppend(s: string, t: string, d: nat, f: string, g: string)
    requires d < |s| && t != [] && EndsNumber(t[0])
    requires f == s[d + 1..] && g == (s + t)[d + 1..]
    ensures g[..Span(Digits, g)] == f[..Span(Digits, f)]
  {
    DropAppend(s, t, d + 1);
    SpanAppend(Digits, f, t);
    if Span(Digits, f) == |f| {
      assert !InRun(Digits, t[0]);
    }
  }

  /** Appending text that no number continues with leaves the first step of the
      scan alone, unless white space meets white space. */
  lemma StepAppend(s: string, t: string)
    requires s != [] && t != [] && EndsNumber(t[0])
    ensures LeadingTokens(s + t) == LeadingTokens(s)
    ensures !SpacesMeet(s, t) ==> Advance(s + t) == Advance(s)
    ensures SpacesMeet(s, t) ==> Advance(s + t) == |s| + Advance(t)
  {
    assert (s + t)[0] == s[0];
    if IsDigit(s[0]) {
      NumberMatchAppend(s, t);
      LiteralValueAppend(s, t);
    } else if IsWhitespace(s[0]) {
      SpanAppend(Spaces, s, t);
      if Advance(s) == |s| && !IsWhitespace(t[0]) {
        assert Span(Spaces, t) == 0;
      }
    }
  }

  /** `s` is one run of white space and `t` continues it. */
  predicate SpacesMeet(s: string, t: string)
    requires s != [] && t != []
  {
    Advance(s) == |s| && IsWhitespace(s[0]) && IsWhitespace(t[0])
  }

  /** The scan splits wherever the text goes on with a character that cannot
      continue a number: the tokens of `s + t` are those of `s`, then those of
      `t`. White space never yields a token of its own. */
  lemma {:induction false} LexAppend(s: string, t: string)
    requires t != [] && EndsNumber(t[0])
    ensures Lex(s + t) == Lex(s) + Lex(t)
    decreases |s|
  {
    if s == [] {
      assert s + t == t;
    } else if SpacesMeet(s, t) {
      LexAppendSpaces(s, t);
    } else {
      LexAppend(s[Advance(s)..], t);
      LexAppendStep(s, t);
    }
  }

  /** `s` is one run of white space: it merges with the white space `t` opens with. */
  lemma LexAppendSpaces(s: string, t: string)
    requires s != [] && t != [] && SpacesMeet(s, t)
    ensures Lex(s + t) == Lex(s) + Lex(t)
  {
    StepAppend(s, t);
    var k := Advance(t);
    DropAppendPast(s, t, k);
    LexDone(s);
    LexSkip(t, k, t[k..]);
    LexSkip(s + t, |s| + k, t[k..]);
    EmptyPrefix(Lex(s), Lex(s + t), Lex(t));
  }

  /** A step that yields no token only moves the scan on. */
  lemma LexSkip(u: string, k: nat, rest: string)
    requires u != [] && LeadingTokens(u) == [] && Advance(u) == k && rest == u[k..]
    ensures Lex(u) == Lex(rest)
  {
  }

  /** A step that yields no token and consumes everything ends the scan. */
  lemma LexDone(u: string)
    requires u != [] && LeadingTokens(u) == [] && Advance(u) == |u|
    ensures Lex(u) == []
  {
    assert u[|u|..] == [];
  }

  /** The first step of the scan of `s` is the first step of the scan of `s + t`. */
  lemma LexAppendStep(s: string, t: string)
    requires s != [] && t != [] && EndsNumber(t[0]) && !SpacesMeet(s, t)
    requires Lex(s[Advance(s)..] + t) == Lex(s[Advance(s)..]) + Lex(t)
    ensures Lex(s + t) == Lex(s) + Lex(t)
  {
    var n := Advance(s);
    StepAppend(s, t);
    DropAppend(s, t, n);
    Associative(LeadingTokens(s), Lex(s[n..]), Lex(t));
  }

  function DigitChar(d: nat): (c: char)
    requires d < 10
    ensures IsDigit(c) && DigitValue(c) == d
  {
    ('0' as int + d) as char
  }

  /** The decimal numeral of `n`, without leading zeros. */
  function Numeral(n: nat): (ds: string)
    ensures ds != [] && AllDigits(ds) && DigitsValue(ds) == n
  {
    if n < 10 then [DigitChar(n)]
    else
      var ds := Numeral(n / 10) + [DigitChar(n % 10)];
      assert ds[..|ds| - 1] == Numeral(n / 10);
      ds
  }

  /** The tokens the pre-checked alphabet can spell. */
  predicate Printable(t: Token)
  {
    (t.Num? && IsNatural(t.value)) || IsOperator(t)
  }

  function TokenText(t: Token): (text: string)
    requires Printable(t)
    ensures text != [] && !IsWhitespace(text[0])
    ensures forall k :: 0 <= k < |text| ==> IsAllowed(text[k])
  {
    if t.Num? then Numeral(t.value.Floor as nat) else t.text
  }

  /** Writes tokens out as an expression, one space between neighbours. */
  function Render(ts: seq<Token>): (r: string)
    requires forall i :: 0 <= i < |ts| ==> Printable(ts[i])
    ensures ts != [] ==> r != [] && !IsWhitespace(r[0])
    ensures forall k :: 0 <= k < |r| ==> IsAllowed(r[k])
  {
    if ts == [] then []
    else if |ts| == 1 then TokenText(ts[0])
    else TokenText(ts[0]) + " " + Render(ts[1..])
  }

  lemma LexTokenText(t: Token)
    requires Printable(t)
    ensures Lex(TokenText(t)) == [t]
  {
    if t.Num? {
      LexDigits(TokenText(t));
    } else {
      assert TokenText(t) == [t.text[0]];
    }
  }

  /** White space alone scans to no tokens: `\s+` swallows it and it trims to
      nothing. */
  lemma LexBlank(w: string)
    requires AllIn(Spaces, w)
    ensures Lex(w) == []
  {
    if w != [] {
      assert InRun(Spaces, w[0]);
      SpanSpaces(w);
      assert w[|w|..] == [];
    }
  }

  /** Any white space before text that does not begin with white space changes
      nothing: it is one `\s+` match, which yields no token. */
  lemma LexLeadingSpaces(w: string, r: string)
    requires AllIn(Spaces, w)
    requires r == [] || !IsWhitespace(r[0])
    ensures Lex(w + r) == Lex(r)
  {
    if w == [] {
      assert w + r == r;
    } else {
      SpanSpaces(w);
      SpanAppend(Spaces, w, r);
      assert InRun(Spaces, (w + r)[0]);
      DropAppendPast(w, r, 0);
      LexSkip(w + r, |w|, r);
    }
  }

  /** Any white space after the text changes nothing either. */
  lemma LexTrailingSpaces(s: string, w: string)
    requires AllIn(Spaces, w)
    ensures Lex(s + w) == Lex(s)
  {
    if w == [] {
      assert s + w == s;
    } else {
      assert InRun(Spaces, w[0]);
      LexAppend(s, w);
      LexBlank(w);
    }
  }

  /** Scanning undoes rendering: numbers come back with their values, operators
      as operators, in the same order, and the separating spaces vanish. */
  lemma {:induction false} LexRender(ts: seq<Token>)
    requires forall i :: 0 <= i < |ts| ==> Printable(ts[i])
    ensures Lex(Render(ts)) == ts
  {
    if |ts| == 1 {
      LexTokenText(ts[0]);
    } else if |ts| > 1 {
      LexRender(ts[1..]);
      LexRenderStep(ts, TokenText(ts[0]), Render(ts[1..]));
    }
  }

  lemma LexRenderStep(ts: seq<Token>, head: string, rest: string)
    requires |ts| > 1 && forall i :: 0 <= i < |ts| ==> Printable(ts[i])
    requires head == TokenText(ts[0]) && rest == Render(ts[1..])
    requires Lex(rest) == ts[1..]
    ensures Lex(Render(ts)) == ts
  {
    assert Render(ts) == head + (" " + rest);
    OneSpace();
    LexLeadingSpaces(" ", rest);
    LexHeadRest(ts, head, " " + rest);
  }

  lemma OneSpace()
    ensures AllIn(Spaces, " ")
  {
    assert InRun(Spaces, " "[0]);
  }

  /** No two numbers side by side: written without spaces, the numerals of
      such a list cannot run into each other. */
  predicate Separated(ts: seq<Token>)
  {
    forall i :: 0 <= i < |ts| - 1 ==> !(ts[i].Num? && ts[i + 1].Num?)
  }

  /** Writes tokens out as an expression with no spaces at all. */
  function Compact(ts: seq<Token>): (r: string)
    requires forall i :: 0 <= i < |ts| ==> Printable(ts[i])
    ensures ts != [] ==> r != [] && r[0] == TokenText(ts[0])[0]
    ensures forall k :: 0 <= k < |r| ==> IsAllowed(r[k])
  {
    if ts == [] then [] else TokenText(ts[0]) + Compact(ts[1..])
  }

  /** An operator or parenthesis is a token by itself, whatever follows it. */
  lemma LexSymbolFirst(op: string, r: string)
    requires |op| == 1 && IsSymbol(op[0])
    ensures Lex(op + r) == [Str(op)] + Lex(r)
  {
    var s := op + r;
    assert s[0] == op[0] && IsSymbol(s[0]);
    assert [s[0]] == op;
    assert s[1..] == r;
  }

  /** Scanning undoes the compact writing as well, as long as no two numbers
      are neighbours; spaces between tokens make no difference to the scan. */
  lemma {:induction false} LexCompact(ts: seq<Token>)
    requires forall i :: 0 <= i < |ts| ==> Printable(ts[i])
    requires Separated(ts)
    ensures Lex(Compact(ts)) == ts
  {
    if ts != [] {
      SeparatedTail(ts);
      LexCompact(ts[1..]);
      LexCompactStep(ts, TokenText(ts[0]), Compact(ts[1..]));
    }
  }

  lemma SeparatedTail(ts: seq<Token>)
    requires ts != [] && Separated(ts)
    ensures Separated(ts[1..])
  {
    forall i | 0 <= i < |ts[1..]| - 1 ensures !(ts[1..][i].Num? && ts[1..][i + 1].Num?) {
      assert ts[1..][i] == ts[i + 1] && ts[1..][i + 1] == ts[i + 2];
    }
  }

  lemma LexCompactStep(ts: seq<Token>, head: string, rest: string)
    requires ts != [] && forall i :: 0 <= i < |ts| ==> Printable(ts[i])
    requires Separated(ts)
    requires head == TokenText(ts[0]) && rest == Compact(ts[1..])
    requires Lex(rest) == ts[1..]
    ensures Lex(Compact(ts)) == ts
  {
    assert Compact(ts) == head + rest;
    if ts[0].Num? && rest != [] {
      assert IsOperator(ts[1]);
      assert rest[0] == TokenText(ts[1])[0];
    }
    LexHeadRest(ts, head, rest);
  }

  /** A token's text followed by text that scans to the remaining tokens scans
      to all of them, provided a number is not followed by a character that
      would continue it. */
  lemma LexHeadRest(ts: seq<Token>, head: string, rest: string)
    requires ts != [] && Printable(ts[0]) && head == TokenText(ts[0])
    requires Lex(rest) == ts[1..]
    requires ts[0].Num? && rest != [] ==> EndsNumber(rest[0])
    ensures Lex(head + rest) == ts
  {
    if ts[0].Num? {
      LexTokenText(ts[0]);
      if rest == [] {
        assert head + rest == head;
      } else {
        LexAppend(head, rest);
      }
    } else {
      LexSymbolFirst(head, rest);
    }
    assert [ts[0]] + ts[1..] == ts;
  }


  /** `gaps` are white space, one before each token and one after the last, and
      two neighbouring numbers have some white space between them (written
      together they would be one number). */
  predicate Spacing(ts: seq<Token>, gaps: seq<string>)
  {
    && |gaps| == |ts| + 1
    && (forall j :: 0 <= j < |gaps| ==> AllIn(Spaces, gaps[j]))
    && forall i :: 0 < i < |ts| ==> ts[i - 1].Num? && ts[i].Num? ==> gaps[i] != []
  }

  /** Writes tokens out with the white space `gaps[i]` before token `i` and
      `gaps[|ts|]` after the last one. */
  function Layout(ts: seq<Token>, gaps: seq<string>): (r: string)
    requires |gaps| == |ts| + 1 && forall i :: 0 <= i < |ts| ==> Printable(ts[i])
    ensures gaps[0] != [] ==> r != [] && r[0] == gaps[0][0]
    ensures gaps[0] == [] && ts != [] ==> r != [] && r[0] == TokenText(ts[0])[0]
    decreases |ts|
  {
    if ts == [] then gaps[0]
    else gaps[0] + (TokenText(ts[0]) + Layout(ts[1..], gaps[1..]))
  }

  /** A layout of printable tokens uses only characters the pre-check allows. */
  lemma {:induction false} LayoutAllowed(ts: seq<Token>, gaps: seq<string>)
    requires forall i :: 0 <= i < |ts| ==> Printable(ts[i])
    requires Spacing(ts, gaps)
    ensures forall k :: 0 <= k < |Layout(ts, gaps)| ==> IsAllowed(Layout(ts, gaps)[k])
    decreases |ts|
  {
    var g := gaps[0];
    assert forall k :: 0 <= k < |g| ==> IsAllowed(g[k]) by {
      forall k | 0 <= k < |g| ensures IsAllowed(g[k]) {
        assert InRun(Spaces, g[k]);
      }
    }
    if ts != [] {
      SpacingTail(ts, gaps);
      LayoutAllowed(ts[1..], gaps[1..]);
      AllowedConcat(g, TokenText(ts[0]), Layout(ts[1..], gaps[1..]));
    }
  }

  lemma AllowedConcat(a: string, b: string, c: string)
    requires forall k :: 0 <= k < |a| ==> IsAllowed(a[k])
    requires forall k :: 0 <= k < |b| ==> IsAllowed(b[k])
    requires forall k :: 0 <= k < |c| ==> IsAllowed(c[k])
    ensures forall k :: 0 <= k < |a + (b + c)| ==> IsAllowed((a + (b + c))[k])
  {
  }

  lemma SpacingTail(ts: seq<Token>, gaps: seq<string>)
    requires ts != [] && Spacing(ts, gaps)
    ensures Spacing(ts[1..], gaps[1..])
  {
    forall j | 0 <= j < |gaps[1..]| ensures AllIn(Spaces, gaps[1..][j]) {
      assert gaps[1..][j] == gaps[j + 1];
    }
    forall i | 0 < i < |ts[1..]| && ts[1..][i - 1].Num? && ts[1..][i].Num?
      ensures gaps[1..][i] != []
    {
      assert ts[1..][i - 1] == ts[i] && ts[1..][i] == ts[i + 1] && gaps[1..][i] == gaps[i + 1];
    }
  }

  /** Scanning undoes every layout: tokens come back in order whatever white
      space (spaces, tabs, line breaks, runs of them) stands around and
      between them. */
  lemma {:induction false} LexLayout(ts: seq<Token>, gaps: seq<string>)
    requires forall i :: 0 <= i < |ts| ==> Printable(ts[i])
    requires Spacing(ts, gaps)
    ensures Lex(Layout(ts, gaps)) == ts
    decreases |ts|
  {
    if ts == [] {
      LexBlank(gaps[0]);
    } else {
      SpacingTail(ts, gaps);
      LexLayout(ts[1..], gaps[1..]);
      LexLayoutStep(ts, gaps, TokenText(ts[0]), Layout(ts[1..], gaps[1..]));
    }
  }

  lemma LexLayoutStep(ts: seq<Token>, gaps: seq<string>, head: string, rest: string)
    requires ts != [] && forall i :: 0 <= i < |ts| ==> Printable(ts[i])
    requires Spacing(ts, gaps)
    requires head == TokenText(ts[0]) && rest == Layout(ts[1..], gaps[1..])
    requires Lex(rest) == ts[1..]
    ensures Lex(Layout(ts, gaps)) == ts
  {
    assert Layout(ts, gaps) == gaps[0] + (head + rest);
    if ts[0].Num? && rest != [] {
      AfterNumberGap(ts, gaps, rest);
    }
    LexHeadRest(ts, head, rest);
    assert (head + rest)[0] == head[0];
    LexLeadingSpaces(gaps[0], head + rest);
  }

  /** What follows a number in a layout cannot continue it: white space, or
      the operator after it. */
  lemma AfterNumberGap(ts: seq<Token>, gaps: seq<string>, rest: string)
    requires ts != [] && forall i :: 0 <= i < |ts| ==> Printable(ts[i])
    requires Spacing(ts, gaps) && ts[0].Num?
    requires rest == Layout(ts[1..], gaps[1..]) && rest != []
    ensures EndsNumber(rest[0])
  {
    assert gaps[1..][0] == gaps[1];
    if gaps[1] != [] {
      assert AllIn(Spaces, gaps[1]);
      assert InRun(Spaces, rest[0]);
    } else {
      assert ts[1..] != [] && ts[1..][0] == ts[1];
      assert 0 < 1 < |ts|;
      assert ts[1].text in Operators;
    }
  }

  // Sequence identities. Each states one fact about slices or concatenation by
  // itself, so that the proofs above can cite it instead of leaving the solver
  // to rediscover it among the recursive definitions of the scan.

  lemma TakeLength(t: string, n: nat)
    requires n <= |t|
    ensures |t[..n]| == n
  {
  }

  lemma DropDrop(s: string, a: nat, b: nat)
    requires a + b <= |s|
    ensures s[a..][b..] == s[a + b..]
  {
  }

  lemma DropAppend(s: string, t: string, n: nat)
    requires n <= |s|
    ensures (s + t)[n..] == s[n..] + t
  {
  }

  lemma DropAppendPast(s: string, t: string, k: nat)
    requires k <= |t|
    ensures (s + t)[|s| + k..] == t[k..]
  {
  }

  lemma Associative(a: seq<Token>, b: seq<Token>, c: seq<Token>)
    ensures (a + b) + c == a + (b + c)
  {
  }

  lemma EmptyPrefix(a: seq<Token>, b: seq<Token>, c: seq<Token>)
    requires a == [] && b == c
    ensures b == a + c
  {
  }

  lemma StringsAssociative(x: string, y: string, z: string)
    ensures x + y + z == x + (y + z)
  {
  }

  lemma ThreeTokens(x: Token, y: Token, z: Token)
    ensures [x] + ([y] + [z]) == [x, y, z]
  {
  }
}
