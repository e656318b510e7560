/** The tokenizer of the CI-gate `if:` expressions. */
module CiTokens {
  import opened Text

  /** `ExprError` is the script's own exception, `IndexError` Python's. */
  datatype Error = ExprError | IndexError

  datatype Result<+T> = Ok(value: T) | Err(error: Error) {
    predicate IsFailure() { Err? }

    function PropagateFailure<U>(): Result<U>
      requires Err?
    {
      Err(error)
    }

    function Extract(): T
      requires Ok?
    {
      value
    }
  }

  datatype Kind = Op | Str | Num | Path

  datatype Token = Token(kind: Kind, text: string)

  // ---- the alternatives of the token regex, as the length each one matches; 0 is no match ----

  /** The length of the longest prefix whose characters all satisfy `p`. */
  function RunLength(s: string, p: char -> bool): (k: nat)
    ensures k <= |s|
  {
    if s != [] && p(s[0]) then 1 + RunLength(s[1..], p) else 0
  }

  const OPS := ["&&", "||", "==", "!=", ">=", "<=", ">", "<", "!", "(", ")", ","]

  /** `&&|\|\||==|!=|>=|<=|>|<|!|\(|\)|,`, the first alternative that fits. */
  function MatchOp(s: string): (k: nat)
    ensures k <= |s| && k <= 2
  {
    if |s| > 1 && s[..2] in ["&&", "||", "==", "!=", ">=", "<="] then 2
    else if s != [] && s[0] in "><!()," then 1
    else 0
  }

  /** `(?:[^']|'')*'` from `s`, greedy with backtracking: how much it takes, if it fits. A pair of
      quotes is taken as two characters of the body unless the string then never closes. */
  function MatchBody(s: string): (k: Option<nat>)
    ensures k.Some? ==> 0 < k.value <= |s|
  {
    if s == [] then None
    else if s[0] != '\'' then
      var k := MatchBody(s[1..]);
      if k.Some? then Some(k.value + 1) else None
    else if |s| > 1 && s[1] == '\'' then
      var k := MatchBody(s[2..]);
      if k.Some? then Some(k.value + 2) else Some(1)
    else Some(1)
  }

  /** `'(?:[^']|'')*'` */
  function MatchStr(s: string): (k: nat)
    ensures k <= |s|
  {
    if s == [] || s[0] != '\'' then 0
    else
      var k := MatchBody(s[1..]);
      if k.Some? then k.value + 1 else 0
  }

  /** `-?\d+(?:\.\d+)?` */
  function MatchNum(s: string): (k: nat)
    ensures k <= |s|
  {
    var sign := if s != [] && s[0] == '-' then 1 else 0;
    var whole := RunLength(s[sign..], IsDigit);
    if whole == 0 then 0 else sign + whole + MatchFraction(s[sign + whole..])
  }

  function MatchFraction(s: string): (k: nat)
    ensures k <= |s|
  {
    if s == [] || s[0] != '.' || RunLength(s[1..], IsDigit) == 0 then 0
    else 1 + RunLength(s[1..], IsDigit)
  }

  predicate IsNameStart(c: char) { IsLetter(c) || c == '_' }

  predicate IsNamePart(c: char) { IsNameStart(c) || IsDigit(c) || c == '-' }

  predicate IsSegmentPart(c: char) { IsNamePart(c) || c == '*' }

  /** `[A-Za-z_][A-Za-z0-9_-]*(?:\.(?:[A-Za-z0-9_*-]+))*` */
  function MatchPath(s: string): (k: nat)
    ensures k <= |s|
  {
    if s == [] || !IsNameStart(s[0]) then 0
    else
      var n := 1 + RunLength(s[1..], IsNamePart);
      n + MatchSegments(s[n..])
  }

  function MatchSegments(s: string): (k: nat)
    ensures k <= |s|
  {
    if s == [] || s[0] != '.' || RunLength(s[1..], IsSegmentPart) == 0 then 0
    else
      var n := 1 + RunLength(s[1..], IsSegmentPart);
      n + MatchSegments(s[n..])
  }

  /** One match of the regex at the start of `s`: white space, a token or nothing. */
  datatype Match = Blank(size: nat) | Lexeme(kind: Kind, size: nat) | NoMatch

  function MatchToken(s: string): (m: Match)
    ensures !m.NoMatch? ==> 0 < m.size <= |s|
  {
    if RunLength(s, IsSpace) > 0 then Blank(RunLength(s, IsSpace))
    else if MatchOp(s) > 0 then Lexeme(Op, MatchOp(s))
    else if MatchStr(s) > 0 then Lexeme(Str, MatchStr(s))
    else if MatchNum(s) > 0 then Lexeme(Num, MatchNum(s))
    else if MatchPath(s) > 0 then Lexeme(Path, MatchPath(s))
    else NoMatch
  }

  function Prepend(front: seq<Token>, r: Result<seq<Token>>): Result<seq<Token>> {
    match r case Err(e) => Err(e) case Ok(rest) => Ok(front + rest)
  }

  lemma PrependTwice(a: seq<Token>, b: seq<Token>, r: Result<seq<Token>>)
    ensures Prepend(a, Prepend(b, r)) == Prepend(a + b, r)
    ensures Prepend([], r) == r
  {
    if r.Ok? {
      AppendAssoc(a, b, r.value);
      assert [] + r.value == r.value;
    }
  }

  function Tokens(s: string): Result<seq<Token>>
    decreases |s|
  {
    if s == [] then Ok([]) else
      match MatchToken(s)
      case NoMatch => Err(ExprError)
      case Blank(n) => Tokens(s[n..])
      case Lexeme(kind, n) => Prepend([Token(kind, s[..n])], Tokens(s[n..]))
  }

  method Tokenize(expr: string) returns (r: Result<seq<Token>>)
    ensures r == Tokens(expr)
  {
    var out: seq<Token> := [];
    var pos := 0;
    assert expr[0..] == expr;
    PrependTwice([], [], Tokens(expr));
    while pos < |expr|
      invariant 0 <= pos <= |expr|
      invariant Tokens(expr) == Prepend(out, Tokens(expr[pos..]))
    {
      ghost var s := expr[pos..];
      match MatchToken(expr[pos..])
      case NoMatch => return Err(ExprError);
      case Blank(n) =>
        pos := pos + n;
        assert expr[pos..] == s[n..];
      case Lexeme(kind, n) =>
        var token := Token(kind, expr[pos..][..n]);
        pos := pos + n;
        assert expr[pos..] == s[n..];
        PrependTwice(out, [token], Tokens(s[n..]));
        out := out + [token];
    }
    assert expr[pos..] == [] && out + [] == out;
    return Ok(out);
  }
}
