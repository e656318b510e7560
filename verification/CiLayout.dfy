/** Text and tokens: any white space between the tokens of an expression reads back. */
module CiLayout {
  import opened Text
  import opened CiTokens
  import opened CiExpr
  import opened CiGrammar

  // ---- one token, read from text that goes on ----

  /** `rest` cannot be taken for more of the token. */
  predicate Follows(t: Token, rest: string) {
    rest == [] ||
    match t.kind
    case Op => t.text in ["!", ">", "<"] ==> rest[0] != '='
    case Str => rest[0] != '\''
    case Num => !IsDigit(rest[0]) && rest[0] != '.'
    case Path => !IsSegmentPart(rest[0]) && rest[0] != '.'
  }

  lemma {:induction false} RunStops(s: string, rest: string, p: char -> bool)
    requires rest == [] || !p(rest[0])
    ensures RunLength(s + rest, p) == RunLength(s, p)
  {
    if s == [] {
      assert s + rest == rest;
    } else {
      assert (s + rest)[1..] == s[1..] + rest;
      RunStops(s[1..], rest, p);
    }
  }

  lemma {:induction false} BodyStops(s: string, rest: string)
    requires MatchBody(s) == Some(|s|) && (rest == [] || rest[0] != '\'')
    ensures MatchBody(s + rest) == Some(|s|)
  {
    var n := if s[0] == '\'' && |s| > 1 && s[1] == '\'' then 2 else 1;
    assert (s + rest)[n..] == s[n..] + rest;
    if s[0] != '\'' || n == 2 {
      BodyStops(s[n..], rest);
    }
  }

  lemma StrStops(s: string, rest: string)
    requires IsStrText(s) && (rest == [] || rest[0] != '\'')
    ensures MatchStr(s + rest) == |s|
  {
    assert (s + rest)[1..] == s[1..] + rest;
    BodyStops(s[1..], rest);
  }

  lemma FractionStops(s: string, rest: string)
    requires rest == [] || (!IsDigit(rest[0]) && rest[0] != '.')
    ensures MatchFraction(s + rest) == MatchFraction(s)
  {
    if s == [] {
      assert s + rest == rest;
    } else {
      assert (s + rest)[1..] == s[1..] + rest;
      RunStops(s[1..], rest, IsDigit);
    }
  }

  lemma NumStops(s: string, rest: string)
    requires IsNumText(s) && (rest == [] || (!IsDigit(rest[0]) && rest[0] != '.'))
    ensures MatchNum(s + rest) == |s|
  {
    var sign := if s[0] == '-' then 1 else 0;
    DropJoin(s, rest, sign);
    RunStops(s[sign..], rest, IsDigit);
    var n := sign + RunLength(s[sign..], IsDigit);
    DropJoin(s, rest, n);
    FractionStops(s[n..], rest);
  }

  lemma {:induction false} SegmentsStop(s: string, rest: string)
    requires rest == [] || (!IsSegmentPart(rest[0]) && rest[0] != '.')
    ensures MatchSegments(s + rest) == MatchSegments(s)
    decreases |s|
  {
    if s == [] {
      assert s + rest == rest;
    } else {
      assert (s + rest)[1..] == s[1..] + rest;
      RunStops(s[1..], rest, IsSegmentPart);
      var n := 1 + RunLength(s[1..], IsSegmentPart);
      assert (s + rest)[n..] == s[n..] + rest;
      SegmentsStop(s[n..], rest);
    }
  }

  lemma PathStops(s: string, rest: string)
    requires IsPathText(s) && (rest == [] || (!IsSegmentPart(rest[0]) && rest[0] != '.'))
    ensures MatchPath(s + rest) == |s|
  {
    DropJoin(s, rest, 1);
    RunStops(s[1..], rest, IsNamePart);
    var n := 1 + RunLength(s[1..], IsNamePart);
    DropJoin(s, rest, n);
    SegmentsStop(s[n..], rest);
  }

  lemma OpStops(t: Token, rest: string)
    requires t.kind == Op && IsToken(t) && Follows(t, rest)
    ensures MatchOp(t.text + rest) == |t.text| && !IsSpace(t.text[0])
  {
    var s := t.text + rest;
    if |t.text| == 2 {
      assert s[..2] == t.text;
    } else if |s| > 1 {
      assert s[..2] == [t.text[0], rest[0]];
    }
  }

  lemma NotOp(s: string)
    requires s != [] && s[0] !in "&|=!><(),"
    ensures MatchOp(s) == 0
  {
  }

  /** The regex takes the token whole, whatever follows it. */
  lemma TokenMatches(t: Token, rest: string)
    requires IsToken(t) && Follows(t, rest)
    ensures t.text != [] && MatchToken(t.text + rest) == Lexeme(t.kind, |t.text|)
  {
    var s := t.text + rest;
    match t.kind
    case Op => OpStops(t, rest);
    case Str => LeafIsNotOp(t.text); NotOp(s); StrStops(t.text, rest);
    case Num => LeafIsNotOp(t.text); NotOp(s); NumStops(t.text, rest);
    case Path => LeafIsNotOp(t.text); NotOp(s); PathStops(t.text, rest);
  }

  // ---- token lists ----

  /** The tokens with a gap after each. */
  function Layout(ts: seq<Token>, gaps: seq<string>): string
    requires |gaps| == |ts|
  {
    if ts == [] then [] else ts[0].text + (gaps[0] + Layout(ts[1..], gaps[1..]))
  }

  ghost predicate AllGaps(gaps: seq<string>) {
    forall i :: 0 <= i < |gaps| ==> AllSpace(gaps[i])
  }

  /** Neighbours that may stand next to each other with nothing between. */
  ghost predicate Apart(ts: seq<Token>) {
    forall i :: 0 < i < |ts| ==> Follows(ts[i - 1], ts[i].text)
  }

  lemma {:induction false} SpaceRun(gap: string, rest: string)
    requires AllSpace(gap) && (rest == [] || !IsSpace(rest[0]))
    ensures RunLength(gap + rest, IsSpace) == |gap|
  {
    if gap == [] {
      assert gap + rest == rest;
    } else {
      assert (gap + rest)[1..] == gap[1..] + rest;
      SpaceRun(gap[1..], rest);
    }
  }

  lemma TokensSkipGap(gap: string, rest: string)
    requires AllSpace(gap) && (rest == [] || !IsSpace(rest[0]))
    ensures Tokens(gap + rest) == Tokens(rest)
  {
    SpaceRun(gap, rest);
    if gap == [] {
      assert gap + rest == rest;
    } else {
      assert (gap + rest)[|gap|..] == rest;
    }
  }

  lemma TokenStart(t: Token)
    requires IsToken(t)
    ensures t.text != [] && !IsSpace(t.text[0])
  {
    if t.kind != Op {
      LeafIsNotOp(t.text);
    }
  }

  lemma FollowsGap(t: Token, gap: string, rest: string)
    requires AllSpace(gap) && (gap == [] ==> Follows(t, rest))
    ensures Follows(t, gap + rest)
  {
    if gap == [] {
      assert gap + rest == rest;
    }
  }

  /** Tokenizing undoes any layout. */
  lemma {:induction false} TokensOfLayout(ts: seq<Token>, gaps: seq<string>)
    requires |gaps| == |ts| && AllTokens(ts) && Apart(ts) && AllGaps(gaps)
    ensures Tokens(Layout(ts, gaps)) == Ok(ts)
  {
    if ts != [] {
      var t, rest := ts[0], Layout(ts[1..], gaps[1..]);
      TokensOfLayout(ts[1..], gaps[1..]);
      assert AllSpace(gaps[0]);
      if |ts| > 1 {
        assert Follows(ts[0], ts[1].text);
        TokenStart(ts[1]);
      }
      assert rest != [] ==> rest[0] == ts[1].text[0];
      FollowsGap(t, gaps[0], rest);
      TokenMatches(t, gaps[0] + rest);
      TokensSkipGap(gaps[0], rest);
      var s := t.text + (gaps[0] + rest);
      assert s[..|t.text|] == t.text && s[|t.text|..] == gaps[0] + rest;
      assert [t] + ts[1..] == ts;
    }
  }

  // ---- the tokens of an expression stand apart ----

  predicate Leaf(t: Token) { t.kind != Op }

  predicate Opens(t: Token) { Leaf(t) || t.text == "(" || t.text == "!" }

  predicate Closes(t: Token) { Leaf(t) || t.text == ")" }

  lemma FollowsOp(t: Token, op: string)
    requires IsToken(t) && Closes(t) && op in OPS
    ensures Follows(t, op)
  {
  }

  lemma OpensFollows(op: string, t: Token)
    requires op in OPS && IsToken(t) && Opens(t)
    ensures Follows(OpToken(op), t.text)
  {
    if Leaf(t) {
      LeafIsNotOp(t.text);
    }
  }

  /** A run of tokens that opens and closes an expression. */
  ghost predicate Framed(ts: seq<Token>) {
    ts != [] && AllTokens(ts) && Apart(ts) && Opens(ts[0]) && Closes(ts[|ts| - 1])
  }

  lemma FramedOp(a: seq<Token>, op: string, b: seq<Token>)
    requires Framed(a) && Framed(b) && op in OPS
    ensures Framed(a + [OpToken(op)] + b)
  {
    FollowsOp(a[|a| - 1], op);
    OpensFollows(op, b[0]);
    var c := a + [OpToken(op)] + b;
    forall i | 0 < i < |c|
      ensures Follows(c[i - 1], c[i].text)
    {
      if i < |a| {
        assert Follows(a[i - 1], a[i].text);
      } else if i > |a| + 1 {
        assert c[i] == b[i - |a| - 1] && c[i - 1] == b[i - 1 - |a| - 1];
        assert Follows(b[i - |a| - 2], b[i - |a| - 1].text);
      }
    }
  }

  lemma FramedNot(a: seq<Token>)
    requires Framed(a)
    ensures Framed([OpToken("!")] + a)
  {
    OpensFollows("!", a[0]);
    ApartCons(OpToken("!"), a);
  }

  lemma ApartCons(t: Token, a: seq<Token>)
    requires a != [] && Apart(a) && Follows(t, a[0].text)
    ensures Apart([t] + a)
  {
    var c := [t] + a;
    forall i | 0 < i < |c|
      ensures Follows(c[i - 1], c[i].text)
    {
      if i > 1 {
        assert Follows(a[i - 2], a[i - 1].text);
      }
    }
  }

  lemma FramedParen(a: seq<Token>)
    requires Framed(a)
    ensures Framed([OpToken("(")] + a + [OpToken(")")])
  {
    OpensFollows("(", a[0]);
    ApartCons(OpToken("("), a);
    FollowsOp(a[|a| - 1], ")");
    var b := [OpToken("(")] + a;
    var c := b + [OpToken(")")];
    forall i | 0 < i < |c|
      ensures Follows(c[i - 1], c[i].text)
    {
      if i < |b| {
        assert Follows(b[i - 1], b[i].text);
      }
    }
  }

  lemma {:induction false} YieldFramed(e: Expr)
    requires LexicalLeaves(e)
    ensures Framed(Yield(e))
    decreases e
  {
    match e
    case Or(l, r) => YieldFramed(l); YieldFramed(r); FramedOp(Yield(l), "||", Yield(r));
    case And(l, r) => YieldFramed(l); YieldFramed(r); FramedOp(Yield(l), "&&", Yield(r));
    case Cmp(op, l, r) => YieldFramed(l); YieldFramed(r); FramedOp(Yield(l), op, Yield(r));
    case Not(i) => YieldFramed(i); FramedNot(Yield(i));
    case Paren(i) => YieldFramed(i); FramedParen(Yield(i));
    case Call(fn, args) => CallFramed(fn, args);
    case _ =>
  }

  lemma {:induction false} CallFramed(fn: string, args: seq<Expr>)
    requires IsPathText(fn) && LexicalAll(args)
    ensures Framed(Yield(Call(fn, args)))
    decreases args, 1
  {
    var name, y := Token(Path, fn), YieldAll(args);
    var inner := [OpToken("(")] + y + [OpToken(")")];
    FollowsOp(name, "(");
    if args != [] {
      ArgsFramed(args);
      FramedParen(y);
    } else {
      assert inner == [OpToken("("), OpToken(")")];
    }
    ApartCons(name, inner);
    assert Yield(Call(fn, args)) == [name] + inner;
  }

  lemma {:induction false} ArgsFramed(args: seq<Expr>)
    requires args != [] && LexicalAll(args)
    ensures Framed(YieldAll(args))
    decreases args, 0
  {
    var init, last := args[..|args| - 1], args[|args| - 1];
    YieldFramed(last);
    if |args| > 1 {
      ArgsFramed(init);
      FramedOp(YieldAll(init), ",", Yield(last));
    }
  }

  // ---- quotes in string literals ----

  /** A string as the language writes it: every quote doubled. */
  function Double(s: string): string {
    if s == [] then [] else (if s[0] == '\'' then "''" else [s[0]]) + Double(s[1..])
  }

  function Quoted(s: string): string { "'" + Double(s) + "'" }

  lemma {:induction false} BodyOfDouble(s: string)
    ensures MatchBody(Double(s) + "'") == Some(|Double(s)| + 1)
    ensures Undouble(Double(s)) == s
  {
    var d := Double(s);
    if s != [] {
      BodyOfDouble(s[1..]);
      var n := if s[0] == '\'' then 2 else 1;
      assert d[n..] == Double(s[1..]);
      assert (d + "'")[n..] == Double(s[1..]) + "'";
      assert [s[0]] + s[1..] == s;
    }
  }

  /** Every string can be written as a literal, and reads back as itself. */
  lemma QuotedReadsBack(s: string)
    ensures IsStrText(Quoted(s)) && StringValue(Quoted(s)) == s
  {
    BodyOfDouble(s);
    assert Quoted(s)[1..] == Double(s) + "'";
    assert Quoted(s)[1..|Quoted(s)| - 1] == Double(s);
  }
}
