/** Evaluation of an `if:` text, and the area-filter check that rests on it. */
module CiGate {
  import opened Text
  import opened CiTokens
  import opened CiExpr
  import opened CiParser
  import opened CiErrors
  import opened CiGrammar
  import opened CiLayout

  // ---- evaluate ----

  const OPEN := "${{"

  /** The text inside a bare `${{ }}`, or the text itself. */
  function Unwrap(expr: string): string {
    var text := Strip(expr);
    if |text| >= 5 && StartsWith(text, OPEN) && EndsWith(text, "}}") then Strip(text[3..|text| - 2]) else text
  }

  /** The tree an `if:` text stands for. */
  function Tree(expr: string): Result<Expr> {
    if Contains(Unwrap(expr), OPEN) then Err(ExprError)
    else
      var ts :- Tokens(Unwrap(expr));
      ParseAll(ts)
  }

  /** The value or error of an `if:` text in a context, errors included that come before its syntax
      is known to be wrong. */
  function Meaning(expr: string, c: Context): Result<Value> {
    if Contains(Unwrap(expr), OPEN) then Err(ExprError)
    else
      var ts :- Tokens(Unwrap(expr));
      MeaningOf(ParseTokens(ts), c)
  }

  function Truth(r: Result<Value>): Result<bool> {
    match r case Err(e) => Err(e) case Ok(v) => Ok(Truthy(v))
  }

  method Evaluate(expr: string, c: Context) returns (r: Result<bool>)
    ensures r == Truth(Meaning(expr, c))
    ensures Tree(expr).Ok? ==> r == Truth(Eval(Tree(expr).value, c))
    ensures Tree(expr).Err? ==> r.Err?
  {
    var text := Unwrap(expr);
    if Contains(text, OPEN) {
      return Err(ExprError);
    }
    var tokens := Tokenize(text);
    if tokens.Err? {
      return Err(tokens.error);
    }
    var parser := new Parser(tokens.value, c);
    var value := parser.ParseWhole();
    return Truth(value);
  }

  // ---- print, then evaluate ----

  lemma StripAround(lead: string, body: string, trail: string)
    requires AllSpace(lead) && AllSpace(trail)
    requires body != [] && !IsSpace(body[0]) && !IsSpace(body[|body| - 1])
    ensures Strip(lead + (body + trail)) == body
  {
    StripLeftSpace(lead, body + trail);
    StripRightSpace(trail, body);
  }

  /** An expression as written: its tokens with gaps between them, and nothing at the ends. */
  ghost predicate Writes(text: string, ts: seq<Token>) {
    exists gaps: seq<string> :: |gaps| == |ts| && AllGaps(gaps) && text == Layout(ts, gaps)
                                && (ts != [] ==> gaps[|ts| - 1] == [])
  }

  lemma {:induction false} LayoutEnd(ts: seq<Token>, gaps: seq<string>)
    requires |gaps| == |ts| > 0 && AllTokens(ts) && gaps[|ts| - 1] == []
    ensures var s, t := Layout(ts, gaps), ts[|ts| - 1].text;
            s != [] && t != [] && s[|s| - 1] == t[|t| - 1]
  {
    TokenStart(ts[0]);
    var rest := Layout(ts[1..], gaps[1..]);
    if |ts| > 1 {
      LayoutEnd(ts[1..], gaps[1..]);
    } else {
      assert ts[0].text + (gaps[0] + rest) == ts[0].text;
    }
  }

  /** No token starts or ends in white space, or starts with a dollar. */
  lemma TokenEnds(t: Token)
    requires IsToken(t)
    ensures t.text != [] && !IsSpace(t.text[0]) && t.text[0] != '$' && !IsSpace(t.text[|t.text| - 1])
  {
    TokenStart(t);
    match t.kind
    case Op =>
    case Str => BodyEnd(t.text[1..]);
    case Num => NumEnd(t.text);
    case Path => PathEnd(t.text);
  }

  lemma {:induction false} BodyEnd(s: string)
    requires MatchBody(s) == Some(|s|)
    ensures s[|s| - 1] == '\''
  {
    var n := if s[0] == '\'' && |s| > 1 && s[1] == '\'' then 2 else 1;
    if s[0] != '\'' || n == 2 {
      if |s| > n {
        BodyEnd(s[n..]);
      }
    }
  }

  lemma {:induction false} RunHolds(s: string, p: char -> bool, i: nat)
    requires i < RunLength(s, p)
    ensures p(s[i])
  {
    if i > 0 {
      RunHolds(s[1..], p, i - 1);
    }
  }

  lemma NumEnd(s: string)
    requires IsNumText(s)
    ensures IsDigit(s[|s| - 1])
  {
    var sign := if s[0] == '-' then 1 else 0;
    var whole := RunLength(s[sign..], IsDigit);
    RunHolds(s[sign..], IsDigit, whole - 1);
    var f := s[sign + whole..];
    if f != [] {
      RunHolds(f[1..], IsDigit, |f| - 2);
    }
  }

  lemma PathEnd(s: string)
    requires IsPathText(s)
    ensures IsSegmentPart(s[|s| - 1])
  {
    var n := 1 + RunLength(s[1..], IsNamePart);
    if n == |s| {
      if n > 1 {
        RunHolds(s[1..], IsNamePart, n - 2);
      }
    } else {
      SegmentsEnd(s[n..]);
    }
  }

  lemma {:induction false} SegmentsEnd(s: string)
    requires s != [] && MatchSegments(s) == |s|
    ensures IsSegmentPart(s[|s| - 1])
    decreases |s|
  {
    var n := 1 + RunLength(s[1..], IsSegmentPart);
    if n == |s| {
      RunHolds(s[1..], IsSegmentPart, n - 2);
    } else {
      SegmentsEnd(s[n..]);
    }
  }

  /** A layout begins as its first token does and ends as its last. */
  lemma LayoutEnds(ts: seq<Token>, gaps: seq<string>)
    requires |gaps| == |ts| > 0 && AllTokens(ts) && gaps[|ts| - 1] == []
    ensures var s := Layout(ts, gaps);
            s != [] && s[0] != '$' && !IsSpace(s[0]) && !IsSpace(s[|s| - 1])
  {
    TokenEnds(ts[0]);
    TokenEnds(ts[|ts| - 1]);
    LayoutEnd(ts, gaps);
    LayoutStart(ts, gaps);
  }

  lemma LayoutStart(ts: seq<Token>, gaps: seq<string>)
    requires |gaps| == |ts| > 0 && ts[0].text != []
    ensures Layout(ts, gaps) != [] && Layout(ts, gaps)[0] == ts[0].text[0]
  {
  }

  lemma WritesEnds(text: string, ts: seq<Token>)
    requires Writes(text, ts) && ts != [] && AllTokens(ts)
    ensures text != [] && text[0] != '$' && !IsSpace(text[0]) && !IsSpace(text[|text| - 1])
  {
    var gaps: seq<string> :| |gaps| == |ts| && AllGaps(gaps) && text == Layout(ts, gaps) && gaps[|ts| - 1] == [];
    LayoutEnds(ts, gaps);
  }

  /** How a workflow file may hold the text: bare or wrapped, with white space around. */
  datatype Frame = Bare(lead: string, trail: string)
                 | Wrapped(before: string, lead: string, trail: string, after: string) {
    function Around(body: string): string {
      match this
      case Bare(a, b) => a + (body + b)
      case Wrapped(a, b, c, d) => a + (("${{" + (b + (body + c)) + "}}") + d)
    }

    ghost predicate Blank() {
      match this
      case Bare(a, b) => AllSpace(a) && AllSpace(b)
      case Wrapped(a, b, c, d) => AllSpace(a) && AllSpace(b) && AllSpace(c) && AllSpace(d)
    }
  }

  lemma UnwrapFrame(f: Frame, body: string)
    requires f.Blank() && body != [] && body[0] != '$' && !IsSpace(body[0]) && !IsSpace(body[|body| - 1])
    ensures Unwrap(f.Around(body)) == body
  {
    match f
    case Bare(a, b) =>
      StripAround(a, body, b);
    case Wrapped(a, b, c, d) =>
      var inner := b + (body + c);
      var text := "${{" + inner + "}}";
      StripAround(a, text, d);
      StripAround(b, body, c);
      assert text[..3] == OPEN && text[3..|text| - 2] == inner;
      assert text[|text| - 2..] == "}}";
  }

  /** Printing any expression tree with the parentheses precedence needs, any white space between
      its tokens and around it, bare or in `${{ }}`, and reading it back gives that tree. The one
      exception is a text that holds `${{`, which is refused whatever it means. */
  lemma TreeOfPrinted(e: Expr, body: string, f: Frame)
    requires LexicalLeaves(e) && Writes(body, Yield(Group(e))) && f.Blank()
    ensures Tree(f.Around(body)) == if Contains(body, OPEN) then Err(ExprError) else Ok(Group(e))
  {
    var ts := Yield(Group(e));
    GroupGroups(e);
    YieldFramed(Group(e));
    WritesEnds(body, ts);
    UnwrapFrame(f, body);
    var gaps: seq<string> :| |gaps| == |ts| && AllGaps(gaps) && body == Layout(ts, gaps);
    TokensOfLayout(ts, gaps);
    ParseOfYield(Group(e));
  }

  /** A text with a tree means what the tree does; one without always means some error. */
  lemma MeaningOfTree(expr: string, c: Context)
    ensures Tree(expr).Ok? ==> Meaning(expr, c) == Eval(Tree(expr).value, c)
    ensures Tree(expr).Err? ==> Meaning(expr, c).Err?
  {
  }

  /** So evaluating the printed text is evaluating the tree, errors included. */
  lemma MeaningOfPrinted(e: Expr, body: string, f: Frame, c: Context)
    requires LexicalLeaves(e) && Writes(body, Yield(Group(e))) && f.Blank()
    ensures Meaning(f.Around(body), c) == if Contains(body, OPEN) then Err(ExprError) else Eval(e, c)
  {
    hide LexicalLeaves, Writes, Tokens, ParseTokens;
    if Contains(body, OPEN) {
      OpenRefused(e, body, f, c);
    } else {
      TreeOfPrinted(e, body, f);
      GroupMeaning(e, c);
      MeaningOfTree(f.Around(body), c);
    }
  }

  lemma OpenRefused(e: Expr, body: string, f: Frame, c: Context)
    requires LexicalLeaves(e) && Writes(body, Yield(Group(e))) && f.Blank() && Contains(body, OPEN)
    ensures Meaning(f.Around(body), c) == Err(ExprError)
  {
    GroupGroups(e);
    YieldFramed(Group(e));
    WritesEnds(body, Yield(Group(e)));
    UnwrapFrame(f, body);
  }

  /** A tree that needs no parentheses prints without any and reads back as itself. */
  lemma GroupedReadsBack(e: Expr, body: string, f: Frame)
    requires Grouped(e) && LexicalLeaves(e) && Writes(body, Yield(e)) && f.Blank()
    ensures Tree(f.Around(body)) == if Contains(body, OPEN) then Err(ExprError) else Ok(e)
  {
    GroupedStays(e);
    TreeOfPrinted(e, body, f);
  }

  /** A string whose literal holds the mark has a value, and its literal is refused. */
  lemma LiteralRefused(s: string, c: Context)
    requires Contains(Quoted(s), OPEN)
    ensures var e := StrLit(Quoted(s));
            && LexicalLeaves(e) && Writes(e.text, Yield(Group(e)))
            && Eval(e, c) == Ok(VStr(s)) && Meaning(e.text, c) == Err(ExprError)
  {
    hide Meaning, Writes, Quoted, StringValue, Contains, IsStrText;
    var body := Quoted(s);
    var e := StrLit(body);
    QuotedReadsBack(s);
    OneTokenLayout(Token(Str, body));
    assert "" + (body + "") == body;
    MeaningOfPrinted(e, body, Bare("", ""), c);
  }

  /** For instance the string "${{". */
  lemma OpenInString(c: Context)
    ensures Contains(Quoted("${{"), OPEN) && Meaning(Quoted("${{"), c) == Err(ExprError)
  {
    hide Meaning;
    OpenQuoted(Quoted("${{"));
    LiteralRefused("${{", c);
  }

  lemma OneTokenLayout(t: Token)
    ensures Writes(t.text, [t])
  {
    var gaps: seq<string> := [[]];
    assert [t][1..] == [] && gaps[1..] == [];
    assert Layout([t], gaps) == t.text + ([] + []);
    assert t.text + ([] + []) == t.text;
    assert AllGaps(gaps);
  }

  lemma OpenQuoted(body: string)
    requires body == Quoted("${{")
    ensures Contains(body, OPEN)
  {
    assert "${{"[1..] == "{{" && "{{"[1..] == "{" && "{"[1..] == "";
    assert Double("{") == "{" && Double("{{") == "{{" && Double("${{") == "${{";
    assert body == "'${{'";
    assert OccursAt(body, 1, OPEN);
  }

  // ---- what an expression can depend on ----

  /** The expression reads the context path. */
  predicate Mentions(e: Expr, path: string)
    decreases e
  {
    match e
    case Or(l, r) => Mentions(l, path) || Mentions(r, path)
    case And(l, r) => Mentions(l, path) || Mentions(r, path)
    case Cmp(_, l, r) => Mentions(l, path) || Mentions(r, path)
    case Not(i) => Mentions(i, path)
    case Paren(i) => Mentions(i, path)
    case Name(text) => text == path
    case Call(_, args) => MentionsAny(args, path)
    case _ => false
  }

  predicate MentionsAny(args: seq<Expr>, path: string)
    decreases args
  {
    args != [] && (MentionsAny(args[..|args| - 1], path) || Mentions(args[|args| - 1], path))
  }

  function OutputPath(key: string): string { "needs.changes.outputs." + key }

  lemma OutputPathOnly(path: string, key: string)
    requires Context.NeedsOutput(path) == Some(("changes", key))
    ensures path == OutputPath(key)
  {
    hide RunLength;
    var rest := path[6..];
    assert path == "needs." + rest;
    var n := RunLength(rest, IsNamePart);
    assert rest[..n] == "changes" && rest[n..][..9] == ".outputs." && rest[n + 9..] == key;
    assert rest == rest[..n] + (rest[n..][..9] + rest[n + 9..]);
  }

  lemma ResolveIgnores(path: string, c: Context, key: string, v: string, w: string)
    requires path != OutputPath(key)
    ensures c.WithOutput(key, v).Resolve(path) == c.WithOutput(key, w).Resolve(path)
  {
    if Context.NeedsOutput(path) == Some(("changes", key)) {
      OutputPathOnly(path, key);
    }
  }

  /** Noninterference: an expression that does not read an output has the same value or error
      whatever the output is. */
  lemma {:induction false} EvalIgnores(e: Expr, c: Context, key: string, v: string, w: string)
    requires !Mentions(e, OutputPath(key))
    ensures Eval(e, c.WithOutput(key, v)) == Eval(e, c.WithOutput(key, w))
    decreases e
  {
    match e
    case Or(l, r) => EvalIgnores(l, c, key, v, w); EvalIgnores(r, c, key, v, w);
    case And(l, r) => EvalIgnores(l, c, key, v, w); EvalIgnores(r, c, key, v, w);
    case Cmp(_, l, r) => EvalIgnores(l, c, key, v, w); EvalIgnores(r, c, key, v, w);
    case Not(i) => EvalIgnores(i, c, key, v, w);
    case Paren(i) => EvalIgnores(i, c, key, v, w);
    case Name(path) => ResolveIgnores(path, c, key, v, w);
    case Call(_, args) => EvalAllIgnores(args, c, key, v, w);
    case _ =>
  }

  lemma {:induction false} EvalAllIgnores(args: seq<Expr>, c: Context, key: string, v: string, w: string)
    requires !MentionsAny(args, OutputPath(key))
    ensures EvalAll(args, c.WithOutput(key, v)) == EvalAll(args, c.WithOutput(key, w))
    decreases args
  {
    if args != [] {
      EvalAllIgnores(args[..|args| - 1], c, key, v, w);
      EvalIgnores(args[|args| - 1], c, key, v, w);
    }
  }

  // ---- the area-filter check ----

  /** The condition holds in one context and fails in the other. */
  ghost predicate Separates(expr: string, on: Context, off: Context) {
    && Tree(expr).Ok?
    && Truth(Eval(Tree(expr).value, on)) == Ok(true)
    && Truth(Eval(Tree(expr).value, off)) == Ok(false)
  }

  /** What is read of an `if:` text before it ends or fails. */
  function Parts(expr: string): seq<Expr> {
    if Contains(Unwrap(expr), OPEN) then []
    else
      match Tokens(Unwrap(expr))
      case Err(_) => []
      case Ok(ts) => PartsOf(ParseTokens(ts))
  }

  /** In the order of evaluation the text comes to a call of `startsWith` or `endsWith` with fewer
      than two arguments, having a value for everything before it. */
  ghost predicate Crashes(expr: string, c: Context) {
    ReachesShortCall(StepsAll(Parts(expr)), c)
  }

  /** Exactly then does its evaluation end in Python's IndexError. And a text that has a value in
      one context crashes in none. */
  lemma TextCrashes(expr: string, c: Context, other: Context)
    ensures Meaning(expr, c) == Err(IndexError) <==> Crashes(expr, c)
    ensures Meaning(expr, c).Ok? ==> !Crashes(expr, other)
  {
    hide Strip, Unwrap, Contains, ReachesShortCall;
    if Contains(Unwrap(expr), OPEN) || Tokens(Unwrap(expr)).Err? {
      AllCrashExactly([], c);
      TokensError(Unwrap(expr));
      assert Parts(expr) == [];
    } else {
      MeaningCrashes(ParseTokens(Tokens(Unwrap(expr)).value), c);
      if Meaning(expr, c).Ok? {
        ValueMeansNoShortCall(StepsAll(Parts(expr)), c, other);
      }
    }
  }

  lemma {:induction false} TokensError(s: string)
    ensures Tokens(s).Err? ==> Tokens(s).error == ExprError
    decreases |s|
  {
    if s != [] {
      match MatchToken(s)
      case Blank(n) => TokensError(s[n..]);
      case Lexeme(_, n) => TokensError(s[n..]);
      case NoMatch =>
    }
  }

  /** A call with one argument, as in `startsWith('a')`, `q` being a string literal. */
  function ShortText(q: string): string { "startsWith" + ("(" + (q + ")")) }

  lemma ShortCrashes(q: string, c: Context)
    requires IsStrText(q) && !Contains(ShortText(q), OPEN)
    ensures Meaning(ShortText(q), c) == Err(IndexError)
  {
    hide Meaning, Contains, IsStrText, Writes, ShortText, Layout;
    ShortWritten(q);
    ShortTree(q, c);
    assert "" + (ShortText(q) + "") == ShortText(q);
    MeaningOfPrinted(Call("startsWith", [StrLit(q)]), ShortText(q), Bare("", ""), c);
  }

  function ShortTokens(q: string): seq<Token> {
    [Token(Path, "startsWith"), OpToken("(")] + [Token(Str, q)] + [OpToken(")")]
  }

  lemma ShortTree(q: string, c: Context)
    requires IsStrText(q)
    ensures var e := Call("startsWith", [StrLit(q)]);
            LexicalLeaves(e) && Yield(Group(e)) == ShortTokens(q) && Eval(e, c) == Err(IndexError)
  {
    hide IsStrText, IsPathText;
    var arg := StrLit(q);
    var e := Call("startsWith", [arg]);
    PathIsText();
    EvalOne(arg, c);
    assert [arg][..0] == [];
    assert Grouped(e) by {
      assert GroupedAll([]) && Grouped(arg);
    }
    GroupedStays(e);
    assert LexicalLeaves(e) by {
      assert LexicalAll([]) && LexicalLeaves(arg);
    }
    assert YieldAll([arg]) == [Token(Str, q)];
  }

  lemma ShortWritten(q: string)
    ensures Writes(ShortText(q), ShortTokens(q))
  {
    var ts := ShortTokens(q);
    var gaps: seq<string> := [[], [], [], []];
    assert ts[1..][1..][1..][1..] == [] && gaps[1..][1..][1..][1..] == [];
    assert [] + (")" + "") == ")";
    assert Layout(ts[1..][1..][1..], gaps[1..][1..][1..]) == ")" + ([] + []);
    assert Layout(ts[1..][1..], gaps[1..][1..]) == q + ([] + ")");
    assert Layout(ts[1..], gaps[1..]) == "(" + ([] + (q + ")"));
    assert Layout(ts, gaps) == "startsWith" + ([] + ("(" + (q + ")"))) == ShortText(q);
    assert AllGaps(gaps);
  }

  lemma PathIsText()
    ensures IsPathText("startsWith")
  {
    RunOfAll("tartsWith", IsNamePart);
    assert "startsWith"[1..] == "tartsWith";
  }

  lemma {:induction false} RunOfAll(s: string, p: char -> bool)
    requires forall i :: 0 <= i < |s| ==> p(s[i])
    ensures RunLength(s, p) == |s|
  {
    if s != [] {
      RunOfAll(s[1..], p);
    }
  }

  /** So this text crashes in every context. */
  lemma ShortExample(c: Context)
    ensures Meaning("startsWith('a')", c) == Err(IndexError)
  {
    hide Meaning;
    QuotedReadsBack("a");
    assert "a"[1..] == "" && Double("") == "" && Double("a") == "a";
    assert Quoted("a") == "'a'" && ShortText("'a'") == "startsWith('a')";
    NoMark("startsWith('a')");
    ShortCrashes("'a'", c);
  }

  lemma NoMark(s: string)
    requires '$' !in s
    ensures !Contains(s, OPEN)
  {
    forall i | 0 <= i <= |s| - |OPEN|
      ensures !OccursAt(s, i, OPEN)
    {
      assert s[i..i + 3][0] == s[i];
    }
  }

  /** One turn of the check: an expression error skips the condition, any other error is passed on,
      and it is always raised in the first of the two contexts. */
  method Gates(expr: string, on: Context, off: Context) returns (r: Result<bool>)
    ensures r == if Crashes(expr, on) then Err(IndexError) else Ok(Separates(expr, on, off))
    ensures Separates(expr, on, off) ==> !Crashes(expr, on)
  {
    TextCrashes(expr, on, off);
    TextCrashes(expr, off, on);
    var holds := Evaluate(expr, on);
    if holds != Ok(true) {
      return if holds == Err(IndexError) then holds else Ok(false);
    }
    var fails := Evaluate(expr, off);
    return if fails == Err(IndexError) then fails else Ok(fails == Ok(false));
  }

  ghost predicate AnySeparates(conditions: seq<string>, on: Context, off: Context) {
    exists i :: 0 <= i < |conditions| && Separates(conditions[i], on, off)
  }

  /** Some condition crashes, and none before it is credited. */
  ghost predicate CrashesFirst(conditions: seq<string>, on: Context, off: Context) {
    exists i :: 0 <= i < |conditions| && Crashes(conditions[i], on)
                && !AnySeparates(conditions[..i], on, off)
  }

  method SearchConditions(conditions: seq<string>, on: Context, off: Context) returns (r: Result<bool>)
    ensures r == if CrashesFirst(conditions, on, off) then Err(IndexError) else Ok(AnySeparates(conditions, on, off))
  {
    hide Crashes, Separates;
    for k := 0 to |conditions|
      invariant !AnySeparates(conditions[..k], on, off)
      invariant forall i :: 0 <= i < k ==> !Crashes(conditions[i], on)
    {
      r := Gates(conditions[k], on, off);
      if r != Ok(false) {
        Decided(conditions, k, on, off);
        return;
      }
      assert conditions[..k + 1] == conditions[..k] + [conditions[k]];
    }
    assert conditions[..|conditions|] == conditions;
    return Ok(false);
  }

  /** The first condition that crashes or is credited decides. */
  lemma Decided(conditions: seq<string>, k: nat, on: Context, off: Context)
    requires k < |conditions| && !AnySeparates(conditions[..k], on, off)
    requires forall i :: 0 <= i < k ==> !Crashes(conditions[i], on)
    ensures Crashes(conditions[k], on) ==> CrashesFirst(conditions, on, off)
    ensures Separates(conditions[k], on, off) && !Crashes(conditions[k], on) ==>
              AnySeparates(conditions, on, off) && !CrashesFirst(conditions, on, off)
  {
    hide Crashes, Separates;
    if Separates(conditions[k], on, off) && !Crashes(conditions[k], on) {
      forall i | k < i < |conditions|
        ensures AnySeparates(conditions[..i], on, off)
      {
        assert conditions[..i][k] == conditions[k];
      }
    }
  }

  /** The condition holds with the output set to "true" and fails with it set to "false". */
  ghost predicate Filters(expr: string, c: Context, area: string) {
    Separates(expr, c.WithOutput(area, "true"), c.WithOutput(area, "false"))
  }

  /** Crashes the script exactly when some condition crashes with the output true and none before
      it gates on the area; otherwise true exactly when some condition of the job or its steps does. */
  method CheckAreaFilter(conditions: seq<string>, prHuman: Context, area: string) returns (r: Result<bool>)
    ensures var on, off := prHuman.WithOutput(area, "true"), prHuman.WithOutput(area, "false");
            r == if CrashesFirst(conditions, on, off) then Err(IndexError) else Ok(AnySeparates(conditions, on, off))
    ensures r.Ok? ==> (r.value <==> exists i :: 0 <= i < |conditions| && Filters(conditions[i], prHuman, area))
  {
    r := SearchConditions(conditions, prHuman.WithOutput(area, "true"), prHuman.WithOutput(area, "false"));
  }

  /** A credited condition reads the output of its area, and says so in its text: the check never
      credits an unrelated condition. */
  lemma FilterMentions(expr: string, c: Context, area: string)
    requires Filters(expr, c, area)
    ensures Mentions(Tree(expr).value, OutputPath(area))
    ensures Contains(expr, OutputPath(area))
  {
    var e := Tree(expr).value;
    if !Mentions(e, OutputPath(area)) {
      EvalIgnores(e, c, area, "true", "false");
      assert false;
    }
    var ts := Tokens(Unwrap(expr)).value;
    TokensAreTokens(Unwrap(expr));
    YieldOfParse(ts);
    MentionedToken(e, OutputPath(area));
    TokensInText(Unwrap(expr), Token(Path, OutputPath(area)));
    UnwrapInside(expr, OutputPath(area));
  }

  lemma {:induction false} MentionedToken(e: Expr, path: string)
    requires Mentions(e, path)
    ensures Token(Path, path) in Yield(e)
    decreases e
  {
    match e
    case Or(l, r) => if Mentions(l, path) { MentionedToken(l, path); } else { MentionedToken(r, path); }
    case And(l, r) => if Mentions(l, path) { MentionedToken(l, path); } else { MentionedToken(r, path); }
    case Cmp(_, l, r) => if Mentions(l, path) { MentionedToken(l, path); } else { MentionedToken(r, path); }
    case Not(i) => MentionedToken(i, path);
    case Paren(i) => MentionedToken(i, path);
    case Call(_, args) => MentionedInArgs(args, path);
    case _ =>
  }

  lemma {:induction false} MentionedInArgs(args: seq<Expr>, path: string)
    requires MentionsAny(args, path)
    ensures Token(Path, path) in YieldAll(args)
    decreases args
  {
    var init, last := args[..|args| - 1], args[|args| - 1];
    if Mentions(last, path) {
      MentionedToken(last, path);
    } else {
      MentionedInArgs(init, path);
    }
  }

  // ---- tokens and their text ----

  lemma {:induction false} TokensAreTokens(s: string)
    requires Tokens(s).Ok?
    ensures AllTokens(Tokens(s).value)
    decreases |s|
  {
    if s != [] {
      match MatchToken(s)
      case Blank(n) => TokensAreTokens(s[n..]);
      case Lexeme(kind, n) =>
        TokensAreTokens(s[n..]);
        LexemeIsToken(s);
      case NoMatch =>
    }
  }

  lemma {:induction false} TokensInText(s: string, t: Token)
    requires Tokens(s).Ok? && t in Tokens(s).value
    ensures Contains(s, t.text)
    decreases |s|
  {
    hide MatchToken, Contains;
    var m := MatchToken(s);
    var front, rest := s[..m.size], s[m.size..];
    if m.Lexeme? && t == Token(m.kind, front) {
      ContainsItself(front);
      ContainsInside([], front, rest, t.text);
      assert [] + front + rest == s;
    } else {
      TokensInText(rest, t);
      ContainsInside(front, rest, [], t.text);
      assert front + rest + [] == s;
    }
  }

  lemma ContainsItself(s: string)
    ensures Contains(s, s)
  {
    assert OccursAt(s, 0, s);
  }

  lemma ContainsInside(a: string, s: string, b: string, needle: string)
    requires Contains(s, needle)
    ensures Contains(a + s + b, needle)
  {
    var i :| 0 <= i <= |s| - |needle| && OccursAt(s, i, needle);
    var t := a + s + b;
    assert t[|a| + i..|a| + i + |needle|] == s[i..i + |needle|];
    assert OccursAt(t, |a| + i, needle);
  }

  lemma {:induction false} StripLeftSplits(s: string)
    ensures s == s[..|s| - |StripLeft(s)|] + StripLeft(s)
  {
    if s != [] && IsSpace(s[0]) {
      StripLeftSplits(s[1..]);
    }
  }

  lemma StripInside(s: string, needle: string)
    requires Contains(Strip(s), needle)
    ensures Contains(s, needle)
  {
    var left := StripLeft(s);
    var k := |StripRight(left)|;
    ContainsInside([], Strip(s), left[k..], needle);
    assert [] + Strip(s) + left[k..] == left;
    StripLeftSplits(s);
    var lead := s[..|s| - |left|];
    ContainsInside(lead, left, [], needle);
    assert lead + left + [] == s;
  }

  lemma UnwrapInside(expr: string, needle: string)
    requires Contains(Unwrap(expr), needle)
    ensures Contains(expr, needle)
  {
    var text := Strip(expr);
    if Unwrap(expr) != text {
      var n := |text| - 2;
      StripInside(text[3..n], needle);
      ContainsInside(text[..3], text[3..n], text[n..], needle);
      assert text[..3] + text[3..n] + text[n..] == text;
    }
    StripInside(expr, needle);
  }

  // ---- what the regex takes is a token of its kind ----

  lemma {:induction false} RunOfRun(s: string, p: char -> bool, k: nat)
    requires RunLength(s, p) <= k <= |s|
    ensures RunLength(s[..k], p) == RunLength(s, p)
  {
    if s != [] && p(s[0]) {
      assert s[..k][1..] == s[1..][..k - 1];
      RunOfRun(s[1..], p, k - 1);
    }
  }

  lemma {:induction false} BodyOfBody(s: string)
    requires MatchBody(s).Some?
    ensures MatchBody(s[..MatchBody(s).value]) == MatchBody(s)
  {
    var k := MatchBody(s).value;
    if s[0] != '\'' {
      assert s[..k][1..] == s[1..][..k - 1];
      BodyOfBody(s[1..]);
    } else if |s| > 1 && s[1] == '\'' && MatchBody(s[2..]).Some? {
      assert s[..k][2..] == s[2..][..k - 2];
      BodyOfBody(s[2..]);
    }
  }

  lemma {:induction false} SegmentsOfSegments(s: string)
    ensures MatchSegments(s[..MatchSegments(s)]) == MatchSegments(s)
    decreases |s|
  {
    var k := MatchSegments(s);
    if k > 0 {
      var n := 1 + RunLength(s[1..], IsSegmentPart);
      assert s[..k][1..] == s[1..][..k - 1];
      RunOfRun(s[1..], IsSegmentPart, k - 1);
      assert s[..k][n..] == s[n..][..k - n];
      SegmentsOfSegments(s[n..]);
    }
  }

  lemma PathOfPath(s: string)
    requires MatchPath(s) > 0
    ensures IsPathText(s[..MatchPath(s)])
  {
    var k := MatchPath(s);
    var n := 1 + RunLength(s[1..], IsNamePart);
    assert s[..k][1..] == s[1..][..k - 1];
    RunOfRun(s[1..], IsNamePart, k - 1);
    assert s[..k][n..] == s[n..][..k - n];
    SegmentsOfSegments(s[n..]);
  }

  lemma FractionOfFraction(f: string)
    ensures MatchFraction(f[..MatchFraction(f)]) == MatchFraction(f)
  {
    var k := MatchFraction(f);
    if k > 0 {
      assert f[..k][1..] == f[1..][..k - 1];
      RunOfRun(f[1..], IsDigit, k - 1);
    }
  }

  lemma NumOfNum(s: string)
    requires MatchNum(s) > 0
    ensures IsNumText(s[..MatchNum(s)])
  {
    hide RunLength, MatchFraction;
    var k := MatchNum(s);
    var sign := if s[0] == '-' then 1 else 0;
    assert s[..k][sign..] == s[sign..][..k - sign];
    RunOfRun(s[sign..], IsDigit, k - sign);
    var n := sign + RunLength(s[sign..], IsDigit);
    FractionOfFraction(s[n..]);
    assert s[..k][n..] == s[n..][..k - n];
  }

  lemma LexemeIsToken(s: string)
    requires MatchToken(s).Lexeme?
    ensures var m := MatchToken(s); IsToken(Token(m.kind, s[..m.size]))
  {
    var m := MatchToken(s);
    match m.kind
    case Op =>
      if m.size == 1 {
        assert s[..1] == [s[0]];
      }
    case Str =>
      var k := MatchStr(s);
      assert s[..k][1..] == s[1..][..k - 1];
      BodyOfBody(s[1..]);
    case Num => NumOfNum(s);
    case Path => PathOfPath(s);
  }
}
