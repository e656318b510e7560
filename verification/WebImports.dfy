/**
 Import specifiers of a source file: the anchored patterns run over the sanitised text, and
 each captured placeholder is looked up in the side table.
 */
module WebImports {
  import opened Text
  import opened WebLexer
  import opened WebPlaceholders

  /** The five extraction patterns. `word` is the regex class `\w`, whose Unicode table is a
      parameter here; it only decides the `\b` in front of a keyword. */
  datatype Pattern = FromClause | SideEffect | DynamicImport | WorkerUrl | RequireCall

  predicate EndsWithWord(s: string, keyword: string, word: char -> bool) {
    && EndsWith(s, keyword)
    && (|s| > |keyword| ==> !word(s[|s| - |keyword| - 1]))
  }

  /** Some suffix of `s` matches what the pattern wants before the opening quote. */
  predicate HeadMatches(p: Pattern, s: string, word: char -> bool) {
    var t := StripRight(s);
    match p
    case FromClause => EndsWithWord(t, "from", word)
    case SideEffect => EndsWithWord(t, "import", word)
    case DynamicImport => EndsWith(t, "(") && EndsWithWord(StripRight(t[..|t| - 1]), "import", word)
    case RequireCall => EndsWith(t, "(") && EndsWithWord(StripRight(t[..|t| - 1]), "require", word)
    case WorkerUrl =>
      && EndsWith(t, "(")
      && var u := StripRight(t[..|t| - 1]);
      && EndsWith(u, "URL")
      && var v := u[..|u| - 3];
      && StripRight(v) != v && EndsWith(StripRight(v), "new")
  }

  predicate SpacedPrefix(s: string, prefix: string) {
    StartsWith(StripLeft(s), prefix)
  }

  /** Some prefix of `s` matches what the pattern wants after the closing quote. */
  predicate TailMatches(p: Pattern, s: string) {
    match p
    case RequireCall => SpacedPrefix(s, ")")
    case WorkerUrl => SpacedPrefix(s, ",") && SpacedPrefix(StripLeft(s)[1..], "import.meta.url")
    case _ => true
  }

  /** `['"]([^'"]+)['"]` with its quotes at `a` and `b`. */
  predicate Quoted(s: string, a: nat, b: nat) {
    && a + 1 < b < |s| && IsQuote(s[a]) && IsQuote(s[b])
    && (forall i :: a < i < b ==> !IsQuote(s[i]))
  }

  /** The pattern matches with its capture between the quotes at `a` and `b`. */
  predicate Captures(p: Pattern, s: string, a: nat, b: nat, word: char -> bool) {
    && Quoted(s, a, b)
    && HeadMatches(p, s[..a], word) && TailMatches(p, s[b + 1..])
  }

  /** The captures of all matches, given as a test of the two quotes around a capture. */
  ghost function AllCaptures(s: string, captures: (nat, nat) -> bool): set<string> {
    set a: nat, b: nat | 0 <= a < b < |s| && captures(a, b) :: s[a + 1..b]
  }

  function Capturing(p: Pattern, s: string, word: char -> bool): (nat, nat) -> bool {
    (a: nat, b: nat) => Captures(p, s, a, b, word)
  }

  ghost function CapturesOf(p: Pattern, s: string, word: char -> bool): set<string> {
    AllCaptures(s, Capturing(p, s, word))
  }

  /** `\x00(\d+)\x00`, matched in full. */
  function PlaceholderIndex(captured: string): Option<nat> {
    var n := |captured|;
    if n > 2 && captured[0] == '\0' && captured[n - 1] == '\0'
       && forall i :: 0 < i < n - 1 ==> IsDigit(captured[i])
    then Some(Numeral(captured[1..n - 1])) else None
  }

  lemma IndexOfPlaceholder(k: nat)
    ensures PlaceholderIndex(['\0'] + Decimal(k) + ['\0']) == Some(k)
  {
    var c := ['\0'] + Decimal(k) + ['\0'];
    assert c[1..|c| - 1] == Decimal(k);
    forall i | 0 < i < |c| - 1
      ensures IsDigit(c[i])
    {
      assert c[i] == Decimal(k)[i - 1];
    }
    NumeralOfDecimal(k);
  }

  // ---- what stands before a captured quote ----

  lemma HeadIsNotNul(p: Pattern, s: string, word: char -> bool)
    requires HeadMatches(p, s, word)
    ensures s != [] && s[|s| - 1] != '\0'
  {
    var t := StripRight(s);
    assert t != [];
    if |t| == |s| {
      var keyword := match p case FromClause => "from" case SideEffect => "import" case _ => "(";
      assert t[|t| - |keyword|..] == keyword;
      assert t[|t| - 1] == keyword[|keyword| - 1];
    }
  }

  /** Every capture of every pattern is the placeholder of an entry of the side table. */
  lemma CaptureIsPlaceholder(text: string, p: Pattern, a: nat, b: nat, word: char -> bool) returns (k: nat)
    requires Captures(p, Lex(START, text).Sanitized(), a, b, word)
    ensures var st := Lex(START, text);
            k < |st.strings| && PlaceholderIndex(st.Sanitized()[a + 1..b]) == Some(k)
            && |Spans(st.out)| == |st.strings| && Spans(st.out)[k] == Span(a, b)
  {
    var s := Lex(START, text).Sanitized();
    HeadIsNotNul(p, s[..a], word);
    assert Opens(s, a, b);
    k := QuoteOpens(text, a, b);
    IndexOfPlaceholder(k);
  }

  lemma CapturesLookUp(text: string, p: Pattern, word: char -> bool, c: string)
    requires c in CapturesOf(p, Lex(START, text).Sanitized(), word)
    ensures Lookup(c, Lex(START, text).strings).Some?
  {
    var s := Lex(START, text).Sanitized();
    var a: nat, b: nat :| 0 <= a < b < |s| && Captures(p, s, a, b, word) && c == s[a + 1..b];
    var k := CaptureIsPlaceholder(text, p, a, b, word);
  }

  // ---- the imports of a file ----

  function Lookup(captured: string, strings: seq<string>): Option<string> {
    match PlaceholderIndex(captured)
    case Some(k) => if k < |strings| then Some(strings[k]) else None
    case None => None
  }

  /** The specifiers one pattern finds in a file. */
  ghost function SpecsOf(p: Pattern, text: string, word: char -> bool): set<string> {
    var st := Lex(START, text);
    set c | c in CapturesOf(p, st.Sanitized(), word) && Lookup(c, st.strings).Some? :: Lookup(c, st.strings).value
  }

  ghost function SpecsOfAll(patterns: seq<Pattern>, text: string, word: char -> bool): set<string> {
    if patterns == [] then {}
    else SpecsOfAll(patterns[..|patterns| - 1], text, word) + SpecsOf(patterns[|patterns| - 1], text, word)
  }

  const PATTERNS := [FromClause, SideEffect, DynamicImport, WorkerUrl, RequireCall]

  ghost function ImportsOf(text: string, word: char -> bool): set<string> {
    SpecsOfAll(PATTERNS, text, word)
  }

  function NextQuote(s: string, i: nat): (b: nat)
    ensures i <= b && forall j :: i <= j < b && j < |s| ==> !IsQuote(s[j])
    ensures b < |s| ==> IsQuote(s[b])
    decreases |s| - i
  {
    if i >= |s| || IsQuote(s[i]) then i else NextQuote(s, i + 1)
  }

  // ---- findall ----

  /** Where the match begins whose opening quote follows `s`. */
  function HeadStart(p: Pattern, s: string, word: char -> bool): (h: nat)
    requires HeadMatches(p, s, word)
    ensures h < |s|
  {
    var t := StripRight(s);
    match p
    case FromClause => |t| - 4
    case SideEffect => |t| - 6
    case DynamicImport => |StripRight(t[..|t| - 1])| - 6
    case RequireCall => |StripRight(t[..|t| - 1])| - 7
    case WorkerUrl =>
      var u := StripRight(t[..|t| - 1]);
      |StripRight(u[..|u| - 3])| - 3
  }

  /** How far the match goes on into `s`, which follows its closing quote. */
  function TailSize(p: Pattern, s: string): (n: nat)
    requires TailMatches(p, s)
    ensures n <= |s|
  {
    match p
    case RequireCall => |s| - |StripLeft(s)| + 1
    case WorkerUrl => |s| - |StripLeft(StripLeft(s)[1..])| + |"import.meta.url"|
    case _ => 0
  }

  /** The letter a match of the pattern begins with. */
  function HeadLetter(p: Pattern): char {
    match p
    case FromClause => 'f'
    case WorkerUrl => 'n'
    case RequireCall => 'r'
    case _ => 'i'
  }

  lemma {:induction false} BlankAfter(s: string, i: nat)
    requires |StripRight(s)| <= i < |s|
    ensures IsSpace(s[i])
  {
    if i < |s| - 1 {
      BlankAfter(s[..|s| - 1], i);
    }
  }

  lemma {:induction false} BlankBefore(s: string, i: nat)
    requires i < |s| - |StripLeft(s)|
    ensures IsSpace(s[i])
  {
    if i > 0 {
      BlankBefore(s[1..], i - 1);
    }
  }

  lemma {:induction false} StripLeftIs(s: string)
    ensures StripLeft(s) == s[|s| - |StripLeft(s)|..]
  {
    if s != [] && IsSpace(s[0]) {
      StripLeftIs(s[1..]);
    }
  }

  /** `s` ends in `keyword` and white space, with no quote from `h` on. */
  lemma SpacedKeyword(s: string, keyword: string)
    requires EndsWith(StripRight(s), keyword) && keyword != [] && forall c :: c in keyword ==> !IsQuote(c)
    ensures var h := |StripRight(s)| - |keyword|;
            s[h] == keyword[0] && forall i :: h <= i < |s| ==> !IsQuote(s[i])
  {
    var t := StripRight(s);
    var h := |t| - |keyword|;
    forall i | h <= i < |s|
      ensures !IsQuote(s[i])
    {
      if i >= |t| {
        BlankAfter(s, i);
      } else {
        assert t[i] == keyword[i - h];
      }
    }
    assert t[h] == keyword[0];
  }

  /** The same for a keyword, an opening parenthesis and white space around it. */
  lemma SpacedCall(s: string, keyword: string)
    requires var t := StripRight(s); EndsWith(t, "(") && EndsWith(StripRight(t[..|t| - 1]), keyword)
    requires keyword != [] && forall c :: c in keyword ==> !IsQuote(c)
    ensures var t := StripRight(s);
            var h := |StripRight(t[..|t| - 1])| - |keyword|;
            s[h] == keyword[0] && forall i :: h <= i < |s| ==> !IsQuote(s[i])
  {
    var t := StripRight(s);
    var u := t[..|t| - 1];
    SpacedKeyword(s, "(");
    SpacedKeyword(u, keyword);
    var h := |StripRight(u)| - |keyword|;
    assert forall i :: 0 <= i < |u| ==> u[i] == s[i];
  }

  lemma SpacedWordCall(s: string, keyword: string, word: char -> bool)
    requires var t := StripRight(s); EndsWith(t, "(") && EndsWithWord(StripRight(t[..|t| - 1]), keyword, word)
    requires keyword == "import" || keyword == "require"
    ensures var t := StripRight(s);
            var h := |StripRight(t[..|t| - 1])| - |keyword|;
            s[h] == keyword[0] && forall i :: h <= i < |s| ==> !IsQuote(s[i])
  {
    hide StripRight;
    SpacedCall(s, keyword);
  }

  lemma SpacedNew(s: string, u: string)
    requires var t := StripRight(s); EndsWith(t, "(") && u == StripRight(t[..|t| - 1]) && EndsWith(u, "URL")
    requires EndsWith(StripRight(u[..|u| - 3]), "new")
    ensures var h := |StripRight(u[..|u| - 3])| - 3;
            s[h] == 'n' && forall i :: h <= i < |s| ==> !IsQuote(s[i])
  {
    SpacedCall(s, "URL");
    var v := u[..|u| - 3];
    SpacedKeyword(v, "new");
    assert forall i :: 0 <= i < |v| ==> v[i] == s[i];
  }

  ghost predicate Unquoted(p: Pattern, s: string, word: char -> bool)
    requires HeadMatches(p, s, word)
  {
    var h := HeadStart(p, s, word);
    s[h] == HeadLetter(p) && forall i :: h <= i < |s| ==> !IsQuote(s[i])
  }

  lemma WordIsUnquoted(p: Pattern, s: string, word: char -> bool)
    requires (p.FromClause? || p.SideEffect?) && HeadMatches(p, s, word)
    ensures Unquoted(p, s, word)
  {
    hide StripRight;
    SpacedKeyword(s, if p.FromClause? then "from" else "import");
  }

  lemma CallIsUnquoted(p: Pattern, s: string, word: char -> bool)
    requires (p.DynamicImport? || p.RequireCall?) && HeadMatches(p, s, word)
    ensures Unquoted(p, s, word)
  {
    hide StripRight;
    SpacedWordCall(s, if p.RequireCall? then "require" else "import", word);
  }

  lemma NewIsUnquoted(s: string, word: char -> bool)
    requires HeadMatches(WorkerUrl, s, word)
    ensures Unquoted(WorkerUrl, s, word)
  {
    hide StripRight;
    var t := StripRight(s);
    SpacedNew(s, StripRight(t[..|t| - 1]));
  }

  /** The head of a match begins with its letter and has no quote in it. */
  lemma HeadIsUnquoted(p: Pattern, s: string, word: char -> bool)
    requires HeadMatches(p, s, word)
    ensures Unquoted(p, s, word)
  {
    hide HeadMatches, HeadStart;
    if p.WorkerUrl? {
      NewIsUnquoted(s, word);
    } else if p.FromClause? || p.SideEffect? {
      WordIsUnquoted(p, s, word);
    } else {
      CallIsUnquoted(p, s, word);
    }
  }

  /** `s` begins with white space and `keyword`, and up to its end has no character but those. */
  lemma SpacedWord(s: string, keyword: string, c: char)
    requires SpacedPrefix(s, keyword) && c !in keyword && !IsSpace(c)
    ensures forall i :: 0 <= i < |s| - |StripLeft(s)| + |keyword| ==> s[i] != c
  {
    var k := |s| - |StripLeft(s)|;
    StripLeftIs(s);
    forall i | 0 <= i < k + |keyword|
      ensures s[i] != c
    {
      if i < k {
        BlankBefore(s, i);
      } else {
        assert s[i] == StripLeft(s)[i - k] == keyword[i - k];
      }
    }
  }

  /** No match of the pattern begins in the tail of another. */
  lemma TailHasNoHead(p: Pattern, s: string)
    requires TailMatches(p, s)
    ensures forall i :: 0 <= i < TailSize(p, s) ==> s[i] != HeadLetter(p)
  {
    match p
    case RequireCall => SpacedWord(s, ")", 'r');
    case WorkerUrl =>
      SpacedWord(s, ",", 'n');
      var k := |s| - |StripLeft(s)| + 1;
      StripLeftIs(s);
      assert StripLeft(s)[1..] == s[k..];
      SpacedWord(s[k..], "import.meta.url", 'n');
      forall i | k <= i < TailSize(p, s)
        ensures s[i] != 'n'
      {
        assert s[i] == s[k..][i - k];
      }
    case _ =>
  }

  /** Of two matches of one pattern over sanitised text, the first ends, its tail included, before
      the head of the second begins. */
  lemma MatchesApart(text: string, p: Pattern, a: nat, b: nat, a': nat, b': nat, word: char -> bool)
    requires var s := Lex(START, text).Sanitized(); Captures(p, s, a, b, word) && Captures(p, s, a', b', word)
    requires a < a'
    ensures var s := Lex(START, text).Sanitized();
            b + 1 + TailSize(p, s[b + 1..]) <= HeadStart(p, s[..a'], word)
  {
    var s := Lex(START, text).Sanitized();
    PlaceholdersApart(text, p, a, b, a', b', word);
    HeadIsUnquoted(p, s[..a'], word);
    TailHasNoHead(p, s[b + 1..]);
    HeadAfter(s, s[..a'], s[b + 1..], b, HeadStart(p, s[..a'], word), TailSize(p, s[b + 1..]), HeadLetter(p));
  }

  lemma HeadAfter(s: string, front: string, back: string, b: nat, h: nat, tail: nat, letter: char)
    requires b < |front| <= |s| && front == s[..|front|] && back == s[b + 1..] && IsQuote(s[b])
    requires h < |front| && front[h] == letter && forall i :: h <= i < |front| ==> !IsQuote(front[i])
    requires tail <= |back| && forall i :: 0 <= i < tail ==> back[i] != letter
    ensures b + 1 + tail <= h
  {
    assert front[b] == s[b];
    var i := h - b - 1;
    assert 0 <= i < |back| ==> back[i] == front[h];
  }

  lemma PlaceholdersApart(text: string, p: Pattern, a: nat, b: nat, a': nat, b': nat, word: char -> bool)
    requires var s := Lex(START, text).Sanitized(); Captures(p, s, a, b, word) && Captures(p, s, a', b', word)
    requires a < a'
    ensures b < a'
  {
    var k := CaptureIsPlaceholder(text, p, a, b, word);
    var k' := CaptureIsPlaceholder(text, p, a', b', word);
    QuotesBelong(text);
    SpansApart(Spans(Lex(START, text).out), k, k');
  }

  lemma SpansApart(spans: seq<Span>, k: nat, k': nat)
    requires Ordered(spans) && k < |spans| && k' < |spans| && spans[k].first < spans[k'].first
    ensures spans[k].last < spans[k'].first
  {
  }

  /** The matches a search from left to right can find one after another: `begins` and `ends` are
      where the match of a capture begins and ends. */
  ghost predicate Sequential(captures: (nat, nat) -> bool, begins: nat -> nat, ends: nat -> nat) {
    forall a: nat, b: nat, a': nat, b': nat :: captures(a, b) && captures(a', b') && a < a' ==> ends(b) <= begins(a')
  }

  /** `re.findall`: each search goes on where the last match ended. When no match begins inside
      another it finds them all. */
  method FindAll(s: string, captures: (nat, nat) -> bool, begins: nat -> nat, ends: nat -> nat)
    returns (found: set<string>)
    requires forall a: nat, b: nat :: captures(a, b) ==> b == NextQuote(s, a + 1) && b < |s|
    requires Sequential(captures, begins, ends)
    ensures found == AllCaptures(s, captures)
  {
    found := {};
    var end := 0;
    for a := 0 to |s|
      invariant found == set a': nat, b: nat | 0 <= a' < a && a' < b < |s| && captures(a', b) :: s[a' + 1..b]
      invariant forall a': nat, b: nat :: captures(a', b) && a <= a' ==> end <= begins(a')
    {
      var b := NextQuote(s, a + 1);
      if captures(a, b) && end <= begins(a) {
        found := found + {s[a + 1..b]};
        end := ends(b);
      }
    }
  }

  function Begins(p: Pattern, s: string, word: char -> bool): nat -> nat {
    (a: nat) => if a <= |s| && HeadMatches(p, s[..a], word) then HeadStart(p, s[..a], word) else 0
  }

  function Ends(p: Pattern, s: string): nat -> nat {
    (b: nat) => if b < |s| && TailMatches(p, s[b + 1..]) then b + 1 + TailSize(p, s[b + 1..]) else 0
  }

  lemma BeginsAndEnds(p: Pattern, s: string, a: nat, b: nat, word: char -> bool)
    requires Captures(p, s, a, b, word)
    ensures Begins(p, s, word)(a) == HeadStart(p, s[..a], word)
    ensures Ends(p, s)(b) == b + 1 + TailSize(p, s[b + 1..])
  {
  }

  lemma PatternIsSequential(text: string, p: Pattern, word: char -> bool)
    ensures var s := Lex(START, text).Sanitized(); Sequential(Capturing(p, s, word), Begins(p, s, word), Ends(p, s))
  {
    hide Captures, Begins, Ends, HeadStart, TailSize;
    var s := Lex(START, text).Sanitized();
    forall a: nat, b: nat, a': nat, b': nat | Captures(p, s, a, b, word) && Captures(p, s, a', b', word) && a < a'
      ensures Ends(p, s)(b) <= Begins(p, s, word)(a')
    {
      BeginsAndEnds(p, s, a, b, word);
      BeginsAndEnds(p, s, a', b', word);
      MatchesApart(text, p, a, b, a', b', word);
    }
  }

  lemma CaptureEnds(p: Pattern, s: string, word: char -> bool)
    ensures forall a: nat, b: nat :: Capturing(p, s, word)(a, b) ==> b == NextQuote(s, a + 1) && b < |s|
  {
    forall a: nat, b: nat | Captures(p, s, a, b, word)
      ensures b == NextQuote(s, a + 1) && b < |s|
    {
    }
  }

  method CollectPattern(p: Pattern, text: string, s: string, strings: seq<string>, word: char -> bool)
    returns (specs: set<string>)
    requires s == Lex(START, text).Sanitized() && strings == Lex(START, text).strings
    ensures specs == SpecsOf(p, text, word)
  {
    PatternIsSequential(text, p, word);
    CaptureEnds(p, s, word);
    var captures := FindAll(s, Capturing(p, s, word), Begins(p, s, word), Ends(p, s));
    forall c | c in captures
      ensures Lookup(c, strings).Some?
    {
      CapturesLookUp(text, p, word, c);
    }
    specs := set c | c in captures :: strings[PlaceholderIndex(c).value];
  }

  /** The script's loops. That every index it looks up lies inside the side table is part of what
      is proved. */
  method CollectImports(text: string, word: char -> bool) returns (specs: set<string>)
    ensures specs == ImportsOf(text, word)
  {
    var s, strings := Sanitize(text);
    specs := {};
    for i := 0 to |PATTERNS|
      invariant specs == SpecsOfAll(PATTERNS[..i], text, word)
    {
      var found := CollectPattern(PATTERNS[i], text, s, strings, word);
      assert PATTERNS[..i + 1][..i] == PATTERNS[..i];
      specs := specs + found;
    }
    assert PATTERNS[..|PATTERNS|] == PATTERNS;
  }
}
