/** What an import edge proves about the text, and which text proves an import edge. */
module WebImportLaws {
  import opened Text
  import opened WebLexer
  import opened WebLexerLaws
  import opened WebPlaceholders
  import opened WebOrigins
  import opened WebImports

  // ---- where an import comes from ----

  /** Offset `n` is in code position with state `st`, and opens a string literal with this body. */
  ghost predicate ReadAt(from: State, s: string, n: nat, st: State, literal: string) {
    && n < |s| && Visits(from, s, n, st)
    && IsQuote(s[n]) && literal == ScanLiteral(s[n], s[n + 1..]).body
  }

  /** Each entry of the side table was read in code position, when the table stood there. */
  lemma {:induction false} EntryRead(from: State, s: string, k: nat) returns (n: nat, st: State)
    requires |from.strings| <= k < |Lex(from, s).strings|
    ensures ReadAt(from, s, n, st, Lex(from, s).strings[k]) && |st.strings| == k
    decreases |s|
  {
    hide Step, ScanLiteral, IsQuote;
    var (next, size) := Step(from, s);
    var chunk, table := StepAdds(from, s);
    var rest := s[size..];
    if k < |next.strings| {
      n, st := 0, from;
      var more, later := LexAdds(next, rest);
    } else {
      var m;
      m, st := EntryRead(next, rest, k);
      n := size + m;
      DropDrop(s, size, m + 1);
    }
  }

  /** The output behind the placeholder of the literal that opens at `n`. */
  ghost function Behind(text: string, n: nat, st: State): string
    requires n < |text|
  {
    var s, k := Lex(START, text).Sanitized(), |st.Sanitized()| + |Placeholder(text[n], |st.strings|)|;
    if k <= |s| then s[k..] else []
  }

  /** At offset `n` the text imports `spec`: a string literal in code position with that body, the
      output up to it ending as the pattern wants, and the output behind it going on as it wants. */
  ghost predicate ImportAt(text: string, p: Pattern, n: nat, st: State, spec: string, word: char -> bool) {
    && ReadAt(START, text, n, st, spec)
    && HeadMatches(p, st.Sanitized(), word) && TailMatches(p, Behind(text, n, st))
  }

  lemma {:induction false} SpecFrom(patterns: seq<Pattern>, text: string, word: char -> bool, spec: string)
    returns (p: Pattern)
    requires spec in SpecsOfAll(patterns, text, word)
    ensures p in patterns && spec in SpecsOf(p, text, word)
  {
    p := patterns[|patterns| - 1];
    if spec !in SpecsOf(p, text, word) {
      p := SpecFrom(patterns[..|patterns| - 1], text, word, spec);
    }
  }

  lemma {:induction false} SpecIn(patterns: seq<Pattern>, text: string, word: char -> bool, spec: string, p: Pattern)
    requires p in patterns && spec in SpecsOf(p, text, word)
    ensures spec in SpecsOfAll(patterns, text, word)
  {
    if patterns[|patterns| - 1] != p {
      SpecIn(patterns[..|patterns| - 1], text, word, spec, p);
    }
  }

  lemma EveryPattern(p: Pattern)
    ensures p in PATTERNS
  {
    assert p == PATTERNS[match p case FromClause => 0 case SideEffect => 1 case DynamicImport => 2
                                 case WorkerUrl => 3 case RequireCall => 4];
  }

  lemma LookedUp(p: Pattern, text: string, word: char -> bool, k: nat)
    requires var st := Lex(START, text);
             k < |st.strings| && ['\0'] + Decimal(k) + ['\0'] in CapturesOf(p, st.Sanitized(), word)
    ensures Lex(START, text).strings[k] in ImportsOf(text, word)
  {
    IndexOfPlaceholder(k);
    var spec := Lex(START, text).strings[k];
    assert spec in SpecsOf(p, text, word);
    EveryPattern(p);
    SpecIn(PATTERNS, text, word, spec, p);
  }

  /** The placeholder of a literal in code position, its quotes and what stands around it. */
  lemma PlaceholderThere(text: string, n: nat, st: State)
    requires n < |text| && Visits(START, text, n, st) && IsQuote(text[n])
    ensures var end, k := Lex(START, text), |st.strings|;
            var s, a, b := end.Sanitized(), |st.Sanitized()|, |st.Sanitized()| + |Placeholder(text[n], k)| - 1;
            && k < |Spans(end.out)| == |end.strings| && Spans(end.out)[k] == Span(a, b)
            && end.strings[k] == ScanLiteral(text[n], text[n + 1..]).body
            && Quoted(s, a, b) && s[a + 1..b] == ['\0'] + Decimal(k) + ['\0']
            && s[..a] == st.Sanitized() && s[b + 1..] == Behind(text, n, st)
  {
    hide Step, Lex, Spans, Quoted, Behind, Placeholder, ScanLiteral;
    var end := Lex(START, text);
    SpanOfLiteral(text, n, st);
    QuotesBelong(text);
    SplitAt(text, n, st);
    ThreeParts(st.Sanitized(), Placeholder(text[n], |st.strings|), Behind(text, n, st));
    HeldInside(end.Sanitized(), Spans(end.out)[|st.strings|], |st.strings|);
    HeldQuoted(end.Sanitized(), Spans(end.out)[|st.strings|], |st.strings|);
    EntryOfLiteral(text, n, st);
  }

  lemma ThreeParts(x: string, c: string, y: string)
    ensures var s := x + c + y; s[..|x|] == x && s[|x| + |c|..] == y
  {
  }

  lemma SplitAt(text: string, n: nat, st: State)
    requires n < |text| && Visits(START, text, n, st) && IsQuote(text[n])
    ensures var s, c := Lex(START, text).Sanitized(), Placeholder(text[n], |st.strings|);
            s == st.Sanitized() + c + Behind(text, n, st)
  {
    hide Step, Lex;
    var rest := OutputSoFar(text, n, st);
    var chunk, table := StepAdds(st, text[n..]);
  }

  lemma HeldQuoted(s: string, span: Span, k: nat)
    requires Holds(s, span, k)
    ensures Quoted(s, span.first, span.last)
  {
    forall i | span.first <= i <= span.last
      ensures IsQuote(s[i]) <==> i == span.first || i == span.last
    {
      HeldAt(s, span, k, i);
    }
    HeldAt(s, span, k, span.first);
  }

  lemma EntryOfLiteral(text: string, n: nat, st: State)
    requires n < |text| && Visits(START, text, n, st) && IsQuote(text[n])
    ensures var end := Lex(START, text);
            |st.strings| < |end.strings| && end.strings[|st.strings|] == ScanLiteral(text[n], text[n + 1..]).body
  {
    hide Step;
    LexFromVisit(START, text, n, st);
    var (next, k) := Step(st, text[n..]);
    var chunk, table := StepAdds(st, text[n..]);
    var more, later := LexAdds(next, text[n..][k..]);
    DropDrop(text, n, 1);
  }

  /** The imports of a text are exactly the bodies of string literals in code position with import
      syntax around them in the output, which outside placeholders is blank or copied code. */
  lemma ImportsExactly(text: string, word: char -> bool, spec: string)
    ensures spec in ImportsOf(text, word) <==> exists p, n, st :: ImportAt(text, p, n, st, spec, word)
  {
    if spec in ImportsOf(text, word) {
      var p, n, st := ImportComesFrom(text, word, spec);
    }
    forall p, n, st | ImportAt(text, p, n, st, spec, word)
      ensures spec in ImportsOf(text, word)
    {
      ImportIsFound(text, p, n, st, spec, word);
    }
  }

  lemma SpecCaptured(text: string, word: char -> bool, spec: string) returns (p: Pattern, a: nat, b: nat, k: nat)
    requires spec in ImportsOf(text, word)
    ensures var end := Lex(START, text);
            && Captures(p, end.Sanitized(), a, b, word)
            && k < |end.strings| == |Spans(end.out)| && Spans(end.out)[k] == Span(a, b) && end.strings[k] == spec
  {
    hide Step, Lex, HeadMatches, TailMatches, Quoted;
    p := SpecFrom(PATTERNS, text, word, spec);
    var end := Lex(START, text);
    var s := end.Sanitized();
    var c :| c in CapturesOf(p, s, word) && Lookup(c, end.strings) == Some(spec);
    a, b :| 0 <= a < b < |s| && Captures(p, s, a, b, word) && c == s[a + 1..b];
    k := CaptureIsPlaceholder(text, p, a, b, word);
  }

  lemma ImportComesFrom(text: string, word: char -> bool, spec: string) returns (p: Pattern, n: nat, st: State)
    requires spec in ImportsOf(text, word)
    ensures ImportAt(text, p, n, st, spec, word)
  {
    hide Step, Lex, HeadMatches, TailMatches, Quoted, Behind, ImportsOf, Spans;
    var a, b, k;
    p, a, b, k := SpecCaptured(text, word, spec);
    n, st := EntryRead(START, text, k);
    PlaceholderThere(text, n, st);
  }

  lemma ImportIsFound(text: string, p: Pattern, n: nat, st: State, spec: string, word: char -> bool)
    requires ImportAt(text, p, n, st, spec, word)
    ensures spec in ImportsOf(text, word)
  {
    hide Step, Lex, HeadMatches, TailMatches;
    PlaceholderThere(text, n, st);
    var a, b := |st.Sanitized()|, |st.Sanitized()| + |Placeholder(text[n], |st.strings|)| - 1;
    assert Capturing(p, Lex(START, text).Sanitized(), word)(a, b);
    LookedUp(p, text, word, |st.strings|);
  }

  // ---- comments cannot add or hide an import ----

  lemma InertImports(p: string, a: Inert, b: Inert, rest: string, st: State, word: char -> bool)
    requires a.SameKind(b) && a.Closed(rest) && b.Closed(rest)
    requires Visits(START, p + (a.Text() + rest), |p|, st)
    ensures ImportsOf(p + (b.Text() + rest), word) == ImportsOf(p + (a.Text() + rest), word)
  {
    InertBody(p, a, b, rest, st);
    SameLexSameSpecs(PATTERNS, p + (a.Text() + rest), p + (b.Text() + rest), word);
  }

  lemma {:induction false} SameLexSameSpecs(patterns: seq<Pattern>, s: string, t: string, word: char -> bool)
    requires Lex(START, s) == Lex(START, t)
    ensures SpecsOfAll(patterns, s, word) == SpecsOfAll(patterns, t, word)
  {
    if patterns != [] {
      SameLexSameSpecs(patterns[..|patterns| - 1], s, t, word);
    }
  }

  /** Rewriting the body of a regex literal changes no import. */
  lemma RegexImports(p: string, x: string, y: string, rest: string, st: State, word: char -> bool)
    requires RegexMayStart(st.out) && RegexRest(x, rest) && RegexRest(y, rest)
    requires Visits(START, p + ("/" + x + rest), |p|, st)
    ensures ImportsOf(p + ("/" + y + rest), word) == ImportsOf(p + ("/" + x + rest), word)
  {
    RegexBody(p, x, y, rest, st);
    SameLexSameSpecs(PATTERNS, p + ("/" + x + rest), p + ("/" + y + rest), word);
  }

  // ---- import syntax ----

  /** A character the main loop copies in every state. */
  predicate IsPlain(c: char) {
    c != '/' && !IsQuote(c) && c != '`' && c != '{' && c != '}'
  }

  ghost predicate AllPlain(s: string) {
    forall i :: 0 <= i < |s| ==> IsPlain(s[i])
  }

  lemma PlainStep(st: State, s: string)
    requires s != [] && IsPlain(s[0])
    ensures Step(st, s) == (st.Emit([s[0]]), 1) && st.Emit([s[0]]).Sanitized() == st.Sanitized() + [s[0]]
  {
    assert st.Emit([s[0]]).out[..|st.out|] == st.out;
  }

  lemma {:induction false} PlainRun(st: State, h: string, rest: string) returns (end: State)
    requires AllPlain(h)
    ensures Visits(st, h + rest, |h|, end)
    ensures end.Sanitized() == st.Sanitized() + h && end.strings == st.strings
    decreases |h|
  {
    hide Step;
    if h == [] {
      end := st;
    } else {
      assert IsPlain(h[0]);
      PlainStep(st, h + rest);
      DropJoin(h, rest, 1);
      end := PlainRun(st.Emit([h[0]]), h[1..], rest);
      assert st.Sanitized() + [h[0]] + h[1..] == st.Sanitized() + h;
    }
  }

  lemma TailGrows(p: Pattern, tail: string, more: string)
    requires TailMatches(p, tail)
    ensures TailMatches(p, tail + more)
  {
    match p
    case RequireCall => SpacedPrefixGrows(tail, ")", more);
    case WorkerUrl =>
      var t := StripLeft(tail);
      SpacedPrefixGrows(tail, ",", more);
      SpacedPrefixGrows(t[1..], "import.meta.url", more);
      assert (t + more)[1..] == t[1..] + more;
    case _ =>
  }

  lemma SpacedPrefixGrows(s: string, prefix: string, more: string)
    requires prefix != [] && SpacedPrefix(s, prefix)
    ensures SpacedPrefix(s + more, prefix) && StripLeft(s + more) == StripLeft(s) + more
  {
    var t := StripLeft(s);
    StripLeftGrows(s, more);
    assert (t + more)[..|prefix|] == t[..|prefix|];
  }

  lemma {:induction false} StripLeftGrows(s: string, more: string)
    requires StripLeft(s) != []
    ensures StripLeft(s + more) == StripLeft(s) + more
  {
    if IsSpace(s[0]) {
      assert (s + more)[1..] == s[1..] + more;
      StripLeftGrows(s[1..], more);
    }
  }

  /** Text in import syntax: what stands before the literal, the literal as written and what
      follows it. */
  datatype Import = Import(pattern: Pattern, head: string, quote: char, raw: string, tail: string) {
    function Text(): string { head + ([quote] + ((raw + [quote]) + tail)) }

    function Spec(): string { ScanLiteral(quote, raw + [quote]).body }

    /** `before` is the output in front of it. */
    ghost predicate WellFormed(before: string, word: char -> bool) {
      && AllPlain(head) && AllPlain(tail) && ClosedLiteral(quote, raw + [quote])
      && HeadMatches(pattern, before + head, word) && TailMatches(pattern, tail)
    }
  }

  /** In particular import syntax on plain text in code position yields its specifier, escapes in
      the literal undone. */
  lemma ImportFound(p: string, m: Import, rest: string, st: State, word: char -> bool)
    requires Visits(START, p + (m.Text() + rest), |p|, st)
    requires m.WellFormed(st.Sanitized(), word)
    ensures m.Spec() in ImportsOf(p + (m.Text() + rest), word)
  {
    hide Step, Lex, HeadMatches, TailMatches;
    var text := p + (m.Text() + rest);
    var n, a, more := ImportRead(p, m, rest, st);
    TailGrows(m.pattern, m.tail, more);
    assert ImportAt(text, m.pattern, n, a, m.Spec(), word);
    ImportIsFound(text, m.pattern, n, a, m.Spec(), word);
  }

  /** The literal of the import is read in code position, and what follows it is kept. */
  lemma ImportRead(p: string, m: Import, rest: string, st: State) returns (n: nat, a: State, more: string)
    requires Visits(START, p + (m.Text() + rest), |p|, st)
    requires AllPlain(m.head) && AllPlain(m.tail) && ClosedLiteral(m.quote, m.raw + [m.quote])
    ensures var text := p + (m.Text() + rest);
            ReadAt(START, text, n, a, m.Spec()) && Behind(text, n, a) == m.tail + more
    ensures a.Sanitized() == st.Sanitized() + m.head
  {
    hide Step, Lex, Visits, ScanLiteral;
    var x := m.raw + [m.quote];
    var literal := [m.quote] + x + (m.tail + rest);
    var text := p + (m.Text() + rest);
    ImportSlices(p, m, rest);
    a := PlainRun(st, m.head, literal);
    n := |p| + |m.head|;
    VisitsOnward(START, text, |p|, st, |m.head|, a);
    LiteralText(text, n, literal, m.quote, x, m.tail + rest);
    more := LiteralThenPlain(a, m.quote, x, m.tail, rest);
    LexFromVisit(START, text, n, a);
    BehindIs(text, n, a, m.tail + more);
  }

  lemma ImportSlices(p: string, m: Import, rest: string)
    ensures var text, literal := p + (m.Text() + rest), [m.quote] + (m.raw + [m.quote]) + (m.tail + rest);
            && |p| + |m.head| <= |text| && text[|p|..] == m.head + literal && text[|p| + |m.head|..] == literal
            && text == p + (m.head + literal)
  {
    var literal := [m.quote] + (m.raw + [m.quote]) + (m.tail + rest);
    assert m.Text() + rest == m.head + literal;
    var s := m.head + literal;
    assert (p + s)[|p|..] == s;
    DropDrop(p + s, |p|, |m.head|);
    assert s[|m.head|..] == literal;
  }

  lemma BehindIs(text: string, n: nat, st: State, rest: string)
    requires n < |text|
    requires Lex(START, text).Sanitized() == st.Sanitized() + Placeholder(text[n], |st.strings|) + rest
    ensures Behind(text, n, st) == rest
  {
  }

  lemma LiteralText(text: string, n: nat, literal: string, quote: char, x: string, rest: string)
    requires n <= |text| && text[n..] == literal == [quote] + x + rest && ClosedLiteral(quote, x)
    ensures n < |text| && text[n] == quote
    ensures ScanLiteral(quote, text[n + 1..]) == ScanLiteral(quote, x)
  {
    assert text[n] == literal[0];
    DropDrop(text, n, 1);
    assert literal[1..] == x + rest;
    assert x[..|x| - 1 + 1] == x == (x + rest)[..|x|];
    LiteralLocal(quote, x, x + rest);
  }

  lemma LiteralThenPlain(st: State, quote: char, x: string, tail: string, rest: string) returns (more: string)
    requires ClosedLiteral(quote, x) && AllPlain(tail)
    ensures Lex(st, [quote] + x + (tail + rest)).Sanitized() ==
            st.Sanitized() + Placeholder(quote, |st.strings|) + (tail + more)
  {
    hide Step;
    LexClosedLiteral(st, quote, x, tail + rest);
    var next := st.EmitLiteral(quote, ScanLiteral(quote, x).body);
    assert next.out[..|st.out|] == st.out;
    var end := PlainRun(next, tail, rest);
    LexFromVisit(next, tail + rest, |tail|, end);
    var table;
    assert (tail + rest)[|tail|..] == rest;
    more, table := LexAdds(end, rest);
    AppendAssoc(next.Sanitized(), tail, more);
  }
}
