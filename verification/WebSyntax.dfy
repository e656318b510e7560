/** The import syntax the five patterns look for, written out. */
module WebSyntax {
  import opened Text
  import opened WebLexer
  import opened WebImports
  import opened WebLexerLaws
  import opened WebOrigins
  import opened WebImportLaws
  import opened WebGrammar

  // ---- what stands before the quote, and behind it ----

  predicate Starts(front: string, word: char -> bool) { front == [] || !word(front[|front| - 1]) }

  /** `s` ends in a keyword of its own and white space. */
  ghost predicate EndsInWord(s: string, keyword: string, word: char -> bool) {
    exists front, gap :: s == front + keyword + gap && Starts(front, word) && AllSpace(gap)
  }

  /** `s` ends in an opening parenthesis, with white space on both sides, and `t` before that. */
  ghost predicate EndsInParenthesis(s: string, t: string) {
    exists gap, after :: s == t + gap + "(" + after && AllSpace(gap) && AllSpace(after)
  }

  ghost predicate EndsInCall(s: string, keyword: string, word: char -> bool) {
    exists front :: Starts(front, word) && EndsInParenthesis(s, front + keyword)
  }

  ghost predicate EndsInNewUrl(s: string) {
    exists front, gap :: gap != [] && AllSpace(gap) && EndsInParenthesis(s, front + "new" + gap + "URL")
  }

  ghost predicate HeadSyntax(p: Pattern, s: string, word: char -> bool) {
    match p
    case FromClause => EndsInWord(s, "from", word)
    case SideEffect => EndsInWord(s, "import", word)
    case DynamicImport => EndsInCall(s, "import", word)
    case RequireCall => EndsInCall(s, "require", word)
    case WorkerUrl => EndsInNewUrl(s)
  }

  ghost predicate TailSyntax(p: Pattern, s: string) {
    match p
    case RequireCall => exists gap, more :: s == gap + ")" + more && AllSpace(gap)
    case WorkerUrl =>
      exists gap, after, more :: s == gap + "," + (after + "import.meta.url" + more) && AllSpace(gap) && AllSpace(after)
    case _ => true
  }

  // ---- stripping undone ----

  predicate Solid(s: string) { s != [] && !IsSpace(s[0]) && !IsSpace(s[|s| - 1]) }

  lemma {:induction false} TrailingSpace(s: string) returns (gap: string)
    ensures s == StripRight(s) + gap && AllSpace(gap)
  {
    if s != [] && IsSpace(s[|s| - 1]) {
      gap := TrailingSpace(s[..|s| - 1]);
      gap := gap + [s[|s| - 1]];
      assert s == s[..|s| - 1] + [s[|s| - 1]];
    } else {
      gap := [];
    }
  }

  lemma {:induction false} LeadingSpace(s: string) returns (gap: string)
    ensures s == gap + StripLeft(s) && AllSpace(gap)
  {
    if s != [] && IsSpace(s[0]) {
      gap := LeadingSpace(s[1..]);
      gap := [s[0]] + gap;
      assert s == [s[0]] + s[1..];
    } else {
      gap := [];
    }
  }

  /** `s` without trailing space ends in the solid `mark` exactly when it is that with a gap behind. */
  lemma EndsExactly(s: string, mark: string) returns (front: string, gap: string)
    requires Solid(mark)
    ensures EndsWith(StripRight(s), mark) ==>
              s == front + mark + gap && AllSpace(gap) && front == StripRight(s)[..|StripRight(s)| - |mark|]
  {
    var t := StripRight(s);
    gap := TrailingSpace(s);
    front := if EndsWith(t, mark) then t[..|t| - |mark|] else [];
  }

  lemma EndsBack(front: string, mark: string, gap: string)
    requires Solid(mark) && AllSpace(gap)
    ensures StripRight(front + mark + gap) == front + mark && EndsWith(front + mark, mark)
    ensures (front + mark)[..|front + mark| - |mark|] == front
  {
    StripRightSpace(gap, front + mark);
  }

  lemma KeywordAt(front: string, keyword: string, word: char -> bool)
    requires keyword != []
    ensures EndsWith(front + keyword, keyword) && (EndsWithWord(front + keyword, keyword, word) <==> Starts(front, word))
  {
    var t := front + keyword;
    assert t[|t| - |keyword|..] == keyword;
    assert front != [] ==> t[|t| - |keyword| - 1] == front[|front| - 1];
  }

  lemma WordExactly(s: string, keyword: string, word: char -> bool)
    requires Solid(keyword)
    ensures EndsWithWord(StripRight(s), keyword, word) <==> EndsInWord(s, keyword, word)
  {
    hide StripRight, AllSpace, EndsWith;
    if EndsWithWord(StripRight(s), keyword, word) {
      var front, gap := EndsExactly(s, keyword);
      SplitEnd(StripRight(s), keyword);
      KeywordAt(front, keyword, word);
      assert s == front + keyword + gap && Starts(front, word);
    }
    if EndsInWord(s, keyword, word) {
      var front, gap :| s == front + keyword + gap && Starts(front, word) && AllSpace(gap);
      EndsBack(front, keyword, gap);
      KeywordAt(front, keyword, word);
    }
  }

  lemma SplitEnd(t: string, mark: string)
    requires EndsWith(t, mark)
    ensures |mark| <= |t| && t == t[..|t| - |mark|] + mark
  {
  }

  /** `s` ends in a parenthesis with `u` before it, up to white space. */
  lemma ParenthesisExactly(s: string, mark: string) returns (front: string)
    requires Solid(mark)
    ensures var t := StripRight(s);
            EndsWith(t, "(") && EndsWith(StripRight(t[..|t| - 1]), mark) ==>
              EndsInParenthesis(s, front + mark) && front + mark == StripRight(t[..|t| - 1])
  {
    var t := StripRight(s);
    front := [];
    if EndsWith(t, "(") && EndsWith(StripRight(t[..|t| - 1]), mark) {
      var before, after := EndsExactly(s, "(");
      var gap;
      front, gap := EndsExactly(before, mark);
      assert s == (front + mark) + gap + "(" + after;
    }
  }

  lemma ParenthesisBack(s: string, u: string)
    requires u != [] && !IsSpace(u[|u| - 1]) && EndsInParenthesis(s, u)
    ensures var t := StripRight(s); EndsWith(t, "(") && StripRight(t[..|t| - 1]) == u
  {
    var gap, after :| s == u + gap + "(" + after && AllSpace(gap) && AllSpace(after);
    EndsBack(u + gap, "(", after);
    StripRightSpace(gap, u);
  }

  lemma CallExactly(s: string, keyword: string, word: char -> bool)
    requires Solid(keyword)
    ensures var t := StripRight(s);
            EndsWith(t, "(") && EndsWithWord(StripRight(t[..|t| - 1]), keyword, word) <==> EndsInCall(s, keyword, word)
  {
    hide StripRight, AllSpace, EndsInParenthesis;
    var t := StripRight(s);
    if EndsWith(t, "(") && EndsWithWord(StripRight(t[..|t| - 1]), keyword, word) {
      var front := ParenthesisExactly(s, keyword);
      KeywordAt(front, keyword, word);
      assert Starts(front, word);
    }
    if EndsInCall(s, keyword, word) {
      var front :| Starts(front, word) && EndsInParenthesis(s, front + keyword);
      assert (front + keyword)[|front + keyword| - 1] == keyword[|keyword| - 1];
      ParenthesisBack(s, front + keyword);
      KeywordAt(front, keyword, word);
    }
  }

  lemma NewUrlExactly(s: string, word: char -> bool)
    ensures HeadMatches(WorkerUrl, s, word) <==> EndsInNewUrl(s)
  {
    hide StripRight, AllSpace, EndsWith, EndsInParenthesis;
    var t := StripRight(s);
    if HeadMatches(WorkerUrl, s, word) {
      var v := ParenthesisExactly(s, "URL");
      assert v == (v + "URL")[..|v + "URL"| - 3];
      var front, gap := EndsExactly(v, "new");
      SplitEnd(StripRight(v), "new");
      assert v + "URL" == front + "new" + gap + "URL";
      assert gap != [];
    }
    if EndsInNewUrl(s) {
      var front, gap :| gap != [] && AllSpace(gap) && EndsInParenthesis(s, front + "new" + gap + "URL");
      NewUrlBack(s, front, gap, word);
    }
  }

  lemma NewUrlBack(s: string, front: string, gap: string, word: char -> bool)
    requires gap != [] && AllSpace(gap) && EndsInParenthesis(s, front + "new" + gap + "URL")
    ensures HeadMatches(WorkerUrl, s, word)
  {
    hide StripRight, AllSpace, EndsInParenthesis;
    var v := front + "new" + gap;
    ParenthesisBack(s, v + "URL");
    assert (v + "URL")[..|v + "URL"| - 3] == v && (v + "URL")[|v + "URL"| - 3..] == "URL";
    EndsBack(front, "new", gap);
    assert |front + "new"| < |v|;
  }

  /** What stands before the opening quote matches exactly when it is the pattern's syntax. */
  lemma HeadExactly(p: Pattern, s: string, word: char -> bool)
    ensures HeadMatches(p, s, word) <==> HeadSyntax(p, s, word)
  {
    hide StripRight, EndsInWord, EndsInCall, EndsInNewUrl, EndsWithWord;
    match p
    case FromClause => WordExactly(s, "from", word);
    case SideEffect => WordExactly(s, "import", word);
    case DynamicImport => CallExactly(s, "import", word);
    case RequireCall => CallExactly(s, "require", word);
    case WorkerUrl => NewUrlExactly(s, word);
  }

  lemma PrefixExactly(s: string, mark: string) returns (gap: string, more: string)
    requires Solid(mark)
    ensures SpacedPrefix(s, mark) ==> s == gap + mark + more && AllSpace(gap) && StripLeft(s) == mark + more
  {
    gap := LeadingSpace(s);
    var t := StripLeft(s);
    more := if StartsWith(t, mark) then t[|mark|..] else [];
  }

  lemma PrefixBack(gap: string, mark: string, more: string)
    requires Solid(mark) && AllSpace(gap)
    ensures SpacedPrefix(gap + mark + more, mark) && StripLeft(gap + mark + more) == mark + more
  {
    StripLeftSpace(gap, mark + more);
    assert gap + mark + more == gap + (mark + more);
  }

  /** And so what stands behind the closing quote. */
  lemma TailExactly(p: Pattern, s: string)
    ensures TailMatches(p, s) <==> TailSyntax(p, s)
  {
    match p
    case RequireCall =>
      if TailMatches(p, s) {
        var gap, more := PrefixExactly(s, ")");
      }
      if TailSyntax(p, s) {
        var gap, more :| s == gap + ")" + more && AllSpace(gap);
        PrefixBack(gap, ")", more);
      }
    case WorkerUrl => UrlTail(s);
    case _ =>
  }

  lemma UrlTail(s: string)
    ensures TailMatches(WorkerUrl, s) <==> TailSyntax(WorkerUrl, s)
  {
    if TailMatches(WorkerUrl, s) {
      var gap, rest := PrefixExactly(s, ",");
      var after, more := PrefixExactly(rest, "import.meta.url");
      assert s == gap + "," + (after + "import.meta.url" + more);
    }
    if TailSyntax(WorkerUrl, s) {
      var gap, after, more :| s == gap + "," + (after + "import.meta.url" + more) && AllSpace(gap) && AllSpace(after);
      var rest := after + "import.meta.url" + more;
      PrefixBack(gap, ",", rest);
      PrefixBack(after, "import.meta.url", more);
      assert ("," + rest)[1..] == rest;
    }
  }

  // ---- imports found ----

  /** The imports of a text are exactly the literals in code position with the syntax of one of the
      five forms around them in the output. */
  ghost predicate ImportWritten(text: string, p: Pattern, n: nat, st: State, spec: string, word: char -> bool) {
    && ReadAt(START, text, n, st, spec)
    && HeadSyntax(p, st.Sanitized(), word) && TailSyntax(p, Behind(text, n, st))
  }

  lemma ImportsAreWritten(text: string, word: char -> bool, spec: string)
    ensures spec in ImportsOf(text, word) <==> exists p, n: nat, st :: ImportWritten(text, p, n, st, spec, word)
  {
    ImportsExactly(text, word, spec);
    forall p, n: nat, st
      ensures ImportWritten(text, p, n, st, spec, word) <==> ImportAt(text, p, n, st, spec, word)
    {
      HeadExactly(p, st.Sanitized(), word);
      if n < |text| {
        TailExactly(p, Behind(text, n, st));
      }
    }
  }

  /** In particular what is written before a literal in the five forms matches, with any white space
      and nothing of a word in front. */
  lemma FiveForms(front: string, gap: string, space: string, after: string, word: char -> bool)
    requires Starts(front, word) && AllSpace(gap) && AllSpace(space) && AllSpace(after)
    ensures HeadMatches(FromClause, front + "from" + gap, word)
    ensures HeadMatches(SideEffect, front + "import" + gap, word)
    ensures HeadMatches(DynamicImport, (front + "import") + gap + "(" + after, word)
    ensures HeadMatches(RequireCall, (front + "require") + gap + "(" + after, word)
    ensures space != [] ==> HeadMatches(WorkerUrl, (front + "new" + space + "URL") + gap + "(" + after, word)
  {
    hide HeadMatches, AllSpace, Starts;
    HeadExactly(FromClause, front + "from" + gap, word);
    HeadExactly(SideEffect, front + "import" + gap, word);
    HeadExactly(DynamicImport, (front + "import") + gap + "(" + after, word);
    HeadExactly(RequireCall, (front + "require") + gap + "(" + after, word);
    HeadExactly(WorkerUrl, (front + "new" + space + "URL") + gap + "(" + after, word);
    assert EndsInParenthesis((front + "import") + gap + "(" + after, front + "import");
    assert EndsInParenthesis((front + "require") + gap + "(" + after, front + "require");
    assert EndsInParenthesis((front + "new" + space + "URL") + gap + "(" + after, front + "new" + space + "URL");
  }

  /** And plain text in code position with that around a literal imports it. */
  lemma SyntaxFound(p: string, m: Import, rest: string, st: State, word: char -> bool)
    requires Visits(START, p + (m.Text() + rest), |p|, st)
    requires AllPlain(m.head) && AllPlain(m.tail) && ClosedLiteral(m.quote, m.raw + [m.quote])
    requires HeadSyntax(m.pattern, st.Sanitized() + m.head, word) && TailSyntax(m.pattern, m.tail)
    ensures m.Spec() in ImportsOf(p + (m.Text() + rest), word)
  {
    hide Visits, HeadSyntax, TailSyntax, HeadMatches, TailMatches;
    HeadExactly(m.pattern, st.Sanitized() + m.head, word);
    TailExactly(m.pattern, m.tail);
    ImportFound(p, m, rest, st, word);
  }

  /** An import inside an interpolation, behind any code with its braces closed, is found. */
  lemma ImportInTemplate(before: string, head: seq<Mark>, code: Code, m: Import, rest: string, st: State, word: char -> bool)
    returns (text: string)
    requires TemplateMarks(head) && Written(code, st.out + [" "], |st.strings|, m.Text() + rest)
    requires Visits(START, before + ("`" + Spelled(head, "${" + Source(code, m.Text() + rest))), |before|, st)
    requires AllPlain(m.head) && AllPlain(m.tail) && ClosedLiteral(m.quote, m.raw + [m.quote])
    requires HeadSyntax(m.pattern, Concat(st.out + [" "] + Shown(code, |st.strings|)) + m.head, word)
    requires TailSyntax(m.pattern, m.tail)
    ensures text == before + ("`" + Spelled(head, "${" + Source(code, m.Text() + rest)))
    ensures m.Spec() in ImportsOf(text, word)
  {
    hide Step, HeadSyntax, TailSyntax, HeadMatches, TailMatches, Written, RegexMayStart;
    var s := "`" + Spelled(head, "${" + Source(code, m.Text() + rest));
    text := before + s;
    var end := InterpolationEntered(head, code, st, m.Text() + rest);
    var n := |s| - |m.Text() + rest|;
    assert text[|before|..] == s;
    VisitsOnward(START, text, |before|, st, n, end);
    var p := text[..|before| + n];
    DropDrop(text, |before|, n);
    assert text == p + (m.Text() + rest);
    SyntaxFound(p, m, rest, end, word);
  }
}
