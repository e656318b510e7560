/** Where the characters of the sanitised text come from. */
module WebOrigins {
  import opened Text
  import opened WebLexer
  import opened WebLexerLaws
  import opened WebPlaceholders

  // ---- a run only adds ----

  /** One turn adds nothing, a blank, the character it is at, or the placeholder of the literal
      that opens there. */
  predicate Emitted(st: State, ch: char, chunk: string) {
    || chunk == [] || chunk == " " || (chunk == [ch] && !IsQuote(ch))
    || (IsQuote(ch) && chunk == Placeholder(ch, |st.strings|))
  }

  lemma StepAdds(st: State, s: string) returns (chunk: string, table: seq<string>)
    requires s != []
    ensures Step(st, s).0.Sanitized() == st.Sanitized() + chunk && Emitted(st, s[0], chunk)
    ensures Step(st, s).0.out == if chunk == [] then st.out else st.out + [chunk]
    ensures Step(st, s).0.strings == st.strings + table && |table| <= 1
    ensures if IsQuote(s[0]) then table == [ScanLiteral(s[0], s[1..]).body] && chunk == Placeholder(s[0], |st.strings|)
            else table == []
  {
    var next := Step(st, s).0;
    table := next.strings[|st.strings|..];
    if next.out == st.out {
      chunk := [];
    } else {
      chunk := next.out[|st.out|];
      assert next.out[..|st.out|] == st.out;
    }
  }

  lemma {:induction false} RunAdds(st: State, s: string) returns (more: seq<string>, table: seq<string>)
    ensures Lex(st, s).out == st.out + more && Lex(st, s).strings == st.strings + table
    decreases |s|
  {
    hide Step;
    if s == [] {
      more, table := [], [];
    } else {
      var (next, k) := Step(st, s);
      var chunk, t := StepAdds(st, s);
      var m', t' := RunAdds(next, s[k..]);
      var front := if chunk == [] then [] else [chunk];
      AppendAssoc(st.out, front, m');
      AppendAssoc(st.strings, t, t');
      more, table := front + m', t + t';
    }
  }

  lemma LexAdds(st: State, s: string) returns (more: string, table: seq<string>)
    ensures Lex(st, s).Sanitized() == st.Sanitized() + more
    ensures Lex(st, s).strings == st.strings + table
  {
    var chunks;
    chunks, table := RunAdds(st, s);
    ConcatAppend(st.out, chunks);
    more := Concat(chunks);
  }

  lemma {:induction false} VisitAdds(from: State, s: string, n: nat, st: State) returns (more: string)
    requires Visits(from, s, n, st)
    ensures st.Sanitized() == from.Sanitized() + more
    decreases |s|
  {
    hide Step;
    if n == 0 {
      more := [];
    } else {
      var (next, k) := Step(from, s);
      var chunk, _ := StepAdds(from, s);
      var later := VisitAdds(next, s[k..], n - k, st);
      AppendAssoc(from.Sanitized(), chunk, later);
      more := chunk + later;
    }
  }

  lemma VisitCons(from: State, s: string, next: State, k: nat, m: nat, end: State)
    requires s != [] && (next, k) == Step(from, s) && Visits(next, s[k..], m, end)
    ensures Visits(from, s, k + m, end)
  {
  }

  lemma {:induction false} VisitsOnward(from: State, s: string, n: nat, st: State, m: nat, end: State)
    requires n <= |s| && Visits(from, s, n, st) && Visits(st, s[n..], m, end)
    ensures Visits(from, s, n + m, end)
    decreases |s|
  {
    hide Step;
    if n == 0 {
      assert s[0..] == s;
    } else {
      var (next, k) := Step(from, s);
      DropDrop(s, k, n - k);
      VisitsOnward(next, s[k..], n - k, st, m, end);
      VisitCons(from, s, next, k, n - k + m, end);
    }
  }

  lemma {:induction false} VisitsPlaced(from: State, s: string, n: nat, st: State)
    requires Placed(from.out, |from.strings|) && Visits(from, s, n, st)
    ensures Placed(st.out, |st.strings|)
    decreases |s|
  {
    hide Step;
    if n != 0 {
      var (next, k) := Step(from, s);
      StepPlaced(from, s);
      VisitsPlaced(next, s[k..], n - k, st);
    }
  }

  /** More output means a later offset. */
  lemma {:induction false} VisitsInOrder(from: State, s: string, n: nat, st: State, m: nat, later: State)
    requires Visits(from, s, n, st) && Visits(from, s, m, later)
    requires |st.Sanitized()| < |later.Sanitized()|
    ensures n < m
    decreases |s|
  {
    hide Step;
    var more := VisitAdds(from, s, n, st);
    if n != 0 && m != 0 {
      var (next, k) := Step(from, s);
      VisitsInOrder(next, s[k..], n - k, st, m - k, later);
    }
  }

  // ---- the turn behind a position of the output ----

  /** Offset `n` of the text, in code position with state `st`, is where position `i` of the output
      is written. */
  ghost predicate WrittenAt(from: State, s: string, n: nat, st: State, i: nat) {
    && n < |s| && Visits(from, s, n, st)
    && |st.Sanitized()| <= i < |Step(st, s[n..]).0.Sanitized()|
  }

  lemma {:induction false} WritingTurn(from: State, s: string, i: nat) returns (n: nat, st: State)
    requires |from.Sanitized()| <= i < |Lex(from, s).Sanitized()|
    ensures WrittenAt(from, s, n, st, i)
    decreases |s|
  {
    hide Step;
    var (next, k) := Step(from, s);
    if i < |next.Sanitized()| {
      n, st := 0, from;
      assert s[0..] == s;
    } else {
      var m;
      m, st := WritingTurn(next, s[k..], i);
      n := k + m;
      DropDrop(s, k, m);
    }
  }

  /** The output up to a turn is the beginning of the output. */
  lemma OutputSoFar(text: string, n: nat, st: State) returns (rest: string)
    requires n < |text| && Visits(START, text, n, st)
    ensures Lex(START, text).Sanitized() == Step(st, text[n..]).0.Sanitized() + rest
    ensures st.Sanitized() <= Step(st, text[n..]).0.Sanitized() <= Lex(START, text).Sanitized()
  {
    hide Step;
    LexFromVisit(START, text, n, st);
    var (next, k) := Step(st, text[n..]);
    var chunk, _ := StepAdds(st, text[n..]);
    var table;
    rest, table := LexAdds(next, text[n..][k..]);
  }

  // ---- placeholders ----

  lemma {:induction false} SpansCount(out: seq<string>, n: nat)
    requires Placed(out, n)
    ensures |Spans(out)| == n
  {
    if out != [] {
      var init, c := out[..|out| - 1], out[|out| - 1];
      if PlainChunk(c) && Placed(init, n) {
        SpansCount(init, n);
      } else {
        PlaceholderQuotes(c, n - 1);
        SpansCount(init, n - 1);
      }
    }
  }

  lemma {:induction false} SpansPrefix(out: seq<string>, more: seq<string>)
    ensures Spans(out) <= Spans(out + more)
  {
    if more == [] {
      assert out + more == out;
    } else {
      var init := more[..|more| - 1];
      assert (out + more)[..|out + more| - 1] == out + init;
      SpansPrefix(out, init);
    }
  }

  /** The literal that opens at an offset in code position has the placeholder with its index, from
      where the output stood. */
  lemma SpanOfLiteral(text: string, n: nat, st: State)
    requires n < |text| && Visits(START, text, n, st) && IsQuote(text[n])
    ensures var end := Lex(START, text);
            var a, c := |st.Sanitized()|, Placeholder(text[n], |st.strings|);
            && |st.strings| < |Spans(end.out)| == |end.strings|
            && Spans(end.out)[|st.strings|] == Span(a, a + |c| - 1)
  {
    hide Step;
    VisitsPlaced(START, text, n, st);
    SpansCount(st.out, |st.strings|);
    LexPlaced(START, text);
    SpansCount(Lex(START, text).out, |Lex(START, text).strings|);
    LexFromVisit(START, text, n, st);
    var (next, k) := Step(st, text[n..]);
    var chunk, _ := StepAdds(st, text[n..]);
    var more, _ := RunAdds(next, text[n..][k..]);
    assert next.out[..|st.out|] == st.out;
    SpansPrefix(next.out, more);
  }

  ghost predicate InPlaceholder(text: string, i: nat) {
    var spans := Spans(Lex(START, text).out);
    exists k :: 0 <= k < |spans| && spans[k].first <= i <= spans[k].last
  }

  /** Outside the placeholders a turn writes one character: a blank, or, reading only that, the
      character it is at. */
  lemma WritesOne(text: string, i: nat, n: nat, st: State)
    requires WrittenAt(START, text, n, st, i) && i < |Lex(START, text).Sanitized()| && !InPlaceholder(text, i)
    ensures var s, (next, k) := Lex(START, text).Sanitized(), Step(st, text[n..]);
            && st.Sanitized() == s[..i] && next.Sanitized() == s[..i + 1]
            && (s[i] == ' ' || (s[i] == text[n] && !IsQuote(text[n]) && k == 1))
  {
    var chunk := OneTurn(text, i, n, st);
    hide Step;
    var rest := OutputSoFar(text, n, st);
    if IsQuote(text[n]) {
      SpanOfLiteral(text, n, st);
    }
  }

  lemma OneTurn(text: string, i: nat, n: nat, st: State) returns (chunk: string)
    requires WrittenAt(START, text, n, st, i)
    ensures Step(st, text[n..]).0.Sanitized() == st.Sanitized() + chunk && Emitted(st, text[n], chunk)
    ensures chunk == [] || chunk == " " || IsQuote(text[n]) || Step(st, text[n..]).1 == 1
  {
    var c, _ := StepAdds(st, text[n..]);
    chunk := c;
  }

  /** Every character of the output outside the placeholders is a blank, or is copied from an offset
      in code position, at which the output so far is exactly what stands before it. */
  lemma BlankOrCopied(text: string, i: nat) returns (n: nat, st: State)
    requires i < |Lex(START, text).Sanitized()| && !InPlaceholder(text, i)
    ensures WrittenAt(START, text, n, st, i)
    ensures var s := Lex(START, text).Sanitized();
            st.Sanitized() == s[..i] && (s[i] == ' ' || (s[i] == text[n] && !IsQuote(text[n])))
  {
    hide Step;
    n, st := WritingTurn(START, text, i);
    WritesOne(text, i, n, st);
  }

  /** Offset `n`, in code position, is where character `i` of the output is copied from. */
  ghost predicate CopiedFrom(text: string, i: nat, n: nat) {
    && i < |Lex(START, text).Sanitized()| && n < |text| && text[n] == Lex(START, text).Sanitized()[i]
    && exists st :: WrittenAt(START, text, n, st, i)
  }

  /** Only a line comment writes nothing, and it ends at a newline or with the text. */
  lemma SilentTurn(st: State, s: string)
    requires s != [] && Step(st, s).0.Sanitized() == st.Sanitized()
    ensures Step(st, s).0 == st
    ensures var k := Step(st, s).1; k < |s| ==> s[k] == '\n'
  {
    var chunk, _ := StepAdds(st, s);
    assert st.out[..|st.out|] == st.out;
    IndexOfStops(s, '\n');
  }

  lemma {:induction false} IndexOfStops(s: string, c: char)
    ensures IndexOf(s, c) < |s| ==> s[IndexOf(s, c)] == c
  {
    if s != [] && s[0] != c {
      IndexOfStops(s[1..], c);
    }
  }

  lemma NewlineTurn(st: State, s: string)
    requires s != [] && s[0] == '\n'
    ensures Step(st, s) == (st.Emit("\n"), 1)
  {
  }

  lemma TurnVisits(text: string, n: nat, st: State)
    requires n < |text| && Visits(START, text, n, st)
    ensures var (next, k) := Step(st, text[n..]);
            n + k <= |text| && Visits(START, text, n + k, next) && Lex(START, text) == Lex(next, text[n + k..])
  {
    hide Step;
    var (next, k) := Step(st, text[n..]);
    VisitCons(st, text[n..], next, k, 0, next);
    VisitsOnward(START, text, n, st, k, next);
    LexFromVisit(START, text, n + k, next);
  }

  /** The character behind one outside the placeholders, being neither white space nor in one
      itself, is copied from where the turn that wrote the first one ended. */
  lemma NextCopied(text: string, i: nat, n: nat, st: State)
    requires i + 1 < |Lex(START, text).Sanitized()| && WrittenAt(START, text, n, st, i)
    requires !InPlaceholder(text, i) && !InPlaceholder(text, i + 1)
    requires !IsSpace(Lex(START, text).Sanitized()[i + 1])
    ensures CopiedFrom(text, i + 1, n + Step(st, text[n..]).1)
    ensures WrittenAt(START, text, n + Step(st, text[n..]).1, Step(st, text[n..]).0, i + 1)
  {
    hide Step, Lex;
    WritesOne(text, i, n, st);
    TurnVisits(text, n, st);
    var (next, k) := Step(st, text[n..]);
    var m := n + k;
    if m == |text| {
      assert text[m..] == "";
      LexNothing(next);
      assert false;
    }
    var chunk, _ := StepAdds(next, text[m..]);
    var rest := OutputSoFar(text, m, next);
    if chunk == [] {
      AfterComment(text, m, next);
      assert false;
    } else {
      assert WrittenAt(START, text, m, next, i + 1);
      WritesOne(text, i + 1, m, next);
    }
  }

  lemma LexNothing(st: State)
    ensures Lex(st, "") == st
  {
  }

  lemma EmitAppends(st: State, chunk: string)
    ensures st.Emit(chunk).Sanitized() == st.Sanitized() + chunk
  {
    assert (st.out + [chunk])[..|st.out|] == st.out;
  }

  /** A turn that writes nothing is followed by a newline in the output, or by its end. */
  lemma AfterComment(text: string, m: nat, st: State)
    requires m < |text| && Visits(START, text, m, st) && Step(st, text[m..]).0.Sanitized() == st.Sanitized()
    ensures var s, i := Lex(START, text).Sanitized(), |st.Sanitized()|;
            |s| == i || (i < |s| && s[i] == '\n')
  {
    hide Step, Lex;
    SilentTurn(st, text[m..]);
    TurnVisits(text, m, st);
    var k := Step(st, text[m..]).1;
    if m + k < |text| {
      assert text[m..][k] == text[m + k..][0];
      NewlineTurn(st, text[m + k..]);
      var rest := OutputSoFar(text, m + k, st);
      EmitAppends(st, "\n");
    } else {
      assert text[m + k..] == "";
      LexNothing(st);
    }
  }

  /** A stretch of the output without white space, outside the placeholders, is a stretch of the
      text, all of it in code position: no word is pieced together across what is skipped. */
  lemma {:induction false} WordIsText(text: string, i: nat, j: nat) returns (n: nat)
    requires i < j <= |Lex(START, text).Sanitized()|
    requires forall k :: i <= k < j ==> !InPlaceholder(text, k) && !IsSpace(Lex(START, text).Sanitized()[k])
    ensures n + j - i <= |text| && text[n..n + j - i] == Lex(START, text).Sanitized()[i..j]
    ensures forall k, m :: i <= k < j && m == n + k - i ==> CopiedFrom(text, k, m)
  {
    hide Step, Lex, InPlaceholder;
    var s, st := Lex(START, text).Sanitized(), START;
    if j == i + 1 {
      n, st := BlankOrCopied(text, i);
    } else {
      n := WordIsText(text, i, j - 1);
      var m := n + j - 2 - i;
      assert CopiedFrom(text, j - 2, m);
      st :| WrittenAt(START, text, m, st, j - 2);
      WritesOne(text, j - 2, m, st);
      NextCopied(text, j - 2, m, st);
      assert text[n..n + j - i] == text[n..n + j - 1 - i] + [text[m + 1]];
      assert s[i..j] == s[i..j - 1] + [s[j - 1]];
    }
  }

  /** The copies keep the order of the text. */
  lemma CopiedInOrder(text: string, i: nat, n: nat, st: State, j: nat, m: nat, later: State)
    requires i < j <= |Lex(START, text).Sanitized()|
    requires Visits(START, text, n, st) && st.Sanitized() == Lex(START, text).Sanitized()[..i]
    requires Visits(START, text, m, later) && later.Sanitized() == Lex(START, text).Sanitized()[..j]
    ensures n < m
  {
    VisitsInOrder(START, text, n, st, m, later);
  }

  /** What is written as neither quote, NUL, digit nor blank is code. */
  lemma LetterIsCode(text: string, i: nat) returns (n: nat, st: State)
    requires i < |Lex(START, text).Sanitized()|
    requires var c := Lex(START, text).Sanitized()[i]; !IsQuote(c) && c != '\0' && !IsDigit(c) && c != ' '
    ensures n < |text| && Visits(START, text, n, st) && text[n] == Lex(START, text).Sanitized()[i]
    ensures st.Sanitized() == Lex(START, text).Sanitized()[..i]
  {
    var end := Lex(START, text);
    if InPlaceholder(text, i) {
      var spans := Spans(end.out);
      var k :| 0 <= k < |spans| && spans[k].first <= i <= spans[k].last;
      QuotesBelong(text);
      HeldIsNoLetter(end.Sanitized(), spans[k], k, i);
    }
    n, st := BlankOrCopied(text, i);
  }

  lemma HeldIsNoLetter(s: string, span: Span, k: nat, i: nat)
    requires Holds(s, span, k) && span.first <= i <= span.last
    ensures IsQuote(s[i]) || s[i] == '\0' || IsDigit(s[i])
  {
    var c := s[span.first..span.last + 1];
    PlaceholderQuotes(c, k);
    var j := i - span.first;
    assert s[i] == c[j];
    if 1 < j < |c| - 2 {
      assert c[j] == c[1..|c| - 1][j - 1] == Decimal(k)[j - 2];
    }
  }

  // ---- the bodies of literals ----

  /** A literal body with its closing quote. */
  predicate ClosedLiteral(quote: char, x: string) {
    IsQuote(quote) && x != [] && x[|x| - 1] == quote && ScanLiteral(quote, x).size == |x| - 1
  }

  lemma ClosedLiteralStep(st: State, quote: char, x: string, rest: string)
    requires ClosedLiteral(quote, x)
    ensures Step(st, [quote] + x + rest) == (st.EmitLiteral(quote, ScanLiteral(quote, x).body), 1 + |x|)
  {
    var s := [quote] + x + rest;
    assert s[1..] == x + rest;
    assert x[..|x| - 1 + 1] == x == (x + rest)[..|x|];
    LiteralLocal(quote, x, x + rest);
  }

  /** A turn reads no more of the side table than its length. */
  lemma StepTable(st: State, table: seq<string>, s: string)
    requires s != [] && |table| == |st.strings|
    ensures var (next, k) := Step(st, s);
            |next.strings| >= |st.strings| && next.strings[..|st.strings|] == st.strings
            && Step(st.(strings := table), s) == (next.(strings := table + next.strings[|st.strings|..]), k)
  {
    var _, t := StepAdds(st, s);
    assert (st.strings + t)[|st.strings|..] == t && (st.strings + t)[..|st.strings|] == st.strings;
    assert table + [] == table;
  }

  lemma {:induction false} OtherTable(st: State, table: seq<string>, s: string) returns (more: seq<string>)
    requires |table| == |st.strings|
    ensures Lex(st, s).strings == st.strings + more
    ensures Lex(st.(strings := table), s) == Lex(st, s).(strings := table + more)
    decreases |s|
  {
    hide Step;
    if s == [] {
      more := [];
    } else {
      var (next, k) := Step(st, s);
      StepTable(st, table, s);
      var t := next.strings[|st.strings|..];
      var later := OtherTable(next, table + t, s[k..]);
      AppendAssoc(st.strings, t, later);
      AppendAssoc(table, t, later);
      more := t + later;
    }
  }

  /** What stands in code position decides the rest of the run. */
  lemma {:induction false} CodeDecides(p: string, s: string, t: string, st: State)
    requires s != [] && t != [] && s[0] == t[0] && Visits(START, p + s, |p|, st)
    ensures Lex(START, p + s) == Lex(st, s) && Lex(START, p + t) == Lex(st, t)
  {
    hide Step;
    VisitLocal(START, p, s, t, st);
    LexFromVisit(START, p + s, |p|, st);
    LexFromVisit(START, p + t, |p|, st);
    assert (p + s)[|p|..] == s && (p + t)[|p|..] == t;
  }

  lemma LexClosedLiteral(st: State, quote: char, x: string, rest: string)
    requires ClosedLiteral(quote, x)
    ensures Lex(st, [quote] + x + rest) == Lex(st.EmitLiteral(quote, ScanLiteral(quote, x).body), rest)
  {
    ClosedLiteralStep(st, quote, x, rest);
    assert ([quote] + x + rest)[1 + |x|..] == rest;
  }

  /** `x` is what a literal takes behind its opening quote: to its closing quote, or to the newline
      or end of the text that cuts it short. */
  predicate LiteralRest(quote: char, x: string, rest: string) {
    IsQuote(quote) && LiteralSize(quote, x + rest) == |x|
  }

  lemma LexLiteral(st: State, quote: char, x: string, rest: string)
    requires LiteralRest(quote, x, rest)
    ensures Lex(st, [quote] + x + rest) == Lex(st.EmitLiteral(quote, ScanLiteral(quote, x + rest).body), rest)
  {
    var s := [quote] + x + rest;
    assert s[1..] == x + rest && s[1 + |x|..] == rest;
  }

  /** Changing the body of a string literal in code position changes its own entry of the side
      table, and nothing else. */
  lemma {:induction false} LiteralBody(p: string, quote: char, x: string, y: string, rest: string, st: State)
    requires LiteralRest(quote, x, rest) && LiteralRest(quote, y, rest)
    requires Visits(START, p + ([quote] + x + rest), |p|, st)
    ensures var before, after := Lex(START, p + ([quote] + x + rest)), Lex(START, p + ([quote] + y + rest));
            && |st.strings| < |before.strings|
            && after == before.(strings := before.strings[|st.strings| := ScanLiteral(quote, y + rest).body])
  {
    hide Step, ScanLiteral, LiteralRest;
    var s, t := [quote] + x + rest, [quote] + y + rest;
    var old', new' := ScanLiteral(quote, x + rest).body, ScanLiteral(quote, y + rest).body;
    CodeDecides(p, s, t, st);
    LexLiteral(st, quote, x, rest);
    LexLiteral(st, quote, y, rest);
    var next := st.EmitLiteral(quote, old');
    var table := st.strings + [new'];
    var more := OtherTable(next, table, rest);
    assert table + more == (next.strings + more)[|st.strings| := new'];
  }

  /** `x` is what follows the slash that opens a regex literal, up to its end. */
  predicate RegexRest(x: string, rest: string) {
    x != [] && x[0] != '/' && x[0] != '*' && ScanRegex(x + rest, false) == |x|
  }

  lemma LexRegex(st: State, x: string, rest: string)
    requires RegexMayStart(st.out) && RegexRest(x, rest)
    ensures Lex(st, "/" + x + rest) == Lex(st.Emit(" "), rest)
  {
    var s := "/" + x + rest;
    assert s[1..] == x + rest && s[1 + |x|..] == rest;
    assert Step(st, s) == (st.Emit(" "), 1 + |x|);
  }

  /** Changing a regex literal in code position changes nothing. */
  lemma {:induction false} RegexBody(p: string, x: string, y: string, rest: string, st: State)
    requires RegexMayStart(st.out) && RegexRest(x, rest) && RegexRest(y, rest)
    requires Visits(START, p + ("/" + x + rest), |p|, st)
    ensures Lex(START, p + ("/" + y + rest)) == Lex(START, p + ("/" + x + rest))
  {
    CodeDecides(p, "/" + x + rest, "/" + y + rest, st);
    LexRegex(st, x, rest);
    LexRegex(st, y, rest);
  }
}
