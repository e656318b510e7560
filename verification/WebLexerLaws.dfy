/**
 What the lexer reads does not depend on what it skips: a turn of its loop looks at most one
 character past the text it consumes, and the body of a comment or plain template leaves no
 trace in the result.
 */
module WebLexerLaws {
  import opened Text
  import opened WebLexer

  // ---- a turn of the loop sees no further than one character past what it consumes ----

  ghost predicate AgreeThrough(s: string, t: string, k: nat) {
    k < |s| && k < |t| && s[..k + 1] == t[..k + 1]
  }

  lemma AgreeTails(s: string, t: string, k: nat, n: nat)
    requires AgreeThrough(s, t, k) && n <= k
    ensures AgreeThrough(s[n..], t[n..], k - n)
    ensures forall i :: 0 <= i <= k ==> s[i] == t[i]
  {
    forall i | 0 <= i <= k
      ensures s[i] == t[i]
    {
      assert s[..k + 1][i] == t[..k + 1][i];
    }
    assert s[n..][..k - n + 1] == t[n..][..k - n + 1];
  }

  lemma {:induction false} LiteralLocal(quote: char, s: string, t: string)
    requires AgreeThrough(s, t, ScanLiteral(quote, s).size)
    ensures ScanLiteral(quote, t) == ScanLiteral(quote, s)
    decreases |s|
  {
    var k := ScanLiteral(quote, s).size;
    AgreeTails(s, t, k, 0);
    if s[0] != quote && s[0] != '\n' {
      var n := if s[0] == '\\' && |s| > 1 then 2 else 1;
      AgreeTails(s, t, k, n);
      LiteralLocal(quote, s[n..], t[n..]);
    }
  }

  lemma {:induction false} TemplateLocal(s: string, t: string)
    requires AgreeThrough(s, t, ScanTemplate(s).size)
    ensures ScanTemplate(t) == ScanTemplate(s)
    decreases |s|
  {
    var k := ScanTemplate(s).size;
    AgreeTails(s, t, k, 0);
    if s[0] == '`' || (s[0] == '$' && |s| > 1 && s[1] == '{') {
    } else {
      var n := if s[0] == '\\' && |s| > 1 then 2 else 1;
      AgreeTails(s, t, k, n);
      TemplateLocal(s[n..], t[n..]);
    }
  }

  lemma {:induction false} RegexLocal(s: string, t: string, inClass: bool)
    requires AgreeThrough(s, t, ScanRegex(s, inClass))
    ensures ScanRegex(t, inClass) == ScanRegex(s, inClass)
    decreases |s|
  {
    var k := ScanRegex(s, inClass);
    AgreeTails(s, t, k, 0);
    if s[0] == '\n' || (s[0] == '/' && !inClass) {
    } else {
      var n := if s[0] == '\\' && |s| > 1 then 2 else 1;
      AgreeTails(s, t, k, n);
      RegexLocal(s[n..], t[n..], if n == 2 then inClass else if s[0] == '[' then true else if s[0] == ']' then false else inClass);
    }
  }

  lemma {:induction false} BlockLocal(s: string, t: string)
    requires AgreeThrough(s, t, ScanBlock(s))
    ensures ScanBlock(t) == ScanBlock(s)
    decreases |s|
  {
    var k := ScanBlock(s);
    AgreeTails(s, t, k, 0);
    if s[0] != '*' || s[1] != '/' {
      AgreeTails(s, t, k, 1);
      BlockLocal(s[1..], t[1..]);
    }
  }

  lemma {:induction false} IndexOfLocal(s: string, t: string, c: char)
    requires AgreeThrough(s, t, IndexOf(s, c))
    ensures IndexOf(t, c) == IndexOf(s, c)
    decreases |s|
  {
    var k := IndexOf(s, c);
    AgreeTails(s, t, k, 0);
    if s[0] != c {
      AgreeTails(s, t, k, 1);
      IndexOfLocal(s[1..], t[1..], c);
    }
  }

  /** A turn that stops short of the end is the same turn on every text that agrees with this
      one through the character it stops at. */
  lemma StepLocal(st: State, s: string, t: string)
    requires s != [] && AgreeThrough(s, t, Step(st, s).1)
    ensures Step(st, t) == Step(st, s)
  {
    var k := Step(st, s).1;
    AgreeTails(s, t, k, 0);
    AgreeTails(s, t, k, 1);
    var ch := s[0];
    if ch == '/' {
      SlashLocal(st, s, t);
    } else if IsQuote(ch) {
      if LiteralSize(ch, s[1..]) != ScanLiteral(ch, s[1..]).size {
        AgreeShorter(s[1..], t[1..], k - 1, k - 2);
      }
      LiteralLocal(ch, s[1..], t[1..]);
      AgreeTails(s[1..], t[1..], k - 1, 0);
    } else if ch == '`' || (st.depths != [] && ch == '}' && st.depths[|st.depths| - 1] == 0) {
      TemplateLocal(s[1..], t[1..]);
    }
  }

  lemma AgreeShorter(s: string, t: string, k: nat, n: nat)
    requires AgreeThrough(s, t, k) && n <= k
    ensures AgreeThrough(s, t, n)
  {
    assert s[..n + 1] == s[..k + 1][..n + 1];
    assert t[..n + 1] == t[..k + 1][..n + 1];
  }

  lemma SlashLocal(st: State, s: string, t: string)
    requires s != [] && s[0] == '/' && AgreeThrough(s, t, StepSlash(st, s).1)
    ensures t != [] && t[0] == '/' && StepSlash(st, t) == StepSlash(st, s)
  {
    var k := StepSlash(st, s).1;
    AgreeTails(s, t, k, 0);
    if s[1] == '/' {
      IndexOfLocal(s, t, '\n');
    } else if s[1] == '*' {
      AgreeTails(s, t, k, 2);
      BlockLocal(s[2..], t[2..]);
    } else if RegexMayStart(st.out) {
      AgreeTails(s, t, k, 1);
      RegexLocal(s[1..], t[1..], false);
    }
  }

  // ---- code positions ----

  /** Started in `from` on `s`, the loop is at offset `n` with state `st` at the start of one of
      its turns: offset `n` is in code position. */
  ghost predicate Visits(from: State, s: string, n: nat, st: State)
    decreases |s|
  {
    if n == 0 then st == from
    else s != [] && Step(from, s).1 <= n && Visits(Step(from, s).0, s[Step(from, s).1..], n - Step(from, s).1, st)
  }

  lemma {:induction false} LexFromVisit(from: State, s: string, n: nat, st: State)
    requires n <= |s| && Visits(from, s, n, st)
    ensures Lex(from, s) == Lex(st, s[n..])
    decreases |s|
  {
    hide Step;
    if n != 0 {
      var (next, k) := Step(from, s);
      LexFromVisit(next, s[k..], n - k, st);
      assert s[k..][n - k..] == s[n..];
    } else {
      assert s[0..] == s;
    }
  }

  lemma AgreeThroughPrefix(p: string, x: string, y: string, k: nat)
    requires k <= |p| && x != [] && y != [] && x[0] == y[0]
    ensures AgreeThrough(p + x, p + y, k)
  {
    assert (p + x)[..k + 1] == (p + y)[..k + 1];
  }

  /** Whether an offset is in code position, and with which state, is settled by the text before
      it and the one character at it. */
  lemma {:induction false} VisitLocal(from: State, p: string, x: string, y: string, st: State)
    requires x != [] && y != [] && x[0] == y[0]
    requires Visits(from, p + x, |p|, st)
    ensures Visits(from, p + y, |p|, st)
    decreases |p|
  {
    hide Step;
    if p != [] {
      var s, t := p + x, p + y;
      var (next, k) := Step(from, s);
      AgreeThroughPrefix(p, x, y, k);
      StepLocal(from, s, t);
      DropJoin(p, x, k);
      DropJoin(p, y, k);
      VisitLocal(next, p[k..], x, y, st);
    }
  }

  // ---- text that leaves no trace ----

  /** A comment, or a template without interpolation, and its body. */
  datatype Inert = LineComment(body: string) | BlockComment(body: string) | PlainTemplate(body: string) {
    function Text(): string {
      match this
      case LineComment(b) => "//" + b
      case BlockComment(b) => "/*" + b + "*/"
      case PlainTemplate(b) => "`" + b + "`"
    }

    /** The body cannot end its own span: no newline, no closing mark, and in a template no
        backtick, no backslash and no opened interpolation. `rest` is what follows the span. */
    ghost predicate Closed(rest: string) {
      match this
      case LineComment(b) => '\n' !in b && (rest == [] || rest[0] == '\n')
      case BlockComment(b) => !Contains(b, "*/")
      case PlainTemplate(b) => '`' !in b && '\\' !in b && !Contains(b, "${")
    }

    ghost predicate SameKind(other: Inert) {
      LineComment? == other.LineComment? && BlockComment? == other.BlockComment?
    }

    /** What the span adds to the sanitised text. */
    function Trace(st: State): State {
      if LineComment? then st else st.Emit(" ")
    }
  }

  lemma NotContainsTail(s: string, needle: string)
    requires s != [] && !Contains(s, needle)
    ensures !Contains(s[1..], needle) && !OccursAt(s, 0, needle)
  {
    if Contains(s[1..], needle) {
      var i :| 0 <= i <= |s[1..]| - |needle| && OccursAt(s[1..], i, needle);
      assert s[1..][i..i + |needle|] == s[i + 1..i + 1 + |needle|];
      assert OccursAt(s, i + 1, needle);
    }
    if OccursAt(s, 0, needle) {
      assert Contains(s, needle);
    }
  }

  lemma {:induction false} IndexOfBody(b: string, rest: string, c: char)
    requires c !in b && (rest == [] || rest[0] == c)
    ensures IndexOf(b + rest, c) == |b|
  {
    if b == [] {
      assert b + rest == rest;
    } else {
      assert (b + rest)[1..] == b[1..] + rest;
      IndexOfBody(b[1..], rest, c);
    }
  }

  lemma {:induction false} ScanBlockBody(b: string, rest: string)
    requires !Contains(b, "*/")
    ensures ScanBlock(b + "*/" + rest) == |b| + 2
  {
    var s := b + "*/" + rest;
    if b == [] {
      assert s == "*/" + rest;
    } else {
      NotContainsTail(b, "*/");
      assert s[1..] == b[1..] + "*/" + rest;
      ScanBlockBody(b[1..], rest);
    }
  }

  lemma {:induction false} ScanTemplateBody(b: string, rest: string)
    requires '`' !in b && '\\' !in b && !Contains(b, "${")
    ensures ScanTemplate(b + "`" + rest) == Template(|b| + 1, false)
  {
    var s := b + "`" + rest;
    if b == [] {
      assert s == "`" + rest;
    } else {
      NotContainsTail(b, "${");
      assert s[1..] == b[1..] + "`" + rest;
      ScanTemplateBody(b[1..], rest);
    }
  }

  /** One turn of the loop takes the whole span and leaves only its trace. */
  lemma InertStep(st: State, a: Inert, rest: string)
    requires a.Closed(rest)
    ensures Step(st, a.Text() + rest) == (a.Trace(st), |a.Text()|)
  {
    var s := a.Text() + rest;
    match a
    case LineComment(b) =>
      assert s == ("//" + b) + rest;
      IndexOfBody("//" + b, rest, '\n');
    case BlockComment(b) =>
      assert s[2..] == b + "*/" + rest;
      ScanBlockBody(b, rest);
    case PlainTemplate(b) =>
      assert s[1..] == b + "`" + rest;
      ScanTemplateBody(b, rest);
  }

  /** In code position, replacing the body of a comment or of a plain template by any other
      changes neither the sanitised text nor the side table: the lexer ends in the state it
      would reach from the rest of the text alone. */
  lemma InertBody(p: string, a: Inert, b: Inert, rest: string, st: State)
    requires a.SameKind(b) && a.Closed(rest) && b.Closed(rest)
    requires Visits(START, p + (a.Text() + rest), |p|, st)
    ensures Lex(START, p + (b.Text() + rest)) == Lex(START, p + (a.Text() + rest))
    ensures Lex(START, p + (b.Text() + rest)) == Lex(a.Trace(st), rest)
  {
    hide Step;
    var x, y := a.Text() + rest, b.Text() + rest;
    assert (p + x)[|p|..] == x && (p + y)[|p|..] == y;
    VisitLocal(START, p, x, y, st);
    LexFromVisit(START, p + x, |p|, st);
    LexFromVisit(START, p + y, |p|, st);
    InertStep(st, a, rest);
    InertStep(st, b, rest);
    assert x[|a.Text()|..] == rest && y[|b.Text()|..] == rest;
  }
}
