/**
 The lexer against the grammar of what it reads: code with nested braces, literals, comments,
 regexes and templates whose interpolations hold code again.
 */
module WebGrammar {
  import opened Text
  import opened WebLexer
  import opened WebLexerLaws
  import opened WebOrigins

  // ---- bodies as they are spelled ----

  /** A character of a body: bare, or behind a backslash. */
  datatype Mark = Mark(c: char, escaped: bool)

  function Spelling(m: Mark): string { if m.escaped then ['\\', m.c] else [m.c] }

  function Spelled(marks: seq<Mark>, rest: string): string {
    if marks == [] then rest else Spelling(marks[0]) + Spelled(marks[1..], rest)
  }

  /** The body with its escapes undone. */
  function Meant(marks: seq<Mark>): string {
    if marks == [] then [] else [marks[0].c] + Meant(marks[1..])
  }

  predicate Bare(m: Mark, c: char) { !m.escaped && m.c == c }

  /** A string literal's body: no bare quote, newline or backslash. */
  predicate LiteralMarks(quote: char, marks: seq<Mark>) {
    forall m :: m in marks ==> !Bare(m, quote) && !Bare(m, '\n') && !Bare(m, '\\')
  }

  /** The text part of a template: no bare backtick or backslash, and no bare `${`. */
  predicate TemplateMarks(marks: seq<Mark>) {
    && (forall m :: m in marks ==> !Bare(m, '`') && !Bare(m, '\\'))
    && (forall i :: 0 < i < |marks| && Bare(marks[i], '{') ==> !Bare(marks[i - 1], '$'))
  }

  /** A regex body: a bare slash only inside brackets, and brackets closed. */
  predicate RegexMarks(marks: seq<Mark>, inBrackets: bool) {
    if marks == [] then !inBrackets
    else
      var m := marks[0];
      && !Bare(m, '\n') && !Bare(m, '\\') && (Bare(m, '/') ==> inBrackets)
      && RegexMarks(marks[1..], if Bare(m, '[') then true else if Bare(m, ']') then false else inBrackets)
  }

  lemma SpelledTurn(marks: seq<Mark>, rest: string)
    requires marks != []
    ensures var s, m, tail := Spelled(marks, rest), marks[0], Spelled(marks[1..], rest);
            if m.escaped then |s| == |tail| + 2 && s[0] == '\\' && s[1] == m.c && s[2..] == tail
            else |s| == |tail| + 1 && s[0] == m.c && s[1..] == tail
  {
  }

  lemma {:induction false} SpelledEnds(marks: seq<Mark>, rest: string)
    ensures var s := Spelled(marks, rest); |rest| <= |s| && s[|s| - |rest|..] == rest
  {
    if marks != [] {
      SpelledEnds(marks[1..], rest);
      SpelledTurn(marks, rest);
    }
  }

  lemma {:induction false} LiteralScanned(quote: char, marks: seq<Mark>, rest: string)
    requires IsQuote(quote) && LiteralMarks(quote, marks)
    ensures var s := Spelled(marks, [quote] + rest);
            ScanLiteral(quote, s).body == Meant(marks) && ScanLiteral(quote, s).size + 1 + |rest| == |s|
  {
    if marks != [] {
      hide Spelled;
      assert marks[0] in marks && LiteralMarks(quote, marks[1..]);
      LiteralScanned(quote, marks[1..], rest);
      SpelledTurn(marks, [quote] + rest);
    }
  }

  lemma {:induction false} TemplateScanned(marks: seq<Mark>, rest: string)
    requires TemplateMarks(marks) && rest != [] && (rest[0] == '`' || (rest[0] == '$' && |rest| > 1 && rest[1] == '{'))
    ensures var s := Spelled(marks, rest);
            && ScanTemplate(s).entered == ScanTemplate(rest).entered
            && ScanTemplate(s).size + |rest| == |s| + ScanTemplate(rest).size
  {
    if marks != [] {
      hide Spelled;
      assert marks[0] in marks && TemplateMarks(marks[1..]);
      TemplateScanned(marks[1..], rest);
      SpelledTurn(marks, rest);
      if |marks| > 1 {
        SpelledTurn(marks[1..], rest);
        assert Bare(marks[0], '$') ==> !Bare(marks[1], '{');
      } else {
        SpelledNone(marks[1..], rest);
      }
    }
  }

  lemma SpelledNone(marks: seq<Mark>, rest: string)
    requires marks == []
    ensures Spelled(marks, rest) == rest
  {
  }

  lemma {:induction false} RegexScanned(marks: seq<Mark>, inBrackets: bool, rest: string)
    requires RegexMarks(marks, inBrackets)
    ensures var s := Spelled(marks, "/" + rest); ScanRegex(s, inBrackets) + |rest| == |s|
  {
    if marks != [] {
      hide Spelled;
      var m := marks[0];
      var next := if Bare(m, '[') then true else if Bare(m, ']') then false else inBrackets;
      RegexScanned(marks[1..], next, rest);
      SpelledTurn(marks, "/" + rest);
    }
  }

  // ---- code ----

  /** Source text by its structure. A line comment has its newline with it. */
  datatype Code =
    | End
    | Plain(c: char, rest: Code)
    | Braces(inner: Code, rest: Code)
    | Str(quote: char, marks: seq<Mark>, rest: Code)
    | LineComment(body: string, rest: Code)
    | BlockComment(body: string, rest: Code)
    | Regex(marks: seq<Mark>, rest: Code)
    | Division(rest: Code)
    | Interpolated(head: seq<Mark>, holes: Holes, rest: Code)

  /** The interpolations of a template, each with the text part behind it. */
  datatype Holes = Closed | Hole(code: Code, tail: seq<Mark>, more: Holes)

  /** The text of the code, followed by `then`. */
  function Source(code: Code, then': string): string {
    match code
    case End => then'
    case Plain(c, rest) => [c] + Source(rest, then')
    case Braces(inner, rest) => "{" + Source(inner, "}" + Source(rest, then'))
    case Str(quote, marks, rest) => [quote] + Spelled(marks, [quote] + Source(rest, then'))
    case LineComment(body, rest) => ("//" + body) + ("\n" + Source(rest, then'))
    case BlockComment(body, rest) => ("/*" + body + "*/") + Source(rest, then')
    case Regex(marks, rest) => "/" + Spelled(marks, "/" + Source(rest, then'))
    case Division(rest) => "/" + Source(rest, then')
    case Interpolated(head, holes, rest) => "`" + Spelled(head, HolesSource(holes, Source(rest, then')))
  }

  function HolesSource(holes: Holes, then': string): string {
    match holes
    case Closed => "`" + then'
    case Hole(code, tail, more) => "${" + Source(code, "}" + Spelled(tail, HolesSource(more, then')))
  }

  /** The string literals of the code, in order, those inside interpolations included. */
  function Literals(code: Code): seq<string> {
    match code
    case End => []
    case Braces(inner, rest) => Literals(inner) + Literals(rest)
    case Str(_, marks, rest) => [Meant(marks)] + Literals(rest)
    case Interpolated(_, holes, rest) => HoleLiterals(holes) + Literals(rest)
    case Plain(_, rest) => Literals(rest)
    case LineComment(_, rest) => Literals(rest)
    case BlockComment(_, rest) => Literals(rest)
    case Regex(_, rest) => Literals(rest)
    case Division(rest) => Literals(rest)
  }

  function HoleLiterals(holes: Holes): seq<string> {
    match holes
    case Closed => []
    case Hole(code, _, more) => Literals(code) + HoleLiterals(more)
  }

  /** What the code leaves in the output, of which `k` literals stand before it: braces and plain
      characters as they are, placeholders for literals, blanks and newlines for the rest. */
  function Shown(code: Code, k: nat): seq<string> {
    match code
    case End => []
    case Plain(c, rest) => [[c]] + Shown(rest, k)
    case Braces(inner, rest) => ["{"] + (Shown(inner, k) + (["}"] + Shown(rest, k + |Literals(inner)|)))
    case Str(quote, _, rest) => [Placeholder(quote, k)] + Shown(rest, k + 1)
    case LineComment(_, rest) => ["\n"] + Shown(rest, k)
    case BlockComment(_, rest) => [" "] + Shown(rest, k)
    case Regex(_, rest) => [" "] + Shown(rest, k)
    case Division(rest) => ["/"] + Shown(rest, k)
    case Interpolated(_, holes, rest) => [" "] + (HolesShown(holes, k) + Shown(rest, k + |HoleLiterals(holes)|))
  }

  function HolesShown(holes: Holes, k: nat): seq<string> {
    match holes
    case Closed => []
    case Hole(code, _, more) => Shown(code, k) + ([" "] + HolesShown(more, k + |Literals(code)|))
  }

  /** The state with output and literals added: the depths are those before. */
  function Add(st: State, out: seq<string>, strings: seq<string>): State {
    State(st.out + out, st.strings + strings, st.depths)
  }

  function After(st: State, code: Code): State { Add(st, Shown(code, |st.strings|), Literals(code)) }

  predicate Letterlike(c: char) { c != '/' && !IsQuote(c) && c != '`' && c != '{' && c != '}' }

  /** The parts are well formed, and what stands before a slash, `out`, makes it open a regex or
      divide, as the structure says. */
  ghost predicate Written(code: Code, out: seq<string>, k: nat, then': string)
    decreases code
  {
    match code
    case End => true
    case Plain(c, rest) => Letterlike(c) && Written(rest, out + [[c]], k, then')
    case Braces(inner, rest) =>
      && Written(inner, out + ["{"], k, "}" + Source(rest, then'))
      && Written(rest, out + ["{"] + Shown(inner, k) + ["}"], k + |Literals(inner)|, then')
    case Str(quote, marks, rest) =>
      IsQuote(quote) && LiteralMarks(quote, marks) && Written(rest, out + [Placeholder(quote, k)], k + 1, then')
    case LineComment(body, rest) => '\n' !in body && Written(rest, out + ["\n"], k, then')
    case BlockComment(body, rest) => !Contains(body, "*/") && Written(rest, out + [" "], k, then')
    case Regex(marks, rest) =>
      && RegexMayStart(out) && marks != [] && !Bare(marks[0], '*') && RegexMarks(marks, false)
      && Written(rest, out + [" "], k, then')
    case Division(rest) =>
      && !RegexMayStart(out) && Source(rest, then') != [] && Source(rest, then')[0] !in ['/', '*']
      && Written(rest, out + ["/"], k, then')
    case Interpolated(head, holes, rest) =>
      && TemplateMarks(head) && HolesWritten(holes, out + [" "], k, Source(rest, then'))
      && Written(rest, out + [" "] + HolesShown(holes, k), k + |HoleLiterals(holes)|, then')
  }

  ghost predicate HolesWritten(holes: Holes, out: seq<string>, k: nat, then': string)
    decreases holes
  {
    match holes
    case Closed => true
    case Hole(code, tail, more) =>
      && Written(code, out, k, "}" + Spelled(tail, HolesSource(more, then')))
      && TemplateMarks(tail) && HolesWritten(more, out + Shown(code, k) + [" "], k + |Literals(code)|, then')
  }

  // ---- from one code position to another ----

  /** From state `st` on `s` the scan comes to `rest`, in code position, with state `end`. */
  ghost predicate Leads(st: State, s: string, end: State, rest: string) {
    |rest| <= |s| && s[|s| - |rest|..] == rest && Visits(st, s, |s| - |rest|, end)
  }

  lemma LeadsNowhere(st: State, s: string)
    ensures Leads(st, s, st, s)
  {
  }

  lemma LeadsOn(st: State, s: string, mid: State, t: string, end: State, rest: string)
    requires Leads(st, s, mid, t) && Leads(mid, t, end, rest)
    ensures Leads(st, s, end, rest)
  {
    var n := |s| - |t|;
    VisitsOnward(st, s, n, mid, |t| - |rest|, end);
    DropDrop(s, n, |t| - |rest|);
  }

  lemma TurnLeads(st: State, s: string, end: State, rest: string)
    requires s != [] && |rest| < |s| && s[|s| - |rest|..] == rest && Step(st, s) == (end, |s| - |rest|)
    ensures Leads(st, s, end, rest)
  {
    VisitCons(st, s, end, |s| - |rest|, 0, end);
  }

  lemma LeadsLex(st: State, s: string, end: State, rest: string)
    requires Leads(st, s, end, rest)
    ensures Lex(st, s) == Lex(end, rest)
  {
    LexFromVisit(st, s, |s| - |rest|, end);
  }

  lemma AddAdd(st: State, a: seq<string>, p: seq<string>, b: seq<string>, q: seq<string>)
    ensures Add(Add(st, a, p), b, q) == Add(st, a + b, p + q)
  {
    AppendAssoc(st.out, a, b);
    AppendAssoc(st.strings, p, q);
  }

  lemma AddEmit(st: State, chunk: string)
    ensures st.Emit(chunk) == Add(st, [chunk], [])
  {
    assert st.strings + [] == st.strings;
  }

  /** A turn that adds one chunk, then the rest of the code. */
  lemma TurnThen(st: State, s: string, chunk: string, t: string, shown: seq<string>, literals: seq<string>, then': string)
    requires Leads(st, s, st.Emit(chunk), t) && Leads(st.Emit(chunk), t, Add(st.Emit(chunk), shown, literals), then')
    ensures Leads(st, s, Add(st, [chunk] + shown, literals), then')
  {
    AddEmit(st, chunk);
    AddAdd(st, [chunk], [], shown, literals);
    assert [] + literals == literals;
    LeadsOn(st, s, st.Emit(chunk), t, Add(st, [chunk] + shown, literals), then');
  }

  // ---- the turns ----

  lemma PlainTurn(st: State, c: char, t: string)
    requires Letterlike(c)
    ensures Leads(st, [c] + t, st.Emit([c]), t)
  {
    TurnLeads(st, [c] + t, st.Emit([c]), t);
  }

  lemma LiteralTaken(st: State, quote: char, inner: string)
    requires IsQuote(quote)
    requires var n := ScanLiteral(quote, inner).size; n < |inner| && inner[n] == quote
    ensures Step(st, [quote] + inner)
         == (st.EmitLiteral(quote, ScanLiteral(quote, inner).body), ScanLiteral(quote, inner).size + 2)
  {
    hide ScanLiteral, ScanTemplate, StepSlash, Placeholder;
    assert ([quote] + inner)[1..] == inner;
  }

  lemma LiteralTurn(st: State, quote: char, marks: seq<Mark>, t: string)
    requires IsQuote(quote) && LiteralMarks(quote, marks)
    ensures Leads(st, [quote] + Spelled(marks, [quote] + t), st.EmitLiteral(quote, Meant(marks)), t)
  {
    hide ScanLiteral, Spelled, LiteralMarks;
    var inner := Spelled(marks, [quote] + t);
    LiteralScanned(quote, marks, t);
    SpelledEnds(marks, [quote] + t);
    SpelledEndsIn(marks, [quote], t);
    var n := ScanLiteral(quote, inner).size;
    assert inner[n] == inner[n..][0] == quote;
    LiteralTaken(st, quote, inner);
    SpanLeads(st, quote, inner, n + 1, st.EmitLiteral(quote, Meant(marks)), t);
  }

  lemma LineTurns(st: State, body: string, t: string)
    requires '\n' !in body
    ensures Leads(st, ("//" + body) + ("\n" + t), st.Emit("\n"), t)
  {
    var line := "\n" + t;
    InertStep(st, Inert.LineComment(body), line);
    TurnLeads(st, ("//" + body) + line, st, line);
    NewlineTurn(st, line);
    TurnLeads(st, line, st.Emit("\n"), t);
    LeadsOn(st, ("//" + body) + line, st, line, st.Emit("\n"), t);
  }

  lemma BlockTurn(st: State, body: string, t: string)
    requires !Contains(body, "*/")
    ensures Leads(st, ("/*" + body + "*/") + t, st.Emit(" "), t)
  {
    InertStep(st, Inert.BlockComment(body), t);
    TurnLeads(st, ("/*" + body + "*/") + t, st.Emit(" "), t);
  }

  /** A turn that takes one character and `n` more. */
  lemma SpanLeads(st: State, c: char, inner: string, n: nat, end: State, t: string)
    requires n <= |inner| && n + |t| == |inner| && inner[n..] == t && Step(st, [c] + inner) == (end, n + 1)
    ensures Leads(st, [c] + inner, end, t)
  {
    hide Step;
    var s := [c] + inner;
    assert s[n + 1..] == inner[n..];
    TurnLeads(st, s, end, t);
  }

  lemma {:induction false} SpelledEndsIn(marks: seq<Mark>, mark: string, t: string)
    ensures var s := Spelled(marks, mark + t); |t| <= |s| && s[|s| - |t|..] == t
  {
    SpelledEnds(marks, mark + t);
    var s := Spelled(marks, mark + t);
    DropDrop(s, |s| - |mark + t|, |mark|);
    assert (mark + t)[|mark|..] == t;
  }

  lemma RegexTurn(st: State, marks: seq<Mark>, t: string)
    requires RegexMayStart(st.out) && marks != [] && !Bare(marks[0], '*') && RegexMarks(marks, false)
    ensures Leads(st, "/" + Spelled(marks, "/" + t), st.Emit(" "), t)
  {
    hide RegexMayStart, ScanRegex;
    var inner := Spelled(marks, "/" + t);
    RegexScanned(marks, false, t);
    SpelledEndsIn(marks, "/", t);
    SpelledTurn(marks, "/" + t);
    assert ("/" + inner)[1..] == inner;
    SpanLeads(st, '/', inner, ScanRegex(inner, false), st.Emit(" "), t);
  }

  lemma DivisionTurn(st: State, t: string)
    requires !RegexMayStart(st.out) && t != [] && t[0] !in ['/', '*']
    ensures Leads(st, "/" + t, st.Emit("/"), t)
  {
    TurnLeads(st, "/" + t, st.Emit("/"), t);
  }

  /** A template's text part, from the backtick or from the brace that ends an interpolation. */
  lemma PartTurn(from: State, st: State, open: char, marks: seq<Mark>, mark: string, t: string)
    requires TemplateMarks(marks) && (mark == "${" || mark == "`")
    requires (open == '`' && from == st) || (open == '}' && from == st.(depths := st.depths + [0]))
    ensures Leads(from, [open] + Spelled(marks, mark + t), st.Emit(" ").Interpolate(mark == "${"), t)
  {
    var inner := Spelled(marks, mark + t);
    PartStep(from, st, open, inner);
    hide Step;
    TemplateScanned(marks, mark + t);
    SpelledEndsIn(marks, mark, t);
    assert ScanTemplate(mark + t) == Template(|mark|, mark == "${");
    SpanLeads(from, open, inner, ScanTemplate(inner).size, st.Emit(" ").Interpolate(mark == "${"), t);
  }

  lemma PartStep(from: State, st: State, open: char, inner: string)
    requires (open == '`' && from == st) || (open == '}' && from == st.(depths := st.depths + [0]))
    ensures Step(from, [open] + inner) ==
            (st.Emit(" ").Interpolate(ScanTemplate(inner).entered), 1 + ScanTemplate(inner).size)
  {
    assert ([open] + inner)[1..] == inner;
    if open == '}' {
      assert from.Leave() == st;
    }
  }

  /** A brace inside an interpolation nests one deeper. */
  function Opened(st: State): State { (if st.depths == [] then st else st.Deepen(1)).Emit("{") }

  lemma OpenTurn(st: State, t: string)
    ensures Leads(st, "{" + t, Opened(st), t)
  {
    TurnLeads(st, "{" + t, Opened(st), t);
  }

  lemma CloseTurn(st: State, end: State, t: string)
    requires end.depths == Opened(st).depths
    ensures Leads(end, "}" + t, State(end.out + ["}"], end.strings, st.depths), t)
  {
    if st.depths != [] {
      assert end.Deepen(-1).depths == st.depths;
    }
    TurnLeads(end, "}" + t, State(end.out + ["}"], end.strings, st.depths), t);
  }

  // ---- the law ----

  /** The scan of well-formed code, from any state, ends in code position behind it, with the output
      and the literals that its structure says, and with the depths it began with: braces nest, and
      so do interpolations. */
  lemma {:induction false} CodeRead(code: Code, st: State, then': string)
    requires Written(code, st.out, |st.strings|, then')
    ensures Leads(st, Source(code, then'), After(st, code), then')
    decreases code
  {
    hide Step, Leads, RegexMayStart, LiteralMarks, TemplateMarks, RegexMarks;
    match code
    case End => NothingRead(st, then');
    case Plain(c, rest) =>
      PlainTurn(st, c, Source(rest, then'));
      CodeRead(rest, st.Emit([c]), then');
      ChunkRead(st, code, [c], rest, then');
    case Braces(inner, rest) => BracesRead(inner, rest, st, then');
    case Str(quote, marks, rest) =>
      LiteralTurn(st, quote, marks, Source(rest, then'));
      CodeRead(rest, st.EmitLiteral(quote, Meant(marks)), then');
      LiteralThen(st, quote, marks, rest, then');
    case LineComment(body, rest) =>
      LineTurns(st, body, Source(rest, then'));
      CodeRead(rest, st.Emit("\n"), then');
      ChunkRead(st, code, "\n", rest, then');
    case BlockComment(body, rest) =>
      BlockTurn(st, body, Source(rest, then'));
      CodeRead(rest, st.Emit(" "), then');
      ChunkRead(st, code, " ", rest, then');
    case Regex(marks, rest) =>
      RegexTurn(st, marks, Source(rest, then'));
      CodeRead(rest, st.Emit(" "), then');
      ChunkRead(st, code, " ", rest, then');
    case Division(rest) =>
      DivisionTurn(st, Source(rest, then'));
      CodeRead(rest, st.Emit("/"), then');
      ChunkRead(st, code, "/", rest, then');
    case Interpolated(head, holes, rest) =>
      PartRead(head, holes, st, st, '`', Source(rest, then'));
      var mid := AfterPart(st, holes);
      AppendAssoc(st.out, [" "], HolesShown(holes, |st.strings|));
      CodeRead(rest, mid, then');
      LeadsOn(st, Source(code, then'), mid, Source(rest, then'), After(mid, rest), then');
      PartThen(st, head, holes, rest);
  }

  lemma NothingRead(st: State, then': string)
    ensures Leads(st, Source(End, then'), After(st, End), then')
  {
    assert st.out + [] == st.out && st.strings + [] == st.strings;
    LeadsNowhere(st, then');
  }

  lemma ChunkRead(st: State, code: Code, chunk: string, rest: Code, then': string)
    requires Leads(st, Source(code, then'), st.Emit(chunk), Source(rest, then'))
    requires Leads(st.Emit(chunk), Source(rest, then'), After(st.Emit(chunk), rest), then')
    requires Shown(code, |st.strings|) == [chunk] + Shown(rest, |st.strings|) && Literals(code) == Literals(rest)
    ensures Leads(st, Source(code, then'), After(st, code), then')
  {
    hide Leads;
    TurnThen(st, Source(code, then'), chunk, Source(rest, then'), Shown(rest, |st.strings|), Literals(rest), then');
  }

  lemma LiteralThen(st: State, quote: char, marks: seq<Mark>, rest: Code, then': string)
    requires var mid := st.EmitLiteral(quote, Meant(marks));
             && Leads(st, [quote] + Spelled(marks, [quote] + Source(rest, then')), mid, Source(rest, then'))
             && Leads(mid, Source(rest, then'), After(mid, rest), then')
    ensures var code := Str(quote, marks, rest); Leads(st, Source(code, then'), After(st, code), then')
  {
    hide Leads;
    var code, mid := Str(quote, marks, rest), st.EmitLiteral(quote, Meant(marks));
    var k := |st.strings|;
    AddAdd(st, [Placeholder(quote, k)], [Meant(marks)], Shown(rest, k + 1), Literals(rest));
    LeadsOn(st, Source(code, then'), mid, Source(rest, then'), After(st, code), then');
  }

  /** The state behind a text part and the interpolations that follow it. */
  function AfterPart(st: State, holes: Holes): State {
    Add(st, [" "] + HolesShown(holes, |st.strings|), HoleLiterals(holes))
  }

  lemma PartThen(st: State, head: seq<Mark>, holes: Holes, rest: Code)
    ensures After(AfterPart(st, holes), rest) == After(st, Interpolated(head, holes, rest))
  {
    var k := |st.strings|;
    AddAdd(st, [" "] + HolesShown(holes, k), HoleLiterals(holes), Shown(rest, k + |HoleLiterals(holes)|), Literals(rest));
    AppendAssoc([" "], HolesShown(holes, k), Shown(rest, k + |HoleLiterals(holes)|));
  }

  lemma {:induction false} BracesRead(inner: Code, rest: Code, st: State, then': string)
    requires Written(Braces(inner, rest), st.out, |st.strings|, then')
    ensures var code := Braces(inner, rest); Leads(st, Source(code, then'), After(st, code), then')
    decreases Braces(inner, rest), 0
  {
    hide Step, Leads, RegexMayStart, Shown, Literals;
    var t, open := Source(rest, then'), Opened(st);
    var mid := State(st.out + ["{"] + Shown(inner, |st.strings|) + ["}"], st.strings + Literals(inner), st.depths);
    CodeRead(inner, open, "}" + t);
    BracesClosed(inner, st, t);
    CodeRead(rest, mid, then');
    LeadsOn(st, "{" + Source(inner, "}" + t), mid, t, After(mid, rest), then');
    BracesThen(st, inner, rest, mid);
  }

  lemma BracesClosed(inner: Code, st: State, t: string)
    requires Leads(Opened(st), Source(inner, "}" + t), After(Opened(st), inner), "}" + t)
    ensures var mid := State(st.out + ["{"] + Shown(inner, |st.strings|) + ["}"], st.strings + Literals(inner), st.depths);
            Leads(st, "{" + Source(inner, "}" + t), mid, t)
  {
    hide Step, Leads, Shown, Literals, Source;
    var s, open := "{" + Source(inner, "}" + t), Opened(st);
    var within := After(open, inner);
    var mid := State(within.out + ["}"], within.strings, st.depths);
    OpenTurn(st, Source(inner, "}" + t));
    CloseTurn(st, within, t);
    LeadsOn(st, s, open, Source(inner, "}" + t), within, "}" + t);
    LeadsOn(st, s, within, "}" + t, mid, t);
  }

  lemma BracesThen(st: State, inner: Code, rest: Code, mid: State)
    requires mid == State(st.out + ["{"] + Shown(inner, |st.strings|) + ["}"], st.strings + Literals(inner), st.depths)
    ensures After(mid, rest) == After(st, Braces(inner, rest))
  {
    var k := |st.strings|;
    var more := Shown(rest, k + |Literals(inner)|);
    AppendAssoc(st.strings, Literals(inner), Literals(rest));
    AppendAssoc(["{"], Shown(inner, k), ["}"] + more);
    AppendAssoc(["{"] + Shown(inner, k), ["}"], more);
    AppendAssoc(st.out, ["{"], Shown(inner, k));
    AppendAssoc(st.out, ["{"] + Shown(inner, k), ["}"]);
    AppendAssoc(st.out, ["{"] + Shown(inner, k) + ["}"], more);
  }

  /** A text part of a template and the interpolations behind it. */
  lemma {:induction false} PartRead(marks: seq<Mark>, holes: Holes, from: State, st: State, open: char, then': string)
    requires TemplateMarks(marks) && HolesWritten(holes, st.out + [" "], |st.strings|, then')
    requires (open == '`' && from == st) || (open == '}' && from == st.(depths := st.depths + [0]))
    ensures Leads(from, [open] + Spelled(marks, HolesSource(holes, then')), AfterPart(st, holes), then')
    decreases holes
  {
    hide Step, Leads, RegexMayStart, TemplateMarks;
    match holes
    case Closed =>
      PartTurn(from, st, open, marks, "`", then');
      AddEmit(st, " ");
      assert [" "] + [] == [" "];
    case Hole(code, tail, more) =>
      var s := [open] + Spelled(marks, HolesSource(holes, then'));
      var u := "}" + Spelled(tail, HolesSource(more, then'));
      var hole := st.Emit(" ").Interpolate(true);
      var within := After(hole, code);
      var back := State(within.out, within.strings, st.depths);
      PartTurn(from, st, open, marks, "${", Source(code, u));
      CodeRead(code, hole, u);
      PartRead(tail, more, within, back, '}', then');
      LeadsOn(from, s, hole, Source(code, u), within, u);
      LeadsOn(from, s, within, u, AfterPart(back, more), then');
      HoleThen(st, code, tail, more, back);
  }

  lemma HoleThen(st: State, code: Code, tail: seq<Mark>, more: Holes, back: State)
    requires back == Add(st.Emit(" "), Shown(code, |st.strings|), Literals(code))
    ensures AfterPart(back, more) == AfterPart(st, Hole(code, tail, more))
  {
    var k := |st.strings|;
    AddEmit(st, " ");
    assert [] + Literals(code) == Literals(code);
    AddAdd(st, [" "], [], Shown(code, k), Literals(code));
    AddAdd(st, [" "] + Shown(code, k), Literals(code), [" "] + HolesShown(more, k + |Literals(code)|), HoleLiterals(more));
    AppendAssoc([" "], Shown(code, k), [" "] + HolesShown(more, k + |Literals(code)|));
  }

  /** So for a whole file: the side table holds the literals of the code in order, and the output is
      what the structure leaves. */
  lemma FileRead(code: Code)
    requires Written(code, [], 0, "")
    ensures var end := Lex(START, Source(code, ""));
            end.strings == Literals(code) && end.Sanitized() == Concat(Shown(code, 0)) && end.depths == []
  {
    hide Step, Leads, Written, Source, Shown, Literals;
    assert START.out == [] && START.strings == [];
    CodeRead(code, START, "");
    LeadsLex(START, Source(code, ""), After(START, code), "");
    assert [] + Literals(code) == Literals(code) && [] + Shown(code, 0) == Shown(code, 0);
  }

  /** A template with an interpolation, as text: whatever code stands in it, the scan comes out
      behind it with the depths it came with, and the table gains the literals of that code. */
  lemma InterpolationRead(head: seq<Mark>, code: Code, tail: seq<Mark>, st: State, rest: string) returns (end: State)
    requires TemplateMarks(head) && TemplateMarks(tail)
    requires Written(code, st.out + [" "], |st.strings|, "}" + Spelled(tail, "`" + rest))
    ensures Leads(st, "`" + Spelled(head, "${" + Source(code, "}" + Spelled(tail, "`" + rest))), end, rest)
    ensures end.depths == st.depths && end.strings == st.strings + Literals(code)
  {
    hide Step, Leads, TemplateMarks, RegexMayStart;
    var holes := Hole(code, tail, Closed);
    PartRead(head, holes, st, st, '`', rest);
    end := AfterPart(st, holes);
    assert HoleLiterals(holes) == Literals(code) + [] == Literals(code);
  }

  /** Inside an interpolation, behind code with its braces closed, is code position. */
  lemma InterpolationEntered(head: seq<Mark>, code: Code, st: State, rest: string) returns (end: State)
    requires TemplateMarks(head) && Written(code, st.out + [" "], |st.strings|, rest)
    ensures Leads(st, "`" + Spelled(head, "${" + Source(code, rest)), end, rest)
    ensures end.depths == st.depths + [0] && end.strings == st.strings + Literals(code)
    ensures end.out == st.out + [" "] + Shown(code, |st.strings|)
  {
    hide Step, Leads, TemplateMarks, RegexMayStart;
    var hole := st.Emit(" ").Interpolate(true);
    end := After(hole, code);
    PartTurn(st, st, '`', head, "${", Source(code, rest));
    CodeRead(code, hole, rest);
    LeadsOn(st, "`" + Spelled(head, "${" + Source(code, rest)), hole, Source(code, rest), end, rest);
    assert hole == State(st.out + [" "], st.strings, st.depths + [0]);
  }

  // ---- what leaves no trace ----

  /** The code with the bodies of comments, regexes and the text parts of templates left out. */
  function Skeleton(code: Code): Code {
    match code
    case End => End
    case Plain(c, rest) => Plain(c, Skeleton(rest))
    case Braces(inner, rest) => Braces(Skeleton(inner), Skeleton(rest))
    case Str(quote, marks, rest) => Str(quote, marks, Skeleton(rest))
    case LineComment(_, rest) => Code.LineComment("", Skeleton(rest))
    case BlockComment(_, rest) => Code.BlockComment("", Skeleton(rest))
    case Regex(_, rest) => Regex([], Skeleton(rest))
    case Division(rest) => Division(Skeleton(rest))
    case Interpolated(_, holes, rest) => Interpolated([], HolesSkeleton(holes), Skeleton(rest))
  }

  function HolesSkeleton(holes: Holes): Holes {
    match holes
    case Closed => Closed
    case Hole(code, _, more) => Hole(Skeleton(code), [], HolesSkeleton(more))
  }

  lemma {:induction false} SkeletonShows(code: Code, k: nat)
    ensures Shown(Skeleton(code), k) == Shown(code, k) && Literals(Skeleton(code)) == Literals(code)
  {
    match code
    case End =>
    case Plain(_, rest) => SkeletonShows(rest, k);
    case Braces(inner, rest) => SkeletonShows(inner, k); SkeletonShows(rest, k + |Literals(inner)|);
    case Str(_, _, rest) => SkeletonShows(rest, k + 1);
    case LineComment(_, rest) => SkeletonShows(rest, k);
    case BlockComment(_, rest) => SkeletonShows(rest, k);
    case Regex(_, rest) => SkeletonShows(rest, k);
    case Division(rest) => SkeletonShows(rest, k);
    case Interpolated(_, holes, rest) =>
      SkeletonHolesShow(holes, k);
      SkeletonShows(rest, k + |HoleLiterals(holes)|);
  }

  lemma {:induction false} SkeletonHolesShow(holes: Holes, k: nat)
    ensures HolesShown(HolesSkeleton(holes), k) == HolesShown(holes, k)
    ensures HoleLiterals(HolesSkeleton(holes)) == HoleLiterals(holes)
  {
    match holes
    case Closed =>
    case Hole(code, _, more) => SkeletonShows(code, k); SkeletonHolesShow(more, k + |Literals(code)|);
  }

  /** Two texts that differ in such bodies alone, at any depth, are scanned alike. */
  lemma SkeletonDecides(code: Code, other: Code)
    requires Skeleton(code) == Skeleton(other) && Written(code, [], 0, "") && Written(other, [], 0, "")
    ensures Lex(START, Source(other, "")) == Lex(START, Source(code, ""))
  {
    hide Step;
    SkeletonShows(code, 0);
    SkeletonShows(other, 0);
    CodeRead(code, START, "");
    CodeRead(other, START, "");
    LeadsLex(START, Source(code, ""), After(START, code), "");
    LeadsLex(START, Source(other, ""), After(START, other), "");
  }

  // ---- an example ----

  const M := [Mark('m', false)]
  const M_LITERAL := Str('\'', M, End)
  const NESTED := Interpolated([], Hole(Braces(End, M_LITERAL), [], Closed), End)

  lemma NestedText()
    ensures Source(NESTED, "") == "`${{}'m'}`"
  {
    assert M[1..] == [] && Spelled(M[1..], "'}`") == "'}`" && Spelled(M, "'}`") == "m'}`";
    assert "'" + "}`" == "'}`" && Source(End, "}`") == "}`";
    assert Source(M_LITERAL, "}`") == "'m'}`";
    assert Source(Braces(End, M_LITERAL), "}`") == "{}'m'}`";
    assert "`" + "" == "`" && "}" + Spelled([], "`") == "}`";
    assert HolesSource(NESTED.holes, "") == "${{}'m'}`";
  }

  lemma NestedWritten()
    ensures Written(NESTED, [], 0, "") && Literals(NESTED) == ["m"]
  {
    assert M[1..] == [] && Meant(M[1..]) == [] && Meant(M) == "m";
    assert LiteralMarks('\'', M);
    assert Literals(M_LITERAL) == ["m"] && Literals(Braces(End, M_LITERAL)) == ["m"];
  }

  /** An object literal and then a string in one interpolation: the string is read. */
  lemma NestedExample()
    ensures Lex(START, "`${{}'m'}`").strings == ["m"]
  {
    hide Lex, Source, Written, Literals;
    NestedText();
    NestedWritten();
    FileRead(NESTED);
  }
}
