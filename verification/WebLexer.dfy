/**
 The TypeScript lexer behind the web reachability gate: comments, templates and regex
 literals are blanked, string literals are lifted into a side table.

 `Step` is one turn of the lexer's main loop on the text that is left, and `Lex` the whole
 run; `Sanitize` is the loop itself, proved to compute the run.
 */
module WebLexer {
  import opened Text

  /** `out` is the list of emitted chunks, `strings` the side table, and `depths` the stack of
      brace depths, one entry per open template interpolation (the last is the innermost). */
  datatype State = State(out: seq<string>, strings: seq<string>, depths: seq<nat>) {
    function Emit(chunk: string): State {
      this.(out := out + [chunk])
    }

    function EmitLiteral(quote: char, body: string): State {
      State(out + [Placeholder(quote, |strings|)], strings + [body], depths)
    }

    function Interpolate(entered: bool): State {
      if entered then this.(depths := depths + [0]) else this
    }

    /** Python's `interp_depths[-1] += delta` on the innermost interpolation. */
    function Deepen(delta: int): State
      requires depths != [] && depths[|depths| - 1] + delta >= 0
    {
      this.(depths := depths[..|depths| - 1] + [depths[|depths| - 1] + delta])
    }

    function Leave(): State
      requires depths != []
    {
      this.(depths := depths[..|depths| - 1])
    }

    function Sanitized(): string { Concat(out) }
  }

  const START := State([], [], [])

  predicate IsQuote(c: char) { c == '\'' || c == '"' }

  function Placeholder(quote: char, index: nat): string {
    [quote, '\0'] + Decimal(index) + ['\0', quote]
  }

  // ---- spans ----

  /** The decoded body of a literal and the number of characters read, up to but not including
      the closing quote, a raw newline or the end of the text. */
  datatype Literal = Literal(body: string, size: nat)

  function ScanLiteral(quote: char, s: string): (r: Literal)
    ensures r.size <= |s|
    ensures r.size < |s| ==> s[r.size] == quote || s[r.size] == '\n'
  {
    if s == [] || s[0] == quote || s[0] == '\n' then Literal([], 0)
    else if s[0] == '\\' && |s| > 1 then
      var r := ScanLiteral(quote, s[2..]);
      Literal([s[1]] + r.body, r.size + 2)
    else
      var r := ScanLiteral(quote, s[1..]);
      Literal([s[0]] + r.body, r.size + 1)
  }

  /** The characters a literal takes after its opening quote, the closing quote included. */
  function LiteralSize(quote: char, s: string): (k: nat)
    ensures k <= |s|
  {
    var n := ScanLiteral(quote, s).size;
    if n < |s| && s[n] == quote then n + 1 else n
  }

  datatype Template = Template(size: nat, entered: bool)

  /** From just past a backtick or a closed interpolation. */
  function ScanTemplate(s: string): (r: Template)
    ensures r.size <= |s|
  {
    if s == [] then Template(0, false)
    else if s[0] == '\\' && |s| > 1 then
      var r := ScanTemplate(s[2..]);
      r.(size := r.size + 2)
    else if s[0] == '`' then Template(1, false)
    else if s[0] == '$' && |s| > 1 && s[1] == '{' then Template(2, true)
    else
      var r := ScanTemplate(s[1..]);
      r.(size := r.size + 1)
  }

  /** From just past the opening slash of a regex literal. */
  function ScanRegex(s: string, inClass: bool): (k: nat)
    ensures k <= |s|
  {
    if s == [] || s[0] == '\n' then 0
    else if s[0] == '\\' && |s| > 1 then 2 + ScanRegex(s[2..], inClass)
    else if s[0] == '[' then 1 + ScanRegex(s[1..], true)
    else if s[0] == ']' then 1 + ScanRegex(s[1..], false)
    else if s[0] == '/' && !inClass then 1
    else 1 + ScanRegex(s[1..], inClass)
  }

  /** From just past the opening of a block comment: through the first closing mark. */
  function ScanBlock(s: string): (k: nat)
    ensures k <= |s|
  {
    if |s| < 2 then |s|
    else if s[0] == '*' && s[1] == '/' then 2
    else 1 + ScanBlock(s[1..])
  }

  // ---- regex or division ----

  const REGEX_PREV_CHARS := "(,=:[!&|?{};"
  const REGEX_PREV_KEYWORDS := ["return", "case", "typeof", "instanceof", "in", "of", "new",
                              "delete", "void", "do", "else", "yield", "await"]

  /** The last character that is not white space. */
  function LastSignificant(s: string): Option<char> {
    var t := StripRight(s);
    if t == [] then None else Some(t[|t| - 1])
  }

  function TakeLast<T>(s: seq<T>, n: nat): seq<T> {
    if |s| <= n then s else s[|s| - n..]
  }

  predicate IsIdentStart(c: char) { IsLetter(c) || c == '_' || c == '$' }

  predicate IsIdentPart(c: char) { IsIdentStart(c) || IsDigit(c) }

  /** The leftmost identifier that runs to the end of `s`. */
  function IdentSuffix(s: string): string {
    if s == [] || !IsIdentPart(s[|s| - 1]) then []
    else
      var longer := IdentSuffix(s[..|s| - 1]);
      if longer != [] || IsIdentStart(s[|s| - 1]) then longer + [s[|s| - 1]] else []
  }

  function PrevWord(out: seq<string>): string {
    IdentSuffix(StripRight(TakeLast(Concat(TakeLast(out, 16)), 24)))
  }

  predicate RegexMayStart(out: seq<string>) {
    || LastSignificant(Concat(out)) == None
    || LastSignificant(Concat(out)).value in REGEX_PREV_CHARS
    || PrevWord(out) in REGEX_PREV_KEYWORDS
  }

  // ---- the main loop ----

  /** A comment, a regex literal or a division. */
  function StepSlash(st: State, s: string): (r: (State, nat))
    requires s != [] && s[0] == '/'
    ensures 1 <= r.1 <= |s|
  {
    if |s| > 1 && s[1] == '/' then (st, IndexOf(s, '\n'))
    else if |s| > 1 && s[1] == '*' then (st.Emit(" "), 2 + ScanBlock(s[2..]))
    else if RegexMayStart(st.out) then (st.Emit(" "), 1 + ScanRegex(s[1..], false))
    else (st.Emit("/"), 1)
  }

  function StepLiteral(st: State, s: string): (r: (State, nat))
    requires s != [] && IsQuote(s[0])
    ensures 1 <= r.1 <= |s|
  {
    (st.EmitLiteral(s[0], ScanLiteral(s[0], s[1..]).body), 1 + LiteralSize(s[0], s[1..]))
  }

  /** A template body, entered by a backtick or re-entered at the end of an interpolation. */
  function StepTemplate(st: State, s: string): (r: (State, nat))
    requires s != []
    ensures 1 <= r.1 <= |s|
  {
    var t := ScanTemplate(s[1..]);
    (st.Emit(" ").Interpolate(t.entered), 1 + t.size)
  }

  /** One turn of the loop: the new state and the number of characters consumed. */
  function Step(st: State, s: string): (r: (State, nat))
    requires s != []
    ensures 1 <= r.1 <= |s|
  {
    var ch := s[0];
    if ch == '/' then StepSlash(st, s)
    else if IsQuote(ch) then StepLiteral(st, s)
    else if ch == '`' then StepTemplate(st, s)
    else if st.depths != [] && ch == '{' then (st.Deepen(1).Emit([ch]), 1)
    else if st.depths != [] && ch == '}' then
      if st.depths[|st.depths| - 1] == 0 then StepTemplate(st.Leave(), s)
      else (st.Deepen(-1).Emit([ch]), 1)
    else (st.Emit([ch]), 1)
  }

  function Lex(st: State, s: string): State
    decreases |s|
  {
    if s == [] then st else
      var (next, k) := Step(st, s);
      Lex(next, s[k..])
  }

  // ---- the loops of the script ----

  method PrevSignificant(out: seq<string>) returns (c: Option<char>)
    ensures c == LastSignificant(Concat(out))
  {
    var k := |out|;
    assert out[..k] == out;
    while k > 0
      invariant 0 <= k <= |out|
      invariant LastSignificant(Concat(out)) == LastSignificant(Concat(out[..k]))
    {
      k := k - 1;
      var chunk := out[k];
      assert out[..k + 1][..k] == out[..k];
      var j := |chunk|;
      assert chunk[..j] == chunk;
      while j > 0
        invariant 0 <= j <= |chunk|
        invariant LastSignificant(Concat(out)) == LastSignificant(Concat(out[..k]) + chunk[..j])
      {
        j := j - 1;
        var tail := Concat(out[..k]) + chunk[..j + 1];
        assert tail[|tail| - 1] == chunk[j] && tail[..|tail| - 1] == Concat(out[..k]) + chunk[..j];
        if !IsSpace(chunk[j]) {
          return Some(chunk[j]);
        }
      }
      assert Concat(out[..k]) + chunk[..0] == Concat(out[..k]);
    }
    return None;
  }

  method ConsumeTemplate(text: string, start: nat) returns (j: nat, entered: bool)
    requires start <= |text|
    ensures j == start + ScanTemplate(text[start..]).size
    ensures entered == ScanTemplate(text[start..]).entered
  {
    j := start;
    while j < |text|
      invariant start <= j <= |text|
      invariant ScanTemplate(text[start..]) ==
                Template(j - start + ScanTemplate(text[j..]).size, ScanTemplate(text[j..]).entered)
    {
      var c := text[j];
      if c == '\\' && j + 1 < |text| {
        j := j + 2;
        continue;
      }
      if c == '`' {
        return j + 1, false;
      }
      if c == '$' && j + 1 < |text| && text[j + 1] == '{' {
        return j + 2, true;
      }
      j := j + 1;
    }
    return j, false;
  }

  /** The scan from `start` has come to `j` with `body` read. */
  ghost predicate Scanned(quote: char, text: string, start: nat, j: nat, body: string)
    requires start <= j <= |text|
  {
    var rest := ScanLiteral(quote, text[j..]);
    ScanLiteral(quote, text[start..]) == Literal(body + rest.body, j - start + rest.size)
  }

  lemma ScannedTurn(quote: char, text: string, start: nat, j: nat, body: string)
    requires start <= j < |text| && text[j] != quote && text[j] != '\n' && Scanned(quote, text, start, j, body)
    ensures var next := if text[j] == '\\' && j + 1 < |text| then j + 2 else j + 1;
            Scanned(quote, text, start, next, body + [text[next - 1]])
  {
    ScanLiteralTurn(quote, text, j);
    var next := if text[j] == '\\' && j + 1 < |text| then j + 2 else j + 1;
    AppendShift(body, text[next - 1], ScanLiteral(quote, text[next..]).body);
  }

  /** What one turn of the literal loop takes off the scan. */
  lemma ScanLiteralTurn(quote: char, text: string, j: nat)
    requires j < |text| && text[j] != quote && text[j] != '\n'
    ensures var escape := text[j] == '\\' && j + 1 < |text|;
            var next := if escape then j + 2 else j + 1;
            var r := ScanLiteral(quote, text[next..]);
            ScanLiteral(quote, text[j..]) ==
            Literal([text[next - 1]] + r.body, next - j + r.size)
  {
    assert text[j..][1..] == text[j + 1..];
    if j + 1 < |text| {
      assert text[j..][2..] == text[j + 2..];
    }
  }

  method ConsumeLiteral(text: string, start: nat, quote: char) returns (j: nat, body: string)
    requires start <= |text|
    ensures j == start + ScanLiteral(quote, text[start..]).size && j <= |text|
    ensures body == ScanLiteral(quote, text[start..]).body
  {
    j := start;
    body := [];
    while j < |text| && text[j] != quote && text[j] != '\n'
      invariant start <= j <= |text| && Scanned(quote, text, start, j, body)
    {
      ScannedTurn(quote, text, start, j, body);
      if text[j] == '\\' && j + 1 < |text| {
        body := body + [text[j + 1]];
        j := j + 2;
      } else {
        body := body + [text[j]];
        j := j + 1;
      }
    }
  }

  method ConsumeRegex(text: string, start: nat) returns (j: nat)
    requires start <= |text|
    ensures j == start + ScanRegex(text[start..], false)
  {
    j := start;
    var inClass := false;
    while j < |text| && text[j] != '\n'
      invariant start <= j <= |text|
      invariant ScanRegex(text[start..], false) == j - start + ScanRegex(text[j..], inClass)
    {
      var c := text[j];
      if c == '\\' && j + 1 < |text| {
        j := j + 2;
        continue;
      }
      if c == '[' {
        inClass := true;
      } else if c == ']' {
        inClass := false;
      } else if c == '/' && !inClass {
        return j + 1;
      }
      j := j + 1;
    }
  }

  /** Whether a slash after this output opens a regex literal. */
  method RegexStarts(out: seq<string>) returns (regex: bool)
    ensures regex == RegexMayStart(out)
  {
    var prev := PrevSignificant(out);
    regex := prev == None || prev.value in REGEX_PREV_CHARS || PrevWord(out) in REGEX_PREV_KEYWORDS;
  }

  /** A turn at a slash, in terms of the whole text. */
  lemma SlashTurn(st: State, text: string, i: nat)
    requires i < |text| && text[i] == '/'
    ensures StepSlash(st, text[i..]) ==
            if i + 1 < |text| && text[i + 1] == '/' then (st, IndexOf(text[i..], '\n'))
            else if i + 1 < |text| && text[i + 1] == '*' then (st.Emit(" "), 2 + ScanBlock(text[i + 2..]))
            else if RegexMayStart(st.out) then (st.Emit(" "), 1 + ScanRegex(text[i + 1..], false))
            else (st.Emit("/"), 1)
  {
    DropDrop(text, i, 1);
    if i + 1 < |text| {
      DropDrop(text, i, 2);
    }
  }

  /** What a slash adds to the output, and where the scan goes on. */
  method ReadSlash(text: string, i: nat, st: State) returns (emitted: seq<string>, next: nat)
    requires i < |text| && text[i] == '/'
    ensures next <= |text| && (st.(out := st.out + emitted), next - i) == StepSlash(st, text[i..])
  {
    SlashTurn(st, text, i);
    if i + 1 < |text| && text[i + 1] == '/' {
      assert st.out + [] == st.out;
      return [], i + IndexOf(text[i..], '\n');
    }
    if i + 1 < |text| && text[i + 1] == '*' {
      return [" "], i + 2 + ScanBlock(text[i + 2..]);
    }
    var regex := RegexStarts(st.out);
    if regex {
      next := ConsumeRegex(text, i + 1);
      return [" "], next;
    }
    return ["/"], i + 1;
  }

  /** The scan after one turn is the scan of the rest. */
  lemma LexTurn(st: State, text: string, i: nat, next: State, j: nat)
    requires i < |text| && i <= j <= |text| && (next, j - i) == Step(st, text[i..])
    ensures Lex(st, text[i..]) == Lex(next, text[j..])
  {
    DropDrop(text, i, j - i);
  }

  /** The variables of the scan. */
  class Scanner {
    const text: string
    var i: nat
    var out: seq<string>
    var strings: seq<string>
    var depths: seq<nat>

    function Now(): State
      reads this
    {
      State(out, strings, depths)
    }

    constructor (text: string)
      ensures this.text == text && i == 0 && Now() == START
    {
      this.text := text;
      i, out, strings, depths := 0, [], [], [];
    }

    method Slash()
      requires i < |text| && text[i] == '/'
      modifies this
      ensures i <= |text| && (Now(), i - old(i)) == StepSlash(old(Now()), text[old(i)..])
    {
      var emitted, next := ReadSlash(text, i, Now());
      out := out + emitted;
      i := next;
    }

    method StringLiteral()
      requires i < |text| && IsQuote(text[i])
      modifies this
      ensures i <= |text| && (Now(), i - old(i)) == StepLiteral(old(Now()), text[old(i)..])
    {
      assert text[i..][1..] == text[i + 1..];
      var ch := text[i];
      var j, body := ConsumeLiteral(text, i + 1, ch);
      out := out + [Placeholder(ch, |strings|)];
      strings := strings + [body];
      i := if j < |text| && text[j] == ch then j + 1 else j;
    }

    method TemplateBody()
      requires i < |text|
      modifies this
      ensures i <= |text| && (Now(), i - old(i)) == StepTemplate(old(Now()), text[old(i)..])
    {
      assert text[i..][1..] == text[i + 1..];
      out := out + [" "];
      var entered;
      i, entered := ConsumeTemplate(text, i + 1);
      if entered {
        depths := depths + [0];
      }
    }

    /** One turn of the loop. */
    method Turn()
      requires i < |text|
      modifies this
      ensures i <= |text| && (Now(), i - old(i)) == Step(old(Now()), text[old(i)..])
    {
      var ch := text[i];
      if ch == '/' {
        Slash();
        return;
      }
      if IsQuote(ch) {
        StringLiteral();
        return;
      }
      if ch == '`' {
        TemplateBody();
        return;
      }
      if depths != [] {
        var top := |depths| - 1;
        if ch == '{' {
          depths := depths[..top] + [depths[top] + 1];
        } else if ch == '}' {
          if depths[top] == 0 {
            depths := depths[..top];
            TemplateBody();
            return;
          }
          depths := depths[..top] + [depths[top] - 1];
        }
      }
      out := out + [[ch]];
      i := i + 1;
    }
  }

  /** The scan of the script. */
  method Sanitize(text: string) returns (sanitized: string, strings: seq<string>)
    ensures sanitized == Lex(START, text).Sanitized()
    ensures strings == Lex(START, text).strings
  {
    var scan := new Scanner(text);
    assert text[0..] == text;
    while scan.i < |text|
      invariant scan.text == text && scan.i <= |text|
      invariant Lex(scan.Now(), text[scan.i..]) == Lex(START, text)
      decreases |text| - scan.i
    {
      ghost var st, i := scan.Now(), scan.i;
      scan.Turn();
      LexTurn(st, text, i, scan.Now(), scan.i);
    }
    return Concat(scan.out), scan.strings;
  }
}
