/** What the texts of the CI gate's expressions mean, said without the evaluator. */
module CiMeaning {
  import opened Text
  import opened CiTokens
  import opened CiExpr
  import opened CiLayout
  import opened CiGate

  /** The text prints the expression, with any white space and the parentheses precedence needs, and
      is not refused for an opening mark. */
  ghost predicate Prints(text: string, e: Expr) {
    LexicalLeaves(e) && Writes(text, Yield(Group(e))) && !Contains(text, OPEN)
  }

  lemma PrintedMeans(text: string, e: Expr, c: Context)
    requires Prints(text, e)
    ensures Meaning(text, c) == Eval(e, c) && Tree(text) == Ok(Group(e))
  {
    hide Meaning, Writes, Contains, LexicalLeaves, Tree;
    assert "" + (text + "") == text;
    MeaningOfPrinted(e, text, Bare("", ""), c);
    TreeOfPrinted(e, text, Bare("", ""));
  }

  // ---- truth ----

  /** What counts as true: anything but null, false, zero and what is empty. The string 'false' does. */
  ghost predicate Holds(v: Value) {
    v !in [VNull, VBool(false), VInt(0), VFloat(0.0), VStr(""), VList([])]
  }

  lemma TruthyHolds(v: Value)
    ensures Truthy(v) <==> Holds(v)
  {
  }

  /** A condition is taken as its value's truth, and an error otherwise. */
  lemma EvaluatedTruth(text: string, e: Expr, c: Context, v: Value)
    requires Prints(text, e) && Eval(e, c) == Ok(v)
    ensures Truth(Meaning(text, c)) == Ok(Holds(v))
  {
    PrintedMeans(text, e, c);
    TruthyHolds(v);
  }

  /** `||` gives its first operand if that holds and else its second, `&&` the other way round; `!`
      gives a bool. Both operands are evaluated, and the first error is that of the whole. */
  lemma LogicMeaning(l: Expr, r: Expr, c: Context, a: Value, b: Value)
    requires Eval(l, c) == Ok(a) && Eval(r, c) == Ok(b)
    ensures forall text {:trigger Prints(text, Or(l, r))} :: Prints(text, Or(l, r)) ==> Meaning(text, c) == Ok(if Holds(a) then a else b)
    ensures forall text {:trigger Prints(text, And(l, r))} :: Prints(text, And(l, r)) ==> Meaning(text, c) == Ok(if Holds(a) then b else a)
    ensures forall text {:trigger Prints(text, Not(l))} :: Prints(text, Not(l)) ==> Meaning(text, c) == Ok(VBool(!Holds(a)))
  {
    hide Prints, Meaning;
    TruthyHolds(a);
    forall text: string
      ensures Prints(text, Or(l, r)) ==> Meaning(text, c) == Eval(Or(l, r), c)
      ensures Prints(text, And(l, r)) ==> Meaning(text, c) == Eval(And(l, r), c)
      ensures Prints(text, Not(l)) ==> Meaning(text, c) == Eval(Not(l), c)
    {
      if Prints(text, Or(l, r)) { PrintedMeans(text, Or(l, r), c); }
      if Prints(text, And(l, r)) { PrintedMeans(text, And(l, r), c); }
      if Prints(text, Not(l)) { PrintedMeans(text, Not(l), c); }
    }
  }

  /** The first operand that fails decides the error of any operator. */
  lemma StrictMeaning(e: Expr, c: Context, x: Error)
    requires e.Or? || e.And? || e.Cmp?
    requires Eval(e.left, c) == Err(x) || (Eval(e.left, c).Ok? && Eval(e.right, c) == Err(x))
    ensures forall text {:trigger Prints(text, e)} :: Prints(text, e) ==> Meaning(text, c) == Err(x)
  {
    hide Prints, Meaning;
    forall text | Prints(text, e)
      ensures Meaning(text, c) == Err(x)
    {
      PrintedMeans(text, e, c);
    }
  }

  // ---- comparison ----

  /** `s` comes before `t` in the dictionary: it is a proper prefix, or smaller where they part. */
  ghost predicate Precedes(s: string, t: string) {
    exists k :: 0 <= k <= |s| && k < |t| && s[..k] == t[..k] && (k == |s| || s[k] < t[k])
  }

  lemma PrecedesTail(s: string, t: string)
    requires s != [] && t != [] && s[0] == t[0]
    ensures Precedes(s, t) <==> Precedes(s[1..], t[1..])
  {
    var x, y := s[1..], t[1..];
    if Precedes(s, t) {
      var k :| 0 <= k <= |s| && k < |t| && s[..k] == t[..k] && (k == |s| || s[k] < t[k]);
      if k > 0 {
        assert x[..k - 1] == s[..k][1..] && y[..k - 1] == t[..k][1..];
      }
    }
    if Precedes(x, y) {
      var k :| 0 <= k <= |x| && k < |y| && x[..k] == y[..k] && (k == |x| || x[k] < y[k]);
      assert s[..k + 1] == [s[0]] + x[..k] && t[..k + 1] == [t[0]] + y[..k];
    }
  }

  lemma PrecedesHead(s: string, t: string)
    requires s == [] || t == [] || s[0] != t[0]
    ensures Precedes(s, t) <==> t != [] && (s == [] || s[0] < t[0])
  {
    if Precedes(s, t) {
      var k :| 0 <= k <= |s| && k < |t| && s[..k] == t[..k] && (k == |s| || s[k] < t[k]);
    }
    if t != [] && (s == [] || s[0] < t[0]) {
      assert s[..0] == t[..0];
    }
  }

  lemma {:induction false} LessPrecedes(s: string, t: string)
    ensures StringLess(s, t) <==> Precedes(s, t)
  {
    hide Precedes;
    if s != [] && t != [] && s[0] == t[0] {
      PrecedesTail(s, t);
      LessPrecedes(s[1..], t[1..]);
    } else {
      PrecedesHead(s, t);
    }
  }

  /** The number a value is compared as; true is one and false zero. */
  ghost predicate IsNumber(v: Value, x: real) {
    (exists i :: v == VInt(i) && x == i as real) || v == VFloat(x)
    || (v == VBool(true) && x == 1.0) || (v == VBool(false) && x == 0.0)
  }

  /** What `op` says of two values between which `less` and `greater` are the order. */
  predicate Ordered(op: string, less: bool, greater: bool) {
    match op
    case "<" => less
    case ">" => greater
    case "<=" => !greater
    case ">=" => !less
    case _ => false
  }

  lemma StringsOrdered(op: string, s: string, t: string)
    requires op in ["==", "!=", "<", ">", "<=", ">="]
    ensures Compare(op, VStr(s), VStr(t)) == Ok(VBool(if op == "==" then s == t else if op == "!=" then s != t
                                                      else Ordered(op, StringLess(s, t), StringLess(t, s))))
  {
    hide StringLess;
  }

  /** Two strings are equal when they are the same, and ordered as in a dictionary. */
  lemma StringsCompare(op: string, l: Expr, r: Expr, c: Context, s: string, t: string, text: string)
    requires op in ["==", "!=", "<", ">", "<=", ">="] && Prints(text, Cmp(op, l, r))
    requires Eval(l, c) == Ok(VStr(s)) && Eval(r, c) == Ok(VStr(t))
    ensures Meaning(text, c) == Ok(VBool(if op == "==" then s == t else if op == "!=" then s != t
                                         else Ordered(op, Precedes(s, t), Precedes(t, s))))
  {
    hide Prints, Meaning, Compare, Ordered, StringLess, Precedes;
    PrintedMeans(text, Cmp(op, l, r), c);
    StringsOrdered(op, s, t);
    LessPrecedes(s, t);
    LessPrecedes(t, s);
  }

  lemma NumberOf(v: Value, x: real)
    requires IsNumber(v, x)
    ensures Numeric(v) == Some(x) && !v.VStr? && !v.VList?
  {
  }

  lemma NumbersOrdered(op: string, a: Value, b: Value, x: real, y: real)
    requires op in ["==", "!=", "<", ">", "<=", ">="] && Numeric(a) == Some(x) && Numeric(b) == Some(y)
    requires op in ["==", "!="] ==> !a.VBool? && !b.VBool?
    ensures Compare(op, a, b) == Ok(VBool(if op == "==" then x == y else if op == "!=" then x != y
                                          else Ordered(op, x < y, y < x)))
  {
    hide Numeric;
  }

  /** Two numbers, whole or not, compare as numbers. */
  lemma NumbersCompare(op: string, l: Expr, r: Expr, c: Context, a: Value, b: Value, x: real, y: real, text: string)
    requires op in ["==", "!=", "<", ">", "<=", ">="] && Prints(text, Cmp(op, l, r))
    requires Eval(l, c) == Ok(a) && Eval(r, c) == Ok(b) && IsNumber(a, x) && IsNumber(b, y)
    requires op in ["==", "!="] ==> !a.VBool? && !b.VBool?
    ensures Meaning(text, c) == Ok(VBool(if op == "==" then x == y else if op == "!=" then x != y
                                         else Ordered(op, x < y, y < x)))
  {
    hide Prints, Meaning, Compare, Ordered;
    PrintedMeans(text, Cmp(op, l, r), c);
    NumberOf(a, x);
    NumberOf(b, y);
    NumbersOrdered(op, a, b, x, y);
  }

  /** A list is equal to itself and not before itself. */
  lemma ListsCompare(op: string, l: Expr, r: Expr, c: Context, items: seq<string>, text: string)
    requires op in ["==", "!=", "<", ">", "<=", ">="] && Prints(text, Cmp(op, l, r))
    requires Eval(l, c) == Ok(VList(items)) && Eval(r, c) == Ok(VList(items))
    ensures Meaning(text, c) == Ok(VBool(op in ["==", "<=", ">="]))
  {
    hide Prints, Meaning, Compare;
    PrintedMeans(text, Cmp(op, l, r), c);
    ListsOrdered(op, items);
  }

  lemma ListsOrdered(op: string, items: seq<string>)
    requires op in ["==", "!=", "<", ">", "<=", ">="]
    ensures Compare(op, VList(items), VList(items)) == Ok(VBool(op in ["==", "<=", ">="]))
  {
    ListSelf(items);
    hide ListLess;
  }

  lemma {:induction false} ListSelf(items: seq<string>)
    ensures !ListLess(items, items)
  {
    if items != [] {
      StringOrder(items[0], items[0]);
      ListSelf(items[1..]);
    }
  }

  /** A bool equals whatever holds as it does. */
  lemma BoolsCompare(l: Expr, r: Expr, c: Context, a: Value, b: Value, text: string, other: string)
    requires Prints(text, Cmp("==", l, r)) && Prints(other, Cmp("!=", l, r))
    requires Eval(l, c) == Ok(a) && Eval(r, c) == Ok(b) && (a.VBool? || b.VBool?)
    ensures Meaning(text, c) == Ok(VBool(Holds(a) <==> Holds(b))) && Meaning(other, c) == Ok(VBool(!(Holds(a) <==> Holds(b))))
  {
    hide Prints, Meaning;
    TruthyHolds(a);
    TruthyHolds(b);
    PrintedMeans(text, Cmp("==", l, r), c);
    PrintedMeans(other, Cmp("!=", l, r), c);
  }

  /** Values of different kinds are unequal and have no order; null equals itself. */
  lemma KindsCompare(op: string, l: Expr, r: Expr, c: Context, a: Value, b: Value, text: string)
    requires op in ["==", "!=", "<", ">", "<=", ">="] && Prints(text, Cmp(op, l, r))
    requires Eval(l, c) == Ok(a) && Eval(r, c) == Ok(b) && !a.VBool? && !b.VBool?
    requires (a.VNull? || b.VNull? || a.VStr? != b.VStr? || a.VList? != b.VList?)
    ensures Meaning(text, c) == if op == "==" then Ok(VBool(a.VNull? && b.VNull?))
                                else if op == "!=" then Ok(VBool(!(a.VNull? && b.VNull?))) else Err(ExprError)
  {
    hide Prints, Meaning, Compare;
    PrintedMeans(text, Cmp(op, l, r), c);
    KindsUnordered(op, a, b);
  }

  lemma KindsUnordered(op: string, a: Value, b: Value)
    requires op in ["==", "!=", "<", ">", "<=", ">="] && !a.VBool? && !b.VBool?
    requires a.VNull? || b.VNull? || a.VStr? != b.VStr? || a.VList? != b.VList?
    ensures Compare(op, a, b) == if op == "==" then Ok(VBool(a.VNull? && b.VNull?))
                                 else if op == "!=" then Ok(VBool(!(a.VNull? && b.VNull?))) else Err(ExprError)
  {
  }

  // ---- literals ----

  /** A string in quotes, its own doubled, is that string. */
  lemma StringLiteral(s: string, c: Context)
    ensures LexicalLeaves(StrLit(Quoted(s))) && Eval(StrLit(Quoted(s)), c) == Ok(VStr(s))
  {
    QuotedReadsBack(s);
  }

  lemma WholeNumber(digits: string)
    requires Digits(digits)
    ensures IsNumText(digits) && IsNumText("-" + digits)
    ensures NumberValue(digits) == VInt(Numeral(digits)) && NumberValue("-" + digits) == VInt(-(Numeral(digits) as int))
  {
    WholeMatches(digits);
    WholeValue(digits);
  }

  lemma WholeMatches(digits: string)
    requires Digits(digits)
    ensures IsNumText(digits) && IsNumText("-" + digits)
  {
    hide RunLength;
    RunOfAll(digits, IsDigit);
    assert IsDigit(digits[0]);
    assert digits[0..] == digits && digits[|digits|..] == [];
    var negative := "-" + digits;
    assert negative[1..] == digits && negative[1 + |digits|..] == [];
  }

  lemma WholeValue(digits: string)
    requires Digits(digits)
    ensures NumberValue(digits) == VInt(Numeral(digits)) && NumberValue("-" + digits) == VInt(-(Numeral(digits) as int))
  {
    hide Numeral, IndexOf;
    assert IsDigit(digits[0]);
    NoDot(digits);
    assert ("-" + digits)[1..] == digits && digits[..|digits|] == digits;
  }

  lemma {:induction false} NoDot(digits: string)
    requires forall i :: 0 <= i < |digits| ==> IsDigit(digits[i])
    ensures IndexOf(digits, '.') == |digits|
  {
    if digits != [] {
      NoDot(digits[1..]);
    }
  }

  /** A numeral is its number, with a minus in front the opposite. */
  lemma NumberLiteral(n: nat, c: Context)
    ensures LexicalLeaves(NumLit(Decimal(n))) && Eval(NumLit(Decimal(n)), c) == Ok(VInt(n))
    ensures LexicalLeaves(NumLit("-" + Decimal(n))) && Eval(NumLit("-" + Decimal(n)), c) == Ok(VInt(-(n as int)))
  {
    hide IsNumText, NumberValue, Decimal, Numeral;
    NumeralOfDecimal(n);
    WholeNumber(Decimal(n));
  }

  /** With a fraction of `k` digits it is that many parts of the power of ten. */
  lemma FractionLiteral(n: nat, fraction: string, c: Context)
    requires Digits(fraction)
    ensures var text := Decimal(n) + "." + fraction;
            var x := n as real + Numeral(fraction) as real / Power10(|fraction|) as real;
            && LexicalLeaves(NumLit(text)) && Eval(NumLit(text), c) == Ok(VFloat(x))
            && LexicalLeaves(NumLit("-" + text)) && Eval(NumLit("-" + text), c) == Ok(VFloat(-x))
  {
    hide RunLength, Numeral, Power10;
    var whole := Decimal(n);
    var text := whole + "." + fraction;
    NumeralOfDecimal(n);
    assert text[|whole|] == '.' && text[..|whole|] == whole && text[|whole| + 1..] == fraction;
    DotAt(whole, fraction);
    FractionMatches(whole, fraction);
    assert text[0] == whole[0] && IsDigit(whole[0]);
    assert ("-" + text)[1..] == text;
    assert text[0..] == text && ("-" + text)[1 + |whole|..] == text[|whole|..];
  }

  lemma {:induction false} DotAt(whole: string, fraction: string)
    requires forall i :: 0 <= i < |whole| ==> IsDigit(whole[i])
    ensures IndexOf(whole + "." + fraction, '.') == |whole|
  {
    if whole != [] {
      assert (whole + "." + fraction)[1..] == whole[1..] + "." + fraction;
      DotAt(whole[1..], fraction);
    }
  }

  lemma FractionMatches(whole: string, fraction: string)
    requires Digits(whole) && Digits(fraction)
    ensures var text := whole + "." + fraction;
            RunLength(text, IsDigit) == |whole| && MatchFraction(text[|whole|..]) == 1 + |fraction|
  {
    var text := whole + "." + fraction;
    RunOfAll(whole, IsDigit);
    RunOfAll(fraction, IsDigit);
    assert text == whole + ("." + fraction);
    RunStops(whole, "." + fraction, IsDigit);
    assert text[|whole|..] == "." + fraction && ("." + fraction)[1..] == fraction;
  }

  lemma PowerOfTen(k: nat)
    ensures Power10(0) == 1 && Power10(k + 1) == 10 * Power10(k)
  {
  }

  // ---- paths ----

  /** A name of letters, digits, `_` and `-`. */
  predicate IsKey(s: string) {
    s != [] && forall i :: 0 <= i < |s| ==> IsLetter(s[i]) || IsDigit(s[i]) || s[i] == '_' || s[i] == '-'
  }

  /** The context's own fields. */
  ghost predicate IsField(path: string, c: Context, v: Value) {
    || (path == "true" && v == VBool(true)) || (path == "false" && v == VBool(false)) || (path == "null" && v == VNull)
    || (path == "github.event_name" && v == VStr(c.eventName))
    || (path == "github.actor" && v == VStr(c.actor))
    || (path == "github.ref" && v == VStr(c.ref))
    || (path == "github.repository" && v == VStr("Cerid-AI/cerid-ai"))
    || (path == "github.event.pull_request.draft" && v == VBool(c.draft))
    || (path == "github.event.pull_request.labels.*.name" && v == VList(c.labels))
    || (path == "github.event.pull_request.head.repo.full_name" && v == VStr(c.headRepo))
  }

  ghost predicate IsOutput(path: string, c: Context, v: Value) {
    exists key :: IsKey(key) && path == "needs." + "changes" + ".outputs." + key && key in c.outputs && v == VStr(c.outputs[key])
  }

  ghost predicate IsResult(path: string, v: Value) {
    v == VStr("success") && exists job :: IsKey(job) && path == "needs." + job + ".result"
  }

  /** The values of the paths the simulated context models; a job's result is a success, and a
      repository variable unset. */
  ghost predicate Reads(path: string, c: Context, v: Value) {
    IsField(path, c, v) || IsOutput(path, c, v) || IsResult(path, v) || (StartsWith(path, "vars.") && v == VStr(""))
  }

  lemma {:induction false} KeyRun(s: string)
    requires s != [] && RunLength(s, IsNamePart) == |s|
    ensures IsKey(s)
  {
    if |s| > 1 {
      KeyRun(s[1..]);
      assert s == [s[0]] + s[1..];
    }
  }

  lemma {:induction false} RunPrefix(s: string, p: char -> bool)
    ensures RunLength(s[..RunLength(s, p)], p) == RunLength(s, p)
    ensures RunLength(s, p) < |s| ==> !p(s[RunLength(s, p)])
  {
    if s != [] && p(s[0]) {
      var k := RunLength(s, p);
      assert s[..k][1..] == s[1..][..k - 1];
      RunPrefix(s[1..], p);
    }
  }

  /** A path under `needs.` in its parts. */
  lemma NeedsParts(job: string, rest: string)
    requires IsKey(job) && (rest == [] || rest[0] == '.')
    ensures var path := "needs." + job + rest;
            path[6..] == job + rest && RunLength(path[6..], IsNamePart) == |job| && path[6..][..|job|] == job
            && path[6..][|job|..] == rest && StartsWith(path, "needs.")
  {
    var path := "needs." + job + rest;
    assert path[6..] == job + rest;
    RunOfAll(job, IsNamePart);
    RunStops(job, rest, IsNamePart);
  }

  lemma OutputForward(path: string, job: string, key: string)
    requires Context.NeedsOutput(path) == Some((job, key))
    ensures IsKey(job) && IsKey(key) && path == "needs." + job + ".outputs." + key
  {
    hide RunLength, IsNamePart, IsKey;
    var rest := path[6..];
    RunPrefix(rest, IsNamePart);
    KeyRun(job);
    KeyRun(key);
    assert path == "needs." + rest && rest == job + rest[|job|..];
    assert rest[|job|..] == ".outputs." + key;
  }

  lemma OutputBack(job: string, key: string)
    requires IsKey(job) && IsKey(key)
    ensures Context.NeedsOutput("needs." + job + ".outputs." + key) == Some((job, key))
  {
    var path, tail := "needs." + job + ".outputs." + key, ".outputs." + key;
    NeedsParts(job, tail);
    RunOfAll(key, IsNamePart);
    hide RunLength;
    assert path == "needs." + job + tail;
    assert path[6..][|job| + 9..] == path[6..][|job|..][9..] == tail[9..] == key;
  }

  /** The output a path reads, in both directions. */
  lemma NeedsOutputExactly(path: string, job: string, key: string)
    ensures Context.NeedsOutput(path) == Some((job, key))
       <==> IsKey(job) && IsKey(key) && path == "needs." + job + ".outputs." + key
  {
    hide RunLength, IsKey, Context.NeedsOutput;
    if Context.NeedsOutput(path) == Some((job, key)) {
      OutputForward(path, job, key);
    }
    if IsKey(job) && IsKey(key) {
      OutputBack(job, key);
    }
  }

  lemma NeedsResultExactly(path: string)
    ensures Context.NeedsResult(path) <==> exists job :: IsKey(job) && path == "needs." + job + ".result"
  {
    if Context.NeedsResult(path) {
      var rest := path[6..];
      var job := rest[..RunLength(rest, IsNamePart)];
      RunPrefix(rest, IsNamePart);
      KeyRun(job);
      assert path == "needs." + rest && rest == job + rest[|job|..] && rest[|job|..] == path[6 + |job|..];
    }
    if exists job :: IsKey(job) && path == "needs." + job + ".result" {
      var job :| IsKey(job) && path == "needs." + job + ".result";
      NeedsParts(job, ".result");
      assert path[6 + |job|..] == path[6..][|job|..];
    }
  }

  lemma FieldExactly(path: string, c: Context)
    ensures forall v :: c.Table(path) == Some(v) <==> IsField(path, c, v)
  {
  }

  lemma FieldStarts(path: string, c: Context)
    ensures c.Table(path).Some? ==> path == "null" || (path != [] && path[0] in ['t', 'f', 'g'])
  {
    assert "true"[0] == 't' && "false"[0] == 'f';
    assert "github.event_name"[0] == "github.actor"[0] == "github.ref"[0] == "github.repository"[0] == 'g';
    assert "github.event.pull_request.draft"[0] == "github.event.pull_request.labels.*.name"[0] == 'g';
    assert "github.event.pull_request.head.repo.full_name"[0] == 'g';
  }

  lemma FieldApart(path: string, c: Context)
    ensures c.Table(path).Some? ==> !StartsWith(path, "needs.") && !StartsWith(path, "vars.")
  {
    hide Context.Table;
    FieldStarts(path, c);
    if StartsWith(path, "needs.") {
      assert path[0] == path[..6][0];
    }
    if StartsWith(path, "vars.") {
      assert path[0] == path[..5][0];
    }
  }

  lemma OutputExactly(path: string, c: Context)
    ensures forall v :: IsOutput(path, c, v) <==>
              Context.NeedsOutput(path).Some? && var (job, key) := Context.NeedsOutput(path).value;
              job == "changes" && key in c.outputs && v == VStr(c.outputs[key])
    ensures Context.NeedsOutput(path).Some? ==> StartsWith(path, "needs.")
  {
    forall job, key
      ensures Context.NeedsOutput(path) == Some((job, key))
         <==> IsKey(job) && IsKey(key) && path == "needs." + job + ".outputs." + key
    {
      NeedsOutputExactly(path, job, key);
    }
    assert IsKey("changes");
  }

  lemma ResultExactly(path: string)
    ensures forall v :: IsResult(path, v) <==> Context.NeedsResult(path) && v == VStr("success")
    ensures Context.NeedsResult(path) ==> StartsWith(path, "needs.") && Context.NeedsOutput(path) == None
  {
    NeedsResultExactly(path);
    if Context.NeedsResult(path) {
      var job :| IsKey(job) && path == "needs." + job + ".result";
      NeedsParts(job, ".result");
      assert ".result"[1] == 'r' && ".outputs."[1] == 'o';
      if Context.NeedsOutput(path).Some? {
        assert false;
      }
    }
  }

  /** A path has exactly the value listed for it, and any other path is an error. */
  lemma PathExactly(path: string, c: Context)
    ensures forall v :: c.Resolve(path) == Ok(v) <==> Reads(path, c, v)
    ensures c.Resolve(path).Err? <==> forall v :: !Reads(path, c, v)
    ensures c.Resolve(path).Err? ==> c.Resolve(path).error == ExprError
  {
    hide IsField, IsOutput, IsResult, Context.Table, Context.NeedsOutput, Context.NeedsResult, Context.Resolve, StartsWith;
    FieldExactly(path, c);
    FieldApart(path, c);
    OutputExactly(path, c);
    ResultExactly(path);
    NotBoth(path);
    ResolveCases(path, c);
    assert c.Resolve(path).Ok? ==> Reads(path, c, c.Resolve(path).value);
  }

  lemma NotBoth(path: string)
    ensures !(StartsWith(path, "needs.") && StartsWith(path, "vars."))
  {
    if |path| >= 6 {
      assert path[..6][0] == path[0] && path[..5][0] == path[0] && "needs."[0] != "vars."[0];
    }
  }

  lemma ResolveCases(path: string, c: Context)
    ensures c.Table(path).Some? ==> c.Resolve(path) == Ok(c.Table(path).value)
    ensures c.Table(path) == None && Context.NeedsOutput(path).Some? ==>
              var (job, key) := Context.NeedsOutput(path).value;
              c.Resolve(path) == if job == "changes" && key in c.outputs then Ok(VStr(c.outputs[key])) else Err(ExprError)
    ensures c.Table(path) == None && Context.NeedsOutput(path) == None ==>
              c.Resolve(path) == if Context.NeedsResult(path) then Ok(VStr("success"))
                                 else if StartsWith(path, "vars.") then Ok(VStr("")) else Err(ExprError)
  {
    hide Context.Table, Context.NeedsOutput, Context.NeedsResult, StartsWith;
  }

  // ---- texts ----

  lemma {:induction false} LayoutAppend(ts: seq<Token>, gaps: seq<string>, us: seq<Token>, more: seq<string>)
    requires |ts| == |gaps| && |us| == |more|
    ensures Layout(ts + us, gaps + more) == Layout(ts, gaps) + Layout(us, more)
  {
    if ts == [] {
      assert ts + us == us && gaps + more == more;
    } else {
      assert (ts + us)[1..] == ts[1..] + us && (gaps + more)[1..] == gaps[1..] + more;
      LayoutAppend(ts[1..], gaps[1..], us, more);
      var rest := Layout(ts[1..], gaps[1..]);
      assert ts[0].text + (gaps[0] + (rest + Layout(us, more))) == ts[0].text + (gaps[0] + rest) + Layout(us, more);
    }
  }

  lemma LayoutLast(ts: seq<Token>, gaps: seq<string>, gap: string)
    requires |gaps| == |ts| > 0 && gaps[|ts| - 1] == []
    ensures Layout(ts, gaps[|ts| - 1 := gap]) == Layout(ts, gaps) + gap
    decreases |ts|
  {
    var wider := gaps[|ts| - 1 := gap];
    var rest := Layout(ts[1..], gaps[1..]);
    if |ts| == 1 {
      assert ts[1..] == [] && Layout(ts[1..], wider[1..]) == [] && rest == [];
      assert ts[0].text + (gap + []) == ts[0].text + ([] + []) + gap;
    } else {
      assert wider[1..] == gaps[1..][|ts[1..]| - 1 := gap];
      LayoutLast(ts[1..], gaps[1..], gap);
      assert ts[0].text + (gaps[0] + (rest + gap)) == ts[0].text + (gaps[0] + rest) + gap;
    }
  }

  /** Two written token lists with a gap between them. */
  lemma WritesJoin(x: string, ts: seq<Token>, gap: string, y: string, us: seq<Token>)
    requires Writes(x, ts) && Writes(y, us) && ts != [] && us != [] && AllSpace(gap)
    ensures Writes(x + gap + y, ts + us)
  {
    var gaps: seq<string> :| |gaps| == |ts| && AllGaps(gaps) && x == Layout(ts, gaps) && gaps[|ts| - 1] == [];
    var more: seq<string> :| |more| == |us| && AllGaps(more) && y == Layout(us, more) && more[|us| - 1] == [];
    hide Layout, AllSpace;
    var wider := gaps[|ts| - 1 := gap];
    LayoutLast(ts, gaps, gap);
    LayoutAppend(ts, wider, us, more);
    GapsJoin(wider, more);
  }

  lemma GapsJoin(a: seq<string>, b: seq<string>)
    requires AllGaps(a) && AllGaps(b) && b != [] && b[|b| - 1] == []
    ensures AllGaps(a + b) && (a + b)[|a + b| - 1] == []
  {
    hide AllSpace;
  }

  /** Two operands that bind tightly, with an operator and gaps between them. */
  lemma WritesOperator(x: string, l: Expr, op: string, y: string, r: Expr, gap: string, after: string, e: Expr)
    requires LexicalLeaves(l) && Writes(x, Yield(Group(l))) && LexicalLeaves(r) && Writes(y, Yield(Group(r)))
    requires AllSpace(gap) && AllSpace(after) && Level(Group(l)) >= 3 && Level(Group(r)) >= 3
    requires (op in CMP_OPS && e == Cmp(op, l, r)) || (op == "||" && e == Or(l, r)) || (op == "&&" && e == And(l, r))
    ensures LexicalLeaves(e) && Writes(x + gap + (op + after + y), Yield(Group(e)))
  {
    hide Writes;
    OneTokenLayout(OpToken(op));
    WritesJoin(op, [OpToken(op)], after, y, Yield(Group(r)));
    WritesJoin(x, Yield(Group(l)), gap, op + after + y, [OpToken(op)] + Yield(Group(r)));
    AppendAssoc(Yield(Group(l)), [OpToken(op)], Yield(Group(r)));
  }

  /** The text that compares two strings, whatever they are and however it is spaced, is true exactly
      when they are the same, unless it holds an opening mark. */
  lemma EqualText(s: string, t: string, gap: string, after: string, c: Context)
    requires AllSpace(gap) && AllSpace(after)
    ensures var same := Quoted(s) + gap + ("==" + after + Quoted(t));
            Meaning(same, c) == if Contains(same, OPEN) then Err(ExprError) else Ok(VBool(s == t))
    ensures var different := Quoted(s) + gap + ("!=" + after + Quoted(t));
            Meaning(different, c) == if Contains(different, OPEN) then Err(ExprError) else Ok(VBool(s != t))
  {
    hide Meaning, Writes, Quoted, Contains, IsStrText, StringValue;
    EqualTextOf("==", s, t, gap, after, c);
    EqualTextOf("!=", s, t, gap, after, c);
  }

  lemma EqualTextOf(op: string, s: string, t: string, gap: string, after: string, c: Context)
    requires AllSpace(gap) && AllSpace(after) && op in ["==", "!="]
    ensures var text := Quoted(s) + gap + (op + after + Quoted(t));
            Meaning(text, c) == if Contains(text, OPEN) then Err(ExprError) else Ok(VBool(if op == "==" then s == t else s != t))
  {
    hide Meaning, Writes, Quoted, Contains, IsStrText, StringValue;
    var l, r := StrLit(Quoted(s)), StrLit(Quoted(t));
    var text := Quoted(s) + gap + (op + after + Quoted(t));
    QuotedReadsBack(s);
    QuotedReadsBack(t);
    OneTokenLayout(Token(Str, Quoted(s)));
    OneTokenLayout(Token(Str, Quoted(t)));
    WritesOperator(Quoted(s), l, op, Quoted(t), r, gap, after, Cmp(op, l, r));
    assert "" + (text + "") == text;
    MeaningOfPrinted(Cmp(op, l, r), text, Bare("", ""), c);
  }

  /** The parts of a path behind its first name. */
  function Dotted(segments: seq<string>): string {
    if segments == [] then [] else "." + segments[0] + Dotted(segments[1..])
  }

  /** A part of a path behind a dot: as a name, or with stars. */
  predicate IsSegment(s: string) {
    s != [] && forall i :: 0 <= i < |s| ==> IsLetter(s[i]) || IsDigit(s[i]) || s[i] == '_' || s[i] == '-' || s[i] == '*'
  }

  lemma {:induction false} SegmentsMatch(segments: seq<string>)
    requires forall s :: s in segments ==> IsSegment(s)
    ensures MatchSegments(Dotted(segments)) == |Dotted(segments)|
  {
    if segments != [] {
      var s, rest := segments[0], Dotted(segments[1..]);
      assert IsSegment(s);
      SegmentsMatch(segments[1..]);
      RunOfAll(s, IsSegmentPart);
      RunStops(s, rest, IsSegmentPart);
      SegmentThenRest(s, rest);
    }
  }

  lemma SegmentThenRest(s: string, rest: string)
    requires s != [] && RunLength(s + rest, IsSegmentPart) == |s|
    ensures MatchSegments("." + s + rest) == 1 + |s| + MatchSegments(rest)
  {
    var path := "." + s + rest;
    assert path[1..] == s + rest && path[1 + |s|..] == rest;
  }

  lemma PathMatches(first: string, segments: seq<string>)
    requires IsKey(first) && (IsLetter(first[0]) || first[0] == '_') && forall s :: s in segments ==> IsSegment(s)
    ensures IsPathText(first + Dotted(segments))
  {
    SegmentsMatch(segments);
    FirstPart(first, Dotted(segments));
  }

  lemma {:induction false} SegmentChars(s: string, i: nat)
    requires i < MatchSegments(s)
    ensures IsSegmentPart(s[i]) || s[i] == '.'
    decreases |s|
  {
    var n := 1 + RunLength(s[1..], IsSegmentPart);
    if 0 < i < n {
      RunHolds(s[1..], IsSegmentPart, i - 1);
    } else if i >= n {
      SegmentChars(s[n..], i - n);
    }
  }

  lemma PathChars(path: string)
    requires IsPathText(path)
    ensures forall i :: 0 <= i < |path| ==> IsSegmentPart(path[i]) || path[i] == '.'
  {
    var n := 1 + RunLength(path[1..], IsNamePart);
    forall i | 0 <= i < |path|
      ensures IsSegmentPart(path[i]) || path[i] == '.'
    {
      if 0 < i < n {
        RunHolds(path[1..], IsNamePart, i - 1);
      } else if i >= n {
        SegmentChars(path[n..], i - n);
      }
    }
  }

  /** A path as a text has the value listed for it. */
  lemma PathText(path: string, c: Context)
    requires IsPathText(path)
    ensures Prints(path, Name(path)) && Meaning(path, c) == c.Resolve(path)
    ensures forall v :: Meaning(path, c) == Ok(v) <==> Reads(path, c, v)
  {
    hide Meaning, Writes, Contains, IsPathText, Reads;
    PathChars(path);
    OneTokenLayout(Token(Path, path));
    NoMark(path);
    PrintedMeans(path, Name(path), c);
    PathExactly(path, c);
  }

  lemma DottedThree(a: string, b: string, c: string)
    ensures Dotted([a, b, c]) == "." + a + ("." + b + ("." + c))
  {
    assert [a, b, c][1..] == [b, c] && [b, c][1..] == [c] && [c][1..] == [];
    assert Dotted([c]) == "." + c + "" == "." + c;
  }

  lemma Words(key: string)
    requires IsKey(key)
    ensures IsSegment("changes") && IsSegment("outputs") && IsKey("needs") && IsLetter("needs"[0]) && IsSegment(key)
  {
  }

  lemma OutputParts(key: string)
    ensures "needs" + Dotted(["changes", "outputs", key]) == OutputPath(key)
  {
    DottedThree("changes", "outputs", key);
    assert "." + "changes" == ".changes" && "." + "outputs" == ".outputs";
    assert "needs" + (".changes" + (".outputs" + ("." + key))) == OutputPath(key);
  }

  lemma LabelWords()
    ensures IsSegment("event") && IsSegment("pull_request") && IsSegment("labels") && IsSegment("*") && IsSegment("name")
    ensures IsKey("github") && IsLetter("github"[0])
  {
  }

  /** One part of a path, then the rest. */
  lemma OnePart(s: string, rest: string)
    requires IsSegment(s) && (rest == [] || rest[0] == '.')
    ensures MatchSegments("." + s + rest) == 1 + |s| + MatchSegments(rest)
  {
    hide RunLength, MatchSegments;
    RunOfAll(s, IsSegmentPart);
    RunStops(s, rest, IsSegmentPart);
    SegmentThenRest(s, rest);
  }

  lemma NameParts()
    ensures MatchSegments(".name") == 5
  {
    assert MatchSegments("") == 0;
    hide RunLength, MatchSegments, IsSegment, IsKey, IsLetter, IsDigit;
    LabelWords();
    OnePart("name", "");
    assert "." + "name" + "" == ".name";
  }

  lemma StarParts()
    ensures MatchSegments(".*.name") == 7
  {
    hide RunLength, MatchSegments, IsSegment, IsKey, IsLetter, IsDigit;
    LabelWords();
    NameParts();
    OnePart("*", ".name");
    assert "." + "*" + ".name" == ".*.name";
  }

  lemma LabelParts()
    ensures MatchSegments(".labels.*.name") == 14
  {
    hide RunLength, MatchSegments, IsSegment, IsKey;
    LabelWords();
    StarParts();
    OnePart("labels", ".*.name");
    assert "." + "labels" + ".*.name" == ".labels.*.name";
  }

  lemma RequestParts()
    ensures MatchSegments(".pull_request.labels.*.name") == 27
  {
    hide RunLength, MatchSegments, IsSegment, IsKey;
    LabelWords();
    LabelParts();
    OnePart("pull_request", ".labels.*.name");
    assert "." + "pull_request" + ".labels.*.name" == ".pull_request.labels.*.name";
  }

  lemma EventParts()
    ensures MatchSegments(".event.pull_request.labels.*.name") == 33
  {
    hide RunLength, MatchSegments, IsSegment, IsKey;
    LabelWords();
    RequestParts();
    OnePart("event", ".pull_request.labels.*.name");
    assert "." + "event" + ".pull_request.labels.*.name" == ".event.pull_request.labels.*.name";
  }

  /** The star of the labels' path is part of it. */
  lemma LabelsIsPath()
    ensures IsPathText("github.event.pull_request.labels.*.name")
  {
    hide RunLength, MatchSegments, IsSegment, IsKey, IsPathText, IsLetter;
    LabelWords();
    EventParts();
    FirstPart("github", ".event.pull_request.labels.*.name");
    assert "github" + ".event.pull_request.labels.*.name" == "github.event.pull_request.labels.*.name";
  }

  lemma FirstPart(first: string, rest: string)
    requires IsKey(first) && (IsLetter(first[0]) || first[0] == '_') && (rest == [] || rest[0] == '.')
    requires MatchSegments(rest) == |rest|
    ensures IsPathText(first + rest)
  {
    NameTail(first, rest);
    NameFirst(first);
    hide RunLength, MatchSegments, IsKey, IsNamePart, IsNameStart, IsPathText;
    var path := first + rest;
    DropJoin(first, rest, 1);
    DropJoin(first, rest, |first|);
    assert path[0] == first[0] && [] + rest == rest;
    PathOfParts(path, |first|);
  }

  lemma NameFirst(first: string)
    requires IsKey(first) && (IsLetter(first[0]) || first[0] == '_')
    ensures first != [] && IsNameStart(first[0])
  {
  }

  lemma PathOfParts(path: string, n: nat)
    requires 0 < n <= |path| && IsNameStart(path[0])
    requires RunLength(path[1..], IsNamePart) == n - 1 && MatchSegments(path[n..]) == |path| - n
    ensures IsPathText(path)
  {
    hide RunLength, MatchSegments, IsNameStart;
  }

  lemma NameTail(first: string, rest: string)
    requires IsKey(first) && (rest == [] || rest[0] == '.')
    ensures RunLength(first[1..] + rest, IsNamePart) == |first| - 1
  {
    hide RunLength;
    RunOfAll(first[1..], IsNamePart);
    RunStops(first[1..], rest, IsNamePart);
  }

  /** The output of an area is a path. */
  lemma OutputIsPath(key: string)
    requires IsKey(key)
    ensures IsPathText(OutputPath(key))
  {
    hide IsKey, IsSegment, IsPathText, Dotted, OutputPath, IsLetter;
    Words(key);
    PathMatches("needs", ["changes", "outputs", key]);
    OutputParts(key);
  }

  // ---- functions ----

  /** `t` occurs in `s`. */
  ghost predicate Occurs(s: string, t: string) { exists a, b :: s == a + t + b }

  lemma ContainsOccurs(s: string, t: string)
    ensures Contains(s, t) <==> Occurs(s, t)
  {
    if Contains(s, t) {
      var i :| 0 <= i <= |s| - |t| && OccursAt(s, i, t);
      assert s == s[..i] + t + s[i + |t|..];
    }
    if Occurs(s, t) {
      var a, b :| s == a + t + b;
      assert OccursAt(s, |a|, t);
    }
  }

  lemma EndsOccur(s: string, t: string)
    ensures StartsWith(s, t) <==> exists b :: s == t + b
    ensures EndsWith(s, t) <==> exists a :: s == a + t
  {
    if StartsWith(s, t) {
      assert s == t + s[|t|..];
    }
    if EndsWith(s, t) {
      assert s == s[..|s| - |t|] + t;
    }
  }

  /** The text of a call means the call on its values. */
  lemma CallText(fn: string, args: seq<Expr>, c: Context, values: seq<Value>, text: string)
    requires EvalAll(args, c) == Ok(values) && Prints(text, Call(fn, args))
    ensures Meaning(text, c) == c.Call(fn, values)
  {
    hide Prints, Meaning, Context.Call;
    PrintedMeans(text, Call(fn, args), c);
  }

  /** What the status functions give, with whatever arguments. */
  lemma StatusCalls(fn: string, args: seq<Expr>, c: Context, text: string)
    requires fn in ["always", "success", "failure", "cancelled"] && EvalAll(args, c).Ok?
    requires Prints(text, Call(fn, args))
    ensures Meaning(text, c) == Ok(VBool(fn == "always" || fn == "success"))
  {
    hide Prints, Meaning, EvalAll;
    CallText(fn, args, c, EvalAll(args, c).value, text);
  }

  /** What the functions on two strings give. */
  lemma StringCalls(fn: string, args: seq<Expr>, c: Context, s: string, t: string, text: string)
    requires fn in ["contains", "startsWith", "endsWith"] && EvalAll(args, c) == Ok([VStr(s), VStr(t)])
    requires Prints(text, Call(fn, args))
    ensures Meaning(text, c) == Ok(VBool(if fn == "contains" then Occurs(s, t)
                                         else if fn == "startsWith" then exists b :: s == t + b
                                         else exists a :: s == a + t))
  {
    hide Prints, Meaning, EvalAll, Contains, StartsWith, EndsWith, Occurs;
    CallText(fn, args, c, [VStr(s), VStr(t)], text);
    ContainsOccurs(s, t);
    EndsOccur(s, t);
  }

  /** `contains` on the labels asks for a member. */
  lemma LabelCall(args: seq<Expr>, c: Context, items: seq<string>, t: string, text: string)
    requires EvalAll(args, c) == Ok([VList(items), VStr(t)]) && Prints(text, Call("contains", args))
    ensures Meaning(text, c) == Ok(VBool(t in items))
  {
    hide Prints, Meaning, EvalAll;
    CallText("contains", args, c, [VList(items), VStr(t)], text);
  }

  /** Any other function, and `contains` with another number of arguments, is an error. */
  lemma UnknownCalls(fn: string, args: seq<Expr>, c: Context, values: seq<Value>, text: string)
    requires fn !in ["always", "success", "failure", "cancelled", "startsWith", "endsWith"]
    requires fn == "contains" ==> |values| != 2
    requires EvalAll(args, c) == Ok(values) && Prints(text, Call(fn, args))
    ensures Meaning(text, c) == Err(ExprError)
  {
    hide Prints, Meaning, EvalAll;
    CallText(fn, args, c, values, text);
  }

  // ---- the area filter ----

  /** The plain filter of an area is credited and its negation is not, in every context. */
  lemma PlainFilter(key: string, c: Context)
    requires IsKey(key)
    ensures Filters(OutputPath(key) + " == 'true'", c, key)
    ensures !Filters(OutputPath(key) + " != 'true'", c, key)
  {
    hide Meaning, Writes, Contains, Tree;
    FilterValue("==", key, c, "true");
    FilterValue("==", key, c, "false");
    FilterValue("!=", key, c, "true");
    FilterValue("!=", key, c, "false");
    assert OutputPath(key) + " " + ("==" + " " + "'true'") == OutputPath(key) + " == 'true'";
    assert OutputPath(key) + " " + ("!=" + " " + "'true'") == OutputPath(key) + " != 'true'";
  }

  lemma FilterValue(op: string, key: string, c: Context, value: string)
    requires IsKey(key) && op in ["==", "!="]
    ensures var text := OutputPath(key) + " " + (op + " " + "'true'");
            Tree(text).Ok? && Truth(Eval(Tree(text).value, c.WithOutput(key, value)))
                           == Ok(if op == "==" then value == "true" else value != "true")
  {
    hide Meaning, Writes, Contains, Tree, IsPathText, IsStrText, StringValue, Reads, OutputPath;
    var l, r := Name(OutputPath(key)), StrLit("'true'");
    var e := Cmp(op, l, r);
    var text := OutputPath(key) + " " + (op + " " + "'true'");
    var d := c.WithOutput(key, value);
    FilterPrints(op, key);
    PrintedMeans(text, e, d);
    OutputReads(key, c, value);
    TrueLiteral();
    GroupedStays(e);
  }

  lemma TrueLiteral()
    ensures IsStrText("'true'") && StringValue("'true'") == "true"
  {
    QuotedReadsBack("true");
    assert "true"[1..] == "rue" && "rue"[1..] == "ue" && "ue"[1..] == "e" && "e"[1..] == "";
    assert Double("e") == "e" && Double("ue") == "ue" && Double("rue") == "rue" && Double("true") == "true";
    assert Quoted("true") == "'true'";
  }

  lemma OutputReads(key: string, c: Context, value: string)
    requires IsKey(key)
    ensures c.WithOutput(key, value).Resolve(OutputPath(key)) == Ok(VStr(value))
  {
    var path, d := OutputPath(key), c.WithOutput(key, value);
    assert path == "needs." + "changes" + ".outputs." + key;
    assert IsOutput(path, d, VStr(value));
    PathExactly(path, d);
  }

  lemma FilterPrints(op: string, key: string)
    requires IsKey(key) && op in ["==", "!="]
    ensures Prints(OutputPath(key) + " " + (op + " " + "'true'"), Cmp(op, Name(OutputPath(key)), StrLit("'true'")))
  {
    hide Writes, Contains, IsPathText, IsStrText;
    var path := OutputPath(key);
    OutputIsPath(key);
    TrueLiteral();
    PathChars(path);
    OneTokenLayout(Token(Path, path));
    OneTokenLayout(Token(Str, "'true'"));
    WritesOperator(path, Name(path), op, "'true'", StrLit("'true'"), " ", " ", Cmp(op, Name(path), StrLit("'true'")));
    NoMark(path + " " + (op + " " + "'true'"));
  }

  /** A conjunction is credited exactly when both sides hold with the output true and one of them
      fails with it false; a disjunction the other way round. */
  lemma FilterOfBoth(l: Expr, r: Expr, c: Context, key: string, both: string, either: string)
    requires Prints(both, And(l, r)) && Prints(either, Or(l, r))
    requires forall v :: v in ["true", "false"] ==> Eval(l, c.WithOutput(key, v)).Ok? && Eval(r, c.WithOutput(key, v)).Ok?
    ensures var on, off := c.WithOutput(key, "true"), c.WithOutput(key, "false");
            && (Filters(both, c, key) <==>
                  && Holds(Eval(l, on).value) && Holds(Eval(r, on).value)
                  && !(Holds(Eval(l, off).value) && Holds(Eval(r, off).value)))
            && (Filters(either, c, key) <==>
                  && (Holds(Eval(l, on).value) || Holds(Eval(r, on).value))
                  && !Holds(Eval(l, off).value) && !Holds(Eval(r, off).value))
  {
    hide Prints, Filters;
    var on, off := c.WithOutput(key, "true"), c.WithOutput(key, "false");
    assert "true" in ["true", "false"] && "false" in ["true", "false"];
    FilterPrinted(both, And(l, r), c, key);
    FilterPrinted(either, Or(l, r), c, key);
    TruthyHolds(Eval(l, on).value);
    TruthyHolds(Eval(l, off).value);
  }

  /** What it takes for a printed condition to be credited. */
  lemma FilterPrinted(text: string, e: Expr, c: Context, key: string)
    requires Prints(text, e)
    ensures var on, off := Eval(e, c.WithOutput(key, "true")), Eval(e, c.WithOutput(key, "false"));
            Filters(text, c, key) <==> on.Ok? && Holds(on.value) && off.Ok? && !Holds(off.value)
  {
    hide Prints, Meaning, Tree, Eval;
    var on, off := c.WithOutput(key, "true"), c.WithOutput(key, "false");
    PrintedMeans(text, e, on);
    GroupMeaning(e, on);
    GroupMeaning(e, off);
    if Eval(e, on).Ok? { TruthyHolds(Eval(e, on).value); }
    if Eval(e, off).Ok? { TruthyHolds(Eval(e, off).value); }
  }
}
