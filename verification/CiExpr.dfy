/** Expressions of the CI gate: their values, their contexts and their meaning. */
module CiExpr {
  import opened Text
  import opened CiTokens

  // ---- values ----

  /** Floating-point numbers are exact here. */
  datatype Value =
    | VNull
    | VBool(b: bool)
    | VInt(i: int)
    | VFloat(r: real)
    | VStr(s: string)
    | VList(items: seq<string>)

  function Truthy(v: Value): bool {
    match v
    case VNull => false
    case VBool(b) => b
    case VInt(i) => i != 0
    case VFloat(r) => r != 0.0
    case VStr(s) => s != ""
    case VList(items) => items != []
  }

  /** The number a value stands for in Python's comparisons; a bool is 0 or 1. */
  function Numeric(v: Value): Option<real> {
    match v
    case VBool(b) => Some(if b then 1.0 else 0.0)
    case VInt(i) => Some(i as real)
    case VFloat(r) => Some(r)
    case _ => None
  }

  function LooseEq(l: Value, r: Value): bool {
    if l.VBool? || r.VBool? then Truthy(l) == Truthy(r)
    else if Numeric(l).Some? && Numeric(r).Some? then Numeric(l) == Numeric(r)
    else l == r
  }

  predicate ListLess(a: seq<string>, b: seq<string>) {
    if b == [] then false
    else if a == [] then true
    else StringLess(a[0], b[0]) || (a[0] == b[0] && ListLess(a[1..], b[1..]))
  }

  /** `l < r`, or None where Python raises a TypeError. */
  function Less(l: Value, r: Value): Option<bool> {
    if Numeric(l).Some? && Numeric(r).Some? then Some(Numeric(l).value < Numeric(r).value)
    else match (l, r)
      case (VStr(a), VStr(b)) => Some(StringLess(a, b))
      case (VList(a), VList(b)) => Some(ListLess(a, b))
      case _ => None
  }

  function Compare(op: string, l: Value, r: Value): Result<Value> {
    if op == "==" then Ok(VBool(LooseEq(l, r)))
    else if op == "!=" then Ok(VBool(!LooseEq(l, r)))
    else if Less(l, r) == None then Err(ExprError)
    else if op == ">" then Ok(VBool(Less(r, l) == Some(true)))
    else if op == "<" then Ok(VBool(Less(l, r) == Some(true)))
    else if op == ">=" then Ok(VBool(Less(l, r) == Some(false)))
    else Ok(VBool(Less(r, l) == Some(false)))
  }

  // ---- contexts ----

  /** The simulated GitHub context. `str` is Python's `str` for values other than strings. */
  datatype Context = Context(
    eventName: string,
    actor: string,
    ref: string,
    draft: bool,
    labels: seq<string>,
    outputs: map<string, string>,
    headRepo: string,
    str: Value -> string)
  {
    function WithOutput(key: string, value: string): Context {
      this.(outputs := outputs[key := value])
    }

    /** `needs.<job>.outputs.<key>`, or None. */
    static function NeedsOutput(path: string): Option<(string, string)> {
      if !StartsWith(path, "needs.") then None
      else
        var rest := path[6..];
        var n := RunLength(rest, IsNamePart);
        if n == 0 || !StartsWith(rest[n..], ".outputs.") then None
        else
          var key := rest[n + 9..];
          if key == [] || RunLength(key, IsNamePart) != |key| then None else Some((rest[..n], key))
    }

    /** `needs.<job>.result` */
    static predicate NeedsResult(path: string) {
      && StartsWith(path, "needs.")
      && var n := RunLength(path[6..], IsNamePart);
      && n > 0 && path[6 + n..] == ".result"
    }

    function Table(path: string): Option<Value> {
      if path == "true" then Some(VBool(true))
      else if path == "false" then Some(VBool(false))
      else if path == "null" then Some(VNull)
      else if path == "github.event_name" then Some(VStr(eventName))
      else if path == "github.actor" then Some(VStr(actor))
      else if path == "github.ref" then Some(VStr(ref))
      else if path == "github.repository" then Some(VStr("Cerid-AI/cerid-ai"))
      else if path == "github.event.pull_request.draft" then Some(VBool(draft))
      else if path == "github.event.pull_request.labels.*.name" then Some(VList(labels))
      else if path == "github.event.pull_request.head.repo.full_name" then Some(VStr(headRepo))
      else None
    }

    /** An unmodelled path is an error, not false. */
    function Resolve(path: string): Result<Value> {
      if Table(path).Some? then Ok(Table(path).value)
      else
        match NeedsOutput(path)
        case Some((job, key)) =>
          if job != "changes" || key !in outputs then Err(ExprError) else Ok(VStr(outputs[key]))
        case None =>
          if NeedsResult(path) then Ok(VStr("success"))
          else if StartsWith(path, "vars.") then Ok(VStr(""))
          else Err(ExprError)
    }

    function Str(v: Value): string {
      if v.VStr? then v.s else str(v)
    }

    function Call(name: string, args: seq<Value>): Result<Value> {
      if name in ["always", "success"] then Ok(VBool(true))
      else if name in ["failure", "cancelled"] then Ok(VBool(false))
      else if name == "contains" then
        if |args| != 2 then Err(ExprError)
        else if args[0].VList? then Ok(VBool(args[1].VStr? && args[1].s in args[0].items))
        else Ok(VBool(Contains(Str(args[0]), Str(args[1]))))
      else if name in ["startsWith", "endsWith"] then
        if |args| < 2 then Err(IndexError)
        else if name == "startsWith" then Ok(VBool(StartsWith(Str(args[0]), Str(args[1]))))
        else Ok(VBool(EndsWith(Str(args[0]), Str(args[1]))))
      else Err(ExprError)
    }
  }

  // ---- literals ----

  /** `s.replace("''", "'")` */
  function Undouble(s: string): string {
    if s == [] then []
    else if |s| > 1 && s[0] == '\'' && s[1] == '\'' then ['\''] + Undouble(s[2..])
    else [s[0]] + Undouble(s[1..])
  }

  function StringValue(text: string): string {
    if |text| < 2 then [] else Undouble(text[1..|text| - 1])
  }

  function Power10(n: nat): (p: nat)
    ensures p > 0
  {
    if n == 0 then 1 else 10 * Power10(n - 1)
  }

  function NumberValue(text: string): Value {
    var negative := text != [] && text[0] == '-';
    var digits := if negative then text[1..] else text;
    var dot := IndexOf(digits, '.');
    var whole: int := Numeral(digits[..dot]);
    if dot == |digits| then VInt(if negative then -whole else whole)
    else
      var fraction := digits[dot + 1..];
      var magnitude := whole as real + Numeral(fraction) as real / Power10(|fraction|) as real;
      VFloat(if negative then -magnitude else magnitude)
  }

  // ---- expressions ----

  /** Leaves keep the text of their token. */
  datatype Expr =
    | Or(left: Expr, right: Expr)
    | And(left: Expr, right: Expr)
    | Cmp(op: string, left: Expr, right: Expr)
    | Not(inner: Expr)
    | Paren(inner: Expr)
    | StrLit(text: string)
    | NumLit(text: string)
    | Name(text: string)
    | Call(fn: string, args: seq<Expr>)

  /** The strict meaning: operands from left to right, both sides of `||` and `&&` always, the
      first error wins. */
  function Eval(e: Expr, c: Context): Result<Value>
    decreases e
  {
    match e
    case Or(l, r) =>
      var a :- Eval(l, c);
      var b :- Eval(r, c);
      Ok(if Truthy(a) then a else b)
    case And(l, r) =>
      var a :- Eval(l, c);
      var b :- Eval(r, c);
      Ok(if Truthy(a) then b else a)
    case Cmp(op, l, r) =>
      var a :- Eval(l, c);
      var b :- Eval(r, c);
      Compare(op, a, b)
    case Not(i) =>
      var a :- Eval(i, c);
      Ok(VBool(!Truthy(a)))
    case Paren(i) => Eval(i, c)
    case StrLit(text) => Ok(VStr(StringValue(text)))
    case NumLit(text) => Ok(NumberValue(text))
    case Name(path) => c.Resolve(path)
    case Call(fn, args) =>
      var values :- EvalAll(args, c);
      c.Call(fn, values)
  }

  function EvalAll(args: seq<Expr>, c: Context): Result<seq<Value>>
    decreases args
  {
    if args == [] then Ok([])
    else
      var init :- EvalAll(args[..|args| - 1], c);
      var last :- Eval(args[|args| - 1], c);
      Ok(init + [last])
  }

  // ---- concrete syntax ----

  /** Binding strength: 0 for `||`, 1 for `&&`, 2 for a comparison, 3 for `!`, 4 for the rest. */
  function Level(e: Expr): nat {
    match e
    case Or(_, _) => 0
    case And(_, _) => 1
    case Cmp(_, _, _) => 2
    case Not(_) => 3
    case _ => 4
  }

  const CMP_OPS := ["==", "!=", ">", "<", ">=", "<="]

  function OpToken(text: string): Token { Token(Op, text) }

  /** The tokens of an expression, parentheses only where the tree has them. */
  function Yield(e: Expr): (ts: seq<Token>)
    ensures ts != []
    decreases e, 1
  {
    match e
    case Or(l, r) => Yield(l) + [OpToken("||")] + Yield(r)
    case And(l, r) => Yield(l) + [OpToken("&&")] + Yield(r)
    case Cmp(op, l, r) => Yield(l) + [OpToken(op)] + Yield(r)
    case Not(i) => [OpToken("!")] + Yield(i)
    case Paren(i) => [OpToken("(")] + Yield(i) + [OpToken(")")]
    case StrLit(text) => [Token(Str, text)]
    case NumLit(text) => [Token(Num, text)]
    case Name(text) => [Token(Path, text)]
    case Call(fn, args) => [Token(Path, fn), OpToken("(")] + YieldAll(args) + [OpToken(")")]
  }

  function YieldAll(args: seq<Expr>): seq<Token>
    decreases args
  {
    if args == [] then []
    else if |args| == 1 then Yield(args[0])
    else YieldAll(args[..|args| - 1]) + [OpToken(",")] + Yield(args[|args| - 1])
  }

  predicate IsStrText(s: string) { s != [] && MatchStr(s) == |s| }

  predicate IsNumText(s: string) { s != [] && MatchNum(s) == |s| }

  predicate IsPathText(s: string) { s != [] && MatchPath(s) == |s| }

  /** Leaves are tokens of their kind. */
  predicate LexicalLeaves(e: Expr)
    decreases e
  {
    match e
    case Or(l, r) => LexicalLeaves(l) && LexicalLeaves(r)
    case And(l, r) => LexicalLeaves(l) && LexicalLeaves(r)
    case Cmp(op, l, r) => op in CMP_OPS && LexicalLeaves(l) && LexicalLeaves(r)
    case Not(i) => LexicalLeaves(i)
    case Paren(i) => LexicalLeaves(i)
    case StrLit(text) => IsStrText(text)
    case NumLit(text) => IsNumText(text)
    case Name(text) => IsPathText(text)
    case Call(fn, args) => IsPathText(fn) && LexicalAll(args)
  }

  predicate LexicalAll(args: seq<Expr>)
    decreases args
  {
    args == [] || (LexicalAll(args[..|args| - 1]) && LexicalLeaves(args[|args| - 1]))
  }

  /** Operands bind at least as tightly as their place demands; `||` and `&&` group to the left,
      and a comparison does not chain. */
  predicate Grouped(e: Expr)
    decreases e
  {
    match e
    case Or(l, r) => Grouped(l) && Grouped(r) && Level(r) >= 1
    case And(l, r) => Grouped(l) && Level(l) >= 1 && Grouped(r) && Level(r) >= 2
    case Cmp(_, l, r) => Grouped(l) && Level(l) >= 3 && Grouped(r) && Level(r) >= 3
    case Not(i) => Grouped(i) && Level(i) >= 3
    case Paren(i) => Grouped(i)
    case Call(_, args) => GroupedAll(args)
    case _ => true
  }

  predicate GroupedAll(args: seq<Expr>)
    decreases args
  {
    args == [] || (GroupedAll(args[..|args| - 1]) && Grouped(args[|args| - 1]))
  }

  // ---- adding parentheses only where precedence needs them ----

  function Wrap(e: Expr, level: nat): Expr {
    if Level(e) >= level then e else Paren(e)
  }

  function Group(e: Expr): Expr
    decreases e
  {
    match e
    case Or(l, r) => Or(Group(l), Wrap(Group(r), 1))
    case And(l, r) => And(Wrap(Group(l), 1), Wrap(Group(r), 2))
    case Cmp(op, l, r) => Cmp(op, Wrap(Group(l), 3), Wrap(Group(r), 3))
    case Not(i) => Not(Wrap(Group(i), 3))
    case Paren(i) => Paren(Group(i))
    case Call(fn, args) => Call(fn, GroupAll(args))
    case _ => e
  }

  function GroupAll(args: seq<Expr>): seq<Expr>
    decreases args
  {
    if args == [] then [] else GroupAll(args[..|args| - 1]) + [Group(args[|args| - 1])]
  }

  /** Grouping changes no meaning. */
  lemma {:induction false} GroupMeaning(e: Expr, c: Context)
    ensures Eval(Group(e), c) == Eval(e, c)
    decreases e
  {
    match e
    case Or(l, r) => GroupMeaning(l, c); GroupMeaning(r, c);
    case And(l, r) => GroupMeaning(l, c); GroupMeaning(r, c);
    case Cmp(_, l, r) => GroupMeaning(l, c); GroupMeaning(r, c);
    case Not(i) => GroupMeaning(i, c);
    case Paren(i) => GroupMeaning(i, c);
    case Call(_, args) => GroupAllMeaning(args, c);
    case _ =>
  }

  lemma {:induction false} GroupAllMeaning(args: seq<Expr>, c: Context)
    ensures EvalAll(GroupAll(args), c) == EvalAll(args, c)
    decreases args
  {
    if args != [] {
      var init, last := args[..|args| - 1], args[|args| - 1];
      GroupAllMeaning(init, c);
      GroupMeaning(last, c);
      var grouped := GroupAll(args);
      assert grouped[..|grouped| - 1] == GroupAll(init);
    }
  }

  /** Grouping makes a tree printable and keeps its leaves. */
  lemma {:induction false} GroupGroups(e: Expr)
    ensures Grouped(Group(e)) && (LexicalLeaves(e) ==> LexicalLeaves(Group(e)))
    decreases e
  {
    match e
    case Or(l, r) => GroupGroups(l); GroupGroups(r);
    case And(l, r) => GroupGroups(l); GroupGroups(r);
    case Cmp(_, l, r) => GroupGroups(l); GroupGroups(r);
    case Not(i) => GroupGroups(i);
    case Paren(i) => GroupGroups(i);
    case Call(_, args) => GroupAllGroups(args);
    case _ =>
  }

  lemma {:induction false} GroupAllGroups(args: seq<Expr>)
    ensures GroupedAll(GroupAll(args)) && (LexicalAll(args) ==> LexicalAll(GroupAll(args)))
    decreases args
  {
    if args != [] {
      var init, last := args[..|args| - 1], args[|args| - 1];
      GroupAllGroups(init);
      GroupGroups(last);
      var grouped := GroupAll(args);
      assert grouped[..|grouped| - 1] == GroupAll(init);
    }
  }

  /** A tree that needs no parentheses gets none. */
  lemma {:induction false} GroupedStays(e: Expr)
    ensures Grouped(e) ==> Group(e) == e
    decreases e
  {
    match e
    case Or(l, r) => GroupedStays(l); GroupedStays(r);
    case And(l, r) => GroupedStays(l); GroupedStays(r);
    case Cmp(_, l, r) => GroupedStays(l); GroupedStays(r);
    case Not(i) => GroupedStays(i);
    case Paren(i) => GroupedStays(i);
    case Call(_, args) => GroupedAllStays(args);
    case _ =>
  }

  lemma {:induction false} GroupedAllStays(args: seq<Expr>)
    ensures GroupedAll(args) ==> GroupAll(args) == args
    decreases args
  {
    if args != [] {
      var init, last := args[..|args| - 1], args[|args| - 1];
      GroupedAllStays(init);
      GroupedStays(last);
      assert init + [last] == args;
    }
  }
}
