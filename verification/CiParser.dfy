/**
 The recursive-descent parser that evaluates while it parses. The functions are the grammar:
 they build the tree of a token list without looking at a context. The class is the script's
 parser; its methods are proved to return the meaning of that tree.
 */
module CiParser {
  import opened Text
  import opened CiTokens
  import opened CiExpr

  // ---- the grammar ----

  /** A failure keeps the parts that were read before it, in the order they are evaluated. */
  datatype Parse<+T> = Done(value: T, next: nat) | Fail(read: seq<Expr>)

  predicate At(ts: seq<Token>, i: nat, text: string) {
    i < |ts| && ts[i].text == text
  }

  predicate AtCmp(ts: seq<Token>, i: nat) {
    i < |ts| && ts[i].text in CMP_OPS
  }

  function ParseOr(ts: seq<Token>, i: nat): (p: Parse<Expr>)
    requires i <= |ts|
    ensures p.Done? ==> i < p.next <= |ts|
    decreases |ts| - i, 5
  {
    match ParseAnd(ts, i)
    case Fail(read) => Fail(read)
    case Done(e, j) => OrRest(ts, j, e)
  }

  function OrRest(ts: seq<Token>, i: nat, left: Expr): (p: Parse<Expr>)
    requires i <= |ts|
    ensures p.Done? ==> i <= p.next <= |ts|
    decreases |ts| - i, 6
  {
    if !At(ts, i, "||") then Done(left, i)
    else
      match ParseAnd(ts, i + 1)
      case Fail(read) => Fail([left] + read)
      case Done(right, j) => OrRest(ts, j, Or(left, right))
  }

  function ParseAnd(ts: seq<Token>, i: nat): (p: Parse<Expr>)
    requires i <= |ts|
    ensures p.Done? ==> i < p.next <= |ts|
    decreases |ts| - i, 4
  {
    match ParseCmp(ts, i)
    case Fail(read) => Fail(read)
    case Done(e, j) => AndRest(ts, j, e)
  }

  function AndRest(ts: seq<Token>, i: nat, left: Expr): (p: Parse<Expr>)
    requires i <= |ts|
    ensures p.Done? ==> i <= p.next <= |ts|
    decreases |ts| - i, 6
  {
    if !At(ts, i, "&&") then Done(left, i)
    else
      match ParseCmp(ts, i + 1)
      case Fail(read) => Fail([left] + read)
      case Done(right, j) => AndRest(ts, j, And(left, right))
  }

  function ParseCmp(ts: seq<Token>, i: nat): (p: Parse<Expr>)
    requires i <= |ts|
    ensures p.Done? ==> i < p.next <= |ts|
    decreases |ts| - i, 3
  {
    match ParseUnary(ts, i)
    case Fail(read) => Fail(read)
    case Done(left, j) =>
      if !AtCmp(ts, j) then Done(left, j)
      else
        match ParseUnary(ts, j + 1)
        case Fail(read) => Fail([left] + read)
        case Done(right, k) => Done(Cmp(ts[j].text, left, right), k)
  }

  function ParseUnary(ts: seq<Token>, i: nat): (p: Parse<Expr>)
    requires i <= |ts|
    ensures p.Done? ==> i < p.next <= |ts|
    decreases |ts| - i, 2
  {
    if At(ts, i, "!") then
      match ParseUnary(ts, i + 1)
      case Fail(read) => Fail(read)
      case Done(e, j) => Done(Not(e), j)
    else ParsePrimary(ts, i)
  }

  function ParsePrimary(ts: seq<Token>, i: nat): (p: Parse<Expr>)
    requires i <= |ts|
    ensures p.Done? ==> i < p.next <= |ts|
    decreases |ts| - i, 1
  {
    if i == |ts| then Fail([])
    else if At(ts, i, "(") then
      match ParseOr(ts, i + 1)
      case Fail(read) => Fail(read)
      case Done(e, j) => if At(ts, j, ")") then Done(Paren(e), j + 1) else Fail([e])
    else
      var text := ts[i].text;
      match ts[i].kind
      case Op => Fail([])
      case Str => Done(StrLit(text), i + 1)
      case Num => Done(NumLit(text), i + 1)
      case Path =>
        if !At(ts, i + 1, "(") then Done(Name(text), i + 1)
        else
          match ParseArgs(ts, i + 2)
          case Fail(read) => Fail(read)
          case Done(args, j) => Done(Call(text, args), j)
  }

  /** The arguments of a call and its closing parenthesis, from just past the opening one. */
  function ParseArgs(ts: seq<Token>, i: nat): (p: Parse<seq<Expr>>)
    requires i <= |ts|
    ensures p.Done? ==> i < p.next <= |ts|
    decreases |ts| - i, 6
  {
    if At(ts, i, ")") then Done([], i + 1)
    else
      match ParseOr(ts, i)
      case Fail(read) => Fail(read)
      case Done(e, j) => ArgsRest(ts, j, [e])
  }

  function ArgsRest(ts: seq<Token>, i: nat, args: seq<Expr>): (p: Parse<seq<Expr>>)
    requires i <= |ts|
    ensures p.Done? ==> i < p.next <= |ts|
    decreases |ts| - i, 6
  {
    if At(ts, i, ",") then
      match ParseOr(ts, i + 1)
      case Fail(read) => Fail(args + read)
      case Done(e, j) => ArgsRest(ts, j, args + [e])
    else if At(ts, i, ")") then Done(args, i + 1)
    else Fail(args)
  }

  /** The whole token list; trailing tokens are an error, after what stands before them. */
  function ParseTokens(ts: seq<Token>): Parse<Expr> {
    match ParseOr(ts, 0)
    case Fail(read) => Fail(read)
    case Done(e, j) => if j == |ts| then Done(e, j) else Fail([e])
  }

  /** The tree of a whole token list. */
  function ParseAll(ts: seq<Token>): Result<Expr> {
    match ParseTokens(ts)
    case Fail(_) => Err(ExprError)
    case Done(e, _) => Ok(e)
  }

  /** The error of a parse that fails after reading some parts, which it has evaluated: the first
      error of those, or else the syntax error. */
  function Raised(read: seq<Expr>, c: Context): Error {
    match EvalAll(read, c) case Err(e) => e case Ok(_) => ExprError
  }

  // ---- the first error of what is read from left to right ----

  lemma {:induction false} EvalAllAppend(a: seq<Expr>, b: seq<Expr>, c: Context)
    ensures EvalAll(a + b, c) ==
            if EvalAll(a, c).Err? then Err(EvalAll(a, c).error)
            else if EvalAll(b, c).Err? then Err(EvalAll(b, c).error)
            else Ok(EvalAll(a, c).value + EvalAll(b, c).value)
  {
    if b == [] {
      assert a + b == a;
      if EvalAll(a, c).Ok? {
        assert EvalAll(a, c).value + [] == EvalAll(a, c).value;
      }
    } else {
      var init, last := b[..|b| - 1], b[|b| - 1];
      EvalAllAppend(a, init, c);
      assert (a + b)[..|a + b| - 1] == a + init && (a + b)[|a + b| - 1] == last;
      if EvalAll(a, c).Ok? && EvalAll(init, c).Ok? && Eval(last, c).Ok? {
        AppendAssoc(EvalAll(a, c).value, EvalAll(init, c).value, [Eval(last, c).value]);
      }
    }
  }

  lemma EvalOne(e: Expr, c: Context)
    ensures EvalAll([e], c) == match Eval(e, c) case Err(x) => Err(x) case Ok(v) => Ok([v])
  {
    assert [e][..0] == [];
    if Eval(e, c).Ok? {
      assert [] + [Eval(e, c).value] == [Eval(e, c).value];
    }
  }

  /** A part that fails decides the error; one that does not leaves it to the rest. */
  lemma RaisedFirst(e: Expr, read: seq<Expr>, c: Context)
    ensures Raised([e] + read, c) == if Eval(e, c).Err? then Eval(e, c).error else Raised(read, c)
  {
    EvalOne(e, c);
    EvalAllAppend([e], read, c);
  }

  lemma RaisedAfter(args: seq<Expr>, read: seq<Expr>, c: Context)
    ensures Raised(args + read, c) == if EvalAll(args, c).Err? then EvalAll(args, c).error else Raised(read, c)
  {
    EvalAllAppend(args, read, c);
  }

  /** What a parse means: the value or error of its tree, or the error of what was read. */
  function MeaningOf(p: Parse<Expr>, c: Context): Result<Value> {
    match p
    case Done(e, _) => Eval(e, c)
    case Fail(read) => Err(Raised(read, c))
  }

  // a tree that is grown to the right keeps the first error of its left part

  lemma {:induction false} OrRestStrict(ts: seq<Token>, i: nat, left: Expr, c: Context)
    requires i <= |ts| && Eval(left, c).Err?
    ensures MeaningOf(OrRest(ts, i, left), c) == Eval(left, c)
    decreases |ts| - i
  {
    if At(ts, i, "||") {
      match ParseAnd(ts, i + 1)
      case Done(right, j) => OrRestStrict(ts, j, Or(left, right), c);
      case Fail(read) => RaisedFirst(left, read, c);
    }
  }

  lemma {:induction false} AndRestStrict(ts: seq<Token>, i: nat, left: Expr, c: Context)
    requires i <= |ts| && Eval(left, c).Err?
    ensures MeaningOf(AndRest(ts, i, left), c) == Eval(left, c)
    decreases |ts| - i
  {
    if At(ts, i, "&&") {
      match ParseCmp(ts, i + 1)
      case Done(right, j) => AndRestStrict(ts, j, And(left, right), c);
      case Fail(read) => RaisedFirst(left, read, c);
    }
  }

  function ArgsMeaning(p: Parse<seq<Expr>>, c: Context): Result<seq<Value>> {
    match p
    case Done(args, _) => EvalAll(args, c)
    case Fail(read) => Err(Raised(read, c))
  }

  lemma {:induction false} ArgsRestStrict(ts: seq<Token>, i: nat, args: seq<Expr>, c: Context)
    requires i <= |ts| && EvalAll(args, c).Err?
    ensures ArgsMeaning(ArgsRest(ts, i, args), c) == EvalAll(args, c)
    decreases |ts| - i
  {
    if At(ts, i, ",") {
      match ParseOr(ts, i + 1)
      case Done(e, j) =>
        EvalAllAppend(args, [e], c);
        ArgsRestStrict(ts, j, args + [e], c);
      case Fail(read) => RaisedAfter(args, read, c);
    }
  }

  // ---- the parser of the script ----

  class Parser {
    const t: seq<Token>
    const ctx: Context
    var i: nat

    ghost predicate Valid()
      reads this
    {
      i <= |t|
    }

    constructor (tokens: seq<Token>, ctx: Context)
      ensures Valid() && t == tokens && this.ctx == ctx && i == 0
    {
      t, this.ctx, i := tokens, ctx, 0;
    }

    /** What a parsing method owes for the grammar's answer `p`: its meaning, with the cursor behind
        what was parsed when there is no error. */
    ghost predicate Means(p: Parse<Expr>, r: Result<Value>)
      reads this
    {
      Valid() && r == MeaningOf(p, ctx) && (r.Ok? ==> i == p.next)
    }

    method Eat(value: string) returns (eaten: bool)
      requires Valid()
      modifies this
      ensures Valid() && eaten == At(t, old(i), value) && i == if eaten then old(i) + 1 else old(i)
    {
      eaten := i < |t| && t[i].text == value;
      if eaten {
        i := i + 1;
      }
    }

    method ParseWhole() returns (r: Result<Value>)
      requires Valid() && i == 0
      modifies this
      ensures r == MeaningOf(ParseTokens(t), ctx)
    {
      r := OrExpr();
      ghost var p := ParseOr(t, 0);
      if p.Done? {
        EvalOne(p.value, ctx);
      }
      if r.Ok? && i != |t| {
        r := Err(ExprError);
      }
    }

    method OrExpr() returns (r: Result<Value>)
      requires Valid()
      modifies this
      ensures Means(ParseOr(t, old(i)), r)
      decreases |t| - i, 5
    {
      ghost var i0 := i;
      r := AndExpr();
      if r.Err? {
        if ParseAnd(t, i0).Done? {
          OrRestStrict(t, ParseAnd(t, i0).next, ParseAnd(t, i0).value, ctx);
        }
        return;
      }
      var value := r.value;
      ghost var left := ParseAnd(t, i0).value;
      var more := Eat("||");
      ghost var j := if more then i - 1 else i;
      while more
        invariant i0 < j <= |t| && i == if more then j + 1 else j
        invariant Valid() && more == At(t, j, "||")
        invariant Eval(left, ctx) == Ok(value)
        invariant ParseOr(t, i0) == OrRest(t, j, left)
        decreases |t| - j
      {
        var right := AndExpr();
        ghost var p := ParseAnd(t, j + 1);
        if right.Err? {
          if p.Done? {
            OrRestStrict(t, p.next, Or(left, p.value), ctx);
          } else {
            RaisedFirst(left, p.read, ctx);
          }
          return right;
        }
        value := if Truthy(value) then value else right.value;
        left := Or(left, p.value);
        more := Eat("||");
        j := p.next;
      }
      return Ok(value);
    }

    method AndExpr() returns (r: Result<Value>)
      requires Valid()
      modifies this
      ensures Means(ParseAnd(t, old(i)), r)
      decreases |t| - i, 4
    {
      ghost var i0 := i;
      r := CmpExpr();
      if r.Err? {
        if ParseCmp(t, i0).Done? {
          AndRestStrict(t, ParseCmp(t, i0).next, ParseCmp(t, i0).value, ctx);
        }
        return;
      }
      var value := r.value;
      ghost var left := ParseCmp(t, i0).value;
      var more := Eat("&&");
      ghost var j := if more then i - 1 else i;
      while more
        invariant i0 < j <= |t| && i == if more then j + 1 else j
        invariant Valid() && more == At(t, j, "&&")
        invariant Eval(left, ctx) == Ok(value)
        invariant ParseAnd(t, i0) == AndRest(t, j, left)
        decreases |t| - j
      {
        var right := CmpExpr();
        ghost var p := ParseCmp(t, j + 1);
        if right.Err? {
          if p.Done? {
            AndRestStrict(t, p.next, And(left, p.value), ctx);
          } else {
            RaisedFirst(left, p.read, ctx);
          }
          return right;
        }
        value := if Truthy(value) then right.value else value;
        left := And(left, p.value);
        more := Eat("&&");
        j := p.next;
      }
      return Ok(value);
    }

    method CmpExpr() returns (r: Result<Value>)
      requires Valid()
      modifies this
      ensures Means(ParseCmp(t, old(i)), r)
      decreases |t| - i, 3
    {
      ghost var p := ParseUnary(t, i);
      r := UnaryExpr();
      if p.Done? && AtCmp(t, p.next) && ParseUnary(t, p.next + 1).Fail? {
        RaisedFirst(p.value, ParseUnary(t, p.next + 1).read, ctx);
      }
      if r.Ok? && i < |t| && t[i].text in CMP_OPS {
        var op, left := t[i].text, r.value;
        i := i + 1;
        r := UnaryExpr();
        if r.Ok? {
          r := Compare(op, left, r.value);
        }
      }
    }

    method UnaryExpr() returns (r: Result<Value>)
      requires Valid()
      modifies this
      ensures Means(ParseUnary(t, old(i)), r)
      decreases |t| - i, 2
    {
      var not := Eat("!");
      if not {
        r := UnaryExpr();
        if r.Ok? {
          r := Ok(VBool(!Truthy(r.value)));
        }
      } else {
        r := PrimaryExpr();
      }
    }

    method PrimaryExpr() returns (r: Result<Value>)
      requires Valid()
      modifies this
      ensures Means(ParsePrimary(t, old(i)), r)
      decreases |t| - i, 1
    {
      if i == |t| {
        return Err(ExprError);
      }
      var tok := t[i];
      i := i + 1;
      if tok.text == "(" {
        ghost var p := ParseOr(t, i);
        if p.Done? {
          EvalOne(p.value, ctx);
        }
        r := OrExpr();
        if r.Ok? {
          var closed := Eat(")");
          if !closed {
            r := Err(ExprError);
          }
        }
        return;
      }
      match tok.kind
      case Str => return Ok(VStr(StringValue(tok.text)));
      case Num => return Ok(NumberValue(tok.text));
      case Op => return Err(ExprError);
      case Path => r := NameOrCall(tok.text);
    }

    /** A path, or a call when an opening parenthesis follows. */
    method NameOrCall(text: string) returns (r: Result<Value>)
      requires Valid() && 0 < i && t[i - 1] == Token(Path, text) && text != "("
      modifies this
      ensures Means(ParsePrimary(t, old(i) - 1), r)
      decreases |t| - i, 7
    {
      var call := Eat("(");
      if !call {
        return ctx.Resolve(text);
      }
      var args := Arguments();
      if args.Err? {
        return Err(args.error);
      }
      return ctx.Call(text, args.value);
    }

    method Arguments() returns (r: Result<seq<Value>>)
      requires Valid()
      modifies this
      ensures Valid()
      ensures var p := ParseArgs(t, old(i)); r == ArgsMeaning(p, ctx) && (r.Ok? ==> i == p.next)
      decreases |t| - i, 6
    {
      ghost var i0 := i;
      var closed := Eat(")");
      if closed {
        return Ok([]);
      }
      var first := OrExpr();
      ghost var p := ParseOr(t, i0);
      if p.Done? {
        EvalOne(p.value, ctx);
      }
      if first.Err? {
        if p.Done? {
          ArgsRestStrict(t, p.next, [p.value], ctx);
        }
        return Err(first.error);
      }
      var values := [first.value];
      ghost var args := [p.value];
      ghost var j := i;
      var more := Eat(",");
      while more
        invariant i0 < j <= |t| && i == if more then j + 1 else j
        invariant Valid() && more == At(t, j, ",")
        invariant EvalAll(args, ctx) == Ok(values)
        invariant ParseArgs(t, i0) == ArgsRest(t, j, args)
        decreases |t| - j
      {
        var next := OrExpr();
        p := ParseOr(t, j + 1);
        if p.Done? {
          EvalOne(p.value, ctx);
          EvalAllAppend(args, [p.value], ctx);
        }
        if next.Err? {
          if p.Done? {
            ArgsRestStrict(t, p.next, args + [p.value], ctx);
          } else {
            RaisedAfter(args, p.read, ctx);
          }
          return Err(next.error);
        }
        values := values + [next.value];
        args := args + [p.value];
        j := p.next;
        more := Eat(",");
      }
      closed := Eat(")");
      if !closed {
        return Err(ExprError);
      }
      return Ok(values);
    }
  }
}
