/**
 Printing and parsing are inverse: the parser finds exactly the grouped tree whose tokens it
 was given, and accepts no other token list.
 */
module CiGrammar {
  import opened CiTokens
  import opened CiExpr
  import opened CiParser

  /** What the tokenizer can produce. */
  predicate IsToken(t: Token) {
    match t.kind
    case Op => t.text in OPS
    case Str => IsStrText(t.text)
    case Num => IsNumText(t.text)
    case Path => IsPathText(t.text)
  }

  lemma LeafIsNotOp(s: string)
    requires IsStrText(s) || IsNumText(s) || IsPathText(s)
    ensures s !in OPS && s[0] !in "&|=!><(),"
  {
  }

  // ---- from trees to token lists and back ----

  ghost predicate Occurs(ts: seq<Token>, i: nat, y: seq<Token>) {
    i + |y| <= |ts| && ts[i..i + |y|] == y
  }

  lemma OccursSplit(ts: seq<Token>, i: nat, a: seq<Token>, b: seq<Token>)
    requires Occurs(ts, i, a + b)
    ensures Occurs(ts, i, a) && Occurs(ts, i + |a|, b)
  {
    var y := ts[i..i + |a + b|];
    assert ts[i..i + |a|] == y[..|a|] == a;
    assert ts[i + |a|..i + |a| + |b|] == y[|a|..] == b;
  }

  lemma OccursBetween(ts: seq<Token>, i: nat, a: seq<Token>, t: Token, b: seq<Token>)
    requires Occurs(ts, i, a + [t] + b)
    ensures Occurs(ts, i, a) && ts[i + |a|] == t && Occurs(ts, i + |a| + 1, b)
  {
    OccursSplit(ts, i, a + [t], b);
    OccursSplit(ts, i, a, [t]);
    assert ts[i + |a|] == ts[i + |a|..i + |a| + 1][0];
  }

  /** The token at `j`, if any, does not continue an expression parsed at `level`. */
  ghost predicate Stops(ts: seq<Token>, j: nat, level: nat) {
    && (level <= 1 ==> !At(ts, j, "&&"))
    && (level <= 2 ==> !AtCmp(ts, j))
    && !At(ts, j, "(")
  }

  ghost predicate Placed(e: Expr, ts: seq<Token>, i: nat) {
    Grouped(e) && LexicalLeaves(e) && Occurs(ts, i, Yield(e))
  }

  lemma FirstToken(e: Expr)
    requires LexicalLeaves(e)
    ensures Yield(e)[0].text != ")"
    ensures Level(e) == 4 ==> Yield(e)[0].text != "!"
  {
    match e
    case Or(l, r) => FirstToken(l);
    case And(l, r) => FirstToken(l);
    case Cmp(_, l, r) => FirstToken(l);
    case StrLit(text) => LeafIsNotOp(text);
    case NumLit(text) => LeafIsNotOp(text);
    case Name(text) => LeafIsNotOp(text);
    case Call(fn, _) => LeafIsNotOp(fn);
    case _ =>
  }

  /** An operator token stops every level above its own. */
  lemma OpStopsLevel(ts: seq<Token>, j: nat, op: string)
    requires j < |ts| && ts[j] == OpToken(op)
    ensures op == "||" ==> Stops(ts, j, 1)
    ensures op == "&&" ==> Stops(ts, j, 2)
    ensures op in CMP_OPS ==> Stops(ts, j, 3)
    ensures op == ")" || op == "," ==> Stops(ts, j, 1) && !At(ts, j, "||")
  {
  }

  lemma PlacedOr(e: Expr, ts: seq<Token>, i: nat) returns (j: nat)
    requires Placed(e, ts, i) && e.Or?
    ensures j == i + |Yield(e.left)| < |ts| && At(ts, j, "||") && Stops(ts, j, 1) && Placed(e.left, ts, i)
    ensures Placed(e.right, ts, j + 1) && Level(e.right) >= 1 && j + 1 + |Yield(e.right)| == i + |Yield(e)|
  {
    OccursBetween(ts, i, Yield(e.left), OpToken("||"), Yield(e.right));
    j := i + |Yield(e.left)|;
    OpStopsLevel(ts, j, "||");
  }

  lemma PlacedAnd(e: Expr, ts: seq<Token>, i: nat) returns (j: nat)
    requires Placed(e, ts, i) && e.And?
    ensures j == i + |Yield(e.left)| < |ts| && At(ts, j, "&&") && Stops(ts, j, 2)
    ensures Placed(e.left, ts, i) && Level(e.left) >= 1
    ensures Placed(e.right, ts, j + 1) && Level(e.right) >= 2 && j + 1 + |Yield(e.right)| == i + |Yield(e)|
  {
    OccursBetween(ts, i, Yield(e.left), OpToken("&&"), Yield(e.right));
    j := i + |Yield(e.left)|;
    OpStopsLevel(ts, j, "&&");
  }

  lemma PlacedCmp(e: Expr, ts: seq<Token>, i: nat) returns (j: nat)
    requires Placed(e, ts, i) && e.Cmp?
    ensures j == i + |Yield(e.left)| < |ts| && ts[j] == OpToken(e.op) && e.op in CMP_OPS && Stops(ts, j, 3)
    ensures Placed(e.left, ts, i) && Level(e.left) >= 3
    ensures Placed(e.right, ts, j + 1) && Level(e.right) >= 3 && j + 1 + |Yield(e.right)| == i + |Yield(e)|
  {
    OccursBetween(ts, i, Yield(e.left), OpToken(e.op), Yield(e.right));
    j := i + |Yield(e.left)|;
    OpStopsLevel(ts, j, e.op);
  }

  lemma PlacedParen(e: Expr, ts: seq<Token>, i: nat) returns (k: nat)
    requires Placed(e, ts, i) && e.Paren?
    ensures At(ts, i, "(") && Placed(e.inner, ts, i + 1)
    ensures k == i + 1 + |Yield(e.inner)| && At(ts, k, ")") && Stops(ts, k, 1) && !At(ts, k, "||")
    ensures k + 1 == i + |Yield(e)|
  {
    k := i + 1 + |Yield(e.inner)|;
    OccursBetween(ts, i, [OpToken("(")] + Yield(e.inner), OpToken(")"), []);
    OccursSplit(ts, i, [OpToken("(")], Yield(e.inner));
    assert ts[i] == ts[i..i + 1][0];
    OpStopsLevel(ts, k, ")");
  }

  lemma ParenCloses(ts: seq<Token>, i: nat, e: Expr, k: nat)
    requires At(ts, i, "(") && i < k && At(ts, k, ")") && !At(ts, k, "||") && ParseOr(ts, i + 1) == OrRest(ts, k, e)
    ensures ParsePrimary(ts, i) == Done(Paren(e), k + 1)
  {
  }

  lemma LeafParses(e: Expr, ts: seq<Token>, i: nat)
    requires Placed(e, ts, i) && (e.StrLit? || e.NumLit? || e.Name?) && !At(ts, i + 1, "(")
    ensures ParsePrimary(ts, i) == Done(e, i + 1) && |Yield(e)| == 1
  {
    assert ts[i] == ts[i..i + 1][0];
    LeafIsNotOp(e.text);
  }

  lemma OrExtends(ts: seq<Token>, j: nat, left: Expr, right: Expr, k: nat)
    requires At(ts, j, "||") && ParseAnd(ts, j + 1) == Done(right, k)
    ensures OrRest(ts, j, left) == OrRest(ts, k, Or(left, right))
  {
  }

  lemma OrStarts(ts: seq<Token>, i: nat, e: Expr, j: nat)
    requires i <= |ts| && ParseAnd(ts, i) == Done(e, j)
    ensures ParseOr(ts, i) == OrRest(ts, j, e)
  {
  }

  lemma {:induction false} OrParses(e: Expr, ts: seq<Token>, i: nat)
    requires Placed(e, ts, i) && Stops(ts, i + |Yield(e)|, 1)
    ensures ParseOr(ts, i) == OrRest(ts, i + |Yield(e)|, e)
    decreases e, 9
  {
    hide Placed, Yield, Stops, ParseOr, ParseAnd, OrRest;
    if e.Or? {
      var j := PlacedOr(e, ts, i);
      OrParses(e.left, ts, i);
      AndParses(e.right, ts, j + 1);
      OrExtends(ts, j, e.left, e.right, i + |Yield(e)|);
    } else {
      AndParses(e, ts, i);
      OrStarts(ts, i, e, i + |Yield(e)|);
    }
  }

  lemma {:induction false} AndParses(e: Expr, ts: seq<Token>, i: nat)
    requires Placed(e, ts, i) && Level(e) >= 1 && Stops(ts, i + |Yield(e)|, 1)
    ensures ParseAnd(ts, i) == Done(e, i + |Yield(e)|)
    decreases e, 8
  {
    AndChain(e, ts, i);
  }

  lemma AndExtends(ts: seq<Token>, j: nat, left: Expr, right: Expr, k: nat)
    requires At(ts, j, "&&") && ParseCmp(ts, j + 1) == Done(right, k)
    ensures AndRest(ts, j, left) == AndRest(ts, k, And(left, right))
  {
  }

  lemma AndStarts(ts: seq<Token>, i: nat, e: Expr, j: nat)
    requires i <= |ts| && ParseCmp(ts, i) == Done(e, j)
    ensures ParseAnd(ts, i) == AndRest(ts, j, e)
  {
  }

  lemma {:induction false} AndChain(e: Expr, ts: seq<Token>, i: nat)
    requires Placed(e, ts, i) && Level(e) >= 1 && Stops(ts, i + |Yield(e)|, 2)
    ensures ParseAnd(ts, i) == AndRest(ts, i + |Yield(e)|, e)
    decreases e, 7
  {
    hide Placed, Yield, Stops, ParseAnd, ParseCmp, AndRest;
    if e.And? {
      var j := PlacedAnd(e, ts, i);
      AndChain(e.left, ts, i);
      CmpParses(e.right, ts, j + 1);
      AndExtends(ts, j, e.left, e.right, i + |Yield(e)|);
    } else {
      CmpParses(e, ts, i);
      AndStarts(ts, i, e, i + |Yield(e)|);
    }
  }

  lemma CmpCloses(ts: seq<Token>, i: nat, j: nat, e: Expr, k: nat)
    requires i <= j < |ts| && e.Cmp? && ts[j] == OpToken(e.op) && e.op in CMP_OPS
    requires ParseUnary(ts, i) == Done(e.left, j) && ParseUnary(ts, j + 1) == Done(e.right, k)
    ensures ParseCmp(ts, i) == Done(e, k)
  {
  }

  lemma CmpStands(ts: seq<Token>, i: nat, e: Expr, j: nat)
    requires i <= |ts| && ParseUnary(ts, i) == Done(e, j) && !AtCmp(ts, j)
    ensures ParseCmp(ts, i) == Done(e, j)
  {
  }

  lemma {:induction false} CmpParses(e: Expr, ts: seq<Token>, i: nat)
    requires Placed(e, ts, i) && Level(e) >= 2 && Stops(ts, i + |Yield(e)|, 2)
    ensures ParseCmp(ts, i) == Done(e, i + |Yield(e)|)
    decreases e, 6
  {
    hide Placed, Yield, ParseCmp, ParseUnary;
    if e.Cmp? {
      var j := PlacedCmp(e, ts, i);
      UnaryParses(e.left, ts, i);
      UnaryParses(e.right, ts, j + 1);
      CmpCloses(ts, i, j, e, i + |Yield(e)|);
    } else {
      UnaryParses(e, ts, i);
      CmpStands(ts, i, e, i + |Yield(e)|);
    }
  }

  lemma {:induction false} UnaryParses(e: Expr, ts: seq<Token>, i: nat)
    requires Placed(e, ts, i) && Level(e) >= 3 && Stops(ts, i + |Yield(e)|, 3)
    ensures ParseUnary(ts, i) == Done(e, i + |Yield(e)|)
    decreases e, 5
  {
    assert ts[i] == ts[i..i + |Yield(e)|][0];
    if e.Not? {
      OccursSplit(ts, i, [OpToken("!")], Yield(e.inner));
      UnaryParses(e.inner, ts, i + 1);
    } else {
      FirstToken(e);
      PrimaryParses(e, ts, i);
    }
  }

  lemma {:induction false} PrimaryParses(e: Expr, ts: seq<Token>, i: nat)
    requires Placed(e, ts, i) && Level(e) == 4 && Stops(ts, i + |Yield(e)|, 3)
    ensures ParsePrimary(ts, i) == Done(e, i + |Yield(e)|)
    decreases e, 4
  {
    if e.Paren? {
      var k := PlacedParen(e, ts, i);
      OrParses(e.inner, ts, i + 1);
      ParenCloses(ts, i, e.inner, k);
    } else if e.Call? {
      CallParses(e, ts, i);
    } else {
      LeafParses(e, ts, i);
    }
  }

  lemma {:induction false} CallParses(e: Expr, ts: seq<Token>, i: nat)
    requires e.Call? && Placed(e, ts, i)
    ensures ParsePrimary(ts, i) == Done(e, i + |Yield(e)|)
    decreases e, 3
  {
    var open, y := [Token(Path, e.fn), OpToken("(")], YieldAll(e.args);
    OccursSplit(ts, i, open + y, [OpToken(")")]);
    OccursSplit(ts, i, open, y);
    assert ts[i..i + 2] == open;
    assert ts[i] == ts[i..i + 2][0] && ts[i + 1] == ts[i..i + 2][1];
    var k := i + 2 + |y|;
    assert ts[k] == ts[k..k + 1][0];
    LeafIsNotOp(e.fn);
    if e.args != [] {
      ArgsParse(e.args, ts, i + 2);
    }
  }

  lemma {:induction false} ArgsParse(args: seq<Expr>, ts: seq<Token>, i: nat)
    requires args != [] && GroupedAll(args) && LexicalAll(args) && Occurs(ts, i, YieldAll(args))
    requires var k := i + |YieldAll(args)|; At(ts, k, ",") || At(ts, k, ")")
    ensures ParseArgs(ts, i) == ArgsRest(ts, i + |YieldAll(args)|, args)
    decreases args, 0
  {
    var init, last := args[..|args| - 1], args[|args| - 1];
    assert init + [last] == args;
    if |args| == 1 {
      assert args == [last];
      FirstArgParses(last, ts, i);
    } else {
      var k := PlacedArgs(args, ts, i);
      ArgsParse(init, ts, i);
      NextArgParses(init, last, ts, k);
    }
  }

  lemma {:induction false} FirstArgParses(e: Expr, ts: seq<Token>, i: nat)
    requires Placed(e, ts, i)
    requires var k := i + |Yield(e)|; At(ts, k, ",") || At(ts, k, ")")
    ensures ParseArgs(ts, i) == ArgsRest(ts, i + |Yield(e)|, [e])
    decreases e, 10
  {
    assert ts[i] == ts[i..i + |Yield(e)|][0];
    FirstToken(e);
    OrParses(e, ts, i);
    ArgsStarts(ts, i, e, i + |Yield(e)|);
  }

  lemma {:induction false} NextArgParses(init: seq<Expr>, e: Expr, ts: seq<Token>, i: nat)
    requires At(ts, i, ",") && Placed(e, ts, i + 1)
    requires var k := i + 1 + |Yield(e)|; At(ts, k, ",") || At(ts, k, ")")
    ensures ArgsRest(ts, i, init) == ArgsRest(ts, i + 1 + |Yield(e)|, init + [e])
    decreases e, 10
  {
    OrParses(e, ts, i + 1);
    ArgsStep(ts, i, init, e);
  }

  lemma PlacedArgs(args: seq<Expr>, ts: seq<Token>, i: nat) returns (k: nat)
    requires |args| > 1 && GroupedAll(args) && LexicalAll(args) && Occurs(ts, i, YieldAll(args))
    ensures var init, last := args[..|args| - 1], args[|args| - 1];
            && k == i + |YieldAll(init)| < |ts| && ts[k] == OpToken(",")
            && GroupedAll(init) && LexicalAll(init) && Occurs(ts, i, YieldAll(init))
            && Placed(last, ts, k + 1) && k + 1 + |Yield(last)| == i + |YieldAll(args)|
  {
    var init, last := args[..|args| - 1], args[|args| - 1];
    k := i + |YieldAll(init)|;
    OccursBetween(ts, i, YieldAll(init), OpToken(","), Yield(last));
  }

  lemma ArgsStarts(ts: seq<Token>, i: nat, e: Expr, j: nat)
    requires i <= j <= |ts| && ParseOr(ts, i) == OrRest(ts, j, e) && !At(ts, j, "||") && !At(ts, i, ")")
    ensures ParseArgs(ts, i) == ArgsRest(ts, j, [e])
  {
  }

  lemma ArgsStep(ts: seq<Token>, k: nat, init: seq<Expr>, last: Expr)
    requires At(ts, k, ",") && k + 1 + |Yield(last)| <= |ts|
    requires ParseOr(ts, k + 1) == OrRest(ts, k + 1 + |Yield(last)|, last)
    requires !At(ts, k + 1 + |Yield(last)|, "||")
    ensures ArgsRest(ts, k, init) == ArgsRest(ts, k + 1 + |Yield(last)|, init + [last])
  {
  }

  /** Completeness: every grouped tree is what the parser makes of its tokens. */
  lemma ParseOfYield(e: Expr)
    requires Grouped(e) && LexicalLeaves(e)
    ensures ParseAll(Yield(e)) == Ok(e)
  {
    var ts := Yield(e);
    assert ts[0..|ts|] == ts;
    OrParses(e, ts, 0);
  }

  // ---- from token lists to trees and back ----

  ghost predicate AllTokens(ts: seq<Token>) {
    forall i :: 0 <= i < |ts| ==> IsToken(ts[i])
  }

  /** `e` is a grouped tree whose tokens are those from `i` to `j`. */
  ghost predicate Covers(e: Expr, ts: seq<Token>, i: nat, j: nat) {
    i <= j <= |ts| && Grouped(e) && LexicalLeaves(e) && Yield(e) == ts[i..j]
  }

  lemma OpAt(ts: seq<Token>, i: nat, text: string)
    requires AllTokens(ts) && At(ts, i, text) && text in OPS
    ensures ts[i] == OpToken(text)
  {
    if ts[i].kind != Op {
      LeafIsNotOp(text);
    }
  }

  lemma Join(ts: seq<Token>, i: nat, j: nat, k: nat)
    requires i <= j < k <= |ts|
    ensures ts[i..k] == ts[i..j] + [ts[j]] + ts[j + 1..k]
  {
  }

  lemma CoversBinary(e: Expr, ts: seq<Token>, i: nat, j: nat, k: nat)
    requires e.Or? || e.And? || e.Cmp?
    requires Covers(e.left, ts, i, j) && j < k && Covers(e.right, ts, j + 1, k)
    requires ts[j] == OpToken(if e.Or? then "||" else if e.And? then "&&" else e.op)
    requires e.Or? ==> Level(e.right) >= 1
    requires e.And? ==> Level(e.left) >= 1 && Level(e.right) >= 2
    requires e.Cmp? ==> Level(e.left) >= 3 && Level(e.right) >= 3 && e.op in CMP_OPS
    ensures Covers(e, ts, i, k)
  {
    Join(ts, i, j, k);
  }

  lemma CoversNot(ts: seq<Token>, i: nat, j: nat, e: Expr)
    requires i < |ts| && ts[i] == OpToken("!") && Covers(e, ts, i + 1, j) && Level(e) >= 3
    ensures Covers(Not(e), ts, i, j)
  {
    assert ts[i..j] == [ts[i]] + ts[i + 1..j];
  }

  lemma CoversParen(ts: seq<Token>, i: nat, j: nat, e: Expr)
    requires i < |ts| && ts[i] == OpToken("(") && Covers(e, ts, i + 1, j)
    requires j < |ts| && ts[j] == OpToken(")")
    ensures Covers(Paren(e), ts, i, j + 1)
  {
    assert ts[i..j + 1] == [ts[i]] + ts[i + 1..j] + [ts[j]];
  }

  lemma CoversCall(ts: seq<Token>, i: nat, j: nat, args: seq<Expr>)
    requires i + 1 < |ts| && ts[i].kind == Path && IsToken(ts[i]) && ts[i + 1] == OpToken("(")
    requires CoversArgs(args, ts, i + 2, j) && j < |ts| && ts[j] == OpToken(")")
    ensures Covers(Call(ts[i].text, args), ts, i, j + 1)
  {
    assert ts[i..j + 1] == [ts[i], ts[i + 1]] + ts[i + 2..j] + [ts[j]];
  }

  lemma {:induction false} OrSound(ts: seq<Token>, i: nat)
    requires AllTokens(ts) && i <= |ts|
    ensures var p := ParseOr(ts, i); p.Done? ==> Covers(p.value, ts, i, p.next)
    decreases |ts| - i, 5
  {
    AndSound(ts, i);
    if ParseAnd(ts, i).Done? {
      var Done(e, j) := ParseAnd(ts, i);
      OrRestSound(ts, i, j, e);
    }
  }

  lemma {:induction false} OrRestSound(ts: seq<Token>, i: nat, j: nat, left: Expr)
    requires AllTokens(ts) && i < j && Covers(left, ts, i, j)
    ensures var p := OrRest(ts, j, left); p.Done? ==> Covers(p.value, ts, i, p.next)
    decreases |ts| - j, 6
  {
    if At(ts, j, "||") {
      OpAt(ts, j, "||");
      AndSound(ts, j + 1);
      if ParseAnd(ts, j + 1).Done? {
        var Done(right, k) := ParseAnd(ts, j + 1);
        CoversBinary(Or(left, right), ts, i, j, k);
        OrRestSound(ts, i, k, Or(left, right));
      }
    }
  }

  lemma {:induction false} AndSound(ts: seq<Token>, i: nat)
    requires AllTokens(ts) && i <= |ts|
    ensures var p := ParseAnd(ts, i); p.Done? ==> Covers(p.value, ts, i, p.next) && Level(p.value) >= 1
    decreases |ts| - i, 4
  {
    CmpSound(ts, i);
    if ParseCmp(ts, i).Done? {
      var Done(e, j) := ParseCmp(ts, i);
      AndRestSound(ts, i, j, e);
    }
  }

  lemma {:induction false} AndRestSound(ts: seq<Token>, i: nat, j: nat, left: Expr)
    requires AllTokens(ts) && i < j && Covers(left, ts, i, j) && Level(left) >= 1
    ensures var p := AndRest(ts, j, left); p.Done? ==> Covers(p.value, ts, i, p.next) && Level(p.value) >= 1
    decreases |ts| - j, 6
  {
    if At(ts, j, "&&") {
      OpAt(ts, j, "&&");
      CmpSound(ts, j + 1);
      if ParseCmp(ts, j + 1).Done? {
        var Done(right, k) := ParseCmp(ts, j + 1);
        CoversBinary(And(left, right), ts, i, j, k);
        AndRestSound(ts, i, k, And(left, right));
      }
    }
  }

  lemma {:induction false} CmpSound(ts: seq<Token>, i: nat)
    requires AllTokens(ts) && i <= |ts|
    ensures var p := ParseCmp(ts, i); p.Done? ==> Covers(p.value, ts, i, p.next) && Level(p.value) >= 2
    decreases |ts| - i, 3
  {
    UnarySound(ts, i);
    if ParseUnary(ts, i).Done? {
      var Done(left, j) := ParseUnary(ts, i);
      if AtCmp(ts, j) {
        CmpTailSound(ts, i, j, left);
      }
    }
  }

  lemma {:induction false} CmpTailSound(ts: seq<Token>, i: nat, j: nat, left: Expr)
    requires AllTokens(ts) && i < j && AtCmp(ts, j) && Covers(left, ts, i, j) && Level(left) >= 3
    ensures var p := ParseUnary(ts, j + 1);
            p.Done? ==> Covers(Cmp(ts[j].text, left, p.value), ts, i, p.next)
    decreases |ts| - j, 3
  {
    OpAt(ts, j, ts[j].text);
    UnarySound(ts, j + 1);
    if ParseUnary(ts, j + 1).Done? {
      var Done(right, k) := ParseUnary(ts, j + 1);
      CoversBinary(Cmp(ts[j].text, left, right), ts, i, j, k);
    }
  }

  lemma {:induction false} UnarySound(ts: seq<Token>, i: nat)
    requires AllTokens(ts) && i <= |ts|
    ensures var p := ParseUnary(ts, i); p.Done? ==> Covers(p.value, ts, i, p.next) && Level(p.value) >= 3
    decreases |ts| - i, 2
  {
    if At(ts, i, "!") {
      OpAt(ts, i, "!");
      UnarySound(ts, i + 1);
      if ParseUnary(ts, i + 1).Done? {
        CoversNot(ts, i, ParseUnary(ts, i + 1).next, ParseUnary(ts, i + 1).value);
      }
    } else {
      PrimarySound(ts, i);
    }
  }

  lemma {:induction false} PrimarySound(ts: seq<Token>, i: nat)
    requires AllTokens(ts) && i <= |ts|
    ensures var p := ParsePrimary(ts, i); p.Done? ==> Covers(p.value, ts, i, p.next) && Level(p.value) == 4
    decreases |ts| - i, 1
  {
    if At(ts, i, "(") {
      ParenSound(ts, i);
    } else if i < |ts| && ts[i].kind == Path && At(ts, i + 1, "(") {
      LeafIsNotOp(ts[i].text);
      CallReads(ts, i);
      CallSound(ts, i);
    } else if i < |ts| {
      assert ts[i..i + 1] == [ts[i]];
    }
  }

  lemma {:induction false} ParenSound(ts: seq<Token>, i: nat)
    requires AllTokens(ts) && At(ts, i, "(")
    ensures var p := ParsePrimary(ts, i); p.Done? ==> Covers(p.value, ts, i, p.next) && Level(p.value) == 4
    decreases |ts| - i, 0
  {
    OpAt(ts, i, "(");
    OrSound(ts, i + 1);
    if ParseOr(ts, i + 1).Done? {
      var Done(e, j) := ParseOr(ts, i + 1);
      if At(ts, j, ")") {
        OpAt(ts, j, ")");
        CoversParen(ts, i, j, e);
      }
    }
  }

  /** How the parser reads a call. */
  lemma CallReads(ts: seq<Token>, i: nat)
    requires i < |ts| && ts[i].kind == Path && ts[i].text != "(" && At(ts, i + 1, "(")
    ensures ParsePrimary(ts, i) == match ParseArgs(ts, i + 2)
                                   case Fail(read) => Fail(read)
                                   case Done(args, j) => Done(Call(ts[i].text, args), j)
  {
  }

  lemma {:induction false} CallSound(ts: seq<Token>, i: nat)
    requires AllTokens(ts) && i < |ts| && ts[i].kind == Path && At(ts, i + 1, "(")
    ensures var p := ParseArgs(ts, i + 2); p.Done? ==> Covers(Call(ts[i].text, p.value), ts, i, p.next)
    decreases |ts| - i, 0
  {
    hide Covers, CoversArgs, ParseArgs;
    OpAt(ts, i + 1, "(");
    ArgsSound(ts, i + 2);
    if ParseArgs(ts, i + 2).Done? {
      var Done(args, j) := ParseArgs(ts, i + 2);
      CoversCall(ts, i, j - 1, args);
    }
  }

  ghost predicate CoversArgs(args: seq<Expr>, ts: seq<Token>, i: nat, j: nat) {
    i <= j <= |ts| && GroupedAll(args) && LexicalAll(args) && YieldAll(args) == ts[i..j]
  }

  lemma {:induction false} ArgsSound(ts: seq<Token>, i: nat)
    requires AllTokens(ts) && i <= |ts|
    ensures CoversCallArgs(ParseArgs(ts, i), ts, i)
    decreases |ts| - i, 7
  {
    if At(ts, i, ")") {
      OpAt(ts, i, ")");
    } else {
      SomeArgsSound(ts, i);
    }
  }

  lemma ArgsBegin(ts: seq<Token>, i: nat)
    requires i <= |ts| && !At(ts, i, ")")
    ensures ParseOr(ts, i).Fail? ==> ParseArgs(ts, i).Fail?
    ensures ParseOr(ts, i).Done? ==>
              ParseArgs(ts, i) == ArgsRest(ts, ParseOr(ts, i).next, [ParseOr(ts, i).value])
  {
  }

  lemma {:induction false} SomeArgsSound(ts: seq<Token>, i: nat)
    requires AllTokens(ts) && i <= |ts| && !At(ts, i, ")")
    ensures CoversCallArgs(ParseArgs(ts, i), ts, i)
    decreases |ts| - i, 6
  {
    OrSound(ts, i);
    ArgsBegin(ts, i);
    if ParseOr(ts, i).Done? {
      var Done(e, j) := ParseOr(ts, i);
      CoversOne(ts, i, j, e);
      ArgsRestSound(ts, i, j, [e]);
    }
  }

  lemma OneArg(e: Expr)
    ensures YieldAll([e]) == Yield(e)
    ensures Grouped(e) ==> GroupedAll([e])
    ensures LexicalLeaves(e) ==> LexicalAll([e])
  {
    assert [e][..0] == [];
  }

  lemma MoreArgs(args: seq<Expr>, e: Expr)
    requires args != []
    ensures YieldAll(args + [e]) == YieldAll(args) + [OpToken(",")] + Yield(e)
    ensures GroupedAll(args) && Grouped(e) ==> GroupedAll(args + [e])
    ensures LexicalAll(args) && LexicalLeaves(e) ==> LexicalAll(args + [e])
  {
    assert (args + [e])[..|args|] == args;
  }

  lemma CoversOne(ts: seq<Token>, i: nat, j: nat, e: Expr)
    requires Covers(e, ts, i, j)
    ensures CoversArgs([e], ts, i, j)
  {
    OneArg(e);
  }

  lemma CoversMore(ts: seq<Token>, i: nat, j: nat, k: nat, args: seq<Expr>, e: Expr)
    requires args != [] && CoversArgs(args, ts, i, j) && Covers(e, ts, j + 1, k)
    requires j < |ts| && ts[j] == OpToken(",") && j < k
    ensures CoversArgs(args + [e], ts, i, k)
  {
    Join(ts, i, j, k);
    MoreArgs(args, e);
  }

  lemma ArgsContinue(ts: seq<Token>, j: nat, args: seq<Expr>)
    requires At(ts, j, ",")
    ensures ParseOr(ts, j + 1).Fail? ==> ArgsRest(ts, j, args).Fail?
    ensures ParseOr(ts, j + 1).Done? ==>
              ArgsRest(ts, j, args) == ArgsRest(ts, ParseOr(ts, j + 1).next, args + [ParseOr(ts, j + 1).value])
  {
  }

  ghost predicate CoversCallArgs(p: Parse<seq<Expr>>, ts: seq<Token>, i: nat) {
    p.Done? ==> 0 < p.next <= |ts| && CoversArgs(p.value, ts, i, p.next - 1) && ts[p.next - 1] == OpToken(")")
  }

  lemma {:induction false} ArgsRestSound(ts: seq<Token>, i: nat, j: nat, args: seq<Expr>)
    requires AllTokens(ts) && args != [] && i < j && CoversArgs(args, ts, i, j)
    ensures CoversCallArgs(ArgsRest(ts, j, args), ts, i)
    decreases |ts| - j, 6
  {
    if At(ts, j, ",") {
      ArgsContinue(ts, j, args);
      if ParseOr(ts, j + 1).Done? {
        NextArgSound(ts, i, j, args);
      }
    } else if At(ts, j, ")") {
      OpAt(ts, j, ")");
    }
  }

  lemma {:induction false} NextArgSound(ts: seq<Token>, i: nat, j: nat, args: seq<Expr>)
    requires AllTokens(ts) && args != [] && i < j && CoversArgs(args, ts, i, j)
    requires At(ts, j, ",") && ParseOr(ts, j + 1).Done?
    ensures var Done(e, k) := ParseOr(ts, j + 1); CoversCallArgs(ArgsRest(ts, k, args + [e]), ts, i)
    decreases |ts| - j, 5
  {
    var Done(e, k) := ParseOr(ts, j + 1);
    OpAt(ts, j, ",");
    OrSound(ts, j + 1);
    CoversMore(ts, i, j, k, args, e);
    ArgsRestSound(ts, i, k, args + [e]);
  }

  /** Soundness: an accepted token list is the printing of the tree it is given. */
  lemma YieldOfParse(ts: seq<Token>)
    requires AllTokens(ts) && ParseAll(ts).Ok?
    ensures var e := ParseAll(ts).value;
            Grouped(e) && LexicalLeaves(e) && Yield(e) == ts
  {
    OrSound(ts, 0);
    assert ts[0..|ts|] == ts;
  }
}
