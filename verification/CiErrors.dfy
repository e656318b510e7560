/** Which part of an expression raises its error, and when that is Python's IndexError. */
module CiErrors {
  import opened CiTokens
  import opened CiExpr
  import opened CiParser

  /** The parts of an expression in the order they are evaluated, itself last. */
  function Steps(e: Expr): seq<Expr>
    decreases e
  {
    match e
    case Or(l, r) => Steps(l) + Steps(r) + [e]
    case And(l, r) => Steps(l) + Steps(r) + [e]
    case Cmp(_, l, r) => Steps(l) + Steps(r) + [e]
    case Not(i) => Steps(i) + [e]
    case Paren(i) => Steps(i) + [e]
    case Call(_, args) => StepsAll(args) + [e]
    case _ => [e]
  }

  function StepsAll(es: seq<Expr>): seq<Expr>
    decreases es
  {
    if es == [] then [] else StepsAll(es[..|es| - 1]) + Steps(es[|es| - 1])
  }

  /** A call that looks at a second argument it does not have. */
  predicate ShortCall(e: Expr) {
    e.Call? && e.fn in ["startsWith", "endsWith"] && |e.args| < 2
  }

  predicate AllHaveValues(steps: seq<Expr>, c: Context) {
    forall e :: e in steps ==> Eval(e, c).Ok?
  }

  /** A short call, with a value for everything before it. */
  ghost predicate Reached(steps: seq<Expr>, k: nat, c: Context) {
    k < |steps| && ShortCall(steps[k]) && AllHaveValues(steps[..k], c)
  }

  ghost predicate ReachesShortCall(steps: seq<Expr>, c: Context) {
    exists k :: Reached(steps, k, c)
  }

  lemma ReachesAppend(a: seq<Expr>, b: seq<Expr>, c: Context)
    ensures AllHaveValues(a + b, c) <==> AllHaveValues(a, c) && AllHaveValues(b, c)
    ensures ReachesShortCall(a + b, c) <==> ReachesShortCall(a, c) || (AllHaveValues(a, c) && ReachesShortCall(b, c))
  {
    var all := a + b;
    if k: nat :| Reached(all, k, c) {
      if k < |a| {
        assert all[..k] == a[..k];
        assert Reached(a, k, c);
      } else {
        assert all[..k] == a + b[..k - |a|];
        assert Reached(b, k - |a|, c);
      }
    }
    if k: nat :| Reached(a, k, c) {
      assert all[..k] == a[..k];
      assert Reached(all, k, c);
    }
    if AllHaveValues(a, c) && ReachesShortCall(b, c) {
      var k: nat :| Reached(b, k, c);
      assert all[..|a| + k] == a + b[..k];
      assert Reached(all, |a| + k, c);
    }
  }

  lemma ReachesOne(e: Expr, c: Context)
    ensures AllHaveValues([e], c) <==> Eval(e, c).Ok?
    ensures ReachesShortCall([e], c) <==> ShortCall(e)
  {
    assert [e][..0] == [];
    if ShortCall(e) {
      assert Reached([e], 0, c);
    }
  }

  lemma ReachesLast(a: seq<Expr>, e: Expr, c: Context)
    ensures AllHaveValues(a + [e], c) <==> AllHaveValues(a, c) && Eval(e, c).Ok?
    ensures ReachesShortCall(a + [e], c) <==> ReachesShortCall(a, c) || (AllHaveValues(a, c) && ShortCall(e))
  {
    ReachesAppend(a, [e], c);
    ReachesOne(e, c);
  }

  lemma {:induction false} ArgumentCount(args: seq<Expr>, c: Context)
    ensures EvalAll(args, c).Ok? ==> |EvalAll(args, c).value| == |args|
    decreases args
  {
    if args != [] {
      ArgumentCount(args[..|args| - 1], c);
    }
  }

  /** An expression ends in Python's IndexError exactly when, in the order of evaluation, a call of
      `startsWith` or `endsWith` with fewer than two arguments comes up and everything before it
      has a value. And it has a value exactly when all its parts do. */
  lemma {:induction false} CrashesExactly(e: Expr, c: Context)
    ensures Eval(e, c) == Err(IndexError) <==> ReachesShortCall(Steps(e), c)
    ensures Eval(e, c).Ok? <==> AllHaveValues(Steps(e), c)
    decreases e
  {
    match e
    case Or(l, r) => TwoParts(e, l, r, c);
    case And(l, r) => TwoParts(e, l, r, c);
    case Cmp(_, l, r) => TwoParts(e, l, r, c);
    case Not(i) => CrashesExactly(i, c); ReachesLast(Steps(i), e, c);
    case Paren(i) => CrashesExactly(i, c); ReachesLast(Steps(i), e, c);
    case Call(_, args) =>
      AllCrashExactly(args, c);
      ArgumentCount(args, c);
      ReachesLast(StepsAll(args), e, c);
    case _ => ReachesOne(e, c);
  }

  lemma {:induction false} TwoParts(e: Expr, l: Expr, r: Expr, c: Context)
    requires (e.Or? || e.And? || e.Cmp?) && e.left == l && e.right == r
    ensures Eval(e, c) == Err(IndexError) <==> ReachesShortCall(Steps(e), c)
    ensures Eval(e, c).Ok? <==> AllHaveValues(Steps(e), c)
    decreases e, 0
  {
    CrashesExactly(l, c);
    CrashesExactly(r, c);
    ReachesAppend(Steps(l), Steps(r), c);
    ReachesLast(Steps(l) + Steps(r), e, c);
  }

  lemma {:induction false} AllCrashExactly(es: seq<Expr>, c: Context)
    ensures EvalAll(es, c) == Err(IndexError) <==> ReachesShortCall(StepsAll(es), c)
    ensures EvalAll(es, c).Ok? <==> AllHaveValues(StepsAll(es), c)
    decreases es
  {
    if es != [] {
      var init, last := es[..|es| - 1], es[|es| - 1];
      AllCrashExactly(init, c);
      CrashesExactly(last, c);
      ReachesAppend(StepsAll(init), Steps(last), c);
    }
  }

  /** What a parse reads before it ends or fails. */
  function PartsOf(p: Parse<Expr>): seq<Expr> {
    match p
    case Done(e, _) => [e]
    case Fail(read) => read
  }

  lemma MeaningCrashes(p: Parse<Expr>, c: Context)
    ensures MeaningOf(p, c) == Err(IndexError) <==> ReachesShortCall(StepsAll(PartsOf(p)), c)
    ensures MeaningOf(p, c).Ok? ==> AllHaveValues(StepsAll(PartsOf(p)), c)
  {
    AllCrashExactly(PartsOf(p), c);
    if p.Done? {
      EvalOne(p.value, c);
    }
  }

  /** Short calls do not depend on the context: with a value in one there is no crash in another. */
  lemma ValueMeansNoShortCall(steps: seq<Expr>, c: Context, d: Context)
    requires AllHaveValues(steps, c) && !ReachesShortCall(steps, c)
    ensures !ReachesShortCall(steps, d)
  {
    if k: nat :| Reached(steps, k, d) {
      assert Reached(steps, k, c);
    }
  }
}
