/**
 The TA005 rule of the test linter: which names of a test function hold a value that a patched
 mock handed back, and which assertions look at one.
 */
module TaintFlow {
  import opened Text
  import opened Graphs

  /** A call of a patch alias: its line and the alias. */
  datatype Origin = Origin(line: nat, alias: string)

  /** The nodes of a function body that matter, with the names each value mentions and the alias
      calls it embeds, in walk order. */
  datatype Node =
    | Assign(target: string, names: seq<string>, calls: seq<Origin>)
    | Accumulate(target: string, args: seq<seq<string>>)
    | Assertion(names: seq<string>)
    | Other

  type Origins = map<string, Origin>

  /** The origin of the first tainted name of a value. */
  function TaintedIn(names: seq<string>, origin: Origins): (r: seq<Origin>)
    ensures |r| <= 1
    ensures r == [] <==> forall n :: n in names ==> n !in origin
  {
    if names == [] then []
    else if names[0] in origin then [origin[names[0]]]
    else TaintedIn(names[1..], origin)
  }

  lemma {:induction false} TaintedName(names: seq<string>, origin: Origins) returns (n: string)
    requires TaintedIn(names, origin) != []
    ensures n in names && n in origin && TaintedIn(names, origin) == [origin[n]]
  {
    if names[0] in origin {
      n := names[0];
    } else {
      n := TaintedName(names[1..], origin);
    }
  }

  // ---- the specification: a graph of names ----

  predicate Uses(node: Node, n: string) {
    match node
    case Assign(_, names, _) => n in names
    case Accumulate(_, args) => exists a :: a in args && n in a
    case _ => false
  }

  predicate Writes(node: Node) { node.Assign? || node.Accumulate? }

  /** The names a value flows to in one assignment, append or extend. */
  ghost function FlowsTo(walk: seq<Node>): string -> set<string> {
    n => set i | 0 <= i < |walk| && Writes(walk[i]) && Uses(walk[i], n) :: walk[i].target
  }

  predicate Seeds(node: Node) { node.Assign? && node.calls != [] }

  ghost function SeedNames(walk: seq<Node>): set<string> {
    set i | 0 <= i < |walk| && Seeds(walk[i]) :: walk[i].target
  }

  ghost function Targets(walk: seq<Node>): set<string> {
    set i | 0 <= i < |walk| && Writes(walk[i]) :: walk[i].target
  }

  ghost predicate Tainted(walk: seq<Node>, n: string) {
    Reaches(FlowsTo(walk), SeedNames(walk), n)
  }

  /** `o` is the call some seed assignment of `s` starts with. */
  ghost predicate SeedCall(walk: seq<Node>, s: string, o: Origin) {
    exists i :: 0 <= i < |walk| && Seeds(walk[i]) && walk[i].target == s && walk[i].calls[0] == o
  }

  /** The recorded origin of `n` is the call of a seed that flows to `n`. */
  ghost predicate Justified(walk: seq<Node>, n: string, o: Origin) {
    exists s :: SeedCall(walk, s, o) && Reaches(FlowsTo(walk), {s}, n)
  }

  ghost predicate AllJustified(walk: seq<Node>, origin: Origins) {
    forall n :: n in origin ==> Justified(walk, n, origin[n])
  }

  // ---- what the walk records, as functions ----

  /** The origin of the first tainted name among the arguments. */
  function ArgumentOrigin(args: seq<seq<string>>, origin: Origins): (r: seq<Origin>)
    ensures |r| <= 1
  {
    if args == [] then []
    else if TaintedIn(args[0], origin) != [] then TaintedIn(args[0], origin)
    else ArgumentOrigin(args[1..], origin)
  }

  /** The origin that flows to the target of a node. */
  function Source(node: Node, origin: Origins): (r: seq<Origin>)
    ensures |r| <= 1
  {
    match node
    case Assign(_, names, _) => TaintedIn(names, origin)
    case Accumulate(_, args) => ArgumentOrigin(args, origin)
    case _ => []
  }

  /** A later seed of a name replaces an earlier one. */
  function SeedOrigins(walk: seq<Node>): Origins {
    if walk == [] then map[]
    else
      var last := walk[|walk| - 1];
      var before := SeedOrigins(walk[..|walk| - 1]);
      if Seeds(last) then before[last.target := last.calls[0]] else before
  }

  /** The first origin that comes to a name stays. */
  function AfterNode(node: Node, origin: Origins): Origins {
    if !Writes(node) || node.target in origin || Source(node, origin) == [] then origin
    else origin[node.target := Source(node, origin)[0]]
  }

  function AfterPass(walk: seq<Node>, origin: Origins): (r: Origins)
    ensures origin.Keys <= r.Keys <= origin.Keys + Targets(walk)
    ensures r != origin ==> origin.Keys < r.Keys
  {
    if walk == [] then origin
    else AfterNode(walk[|walk| - 1], AfterPass(walk[..|walk| - 1], origin))
  }

  /** Passes until one changes nothing. */
  ghost function Settle(walk: seq<Node>, origin: Origins): Origins
    decreases Targets(walk) - origin.Keys
  {
    var next := AfterPass(walk, origin);
    if next == origin then origin else Settle(walk, next)
  }

  ghost function OriginsOf(walk: seq<Node>): Origins { Settle(walk, SeedOrigins(walk)) }

  /** The seed of a name is the first call of the last assignment to it that makes any. */
  lemma LastSeed(walk: seq<Node>, x: string, names: seq<string>, o: Origin, more: seq<Origin>, rest: seq<Node>)
    requires forall node :: node in rest ==> !(node.Assign? && node.target == x && node.calls != [])
    ensures var all := walk + [Assign(x, names, [o] + more)] + rest;
            x in SeedOrigins(all) && SeedOrigins(all)[x] == o
    decreases |rest|
  {
    var seed := walk + [Assign(x, names, [o] + more)];
    var all := seed + rest;
    if rest == [] {
      assert all == seed && seed[..|seed| - 1] == walk;
    } else {
      assert all[..|all| - 1] == seed + rest[..|rest| - 1] && all[|all| - 1] in rest;
      LastSeed(walk, x, names, o, more, rest[..|rest| - 1]);
    }
  }

  // ---- seeding and propagation ----

  method Seed(walk: seq<Node>) returns (origin: Origins)
    ensures origin == SeedOrigins(walk)
    ensures origin.Keys == SeedNames(walk) && AllJustified(walk, origin)
  {
    origin := map[];
    for i := 0 to |walk|
      invariant origin == SeedOrigins(walk[..i])
      invariant origin.Keys == set j | 0 <= j < i && Seeds(walk[j]) :: walk[j].target
      invariant AllJustified(walk, origin)
    {
      assert walk[..i + 1][..i] == walk[..i];
      if Seeds(walk[i]) {
        var s, o := walk[i].target, walk[i].calls[0];
        ReachesRoot(FlowsTo(walk), {s}, s);
        assert SeedCall(walk, s, o);
        origin := origin[s := o];
      }
    }
    assert walk[..|walk|] == walk;
  }

  lemma JustifiedNext(walk: seq<Node>, n: string, o: Origin, i: nat)
    requires Justified(walk, n, o) && i < |walk| && Writes(walk[i]) && Uses(walk[i], n)
    ensures Justified(walk, walk[i].target, o)
  {
    var s :| SeedCall(walk, s, o) && Reaches(FlowsTo(walk), {s}, n);
    ReachesNext(FlowsTo(walk), {s}, n, walk[i].target);
  }

  /** The node adds nothing more: its target is recorded or none of its names is. */
  ghost predicate Settled(node: Node, origin: Origins) {
    Writes(node) ==> node.target in origin || forall n :: Uses(node, n) ==> n !in origin
  }

  /** The first tainted name among the arguments of an append or extend. */
  method TaintedArgument(args: seq<seq<string>>, origin: Origins) returns (src: seq<Origin>, ghost n: string)
    ensures src == ArgumentOrigin(args, origin)
    ensures src == [] ==> forall a, m :: a in args && m in a ==> m !in origin
    ensures src != [] ==> n in origin && src == [origin[n]] && exists a :: a in args && n in a
  {
    src, n := [], "";
    for k := 0 to |args|
      invariant src == [] && forall j, m :: 0 <= j < k && m in args[j] ==> m !in origin
      invariant ArgumentOrigin(args, origin) == ArgumentOrigin(args[k..], origin)
    {
      src := TaintedIn(args[k], origin);
      if src != [] {
        n := TaintedName(args[k], origin);
        return;
      }
    }
  }

  /** One node of one pass: the target of a node that writes, when it is not yet recorded, takes
      the origin of the first tainted name. */
  method Propagate(walk: seq<Node>, i: nat, origin: Origins) returns (r: Origins, changed: bool)
    requires i < |walk| && AllJustified(walk, origin)
    ensures r == AfterNode(walk[i], origin)
    ensures AllJustified(walk, r) && Settled(walk[i], r)
    ensures !changed ==> r == origin
    ensures changed ==> Writes(walk[i]) && walk[i].target !in origin && r.Keys == origin.Keys + {walk[i].target}
  {
    r, changed := origin, false;
    if !Writes(walk[i]) || walk[i].target in origin {
      return;
    }
    var src;
    ghost var n;
    if walk[i].Assign? {
      src := TaintedIn(walk[i].names, origin);
      if src != [] {
        n := TaintedName(walk[i].names, origin);
      }
    } else {
      src, n := TaintedArgument(walk[i].args, origin);
    }
    if src != [] {
      JustifiedNext(walk, n, origin[n], i);
      r, changed := origin[walk[i].target := src[0]], true;
    }
  }

  ghost predicate SettledUpTo(walk: seq<Node>, k: nat, origin: Origins) {
    forall j :: 0 <= j < k && j < |walk| ==> Settled(walk[j], origin)
  }

  lemma InTargets(walk: seq<Node>, i: nat)
    requires i < |walk| && Writes(walk[i])
    ensures walk[i].target in Targets(walk)
  {
  }

  lemma SettledNext(walk: seq<Node>, i: nat, origin: Origins)
    requires SettledUpTo(walk, i, origin) && i < |walk| && Settled(walk[i], origin)
    ensures SettledUpTo(walk, i + 1, origin)
  {
    forall j | 0 <= j < i + 1 && j < |walk|
      ensures Settled(walk[j], origin)
    {
      if j < i {
      }
    }
  }

  /** One pass over the walk. */
  method Pass(walk: seq<Node>, before: Origins) returns (origin: Origins, changed: bool)
    requires AllJustified(walk, before) && before.Keys <= Targets(walk)
    ensures origin == AfterPass(walk, before)
    ensures AllJustified(walk, origin) && before.Keys <= origin.Keys <= Targets(walk)
    ensures changed ==> before.Keys < origin.Keys
    ensures !changed ==> origin == before && SettledUpTo(walk, |walk|, origin)
  {
    origin := before;
    changed := false;
    for i := 0 to |walk|
      invariant origin == AfterPass(walk[..i], before)
      invariant AllJustified(walk, origin) && before.Keys <= origin.Keys <= Targets(walk)
      invariant changed ==> before.Keys < origin.Keys
      invariant !changed ==> origin == before && SettledUpTo(walk, i, origin)
    {
      var more;
      ghost var last := origin;
      origin, more := Propagate(walk, i, origin);
      assert walk[..i + 1][..i] == walk[..i];
      if more {
        InTargets(walk, i);
        assert walk[i].target !in last && walk[i].target in origin;
      }
      changed := changed || more;
      if !changed {
        SettledNext(walk, i, origin);
      }
    }
    assert walk[..|walk|] == walk;
  }

  /** The script's loop: passes over the whole walk until one changes nothing. The tainted names
      it ends with are exactly those a seed flows to. */
  method Taint(walk: seq<Node>) returns (origin: Origins)
    ensures origin == OriginsOf(walk)
    ensures forall n :: n in origin <==> Tainted(walk, n)
    ensures AllJustified(walk, origin)
  {
    origin := Seed(walk);
    var changed := true;
    while changed
      invariant SeedNames(walk) <= origin.Keys <= Targets(walk)
      invariant AllJustified(walk, origin)
      invariant OriginsOf(walk) == if changed then Settle(walk, origin) else origin
      invariant !changed ==> SettledUpTo(walk, |walk|, origin)
      decreases Targets(walk) - origin.Keys, changed
    {
      ghost var before := origin;
      origin, changed := Pass(walk, origin);
    }
    SettledIsClosed(walk, origin);
    ClosedHoldsReached(FlowsTo(walk), SeedNames(walk), origin.Keys);
    forall n | n in origin
      ensures Tainted(walk, n)
    {
      JustifiedTainted(walk, n, origin[n]);
    }
  }

  lemma SettledIsClosed(walk: seq<Node>, origin: Origins)
    requires SettledUpTo(walk, |walk|, origin)
    ensures Closed(FlowsTo(walk), origin.Keys)
  {
    forall n, t | n in origin && t in FlowsTo(walk)(n)
      ensures t in origin
    {
      var i :| 0 <= i < |walk| && Writes(walk[i]) && Uses(walk[i], n) && walk[i].target == t;
      assert Settled(walk[i], origin);
    }
  }

  lemma JustifiedTainted(walk: seq<Node>, n: string, o: Origin)
    requires Justified(walk, n, o)
    ensures Tainted(walk, n)
  {
    var s :| SeedCall(walk, s, o) && Reaches(FlowsTo(walk), {s}, n);
    assert s in SeedNames(walk);
    ReachesMonotone(FlowsTo(walk), FlowsTo(walk), {s}, SeedNames(walk), n);
  }

  // ---- what the tainted names are ----

  /** `s` has the target of every assignment that calls an alias or mentions a name in `s`, and of
      every append or extend with an argument that mentions one. */
  ghost predicate ClosedUnder(walk: seq<Node>, s: set<string>) {
    forall i :: 0 <= i < |walk| ==>
      match walk[i]
      case Assign(target, names, calls) => calls != [] || (exists n :: n in names && n in s) ==> target in s
      case Accumulate(target, args) => (exists a, n :: a in args && n in a && n in s) ==> target in s
      case _ => true
  }

  ghost predicate HoldsTainted(walk: seq<Node>, s: set<string>) {
    forall n :: Tainted(walk, n) ==> n in s
  }

  /** The tainted names are the least set that holds the seeds and is closed under the flow. */
  lemma TaintIsLeast(walk: seq<Node>, tainted: set<string>)
    requires forall n :: n in tainted <==> Tainted(walk, n)
    ensures ClosedUnder(walk, tainted)
    ensures forall s :: ClosedUnder(walk, s) ==> tainted <= s
  {
    forall i | 0 <= i < |walk|
      ensures Seeds(walk[i]) ==> walk[i].target in tainted
      ensures forall n :: n in tainted && Writes(walk[i]) && Uses(walk[i], n) ==> walk[i].target in tainted
    {
      if Seeds(walk[i]) {
        ReachesRoot(FlowsTo(walk), SeedNames(walk), walk[i].target);
      }
      forall n | n in tainted && Writes(walk[i]) && Uses(walk[i], n)
        ensures walk[i].target in tainted
      {
        ReachesNext(FlowsTo(walk), SeedNames(walk), n, walk[i].target);
      }
    }
    forall s | ClosedUnder(walk, s)
      ensures tainted <= s
    {
      LeastHolds(walk, s);
    }
  }

  lemma LeastHolds(walk: seq<Node>, s: set<string>)
    requires ClosedUnder(walk, s)
    ensures HoldsTainted(walk, s)
  {
    forall n, t | n in s && t in FlowsTo(walk)(n)
      ensures t in s
    {
      var i :| 0 <= i < |walk| && Writes(walk[i]) && Uses(walk[i], n) && walk[i].target == t;
    }
    ClosedHoldsReached(FlowsTo(walk), SeedNames(walk), s);
  }

  /** The order of the walk does not matter, nor how often a node appears. */
  lemma TaintOrderFree(walk: seq<Node>, other: seq<Node>, n: string)
    requires forall node :: node in walk <==> node in other
    requires Tainted(walk, n)
    ensures Tainted(other, n)
  {
    SameSeeds(walk, other);
    forall m
      ensures FlowsTo(walk)(m) <= FlowsTo(other)(m)
    {
      forall t | t in FlowsTo(walk)(m)
        ensures t in FlowsTo(other)(m)
      {
        var i :| 0 <= i < |walk| && Writes(walk[i]) && Uses(walk[i], m) && walk[i].target == t;
        assert walk[i] in walk;
        var j :| 0 <= j < |other| && other[j] == walk[i];
      }
    }
    ReachesMonotone(FlowsTo(walk), FlowsTo(other), SeedNames(walk), SeedNames(other), n);
  }

  lemma SameSeeds(walk: seq<Node>, other: seq<Node>)
    requires forall node :: node in walk ==> node in other
    ensures SeedNames(walk) <= SeedNames(other)
  {
    forall s | s in SeedNames(walk)
      ensures s in SeedNames(other)
    {
      var i :| 0 <= i < |walk| && Seeds(walk[i]) && walk[i].target == s;
      assert walk[i] in walk;
      var j :| 0 <= j < |other| && other[j] == walk[i];
    }
  }

  // ---- findings ----

  /** The assertion looks at a name that the call `o` flows to. */
  ghost predicate Tautology(walk: seq<Node>, node: Node, o: Origin) {
    node.Assertion? && exists n :: n in node.names && Tainted(walk, n) && Justified(walk, n, o)
  }

  ghost predicate AssertsTaint(walk: seq<Node>, node: Node) {
    node.Assertion? && exists n :: n in node.names && Tainted(walk, n)
  }

  function Lines(found: seq<Origin>): set<nat> {
    set i | 0 <= i < |found| :: found[i].line
  }

  ghost predicate DistinctLines(found: seq<Origin>) {
    forall i, j :: 0 <= i < j < |found| ==> found[i].line != found[j].line
  }

  /** Some assertion of the walk looks at what the call handed back. */
  ghost predicate Asserted(walk: seq<Node>, o: Origin) {
    exists i :: 0 <= i < |walk| && Tautology(walk, walk[i], o)
  }

  /** The line of a call that the assertion looks at is among the reported lines. */
  ghost predicate Reported(walk: seq<Node>, node: Node, seen: set<nat>) {
    exists o: Origin :: o.line in seen && Tautology(walk, node, o)
  }

  /** The call an assertion is found to look at. */
  function HitOf(node: Node, origin: Origins): Option<Origin> {
    if node.Assertion? && TaintedIn(node.names, origin) != [] then Some(TaintedIn(node.names, origin)[0]) else None
  }

  /** The findings of a walk, from lines already reported. */
  function Findings(walk: seq<Node>, origin: Origins, seen: set<nat>): seq<Origin> {
    if walk == [] then []
    else
      var before := Findings(walk[..|walk| - 1], origin, seen);
      before + Added(HitOf(walk[|walk| - 1], origin), seen + Lines(before))
  }

  lemma HitIsTautology(walk: seq<Node>, i: nat, origin: Origins)
    requires i < |walk| && walk[i].Assertion? && AllJustified(walk, origin)
    requires forall n :: n in origin <==> Tainted(walk, n)
    ensures AssertsTaint(walk, walk[i]) <==> TaintedIn(walk[i].names, origin) != []
    ensures AssertsTaint(walk, walk[i]) ==> Tautology(walk, walk[i], TaintedIn(walk[i].names, origin)[0])
  {
    if TaintedIn(walk[i].names, origin) != [] {
      var n := TaintedName(walk[i].names, origin);
    }
  }

  /** The linter's state: the lines already reported and the findings. */
  class Visitor {
    var seen: set<nat>
    var findings: seq<Origin>

    method Report(o: Origin) returns (ghost added: seq<Origin>)
      modifies this
      ensures added == if o.line in old(seen) then [] else [o]
      ensures findings == old(findings) + added && seen == old(seen) + {o.line}
    {
      added := [];
      if o.line !in seen {
        seen := seen + {o.line};
        findings := findings + [o];
        added := [o];
      }
    }

    /** Looks at one assertion; `hit` is the call it is found to look at. */
    method CheckNode(walk: seq<Node>, i: nat, origin: Origins)
      returns (ghost hit: Option<Origin>, ghost added: seq<Origin>)
      requires i < |walk| && AllJustified(walk, origin) && forall n :: n in origin <==> Tainted(walk, n)
      modifies this
      ensures Hits(walk, i, hit) && hit == HitOf(walk[i], origin) && added == Added(hit, old(seen))
      ensures findings == old(findings) + added && seen == old(seen) + HitLine(hit)
    {
      var hits := if walk[i].Assertion? then TaintedIn(walk[i].names, origin) else [];
      hit := if hits == [] then None else Some(hits[0]);
      HitsFound(walk, i, origin, hits);
      added := [];
      if hits != [] {
        added := Report(hits[0]);
      }
    }

    /** Every finding is a mock call whose result some assertion looks at, on a line not reported
        before; and every assertion on a tainted name has the line of such a call reported. */
    method CheckMockAliasAsserted(walk: seq<Node>) returns (ghost found: seq<Origin>)
      modifies this
      ensures findings == old(findings) + found && found == Findings(walk, OriginsOf(walk), old(seen))
      ensures Log(walk, found, old(seen), seen)
      ensures ReportedUpTo(walk, |walk|, seen)
    {
      var origin := Taint(walk);
      found := [];
      for i := 0 to |walk|
        invariant findings == old(findings) + found && Log(walk, found, old(seen), seen)
        invariant found == Findings(walk[..i], origin, old(seen))
        invariant ReportedUpTo(walk, i, seen)
      {
        ghost var before, seen0 := found, seen;
        ghost var hit, added := CheckNode(walk, i, origin);
        AppendAssoc(old(findings), before, added);
        found := before + added;
        NodeKept(walk, before, old(seen), seen0, hit, i);
        assert walk[..i + 1][..i] == walk[..i];
      }
      assert walk[..|walk|] == walk;
    }
  }

  /** `found` are new findings, each on a line of its own, that take `before` to `seen`. */
  ghost predicate Log(walk: seq<Node>, found: seq<Origin>, before: set<nat>, seen: set<nat>) {
    && seen == before + Lines(found) && Lines(found) !! before && DistinctLines(found)
    && forall k :: 0 <= k < |found| ==> Asserted(walk, found[k])
  }

  ghost predicate ReportedUpTo(walk: seq<Node>, k: nat, seen: set<nat>) {
    forall j :: 0 <= j < k && j < |walk| && AssertsTaint(walk, walk[j]) ==> Reported(walk, walk[j], seen)
  }

  /** What looking at node `i` finds: a call it is a tautology about, if it looks at any. */
  ghost predicate Hits(walk: seq<Node>, i: nat, hit: Option<Origin>)
    requires i < |walk|
  {
    if hit.Some? then Tautology(walk, walk[i], hit.value) else !AssertsTaint(walk, walk[i])
  }

  lemma HitsFound(walk: seq<Node>, i: nat, origin: Origins, hits: seq<Origin>)
    requires i < |walk| && AllJustified(walk, origin) && forall n :: n in origin <==> Tainted(walk, n)
    requires hits == if walk[i].Assertion? then TaintedIn(walk[i].names, origin) else []
    ensures Hits(walk, i, if hits == [] then None else Some(hits[0]))
  {
    if walk[i].Assertion? {
      HitIsTautology(walk, i, origin);
    }
  }

  function Added(hit: Option<Origin>, seen: set<nat>): seq<Origin> {
    if hit.None? || hit.value.line in seen then [] else [hit.value]
  }

  function HitLine(hit: Option<Origin>): set<nat> { if hit.Some? then {hit.value.line} else {} }

  lemma NodeKept(walk: seq<Node>, found: seq<Origin>, before: set<nat>, seen: set<nat>, hit: Option<Origin>, i: nat)
    requires i < |walk| && Hits(walk, i, hit)
    requires Log(walk, found, before, seen) && ReportedUpTo(walk, i, seen)
    ensures Log(walk, found + Added(hit, seen), before, seen + HitLine(hit))
    ensures ReportedUpTo(walk, i + 1, seen + HitLine(hit))
  {
    if hit.Some? {
      LogGrows(walk, found, before, seen, hit.value, i);
      ReportedGrows(walk, i, seen, hit.value);
    } else {
      assert found + [] == found && seen + {} == seen;
    }
  }

  lemma LogGrows(walk: seq<Node>, found: seq<Origin>, before: set<nat>, seen: set<nat>, o: Origin, i: nat)
    requires Log(walk, found, before, seen) && i < |walk| && Tautology(walk, walk[i], o)
    ensures Log(walk, found + (if o.line in seen then [] else [o]), before, seen + {o.line})
  {
    var added := if o.line in seen then [] else [o];
    assert Lines(added) == if o.line in seen then {} else {o.line};
    LinesAdded(found, added);
    assert Asserted(walk, o);
  }

  lemma ReportedGrows(walk: seq<Node>, i: nat, seen: set<nat>, o: Origin)
    requires ReportedUpTo(walk, i, seen) && i < |walk| && Tautology(walk, walk[i], o)
    ensures ReportedUpTo(walk, i + 1, seen + {o.line})
  {
    forall j | 0 <= j <= i && AssertsTaint(walk, walk[j])
      ensures Reported(walk, walk[j], seen + {o.line})
    {
      if j < i {
        assert Reported(walk, walk[j], seen);
      }
    }
  }

  lemma LinesAdded(found: seq<Origin>, added: seq<Origin>)
    requires |added| <= 1
    ensures Lines(found + added) == Lines(found) + Lines(added)
    ensures DistinctLines(found) && Lines(found) !! Lines(added) ==> DistinctLines(found + added)
  {
    var all := found + added;
    forall i | 0 <= i < |all|
      ensures all[i].line in Lines(found) + Lines(added)
    {
      if i < |found| {
        assert all[i] == found[i];
      } else {
        assert all[i] == added[i - |found|];
      }
    }
    forall i | 0 <= i < |found|
      ensures found[i].line in Lines(all)
    {
      assert all[i] == found[i];
    }
    forall i | 0 <= i < |added|
      ensures added[i].line in Lines(all)
    {
      assert all[|found| + i] == added[i];
    }
  }

  // ---- which call is reported depends on the order ----

  /** Two mock calls, both appended to a list that is asserted on; `first` is appended first. */
  function TwoAppends(first: string, second: string): seq<Node> {
    [Assign("a", [], [Origin(1, "m")]), Assign("b", [], [Origin(2, "m")]),
     Accumulate("all", [[first]]), Accumulate("all", [[second]]), Assertion(["all"])]
  }

  lemma Prefixes(walk: seq<Node>)
    requires |walk| == 5
    ensures walk[..5] == walk && walk[..5][..4] == walk[..4] && walk[..4][..3] == walk[..3]
    ensures walk[..3][..2] == walk[..2] && walk[..2][..1] == walk[..1] && walk[..1][..0] == []
  {
  }

  const TWO_SEEDS: Origins := map["a" := Origin(1, "m"), "b" := Origin(2, "m")]

  lemma TwoSeeds(first: string, second: string)
    ensures SeedOrigins(TwoAppends(first, second)) == TWO_SEEDS
  {
    var walk := TwoAppends(first, second);
    Prefixes(walk);
    assert SeedOrigins(walk[..1]) == map["a" := Origin(1, "m")];
    assert SeedOrigins(walk[..2]) == SeedOrigins(walk[..3]) == SeedOrigins(walk[..4]) == TWO_SEEDS;
  }

  lemma OnePass(first: string, second: string, before: Origins, done: Origins)
    requires first in before && "a" in before && "b" in before
    requires done == if "all" in before then before else before["all" := before[first]]
    ensures AfterPass(TwoAppends(first, second), before) == done
  {
    var walk := TwoAppends(first, second);
    Prefixes(walk);
    assert AfterPass(walk[..1], before) == AfterPass(walk[..2], before) == before;
    assert [[first]][0] == [first] && TaintedIn([first], before) == [before[first]];
    assert AfterPass(walk[..3], before) == AfterPass(walk[..4], before) == done;
  }

  lemma OneFinding(first: string, second: string, origin: Origins)
    requires "all" in origin
    ensures Findings(TwoAppends(first, second), origin, {}) == [origin["all"]]
  {
    var walk := TwoAppends(first, second);
    Prefixes(walk);
    assert Findings(walk[..1], origin, {}) == [];
    assert Findings(walk[..2], origin, {}) == [];
    assert Findings(walk[..3], origin, {}) == [];
    assert Findings(walk[..4], origin, {}) == [];
    assert TaintedIn(["all"], origin) == [origin["all"]];
  }

  /** The call whose result is appended first is reported. */
  lemma FirstAppended(first: string, second: string)
    requires first in TWO_SEEDS
    ensures Findings(TwoAppends(first, second), OriginsOf(TwoAppends(first, second)), {}) == [TWO_SEEDS[first]]
  {
    hide SeedOrigins, AfterPass, Findings, TwoAppends;
    var done := TWO_SEEDS["all" := TWO_SEEDS[first]];
    TwoSeeds(first, second);
    OnePass(first, second, TWO_SEEDS, done);
    OnePass(first, second, done, done);
    OneFinding(first, second, done);
    assert "all" in done && "all" !in TWO_SEEDS;
    assert Settle(TwoAppends(first, second), done) == done;
  }

  /** The same nodes walked in two orders: the tainted names are the same, the reported calls are
      not. */
  lemma OrderExample()
    ensures var walk, other := TwoAppends("a", "b"), TwoAppends("b", "a");
            && (forall node :: node in walk <==> node in other)
            && Findings(walk, OriginsOf(walk), {}) != Findings(other, OriginsOf(other), {})
  {
    FirstAppended("a", "b");
    FirstAppended("b", "a");
  }
}
