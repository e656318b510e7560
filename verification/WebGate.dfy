/** The web reachability gate: the import walk from the app roots and the verdict. */
module WebGate {
  import opened Text
  import opened Graphs
  import opened WebLexer
  import opened WebLexerLaws
  import opened WebImports
  import opened WebImportLaws

  /** The path operations of `pathlib`, over an opaque type of paths. `resolve` is None where the
      operating system refuses. */
  datatype Paths<!P> = Paths(
    join: (P, string) -> P,
    parent: P -> P,
    name: P -> string,
    hasSuffix: P -> bool,
    withName: (P, string) -> P,
    resolve: P -> Option<P>)

  /** The web tree: its root, the modules the gate judges, the text of every readable file, and
      the app roots. */
  datatype Tree<!P(==, !new)> = Tree(
    paths: Paths<P>,
    word: char -> bool,
    root: P,
    population: set<P>,
    files: map<P, string>,
    roots: set<P>)
  {
    ghost predicate Valid() { roots <= population }

    /** The candidates for a base path, in the order they are tried. */
    function Candidates(base: P): seq<P> {
      (if paths.hasSuffix(base) then [base]
       else [base, paths.withName(base, paths.name(base) + ".ts"), paths.withName(base, paths.name(base) + ".tsx")])
      + [paths.join(base, "index.ts"), paths.join(base, "index.tsx")]
    }

    function FirstInPopulation(candidates: seq<P>): (r: Option<P>)
      ensures r.Some? ==> r.value in population
    {
      if candidates == [] then None
      else
        var resolved := paths.resolve(candidates[0]);
        if resolved.Some? && resolved.value in population then resolved
        else FirstInPopulation(candidates[1..])
    }

    /** A specifier without its Vite suffix, resolved against the root, the importer or nothing. */
    function Resolve(specifier: string, importer: P): (r: Option<P>)
      ensures r.Some? ==> r.value in population
    {
      var spec := specifier[..IndexOf(specifier, '?')];
      if StartsWith(spec, "@/") then FirstInPopulation(Candidates(paths.join(root, spec[2..])))
      else if StartsWith(spec, ".") then FirstInPopulation(Candidates(paths.join(paths.parent(importer), spec)))
      else None
    }

    /** The specifiers of a file; an unreadable file has none. */
    ghost function Specifiers(f: P): set<string> {
      if f in files then ImportsOf(files[f], word) else {}
    }

    /** The import edges out of a file. */
    ghost function Targets(f: P): set<P> {
      set spec | spec in Specifiers(f) && Resolve(spec, f).Some? :: Resolve(spec, f).value
    }

    ghost function Reachable(): set<P>
      requires Valid()
    {
      set f | f in population && Reaches(Targets, roots, f)
    }
  }

  // ---- the walk ----

  method ReadImports<P(==, !new)>(t: Tree<P>, f: P) returns (specs: set<string>)
    ensures specs == t.Specifiers(f)
  {
    if f in t.files {
      specs := CollectImports(t.files[f], t.word);
    } else {
      specs := {};
    }
  }

  /** All targets are seen or await their turn. */
  ghost predicate Expanded<P>(targets: set<P>, seen: set<P>, stack: seq<P>) {
    forall f :: f in targets ==> f in seen || f in stack
  }

  /** Pushes the targets of `current` that are not yet seen, in whatever order the specifiers
      come out of the set. */
  method PushTargets<P(==, !new)>(t: Tree<P>, current: P, seen: set<P>, before: seq<P>) returns (stack: seq<P>)
    requires t.Valid()
    ensures forall f :: f in stack ==> f in before || (f in t.Targets(current) && f !in seen)
    ensures forall f :: f in before ==> f in stack
    ensures Expanded(t.Targets(current), seen, stack)
  {
    var specs := ReadImports(t, current);
    stack := before;
    var rest := specs;
    while rest != {}
      invariant rest <= specs
      invariant forall f :: f in before ==> f in stack
      invariant forall f :: f in stack ==> f in before || (f in t.Targets(current) && f !in seen)
      invariant forall spec :: spec in specs - rest && t.Resolve(spec, current).Some? ==>
                  t.Resolve(spec, current).value in seen || t.Resolve(spec, current).value in stack
      decreases rest
    {
      var spec :| spec in rest;
      rest := rest - {spec};
      var target := t.Resolve(spec, current);
      if target.Some? && target.value !in seen {
        stack := stack + [target.value];
      }
    }
  }

  method Listed<P(==)>(s: set<P>) returns (list: seq<P>)
    ensures forall f :: f in list <==> f in s
  {
    list := [];
    var rest := s;
    while rest != {}
      invariant rest <= s
      invariant forall f :: f in list <==> f in s - rest
      decreases rest
    {
      var f :| f in rest;
      rest := rest - {f};
      list := list + [f];
    }
  }

  /** `f` is a population file that the roots reach. */
  ghost predicate Found<P(!new)>(t: Tree<P>, f: P) {
    f in t.population && Reaches(t.Targets, t.roots, f)
  }

  lemma RootsFound<P(!new)>(t: Tree<P>)
    requires t.Valid()
    ensures forall f :: f in t.roots ==> Found(t, f)
  {
    forall f | f in t.roots
      ensures Found(t, f)
    {
      ReachesRoot(t.Targets, t.roots, f);
    }
  }

  lemma TargetsFound<P(!new)>(t: Tree<P>, current: P)
    requires t.Valid() && Found(t, current)
    ensures forall f :: f in t.Targets(current) ==> Found(t, f)
  {
    forall f | f in t.Targets(current)
      ensures Found(t, f)
    {
      ReachesNext(t.Targets, t.roots, current, f);
    }
  }

  lemma StaysExpanded<P>(targets: set<P>, seen: set<P>, stack: seq<P>, more: set<P>, next: seq<P>)
    requires Expanded(targets, seen, stack) && seen <= more && forall f :: f in stack ==> f in more || f in next
    ensures Expanded(targets, more, next)
  {
  }

  lemma AllStayExpanded<P(!new)>(t: Tree<P>, seen: set<P>, stack: seq<P>, current: P, next: seq<P>)
    requires forall f :: f in seen ==> Expanded(t.Targets(f), seen, stack + [current])
    requires Expanded(t.Targets(current), seen + {current}, next) && forall f :: f in stack ==> f in next
    ensures forall f :: f in seen + {current} ==> Expanded(t.Targets(f), seen + {current}, next)
  {
    forall f | f in seen
      ensures Expanded(t.Targets(f), seen + {current}, next)
    {
      StaysExpanded(t.Targets(f), seen, stack + [current], seen + {current}, next);
    }
  }

  lemma PoppedStaysExpanded<P(!new)>(t: Tree<P>, seen: set<P>, stack: seq<P>, current: P)
    requires current in seen && forall f :: f in seen ==> Expanded(t.Targets(f), seen, stack + [current])
    ensures forall f :: f in seen ==> Expanded(t.Targets(f), seen, stack)
  {
    forall f | f in seen
      ensures Expanded(t.Targets(f), seen, stack)
    {
      StaysExpanded(t.Targets(f), seen, stack + [current], seen, stack);
    }
  }

  lemma ClosedIsReachable<P(!new)>(t: Tree<P>, seen: set<P>)
    requires t.Valid() && t.roots <= seen && (forall f :: f in seen ==> Found(t, f))
    requires forall f :: f in seen ==> Expanded(t.Targets(f), seen, [])
    ensures seen == t.Reachable()
  {
    forall f | f in seen
      ensures t.Targets(f) <= seen
    {
      assert Expanded(t.Targets(f), seen, []);
    }
    ClosedHoldsReached(t.Targets, t.roots, seen);
  }

  /** The walk of the script. A file may sit on the stack many times; it is expanded once. */
  method Walk<P(==, !new)>(t: Tree<P>) returns (seen: set<P>)
    requires t.Valid()
    ensures seen == t.Reachable()
  {
    seen := {};
    var stack := Listed(t.roots);
    RootsFound(t);
    while stack != []
      invariant forall f :: f in seen || f in stack ==> Found(t, f)
      invariant forall f :: f in t.roots ==> f in seen || f in stack
      invariant forall f :: f in seen ==> Expanded(t.Targets(f), seen, stack)
      decreases t.population - seen, |stack|
    {
      var current := stack[|stack| - 1];
      ghost var popped := stack;
      stack := stack[..|stack| - 1];
      assert popped == stack + [current];
      if current in seen {
        PoppedStaysExpanded(t, seen, stack, current);
        continue;
      }
      ghost var before := seen;
      seen := seen + {current};
      assert current in t.population - before && current !in t.population - seen;
      TargetsFound(t, current);
      ghost var below := stack;
      stack := PushTargets(t, current, seen, stack);
      AllStayExpanded(t, before, below, current, stack);
    }
    ClosedIsReachable(t, seen);
  }

  // ---- the allowlist and the verdict ----

  /** A line of the allowlist: blank or comment, an entry without a reason, or an entry. */
  datatype AllowLine = Skip | NoReason | Entry(path: string, reason: string)

  function ParseLine(raw: string): AllowLine {
    var line := Strip(raw);
    var k := IndexOf(line, '#');
    if line == [] || k == 0 then Skip
    else if k == |line| then NoReason
    else Entry(Strip(line[..k]), Strip(line[k + 1..]))
  }

  /** What a line of the allowlist says, white space around it left aside: nothing when it is blank
      or starts with the mark; without a mark it has no reason; and else it is an entry. */
  lemma LineExactly(raw: string)
    ensures ParseLine(raw) == Skip <==> Strip(raw) == [] || Strip(raw)[0] == '#'
    ensures ParseLine(raw) == NoReason <==> Strip(raw) != [] && '#' !in Strip(raw)
  {
    hide Strip, IndexOf;
    var line := Strip(raw);
    assert line[..|line|] == line;
    if IndexOf(line, '#') == 0 && line != [] {
      assert line[0] == '#';
    }
  }

  /** An entry is what stands before the first mark and behind it. */
  lemma EntryExactly(raw: string, path: string, reason: string)
    requires path != [] && '#' !in path && Strip(raw) == path + "#" + reason
    ensures ParseLine(raw) == Entry(Strip(path), Strip(reason))
  {
    hide Strip, IndexOf;
    var line := Strip(raw);
    assert line == path + (['#'] + reason);
    IndexOfFirst(path, '#', reason);
    assert line[..|path|] == path && line[|path| + 1..] == reason;
  }

  ghost predicate WellFormedList(lines: seq<string>) {
    forall i :: 0 <= i < |lines| ==> ParseLine(lines[i]) != NoReason
  }

  ghost predicate Lists(line: string, path: string) {
    ParseLine(line).Entry? && ParseLine(line).path == path
  }

  ghost predicate Allowed(lines: seq<string>, path: string) {
    exists i :: 0 <= i < |lines| && Lists(lines[i], path)
  }

  /** None stands for the exit with status 2 on an entry without a reason. */
  method LoadAllowlist(lines: seq<string>) returns (entries: Option<map<string, string>>)
    ensures entries.Some? <==> WellFormedList(lines)
    ensures entries.Some? ==> forall path :: path in entries.value <==> Allowed(lines, path)
  {
    var loaded: map<string, string> := map[];
    for i := 0 to |lines|
      invariant forall j :: 0 <= j < i ==> ParseLine(lines[j]) != NoReason
      invariant forall path :: path in loaded ==> Allowed(lines, path)
      invariant forall j, path :: 0 <= j < i && Lists(lines[j], path) ==> path in loaded
    {
      match ParseLine(lines[i])
      case Skip =>
      case NoReason => return None;
      case Entry(path, reason) =>
        assert Lists(lines[i], path);
        loaded := loaded[path := reason];
    }
    return Some(loaded);
  }

  /** Stale entries are reported whether the gate passes or not. */
  datatype Verdict =
    | BadAllowlist
    | Fails(stale: set<string>, violations: set<string>)
    | Passes(stale: set<string>)

  /** The gate: it passes exactly when every module is reachable from the roots or allowlisted. */
  method Check<P(==, !new)>(t: Tree<P>, rel: P -> string, lines: seq<string>) returns (v: Verdict)
    requires t.Valid()
    ensures v.BadAllowlist? <==> !WellFormedList(lines)
    ensures v.Passes? <==> WellFormedList(lines) && forall f :: f in t.population ==> f in t.Reachable() || Allowed(lines, rel(f))
    ensures v.Fails? ==> v.violations == set f | f in t.population && f !in t.Reachable() && !Allowed(lines, rel(f)) :: rel(f)
    ensures !v.BadAllowlist? ==> forall path :: path in v.stale <==>
              Allowed(lines, path) && forall f :: f in t.population && f !in t.Reachable() ==> rel(f) != path
  {
    var reachable := Walk(t);
    var unreachable := set f | f in t.population - reachable :: rel(f);
    var allowlist := LoadAllowlist(lines);
    if allowlist == None {
      return BadAllowlist;
    }
    var violations := unreachable - allowlist.value.Keys;
    var stale := allowlist.value.Keys - unreachable;
    forall f | f in t.population && f !in t.Reachable() && !Allowed(lines, rel(f))
      ensures rel(f) in violations
    {
    }
    if violations != {} {
      v := Fails(stale, violations);
    } else {
      v := Passes(stale);
    }
  }

  // ---- what moves the verdict ----

  /** With fewer edges between the same modules, less is reachable. */
  lemma FewerEdges<P(!new)>(fewer: Tree<P>, more: Tree<P>)
    requires fewer.Valid() && more.Valid()
    requires fewer.population == more.population && fewer.roots <= more.roots
    requires forall f :: fewer.Targets(f) <= more.Targets(f)
    ensures fewer.Reachable() <= more.Reachable()
  {
    forall f | f in fewer.Reachable()
      ensures f in more.Reachable()
    {
      ReachesMonotone(fewer.Targets, more.Targets, fewer.roots, more.roots, f);
    }
  }

  /** Rewriting the body of a comment or of a plain template, in code position of any file,
      leaves the reachable set alone, and with it the verdict. */
  lemma InertEdit<P(!new)>(t: Tree<P>, f: P, p: string, a: Inert, b: Inert, rest: string, st: State)
    requires t.Valid() && f in t.files && t.files[f] == p + (a.Text() + rest)
    requires a.SameKind(b) && a.Closed(rest) && b.Closed(rest)
    requires Visits(START, p + (a.Text() + rest), |p|, st)
    ensures var edited := t.(files := t.files[f := p + (b.Text() + rest)]);
            edited.Valid() && edited.Reachable() == t.Reachable()
  {
    var edited := t.(files := t.files[f := p + (b.Text() + rest)]);
    InertImports(p, a, b, rest, st, t.word);
    forall g
      ensures edited.Specifiers(g) == t.Specifiers(g)
    {
    }
    SameSpecifiers(t, edited);
  }

  lemma SameSpecifiers<P(!new)>(t: Tree<P>, u: Tree<P>)
    requires t.Valid() && u == t.(files := u.files)
    requires forall g :: u.Specifiers(g) == t.Specifiers(g)
    ensures u.Valid() && u.Reachable() == t.Reachable()
  {
    forall g
      ensures u.Targets(g) == t.Targets(g)
    {
      forall spec
        ensures u.Resolve(spec, g) == t.Resolve(spec, g)
      {
        SameResolution(t, u, spec, g);
      }
    }
    FewerEdges(t, u);
    FewerEdges(u, t);
  }

  lemma SameResolution<P(!new)>(t: Tree<P>, u: Tree<P>, spec: string, g: P)
    requires u == t.(files := u.files)
    ensures u.Resolve(spec, g) == t.Resolve(spec, g)
  {
    forall candidates: seq<P>
      ensures u.FirstInPopulation(candidates) == t.FirstInPopulation(candidates)
    {
      SameFirst(t, u, candidates);
    }
  }

  lemma {:induction false} SameFirst<P(!new)>(t: Tree<P>, u: Tree<P>, candidates: seq<P>)
    requires u.paths == t.paths && u.population == t.population
    ensures u.FirstInPopulation(candidates) == t.FirstInPopulation(candidates)
  {
    if candidates != [] {
      SameFirst(t, u, candidates[1..]);
    }
  }

  /** An import in a reachable file makes its target reachable. */
  lemma ImportReaches<P(!new)>(t: Tree<P>, f: P, p: Pattern, n: nat, st: State, spec: string)
    requires t.Valid() && f in t.files && f in t.Reachable() && ImportAt(t.files[f], p, n, st, spec, t.word)
    requires t.Resolve(spec, f).Some?
    ensures t.Resolve(spec, f).value in t.Reachable()
  {
    hide ImportAt;
    ImportsExactly(t.files[f], t.word, spec);
    ReachesNext(t.Targets, t.roots, f, t.Resolve(spec, f).value);
  }

  /** A reachable module that is not a root is imported by a reachable file: a string literal in
      code position there resolves to it, with import syntax around it in the output. No comment,
      template, regex or string body can make a module reachable. */
  lemma ReachedByLiteral<P(!new)>(t: Tree<P>, f: P) returns (g: P, p: Pattern, n: nat, st: State, spec: string)
    requires t.Valid() && f in t.Reachable() && f !in t.roots
    ensures g in t.Reachable() && g in t.files
    ensures t.Resolve(spec, g) == Some(f) && ImportAt(t.files[g], p, n, st, spec, t.word)
  {
    hide ImportAt;
    var path :| Links(t.Targets, path, t.roots, f);
    var i := |path| - 2;
    g := path[i];
    assert Links(t.Targets, path[..i + 1], t.roots, g);
    assert path[i + 1] in t.Targets(path[i]);
    PathInPopulation(t, path[..i + 1]);
    spec :| spec in t.Specifiers(g) && t.Resolve(spec, g) == Some(f);
    p, n, st := ImportComesFrom(t.files[g], t.word, spec);
  }

  lemma PathInPopulation<P(!new)>(t: Tree<P>, p: seq<P>)
    requires t.Valid() && IsPath(t.Targets, p) && p[0] in t.roots
    ensures p[|p| - 1] in t.population
  {
    if |p| > 1 {
      assert p[|p| - 1] in t.Targets(p[|p| - 2]);
    }
  }
}
