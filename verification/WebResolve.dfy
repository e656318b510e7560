/** Which module an import specifier names. */
module WebResolve {
  import opened Text
  import opened WebGate

  /** `bare` is the specifier up to its first question mark. */
  ghost predicate WithoutQuery(spec: string, bare: string) {
    '?' !in bare && (spec == bare || exists query :: spec == bare + "?" + query)
  }

  /** The path the specifier starts from: below the root for `@/`, next to the importer for a
      relative one; a bare package name has none. */
  ghost predicate Base<P(!new)>(t: Tree<P>, bare: string, f: P, base: P) {
    || (exists x :: bare == "@/" + x && base == t.paths.join(t.root, x))
    || (exists x :: bare == "." + x && base == t.paths.join(t.paths.parent(f), bare))
  }

  /** The files tried for a base path: itself, with an extension when it has none, or the index of
      a directory. */
  function Tried<P(!new)>(t: Tree<P>, base: P): seq<P> {
    var ts, tsx := t.paths.withName(base, t.paths.name(base) + ".ts"), t.paths.withName(base, t.paths.name(base) + ".tsx");
    var index, indexx := t.paths.join(base, "index.ts"), t.paths.join(base, "index.tsx");
    if t.paths.hasSuffix(base) then [base, index, indexx] else [base, ts, tsx, index, indexx]
  }

  ghost predicate IsModule<P(!new)>(t: Tree<P>, path: P, m: P) {
    t.paths.resolve(path) == Some(m) && m in t.population
  }

  /** `m` is the first of the paths that is a module. */
  ghost predicate FirstModule<P(!new)>(t: Tree<P>, paths: seq<P>, m: P) {
    exists k :: 0 <= k < |paths| && IsModule(t, paths[k], m) && NoModule(t, paths[..k])
  }

  ghost predicate NoModule<P(!new)>(t: Tree<P>, paths: seq<P>) {
    forall j, m :: 0 <= j < |paths| ==> !IsModule(t, paths[j], m)
  }

  /** The specifier in `f` names the module `m`. */
  ghost predicate Names<P(!new)>(t: Tree<P>, spec: string, f: P, m: P) {
    exists bare, base :: WithoutQuery(spec, bare) && Base(t, bare, f, base) && FirstModule(t, Tried(t, base), m)
  }

  lemma {:induction false} FirstExactly<P(!new)>(t: Tree<P>, paths: seq<P>)
    ensures t.FirstInPopulation(paths) == None <==> NoModule(t, paths)
    ensures forall m :: t.FirstInPopulation(paths) == Some(m) <==> FirstModule(t, paths, m)
  {
    if paths != [] {
      var rest := paths[1..];
      FirstExactly(t, rest);
      assert forall j :: 0 < j < |paths| ==> paths[j] == rest[j - 1];
      assert NoModule(t, paths) <==> NoModule(t, rest) && forall m :: !IsModule(t, paths[0], m) by {
        NoModuleOfMore(t, paths);
      }
      forall m
        ensures t.FirstInPopulation(paths) == Some(m) <==> FirstModule(t, paths, m)
      {
        FirstOfMore(t, paths, m);
      }
    }
  }

  lemma NoModuleOfMore<P(!new)>(t: Tree<P>, paths: seq<P>)
    requires paths != []
    ensures NoModule(t, paths) <==> NoModule(t, paths[1..]) && forall m :: !IsModule(t, paths[0], m)
  {
    var rest := paths[1..];
    if NoModule(t, paths) {
      forall j, m | 0 <= j < |rest|
        ensures !IsModule(t, rest[j], m)
      {
        assert rest[j] == paths[j + 1];
      }
    } else {
      var j, m :| 0 <= j < |paths| && IsModule(t, paths[j], m);
      assert j > 0 ==> rest[j - 1] == paths[j];
    }
  }

  lemma FirstOfMore<P(!new)>(t: Tree<P>, paths: seq<P>, m: P)
    requires paths != [] && (t.FirstInPopulation(paths[1..]) == Some(m) <==> FirstModule(t, paths[1..], m))
    ensures t.FirstInPopulation(paths) == Some(m) <==> FirstModule(t, paths, m)
  {
    var rest := paths[1..];
    if t.FirstInPopulation(paths) == Some(m) {
      if IsModule(t, paths[0], m) {
        assert NoModule(t, paths[..0]);
      } else {
        var k :| 0 <= k < |rest| && IsModule(t, rest[k], m) && NoModule(t, rest[..k]);
        assert paths[..k + 1] == [paths[0]] + rest[..k];
        assert IsModule(t, paths[k + 1], m) && NoModule(t, paths[..k + 1]);
      }
    }
    if FirstModule(t, paths, m) {
      var k :| 0 <= k < |paths| && IsModule(t, paths[k], m) && NoModule(t, paths[..k]);
      if k > 0 {
        var first := t.paths.resolve(paths[0]);
        assert first.Some? ==> !IsModule(t, paths[..k][0], first.value);
        assert rest[..k - 1] == paths[..k][1..];
        assert IsModule(t, rest[k - 1], m) && NoModule(t, rest[..k - 1]);
      }
    }
  }

  lemma QueryCut(spec: string)
    ensures WithoutQuery(spec, spec[..IndexOf(spec, '?')])
    ensures forall bare :: WithoutQuery(spec, bare) ==> bare == spec[..IndexOf(spec, '?')]
  {
    var k := IndexOf(spec, '?');
    if k == |spec| {
      assert spec[..k] == spec;
    } else {
      assert spec == spec[..k] + "?" + spec[k + 1..];
    }
    assert k < |spec| ==> '?' in spec;
    forall bare | WithoutQuery(spec, bare)
      ensures bare == spec[..k]
    {
      if spec != bare {
        var query :| spec == bare + "?" + query;
        assert spec[|bare|] == '?' && bare == spec[..|bare|];
        IndexOfBefore(spec, '?', |bare|);
      }
    }
  }

  lemma BaseExactly<P(!new)>(t: Tree<P>, bare: string, f: P, base: P)
    ensures Base(t, bare, f, base) <==>
            if StartsWith(bare, "@/") then base == t.paths.join(t.root, bare[2..])
            else StartsWith(bare, ".") && base == t.paths.join(t.paths.parent(f), bare)
  {
    if StartsWith(bare, "@/") {
      assert bare == "@/" + bare[2..];
    }
    if StartsWith(bare, ".") {
      assert bare == "." + bare[1..];
    }
    forall x | bare == "@/" + x
      ensures StartsWith(bare, "@/") && x == bare[2..]
    {
    }
    forall x | bare == "." + x
      ensures StartsWith(bare, ".") && !StartsWith(bare, "@/")
    {
      assert bare[..1] == "." && bare[0] == '.' && "@/"[0] == '@';
    }
  }

  /** A specifier resolves to the module it names, and to nothing exactly when it names none. */
  lemma ResolveExactly<P(!new)>(t: Tree<P>, spec: string, f: P)
    ensures forall m :: t.Resolve(spec, f) == Some(m) <==> Names(t, spec, f, m)
    ensures t.Resolve(spec, f) == None <==> forall m :: !Names(t, spec, f, m)
  {
    var bare := spec[..IndexOf(spec, '?')];
    QueryCut(spec);
    forall base
      ensures Base(t, bare, f, base) ==> t.Resolve(spec, f) == t.FirstInPopulation(Tried(t, base))
    {
      BaseExactly(t, bare, f, base);
      assert Tried(t, base) == t.Candidates(base);
      FirstExactly(t, Tried(t, base));
    }
    forall m
      ensures t.Resolve(spec, f) == Some(m) <==> Names(t, spec, f, m)
    {
      NamesExactly(t, spec, bare, f, m);
    }
  }

  lemma NamesExactly<P(!new)>(t: Tree<P>, spec: string, bare: string, f: P, m: P)
    requires bare == spec[..IndexOf(spec, '?')]
    requires forall base :: Base(t, bare, f, base) ==> t.Resolve(spec, f) == t.FirstInPopulation(Tried(t, base))
    ensures t.Resolve(spec, f) == Some(m) <==> Names(t, spec, f, m)
  {
    QueryCut(spec);
    if t.Resolve(spec, f) == Some(m) {
      var base := if StartsWith(bare, "@/") then t.paths.join(t.root, bare[2..]) else t.paths.join(t.paths.parent(f), bare);
      BaseExactly(t, bare, f, base);
      FirstExactly(t, Tried(t, base));
    }
    if Names(t, spec, f, m) {
      var base :| Base(t, bare, f, base) && FirstModule(t, Tried(t, base), m);
      FirstExactly(t, Tried(t, base));
    }
  }

  // ---- what a specifier depends on ----

  /** What follows a question mark makes no difference. */
  lemma QueryIgnored<P(!new)>(t: Tree<P>, spec: string, query: string, f: P)
    ensures t.Resolve(spec + "?" + query, f) == t.Resolve(spec, f)
  {
    var k, longer := IndexOf(spec, '?'), spec + "?" + query;
    QueryCut(longer);
    if k < |spec| {
      assert longer == spec[..k] + "?" + (spec[k + 1..] + "?" + query);
    } else {
      assert spec[..k] == spec;
    }
    assert WithoutQuery(longer, spec[..k]);
  }

  /** An alias names the same module in every file. */
  lemma AliasFree<P(!new)>(t: Tree<P>, x: string, f: P, g: P)
    ensures t.Resolve("@/" + x, f) == t.Resolve("@/" + x, g)
  {
    AliasBase(t, "@/" + x, f, g);
  }

  lemma AliasBase<P(!new)>(t: Tree<P>, spec: string, f: P, g: P)
    requires StartsWith(spec, "@/")
    ensures t.Resolve(spec, f) == t.Resolve(spec, g)
  {
    var k := IndexOf(spec, '?');
    assert spec[0] == spec[..2][0] && spec[1] == spec[..2][1];
    assert spec[..k][..2] == spec[..2];
  }

  /** A relative specifier depends on the importer's directory, and not on the root. */
  lemma RelativeFree<P(!new)>(t: Tree<P>, x: string, f: P, g: P, root: P)
    requires t.paths.parent(f) == t.paths.parent(g)
    ensures t.Resolve("." + x, f) == t.Resolve("." + x, g)
    ensures t.(root := root).Resolve("." + x, f) == t.Resolve("." + x, f)
  {
    var spec := "." + x;
    var bare := spec[..IndexOf(spec, '?')];
    var u := t.(root := root);
    assert bare != [] && bare[0] == '.';
    SameFirst(t, u, t.Candidates(t.paths.join(t.paths.parent(f), bare)));
  }

  /** A package name names no module. */
  lemma PackageNamesNone<P(!new)>(t: Tree<P>, spec: string, f: P)
    requires spec == [] || (spec[0] != '@' && spec[0] != '.')
    ensures t.Resolve(spec, f) == None
  {
    var bare := spec[..IndexOf(spec, '?')];
    assert bare != [] ==> bare[0] == spec[0];
  }
}
