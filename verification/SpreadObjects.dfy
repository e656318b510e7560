/**
 Resolution of a local name to the properties of an object literal, through the spreads of
 further names. Source lines come classified: what the two regexes of the resolver make of them.
 */
module SpreadObjects {
  import opened Text
  import opened Graphs

  datatype Prop = Prop(key: string, value: string)

  /** A `const`, `let` or `var` binding of a name to an object literal or to anything else, an
      assignment to a property of a name, or any other line. */
  datatype Line =
    | Literal(name: string, props: seq<Prop>, spreads: seq<string>)
    | Elsewhere(name: string)
    | Augment(name: string, prop: Prop)
    | Other

  /** What the lines say of one name. */
  datatype Object = Object(props: seq<Prop>, spreads: seq<string>, literal: bool)

  predicate BoundElsewhere(lines: seq<Line>, name: string) {
    exists i :: 0 <= i < |lines| && lines[i] == Elsewhere(name)
  }

  function Read(line: Line, name: string, o: Object): Object {
    match line
    case Literal(n, props, spreads) =>
      if n == name then Object(o.props + props, o.spreads + spreads, true) else o
    case Augment(n, prop) => if n == name then o.(props := o.props + [prop]) else o
    case _ => o
  }

  function Collected(lines: seq<Line>, name: string): Object {
    if lines == [] then Object([], [], false)
    else Read(lines[|lines| - 1], name, Collected(lines[..|lines| - 1], name))
  }

  /** The name is bound to an object literal, and to nothing else. */
  predicate Bound(lines: seq<Line>, name: string) {
    '.' !in name && !BoundElsewhere(lines, name) && Collected(lines, name).literal
  }

  function LiteralNames(lines: seq<Line>): set<string> {
    set i | 0 <= i < |lines| && lines[i].Literal? :: lines[i].name
  }

  lemma {:induction false} BoundIsNamed(lines: seq<Line>, name: string)
    requires Collected(lines, name).literal
    ensures name in LiteralNames(lines)
  {
    var n := |lines| - 1;
    if lines[n].Literal? && lines[n].name == name {
    } else {
      BoundIsNamed(lines[..n], name);
      var i :| 0 <= i < n && lines[..n][i].Literal? && lines[..n][i].name == name;
      assert lines[i] == lines[..n][i];
    }
  }

  // ---- the resolver ----

  function Resolve(lines: seq<Line>, name: string, visited: set<string>): Option<seq<Prop>>
    decreases LiteralNames(lines) - visited, 0, 1
  {
    if name in visited || !Bound(lines, name) then None
    else
      BoundIsNamed(lines, name);
      assert name in LiteralNames(lines) - visited;
      var o := Collected(lines, name);
      match ResolveAll(lines, o.spreads, visited + {name})
      case None => None
      case Some(more) => Some(o.props + more)
  }

  function ResolveAll(lines: seq<Line>, names: seq<string>, visited: set<string>): Option<seq<Prop>>
    decreases LiteralNames(lines) - visited, |names|, 2
  {
    if names == [] then Some([])
    else
      match (ResolveAll(lines, names[..|names| - 1], visited), Resolve(lines, names[|names| - 1], visited))
      case (Some(props), Some(more)) => Some(props + more)
      case _ => None
  }

  lemma {:induction false} ResolveAllPrefix(lines: seq<Line>, names: seq<string>, visited: set<string>, k: nat)
    requires k <= |names| && ResolveAll(lines, names[..k], visited) == None
    ensures ResolveAll(lines, names, visited) == None
    decreases |names|
  {
    if k < |names| {
      assert names[..|names| - 1][..k] == names[..k];
      ResolveAllPrefix(lines, names[..|names| - 1], visited, k);
    } else {
      assert names[..k] == names;
    }
  }

  /** The script's recursion: one loop over the lines, one over the spreads. */
  method ResolveLocalObject(lines: seq<Line>, name: string, visited: set<string>) returns (r: Option<seq<Prop>>)
    ensures r == Resolve(lines, name, visited)
    decreases LiteralNames(lines) - visited
  {
    if name in visited || '.' in name {
      return None;
    }
    var o := Object([], [], false);
    for i := 0 to |lines|
      invariant o == Collected(lines[..i], name)
      invariant forall j :: 0 <= j < i ==> lines[j] != Elsewhere(name)
    {
      assert lines[..i + 1][..i] == lines[..i];
      if lines[i] == Elsewhere(name) {
        return None;
      }
      o := Read(lines[i], name, o);
    }
    assert lines[..|lines|] == lines;
    if !o.literal {
      return None;
    }
    BoundIsNamed(lines, name);
    assert name in LiteralNames(lines) - visited;
    var more: seq<Prop> := [];
    for k := 0 to |o.spreads|
      invariant ResolveAll(lines, o.spreads[..k], visited + {name}) == Some(more)
    {
      assert o.spreads[..k + 1][..k] == o.spreads[..k];
      var sub := ResolveLocalObject(lines, o.spreads[k], visited + {name});
      if sub == None {
        ResolveAllPrefix(lines, o.spreads, visited + {name}, k + 1);
        return None;
      }
      more := more + sub.value;
    }
    assert o.spreads[..|o.spreads|] == o.spreads;
    return Some(o.props + more);
  }

  // ---- the spread graph ----

  ghost function SpreadsOf(lines: seq<Line>): string -> set<string> {
    name => if Bound(lines, name) then set s | s in Collected(lines, name).spreads else {}
  }

  /** The path ends in a name that stops the resolver: not bound to a literal, already visited, or
      met before on the path. */
  ghost predicate Blocked(lines: seq<Line>, p: seq<string>, visited: set<string>)
    requires p != []
  {
    var last := p[|p| - 1];
    !Bound(lines, last) || last in visited || last in p[..|p| - 1]
  }

  ghost predicate PathFrom(lines: seq<Line>, p: seq<string>, name: string) {
    IsPath(SpreadsOf(lines), p) && p[0] == name
  }

  lemma PathCons(lines: seq<Line>, name: string, p: seq<string>)
    requires Bound(lines, name) && p != [] && PathFrom(lines, p, p[0])
    requires p[0] in Collected(lines, name).spreads
    ensures PathFrom(lines, [name] + p, name)
  {
  }

  lemma {:induction false} ResolveAllItem(lines: seq<Line>, names: seq<string>, visited: set<string>, s: string)
    requires ResolveAll(lines, names, visited).Some? && s in names
    ensures Resolve(lines, s, visited).Some?
    ensures forall prop :: prop in Resolve(lines, s, visited).value ==> prop in ResolveAll(lines, names, visited).value
  {
    if s != names[|names| - 1] {
      ResolveAllItem(lines, names[..|names| - 1], visited, s);
    }
  }

  lemma {:induction false} ResolveAllFails(lines: seq<Line>, names: seq<string>, visited: set<string>)
    returns (s: string)
    requires ResolveAll(lines, names, visited) == None
    ensures s in names && Resolve(lines, s, visited) == None
  {
    s := names[|names| - 1];
    if Resolve(lines, s, visited).Some? {
      s := ResolveAllFails(lines, names[..|names| - 1], visited);
    }
  }

  lemma {:induction false} ResolvedIsClear(lines: seq<Line>, name: string, visited: set<string>, p: seq<string>)
    requires Resolve(lines, name, visited).Some? && PathFrom(lines, p, name)
    ensures !Blocked(lines, p, visited)
    ensures forall prop :: prop in Collected(lines, p[|p| - 1]).props ==> prop in Resolve(lines, name, visited).value
    decreases |p|
  {
    if |p| > 1 {
      var o, s, below := Collected(lines, name), p[1], visited + {name};
      assert p[1] in SpreadsOf(lines)(p[0]);
      ResolveAllItem(lines, o.spreads, below, s);
      assert PathFrom(lines, p[1..], s);
      ResolvedIsClear(lines, s, below, p[1..]);
      assert p[1..][|p| - 2] == p[|p| - 1];
      assert p[..|p| - 1] == [name] + p[1..][..|p| - 2];
    }
  }

  lemma {:induction false} UnresolvedIsBlocked(lines: seq<Line>, name: string, visited: set<string>)
    returns (p: seq<string>)
    requires Resolve(lines, name, visited) == None
    ensures PathFrom(lines, p, name) && Blocked(lines, p, visited)
    decreases LiteralNames(lines) - visited
  {
    if name in visited || !Bound(lines, name) {
      p := [name];
    } else {
      BoundIsNamed(lines, name);
      assert name in LiteralNames(lines) - visited;
      var s := ResolveAllFails(lines, Collected(lines, name).spreads, visited + {name});
      var q := UnresolvedIsBlocked(lines, s, visited + {name});
      p := [name] + q;
      PathCons(lines, name, q);
      assert p[|p| - 1] == q[|q| - 1];
      assert p[..|p| - 1] == [name] + q[..|q| - 1];
    }
  }

  /** Every name the spreads reach from `name` is bound to an object literal. */
  ghost predicate AllBound(lines: seq<Line>, name: string) {
    forall n :: Reaches(SpreadsOf(lines), {name}, n) ==> Bound(lines, n)
  }

  /** Some chain of spreads from `name` comes back to a name it has passed. */
  ghost predicate ReachesCycle(lines: seq<Line>, name: string) {
    exists p :: PathFrom(lines, p, name) && p[|p| - 1] in p[..|p| - 1]
  }

  /** A name resolves exactly when every name its spreads reach is bound to an object literal and
      no chain of spreads from it closes a cycle. */
  lemma ResolvesExactly(lines: seq<Line>, name: string)
    ensures Resolve(lines, name, {}).Some? <==> AllBound(lines, name) && !ReachesCycle(lines, name)
  {
    if Resolve(lines, name, {}).Some? {
      forall p | PathFrom(lines, p, name)
        ensures !Blocked(lines, p, {})
      {
        ResolvedIsClear(lines, name, {}, p);
      }
      forall n | Reaches(SpreadsOf(lines), {name}, n)
        ensures Bound(lines, n)
      {
        var p :| Links(SpreadsOf(lines), p, {name}, n);
        assert PathFrom(lines, p, name);
      }
    } else {
      var p := UnresolvedIsBlocked(lines, name, {});
      assert Links(SpreadsOf(lines), p, {name}, p[|p| - 1]);
    }
  }

  /** `prop` is written on a name the spreads reach. */
  ghost predicate OnReached(lines: seq<Line>, name: string, prop: Prop) {
    exists n :: Reaches(SpreadsOf(lines), {name}, n) && prop in Collected(lines, n).props
  }

  ghost predicate OnReachedOfAny(lines: seq<Line>, names: seq<string>, prop: Prop) {
    exists s :: s in names && OnReached(lines, s, prop)
  }

  lemma {:induction false} PropIsReached(lines: seq<Line>, name: string, visited: set<string>, prop: Prop)
    requires Resolve(lines, name, visited).Some? && prop in Resolve(lines, name, visited).value
    ensures OnReached(lines, name, prop)
    decreases LiteralNames(lines) - visited, 0, 1
  {
    var o := Collected(lines, name);
    if prop in o.props {
      ReachesRoot(SpreadsOf(lines), {name}, name);
    } else {
      BoundIsNamed(lines, name);
      assert name in LiteralNames(lines) - visited;
      PropIsReachedInAll(lines, o.spreads, visited + {name}, prop);
      var s :| s in o.spreads && OnReached(lines, s, prop);
      var n :| Reaches(SpreadsOf(lines), {s}, n) && prop in Collected(lines, n).props;
      var p :| Links(SpreadsOf(lines), p, {s}, n);
      PathCons(lines, name, p);
      assert Links(SpreadsOf(lines), [name] + p, {name}, n);
    }
  }

  lemma {:induction false} PropIsReachedInAll(lines: seq<Line>, names: seq<string>, visited: set<string>, prop: Prop)
    requires ResolveAll(lines, names, visited).Some? && prop in ResolveAll(lines, names, visited).value
    ensures OnReachedOfAny(lines, names, prop)
    decreases LiteralNames(lines) - visited, |names|, 2
  {
    var init, last := names[..|names| - 1], names[|names| - 1];
    if prop in ResolveAll(lines, init, visited).value {
      PropIsReachedInAll(lines, init, visited, prop);
    } else {
      PropIsReached(lines, last, visited, prop);
    }
  }

  /** What it resolves to is the union of the properties written on all the names reached. */
  lemma ResolvedUnion(lines: seq<Line>, name: string, prop: Prop)
    requires Resolve(lines, name, {}).Some?
    ensures prop in Resolve(lines, name, {}).value <==> OnReached(lines, name, prop)
  {
    if prop in Resolve(lines, name, {}).value {
      PropIsReached(lines, name, {}, prop);
    }
    if OnReached(lines, name, prop) {
      var n :| Reaches(SpreadsOf(lines), {name}, n) && prop in Collected(lines, n).props;
      var p :| Links(SpreadsOf(lines), p, {name}, n);
      ResolvedIsClear(lines, name, {}, p);
    }
  }

  // ---- what is collected ----

  /** A line of the name carries the property. */
  ghost predicate Carries(line: Line, name: string, prop: Prop) {
    || (exists props, spreads :: line == Literal(name, props, spreads) && prop in props)
    || line == Augment(name, prop)
  }

  ghost predicate SpreadsIn(line: Line, name: string, spread: string) {
    exists props, spreads :: line == Literal(name, props, spreads) && spread in spreads
  }

  lemma {:induction false} CollectedSplit(lines: seq<Line>, more: seq<Line>, name: string)
    ensures var a, b, all := Collected(lines, name), Collected(more, name), Collected(lines + more, name);
            all == Object(a.props + b.props, a.spreads + b.spreads, a.literal || b.literal)
  {
    if more == [] {
      assert lines + more == lines;
      var a := Collected(lines, name);
      assert a.props + [] == a.props && a.spreads + [] == a.spreads;
    } else {
      assert (lines + more)[..|lines + more| - 1] == lines + more[..|more| - 1];
      CollectedSplit(lines, more[..|more| - 1], name);
      var a, b := Collected(lines, name), Collected(more[..|more| - 1], name);
      match more[|more| - 1]
      case Literal(_, props, spreads) =>
        AppendAssoc(a.props, b.props, props);
        AppendAssoc(a.spreads, b.spreads, spreads);
      case Augment(_, prop) => AppendAssoc(a.props, b.props, [prop]);
      case _ =>
    }
  }

  /** What is collected of a name: the properties of exactly its literals and the assignments to it,
      the spreads of its literals, and whether it has a literal at all. In the order of the lines,
      by `CollectedSplit`. */
  lemma {:induction false} CollectedExactly(lines: seq<Line>, name: string, prop: Prop, spread: string)
    ensures prop in Collected(lines, name).props <==> exists i :: 0 <= i < |lines| && Carries(lines[i], name, prop)
    ensures spread in Collected(lines, name).spreads <==> exists i :: 0 <= i < |lines| && SpreadsIn(lines[i], name, spread)
    ensures Collected(lines, name).literal <==> exists i :: 0 <= i < |lines| && lines[i].Literal? && lines[i].name == name
  {
    if lines != [] {
      var k := |lines| - 1;
      CollectedExactly(lines[..k], name, prop, spread);
      assert forall i :: 0 <= i < k ==> lines[..k][i] == lines[i];
      LineCollected(lines[k], name, Collected(lines[..k], name), prop, spread);
    }
  }

  lemma LineCollected(line: Line, name: string, o: Object, prop: Prop, spread: string)
    ensures prop in Read(line, name, o).props <==> prop in o.props || Carries(line, name, prop)
    ensures spread in Read(line, name, o).spreads <==> spread in o.spreads || SpreadsIn(line, name, spread)
    ensures Read(line, name, o).literal <==> o.literal || (line.Literal? && line.name == name)
  {
  }

  /** A resolved name has its own properties first. */
  lemma OwnFirst(lines: seq<Line>, name: string, visited: set<string>)
    requires Resolve(lines, name, visited).Some?
    ensures Collected(lines, name).props <= Resolve(lines, name, visited).value
  {
  }

  /** A name is bound when it has an object literal, no other binding, and no dot in it. */
  lemma BoundExactly(lines: seq<Line>, name: string)
    ensures Bound(lines, name) <==>
            '.' !in name && Elsewhere(name) !in lines && exists props, spreads :: Literal(name, props, spreads) in lines
  {
    CollectedExactly(lines, name, Prop("", ""), "");
    forall i | 0 <= i < |lines| && lines[i].Literal? && lines[i].name == name
      ensures Literal(name, lines[i].props, lines[i].spreads) in lines
    {
    }
  }

  /** The names spread are resolved one after another. */
  lemma {:induction false} SpreadsInOrder(lines: seq<Line>, names: seq<string>, more: seq<string>, visited: set<string>)
    ensures var a, b := ResolveAll(lines, names, visited), ResolveAll(lines, more, visited);
            ResolveAll(lines, names + more, visited) ==
            if a.Some? && b.Some? then Some(a.value + b.value) else None
    decreases |more|
  {
    if more == [] {
      assert names + more == names;
      var a := ResolveAll(lines, names, visited);
      assert a.Some? ==> a.value + [] == a.value;
    } else {
      assert (names + more)[..|names + more| - 1] == names + more[..|more| - 1];
      SpreadsInOrder(lines, names, more[..|more| - 1], visited);
      var a, b, last := ResolveAll(lines, names, visited), ResolveAll(lines, more[..|more| - 1], visited),
                        Resolve(lines, more[|more| - 1], visited);
      if a.Some? && b.Some? && last.Some? {
        AppendAssoc(a.value, b.value, last.value);
      }
    }
  }
}
