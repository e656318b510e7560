/**
 The source-node backfill: the plan computed from the scan and the graph, its dry-run
 projection, the apply loop and the recompute of the counters.
 */
module SourceBackfill {
  import opened Text
  import opened Sums
  import opened ChromaScan

  datatype Edge = Edge(artifact: string, source: string)

  datatype Counter = Counter(artifacts: int, chunks: int)

  /** The graph: chunk counts of the artifact nodes, FROM_SOURCE edges, source ids and the
      counters kept on the sources. An empty string stands for a missing id. */
  datatype Graph = Graph(
    artifacts: map<string, nat>,
    edges: set<Edge>,
    sources: set<string>,
    counters: map<string, Counter>)

  // ---- what the script reads ----

  /** Reads drop artifacts, edges and sources without an id. */
  function Nodes(g: Graph): set<string> { g.artifacts.Keys - {""} }

  function Existing(g: Graph): set<Edge> {
    set e | e in g.edges && e.artifact != "" && e.source != ""
  }

  function Known(g: Graph): set<string> { g.sources - {""} }

  // ---- counting ----

  ghost function ChunksOf(artifacts: map<string, nat>): string -> int {
    a => if a in artifacts then artifacts[a] else 0
  }

  function Linked(edges: set<Edge>, source: string): set<string> {
    set e | e in edges && e.source == source :: e.artifact
  }

  ghost function Count(artifacts: map<string, nat>, edges: set<Edge>, source: string): Counter {
    Counter(|Linked(edges, source)|, Sum(Linked(edges, source), ChunksOf(artifacts)))
  }

  function SourcesOf(edges: set<Edge>): set<string> {
    set e | e in edges :: e.source
  }

  /** Counters of every source that has an edge. */
  ghost function CountAll(artifacts: map<string, nat>, edges: set<Edge>): map<string, Counter> {
    map s | s in SourcesOf(edges) :: Count(artifacts, edges, s)
  }

  /** The one-pass recompute: sources without an edge keep their counters. */
  ghost function Recomputed(g: Graph): Graph {
    g.(counters := g.counters + CountAll(g.artifacts, g.edges))
  }

  // ---- the plan ----

  predicate HasSource(found: Found, id: string) {
    id in found && found[id].sourceId != ""
  }

  /** What becomes of a scanned artifact: nothing without a source, an orphan without a node, an
      edge when its source is known. */
  datatype Fate = Sourceless | Orphan | Unknown | Linkable

  function FateOf(found: Found, g: Graph, id: string): Fate {
    if !HasSource(found, id) then Sourceless
    else if id !in Nodes(g) then Orphan
    else if found[id].sourceId in Known(g) then Linkable
    else Unknown
  }

  function WithFate(found: Found, g: Graph, ids: set<string>, fate: Fate): set<string> {
    set id | id in ids && FateOf(found, g, id) == fate
  }

  function EdgesOf(found: Found, ids: set<string>): set<Edge>
    requires ids <= found.Keys
  {
    set id | id in ids :: Edge(id, found[id].sourceId)
  }

  function Fated(found: Found, g: Graph, fate: Fate): set<Edge> {
    EdgesOf(found, WithFate(found, g, found.Keys, fate))
  }

  function Desired(found: Found, g: Graph): set<Edge> { Fated(found, g, Linkable) }

  function NoSource(found: Found, g: Graph): set<string> {
    set id | id in Nodes(g) && !HasSource(found, id)
  }

  function Remaining(found: Found, g: Graph): set<Edge> { Desired(found, g) - Existing(g) }

  // ---- sorted listings ----

  predicate Before(a: Edge, b: Edge) {
    StringLess(a.artifact, b.artifact) || (a.artifact == b.artifact && StringLess(a.source, b.source))
  }

  lemma BeforeOrder(a: Edge, b: Edge, c: Edge)
    ensures !(Before(a, b) && Before(b, a))
    ensures a == b <==> !Before(a, b) && !Before(b, a)
    ensures Before(a, b) && Before(b, c) ==> Before(a, c)
  {
    StringOrder(a.artifact, b.artifact);
    StringOrder(a.source, b.source);
    StringOrder(b.artifact, c.artifact);
    if StringLess(a.artifact, b.artifact) && StringLess(b.artifact, c.artifact) {
      StringTransitive(a.artifact, b.artifact, c.artifact);
    }
    if StringLess(a.source, b.source) && StringLess(b.source, c.source) {
      StringTransitive(a.source, b.source, c.source);
    }
  }

  function Elements<T>(s: seq<T>): set<T> { set x | x in s }

  ghost predicate Sorted(s: seq<Edge>) {
    forall i, j :: 0 <= i < j < |s| ==> Before(s[i], s[j])
  }

  ghost predicate Lists(s: seq<Edge>, edges: set<Edge>) {
    Sorted(s) && Elements(s) == edges
  }

  /** A set has one sorted listing. */
  lemma {:induction false} ListingUnique(a: seq<Edge>, b: seq<Edge>, edges: set<Edge>)
    requires Lists(a, edges) && Lists(b, edges)
    ensures a == b
    decreases |a|
  {
    SubListing(a, edges);
    SubListing(b, edges);
    if a != [] {
      assert a[0] in Elements(a) && b[0] in Elements(b);
      var i :| 0 <= i < |b| && b[i] == a[0];
      var j :| 0 <= j < |a| && a[j] == b[0];
      BeforeOrder(a[0], b[0], a[0]);
      assert a[0] == b[0];
      TailLists(a, edges);
      TailLists(b, edges);
      ListingUnique(a[1..], b[1..], edges - {a[0]});
    }
  }

  lemma TailLists(s: seq<Edge>, edges: set<Edge>)
    requires s != [] && Lists(s, edges)
    ensures Lists(s[1..], edges - {s[0]})
  {
    forall e
      ensures e in s[1..] <==> e in edges && e != s[0]
    {
      if e in s[1..] {
        var i :| 0 <= i < |s[1..]| && s[1..][i] == e;
        assert Before(s[0], s[i + 1]);
        BeforeOrder(s[0], e, e);
        assert e in Elements(s);
      }
      if e in edges && e != s[0] {
        assert e in Elements(s);
        var i :| 0 <= i < |s| && s[i] == e;
        assert s[1..][i - 1] == e;
      }
    }
  }

  /** Dropping a prefix of the listing lists the rest. */
  lemma {:induction false} DropLists(s: seq<Edge>, edges: set<Edge>, k: nat)
    requires Lists(s, edges) && k <= |s|
    ensures Lists(s[k..], edges - Elements(s[..k]))
  {
    if k == 0 {
      assert s[0..] == s && Elements(s[..0]) == {};
    } else {
      DropLists(s, edges, k - 1);
      assert s[k - 1..][1..] == s[k..] && s[k - 1..][0] == s[k - 1];
      TailLists(s[k - 1..], edges - Elements(s[..k - 1]));
      assert s[..k] == s[..k - 1] + [s[k - 1]];
      assert Elements(s[..k]) == Elements(s[..k - 1]) + {s[k - 1]};
      assert edges - Elements(s[..k - 1]) - {s[k - 1]} == edges - Elements(s[..k]);
    }
  }

  lemma {:induction false} SubListing(s: seq<Edge>, edges: set<Edge>)
    requires Lists(s, edges)
    ensures |s| == |edges|
    decreases |s|
  {
    if s == [] {
      assert edges == {};
    } else {
      assert s[0] in Elements(s);
      TailLists(s, edges);
      SubListing(s[1..], edges - {s[0]});
    }
  }

  /** `sorted(edges)` */
  method SortEdges(edges: set<Edge>) returns (s: seq<Edge>)
    ensures Lists(s, edges)
  {
    s := [];
    var rest := edges;
    while rest != {}
      invariant rest <= edges && Sorted(s) && Elements(s) == edges - rest
      invariant forall i, e :: 0 <= i < |s| && e in rest ==> Before(s[i], e)
      decreases rest
    {
      var least := Least(rest);
      assert Elements(s + [least]) == Elements(s) + {least};
      s := s + [least];
      rest := rest - {least};
      assert Elements(s) == edges - rest;
    }
  }

  method Least(edges: set<Edge>) returns (least: Edge)
    requires edges != {}
    ensures least in edges && forall e :: e in edges ==> e == least || Before(least, e)
  {
    least :| least in edges;
    var rest := edges - {least};
    while rest != {}
      invariant least in edges && rest <= edges
      invariant forall e :: e in edges - rest ==> e == least || Before(least, e)
      decreases rest
    {
      var e :| e in rest;
      rest := rest - {e};
      ghost var was := least;
      BeforeOrder(e, least, e);
      if Before(e, least) {
        least := e;
      }
      forall x | x in edges - rest
        ensures x == least || Before(least, x)
      {
        BeforeOrder(e, was, x);
      }
    }
  }

  // ---- planning ----

  /** A limit that is negative or absent does not cut. */
  function Cut(s: seq<Edge>, limit: Option<int>): seq<Edge> {
    if limit.Some? && 0 <= limit.value < |s| then s[..limit.value] else s
  }

  /** The edges a run creates. */
  ghost predicate Creates(found: Found, g: Graph, limit: Option<int>, create: seq<Edge>) {
    exists s :: Lists(s, Remaining(found, g)) && create == Cut(s, limit)
  }

  /** The counters the dry run reports. */
  ghost function Projected(g: Graph, create: seq<Edge>): map<string, Counter> {
    CountAll(g.artifacts, Existing(g) + Elements(create))
  }

  function Combo(found: Found, id: string): (string, string) {
    if id in found then (Keep(found[id].clientSource, "(none)"), Keep(found[id].sourceType, "(none)"))
    else ("(none)", "(none)")
  }

  datatype Plan = Plan(
    create: seq<Edge>,
    desiredTotal: nat,
    alreadyLinked: nat,
    unresolvable: set<Edge>,
    orphans: set<Edge>,
    noSourceCount: nat,
    noSourceByCombo: map<(string, string), int>,
    projected: map<string, Counter>)

  method SumChunks(artifacts: map<string, nat>, ids: set<string>) returns (c: int)
    ensures c == Sum(ids, ChunksOf(artifacts))
  {
    c := 0;
    var rest := ids;
    while rest != {}
      invariant rest <= ids && c + Sum(rest, ChunksOf(artifacts)) == Sum(ids, ChunksOf(artifacts))
      decreases rest
    {
      var id :| id in rest;
      SumRemove(rest, ChunksOf(artifacts), id);
      c := c + if id in artifacts then artifacts[id] else 0;
      rest := rest - {id};
    }
  }

  method Project(artifacts: map<string, nat>, edges: set<Edge>) returns (r: map<string, Counter>)
    ensures r == CountAll(artifacts, edges)
  {
    r := map[];
    var rest := SourcesOf(edges);
    while rest != {}
      invariant rest <= SourcesOf(edges) && r.Keys == SourcesOf(edges) - rest
      invariant forall s :: s in r ==> r[s] == Count(artifacts, edges, s)
      decreases rest
    {
      var source :| source in rest;
      var ids := Linked(edges, source);
      var chunks := SumChunks(artifacts, ids);
      r := r[source := Counter(|ids|, chunks)];
      rest := rest - {source};
    }
  }

  function ComboCount(combos: map<(string, string), int>, c: (string, string)): int {
    if c in combos then combos[c] else 0
  }

  function Bump(combos: map<(string, string), int>, c: (string, string)): map<(string, string), int> {
    combos[c := ComboCount(combos, c) + 1]
  }

  lemma NoneTallied(found: Found)
    ensures Tallied(found, map[], {})
  {
    forall c
      ensures |WithCombo(found, {}, c)| == 0
    {
      assert WithCombo(found, {}, c) == {};
    }
  }

  lemma ComboAdded(combos: map<(string, string), int>, c: (string, string))
    ensures MapSum(Bump(combos, c)) == MapSum(combos) + 1
  {
    var more := Bump(combos, c);
    MapSumRemove(more, c);
    if c in combos {
      MapSumRemove(combos, c);
      assert more - {c} == combos - {c};
    } else {
      assert more - {c} == combos;
    }
  }

  ghost function WithCombo(found: Found, ids: set<string>, c: (string, string)): set<string> {
    set id | id in ids && Combo(found, id) == c
  }

  lemma ComboGrows(found: Found, seen: set<string>, id: string, c: (string, string))
    requires id !in seen
    ensures |WithCombo(found, seen + {id}, c)| == |WithCombo(found, seen, c)| + if Combo(found, id) == c then 1 else 0
  {
    assert WithCombo(found, seen + {id}, c) == WithCombo(found, seen, c) + if Combo(found, id) == c then {id} else {};
  }

  ghost predicate Tallied(found: Found, combos: map<(string, string), int>, ids: set<string>) {
    forall c :: ComboCount(combos, c) == |WithCombo(found, ids, c)|
  }

  lemma TalliedGrows(found: Found, combos: map<(string, string), int>, seen: set<string>, id: string)
    requires Tallied(found, combos, seen) && id !in seen
    ensures var c := Combo(found, id);
            Tallied(found, Bump(combos, c), seen + {id})
  {
    var c := Combo(found, id);
    var more := Bump(combos, c);
    forall d
      ensures ComboCount(more, d) == |WithCombo(found, seen + {id}, d)|
    {
      ComboGrows(found, seen, id, d);
      assert ComboCount(combos, d) == |WithCombo(found, seen, d)|;
    }
  }

  /** The counters account for the nodes in `ids`, in all and by where they came from. */
  ghost predicate Accounts(found: Found, combos: map<(string, string), int>, ids: set<string>) {
    Tallied(found, combos, ids) && MapSum(combos) == |ids|
  }

  lemma AccountsGrow(found: Found, combos: map<(string, string), int>, ids: set<string>, id: string)
    requires Accounts(found, combos, ids) && id !in ids
    ensures Accounts(found, Bump(combos, Combo(found, id)), ids + {id})
  {
    ComboAdded(combos, Combo(found, id));
    TalliedGrows(found, combos, ids, id);
  }

  /** The nodes without a source. */
  method CountNoSource(found: Found, g: Graph) returns (n: nat, combos: map<(string, string), int>)
    ensures n == |NoSource(found, g)| && Accounts(found, combos, NoSource(found, g))
  {
    n, combos := 0, map[];
    NoneTallied(found);
    var all := NoSource(found, g);
    var rest := all;
    assert all - rest == {};
    while rest != {}
      invariant rest <= all && n == |all - rest| && Accounts(found, combos, all - rest)
      decreases rest
    {
      var id :| id in rest;
      AccountsGrow(found, combos, all - rest, id);
      assert all - (rest - {id}) == (all - rest) + {id};
      combos := Bump(combos, Combo(found, id));
      n := n + 1;
      rest := rest - {id};
    }
    assert all - rest == all;
  }

  lemma FateGrows(found: Found, g: Graph, seen: set<string>, id: string, fate: Fate)
    requires seen <= found.Keys && id in found && id !in seen
    ensures EdgesOf(found, WithFate(found, g, seen + {id}, fate)) ==
            EdgesOf(found, WithFate(found, g, seen, fate))
            + if FateOf(found, g, id) == fate then {Edge(id, found[id].sourceId)} else {}
  {
    var more := WithFate(found, g, seen + {id}, fate);
    if FateOf(found, g, id) == fate {
      assert more == WithFate(found, g, seen, fate) + {id};
    } else {
      assert more == WithFate(found, g, seen, fate);
    }
  }

  /** The first loop: every scanned artifact is sorted by its fate. */
  method Classify(found: Found, g: Graph) returns (desired: set<Edge>, unresolvable: set<Edge>, orphans: set<Edge>)
    ensures desired == Desired(found, g)
    ensures unresolvable == Fated(found, g, Unknown) && orphans == Fated(found, g, Orphan)
  {
    desired, unresolvable, orphans := {}, {}, {};
    var rest := found.Keys;
    ghost var seen: set<string> := {};
    while rest != {}
      invariant seen !! rest && seen + rest == found.Keys
      invariant desired == EdgesOf(found, WithFate(found, g, seen, Linkable))
      invariant unresolvable == EdgesOf(found, WithFate(found, g, seen, Unknown))
      invariant orphans == EdgesOf(found, WithFate(found, g, seen, Orphan))
      decreases rest
    {
      var id :| id in rest;
      FateGrows(found, g, seen, id, Linkable);
      FateGrows(found, g, seen, id, Unknown);
      FateGrows(found, g, seen, id, Orphan);
      rest := rest - {id};
      seen := seen + {id};
      var source := found[id].sourceId;
      if source == "" {
        continue;
      }
      if id !in Nodes(g) {
        orphans := orphans + {Edge(id, source)};
      } else if source in Known(g) {
        desired := desired + {Edge(id, source)};
      } else {
        unresolvable := unresolvable + {Edge(id, source)};
      }
    }
    assert seen == found.Keys;
  }

  method BuildPlan(found: Found, g: Graph, limit: Option<int>) returns (p: Plan)
    ensures Creates(found, g, limit, p.create)
    ensures p.projected == Projected(g, p.create)
    ensures p.desiredTotal == |Desired(found, g)| && p.alreadyLinked == |Desired(found, g) * Existing(g)|
    ensures p.unresolvable == Fated(found, g, Unknown) && p.orphans == Fated(found, g, Orphan)
    ensures p.noSourceCount == |NoSource(found, g)| && Accounts(found, p.noSourceByCombo, NoSource(found, g))
  {
    var desired, unresolvable, orphans := Classify(found, g);
    var n, combos := CountNoSource(found, g);
    var existing := Existing(g);
    var listing := SortEdges(desired - existing);
    var create := Cut(listing, limit);
    var projected := Project(g.artifacts, existing + Elements(create));
    p := Plan(create, |desired|, |desired * existing|, unresolvable, orphans, n, combos, projected);
  }

  /** Every artifact node is linkable, unresolvable or without a source, and only one of them. */
  lemma NodesPartition(found: Found, g: Graph)
    ensures |Nodes(g)| == |Desired(found, g)| + |Fated(found, g, Unknown)| + |NoSource(found, g)|
  {
    var linkable, unknown := WithFate(found, g, found.Keys, Linkable), WithFate(found, g, found.Keys, Unknown);
    forall id
      ensures id in Nodes(g) <==> id in linkable || id in unknown || id in NoSource(found, g)
    {
      FateOfNode(found, g, id);
    }
    SizeOfThree(linkable, unknown, NoSource(found, g), Nodes(g));
    EdgesPerArtifact(found, linkable);
    EdgesPerArtifact(found, unknown);
  }

  lemma FateOfNode(found: Found, g: Graph, id: string)
    ensures id in Nodes(g) <==>
              (id in found && FateOf(found, g, id) == Linkable) || (id in found && FateOf(found, g, id) == Unknown)
              || id in NoSource(found, g)
  {
  }

  lemma SizeOfThree<T>(a: set<T>, b: set<T>, c: set<T>, all: set<T>)
    requires a !! b !! c && forall x :: x in all <==> x in a || x in b || x in c
    ensures |all| == |a| + |b| + |c|
  {
    assert all == a + b + c;
  }

  lemma {:induction false} EdgesPerArtifact(found: Found, ids: set<string>)
    requires ids <= found.Keys
    ensures |EdgesOf(found, ids)| == |ids|
  {
    if ids == {} {
      assert EdgesOf(found, ids) == {};
    } else {
      var id :| id in ids;
      EdgesPerArtifact(found, ids - {id});
      var fewer := EdgesOf(found, ids - {id});
      assert ids == (ids - {id}) + {id};
      assert EdgesOf(found, ids) == fewer + {Edge(id, found[id].sourceId)};
      assert Edge(id, found[id].sourceId) !in fewer;
    }
  }

  /** What becomes of a scanned artifact with a source, from the scan and the graph alone. */
  lemma FatesExactly(found: Found, g: Graph, e: Edge)
    ensures var scanned := e.artifact in found && e.source == found[e.artifact].sourceId && e.source != "";
            var node := e.artifact != "" && e.artifact in g.artifacts;
            && (e in Desired(found, g) <==> scanned && node && e.source in g.sources)
            && (e in Fated(found, g, Unknown) <==> scanned && node && e.source !in g.sources)
            && (e in Fated(found, g, Orphan) <==> scanned && !node)
            && (e in Remaining(found, g) <==> scanned && node && e.source in g.sources && e !in g.edges)
  {
  }

  /** The nodes without a source are those the scan found none for. */
  lemma NoSourceExactly(found: Found, g: Graph, id: string)
    ensures id in NoSource(found, g) <==>
            id != "" && id in g.artifacts && (id in found ==> found[id].sourceId == "")
  {
  }

  /** They are grouped by their first client source and first source type, in that order, with a
      placeholder for what no row has. */
  lemma ComboExactly(rows: seq<Row>, id: string)
    requires id != ""
    ensures var client, kind := First(rows, id, ClientField), First(rows, id, TypeField);
            Combo(AbsorbAll(map[], rows), id) ==
            (if client == "" then "(none)" else client, if kind == "" then "(none)" else kind)
  {
    ScanMeaning(rows, id);
  }

  // ---- counters, edge by edge ----

  lemma NoEdgeCounted(artifacts: map<string, nat>, edges: set<Edge>, source: string)
    requires forall e :: e in edges ==> e.source != source
    ensures Count(artifacts, edges, source) == Counter(0, 0)
  {
    assert Linked(edges, source) == {};
  }

  /** One edge more counts one artifact and its chunks for its own source, and nothing for another. */
  lemma EdgeCounted(artifacts: map<string, nat>, edges: set<Edge>, e: Edge, source: string)
    requires e !in edges
    ensures var before, after := Count(artifacts, edges, source), Count(artifacts, edges + {e}, source);
            after == if e.source != source then before
                     else Counter(before.artifacts + 1,
                                  before.chunks + if e.artifact in artifacts then artifacts[e.artifact] else 0)
  {
    var ids, more := Linked(edges, source), Linked(edges + {e}, source);
    if e.source != source {
      assert more == ids;
    } else {
      assert more == ids + {e.artifact} && more - {e.artifact} == ids;
      SumRemove(more, ChunksOf(artifacts), e.artifact);
    }
  }

  /** The recompute sets the counters of exactly the sources with an edge, and nothing else. */
  lemma RecomputeExactly(g: Graph, source: string)
    ensures var r := Recomputed(g);
            && r.artifacts == g.artifacts && r.edges == g.edges && r.sources == g.sources
            && if exists e :: e in g.edges && e.source == source
               then source in r.counters && r.counters[source] == Count(g.artifacts, g.edges, source)
               else (source in r.counters <==> source in g.counters)
                    && (source in g.counters ==> r.counters[source] == g.counters[source])
  {
  }

  /** A limit caps the number of edges, taking the first; none or a negative one takes all. */
  lemma CutExactly(s: seq<Edge>, limit: Option<int>)
    ensures Cut(s, limit) <= s
    ensures |Cut(s, limit)| == if limit == None || limit.value < 0 || limit.value > |s| then |s| else limit.value
  {
  }

  /** A listing goes by artifact, and for one artifact by source. */
  lemma ListingOrder(s: seq<Edge>, edges: set<Edge>, i: nat, j: nat)
    requires Lists(s, edges) && i < j < |s|
    ensures StringLess(s[i].artifact, s[j].artifact)
         || (s[i].artifact == s[j].artifact && StringLess(s[i].source, s[j].source))
  {
    assert Before(s[i], s[j]);
  }

  // ---- applying ----

  ghost predicate Valid(g: Graph) {
    forall e :: e in g.edges ==> e.artifact in g.artifacts && e.source in g.sources
  }

  /** The graph after a run that made these edges, and the recompute. */
  ghost function AfterRun(g: Graph, made: set<Edge>): Graph {
    Recomputed(g.(edges := g.edges + made))
  }

  /** The graph after a run all of whose links succeed. */
  ghost function Applied(g: Graph, create: seq<Edge>): Graph { AfterRun(g, Elements(create)) }

  class Store {
    var g: Graph

    /** MERGE of one edge between nodes that exist; raises when it fails. */
    method LinkArtifact(e: Edge, fails: bool) returns (ok: bool)
      modifies this
      ensures ok == !fails
      ensures g == if !fails && e.artifact in old(g).artifacts && e.source in old(g).sources
                   then old(g).(edges := old(g).edges + {e}) else old(g)
    {
      if !fails && e.artifact in g.artifacts && e.source in g.sources {
        g := g.(edges := g.edges + {e});
      }
      return !fails;
    }

    method RecomputeCounters()
      modifies this
      ensures g == Recomputed(old(g))
    {
      var counted := Project(g.artifacts, g.edges);
      g := g.(counters := g.counters + counted);
    }

    /** The apply loop: one bad link does not stop the others. */
    method LinkAll(create: seq<Edge>, fails: Edge -> bool) returns (linked: nat)
      requires forall e :: e in create ==> e.artifact in g.artifacts && e.source in g.sources
      modifies this
      ensures g == old(g).(edges := old(g).edges + Succeeding(create, fails))
      ensures linked <= |create| && (linked == |create| <==> forall e :: e in create ==> !fails(e))
    {
      linked := 0;
      ghost var g0 := g;
      assert g0.edges + Succeeding(create[..0], fails) == g0.edges;
      for k := 0 to |create|
        invariant g == g0.(edges := g0.edges + Succeeding(create[..k], fails))
        invariant linked <= k && (linked == k <==> forall j :: 0 <= j < k ==> !fails(create[j]))
      {
        SucceedingNext(g0.edges, create, k, fails);
        var ok := LinkArtifact(create[k], fails(create[k]));
        if ok {
          linked := linked + 1;
        }
      }
      assert create[..|create|] == create;
    }

    /** One run. `fails` tells which links raise. */
    method Run(found: Found, limit: Option<int>, apply: bool, fails: Edge -> bool)
      returns (p: Plan, linked: nat)
      requires Valid(g)
      modifies this
      ensures Creates(found, old(g), limit, p.create) && p.projected == Projected(old(g), p.create)
      ensures !apply ==> g == old(g)
      ensures apply ==> g == AfterRun(old(g), Succeeding(p.create, fails))
      ensures apply && (forall e :: e in p.create ==> !fails(e)) ==> g == Applied(old(g), p.create) && linked == |p.create|
    {
      p := BuildPlan(found, g, limit);
      linked := 0;
      if apply {
        CreatedEndpoints(found, g, limit, p.create);
        linked := LinkAll(p.create, fails);
        AllSucceed(p.create, fails);
        RecomputeCounters();
      }
    }
  }

  function Succeeding(create: seq<Edge>, fails: Edge -> bool): set<Edge> {
    set e | e in create && !fails(e)
  }

  lemma SucceedingNext(edges: set<Edge>, create: seq<Edge>, k: nat, fails: Edge -> bool)
    requires k < |create|
    ensures edges + Succeeding(create[..k + 1], fails) ==
            edges + Succeeding(create[..k], fails) + if fails(create[k]) then {} else {create[k]}
  {
    assert create[..k + 1] == create[..k] + [create[k]];
  }

  lemma AllSucceed(create: seq<Edge>, fails: Edge -> bool)
    ensures (forall e :: e in create ==> !fails(e)) ==> Succeeding(create, fails) == Elements(create)
  {
  }

  /** Created edges join real nodes and are new. */
  lemma CreatedEndpoints(found: Found, g: Graph, limit: Option<int>, create: seq<Edge>)
    requires Creates(found, g, limit, create)
    ensures Elements(create) <= Remaining(found, g)
    ensures forall e :: e in create ==>
              e.artifact in Nodes(g) && e.source in Known(g) && e !in g.edges
  {
    var s :| Lists(s, Remaining(found, g)) && create == Cut(s, limit);
    forall e | e in create
      ensures e in Remaining(found, g)
    {
      assert e in s;
      assert e in Elements(s);
    }
  }

  // ---- dry run and apply ----

  lemma FewerLinked(edges: set<Edge>, more: set<Edge>, e: Edge)
    requires edges <= more && e in more && e.artifact !in Linked(edges, e.source)
    ensures |Linked(edges, e.source)| < |Linked(more, e.source)|
  {
    var a, b := Linked(edges, e.source), Linked(more, e.source);
    assert a <= b && e.artifact in b - a;
    SmallerSubset(a, b);
  }

  /** When every link succeeds, the counters the dry run projected are the counters the recompute
      sets exactly when no edge of the graph ends in a node without an id. */
  lemma ProjectionExact(g: Graph, create: seq<Edge>)
    requires forall e :: e in create ==> e.artifact != "" && e.source != ""
    ensures Projected(g, create) == CountAll(g.artifacts, g.edges + Elements(create))
            <==> forall e :: e in g.edges ==> e.artifact != "" && e.source != ""
  {
    var seen, all := Existing(g) + Elements(create), g.edges + Elements(create);
    assert Projected(g, create).Keys == SourcesOf(seen) && CountAll(g.artifacts, all).Keys == SourcesOf(all);
    if e :| e in g.edges && (e.artifact == "" || e.source == "") {
      if e.source == "" {
        assert e.source in SourcesOf(all) && e.source !in SourcesOf(seen);
      } else {
        assert e.source in SourcesOf(all);
        if e.source in SourcesOf(seen) {
          FewerLinked(seen, all, e);
          assert Count(g.artifacts, seen, e.source) != Count(g.artifacts, all, e.source);
          assert Projected(g, create)[e.source] == Count(g.artifacts, seen, e.source);
          assert CountAll(g.artifacts, all)[e.source] == Count(g.artifacts, all, e.source);
        }
      }
    } else {
      assert Existing(g) == g.edges;
    }
  }

  /** A graph on which they differ: an edge from an artifact without an id, which the dry run does not
      read and the recompute counts. */
  lemma ProjectionExample()
    ensures var g := Graph(map["" := 1], {Edge("", "s")}, {"s"}, map[]);
            Valid(g) && Projected(g, []) != CountAll(g.artifacts, g.edges + Elements([]))
  {
    var g := Graph(map["" := 1], {Edge("", "s")}, {"s"}, map[]);
    assert Edge("", "s") in g.edges;
    ProjectionExact(g, []);
  }

  // ---- running again ----

  /** A run leaves what it did not make. */
  lemma RunLeaves(found: Found, g: Graph, limit: Option<int>, create: seq<Edge>, made: set<Edge>)
    requires Creates(found, g, limit, create) && made <= Elements(create)
    ensures made <= Remaining(found, g) && Remaining(found, AfterRun(g, made)) == Remaining(found, g) - made
  {
    CreatedEndpoints(found, g, limit, create);
    var h := AfterRun(g, made);
    forall id | id in found
      ensures FateOf(found, h, id) == FateOf(found, g, id)
    {
    }
    assert WithFate(found, h, found.Keys, Linkable) == WithFate(found, g, found.Keys, Linkable);
    assert Desired(found, h) == Desired(found, g);
    assert Existing(h) == Existing(g) + made;
  }

  /** After an unlimited run exactly the edges remain whose link failed. */
  lemma FailedRemain(found: Found, g: Graph, create: seq<Edge>, fails: Edge -> bool)
    requires Creates(found, g, None, create)
    ensures Remaining(found, AfterRun(g, Succeeding(create, fails))) == set e | e in Remaining(found, g) && fails(e)
  {
    hide Remaining;
    UnlimitedCreatesAll(found, g, create);
    forall e
      ensures e in create <==> e in Remaining(found, g)
    {
      assert e in Elements(create) <==> e in create;
    }
    RunLeaves(found, g, None, create, Succeeding(create, fails));
  }

  /** So a second run after an unlimited one without failures plans no edge and changes nothing. */
  lemma SecondRun(found: Found, g: Graph, create: seq<Edge>, again: seq<Edge>)
    requires Creates(found, g, None, create)
    requires Creates(found, Applied(g, create), None, again)
    ensures again == [] && Applied(Applied(g, create), again) == Applied(g, create)
  {
    UnlimitedCreatesAll(found, g, create);
    RunLeaves(found, g, None, create, Elements(create));
    UnlimitedCreatesAll(found, Applied(g, create), again);
    ApplyNothing(g, create);
  }

  lemma UnlimitedCreatesAll(found: Found, g: Graph, create: seq<Edge>)
    requires Creates(found, g, None, create)
    ensures Lists(create, Remaining(found, g)) && |create| == |Remaining(found, g)|
  {
    SubListing(create, Remaining(found, g));
  }

  lemma ApplyNothing(g: Graph, create: seq<Edge>)
    ensures Applied(Applied(g, create), []) == Applied(g, create)
  {
    var h := Applied(g, create);
    assert h.edges + Elements([]) == h.edges;
    RecomputeTwice(g, h.edges, h.edges);
  }

  // ---- bounded runs ----

  lemma RecomputeTwice(g: Graph, edges: set<Edge>, more: set<Edge>)
    requires edges <= more
    ensures Recomputed(Recomputed(g.(edges := edges)).(edges := more)) == Recomputed(g.(edges := more))
  {
    assert SourcesOf(edges) <= SourcesOf(more);
    var a, b := CountAll(g.artifacts, edges), CountAll(g.artifacts, more);
    assert a.Keys <= b.Keys;
    assert g.counters + a + b == g.counters + b;
  }

  /** The graphs of successive runs that each create at most `k` edges, all links succeeding. */
  ghost predicate BoundedRuns(found: Found, k: nat, trace: seq<Graph>, creates: seq<seq<Edge>>) {
    && |trace| == |creates| + 1
    && forall i {:trigger RunAt(found, k, trace, creates, i)} ::
         0 <= i < |creates| ==> RunAt(found, k, trace, creates, i)
  }

  ghost predicate RunAt(found: Found, k: nat, trace: seq<Graph>, creates: seq<seq<Edge>>, i: nat)
    requires i < |creates| && |trace| == |creates| + 1
  {
    Creates(found, trace[i], Some(k), creates[i]) && trace[i + 1] == Applied(trace[i], creates[i])
  }

  function Min(a: nat, b: nat): nat { if a <= b then a else b }

  /** One bounded run takes the next `k` edges of the listing. */
  lemma NextSlice(found: Found, h: Graph, s: seq<Edge>, done: nat, k: nat, create: seq<Edge>)
    requires done <= |s| && Lists(s[done..], Remaining(found, h)) && Creates(found, h, Some(k), create)
    ensures create == s[done..Min(done + k, |s|)]
  {
    var t :| Lists(t, Remaining(found, h)) && create == Cut(t, Some(k));
    ListingUnique(t, s[done..], Remaining(found, h));
  }

  /** A run after another is one run of both slices. */
  lemma TwoSlices(g: Graph, s: seq<Edge>, done: nat, after: nat)
    requires done <= after <= |s|
    ensures Applied(Applied(g, s[..done]), s[done..after]) == Applied(g, s[..after])
  {
    assert s[..after] == s[..done] + s[done..after];
    var a, b := g.edges + Elements(s[..done]), g.edges + Elements(s[..after]);
    assert b == a + Elements(s[done..after]);
    RecomputeTwice(g, a, b);
  }

  /** After `i` runs of at most `k` edges the listing without its first `i * k` edges remains. */
  lemma {:induction false} BoundedRemaining(found: Found, k: nat, trace: seq<Graph>, creates: seq<seq<Edge>>,
                                            s: seq<Edge>, i: nat)
    requires BoundedRuns(found, k, trace, creates) && Lists(s, Remaining(found, trace[0]))
    requires i <= |creates|
    ensures Lists(s[Done(i, k, |s|)..], Remaining(found, trace[i]))
  {
    hide Applied, Lists, Remaining;
    if i == 0 {
      assert s[0..] == s;
    } else {
      BoundedRemaining(found, k, trace, creates, s, i - 1);
      DoneStep(i, k, |s|);
      RunSlice(found, k, trace, creates, s, i - 1, Done(i - 1, k, |s|));
    }
  }

  /** And the first `i * k` edges are in the graph, with the counters of the edges there. */
  lemma {:induction false} BoundedProgress(found: Found, k: nat, trace: seq<Graph>, creates: seq<seq<Edge>>,
                                           s: seq<Edge>, i: nat)
    requires BoundedRuns(found, k, trace, creates) && Lists(s, Remaining(found, trace[0]))
    requires 0 < i <= |creates|
    ensures trace[i] == Applied(trace[0], s[..Done(i, k, |s|)])
  {
    hide Applied, Lists, Remaining;
    DoneStep(i, k, |s|);
    BoundedRemaining(found, k, trace, creates, s, i - 1);
    if i > 1 {
      BoundedProgress(found, k, trace, creates, s, i - 1);
    }
    ProgressStep(found, k, trace, creates, s, i - 1, Done(i - 1, k, |s|));
  }

  /** How much of a listing of `n` edges `i` runs have made. */
  function Done(i: nat, k: nat, n: nat): (d: nat)
    ensures d <= n
  {
    Min(i * k, n)
  }

  lemma DoneStep(i: nat, k: nat, n: nat)
    requires i > 0
    ensures Done(i, k, n) == Min(Done(i - 1, k, n) + k, n) && Done(0, k, n) == 0
  {
    assert i * k == (i - 1) * k + k;
  }

  lemma ProgressStep(found: Found, k: nat, trace: seq<Graph>, creates: seq<seq<Edge>>, s: seq<Edge>, i: nat, before: nat)
    requires BoundedRuns(found, k, trace, creates) && i < |creates|
    requires before <= |s| && Lists(s[before..], Remaining(found, trace[i]))
    requires if i == 0 then before == 0 else trace[i] == Applied(trace[0], s[..before])
    ensures trace[i + 1] == Applied(trace[0], s[..Min(before + k, |s|)])
  {
    var after := Min(before + k, |s|);
    RunSlice(found, k, trace, creates, s, i, before);
    if i == 0 {
      assert s[0..after] == s[..after];
    } else {
      TwoSlices(trace[0], s, before, after);
    }
  }

  lemma RunSlice(found: Found, k: nat, trace: seq<Graph>, creates: seq<seq<Edge>>, s: seq<Edge>, i: nat, before: nat)
    requires BoundedRuns(found, k, trace, creates) && i < |creates|
    requires before <= |s| && Lists(s[before..], Remaining(found, trace[i]))
    ensures var after := Min(before + k, |s|);
            trace[i + 1] == Applied(trace[i], s[before..after]) && Lists(s[after..], Remaining(found, trace[i + 1]))
  {
    assert RunAt(found, k, trace, creates, i);
    OneSlice(found, trace[i], s, before, k, creates[i]);
  }

  lemma OneSlice(found: Found, h: Graph, s: seq<Edge>, before: nat, k: nat, create: seq<Edge>)
    requires before <= |s| && Lists(s[before..], Remaining(found, h)) && Creates(found, h, Some(k), create)
    ensures var after := Min(before + k, |s|);
            create == s[before..after] && Lists(s[after..], Remaining(found, Applied(h, create)))
  {
    var after := Min(before + k, |s|);
    NextSlice(found, h, s, before, k, create);
    RunLeaves(found, h, Some(k), create, Elements(create));
    DropLists(s[before..], Remaining(found, h), after - before);
    assert s[before..][after - before..] == s[after..] && s[before..][..after - before] == create;
  }

  /** Bounded runs converge: nothing remains exactly when `i * k` reaches the number of edges that
      were to be made, and then the graph is the one a single unlimited run leaves. */
  lemma BoundedConverges(found: Found, k: nat, trace: seq<Graph>, creates: seq<seq<Edge>>, i: nat, all: seq<Edge>)
    requires BoundedRuns(found, k, trace, creates) && 0 < i <= |creates|
    requires Creates(found, trace[0], None, all)
    ensures Remaining(found, trace[i]) == {} <==> i * k >= |Remaining(found, trace[0])|
    ensures i * k >= |Remaining(found, trace[0])| ==> trace[i] == Applied(trace[0], all)
  {
    BoundedRemaining(found, k, trace, creates, all, i);
    BoundedProgress(found, k, trace, creates, all, i);
    var done := Done(i, k, |all|);
    SubListing(all, Remaining(found, trace[0]));
    SubListing(all[done..], Remaining(found, trace[i]));
    assert done == |all| ==> all[..done] == all;
  }
}
