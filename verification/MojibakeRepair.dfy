/**
 The mojibake repair: a plan over the entity nodes, applied entry by entry, where each entry
 renames its node or merges it into the node that already holds the repaired identifier.
 */
module MojibakeRepair {
  import opened Sums

  type NodeId = nat

  datatype Entity = Entity(cid: string, name: string, mentionCount: nat, mentions: set<string>)

  /** The entity nodes that have an identifier, and for every node there was at the start the node that now stands for it. */
  datatype Store = Store(nodes: map<NodeId, Entity>, home: map<NodeId, NodeId>)

  datatype Action = Rename | RenameOrMerge | Unfixable

  datatype Entry = Entry(cid: string, name: string, fixedName: string, newCid: string, action: Action)

  // ---- planning ----

  /** The helpers of the planner: mojibake detection, its exact reversal, and the slug. */
  datatype Fixer = Fixer(looks: string -> bool, fix: string -> string, slug: (string, string) -> string)

  /** The properties of a node; a missing one is empty. */
  datatype Record = Record(name: string, cid: string, entityType: string)

  predicate Affected(f: Fixer, r: Record) {
    r.name != "" && r.cid != "" && f.looks(r.name)
  }

  function EntryFor(f: Fixer, r: Record): Entry {
    var fixed := f.fix(r.name);
    if fixed == r.name then Entry(r.cid, r.name, r.name, r.cid, Unfixable)
    else
      var newCid := f.slug(fixed, if r.entityType == "" then "OTHER" else r.entityType);
      Entry(r.cid, r.name, fixed, newCid, if newCid == r.cid then Rename else RenameOrMerge)
  }

  /** What every plan of the planner satisfies. */
  ghost predicate WellPlanned(plan: seq<Entry>) {
    forall k {:trigger Fits(plan[k])} {:trigger Fresh(plan, k)} ::
      0 <= k < |plan| ==> Fits(plan[k]) && Fresh(plan, k)
  }

  predicate Fits(e: Entry) {
    e.action == RenameOrMerge <==> e.newCid != e.cid
  }

  /** No earlier entry is for the same identifier. */
  ghost predicate Fresh(plan: seq<Entry>, k: nat)
    requires k < |plan|
  {
    forall j :: 0 <= j < k ==> plan[j].cid != plan[k].cid
  }

  /** The uniqueness constraint of the store; nodes without an identifier are outside it. */
  ghost predicate DistinctCids(records: seq<Record>) {
    forall j, k :: 0 <= j < k < |records| && records[j].cid != "" ==> records[j].cid != records[k].cid
  }

  lemma PlanGrows(plan: seq<Entry>, e: Entry)
    requires WellPlanned(plan) && Fits(e) && forall k :: 0 <= k < |plan| ==> plan[k].cid != e.cid
    ensures WellPlanned(plan + [e])
  {
    var more := plan + [e];
    forall k | 0 <= k < |more|
      ensures Fits(more[k]) && Fresh(more, k)
    {
      if k < |plan| {
        assert Fits(plan[k]) && Fresh(plan, k);
      }
    }
  }

  /** The plan is well formed, and holds exactly the entries of the affected records. */
  ghost predicate Planned(f: Fixer, records: seq<Record>, plan: seq<Entry>) {
    && WellPlanned(plan)
    && forall e :: e in plan <==> exists i :: 0 <= i < |records| && Affected(f, records[i]) && e == EntryFor(f, records[i])
  }

  /** Over records with distinct identifiers, one entry for each affected node and none else. */
  method PlanRepairs(f: Fixer, records: seq<Record>) returns (plan: seq<Entry>)
    requires DistinctCids(records)
    ensures Planned(f, records, plan)
  {
    plan := [];
    for i := 0 to |records|
      invariant WellPlanned(plan)
      invariant forall e :: e in plan <==> exists j :: 0 <= j < i && Affected(f, records[j]) && e == EntryFor(f, records[j])
    {
      if Affected(f, records[i]) {
        var e := EntryFor(f, records[i]);
        forall k | 0 <= k < |plan|
          ensures plan[k].cid != e.cid
        {
          assert plan[k] in plan;
        }
        PlanGrows(plan, e);
        plan := plan + [e];
      }
    }
  }

  // ---- the store ----

  /** No other node has the identifier of `n`. */
  ghost predicate Alone(nodes: map<NodeId, Entity>, n: NodeId)
    requires n in nodes
  {
    forall m :: m in nodes && nodes[m].cid == nodes[n].cid ==> m == n
  }

  ghost predicate Distinct(nodes: map<NodeId, Entity>) {
    forall n {:trigger Alone(nodes, n)} :: n in nodes ==> Alone(nodes, n)
  }

  ghost predicate Held(nodes: map<NodeId, Entity>, cid: string) {
    exists n :: n in nodes && nodes[n].cid == cid
  }

  ghost function NodeOf(nodes: map<NodeId, Entity>, cid: string): (n: NodeId)
    requires Held(nodes, cid)
    ensures n in nodes && nodes[n].cid == cid
  {
    var n :| n in nodes && nodes[n].cid == cid;
    n
  }

  /** The merge keeps the longer of the survivor's name and its identifier as its name. */
  function MergedName(name: string, cid: string): string {
    if |cid| > |name| then cid else name
  }

  function Absorb(survivor: Entity, loser: Entity): Entity {
    Entity(survivor.cid, MergedName(survivor.name, survivor.cid),
           survivor.mentionCount + loser.mentionCount, survivor.mentions + loser.mentions)
  }

  function Rehome(home: map<NodeId, NodeId>, loser: NodeId, survivor: NodeId): map<NodeId, NodeId> {
    map n | n in home :: if home[n] == loser then survivor else home[n]
  }

  ghost function Renamed(s: Store, e: Entry): Store {
    if !Held(s.nodes, e.cid) then s
    else
      var n := NodeOf(s.nodes, e.cid);
      s.(nodes := s.nodes[n := s.nodes[n].(name := e.fixedName, cid := e.newCid)])
  }

  ghost function Merged(s: Store, e: Entry): Store
    requires Held(s.nodes, e.newCid)
  {
    var survivor := NodeOf(s.nodes, e.newCid);
    if !Held(s.nodes, e.cid) then
      s.(nodes := s.nodes[survivor := s.nodes[survivor].(name := MergedName(s.nodes[survivor].name, e.newCid))])
    else
      var loser := NodeOf(s.nodes, e.cid);
      Store((s.nodes - {loser})[survivor := Absorb(s.nodes[survivor], s.nodes[loser])],
            Rehome(s.home, loser, survivor))
  }

  datatype Outcome = DidRename | DidMerge | LeftAlone | Failed

  /** What one turn of the loop does. A fault is an exception of the store before it takes effect. */
  ghost function OutcomeOf(s: Store, e: Entry, fault: bool): Outcome {
    if e.action == Unfixable then LeftAlone
    else if fault then Failed
    else if e.action == RenameOrMerge && Held(s.nodes, e.newCid) then DidMerge
    else DidRename
  }

  ghost function Next(s: Store, e: Entry, fault: bool): Store {
    match OutcomeOf(s, e, fault)
    case DidMerge => Merged(s, e)
    case DidRename => Renamed(s, e)
    case _ => s
  }

  /** The stores a run goes through, one more than there are entries. */
  ghost predicate IsRun(trace: seq<Store>, plan: seq<Entry>, faults: seq<bool>) {
    && |plan| == |faults| && |trace| == |plan| + 1
    && forall k :: 0 <= k < |plan| ==> Turned(trace, plan, faults, k)
  }

  ghost predicate Turned(trace: seq<Store>, plan: seq<Entry>, faults: seq<bool>, k: nat)
    requires k < |plan| == |faults| && |trace| == |plan| + 1
  {
    trace[k + 1] == Next(trace[k], plan[k], faults[k])
  }

  /** How many of the first `k` entries ended in `o`. */
  ghost function Tally(trace: seq<Store>, plan: seq<Entry>, faults: seq<bool>, k: nat, o: Outcome): nat
    requires k <= |plan| == |faults| && k <= |trace|
  {
    if k == 0 then 0
    else Tally(trace, plan, faults, k - 1, o) + if OutcomeOf(trace[k - 1], plan[k - 1], faults[k - 1]) == o then 1 else 0
  }

  // ---- what every step keeps ----

  ghost function CountIn(nodes: map<NodeId, Entity>): NodeId -> int {
    n => if n in nodes then nodes[n].mentionCount else 0
  }

  ghost function Total(nodes: map<NodeId, Entity>): int {
    Sum(nodes.Keys, CountIn(nodes))
  }

  /** None of the first `k` entries is for node `n`. */
  ghost predicate Pending(s: Store, plan: seq<Entry>, k: nat, n: NodeId)
    requires n in s.nodes
  {
    forall j :: 0 <= j < k && j < |plan| ==> plan[j].cid != s.nodes[n].cid
  }

  /** Every node stands for itself, and the identifiers are distinct. */
  ghost predicate Initial(s: Store) {
    && Distinct(s.nodes) && s.home.Keys == s.nodes.Keys
    && forall n :: n in s.nodes ==> s.home[n] == n
  }

  /** An original node has one live node standing for it, and a live node stands for itself. */
  ghost predicate Homed(s: Store, n: NodeId) {
    && (n in s.home ==> s.home[n] in s.nodes)
    && (n in s.nodes ==> n in s.home && s.home[n] == n)
  }

  ghost predicate Homes(before: Store, s: Store) {
    && s.nodes.Keys <= before.nodes.Keys == s.home.Keys
    && forall n {:trigger Homed(s, n)} :: Homed(s, n)
  }

  /** The mentions of an original node are with the node that stands for it. */
  ghost predicate Gathered(before: Store, s: Store, n: NodeId) {
    n in before.nodes && n in s.home && s.home[n] in s.nodes ==>
      before.nodes[n].mentions <= s.nodes[s.home[n]].mentions
  }

  /** The mentions of a live node come from the nodes it stands for. */
  ghost predicate Sourced(before: Store, s: Store, m: NodeId) {
    m in s.nodes ==> forall x :: x in s.nodes[m].mentions ==> Contributed(before, s, m, x)
  }

  ghost predicate Contributed(before: Store, s: Store, m: NodeId, x: string) {
    exists n :: n in before.nodes && n in s.home && s.home[n] == m && x in before.nodes[n].mentions
  }

  /** Each live node has exactly the mentions of the original nodes it stands for. */
  ghost predicate Represents(before: Store, s: Store) {
    && Homes(before, s)
    && (forall n {:trigger Gathered(before, s, n)} :: Gathered(before, s, n))
    && (forall m {:trigger Sourced(before, s, m)} :: Sourced(before, s, m))
  }

  /** A node whose entry is still to come is where it was, under its own identifier. */
  ghost predicate Stays(before: Store, plan: seq<Entry>, s: Store, k: nat, n: NodeId) {
    n in before.nodes && Pending(before, plan, k, n) ==> n in s.nodes && s.nodes[n].cid == before.nodes[n].cid
  }

  ghost predicate Untouched(before: Store, plan: seq<Entry>, s: Store, k: nat) {
    forall n {:trigger Stays(before, plan, s, k, n)} :: Stays(before, plan, s, k, n)
  }

  /** The plan was made from the nodes of the store. */
  ghost predicate PlanFor(plan: seq<Entry>, s: Store) {
    WellPlanned(plan) && forall k :: 0 <= k < |plan| ==> Held(s.nodes, plan[k].cid)
  }

  /** The node an entry was planned for. */
  ghost function Owner(s: Store, e: Entry): NodeId
    requires Held(s.nodes, e.cid)
  {
    NodeOf(s.nodes, e.cid)
  }

  /** The records are those of the store's nodes. */
  ghost predicate RecordsOf(records: seq<Record>, s: Store) {
    forall i :: 0 <= i < |records| && records[i].cid != "" ==> Held(s.nodes, records[i].cid)
  }

  /** What the planner makes of the records of a store is a plan for that store. */
  lemma PlannedForStore(f: Fixer, records: seq<Record>, plan: seq<Entry>, s: Store)
    requires RecordsOf(records, s) && Planned(f, records, plan)
    ensures PlanFor(plan, s)
  {
    forall k | 0 <= k < |plan|
      ensures Held(s.nodes, plan[k].cid)
    {
      assert plan[k] in plan;
      var i :| 0 <= i < |records| && Affected(f, records[i]) && plan[k] == EntryFor(f, records[i]);
    }
  }

  lemma OwnerPending(before: Store, plan: seq<Entry>, s: Store, k: nat)
    requires PlanFor(plan, before) && Distinct(s.nodes) && k < |plan|
    requires Untouched(before, plan, s, k)
    ensures Held(s.nodes, plan[k].cid) && NodeOf(s.nodes, plan[k].cid) == Owner(before, plan[k])
  {
    var n := Owner(before, plan[k]);
    assert Fresh(plan, k);
    assert Pending(before, plan, k, n);
    assert Stays(before, plan, s, k, n);
    assert Alone(s.nodes, n);
  }

  lemma RenameDistinct(s: Store, e: Entry)
    requires Distinct(s.nodes) && Held(s.nodes, e.cid)
    requires e.newCid == e.cid || !Held(s.nodes, e.newCid)
    ensures Distinct(Renamed(s, e).nodes)
  {
    var r, n := Renamed(s, e), NodeOf(s.nodes, e.cid);
    forall m | m in r.nodes
      ensures Alone(r.nodes, m)
    {
      assert Alone(s.nodes, m) && Alone(s.nodes, n);
    }
  }

  lemma RenameRepresents(before: Store, s: Store, e: Entry)
    requires Represents(before, s) && Held(s.nodes, e.cid)
    ensures Represents(before, Renamed(s, e))
  {
    var r := Renamed(s, e);
    assert r.nodes.Keys == s.nodes.Keys;
    forall n
      ensures Homed(r, n) && Gathered(before, r, n) && Sourced(before, r, n)
    {
      assert Homed(s, n) && Gathered(before, s, n) && Sourced(before, s, n);
      forall x | n in r.nodes && x in r.nodes[n].mentions
        ensures Contributed(before, r, n, x)
      {
        assert Contributed(before, s, n, x);
      }
    }
  }

  lemma RenameTotal(s: Store, e: Entry)
    requires Held(s.nodes, e.cid)
    ensures var r := Renamed(s, e); Total(r.nodes) == Total(s.nodes) && |r.nodes| == |s.nodes|
  {
    var r := Renamed(s, e);
    assert r.nodes.Keys == s.nodes.Keys;
    assert |r.nodes| == |r.nodes.Keys| && |s.nodes| == |s.nodes.Keys|;
    SumSame(s.nodes.Keys, CountIn(s.nodes), CountIn(r.nodes));
  }

  lemma MergeDistinct(s: Store, e: Entry)
    requires Distinct(s.nodes) && Held(s.nodes, e.cid) && e.newCid != e.cid && Held(s.nodes, e.newCid)
    ensures Distinct(Merged(s, e).nodes)
  {
    var r := Merged(s, e);
    assert forall m :: m in r.nodes ==> m in s.nodes && r.nodes[m].cid == s.nodes[m].cid;
    forall m | m in r.nodes
      ensures Alone(r.nodes, m)
    {
      assert Alone(s.nodes, m);
    }
  }

  lemma MergeHomes(before: Store, s: Store, e: Entry)
    requires Homes(before, s) && Held(s.nodes, e.cid) && e.newCid != e.cid && Held(s.nodes, e.newCid)
    ensures Homes(before, Merged(s, e))
  {
    var r, loser, survivor := Merged(s, e), NodeOf(s.nodes, e.cid), NodeOf(s.nodes, e.newCid);
    assert r.nodes.Keys == s.nodes.Keys - {loser};
    assert r.home.Keys == s.home.Keys;
    forall n
      ensures Homed(r, n)
    {
      assert Homed(s, n);
    }
  }

  lemma MergeGathers(before: Store, s: Store, e: Entry, n: NodeId)
    requires Gathered(before, s, n) && Homed(s, n)
    requires Held(s.nodes, e.cid) && e.newCid != e.cid && Held(s.nodes, e.newCid)
    ensures Gathered(before, Merged(s, e), n)
  {
  }

  lemma MergeSources(before: Store, s: Store, e: Entry, m: NodeId)
    requires forall n :: Sourced(before, s, n)
    requires Held(s.nodes, e.cid) && e.newCid != e.cid && Held(s.nodes, e.newCid)
    ensures Sourced(before, Merged(s, e), m)
  {
    var r, loser, survivor := Merged(s, e), NodeOf(s.nodes, e.cid), NodeOf(s.nodes, e.newCid);
    assert Sourced(before, s, loser) && Sourced(before, s, m);
    forall x | m in r.nodes && x in r.nodes[m].mentions
      ensures Contributed(before, r, m, x)
    {
      var source := if m == survivor && x !in s.nodes[m].mentions then loser else m;
      assert Contributed(before, s, source, x);
      var n :| n in before.nodes && n in s.home && s.home[n] == source && x in before.nodes[n].mentions;
      assert r.home[n] == m;
    }
  }

  lemma MergeRepresents(before: Store, s: Store, e: Entry)
    requires Represents(before, s)
    requires Held(s.nodes, e.cid) && e.newCid != e.cid && Held(s.nodes, e.newCid)
    ensures Represents(before, Merged(s, e))
  {
    MergeHomes(before, s, e);
    forall n
      ensures Gathered(before, Merged(s, e), n) && Sourced(before, Merged(s, e), n)
    {
      assert Homed(s, n) && Gathered(before, s, n);
      MergeGathers(before, s, e, n);
      MergeSources(before, s, e, n);
    }
  }

  lemma MergeTotal(s: Store, e: Entry)
    requires Held(s.nodes, e.cid) && e.newCid != e.cid && Held(s.nodes, e.newCid)
    ensures var r := Merged(s, e); Total(r.nodes) == Total(s.nodes) && |r.nodes| == |s.nodes| - 1
  {
    var r, loser, survivor := Merged(s, e), NodeOf(s.nodes, e.cid), NodeOf(s.nodes, e.newCid);
    var left := s.nodes.Keys - {loser};
    assert r.nodes.Keys == left;
    assert |r.nodes| == |left| && |s.nodes| == |s.nodes.Keys|;
    SumRemove(s.nodes.Keys, CountIn(s.nodes), loser);
    SumRemove(left, CountIn(s.nodes), survivor);
    SumRemove(left, CountIn(r.nodes), survivor);
    SumSame(left - {survivor}, CountIn(s.nodes), CountIn(r.nodes));
  }

  ghost predicate Kept(before: Store, s: Store) {
    Distinct(s.nodes) && Represents(before, s)
  }

  /** One turn of the loop on an entry whose node is there. */
  lemma TurnKeeps(before: Store, s: Store, r: Store, e: Entry, fault: bool)
    requires Kept(before, s) && Held(s.nodes, e.cid) && Fits(e) && r == Next(s, e, fault)
    ensures Kept(before, r)
  {
    match OutcomeOf(s, e, fault)
    case DidMerge =>
      MergeDistinct(s, e);
      MergeRepresents(before, s, e);
    case DidRename =>
      RenameDistinct(s, e);
      RenameRepresents(before, s, e);
    case _ =>
  }

  /** A merge takes one node away; nothing changes the mention counts in all. */
  lemma TurnCounts(s: Store, r: Store, e: Entry, fault: bool)
    requires Held(s.nodes, e.cid) && Fits(e) && r == Next(s, e, fault)
    ensures Total(r.nodes) == Total(s.nodes)
    ensures |r.nodes| == |s.nodes| - if OutcomeOf(s, e, fault) == DidMerge then 1 else 0
  {
    match OutcomeOf(s, e, fault)
    case DidMerge => MergeTotal(s, e);
    case DidRename => RenameTotal(s, e);
    case _ =>
  }

  /** A turn moves no identifier but that of its own node. */
  lemma TurnMovesOwn(s: Store, e: Entry, fault: bool, n: NodeId)
    requires Distinct(s.nodes) && Held(s.nodes, e.cid) && n in s.nodes && s.nodes[n].cid != e.cid
    requires Fits(e)
    ensures var r := Next(s, e, fault); n in r.nodes && r.nodes[n].cid == s.nodes[n].cid
  {
    assert Alone(s.nodes, NodeOf(s.nodes, e.cid));
  }

  /** The invariant of the run. */
  ghost predicate Good(before: Store, plan: seq<Entry>, s: Store, k: nat) {
    Kept(before, s) && Untouched(before, plan, s, k)
  }

  lemma TurnIsGood(before: Store, plan: seq<Entry>, s: Store, r: Store, k: nat, fault: bool)
    requires PlanFor(plan, before) && k < |plan| && Good(before, plan, s, k) && r == Next(s, plan[k], fault)
    ensures Good(before, plan, r, k + 1)
  {
    OwnerPending(before, plan, s, k);
    assert Fits(plan[k]);
    TurnKeeps(before, s, r, plan[k], fault);
    UntouchedNext(before, plan, s, r, k, fault);
  }

  lemma InitiallyGood(before: Store, plan: seq<Entry>)
    requires Initial(before)
    ensures Good(before, plan, before, 0)
  {
    forall m
      ensures Sourced(before, before, m)
    {
      forall x | m in before.nodes && x in before.nodes[m].mentions
        ensures Contributed(before, before, m, x)
      {
        assert before.home[m] == m;
      }
    }
  }

  /** After any number of entries, whatever fails: identifiers are distinct, every original node
      is represented by exactly one live node, and no mention is lost or invented. */
  lemma {:induction false} RunKeeps(trace: seq<Store>, plan: seq<Entry>, faults: seq<bool>, k: nat)
    requires IsRun(trace, plan, faults) && Initial(trace[0]) && PlanFor(plan, trace[0]) && k <= |plan|
    ensures Good(trace[0], plan, trace[k], k)
  {
    if k == 0 {
      InitiallyGood(trace[0], plan);
    } else {
      RunKeeps(trace, plan, faults, k - 1);
      assert Turned(trace, plan, faults, k - 1);
      TurnIsGood(trace[0], plan, trace[k - 1], trace[k], k - 1, faults[k - 1]);
    }
  }

  /** The mention counts add up to the same total, and one node is gone for each merge. */
  lemma {:induction false} RunCounts(trace: seq<Store>, plan: seq<Entry>, faults: seq<bool>, k: nat)
    requires IsRun(trace, plan, faults) && Initial(trace[0]) && PlanFor(plan, trace[0]) && k <= |plan|
    ensures Total(trace[k].nodes) == Total(trace[0].nodes)
    ensures |trace[k].nodes| == |trace[0].nodes| - Tally(trace, plan, faults, k, DidMerge)
  {
    if k > 0 {
      RunCounts(trace, plan, faults, k - 1);
      ActsOnItsOwn(trace, plan, faults, k - 1);
      assert Turned(trace, plan, faults, k - 1) && Fits(plan[k - 1]);
      TurnCounts(trace[k - 1], trace[k], plan[k - 1], faults[k - 1]);
    }
  }

  lemma UntouchedNext(before: Store, plan: seq<Entry>, s: Store, r: Store, k: nat, fault: bool)
    requires PlanFor(plan, before) && k < |plan| && Distinct(s.nodes) && Held(s.nodes, plan[k].cid)
    requires Untouched(before, plan, s, k) && r == Next(s, plan[k], fault)
    ensures Untouched(before, plan, r, k + 1)
  {
    assert Fits(plan[k]);
    var later := k + 1;
    forall n
      ensures Stays(before, plan, r, later, n)
    {
      if n in before.nodes && Pending(before, plan, k + 1, n) {
        assert Pending(before, plan, k, n) && Stays(before, plan, s, k, n);
        TurnMovesOwn(s, plan[k], fault, n);
      }
    }
  }

  /** When its turn comes, each entry finds exactly the node it was planned for. */
  lemma {:induction false} ActsOnItsOwn(trace: seq<Store>, plan: seq<Entry>, faults: seq<bool>, k: nat)
    requires IsRun(trace, plan, faults) && Initial(trace[0]) && PlanFor(plan, trace[0]) && k < |plan|
    ensures forall n :: n in trace[k].nodes ==> (trace[k].nodes[n].cid == plan[k].cid <==> n == Owner(trace[0], plan[k]))
    ensures Held(trace[k].nodes, plan[k].cid)
  {
    RunKeeps(trace, plan, faults, k);
    OwnerPending(trace[0], plan, trace[k], k);
    assert Alone(trace[k].nodes, Owner(trace[0], plan[k]));
  }

  /** Every entry is counted once. */
  lemma {:induction false} TalliesAddUp(trace: seq<Store>, plan: seq<Entry>, faults: seq<bool>, k: nat)
    requires k <= |plan| == |faults| && k <= |trace|
    ensures Tally(trace, plan, faults, k, DidRename) + Tally(trace, plan, faults, k, DidMerge)
            + Tally(trace, plan, faults, k, LeftAlone) + Tally(trace, plan, faults, k, Failed) == k
  {
    if k > 0 {
      TalliesAddUp(trace, plan, faults, k - 1);
    }
  }

  // ---- the loop of the script ----

  datatype Counts = Counts(renamed: nat, merged: nat, unfixable: nat, errors: nat)

  /** The graph store. A fault is an exception raised before anything is written. */
  class Graph {
    var nodes: map<NodeId, Entity>
    ghost var home: map<NodeId, NodeId>

    ghost function Now(): Store
      reads this
    {
      Store(nodes, home)
    }

    method EntityExists(cid: string) returns (exists_: bool)
      ensures exists_ == Held(nodes, cid)
    {
      exists_ := exists n :: n in nodes && nodes[n].cid == cid;
    }

    method MergeEntities(e: Entry)
      requires Distinct(nodes) && Held(nodes, e.cid) && Held(nodes, e.newCid) && e.cid != e.newCid
      modifies this
      ensures Now() == Merged(old(Now()), e)
    {
      var survivor :| survivor in nodes && nodes[survivor].cid == e.newCid;
      var loser :| loser in nodes && nodes[loser].cid == e.cid;
      assert Alone(nodes, survivor) && Alone(nodes, loser);
      nodes := (nodes - {loser})[survivor := Absorb(nodes[survivor], nodes[loser])];
      home := Rehome(home, loser, survivor);
    }

    method SetName(e: Entry)
      requires Distinct(nodes) && Held(nodes, e.cid)
      modifies this
      ensures Now() == Renamed(old(Now()), e)
    {
      var n :| n in nodes && nodes[n].cid == e.cid;
      assert Alone(nodes, n);
      nodes := nodes[n := nodes[n].(name := e.fixedName, cid := e.newCid)];
    }

    method ApplyEntry(e: Entry, fault: bool, counts: Counts) returns (r: Counts)
      requires Distinct(nodes) && Held(nodes, e.cid) && Fits(e)
      modifies this
      ensures Now() == Next(old(Now()), e, fault)
      ensures r == match OutcomeOf(old(Now()), e, fault)
                   case LeftAlone => counts.(unfixable := counts.unfixable + 1)
                   case Failed => counts.(errors := counts.errors + 1)
                   case DidMerge => counts.(merged := counts.merged + 1)
                   case DidRename => counts.(renamed := counts.renamed + 1)
    {
      if e.action == Unfixable {
        return counts.(unfixable := counts.unfixable + 1);
      }
      if fault {
        return counts.(errors := counts.errors + 1);
      }
      if e.action == RenameOrMerge {
        var taken := EntityExists(e.newCid);
        if taken {
          MergeEntities(e);
          return counts.(merged := counts.merged + 1);
        }
      }
      SetName(e);
      return counts.(renamed := counts.renamed + 1);
    }

    /** The run is a run of the specification, and the counts are its tallies. */
    method ApplyPlan(plan: seq<Entry>, faults: seq<bool>) returns (counts: Counts, ghost trace: seq<Store>)
      requires Initial(Now()) && PlanFor(plan, Now()) && |faults| == |plan|
      modifies this
      ensures IsRun(trace, plan, faults) && trace[0] == old(Now()) && trace[|plan|] == Now()
      ensures counts == TallyAll(trace, plan, faults, |plan|)
    {
      counts := Counts(0, 0, 0, 0);
      trace := [Now()];
      for k := 0 to |plan|
        invariant |trace| == k + 1 && trace[0] == old(Now()) && trace[k] == Now()
        invariant IsRun(trace, plan[..k], faults[..k])
        invariant counts == TallyAll(trace, plan[..k], faults[..k], k)
      {
        ghost var before, soFar := trace, counts;
        PlanPrefix(plan, k, trace[0]);
        PlanPrefix(plan, k + 1, trace[0]);
        RunReady(trace, plan, faults, k);
        counts := ApplyEntry(plan[k], faults[k], counts);
        trace := trace + [Now()];
        RunGrows(before, plan, faults, k, Now());
      }
      assert plan[..|plan|] == plan && faults[..|faults|] == faults;
    }
  }

  ghost function TallyAll(trace: seq<Store>, plan: seq<Entry>, faults: seq<bool>, k: nat): Counts
    requires k <= |plan| == |faults| && k <= |trace|
  {
    Counts(Tally(trace, plan, faults, k, DidRename), Tally(trace, plan, faults, k, DidMerge),
           Tally(trace, plan, faults, k, LeftAlone), Tally(trace, plan, faults, k, Failed))
  }

  lemma PlanPrefix(plan: seq<Entry>, k: nat, s: Store)
    requires PlanFor(plan, s) && k <= |plan|
    ensures PlanFor(plan[..k], s)
  {
    forall j | 0 <= j < k
      ensures Fits(plan[..k][j]) && Fresh(plan[..k], j)
    {
      assert Fits(plan[j]) && Fresh(plan, j);
    }
  }

  /** The store is ready for the entry whose turn it is. */
  lemma {:induction false} RunReady(trace: seq<Store>, plan: seq<Entry>, faults: seq<bool>, k: nat)
    requires k < |plan| == |faults| && IsRun(trace, plan[..k], faults[..k])
    requires Initial(trace[0]) && PlanFor(plan, trace[0]) && PlanFor(plan[..k], trace[0])
    ensures Distinct(trace[k].nodes) && Held(trace[k].nodes, plan[k].cid) && Fits(plan[k])
  {
    RunKeeps(trace, plan[..k], faults[..k], k);
    var s := trace[k];
    forall n
      ensures Stays(trace[0], plan, s, k, n)
    {
      assert Stays(trace[0], plan[..k], s, k, n);
      if n in trace[0].nodes && Pending(trace[0], plan, k, n) {
        assert Pending(trace[0], plan[..k], k, n);
      }
    }
    OwnerPending(trace[0], plan, s, k);
    assert Fits(plan[k]);
  }

  lemma {:induction false} TallyPrefix(trace: seq<Store>, plan: seq<Entry>, faults: seq<bool>, k: nat, more: seq<Store>, n: nat, o: Outcome)
    requires k <= n <= |plan| == |faults| && k <= |trace| && trace <= more
    ensures Tally(more, plan, faults, k, o) == Tally(trace, plan[..n], faults[..n], k, o)
  {
    if k > 0 {
      TallyPrefix(trace, plan, faults, k - 1, more, n, o);
    }
  }

  lemma {:induction false} RunGrows(trace: seq<Store>, plan: seq<Entry>, faults: seq<bool>, k: nat, s: Store)
    requires k < |plan| == |faults| && IsRun(trace, plan[..k], faults[..k])
    requires s == Next(trace[k], plan[k], faults[k])
    ensures IsRun(trace + [s], plan[..k + 1], faults[..k + 1])
    ensures forall o :: Tally(trace + [s], plan[..k + 1], faults[..k + 1], k + 1, o) ==
              Tally(trace, plan[..k], faults[..k], k, o) + if OutcomeOf(trace[k], plan[k], faults[k]) == o then 1 else 0
  {
    var more, later := trace + [s], k + 1;
    var soFar, faultsSoFar := plan[..later], faults[..later];
    forall j | 0 <= j < later
      ensures Turned(more, soFar, faultsSoFar, j)
    {
      if j < k {
        assert Turned(trace, plan[..k], faults[..k], j);
      }
    }
    forall o
      ensures Tally(more, plan[..later], faults[..later], later, o) ==
              Tally(trace, plan[..k], faults[..k], k, o) + if OutcomeOf(trace[k], plan[k], faults[k]) == o then 1 else 0
    {
      assert plan[..k + 1][..k] == plan[..k] && faults[..k + 1][..k] == faults[..k];
      TallyPrefix(trace, plan[..k + 1], faults[..k + 1], k, more, k, o);
    }
  }

  // ---- where a repaired entity ends ----

  /** The identifier of the node that stands for the owner of entry `k`. */
  ghost predicate EndsAt(before: Store, s: Store, e: Entry, cid: string)
    requires Held(before.nodes, e.cid)
  {
    var n := Owner(before, e);
    n in s.home && s.home[n] in s.nodes && s.nodes[s.home[n]].cid == cid
  }

  ghost predicate Repaired(before: Store, s: Store, e: Entry)
    requires Held(before.nodes, e.cid)
  {
    e.action != Unfixable ==> EndsAt(before, s, e, e.newCid)
  }

  /** Entry `j` is repaired to the identifier of a node that itself has a later entry and moves. */
  ghost predicate Detour(plan: seq<Entry>, j: nat, i: nat)
    requires j < i < |plan|
  {
    plan[j].action != Unfixable && plan[j].newCid == plan[i].cid && plan[i].newCid != plan[i].cid
  }

  ghost predicate HasDetour(plan: seq<Entry>) {
    exists j, i :: 0 <= j < i < |plan| && Detour(plan, j, i)
  }

  ghost predicate AllRepaired(before: Store, plan: seq<Entry>, s: Store, k: nat)
    requires PlanFor(plan, before) && k <= |plan|
  {
    forall j {:trigger Repaired(before, s, plan[j])} :: 0 <= j < k ==> Repaired(before, s, plan[j])
  }

  /** One turn keeps an earlier entry repaired, unless it moves the node that stands for it. */
  lemma TurnKeepsRepaired(before: Store, s: Store, r: Store, e: Entry, d: Entry)
    requires Kept(before, s) && Held(before.nodes, e.cid) && Held(before.nodes, d.cid) && Fits(e)
    requires Held(s.nodes, e.cid) && NodeOf(s.nodes, e.cid) == Owner(before, e)
    requires r == Next(s, e, false) && Repaired(before, s, d)
    requires d.action != Unfixable && d.newCid == e.cid ==> e.newCid == e.cid
    ensures Repaired(before, r, d)
  {
    if d.action != Unfixable {
      assert Alone(s.nodes, NodeOf(s.nodes, e.cid));
    }
  }

  lemma TurnRepairs(before: Store, s: Store, r: Store, e: Entry)
    requires Kept(before, s) && Held(before.nodes, e.cid) && Fits(e)
    requires Held(s.nodes, e.cid) && NodeOf(s.nodes, e.cid) == Owner(before, e)
    requires r == Next(s, e, false)
    ensures Repaired(before, r, e)
  {
    assert Homed(s, NodeOf(s.nodes, e.cid));
  }

  ghost predicate NoFaults(faults: seq<bool>) {
    forall k :: 0 <= k < |faults| ==> !faults[k]
  }

  lemma {:induction false} NoDetourRepairs(trace: seq<Store>, plan: seq<Entry>, faults: seq<bool>, k: nat)
    requires IsRun(trace, plan, faults) && Initial(trace[0]) && PlanFor(plan, trace[0]) && k <= |plan|
    requires NoFaults(faults) && !HasDetour(plan)
    ensures AllRepaired(trace[0], plan, trace[k], k)
  {
    if k > 0 {
      var before, s, r, e := trace[0], trace[k - 1], trace[k], plan[k - 1];
      NoDetourRepairs(trace, plan, faults, k - 1);
      RunKeeps(trace, plan, faults, k - 1);
      OwnerPending(before, plan, s, k - 1);
      assert Turned(trace, plan, faults, k - 1) && Fits(e);
      forall j | 0 <= j < k
        ensures Repaired(before, r, plan[j])
      {
        if j < k - 1 {
          assert !Detour(plan, j, k - 1);
          TurnKeepsRepaired(before, s, r, e, plan[j]);
        } else {
          TurnRepairs(before, s, r, e);
        }
      }
    }
  }

  /** Nodes that came to stand for the same node stay together. */
  lemma {:induction false} TogetherStays(trace: seq<Store>, plan: seq<Entry>, faults: seq<bool>, m: NodeId, n: NodeId, i: nat, k: nat)
    requires IsRun(trace, plan, faults) && i <= k <= |plan|
    requires m in trace[i].home && n in trace[i].home && trace[i].home[m] == trace[i].home[n]
    ensures m in trace[k].home && n in trace[k].home && trace[k].home[m] == trace[k].home[n]
  {
    if i < k {
      TogetherStays(trace, plan, faults, m, n, i, k - 1);
      assert Turned(trace, plan, faults, k - 1);
    }
  }

  lemma {:induction false} DetourJoins(trace: seq<Store>, plan: seq<Entry>, faults: seq<bool>, j: nat, i: nat)
    requires IsRun(trace, plan, faults) && Initial(trace[0]) && PlanFor(plan, trace[0])
    requires NoFaults(faults) && j < i < |plan| && Detour(plan, j, i)
    ensures var m, n := Owner(trace[0], plan[j]), Owner(trace[0], plan[i]);
            && m in trace[|plan|].home && n in trace[|plan|].home
            && trace[|plan|].home[m] == trace[|plan|].home[n]
  {
    var before, s, r, e := trace[0], trace[j], trace[j + 1], plan[j];
    var m, n := Owner(before, plan[j]), Owner(before, plan[i]);
    RunKeeps(trace, plan, faults, j);
    OwnerPending(before, plan, s, j);
    assert Fits(e) && Fresh(plan, i) && Turned(trace, plan, faults, j);
    assert Pending(before, plan, j, n);
    assert Stays(before, plan, s, j, n);
    assert Alone(s.nodes, n) && Homed(s, n) && Homed(s, m);
    assert NodeOf(s.nodes, e.newCid) == n;
    TogetherStays(trace, plan, faults, m, n, j + 1, |plan|);
  }

  /** In a run without exceptions, every repairable entity ends under the identifier its plan
      entry promises exactly when no entry is repaired to the identifier of a node whose own entry
      comes later and moves it. With such a detour the first entity is folded into a node that is
      not the correctly named twin, and moves away with it. */
  lemma {:induction false} RepairedUnlessDetour(trace: seq<Store>, plan: seq<Entry>, faults: seq<bool>)
    requires IsRun(trace, plan, faults) && Initial(trace[0]) && PlanFor(plan, trace[0]) && NoFaults(faults)
    ensures AllRepaired(trace[0], plan, trace[|plan|], |plan|) <==> !HasDetour(plan)
  {
    if HasDetour(plan) {
      var j, i :| 0 <= j < i < |plan| && Detour(plan, j, i);
      DetourJoins(trace, plan, faults, j, i);
      assert Fits(plan[i]);
      assert !Repaired(trace[0], trace[|plan|], plan[j]) || !Repaired(trace[0], trace[|plan|], plan[i]);
    } else {
      NoDetourRepairs(trace, plan, faults, |plan|);
    }
  }

  /** A planner run whose plan has a detour: "A" is repaired to the name and identifier of "B",
      which is itself repaired to "C". Every run of it leaves some entity elsewhere. */
  lemma {:induction false} DetourExample(trace: seq<Store>)
    ensures var f := Fixer(s => s == "A" || s == "B", s => if s == "A" then "B" else "C",
                           (name, kind) => if name == "B" then "t:b" else "t:c");
            var records := [Record("A", "t:a", "T"), Record("B", "t:b", "T")];
            var plan := [EntryFor(f, records[0]), EntryFor(f, records[1])];
            var store := Store(map[0 := Entity("t:a", "A", 1, {}), 1 := Entity("t:b", "B", 1, {})], map[0 := 0, 1 := 1]);
            && DistinctCids(records) && Affected(f, records[0]) && Affected(f, records[1])
            && Initial(store) && PlanFor(plan, store) && HasDetour(plan)
            && (IsRun(trace, plan, [false, false]) && trace[0] == store ==> !AllRepaired(store, plan, trace[2], 2))
  {
    var f := Fixer(s => s == "A" || s == "B", s => if s == "A" then "B" else "C",
                   (name, kind) => if name == "B" then "t:b" else "t:c");
    var records := [Record("A", "t:a", "T"), Record("B", "t:b", "T")];
    var plan := [EntryFor(f, records[0]), EntryFor(f, records[1])];
    var store := Store(map[0 := Entity("t:a", "A", 1, {}), 1 := Entity("t:b", "B", 1, {})], map[0 := 0, 1 := 1]);
    assert "t:a"[2] != "t:b"[2] && "t:b"[2] != "t:c"[2];
    assert plan == [Entry("t:a", "A", "B", "t:b", RenameOrMerge), Entry("t:b", "B", "C", "t:c", RenameOrMerge)];
    assert Detour(plan, 0, 1);
    forall k | 0 <= k < |plan|
      ensures Fits(plan[k]) && Fresh(plan, k)
    {
    }
    assert store.nodes[0].cid == "t:a" && store.nodes[1].cid == "t:b";
    assert Alone(store.nodes, 0) && Alone(store.nodes, 1);
    if IsRun(trace, plan, [false, false]) && trace[0] == store {
      RepairedUnlessDetour(trace, plan, [false, false]);
    }
  }

  // ---- the name of a survivor ----

  /** A merge keeps the survivor's name exactly when its identifier is no longer than the name;
      otherwise the readable name is overwritten by the identifier. */
  lemma SurvivorName(s: Store, e: Entry)
    requires Distinct(s.nodes) && Held(s.nodes, e.newCid) && Held(s.nodes, e.cid) && e.cid != e.newCid
    ensures var n := NodeOf(s.nodes, e.newCid);
            var kept, name := Merged(s, e).nodes[n].name, s.nodes[n].name;
            (kept == name <==> |e.newCid| <= |name|) && (kept != name ==> kept == e.newCid)
  {
  }

  /** A merge into the node named "Cafe" leaves it named by its identifier. */
  lemma SurvivorNameExample()
    ensures var twin, broken := Entity("other:cafe", "Cafe", 1, {}), Entity("other:caf", "Caf?", 1, {});
            var s := Store(map[0 := twin, 1 := broken], map[0 := 0, 1 := 1]);
            var e := Entry("other:caf", "Caf?", "Cafe", "other:cafe", RenameOrMerge);
            && Distinct(s.nodes) && Held(s.nodes, e.newCid)
            && Merged(s, e).nodes.Keys == {0} && Merged(s, e).nodes[0].name == "other:cafe"
  {
    var twin, broken := Entity("other:cafe", "Cafe", 1, {}), Entity("other:caf", "Caf?", 1, {});
    var s := Store(map[0 := twin, 1 := broken], map[0 := 0, 1 := 1]);
    assert |twin.cid| != |broken.cid|;
    assert s.nodes[0].cid == "other:cafe" && s.nodes[1].cid == "other:caf";
    assert Alone(s.nodes, 0) && Alone(s.nodes, 1);
  }
}
