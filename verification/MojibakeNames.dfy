/** What a run of the mojibake repair does to each node, and the names its nodes end with. */
module MojibakeNames {
  import opened MojibakeRepair

  // ---- one turn ----

  /** Nothing changes but node `n`. */
  ghost predicate OnlyChanges(s: Store, r: Store, n: NodeId) {
    forall m :: m != n ==> (m in r.nodes <==> m in s.nodes) && (m in s.nodes ==> r.nodes[m] == s.nodes[m])
  }

  /** The node gets the repaired name and identifier, and keeps its mentions. */
  ghost predicate IsRenamed(s: Store, r: Store, n: NodeId, name: string, cid: string) {
    && n in s.nodes && n in r.nodes && OnlyChanges(s, r, n) && r.home == s.home
    && r.nodes[n] == Entity(cid, name, s.nodes[n].mentionCount, s.nodes[n].mentions)
  }

  /** Node `n` is gone, and the node with identifier `cid` has what it had besides its own. */
  ghost predicate IsMerged(s: Store, r: Store, n: NodeId, m: NodeId, cid: string) {
    && n in s.nodes && m in s.nodes && m != n && s.nodes[m].cid == cid
    && r.nodes.Keys == s.nodes.Keys - {n}
    && (forall o :: o in r.nodes && o != m ==> r.nodes[o] == s.nodes[o])
    && r.nodes[m].cid == cid
    && r.nodes[m].mentionCount == s.nodes[m].mentionCount + s.nodes[n].mentionCount
    && r.nodes[m].mentions == s.nodes[m].mentions + s.nodes[n].mentions
    && r.nodes[m].name == (if |cid| > |s.nodes[m].name| then cid else s.nodes[m].name)
  }

  /** What entry `k` of a run does, on the node it was planned for: nothing when it is unfixable or
      the store fails; else a merge into the node that has the repaired identifier, when it is
      another one and taken; else the repaired name and identifier. */
  lemma TurnExactly(trace: seq<Store>, plan: seq<Entry>, faults: seq<bool>, k: nat)
    requires IsRun(trace, plan, faults) && Initial(trace[0]) && PlanFor(plan, trace[0]) && k < |plan|
    ensures var s, r, e := trace[k], trace[k + 1], plan[k];
            var n := Owner(trace[0], e);
            && n in s.nodes && s.nodes[n].cid == e.cid
            && if e.action == Unfixable || faults[k] then r == s
               else if e.newCid != e.cid && Held(s.nodes, e.newCid) then exists m :: IsMerged(s, r, n, m, e.newCid)
               else IsRenamed(s, r, n, e.fixedName, e.newCid)
  {
    var s, r, e := trace[k], trace[k + 1], plan[k];
    var n := Owner(trace[0], e);
    RunKeeps(trace, plan, faults, k);
    ActsOnItsOwn(trace, plan, faults, k);
    assert Turned(trace, plan, faults, k) && Fits(e);
    assert NodeOf(s.nodes, e.cid) == n;
    if e.action != Unfixable && !faults[k] && e.newCid != e.cid && Held(s.nodes, e.newCid) {
      assert IsMerged(s, r, n, NodeOf(s.nodes, e.newCid), e.newCid);
    }
  }

  // ---- over the run ----

  /** Entry `j` merges its node into node `n`. */
  ghost predicate MergesInto(trace: seq<Store>, plan: seq<Entry>, faults: seq<bool>, j: nat, n: NodeId)
    requires j < |plan| == |faults| && |trace| == |plan| + 1
  {
    && plan[j].action != Unfixable && !faults[j] && plan[j].newCid != plan[j].cid
    && n in trace[j].nodes && trace[j].nodes[n].cid == plan[j].newCid
  }

  ghost predicate MergedInto(trace: seq<Store>, plan: seq<Entry>, faults: seq<bool>, from: nat, to: nat, n: NodeId)
    requires to <= |plan| == |faults| && |trace| == |plan| + 1
  {
    exists j :: from <= j < to && MergesInto(trace, plan, faults, j, n)
  }

  /** No entry from `from` on does anything to node `n` as its own. */
  ghost predicate NotMoved(before: Store, plan: seq<Entry>, faults: seq<bool>, from: nat, n: NodeId)
    requires PlanFor(plan, before) && |plan| == |faults|
  {
    forall j :: from <= j < |plan| ==> Idle(before, plan, faults, j, n)
  }

  ghost predicate Idle(before: Store, plan: seq<Entry>, faults: seq<bool>, j: nat, n: NodeId)
    requires PlanFor(plan, before) && j < |plan| == |faults|
  {
    Owner(before, plan[j]) != n || plan[j].action == Unfixable || faults[j]
  }

  lemma TurnOnOther(trace: seq<Store>, plan: seq<Entry>, faults: seq<bool>, j: nat, n: NodeId)
    requires IsRun(trace, plan, faults) && Initial(trace[0]) && PlanFor(plan, trace[0]) && j < |plan|
    requires n in trace[j].nodes && Idle(trace[0], plan, faults, j, n)
    ensures n in trace[j + 1].nodes
    ensures var was, now := trace[j].nodes[n], trace[j + 1].nodes[n];
            if MergesInto(trace, plan, faults, j, n) then now.cid == was.cid && now.name == MergedName(was.name, was.cid)
            else now == was
  {
    TurnExactly(trace, plan, faults, j);
    RunKeeps(trace, plan, faults, j);
    assert Alone(trace[j].nodes, n);
  }

  /** A node whose own entry is done, or that has none, stays, under its identifier. It keeps its
      name unless another node is merged into it, and then it keeps the longer of name and
      identifier, however many are. */
  lemma {:induction false} NameKept(trace: seq<Store>, plan: seq<Entry>, faults: seq<bool>, n: NodeId, k: nat, i: nat)
    requires IsRun(trace, plan, faults) && Initial(trace[0]) && PlanFor(plan, trace[0]) && k <= i <= |plan|
    requires n in trace[k].nodes && NotMoved(trace[0], plan, faults, k, n)
    ensures n in trace[i].nodes
    ensures var was, now := trace[k].nodes[n], trace[i].nodes[n];
            if MergedInto(trace, plan, faults, k, i, n)
            then now.cid == was.cid && now.name == (if |was.cid| > |was.name| then was.cid else was.name)
            else now == was
  {
    assert |plan| == |faults| && |trace| == |plan| + 1;
    hide IsRun, Initial, PlanFor, Idle;
    if k < i {
      NameKept(trace, plan, faults, n, k, i - 1);
      TurnOnOther(trace, plan, faults, i - 1, n);
      if MergesInto(trace, plan, faults, i - 1, n) {
        assert MergedInto(trace, plan, faults, k, i, n);
      }
      if MergedInto(trace, plan, faults, k, i - 1, n) {
        var j :| k <= j < i - 1 && MergesInto(trace, plan, faults, j, n);
        assert MergedInto(trace, plan, faults, k, i, n);
      }
    }
  }

  lemma OneEntryEach(before: Store, plan: seq<Entry>, j: nat, k: nat)
    requires PlanFor(plan, before) && j < k < |plan|
    ensures Owner(before, plan[j]) != Owner(before, plan[k])
  {
    assert Fresh(plan, k);
  }

  /** An entity that is renamed ends with its repaired name and identifier, unless another is merged
      into it later, when it keeps the longer of the two as its name. */
  lemma {:induction false} RenamedName(trace: seq<Store>, plan: seq<Entry>, faults: seq<bool>, k: nat)
    requires IsRun(trace, plan, faults) && Initial(trace[0]) && PlanFor(plan, trace[0]) && k < |plan|
    requires plan[k].action != Unfixable && !faults[k]
    requires plan[k].newCid == plan[k].cid || !Held(trace[k].nodes, plan[k].newCid)
    ensures var n, e := Owner(trace[0], plan[k]), plan[k];
            && n in trace[|plan|].nodes && trace[|plan|].nodes[n].cid == e.newCid
            && trace[|plan|].nodes[n].name ==
               if MergedInto(trace, plan, faults, k + 1, |plan|, n) && |e.newCid| > |e.fixedName| then e.newCid else e.fixedName
  {
    var n := Owner(trace[0], plan[k]);
    TurnExactly(trace, plan, faults, k);
    forall j | k < j < |plan|
      ensures Idle(trace[0], plan, faults, j, n)
    {
      OneEntryEach(trace[0], plan, k, j);
    }
    NameKept(trace, plan, faults, n, k + 1, |plan|);
  }

  /** An unfixable entity, or one whose repair fails, is left as it was, with the same exception. */
  lemma {:induction false} UnrepairedName(trace: seq<Store>, plan: seq<Entry>, faults: seq<bool>, k: nat)
    requires IsRun(trace, plan, faults) && Initial(trace[0]) && PlanFor(plan, trace[0]) && k < |plan|
    requires plan[k].action == Unfixable || faults[k]
    ensures var n := Owner(trace[0], plan[k]);
            && n in trace[|plan|].nodes && trace[|plan|].nodes[n].cid == plan[k].cid
            && (!MergedInto(trace, plan, faults, 0, |plan|, n) ==> trace[|plan|].nodes[n] == trace[0].nodes[n])
  {
    var n := Owner(trace[0], plan[k]);
    forall j | 0 <= j < |plan|
      ensures Idle(trace[0], plan, faults, j, n)
    {
      if j < k {
        OneEntryEach(trace[0], plan, j, k);
      } else if k < j {
        OneEntryEach(trace[0], plan, k, j);
      }
    }
    NameKept(trace, plan, faults, n, 0, |plan|);
  }

  // ---- the planner ----

  /** An entry of a plan comes from a record with a name that looks wrong: the name it promises is
      the record's name fixed, and the identifier the slug of that and the type. */
  lemma PlannedEntry(f: Fixer, records: seq<Record>, plan: seq<Entry>, e: Entry) returns (r: Record)
    requires Planned(f, records, plan) && e in plan
    ensures r in records && r.name != "" && r.cid != "" && f.looks(r.name)
    ensures e.cid == r.cid && e.name == r.name && e.fixedName == f.fix(r.name)
    ensures e.action == Unfixable <==> f.fix(r.name) == r.name
    ensures e.newCid == if f.fix(r.name) == r.name then r.cid
                        else f.slug(f.fix(r.name), if r.entityType != "" then r.entityType else "OTHER")
  {
    var i :| 0 <= i < |records| && Affected(f, records[i]) && e == EntryFor(f, records[i]);
    r := records[i];
  }

  /** And every such record has one. */
  lemma RecordPlanned(f: Fixer, records: seq<Record>, plan: seq<Entry>, r: Record)
    requires Planned(f, records, plan) && r in records && r.name != "" && r.cid != "" && f.looks(r.name)
    ensures exists e :: e in plan && e.cid == r.cid && e.name == r.name
  {
    var i :| 0 <= i < |records| && records[i] == r;
    assert Affected(f, records[i]);
    assert EntryFor(f, records[i]) in plan;
  }

  // ---- the counts ----

  function Unfixables(plan: seq<Entry>): nat {
    if plan == [] then 0
    else Unfixables(plan[..|plan| - 1]) + if plan[|plan| - 1].action == Unfixable then 1 else 0
  }

  function Faulty(plan: seq<Entry>, faults: seq<bool>): nat
    requires |plan| == |faults|
  {
    if plan == [] then 0
    else
      var n := |plan| - 1;
      Faulty(plan[..n], faults[..n]) + if plan[n].action != Unfixable && faults[n] then 1 else 0
  }

  /** The unfixable entries are counted as such whatever the store does, and the errors are the
      faults on the others. */
  lemma {:induction false} CountsExactly(trace: seq<Store>, plan: seq<Entry>, faults: seq<bool>, k: nat)
    requires k <= |plan| == |faults| && k <= |trace|
    ensures Tally(trace, plan, faults, k, LeftAlone) == Unfixables(plan[..k])
    ensures Tally(trace, plan, faults, k, Failed) == Faulty(plan[..k], faults[..k])
  {
    if k > 0 {
      CountsExactly(trace, plan, faults, k - 1);
      assert plan[..k][..k - 1] == plan[..k - 1] && faults[..k][..k - 1] == faults[..k - 1];
    }
  }
}
