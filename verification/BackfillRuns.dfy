/** Repeated runs of the backfill, each with its own limit, in which links may fail. */
module BackfillRuns {
  import opened Text
  import opened ChromaScan
  import opened SourceBackfill

  /** How one run goes: its limit, and the edges whose link raises. */
  datatype Attempt = Attempt(limit: Option<int>, fails: Edge -> bool)

  ghost predicate RunAt(found: Found, attempts: seq<Attempt>, trace: seq<Graph>, creates: seq<seq<Edge>>, i: nat)
    requires i < |attempts| == |creates| && |trace| == |creates| + 1
  {
    && Creates(found, trace[i], attempts[i].limit, creates[i])
    && trace[i + 1] == AfterRun(trace[i], Succeeding(creates[i], attempts[i].fails))
  }

  /** The graphs of successive runs, and the edges each one planned. */
  ghost predicate Runs(found: Found, attempts: seq<Attempt>, trace: seq<Graph>, creates: seq<seq<Edge>>) {
    && |creates| == |attempts| && |trace| == |creates| + 1
    && forall i {:trigger RunAt(found, attempts, trace, creates, i)} ::
         0 <= i < |attempts| ==> RunAt(found, attempts, trace, creates, i)
  }

  /** The edges made in the first `i` runs. */
  ghost function Made(attempts: seq<Attempt>, creates: seq<seq<Edge>>, i: nat): set<Edge>
    requires i <= |attempts| == |creates|
  {
    if i == 0 then {} else Made(attempts, creates, i - 1) + Succeeding(creates[i - 1], attempts[i - 1].fails)
  }

  /** Whatever the limits and the failures, any number of runs is one run that makes what they made,
      and leaves the rest of what was to be made. */
  lemma {:induction false} ManyRuns(found: Found, attempts: seq<Attempt>, trace: seq<Graph>, creates: seq<seq<Edge>>,
                                    i: nat)
    requires Runs(found, attempts, trace, creates) && i <= |attempts|
    ensures var made := Made(attempts, creates, i);
            && made <= Remaining(found, trace[0])
            && Remaining(found, trace[i]) == Remaining(found, trace[0]) - made
            && (i > 0 ==> trace[i] == AfterRun(trace[0], made))
  {
    hide Remaining, Recomputed;
    if i > 0 {
      ManyRuns(found, attempts, trace, creates, i - 1);
      assert RunAt(found, attempts, trace, creates, i - 1);
      var before, more := Made(attempts, creates, i - 1), Succeeding(creates[i - 1], attempts[i - 1].fails);
      RunLeaves(found, trace[i - 1], attempts[i - 1].limit, creates[i - 1], more);
      if i == 1 {
        assert before + more == more;
      } else {
        AfterTwo(trace[0], before, more);
      }
    }
  }

  lemma AfterTwo(g: Graph, made: set<Edge>, more: set<Edge>)
    ensures AfterRun(AfterRun(g, made), more) == AfterRun(g, made + more)
  {
    assert g.edges + made + more == g.edges + (made + more);
    RecomputeTwice(g, g.edges + made, g.edges + (made + more));
  }

  /** The link of `e` succeeds in one of the first `i` runs. */
  ghost predicate SucceedsOnce(attempts: seq<Attempt>, e: Edge, i: nat)
    requires i <= |attempts|
  {
    exists j :: 0 <= j < i && !attempts[j].fails(e)
  }

  ghost predicate Unlimited(attempts: seq<Attempt>) {
    forall j :: 0 <= j < |attempts| ==> attempts[j].limit == None
  }

  /** Unlimited runs make exactly the edges whose link succeeds in one of them. */
  lemma {:induction false} UnlimitedMake(found: Found, attempts: seq<Attempt>, trace: seq<Graph>,
                                         creates: seq<seq<Edge>>, i: nat)
    requires Runs(found, attempts, trace, creates) && Unlimited(attempts) && i <= |attempts|
    ensures Made(attempts, creates, i) == set e | e in Remaining(found, trace[0]) && SucceedsOnce(attempts, e, i)
  {
    hide Remaining, Recomputed, SucceedsOnce, Succeeding;
    if i == 0 {
      NoRunYet(attempts);
    } else {
      var j := i - 1;
      UnlimitedMake(found, attempts, trace, creates, j);
      ManyRuns(found, attempts, trace, creates, j);
      assert RunAt(found, attempts, trace, creates, j);
      UnlimitedCreatesAll(found, trace[j], creates[j]);
      OneMore(attempts, Remaining(found, trace[0]), creates[j], j);
    }
  }

  lemma NoRunYet(attempts: seq<Attempt>)
    ensures forall e :: !SucceedsOnce(attempts, e, 0)
  {
  }

  lemma OneMore(attempts: seq<Attempt>, all: set<Edge>, create: seq<Edge>, j: nat)
    requires j < |attempts| && Elements(create) == all - set e | e in all && SucceedsOnce(attempts, e, j)
    ensures (set e | e in all && SucceedsOnce(attempts, e, j)) + Succeeding(create, attempts[j].fails)
         == set e | e in all && SucceedsOnce(attempts, e, j + 1)
  {
    forall e
      ensures SucceedsOnce(attempts, e, j + 1) <==> SucceedsOnce(attempts, e, j) || !attempts[j].fails(e)
    {
    }
    forall e
      ensures e in create <==> e in all && !SucceedsOnce(attempts, e, j)
    {
      assert e in Elements(create) <==> e in create;
    }
  }

  /** Unlimited runs with failing links converge: nothing remains exactly when every edge's link has
      succeeded once, and then the graph is the one a single run without failures leaves. */
  lemma FailuresConverge(found: Found, attempts: seq<Attempt>, trace: seq<Graph>, creates: seq<seq<Edge>>,
                         i: nat, all: seq<Edge>)
    requires Runs(found, attempts, trace, creates) && Unlimited(attempts) && 0 < i <= |attempts|
    requires Creates(found, trace[0], None, all)
    ensures Remaining(found, trace[i]) == {} <==>
            forall e :: e in Remaining(found, trace[0]) ==> SucceedsOnce(attempts, e, i)
    ensures Remaining(found, trace[i]) == {} ==> trace[i] == Applied(trace[0], all)
  {
    hide Remaining, Recomputed, SucceedsOnce;
    ManyRuns(found, attempts, trace, creates, i);
    UnlimitedMake(found, attempts, trace, creates, i);
    UnlimitedCreatesAll(found, trace[0], all);
    var left := Remaining(found, trace[0]) - Made(attempts, creates, i);
    forall e | e in Remaining(found, trace[0]) && !SucceedsOnce(attempts, e, i)
      ensures e in left
    {
    }
    if left == {} {
      assert Made(attempts, creates, i) == Elements(all);
    }
  }

  /** Limited runs do not: when the links of the first `k` edges of the listing keep failing, they
      are tried again in every run, and the rest never is. */
  lemma {:induction false} LimitedStarve(found: Found, attempts: seq<Attempt>, trace: seq<Graph>,
                                         creates: seq<seq<Edge>>, s: seq<Edge>, k: nat, i: nat)
    requires Runs(found, attempts, trace, creates) && i <= |attempts|
    requires Lists(s, Remaining(found, trace[0])) && k <= |s|
    requires forall j :: 0 <= j < |attempts| ==> attempts[j].limit == Some(k) && forall e :: e in s[..k] ==> attempts[j].fails(e)
    ensures Made(attempts, creates, i) == {} && Remaining(found, trace[i]) == Remaining(found, trace[0])
  {
    hide Remaining, Recomputed;
    ManyRuns(found, attempts, trace, creates, i);
    if i > 0 {
      var j := i - 1;
      LimitedStarve(found, attempts, trace, creates, s, k, j);
      assert RunAt(found, attempts, trace, creates, j);
      var t :| Lists(t, Remaining(found, trace[j])) && creates[j] == Cut(t, Some(k));
      ListingUnique(t, s, Remaining(found, trace[j]));
      assert creates[j] == s[..k];
      assert Succeeding(creates[j], attempts[j].fails) == {};
    }
  }
}
