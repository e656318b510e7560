/** The nearest-rank p95 of the freshness metrics, and what meeting a target means. */
module Percentile {

  /** How many of the values are at most `t`. */
  function CountAtMost(values: seq<real>, t: real): nat {
    if values == [] then 0 else (if values[0] <= t then 1 else 0) + CountAtMost(values[1..], t)
  }

  ghost predicate Ascending(s: seq<real>) { forall i, j :: 0 <= i < j < |s| ==> s[i] <= s[j] }

  function Insert(s: seq<real>, x: real): (r: seq<real>)
    ensures multiset(r) == multiset(s) + multiset{x}
  {
    if s == [] || x <= s[0] then [x] + s
    else
      assert s == [s[0]] + s[1..];
      [s[0]] + Insert(s[1..], x)
  }

  lemma {:induction false} InsertAscends(s: seq<real>, x: real)
    requires Ascending(s)
    ensures Ascending(Insert(s, x))
  {
    if s != [] && x > s[0] {
      InsertAscends(s[1..], x);
      var r := Insert(s[1..], x);
      forall i | 0 <= i < |r|
        ensures s[0] <= r[i]
      {
        assert r[i] in multiset(r);
        assert r[i] in multiset(s[1..]) || r[i] == x;
        assert r[i] in s[1..] || r[i] == x;
      }
    }
  }

  /** Python's `sorted`. */
  function Sort(values: seq<real>): (s: seq<real>)
    ensures multiset(s) == multiset(values) && |s| == |values|
  {
    if values == [] then []
    else
      assert values == [values[0]] + values[1..];
      var s := Insert(Sort(values[1..]), values[0]);
      assert |s| == |multiset(s)|;
      s
  }

  lemma {:induction false} SortAscends(values: seq<real>)
    ensures Ascending(Sort(values))
  {
    if values != [] {
      SortAscends(values[1..]);
      InsertAscends(Sort(values[1..]), values[0]);
    }
  }

  // ---- counting ----

  lemma {:induction false} CountInsert(s: seq<real>, x: real, t: real)
    ensures CountAtMost(Insert(s, x), t) == CountAtMost(s, t) + if x <= t then 1 else 0
  {
    if s == [] || x <= s[0] {
      assert ([x] + s)[1..] == s;
    } else {
      CountInsert(s[1..], x, t);
      var r := Insert(s[1..], x);
      assert ([s[0]] + r)[1..] == r;
    }
  }

  lemma {:induction false} CountSort(values: seq<real>, t: real)
    ensures CountAtMost(Sort(values), t) == CountAtMost(values, t)
  {
    if values != [] {
      CountSort(values[1..], t);
      CountInsert(Sort(values[1..]), values[0], t);
    }
  }

  lemma {:induction false} CountBound(s: seq<real>, t: real)
    ensures CountAtMost(s, t) <= |s|
    ensures (forall i :: 0 <= i < |s| ==> s[i] > t) ==> CountAtMost(s, t) == 0
  {
    if s != [] {
      CountBound(s[1..], t);
    }
  }

  /** In ascending order, the value at place `k` is at most `t` exactly when more than `k` are. */
  lemma {:induction false} RankMeaning(s: seq<real>, k: nat, t: real)
    requires Ascending(s) && k < |s|
    ensures s[k] <= t <==> CountAtMost(s, t) >= k + 1
  {
    if s[0] > t {
      CountBound(s, t);
    } else if k > 0 {
      RankMeaning(s[1..], k - 1, t);
    }
  }

  // ---- p95 ----

  /** How many of `n` values the target must cover. */
  function Rank(n: nat): (r: nat) { if 95 * n / 100 < 1 then 1 else 95 * n / 100 }

  function P95(values: seq<real>): (p: real)
    requires values != []
  {
    var ordered := Sort(values);
    var idx := 95 * |ordered| / 100 - 1;
    ordered[if idx < 0 then 0 else idx]
  }

  /** The metric is one of the values, and meets a target exactly when at least 95 percent of them,
      rounded down, and no fewer than one, do. */
  lemma P95Meaning(values: seq<real>, target: real)
    requires values != []
    ensures P95(values) in values
    ensures P95(values) <= target <==> CountAtMost(values, target) >= Rank(|values|)
  {
    var ordered := Sort(values);
    SortAscends(values);
    CountSort(values, target);
    RankMeaning(ordered, Rank(|values|) - 1, target);
    assert P95(values) == ordered[Rank(|values|) - 1];
    assert P95(values) in multiset(ordered);
  }

  /** In numbers: it meets a target exactly when at least one value does and, up to rounding, 95 of
      every 100. */
  lemma P95Numbers(values: seq<real>, target: real)
    requires values != []
    ensures P95(values) <= target <==>
            CountAtMost(values, target) >= 1 && 100 * CountAtMost(values, target) > 95 * |values| - 100
  {
    P95Meaning(values, target);
  }

  /** The metric does not depend on the order in which the values come. */
  lemma P95OrderFree(values: seq<real>, other: seq<real>)
    requires values != [] && multiset(values) == multiset(other)
    ensures other != [] && P95(values) == P95(other)
  {
    assert values[0] in multiset(other);
    assert |values| == |multiset(values)| == |multiset(other)| == |other|;
    var p, q := P95(values), P95(other);
    P95Meaning(values, p);
    P95Meaning(values, q);
    P95Meaning(other, p);
    P95Meaning(other, q);
    CountOrderFree(values, other, p);
    CountOrderFree(values, other, q);
  }

  lemma {:induction false} CountOrderFree(a: seq<real>, b: seq<real>, t: real)
    requires multiset(a) == multiset(b)
    ensures CountAtMost(a, t) == CountAtMost(b, t)
  {
    if a == [] {
      assert |multiset(b)| == 0;
    } else {
      assert a == [a[0]] + a[1..];
      assert a[0] in multiset(b);
      var i :| 0 <= i < |b| && b[i] == a[0];
      CountWithout(b, i, t);
      ElementsWithout(b, i);
      CountOrderFree(a[1..], b[..i] + b[i + 1..], t);
    }
  }

  lemma CountWithout(b: seq<real>, i: nat, t: real)
    requires i < |b|
    ensures CountAtMost(b, t) == CountAtMost(b[..i] + b[i + 1..], t) + if b[i] <= t then 1 else 0
  {
    var front, back := b[..i], b[i + 1..];
    assert b == front + ([b[i]] + back) && ([b[i]] + back)[1..] == back;
    CountAppend(front, back, t);
    CountAppend(front, [b[i]] + back, t);
  }

  lemma ElementsWithout(b: seq<real>, i: nat)
    requires i < |b|
    ensures multiset(b[..i] + b[i + 1..]) == multiset(b) - multiset{b[i]}
  {
    assert b == b[..i] + ([b[i]] + b[i + 1..]);
  }

  lemma {:induction false} CountAppend(a: seq<real>, b: seq<real>, t: real)
    ensures CountAtMost(a + b, t) == CountAtMost(a, t) + CountAtMost(b, t)
  {
    if a == [] {
      assert a + b == b;
    } else {
      assert (a + b)[1..] == a[1..] + b;
      CountAppend(a[1..], b, t);
    }
  }
}
