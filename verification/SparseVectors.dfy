/** Sparse vectors in real arithmetic: pooling over positions and the cosine of two vectors. */
module SparseVectors {
  import opened Reals

  type Vector = map<int, real>

  // ---- pooling per token id ----

  /** One document: token ids, attention mask and logits by position. */
  datatype Doc = Doc(ids: seq<int>, mask: seq<int>, logits: seq<real>) {
    predicate Shaped() { |ids| == |mask| == |logits| }

    /** Position `p` carries a positive weight for token `id`. */
    predicate Carries(p: nat, id: int, special: set<int>)
      requires Shaped()
    {
      p < |ids| && ids[p] == id && mask[p] != 0 && id !in special && logits[p] > 0.0
    }
  }

  /** The tokens of `v` are those the first `n` positions carry, each with its largest weight. */
  ghost predicate Pools(d: Doc, special: set<int>, n: nat, v: Vector)
    requires d.Shaped()
  {
    && (forall id :: id in v ==> exists p :: 0 <= p < n && d.Carries(p, id, special) && d.logits[p] == v[id])
    && (forall p, id :: 0 <= p < n && d.Carries(p, id, special) ==> id in v && d.logits[p] <= v[id])
  }

  method AggregateDoc(d: Doc, special: set<int>) returns (v: Vector)
    requires d.Shaped()
    ensures Pools(d, special, |d.ids|, v)
  {
    v := map[];
    for p := 0 to |d.ids|
      invariant Pools(d, special, p, v)
    {
      var id, weight := d.ids[p], if d.logits[p] > 0.0 then d.logits[p] else 0.0;
      if d.mask[p] == 0 || id in special || weight <= 0.0 {
        continue;
      }
      assert d.Carries(p, id, special);
      if id !in v || weight > v[id] {
        v := v[id := weight];
      }
    }
  }

  method AggregateSparse(docs: seq<Doc>, special: set<int>) returns (results: seq<Vector>)
    requires forall b :: 0 <= b < |docs| ==> docs[b].Shaped()
    ensures |results| == |docs|
    ensures forall b :: 0 <= b < |docs| ==> Pools(docs[b], special, |docs[b].ids|, results[b])
  {
    results := [];
    for b := 0 to |docs|
      invariant |results| == b
      invariant forall c :: 0 <= c < b ==> Pools(docs[c], special, |docs[c].ids|, results[c])
    {
      var v := AggregateDoc(docs[b], special);
      results := results + [v];
    }
  }

  /** The pooled vector is determined, and all its weights are positive. */
  lemma PoolsUnique(d: Doc, special: set<int>, v: Vector, w: Vector)
    requires d.Shaped() && Pools(d, special, |d.ids|, v) && Pools(d, special, |d.ids|, w)
    ensures v == w && Positive(v)
  {
    forall id | id in v
      ensures id in w && v[id] == w[id]
    {
      var p :| 0 <= p < |d.ids| && d.Carries(p, id, special) && d.logits[p] == v[id];
      var q :| 0 <= q < |d.ids| && d.Carries(q, id, special) && d.logits[q] == w[id];
    }
    forall id | id in w
      ensures id in v
    {
      var p :| 0 <= p < |d.ids| && d.Carries(p, id, special) && d.logits[p] == w[id];
    }
  }

  /** A token is in the vector exactly when some position has it, unmasked and not special, with a
      positive logit; and its weight is the largest of those. */
  lemma PoolsExactly(d: Doc, special: set<int>, v: Vector, id: int)
    requires d.Shaped() && Pools(d, special, |d.ids|, v)
    ensures id in v <==>
            id !in special && exists p :: 0 <= p < |d.ids| && d.ids[p] == id && d.mask[p] != 0 && d.logits[p] > 0.0
    ensures id in v ==> forall p :: 0 <= p < |d.ids| && d.ids[p] == id && d.mask[p] != 0 ==> d.logits[p] <= v[id]
  {
    if id in v {
      var q :| 0 <= q < |d.ids| && d.Carries(q, id, special) && d.logits[q] == v[id];
      forall p | 0 <= p < |d.ids| && d.ids[p] == id && d.mask[p] != 0
        ensures d.logits[p] <= v[id]
      {
        assert d.logits[p] > 0.0 ==> d.Carries(p, id, special);
      }
    }
    forall p | 0 <= p < |d.ids| && d.ids[p] == id && d.mask[p] != 0 && d.logits[p] > 0.0 && id !in special
      ensures id in v
    {
      assert d.Carries(p, id, special);
    }
  }

  // ---- the cosine ----

  predicate PositiveOn<K>(s: set<K>, a: map<K, real>)
    requires s <= a.Keys
  {
    forall k :: k in s ==> a[k] > 0.0
  }

  predicate Positive(v: Vector) { PositiveOn(v.Keys, v) }

  /** The sum of products over the tokens in `s`. */
  ghost function Dot<K>(s: set<K>, a: map<K, real>, b: map<K, real>): real
    requires s <= a.Keys && s <= b.Keys
  {
    if s == {} then 0.0
    else
      var t :| t in s;
      a[t] * b[t] + Dot(s - {t}, a, b)
  }

  lemma {:induction false} DotRemove<K>(s: set<K>, a: map<K, real>, b: map<K, real>, t: K)
    requires s <= a.Keys && s <= b.Keys && t in s
    ensures Dot(s, a, b) == a[t] * b[t] + Dot(s - {t}, a, b)
  {
    var u :| u in s && Dot(s, a, b) == a[u] * b[u] + Dot(s - {u}, a, b);
    if u != t {
      DotRemove(s - {u}, a, b, t);
      DotRemove(s - {t}, a, b, u);
      assert s - {u} - {t} == s - {t} - {u};
    }
  }

  lemma {:induction false} DotSymmetric<K>(s: set<K>, a: map<K, real>, b: map<K, real>)
    requires s <= a.Keys && s <= b.Keys
    ensures Dot(s, a, b) == Dot(s, b, a)
  {
    if s != {} {
      var t :| t in s;
      DotRemove(s, a, b, t);
      DotRemove(s, b, a, t);
      DotSymmetric(s - {t}, a, b);
    }
  }

  /** What holds of three empty sums, and is kept when one token adds its products, holds of the
      products of two vectors and of their squares. */
  lemma {:induction false} DotInduction<K>(s: set<K>, a: map<K, real>, b: map<K, real>,
                                           holds: (real, real, real) -> bool)
    requires s <= a.Keys && s <= b.Keys && holds(0.0, 0.0, 0.0) && Kept(holds)
    ensures holds(Dot(s, a, b), Dot(s, a, a), Dot(s, b, b))
  {
    if s != {} {
      var t :| t in s;
      var r := s - {t};
      DotInduction(r, a, b, holds);
      DotRemove(s, a, a, t);
      DotRemove(s, a, b, t);
      DotRemove(s, b, b, t);
      assert Adds(a[t], b[t], Dot(r, a, b), Dot(r, a, a), Dot(r, b, b), Dot(s, a, b), Dot(s, a, a), Dot(s, b, b));
    }
  }

  ghost predicate Kept(holds: (real, real, real) -> bool) {
    forall u, v, p, q, r, p', q', r' {:trigger Adds(u, v, p, q, r, p', q', r')} ::
      holds(p, q, r) && Adds(u, v, p, q, r, p', q', r') ==> holds(p', q', r')
  }

  /** Cauchy-Schwarz on one set of tokens. */
  lemma CauchySchwarzOn<K>(s: set<K>, a: map<K, real>, b: map<K, real>)
    requires s <= a.Keys && s <= b.Keys
    ensures Dominated(Dot(s, a, b), Dot(s, a, a), Dot(s, b, b))
  {
    forall u, v, p, q, r, p', q', r' | Dominated(p, q, r) && Adds(u, v, p, q, r, p', q', r')
      ensures Dominated(p', q', r')
    {
      DominatedSum(u, v, p, q, r, p', q', r');
    }
    DotInduction(s, a, b, Dominated);
  }

  lemma {:induction false} NormGrows<K>(s: set<K>, t: set<K>, a: map<K, real>)
    requires s <= t <= a.Keys
    ensures 0.0 <= Dot(s, a, a) <= Dot(t, a, a)
    decreases |t|
  {
    if t != {} {
      var k :| k in t && (k !in s || s == t);
      SquareSign(a[k]);
      DotRemove(t, a, a, k);
      NormGrows(s - {k}, t - {k}, a);
      if k in s {
        DotRemove(s, a, a, k);
      } else {
        assert s - {k} == s;
      }
    }
  }

  ghost function Norm2(a: Vector): real { Dot(a.Keys, a, a) }

  ghost function CommonDot(a: Vector, b: Vector): real { Dot(a.Keys * b.Keys, a, b) }

  /** Cauchy-Schwarz for two sparse vectors: the tokens they share against all they hold. */
  lemma CauchySchwarz(a: Vector, b: Vector)
    ensures Dominated(CommonDot(a, b), Norm2(a), Norm2(b))
  {
    var s := a.Keys * b.Keys;
    NormGrows(s, a.Keys, a);
    NormGrows(s, b.Keys, b);
    CauchySchwarzOn(s, a, b);
    DominatedGrows(Dot(s, a, b), Dot(s, a, a), Dot(s, b, b), Norm2(a), Norm2(b));
  }

  /** A square root, known by what it does on one number. */
  ghost predicate IsRoot(sqrt: real -> real, x: real) {
    x >= 0.0 ==> sqrt(x) >= 0.0 && sqrt(x) * sqrt(x) == x
  }

  ghost function Cosine(a: Vector, b: Vector, sqrt: real -> real): real {
    if a == map[] || b == map[] then 0.0
    else
      var na, nb := sqrt(Norm2(a)), sqrt(Norm2(b));
      if na == 0.0 || nb == 0.0 then 0.0 else Quotient(CommonDot(a, b), na, nb)
  }

  lemma CosineSymmetric(a: Vector, b: Vector, sqrt: real -> real)
    ensures Cosine(a, b, sqrt) == Cosine(b, a, sqrt)
  {
    DotSymmetric(a.Keys * b.Keys, a, b);
    assert a.Keys * b.Keys == b.Keys * a.Keys;
    var na, nb := sqrt(Norm2(a)), sqrt(Norm2(b));
    if na != 0.0 && nb != 0.0 {
      QuotientSwaps(CommonDot(a, b), na, nb);
    }
  }

  /** The cosine lies between -1 and 1, whatever the weights. */
  lemma CosineBounded(a: Vector, b: Vector, sqrt: real -> real)
    requires IsRoot(sqrt, Norm2(a)) && IsRoot(sqrt, Norm2(b))
    ensures -1.0 <= Cosine(a, b, sqrt) <= 1.0
  {
    CauchySchwarz(a, b);
    var na, nb := sqrt(Norm2(a)), sqrt(Norm2(b));
    if na != 0.0 && nb != 0.0 {
      QuotientBound(CommonDot(a, b), na, nb, Norm2(a), Norm2(b));
    }
  }

  lemma {:induction false} PositiveDot<K>(s: set<K>, a: map<K, real>, b: map<K, real>)
    requires s <= a.Keys && s <= b.Keys
    requires PositiveOn(s, a) && PositiveOn(s, b)
    ensures if s == {} then Dot(s, a, b) == 0.0 else Dot(s, a, b) > 0.0
  {
    if s != {} {
      var t :| t in s;
      DotRemove(s, a, b, t);
      PositiveDot(s - {t}, a, b);
      ProductSign(a[t], b[t]);
    }
  }

  /** For vectors of positive weights, as the pooling makes them, the cosine is positive exactly
      when the two share a token, and zero otherwise. */
  lemma CosinePositive(a: Vector, b: Vector, sqrt: real -> real)
    requires Positive(a) && Positive(b) && IsRoot(sqrt, Norm2(a)) && IsRoot(sqrt, Norm2(b))
    ensures Cosine(a, b, sqrt) > 0.0 <==> a.Keys * b.Keys != {}
    ensures Cosine(a, b, sqrt) >= 0.0
  {
    var s := a.Keys * b.Keys;
    if a != map[] && b != map[] {
      PositiveDot(s, a, b);
      PositiveDot(a.Keys, a, a);
      PositiveDot(b.Keys, b, b);
      assert a.Keys != {} && b.Keys != {};
      var na, nb := sqrt(Norm2(a)), sqrt(Norm2(b));
      assert na > 0.0 && nb > 0.0;
      QuotientSign(CommonDot(a, b), na, nb);
    } else {
      assert s == {};
    }
  }

  /** A vector of positive weights has cosine one with itself, unless it is empty. */
  lemma CosineSelf(a: Vector, sqrt: real -> real)
    requires Positive(a) && a != map[] && IsRoot(sqrt, Norm2(a))
    ensures Cosine(a, a, sqrt) == 1.0
  {
    assert a.Keys * a.Keys == a.Keys && a.Keys != {};
    PositiveDot(a.Keys, a, a);
    assert sqrt(Norm2(a)) != 0.0;
    QuotientOne(Norm2(a), sqrt(Norm2(a)));
  }

  lemma QuotientOne(x: real, root: real)
    requires x > 0.0 && root > 0.0 && root * root == x
    ensures Quotient(x, root, root) == 1.0
  {
    assert Quotient(x, root, root) == x / (root * root) == x / x;
  }
}
