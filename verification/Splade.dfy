/** The sparse weights of the sidecar: masked maximum over positions, log1p, and the top-k cut. */
module Splade {
  import opened Sums

  type Vector = map<nat, real>

  /** One document: logits by position and term, and its attention mask. */
  datatype Doc = Doc(logits: seq<seq<real>>, mask: seq<int>) {
    predicate Shaped(terms: nat) {
      && |logits| == |mask| > 0
      && (forall t :: 0 <= t < |logits| ==> |logits[t]| == terms)
    }

    /** A tokenizer's attention mask: ones for tokens, zeros for padding. */
    predicate Masked() { forall t :: 0 <= t < |mask| ==> mask[t] == 0 || mask[t] == 1 }
  }

  function Larger(x: real, y: real): real { if x < y then y else x }

  /** One logit after masking and the rectifier. */
  function Cell(logit: real, mask: int): real {
    Larger(logit * mask as real + (1.0 - mask as real) * -10000.0, 0.0)
  }

  /** The maximum over the first `n` positions of one term. */
  function MaxCell(d: Doc, terms: nat, id: nat, n: nat): real
    requires d.Shaped(terms) && id < terms && 0 < n <= |d.mask|
  {
    var cell := Cell(d.logits[n - 1][id], d.mask[n - 1]);
    if n == 1 then cell else Larger(MaxCell(d, terms, id, n - 1), cell)
  }

  function Pooled(d: Doc, terms: nat, id: nat): real
    requires d.Shaped(terms) && id < terms
  {
    MaxCell(d, terms, id, |d.mask|)
  }

  /** The weights of one document before the cut. */
  function Row(d: Doc, terms: nat, log1p: real -> real): (row: seq<real>)
    requires d.Shaped(terms)
  {
    seq(terms, id requires 0 <= id < terms => log1p(Pooled(d, terms, id)))
  }

  // ---- what a weight means ----

  /** `x` is the larger of zero and the largest logit of term `id` among the first `n` positions
      that the mask keeps. */
  ghost predicate LargestKept(d: Doc, terms: nat, id: nat, n: nat, x: real)
    requires d.Shaped(terms) && id < terms && n <= |d.mask|
  {
    && x >= 0.0
    && (forall t :: 0 <= t < n && d.mask[t] == 1 ==> d.logits[t][id] <= x)
    && (x == 0.0 || exists t :: 0 <= t < n && d.mask[t] == 1 && d.logits[t][id] == x)
  }

  lemma {:induction false} MaxCellMeaning(d: Doc, terms: nat, id: nat, n: nat)
    requires d.Shaped(terms) && d.Masked() && id < terms && 0 < n <= |d.mask|
    ensures LargestKept(d, terms, id, n, MaxCell(d, terms, id, n))
  {
    var logit, bit := d.logits[n - 1][id], d.mask[n - 1];
    assert Cell(logit, bit) == if bit == 1 then Larger(logit, 0.0) else 0.0;
    if n > 1 {
      MaxCellMeaning(d, terms, id, n - 1);
      var before := MaxCell(d, terms, id, n - 1);
      if before != 0.0 && before >= Cell(logit, bit) {
        var t :| 0 <= t < n - 1 && d.mask[t] == 1 && d.logits[t][id] == before;
        assert d.logits[t][id] == MaxCell(d, terms, id, n);
      }
    }
  }

  /** The rows of logits at the positions the mask keeps. */
  ghost function KeptRows(d: Doc, terms: nat): set<seq<real>>
    requires d.Shaped(terms)
  {
    set t | 0 <= t < |d.mask| && d.mask[t] == 1 :: d.logits[t]
  }

  /** A document with the same kept rows has the same largest kept logits. */
  lemma SameLargest(d: Doc, other: Doc, terms: nat, id: nat, x: real, y: real)
    requires d.Shaped(terms) && other.Shaped(terms) && id < terms
    requires KeptRows(d, terms) == KeptRows(other, terms)
    requires LargestKept(d, terms, id, |d.mask|, x) && LargestKept(other, terms, id, |other.mask|, y)
    ensures x <= y
  {
    if x != 0.0 {
      var t :| 0 <= t < |d.mask| && d.mask[t] == 1 && d.logits[t][id] == x;
      assert d.logits[t] in KeptRows(d, terms);
      var u :| 0 <= u < |other.mask| && other.mask[u] == 1 && other.logits[u] == d.logits[t];
    }
  }

  /** The weights depend on nothing but the kept rows: positions the mask drops, the order of the
      kept ones and their repetition do not matter. */
  lemma OnlyKeptMatter(d: Doc, other: Doc, terms: nat, log1p: real -> real)
    requires d.Shaped(terms) && other.Shaped(terms) && d.Masked() && other.Masked()
    requires KeptRows(d, terms) == KeptRows(other, terms)
    ensures Row(other, terms, log1p) == Row(d, terms, log1p)
  {
    forall id | 0 <= id < terms
      ensures Pooled(other, terms, id) == Pooled(d, terms, id)
    {
      var x, y := Pooled(d, terms, id), Pooled(other, terms, id);
      MaxCellMeaning(d, terms, id, |d.mask|);
      MaxCellMeaning(other, terms, id, |other.mask|);
      SameLargest(d, other, terms, id, x, y);
      SameLargest(other, d, terms, id, y, x);
    }
  }

  /** `more` is `d` with padding at the end, as in a batch. */
  ghost predicate Pads(d: Doc, more: Doc, terms: nat)
    requires d.Shaped(terms) && more.Shaped(terms)
  {
    && |d.mask| <= |more.mask|
    && (forall t :: 0 <= t < |d.mask| ==> more.mask[t] == d.mask[t] && more.logits[t] == d.logits[t])
    && (forall t :: |d.mask| <= t < |more.mask| ==> more.mask[t] == 0)
  }

  /** Padding never changes the weights. */
  lemma PaddingIrrelevant(d: Doc, more: Doc, terms: nat, log1p: real -> real)
    requires d.Shaped(terms) && more.Shaped(terms) && d.Masked() && Pads(d, more, terms)
    ensures Row(more, terms, log1p) == Row(d, terms, log1p)
  {
    OnlyKeptMatter(d, more, terms, log1p);
  }

  // ---- the cut ----

  /** `order` is a permutation of the indices of `vals` that puts `k` largest values first. */
  ghost predicate Partition(vals: seq<real>, k: nat, order: seq<nat>) {
    && Places(|vals|, order)
    && (forall i, j :: 0 <= i < k <= j < |order| ==> vals[order[i]] >= vals[order[j]])
  }

  ghost predicate Places(n: nat, order: seq<nat>) {
    && |order| == n
    && (forall i :: 0 <= i < n ==> order[i] < n)
    && Distinct(order)
    && (forall a: nat :: a < n ==> a in order)
  }

  ghost predicate Distinct(ids: seq<nat>) {
    forall i, j :: 0 <= i < j < |ids| ==> ids[i] != ids[j]
  }

  /** What NumPy promises of `argpartition` on the negated values. */
  ghost predicate Partitions(argpartition: (seq<real>, nat) -> seq<nat>) {
    forall vals: seq<real>, k: nat :: k < |vals| ==> Partition(vals, k, argpartition(vals, k))
  }

  /** The terms of `row` with a positive weight. */
  function Weighted(row: seq<real>): (ids: set<nat>) {
    set id: nat | id < |row| && row[id] > 0.0
  }

  /** `v` holds `topK` of the weighted terms of `row`, or all if there are no more than that, and
      none of those left out weighs more than one that is kept. */
  ghost predicate Top(row: seq<real>, topK: nat, v: Vector) {
    && v.Keys <= Weighted(row)
    && (forall id :: id in v ==> v[id] == row[id])
    && |v.Keys| == (if |Weighted(row)| <= topK then |Weighted(row)| else topK)
    && (forall id, other :: id in v && other in Weighted(row) && other !in v ==> row[other] <= row[id])
  }

  ghost predicate Lists(row: seq<real>, ids: seq<nat>) {
    && Distinct(ids)
    && |ids| == |Weighted(row)|
    && (forall id :: id in ids <==> id in Weighted(row))
  }

  /** The indices of the positive entries, ascending. */
  method Nonzero(row: seq<real>) returns (ids: seq<nat>)
    ensures Lists(row, ids)
    ensures forall i, j :: 0 <= i < j < |ids| ==> ids[i] < ids[j]
  {
    ids := [];
    for id := 0 to |row|
      invariant forall i :: 0 <= i < |ids| ==> ids[i] in Weighted(row) && ids[i] < id
      invariant forall i, j :: 0 <= i < j < |ids| ==> ids[i] < ids[j]
      invariant forall k :: k in Weighted(row) && k < id ==> k in ids
    {
      if row[id] > 0.0 {
        ids := ids + [id];
      }
    }
    DistinctCount(ids, Weighted(row));
  }

  lemma {:induction false} DistinctCount(ids: seq<nat>, s: set<nat>)
    requires Distinct(ids) && (forall k :: k in s <==> k in ids)
    ensures |ids| == |s|
  {
    if |ids| > 0 {
      var last := ids[|ids| - 1];
      var init := ids[..|ids| - 1];
      assert ids == init + [last];
      DistinctCount(init, s - {last});
    }
  }

  /** The entries of `ids` at the first `k` places of `order`. */
  function Pick(ids: seq<nat>, order: seq<nat>, k: nat): (kept: seq<nat>)
    requires k <= |order| == |ids| && forall i :: 0 <= i < |order| ==> order[i] < |ids|
    ensures |kept| == k && forall i :: 0 <= i < k ==> kept[i] == ids[order[i]]
  {
    if k == 0 then [] else Pick(ids, order, k - 1) + [ids[order[k - 1]]]
  }

  function Values(row: seq<real>, ids: seq<nat>): (vals: seq<real>)
    requires forall i :: 0 <= i < |ids| ==> ids[i] < |row|
    ensures |vals| == |ids| && forall i :: 0 <= i < |ids| ==> vals[i] == row[ids[i]]
  {
    if ids == [] then [] else [row[ids[0]]] + Values(row, ids[1..])
  }

  lemma PickDistinct(ids: seq<nat>, order: seq<nat>, k: nat)
    requires Distinct(ids) && Places(|ids|, order) && k <= |ids|
    ensures Distinct(Pick(ids, order, k))
  {
    var kept := Pick(ids, order, k);
    forall i, j | 0 <= i < j < k
      ensures kept[i] != kept[j]
    {
      assert order[i] != order[j];
    }
  }

  /** What is not picked stands at or after place `k`. */
  lemma Unpicked(ids: seq<nat>, order: seq<nat>, k: nat, other: nat) returns (j: nat)
    requires Places(|ids|, order) && k <= |ids|
    requires other in ids && other !in Pick(ids, order, k)
    ensures k <= j < |ids| && ids[order[j]] == other
  {
    var kept := Pick(ids, order, k);
    assert forall i :: 0 <= i < k ==> kept[i] in kept;
    var a :| 0 <= a < |ids| && ids[a] == other;
    assert a in order;
    j :| 0 <= j < |order| && order[j] == a;
    assert ids[order[j]] == other;
  }

  /** Picking by a partition leaves out nothing that weighs more than what it keeps. */
  lemma PickIsHeaviest(row: seq<real>, topK: nat, ids: seq<nat>, order: seq<nat>, id: nat, other: nat)
    requires topK < |ids| && forall i :: 0 <= i < |ids| ==> ids[i] < |row|
    requires Partition(Values(row, ids), topK, order)
    requires id in Pick(ids, order, topK) && other in ids && other !in Pick(ids, order, topK)
    ensures id < |row| && other < |row| && row[other] <= row[id]
  {
    var i :| 0 <= i < topK && Pick(ids, order, topK)[i] == id;
    var j := Unpicked(ids, order, topK, other);
    assert Values(row, ids)[order[i]] >= Values(row, ids)[order[j]];
  }

  lemma PickIsTop(row: seq<real>, topK: nat, ids: seq<nat>, order: seq<nat>, kept: seq<nat>, v: Vector)
    requires Lists(row, ids) && topK < |ids| && forall i :: 0 <= i < |ids| ==> ids[i] < |row|
    requires Partition(Values(row, ids), topK, order) && kept == Pick(ids, order, topK)
    requires v == map id | id in kept :: row[id]
    ensures Top(row, topK, v)
  {
    PickDistinct(ids, order, topK);
    DistinctCount(kept, v.Keys);
    forall id, other | id in v && other in Weighted(row) && other !in v
      ensures row[other] <= row[id]
    {
      PickIsHeaviest(row, topK, ids, order, id, other);
    }
  }

  method Prune(row: seq<real>, topK: nat, argpartition: (seq<real>, nat) -> seq<nat>) returns (v: Vector)
    requires Partitions(argpartition)
    ensures Top(row, topK, v)
  {
    var ids := Nonzero(row);
    forall i | 0 <= i < |ids|
      ensures ids[i] < |row|
    {
      assert ids[i] in Weighted(row);
    }
    if |ids| > topK {
      var vals := Values(row, ids);
      var cut := argpartition(vals, topK);
      assert Partition(vals, topK, cut);
      var kept := Pick(ids, cut, topK);
      v := map id | id in kept :: row[id];
      PickIsTop(row, topK, ids, cut, kept, v);
    } else {
      v := map id | id in ids :: row[id];
      assert v.Keys == Weighted(row);
    }
  }

  method SpladeFromLogits(docs: seq<Doc>, terms: nat, topK: nat, log1p: real -> real,
                          argpartition: (seq<real>, nat) -> seq<nat>)
    returns (out: seq<Vector>)
    requires forall b :: 0 <= b < |docs| ==> docs[b].Shaped(terms)
    requires Partitions(argpartition)
    ensures |out| == |docs|
    ensures forall b :: 0 <= b < |docs| ==> Top(Row(docs[b], terms, log1p), topK, out[b])
  {
    out := [];
    for b := 0 to |docs|
      invariant |out| == b
      invariant forall c :: 0 <= c < b ==> Top(Row(docs[c], terms, log1p), topK, out[c])
    {
      var v := Prune(Row(docs[b], terms, log1p), topK, argpartition);
      out := out + [v];
    }
  }

  // ---- what the output means ----

  /** `log1p`, known by its value at zero and its strict growth. */
  ghost predicate IsLog1p(log1p: real -> real) {
    log1p(0.0) == 0.0 && forall x: real, y: real :: 0.0 <= x < y ==> log1p(x) < log1p(y)
  }

  /** Some kept position gives term `id` a positive logit. */
  ghost predicate Fires(d: Doc, terms: nat, id: nat)
    requires d.Shaped(terms)
  {
    id < terms && exists t :: 0 <= t < |d.mask| && d.mask[t] == 1 && d.logits[t][id] > 0.0
  }

  /** The weighted terms are those that some kept position gives a positive logit. */
  lemma WeightedFires(d: Doc, terms: nat, log1p: real -> real, id: nat)
    requires d.Shaped(terms) && d.Masked() && IsLog1p(log1p)
    ensures id in Weighted(Row(d, terms, log1p)) <==> Fires(d, terms, id)
  {
    if id < terms {
      MaxCellMeaning(d, terms, id, |d.mask|);
      var x := Pooled(d, terms, id);
      assert Row(d, terms, log1p)[id] == log1p(x);
      assert x > 0.0 <==> log1p(x) > 0.0;
    }
  }

  /** Every term of the output weighs log1p of its largest kept logit, which is positive; and every
      term that some kept position fires is there, unless `topK` others are. */
  lemma OutputMeaning(d: Doc, terms: nat, topK: nat, log1p: real -> real, v: Vector)
    requires d.Shaped(terms) && d.Masked() && IsLog1p(log1p) && Top(Row(d, terms, log1p), topK, v)
    ensures forall id :: id in v ==> Fires(d, terms, id) && v[id] == log1p(Pooled(d, terms, id)) > 0.0
    ensures forall id :: id in v ==> LargestKept(d, terms, id, |d.mask|, Pooled(d, terms, id))
    ensures forall id :: Fires(d, terms, id) && id !in v ==> |v.Keys| == topK
  {
    forall id | id in v
      ensures Fires(d, terms, id) && v[id] == log1p(Pooled(d, terms, id)) > 0.0
      ensures LargestKept(d, terms, id, |d.mask|, Pooled(d, terms, id))
    {
      WeightedFires(d, terms, log1p, id);
      MaxCellMeaning(d, terms, id, |d.mask|);
    }
    forall id | Fires(d, terms, id) && id !in v
      ensures |v.Keys| == topK
    {
      WeightedFires(d, terms, log1p, id);
      if v.Keys < Weighted(Row(d, terms, log1p)) {
        SmallerSubset(v.Keys, Weighted(Row(d, terms, log1p)));
      }
    }
  }
}
