/**
 The scan of the vector store: every chunk's metadata, page by page, collapsed to one record
 per artifact.
 */
module ChromaScan {
  import opened Text

  /** A chunk's metadata with its values stripped and missing ones empty, or something else. */
  datatype Row = NotADict | Meta(artifactId: string, sourceId: string, clientSource: string, sourceType: string)

  datatype Rec = Rec(sourceId: string, clientSource: string, sourceType: string)

  type Found = map<string, Rec>

  /** The first value that is not empty wins. */
  function Keep(first: string, next: string): string {
    if first == "" then next else first
  }

  function Absorb(out: Found, row: Row): Found {
    if row.NotADict? || row.artifactId == "" then out
    else
      var rec := if row.artifactId in out then out[row.artifactId] else Rec("", "", "");
      out[row.artifactId := Rec(Keep(rec.sourceId, row.sourceId), Keep(rec.clientSource, row.clientSource),
                                Keep(rec.sourceType, row.sourceType))]
  }

  function AbsorbAll(out: Found, rows: seq<Row>): Found {
    if rows == [] then out else Absorb(AbsorbAll(out, rows[..|rows| - 1]), rows[|rows| - 1])
  }

  lemma {:induction false} AbsorbSplit(out: Found, a: seq<Row>, b: seq<Row>)
    ensures AbsorbAll(out, a + b) == AbsorbAll(AbsorbAll(out, a), b)
  {
    if b == [] {
      assert a + b == a;
    } else {
      assert (a + b)[..|a + b| - 1] == a + b[..|b| - 1];
      AbsorbSplit(out, a, b[..|b| - 1]);
    }
  }

  // ---- the result, said directly ----

  predicate RowOf(row: Row, id: string) { row.Meta? && row.artifactId == id }

  /** The first non-empty value of a field among the rows of an artifact, or empty. */
  function First(rows: seq<Row>, id: string, field: Row -> string): string {
    if rows == [] then ""
    else
      var last := rows[|rows| - 1];
      Keep(First(rows[..|rows| - 1], id, field), if RowOf(last, id) then field(last) else "")
  }

  function SourceField(r: Row): string { if r.Meta? then r.sourceId else "" }

  function ClientField(r: Row): string { if r.Meta? then r.clientSource else "" }

  function TypeField(r: Row): string { if r.Meta? then r.sourceType else "" }

  ghost predicate Mentioned(rows: seq<Row>, id: string) {
    id != "" && exists i :: 0 <= i < |rows| && RowOf(rows[i], id)
  }

  /** The records are those of the artifacts some row names, each with its first non-empty values. */
  lemma {:induction false} ScanMeaning(rows: seq<Row>, id: string)
    ensures var out := AbsorbAll(map[], rows);
            && (id in out <==> Mentioned(rows, id))
            && (id in out ==> out[id] == Rec(First(rows, id, SourceField), First(rows, id, ClientField),
                                             First(rows, id, TypeField)))
    ensures !Mentioned(rows, id) && id != "" ==>
              First(rows, id, SourceField) == "" && First(rows, id, ClientField) == "" && First(rows, id, TypeField) == ""
  {
    if rows != [] {
      var init, last := rows[..|rows| - 1], rows[|rows| - 1];
      ScanMeaning(init, id);
      if Mentioned(init, id) {
        var i :| 0 <= i < |init| && RowOf(init[i], id);
        assert RowOf(rows[i], id);
      }
    }
  }

  /** A value of `First` is the value of some row, and no earlier row of the artifact has one. */
  lemma {:induction false} FirstIsFirst(rows: seq<Row>, id: string, field: Row -> string) returns (i: nat)
    requires First(rows, id, field) != ""
    ensures i < |rows| && RowOf(rows[i], id) && First(rows, id, field) == field(rows[i])
    ensures forall j :: 0 <= j < i && RowOf(rows[j], id) ==> field(rows[j]) == ""
  {
    var init := rows[..|rows| - 1];
    if First(init, id, field) != "" {
      i := FirstIsFirst(init, id, field);
    } else {
      i := |rows| - 1;
      forall j | 0 <= j < i && RowOf(rows[j], id)
        ensures field(rows[j]) == ""
      {
        NoFirst(init, id, field, j);
      }
    }
  }

  lemma {:induction false} NoFirst(rows: seq<Row>, id: string, field: Row -> string, j: nat)
    requires First(rows, id, field) == "" && j < |rows| && RowOf(rows[j], id)
    ensures field(rows[j]) == ""
  {
    if j < |rows| - 1 {
      NoFirst(rows[..|rows| - 1], id, field, j);
    }
  }

  // ---- the pages ----

  /** A collection that cannot be opened, or its rows and the offset from which reading fails. */
  datatype Collection = Unavailable | Open(rows: seq<Row>, failsFrom: Option<nat>)

  /** `coll.get(limit, offset)`: None where it raises. */
  function GetPage(c: Collection, limit: nat, offset: nat): Option<seq<Row>>
    requires c.Open?
  {
    if c.failsFrom.Some? && offset >= c.failsFrom.value then None
    else if offset >= |c.rows| then Some([])
    else Some(if offset + limit <= |c.rows| then c.rows[offset..offset + limit] else c.rows[offset..])
  }

  /** How many rows the pages of a collection hold before the first page that fails, which begins at
      the first multiple of the page size not below the failing offset. */
  function RowsRead(c: Collection, page: nat): (n: nat)
    requires c.Open? && page > 0
    ensures n <= |c.rows|
  {
    var stop := if c.failsFrom == None then |c.rows| else RoundUp(c.failsFrom.value, page);
    if stop <= |c.rows| then stop else |c.rows|
  }

  function RoundUp(x: nat, page: nat): nat
    requires page > 0
  {
    (x + page - 1) / page * page
  }

  /** The pages begin at the multiples of the page size. */
  lemma PageStart(q: nat, page: nat, x: nat)
    requires page > 0
    ensures q * page >= x && (q == 0 || (q - 1) * page < x) ==> RoundUp(x, page) == q * page
    ensures q * page < x ==> RoundUp(x, page) >= (q + 1) * page
  {
    var d := (x + page - 1) / page;
    DivisionBounds(x + page - 1, page);
    assert d * page <= x + page - 1 < (d + 1) * page;
    if d < q {
      Multiples(d + 1, q, page);
      assert x + page - 1 < q * page;
    }
    if q < d {
      Multiples(q + 1, d, page);
    }
  }

  lemma DivisionBounds(x: nat, page: nat)
    requires page > 0
    ensures x / page * page <= x < (x / page + 1) * page
  {
    assert x == x / page * page + x % page;
  }

  lemma Multiples(a: nat, b: nat, page: nat)
    requires a <= b
    ensures a * page <= b * page
  {
  }

  /** The paging loop of one collection, which also counts the rows it has seen. Whatever the page
      size, it takes in a prefix of the rows once each, in order; the whole collection when no read
      fails. */
  method ScanCollection(c: Collection, page: nat, out: Found) returns (r: Found, n: nat)
    requires c.Open? && page > 0
    ensures n == RowsRead(c, page) && r == AbsorbAll(out, c.rows[..n])
    ensures c.failsFrom == None ==> n == |c.rows|
  {
    r := out;
    n := 0;
    var offset := 0;
    ghost var q := 0;
    while true
      invariant offset == q * page && offset <= |c.rows| && n == offset && r == AbsorbAll(out, c.rows[..offset])
      invariant c.failsFrom.Some? ==> q == 0 || (q - 1) * page < c.failsFrom.value
      decreases |c.rows| - offset
    {
      if c.failsFrom.Some? {
        PageStart(q, page, c.failsFrom.value);
      }
      assert (q + 1) * page == offset + page && (q + 1 - 1) * page == q * page;
      var batch := GetPage(c, page, offset);
      if batch == None || batch.value == [] {
        break;
      }
      var rows := batch.value;
      r := AbsorbPage(out, c, offset, rows, r);
      n := offset + |rows|;
      if |rows| < page {
        break;
      }
      offset := offset + page;
      q := q + 1;
    }
  }

  /** The loop over the rows of one page. */
  method AbsorbPage(out: Found, c: Collection, offset: nat, rows: seq<Row>, before: Found) returns (r: Found)
    requires c.Open? && offset + |rows| <= |c.rows| && rows == c.rows[offset..offset + |rows|]
    requires before == AbsorbAll(out, c.rows[..offset])
    ensures r == AbsorbAll(out, c.rows[..offset + |rows|])
  {
    r := before;
    for k := 0 to |rows|
      invariant r == AbsorbAll(before, rows[..k])
    {
      assert rows[..k + 1][..k] == rows[..k];
      r := Absorb(r, rows[k]);
    }
    assert rows[..|rows|] == rows && c.rows[..offset + |rows|] == c.rows[..offset] + rows;
    AbsorbSplit(out, c.rows[..offset], rows);
  }

  function AllRows(collections: seq<Collection>): seq<Row> {
    if collections == [] then []
    else
      var last := collections[|collections| - 1];
      AllRows(collections[..|collections| - 1]) + if last.Open? then last.rows else []
  }

  /** The rows a scan with this page size sees. */
  function SeenRows(collections: seq<Collection>, page: nat): seq<Row>
    requires page > 0
  {
    if collections == [] then []
    else
      var last := collections[|collections| - 1];
      SeenRows(collections[..|collections| - 1], page) + if last.Open? then last.rows[..RowsRead(last, page)] else []
  }

  /** The scan over all collections is the collapse of the rows it sees. */
  method Scan(collections: seq<Collection>, page: nat) returns (out: Found)
    requires page > 0
    ensures out == AbsorbAll(map[], SeenRows(collections, page))
  {
    out := map[];
    for i := 0 to |collections|
      invariant out == AbsorbAll(map[], SeenRows(collections[..i], page))
    {
      assert collections[..i + 1][..i] == collections[..i];
      if collections[i].Unavailable? {
        assert SeenRows(collections[..i + 1], page) == SeenRows(collections[..i], page);
        continue;
      }
      var c := collections[i];
      var n;
      out, n := ScanCollection(c, page, out);
      AbsorbSplit(map[], SeenRows(collections[..i], page), c.rows[..n]);
    }
    assert collections[..|collections|] == collections;
  }

  predicate ReadWhole(c: Collection, page: nat)
    requires page > 0
  {
    c.Open? ==> RowsRead(c, page) == |c.rows|
  }

  /** A scan sees every row exactly when no collection fails at a page that begins before its end; so
      without failures the result does not depend on the page size. */
  lemma {:induction false} AllRowsSeen(collections: seq<Collection>, page: nat)
    requires page > 0
    ensures |SeenRows(collections, page)| <= |AllRows(collections)|
    ensures SeenRows(collections, page) == AllRows(collections)
       <==> forall c :: c in collections ==> ReadWhole(c, page)
  {
    if collections != [] {
      var init, last := collections[..|collections| - 1], collections[|collections| - 1];
      AllRowsSeen(init, page);
      assert collections == init + [last];
      assert forall c :: c in collections <==> c in init || c == last;
      assert (forall c :: c in collections ==> ReadWhole(c, page))
        <==> ReadWhole(last, page) && forall c :: c in init ==> ReadWhole(c, page);
      if last.Open? {
        var n := RowsRead(last, page);
        SameSplit(SeenRows(init, page), AllRows(init), last.rows[..n], last.rows);
      } else {
        SameSplit(SeenRows(init, page), AllRows(init), [], []);
      }
    }
  }

  /** Two page sizes see the same rows when each collection is read as far with both. */
  lemma {:induction false} SamePages(collections: seq<Collection>, page: nat, other: nat)
    requires page > 0 && other > 0
    requires forall c :: c in collections && c.Open? ==> RowsRead(c, page) == RowsRead(c, other)
    ensures SeenRows(collections, page) == SeenRows(collections, other)
  {
    if collections != [] {
      SamePages(collections[..|collections| - 1], page, other);
    }
  }

  /** So without a failing read the page size does not matter, nor where all failures come at a
      multiple of both sizes or past the last row. */
  lemma PageSizeFree(collections: seq<Collection>, page: nat, other: nat)
    requires page > 0 && other > 0
    requires forall c :: c in collections && c.Open? && c.failsFrom.Some? ==> FailsEvenly(c, page) && FailsEvenly(c, other)
    ensures SeenRows(collections, page) == SeenRows(collections, other)
  {
    forall c | c in collections && c.Open?
      ensures RowsRead(c, page) == RowsRead(c, other)
    {
      if c.failsFrom.Some? {
        EvenRead(c, page);
        EvenRead(c, other);
      }
    }
    SamePages(collections, page, other);
  }

  predicate FailsEvenly(c: Collection, page: nat)
    requires page > 0 && c.Open? && c.failsFrom.Some?
  {
    c.failsFrom.value % page == 0 || c.failsFrom.value >= |c.rows|
  }

  lemma EvenRead(c: Collection, page: nat)
    requires page > 0 && c.Open? && c.failsFrom.Some? && FailsEvenly(c, page)
    ensures RowsRead(c, page) == if c.failsFrom.value <= |c.rows| then c.failsFrom.value else |c.rows|
  {
    var x := c.failsFrom.value;
    PageStart(x / page, page, x);
  }

  /** Where a read fails inside a page of one size, the page size does matter. */
  lemma PageSizeExample(row: Row, other: Row)
    ensures var c := Open([row, other], Some(1));
            SeenRows([c], 1) == [row] && SeenRows([c], 2) == [row, other]
  {
    var c := Open([row, other], Some(1));
    assert [c][..0] == [];
    assert RowsRead(c, 1) == 1 && RowsRead(c, 2) == 2;
    assert c.rows[..1] == [row] && c.rows[..2] == [row, other];
    assert SeenRows([], 1) == [] && SeenRows([], 2) == [];
  }

  lemma SameSplit<T>(a: seq<T>, b: seq<T>, c: seq<T>, d: seq<T>)
    requires |a| <= |b| && |c| <= |d| && c == d[..|c|]
    ensures a + c == b + d <==> a == b && |c| == |d|
  {
    if a + c == b + d {
      assert |a| == |b|;
      assert (a + c)[..|a|] == a && (b + d)[..|b|] == b;
    }
  }
}
