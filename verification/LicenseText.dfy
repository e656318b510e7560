/** Cutting a licence string at separators, and how the pieces of a joined string relate to the
    pieces of its parts. */
module LicenseText {
  import opened Text

  /** What a string is cut at: the two punctuation marks, or a stand-alone keyword. */
  datatype Cutter = Marks | Keyword(word: string)

  const OR := Keyword("OR")
  const AND := Keyword("AND")

  /** What is used of the `\w` class: it holds the keywords' letters, no mark and no space. */
  ghost predicate WordClass(word: set<char>) {
    && 'O' in word && 'R' in word && 'A' in word && 'N' in word && 'D' in word
    && ';' !in word && ',' !in word
    && (forall c :: c in word ==> !IsSpace(c))
  }

  predicate KeywordAt(s: string, i: nat, keyword: string, word: set<char>) {
    && OccursAt(s, i, keyword)
    && (i == 0 || s[i - 1] !in word)
    && (i + |keyword| == |s| || s[i + |keyword|] !in word)
  }

  /** The length of the separator that starts at `i`, or zero. */
  function CutAt(k: Cutter, s: string, i: nat, word: set<char>): (n: nat)
    requires i < |s|
    ensures i + n <= |s|
  {
    match k
    case Marks => if s[i] == ';' || s[i] == ',' then 1 else 0
    case Keyword(w) => if KeywordAt(s, i, w, word) then |w| else 0
  }

  /** The separator length at every offset. */
  function Cuts(k: Cutter, s: string, word: set<char>): (cuts: seq<nat>)
    ensures Fits(s, cuts) && forall i :: 0 <= i < |s| ==> cuts[i] == CutAt(k, s, i, word)
  {
    seq(|s|, i requires 0 <= i < |s| => CutAt(k, s, i, word))
  }

  predicate Fits(s: string, cuts: seq<nat>) {
    |cuts| == |s| && forall i :: 0 <= i < |s| ==> i + cuts[i] <= |s|
  }

  /** `re.split`, from offset `i` on, with a piece begun at `start`. */
  function SplitFrom(s: string, cuts: seq<nat>, i: nat, start: nat): (pieces: seq<string>)
    requires Fits(s, cuts) && start <= i <= |s|
    ensures |pieces| > 0
    decreases |s| - i
  {
    if i == |s| then [s[start..]]
    else if cuts[i] > 0 then [s[start..i]] + SplitFrom(s, cuts, i + cuts[i], i + cuts[i])
    else SplitFrom(s, cuts, i + 1, start)
  }

  function Split(k: Cutter, s: string, word: set<char>): (pieces: seq<string>)
    ensures |pieces| > 0
  {
    SplitFrom(s, Cuts(k, s, word), 0, 0)
  }

  // ---- pieces of a joined string ----

  /** The pieces of two strings side by side: the last of one and the first of the other meet. */
  function Glue(p: seq<string>, q: seq<string>): (r: seq<string>)
    requires |p| > 0 && |q| > 0
    ensures |r| > 0
  {
    p[..|p| - 1] + [p[|p| - 1] + q[0]] + q[1..]
  }

  /** No keyword reaches across, or is made or unmade by, the place where `a` and `b` meet. */
  predicate Apart(a: string, b: string, word: set<char>) {
    a == [] || b == [] || a[|a| - 1] !in word || b[0] !in word
  }

  predicate Known(k: Cutter) { k == Marks || k == OR || k == AND }

  /** A keyword that reaches across the meeting of `a` and `b` has letters on both sides of it. */
  lemma Reaches(a: string, b: string, i: nat, keyword: string)
    requires i < |a| < i + |keyword| && OccursAt(a + b, i, keyword)
    ensures b != [] && a[|a| - 1] in keyword && b[0] in keyword
  {
    var s := a + b;
    assert s[|a| - 1] == s[i..i + |keyword|][|a| - 1 - i];
    assert s[|a|] == s[i..i + |keyword|][|a| - i];
  }

  lemma CutsOfFront(k: Cutter, a: string, b: string, i: nat, word: set<char>)
    requires Known(k) && WordClass(word) && Apart(a, b, word) && i < |a|
    ensures CutAt(k, a + b, i, word) == CutAt(k, a, i, word)
  {
    var s := a + b;
    if k != Marks {
      var w := k.word;
      assert forall c :: c in w ==> c in word;
      if i + |w| <= |a| {
        assert s[i..i + |w|] == a[i..i + |w|];
      } else if OccursAt(s, i, w) {
        Reaches(a, b, i, w);
      }
    }
  }

  lemma OccursShift(a: string, b: string, i: nat, needle: string)
    requires i <= |b|
    ensures OccursAt(a + b, |a| + i, needle) <==> OccursAt(b, i, needle)
  {
    var s := a + b;
    if i + |needle| <= |b| {
      assert s[|a|..] == b;
      assert s[|a| + i..|a| + i + |needle|] == s[|a|..][i..i + |needle|];
    }
  }

  lemma CutsOfBack(k: Cutter, a: string, b: string, i: nat, word: set<char>)
    requires Known(k) && WordClass(word) && Apart(a, b, word) && i < |b|
    ensures CutAt(k, a + b, |a| + i, word) == CutAt(k, b, i, word)
  {
    if k != Marks {
      var s, w := a + b, k.word;
      assert w[0] in word;
      OccursShift(a, b, i, w);
      if OccursAt(b, i, w) {
        assert b[i] == b[i..i + |w|][0];
        assert i > 0 ==> s[|a| + i - 1] == b[i - 1];
        assert i + |w| < |b| ==> s[|a| + i + |w|] == b[i + |w|];
      }
    }
  }

  lemma SliceOfBack(a: string, b: string, i: nat, j: nat)
    requires i <= j <= |b|
    ensures (a + b)[|a| + i..|a| + j] == b[i..j]
  {
  }

  lemma DropFront(a: string, b: string, i: nat)
    requires i <= |b|
    ensures (a + b)[|a| + i..] == b[i..]
  {
  }

  lemma SliceOfFront(a: string, b: string, i: nat, j: nat)
    requires i <= j <= |a|
    ensures (a + b)[i..j] == a[i..j]
  {
  }

  lemma GlueCons(x: string, p: seq<string>, q: seq<string>)
    requires |p| > 0 && |q| > 0
    ensures Glue([x] + p, q) == [x] + Glue(p, q)
  {
    assert ([x] + p)[..|p|] == [x] + p[..|p| - 1];
  }

  lemma CutsJoined(k: Cutter, a: string, b: string, word: set<char>)
    requires Known(k) && WordClass(word) && Apart(a, b, word)
    ensures Cuts(k, a + b, word) == Cuts(k, a, word) + Cuts(k, b, word)
  {
    var cuts := Cuts(k, a + b, word);
    forall i | 0 <= i < |a|
      ensures cuts[i] == Cuts(k, a, word)[i]
    {
      CutsOfFront(k, a, b, i, word);
    }
    forall i | 0 <= i < |b|
      ensures cuts[|a| + i] == Cuts(k, b, word)[i]
    {
      CutsOfBack(k, a, b, i, word);
    }
  }

  lemma FitsJoined(a: string, ca: seq<nat>, b: string, cb: seq<nat>)
    requires Fits(a, ca) && Fits(b, cb)
    ensures Fits(a + b, ca + cb)
  {
  }

  lemma {:induction false} SplitShift(a: string, ca: seq<nat>, b: string, cb: seq<nat>, i: nat, start: nat)
    requires Fits(a, ca) && Fits(b, cb) && Fits(a + b, ca + cb) && start <= i <= |b|
    ensures SplitFrom(a + b, ca + cb, |a| + i, |a| + start) == SplitFrom(b, cb, i, start)
    decreases |b| - i
  {
    if i == |b| {
      DropFront(a, b, start);
    } else if cb[i] > 0 {
      SliceOfBack(a, b, start, i);
      SplitShift(a, ca, b, cb, i + cb[i], i + cb[i]);
    } else {
      SplitShift(a, ca, b, cb, i + 1, start);
    }
  }

  /** Starting a piece earlier lengthens the first piece and changes no other. */
  lemma {:induction false} SplitLonger(s: string, cuts: seq<nat>, i: nat, start: nat, later: nat)
    requires Fits(s, cuts) && start <= later <= i <= |s|
    ensures SplitFrom(s, cuts, i, start) == Glue([s[start..later]], SplitFrom(s, cuts, i, later))
    decreases |s| - i
  {
    if i == |s| {
      assert s[start..] == s[start..later] + s[later..];
    } else if cuts[i] > 0 {
      assert s[start..i] == s[start..later] + s[later..i];
    } else {
      SplitLonger(s, cuts, i + 1, start, later);
    }
  }

  lemma SplitMeets(a: string, ca: seq<nat>, b: string, cb: seq<nat>, start: nat)
    requires Fits(a, ca) && Fits(b, cb) && Fits(a + b, ca + cb) && start <= |a|
    ensures SplitFrom(a + b, ca + cb, |a|, start) == Glue([a[start..]], SplitFrom(b, cb, 0, 0))
  {
    SplitShift(a, ca, b, cb, 0, 0);
    SplitLonger(a + b, ca + cb, |a|, start, |a|);
    SliceOfFront(a, b, start, |a|);
    assert a[start..|a|] == a[start..];
  }

  lemma SplitCuts(a: string, ca: seq<nat>, b: string, cb: seq<nat>, i: nat, start: nat)
    requires Fits(a, ca) && Fits(b, cb) && Fits(a + b, ca + cb) && start <= i < |a| && ca[i] > 0
    requires SplitFrom(a + b, ca + cb, i + ca[i], i + ca[i])
          == Glue(SplitFrom(a, ca, i + ca[i], i + ca[i]), SplitFrom(b, cb, 0, 0))
    ensures SplitFrom(a + b, ca + cb, i, start) == Glue(SplitFrom(a, ca, i, start), SplitFrom(b, cb, 0, 0))
  {
    SliceOfFront(a, b, start, i);
    GlueCons(a[start..i], SplitFrom(a, ca, i + ca[i], i + ca[i]), SplitFrom(b, cb, 0, 0));
  }

  lemma {:induction false} SplitJoinedFrom(a: string, ca: seq<nat>, b: string, cb: seq<nat>, i: nat, start: nat)
    requires Fits(a, ca) && Fits(b, cb) && Fits(a + b, ca + cb) && start <= i <= |a|
    ensures SplitFrom(a + b, ca + cb, i, start) == Glue(SplitFrom(a, ca, i, start), SplitFrom(b, cb, 0, 0))
    decreases |a| - i
  {
    if i == |a| {
      SplitMeets(a, ca, b, cb, start);
    } else if ca[i] > 0 {
      SplitJoinedFrom(a, ca, b, cb, i + ca[i], i + ca[i]);
      SplitCuts(a, ca, b, cb, i, start);
    } else {
      SplitJoinedFrom(a, ca, b, cb, i + 1, start);
    }
  }

  /** Cutting a joined string is gluing what the parts are cut into. */
  lemma SplitJoined(k: Cutter, a: string, b: string, word: set<char>)
    requires Known(k) && WordClass(word) && Apart(a, b, word)
    ensures Split(k, a + b, word) == Glue(Split(k, a, word), Split(k, b, word))
  {
    CutsJoined(k, a, b, word);
    FitsJoined(a, Cuts(k, a, word), b, Cuts(k, b, word));
    SplitJoinedFrom(a, Cuts(k, a, word), b, Cuts(k, b, word), 0, 0);
  }

  // ---- non-blank pieces ----

  /** The pieces, stripped, without the blank ones. */
  function Filled(pieces: seq<string>): seq<string> {
    if pieces == [] then []
    else (if Strip(pieces[0]) == [] then [] else [Strip(pieces[0])]) + Filled(pieces[1..])
  }

  lemma {:induction false} FilledAppend(p: seq<string>, q: seq<string>)
    ensures Filled(p + q) == Filled(p) + Filled(q)
  {
    if p == [] {
      assert p + q == q;
    } else {
      assert (p + q)[1..] == p[1..] + q;
      FilledAppend(p[1..], q);
    }
  }

  function Terms(k: Cutter, s: string, word: set<char>): seq<string> { Filled(Split(k, s, word)) }

  lemma GlueCut(p: seq<string>, q: seq<string>)
    requires |p| > 0 && |q| > 0
    ensures Glue(Glue(p, ["", ""]), q) == p + q
  {
    assert p[|p| - 1] + "" == p[|p| - 1] && "" + q[0] == q[0];
    assert Glue(p, ["", ""]) == p + [""];
    assert q == [q[0]] + q[1..];
  }

  lemma FilledSpaceAfter(p: seq<string>, c: char)
    requires |p| > 0 && IsSpace(c)
    ensures Filled(Glue(p, [[c]])) == Filled(p)
  {
    var init, last := p[..|p| - 1], p[|p| - 1];
    GlueOne(p, [c]);
    FilledAppend(init, [last]);
    FilledAppend(init, [last + [c]]);
    FilledOne(last, last + [c], c);
  }

  lemma GlueOne(p: seq<string>, x: string)
    requires |p| > 0
    ensures Glue(p, [x]) == p[..|p| - 1] + [p[|p| - 1] + x] && p == p[..|p| - 1] + [p[|p| - 1]]
  {
  }

  lemma FilledOne(x: string, spaced: string, c: char)
    requires IsSpace(c) && spaced == x + [c]
    ensures Filled([spaced]) == Filled([x])
  {
    StripSpace(x, c);
    assert [spaced][1..] == [x][1..];
  }

  lemma FilledSpaceBefore(p: seq<string>, c: char)
    requires |p| > 0 && IsSpace(c)
    ensures Filled(Glue([[c]], p)) == Filled(p)
  {
    var glued := Glue([[c]], p);
    assert glued[0] == [c] + p[0] && glued[1..] == p[1..];
    StripSpace(p[0], c);
  }

  lemma SplitSpace(k: Cutter, c: char, word: set<char>)
    requires Known(k) && IsSpace(c)
    ensures Split(k, [c], word) == [[c]]
  {
    assert CutAt(k, [c], 0, word) == 0;
    assert SplitFrom([c], Cuts(k, [c], word), 1, 0) == [[c]];
  }

  lemma TermsSpace(k: Cutter, s: string, c: char, word: set<char>)
    requires Known(k) && WordClass(word) && IsSpace(c)
    ensures Terms(k, s + [c], word) == Terms(k, s, word) == Terms(k, [c] + s, word)
  {
    SplitSpace(k, c, word);
    SplitJoined(k, s, [c], word);
    SplitJoined(k, [c], s, word);
    FilledSpaceAfter(Split(k, s, word), c);
    FilledSpaceBefore(Split(k, s, word), c);
  }

  lemma {:induction false} TermsStripLeft(k: Cutter, s: string, word: set<char>)
    requires Known(k) && WordClass(word)
    ensures Terms(k, StripLeft(s), word) == Terms(k, s, word)
  {
    if s != [] && IsSpace(s[0]) {
      TermsStripLeft(k, s[1..], word);
      TermsSpace(k, s[1..], s[0], word);
      assert s == [s[0]] + s[1..];
    }
  }

  lemma {:induction false} TermsStripRight(k: Cutter, s: string, word: set<char>)
    requires Known(k) && WordClass(word)
    ensures Terms(k, StripRight(s), word) == Terms(k, s, word)
  {
    if s != [] && IsSpace(s[|s| - 1]) {
      var init := s[..|s| - 1];
      TermsStripRight(k, init, word);
      TermsSpace(k, init, s[|s| - 1], word);
      assert s == init + [s[|s| - 1]];
    }
  }

  lemma TermsStrip(k: Cutter, s: string, word: set<char>)
    requires Known(k) && WordClass(word)
    ensures Terms(k, Strip(s), word) == Terms(k, s, word)
  {
    TermsStripLeft(k, s, word);
    TermsStripRight(k, StripLeft(s), word);
  }

  /** A keyword between spaces separates the terms of what stands on either side. */
  lemma TermsApart(k: Cutter, a: string, b: string, word: set<char>)
    requires k == OR || k == AND
    requires WordClass(word)
    ensures Terms(k, a + " " + k.word + " " + b, word) == Terms(k, a, word) + Terms(k, b, word)
  {
    var left, right := a + " ", " " + b;
    TermsSpace(k, a, ' ', word);
    TermsSpace(k, b, ' ', word);
    assert Split(k, k.word, word) == ["", ""] by { SplitKeyword(k, word); }
    SplitJoined(k, left, k.word, word);
    SplitJoined(k, left + k.word, right, word);
    GlueCut(Split(k, left, word), Split(k, right, word));
    FilledAppend(Split(k, left, word), Split(k, right, word));
    assert a + " " + k.word + " " + b == left + k.word + right;
  }

  lemma SplitKeyword(k: Cutter, word: set<char>)
    requires k == OR || k == AND
    ensures Split(k, k.word, word) == ["", ""]
  {
    var w := k.word;
    assert w[0..|w|] == w && w[0..0] == "" && w[|w|..] == "";
    assert CutAt(k, w, 0, word) == |w|;
    assert SplitFrom(w, Cuts(k, w, word), |w|, |w|) == [""];
  }
}
