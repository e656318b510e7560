/** The licence verdict: alternatives, of which one suffices, made of conjuncts, which all bind. */
module LicenseGate {
  import opened Text
  import opened LicenseText

  /** The `\w` class and the licence patterns. */
  datatype Rules = Rules(word: set<char>, family: string -> Option<string>, lgpl: string -> bool)

  datatype Verdict = Verdict(denied: bool, family: Option<string>, lgpl: bool, unknown: bool)

  const UNKNOWN := "UNKNOWN"

  /** `s.upper() == "UNKNOWN"`. */
  predicate IsUnknown(s: string) {
    |s| == 7 && forall i :: 0 <= i < 7 ==> s[i] == UNKNOWN[i] || s[i] == UNKNOWN[i] - 'A' + 'a'
  }

  // ---- the specification ----

  function SegmentsOf(chunks: seq<string>, word: set<char>): seq<string> {
    if chunks == [] then [] else Terms(OR, chunks[0], word) + SegmentsOf(chunks[1..], word)
  }

  /** The alternatives a licence string spells out. */
  function Segments(text: string, word: set<char>): seq<string> {
    SegmentsOf(Split(Marks, text, word), word)
  }

  /** What the verdict is taken over: the whole string when it spells out no alternative. */
  function Alternatives(text: string, word: set<char>): (alternatives: seq<string>)
    ensures |alternatives| > 0
  {
    if Segments(text, word) == [] then [Strip(text)] else Segments(text, word)
  }

  function KnownOf(alternatives: seq<string>): seq<string> {
    if alternatives == [] then []
    else (if IsUnknown(Strip(alternatives[0])) then [] else [alternatives[0]]) + KnownOf(alternatives[1..])
  }

  /** The family of the first conjunct that is on the denylist. */
  function FirstHit(parts: seq<string>, r: Rules): Option<string> {
    if parts == [] then None
    else
      var hit := r.family(parts[0]);
      if hit.Some? then hit else FirstHit(parts[1..], r)
  }

  function UnitFamily(segment: string, r: Rules): Option<string> {
    FirstHit(Terms(AND, segment, r.word), r)
  }

  predicate Unknown(text: string, r: Rules) {
    || text == "" || IsUnknown(Strip(text)) || KnownOf(Alternatives(text, r.word)) == []
  }

  predicate AllDenied(known: seq<string>, r: Rules) {
    forall a :: a in known ==> UnitFamily(a, r).Some?
  }

  predicate Denied(text: string, r: Rules) {
    !Unknown(text, r) && AllDenied(KnownOf(Alternatives(text, r.word)), r)
  }

  /** The family reported with a denial: that of the first known alternative. */
  function Family(text: string, r: Rules): Option<string> {
    if Denied(text, r) then UnitFamily(KnownOf(Alternatives(text, r.word))[0], r) else None
  }

  // ---- the script ----

  method SplitAlternatives(text: string, word: set<char>) returns (alternatives: seq<string>)
    requires WordClass(word)
    ensures alternatives == Alternatives(text, word)
  {
    var segments, chunks := [], Split(Marks, text, word);
    for i := 0 to |chunks|
      invariant segments + SegmentsOf(chunks[i..], word) == Segments(text, word)
    {
      var chunk := Strip(chunks[i]);
      TermsStrip(OR, chunks[i], word);
      ghost var before := segments;
      if chunk != [] {
        segments := segments + Filled(Split(OR, chunk, word));
      } else {
        NoTerms(word);
      }
      assert segments == before + Terms(OR, chunks[i], word);
      assert chunks[i..][1..] == chunks[i + 1..];
      AppendAssoc(before, Terms(OR, chunks[i], word), SegmentsOf(chunks[i + 1..], word));
    }
    alternatives := if segments == [] then [Strip(text)] else segments;
  }

  method UnitDenied(segment: string, r: Rules) returns (denied: bool, family: Option<string>)
    requires WordClass(r.word)
    ensures denied == family.Some? && family == UnitFamily(segment, r)
  {
    var parts := Filled(Split(AND, segment, r.word));
    for i := 0 to |parts|
      invariant UnitFamily(segment, r) == FirstHit(parts[i..], r)
    {
      var hit := r.family(parts[i]);
      if hit.Some? {
        return true, hit;
      }
    }
    return false, None;
  }

  method Evaluate(text: string, r: Rules) returns (v: Verdict)
    requires WordClass(r.word)
    ensures v.unknown == Unknown(text, r) && v.denied == Denied(text, r)
    ensures v.family == Family(text, r)
    ensures v.lgpl == (!v.unknown && r.lgpl(text))
  {
    if text == "" || IsUnknown(Strip(text)) {
      return Verdict(false, None, false, true);
    }
    var alternatives := SplitAlternatives(text, r.word);
    var known := KnownOf(alternatives);
    if known == [] {
      return Verdict(false, None, false, true);
    }
    var results: seq<Option<string>> := [];
    for i := 0 to |known|
      invariant |results| == i && forall j :: 0 <= j < i ==> results[j] == UnitFamily(known[j], r)
    {
      var _, its := UnitDenied(known[i], r);
      results := results + [its];
    }
    var denied := forall j :: 0 <= j < |results| ==> results[j].Some?;
    v := Verdict(denied, if denied then FirstFound(results) else None, r.lgpl(text), false);
  }

  function FirstFound(results: seq<Option<string>>): Option<string> {
    if results == [] then None
    else if results[0].Some? then results[0]
    else FirstFound(results[1..])
  }

  // ---- alternatives side by side ----

  lemma NoTerms(word: set<char>)
    ensures Terms(OR, "", word) == []
  {
    assert Split(OR, "", word) == [""];
    assert Strip("") == "" && [""][1..] == [];
  }

  lemma {:induction false} SegmentsOfAppend(p: seq<string>, q: seq<string>, word: set<char>)
    ensures SegmentsOf(p + q, word) == SegmentsOf(p, word) + SegmentsOf(q, word)
  {
    if p == [] {
      assert p + q == q;
    } else {
      assert (p + q)[1..] == p[1..] + q;
      SegmentsOfAppend(p[1..], q, word);
    }
  }

  /** `text` is `a` and `b` joined as alternatives. */
  predicate Either(a: string, b: string, text: string) {
    text == a + ";" + b || text == a + "," + b || text == a + " OR " + b
  }

  /** Joined strings spell out the alternatives of both. */
  lemma SegmentsOfEither(a: string, b: string, text: string, word: set<char>)
    requires WordClass(word) && Either(a, b, text)
    ensures Segments(text, word) == Segments(a, word) + Segments(b, word)
  {
    if text == a + " OR " + b {
      SegmentsAcrossOr(a, b, word);
    } else {
      var mark := text[|a|];
      assert text == a + [mark] + b;
      SegmentsAcrossMark(a, b, mark, word);
    }
  }

  lemma SegmentsAcrossMark(a: string, b: string, mark: char, word: set<char>)
    requires WordClass(word) && (mark == ';' || mark == ',')
    ensures Segments(a + [mark] + b, word) == Segments(a, word) + Segments(b, word)
  {
    var p, q := Split(Marks, a, word), Split(Marks, b, word);
    assert Split(Marks, [mark], word) == ["", ""] by {
      assert [mark][0..0] == "" && [mark][1..] == "";
      assert SplitFrom([mark], Cuts(Marks, [mark], word), 1, 1) == [""];
    }
    SplitJoined(Marks, a, [mark], word);
    SplitJoined(Marks, a + [mark], b, word);
    GlueCut(p, q);
    SegmentsOfAppend(p, q, word);
  }

  /** A string without a separator is one piece. */
  lemma {:induction false} Whole(s: string, cuts: seq<nat>, i: nat)
    requires Fits(s, cuts) && i <= |s| && forall j :: i <= j < |s| ==> cuts[j] == 0
    ensures SplitFrom(s, cuts, i, 0) == [s]
    decreases |s| - i
  {
    if i < |s| {
      Whole(s, cuts, i + 1);
    }
  }

  lemma SegmentsAcrossOr(a: string, b: string, word: set<char>)
    requires WordClass(word)
    ensures Segments(a + " OR " + b, word) == Segments(a, word) + Segments(b, word)
  {
    var p, q := Split(Marks, a, word), Split(Marks, b, word);
    Whole(" OR ", Cuts(Marks, " OR ", word), 0);
    SplitJoined(Marks, a, " OR ", word);
    SplitJoined(Marks, a + " OR ", b, word);
    SegmentsOfGlue(p, q, word);
  }

  lemma SegmentsOfGlue(p: seq<string>, q: seq<string>, word: set<char>)
    requires WordClass(word) && |p| > 0 && |q| > 0
    ensures SegmentsOf(Glue(Glue(p, [" OR "]), q), word) == SegmentsOf(p, word) + SegmentsOf(q, word)
  {
    var init, last, first := p[..|p| - 1], p[|p| - 1], q[0];
    GlueMiddle(p, " OR ", q);
    SegmentsOfMiddle(init, last + " OR " + first, q[1..], word);
    MiddleTerms(last, first, word);
    assert p == init + [last];
    SegmentsOfAppend(init, [last], word);
    SegmentsOfOne(last, word);
    Regroup(SegmentsOf(init, word), Terms(OR, last, word), Terms(OR, first, word), SegmentsOf(q[1..], word));
  }

  lemma GlueMiddle(p: seq<string>, middle: string, q: seq<string>)
    requires |p| > 0 && |q| > 0
    ensures Glue(Glue(p, [middle]), q) == p[..|p| - 1] + [p[|p| - 1] + middle + q[0]] + q[1..]
  {
    assert Glue(p, [middle]) == p[..|p| - 1] + [p[|p| - 1] + middle];
  }

  lemma SegmentsOfOne(chunk: string, word: set<char>)
    ensures SegmentsOf([chunk], word) == Terms(OR, chunk, word)
  {
  }

  lemma Regroup<T>(a: seq<T>, b: seq<T>, c: seq<T>, d: seq<T>)
    ensures a + (b + c) + d == (a + b) + (c + d)
  {
  }

  lemma MiddleTerms(last: string, first: string, word: set<char>)
    requires WordClass(word)
    ensures Terms(OR, last + " OR " + first, word) == Terms(OR, last, word) + Terms(OR, first, word)
  {
    assert last + " OR " + first == last + " " + "OR" + " " + first;
    TermsApart(OR, last, first, word);
  }

  lemma SegmentsOfMiddle(p: seq<string>, middle: string, q: seq<string>, word: set<char>)
    ensures SegmentsOf(p + [middle] + q, word)
         == SegmentsOf(p, word) + Terms(OR, middle, word) + SegmentsOf(q, word)
  {
    SegmentsOfAppend(p + [middle], q, word);
    SegmentsOfAppend(p, [middle], word);
    assert SegmentsOf([middle], word) == Terms(OR, middle, word);
  }

  lemma {:induction false} KnownOfAppend(p: seq<string>, q: seq<string>)
    ensures KnownOf(p + q) == KnownOf(p) + KnownOf(q)
  {
    if p == [] {
      assert p + q == q;
    } else {
      assert (p + q)[1..] == p[1..] + q;
      KnownOfAppend(p[1..], q);
    }
  }

  /** The alternatives of `text` that say something. */
  function KnownSegments(text: string, word: set<char>): seq<string> { KnownOf(Segments(text, word)) }

  lemma {:induction false} InKnown(alternatives: seq<string>, a: string)
    ensures a in KnownOf(alternatives) <==> a in alternatives && !IsUnknown(Strip(a))
  {
    if alternatives != [] {
      InKnown(alternatives[1..], a);
      assert alternatives == [alternatives[0]] + alternatives[1..];
    }
  }

  // ---- what counts as unknown ----

  lemma SegmentsSpace(s: string, c: char, word: set<char>)
    requires WordClass(word) && IsSpace(c)
    ensures Segments(s + [c], word) == Segments(s, word) == Segments([c] + s, word)
  {
    var p := Split(Marks, s, word);
    SplitSpace(Marks, c, word);
    SplitJoined(Marks, s, [c], word);
    SplitJoined(Marks, [c], s, word);
    var init, last := p[..|p| - 1], p[|p| - 1];
    assert Glue(p, [[c]]) == init + [last + [c]] && p == init + [last];
    SegmentsOfAppend(init, [last + [c]], word);
    SegmentsOfAppend(init, [last], word);
    SegmentsOfOne(last, word);
    SegmentsOfOne(last + [c], word);
    TermsSpace(OR, last, c, word);
    TermsSpace(OR, p[0], c, word);
    var longer := Glue([[c]], p);
    assert longer[0] == [c] + p[0] && longer[1..] == p[1..];
  }

  lemma {:induction false} SegmentsStripLeft(s: string, word: set<char>)
    requires WordClass(word)
    ensures Segments(StripLeft(s), word) == Segments(s, word)
    ensures Strip(StripLeft(s)) == Strip(s)
  {
    if s != [] && IsSpace(s[0]) {
      SegmentsStripLeft(s[1..], word);
      SegmentsSpace(s[1..], s[0], word);
      StripSpace(s[1..], s[0]);
      assert s == [s[0]] + s[1..];
    }
  }

  lemma {:induction false} SegmentsStripRight(s: string, word: set<char>)
    requires WordClass(word)
    ensures Segments(StripRight(s), word) == Segments(s, word)
    ensures Strip(StripRight(s)) == Strip(s)
  {
    if s != [] && IsSpace(s[|s| - 1]) {
      var init := s[..|s| - 1];
      SegmentsStripRight(init, word);
      SegmentsSpace(init, s[|s| - 1], word);
      StripSpace(init, s[|s| - 1]);
      assert s == init + [s[|s| - 1]];
    }
  }

  lemma SegmentsStrip(s: string, word: set<char>)
    requires WordClass(word)
    ensures Segments(Strip(s), word) == Segments(s, word)
    ensures Strip(Strip(s)) == Strip(s)
  {
    SegmentsStripLeft(s, word);
    SegmentsStripRight(StripLeft(s), word);
  }

  lemma SegmentsOfUnknown(u: string, word: set<char>)
    requires WordClass(word) && IsUnknown(u)
    ensures Segments(u, word) == [u] && KnownOf([u]) == []
  {
    assert 'R' !in u;
    forall i | 0 <= i < |u|
      ensures CutAt(Marks, u, i, word) == 0 && CutAt(OR, u, i, word) == 0
    {
      if OccursAt(u, i, "OR") {
        OrHasR(u, i);
      }
    }
    Whole(u, Cuts(Marks, u, word), 0);
    Whole(u, Cuts(OR, u, word), 0);
    UnknownIsSolid(u);
    assert Split(Marks, u, word) == [u] && Split(OR, u, word) == [u];
    SegmentsOfOne(u, word);
  }

  lemma UnknownIsSolid(u: string)
    requires IsUnknown(u)
    ensures Strip(u) == u && Filled([u]) == [u] && KnownOf([u]) == []
  {
    assert !IsSpace(u[0]) && !IsSpace(u[6]);
    assert [u][1..] == [];
  }

  /** A licence is reported as unknown exactly when the string is empty, or it spells out
      alternatives and every one of them is UNKNOWN. */
  lemma UnknownMeaning(text: string, r: Rules)
    requires WordClass(r.word)
    ensures Unknown(text, r) <==>
            text == "" || (Segments(text, r.word) != [] && KnownSegments(text, r.word) == [])
  {
    var u := Strip(text);
    SegmentsStrip(text, r.word);
    if IsUnknown(u) {
      SegmentsOfUnknown(u, r.word);
    }
    assert [u][1..] == [];
  }

  lemma NoSegments(word: set<char>)
    ensures Segments("", word) == []
  {
    assert Split(Marks, "", word) == [""];
    NoTerms(word);
    SegmentsOfOne("", word);
  }

  /** A string that spells out no alternative, such as ";" or "OR", is never reported as unknown,
      and is denied exactly when the denylist hits it as a whole. */
  lemma NothingSpelled(text: string, r: Rules)
    requires WordClass(r.word) && text != "" && Segments(text, r.word) == []
    ensures !Unknown(text, r) && (Denied(text, r) <==> UnitFamily(Strip(text), r).Some?)
  {
    UnknownMeaning(text, r);
    var whole := Strip(text);
    assert KnownOf([whole]) == [whole];
    assert whole in [whole];
  }

  /** A blank string carries no licence at all, yet is reported neither as unknown nor as denied. */
  lemma BlankPasses(text: string, r: Rules)
    requires WordClass(r.word) && text != "" && AllSpace(text)
    ensures Segments(text, r.word) == [] && !Unknown(text, r) && !Denied(text, r)
  {
    StripBlank(text);
    SegmentsStrip(text, r.word);
    NoSegments(r.word);
    NothingSpelled(text, r);
    NoTermsAnd(r.word);
  }

  lemma NoTermsAnd(word: set<char>)
    ensures Terms(AND, "", word) == []
  {
    assert Split(AND, "", word) == [""];
    assert Strip("") == "" && [""][1..] == [];
  }

  // ---- the laws of the verdict ----

  /** For a string that spells out alternatives: denied exactly when some are known and each known
      one has a conjunct on the denylist. */
  lemma DeniedMeaning(text: string, r: Rules)
    requires WordClass(r.word) && Segments(text, r.word) != []
    ensures Unknown(text, r) <==> KnownSegments(text, r.word) == []
    ensures Denied(text, r) <==> KnownSegments(text, r.word) != [] && AllDenied(KnownSegments(text, r.word), r)
  {
    UnknownMeaning(text, r);
    NoSegments(r.word);
  }

  /** Denied or not, and unknown or not: only which alternatives a string spells out matters, not
      their order or number. */
  lemma OrderFree(text: string, other: string, r: Rules)
    requires WordClass(r.word) && Segments(text, r.word) != []
    requires forall a :: a in Segments(text, r.word) <==> a in Segments(other, r.word)
    ensures Denied(text, r) == Denied(other, r) && Unknown(text, r) == Unknown(other, r)
  {
    var p, q := Segments(text, r.word), Segments(other, r.word);
    assert p[0] in q;
    forall a
      ensures a in KnownOf(p) <==> a in KnownOf(q)
    {
      InKnown(p, a);
      InKnown(q, a);
    }
    assert KnownOf(p) != [] ==> KnownOf(p)[0] in KnownOf(q);
    assert KnownOf(q) != [] ==> KnownOf(q)[0] in KnownOf(p);
    DeniedMeaning(text, r);
    DeniedMeaning(other, r);
  }

  /** Joined by any separator, two licence strings swap freely. */
  lemma EitherSwaps(a: string, b: string, text: string, swapped: string, r: Rules)
    requires WordClass(r.word) && Either(a, b, text) && Either(b, a, swapped)
    requires Segments(a, r.word) + Segments(b, r.word) != []
    ensures Denied(text, r) == Denied(swapped, r) && Unknown(text, r) == Unknown(swapped, r)
  {
    SegmentsOfEither(a, b, text, r.word);
    SegmentsOfEither(b, a, swapped, r.word);
    OrderFree(text, swapped, r);
  }

  /** The verdict on two joined strings. The whole is denied when both are, a side without a known
      alternative having no say; with none on either side nothing is denied, unless nothing at all
      is spelled out, when the denylist is asked about the whole string. */
  lemma EitherMeaning(a: string, b: string, text: string, r: Rules)
    requires WordClass(r.word) && Either(a, b, text)
    ensures Denied(text, r) <==>
            if Segments(a, r.word) == [] && Segments(b, r.word) == [] then UnitFamily(Strip(text), r).Some?
            else
              && (KnownSegments(a, r.word) != [] || KnownSegments(b, r.word) != [])
              && (KnownSegments(a, r.word) != [] ==> Denied(a, r))
              && (KnownSegments(b, r.word) != [] ==> Denied(b, r))
    ensures Unknown(text, r) <==>
            && Segments(a, r.word) + Segments(b, r.word) != []
            && KnownSegments(a, r.word) == [] && KnownSegments(b, r.word) == []
    ensures Denied(text, r) && Segments(text, r.word) != [] ==>
            Family(text, r) == Family(if KnownSegments(a, r.word) != [] then a else b, r)
  {
    hide Strip, UnitFamily;
    var p, q := Segments(a, r.word), Segments(b, r.word);
    SegmentsOfEither(a, b, text, r.word);
    KnownOfAppend(p, q);
    if p + q == [] {
      NothingSpelled(text, r);
    } else {
      DeniedMeaning(text, r);
      SideMeaning(a, r);
      SideMeaning(b, r);
      forall x
        ensures x in KnownOf(p + q) <==> x in KnownOf(p) || x in KnownOf(q)
      {
      }
    }
  }

  /** A string with a known alternative, on its own. */
  lemma SideMeaning(a: string, r: Rules)
    requires WordClass(r.word)
    ensures var known := KnownSegments(a, r.word);
            known != [] ==>
              && (Denied(a, r) <==> AllDenied(known, r))
              && Alternatives(a, r.word) == Segments(a, r.word)
              && (Denied(a, r) ==> Family(a, r) == UnitFamily(known[0], r))
  {
    if Segments(a, r.word) != [] {
      DeniedMeaning(a, r);
    }
  }

  /** An added alternative relaxes the verdict, with exactly these exceptions: it is denied itself
      and everything before it was UNKNOWN or blank; or neither string spells out anything and the
      denylist hits the whole. */
  lemma AddedAlternative(a: string, b: string, text: string, r: Rules)
    requires WordClass(r.word) && Either(a, b, text)
    ensures (!Denied(a, r) && Denied(text, r)) <==>
            && !Denied(a, r)
            && if Segments(b, r.word) != [] then KnownSegments(a, r.word) == [] && Denied(b, r)
               else Segments(a, r.word) == [] && UnitFamily(Strip(text), r).Some?
  {
    hide Either, Strip, UnitFamily, Family;
    EitherMeaning(a, b, text, r);
    if Segments(b, r.word) != [] {
      DeniedMeaning(b, r);
    }
  }

  lemma AddedToUnknown(u: string, a: string, r: Rules)
    requires WordClass(r.word) && Plain(u, r.word) && Plain(a, r.word)
    requires IsUnknown(Strip(u)) && !IsUnknown(Strip(a)) && Hit(a, r)
    ensures !Denied(u, r) && Denied(u + ";" + a, r)
  {
    hide Hit, Plain, Strip, Family, Denied;
    PlainVerdict(u, r);
    PlainVerdict(a, r);
    SegmentsOfPlain(a, r.word);
    AddedAlternative(u, a, u + ";" + a, r);
  }

  /** "UNKNOWN" is allowed, and "UNKNOWN;GPL" is denied. */
  lemma AddedExample(r: Rules)
    requires WordClass(r.word) && Hit("GPL", r)
    ensures !Denied("UNKNOWN", r) && Denied("UNKNOWN" + ";" + "GPL", r)
  {
    hide Hit, Plain, Strip, Denied;
    LettersArePlain("GPL", r.word);
    LettersArePlain("UNKNOWN", r.word);
    AddedToUnknown("UNKNOWN", "GPL", r);
  }

  lemma FirstFamily(a: string, b: string, r: Rules)
    requires WordClass(r.word) && Plain(a, r.word) && Plain(b, r.word) && Hit(a, r) && Hit(b, r)
    requires !IsUnknown(Strip(a)) && !IsUnknown(Strip(b)) && Strip(a) == a
    ensures Denied(a + ";" + b, r) && Family(a + ";" + b, r) == UnitFamily(a, r)
  {
    hide Plain, Strip, UnitFamily, Denied, Family;
    var text := a + ";" + b;
    PlainVerdict(a, r);
    PlainVerdict(b, r);
    SegmentsOfPlain(a, r.word);
    Single(a);
    SideMeaning(a, r);
    EitherMeaning(a, b, text, r);
    SegmentsOfEither(a, b, text, r.word);
  }

  /** Denied either way, "GPL;AGPL" and "AGPL;GPL" are reported under different families. */
  lemma FamilyExample(r: Rules)
    requires WordClass(r.word) && Hit("GPL", r) && Hit("AGPL", r) && UnitFamily("GPL", r) != UnitFamily("AGPL", r)
    ensures var gpl, agpl := "GPL", "AGPL";
            Denied(gpl + ";" + agpl, r) && Denied(agpl + ";" + gpl, r)
            && Family(gpl + ";" + agpl, r) != Family(agpl + ";" + gpl, r)
  {
    hide Plain, Strip, UnitFamily, Denied, Family;
    LettersArePlain("GPL", r.word);
    LettersArePlain("AGPL", r.word);
    FirstFamily("GPL", "AGPL", r);
    FirstFamily("AGPL", "GPL", r);
  }

  /** Appending `; UNKNOWN` changes neither denial nor its family, nor makes the licence unknown,
      exactly when the string spells out an alternative or is empty. */
  lemma UnknownAppended(text: string, r: Rules)
    requires WordClass(r.word)
    ensures Denied(text + "; UNKNOWN", r) == Denied(text, r) && Unknown(text + "; UNKNOWN", r) == Unknown(text, r)
       <==> Segments(text, r.word) != [] || text == ""
    ensures Segments(text, r.word) != [] ==>
            && KnownOf(Alternatives(text + "; UNKNOWN", r.word)) == KnownOf(Alternatives(text, r.word))
            && Family(text + "; UNKNOWN", r) == Family(text, r)
  {
    var longer := text + "; UNKNOWN";
    assert longer == text + ";" + (" " + UNKNOWN) && " " + UNKNOWN == [' '] + UNKNOWN;
    SegmentsOfEither(text, " " + UNKNOWN, longer, r.word);
    SegmentsSpace(UNKNOWN, ' ', r.word);
    SegmentsOfUnknown(UNKNOWN, r.word);
    KnownOfAppend(Segments(text, r.word), [UNKNOWN]);
    DeniedMeaning(longer, r);
    UnknownMeaning(text, r);
    NoSegments(r.word);
    if Segments(text, r.word) != [] {
      DeniedMeaning(text, r);
    }
  }

  // ---- conjuncts ----

  /** `a` is one alternative: not blank, with no mark and no stand-alone OR. */
  predicate Plain(a: string, word: set<char>) {
    && Strip(a) != []
    && (forall i :: 0 <= i < |a| ==> CutAt(Marks, a, i, word) == 0 && CutAt(OR, a, i, word) == 0)
  }

  predicate Hit(segment: string, r: Rules) { UnitFamily(segment, r).Some? }

  function Both(a: string, b: string): string { a + " " + "AND" + " " + b }

  lemma Single(a: string)
    ensures Strip(a) != [] ==> Filled([a]) == [Strip(a)]
    ensures KnownOf([a]) == if IsUnknown(Strip(a)) then [] else [a]
  {
    assert [a][1..] == [];
    assert [Strip(a)] + [] == [Strip(a)] && [a] + [] == [a];
  }

  lemma SegmentsOfPlain(a: string, word: set<char>)
    requires WordClass(word) && Plain(a, word)
    ensures Segments(a, word) == [Strip(a)] && Split(Marks, a, word) == [a] && Split(OR, a, word) == [a]
  {
    Whole(a, Cuts(Marks, a, word), 0);
    Whole(a, Cuts(OR, a, word), 0);
    SegmentsOfOne(a, word);
    Single(a);
  }

  lemma SplitBoth(k: Cutter, a: string, b: string, word: set<char>)
    requires WordClass(word) && (k == Marks || k == OR) && Split(k, a, word) == [a] && Split(k, b, word) == [b]
    ensures Split(k, Both(a, b), word) == [Both(a, b)]
  {
    Whole(" AND ", Cuts(k, " AND ", word), 0);
    SplitJoined(k, a, " AND ", word);
    SplitJoined(k, a + " AND ", b, word);
    assert a + " AND " + b == Both(a, b);
  }

  lemma {:induction false} StripRightKeeps(s: string, c: char)
    requires c in s && !IsSpace(c)
    ensures c in StripRight(s)
  {
    if IsSpace(s[|s| - 1]) {
      assert s == s[..|s| - 1] + [s[|s| - 1]];
      StripRightKeeps(s[..|s| - 1], c);
    }
  }

  lemma {:induction false} StripKeeps(s: string, c: char)
    requires c in s && !IsSpace(c)
    ensures c in Strip(s)
  {
    if IsSpace(s[0]) {
      assert s == [s[0]] + s[1..];
      StripKeeps(s[1..], c);
    } else {
      StripRightKeeps(s, c);
    }
  }

  lemma {:induction false} FirstHitAppend(p: seq<string>, q: seq<string>, r: Rules)
    ensures FirstHit(p + q, r) == if FirstHit(p, r).Some? then FirstHit(p, r) else FirstHit(q, r)
  {
    if p == [] {
      assert p + q == q;
    } else {
      assert (p + q)[1..] == p[1..] + q;
      FirstHitAppend(p[1..], q, r);
    }
  }

  lemma NotUnknown(s: string, i: nat)
    requires i < |s| && s[i] == 'A'
    ensures Strip(s) != [] && !IsUnknown(Strip(s))
  {
    StripKeeps(s, 'A');
  }

  /** Two plain licences joined by AND are one known alternative, hit when either is. */
  lemma BothMeaning(a: string, b: string, r: Rules)
    requires WordClass(r.word) && Plain(a, r.word) && Plain(b, r.word)
    ensures Segments(Both(a, b), r.word) == [Strip(Both(a, b))] && !IsUnknown(Strip(Both(a, b)))
    ensures Hit(Strip(Both(a, b)), r) <==> Hit(a, r) || Hit(b, r)
    ensures UnitFamily(Strip(Both(a, b)), r) == if Hit(a, r) then UnitFamily(a, r) else UnitFamily(b, r)
  {
    var both, word := Both(a, b), r.word;
    SegmentsOfPlain(a, word);
    SegmentsOfPlain(b, word);
    SplitBoth(Marks, a, b, word);
    SplitBoth(OR, a, b, word);
    SegmentsOfOne(both, word);
    NotUnknown(both, |a| + 1);
    Single(both);
    TermsStrip(AND, both, word);
    TermsApart(AND, a, b, word);
    FirstHitAppend(Terms(AND, a, word), Terms(AND, b, word), r);
  }

  /** The verdict on one alternative. */
  lemma OneSegment(text: string, a: string, r: Rules)
    requires WordClass(r.word) && Segments(text, r.word) == [a] && Strip(a) == a
    ensures KnownSegments(text, r.word) == if IsUnknown(a) then [] else [a]
    ensures Denied(text, r) <==> !IsUnknown(a) && Hit(a, r)
  {
    Single(a);
    DeniedMeaning(text, r);
    if !IsUnknown(a) {
      assert a in [a];
    }
  }

  lemma PlainVerdict(a: string, r: Rules)
    requires WordClass(r.word) && Plain(a, r.word)
    ensures (KnownSegments(a, r.word) == []) == IsUnknown(Strip(a))
    ensures Denied(a, r) <==> !IsUnknown(Strip(a)) && Hit(a, r)
  {
    SegmentsOfPlain(a, r.word);
    SegmentsStrip(a, r.word);
    TermsStrip(AND, a, r.word);
    OneSegment(a, Strip(a), r);
  }

  lemma BothVerdict(a: string, b: string, r: Rules)
    requires WordClass(r.word) && Plain(a, r.word) && Plain(b, r.word)
    ensures KnownSegments(Both(a, b), r.word) != []
    ensures Denied(Both(a, b), r) <==> Hit(a, r) || Hit(b, r)
  {
    BothMeaning(a, b, r);
    SegmentsStrip(Both(a, b), r.word);
    OneSegment(Both(a, b), Strip(Both(a, b)), r);
  }

  /** An added conjunct tightens a licence that stands alone. */
  lemma ConjunctTightens(a: string, b: string, r: Rules)
    requires WordClass(r.word) && Plain(a, r.word) && Plain(b, r.word) && Denied(a, r)
    ensures Denied(Both(a, b), r)
  {
    PlainVerdict(a, r);
    BothVerdict(a, b, r);
  }

  /** Beside whatever else `p` spells out, an added conjunct tightens the verdict unless it is added
      to UNKNOWN: that alternative had no say, and now its conjuncts do. The verdict turns from
      denied to allowed exactly when `p` spells out something and is denied, and neither conjunct
      is. */
  lemma ConjunctBeside(p: string, a: string, b: string, before: string, after: string, r: Rules)
    requires WordClass(r.word) && Plain(a, r.word) && Plain(b, r.word)
    requires Either(p, a, before) && Either(p, Both(a, b), after)
    ensures (Denied(before, r) && !Denied(after, r))
       <==> && Segments(p, r.word) != [] && Denied(p, r)
            && IsUnknown(Strip(a)) && !Hit(a, r) && !Hit(b, r)
  {
    hide Denied, Hit, Either, Both, Plain, Unknown, Segments, Family;
    PlainVerdict(a, r);
    BothVerdict(a, b, r);
    SegmentsOfPlain(a, r.word);
    BothMeaning(a, b, r);
    EitherMeaning(p, a, before, r);
    EitherMeaning(p, Both(a, b), after, r);
    if Segments(p, r.word) != [] {
      DeniedMeaning(p, r);
    }
  }

  /** A string without marks or the letter R, and with solid ends, is plain. */
  lemma LettersArePlain(s: string, word: set<char>)
    requires s != [] && !IsSpace(s[0]) && !IsSpace(s[|s| - 1]) && ';' !in s && ',' !in s && 'R' !in s
    ensures Plain(s, word) && Strip(s) == s
  {
    forall i | 0 <= i < |s|
      ensures CutAt(Marks, s, i, word) == 0 && CutAt(OR, s, i, word) == 0
    {
      if OccursAt(s, i, "OR") {
        OrHasR(s, i);
      }
    }
  }

  lemma OrHasR(s: string, i: nat)
    requires OccursAt(s, i, "OR")
    ensures 'R' in s
  {
    assert s[i + 1] == s[i..i + 2][1];
  }

  lemma LiftsDenial(p: string, a: string, b: string, r: Rules)
    requires WordClass(r.word) && Plain(p, r.word) && Plain(a, r.word) && Plain(b, r.word)
    requires !IsUnknown(Strip(p)) && IsUnknown(Strip(a)) && Hit(p, r) && !Hit(a, r) && !Hit(b, r)
    ensures Denied(p + ";" + a, r) && !Denied(p + ";" + Both(a, b), r)
  {
    PlainVerdict(p, r);
    ConjunctBeside(p, a, b, p + ";" + a, p + ";" + Both(a, b), r);
  }

  /** Adding "AND MIT" to the UNKNOWN alternative of "GPL;UNKNOWN" lifts its denial. */
  lemma ConjunctExample(r: Rules)
    requires WordClass(r.word) && Hit("GPL", r) && !Hit("UNKNOWN", r) && !Hit("MIT", r)
    ensures var gpl, unknown, mit := "GPL", "UNKNOWN", "MIT";
            Denied(gpl + ";" + unknown, r) && !Denied(gpl + ";" + Both(unknown, mit), r)
  {
    hide Denied, Hit, Plain, Strip, Both;
    LettersArePlain("GPL", r.word);
    LettersArePlain("UNKNOWN", r.word);
    LettersArePlain("MIT", r.word);
    LiftsDenial("GPL", "UNKNOWN", "MIT", r);
  }

  // ---- words ----

  /** A word is cut at a keyword only when it is one: `ORACLE` and `BRAND` stay whole. */
  lemma WordStays(s: string, word: set<char>)
    requires WordClass(word) && s != [] && forall i :: 0 <= i < |s| ==> s[i] in word
    ensures s != "OR" ==> Segments(s, word) == [s]
    ensures s != "AND" ==> Terms(AND, s, word) == [s]
  {
    forall i | 0 <= i < |s|
      ensures s != "OR" ==> CutAt(OR, s, i, word) == 0
      ensures s != "AND" ==> CutAt(AND, s, i, word) == 0
    {
      KeywordIsAll(s, i, "OR", word);
      KeywordIsAll(s, i, "AND", word);
    }
    Single(s);
    if s != "OR" {
      Whole(s, Cuts(Marks, s, word), 0);
      Whole(s, Cuts(OR, s, word), 0);
      SegmentsOfOne(s, word);
    }
    if s != "AND" {
      Whole(s, Cuts(AND, s, word), 0);
    }
  }

  lemma KeywordIsAll(s: string, i: nat, keyword: string, word: set<char>)
    requires i < |s| && forall j :: 0 <= j < |s| ==> s[j] in word
    ensures KeywordAt(s, i, keyword, word) ==> s == keyword
  {
    assert s[0..|s|] == s;
  }

  /** ASCII upper case. */
  function Upper(s: string): string {
    seq(|s|, i requires 0 <= i < |s| => if 'a' <= s[i] <= 'z' then s[i] - 'a' + 'A' else s[i])
  }

  /** UNKNOWN counts in any case. */
  lemma UnknownInAnyCase(s: string)
    ensures IsUnknown(s) <==> Upper(s) == "UNKNOWN"
  {
    var u := Upper(s);
    if u == "UNKNOWN" {
      assert |s| == 7 && forall i :: 0 <= i < 7 ==> u[i] == UNKNOWN[i];
    }
    if IsUnknown(s) {
      assert forall i :: 0 <= i < 7 ==> u[i] == UNKNOWN[i];
    }
  }
}
