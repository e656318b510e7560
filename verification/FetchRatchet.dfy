/** The shrink-only baseline of the external-fetch check: its file, its verdict, its history. */
module FetchRatchet {
  import opened Text

  // ---- lines of a file ----

  /** The characters at which `str.splitlines` breaks. */
  predicate IsBreak(c: char) {
    || '\n' <= c <= '\r' || '\U{1c}' <= c <= '\U{1e}' || c == '\U{85}' || c == '\U{2028}' || c == '\U{2029}'
  }

  predicate Unbroken(s: string) { forall i :: 0 <= i < |s| ==> !IsBreak(s[i]) }

  function FirstBreak(s: string): (k: nat)
    ensures k <= |s| && (forall i :: 0 <= i < k ==> !IsBreak(s[i])) && (k < |s| ==> IsBreak(s[k]))
  {
    if s == [] || IsBreak(s[0]) then 0 else FirstBreak(s[1..]) + 1
  }

  /** Python's `str.splitlines`. */
  function SplitLines(s: string): (lines: seq<string>)
    ensures forall i :: 0 <= i < |lines| ==> Unbroken(lines[i])
    decreases |s|
  {
    if s == [] then []
    else
      var k := FirstBreak(s);
      if k == |s| then [s[..k]]
      else [s[..k]] + SplitLines(s[if OccursAt(s, k, "\r\n") then k + 2 else k + 1..])
  }

  /** Each line with its newline. */
  function JoinLines(lines: seq<string>): string {
    if lines == [] then [] else lines[0] + "\n" + JoinLines(lines[1..])
  }

  lemma FirstLine(first: string, rest: string)
    requires Unbroken(first)
    ensures SplitLines(first + "\n" + rest) == [first] + SplitLines(rest)
  {
    var s := first + "\n" + rest;
    var k := FirstBreak(s);
    assert s[|first|] == '\n' && forall i :: 0 <= i < |first| ==> s[i] == first[i];
    assert k == |first|;
    assert s[..k] == first && s[k + 1..] == rest;
    assert !OccursAt(s, k, "\r\n") by {
      if OccursAt(s, k, "\r\n") {
        NewlineApart(s, k);
      }
    }
  }

  lemma NewlineApart(s: string, k: nat)
    requires OccursAt(s, k, "\r\n")
    ensures s[k] == '\r'
  {
    assert s[k] == s[k..k + 2][0];
  }

  lemma HeadTail<T>(s: seq<T>)
    requires s != []
    ensures [s[0]] + s[1..] == s
  {
  }

  lemma {:induction false} LinesOfJoin(lines: seq<string>)
    requires forall i :: 0 <= i < |lines| ==> Unbroken(lines[i])
    ensures SplitLines(JoinLines(lines)) == lines
  {
    if lines != [] {
      FirstLine(lines[0], JoinLines(lines[1..]));
      LinesOfJoin(lines[1..]);
      HeadTail(lines);
    }
  }

  // ---- the baseline file ----

  /** `int(s)` for an optional sign and ASCII digits, spaces around them ignored. */
  function ReadInt(s: string): Option<int> {
    var t := Strip(s);
    var signed := t != [] && (t[0] == '-' || t[0] == '+');
    var digits := if signed then t[1..] else t;
    var value: int := Numeral(digits);
    if !Digits(digits) then None else if signed && t[0] == '-' then Some(-value) else Some(value)
  }

  datatype Entry = Skip | Bad | Put(rel: string, count: int)

  function ReadLine(line: string): Entry {
    var l := Strip(line);
    if l == [] || l[0] == '#' then Skip
    else
      var k := IndexOf(l, '\t');
      var count := ReadInt(l[..k]);
      if count == None then Bad
      else Put(Strip(if k < |l| then l[k + 1..] else []), count.value)
  }

  /** The entries of the lines, a later one winning; none when a count is not a number. */
  function ReadLines(lines: seq<string>): Option<map<string, int>> {
    if lines == [] then Some(map[])
    else
      var before := ReadLines(lines[..|lines| - 1]);
      if before == None then None
      else
        match ReadLine(lines[|lines| - 1])
        case Skip => before
        case Bad => None
        case Put(rel, count) => Some(before.value[rel := count])
  }

  method LoadBaseline(file: Option<string>) returns (baseline: Option<map<string, int>>)
    ensures baseline == Baseline(file)
  {
    if file == None {
      return Some(map[]);
    }
    var entries: map<string, int> := map[];
    var lines := SplitLines(file.value);
    for i := 0 to |lines|
      invariant ReadLines(lines[..i]) == Some(entries)
    {
      assert lines[..i + 1] == lines[..i] + [lines[i]];
      ReadLinesStep(lines[..i], lines[i]);
      var entry := ReadLine(lines[i]);
      if entry.Bad? {
        Spoils(lines, i + 1);
        return None;
      }
      if entry.Put? {
        entries := entries[entry.rel := entry.count];
      }
    }
    assert lines[..|lines|] == lines;
    baseline := Some(entries);
  }

  lemma {:induction false} Spoils(lines: seq<string>, i: nat)
    requires i <= |lines| && ReadLines(lines[..i]) == None
    ensures ReadLines(lines) == None
    decreases |lines| - i
  {
    if i < |lines| {
      assert lines[..i + 1] == lines[..i] + [lines[i]];
      ReadLinesStep(lines[..i], lines[i]);
      Spoils(lines, i + 1);
    } else {
      assert lines[..i] == lines;
    }
  }

  function Baseline(file: Option<string>): Option<map<string, int>> {
    if file == None then Some(map[]) else ReadLines(SplitLines(file.value))
  }

  /** The comment lines on top, which say how many calls and files there are. */
  predicate IsHeader(header: seq<string>) {
    forall i :: 0 <= i < |header| ==> header[i] != [] && header[i][0] == '#' && Unbroken(header[i])
  }

  /** `rels` is `sorted(counts)`. */
  ghost predicate Sorted(rels: seq<string>, counts: map<string, nat>) {
    && (forall rel :: rel in rels <==> rel in counts)
    && (forall i, j :: 0 <= i < j < |rels| ==> StringLess(rels[i], rels[j]))
  }

  function Line(counts: map<string, nat>, rel: string): string
    requires rel in counts
  {
    Decimal(counts[rel]) + "\t" + rel
  }

  function Lines(counts: map<string, nat>, rels: seq<string>): (lines: seq<string>)
    requires forall rel :: rel in rels ==> rel in counts
    ensures |lines| == |rels| && forall i :: 0 <= i < |rels| ==> lines[i] == Line(counts, rels[i])
  {
    seq(|rels|, i requires 0 <= i < |rels| => Line(counts, rels[i]))
  }

  function Written(counts: map<string, nat>, header: seq<string>, rels: seq<string>): string
    requires forall rel :: rel in rels ==> rel in counts
  {
    JoinLines(header + Lines(counts, rels))
  }

  // ---- reading back what was written ----

  /** A path that survives the file: no spaces at its ends and no line break in it. */
  predicate Stable(rel: string) { Strip(rel) == rel && Unbroken(rel) }

  ghost predicate AllStable(counts: map<string, nat>) { forall rel :: rel in counts ==> Stable(rel) }

  lemma SolidStays(s: string)
    requires s != [] && !IsSpace(s[0]) && !IsSpace(s[|s| - 1])
    ensures Strip(s) == s
  {
  }

  lemma StableEnds(rel: string)
    requires Strip(rel) == rel && rel != []
    ensures !IsSpace(rel[|rel| - 1])
  {
  }

  lemma TabAfter(n: string, rest: string)
    requires Digits(n)
    ensures IndexOf(n + "\t" + rest, '\t') == |n|
  {
    var line := n + "\t" + rest;
    var k := IndexOf(line, '\t');
    assert forall i :: 0 <= i < |n| ==> line[i] == n[i] && IsDigit(line[i]);
    assert line[|n|] == '\t';
    IndexOfBefore(line, '\t', |n|);
  }

  lemma LineStripped(n: string, rel: string)
    requires Digits(n) && Stable(rel)
    ensures Strip(n + "\t" + rel) == if rel == [] then n else n + "\t" + rel
    ensures Unbroken(n + "\t" + rel)
  {
    var line := n + "\t" + rel;
    assert line[0] == n[0] && IsDigit(line[0]);
    if rel == [] {
      StripTab(n);
      assert line == n + ['\t'];
    } else {
      StableEnds(rel);
      assert line[|line| - 1] == rel[|rel| - 1];
      SolidStays(line);
    }
    forall i | 0 <= i < |line|
      ensures !IsBreak(line[i])
    {
      if i > |n| {
        assert line[i] == rel[i - |n| - 1];
      } else if i < |n| {
        assert line[i] == n[i];
      }
    }
  }

  lemma StripTab(n: string)
    requires Digits(n)
    ensures Strip(n + ['\t']) == n == Strip(n)
  {
    StripSpace(n, '\t');
    SolidStays(n);
  }

  lemma NoTab(n: string)
    requires Digits(n)
    ensures IndexOf(n, '\t') == |n|
  {
  }

  lemma DecimalReads(n: nat)
    ensures ReadInt(Decimal(n)) == Some(n) && Digits(Decimal(n))
  {
    SolidStays(Decimal(n));
    NumeralOfDecimal(n);
    assert IsDigit(Decimal(n)[0]);
  }

  /** The line of a stable path is read as that path with its count. */
  lemma LineReads(count: nat, rel: string)
    requires Stable(rel)
    ensures ReadLine(Decimal(count) + "\t" + rel) == Put(rel, count)
  {
    var n := Decimal(count);
    var line := n + "\t" + rel;
    DecimalReads(count);
    LineStripped(n, rel);
    if rel == [] {
      NoTab(n);
      assert n[..|n|] == n;
    } else {
      TabAfter(n, rel);
      assert line[..|n|] == n && line[|n| + 1..] == rel;
    }
  }

  lemma ReadLinesStep(lines: seq<string>, line: string)
    ensures ReadLines(lines + [line]) ==
            if ReadLines(lines) == None || ReadLine(line).Bad? then None
            else if ReadLine(line).Skip? then ReadLines(lines)
            else Some(ReadLines(lines).value[ReadLine(line).rel := ReadLine(line).count])
  {
    assert (lines + [line])[..|lines|] == lines;
  }

  lemma {:induction false} HeaderReads(header: seq<string>)
    requires IsHeader(header)
    ensures ReadLines(header) == Some(map[])
  {
    if header != [] {
      var init, last := header[..|header| - 1], header[|header| - 1];
      HeaderReads(init);
      StripHash(last);
      ReadLinesStep(init, last);
      assert header == init + [last];
    }
  }

  lemma {:induction false} StripRightFirst(s: string)
    requires s != [] && !IsSpace(s[0])
    ensures StripRight(s) != [] && StripRight(s)[0] == s[0]
  {
    if IsSpace(s[|s| - 1]) {
      StripRightFirst(s[..|s| - 1]);
    }
  }

  lemma StripHash(line: string)
    requires line != [] && line[0] == '#'
    ensures ReadLine(line) == Skip
  {
    StripRightFirst(line);
  }

  /** The counts of the first `n` paths. */
  ghost predicate CountsOf(entries: map<string, int>, counts: map<string, nat>, rels: seq<string>) {
    && (forall rel :: rel in entries <==> rel in rels)
    && (forall rel :: rel in entries ==> rel in counts && entries[rel] == counts[rel])
  }

  lemma CountsStep(entries: map<string, int>, counts: map<string, nat>, init: seq<string>, last: string)
    requires last in counts && CountsOf(entries, counts, init)
    ensures CountsOf(entries[last := counts[last]], counts, init + [last])
  {
  }

  lemma LinesStep(header: seq<string>, counts: map<string, nat>, init: seq<string>, last: string)
    requires last in counts && forall rel :: rel in init ==> rel in counts
    ensures header + Lines(counts, init + [last]) == header + Lines(counts, init) + [Line(counts, last)]
  {
  }

  lemma {:induction false} EntriesRead(header: seq<string>, counts: map<string, nat>, rels: seq<string>)
    returns (entries: map<string, int>)
    requires IsHeader(header) && forall rel :: rel in rels ==> rel in counts && Stable(rel)
    ensures ReadLines(header + Lines(counts, rels)) == Some(entries) && CountsOf(entries, counts, rels)
  {
    if rels == [] {
      HeaderReads(header);
      assert header + Lines(counts, rels) == header;
      entries := map[];
    } else {
      var init, last := rels[..|rels| - 1], rels[|rels| - 1];
      assert rels == init + [last];
      entries := EntriesRead(header, counts, init);
      CountsStep(entries, counts, init, last);
      LinesStep(header, counts, init, last);
      entries := PutRead(header + Lines(counts, init), entries, counts[last], last);
    }
  }

  lemma PutRead(lines: seq<string>, entries: map<string, int>, count: nat, rel: string)
    returns (more: map<string, int>)
    requires ReadLines(lines) == Some(entries) && Stable(rel)
    ensures more == entries[rel := count]
    ensures ReadLines(lines + [Decimal(count) + "\t" + rel]) == Some(more)
  {
    more := entries[rel := count];
    LineReads(count, rel);
    ReadLinesStep(lines, Decimal(count) + "\t" + rel);
  }

  lemma LinesUnbroken(counts: map<string, nat>, rels: seq<string>)
    requires forall rel :: rel in rels ==> rel in counts && Stable(rel)
    ensures forall i :: 0 <= i < |rels| ==> Unbroken(Lines(counts, rels)[i])
  {
    forall i | 0 <= i < |rels|
      ensures Unbroken(Lines(counts, rels)[i])
    {
      var rel := rels[i];
      DecimalReads(counts[rel]);
      LineStripped(Decimal(counts[rel]), rel);
    }
  }

  lemma WrittenReads(counts: map<string, nat>, header: seq<string>, rels: seq<string>)
    requires IsHeader(header) && Sorted(rels, counts) && AllStable(counts)
    ensures Baseline(Some(Written(counts, header, rels))) == Some(counts)
  {
    var lines := header + Lines(counts, rels);
    LinesUnbroken(counts, rels);
    assert forall i :: 0 <= i < |lines| ==>
             lines[i] == if i < |header| then header[i] else Lines(counts, rels)[i - |header|];
    LinesOfJoin(lines);
    var entries := EntriesRead(header, counts, rels);
    assert entries == counts;
  }

  // ---- whatever is read is stable ----

  lemma {:induction false} StripWithin(s: string, c: char)
    ensures c in StripLeft(s) ==> c in s
    ensures c in StripRight(s) ==> c in s
    decreases |s|
  {
    if s != [] {
      if IsSpace(s[0]) {
        StripWithin(s[1..], c);
      }
      if IsSpace(s[|s| - 1]) {
        StripWithin(s[..|s| - 1], c);
      }
    }
  }

  lemma StripUnbroken(s: string)
    requires Unbroken(s)
    ensures Unbroken(Strip(s))
  {
    var t := Strip(s);
    forall i | 0 <= i < |t|
      ensures !IsBreak(t[i])
    {
      StripWithin(StripLeft(s), t[i]);
      StripWithin(s, t[i]);
    }
  }

  lemma {:induction false} StripLeftTwice(s: string)
    ensures Strip(StripLeft(s)) == Strip(s)
  {
    if s != [] && IsSpace(s[0]) {
      StripLeftTwice(s[1..]);
    }
  }

  lemma {:induction false} StripRightTwice(s: string)
    ensures Strip(StripRight(s)) == Strip(s)
  {
    if s != [] && IsSpace(s[|s| - 1]) {
      StripRightTwice(s[..|s| - 1]);
      StripSpace(s[..|s| - 1], s[|s| - 1]);
      assert s == s[..|s| - 1] + [s[|s| - 1]];
    }
  }

  lemma LineIsStable(line: string)
    requires Unbroken(line) && ReadLine(line).Put?
    ensures Stable(ReadLine(line).rel)
  {
    var l := Strip(line);
    StripUnbroken(line);
    var k := IndexOf(l, '\t');
    var rel := if k < |l| then l[k + 1..] else [];
    StripUnbroken(rel);
    StripRightTwice(StripLeft(rel));
    StripLeftTwice(rel);
  }

  lemma {:induction false} ReadIsStable(lines: seq<string>)
    requires forall i :: 0 <= i < |lines| ==> Unbroken(lines[i])
    ensures ReadLines(lines).Some? ==> forall rel :: rel in ReadLines(lines).value ==> Stable(rel)
  {
    if lines != [] {
      ReadIsStable(lines[..|lines| - 1]);
      if ReadLine(lines[|lines| - 1]).Put? {
        LineIsStable(lines[|lines| - 1]);
      }
    }
  }

  lemma BaselineIsStable(file: Option<string>)
    ensures Baseline(file).Some? ==> forall rel :: rel in Baseline(file).value ==> Stable(rel)
  {
    if file.Some? {
      ReadIsStable(SplitLines(file.value));
    }
  }

  /** A written baseline reads back as the same counts exactly when every path is free of line
      breaks and of spaces at its ends. */
  lemma RoundTrip(counts: map<string, nat>, header: seq<string>, rels: seq<string>)
    requires IsHeader(header) && Sorted(rels, counts)
    ensures Baseline(Some(Written(counts, header, rels))) == Some(counts) <==> AllStable(counts)
  {
    if AllStable(counts) {
      WrittenReads(counts, header, rels);
    }
    BaselineIsStable(Some(Written(counts, header, rels)));
  }

  /** A path with a line break in it is not read back. */
  lemma BrokenPathExample(header: seq<string>)
    requires IsHeader(header)
    ensures var counts: map<string, nat> := map["a\nb.py" := 1];
            Sorted(["a\nb.py"], counts) && Baseline(Some(Written(counts, header, ["a\nb.py"]))) != Some(counts)
  {
    var rel := "a\nb.py";
    var counts: map<string, nat> := map[rel := 1];
    assert rel in [rel] && rel[1] == '\n';
    assert !Stable(rel) && rel in counts;
    RoundTrip(counts, header, [rel]);
  }

  // ---- lines that were not written by the script ----

  predicate IsEnding(end: string) { end == "\r\n" || (|end| == 1 && IsBreak(end[0])) }

  function JoinWith(lines: seq<string>, end: string): string {
    if lines == [] then [] else lines[0] + end + JoinWith(lines[1..], end)
  }

  /** Lines without breaks are read back whichever ending they are joined with, and so is a last line
      without one. */
  lemma {:induction false} LinesOfEndings(lines: seq<string>, end: string, last: string)
    requires IsEnding(end) && Unbroken(last) && forall i :: 0 <= i < |lines| ==> Unbroken(lines[i])
    ensures SplitLines(JoinWith(lines, end) + last) == lines + if last == [] then [] else [last]
  {
    if lines == [] {
      assert [] + last == last;
      LastLine(last);
    } else {
      var rest := JoinWith(lines[1..], end) + last;
      LinesOfEndings(lines[1..], end, last);
      NoNewlineFirst(lines[1..], end, last);
      assert Unbroken(lines[0]);
      var tail := if last == [] then [] else [last];
      hide SplitLines, Unbroken, IsEnding;
      EndingSplits(lines[0], end, rest);
      assert JoinWith(lines, end) + last == lines[0] + end + rest;
      HeadTail(lines);
      AppendAssoc([lines[0]], lines[1..], tail);
    }
  }

  lemma NoNewlineFirst(lines: seq<string>, end: string, last: string)
    requires Unbroken(last) && forall i :: 0 <= i < |lines| ==> Unbroken(lines[i])
    ensures var s := JoinWith(lines, end) + last; end == "\r" ==> s == [] || s[0] != '\n'
  {
    if lines != [] {
      assert Unbroken(lines[0]);
      assert lines[0] != [] ==> !IsBreak(lines[0][0]);
    } else {
      assert last != [] ==> !IsBreak(last[0]);
    }
  }

  lemma LastLine(last: string)
    requires Unbroken(last)
    ensures SplitLines(last) == if last == [] then [] else [last]
  {
    assert last[..|last|] == last;
    assert FirstBreak(last) == |last|;
  }

  lemma EndingSplits(first: string, end: string, rest: string)
    requires Unbroken(first) && IsEnding(end)
    requires end == "\r" ==> rest == [] || rest[0] != '\n'
    ensures SplitLines(first + end + rest) == [first] + SplitLines(rest)
  {
    var s, n := first + end + rest, |first|;
    BreakComesFirst(first, end, rest);
    hide FirstBreak, Unbroken;
    EndingAt(first, end, rest);
    assert s[..n] == first && s[n + |end|..] == rest;
  }

  lemma BreakComesFirst(first: string, end: string, rest: string)
    requires Unbroken(first) && IsEnding(end)
    ensures FirstBreak(first + end + rest) == |first|
  {
    var s := first + end + rest;
    var k := FirstBreak(s);
    assert s[|first|] == end[0] && forall i :: 0 <= i < |first| ==> s[i] == first[i];
    assert k < |s| ==> IsBreak(s[k]);
  }

  lemma EndingAt(first: string, end: string, rest: string)
    requires IsEnding(end) && (end == "\r" ==> rest == [] || rest[0] != '\n')
    ensures OccursAt(first + end + rest, |first|, "\r\n") <==> end == "\r\n"
  {
    var s, k := first + end + rest, |first|;
    if end == "\r\n" {
      assert s[k..k + 2] == "\r\n";
    } else if k + 2 <= |s| {
      assert s[k..k + 2] == [end[0], rest[0]];
      assert end[0] == '\r' ==> end == "\r";
    }
  }

  /** A sign is read, and white space around a count does not matter. */
  lemma CountReads(n: nat, lead: string, trail: string)
    requires AllSpace(lead) && AllSpace(trail)
    ensures ReadInt(lead + (Decimal(n) + trail)) == Some(n)
    ensures ReadInt(lead + (("+" + Decimal(n)) + trail)) == Some(n)
    ensures ReadInt(lead + (("-" + Decimal(n)) + trail)) == Some(-(n as int))
  {
    hide Decimal, Numeral, Strip, ReadInt;
    NumeralOfDecimal(n);
    var d := Decimal(n);
    assert Digits(d);
    hide Digits;
    DigitsRead(d);
    SignApart(d);
    Spaced(lead, d, trail);
    Spaced(lead, "+" + d, trail);
    Spaced(lead, "-" + d, trail);
    SameStripped(lead + (d + trail), d);
    SameStripped(lead + (("+" + d) + trail), "+" + d);
    SameStripped(lead + (("-" + d) + trail), "-" + d);
  }

  lemma SameStripped(s: string, t: string)
    requires Strip(s) == t && Strip(t) == t
    ensures ReadInt(s) == ReadInt(t)
  {
    hide Strip;
  }

  lemma SignApart(d: string)
    requires Digits(d)
    ensures d != [] && !IsSpace(d[0]) && !IsSpace(d[|d| - 1])
    ensures !IsSpace(("+" + d)[0]) && !IsSpace(("+" + d)[|d|]) && !IsSpace(("-" + d)[0]) && !IsSpace(("-" + d)[|d|])
    ensures Strip(d) == d && Strip("+" + d) == "+" + d && Strip("-" + d) == "-" + d
  {
    assert IsDigit(d[0]) && IsDigit(d[|d| - 1]);
    SolidStays(d);
    SolidStays("+" + d);
    SolidStays("-" + d);
  }

  lemma DigitsRead(d: string)
    requires Digits(d)
    ensures ReadInt(d) == Some(Numeral(d)) && ReadInt("+" + d) == Some(Numeral(d))
    ensures ReadInt("-" + d) == Some(-(Numeral(d) as int))
  {
    SignApart(d);
    hide Strip, Numeral;
    assert IsDigit(d[0]);
    assert ("+" + d)[1..] == d && ("-" + d)[1..] == d;
  }

  lemma Spaced(lead: string, s: string, trail: string)
    requires AllSpace(lead) && AllSpace(trail) && s != [] && !IsSpace(s[0]) && !IsSpace(s[|s| - 1])
    ensures Strip(lead + (s + trail)) == s
  {
    StripLeftSpace(lead, s + trail);
    StripRightSpace(trail, s);
  }

  /** A blank line is skipped. */
  lemma BlankSkipped(line: string)
    requires AllSpace(line)
    ensures ReadLine(line) == Skip
  {
    StripBlank(line);
  }

  // ---- the check ----

  /** No file has more calls than the baseline allows, a file without an entry having none. */
  predicate Passes(counts: map<string, nat>, baseline: map<string, int>) {
    forall rel :: rel in counts ==> counts[rel] <= if rel in baseline then baseline[rel] else 0
  }

  method Check(counts: map<string, nat>, rels: seq<string>, file: Option<string>)
    returns (failed: bool, regressions: seq<string>)
    requires Sorted(rels, counts)
    ensures failed <==> Baseline(file) == None || !Passes(counts, Baseline(file).value)
    ensures Baseline(file).Some? ==> forall rel :: rel in regressions <==>
              rel in counts && counts[rel] > if rel in Baseline(file).value then Baseline(file).value[rel] else 0
  {
    var loaded := LoadBaseline(file);
    regressions := [];
    if loaded == None {
      return true, [];
    }
    var baseline := loaded.value;
    for i := 0 to |rels|
      invariant forall rel :: rel in regressions <==>
                  rel in rels[..i] && counts[rel] > if rel in baseline then baseline[rel] else 0
    {
      var allowed := if rels[i] in baseline then baseline[rels[i]] else 0;
      assert rels[..i + 1] == rels[..i] + [rels[i]];
      if counts[rels[i]] > allowed {
        regressions := regressions + [rels[i]];
      }
    }
    assert rels[..|rels|] == rels;
    failed := regressions != [];
    assert failed ==> regressions[0] in regressions;
  }

  /** The baseline file, which `--update` rewrites and the check only reads. */
  class BaselineFile {
    var file: Option<string>

    method Run(counts: map<string, nat>, rels: seq<string>, header: seq<string>, update: bool) returns (code: int)
      requires Sorted(rels, counts)
      modifies this
      ensures file == if update then Some(Written(counts, header, rels)) else old(file)
      ensures code == 0 <==> update || (Baseline(file).Some? && Passes(counts, Baseline(file).value))
    {
      if update {
        file := Some(Written(counts, header, rels));
        return 0;
      }
      var failed, _ := Check(counts, rels, file);
      code := if failed then 1 else 0;
    }
  }

  // ---- whole histories ----

  /** A commit: the calls each file makes, and the baseline file. */
  datatype Commit = Commit(counts: map<string, nat>, file: Option<string>)

  /** The scan records only files with a call. */
  predicate Scanned(c: Commit) { forall rel :: rel in c.counts ==> c.counts[rel] > 0 }

  ghost predicate Reseeded(c: Commit) {
    exists header, rels :: IsHeader(header) && Sorted(rels, c.counts) && c.file == Some(Written(c.counts, header, rels))
  }

  /** A change that passes the check, after which the baseline may be reseeded. */
  ghost predicate Change(before: Commit, after: Commit) {
    && Scanned(after)
    && Baseline(before.file).Some? && Passes(after.counts, Baseline(before.file).value)
    && (after.file == before.file || Reseeded(after))
  }

  ghost predicate History(commits: seq<Commit>) {
    forall i, j :: 0 <= i && j == i + 1 < |commits| ==> Change(commits[i], commits[j])
  }

  function Calls(c: Commit, rel: string): nat { if rel in c.counts then c.counts[rel] else 0 }

  /** How many calls the baseline lets a file make. */
  function Allowance(c: Commit, rel: string): nat {
    var baseline := Baseline(c.file);
    if baseline.Some? && rel in baseline.value && baseline.value[rel] > 0 then baseline.value[rel] else 0
  }

  /** One change: the baseline still reads, no allowance grows, and no file exceeds its own. No
      condition on paths is needed, because only stable ones can pass. */
  lemma ChangeShrinks(before: Commit, after: Commit)
    requires Change(before, after)
    ensures Baseline(after.file).Some?
    ensures forall rel :: Calls(after, rel) <= Allowance(after, rel) <= Allowance(before, rel)
  {
    var baseline := Baseline(before.file).value;
    BaselineIsStable(before.file);
    if after.file != before.file {
      var header, rels :| IsHeader(header) && Sorted(rels, after.counts)
                       && after.file == Some(Written(after.counts, header, rels));
      forall rel | rel in after.counts
        ensures Stable(rel)
      {
        assert rel in baseline;
      }
      WrittenReads(after.counts, header, rels);
    }
  }

  /** Over any history, every baseline reads, allowances never grow, and no file ever makes more
      calls than the baseline the history began with allowed it. */
  lemma {:induction false} NeverClimbs(commits: seq<Commit>, i: nat, j: nat)
    requires History(commits) && i < j < |commits|
    ensures Baseline(commits[j].file).Some?
    ensures forall rel :: Calls(commits[j], rel) <= Allowance(commits[j], rel) <= Allowance(commits[i], rel)
    decreases j
  {
    var last := j - 1;
    assert Change(commits[last], commits[j]);
    hide Change, Calls, Allowance, Baseline;
    ChangeShrinks(commits[last], commits[j]);
    if i < last {
      NeverClimbs(commits, i, last);
    }
  }
}
