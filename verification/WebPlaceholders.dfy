/** Where the quotes of the sanitised text come from. */
module WebPlaceholders {
  import opened Text
  import opened WebLexer

  /** The position of a placeholder: its opening and closing quote. */
  datatype Span = Span(first: nat, last: nat)

  predicate PlainChunk(c: string) {
    |c| == 1 && !IsQuote(c[0])
  }

  predicate PlaceholderChunk(c: string, index: nat) {
    c == Placeholder('\'', index) || c == Placeholder('"', index)
  }

  /** Every chunk is one character other than a quote, or the next of `n` placeholders. */
  predicate Placed(out: seq<string>, n: nat) {
    if out == [] then n == 0
    else
      var c := out[|out| - 1];
      || (PlainChunk(c) && Placed(out[..|out| - 1], n))
      || (n > 0 && PlaceholderChunk(c, n - 1) && Placed(out[..|out| - 1], n - 1))
  }

  /** The placeholders of the chunks, in order. */
  function Spans(out: seq<string>): seq<Span> {
    if out == [] then []
    else
      var before := out[..|out| - 1];
      var c := out[|out| - 1];
      if |c| <= 1 then Spans(before)
      else Spans(before) + [Span(|Concat(before)|, |Concat(before)| + |c| - 1)]
  }

  lemma PlacedPlain(out: seq<string>, n: nat, c: string)
    requires Placed(out, n) && PlainChunk(c)
    ensures Placed(out + [c], n)
  {
    assert (out + [c])[..|out|] == out;
  }

  lemma PlacedLiteral(out: seq<string>, n: nat, c: string)
    requires Placed(out, n) && PlaceholderChunk(c, n)
    ensures Placed(out + [c], n + 1)
  {
    assert (out + [c])[..|out|] == out;
  }

  lemma StepPlaced(st: State, s: string)
    requires s != [] && Placed(st.out, |st.strings|)
    ensures Placed(Step(st, s).0.out, |Step(st, s).0.strings|)
  {
    var ch := s[0];
    PlacedPlain(st.out, |st.strings|, " ");
    if ch == '/' {
      PlacedPlain(st.out, |st.strings|, "/");
    } else if IsQuote(ch) {
      PlacedLiteral(st.out, |st.strings|, Placeholder(ch, |st.strings|));
    } else {
      PlacedPlain(st.out, |st.strings|, [ch]);
    }
  }

  lemma {:induction false} LexPlaced(st: State, s: string)
    requires Placed(st.out, |st.strings|)
    ensures Placed(Lex(st, s).out, |Lex(st, s).strings|)
    decreases |s|
  {
    if s != [] {
      StepPlaced(st, s);
      var (next, k) := Step(st, s);
      LexPlaced(next, s[k..]);
    }
  }

  ghost predicate Ordered(spans: seq<Span>) {
    && (forall k :: 0 <= k < |spans| ==> spans[k].first < spans[k].last)
    && (forall k, l :: 0 <= k < l < |spans| ==> spans[k].last < spans[l].first)
  }

  /** Span `k` of `s` holds placeholder `k`. */
  ghost predicate Holds(s: string, span: Span, k: nat) {
    span.first <= span.last < |s| && PlaceholderChunk(s[span.first..span.last + 1], k)
  }

  ghost predicate IsEnd(spans: seq<Span>, p: nat) {
    exists k :: 0 <= k < |spans| && (p == spans[k].first || p == spans[k].last)
  }

  /** The shape of the sanitised text. */
  ghost predicate Shape(s: string, spans: seq<Span>) {
    && Ordered(spans)
    && (forall k :: 0 <= k < |spans| ==> Holds(s, spans[k], k))
    && (forall p :: 0 <= p < |s| ==> (IsQuote(s[p]) <==> IsEnd(spans, p)))
  }

  lemma PlaceholderQuotes(c: string, k: nat)
    requires PlaceholderChunk(c, k)
    ensures |c| >= 5 && IsQuote(c[0]) && IsQuote(c[|c| - 1]) && c[1] == '\0' && c[|c| - 2] == '\0'
    ensures c[1..|c| - 1] == ['\0'] + Decimal(k) + ['\0']
    ensures forall i :: 0 < i < |c| - 1 ==> !IsQuote(c[i])
  {
    assert c[2..|c| - 2] == Decimal(k);
    forall i | 0 < i < |c| - 1
      ensures !IsQuote(c[i])
    {
      if 2 <= i < |c| - 2 {
        assert c[i] == Decimal(k)[i - 2];
      }
    }
  }

  lemma HoldsLonger(t: string, c: string, span: Span, k: nat)
    requires Holds(t, span, k)
    ensures Holds(t + c, span, k)
  {
    assert (t + c)[span.first..span.last + 1] == t[span.first..span.last + 1];
  }

  lemma ShapeGrows(t: string, spans: seq<Span>, c: string)
    requires Shape(t, spans) && PlainChunk(c)
    ensures Shape(t + c, spans)
  {
    forall k | 0 <= k < |spans|
      ensures Holds(t + c, spans[k], k)
    {
      HoldsLonger(t, c, spans[k], k);
    }
    forall p | 0 <= p < |t + c|
      ensures IsQuote((t + c)[p]) <==> IsEnd(spans, p)
    {
      if p < |t| {
        assert (t + c)[p] == t[p];
      }
    }
  }

  lemma EndsOfMore(spans: seq<Span>, span: Span, p: nat)
    ensures IsEnd(spans + [span], p) <==> IsEnd(spans, p) || p == span.first || p == span.last
  {
    var more := spans + [span];
    assert more[|spans|] == span;
    if IsEnd(spans, p) {
      var k :| 0 <= k < |spans| && (p == spans[k].first || p == spans[k].last);
      assert more[k] == spans[k];
    }
  }

  lemma EndsInside(t: string, spans: seq<Span>, p: nat)
    requires Shape(t, spans) && IsEnd(spans, p)
    ensures p < |t|
  {
    var k :| 0 <= k < |spans| && (p == spans[k].first || p == spans[k].last);
    assert Holds(t, spans[k], k);
  }

  lemma EndsAdded(t: string, spans: seq<Span>, c: string, p: nat)
    requires Shape(t, spans) && PlaceholderChunk(c, |spans|) && p < |t + c|
    ensures IsQuote((t + c)[p]) <==> IsEnd(spans + [Span(|t|, |t + c| - 1)], p)
  {
    EndsOfMore(spans, Span(|t|, |t + c| - 1), p);
    PlaceholderQuotes(c, |spans|);
    if p >= |t| {
      assert (t + c)[p] == c[p - |t|];
      if IsEnd(spans, p) {
        EndsInside(t, spans, p);
      }
    }
  }

  lemma HoldsAdded(t: string, spans: seq<Span>, c: string, k: nat)
    requires Shape(t, spans) && PlaceholderChunk(c, |spans|) && k <= |spans|
    ensures |c| > 1 && Holds(t + c, (spans + [Span(|t|, |t + c| - 1)])[k], k)
  {
    PlaceholderQuotes(c, |spans|);
    if k < |spans| {
      HoldsLonger(t, c, spans[k], k);
    } else {
      assert (t + c)[|t|..|t + c|] == c;
    }
  }

  lemma OrderedAdded(t: string, spans: seq<Span>, span: Span)
    requires Shape(t, spans) && |t| <= span.first < span.last
    ensures Ordered(spans + [span])
  {
    forall k | 0 <= k < |spans|
      ensures spans[k].last < span.first
    {
      assert Holds(t, spans[k], k);
    }
  }

  lemma ShapeAdds(t: string, spans: seq<Span>, c: string)
    requires Shape(t, spans) && PlaceholderChunk(c, |spans|)
    ensures |c| > 1 && Shape(t + c, spans + [Span(|t|, |t + c| - 1)])
  {
    PlaceholderQuotes(c, |spans|);
    var span := Span(|t|, |t + c| - 1);
    OrderedAdded(t, spans, span);
    forall k | 0 <= k < |spans + [span]|
      ensures Holds(t + c, (spans + [span])[k], k)
    {
      HoldsAdded(t, spans, c, k);
    }
    forall p | 0 <= p < |t + c|
      ensures IsQuote((t + c)[p]) <==> IsEnd(spans + [span], p)
    {
      EndsAdded(t, spans, c, p);
    }
  }

  lemma {:induction false} PlacedShape(out: seq<string>, n: nat)
    requires Placed(out, n)
    ensures |Spans(out)| == n && Shape(Concat(out), Spans(out))
  {
    if out != [] {
      var before, c := out[..|out| - 1], out[|out| - 1];
      var t, spans := Concat(before), Spans(before);
      if PlainChunk(c) {
        PlacedShape(before, n);
        ShapeGrows(t, spans, c);
      } else {
        PlacedShape(before, n - 1);
        ShapeAdds(t, spans, c);
        assert Spans(out) == spans + [Span(|t|, |t + c| - 1)];
      }
    }
  }

  /** For every input, the quotes of the sanitised text are exactly the ends of its
      placeholders, which do not overlap; there is one for each entry of the side table and
      the k-th carries index k. */
  lemma QuotesBelong(text: string)
    ensures var st := Lex(START, text);
            |Spans(st.out)| == |st.strings| && Shape(st.Sanitized(), Spans(st.out))
  {
    LexPlaced(START, text);
    PlacedShape(Lex(START, text).out, |Lex(START, text).strings|);
  }

  lemma HeldAt(s: string, span: Span, k: nat, i: nat)
    requires Holds(s, span, k) && span.first <= i <= span.last
    ensures span.first + 4 <= span.last
    ensures (i == span.first + 1 || i == span.last - 1) ==> s[i] == '\0'
    ensures IsQuote(s[i]) <==> i == span.first || i == span.last
  {
    var c := s[span.first..span.last + 1];
    PlaceholderQuotes(c, k);
    assert s[i] == c[i - span.first];
  }

  lemma HeldInside(s: string, span: Span, k: nat)
    requires Holds(s, span, k)
    ensures span.first < span.last && s[span.first + 1..span.last] == ['\0'] + Decimal(k) + ['\0']
  {
    var c := s[span.first..span.last + 1];
    PlaceholderQuotes(c, k);
    SliceSlice(s, span.first, span.last + 1, 1, |c| - 1);
  }

  /** The quotes at both ends of a span, when `a` opens and `b` is the next quote. */
  lemma OpensSpan(s: string, span: Span, k: nat, a: nat, b: nat)
    requires Holds(s, span, k) && Opens(s, a, b) && (a == span.first || a == span.last)
    ensures span == Span(a, b)
  {
    HeldAt(s, span, k, span.last - 1);
    assert a == span.first;
    HeldAt(s, span, k, span.last);
    if b < span.last {
      HeldAt(s, span, k, b);
    }
  }

  ghost predicate Opens(s: string, a: nat, b: nat) {
    && a < b < |s| && IsQuote(s[a]) && IsQuote(s[b])
    && (a > 0 ==> s[a - 1] != '\0')
    && forall i :: a < i < b ==> !IsQuote(s[i])
  }

  /** A quote that does not directly follow a NUL opens the placeholder of an entry `k` of the
      side table, and the next quote is the one that closes it. */
  lemma QuoteOpens(text: string, a: nat, b: nat) returns (k: nat)
    requires Opens(Lex(START, text).Sanitized(), a, b)
    ensures var st := Lex(START, text);
            k < |st.strings| == |Spans(st.out)| && Spans(st.out)[k] == Span(a, b)
            && st.Sanitized()[a + 1..b] == ['\0'] + Decimal(k) + ['\0']
  {
    QuotesBelong(text);
    var st := Lex(START, text);
    var s, spans := st.Sanitized(), Spans(st.out);
    assert IsEnd(spans, a);
    k :| 0 <= k < |spans| && (a == spans[k].first || a == spans[k].last);
    var span := spans[k];
    assert Holds(s, span, k);
    OpensSpan(s, span, k, a, b);
    HeldInside(s, span, k);
  }
}
