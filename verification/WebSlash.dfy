/**
 When a slash opens a regex literal. The script looks for a keyword in a window on the end of the
 output; here the window is compared with the whole output.
 */
module WebSlash {
  import opened Text
  import opened WebLexer
  import opened WebPlaceholders
  import opened WebLexerLaws
  import opened WebImportLaws

  /** The identifier that ends the text, white space after it left aside. */
  function LastWord(s: string): string { IdentSuffix(StripRight(s)) }

  function Blanks(s: string): nat { |s| - |StripRight(s)| }

  /** The rule as documented: at the start, after a listed character or after a listed keyword. */
  predicate RegexPromised(s: string) {
    || LastSignificant(s) == None
    || LastSignificant(s).value in REGEX_PREV_CHARS
    || LastWord(s) in REGEX_PREV_KEYWORDS
  }

  /** What a window of sixteen characters shows of a word with `blanks` behind it. */
  function Shown(word: string, blanks: nat): string {
    if |word| + blanks <= 16 then word
    else if blanks >= 16 then []
    else IdentSuffix(word[|word| - (16 - blanks)..])
  }

  // ---- the end of the output, chunk by chunk ----

  /** Where the output ends in characters other than quotes, its last chunks are those characters. */
  lemma {:induction false} OneByOne(out: seq<string>, n: nat, j: nat)
    requires Placed(out, n) && j <= |Concat(out)|
    requires var s := Concat(out); forall i :: |s| - j <= i < |s| ==> !IsQuote(s[i])
    ensures j <= |out| && Concat(out[..|out| - j]) == Concat(out)[..|Concat(out)| - j]
  {
    if j == 0 {
      assert out[..|out|] == out && Concat(out)[..|Concat(out)|] == Concat(out);
    } else {
      var init, c, s := out[..|out| - 1], out[|out| - 1], Concat(out);
      var n' := OneByOneStep(out, n);
      assert forall i :: |s| - j <= i < |s| - 1 ==> Concat(init)[i] == s[i];
      OneByOne(init, n', j - 1);
      assert init[..|init| - (j - 1)] == out[..|out| - j];
      assert Concat(init)[..|Concat(init)| - (j - 1)] == s[..|s| - j];
    }
  }

  lemma OneByOneStep(out: seq<string>, n: nat) returns (n': nat)
    requires Placed(out, n) && Concat(out) != [] && !IsQuote(Concat(out)[|Concat(out)| - 1])
    ensures out != [] && |out[|out| - 1]| == 1 && Placed(out[..|out| - 1], n')
    ensures Concat(out) == Concat(out[..|out| - 1]) + out[|out| - 1]
  {
    var c := out[|out| - 1];
    n' := n;
    if !PlainChunk(c) {
      PlaceholderQuotes(c, n - 1);
    }
  }

  /** The window on the output ends it, and holds at least its last `j` characters. */
  lemma WindowHolds(out: seq<string>, n: nat, j: nat) returns (k: nat)
    requires Placed(out, n) && j <= |Concat(out)| && j <= 16
    requires var s := Concat(out); forall i :: |s| - j <= i < |s| ==> !IsQuote(s[i])
    ensures k <= |Concat(out)| - j && TakeLast(Concat(TakeLast(out, 16)), 24) == Concat(out)[k..]
  {
    var s := Concat(out);
    var m := if |out| <= 16 then 0 else |out| - 16;
    OneByOne(out, n, j);
    assert out == out[..m] + out[m..] && TakeLast(out, 16) == out[m..];
    ConcatAppend(out[..m], out[m..]);
    Shorter(out, m, |out| - j);
    var w := Concat(out[m..]);
    assert s[|s| - |w|..] == w;
    k := if |w| <= 24 then |s| - |w| else |s| - 24;
    assert s[k..] == TakeLast(w, 24);
  }

  lemma {:induction false} Shorter(out: seq<string>, m: nat, n: nat)
    requires m <= n <= |out|
    ensures |Concat(out[..m])| <= |Concat(out[..n])|
  {
    assert out[..n] == out[..m] + out[m..n];
    ConcatAppend(out[..m], out[m..n]);
  }

  /** Sixteen characters other than quotes fill the window. */
  lemma WindowFull(out: seq<string>, n: nat)
    requires Placed(out, n) && 16 <= |Concat(out)|
    requires var s := Concat(out); forall i :: |s| - 16 <= i < |s| ==> !IsQuote(s[i])
    ensures TakeLast(Concat(TakeLast(out, 16)), 24) == Concat(out)[|Concat(out)| - 16..]
  {
    var s := Concat(out);
    OneByOne(out, n, 16);
    var m := |out| - 16;
    assert out == out[..m] + out[m..] && TakeLast(out, 16) == out[m..];
    ConcatAppend(out[..m], out[m..]);
    assert s[..|s| - 16] + Concat(out[m..]) == s;
    assert s[|s| - 16..] == Concat(out[m..]);
  }

  // ---- words and windows ----

  lemma {:induction false} StripSuffix(s: string, k: nat)
    requires k <= |s|
    ensures StripRight(s[k..]) == if k <= |StripRight(s)| then StripRight(s)[k..] else []
  {
    if k < |s| && IsSpace(s[|s| - 1]) {
      StripSuffix(s[..|s| - 1], k);
      assert s[k..][..|s[k..]| - 1] == s[..|s| - 1][k..];
    }
  }

  lemma {:induction false} BlankTail(s: string, i: nat)
    requires |StripRight(s)| <= i < |s|
    ensures IsSpace(s[i])
  {
    if i < |s| - 1 {
      BlankTail(s[..|s| - 1], i);
    }
  }

  lemma {:induction false} WordEnds(s: string)
    ensures |IdentSuffix(s)| <= |s| && IdentSuffix(s) == s[|s| - |IdentSuffix(s)|..]
    ensures forall i :: 0 <= i < |IdentSuffix(s)| ==> IsIdentPart(IdentSuffix(s)[i])
  {
    if s != [] && IsIdentPart(s[|s| - 1]) {
      var init, c := s[..|s| - 1], s[|s| - 1];
      WordEnds(init);
      var longer := IdentSuffix(init);
      assert s[|init| - |longer|..] == init[|init| - |longer|..] + [c];
      assert s[|init|..] == [c];
    }
  }

  /** A window that cuts a text shows the word at its end whole, or the word of what it shows. */
  lemma {:induction false} WordCut(t: string, k: nat)
    requires k <= |t|
    ensures |IdentSuffix(t)| <= |t|
    ensures var word, shown := IdentSuffix(t), |t| - k;
            IdentSuffix(t[k..]) == if |word| <= shown then word else IdentSuffix(word[|word| - shown..])
  {
    WordEnds(t);
    if k == |t| {
      assert IdentSuffix(t)[|IdentSuffix(t)|..] == [];
    } else if IsIdentPart(t[|t| - 1]) {
      var init, c := t[..|t| - 1], t[|t| - 1];
      WordCut(init, k);
      assert t[k..][..|t[k..]| - 1] == init[k..];
      var longer, shown := IdentSuffix(init), |init| - k;
      if |longer| > shown {
        var word := IdentSuffix(t);
        var cut := word[|word| - (shown + 1)..];
        assert word == longer + [c];
        assert cut == longer[|longer| - shown..] + [c];
        assert cut[..|cut| - 1] == longer[|longer| - shown..];
      }
    }
  }

  lemma NotQuoteTail(s: string, i: nat)
    requires |s| - Blanks(s) - |LastWord(s)| <= i < |s|
    ensures !IsQuote(s[i])
  {
    var t := StripRight(s);
    WordEnds(t);
    if i >= |t| {
      BlankTail(s, i);
    } else {
      var word := IdentSuffix(t);
      assert s[i] == t[i] == word[i - (|t| - |word|)];
    }
  }

  lemma Window(out: seq<string>, n: nat) returns (k: nat)
    requires Placed(out, n)
    ensures k <= |Concat(out)| && TakeLast(Concat(TakeLast(out, 16)), 24) == Concat(out)[k..]
    ensures var s := Concat(out); var j := |LastWord(s)| + Blanks(s);
            j <= |s| && if j <= 16 then k <= |s| - j else k == |s| - 16
  {
    var s := Concat(out);
    WordEnds(StripRight(s));
    var j := |LastWord(s)| + Blanks(s);
    forall i | |s| - j <= i < |s|
      ensures !IsQuote(s[i])
    {
      NotQuoteTail(s, i);
    }
    if j <= 16 {
      k := WindowHolds(out, n, j);
    } else {
      WindowFull(out, n);
      k := |s| - 16;
    }
  }

  lemma WordInWindow(s: string, k: nat)
    requires k <= |s|
    requires var j := |LastWord(s)| + Blanks(s);
             j <= |s| && if j <= 16 then k <= |s| - j else k == |s| - 16
    ensures LastWord(s[k..]) == Shown(LastWord(s), Blanks(s))
  {
    hide StripRight, IdentSuffix;
    var t := StripRight(s);
    StripSuffix(s, k);
    NoIdent();
    if k <= |t| {
      WordCut(t, k);
      assert LastWord(s)[|LastWord(s)|..] == [];
    }
  }

  lemma NoIdent()
    ensures IdentSuffix([]) == []
  {
  }

  /** The word the script finds before a slash is what sixteen characters show of the word there. */
  lemma PrevWordShown(out: seq<string>, n: nat)
    requires Placed(out, n)
    ensures PrevWord(out) == Shown(LastWord(Concat(out)), Blanks(Concat(out)))
  {
    var k := Window(out, n);
    WordInWindow(Concat(out), k);
  }

  // ---- the exact difference ----

  /** The window shows enough of the word: all of it, or as little of a keyword as is a keyword
      again, or nothing that is one. */
  predicate ShowsEnough(word: string, blanks: nat) {
    || |word| + blanks <= 16
    || if word in REGEX_PREV_KEYWORDS then blanks == 14 && (word == "typeof" || word == "instanceof")
       else Shown(word, blanks) !in REGEX_PREV_KEYWORDS
  }

  lemma {:induction false} LettersAreWord(s: string)
    requires forall i :: 0 <= i < |s| ==> IsLetter(s[i])
    ensures IdentSuffix(s) == s
  {
    if s != [] {
      LettersAreWord(s[..|s| - 1]);
    }
  }

  lemma KeywordLetters(word: string)
    requires word in REGEX_PREV_KEYWORDS
    ensures 2 <= |word| <= 10 && forall i :: 0 <= i < |word| ==> IsLetter(word[i])
  {
  }

  /** The end of a keyword is a shorter keyword only for the "of" of two of them. */
  lemma KeywordEnd(word: string, v: nat)
    requires word in REGEX_PREV_KEYWORDS && v < |word|
    ensures word[|word| - v..] in REGEX_PREV_KEYWORDS <==> v == 2 && (word == "typeof" || word == "instanceof")
  {
    var cut := word[|word| - v..];
    assert v > 0 ==> cut[v - 1] == word[|word| - 1];
    if v == 2 {
      assert cut[0] == word[|word| - 2];
    } else if v > 2 {
      LongEnd(word, v, cut);
    }
  }

  lemma LongEnd(word: string, v: nat, cut: string)
    requires word in REGEX_PREV_KEYWORDS && 2 < v < |word| && cut == word[|word| - v..]
    ensures cut !in REGEX_PREV_KEYWORDS
  {
    assert cut[v - 1] == word[|word| - 1] && cut[v - 2] == word[|word| - 2] && cut[v - 3] == word[|word| - 3];
  }

  lemma KeywordShown(word: string, blanks: nat)
    requires word in REGEX_PREV_KEYWORDS && |word| + blanks > 16
    ensures Shown(word, blanks) in REGEX_PREV_KEYWORDS <==> blanks == 14 && (word == "typeof" || word == "instanceof")
  {
    if blanks < 16 {
      var v := 16 - blanks;
      KeywordLetters(word);
      LettersAreWord(word[|word| - v..]);
      KeywordEnd(word, v);
    } else {
      assert [] !in REGEX_PREV_KEYWORDS;
    }
  }

  /** After white space alone or a listed character there is no word. */
  lemma NoWord(s: string)
    requires LastSignificant(s) == None || LastSignificant(s).value in REGEX_PREV_CHARS
    ensures LastWord(s) == []
  {
  }

  lemma NothingShown(blanks: nat)
    ensures Shown([], blanks) == [] && [] !in REGEX_PREV_KEYWORDS && ShowsEnough([], blanks)
  {
  }

  /** The script's rule agrees with the documented one exactly when the window shows enough of the
      word before the slash: sixteen characters hold the word and the blanks behind it, or what they
      hold of it happens to tell the same. */
  lemma RegexAsPromised(out: seq<string>, n: nat)
    requires Placed(out, n)
    ensures RegexMayStart(out) == RegexPromised(Concat(out))
       <==> ShowsEnough(LastWord(Concat(out)), Blanks(Concat(out)))
  {
    var s := Concat(out);
    PrevWordShown(out, n);
    if LastSignificant(s) == None || LastSignificant(s).value in REGEX_PREV_CHARS {
      NoWord(s);
      NothingShown(Blanks(s));
    } else {
      ShownTellsTheSame(LastWord(s), Blanks(s));
    }
  }

  lemma ShownTellsTheSame(word: string, blanks: nat)
    ensures (Shown(word, blanks) in REGEX_PREV_KEYWORDS) == (word in REGEX_PREV_KEYWORDS)
       <==> ShowsEnough(word, blanks)
  {
    if word in REGEX_PREV_KEYWORDS && |word| + blanks > 16 {
      KeywordShown(word, blanks);
    }
  }

  // ---- two inputs on which they differ ----

  lemma PaddedWord(word: string, pad: string)
    requires word != [] && AllSpace(pad) && !IsSpace(word[|word| - 1])
    requires forall i :: 0 <= i < |word| ==> IsLetter(word[i])
    ensures var s := word + pad;
            && LastWord(s) == word && Blanks(s) == |pad|
            && LastSignificant(s).Some? && LastSignificant(s).value !in REGEX_PREV_CHARS
  {
    hide StripRight, IdentSuffix, IsLetter;
    StripRightSpace(pad, word);
    LettersAreWord(word);
    LetterIsNoMark(word[|word| - 1]);
  }

  lemma LetterIsNoMark(c: char)
    requires IsLetter(c)
    ensures c !in REGEX_PREV_CHARS
  {
  }

  lemma PlainOutput(text: string)
    requires AllPlain(text)
    ensures var st := Lex(START, text); st.Sanitized() == text && Placed(st.out, |st.strings|)
  {
    var end := PlainRun(START, text, []);
    assert text + [] == text;
    LexFromVisit(START, text, |text|, end);
    LexPlaced(START, text);
  }

  /** What the script sees after a word and white space. */
  lemma AfterWord(word: string, pad: string)
    requires word != [] && AllSpace(pad) && forall i :: 0 <= i < |word| ==> IsLetter(word[i])
    ensures var st := Lex(START, word + pad);
            && (RegexPromised(st.Sanitized()) <==> word in REGEX_PREV_KEYWORDS)
            && (RegexMayStart(st.out) <==> Shown(word, |pad|) in REGEX_PREV_KEYWORDS)
  {
    var st := Lex(START, word + pad);
    PlainOutput(word + pad);
    PaddedWord(word, pad);
    PrevWordShown(st.out, |st.strings|);
  }

  /** A slash eleven blanks after `return` is taken for a division. */
  lemma RegexMissed()
    ensures var st := Lex(START, "return" + "           ");
            RegexPromised(st.Sanitized()) && !RegexMayStart(st.out)
  {
    AfterWord("return", "           ");
    assert "return"[1..] == "eturn";
    LettersAreWord("eturn");
  }

  /** A slash on the line after `begin`, indented by thirteen blanks, is taken for a regex. */
  lemma RegexInvented()
    ensures var st := Lex(START, "begin" + "\n             ");
            !RegexPromised(st.Sanitized()) && RegexMayStart(st.out)
  {
    AfterWord("begin", "\n             ");
    assert "begin"[3..] == "in";
    LettersAreWord("in");
  }

  // ---- the characters and the words ----

  predicate WordStart(c: char) { 'a' <= c <= 'z' || 'A' <= c <= 'Z' || c == '_' || c == '$' }

  predicate WordPart(c: char) { WordStart(c) || '0' <= c <= '9' }

  /** The word before a slash is the identifier that ends the output: it starts with a letter, `_` or
      `$`, goes on with those and digits, and no such character stands in front of it. */
  lemma {:induction false} WordExactly(front: string, word: string)
    requires front != [] ==> !WordPart(front[|front| - 1])
    requires word != [] && WordStart(word[0]) && forall i :: 0 <= i < |word| ==> WordPart(word[i])
    ensures IdentSuffix(front + word) == word
    decreases |word|
  {
    var n := |word| - 1;
    assert (front + word)[..|front + word| - 1] == front + word[..n];
    assert word == word[..n] + [word[n]];
    if n > 0 {
      WordExactly(front, word[..n]);
    } else {
      assert front + word[..n] == front;
    }
  }

  /** After any character but those of a word, a slash opens a regex exactly behind these marks. */
  lemma AfterMark(out: seq<string>, n: nat, c: char)
    requires Placed(out, n) && LastSignificant(Concat(out)) == Some(c) && !IsIdentPart(c)
    ensures RegexMayStart(out) <==> c in ['(', ',', '=', ':', '[', '!', '&', '|', '?', '{', '}', ';']
  {
    PrevWordShown(out, n);
    assert LastWord(Concat(out)) == [];
    NothingShown(Blanks(Concat(out)));
    assert REGEX_PREV_CHARS == ['(', ',', '=', ':', '[', '!', '&', '|', '?', '{', '}', ';'];
  }

  /** After a word and white space that fit in the window, exactly behind these words. */
  lemma AfterKeyword(word: string, pad: string)
    requires word != [] && AllSpace(pad) && |word| + |pad| <= 16 && forall i :: 0 <= i < |word| ==> IsLetter(word[i])
    ensures RegexMayStart(Lex(START, word + pad).out) <==>
            word in ["return", "case", "typeof", "instanceof", "in", "of", "new",
                     "delete", "void", "do", "else", "yield", "await"]
  {
    AfterWord(word, pad);
  }
}
