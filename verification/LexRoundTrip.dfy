/** Scanning undoes writing: any spelling of a token list, with any white space, scans to that list. */
module LexRoundTrip {
  import opened Lexicon
  import opened LexSpec

  /** White space, and the text of a token after it. */
  datatype Item = Item(sep: string, text: string, tok: Token)

  predicate Written(items: seq<Item>) {
    && (forall i | 0 <= i < |items| :: Blank(items[i].sep) && Spells(items[i].text, items[i].tok))
    && (forall i | 0 < i < |items| && items[i].sep == "" :: !Merge(items[i - 1].tok, items[i].tok))
  }

  function Render(items: seq<Item>): string {
    if |items| == 0 then "" else items[0].sep + items[0].text + Render(items[1..])
  }

  function ToksOf(items: seq<Item>): seq<Token> {
    seq(|items|, i requires 0 <= i < |items| => items[i].tok)
  }

  lemma {:induction false} SkipBlanks(src: string, i: nat, n: nat)
    requires i + n <= |src| && Blank(src[i..i + n])
    ensures ScanAt(src, i) == ScanAt(src, i + n)
    decreases n
  {
    if n > 0 {
      assert src[i..i + n][0] == src[i];
      assert src[i + 1..i + n] == src[i..i + n][1..];
      SkipBlanks(src, i + 1, n - 1);
    }
  }

  lemma {:induction false} IdEndIs(src: string, start: nat, i: nat, e: nat)
    requires start < i <= e <= |src| && e - start < MAX_IDENT
    requires forall k | i <= k < e :: IsIdChar(src[k])
    requires !IsIdChar(CharAt(src, e)) || e - start == MAX_IDENT - 1
    ensures IdEnd(src, start, i) == e
    decreases e - i
  {
    if i < e {
      IdEndIs(src, start, i + 1, e);
    }
  }

  lemma {:induction false} NumEndIs(src: string, i: nat, e: nat)
    requires i <= e <= |src| && !IsDigit(CharAt(src, e)) && forall k | i <= k < e :: IsDigit(src[k])
    ensures NumEnd(src, i) == e
    decreases e - i
  {
    if i < e {
      NumEndIs(src, i + 1, e);
    }
  }

  /** A run of name characters that starts with a letter, and nothing that would continue it. */
  predicate WordAt(src: string, i: nat, text: string) {
    && i + |text| <= |src| && src[i..i + |text|] == text && |text| > 0 && Letter(text[0])
    && (forall k | 0 <= k < |text| :: NameChar(text[k])) && (i + |text| < |src| ==> !NameChar(src[i + |text|]))
  }

  /** The first characters of a run, at most 63, are one word. */
  lemma RunScanned(src: string, i: nat, text: string, n: nat)
    requires WordAt(src, i, text) && n == (if |text| < 64 then |text| else 63)
    ensures ScanAt(src, i) == (WordToken(text[..n]), i + n)
  {
    assert src[i] == text[0];
    forall k | i + 1 <= k < i + |text| ensures IsIdChar(src[k]) {
      assert src[k] == text[k - i];
    }
    IdEndIs(src, i, i + 1, i + n);
    assert src[i..i + n] == text[..n];
  }

  /** A run of at most 63 name characters is the word it spells: a keyword, or a name. */
  lemma WordScanned(src: string, i: nat, text: string)
    requires WordAt(src, i, text) && |text| <= 63
    ensures !Keyword(text) ==> ScanAt(src, i) == (Id(text), i + |text|)
    ensures text == "def" ==> ScanAt(src, i) == (DefKw, i + |text|)
    ensures text == "if" ==> ScanAt(src, i) == (IfKw, i + |text|)
    ensures text == "else" ==> ScanAt(src, i) == (ElseKw, i + |text|)
  {
    RunScanned(src, i, text, |text|);
    assert text[..|text|] == text;
  }

  /** A longer run is cut after 63 characters; the rest is left for the next token. */
  lemma LongWordCut(src: string, i: nat, text: string)
    requires WordAt(src, i, text) && |text| >= 64
    ensures ScanAt(src, i) == (WordToken(text[..63]), i + 63)
  {
    RunScanned(src, i, text, 63);
  }

  /** The whole run is one token exactly when it has fewer than 64 characters. */
  lemma WordScannedWhole(src: string, i: nat, text: string)
    requires WordAt(src, i, text)
    ensures ScanAt(src, i) == (WordToken(text), i + |text|) <==> |text| < 64
  {
    if |text| < 64 {
      RunScanned(src, i, text, |text|);
      assert text[..|text|] == text;
    } else {
      LongWordCut(src, i, text);
    }
  }

  /** Identifiers of 64 characters are not tokens: 64 letters are scanned as two names. */
  lemma SixtyFourLetters()
    ensures
      var text := seq(64, _ => 'a');
      Tokens(text, 0) == [Id(text[..63]), Id("a")]
  {
    var text := seq(64, _ => 'a');
    assert text[0..64] == text && text[63..64] == "a";
    LongWordCut(text, 0, text);
    WordScanned(text, 63, "a");
    TokensStep(text, 0);
    TokensStep(text, 63);
    TokensStep(text, 64);
    hide Tokens;
    assert WordToken(text[..63]) == Id(text[..63]) by { assert |text[..63]| == 63; }
  }

  /** White space is skipped: blanks, tabs and newlines. */
  lemma BlankSkipped(src: string, i: nat)
    requires i < |src| && (src[i] == ' ' || src[i] == '\t' || src[i] == '\n')
    ensures ScanAt(src, i) == ScanAt(src, i + 1)
  {}

  /** Any character that starts no token and is no white space ends the program; so does an underscore. */
  lemma OtherRejected(src: string, i: nat)
    requires i < |src| && !BlankChar(src[i]) && !Mark(src[i]) && src[i] != '\0'
    requires !Letter(src[i]) && !('0' <= src[i] <= '9')
    ensures ScanAt(src, i).0 == Bad
  {}

  /** The line of an offset is one more than the newlines before it. */
  lemma {:induction false} NewlinesCounted(s: string)
    ensures Newlines(s) == multiset(s)['\n']
  {
    if |s| > 0 {
      NewlinesCounted(s[..|s| - 1]);
      assert s == s[..|s| - 1] + [s[|s| - 1]];
    }
  }

  lemma ScanNumber(src: string, i: nat, text: string)
    requires i + |text| <= |src| && src[i..i + |text|] == text && |text| > 0 && Digits(text)
    requires !IsDigit(CharAt(src, i + |text|))
    ensures ScanAt(src, i) == (Num(DecVal(text)), i + |text|)
  {
    assert src[i] == text[0];
    forall k | i + 1 <= k < i + |text| ensures IsDigit(src[k]) {
      assert src[k] == text[k - i];
    }
    NumEndIs(src, i + 1, i + |text|);
  }

  /** The character after the text of a token does not belong to it. */
  predicate Stops(tok: Token, c: char) {
    (IsWord(tok) ==> !NameChar(c)) && (tok.Num? ==> !('0' <= c <= '9'))
  }

  lemma ScanSpelling(src: string, i: nat, text: string, tok: Token)
    requires i + |text| <= |src| && src[i..i + |text|] == text && Spells(text, tok)
    requires Stops(tok, CharAt(src, i + |text|))
    ensures ScanAt(src, i) == (tok, i + |text|)
  {
    if IsWord(tok) {
      WordScanned(src, i, text);
    } else if tok.Num? {
      NumeralExact(text, tok.val);
      ScanNumber(src, i, text);
    } else {
      assert |text| == 1 && src[i] == text[0];
    }
  }

  lemma FirstChar(text: string, tok: Token)
    requires Spells(text, tok)
    ensures |text| > 0
    ensures if IsWord(tok) then Letter(text[0]) else if tok.Num? then '0' <= text[0] <= '9' else !NameChar(text[0])
  {
    if tok.Num? {
      NumeralExact(text, tok.val);
    }
  }

  lemma SplitAt(src: string, i: nat, a: string, b: string)
    requires i <= |src| && src[i..] == a + b
    ensures i + |a| <= |src| && src[i..i + |a|] == a && src[i + |a|..] == b
  {
    assert src[i..i + |a|] == src[i..][..|a|];
    assert src[i + |a|..] == src[i..][|a|..];
  }

  /** What follows a token in the text stops it. */
  lemma RestStops(items: seq<Item>, tail: string, src: string, e: nat)
    requires |items| > 0 && Written(items) && Blank(tail) && e <= |src|
    requires src[e..] == Render(items[1..]) + tail
    ensures Stops(items[0].tok, CharAt(src, e))
  {
    if |items| > 1 {
      var next := items[1];
      FirstChar(next.text, next.tok);
      assert items[1..][0] == next;
      assert src[e..] == next.sep + (next.text + (Render(items[1..][1..]) + tail));
      SplitAt(src, e, next.sep, next.text + (Render(items[1..][1..]) + tail));
      SplitAt(src, e + |next.sep|, next.text, Render(items[1..][1..]) + tail);
      if next.sep != "" {
        assert CharAt(src, e) == src[e..e + |next.sep|][0] == next.sep[0];
      } else {
        assert CharAt(src, e) == src[e..e + |next.text|][0] == next.text[0];
        assert !Merge(items[0].tok, next.tok);
      }
    } else {
      assert src[e..] == tail;
      assert e < |src| ==> src[e] == tail[0];
    }
  }

  /** The first item of a text is scanned, and the rest of the text is left. */
  lemma FirstScanned(items: seq<Item>, tail: string, src: string, i: nat) returns (e: nat)
    requires |items| > 0 && Written(items) && Blank(tail) && i <= |src| && src[i..] == Render(items) + tail
    ensures ScanAt(src, i) == (items[0].tok, e) && items[0].tok != Eos && items[0].tok != Bad
    ensures i < e <= |src| && src[e..] == Render(items[1..]) + tail
  {
    hide Spells, Stops, Word, Punct, DecVal, Merge, ScanAt, Numeral;
    var first := items[0];
    var rest := Render(items[1..]) + tail;
    var j := i + |first.sep|;
    e := j + |first.text|;
    assert src[i..] == first.sep + (first.text + rest);
    SplitAt(src, i, first.sep, first.text + rest);
    SplitAt(src, j, first.text, rest);
    SkipBlanks(src, i, |first.sep|);
    RestStops(items, tail, src, e);
    ScanSpelling(src, j, first.text, first.tok);
    SpellsSome(first.text, first.tok);
  }

  lemma {:induction false} TokensFrom(items: seq<Item>, tail: string, src: string, i: nat)
    requires Written(items) && Blank(tail) && i <= |src| && src[i..] == Render(items) + tail
    ensures Tokens(src, i) == ToksOf(items)
    decreases |items|
  {
    hide ScanAt, Tokens, Written, ToksOf;
    ToksOfTail(items);
    TokensStep(src, i);
    if |items| == 0 {
      assert src[i..] == tail;
      assert src[i..i + |tail|] == tail;
      SkipBlanks(src, i, |tail|);
      ScanEnd(src);
    } else {
      var e := FirstScanned(items, tail, src, i);
      WrittenTail(items);
      TokensFrom(items[1..], tail, src, e);
    }
  }

  lemma ToksOfTail(items: seq<Item>)
    ensures ToksOf(items) == if |items| == 0 then [] else [items[0].tok] + ToksOf(items[1..])
  {}

  lemma TokensStep(src: string, i: nat)
    ensures
      var (t, j) := ScanAt(src, i);
      t != Bad ==> Tokens(src, i) == if t == Eos then [] else [t] + Tokens(src, j)
  {}

  lemma ScanEnd(src: string)
    ensures ScanAt(src, |src|) == (Eos, |src| + 1)
  {}

  lemma SpellsSome(text: string, tok: Token)
    requires Spells(text, tok)
    ensures tok != Eos && tok != Bad && |text| > 0
  {
    FirstChar(text, tok);
  }

  lemma WrittenTail(items: seq<Item>)
    requires |items| > 0 && Written(items)
    ensures Written(items[1..])
  {
    hide Spells, Merge;
    var rest := items[1..];
    forall i | 0 < i < |rest| && rest[i].sep == "" ensures !Merge(rest[i - 1].tok, rest[i].tok) {
      assert rest[i] == items[i + 1] && rest[i - 1] == items[i + 1 - 1];
    }
  }

  /** Any written form of a token list scans to that list. */
  lemma LexingInvertsRendering(items: seq<Item>, tail: string)
    requires Written(items) && Blank(tail)
    ensures Tokens(Render(items) + tail, 0) == ToksOf(items)
  {
    var src := Render(items) + tail;
    assert src[0..] == src;
    TokensFrom(items, tail, src, 0);
  }
}
