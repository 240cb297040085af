/**
 * The words of the language, written out character by character: how each token may be spelled, and what
 * stands between tokens.
 */
module Lexicon {
  import opened Decimals
  import opened LexSpec

  predicate Letter(c: char) {
    'a' <= c <= 'z' || 'A' <= c <= 'Z'
  }

  predicate NameChar(c: char) {
    Letter(c) || '0' <= c <= '9' || c == '_'
  }

  predicate Keyword(s: string) {
    s == "def" || s == "if" || s == "else"
  }

  /** At most 63 name characters, of which the first is a letter; keywords are not told from names here. */
  predicate Identifier(s: string) {
    1 <= |s| <= 63 && Letter(s[0]) && forall i | 0 <= i < |s| :: NameChar(s[i])
  }

  predicate Name(s: string) {
    Identifier(s) && !Keyword(s)
  }

  predicate Zeros(s: string) {
    forall i | 0 <= i < |s| :: s[i] == '0'
  }

  /** The number in decimal, perhaps after zeros. */
  predicate Numeral(s: string, v: nat) {
    var n := |Decimal(v)|;
    |s| >= n && s[|s| - n..] == Decimal(v) && Zeros(s[..|s| - n])
  }

  /** The text is a way to write the token. */
  predicate Spells(text: string, tok: Token) {
    match tok
    case Bad => false
    case Eos => false
    case Id(name) => text == name && Name(text)
    case DefKw => text == "def"
    case IfKw => text == "if"
    case ElseKw => text == "else"
    case Num(v) => Numeral(text, v)
    case Semi => text == ";"
    case Comma => text == ","
    case LParen => text == "("
    case RParen => text == ")"
    case LCurl => text == "{"
    case RCurl => text == "}"
    case Op(op) =>
      match op
      case Add => text == "+"
      case Sub => text == "-"
      case Mul => text == "*"
      case Div => text == "/"
      case CmpLt => text == "<"
  }

  predicate IsWord(t: Token) {
    t.Id? || t.DefKw? || t.IfKw? || t.ElseKw?
  }

  /** Written side by side, the two tokens would run together. */
  predicate Merge(a: Token, b: Token) {
    (IsWord(a) && (IsWord(b) || b.Num?)) || (a.Num? && b.Num?)
  }

  predicate BlankChar(c: char) {
    c == ' ' || c == '\t' || c == '\n'
  }

  predicate Blank(s: string) {
    forall i | 0 <= i < |s| :: BlankChar(s[i])
  }

  /** The characters that are tokens by themselves. */
  predicate Mark(c: char) {
    c in ",;(){}+-*/<"
  }

  /** The word a run of name characters is. */
  function WordToken(s: string): Token {
    if s == "def" then DefKw else if s == "if" then IfKw else if s == "else" then ElseKw else Id(s)
  }

  // ---------- Numerals ----------

  lemma {:induction false} ZerosValue(z: string, d: string)
    requires Zeros(z) && Digits(d)
    ensures Digits(z + d) && DecVal(z + d) == DecVal(d)
    decreases |z + d|
  {
    var s := z + d;
    if |d| > 0 {
      assert s[..|s| - 1] == z + d[..|d| - 1];
      ZerosValue(z, d[..|d| - 1]);
    } else if |z| > 0 {
      assert s[..|s| - 1] == z[..|z| - 1] + d;
      ZerosValue(z[..|z| - 1], d);
    }
  }

  /** One more digit. */
  lemma NumeralSnoc(t: string, w: nat, d: nat)
    requires d < 10 && Numeral(t, w)
    ensures Numeral(t + ["0123456789"[d]], 10 * w + d)
  {
    var s, v := t + ["0123456789"[d]], 10 * w + d;
    var n := |Decimal(w)|;
    if w == 0 {
      assert Decimal(0) == "0";
      assert t == t[..|t| - 1] + t[|t| - 1..];
      assert s[|s| - 1..] == ["0123456789"[d]] && s[..|s| - 1] == t;
    } else {
      assert v / 10 == w && v % 10 == d;
      assert Decimal(v) == Decimal(w) + ["0123456789"[d]];
      hide Decimal;
      assert s[|s| - n - 1..] == t[|t| - n..] + ["0123456789"[d]] && s[..|s| - n - 1] == t[..|t| - n];
    }
  }

  lemma {:induction false} ValueNumeral(s: string)
    requires |s| > 0 && Digits(s)
    ensures Numeral(s, DecVal(s))
    decreases |s|
  {
    var t, d := s[..|s| - 1], s[|s| - 1];
    DigitBack(d);
    assert s == t + [d];
    if |t| > 0 {
      ValueNumeral(t);
      NumeralSnoc(t, DecVal(t), DigitVal(d));
    } else {
      assert Decimal(DigitVal(d)) == [d] == s && s[..0] == "";
    }
  }

  lemma DigitBack(c: char)
    requires IsDigit(c)
    ensures "0123456789"[DigitVal(c)] == c
  {}

  /** The numerals are the digit strings, each with its value. */
  lemma NumeralExact(s: string, v: nat)
    ensures Numeral(s, v) <==> |s| > 0 && Digits(s) && DecVal(s) == v
  {
    if Numeral(s, v) {
      var n := |Decimal(v)|;
      DecimalValue(v);
      assert s == s[..|s| - n] + s[|s| - n..];
      ZerosValue(s[..|s| - n], Decimal(v));
    }
    if |s| > 0 && Digits(s) {
      ValueNumeral(s);
    }
  }
}
