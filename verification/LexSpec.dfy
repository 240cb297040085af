/** Tokens, and scanning as a function of the source text and an offset (src/lex.c, src/token.h). */
module LexSpec {
  import opened Ast

  /** `Bad` stands for a character no token starts with: scanning it ends the program. */
  datatype Token =
    | Bad | Eos
    | Id(name: string) | DefKw | IfKw | ElseKw
    | Num(val: nat)
    | Semi | Comma | LParen | RParen | LCurl | RCurl
    | Op(op: BinOp)

  const MAX_IDENT := 64

  predicate IsAlpha(c: char) {
    'a' <= c <= 'z' || 'A' <= c <= 'Z'
  }

  predicate IsDigit(c: char) {
    '0' <= c <= '9'
  }

  predicate IsIdChar(c: char) {
    IsAlpha(c) || IsDigit(c) || c == '_'
  }

  predicate IsBlank(c: char) {
    c == ' ' || c == '\t' || c == '\n'
  }

  /** The text of a C string. */
  predicate NoNul(s: string) {
    forall i | 0 <= i < |s| :: s[i] != '\0'
  }

  /** The source is a C string: reading at its end, or past it, gives NUL. */
  function CharAt(src: string, i: nat): char {
    if i < |src| then src[i] else '\0'
  }

  /** Where the identifier stops that has characters from `start` to `i`: it has at most 63. */
  function IdEnd(src: string, start: nat, i: nat): (e: nat)
    requires start < i
    ensures i <= e && (i <= |src| ==> e <= |src|)
    decreases start + MAX_IDENT - i
  {
    if IsIdChar(CharAt(src, i)) && i - start < MAX_IDENT - 1 then IdEnd(src, start, i + 1) else i
  }

  /** Where the digits from `i` on stop. */
  function NumEnd(src: string, i: nat): (e: nat)
    ensures i <= e && (i <= |src| ==> e <= |src|)
    decreases |src| - i
  {
    if IsDigit(CharAt(src, i)) then NumEnd(src, i + 1) else i
  }

  function DigitVal(c: char): nat
    requires IsDigit(c)
  {
    c as int - '0' as int
  }

  predicate Digits(s: string) {
    forall i | 0 <= i < |s| :: IsDigit(s[i])
  }

  /** The number a digit string stands for. */
  function DecVal(s: string): nat
    requires Digits(s)
  {
    if |s| == 0 then 0 else DecVal(s[..|s| - 1]) * 10 + DigitVal(s[|s| - 1])
  }

  lemma {:induction false} NumEndDigits(src: string, i: nat)
    requires i <= |src|
    ensures Digits(src[i..NumEnd(src, i)])
    decreases |src| - i
  {
    if IsDigit(CharAt(src, i)) {
      NumEndDigits(src, i + 1);
      var e := NumEnd(src, i + 1);
      assert src[i..e] == [src[i]] + src[i + 1..e];
    }
  }

  function Word(s: string): Token {
    if s == "def" then DefKw else if s == "if" then IfKw else if s == "else" then ElseKw else Id(s)
  }

  /** The token a punctuation character is, if it is one. */
  function Punct(c: char): Token {
    match c
    case ',' => Comma
    case ';' => Semi
    case '(' => LParen
    case ')' => RParen
    case '{' => LCurl
    case '}' => RCurl
    case '+' => Op(Add)
    case '-' => Op(Sub)
    case '*' => Op(Mul)
    case '/' => Op(Div)
    case '<' => Op(CmpLt)
    case _ => Bad
  }

  /** The next token at or after offset `i`, and the offset that the lexer moves to. */
  function ScanAt(src: string, i: nat): (r: (Token, nat))
    ensures i < r.1
    ensures r.0 != Eos && r.0 != Bad ==> r.1 <= |src|
    decreases |src| - i
  {
    var c := CharAt(src, i);
    if IsBlank(c) then ScanAt(src, i + 1)
    else if Punct(c) != Bad then (Punct(c), i + 1)
    else if c == '\0' then (Eos, i + 1)
    else if IsAlpha(c) then
      var e := IdEnd(src, i, i + 1);
      (Word(src[i..e]), e)
    else if IsDigit(c) then
      var e := NumEnd(src, i + 1);
      NumEndDigits(src, i);
      (Num(DecVal(src[i..e])), e)
    else (Bad, i + 1)
  }

  /** The tokens from offset `i` on; the list stops at the end of the source, or with the first `Bad`. */
  function Tokens(src: string, i: nat): seq<Token>
    decreases |src| - i
  {
    var (t, j) := ScanAt(src, i);
    if t == Eos then [] else if t == Bad then [Bad] else [t] + Tokens(src, j)
  }

  function Newlines(s: string): nat {
    if |s| == 0 then 0 else Newlines(s[..|s| - 1]) + if s[|s| - 1] == '\n' then 1 else 0
  }

  /** The line an offset is on, counted from 1. */
  function LineOf(src: string, offset: nat): nat {
    1 + Newlines(src[..if offset <= |src| then offset else |src|])
  }
}
