/**
 * The lexer of src/lex.c: it advances an offset through the source, counts lines, and puts back the
 * character that ends an identifier or a number.
 */
module Lexer {
  import opened LexSpec

  lemma LineStep(src: string, i: nat)
    ensures LineOf(src, i + 1) == LineOf(src, i) + if CharAt(src, i) == '\n' then 1 else 0
  {
    if i < |src| {
      assert src[..i + 1][..i] == src[..i];
    }
  }

  class Lexer {
    const source: string
    var offset: nat
    var tok: Token
    var lineno: nat

    constructor (source: string)
      ensures this.source == source && offset == 0 && Valid()
    {
      this.source := source;
      offset, lineno, tok := 0, 1, Eos;
      new;
      assert source[..0] == [];
    }

    /** The line number is right for the offset. */
    ghost predicate Valid()
      reads this
    {
      lineno == LineOf(source, offset)
    }

    /** Reads one character and moves past it. */
    method NextChar() returns (c: char)
      modifies this`offset
      ensures c == CharAt(source, old(offset)) && offset == old(offset) + 1
    {
      c := CharAt(source, offset);
      offset := offset + 1;
    }

    method Putback()
      requires offset > 0
      modifies this`offset
      ensures offset == old(offset) - 1
    {
      offset := offset - 1;
    }

    /** The rest of an identifier that starts with `c`, the character just read. */
    method ConsumeId(c: char)
      requires 0 < offset <= |source| && c == source[offset - 1] && c != '\n' && Valid()
      modifies this`offset, this`tok
      ensures Valid() && offset == IdEnd(source, old(offset) - 1, old(offset))
      ensures offset <= |source| && tok == Word(source[old(offset) - 1..offset])
    {
      hide Word, LineOf;
      ghost var start := offset - 1;
      var buf := [c];
      var d := NextChar();
      LineStep(source, offset - 1);
      while IsIdChar(d) && |buf| < MAX_IDENT - 1
        invariant start < offset - 1 <= |source| && d == CharAt(source, offset - 1)
        invariant buf == source[start..offset - 1] && lineno == LineOf(source, offset - 1)
        invariant IdEnd(source, start, offset - 1) == IdEnd(source, start, start + 1)
        decreases MAX_IDENT - |buf|
        modifies this`offset
      {
        LineStep(source, offset - 1);
        assert source[start..offset] == source[start..offset - 1] + [d];
        buf := buf + [d];
        d := NextChar();
      }
      Putback();
      tok := Word(buf);
    }

    /** The rest of a number that starts with digit `c`. */
    method ConsumeNumber(c: char)
      requires 0 < offset <= |source| && c == source[offset - 1] && IsDigit(c) && Valid()
      modifies this`offset, this`tok
      ensures Valid() && offset == NumEnd(source, old(offset)) && offset <= |source|
      ensures Digits(source[old(offset) - 1..offset]) && tok == Num(DecVal(source[old(offset) - 1..offset]))
    {
      ghost var start := offset - 1;
      var n := DigitVal(c);
      assert source[start..offset] == [c] && [c][..0] == [] && DecVal([c]) == n;
      var d := NextChar();
      while IsDigit(d)
        invariant start < offset - 1 <= |source| && d == CharAt(source, offset - 1) && lineno == LineOf(source, offset - 1)
        invariant Digits(source[start..offset - 1]) && n == DecVal(source[start..offset - 1])
        invariant NumEnd(source, offset - 1) == NumEnd(source, start + 1)
        decreases |source| + 1 - offset
        modifies this`offset
      {
        LineStep(source, offset - 1);
        assert source[start..offset][..offset - 1 - start] == source[start..offset - 1];
        n := n * 10 + DigitVal(d);
        d := NextChar();
      }
      Putback();
      tok := Num(n);
    }

    /** Scans the next token; `alive` is false when the character is not one, and the program ends. */
    method Scan() returns (alive: bool)
      requires Valid()
      modifies this
      ensures Valid() && (tok, offset) == ScanAt(source, old(offset)) && alive == (tok != Bad)
    {
      hide LineOf, Word, DecVal;
      var c := NextChar();
      LineStep(source, offset - 1);
      while IsBlank(c)
        invariant offset > 0 && c == CharAt(source, offset - 1)
        invariant lineno == LineOf(source, offset - 1) && ScanAt(source, offset - 1) == ScanAt(source, old(offset))
        decreases |source| + 1 - offset
      {
        LineStep(source, offset - 1);
        if c == '\n' {
          lineno := lineno + 1;
        }
        c := NextChar();
      }
      LineStep(source, offset - 1);
      if Punct(c) != Bad {
        tok := Punct(c);
      } else if c == '\0' {
        tok := Eos;
      } else if IsAlpha(c) {
        ConsumeId(c);
      } else if IsDigit(c) {
        ConsumeNumber(c);
      } else {
        tok := Bad;
      }
      alive := tok != Bad;
    }

    predicate Is(t: Token)
      reads this
    {
      tok == t
    }
  }
}
