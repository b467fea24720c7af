/** The calculator's tokeniser: key text to operand and operator codes. */
module Tokeniser {
  import opened CalculatorSyntax

  /** Codes stored so far and the operand being read. */
  datatype Lexer = Lexing(out: seq<Code>, tmp: int) | Overflowed

  function LexStep(l: Lexer, ch: char, r: CharReading): Lexer {
    if l.Overflowed? then Overflowed
    else if IsOperator(ch) then
      if IsInt(l.tmp + 48) then Lexing(l.out + [CharOf(l.tmp, r), CodeOf(ch)], 0) else Overflowed
    else
      var tmp := l.tmp * 10 + (ch as int - '0' as int);
      if IsInt(tmp) then Lexing(l.out, tmp) else Overflowed
  }

  /** The tokeniser's state after `text`. */
  function Lex(text: string, r: CharReading): (l: Lexer)
    ensures l.Lexing? ==> |l.out| % 2 == 0
  {
    if text == [] then Lexing([], 0) else LexStep(Lex(text[..|text| - 1], r), text[|text| - 1], r)
  }

  lemma LexEmpty(r: CharReading)
    ensures Lex("", r) == Lexing([], 0)
  {
  }

  lemma LexSnoc(text: string, ch: char, r: CharReading)
    ensures Lex(text + [ch], r) == LexStep(Lex(text, r), ch, r)
  {
  }

  lemma {:induction false} OverflowStays(text: string, more: string, r: CharReading)
    requires Lex(text, r).Overflowed?
    ensures Lex(text + more, r).Overflowed?
  {
    if more == [] {
      assert text + more == text;
    } else {
      var n := |more| - 1;
      OverflowStays(text, more[..n], r);
      assert text + more == (text + more[..n]) + [more[n]];
      LexSnoc(text + more[..n], more[n], r);
    }
  }

  function Operators(text: string): (n: nat)
    ensures n <= |text|
  {
    if text == [] then 0 else Operators(text[..|text| - 1]) + if IsOperator(text[|text| - 1]) then 1 else 0
  }

  /** Two codes an operator. */
  lemma {:induction false} CodesPerOperator(text: string, r: CharReading)
    requires Lex(text, r).Lexing?
    ensures |Lex(text, r).out| == 2 * Operators(text)
  {
    if text != [] {
      CodesPerOperator(text[..|text| - 1], r);
    }
  }

  lemma {:induction false} OperatorsGrow(text: string, more: string)
    ensures Operators(text) <= Operators(text + more)
  {
    if more == [] {
      assert text + more == text;
    } else {
      var n := |more| - 1;
      OperatorsGrow(text, more[..n]);
      assert (text + more)[..|text + more| - 1] == text + more[..n];
    }
  }

  /** One character of a text on. */
  lemma LexAt(text: string, i: nat, r: CharReading)
    requires i < |text|
    ensures Lex(text[..i + 1], r) == LexStep(Lex(text[..i], r), text[i], r)
    ensures Lex(text[..i + 1], r).Overflowed? ==> Lex(text, r).Overflowed?
  {
    LexSnoc(text[..i], text[i], r);
    assert text[..i + 1] == text[..i] + [text[i]];
    if Lex(text[..i + 1], r).Overflowed? {
      OverflowStays(text[..i + 1], text[i + 1..], r);
      assert text == text[..i + 1] + text[i + 1..];
    }
  }

  /** There is a place for the codes of each operator. */
  lemma CodesFit(text: string, i: nat, r: CharReading)
    requires i < |text| && IsOperator(text[i]) && Lex(text[..i], r).Lexing?
    ensures |Lex(text[..i], r).out| + 2 <= 2 * Operators(text)
  {
    CodesPerOperator(text[..i], r);
    OperatorsGrow(text[..i + 1], text[i + 1..]);
    assert text == text[..i + 1] + text[i + 1..] && text[..i + 1][..i] == text[..i];
  }

  method Tokenise(c: array<char>, n: nat, cNew: array<Code>, r: CharReading) returns (ok: bool)
    requires n <= c.Length && 2 * Operators(c[..n]) <= cNew.Length
    modifies cNew
    ensures ok == Lex(c[..n], r).Lexing?
    ensures ok ==> var out := Lex(c[..n], r).out; |out| <= cNew.Length && cNew[..|out|] == out
  {
    hide Operators, CharOf, Lex, CodeOf;
    LexEmpty(r);
    var i, iNew, tmp := 0, 0, 0;
    ghost var text := c[..n];
    while i < n
      invariant 0 <= i <= n && 0 <= iNew <= cNew.Length && text == c[..n]
      invariant Lex(text[..i], r) == Lexing(cNew[..iNew], tmp)
    {
      LexAt(text, i, r);
      if !IsOperator(c[i]) {
        tmp := tmp * 10 + (c[i] as int - '0' as int);
        if !IsInt(tmp) {
          return false;
        }
      } else {
        CodesFit(text, i, r);
        if !IsInt(tmp + 48) {
          return false;
        }
        ghost var before := cNew[..iNew];
        cNew[iNew] := CharOf(tmp, r);
        iNew := iNew + 1;
        cNew[iNew] := CodeOf(c[i]);
        iNew := iNew + 1;
        tmp := 0;
        assert cNew[..iNew] == before + [cNew[iNew - 2], cNew[iNew - 1]];
      }
      i := i + 1;
    }
    assert text[..n] == text;
    ok := true;
  }
}
