/** The keypad calculator: what it shows for the text of an expression. */
module Calculator {
  import opened CalculatorSyntax
  import opened Tokeniser
  import opened Evaluator
  import opened Arithmetic

  /** What the calculator shows when `text` ends with `=`. */
  function Evaluated(text: string, r: CharReading): Outcome {
    var l := Lex(text, r);
    if l.Lexing? then Result(Run(l.out)) else Undefined
  }

  /** An operand and the operator after it. */
  function Stored(digits: string, next: char, r: CharReading): (codes: seq<Code>)
    requires AreDigits(digits) && IsOperator(next)
    ensures |codes| == 2
  {
    [CharOf(Number(digits), r), CodeOf(next)]
  }

  function TermCodes(t: Term, next: char, r: CharReading): (codes: seq<Code>)
    requires IsTerm(t) && IsOperator(next)
    ensures |codes| % 2 == 0
  {
    if t.Operand? then Stored(t.digits, next, r)
    else TermCodes(t.left, Factor(t), r) + Stored(t.right, next, r)
  }

  function SumCodes(s: Sum, next: char, r: CharReading): (codes: seq<Code>)
    requires IsSum(s) && IsOperator(next)
    ensures |codes| % 2 == 0
  {
    if s.Single? then TermCodes(s.term, next, r)
    else
      var left, last := SumCodes(s.left, Link(s), r), TermCodes(s.term, next, r);
      assert (|left| + |last|) % 2 == 0;
      left + last
  }

  /** Digits add up to their number, unless it is more than an `int`. */
  lemma {:induction false} LexDigits(text: string, digits: string, r: CharReading)
    requires Lex(text, r).Lexing? && Lex(text, r).tmp == 0 && AreDigits(digits)
    ensures Lex(text + digits, r) ==
            if IsInt(Number(digits)) then Lexing(Lex(text, r).out, Number(digits)) else Overflowed
  {
    if digits == [] {
      assert text + digits == text;
    } else {
      var n := |digits| - 1;
      LexDigits(text, digits[..n], r);
      assert text + digits == (text + digits[..n]) + [digits[n]];
      LexSnoc(text + digits[..n], digits[n], r);
    }
  }

  /** An operand is stored as one `char` with its operator after it. */
  lemma LexOperand(text: string, digits: string, next: char, r: CharReading)
    requires Lex(text, r).Lexing? && Lex(text, r).tmp == 0 && AreDigits(digits) && IsOperator(next)
    ensures Lex(text + digits + [next], r) ==
            if IsInt(Number(digits) + 48)
            then Lexing(Lex(text, r).out + [CharOf(Number(digits), r), CodeOf(next)], 0)
            else Overflowed
  {
    LexDigits(text, digits, r);
    LexSnoc(text + digits, next, r);
  }

  /** The largest operand to which '0' can be added. */
  const MOST: nat := 0x7fff_ffff - 48

  lemma {:induction false} LexTerm(text: string, t: Term, next: char, r: CharReading)
    requires Lex(text, r).Lexing? && Lex(text, r).tmp == 0 && IsTerm(t) && IsOperator(next)
    ensures Lex(text + TermText(t) + [next], r) ==
            if TermWithin(t, MOST) then Lexing(Lex(text, r).out + TermCodes(t, next, r), 0) else Overflowed
    decreases t, 0
  {
    match t
    case Operand(d) => LexOperand(text, d, next, r);
    case Times(l, d) => LexProduct(text, l, '*', d, next, r);
    case Over(l, d) => LexProduct(text, l, '/', d, next, r);
  }

  lemma {:induction false} LexProduct(text: string, l: Term, op: char, d: string, next: char, r: CharReading)
    requires Lex(text, r).Lexing? && Lex(text, r).tmp == 0
    requires IsTerm(l) && AreDigits(d) && IsOperator(op) && IsOperator(next)
    ensures Lex(text + (TermText(l) + [op] + d) + [next], r) ==
            if TermWithin(l, MOST) && Number(d) <= MOST
            then Lexing(Lex(text, r).out + (TermCodes(l, op, r) + Stored(d, next, r)), 0)
            else Overflowed
    decreases l, 1
  {
    var head := text + TermText(l) + [op];
    LexTerm(text, l, op, r);
    assert text + (TermText(l) + [op] + d) + [next] == head + d + [next] == head + (d + [next]);
    hide Lex, TermText, TermCodes, TermWithin, Stored, Number, IsOperator;
    if TermWithin(l, MOST) {
      LexOperand(head, d, next, r);
      var out := Lex(text, r).out;
      var last := Stored(d, next, r);
      assert out + TermCodes(l, op, r) + last == out + (TermCodes(l, op, r) + last);
    } else {
      OverflowStays(head, d + [next], r);
    }
  }

  lemma {:induction false} LexSum(s: Sum, next: char, r: CharReading)
    requires IsSum(s) && IsOperator(next)
    ensures Lex(SumText(s) + [next], r) ==
            if Within(s, MOST) then Lexing(SumCodes(s, next, r), 0) else Overflowed
  {
    if s.Single? {
      LexTerm("", s.term, next, r);
      assert "" + TermText(s.term) == SumText(s);
    } else {
      var op := Link(s);
      LexSum(s.left, op, r);
      var head := SumText(s.left) + [op];
      var tail := TermText(s.term) + [next];
      assert SumText(s) + [next] == head + TermText(s.term) + [next] == head + tail;
      if Within(s.left, MOST) {
        LexTerm(head, s.term, next, r);
      } else {
        OverflowStays(head, tail, r);
      }
    }
  }

  lemma RunOperand(codes: seq<Code>, d: string, next: char, r: CharReading)
    requires |codes| % 2 == 0 && AreDigits(d) && IsOperator(next)
    ensures Run(codes + Stored(d, next, r)) == Step(Run(codes), CharOf(Number(d), r), CodeOf(next))
  {
  }

  /** A term is worth its value, taken with the operator before it. */
  ghost predicate TermRuns(codes: seq<Code>, t: Term, next: char, r: CharReading)
    requires |codes| % 2 == 0 && IsTerm(t) && IsOperator(next) && Run(codes).Between?
  {
    var p, x := Run(codes), TermValue(t, r);
    Run(codes + TermCodes(t, next, r)) == if x.Answer? then Take(p.total, p.oper, x.value, CodeOf(next)) else Broken
  }

  lemma {:induction false} RunTerm(codes: seq<Code>, t: Term, next: char, r: CharReading)
    requires |codes| % 2 == 0 && IsTerm(t) && IsOperator(next)
    requires Run(codes).Between? && Run(codes).oper != CodeOf('=')
    ensures TermRuns(codes, t, next, r)
  {
    hide Run, Number, CharOf, Quotient;
    if t.Operand? {
      RunOperand(codes, t.digits, next, r);
    } else {
      var op := Factor(t);
      RunTerm(codes, t.left, op, r);
      var head := codes + TermCodes(t.left, op, r);
      RunOperand(head, t.right, next, r);
      assert codes + TermCodes(t, next, r) == head + Stored(t.right, next, r);
    }
  }

  lemma {:induction false} RunSum(s: Sum, next: char, r: CharReading)
    requires IsSum(s) && IsOperator(next) && !Binds(CodeOf(next))
    ensures Run(SumCodes(s, next, r)) ==
            var x := SumValue(s, r); if x.Answer? then Between(x.value, CodeOf(next)) else Broken
  {
    RunEmpty([]);
    hide Run, TermCodes, TermValue, Checked;
    if s.Single? {
      RunTerm([], s.term, next, r);
      assert [] + TermCodes(s.term, next, r) == SumCodes(s, next, r);
      TermIsInt(s.term, r);
    } else {
      var op := Link(s);
      RunSum(s.left, op, r);
      var head := SumCodes(s.left, op, r);
      if SumValue(s.left, r).Answer? {
        RunTerm(head, s.term, next, r);
      } else {
        RunStops(head, TermCodes(s.term, next, r));
      }
    }
  }

  lemma TermIsInt(t: Term, r: Reading)
    requires IsTerm(t)
    ensures TermValue(t, r).Answer? ==> Checked(TermValue(t, r).value) == TermValue(t, r)
  {
  }

  /** The answer is the value of the expression, with `*` and `/` binding tighter and all
      operators grouping from the left, on the operands as a `char` holds them. */
  lemma Calculates(s: Sum, r: CharReading)
    requires IsSum(s)
    ensures Evaluated(SumText(s) + "=", r) == if Within(s, MOST) then SumValue(s, r) else Undefined
  {
    LexSum(s, '=', r);
    RunSum(s, '=', r);
  }

  /** Operands up to 79 are exact whichever way `char` is signed. */
  lemma SmallOperandsAreExact(s: Sum, r: CharReading)
    requires IsSum(s) && Within(s, 79)
    ensures Evaluated(SumText(s) + "=", r) == SumValue(s, Exact)
  {
    Calculates(s, r);
    WithinMore(s, 79, Largest(r));
    WithinMore(s, 79, MOST);
    SumReadExactly(s, r);
  }

  lemma {:induction false} TermWithinMore(t: Term, a: nat, b: nat)
    requires IsTerm(t) && TermWithin(t, a) && a <= b
    ensures TermWithin(t, b)
  {
    if !t.Operand? {
      TermWithinMore(t.left, a, b);
    }
  }

  lemma {:induction false} WithinMore(s: Sum, a: nat, b: nat)
    requires IsSum(s) && Within(s, a) && a <= b
    ensures Within(s, b)
  {
    TermWithinMore(s.term, a, b);
    if !s.Single? {
      WithinMore(s.left, a, b);
    }
  }

  /** An operand alone is shown as itself exactly when a `char` holds it with '0' added. */
  lemma OperandShownExactlyWhen(digits: string, r: CharReading)
    requires AreDigits(digits)
    ensures Evaluated(digits + "=", r) == Answer(Number(digits)) <==> Number(digits) <= Largest(r)
  {
    var s := Single(Operand(digits));
    Calculates(s, r);
    ReadExactly(digits, r);
    assert SumText(s) == digits;
  }

  lemma {:induction false} LexAppends(text: string, more: string, r: CharReading)
    requires Lex(text + more, r).Lexing?
    ensures Lex(text, r).Lexing? && Lex(text, r).out <= Lex(text + more, r).out
  {
    if more == [] {
      assert text + more == text;
    } else {
      var n := |more| - 1;
      assert text + more == (text + more[..n]) + [more[n]];
      LexSnoc(text + more[..n], more[n], r);
      LexAppends(text, more[..n], r);
    }
  }

  lemma StoppedAtEquals(s: Sum, r: CharReading)
    requires IsSum(s) && Lex(SumText(s) + "=", r).Lexing?
    ensures Stopped(Run(Lex(SumText(s) + "=", r).out))
  {
  }

  /** Codes after a stop change nothing. */
  lemma StoppedStays(text: string, more: string, r: CharReading)
    requires Lex(text + more, r).Lexing? && Lex(text, r).Lexing? && Stopped(Run(Lex(text, r).out))
    ensures Evaluated(text + more, r) == Evaluated(text, r)
  {
    LexAppends(text, more, r);
    hide Lex, Run, Stopped;
    var out, all := Lex(text, r).out, Lex(text + more, r).out;
    assert all[..|out|] == out && all[..|all|] == all;
    RunSplit(all, |out|, |all|);
  }

  /** Until it is cleared the calculator repeats its first answer, whatever is keyed after it. */
  lemma FirstAnswerStays(s: Sum, more: string, r: CharReading)
    requires IsSum(s) && Lex(SumText(s) + "=" + more, r).Lexing?
    ensures Evaluated(SumText(s) + "=" + more, r) == Evaluated(SumText(s) + "=", r)
  {
    var text := SumText(s) + "=";
    LexAppends(text, more, r);
    StoppedAtEquals(s, r);
    hide *;
    StoppedStays(text, more, r);
  }

  // ---------------------------------------------------------------------------------
  // Answers in plain numbers
  // ---------------------------------------------------------------------------------

  function PowerOfTen(n: nat): nat {
    if n == 0 then 1 else 10 * PowerOfTen(n - 1)
  }

  /** Each digit counts ten times as much as the one after it. */
  function Decimal(digits: string): (n: nat)
    requires AreDigits(digits)
  {
    if digits == [] then 0
    else (digits[0] as int - 48) * PowerOfTen(|digits| - 1) + Decimal(digits[1..])
  }

  /** What the tokeniser adds up from the left is the number's decimal value. */
  lemma {:induction false} NumberIsDecimal(digits: string)
    requires AreDigits(digits)
    ensures Number(digits) == Decimal(digits)
  {
    if digits != [] {
      var n := |digits| - 1;
      NumberIsDecimal(digits[..n]);
      DecimalSnoc(digits[..n], digits[n]);
      assert digits == digits[..n] + [digits[n]];
    }
  }

  lemma {:induction false} DecimalSnoc(digits: string, d: char)
    requires AreDigits(digits) && IsDigit(d)
    ensures Decimal(digits + [d]) == Decimal(digits) * 10 + (d as int - 48)
  {
    var more := digits + [d];
    if digits == [] {
      assert more[1..] == [] && PowerOfTen(0) == 1;
    } else {
      DecimalSnoc(digits[1..], d);
      assert more[1..] == digits[1..] + [d];
      var x, p := digits[0] as int - 48, PowerOfTen(|digits| - 1);
      assert PowerOfTen(|digits|) == 10 * p;
      assert x * (10 * p) == x * p * 10;
    }
  }

  /** Two operands that a `char` holds with '0' added. */
  predicate Small(d: string, e: string) {
    AreDigits(d) && AreDigits(e) && Number(d) <= 79 && Number(e) <= 79
  }

  lemma BinaryTexts(d: string, e: string)
    ensures SumText(Single(Times(Operand(d), e))) == d + "*" + e
    ensures SumText(Single(Over(Operand(d), e))) == d + "/" + e
    ensures SumText(Plus(Single(Operand(d)), Operand(e))) == d + "+" + e
    ensures SumText(Minus(Single(Operand(d)), Operand(e))) == d + "-" + e
  {
    assert TermText(Operand(d)) == d && TermText(Operand(e)) == e && SumText(Single(Operand(d))) == d;
  }

  lemma SmallOperand(d: string)
    requires AreDigits(d) && Number(d) <= 79
    ensures IsTerm(Operand(d)) && TermValue(Operand(d), Exact) == Answer(Number(d))
  {
  }

  lemma ProductIsShown(d: string, e: string, r: CharReading)
    requires Small(d, e)
    ensures Evaluated(d + "*" + e + "=", r) == Answer(Number(d) * Number(e))
  {
    hide Evaluated, SumText, Number;
    BinaryTexts(d, e);
    SmallOperandsAreExact(Single(Times(Operand(d), e)), r);
    SmallOperand(d);
    SmallProduct(Number(d), Number(e));
  }

  lemma SmallProduct(a: nat, b: nat)
    requires a <= 79 && b <= 79
    ensures 0 <= a * b <= 79 * 79
  {
    assert a * b <= 79 * b;
  }

  /** A quotient is the number of times the divisor goes into the dividend; by 0 there is none. */
  lemma QuotientIsShown(d: string, e: string, r: CharReading)
    requires Small(d, e)
    ensures var shown := Evaluated(d + "/" + e + "=", r);
            if Number(e) == 0 then shown.Undefined?
            else shown.Answer? && 0 <= Number(d) - Number(e) * shown.value < Number(e)
  {
    hide Evaluated, SumText, Number, Quotient;
    BinaryTexts(d, e);
    SmallOperandsAreExact(Single(Over(Operand(d), e)), r);
    SmallOperand(d);
    if Number(e) != 0 {
      SmallQuotient(Number(d), Number(e));
    }
  }

  lemma SmallQuotient(a: nat, b: nat)
    requires 0 < b && a <= 79
    ensures 0 <= a - b * Quotient(a, b) < b && 0 <= Quotient(a, b) <= 79
  {
    hide Quotient;
    QuotientTruncates(a, b);
    DivisionBounds(a, b);
    QuotientOfNat(a, b);
  }

  lemma QuotientOfNat(a: nat, b: nat)
    requires b > 0
    ensures Quotient(a, b) == a / b
  {
  }

  lemma DivisionBounds(a: nat, b: nat)
    requires b > 0
    ensures 0 <= a / b <= a && (b == 1 ==> a / b == a) && (b > 1 ==> 2 * (a / b) <= a)
  {
    var q := a / b;
    assert a == q * b + a % b;
    if b > 1 {
      NextMultiple(b, 1, q);
      assert b * q == q * b;
    }
  }

  lemma SumIsShown(d: string, e: string, r: CharReading)
    requires Small(d, e)
    ensures Evaluated(d + "+" + e + "=", r) == Answer(Number(d) + Number(e))
    ensures Evaluated(d + "-" + e + "=", r) == Answer(Number(d) - Number(e))
  {
    hide Evaluated, SumText, Number;
    BinaryTexts(d, e);
    SmallOperand(d);
    SmallOperand(e);
    SmallOperandsAreExact(Plus(Single(Operand(d)), Operand(e)), r);
    SmallOperandsAreExact(Minus(Single(Operand(d)), Operand(e)), r);
  }

  /** One more factor: the term's value so far is multiplied by it, and has none outside the
      `int` range. */
  lemma TermTimes(l: Term, d: string, r: Reading)
    requires IsTerm(l) && AreDigits(d) && TermValue(l, r).Answer?
    ensures var x, y := TermValue(l, r).value, Read(d, r);
            TermValue(Times(l, d), r) == if -0x8000_0000 <= x * y <= 0x7fff_ffff then Answer(x * y) else Undefined
  {
    hide Read;
  }

  /** One more divisor: the value so far is divided and the rest dropped towards zero; there is
      no value for a divisor of 0, nor for the least `int` divided by -1. */
  lemma TermOver(l: Term, d: string, r: Reading)
    requires IsTerm(l) && AreDigits(d) && TermValue(l, r).Answer?
    ensures var x, y, over := TermValue(l, r).value, Read(d, r), TermValue(Over(l, d), r);
            if over.Answer? then
              y != 0 && var rest := x - y * over.value;
                        Magnitude(rest) < Magnitude(y) && (rest == 0 || (rest < 0 <==> x < 0))
            else y == 0 || (x == -0x8000_0000 && y == -1)
  {
    hide Read, Quotient;
    TermIsInt(l, r);
    var x, y := TermValue(l, r).value, Read(d, r);
    if y != 0 {
      QuotientTruncates(x, y);
      QuotientFits(x, y);
    }
  }

  /** Only the least `int` divided by -1 leaves the range. */
  lemma QuotientFits(x: int, y: int)
    requires IsInt(x) && y != 0
    ensures IsInt(Quotient(x, y)) || (x == -0x8000_0000 && y == -1)
  {
    DivisionBounds(Magnitude(x), Magnitude(y));
  }

  /** Products and quotients bind tighter than sums, and operators group from the left. */
  lemma MixedExpression(r: CharReading)
    ensures Evaluated("12+3*4-20/3/2=", r) == Answer(21)
  {
    var x, y, z := Single(Operand("12")), Times(Operand("3"), "4"), Over(Over(Operand("20"), "3"), "2");
    MixedText();
    MixedValue();
    hide Evaluated, SumText, SumValue, Within;
    SmallOperandsAreExact(Minus(Plus(x, y), z), r);
    assert "12+3*4-20/3/2" + "=" == "12+3*4-20/3/2=";
  }

  lemma MixedText()
    ensures SumText(Minus(Plus(Single(Operand("12")), Times(Operand("3"), "4")), Over(Over(Operand("20"), "3"), "2")))
            == "12+3*4-20/3/2"
  {
    assert TermText(Operand("12")) == "12" && TermText(Operand("3")) == "3" && TermText(Operand("20")) == "20";
    assert TermText(Times(Operand("3"), "4")) == "3*4" && TermText(Over(Operand("20"), "3")) == "20/3";
    assert SumText(Plus(Single(Operand("12")), Times(Operand("3"), "4"))) == "12+3*4";
  }

  lemma MixedValue()
    ensures var s := Minus(Plus(Single(Operand("12")), Times(Operand("3"), "4")), Over(Over(Operand("20"), "3"), "2"));
            IsSum(s) && Within(s, 79) && SumValue(s, Exact) == Answer(21)
  {
    assert Number("") == 0 && Number("1") == 1 && Number("2") == 2 && Number("3") == 3 && Number("4") == 4;
    assert "12"[..1] == "1" && "20"[..1] == "2";
    assert Number("12") == 12 && Number("20") == 20;
    assert TermValue(Times(Operand("3"), "4"), Exact) == Answer(12);
    assert TermValue(Over(Operand("20"), "3"), Exact) == Answer(6);
    assert TermValue(Over(Over(Operand("20"), "3"), "2"), Exact) == Answer(3);
    assert SumValue(Plus(Single(Operand("12")), Times(Operand("3"), "4")), Exact) == Answer(24);
  }
}
