/** The calculator's key buffer and main loop. */
module Keypad {
  import opened CalculatorSyntax
  import opened Tokeniser
  import opened Evaluator
  import opened Calculator

  /** The sixteen keys. */
  predicate IsKey(key: char) {
    IsDigit(key) || 'A' <= key <= 'D' || key == '*' || key == '#'
  }

  function ChangeOperator(key: char): char {
    match key
    case 'A' => '+'
    case 'B' => '-'
    case 'C' => '*'
    case 'D' => '/'
    case '*' => 'C'
    case '#' => '='
    case _ => key
  }

  /** The buffer once `key` is handled. */
  function Typed(text: string, key: char): string {
    if key == '*' then "" else text + [ChangeOperator(key)]
  }

  function AfterKeys(text: string, keys: string): string {
    if keys == [] then text else Typed(AfterKeys(text, keys[..|keys| - 1]), keys[|keys| - 1])
  }

  /** The buffers of twenty places hold the key and, at `#`, the codes. */
  predicate Room(text: string, key: char) {
    |text| < 20 && (key == '#' ==> 2 * Operators(text + "=") <= 20)
  }

  datatype Screen = Nothing | Shown(outcome: Outcome)

  function Shows(text: string, key: char, r: CharReading): Screen {
    if key == '#' then Shown(Evaluated(text + "=", r)) else Nothing
  }

  lemma LexEnds(text: string, r: CharReading)
    requires Lex(text + "=", r).Lexing?
    ensures var out := Lex(text + "=", r).out; out != [] && out[|out| - 1] == CodeOf('=')
  {
  }

  class Pad {
    const reading: CharReading
    const c: array<char>
    const cNew: array<Code>
    var index: nat

    ghost predicate Valid()
      reads this
    {
      c.Length == 20 && cNew.Length == 20 && index <= 20
    }

    ghost function Text(): string
      requires Valid()
      reads this, c
    {
      c[..index]
    }

    constructor (r: CharReading)
      ensures Valid() && fresh(c) && fresh(cNew) && reading == r && Text() == ""
    {
      reading, index := r, 0;
      c := new char[20];
      cNew := new Code[20];
    }

    /** One pass of the main loop. */
    method Press(key: char) returns (screen: Screen)
      requires Valid() && IsKey(key) && Room(Text(), key)
      modifies this, c, cNew
      ensures Valid()
      ensures Text() == Typed(old(Text()), key)
      ensures screen == Shows(old(Text()), key, reading)
    {
      hide Lex, Run, Operators, Result;
      c[index] := ChangeOperator(key);
      index := index + 1;
      screen := Nothing;
      assert c[..index] == old(Text()) + [ChangeOperator(key)];
      if key == '#' {
        var ok := Tokenise(c, index, cNew, reading);
        if ok {
          ghost var out := Lex(Text(), reading).out;
          LexEnds(old(Text()), reading);
          var answer := Calculate(cNew, |out| - 1);
          screen := Shown(answer);
        } else {
          screen := Shown(Undefined);
        }
      } else if key == '*' {
        index := 0;
      }
    }

    /** The main loop over the keys pressed. */
    method Session(keys: string) returns (screens: seq<Screen>)
      requires Valid() && forall k | 0 <= k < |keys| :: IsKey(keys[k]) && Room(AfterKeys(Text(), keys[..k]), keys[k])
      modifies this, c, cNew
      ensures Valid() && Text() == AfterKeys(old(Text()), keys)
      ensures |screens| == |keys|
      ensures forall k | 0 <= k < |keys| ::
                screens[k] == Shows(AfterKeys(old(Text()), keys[..k]), keys[k], reading)
    {
      hide Typed, Room, Shows, IsKey;
      screens := [];
      ghost var start := Text();
      while |screens| < |keys|
        invariant Valid() && |screens| <= |keys| && Text() == AfterKeys(start, keys[..|screens|])
        invariant forall k | 0 <= k < |screens| :: screens[k] == Shows(AfterKeys(start, keys[..k]), keys[k], reading)
      {
        var n := |screens|;
        assert keys[..n + 1][..n] == keys[..n];
        var screen := Press(keys[n]);
        screens := screens + [screen];
      }
      assert keys[..|keys|] == keys;
    }
  }

  function KeyOf(ch: char): (key: char)
    requires IsDigit(ch) || IsOperator(ch)
    ensures IsKey(key) && key != '*' && ChangeOperator(key) == ch
  {
    match ch
    case '+' => 'A'
    case '-' => 'B'
    case '*' => 'C'
    case '/' => 'D'
    case '=' => '#'
    case _ => ch
  }

  predicate IsKeyable(text: string) {
    forall i | 0 <= i < |text| :: IsDigit(text[i]) || IsOperator(text[i])
  }

  function KeysOf(text: string): (keys: string)
    requires IsKeyable(text)
    ensures |keys| == |text| && forall i | 0 <= i < |text| :: keys[i] == KeyOf(text[i])
  {
    if text == [] then "" else KeysOf(text[..|text| - 1]) + [KeyOf(text[|text| - 1])]
  }

  /** Clearing and keying a text leaves that text in the buffer. */
  lemma {:induction false} KeyedText(before: string, text: string)
    requires IsKeyable(text)
    ensures AfterKeys(before, "*" + KeysOf(text)) == text
  {
    if text == [] {
      assert AfterKeys(before, "*") == "";
    } else {
      var n := |text| - 1;
      KeyedText(before, text[..n]);
      var keys := "*" + KeysOf(text);
      assert keys[..|keys| - 1] == "*" + KeysOf(text[..n]);
    }
  }

  lemma {:induction false} TermIsKeyable(t: Term)
    requires IsTerm(t)
    ensures IsKeyable(TermText(t)) && '=' !in TermText(t)
  {
    if !t.Operand? {
      TermIsKeyable(t.left);
    }
  }

  lemma {:induction false} SumIsKeyable(s: Sum)
    requires IsSum(s)
    ensures IsKeyable(SumText(s)) && '=' !in SumText(s)
  {
    TermIsKeyable(s.term);
    if !s.Single? {
      SumIsKeyable(s.left);
    }
  }

  /** Whatever was in the buffer, clearing it, keying an expression of operands up to 79 and
      pressing `#` shows the expression's value. */
  lemma ShowsTheValue(before: string, s: Sum, r: CharReading)
    requires IsSum(s) && Within(s, 79)
    ensures IsKeyable(SumText(s))
    ensures Shows(AfterKeys(before, "*" + KeysOf(SumText(s))), '#', r) == Shown(SumValue(s, Exact))
  {
    SumIsKeyable(s);
    KeyedText(before, SumText(s));
    SmallOperandsAreExact(s, r);
  }

  /** Every operand has a digit. */
  predicate TermWritten(t: Term) {
    if t.Operand? then t.digits != [] else TermWritten(t.left) && t.right != []
  }

  predicate Written(s: Sum) {
    TermWritten(s.term) && (s.Single? || Written(s.left))
  }

  lemma {:induction false} OperatorsAdd(a: string, b: string)
    ensures Operators(a + b) == Operators(a) + Operators(b)
  {
    if b == [] {
      assert a + b == a;
    } else {
      var n := |b| - 1;
      OperatorsAdd(a, b[..n]);
      assert (a + b)[..|a + b| - 1] == a + b[..n];
    }
  }

  lemma {:induction false} DigitsAreNotOperators(d: string)
    requires AreDigits(d)
    ensures Operators(d) == 0
  {
    if d != [] {
      DigitsAreNotOperators(d[..|d| - 1]);
    }
  }

  lemma {:induction false} TermFits(t: Term)
    requires IsTerm(t) && TermWritten(t)
    ensures 2 * Operators(TermText(t)) + 1 <= |TermText(t)|
  {
    if t.Operand? {
      DigitsAreNotOperators(t.digits);
    } else {
      TermFits(t.left);
      DigitsAreNotOperators(t.right);
      OperatorsAdd(TermText(t.left) + [Factor(t)], t.right);
      OperatorsAdd(TermText(t.left), [Factor(t)]);
    }
  }

  /** The codes of an expression take no more places than its text. */
  lemma {:induction false} SumFits(s: Sum)
    requires IsSum(s) && Written(s)
    ensures 2 * Operators(SumText(s)) + 1 <= |SumText(s)|
  {
    TermFits(s.term);
    if !s.Single? {
      SumFits(s.left);
      OperatorsAdd(SumText(s.left) + [Link(s)], TermText(s.term));
      OperatorsAdd(SumText(s.left), [Link(s)]);
    }
  }

  /** An expression of at most nineteen characters can be evaluated within the buffers. */
  lemma ExpressionHasRoom(s: Sum)
    requires IsSum(s) && Written(s) && |SumText(s)| <= 19
    ensures Room(SumText(s), '#')
  {
    SumFits(s);
    OperatorsAdd(SumText(s), "=");
  }

  // ---------------------------------------------------------------------------------
  // An expression keyed in
  // ---------------------------------------------------------------------------------

  /** Clear, the text, and the equals key. */
  function Keying(text: string): (keys: string)
    requires IsKeyable(text)
    ensures |keys| == |text| + 2 && forall k | 0 <= k < |keys| :: IsKey(keys[k])
  {
    "*" + KeysOf(text) + "#"
  }

  /** After clear and k more keys the buffer holds the first k characters. */
  lemma KeyingSoFar(before: string, text: string, k: nat)
    requires IsKeyable(text) && k <= |text|
    ensures AfterKeys(before, Keying(text)[..k + 1]) == text[..k]
  {
    KeyedText(before, text[..k]);
    assert Keying(text)[..k + 1] == "*" + KeysOf(text[..k]);
  }

  lemma KeyingHasRoom(before: string, s: Sum, k: nat)
    requires |before| < 20 && IsSum(s) && Written(s) && |SumText(s)| <= 19
    requires IsKeyable(SumText(s)) && '=' !in SumText(s) && k < |SumText(s)| + 2
    ensures var keys := Keying(SumText(s)); Room(AfterKeys(before, keys[..k]), keys[k])
    ensures var keys := Keying(SumText(s)); keys[k] == '#' <==> k == |keys| - 1
  {
    hide Operators, Written;
    var text := SumText(s);
    ExpressionHasRoom(s);
    if k == 0 {
      assert Keying(text)[..0] == [];
    } else {
      KeyingSoFar(before, text, k - 1);
      if k - 1 < |text| {
        assert Keying(text)[k] == KeyOf(text[k - 1]) && text[k - 1] in text;
      } else {
        assert text[..k - 1] == text;
      }
    }
  }

  /** Every key of an expression keyed in finds room, and nothing is shown before `#`. */
  lemma KeyingIsQuiet(before: string, s: Sum, r: CharReading)
    requires |before| < 20 && IsSum(s) && Written(s) && |SumText(s)| <= 19 && IsKeyable(SumText(s))
    ensures var keys := Keying(SumText(s));
            forall k | 0 <= k < |keys| ::
              && Room(AfterKeys(before, keys[..k]), keys[k])
              && (k < |keys| - 1 ==> Shows(AfterKeys(before, keys[..k]), keys[k], r) == Nothing)
  {
    hide Keying, Room, Written, Evaluated, Operators, SumText, IsSum, AfterKeys;
    SumIsKeyable(s);
    forall k | 0 <= k < |Keying(SumText(s))|
      ensures var keys := Keying(SumText(s));
              && Room(AfterKeys(before, keys[..k]), keys[k])
              && (k < |keys| - 1 ==> Shows(AfterKeys(before, keys[..k]), keys[k], r) == Nothing)
    {
      KeyingHasRoom(before, s, k);
    }
  }

  /** At `#` the expression is in the buffer, and its value is shown. */
  lemma KeyingShows(before: string, s: Sum, r: CharReading)
    requires IsSum(s) && IsKeyable(SumText(s))
    ensures var text, keys := SumText(s), Keying(SumText(s));
            var n := |keys| - 1;
            && AfterKeys(before, keys) == text + "="
            && Shows(AfterKeys(before, keys[..n]), keys[n], r) ==
               Shown(if Within(s, MOST) then SumValue(s, r) else Undefined)
            && (Within(s, 79) ==> Shows(AfterKeys(before, keys[..n]), keys[n], r) == Shown(SumValue(s, Exact)))
  {
    hide Within, SumValue, Evaluated, SumText, IsSum, AfterKeys;
    var text, keys := SumText(s), Keying(SumText(s));
    KeyingSoFar(before, text, |text|);
    assert text[..|text|] == text && keys[..|keys| - 1] == keys[..|text| + 1];
    AfterLast(before, keys);
    Calculates(s, r);
    if Within(s, 79) {
      SmallOperandsAreExact(s, r);
    }
  }

  /** Clearing the buffer, keying a written expression of at most nineteen characters and
      pressing `#` shows nothing on the way, and at the end the expression's value: exactly, if
      its operands are at most 79. */
  method KeyExpression(pad: Pad, s: Sum) returns (screens: seq<Screen>)
    requires pad.Valid() && |pad.Text()| < 20
    requires IsSum(s) && Written(s) && |SumText(s)| <= 19
    modifies pad, pad.c, pad.cNew
    ensures pad.Valid() && pad.Text() == SumText(s) + "="
    ensures |screens| == |SumText(s)| + 2
    ensures forall k | 0 <= k < |screens| - 1 :: screens[k] == Nothing
    ensures screens[|screens| - 1] == Shown(if Within(s, MOST) then SumValue(s, pad.reading) else Undefined)
    ensures Within(s, 79) ==> screens[|screens| - 1] == Shown(SumValue(s, Exact))
  {
    hide Keying, Room, Written, Within, SumValue, Evaluated, Operators, SumText, IsSum, KeysOf, AfterKeys, Shows;
    SumIsKeyable(s);
    KeyingIsQuiet(pad.Text(), s, pad.reading);
    KeyingShows(pad.Text(), s, pad.reading);
    screens := pad.Session(Keying(SumText(s)));
  }

  lemma AfterLast(before: string, keys: string)
    requires keys != [] && keys[|keys| - 1] == '#'
    ensures AfterKeys(before, keys) == AfterKeys(before, keys[..|keys| - 1]) + "="
  {
  }

  // ---------------------------------------------------------------------------------
  // Two operands
  // ---------------------------------------------------------------------------------

  /** The keys for two operands and the operator between them. */
  lemma KeysInFull(d: string, e: string)
    requires AreDigits(d) && AreDigits(e)
    ensures IsKeyable(d + "+" + e) && Keying(d + "+" + e) == "*" + d + "A" + e + "#"
    ensures IsKeyable(d + "-" + e) && Keying(d + "-" + e) == "*" + d + "B" + e + "#"
    ensures IsKeyable(d + "*" + e) && Keying(d + "*" + e) == "*" + d + "C" + e + "#"
    ensures IsKeyable(d + "/" + e) && Keying(d + "/" + e) == "*" + d + "D" + e + "#"
  {
    KeysAround(d, '+', e);
    KeysAround(d, '-', e);
    KeysAround(d, '*', e);
    KeysAround(d, '/', e);
  }

  lemma KeysAround(d: string, op: char, e: string)
    requires AreDigits(d) && AreDigits(e) && IsOperator(op)
    ensures IsKeyable(d + [op] + e) && Keying(d + [op] + e) == "*" + d + [KeyOf(op)] + e + "#"
  {
    var text := d + [op] + e;
    forall i | 0 <= i < |text|
      ensures (IsDigit(text[i]) || IsOperator(text[i])) && KeyOf(text[i]) == (d + [KeyOf(op)] + e)[i]
    {
    }
    assert KeysOf(text) == d + [KeyOf(op)] + e;
  }

  /** The expression keyed. */
  function Binary(d: string, key: char, e: string): Sum {
    match key
    case 'A' => Plus(Single(Operand(d)), Operand(e))
    case 'B' => Minus(Single(Operand(d)), Operand(e))
    case 'C' => Single(Times(Operand(d), e))
    case _ => Single(Over(Operand(d), e))
  }

  lemma BinaryIsKeyed(d: string, key: char, e: string)
    requires AreDigits(d) && AreDigits(e) && d != "" && e != "" && 'A' <= key <= 'D'
    ensures var s := Binary(d, key, e);
            && IsSum(s) && Written(s) && |SumText(s)| == |d| + |e| + 1
            && IsKeyable(SumText(s)) && Keying(SumText(s)) == "*" + d + [key] + e + "#"
  {
    hide Keying;
    assert IsTerm(Operand(d)) && TermWritten(Operand(d)) && IsSum(Single(Operand(d))) && Written(Single(Operand(d)));
    BinaryTexts(d, e);
    KeysInFull(d, e);
  }

  /** What its value is in plain numbers. */
  ghost predicate IsBinary(a: nat, key: char, b: nat, shown: Screen) {
    && (key == 'A' ==> shown == Shown(Answer(a + b)))
    && (key == 'B' ==> shown == Shown(Answer(a - b)))
    && (key == 'C' ==> shown == Shown(Answer(a * b)))
    && (key == 'D' ==>
          if b == 0 then shown == Shown(Undefined)
          else shown.Shown? && shown.outcome.Answer? && 0 <= a - b * shown.outcome.value < b)
  }

  lemma BinaryShown(d: string, key: char, e: string, r: CharReading)
    requires Small(d, e) && 'A' <= key <= 'D'
    ensures IsBinary(Number(d), key, Number(e), Shown(Evaluated(SumText(Binary(d, key, e)) + "=", r)))
  {
    hide Evaluated, Number, SumText;
    BinaryTexts(d, e);
    SumIsShown(d, e, r);
    ProductIsShown(d, e, r);
    QuotientIsShown(d, e, r);
  }

  /** A session that clears the buffer and keys two operands up to 79 with one of the keys
      A to D between them shows, at the end, their sum, their difference, their product, or how
      often the second goes into the first. */
  method KeyTwoOperands(pad: Pad, d: string, key: char, e: string) returns (screens: seq<Screen>)
    requires pad.Valid() && |pad.Text()| < 20
    requires Small(d, e) && d != "" && e != "" && |d| + |e| <= 18 && 'A' <= key <= 'D'
    modifies pad, pad.c, pad.cNew
    ensures pad.Valid() && |screens| == |d| + |e| + 3
    ensures forall k | 0 <= k < |screens| - 1 :: screens[k] == Nothing
    ensures IsBinary(Number(d), key, Number(e), screens[|screens| - 1])
  {
    hide Evaluated, Keying, Room, Operators, AfterKeys, Number, Binary, SumText, IsBinary, Written, IsSum;
    ghost var s := Binary(d, key, e);
    BinaryIsKeyed(d, key, e);
    BinaryShown(d, key, e, pad.reading);
    KeyingIsQuiet(pad.Text(), s, pad.reading);
    KeyingSoFar(pad.Text(), SumText(s), |SumText(s)|);
    ghost var keys := Keying(SumText(s));
    assert SumText(s)[..|SumText(s)|] == SumText(s) && keys[..|keys| - 1] == keys[..|SumText(s)| + 1];
    screens := pad.Session("*" + d + [key] + e + "#");
  }
}
