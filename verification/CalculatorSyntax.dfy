/** Key text of an expression and what it means. */
module CalculatorSyntax {
  /** How an operand is read: as written, or through a `char`, which is signed or unsigned
      as the compiler has it. */
  datatype Reading = Exact | Signed | Unsigned

  type CharReading = r: Reading | r != Exact witness Signed

  /** A product or quotient, grouped from the left; operands are decimal digits. */
  datatype Term = Operand(digits: string) | Times(left: Term, right: string) | Over(left: Term, right: string)

  /** A sum or difference of terms, grouped from the left. */
  datatype Sum = Single(term: Term) | Plus(left: Sum, term: Term) | Minus(left: Sum, term: Term)

  /** `Undefined` is a division by zero or a result outside the 32-bit `int`. */
  datatype Outcome = Answer(value: int) | Undefined

  predicate IsDigit(ch: char) {
    '0' <= ch <= '9'
  }

  predicate IsOperator(ch: char) {
    ch == '+' || ch == '-' || ch == '*' || ch == '/' || ch == '='
  }

  predicate AreDigits(text: string) {
    forall i | 0 <= i < |text| :: IsDigit(text[i])
  }

  predicate IsTerm(t: Term) {
    match t
    case Operand(d) => AreDigits(d)
    case Times(l, d) => IsTerm(l) && AreDigits(d)
    case Over(l, d) => IsTerm(l) && AreDigits(d)
  }

  predicate IsSum(s: Sum) {
    IsTerm(s.term) && (s.Single? || IsSum(s.left))
  }

  /** The operator before a term's last operand. */
  function Factor(t: Term): (op: char)
    requires !t.Operand?
    ensures IsOperator(op)
  {
    if t.Times? then '*' else '/'
  }

  /** The operator before a sum's last term. */
  function Link(s: Sum): (op: char)
    requires !s.Single?
    ensures IsOperator(op)
  {
    if s.Plus? then '+' else '-'
  }

  function TermText(t: Term): string {
    match t
    case Operand(d) => d
    case Times(l, d) => TermText(l) + "*" + d
    case Over(l, d) => TermText(l) + "/" + d
  }

  function SumText(s: Sum): string {
    match s
    case Single(t) => TermText(t)
    case Plus(l, t) => SumText(l) + "+" + TermText(t)
    case Minus(l, t) => SumText(l) + "-" + TermText(t)
  }

  function Number(digits: string): (n: nat)
    requires AreDigits(digits)
  {
    if digits == [] then 0
    else Number(digits[..|digits| - 1]) * 10 + (digits[|digits| - 1] as int - '0' as int)
  }

  /** A `char`, signed or not. */
  type Code = c: int | -128 <= c < 256

  /** The `char` that holds `n + '0'`. */
  function CharOf(n: int, r: CharReading): Code {
    if r == Signed then (n + 48 + 128) % 256 - 128 else (n + 48) % 256
  }

  function CodeOf(ch: char): Code
    requires IsOperator(ch)
  {
    ch as int
  }

  function Read(digits: string, r: Reading): int
    requires AreDigits(digits)
  {
    if r == Exact then Number(digits) else CharOf(Number(digits), r) - 48
  }

  predicate IsInt(v: int) {
    -0x8000_0000 <= v < 0x8000_0000
  }

  function Checked(v: int): Outcome {
    if IsInt(v) then Answer(v) else Undefined
  }

  function Magnitude(a: int): nat {
    if a < 0 then -a else a
  }

  /** C's `/`. */
  function Quotient(a: int, b: int): int
    requires b != 0
  {
    var q := Magnitude(a) / Magnitude(b);
    if (a < 0) == (b < 0) then q else -q
  }

  function TermValue(t: Term, r: Reading): Outcome
    requires IsTerm(t)
  {
    match t
    case Operand(d) => Checked(Read(d, r))
    case Times(l, d) =>
      var x := TermValue(l, r);
      if x.Answer? then Checked(x.value * Read(d, r)) else Undefined
    case Over(l, d) =>
      var x := TermValue(l, r);
      if x.Answer? && Read(d, r) != 0 then Checked(Quotient(x.value, Read(d, r))) else Undefined
  }

  function SumValue(s: Sum, r: Reading): Outcome
    requires IsSum(s)
  {
    var y := TermValue(s.term, r);
    if y.Undefined? || s.Single? then y
    else
      var x := SumValue(s.left, r);
      if x.Undefined? then Undefined
      else if s.Plus? then Checked(x.value + y.value) else Checked(x.value - y.value)
  }

  predicate TermWithin(t: Term, most: nat)
    requires IsTerm(t)
  {
    match t
    case Operand(d) => Number(d) <= most
    case Times(l, d) => TermWithin(l, most) && Number(d) <= most
    case Over(l, d) => TermWithin(l, most) && Number(d) <= most
  }

  /** Every operand is at most `most`. */
  predicate Within(s: Sum, most: nat)
    requires IsSum(s)
  {
    TermWithin(s.term, most) && (s.Single? || Within(s.left, most))
  }

  /** The largest operand a `char` holds with '0' added. */
  function Largest(r: CharReading): nat {
    if r == Signed then 79 else 207
  }

  /** An operand survives its trip through a `char` exactly up to this limit. */
  lemma ReadExactly(digits: string, r: CharReading)
    requires AreDigits(digits)
    ensures Read(digits, r) == Number(digits) <==> Number(digits) <= Largest(r)
  {
  }

  lemma {:induction false} TermReadExactly(t: Term, r: CharReading)
    requires IsTerm(t) && TermWithin(t, Largest(r))
    ensures TermValue(t, r) == TermValue(t, Exact)
  {
    match t
    case Operand(d) => ReadExactly(d, r);
    case Times(l, d) => ReadExactly(d, r); TermReadExactly(l, r);
    case Over(l, d) => ReadExactly(d, r); TermReadExactly(l, r);
  }

  /** An expression whose operands all survive keeps its meaning. */
  lemma {:induction false} SumReadExactly(s: Sum, r: CharReading)
    requires IsSum(s) && Within(s, Largest(r))
    ensures SumValue(s, r) == SumValue(s, Exact)
  {
    TermReadExactly(s.term, r);
    if !s.Single? {
      SumReadExactly(s.left, r);
    }
  }

  /** The quotient truncates: the remainder is smaller than the divisor and has the dividend's sign. */
  lemma QuotientTruncates(a: int, b: int)
    requires b != 0
    ensures var rest := a - b * Quotient(a, b);
            Magnitude(rest) < Magnitude(b) && (rest == 0 || (rest < 0) == (a < 0))
  {
  }

  /** A `char` holds the number's low eight bits. */
  lemma CharWraps(n: nat, r: CharReading)
    ensures (CharOf(n, r) - (n + 48)) % 256 == 0
    ensures if r == Signed then -128 <= CharOf(n, r) <= 127 else 0 <= CharOf(n, r) <= 255
  {
  }
}
