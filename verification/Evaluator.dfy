/** The calculator's evaluator over operand and operator codes. */
module Evaluator {
  import opened CalculatorSyntax

  /** Between terms, inside one, or stopped by undefined arithmetic. */
  datatype Progress =
    | Between(total: int, oper: Code)
    | Inside(total: int, oper: Code, second: int, pending: Code)
    | Broken

  predicate Binds(op: Code) {
    op == CodeOf('*') || op == CodeOf('/')
  }

  /** `first.num` after `first.oper` is applied. */
  function Apply(total: int, oper: Code, second: int): Outcome {
    if oper == CodeOf('+') then Checked(total + second)
    else if oper == CodeOf('-') then Checked(total - second)
    else Answer(total)
  }

  /** `second.num` after `second.oper` is applied. */
  function Operate(second: int, oper: Code, third: int): Outcome {
    if oper == CodeOf('*') then Checked(second * third)
    else if third == 0 then Undefined
    else Checked(Quotient(second, third))
  }

  function Take(total: int, oper: Code, second: int, next: Code): Progress {
    if Binds(next) then Inside(total, oper, second, next)
    else if Apply(total, oper, second).Answer? then Between(Apply(total, oper, second).value, next)
    else Broken
  }

  /** One operand and the operator after it. */
  function Step(p: Progress, code: Code, next: Code): Progress {
    var v: int := code as int - 48;
    match p
    case Broken => Broken
    case Between(total, oper) =>
      if oper == CodeOf('=') then p else Take(total, oper, v, next)
    case Inside(total, oper, second, pending) =>
      var x := Operate(second, pending, v);
      if x.Answer? then Take(total, oper, x.value, next) else Broken
  }

  function Run(codes: seq<Code>): Progress
    requires |codes| % 2 == 0
  {
    if codes == [] then Between(0, CodeOf('+'))
    else
      var n := |codes| - 2;
      Step(Run(codes[..n]), codes[n], codes[n + 1])
  }

  function Result(p: Progress): Outcome {
    if p.Between? then Answer(p.total) else Undefined
  }

  predicate Stopped(p: Progress) {
    p.Broken? || (p.Between? && p.oper == CodeOf('='))
  }

  lemma RunSnoc(codes: seq<Code>, code: Code, next: Code)
    requires |codes| % 2 == 0
    ensures Run(codes + [code, next]) == Step(Run(codes), code, next)
  {
  }

  /** Nothing after the first `=` is looked at. */
  lemma {:induction false} RunStops(codes: seq<Code>, more: seq<Code>)
    requires |codes| % 2 == 0 && |more| % 2 == 0 && Stopped(Run(codes))
    ensures Run(codes + more) == Run(codes)
  {
    if more == [] {
      assert codes + more == codes;
    } else {
      var n := |more| - 2;
      RunStops(codes, more[..n]);
      assert codes + more == (codes + more[..n]) + [more[n], more[n + 1]];
      RunSnoc(codes + more[..n], more[n], more[n + 1]);
    }
  }

  lemma RunEmpty(codes: seq<Code>)
    ensures Run(codes[..0]) == Between(0, CodeOf('+'))
  {
  }

  lemma RunPair(codes: seq<Code>, i: nat)
    requires i % 2 == 0 && i + 2 <= |codes|
    ensures Run(codes[..i + 2]) == Step(Run(codes[..i]), codes[i], codes[i + 1])
  {
    assert codes[..i + 2] == codes[..i] + [codes[i], codes[i + 1]];
    RunSnoc(codes[..i], codes[i], codes[i + 1]);
  }

  lemma RunSplit(codes: seq<Code>, i: nat, j: nat)
    requires i % 2 == 0 && j % 2 == 0 && i <= j <= |codes| && Stopped(Run(codes[..i]))
    ensures Run(codes[..j]) == Run(codes[..i])
  {
    assert codes[..j] == codes[..i] + codes[i..j];
    RunStops(codes[..i], codes[i..j]);
  }

  /** Codes up to `i` are read, within those up to an `=` at `end`; `next` is the last. */
  ghost predicate ReadTo(ch: seq<Code>, i: nat, next: Code, end: nat) {
    && 2 <= i <= end + 1 <= |ch| && i % 2 == 0 && end % 2 == 1
    && ch[i - 1] == next && ch[end] == CodeOf('=')
  }

  lemma RunFinal(codes: seq<Code>, i: nat, next: Code, end: nat)
    requires ReadTo(codes, i, next, end) && Stopped(Run(codes[..i]))
    ensures Run(codes[..end + 1]) == Run(codes[..i])
  {
    RunSplit(codes, i, end + 1);
  }

  /** The inner loop: the rest of a product or quotient whose first operand is `operand`. */
  method FinishTerm(ch: array<Code>, ghost codes: seq<Code>, start: nat, operand: int, next: Code,
      ghost total: int, ghost oper: Code, ghost end: nat)
    returns (ok: bool, i: nat, second: int, secondOper: Code)
    requires codes == ch[..] && ReadTo(codes, start, next, end)
    requires Run(codes[..start]) == Take(total, oper, operand, next)
    ensures !ok ==> Run(codes[..end + 1]).Broken?
    ensures ok ==> start <= i && ReadTo(codes, i, secondOper, end) && !Binds(secondOper)
    ensures ok ==> Run(codes[..i]) == Take(total, oper, second, secondOper)
  {
    hide Run, Operate, Apply;
    ok, i, second, secondOper := true, start, operand, next;
    while Binds(secondOper)
      invariant start <= i && ReadTo(codes, i, secondOper, end)
      invariant Run(codes[..i]) == Take(total, oper, second, secondOper)
      decreases end + 1 - i
    {
      RunPair(codes, i);
      var third: int := ch[i] as int - 48;
      i := i + 1;
      var thirdOper := ch[i];
      i := i + 1;
      var result := Operate(second, secondOper, third);
      if result.Undefined? {
        RunFinal(codes, i, thirdOper, end);
        ok := false;
        return;
      }
      second := result.value;
      secondOper := thirdOper;
    }
  }

  /** The first operand of a term. */
  lemma RunStarts(codes: seq<Code>, i: nat, total: int, oper: Code)
    requires i % 2 == 0 && i + 2 <= |codes|
    requires Run(codes[..i]) == Between(total, oper) && oper != CodeOf('=')
    ensures Run(codes[..i + 2]) == Take(total, oper, codes[i] as int - 48, codes[i + 1])
  {
    RunPair(codes, i);
  }

  lemma TakeEnds(total: int, oper: Code, second: int, next: Code)
    requires !Binds(next)
    ensures Take(total, oper, second, next) ==
            var sum := Apply(total, oper, second);
            if sum.Answer? then Between(sum.value, next) else Broken
  {
  }

  /** `end` is the place of an `=` among the operators, without which the loop has no end. */
  method Calculate(ch: array<Code>, ghost end: nat) returns (answer: Outcome)
    requires end < ch.Length && end % 2 == 1 && ch[end] == CodeOf('=')
    ensures answer == Result(Run(ch[..end + 1]))
  {
    ghost var codes := ch[..];
    RunEmpty(codes);
    assert ch[..end + 1] == codes[..end + 1];
    hide Run, Operate, Apply, Step, Take, Binds, CodeOf;
    var i: nat := 0;
    var first: int, firstOper: Code := 0, CodeOf('+');
    while firstOper != CodeOf('=')
      invariant i > 0 ==> ReadTo(codes, i, firstOper, end)
      invariant Run(codes[..i]) == Between(first, firstOper)
      decreases end + 1 - i
    {
      RunStarts(codes, i, first, firstOper);
      var ok, second, secondOper;
      ok, i, second, secondOper := FinishTerm(ch, codes, i + 2, ch[i] as int - 48, ch[i + 1], first, firstOper, end);
      if !ok {
        return Undefined;
      }
      TakeEnds(first, firstOper, second, secondOper);
      var sum := Apply(first, firstOper, second);
      if sum.Undefined? {
        RunFinal(codes, i, secondOper, end);
        return Undefined;
      }
      first, firstOper := sum.value, secondOper;
    }
    RunFinal(codes, i, firstOper, end);
    answer := Answer(first);
  }
}
