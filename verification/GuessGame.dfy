/** The number guess: one process guesses on a timer, the other answers over shared memory. */
module GuessGame {
  /** The guesser's bounds and the guess in shared memory. */
  datatype Search = Search(lower: int, guess: int, upper: int)

  function Start(n: nat): Search {
    Search(1, n / 2, n)
  }

  /** The next tick, once the guess was answered. */
  function Adjust(s: Search, answer: int): Search
    requires s.lower >= 0 && s.guess >= 0 && s.upper >= 0
  {
    if s.guess == answer then s
    else if s.guess < answer then Search(s.guess, (s.guess + s.upper) / 2, s.upper)
    else Search(s.lower, (s.guess + s.lower) / 2, s.guess)
  }

  /** The search `k` answers on. */
  function From(s: Search, answer: int, k: nat): (s': Search)
    requires s.lower >= 0 && s.guess >= 0 && s.upper >= 0
    ensures s'.lower >= 0 && s'.guess >= 0 && s'.upper >= 0
    decreases k
  {
    if k == 0 then s else From(Adjust(s, answer), answer, k - 1)
  }

  lemma {:induction false} FromSnoc(s: Search, answer: int, k: nat)
    requires s.lower >= 0 && s.guess >= 0 && s.upper >= 0
    ensures From(s, answer, k + 1) == Adjust(From(s, answer, k), answer)
    decreases k
  {
    if k > 0 {
      FromSnoc(Adjust(s, answer), answer, k - 1);
    }
  }

  ghost predicate Hits(n: nat, answer: int) {
    exists k: nat :: From(Start(n), answer, k).guess == answer
  }

  /** Bits of `w`: the base-2 logarithm of `w + 1`, rounded up. */
  function Bits(w: nat): nat {
    if w == 0 then 0 else 1 + Bits(w / 2)
  }

  function Power(k: nat): nat {
    if k == 0 then 1 else 2 * Power(k - 1)
  }

  /** `Bits(n - 1)` is the least number of doublings of 1 that reach `n`. */
  lemma {:induction false} BitsIsLogarithm(n: nat, k: nat)
    requires n >= 1
    ensures Power(k) >= n <==> k >= Bits(n - 1)
    decreases k
  {
    if n == 1 {
      PowerPositive(k);
    } else if k > 0 {
      BitsIsLogarithm((n - 1) / 2 + 1, k - 1);
    }
  }

  lemma {:induction false} PowerPositive(k: nat)
    ensures Power(k) >= 1
  {
    if k > 0 {
      PowerPositive(k - 1);
    }
  }

  lemma {:induction false} BitsGrow(v: nat, w: nat)
    requires v <= w
    ensures Bits(v) <= Bits(w)
  {
    if v > 0 {
      BitsGrow(v / 2, w / 2);
    }
  }

  /** The numbers still possible lie between `low` and `s.upper`, and the guess halves them.
      `low` is the lower bound, or 0 while that has not moved from 1. */
  predicate Halves(s: Search, low: nat) {
    && (low == s.lower || (low == 0 && s.lower == 1))
    && low < s.guess < s.upper
    && s.guess - low - 1 <= (s.upper - low - 1) / 2
    && s.upper - s.guess - 1 <= (s.upper - low - 1) / 2
  }

  /** The new `low`. */
  function Raised(s: Search, low: nat, answer: int): int {
    if s.guess < answer then s.guess else low
  }

  /** A wrong guess keeps the answer possible and leaves at most half of the others. */
  lemma MissHalves(s: Search, low: nat, answer: int)
    requires Halves(s, low) && low < answer < s.upper && s.guess != answer
    ensures var s', low' := Adjust(s, answer), Raised(s, low, answer);
            && Halves(s', low') && low' < answer < s'.upper
            && 1 <= s'.upper - low' - 1 <= (s.upper - low - 1) / 2
  {
  }

  lemma {:induction false} HitWithin(s: Search, low: nat, answer: int) returns (k: nat)
    requires Halves(s, low) && low < answer < s.upper
    ensures k < Bits(s.upper - low - 1) && From(s, answer, k).guess == answer
    decreases s.upper - low
  {
    if s.guess == answer {
      k := 0;
    } else {
      MissHalves(s, low, answer);
      var s', low' := Adjust(s, answer), Raised(s, low, answer);
      k := HitWithin(s', low', answer);
      BitsGrow(s'.upper - low' - 1, (s.upper - low - 1) / 2);
      hide Halves, Adjust, Raised;
      k := k + 1;
    }
  }

  /** Missed now and on the next `n - 1` guesses, missed on `n`. */
  lemma StillMissed(s: Search, answer: int, n: int)
    requires s.lower >= 0 && s.guess >= 0 && s.upper >= 0 && s.guess != answer
    requires forall k: nat | k < n - 1 :: From(Adjust(s, answer), answer, k).guess != answer
    ensures forall k: nat | k < n :: From(s, answer, k).guess != answer
  {
    forall k: nat | k < n
      ensures From(s, answer, k).guess != answer
    {
      if k > 0 {
        assert From(s, answer, k) == From(Adjust(s, answer), answer, k - 1);
      }
    }
  }

  /** Some answer takes all the guesses the bound allows. */
  lemma {:induction false} Hardest(s: Search, low: nat) returns (answer: int)
    requires Halves(s, low)
    ensures low < answer < s.upper
    ensures forall k: nat | k < Bits(s.upper - low - 1) - 1 :: From(s, answer, k).guess != answer
    decreases s.upper - low
  {
    var w := s.upper - low - 1;
    if w == 1 {
      answer := s.guess;
    } else {
      var side := if s.upper - s.guess - 1 == w / 2 then s.guess + 1 else s.guess - 1;
      MissHalves(s, low, side);
      answer := Hardest(Adjust(s, side), Raised(s, low, side));
      assert Adjust(s, answer) == Adjust(s, side);
      StillMissed(s, answer, Bits(w) - 1);
    }
  }

  /** Below 1 and from `n` on, the guesses never reach the answer. */
  lemma {:induction false} Beyond(s: Search, answer: int, k: nat)
    requires 1 <= s.lower && 1 <= s.guess && 0 <= s.upper
    requires answer < 1 || s.guess < s.upper <= answer
    ensures From(s, answer, k).guess != answer
    decreases k
  {
    if k > 0 {
      Beyond(Adjust(s, answer), answer, k - 1);
    }
  }

  /** With an upper bound of 0 or 1 every guess is 0. */
  lemma {:induction false} Stuck(s: Search, answer: int, k: nat)
    requires s.guess == 0 && 0 <= s.lower <= 1 && 0 <= s.upper <= 1
    ensures From(s, answer, k).guess == 0
    decreases k
  {
    if k > 0 {
      Stuck(Adjust(s, answer), answer, k - 1);
    }
  }

  /** The answer is found exactly when it lies from 1 to `n - 1`, `n` itself excluded, or is 0
      with `n` below 2. */
  lemma HitExactlyWhen(n: nat, answer: int)
    ensures Hits(n, answer) <==> 1 <= answer <= n - 1 || (n < 2 && answer == 0)
  {
    if n < 2 {
      assert From(Start(n), answer, 0).guess == 0;
      forall k: nat
        ensures From(Start(n), answer, k).guess == 0
      {
        Stuck(Start(n), answer, k);
      }
    } else if 1 <= answer <= n - 1 {
      var k := HitWithin(Start(n), 0, answer);
    } else {
      forall k: nat
        ensures From(Start(n), answer, k).guess != answer
      {
        Beyond(Start(n), answer, k);
      }
    }
  }

  /** From 1 to `n - 1` any answer is found within the base-2 logarithm of `n`, rounded up. */
  lemma FoundWithin(n: nat, answer: int) returns (k: nat)
    requires 1 <= answer <= n - 1
    ensures k < Bits(n - 1) && From(Start(n), answer, k).guess == answer
  {
    k := HitWithin(Start(n), 0, answer);
  }

  /** No smaller bound does: some answer needs that many guesses. */
  lemma BoundIsReached(n: nat) returns (answer: int)
    requires n >= 2
    ensures 1 <= answer <= n - 1
    ensures forall k: nat | k < Bits(n - 1) - 1 :: From(Start(n), answer, k).guess != answer
  {
    answer := Hardest(Start(n), 0);
  }

  /** The search after `count` wrong guesses, with the answer still possible. */
  ghost predicate Searching(s: Search, n: nat, answer: int, low: nat, count: nat) {
    && n >= 1 && Halves(s, low) && low < answer < s.upper
    && count + Bits(s.upper - low - 1) <= Bits(n - 1)
    && s == From(Start(n), answer, count)
  }

  lemma SearchStarts(n: nat, answer: int)
    requires 1 <= answer <= n - 1
    ensures Searching(Start(n), n, answer, 0, 0)
  {
  }

  lemma SearchStep(s: Search, n: nat, answer: int, low: nat, count: nat)
    requires Searching(s, n, answer, low, count)
    ensures s.lower >= 0 && s.guess >= 0 && s.upper >= 0 && s == From(Start(n), answer, count)
    ensures s.guess == answer ==> Adjust(s, answer) == s
    ensures s.guess != answer ==>
              var s', low' := Adjust(s, answer), Raised(s, low, answer);
              low' >= 0 && Searching(s', n, answer, low', count + 1) && 0 <= s'.upper - low' < s.upper - low
  {
    if s.guess != answer {
      MissHalves(s, low, answer);
      BitsGrow(Adjust(s, answer).upper - Raised(s, low, answer) - 1, (s.upper - low - 1) / 2);
      FromSnoc(Start(n), answer, count);
    }
  }

  lemma SearchEnds(s: Search, n: nat, answer: int, low: nat, count: nat)
    requires Searching(s, n, answer, low, count)
    ensures s == From(Start(n), answer, count) && count + 1 <= Bits(n - 1)
  {
  }

  // ---------- The two processes ----------

  const SMALLER := 1
  const BINGO := 2
  const BIGGER := 3
  const NONE := 4

  /** With a bound of 100 the answer 37 is guessed third, after 50 and 25; 99 after 50, 75, 87, 93
      and 96 has still 98 before it. */
  lemma SomeGuesses()
    ensures var s := Start(100);
            && From(s, 37, 0).guess == 50 && From(s, 37, 1).guess == 25 && From(s, 37, 2).guess == 37
            && From(s, 99, 5).guess == 98 && From(s, 99, 6).guess == 99
  {
    var t := Start(100);
    assert From(t, 99, 2) == From(Adjust(Adjust(t, 99), 99), 99, 0) == Search(75, 87, 100);
    FromSnoc(t, 99, 2);
    FromSnoc(t, 99, 3);
    FromSnoc(t, 99, 4);
    FromSnoc(t, 99, 5);
  }

  /** The shared memory and the globals of both processes. */
  class Game {
    var guess: int
    var resu: int
    var lowerBound: int
    var upperBound: int
    const ans: int

    function Value(): Search
      reads this
    {
      Search(lowerBound, guess, upperBound)
    }

    constructor (n: nat, answer: int)
      ensures Value() == Start(n) && resu == NONE && ans == answer
    {
      guess, resu, lowerBound, upperBound, ans := n / 2, NONE, 1, n, answer;
    }

    /** What the answer says about the guess. */
    predicate Told()
      reads this
    {
      resu == if guess == ans then BINGO else if guess > ans then SMALLER else BIGGER
    }

    /** The guesser's tick; it exits on a hit. */
    method TimerHandler() returns (running: bool)
      requires guess >= 0 && lowerBound >= 0 && upperBound >= 0
      modifies this`guess, this`lowerBound, this`upperBound
      ensures resu == NONE ==> running && Value() == old(Value())
      ensures old(Told()) ==> running == (old(guess) != ans) && Value() == Adjust(old(Value()), ans)
    {
      running := true;
      if resu == BINGO {
        running := false;
      } else if resu == BIGGER {
        lowerBound := guess;
        guess := (guess + upperBound) / 2;
      } else if resu == SMALLER {
        upperBound := guess;
        guess := (guess + lowerBound) / 2;
      }
    }

    /** The other process answers the guess. */
    method Handler()
      modifies this`resu
      ensures Told() && resu == if guess == ans then 2 else if guess > ans then 1 else 3
    {
      if guess == ans {
        resu := BINGO;
      } else if guess > ans {
        resu := SMALLER;
      } else if guess < ans {
        resu := BIGGER;
      }
    }

    /** Ticks, each followed by an answer, until the guesser exits: the answer is the first hit. */
    method Play(ghost n: nat) returns (guesses: nat)
      requires Value() == Start(n) && resu == NONE && 1 <= ans <= n - 1
      modifies this
      ensures guess == ans && resu == BINGO
      ensures 1 <= guesses <= Bits(n - 1)
      ensures From(Start(n), ans, guesses - 1).guess == ans
      ensures forall k: nat | k < guesses - 1 :: From(Start(n), ans, k).guess != ans
    {
      ghost var low: nat, wrong: nat := 0, 0;
      SearchStarts(n, ans);
      hide *;
      var running := TimerHandler();
      guesses := 0;
      while running
        invariant Searching(Value(), n, ans, low, wrong)
        invariant guesses == if running then wrong else wrong + 1
        invariant !running ==> guess == ans && resu == BINGO
        invariant forall k: nat | k < wrong :: From(Start(n), ans, k).guess != ans
        decreases running, upperBound - low
      {
        Handler();
        guesses := guesses + 1;
        SearchStep(Value(), n, ans, low, wrong);
        if guess != ans {
          low, wrong := Raised(Value(), low, ans), wrong + 1;
        }
        running := TimerHandler();
      }
      SearchEnds(Value(), n, ans, low, wrong);
    }
  }
}
