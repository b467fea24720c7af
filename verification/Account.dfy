/** The account server: threads that load and store a shared balance under a semaphore. */
module Account {
  /** A line from a client. */
  datatype Line = Deposit(amount: int) | Withdraw(amount: int) | Other

  /** Where a thread stands with its first unread line. */
  datatype Place = Outside | Entered | Loaded(value: int) | Stored

  datatype Thread = Thread(lines: seq<Line>, place: Place)

  datatype State = State(semaphore: int, account: int, threads: seq<Thread>)

  /** A connection, or a step of one thread. `P` and `V` may fail; the thread goes on regardless. */
  datatype Event =
    | Connect(lines: seq<Line>)
    | Skip(t: nat)
    | Enter(t: nat, fails: bool)
    | Load(t: nat)
    | Store(t: nat)
    | Leave(t: nat, fails: bool)

  const START := State(1, 0, [])

  function Change(line: Line): int {
    match line
    case Deposit(n) => n
    case Withdraw(n) => -n
    case Other => 0
  }

  /** What a thread may do next; `P` waits while the semaphore is 0. */
  predicate CanAct(semaphore: int, thread: Thread, e: Event) {
    match e
    case Connect(_) => false
    case Skip(_) => thread.place.Outside? && thread.lines != [] && thread.lines[0].Other?
    case Enter(_, fails) =>
      && thread.place.Outside? && thread.lines != [] && !thread.lines[0].Other?
      && (fails || semaphore > 0)
    case Load(_) => thread.place.Entered?
    case Store(_) => thread.place.Loaded? && thread.lines != []
    case Leave(_, _) => thread.place.Stored? && thread.lines != []
  }

  predicate Enabled(s: State, e: Event) {
    e.Connect? || (e.t < |s.threads| && CanAct(s.semaphore, s.threads[e.t], e))
  }

  /** The acting thread after its step. */
  function Moved(thread: Thread, account: int, e: Event): Thread
    requires e.Skip? || e.Leave? ==> thread.lines != []
  {
    match e
    case Connect(_) => thread
    case Skip(_) => thread.(lines := thread.lines[1..])
    case Enter(_, _) => thread.(place := Entered)
    case Load(_) => thread.(place := Loaded(account))
    case Store(_) => thread.(place := Stored)
    case Leave(_, _) => Thread(thread.lines[1..], Outside)
  }

  function Next(s: State, e: Event): State
    requires Enabled(s, e)
  {
    if e.Connect? then s.(threads := s.threads + [Thread(e.lines, Outside)])
    else
      var thread := s.threads[e.t];
      State(
        s.semaphore + (if e.Enter? && !e.fails then -1 else if e.Leave? && !e.fails then 1 else 0),
        if e.Store? then thread.place.value + Change(thread.lines[0]) else s.account,
        s.threads[e.t := Moved(thread, s.account, e)])
  }

  ghost predicate IsRun(run: seq<Event>)
    decreases |run|, 0
  {
    run == [] || (IsRun(run[..|run| - 1]) && Enabled(After(run[..|run| - 1]), run[|run| - 1]))
  }

  /** The state after a run from the start. */
  ghost function After(run: seq<Event>): State
    requires IsRun(run)
    decreases |run|, 1
  {
    if run == [] then START else Next(After(run[..|run| - 1]), run[|run| - 1])
  }

  class Server {
    var semaphore: int
    var account: int
    var threads: seq<Thread>

    function Value(): State
      reads this
    {
      State(semaphore, account, threads)
    }

    constructor ()
      ensures Value() == START
    {
      semaphore, account, threads := 1, 0, [];
    }

    method P(fails: bool) returns (status: int)
      requires fails || semaphore > 0
      modifies this`semaphore
      ensures status == if fails then -1 else 0
      ensures semaphore == old(semaphore) - if fails then 0 else 1
    {
      if fails {
        return -1;
      }
      semaphore := semaphore - 1;
      status := 0;
    }

    method V(fails: bool) returns (status: int)
      modifies this`semaphore
      ensures status == if fails then -1 else 0
      ensures semaphore == old(semaphore) + if fails then 0 else 1
    {
      if fails {
        return -1;
      }
      semaphore := semaphore + 1;
      status := 0;
    }

    /** One step of a thread's loop, or of the accept loop. */
    method Act(e: Event)
      requires Enabled(Value(), e)
      modifies this
      ensures Value() == Next(old(Value()), e)
    {
      match e {
        case Connect(lines) =>
          threads := threads + [Thread(lines, Outside)];
        case Skip(t) =>
          threads := threads[t := Thread(threads[t].lines[1..], Outside)];
        case Enter(t, fails) =>
          var status := P(fails);
          threads := threads[t := threads[t].(place := Entered)];
        case Load(t) =>
          threads := threads[t := threads[t].(place := Loaded(account))];
        case Store(t) =>
          var line := threads[t].lines[0];
          account := match line
            case Deposit(amount) => threads[t].place.value + amount
            case Withdraw(amount) => threads[t].place.value - amount
            case Other => threads[t].place.value;
          threads := threads[t := threads[t].(place := Stored)];
        case Leave(t, fails) =>
          var status := V(fails);
          threads := threads[t := Thread(threads[t].lines[1..], Outside)];
      }
    }

    /** The server under a schedule. */
    method Execute(run: seq<Event>)
      requires Value() == START && IsRun(run)
      modifies this
      ensures Value() == After(run)
    {
      var k := 0;
      PrefixIsRun(run, 0);
      while k < |run|
        invariant 0 <= k <= |run| && IsRun(run[..k]) && Value() == After(run[..k])
      {
        PrefixIsRun(run, k + 1);
        assert run[..k + 1][..k] == run[..k];
        Act(run[k]);
        k := k + 1;
      }
      assert run[..k] == run;
    }
  }

  lemma {:induction false} PrefixIsRun(run: seq<Event>, k: nat)
    requires IsRun(run) && k <= |run|
    ensures IsRun(run[..k])
  {
    if k < |run| {
      PrefixIsRun(run[..|run| - 1], k);
      assert run[..|run| - 1][..k] == run[..k];
    } else {
      assert run[..k] == run;
    }
  }

  // ---------- The semaphore ----------

  function InsideOf(thread: Thread): nat {
    if thread.place.Outside? then 0 else 1
  }

  /** Threads between `P` and `V`. */
  function Inside(threads: seq<Thread>): nat {
    if threads == [] then 0 else Inside(threads[..|threads| - 1]) + InsideOf(threads[|threads| - 1])
  }

  lemma {:induction false} InsideUpdate(threads: seq<Thread>, t: nat, thread: Thread)
    requires t < |threads|
    ensures Inside(threads[t := thread]) == Inside(threads) - InsideOf(threads[t]) + InsideOf(thread)
  {
    var n := |threads| - 1;
    if t < n {
      InsideUpdate(threads[..n], t, thread);
      assert threads[t := thread][..n] == threads[..n][t := thread];
    } else {
      assert threads[t := thread][..n] == threads[..n];
    }
  }

  /** Two threads inside count for two. */
  lemma {:induction false} InsideCounts(threads: seq<Thread>, t: nat)
    requires t < |threads|
    ensures Inside(threads) >= InsideOf(threads[t])
    ensures forall u | 0 <= u < |threads| && u != t :: Inside(threads) >= InsideOf(threads[t]) + InsideOf(threads[u])
  {
    var n := |threads| - 1;
    if t < n {
      InsideCounts(threads[..n], t);
    } else {
      forall u | 0 <= u < n
        ensures Inside(threads[..n]) >= InsideOf(threads[u])
      {
        InsideCounts(threads[..n], u);
      }
    }
  }

  ghost function FailedEnters(run: seq<Event>): nat {
    if run == [] then 0
    else
      var e := run[|run| - 1];
      FailedEnters(run[..|run| - 1]) + if e.Enter? && e.fails then 1 else 0
  }

  ghost function FailedLeaves(run: seq<Event>): nat {
    if run == [] then 0
    else
      var e := run[|run| - 1];
      FailedLeaves(run[..|run| - 1]) + if e.Leave? && e.fails then 1 else 0
  }

  /** Over every run, the semaphore and the threads inside account for the one unit it began
      with, each failed `P` adding one and each failed `V` losing one. */
  lemma {:induction false} SemaphoreInvariant(run: seq<Event>)
    requires IsRun(run)
    ensures After(run).semaphore + Inside(After(run).threads) == 1 + FailedEnters(run) - FailedLeaves(run)
    ensures After(run).semaphore >= 0
  {
    if run != [] {
      var n := |run| - 1;
      SemaphoreInvariant(run[..n]);
      var s, e := After(run[..n]), run[n];
      if e.Connect? {
        assert (s.threads + [Thread(e.lines, Outside)])[..|s.threads|] == s.threads;
      } else {
        InsideUpdate(s.threads, e.t, Moved(s.threads[e.t], s.account, e));
      }
    }
  }

  /** While no `P` fails, no two threads are inside. */
  lemma MutualExclusion(run: seq<Event>, t: nat, u: nat)
    requires IsRun(run) && FailedEnters(run) == 0
    requires t < |After(run).threads| && u < |After(run).threads| && t != u
    ensures After(run).threads[t].place.Outside? || After(run).threads[u].place.Outside?
  {
    SemaphoreInvariant(run);
    InsideCounts(After(run).threads, t);
  }

  // ---------- The balance ----------

  function Sum(lines: seq<Line>): int {
    if lines == [] then 0 else Change(lines[0]) + Sum(lines[1..])
  }

  /** What a thread has still to store. */
  function Owed(thread: Thread): int {
    Sum(if thread.place.Stored? && thread.lines != [] then thread.lines[1..] else thread.lines)
  }

  function AllOwed(threads: seq<Thread>): int {
    if threads == [] then 0 else AllOwed(threads[..|threads| - 1]) + Owed(threads[|threads| - 1])
  }

  lemma {:induction false} OwedUpdate(threads: seq<Thread>, t: nat, thread: Thread)
    requires t < |threads|
    ensures AllOwed(threads[t := thread]) == AllOwed(threads) - Owed(threads[t]) + Owed(thread)
  {
    var n := |threads| - 1;
    if t < n {
      OwedUpdate(threads[..n], t, thread);
      assert threads[t := thread][..n] == threads[..n][t := thread];
    } else {
      assert threads[t := thread][..n] == threads[..n];
    }
  }

  /** Deposits less withdrawals over all lines received. */
  ghost function Received(run: seq<Event>): int {
    if run == [] then 0
    else
      var e := run[|run| - 1];
      Received(run[..|run| - 1]) + if e.Connect? then Sum(e.lines) else 0
  }

  /** A value a thread has loaded is still the balance. */
  ghost predicate Current(s: State) {
    forall t | 0 <= t < |s.threads| :: s.threads[t].place.Loaded? ==> s.threads[t].place.value == s.account
  }

  /** A step's effect on the balance and what is owed. */
  lemma OwedStep(s: State, e: Event)
    requires Enabled(s, e) && Current(s)
    ensures Next(s, e).account + AllOwed(Next(s, e).threads) ==
            s.account + AllOwed(s.threads) + if e.Connect? then Sum(e.lines) else 0
  {
    if e.Connect? {
      assert (s.threads + [Thread(e.lines, Outside)])[..|s.threads|] == s.threads;
    } else {
      OwedUpdate(s.threads, e.t, Moved(s.threads[e.t], s.account, e));
    }
  }

  lemma CurrentStep(run: seq<Event>, e: Event)
    requires IsRun(run) && Enabled(After(run), e) && FailedEnters(run) == 0 && Current(After(run))
    ensures Current(Next(After(run), e))
  {
    var s := After(run);
    var s' := Next(s, e);
    forall t | 0 <= t < |s'.threads| && s'.threads[t].place.Loaded?
      ensures s'.threads[t].place.value == s'.account
    {
      if e.Store? && e.t != t {
        MutualExclusion(run, t, e.t);
      }
    }
  }

  /** While no `P` fails, the balance and what the threads have still to store are what was received. */
  lemma {:induction false} BalanceInvariant(run: seq<Event>)
    requires IsRun(run) && FailedEnters(run) == 0
    ensures After(run).account + AllOwed(After(run).threads) == Received(run)
    ensures Current(After(run))
  {
    if run != [] {
      var n := |run| - 1;
      BalanceInvariant(run[..n]);
      OwedStep(After(run[..n]), run[n]);
      CurrentStep(run[..n], run[n]);
    }
  }

  ghost predicate Consumed(s: State) {
    forall t | 0 <= t < |s.threads| :: s.threads[t].lines == []
  }

  lemma {:induction false} NothingOwed(threads: seq<Thread>)
    requires forall t | 0 <= t < |threads| :: threads[t].lines == []
    ensures AllOwed(threads) == 0
  {
    if threads != [] {
      NothingOwed(threads[..|threads| - 1]);
    }
  }

  /** Once every line is consumed the balance is the deposits less the withdrawals, for any
      number of threads and any interleaving in which no `P` fails. */
  lemma FinalBalance(run: seq<Event>)
    requires IsRun(run) && FailedEnters(run) == 0 && Consumed(After(run))
    ensures After(run).account == Received(run)
  {
    BalanceInvariant(run);
    NothingOwed(After(run).threads);
  }

  /** What the clients pay in, and what they take out. */
  function PaidIn(lines: seq<Line>): int {
    if lines == [] then 0 else (match lines[0] case Deposit(n) => n case _ => 0) + PaidIn(lines[1..])
  }

  function TakenOut(lines: seq<Line>): int {
    if lines == [] then 0 else (match lines[0] case Withdraw(n) => n case _ => 0) + TakenOut(lines[1..])
  }

  ghost function AllPaidIn(run: seq<Event>): int {
    if run == [] then 0
    else AllPaidIn(run[..|run| - 1]) + match run[|run| - 1] case Connect(lines) => PaidIn(lines) case _ => 0
  }

  ghost function AllTakenOut(run: seq<Event>): int {
    if run == [] then 0
    else AllTakenOut(run[..|run| - 1]) + match run[|run| - 1] case Connect(lines) => TakenOut(lines) case _ => 0
  }

  lemma {:induction false} SumInTotals(lines: seq<Line>)
    ensures Sum(lines) == PaidIn(lines) - TakenOut(lines)
  {
    if lines != [] {
      SumInTotals(lines[1..]);
    }
  }

  lemma {:induction false} ReceivedInTotals(run: seq<Event>)
    ensures Received(run) == AllPaidIn(run) - AllTakenOut(run)
  {
    if run != [] {
      ReceivedInTotals(run[..|run| - 1]);
      if run[|run| - 1].Connect? {
        SumInTotals(run[|run| - 1].lines);
      }
    }
  }

  /** Once every line is consumed and no `P` has failed, the balance is all that was paid in less
      all that was taken out. */
  lemma FinalBalanceInTotals(run: seq<Event>)
    requires IsRun(run) && FailedEnters(run) == 0 && Consumed(After(run))
    ensures After(run).account == AllPaidIn(run) - AllTakenOut(run)
  {
    FinalBalance(run);
    ReceivedInTotals(run);
  }

  /** A thread inside has its line. */
  lemma {:induction false} InsideHasLine(run: seq<Event>, t: nat)
    requires IsRun(run) && t < |After(run).threads| && !After(run).threads[t].place.Outside?
    ensures After(run).threads[t].lines != [] && !After(run).threads[t].lines[0].Other?
  {
    var n := |run| - 1;
    var e := run[n];
    if t < |After(run[..n]).threads| && !After(run[..n]).threads[t].place.Outside? {
      InsideHasLine(run[..n], t);
    }
  }

  lemma {:induction false} SomeInside(threads: seq<Thread>) returns (t: nat)
    requires Inside(threads) > 0
    ensures t < |threads| && !threads[t].place.Outside?
  {
    var n := |threads| - 1;
    if threads[n].place.Outside? {
      t := SomeInside(threads[..n]);
    } else {
      t := n;
    }
  }

  /** A step of a thread that does not fail. */
  ghost predicate GoesOn(s: State, e: Event) {
    Enabled(s, e) && !e.Connect? && !(e.Enter? && e.fails) && !(e.Leave? && e.fails)
  }

  /** Unless more calls of `V` than of `P` failed, some step that does not fail is possible until
      every line is consumed. */
  lemma NoDeadlock(run: seq<Event>) returns (e: Event)
    requires IsRun(run) && FailedLeaves(run) <= FailedEnters(run) && !Consumed(After(run))
    ensures GoesOn(After(run), e)
  {
    SemaphoreInvariant(run);
    var s := After(run);
    var t: nat :| t < |s.threads| && s.threads[t].lines != [];
    if s.semaphore == 0 {
      t := SomeInside(s.threads);
      InsideHasLine(run, t);
    }
    match s.threads[t].place
    case Outside => e := if s.threads[t].lines[0].Other? then Skip(t) else Enter(t, false);
    case Entered => e := Load(t);
    case Loaded(_) => e := Store(t);
    case Stored => e := Leave(t, false);
  }

  lemma {:induction false} NoneInside(threads: seq<Thread>, t: nat)
    requires Inside(threads) == 0 && t < |threads|
    ensures threads[t].place.Outside?
  {
    var n := |threads| - 1;
    if t < n {
      NoneInside(threads[..n], t);
    }
  }

  /** A thread outside whose next line asks for nothing. */
  ghost predicate Idles(s: State) {
    exists t | 0 <= t < |s.threads| :: s.threads[t].place.Outside? && s.threads[t].lines != [] && s.threads[t].lines[0].Other?
  }

  /** With nobody inside and no unit left, only a line that asks for nothing can be taken. */
  lemma OnlyIdling(s: State)
    requires s.semaphore <= 0 && Inside(s.threads) == 0
    ensures (exists e :: GoesOn(s, e)) <==> Idles(s)
  {
    hide Inside;
    forall t: nat | t < |s.threads|
      ensures s.threads[t].place.Outside?
    {
      NoneInside(s.threads, t);
    }
    if Idles(s) {
      var t :| 0 <= t < |s.threads| && s.threads[t].place.Outside? && s.threads[t].lines != [] && s.threads[t].lines[0].Other?;
      assert GoesOn(s, Skip(t));
    }
  }

  /** While lines are left, some step that does not fail is possible exactly when no more calls
      of `V` than of `P` failed, or a line that asks for nothing is next; otherwise the
      semaphore is 0 with nobody inside. */
  lemma NoDeadlockExactlyWhen(run: seq<Event>)
    requires IsRun(run) && !Consumed(After(run))
    ensures (exists e :: GoesOn(After(run), e)) <==> FailedLeaves(run) <= FailedEnters(run) || Idles(After(run))
    ensures FailedLeaves(run) > FailedEnters(run) ==>
              After(run).semaphore == 0 && Inside(After(run).threads) == 0 && FailedLeaves(run) == FailedEnters(run) + 1
  {
    hide *;
    SemaphoreInvariant(run);
    if FailedLeaves(run) <= FailedEnters(run) {
      var e := NoDeadlock(run);
    } else {
      OnlyIdling(After(run));
    }
  }

  ghost predicate Reaches(run: seq<Event>, s: State, failed: nat, received: int) {
    IsRun(run) && After(run) == s && FailedEnters(run) == failed && FailedLeaves(run) == 0 && Received(run) == received
  }

  lemma Extend(run: seq<Event>, s: State, failed: nat, received: int, e: Event) returns (run': seq<Event>)
    requires Reaches(run, s, failed, received) && Enabled(s, e) && !(e.Leave? && e.fails)
    ensures Reaches(run', Next(s, e), failed + (if e.Enter? && e.fails then 1 else 0),
                    received + if e.Connect? then Sum(e.lines) else 0)
  {
    run' := run + [e];
    assert run'[..|run|] == run;
  }

  lemma ReachesStart()
    ensures Reaches([], START, 0, 0)
  {
  }

  /** Two threads with a deposit of 1 each, one inside with a balance of 0 loaded. */
  lemma OneLoaded() returns (run: seq<Event>)
    ensures var one := [Deposit(1)];
            Reaches(run, State(0, 0, [Thread(one, Loaded(0)), Thread(one, Outside)]), 0, 2)
  {
    hide Reaches, Inside, IsRun, After;
    var one := [Deposit(1)];
    run := [];
    ReachesStart();
    run := Extend(run, START, 0, 0, Connect(one));
    run := Extend(run, State(1, 0, [Thread(one, Outside)]), 0, 1, Connect(one));
    run := Extend(run, State(1, 0, [Thread(one, Outside), Thread(one, Outside)]), 0, 2, Enter(0, false));
    var s := State(0, 0, [Thread(one, Entered), Thread(one, Outside)]);
    run := Extend(run, s, 0, 2, Load(0));
    assert Next(s, Load(0)).threads == [Thread(one, Loaded(0)), Thread(one, Outside)];
  }

  /** The other is let inside by a failed `P`. */
  lemma BothLoaded() returns (run: seq<Event>)
    ensures var one := [Deposit(1)];
            Reaches(run, State(0, 0, [Thread(one, Loaded(0)), Thread(one, Loaded(0))]), 1, 2)
  {
    var one := [Deposit(1)];
    run := OneLoaded();
    hide Reaches;
    run := Extend(run, State(0, 0, [Thread(one, Loaded(0)), Thread(one, Outside)]), 0, 2, Enter(1, true));
    var s := State(0, 0, [Thread(one, Loaded(0)), Thread(one, Entered)]);
    run := Extend(run, s, 1, 2, Load(1));
    assert Next(s, Load(1)).threads == [Thread(one, Loaded(0)), Thread(one, Loaded(0))];
  }

  /** Both store 1. */
  lemma BothStored() returns (run: seq<Event>)
    ensures var one := [Deposit(1)];
            Reaches(run, State(0, 1, [Thread(one, Stored), Thread(one, Stored)]), 1, 2)
  {
    var one := [Deposit(1)];
    run := BothLoaded();
    hide Reaches;
    run := Extend(run, State(0, 0, [Thread(one, Loaded(0)), Thread(one, Loaded(0))]), 1, 2, Store(0));
    var s := State(0, 1, [Thread(one, Stored), Thread(one, Loaded(0))]);
    run := Extend(run, s, 1, 2, Store(1));
    assert Next(s, Store(1)).threads == [Thread(one, Stored), Thread(one, Stored)];
  }

  /** Two deposits of 1 with one failed `P`: a balance of 1, and two units in the semaphore. */
  lemma LostUpdate() returns (run: seq<Event>)
    ensures IsRun(run) && FailedEnters(run) == 1 && FailedLeaves(run) == 0 && Consumed(After(run))
    ensures Received(run) == 2 && After(run).account == 1 && After(run).semaphore == 2
  {
    var one := [Deposit(1)];
    run := BothStored();
    assert one[1..] == [];
    hide IsRun, After, FailedEnters, FailedLeaves, Received, Sum;
    var s := State(0, 1, [Thread(one, Stored), Thread(one, Stored)]);
    run := Extend(run, s, 1, 2, Leave(0, false));
    assert Next(s, Leave(0, false)).threads == [Thread([], Outside), Thread(one, Stored)];
    run := Extend(run, State(1, 1, [Thread([], Outside), Thread(one, Stored)]), 1, 2, Leave(1, false));
    assert After(run) == State(2, 1, [Thread([], Outside), Thread([], Outside)]);
  }

  /** A new thread deposits nothing, let inside by a failed `P`. */
  lemma FailOnceMore(run: seq<Event>, s: State, failed: nat, received: int) returns (run': seq<Event>, s': State)
    requires Reaches(run, s, failed, received) && Consumed(s)
    ensures Reaches(run', s', failed + 1, received) && Consumed(s') && s'.account == s.account
  {
    var t, none := |s.threads|, [Deposit(0)];
    assert Sum(none) == 0 && none[1..] == [];
    hide Reaches, Sum;
    run' := Extend(run, s, failed, received, Connect(none));
    s' := Next(s, Connect(none));
    run' := Extend(run', s', failed, received, Enter(t, true));
    s' := Next(s', Enter(t, true));
    run' := Extend(run', s', failed + 1, received, Load(t));
    s' := Next(s', Load(t));
    run' := Extend(run', s', failed + 1, received, Store(t));
    s' := Next(s', Store(t));
    run' := Extend(run', s', failed + 1, received, Leave(t, false));
    s' := Next(s', Leave(t, false));
  }

  /** For every number of failures there is a run that loses a deposit. */
  lemma {:induction false} LostWithFailures(failed: nat) returns (run: seq<Event>, s: State)
    requires failed >= 1
    ensures Reaches(run, s, failed, 2) && Consumed(s) && s.account == 1
  {
    if failed == 1 {
      run := LostUpdate();
      s := After(run);
    } else {
      run, s := LostWithFailures(failed - 1);
      run, s := FailOnceMore(run, s, failed - 1, 2);
    }
  }

  /** All runs in which `P` fails so many times end with the right balance exactly when
      that number is 0. */
  lemma BalanceExactlyWhen(failed: nat)
    ensures (forall run | IsRun(run) && FailedEnters(run) == failed && Consumed(After(run)) ::
               After(run).account == Received(run))
            <==> failed == 0
  {
    if failed == 0 {
      forall run | IsRun(run) && FailedEnters(run) == failed && Consumed(After(run))
        ensures After(run).account == Received(run)
      {
        FinalBalance(run);
      }
    } else {
      var run, s := LostWithFailures(failed);
      assert After(run) == s && After(run).account != Received(run);
    }
  }
}
