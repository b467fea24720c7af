/** The whole boot of one image, from whatever flags it finds to the handoff: when it hands
    over, and what it has then done. */
module BootSystem {
  import opened BootHeaders
  import opened BootPlan
  import opened BootMemory
  import opened BootWalk
  import opened BootSafety

  // ---------------------------------------------------------------------------------
  // What has been done
  // ---------------------------------------------------------------------------------

  ghost predicate AllWhole(cfg: Config, taken: seq<Taken>) {
    forall i | 0 <= i < |taken| :: Whole(cfg, taken[i].header)
  }

  /** Memory and fabric after the operations for the partitions taken, `m` before and `began`
      once the headers were read: the fabric has received the bitstreams, each byte of memory
      is the last partition's that reached it, and the applications left alone are in place. */
  ghost predicate SystemLoaded(cfg: Config, taken: seq<Taken>, m: Machine, began: Machine, after: Machine) {
    && after.fabric == m.fabric + Bitstreams(taken)
    && (forall a: nat :: after.ddr(a) == Memory(cfg, taken, began.ddr, a))
    && forall i | 0 <= i < |taken| && taken[i].kind.Ps? ::
         Delivered(after.ddr, taken[i].p, taken[i].header) <==> LeftAlone(cfg, taken, i)
  }

  /** What a boot that hands over to `exec` has done: it got past every header before `stop`,
      which is a terminator or a stop; signed partitions only with RSA support; memory and
      fabric hold what was taken; and `exec` is the address of the walk. */
  ghost predicate Booted(cfg: Config, headers: seq<Header>, kind0: Kind, m: Machine, ops: seq<Op>, stop: nat, exec: nat) {
    && stop < |headers| && Passes(cfg, headers, kind0, stop)
    && (IsTerminator(headers[stop]) || VerdictAt(cfg, headers, kind0, stop).Stop?)
    && var w := WalkTo(cfg, headers, kind0, stop);
       && Supported(cfg, w.taken)
       && exec == ExecOf(w)
       && (AllWhole(cfg, w.taken) ==>
             SystemLoaded(cfg, w.taken, m, Effects(m, headers, Prelude(cfg)), Effects(m, headers, ops)))
  }

  lemma TakenAreReadable(cfg: Config, headers: seq<Header>, kind0: Kind, p: nat)
    requires p <= |headers| && AllWhole(cfg, WalkTo(cfg, headers, kind0, p).taken)
    ensures Readable(cfg, headers, WalkTo(cfg, headers, kind0, p).taken)
  {
    hide WalkTo, Whole;
    var taken := WalkTo(cfg, headers, kind0, p).taken;
    forall i | 0 <= i < |taken|
      ensures taken[i].p < |headers| && taken[i].header == headers[taken[i].p]
    {
      TakenMayLoad(cfg, headers, kind0, p, i);
    }
    forall i, j | 0 <= i < j < |taken|
      ensures taken[i].p < taken[j].p
    {
      TakenInOrder(cfg, headers, kind0, p, i, j);
    }
  }

  /** Reading the headers writes memory, and leaves the fabric alone. */
  lemma PreludeKeepsFabric(cfg: Config, headers: seq<Header>, m: Machine)
    ensures Effects(m, headers, Prelude(cfg)).fabric == m.fabric
  {
    hide Put;
    if cfg.headerAuth {
      assert Prelude(cfg) == [ReadHeader(cfg.ddrStart)] + [AuthHeader];
      EffectsConcat(m, headers, [ReadHeader(cfg.ddrStart)], [AuthHeader]);
      EffectsOne(m, headers, ReadHeader(cfg.ddrStart));
      EffectsOne(Effects(m, headers, [ReadHeader(cfg.ddrStart)]), headers, AuthHeader);
    }
  }

  lemma OpsLoadSystem(cfg: Config, headers: seq<Header>, taken: seq<Taken>, m: Machine)
    requires Readable(cfg, headers, taken)
    ensures var began := Effects(m, headers, Prelude(cfg));
            SystemLoaded(cfg, taken, m, began, Effects(m, headers, Prelude(cfg) + Ops(cfg, taken)))
  {
    hide Effects, Ops, Prelude, Readable, LeftAlone, Delivered, Memory, Bitstreams;
    var began := Effects(m, headers, Prelude(cfg));
    EffectsConcat(m, headers, Prelude(cfg), Ops(cfg, taken));
    PreludeKeepsFabric(cfg, headers, m);
    OpsLoad(cfg, headers, taken, began, 0);
    forall a: nat
      ensures Effects(began, headers, Ops(cfg, taken)).ddr(a) == Memory(cfg, taken, began.ddr, a)
    {
      OpsLoad(cfg, headers, taken, began, a);
    }
    forall i | 0 <= i < |taken| && taken[i].kind.Ps?
      ensures Delivered(Effects(began, headers, Ops(cfg, taken)).ddr, taken[i].p, taken[i].header) <==> LeftAlone(cfg, taken, i)
    {
      ApplicationInPlaceExactlyWhen(cfg, headers, taken, began, i);
    }
  }

  // ---------------------------------------------------------------------------------
  // When it hands over
  // ---------------------------------------------------------------------------------

  /** A boot that finds the flags at `kind0` and `start` operations behind it can hand over at
      header `stop`: the table has a fitting number of partitions, authentication has the support
      it needs, the walk gets past every header before `stop` and ends there, and no operation
      fails. */
  ghost predicate HandsOver(cfg: Config, fails: nat -> bool, headers: seq<Header>, kind0: Kind, start: nat, count: nat, stop: nat) {
    && Counts(headers, count) && CountFits(cfg, count) && (cfg.headerAuth ==> cfg.rsa)
    && First(cfg) <= stop <= count && Passes(cfg, headers, kind0, stop)
    && (stop == count || VerdictAt(cfg, headers, kind0, stop).Stop?)
    && var taken := WalkTo(cfg, headers, kind0, stop).taken;
       && Supported(cfg, taken)
       && forall k | start <= k < start + |Prelude(cfg) + Ops(cfg, taken)| :: !fails(k)
  }

  /** The boot can hand over. */
  ghost predicate Boots(cfg: Config, fails: nat -> bool, headers: seq<Header>, kind0: Kind, start: nat) {
    exists count, stop :: HandsOver(cfg, fails, headers, kind0, start, count, stop)
  }

  /** What is taken at a header is done by the time a later one is reached. */
  lemma {:induction false} TakenStays(cfg: Config, headers: seq<Header>, kind0: Kind, q: nat, p: nat)
    requires First(cfg) <= q < p <= |headers| && VerdictAt(cfg, headers, kind0, q).Take?
    ensures var w, next := WalkTo(cfg, headers, kind0, q), WalkTo(cfg, headers, kind0, p);
            && |Ops(cfg, w.taken)| + |Plan(cfg, q, headers[q], KindOf(w.kind, headers[q]))| <= |Ops(cfg, next.taken)|
            && (Supported(cfg, next.taken) && IsSigned(headers[q]) ==> cfg.rsa)
  {
    hide WalkTo, Judge, Plan, KindOf;
    if q == p - 1 {
      TakenStep(cfg, headers, kind0, q);
      var next := WalkTo(cfg, headers, kind0, p);
      assert next.taken[|next.taken| - 1].header == headers[q];
    } else {
      TakenStays(cfg, headers, kind0, q, p - 1);
      WalkAdvances(cfg, headers, kind0, p);
      var w := WalkTo(cfg, headers, kind0, p - 1);
      OpsGrow(cfg, w, p - 1, headers[p - 1]);
    }
  }

  lemma OpsGrow(cfg: Config, w: Walk, p: nat, h: Header)
    ensures var next := Advance(cfg, w, p, h);
            && |Ops(cfg, w.taken)| <= |Ops(cfg, next.taken)|
            && (Supported(cfg, next.taken) ==> Supported(cfg, w.taken))
  {
    hide Judge, Plan, KindOf;
    var next := Advance(cfg, w, p, h);
    if next != w {
      assert next.taken[..|next.taken| - 1] == w.taken;
      assert forall i | 0 <= i < |w.taken| :: next.taken[i] == w.taken[i];
    }
  }

  lemma CountIsUnique(headers: seq<Header>, c: nat, d: nat)
    requires Counts(headers, c) && Counts(headers, d)
    ensures c == d
  {
    hide IsTerminator;
  }

  /** A walk that falls back at header `stop` cannot hand over at any other. */
  lemma StuckNeverHandsOver(mover: Mover, headers: seq<Header>, kind0: Kind, before: seq<Op>, count: nat, stop: nat, code: Code, s: nat)
    requires stop <= count <= |headers| && First(mover.cfg) <= stop
    requires mover.Ended(headers, kind0, before + Prelude(mover.cfg), count, stop, Fallback(code))
    requires HandsOver(mover.cfg, mover.fails, headers, kind0, |before|, count, s)
    ensures false
  {
    hide WalkTo, Judge, Plan, Ops, KindOf, Prelude, CountFits, IsTerminator;
    if s > stop {
      assert VerdictAt(mover.cfg, headers, kind0, stop).Take?;
      TakenStays(mover.cfg, headers, kind0, stop, s);
    }
  }

  lemma FallbackNeverBoots(mover: Mover, headers: seq<Header>, kind0: Kind, before: seq<Op>,
      count: nat, began: bool, stop: nat, code: Code)
    requires BootEnded(mover, headers, kind0, before, count, began, stop, Fallback(code))
    ensures !Boots(mover.cfg, mover.fails, headers, kind0, |before|)
  {
    hide WalkTo, Judge, Plan, Ops, KindOf, Prelude, CountFits, IsTerminator;
    if c, s :| HandsOver(mover.cfg, mover.fails, headers, kind0, |before|, c, s) {
      CountIsUnique(headers, c, count);
      if began {
        StuckNeverHandsOver(mover, headers, kind0, before, count, stop, code, s);
      }
    }
  }

  lemma LoadedHandsOver(mover: Mover, headers: seq<Header>, kind0: Kind, before: seq<Op>,
      count: nat, began: bool, stop: nat, exec: nat)
    requires BootEnded(mover, headers, kind0, before, count, began, stop, Loaded(exec))
    ensures began && stop <= |headers| && HandsOver(mover.cfg, mover.fails, headers, kind0, |before|, count, stop)
    ensures var w := WalkTo(mover.cfg, headers, kind0, stop);
            exec == ExecOf(w) && mover.log == before + (Prelude(mover.cfg) + Ops(mover.cfg, w.taken))
  {
    hide WalkTo, Judge, Plan, Ops, KindOf, Prelude, CountFits, IsTerminator;
  }

  lemma HandsOverIsBooted(cfg: Config, fails: nat -> bool, headers: seq<Header>, kind0: Kind, m: Machine, start: nat, count: nat, stop: nat)
    requires |headers| == MAX_PARTITION_NUMBER && HandsOver(cfg, fails, headers, kind0, start, count, stop)
    ensures var w := WalkTo(cfg, headers, kind0, stop);
            Booted(cfg, headers, kind0, m, Prelude(cfg) + Ops(cfg, w.taken), stop, ExecOf(w))
  {
    hide WalkTo, Judge, Ops, Prelude, Effects, SystemLoaded, IsTerminator, AllWhole;
    var taken := WalkTo(cfg, headers, kind0, stop).taken;
    if AllWhole(cfg, taken) {
      TakenAreReadable(cfg, headers, kind0, stop);
      OpsLoadSystem(cfg, headers, taken, m);
    }
  }

  /** A boot with whatever flags and whatever memory an earlier one left, whatever operations
      fail: it hands over exactly when it can. */
  method Boot(mover: Mover, headers: seq<Header>)
    returns (outcome: Outcome, began: bool, ghost count: nat, ghost stop: nat)
    requires |headers| == MAX_PARTITION_NUMBER && !(mover.pl && mover.ps)
    modifies mover
    ensures BootEnded(mover, headers, old(mover.FlagKind()), old(mover.log), count, began, stop, outcome)
    ensures outcome.Loaded? <==> Boots(mover.cfg, mover.fails, headers, old(mover.FlagKind()), |old(mover.log)|)
    ensures old(mover.log) <= mover.log
    ensures outcome.Loaded? ==>
              forall m :: Booted(mover.cfg, headers, old(mover.FlagKind()), m, mover.log[|old(mover.log)|..], stop, outcome.exec)
  {
    hide BootEnded, HandsOver, Booted, Prelude, Ops, WalkTo;
    ghost var kind0, before := mover.FlagKind(), mover.log;
    outcome, began, count, stop := LoadBootImage(mover, headers);
    if outcome.Loaded? {
      LoadedHandsOver(mover, headers, kind0, before, count, began, stop, outcome.exec);
      ghost var ops := Prelude(mover.cfg) + Ops(mover.cfg, WalkTo(mover.cfg, headers, kind0, stop).taken);
      assert mover.log[|before|..] == ops;
      forall m
        ensures Booted(mover.cfg, headers, kind0, m, ops, stop, outcome.exec)
      {
        HandsOverIsBooted(mover.cfg, mover.fails, headers, kind0, m, |before|, count, stop);
      }
    } else {
      FallbackNeverBoots(mover, headers, kind0, before, count, began, stop, outcome.code);
      EndedExtends(mover, headers, kind0, before, count, began, stop, outcome);
    }
  }

  lemma EndedExtends(mover: Mover, headers: seq<Header>, kind0: Kind, before: seq<Op>,
      count: nat, began: bool, stop: nat, outcome: Outcome)
    requires BootEnded(mover, headers, kind0, before, count, began, stop, outcome)
    ensures before <= mover.log
  {
    hide WalkTo, Judge, Plan, Ops, KindOf, Prelude, CountFits, IsTerminator, VerdictAt;
  }

  // ---------------------------------------------------------------------------------
  // What a boot that falls back leaves
  // ---------------------------------------------------------------------------------

  ghost predicate NoneFails(fails: nat -> bool, from: nat, to: nat) {
    forall k | from <= k < to :: !fails(k)
  }

  /** The operations from `from` to `to` end with the first that fails. */
  ghost predicate FirstFails(fails: nat -> bool, from: nat, to: nat) {
    from < to && fails(to - 1) && NoneFails(fails, from, to - 1)
  }

  /** A boot that falls back before its walk, with `end` operations behind it. */
  ghost predicate FallsEarly(cfg: Config, fails: nat -> bool, headers: seq<Header>, start: nat, count: nat, end: nat) {
    && Counts(headers, count)
    && if !CountFits(cfg, count) || (cfg.headerAuth && !cfg.rsa) then end == start
       else end <= start + |Prelude(cfg)| && FirstFails(fails, start, end)
  }

  /** A boot that falls back at header `stop`: refused, or given up at an operation that fails,
      or just before a signature for want of RSA support. */
  ghost predicate FallsAt(cfg: Config, fails: nat -> bool, headers: seq<Header>, kind0: Kind, start: nat, count: nat, stop: nat, end: nat) {
    && Counts(headers, count) && CountFits(cfg, count) && (cfg.headerAuth ==> cfg.rsa)
    && First(cfg) <= stop < count && Passes(cfg, headers, kind0, stop)
    && var w, h := WalkTo(cfg, headers, kind0, stop), headers[stop];
       var done, plan := start + |Prelude(cfg) + Ops(cfg, w.taken)|, Plan(cfg, stop, h, KindOf(w.kind, h));
       && NoneFails(fails, start, done)
       && match VerdictAt(cfg, headers, kind0, stop)
          case Reject(_) => end == done
          case Take =>
            && done <= end <= done + |plan|
            && (FirstFails(fails, done, end)
                || (NoneFails(fails, done, end) && !cfg.rsa && IsSigned(h) && end < done + |plan| && plan[end - done].Authenticate?))
          case _ => false
  }

  /** The flags and the number of operations that a boot which falls back leaves to the next. */
  ghost predicate Leaves(cfg: Config, fails: nat -> bool, headers: seq<Header>, kind0: Kind, start: nat, kind1: Kind, end: nat) {
    exists count, stop :: LeavesAt(cfg, fails, headers, kind0, start, count, stop, kind1, end)
  }

  ghost predicate LeavesAt(cfg: Config, fails: nat -> bool, headers: seq<Header>, kind0: Kind, start: nat,
                           count: nat, stop: nat, kind1: Kind, end: nat) {
    || (kind1 == kind0 && FallsEarly(cfg, fails, headers, start, count, end))
    || (&& FallsAt(cfg, fails, headers, kind0, start, count, stop, end)
        && kind1 == LeftKind(WalkTo(cfg, headers, kind0, stop).kind, headers[stop]))
  }

  lemma StuckFallsAt(mover: Mover, headers: seq<Header>, kind0: Kind, before: seq<Op>, count: nat, stop: nat, code: Code)
    requires First(mover.cfg) <= stop < count <= |headers| && Counts(headers, count)
    requires CountFits(mover.cfg, count) && (mover.cfg.headerAuth ==> mover.cfg.rsa)
    requires mover.Works(|before|, |before + Prelude(mover.cfg)|)
    requires mover.Ended(headers, kind0, before + Prelude(mover.cfg), count, stop, Fallback(code))
    ensures FallsAt(mover.cfg, mover.fails, headers, kind0, |before|, count, stop, |mover.log|)
  {
    hide WalkTo, Judge, Plan, Ops, KindOf, Prelude, CountFits, IsTerminator, Passes, Counts;
    var w, h := WalkTo(mover.cfg, headers, kind0, stop), headers[stop];
    var all := before + Prelude(mover.cfg) + Ops(mover.cfg, w.taken);
    assert mover.Works(|before|, |all|);
    if VerdictAt(mover.cfg, headers, kind0, stop).Take? {
      StuckEnds(mover, h, all, Plan(mover.cfg, stop, h, KindOf(w.kind, h)), code);
    }
  }

  lemma StuckEnds(mover: Mover, h: Header, before: seq<Op>, plan: seq<Op>, code: Code)
    requires mover.Stuck(h, before, plan, code)
    ensures |before| <= |mover.log| <= |before| + |plan|
    ensures || FirstFails(mover.fails, |before|, |mover.log|)
            || (NoneFails(mover.fails, |before|, |mover.log|) && !mover.cfg.rsa && IsSigned(h)
                && |mover.log| < |before| + |plan| && plan[|mover.log| - |before|].Authenticate?)
  {
  }

  lemma FallbackLeaves(mover: Mover, headers: seq<Header>, kind0: Kind, before: seq<Op>,
      count: nat, began: bool, stop: nat, code: Code)
    requires BootEnded(mover, headers, kind0, before, count, began, stop, Fallback(code))
    ensures !(mover.pl && mover.ps)
    ensures Leaves(mover.cfg, mover.fails, headers, kind0, |before|, mover.FlagKind(), |mover.log|)
  {
    hide WalkTo, Judge, Plan, Ops, KindOf, LeftKind, Prelude, CountFits, IsTerminator;
    if began {
      StuckFallsAt(mover, headers, kind0, before, count, stop, code);
    } else {
      assert FallsEarly(mover.cfg, mover.fails, headers, |before|, count, |mover.log|);
    }
    assert LeavesAt(mover.cfg, mover.fails, headers, kind0, |before|, count, stop, mover.FlagKind(), |mover.log|);
  }
}
