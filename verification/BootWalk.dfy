/** LoadBootImage and PartitionMove of LAB_2/hdf/image_mover.c: the walk over a boot
    image's partitions, split over two functions that share flags. */
module BootWalk {
  import opened BootHeaders
  import opened BootPlan

  datatype Code =
    | GetHeaderInfoFail
    | RsaSupportNotEnabledFail
    | InvalidHeaderFail
    | PartitionLoadFail
    | InvalidLoadAddressFail
    | BeforeBitstreamHookFail
    | PartitionMoveFail
    | PartitionChecksumFail
    | AuthenticationFail
    | DecryptionFail
    | BitstreamDownloadFail
    | AfterBitstreamHookFail

  /** A fallback does not return; see module ImageSearch. */
  datatype Outcome = Loaded(exec: nat) | Fallback(code: Code)

  datatype Option<T> = None | Some(value: T)

  // ---------------------------------------------------------------------------------
  // The walk, header by header
  // ---------------------------------------------------------------------------------

  datatype Verdict = Skip | Stop | Take | Reject(code: Code)

  /** Protection and load address, once the kind is known. */
  function JudgeLoad(cfg: Config, h: Header, kind: Kind): (v: Verdict)
    ensures !v.Skip?
  {
    if cfg.encOnly && !IsEncrypted(h) then Reject(PartitionLoadFail)
    else if kind.Ps? && LoadAddr(h) < cfg.ddrStart then
      if LoadAddr(h) == 0 && !IsSigned(h) && !IsEncrypted(h) then Stop else Reject(InvalidLoadAddressFail)
    else if kind.Ps? && LoadAddr(h) > cfg.ddrEnd then Reject(InvalidLoadAddressFail)
    else Take
  }

  /** What becomes of a header after partitions of which `application` says whether one
      was an application, and whose flags were left at `previous`. */
  function Judge(cfg: Config, h: Header, previous: Kind, application: bool): Verdict {
    if !ValidHeader(h) then Reject(InvalidHeaderFail)
    else if !OwnedByFsbl(h) then Skip
    else if HasPl(h) && application then Stop
    else JudgeLoad(cfg, h, KindOf(previous, h))
  }

  /** The kind the flags tell once a header has been examined and its partition not loaded. */
  function LeftKind(previous: Kind, h: Header): Kind {
    if ValidHeader(h) then KindOf(previous, h) else previous
  }

  lemma TakenIsValid(cfg: Config, h: Header, previous: Kind, application: bool)
    ensures Judge(cfg, h, previous, application).Take? ==> LeftKind(previous, h) == KindOf(previous, h)
  {
  }

  /** A partition the walk has loaded. */
  datatype Taken = Taken(p: nat, header: Header, kind: Kind)

  datatype Walk = Walk(kind: Kind, application: bool, exec: Option<nat>, taken: seq<Taken>)

  function Advance(cfg: Config, w: Walk, p: nat, h: Header): Walk {
    if Judge(cfg, h, w.kind, w.application).Take? then
      var kind := KindOf(w.kind, h);
      Walk(kind,
           w.application || HasPs(h),
           if kind.Ps? && w.exec.None? then Some(ExecAddr(h)) else w.exec,
           w.taken + [Taken(p, h, kind)])
    else w
  }

  function ExecOf(w: Walk): nat {
    if w.exec.Some? then w.exec.value else 0
  }

  function First(cfg: Config): nat {
    if cfg.mmc then 0 else 1
  }

  /** The walk before header `p`, started with the flags at `kind0`. */
  function WalkTo(cfg: Config, headers: seq<Header>, kind0: Kind, p: nat): Walk
    requires p <= |headers|
  {
    if p <= First(cfg) then Walk(kind0, false, None, [])
    else Advance(cfg, WalkTo(cfg, headers, kind0, p - 1), p - 1, headers[p - 1])
  }

  function VerdictAt(cfg: Config, headers: seq<Header>, kind0: Kind, p: nat): Verdict
    requires p < |headers|
  {
    var w := WalkTo(cfg, headers, kind0, p);
    Judge(cfg, headers[p], w.kind, w.application)
  }

  /** The walk gets past every header before `p`. */
  ghost predicate Passes(cfg: Config, headers: seq<Header>, kind0: Kind, p: nat)
    requires p <= |headers|
  {
    forall q | First(cfg) <= q < p ::
      VerdictAt(cfg, headers, kind0, q).Skip? || VerdictAt(cfg, headers, kind0, q).Take?
  }

  /** The operations for the partitions taken. */
  function Ops(cfg: Config, taken: seq<Taken>): seq<Op> {
    if taken == [] then []
    else
      var t := taken[|taken| - 1];
      Ops(cfg, taken[..|taken| - 1]) + Plan(cfg, t.p, t.header, t.kind)
  }

  /** Signed partitions get through only with RSA support. */
  predicate Supported(cfg: Config, taken: seq<Taken>) {
    forall i | 0 <= i < |taken| :: IsSigned(taken[i].header) ==> cfg.rsa
  }

  // ---------------------------------------------------------------------------------
  // The code
  // ---------------------------------------------------------------------------------

  class Mover {
    const cfg: Config
    const fails: nat -> bool            // does the k-th operation fail?

    var encrypted: bool                 // EncryptedPartitionFlag
    var pl: bool                        // PLPartitionFlag
    var ps: bool                        // PSPartitionFlag
    var signed: bool                    // SignedPartitionFlag
    var checksummed: bool               // PartitionChecksumFlag
    var bitstreamFlag: bool
    var applicationFlag: bool
    var log: seq<Op>                    // the operations asked for so far

    function FlagKind(): Kind
      reads this`pl, this`ps
    {
      if ps then Ps else if pl then Pl else Neither
    }

    ghost predicate Flagged(h: Header)
      reads this
    {
      && encrypted == IsEncrypted(h) && signed == IsSigned(h) && checksummed == HasChecksum(h)
      && !(pl && ps)
    }

    ghost predicate Works(from: nat, to: nat) {
      forall k | from <= k < to :: !fails(k)
    }

    constructor (cfg: Config, fails: nat -> bool)
      ensures this.cfg == cfg && this.fails == fails && log == []
      ensures !pl && !ps
    {
      this.cfg, this.fails := cfg, fails;
      encrypted, pl, ps, signed, checksummed, bitstreamFlag, applicationFlag := false, false, false, false, false, false, false;
      log := [];
    }

    method Do(op: Op) returns (ok: bool)
      modifies this`log
      ensures log == old(log) + [op]
      ensures ok == !fails(|old(log)|)
    {
      ok := !fails(|log|);
      log := log + [op];
    }

    /** Runs operations until one fails; `ok` when none did. */
    ghost predicate Ran(before: seq<Op>, ops: seq<Op>, ok: bool)
      reads this
    {
      && before <= log
      && (ok ==> log == before + ops && Works(|before|, |log|))
      && (!ok ==> |before| < |log| && log[|before|..] <= ops && fails(|log| - 1) && Works(|before|, |log| - 1))
    }

    /** PartitionMove: from the boot device to memory, and unverified bitstreams on into
        the fabric. */
    method PartitionMove(p: nat, h: Header) returns (ok: bool)
      requires Flagged(h)
      modifies this`log
      ensures Ran(old(log),
                  Staging(cfg, p, h, FlagKind()) + if FlagKind().Pl? && !Verified(h) then Using(cfg, p, h, Pl) else [],
                  ok)
    {
      var source := Flash(p);
      var loadAddr, words, dataWords, secure := LoadAddr(h), ImageWordLen(h), DataWordLen(h), encrypted;
      if signed || checksummed {
        words, dataWords := PartitionWordLen(h), PartitionWordLen(h);
      }
      if ps && (signed || checksummed) && encrypted {
        secure := false;
      }
      if !cfg.linear {
        if pl {
          loadAddr := cfg.ddrStart;
        }
        ok := Do(Move(source, loadAddr, words));
        if !ok {
          return;
        }
        source := Ddr(loadAddr);
      }
      if (cfg.linear && pl && (signed || checksummed)) || (cfg.linear && ps) || (!cfg.linear && ps && secure) {
        if pl {
          secure := false;
          loadAddr := cfg.ddrStart;
        }
        ok := Do(Transfer(source, loadAddr, words, dataWords, secure));
        if !ok {
          return;
        }
        source := Ddr(loadAddr);
      }
      if pl && !(signed || checksummed) {
        ok := Do(Load(source, ImageWordLen(h), DataWordLen(h), encrypted));
        if !ok {
          return;
        }
      }
      ok := true;
    }

    /** The flags for a header, and whether the walk skips, stops, refuses or takes it. */
    method Examine(h: Header) returns (v: Verdict)
      requires !(pl && ps)
      modifies this`encrypted, this`pl, this`ps, this`signed, this`checksummed, this`bitstreamFlag, this`applicationFlag
      ensures v == Judge(cfg, h, old(FlagKind()), old(applicationFlag))
      ensures !(pl && ps)
      ensures v.Skip? ==> FlagKind() == old(FlagKind()) && applicationFlag == old(applicationFlag)
      ensures v.Reject? ==> FlagKind() == LeftKind(old(FlagKind()), h)
      ensures v.Take? ==>
                && Flagged(h) && FlagKind() == KindOf(old(FlagKind()), h)
                && applicationFlag == (old(applicationFlag) || HasPs(h))
    {
      hide ValidHeader, HasPs, HasPl, OwnedByFsbl, JudgeLoad;
      var valid := ValidateHeader(h);
      if !valid {
        return Reject(InvalidHeaderFail);
      }
      if !OwnedByFsbl(h) {
        return Skip;
      }
      if HasPl(h) {
        pl, ps, bitstreamFlag := true, false, true;
        if applicationFlag {
          return Stop;
        }
      }
      if HasPs(h) {
        ps, pl, applicationFlag := true, false, true;
      }
      v := ExamineLoad(h);
    }

    /** Protection flags, and the tests on protection and load address. */
    method ExamineLoad(h: Header) returns (v: Verdict)
      requires !(pl && ps)
      modifies this`encrypted, this`signed, this`checksummed
      ensures v == JudgeLoad(cfg, h, FlagKind()) && (v.Take? ==> Flagged(h))
    {
      encrypted := DataWordLen(h) != ImageWordLen(h);
      if cfg.encOnly && !encrypted {
        return Reject(PartitionLoadFail);
      }
      checksummed := HasChecksum(h);
      signed := IsSigned(h);
      if ps && LoadAddr(h) < cfg.ddrStart {
        if LoadAddr(h) == 0 && !(signed || encrypted) {
          return Stop;
        } else {
          return Reject(InvalidLoadAddressFail);
        }
      }
      if ps && LoadAddr(h) > cfg.ddrEnd {
        return Reject(InvalidLoadAddressFail);
      }
      return Take;
    }

    /** One more operation of a plan of which `done` has run. */
    method Next(op: Op, ghost before: seq<Op>, ghost done: seq<Op>, ghost plan: seq<Op>) returns (ok: bool)
      requires Ran(before, done, true) && done + [op] <= plan
      modifies this`log
      ensures ok ==> Ran(before, done + [op], true)
      ensures !ok ==> Ran(before, plan, false) && log[|log| - 1] == op
    {
      ok := Do(op);
      assert log[|before|..] == done + [op];
    }

    /** Checksum, then signature; without RSA support a signed partition is refused. */
    method Verify(h: Header, ghost before: seq<Op>, ghost done: seq<Op>, ghost plan: seq<Op>) returns (code: Option<Code>)
      requires Flagged(h) && Ran(before, done, true)
      requires done + Verification(cfg, h, FlagKind()) <= plan
      modifies this`log
      ensures code.None? ==>
                && Ran(before, done + Verification(cfg, h, FlagKind()), true)
                && (IsSigned(h) ==> cfg.rsa)
      ensures code.Some? ==> Stuck(h, before, plan, code.value)
    {
      code := None;
      var start := if pl then cfg.ddrStart else LoadAddr(h);
      ghost var d := done;
      if checksummed {
        var op := Check(start, PartitionWordLen(h));
        assert d + [op] <= done + Verification(cfg, h, FlagKind());
        var ok := Next(op, before, d, plan);
        if !ok {
          return Some(PartitionChecksumFail);
        }
        d := d + [op];
      }
      if signed {
        var op := Authenticate(start, PartitionWordLen(h));
        assert d + [op] == done + Verification(cfg, h, FlagKind());
        if !cfg.rsa {
          assert plan[|d|] == op;
          return Some(RsaSupportNotEnabledFail);
        }
        var ok := Next(op, before, d, plan);
        if !ok {
          return Some(AuthenticationFail);
        }
      }
    }

    /** The plan was cut short: by its last operation, or for want of RSA support just
        before a signature. */
    ghost predicate Stuck(h: Header, before: seq<Op>, plan: seq<Op>, code: Code)
      reads this
    {
      if code.RsaSupportNotEnabledFail? then
        && !cfg.rsa && IsSigned(h)
        && before <= log && Works(|before|, |log|)
        && |log| - |before| < |plan|
        && log[|before|..] <= plan && plan[|log| - |before|].Authenticate?
      else
        Ran(before, plan, false) && code == FailureCode(h, log[|log| - 1])
    }

    lemma RanOn(before: seq<Op>, done: seq<Op>, ops: seq<Op>, plan: seq<Op>, ok: bool)
      requires Works(|before|, |before + done|) && Ran(before + done, ops, ok)
      requires done + ops <= plan
      ensures ok ==> Ran(before, done + ops, true)
      ensures !ok ==> Ran(before, plan, false)
    {
    }

    /** Decrypts a verified application in place, or programs a verified bitstream. */
    method Use(p: nat, h: Header, ghost before: seq<Op>, ghost done: seq<Op>, ghost plan: seq<Op>) returns (code: Option<Code>)
      requires Flagged(h) && Verified(h) && Ran(before, done, true)
      requires done + Using(cfg, p, h, FlagKind()) <= plan
      modifies this`log
      ensures code.None? ==> Ran(before, done + Using(cfg, p, h, FlagKind()), true)
      ensures code.Some? ==> Stuck(h, before, plan, code.value)
    {
      code := None;
      var start := if pl then cfg.ddrStart else LoadAddr(h);
      if encrypted && ps {
        var ok := Next(Transfer(Ddr(start), start, ImageWordLen(h), DataWordLen(h), true), before, done, plan);
        if !ok {
          code := Some(DecryptionFail);
        }
      } else if pl {
        var ok := Next(Load(Ddr(start), ImageWordLen(h), DataWordLen(h), encrypted), before, done, plan);
        if !ok {
          code := Some(BitstreamDownloadFail);
        }
      } else {
        assert done + [] == done;
      }
    }

    /** Everything the walk does for one partition it takes. */
    method LoadPartition(p: nat, h: Header) returns (code: Option<Code>)
      requires Flagged(h)
      modifies this`log
      ensures code.None? ==> Ran(old(log), Plan(cfg, p, h, FlagKind()), true) && (IsSigned(h) ==> cfg.rsa)
      ensures code.Some? ==> Stuck(h, old(log), Plan(cfg, p, h, FlagKind()), code.value)
    {
      ghost var before, plan, done := log, Plan(cfg, p, h, FlagKind()), [];
      ghost var core := Staging(cfg, p, h, FlagKind()) + Verification(cfg, h, FlagKind()) + Using(cfg, p, h, FlagKind());
      assert Ran(before, [], true);
      PlanShape(cfg, p, h, FlagKind());
      assert pl <==> FlagKind().Pl?;
      assert FailureCode(h, HookBefore) == BeforeBitstreamHookFail && FailureCode(h, HookAfter) == AfterBitstreamHookFail;
      hide *;
      if pl {
        var ok := Next(HookBefore, before, [], plan);
        if !ok {
          IsStuck(h, before, plan, BeforeBitstreamHookFail);
          return Some(BeforeBitstreamHookFail);
        }
        done := [HookBefore];
      }
      assert plan == done + core + if pl then [HookAfter] else [];
      code := Deliver(p, h, before, done, plan);
      if code.Some? {
        return;
      }
      if pl {
        var ok := Next(HookAfter, before, done + core, plan);
        if !ok {
          IsStuck(h, before, plan, AfterBitstreamHookFail);
          return Some(AfterBitstreamHookFail);
        }
      } else {
        assert plan == done + core;
      }
    }

    lemma IsStuck(h: Header, before: seq<Op>, plan: seq<Op>, code: Code)
      requires Ran(before, plan, false) && code == FailureCode(h, log[|log| - 1]) && !code.RsaSupportNotEnabledFail?
      ensures Stuck(h, before, plan, code)
    {
    }

    /** A partition between the hooks: moved, verified, used. */
    method Deliver(p: nat, h: Header, ghost before: seq<Op>, ghost done: seq<Op>, ghost plan: seq<Op>) returns (code: Option<Code>)
      requires Flagged(h) && Ran(before, done, true)
      requires done + (Staging(cfg, p, h, FlagKind()) + Verification(cfg, h, FlagKind()) + Using(cfg, p, h, FlagKind())) <= plan
      modifies this`log
      ensures code.None? ==>
                && Ran(before, done + (Staging(cfg, p, h, FlagKind()) + Verification(cfg, h, FlagKind()) + Using(cfg, p, h, FlagKind())), true)
                && (IsSigned(h) ==> cfg.rsa)
      ensures code.Some? ==> Stuck(h, before, plan, code.value)
    {
      ghost var stage, verify, use := Staging(cfg, p, h, FlagKind()), Verification(cfg, h, FlagKind()), Using(cfg, p, h, FlagKind());
      assert !Verified(h) ==> verify == [] && (!pl ==> use == []);
      ghost var moves := stage + if FlagKind().Pl? && !Verified(h) then Using(cfg, p, h, Pl) else [];
      hide Staging, Verification, Using, Ran, Stuck;
      assert done + (stage + verify + use) == done + stage + verify + use;
      code := Moved(p, h, before, done, plan);
      if code.Some? {
        return;
      }
      if signed || checksummed {
        assert done + moves == done + stage;
        code := Verify(h, before, done + stage, plan);
        if code.Some? {
          return;
        }
        code := Use(p, h, before, done + stage + verify, plan);
      } else {
        assert done + moves == done + (stage + verify + use);
      }
    }

    method Moved(p: nat, h: Header, ghost before: seq<Op>, ghost done: seq<Op>, ghost plan: seq<Op>) returns (code: Option<Code>)
      requires Flagged(h) && Ran(before, done, true)
      requires done + (Staging(cfg, p, h, FlagKind()) + if FlagKind().Pl? && !Verified(h) then Using(cfg, p, h, Pl) else []) <= plan
      modifies this`log
      ensures code.None? ==>
                Ran(before,
                    done + (Staging(cfg, p, h, FlagKind()) + if FlagKind().Pl? && !Verified(h) then Using(cfg, p, h, Pl) else []),
                    true)
      ensures code.Some? ==> Stuck(h, before, plan, code.value)
    {
      ghost var ops := Staging(cfg, p, h, FlagKind()) + if FlagKind().Pl? && !Verified(h) then Using(cfg, p, h, Pl) else [];
      var ok := PartitionMove(p, h);
      RanOn(before, done, ops, plan, ok);
      code := if ok then None else Some(PartitionMoveFail);
      if !ok {
        assert log[|log| - 1] == log[|before + done|..][|log| - |before + done| - 1];
        assert log[|log| - 1] in ops;
      }
    }

    /** Log and flags agree with the walk before header `p`. */
    ghost predicate AtHeader(headers: seq<Header>, kind0: Kind, before: seq<Op>, p: nat)
      requires p <= |headers|
      reads this
    {
      var w := WalkTo(cfg, headers, kind0, p);
      && !(pl && ps)
      && Passes(cfg, headers, kind0, p)
      && FlagKind() == w.kind && applicationFlag == w.application
      && Ran(before, Ops(cfg, w.taken), true)
      && Supported(cfg, w.taken)
    }

    /** How a walk that reached header `stop` ends. */
    ghost predicate Ended(headers: seq<Header>, kind0: Kind, before: seq<Op>, count: nat, stop: nat, outcome: Outcome)
      requires stop <= count <= |headers|
      reads this
    {
      var w := WalkTo(cfg, headers, kind0, stop);
      && Passes(cfg, headers, kind0, stop)
      && match outcome
         case Loaded(exec) =>
           && (stop == count || VerdictAt(cfg, headers, kind0, stop).Stop?)
           && Ran(before, Ops(cfg, w.taken), true)
           && Supported(cfg, w.taken)
           && exec == ExecOf(w)
         case Fallback(code) =>
           && stop < count
           && (|| (VerdictAt(cfg, headers, kind0, stop) == Reject(code) && Ran(before, Ops(cfg, w.taken), true))
               || (&& VerdictAt(cfg, headers, kind0, stop).Take?
                   && Works(|before|, |before + Ops(cfg, w.taken)|)
                   && Stuck(headers[stop], before + Ops(cfg, w.taken),
                            Plan(cfg, stop, headers[stop], KindOf(w.kind, headers[stop])), code)))
    }

    lemma Begins(headers: seq<Header>, count: nat)
      requires First(cfg) <= count <= |headers| && !(pl && ps) && !applicationFlag
      ensures AtHeader(headers, FlagKind(), log, First(cfg))
    {
    }

    lemma Finishes(headers: seq<Header>, kind0: Kind, before: seq<Op>, count: nat, p: nat)
      requires p <= count <= |headers| && AtHeader(headers, kind0, before, p)
      requires p == count || VerdictAt(cfg, headers, kind0, p).Stop?
      ensures Ended(headers, kind0, before, count, p, Loaded(ExecOf(WalkTo(cfg, headers, kind0, p))))
    {
    }

    /** One more partition taken. */
    method TakeOne(headers: seq<Header>, p: nat, ghost kind0: Kind, ghost before: seq<Op>, ghost count: nat)
      returns (code: Option<Code>)
      requires First(cfg) <= p < count <= |headers| && VerdictAt(cfg, headers, kind0, p).Take?
      requires Flagged(headers[p]) && Passes(cfg, headers, kind0, p)
      requires var w := WalkTo(cfg, headers, kind0, p);
               && Ran(before, Ops(cfg, w.taken), true)
               && Supported(cfg, w.taken)
               && FlagKind() == KindOf(w.kind, headers[p]) && applicationFlag == (w.application || HasPs(headers[p]))
      modifies this`log
      ensures code.None? ==> AtHeader(headers, kind0, before, p + 1)
      ensures code.Some? ==> Ended(headers, kind0, before, count, p, Fallback(code.value))
    {
      ghost var ops := Ops(cfg, WalkTo(cfg, headers, kind0, p).taken);
      RanSoFar(before, ops);
      hide WalkTo, Ops, Judge, Plan, Ran, Stuck, Passes, KindOf, VerdictAt;
      code := LoadPartition(p, headers[p]);
      if code.None? {
        Extends(headers, p, kind0, before);
      } else {
        EndsStuck(headers, p, kind0, before, count, code.value);
      }
    }

    lemma RanSoFar(before: seq<Op>, ops: seq<Op>)
      requires Ran(before, ops, true)
      ensures log == before + ops && Works(|before|, |before + ops|)
    {
    }

    lemma Extends(headers: seq<Header>, p: nat, kind0: Kind, before: seq<Op>)
      requires First(cfg) <= p < |headers| && VerdictAt(cfg, headers, kind0, p).Take?
      requires Passes(cfg, headers, kind0, p) && !(pl && ps)
      requires var w := WalkTo(cfg, headers, kind0, p);
               && Works(|before|, |before + Ops(cfg, w.taken)|)
               && Ran(before + Ops(cfg, w.taken), Plan(cfg, p, headers[p], FlagKind()), true)
               && (IsSigned(headers[p]) ==> cfg.rsa) && Supported(cfg, w.taken)
               && FlagKind() == KindOf(w.kind, headers[p]) && applicationFlag == (w.application || HasPs(headers[p]))
      ensures AtHeader(headers, kind0, before, p + 1)
    {
      TakenStep(cfg, headers, kind0, p);
      TakenPasses(cfg, headers, kind0, p);
      hide Plan, Judge, WalkTo, Ops, KindOf, VerdictAt, Ran, Supported, Passes;
      RanLonger(before, Ops(cfg, WalkTo(cfg, headers, kind0, p).taken), Plan(cfg, p, headers[p], FlagKind()));
    }

    lemma RanLonger(before: seq<Op>, done: seq<Op>, ops: seq<Op>)
      requires Works(|before|, |before + done|) && Ran(before + done, ops, true)
      ensures Ran(before, done + ops, true)
    {
    }

    lemma EndsStuck(headers: seq<Header>, p: nat, kind0: Kind, before: seq<Op>, count: nat, code: Code)
      requires p < count <= |headers| && VerdictAt(cfg, headers, kind0, p).Take? && Passes(cfg, headers, kind0, p)
      requires var w := WalkTo(cfg, headers, kind0, p);
               && Works(|before|, |before + Ops(cfg, w.taken)|)
               && Stuck(headers[p], before + Ops(cfg, w.taken), Plan(cfg, p, headers[p], FlagKind()), code)
               && FlagKind() == KindOf(w.kind, headers[p])
      ensures Ended(headers, kind0, before, count, p, Fallback(code))
    {
      hide Stuck, Plan, Ops, Judge;
    }

    /** One header: examined, and its partition loaded when it is taken. */
    method Visit(headers: seq<Header>, p: nat, ghost kind0: Kind, ghost before: seq<Op>, ghost count: nat)
      returns (v: Verdict, code: Option<Code>)
      requires First(cfg) <= p < count <= |headers| && AtHeader(headers, kind0, before, p)
      modifies this
      ensures v == VerdictAt(cfg, headers, kind0, p)
      ensures v.Skip? || (v.Take? && code.None?) ==> AtHeader(headers, kind0, before, p + 1)
      ensures v.Stop? ==> Ended(headers, kind0, before, count, p, Loaded(ExecOf(WalkTo(cfg, headers, kind0, p))))
      ensures v.Reject? ==> Ended(headers, kind0, before, count, p, Fallback(v.code))
      ensures v.Take? && code.Some? ==> Ended(headers, kind0, before, count, p, Fallback(code.value))
      ensures v.Take? ==> (ps <==> KindOf(WalkTo(cfg, headers, kind0, p).kind, headers[p]).Ps?)
      ensures v.Reject? || (v.Take? && code.Some?) ==> Left(headers, kind0, p)
    {
      code := None;
      ghost var w := WalkTo(cfg, headers, kind0, p);
      WalkStep(headers, kind0, before, count, p);
      TakenIsValid(cfg, headers[p], w.kind, w.application);
      hide LeftKind, WalkTo, Ops, Judge, Stuck, Flagged, KindOf, Ran, Ended, Passes;
      v := Examine(headers[p]);
      if v.Take? {
        code := TakeOne(headers, p, kind0, before, count);
      } else if v.Skip? {
        Skips(headers, kind0, before, p);
      }
    }

    /** The flags are those of header `p`, which was examined last. */
    ghost predicate Left(headers: seq<Header>, kind0: Kind, p: nat)
      requires p < |headers|
      reads this`pl, this`ps
    {
      !(pl && ps) && FlagKind() == LeftKind(WalkTo(cfg, headers, kind0, p).kind, headers[p])
    }

    /** Nothing but the flags has changed since a header was reached. */
    lemma Skips(headers: seq<Header>, kind0: Kind, before: seq<Op>, p: nat)
      requires First(cfg) <= p < |headers| && VerdictAt(cfg, headers, kind0, p).Skip?
      requires AtHeader(headers, kind0, before, p)
      ensures AtHeader(headers, kind0, before, p + 1)
    {
    }

    /** If the walk ends at a header it has only examined, it ends like this. */
    lemma WalkStep(headers: seq<Header>, kind0: Kind, before: seq<Op>, count: nat, p: nat)
      requires p < count <= |headers| && AtHeader(headers, kind0, before, p)
      ensures var v := VerdictAt(cfg, headers, kind0, p);
              && (v.Stop? ==> Ended(headers, kind0, before, count, p, Loaded(ExecOf(WalkTo(cfg, headers, kind0, p)))))
              && (v.Reject? ==> Ended(headers, kind0, before, count, p, Fallback(v.code)))
    {
      hide WalkTo, Ops, Ran, Judge, Passes, Stuck;
    }

    /** The execution address noted before header `p`. */
    ghost predicate Noted(headers: seq<Header>, kind0: Kind, p: nat, execAddrFlag: bool, execAddress: nat)
      requires p <= |headers|
    {
      && WalkTo(cfg, headers, kind0, p).exec == (if execAddrFlag then Some(execAddress) else None)
      && (!execAddrFlag ==> execAddress == 0)
    }

    lemma NotedExec(headers: seq<Header>, kind0: Kind, p: nat, execAddrFlag: bool, execAddress: nat)
      requires p <= |headers| && Noted(headers, kind0, p, execAddrFlag, execAddress)
      ensures execAddress == ExecOf(WalkTo(cfg, headers, kind0, p))
    {
    }

    lemma NotedNext(headers: seq<Header>, kind0: Kind, p: nat, execAddrFlag: bool, execAddress: nat)
      requires First(cfg) <= p < |headers| && Noted(headers, kind0, p, execAddrFlag, execAddress)
      ensures var v, kind := VerdictAt(cfg, headers, kind0, p), KindOf(WalkTo(cfg, headers, kind0, p).kind, headers[p]);
              if v.Take? && kind.Ps? && !execAddrFlag then Noted(headers, kind0, p + 1, true, ExecAddr(headers[p]))
              else Noted(headers, kind0, p + 1, execAddrFlag, execAddress)
    {
      ExecStep(cfg, headers, kind0, p);
      hide WalkTo, Judge, KindOf;
    }

    /** One turn of the loop: how the walk ends at this header, if it does. */
    method Turn(headers: seq<Header>, p: nat, flag: bool, address: nat, ghost kind0: Kind, ghost before: seq<Op>, ghost count: nat)
      returns (end: Option<Outcome>, execAddrFlag: bool, execAddress: nat)
      requires First(cfg) <= p < count <= |headers|
      requires AtHeader(headers, kind0, before, p) && Noted(headers, kind0, p, flag, address)
      modifies this
      ensures end.Some? ==> Ended(headers, kind0, before, count, p, end.value)
      ensures end.Some? && end.value.Fallback? ==> Left(headers, kind0, p)
      ensures end.None? ==>
                AtHeader(headers, kind0, before, p + 1) && Noted(headers, kind0, p + 1, execAddrFlag, execAddress)
    {
      end, execAddrFlag, execAddress := None, flag, address;
      NotedExec(headers, kind0, p, flag, address);
      NotedNext(headers, kind0, p, flag, address);
      hide Noted, WalkTo, VerdictAt, Judge, AtHeader, Ended, KindOf, ExecOf, First, Left;
      var v, code := Visit(headers, p, kind0, before, count);
      match v {
        case Reject(c) => end := Some(Fallback(c));
        case Stop => end := Some(Loaded(execAddress));
        case Skip =>
        case Take =>
          if code.Some? {
            end := Some(Fallback(code.value));
          } else if ps && !execAddrFlag {
            execAddrFlag, execAddress := true, ExecAddr(headers[p]);
          }
      }
    }

    /** The loop over the headers. */
    method Loop(headers: seq<Header>, count: nat, ghost kind0: Kind, ghost before: seq<Op>)
      returns (outcome: Outcome, ghost stop: nat)
      requires First(cfg) <= count <= |headers|
      requires AtHeader(headers, kind0, before, First(cfg)) && Noted(headers, kind0, First(cfg), false, 0)
      modifies this
      ensures First(cfg) <= stop <= count && Ended(headers, kind0, before, count, stop, outcome)
      ensures outcome.Fallback? ==> stop < count && Left(headers, kind0, stop)
    {
      hide *;
      var partitionNum := First(cfg);
      var execAddrFlag, execAddress: nat := false, 0;
      while partitionNum < count
        invariant First(cfg) <= partitionNum <= count
        invariant AtHeader(headers, kind0, before, partitionNum)
        invariant Noted(headers, kind0, partitionNum, execAddrFlag, execAddress)
      {
        var end;
        end, execAddrFlag, execAddress := Turn(headers, partitionNum, execAddrFlag, execAddress, kind0, before, count);
        if end.Some? {
          return end.value, partitionNum;
        }
        partitionNum := partitionNum + 1;
      }
      NotedExec(headers, kind0, partitionNum, execAddrFlag, execAddress);
      Finishes(headers, kind0, before, count, partitionNum);
      return Loaded(execAddress), partitionNum;
    }

    /** The walk: the flags it starts with, and the loop. */
    method WalkPartitions(headers: seq<Header>, count: nat) returns (outcome: Outcome, ghost stop: nat)
      requires First(cfg) <= count <= |headers| && !(pl && ps)
      modifies this
      ensures First(cfg) <= stop <= count && Ended(headers, old(FlagKind()), old(log), count, stop, outcome)
      ensures outcome.Fallback? ==> stop < count && Left(headers, old(FlagKind()), stop)
    {
      bitstreamFlag, applicationFlag := false, false;
      Begins(headers, count);
      assert Noted(headers, FlagKind(), First(cfg), false, 0);
      hide AtHeader, Ended, Noted, WalkTo;
      outcome, stop := Loop(headers, count, FlagKind(), log);
    }
  }

  predicate CountFits(cfg: Config, count: nat) {
    count < MAX_PARTITION_NUMBER && (cfg.mmc || count > 1)
  }

  /** The number of headers before the first terminator. */
  ghost predicate Counts(headers: seq<Header>, count: nat) {
    && count <= |headers|
    && (forall k | 0 <= k < count :: !IsTerminator(headers[k]))
    && (count < |headers| ==> IsTerminator(headers[count]))
  }

  /** How a boot ends that found the flags at `kind0` and had done `before`: either the walk
      was begun and ended at header `stop`, or it was not, for the reason the code gives. */
  ghost predicate BootEnded(mover: Mover, headers: seq<Header>, kind0: Kind, before: seq<Op>,
                            count: nat, began: bool, stop: nat, outcome: Outcome)
    reads mover
  {
    && Counts(headers, count)
    && (!began ==> !(mover.pl && mover.ps) && mover.FlagKind() == kind0)
    && if began then
         && CountFits(mover.cfg, count) && (mover.cfg.headerAuth ==> mover.cfg.rsa)
         && mover.Works(|before|, |before + Prelude(mover.cfg)|)
         && First(mover.cfg) <= stop <= count
         && mover.Ended(headers, kind0, before + Prelude(mover.cfg), count, stop, outcome)
         && (outcome.Fallback? ==> stop < count && mover.Left(headers, kind0, stop))
       else if !CountFits(mover.cfg, count) then
         outcome == Fallback(GetHeaderInfoFail) && mover.log == before
       else if !mover.cfg.rsa then
         mover.cfg.headerAuth && outcome == Fallback(RsaSupportNotEnabledFail) && mover.log == before
       else
         outcome == Fallback(GetHeaderInfoFail) && mover.Ran(before, Prelude(mover.cfg), false)
  }

  /** LoadBootImage: count the partitions, authenticate the headers if the chip asks for
      it, and walk. */
  method LoadBootImage(mover: Mover, headers: seq<Header>)
    returns (outcome: Outcome, began: bool, ghost count: nat, ghost stop: nat)
    requires |headers| == MAX_PARTITION_NUMBER && !(mover.pl && mover.ps)
    modifies mover
    ensures BootEnded(mover, headers, old(mover.FlagKind()), old(mover.log), count, began, stop, outcome)
  {
    stop, began := 0, false;
    var n := GetPartitionCount(headers);
    count := n;
    if n >= MAX_PARTITION_NUMBER || (!mover.cfg.mmc && n <= 1) {
      return Fallback(GetHeaderInfoFail), began, count, stop;
    }
    if mover.cfg.headerAuth {
      if !mover.cfg.rsa {
        return Fallback(RsaSupportNotEnabledFail), began, count, stop;
      }
      var ok := ReadHeaders(mover);
      if !ok {
        return Fallback(GetHeaderInfoFail), began, count, stop;
      }
    } else {
      assert mover.log == mover.log + Prelude(mover.cfg);
    }
    began := true;
    outcome, stop := mover.WalkPartitions(headers, n);
  }

  method ReadHeaders(mover: Mover) returns (ok: bool)
    requires mover.cfg.headerAuth
    modifies mover`log
    ensures mover.Ran(old(mover.log), Prelude(mover.cfg), ok)
  {
    ghost var before := mover.log;
    ok := mover.Next(ReadHeader(mover.cfg.ddrStart), before, [], Prelude(mover.cfg));
    if ok {
      ok := mover.Next(AuthHeader, before, [ReadHeader(mover.cfg.ddrStart)], Prelude(mover.cfg));
    }
  }

  /** The header authentication that precedes the walk. */
  function Prelude(cfg: Config): seq<Op> {
    if cfg.headerAuth then [ReadHeader(cfg.ddrStart), AuthHeader] else []
  }

  /** A plan is its middle part, between the hooks of a bitstream. */
  lemma PlanShape(cfg: Config, p: nat, h: Header, kind: Kind)
    ensures var core := Staging(cfg, p, h, kind) + Verification(cfg, h, kind) + Using(cfg, p, h, kind);
            Plan(cfg, p, h, kind) ==
            (if kind.Pl? then [HookBefore] else []) + core + if kind.Pl? then [HookAfter] else []
  {
    hide Staging, Verification, Using;
    var before := if kind.Pl? then [HookBefore] else [];
    var stage, verify, use := Staging(cfg, p, h, kind), Verification(cfg, h, kind), Using(cfg, p, h, kind);
    assert before + (stage + verify + use) == before + stage + verify + use;
  }

  lemma TakenStep(cfg: Config, headers: seq<Header>, kind0: Kind, p: nat)
    requires First(cfg) <= p < |headers| && VerdictAt(cfg, headers, kind0, p).Take?
    ensures var w, next := WalkTo(cfg, headers, kind0, p), WalkTo(cfg, headers, kind0, p + 1);
            var kind := KindOf(w.kind, headers[p]);
            && next.kind == kind && next.application == (w.application || HasPs(headers[p]))
            && next.taken == w.taken + [Taken(p, headers[p], kind)]
            && Ops(cfg, next.taken) == Ops(cfg, w.taken) + Plan(cfg, p, headers[p], kind)
  {
  }

  lemma TakenPasses(cfg: Config, headers: seq<Header>, kind0: Kind, p: nat)
    requires First(cfg) <= p < |headers| && VerdictAt(cfg, headers, kind0, p).Take?
    requires Passes(cfg, headers, kind0, p)
    ensures Passes(cfg, headers, kind0, p + 1)
    ensures Supported(cfg, WalkTo(cfg, headers, kind0, p).taken) && (IsSigned(headers[p]) ==> cfg.rsa) ==>
              Supported(cfg, WalkTo(cfg, headers, kind0, p + 1).taken)
  {
    TakenStep(cfg, headers, kind0, p);
    hide WalkTo, Judge, Ops, KindOf;
  }

  lemma ExecStep(cfg: Config, headers: seq<Header>, kind0: Kind, p: nat)
    requires First(cfg) <= p < |headers|
    ensures var w := WalkTo(cfg, headers, kind0, p);
            WalkTo(cfg, headers, kind0, p + 1).exec ==
            if VerdictAt(cfg, headers, kind0, p).Take? && KindOf(w.kind, headers[p]).Ps? && w.exec.None?
            then Some(ExecAddr(headers[p])) else w.exec
  {
    hide Judge;
  }

  /** The status reported when an operation for a header fails. */
  function FailureCode(h: Header, op: Op): Code {
    match op
    case ReadHeader(_) => GetHeaderInfoFail
    case AuthHeader => GetHeaderInfoFail
    case HookBefore => BeforeBitstreamHookFail
    case Move(_, _, _) => PartitionMoveFail
    case Transfer(_, _, _, _, secure) => if secure && Verified(h) then DecryptionFail else PartitionMoveFail
    case Check(_, _) => PartitionChecksumFail
    case Authenticate(_, _) => AuthenticationFail
    case Load(_, _, _, _) => if Verified(h) then BitstreamDownloadFail else PartitionMoveFail
    case HookAfter => AfterBitstreamHookFail
  }
}
