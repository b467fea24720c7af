/** How often a boot programs the fabric, in terms of the raw attribute words. */
module BootPrograms {
  import opened BootHeaders
  import opened BootPlan
  import opened BootWalk
  import opened BootSafety

  /** How many operations program the fabric. */
  function Loads(ops: seq<Op>): nat {
    if ops == [] then 0 else Loads(ops[..|ops| - 1]) + if ops[|ops| - 1].Load? then 1 else 0
  }

  lemma {:induction false} LoadsAdd(s: seq<Op>, t: seq<Op>)
    ensures Loads(s + t) == Loads(s) + Loads(t)
  {
    if t == [] {
      assert s + t == s;
    } else {
      assert (s + t)[..|s + t| - 1] == s + t[..|t| - 1];
      LoadsAdd(s, t[..|t| - 1]);
    }
  }

  lemma {:induction false} NoLoads(ops: seq<Op>)
    requires forall i | 0 <= i < |ops| :: !ops[i].Load?
    ensures Loads(ops) == 0
  {
    if ops != [] {
      NoLoads(ops[..|ops| - 1]);
    }
  }

  /** An application asks for no programming, a bitstream for one. */
  lemma LoadsInWords(cfg: Config, p: nat, h: Header, kind0: Kind)
    ensures h[6] as nat / 0x10 % 2 == 1 ==> Loads(Plan(cfg, p, h, KindOf(kind0, h))) == 0
    ensures h[6] as nat / 0x20 % 2 == 1 && h[6] as nat / 0x10 % 2 == 0 ==> Loads(Plan(cfg, p, h, KindOf(kind0, h))) == 1
  {
    LoadsOfPlan(cfg, p, h, KindOf(kind0, h));
    hide Plan;
  }

  lemma LoadsOne(op: Op)
    ensures Loads([op]) == if op.Load? then 1 else 0
  {
    assert [op][..0] == [];
  }

  lemma LoadsOfUsing(cfg: Config, p: nat, h: Header, kind: Kind)
    ensures Loads(Using(cfg, p, h, kind)) == if kind.Pl? then 1 else 0
  {
    var use := Using(cfg, p, h, kind);
    if use != [] {
      LoadsOne(use[0]);
      assert use == [use[0]];
    }
  }

  lemma LoadsOfPlan(cfg: Config, p: nat, h: Header, kind: Kind)
    ensures Loads(Plan(cfg, p, h, kind)) == if kind.Pl? then 1 else 0
  {
    var stage, verify, use := Staging(cfg, p, h, kind), Verification(cfg, h, kind), Using(cfg, p, h, kind);
    PlanShape(cfg, p, h, kind);
    NoLoads(stage);
    NoLoads(verify);
    LoadsOfUsing(cfg, p, h, kind);
    LoadsBetween(if kind.Pl? then [HookBefore] else [], stage + verify + use, if kind.Pl? then [HookAfter] else []);
    LoadsAdd(stage + verify, use);
    LoadsAdd(stage, verify);
  }

  lemma LoadsBetween(before: seq<Op>, ops: seq<Op>, after: seq<Op>)
    requires before == [] || before == [HookBefore]
    requires after == [] || after == [HookAfter]
    ensures Loads(before + ops + after) == Loads(ops)
  {
    LoadsAdd(before + ops, after);
    LoadsAdd(before, ops);
    LoadsOne(HookBefore);
    LoadsOne(HookAfter);
  }

  /** A header with bit 5 of its attributes and not bit 4. */
  function BitstreamsAmong(taken: seq<Taken>): nat {
    if taken == [] then 0
    else
      var attr := taken[|taken| - 1].header[6] as nat;
      BitstreamsAmong(taken[..|taken| - 1]) + if attr / 0x20 % 2 == 1 && attr / 0x10 % 2 == 0 then 1 else 0
  }

  lemma {:induction false} LoadsOfOps(cfg: Config, taken: seq<Taken>)
    requires OwnKinds(taken)
    ensures Loads(Ops(cfg, taken)) == BitstreamsAmong(taken)
  {
    if taken != [] {
      var init, t := taken[..|taken| - 1], taken[|taken| - 1];
      assert OwnKind(t) && OwnKinds(init);
      LoadsOfOps(cfg, init);
      LoadsOfPlan(cfg, t.p, t.header, t.kind);
      hide Plan, Loads;
      LoadsAdd(Ops(cfg, init), Plan(cfg, t.p, t.header, t.kind));
    } else {
      assert Ops(cfg, taken) == [];
    }
  }

  /** From reset, where no header without bits 4 and 5 is taken after one with either, the fabric
      is programmed exactly once for every header taken with bit 5 and not bit 4. */
  lemma ProgrammedInWords(cfg: Config, headers: seq<Header>, p: nat)
    requires p <= |headers|
    requires var taken := WalkTo(cfg, headers, Neither, p).taken;
             forall i, j | 0 <= i < j < |taken| && taken[i].header[6] as nat / 0x10 % 4 != 0 :: taken[j].header[6] as nat / 0x10 % 4 != 0
    ensures var taken := WalkTo(cfg, headers, Neither, p).taken;
            Loads(Ops(cfg, taken)) == BitstreamsAmong(taken)
  {
    hide WalkTo, Typed, Loads, Ops, BitstreamsAmong, OwnKind;
    var taken := WalkTo(cfg, headers, Neither, p).taken;
    forall i | 0 <= i < |taken|
      ensures Typed(taken[i].header) <==> taken[i].header[6] as nat / 0x10 % 4 != 0
    {
      TypedInWords(taken[i].header);
    }
    OwnKindsExactlyWhen(cfg, headers, Neither, p);
    LoadsOfOps(cfg, taken);
  }

  lemma TypedInWords(h: Header)
    ensures Typed(h) <==> h[6] as nat / 0x10 % 4 != 0
  {
    var a := h[6] as nat / 0x10;
    assert h[6] as nat / 0x20 == a / 2 && a % 4 == a / 2 % 2 * 2 + a % 2;
  }
}
