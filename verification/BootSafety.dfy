/** What holds of every walk over a boot image's partitions: which are loaded, in what
    order and as what, and what memory and fabric hold afterwards. */
module BootSafety {
  import opened BootHeaders
  import opened BootPlan
  import opened BootMemory
  import opened BootWalk

  /** What may be loaded at all. */
  predicate MayLoad(cfg: Config, t: Taken) {
    && ValidHeader(t.header) && OwnedByFsbl(t.header)
    && (cfg.encOnly ==> IsEncrypted(t.header))
    && (t.kind.Ps? ==> cfg.ddrStart <= LoadAddr(t.header) <= cfg.ddrEnd)
    && (HasPs(t.header) ==> t.kind.Ps?)
    && (!HasPs(t.header) && HasPl(t.header) ==> t.kind.Pl?)
  }

  lemma AdvanceTakes(cfg: Config, w: Walk, p: nat, h: Header)
    ensures var v, next := Judge(cfg, h, w.kind, w.application), Advance(cfg, w, p, h);
            && (v.Take? ==> next.taken == w.taken + [Taken(p, h, KindOf(w.kind, h))]
                            && MayLoad(cfg, Taken(p, h, KindOf(w.kind, h)))
                            && (HasPl(h) ==> !w.application)
                            && next.application == (w.application || HasPs(h)))
            && (!v.Take? ==> next == w)
  {
    hide ValidHeader;
  }

  lemma WalkAdvances(cfg: Config, headers: seq<Header>, kind0: Kind, p: nat)
    requires First(cfg) < p <= |headers|
    ensures WalkTo(cfg, headers, kind0, p) == Advance(cfg, WalkTo(cfg, headers, kind0, p - 1), p - 1, headers[p - 1])
  {
  }

  /** Only headers of the image that may be loaded are loaded. */
  lemma {:induction false} TakenMayLoad(cfg: Config, headers: seq<Header>, kind0: Kind, p: nat, i: nat)
    requires p <= |headers| && i < |WalkTo(cfg, headers, kind0, p).taken|
    ensures var t := WalkTo(cfg, headers, kind0, p).taken[i];
            First(cfg) <= t.p < p && t.header == headers[t.p] && MayLoad(cfg, t)
  {
    if p > First(cfg) {
      var w := WalkTo(cfg, headers, kind0, p - 1);
      WalkAdvances(cfg, headers, kind0, p);
      AdvanceTakes(cfg, w, p - 1, headers[p - 1]);
      hide Advance, Judge, MayLoad, WalkTo, KindOf;
      if i < |w.taken| {
        TakenMayLoad(cfg, headers, kind0, p - 1, i);
      }
    }
  }

  /** Each at most once, in the order of the headers. */
  lemma {:induction false} TakenInOrder(cfg: Config, headers: seq<Header>, kind0: Kind, p: nat, i: nat, j: nat)
    requires p <= |headers| && i < j < |WalkTo(cfg, headers, kind0, p).taken|
    ensures WalkTo(cfg, headers, kind0, p).taken[i].p < WalkTo(cfg, headers, kind0, p).taken[j].p
  {
    if p > First(cfg) {
      var w := WalkTo(cfg, headers, kind0, p - 1);
      WalkAdvances(cfg, headers, kind0, p);
      AdvanceTakes(cfg, w, p - 1, headers[p - 1]);
      hide Advance, Judge, MayLoad, WalkTo, KindOf;
      if j < |w.taken| {
        TakenInOrder(cfg, headers, kind0, p - 1, i, j);
      } else {
        TakenMayLoad(cfg, headers, kind0, p - 1, i);
      }
    }
  }

  /** And every header the loader owns, once the walk is past it. */
  lemma {:induction false} OwnedAreTaken(cfg: Config, headers: seq<Header>, kind0: Kind, p: nat, q: nat)
    requires First(cfg) <= q < p <= |headers| && Passes(cfg, headers, kind0, p) && OwnedByFsbl(headers[q])
    ensures exists i | 0 <= i < |WalkTo(cfg, headers, kind0, p).taken| :: WalkTo(cfg, headers, kind0, p).taken[i].p == q
  {
    var w, taken := WalkTo(cfg, headers, kind0, p - 1), WalkTo(cfg, headers, kind0, p).taken;
    WalkAdvances(cfg, headers, kind0, p);
    AdvanceTakes(cfg, w, p - 1, headers[p - 1]);
    var v := VerdictAt(cfg, headers, kind0, p - 1);
    assert v.Skip? || v.Take?;
    assert v.Skip? ==> !OwnedByFsbl(headers[p - 1]);
    hide Advance, Judge, MayLoad, WalkTo, KindOf, OwnedByFsbl;
    if q < p - 1 {
      OwnedAreTaken(cfg, headers, kind0, p - 1, q);
      var i :| 0 <= i < |w.taken| && w.taken[i].p == q;
      assert taken[i].p == q;
    } else {
      assert taken[|taken| - 1].p == q;
    }
  }

  /** No bitstream is loaded after an application. */
  lemma {:induction false} NoBitstreamAfterApplication(cfg: Config, headers: seq<Header>, kind0: Kind, p: nat)
    requires p <= |headers|
    ensures var w := WalkTo(cfg, headers, kind0, p);
            && (w.application <==> exists i | 0 <= i < |w.taken| :: HasPs(w.taken[i].header))
            && (forall i, j | 0 <= i < j < |w.taken| :: HasPs(w.taken[i].header) ==> !HasPl(w.taken[j].header))
  {
    if p > First(cfg) {
      NoBitstreamAfterApplication(cfg, headers, kind0, p - 1);
      var w, next := WalkTo(cfg, headers, kind0, p - 1), WalkTo(cfg, headers, kind0, p);
      AdvanceTakes(cfg, w, p - 1, headers[p - 1]);
      hide Advance, Judge, MayLoad, WalkTo, HasPs, HasPl;
      if i :| 0 <= i < |w.taken| && HasPs(w.taken[i].header) {
        assert next.taken[i] == w.taken[i];
      }
      if HasPs(headers[p - 1]) && |next.taken| > |w.taken| {
        assert HasPs(next.taken[|w.taken|].header);
      }
    }
  }

  /** The address handed over is that of the first application loaded, or 0. */
  lemma {:induction false} ExecIsFirstApplication(cfg: Config, headers: seq<Header>, kind0: Kind, p: nat)
    requires p <= |headers|
    ensures var w := WalkTo(cfg, headers, kind0, p);
            if w.exec.None? then forall i | 0 <= i < |w.taken| :: !w.taken[i].kind.Ps?
            else exists i | 0 <= i < |w.taken| ::
                   && w.taken[i].kind.Ps? && w.exec.value == ExecAddr(w.taken[i].header)
                   && forall k | 0 <= k < i :: !w.taken[k].kind.Ps?
  {
    if p > First(cfg) {
      ExecIsFirstApplication(cfg, headers, kind0, p - 1);
      var w, next := WalkTo(cfg, headers, kind0, p - 1), WalkTo(cfg, headers, kind0, p);
      hide Judge;
      assert next == Advance(cfg, w, p - 1, headers[p - 1]);
      hide WalkTo;
      if w.exec.Some? {
        var i :| 0 <= i < |w.taken| && w.taken[i].kind.Ps? && w.exec.value == ExecAddr(w.taken[i].header)
                 && forall k | 0 <= k < i :: !w.taken[k].kind.Ps?;
        assert next.taken[i] == w.taken[i];
      } else if |next.taken| > |w.taken| && next.taken[|w.taken|].kind.Ps? {
        assert next.exec == Some(ExecAddr(next.taken[|w.taken|].header));
      }
    }
  }

  // ---------------------------------------------------------------------------------
  // Kinds
  // ---------------------------------------------------------------------------------

  /** The header says what its partition is. */
  predicate Typed(h: Header) {
    HasPs(h) || HasPl(h)
  }

  /** The partition is treated as its own bits say. */
  predicate OwnKind(t: Taken) {
    t.kind == KindOf(Neither, t.header)
  }

  lemma KindWhenTyped(previous: Kind, h: Header)
    ensures KindOf(previous, h) == if Typed(h) then KindOf(Neither, h) else previous
    ensures KindOf(Neither, h).Neither? <==> !Typed(h)
  {
  }

  ghost predicate SomeTyped(taken: seq<Taken>) {
    exists i | 0 <= i < |taken| :: Typed(taken[i].header)
  }

  /** Until a typed header is taken the flags stay as the walk found them; from then on they say
      application exactly when one was loaded. */
  lemma {:induction false} KindUntilTyped(cfg: Config, headers: seq<Header>, kind0: Kind, p: nat)
    requires p <= |headers|
    ensures var w := WalkTo(cfg, headers, kind0, p);
            if SomeTyped(w.taken) then !w.kind.Neither? && (w.kind.Ps? <==> w.application)
            else w.kind == kind0 && !w.application
  {
    if p > First(cfg) {
      KindUntilTyped(cfg, headers, kind0, p - 1);
      var w, next := WalkTo(cfg, headers, kind0, p - 1), WalkTo(cfg, headers, kind0, p);
      AdvanceTakes(cfg, w, p - 1, headers[p - 1]);
      WalkAdvances(cfg, headers, kind0, p);
      hide Judge, WalkTo, MayLoad;
      if next != w {
        SomeTypedMore(w.taken, next.taken[|w.taken|]);
      }
    }
  }

  lemma SomeTypedMore(taken: seq<Taken>, t: Taken)
    ensures SomeTyped(taken + [t]) <==> SomeTyped(taken) || Typed(t.header)
  {
    hide Typed;
    var more := taken + [t];
    assert more[|taken|] == t && forall i | 0 <= i < |taken| :: more[i] == taken[i];
  }

  /** No header without a type bit was taken after one with a type bit. */
  ghost predicate TypedStay(taken: seq<Taken>) {
    forall i, j | 0 <= i < j < |taken| :: Typed(taken[i].header) ==> Typed(taken[j].header)
  }

  ghost predicate OwnKinds(taken: seq<Taken>) {
    forall i | 0 <= i < |taken| :: OwnKind(taken[i])
  }

  /** What the headers taken must say of themselves: from reset, no untyped one comes after a
      typed one; from flags an earlier image left, every one is typed. */
  ghost predicate SaysItself(kind0: Kind, taken: seq<Taken>) {
    if kind0.Neither? then TypedStay(taken) else forall i | 0 <= i < |taken| :: Typed(taken[i].header)
  }

  /** Every partition is treated as its own bits say exactly when the headers say it
      themselves. */
  lemma {:induction false} OwnKindsExactlyWhen(cfg: Config, headers: seq<Header>, kind0: Kind, p: nat)
    requires p <= |headers|
    ensures var taken := WalkTo(cfg, headers, kind0, p).taken;
            OwnKinds(taken) <==> SaysItself(kind0, taken)
  {
    if p > First(cfg) {
      OwnKindsExactlyWhen(cfg, headers, kind0, p - 1);
      KindUntilTyped(cfg, headers, kind0, p - 1);
      var w, next := WalkTo(cfg, headers, kind0, p - 1), WalkTo(cfg, headers, kind0, p);
      AdvanceTakes(cfg, w, p - 1, headers[p - 1]);
      WalkAdvances(cfg, headers, kind0, p);
      KindWhenTyped(w.kind, headers[p - 1]);
      hide Judge, WalkTo, Typed, KindOf, Advance, MayLoad;
      if next != w {
        OneMoreKind(kind0, w.taken, next.taken[|w.taken|]);
      }
    }
  }

  lemma OneMoreKind(kind0: Kind, taken: seq<Taken>, t: Taken)
    ensures OwnKinds(taken + [t]) <==> OwnKinds(taken) && OwnKind(t)
    ensures SaysItself(kind0, taken + [t]) <==>
            SaysItself(kind0, taken) && (Typed(t.header) || (kind0.Neither? && !SomeTyped(taken)))
  {
    hide OwnKind, Typed;
    var more := taken + [t];
    assert more[|taken|] == t && forall i | 0 <= i < |taken| :: more[i] == taken[i];
  }

  /** The condition can fail: a data partition after a bitstream, with neither type bit, is
      taken, and programmed into the fabric as a second bitstream. */
  lemma UntypedFollowsBitstream(cfg: Config, p: nat, h: Header, m: Machine, headers: seq<Header>)
    requires ValidHeader(h) && OwnedByFsbl(h) && !Typed(h) && (cfg.encOnly ==> IsEncrypted(h))
    requires p < |headers| && headers[p] == h && Whole(cfg, h)
    ensures Judge(cfg, h, Pl, false) == Take && KindOf(Pl, h) == Pl
    ensures Effects(m, headers, Plan(cfg, p, h, KindOf(Pl, h))).fabric == m.fabric + [Content(p, h)]
  {
    PlanDone(cfg, p, h, Pl, m, headers);
    hide Plan, Effects, Content, Whole;
  }

  lemma {:induction false} LastKind(cfg: Config, headers: seq<Header>, kind0: Kind, p: nat)
    requires p <= |headers|
    ensures var w := WalkTo(cfg, headers, kind0, p);
            w.kind == if w.taken == [] then kind0 else w.taken[|w.taken| - 1].kind
  {
    if p > First(cfg) {
      LastKind(cfg, headers, kind0, p - 1);
      WalkAdvances(cfg, headers, kind0, p);
      hide Judge, WalkTo, KindOf;
    }
  }

  lemma {:induction false} UntypedKeepKind(cfg: Config, headers: seq<Header>, kind0: Kind, p: nat, i: nat)
    requires p <= |headers| && i < |WalkTo(cfg, headers, kind0, p).taken|
    requires forall k | 0 <= k <= i :: !Typed(WalkTo(cfg, headers, kind0, p).taken[k].header)
    ensures WalkTo(cfg, headers, kind0, p).taken[i].kind == kind0
  {
    var w, next := WalkTo(cfg, headers, kind0, p - 1), WalkTo(cfg, headers, kind0, p);
    WalkAdvances(cfg, headers, kind0, p);
    AdvanceTakes(cfg, w, p - 1, headers[p - 1]);
    KindUntilTyped(cfg, headers, kind0, p - 1);
    KindWhenTyped(w.kind, headers[p - 1]);
    hide Judge, WalkTo, KindOf, Advance, MayLoad, Typed;
    assert next != w ==> forall k | 0 <= k < |w.taken| :: next.taken[k] == w.taken[k];
    if i < |w.taken| {
      UntypedKeepKind(cfg, headers, kind0, p - 1, i);
    }
  }

  /** No partition is treated as something else after one was treated as an application. */
  ghost predicate ApplicationsLast(taken: seq<Taken>) {
    forall i, j | 0 <= i < j < |taken| :: taken[i].kind.Ps? ==> taken[j].kind.Ps?
  }

  /** The flags were left at application, the first header taken is untyped, and the first
      typed one taken is a bitstream's alone. */
  ghost predicate OrderBroken(kind0: Kind, taken: seq<Taken>) {
    && kind0.Ps?
    && exists f | 0 < f < |taken| ::
         && Typed(taken[f].header) && !HasPs(taken[f].header)
         && forall i | 0 <= i < f :: !Typed(taken[i].header)
  }

  lemma OrderStep(kind0: Kind, taken: seq<Taken>, t: Taken)
    ensures ApplicationsLast(taken + [t]) <==>
            ApplicationsLast(taken) && (t.kind.Ps? || forall i | 0 <= i < |taken| :: !taken[i].kind.Ps?)
    ensures OrderBroken(kind0, taken + [t]) <==>
            OrderBroken(kind0, taken) ||
            (kind0.Ps? && taken != [] && !SomeTyped(taken) && Typed(t.header) && !HasPs(t.header))
  {
    hide Typed, HasPs;
    var more := taken + [t];
    assert more[|taken|] == t && forall i | 0 <= i < |taken| :: more[i] == taken[i];
  }

  /** Whatever flags the walk starts with, applications come last, except in that one case. */
  lemma {:induction false} ApplicationsComeLast(cfg: Config, headers: seq<Header>, kind0: Kind, p: nat)
    requires p <= |headers|
    ensures var taken := WalkTo(cfg, headers, kind0, p).taken;
            ApplicationsLast(taken) <==> !OrderBroken(kind0, taken)
  {
    if p > First(cfg) {
      ApplicationsComeLast(cfg, headers, kind0, p - 1);
      var w, next := WalkTo(cfg, headers, kind0, p - 1), WalkTo(cfg, headers, kind0, p);
      var h := headers[p - 1];
      WalkAdvances(cfg, headers, kind0, p);
      AdvanceTakes(cfg, w, p - 1, h);
      hide Judge, WalkTo, MayLoad, Advance;
      if next != w {
        OrderStep(kind0, w.taken, next.taken[|w.taken|]);
        OrderOfOneMore(cfg, headers, kind0, p - 1, h);
      }
    }
  }

  /** In a walk with its applications last so far, the next header is no application after one
      exactly where the order breaks. */
  lemma OrderOfOneMore(cfg: Config, headers: seq<Header>, kind0: Kind, p: nat, h: Header)
    requires p <= |headers|
    requires var w := WalkTo(cfg, headers, kind0, p); HasPl(h) ==> !w.application
    ensures var w := WalkTo(cfg, headers, kind0, p);
            ApplicationsLast(w.taken) ==>
              (!KindOf(w.kind, h).Ps? && (exists i | 0 <= i < |w.taken| :: w.taken[i].kind.Ps?)
               <==> kind0.Ps? && w.taken != [] && !SomeTyped(w.taken) && Typed(h) && !HasPs(h))
  {
    var w := WalkTo(cfg, headers, kind0, p);
    KindUntilTyped(cfg, headers, kind0, p);
    LastKind(cfg, headers, kind0, p);
    hide WalkTo, HasPs, HasPl;
    if !SomeTyped(w.taken) {
      forall i | 0 <= i < |w.taken|
        ensures w.taken[i].kind == kind0
      {
        UntypedKeepKind(cfg, headers, kind0, p, i);
      }
    }
  }

  /** That case happens: from flags left at application, an untyped header and then one that
      is a bitstream's alone are both taken, the second as a bitstream. */
  lemma OrderBreaks(cfg: Config, headers: seq<Header>)
    requires |headers| == 3 && First(cfg) == 1 && !cfg.encOnly
    requires forall q | 1 <= q < 3 :: ValidHeader(headers[q]) && OwnedByFsbl(headers[q]) && !HasPs(headers[q])
    requires !HasPl(headers[1]) && HasPl(headers[2]) && cfg.ddrStart <= LoadAddr(headers[1]) <= cfg.ddrEnd
    ensures WalkTo(cfg, headers, Ps, 3).taken == [Taken(1, headers[1], Ps), Taken(2, headers[2], Pl)]
  {
    hide ValidHeader, OwnedByFsbl, HasPs, HasPl;
    assert WalkTo(cfg, headers, Ps, 1) == Walk(Ps, false, None, []);
    assert WalkTo(cfg, headers, Ps, 2).taken == [Taken(1, headers[1], Ps)];
  }

  // ---------------------------------------------------------------------------------
  // Flags an earlier image left
  // ---------------------------------------------------------------------------------

  /** The first header the loader owns, before `p`, says what it is. */
  ghost predicate Independent(cfg: Config, headers: seq<Header>, p: nat)
    requires p <= |headers|
  {
    forall q | First(cfg) <= q < p && FirstOwned(cfg, headers, q) :: Typed(headers[q])
  }

  ghost predicate FirstOwned(cfg: Config, headers: seq<Header>, q: nat)
    requires q < |headers|
  {
    OwnedByFsbl(headers[q]) && NoneOwned(cfg, headers, q)
  }

  ghost predicate NoneOwned(cfg: Config, headers: seq<Header>, p: nat)
    requires p <= |headers|
  {
    forall q | First(cfg) <= q < p :: !OwnedByFsbl(headers[q])
  }

  lemma JudgedAlike(cfg: Config, h: Header, k: Kind, l: Kind, application: bool)
    requires Typed(h) || !OwnedByFsbl(h)
    ensures Judge(cfg, h, k, application) == Judge(cfg, h, l, application)
    ensures Typed(h) ==> KindOf(k, h) == KindOf(l, h)
  {
    hide ValidHeader;
  }

  /** A header the loader owns and the walk gets past is taken. */
  lemma OwnedIsTaken(cfg: Config, h: Header, previous: Kind, application: bool)
    ensures var v := Judge(cfg, h, previous, application);
            if OwnedByFsbl(h) then !v.Skip? else !v.Take?
  {
  }

  /** Two walks over an image are alike at header `p`: no header was owned so far, or they
      have done the same. */
  ghost predicate Alike(cfg: Config, headers: seq<Header>, k: Kind, l: Kind, p: nat)
    requires p <= |headers|
  {
    if NoneOwned(cfg, headers, p)
    then WalkTo(cfg, headers, k, p) == Walk(k, false, None, []) && WalkTo(cfg, headers, l, p) == Walk(l, false, None, [])
    else WalkTo(cfg, headers, k, p) == WalkTo(cfg, headers, l, p)
  }

  lemma AlikeStep(cfg: Config, headers: seq<Header>, k: Kind, l: Kind, p: nat)
    requires First(cfg) <= p < |headers| && Independent(cfg, headers, p + 1)
    requires Alike(cfg, headers, k, l, p)
    ensures VerdictAt(cfg, headers, k, p) == VerdictAt(cfg, headers, l, p)
    ensures VerdictAt(cfg, headers, k, p).Skip? || VerdictAt(cfg, headers, k, p).Take? ==> Alike(cfg, headers, k, l, p + 1)
  {
    var h := headers[p];
    WalkAdvances(cfg, headers, k, p + 1);
    WalkAdvances(cfg, headers, l, p + 1);
    OwnedIsTaken(cfg, h, WalkTo(cfg, headers, k, p).kind, WalkTo(cfg, headers, k, p).application);
    OwnedIsTaken(cfg, h, WalkTo(cfg, headers, l, p).kind, WalkTo(cfg, headers, l, p).application);
    hide Judge, WalkTo, OwnedByFsbl, Typed, KindOf;
    assert FirstOwned(cfg, headers, p) <==> OwnedByFsbl(h) && NoneOwned(cfg, headers, p);
    if Typed(h) || !OwnedByFsbl(h) {
      JudgedAlike(cfg, h, k, l, false);
    }
    assert NoneOwned(cfg, headers, p + 1) <==> NoneOwned(cfg, headers, p) && !OwnedByFsbl(h);
  }

  /** In an independent image a walk that gets past its headers does the same from any flags. */
  lemma {:induction false} WalkedAlike(cfg: Config, headers: seq<Header>, k: Kind, l: Kind, p: nat)
    requires p <= |headers| && Independent(cfg, headers, p) && Passes(cfg, headers, l, p)
    ensures Alike(cfg, headers, k, l, p) && Passes(cfg, headers, k, p)
  {
    hide Judge, OwnedByFsbl, Typed, FirstOwned, VerdictAt;
    if p > First(cfg) {
      WalkedAlike(cfg, headers, k, l, p - 1);
      hide WalkTo, Alike;
      AlikeStep(cfg, headers, k, l, p - 1);
    }
  }

  lemma {:induction false} TakenStaysFirst(cfg: Config, headers: seq<Header>, kind0: Kind, q: nat, p: nat)
    requires q <= p <= |headers|
    ensures WalkTo(cfg, headers, kind0, q).taken <= WalkTo(cfg, headers, kind0, p).taken
    decreases p
  {
    if q < p {
      TakenStaysFirst(cfg, headers, kind0, q, p - 1);
      if p > First(cfg) {
        AdvanceTakes(cfg, WalkTo(cfg, headers, kind0, p - 1), p - 1, headers[p - 1]);
        WalkAdvances(cfg, headers, kind0, p);
        hide Advance, Judge, WalkTo, MayLoad;
      }
    }
  }

  lemma {:induction false} NothingOwned(cfg: Config, headers: seq<Header>, k: Kind, p: nat)
    requires p <= |headers| && NoneOwned(cfg, headers, p)
    ensures WalkTo(cfg, headers, k, p) == Walk(k, false, None, [])
  {
    if p > First(cfg) {
      NothingOwned(cfg, headers, k, p - 1);
      OwnedIsTaken(cfg, headers[p - 1], k, false);
    }
  }

  lemma UntypedJudged(cfg: Config, h: Header, k: Kind)
    requires !Typed(h) && !k.Ps?
    ensures Judge(cfg, h, k, false) == Judge(cfg, h, Neither, false)
  {
    hide ValidHeader;
  }

  /** An untyped header that is the first owned is taken as what the flags say. */
  lemma FirstUntyped(cfg: Config, headers: seq<Header>, q: nat, p: nat, k: Kind)
    requires First(cfg) <= q < p <= |headers| && FirstOwned(cfg, headers, q) && !Typed(headers[q])
    requires Passes(cfg, headers, Neither, p) && !k.Ps?
    ensures var taken := WalkTo(cfg, headers, k, p).taken; taken != [] && taken[0] == Taken(q, headers[q], k)
  {
    var h := headers[q];
    NothingOwned(cfg, headers, k, q);
    NothingOwned(cfg, headers, Neither, q);
    OwnedIsTaken(cfg, h, Neither, false);
    UntypedJudged(cfg, h, k);
    KindWhenTyped(k, h);
    WalkAdvances(cfg, headers, k, q + 1);
    TakenStaysFirst(cfg, headers, k, q + 1, p);
    hide Judge, WalkTo, OwnedByFsbl, Typed, KindOf, NoneOwned;
    assert VerdictAt(cfg, headers, Neither, q).Take?;
    assert WalkTo(cfg, headers, k, q + 1).taken == [Taken(q, h, k)];
  }

  /** An image is loaded alike whatever image failed before it exactly when the first header
      the loader owns says what it is. */
  lemma LoadedAlikeExactlyWhen(cfg: Config, headers: seq<Header>, p: nat)
    requires p <= |headers| && Passes(cfg, headers, Neither, p)
    ensures (forall k :: WalkTo(cfg, headers, k, p).taken == WalkTo(cfg, headers, Neither, p).taken)
            <==> Independent(cfg, headers, p)
  {
    hide Judge, WalkTo, Typed, FirstOwned, NoneOwned, Passes;
    if Independent(cfg, headers, p) {
      forall k
        ensures WalkTo(cfg, headers, k, p).taken == WalkTo(cfg, headers, Neither, p).taken
      {
        WalkedAlike(cfg, headers, k, Neither, p);
      }
    } else {
      var q :| First(cfg) <= q < p && FirstOwned(cfg, headers, q) && !Typed(headers[q]);
      FirstUntyped(cfg, headers, q, p, Neither);
      FirstUntyped(cfg, headers, q, p, Pl);
    }
  }

  /** A data partition below the DDR is taken from reset, and refused after an image that
      left the flags at application. */
  lemma RefusedAfterApplication(cfg: Config, h: Header)
    requires ValidHeader(h) && OwnedByFsbl(h) && !Typed(h) && (cfg.encOnly ==> IsEncrypted(h))
    requires LoadAddr(h) < cfg.ddrStart && (LoadAddr(h) != 0 || IsSigned(h) || IsEncrypted(h))
    ensures Judge(cfg, h, Neither, false) == Take
    ensures Judge(cfg, h, Ps, false) == Reject(InvalidLoadAddressFail)
  {
    hide ValidHeader;
  }

  // ---------------------------------------------------------------------------------
  // Memory and fabric after the walk
  // ---------------------------------------------------------------------------------

  /** Partitions of the image, in its order, each read whole. */
  ghost predicate Readable(cfg: Config, headers: seq<Header>, taken: seq<Taken>) {
    && (forall i | 0 <= i < |taken| ::
          taken[i].p < |headers| && taken[i].header == headers[taken[i].p] && Whole(cfg, taken[i].header))
    && (forall i, j | 0 <= i < j < |taken| :: taken[i].p < taken[j].p)
  }

  predicate Wrote(cfg: Config, t: Taken, a: nat) {
    Reaches(cfg, t.header, t.kind, a)
  }

  function LeftBy(cfg: Config, t: Taken, a: nat): Cell
    requires Wrote(cfg, t, a)
  {
    LeftAt(t.p, t.header, t.kind, a - StageAddr(cfg, t.header, t.kind))
  }

  /** The bitstreams among the partitions taken, decrypted. */
  function Bitstreams(taken: seq<Taken>): seq<seq<Cell>> {
    if taken == [] then []
    else
      var t := taken[|taken| - 1];
      Bitstreams(taken[..|taken| - 1]) + if t.kind.Pl? then [Content(t.p, t.header)] else []
  }

  /** Each byte of memory is what the last partition to reach it left there. */
  function Memory(cfg: Config, taken: seq<Taken>, ddr: nat -> Cell, a: nat): Cell {
    if taken == [] then ddr(a)
    else
      var t := taken[|taken| - 1];
      if Wrote(cfg, t, a) then LeftBy(cfg, t, a) else Memory(cfg, taken[..|taken| - 1], ddr, a)
  }

  lemma LastPlan(cfg: Config, headers: seq<Header>, taken: seq<Taken>, m: Machine)
    requires taken != []
    ensures var t := taken[|taken| - 1];
            Effects(m, headers, Ops(cfg, taken)) ==
            Effects(Effects(m, headers, Ops(cfg, taken[..|taken| - 1])), headers, Plan(cfg, t.p, t.header, t.kind))
  {
    hide Plan, Effects;
    var t := taken[|taken| - 1];
    EffectsConcat(m, headers, Ops(cfg, taken[..|taken| - 1]), Plan(cfg, t.p, t.header, t.kind));
  }

  lemma LastLoad(cfg: Config, headers: seq<Header>, t: Taken, m: Machine, a: nat)
    requires t.p < |headers| && t.header == headers[t.p] && Whole(cfg, t.header)
    ensures var after := Effects(m, headers, Plan(cfg, t.p, t.header, t.kind));
            && after.fabric == m.fabric + (if t.kind.Pl? then [Content(t.p, t.header)] else [])
            && after.ddr(a) == if Wrote(cfg, t, a) then LeftBy(cfg, t, a) else m.ddr(a)
  {
    hide Plan, Effects, Reaches, LeftAt, Content, Whole, StageAddr;
    PlanMemory(cfg, t.p, t.header, t.kind, m, headers, a);
  }

  /** The fabric receives every bitstream taken once, decrypted, in order, and nothing else;
      each byte of memory is what the last partition to reach it left there. */
  lemma {:induction false} OpsLoad(cfg: Config, headers: seq<Header>, taken: seq<Taken>, m: Machine, a: nat)
    requires Readable(cfg, headers, taken)
    ensures var after := Effects(m, headers, Ops(cfg, taken));
            after.fabric == m.fabric + Bitstreams(taken) && after.ddr(a) == Memory(cfg, taken, m.ddr, a)
  {
    hide Plan, Effects, Wrote, LeftBy, Content, Whole, Ops;
    if taken == [] {
      NothingLoaded(cfg, headers, m);
    } else {
      var init, t := taken[..|taken| - 1], taken[|taken| - 1];
      OpsLoad(cfg, headers, init, m, a);
      LastPlan(cfg, headers, taken, m);
      LastLoad(cfg, headers, t, Effects(m, headers, Ops(cfg, init)), a);
      assert Bitstreams(taken) == Bitstreams(init) + if t.kind.Pl? then [Content(t.p, t.header)] else [];
    }
  }

  lemma NothingLoaded(cfg: Config, headers: seq<Header>, m: Machine)
    ensures Effects(m, headers, Ops(cfg, [])) == m && Bitstreams([]) == []
  {
  }

  lemma {:induction false} LastWriter(cfg: Config, taken: seq<Taken>, ddr: nat -> Cell, a: nat, i: nat) returns (j: nat)
    requires i < |taken| && Wrote(cfg, taken[i], a)
    ensures i <= j < |taken| && Wrote(cfg, taken[j], a) && Memory(cfg, taken, ddr, a) == LeftBy(cfg, taken[j], a)
    ensures forall l | j < l < |taken| :: !Wrote(cfg, taken[l], a)
  {
    hide Wrote, LeftBy;
    j := |taken| - 1;
    if !Wrote(cfg, taken[j], a) {
      j := LastWriter(cfg, taken[..|taken| - 1], ddr, a, i);
    }
  }

  /** An application's own plan leaves its content in its extent. */
  lemma LeavesContent(cfg: Config, t: Taken, k: nat)
    requires t.kind.Ps? && Whole(cfg, t.header) && k < 4 * DataWordLen(t.header)
    ensures var a := LoadAddr(t.header) + k;
            Wrote(cfg, t, a) && LeftBy(cfg, t, a) == Content(t.p, t.header)[k]
  {
    hide ByteLen;
  }

  lemma LeavesItsOwn(cfg: Config, t: Taken, a: nat)
    requires Wrote(cfg, t, a)
    ensures var c := LeftBy(cfg, t, a); (c.Raw? || c.Plain?) && c.p == t.p
  {
    hide Reaches;
  }

  /** `t` takes the memory of the k-th byte of application `u`. */
  predicate Takes(cfg: Config, t: Taken, u: Taken, k: nat) {
    Wrote(cfg, t, LoadAddr(u.header) + k)
  }

  /** A byte is what partition i left there exactly when no later one reached it. */
  lemma LastByteExactlyWhen(cfg: Config, headers: seq<Header>, taken: seq<Taken>, ddr: nat -> Cell, i: nat, a: nat)
    requires Readable(cfg, headers, taken) && i < |taken| && Wrote(cfg, taken[i], a)
    ensures Memory(cfg, taken, ddr, a) == LeftBy(cfg, taken[i], a) <==> forall j | i < j < |taken| :: !Wrote(cfg, taken[j], a)
  {
    hide Wrote, LeftBy, Memory, Whole;
    var j := LastWriter(cfg, taken, ddr, a, i);
    LeavesItsOwn(cfg, taken[i], a);
    LeavesItsOwn(cfg, taken[j], a);
  }

  /** A byte of an application is in place at the end exactly when no later partition
      takes its memory. */
  lemma ByteInPlaceExactlyWhen(cfg: Config, headers: seq<Header>, taken: seq<Taken>, m: Machine, i: nat, k: nat)
    requires Readable(cfg, headers, taken) && i < |taken| && taken[i].kind.Ps?
    requires k < 4 * DataWordLen(taken[i].header)
    ensures DeliveredAt(Effects(m, headers, Ops(cfg, taken)).ddr, taken[i].p, taken[i].header, k)
            <==> forall j | i < j < |taken| :: !Takes(cfg, taken[j], taken[i], k)
  {
    hide Effects, Ops, Wrote, LeftBy, Memory, Whole, Content;
    var a := LoadAddr(taken[i].header) + k;
    OpsLoad(cfg, headers, taken, m, a);
    LeavesContent(cfg, taken[i], k);
    LastByteExactlyWhen(cfg, headers, taken, m.ddr, i, a);
    assert forall j | i < j < |taken| :: Takes(cfg, taken[j], taken[i], k) <==> Wrote(cfg, taken[j], a);
  }

  /** What a later partition `t` takes does not meet where application `u` lies. */
  predicate Apart(cfg: Config, t: Taken, u: Taken) {
    var at, n := StageAddr(cfg, t.header, t.kind), Extent(cfg, t.header, t.kind);
    n == 0 || DataWordLen(u.header) == 0
    || at + n <= LoadAddr(u.header) || LoadAddr(u.header) + 4 * DataWordLen(u.header) <= at
  }

  lemma ApartExactlyWhen(cfg: Config, t: Taken, u: Taken)
    ensures Apart(cfg, t, u) <==> forall k | 0 <= k < 4 * DataWordLen(u.header) :: !Takes(cfg, t, u, k)
  {
    hide Extent, StageAddr;
    if !Apart(cfg, t, u) {
      var at := StageAddr(cfg, t.header, t.kind);
      assert Takes(cfg, t, u, if at < LoadAddr(u.header) then 0 else at - LoadAddr(u.header));
    }
  }

  /** No partition loaded after the i-th takes memory where it lies. */
  ghost predicate LeftAlone(cfg: Config, taken: seq<Taken>, i: nat)
    requires i < |taken|
  {
    forall j | i < j < |taken| :: Apart(cfg, taken[j], taken[i])
  }

  /** An application is in place at the end exactly when it was left alone. */
  lemma ApplicationInPlaceExactlyWhen(cfg: Config, headers: seq<Header>, taken: seq<Taken>, m: Machine, i: nat)
    requires Readable(cfg, headers, taken) && i < |taken| && taken[i].kind.Ps?
    ensures Delivered(Effects(m, headers, Ops(cfg, taken)).ddr, taken[i].p, taken[i].header) <==> LeftAlone(cfg, taken, i)
  {
    hide *;
    var h, after := taken[i].header, Effects(m, headers, Ops(cfg, taken)).ddr;
    forall k | 0 <= k < 4 * DataWordLen(h)
      ensures DeliveredAt(after, taken[i].p, h, k) <==> forall j | i < j < |taken| :: !Takes(cfg, taken[j], taken[i], k)
    {
      ByteInPlaceExactlyWhen(cfg, headers, taken, m, i, k);
    }
    forall j | i < j < |taken|
      ensures Apart(cfg, taken[j], taken[i]) <==> forall k | 0 <= k < 4 * DataWordLen(h) :: !Takes(cfg, taken[j], taken[i], k)
    {
      ApartExactlyWhen(cfg, taken[j], taken[i]);
    }
    InPlaceMeans(cfg, taken, i, after);
  }

  /** Byte by byte and partition by partition. */
  lemma InPlaceMeans(cfg: Config, taken: seq<Taken>, i: nat, after: nat -> Cell)
    requires i < |taken|
    requires forall k | 0 <= k < 4 * DataWordLen(taken[i].header) ::
               DeliveredAt(after, taken[i].p, taken[i].header, k) <==> forall j | i < j < |taken| :: !Takes(cfg, taken[j], taken[i], k)
    requires forall j | i < j < |taken| ::
               Apart(cfg, taken[j], taken[i]) <==> forall k | 0 <= k < 4 * DataWordLen(taken[i].header) :: !Takes(cfg, taken[j], taken[i], k)
    ensures Delivered(after, taken[i].p, taken[i].header) <==> LeftAlone(cfg, taken, i)
  {
    hide Takes, DeliveredAt, Apart;
    var t := taken[i];
    if Delivered(after, t.p, t.header) {
      forall j, k | i < j < |taken| && 0 <= k < 4 * DataWordLen(t.header)
        ensures !Takes(cfg, taken[j], t, k)
      {
        assert DeliveredAt(after, t.p, t.header, k);
      }
    }
    if LeftAlone(cfg, taken, i) {
      forall k | 0 <= k < 4 * DataWordLen(t.header)
        ensures DeliveredAt(after, t.p, t.header, k)
      {
        assert forall j | i < j < |taken| :: Apart(cfg, taken[j], t);
      }
    }
  }

  /** Only applications can take an application's memory, except in that one case: everything
      loaded after it goes to its own load address, never to the staging area. */
  lemma LaterLoadsOnly(cfg: Config, headers: seq<Header>, kind0: Kind, p: nat, i: nat, j: nat)
    requires p <= |headers| && i < j < |WalkTo(cfg, headers, kind0, p).taken|
    requires WalkTo(cfg, headers, kind0, p).taken[i].kind.Ps?
    requires !OrderBroken(kind0, WalkTo(cfg, headers, kind0, p).taken)
    ensures var t := WalkTo(cfg, headers, kind0, p).taken[j];
            t.kind.Ps? && StageAddr(cfg, t.header, t.kind) == LoadAddr(t.header)
  {
    hide WalkTo, OrderBroken;
    ApplicationsComeLast(cfg, headers, kind0, p);
  }

  /** An application of 1000 words, neither verified nor encrypted. */
  predicate Simple(h: Header) {
    ImageWordLen(h) == DataWordLen(h) == 1000 && !Verified(h)
  }

  lemma SimpleWrites(cfg: Config, p: nat, h: Header, a: nat)
    requires Simple(h)
    ensures Whole(cfg, h) && Extent(cfg, h, Ps) == 4000
    ensures Wrote(cfg, Taken(p, h, Ps), a) <==> LoadAddr(h) <= a < LoadAddr(h) + 4000
    ensures Wrote(cfg, Taken(p, h, Ps), a) ==> LeftBy(cfg, Taken(p, h, Ps), a) == Raw(p, a - LoadAddr(h))
  {
  }

  lemma MemoryOfTwo(cfg: Config, t: Taken, u: Taken, ddr: nat -> Cell, a: nat)
    ensures Memory(cfg, [t, u], ddr, a) ==
            if Wrote(cfg, u, a) then LeftBy(cfg, u, a) else if Wrote(cfg, t, a) then LeftBy(cfg, t, a) else ddr(a)
  {
    hide Wrote, LeftBy;
    assert [t, u][..1] == [t];
    assert Memory(cfg, [t], ddr, a) == if Wrote(cfg, t, a) then LeftBy(cfg, t, a) else ddr(a);
  }

  /** Two simple applications, the second loaded one word above the first: the first keeps
      its first word only. */
  lemma OverlapSpoils(cfg: Config, headers: seq<Header>, m: Machine, k: nat)
    requires |headers| == 3 && Simple(headers[1]) && Simple(headers[2])
    requires LoadAddr(headers[2]) == LoadAddr(headers[1]) + 4 && k < 4000
    ensures var taken := [Taken(1, headers[1], Ps), Taken(2, headers[2], Ps)];
            && !LeftAlone(cfg, taken, 0)
            && Effects(m, headers, Ops(cfg, taken)).ddr(LoadAddr(headers[1]) + k) == if k < 4 then Raw(1, k) else Raw(2, k - 4)
  {
    hide Effects, Ops, Wrote, LeftBy, Whole, Simple, Extent, Memory;
    var t, u, a := Taken(1, headers[1], Ps), Taken(2, headers[2], Ps), LoadAddr(headers[1]) + k;
    SimpleWrites(cfg, 1, headers[1], a);
    SimpleWrites(cfg, 2, headers[2], a);
    MemoryOfTwo(cfg, t, u, m.ddr, a);
    OpsLoad(cfg, headers, [t, u], m, a);
    SimpleMeet(cfg, t, u);
  }

  lemma SimpleMeet(cfg: Config, t: Taken, u: Taken)
    requires Simple(t.header) && Simple(u.header) && t.kind.Ps? && u.kind.Ps?
    requires LoadAddr(u.header) == LoadAddr(t.header) + 4
    ensures !LeftAlone(cfg, [t, u], 0)
  {
    SimpleWrites(cfg, u.p, u.header, 0);
    hide Extent, Verified;
    assert !Apart(cfg, [t, u][1], [t, u][0]);
  }
}
