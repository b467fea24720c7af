/** The boot walk of LAB_2/hdf/image_mover.c in terms of the header words themselves: word 0 the
    image length, 1 the data length, 2 the partition length, 3 the load address, 4 the execution
    address, 6 the attributes, 15 the checksum. */
module BootWords {
  import opened Arithmetic
  import opened BootHeaders
  import opened BootPlan
  import opened BootWalk
  import opened BootSafety
  import opened BootSystem
  import opened BootMemory

  // ---------------------------------------------------------------------------------
  // Plans
  // ---------------------------------------------------------------------------------

  lemma ApplicationStaged(cfg: Config, p: nat, h: Header)
    ensures var image, data, whole, to := h[0] as nat, h[1] as nat, h[2] as nat, h[3] as nat;
            var verified := h[6] as nat / 0x8000 % 2 == 1 || h[6] as nat / 0x1000 % 8 != 0;
            Staging(cfg, p, h, Ps) ==
            if cfg.linear then
              [Transfer(Flash(p), to, if verified then whole else image, if verified then whole else data, image != data && !verified)]
            else
              [Move(Flash(p), to, if verified then whole else image)]
              + if image != data && !verified then [Transfer(Ddr(to), to, image, data, true)] else []
  {
  }

  lemma Checks(cfg: Config, h: Header, kind: Kind)
    requires !kind.Neither?
    ensures var whole, at := h[2] as nat, if kind.Pl? then cfg.ddrStart else h[3] as nat;
            Verification(cfg, h, kind) ==
            (if h[6] as nat / 0x1000 % 8 != 0 then [Check(at, whole)] else [])
            + if h[6] as nat / 0x8000 % 2 == 1 then [Authenticate(at, whole)] else []
  {
  }

  /** Bit 4 of the attributes makes an application.  It is moved to the address of word 3, by the
      processor or by the configuration port; with bits 12 to 14 set it is then checked, with bit
      15 authenticated, over the length of word 2; and where words 0 and 1 differ it is decrypted,
      once, last if it was verified and at once if not. */
  lemma ApplicationInWords(cfg: Config, p: nat, h: Header, kind0: Kind)
    requires h[6] as nat / 0x10 % 2 == 1
    ensures KindOf(kind0, h) == Ps
    ensures var image, data, whole, to := h[0] as nat, h[1] as nat, h[2] as nat, h[3] as nat;
            var signed, summed := h[6] as nat / 0x8000 % 2 == 1, h[6] as nat / 0x1000 % 8 != 0;
            var verified, encrypted := signed || summed, image != data;
            Plan(cfg, p, h, Ps) ==
            (if cfg.linear then
               [Transfer(Flash(p), to, if verified then whole else image, if verified then whole else data, encrypted && !verified)]
             else
               [Move(Flash(p), to, if verified then whole else image)]
               + if encrypted && !verified then [Transfer(Ddr(to), to, image, data, true)] else [])
            + ((if summed then [Check(to, whole)] else []) + if signed then [Authenticate(to, whole)] else [])
            + if encrypted && verified then [Transfer(Ddr(to), to, image, data, true)] else []
  {
    hide Staging, Verification;
    ApplicationStaged(cfg, p, h);
    Checks(cfg, h, Ps);
    assert forall s: seq<Op> :: [] + s == s && s + [] == s;
  }

  lemma BitstreamStaged(cfg: Config, p: nat, h: Header)
    ensures var image, whole, at := h[0] as nat, h[2] as nat, cfg.ddrStart;
            var verified := h[6] as nat / 0x8000 % 2 == 1 || h[6] as nat / 0x1000 % 8 != 0;
            Staging(cfg, p, h, Pl) ==
            if !cfg.linear then [Move(Flash(p), at, if verified then whole else image)]
            else if verified then [Transfer(Flash(p), at, whole, whole, false)] else []
  {
  }

  /** Bit 5 without bit 4 makes a bitstream: between the two hooks it goes to the staging area,
      unless a linear device can program it as it lies, is checked and authenticated there, and
      is programmed once. */
  lemma BitstreamInWords(cfg: Config, p: nat, h: Header, kind0: Kind)
    requires h[6] as nat / 0x20 % 2 == 1 && h[6] as nat / 0x10 % 2 == 0
    ensures KindOf(kind0, h) == Pl
    ensures var image, data, whole, at := h[0] as nat, h[1] as nat, h[2] as nat, cfg.ddrStart;
            var signed, summed := h[6] as nat / 0x8000 % 2 == 1, h[6] as nat / 0x1000 % 8 != 0;
            var verified, encrypted := signed || summed, image != data;
            Plan(cfg, p, h, Pl) ==
            [HookBefore]
            + (if !cfg.linear then [Move(Flash(p), at, if verified then whole else image)]
               else if verified then [Transfer(Flash(p), at, whole, whole, false)] else [])
            + ((if summed then [Check(at, whole)] else []) + if signed then [Authenticate(at, whole)] else [])
            + [Load(if cfg.linear && !verified then Flash(p) else Ddr(at), image, data, encrypted)]
            + [HookAfter]
  {
    hide Staging, Verification;
    BitstreamStaged(cfg, p, h);
    Checks(cfg, h, Pl);
  }

  /** A partition is read whole if its data length is 0, or its image length is not and all its
      bytes are among those moved: four a word, and by the processor modulo 2^32. */
  lemma WholeInWords(cfg: Config, h: Header)
    ensures var words := if h[6] as nat / 0x1000 % 16 != 0 then h[2] as nat else h[0] as nat;
            Whole(cfg, h) <==>
            h[1] == 0 || (h[0] != 0 && 4 * h[0] as nat <= if cfg.linear then 4 * words else 4 * words % 0x1_0000_0000)
  {
    VerifiedInWords(h);
    hide Verified;
  }

  lemma VerifiedInWords(h: Header)
    ensures Verified(h) <==> h[6] as nat / 0x1000 % 16 != 0
  {
    var a := h[6] as nat / 0x1000;
    assert h[6] as nat / 0x8000 == a / 8 && a % 16 == a / 8 % 2 * 8 + a % 8;
  }

  /** A whole application's bytes then lie from the address of word 3 on, word 1 words of them,
      in the clear. */
  lemma ApplicationInMemory(cfg: Config, p: nat, h: Header, m: Machine, headers: seq<Header>, k: nat)
    requires p < |headers| && headers[p] == h && Whole(cfg, h) && k < 4 * h[1] as nat
    ensures Effects(m, headers, Plan(cfg, p, h, Ps)).ddr(h[3] as nat + k) == if h[0] != h[1] then Plain(p, k) else Raw(p, k)
  {
    hide Plan, Effects, Whole;
    ApplicationDelivered(cfg, p, h, m, headers);
    DeliveredInWords(Effects(m, headers, Plan(cfg, p, h, Ps)).ddr, p, h, k);
  }

  lemma DeliveredInWords(ddr: nat -> Cell, p: nat, h: Header, k: nat)
    requires Delivered(ddr, p, h) && k < 4 * h[1] as nat
    ensures ddr(h[3] as nat + k) == if h[0] != h[1] then Plain(p, k) else Raw(p, k)
  {
    assert DeliveredAt(ddr, p, h, k);
  }

  // ---------------------------------------------------------------------------------
  // Walks
  // ---------------------------------------------------------------------------------

  /** What becomes of a header, by its words: refused unless word 15 is the complement of the sum
      of the other fifteen and the image length is at most 2^30; skipped unless bits 16 and 17 are
      clear; the end of the walk if it is a bitstream after an application, or an application
      neither signed nor encrypted for address 0 below the DDR; refused if it is not encrypted
      where that is mandatory, or an application for an address outside the DDR. */
  lemma VerdictInWords(cfg: Config, h: Header, previous: Kind, application: bool)
    ensures var attr, v := h[6] as nat, Judge(cfg, h, previous, application);
            var isApplication := attr / 0x10 % 2 == 1 || (attr / 0x20 % 2 == 0 && previous.Ps?);
            if h[15] as int != 0xFFFF_FFFF - WordSum(h) || h[0] as nat > 0x4000_0000 then v == Reject(InvalidHeaderFail)
            else if attr / 0x1_0000 % 4 != 0 then v == Skip
            else if attr / 0x20 % 2 == 1 && application then v == Stop
            else if cfg.encOnly && h[0] == h[1] then v == Reject(PartitionLoadFail)
            else if !isApplication || cfg.ddrStart <= h[3] as nat <= cfg.ddrEnd then v == Take
            else if h[3] == 0 && cfg.ddrStart > 0 && attr / 0x8000 % 2 == 0 && h[0] == h[1] then v == Stop
            else v == Reject(InvalidLoadAddressFail)
  {
    SumInWords(h);
    hide SumOf, WordSum;
  }

  /** The code reported for an operation that fails, where `verified` says that one of bits 12 to
      15 is set. */
  lemma CodesInWords(h: Header, from: Place, at: nat, words: nat, dataWords: nat, secure: bool)
    ensures var verified := h[6] as nat / 0x1000 % 16 != 0;
            && FailureCode(h, HookBefore) == BeforeBitstreamHookFail
            && FailureCode(h, Move(from, at, words)) == PartitionMoveFail
            && FailureCode(h, Transfer(from, at, words, dataWords, secure)) ==
               (if secure && verified then DecryptionFail else PartitionMoveFail)
            && FailureCode(h, Check(at, words)) == PartitionChecksumFail
            && FailureCode(h, Authenticate(at, words)) == AuthenticationFail
            && FailureCode(h, Load(from, words, dataWords, secure)) ==
               (if verified then BitstreamDownloadFail else PartitionMoveFail)
            && FailureCode(h, HookAfter) == AfterBitstreamHookFail
  {
    VerifiedInWords(h);
    hide Verified;
  }

  /** A header is loaded only if bits 16 and 17 are clear, the image length is at most 2^30, word 15
      is the complement of the sum of the other fifteen, with bit 4 set the load address lies in
      the DDR, and words 0 and 1 differ where encryption is mandatory. */
  lemma TakenInWords(cfg: Config, headers: seq<Header>, kind0: Kind, p: nat, i: nat)
    requires p <= |headers| && i < |WalkTo(cfg, headers, kind0, p).taken|
    ensures var t := WalkTo(cfg, headers, kind0, p).taken[i];
            var h := t.header;
            && (if cfg.mmc then 0 else 1) <= t.p < p && h == headers[t.p]
            && h[6] as nat / 0x1_0000 % 4 == 0
            && h[0] as nat <= 0x4000_0000
            && h[15] as int == 0xFFFF_FFFF - WordSum(h)
            && (h[6] as nat / 0x10 % 2 == 1 ==> cfg.ddrStart <= h[3] as nat <= cfg.ddrEnd)
            && (cfg.encOnly ==> h[0] != h[1])
  {
    TakenMayLoad(cfg, headers, kind0, p, i);
    SumInWords(WalkTo(cfg, headers, kind0, p).taken[i].header);
    hide WalkTo, SumOf;
  }

  /** The sum of words 0 to 14, in 32 bits. */
  function WordSum(h: Header): int {
    (h[0] as int + h[1] as int + h[2] as int + h[3] as int + h[4] as int
     + h[5] as int + h[6] as int + h[7] as int + h[8] as int + h[9] as int
     + h[10] as int + h[11] as int + h[12] as int + h[13] as int + h[14] as int) % 0x1_0000_0000
  }

  function Total(h: Header, n: nat): int
    requires n <= 15
  {
    if n == 0 then 0 else Total(h, n - 1) + h[n - 1] as int
  }

  lemma SumSnoc(h: Header, n: nat)
    requires n < 15
    ensures SumOf(h[..n + 1]) as int == (SumOf(h[..n]) as int + h[n] as int) % 0x1_0000_0000
  {
    assert h[..n + 1][..n] == h[..n];
  }

  lemma {:induction false} SumIsTotal(h: Header, n: nat)
    requires n <= 15
    ensures SumOf(h[..n]) as int == Total(h, n) % 0x1_0000_0000
  {
    if n > 0 {
      SumIsTotal(h, n - 1);
      SumSnoc(h, n - 1);
      WrapsOnce(Total(h, n - 1), h[n - 1] as int);
    }
  }

  lemma SumInWords(h: Header)
    ensures SumOf(h[..15]) as int == WordSum(h)
  {
    SumIsTotal(h, 15);
    hide SumOf;
    assert Total(h, 1) == h[0] as int;
    assert Total(h, 3) == Total(h, 1) + h[1] as int + h[2] as int;
    assert Total(h, 5) == Total(h, 3) + h[3] as int + h[4] as int;
    assert Total(h, 7) == Total(h, 5) + h[5] as int + h[6] as int;
    assert Total(h, 9) == Total(h, 7) + h[7] as int + h[8] as int;
    assert Total(h, 11) == Total(h, 9) + h[9] as int + h[10] as int;
    assert Total(h, 13) == Total(h, 11) + h[11] as int + h[12] as int;
    assert Total(h, 15) == Total(h, 13) + h[13] as int + h[14] as int;
  }

  /** Every header with bits 16 and 17 clear that the walk gets past is loaded. */
  lemma OwnedInWords(cfg: Config, headers: seq<Header>, kind0: Kind, p: nat, q: nat)
    requires (if cfg.mmc then 0 else 1) <= q < p <= |headers| && Passes(cfg, headers, kind0, p)
    requires headers[q][6] as nat / 0x1_0000 % 4 == 0
    ensures exists i | 0 <= i < |WalkTo(cfg, headers, kind0, p).taken| :: WalkTo(cfg, headers, kind0, p).taken[i].p == q
  {
    OwnedAreTaken(cfg, headers, kind0, p, q);
  }

  lemma {:induction false} FirstPsHasBit(cfg: Config, headers: seq<Header>, kind0: Kind, p: nat, i: nat)
    requires p <= |headers| && i < |WalkTo(cfg, headers, kind0, p).taken| && !kind0.Ps?
    requires var taken := WalkTo(cfg, headers, kind0, p).taken;
             taken[i].kind.Ps? && forall k | 0 <= k < i :: !taken[k].kind.Ps?
    ensures HasPs(WalkTo(cfg, headers, kind0, p).taken[i].header)
  {
    var w, next := WalkTo(cfg, headers, kind0, p - 1), WalkTo(cfg, headers, kind0, p);
    WalkAdvances(cfg, headers, kind0, p);
    AdvanceTakes(cfg, w, p - 1, headers[p - 1]);
    LastKind(cfg, headers, kind0, p - 1);
    hide Judge, WalkTo, Advance, MayLoad, HasPs, HasPl;
    assert next != w ==> forall k | 0 <= k < |w.taken| :: next.taken[k] == w.taken[k];
    if i < |w.taken| {
      FirstPsHasBit(cfg, headers, kind0, p - 1, i);
    }
  }

  /** Unless the flags were left at application: the address handed over is word 4 of the first
      header taken with bit 4 set, or 0 when there is none. */
  lemma ExecInWords(cfg: Config, headers: seq<Header>, kind0: Kind, p: nat)
    requires p <= |headers| && !kind0.Ps?
    ensures var w := WalkTo(cfg, headers, kind0, p);
            || ((forall i | 0 <= i < |w.taken| :: w.taken[i].header[6] as nat / 0x10 % 2 == 0) && ExecOf(w) == 0)
            || exists i | 0 <= i < |w.taken| ::
                 && w.taken[i].header[6] as nat / 0x10 % 2 == 1 && ExecOf(w) == w.taken[i].header[4] as nat
                 && forall k | 0 <= k < i :: w.taken[k].header[6] as nat / 0x10 % 2 == 0
  {
    var w := WalkTo(cfg, headers, kind0, p);
    ExecIsFirstApplication(cfg, headers, kind0, p);
    forall i | 0 <= i < |w.taken|
      ensures w.taken[i].header[6] as nat / 0x10 % 2 == 1 ==> w.taken[i].kind.Ps?
    {
      TakenMayLoad(cfg, headers, kind0, p, i);
    }
    hide WalkTo;
    if w.exec.Some? {
      var i :| 0 <= i < |w.taken| && w.taken[i].kind.Ps? && w.exec.value == ExecAddr(w.taken[i].header)
               && forall k | 0 <= k < i :: !w.taken[k].kind.Ps?;
      FirstPsHasBit(cfg, headers, kind0, p, i);
    }
  }

  // ---------------------------------------------------------------------------------
  // Whole images
  // ---------------------------------------------------------------------------------

  /** Sixteen words that end a header table. */
  predicate Ends(h: Header) {
    h[15] == 0xFFFF_FFFF
    && h[0] == h[1] == h[2] == h[3] == h[4] == h[5] == h[6] == h[7] == h[8] == h[9] == h[10] == h[11] == h[12] == h[13] == h[14] == 0
  }

  lemma EndsTerminates(h: Header)
    ensures Ends(h) <==> IsTerminator(h)
  {
  }

  /** A table fits with at most 13 partitions before its end, of which, but for MMC, the first is
      the loader's own and another must follow; authentication first reads the headers to the
      staging area. */
  lemma TableInWords(cfg: Config, headers: seq<Header>, count: nat)
    requires |headers| == 14
    ensures Counts(headers, count) && CountFits(cfg, count) <==>
            && count <= 13 && (cfg.mmc || 2 <= count)
            && (forall k | 0 <= k < count :: !Ends(headers[k])) && Ends(headers[count])
    ensures Prelude(cfg) == if cfg.headerAuth then [ReadHeader(cfg.ddrStart), AuthHeader] else []
  {
    hide Ends, IsTerminator;
    forall h
      ensures Ends(h) <==> IsTerminator(h)
    {
      EndsTerminates(h);
    }
  }

  /** A table of an image whose only partition, beside the loader's own, is loaded by it, has bits
      `attr` set and no others, and is neither encrypted nor checked. */
  ghost predicate OnePlain(cfg: Config, headers: seq<Header>, attr: nat) {
    && !cfg.mmc && !cfg.headerAuth && !cfg.encOnly
    && |headers| == 14 && !Ends(headers[0]) && !Ends(headers[1]) && Ends(headers[2])
    && var h := headers[1];
       && h[6] as nat == attr && h[0] == h[1] && h[0] as nat <= 0x4000_0000
       && h[15] as int == 0xFFFF_FFFF - WordSum(h)
  }

  lemma OnePlainCounts(cfg: Config, headers: seq<Header>, attr: nat)
    requires OnePlain(cfg, headers, attr)
    ensures Counts(headers, 2) && CountFits(cfg, 2) && ValidHeader(headers[1])
    ensures WalkTo(cfg, headers, Neither, 1) == Walk(Neither, false, None, [])
  {
    hide IsTerminator, SumOf;
    EndsTerminates(headers[0]);
    EndsTerminates(headers[1]);
    EndsTerminates(headers[2]);
    SumInWords(headers[1]);
  }

  lemma PlainApplication(cfg: Config, h: Header)
    requires h[6] == 0x10 && h[0] == h[1]
    ensures KindOf(Neither, h) == Ps && !IsSigned(h)
    ensures Plan(cfg, 1, h, Ps) ==
            if cfg.linear then [Transfer(Flash(1), h[3] as nat, h[0] as nat, h[0] as nat, false)]
            else [Move(Flash(1), h[3] as nat, h[0] as nat)]
  {
    hide Plan;
    ApplicationInWords(cfg, 1, h, Neither);
  }

  lemma PlainBitstream(cfg: Config, h: Header)
    requires h[6] == 0x20 && h[0] == h[1]
    ensures KindOf(Neither, h) == Pl && !IsSigned(h)
    ensures Plan(cfg, 1, h, Pl) ==
            if cfg.linear then [HookBefore, Load(Flash(1), h[0] as nat, h[0] as nat, false), HookAfter]
            else [HookBefore, Move(Flash(1), cfg.ddrStart, h[0] as nat),
                  Load(Ddr(cfg.ddrStart), h[0] as nat, h[0] as nat, false), HookAfter]
  {
    hide Plan;
    BitstreamInWords(cfg, 1, h, Neither);
  }

  /** An image of one plain application, with attribute word 0x10: a boot from reset in which
      nothing fails moves word 0 words to the address of word 3, and hands over to word 4. */
  lemma OneApplicationBoots(cfg: Config, headers: seq<Header>, fails: nat -> bool, start: nat)
    requires OnePlain(cfg, headers, 0x10) && forall k :: !fails(k)
    requires cfg.ddrStart <= headers[1][3] as nat <= cfg.ddrEnd
    ensures HandsOver(cfg, fails, headers, Neither, start, 2, 2)
    ensures var h, w := headers[1], WalkTo(cfg, headers, Neither, 2);
            && ExecOf(w) == h[4] as nat
            && Prelude(cfg) + Ops(cfg, w.taken) ==
               if cfg.linear then [Transfer(Flash(1), h[3] as nat, h[0] as nat, h[0] as nat, false)]
               else [Move(Flash(1), h[3] as nat, h[0] as nat)]
  {
    hide Counts, ValidHeader, WalkTo, Plan, CountFits, Judge, Passes, Supported, Ops, Prelude, IsSigned, Ends, KindOf, WordSum;
    OnePlainCounts(cfg, headers, 0x10);
    VerdictInWords(cfg, headers[1], Neither, false);
    PlainApplication(cfg, headers[1]);
    OneTaken(cfg, headers, Ps);
  }

  /** An image of one plain bitstream, with attribute word 0x20, is programmed into the fabric
      once, and the boot hands over to 0. */
  lemma OneBitstreamBoots(cfg: Config, headers: seq<Header>, fails: nat -> bool, start: nat)
    requires OnePlain(cfg, headers, 0x20) && forall k :: !fails(k)
    ensures HandsOver(cfg, fails, headers, Neither, start, 2, 2)
    ensures var h, w := headers[1], WalkTo(cfg, headers, Neither, 2);
            && ExecOf(w) == 0
            && Prelude(cfg) + Ops(cfg, w.taken) ==
               if cfg.linear then [HookBefore, Load(Flash(1), h[0] as nat, h[0] as nat, false), HookAfter]
               else [HookBefore, Move(Flash(1), cfg.ddrStart, h[0] as nat),
                     Load(Ddr(cfg.ddrStart), h[0] as nat, h[0] as nat, false), HookAfter]
  {
    hide Counts, ValidHeader, WalkTo, Plan, CountFits, Judge, Passes, Supported, Ops, Prelude, IsSigned, Ends, KindOf, WordSum;
    OnePlainCounts(cfg, headers, 0x20);
    VerdictInWords(cfg, headers[1], Neither, false);
    PlainBitstream(cfg, headers[1]);
    OneTaken(cfg, headers, Pl);
  }

  lemma OpsOfOne(cfg: Config, t: Taken)
    ensures Ops(cfg, [t]) == Plan(cfg, t.p, t.header, t.kind)
    ensures Supported(cfg, [t]) <==> IsSigned(t.header) ==> cfg.rsa
  {
    hide Plan, IsSigned;
    assert [t][..0] == [] && Ops(cfg, []) == [];
    assert Supported(cfg, [t]) ==> (IsSigned([t][0].header) ==> cfg.rsa);
  }

  lemma OneTaken(cfg: Config, headers: seq<Header>, kind: Kind)
    requires |headers| == 14 && !cfg.mmc && !cfg.headerAuth
    requires WalkTo(cfg, headers, Neither, 1) == Walk(Neither, false, None, [])
    requires Judge(cfg, headers[1], Neither, false) == Take && KindOf(Neither, headers[1]) == kind
    ensures Passes(cfg, headers, Neither, 2)
    ensures var w := WalkTo(cfg, headers, Neither, 2);
            && w.taken == [Taken(1, headers[1], kind)] && ExecOf(w) == (if kind.Ps? then headers[1][4] as nat else 0)
            && Prelude(cfg) + Ops(cfg, w.taken) == Plan(cfg, 1, headers[1], kind)
            && (Supported(cfg, w.taken) <==> IsSigned(headers[1]) ==> cfg.rsa)
  {
    hide Judge, Plan, KindOf, WalkTo, Ops, Supported, IsSigned;
    WalkAdvances(cfg, headers, Neither, 2);
    OpsOfOne(cfg, Taken(1, headers[1], kind));
    assert VerdictAt(cfg, headers, Neither, 1) == Take;
  }
}
