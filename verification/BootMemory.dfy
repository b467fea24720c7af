/** What the operations of a plan do to memory and fabric, byte by byte. */
module BootMemory {
  import opened BootHeaders
  import opened BootPlan

  /** What a byte is: byte `k` of a partition as the boot device holds it, byte `k` of an
      encrypted partition in the clear, a byte of the header table, or none of these. */
  datatype Cell = Raw(p: nat, k: nat) | Plain(p: nat, k: nat) | Table(k: nat) | Garbage

  /** The fabric holds the streams programmed into it, in order. */
  datatype Machine = Machine(ddr: nat -> Cell, fabric: seq<seq<Cell>>)

  const HEADER_BYTES: nat := 64 + 14 * 64 + 14 * 64 + 64 + 0x6C0 // TOTAL_HEADER_SIZE + RSA_SIGNATURE_SIZE

  /** A word count shifted left by two, in 32 bits. */
  function ByteLen(words: nat): nat {
    words * 4 % 0x1_0000_0000
  }

  // ---------------------------------------------------------------------------------
  // Operations
  // ---------------------------------------------------------------------------------

  function Raws(p: nat, n: nat): (s: seq<Cell>)
    ensures |s| == n
  {
    seq(n, k requires 0 <= k < n => Raw(p, k))
  }

  function Plains(p: nat, n: nat): (s: seq<Cell>)
    ensures |s| == n
  {
    seq(n, k requires 0 <= k < n => Plain(p, k))
  }

  function Put(ddr: nat -> Cell, to: nat, bytes: seq<Cell>): nat -> Cell {
    (a: nat) => if to <= a < to + |bytes| then bytes[a - to] else ddr(a)
  }

  function Fetched(m: Machine, from: Place, n: nat): (s: seq<Cell>)
    ensures |s| == n
  {
    match from
    case Flash(p) => Raws(p, n)
    case Ddr(at) => seq(n, k requires 0 <= k < n => m.ddr(at + k))
  }

  /** The whole of an encrypted partition, to be decrypted to as many words as it says. */
  predicate Decrypts(headers: seq<Header>, s: seq<Cell>, words: nat) {
    && s != [] && s[0].Raw? && s[0].p < |headers|
    && var h := headers[s[0].p];
       IsEncrypted(h) && words == DataWordLen(h) && s == Raws(s[0].p, 4 * ImageWordLen(h))
  }

  /** What comes out of the configuration port; decrypting anything but a whole encrypted
      partition spoils it. */
  function Streamed(headers: seq<Header>, s: seq<Cell>, words: nat, secure: bool): (r: seq<Cell>)
    ensures |r| == 4 * words
  {
    if !secure then seq(4 * words, k requires 0 <= k < 4 * words => if k < |s| then s[k] else Garbage)
    else if Decrypts(headers, s, words) then Plains(s[0].p, 4 * words)
    else seq(4 * words, _ => Garbage)
  }

  function Effect(m: Machine, headers: seq<Header>, op: Op): Machine {
    match op
    case ReadHeader(to) =>
      m.(ddr := Put(m.ddr, to, seq(HEADER_BYTES, k requires 0 <= k < HEADER_BYTES => Table(k))))
    case Move(from, to, words) => m.(ddr := Put(m.ddr, to, Fetched(m, from, ByteLen(words))))
    case Transfer(from, to, words, dataWords, secure) =>
      m.(ddr := Put(m.ddr, to, Streamed(headers, Fetched(m, from, 4 * words), dataWords, secure)))
    case Load(from, words, dataWords, secure) =>
      m.(fabric := m.fabric + [Streamed(headers, Fetched(m, from, 4 * words), dataWords, secure)])
    case _ => m
  }

  function Effects(m: Machine, headers: seq<Header>, ops: seq<Op>): Machine {
    if ops == [] then m else Effect(Effects(m, headers, ops[..|ops| - 1]), headers, ops[|ops| - 1])
  }

  lemma {:induction false} EffectsConcat(m: Machine, headers: seq<Header>, s: seq<Op>, t: seq<Op>)
    ensures Effects(m, headers, s + t) == Effects(Effects(m, headers, s), headers, t)
  {
    if t == [] {
      assert s + t == s;
    } else {
      assert (s + t)[..|s + t| - 1] == s + t[..|t| - 1];
      EffectsConcat(m, headers, s, t[..|t| - 1]);
    }
  }

  lemma EffectsOne(m: Machine, headers: seq<Header>, op: Op)
    ensures Effects(m, headers, [op]) == Effect(m, headers, op)
  {
  }

  lemma VerificationIsInert(cfg: Config, h: Header, kind: Kind, m: Machine, headers: seq<Header>)
    ensures Effects(m, headers, Verification(cfg, h, kind)) == m
  {
    var at, n := StageAddr(cfg, h, kind), PartitionWordLen(h);
    var s := if HasChecksum(h) then [Check(at, n)] else [];
    var t := if IsSigned(h) then [Authenticate(at, n)] else [];
    EffectsConcat(m, headers, s, t);
    EffectsOne(m, headers, Check(at, n));
    EffectsOne(m, headers, Authenticate(at, n));
  }

  /** The plan's effect is that of staging and using alone. */
  lemma PlanEffects(cfg: Config, p: nat, h: Header, kind: Kind, m: Machine, headers: seq<Header>)
    ensures Effects(m, headers, Plan(cfg, p, h, kind)) ==
            Effects(Effects(m, headers, Staging(cfg, p, h, kind)), headers, Using(cfg, p, h, kind))
  {
    var before := if kind.Pl? then [HookBefore] else [];
    var after := if kind.Pl? then [HookAfter] else [];
    var stage, verify, use := Staging(cfg, p, h, kind), Verification(cfg, h, kind), Using(cfg, p, h, kind);
    hide Staging, Verification, Using, Put, Fetched, Streamed;
    EffectsConcat(m, headers, before + stage + verify + use, after);
    EffectsConcat(m, headers, before + stage + verify, use);
    EffectsConcat(m, headers, before + stage, verify);
    EffectsConcat(m, headers, before, stage);
    VerificationIsInert(cfg, h, kind, Effects(Effects(m, headers, before), headers, stage), headers);
    EffectsOne(m, headers, HookBefore);
    EffectsOne(Effects(m, headers, before + stage + verify + use), headers, HookAfter);
  }

  // ---------------------------------------------------------------------------------
  // Partitions
  // ---------------------------------------------------------------------------------

  /** The bytes of a partition as it is meant to run. */
  function Content(p: nat, h: Header): (s: seq<Cell>)
    ensures |s| == 4 * DataWordLen(h)
  {
    if IsEncrypted(h) then Plains(p, 4 * DataWordLen(h)) else Raws(p, 4 * DataWordLen(h))
  }

  /** Bytes read from the boot device; the memory move shifts its word count in 32 bits. */
  function BytesRead(cfg: Config, h: Header): nat {
    if cfg.linear then 4 * StageWords(h) else ByteLen(StageWords(h))
  }

  /** There is nothing to deliver, or all of the image is read. */
  predicate Whole(cfg: Config, h: Header) {
    DataWordLen(h) == 0 || (0 < ImageWordLen(h) && 4 * ImageWordLen(h) <= BytesRead(cfg, h))
  }

  /** How many bytes of memory a partition takes, from its staging address on. */
  function Extent(cfg: Config, h: Header, kind: Kind): nat {
    match kind
    case Neither => if cfg.linear then 0 else BytesRead(cfg, h)
    case Ps =>
      var decrypted := if IsEncrypted(h) then 4 * DataWordLen(h) else 0;
      if (cfg.linear && IsEncrypted(h) && !Verified(h)) || BytesRead(cfg, h) < decrypted then decrypted
      else BytesRead(cfg, h)
    case Pl => if cfg.linear && !Verified(h) then 0 else BytesRead(cfg, h)
  }

  predicate Reaches(cfg: Config, h: Header, kind: Kind, a: nat) {
    StageAddr(cfg, h, kind) <= a < StageAddr(cfg, h, kind) + Extent(cfg, h, kind)
  }

  /** The k-th byte of that memory afterwards. */
  function LeftAt(p: nat, h: Header, kind: Kind, k: nat): Cell {
    if kind.Ps? && IsEncrypted(h) && k < 4 * DataWordLen(h) then Plain(p, k) else Raw(p, k)
  }

  lemma DecryptsWhole(headers: seq<Header>, p: nat, h: Header)
    requires p < |headers| && headers[p] == h && IsEncrypted(h) && 0 < ImageWordLen(h)
    ensures Streamed(headers, Raws(p, 4 * ImageWordLen(h)), DataWordLen(h), true) == Plains(p, 4 * DataWordLen(h))
  {
    assert Decrypts(headers, Raws(p, 4 * ImageWordLen(h)), DataWordLen(h));
  }

  lemma StreamsWhole(headers: seq<Header>, p: nat, words: nat)
    ensures Streamed(headers, Raws(p, 4 * words), words, false) == Raws(p, 4 * words)
  {
  }

  /** What was put in memory is read back. */
  lemma ReadBack(m: Machine, to: nat, p: nat, n: nat, k: nat)
    requires n <= k
    ensures Fetched(m.(ddr := Put(m.ddr, to, Raws(p, k))), Ddr(to), n) == Raws(p, n)
  {
  }

  /** The output of the port for a whole image is its content. */
  lemma StreamsContent(headers: seq<Header>, p: nat, h: Header)
    requires p < |headers| && headers[p] == h && (DataWordLen(h) == 0 || 0 < ImageWordLen(h))
    ensures Streamed(headers, Raws(p, 4 * ImageWordLen(h)), DataWordLen(h), IsEncrypted(h)) == Content(p, h)
  {
    if IsEncrypted(h) && DataWordLen(h) > 0 {
      DecryptsWhole(headers, p, h);
    } else if !IsEncrypted(h) {
      StreamsWhole(headers, p, ImageWordLen(h));
    }
  }

  /** Decrypted or programmed out of memory where its bytes were moved. */
  lemma StreamsMoved(cfg: Config, m: Machine, headers: seq<Header>, to: nat, p: nat, h: Header)
    requires p < |headers| && headers[p] == h && Whole(cfg, h)
    ensures var moved := m.(ddr := Put(m.ddr, to, Raws(p, BytesRead(cfg, h))));
            Streamed(headers, Fetched(moved, Ddr(to), 4 * ImageWordLen(h)), DataWordLen(h), IsEncrypted(h)) == Content(p, h)
  {
    hide Put, Fetched, Streamed, Content, BytesRead;
    if DataWordLen(h) > 0 {
      ReadBack(m, to, p, 4 * ImageWordLen(h), BytesRead(cfg, h));
      StreamsContent(headers, p, h);
    }
  }

  /** Memory once a partition is staged. */
  function StagedIn(cfg: Config, p: nat, h: Header, kind: Kind, ddr: nat -> Cell): nat -> Cell {
    var to, now, moved := StageAddr(cfg, h, kind), IsEncrypted(h) && !Verified(h), Raws(p, BytesRead(cfg, h));
    match kind
    case Neither => if cfg.linear then ddr else Put(ddr, to, moved)
    case Ps =>
      if now then Put(if cfg.linear then ddr else Put(ddr, to, moved), to, Content(p, h))
      else Put(ddr, to, moved)
    case Pl => if cfg.linear && !Verified(h) then ddr else Put(ddr, to, moved)
  }

  lemma StagesNeither(cfg: Config, p: nat, h: Header, m: Machine, headers: seq<Header>)
    ensures Effects(m, headers, Staging(cfg, p, h, Neither)) == m.(ddr := StagedIn(cfg, p, h, Neither, m.ddr))
  {
    hide Put, Streamed;
    EffectsOne(m, headers, Move(Flash(p), LoadAddr(h), StageWords(h)));
  }

  lemma StagesPl(cfg: Config, p: nat, h: Header, m: Machine, headers: seq<Header>)
    ensures Effects(m, headers, Staging(cfg, p, h, Pl)) == m.(ddr := StagedIn(cfg, p, h, Pl, m.ddr))
  {
    hide Put, Streamed;
    EffectsOne(m, headers, Move(Flash(p), cfg.ddrStart, StageWords(h)));
    EffectsOne(m, headers, Transfer(Flash(p), cfg.ddrStart, StageWords(h), StageDataWords(h), false));
    StreamsWhole(headers, p, StageWords(h));
  }

  lemma StagesPs(cfg: Config, p: nat, h: Header, m: Machine, headers: seq<Header>)
    requires p < |headers| && headers[p] == h && Whole(cfg, h)
    ensures Effects(m, headers, Staging(cfg, p, h, Ps)) == m.(ddr := StagedIn(cfg, p, h, Ps, m.ddr))
  {
    var to, n, d, now := LoadAddr(h), StageWords(h), StageDataWords(h), IsEncrypted(h) && !Verified(h);
    hide Put, Streamed, Content, Raws;
    EffectsOne(m, headers, Move(Flash(p), to, n));
    EffectsOne(m, headers, Transfer(Flash(p), to, n, d, now));
    StreamsWhole(headers, p, n);
    if now && cfg.linear {
      StreamsContent(headers, p, h);
    } else if now {
      StreamsMoved(cfg, m, headers, to, p, h);
      EffectsConcat(m, headers, [Move(Flash(p), to, n)], [Transfer(Ddr(to), to, n, d, true)]);
      EffectsOne(Effects(m, headers, [Move(Flash(p), to, n)]), headers, Transfer(Ddr(to), to, n, d, true));
    } else {
      assert [Move(Flash(p), to, n)] + [] == [Move(Flash(p), to, n)];
    }
  }

  /** Memory once its plan is done. */
  function DoneIn(cfg: Config, p: nat, h: Header, kind: Kind, ddr: nat -> Cell): nat -> Cell {
    if kind.Ps? && IsEncrypted(h) && Verified(h)
    then Put(StagedIn(cfg, p, h, kind, ddr), StageAddr(cfg, h, kind), Content(p, h))
    else StagedIn(cfg, p, h, kind, ddr)
  }

  lemma PlanDone(cfg: Config, p: nat, h: Header, kind: Kind, m: Machine, headers: seq<Header>)
    requires p < |headers| && headers[p] == h && Whole(cfg, h)
    ensures Effects(m, headers, Plan(cfg, p, h, kind)) ==
            Machine(DoneIn(cfg, p, h, kind, m.ddr), m.fabric + if kind.Pl? then [Content(p, h)] else [])
  {
    PlanEffects(cfg, p, h, kind, m, headers);
    hide Plan, Put, Streamed, Fetched, Content, Raws, Whole, Staging;
    var at := StageAddr(cfg, h, kind);
    match kind
    case Neither =>
      StagesNeither(cfg, p, h, m, headers);
    case Ps =>
      StagesPs(cfg, p, h, m, headers);
      StreamsMoved(cfg, m, headers, at, p, h);
      EffectsOne(m.(ddr := StagedIn(cfg, p, h, Ps, m.ddr)), headers, Transfer(Ddr(at), at, ImageWordLen(h), DataWordLen(h), true));
    case Pl =>
      StagesPl(cfg, p, h, m, headers);
      var staged := m.(ddr := StagedIn(cfg, p, h, Pl, m.ddr));
      var from := if cfg.linear && !Verified(h) then Flash(p) else Ddr(at);
      EffectsOne(staged, headers, Load(from, ImageWordLen(h), DataWordLen(h), IsEncrypted(h)));
      if cfg.linear && !Verified(h) {
        FetchedImage(cfg, m, headers, p, h);
      } else {
        StreamsMoved(cfg, m, headers, at, p, h);
      }
  }

  lemma FetchedImage(cfg: Config, m: Machine, headers: seq<Header>, p: nat, h: Header)
    requires p < |headers| && headers[p] == h && Whole(cfg, h)
    ensures Streamed(headers, Fetched(m, Flash(p), 4 * ImageWordLen(h)), DataWordLen(h), IsEncrypted(h)) == Content(p, h)
  {
    StreamsContent(headers, p, h);
  }

  /** A plan, however the partition is protected, leaves in its extent the partition's bytes,
      decrypted when it is an application, and every other byte as it was; a bitstream is
      programmed once, decrypted. */
  lemma PlanMemory(cfg: Config, p: nat, h: Header, kind: Kind, m: Machine, headers: seq<Header>, a: nat)
    requires p < |headers| && headers[p] == h && Whole(cfg, h)
    ensures var after := Effects(m, headers, Plan(cfg, p, h, kind));
            && after.ddr(a) == (if Reaches(cfg, h, kind, a) then LeftAt(p, h, kind, a - StageAddr(cfg, h, kind)) else m.ddr(a))
            && after.fabric == m.fabric + if kind.Pl? then [Content(p, h)] else []
  {
    PlanDone(cfg, p, h, kind, m, headers);
    hide Plan, Effects, ByteLen, StageAddr;
  }

  // ---------------------------------------------------------------------------------
  // When a partition is delivered
  // ---------------------------------------------------------------------------------

  /** The partition lies at its load address as it is meant to run. */
  ghost predicate Delivered(ddr: nat -> Cell, p: nat, h: Header) {
    forall k | 0 <= k < 4 * DataWordLen(h) :: DeliveredAt(ddr, p, h, k)
  }

  predicate DeliveredAt(ddr: nat -> Cell, p: nat, h: Header, k: nat)
    requires k < 4 * DataWordLen(h)
  {
    ddr(LoadAddr(h) + k) == Content(p, h)[k]
  }

  /** Memory that holds nothing of use. */
  function Blank(): Machine {
    Machine((a: nat) => Garbage, [])
  }

  function Moved(cfg: Config, p: nat, h: Header, to: nat): Machine {
    Blank().(ddr := Put(Blank().ddr, to, Raws(p, BytesRead(cfg, h))))
  }

  /** Read back beyond what was moved, or with no word to decrypt, the image is spoiled. */
  lemma StreamSpoiled(cfg: Config, headers: seq<Header>, to: nat, p: nat, h: Header)
    requires !Whole(cfg, h)
    ensures var k := if IsEncrypted(h) then 0 else BytesRead(cfg, h);
            && k < 4 * DataWordLen(h)
            && Streamed(headers, Fetched(Moved(cfg, p, h, to), Ddr(to), 4 * ImageWordLen(h)), DataWordLen(h), IsEncrypted(h))[k] == Garbage
  {
    var s := Fetched(Moved(cfg, p, h, to), Ddr(to), 4 * ImageWordLen(h));
    if s != [] {
      assert s[|s| - 1] == Garbage;
    }
    hide BytesRead, Whole;
  }

  /** The memory before the last transfer of an encrypted application. */
  lemma EncryptedPlan(cfg: Config, p: nat, h: Header, m: Machine, headers: seq<Header>)
    requires IsEncrypted(h)
    ensures var to, moved := LoadAddr(h), m.(ddr := Put(m.ddr, LoadAddr(h), Raws(p, BytesRead(cfg, h))));
            Effects(m, headers, Plan(cfg, p, h, Ps)) ==
            if cfg.linear && !Verified(h)
            then Effect(m, headers, Transfer(Flash(p), to, ImageWordLen(h), DataWordLen(h), true))
            else Effect(moved, headers, Transfer(Ddr(to), to, ImageWordLen(h), DataWordLen(h), true))
  {
    var to, n, d := LoadAddr(h), StageWords(h), StageDataWords(h);
    PlanEffects(cfg, p, h, Ps, m, headers);
    hide Plan, Put, Streamed, Raws;
    EffectsOne(m, headers, Move(Flash(p), to, n));
    EffectsOne(m, headers, Transfer(Flash(p), to, n, d, !Verified(h)));
    StreamsWhole(headers, p, n);
    var moved := m.(ddr := Put(m.ddr, to, Raws(p, BytesRead(cfg, h))));
    EffectsOne(moved, headers, Transfer(Ddr(to), to, ImageWordLen(h), DataWordLen(h), true));
    EffectsConcat(m, headers, [Move(Flash(p), to, n)], [Transfer(Ddr(to), to, n, d, true)]);
  }

  lemma ClearPlan(cfg: Config, p: nat, h: Header, m: Machine, headers: seq<Header>)
    requires !IsEncrypted(h)
    ensures Effects(m, headers, Plan(cfg, p, h, Ps)) == m.(ddr := Put(m.ddr, LoadAddr(h), Raws(p, BytesRead(cfg, h))))
  {
    var to, n, d := LoadAddr(h), StageWords(h), StageDataWords(h);
    PlanEffects(cfg, p, h, Ps, m, headers);
    hide Plan, Put, Streamed, Raws;
    EffectsOne(m, headers, Move(Flash(p), to, n));
    EffectsOne(m, headers, Transfer(Flash(p), to, n, d, false));
    StreamsWhole(headers, p, n);
    assert [Move(Flash(p), to, n)] + [] == [Move(Flash(p), to, n)];
  }

  /** Without the whole image, an application on blank memory is not delivered. */
  lemma ApplicationSpoiled(cfg: Config, p: nat, h: Header, headers: seq<Header>)
    requires !Whole(cfg, h)
    ensures !Delivered(Effects(Blank(), headers, Plan(cfg, p, h, Ps)).ddr, p, h)
  {
    var to, after := LoadAddr(h), Effects(Blank(), headers, Plan(cfg, p, h, Ps));
    hide Plan, Effects;
    if IsEncrypted(h) {
      EncryptedPlan(cfg, p, h, Blank(), headers);
      StreamSpoiled(cfg, headers, to, p, h);
      assert !DeliveredAt(after.ddr, p, h, 0);
    } else {
      ClearPlan(cfg, p, h, Blank(), headers);
      assert !DeliveredAt(after.ddr, p, h, BytesRead(cfg, h));
    }
  }

  lemma ApplicationDelivered(cfg: Config, p: nat, h: Header, m: Machine, headers: seq<Header>)
    requires p < |headers| && headers[p] == h && Whole(cfg, h)
    ensures Delivered(Effects(m, headers, Plan(cfg, p, h, Ps)).ddr, p, h)
  {
    hide Plan, Effects, ByteLen, Whole;
    forall k | 0 <= k < 4 * DataWordLen(h)
      ensures DeliveredAt(Effects(m, headers, Plan(cfg, p, h, Ps)).ddr, p, h, k)
    {
      PlanMemory(cfg, p, h, Ps, m, headers, LoadAddr(h) + k);
      WholeReaches(cfg, h, k);
    }
  }

  lemma WholeReaches(cfg: Config, h: Header, k: nat)
    requires Whole(cfg, h) && k < 4 * DataWordLen(h)
    ensures Reaches(cfg, h, Ps, LoadAddr(h) + k)
  {
    hide ByteLen;
  }

  /** An application ends at its load address as it is meant to run, whatever memory held,
      exactly when the whole image is read. */
  lemma ApplicationDeliveredExactlyWhen(cfg: Config, p: nat, h: Header, headers: seq<Header>)
    requires p < |headers| && headers[p] == h
    ensures (forall m :: Delivered(Effects(m, headers, Plan(cfg, p, h, Ps)).ddr, p, h)) <==> Whole(cfg, h)
  {
    hide Plan, Effects, Whole, Delivered;
    if Whole(cfg, h) {
      forall m
        ensures Delivered(Effects(m, headers, Plan(cfg, p, h, Ps)).ddr, p, h)
      {
        ApplicationDelivered(cfg, p, h, m, headers);
      }
    } else {
      ApplicationSpoiled(cfg, p, h, headers);
    }
  }

  /** A bitstream is programmed once and decrypted, whatever memory held, exactly when the
      whole image is read. */
  lemma BitstreamProgrammedExactlyWhen(cfg: Config, p: nat, h: Header, headers: seq<Header>)
    requires p < |headers| && headers[p] == h
    ensures (forall m :: Effects(m, headers, Plan(cfg, p, h, Pl)).fabric == m.fabric + [Content(p, h)]) <==> Whole(cfg, h)
  {
    if Whole(cfg, h) {
      forall m
        ensures Effects(m, headers, Plan(cfg, p, h, Pl)).fabric == m.fabric + [Content(p, h)]
      {
        PlanDone(cfg, p, h, Pl, m, headers);
      }
    } else {
      BitstreamSpoiled(cfg, p, h, headers);
    }
  }

  lemma BitstreamSpoiled(cfg: Config, p: nat, h: Header, headers: seq<Header>)
    requires !Whole(cfg, h)
    ensures Effects(Blank(), headers, Plan(cfg, p, h, Pl)).fabric != Blank().fabric + [Content(p, h)]
  {
    var m, at := Blank(), cfg.ddrStart;
    var staged := m.(ddr := StagedIn(cfg, p, h, Pl, m.ddr));
    var from := if cfg.linear && !Verified(h) then Flash(p) else Ddr(at);
    PlanEffects(cfg, p, h, Pl, m, headers);
    StagesPl(cfg, p, h, m, headers);
    EffectsOne(staged, headers, Load(from, ImageWordLen(h), DataWordLen(h), IsEncrypted(h)));
    StreamSpoiled(cfg, headers, at, p, h);
    hide Plan, Effects, Put;
    var s := Streamed(headers, Fetched(staged, from, 4 * ImageWordLen(h)), DataWordLen(h), IsEncrypted(h));
    var k := if IsEncrypted(h) then 0 else BytesRead(cfg, h);
    assert s[k] != Content(p, h)[k];
    assert Effects(m, headers, Plan(cfg, p, h, Pl)).fabric == m.fabric + [s];
    assert (m.fabric + [s])[0] == s && (m.fabric + [Content(p, h)])[0] == Content(p, h);
  }
}
