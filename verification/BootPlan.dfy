/** What loading one boot partition must do (LAB_2/hdf/image_mover.c), by kind and
    protection. */
module BootPlan {
  import opened BootHeaders

  /** Build options and board facts. */
  datatype Config = Config(
    linear: bool,       // memory-mapped boot device
    rsa: bool,          // RSA_SUPPORT
    mmc: bool,          // MMC_SUPPORT
    headerAuth: bool,   // RSA enabled in the eFuses of silicon after 2.0
    encOnly: bool,      // EFUSE_SEC_EN set: encryption is mandatory
    ddrStart: nat,      // also the staging address DDR_TEMP_START_ADDR
    ddrEnd: nat)

  /** What the two partition flags say: neither is set before the first partition. */
  datatype Kind = Neither | Ps | Pl

  datatype Place = Flash(p: nat) | Ddr(addr: nat)

  datatype Op =
    | ReadHeader(to: nat)                                                        // GetImageHeaderAndSignature
    | AuthHeader
    | HookBefore
    | Move(from: Place, to: nat, words: nat)                                     // MoveImage
    | Transfer(from: Place, to: nat, words: nat, dataWords: nat, secure: bool)   // PcapDataTransfer
    | Check(at: nat, words: nat)                                                 // ValidateParition
    | Authenticate(at: nat, words: nat)                                          // AuthenticatePartition
    | Load(from: Place, words: nat, dataWords: nat, secure: bool)                // PcapLoadPartition
    | HookAfter

  function KindOf(previous: Kind, h: Header): Kind {
    if HasPs(h) then Ps else if HasPl(h) then Pl else previous
  }

  /** Signed or checksummed: verified in memory before use. */
  predicate Verified(h: Header) {
    IsSigned(h) || HasChecksum(h)
  }

  /** Where the partition waits for verification. */
  function StageAddr(cfg: Config, h: Header, kind: Kind): nat {
    if kind.Pl? then cfg.ddrStart else LoadAddr(h)
  }

  function StageWords(h: Header): nat {
    if Verified(h) then PartitionWordLen(h) else ImageWordLen(h)
  }

  function StageDataWords(h: Header): nat {
    if Verified(h) then PartitionWordLen(h) else DataWordLen(h)
  }

  function Staging(cfg: Config, p: nat, h: Header, kind: Kind): seq<Op> {
    var to, n, d := StageAddr(cfg, h, kind), StageWords(h), StageDataWords(h);
    var now := IsEncrypted(h) && !Verified(h);
    match kind
    case Neither => if cfg.linear then [] else [Move(Flash(p), to, n)]
    case Ps =>
      if cfg.linear then [Transfer(Flash(p), to, n, d, now)]
      else [Move(Flash(p), to, n)] + if now then [Transfer(Ddr(to), to, n, d, true)] else []
    case Pl =>
      if !cfg.linear then [Move(Flash(p), to, n)]
      else if Verified(h) then [Transfer(Flash(p), to, n, d, false)]
      else []
  }

  function Verification(cfg: Config, h: Header, kind: Kind): seq<Op> {
    var at, n := StageAddr(cfg, h, kind), PartitionWordLen(h);
    (if HasChecksum(h) then [Check(at, n)] else []) + (if IsSigned(h) then [Authenticate(at, n)] else [])
  }

  /** What is left once the partition is in place: decryption of a verified application,
      programming of a bitstream. */
  function Using(cfg: Config, p: nat, h: Header, kind: Kind): seq<Op> {
    var at := StageAddr(cfg, h, kind);
    match kind
    case Neither => []
    case Ps => if IsEncrypted(h) && Verified(h) then [Transfer(Ddr(at), at, ImageWordLen(h), DataWordLen(h), true)] else []
    case Pl => [Load(if cfg.linear && !Verified(h) then Flash(p) else Ddr(at), ImageWordLen(h), DataWordLen(h), IsEncrypted(h))]
  }

  function Plan(cfg: Config, p: nat, h: Header, kind: Kind): seq<Op> {
    (if kind.Pl? then [HookBefore] else [])
    + Staging(cfg, p, h, kind) + Verification(cfg, h, kind) + Using(cfg, p, h, kind)
    + (if kind.Pl? then [HookAfter] else [])
  }

  /** Operations that decrypt or program. */
  predicate Uses(op: Op) {
    (op.Transfer? && op.secure) || op.Load?
  }

  /** In a verified partition every decryption and every programming comes after the
      checksum, and after the signature, of all the words that were staged. */
  lemma VerifiedBeforeUse(cfg: Config, p: nat, h: Header, kind: Kind, i: nat)
    requires Verified(h) && i < |Plan(cfg, p, h, kind)| && Uses(Plan(cfg, p, h, kind)[i])
    ensures var at, n, plan := StageAddr(cfg, h, kind), PartitionWordLen(h), Plan(cfg, p, h, kind);
            && (HasChecksum(h) ==> Check(at, n) in plan[..i])
            && (IsSigned(h) ==> Authenticate(at, n) in plan[..i])
            && (Move(Flash(p), at, n) in plan[..i] || Transfer(Flash(p), at, n, n, false) in plan[..i])
  {
    var at, n := StageAddr(cfg, h, kind), PartitionWordLen(h);
    var before := if kind.Pl? then [HookBefore] else [];
    var stage, verify, use := Staging(cfg, p, h, kind), Verification(cfg, h, kind), Using(cfg, p, h, kind);
    var plan := Plan(cfg, p, h, kind);
    var head := before + stage + verify;
    forall k | 0 <= k < |head|
      ensures !Uses(plan[k])
    {
      assert plan[k] == head[k];
      assert head[k] in before || head[k] in stage || head[k] in verify;
    }
    assert forall op | op in head :: op in plan[..i] by {
      assert plan[..i][..|head|] == head;
    }
    assert forall op | op in stage || op in verify :: op in head;
  }

  /** The checksum, where there is one, comes before the signature. */
  lemma ChecksumBeforeSignature(cfg: Config, p: nat, h: Header, kind: Kind, i: nat)
    requires HasChecksum(h) && i < |Plan(cfg, p, h, kind)| && Plan(cfg, p, h, kind)[i].Authenticate?
    ensures Check(StageAddr(cfg, h, kind), PartitionWordLen(h)) in Plan(cfg, p, h, kind)[..i]
  {
    var before := if kind.Pl? then [HookBefore] else [];
    var head := before + Staging(cfg, p, h, kind);
    var plan := Plan(cfg, p, h, kind);
    assert plan[|head|] == Check(StageAddr(cfg, h, kind), PartitionWordLen(h));
    assert forall k | 0 <= k <= |head| :: !plan[k].Authenticate?;
    assert plan[..i][|head|] == plan[|head|];
  }
}
