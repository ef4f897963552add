/**
 * The configuration run of bin/paper_feng_init.rb as data: which registers
 * each step writes on one F engine, and the whole run as a trace of
 * (device, register, value) events in which every step writes all devices
 * before the next step begins.
 */
module FengPlan {
  import opened FengAddress

  /** The F engine registers and memories the run writes (one per name the script uses). */
  datatype Reg =
    | EthSwEn | EthGpuEn | Fid | FftShift | EqCoeffs(bram: int)
    | EthSwIp(link: int) | EthSwMac(link: int) | EthSwArp(link: int)
    | EthGpuIp(link: int) | EthGpuMac(link: int) | EthXip(link: int)
    | CtMode | SyncArm | Seed(gen: int) | ArmNoise | InSel
    | EthCntRst | EthGpuRst | EthSwRst

  /** What is written: a word, a block of words at an offset, an input selection, or a strobe. */
  datatype Val = Word(word: int) | Table(offset: int, words: seq<int>) | Inputs(noise: bool) | Pulse

  datatype RegWrite = RegWrite(reg: Reg, val: Val)

  /** One write to register `reg` of device number `dev` (its place in the kept list). */
  datatype Event = Event(dev: int, reg: Reg, val: Val)

  /** The script's options; `resolve` stands for the DNS lookup of a host name. */
  datatype Config = Config(
    eq: int, fftShift: int, ctMode: int, seed: int, sync: bool, noise: bool,
    resolve: string -> int)

  function DefaultConfig(resolve: string -> int): Config {
    Config(600, 2047, 0, 0x1111_1111, true, false, resolve)
  }

  const ArpOffset: int := 0x0c00
  const EqBrams: nat := 16
  const LinksPerEngine: nat := 4
  const NoiseGens: nat := 4

  predicate LinkReg(r: Reg) {
    r.EthSwIp? || r.EthSwMac? || r.EthSwArp? || r.EthGpuIp? || r.EthGpuMac? || r.EthXip?
  }

  predicate ResetReg(r: Reg) {
    r == EthCntRst || r == EthGpuRst || r == EthSwRst
  }

  // ---------------------------------------------------------------- steps

  /** The steps of the run, one per `fe_fids.each` loop of the script. */
  datatype Step =
    | DisableTx | SetFid | SetFftShift | LoadEq | SetupNetwork | SetCtMode
    | SyncClear | SyncSet | SeedNoise | StartNoise
    | SelectInputs | ResetNetwork | EnableGpuTx | EnableSwTx

  function SwLink(fid: int, i: int): seq<RegWrite> {
    [ RegWrite(EthSwIp(i), Word(SwIp(fid, i))),
      RegWrite(EthSwMac(i), Word(SwMac(fid, i))),
      RegWrite(EthSwArp(i), Table(ArpOffset, ArpWords())) ]
  }

  function GpuLink(fid: int, i: int, resolve: string -> int): seq<RegWrite> {
    [ RegWrite(EthGpuIp(i), Word(GpuIp(fid, i))),
      RegWrite(EthGpuMac(i), Word(GpuMac(fid, i))),
      RegWrite(EthXip(i), Word(resolve(PeerName(fid, i)))) ]
  }

  function SwLinks(fid: int, n: nat): seq<RegWrite> {
    if n == 0 then [] else SwLinks(fid, n - 1) + SwLink(fid, n - 1)
  }

  function GpuLinks(fid: int, n: nat, resolve: string -> int): seq<RegWrite> {
    if n == 0 then [] else GpuLinks(fid, n - 1, resolve) + GpuLink(fid, n - 1, resolve)
  }

  function ResetRound(v: int): seq<RegWrite> {
    [RegWrite(EthCntRst, Word(v)), RegWrite(EthGpuRst, Word(v)), RegWrite(EthSwRst, Word(v))]
  }

  /** The same block into each of the 16 EQ BRAMs. */
  function EqWrites(eq: int): seq<RegWrite> {
    seq(EqBrams, i => RegWrite(EqCoeffs(i), Table(0, EqBlock(eq))))
  }

  /** The four switch links, then the four GPU links with their X engine addresses. */
  function NetworkWrites(fid: int, resolve: string -> int): seq<RegWrite> {
    SwLinks(fid, LinksPerEngine) + GpuLinks(fid, LinksPerEngine, resolve)
  }

  function SeedWrites(seed: int): seq<RegWrite> {
    seq(NoiseGens, g => RegWrite(Seed(g), Word(seed)))
  }

  /** The reset pulse: 0, 1, 0, each value to the three reset registers. */
  function ResetWrites(): seq<RegWrite> {
    ResetRound(0) + ResetRound(1) + ResetRound(0)
  }

  /** The writes one step makes to one F engine, in order. */
  function StepWrites(s: Step, fid: int, cfg: Config): seq<RegWrite> {
    match s
    case DisableTx => [RegWrite(EthSwEn, Word(0)), RegWrite(EthGpuEn, Word(0))]
    case SetFid => [RegWrite(Fid, Word(fid))]
    case SetFftShift => [RegWrite(FftShift, Word(cfg.fftShift))]
    case LoadEq => EqWrites(cfg.eq)
    case SetupNetwork => NetworkWrites(fid, cfg.resolve)
    case SetCtMode => [RegWrite(CtMode, Word(cfg.ctMode))]
    case SyncClear => [RegWrite(SyncArm, Word(0))]
    case SyncSet => [RegWrite(SyncArm, Word(1))]
    case SeedNoise => SeedWrites(cfg.seed)
    case StartNoise => [RegWrite(ArmNoise, Pulse)]
    case SelectInputs => [RegWrite(InSel, Inputs(cfg.noise))]
    case ResetNetwork => ResetWrites()
    case EnableGpuTx => [RegWrite(EthGpuEn, Word(1))]
    case EnableSwTx => [RegWrite(EthSwEn, Word(1))]
  }

  /** The registers a step may write. */
  predicate Touches(s: Step, r: Reg) {
    match s
    case DisableTx => r == EthSwEn || r == EthGpuEn
    case SetFid => r == Fid
    case SetFftShift => r == FftShift
    case LoadEq => r.EqCoeffs?
    case SetupNetwork => LinkReg(r)
    case SetCtMode => r == CtMode
    case SyncClear => r == SyncArm
    case SyncSet => r == SyncArm
    case SeedNoise => r.Seed?
    case StartNoise => r == ArmNoise
    case SelectInputs => r == InSel
    case ResetNetwork => ResetReg(r)
    case EnableGpuTx => r == EthGpuEn
    case EnableSwTx => r == EthSwEn
  }

  lemma {:induction false} SwLinksRegs(fid: int, n: nat)
    ensures forall k :: 0 <= k < |SwLinks(fid, n)| ==> LinkReg(SwLinks(fid, n)[k].reg)
  {
    if n > 0 {
      SwLinksRegs(fid, n - 1);
    }
  }

  lemma {:induction false} GpuLinksRegs(fid: int, n: nat, resolve: string -> int)
    ensures forall k :: 0 <= k < |GpuLinks(fid, n, resolve)| ==> LinkReg(GpuLinks(fid, n, resolve)[k].reg)
  {
    if n > 0 {
      GpuLinksRegs(fid, n - 1, resolve);
    }
  }

  /** A step writes only the registers it is said to touch. */
  lemma StepTouches(s: Step, fid: int, cfg: Config)
    ensures forall k :: 0 <= k < |StepWrites(s, fid, cfg)| ==> Touches(s, StepWrites(s, fid, cfg)[k].reg)
  {
    if s == SetupNetwork {
      SwLinksRegs(fid, LinksPerEngine);
      GpuLinksRegs(fid, LinksPerEngine, cfg.resolve);
    }
  }

  // ---------------------------------------------------------------- the run

  /** Writes of one step on device number j. */
  function Tag(j: int, ws: seq<RegWrite>): (t: seq<Event>)
    ensures |t| == |ws|
  {
    seq(|ws|, k requires 0 <= k < |ws| => Event(j, ws[k].reg, ws[k].val))
  }

  function Concat<T>(xs: seq<seq<T>>): seq<T> {
    if xs == [] then [] else Concat(xs[..|xs| - 1]) + xs[|xs| - 1]
  }

  /** One `fe_fids.each` loop: the step on device 0, then device 1, and so on. */
  function Sweep(s: Step, fids: seq<int>, cfg: Config): seq<Event> {
    Concat(seq(|fids|, j requires 0 <= j < |fids| => Tag(j, StepWrites(s, fids[j], cfg))))
  }

  /** Steps one after another, each a full sweep over the devices. */
  function Steps(ss: seq<Step>, fids: seq<int>, cfg: Config): seq<Event> {
    Concat(seq(|ss|, i requires 0 <= i < |ss| => Sweep(ss[i], fids, cfg)))
  }

  const PreSync: seq<Step> := [DisableTx, SetFid, SetFftShift, LoadEq, SetupNetwork, SetCtMode]
  /** One of the two arm rounds. */
  const ArmRound: seq<Step> := [SyncSet, SyncClear]
  const NoiseSetup: seq<Step> := [SeedNoise, StartNoise]
  const PostSync: seq<Step> := [SelectInputs, ResetNetwork, EnableGpuTx, EnableSwTx]

  function SyncSteps(): seq<Step> {
    [SyncClear] + ArmRound + ArmRound + NoiseSetup
  }

  /** The order of the steps; the sync block only when syncing is on. */
  function Schedule(sync: bool): seq<Step> {
    PreSync + (if sync then SyncSteps() else []) + PostSync
  }

  /** Every write of a run that completes, in order. */
  function Plan(fids: seq<int>, cfg: Config): seq<Event> {
    Steps(Schedule(cfg.sync), fids, cfg)
  }

  lemma {:induction false} ConcatAppend<T>(a: seq<seq<T>>, b: seq<seq<T>>)
    ensures Concat(a + b) == Concat(a) + Concat(b)
    decreases |b|
  {
    if b == [] {
      assert a + b == a;
    } else {
      assert (a + b)[..|a + b| - 1] == a + b[..|b| - 1];
      ConcatAppend(a, b[..|b| - 1]);
    }
  }

  lemma StepsAppend(a: seq<Step>, b: seq<Step>, fids: seq<int>, cfg: Config)
    ensures Steps(a + b, fids, cfg) == Steps(a, fids, cfg) + Steps(b, fids, cfg)
  {
    var sa := seq(|a|, i requires 0 <= i < |a| => Sweep(a[i], fids, cfg));
    var sb := seq(|b|, i requires 0 <= i < |b| => Sweep(b[i], fids, cfg));
    assert seq(|a + b|, i requires 0 <= i < |a + b| => Sweep((a + b)[i], fids, cfg)) == sa + sb;
    ConcatAppend(sa, sb);
  }

  /** The last step's sweep comes after all the others. */
  lemma StepsLast(ss: seq<Step>, fids: seq<int>, cfg: Config)
    requires ss != []
    ensures Steps(ss, fids, cfg) == Steps(ss[..|ss| - 1], fids, cfg) + Sweep(ss[|ss| - 1], fids, cfg)
  {
    var xs := seq(|ss|, i requires 0 <= i < |ss| => Sweep(ss[i], fids, cfg));
    assert xs[..|ss| - 1] == seq(|ss| - 1, i requires 0 <= i < |ss| - 1 => Sweep(ss[..|ss| - 1][i], fids, cfg));
  }

  // ---------------------------------------------------------------- per-device view

  /** The values written to register r, in order. */
  function WritesOf(ws: seq<RegWrite>, r: Reg): seq<Val> {
    if ws == [] then []
    else WritesOf(ws[..|ws| - 1], r) + (if ws[|ws| - 1].reg == r then [ws[|ws| - 1].val] else [])
  }

  /** The values written to register r of device j, in order. */
  function Writes(t: seq<Event>, j: int, r: Reg): seq<Val> {
    if t == [] then []
    else
      var e := t[|t| - 1];
      Writes(t[..|t| - 1], j, r) + (if e.dev == j && e.reg == r then [e.val] else [])
  }

  /** Device j's registers after the events of t are applied to m. */
  function Replay(m: map<Reg, Val>, t: seq<Event>, j: int): map<Reg, Val> {
    if t == [] then m
    else
      var e := t[|t| - 1];
      var before := Replay(m, t[..|t| - 1], j);
      if e.dev == j then before[e.reg := e.val] else before
  }

  /** A register's final value is the last value written to it; one never written keeps its value. */
  lemma {:induction false} ReplayLastWrite(m: map<Reg, Val>, t: seq<Event>, j: int, r: Reg)
    ensures Writes(t, j, r) != [] ==>
      r in Replay(m, t, j) && Replay(m, t, j)[r] == Writes(t, j, r)[|Writes(t, j, r)| - 1]
    ensures Writes(t, j, r) == [] ==>
      (r in Replay(m, t, j) <==> r in m) && (r in m ==> Replay(m, t, j)[r] == m[r])
    decreases |t|
  {
    if t != [] {
      ReplayLastWrite(m, t[..|t| - 1], j, r);
    }
  }

  lemma {:induction false} WritesOfAppend(a: seq<RegWrite>, b: seq<RegWrite>, r: Reg)
    ensures WritesOf(a + b, r) == WritesOf(a, r) + WritesOf(b, r)
    decreases |b|
  {
    if b == [] {
      assert a + b == a;
    } else {
      assert (a + b)[..|a + b| - 1] == a + b[..|b| - 1];
      WritesOfAppend(a, b[..|b| - 1], r);
    }
  }

  lemma {:induction false} WritesOfNone(ws: seq<RegWrite>, r: Reg)
    requires forall k :: 0 <= k < |ws| ==> ws[k].reg != r
    ensures WritesOf(ws, r) == []
    decreases |ws|
  {
    if ws != [] {
      WritesOfNone(ws[..|ws| - 1], r);
    }
  }

  /** A step writes nothing to a register it does not touch. */
  lemma UntouchedStep(s: Step, fid: int, cfg: Config, r: Reg)
    requires !Touches(s, r)
    ensures WritesOf(StepWrites(s, fid, cfg), r) == []
  {
    StepTouches(s, fid, cfg);
    WritesOfNone(StepWrites(s, fid, cfg), r);
  }

  lemma {:induction false} WritesAppend(t: seq<Event>, u: seq<Event>, j: int, r: Reg)
    ensures Writes(t + u, j, r) == Writes(t, j, r) + Writes(u, j, r)
    decreases |u|
  {
    if u == [] {
      assert t + u == t;
    } else {
      assert (t + u)[..|t + u| - 1] == t + u[..|u| - 1];
      WritesAppend(t, u[..|u| - 1], j, r);
    }
  }

  lemma {:induction false} WritesTag(i: int, ws: seq<RegWrite>, j: int, r: Reg)
    ensures Writes(Tag(i, ws), j, r) == if i == j then WritesOf(ws, r) else []
    decreases |ws|
  {
    if ws != [] {
      assert Tag(i, ws)[..|ws| - 1] == Tag(i, ws[..|ws| - 1]);
      WritesTag(i, ws[..|ws| - 1], j, r);
    }
  }

  /** Writes to device j in a sweep come only from device j's part of it. */
  lemma {:induction false} WritesSweepAll(s: Step, fids: seq<int>, cfg: Config, j: int, r: Reg)
    requires 0 <= j
    ensures Writes(Sweep(s, fids, cfg), j, r) == if j < |fids| then WritesOf(StepWrites(s, fids[j], cfg), r) else []
    decreases |fids|
  {
    if fids == [] {
      assert Sweep(s, fids, cfg) == [];
    } else {
      var n := |fids| - 1;
      var ws := StepWrites(s, fids[n], cfg);
      SweepLast(s, fids, cfg);
      WritesAppend(Sweep(s, fids[..n], cfg), Tag(n, ws), j, r);
      WritesSweepAll(s, fids[..n], cfg, j, r);
      WritesTag(n, ws, j, r);
      if j < n {
        assert fids[..n][j] == fids[j];
      }
    }
  }

  /** Within one sweep, device j receives exactly that step's writes for its own FID. */
  lemma WritesSweep(s: Step, fids: seq<int>, cfg: Config, j: int, r: Reg)
    requires 0 <= j < |fids|
    ensures Writes(Sweep(s, fids, cfg), j, r) == WritesOf(StepWrites(s, fids[j], cfg), r)
  {
    WritesSweepAll(s, fids, cfg, j, r);
  }

  /** What one step writes to register r of a device with FID `fid`. */
  function StepDevWrites(s: Step, fid: int, cfg: Config, r: Reg): seq<Val> {
    if Touches(s, r) then WritesOf(StepWrites(s, fid, cfg), r) else []
  }

  /** What one device with FID `fid` receives on register r over a list of steps. */
  function DevWrites(ss: seq<Step>, fid: int, cfg: Config, r: Reg): seq<Val> {
    Concat(seq(|ss|, i requires 0 <= i < |ss| => StepDevWrites(ss[i], fid, cfg, r)))
  }

  lemma {:induction false} WritesSteps(ss: seq<Step>, fids: seq<int>, cfg: Config, j: int, r: Reg)
    requires 0 <= j < |fids|
    ensures Writes(Steps(ss, fids, cfg), j, r) == DevWrites(ss, fids[j], cfg, r)
    decreases |ss|
  {
    if ss != [] {
      var n := |ss| - 1;
      var s := ss[n];
      StepsLast(ss, fids, cfg);
      DevWritesLast(ss, fids[j], cfg, r);
      WritesAppend(Steps(ss[..n], fids, cfg), Sweep(s, fids, cfg), j, r);
      WritesSteps(ss[..n], fids, cfg, j, r);
      WritesSweep(s, fids, cfg, j, r);
      if !Touches(s, r) {
        UntouchedStep(s, fids[j], cfg, r);
      }
    }
  }

  lemma DevWritesLast(ss: seq<Step>, fid: int, cfg: Config, r: Reg)
    requires ss != []
    ensures DevWrites(ss, fid, cfg, r) ==
      DevWrites(ss[..|ss| - 1], fid, cfg, r) + StepDevWrites(ss[|ss| - 1], fid, cfg, r)
  {
    var xs := seq(|ss|, i requires 0 <= i < |ss| => StepDevWrites(ss[i], fid, cfg, r));
    assert xs[..|ss| - 1] == seq(|ss| - 1, i requires 0 <= i < |ss| - 1 => StepDevWrites(ss[..|ss| - 1][i], fid, cfg, r));
  }

  lemma DevWritesAppend(a: seq<Step>, b: seq<Step>, fid: int, cfg: Config, r: Reg)
    ensures DevWrites(a + b, fid, cfg, r) == DevWrites(a, fid, cfg, r) + DevWrites(b, fid, cfg, r)
  {
    var xa := seq(|a|, i requires 0 <= i < |a| => StepDevWrites(a[i], fid, cfg, r));
    var xb := seq(|b|, i requires 0 <= i < |b| => StepDevWrites(b[i], fid, cfg, r));
    assert seq(|a + b|, i requires 0 <= i < |a + b| => StepDevWrites((a + b)[i], fid, cfg, r)) == xa + xb;
    ConcatAppend(xa, xb);
  }

  /** Device j's history on register r over the whole run, split at the sync block. */
  lemma PlanWrites(fids: seq<int>, cfg: Config, j: int, r: Reg)
    requires 0 <= j < |fids|
    ensures Writes(Plan(fids, cfg), j, r) ==
      DevWrites(PreSync, fids[j], cfg, r)
      + (if cfg.sync then DevWrites(SyncSteps(), fids[j], cfg, r) else [])
      + DevWrites(PostSync, fids[j], cfg, r)
  {
    var mid := if cfg.sync then SyncSteps() else [];
    WritesSteps(Schedule(cfg.sync), fids, cfg, j, r);
    DevWritesAppend(PreSync + mid, PostSync, fids[j], cfg, r);
    DevWritesAppend(PreSync, mid, fids[j], cfg, r);
  }

  lemma {:induction false} DevWritesNone(ss: seq<Step>, fid: int, cfg: Config, r: Reg)
    requires forall i :: 0 <= i < |ss| ==> !Touches(ss[i], r)
    ensures DevWrites(ss, fid, cfg, r) == []
    decreases |ss|
  {
    if ss != [] {
      DevWritesLast(ss, fid, cfg, r);
      DevWritesNone(ss[..|ss| - 1], fid, cfg, r);
    }
  }

  lemma DevWritesSingle(s: Step, fid: int, cfg: Config, r: Reg)
    ensures DevWrites([s], fid, cfg, r) == StepDevWrites(s, fid, cfg, r)
  {
    DevWritesLast([s], fid, cfg, r);
    assert [s][..0] == [];
  }

  /** When only step k of a list touches r, the list writes to r exactly what step k does. */
  lemma DevWritesOnly(ss: seq<Step>, k: int, fid: int, cfg: Config, r: Reg)
    requires 0 <= k < |ss|
    requires forall i :: 0 <= i < |ss| && i != k ==> !Touches(ss[i], r)
    ensures DevWrites(ss, fid, cfg, r) == StepDevWrites(ss[k], fid, cfg, r)
  {
    var before, after := ss[..k], ss[k + 1..];
    assert ss == before + [ss[k]] + after;
    assert forall i :: 0 <= i < |before| ==> before[i] == ss[i];
    assert forall i :: 0 <= i < |after| ==> after[i] == ss[k + 1 + i];
    DevWritesNone(before, fid, cfg, r);
    DevWritesNone(after, fid, cfg, r);
    DevWritesSingle(ss[k], fid, cfg, r);
    DevWritesAppend(before + [ss[k]], after, fid, cfg, r);
    DevWritesAppend(before, [ss[k]], fid, cfg, r);
  }

  /** When exactly write k of a list goes to r, r receives that one value. */
  lemma WritesOfOnly(ws: seq<RegWrite>, k: int, r: Reg)
    requires 0 <= k < |ws| && ws[k].reg == r
    requires forall i :: 0 <= i < |ws| && i != k ==> ws[i].reg != r
    ensures WritesOf(ws, r) == [ws[k].val]
  {
    var before, after := ws[..k], ws[k + 1..];
    assert ws == before + [ws[k]] + after;
    WritesOfAppend(before + [ws[k]], after, r);
    WritesOfAppend(before, [ws[k]], r);
    WritesOfNone(before, r);
    WritesOfNone(after, r);
    assert [ws[k]][..0] == [];
  }

  // Each section of the schedule, on its own.

  lemma PreSyncUntouched(fid: int, cfg: Config, r: Reg)
    requires !(r == EthSwEn || r == EthGpuEn || r == Fid || r == FftShift || r.EqCoeffs? || LinkReg(r) || r == CtMode)
    ensures DevWrites(PreSync, fid, cfg, r) == []
  {
    DevWritesNone(PreSync, fid, cfg, r);
  }

  lemma SyncUntouched(fid: int, cfg: Config, r: Reg)
    requires r != SyncArm && !r.Seed? && r != ArmNoise
    ensures DevWrites(SyncSteps(), fid, cfg, r) == []
  {
    DevWritesNone(SyncSteps(), fid, cfg, r);
  }

  lemma PostSyncUntouched(fid: int, cfg: Config, r: Reg)
    requires r != InSel && !ResetReg(r) && r != EthGpuEn && r != EthSwEn
    ensures DevWrites(PostSync, fid, cfg, r) == []
  {
    DevWritesNone(PostSync, fid, cfg, r);
  }

  lemma PreSyncTx(fid: int, cfg: Config)
    ensures DevWrites(PreSync, fid, cfg, EthSwEn) == [Word(0)]
    ensures DevWrites(PreSync, fid, cfg, EthGpuEn) == [Word(0)]
  {
    var disable := StepWrites(DisableTx, fid, cfg);
    WritesOfOnly(disable, 0, EthSwEn);
    WritesOfOnly(disable, 1, EthGpuEn);
    DevWritesOnly(PreSync, 0, fid, cfg, EthSwEn);
    DevWritesOnly(PreSync, 0, fid, cfg, EthGpuEn);
  }

  lemma PreSyncFid(fid: int, cfg: Config)
    ensures DevWrites(PreSync, fid, cfg, Fid) == [Word(fid)]
  {
    WritesOfOnly(StepWrites(SetFid, fid, cfg), 0, Fid);
    DevWritesOnly(PreSync, 1, fid, cfg, Fid);
  }

  lemma PostSyncTx(fid: int, cfg: Config)
    ensures DevWrites(PostSync, fid, cfg, EthSwEn) == [Word(1)]
    ensures DevWrites(PostSync, fid, cfg, EthGpuEn) == [Word(1)]
  {
    WritesOfOnly(StepWrites(EnableSwTx, fid, cfg), 0, EthSwEn);
    WritesOfOnly(StepWrites(EnableGpuTx, fid, cfg), 0, EthGpuEn);
    DevWritesOnly(PostSync, 3, fid, cfg, EthSwEn);
    DevWritesOnly(PostSync, 2, fid, cfg, EthGpuEn);
  }

  lemma ResetWritesTo(r: Reg)
    requires ResetReg(r)
    ensures WritesOf(ResetWrites(), r) == [Word(0), Word(1), Word(0)]
  {
    var k := if r == EthCntRst then 0 else if r == EthGpuRst then 1 else 2;
    WritesOfOnly(ResetRound(0), k, r);
    WritesOfOnly(ResetRound(1), k, r);
    WritesOfAppend(ResetRound(0) + ResetRound(1), ResetRound(0), r);
    WritesOfAppend(ResetRound(0), ResetRound(1), r);
  }

  lemma ResetStep(fid: int, cfg: Config, r: Reg)
    requires ResetReg(r)
    ensures StepDevWrites(ResetNetwork, fid, cfg, r) == [Word(0), Word(1), Word(0)]
  {
    ResetWritesTo(r);
  }

  lemma PostSyncReset(fid: int, cfg: Config, r: Reg)
    requires ResetReg(r)
    ensures DevWrites(PostSync, fid, cfg, r) == [Word(0), Word(1), Word(0)]
  {
    ResetStep(fid, cfg, r);
    DevWritesOnly(PostSync, 1, fid, cfg, r);
  }

  lemma ArmRoundWrites(fid: int, cfg: Config)
    ensures DevWrites(ArmRound, fid, cfg, SyncArm) == [Word(1), Word(0)]
  {
    WritesOfOnly(StepWrites(SyncClear, fid, cfg), 0, SyncArm);
    WritesOfOnly(StepWrites(SyncSet, fid, cfg), 0, SyncArm);
    DevWritesSingle(SyncSet, fid, cfg, SyncArm);
    DevWritesSingle(SyncClear, fid, cfg, SyncArm);
    assert ArmRound == [SyncSet] + [SyncClear];
    DevWritesAppend([SyncSet], [SyncClear], fid, cfg, SyncArm);
  }

  lemma SyncArmWrites(fid: int, cfg: Config)
    ensures DevWrites(SyncSteps(), fid, cfg, SyncArm) == [Word(0), Word(1), Word(0), Word(1), Word(0)]
  {
    WritesOfOnly(StepWrites(SyncClear, fid, cfg), 0, SyncArm);
    DevWritesSingle(SyncClear, fid, cfg, SyncArm);
    ArmRoundWrites(fid, cfg);
    DevWritesNone(NoiseSetup, fid, cfg, SyncArm);
    DevWritesAppend([SyncClear] + ArmRound + ArmRound, NoiseSetup, fid, cfg, SyncArm);
    DevWritesAppend([SyncClear] + ArmRound, ArmRound, fid, cfg, SyncArm);
    DevWritesAppend([SyncClear], ArmRound, fid, cfg, SyncArm);
  }

  lemma SyncSeedWrites(fid: int, cfg: Config, g: int)
    requires 0 <= g < NoiseGens
    ensures DevWrites(SyncSteps(), fid, cfg, Seed(g)) == [Word(cfg.seed)]
  {
    WritesOfOnly(SeedWrites(cfg.seed), g, Seed(g));
    DevWritesOnly(SyncSteps(), 5, fid, cfg, Seed(g));
  }

  // What each device receives over the whole run.

  /** Transmission is disabled first and enabled last on every device: each enable register gets 0, then 1. */
  lemma TransmitHistory(fids: seq<int>, cfg: Config, j: int)
    requires 0 <= j < |fids|
    ensures Writes(Plan(fids, cfg), j, EthSwEn) == [Word(0), Word(1)]
    ensures Writes(Plan(fids, cfg), j, EthGpuEn) == [Word(0), Word(1)]
  {
    PlanWrites(fids, cfg, j, EthSwEn);
    PlanWrites(fids, cfg, j, EthGpuEn);
    PreSyncTx(fids[j], cfg);
    PostSyncTx(fids[j], cfg);
    SyncUntouched(fids[j], cfg, EthSwEn);
    SyncUntouched(fids[j], cfg, EthGpuEn);
  }

  /** Each device's FID register is written once, with that device's own FID. */
  lemma FidHistory(fids: seq<int>, cfg: Config, j: int)
    requires 0 <= j < |fids|
    ensures Writes(Plan(fids, cfg), j, Fid) == [Word(fids[j])]
  {
    PlanWrites(fids, cfg, j, Fid);
    PreSyncFid(fids[j], cfg);
    SyncUntouched(fids[j], cfg, Fid);
    PostSyncUntouched(fids[j], cfg, Fid);
  }

  /** Every network reset register of every device receives the pulse 0, 1, 0 and so ends at 0. */
  lemma ResetHistory(fids: seq<int>, cfg: Config, j: int, r: Reg)
    requires 0 <= j < |fids| && ResetReg(r)
    ensures Writes(Plan(fids, cfg), j, r) == [Word(0), Word(1), Word(0)]
  {
    PlanWrites(fids, cfg, j, r);
    PreSyncUntouched(fids[j], cfg, r);
    SyncUntouched(fids[j], cfg, r);
    PostSyncReset(fids[j], cfg, r);
  }

  /** With sync on, sync_arm gets 0, then two rounds of 1 and 0; with sync off it is never written. */
  lemma SyncArmHistory(fids: seq<int>, cfg: Config, j: int)
    requires 0 <= j < |fids|
    ensures Writes(Plan(fids, cfg), j, SyncArm) ==
      if cfg.sync then [Word(0), Word(1), Word(0), Word(1), Word(0)] else []
  {
    PlanWrites(fids, cfg, j, SyncArm);
    PreSyncUntouched(fids[j], cfg, SyncArm);
    PostSyncUntouched(fids[j], cfg, SyncArm);
    SyncArmWrites(fids[j], cfg);
  }

  /** With sync on, each noise generator seed is written once with the configured seed; otherwise never. */
  lemma SeedHistory(fids: seq<int>, cfg: Config, j: int, g: int)
    requires 0 <= j < |fids| && 0 <= g < NoiseGens
    ensures Writes(Plan(fids, cfg), j, Seed(g)) == if cfg.sync then [Word(cfg.seed)] else []
  {
    PlanWrites(fids, cfg, j, Seed(g));
    PreSyncUntouched(fids[j], cfg, Seed(g));
    PostSyncUntouched(fids[j], cfg, Seed(g));
    SyncSeedWrites(fids[j], cfg, g);
  }

  // ---------------------------------------------------------------- order across devices

  /** Register groups whose writes across all devices are followed in order. */
  datatype RegClass = TxEnable | Arming

  predicate InClass(r: Reg, c: RegClass) {
    match c
    case TxEnable => r == EthSwEn || r == EthGpuEn
    case Arming => r == SyncArm
  }

  /** The steps that write a group's registers (every step writes either only those or none). */
  predicate StepIn(s: Step, c: RegClass) {
    match c
    case TxEnable => s == DisableTx || s == EnableGpuTx || s == EnableSwTx
    case Arming => s == SyncClear || s == SyncSet
  }

  /** The writes of a trace to one group of registers, over all devices, in order. */
  function Filter(t: seq<Event>, c: RegClass): seq<Event> {
    if t == [] then []
    else Filter(t[..|t| - 1], c) + (if InClass(t[|t| - 1].reg, c) then [t[|t| - 1]] else [])
  }

  function Keep(ss: seq<Step>, c: RegClass): seq<Step> {
    if ss == [] then []
    else Keep(ss[..|ss| - 1], c) + (if StepIn(ss[|ss| - 1], c) then [ss[|ss| - 1]] else [])
  }

  /** Writes of value v to register r on devices 0, 1, ..., n - 1. */
  function Column(r: Reg, v: Val, n: nat): seq<Event> {
    seq(n, j => Event(j, r, v))
  }

  lemma {:induction false} FilterAppend(t: seq<Event>, u: seq<Event>, c: RegClass)
    ensures Filter(t + u, c) == Filter(t, c) + Filter(u, c)
    decreases |u|
  {
    if u == [] {
      assert t + u == t;
    } else {
      assert (t + u)[..|t + u| - 1] == t + u[..|u| - 1];
      FilterAppend(t, u[..|u| - 1], c);
    }
  }

  lemma {:induction false} KeepAppend(a: seq<Step>, b: seq<Step>, c: RegClass)
    ensures Keep(a + b, c) == Keep(a, c) + Keep(b, c)
    decreases |b|
  {
    if b == [] {
      assert a + b == a;
    } else {
      assert (a + b)[..|a + b| - 1] == a + b[..|b| - 1];
      KeepAppend(a, b[..|b| - 1], c);
    }
  }

  lemma {:induction false} FilterTag(i: int, ws: seq<RegWrite>, c: RegClass, keep: bool)
    requires forall k :: 0 <= k < |ws| ==> InClass(ws[k].reg, c) == keep
    ensures Filter(Tag(i, ws), c) == if keep then Tag(i, ws) else []
    decreases |ws|
  {
    if ws != [] {
      var n := |ws| - 1;
      var t := Tag(i, ws);
      assert t[..n] == Tag(i, ws[..n]);
      FilterTag(i, ws[..n], c, keep);
      assert InClass(t[n].reg, c) == keep;
      assert t == t[..n] + [t[n]];
    }
  }

  /** A step writes only registers of a group, or none of them. */
  lemma StepUniform(s: Step, fid: int, cfg: Config, c: RegClass)
    ensures forall k :: 0 <= k < |StepWrites(s, fid, cfg)| ==>
      InClass(StepWrites(s, fid, cfg)[k].reg, c) == StepIn(s, c)
  {
    StepTouches(s, fid, cfg);
  }

  lemma SweepLast(s: Step, fids: seq<int>, cfg: Config)
    requires fids != []
    ensures Sweep(s, fids, cfg) ==
      Sweep(s, fids[..|fids| - 1], cfg) + Tag(|fids| - 1, StepWrites(s, fids[|fids| - 1], cfg))
  {
    var n := |fids| - 1;
    var xs := seq(|fids|, j requires 0 <= j < |fids| => Tag(j, StepWrites(s, fids[j], cfg)));
    assert xs[..n] == seq(n, j requires 0 <= j < n => Tag(j, StepWrites(s, fids[..n][j], cfg)));
  }

  lemma {:induction false} FilterSweep(s: Step, fids: seq<int>, cfg: Config, c: RegClass)
    ensures Filter(Sweep(s, fids, cfg), c) == if StepIn(s, c) then Sweep(s, fids, cfg) else []
    decreases |fids|
  {
    if fids != [] {
      var n := |fids| - 1;
      var ws := StepWrites(s, fids[n], cfg);
      SweepLast(s, fids, cfg);
      FilterAppend(Sweep(s, fids[..n], cfg), Tag(n, ws), c);
      FilterSweep(s, fids[..n], cfg, c);
      StepUniform(s, fids[n], cfg, c);
      FilterTag(n, ws, c, StepIn(s, c));
    }
  }

  /** Across all devices, a group's writes are the sweeps of the steps that write that group. */
  lemma {:induction false} FilterSteps(ss: seq<Step>, fids: seq<int>, cfg: Config, c: RegClass)
    ensures Filter(Steps(ss, fids, cfg), c) == Steps(Keep(ss, c), fids, cfg)
    decreases |ss|
  {
    if ss == [] {
    } else {
      var n := |ss| - 1;
      var s := ss[n];
      StepsLast(ss, fids, cfg);
      FilterAppend(Steps(ss[..n], fids, cfg), Sweep(s, fids, cfg), c);
      FilterSteps(ss[..n], fids, cfg, c);
      FilterSweep(s, fids, cfg, c);
      StepsAppend(Keep(ss[..n], c), if StepIn(s, c) then [s] else [], fids, cfg);
      if StepIn(s, c) {
        StepsSingle(s, fids, cfg);
      }
    }
  }

  lemma StepsSingle(s: Step, fids: seq<int>, cfg: Config)
    ensures Steps([s], fids, cfg) == Sweep(s, fids, cfg)
  {
    StepsLast([s], fids, cfg);
    assert [s][..0] == [];
  }

  /** A step that writes the same single value to every device sweeps as a column. */
  lemma {:induction false} SweepColumn(s: Step, fids: seq<int>, cfg: Config, r: Reg, v: Val)
    requires forall k :: 0 <= k < |fids| ==> StepWrites(s, fids[k], cfg) == [RegWrite(r, v)]
    ensures Sweep(s, fids, cfg) == Column(r, v, |fids|)
    decreases |fids|
  {
    if fids != [] {
      var n := |fids| - 1;
      SweepLast(s, fids, cfg);
      SweepColumn(s, fids[..n], cfg, r, v);
      assert Tag(n, StepWrites(s, fids[n], cfg)) == [Event(n, r, v)];
      assert Column(r, v, n + 1) == Column(r, v, n) + [Event(n, r, v)];
    }
  }

  lemma ScheduleKeepTx(sync: bool)
    ensures Keep(Schedule(sync), TxEnable) == [DisableTx, EnableGpuTx, EnableSwTx]
  {
    var mid := if sync then SyncSteps() else [];
    KeepAppend(PreSync + mid, PostSync, TxEnable);
    KeepAppend(PreSync, mid, TxEnable);
    KeepNone(mid, TxEnable);
    PreSyncKeepTx();
    PostSyncKeepTx();
  }

  lemma PreSyncKeepTx()
    ensures Keep(PreSync, TxEnable) == [DisableTx]
  {
    assert PreSync == [DisableTx] + PreSync[1..];
    KeepAppend([DisableTx], PreSync[1..], TxEnable);
    KeepAll([DisableTx], TxEnable);
    KeepNone(PreSync[1..], TxEnable);
  }

  lemma PostSyncKeepTx()
    ensures Keep(PostSync, TxEnable) == [EnableGpuTx, EnableSwTx]
  {
    assert PostSync == PostSync[..2] + [EnableGpuTx, EnableSwTx];
    KeepAppend(PostSync[..2], [EnableGpuTx, EnableSwTx], TxEnable);
    KeepNone(PostSync[..2], TxEnable);
    KeepAll([EnableGpuTx, EnableSwTx], TxEnable);
  }

  lemma ScheduleKeepArm(sync: bool)
    ensures Keep(Schedule(sync), Arming) ==
      if sync then [SyncClear, SyncSet, SyncClear, SyncSet, SyncClear] else []
  {
    var mid := if sync then SyncSteps() else [];
    KeepAppend(PreSync + mid, PostSync, Arming);
    KeepAppend(PreSync, mid, Arming);
    KeepNone(PreSync, Arming);
    KeepNone(PostSync, Arming);
    if sync {
      var arms := [SyncClear] + ArmRound + ArmRound;
      KeepAppend(arms, NoiseSetup, Arming);
      KeepAll(arms, Arming);
      KeepNone(NoiseSetup, Arming);
    }
  }

  lemma {:induction false} KeepNone(ss: seq<Step>, c: RegClass)
    requires forall i :: 0 <= i < |ss| ==> !StepIn(ss[i], c)
    ensures Keep(ss, c) == []
    decreases |ss|
  {
    if ss != [] {
      KeepNone(ss[..|ss| - 1], c);
    }
  }

  lemma {:induction false} KeepAll(ss: seq<Step>, c: RegClass)
    requires forall i :: 0 <= i < |ss| ==> StepIn(ss[i], c)
    ensures Keep(ss, c) == ss
    decreases |ss|
  {
    if ss != [] {
      KeepAll(ss[..|ss| - 1], c);
    }
  }

  lemma Steps3(a: Step, b: Step, c: Step, fids: seq<int>, cfg: Config)
    ensures Steps([a, b, c], fids, cfg) == Sweep(a, fids, cfg) + Sweep(b, fids, cfg) + Sweep(c, fids, cfg)
  {
    StepsAppend([a, b], [c], fids, cfg);
    StepsAppend([a], [b], fids, cfg);
    assert [a, b] == [a] + [b] && [a, b, c] == [a, b] + [c];
    StepsSingle(a, fids, cfg);
    StepsSingle(b, fids, cfg);
    StepsSingle(c, fids, cfg);
  }

  /**
   * Over all devices, the transmit-enable registers see: the disable sweep, then
   * eth_gpu_en = 1 on every device, then eth_sw_en = 1 on every device.
   */
  lemma TransmitOrder(fids: seq<int>, cfg: Config)
    ensures Filter(Plan(fids, cfg), TxEnable) ==
      Sweep(DisableTx, fids, cfg) + Column(EthGpuEn, Word(1), |fids|) + Column(EthSwEn, Word(1), |fids|)
  {
    FilterSteps(Schedule(cfg.sync), fids, cfg, TxEnable);
    ScheduleKeepTx(cfg.sync);
    Steps3(DisableTx, EnableGpuTx, EnableSwTx, fids, cfg);
    SweepColumn(EnableGpuTx, fids, cfg, EthGpuEn, Word(1));
    SweepColumn(EnableSwTx, fids, cfg, EthSwEn, Word(1));
  }

  /**
   * Over all devices, sync_arm sees 0 on every device, then two rounds of 1 on
   * every device followed by 0 on every device; nothing when sync is off.
   */
  lemma ArmOrder(fids: seq<int>, cfg: Config)
    ensures Filter(Plan(fids, cfg), Arming) ==
      if cfg.sync then
        var zeros, ones := Column(SyncArm, Word(0), |fids|), Column(SyncArm, Word(1), |fids|);
        zeros + ones + zeros + ones + zeros
      else []
  {
    FilterSteps(Schedule(cfg.sync), fids, cfg, Arming);
    ScheduleKeepArm(cfg.sync);
    if cfg.sync {
      ArmSweeps(fids, cfg);
    } else {
      assert Steps([], fids, cfg) == [];
    }
  }

  lemma ArmSweeps(fids: seq<int>, cfg: Config)
    ensures Steps([SyncClear, SyncSet, SyncClear, SyncSet, SyncClear], fids, cfg) ==
      var zeros, ones := Column(SyncArm, Word(0), |fids|), Column(SyncArm, Word(1), |fids|);
      zeros + ones + zeros + ones + zeros
  {
    var zeros, ones := Column(SyncArm, Word(0), |fids|), Column(SyncArm, Word(1), |fids|);
    SweepColumn(SyncClear, fids, cfg, SyncArm, Word(0));
    SweepColumn(SyncSet, fids, cfg, SyncArm, Word(1));
    Steps3(SyncClear, SyncSet, SyncClear, fids, cfg);
    Steps2(SyncSet, SyncClear, fids, cfg);
    assert [SyncClear, SyncSet, SyncClear, SyncSet, SyncClear] == [SyncClear, SyncSet, SyncClear] + [SyncSet, SyncClear];
    StepsAppend([SyncClear, SyncSet, SyncClear], [SyncSet, SyncClear], fids, cfg);
  }

  lemma Steps2(a: Step, b: Step, fids: seq<int>, cfg: Config)
    ensures Steps([a, b], fids, cfg) == Sweep(a, fids, cfg) + Sweep(b, fids, cfg)
  {
    StepsAppend([a], [b], fids, cfg);
    assert [a, b] == [a] + [b];
    StepsSingle(a, fids, cfg);
    StepsSingle(b, fids, cfg);
  }

  /** The run opens with the disable sweep: its first 2n writes set both enables to 0 on every device. */
  lemma DisableFirst(fids: seq<int>, cfg: Config)
    ensures |Plan(fids, cfg)| >= 2 * |fids|
    ensures Plan(fids, cfg)[..2 * |fids|] == Sweep(DisableTx, fids, cfg)
    ensures forall p :: 0 <= p < 2 * |fids| ==>
      InClass(Plan(fids, cfg)[p].reg, TxEnable) && Plan(fids, cfg)[p].val == Word(0)
  {
    var sched := Schedule(cfg.sync);
    assert sched == [DisableTx] + sched[1..];
    StepsAppend([DisableTx], sched[1..], fids, cfg);
    StepsSingle(DisableTx, fids, cfg);
    DisableSweep(fids, cfg);
  }

  lemma {:induction false} DisableSweep(fids: seq<int>, cfg: Config)
    ensures |Sweep(DisableTx, fids, cfg)| == 2 * |fids|
    ensures forall p :: 0 <= p < 2 * |fids| ==>
      InClass(Sweep(DisableTx, fids, cfg)[p].reg, TxEnable) && Sweep(DisableTx, fids, cfg)[p].val == Word(0)
    decreases |fids|
  {
    if fids != [] {
      var n := |fids| - 1;
      SweepLast(DisableTx, fids, cfg);
      DisableSweep(fids[..n], cfg);
    }
  }

  // ---------------------------------------------------------------- link registers

  lemma {:induction false} SwLinksAt(fid: int, n: nat, p: int)
    requires 0 <= p < 3 * n
    ensures |SwLinks(fid, n)| == 3 * n
    ensures SwLinks(fid, n)[p] == SwLink(fid, p / 3)[p % 3]
  {
    SwLinksLength(fid, n);
    var before := SwLinks(fid, n - 1);
    SwLinksLength(fid, n - 1);
    assert SwLinks(fid, n) == before + SwLink(fid, n - 1);
    if p < 3 * (n - 1) {
      SwLinksAt(fid, n - 1, p);
    } else {
      assert p / 3 == n - 1 && p % 3 == p - 3 * (n - 1);
    }
  }

  lemma {:induction false} SwLinksLength(fid: int, n: nat)
    ensures |SwLinks(fid, n)| == 3 * n
  {
    if n > 0 {
      SwLinksLength(fid, n - 1);
    }
  }

  lemma {:induction false} GpuLinksAt(fid: int, n: nat, resolve: string -> int, p: int)
    requires 0 <= p < 3 * n
    ensures |GpuLinks(fid, n, resolve)| == 3 * n
    ensures GpuLinks(fid, n, resolve)[p] == GpuLink(fid, p / 3, resolve)[p % 3]
  {
    GpuLinksLength(fid, n, resolve);
    var before := GpuLinks(fid, n - 1, resolve);
    GpuLinksLength(fid, n - 1, resolve);
    assert GpuLinks(fid, n, resolve) == before + GpuLink(fid, n - 1, resolve);
    if p < 3 * (n - 1) {
      GpuLinksAt(fid, n - 1, resolve, p);
    } else {
      assert p / 3 == n - 1 && p % 3 == p - 3 * (n - 1);
    }
  }

  lemma {:induction false} GpuLinksLength(fid: int, n: nat, resolve: string -> int)
    ensures |GpuLinks(fid, n, resolve)| == 3 * n
  {
    if n > 0 {
      GpuLinksLength(fid, n - 1, resolve);
    }
  }

  /** What link i of an engine with FID `fid` is given, register by register. */
  function LinkValue(fid: int, cfg: Config, r: Reg): Val
    requires LinkReg(r)
  {
    match r
    case EthSwIp(i) => Word(SwIp(fid, i))
    case EthSwMac(i) => Word(SwMac(fid, i))
    case EthSwArp(i) => Table(ArpOffset, ArpWords())
    case EthGpuIp(i) => Word(GpuIp(fid, i))
    case EthGpuMac(i) => Word(GpuMac(fid, i))
    case EthXip(i) => Word(cfg.resolve(PeerName(fid, i)))
  }

  /** Where the write to a link register sits in the network step. */
  function LinkSlot(r: Reg): int
    requires LinkReg(r)
  {
    match r
    case EthSwIp(i) => 3 * i
    case EthSwMac(i) => 3 * i + 1
    case EthSwArp(i) => 3 * i + 2
    case EthGpuIp(i) => 12 + 3 * i
    case EthGpuMac(i) => 12 + 3 * i + 1
    case EthXip(i) => 12 + 3 * i + 2
  }

  /** The register written at place p of the network step. */
  function NetworkReg(p: int): Reg
    requires 0 <= p < 24
  {
    var i, c := (p % 12) / 3, p % 3;
    if p < 12 then (if c == 0 then EthSwIp(i) else if c == 1 then EthSwMac(i) else EthSwArp(i))
    else (if c == 0 then EthGpuIp(i) else if c == 1 then EthGpuMac(i) else EthXip(i))
  }

  lemma NetworkAt(fid: int, resolve: string -> int, p: int)
    requires 0 <= p < 24
    ensures |NetworkWrites(fid, resolve)| == 24
    ensures NetworkWrites(fid, resolve)[p].reg == NetworkReg(p)
  {
    SwLinksLength(fid, 4);
    GpuLinksLength(fid, 4, resolve);
    if p < 12 {
      SwLinkRegAt(fid, p);
    } else {
      GpuLinkRegAt(fid, resolve, p - 12);
    }
  }

  lemma SwLinkRegAt(fid: int, p: int)
    requires 0 <= p < 12
    ensures |SwLinks(fid, 4)| == 12
    ensures SwLinks(fid, 4)[p].reg == NetworkReg(p)
  {
    SwLinksAt(fid, 4, p);
  }

  lemma GpuLinkRegAt(fid: int, resolve: string -> int, q: int)
    requires 0 <= q < 12
    ensures |GpuLinks(fid, 4, resolve)| == 12
    ensures GpuLinks(fid, 4, resolve)[q].reg == NetworkReg(q + 12)
  {
    GpuLinksAt(fid, 4, resolve, q);
    assert (q + 12) % 12 == q && (q + 12) % 3 == q % 3;
  }

  /** Only the slot of r holds a write to r. */
  lemma NetworkSlot(r: Reg, p: int)
    requires LinkReg(r) && 0 <= r.link < LinksPerEngine && 0 <= p < 24
    ensures 0 <= LinkSlot(r) < 24 && NetworkReg(LinkSlot(r)) == r
    ensures NetworkReg(p) == r ==> p == LinkSlot(r)
  {
  }

  lemma NetworkValue(fid: int, cfg: Config, r: Reg)
    requires LinkReg(r) && 0 <= r.link < LinksPerEngine
    ensures 0 <= LinkSlot(r) < 24 && |NetworkWrites(fid, cfg.resolve)| == 24
    ensures NetworkWrites(fid, cfg.resolve)[LinkSlot(r)] == RegWrite(r, LinkValue(fid, cfg, r))
  {
    var ws := NetworkWrites(fid, cfg.resolve);
    SwLinksLength(fid, 4);
    GpuLinksLength(fid, 4, cfg.resolve);
    match r
    case EthSwIp(i) => SwLinkAtSlot(fid, cfg.resolve, i, 0);
    case EthSwMac(i) => SwLinkAtSlot(fid, cfg.resolve, i, 1);
    case EthSwArp(i) => SwLinkAtSlot(fid, cfg.resolve, i, 2);
    case EthGpuIp(i) => GpuLinkAtSlot(fid, cfg.resolve, i, 0);
    case EthGpuMac(i) => GpuLinkAtSlot(fid, cfg.resolve, i, 1);
    case EthXip(i) => GpuLinkAtSlot(fid, cfg.resolve, i, 2);
  }

  /** Write c of switch link i sits at 3i + c of the network step. */
  lemma SwLinkAtSlot(fid: int, resolve: string -> int, i: int, c: int)
    requires 0 <= i < 4 && 0 <= c < 3
    ensures |NetworkWrites(fid, resolve)| == 24
    ensures NetworkWrites(fid, resolve)[3 * i + c] == SwLink(fid, i)[c]
  {
    SwLinksAt(fid, 4, 3 * i + c);
    GpuLinksLength(fid, 4, resolve);
    assert (3 * i + c) / 3 == i && (3 * i + c) % 3 == c;
  }

  /** Write c of GPU link i sits at 12 + 3i + c of the network step. */
  lemma GpuLinkAtSlot(fid: int, resolve: string -> int, i: int, c: int)
    requires 0 <= i < 4 && 0 <= c < 3
    ensures |NetworkWrites(fid, resolve)| == 24
    ensures NetworkWrites(fid, resolve)[12 + 3 * i + c] == GpuLink(fid, i, resolve)[c]
  {
    SwLinksLength(fid, 4);
    GpuLinksAt(fid, 4, resolve, 3 * i + c);
    assert (3 * i + c) / 3 == i && (3 * i + c) % 3 == c;
  }

  /** Each link register of the four links is written exactly once in the network step. */
  lemma NetworkWritesTo(fid: int, cfg: Config, r: Reg)
    requires LinkReg(r) && 0 <= r.link < LinksPerEngine
    ensures WritesOf(NetworkWrites(fid, cfg.resolve), r) == [LinkValue(fid, cfg, r)]
  {
    var ws := NetworkWrites(fid, cfg.resolve);
    var k := LinkSlot(r);
    NetworkValue(fid, cfg, r);
    forall p | 0 <= p < |ws| && p != k
      ensures ws[p].reg != r
    {
      NetworkAt(fid, cfg.resolve, p);
      NetworkSlot(r, p);
    }
    WritesOfOnly(ws, k, r);
  }

  lemma PreSyncLink(fid: int, cfg: Config, r: Reg)
    requires LinkReg(r) && 0 <= r.link < LinksPerEngine
    ensures DevWrites(PreSync, fid, cfg, r) == [LinkValue(fid, cfg, r)]
  {
    NetworkWritesTo(fid, cfg, r);
    assert StepDevWrites(SetupNetwork, fid, cfg, r) == [LinkValue(fid, cfg, r)];
    assert forall i :: 0 <= i < |PreSync| && i != 4 ==> !Touches(PreSync[i], r);
    DevWritesOnly(PreSync, 4, fid, cfg, r);
  }

  /** Every link of every device gets its own addresses, the ARP table and its X engine's address, once. */
  lemma LinkHistory(fids: seq<int>, cfg: Config, j: int, r: Reg)
    requires 0 <= j < |fids| && LinkReg(r) && 0 <= r.link < LinksPerEngine
    ensures Writes(Plan(fids, cfg), j, r) == [LinkValue(fids[j], cfg, r)]
  {
    PlanWrites(fids, cfg, j, r);
    PreSyncLink(fids[j], cfg, r);
    SyncUntouched(fids[j], cfg, r);
    PostSyncUntouched(fids[j], cfg, r);
  }

  /** The FFT shift, EQ blocks, corner-turner mode and input selection are each written once per device. */
  lemma SettingsHistory(fids: seq<int>, cfg: Config, j: int, b: int)
    requires 0 <= j < |fids| && 0 <= b < EqBrams
    ensures Writes(Plan(fids, cfg), j, FftShift) == [Word(cfg.fftShift)]
    ensures Writes(Plan(fids, cfg), j, EqCoeffs(b)) == [Table(0, EqBlock(cfg.eq))]
    ensures Writes(Plan(fids, cfg), j, CtMode) == [Word(cfg.ctMode)]
    ensures Writes(Plan(fids, cfg), j, InSel) == [Inputs(cfg.noise)]
  {
    var fid := fids[j];
    PreSyncSettings(fid, cfg, b);
    PostSyncInSel(fid, cfg);
    PlanWrites(fids, cfg, j, FftShift);
    SyncUntouched(fid, cfg, FftShift);
    PostSyncUntouched(fid, cfg, FftShift);
    PlanWrites(fids, cfg, j, EqCoeffs(b));
    SyncUntouched(fid, cfg, EqCoeffs(b));
    PostSyncUntouched(fid, cfg, EqCoeffs(b));
    PlanWrites(fids, cfg, j, CtMode);
    SyncUntouched(fid, cfg, CtMode);
    PostSyncUntouched(fid, cfg, CtMode);
    PlanWrites(fids, cfg, j, InSel);
    PreSyncUntouched(fid, cfg, InSel);
    SyncUntouched(fid, cfg, InSel);
  }

  lemma PreSyncSettings(fid: int, cfg: Config, b: int)
    requires 0 <= b < EqBrams
    ensures DevWrites(PreSync, fid, cfg, FftShift) == [Word(cfg.fftShift)]
    ensures DevWrites(PreSync, fid, cfg, EqCoeffs(b)) == [Table(0, EqBlock(cfg.eq))]
    ensures DevWrites(PreSync, fid, cfg, CtMode) == [Word(cfg.ctMode)]
  {
    WritesOfOnly(StepWrites(SetFftShift, fid, cfg), 0, FftShift);
    DevWritesOnly(PreSync, 2, fid, cfg, FftShift);
    WritesOfOnly(EqWrites(cfg.eq), b, EqCoeffs(b));
    DevWritesOnly(PreSync, 3, fid, cfg, EqCoeffs(b));
    WritesOfOnly(StepWrites(SetCtMode, fid, cfg), 0, CtMode);
    DevWritesOnly(PreSync, 5, fid, cfg, CtMode);
  }

  lemma PostSyncInSel(fid: int, cfg: Config)
    ensures DevWrites(PostSync, fid, cfg, InSel) == [Inputs(cfg.noise)]
  {
    WritesOfOnly(StepWrites(SelectInputs, fid, cfg), 0, InSel);
    DevWritesOnly(PostSync, 0, fid, cfg, InSel);
  }
}
