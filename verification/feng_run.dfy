/**
 * The configuration run of bin/paper_feng_init.rb over live F engines: each
 * engine is an object whose registers the run overwrites, the steps are loops
 * over all kept engines, and the sync rounds wait on the first engine's
 * sync counter.
 */
module FengRun {
  import opened Wrappers
  import opened FengAddress
  import opened FengPlan

  /** One connected F engine: its host name and current register contents. */
  class Fengine {
    const host: string
    var regs: map<Reg, Val>

    constructor (host: string, regs: map<Reg, Val>)
      ensures this.host == host && this.regs == regs
    {
      this.host := host;
      this.regs := regs;
    }

    /** A register (or memory) write: that register takes the new value, the others keep theirs. */
    method Write(r: Reg, v: Val)
      modifies this
      ensures regs == old(regs)[r := v]
    {
      regs := regs[r := v];
    }
  }

  /** The kept list holds one connection object per engine. */
  predicate Distinct(devs: seq<Fengine>) {
    forall i, j :: 0 <= i < j < |devs| ==> devs[i] != devs[j]
  }

  /** Every engine's registers are its starting registers with its events of `trace` applied. */
  ghost predicate Synced(devs: seq<Fengine>, init: seq<map<Reg, Val>>, trace: seq<Event>)
    reads devs
  {
    |init| == |devs| &&
    forall k :: 0 <= k < |devs| ==> devs[k].regs == Replay(init[k], trace, k)
  }

  lemma ReplayStep(m: map<Reg, Val>, t: seq<Event>, e: Event, k: int)
    ensures Replay(m, t + [e], k) == if e.dev == k then Replay(m, t, k)[e.reg := e.val] else Replay(m, t, k)
  {
    assert (t + [e])[..|t|] == t;
  }

  /** One write on engine j, logged as an event. */
  method Apply(devs: seq<Fengine>, j: int, w: RegWrite,
               ghost init: seq<map<Reg, Val>>, trace0: seq<Event>)
    returns (trace: seq<Event>)
    requires 0 <= j < |devs| && Distinct(devs) && Synced(devs, init, trace0)
    modifies devs[j]
    ensures trace == trace0 + [Event(j, w.reg, w.val)]
    ensures Synced(devs, init, trace)
  {
    var e := Event(j, w.reg, w.val);
    devs[j].Write(e.reg, e.val);
    trace := trace0 + [e];
    forall k | 0 <= k < |devs|
      ensures devs[k].regs == Replay(init[k], trace, k)
    {
      ReplayStep(init[k], trace0, e, k);
    }
  }

  /** All writes of one step on engine j, in order. */
  method ApplyAll(devs: seq<Fengine>, j: int, ws: seq<RegWrite>,
                  ghost init: seq<map<Reg, Val>>, trace0: seq<Event>)
    returns (trace: seq<Event>)
    requires 0 <= j < |devs| && Distinct(devs) && Synced(devs, init, trace0)
    modifies devs[j]
    ensures trace == trace0 + Tag(j, ws)
    ensures Synced(devs, init, trace)
  {
    trace := trace0;
    for w := 0 to |ws|
      invariant trace == trace0 + Tag(j, ws[..w])
      invariant Synced(devs, init, trace)
    {
      trace := Apply(devs, j, ws[w], init, trace);
      TagLast(j, ws[..w + 1]);
      assert ws[..w + 1][..w] == ws[..w];
      AppendAssoc(trace0, Tag(j, ws[..w]), [Event(j, ws[w].reg, ws[w].val)]);
    }
    assert ws[..|ws|] == ws;
  }

  lemma TagLast(j: int, ws: seq<RegWrite>)
    requires ws != []
    ensures Tag(j, ws) == Tag(j, ws[..|ws| - 1]) + [Event(j, ws[|ws| - 1].reg, ws[|ws| - 1].val)]
  {
  }

  /** Each device's own list of writes, tagged with its number, device after device. */
  function Tagged(wss: seq<seq<RegWrite>>): seq<Event> {
    Concat(seq(|wss|, j requires 0 <= j < |wss| => Tag(j, wss[j])))
  }

  lemma TaggedLast(wss: seq<seq<RegWrite>>)
    requires wss != []
    ensures Tagged(wss) == Tagged(wss[..|wss| - 1]) + Tag(|wss| - 1, wss[|wss| - 1])
  {
    var n := |wss| - 1;
    var xs := seq(|wss|, j requires 0 <= j < |wss| => Tag(j, wss[j]));
    assert xs[..n] == seq(n, j requires 0 <= j < n => Tag(j, wss[..n][j]));
  }

  /** A sweep is the tagged list of every device's writes for that step. */
  lemma SweepTagged(s: Step, fids: seq<int>, cfg: Config)
    ensures Sweep(s, fids, cfg) == Tagged(seq(|fids|, j requires 0 <= j < |fids| => StepWrites(s, fids[j], cfg)))
  {
    var wss := seq(|fids|, j requires 0 <= j < |fids| => StepWrites(s, fids[j], cfg));
    assert seq(|wss|, j requires 0 <= j < |wss| => Tag(j, wss[j]))
        == seq(|fids|, j requires 0 <= j < |fids| => Tag(j, StepWrites(s, fids[j], cfg)));
  }

  /** Device after device, each device's writes in order. */
  method RunTagged(devs: seq<Fengine>, wss: seq<seq<RegWrite>>,
                   ghost init: seq<map<Reg, Val>>, trace0: seq<Event>)
    returns (trace: seq<Event>)
    requires |devs| == |wss| && Distinct(devs) && Synced(devs, init, trace0)
    modifies devs
    ensures trace == trace0 + Tagged(wss)
    ensures Synced(devs, init, trace)
  {
    trace := trace0;
    for j := 0 to |devs|
      invariant trace == trace0 + Tagged(wss[..j])
      invariant Synced(devs, init, trace)
    {
      trace := ApplyAll(devs, j, wss[j], init, trace);
      TaggedLast(wss[..j + 1]);
      assert wss[..j + 1][..j] == wss[..j];
      AppendAssoc(trace0, Tagged(wss[..j]), Tag(j, wss[j]));
    }
    assert wss[..|devs|] == wss;
  }

  /** One `fe_fids.each` loop: every write of step s, on each engine in turn. */
  method RunStep(devs: seq<Fengine>, fids: seq<int>, cfg: Config, s: Step,
                 ghost init: seq<map<Reg, Val>>, trace0: seq<Event>)
    returns (trace: seq<Event>)
    requires |devs| == |fids| && Distinct(devs) && Synced(devs, init, trace0)
    modifies devs
    ensures trace == trace0 + Sweep(s, fids, cfg)
    ensures Synced(devs, init, trace)
  {
    var wss := seq(|fids|, j requires 0 <= j < |fids| => StepWrites(s, fids[j], cfg));
    trace := RunTagged(devs, wss, init, trace0);
    SweepTagged(s, fids, cfg);
  }

  lemma AppendAssoc<T>(a: seq<T>, b: seq<T>, c: seq<T>)
    ensures a + b + c == a + (b + c)
  {
  }

  lemma ConcatLast<T>(xs: seq<seq<T>>)
    requires xs != []
    ensures Concat(xs) == Concat(xs[..|xs| - 1]) + xs[|xs| - 1]
  {
  }

  /** Several steps in order. */
  method RunSteps(devs: seq<Fengine>, fids: seq<int>, cfg: Config, ss: seq<Step>,
                  ghost init: seq<map<Reg, Val>>, trace0: seq<Event>)
    returns (trace: seq<Event>)
    requires |devs| == |fids| && Distinct(devs) && Synced(devs, init, trace0)
    modifies devs
    ensures trace == trace0 + Steps(ss, fids, cfg)
    ensures Synced(devs, init, trace)
  {
    ghost var sweeps := seq(|ss|, i requires 0 <= i < |ss| => Sweep(ss[i], fids, cfg));
    trace := trace0;
    for i := 0 to |ss|
      invariant trace == trace0 + Concat(sweeps[..i])
      invariant Synced(devs, init, trace)
    {
      trace := RunStep(devs, fids, cfg, ss[i], init, trace);
      ConcatLast(sweeps[..i + 1]);
      assert sweeps[..i + 1][..i] == sweeps[..i];
      AppendAssoc(trace0, Concat(sweeps[..i]), sweeps[i]);
    }
    assert sweeps[..|ss|] == sweeps;
  }

  // ---------------------------------------------------------------- waiting for a sync pulse

  /**
   * Reading the sync counter from place `pos` of a stream of readings: the first
   * reading is the baseline, and the wait ends just after the first reading
   * that differs from it. None: the stream ends first (the script would spin).
   */
  function NextEdge(samples: seq<int>, pos: nat): (r: Option<nat>)
    ensures r.Some? ==> pos + 1 < r.value <= |samples| && samples[r.value - 1] != samples[pos]
    ensures r.Some? ==> forall k :: pos < k < r.value - 1 ==> samples[k] == samples[pos]
    ensures r.None? ==> forall k :: pos <= k < |samples| ==> samples[k] == samples[pos]
  {
    if pos >= |samples| then None else Scan(samples, pos, pos + 1)
  }

  function Scan(samples: seq<int>, pos: nat, k: nat): (r: Option<nat>)
    requires pos < k && pos < |samples|
    requires forall i :: pos < i < k && i < |samples| ==> samples[i] == samples[pos]
    ensures r.Some? ==> k < r.value <= |samples| && samples[r.value - 1] != samples[pos]
    ensures r.Some? ==> forall i :: pos < i < r.value - 1 ==> samples[i] == samples[pos]
    ensures r.None? ==> forall i :: pos <= i < |samples| ==> samples[i] == samples[pos]
    decreases |samples| - k
  {
    if k >= |samples| then None
    else if samples[k] != samples[pos] then Some(k + 1)
    else Scan(samples, pos, k + 1)
  }

  /** `sync_count = fe0.sync_count` and then `true while fe0.sync_count == sync_count`. */
  method WaitEdge(samples: seq<int>, pos: nat) returns (found: bool, next: nat)
    ensures found <==> NextEdge(samples, pos).Some?
    ensures found ==> next == NextEdge(samples, pos).value
  {
    if pos >= |samples| {
      return false, pos;
    }
    var baseline := samples[pos];
    var k := pos + 1;
    while k < |samples| && samples[k] == baseline
      invariant pos < k <= |samples|
      invariant forall i :: pos < i < k ==> samples[i] == samples[pos]
      invariant Scan(samples, pos, k) == Scan(samples, pos, pos + 1)
      decreases |samples| - k
    {
      k := k + 1;
    }
    if k < |samples| {
      found, next := true, k + 1;
    } else {
      found, next := false, k;
    }
  }

  /** Where the reading stream stands after n successful waits. */
  function Polls(samples: seq<int>, n: nat): Option<nat> {
    if n == 0 then Some(0)
    else match Polls(samples, n - 1)
      case None => None
      case Some(p) => NextEdge(samples, p)
  }

  /** Which of the three waits (two arm rounds, then the noise arm) never ends, if any. */
  function FirstStall(samples: seq<int>): Option<nat> {
    if Polls(samples, 1).None? then Some(0)
    else if Polls(samples, 2).None? then Some(1)
    else if Polls(samples, 3).None? then Some(2)
    else None
  }

  // ---------------------------------------------------------------- the run

  /**
   * How a run ends. Done carries the sync time stored in redis (none without sync).
   * NoDevices: sync is on but no engine was kept, so taking the first engine fails.
   * Stalled: the sync counter never moved during the given wait; a stall at
   * the noise wait (poll 2) comes after the sync time was stored, so it carries it.
   */
  datatype Outcome = Done(syncTime: Option<int>) | NoDevices | Stalled(poll: nat, syncTime: Option<int>)

  /** The outcome of a run, from the options, the number of kept engines, the counter readings and the clock. */
  function ExpectedOutcome(n: nat, cfg: Config, samples: seq<int>, clock: nat -> int): Outcome {
    if !cfg.sync then Done(None)
    else if n == 0 then NoDevices
    else match FirstStall(samples)
      case Some(p) => Stalled(p, if p == 2 then Some(clock(1) + 1) else None)
      case None => Done(Some(clock(1) + 1))
  }

  /** How far into the schedule a run gets before the given wait. */
  function StallPoint(poll: nat): nat {
    if poll == 0 then 7 else if poll == 1 then 9 else 12
  }

  function Rounds(n: nat): seq<Step> {
    if n == 0 then [] else Rounds(n - 1) + ArmRound
  }

  ghost function RegsOf(devs: seq<Fengine>): (m: seq<map<Reg, Val>>)
    reads devs
    ensures |m| == |devs|
  {
    seq(|devs|, k requires 0 <= k < |devs| reads devs => devs[k].regs)
  }

  /** Running more steps after a run of steps is running all of them. */
  lemma StepsExtend(a: seq<Step>, b: seq<Step>, fids: seq<int>, cfg: Config, t0: seq<Event>, t1: seq<Event>)
    requires t0 == Steps(a, fids, cfg) && t1 == t0 + Steps(b, fids, cfg)
    ensures t1 == Steps(a + b, fids, cfg)
  {
    StepsAppend(a, b, fids, cfg);
  }

  /**
   * The two arm rounds: wait for the counter to move, then set and clear the
   * arm bit on every engine and note the time. Stalled: the wait of that
   * round never ends.
   */
  method ArmRounds(devs: seq<Fengine>, fids: seq<int>, cfg: Config, samples: seq<int>, clock: nat -> int,
                   ghost init: seq<map<Reg, Val>>, trace0: seq<Event>)
    returns (trace: seq<Event>, pos: nat, stalled: Option<nat>, syncTime: Option<int>)
    requires |devs| == |fids| && Distinct(devs) && Synced(devs, init, trace0)
    modifies devs
    ensures Synced(devs, init, trace)
    ensures stalled.Some? ==> stalled.value < 2 && Polls(samples, stalled.value) .Some? && Polls(samples, stalled.value + 1).None?
    ensures stalled.Some? ==> trace == trace0 + Steps(Rounds(stalled.value), fids, cfg)
    ensures stalled.None? ==> Polls(samples, 2) == Some(pos) && syncTime == Some(clock(1) + 1)
    ensures stalled.None? ==> trace == trace0 + Steps(Rounds(2), fids, cfg)
  {
    trace, pos, stalled, syncTime := trace0, 0, None, None;
    assert trace0 + Steps([], fids, cfg) == trace0;
    var round := 0;
    while round < 2
      invariant 0 <= round <= 2
      invariant Polls(samples, round) == Some(pos)
      invariant trace == trace0 + Steps(Rounds(round), fids, cfg)
      invariant Synced(devs, init, trace)
      invariant round > 0 ==> syncTime == Some(clock(round - 1) + 1)
    {
      var found, next := WaitEdge(samples, pos);
      if !found {
        stalled := Some(round);
        return;
      }
      pos := next;
      ghost var before := trace;
      trace := RunSteps(devs, fids, cfg, ArmRound, init, trace);
      StepsAppend(Rounds(round), ArmRound, fids, cfg);
      AppendAssoc(trace0, Steps(Rounds(round), fids, cfg), Steps(ArmRound, fids, cfg));
      syncTime := Some(clock(round) + 1);
      round := round + 1;
    }
  }

  /**
   * The sync block from the first clear of the arm bit to the start of the
   * noise generators, with its three waits.
   */
  method RunSync(devs: seq<Fengine>, fids: seq<int>, cfg: Config, samples: seq<int>, clock: nat -> int,
                 ghost init: seq<map<Reg, Val>>, trace0: seq<Event>)
    returns (trace: seq<Event>, stalled: Option<nat>, syncTime: Option<int>)
    requires |devs| == |fids| && Distinct(devs) && Synced(devs, init, trace0)
    requires trace0 == Steps(PreSync, fids, cfg)
    modifies devs
    ensures Synced(devs, init, trace)
    ensures stalled == FirstStall(samples)
    ensures stalled.Some? ==> stalled.value < 3 && trace == Steps(Schedule(true)[..StallPoint(stalled.value)], fids, cfg)
    ensures stalled.None? ==> trace == Steps(PreSync + SyncSteps(), fids, cfg) && syncTime == Some(clock(1) + 1)
    ensures stalled == Some(2) ==> syncTime == Some(clock(1) + 1)
  {
    var cleared := RunSteps(devs, fids, cfg, [SyncClear], init, trace0);
    StepsExtend(PreSync, [SyncClear], fids, cfg, trace0, cleared);
    var pos;
    trace, pos, stalled, syncTime := ArmRounds(devs, fids, cfg, samples, clock, init, cleared);
    if stalled.Some? {
      StepsExtend(PreSync + [SyncClear], Rounds(stalled.value), fids, cfg, cleared, trace);
      StallPrefix(stalled.value);
      StallAt(samples, stalled.value);
      return;
    }
    StepsExtend(PreSync + [SyncClear], Rounds(2), fids, cfg, cleared, trace);
    var noiseStalled;
    trace, noiseStalled := ArmNoise(devs, fids, cfg, samples, pos, init, trace);
    if noiseStalled {
      stalled := Some(2);
      StallPrefix(2);
      StallAt(samples, 2);
    } else {
      NoStall(samples, pos);
    }
  }

  /**
   * Seeding the noise generators, waiting for the counter once more, then
   * arming them; stalled when that wait never ends.
   */
  method ArmNoise(devs: seq<Fengine>, fids: seq<int>, cfg: Config, samples: seq<int>, pos: nat,
                  ghost init: seq<map<Reg, Val>>, trace0: seq<Event>)
    returns (trace: seq<Event>, stalled: bool)
    requires |devs| == |fids| && Distinct(devs) && Synced(devs, init, trace0)
    requires trace0 == Steps(PreSync + [SyncClear] + Rounds(2), fids, cfg)
    modifies devs
    ensures Synced(devs, init, trace)
    ensures stalled <==> NextEdge(samples, pos).None?
    ensures stalled ==> trace == Steps(PreSync + [SyncClear] + Rounds(2) + [SeedNoise], fids, cfg)
    ensures !stalled ==> trace == Steps(PreSync + SyncSteps(), fids, cfg)
  {
    ghost var armed := PreSync + [SyncClear] + Rounds(2);
    trace := RunSteps(devs, fids, cfg, [SeedNoise], init, trace0);
    StepsExtend(armed, [SeedNoise], fids, cfg, trace0, trace);
    var found, next := WaitEdge(samples, pos);
    stalled := !found;
    if found {
      ghost var t := trace;
      trace := RunSteps(devs, fids, cfg, [StartNoise], init, trace);
      StepsExtend(armed + [SeedNoise], [StartNoise], fids, cfg, t, trace);
      SyncShape();
    }
  }

  /** The sync block is the first clear, the two rounds and the noise setup. */
  lemma SyncShape()
    ensures PreSync + [SyncClear] + Rounds(2) + [SeedNoise] + [StartNoise] == PreSync + SyncSteps()
  {
    assert Rounds(2) == ArmRound + ArmRound;
  }

  /**
   * The configuration run over the kept engines, with their FIDs. The
   * counter readings stand for `fe0.sync_count`, and `clock(r)` for
   * `Time.now.to_i` in arm round r.
   */
  method Configure(devs: seq<Fengine>, fids: seq<int>, cfg: Config, samples: seq<int>, clock: nat -> int)
    returns (trace: seq<Event>, outcome: Outcome)
    requires |devs| == |fids| && Distinct(devs)
    modifies devs
    ensures forall k :: 0 <= k < |devs| ==> devs[k].regs == Replay(old(devs[k].regs), trace, k)
    ensures outcome == ExpectedOutcome(|devs|, cfg, samples, clock)
    ensures outcome.Done? ==> trace == Plan(fids, cfg)
    ensures outcome.NoDevices? ==> trace == []
    ensures outcome.Stalled? ==> outcome.poll < 3 && trace == Steps(Schedule(true)[..StallPoint(outcome.poll)], fids, cfg)
  {
    ghost var init := RegsOf(devs);
    trace := RunSteps(devs, fids, cfg, PreSync, init, []);
    assert trace == Steps(PreSync, fids, cfg);
    var syncTime: Option<int> := None;
    ghost var before := PreSync;
    if cfg.sync {
      if |devs| == 0 {
        EmptySweeps(PreSync, fids, cfg);
        outcome := NoDevices;
        return;
      }
      var stalled;
      trace, stalled, syncTime := RunSync(devs, fids, cfg, samples, clock, init, trace);
      if stalled.Some? {
        outcome := Stalled(stalled.value, if stalled.value == 2 then syncTime else None);
        return;
      }
      before := PreSync + SyncSteps();
    } else {
      assert PreSync + [] == PreSync;
    }
    ghost var t := trace;
    trace := RunSteps(devs, fids, cfg, PostSync, init, trace);
    StepsExtend(before, PostSync, fids, cfg, t, trace);
    outcome := Done(syncTime);
  }

  /** The steps done before the given wait. */
  lemma StallPrefix(poll: nat)
    requires poll < 3
    ensures poll < 2 ==> Schedule(true)[..StallPoint(poll)] == PreSync + [SyncClear] + Rounds(poll)
    ensures poll == 2 ==> Schedule(true)[..StallPoint(poll)] == PreSync + [SyncClear] + Rounds(2) + [SeedNoise]
  {
    assert Rounds(1) == ArmRound;
    assert Rounds(2) == ArmRound + ArmRound;
  }

  /** The first wait that never ends is the one reached but not passed. */
  lemma StallAt(samples: seq<int>, p: nat)
    requires p < 3 && Polls(samples, p).Some? && Polls(samples, p + 1).None?
    ensures FirstStall(samples) == Some(p)
  {
    if p == 2 {
      assert Polls(samples, 1).Some?;
    }
  }

  lemma NoStall(samples: seq<int>, pos: nat)
    requires Polls(samples, 2) == Some(pos) && NextEdge(samples, pos).Some?
    ensures FirstStall(samples) == None
  {
    assert Polls(samples, 1).Some?;
  }

  /** With no engines every sweep is empty. */
  lemma {:induction false} EmptySweeps(ss: seq<Step>, fids: seq<int>, cfg: Config)
    requires fids == []
    ensures Steps(ss, fids, cfg) == []
    decreases |ss|
  {
    if ss != [] {
      StepsLast(ss, fids, cfg);
      EmptySweeps(ss[..|ss| - 1], fids, cfg);
    }
  }

  /** A run that stops at a wait has written only zeros to the transmit enables. */
  lemma StalledTransmitOff(fids: seq<int>, cfg: Config, poll: nat)
    requires poll < 3
    ensures Filter(Steps(Schedule(true)[..StallPoint(poll)], fids, cfg), TxEnable) == Sweep(DisableTx, fids, cfg)
  {
    var done := Schedule(true)[..StallPoint(poll)];
    var rest := SyncSteps()[..StallPoint(poll) - |PreSync|];
    StalledSteps(poll);
    FilterSteps(done, fids, cfg, TxEnable);
    KeepAppend(PreSync, rest, TxEnable);
    PreSyncKeepTx();
    KeepNone(rest, TxEnable);
    StepsSingle(DisableTx, fids, cfg);
  }

  lemma StalledSteps(poll: nat)
    requires poll < 3
    ensures Schedule(true)[..StallPoint(poll)] == PreSync + SyncSteps()[..StallPoint(poll) - |PreSync|]
    ensures forall i :: 0 <= i < StallPoint(poll) - |PreSync| ==> !StepIn(SyncSteps()[i], TxEnable)
  {
  }

  /** Register r of a device holds v. */
  predicate Holds(regs: map<Reg, Val>, r: Reg, v: Val) {
    r in regs && regs[r] == v
  }

  /**
   * After a completed run, whatever engine j held before: both transmitters
   * are on, the FID and the settings are the configured ones, each link has
   * its addresses, and the network resets are released.
   */
  lemma ConfiguredState(fids: seq<int>, cfg: Config, m: map<Reg, Val>, j: int)
    requires 0 <= j < |fids|
    ensures var regs := Replay(m, Plan(fids, cfg), j);
      && Holds(regs, EthSwEn, Word(1)) && Holds(regs, EthGpuEn, Word(1))
      && Holds(regs, Fid, Word(fids[j]))
      && Holds(regs, FftShift, Word(cfg.fftShift)) && Holds(regs, CtMode, Word(cfg.ctMode))
      && Holds(regs, InSel, Inputs(cfg.noise))
      && (forall r :: ResetReg(r) ==> Holds(regs, r, Word(0)))
      && (cfg.sync ==> Holds(regs, SyncArm, Word(0)))
      && (cfg.sync ==> forall g :: 0 <= g < NoiseGens ==> Holds(regs, Seed(g), Word(cfg.seed)))
  {
    var t := Plan(fids, cfg);
    TransmitHistory(fids, cfg, j);
    ReplayLastWrite(m, t, j, EthSwEn);
    ReplayLastWrite(m, t, j, EthGpuEn);
    FidHistory(fids, cfg, j);
    ReplayLastWrite(m, t, j, Fid);
    SettingsHistory(fids, cfg, j, 0);
    ReplayLastWrite(m, t, j, FftShift);
    ReplayLastWrite(m, t, j, CtMode);
    ReplayLastWrite(m, t, j, InSel);
    forall r | ResetReg(r)
      ensures Holds(Replay(m, t, j), r, Word(0))
    {
      ResetHistory(fids, cfg, j, r);
      ReplayLastWrite(m, t, j, r);
    }
    SyncArmHistory(fids, cfg, j);
    ReplayLastWrite(m, t, j, SyncArm);
    forall g | 0 <= g < NoiseGens && cfg.sync
      ensures Holds(Replay(m, t, j), Seed(g), Word(cfg.seed))
    {
      SeedHistory(fids, cfg, j, g);
      ReplayLastWrite(m, t, j, Seed(g));
    }
  }

  /** With the script's default options: all 11 FFT stages shift, corner-turner mode 0, the ADC inputs, the sync armed and cleared, and every seed 0x11111111. */
  lemma DefaultConfiguredState(fids: seq<int>, resolve: string -> int, m: map<Reg, Val>, j: int)
    requires 0 <= j < |fids|
    ensures var regs := Replay(m, Plan(fids, DefaultConfig(resolve)), j);
      && Holds(regs, FftShift, Word(2047)) && Holds(regs, CtMode, Word(0))
      && Holds(regs, InSel, Inputs(false))
      && Holds(regs, SyncArm, Word(0))
      && forall g :: 0 <= g < NoiseGens ==> Holds(regs, Seed(g), Word(0x1111_1111))
  {
    ConfiguredState(fids, DefaultConfig(resolve), m, j);
  }

  /** After a completed run, link i of engine j carries its own addresses, ARP table and peer. */
  lemma ConfiguredLinks(fids: seq<int>, cfg: Config, m: map<Reg, Val>, j: int, r: Reg)
    requires 0 <= j < |fids| && LinkReg(r) && 0 <= r.link < LinksPerEngine
    ensures Holds(Replay(m, Plan(fids, cfg), j), r, LinkValue(fids[j], cfg, r))
  {
    LinkHistory(fids, cfg, j, r);
    ReplayLastWrite(m, Plan(fids, cfg), j, r);
  }

  // ---------------------------------------------------------------- pre-flight

  /** What connecting to one engine shows: whether it answered, whether it is programmed, its device names. */
  datatype Probe = Probe(connected: bool, programmed: bool, devices: seq<string>)

  /** A usable F engine: it answers, is programmed, and lists the first XAUI core of the F-engine design. */
  predicate Passes(p: Probe) {
    p.connected && p.programmed && "eth_0_xip" in p.devices
  }

  /** The entries (HOST:FID pairs, say) whose engines pass, in argument order: what the per-engine map and `compact!` keep. */
  function Kept<T>(hfs: seq<T>, probes: seq<Probe>): seq<T>
    requires |hfs| == |probes|
  {
    if hfs == [] then []
    else
      var n := |hfs| - 1;
      Kept(hfs[..n], probes[..n]) + (if Passes(probes[n]) then [hfs[n]] else [])
  }

  /** The positions of the passing engines, in increasing order. */
  function PassingIndices(probes: seq<Probe>): (idx: seq<nat>)
    ensures forall i :: 0 <= i < |idx| ==> idx[i] < |probes| && Passes(probes[idx[i]])
    ensures forall i, k :: 0 <= i < k < |idx| ==> idx[i] < idx[k]
    ensures forall k :: 0 <= k < |probes| && Passes(probes[k]) ==> k in idx
  {
    if probes == [] then []
    else
      var n := |probes| - 1;
      var before := PassingIndices(probes[..n]);
      assert forall i :: 0 <= i < |before| ==> probes[..n][before[i]] == probes[before[i]];
      before + (if Passes(probes[n]) then [n] else [])
  }

  /** Exactly the passing engines are kept, each with its own FID, and their order is kept. */
  lemma {:induction false} KeptSpec<T>(hfs: seq<T>, probes: seq<Probe>)
    requires |hfs| == |probes|
    ensures |Kept(hfs, probes)| == |PassingIndices(probes)|
    ensures forall i :: 0 <= i < |Kept(hfs, probes)| ==> Kept(hfs, probes)[i] == hfs[PassingIndices(probes)[i]]
    decreases |hfs|
  {
    if hfs != [] {
      var n := |hfs| - 1;
      KeptSpec(hfs[..n], probes[..n]);
    }
  }

  /** When every engine passes, all are kept. */
  lemma {:induction false} KeptAll(hfs: seq<HostFid>, probes: seq<Probe>)
    requires |hfs| == |probes| && forall k :: 0 <= k < |probes| ==> Passes(probes[k])
    ensures Kept(hfs, probes) == hfs
    decreases |hfs|
  {
    if hfs != [] {
      var n := |hfs| - 1;
      KeptAll(hfs[..n], probes[..n]);
      assert hfs[..n] + [hfs[n]] == hfs;
    }
  }

  /**
   * The pre-flight as the script runs it: the block's `return nil` on a
   * failing engine leaves the script, so one failing engine stops the whole
   * run before `compact!` is reached.
   */
  function PreflightAsWritten(hfs: seq<HostFid>, probes: seq<Probe>): (r: Option<seq<HostFid>>)
    requires |hfs| == |probes|
    ensures r.Some? <==> forall k :: 0 <= k < |probes| ==> Passes(probes[k])
    ensures r.Some? ==> r.value == hfs
  {
    if hfs == [] then Some([])
    else if !Passes(probes[0]) then None
    else
      match PreflightAsWritten(hfs[1..], probes[1..])
      case None => None
      case Some(rest) => assert hfs == [hfs[0]] + hfs[1..]; Some([hfs[0]] + rest)
  }

  /** The two agree exactly when no engine fails. */
  lemma AsWrittenAgrees(hfs: seq<HostFid>, probes: seq<Probe>)
    requires |hfs| == |probes| && forall k :: 0 <= k < |probes| ==> Passes(probes[k])
    ensures PreflightAsWritten(hfs, probes) == Some(Kept(hfs, probes))
  {
    KeptAll(hfs, probes);
  }

  /** Two engines, the second not programmed: the script stops, though the first should be configured. */
  lemma AsWrittenDropsGoodEngine()
    ensures PreflightAsWritten([HostFid("pf1", 0), HostFid("pf2", 1)],
                               [Probe(true, true, ["eth_0_xip"]), Probe(true, false, [])]) == None
    ensures Kept([HostFid("pf1", 0), HostFid("pf2", 1)],
                 [Probe(true, true, ["eth_0_xip"]), Probe(true, false, [])]) == [HostFid("pf1", 0)]
  {
    var hfs := [HostFid("pf1", 0), HostFid("pf2", 1)];
    var probes := [Probe(true, true, ["eth_0_xip"]), Probe(true, false, [])];
    assert !Passes(probes[1]);
    assert hfs[..1] == [HostFid("pf1", 0)] && probes[..1] == [Probe(true, true, ["eth_0_xip"])];
    assert hfs[..1][..0] == [] && probes[..1][..0] == [];
  }

  lemma KeptStep<T>(hfs: seq<T>, probes: seq<Probe>, k: nat)
    requires |hfs| == |probes| && k < |hfs|
    ensures Kept(hfs[..k + 1], probes[..k + 1]) == Kept(hfs[..k], probes[..k]) + (if Passes(probes[k]) then [hfs[k]] else [])
  {
    assert hfs[..k + 1][..k] == hfs[..k] && probes[..k + 1][..k] == probes[..k];
  }

  /**
   * Connecting to every engine and keeping those that pass, with their FIDs;
   * an engine's registers start as `regs` gives them.
   */
  method Connect(hfs: seq<HostFid>, probes: seq<Probe>, regs: seq<map<Reg, Val>>)
    returns (devs: seq<Fengine>, fids: seq<int>)
    requires |hfs| == |probes| == |regs|
    ensures |devs| == |fids| == |Kept(hfs, probes)| == |Kept(regs, probes)| && Distinct(devs)
    ensures forall i :: 0 <= i < |devs| ==> fresh(devs[i])
    ensures forall i :: 0 <= i < |devs| ==> devs[i].host == Kept(hfs, probes)[i].host && fids[i] == Kept(hfs, probes)[i].fid
    ensures forall i :: 0 <= i < |devs| ==> devs[i].regs == Kept(regs, probes)[i]
  {
    devs, fids := [], [];
    ghost var kept: seq<HostFid> := [];
    ghost var start: seq<map<Reg, Val>> := [];
    for k := 0 to |hfs|
      invariant kept == Kept(hfs[..k], probes[..k]) && start == Kept(regs[..k], probes[..k])
      invariant |devs| == |fids| == |kept| == |start| && Distinct(devs)
      invariant forall i :: 0 <= i < |devs| ==> fresh(devs[i])
      invariant forall i :: 0 <= i < |devs| ==> devs[i].host == kept[i].host && fids[i] == kept[i].fid
      invariant forall i :: 0 <= i < |devs| ==> devs[i].regs == start[i]
    {
      KeptStep(hfs, probes, k);
      KeptStep(regs, probes, k);
      if Passes(probes[k]) {
        var fe := new Fengine(hfs[k].host, regs[k]);
        devs, fids := devs + [fe], fids + [hfs[k].fid];
        kept, start := kept + [hfs[k]], start + [regs[k]];
      }
    }
    assert hfs[..|hfs|] == hfs && probes[..|hfs|] == probes && regs[..|hfs|] == regs;
  }

  // ---------------------------------------------------------------- the script

  /** How the script ends: usage text, a HOST:FID it cannot read, or a run. */
  datatype Exit = Usage | BadArg(arg: string) | Ran(outcome: Outcome)

  function FidsOf(hfs: seq<HostFid>): (fids: seq<int>)
    ensures |fids| == |hfs| && forall i :: 0 <= i < |hfs| ==> fids[i] == hfs[i].fid
  {
    seq(|hfs|, i requires 0 <= i < |hfs| => hfs[i].fid)
  }

  /**
   * paper_feng_init.rb end to end: read the arguments, connect and check
   * each engine, then configure the engines kept.
   */
  method InitFengines(args: seq<string>, probes: seq<Probe>, regs: seq<map<Reg, Val>>,
                      cfg: Config, samples: seq<int>, clock: nat -> int)
    returns (exit: Exit, devs: seq<Fengine>, trace: seq<Event>)
    requires forall k :: 0 <= k < |args| ==> ParsableArg(args[k])
    requires |probes| == |args| == |regs|
    ensures args == [] ==> exit == Usage && devs == [] && trace == []
    ensures args != [] && ParseArgs(args).Err? ==> exit == BadArg(ParseArgs(args).error) && devs == [] && trace == []
    ensures args != [] && ParseArgs(args).Ok? ==>
      var kept := Kept(ParseArgs(args).value, probes);
      && |devs| == |kept| == |Kept(regs, probes)|
      && (forall i :: 0 <= i < |devs| ==> fresh(devs[i]) && devs[i].host == kept[i].host)
      && exit == Ran(ExpectedOutcome(|kept|, cfg, samples, clock))
      && (exit.outcome.Done? ==> trace == Plan(FidsOf(kept), cfg))
      && (forall i :: 0 <= i < |devs| ==> devs[i].regs == Replay(Kept(regs, probes)[i], trace, i))
  {
    devs, trace := [], [];
    if args == [] {
      return Usage, devs, trace;
    }
    var parsed := ParseArgs(args);
    if parsed.Err? {
      return BadArg(parsed.error), devs, trace;
    }
    var fids;
    devs, fids := Connect(parsed.value, probes, regs);
    assert fids == FidsOf(Kept(parsed.value, probes));
    var outcome;
    trace, outcome := Configure(devs, fids, cfg, samples, clock);
    exit := Ran(outcome);
  }
}
