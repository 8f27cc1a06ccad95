/**
  A device's whole life: boots, each with its recovery and any number of update cycles, each ended by a power cut
  after any number of steps.  Every guarantee that is stated over runs holds at the end of every life.
 */
module Lifetime {
  import opened Wrappers
  import opened StateStore
  import opened World
  import Agent
  import Cycle
  import Host
  import HostSafety
  import Reconciler
  import Safety

  /** One boot: the recovery, the cycles until the power goes, and after how many of all these steps it goes. */
  datatype Boot = Boot(recovery: Reconciler.RecoveryAnswers, cycles: seq<Agent.Answers>, cut: nat)

  ghost predicate AllPlausible(cfg: Config, plan: seq<Boot>) {
    forall b :: b in plan ==> forall a :: a in b.cycles ==> Agent.Plausible(cfg, a)
  }

  /** The cycles have been started at these points of the trace, one after another. */
  ghost predicate Started(trace: seq<Event>, from: nat, cycles: seq<Agent.Answers>, starts: seq<nat>) {
    && |starts| == |cycles|
    && (forall i :: 0 <= i < |starts| ==> from <= starts[i] < |trace| && trace[starts[i]] == Cycle(cycles[i].offer))
    && (forall i, j :: 0 <= i < j < |starts| ==> starts[i] < starts[j])
  }

  lemma OneMoreStarted(before: seq<Event>, trace: seq<Event>, from: nat, cycles: seq<Agent.Answers>, n: nat, starts: seq<nat>)
    requires n < |cycles| && Started(before, from, cycles[..n], starts) && from <= |before|
    requires before + [Cycle(cycles[n].offer)] <= trace
    ensures Started(trace, from, cycles[..n + 1], starts + [|before|])
  {
    assert trace[|before|] == (before + [Cycle(cycles[n].offer)])[|before|];
    assert forall i :: 0 <= i < |before| ==> trace[i] == (before + [Cycle(cycles[n].offer)])[i];
  }

  /** The cycles of one boot, one after another; a cycle that raises ends, and the timer starts the next one. */
  method RunCycles(dev: Device, cycles: seq<Agent.Answers>) returns (ghost starts: seq<nat>)
    requires dev.Valid() && Host.AllSound(dev.w.host) && forall a :: a in cycles ==> Agent.Plausible(dev.cfg, a)
    modifies dev
    ensures dev.Valid() && Host.AllSound(dev.w.host) && old(dev.trace) <= dev.trace
    ensures Started(dev.trace, |old(dev.trace)|, cycles, starts)
  {
    starts := [];
    for i := 0 to |cycles|
      invariant dev.Valid() && Host.AllSound(dev.w.host) && old(dev.trace) <= dev.trace
      invariant Started(dev.trace, |old(dev.trace)|, cycles[..i], starts)
    {
      ghost var before := dev.trace;
      var _, _, _ := Cycle.RunOnce(dev, cycles[i]);
      OneMoreStarted(before, dev.trace, |old(dev.trace)|, cycles, i, starts);
      starts := starts + [|before|];
    }
    assert cycles[..|cycles|] == cycles;
  }

  /** One boot, up to the power cut: only a prefix of its steps has happened, and nothing from before it is lost. */
  method LiveOnce(dev: Device, boot: Boot)
    requires dev.Valid() && dev.w.session.offer.None? && Host.AllSound(dev.start.host) && Host.AllSound(dev.w.host)
    requires forall a :: a in boot.cycles ==> Agent.Plausible(dev.cfg, a)
    modifies dev
    ensures dev.Valid() && dev.w.session.offer.None? && Host.AllSound(dev.w.host)
    ensures old(dev.trace) <= dev.trace && dev.trace != [] && Last(dev.trace) == Reboot
  {
    var k := |dev.trace| + boot.cut;
    var _, _, _ := Reconciler.Reconcile(dev, boot.recovery);
    var _ := RunCycles(dev, boot.cycles);
    dev.PowerCut(if k <= |dev.trace| then k else |dev.trace|);
    dev.HowItGotHere();
    Safety.HostStaysSound(dev.cfg, dev.start, dev.trace);
  }

  /** What every life keeps, whatever was answered, whichever writes were lost and wherever the power was cut. */
  ghost predicate Guaranteed(cfg: Config, w0: World, trace: seq<Event>, w: World) {
    && (forall v :: Safety.Starts(trace, v) <= Max(0, MAX_ATTEMPTS - Attempts(w0.state, v)) + Safety.LostAttempts(trace, v))
    && Safety.FilesKnown(w0, trace, w.files) && HostSafety.TreesKnown(cfg, w0, trace, w.host)
    && Watermark(w0.state) <= Watermark(w.state)
    && (forall v :: v in w0.state.poisoned ==> v in w.state.poisoned)
    && (cfg.noFlash ==> Safety.SameDevice(w0, w))
  }

  lemma LifeIsGuaranteed(cfg: Config, w0: World, trace: seq<Event>)
    requires Life(cfg, w0, trace)
    ensures Guaranteed(cfg, w0, trace, Run(w0, trace))
  {
    forall v: string
      ensures Safety.Starts(trace, v) <= Max(0, MAX_ATTEMPTS - Attempts(w0.state, v)) + Safety.LostAttempts(trace, v)
    {
      Safety.FlashBudget(cfg, w0, trace, v);
    }
    Safety.LineageInvariant(cfg, w0, trace);
    HostSafety.HostInvariant(cfg, w0, trace);
    Safety.WatermarkNeverFalls(cfg, w0, trace, 0);
    assert trace[..0] == [];
    forall v | v in w0.state.poisoned
      ensures v in Run(w0, trace).state.poisoned
    {
      Safety.PoisonStays(cfg, w0, trace, 0, v);
    }
    if cfg.noFlash {
      Safety.VerifyOnlyChangesNothing(cfg, w0, trace);
    }
  }

  method Live(dev: Device, plan: seq<Boot>)
    requires dev.Valid() && dev.trace == [] && dev.w == dev.start && Host.AllSound(dev.start.host)
    requires dev.w.session == REST && AllPlausible(dev.cfg, plan)
    modifies dev
    ensures dev.Valid() && dev.w.session.offer.None? && Host.AllSound(dev.w.host)
    ensures Guaranteed(dev.cfg, dev.start, dev.trace, dev.w)
  {
    for i := 0 to |plan|
      invariant dev.Valid() && dev.w.session.offer.None? && Host.AllSound(dev.w.host)
    {
      assert plan[i] in plan;
      LiveOnce(dev, plan[i]);
    }
    dev.HowItGotHere();
    LifeIsGuaranteed(dev.cfg, dev.start, dev.trace);
  }

  /** From wherever any life was cut, whatever the state file holds, a good golden.bin brings the board back. */
  method RecoverAfter(dev: Device, plan: seq<Boot>, a: Reconciler.RecoveryAnswers) returns (r: Reconciler.Result)
    requires dev.Valid() && dev.trace == [] && dev.w == dev.start && Host.AllSound(dev.start.host)
    requires dev.w.session == REST && AllPlausible(dev.cfg, plan)
    requires Reconciler.Works(dev.cfg, a, GoldenBin, dev.start.files.golden)
    modifies dev
    ensures dev.Valid() && r.healthy
  {
    Live(dev, plan);
    ghost var w := dev.w;
    ghost var k, flashes;
    r, k, flashes := Reconciler.Reconcile(dev, a);
    Reconciler.GoldenAlwaysSaves(dev.cfg, a, w, r, dev.w.mcu, flashes);
  }
}
