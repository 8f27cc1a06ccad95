/**
  The update protocol as a state machine.

  `World` is everything a device holds: the state file, the image files, the MCU's flash, the host tree, and the
  session the running process keeps in memory.  `Event` is one atomic step or one observation, `Step` what it does,
  and `Legal` when the protocol allows it.  A power cut is a run that simply stops: `LegalRun` is closed under
  prefixes, so whatever is proved of every legal run holds at every point a device can lose power.
 */
module World {
  import opened Wrappers
  import opened StateStore
  import Artifact
  import Host
  import Json
  import Verify

  // ---------------------------------------------------------------------------------------------
  // What a device holds

  datatype Update = Update(version: string, sequence: int, manifest: Verify.Manifest)

  /** An offer as every manifest source builds it: the version's text, and `int()` of the manifest's sequence. */
  ghost predicate FromManifest(u: Update) {
    && "version" in u.manifest && (u.manifest["version"].Str? ==> u.version == u.manifest["version"].s)
    && "sequence" in u.manifest && Json.ToInt(u.manifest["sequence"]) == Some(u.sequence)
  }

  /** The names in the state directory; `TempFile` is the temporary file of an atomic copy in progress. */
  datatype Name = CurrentBin | PreviousBin | GoldenBin | StagedBin | StagedHost | TempFile

  datatype Files = Files(current: Option<Bytes>, previous: Option<Bytes>, golden: Option<Bytes>,
                         staged: Option<Bytes>, stagedHost: Option<Bytes>, temp: Option<Bytes>)

  function At(f: Files, name: Name): Option<Bytes> {
    match name
    case CurrentBin => f.current
    case PreviousBin => f.previous
    case GoldenBin => f.golden
    case StagedBin => f.staged
    case StagedHost => f.stagedHost
    case TempFile => f.temp
  }

  function With(f: Files, name: Name, data: Option<Bytes>): Files {
    match name
    case CurrentBin => f.(current := data)
    case PreviousBin => f.(previous := data)
    case GoldenBin => f.(golden := data)
    case StagedBin => f.(staged := data)
    case StagedHost => f.(stagedHost := data)
    case TempFile => f.(temp := data)
  }

  /** The sketch partition: a whole image, or the leftovers of an erase or a cut write. */
  datatype Mcu = Running(image: Bytes) | Torn

  datatype Status = DOWNLOADING | WAITING_FOR_GATE | FLASHING | COMMITTED | ROLLED_BACK | REJECTED | VERIFIED

  datatype Why = ForUpdate(version: string) | Restore(name: Name)

  datatype Write =
    | SetPhase(phase: Phase, shown: Option<string>, core: Option<string>)
    | RecordAttempt(version: string)
    | Poison(version: string)
    | Stamp(version: string, sequence: int)
    | Commit(version: string, sequence: int, hadCurrent: bool)

  /** What the process has established about the offer and the MCU since the cycle began. */
  datatype Facts = Facts(signed: bool, accepted: Option<Bytes>, flashing: Option<(Bytes, Why)>, flashed: bool, healthy: bool)

  const NOTHING_YET := Facts(false, None, None, false, false)

  /** What the process remembers of the cycle it is in; gone after a reboot. */
  datatype Session = Session(
    offer: Option<Update>,
    phase: Option<Phase>,
    charged: bool,
    facts: Facts,
    hostReady: bool,
    kept: bool,
    replaced: bool,
    status: Option<Status>)

  const REST := Session(None, None, false, NOTHING_YET, false, false, false, None)

  datatype World = World(state: State, files: Files, mcu: Mcu, host: Host.Dirs, session: Session)

  datatype Config = Config(trust: Verify.Trust, target: Verify.Target, noFlash: bool, unpack: Bytes -> Option<Host.Tree>)

  datatype Event =
    | Reboot
    | Cycle(offer: Option<Update>)
    | Stored(write: Write)
    | Lost(write: Write)
    | Reported(status: Status)
    | Fetched(name: Name, left: Option<Bytes>)
    | Unlinked(name: Name)
    | Discarded(resident: Option<Artifact.Header>)
    | Signed(version: string, now: int)
    | AcceptedImage(version: string, image: Bytes)
    | FlashStarted(image: Bytes, why: Why)
    | Erased
    | Programmed
    | Healthy(version: string, image: Bytes)
    | HostChanged(dirs: Host.Dirs)
    | HostReady
    | TempWritten(data: Option<Bytes>)
    | Replaced(name: Name)

  // ---------------------------------------------------------------------------------------------
  // What a step does

  function Written(s: State, wr: Write): State {
    match wr
    case SetPhase(p, shown, core) => s.(phase := p, version := shown, coreVersion := core)
    case RecordAttempt(v) => WithAttempt(s, v)
    case Poison(v) => WithPoison(s, v)
    case Stamp(v, n) => s.(lastVerifiedSequence := n, lastVerifiedVersion := Some(v))
    case Commit(v, n, hadCurrent) =>
      s.(phase := Committed, version := Some(v), sequence := n, committedVersion := Some(v),
         previousVersion := if hadCurrent then s.committedVersion else s.previousVersion)
  }

  function StateAfter(s: State, e: Event): State {
    if e.Stored? then Written(s, e.write) else s
  }

  function FilesAfter(f: Files, e: Event): Files {
    match e
    case Fetched(name, left) => With(f, name, left)
    case Unlinked(name) => With(f, name, None)
    case Discarded(_) => f.(current := None)
    case TempWritten(data) => f.(temp := data)
    case Replaced(name) => With(f, name, f.temp).(temp := None)
    case _ => f
  }

  function McuAfter(m: Mcu, flashing: Option<(Bytes, Why)>, e: Event): Mcu {
    match e
    case Erased => Torn
    case Programmed => if flashing.Some? then Running(flashing.value.0) else m
    case _ => m
  }

  function FactsAfter(f: Facts, e: Event): Facts {
    match e
    case Reboot => NOTHING_YET
    case Cycle(_) => NOTHING_YET
    case Signed(_, _) => f.(signed := true)
    case AcceptedImage(_, image) => f.(accepted := Some(image))
    case FlashStarted(image, why) => f.(flashing := Some((image, why)))
    case Programmed =>
      f.(flashing := None, flashed := f.flashed || (f.flashing.Some? && f.flashing.value.1.ForUpdate?))
    case Healthy(_, _) => f.(healthy := true)
    case _ => f
  }

  /** Whether an attempt has been charged and not yet spent on a flash. */
  function ChargeAfter(charged: bool, e: Event): bool {
    match e
    case Reboot => false
    case Cycle(_) => false
    case Stored(wr) => charged || wr.RecordAttempt?
    case Lost(wr) => charged || wr.RecordAttempt?
    case FlashStarted(_, why) => charged && why.Restore?
    case _ => charged
  }

  /** The last phase the process tried to write this cycle, whether or not the disk took it. */
  function PhaseAfter(phase: Option<Phase>, e: Event): Option<Phase> {
    match e
    case Reboot => None
    case Cycle(_) => None
    case Stored(wr) => PhaseTried(phase, wr)
    case Lost(wr) => PhaseTried(phase, wr)
    case _ => phase
  }

  function PhaseTried(phase: Option<Phase>, wr: Write): Option<Phase> {
    if wr.SetPhase? then Some(wr.phase) else if wr.Commit? then Some(Committed) else phase
  }

  predicate StartsOver(e: Event) {
    e.Reboot? || e.Cycle?
  }

  function SessionAfter(s: Session, e: Event): Session {
    Session(
      if e.Cycle? then e.offer else if e.Reboot? then None else s.offer,
      PhaseAfter(s.phase, e),
      ChargeAfter(s.charged, e),
      FactsAfter(s.facts, e),
      !StartsOver(e) && (s.hostReady || e.HostReady?),
      !StartsOver(e) && (s.kept || e == Replaced(PreviousBin)),
      !StartsOver(e) && (s.replaced || e == Replaced(CurrentBin)),
      if StartsOver(e) then None else if e.Reported? then Some(e.status) else s.status)
  }

  function Step(w: World, e: Event): World {
    World(StateAfter(w.state, e), FilesAfter(w.files, e), McuAfter(w.mcu, w.session.facts.flashing, e),
          if e.HostChanged? then e.dirs else w.host, SessionAfter(w.session, e))
  }

  // ---------------------------------------------------------------------------------------------
  // When the protocol allows it

  predicate IsCandidate(name: Name) {
    name == CurrentBin || name == PreviousBin || name == GoldenBin
  }

  /** The offer may be fetched: neither poisoned nor capped, and newer than anything committed or verified. */
  predicate Admitted(w: World) {
    && w.session.offer.Some?
    && var u := w.session.offer.value;
       u.version !in w.state.poisoned && Attempts(w.state, u.version) < MAX_ATTEMPTS && u.sequence > Watermark(w.state)
  }

  function HostBlock(u: Update): Option<Verify.Manifest> {
    Verify.Block(u.manifest, "host_payload")
  }

  /** The order in which the phases of a cycle follow one another, and what each of them needs. */
  predicate MaySetPhase(cfg: Config, w: World, p: Phase, shown: Option<string>) {
    && w.session.offer.Some?
    && var s := w.session;
       var labelled := shown == Some(s.offer.value.version);
       match p
       case Idle => shown.None?
       case Downloading => labelled && s.phase.None? && Admitted(w)
       case Verifying => labelled && s.phase == Some(Downloading)
       case Staged => labelled && s.phase == Some(Verifying) && s.facts.accepted.Some? && !cfg.noFlash
       case Flashing => labelled && s.phase == Some(Staged) && s.charged
       case HealthCheck => labelled && s.phase == Some(Flashing) && s.facts.flashed
       case RollingBack => labelled && s.phase == Some(HealthCheck) && !(s.facts.healthy && s.hostReady)
       case RolledBack => shown.None? && s.phase == Some(RollingBack) && s.status == Some(ROLLED_BACK)
       case Rejected => s.status == Some(REJECTED) && if s.phase == Some(RollingBack) then shown.None? else labelled
       case Committed => false
  }

  predicate MayWrite(cfg: Config, w: World, wr: Write) {
    && w.session.offer.Some?
    && var u, s := w.session.offer.value, w.session;
       match wr
       case SetPhase(p, shown, core) => core == cfg.target.coreVersion && MaySetPhase(cfg, w, p, shown)
       case RecordAttempt(v) => v == u.version && s.facts.signed && !s.charged && Attempts(w.state, v) < MAX_ATTEMPTS
       case Poison(v) =>
         v == u.version && (s.facts.signed || v in w.state.poisoned || Attempts(w.state, v) >= MAX_ATTEMPTS)
       case Stamp(v, n) =>
         && v == u.version && n == u.sequence && n > Watermark(w.state)
         && cfg.noFlash && s.facts.accepted.Some? && w.files.staged.None? && w.files.stagedHost.None?
       case Commit(v, n, hadCurrent) =>
         && v == u.version && n == u.sequence && n > Watermark(w.state)
         && !cfg.noFlash && s.phase == Some(HealthCheck)
         && s.facts.healthy && s.hostReady && s.replaced && hadCurrent == s.kept
  }

  /** A status may be reported only when it is true. */
  predicate MayReport(w: World, status: Status) {
    && w.session.offer.Some?
    && match status
       case VERIFIED => Watermark(w.state) >= w.session.offer.value.sequence
       case COMMITTED => w.session.replaced
       case ROLLED_BACK => w.session.phase == Some(RollingBack) && w.mcu.Running?
       case _ => true
  }

  /** What an SWD read of the header may give: nothing, or, from an intact image, that image's own header. */
  predicate MayReadBack(mcu: Mcu, resident: Option<Artifact.Header>) {
    mcu.Running? ==> resident.None? || resident == Artifact.ReadBack(mcu.image)
  }

  predicate MayFetch(w: World, name: Name) {
    && Admitted(w) && w.session.phase == Some(Downloading)
    && (name == StagedBin || (name == StagedHost && HostBlock(w.session.offer.value).Some?))
  }

  /** current.bin may be dropped before the attempt is charged, when the resident header disagrees with it. */
  predicate MayDiscard(w: World, resident: Option<Artifact.Header>) {
    && w.session.facts.accepted.Some? && !w.session.facts.flashed && w.session.phase == Some(Staged) && !w.session.charged
    && MayReadBack(w.mcu, resident) && Artifact.DetectDrift(w.files.current, resident)
  }

  predicate MaySign(cfg: Config, w: World, v: string, now: int) {
    && w.session.offer.Some? && v == w.session.offer.value.version && w.session.phase == Some(Verifying)
    && Verify.Authentic(cfg.trust, w.session.offer.value.manifest, w.state.sequence, now)
  }

  predicate MayAccept(cfg: Config, w: World, v: string, image: Bytes) {
    && w.session.offer.Some? && v == w.session.offer.value.version && w.session.phase == Some(Verifying)
    && w.session.facts.signed && w.session.facts.accepted.None?
    && w.files.staged == Some(image) && Artifact.Loads(image)
    && var m := w.session.offer.value.manifest;
       && Verify.VerifyTarget(cfg.trust, m, cfg.target)
       && Verify.VerifyPayload(cfg.trust, m, "artifact", w.files.staged) == Verify.Accepted
       && (HostBlock(w.session.offer.value).Some? ==>
             Verify.VerifyPayload(cfg.trust, m, "host_payload", w.files.stagedHost) == Verify.Accepted)
  }

  /** The accepted image, once per charged attempt; or an image file that loads, for recovery. */
  predicate MayFlash(cfg: Config, w: World, image: Bytes, why: Why) {
    match why
    case ForUpdate(v) =>
      && !cfg.noFlash && w.session.offer.Some? && v == w.session.offer.value.version && v !in w.state.poisoned
      && w.session.facts.accepted == Some(image) && w.session.charged && w.session.phase == Some(Flashing)
    case Restore(name) =>
      && IsCandidate(name) && At(w.files, name) == Some(image) && Artifact.Loads(image)
      && (w.session.offer.None? || w.session.phase == Some(RollingBack))
  }

  predicate MayBeHealthy(w: World, v: string, image: Bytes) {
    && w.session.offer.Some? && v == w.session.offer.value.version && w.session.facts.accepted == Some(image)
    && w.session.facts.flashed && w.mcu == Running(image) && w.session.phase == Some(HealthCheck)
  }

  /** What the staged host payload unpacks to, if it is there and does. */
  function Payload(cfg: Config, f: Files): Option<Host.Tree> {
    match f.stagedHost case Some(data) => cfg.unpack(data) case None => None
  }

  /**
    The host tree may change only after the MCU runs the update, and only by steps of applying its payload or of
    rolling back; the operating system shows only well-formed trees.
   */
  ghost predicate MayChangeHost(cfg: Config, w: World, dirs: Host.Dirs) {
    && w.session.facts.healthy && !w.session.hostReady && w.session.offer.Some?
    && HostBlock(w.session.offer.value).Some? && Host.AllSound(dirs)
    && Host.Move(Payload(cfg, w.files), w.host, dirs)
  }

  predicate MayBeHostReady(cfg: Config, w: World) {
    && w.session.facts.healthy && w.session.offer.Some?
    && (HostBlock(w.session.offer.value).Some? ==>
          w.files.stagedHost.Some? && w.host.live.Some? && cfg.unpack(w.files.stagedHost.value) == w.host.live)
  }

  /** The image files are replaced in order, previous.bin first, each with a whole copy. */
  predicate MayReplace(w: World, name: Name) {
    && w.session.facts.healthy && w.session.hostReady && !w.session.replaced && w.files.temp.Some?
    && match name
       case PreviousBin => !w.session.kept && w.files.temp == w.files.current
       case CurrentBin => w.files.temp == w.session.facts.accepted && w.session.kept == w.files.current.Some?
       case _ => false
  }

  ghost predicate Legal(cfg: Config, w: World, e: Event) {
    var flashing := w.session.facts.flashing;
    match e
    case Reboot => true
    case Cycle(_) => true
    case Stored(wr) => MayWrite(cfg, w, wr)
    case Lost(wr) => MayWrite(cfg, w, wr)
    case Reported(status) => MayReport(w, status)
    case Fetched(name, _) => MayFetch(w, name)
    case Unlinked(name) => w.session.offer.Some? && (name == StagedBin || name == StagedHost)
    case Discarded(resident) => MayDiscard(w, resident)
    case Signed(v, now) => MaySign(cfg, w, v, now)
    case AcceptedImage(v, image) => MayAccept(cfg, w, v, image)
    case FlashStarted(image, why) => MayFlash(cfg, w, image, why)
    case Erased => flashing.Some? && |flashing.value.0| <= cfg.target.maxSize
    case Programmed => flashing.Some? && w.mcu == Torn && |flashing.value.0| <= cfg.target.maxSize
    case Healthy(v, image) => MayBeHealthy(w, v, image)
    case HostChanged(dirs) => MayChangeHost(cfg, w, dirs)
    case HostReady => MayBeHostReady(cfg, w)
    case TempWritten(_) => w.session.facts.healthy && w.session.hostReady
    case Replaced(name) => MayReplace(w, name)
  }

  // ---------------------------------------------------------------------------------------------
  // Runs

  function Run(w: World, trace: seq<Event>): World {
    if trace == [] then w else Step(Run(w, Front(trace)), Last(trace))
  }

  ghost predicate LegalRun(cfg: Config, w: World, trace: seq<Event>) {
    trace != [] ==>
      LegalRun(cfg, w, Front(trace)) && Legal(cfg, Run(w, Front(trace)), Last(trace))
  }

  /** A run that starts with the process not yet running. */
  ghost predicate Life(cfg: Config, w0: World, trace: seq<Event>) {
    w0.session == REST && LegalRun(cfg, w0, trace)
  }

  function Front(trace: seq<Event>): seq<Event>
    requires trace != []
  {
    trace[..|trace| - 1]
  }

  function Last(trace: seq<Event>): Event
    requires trace != []
  {
    trace[|trace| - 1]
  }

  /** Every flash that was started, in order. */
  function Flashes(trace: seq<Event>): seq<Why> {
    if trace == [] then []
    else Flashes(Front(trace)) + if Last(trace).FlashStarted? then [Last(trace).why] else []
  }

  lemma RunSnoc(cfg: Config, w: World, trace: seq<Event>, e: Event)
    ensures Run(w, trace + [e]) == Step(Run(w, trace), e)
    ensures LegalRun(cfg, w, trace + [e]) <==> LegalRun(cfg, w, trace) && Legal(cfg, Run(w, trace), e)
    ensures Flashes(trace + [e]) == Flashes(trace) + if e.FlashStarted? then [e.why] else []
  {
    assert Front(trace + [e]) == trace;
  }

  /** Cutting the power anywhere in a legal run leaves a legal run. */
  lemma {:induction false} PrefixIsLegal(cfg: Config, w: World, trace: seq<Event>, k: nat)
    requires LegalRun(cfg, w, trace) && k <= |trace|
    ensures LegalRun(cfg, w, trace[..k])
  {
    if k == |trace| {
      assert trace[..k] == trace;
    } else {
      PrefixIsLegal(cfg, w, trace[..|trace| - 1], k);
      assert trace[..|trace| - 1][..k] == trace[..k];
    }
  }

  /** Every event of a legal run was legal when it happened. */
  lemma EventWasLegal(cfg: Config, w: World, trace: seq<Event>, k: nat)
    requires LegalRun(cfg, w, trace) && k < |trace|
    ensures LegalRun(cfg, w, trace[..k]) && Legal(cfg, Run(w, trace[..k]), trace[k])
    ensures Run(w, trace[..k + 1]) == Step(Run(w, trace[..k]), trace[k])
  {
    PrefixIsLegal(cfg, w, trace, k + 1);
    assert trace[..k + 1] == trace[..k] + [trace[k]];
    RunSnoc(cfg, w, trace[..k], trace[k]);
  }

  /** The images recovery reaches for, in order; the agent's rollback and the boot reconciler use the same three. */
  const CANDIDATES := [CurrentBin, PreviousBin, GoldenBin]

  /** The reflashes of those of `names` that can be used, in order. */
  function Restores(usable: set<Name>, names: seq<Name>): seq<Why> {
    if names == [] then []
    else
      Restores(usable, names[..|names| - 1]) +
      if names[|names| - 1] in usable then [Restore(names[|names| - 1])] else []
  }

  /** The reflashes of a recovery that ended at candidate `k`: the usable ones up to and including that one. */
  function RestoresUpTo(usable: set<Name>, k: nat): seq<Why> {
    Restores(usable, if k < |CANDIDATES| then CANDIDATES[..k + 1] else CANDIDATES)
  }

  lemma OneMoreCandidate(usable: set<Name>, k: nat)
    requires k < |CANDIDATES|
    ensures Restores(usable, CANDIDATES[..k + 1]) ==
            Restores(usable, CANDIDATES[..k]) + if CANDIDATES[k] in usable then [Restore(CANDIDATES[k])] else []
  {
    assert CANDIDATES[..k + 1][..k] == CANDIDATES[..k];
  }

  /** The reflashes up to each candidate, written out in the order in which the candidates are tried. */
  lemma RestoresWrittenOut(usable: set<Name>)
    ensures var c := if CurrentBin in usable then [Restore(CurrentBin)] else [];
            var p := if PreviousBin in usable then [Restore(PreviousBin)] else [];
            var g := if GoldenBin in usable then [Restore(GoldenBin)] else [];
            && CANDIDATES == [CurrentBin, PreviousBin, GoldenBin]
            && RestoresUpTo(usable, 0) == c && RestoresUpTo(usable, 1) == c + p
            && RestoresUpTo(usable, 2) == c + p + g && RestoresUpTo(usable, 3) == c + p + g
  {
    assert Restores(usable, CANDIDATES[..0]) == [];
    OneMoreCandidate(usable, 0);
    OneMoreCandidate(usable, 1);
    OneMoreCandidate(usable, 2);
    assert CANDIDATES[..3] == CANDIDATES;
  }

  /** What has been flashed after `base` goes on with the next candidate, if it is usable. */
  lemma RestoresGoOn(usable: set<Name>, base: seq<Why>, soFar: seq<Why>, k: nat)
    requires k < |CANDIDATES| && soFar == base + Restores(usable, CANDIDATES[..k])
    ensures soFar + (if CANDIDATES[k] in usable then [Restore(CANDIDATES[k])] else []) ==
            base + Restores(usable, CANDIDATES[..k + 1])
  {
    OneMoreCandidate(usable, k);
  }

  lemma {:induction false} AtMostOneEach(usable: set<Name>, names: seq<Name>)
    ensures |Restores(usable, names)| <= |names|
    ensures forall i :: 0 <= i < |Restores(usable, names)| ==> Restores(usable, names)[i].Restore?
  {
    if names != [] {
      AtMostOneEach(usable, names[..|names| - 1]);
    }
  }

  /** `w` is where the legal run `trace` leads. */
  ghost predicate Lawful(cfg: Config, w0: World, trace: seq<Event>, w: World) {
    w == Run(w0, trace) && Life(cfg, w0, trace)
  }

  /** The device: what it holds now, and how it got there. */
  class Device {
    const cfg: Config
    const start: World
    var w: World
    var trace: seq<Event>

    /** The device got where it is lawfully; the quantifier keeps the run folded where nothing is said about it. */
    ghost predicate Valid()
      reads this
    {
      forall t :: t == trace ==> Lawful(cfg, start, t, w)
    }

    lemma HowItGotHere()
      requires Valid()
      ensures w == Run(start, trace) && Life(cfg, start, trace)
    {
      assert Lawful(cfg, start, trace, w);
    }

    constructor (cfg: Config, w0: World)
      requires w0.session == REST
      ensures Valid() && this.cfg == cfg && start == w == w0 && trace == []
    {
      this.cfg, start, w, trace := cfg, w0, w0, [];
      assert Lawful(cfg, w0, [], w0);
    }

    /** One atomic step; only what the protocol allows may be done. */
    method Emit(e: Event)
      requires Valid() && Legal(cfg, w, e)
      modifies this
      ensures Valid() && w == Step(old(w), e) && trace == old(trace) + [e]
      ensures Flashes(trace) == Flashes(old(trace)) + if e.FlashStarted? then [e.why] else []
    {
      HowItGotHere();
      RunSnoc(cfg, start, trace, e);
      w, trace := Step(w, e), trace + [e];
      assert Lawful(cfg, start, trace, w);
    }

    /** The power went after the first `k` events: nothing later happened, and the process is gone. */
    method PowerCut(k: nat)
      requires Valid() && k <= |trace|
      modifies this
      ensures Valid() && trace == old(trace)[..k] + [Reboot]
      ensures w == Step(Run(start, old(trace)[..k]), Reboot)
    {
      HowItGotHere();
      PrefixIsLegal(cfg, start, trace, k);
      trace := trace[..k];
      w := Run(start, trace);
      assert Lawful(cfg, start, trace, w);
      Emit(Reboot);
    }
  }
}
