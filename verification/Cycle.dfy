/**
  A whole update cycle (unoq_ota/agent.py, Agent.run_once): every way it can end, and what it leaves behind.

  `RunOnce` runs the stages in order.  Whatever the collaborators answer and whichever writes are lost, a cycle ends
  in one of four ways - stopped before the board was touched, not flashed, gone through, or backed out - and
  `Finished` says for each what the MCU, the host tree, the image files and the trace of flashes are.
 */
module Cycle {
  import opened Wrappers
  import opened StateStore
  import opened World
  import opened Agent
  import opened Rollback
  import Artifact
  import Host
  import Safety
  import Verify

  datatype Ending = Stopped | NotFlashed | Through | BackedOut(mid: Host.Dirs, k: nat)

  /** The MCU, the host tree, the images and the recorded versions that a cycle works on are the same in both. */
  predicate SameGround(w: World, x: World) {
    Untouched(w, x) && SameLabels(w.state, x.state)
  }

  /**
    What a cycle returns is what it last tried to store, and every offer has been answered with a report; only the
    exits that have nothing to do store nothing.
   */
  predicate PhaseAgrees(s: Session, r: Outcome) {
    r.Returned? ==>
      && (s.phase == Some(r.phase) || (r.phase == Idle && s.phase.None? && (s.offer.None? || s.status == Some(VERIFIED))))
      && (s.offer.Some? ==> s.status.Some? && ReportedAs(r.phase, s.status.value))
  }

  /** The last report of a cycle that returned this phase; IDLE is returned for several reasons. */
  predicate ReportedAs(p: Phase, status: Status) {
    match p
    case Committed => status == COMMITTED
    case RolledBack => status == ROLLED_BACK
    case Rejected => status == REJECTED
    case Staged => status == WAITING_FOR_GATE
    case Idle => status in {VERIFIED, WAITING_FOR_GATE, REJECTED}
    case _ => false
  }

  predicate SameImages(f: Files, g: Files) {
    g.current == f.current && g.previous == f.previous && g.golden == f.golden
  }

  ghost predicate GoesThrough(cfg: Config, a: Answers, w: World, f: Files, u: Update) {
    a.healthy && (HostBlock(u).Some? ==> HostSucceeds(a, w.host, ArchiveOf(cfg, f)))
  }

  /** The gate said no, or the flash did not return: nothing is committed and nothing is rolled back. */
  predicate LeftUnflashed(cfg: Config, a: Answers, u: Update, w: World, x: World, r: Outcome) {
    && x.files.staged.Some? && Some(r) == StageOutcome(cfg, a, x.files.staged.value, u.version)
    && x.mcu == McuAfterStage(cfg, a, w, x.files.staged.value, u.version) && x.host == w.host
    && SameImages(AfterDrift(a, w), x.files)
  }

  /** Both sides run the update; it is committed unless a copy fails or the state file cannot be read for the commit. */
  ghost predicate WentThrough(cfg: Config, a: Answers, u: Update, w: World, f: Files, x: World, r: Outcome) {
    && GoesThrough(cfg, a, w, x.files, u)
    && x.files.staged.Some? && x.mcu == Running(x.files.staged.value) && x.files.golden == f.golden
    && x.host == (if HostBlock(u).Some? then Host.Applied(w.host, ArchiveOf(cfg, x.files).payload.value) else w.host)
    && r == CommitOutcome(a, f, x.files.staged.value)
    && (if r == Returned(Idle) then x.files.current == f.current && x.files.previous == PreviousAfter(a, f)
        else MadeCurrent(f, x.files))
  }

  /** The staged image is current, and the image it displaced, when there was one, is previous. */
  predicate MadeCurrent(f: Files, g: Files) {
    g.current == g.staged && g.previous == if f.current.Some? then f.current else f.previous
  }

  /** One side failed its check after the flash: the host tree, if it was touched, is undone and the MCU reflashed. */
  ghost predicate WasBackedOut(cfg: Config, a: Answers, u: Update, w: World, f: Files, x: World, r: Outcome,
                               mid: Host.Dirs, k: nat)
  {
    var sc := Scene(cfg, a, x.files, w.state, u.version);
    && !GoesThrough(cfg, a, w, x.files, u)
    && EndsAt(sc, k) && r == OutcomeAt(sc, k)
    && (r == Returned(RolledBack) ==>
          At(x.files, CANDIDATES[k]).Some? && x.mcu == Running(At(x.files, CANDIDATES[k]).value))
    && (if a.healthy then HostUndone(a, w.host, ArchiveOf(cfg, x.files), mid, x.host) else x.host == w.host)
    && SameImages(f, x.files)
  }

  /** How a cycle that flashed the update ended, from `w` with the image files `f`. */
  ghost predicate Settled(cfg: Config, a: Answers, u: Update, w: World, f: Files, x: World, r: Outcome, end: Ending) {
    match end
    case Through => WentThrough(cfg, a, u, w, f, x, r)
    case BackedOut(mid, k) => WasBackedOut(cfg, a, u, w, f, x, r, mid, k)
    case _ => false
  }

  /** What is flashed after the update itself: nothing, or the rollback's candidates. */
  function Afterwards(cfg: Config, a: Answers, u: Update, w: World, x: World, end: Ending): seq<Why> {
    if end.BackedOut? then Reflashed(Scene(cfg, a, x.files, w.state, u.version), end.k) else []
  }

  ghost predicate Finished(cfg: Config, a: Answers, u: Update, w: World, x: World, r: Outcome, flashes: seq<Why>, end: Ending) {
    match end
    case Stopped => r in {Raised, Returned(Idle), Returned(Rejected)} && SameGround(w, x) && flashes == []
    case NotFlashed =>
      LeftUnflashed(cfg, a, u, w, x, r) && flashes == if a.mayFlash.Yes? then [ForUpdate(u.version)] else []
    case _ =>
      && x.files.staged.Some? && StageOutcome(cfg, a, x.files.staged.value, u.version).None?
      && Settled(cfg, a, u, w, AfterDrift(a, w), x, r, end)
      && flashes == [ForUpdate(u.version)] + Afterwards(cfg, a, u, w, x, end)
  }

  lemma RebaseSettled(cfg: Config, a: Answers, u: Update, w: World, v: World, f: Files, g: Files, x: World, r: Outcome, end: Ending)
    requires v.host == w.host && SameLabels(w.state, v.state) && SameImages(f, g) && Settled(cfg, a, u, v, g, x, r, end)
    ensures Settled(cfg, a, u, w, f, x, r, end) && Afterwards(cfg, a, u, v, x, end) == Afterwards(cfg, a, u, w, x, end)
  {
    if end.BackedOut? {
      LabelsSuffice(Scene(cfg, a, x.files, v.state, u.version), Scene(cfg, a, x.files, w.state, u.version), end.k);
    }
  }

  /** Only the ground matters: an ending seen from the verified offer is the same ending seen from the cycle's start. */
  lemma Rebase(cfg: Config, a: Answers, u: Update, w: World, v: World, x: World, r: Outcome, flashes: seq<Why>, end: Ending)
    requires SameGround(w, v) && Finished(cfg, a, u, v, x, r, flashes, end)
    ensures Finished(cfg, a, u, w, x, r, flashes, end)
  {
    assert SameImages(AfterDrift(a, w), AfterDrift(a, v));
    if end.Through? || end.BackedOut? {
      RebaseSettled(cfg, a, u, w, v, AfterDrift(a, w), AfterDrift(a, v), x, r, end);
    }
  }

  // ---------------------------------------------------------------------------------------------
  // How far an offer gets

  /** Exactly when an offer turns out to have been committed or verified already, and its leftovers are gone. */
  predicate UpToDate(a: Answers, s: State, u: Update) {
    && AdmissionReads(a, s, u) && !Barred(s, u.version) && u.sequence <= Watermark(s)
    && a.unlinks(StagedBin) && a.unlinks(StagedHost)
  }

  /** The cycle ends by reporting its offer verified. */
  predicate ReportsVerified(x: World, r: Outcome) {
    r == Returned(Idle) && x.session.status == Some(VERIFIED)
  }

  /** Exactly when an offer gets as far as a complete download. */
  predicate Delivered(a: Answers, s: State, u: Update) {
    && AdmissionReads(a, s, u) && !Barred(s, u.version) && u.sequence > Watermark(s)
    && a.preflight.Yes? && a.mayFetch.Yes? && FetchesAll(a, u)
  }

  /** The staged files as the fetches delivered them. */
  function DeliveredFiles(a: Answers, u: Update): Files
    requires FetchesAll(a, u)
  {
    Files(None, None, None, Some(a.fetch(StagedBin).data),
          if HostBlock(u).Some? then Some(a.fetch(StagedHost).data) else None, None)
  }

  predicate StagedAsFetched(a: Answers, u: Update, f: Files) {
    && FetchesAll(a, u) && f.staged == Some(a.fetch(StagedBin).data)
    && (HostBlock(u).Some? ==> f.stagedHost == Some(a.fetch(StagedHost).data))
  }

  /** What verification and load conclude of the delivered files. */
  function Conclusion(cfg: Config, a: Answers, last: int, u: Update): Check
    requires FetchesAll(a, u)
  {
    Concludes(cfg, a, last, DeliveredFiles(a, u), u)
  }

  /** Exactly when a cycle gets past everything that can stop it before the board is touched. */
  predicate Prepared(cfg: Config, a: Answers, s: State, u: Update) {
    Delivered(a, s, u) && Conclusion(cfg, a, s.sequence, u).Passed?
  }

  /** Whether verify-only mode gets to record what it verified. */
  predicate StampsIt(a: Answers, u: Update) {
    a.unlinks(StagedBin) && a.unlinks(StagedHost) && a.loads(AtStamp) && a.persists(Stamp(u.version, u.sequence))
  }

  // ---------------------------------------------------------------------------------------------
  // The record

  /** What a cycle that does not get to a complete download returns, and the record it leaves. */
  function Undelivered(cfg: Config, a: Answers, s: State, u: Update): (Outcome, State) {
    if !AdmissionReads(a, s, u) then (Raised, s)
    else if Barred(s, u.version) then
      (Returned(Rejected), Marked(cfg, a, Try(a, s, Poison(u.version)), Rejected, u.version))
    else if u.sequence <= Watermark(s) then (if UpToDate(a, s, u) then Returned(Idle) else Raised, s)
    else if a.preflight.Raises? || (a.preflight.Yes? && a.mayFetch.Raises?) then (Raised, s)
    else if a.preflight.No? || a.mayFetch.No? then (Returned(Idle), Closed(cfg, a, s, Idle))
    else (Returned(Idle), Closed(cfg, a, Marked(cfg, a, s, Downloading, u.version), Idle))
  }

  /** The record of an offer that has been downloaded and is being verified. */
  function VerifiedRecord(cfg: Config, a: Answers, s: State, v: string): State {
    Marked(cfg, a, Marked(cfg, a, s, Downloading, v), Verifying, v)
  }

  /** What a cycle that stops before the board returns, and the record it leaves. */
  function StoppedAs(cfg: Config, a: Answers, s: State, u: Update): (Outcome, State) {
    if !Delivered(a, s, u) then Undelivered(cfg, a, s, u)
    else
      var c, verified := Conclusion(cfg, a, s.sequence, u), VerifiedRecord(cfg, a, s, u.version);
      if !c.Passed? then (Answered(c).value, AnsweredRecord(cfg, a, verified, u.version, c))
      else if StampsIt(a, u) then (Returned(Idle), Closed(cfg, a, Stamped(verified, u), Idle))
      else (Raised, verified)
  }

  /** The record at the end of a cycle that was to go on, from the verified one. */
  function InstalledRecord(cfg: Config, a: Answers, s: State, u: Update, hadCurrent: bool, r: Outcome, end: Ending): State {
    match end
    case Stopped => s
    case NotFlashed => StagedRecord(cfg, a, s, u.version, Some(r))
    case Through => CommittedRecord(cfg, a, StagedRecord(cfg, a, s, u.version, None), u, hadCurrent, r)
    case BackedOut(_, _) => RolledRecord(cfg, a, StagedRecord(cfg, a, s, u.version, None), u.version, r)
  }

  /** The record at the end of a cycle, from the one it started with. */
  function EndRecord(cfg: Config, a: Answers, s: State, u: Update, hadCurrent: bool, r: Outcome, end: Ending): State {
    if end.Stopped? then StoppedAs(cfg, a, s, u).1
    else InstalledRecord(cfg, a, VerifiedRecord(cfg, a, s, u.version), u, hadCurrent, r, end)
  }

  // ---------------------------------------------------------------------------------------------
  // Up to the flash

  /** Admission, preflight, download. */
  method Deliver(dev: Device, a: Answers, u: Update) returns (r: Option<Outcome>)
    requires dev.Valid() && dev.w.session == REST.(offer := Some(u))
    modifies dev
    ensures dev.Valid() && old(dev.trace) <= dev.trace && Flashes(dev.trace) == Flashes(old(dev.trace))
    ensures SameGround(old(dev.w), dev.w) && dev.w.session.offer == Some(u)
    ensures r in {None, Some(Raised), Some(Returned(Idle)), Some(Returned(Rejected))}
    ensures r.Some? ==> PhaseAgrees(dev.w.session, r.value)
    ensures r.Some? ==> (r.value, dev.w.state) == Undelivered(dev.cfg, a, old(dev.w).state, u)
    ensures r.Some? ==> (ReportsVerified(dev.w, r.value) <==> UpToDate(a, old(dev.w).state, u))
    ensures r.Some? && ReportsVerified(dev.w, r.value) ==> dev.w.files.staged.None? && dev.w.files.stagedHost.None?
    ensures r.None? ==> dev.w.state == Marked(dev.cfg, a, old(dev.w).state, Downloading, u.version)
    ensures r.None? <==> Delivered(a, old(dev.w).state, u)
    ensures r.None? ==>
              && Admitted(dev.w) && StagedAsFetched(a, u, dev.w.files)
              && dev.w.session == REST.(offer := Some(u), phase := Some(Downloading), status := dev.w.session.status)
  {
    r := Admit(dev, a, u);
    if r.Some? {
      return;
    }
    r := Preflight(dev, a);
    if r.Some? {
      return;
    }
    r := Download(dev, a, u);
  }

  /** Verification looks at the stored sequence and the staged files only, and at the host payload only if there is one. */
  lemma ConclusionOfStaged(cfg: Config, a: Answers, last: int, f: Files, u: Update)
    requires StagedAsFetched(a, u, f)
    ensures Concludes(cfg, a, last, f, u) == Conclusion(cfg, a, last, u)
  {
  }

  /** The verify stage over a complete download, told from the record `s` the cycle started with. */
  method VerifyDelivered(dev: Device, a: Answers, u: Update, ghost s: State) returns (r: Option<Outcome>)
    requires dev.Valid() && Admitted(dev.w) && StagedAsFetched(a, u, dev.w.files) && Delivered(a, s, u)
    requires dev.w.session == REST.(offer := Some(u), phase := Some(Downloading), status := dev.w.session.status)
    requires dev.w.state == Marked(dev.cfg, a, s, Downloading, u.version)
    modifies dev
    ensures dev.Valid() && old(dev.trace) <= dev.trace && Flashes(dev.trace) == Flashes(old(dev.trace))
    ensures Untouched(old(dev.w), dev.w) && SameLabels(s, dev.w.state) && dev.w.session.offer == Some(u)
    ensures r == Answered(Conclusion(dev.cfg, a, s.sequence, u))
    ensures r.Some? ==> PhaseAgrees(dev.w.session, r.value) && !ReportsVerified(dev.w, r.value)
    ensures r.Some? ==> (r.value, dev.w.state) == StoppedAs(dev.cfg, a, s, u)
    ensures r.None? ==>
              && dev.w.state == VerifiedRecord(dev.cfg, a, s, u.version)
              && Admitted(dev.w) && StagedAsFetched(a, u, dev.w.files)
              && dev.w.session ==
                   REST.(offer := Some(u), phase := Some(Verifying), status := dev.w.session.status,
                         facts := NOTHING_YET.(signed := true, accepted := dev.w.files.staged))
  {
    ConclusionOfStaged(dev.cfg, a, dev.w.state.sequence, dev.w.files, u);
    var c;
    c, r := VerifyStaged(dev, a, u);
  }

  /** Everything that happens before the board may be touched. */
  method Prepare(dev: Device, a: Answers, u: Update) returns (r: Option<Outcome>)
    requires dev.Valid() && dev.w.session == REST.(offer := Some(u))
    modifies dev
    ensures dev.Valid() && old(dev.trace) <= dev.trace && Flashes(dev.trace) == Flashes(old(dev.trace))
    ensures SameGround(old(dev.w), dev.w) && dev.w.session.offer == Some(u)
    ensures r in {None, Some(Raised), Some(Returned(Idle)), Some(Returned(Rejected))}
    ensures r.Some? ==> PhaseAgrees(dev.w.session, r.value)
    ensures r.Some? ==> (r.value, dev.w.state) == StoppedAs(dev.cfg, a, old(dev.w).state, u)
    ensures r.Some? ==> (ReportsVerified(dev.w, r.value) <==> UpToDate(a, old(dev.w).state, u))
    ensures r.Some? && ReportsVerified(dev.w, r.value) ==> dev.w.files.staged.None? && dev.w.files.stagedHost.None?
    ensures r.None? <==> Prepared(dev.cfg, a, old(dev.w).state, u)
    ensures r.None? ==>
              && dev.w.state == VerifiedRecord(dev.cfg, a, old(dev.w).state, u.version)
              && Admitted(dev.w) && StagedAsFetched(a, u, dev.w.files)
              && dev.w.session ==
                   REST.(offer := Some(u), phase := Some(Verifying), status := dev.w.session.status,
                         facts := NOTHING_YET.(signed := true, accepted := dev.w.files.staged))
  {
    r := Deliver(dev, a, u);
    if r.None? {
      r := VerifyDelivered(dev, a, u, old(dev.w).state);
    }
  }

  // ---------------------------------------------------------------------------------------------
  // From the flash on

  /** Post-flash health of the MCU, then the host side: true when both run the update. */
  method CheckBothSides(dev: Device, a: Answers, u: Update, image: Bytes) returns (ok: bool, ghost mid: Host.Dirs)
    requires dev.Valid() && Plausible(dev.cfg, a) && Host.AllSound(dev.w.host)
    requires dev.w.session.offer == Some(u) && dev.w.session.phase == Some(HealthCheck) && dev.w.mcu == Running(image)
    requires dev.w.session.facts == NOTHING_YET.(signed := true, accepted := Some(image), flashed := true)
    requires !dev.w.session.hostReady
    modifies dev
    ensures dev.Valid() && old(dev.trace) <= dev.trace && Flashes(dev.trace) == Flashes(old(dev.trace))
    ensures Host.AllSound(dev.w.host)
    ensures dev.w == old(dev.w).(host := dev.w.host,
                                 session := old(dev.w).session.(hostReady := ok,
                                                                facts := old(dev.w).session.facts.(healthy := a.healthy)))
    ensures ok <==> GoesThrough(dev.cfg, a, old(dev.w), old(dev.w).files, u)
    ensures ok ==> dev.w.host == if HostBlock(u).Some?
                                 then Host.Applied(old(dev.w).host, ArchiveOf(dev.cfg, old(dev.w).files).payload.value)
                                 else old(dev.w).host
    ensures !ok ==> if a.healthy then HostUndone(a, old(dev.w).host, ArchiveOf(dev.cfg, old(dev.w).files), mid, dev.w.host)
                    else dev.w.host == old(dev.w).host
  {
    mid := dev.w.host;
    ok := a.healthy;
    if ok {
      dev.Emit(Healthy(u.version, image));
      ok, mid := HostSide(dev, a, u);
    }
  }

  /** The commit of an update that both sides run, told from `w`, before the checks. */
  method CommitBoth(dev: Device, a: Answers, u: Update, image: Bytes, ghost w: World) returns (r: Outcome)
    requires dev.Valid() && !dev.cfg.noFlash && dev.w.files.staged == Some(image) && dev.w.mcu == Running(image)
    requires dev.w.session.offer == Some(u) && dev.w.session.phase == Some(HealthCheck)
    requires dev.w.session.facts.healthy && dev.w.session.hostReady && dev.w.session.facts.accepted == Some(image)
    requires !dev.w.session.kept && !dev.w.session.replaced && u.sequence > Watermark(dev.w.state)
    requires dev.w == w.(host := dev.w.host, session := dev.w.session) && GoesThrough(dev.cfg, a, w, w.files, u)
    requires dev.w.host == if HostBlock(u).Some? then Host.Applied(w.host, ArchiveOf(dev.cfg, w.files).payload.value) else w.host
    modifies dev
    ensures dev.Valid() && old(dev.trace) <= dev.trace && Flashes(dev.trace) == Flashes(old(dev.trace))
    ensures PhaseAgrees(dev.w.session, r) && dev.w.session.offer == Some(u) && SameStaged(w.files, dev.w.files)
    ensures WentThrough(dev.cfg, a, u, w, w.files, dev.w, r) && dev.w.host == old(dev.w).host
    ensures dev.w.state == CommittedRecord(dev.cfg, a, w.state, u, w.files.current.Some?, r)
  {
    r := CommitUpdate(dev, a, u, image);
  }

  /** The rollback of an update that one side does not run, told from `w`, before the checks. */
  method BackOut(dev: Device, a: Answers, u: Update, ghost w: World, ghost mid: Host.Dirs) returns (r: Outcome, ghost k: nat)
    requires dev.Valid() && dev.w.session.offer == Some(u) && dev.w.session.phase == Some(HealthCheck)
    requires dev.w.session.facts.signed && !(dev.w.session.facts.healthy && dev.w.session.hostReady)
    requires dev.w == w.(host := dev.w.host, session := dev.w.session) && !GoesThrough(dev.cfg, a, w, w.files, u)
    requires if a.healthy then HostUndone(a, w.host, ArchiveOf(dev.cfg, w.files), mid, dev.w.host) else dev.w.host == w.host
    modifies dev
    ensures dev.Valid() && old(dev.trace) <= dev.trace
    ensures Flashes(dev.trace) == Flashes(old(dev.trace)) + Afterwards(dev.cfg, a, u, w, dev.w, BackedOut(mid, k))
    ensures PhaseAgrees(dev.w.session, r) && dev.w.session.offer == Some(u) && SameStaged(w.files, dev.w.files)
    ensures WasBackedOut(dev.cfg, a, u, w, w.files, dev.w, r, mid, k) && dev.w.host == old(dev.w).host
    ensures dev.w.state == RolledRecord(dev.cfg, a, w.state, u.version, r)
  {
    r, k := RollBack(dev, a, u);
  }

  /** The record at the end, from the one after the flash. */
  function SettledRecord(cfg: Config, a: Answers, s: State, u: Update, hadCurrent: bool, r: Outcome, end: Ending): State {
    if end.Through? then CommittedRecord(cfg, a, s, u, hadCurrent, r) else RolledRecord(cfg, a, s, u.version, r)
  }

  /** Commit when both sides run the update, roll back otherwise. */
  method Settle(dev: Device, a: Answers, u: Update, image: Bytes) returns (r: Outcome, ghost end: Ending)
    requires dev.Valid() && Plausible(dev.cfg, a) && Host.AllSound(dev.w.host)
    requires !dev.cfg.noFlash && dev.w.files.staged == Some(image) && dev.w.mcu == Running(image)
    requires dev.w.session.offer == Some(u) && dev.w.session.phase == Some(HealthCheck)
    requires dev.w.session.facts == NOTHING_YET.(signed := true, accepted := Some(image), flashed := true)
    requires !dev.w.session.hostReady && !dev.w.session.kept && !dev.w.session.replaced
    requires u.sequence > Watermark(dev.w.state)
    modifies dev
    ensures dev.Valid() && old(dev.trace) <= dev.trace && Host.AllSound(dev.w.host)
    ensures PhaseAgrees(dev.w.session, r) && dev.w.session.offer == Some(u) && SameStaged(old(dev.w).files, dev.w.files)
    ensures Settled(dev.cfg, a, u, old(dev.w), old(dev.w).files, dev.w, r, end)
    ensures dev.w.state == SettledRecord(dev.cfg, a, old(dev.w).state, u, old(dev.w).files.current.Some?, r, end)
    ensures Flashes(dev.trace) == Flashes(old(dev.trace)) + Afterwards(dev.cfg, a, u, old(dev.w), dev.w, end)
  {
    ghost var w := dev.w;
    var ok;
    ghost var mid;
    ok, mid := CheckBothSides(dev, a, u, image);
    if ok {
      r := CommitBoth(dev, a, u, image, w);
      end := Through;
    } else {
      ghost var k;
      r, k := BackOut(dev, a, u, w, mid);
      end := BackedOut(mid, k);
    }
  }

  lemma Unflashed(cfg: Config, a: Answers, u: Update, w: World, x: World, r: Option<Outcome>)
    requires w.files.staged.Some? && x.files == AfterDrift(a, w) && x.host == w.host
    requires r == StageOutcome(cfg, a, w.files.staged.value, u.version) && r.Some?
    requires x.mcu == McuAfterStage(cfg, a, w, w.files.staged.value, u.version)
    ensures Finished(cfg, a, u, w, x, r.value, if a.mayFlash.Yes? then [ForUpdate(u.version)] else [], NotFlashed)
  {
  }

  /** Between the verified offer and the flashed board only the MCU, the drifted image and the record have changed. */
  lemma SettledFromVerified(cfg: Config, a: Answers, u: Update, w: World, v: World, x: World, r: Outcome, end: Ending)
    requires v.files == AfterDrift(a, w) && v.host == w.host && SameLabels(w.state, v.state) && SameStaged(w.files, x.files)
    requires Settled(cfg, a, u, v, v.files, x, r, end)
    requires w.files.staged.Some? && StageOutcome(cfg, a, w.files.staged.value, u.version).None?
    ensures Finished(cfg, a, u, w, x, r, [ForUpdate(u.version)] + Afterwards(cfg, a, u, v, x, end), end)
  {
    RebaseSettled(cfg, a, u, w, v, AfterDrift(a, w), v.files, x, r, end);
  }

  /** The end of a cycle whose update was flashed, told from the verified offer `w`. */
  method Finish(dev: Device, a: Answers, u: Update, image: Bytes, ghost w: World)
    returns (r: Outcome, ghost end: Ending, ghost after: seq<Why>)
    requires dev.Valid() && Plausible(dev.cfg, a) && Host.AllSound(dev.w.host)
    requires !dev.cfg.noFlash && dev.w.files.staged == Some(image) && dev.w.mcu == Running(image)
    requires dev.w.session.offer == Some(u) && dev.w.session.phase == Some(HealthCheck)
    requires dev.w.session.facts == NOTHING_YET.(signed := true, accepted := Some(image), flashed := true)
    requires !dev.w.session.hostReady && !dev.w.session.kept && !dev.w.session.replaced
    requires u.sequence > Watermark(dev.w.state)
    requires dev.w.files == AfterDrift(a, w) && dev.w.host == w.host && SameLabels(w.state, dev.w.state)
    requires dev.w.state == StagedRecord(dev.cfg, a, w.state, u.version, None)
    requires w.files.staged == Some(image)
    requires StageOutcome(dev.cfg, a, image, u.version).None?
    modifies dev
    ensures dev.Valid() && old(dev.trace) <= dev.trace && Host.AllSound(dev.w.host)
    ensures PhaseAgrees(dev.w.session, r) && dev.w.session.offer == Some(u) && !end.Stopped?
    ensures Finished(dev.cfg, a, u, w, dev.w, r, [ForUpdate(u.version)] + after, end) && !end.NotFlashed?
    ensures dev.w.state == InstalledRecord(dev.cfg, a, w.state, u, AfterDrift(a, w).current.Some?, r, end)
    ensures SameStaged(w.files, dev.w.files)
    ensures Flashes(dev.trace) == Flashes(old(dev.trace)) + after
  {
    ghost var v := dev.w;
    r, end := Settle(dev, a, u, image);
    after := Afterwards(dev.cfg, a, u, v, dev.w, end);
    SettledFromVerified(dev.cfg, a, u, w, v, dev.w, r, end);
  }

  /** From a verified offer to the end of the cycle. */
  method Install(dev: Device, a: Answers, u: Update) returns (r: Outcome, ghost end: Ending, ghost flashes: seq<Why>)
    requires dev.Valid() && Plausible(dev.cfg, a) && Host.AllSound(dev.w.host)
    requires !dev.cfg.noFlash && Admitted(dev.w) && dev.w.files.staged.Some?
    requires dev.w.session ==
               REST.(offer := Some(u), phase := Some(Verifying), status := dev.w.session.status,
                     facts := NOTHING_YET.(signed := true, accepted := dev.w.files.staged))
    modifies dev
    ensures dev.Valid() && old(dev.trace) <= dev.trace && Host.AllSound(dev.w.host)
    ensures PhaseAgrees(dev.w.session, r) && !end.Stopped? && dev.w.session.offer == Some(u)
    ensures Finished(dev.cfg, a, u, old(dev.w), dev.w, r, flashes, end) && SameStaged(old(dev.w).files, dev.w.files)
    ensures dev.w.state ==
              InstalledRecord(dev.cfg, a, old(dev.w).state, u, AfterDrift(a, old(dev.w)).current.Some?, r, end)
    ensures Flashes(dev.trace) == Flashes(old(dev.trace)) + flashes
  {
    var image := dev.w.files.staged.value;
    ghost var w, before := dev.w, Flashes(dev.trace);
    flashes := if a.mayFlash.Yes? then [ForUpdate(u.version)] else [];
    var stopped := StageAndFlash(dev, a, u, image);
    assert Watermark(dev.w.state) == Watermark(w.state);
    if stopped.Some? {
      r, end := stopped.value, NotFlashed;
      Unflashed(dev.cfg, a, u, w, dev.w, stopped);
    } else {
      ghost var after;
      r, end, after := Finish(dev, a, u, image, w);
      Associative(before, flashes, after);
      flashes := flashes + after;
    }
  }

  // ---------------------------------------------------------------------------------------------
  // The cycle

  /**
    How a cycle that was offered `u` ended, from `w`: stopped exactly if it was not to go on, and then why; otherwise
    with the fetched bytes staged.  In every case the record is exactly what the cycle's writes left of it.
   */
  ghost predicate Ended(cfg: Config, a: Answers, u: Update, w: World, x: World, r: Outcome, flashes: seq<Why>, end: Ending) {
    && Finished(cfg, a, u, w, x, r, flashes, end)
    && (end.Stopped? <==> cfg.noFlash || !Prepared(cfg, a, w.state, u))
    && (if end.Stopped? then StoppedBecause(cfg, a, u, w, x, r) else StagedAsFetched(a, u, x.files))
    && x.state == EndRecord(cfg, a, w.state, u, AfterDrift(a, w).current.Some?, r, end)
  }

  /**
    Why a cycle stopped: the outcome that admission, preflight, download and verification call for, reported verified
    exactly if the offer was old news or has just been verified and stamped - which leaves no staged file.
   */
  ghost predicate StoppedBecause(cfg: Config, a: Answers, u: Update, w: World, x: World, r: Outcome) {
    && r == StoppedAs(cfg, a, w.state, u).0
    && (ReportsVerified(x, r) <==> UpToDate(a, w.state, u) || (Prepared(cfg, a, w.state, u) && StampsIt(a, u)))
    && (ReportsVerified(x, r) ==> x.files.staged.None? && x.files.stagedHost.None?)
  }

  lemma InstalledEnds(cfg: Config, a: Answers, u: Update, w: World, v: World, x: World, r: Outcome, flashes: seq<Why>, end: Ending)
    requires !cfg.noFlash && Prepared(cfg, a, w.state, u)
    requires SameGround(w, v) && v.state == VerifiedRecord(cfg, a, w.state, u.version)
    requires Finished(cfg, a, u, v, x, r, flashes, end) && !end.Stopped? && StagedAsFetched(a, u, x.files)
    requires x.state == InstalledRecord(cfg, a, v.state, u, AfterDrift(a, v).current.Some?, r, end)
    ensures Ended(cfg, a, u, w, x, r, flashes, end)
  {
    Rebase(cfg, a, u, w, v, x, r, flashes, end);
  }

  lemma StoppedEnds(cfg: Config, a: Answers, u: Update, w: World, x: World, r: Outcome)
    requires SameGround(w, x) && (r, x.state) == StoppedAs(cfg, a, w.state, u)
    requires cfg.noFlash || !Prepared(cfg, a, w.state, u)
    requires r in {Raised, Returned(Idle), Returned(Rejected)}
    requires ReportsVerified(x, r) <==> UpToDate(a, w.state, u) || (Prepared(cfg, a, w.state, u) && StampsIt(a, u))
    requires ReportsVerified(x, r) ==> x.files.staged.None? && x.files.stagedHost.None?
    ensures Ended(cfg, a, u, w, x, r, [], Stopped)
  {
  }

  /** How verify-only mode ends for an offer that was verified. */
  lemma VerifiedOnlyAs(cfg: Config, a: Answers, s: State, u: Update)
    requires Prepared(cfg, a, s, u)
    ensures StoppedAs(cfg, a, s, u) ==
              var verified := VerifiedRecord(cfg, a, s, u.version);
              if StampsIt(a, u) then (Returned(Idle), Closed(cfg, a, Stamped(verified, u), Idle)) else (Raised, verified)
  {
  }

  lemma SeenFromTheStart(cfg: Config, a: Answers, u: Update, w: World, v: World, x: World, r: Outcome, flashes: seq<Why>, end: Ending)
    requires v == w.(session := v.session) && Ended(cfg, a, u, v, x, r, flashes, end)
    ensures Ended(cfg, a, u, w, x, r, flashes, end)
  {
    Rebase(cfg, a, u, w, v, x, r, flashes, end);
  }

  /** `source.check()`: a cycle begins with nothing established. */
  method AskSource(dev: Device, offer: Option<Update>)
    requires dev.Valid()
    modifies dev
    ensures dev.Valid() && dev.trace == old(dev.trace) + [Cycle(offer)] && Flashes(dev.trace) == Flashes(old(dev.trace))
    ensures dev.w == old(dev.w).(session := REST.(offer := offer))
  {
    dev.Emit(Cycle(offer));
  }

  /** Verify-only mode's last step, told from the start `w` of the cycle. */
  method StampOnly(dev: Device, a: Answers, u: Update, ghost w: World) returns (r: Outcome)
    requires dev.Valid() && dev.cfg.noFlash && Admitted(dev.w) && Prepared(dev.cfg, a, w.state, u)
    requires SameGround(w, dev.w) && dev.w.state == VerifiedRecord(dev.cfg, a, w.state, u.version)
    requires dev.w.session.offer == Some(u) && dev.w.session.facts.accepted.Some? && dev.w.session.phase == Some(Verifying)
    modifies dev
    ensures dev.Valid() && old(dev.trace) <= dev.trace && Flashes(dev.trace) == Flashes(old(dev.trace))
    ensures PhaseAgrees(dev.w.session, r) && dev.w.session.offer == Some(u) && dev.w.host == w.host
    ensures Ended(dev.cfg, a, u, w, dev.w, r, [], Stopped)
  {
    r := VerifyOnly(dev, a, u);
    VerifiedOnlyAs(dev.cfg, a, w.state, u);
    StoppedEnds(dev.cfg, a, u, w, dev.w, r);
  }

  /** The cycle for an offer, from the moment the source has made it. */
  method Attempt(dev: Device, a: Answers, u: Update) returns (r: Outcome, ghost end: Ending, ghost flashes: seq<Why>)
    requires dev.Valid() && Plausible(dev.cfg, a) && Host.AllSound(dev.w.host) && dev.w.session == REST.(offer := Some(u))
    modifies dev
    ensures dev.Valid() && old(dev.trace) <= dev.trace && Host.AllSound(dev.w.host)
    ensures PhaseAgrees(dev.w.session, r)
    ensures Ended(dev.cfg, a, u, old(dev.w), dev.w, r, flashes, end) && dev.w.session.offer == Some(u)
    ensures Flashes(dev.trace) == Flashes(old(dev.trace)) + flashes
  {
    end, flashes := Stopped, [];
    var stopped := Prepare(dev, a, u);
    if stopped.Some? {
      r := stopped.value;
      StoppedEnds(dev.cfg, a, u, old(dev.w), dev.w, r);
    } else if dev.cfg.noFlash {
      r := StampOnly(dev, a, u, old(dev.w));
    } else {
      ghost var v := dev.w;
      r, end, flashes := Install(dev, a, u);
      InstalledEnds(dev.cfg, a, u, old(dev.w), v, dev.w, r, flashes, end);
    }
  }

  /** `run_once`. */
  method RunOnce(dev: Device, a: Answers) returns (r: Outcome, ghost end: Ending, ghost flashes: seq<Why>)
    requires dev.Valid() && Plausible(dev.cfg, a) && Host.AllSound(dev.w.host)
    modifies dev
    ensures dev.Valid() && old(dev.trace) + [Cycle(a.offer)] <= dev.trace && Host.AllSound(dev.w.host)
    ensures PhaseAgrees(dev.w.session, r)
    ensures Flashes(dev.trace) == Flashes(old(dev.trace)) + flashes
    ensures dev.w.session.offer == a.offer
    ensures a.offer.None? ==> r == Returned(Idle) && end.Stopped? && flashes == [] && dev.w == old(dev.w).(session := REST)
    ensures a.offer.Some? ==> Ended(dev.cfg, a, a.offer.value, old(dev.w), dev.w, r, flashes, end)
  {
    AskSource(dev, a.offer);
    if a.offer.None? {
      r, end, flashes := Returned(Idle), Stopped, [];
      return;
    }
    ghost var w := dev.w;
    r, end, flashes := Attempt(dev, a, a.offer.value);
    SeenFromTheStart(dev.cfg, a, a.offer.value, old(dev.w), w, dev.w, r, flashes, end);
  }

  // ---------------------------------------------------------------------------------------------
  // What the endings mean

  /** Once the board may be touched, a cycle commits in exactly these circumstances. */
  lemma CommitsExactlyWhen(cfg: Config, a: Answers, u: Update, w: World, x: World, r: Outcome, flashes: seq<Why>, end: Ending)
    requires Finished(cfg, a, u, w, x, r, flashes, end) && !end.Stopped? && x.files.staged.Some?
    ensures r == Returned(Committed) <==>
              && a.mayFlash.Yes? && FlashResult(cfg, a, x.files.staged.value, ForUpdate(u.version)).Done?
              && GoesThrough(cfg, a, w, x.files, u)
              && CommitCopies(a, AfterDrift(a, w), x.files.staged.value) && a.loads(AtCommit)
  {
  }

  /** The record but for what every phase change overwrites. */
  function Bare(s: State): State {
    s.(phase := Idle, version := None, coreVersion := None)
  }

  /** What a cycle that was to go on does to the attempts, the poison list, the sequence and the recorded versions. */
  function BareEnd(a: Answers, s: State, u: Update, hadCurrent: bool, r: Outcome, end: Ending): State {
    var charged := if a.mayFlash.Yes? then Try(a, s, RecordAttempt(u.version)) else s;
    if end.Through? && r == Returned(Committed) then Bare(Try(a, charged, CommitWrite(u, hadCurrent)))
    else if end.BackedOut? then Try(a, charged, Poison(u.version))
    else charged
  }

  lemma BareOfFlashed(cfg: Config, a: Answers, s: State, v: string, r: Option<Outcome>)
    ensures Bare(StagedRecord(cfg, a, s, v, r)) == if a.mayFlash.Yes? then Try(a, Bare(s), RecordAttempt(v)) else Bare(s)
  {
    var staged := Marked(cfg, a, s, Staged, v);
    assert Bare(staged) == Bare(s);
    assert Bare(ChargedRecord(cfg, a, staged, v)) == Try(a, Bare(staged), RecordAttempt(v));
  }

  lemma BareOfRolled(cfg: Config, a: Answers, s: State, v: string, r: Outcome)
    ensures Bare(RolledRecord(cfg, a, s, v, r)) == Try(a, Bare(s), Poison(v))
  {
    assert Bare(Marked(cfg, a, s, RollingBack, v)) == Bare(s);
    assert Bare(RollingRecord(cfg, a, s, v)) == Try(a, Bare(s), Poison(v));
  }

  lemma BareOfCommitted(cfg: Config, a: Answers, s: State, u: Update, hadCurrent: bool, r: Outcome)
    ensures Bare(CommittedRecord(cfg, a, s, u, hadCurrent, r)) ==
            if r == Returned(Committed) then Bare(Try(a, Bare(s), CommitWrite(u, hadCurrent))) else Bare(s)
  {
  }

  lemma BareOfInstalled(cfg: Config, a: Answers, s: State, u: Update, hadCurrent: bool, r: Outcome, end: Ending)
    requires !end.Stopped? && (end.NotFlashed? || a.mayFlash.Yes?)
    ensures Bare(InstalledRecord(cfg, a, s, u, hadCurrent, r, end)) == BareEnd(a, Bare(s), u, hadCurrent, r, end)
  {
    BareOfFlashed(cfg, a, s, u.version, Some(r));
    BareOfFlashed(cfg, a, s, u.version, None);
    var flashed := StagedRecord(cfg, a, s, u.version, None);
    BareOfRolled(cfg, a, flashed, u.version, r);
    BareOfCommitted(cfg, a, flashed, u, hadCurrent, r);
  }

  /**
    `t` is the record `s` with one attempt more exactly if the board was to be touched and the disk took it; the
    poison exactly if the cycle backed out and the disk took it; the update's sequence and version, and the displaced
    image's version, exactly if it committed and the disk took it; and nothing else.
   */
  ghost predicate Recorded(a: Answers, u: Update, s: State, t: State, hadCurrent: bool, r: Outcome, end: Ending) {
    && (forall v :: Attempts(t, v) == Attempts(s, v) +
          if v == u.version && a.mayFlash.Yes? && a.persists(RecordAttempt(u.version)) then 1 else 0)
    && (forall v :: v in t.poisoned <==>
          v in s.poisoned || (v == u.version && end.BackedOut? && a.persists(Poison(u.version))))
    && t.lastVerifiedSequence == s.lastVerifiedSequence && t.lastVerifiedVersion == s.lastVerifiedVersion
    && if end.Through? && r == Returned(Committed) && a.persists(CommitWrite(u, hadCurrent)) then
         && t.sequence == u.sequence && t.committedVersion == Some(u.version)
         && t.previousVersion == (if hadCurrent then s.committedVersion else s.previousVersion)
       else SameLabels(s, t)
  }

  lemma BareEndMeans(a: Answers, s: State, u: Update, hadCurrent: bool, r: Outcome, end: Ending)
    requires end.NotFlashed? || a.mayFlash.Yes?
    ensures Recorded(a, u, s, BareEnd(a, s, u, hadCurrent, r, end), hadCurrent, r, end)
  {
  }

  lemma RecordedIfBare(a: Answers, u: Update, s: State, t: State, hadCurrent: bool, r: Outcome, end: Ending)
    requires Recorded(a, u, Bare(s), Bare(t), hadCurrent, r, end)
    ensures Recorded(a, u, s, t, hadCurrent, r, end)
  {
    assert forall v :: Attempts(Bare(s), v) == Attempts(s, v) && Attempts(Bare(t), v) == Attempts(t, v);
  }

  lemma EndedInstalled(cfg: Config, a: Answers, u: Update, w: World, x: World, r: Outcome, flashes: seq<Why>, end: Ending)
    requires Ended(cfg, a, u, w, x, r, flashes, end) && !end.Stopped?
    ensures end.NotFlashed? || a.mayFlash.Yes?
    ensures x.state ==
            InstalledRecord(cfg, a, VerifiedRecord(cfg, a, w.state, u.version), u, AfterDrift(a, w).current.Some?, r, end)
  {
  }

  lemma CommitsOnlyThrough(cfg: Config, a: Answers, u: Update, w: World, x: World, r: Outcome, flashes: seq<Why>, end: Ending)
    requires Ended(cfg, a, u, w, x, r, flashes, end) && r == Returned(Committed)
    ensures end.Through?
  {
  }

  lemma BareOfVerified(cfg: Config, a: Answers, s: State, v: string)
    ensures Bare(VerifiedRecord(cfg, a, s, v)) == Bare(s)
  {
  }

  /** What a cycle that was to go on leaves of the attempts, the poison list, the sequences and the recorded versions. */
  lemma RecordAtTheEnd(cfg: Config, a: Answers, u: Update, w: World, x: World, r: Outcome, flashes: seq<Why>, end: Ending)
    requires Ended(cfg, a, u, w, x, r, flashes, end) && !end.Stopped?
    ensures Recorded(a, u, w.state, x.state, AfterDrift(a, w).current.Some?, r, end)
  {
    EndedInstalled(cfg, a, u, w, x, r, flashes, end);
    InstalledIsRecorded(cfg, a, u, w.state, x.state, AfterDrift(a, w).current.Some?, r, end);
  }

  lemma InstalledIsRecorded(cfg: Config, a: Answers, u: Update, s: State, t: State, hadCurrent: bool, r: Outcome, end: Ending)
    requires !end.Stopped? && (end.NotFlashed? || a.mayFlash.Yes?)
    requires t == InstalledRecord(cfg, a, VerifiedRecord(cfg, a, s, u.version), u, hadCurrent, r, end)
    ensures Recorded(a, u, s, t, hadCurrent, r, end)
  {
    BareOfVerified(cfg, a, s, u.version);
    BareOfInstalled(cfg, a, VerifiedRecord(cfg, a, s, u.version), u, hadCurrent, r, end);
    BareEndMeans(a, Bare(s), u, hadCurrent, r, end);
    RecordedIfBare(a, u, s, t, hadCurrent, r, end);
  }

  /**
    A version that is already committed, offered again, is reported verified exactly if it is not barred: attempts
    are never reset, so a version that needed its last attempt to commit is rejected, and poisoned, instead.
   */
  lemma CommittedVersionOfferedAgain(cfg: Config, a: Answers, u: Update, w: World, x: World, r: Outcome, flashes: seq<Why>, end: Ending)
    requires Ended(cfg, a, u, w, x, r, flashes, end) && AdmissionReads(a, w.state, u)
    requires w.state.committedVersion == Some(u.version) && u.sequence <= Watermark(w.state)
    requires a.unlinks(StagedBin) && a.unlinks(StagedHost) && a.persists(Poison(u.version))
    ensures end.Stopped? && flashes == []
    ensures ReportsVerified(x, r) <==> u.version !in w.state.poisoned && Attempts(w.state, u.version) < MAX_ATTEMPTS
    ensures !ReportsVerified(x, r) ==> r == Returned(Rejected) && u.version in x.state.poisoned
  {
  }

  /**
    Two cycles in a row for the same offer, the first of which commits it and gets everything onto the disk: the
    second rejects and poisons the very version that is running exactly if the commit needed the last attempt.
   */
  lemma PoisonedByItsOwnCommit(cfg: Config, u: Update, a: Answers, w: World, x: World, flashes: seq<Why>, end: Ending,
                               b: Answers, y: World, r: Outcome, again: seq<Why>, stop: Ending)
    requires Ended(cfg, a, u, w, x, Returned(Committed), flashes, end)
    requires a.persists(RecordAttempt(u.version)) && a.persists(CommitWrite(u, AfterDrift(a, w).current.Some?))
    requires Ended(cfg, b, u, x, y, r, again, stop) && AdmissionReads(b, x.state, u)
    requires b.unlinks(StagedBin) && b.unlinks(StagedHost) && b.persists(Poison(u.version))
    ensures Attempts(w.state, u.version) + 1 < MAX_ATTEMPTS ==> ReportsVerified(y, r)
    ensures Attempts(w.state, u.version) + 1 >= MAX_ATTEMPTS ==> r == Returned(Rejected) && u.version in y.state.poisoned
    ensures stop.Stopped? && again == []
  {
    CommitLeaves(cfg, a, u, w, x, flashes, end);
    CommittedVersionOfferedAgain(cfg, b, u, x, y, r, again, stop);
  }

  /** What a commit that gets everything onto the disk leaves for the next admission to look at. */
  lemma CommitLeaves(cfg: Config, a: Answers, u: Update, w: World, x: World, flashes: seq<Why>, end: Ending)
    requires Ended(cfg, a, u, w, x, Returned(Committed), flashes, end)
    requires a.persists(RecordAttempt(u.version)) && a.persists(CommitWrite(u, AfterDrift(a, w).current.Some?))
    ensures Attempts(x.state, u.version) == Attempts(w.state, u.version) + 1 && u.version !in x.state.poisoned
    ensures x.state.committedVersion == Some(u.version) && u.sequence <= Watermark(x.state)
  {
    CommitWasAdmitted(cfg, a, u, w, x, flashes, end);
    RecordAtTheEnd(cfg, a, u, w, x, Returned(Committed), flashes, end);
  }

  lemma CommitWasAdmitted(cfg: Config, a: Answers, u: Update, w: World, x: World, flashes: seq<Why>, end: Ending)
    requires Ended(cfg, a, u, w, x, Returned(Committed), flashes, end)
    ensures end.Through? && a.mayFlash.Yes? && u.version !in w.state.poisoned
  {
  }

  /**
    An offer that is delivered whole, and whose manifest and files would pass every check, is rejected - with an
    attempt recorded and the version poisoned, as far as the disk allows - exactly if the read for the load fails.
   */
  lemma FailedReadPoisons(cfg: Config, a: Answers, u: Update, w: World, x: World, r: Outcome, flashes: seq<Why>, end: Ending)
    requires Ended(cfg, a, u, w, x, r, flashes, end)
    requires Delivered(a, w.state, u) && Conclusion(cfg, a.(loadReads := true), w.state.sequence, u).Passed?
    ensures end.Stopped? && r == Returned(Rejected) <==> !a.loadReads
    ensures !a.loadReads ==>
              && flashes == []
              && Attempts(x.state, u.version) == Attempts(w.state, u.version) + (if a.persists(RecordAttempt(u.version)) then 1 else 0)
              && (a.persists(Poison(u.version)) ==> u.version in x.state.poisoned)
  {
    ConclusionByRead(cfg, a, w.state.sequence, u);
    if !a.loadReads {
      CondemnedAs(cfg, a, w.state, u);
      BlamedMeans(cfg, a, VerifiedRecord(cfg, a, w.state, u.version), u.version);
    }
  }

  /** Of all the answers, what verification and load conclude depends on that one read alone once the rest would pass. */
  lemma ConclusionByRead(cfg: Config, a: Answers, last: int, u: Update)
    requires FetchesAll(a, u) && FetchesAll(a.(loadReads := true), u)
    requires Conclusion(cfg, a.(loadReads := true), last, u).Passed?
    ensures Conclusion(cfg, a, last, u) == if a.loadReads then Conclusion(cfg, a.(loadReads := true), last, u) else Condemned
  {
    var f := DeliveredFiles(a, u);
    assert DeliveredFiles(a.(loadReads := true), u) == f;
    assert Readable(a.(loadReads := true), f, StagedBin) == Readable(a, f, StagedBin);
    assert Readable(a.(loadReads := true), f, StagedHost) == Readable(a, f, StagedHost);
    CondemnedByFailedRead(cfg, a, last, f, u);
  }

  /** What a cycle whose check condemned the offer returns, and its record. */
  lemma CondemnedAs(cfg: Config, a: Answers, s: State, u: Update)
    requires Delivered(a, s, u) && Conclusion(cfg, a, s.sequence, u) == Condemned
    ensures StoppedAs(cfg, a, s, u) ==
            (Returned(Rejected), AnsweredRecord(cfg, a, VerifiedRecord(cfg, a, s, u.version), u.version, Condemned))
  {
  }

  lemma BlamedMeans(cfg: Config, a: Answers, s: State, v: string)
    ensures var t := AnsweredRecord(cfg, a, s, v, Condemned);
            && Attempts(t, v) == Attempts(s, v) + (if a.persists(RecordAttempt(v)) then 1 else 0)
            && (a.persists(Poison(v)) ==> v in t.poisoned)
  {
  }

  // ---------------------------------------------------------------------------------------------
  // The phase on disk

  /** The phases a cycle sets before the one it returns. */
  function EarlierPhases(a: Answers, s: State, u: Update, r: Outcome, end: Ending): set<Phase> {
    match end
    case Stopped =>
      if !Delivered(a, s, u) then
        (if AdmissionReads(a, s, u) && !Barred(s, u.version) && a.preflight.Yes? && a.mayFetch.Yes? then {Downloading} else {})
      else {Downloading, Verifying}
    case NotFlashed =>
      if a.mayFlash.Yes? then {Downloading, Verifying, Staged, Flashing} else {Downloading, Verifying}
    case Through => {Downloading, Verifying, Staged, Flashing, HealthCheck}
    case BackedOut(_, _) => {Downloading, Verifying, Staged, Flashing, HealthCheck, RollingBack}
  }

  /** The write that sets the phase a cycle returns. */
  function FinalWrite(cfg: Config, u: Update, hadCurrent: bool, p: Phase, end: Ending): Write {
    if p == Committed then CommitWrite(u, hadCurrent)
    else if p == Staged || (p == Rejected && end.Stopped?) then PhaseWrite(cfg, p, Some(u.version))
    else PhaseWrite(cfg, p, None)
  }

  /** None of these phases got onto the disk. */
  predicate NoneLanded(cfg: Config, a: Answers, v: string, phases: set<Phase>) {
    forall p :: p in phases ==> !a.persists(PhaseWrite(cfg, p, Some(v)))
  }

  /** The phase `t` holds after these have been set in turn, starting from `s`. */
  ghost predicate PhaseAfterThem(cfg: Config, a: Answers, v: string, phases: set<Phase>, s: State, t: State) {
    if NoneLanded(cfg, a, v, phases) then t.phase == s.phase else t.phase in phases
  }

  lemma PhaseMarked(cfg: Config, a: Answers, v: string, phases: set<Phase>, s: State, t: State, p: Phase)
    requires PhaseAfterThem(cfg, a, v, phases, s, t)
    ensures PhaseAfterThem(cfg, a, v, phases + {p}, s, Marked(cfg, a, t, p, v))
  {
    assert NoneLanded(cfg, a, v, phases + {p}) <==> NoneLanded(cfg, a, v, phases) && !a.persists(PhaseWrite(cfg, p, Some(v)));
  }

  lemma PhaseVerified(cfg: Config, a: Answers, v: string, s: State)
    ensures PhaseAfterThem(cfg, a, v, {Downloading}, s, Marked(cfg, a, s, Downloading, v))
    ensures PhaseAfterThem(cfg, a, v, {Downloading, Verifying}, s, VerifiedRecord(cfg, a, s, v))
  {
    PhaseMarked(cfg, a, v, {}, s, s, Downloading);
    assert {} + {Downloading} == {Downloading};
    PhaseMarked(cfg, a, v, {Downloading}, s, Marked(cfg, a, s, Downloading, v), Verifying);
    assert {Downloading} + {Verifying} == {Downloading, Verifying};
  }

  lemma PhaseFlashed(cfg: Config, a: Answers, v: string, s: State)
    ensures var staged := Marked(cfg, a, VerifiedRecord(cfg, a, s, v), Staged, v);
            var charged := ChargedRecord(cfg, a, staged, v);
            && PhaseAfterThem(cfg, a, v, {Downloading, Verifying, Staged, Flashing}, s, charged)
            && PhaseAfterThem(cfg, a, v, {Downloading, Verifying, Staged, Flashing, HealthCheck}, s,
                              Marked(cfg, a, charged, HealthCheck, v))
  {
    var three, four, five := {Downloading, Verifying, Staged}, {Downloading, Verifying, Staged, Flashing},
                             {Downloading, Verifying, Staged, Flashing, HealthCheck};
    var verified := VerifiedRecord(cfg, a, s, v);
    var staged := Marked(cfg, a, verified, Staged, v);
    PhaseVerified(cfg, a, v, s);
    PhaseMarked(cfg, a, v, {Downloading, Verifying}, s, verified, Staged);
    assert {Downloading, Verifying} + {Staged} == three;
    PhaseMarked(cfg, a, v, three, s, Try(a, staged, RecordAttempt(v)), Flashing);
    assert three + {Flashing} == four;
    PhaseMarked(cfg, a, v, four, s, ChargedRecord(cfg, a, staged, v), HealthCheck);
    assert four + {HealthCheck} == five;
  }

  lemma PhaseRolling(cfg: Config, a: Answers, v: string, s: State, t: State)
    requires PhaseAfterThem(cfg, a, v, {Downloading, Verifying, Staged, Flashing, HealthCheck}, s, t)
    ensures PhaseAfterThem(cfg, a, v, {Downloading, Verifying, Staged, Flashing, HealthCheck, RollingBack}, s,
                           RollingRecord(cfg, a, t, v))
  {
    PhaseMarked(cfg, a, v, {Downloading, Verifying, Staged, Flashing, HealthCheck}, s, t, RollingBack);
    assert {Downloading, Verifying, Staged, Flashing, HealthCheck} + {RollingBack} ==
           {Downloading, Verifying, Staged, Flashing, HealthCheck, RollingBack};
  }

  /** The phase on disk just before the cycle tries to write the one it returns. */
  ghost predicate LastPhase(cfg: Config, a: Answers, v: string, phases: set<Phase>, s: State, x: State, final: Write, p: Phase) {
    if a.persists(final) then x.phase == p
    else if NoneLanded(cfg, a, v, phases) then x.phase == s.phase
    else x.phase in phases
  }

  lemma LastPhaseStopped(cfg: Config, a: Answers, s: State, u: Update)
    requires !UpToDate(a, s, u) && StoppedAs(cfg, a, s, u).0.Returned?
    ensures var p := StoppedAs(cfg, a, s, u).0.phase;
            LastPhase(cfg, a, u.version, EarlierPhases(a, s, u, Returned(p), Stopped), s, StoppedAs(cfg, a, s, u).1,
                      FinalWrite(cfg, u, false, p, Stopped), p)
  {
    PhaseVerified(cfg, a, u.version, s);
  }

  lemma LastPhaseInstalled(cfg: Config, a: Answers, s: State, u: Update, hadCurrent: bool, p: Phase, end: Ending)
    requires !end.Stopped? && (end.NotFlashed? || a.mayFlash.Yes?)
    requires match end
             case Stopped => true
             case NotFlashed => p == if a.mayFlash.Yes? then Idle else Staged
             case Through => p in {Committed, Idle}
             case BackedOut(_, _) => p in {RolledBack, Rejected}
    ensures LastPhase(cfg, a, u.version, EarlierPhases(a, s, u, Returned(p), end), s,
                      InstalledRecord(cfg, a, VerifiedRecord(cfg, a, s, u.version), u, hadCurrent, Returned(p), end),
                      FinalWrite(cfg, u, hadCurrent, p, end), p)
  {
    PhaseVerified(cfg, a, u.version, s);
    PhaseFlashed(cfg, a, u.version, s);
    if end.BackedOut? {
      PhaseRolling(cfg, a, u.version, s, StagedRecord(cfg, a, VerifiedRecord(cfg, a, s, u.version), u.version, None));
    }
  }

  /**
    The phase on disk is the phase returned exactly if the write of that phase got through - or none of the cycle's
    phases did, and it was the phase on disk already.  Whether an attempt or a poison write was lost does not matter.
   */
  lemma ReturnedPhaseOnDisk(cfg: Config, a: Answers, u: Update, w: World, x: World, p: Phase, flashes: seq<Why>, end: Ending)
    requires Ended(cfg, a, u, w, x, Returned(p), flashes, end) && !UpToDate(a, w.state, u)
    ensures x.state.phase == p <==>
              || a.persists(FinalWrite(cfg, u, AfterDrift(a, w).current.Some?, p, end))
              || (w.state.phase == p && NoneLanded(cfg, a, u.version, EarlierPhases(a, w.state, u, Returned(p), end)))
  {
    PossiblePhases(cfg, a, u, w, x, p, flashes, end);
    if end.Stopped? {
      LastPhaseStopped(cfg, a, w.state, u);
    } else {
      LastPhaseInstalled(cfg, a, w.state, u, AfterDrift(a, w).current.Some?, p, end);
    }
  }

  lemma PossiblePhases(cfg: Config, a: Answers, u: Update, w: World, x: World, p: Phase, flashes: seq<Why>, end: Ending)
    requires Finished(cfg, a, u, w, x, Returned(p), flashes, end)
    ensures match end
            case Stopped => p in {Idle, Rejected}
            case NotFlashed => p == if a.mayFlash.Yes? then Idle else Staged
            case Through => p in {Committed, Idle} && a.mayFlash.Yes?
            case BackedOut(_, _) => p in {RolledBack, Rejected} && a.mayFlash.Yes?
    ensures p !in EarlierPhases(a, w.state, u, Returned(p), end)
  {
  }

  /** An offer that is old news, and no offer at all, return IDLE and leave the phase on disk whatever it was. */
  lemma OldNewsStoresNothing(cfg: Config, a: Answers, u: Update, w: World, x: World, r: Outcome, flashes: seq<Why>, end: Ending)
    requires Ended(cfg, a, u, w, x, r, flashes, end) && UpToDate(a, w.state, u)
    ensures r == Returned(Idle) && x.state == w.state
  {
  }

  // ---------------------------------------------------------------------------------------------
  // Both sides

  /** The coupled transaction: what COMMITTED means for the MCU, the host tree and the image files. */
  ghost predicate Coupled(cfg: Config, a: Answers, u: Update, w: World, x: World) {
    && x.mcu.Running? && x.files.current == Some(x.mcu.image) && Artifact.Loads(x.mcu.image)
    && Verify.Authentic(cfg.trust, u.manifest, w.state.sequence, a.now)
    && Verify.VerifyTarget(cfg.trust, u.manifest, cfg.target)
    && Verify.Matches(cfg.trust, u.manifest, "artifact", Some(x.mcu.image))
    && x.files.golden == w.files.golden
    && (x.files.previous == w.files.current || (x.files.previous == w.files.previous && (w.files.current.None? || DropsCurrent(a, w))))
    && HostCoupled(cfg, u, w, x)
  }

  /** The live host tree is the unpacked, digest-checked payload and the old one is kept; or the host was not touched. */
  ghost predicate HostCoupled(cfg: Config, u: Update, w: World, x: World) {
    if HostBlock(u).Some? then
      && Verify.Matches(cfg.trust, u.manifest, "host_payload", x.files.stagedHost)
      && x.host.live.Some? && x.host.live == cfg.unpack(x.files.stagedHost.value) && x.host.previous == w.host.live
    else x.host == w.host
  }

  /** Verification that passed is a check of the very bytes that are staged. */
  lemma PassedMeansMatches(cfg: Config, a: Answers, last: int, f: Files, u: Update)
    requires StagedAsFetched(a, u, f) && Conclusion(cfg, a, last, u).Passed?
    ensures f.staged.Some? && Artifact.Loads(f.staged.value)
    ensures Verify.Authentic(cfg.trust, u.manifest, last, a.now) && Verify.VerifyTarget(cfg.trust, u.manifest, cfg.target)
    ensures Verify.Matches(cfg.trust, u.manifest, "artifact", f.staged)
    ensures HostBlock(u).Some? ==> Verify.Matches(cfg.trust, u.manifest, "host_payload", f.stagedHost)
  {
    var g := DeliveredFiles(a, u);
    Verify.VerdictMeaning(cfg.trust, u.manifest, cfg.target, last, a.now, Readable(a, g, StagedBin), Readable(a, g, StagedHost));
  }

  /**
    COMMITTED means that the MCU runs the signed, digest-checked image that is now current.bin, that a coupled host
    payload is live, and that the board was flashed once.
   */
  lemma CommittedMeansCoupled(cfg: Config, a: Answers, u: Update, w: World, x: World, flashes: seq<Why>, end: Ending)
    requires Ended(cfg, a, u, w, x, Returned(Committed), flashes, end)
    ensures Coupled(cfg, a, u, w, x) && flashes == [ForUpdate(u.version)]
  {
    ThroughIsCoupled(cfg, a, u, w, x, flashes, end);
  }

  lemma ThroughIsCoupled(cfg: Config, a: Answers, u: Update, w: World, x: World, flashes: seq<Why>, end: Ending)
    requires Finished(cfg, a, u, w, x, Returned(Committed), flashes, end)
    requires StagedAsFetched(a, u, x.files) && Conclusion(cfg, a, w.state.sequence, u).Passed?
    ensures Coupled(cfg, a, u, w, x) && flashes == [ForUpdate(u.version)]
  {
    PassedMeansMatches(cfg, a, w.state.sequence, x.files, u);
  }

  /** Right after a commit, with nobody else writing, a drift check whose SWD read succeeds keeps current.bin. */
  lemma CommitSurvivesDriftCheck(cfg: Config, a: Answers, u: Update, w: World, x: World, next: Answers, y: World)
    requires Coupled(cfg, a, u, w, x) && y.mcu == x.mcu && y.files.current == x.files.current && next.swdReads
    ensures !DropsCurrent(next, y)
  {
    Artifact.NoDriftWhenResidentIsBelieved(x.mcu.image);
  }

  /**
    A cycle that backs out leaves the live host tree alone when the MCU failed its check first.  Otherwise the live
    tree is as it was if the apply is undone - and, where the trees are told apart, only then.
   */
  lemma BackedOutHost(cfg: Config, a: Answers, u: Update, w: World, x: World, r: Outcome, flashes: seq<Why>, end: Ending)
    requires Finished(cfg, a, u, w, x, r, flashes, end) && end.BackedOut?
    ensures !a.healthy ==> x.host == w.host
    ensures a.healthy ==>
              var archive := ArchiveOf(cfg, x.files);
              var undone := Host.Undone(w.host, archive, a.host.apply, a.host.rollback);
              && (undone ==> x.host.live == w.host.live)
              && (Host.ToldApart(w.host, archive) ==> (x.host.live == w.host.live <==> undone))
  {
    if a.healthy {
      HostRestored(a, w.host, ArchiveOf(cfg, x.files), end.mid, x.host);
    }
  }

  /**
    A device's first host payload, applied where nothing was live, whose restart or health check fails: the MCU goes
    back to an older image, whatever the rollback finds, and the new payload stays live.
   */
  lemma FirstPayloadIsKept(cfg: Config, a: Answers, u: Update, w: World, x: World, r: Outcome, flashes: seq<Why>, end: Ending)
    requires Finished(cfg, a, u, w, x, r, flashes, end) && end.BackedOut? && a.healthy
    requires w.host.live.None? && Host.ApplySucceeds(w.host, ArchiveOf(cfg, x.files), a.host.apply)
    ensures x.host.live.Some? && x.host.live == ArchiveOf(cfg, x.files).payload
    ensures r == Returned(RolledBack) ==>
              At(x.files, CANDIDATES[end.k]).Some? && x.mcu == Running(At(x.files, CANDIDATES[end.k]).value)
  {
  }

  /**
    A cycle that backs out is reported rolled back exactly if some candidate qualifies, with the first such one on
    the MCU, and rejected exactly if none does - provided the state file can be read when a label is looked up.
   */
  lemma RolledBackExactlyWhen(cfg: Config, a: Answers, u: Update, w: World, x: World, r: Outcome, flashes: seq<Why>, end: Ending)
    requires Finished(cfg, a, u, w, x, r, flashes, end) && end.BackedOut? && LabelsReadable(a)
    ensures var sc := Scene(cfg, a, x.files, w.state, u.version);
            && (r == Returned(RolledBack) <==> exists name :: name in CANDIDATES && Qualifies(sc, name))
            && (r == Returned(Rejected) <==> forall name :: name in CANDIDATES ==> !Qualifies(sc, name))
            && (r == Returned(RolledBack) ==>
                  && Qualifies(sc, CANDIDATES[end.k]) && x.mcu == Running(At(x.files, CANDIDATES[end.k]).value)
                  && forall j :: 0 <= j < end.k ==> !Qualifies(sc, CANDIDATES[j]))
  {
    MeetsSpecification(Scene(cfg, a, x.files, w.state, u.version), end.k);
  }

  lemma HonestIsRestored(sc: Scene, fw: Bytes -> string, name: Name)
    requires name in CANDIDATES && HonestCandidate(sc, fw, name) && LabelsReadable(sc.a)
    ensures TrialOf(sc, name) == Restored <==> RightlyLabelled(sc, fw, name)
  {
    HonestQualifiesIfRightlyLabelled(sc, fw, name);
    RestoredMeansQualifies(sc, name);
  }

  lemma EndsByThen(sc: Scene, k: nat, j: nat)
    requires EndsAt(sc, k) && LabelsReadable(sc.a) && j < |CANDIDATES| && TrialOf(sc, CANDIDATES[j]) == Restored
    ensures k <= j && OutcomeAt(sc, k) == Returned(RolledBack)
  {
    assert CANDIDATES[k] in CANDIDATES;
    RestoredMeansQualifies(sc, CANDIDATES[k]);
  }

  /** The drift check takes current.bin away or leaves it as it is, so what a rollback finds is rightly labelled. */
  lemma LabelsAfterDrift(fw: Bytes -> string, a: Answers, w: World, sc: Scene, name: Name)
    requires Safety.LabelsTrackFiles(fw, w) && SameImages(AfterDrift(a, w), sc.files) && sc.state == w.state
    requires name in CANDIDATES
    ensures RightlyLabelled(sc, fw, name)
  {
  }

  /**
    A cycle that flashed its update and goes idle because a copy of the commit failed, from rightly labelled files:
    current.bin is still rightly labelled; previous.bin is exactly if it was not replaced - or, given a recorded
    committed version, if no previous version or the same one was recorded.
   */
  lemma LabelsAfterFailedCopy(cfg: Config, fw: Bytes -> string, a: Answers, u: Update, w: World, x: World,
                              flashes: seq<Why>, end: Ending)
    requires Ended(cfg, a, u, w, x, Returned(Idle), flashes, end) && end.Through? && Safety.LabelsTrackFiles(fw, w)
    ensures Safety.Labelled(fw, x.files.current, x.state.committedVersion)
    ensures !Displaces(a, AfterDrift(a, w)) ==> Safety.Labelled(fw, x.files.previous, x.state.previousVersion)
    ensures Displaces(a, AfterDrift(a, w)) && w.state.committedVersion.Some? ==>
              (Safety.Labelled(fw, x.files.previous, x.state.previousVersion) <==>
                 w.state.previousVersion in {None, w.state.committedVersion})
  {
    FailedCopyLeaves(cfg, a, u, w, x, flashes, end);
    DisplacedLabel(fw, x.files.previous, w.state.committedVersion, w.state.previousVersion);
  }

  lemma DisplacedLabel(fw: Bytes -> string, image: Option<Bytes>, name: Option<string>, other: Option<string>)
    ensures image.Some? && name.Some? && Safety.Labelled(fw, image, name) ==>
              (Safety.Labelled(fw, image, other) <==> other in {None, name})
  {
    assert image.Some? && name.Some? && Safety.Labelled(fw, image, name) ==> name == Some(fw(image.value));
    assert other.Some? ==> other == Some(other.value);
  }

  lemma FailedCopyLeaves(cfg: Config, a: Answers, u: Update, w: World, x: World, flashes: seq<Why>, end: Ending)
    requires Ended(cfg, a, u, w, x, Returned(Idle), flashes, end) && end.Through?
    ensures x.files.current == AfterDrift(a, w).current && x.files.previous == PreviousAfter(a, AfterDrift(a, w))
    ensures SameLabels(w.state, x.state)
  {
    RecordAtTheEnd(cfg, a, u, w, x, Returned(Idle), flashes, end);
  }

  /**
    In a life with clean commits and honest health reports, a cycle that backs out passes over no honest candidate:
    with the labels readable, it is rolled back to the first one at the latest.
   */
  lemma NoHonestCandidateIsPassedOver(cfg: Config, fw: Bytes -> string, w0: World, trace: seq<Event>,
                                      a: Answers, u: Update, x: World, r: Outcome, flashes: seq<Why>, end: Ending, j: nat)
    requires Life(cfg, w0, trace) && Safety.Honest(fw, trace) && Safety.CleanCommits(trace)
    requires Safety.LabelsTrackFiles(fw, w0) && !Safety.InWindow(trace)
    requires Finished(cfg, a, u, Run(w0, trace), x, r, flashes, end) && end.BackedOut? && LabelsReadable(a)
    requires j < |CANDIDATES| && HonestCandidate(Scene(cfg, a, x.files, Run(w0, trace).state, u.version), fw, CANDIDATES[j])
    ensures end.k <= j && r == Returned(RolledBack)
  {
    var w := Run(w0, trace);
    Safety.LabelsTrack(cfg, fw, w0, trace);
    BackedOutScene(cfg, a, u, w, x, r, flashes, end);
    LabelsAfterDrift(fw, a, w, Scene(cfg, a, x.files, w.state, u.version), CANDIDATES[j]);
    HonestIsRestored(Scene(cfg, a, x.files, w.state, u.version), fw, CANDIDATES[j]);
    EndsByThen(Scene(cfg, a, x.files, w.state, u.version), end.k, j);
  }

  lemma BackedOutScene(cfg: Config, a: Answers, u: Update, w: World, x: World, r: Outcome, flashes: seq<Why>, end: Ending)
    requires Finished(cfg, a, u, w, x, r, flashes, end) && end.BackedOut?
    ensures var sc := Scene(cfg, a, x.files, w.state, u.version); EndsAt(sc, end.k) && r == OutcomeAt(sc, end.k)
    ensures SameImages(AfterDrift(a, w), x.files)
  {
  }

  /** A cycle starts at most four flashes: the update's, first and once, then at most one per rollback candidate. */
  lemma AtMostFourFlashes(cfg: Config, a: Answers, u: Update, w: World, x: World, r: Outcome, flashes: seq<Why>, end: Ending)
    requires Finished(cfg, a, u, w, x, r, flashes, end)
    ensures |flashes| <= 1 + |CANDIDATES|
    ensures flashes != [] ==> flashes[0] == ForUpdate(u.version)
    ensures forall i :: 0 < i < |flashes| ==> flashes[i].Restore?
    ensures |flashes| > 1 ==> end.BackedOut?
  {
    if end.BackedOut? {
      var sc := Scene(cfg, a, x.files, w.state, u.version);
      AtMostOneEach(UsableNames(a, x.files), if end.k < |CANDIDATES| then CANDIDATES[..end.k + 1] else CANDIDATES);
      assert flashes[1..] == Reflashed(sc, end.k);
      assert forall i :: 0 < i < |flashes| ==> flashes[i] == flashes[1..][i - 1];
    }
  }

  /**
    A failed flash is not rolled back, though it may leave the partition erased: whenever an update that passed every
    check cannot be flashed, the cycle goes idle after that one flash, with the host tree and every image file but a
    drifted current.bin in place, and the MCU is what the flash left it.
   */
  lemma FailedFlashIsNotRolledBack(cfg: Config, a: Answers, u: Update, w: World, x: World, r: Outcome, flashes: seq<Why>, end: Ending)
    requires Ended(cfg, a, u, w, x, r, flashes, end)
    requires !cfg.noFlash && Prepared(cfg, a, w.state, u) && a.mayFlash.Yes?
    requires FlashResult(cfg, a, a.fetch(StagedBin).data, ForUpdate(u.version)).FlashError?
    ensures r == Returned(Idle) && flashes == [ForUpdate(u.version)]
    ensures if |a.fetch(StagedBin).data| > cfg.target.maxSize then x.mcu == w.mcu
            else x.mcu == McuAfterReach(w.mcu, a.fetch(StagedBin).data, a.flash(ForUpdate(u.version)).reach)
    ensures |a.fetch(StagedBin).data| <= cfg.target.maxSize && a.flash(ForUpdate(u.version)).reach.AfterErase? ==>
              x.mcu == Torn
    ensures x.host == w.host && SameImages(AfterDrift(a, w), x.files)
  {
  }
}
