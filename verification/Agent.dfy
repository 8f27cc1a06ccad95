/**
  One update cycle (unoq_ota/agent.py, Agent.run_once), step by step over a device.

  `Answers` is everything the collaborators, the disk and the clock may answer during the cycle; a method that is
  correct for every value of it is correct whatever they do.  A collaborator that raises is one of its answers.
 */
module Agent {
  import opened Wrappers
  import opened StateStore
  import opened World
  import Artifact
  import Host
  import Verify

  /** What a cycle ends with: the phase it returns, or an exception that leaves it. */
  datatype Outcome = Returned(phase: Phase) | Raised

  datatype Go = Yes | No | Raises

  datatype Fetch = Delivers(data: Bytes) | Fails(touched: bool, left: Option<Bytes>)

  datatype Reach = BeforeErase | AfterErase | AfterWrite

  datatype FlashAnswer = FlashOk | FlashFails(reach: Reach) | FlashRaises(reach: Reach)

  datatype Alive = CheckRaises | NotText(truthy: bool) | Says(text: string)

  /** The places where the state file is read outside a read-modify-write. */
  datatype Site = AtPoisonCheck | AtCapCheck | AtWatermark | AtSequence | AtStamp | AtCommit | AtExpected(name: Name)

  datatype HostAnswers = HostAnswers(apply: Host.Io, restart: bool, health: bool, rollback: Host.Io)

  datatype Answers = Answers(
    offer: Option<Update>,
    loads: Site -> bool,
    persists: Write -> bool,
    unlinks: Name -> bool,
    preflight: Go,
    mayFetch: Go,
    mayFlash: Go,
    fetch: Name -> Fetch,
    now: int,
    verifyRaises: bool,
    readable: Name -> bool,
    loadReads: bool,
    loadRaises: bool,
    swdReads: bool,
    noise: Option<Artifact.Header>,
    flash: Why -> FlashAnswer,
    healthy: bool,
    host: HostAnswers,
    copyFailsAt: Name -> Option<nat>,
    alive: Name -> Alive)

  /** The operating system shows only well-formed trees. */
  ghost predicate Plausible(cfg: Config, a: Answers) {
    && Host.Sane(a.host.apply) && Host.Sane(a.host.rollback)
    && forall data :: Host.Sound(cfg.unpack(data))
  }

  function Tried(a: Answers, wr: Write): Event {
    if a.persists(wr) then Stored(wr) else Lost(wr)
  }

  /** The state differs at most in what `_set` writes. */
  predicate SameRecord(s: State, r: State) {
    r == s.(phase := r.phase, version := r.version, coreVersion := r.coreVersion)
  }

  /** Sequence and recorded versions are the same. */
  predicate SameLabels(s: State, t: State) {
    t.sequence == s.sequence && t.committedVersion == s.committedVersion && t.previousVersion == s.previousVersion
  }

  /** The session differs at most in its last phase and its last status. */
  predicate SameSession(s: Session, r: Session) {
    r == s.(phase := r.phase, status := r.status)
  }

  /** The MCU, the host tree and every image that recovery can reach for are as they were. */
  predicate Untouched(w: World, x: World) {
    && x.mcu == w.mcu && x.host == w.host
    && x.files.current == w.files.current && x.files.previous == w.files.previous && x.files.golden == w.files.golden
  }

  // ---------------------------------------------------------------------------------------------
  // Store and report

  /** `_try_store`: a write that fails is logged and forgotten. */
  method TryStore(dev: Device, a: Answers, wr: Write)
    requires dev.Valid() && MayWrite(dev.cfg, dev.w, wr)
    modifies dev
    ensures dev.Valid() && dev.w == Step(old(dev.w), Tried(a, wr))
    ensures dev.trace == old(dev.trace) + [Tried(a, wr)] && Flashes(dev.trace) == Flashes(old(dev.trace))
  {
    dev.Emit(Tried(a, wr));
  }

  function PhaseWrite(cfg: Config, p: Phase, shown: Option<string>): Write {
    SetPhase(p, shown, cfg.target.coreVersion)
  }

  /** The record after one write has been tried. */
  function Try(a: Answers, s: State, wr: Write): State {
    if a.persists(wr) then Written(s, wr) else s
  }

  /** The record after `_set(p, v)`. */
  function Marked(cfg: Config, a: Answers, s: State, p: Phase, v: string): State {
    Try(a, s, PhaseWrite(cfg, p, Some(v)))
  }

  /** The record after `_set(p, clear_version=True)`. */
  function Closed(cfg: Config, a: Answers, s: State, p: Phase): State {
    Try(a, s, PhaseWrite(cfg, p, None))
  }

  /** `_set`. */
  method Set(dev: Device, a: Answers, p: Phase, shown: Option<string>)
    requires dev.Valid() && dev.w.session.offer.Some? && MaySetPhase(dev.cfg, dev.w, p, shown)
    modifies dev
    ensures dev.Valid() && old(dev.trace) <= dev.trace && Flashes(dev.trace) == Flashes(old(dev.trace))
    ensures dev.w == Step(old(dev.w), Tried(a, PhaseWrite(dev.cfg, p, shown)))
    ensures dev.w.state == Try(a, old(dev.w).state, PhaseWrite(dev.cfg, p, shown))
    ensures SameRecord(old(dev.w.state), dev.w.state) && dev.w.files == old(dev.w.files)
    ensures dev.w.mcu == old(dev.w.mcu) && dev.w.host == old(dev.w.host)
    ensures dev.w.session == old(dev.w.session).(phase := Some(p))
  {
    TryStore(dev, a, PhaseWrite(dev.cfg, p, shown));
  }

  method Report(dev: Device, status: Status)
    requires dev.Valid() && MayReport(dev.w, status)
    modifies dev
    ensures dev.Valid() && old(dev.trace) <= dev.trace && Flashes(dev.trace) == Flashes(old(dev.trace))
    ensures dev.w == old(dev.w).(session := old(dev.w).session.(status := Some(status)))
  {
    dev.Emit(Reported(status));
  }

  /** Every deferral and every failure that must not count against the version: report, go idle, retry next cycle. */
  method GiveUp(dev: Device, a: Answers, status: Status) returns (r: Outcome)
    requires dev.Valid() && MayReport(dev.w, status)
    modifies dev
    ensures dev.Valid() && old(dev.trace) <= dev.trace && Flashes(dev.trace) == Flashes(old(dev.trace))
    ensures r == Returned(Idle) && dev.w.state == Closed(dev.cfg, a, old(dev.w).state, Idle)
    ensures SameRecord(old(dev.w.state), dev.w.state) && dev.w.files == old(dev.w.files)
    ensures dev.w.mcu == old(dev.w.mcu) && dev.w.host == old(dev.w.host)
    ensures dev.w.session == old(dev.w.session).(phase := Some(Idle), status := Some(status))
  {
    Report(dev, status);
    Set(dev, a, Idle, None);
    r := Returned(Idle);
  }

  /** `_unlink_staged`: drops leftovers so that they cannot bait the reconciler; false where an unlink raises. */
  method UnlinkStaged(dev: Device, a: Answers) returns (ok: bool)
    requires dev.Valid() && dev.w.session.offer.Some?
    modifies dev
    ensures dev.Valid() && old(dev.trace) <= dev.trace && Flashes(dev.trace) == Flashes(old(dev.trace))
    ensures ok <==> a.unlinks(StagedBin) && a.unlinks(StagedHost)
    ensures ok ==> dev.w.files.staged.None? && dev.w.files.stagedHost.None?
    ensures dev.w == old(dev.w).(files := dev.w.files) && Untouched(old(dev.w), dev.w)
  {
    if !a.unlinks(StagedBin) {
      return false;
    }
    dev.Emit(Unlinked(StagedBin));
    if !a.unlinks(StagedHost) {
      return false;
    }
    dev.Emit(Unlinked(StagedHost));
    ok := true;
  }

  // ---------------------------------------------------------------------------------------------
  // Admission

  /** Refused for good: poisoned, or out of attempts.  The poison list is consulted first. */
  predicate Barred(s: State, v: string) {
    v in s.poisoned || Attempts(s, v) >= MAX_ATTEMPTS
  }

  /** Whether the reads that admission makes before its verdict all succeed. */
  predicate AdmissionReads(a: Answers, s: State, u: Update) {
    && a.loads(AtPoisonCheck)
    && (u.version in s.poisoned || a.loads(AtCapCheck))
    && (Barred(s, u.version) || a.loads(AtWatermark))
  }

  /** A barred version is poisoned, if it was not, and rejected without touching the network. */
  method Refuse(dev: Device, a: Answers, u: Update)
    requires dev.Valid() && dev.w.session == REST.(offer := Some(u)) && Barred(dev.w.state, u.version)
    modifies dev
    ensures dev.Valid() && old(dev.trace) <= dev.trace && Flashes(dev.trace) == Flashes(old(dev.trace))
    ensures dev.w == old(dev.w).(state := dev.w.state, session := dev.w.session)
    ensures dev.w.session == old(dev.w.session).(phase := Some(Rejected), status := Some(REJECTED))
    ensures dev.w.state == Marked(dev.cfg, a, Try(a, old(dev.w).state, Poison(u.version)), Rejected, u.version)
  {
    TryStore(dev, a, Poison(u.version));
    Report(dev, REJECTED);
    Set(dev, a, Rejected, Some(u.version));
  }

  method Admit(dev: Device, a: Answers, u: Update) returns (r: Option<Outcome>)
    requires dev.Valid() && dev.w.session == REST.(offer := Some(u))
    modifies dev
    ensures dev.Valid() && old(dev.trace) <= dev.trace && Flashes(dev.trace) == Flashes(old(dev.trace))
    ensures Untouched(old(dev.w), dev.w)
    ensures r.None? ==> dev.w == old(dev.w) && Admitted(dev.w)
    ensures !AdmissionReads(a, old(dev.w.state), u) ==> r == Some(Raised) && dev.w == old(dev.w)
    ensures AdmissionReads(a, old(dev.w.state), u) && Barred(old(dev.w.state), u.version) ==>
              && r == Some(Returned(Rejected)) && dev.w.files == old(dev.w.files)
              && dev.w.session == old(dev.w.session).(phase := Some(Rejected), status := Some(REJECTED))
              && dev.w.state == Marked(dev.cfg, a, Try(a, old(dev.w).state, Poison(u.version)), Rejected, u.version)
    ensures AdmissionReads(a, old(dev.w.state), u) && !Barred(old(dev.w.state), u.version) ==>
              if u.sequence > Watermark(old(dev.w.state)) then r.None?
              else if a.unlinks(StagedBin) && a.unlinks(StagedHost) then
                && r == Some(Returned(Idle)) && dev.w.files.staged.None? && dev.w.files.stagedHost.None?
                && dev.w.session == old(dev.w.session).(status := Some(VERIFIED)) && dev.w.state == old(dev.w.state)
              else r == Some(Raised) && dev.w.session == old(dev.w.session) && dev.w.state == old(dev.w.state)
  {
    if !a.loads(AtPoisonCheck) {
      return Some(Raised);
    }
    var poisoned := u.version in dev.w.state.poisoned;
    if !poisoned && !a.loads(AtCapCheck) {
      return Some(Raised);
    }
    if poisoned || Attempts(dev.w.state, u.version) >= MAX_ATTEMPTS {
      Refuse(dev, a, u);
      return Some(Returned(Rejected));
    }
    if !a.loads(AtWatermark) {
      return Some(Raised);
    }
    if u.sequence <= Watermark(dev.w.state) {
      var ok := UnlinkStaged(dev, a);
      if !ok {
        return Some(Raised);
      }
      Report(dev, VERIFIED);
      return Some(Returned(Idle));
    }
    r := None;
  }

  /** Clock and disk, then the fetch gate: a refusal defers without counting against the version. */
  method Preflight(dev: Device, a: Answers) returns (r: Option<Outcome>)
    requires dev.Valid() && dev.w.session.offer.Some?
    modifies dev
    ensures dev.Valid() && old(dev.trace) <= dev.trace && Flashes(dev.trace) == Flashes(old(dev.trace))
    ensures r.None? <==> a.preflight.Yes? && a.mayFetch.Yes?
    ensures r == Some(Raised) <==> a.preflight.Raises? || (a.preflight.Yes? && a.mayFetch.Raises?)
    ensures r.None? || r == Some(Raised) ==> dev.w == old(dev.w)
    ensures r.Some? && r != Some(Raised) ==>
              && r == Some(Returned(Idle)) && (a.preflight.No? || (a.preflight.Yes? && a.mayFetch.No?))
              && dev.w.state == Closed(dev.cfg, a, old(dev.w).state, Idle)
              && SameRecord(old(dev.w.state), dev.w.state) && dev.w.files == old(dev.w.files)
              && Untouched(old(dev.w), dev.w)
              && dev.w.session == old(dev.w.session).(phase := Some(Idle), status := Some(WAITING_FOR_GATE))
  {
    if a.preflight.Raises? {
      return Some(Raised);
    }
    if a.preflight.No? || a.mayFetch.No? {
      var idle := GiveUp(dev, a, WAITING_FOR_GATE);
      return Some(idle);
    }
    if a.mayFetch.Raises? {
      return Some(Raised);
    }
    r := None;
  }

  // ---------------------------------------------------------------------------------------------
  // Fetch

  function Left(before: Option<Bytes>, f: Fetch): Option<Bytes> {
    match f
    case Delivers(data) => Some(data)
    case Fails(touched, left) => if touched then left else before
  }

  /** The URL a payload block names, when it is usable. */
  predicate HasUrl(block: Verify.Manifest) {
    "url" in block && block["url"].Str? && block["url"].s != ""
  }

  predicate FetchesAll(a: Answers, u: Update) {
    && a.fetch(StagedBin).Delivers?
    && (HostBlock(u).Some? ==> HasUrl(HostBlock(u).value) && a.fetch(StagedHost).Delivers?)
  }

  /** Downloads the artifact, and the host payload when the manifest carries one, into the staged names. */
  method FetchPayloads(dev: Device, a: Answers, u: Update) returns (ok: bool)
    requires dev.Valid() && Admitted(dev.w) && dev.w.session.offer == Some(u) && dev.w.session.phase == Some(Downloading)
    modifies dev
    ensures dev.Valid() && old(dev.trace) <= dev.trace && Flashes(dev.trace) == Flashes(old(dev.trace))
    ensures ok <==> FetchesAll(a, u)
    ensures ok ==> dev.w.files.staged == Some(a.fetch(StagedBin).data)
    ensures ok && HostBlock(u).Some? ==> dev.w.files.stagedHost == Some(a.fetch(StagedHost).data)
    ensures match a.fetch(StagedBin)
            case Delivers(data) => dev.w.files.staged == Some(data)
            case Fails(touched, left) => dev.w.files.staged == if touched then left else old(dev.w).files.staged
    ensures dev.w == old(dev.w).(files := dev.w.files) && Untouched(old(dev.w), dev.w)
  {
    dev.Emit(Fetched(StagedBin, Left(dev.w.files.staged, a.fetch(StagedBin))));
    if !a.fetch(StagedBin).Delivers? {
      return false;
    }
    if HostBlock(u).Some? {
      if !HasUrl(HostBlock(u).value) {
        return false;
      }
      dev.Emit(Fetched(StagedHost, Left(dev.w.files.stagedHost, a.fetch(StagedHost))));
      if !a.fetch(StagedHost).Delivers? {
        return false;
      }
    }
    ok := true;
  }

  method Download(dev: Device, a: Answers, u: Update) returns (r: Option<Outcome>)
    requires dev.Valid() && Admitted(dev.w) && dev.w.session == REST.(offer := Some(u))
    modifies dev
    ensures dev.Valid() && old(dev.trace) <= dev.trace && Flashes(dev.trace) == Flashes(old(dev.trace))
    ensures Untouched(old(dev.w), dev.w) && SameRecord(old(dev.w.state), dev.w.state)
    ensures SameSession(old(dev.w.session), dev.w.session)
    ensures r == if FetchesAll(a, u) then None else Some(Returned(Idle))
    ensures var marked := Marked(dev.cfg, a, old(dev.w).state, Downloading, u.version);
            dev.w.state == if r.None? then marked else Closed(dev.cfg, a, marked, Idle)
    ensures r.None? ==>
              && dev.w.session.phase == Some(Downloading)
              && dev.w.files.staged == Some(a.fetch(StagedBin).data)
              && (HostBlock(u).Some? ==> dev.w.files.stagedHost == Some(a.fetch(StagedHost).data))
    ensures r.Some? ==> dev.w.session.phase == Some(Idle) && dev.w.session.status == Some(REJECTED)
  {
    Set(dev, a, Downloading, Some(u.version));
    Report(dev, DOWNLOADING);
    var ok := FetchPayloads(dev, a, u);
    if !ok {
      var idle := GiveUp(dev, a, REJECTED);
      return Some(idle);
    }
    r := None;
  }

  // ---------------------------------------------------------------------------------------------
  // Verify

  datatype Check = Passed(image: Bytes) | Transient | Condemned

  function Readable(a: Answers, f: Files, name: Name): Option<Bytes> {
    if a.readable(name) then At(f, name) else None
  }

  function VerdictOf(cfg: Config, a: Answers, last: int, f: Files, u: Update): Verify.Verdict {
    Verify.VerifyManifest(cfg.trust, u.manifest, cfg.target, last, a.now, Readable(a, f, StagedBin), Readable(a, f, StagedHost))
  }

  /**
    What the guarded verify-and-load block concludes.  Refusals of an unsigned or stale manifest, and exceptions
    outside the documented ones, are transient; a poisonable refusal or an ArtifactError - which an unreadable
    staged file also raises - condemns the version.
   */
  function Concludes(cfg: Config, a: Answers, last: int, f: Files, u: Update): Check {
    if !a.loads(AtSequence) || a.verifyRaises then Transient else AfterVerdict(a, f, VerdictOf(cfg, a, last, f, u))
  }

  function AfterVerdict(a: Answers, f: Files, verdict: Verify.Verdict): Check {
    match verdict
    case Refused(poisonable) => if poisonable then Condemned else Transient
    case Accepted =>
      if a.loadRaises then Transient
      else if a.loadReads && f.staged.Some? && Artifact.Loads(f.staged.value) then Passed(f.staged.value)
      else Condemned
  }

  /**
    A staged file that passed its digest check and would load condemns its version all the same exactly if the read
    for the load fails: `load_artifact` turns that read's OSError into the error that condemns.
   */
  lemma CondemnedByFailedRead(cfg: Config, a: Answers, last: int, f: Files, u: Update)
    requires a.loads(AtSequence) && !a.verifyRaises && VerdictOf(cfg, a, last, f, u) == Verify.Accepted
    requires !a.loadRaises && f.staged.Some? && Artifact.Loads(f.staged.value)
    ensures Concludes(cfg, a, last, f, u) == if a.loadReads then Passed(f.staged.value) else Condemned
  {
  }

  lemma PoisonableIsAuthentic(cfg: Config, a: Answers, last: int, f: Files, u: Update)
    requires VerdictOf(cfg, a, last, f, u) != Verify.Refused(false)
    ensures Verify.Authentic(cfg.trust, u.manifest, last, a.now)
  {
  }

  /** The manifest fits the board, and the staged files hash to what it declares. */
  predicate PayloadsMatch(cfg: Config, f: Files, u: Update) {
    && Verify.VerifyTarget(cfg.trust, u.manifest, cfg.target)
    && Verify.VerifyPayload(cfg.trust, u.manifest, "artifact", f.staged) == Verify.Accepted
    && (HostBlock(u).Some? ==> Verify.VerifyPayload(cfg.trust, u.manifest, "host_payload", f.stagedHost) == Verify.Accepted)
  }

  method NoteSigned(dev: Device, a: Answers, u: Update)
    requires dev.Valid() && dev.w.session.offer == Some(u) && dev.w.session.phase == Some(Verifying)
    requires Verify.Authentic(dev.cfg.trust, u.manifest, dev.w.state.sequence, a.now)
    modifies dev
    ensures dev.Valid() && old(dev.trace) <= dev.trace && Flashes(dev.trace) == Flashes(old(dev.trace))
    ensures dev.w == Step(old(dev.w), Signed(u.version, a.now))
  {
    dev.Emit(Signed(u.version, a.now));
  }

  method NoteAccepted(dev: Device, u: Update)
    requires dev.Valid() && dev.w.session.offer == Some(u) && dev.w.session.phase == Some(Verifying)
    requires PayloadsMatch(dev.cfg, dev.w.files, u) && dev.w.session.facts == NOTHING_YET.(signed := true)
    requires dev.w.files.staged.Some? && Artifact.Loads(dev.w.files.staged.value)
    modifies dev
    ensures dev.Valid() && old(dev.trace) <= dev.trace && Flashes(dev.trace) == Flashes(old(dev.trace))
    ensures dev.w == Step(old(dev.w), AcceptedImage(u.version, old(dev.w).files.staged.value))
  {
    dev.Emit(AcceptedImage(u.version, dev.w.files.staged.value));
  }

  /** The `load` that follows an accepted manifest, and what either of them condemns. */
  method LoadAfter(dev: Device, a: Answers, u: Update, verdict: Verify.Verdict) returns (c: Check)
    requires dev.Valid() && dev.w.session.offer == Some(u) && dev.w.session.phase == Some(Verifying)
    requires verdict != Verify.Refused(false) && (verdict == Verify.Accepted ==> PayloadsMatch(dev.cfg, dev.w.files, u))
    requires dev.w.session.facts == NOTHING_YET.(signed := true)
    modifies dev
    ensures dev.Valid() && old(dev.trace) <= dev.trace && Flashes(dev.trace) == Flashes(old(dev.trace))
    ensures c == AfterVerdict(a, old(dev.w).files, verdict)
    ensures dev.w == old(dev.w).(session := old(dev.w).session.(facts := dev.w.session.facts))
    ensures c.Passed? ==> dev.w.session.facts == NOTHING_YET.(signed := true, accepted := Some(c.image))
    ensures !c.Passed? ==> dev.w.session.facts == NOTHING_YET.(signed := true)
  {
    if verdict.Refused? {
      return Condemned;
    }
    if a.loadRaises {
      return Transient;
    }
    if a.loadReads && dev.w.files.staged.Some? && Artifact.Loads(dev.w.files.staged.value) {
      c := Passed(dev.w.files.staged.value);
      NoteAccepted(dev, u);
    } else {
      c := Condemned;
    }
  }

  lemma VerdictEstablishes(cfg: Config, a: Answers, last: int, f: Files, u: Update)
    ensures var verdict := VerdictOf(cfg, a, last, f, u);
            && (verdict != Verify.Refused(false) ==> Verify.Authentic(cfg.trust, u.manifest, last, a.now))
            && (verdict == Verify.Accepted ==> PayloadsMatch(cfg, f, u))
  {
  }

  /** Acts on a verdict, noting in the trace what it established. */
  method FollowVerdict(dev: Device, a: Answers, u: Update, verdict: Verify.Verdict) returns (c: Check)
    requires dev.Valid() && dev.w.session.offer == Some(u) && dev.w.session.phase == Some(Verifying)
    requires dev.w.session.facts == NOTHING_YET
    requires verdict != Verify.Refused(false) ==> Verify.Authentic(dev.cfg.trust, u.manifest, dev.w.state.sequence, a.now)
    requires verdict == Verify.Accepted ==> PayloadsMatch(dev.cfg, dev.w.files, u)
    modifies dev
    ensures dev.Valid() && old(dev.trace) <= dev.trace && Flashes(dev.trace) == Flashes(old(dev.trace))
    ensures c == AfterVerdict(a, old(dev.w).files, verdict)
    ensures dev.w == old(dev.w).(session := old(dev.w).session.(facts := dev.w.session.facts))
    ensures c.Passed? ==> dev.w.session.facts == NOTHING_YET.(signed := true, accepted := Some(c.image))
    ensures c.Condemned? ==> dev.w.session.facts == NOTHING_YET.(signed := true)
  {
    if verdict == Verify.Refused(false) {
      return Transient;
    }
    NoteSigned(dev, a, u);
    c := LoadAfter(dev, a, u, verdict);
  }

  /** Verification and load. */
  method Examine(dev: Device, a: Answers, u: Update) returns (c: Check)
    requires dev.Valid() && dev.w.session.offer == Some(u) && dev.w.session.phase == Some(Verifying)
    requires dev.w.session.facts == NOTHING_YET
    modifies dev
    ensures dev.Valid() && old(dev.trace) <= dev.trace && Flashes(dev.trace) == Flashes(old(dev.trace))
    ensures c == Concludes(dev.cfg, a, old(dev.w).state.sequence, old(dev.w).files, u)
    ensures dev.w == old(dev.w).(session := old(dev.w).session.(facts := dev.w.session.facts))
    ensures c.Passed? ==> dev.w.session.facts == NOTHING_YET.(signed := true, accepted := Some(c.image))
    ensures c.Passed? ==> dev.w.files.staged == Some(c.image)
    ensures c.Condemned? ==> dev.w.session.facts == NOTHING_YET.(signed := true)
  {
    if !a.loads(AtSequence) || a.verifyRaises {
      return Transient;
    }
    VerdictEstablishes(dev.cfg, a, dev.w.state.sequence, dev.w.files, u);
    c := FollowVerdict(dev, a, u, VerdictOf(dev.cfg, a, dev.w.state.sequence, dev.w.files, u));
  }

  /** What the disk is left with once a version is held against it: one more attempt, and the poison. */
  function BlamedState(a: Answers, s: State, v: string): State {
    var charged := if a.persists(RecordAttempt(v)) then WithAttempt(s, v) else s;
    if a.persists(Poison(v)) then WithPoison(charged, v) else charged
  }

  method BlameVersion(dev: Device, a: Answers, u: Update)
    requires dev.Valid() && dev.w.session.offer == Some(u) && dev.w.session.phase == Some(Verifying)
    requires dev.w.session.facts.signed && !dev.w.session.charged && Attempts(dev.w.state, u.version) < MAX_ATTEMPTS
    modifies dev
    ensures dev.Valid() && old(dev.trace) <= dev.trace && Flashes(dev.trace) == Flashes(old(dev.trace))
    ensures dev.w == old(dev.w).(state := BlamedState(a, old(dev.w).state, u.version),
                                 session := old(dev.w).session.(charged := true))
  {
    TryStore(dev, a, RecordAttempt(u.version));
    TryStore(dev, a, Poison(u.version));
  }

  /** A condemned version: an attempt is recorded and the version poisoned, as far as the disk allows. */
  method Condemn(dev: Device, a: Answers, u: Update)
    requires dev.Valid() && dev.w.session.offer == Some(u) && dev.w.session.phase == Some(Verifying)
    requires dev.w.session.facts.signed && !dev.w.session.charged && Attempts(dev.w.state, u.version) < MAX_ATTEMPTS
    modifies dev
    ensures dev.Valid() && old(dev.trace) <= dev.trace && Flashes(dev.trace) == Flashes(old(dev.trace))
    ensures Untouched(old(dev.w), dev.w) && dev.w.files == old(dev.w.files)
    ensures dev.w.session.phase == Some(Rejected) && dev.w.session.status == Some(REJECTED)
    ensures dev.w.state == Marked(dev.cfg, a, BlamedState(a, old(dev.w).state, u.version), Rejected, u.version)
    ensures dev.w.session.offer == Some(u)
  {
    BlameVersion(dev, a, u);
    Report(dev, REJECTED);
    Set(dev, a, Rejected, Some(u.version));
  }

  function Answered(c: Check): Option<Outcome> {
    match c
    case Passed(_) => None
    case Transient => Some(Returned(Idle))
    case Condemned => Some(Returned(Rejected))
  }

  /** The record after the check, from the one it started with. */
  function AnsweredRecord(cfg: Config, a: Answers, s: State, v: string, c: Check): State {
    match c
    case Passed(_) => s
    case Transient => Closed(cfg, a, s, Idle)
    case Condemned => Marked(cfg, a, BlamedState(a, s, v), Rejected, v)
  }

  /** Go on with an accepted image, retry later, or reject for good. */
  method ActOn(dev: Device, a: Answers, u: Update, c: Check) returns (r: Option<Outcome>)
    requires dev.Valid() && dev.w.session.offer == Some(u) && dev.w.session.phase == Some(Verifying)
    requires !dev.w.session.charged && Attempts(dev.w.state, u.version) < MAX_ATTEMPTS
    requires c.Condemned? ==> dev.w.session.facts.signed
    modifies dev
    ensures dev.Valid() && old(dev.trace) <= dev.trace && Flashes(dev.trace) == Flashes(old(dev.trace))
    ensures r == Answered(c) && Untouched(old(dev.w), dev.w) && dev.w.files == old(dev.w).files
    ensures dev.w.session.offer == Some(u) && dev.w.state == AnsweredRecord(dev.cfg, a, old(dev.w).state, u.version, c)
    ensures c.Passed? ==> dev.w == old(dev.w)
    ensures c.Transient? ==> dev.w.session.phase == Some(Idle) && dev.w.session.status == Some(REJECTED)
    ensures c.Condemned? ==> dev.w.session.phase == Some(Rejected) && dev.w.session.status == Some(REJECTED)
  {
    r := Answered(c);
    match c {
      case Passed(_) =>
      case Transient =>
        var idle := GiveUp(dev, a, REJECTED);
      case Condemned =>
        Condemn(dev, a, u);
    }
  }

  /** The whole verify stage. */
  method VerifyStaged(dev: Device, a: Answers, u: Update) returns (c: Check, r: Option<Outcome>)
    requires dev.Valid() && Admitted(dev.w) && dev.w.session.offer == Some(u) && dev.w.session.phase == Some(Downloading)
    requires dev.w.session.facts == NOTHING_YET && !dev.w.session.charged
    modifies dev
    ensures dev.Valid() && old(dev.trace) <= dev.trace && Flashes(dev.trace) == Flashes(old(dev.trace))
    ensures Untouched(old(dev.w), dev.w) && dev.w.files == old(dev.w).files
    ensures c == Concludes(dev.cfg, a, old(dev.w).state.sequence, old(dev.w).files, u) && r == Answered(c)
    ensures SameLabels(old(dev.w).state, dev.w.state)
    ensures dev.w.state ==
              AnsweredRecord(dev.cfg, a, Marked(dev.cfg, a, old(dev.w).state, Verifying, u.version), u.version, c)
    ensures c.Passed? ==>
              && SameRecord(old(dev.w).state, dev.w.state) && dev.w.files.staged == Some(c.image)
              && dev.w.session == old(dev.w).session.(phase := Some(Verifying),
                                                      facts := NOTHING_YET.(signed := true, accepted := Some(c.image)))
    ensures c.Transient? ==> dev.w.session.phase == Some(Idle) && dev.w.session.status == Some(REJECTED)
    ensures c.Condemned? ==> dev.w.session.phase == Some(Rejected) && dev.w.session.status == Some(REJECTED)
    ensures dev.w.session.offer == Some(u)
  {
    Set(dev, a, Verifying, Some(u.version));
    c := Examine(dev, a, u);
    r := ActOn(dev, a, u, c);
  }

  function Stamped(s: State, u: Update): State {
    s.(lastVerifiedSequence := u.sequence, lastVerifiedVersion := Some(u.version))
  }

  /** `--no-flash`: unlink the staged files, stamp the watermark, report, and never touch the board. */
  method VerifyOnly(dev: Device, a: Answers, u: Update) returns (r: Outcome)
    requires dev.Valid() && dev.cfg.noFlash && Admitted(dev.w) && dev.w.session.offer == Some(u)
    requires dev.w.session.facts.accepted.Some? && dev.w.session.phase == Some(Verifying)
    modifies dev
    ensures dev.Valid() && old(dev.trace) <= dev.trace && Flashes(dev.trace) == Flashes(old(dev.trace))
    ensures Untouched(old(dev.w), dev.w) && SameLabels(old(dev.w).state, dev.w.state)
    ensures r == if a.unlinks(StagedBin) && a.unlinks(StagedHost) && a.loads(AtStamp) && a.persists(Stamp(u.version, u.sequence))
                 then Returned(Idle) else Raised
    ensures r == Returned(Idle) ==>
              && dev.w.state == Closed(dev.cfg, a, Stamped(old(dev.w).state, u), Idle)
              && dev.w.files.staged.None? && dev.w.files.stagedHost.None?
              && dev.w.session.phase == Some(Idle) && dev.w.session.status == Some(VERIFIED)
    ensures r == Raised ==> dev.w.state == old(dev.w.state) && dev.w.session == old(dev.w.session)
    ensures dev.w.session.offer == Some(u)
  {
    var ok := UnlinkStaged(dev, a);
    if !ok || !a.loads(AtStamp) || !a.persists(Stamp(u.version, u.sequence)) {
      return Raised;
    }
    TryStore(dev, a, Stamp(u.version, u.sequence));
    r := GiveUp(dev, a, VERIFIED);
  }

  // ---------------------------------------------------------------------------------------------
  // Flash

  datatype Flashed = Done | FlashError | OtherError

  /** `write_sketch` refuses an image larger than the partition before it touches the board. */
  function ResultOf(cfg: Config, answer: FlashAnswer, image: Bytes): Flashed {
    if |image| > cfg.target.maxSize then FlashError
    else match answer case FlashOk => Done case FlashFails(_) => FlashError case FlashRaises(_) => OtherError
  }

  function ReachOf(cfg: Config, answer: FlashAnswer, image: Bytes): Reach {
    if |image| > cfg.target.maxSize then BeforeErase
    else match answer case FlashOk => AfterWrite case FlashFails(reach) => reach case FlashRaises(reach) => reach
  }

  function FlashResult(cfg: Config, a: Answers, image: Bytes, why: Why): Flashed {
    ResultOf(cfg, a.flash(why), image)
  }

  function McuAfterReach(before: Mcu, image: Bytes, reach: Reach): Mcu {
    match reach
    case BeforeErase => before
    case AfterErase => Torn
    case AfterWrite => Running(image)
  }

  function McuAfterFlash(cfg: Config, a: Answers, before: Mcu, image: Bytes, why: Why): Mcu {
    McuAfterReach(before, image, ReachOf(cfg, a.flash(why), image))
  }

  /** The flash tool's own steps: erase, then write. */
  method Program(dev: Device, reach: Reach)
    requires dev.Valid() && dev.w.session.facts.flashing.Some?
    requires !reach.BeforeErase? ==> |dev.w.session.facts.flashing.value.0| <= dev.cfg.target.maxSize
    modifies dev
    ensures dev.Valid() && old(dev.trace) <= dev.trace && Flashes(dev.trace) == Flashes(old(dev.trace))
    ensures var (image, why) := old(dev.w).session.facts.flashing.value;
            && dev.w == old(dev.w).(mcu := McuAfterReach(old(dev.w).mcu, image, reach),
                                    session := old(dev.w).session.(facts := dev.w.session.facts))
            && dev.w.session.facts ==
                 if reach.AfterWrite? then
                   old(dev.w).session.facts.(flashing := None,
                                             flashed := old(dev.w).session.facts.flashed || why.ForUpdate?)
                 else old(dev.w).session.facts
  {
    if !reach.BeforeErase? {
      dev.Emit(Erased);
    }
    if reach.AfterWrite? {
      dev.Emit(Programmed);
    }
  }

  /** One flash, whatever the tool answers. */
  method FlashWith(dev: Device, answer: FlashAnswer, image: Bytes, why: Why) returns (r: Flashed)
    requires dev.Valid() && Legal(dev.cfg, dev.w, FlashStarted(image, why))
    modifies dev
    ensures dev.Valid() && old(dev.trace) <= dev.trace && Flashes(dev.trace) == Flashes(old(dev.trace)) + [why]
    ensures r == ResultOf(dev.cfg, answer, image)
    ensures dev.w == old(dev.w).(mcu := McuAfterReach(old(dev.w).mcu, image, ReachOf(dev.cfg, answer, image)),
                                 session := dev.w.session)
    ensures dev.w.session == old(dev.w).session.(facts := dev.w.session.facts,
                                                 charged := old(dev.w).session.charged && why.Restore?)
    ensures dev.w.session.facts == old(dev.w).session.facts.(flashing := dev.w.session.facts.flashing,
                                                             flashed := dev.w.session.facts.flashed)
    ensures r.Done? ==> dev.w.session.facts.flashing.None?
    ensures r.Done? ==> dev.w.session.facts.flashed == (old(dev.w).session.facts.flashed || why.ForUpdate?)
  {
    dev.Emit(FlashStarted(image, why));
    Program(dev, ReachOf(dev.cfg, answer, image));
    r := ResultOf(dev.cfg, answer, image);
  }

  method Flash(dev: Device, a: Answers, image: Bytes, why: Why) returns (r: Flashed)
    requires dev.Valid() && Legal(dev.cfg, dev.w, FlashStarted(image, why))
    modifies dev
    ensures dev.Valid() && old(dev.trace) <= dev.trace && Flashes(dev.trace) == Flashes(old(dev.trace)) + [why]
    ensures r == FlashResult(dev.cfg, a, image, why)
    ensures dev.w.mcu == McuAfterFlash(dev.cfg, a, old(dev.w).mcu, image, why)
    ensures dev.w.state == old(dev.w).state && dev.w.files == old(dev.w).files && dev.w.host == old(dev.w).host
    ensures dev.w.session == old(dev.w).session.(facts := dev.w.session.facts,
                                                 charged := old(dev.w).session.charged && why.Restore?)
    ensures dev.w.session.facts == old(dev.w).session.facts.(flashing := dev.w.session.facts.flashing,
                                                             flashed := dev.w.session.facts.flashed)
    ensures r.Done? ==> dev.w.session.facts.flashing.None?
    ensures r.Done? ==> dev.w.session.facts.flashed == (old(dev.w).session.facts.flashed || why.ForUpdate?)
  {
    r := FlashWith(dev, a.flash(why), image, why);
  }

  /** What the SWD header read gives: nothing when it raises, else the resident image's header, or noise. */
  function Resident(a: Answers, mcu: Mcu): Option<Artifact.Header> {
    if !a.swdReads then None else match mcu case Running(image) => Artifact.ReadBack(image) case Torn => a.noise
  }

  function DropsCurrent(a: Answers, w: World): bool {
    w.files.current.Some? && a.unlinks(CurrentBin) && Artifact.DetectDrift(w.files.current, Resident(a, w.mcu))
  }

  /** current.bin is a belief; when the resident firmware disagrees with it, or cannot be read, it is discarded. */
  method DropDrifted(dev: Device, a: Answers)
    requires dev.Valid() && dev.w.session.phase == Some(Staged) && dev.w.session.facts.accepted.Some?
    requires !dev.w.session.facts.flashed && !dev.w.session.charged
    modifies dev
    ensures dev.Valid() && old(dev.trace) <= dev.trace && Flashes(dev.trace) == Flashes(old(dev.trace))
    ensures dev.w == old(dev.w).(files := if DropsCurrent(a, old(dev.w)) then old(dev.w).files.(current := None)
                                          else old(dev.w).files)
  {
    var resident := Resident(a, dev.w.mcu);
    if Artifact.DetectDrift(dev.w.files.current, resident) && dev.w.files.current.Some? && a.unlinks(CurrentBin) {
      dev.Emit(Discarded(resident));
    }
  }

  /** The record once the attempt has been charged and the flash announced. */
  function ChargedRecord(cfg: Config, a: Answers, s: State, v: string): State {
    Marked(cfg, a, Try(a, s, RecordAttempt(v)), Flashing, v)
  }

  /** The record after a flash, from the staged one. */
  function FlashedRecord(cfg: Config, a: Answers, s: State, v: string, r: Option<Outcome>): State {
    match r
    case None => Marked(cfg, a, ChargedRecord(cfg, a, s, v), HealthCheck, v)
    case Some(Returned(_)) => Closed(cfg, a, ChargedRecord(cfg, a, s, v), Idle)
    case Some(Raised) => ChargedRecord(cfg, a, s, v)
  }

  /** The record after staging, gate and flash, from the verified one. */
  function StagedRecord(cfg: Config, a: Answers, s: State, v: string, r: Option<Outcome>): State {
    var staged := Marked(cfg, a, s, Staged, v);
    if a.mayFlash.Yes? then FlashedRecord(cfg, a, staged, v, r) else staged
  }

  /** Charges the attempt, names the phase, and starts the flash: the store is written before the board is touched. */
  method ChargeAndFlash(dev: Device, a: Answers, u: Update, image: Bytes) returns (r: Flashed)
    requires dev.Valid() && !dev.cfg.noFlash && dev.w.session.offer == Some(u) && dev.w.session.phase == Some(Staged)
    requires dev.w.session.facts == NOTHING_YET.(signed := true, accepted := Some(image)) && !dev.w.session.charged
    requires u.version !in dev.w.state.poisoned && Attempts(dev.w.state, u.version) < MAX_ATTEMPTS
    modifies dev
    ensures dev.Valid() && old(dev.trace) <= dev.trace
    ensures Flashes(dev.trace) == Flashes(old(dev.trace)) + [ForUpdate(u.version)]
    ensures r == FlashResult(dev.cfg, a, image, ForUpdate(u.version))
    ensures dev.w.mcu == McuAfterFlash(dev.cfg, a, old(dev.w).mcu, image, ForUpdate(u.version))
    ensures dev.w.files == old(dev.w).files && dev.w.host == old(dev.w).host
    ensures dev.w.state == ChargedRecord(dev.cfg, a, old(dev.w).state, u.version)
    ensures dev.w.session == old(dev.w).session.(phase := Some(Flashing), status := Some(FLASHING),
                                                 charged := false, facts := dev.w.session.facts)
    ensures r.Done? ==> dev.w.session.facts == old(dev.w).session.facts.(flashed := true)
  {
    TryStore(dev, a, RecordAttempt(u.version));
    Set(dev, a, Flashing, Some(u.version));
    Report(dev, FLASHING);
    r := Flash(dev, a, image, ForUpdate(u.version));
  }

  /** How the staging, gate and flash steps end; None is a flash that returned. */
  function StageOutcome(cfg: Config, a: Answers, image: Bytes, v: string): Option<Outcome> {
    match a.mayFlash
    case Raises => Some(Raised)
    case No => Some(Returned(Staged))
    case Yes =>
      match FlashResult(cfg, a, image, ForUpdate(v))
      case Done => None
      case FlashError => Some(Returned(Idle))
      case OtherError => Some(Raised)
  }

  /** The image files once the drift check has had its say. */
  function AfterDrift(a: Answers, w: World): Files {
    if a.mayFlash.Yes? && DropsCurrent(a, w) then w.files.(current := None) else w.files
  }

  /** What the gate and the flash leave of the MCU. */
  function McuAfterStage(cfg: Config, a: Answers, w: World, image: Bytes, v: string): Mcu {
    if a.mayFlash.Yes? then McuAfterFlash(cfg, a, w.mcu, image, ForUpdate(v)) else w.mcu
  }

  /** The flash and what follows from its result: a flash that fails is reported and retried, never rolled back. */
  method FlashStage(dev: Device, a: Answers, u: Update, image: Bytes) returns (r: Option<Outcome>)
    requires dev.Valid() && !dev.cfg.noFlash && dev.w.session.offer == Some(u) && dev.w.session.phase == Some(Staged)
    requires dev.w.session.facts == NOTHING_YET.(signed := true, accepted := Some(image)) && !dev.w.session.charged
    requires u.version !in dev.w.state.poisoned && Attempts(dev.w.state, u.version) < MAX_ATTEMPTS
    modifies dev
    ensures dev.Valid() && old(dev.trace) <= dev.trace
    ensures Flashes(dev.trace) == Flashes(old(dev.trace)) + [ForUpdate(u.version)]
    ensures r == match FlashResult(dev.cfg, a, image, ForUpdate(u.version))
                 case Done => None
                 case FlashError => Some(Returned(Idle))
                 case OtherError => Some(Raised)
    ensures dev.w.mcu == McuAfterFlash(dev.cfg, a, old(dev.w).mcu, image, ForUpdate(u.version))
    ensures dev.w.files == old(dev.w).files && dev.w.host == old(dev.w).host
    ensures dev.w.state == FlashedRecord(dev.cfg, a, old(dev.w).state, u.version, r)
    ensures r.None? ==>
              dev.w.session == old(dev.w).session.(phase := Some(HealthCheck), status := Some(FLASHING), charged := false,
                                                   facts := old(dev.w).session.facts.(flashed := true))
    ensures r == Some(Returned(Idle)) ==> dev.w.session.phase == Some(Idle) && dev.w.session.status == Some(REJECTED)
    ensures dev.w.session.offer == Some(u)
  {
    var flashed := ChargeAndFlash(dev, a, u, image);
    match flashed {
      case OtherError =>
        r := Some(Raised);
      case FlashError =>
        var idle := GiveUp(dev, a, REJECTED);
        r := Some(idle);
      case Done =>
        Set(dev, a, HealthCheck, Some(u.version));
        r := None;
    }
  }

  /** The drift check, then the flash. */
  method DriftAndFlash(dev: Device, a: Answers, u: Update, image: Bytes) returns (r: Option<Outcome>)
    requires dev.Valid() && !dev.cfg.noFlash && dev.w.session.offer == Some(u) && dev.w.session.phase == Some(Staged)
    requires dev.w.session.facts == NOTHING_YET.(signed := true, accepted := Some(image)) && !dev.w.session.charged
    requires u.version !in dev.w.state.poisoned && Attempts(dev.w.state, u.version) < MAX_ATTEMPTS
    modifies dev
    ensures dev.Valid() && old(dev.trace) <= dev.trace
    ensures Flashes(dev.trace) == Flashes(old(dev.trace)) + [ForUpdate(u.version)]
    ensures r == match FlashResult(dev.cfg, a, image, ForUpdate(u.version))
                 case Done => None
                 case FlashError => Some(Returned(Idle))
                 case OtherError => Some(Raised)
    ensures dev.w.mcu == McuAfterFlash(dev.cfg, a, old(dev.w).mcu, image, ForUpdate(u.version))
    ensures dev.w.files == (if DropsCurrent(a, old(dev.w)) then old(dev.w).files.(current := None) else old(dev.w).files)
    ensures dev.w.host == old(dev.w).host && dev.w.state == FlashedRecord(dev.cfg, a, old(dev.w).state, u.version, r)
    ensures SameLabels(old(dev.w).state, dev.w.state) && Watermark(dev.w.state) == Watermark(old(dev.w).state)
    ensures r.None? ==>
              dev.w.session == old(dev.w).session.(phase := Some(HealthCheck), status := Some(FLASHING), charged := false,
                                                   facts := old(dev.w).session.facts.(flashed := true))
    ensures r == Some(Returned(Idle)) ==> dev.w.session.phase == Some(Idle) && dev.w.session.status == Some(REJECTED)
    ensures dev.w.session.offer == Some(u)
  {
    DropDrifted(dev, a);
    r := FlashStage(dev, a, u, image);
  }

  /** Stage, ask the gate, check drift, flash. */
  method StageAndFlash(dev: Device, a: Answers, u: Update, image: Bytes) returns (r: Option<Outcome>)
    requires dev.Valid() && !dev.cfg.noFlash && dev.w.session.offer == Some(u) && dev.w.session.phase == Some(Verifying)
    requires dev.w.session.facts == NOTHING_YET.(signed := true, accepted := Some(image)) && !dev.w.session.charged
    requires u.version !in dev.w.state.poisoned && Attempts(dev.w.state, u.version) < MAX_ATTEMPTS
    modifies dev
    ensures dev.Valid() && old(dev.trace) <= dev.trace
    ensures r == StageOutcome(dev.cfg, a, image, u.version)
    ensures Flashes(dev.trace) == Flashes(old(dev.trace)) + if a.mayFlash.Yes? then [ForUpdate(u.version)] else []
    ensures dev.w.mcu == McuAfterStage(dev.cfg, a, old(dev.w), image, u.version)
    ensures dev.w.files == AfterDrift(a, old(dev.w)) && dev.w.host == old(dev.w).host
    ensures dev.w.state == StagedRecord(dev.cfg, a, old(dev.w).state, u.version, r)
    ensures SameLabels(old(dev.w).state, dev.w.state) && Watermark(dev.w.state) == Watermark(old(dev.w).state)
    ensures r.None? ==>
              dev.w.session == old(dev.w).session.(phase := Some(HealthCheck), status := Some(FLASHING), charged := false,
                                                   facts := old(dev.w).session.facts.(flashed := true))
    ensures r == Some(Returned(Idle)) ==> dev.w.session.phase == Some(Idle) && dev.w.session.status == Some(REJECTED)
    ensures r == Some(Returned(Staged)) ==>
              dev.w.session.phase == Some(Staged) && dev.w.session.status == Some(WAITING_FOR_GATE)
    ensures dev.w.session.offer == Some(u)
  {
    Set(dev, a, Staged, Some(u.version));
    match a.mayFlash {
      case Raises =>
        r := Some(Raised);
      case No =>
        Report(dev, WAITING_FOR_GATE);
        r := Some(Returned(Staged));
      case Yes =>
        r := DriftAndFlash(dev, a, u, image);
    }
  }

  // ---------------------------------------------------------------------------------------------
  // Host side

  function ArchiveOf(cfg: Config, f: Files): Host.Archive {
    if f.stagedHost.Some? then Host.Archive(Payload(cfg, f)) else Host.NotAFile
  }

  /** Exactly when the host side of an update goes through: apply, restart and health check all succeed. */
  ghost predicate HostSucceeds(a: Answers, before: Host.Dirs, archive: Host.Archive) {
    Host.ApplySucceeds(before, archive, a.host.apply) && a.host.restart && a.host.health
  }

  /** The host tree after a failed host side: what the apply left, then the rollback attempted from there. */
  ghost predicate HostUndone(a: Answers, before: Host.Dirs, archive: Host.Archive, mid: Host.Dirs, after: Host.Dirs) {
    && Host.ApplyLeaves(before, archive, a.host.apply, mid)
    && (if Host.RollbackSucceeds(mid, a.host.rollback) then after == Host.RolledBack(mid) else Host.RollbackPoint(mid, after))
    && after.live == Host.LiveAfterRollback(mid, a.host.rollback)
  }

  /** When a failed host side leaves the live tree as it was; where the trees are told apart, exactly then. */
  lemma HostRestored(a: Answers, before: Host.Dirs, archive: Host.Archive, mid: Host.Dirs, after: Host.Dirs)
    requires HostUndone(a, before, archive, mid, after)
    ensures Host.Undone(before, archive, a.host.apply, a.host.rollback) ==> after.live == before.live
    ensures Host.ToldApart(before, archive) ==>
              (after.live == before.live <==> Host.Undone(before, archive, a.host.apply, a.host.rollback))
    ensures !Host.Unpacks(before, archive, a.host.apply) ==> after.live == Host.LiveAfterRollback(before, a.host.rollback)
  {
    Host.RestoredExactlyWhen(before, archive, a.host.apply, mid, a.host.rollback);
  }

  /** Apply, restart, health check; and the host rollback when any of them fails. */
  method SwapHost(a: Answers, before: Host.Dirs, archive: Host.Archive)
    returns (site: Host.HostSite, ok: bool, ghost mid: Host.Dirs)
    requires Host.AllSound(before) && Host.SoundArchive(archive)
    requires Host.Sane(a.host.apply) && Host.Sane(a.host.rollback)
    ensures fresh(site) && site.Valid() && site.history[0] == before
    ensures site.payload == if archive.Archive? then archive.payload else None
    ensures ok <==> Host.ApplySucceeds(before, archive, a.host.apply) && a.host.restart && a.host.health
    ensures ok ==> site.dirs == Host.Applied(before, archive.payload.value)
    ensures !ok ==> HostUndone(a, before, archive, mid, site.dirs)
  {
    site := new Host.HostSite(before, if archive.Archive? then archive.payload else None);
    ok := site.Apply(archive, a.host.apply);
    mid := site.dirs;
    ok := ok && a.host.restart && a.host.health;
    if !ok {
      var undone := site.Rollback(a.host.rollback);
    }
  }

  /** Puts every state the host tree went through into the device's trace. */
  method PublishHost(dev: Device, site: Host.HostSite)
    requires dev.Valid() && site.Valid() && site.history[0] == dev.w.host && site.payload == Payload(dev.cfg, dev.w.files)
    requires dev.w.session.facts.healthy && !dev.w.session.hostReady
    requires dev.w.session.offer.Some? && HostBlock(dev.w.session.offer.value).Some?
    modifies dev
    ensures dev.Valid() && old(dev.trace) <= dev.trace && Flashes(dev.trace) == Flashes(old(dev.trace))
    ensures dev.w == old(dev.w).(host := site.dirs)
  {
    for i := 1 to |site.history|
      invariant dev.Valid() && old(dev.trace) <= dev.trace && Flashes(dev.trace) == Flashes(old(dev.trace))
      invariant dev.w == old(dev.w).(host := site.history[i - 1])
    {
      dev.Emit(HostChanged(site.history[i]));
    }
  }

  /** The host side of an update that carries a payload, with every state of the host tree in the trace. */
  method SwapAndPublish(dev: Device, a: Answers) returns (ok: bool, ghost mid: Host.Dirs)
    requires dev.Valid() && Plausible(dev.cfg, a) && Host.AllSound(dev.w.host)
    requires dev.w.session.facts.healthy && !dev.w.session.hostReady
    requires dev.w.session.offer.Some? && HostBlock(dev.w.session.offer.value).Some?
    modifies dev
    ensures dev.Valid() && old(dev.trace) <= dev.trace && Flashes(dev.trace) == Flashes(old(dev.trace))
    ensures dev.w == old(dev.w).(host := dev.w.host) && Host.AllSound(dev.w.host)
    ensures var before, archive := old(dev.w).host, ArchiveOf(dev.cfg, old(dev.w).files);
            && (ok <==> HostSucceeds(a, before, archive))
            && if ok then dev.w.host == Host.Applied(before, archive.payload.value)
               else HostUndone(a, before, archive, mid, dev.w.host)
  {
    var site;
    site, ok, mid := SwapHost(a, dev.w.host, ArchiveOf(dev.cfg, dev.w.files));
    PublishHost(dev, site);
  }

  /** `_apply_host_if_present`: false means the MCU must be rolled back too; the host tree has been, as far as it goes. */
  method HostSide(dev: Device, a: Answers, u: Update) returns (ok: bool, ghost mid: Host.Dirs)
    requires dev.Valid() && Plausible(dev.cfg, a) && Host.AllSound(dev.w.host)
    requires dev.w.session.offer == Some(u) && dev.w.session.facts.healthy && !dev.w.session.hostReady
    modifies dev
    ensures dev.Valid() && old(dev.trace) <= dev.trace && Flashes(dev.trace) == Flashes(old(dev.trace))
    ensures Host.AllSound(dev.w.host)
    ensures dev.w == old(dev.w).(host := dev.w.host, session := old(dev.w).session.(hostReady := ok))
    ensures HostBlock(u).None? ==> ok && dev.w.host == old(dev.w).host
    ensures HostBlock(u).Some? ==>
              var before, archive := old(dev.w).host, ArchiveOf(dev.cfg, old(dev.w).files);
              && (ok <==> HostSucceeds(a, before, archive))
              && if ok then dev.w.host == Host.Applied(before, archive.payload.value)
                 else HostUndone(a, before, archive, mid, dev.w.host)
  {
    mid := dev.w.host;
    ok := true;
    if HostBlock(u).Some? {
      ok, mid := SwapAndPublish(dev, a);
    }
    if ok {
      dev.Emit(HostReady);
    }
  }

  // ---------------------------------------------------------------------------------------------
  // Commit

  predicate Copies(a: Answers, data: Bytes, dst: Name) {
    a.copyFailsAt(dst).None? || a.copyFailsAt(dst).value > |data|
  }

  method SetTemp(dev: Device, data: Option<Bytes>)
    requires dev.Valid() && dev.w.session.facts.healthy && dev.w.session.hostReady
    modifies dev
    ensures dev.Valid() && old(dev.trace) <= dev.trace && Flashes(dev.trace) == Flashes(old(dev.trace))
    ensures dev.w == old(dev.w).(files := old(dev.w).files.(temp := data))
  {
    dev.Emit(TempWritten(data));
  }

  /** Byte after byte into a temporary file, which a failure removes again. */
  method WriteTemp(dev: Device, a: Answers, data: Bytes, dst: Name) returns (ok: bool)
    requires dev.Valid() && dev.w.session.facts.healthy && dev.w.session.hostReady
    modifies dev
    ensures dev.Valid() && old(dev.trace) <= dev.trace && Flashes(dev.trace) == Flashes(old(dev.trace))
    ensures ok <==> Copies(a, data, dst)
    ensures dev.w == old(dev.w).(files := old(dev.w).files.(temp := if ok then Some(data) else None))
  {
    for i := 0 to |data| + 1
      invariant dev.Valid() && old(dev.trace) <= dev.trace && Flashes(dev.trace) == Flashes(old(dev.trace))
      invariant dev.w == old(dev.w).(files := old(dev.w).files.(temp := dev.w.files.temp))
      invariant i > 0 ==> dev.w.files.temp == Some(data[..i - 1])
      invariant a.copyFailsAt(dst).Some? ==> a.copyFailsAt(dst).value >= i
    {
      if a.copyFailsAt(dst) == Some(i) {
        SetTemp(dev, None);
        return false;
      }
      SetTemp(dev, Some(data[..i]));
    }
    assert data[..|data|] == data;
    ok := true;
  }

  /** `_atomic_copy`: a temporary file, then one rename; a failure leaves `dst` as it was. */
  method AtomicCopy(dev: Device, a: Answers, data: Bytes, dst: Name) returns (ok: bool)
    requires dev.Valid() && dev.w.session.facts.healthy && dev.w.session.hostReady
    requires Legal(dev.cfg, dev.w.(files := dev.w.files.(temp := Some(data))), Replaced(dst))
    modifies dev
    ensures dev.Valid() && old(dev.trace) <= dev.trace && Flashes(dev.trace) == Flashes(old(dev.trace))
    ensures ok <==> Copies(a, data, dst)
    ensures dev.w == old(dev.w).(files := dev.w.files, session := dev.w.session)
    ensures dev.w.files == (if ok then With(old(dev.w).files, dst, Some(data)) else old(dev.w).files).(temp := None)
    ensures dev.w.session == if ok then SessionAfter(old(dev.w).session, Replaced(dst)) else old(dev.w).session
  {
    ok := WriteTemp(dev, a, data, dst);
    if ok {
      dev.Emit(Replaced(dst));
    }
  }

  predicate CommitCopies(a: Answers, f: Files, image: Bytes) {
    (f.current.Some? ==> Copies(a, f.current.value, PreviousBin)) && Copies(a, image, CurrentBin)
  }

  /** The image files after both copies: the displaced current image, when there was one, becomes the previous one. */
  predicate Promoted(f: Files, g: Files, image: Bytes) {
    g.(temp := None) == f.(current := Some(image), previous := if f.current.Some? then f.current else f.previous, temp := None)
  }

  predicate SameStaged(f: Files, g: Files) {
    g.staged == f.staged && g.stagedHost == f.stagedHost
  }

  /** Whether the current image, if there is one, is copied to previous.bin; it is the first of the two copies. */
  predicate Displaces(a: Answers, f: Files) {
    f.current.Some? && Copies(a, f.current.value, PreviousBin)
  }

  /** previous.bin after the copies, whether or not the second one works. */
  function PreviousAfter(a: Answers, f: Files): Option<Bytes> {
    if Displaces(a, f) then f.current else f.previous
  }

  method CopyImages(dev: Device, a: Answers, image: Bytes) returns (ok: bool)
    requires dev.Valid() && dev.w.session.facts.healthy && dev.w.session.hostReady
    requires !dev.w.session.kept && !dev.w.session.replaced && dev.w.session.facts.accepted == Some(image)
    modifies dev
    ensures dev.Valid() && old(dev.trace) <= dev.trace && Flashes(dev.trace) == Flashes(old(dev.trace))
    ensures ok <==> CommitCopies(a, old(dev.w).files, image)
    ensures dev.w == old(dev.w).(files := dev.w.files, session := dev.w.session)
    ensures ok ==> Promoted(old(dev.w).files, dev.w.files, image)
    ensures ok ==> dev.w.session == old(dev.w).session.(kept := old(dev.w).files.current.Some?, replaced := true)
    ensures !ok ==> dev.w.files.current == old(dev.w).files.current && dev.w.files.golden == old(dev.w).files.golden
    ensures !ok ==> dev.w.files.previous == PreviousAfter(a, old(dev.w).files)
    ensures !ok ==> dev.w.session == old(dev.w).session.(kept := dev.w.session.kept)
    ensures SameStaged(old(dev.w).files, dev.w.files)
  {
    if dev.w.files.current.Some? {
      ok := AtomicCopy(dev, a, dev.w.files.current.value, PreviousBin);
      if !ok {
        return;
      }
    }
    ok := AtomicCopy(dev, a, image, CurrentBin);
  }

  function CommitWrite(u: Update, hadCurrent: bool): Write {
    Commit(u.version, u.sequence, hadCurrent)
  }

  function CommitOutcome(a: Answers, f: Files, image: Bytes): Outcome {
    if !CommitCopies(a, f, image) then Returned(Idle) else if a.loads(AtCommit) then Returned(Committed) else Raised
  }

  /** The record after the commit of an update that both sides run. */
  function CommittedRecord(cfg: Config, a: Answers, s: State, u: Update, hadCurrent: bool, r: Outcome): State {
    if r == Returned(Committed) then Try(a, s, CommitWrite(u, hadCurrent))
    else if r == Returned(Idle) then Closed(cfg, a, s, Idle)
    else s
  }

  method CommitUpdate(dev: Device, a: Answers, u: Update, image: Bytes) returns (r: Outcome)
    requires dev.Valid() && !dev.cfg.noFlash && dev.w.session.offer == Some(u) && dev.w.session.phase == Some(HealthCheck)
    requires dev.w.session.facts.healthy && dev.w.session.hostReady && dev.w.session.facts.accepted == Some(image)
    requires !dev.w.session.kept && !dev.w.session.replaced && u.sequence > Watermark(dev.w.state)
    modifies dev
    ensures dev.Valid() && old(dev.trace) <= dev.trace && Flashes(dev.trace) == Flashes(old(dev.trace))
    ensures r == CommitOutcome(a, old(dev.w).files, image)
    ensures dev.w.mcu == old(dev.w).mcu && dev.w.host == old(dev.w).host && dev.w.session.offer == Some(u)
    ensures dev.w.files.golden == old(dev.w).files.golden && SameStaged(old(dev.w).files, dev.w.files)
    ensures r == Returned(Committed) ==>
              && Promoted(old(dev.w).files, dev.w.files, image)
              && dev.w.session.phase == Some(Committed) && dev.w.session.status == Some(COMMITTED)
    ensures dev.w.state == CommittedRecord(dev.cfg, a, old(dev.w).state, u, old(dev.w).files.current.Some?, r)
    ensures r == Raised ==> Promoted(old(dev.w).files, dev.w.files, image)
    ensures r == Returned(Idle) ==>
              && dev.w.files.current == old(dev.w).files.current
              && dev.w.files.previous == PreviousAfter(a, old(dev.w).files)
              && dev.w.session.phase == Some(Idle) && dev.w.session.status == Some(REJECTED)
  {
    var hadCurrent := dev.w.files.current.Some?;
    var ok := CopyImages(dev, a, image);
    if !ok {
      r := GiveUp(dev, a, REJECTED);
      return;
    }
    if !a.loads(AtCommit) {
      return Raised;
    }
    TryStore(dev, a, CommitWrite(u, hadCurrent));
    Report(dev, COMMITTED);
    r := Returned(Committed);
  }
}
