/**
  The in-band rollback of a failed update (unoq_ota/agent.py, the last part of run_once): poison the version, then
  reflash the first of current.bin, previous.bin and golden.bin that comes alive as something else.
 */
module Rollback {
  import opened Wrappers
  import opened StateStore
  import opened World
  import opened Agent
  import Artifact
  import Safety

  /** `_wait_alive`: anything but a non-empty string, exceptions included, is not alive. */
  function Normalised(x: Alive): Option<string> {
    match x
    case Says(text) => if text == "" then None else Some(text)
    case _ => None
  }

  /** `_expected_image_version`: the version recorded for an image file; none is recorded for golden.bin. */
  function ExpectedVersion(s: State, name: Name): Option<string> {
    match name
    case CurrentBin => s.committedVersion
    case PreviousBin => s.previousVersion
    case _ => None
  }

  /** The file is there, can be read, and is an artifact the loader accepts. */
  predicate Usable(a: Answers, f: Files, name: Name) {
    At(f, name).Some? && a.readable(name) && Artifact.Loads(At(f, name).value)
  }

  predicate Reflashes(cfg: Config, a: Answers, f: Files, name: Name) {
    Usable(a, f, name) && FlashResult(cfg, a, At(f, name).value, Restore(name)).Done?
  }

  datatype Trial = NextOne | Escaped | Restored

  /** What everything a candidate's turn depends on makes of it. */
  datatype Scene = Scene(cfg: Config, a: Answers, files: Files, state: State, failed: string)

  /** One turn of the loop. */
  function TrialOf(sc: Scene, name: Name): Trial {
    if !Reflashes(sc.cfg, sc.a, sc.files, name) then NextOne
    else
      match Normalised(sc.a.alive(name))
      case None => NextOne
      case Some(reported) =>
        if reported == sc.failed then NextOne
        else if !sc.a.loads(AtExpected(name)) then Escaped
        else if ExpectedVersion(sc.state, name) in {None, Some(reported)} then Restored
        else NextOne
  }

  /** What the loop promises of the candidate it restores, in the terms of the documentation. */
  ghost predicate Qualifies(sc: Scene, name: Name) {
    && At(sc.files, name).Some? && sc.a.readable(name) && Artifact.Loads(At(sc.files, name).value)
    && |At(sc.files, name).value| <= sc.cfg.target.maxSize && sc.a.flash(Restore(name)).FlashOk?
    && exists reported: string ::
         && sc.a.alive(name) == Says(reported) && reported != "" && reported != sc.failed
         && (name == CurrentBin && sc.state.committedVersion.Some? ==> reported == sc.state.committedVersion.value)
         && (name == PreviousBin && sc.state.previousVersion.Some? ==> reported == sc.state.previousVersion.value)
  }

  /** The state file can be read whenever the loop looks up a recorded version. */
  predicate LabelsReadable(a: Answers) {
    a.loads(AtExpected(CurrentBin)) && a.loads(AtExpected(PreviousBin)) && a.loads(AtExpected(GoldenBin))
  }

  /** The loop ends in turn `k`, or runs through all the candidates. */
  ghost predicate EndsAt(sc: Scene, k: nat) {
    && k <= |CANDIDATES|
    && (forall j :: 0 <= j < k ==> TrialOf(sc, CANDIDATES[j]).NextOne?)
    && (k < |CANDIDATES| ==> !TrialOf(sc, CANDIDATES[k]).NextOne?)
  }

  function OutcomeAt(sc: Scene, k: nat): Outcome {
    if k >= |CANDIDATES| then Returned(Rejected)
    else if TrialOf(sc, CANDIDATES[k]).Escaped? then Raised
    else Returned(RolledBack)
  }

  function UsableNames(a: Answers, f: Files): set<Name> {
    set name | name in CANDIDATES && Usable(a, f, name)
  }

  /** The reflashes of a loop that ended at `k`. */
  function Reflashed(sc: Scene, k: nat): seq<Why> {
    RestoresUpTo(UsableNames(sc.a, sc.files), k)
  }

  /**
    The loop meets its specification: with the state file readable, the update is reported rolled back to the first
    candidate that qualifies, and rejected if and only if none does; no failure of an earlier candidate matters.
   */
  lemma MeetsSpecification(sc: Scene, k: nat)
    requires EndsAt(sc, k) && LabelsReadable(sc.a)
    ensures OutcomeAt(sc, k) == Returned(RolledBack) <==>
              exists name :: name in CANDIDATES && Qualifies(sc, name)
    ensures OutcomeAt(sc, k) == Returned(Rejected) <==>
              forall name :: name in CANDIDATES ==> !Qualifies(sc, name)
    ensures OutcomeAt(sc, k) == Returned(RolledBack) ==>
              Qualifies(sc, CANDIDATES[k]) && forall j :: 0 <= j < k ==> !Qualifies(sc, CANDIDATES[j])
  {
    forall name | name in CANDIDATES
      ensures Qualifies(sc, name) <==> TrialOf(sc, name) == Restored
      ensures Qualifies(sc, name) <==> !TrialOf(sc, name).NextOne?
    {
      RestoredMeansQualifies(sc, name);
    }
    assert k < |CANDIDATES| ==> CANDIDATES[k] in CANDIDATES;
  }

  lemma RestoredMeansQualifies(sc: Scene, name: Name)
    requires name in CANDIDATES && LabelsReadable(sc.a)
    ensures Qualifies(sc, name) <==> TrialOf(sc, name) == Restored
    ensures !TrialOf(sc, name).Escaped?
  {
    if sc.a.alive(name).Says? {
      var reported := sc.a.alive(name).text;
      assert sc.a.alive(name) == Says(reported);
      assert ExpectedVersion(sc.state, name) in {None, Some(reported)} <==>
             && (name == CurrentBin && sc.state.committedVersion.Some? ==> reported == sc.state.committedVersion.value)
             && (name == PreviousBin && sc.state.previousVersion.Some? ==> reported == sc.state.previousVersion.value);
      assert Normalised(sc.a.alive(name)) == if reported == "" then None else Some(reported);
    }
  }

  /** A candidate that reflashes and comes alive reporting the version its image really is, other than the failed one. */
  ghost predicate HonestCandidate(sc: Scene, fw: Bytes -> string, name: Name) {
    && Reflashes(sc.cfg, sc.a, sc.files, name)
    && sc.a.alive(name) == Says(fw(At(sc.files, name).value)) && fw(At(sc.files, name).value) !in {"", sc.failed}
  }

  /** The version recorded for this candidate, if one is, is what its image reports. */
  ghost predicate RightlyLabelled(sc: Scene, fw: Bytes -> string, name: Name) {
    Safety.Labelled(fw, At(sc.files, name), ExpectedVersion(sc.state, name))
  }

  /** An honest candidate qualifies exactly if it is rightly labelled: a wrong label passes over good firmware. */
  lemma HonestQualifiesIfRightlyLabelled(sc: Scene, fw: Bytes -> string, name: Name)
    requires name in CANDIDATES && HonestCandidate(sc, fw, name)
    ensures Qualifies(sc, name) <==> RightlyLabelled(sc, fw, name)
  {
    var reported := fw(At(sc.files, name).value);
    assert sc.a.alive(name) == Says(reported);
  }

  /**
    Honest firmware is never passed over for a label: at any point of a run with clean commits, a candidate that
    loads, flashes and reports the version its image really is qualifies, unless that is the very version that failed.
   */
  lemma HonestCandidateQualifies(sc: Scene, fw: Bytes -> string, w0: World, trace: seq<Event>, name: Name)
    requires Life(sc.cfg, w0, trace) && Safety.Honest(fw, trace) && Safety.CleanCommits(trace)
    requires Safety.LabelsTrackFiles(fw, w0) && !Safety.InWindow(trace)
    requires sc.files == Run(w0, trace).files && sc.state == Run(w0, trace).state
    requires name in CANDIDATES && HonestCandidate(sc, fw, name)
    ensures Qualifies(sc, name)
  {
    Safety.LabelsTrack(sc.cfg, fw, w0, trace);
    HonestQualifiesIfRightlyLabelled(sc, fw, name);
  }

  // ---------------------------------------------------------------------------------------------
  // The method

  method TryCandidate(dev: Device, a: Answers, u: Update, name: Name) returns (t: Trial)
    requires dev.Valid() && IsCandidate(name) && dev.w.session.offer == Some(u)
    requires dev.w.session.phase == Some(RollingBack)
    modifies dev
    ensures dev.Valid() && old(dev.trace) <= dev.trace
    ensures Flashes(dev.trace) == Flashes(old(dev.trace)) + if Usable(a, dev.w.files, name) then [Restore(name)] else []
    ensures dev.w.state == old(dev.w).state && dev.w.files == old(dev.w).files && dev.w.host == old(dev.w).host
    ensures dev.w.session.offer == Some(u) && dev.w.session.phase == Some(RollingBack)
    ensures t == TrialOf(Scene(dev.cfg, a, dev.w.files, dev.w.state, u.version), name)
    ensures t == Restored ==> At(dev.w.files, name).Some? && dev.w.mcu == Running(At(dev.w.files, name).value)
  {
    if !Usable(a, dev.w.files, name) {
      return NextOne;
    }
    var flashed := Flash(dev, a, At(dev.w.files, name).value, Restore(name));
    if !flashed.Done? {
      return NextOne;
    }
    var reported := Normalised(a.alive(name));
    if reported.None? || reported.value == u.version {
      return NextOne;
    }
    if !a.loads(AtExpected(name)) {
      return Escaped;
    }
    var expected := ExpectedVersion(dev.w.state, name);
    if expected.Some? && reported.value != expected.value {
      return NextOne;
    }
    t := Restored;
  }

  /** The loop has passed over its first `k` candidates, reflashing the usable ones. */
  ghost predicate PassedOver(sc: Scene, before: seq<Event>, trace: seq<Event>, k: nat)
    requires k <= |CANDIDATES|
  {
    && before <= trace
    && (forall j :: 0 <= j < k ==> TrialOf(sc, CANDIDATES[j]).NextOne?)
    && Flashes(trace) == Flashes(before) + Restores(UsableNames(sc.a, sc.files), CANDIDATES[..k])
  }

  lemma PassesOver(sc: Scene, before: seq<Event>, trace: seq<Event>, k: nat, now: seq<Event>)
    requires k < |CANDIDATES| && PassedOver(sc, before, trace, k) && trace <= now
    requires Flashes(now) == Flashes(trace) + if Usable(sc.a, sc.files, CANDIDATES[k]) then [Restore(CANDIDATES[k])] else []
    ensures Flashes(now) == Flashes(before) + Restores(UsableNames(sc.a, sc.files), CANDIDATES[..k + 1])
    ensures TrialOf(sc, CANDIDATES[k]).NextOne? ==> PassedOver(sc, before, now, k + 1)
    ensures !TrialOf(sc, CANDIDATES[k]).NextOne? ==> EndsAt(sc, k) && Flashes(now) == Flashes(before) + Reflashed(sc, k)
  {
    assert CANDIDATES[k] in UsableNames(sc.a, sc.files) <==> Usable(sc.a, sc.files, CANDIDATES[k]);
    RestoresGoOn(UsableNames(sc.a, sc.files), Flashes(before), Flashes(trace), k);
  }

  /** The candidates, in order, until one settles the matter. */
  method TryCandidates(dev: Device, a: Answers, u: Update) returns (t: Trial, k: nat)
    requires dev.Valid() && dev.w.session.offer == Some(u) && dev.w.session.phase == Some(RollingBack)
    modifies dev
    ensures dev.Valid() && old(dev.trace) <= dev.trace
    ensures var sc := Scene(dev.cfg, a, old(dev.w).files, old(dev.w).state, u.version);
            && EndsAt(sc, k) && t == (if k < |CANDIDATES| then TrialOf(sc, CANDIDATES[k]) else NextOne)
            && Flashes(dev.trace) == Flashes(old(dev.trace)) + Reflashed(sc, k)
    ensures dev.w.state == old(dev.w).state && dev.w.files == old(dev.w).files && dev.w.host == old(dev.w).host
    ensures dev.w.session.offer == Some(u) && dev.w.session.phase == Some(RollingBack)
    ensures t == Restored ==> At(dev.w.files, CANDIDATES[k]).Some? && dev.w.mcu == Running(At(dev.w.files, CANDIDATES[k]).value)
  {
    ghost var sc := Scene(dev.cfg, a, dev.w.files, dev.w.state, u.version);
    k := 0;
    assert Restores(UsableNames(a, dev.w.files), CANDIDATES[..0]) == [];
    while k < |CANDIDATES|
      invariant dev.Valid() && k <= |CANDIDATES| && PassedOver(sc, old(dev.trace), dev.trace, k)
      invariant dev.w.state == sc.state && dev.w.files == sc.files && dev.w.host == old(dev.w).host
      invariant dev.w.session.offer == Some(u) && dev.w.session.phase == Some(RollingBack)
    {
      ghost var soFar := dev.trace;
      t := TryCandidate(dev, a, u, CANDIDATES[k]);
      PassesOver(sc, old(dev.trace), soFar, k, dev.trace);
      if !t.NextOne? {
        return;
      }
      k := k + 1;
    }
    assert CANDIDATES[..k] == CANDIDATES;
    t := NextOne;
  }

  /** The record once the rollback has been announced and the failed version poisoned, as far as the disk allows. */
  function RollingRecord(cfg: Config, a: Answers, s: State, v: string): State {
    Try(a, Marked(cfg, a, s, RollingBack, v), Poison(v))
  }

  /** The record after the whole rollback. */
  function RolledRecord(cfg: Config, a: Answers, s: State, v: string, r: Outcome): State {
    match r
    case Returned(p) => Closed(cfg, a, RollingRecord(cfg, a, s, v), p)
    case Raised => RollingRecord(cfg, a, s, v)
  }

  /** The phase, then the poison; neither a failed write nor a read-only disk stops what follows. */
  method Begin(dev: Device, a: Answers, u: Update)
    requires dev.Valid() && dev.w.session.offer == Some(u) && dev.w.session.phase == Some(HealthCheck)
    requires dev.w.session.facts.signed && !(dev.w.session.facts.healthy && dev.w.session.hostReady)
    modifies dev
    ensures dev.Valid() && old(dev.trace) <= dev.trace && Flashes(dev.trace) == Flashes(old(dev.trace))
    ensures dev.w.files == old(dev.w).files && dev.w.host == old(dev.w).host
    ensures dev.w.session.offer == Some(u) && dev.w.session.phase == Some(RollingBack)
    ensures dev.w.state == RollingRecord(dev.cfg, a, old(dev.w).state, u.version)
  {
    Set(dev, a, RollingBack, Some(u.version));
    TryStore(dev, a, Poison(u.version));
  }

  /** The report and the phase that the loop's result calls for. */
  method Conclude(dev: Device, a: Answers, t: Trial) returns (r: Outcome)
    requires dev.Valid() && dev.w.session.offer.Some? && dev.w.session.phase == Some(RollingBack)
    requires t == Restored ==> dev.w.mcu.Running?
    modifies dev
    ensures dev.Valid() && old(dev.trace) <= dev.trace && Flashes(dev.trace) == Flashes(old(dev.trace))
    ensures r == match t case Escaped => Raised case Restored => Returned(RolledBack) case NextOne => Returned(Rejected)
    ensures dev.w == old(dev.w).(state := dev.w.state, session := dev.w.session)
    ensures dev.w.session.offer == old(dev.w).session.offer
    ensures dev.w.state == match r case Returned(p) => Closed(dev.cfg, a, old(dev.w).state, p) case Raised => old(dev.w).state
    ensures t == Restored ==> dev.w.session.phase == Some(RolledBack) && dev.w.session.status == Some(ROLLED_BACK)
    ensures t == NextOne ==> dev.w.session.phase == Some(Rejected) && dev.w.session.status == Some(REJECTED)
  {
    match t {
      case Escaped =>
        r := Raised;
      case Restored =>
        Report(dev, ROLLED_BACK);
        Set(dev, a, RolledBack, None);
        r := Returned(RolledBack);
      case NextOne =>
        Report(dev, REJECTED);
        Set(dev, a, Rejected, None);
        r := Returned(Rejected);
    }
  }

  method RollBack(dev: Device, a: Answers, u: Update) returns (r: Outcome, ghost k: nat)
    requires dev.Valid() && dev.w.session.offer == Some(u) && dev.w.session.phase == Some(HealthCheck)
    requires dev.w.session.facts.signed && !(dev.w.session.facts.healthy && dev.w.session.hostReady)
    modifies dev
    ensures dev.Valid() && old(dev.trace) <= dev.trace
    ensures var sc := Scene(dev.cfg, a, old(dev.w).files, old(dev.w).state, u.version);
            && EndsAt(sc, k) && r == OutcomeAt(sc, k)
            && Flashes(dev.trace) == Flashes(old(dev.trace)) + Reflashed(sc, k)
    ensures dev.w.files == old(dev.w).files && dev.w.host == old(dev.w).host && dev.w.session.offer == Some(u)
    ensures dev.w.state == RolledRecord(dev.cfg, a, old(dev.w).state, u.version, r)
    ensures r == Returned(RolledBack) ==>
              && dev.w.session.phase == Some(RolledBack) && dev.w.session.status == Some(ROLLED_BACK)
              && At(dev.w.files, CANDIDATES[k]).Some? && dev.w.mcu == Running(At(dev.w.files, CANDIDATES[k]).value)
    ensures r == Returned(Rejected) ==>
              dev.w.session.phase == Some(Rejected) && dev.w.session.status == Some(REJECTED)
  {
    ghost var before := dev.w.state;
    Begin(dev, a, u);
    ghost var after := dev.w.state;
    var t, i := TryCandidates(dev, a, u);
    k := i;
    LabelsSuffice(Scene(dev.cfg, a, dev.w.files, after, u.version), Scene(dev.cfg, a, dev.w.files, before, u.version), k);
    r := Conclude(dev, a, t);
  }

  /** Of the state, the loop looks at the two recorded versions only; the phase and the poison do not matter to it. */
  lemma LabelsSuffice(x: Scene, y: Scene, k: nat)
    requires x == y.(state := x.state)
    requires x.state.committedVersion == y.state.committedVersion && x.state.previousVersion == y.state.previousVersion
    ensures EndsAt(x, k) <==> EndsAt(y, k)
    ensures OutcomeAt(x, k) == OutcomeAt(y, k) && Reflashed(x, k) == Reflashed(y, k)
  {
    assert forall name :: TrialOf(x, name) == TrialOf(y, name);
  }
}
