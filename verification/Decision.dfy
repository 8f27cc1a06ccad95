/**
  What a cycle is to do with an offer, told from the manifest, the record, the files and the answers alone - and that
  it does just that.

  Nothing here calls the functions that the cycle is written with: every condition is spelled out again from the fields
  of the manifest, the bytes of the files and the answers of the collaborators, so each of them is stated twice, and a
  cycle that looks at the wrong answer, or at none, contradicts this file.
 */
module Decision {
  import opened Wrappers
  import opened StateStore
  import opened World
  import opened Agent
  import Artifact
  import Cycle
  import Host
  import Json
  import Rollback
  import Verify

  // ---------------------------------------------------------------------------------------------
  // Admission and download

  /** Poisoned, or started twice. */
  ghost predicate Turned(s: State, v: string) {
    v in s.poisoned || (v in s.attempts && s.attempts[v] >= 2)
  }

  /** Every read of the state file that admission gets to works. */
  ghost predicate Legible(a: Answers, s: State, u: Update) {
    && a.loads(AtPoisonCheck) && (u.version in s.poisoned || a.loads(AtCapCheck))
    && (Turned(s, u.version) || a.loads(AtWatermark))
  }

  /** Committed or verified before, or older than what was. */
  ghost predicate OldNews(s: State, u: Update) {
    u.sequence <= s.sequence || u.sequence <= s.lastVerifiedSequence
  }

  /** The manifest carries a host payload. */
  ghost predicate HasHost(u: Update) {
    "host_payload" in u.manifest && u.manifest["host_payload"].Obj?
  }

  ghost predicate NamesUrl(u: Update) {
    exists block: Verify.Manifest, url: string ::
      && "host_payload" in u.manifest && u.manifest["host_payload"] == Json.Obj(block)
      && "url" in block && block["url"] == Json.Str(url) && url != ""
  }

  ghost predicate Arrives(a: Answers, u: Update) {
    && a.fetch(StagedBin).Delivers?
    && (HasHost(u) ==> NamesUrl(u) && a.fetch(StagedHost).Delivers?)
  }

  /** The offer is downloaded whole. */
  ghost predicate Downloaded(a: Answers, s: State, u: Update) {
    && Legible(a, s, u) && !Turned(s, u.version) && !OldNews(s, u)
    && a.preflight == Yes && a.mayFetch == Yes && Arrives(a, u)
  }

  // ---------------------------------------------------------------------------------------------
  // The check

  /** The bytes of a payload as the check sees them. */
  ghost function Seen(a: Answers, name: Name): Option<Bytes> {
    if a.readable(name) && a.fetch(name).Delivers? then Some(a.fetch(name).data) else None
  }

  /** The manifest and both payloads are in order. */
  ghost predicate InOrder(cfg: Config, a: Answers, last: int, u: Update) {
    && Verify.Genuine(cfg.trust, u.manifest, last, a.now) && Verify.NamesBoard(cfg.trust, u.manifest, cfg.target)
    && Verify.Matches(cfg.trust, u.manifest, "artifact", Seen(a, StagedBin))
    && (HasHost(u) ==> Verify.Matches(cfg.trust, u.manifest, "host_payload", Seen(a, StagedHost)))
  }

  /** The check runs to its end. */
  ghost predicate Checks(a: Answers) {
    a.loads(AtSequence) && !a.verifyRaises
  }

  /** The update may be installed. */
  ghost predicate Passes(cfg: Config, a: Answers, last: int, u: Update)
    requires a.fetch(StagedBin).Delivers?
  {
    && Checks(a) && InOrder(cfg, a, last, u)
    && !a.loadRaises && a.loadReads && Artifact.IsArtifact(a.fetch(StagedBin).data)
  }

  /**
    The update is held against its version: the manifest is genuine, and is for another board, or declares a digest
    that its payload does not have; or all is in order, and the artifact cannot be read again or is none.
   */
  ghost predicate Condemns(cfg: Config, a: Answers, last: int, u: Update)
    requires a.fetch(StagedBin).Delivers?
  {
    && Checks(a) && Verify.Genuine(cfg.trust, u.manifest, last, a.now)
    && (|| !Verify.NamesBoard(cfg.trust, u.manifest, cfg.target)
        || Verify.Mismatches(cfg.trust, u.manifest, "artifact", Seen(a, StagedBin))
        || (&& Verify.Matches(cfg.trust, u.manifest, "artifact", Seen(a, StagedBin))
            && Verify.Mismatches(cfg.trust, u.manifest, "host_payload", Seen(a, StagedHost)))
        || (&& InOrder(cfg, a, last, u) && !a.loadRaises
            && (!a.loadReads || !Artifact.IsArtifact(a.fetch(StagedBin).data))))
  }

  // ---------------------------------------------------------------------------------------------
  // The board and the host

  /** Nothing in the tree, if there is one, resists removal. */
  ghost predicate Removes(t: Option<Host.Tree>, slot: Host.Slot, io: Host.Io) {
    forall p: Host.Path :: t.Some? && p in t.value ==> !io.stuck(slot, p)
  }

  /** The payload unpacks, both renames work, and the host side restarts and is found healthy. */
  ghost predicate HostWorks(cfg: Config, a: Answers, d: Host.Dirs)
    requires a.fetch(StagedHost).Delivers?
  {
    var io := a.host.apply;
    && cfg.unpack(a.fetch(StagedHost).data).Some? && io.extraction == Host.Completes && !io.mkdirFails
    && Removes(d.next, Host.Next, io) && Removes(d.previous, Host.Previous, io)
    && (d.live.Some? ==> !io.renameFails(Host.Live)) && !io.renameFails(Host.Next)
    && a.host.restart && a.host.health
  }

  /** Both sides run the update and are healthy. */
  ghost predicate BothWork(cfg: Config, a: Answers, u: Update, d: Host.Dirs)
    requires Arrives(a, u)
  {
    a.healthy && (HasHost(u) ==> HostWorks(cfg, a, d))
  }

  /** The resident firmware, as read over SWD, has the length and the magic of the image. */
  ghost predicate LooksLike(a: Answers, mcu: Mcu, image: Bytes) {
    && a.swdReads && |image| >= 15
    && match mcu
       case Running(resident) => |resident| >= 16 && resident[8..14] == image[8..14]
       case Torn =>
         && a.noise.Some? && a.noise.value.length == Artifact.Number(image[8..12])
         && a.noise.value.magic == Artifact.Number(image[12..14])
  }

  /** current.bin as the rest of the cycle finds it: dropped if the resident firmware does not look like it. */
  ghost function Believed(a: Answers, w: World): Option<Bytes> {
    if w.files.current.Some? && a.unlinks(CurrentBin) && !LooksLike(a, w.mcu, w.files.current.value) then None
    else w.files.current
  }

  /** The copy of so many bytes does not fail on the way. */
  ghost predicate Copied(a: Answers, name: Name, data: Bytes) {
    forall i: nat :: a.copyFailsAt(name) == Some(i) ==> i > |data|
  }

  ghost predicate BothCopied(a: Answers, current: Option<Bytes>, image: Bytes) {
    (current.Some? ==> Copied(a, PreviousBin, current.value)) && Copied(a, CurrentBin, image)
  }

  // ---------------------------------------------------------------------------------------------
  // The rollback

  /** The image is good, fits, and the board takes it and comes alive as something other than what failed. */
  ghost predicate ComesAlive(cfg: Config, a: Answers, failed: string, name: Name, file: Option<Bytes>, reported: string) {
    && file.Some? && a.readable(name) && Artifact.IsArtifact(file.value) && |file.value| <= cfg.target.maxSize
    && a.flash(Restore(name)) == FlashOk && a.alive(name) == Says(reported) && reported != "" && reported != failed
  }

  /** What one candidate makes of the rollback, if it settles it; `recorded` is the version recorded for it. */
  ghost function Turn(cfg: Config, a: Answers, failed: string, name: Name, file: Option<Bytes>, recorded: Option<string>)
    : Option<Outcome>
  {
    if !exists reported :: ComesAlive(cfg, a, failed, name, file, reported) then None
    else if !a.loads(AtExpected(name)) then Some(Raised)
    else if recorded.None? || ComesAlive(cfg, a, failed, name, file, recorded.value) then Some(Returned(RolledBack))
    else None
  }

  /** The first candidate to settle it does, in the order current, previous, golden. */
  ghost function AfterRollback(cfg: Config, a: Answers, u: Update, s: State, current: Option<Bytes>, f: Files): Outcome {
    var first := Turn(cfg, a, u.version, CurrentBin, current, s.committedVersion);
    var second := Turn(cfg, a, u.version, PreviousBin, f.previous, s.previousVersion);
    var third := Turn(cfg, a, u.version, GoldenBin, f.golden, None);
    if first.Some? then first.value
    else if second.Some? then second.value
    else if third.Some? then third.value
    else Returned(Rejected)
  }

  // ---------------------------------------------------------------------------------------------
  // The outcome

  /** Of an offer that is not downloaded whole. */
  ghost function Undownloaded(a: Answers, s: State, u: Update): Outcome {
    if !Legible(a, s, u) then Raised
    else if Turned(s, u.version) then Returned(Rejected)
    else if OldNews(s, u) then if a.unlinks(StagedBin) && a.unlinks(StagedHost) then Returned(Idle) else Raised
    else if a.preflight == Raises || (a.preflight == Yes && a.mayFetch == Raises) then Raised
    else Returned(Idle)
  }

  /** Of an update that passed, in verify-only mode. */
  ghost function Noted(a: Answers, u: Update): Outcome {
    if a.unlinks(StagedBin) && a.unlinks(StagedHost) && a.loads(AtStamp) && a.persists(Stamp(u.version, u.sequence))
    then Returned(Idle) else Raised
  }

  /** Of an update that runs on both sides. */
  ghost function Kept(a: Answers, current: Option<Bytes>, image: Bytes): Outcome {
    if !BothCopied(a, current, image) then Returned(Idle) else if a.loads(AtCommit) then Returned(Committed) else Raised
  }

  /** Of an update that may be installed. */
  ghost function Installed(cfg: Config, a: Answers, u: Update, w: World): Outcome
    requires Arrives(a, u)
  {
    var image := a.fetch(StagedBin).data;
    if a.mayFlash == No then Returned(Staged)
    else if a.mayFlash == Raises then Raised
    else if |image| > cfg.target.maxSize || a.flash(ForUpdate(u.version)).FlashFails? then Returned(Idle)
    else if a.flash(ForUpdate(u.version)).FlashRaises? then Raised
    else if BothWork(cfg, a, u, w.host) then Kept(a, Believed(a, w), image)
    else AfterRollback(cfg, a, u, w.state, Believed(a, w), w.files)
  }

  /** What the cycle is to return. */
  ghost function Ought(cfg: Config, a: Answers, u: Update, w: World): Outcome {
    if !Downloaded(a, w.state, u) then Undownloaded(a, w.state, u)
    else if Condemns(cfg, a, w.state.sequence, u) then Returned(Rejected)
    else if !Passes(cfg, a, w.state.sequence, u) then Returned(Idle)
    else if cfg.noFlash then Noted(a, u)
    else Installed(cfg, a, u, w)
  }

  // ---------------------------------------------------------------------------------------------
  // Condition by condition

  lemma AdmissionAgrees(a: Answers, s: State, u: Update)
    ensures Barred(s, u.version) <==> Turned(s, u.version)
    ensures AdmissionReads(a, s, u) <==> Legible(a, s, u)
    ensures u.sequence <= Watermark(s) <==> OldNews(s, u)
  {
  }

  lemma HostBlockAgrees(u: Update)
    ensures HostBlock(u).Some? <==> HasHost(u)
    ensures HasHost(u) ==> HostBlock(u) == Some(u.manifest["host_payload"].fields)
  {
  }

  lemma FetchAgrees(a: Answers, u: Update)
    ensures FetchesAll(a, u) <==> Arrives(a, u)
  {
    HostBlockAgrees(u);
    if HasHost(u) {
      var block := HostBlock(u).value;
      assert u.manifest["host_payload"] == Json.Obj(block);
      assert HasUrl(block) ==> block["url"] == Json.Str(block["url"].s);
    }
  }

  lemma DownloadAgrees(a: Answers, s: State, u: Update)
    ensures Cycle.Delivered(a, s, u) <==> Downloaded(a, s, u)
  {
    AdmissionAgrees(a, s, u);
    FetchAgrees(a, u);
  }

  lemma CheckAgrees(cfg: Config, a: Answers, last: int, u: Update)
    requires Arrives(a, u) && FetchesAll(a, u)
    ensures Cycle.Conclusion(cfg, a, last, u) == Passed(a.fetch(StagedBin).data) <==> Passes(cfg, a, last, u)
    ensures Cycle.Conclusion(cfg, a, last, u).Passed? <==> Passes(cfg, a, last, u)
    ensures Cycle.Conclusion(cfg, a, last, u) == Condemned <==> Condemns(cfg, a, last, u)
  {
    var f := Cycle.DeliveredFiles(a, u);
    HostBlockAgrees(u);
    Verify.VerdictMeaning(cfg.trust, u.manifest, cfg.target, last, a.now, Readable(a, f, StagedBin), Readable(a, f, StagedHost));
    Artifact.LoadsIffArtifact(a.fetch(StagedBin).data);
    assert Readable(a, f, StagedBin) == Seen(a, StagedBin);
    assert HasHost(u) ==> Readable(a, f, StagedHost) == Seen(a, StagedHost);
    Verify.NeverBoth(cfg.trust, u.manifest, "artifact", Seen(a, StagedBin));
    Verify.NeverBoth(cfg.trust, u.manifest, "host_payload", Seen(a, StagedHost));
  }

  lemma HostAgrees(cfg: Config, a: Answers, u: Update, w: World, f: Files)
    requires Cycle.StagedAsFetched(a, u, f) && Arrives(a, u)
    ensures Cycle.GoesThrough(cfg, a, w, f, u) <==> BothWork(cfg, a, u, w.host)
  {
    HostBlockAgrees(u);
    ApplyAgrees(w.host, ArchiveOf(cfg, f), a.host.apply);
  }

  lemma ApplyAgrees(d: Host.Dirs, archive: Host.Archive, io: Host.Io)
    ensures Host.ApplySucceeds(d, archive, io) <==>
              && archive.Archive? && archive.payload.Some? && io.extraction == Host.Completes && !io.mkdirFails
              && Removes(d.next, Host.Next, io) && Removes(d.previous, Host.Previous, io)
              && (d.live.Some? ==> !io.renameFails(Host.Live)) && !io.renameFails(Host.Next)
  {
  }

  lemma DriftAgrees(a: Answers, w: World)
    ensures AfterDrift(a, w).current == if a.mayFlash == Yes then Believed(a, w) else w.files.current
  {
    if w.files.current.Some? {
      var image := w.files.current.value;
      HeaderAgrees(image, a.noise);
      if w.mcu.Running? && |image| >= 15 && |w.mcu.image| >= 16 {
        Artifact.DriftIsInSixBytes(image, w.mcu.image);
      }
    }
  }

  lemma HeaderAgrees(image: Bytes, noise: Option<Artifact.Header>)
    ensures Artifact.DetectDrift(Some(image), noise) <==>
              !(&& noise.Some? && |image| >= 15 && noise.value.length == Artifact.Number(image[8..12])
                && noise.value.magic == Artifact.Number(image[12..14]))
  {
    if |image| >= 15 {
      Artifact.ReadsFour(image, 8);
      Artifact.ReadsTwo(image, 12);
    }
  }

  lemma CopiesAgree(a: Answers, current: Option<Bytes>, image: Bytes, f: Files)
    requires f.current == current
    ensures CommitCopies(a, f, image) <==> BothCopied(a, current, image)
  {
    CopyAgrees(a, CurrentBin, image);
    if current.Some? {
      CopyAgrees(a, PreviousBin, current.value);
    }
  }

  lemma CopyAgrees(a: Answers, name: Name, data: Bytes)
    ensures Copies(a, data, name) <==> Copied(a, name, data)
  {
    if a.copyFailsAt(name).Some? {
      assert a.copyFailsAt(name) == Some(a.copyFailsAt(name).value);
    }
  }

  // ---------------------------------------------------------------------------------------------
  // The outcome is the one decided

  /** What a turn of the loop is called here. */
  function Called(t: Rollback.Trial): Option<Outcome> {
    match t
    case NextOne => None
    case Escaped => Some(Raised)
    case Restored => Some(Returned(RolledBack))
  }

  lemma TurnAgrees(sc: Rollback.Scene, name: Name, recorded: Option<string>)
    requires recorded == Rollback.ExpectedVersion(sc.state, name)
    ensures Turn(sc.cfg, sc.a, sc.failed, name, At(sc.files, name), recorded) == Called(Rollback.TrialOf(sc, name))
  {
    var file := At(sc.files, name);
    if file.Some? {
      Artifact.LoadsIffArtifact(file.value);
    }
    AliveAgrees(sc, name);
    if recorded.Some? && Rollback.Reflashes(sc.cfg, sc.a, sc.files, name) {
      assert ComesAlive(sc.cfg, sc.a, sc.failed, name, file, recorded.value) <==>
               && Rollback.Normalised(sc.a.alive(name)) == recorded && recorded.value != sc.failed;
    }
  }

  lemma AliveAgrees(sc: Rollback.Scene, name: Name)
    ensures (exists reported :: ComesAlive(sc.cfg, sc.a, sc.failed, name, At(sc.files, name), reported)) <==>
              && Rollback.Reflashes(sc.cfg, sc.a, sc.files, name)
              && Rollback.Normalised(sc.a.alive(name)).Some? && Rollback.Normalised(sc.a.alive(name)).value != sc.failed
  {
    var file := At(sc.files, name);
    if file.Some? {
      Artifact.LoadsIffArtifact(file.value);
      if Rollback.Reflashes(sc.cfg, sc.a, sc.files, name) && Rollback.Normalised(sc.a.alive(name)).Some? {
        var reported := Rollback.Normalised(sc.a.alive(name)).value;
        assert reported != sc.failed ==> ComesAlive(sc.cfg, sc.a, sc.failed, name, file, reported);
      }
    }
  }

  lemma RollbackAgrees(cfg: Config, a: Answers, u: Update, w: World, f: Files, k: nat)
    requires f.current == Believed(a, w) && f.previous == w.files.previous && f.golden == w.files.golden
    requires Rollback.EndsAt(Rollback.Scene(cfg, a, f, w.state, u.version), k)
    ensures Rollback.OutcomeAt(Rollback.Scene(cfg, a, f, w.state, u.version), k) ==
            AfterRollback(cfg, a, u, w.state, Believed(a, w), w.files)
  {
    var sc := Rollback.Scene(cfg, a, f, w.state, u.version);
    TurnAgrees(sc, CurrentBin, w.state.committedVersion);
    TurnAgrees(sc, PreviousBin, w.state.previousVersion);
    TurnAgrees(sc, GoldenBin, None);
    assert CANDIDATES[0] == CurrentBin && CANDIDATES[1] == PreviousBin && CANDIDATES[2] == GoldenBin;
  }

  lemma StoppedAsDecided(cfg: Config, a: Answers, u: Update, w: World)
    requires cfg.noFlash || !Cycle.Prepared(cfg, a, w.state, u)
    ensures Cycle.StoppedAs(cfg, a, w.state, u).0 == Ought(cfg, a, u, w)
  {
    DownloadAgrees(a, w.state, u);
    AdmissionAgrees(a, w.state, u);
    if Cycle.Delivered(a, w.state, u) {
      FetchAgrees(a, u);
      CheckAgrees(cfg, a, w.state.sequence, u);
    }
  }

  lemma PreparedAgrees(cfg: Config, a: Answers, s: State, u: Update)
    ensures Cycle.Prepared(cfg, a, s, u) <==> Downloaded(a, s, u) && Passes(cfg, a, s.sequence, u)
  {
    DownloadAgrees(a, s, u);
    if Cycle.Delivered(a, s, u) {
      FetchAgrees(a, u);
      CheckAgrees(cfg, a, s.sequence, u);
    }
  }

  /** A cycle that goes on is not condemned. */
  lemma InstallsAsOught(cfg: Config, a: Answers, u: Update, w: World)
    requires !cfg.noFlash && Cycle.Prepared(cfg, a, w.state, u)
    ensures Arrives(a, u) && Ought(cfg, a, u, w) == Installed(cfg, a, u, w)
  {
    PreparedAgrees(cfg, a, w.state, u);
    FetchAgrees(a, u);
    CheckAgrees(cfg, a, w.state.sequence, u);
  }

  lemma UnflashedAsDecided(cfg: Config, a: Answers, u: Update, w: World, x: World, r: Outcome)
    requires Cycle.LeftUnflashed(cfg, a, u, w, x, r) && Cycle.StagedAsFetched(a, u, x.files) && Arrives(a, u)
    ensures r == Installed(cfg, a, u, w)
  {
  }

  lemma FlashedAsDecided(cfg: Config, a: Answers, u: Update, w: World, x: World, r: Outcome, end: Cycle.Ending)
    requires Cycle.Settled(cfg, a, u, w, AfterDrift(a, w), x, r, end)
    requires Cycle.StagedAsFetched(a, u, x.files) && Arrives(a, u)
    requires StageOutcome(cfg, a, a.fetch(StagedBin).data, u.version).None?
    ensures r == Installed(cfg, a, u, w)
  {
    var image := a.fetch(StagedBin).data;
    DriftAgrees(a, w);
    HostAgrees(cfg, a, u, w, x.files);
    if end.Through? {
      CopiesAgree(a, Believed(a, w), image, AfterDrift(a, w));
    } else {
      RollbackAgrees(cfg, a, u, w, x.files, end.k);
    }
  }

  /** Whatever happens, the cycle returns what it ought to, and raises where it ought to. */
  lemma OutcomeAsDecided(cfg: Config, a: Answers, u: Update, w: World, x: World, r: Outcome, flashes: seq<Why>, end: Cycle.Ending)
    requires Cycle.Ended(cfg, a, u, w, x, r, flashes, end)
    ensures r == Ought(cfg, a, u, w)
  {
    if end.Stopped? {
      StoppedAsDecided(cfg, a, u, w);
    } else {
      InstallsAsOught(cfg, a, u, w);
      if end.NotFlashed? {
        UnflashedAsDecided(cfg, a, u, w, x, r);
      } else {
        FlashedAsDecided(cfg, a, u, w, x, r, end);
      }
    }
  }

  /**
    Nothing is committed unless the MCU is healthy and a host payload, if there is one, was unpacked, restarted and
    found healthy.
   */
  lemma CommittedMeansHealthy(cfg: Config, a: Answers, u: Update, w: World, x: World, flashes: seq<Why>, end: Cycle.Ending)
    requires Cycle.Ended(cfg, a, u, w, x, Returned(Committed), flashes, end)
    ensures a.healthy && a.flash(ForUpdate(u.version)) == FlashOk && a.loads(AtCommit)
    ensures "host_payload" in u.manifest && u.manifest["host_payload"].Obj? ==>
              a.host.restart && a.host.health && a.fetch(StagedHost).Delivers? && cfg.unpack(a.fetch(StagedHost).data).Some?
  {
    OutcomeAsDecided(cfg, a, u, w, x, Returned(Committed), flashes, end);
    Cycle.CommitsOnlyThrough(cfg, a, u, w, x, Returned(Committed), flashes, end);
    InstallsAsOught(cfg, a, u, w);
    CommitsOnlyWhenBothWork(cfg, a, u, w);
  }

  lemma CommitsOnlyWhenBothWork(cfg: Config, a: Answers, u: Update, w: World)
    requires Arrives(a, u) && Installed(cfg, a, u, w) == Returned(Committed)
    ensures BothWork(cfg, a, u, w.host) && a.flash(ForUpdate(u.version)) == FlashOk && a.loads(AtCommit)
  {
  }

  // ---------------------------------------------------------------------------------------------
  // What the cycle leaves

  /** The board is touched. */
  ghost predicate Starts(cfg: Config, a: Answers, u: Update, w: World) {
    !cfg.noFlash && Downloaded(a, w.state, u) && Passes(cfg, a, w.state.sequence, u) && a.mayFlash == Yes
  }

  /** It takes the update. */
  ghost predicate Taken(cfg: Config, a: Answers, u: Update, w: World) {
    && Starts(cfg, a, u, w) && |a.fetch(StagedBin).data| <= cfg.target.maxSize
    && a.flash(ForUpdate(u.version)) == FlashOk
  }

  /** Both sides run it, or one of them does not and everything is rolled back. */
  ghost predicate BothSidesRun(cfg: Config, a: Answers, u: Update, w: World) {
    Taken(cfg, a, u, w) && BothWork(cfg, a, u, w.host)
  }

  ghost predicate OneSideFails(cfg: Config, a: Answers, u: Update, w: World) {
    Taken(cfg, a, u, w) && !BothWork(cfg, a, u, w.host)
  }

  lemma GoesOnExactlyWhen(cfg: Config, a: Answers, u: Update, w: World, x: World, r: Outcome, flashes: seq<Why>, end: Cycle.Ending)
    requires Cycle.Ended(cfg, a, u, w, x, r, flashes, end)
    ensures end.Stopped? <==> cfg.noFlash || !Downloaded(a, w.state, u) || !Passes(cfg, a, w.state.sequence, u)
    ensures !end.Stopped? ==> Arrives(a, u) && FetchesAll(a, u) && Cycle.StagedAsFetched(a, u, x.files)
  {
    PreparedAgrees(cfg, a, w.state, u);
    FetchAgrees(a, u);
  }

  /** The board took the update exactly if the cycle got beyond the flash. */
  lemma BeyondTheFlash(cfg: Config, a: Answers, u: Update, w: World, x: World, r: Outcome, flashes: seq<Why>, end: Cycle.Ending)
    requires Cycle.Finished(cfg, a, u, w, x, r, flashes, end) && !end.Stopped?
    requires Arrives(a, u) && Cycle.StagedAsFetched(a, u, x.files)
    ensures !end.NotFlashed? <==>
              && a.mayFlash == Yes && |a.fetch(StagedBin).data| <= cfg.target.maxSize
              && a.flash(ForUpdate(u.version)) == FlashOk
    ensures end.Through? ==> BothWork(cfg, a, u, w.host)
    ensures end.BackedOut? ==> !BothWork(cfg, a, u, w.host)
  {
    HostAgrees(cfg, a, u, w, x.files);
  }

  /** Which ending that is. */
  lemma EndingAsDecided(cfg: Config, a: Answers, u: Update, w: World, x: World, r: Outcome, flashes: seq<Why>, end: Cycle.Ending)
    requires Cycle.Ended(cfg, a, u, w, x, r, flashes, end)
    ensures end.Stopped? <==> cfg.noFlash || !Downloaded(a, w.state, u) || !Passes(cfg, a, w.state.sequence, u)
    ensures end.Through? <==> BothSidesRun(cfg, a, u, w)
    ensures end.BackedOut? <==> OneSideFails(cfg, a, u, w)
    ensures !end.Stopped? ==> Arrives(a, u) && Cycle.StagedAsFetched(a, u, x.files)
  {
    GoesOnExactlyWhen(cfg, a, u, w, x, r, flashes, end);
    if !end.Stopped? {
      BeyondTheFlash(cfg, a, u, w, x, r, flashes, end);
    }
  }

  lemma FailureIsRolledBack(cfg: Config, a: Answers, u: Update, w: World)
    requires OneSideFails(cfg, a, u, w)
    ensures Ought(cfg, a, u, w) == AfterRollback(cfg, a, u, w.state, Believed(a, w), w.files)
  {
    NotCondemned(cfg, a, u, w);
  }

  /** An update whose host side does not restart, or is found unhealthy, is backed out. */
  lemma UnhealthyHostIsBackedOut(cfg: Config, a: Answers, u: Update, w: World, x: World, r: Outcome, flashes: seq<Why>, end: Cycle.Ending)
    requires Cycle.Ended(cfg, a, u, w, x, r, flashes, end) && Taken(cfg, a, u, w) && a.healthy
    requires "host_payload" in u.manifest && u.manifest["host_payload"].Obj? && !(a.host.restart && a.host.health)
    ensures end.BackedOut? && r == AfterRollback(cfg, a, u, w.state, Believed(a, w), w.files)
  {
    assert OneSideFails(cfg, a, u, w);
    EndingAsDecided(cfg, a, u, w, x, r, flashes, end);
    OutcomeAsDecided(cfg, a, u, w, x, r, flashes, end);
    FailureIsRolledBack(cfg, a, u, w);
  }

  /** The MCU after the flash of an image: one that does not fit never reaches it. */
  function McuAfterTool(before: Mcu, image: Bytes, fits: bool, answer: FlashAnswer): Mcu {
    if !fits then before
    else
      match answer
      case FlashOk => Running(image)
      case FlashFails(reach) => McuReached(before, image, reach)
      case FlashRaises(reach) => McuReached(before, image, reach)
  }

  function McuReached(before: Mcu, image: Bytes, reach: Reach): Mcu {
    if reach == BeforeErase then before else if reach == AfterErase then Torn else Running(image)
  }

  /** The MCU after a flash of the update, and nothing since. */
  ghost function McuFlashed(cfg: Config, a: Answers, u: Update, w: World): Mcu
    requires a.fetch(StagedBin).Delivers?
  {
    var image := a.fetch(StagedBin).data;
    McuAfterTool(w.mcu, image, |image| <= cfg.target.maxSize, a.flash(ForUpdate(u.version)))
  }

  /** The image a rollback has put back, if it has. */
  ghost function PutBack(cfg: Config, a: Answers, u: Update, w: World): Option<Bytes> {
    var settled := Some(Returned(RolledBack));
    var first := Turn(cfg, a, u.version, CurrentBin, Believed(a, w), w.state.committedVersion);
    var second := Turn(cfg, a, u.version, PreviousBin, w.files.previous, w.state.previousVersion);
    if first.Some? then (if first == settled then Believed(a, w) else None)
    else if second.Some? then (if second == settled then w.files.previous else None)
    else if Turn(cfg, a, u.version, GoldenBin, w.files.golden, None) == settled then w.files.golden
    else None
  }

  lemma UnflashedMcu(cfg: Config, a: Answers, u: Update, w: World, x: World, r: Outcome)
    requires Cycle.LeftUnflashed(cfg, a, u, w, x, r) && a.fetch(StagedBin).Delivers?
    requires x.files.staged == Some(a.fetch(StagedBin).data)
    ensures x.mcu == if a.mayFlash == Yes then McuFlashed(cfg, a, u, w) else w.mcu
  {
  }

  lemma ThroughMcu(cfg: Config, a: Answers, u: Update, w: World, x: World, r: Outcome, end: Cycle.Ending)
    requires end.Through? && Cycle.Settled(cfg, a, u, w, AfterDrift(a, w), x, r, end) && Cycle.StagedAsFetched(a, u, x.files)
    requires Taken(cfg, a, u, w)
    ensures x.mcu == McuFlashed(cfg, a, u, w)
  {
  }

  /** The MCU is left alone, or as the flash left it, or with the image the rollback put back. */
  lemma McuAsDecided(cfg: Config, a: Answers, u: Update, w: World, x: World, r: Outcome, flashes: seq<Why>, end: Cycle.Ending)
    requires Cycle.Ended(cfg, a, u, w, x, r, flashes, end)
    ensures !Starts(cfg, a, u, w) ==> x.mcu == w.mcu
    ensures Starts(cfg, a, u, w) && !OneSideFails(cfg, a, u, w) ==> x.mcu == McuFlashed(cfg, a, u, w)
    ensures OneSideFails(cfg, a, u, w) && r == Returned(RolledBack) ==>
              PutBack(cfg, a, u, w).Some? && x.mcu == Running(PutBack(cfg, a, u, w).value)
  {
    EndingAsDecided(cfg, a, u, w, x, r, flashes, end);
    match end {
      case Stopped =>
      case NotFlashed => UnflashedMcu(cfg, a, u, w, x, r);
      case Through => ThroughMcu(cfg, a, u, w, x, r, end);
      case BackedOut(_, _) => PutBackAgrees(cfg, a, u, w, x, r, end);
    }
  }

  lemma PutBackAgrees(cfg: Config, a: Answers, u: Update, w: World, x: World, r: Outcome, end: Cycle.Ending)
    requires end.BackedOut? && Cycle.Settled(cfg, a, u, w, AfterDrift(a, w), x, r, end) && a.mayFlash == Yes
    ensures r == Returned(RolledBack) ==>
              PutBack(cfg, a, u, w) == At(x.files, CANDIDATES[end.k]) && x.mcu == Running(PutBack(cfg, a, u, w).value)
  {
    var sc := Rollback.Scene(cfg, a, x.files, w.state, u.version);
    DriftAgrees(a, w);
    TurnAgrees(sc, CurrentBin, w.state.committedVersion);
    TurnAgrees(sc, PreviousBin, w.state.previousVersion);
    TurnAgrees(sc, GoldenBin, None);
    assert CANDIDATES[0] == CurrentBin && CANDIDATES[1] == PreviousBin && CANDIDATES[2] == GoldenBin;
  }

  lemma ThroughImages(cfg: Config, a: Answers, u: Update, w: World, f: Files, x: World, r: Outcome)
    requires Cycle.WentThrough(cfg, a, u, w, f, x, r) && f.current == Believed(a, w)
    ensures x.files.staged.Some?
    ensures var image, current := x.files.staged.value, Believed(a, w);
            && x.files.current == (if BothCopied(a, current, image) then Some(image) else current)
            && x.files.previous == if current.Some? && Copied(a, PreviousBin, current.value) then current else f.previous
  {
    CopiesAgree(a, Believed(a, w), x.files.staged.value, f);
    if f.current.Some? {
      CopyAgrees(a, PreviousBin, f.current.value);
    }
  }

  /** The image files the cycle leaves: current.bin, previous.bin and golden.bin. */
  lemma ImagesAsDecided(cfg: Config, a: Answers, u: Update, w: World, x: World, r: Outcome, flashes: seq<Why>, end: Cycle.Ending)
    requires Cycle.Ended(cfg, a, u, w, x, r, flashes, end)
    ensures x.files.golden == w.files.golden
    ensures !Starts(cfg, a, u, w) ==> x.files.current == w.files.current && x.files.previous == w.files.previous
    ensures Starts(cfg, a, u, w) && !BothSidesRun(cfg, a, u, w) ==>
              x.files.current == Believed(a, w) && x.files.previous == w.files.previous
    ensures BothSidesRun(cfg, a, u, w) ==>
              var image, current := a.fetch(StagedBin).data, Believed(a, w);
              && x.files.current == (if BothCopied(a, current, image) then Some(image) else current)
              && x.files.previous ==
                   if current.Some? && Copied(a, PreviousBin, current.value) then current else w.files.previous
  {
    EndingAsDecided(cfg, a, u, w, x, r, flashes, end);
    DriftAgrees(a, w);
    if end.Through? {
      ThroughImages(cfg, a, u, w, AfterDrift(a, w), x, r);
    }
  }

  /**
    A host side that failed ends with the live tree it began with: the apply returned, there was a tree to go back to,
    and both renames of the rollback work; or it stopped at its renames before it displaced anything, or the rollback
    puts back what it displaced; or it stopped before them, and the rollback finds no `.previous` or fails in time.
   */
  ghost predicate GoesBack(cfg: Config, a: Answers, d: Host.Dirs)
    requires a.fetch(StagedHost).Delivers?
  {
    var io, back := a.host.apply, a.host.rollback;
    var ready := && cfg.unpack(a.fetch(StagedHost).data).Some? && io.extraction == Host.Completes && !io.mkdirFails
                 && Removes(d.next, Host.Next, io) && Removes(d.previous, Host.Previous, io);
    var cleared, again := Removes(d.failed, Host.Failed, back), !back.renameFails(Host.Previous);
    if !ready then d.previous.None? || !cleared || if d.live.Some? then back.renameFails(Host.Live) else !again
    else if d.live.Some? && io.renameFails(Host.Live) then true
    else if io.renameFails(Host.Next) then d.live.None? || (cleared && again)
    else d.live.Some? && cleared && !back.renameFails(Host.Live) && again
  }

  lemma UndoneAgrees(cfg: Config, a: Answers, d: Host.Dirs, archive: Host.Archive)
    requires a.fetch(StagedHost).Delivers? && archive == Host.Archive(cfg.unpack(a.fetch(StagedHost).data))
    ensures Host.Undone(d, archive, a.host.apply, a.host.rollback) <==> GoesBack(cfg, a, d)
  {
    ClearsAgree(d.next, Host.Next, a.host.apply);
    ClearsAgree(d.previous, Host.Previous, a.host.apply);
    ClearsAgree(d.failed, Host.Failed, a.host.rollback);
  }

  lemma ClearsAgree(t: Option<Host.Tree>, slot: Host.Slot, io: Host.Io)
    ensures (t.Some? ==> Host.Removable(t.value, slot, [], io)) <==> Removes(t, slot, io)
  {
  }

  /**
    The host tree is touched only after a healthy flash of an update that carries a payload.  It is committed whole, with
    the old tree kept; after a failure the live tree is as it was where `GoesBack` says so, and, where the trees are told
    apart, nowhere else.
   */
  lemma HostAsDecided(cfg: Config, a: Answers, u: Update, w: World, x: World, r: Outcome, flashes: seq<Why>, end: Cycle.Ending)
    requires Cycle.Ended(cfg, a, u, w, x, r, flashes, end)
    ensures !(Taken(cfg, a, u, w) && a.healthy && HasHost(u)) ==> x.host == w.host
    ensures BothSidesRun(cfg, a, u, w) && HasHost(u) ==>
              x.host == Host.Dirs(cfg.unpack(a.fetch(StagedHost).data), w.host.live, None, w.host.failed)
    ensures OneSideFails(cfg, a, u, w) && a.healthy && HasHost(u) ==>
              && (GoesBack(cfg, a, w.host) ==> x.host.live == w.host.live)
              && (Host.ToldApart(w.host, Host.Archive(cfg.unpack(a.fetch(StagedHost).data))) ==>
                    (x.host.live == w.host.live <==> GoesBack(cfg, a, w.host)))
  {
    EndingAsDecided(cfg, a, u, w, x, r, flashes, end);
    HostBlockAgrees(u);
    if end.BackedOut? {
      Cycle.BackedOutHost(cfg, a, u, w, x, r, flashes, end);
      if HasHost(u) {
        UndoneAgrees(cfg, a, w.host, ArchiveOf(cfg, x.files));
      }
    }
  }

  // ---------------------------------------------------------------------------------------------
  // The flashes

  /** The file can be read and is an artifact, so the rollback flashes it when its turn comes. */
  ghost function Reflash(a: Answers, name: Name, file: Option<Bytes>): seq<Why> {
    if file.Some? && a.readable(name) && Artifact.IsArtifact(file.value) then [Restore(name)] else []
  }

  /** The flashes of a rollback: every candidate's, in order, up to the one that settles it. */
  ghost function Reflashes(cfg: Config, a: Answers, u: Update, w: World): seq<Why> {
    var c, p, g := Reflash(a, CurrentBin, Believed(a, w)), Reflash(a, PreviousBin, w.files.previous),
                   Reflash(a, GoldenBin, w.files.golden);
    if Turn(cfg, a, u.version, CurrentBin, Believed(a, w), w.state.committedVersion).Some? then c
    else if Turn(cfg, a, u.version, PreviousBin, w.files.previous, w.state.previousVersion).Some? then c + p
    else c + p + g
  }

  lemma BackedOutFlashes(cfg: Config, a: Answers, u: Update, w: World, x: World, r: Outcome, flashes: seq<Why>, end: Cycle.Ending)
    requires Cycle.Finished(cfg, a, u, w, x, r, flashes, end) && end.BackedOut? && a.mayFlash == Yes
    ensures flashes == [ForUpdate(u.version)] + Reflashes(cfg, a, u, w)
  {
    ReflashesAgree(cfg, a, u, w, x.files, end.k);
  }

  lemma OtherFlashes(cfg: Config, a: Answers, u: Update, w: World, x: World, r: Outcome, flashes: seq<Why>, end: Cycle.Ending)
    requires Cycle.Finished(cfg, a, u, w, x, r, flashes, end)
    ensures end.Stopped? ==> flashes == []
    ensures end.NotFlashed? ==> flashes == if a.mayFlash == Yes then [ForUpdate(u.version)] else []
    ensures end.Through? ==> flashes == [ForUpdate(u.version)]
  {
  }

  /** Every flash the cycle starts, in order: the update's, once, and after a failure those of the rollback. */
  lemma FlashesAsDecided(cfg: Config, a: Answers, u: Update, w: World, x: World, r: Outcome, flashes: seq<Why>, end: Cycle.Ending)
    requires Cycle.Ended(cfg, a, u, w, x, r, flashes, end)
    ensures flashes ==
            if !Starts(cfg, a, u, w) then []
            else [ForUpdate(u.version)] + if OneSideFails(cfg, a, u, w) then Reflashes(cfg, a, u, w) else []
  {
    EndingAsDecided(cfg, a, u, w, x, r, flashes, end);
    if end.BackedOut? {
      BackedOutFlashes(cfg, a, u, w, x, r, flashes, end);
    } else {
      OtherFlashes(cfg, a, u, w, x, r, flashes, end);
    }
  }

  /** The loop ends with the first turn that settles it. */
  lemma SettlingTurn(cfg: Config, a: Answers, u: Update, w: World, f: Files, k: nat)
    requires Cycle.SameImages(AfterDrift(a, w), f) && a.mayFlash == Yes
    requires Rollback.EndsAt(Rollback.Scene(cfg, a, f, w.state, u.version), k)
    ensures f.current == Believed(a, w) && k <= 3
    ensures k == 0 <==> Turn(cfg, a, u.version, CurrentBin, Believed(a, w), w.state.committedVersion).Some?
    ensures k == 1 ==> Turn(cfg, a, u.version, PreviousBin, w.files.previous, w.state.previousVersion).Some?
    ensures k > 1 ==> Turn(cfg, a, u.version, PreviousBin, w.files.previous, w.state.previousVersion).None?
  {
    var sc := Rollback.Scene(cfg, a, f, w.state, u.version);
    DriftAgrees(a, w);
    TurnAgrees(sc, CurrentBin, w.state.committedVersion);
    TurnAgrees(sc, PreviousBin, w.state.previousVersion);
    assert CANDIDATES[0] == CurrentBin && CANDIDATES[1] == PreviousBin;
  }

  lemma WrittenOut(usable: set<Name>, c: seq<Why>, p: seq<Why>, g: seq<Why>, k: nat)
    requires k <= 3 && c == (if CurrentBin in usable then [Restore(CurrentBin)] else [])
    requires p == (if PreviousBin in usable then [Restore(PreviousBin)] else [])
    requires g == (if GoldenBin in usable then [Restore(GoldenBin)] else [])
    ensures RestoresUpTo(usable, k) == if k == 0 then c else if k == 1 then c + p else c + p + g
  {
    RestoresWrittenOut(usable);
  }

  lemma ReflashesUpTo(a: Answers, f: Files, k: nat)
    requires k <= 3
    ensures var c, p, g := Reflash(a, CurrentBin, f.current), Reflash(a, PreviousBin, f.previous), Reflash(a, GoldenBin, f.golden);
            RestoresUpTo(Rollback.UsableNames(a, f), k) == if k == 0 then c else if k == 1 then c + p else c + p + g
  {
    UsableAgrees(a, f, CurrentBin);
    UsableAgrees(a, f, PreviousBin);
    UsableAgrees(a, f, GoldenBin);
    WrittenOut(Rollback.UsableNames(a, f), Reflash(a, CurrentBin, f.current), Reflash(a, PreviousBin, f.previous),
               Reflash(a, GoldenBin, f.golden), k);
  }

  lemma ReflashesAgree(cfg: Config, a: Answers, u: Update, w: World, f: Files, k: nat)
    requires Cycle.SameImages(AfterDrift(a, w), f) && a.mayFlash == Yes
    requires Rollback.EndsAt(Rollback.Scene(cfg, a, f, w.state, u.version), k)
    ensures Rollback.Reflashed(Rollback.Scene(cfg, a, f, w.state, u.version), k) == Reflashes(cfg, a, u, w)
  {
    SettlingTurn(cfg, a, u, w, f, k);
    ReflashesUpTo(a, f, k);
  }

  lemma UsableAgrees(a: Answers, f: Files, name: Name)
    requires name in CANDIDATES
    ensures Reflash(a, name, At(f, name)) == if name in Rollback.UsableNames(a, f) then [Restore(name)] else []
  {
    if At(f, name).Some? {
      Artifact.LoadsIffArtifact(At(f, name).value);
    }
  }

  // ---------------------------------------------------------------------------------------------
  // The record

  /** An attempt is charged: for a flash, or with a condemned version. */
  ghost predicate Charges(cfg: Config, a: Answers, u: Update, w: World) {
    Starts(cfg, a, u, w) || (Downloaded(a, w.state, u) && Condemns(cfg, a, w.state.sequence, u))
  }

  /** The version is poisoned: turned away once more, condemned, or rolled back. */
  ghost predicate Poisons(cfg: Config, a: Answers, u: Update, w: World) {
    || (Legible(a, w.state, u) && Turned(w.state, u.version))
    || (Downloaded(a, w.state, u) && Condemns(cfg, a, w.state.sequence, u))
    || OneSideFails(cfg, a, u, w)
  }

  /** `t` is `s` with an attempt more for `v` if `charged`, and `v` poisoned if `poisoned`. */
  ghost predicate Blames(s: State, t: State, v: string, charged: bool, poisoned: bool) {
    && (forall o :: Attempts(t, o) == Attempts(s, o) + if o == v && charged then 1 else 0)
    && (forall o :: o in t.poisoned <==> o in s.poisoned || (o == v && poisoned))
  }

  ghost predicate SameStamp(s: State, t: State) {
    t.lastVerifiedSequence == s.lastVerifiedSequence && t.lastVerifiedVersion == s.lastVerifiedVersion
  }

  /**
    What is on the record for good: one attempt, the poison, the verify-only stamp and the commit, each exactly when it
    is called for and the disk takes it; and nothing else that the phase does not overwrite.
   */
  ghost predicate RecordLeft(cfg: Config, a: Answers, u: Update, w: World, t: State, r: Outcome) {
    var s, v := w.state, u.version;
    && Blames(s, t, v, Charges(cfg, a, u, w) && a.persists(RecordAttempt(v)), Poisons(cfg, a, u, w) && a.persists(Poison(v)))
    && (if Downloaded(a, s, u) && Passes(cfg, a, s.sequence, u) && cfg.noFlash && Noted(a, u) == Returned(Idle)
        then t.lastVerifiedSequence == u.sequence && t.lastVerifiedVersion == Some(v)
        else SameStamp(s, t))
    && if r == Returned(Committed) && a.persists(Commit(v, u.sequence, Believed(a, w).Some?))
       then && t.sequence == u.sequence && t.committedVersion == Some(v)
            && t.previousVersion == if Believed(a, w).Some? then s.committedVersion else s.previousVersion
       else t.sequence == s.sequence && t.committedVersion == s.committedVersion && t.previousVersion == s.previousVersion
  }

  lemma RecordAsDecided(cfg: Config, a: Answers, u: Update, w: World, x: World, r: Outcome, flashes: seq<Why>, end: Cycle.Ending)
    requires Cycle.Ended(cfg, a, u, w, x, r, flashes, end)
    ensures RecordLeft(cfg, a, u, w, x.state, r)
  {
    EndingAsDecided(cfg, a, u, w, x, r, flashes, end);
    if end.Stopped? {
      NeverCommitsWhenStopped(cfg, a, u, w, x, r, flashes, end);
      StoppedRecord(cfg, a, u, w, x.state, r);
    } else {
      InstalledRecord(cfg, a, u, w, x, r, flashes, end);
    }
  }

  lemma NeverCommitsWhenStopped(cfg: Config, a: Answers, u: Update, w: World, x: World, r: Outcome, flashes: seq<Why>, end: Cycle.Ending)
    requires Cycle.Ended(cfg, a, u, w, x, r, flashes, end) && end.Stopped?
    ensures r != Returned(Committed) && x.state == Cycle.StoppedAs(cfg, a, w.state, u).1
    ensures cfg.noFlash || !Cycle.Prepared(cfg, a, w.state, u)
  {
  }

  lemma NotCondemned(cfg: Config, a: Answers, u: Update, w: World)
    requires Downloaded(a, w.state, u) && Passes(cfg, a, w.state.sequence, u)
    ensures !Condemns(cfg, a, w.state.sequence, u) && !Turned(w.state, u.version)
  {
    FetchAgrees(a, u);
    CheckAgrees(cfg, a, w.state.sequence, u);
  }

  lemma InstalledRecord(cfg: Config, a: Answers, u: Update, w: World, x: World, r: Outcome, flashes: seq<Why>, end: Cycle.Ending)
    requires Cycle.Ended(cfg, a, u, w, x, r, flashes, end) && !end.Stopped?
    ensures RecordLeft(cfg, a, u, w, x.state, r)
  {
    EndingAsDecided(cfg, a, u, w, x, r, flashes, end);
    NotCondemned(cfg, a, u, w);
    Cycle.RecordAtTheEnd(cfg, a, u, w, x, r, flashes, end);
    Cycle.EndedInstalled(cfg, a, u, w, x, r, flashes, end);
    if r == Returned(Committed) {
      Cycle.CommitsOnlyThrough(cfg, a, u, w, x, r, flashes, end);
    }
    DriftAgrees(a, w);
    InstalledAgrees(cfg, a, u, w, x.state, r, end);
  }

  lemma InstalledAgrees(cfg: Config, a: Answers, u: Update, w: World, t: State, r: Outcome, end: Cycle.Ending)
    requires Cycle.Recorded(a, u, w.state, t, AfterDrift(a, w).current.Some?, r, end)
    requires !cfg.noFlash && Downloaded(a, w.state, u) && Passes(cfg, a, w.state.sequence, u)
    requires !Condemns(cfg, a, w.state.sequence, u) && !Turned(w.state, u.version)
    requires end.BackedOut? <==> OneSideFails(cfg, a, u, w)
    requires r == Returned(Committed) ==> end.Through? && a.mayFlash == Yes
    requires a.mayFlash == Yes ==> AfterDrift(a, w).current == Believed(a, w)
    ensures RecordLeft(cfg, a, u, w, t, r)
  {
  }

  lemma StoppedRecord(cfg: Config, a: Answers, u: Update, w: World, t: State, r: Outcome)
    requires t == Cycle.StoppedAs(cfg, a, w.state, u).1 && (cfg.noFlash || !Cycle.Prepared(cfg, a, w.state, u))
    requires r != Returned(Committed)
    ensures RecordLeft(cfg, a, u, w, t, r)
  {
    var s := w.state;
    DownloadAgrees(a, s, u);
    AdmissionAgrees(a, s, u);
    PreparedAgrees(cfg, a, s, u);
    if !Cycle.Delivered(a, s, u) {
      UndeliveredRecord(cfg, a, s, u);
    } else {
      FetchAgrees(a, u);
      CheckAgrees(cfg, a, s.sequence, u);
      CheckedRecord(cfg, a, s, u);
    }
  }

  /** What an offer that is not downloaded whole leaves on the record. */
  lemma UndeliveredRecord(cfg: Config, a: Answers, s: State, u: Update)
    ensures var t := Cycle.Undelivered(cfg, a, s, u).1;
            && Blames(s, t, u.version, false, AdmissionReads(a, s, u) && Barred(s, u.version) && a.persists(Poison(u.version)))
            && SameStamp(s, t) && SameLabels(s, t)
  {
  }

  /** What a check leaves on the record, in verify-only mode or when it does not pass. */
  lemma CheckedRecord(cfg: Config, a: Answers, s: State, u: Update)
    requires Cycle.Delivered(a, s, u)
    ensures var t, c := Cycle.StoppedAs(cfg, a, s, u).1, Cycle.Conclusion(cfg, a, s.sequence, u);
            && Blames(s, t, u.version, c == Condemned && a.persists(RecordAttempt(u.version)),
                      c == Condemned && a.persists(Poison(u.version)))
            && (if c.Passed? && Cycle.StampsIt(a, u)
                then t.lastVerifiedSequence == u.sequence && t.lastVerifiedVersion == Some(u.version)
                else SameStamp(s, t))
            && SameLabels(s, t)
  {
    var verified, c := Cycle.VerifiedRecord(cfg, a, s, u.version), Cycle.Conclusion(cfg, a, s.sequence, u);
    assert SameRecord(s, verified);
    match c {
      case Passed(_) => PassedRecord(cfg, a, s, u);
      case Transient =>
      case Condemned => BlamedRecord(cfg, a, verified, u.version);
    }
  }

  lemma PassedRecord(cfg: Config, a: Answers, s: State, u: Update)
    requires Cycle.Prepared(cfg, a, s, u)
    ensures var t := Cycle.StoppedAs(cfg, a, s, u).1;
            && Blames(s, t, u.version, false, false) && SameLabels(s, t)
            && if Cycle.StampsIt(a, u) then t.lastVerifiedSequence == u.sequence && t.lastVerifiedVersion == Some(u.version)
               else SameStamp(s, t)
  {
    Cycle.VerifiedOnlyAs(cfg, a, s, u);
    assert SameRecord(s, Cycle.VerifiedRecord(cfg, a, s, u.version));
  }

  lemma BlamedRecord(cfg: Config, a: Answers, s: State, v: string)
    ensures var t := AnsweredRecord(cfg, a, s, v, Condemned);
            Blames(s, t, v, a.persists(RecordAttempt(v)), a.persists(Poison(v))) && SameStamp(s, t) && SameLabels(s, t)
  {
    assert SameRecord(BlamedState(a, s, v), AnsweredRecord(cfg, a, s, v, Condemned));
  }

  /** The write that is to leave the returned phase on disk, with the version shown beside it. */
  ghost function LastWrite(cfg: Config, a: Answers, u: Update, w: World, p: Phase): Write {
    if p == Committed then Commit(u.version, u.sequence, Believed(a, w).Some?)
    else
      var shown := if p == Staged || (p == Rejected && !OneSideFails(cfg, a, u, w)) then Some(u.version) else None;
      SetPhase(p, shown, cfg.target.coreVersion)
  }

  /** The record shows what this write leaves of it, whatever else was written before. */
  ghost predicate Shows(t: State, wr: Write) {
    match wr
    case SetPhase(p, shown, core) => t.phase == p && t.version == shown && t.coreVersion == core
    case Commit(v, _, _) => t.phase == Committed && t.version == Some(v)
    case _ => true
  }

  lemma StoppedLands(cfg: Config, a: Answers, u: Update, s: State, p: Phase)
    requires Cycle.StoppedAs(cfg, a, s, u).0 == Returned(p) && !Cycle.UpToDate(a, s, u) && p in {Idle, Rejected}
    ensures var wr := SetPhase(p, if p == Rejected then Some(u.version) else None, cfg.target.coreVersion);
            a.persists(wr) ==> Shows(Cycle.StoppedAs(cfg, a, s, u).1, wr)
  {
  }

  lemma InstalledLands(cfg: Config, a: Answers, s: State, u: Update, hadCurrent: bool, p: Phase, end: Cycle.Ending)
    requires !end.Stopped? && (end.NotFlashed? ==> p == if a.mayFlash.Yes? then Idle else Staged)
    requires (end.Through? ==> p in {Committed, Idle}) && (end.BackedOut? ==> p in {RolledBack, Rejected})
    ensures var wr := if p == Committed then Commit(u.version, u.sequence, hadCurrent)
                      else SetPhase(p, if p == Staged then Some(u.version) else None, cfg.target.coreVersion);
            a.persists(wr) ==> Shows(Cycle.InstalledRecord(cfg, a, s, u, hadCurrent, Returned(p), end), wr)
  {
  }

  lemma StoppedOutcome(cfg: Config, a: Answers, u: Update, w: World, x: World, r: Outcome, flashes: seq<Why>, end: Cycle.Ending)
    requires Cycle.Ended(cfg, a, u, w, x, r, flashes, end) && end.Stopped?
    ensures r == Cycle.StoppedAs(cfg, a, w.state, u).0
  {
  }

  lemma LandsWhenStopped(cfg: Config, a: Answers, u: Update, w: World, x: World, p: Phase, flashes: seq<Why>, end: Cycle.Ending)
    requires Cycle.Ended(cfg, a, u, w, x, Returned(p), flashes, end) && end.Stopped? && !Cycle.UpToDate(a, w.state, u)
    ensures var wr := SetPhase(p, if p == Rejected then Some(u.version) else None, cfg.target.coreVersion);
            p in {Idle, Rejected} && (a.persists(wr) ==> Shows(x.state, wr))
  {
    Cycle.PossiblePhases(cfg, a, u, w, x, p, flashes, end);
    NeverCommitsWhenStopped(cfg, a, u, w, x, Returned(p), flashes, end);
    StoppedOutcome(cfg, a, u, w, x, Returned(p), flashes, end);
    StoppedLands(cfg, a, u, w.state, p);
  }

  lemma LandsWhenInstalled(cfg: Config, a: Answers, u: Update, w: World, x: World, p: Phase, flashes: seq<Why>, end: Cycle.Ending)
    requires Cycle.Ended(cfg, a, u, w, x, Returned(p), flashes, end) && !end.Stopped?
    ensures var wr := if p == Committed then Commit(u.version, u.sequence, Believed(a, w).Some?)
                      else SetPhase(p, if p == Staged then Some(u.version) else None, cfg.target.coreVersion);
            a.persists(wr) ==> Shows(x.state, wr)
    ensures p == Rejected ==> end.BackedOut?
  {
    Cycle.PossiblePhases(cfg, a, u, w, x, p, flashes, end);
    DriftAgrees(a, w);
    Cycle.EndedInstalled(cfg, a, u, w, x, Returned(p), flashes, end);
    InstalledLands(cfg, a, Cycle.VerifiedRecord(cfg, a, w.state, u.version), u, AfterDrift(a, w).current.Some?, p, end);
  }

  lemma BackedOutIfOneFails(cfg: Config, a: Answers, u: Update, w: World, x: World, r: Outcome, flashes: seq<Why>, end: Cycle.Ending)
    requires Cycle.Ended(cfg, a, u, w, x, r, flashes, end)
    ensures end.BackedOut? <==> OneSideFails(cfg, a, u, w)
  {
    EndingAsDecided(cfg, a, u, w, x, r, flashes, end);
  }

  /** If that write gets through, the record shows the phase returned, and the version while the update is at issue. */
  lemma LastWriteLands(cfg: Config, a: Answers, u: Update, w: World, x: World, p: Phase, flashes: seq<Why>, end: Cycle.Ending)
    requires Cycle.Ended(cfg, a, u, w, x, Returned(p), flashes, end) && a.persists(LastWrite(cfg, a, u, w, p))
    requires !Cycle.UpToDate(a, w.state, u)
    ensures Shows(x.state, LastWrite(cfg, a, u, w, p))
  {
    BackedOutIfOneFails(cfg, a, u, w, x, Returned(p), flashes, end);
    if end.Stopped? {
      LandsWhenStopped(cfg, a, u, w, x, p, flashes, end);
    } else {
      LandsWhenInstalled(cfg, a, u, w, x, p, flashes, end);
    }
  }
}
