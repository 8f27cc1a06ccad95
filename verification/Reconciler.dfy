/**
  Boot-time recovery (unoq_ota/reconciler.py): flash the first image that comes alive, and never give up before
  golden.bin has had its turn.  It reads no state file and no offer; every answer below may also be an exception.
 */
module Reconciler {
  import opened Wrappers
  import opened World
  import opened Agent
  import Artifact
  import Host
  import Safety

  /** What the file system, the loader, the flash tool and the health check may answer for each candidate. */
  datatype RecoveryAnswers = RecoveryAnswers(
    atFirst: Alive,
    present: Name -> bool,
    loadRaises: Name -> bool,
    flash: Name -> FlashAnswer,
    alive: Name -> Alive)

  datatype Result = Result(healthy: bool, action: string, image: Option<Name>)

  /** `_is_alive`: any truthy report of any firmware; an exception is not alive. */
  predicate IsAlive(x: Alive) {
    match x
    case CheckRaises => false
    case NotText(truthy) => truthy
    case Says(text) => text != ""
  }

  predicate Loadable(a: RecoveryAnswers, f: Files, name: Name) {
    a.present(name) && At(f, name).Some? && !a.loadRaises(name) && Artifact.Loads(At(f, name).value)
  }

  /** The candidate is present, loads, flashes and comes alive. */
  predicate Revives(cfg: Config, a: RecoveryAnswers, f: Files, name: Name) {
    Loadable(a, f, name) && ResultOf(cfg, a.flash(name), At(f, name).value).Done? && IsAlive(a.alive(name))
  }

  ghost predicate FirstToRevive(cfg: Config, a: RecoveryAnswers, f: Files, k: nat) {
    && k <= |CANDIDATES|
    && (forall j :: 0 <= j < k ==> !Revives(cfg, a, f, CANDIDATES[j]))
    && (k < |CANDIDATES| ==> Revives(cfg, a, f, CANDIDATES[k]))
  }

  function LoadableNames(a: RecoveryAnswers, f: Files): set<Name> {
    set name | name in CANDIDATES && Loadable(a, f, name)
  }

  /** What recovery makes of a device whose firmware was not alive at first: the result, the MCU and the flashes. */
  ghost predicate Recovered(cfg: Config, a: RecoveryAnswers, f: Files, r: Result, mcu: Mcu, flashes: seq<Why>, k: nat) {
    && FirstToRevive(cfg, a, f, k) && flashes == RestoresUpTo(LoadableNames(a, f), k)
    && if k < |CANDIDATES| then
         && r == Result(true, "reflashed", Some(CANDIDATES[k]))
         && At(f, CANDIDATES[k]).Some? && mcu == Running(At(f, CANDIDATES[k]).value)
       else r == Result(false, "exhausted", None)
  }

  // ---------------------------------------------------------------------------------------------
  // What recovery is to do, told from the three files and the answers

  /** The firmware responds: a non-empty text, or some other truthy value. */
  ghost predicate Responds(x: Alive) {
    x == NotText(true) || exists text: string :: x == Says(text) && text != ""
  }

  /** The file is there, can be read, and is an artifact. */
  ghost predicate Good(a: RecoveryAnswers, name: Name, file: Option<Bytes>) {
    a.present(name) && !a.loadRaises(name) && exists image: Bytes :: file == Some(image) && Artifact.IsArtifact(image)
  }

  /** It also fits the partition, and the board takes it and responds. */
  ghost predicate Works(cfg: Config, a: RecoveryAnswers, name: Name, file: Option<Bytes>) {
    && Good(a, name, file) && |file.value| <= cfg.target.maxSize && a.flash(name) == FlashOk && Responds(a.alive(name))
  }

  /** The first file that works, in the order current, previous, golden. */
  ghost function Rescue(cfg: Config, a: RecoveryAnswers, f: Files): Option<(Name, Bytes)> {
    if Works(cfg, a, CurrentBin, f.current) then Some((CurrentBin, f.current.value))
    else if Works(cfg, a, PreviousBin, f.previous) then Some((PreviousBin, f.previous.value))
    else if Works(cfg, a, GoldenBin, f.golden) then Some((GoldenBin, f.golden.value))
    else None
  }

  ghost function Reflash(a: RecoveryAnswers, name: Name, file: Option<Bytes>): seq<Why> {
    if Good(a, name, file) then [Restore(name)] else []
  }

  /** The reflashes: every good file in that order, up to and including the first that works. */
  ghost function Reflashes(cfg: Config, a: RecoveryAnswers, f: Files): seq<Why> {
    var first := Reflash(a, CurrentBin, f.current);
    if Works(cfg, a, CurrentBin, f.current) then first
    else
      var second := first + Reflash(a, PreviousBin, f.previous);
      if Works(cfg, a, PreviousBin, f.previous) then second else second + Reflash(a, GoldenBin, f.golden)
  }

  /**
    Recovery leaves a board that responds alone; otherwise the first file that works is on the MCU and reported, or
    none works and recovery is exhausted; and exactly the good files up to there have been flashed.
   */
  ghost predicate AsTold(cfg: Config, a: RecoveryAnswers, w: World, r: Result, mcu: Mcu, flashes: seq<Why>) {
    if Responds(a.atFirst) then r == Result(true, "none", None) && mcu == w.mcu && flashes == []
    else
      && flashes == Reflashes(cfg, a, w.files)
      && match Rescue(cfg, a, w.files)
         case Some((name, image)) => r == Result(true, "reflashed", Some(name)) && mcu == Running(image)
         case None => r == Result(false, "exhausted", None)
  }

  lemma AliveIffResponds(x: Alive)
    ensures IsAlive(x) <==> Responds(x)
  {
    if x.Says? {
      assert x == Says(x.text);
    }
  }

  lemma RevivesIffWorks(cfg: Config, a: RecoveryAnswers, f: Files, name: Name)
    ensures Loadable(a, f, name) <==> Good(a, name, At(f, name))
    ensures Revives(cfg, a, f, name) <==> Works(cfg, a, name, At(f, name))
  {
    AliveIffResponds(a.alive(name));
    if At(f, name).Some? {
      var image := At(f, name).value;
      Artifact.LoadsIffArtifact(image);
      assert At(f, name) == Some(image);
    }
  }

  lemma RecoveredAsTold(cfg: Config, a: RecoveryAnswers, w: World, r: Result, mcu: Mcu, flashes: seq<Why>, k: nat)
    requires !IsAlive(a.atFirst) && Recovered(cfg, a, w.files, r, mcu, flashes, k)
    ensures AsTold(cfg, a, w, r, mcu, flashes)
  {
    var f := w.files;
    AliveIffResponds(a.atFirst);
    RevivesIffWorks(cfg, a, f, CurrentBin);
    RevivesIffWorks(cfg, a, f, PreviousBin);
    RevivesIffWorks(cfg, a, f, GoldenBin);
    assert CANDIDATES[0] == CurrentBin && CANDIDATES[1] == PreviousBin && CANDIDATES[2] == GoldenBin;
    RestoresWrittenOut(LoadableNames(a, f));
  }

  /** The loop is over its first `k` candidates, none of which came alive. */
  ghost predicate TriedInVain(cfg: Config, a: RecoveryAnswers, f: Files, before: seq<Event>, trace: seq<Event>, k: nat)
    requires k <= |CANDIDATES|
  {
    && before <= trace
    && (forall j :: 0 <= j < k ==> !Revives(cfg, a, f, CANDIDATES[j]))
    && Flashes(trace) == Flashes(before) + Restores(LoadableNames(a, f), CANDIDATES[..k])
  }

  lemma TriesInVain(cfg: Config, a: RecoveryAnswers, f: Files, before: seq<Event>, trace: seq<Event>, k: nat, now: seq<Event>)
    requires k < |CANDIDATES| && TriedInVain(cfg, a, f, before, trace, k) && trace <= now
    requires Flashes(now) == Flashes(trace) + if Loadable(a, f, CANDIDATES[k]) then [Restore(CANDIDATES[k])] else []
    ensures !Revives(cfg, a, f, CANDIDATES[k]) ==> TriedInVain(cfg, a, f, before, now, k + 1)
    ensures Revives(cfg, a, f, CANDIDATES[k]) ==>
              FirstToRevive(cfg, a, f, k) && Flashes(now) == Flashes(before) + RestoresUpTo(LoadableNames(a, f), k)
  {
    assert CANDIDATES[k] in LoadableNames(a, f) <==> Loadable(a, f, CANDIDATES[k]);
    RestoresGoOn(LoadableNames(a, f), Flashes(before), Flashes(trace), k);
  }

  method TryCandidate(dev: Device, a: RecoveryAnswers, name: Name) returns (revived: bool)
    requires dev.Valid() && IsCandidate(name) && dev.w.session.offer.None?
    modifies dev
    ensures dev.Valid() && old(dev.trace) <= dev.trace
    ensures Flashes(dev.trace) == Flashes(old(dev.trace)) + if Loadable(a, dev.w.files, name) then [Restore(name)] else []
    ensures dev.w == old(dev.w).(mcu := dev.w.mcu, session := dev.w.session) && dev.w.session.offer.None?
    ensures revived <==> Revives(dev.cfg, a, dev.w.files, name)
    ensures revived ==> dev.w.mcu == Running(At(dev.w.files, name).value)
  {
    if !Loadable(a, dev.w.files, name) {
      return false;
    }
    var flashed := FlashWith(dev, a.flash(name), At(dev.w.files, name).value, Restore(name));
    revived := flashed.Done? && IsAlive(a.alive(name));
  }

  /** `reconcile`. */
  method Reconcile(dev: Device, a: RecoveryAnswers) returns (r: Result, ghost k: nat, ghost flashes: seq<Why>)
    requires dev.Valid() && dev.w.session.offer.None?
    modifies dev
    ensures dev.Valid() && old(dev.trace) <= dev.trace && Flashes(dev.trace) == Flashes(old(dev.trace)) + flashes
    ensures dev.w == old(dev.w).(mcu := dev.w.mcu, session := dev.w.session) && dev.w.session.offer.None?
    ensures if IsAlive(a.atFirst) then r == Result(true, "none", None) && flashes == [] && dev.w == old(dev.w)
            else Recovered(dev.cfg, a, old(dev.w).files, r, dev.w.mcu, flashes, k)
    ensures AsTold(dev.cfg, a, old(dev.w), r, dev.w.mcu, flashes)
  {
    k, flashes := 0, [];
    if IsAlive(a.atFirst) {
      AliveIffResponds(a.atFirst);
      return Result(true, "none", None), k, flashes;
    }
    ghost var f := dev.w.files;
    assert Restores(LoadableNames(a, f), CANDIDATES[..0]) == [];
    var i := 0;
    while i < |CANDIDATES|
      invariant dev.Valid() && i <= |CANDIDATES| && TriedInVain(dev.cfg, a, f, old(dev.trace), dev.trace, i)
      invariant dev.w == old(dev.w).(mcu := dev.w.mcu, session := dev.w.session) && dev.w.session.offer.None?
    {
      ghost var soFar := dev.trace;
      var revived := TryCandidate(dev, a, CANDIDATES[i]);
      TriesInVain(dev.cfg, a, f, old(dev.trace), soFar, i, dev.trace);
      if revived {
        RecoveredAsTold(dev.cfg, a, old(dev.w), Result(true, "reflashed", Some(CANDIDATES[i])), dev.w.mcu,
                        RestoresUpTo(LoadableNames(a, f), i), i);
        return Result(true, "reflashed", Some(CANDIDATES[i])), i, RestoresUpTo(LoadableNames(a, f), i);
      }
      i := i + 1;
    }
    assert CANDIDATES[..i] == CANDIDATES;
    r, k, flashes := Result(false, "exhausted", None), i, RestoresUpTo(LoadableNames(a, f), i);
    RecoveredAsTold(dev.cfg, a, old(dev.w), r, dev.w.mcu, flashes, k);
  }

  /** Recovery fails if and only if the board does not respond and none of the three files works. */
  lemma ExhaustedIffNoneWorks(cfg: Config, a: RecoveryAnswers, w: World, r: Result, mcu: Mcu, flashes: seq<Why>)
    requires AsTold(cfg, a, w, r, mcu, flashes)
    ensures !r.healthy <==>
              && !Responds(a.atFirst) && !Works(cfg, a, CurrentBin, w.files.current)
              && !Works(cfg, a, PreviousBin, w.files.previous) && !Works(cfg, a, GoldenBin, w.files.golden)
    ensures r.healthy <==> r.action in {"none", "reflashed"}
  {
    assert "exhausted"[0] == 'e' && "none"[0] == 'n' && "reflashed"[0] == 'r';
  }

  /** Nothing the other candidates answer, exceptions included, can keep a golden.bin that works from its turn. */
  lemma GoldenAlwaysSaves(cfg: Config, a: RecoveryAnswers, w: World, r: Result, mcu: Mcu, flashes: seq<Why>)
    requires Works(cfg, a, GoldenBin, w.files.golden) && AsTold(cfg, a, w, r, mcu, flashes)
    ensures r.healthy
  {
    ExhaustedIffNoneWorks(cfg, a, w, r, mcu, flashes);
  }
}
