/**
  What every legal run keeps, at every point it may be cut: the flash budget, where images come from, what poison
  and attempts can be blamed on, and the watermark.
 */
module Safety {
  import opened Wrappers
  import opened StateStore
  import opened World
  import Artifact
  import Host
  import Json
  import Verify

  // ---------------------------------------------------------------------------------------------
  // Flash budget

  /** How often the staged image of `v` started being flashed. */
  function Starts(trace: seq<Event>, v: string): nat {
    if trace == [] then 0
    else Starts(Front(trace), v) + if Last(trace).FlashStarted? && Last(trace).why == ForUpdate(v) then 1 else 0
  }

  /** How often recording an attempt for `v` failed. */
  function LostAttempts(trace: seq<Event>, v: string): nat {
    if trace == [] then 0
    else LostAttempts(Front(trace), v) + if Last(trace) == Lost(RecordAttempt(v)) then 1 else 0
  }

  /** An attempt charged to `v` in this cycle and not yet spent on a flash. */
  function Unspent(s: Session, v: string): nat {
    if s.charged && s.offer.Some? && s.offer.value.version == v then 1 else 0
  }

  ghost predicate WithinBudget(w0: World, trace: seq<Event>, v: string) {
    var w := Run(w0, trace);
    && Starts(trace, v) + Unspent(w.session, v) <=
         Attempts(w.state, v) - Attempts(w0.state, v) + LostAttempts(trace, v)
    && Attempts(w0.state, v) <= Attempts(w.state, v) <= Max(Attempts(w0.state, v), MAX_ATTEMPTS)
  }

  lemma {:induction false} BudgetInvariant(cfg: Config, w0: World, trace: seq<Event>, v: string)
    requires Life(cfg, w0, trace)
    ensures WithinBudget(w0, trace, v)
  {
    if trace != [] {
      BudgetInvariant(cfg, w0, Front(trace), v);
    }
  }

  /**
    Over any run, power cuts included, the staged image of a version starts being flashed at most as often as it
    had attempts left, plus the number of times recording an attempt for it failed.
   */
  lemma FlashBudget(cfg: Config, w0: World, trace: seq<Event>, v: string)
    requires Life(cfg, w0, trace)
    ensures Starts(trace, v) <= Max(0, MAX_ATTEMPTS - Attempts(w0.state, v)) + LostAttempts(trace, v)
  {
    BudgetInvariant(cfg, w0, trace, v);
  }

  // ---------------------------------------------------------------------------------------------
  // What was found to be signed

  /**
    Step `k` of the run found the offer `u` of its cycle to be signed: at that moment a trusted key verified its
    manifest, which was within its window at the instant read from the clock and newer than the sequence on disk.
   */
  ghost predicate SignedAt(cfg: Config, w0: World, trace: seq<Event>, k: nat, u: Update) {
    && k < |trace| && trace[k].Signed? && trace[k].version == u.version
    && Run(w0, trace[..k]).session.offer == Some(u)
    && Verify.Genuine(cfg.trust, u.manifest, Run(w0, trace[..k]).state.sequence, trace[k].now)
  }

  ghost predicate WasSigned(cfg: Config, w0: World, trace: seq<Event>, u: Update) {
    exists k: nat :: SignedAt(cfg, w0, trace, k, u)
  }

  lemma SignedStays(cfg: Config, w0: World, trace: seq<Event>, u: Update)
    requires trace != [] && WasSigned(cfg, w0, Front(trace), u)
    ensures WasSigned(cfg, w0, trace, u)
  {
    var k: nat :| SignedAt(cfg, w0, Front(trace), k, u);
    assert Front(trace)[..k] == trace[..k];
    assert SignedAt(cfg, w0, trace, k, u);
  }

  lemma SignedJustNow(cfg: Config, w0: World, trace: seq<Event>, u: Update)
    requires Life(cfg, w0, trace) && trace != [] && Last(trace).Signed? && Run(w0, Front(trace)).session.offer == Some(u)
    ensures SignedAt(cfg, w0, trace, |trace| - 1, u)
  {
    Verify.AuthenticIffGenuine(cfg.trust, u.manifest, Run(w0, Front(trace)).state.sequence, Last(trace).now);
  }

  ghost predicate SignedOffer(cfg: Config, w0: World, trace: seq<Event>, s: Session) {
    s.facts.signed ==> s.offer.Some? && WasSigned(cfg, w0, trace, s.offer.value)
  }

  lemma {:induction false} SignedOfferInvariant(cfg: Config, w0: World, trace: seq<Event>)
    requires Life(cfg, w0, trace)
    ensures SignedOffer(cfg, w0, trace, Run(w0, trace).session)
  {
    if trace != [] {
      SignedOfferInvariant(cfg, w0, Front(trace));
      var w := Run(w0, Front(trace));
      if Last(trace).Signed? {
        SignedJustNow(cfg, w0, trace, w.session.offer.value);
      } else if w.session.facts.signed && !StartsOver(Last(trace)) {
        SignedStays(cfg, w0, trace, w.session.offer.value);
      }
    }
  }

  // ---------------------------------------------------------------------------------------------
  // Where images come from

  ghost predicate HasAccepted(trace: seq<Event>, v: string, image: Bytes) {
    trace != [] && (Last(trace) == AcceptedImage(v, image) || HasAccepted(Front(trace), v, image))
  }

  ghost predicate HasFlashed(trace: seq<Event>, v: string, image: Bytes) {
    && trace != []
    && (|| HasFlashed(Front(trace), v, image)
        || (Last(trace) == FlashStarted(image, ForUpdate(v)) && HasAccepted(Front(trace), v, image)))
  }

  /** `image` was accepted for `v`, then flashed for it, then found healthy under it, in that order. */
  ghost predicate Vouched(trace: seq<Event>, v: string, image: Bytes) {
    && trace != []
    && (|| Vouched(Front(trace), v, image)
        || (Last(trace) == Healthy(v, image) && HasFlashed(Front(trace), v, image)))
  }

  ghost predicate Provisioned(w0: World, image: Bytes) {
    Some(image) == w0.files.current || Some(image) == w0.files.previous || Some(image) == w0.files.golden
  }

  /**
    The image loads, and some cycle of this run was offered it as `v`, with a manifest that was authentic when it was
    checked, fits this board, and declares the image's digest.
   */
  ghost predicate Endorsed(cfg: Config, w0: World, trace: seq<Event>, v: string, image: Bytes) {
    && Artifact.Loads(image)
    && exists u: Update ::
         && WasSigned(cfg, w0, trace, u) && u.version == v && Verify.NamesBoard(cfg.trust, u.manifest, cfg.target)
         && Verify.Matches(cfg.trust, u.manifest, "artifact", Some(image))
  }

  ghost predicate Known(w0: World, trace: seq<Event>, image: Option<Bytes>) {
    image.Some? ==> Provisioned(w0, image.value) || exists v :: Vouched(trace, v, image.value)
  }

  /** Everything the session has established about the offer and the MCU is shown by the trace. */
  ghost predicate Backed(trace: seq<Event>, v: string, f: Facts) {
    && (f.accepted.Some? ==> f.signed && HasAccepted(trace, v, f.accepted.value))
    && (f.flashed ==> f.accepted.Some? && HasFlashed(trace, v, f.accepted.value))
    && (f.healthy ==> f.accepted.Some? && Vouched(trace, v, f.accepted.value))
    && (f.flashing.Some? && f.flashing.value.1.ForUpdate? ==>
          f.accepted == Some(f.flashing.value.0) && HasFlashed(trace, v, f.accepted.value))
  }

  ghost predicate SessionBacked(trace: seq<Event>, s: Session) {
    if s.offer.Some? then Backed(trace, s.offer.value.version, s.facts)
    else
      && !s.facts.signed && s.facts.accepted.None? && !s.facts.flashed && !s.facts.healthy
      && (s.facts.flashing.Some? ==> s.facts.flashing.value.1.Restore?)
  }

  ghost predicate FilesKnown(w0: World, trace: seq<Event>, f: Files) {
    && Known(w0, trace, f.current) && Known(w0, trace, f.previous) && f.golden == w0.files.golden
  }

  /** What a trace has shown once, every longer trace still shows. */
  lemma ShownStays(trace: seq<Event>, v: string, image: Bytes)
    requires trace != []
    ensures HasAccepted(Front(trace), v, image) ==> HasAccepted(trace, v, image)
    ensures HasFlashed(Front(trace), v, image) ==> HasFlashed(trace, v, image)
    ensures Vouched(Front(trace), v, image) ==> Vouched(trace, v, image)
  {
  }

  lemma KnownStays(w0: World, trace: seq<Event>, image: Option<Bytes>)
    requires trace != [] && Known(w0, Front(trace), image)
    ensures Known(w0, trace, image)
  {
    if image.Some? && !Provisioned(w0, image.value) {
      var v :| Vouched(Front(trace), v, image.value);
      ShownStays(trace, v, image.value);
    }
  }

  lemma BackedStays(trace: seq<Event>, v: string, f: Facts)
    requires trace != [] && Backed(Front(trace), v, f)
    ensures Backed(trace, v, f)
  {
    if f.accepted.Some? {
      ShownStays(trace, v, f.accepted.value);
    }
  }

  lemma AcceptStep(cfg: Config, w: World, trace: seq<Event>, v: string, image: Bytes)
    requires trace != [] && Last(trace) == AcceptedImage(v, image) && MayAccept(cfg, w, v, image)
    requires Backed(trace, v, w.session.facts)
    ensures Backed(trace, v, w.session.facts.(accepted := Some(image)))
  {
  }

  lemma FlashStep(cfg: Config, w: World, trace: seq<Event>, v: string, image: Bytes, why: Why)
    requires trace != [] && Last(trace) == FlashStarted(image, why) && MayFlash(cfg, w, image, why)
    requires w.session.offer.Some? && w.session.offer.value.version == v
    requires Backed(Front(trace), v, w.session.facts) && Backed(trace, v, w.session.facts)
    ensures Backed(trace, v, w.session.facts.(flashing := Some((image, why))))
  {
  }

  lemma HealthyStep(w: World, trace: seq<Event>, v: string, image: Bytes)
    requires trace != [] && Last(trace) == Healthy(v, image) && MayBeHealthy(w, v, image)
    requires Backed(Front(trace), v, w.session.facts) && Backed(trace, v, w.session.facts)
    ensures Backed(trace, v, w.session.facts.(healthy := true))
  {
  }

  lemma FactsStep(cfg: Config, w: World, trace: seq<Event>, v: string)
    requires trace != [] && Backed(Front(trace), v, w.session.facts)
    requires Legal(cfg, w, Last(trace)) && !StartsOver(Last(trace))
    requires w.session.offer.Some? && w.session.offer.value.version == v
    ensures Backed(trace, v, FactsAfter(w.session.facts, Last(trace)))
  {
    BackedStays(trace, v, w.session.facts);
    match Last(trace) {
      case AcceptedImage(_, image) => AcceptStep(cfg, w, trace, v, image);
      case FlashStarted(image, why) => FlashStep(cfg, w, trace, v, image, why);
      case Healthy(_, image) => HealthyStep(w, trace, v, image);
      case _ =>
    }
  }

  lemma SessionStep(cfg: Config, w: World, trace: seq<Event>)
    requires trace != [] && SessionBacked(Front(trace), w.session) && Legal(cfg, w, Last(trace))
    ensures SessionBacked(trace, Step(w, Last(trace)).session)
  {
    if !StartsOver(Last(trace)) && w.session.offer.Some? {
      FactsStep(cfg, w, trace, w.session.offer.value.version);
    }
  }

  /** What a step can put at the names recovery reaches for. */
  lemma ImageSources(cfg: Config, w: World, e: Event)
    requires Legal(cfg, w, e)
    ensures var f := Step(w, e).files;
            && f.golden == w.files.golden && f.previous in {w.files.previous, w.files.current}
            && (f.current in {None, w.files.current} || (f.current == w.session.facts.accepted && w.session.facts.healthy))
  {
  }

  lemma FilesStep(cfg: Config, w0: World, w: World, trace: seq<Event>)
    requires trace != [] && SessionBacked(Front(trace), w.session) && Legal(cfg, w, Last(trace))
    requires FilesKnown(w0, Front(trace), w.files)
    ensures FilesKnown(w0, trace, Step(w, Last(trace)).files)
  {
    ImageSources(cfg, w, Last(trace));
    KnownStays(w0, trace, w.files.current);
    KnownStays(w0, trace, w.files.previous);
    if w.session.facts.healthy {
      assert Vouched(Front(trace), w.session.offer.value.version, w.session.facts.accepted.value);
      KnownStays(w0, trace, w.session.facts.accepted);
    }
  }

  lemma {:induction false} LineageInvariant(cfg: Config, w0: World, trace: seq<Event>)
    requires Life(cfg, w0, trace)
    ensures SessionBacked(trace, Run(w0, trace).session)
    ensures FilesKnown(w0, trace, Run(w0, trace).files)
  {
    if trace != [] {
      LineageInvariant(cfg, w0, Front(trace));
      SessionStep(cfg, Run(w0, Front(trace)), trace);
      FilesStep(cfg, w0, Run(w0, Front(trace)), trace);
    }
  }

  /**
    At every point of every run, each image the rollback loop or the boot reconciler can reach for is whole, and is
    one that was provisioned or that passed verification, load and post-flash health under its own version.
   */
  lemma ImageLineage(cfg: Config, w0: World, trace: seq<Event>, k: nat)
    requires Life(cfg, w0, trace) && k <= |trace|
    ensures FilesKnown(w0, trace[..k], Run(w0, trace[..k]).files)
  {
    PrefixIsLegal(cfg, w0, trace, k);
    LineageInvariant(cfg, w0, trace[..k]);
  }

  lemma AcceptedIsEndorsed(cfg: Config, w0: World, trace: seq<Event>, v: string, image: Bytes)
    requires Life(cfg, w0, trace) && MayAccept(cfg, Run(w0, trace), v, image)
    ensures Endorsed(cfg, w0, trace, v, image)
  {
    SignedOfferInvariant(cfg, w0, trace);
    var u := Run(w0, trace).session.offer.value;
    Verify.TargetAcceptedIffNamesBoard(cfg.trust, u.manifest, cfg.target);
    Verify.PayloadVerdict(cfg.trust, u.manifest, "artifact", Some(image));
    assert WasSigned(cfg, w0, trace, u);
  }

  lemma EndorsedStays(cfg: Config, w0: World, trace: seq<Event>, v: string, image: Bytes)
    requires trace != [] && Endorsed(cfg, w0, Front(trace), v, image)
    ensures Endorsed(cfg, w0, trace, v, image)
  {
    var u :| && WasSigned(cfg, w0, Front(trace), u) && u.version == v
             && Verify.NamesBoard(cfg.trust, u.manifest, cfg.target)
             && Verify.Matches(cfg.trust, u.manifest, "artifact", Some(image));
    SignedStays(cfg, w0, trace, u);
  }

  lemma {:induction false} AcceptedWasEndorsed(cfg: Config, w0: World, trace: seq<Event>, v: string, image: Bytes)
    requires Life(cfg, w0, trace) && HasAccepted(trace, v, image)
    ensures Endorsed(cfg, w0, trace, v, image)
  {
    if Last(trace) == AcceptedImage(v, image) {
      AcceptedIsEndorsed(cfg, w0, Front(trace), v, image);
    } else {
      AcceptedWasEndorsed(cfg, w0, Front(trace), v, image);
    }
    EndorsedStays(cfg, w0, trace, v, image);
  }

  lemma {:induction false} FlashedWasEndorsed(cfg: Config, w0: World, trace: seq<Event>, v: string, image: Bytes)
    requires Life(cfg, w0, trace) && HasFlashed(trace, v, image)
    ensures Endorsed(cfg, w0, trace, v, image)
  {
    if HasFlashed(Front(trace), v, image) {
      FlashedWasEndorsed(cfg, w0, Front(trace), v, image);
    } else {
      AcceptedWasEndorsed(cfg, w0, Front(trace), v, image);
    }
    EndorsedStays(cfg, w0, trace, v, image);
  }

  lemma {:induction false} VouchedWasEndorsed(cfg: Config, w0: World, trace: seq<Event>, v: string, image: Bytes)
    requires Life(cfg, w0, trace) && Vouched(trace, v, image)
    ensures Endorsed(cfg, w0, trace, v, image)
  {
    if Vouched(Front(trace), v, image) {
      VouchedWasEndorsed(cfg, w0, Front(trace), v, image);
    } else {
      FlashedWasEndorsed(cfg, w0, Front(trace), v, image);
    }
    EndorsedStays(cfg, w0, trace, v, image);
  }

  /**
    Every image the agent ever starts flashing as an update loads, and was endorsed before under that very version;
    every image that is reflashed, by the agent or the reconciler, loads, and was endorsed before or provisioned.
   */
  lemma EveryFlashIsTrusted(cfg: Config, w0: World, trace: seq<Event>, k: nat)
    requires Life(cfg, w0, trace) && k < |trace| && trace[k].FlashStarted?
    ensures Artifact.Loads(trace[k].image)
    ensures match trace[k].why
            case ForUpdate(v) => Endorsed(cfg, w0, trace[..k], v, trace[k].image)
            case Restore(_) => Provisioned(w0, trace[k].image) || exists v :: Endorsed(cfg, w0, trace[..k], v, trace[k].image)
  {
    EventWasLegal(cfg, w0, trace, k);
    var past, image := trace[..k], trace[k].image;
    LineageInvariant(cfg, w0, past);
    match trace[k].why {
      case ForUpdate(v) =>
        AcceptedWasEndorsed(cfg, w0, past, v, image);
      case Restore(_) =>
        if !Provisioned(w0, image) {
          var v :| Vouched(past, v, image);
          VouchedWasEndorsed(cfg, w0, past, v, image);
        }
    }
  }

  /** Host trees stay well formed at every point of every run. */
  lemma {:induction false} HostStaysSound(cfg: Config, w0: World, trace: seq<Event>)
    requires Life(cfg, w0, trace) && Host.AllSound(w0.host)
    ensures Host.AllSound(Run(w0, trace).host)
  {
    if trace != [] {
      HostStaysSound(cfg, w0, Front(trace));
    }
  }

  // ---------------------------------------------------------------------------------------------
  // Poison and attempts

  /** Some manifest offered as `v` passed signature, window and sequence. */
  ghost predicate HasSigned(trace: seq<Event>, v: string) {
    trace != [] && ((Last(trace).Signed? && Last(trace).version == v) || HasSigned(Front(trace), v))
  }

  ghost predicate Blamed(w0: World, trace: seq<Event>, v: string) {
    var w := Run(w0, trace);
    && (w.session.facts.signed && w.session.offer.Some? && w.session.offer.value.version == v ==> HasSigned(trace, v))
    && (Attempts(w.state, v) != Attempts(w0.state, v) ==> HasSigned(trace, v))
    && (v in w.state.poisoned ==> v in w0.state.poisoned || Attempts(w0.state, v) >= MAX_ATTEMPTS || HasSigned(trace, v))
  }

  /** One step holds something against `v` only if its offer has been found signed, or if it was capped already. */
  lemma BlameStep(cfg: Config, w: World, e: Event, v: string)
    requires Legal(cfg, w, e)
    ensures var signed := w.session.facts.signed && w.session.offer.Some? && w.session.offer.value.version == v;
            && (Attempts(Step(w, e).state, v) != Attempts(w.state, v) ==> signed)
            && (v in Step(w, e).state.poisoned ==> signed || v in w.state.poisoned || Attempts(w.state, v) >= MAX_ATTEMPTS)
  {
  }

  lemma SignStep(cfg: Config, w: World, e: Event, v: string)
    requires Legal(cfg, w, e)
    ensures var s := Step(w, e).session;
            s.facts.signed && s.offer.Some? && s.offer.value.version == v ==>
              || (w.session.facts.signed && w.session.offer == s.offer)
              || (e.Signed? && e.version == v)
  {
  }

  /**
    A version gains an attempt, or becomes poisoned, only if a manifest naming it passed signature, window and
    sequence - or if it was capped to begin with.
   */
  lemma {:induction false} PoisonProvenance(cfg: Config, w0: World, trace: seq<Event>, v: string)
    requires Life(cfg, w0, trace)
    ensures Blamed(w0, trace, v)
  {
    if trace != [] {
      PoisonProvenance(cfg, w0, Front(trace), v);
      BlameStep(cfg, Run(w0, Front(trace)), Last(trace), v);
      SignStep(cfg, Run(w0, Front(trace)), Last(trace), v);
    }
  }

  lemma {:induction false} OfferWasMade(cfg: Config, w0: World, trace: seq<Event>)
    requires Life(cfg, w0, trace) && Run(w0, trace).session.offer.Some?
    ensures Cycle(Run(w0, trace).session.offer) in trace
  {
    if !StartsOver(Last(trace)) {
      OfferWasMade(cfg, w0, Front(trace));
    }
  }

  /** A step that found an offer signed was in a cycle that had been offered it. */
  lemma SignedWasOffered(cfg: Config, w0: World, trace: seq<Event>, k: nat, u: Update)
    requires Life(cfg, w0, trace) && SignedAt(cfg, w0, trace, k, u)
    ensures Cycle(Some(u)) in trace[..k]
  {
    PrefixIsLegal(cfg, w0, trace, k);
    OfferWasMade(cfg, w0, trace[..k]);
  }

  lemma {:induction false} SomeStepSigned(cfg: Config, w0: World, trace: seq<Event>, v: string) returns (k: nat, u: Update)
    requires Life(cfg, w0, trace) && HasSigned(trace, v)
    ensures SignedAt(cfg, w0, trace, k, u) && u.version == v
  {
    if Last(trace).Signed? && Last(trace).version == v {
      k, u := |trace| - 1, Run(w0, Front(trace)).session.offer.value;
      SignedJustNow(cfg, w0, trace, u);
    } else {
      k, u := SomeStepSigned(cfg, w0, Front(trace), v);
      assert Front(trace)[..k] == trace[..k];
    }
  }

  /**
    What `HasSigned` stands for: at some step the cycle's offer was `v`, and its manifest passed signature, the window
    at the instant read from the clock, and the sequence check against the sequence on disk at that step.
   */
  lemma SignedMeansAuthentic(cfg: Config, w0: World, trace: seq<Event>, v: string)
    requires Life(cfg, w0, trace) && HasSigned(trace, v)
    ensures exists k: nat, u: Update ::
              && SignedAt(cfg, w0, trace, k, u) && u.version == v && Cycle(Some(u)) in trace[..k]
              && (FromManifest(u) && u.manifest["version"].Str? ==> u.manifest["version"] == Json.Str(v))
  {
    var k, u := SomeStepSigned(cfg, w0, trace, v);
    SignedWasOffered(cfg, w0, trace, k, u);
  }

  /**
    A version that gained an attempt or became poisoned, and was not capped to begin with, was named by a manifest
    that some cycle was offered and that was authentic at the step that checked it - in its own signed version field,
    when the offer was built from the manifest as every source does.
   */
  lemma BlamedByASignedManifest(cfg: Config, w0: World, trace: seq<Event>, v: string)
    requires Life(cfg, w0, trace) && v !in w0.state.poisoned && Attempts(w0.state, v) < MAX_ATTEMPTS
    requires v in Run(w0, trace).state.poisoned || Attempts(Run(w0, trace).state, v) != Attempts(w0.state, v)
    ensures exists k: nat, u: Update ::
              && SignedAt(cfg, w0, trace, k, u) && u.version == v && Cycle(Some(u)) in trace[..k]
              && (FromManifest(u) && u.manifest["version"].Str? ==> u.manifest["version"] == Json.Str(v))
  {
    PoisonProvenance(cfg, w0, trace, v);
    SignedMeansAuthentic(cfg, w0, trace, v);
  }

  /** The offer whose payload an event fetches, or the version whose staged image it starts flashing. */
  ghost predicate Takes(w: World, e: Event, v: string) {
    || (e.Fetched? && w.session.offer.Some? && w.session.offer.value.version == v)
    || (e.FlashStarted? && e.why == ForUpdate(v))
  }

  lemma PoisonStep(cfg: Config, w: World, e: Event, v: string)
    requires Legal(cfg, w, e) && v in w.state.poisoned
    ensures v in Step(w, e).state.poisoned && !Takes(w, e, v)
  {
  }

  lemma {:induction false} PoisonStays(cfg: Config, w0: World, trace: seq<Event>, k: nat, v: string)
    requires Life(cfg, w0, trace) && k <= |trace| && v in Run(w0, trace[..k]).state.poisoned
    ensures v in Run(w0, trace).state.poisoned
  {
    if k == |trace| {
      assert trace[..k] == trace;
    } else {
      assert Front(trace)[..k] == trace[..k];
      PoisonStays(cfg, w0, Front(trace), k, v);
      PoisonStep(cfg, Run(w0, Front(trace)), Last(trace), v);
    }
  }

  /** Once poisoned, always poisoned, and never fetched nor flashed as an update again, in this cycle or any later one. */
  lemma PoisonIsForever(cfg: Config, w0: World, trace: seq<Event>, k: nat, v: string)
    requires Life(cfg, w0, trace) && k <= |trace| && v in Run(w0, trace[..k]).state.poisoned
    ensures v in Run(w0, trace).state.poisoned
    ensures forall j :: k <= j < |trace| ==> !Takes(Run(w0, trace[..j]), trace[j], v)
  {
    PoisonStays(cfg, w0, trace, k, v);
    forall j | k <= j < |trace|
      ensures !Takes(Run(w0, trace[..j]), trace[j], v)
    {
      EventWasLegal(cfg, w0, trace, j);
      assert trace[..j][..k] == trace[..k];
      PoisonStays(cfg, w0, trace[..j], k, v);
      PoisonStep(cfg, Run(w0, trace[..j]), trace[j], v);
    }
  }

  // ---------------------------------------------------------------------------------------------
  // The watermark

  lemma WatermarkStep(cfg: Config, w: World, e: Event)
    requires Legal(cfg, w, e)
    ensures Watermark(Step(w, e).state) >= Watermark(w.state)
    ensures e.Stored? && (e.write.Commit? || e.write.Stamp?) ==>
              Watermark(Step(w, e).state) == e.write.sequence > Watermark(w.state)
  {
  }

  /** A cycle that reported VERIFIED has the watermark at its offer's sequence or above, for good. */
  lemma {:induction false} VerifiedMeansReached(cfg: Config, w0: World, trace: seq<Event>)
    requires Life(cfg, w0, trace) && Run(w0, trace).session.status == Some(VERIFIED)
    ensures Run(w0, trace).session.offer.Some?
    ensures Watermark(Run(w0, trace).state) >= Run(w0, trace).session.offer.value.sequence
  {
    WatermarkStep(cfg, Run(w0, Front(trace)), Last(trace));
    if Last(trace) != Reported(VERIFIED) {
      VerifiedMeansReached(cfg, w0, Front(trace));
    }
  }

  /** The watermark never decreases over any run, whatever is cut off its end. */
  lemma {:induction false} WatermarkNeverFalls(cfg: Config, w0: World, trace: seq<Event>, k: nat)
    requires Life(cfg, w0, trace) && k <= |trace|
    ensures Watermark(Run(w0, trace[..k]).state) <= Watermark(Run(w0, trace).state)
  {
    if k == |trace| {
      assert trace[..k] == trace;
    } else {
      WatermarkNeverFalls(cfg, w0, Front(trace), k);
      assert Front(trace)[..k] == trace[..k];
      WatermarkStep(cfg, Run(w0, Front(trace)), Last(trace));
    }
  }

  ghost predicate Advances(e: Event) {
    e.Stored? && (e.write.Commit? || e.write.Stamp?)
  }

  lemma NeverFallsBetween(cfg: Config, w0: World, trace: seq<Event>, i: nat, j: nat)
    requires Life(cfg, w0, trace) && i <= j <= |trace|
    ensures Watermark(Run(w0, trace[..i]).state) <= Watermark(Run(w0, trace[..j]).state)
  {
    PrefixIsLegal(cfg, w0, trace, j);
    WatermarkNeverFalls(cfg, w0, trace[..j], i);
    assert trace[..j][..i] == trace[..i];
  }

  lemma Advanced(cfg: Config, w0: World, trace: seq<Event>, i: nat)
    requires Life(cfg, w0, trace) && i < |trace| && Advances(trace[i])
    ensures Watermark(Run(w0, trace[..i]).state) < trace[i].write.sequence == Watermark(Run(w0, trace[..i + 1]).state)
  {
    EventWasLegal(cfg, w0, trace, i);
    WatermarkStep(cfg, Run(w0, trace[..i]), trace[i]);
  }

  /** What a persisted commit or stamp raises the watermark to, it never falls below again. */
  lemma AdvanceStays(cfg: Config, w0: World, trace: seq<Event>, i: nat, j: nat)
    requires Life(cfg, w0, trace) && i < j <= |trace| && Advances(trace[i])
    ensures Watermark(Run(w0, trace[..i]).state) < trace[i].write.sequence <= Watermark(Run(w0, trace[..j]).state)
  {
    Advanced(cfg, w0, trace, i);
    NeverFallsBetween(cfg, w0, trace, i + 1, j);
  }

  lemma StartsBelow(cfg: Config, w0: World, trace: seq<Event>, k: nat)
    requires Life(cfg, w0, trace) && k <= |trace|
    ensures Watermark(w0.state) <= Watermark(Run(w0, trace[..k]).state)
  {
    NeverFallsBetween(cfg, w0, trace, 0, k);
    assert trace[..0] == [];
  }

  /** Persisted commits and verify-only stamps carry strictly increasing sequences, each above everything before it. */
  lemma SequencesIncrease(cfg: Config, w0: World, trace: seq<Event>, i: nat, j: nat)
    requires Life(cfg, w0, trace) && i < j < |trace| && Advances(trace[i]) && Advances(trace[j])
    ensures Watermark(w0.state) < trace[i].write.sequence < trace[j].write.sequence
  {
    StartsBelow(cfg, w0, trace, i);
    AdvanceStays(cfg, w0, trace, i, j);
    AdvanceStays(cfg, w0, trace, j, j + 1);
  }

  /**
    Nothing is ever fetched for an offer at or below the watermark of any earlier moment, the start of the life and
    every commit or stamp that got onto the disk before included.
   */
  lemma NothingOldIsFetched(cfg: Config, w0: World, trace: seq<Event>, i: nat, j: nat)
    requires Life(cfg, w0, trace) && i <= j < |trace| && trace[j].Fetched?
    ensures Run(w0, trace[..j]).session.offer.Some?
    ensures Run(w0, trace[..j]).session.offer.value.sequence > Watermark(Run(w0, trace[..i]).state)
  {
    EventWasLegal(cfg, w0, trace, j);
    NeverFallsBetween(cfg, w0, trace, i, j);
  }

  lemma AdvanceWasOffered(cfg: Config, w0: World, trace: seq<Event>, k: nat)
    requires Life(cfg, w0, trace) && k < |trace| && Advances(trace[k])
    ensures var s := Run(w0, trace[..k]).session;
            && s.offer.Some? && s.facts.signed
            && s.offer.value.version == trace[k].write.version && s.offer.value.sequence == trace[k].write.sequence
    ensures Life(cfg, w0, trace[..k])
  {
    EventWasLegal(cfg, w0, trace, k);
    LineageInvariant(cfg, w0, trace[..k]);
  }

  lemma SignedSequence(cfg: Config, w0: World, trace: seq<Event>, u: Update)
    requires WasSigned(cfg, w0, trace, u) && FromManifest(u)
    ensures u.manifest["sequence"] == Json.Int(u.sequence)
  {
    var k: nat :| SignedAt(cfg, w0, trace, k, u);
  }

  /**
    What is persisted is the sequence of the offer the cycle was made, whose manifest was authentic when this run
    checked it - and that manifest's own sequence, when the offer was built from it as every source does.
   */
  lemma CommitCarriesSignedSequence(cfg: Config, w0: World, trace: seq<Event>, k: nat)
    requires Life(cfg, w0, trace) && k < |trace| && Advances(trace[k])
    ensures Run(w0, trace[..k]).session.offer.Some?
    ensures var u := Run(w0, trace[..k]).session.offer.value;
            && WasSigned(cfg, w0, trace[..k], u) && Cycle(Some(u)) in trace[..k]
            && u.version == trace[k].write.version && u.sequence == trace[k].write.sequence
            && (FromManifest(u) ==> u.manifest["sequence"] == Json.Int(trace[k].write.sequence))
  {
    AdvanceWasOffered(cfg, w0, trace, k);
    SignedOfferInvariant(cfg, w0, trace[..k]);
    OfferWasMade(cfg, w0, trace[..k]);
    var u := Run(w0, trace[..k]).session.offer.value;
    if FromManifest(u) {
      SignedSequence(cfg, w0, trace[..k], u);
    }
  }

  // ---------------------------------------------------------------------------------------------
  // Verify-only mode, and the phase on disk

  /** In verify-only mode a cycle never gets as far as the board. */
  predicate NeverPastVerify(s: Session) {
    && s.phase in {None, Some(Idle), Some(Downloading), Some(Verifying), Some(Rejected)}
    && !s.facts.flashed && !s.facts.healthy && !s.replaced && !s.kept && s.status != Some(COMMITTED)
    && (s.facts.flashing.Some? ==> s.offer.None? && s.facts.flashing.value.1.Restore?)
  }

  predicate SameDevice(w: World, x: World) {
    && x.files.current == w.files.current && x.files.previous == w.files.previous && x.files.golden == w.files.golden
    && x.host == w.host && x.state.sequence == w.state.sequence
    && x.state.committedVersion == w.state.committedVersion && x.state.previousVersion == w.state.previousVersion
  }

  lemma VerifyOnlyStep(cfg: Config, w: World, e: Event)
    requires cfg.noFlash && Legal(cfg, w, e) && NeverPastVerify(w.session)
    ensures NeverPastVerify(Step(w, e).session) && SameDevice(w, Step(w, e))
    ensures w.session.offer.Some? ==> Step(w, e).mcu == w.mcu && !e.FlashStarted?
  {
  }

  /**
    Over any run in verify-only mode, power cuts included, no image file, no host tree, and neither the committed
    sequence nor a recorded version ever changes.
   */
  lemma {:induction false} VerifyOnlyChangesNothing(cfg: Config, w0: World, trace: seq<Event>)
    requires cfg.noFlash && Life(cfg, w0, trace)
    ensures NeverPastVerify(Run(w0, trace).session) && SameDevice(w0, Run(w0, trace))
  {
    if trace != [] {
      VerifyOnlyChangesNothing(cfg, w0, Front(trace));
      VerifyOnlyStep(cfg, Run(w0, Front(trace)), Last(trace));
    }
  }

  /** And the MCU is touched by the boot reconciler alone: no flash starts, and nothing is erased, during a cycle. */
  lemma VerifyOnlyKeepsMcu(cfg: Config, w0: World, trace: seq<Event>, k: nat)
    requires cfg.noFlash && Life(cfg, w0, trace) && k < |trace| && Run(w0, trace[..k]).session.offer.Some?
    ensures !trace[k].FlashStarted? && Run(w0, trace[..k + 1]).mcu == Run(w0, trace[..k]).mcu
  {
    EventWasLegal(cfg, w0, trace, k);
    VerifyOnlyChangesNothing(cfg, w0, trace[..k]);
    VerifyOnlyStep(cfg, Run(w0, trace[..k]), trace[k]);
  }

  /** A phase was written, or failed to be. */
  predicate SetsPhase(e: Event) {
    (e.Stored? || e.Lost?) && (e.write.SetPhase? || e.write.Commit?)
  }

  /** Where in the trace the current cycle last tried to write a phase. */
  function LastSet(trace: seq<Event>): Option<nat> {
    if trace == [] || StartsOver(Last(trace)) then None
    else if SetsPhase(Last(trace)) then Some(|trace| - 1)
    else LastSet(Front(trace))
  }

  /**
    The phase on disk is the last one the cycle set exactly if that one write got through, or found the same phase
    there already; what became of any other write does not matter.
   */
  lemma {:induction false} PhaseOnDisk(cfg: Config, w0: World, trace: seq<Event>)
    requires Life(cfg, w0, trace) && Run(w0, trace).session.phase.Some?
    ensures LastSet(trace).Some? && LastSet(trace).value < |trace|
    ensures var k, p := LastSet(trace).value, Run(w0, trace).session.phase.value;
            Run(w0, trace).state.phase == if trace[k].Stored? then p else Run(w0, trace[..k]).state.phase
  {
    if !SetsPhase(Last(trace)) {
      PhaseOnDisk(cfg, w0, Front(trace));
      assert Front(trace)[..LastSet(trace).value] == trace[..LastSet(trace).value];
    }
  }

  // ---------------------------------------------------------------------------------------------
  // Version labels

  /** Post-flash health never passes an image under a version it does not report; `fw` is what an image reports. */
  ghost predicate Honest(fw: Bytes -> string, trace: seq<Event>) {
    trace != [] ==> Honest(fw, Front(trace)) && (Last(trace).Healthy? ==> fw(Last(trace).image) == Last(trace).version)
  }

  /** An image file has been replaced in this cycle, and the commit that records it is not on disk yet. */
  ghost predicate InWindow(trace: seq<Event>) {
    && trace != []
    && !StartsOver(Last(trace)) && !(Last(trace).Stored? && Last(trace).write.Commit?)
    && (Last(trace).Replaced? || InWindow(Front(trace)))
  }

  /** No cycle ended inside that window: no copy or save of a commit failed, and no power cut fell between them. */
  ghost predicate CleanCommits(trace: seq<Event>) {
    trace != [] ==> CleanCommits(Front(trace)) && !(StartsOver(Last(trace)) && InWindow(Front(trace)))
  }

  ghost predicate Labelled(fw: Bytes -> string, image: Option<Bytes>, name: Option<string>) {
    image.Some? && name.Some? ==> fw(image.value) == name.value
  }

  ghost predicate LabelsTrackFiles(fw: Bytes -> string, w: World) {
    && Labelled(fw, w.files.current, w.state.committedVersion)
    && Labelled(fw, w.files.previous, w.state.previousVersion)
  }

  /** Inside the window the labels are one commit behind the files. */
  ghost predicate LabelsBehind(fw: Bytes -> string, w: World) {
    var s := w.session;
    && s.offer.Some? && s.facts.healthy && (s.kept || s.replaced)
    && Labelled(fw, w.files.previous, if s.kept then w.state.committedVersion else w.state.previousVersion)
    && Labelled(fw, w.files.current, if s.replaced then Some(s.offer.value.version) else w.state.committedVersion)
    && (s.replaced ==> w.files.current.Some?) && (s.kept ==> w.files.previous.Some?)
  }

  ghost predicate LabelsSettled(fw: Bytes -> string, w: World) {
    && LabelsTrackFiles(fw, w) && (w.session.kept ==> w.session.replaced)
    && (w.session.replaced ==> w.session.offer.Some? && Watermark(w.state) >= w.session.offer.value.sequence)
  }

  ghost predicate HealthyIsHonest(fw: Bytes -> string, s: Session) {
    s.facts.healthy ==>
      && s.offer.Some? && s.facts.accepted.Some? && s.facts.flashed
      && fw(s.facts.accepted.value) == s.offer.value.version
  }

  lemma HonestStep(cfg: Config, fw: Bytes -> string, w: World, e: Event)
    requires HealthyIsHonest(fw, w.session) && Legal(cfg, w, e)
    requires e.Healthy? ==> fw(e.image) == e.version
    ensures HealthyIsHonest(fw, Step(w, e).session)
  {
  }

  lemma {:induction false} LabelInvariant(cfg: Config, fw: Bytes -> string, w0: World, trace: seq<Event>)
    requires Life(cfg, w0, trace) && Honest(fw, trace) && CleanCommits(trace) && LabelsTrackFiles(fw, w0)
    ensures HealthyIsHonest(fw, Run(w0, trace).session)
    ensures if InWindow(trace) then LabelsBehind(fw, Run(w0, trace)) else LabelsSettled(fw, Run(w0, trace))
  {
    if trace != [] {
      LabelInvariant(cfg, fw, w0, Front(trace));
      var w := Run(w0, Front(trace));
      HonestStep(cfg, fw, w, Last(trace));
      if InWindow(Front(trace)) {
        LabelsInsideWindow(cfg, fw, w, Last(trace));
      } else {
        LabelsOutsideWindow(cfg, fw, w, Last(trace));
      }
    }
  }

  lemma LabelsInsideWindow(cfg: Config, fw: Bytes -> string, w: World, e: Event)
    requires LabelsBehind(fw, w) && HealthyIsHonest(fw, w.session) && Legal(cfg, w, e) && !StartsOver(e)
    ensures if e.Stored? && e.write.Commit? then LabelsSettled(fw, Step(w, e)) else LabelsBehind(fw, Step(w, e))
  {
  }

  lemma LabelsOutsideWindow(cfg: Config, fw: Bytes -> string, w: World, e: Event)
    requires LabelsSettled(fw, w) && HealthyIsHonest(fw, w.session) && Legal(cfg, w, e)
    ensures if e.Replaced? then LabelsBehind(fw, Step(w, e)) else LabelsSettled(fw, Step(w, e))
  {
  }

  /**
    The recorded versions track the files: whenever no commit is half done, `committed_version` and
    `previous_version` are absent or are what the image in current.bin and previous.bin reports.
   */
  lemma LabelsTrack(cfg: Config, fw: Bytes -> string, w0: World, trace: seq<Event>)
    requires Life(cfg, w0, trace) && Honest(fw, trace) && CleanCommits(trace) && LabelsTrackFiles(fw, w0)
    requires !InWindow(trace)
    ensures LabelsTrackFiles(fw, Run(w0, trace))
  {
    LabelInvariant(cfg, fw, w0, trace);
  }

  lemma LabelsOneBehind(fw: Bytes -> string, w: World)
    requires LabelsBehind(fw, w)
    ensures Labelled(fw, w.files.current, w.state.committedVersion) <==>
              !w.session.replaced || w.state.committedVersion in {None, Some(w.session.offer.value.version)}
    ensures !w.session.kept ==> Labelled(fw, w.files.previous, w.state.previousVersion)
    ensures w.session.kept && w.state.committedVersion.Some? ==>
              (Labelled(fw, w.files.previous, w.state.previousVersion) <==>
                 w.state.previousVersion in {None, w.state.committedVersion})
  {
    assert w.session.replaced ==> fw(w.files.current.value) == w.session.offer.value.version;
    assert w.session.kept && w.state.committedVersion.Some? ==>
             w.state.committedVersion == Some(fw(w.files.previous.value));
    assert w.state.previousVersion.Some? ==> w.state.previousVersion == Some(w.state.previousVersion.value);
  }

  /**
    The condition is needed: a cycle that ends inside the window, by a power cut, by a copy that failed, or because the
    state could not be read or saved for the commit, leaves each label right in exactly these cases.  That of current.bin:
    it was not replaced yet, or no version, or the update's own, was recorded.  That of previous.bin: it was not
    replaced, or no previous version, or the same one as the committed, was recorded.
   */
  lemma LabelsAfterCutInWindow(cfg: Config, fw: Bytes -> string, w0: World, trace: seq<Event>, e: Event)
    requires Life(cfg, w0, trace) && Honest(fw, trace) && CleanCommits(trace) && LabelsTrackFiles(fw, w0)
    requires InWindow(trace) && StartsOver(e)
    ensures var w, after := Run(w0, trace), Run(w0, trace + [e]);
            && w.session.offer.Some?
            && (Labelled(fw, after.files.current, after.state.committedVersion) <==>
                  !w.session.replaced || w.state.committedVersion in {None, Some(w.session.offer.value.version)})
            && (!w.session.kept ==> Labelled(fw, after.files.previous, after.state.previousVersion))
            && (w.session.kept && w.state.committedVersion.Some? ==>
                  (Labelled(fw, after.files.previous, after.state.previousVersion) <==>
                     w.state.previousVersion in {None, w.state.committedVersion}))
  {
    LabelInvariant(cfg, fw, w0, trace);
    RunSnoc(cfg, w0, trace, e);
    LabelsOneBehind(fw, Run(w0, trace));
  }
}
