/**
  Where host trees come from: at every point of every run, whatever is at the live name or at `.previous` is one
  known tree - one that was there at the start, or the unpacked, signed and digest-checked payload of an update -
  with at most some of its entries removed.  It is never a mix of two.
 */
module HostSafety {
  import opened Wrappers
  import opened StateStore
  import opened World
  import opened Safety
  import Host
  import Verify

  /** The manifest is for this board and declares the digest of a payload that unpacks to this tree. */
  ghost predicate Declares(cfg: Config, m: Verify.Manifest, data: Bytes, t: Host.Tree) {
    && Verify.NamesBoard(cfg.trust, m, cfg.target)
    && Verify.Matches(cfg.trust, m, "host_payload", Some(data))
    && cfg.unpack(data) == Some(t)
  }

  /** The tree is the payload of an update whose manifest this run found authentic when it was offered. */
  ghost predicate EndorsedTree(cfg: Config, w0: World, trace: seq<Event>, t: Host.Tree) {
    exists u: Update, data: Bytes :: WasSigned(cfg, w0, trace, u) && Declares(cfg, u.manifest, data, t)
  }

  lemma EndorsedTreeStays(cfg: Config, w0: World, trace: seq<Event>, t: Host.Tree)
    requires trace != [] && EndorsedTree(cfg, w0, Front(trace), t)
    ensures EndorsedTree(cfg, w0, trace, t)
  {
    var u, data :| WasSigned(cfg, w0, Front(trace), u) && Declares(cfg, u.manifest, data, t);
    SignedStays(cfg, w0, trace, u);
  }

  ghost predicate KnownTree(cfg: Config, w0: World, trace: seq<Event>, t: Host.Tree) {
    Some(t) == w0.host.live || Some(t) == w0.host.previous || EndorsedTree(cfg, w0, trace, t)
  }

  ghost predicate PartOf(base: Host.Tree, t: Host.Tree) {
    Host.Pruned(base, t, [])
  }

  ghost predicate PartOfKnown(cfg: Config, w0: World, trace: seq<Event>, t: Option<Host.Tree>) {
    t.Some? ==> exists base :: KnownTree(cfg, w0, trace, base) && PartOf(base, t.value)
  }

  lemma KnownTreeStays(cfg: Config, w0: World, trace: seq<Event>, t: Option<Host.Tree>)
    requires trace != []
    ensures t.Some? && KnownTree(cfg, w0, Front(trace), t.value) ==> KnownTree(cfg, w0, trace, t.value)
    ensures PartOfKnown(cfg, w0, Front(trace), t) ==> PartOfKnown(cfg, w0, trace, t)
  {
    if t.Some? && EndorsedTree(cfg, w0, Front(trace), t.value) {
      EndorsedTreeStays(cfg, w0, trace, t.value);
    }
    if t.Some? && PartOfKnown(cfg, w0, Front(trace), t) {
      var base :| KnownTree(cfg, w0, Front(trace), base) && PartOf(base, t.value);
      if EndorsedTree(cfg, w0, Front(trace), base) {
        EndorsedTreeStays(cfg, w0, trace, base);
      }
    }
  }

  ghost predicate TreesKnown(cfg: Config, w0: World, trace: seq<Event>, d: Host.Dirs) {
    PartOfKnown(cfg, w0, trace, d.live) && PartOfKnown(cfg, w0, trace, d.previous)
  }

  /** From acceptance to the end of the cycle, the staged host payload is the one whose digest was checked, or gone. */
  ghost predicate PayloadChecked(cfg: Config, w: World) {
    var s := w.session;
    s.facts.accepted.Some? ==>
      && s.offer.Some? && s.phase.Some? && s.phase != Some(Downloading)
      && Verify.VerifyTarget(cfg.trust, s.offer.value.manifest, cfg.target)
      && (HostBlock(s.offer.value).Some? && w.files.stagedHost.Some? ==>
            Verify.VerifyPayload(cfg.trust, s.offer.value.manifest, "host_payload", w.files.stagedHost) == Verify.Accepted)
  }

  lemma PayloadStaysChecked(cfg: Config, w: World, e: Event)
    requires PayloadChecked(cfg, w) && Legal(cfg, w, e)
    ensures PayloadChecked(cfg, Step(w, e))
  {
  }

  /** The payload an update may make live is endorsed. */
  lemma PayloadIsEndorsed(cfg: Config, w0: World, trace: seq<Event>, w: World)
    requires PayloadChecked(cfg, w) && SignedOffer(cfg, w0, trace, w.session)
    requires w.session.facts.signed && w.session.facts.accepted.Some? && HostBlock(w.session.offer.value).Some?
    ensures Payload(cfg, w.files).Some? ==> EndorsedTree(cfg, w0, trace, Payload(cfg, w.files).value)
  {
    if Payload(cfg, w.files).Some? {
      Verify.TargetAcceptedIffNamesBoard(cfg.trust, w.session.offer.value.manifest, cfg.target);
      Verify.PayloadVerdict(cfg.trust, w.session.offer.value.manifest, "host_payload", w.files.stagedHost);
      assert Declares(cfg, w.session.offer.value.manifest, w.files.stagedHost.value, Payload(cfg, w.files).value);
    }
  }

  lemma LessOfKnown(cfg: Config, w0: World, trace: seq<Event>, t: Host.Tree, u: Host.Tree)
    requires PartOfKnown(cfg, w0, trace, Some(t)) && PartOf(t, u)
    ensures PartOfKnown(cfg, w0, trace, Some(u))
  {
    var base :| KnownTree(cfg, w0, trace, base) && PartOf(base, t);
    assert PartOf(base, u);
  }

  lemma WholeIsPart(cfg: Config, w0: World, trace: seq<Event>, t: Host.Tree)
    requires KnownTree(cfg, w0, trace, t)
    ensures PartOfKnown(cfg, w0, trace, Some(t))
  {
    assert PartOf(t, t);
  }

  lemma MoveKeepsTreesKnown(cfg: Config, w0: World, trace: seq<Event>, payload: Option<Host.Tree>, d: Host.Dirs, e: Host.Dirs)
    requires TreesKnown(cfg, w0, trace, d) && Host.Move(payload, d, e)
    requires payload.Some? ==> EndorsedTree(cfg, w0, trace, payload.value)
    ensures TreesKnown(cfg, w0, trace, e)
  {
    if payload.Some? {
      WholeIsPart(cfg, w0, trace, payload.value);
    }
    if d.previous.Some? && e.previous.Some? && PartOf(d.previous.value, e.previous.value) {
      LessOfKnown(cfg, w0, trace, d.previous.value, e.previous.value);
    }
    assert Host.Trimmed(d, e, Host.Previous, []) && e.previous.Some? ==>
             d.previous.Some? && PartOf(d.previous.value, e.previous.value);
  }

  lemma {:induction false} HostInvariant(cfg: Config, w0: World, trace: seq<Event>)
    requires Life(cfg, w0, trace)
    ensures PayloadChecked(cfg, Run(w0, trace)) && TreesKnown(cfg, w0, trace, Run(w0, trace).host)
  {
    if trace == [] {
      if w0.host.live.Some? { WholeIsPart(cfg, w0, [], w0.host.live.value); }
      if w0.host.previous.Some? { WholeIsPart(cfg, w0, [], w0.host.previous.value); }
    } else {
      HostInvariant(cfg, w0, Front(trace));
      PayloadStaysChecked(cfg, Run(w0, Front(trace)), Last(trace));
      TreesStayKnown(cfg, w0, trace);
    }
  }

  lemma TreesStayKnown(cfg: Config, w0: World, trace: seq<Event>)
    requires Life(cfg, w0, trace) && trace != [] && PayloadChecked(cfg, Run(w0, Front(trace)))
    requires TreesKnown(cfg, w0, Front(trace), Run(w0, Front(trace)).host)
    ensures TreesKnown(cfg, w0, trace, Run(w0, trace).host)
  {
    var w := Run(w0, Front(trace));
    KnownTreeStays(cfg, w0, trace, w.host.live);
    KnownTreeStays(cfg, w0, trace, w.host.previous);
    if Last(trace).HostChanged? {
      ChangeIsBacked(cfg, w0, Front(trace), Last(trace).dirs);
      if Payload(cfg, w.files).Some? {
        EndorsedTreeStays(cfg, w0, trace, Payload(cfg, w.files).value);
      }
      MoveKeepsTreesKnown(cfg, w0, trace, Payload(cfg, w.files), w.host, Last(trace).dirs);
    }
  }

  /** Every change of the host tree in a run is one step of applying an endorsed payload, or of rolling back. */
  lemma ChangeIsBacked(cfg: Config, w0: World, trace: seq<Event>, dirs: Host.Dirs)
    requires Life(cfg, w0, trace) && Legal(cfg, Run(w0, trace), HostChanged(dirs)) && PayloadChecked(cfg, Run(w0, trace))
    ensures var payload := Payload(cfg, Run(w0, trace).files);
            Host.Move(payload, Run(w0, trace).host, dirs) && (payload.Some? ==> EndorsedTree(cfg, w0, trace, payload.value))
  {
    SignedOfferInvariant(cfg, w0, trace);
    LineageInvariant(cfg, w0, trace);
    PayloadIsEndorsed(cfg, w0, trace, Run(w0, trace));
  }

  /** At every crash point of every life the live tree and `.previous` are each part of one known tree, never a mix. */
  lemma HostNeverMixed(cfg: Config, w0: World, trace: seq<Event>, k: nat)
    requires Life(cfg, w0, trace) && k <= |trace|
    ensures TreesKnown(cfg, w0, trace[..k], Run(w0, trace[..k]).host)
  {
    PrefixIsLegal(cfg, w0, trace, k);
    HostInvariant(cfg, w0, trace[..k]);
  }

  /** A rollback puts back what is at `.previous`. */
  ghost predicate PutsBack(d: Host.Dirs, e: Host.Dirs) {
    d.live.None? && d.previous.Some? && e == d.(previous := None, live := d.previous)
  }

  /** No rollback restored a `.previous` that an interrupted removal had left torn. */
  ghost predicate RestoredWhole(cfg: Config, w0: World, trace: seq<Event>) {
    trace != [] ==>
      && RestoredWhole(cfg, w0, Front(trace))
      && (Last(trace).HostChanged? && PutsBack(Run(w0, Front(trace)).host, Last(trace).dirs) ==>
            KnownTree(cfg, w0, trace, Run(w0, Front(trace)).host.previous.value))
  }

  lemma MoveKeepsLiveWhole(cfg: Config, w0: World, trace: seq<Event>, payload: Option<Host.Tree>, d: Host.Dirs, e: Host.Dirs)
    requires Host.Move(payload, d, e) && (payload.Some? ==> EndorsedTree(cfg, w0, trace, payload.value))
    requires d.live.Some? ==> KnownTree(cfg, w0, trace, d.live.value)
    requires PutsBack(d, e) ==> KnownTree(cfg, w0, trace, d.previous.value)
    ensures e.live.Some? ==> KnownTree(cfg, w0, trace, e.live.value)
  {
  }

  /** That is the only way a torn tree goes live: without it, whatever is live at any point is a whole known tree. */
  lemma {:induction false} LiveTreeIsWhole(cfg: Config, w0: World, trace: seq<Event>)
    requires Life(cfg, w0, trace) && RestoredWhole(cfg, w0, trace)
    ensures Run(w0, trace).host.live.Some? ==> KnownTree(cfg, w0, trace, Run(w0, trace).host.live.value)
  {
    if trace != [] {
      var w := Run(w0, Front(trace));
      LiveTreeIsWhole(cfg, w0, Front(trace));
      KnownTreeStays(cfg, w0, trace, w.host.live);
      if Last(trace).HostChanged? {
        HostInvariant(cfg, w0, Front(trace));
        ChangeIsBacked(cfg, w0, Front(trace), Last(trace).dirs);
        if Payload(cfg, w.files).Some? {
          EndorsedTreeStays(cfg, w0, trace, Payload(cfg, w.files).value);
        }
        MoveKeepsLiveWhole(cfg, w0, trace, Payload(cfg, w.files), w.host, Last(trace).dirs);
      }
    }
  }

  ghost predicate WholeLive(cfg: Config, w0: World, trace: seq<Event>, d: Host.Dirs) {
    d.live.Some? ==> KnownTree(cfg, w0, trace, d.live.value)
  }

  /** Exactly then: a life in which the live tree is a whole known tree at every point never restored a torn one. */
  lemma {:induction false} AlwaysWholeExactlyWhen(cfg: Config, w0: World, trace: seq<Event>)
    requires Life(cfg, w0, trace)
    ensures RestoredWhole(cfg, w0, trace) <==>
              forall k :: 0 <= k <= |trace| ==> WholeLive(cfg, w0, trace[..k], Run(w0, trace[..k]).host)
  {
    if RestoredWhole(cfg, w0, trace) {
      forall k | 0 <= k <= |trace|
        ensures WholeLive(cfg, w0, trace[..k], Run(w0, trace[..k]).host)
      {
        PrefixIsLegal(cfg, w0, trace, k);
        PrefixRestoredWhole(cfg, w0, trace, k);
        LiveTreeIsWhole(cfg, w0, trace[..k]);
      }
    } else if trace != [] {
      AlwaysWholeExactlyWhen(cfg, w0, Front(trace));
      assert trace[..|trace|] == trace;
      assert forall k :: 0 <= k < |trace| ==> trace[..k] == Front(trace)[..k];
    }
  }

  lemma {:induction false} PrefixRestoredWhole(cfg: Config, w0: World, trace: seq<Event>, k: nat)
    requires RestoredWhole(cfg, w0, trace) && k <= |trace|
    ensures RestoredWhole(cfg, w0, trace[..k])
  {
    if k == |trace| {
      assert trace[..k] == trace;
    } else {
      PrefixRestoredWhole(cfg, w0, Front(trace), k);
      assert Front(trace)[..k] == trace[..k];
    }
  }

  /**
    The live name is emptied by an update only when the update's whole payload stands ready at `.next`, endorsed, and
    the whole tree it displaces goes to `.previous` in the same step.
   */
  lemma DisplacedOnlyForWholePayload(cfg: Config, w0: World, trace: seq<Event>, k: nat)
    requires Life(cfg, w0, trace) && k < |trace| && trace[k].HostChanged?
    requires Run(w0, trace[..k]).host.live.Some? && Run(w0, trace[..k]).host.previous.None? && trace[k].dirs.live.None?
    ensures trace[k].dirs.next.Some? && EndorsedTree(cfg, w0, trace[..k], trace[k].dirs.next.value)
    ensures trace[k].dirs.previous == Run(w0, trace[..k]).host.live
  {
    EventWasLegal(cfg, w0, trace, k);
    var w := Run(w0, trace[..k]);
    HostInvariant(cfg, w0, trace[..k]);
    ChangeIsBacked(cfg, w0, trace[..k], trace[k].dirs);
    Displaces(Payload(cfg, w.files), w.host, trace[k].dirs);
  }

  lemma Displaces(payload: Option<Host.Tree>, d: Host.Dirs, e: Host.Dirs)
    requires Host.Move(payload, d, e) && d.live.Some? && d.previous.None? && e.live.None?
    ensures e.next.Some? && e.next == payload && e.previous == d.live
  {
  }
}
