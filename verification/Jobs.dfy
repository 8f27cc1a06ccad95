/**
  The IoT Jobs listener (unoq_ota/jobs_runner.py, unoq_ota/jobs_doc.py): claimed jobs are queued once each, and every
  one of them is answered with one verify-only cycle.

  Callbacks run on another thread; each is taken as one step, and a `Turn` says which of them arrive at each point of
  the listener's loop, so an arbitrary list of turns is an arbitrary interleaving.
 */
module Jobs {
  import opened Wrappers
  import opened StateStore
  import opened World
  import Agent
  import Cycle
  import Decision
  import Host
  import Json
  import Safety

  // ---------------------------------------------------------------------------------------------
  // Executions and documents

  /** An execution as the SDK hands it over; a document that is missing reads as null. */
  datatype Claimed = Claimed(jobId: Option<string>, document: Json.Json, jobDocument: Json.Json)

  datatype Execution = Execution(jobId: string, document: Json.Json)

  /** `adapt_execution`: nothing without a job id; the SDK's own field when there is no document. */
  function Adapt(raw: Option<Claimed>): Option<Execution> {
    match raw
    case None => None
    case Some(x) =>
      if x.jobId.None? || x.jobId.value == "" then None
      else Some(Execution(x.jobId.value, if x.document.Null? then x.jobDocument else x.document))
  }

  /** Python's idea of a false value. */
  predicate Falsy(j: Json.Json) {
    match j
    case Null => true
    case Bool(b) => !b
    case Int(n) => n == 0
    case Flt(f) => f.Finite? && f.mantissa == 0
    case Str(s) => s == ""
    case Arr(items) => items == []
    case Obj(fields) => fields == map[]
  }

  /** `parse_job_operation`: true where it returns "check", false where it raises JobDocumentError. */
  predicate Supported(document: Json.Json) {
    || Falsy(document)
    || (document.Obj? && ("operation" !in document.fields || document.fields["operation"] == Json.Str("check")))
  }

  // ---------------------------------------------------------------------------------------------
  // The status of a job

  datatype JobStatus = InProgress | Succeeded | Failed

  /** `_status_from_cycle`, from the phase a cycle returned and the last status it reported. */
  function StatusFromCycle(phase: Phase, reported: Option<Status>): JobStatus {
    if phase == Rejected || reported == Some(REJECTED) then Failed
    else if reported == Some(WAITING_FOR_GATE) then Failed
    else if reported in {Some(VERIFIED), Some(COMMITTED)} then Succeeded
    else if reported.None? && phase == Idle then Succeeded
    else Failed
  }

  /** What has to happen for a supported job to succeed: no offer, an old one, or one that is verified and recorded. */
  ghost predicate Succeeds(cfg: Config, a: Agent.Answers, s: State) {
    a.offer.Some? ==>
      || Cycle.UpToDate(a, s, a.offer.value)
      || (Cycle.Prepared(cfg, a, s, a.offer.value) && Cycle.StampsIt(a, a.offer.value))
  }

  /** The document asks for a check: it is missing or empty in one of Python's ways, or names no other operation. */
  ghost predicate AsksForCheck(document: Json.Json) {
    || document in {Json.Null, Json.Bool(false), Json.Int(0), Json.Str(""), Json.Arr([])}
    || (document.Flt? && document.f in {Json.Finite(false, 0, 0), Json.Finite(true, 0, 0)})
    || exists fields: map<string, Json.Json> ::
         document == Json.Obj(fields) && ("operation" in fields ==> fields["operation"] == Json.Str("check"))
  }

  lemma SupportedIffAsks(document: Json.Json)
    ensures Supported(document) <==> AsksForCheck(document)
  {
    if document.Obj? {
      assert document == Json.Obj(document.fields);
    }
  }

  /** Nothing was offered, or old news that left no staged file, or an update that passed every check and was noted. */
  ghost predicate Satisfied(cfg: Config, a: Agent.Answers, s: State) {
    a.offer.Some? ==>
      var u := a.offer.value;
      || (&& Decision.Legible(a, s, u) && !Decision.Turned(s, u.version) && Decision.OldNews(s, u)
          && a.unlinks(StagedBin) && a.unlinks(StagedHost))
      || (&& Decision.Downloaded(a, s, u) && Decision.Passes(cfg, a, s.sequence, u)
          && Decision.Noted(a, u) == Agent.Returned(Idle))
  }

  lemma SucceedsIffSatisfied(cfg: Config, a: Agent.Answers, s: State)
    ensures Succeeds(cfg, a, s) <==> Satisfied(cfg, a, s)
  {
    if a.offer.Some? {
      Decision.AdmissionAgrees(a, s, a.offer.value);
      Decision.PreparedAgrees(cfg, a, s, a.offer.value);
    }
  }

  /** `handle_execution`: an unsupported document fails without a cycle, and so does a cycle that raises. */
  method HandleExecution(dev: Device, document: Json.Json, a: Agent.Answers) returns (status: JobStatus)
    requires dev.Valid() && dev.cfg.noFlash && Agent.Plausible(dev.cfg, a) && Host.AllSound(dev.w.host)
    modifies dev
    ensures dev.Valid() && Host.AllSound(dev.w.host) && old(dev.trace) <= dev.trace
    ensures status == if AsksForCheck(document) && Satisfied(dev.cfg, a, old(dev.w).state) then Succeeded else Failed
    ensures !AsksForCheck(document) ==> dev.w == old(dev.w) && dev.trace == old(dev.trace)
    ensures status == Succeeded && a.offer.Some? ==> Watermark(dev.w.state) >= a.offer.value.sequence
    ensures Watermark(dev.w.state) >= Watermark(old(dev.w).state)
    ensures Cycle.SameGround(old(dev.w), dev.w)
  {
    SupportedIffAsks(document);
    SucceedsIffSatisfied(dev.cfg, a, dev.w.state);
    if !Supported(document) {
      return Failed;
    }
    ghost var before := dev.trace;
    dev.HowItGotHere();
    var r, _, _ := Cycle.RunOnce(dev, a);
    dev.HowItGotHere();
    NothingFallsBack(dev.cfg, dev.start, before, dev.trace);
    status := if r.Raised? then Failed else StatusFromCycle(r.phase, dev.w.session.status);
  }

  lemma NothingFallsBack(cfg: Config, w0: World, before: seq<Event>, trace: seq<Event>)
    requires cfg.noFlash && Life(cfg, w0, trace) && before <= trace
    ensures Watermark(Run(w0, trace).state) >= Watermark(Run(w0, before).state)
    ensures Run(w0, trace).session.status != Some(COMMITTED)
    ensures Run(w0, trace).session.status == Some(VERIFIED) ==>
              && Run(w0, trace).session.offer.Some?
              && Watermark(Run(w0, trace).state) >= Run(w0, trace).session.offer.value.sequence
  {
    assert trace[..|before|] == before;
    Safety.WatermarkNeverFalls(cfg, w0, trace, |before|);
    ReportedMeansReached(cfg, w0, trace);
  }

  /** In verify-only mode nothing is ever reported committed, and an offer reported verified has been, now or earlier. */
  lemma ReportedMeansReached(cfg: Config, w0: World, trace: seq<Event>)
    requires cfg.noFlash && Life(cfg, w0, trace)
    ensures Run(w0, trace).session.status != Some(COMMITTED)
    ensures Run(w0, trace).session.status == Some(VERIFIED) ==>
              && Run(w0, trace).session.offer.Some?
              && Watermark(Run(w0, trace).state) >= Run(w0, trace).session.offer.value.sequence
  {
    Safety.VerifyOnlyChangesNothing(cfg, w0, trace);
    if Run(w0, trace).session.status == Some(VERIFIED) {
      Safety.VerifiedMeansReached(cfg, w0, trace);
    }
  }

  // ---------------------------------------------------------------------------------------------
  // The queue

  ghost function Ids(jobs: seq<Execution>): set<string> {
    set i | 0 <= i < |jobs| :: jobs[i].jobId
  }

  ghost predicate DistinctIds(jobs: seq<Execution>) {
    forall i, j :: 0 <= i < j < |jobs| ==> jobs[i].jobId != jobs[j].jobId
  }

  /** The queue's whole content so far with one more callback taken into account. */
  ghost function Joined(jobs: seq<Execution>, raw: Option<Claimed>): seq<Execution> {
    match Adapt(raw)
    case None => jobs
    case Some(job) => if job.jobId in Ids(jobs) then jobs else jobs + [job]
  }

  /** What was heard, with everything dropped but the first claim of each job id. */
  ghost function Firsts(heard: seq<Option<Claimed>>): seq<Execution> {
    if heard == [] then [] else Joined(Firsts(heard[..|heard| - 1]), heard[|heard| - 1])
  }

  lemma {:induction false} FirstsAreDistinct(heard: seq<Option<Claimed>>)
    ensures DistinctIds(Firsts(heard))
  {
    if heard != [] {
      var earlier := Firsts(heard[..|heard| - 1]);
      FirstsAreDistinct(heard[..|heard| - 1]);
      assert forall i :: 0 <= i < |earlier| ==> earlier[i].jobId in Ids(earlier);
    }
  }

  /** Later callbacks only add to the end of the queue's history, so jobs come in the order of their first claims. */
  lemma {:induction false} FirstsGrow(heard: seq<Option<Claimed>>, k: nat)
    requires k <= |heard|
    ensures Firsts(heard[..k]) <= Firsts(heard)
  {
    if k == |heard| {
      assert heard[..k] == heard;
    } else {
      FirstsGrow(heard[..|heard| - 1], k);
      assert heard[..|heard| - 1][..k] == heard[..k];
    }
  }

  /** A callback claims the job with this id: it names it, and the name is not empty. */
  ghost predicate Claims(raw: Option<Claimed>, id: string) {
    raw.Some? && raw.value.jobId == Some(id) && id != ""
  }

  lemma {:induction false} QueuedIffClaimed(heard: seq<Option<Claimed>>, id: string)
    ensures id in Ids(Firsts(heard)) <==> exists i :: 0 <= i < |heard| && Claims(heard[i], id)
  {
    if heard != [] {
      var front, last := heard[..|heard| - 1], heard[|heard| - 1];
      QueuedIffClaimed(front, id);
      HearOne([], Firsts(front), front, last);
      assert front + [last] == heard && [] + Firsts(front) == Firsts(front);
      assert forall i :: 0 <= i < |front| ==> heard[i] == front[i];
      assert Claims(last, id) ==> heard[|front|] == last;
    }
  }

  /**
    The first claim of an id is queued, right behind everything claimed before it, with its own document, or, where
    that is missing, with the one under the SDK's own name.
   */
  lemma FirstClaimIsQueued(heard: seq<Option<Claimed>>, k: nat, id: string)
    requires k < |heard| && Claims(heard[k], id) && forall i :: 0 <= i < k ==> !Claims(heard[i], id)
    ensures var x := heard[k].value;
            var document := if x.document != Json.Null then x.document else x.jobDocument;
            Firsts(heard[..k]) + [Execution(id, document)] <= Firsts(heard)
  {
    NotQueuedYet(heard, k, id);
    JoinsNext(heard, k);
    FirstsGrow(heard, k + 1);
  }

  lemma NotQueuedYet(heard: seq<Option<Claimed>>, k: nat, id: string)
    requires k < |heard| && forall i :: 0 <= i < k ==> !Claims(heard[i], id)
    ensures id !in Ids(Firsts(heard[..k]))
  {
    QueuedIffClaimed(heard[..k], id);
  }

  lemma JoinsNext(heard: seq<Option<Claimed>>, k: nat)
    requires k < |heard|
    ensures Firsts(heard[..k + 1]) == Joined(Firsts(heard[..k]), heard[k])
  {
    assert heard[..k + 1][..k] == heard[..k];
  }

  lemma HearOne(taken: seq<Execution>, pending: seq<Execution>, heard: seq<Option<Claimed>>, raw: Option<Claimed>)
    requires taken + pending == Firsts(heard)
    ensures Firsts(heard + [raw]) == Joined(Firsts(heard), raw)
    ensures Adapt(raw).Some? ==> taken + (pending + [Adapt(raw).value]) == Firsts(heard) + [Adapt(raw).value]
    ensures Adapt(raw).Some? ==> Ids(Firsts(heard) + [Adapt(raw).value]) == Ids(Firsts(heard)) + {Adapt(raw).value.jobId}
  {
    assert (heard + [raw])[..|heard|] == heard;
    if Adapt(raw).Some? {
      var before, job := Firsts(heard), Adapt(raw).value;
      assert forall i :: 0 <= i < |before| ==> (before + [job])[i] == before[i];
      assert (before + [job])[|before|] == job;
    }
  }

  lemma OneMore(heard: seq<Option<Claimed>>, arrivals: seq<Option<Claimed>>, i: nat)
    requires i < |arrivals|
    ensures (heard + arrivals[..i]) + [arrivals[i]] == heard + arrivals[..i + 1]
  {
  }

  datatype Published = Published(jobId: string, status: JobStatus)

  /** Each taken job in its turn: IN_PROGRESS, then one terminal status; the last pair may be cut short. */
  ghost predicate Announced(published: seq<Published>, taken: seq<Execution>) {
    && |published| <= 2 * |taken|
    && forall k :: 0 <= k < |published| ==>
         published[k].jobId == taken[k / 2].jobId && (published[k].status == InProgress <==> k % 2 == 0)
  }

  /** The next status of the last taken job keeps the pairs. */
  lemma OneMoreStatus(published: seq<Published>, taken: seq<Execution>, status: JobStatus)
    requires Announced(published, taken) && taken != []
    requires |published| == (if status == InProgress then 2 * |taken| - 2 else 2 * |taken| - 1)
    ensures Announced(published + [Published(taken[|taken| - 1].jobId, status)], taken)
  {
    var last, next := |published|, published + [Published(taken[|taken| - 1].jobId, status)];
    assert last / 2 == |taken| - 1 && (last % 2 == 0 <==> status == InProgress);
    forall k | 0 <= k < |next|
      ensures next[k].jobId == taken[k / 2].jobId && (next[k].status == InProgress <==> k % 2 == 0)
    {
      assert k < last ==> next[k] == published[k];
    }
  }

  /** Publishing is confirmed, or it raises - and the update may have arrived all the same. */
  datatype Delivery = Confirmed | Unconfirmed(arrived: bool)

  class Client {
    var offered: set<string>
    var pending: seq<Execution>
    var published: seq<Published>
    ghost var heard: seq<Option<Claimed>>
    ghost var taken: seq<Execution>

    ghost predicate Valid()
      reads this
    {
      && taken + pending == Firsts(heard) && offered == Ids(Firsts(heard))
      && Announced(published, taken)
    }

    constructor ()
      ensures Valid() && heard == [] && taken == [] && published == []
    {
      offered, pending, published, heard, taken := {}, [], [], [], [];
    }

    /** `_offer`: queued unless its id has been queued before. */
    method Offer(raw: Option<Claimed>)
      requires Valid()
      modifies this
      ensures Valid() && heard == old(heard) + [raw] && taken == old(taken) && published == old(published)
      ensures old(pending) <= pending
    {
      HearOne(taken, pending, heard, raw);
      heard := heard + [raw];
      var job := Adapt(raw);
      if job.None? || job.value.jobId in offered {
        return;
      }
      offered := offered + {job.value.jobId};
      pending := pending + [job.value];
    }

    /** The callbacks that arrive at one point of the loop, in order. */
    method Hear(arrivals: seq<Option<Claimed>>)
      requires Valid()
      modifies this
      ensures Valid() && heard == old(heard) + arrivals && taken == old(taken) && published == old(published)
      ensures old(pending) <= pending
    {
      for i := 0 to |arrivals|
        invariant Valid() && heard == old(heard) + arrivals[..i] && taken == old(taken) && published == old(published)
        invariant old(pending) <= pending
      {
        Offer(arrivals[i]);
        OneMore(old(heard), arrivals, i);
      }
      assert arrivals[..|arrivals|] == arrivals;
    }

    /** `next_execution`, once there is something in the queue to return. */
    method Next() returns (job: Execution)
      requires Valid() && pending != []
      modifies this
      ensures Valid() && heard == old(heard) && taken == old(taken) + [job] && published == old(published)
      ensures job == old(pending)[0] && pending == old(pending)[1..]
    {
      job := pending[0];
      assert taken + pending == (taken + [job]) + pending[1..];
      pending, taken := pending[1..], taken + [job];
    }

    method Publish(job: Execution, status: JobStatus, d: Delivery) returns (ok: bool)
      requires Valid() && taken != [] && job == taken[|taken| - 1]
      requires |published| == (if status == InProgress then 2 * |taken| - 2 else 2 * |taken| - 1)
      modifies this
      ensures Valid() && heard == old(heard) && taken == old(taken) && pending == old(pending)
      ensures ok <==> d.Confirmed?
      ensures published == if d.Confirmed? || d.arrived then old(published) + [Published(job.jobId, status)] else old(published)
    {
      OneMoreStatus(published, taken, status);
      if d.Confirmed? || d.arrived {
        published := published + [Published(job.jobId, status)];
      }
      ok := d.Confirmed?;
    }
  }

  // ---------------------------------------------------------------------------------------------
  // The loop

  /** One turn of the loop: what arrives at each of its points, and how its cycle and its two reports are answered. */
  datatype Turn = Turn(
    waiting: seq<Option<Claimed>>,
    claimed: seq<Option<Claimed>>,
    running: seq<Option<Claimed>>,
    done: seq<Option<Claimed>>,
    answers: Agent.Answers,
    progress: Delivery,
    terminal: Delivery)

  /** Every job reported successful for a cycle that was offered an update has the watermark at that update. */
  ghost predicate SuccessesHold(published: seq<Published>, offers: seq<Option<Update>>, s: State) {
    forall i :: 0 <= i < |offers| && 2 * i + 1 < |published| && published[2 * i + 1].status == Succeeded && offers[i].Some? ==>
      Watermark(s) >= offers[i].value.sequence
  }

  /** One more pair, or a part of it, keeps the promise when its own success does; the watermark only rises. */
  lemma StillHold(published: seq<Published>, later: seq<Published>, offers: seq<Option<Update>>, offer: Option<Update>, s: State, t: State)
    requires SuccessesHold(published, offers, s) && |published| == 2 * |offers| && published <= later
    requires |later| <= 2 * |offers| + 2 && Watermark(s) <= Watermark(t)
    requires |later| == 2 * |offers| + 2 && later[2 * |offers| + 1].status == Succeeded && offer.Some? ==>
               Watermark(t) >= offer.value.sequence
    ensures SuccessesHold(later, offers + [offer], t)
  {
    var more := offers + [offer];
    forall i | 0 <= i < |more| && 2 * i + 1 < |later| && later[2 * i + 1].status == Succeeded && more[i].Some?
      ensures Watermark(t) >= more[i].value.sequence
    {
      if i < |offers| {
        assert later[2 * i + 1] == published[2 * i + 1];
      }
    }
  }

  /** The job has been announced: run its cycle and report how it ended; false where the report raises. */
  method Conclude(client: Client, dev: Device, job: Execution, turn: Turn) returns (ok: bool)
    requires client.Valid() && dev.Valid() && dev.cfg.noFlash && Host.AllSound(dev.w.host) && Agent.Plausible(dev.cfg, turn.answers)
    requires client.taken != [] && job == client.taken[|client.taken| - 1] && |client.published| == 2 * |client.taken| - 1
    modifies client, dev
    ensures client.Valid() && dev.Valid() && Host.AllSound(dev.w.host) && client.taken == old(client.taken)
    ensures ok ==> |client.published| == 2 * |client.taken|
    ensures old(client.published) <= client.published && |client.published| <= 2 * |client.taken|
    ensures |client.published| == 2 * |client.taken| ==>
              client.published[2 * |client.taken| - 1].status ==
                if AsksForCheck(job.document) && Satisfied(dev.cfg, turn.answers, old(dev.w).state) then Succeeded else Failed
    ensures (|client.published| == 2 * |client.taken| && turn.answers.offer.Some? &&
             client.published[2 * |client.taken| - 1].status == Succeeded) ==>
              Watermark(dev.w.state) >= turn.answers.offer.value.sequence
    ensures Watermark(dev.w.state) >= Watermark(old(dev.w).state) && Cycle.SameGround(old(dev.w), dev.w)
  {
    client.Hear(turn.running);
    var status := HandleExecution(dev, job.document, turn.answers);
    client.Hear(turn.done);
    ok := client.Publish(job, status, turn.terminal);
  }

  /** The job that was just taken is announced as in progress. */
  method Announce(client: Client, job: Execution, turn: Turn) returns (ok: bool)
    requires client.Valid() && client.taken != [] && job == client.taken[|client.taken| - 1]
    requires |client.published| == 2 * |client.taken| - 2
    modifies client
    ensures client.Valid() && client.taken == old(client.taken) && old(client.published) <= client.published
    ensures |client.published| <= 2 * |client.taken| - 1 && (ok ==> |client.published| == 2 * |client.taken| - 1)
    ensures ok <==> turn.progress.Confirmed?
  {
    client.Hear(turn.claimed);
    ok := client.Publish(job, InProgress, turn.progress);
  }

  /** One job, once it has been taken: announced, answered, reported; false where a report raises. */
  method Answer(client: Client, dev: Device, job: Execution, turn: Turn, ghost offers: seq<Option<Update>>) returns (ok: bool)
    requires client.Valid() && dev.Valid() && dev.cfg.noFlash && Host.AllSound(dev.w.host) && Agent.Plausible(dev.cfg, turn.answers)
    requires client.taken != [] && job == client.taken[|client.taken| - 1] && |client.published| == 2 * |client.taken| - 2
    requires |offers| == |client.taken| - 1 && SuccessesHold(client.published, offers, dev.w.state)
    modifies client, dev
    ensures client.Valid() && dev.Valid() && Host.AllSound(dev.w.host) && client.taken == old(client.taken)
    ensures ok ==> |client.published| == 2 * |client.taken|
    ensures SuccessesHold(client.published, offers + [turn.answers.offer], dev.w.state)
    ensures Cycle.SameGround(old(dev.w), dev.w)
  {
    ghost var published, s := client.published, dev.w.state;
    ok := Announce(client, job, turn);
    if ok {
      ghost var announced := client.published;
      ok := Conclude(client, dev, job, turn);
      assert published <= announced <= client.published;
    }
    StillHold(published, client.published, offers, turn.answers.offer, s, dev.w.state);
  }

  /**
    `run_jobs_loop`, over any interleaving with the callbacks: jobs are taken in the order of their first claims,
    none twice, and what is published is a prefix of IN_PROGRESS-then-terminal pairs in that order.
   */
  method RunJobsLoop(client: Client, dev: Device, plan: seq<Turn>) returns (ghost offers: seq<Option<Update>>)
    requires client.Valid() && client.taken == [] && client.published == []
    requires dev.Valid() && dev.cfg.noFlash && Host.AllSound(dev.w.host)
    requires forall t :: t in plan ==> Agent.Plausible(dev.cfg, t.answers)
    modifies client, dev
    ensures client.Valid() && dev.Valid() && DistinctIds(client.taken) && client.taken <= Firsts(client.heard)
    ensures Announced(client.published, client.taken)
    ensures |offers| == |client.taken| && SuccessesHold(client.published, offers, dev.w.state)
    ensures Cycle.SameGround(old(dev.w), dev.w)
  {
    offers := [];
    for i := 0 to |plan|
      invariant client.Valid() && dev.Valid() && Host.AllSound(dev.w.host)
      invariant |client.published| == 2 * |client.taken| && |offers| == |client.taken|
      invariant SuccessesHold(client.published, offers, dev.w.state)
      invariant Cycle.SameGround(old(dev.w), dev.w)
    {
      client.Hear(plan[i].waiting);
      if client.pending != [] {
        var job := client.Next();
        assert plan[i] in plan;
        var ok := Answer(client, dev, job, plan[i], offers);
        offers := offers + [plan[i].answers.offer];
        if !ok {
          break;
        }
      }
    }
    TakenAreFirsts(client.taken, client.pending, client.heard);
  }

  lemma TakenAreFirsts(taken: seq<Execution>, pending: seq<Execution>, heard: seq<Option<Claimed>>)
    requires taken + pending == Firsts(heard)
    ensures taken <= Firsts(heard) && DistinctIds(taken)
  {
    FirstsAreDistinct(heard);
    assert forall i :: 0 <= i < |taken| ==> taken[i] == Firsts(heard)[i];
  }

  /** No job is announced or concluded twice: the two updates of a job stand next to each other, and nowhere else. */
  lemma NoJobRepeated(published: seq<Published>, taken: seq<Execution>, i: nat, j: nat)
    requires Announced(published, taken) && DistinctIds(taken) && i < j < |published|
    ensures published[i].jobId == published[j].jobId <==> j == i + 1 && i % 2 == 0
    ensures published[i].jobId == published[j].jobId ==> published[i].status == InProgress && published[j].status != InProgress
  {
    assert i / 2 < j / 2 || i / 2 == j / 2;
  }
}
