/**
  The state file behind the protocol: the reads and writes of the update cycle, made through the store
  (unoq_ota/state.py, StateStore), do to the file exactly what the state machine says they do to the record.
 */
module Persistence {
  import opened Wrappers
  import opened StateStore
  import opened World
  import Agent
  import Json

  /** One write of the protocol: load, change, save; false where the load or the save raises. */
  method Perform(store: Store, wr: Write, diskFails: bool) returns (ok: bool)
    modifies store
    ensures ok <==> Load(old(store.file)).Some? && !diskFails
    ensures store.file == if ok then Saved(Written(Load(old(store.file)).value, wr)) else old(store.file)
  {
    match wr {
      case RecordAttempt(v) => ok := store.RecordAttempt(v, diskFails);
      case Poison(v) => ok := store.Poison(v, diskFails);
      case _ =>
        match Load(store.file) {
          case Some(s) => ok := store.Save(Written(s, wr), diskFails);
          case None => ok := false;
        }
    }
  }

  /**
    The admission check, with one read of the file per question and the poison list first: what it decides is whether
    the version is barred, or that the file cannot be read.
   */
  method ReadBarred(store: Store, v: string) returns (r: Option<bool>)
    ensures r.Some? <==> Load(store.file).Some?
    ensures r == Some(true) <==> Load(store.file).Some? && Agent.Barred(Load(store.file).value, v)
  {
    var poisoned := store.IsPoisoned(v);
    if poisoned.None? || poisoned.value {
      return poisoned;
    }
    var attempts := store.AttemptsFor(v);
    if attempts.None? {
      return None;
    }
    r := Some(attempts.value >= MAX_ATTEMPTS);
  }

  /** Something was written in the course of the run. */
  ghost predicate WroteSomething(trace: seq<Event>) {
    exists i :: 0 <= i < |trace| && trace[i].Stored?
  }

  /** The file after the writes of a run: the document of the run's record, or what it was when none got through. */
  ghost function FileAfter(before: StateFile, w0: World, trace: seq<Event>): StateFile {
    if Load(before).Some? && WroteSomething(trace) then Saved(Run(w0, trace).state) else before
  }

  lemma NothingWritten(w0: World, trace: seq<Event>)
    requires !WroteSomething(trace)
    ensures Run(w0, trace).state == w0.state
  {
    if trace != [] {
      NothingWritten(w0, Front(trace));
    }
  }

  lemma FileAfterLoads(before: StateFile, w0: World, trace: seq<Event>)
    requires Load(before) in {None, Some(w0.state)}
    ensures Load(FileAfter(before, w0, trace)) == if Load(before).Some? then Some(Run(w0, trace).state) else None
  {
    if WroteSomething(trace) {
      SavedLoads(Run(w0, trace).state);
    } else {
      NothingWritten(w0, trace);
    }
  }

  lemma OneMoreEvent(before: StateFile, w0: World, trace: seq<Event>, e: Event)
    ensures Run(w0, trace + [e]) == Step(Run(w0, trace), e)
    ensures WroteSomething(trace + [e]) <==> WroteSomething(trace) || e.Stored?
  {
    assert Front(trace + [e]) == trace;
    assert (trace + [e])[|trace|] == e;
    assert forall i :: 0 <= i < |trace| ==> (trace + [e])[i] == trace[i];
  }

  /**
    A store that goes through the writes of a run, losing those that were lost, holds the document of the run's own
    record.  A file that cannot be loaded is never replaced, because every write begins by loading it.
   */
  method Mirror(store: Store, w0: World, trace: seq<Event>)
    requires Load(store.file) in {None, Some(w0.state)}
    modifies store
    ensures store.file == FileAfter(old(store.file), w0, trace)
  {
    for i := 0 to |trace|
      invariant store.file == FileAfter(old(store.file), w0, trace[..i])
    {
      FileAfterLoads(old(store.file), w0, trace[..i]);
      OneMoreEvent(old(store.file), w0, trace[..i], trace[i]);
      assert trace[..i + 1] == trace[..i] + [trace[i]];
      match trace[i] {
        case Stored(wr) =>
          var saved := Perform(store, wr, false);
        case Lost(wr) =>
          var saved := Perform(store, wr, true);
        case _ =>
      }
    }
    assert trace[..|trace|] == trace;
  }

  /** What the record of a device that has never taken an update holds. */
  ghost predicate NoFacts(s: State) {
    s == State(Idle, None, map[], [], 0, None, None, None, 0, None)
  }

  /** The file is there, but the process cannot read it, or not as text. */
  ghost predicate Illegible(file: StateFile) {
    file == Unreadable || file == NotUtf8
  }

  /** The record that a file stands for: the one saved in it, or none of the facts if it is missing or corrupt. */
  ghost predicate StandsFor(file: StateFile, s: State) {
    match file
    case Missing => NoFacts(s)
    case NotJson => NoFacts(s)
    case Document(j) => file == Saved(s) || (!j.Obj? && NoFacts(s))
    case _ => false
  }

  lemma StandsForLoads(file: StateFile, s: State)
    requires StandsFor(file, s) || Illegible(file)
    ensures Load(file) == if Illegible(file) then None else Some(s)
  {
    SavedLoads(s);
  }

  /**
    What admission reads back after any run, from every kind of file.  A missing or a corrupt one is a fresh device; a
    legible one ends as the document of the run's record, or as it was if no write got through, and tells whether the
    version is poisoned or capped.  An illegible one always raises - never may it pass for a fresh device - and no
    write of any run replaces it.  "A corrupt state file must never crash the agent" thus fails for bytes that are not
    UTF-8, and for nothing else that can be read.
   */
  method BarredAfter(store: Store, w0: World, trace: seq<Event>, v: string) returns (r: Option<bool>)
    requires StandsFor(store.file, w0.state) || Illegible(store.file)
    modifies store
    ensures r.None? <==> Illegible(old(store.file))
    ensures store.file == if WroteSomething(trace) && r.Some? then Document(Json.Obj(Encode(Run(w0, trace).state)))
                          else old(store.file)
    ensures r.Some? ==>
              var s := Run(w0, trace).state;
              r.value <==> v in s.poisoned || (v in s.attempts && s.attempts[v] >= 2)
  {
    StandsForLoads(store.file, w0.state);
    Mirror(store, w0, trace);
    FileAfterLoads(old(store.file), w0, trace);
    r := ReadBarred(store, v);
  }
}
