/** The persisted agent state (unoq_ota/state.py): per-field sanitizers, and a store that replaces one file atomically. */
module StateStore {
  import opened Wrappers
  import opened Json

  const MAX_ATTEMPTS := 2

  datatype Phase =
    | Idle | Downloading | Verifying | Staged | Flashing
    | HealthCheck | Committed | RollingBack | RolledBack | Rejected

  datatype State = State(
    phase: Phase,
    version: Option<string>,
    attempts: map<string, int>,
    poisoned: seq<string>,
    sequence: int,
    coreVersion: Option<string>,
    committedVersion: Option<string>,
    previousVersion: Option<string>,
    lastVerifiedSequence: int,
    lastVerifiedVersion: Option<string>)

  const FRESH := State(Idle, None, map[], [], 0, None, None, None, 0, None)

  function PhaseName(p: Phase): string {
    match p
    case Idle => "idle"
    case Downloading => "downloading"
    case Verifying => "verifying"
    case Staged => "staged"
    case Flashing => "flashing"
    case HealthCheck => "health_check"
    case Committed => "committed"
    case RollingBack => "rolling_back"
    case RolledBack => "rolled_back"
    case Rejected => "rejected"
  }

  // ---------------------------------------------------------------------------------------------
  // Sanitizers: one field each, never raising

  function SanitizePhase(j: Json): Phase {
    if j == Str("downloading") then Downloading
    else if j == Str("verifying") then Verifying
    else if j == Str("staged") then Staged
    else if j == Str("flashing") then Flashing
    else if j == Str("health_check") then HealthCheck
    else if j == Str("committed") then Committed
    else if j == Str("rolling_back") then RollingBack
    else if j == Str("rolled_back") then RolledBack
    else if j == Str("rejected") then Rejected
    else Idle
  }

  function SanitizeText(j: Json): Option<string> {
    if j.Str? then Some(j.s) else None
  }

  function SanitizeSequence(j: Json): int {
    match ToInt(j) case Some(n) => n case None => 0
  }

  function SanitizeAttempts(j: Json): map<string, int> {
    if j.Obj? then map k | k in j.fields && ToInt(j.fields[k]).Some? :: ToInt(j.fields[k]).value else map[]
  }

  function Texts(items: seq<Json>): seq<string> {
    if items == [] then []
    else (if items[0].Str? then [items[0].s] else []) + Texts(items[1..])
  }

  function SanitizePoisoned(j: Json): seq<string> {
    if j.Arr? then Texts(j.items) else []
  }

  function Decode(fields: map<string, Json>): State {
    State(
      SanitizePhase(Get(fields, "phase")),
      SanitizeText(Get(fields, "version")),
      SanitizeAttempts(Get(fields, "attempts")),
      SanitizePoisoned(Get(fields, "poisoned")),
      SanitizeSequence(Get(fields, "sequence")),
      SanitizeText(Get(fields, "core_version")),
      SanitizeText(Get(fields, "committed_version")),
      SanitizeText(Get(fields, "previous_version")),
      SanitizeSequence(Get(fields, "last_verified_sequence")),
      SanitizeText(Get(fields, "last_verified_version")))
  }

  /** What `int()` makes of a field, told from the value: an integer, 0 or 1, a truncated float, or a text that spells one. */
  ghost predicate ReadsAs(j: Json, n: int) {
    match j
    case Int(m) => n == m
    case Bool(b) => n == if b then 1 else 0
    case Flt(f) => f.Finite? && Truncate(f) == Some(n)
    case Str(s) => exists lead, sign, body, tail :: SpellsInt(s, lead, sign, body, tail, n)
    case _ => false
  }

  lemma ToIntIffReadsAs(j: Json, n: int)
    ensures ToInt(j) == Some(n) <==> ReadsAs(j, n)
  {
    if j.Str? {
      IntOfTextExactly(j.s, n);
    }
  }

  lemma {:induction false} TextsAreTheStrings(items: seq<Json>, v: string)
    ensures v in Texts(items) <==> Str(v) in items
  {
    if items != [] {
      TextsAreTheStrings(items[1..], v);
      assert items == [items[0]] + items[1..];
    }
  }

  ghost predicate ReadsText(fields: map<string, Json>, key: string, read: Option<string>) {
    forall t: string :: read == Some(t) <==> key in fields && fields[key] == Str(t)
  }

  ghost predicate ReadsNumber(fields: map<string, Json>, key: string, read: int) {
    if key in fields && exists n :: ReadsAs(fields[key], n) then ReadsAs(fields[key], read) else read == 0
  }

  /**
    What each field of a document is read as: a text, a number, the counts that are numbers, the poisoned entries that
    are texts - and nothing or zero wherever the document says something else.
   */
  lemma FieldsMean(fields: map<string, Json>)
    ensures var s := Decode(fields);
            && ReadsText(fields, "version", s.version) && ReadsText(fields, "core_version", s.coreVersion)
            && ReadsText(fields, "committed_version", s.committedVersion)
            && ReadsText(fields, "previous_version", s.previousVersion)
            && ReadsText(fields, "last_verified_version", s.lastVerifiedVersion)
            && ReadsNumber(fields, "sequence", s.sequence)
            && ReadsNumber(fields, "last_verified_sequence", s.lastVerifiedSequence)
    ensures forall v, n :: v in Decode(fields).attempts && Decode(fields).attempts[v] == n <==>
              && "attempts" in fields && fields["attempts"].Obj? && v in fields["attempts"].fields
              && ReadsAs(fields["attempts"].fields[v], n)
    ensures forall v: string :: v in Decode(fields).poisoned <==>
              "poisoned" in fields && fields["poisoned"].Arr? && Str(v) in fields["poisoned"].items
  {
    forall j: Json, n: int
      ensures ToInt(j) == Some(n) <==> ReadsAs(j, n)
    {
      ToIntIffReadsAs(j, n);
    }
    forall items: seq<Json>, v: string
      ensures v in Texts(items) <==> Str(v) in items
    {
      TextsAreTheStrings(items, v);
    }
  }

  // ---------------------------------------------------------------------------------------------
  // The document that save writes

  function OptionalText(t: Option<string>): Json {
    match t case Some(s) => Str(s) case None => Null
  }

  function TextItems(texts: seq<string>): seq<Json> {
    seq(|texts|, i requires 0 <= i < |texts| => Str(texts[i]))
  }

  function Encode(s: State): map<string, Json> {
    map[
      "phase" := Str(PhaseName(s.phase)),
      "version" := OptionalText(s.version),
      "attempts" := Obj(map k | k in s.attempts :: Int(s.attempts[k])),
      "poisoned" := Arr(TextItems(s.poisoned)),
      "sequence" := Int(s.sequence),
      "core_version" := OptionalText(s.coreVersion),
      "committed_version" := OptionalText(s.committedVersion),
      "previous_version" := OptionalText(s.previousVersion),
      "last_verified_sequence" := Int(s.lastVerifiedSequence),
      "last_verified_version" := OptionalText(s.lastVerifiedVersion)]
  }

  lemma {:induction false} TextsOfTextItems(texts: seq<string>)
    ensures Texts(TextItems(texts)) == texts
  {
    if texts != [] {
      TextsOfTextItems(texts[1..]);
      assert TextItems(texts)[1..] == TextItems(texts[1..]);
      assert texts == [texts[0]] + texts[1..];
    }
  }

  lemma PhaseRoundTrip(p: Phase)
    ensures SanitizePhase(Str(PhaseName(p))) == p
  {
    var name := PhaseName(p);
    assert |name| == match p
                     case Idle => 4 case Downloading => 11 case Verifying => 9 case Staged => 6 case Flashing => 8
                     case HealthCheck => 12 case Committed => 9 case RollingBack => 12 case RolledBack => 11
                     case Rejected => 8;
    assert name[0] == match p
                      case Idle => 'i' case Downloading => 'd' case Verifying => 'v' case Staged => 's'
                      case Flashing => 'f' case HealthCheck => 'h' case Committed => 'c' case RollingBack => 'r'
                      case RolledBack => 'r' case Rejected => 'r';
  }

  /** The phases and their names on disk. */
  const PHASES := {("idle", Idle), ("downloading", Downloading), ("verifying", Verifying), ("staged", Staged),
                   ("flashing", Flashing), ("health_check", HealthCheck), ("committed", Committed),
                   ("rolling_back", RollingBack), ("rolled_back", RolledBack), ("rejected", Rejected)}

  /** A field that names a phase is read as that phase; anything else as idle. */
  lemma PhaseExactly(j: Json, name: string, p: Phase)
    ensures (name, p) in PHASES <==> name == PhaseName(p)
    ensures (name, p) in PHASES && j == Str(name) ==> SanitizePhase(j) == p
    ensures SanitizePhase(j) == p ==> j == Str(PhaseName(p)) || p == Idle
  {
    PhaseRoundTrip(p);
  }

  lemma AttemptsRoundTrip(attempts: map<string, int>)
    ensures SanitizeAttempts(Obj(map k | k in attempts :: Int(attempts[k]))) == attempts
  {
  }

  lemma CountersRoundTrip(s: State)
    ensures var r := Decode(Encode(s));
            && r.phase == s.phase && r.attempts == s.attempts && r.poisoned == s.poisoned
            && r.sequence == s.sequence && r.lastVerifiedSequence == s.lastVerifiedSequence
  {
    PhaseRoundTrip(s.phase);
    TextsOfTextItems(s.poisoned);
    AttemptsRoundTrip(s.attempts);
  }

  lemma TextsRoundTrip(s: State)
    ensures var r := Decode(Encode(s));
            && r.version == s.version && r.coreVersion == s.coreVersion && r.committedVersion == s.committedVersion
            && r.previousVersion == s.previousVersion && r.lastVerifiedVersion == s.lastVerifiedVersion
  {
    var fields := Encode(s);
    assert fields["version"] == OptionalText(s.version);
    assert fields["core_version"] == OptionalText(s.coreVersion);
  }

  /** Reading back what was saved gives the same state, whatever the state. */
  lemma RoundTrip(s: State)
    ensures Decode(Encode(s)) == s
  {
    CountersRoundTrip(s);
    TextsRoundTrip(s);
  }

  lemma OtherKeys(fields: map<string, Json>, key: string, j: Json)
    ensures forall name: string :: name != key ==> Get(fields[key := j], name) == Get(fields, name)
  {
  }

  lemma TextsOnTheirOwn(fields: map<string, Json>, key: string, j: Json)
    ensures key != "version" ==> Decode(fields[key := j]).version == Decode(fields).version
    ensures key != "core_version" ==> Decode(fields[key := j]).coreVersion == Decode(fields).coreVersion
    ensures key != "committed_version" ==> Decode(fields[key := j]).committedVersion == Decode(fields).committedVersion
    ensures key != "previous_version" ==> Decode(fields[key := j]).previousVersion == Decode(fields).previousVersion
    ensures key != "last_verified_version" ==>
              Decode(fields[key := j]).lastVerifiedVersion == Decode(fields).lastVerifiedVersion
  {
    OtherKeys(fields, key, j);
  }

  /** Corrupting one field of the document, to anything, leaves what every other field is read as. */
  lemma OneFieldOnly(fields: map<string, Json>, key: string, j: Json)
    ensures key != "phase" ==> Decode(fields[key := j]).phase == Decode(fields).phase
    ensures key != "version" ==> Decode(fields[key := j]).version == Decode(fields).version
    ensures key != "attempts" ==> Decode(fields[key := j]).attempts == Decode(fields).attempts
    ensures key != "poisoned" ==> Decode(fields[key := j]).poisoned == Decode(fields).poisoned
    ensures key != "sequence" ==> Decode(fields[key := j]).sequence == Decode(fields).sequence
    ensures key != "core_version" ==> Decode(fields[key := j]).coreVersion == Decode(fields).coreVersion
    ensures key != "committed_version" ==> Decode(fields[key := j]).committedVersion == Decode(fields).committedVersion
    ensures key != "previous_version" ==> Decode(fields[key := j]).previousVersion == Decode(fields).previousVersion
    ensures key != "last_verified_sequence" ==>
              Decode(fields[key := j]).lastVerifiedSequence == Decode(fields).lastVerifiedSequence
    ensures key != "last_verified_version" ==>
              Decode(fields[key := j]).lastVerifiedVersion == Decode(fields).lastVerifiedVersion
  {
    OtherKeys(fields, key, j);
    TextsOnTheirOwn(fields, key, j);
  }

  // ---------------------------------------------------------------------------------------------
  // The file

  /** `NotUtf8` holds bytes that are not UTF-8, `NotJson` text that does not parse. */
  datatype StateFile = Missing | Unreadable | NotUtf8 | NotJson | Document(j: Json)

  /**
    `load`: None where it raises.  Only a missing file is a fresh device; an unreadable one is a StateError.  Bytes
    that are not UTF-8 raise from the read itself, which guards against nothing but the operating system's errors.
   */
  function Load(file: StateFile): Option<State> {
    match file
    case Missing => Some(FRESH)
    case Unreadable => None
    case NotUtf8 => None
    case NotJson => Some(FRESH)
    case Document(j) => Some(if j.Obj? then Decode(j.fields) else FRESH)
  }

  /** The file can be read, but holds no recoverable facts. */
  predicate Corrupt(file: StateFile) {
    file.NotUtf8? || file.NotJson? || (file.Document? && !file.j.Obj?)
  }

  function Saved(s: State): StateFile {
    Document(Obj(Encode(s)))
  }

  /** A saved file loads as the state that was saved. */
  lemma SavedLoads(s: State)
    ensures Load(Saved(s)) == Some(s)
  {
    RoundTrip(s);
  }

  /** Whatever a readable file holds, saving what was loaded from it is a fixed point of loading. */
  lemma LoadIsIdempotent(file: StateFile)
    requires Load(file).Some?
    ensures Load(Saved(Load(file).value)) == Load(file)
  {
    SavedLoads(Load(file).value);
  }

  function Attempts(s: State, version: string): int {
    if version in s.attempts then s.attempts[version] else 0
  }

  function Watermark(s: State): int {
    Max(s.sequence, s.lastVerifiedSequence)
  }

  function WithAttempt(s: State, version: string): (r: State)
    ensures Attempts(r, version) == Attempts(s, version) + 1
    ensures forall v :: v != version ==> Attempts(r, v) == Attempts(s, v)
  {
    s.(attempts := s.attempts[version := Attempts(s, version) + 1])
  }

  function WithPoison(s: State, version: string): (r: State)
    ensures forall v :: v in r.poisoned <==> v in s.poisoned || v == version
    ensures s.poisoned <= r.poisoned && (version in s.poisoned ==> r == s) && (Distinct(s.poisoned) ==> Distinct(r.poisoned))
  {
    if version in s.poisoned then s else s.(poisoned := s.poisoned + [version])
  }

  /** A store over one file; `diskFails` is whether writing the temporary file or renaming it raises. */
  class Store {
    var file: StateFile

    constructor (file: StateFile)
      ensures this.file == file
    {
      this.file := file;
    }

    method Save(s: State, diskFails: bool) returns (ok: bool)
      modifies this
      ensures ok <==> !diskFails
      ensures file == if ok then Saved(s) else old(file)
    {
      if diskFails {
        return false;
      }
      file := Saved(s);
      ok := true;
    }

    method AttemptsFor(version: string) returns (n: Option<int>)
      ensures n == match Load(file) case Some(s) => Some(Attempts(s, version)) case None => None
    {
      match Load(file) {
        case Some(s) => n := Some(Attempts(s, version));
        case None => n := None;
      }
    }

    method RecordAttempt(version: string, diskFails: bool) returns (ok: bool)
      modifies this
      ensures ok <==> Load(old(file)).Some? && !diskFails
      ensures file == if ok then Saved(WithAttempt(Load(old(file)).value, version)) else old(file)
    {
      match Load(file) {
        case Some(s) => ok := Save(WithAttempt(s, version), diskFails);
        case None => ok := false;
      }
    }

    method Poison(version: string, diskFails: bool) returns (ok: bool)
      modifies this
      ensures ok <==> Load(old(file)).Some? && !diskFails
      ensures file == if ok then Saved(WithPoison(Load(old(file)).value, version)) else old(file)
    {
      match Load(file) {
        case Some(s) => ok := Save(WithPoison(s, version), diskFails);
        case None => ok := false;
      }
    }

    method IsPoisoned(version: string) returns (b: Option<bool>)
      ensures b == match Load(file) case Some(s) => Some(version in s.poisoned) case None => None
    {
      match Load(file) {
        case Some(s) => b := Some(version in s.poisoned);
        case None => b := None;
      }
    }
  }
}
