/** Liveness and progress from a stream of version reports (unoq_ota/health/version_report.py). */
module Health {
  import opened Wrappers
  import opened Decimal
  import Json

  datatype Report = Report(version: string, count: nat)

  // ---------------------------------------------------------------------------------------------
  // Report lines

  /** The characters up to the next white space. */
  function Word(s: string): string {
    if s == [] || Json.IsSpace(s[0]) then "" else [s[0]] + Word(s[1..])
  }

  lemma WordFits(s: string)
    ensures |Word(s)| <= |s|
  {
  }

  function Words(s: string): seq<string>
    decreases |s|
  {
    if s == [] then []
    else if Json.IsSpace(s[0]) then Words(s[1..])
    else
      WordFits(s);
      [Word(s)] + Words(s[|Word(s)|..])
  }

  predicate AllDigitsNow(s: string) {
    s == [] || (IsDigit(s[0]) && AllDigitsNow(s[1..]))
  }

  lemma AllDigitsAgree(s: string)
    ensures AllDigitsNow(s) <==> AllDigits(s)
  {
    if s != [] {
      AllDigitsAgree(s[1..]);
      assert s == [s[0]] + s[1..];
      assert AllDigits(s) ==> AllDigits(s[1..]) by {
        assert forall i :: 0 <= i < |s| - 1 ==> s[1..][i] == s[i + 1];
      }
      assert forall i :: 0 < i < |s| ==> s[i] == s[1..][i - 1];
    }
  }

  /** `parse_health_line`: three words, the marker, the version, and `seq=` with a decimal count. */
  function ParseLine(line: string): Option<Report> {
    var w := Words(line);
    if |w| == 3 && w[0] == "OTA-HEALTH" && |w[2]| > 4 && w[2][..4] == "seq=" && AllDigitsNow(w[2][4..]) then
      AllDigitsAgree(w[2][4..]);
      Some(Report(w[1], Value(w[2][4..])))
    else None
  }

  ghost predicate NoSpace(s: string) {
    forall i :: 0 <= i < |s| ==> !Json.IsSpace(s[i])
  }

  lemma {:induction false} WordIs(word: string, rest: string)
    requires NoSpace(word) && (rest == "" || Json.IsSpace(rest[0]))
    ensures Word(word + rest) == word
  {
    if word == "" {
      assert word + rest == rest;
    } else {
      WordIs(word[1..], rest);
      assert (word + rest)[1..] == word[1..] + rest;
    }
  }

  lemma FirstWord(word: string, rest: string)
    requires word != "" && NoSpace(word) && (rest == "" || Json.IsSpace(rest[0]))
    ensures Words(word + rest) == [word] + Words(rest)
  {
    WordIs(word, rest);
    assert (word + rest)[0] == word[0];
    assert (word + rest)[|word|..] == rest;
  }

  lemma {:induction false} SkipSpace(space: string, rest: string)
    requires Json.AllSpace(space)
    ensures Words(space + rest) == Words(rest)
  {
    if space == "" {
      assert space + rest == rest;
    } else {
      SkipSpace(space[1..], rest);
      assert (space + rest)[1..] == space[1..] + rest;
    }
  }

  lemma {:induction false} NothingButSpace(space: string)
    requires Json.AllSpace(space)
    ensures Words(space) == []
  {
    if space != "" {
      NothingButSpace(space[1..]);
    }
  }

  lemma WordAfterSpace(space: string, word: string, rest: string)
    requires Json.AllSpace(space) && word != "" && NoSpace(word) && (rest == "" || Json.IsSpace(rest[0]))
    ensures Words(space + (word + rest)) == [word] + Words(rest)
  {
    SkipSpace(space, word + rest);
    FirstWord(word, rest);
  }

  lemma CountWordOf(digits: string)
    requires digits != "" && AllDigits(digits)
    ensures var word := "seq=" + digits;
            NoSpace(word) && |word| > 4 && word[..4] == "seq=" && word[4..] == digits
  {
    var word := "seq=" + digits;
    forall i | 0 <= i < |word|
      ensures !Json.IsSpace(word[i])
    {
      assert i >= 4 ==> word[i] == digits[i - 4];
    }
  }

  /** A line is this report: the marker, the version and a decimal count after `seq=`, with white space between them. */
  ghost predicate SpellsReport(line: string, lead: string, gap: string, space: string, digits: string, tail: string, r: Report) {
    && line == lead + ("OTA-HEALTH" + (gap + (r.version + (space + (("seq=" + digits) + tail)))))
    && Json.AllSpace(lead) && Json.AllSpace(gap) && Json.AllSpace(space) && Json.AllSpace(tail) && gap != "" && space != ""
    && r.version != "" && NoSpace(r.version)
    && digits != "" && AllDigits(digits) && Value(digits) == r.count
  }

  lemma {:induction false} WordEnds(s: string)
    ensures NoSpace(Word(s)) && Word(s) <= s && (|Word(s)| < |s| ==> Json.IsSpace(s[|Word(s)|]))
  {
    if s != "" && !Json.IsSpace(s[0]) {
      WordEnds(s[1..]);
      assert forall i :: 0 < i < |Word(s)| ==> Word(s)[i] == Word(s[1..])[i - 1];
    }
  }

  /** White space, the first word, and what the other words are read from. */
  lemma {:induction false} FirstOf(s: string) returns (lead: string, rest: string)
    requires Words(s) != []
    ensures s == lead + (Words(s)[0] + rest) && Json.AllSpace(lead)
    ensures s != "" && (lead == "" ==> !Json.IsSpace(s[0]))
    ensures Words(s)[0] != "" && NoSpace(Words(s)[0]) && (rest != "" ==> Json.IsSpace(rest[0])) && Words(rest) == Words(s)[1..]
    decreases |s|
  {
    if Json.IsSpace(s[0]) {
      var more;
      more, rest := FirstOf(s[1..]);
      lead := [s[0]] + more;
    } else {
      WordEnds(s);
      lead, rest := "", s[|Word(s)|..];
    }
  }

  lemma {:induction false} NoWordsIsSpace(s: string)
    requires Words(s) == []
    ensures Json.AllSpace(s)
    decreases |s|
  {
    if s != "" {
      NoWordsIsSpace(s[1..]);
      assert s == [s[0]] + s[1..];
    }
  }

  /** A line that is read as a report spells it. */
  lemma ReadMeansSpelled(line: string, r: Report)
    requires ParseLine(line) == Some(r)
    ensures exists lead, gap, space, digits, tail :: SpellsReport(line, lead, gap, space, digits, tail, r)
  {
    var lead, rest := FirstOf(line);
    var gap, more := FirstOf(rest);
    var space, tail := FirstOf(more);
    var word := Words(line)[2];
    NoWordsIsSpace(tail);
    AllDigitsAgree(word[4..]);
    assert word == "seq=" + word[4..];
    assert rest != "" && more != "";
    assert SpellsReport(line, lead, gap, space, word[4..], tail, r);
  }

  lemma SpelledIsRead(line: string, lead: string, gap: string, space: string, digits: string, tail: string, r: Report)
    requires SpellsReport(line, lead, gap, space, digits, tail, r)
    ensures ParseLine(line) == Some(r)
  {
    var word := "seq=" + digits;
    CountWordOf(digits);
    AllDigitsAgree(digits);
    NothingButSpace(tail);
    WordAfterSpace(space, word, tail);
    assert (space + (word + tail))[0] == space[0];
    WordAfterSpace(gap, r.version, space + (word + tail));
    assert (gap + (r.version + (space + (word + tail))))[0] == gap[0];
    WordAfterSpace(lead, "OTA-HEALTH", gap + (r.version + (space + (word + tail))));
  }

  /** A line is read as a report exactly if it spells it. */
  lemma LineExactly(line: string, r: Report)
    ensures ParseLine(line) == Some(r) <==>
              exists lead, gap, space, digits, tail :: SpellsReport(line, lead, gap, space, digits, tail, r)
  {
    if ParseLine(line) == Some(r) {
      ReadMeansSpelled(line, r);
    }
    forall lead, gap, space, digits, tail | SpellsReport(line, lead, gap, space, digits, tail, r)
      ensures ParseLine(line) == Some(r)
    {
      SpelledIsRead(line, lead, gap, space, digits, tail, r);
    }
  }

  function ReportsOf(lines: seq<string>): seq<Report> {
    if lines == [] then []
    else
      var front, last := ReportsOf(lines[..|lines| - 1]), ParseLine(lines[|lines| - 1]);
      if last.Some? then front + [last.value] else front
  }

  method Reports(lines: seq<string>) returns (reports: seq<Report>)
    ensures reports == ReportsOf(lines)
  {
    reports := [];
    for i := 0 to |lines|
      invariant reports == ReportsOf(lines[..i])
    {
      var parsed := ParseLine(lines[i]);
      if parsed.Some? {
        reports := reports + [parsed.value];
      }
      assert lines[..i + 1][..i] == lines[..i];
    }
    assert lines[..|lines|] == lines;
  }

  // ---------------------------------------------------------------------------------------------
  // What the samples must show

  /** No later sample is below any earlier one, and the last exceeds the first. */
  ghost predicate Advances(counts: seq<nat>) {
    && |counts| > 0
    && (forall i, j :: 0 <= i < j < |counts| ==> counts[i] <= counts[j])
    && counts[|counts| - 1] > counts[0]
  }

  /** `_progressed`; on no samples at all the source raises IndexError, so callers must have some. */
  method Progressed(counts: seq<nat>) returns (b: bool)
    requires |counts| > 0
    ensures b <==> Advances(counts)
  {
    for k := 1 to |counts|
      invariant forall i, j :: 0 <= i < j < k ==> counts[i] <= counts[j]
    {
      if counts[k] < counts[k - 1] {
        return false;
      }
    }
    return counts[|counts| - 1] > counts[0];
  }

  /** The counts one version reported, in order. */
  function CountsOf(version: string, reports: seq<Report>): seq<nat> {
    if reports == [] then []
    else
      var front, last := CountsOf(version, reports[..|reports| - 1]), reports[|reports| - 1];
      if last.version == version then front + [last.count] else front
  }

  ghost predicate Shows(version: string, reports: seq<Report>, minReports: nat) {
    |CountsOf(version, reports)| >= minReports && Advances(CountsOf(version, reports))
  }

  /** Where the reports of one version stand. */
  ghost function Positions(version: string, reports: seq<Report>): (r: seq<nat>)
    ensures |r| == |CountsOf(version, reports)|
    ensures forall k :: 0 <= k < |r| ==>
              && r[k] < |reports| && reports[r[k]].version == version && CountsOf(version, reports)[k] == reports[r[k]].count
    ensures forall k, l :: 0 <= k < l < |r| ==> r[k] < r[l]
    ensures forall i :: 0 <= i < |reports| && reports[i].version == version ==> i in r
  {
    if reports == [] then []
    else
      var n := |reports| - 1;
      var front := Positions(version, reports[..n]);
      if reports[n].version == version then front + [n] else front
  }

  ghost function All(version: string, reports: seq<Report>): set<nat> {
    set i: nat | i < |reports| && reports[i].version == version
  }

  /** Told from the reports themselves: there are enough of that version, none is below an earlier one, and the last exceeds the first. */
  ghost predicate MakesProgress(version: string, reports: seq<Report>, minReports: nat) {
    && |All(version, reports)| >= minReports
    && (forall i, j :: i in All(version, reports) && j in All(version, reports) && i < j ==> reports[i].count <= reports[j].count)
    && exists i, j :: i in All(version, reports) && j in All(version, reports) && reports[i].count < reports[j].count
  }

  lemma {:induction false} AsManyAsCounts(version: string, reports: seq<Report>)
    ensures |All(version, reports)| == |CountsOf(version, reports)|
  {
    if reports == [] {
      assert All(version, reports) == {};
    } else {
      var n := |reports| - 1;
      AsManyAsCounts(version, reports[..n]);
      assert All(version, reports) == All(version, reports[..n]) + if reports[n].version == version then {n} else {};
    }
  }

  /** Where a report of the version stands among them. */
  lemma PlaceOf(version: string, reports: seq<Report>, i: nat) returns (k: nat)
    requires i in All(version, reports)
    ensures k < |CountsOf(version, reports)| && Positions(version, reports)[k] == i
    ensures CountsOf(version, reports)[k] == reports[i].count
  {
    var p := Positions(version, reports);
    assert i in p && |p| == |CountsOf(version, reports)|;
    k :| k < |p| && p[k] == i;
  }

  lemma ReportAt(version: string, reports: seq<Report>, k: nat) returns (i: nat)
    requires k < |CountsOf(version, reports)|
    ensures i in All(version, reports) && Positions(version, reports)[k] == i
    ensures CountsOf(version, reports)[k] == reports[i].count
  {
    i := Positions(version, reports)[k];
  }

  lemma LaterPlace(version: string, reports: seq<Report>, k: nat, l: nat)
    requires k < |CountsOf(version, reports)| && l < |CountsOf(version, reports)|
    ensures k < l <==> Positions(version, reports)[k] < Positions(version, reports)[l]
  {
    var p := Positions(version, reports);
    assert k < l ==> p[k] < p[l];
    assert l < k ==> p[l] < p[k];
  }

  lemma NeverBelow(version: string, reports: seq<Report>)
    ensures (forall k, l :: 0 <= k < l < |CountsOf(version, reports)| ==> CountsOf(version, reports)[k] <= CountsOf(version, reports)[l])
            <==> forall i, j :: i in All(version, reports) && j in All(version, reports) && i < j ==> reports[i].count <= reports[j].count
  {
    var counts, all := CountsOf(version, reports), All(version, reports);
    if forall k, l :: 0 <= k < l < |counts| ==> counts[k] <= counts[l] {
      forall i, j | i in all && j in all && i < j
        ensures reports[i].count <= reports[j].count
      {
        var k := PlaceOf(version, reports, i);
        var l := PlaceOf(version, reports, j);
        LaterPlace(version, reports, k, l);
      }
    }
    if forall i, j :: i in all && j in all && i < j ==> reports[i].count <= reports[j].count {
      forall k, l | 0 <= k < l < |counts|
        ensures counts[k] <= counts[l]
      {
        var i := ReportAt(version, reports, k);
        var j := ReportAt(version, reports, l);
        LaterPlace(version, reports, k, l);
      }
    }
  }

  /** Where no sample is below an earlier one, the last exceeds the first if any sample exceeds another. */
  lemma SomeExceeds(counts: seq<nat>)
    requires forall k, l :: 0 <= k < l < |counts| ==> counts[k] <= counts[l]
    ensures Advances(counts) <==> exists k, l :: 0 <= k < |counts| && 0 <= l < |counts| && counts[k] < counts[l]
  {
    if k, l :| 0 <= k < |counts| && 0 <= l < |counts| && counts[k] < counts[l] {
      assert 0 < k ==> counts[0] <= counts[k];
      assert l < |counts| - 1 ==> counts[l] <= counts[|counts| - 1];
    }
  }

  lemma ExceedsAgree(version: string, reports: seq<Report>)
    ensures var counts := CountsOf(version, reports);
            (exists k, l :: 0 <= k < |counts| && 0 <= l < |counts| && counts[k] < counts[l]) <==>
              exists i, j :: i in All(version, reports) && j in All(version, reports) && reports[i].count < reports[j].count
  {
    var counts, all := CountsOf(version, reports), All(version, reports);
    if k, l :| 0 <= k < |counts| && 0 <= l < |counts| && counts[k] < counts[l] {
      var i := ReportAt(version, reports, k);
      var j := ReportAt(version, reports, l);
      assert i in all && j in all && reports[i].count < reports[j].count;
    }
    if i, j :| i in all && j in all && reports[i].count < reports[j].count {
      var k := PlaceOf(version, reports, i);
      var l := PlaceOf(version, reports, j);
      assert counts[k] < counts[l];
    }
  }

  lemma ShowsIffProgress(version: string, reports: seq<Report>, minReports: nat)
    ensures Shows(version, reports, minReports) <==> MakesProgress(version, reports, minReports)
  {
    AsManyAsCounts(version, reports);
    NeverBelow(version, reports);
    ExceedsAgree(version, reports);
    var counts := CountsOf(version, reports);
    if forall k, l :: 0 <= k < l < |counts| ==> counts[k] <= counts[l] {
      SomeExceeds(counts);
    }
  }

  /** `wait_healthy` on the lines collected; None where it raises, which needs `min_reports` of zero. */
  method WaitHealthy(lines: seq<string>, expected: string, minReports: nat) returns (r: Option<bool>)
    ensures r == None <==> minReports == 0 && All(expected, ReportsOf(lines)) == {}
    ensures r == Some(true) <==> MakesProgress(expected, ReportsOf(lines), minReports)
  {
    ShowsIffProgress(expected, ReportsOf(lines), minReports);
    ghost var all := Positions(expected, ReportsOf(lines));
    assert all != [] ==> all[0] in All(expected, ReportsOf(lines));
    var reports := Reports(lines);
    var matching := [];
    for i := 0 to |reports|
      invariant matching == CountsOf(expected, reports[..i])
    {
      if reports[i].version == expected {
        matching := matching + [reports[i].count];
      }
      assert reports[..i + 1][..i] == reports[..i];
    }
    assert reports[..|reports|] == reports;
    if |matching| < minReports {
      return Some(false);
    }
    if matching == [] {
      return None;
    }
    var b := Progressed(matching);
    r := Some(b);
  }

  /** Grouping by version: every version seen, once, in order of appearance, with exactly its own counts. */
  ghost predicate Groups(byVersion: map<string, seq<nat>>, order: seq<string>, reports: seq<Report>) {
    && (forall v :: v in byVersion <==> v in order)
    && (forall i, j :: 0 <= i < j < |order| ==> order[i] != order[j])
    && (forall v :: v in byVersion ==> byVersion[v] == CountsOf(v, reports) && byVersion[v] != [])
    && (forall v :: CountsOf(v, reports) != [] ==> v in byVersion)
  }

  method GroupByVersion(reports: seq<Report>) returns (byVersion: map<string, seq<nat>>, order: seq<string>)
    ensures Groups(byVersion, order, reports)
  {
    byVersion, order := map[], [];
    for i := 0 to |reports|
      invariant Groups(byVersion, order, reports[..i])
    {
      var Report(v, n) := reports[i];
      GroupStep(byVersion, order, reports[..i], reports[i]);
      assert reports[..i + 1] == reports[..i] + [reports[i]];
      if v in byVersion {
        byVersion := byVersion[v := byVersion[v] + [n]];
      } else {
        byVersion, order := byVersion[v := [n]], order + [v];
      }
    }
    assert reports[..|reports|] == reports;
  }

  lemma GroupStep(byVersion: map<string, seq<nat>>, order: seq<string>, reports: seq<Report>, r: Report)
    requires Groups(byVersion, order, reports)
    ensures r.version in byVersion ==>
              Groups(byVersion[r.version := byVersion[r.version] + [r.count]], order, reports + [r])
    ensures r.version !in byVersion ==>
              Groups(byVersion[r.version := [r.count]], order + [r.version], reports + [r])
  {
    var next := reports + [r];
    assert next[..|next| - 1] == reports;
    assert forall v :: CountsOf(v, next) == CountsOf(v, reports) + if v == r.version then [r.count] else [];
  }

  /** The versions among the first `n` of `order` that show enough progress, once each. */
  ghost predicate AliveAmong(alive: seq<string>, order: seq<string>, n: nat, reports: seq<Report>, minReports: nat)
    requires n <= |order|
  {
    && (forall v :: v in alive ==> v in order[..n] && Shows(v, reports, minReports))
    && (forall k :: 0 <= k < n && Shows(order[k], reports, minReports) ==> order[k] in alive)
    && (forall k, l :: 0 <= k < l < |alive| ==> alive[k] != alive[l])
  }

  lemma OneMoreVersion(alive: seq<string>, order: seq<string>, n: nat, reports: seq<Report>, minReports: nat)
    requires n < |order| && AliveAmong(alive, order, n, reports, minReports)
    requires forall i, j :: 0 <= i < j < |order| ==> order[i] != order[j]
    ensures AliveAmong(if Shows(order[n], reports, minReports) then alive + [order[n]] else alive, order, n + 1, reports, minReports)
  {
    assert order[..n + 1] == order[..n] + [order[n]];
    assert order[n] !in order[..n];
  }

  lemma AliveIsShown(alive: seq<string>, byVersion: map<string, seq<nat>>, order: seq<string>, reports: seq<Report>,
                     minReports: nat, v: string)
    requires Groups(byVersion, order, reports) && AliveAmong(alive, order, |order|, reports, minReports)
    ensures Shows(v, reports, minReports) <==> v in alive
  {
    if Shows(v, reports, minReports) {
      assert v in byVersion && v in order;
    }
  }

  /** The version to return, when the list of versions that are alive has just one entry. */
  function Sole(alive: seq<string>): Option<string> {
    if |alive| == 1 then Some(alive[0]) else None
  }

  ghost predicate TheOnlyOne(v: string, reports: seq<Report>, minReports: nat) {
    MakesProgress(v, reports, minReports) && forall w :: MakesProgress(w, reports, minReports) ==> w == v
  }

  lemma SoleIsAlone(alive: seq<string>, v: string)
    requires forall k, l :: 0 <= k < l < |alive| ==> alive[k] != alive[l]
    ensures Sole(alive) == Some(v) <==> v in alive && forall w :: w in alive ==> w == v
  {
    assert |alive| > 1 ==> alive[0] in alive && alive[1] in alive && alive[0] != alive[1];
  }

  lemma AliveMakesProgress(alive: seq<string>, byVersion: map<string, seq<nat>>, order: seq<string>, reports: seq<Report>,
                           minReports: nat)
    requires Groups(byVersion, order, reports) && AliveAmong(alive, order, |order|, reports, minReports)
    ensures forall w :: MakesProgress(w, reports, minReports) <==> w in alive
  {
    forall w
      ensures MakesProgress(w, reports, minReports) <==> w in alive
    {
      ShowsIffProgress(w, reports, minReports);
      AliveIsShown(alive, byVersion, order, reports, minReports, w);
    }
  }

  lemma OnlyOneAgrees(alive: seq<string>, reports: seq<Report>, minReports: nat, v: string)
    requires forall w :: MakesProgress(w, reports, minReports) <==> w in alive
    ensures TheOnlyOne(v, reports, minReports) <==> v in alive && forall w :: w in alive ==> w == v
  {
  }

  lemma SoleIsTheOnlyOne(alive: seq<string>, byVersion: map<string, seq<nat>>, order: seq<string>, reports: seq<Report>,
                         minReports: nat, v: string)
    requires Groups(byVersion, order, reports) && AliveAmong(alive, order, |order|, reports, minReports)
    ensures Sole(alive) == Some(v) <==> TheOnlyOne(v, reports, minReports)
  {
    SoleIsAlone(alive, v);
    AliveMakesProgress(alive, byVersion, order, reports, minReports);
    OnlyOneAgrees(alive, reports, minReports, v);
  }

  /**
    `wait_alive` on the lines collected: the version it returns is the one and only version for which
    `wait_healthy` would hold on the same lines; with none, or several, it returns None.
   */
  method WaitAlive(lines: seq<string>, minReports: nat) returns (r: Option<string>)
    ensures forall v :: r == Some(v) <==> TheOnlyOne(v, ReportsOf(lines), minReports)
  {
    var reports := Reports(lines);
    var byVersion, order := GroupByVersion(reports);
    var alive := [];
    for i := 0 to |order|
      invariant AliveAmong(alive, order, i, reports, minReports)
    {
      OneMoreVersion(alive, order, i, reports, minReports);
      var counts := byVersion[order[i]];
      var progressed := Progressed(counts);
      if |counts| >= minReports && progressed {
        alive := alive + [order[i]];
      }
    }
    r := Sole(alive);
    forall v
      ensures r == Some(v) <==> TheOnlyOne(v, reports, minReports)
    {
      SoleIsTheOnlyOne(alive, byVersion, order, reports, minReports, v);
    }
  }

  /**
    A device that restarts inside the window is never healthy: one sample below an earlier one refuses the version,
    however the window starts and ends.
   */
  lemma RestartIsUnhealthy(version: string, reports: seq<Report>, minReports: nat, i: nat, j: nat)
    requires i < j < |reports| && reports[i].version == reports[j].version == version
    requires reports[j].count < reports[i].count
    ensures !Shows(version, reports, minReports)
  {
    ShowsIffProgress(version, reports, minReports);
    assert i in All(version, reports) && j in All(version, reports);
  }
}
