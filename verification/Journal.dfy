/**
  The event journal (unoq_ota/events.py): an append-only file of lines, and a sibling file with the offset up to
  which they have been POSTed.

  Appends and offset writes go byte after byte and character after character, so a power cut or a full disk can tear
  either; `history` records every state the disk and the server go through, so a power cut can leave any of them.
 */
module Journal {
  import opened Wrappers
  import opened Decimal
  import Json

  const NEWLINE: byte := 10

  /** An event that reached the server, with the position in the journal just after the line it was read from. */
  datatype Post = Post(end: nat, event: Json.Json)

  /** The journal file (no bytes when it is missing), the text of the offset file, and what the server has received. */
  datatype Log = Log(data: Bytes, offset: Option<string>, posts: seq<Post>)

  type Parser = Bytes -> Option<Json.Json>

  /** `_read_offset`, before it is compared with the length of the journal. */
  function Stored(l: Log): nat {
    match l.offset
    case None => 0
    case Some(text) =>
      match Json.IntOfText(text)
      case Some(n) => if n > 0 then n else 0
      case None => 0
  }

  // ---------------------------------------------------------------------------------------------
  // The offset file

  /** The stored offset is the positive number that the file spells; any other text, or no file, counts for zero. */
  lemma StoredExactly(l: Log, n: nat)
    requires n > 0
    ensures Stored(l) == n <==>
              l.offset.Some? && exists lead, sign, body, tail :: Json.SpellsInt(l.offset.value, lead, sign, body, tail, n)
  {
    if l.offset.Some? {
      Json.IntOfTextExactly(l.offset.value, n);
    }
  }

  /** However much of `str(n)` reached the offset file, the offset read back is at most `n`, and `n` if all of it did. */
  lemma TornOffsetIsNeverLarger(l: Log, n: nat, k: nat)
    requires k <= |Digits(n)| && l.offset == Some(Digits(n)[..k])
    ensures Stored(l) <= n
    ensures k == |Digits(n)| ==> Stored(l) == n
  {
    var t := Digits(n)[..k];
    PrefixNeverLarger(Digits(n), k);
    if k > 0 {
      Json.DigitsReadBack(t);
    }
    assert k == |Digits(n)| ==> t == Digits(n);
  }

  // ---------------------------------------------------------------------------------------------
  // Lines

  predicate Boundary(data: Bytes, i: nat) {
    i <= |data| && (i == 0 || data[i - 1] == NEWLINE)
  }

  ghost predicate NoNewline(data: Bytes, from: nat, to: nat)
    requires to <= |data|
  {
    forall i :: from <= i < to ==> data[i] != NEWLINE
  }

  /** A newline-terminated line from `s` up to and including the newline before `e`. */
  ghost predicate Line(data: Bytes, s: nat, e: nat) {
    s < e <= |data| && Boundary(data, s) && data[e - 1] == NEWLINE && NoNewline(data, s, e - 1)
  }

  function Raw(data: Bytes, s: nat, e: nat): Bytes
    requires s < e <= |data|
  {
    data[s..e - 1]
  }

  /** `rest.find(b"\n", start)`. */
  function Find(data: Bytes, p: nat): (r: Option<nat>)
    requires p <= |data|
    ensures r.Some? ==> p <= r.value < |data| && data[r.value] == NEWLINE && NoNewline(data, p, r.value)
    ensures r.None? ==> NoNewline(data, p, |data|)
    decreases |data| - p
  {
    if p == |data| then None else if data[p] == NEWLINE then Some(p) else Find(data, p + 1)
  }

  /** Every parsable line that ends at or before `high` has reached the server. */
  ghost predicate PostedUpTo(parse: Parser, data: Bytes, posts: seq<Post>, high: nat) {
    forall s: nat, e: nat :: Line(data, s, e) && e <= high && parse(Raw(data, s, e)).Some? ==>
      Post(e, parse(Raw(data, s, e)).value) in posts
  }

  /** The high-water mark: a line boundary that the stored offset never passes, with everything before it posted. */
  ghost predicate Covered(parse: Parser, l: Log, high: nat) {
    Boundary(l.data, high) && Stored(l) <= high && PostedUpTo(parse, l.data, l.posts, high)
  }

  /** Nothing is lost: every parsable line that the stored offset says has been posted has reached the server. */
  ghost predicate LosesNothing(parse: Parser, l: Log) {
    Stored(l) <= |l.data| && PostedUpTo(parse, l.data, l.posts, Stored(l))
  }

  ghost predicate Safe(parse: Parser, l: Log) {
    exists high :: Covered(parse, l, high)
  }

  lemma SafeLosesNothing(parse: Parser, l: Log)
    requires Safe(parse, l)
    ensures LosesNothing(parse, l)
  {
  }

  /** Growing the journal neither ends nor changes a line below the mark. */
  lemma AppendKeepsCovered(parse: Parser, l: Log, more: Bytes, high: nat)
    requires Covered(parse, l, high)
    ensures Covered(parse, l.(data := l.data + more), high)
  {
    var data := l.data + more;
    forall s: nat, e: nat | Line(data, s, e) && e <= high && parse(Raw(data, s, e)).Some?
      ensures Post(e, parse(Raw(data, s, e)).value) in l.posts
    {
      assert forall i :: 0 <= i < |l.data| ==> data[i] == l.data[i];
      assert Raw(data, s, e) == Raw(l.data, s, e);
      assert Line(l.data, s, e);
    }
  }

  /** The first newline after a position at or below the mark either is below the mark too, or ends the line at the mark. */
  lemma NextLine(parse: Parser, data: Bytes, posts: seq<Post>, high: nat, p: nat, e: nat)
    requires Boundary(data, high) && p <= high && p < e <= |data| && data[e - 1] == NEWLINE && NoNewline(data, p, e - 1)
    ensures e <= high || (p == high && Line(data, p, e))
    ensures e > high && PostedUpTo(parse, data, posts, high) &&
            (parse(Raw(data, p, e)).Some? ==> Post(e, parse(Raw(data, p, e)).value) in posts) ==>
              PostedUpTo(parse, data, posts, e)
  {
    if e > high {
      assert high == 0 || data[high - 1] == NEWLINE;
      forall s: nat, t: nat | Line(data, s, t) && high < t <= e
        ensures s == p && t == e
      {
        assert data[t - 1] == NEWLINE && (p == 0 || data[p - 1] == NEWLINE) && (s == 0 || data[s - 1] == NEWLINE);
      }
    }
  }

  // ---------------------------------------------------------------------------------------------
  // Exactly once

  /** What the bytes up to a newline contribute: one event, or nothing when they do not parse. */
  function EventOf(parse: Parser, data: Bytes, p: nat, e: nat): seq<Post>
    requires p < e <= |data|
  {
    match parse(Raw(data, p, e)) case Some(event) => [Post(e, event)] case None => []
  }

  /** The events of the parsable lines between two positions, in order. */
  function Events(parse: Parser, data: Bytes, p: nat, end: nat): seq<Post>
    requires p <= |data|
    decreases |data| - p
  {
    match Find(data, p)
    case None => []
    case Some(nl) =>
      if nl >= end then []
      else
        EventOf(parse, data, p, nl + 1) + Events(parse, data, nl + 1, end)
  }

  /** The server has received exactly the parsable lines up to the stored offset, once each, in order. */
  ghost predicate Exact(parse: Parser, l: Log) {
    Boundary(l.data, Stored(l)) && l.posts == Events(parse, l.data, 0, Stored(l))
  }

  /** The event of a parsable line that starts at `s`, between two positions. */
  ghost predicate ComesFrom(parse: Parser, data: Bytes, from: nat, end: nat, p: Post, s: nat) {
    from <= s && Line(data, s, p.end) && p.end <= end && parse(Raw(data, s, p.end)) == Some(p.event)
  }

  /** The events of the parsable lines between two positions, and no others, once each and in order. */
  ghost predicate OnceEachInOrder(parse: Parser, data: Bytes, posts: seq<Post>, from: nat, end: nat) {
    && Ascending(posts)
    && (forall p: Post :: p in posts <==> exists s: nat :: ComesFrom(parse, data, from, end, p, s))
  }

  lemma EventsExactly(parse: Parser, data: Bytes, from: nat, end: nat)
    requires Boundary(data, from)
    ensures OnceEachInOrder(parse, data, Events(parse, data, from, end), from, end)
  {
    var posts := Events(parse, data, from, end);
    EventsAscend(parse, data, from, end);
    forall p: Post
      ensures p in posts <==> exists s: nat :: ComesFrom(parse, data, from, end, p, s)
    {
      EventIffLine(parse, data, from, end, p);
    }
  }

  lemma EventIffLine(parse: Parser, data: Bytes, from: nat, end: nat, p: Post)
    requires Boundary(data, from)
    ensures p in Events(parse, data, from, end) <==> exists s: nat :: ComesFrom(parse, data, from, end, p, s)
  {
    if p in Events(parse, data, from, end) {
      var s := EventsAreLines(parse, data, from, end, p);
    }
    forall s: nat | ComesFrom(parse, data, from, end, p, s)
      ensures p in Events(parse, data, from, end)
    {
      LineIsAmongEvents(parse, data, from, end, s, p.end);
    }
  }

  lemma {:induction false} FindIs(data: Bytes, p: nat, nl: nat)
    requires p <= nl < |data| && data[nl] == NEWLINE && NoNewline(data, p, nl)
    ensures Find(data, p) == Some(nl)
    decreases nl - p
  {
    if p < nl {
      FindIs(data, p + 1, nl);
    }
  }

  /** Below a boundary, a longer journal has the same next newline. */
  lemma FindInLonger(data: Bytes, more: Bytes, p: nat, end: nat)
    requires p < end && Boundary(data, end)
    ensures Find(data, p).Some? && Find(data, p).value < end && Find(data + more, p) == Find(data, p)
  {
    var r := Find(data, p);
    assert data[end - 1] == NEWLINE;
    assert forall i :: 0 <= i < |data| ==> (data + more)[i] == data[i];
    FindIs(data + more, p, r.value);
  }

  lemma NothingLeft(parse: Parser, data: Bytes, p: nat)
    requires p <= |data|
    ensures Events(parse, data, p, p) == []
  {
    assert Find(data, p).Some? ==> Find(data, p).value >= p;
  }

  lemma FirstEvent(parse: Parser, data: Bytes, p: nat, end: nat, nl: nat)
    requires p <= |data| && Find(data, p) == Some(nl) && nl < end
    ensures Events(parse, data, p, end) == EventOf(parse, data, p, nl + 1) + Events(parse, data, nl + 1, end)
  {
  }

  lemma SameEvent(parse: Parser, data: Bytes, more: Bytes, p: nat, e: nat)
    requires p < e <= |data|
    ensures EventOf(parse, data + more, p, e) == EventOf(parse, data, p, e)
  {
    assert Raw(data + more, p, e) == Raw(data, p, e);
  }

  /** Appending changes no event that ends at or before a boundary. */
  lemma {:induction false} EventsOfAppend(parse: Parser, data: Bytes, more: Bytes, p: nat, end: nat)
    requires p <= end && Boundary(data, end)
    ensures Events(parse, data + more, p, end) == Events(parse, data, p, end)
    decreases |data| - p
  {
    if p < end {
      FindInLonger(data, more, p, end);
      var nl := Find(data, p).value;
      FirstEvent(parse, data, p, end, nl);
      FirstEvent(parse, data + more, p, end, nl);
      SameEvent(parse, data, more, p, nl + 1);
      EventsOfAppend(parse, data, more, nl + 1, end);
    } else {
      NothingLeft(parse, data, end);
      NothingLeft(parse, data + more, end);
    }
  }

  /** One more line adds its event, if it has one, at the end. */
  lemma {:induction false} EventsOfNextLine(parse: Parser, data: Bytes, p: nat, q: nat, e: nat)
    requires p <= q && (p == q || Boundary(data, q)) && q < e <= |data| && data[e - 1] == NEWLINE && NoNewline(data, q, e - 1)
    ensures Events(parse, data, p, e) == Events(parse, data, p, q) + EventOf(parse, data, q, e)
    decreases |data| - p
  {
    if p == q {
      FindIs(data, q, e - 1);
      NothingLeft(parse, data, q);
      NothingLeft(parse, data, e);
    } else {
      FindBefore(data, p, q);
      var nl := Find(data, p).value;
      FirstEvent(parse, data, p, q, nl);
      FirstEvent(parse, data, p, e, nl);
      EventsOfNextLine(parse, data, nl + 1, q, e);
      Associative(EventOf(parse, data, p, nl + 1), Events(parse, data, nl + 1, q), EventOf(parse, data, q, e));
    }
  }

  /** Before a boundary there is a newline. */
  lemma FindBefore(data: Bytes, p: nat, q: nat)
    requires p < q && Boundary(data, q)
    ensures Find(data, p).Some? && Find(data, p).value < q
  {
    assert data[q - 1] == NEWLINE;
  }

  /** With no newline after `q`, that is all there is. */
  lemma {:induction false} EventsToTheEnd(parse: Parser, data: Bytes, p: nat, q: nat)
    requires p <= q <= |data| && NoNewline(data, q, |data|)
    ensures Events(parse, data, p, |data|) == Events(parse, data, p, q)
    decreases |data| - p
  {
    match Find(data, p) {
      case None =>
      case Some(nl) => EventsToTheEnd(parse, data, nl + 1, q);
    }
  }

  /** Nothing that ends at or before where reading starts is among the events. */
  lemma {:induction false} EventsEndLater(parse: Parser, data: Bytes, p: nat, end: nat)
    requires p <= |data|
    ensures forall i :: 0 <= i < |Events(parse, data, p, end)| ==> Events(parse, data, p, end)[i].end > p
    decreases |data| - p
  {
    if Find(data, p).Some? && Find(data, p).value < end {
      EventsEndLater(parse, data, Find(data, p).value + 1, end);
    }
  }

  lemma FirstLine(parse: Parser, data: Bytes, p: nat, end: nat, nl: nat, q: Post)
    requires Boundary(data, p) && Find(data, p) == Some(nl) && nl < end && q in EventOf(parse, data, p, nl + 1)
    ensures ComesFrom(parse, data, p, end, q, p)
  {
  }

  /** Each event comes from a parsable line between the positions looked at. */
  lemma {:induction false} EventsAreLines(parse: Parser, data: Bytes, p: nat, end: nat, q: Post) returns (s: nat)
    requires Boundary(data, p) && q in Events(parse, data, p, end)
    ensures ComesFrom(parse, data, p, end, q, s)
    decreases |data| - p
  {
    var nl := Find(data, p).value;
    FirstEvent(parse, data, p, end, nl);
    if q in EventOf(parse, data, p, nl + 1) {
      FirstLine(parse, data, p, end, nl, q);
      s := p;
    } else {
      s := EventsAreLines(parse, data, nl + 1, end, q);
    }
  }

  ghost predicate Ascending(posts: seq<Post>) {
    forall i, j :: 0 <= i < j < |posts| ==> posts[i].end < posts[j].end
  }

  lemma AscendingFrom(first: seq<Post>, rest: seq<Post>, e: nat)
    requires |first| <= 1 && (forall p :: p in first ==> p.end == e)
    requires Ascending(rest) && forall i :: 0 <= i < |rest| ==> rest[i].end > e
    ensures Ascending(first + rest)
  {
    var all := first + rest;
    forall i, j | 0 <= i < j < |all|
      ensures all[i].end < all[j].end
    {
      assert all[j] == rest[j - |first|];
      assert i >= |first| ==> all[i] == rest[i - |first|];
      assert i < |first| ==> all[i] in first;
    }
  }

  /** Once each, and in order: a later event's line ends later. */
  lemma {:induction false} EventsAscend(parse: Parser, data: Bytes, p: nat, end: nat)
    requires p <= |data|
    ensures Ascending(Events(parse, data, p, end))
    decreases |data| - p
  {
    if Find(data, p).Some? && Find(data, p).value < end {
      var nl := Find(data, p).value;
      EventsAscend(parse, data, nl + 1, end);
      EventsEndLater(parse, data, nl + 1, end);
      AscendingFrom(EventOf(parse, data, p, nl + 1), Events(parse, data, nl + 1, end), nl + 1);
      FirstEvent(parse, data, p, end, nl);
    }
  }

  /** Every whole parsable line after where reading starts is among the events. */
  lemma {:induction false} LineIsAmongEvents(parse: Parser, data: Bytes, p: nat, end: nat, s: nat, e: nat)
    requires p <= s && Line(data, s, e) && e <= end && parse(Raw(data, s, e)).Some?
    ensures Post(e, parse(Raw(data, s, e)).value) in Events(parse, data, p, end)
    decreases |data| - p
  {
    if p == s {
      FindIs(data, s, e - 1);
      FirstEvent(parse, data, s, end, e - 1);
    } else {
      FindBefore(data, p, s);
      var nl := Find(data, p).value;
      FirstEvent(parse, data, p, end, nl);
      LineIsAmongEvents(parse, data, nl + 1, end, s, e);
    }
  }

  // ---------------------------------------------------------------------------------------------
  // The log

  /** A POST is accepted, is refused, or reaches the server although the reply is lost; the last two raise. */
  datatype PostAnswer = Taken | Refused | ReplyLost

  /** Writing the offset works, fails before the file is truncated, or stops after some characters. */
  datatype OffsetAnswer = Writes | NotOpened | TornAt(k: nat)

  /** What the server and the disk answer for the line that ends at a position. */
  datatype FlushAnswers = FlushAnswers(post: nat -> PostAnswer, write: nat -> OffsetAnswer)

  ghost predicate NothingGoesWrong(a: FlushAnswers) {
    forall n :: a.post(n).Taken? && a.write(n).Writes?
  }

  /** Nothing goes wrong but that the server refuses some POSTs. */
  ghost predicate OnlyRefusals(a: FlushAnswers) {
    forall n :: !a.post(n).ReplyLost? && a.write(n).Writes?
  }

  ghost predicate AllSafe(parse: Parser, states: seq<Log>) {
    forall i :: 0 <= i < |states| ==> Safe(parse, states[i])
  }

  /** Where flushing starts: an offset beyond the end of the journal counts for nothing. */
  function Start(l: Log): (p: nat)
    ensures p <= |l.data|
  {
    if Stored(l) > |l.data| then 0 else Stored(l)
  }

  /**
    A journal that was cut short from outside, leaving an offset beyond its end, and has been written to since.  Of
    its lines that end at or before that stale offset, what the next flush goes through has every parsable one exactly
    if the journal is still shorter than the offset; once it has grown past it, it has none of them.
   */
  lemma StaleOffset(parse: Parser, l: Log, more: Bytes, s: nat, e: nat)
    requires Stored(l) > |l.data| && Line(l.data + more, s, e) && e <= Stored(l) && parse(Raw(l.data + more, s, e)).Some?
    ensures var now := l.(data := l.data + more);
            Post(e, parse(Raw(now.data, s, e)).value) in Events(parse, now.data, Start(now), |now.data|) <==>
              |now.data| < Stored(l)
  {
    var now := l.(data := l.data + more);
    if |now.data| < Stored(l) {
      LineIsAmongEvents(parse, now.data, 0, |now.data|, s, e);
    } else {
      EventsEndLater(parse, now.data, Stored(l), |now.data|);
    }
  }

  /** The stored offset has just moved over one more line. */
  lemma ExactAfterLine(parse: Parser, l: Log, e: nat, after: Log)
    requires Exact(parse, l) && Line(l.data, Stored(l), e) && after.data == l.data && Stored(after) == e
    requires after.posts == l.posts + EventOf(parse, l.data, Stored(l), e)
    ensures Exact(parse, after)
  {
    EventsOfNextLine(parse, l.data, 0, Stored(l), e);
  }

  /** The flush has got from where it started to `p`: what it went through has been posted, and nothing else. */
  ghost predicate Flushed(parse: Parser, before: Log, l: Log, p: nat, clean: bool) {
    && l.data == before.data && Start(before) <= p <= |l.data| && (p == Start(before) || Boundary(l.data, p))
    && l.posts == before.posts + Events(parse, l.data, Start(before), p)
    && (clean ==> Exact(parse, l) && p == Stored(l))
  }

  lemma FlushedOneMore(parse: Parser, before: Log, l: Log, after: Log, p: nat, e: nat, clean: bool)
    requires Flushed(parse, before, l, p, clean) && after.data == l.data && Stored(after) == e
    requires p < e <= |l.data| && l.data[e - 1] == NEWLINE && NoNewline(l.data, p, e - 1)
    requires after.posts == l.posts + EventOf(parse, l.data, p, e)
    ensures Flushed(parse, before, after, e, clean)
  {
    EventsOfNextLine(parse, l.data, Start(before), p, e);
    Associative(before.posts, Events(parse, l.data, Start(before), p), EventOf(parse, l.data, p, e));
    if clean {
      ExactAfterLine(parse, l, e, after);
    }
  }

  class EventLog {
    const parse: Parser
    var log: Log
    var history: seq<Log>
    ghost var high: nat
    /** Nobody else has touched the files, so the offset points into the journal and everything before it was posted. */
    ghost const intact: bool

    ghost predicate Valid()
      reads this
    {
      && |history| > 0 && history[|history| - 1] == log
      && (intact ==> Covered(parse, log, high) && AllSafe(parse, history))
    }

    /** A log over whatever is there; `mark` witnesses, if the files are intact, what an earlier life has posted. */
    constructor (parse: Parser, l: Log, ghost intact: bool, ghost mark: nat)
      requires intact ==> Covered(parse, l, mark)
      ensures Valid() && this.parse == parse && this.intact == intact && log == l && history == [l]
    {
      this.parse, log, history, high, this.intact := parse, l, [l], mark, intact;
    }

    method Put(l: Log, ghost mark: nat)
      requires Valid() && (intact ==> Covered(parse, l, mark))
      modifies this
      ensures Valid() && log == l && history == old(history) + [l] && high == mark
    {
      log, history, high := l, history + [l], mark;
    }

    /** `_append`: byte after byte, all of them or as many as fit. */
    method AppendBytes(payload: Bytes, fits: Option<nat>) returns (ok: bool)
      requires Valid()
      modifies this
      ensures Valid() && old(history) <= history && (ok <==> fits.None?)
      ensures log == old(log).(data := log.data)
      ensures log.data == old(log).data + if fits.Some? && fits.value < |payload| then payload[..fits.value] else payload
    {
      var n := if fits.Some? && fits.value < |payload| then fits.value else |payload|;
      ghost var before := log;
      assert before.data + payload[..0] == before.data;
      for i := 0 to n
        invariant Valid() && old(history) <= history && n <= |payload|
        invariant log == before.(data := before.data + payload[..i])
      {
        if intact {
          AppendKeepsCovered(parse, log, [payload[i]], high);
        }
        assert log.data + [payload[i]] == before.data + payload[..i + 1];
        Put(log.(data := log.data + [payload[i]]), high);
      }
      assert payload[..|payload|] == payload;
      ok := fits.None?;
    }

    /** `_write_offset`: the file is emptied, then written digit after digit; `mark` is what has been posted by now. */
    method WriteOffset(n: nat, answer: OffsetAnswer, ghost mark: nat) returns (ok: bool)
      requires Valid()
      requires intact ==> high <= mark && n <= mark && Boundary(log.data, mark) && PostedUpTo(parse, log.data, log.posts, mark)
      modifies this
      ensures Valid() && old(history) <= history && high == mark && (ok <==> answer.Writes?)
      ensures log == old(log).(offset := log.offset) && (ok ==> Stored(log) == n)
    {
      high := mark;
      if answer.NotOpened? {
        return false;
      }
      var digits := Digits(n);
      var k := if answer.TornAt? && answer.k < |digits| then answer.k else |digits|;
      ghost var before := log;
      for i := 0 to k + 1
        invariant Valid() && old(history) <= history && high == mark && k <= |digits|
        invariant log == before.(offset := log.offset)
        invariant i > 0 ==> log.offset == Some(digits[..i - 1])
      {
        var torn := log.(offset := Some(digits[..i]));
        TornOffsetIsNeverLarger(torn, n, i);
        Put(torn, mark);
      }
      TornOffsetIsNeverLarger(log, n, k);
      ok := answer.Writes?;
    }

    /** One line of `flush_unsent`: posted when it parses, skipped when it does not, then the offset moves past it. */
    method FlushLine(p: nat, e: nat, a: FlushAnswers) returns (ok: bool)
      requires Valid() && p < e <= |log.data| && log.data[e - 1] == NEWLINE && NoNewline(log.data, p, e - 1)
      requires intact ==> p <= high
      modifies this
      ensures Valid() && old(history) <= history && log.data == old(log).data && old(log).posts <= log.posts
      ensures ok ==> Stored(log) == e && (intact ==> e <= high)
      ensures ok ==> log.posts == old(log).posts + EventOf(parse, log.data, p, e)
      ensures OnlyRefusals(a) && !ok ==> log == old(log)
      ensures a.post(e).Taken? && a.write(e).Writes? ==> ok
    {
      var event := parse(Raw(log.data, p, e));
      if event.Some? {
        if a.post(e).Refused? {
          return false;
        }
        Put(log.(posts := log.posts + [Post(e, event.value)]), high);
        if a.post(e).ReplyLost? {
          return false;
        }
      }
      if intact {
        NextLine(parse, log.data, log.posts, high, p, e);
      }
      ok := WriteOffset(e, a.write(e), if e <= high then high else e);
    }

    /**
      `flush_unsent`, from wherever the stored offset makes it start: false where it raises; true once every complete
      line from there on has been posted or skipped, in order and once each.
     */
    method FlushUnsent(a: FlushAnswers) returns (ok: bool)
      requires Valid()
      modifies this
      ensures Valid() && old(history) <= history && log.data == old(log).data && old(log).posts <= log.posts
      ensures ok ==> log.posts == old(log).posts + Events(parse, log.data, Start(old(log)), |log.data|)
      ensures ok && intact ==> PostedUpTo(parse, log.data, log.posts, |log.data|)
      ensures NothingGoesWrong(a) ==> ok
      ensures OnlyRefusals(a) && Exact(parse, old(log)) ==> Exact(parse, log)
    {
      var p := Start(log);
      ghost var before := log;
      ghost var clean := OnlyRefusals(a) && Exact(parse, log);
      NothingLeft(parse, log.data, p);
      var nl := Find(log.data, p);
      while nl.Some?
        invariant Valid() && old(history) <= history && 0 <= p && Flushed(parse, before, log, p, clean)
        invariant nl == Find(log.data, p) && (intact ==> p <= high)
        decreases |log.data| - p
      {
        var e := nl.value + 1;
        ghost var now := log;
        ok := FlushLine(p, e, a);
        if !ok {
          return;
        }
        FlushedOneMore(parse, before, now, log, p, e, clean);
        p, nl := e, Find(log.data, e);
      }
      EventsToTheEnd(parse, log.data, Start(before), p);
      ok := true;
    }

    /** `record`: append, then try to post what is unsent; it never raises, and `flushes` is whether there is a URL to post to. */
    method Record(payload: Bytes, fits: Option<nat>, flushes: bool, a: FlushAnswers)
      requires Valid()
      modifies this
      ensures Valid() && old(history) <= history && old(log).data <= log.data && old(log).posts <= log.posts
      ensures OnlyRefusals(a) && Exact(parse, old(log)) ==> Exact(parse, log)
    {
      var appended := AppendBytes(payload, fits);
      ghost var more := log.data[|old(log).data|..];
      assert log.data == old(log).data + more;
      if Exact(parse, old(log)) {
        EventsOfAppend(parse, old(log).data, more, 0, Stored(old(log)));
      }
      if appended && flushes {
        var sent := FlushUnsent(a);
      }
    }

    /** The power goes: of everything since `k` states ago nothing has happened. */
    method PowerCut(k: nat)
      requires Valid() && k < |history|
      modifies this
      ensures Valid() && log == old(history)[k] && history == old(history)[..k + 1]
    {
      history := history[..k + 1];
      log := history[k];
      if intact {
        ghost var mark :| Covered(parse, log, mark);
        high := mark;
      }
    }
  }

  /** One call of `record`, and after how many of its steps the power goes, if it does. */
  datatype Entry = Entry(payload: Bytes, fits: Option<nat>, flushes: bool, answers: FlushAnswers, cut: Option<nat>)

  ghost predicate Undisturbed(plan: seq<Entry>) {
    forall i :: 0 <= i < |plan| ==> OnlyRefusals(plan[i].answers) && plan[i].cut.None?
  }

  /**
    Any number of records over intact files, with refused POSTs, lost replies, torn appends, torn offsets and power
    cuts: nothing the offset says has been posted is missing on the server, in any state on the way.  With refusals
    and full disks alone, the server has received exactly the parsable lines up to the offset, once each and in order.
   */
  method KeepJournal(journal: EventLog, plan: seq<Entry>)
    requires journal.Valid() && journal.intact
    modifies journal
    ensures journal.Valid()
    ensures forall i :: 0 <= i < |journal.history| ==> LosesNothing(journal.parse, journal.history[i])
    ensures Undisturbed(plan) && Exact(journal.parse, old(journal.log)) ==>
              && Exact(journal.parse, journal.log)
              && OnceEachInOrder(journal.parse, journal.log.data, journal.log.posts, 0, Stored(journal.log))
  {
    for n := 0 to |plan|
      invariant journal.Valid()
      invariant Undisturbed(plan) && Exact(journal.parse, old(journal.log)) ==> Exact(journal.parse, journal.log)
    {
      var from := |journal.history| - 1;
      journal.Record(plan[n].payload, plan[n].fits, plan[n].flushes, plan[n].answers);
      if plan[n].cut.Some? && from + plan[n].cut.value < |journal.history| {
        journal.PowerCut(from + plan[n].cut.value);
      }
    }
    EventsExactly(journal.parse, journal.log.data, 0, Stored(journal.log));
    forall i | 0 <= i < |journal.history|
      ensures LosesNothing(journal.parse, journal.history[i])
    {
      SafeLosesNothing(journal.parse, journal.history[i]);
    }
  }

  /**
    After somebody cut the journal short to `l`, one record is appended and flushed, and everything works.  Whether a
    line of the shortened journal that ends by the stale offset reaches the server - having not done so before - is
    decided by whether the journal is still shorter than that offset.
   */
  method RecordAfterShortening(parse: Parser, l: Log, payload: Bytes, a: FlushAnswers, ghost s: nat, ghost e: nat)
    returns (after: Log)
    requires Stored(l) > |l.data| && NothingGoesWrong(a)
    requires Line(l.data + payload, s, e) && e <= Stored(l) && parse(Raw(l.data + payload, s, e)).Some?
    requires Post(e, parse(Raw(l.data + payload, s, e)).value) !in l.posts
    ensures after.data == l.data + payload
    ensures Post(e, parse(Raw(l.data + payload, s, e)).value) in after.posts <==> |l.data + payload| < Stored(l)
  {
    var journal := new EventLog(parse, l, false, 0);
    var appended := journal.AppendBytes(payload, None);
    var sent := journal.FlushUnsent(a);
    StaleOffset(parse, l, payload, s, e);
    after := journal.log;
  }
}
