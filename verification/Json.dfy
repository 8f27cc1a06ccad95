/** JSON values as Python's `json` module hands them over, and `int()` applied to one. */
module Json {
  import opened Wrappers
  import opened Decimal

  /** A float as sign, mantissa and power of two; zero and minus zero are two floats with one value. */
  datatype Binary = Finite(negative: bool, mantissa: nat, exponent: int) | NaN | Infinite(negative: bool)

  /** One representation per float: the mantissa is odd, or zero with exponent zero. */
  predicate Normal(f: Binary) {
    f.Finite? ==> f.mantissa % 2 == 1 || (f.mantissa == 0 && f.exponent == 0)
  }

  type Float = f: Binary | Normal(f) witness NaN

  datatype Json =
    | Null
    | Bool(b: bool)
    | Int(n: int)
    | Flt(f: Float)
    | Str(s: string)
    | Arr(items: seq<Json>)
    | Obj(fields: map<string, Json>)

  /** `obj.get(key)` on a dict: a missing key reads as None. */
  function Get(fields: map<string, Json>, key: string): Json {
    if key in fields then fields[key] else Null
  }

  function Pow2(n: nat): (r: nat)
    ensures r > 0
  {
    if n == 0 then 1 else 2 * Pow2(n - 1)
  }

  /** `int(x)` on a float drops the fraction, toward zero; None where it raises ValueError or OverflowError. */
  function Truncate(f: Float): Option<int> {
    match f
    case Finite(negative, m, e) =>
      var size := if e >= 0 then m * Pow2(e) else m / Pow2(-e);
      Some(if negative then -size else size)
    case _ => None
  }

  /** `str.isspace` on one character. */
  predicate IsSpace(c: char) {
    var n := c as int;
    || 9 <= n <= 13 || 28 <= n <= 32 || n == 0x85 || n == 0xa0 || n == 0x1680 || 0x2000 <= n <= 0x200a
    || n in {0x2028, 0x2029, 0x202f, 0x205f, 0x3000}
  }

  function TrimLeft(s: string): string {
    if s != [] && IsSpace(s[0]) then TrimLeft(s[1..]) else s
  }

  function TrimRight(s: string): string {
    if s != [] && IsSpace(s[|s| - 1]) then TrimRight(s[..|s| - 1]) else s
  }

  /** Digits with single underscores between them; `acc` is what has been read so far. */
  function ReadDigits(s: string, acc: nat): Option<nat> {
    if s == [] || !IsDigit(s[0]) then None
    else
      var acc' := 10 * acc + DigitValue(s[0]);
      if |s| == 1 then Some(acc')
      else if s[1] == '_' then ReadDigits(s[2..], acc')
      else ReadDigits(s[1..], acc')
  }

  /** `int(text)`, None where it raises ValueError. */
  function IntOfText(text: string): Option<int> {
    var s := TrimRight(TrimLeft(text));
    if s != [] && s[0] == '-' then
      var n: Option<int> := ReadDigits(s[1..], 0);
      if n.Some? then Some(-n.value) else None
    else
      ReadDigits(if s != [] && s[0] == '+' then s[1..] else s, 0)
  }

  /** `int(value)`, None where it raises ValueError, TypeError or OverflowError. */
  function ToInt(j: Json): Option<int> {
    match j
    case Bool(b) => Some(if b then 1 else 0)
    case Int(n) => Some(n)
    case Flt(f) => Truncate(f)
    case Str(s) => IntOfText(s)
    case _ => None
  }

  // ---------------------------------------------------------------------------------------------
  // What `int()` reads, told from the characters

  ghost predicate AllSpace(s: string) {
    forall i :: 0 <= i < |s| ==> IsSpace(s[i])
  }

  /** Digits, with single underscores between some of them. */
  ghost predicate Grouped(s: string) {
    && s != [] && IsDigit(s[0]) && IsDigit(s[|s| - 1])
    && (forall i :: 0 <= i < |s| ==> IsDigit(s[i]) || s[i] == '_')
    && (forall i :: 0 <= i < |s| - 1 ==> IsDigit(s[i]) || IsDigit(s[i + 1]))
  }

  /** The digits of a text, in order. */
  function DigitsOf(s: string): (r: string)
    ensures AllDigits(r)
  {
    if s == [] then []
    else if IsDigit(s[0]) then [s[0]] + DigitsOf(s[1..]) else DigitsOf(s[1..])
  }

  /** Taking a digit off the front, with the underscore after it if there is one, keeps digits grouped, both ways. */
  lemma GroupedAfter(s: string, k: nat)
    requires 1 <= k <= 2 <= |s| && IsDigit(s[0]) && (k == 2 <==> s[1] == '_')
    ensures Grouped(s) <==> Grouped(s[k..])
  {
    var u := s[k..];
    assert forall i :: 0 <= i < |u| ==> u[i] == s[i + k];
    if Grouped(u) {
      forall i | 0 <= i < |s|
        ensures IsDigit(s[i]) || s[i] == '_'
      {
        assert i >= k ==> s[i] == u[i - k];
      }
      forall i | 0 <= i < |s| - 1
        ensures IsDigit(s[i]) || IsDigit(s[i + 1])
      {
        assert i >= k ==> s[i] == u[i - k] && s[i + 1] == u[i - k + 1];
        assert i == k - 1 ==> s[i + 1] == u[0];
      }
    }
  }

  /** Grouped digits, found from the front. */
  predicate GroupedNow(s: string) {
    && s != [] && IsDigit(s[0])
    && (|s| == 1 || if s[1] == '_' then GroupedNow(s[2..]) else GroupedNow(s[1..]))
  }

  lemma {:induction false} GroupedAgree(s: string)
    ensures Grouped(s) <==> GroupedNow(s)
    decreases |s|
  {
    if |s| > 1 && IsDigit(s[0]) {
      var k := if s[1] == '_' then 2 else 1;
      GroupedAfter(s, k);
      GroupedAgree(s[k..]);
    }
  }

  /** The number that digits denote when they go on from `acc`. */
  function ValueFrom(acc: nat, t: string): nat
    requires AllDigits(t)
    decreases |t|
  {
    if t == [] then acc else ValueFrom(10 * acc + DigitValue(t[0]), t[1..])
  }

  lemma {:induction false} ValueFromLast(acc: nat, t: string)
    requires AllDigits(t) && t != []
    ensures ValueFrom(acc, t) == 10 * ValueFrom(acc, t[..|t| - 1]) + DigitValue(t[|t| - 1])
    decreases |t|
  {
    if |t| > 1 {
      ValueFromLast(10 * acc + DigitValue(t[0]), t[1..]);
      assert t[1..][..|t| - 2] == t[..|t| - 1][1..];
    }
  }

  lemma {:induction false} ValueFromZero(t: string)
    requires AllDigits(t)
    ensures ValueFrom(0, t) == Value(t)
  {
    if t != [] {
      ValueFromLast(0, t);
      ValueFromZero(t[..|t| - 1]);
    }
  }

  lemma SkipsUnderscore(s: string)
    requires |s| > 1 && IsDigit(s[0])
    ensures DigitsOf(s) == [s[0]] + if s[1] == '_' then DigitsOf(s[2..]) else DigitsOf(s[1..])
  {
    assert s[1..][1..] == s[2..];
  }

  /** A text is read exactly if its digits are grouped, as the number they spell. */
  lemma {:induction false} ReadsGrouped(s: string, acc: nat)
    ensures ReadDigits(s, acc) == if GroupedNow(s) then Some(ValueFrom(acc, DigitsOf(s))) else None
    decreases |s|
  {
    if |s| > 1 && IsDigit(s[0]) {
      var rest := if s[1] == '_' then s[2..] else s[1..];
      SkipsUnderscore(s);
      ReadsGrouped(rest, 10 * acc + DigitValue(s[0]));
      assert DigitsOf(s)[1..] == DigitsOf(rest);
    } else if |s| == 1 {
      assert s[1..] == [];
    }
  }

  /** The number with its sign taken off. */
  function Signed(sign: string, n: int): int {
    if sign == "-" then -n else n
  }

  /** The text is white space, an optional sign, grouped digits that spell `n`, and white space again. */
  ghost predicate SpellsInt(text: string, lead: string, sign: string, body: string, tail: string, n: int) {
    && text == lead + (sign + (body + tail)) && AllSpace(lead) && AllSpace(tail) && Grouped(body)
    && sign in {"", "+", "-"} && Signed(sign, n) == Value(DigitsOf(body))
  }

  lemma {:induction false} TrimsLeft(space: string, rest: string)
    requires AllSpace(space) && (rest != [] ==> !IsSpace(rest[0]))
    ensures TrimLeft(space + rest) == rest
  {
    if space == [] {
      assert space + rest == rest;
    } else {
      assert (space + rest)[1..] == space[1..] + rest;
      TrimsLeft(space[1..], rest);
    }
  }

  lemma {:induction false} TrimsRight(rest: string, space: string)
    requires AllSpace(space) && (rest != [] ==> !IsSpace(rest[|rest| - 1]))
    ensures TrimRight(rest + space) == rest
  {
    if space == [] {
      assert rest + space == rest;
    } else {
      assert (rest + space)[..|rest + space| - 1] == rest + space[..|space| - 1];
      TrimsRight(rest, space[..|space| - 1]);
    }
  }

  lemma {:induction false} TrimmedLeft(s: string) returns (space: string)
    ensures s == space + TrimLeft(s) && AllSpace(space)
  {
    if s != [] && IsSpace(s[0]) {
      var more := TrimmedLeft(s[1..]);
      space := [s[0]] + more;
    } else {
      space := [];
    }
  }

  lemma {:induction false} TrimmedRight(s: string) returns (space: string)
    ensures s == TrimRight(s) + space && AllSpace(space)
  {
    if s != [] && IsSpace(s[|s| - 1]) {
      var more := TrimmedRight(s[..|s| - 1]);
      space := more + [s[|s| - 1]];
    } else {
      space := [];
    }
  }

  /** What `int(text)` makes of a text that begins and ends with no white space. */
  lemma IntOfTrimmed(sign: string, body: string, s: string)
    requires s == sign + body && sign in {"", "+", "-"} && (sign == "" ==> body == [] || body[0] !in {'+', '-'})
    requires TrimRight(TrimLeft(s)) == s
    ensures IntOfText(s).Some? <==> Grouped(body)
    ensures Grouped(body) ==> Signed(sign, IntOfText(s).value) == Value(DigitsOf(body))
  {
    SignSplitsOff(sign, body, s);
    ReadsGrouped(body, 0);
    ValueFromZero(DigitsOf(body));
    GroupedAgree(body);
  }

  lemma SignSplitsOff(sign: string, body: string, s: string)
    requires s == sign + body && sign in {"", "+", "-"} && (sign == "" ==> body == [] || body[0] !in {'+', '-'})
    requires TrimRight(TrimLeft(s)) == s
    ensures IntOfText(s).Some? <==> ReadDigits(body, 0).Some?
    ensures IntOfText(s).Some? ==> Signed(sign, IntOfText(s).value) == ReadDigits(body, 0).value
  {
    assert sign != "" ==> s[0] == sign[0] && s[1..] == body;
    assert sign == "" ==> s == body;
    assert "-"[0] == '-' && "+"[0] == '+';
  }

  /** `int(text)` reads exactly the texts that spell an integer, as the integer they spell. */
  lemma IntOfTextExactly(text: string, n: int)
    ensures IntOfText(text) == Some(n) <==>
              exists lead, sign, body, tail :: SpellsInt(text, lead, sign, body, tail, n)
  {
    if exists lead, sign, body, tail :: SpellsInt(text, lead, sign, body, tail, n) {
      var lead, sign, body, tail :| SpellsInt(text, lead, sign, body, tail, n);
      SpelledIsRead(text, lead, sign, body, tail, n);
    }
    if IntOfText(text) == Some(n) {
      ReadIsSpelled(text, n);
    }
  }

  /** The ends of a signed run of grouped digits are no white space. */
  lemma EndsOfInteger(sign: string, body: string)
    requires sign in {"", "+", "-"} && Grouped(body)
    ensures var s := sign + body; s != [] && !IsSpace(s[0]) && !IsSpace(s[|s| - 1])
  {
    var s := sign + body;
    assert s[|s| - 1] == body[|body| - 1];
    assert s[0] == if sign == "" then body[0] else sign[0];
  }

  lemma TrimsBoth(lead: string, s: string, tail: string)
    requires AllSpace(lead) && AllSpace(tail) && s != [] && !IsSpace(s[0]) && !IsSpace(s[|s| - 1])
    ensures TrimRight(TrimLeft(lead + (s + tail))) == s
  {
    assert (s + tail)[0] == s[0];
    TrimsLeft(lead, s + tail);
    TrimsRight(s, tail);
  }

  lemma SpelledTrims(lead: string, sign: string, body: string, tail: string)
    requires AllSpace(lead) && AllSpace(tail) && sign in {"", "+", "-"} && Grouped(body)
    ensures TrimRight(TrimLeft(lead + (sign + (body + tail)))) == sign + body
    ensures TrimRight(TrimLeft(sign + body)) == sign + body
  {
    var s := sign + body;
    EndsOfInteger(sign, body);
    assert sign + (body + tail) == s + tail;
    TrimsBoth(lead, s, tail);
    assert s == "" + (s + "");
    TrimsBoth("", s, "");
  }

  lemma SpelledIsRead(text: string, lead: string, sign: string, body: string, tail: string, n: int)
    requires SpellsInt(text, lead, sign, body, tail, n)
    ensures IntOfText(text) == Some(n)
  {
    SpelledTrims(lead, sign, body, tail);
    SameTrimmed(text, sign + body);
    IntOfTrimmed(sign, body, sign + body);
  }

  lemma SameTrimmed(text: string, s: string)
    requires TrimRight(TrimLeft(text)) == TrimRight(TrimLeft(s))
    ensures IntOfText(text) == IntOfText(s)
  {
  }

  lemma TrimsOnce(text: string)
    ensures var s := TrimRight(TrimLeft(text)); TrimRight(TrimLeft(s)) == s
  {
    var left := TrimLeft(text);
    var s := TrimRight(left);
    LeftIsTrimmed(text);
    RightIsTrimmed(left);
    assert s != [] ==> s[0] == left[0];
    assert [] + s == s && s + [] == s;
    TrimsLeft([], s);
    TrimsRight(s, []);
  }

  lemma {:induction false} LeftIsTrimmed(s: string)
    ensures TrimLeft(s) != [] ==> !IsSpace(TrimLeft(s)[0])
  {
    if s != [] && IsSpace(s[0]) {
      LeftIsTrimmed(s[1..]);
    }
  }

  lemma {:induction false} RightIsTrimmed(s: string)
    ensures TrimRight(s) != [] ==> !IsSpace(TrimRight(s)[|TrimRight(s)| - 1]) && s != [] && s[0] == TrimRight(s)[0]
  {
    if s != [] && IsSpace(s[|s| - 1]) {
      RightIsTrimmed(s[..|s| - 1]);
    }
  }

  lemma Pieces(text: string) returns (lead: string, sign: string, body: string, tail: string)
    ensures text == lead + (sign + (body + tail)) && AllSpace(lead) && AllSpace(tail)
    ensures TrimRight(TrimLeft(text)) == sign + body
    ensures sign in {"", "+", "-"} && (sign == "" ==> body == [] || body[0] !in {'+', '-'})
  {
    lead := TrimmedLeft(text);
    tail := TrimmedRight(TrimLeft(text));
    var s := TrimRight(TrimLeft(text));
    sign := if s == [] then "" else if s[0] == '+' then "+" else if s[0] == '-' then "-" else "";
    body := s[|sign|..];
    assert sign != "" ==> [s[0]] == sign;
    assert s == sign + body;
    assert s + tail == sign + (body + tail);
  }

  lemma ReadIsSpelled(text: string, n: int)
    requires IntOfText(text) == Some(n)
    ensures exists lead, sign, body, tail :: SpellsInt(text, lead, sign, body, tail, n)
  {
    var lead, sign, body, tail := Pieces(text);
    TrimsOnce(text);
    SameTrimmed(text, sign + body);
    IntOfTrimmed(sign, body, sign + body);
    assert SpellsInt(text, lead, sign, body, tail, n);
  }

  lemma {:induction false} AllDigitsGrouped(t: string)
    requires AllDigits(t) && t != []
    ensures Grouped(t) && DigitsOf(t) == t
  {
    if |t| > 1 {
      AllDigitsGrouped(t[1..]);
    }
    assert t == [t[0]] + t[1..];
  }

  /** `int()` of a non-empty run of digits is the number it denotes. */
  lemma DigitsReadBack(t: string)
    requires AllDigits(t) && t != []
    ensures IntOfText(t) == Some(Value(t))
  {
    AllDigitsGrouped(t);
    assert t == "" + ("" + (t + ""));
    assert SpellsInt(t, "", "", t, "", Value(t));
    IntOfTextExactly(t, Value(t));
  }

  /** `int()` of a finite float is the integer next to it on the side of zero. */
  lemma TruncatesTowardZero(f: Float)
    requires f.Finite?
    ensures Truncate(f).Some?
    ensures var n := Truncate(f).value;
            var size := if f.negative then -n else n;
            && size >= 0
            && (f.exponent >= 0 ==> size == f.mantissa * Pow2(f.exponent))
            && (f.exponent < 0 ==> size * Pow2(-f.exponent) <= f.mantissa < (size + 1) * Pow2(-f.exponent))
  {
    if f.exponent < 0 {
      QuotientIsBelow(f.mantissa, Pow2(-f.exponent));
    }
  }

  lemma QuotientIsBelow(m: nat, d: nat)
    requires d > 0
    ensures m / d >= 0 && m / d * d <= m < (m / d + 1) * d
  {
    assert m == d * (m / d) + m % d;
    assert (m / d + 1) * d == d * (m / d) + d;
  }
}
