/**
  A reader of JSON without white space and with the names of every object in ascending order, from the grammar
  (RFC 8259), and the proof that it reads the text a manifest's signature covers as exactly the manifest without its
  signature block.

  It shares nothing with the writer (Canonical): words, brackets, escapes, digits and surrogate pairs are spelled out
  again, and so is the order of names, so that what is signed is pinned down as JSON text and not merely as some text of its own.
 */
module Reader {
  import opened Wrappers
  import opened Decimal
  import opened Json
  import Canonical

  // ---------------------------------------------------------------------------------------------
  // Strings (section 7)

  function HexValue(c: char): Option<nat> {
    if '0' <= c <= '9' then Some(c as int - '0' as int)
    else if 'a' <= c <= 'f' then Some(10 + (c as int - 'a' as int))
    else if 'A' <= c <= 'F' then Some(10 + (c as int - 'A' as int))
    else None
  }

  /** The UTF-16 unit that four hexadecimal digits denote. */
  function Unit(s: string): Option<nat> {
    if |s| < 4 then None
    else
      match (HexValue(s[0]), HexValue(s[1]), HexValue(s[2]), HexValue(s[3]))
      case (Some(a), Some(b), Some(c), Some(d)) => Some(0x1000 * a + 0x100 * b + 0x10 * c + d)
      case _ => None
  }

  /** What follows `\u`: one unit, or a high and a low surrogate that denote one character together. */
  function ReadUnits(s: string): Option<(char, string)> {
    match Unit(s)
    case None => None
    case Some(u) =>
      if u < 0xd800 || 0xe000 <= u < 0x1_0000 then Some((u as char, s[4..]))
      else if u < 0xdc00 && |s| >= 6 && s[4] == '\\' && s[5] == 'u' then
        (match Unit(s[6..])
         case Some(v) =>
           if 0xdc00 <= v < 0xe000 then Some(((0x1_0000 + 0x400 * (u - 0xd800) + (v - 0xdc00)) as char, s[10..]))
           else None
         case None => None)
      else None
  }

  /** One character of a string, escaped or not. */
  function ReadChar(s: string): Option<(char, string)> {
    if s == "" || (s[0] as int) < 32 || s[0] == '"' then None
    else if s[0] != '\\' then Some((s[0], s[1..]))
    else if |s| == 1 then None
    else
      match s[1]
      case '"' => Some(('"', s[2..]))
      case '\\' => Some(('\\', s[2..]))
      case '/' => Some(('/', s[2..]))
      case 'b' => Some((8 as char, s[2..]))
      case 'f' => Some((12 as char, s[2..]))
      case 'n' => Some((10 as char, s[2..]))
      case 'r' => Some((13 as char, s[2..]))
      case 't' => Some((9 as char, s[2..]))
      case 'u' => ReadUnits(s[2..])
      case _ => None
  }

  lemma CharIsShorter(s: string)
    ensures ReadChar(s).Some? ==> |ReadChar(s).value.1| < |s|
  {
  }

  /** The rest of a string after its opening quote, and what follows the closing one. */
  function ReadString(s: string): Option<(string, string)>
    decreases |s|
  {
    if s == "" then None
    else if s[0] == '"' then Some(("", s[1..]))
    else
      CharIsShorter(s);
      match ReadChar(s)
      case None => None
      case Some((c, rest)) =>
        match ReadString(rest)
        case None => None
        case Some((cs, after)) => Some(([c] + cs, after))
  }

  // ---------------------------------------------------------------------------------------------
  // Numbers (section 6)

  /** The characters up to what may follow a value. */
  function Token(s: string): string {
    if s == "" || s[0] in {',', ']', '}'} then "" else [s[0]] + Token(s[1..])
  }

  lemma TokenFits(s: string)
    ensures |Token(s)| <= |s|
  {
  }

  /** The number a run of decimal digits denotes, read from the left. */
  function Natural(s: string, acc: nat): Option<nat> {
    if s == "" then Some(acc)
    else if '0' <= s[0] <= '9' then Natural(s[1..], 10 * acc + (s[0] as int - '0' as int))
    else None
  }

  /** An integer: digits, without a leading zero if there is more than one, and perhaps a minus before them. */
  function Integer(s: string): Option<int> {
    if s != "" && s[0] == '-' then
      var n: Option<int> := Unsigned(s[1..]);
      if n.Some? then Some(-n.value) else None
    else
      Unsigned(s)
  }

  function Unsigned(s: string): Option<nat> {
    if s == "" || (|s| > 1 && s[0] == '0') then None else Natural(s, 0)
  }

  // ---------------------------------------------------------------------------------------------
  // Values (sections 3 to 5)

  /** `a` comes before `b` by code point. */
  predicate Before(a: string, b: string) {
    b != "" && (a == "" || a[0] < b[0] || (a[0] == b[0] && Before(a[1..], b[1..])))
  }

  /** `toFloat` reads the numbers that are no integers. */
  function ReadValue(toFloat: string -> Option<Float>, s: string): (r: Option<(Json, string)>)
    ensures r.Some? ==> |r.value.1| < |s|
    decreases |s|, 2
  {
    if s == "" then None
    else if s[0] == '"' then ReadText(s)
    else if s[0] == '[' then
      if |s| > 1 && s[1] == ']' then Some((Arr([]), s[2..]))
      else match ReadItems(toFloat, s[1..]) case Some((items, rest)) => Some((Arr(items), rest)) case None => None
    else if s[0] == '{' then
      if |s| > 1 && s[1] == '}' then Some((Obj(map[]), s[2..]))
      else match ReadMembers(toFloat, s[1..], None) case Some((fields, rest)) => Some((Obj(fields), rest)) case None => None
    else ReadWord(toFloat, s)
  }

  function ReadText(s: string): (r: Option<(Json, string)>)
    requires s != ""
    ensures r.Some? ==> |r.value.1| < |s|
  {
    StringFits(s[1..]);
    match ReadString(s[1..]) case Some((text, rest)) => Some((Str(text), rest)) case None => None
  }

  lemma {:induction false} StringFits(s: string)
    ensures ReadString(s).Some? ==> |ReadString(s).value.1| < |s|
    decreases |s|
  {
    CharIsShorter(s);
    if s != "" && s[0] != '"' && ReadChar(s).Some? {
      StringFits(ReadChar(s).value.1);
    }
  }

  /** `null`, `true`, `false`, or a number. */
  function ReadWord(toFloat: string -> Option<Float>, s: string): (r: Option<(Json, string)>)
    ensures r.Some? ==> |r.value.1| < |s|
  {
    TokenFits(s);
    var token := Token(s);
    var rest := s[|token|..];
    if token == "" then None
    else if token == "null" then Some((Null, rest))
    else if token == "true" then Some((Bool(true), rest))
    else if token == "false" then Some((Bool(false), rest))
    else if Integer(token).Some? then Some((Int(Integer(token).value), rest))
    else match toFloat(token) case Some(f) => Some((Flt(f), rest)) case None => None
  }

  /** Values with commas between them, and the bracket that ends them. */
  function ReadItems(toFloat: string -> Option<Float>, s: string): (r: Option<(seq<Json>, string)>)
    ensures r.Some? ==> |r.value.1| < |s|
    decreases |s|, 3
  {
    match ReadValue(toFloat, s)
    case None => None
    case Some((item, rest)) =>
      if rest == "" then None
      else if rest[0] == ']' then Some(([item], rest[1..]))
      else if rest[0] == ',' then
        match ReadItems(toFloat, rest[1..]) case Some((items, after)) => Some(([item] + items, after)) case None => None
      else None
  }

  /** One member: a name, a colon and a value. */
  function ReadMember(toFloat: string -> Option<Float>, s: string): (r: Option<(string, Json, string)>)
    ensures r.Some? ==> |r.value.2| < |s|
    decreases |s|, 3
  {
    if s == "" || s[0] != '"' then None
    else
      StringFits(s[1..]);
      match ReadString(s[1..])
      case None => None
      case Some((name, rest)) =>
        if rest == "" || rest[0] != ':' then None
        else match ReadValue(toFloat, rest[1..]) case Some((j, after)) => Some((name, j, after)) case None => None
  }

  /** Members with commas between them, and the brace that ends them; their names ascend, starting above `last`. */
  function ReadMembers(toFloat: string -> Option<Float>, s: string, last: Option<string>)
    : (r: Option<(map<string, Json>, string)>)
    ensures r.Some? ==> |r.value.1| < |s|
    decreases |s|, 4
  {
    match ReadMember(toFloat, s)
    case None => None
    case Some((name, j, rest)) =>
      if rest == "" || (last.Some? && !Before(last.value, name)) then None
      else if rest[0] == '}' then Some((map[name := j], rest[1..]))
      else if rest[0] == ',' then
        match ReadMembers(toFloat, rest[1..], Some(name))
        case Some((fields, after)) => Some((map[name := j] + fields, after))
        case None => None
      else None
  }

  // ---------------------------------------------------------------------------------------------
  // What was written is read back

  lemma HexDigitsReadBack(d: nat)
    requires d < 16
    ensures HexValue(Canonical.HexDigit(d)) == Some(d)
  {
  }

  lemma UnitOf(a: nat, b: nat, c: nat, d: nat, h: string, rest: string)
    requires a < 16 && b < 16 && c < 16 && d < 16
    requires h == [Canonical.HexDigit(a), Canonical.HexDigit(b), Canonical.HexDigit(c), Canonical.HexDigit(d)]
    ensures Unit(h + rest) == Some(0x1000 * a + 0x100 * b + 0x10 * c + d) && (h + rest)[4..] == rest
  {
    HexDigitsReadBack(a);
    HexDigitsReadBack(b);
    HexDigitsReadBack(c);
    HexDigitsReadBack(d);
    assert forall i :: 0 <= i < 4 ==> (h + rest)[i] == h[i];
  }

  lemma HexSum(n: nat)
    requires n < 0x1_0000
    ensures 0x1000 * (n / 16 / 16 / 16 % 16) + 0x100 * (n / 16 / 16 % 16) + 0x10 * (n / 16 % 16) + n % 16 == n
  {
    var p := n / 16;
    var q := p / 16;
    var r := q / 16;
    assert n == 16 * p + n % 16 && p == 16 * q + p % 16 && q == 16 * r + q % 16;
    assert r < 16;
  }

  lemma UnitReadsBack(n: nat, rest: string)
    requires n < 0x1_0000
    ensures Unit(Canonical.Hex(n, 4) + rest) == Some(n) && (Canonical.Hex(n, 4) + rest)[4..] == rest
  {
    Canonical.FourHexDigits(n);
    UnitOf(n / 16 / 16 / 16 % 16, n / 16 / 16 % 16, n / 16 % 16, n % 16, Canonical.Hex(n, 4), rest);
    HexSum(n);
  }

  lemma BasicReadsBack(c: char, rest: string)
    requires Canonical.Long(c) && c as int < 0x1_0000
    ensures ReadChar(Canonical.Escape(c) + rest) == Some((c, rest))
  {
    var text := Canonical.Escape(c) + rest;
    Canonical.EscapeShape(c);
    assert text[0] == '\\' && text[1] == 'u' && text[2..] == Canonical.Hex(c as int, 4) + rest;
    UnitReadsBack(c as int, rest);
  }

  lemma AfterEscape(n: nat, rest: string)
    requires n < 0x1_0000
    ensures var text := Canonical.UEscape(n) + rest;
            |text| >= 6 && text[0] == '\\' && text[1] == 'u' && Unit(text[2..]) == Some(n) && text[2..][4..] == rest == text[6..]
  {
    var text := Canonical.UEscape(n) + rest;
    assert text[2..] == Canonical.Hex(n, 4) + rest;
    UnitReadsBack(n, rest);
    assert text[6..] == text[2..][4..];
  }

  lemma EscapedUnits(text: string)
    requires |text| >= 2 && text[0] == '\\' && text[1] == 'u'
    ensures ReadChar(text) == ReadUnits(text[2..])
  {
  }

  lemma PairReadsBack(c: char, rest: string)
    requires c as int >= 0x1_0000
    ensures ReadChar(Canonical.Escape(c) + rest) == Some((c, rest))
  {
    var high, low := Canonical.High(c as int), Canonical.Low(c as int);
    var text, second := Canonical.UEscape(high) + (Canonical.UEscape(low) + rest), Canonical.UEscape(low) + rest;
    Canonical.EscapeShape(c);
    assert Canonical.Escape(c) + rest == text;
    AfterEscape(high, second);
    AfterEscape(low, rest);
    PairSum(c as int);
    PairOf(text[2..], high, low, second, rest);
    EscapedUnits(text);
  }

  lemma PairSum(n: nat)
    requires 0x1_0000 <= n < 0x11_0000
    ensures var high, low := Canonical.High(n), Canonical.Low(n);
            0xd800 <= high < 0xdc00 <= low < 0xe000 && 0x1_0000 + 0x400 * (high - 0xd800) + (low - 0xdc00) == n
  {
  }

  lemma PairOf(s: string, high: nat, low: nat, second: string, rest: string)
    requires 0xd800 <= high < 0xdc00 <= low < 0xe000 && Unit(s) == Some(high) && |s| >= 4 && s[4..] == second
    requires |second| >= 2 && second[0] == '\\' && second[1] == 'u' && Unit(second[2..]) == Some(low)
    requires |second| >= 6 && second[6..] == rest
    ensures ReadUnits(s) == Some(((0x1_0000 + 0x400 * (high - 0xd800) + (low - 0xdc00)) as char, rest))
  {
    assert s[4] == second[0] && s[5] == second[1];
    assert s[6..] == second[2..] && s[10..] == second[6..];
  }

  lemma CharReadsBack(c: char, rest: string)
    ensures ReadChar(Canonical.Escape(c) + rest) == Some((c, rest))
  {
    var text := Canonical.Escape(c) + rest;
    Canonical.EscapeShape(c);
    if Canonical.Plain(c) {
      assert text[0] == c && text[1..] == rest;
    } else if Canonical.ShortEscape(c) {
      ShortReadsBack(c, rest);
    } else if c as int < 0x1_0000 {
      BasicReadsBack(c, rest);
    } else {
      PairReadsBack(c, rest);
    }
  }

  lemma ShortReadsBack(c: char, rest: string)
    requires Canonical.ShortEscape(c)
    ensures ReadChar(Canonical.Escape(c) + rest) == Some((c, rest))
  {
    var text := Canonical.Escape(c) + rest;
    assert text[0] == Canonical.Escape(c)[0] && text[1] == Canonical.Escape(c)[1] && text[2..] == rest;
    assert c as int == 8 ==> c == 8 as char;
    assert c as int == 12 ==> c == 12 as char;
  }

  lemma {:induction false} StringReadsBack(a: string, rest: string)
    ensures ReadString(Canonical.Escapes(a) + ("\"" + rest)) == Some((a, rest))
  {
    var text := Canonical.Escapes(a) + ("\"" + rest);
    if a == "" {
      assert text == "\"" + rest;
    } else {
      var more := Canonical.Escapes(a[1..]) + ("\"" + rest);
      Associative(Canonical.Escape(a[0]), Canonical.Escapes(a[1..]), "\"" + rest);
      CharReadsBack(a[0], more);
      Canonical.EscapeIsNoQuote(a[0]);
      assert text == Canonical.Escape(a[0]) + more && text[0] == Canonical.Escape(a[0])[0];
      StringReadsBack(a[1..], rest);
      assert a == [a[0]] + a[1..];
    }
  }

  // ---------------------------------------------------------------------------------------------
  // Numbers and words

  lemma {:induction false} TokenOf(x: string, rest: string)
    requires Canonical.NoCloser(x) && Canonical.Closed(rest)
    ensures Token(x + rest) == x
  {
    if x == "" {
      assert x + rest == rest;
    } else {
      assert (x + rest)[1..] == x[1..] + rest;
      TokenOf(x[1..], rest);
      assert x == [x[0]] + x[1..];
    }
  }

  lemma {:induction false} NaturalReadsBack(t: string, acc: nat)
    requires AllDigits(t)
    ensures Natural(t, acc) == Some(ValueFrom(acc, t))
    decreases |t|
  {
    if t != "" {
      NaturalReadsBack(t[1..], 10 * acc + DigitValue(t[0]));
    }
  }

  lemma {:induction false} NoLeadingZero(n: nat)
    ensures Digits(n)[0] == '0' ==> n == 0 && |Digits(n)| == 1
  {
    if n >= 10 {
      NoLeadingZero(n / 10);
      assert Digits(n)[0] == Digits(n / 10)[0];
    }
  }

  lemma IntReadsBack(fl: Float -> string, n: int)
    ensures Integer(Canonical.Print(fl, Int(n))) == Some(n)
  {
    var size := if n < 0 then -n else n;
    NoLeadingZero(size);
    NaturalReadsBack(Digits(size), 0);
    ValueFromZero(Digits(size));
    assert n < 0 ==> Canonical.Print(fl, Int(n))[1..] == Digits(size);
  }

  lemma {:induction false} NaturalIsDigits(s: string, acc: nat)
    requires Natural(s, acc).Some?
    ensures AllDigits(s)
    decreases |s|
  {
    if s != "" {
      NaturalIsDigits(s[1..], 10 * acc + (s[0] as int - '0' as int));
      assert s == [s[0]] + s[1..];
    }
  }

  lemma IntegerShape(s: string)
    requires Integer(s).Some?
    ensures !Canonical.Fractional(s)
  {
    var t := if s[0] == '-' then s[1..] else s;
    NaturalIsDigits(t, 0);
    assert s[0] == '-' ==> forall i :: 0 < i < |s| ==> s[i] == t[i - 1];
  }

  /** `toFloat` reads every float as it is spelled. */
  ghost predicate ReadsFloats(fl: Float -> string, toFloat: string -> Option<Float>) {
    forall f :: toFloat(fl(f)) == Some(f)
  }

  /** What a token that is no word is read as. */
  lemma NumberIsRead(toFloat: string -> Option<Float>, token: string, rest: string)
    requires token != "" && token[0] !in {'n', 't', 'f'} && Token(token + rest) == token
    ensures ReadWord(toFloat, token + rest) ==
            if Integer(token).Some? then Some((Int(Integer(token).value), rest))
            else match toFloat(token) case Some(f) => Some((Flt(f), rest)) case None => None
  {
    assert (token + rest)[|token|..] == rest;
    assert "null"[0] == 'n' && "true"[0] == 't' && "false"[0] == 'f';
  }

  lemma WordIsRead(toFloat: string -> Option<Float>, j: Json, token: string, rest: string)
    requires (j == Null && token == "null") || (j == Bool(true) && token == "true") || (j == Bool(false) && token == "false")
    requires Token(token + rest) == token
    ensures ReadWord(toFloat, token + rest) == Some((j, rest))
  {
    assert (token + rest)[|token|..] == rest;
    assert "null"[0] == 'n' && "true"[0] == 't' && "false"[0] == 'f';
  }

  lemma WordReadsBack(fl: Float -> string, toFloat: string -> Option<Float>, j: Json, s: string)
    requires Canonical.Spells(fl) && ReadsFloats(fl, toFloat) && Canonical.Closed(s)
    requires j.Null? || j.Bool? || j.Int? || j.Flt?
    ensures ReadWord(toFloat, Canonical.Print(fl, j) + s) == Some((j, s))
  {
    var token := Canonical.Print(fl, j);
    if j.Int? || j.Flt? {
      NumberReadsBack(fl, toFloat, j, s);
    } else {
      TokenOf(token, s);
      WordIsRead(toFloat, j, token, s);
    }
  }

  lemma NumberReadsBack(fl: Float -> string, toFloat: string -> Option<Float>, j: Json, s: string)
    requires Canonical.Spells(fl) && ReadsFloats(fl, toFloat) && Canonical.Closed(s) && (j.Int? || j.Flt?)
    ensures ReadWord(toFloat, Canonical.Print(fl, j) + s) == Some((j, s))
  {
    var token := Canonical.Print(fl, j);
    Canonical.PrintStarts(fl, j, s);
    if j.Int? {
      Canonical.IntText(fl, j.n);
      IntReadsBack(fl, j.n);
    } else if Integer(token).Some? {
      IntegerShape(token);
    }
    TokenOf(token, s);
    NumberIsRead(toFloat, token, s);
  }

  // ---------------------------------------------------------------------------------------------
  // Documents

  /** Every value is read back from its text, whatever may follow it. */
  lemma {:induction false} ReadsBack(fl: Float -> string, toFloat: string -> Option<Float>, j: Json, s: string)
    requires Canonical.Spells(fl) && ReadsFloats(fl, toFloat) && Canonical.Closed(s)
    ensures ReadValue(toFloat, Canonical.Print(fl, j) + s) == Some((j, s))
    decreases j, 2, 0
  {
    Canonical.PrintStarts(fl, j, s);
    match j {
      case Str(x) => QuotedReadsBack(x, s);
      case Arr(_) => ArrayReadsBack(fl, toFloat, j, s);
      case Obj(_) => ObjectReadsBack(fl, toFloat, j, s);
      case _ => WordReadsBack(fl, toFloat, j, s);
    }
  }

  lemma QuotedReadsBack(x: string, s: string)
    ensures var text := Canonical.Quoted(x) + s; text != "" && text[0] == '"' && ReadString(text[1..]) == Some((x, s))
  {
    Associative("\"" + Canonical.Escapes(x), "\"", s);
    assert (Canonical.Quoted(x) + s)[1..] == Canonical.Escapes(x) + ("\"" + s);
    StringReadsBack(x, s);
  }

  lemma EmptyArray(toFloat: string -> Option<Float>, s: string)
    ensures ReadValue(toFloat, "[" + ("]" + s)) == Some((Arr([]), s))
  {
    assert ("[" + ("]" + s))[2..] == s;
  }

  lemma SomeArray(toFloat: string -> Option<Float>, body: string, items: seq<Json>, s: string)
    requires body != "" && body[0] != ']' && ReadItems(toFloat, body) == Some((items, s))
    ensures ReadValue(toFloat, "[" + body) == Some((Arr(items), s))
  {
    assert ("[" + body)[1..] == body;
  }

  lemma {:induction false} ArrayReadsBack(fl: Float -> string, toFloat: string -> Option<Float>, j: Json, s: string)
    requires j.Arr? && Canonical.Spells(fl) && ReadsFloats(fl, toFloat) && Canonical.Closed(s)
    ensures ReadValue(toFloat, Canonical.Print(fl, j) + s) == Some((j, s))
    decreases j, 1, 0
  {
    var body := Canonical.Items(fl, j, 0) + s;
    assert Canonical.Print(fl, j) + s == "[" + body;
    Canonical.ItemsStart(fl, j, 0, s);
    if j.items == [] {
      assert body == "]" + s;
      EmptyArray(toFloat, s);
    } else {
      ItemsFrom(fl, j, 0, s);
      ItemsReadBack(fl, toFloat, j, 0, s);
      SomeArray(toFloat, body, j.items[0..], s);
      assert j.items[0..] == j.items;
    }
  }

  /** One item and all that follows it. */
  ghost function Item(fl: Float -> string, j: Json, i: nat, s: string): string
    requires j.Arr? && i < |j.items|
  {
    Canonical.Print(fl, j.items[i]) + (Canonical.Items(fl, j, i + 1) + s)
  }

  lemma ItemsFrom(fl: Float -> string, j: Json, i: nat, s: string)
    requires j.Arr? && i < |j.items|
    ensures Canonical.Items(fl, j, i) + s == if i == 0 then Item(fl, j, i, s) else "," + Item(fl, j, i, s)
  {
    Associative(Canonical.Print(fl, j.items[i]), Canonical.Items(fl, j, i + 1), s);
    Associative(",", Canonical.Print(fl, j.items[i]) + Canonical.Items(fl, j, i + 1), s);
  }

  lemma LastItem(toFloat: string -> Option<Float>, text: string, j: Json, rest: string, s: string)
    requires ReadValue(toFloat, text) == Some((j, rest)) && rest == "]" + s
    ensures ReadItems(toFloat, text) == Some(([j], s))
  {
    assert rest[1..] == s;
  }

  lemma NextItem(toFloat: string -> Option<Float>, text: string, j: Json, rest: string, more: string, items: seq<Json>, s: string)
    requires ReadValue(toFloat, text) == Some((j, rest)) && rest == "," + more
    requires ReadItems(toFloat, more) == Some((items, s))
    ensures ReadItems(toFloat, text) == Some(([j] + items, s))
  {
    assert rest[1..] == more;
  }

  /** The items from `i` on, from behind the comma if there is one before them. */
  lemma {:induction false} ItemsReadBack(fl: Float -> string, toFloat: string -> Option<Float>, j: Json, i: nat, s: string)
    requires j.Arr? && i < |j.items| && Canonical.Spells(fl) && ReadsFloats(fl, toFloat) && Canonical.Closed(s)
    ensures ReadItems(toFloat, Item(fl, j, i, s)) == Some((j.items[i..], s))
    decreases j, 0, |j.items| - i
  {
    var rest := Canonical.Items(fl, j, i + 1) + s;
    Canonical.ItemsStart(fl, j, i + 1, s);
    ReadsBack(fl, toFloat, j.items[i], rest);
    if i + 1 == |j.items| {
      LastItem(toFloat, Item(fl, j, i, s), j.items[i], rest, s);
      assert j.items[i..] == [j.items[i]];
    } else {
      ItemsFrom(fl, j, i + 1, s);
      ItemsReadBack(fl, toFloat, j, i + 1, s);
      NextItem(toFloat, Item(fl, j, i, s), j.items[i], rest, Item(fl, j, i + 1, s), j.items[i + 1..], s);
      assert j.items[i..] == [j.items[i]] + j.items[i + 1..];
    }
  }

  lemma {:induction false} ObjectReadsBack(fl: Float -> string, toFloat: string -> Option<Float>, j: Json, s: string)
    requires j.Obj? && Canonical.Spells(fl) && ReadsFloats(fl, toFloat) && Canonical.Closed(s)
    ensures ReadValue(toFloat, Canonical.Print(fl, j) + s) == Some((j, s))
    decreases j, 1, 0
  {
    var keys := Canonical.SortedKeys(j.fields.Keys);
    var body := Canonical.Members(fl, j, keys) + s;
    assert Canonical.Print(fl, j) + s == "{" + body;
    WholePart(j.fields);
    if keys == [] {
      assert body == "}" + s;
      EmptyObject(toFloat, s);
    } else {
      Canonical.MembersUnroll(fl, j, keys, s, true);
      assert body == Member(fl, j, keys, s) && body[0] == '"';
      KeysInOrder(j.fields.Keys);
      MembersReadBack(fl, toFloat, j, keys, s, None);
      SomeObject(toFloat, body, j.fields, s);
    }
  }

  lemma WholePart(fields: map<string, Json>)
    ensures Part(fields, Canonical.SortedKeys(fields.Keys)) == fields
    ensures Canonical.SortedKeys(fields.Keys) == [] ==> fields == map[]
  {
    assert Canonical.SortedKeys(fields.Keys) == [] ==> forall k :: k !in fields;
  }

  lemma EmptyObject(toFloat: string -> Option<Float>, s: string)
    ensures ReadValue(toFloat, "{" + ("}" + s)) == Some((Obj(map[]), s))
  {
    assert ("{" + ("}" + s))[2..] == s;
  }

  lemma SomeObject(toFloat: string -> Option<Float>, body: string, fields: map<string, Json>, s: string)
    requires body != "" && body[0] == '"' && ReadMembers(toFloat, body, None) == Some((fields, s))
    ensures ReadValue(toFloat, "{" + body) == Some((Obj(fields), s))
  {
    assert ("{" + body)[1..] == body;
  }

  /** The members of these names. */
  function Part(fields: map<string, Json>, keys: seq<string>): map<string, Json>
    requires forall k :: k in keys ==> k in fields
  {
    map k | k in keys :: fields[k]
  }

  /** The first of these members and all that follows it. */
  ghost function Member(fl: Float -> string, j: Json, keys: seq<string>, s: string): string
    requires j.Obj? && keys != [] && forall k :: k in keys ==> k in j.fields
  {
    Canonical.Quoted(keys[0]) +
    (":" + (Canonical.Print(fl, j.fields[keys[0]]) + (Canonical.Members(fl, j, keys[1..], false) + s)))
  }

  lemma OneMember(toFloat: string -> Option<Float>, text: string, name: string, value: string, j: Json, rest: string)
    requires text != "" && text[0] == '"' && ReadString(text[1..]) == Some((name, ":" + value))
    requires ReadValue(toFloat, value) == Some((j, rest))
    ensures ReadMember(toFloat, text) == Some((name, j, rest))
  {
    assert (":" + value)[1..] == value;
  }

  lemma {:induction false} MemberReadsBack(fl: Float -> string, toFloat: string -> Option<Float>, j: Json,
                                           keys: seq<string>, s: string)
    requires j.Obj? && Canonical.Spells(fl) && ReadsFloats(fl, toFloat) && Canonical.Closed(s)
    requires keys != [] && forall k :: k in keys ==> k in j.fields
    ensures ReadMember(toFloat, Member(fl, j, keys, s)) ==
            Some((keys[0], j.fields[keys[0]], Canonical.Members(fl, j, keys[1..], false) + s))
    decreases j, 0, |keys|, 0
  {
    var x, rest := j.fields[keys[0]], Canonical.Members(fl, j, keys[1..], false) + s;
    var value := Canonical.Print(fl, x) + rest;
    Canonical.MembersStart(fl, j, keys[1..], s, false);
    ReadsBack(fl, toFloat, x, rest);
    QuotedReadsBack(keys[0], ":" + value);
    OneMember(toFloat, Canonical.Quoted(keys[0]) + (":" + value), keys[0], value, x, rest);
  }

  lemma LastMember(toFloat: string -> Option<Float>, text: string, last: Option<string>, name: string, j: Json,
                   rest: string, s: string)
    requires ReadMember(toFloat, text) == Some((name, j, rest)) && rest == "}" + s
    requires last.Some? ==> Before(last.value, name)
    ensures ReadMembers(toFloat, text, last) == Some((map[name := j], s))
  {
    assert rest[1..] == s;
  }

  lemma NextMember(toFloat: string -> Option<Float>, text: string, last: Option<string>, name: string, j: Json,
                   rest: string, more: string, fields: map<string, Json>, s: string)
    requires ReadMember(toFloat, text) == Some((name, j, rest)) && rest == "," + more
    requires last.Some? ==> Before(last.value, name)
    requires ReadMembers(toFloat, more, Some(name)) == Some((fields, s))
    ensures ReadMembers(toFloat, text, last) == Some((map[name := j] + fields, s))
  {
    assert rest[1..] == more;
  }

  ghost predicate InOrder(keys: seq<string>) {
    forall i :: 0 < i < |keys| ==> Before(keys[i - 1], keys[i])
  }

  lemma {:induction false} PrecedesIsBefore(a: string, b: string)
    requires Canonical.Precedes(a, b)
    ensures Before(a, b)
  {
    var p: nat :| p <= |a| && p < |b| && a[..p] == b[..p] && (p == |a| || a[p] < b[p]);
    if p > 0 {
      assert a[0] == a[..p][0] == b[..p][0] == b[0];
      assert a[1..][..p - 1] == a[..p][1..] == b[..p][1..] == b[1..][..p - 1];
      PrecedesIsBefore(a[1..], b[1..]);
    }
  }

  lemma KeysInOrder(keys: set<string>)
    ensures InOrder(Canonical.SortedKeys(keys))
  {
    var sorted := Canonical.SortedKeys(keys);
    Canonical.KeysAscend(keys);
    forall i | 0 < i < |sorted|
      ensures Before(sorted[i - 1], sorted[i])
    {
      PrecedesIsBefore(sorted[i - 1], sorted[i]);
    }
  }

  lemma PartOfMore(fields: map<string, Json>, keys: seq<string>)
    requires keys != [] && forall k :: k in keys ==> k in fields
    ensures Part(fields, keys) == map[keys[0] := fields[keys[0]]] + Part(fields, keys[1..])
    ensures keys[1..] == [] ==> Part(fields, keys) == map[keys[0] := fields[keys[0]]]
  {
    assert keys == [keys[0]] + keys[1..];
  }

  lemma {:induction false} MembersReadBack(fl: Float -> string, toFloat: string -> Option<Float>, j: Json,
                                           keys: seq<string>, s: string, last: Option<string>)
    requires j.Obj? && Canonical.Spells(fl) && ReadsFloats(fl, toFloat) && Canonical.Closed(s)
    requires keys != [] && (forall k :: k in keys ==> k in j.fields) && InOrder(keys)
    requires last.Some? ==> Before(last.value, keys[0])
    ensures ReadMembers(toFloat, Member(fl, j, keys, s), last) == Some((Part(j.fields, keys), s))
    decreases j, 0, |keys|, 1
  {
    var text, rest := Member(fl, j, keys, s), Canonical.Members(fl, j, keys[1..], false) + s;
    MemberReadsBack(fl, toFloat, j, keys, s);
    PartOfMore(j.fields, keys);
    if keys[1..] == [] {
      LastMember(toFloat, text, last, keys[0], j.fields[keys[0]], rest, s);
    } else {
      Canonical.MembersUnroll(fl, j, keys[1..], s, false);
      assert Before(keys[0], keys[1..][0]);
      MembersReadBack(fl, toFloat, j, keys[1..], s, Some(keys[0]));
      NextMember(toFloat, text, last, keys[0], j.fields[keys[0]], rest, Member(fl, j, keys[1..], s),
                 Part(j.fields, keys[1..]), s);
    }
  }

  /** The text a signature covers is JSON that reads as the manifest without its signature block. */
  lemma SignedTextReadsBack(fl: Float -> string, toFloat: string -> Option<Float>, manifest: map<string, Json>)
    requires Canonical.Spells(fl) && ReadsFloats(fl, toFloat)
    ensures ReadValue(toFloat, Canonical.Text(fl, manifest)) == Some((Obj(manifest - {"signature"}), ""))
  {
    var j := Obj(manifest - {"signature"});
    assert Canonical.Print(fl, j) + "" == Canonical.Text(fl, manifest);
    ReadsBack(fl, toFloat, j, "");
  }
}
