/**
  The bytes a manifest signature covers (unoq_ota/verify.py, canonical_bytes): JSON text with sorted keys, no
  spaces and ASCII escapes, of everything but the signature block.
 */
module Canonical {
  import opened Wrappers
  import opened Decimal
  import opened Json

  // ---------------------------------------------------------------------------------------------
  // String escapes (section 7 of RFC 8259), as `json.dumps` chooses them

  function HexDigit(d: nat): (c: char)
    requires d < 16
  {
    if d < 10 then ('0' as int + d) as char else ('a' as int + d - 10) as char
  }

  lemma HexDigitInjective(d: nat, e: nat)
    requires d < 16 && e < 16 && HexDigit(d) == HexDigit(e)
    ensures d == e
  {
  }

  function Pow16(w: nat): nat {
    if w == 0 then 1 else 16 * Pow16(w - 1)
  }

  /** The low `w` hexadecimal digits of `n`. */
  function Hex(n: nat, w: nat): (r: string)
    ensures |r| == w
  {
    if w == 0 then "" else Hex(n / 16, w - 1) + [HexDigit(n % 16)]
  }

  lemma {:induction false} HexInjective(n: nat, m: nat, w: nat)
    requires n < Pow16(w) && m < Pow16(w) && Hex(n, w) == Hex(m, w)
    ensures n == m
  {
    if w > 0 {
      var a, b := Hex(n, w), Hex(m, w);
      assert a[..w - 1] == Hex(n / 16, w - 1) && b[..w - 1] == Hex(m / 16, w - 1);
      assert a[w - 1] == HexDigit(n % 16) && b[w - 1] == HexDigit(m % 16);
      HexDigitInjective(n % 16, m % 16);
      HexInjective(n / 16, m / 16, w - 1);
    }
  }

  function UEscape(n: nat): (r: string)
    requires n < 0x10000
    ensures |r| == 6 && r[0] == '\\' && r[1] == 'u'
  {
    "\\u" + Hex(n, 4)
  }

  lemma UEscapeInjective(n: nat, m: nat)
    requires n < 0x10000 && m < 0x10000 && UEscape(n) == UEscape(m)
    ensures n == m
  {
    assert UEscape(n)[2..] == Hex(n, 4) && UEscape(m)[2..] == Hex(m, 4);
    assert Pow16(4) == 0x10000 by { assert Pow16(2) == 256; }
    HexInjective(n, m, 4);
  }

  function High(n: nat): nat
    requires 0x10000 <= n < 0x110000
  {
    0xd800 + (n - 0x10000) / 0x400
  }

  function Low(n: nat): nat
    requires 0x10000 <= n < 0x110000
  {
    0xdc00 + (n - 0x10000) % 0x400
  }

  function Escape(c: char): (r: string)
    ensures r != []
  {
    var n := c as int;
    if c == '"' then "\\\""
    else if c == '\\' then "\\\\"
    else if n == 10 then "\\n"
    else if n == 13 then "\\r"
    else if n == 9 then "\\t"
    else if n == 8 then "\\b"
    else if n == 12 then "\\f"
    else if ' ' <= c <= '~' then [c]
    else if n < 0x10000 then UEscape(n)
    else UEscape(High(n)) + UEscape(Low(n))
  }

  /** Every escape starts with a backslash or is the character itself, and the second character tells them apart. */
  predicate ShortEscape(c: char) {
    c in {'"', '\\', '\n', '\r', '\t', 8 as char, 12 as char}
  }

  predicate Plain(c: char) {
    ' ' <= c <= '~' && c != '"' && c != '\\'
  }

  lemma EscapeShape(c: char)
    ensures Plain(c) ==> Escape(c) == [c]
    ensures ShortEscape(c) ==> |Escape(c)| == 2 && Escape(c)[0] == '\\' && Escape(c)[1] != 'u'
    ensures !Plain(c) && !ShortEscape(c) && c as int < 0x10000 ==> Escape(c) == UEscape(c as int)
    ensures c as int >= 0x10000 ==> Escape(c) == UEscape(High(c as int)) + UEscape(Low(c as int))
  {
  }

  lemma FourHexDigits(n: nat)
    ensures Hex(n, 4) == [HexDigit(n / 16 / 16 / 16 % 16), HexDigit(n / 16 / 16 % 16),
                                    HexDigit(n / 16 % 16), HexDigit(n % 16)]
  {
    LastHexDigit(n, 4);
    LastHexDigit(n / 16, 3);
    LastHexDigit(n / 16 / 16, 2);
    LastHexDigit(n / 16 / 16 / 16, 1);
  }

  lemma LastHexDigit(n: nat, w: nat)
    requires w > 0
    ensures Hex(n, w) == Hex(n / 16, w - 1) + [HexDigit(n % 16)]
    ensures Hex(n, 0) == Hex(n / 16, 0) == ""
  {
  }

  /** Hexadecimal digits in lower case, four of them. */
  function FourDigits(n: nat): string
    requires n < 0x1_0000
  {
    var digits := "0123456789abcdef";
    [digits[n / 0x1000], digits[n / 0x100 % 0x10], digits[n / 0x10 % 0x10], digits[n % 0x10]]
  }

  lemma DigitInLowerCase(d: nat)
    requires d < 16
    ensures HexDigit(d) == "0123456789abcdef"[d]
  {
  }

  lemma QuotientsOf16(n: nat)
    requires n < 0x1_0000
    ensures n / 16 / 16 / 16 % 16 == n / 0x1000 && n / 16 / 16 % 16 == n / 0x100 % 0x10
  {
    assert n / 16 / 16 == n / 0x100;
    assert n / 0x100 / 16 == n / 0x1000 < 16;
  }

  lemma HexIsFourDigits(n: nat)
    requires n < 0x1_0000
    ensures Hex(n, 4) == FourDigits(n)
  {
    FourHexDigits(n);
    QuotientsOf16(n);
    DigitInLowerCase(n / 0x1000);
    DigitInLowerCase(n / 0x100 % 0x10);
    DigitInLowerCase(n / 0x10 % 0x10);
    DigitInLowerCase(n % 0x10);
  }

  /** The characters with an escape of two characters, and the second of them. */
  const SHORT_ESCAPES: seq<(char, char)> :=
    [('"', '"'), ('\\', '\\'), ('\n', 'n'), ('\r', 'r'), ('\t', 't'), (8 as char, 'b'), (12 as char, 'f')]

  ghost predicate IsShort(c: char) {
    exists d :: (c, d) in SHORT_ESCAPES
  }

  lemma ShortExactly(c: char)
    ensures IsShort(c) <==> ShortEscape(c)
    ensures forall d :: (c, d) in SHORT_ESCAPES ==> Escape(c) == ['\\', d]
  {
    assert ShortEscape(c) ==> (c, Escape(c)[1]) in SHORT_ESCAPES by {
      assert SHORT_ESCAPES[0] in SHORT_ESCAPES && SHORT_ESCAPES[1] in SHORT_ESCAPES && SHORT_ESCAPES[2] in SHORT_ESCAPES;
      assert SHORT_ESCAPES[3] in SHORT_ESCAPES && SHORT_ESCAPES[4] in SHORT_ESCAPES && SHORT_ESCAPES[5] in SHORT_ESCAPES;
      assert SHORT_ESCAPES[6] in SHORT_ESCAPES;
    }
  }

  /**
    How `json.dumps` writes each character: by its escape of two characters; itself if it is printable ASCII; else by
    the units of its UTF-16 form, each in four hexadecimal digits in lower case.
   */
  lemma EscapeExactly(c: char)
    ensures forall d :: (c, d) in SHORT_ESCAPES ==> Escape(c) == ['\\', d]
    ensures !IsShort(c) && 0x20 <= c as int < 0x7f ==> Escape(c) == [c]
    ensures !IsShort(c) && (c as int < 0x20 || 0x7f <= c as int < 0x1_0000) ==> Escape(c) == "\\u" + FourDigits(c as int)
    ensures c as int >= 0x1_0000 ==>
              exists high: nat, low: nat ::
                && 0xd800 <= high < 0xdc00 <= low < 0xe000
                && c as int == 0x1_0000 + 0x400 * (high - 0xd800) + (low - 0xdc00)
                && Escape(c) == "\\u" + FourDigits(high) + ("\\u" + FourDigits(low))
  {
    ShortExactly(c);
    EscapeShape(c);
    if c as int < 0x1_0000 {
      HexIsFourDigits(c as int);
    } else {
      PairExactly(c);
    }
  }

  lemma PairExactly(c: char)
    requires c as int >= 0x1_0000
    ensures var high, low := High(c as int), Low(c as int);
            && 0xd800 <= high < 0xdc00 <= low < 0xe000
            && c as int == 0x1_0000 + 0x400 * (high - 0xd800) + (low - 0xdc00)
            && Escape(c) == "\\u" + FourDigits(high) + ("\\u" + FourDigits(low))
  {
    EscapeShape(c);
    HexIsFourDigits(High(c as int));
    HexIsFourDigits(Low(c as int));
  }

  lemma SamePrefix(a: string, s: string, b: string, t: string)
    requires a + s == b + t && |a| == |b|
    ensures a == b && s == t
  {
    assert a == (a + s)[..|a|] && b == (b + t)[..|b|];
    assert s == (a + s)[|a|..] && t == (b + t)[|b|..];
  }

  lemma CancelFront(front: string, a: string, s: string, b: string, t: string)
    requires (front + a) + s == (front + b) + t
    ensures a + s == b + t
  {
    Associative(front, a, s);
    Associative(front, b, t);
    SamePrefix(front, a + s, front, b + t);
  }

  /** The escapes form a prefix code. */
  lemma EscapeIsPrefixCode(c: char, s: string, d: char, t: string)
    requires Escape(c) + s == Escape(d) + t
    ensures c == d && s == t
  {
    var text := Escape(c) + s;
    EscapeShape(c);
    EscapeShape(d);
    assert text[0] == Escape(c)[0] && text[0] == Escape(d)[0];
    assert Plain(c) <==> Plain(d);
    if Plain(c) {
      SamePrefix(Escape(c), s, Escape(d), t);
    } else {
      assert text[1] == Escape(c)[1] && text[1] == Escape(d)[1];
      assert ShortEscape(c) <==> ShortEscape(d);
      if ShortEscape(c) {
        SamePrefix(Escape(c), s, Escape(d), t);
      } else {
        LongEscapesAgree(c, s, d, t);
      }
    }
  }

  predicate Long(c: char) {
    !Plain(c) && !ShortEscape(c)
  }

  /** The first UTF-16 unit of a character outside the BMP is a surrogate, which no character of its own is. */
  function FirstUnit(c: char): (n: nat)
    ensures n < 0x10000
    ensures 0xd800 <= n < 0xe000 <==> c as int >= 0x10000
  {
    if c as int < 0x10000 then c as int else High(c as int)
  }

  function AfterFirstUnit(c: char, s: string): string {
    if c as int < 0x10000 then s else UEscape(Low(c as int)) + s
  }

  lemma LongEscapeSplits(c: char, s: string)
    requires Long(c)
    ensures Escape(c) + s == UEscape(FirstUnit(c)) + AfterFirstUnit(c, s)
  {
    EscapeShape(c);
  }

  lemma LongEscapesAgree(c: char, s: string, d: char, t: string)
    requires Long(c) && Long(d) && Escape(c) + s == Escape(d) + t
    ensures c == d && s == t
  {
    LongEscapeSplits(c, s);
    LongEscapeSplits(d, t);
    SamePrefix(UEscape(FirstUnit(c)), AfterFirstUnit(c, s), UEscape(FirstUnit(d)), AfterFirstUnit(d, t));
    UEscapeInjective(FirstUnit(c), FirstUnit(d));
    if c as int >= 0x10000 {
      var l, m := Low(c as int), Low(d as int);
      SamePrefix(UEscape(l), s, UEscape(m), t);
      UEscapeInjective(l, m);
    }
  }

  // ---------------------------------------------------------------------------------------------
  // Quoted strings

  function Escapes(s: string): string {
    if s == [] then "" else Escape(s[0]) + Escapes(s[1..])
  }

  function Quoted(s: string): (r: string)
    ensures r != [] && r[0] == '"'
  {
    "\"" + Escapes(s) + "\""
  }

  lemma EscapeIsNoQuote(c: char)
    ensures Escape(c)[0] != '"'
  {
    EscapeShape(c);
  }

  lemma {:induction false} EscapesAgree(a: string, s: string, b: string, t: string)
    requires Escapes(a) + ("\"" + s) == Escapes(b) + ("\"" + t)
    ensures a == b && s == t
  {
    var text := Escapes(a) + ("\"" + s);
    if a != [] && b != [] {
      var s1, t1 := Escapes(a[1..]) + ("\"" + s), Escapes(b[1..]) + ("\"" + t);
      Associative(Escape(a[0]), Escapes(a[1..]), "\"" + s);
      Associative(Escape(b[0]), Escapes(b[1..]), "\"" + t);
      EscapeIsPrefixCode(a[0], s1, b[0], t1);
      EscapesAgree(a[1..], s, b[1..], t);
    } else {
      assert a != [] ==> text[0] == Escape(a[0])[0];
      assert b != [] ==> text[0] == Escape(b[0])[0];
      assert a == [] ==> text[0] == '"';
      assert b == [] ==> text[0] == '"';
      if a != [] { EscapeIsNoQuote(a[0]); }
      if b != [] { EscapeIsNoQuote(b[0]); }
      assert text == "\"" + s && text == "\"" + t;
      assert s == text[1..] && t == text[1..];
    }
  }

  lemma QuotedAgree(a: string, s: string, b: string, t: string)
    requires Quoted(a) + s == Quoted(b) + t
    ensures a == b && s == t
  {
    Associative("\"" + Escapes(a), "\"", s);
    Associative("\"" + Escapes(b), "\"", t);
    CancelFront("\"", Escapes(a), "\"" + s, Escapes(b), "\"" + t);
    EscapesAgree(a, s, b, t);
  }

  // ---------------------------------------------------------------------------------------------
  // Key order

  /** Python's order on strings: by code point, a prefix first. */
  predicate LessEq(a: string, b: string) {
    a == [] || (b != [] && (a[0] < b[0] || (a[0] == b[0] && LessEq(a[1..], b[1..]))))
  }

  lemma {:induction false} LessEqAntisymmetric(a: string, b: string)
    requires LessEq(a, b) && LessEq(b, a)
    ensures a == b
  {
    if a != [] {
      LessEqAntisymmetric(a[1..], b[1..]);
      assert a == [a[0]] + a[1..] && b == [b[0]] + b[1..];
    }
  }

  lemma {:induction false} LessEqTotal(a: string, b: string)
    ensures LessEq(a, b) || LessEq(b, a)
  {
    if a != [] && b != [] && a[0] == b[0] {
      LessEqTotal(a[1..], b[1..]);
    }
  }

  lemma {:induction false} LessEqTransitive(a: string, b: string, c: string)
    requires LessEq(a, b) && LessEq(b, c)
    ensures LessEq(a, c)
  {
    if a != [] && a[0] == b[0] && b[0] == c[0] {
      LessEqTransitive(a[1..], b[1..], c[1..]);
    }
  }

  predicate IsLeast(k: string, keys: set<string>) {
    k in keys && forall o :: o in keys ==> LessEq(k, o)
  }

  lemma {:induction false} HasLeast(keys: set<string>)
    requires keys != {}
    ensures exists k :: IsLeast(k, keys)
  {
    var k :| k in keys;
    LessEqTotal(k, k);
    var rest := keys - {k};
    if rest == {} {
      assert keys == {k};
      assert IsLeast(k, keys);
    } else {
      HasLeast(rest);
      var l :| IsLeast(l, rest);
      LessEqTotal(k, l);
      var m := if LessEq(k, l) then k else l;
      forall o | o in keys
        ensures LessEq(m, o)
      {
        if o != k && m == k {
          LessEqTransitive(k, l, o);
        }
      }
      assert IsLeast(m, keys);
    }
  }

  function Least(keys: set<string>): (k: string)
    requires keys != {}
    ensures IsLeast(k, keys)
  {
    HasLeast(keys);
    assert forall k, l :: IsLeast(k, keys) && IsLeast(l, keys) ==> k == l by {
      forall k, l | IsLeast(k, keys) && IsLeast(l, keys)
        ensures k == l
      {
        LessEqAntisymmetric(k, l);
      }
    }
    var k :| IsLeast(k, keys);
    k
  }

  /** `sorted(keys)`. */
  function SortedKeys(keys: set<string>): (r: seq<string>)
    ensures forall k :: k in r <==> k in keys
  {
    if keys == {} then [] else [Least(keys)] + SortedKeys(keys - {Least(keys)})
  }

  /** `a` comes before `b` by code point: they agree up to a place where `a` ends or has the smaller character. */
  ghost predicate Precedes(a: string, b: string) {
    exists p: nat :: p <= |a| && p < |b| && a[..p] == b[..p] && (p == |a| || a[p] < b[p])
  }

  lemma {:induction false} LessEqPrecedes(a: string, b: string)
    requires LessEq(a, b) && a != b
    ensures Precedes(a, b)
  {
    if a == [] {
      assert b != [] && a[..0] == b[..0];
    } else if a[0] < b[0] {
      assert a[..0] == b[..0];
    } else {
      assert a == [a[0]] + a[1..] && b == [b[0]] + b[1..];
      LessEqPrecedes(a[1..], b[1..]);
      var p: nat :| p <= |a[1..]| && p < |b[1..]| && a[1..][..p] == b[1..][..p] && (p == |a[1..]| || a[1..][p] < b[1..][p]);
      assert a[..p + 1] == [a[0]] + a[1..][..p] && b[..p + 1] == [b[0]] + b[1..][..p];
    }
  }

  /** The keys are in ascending order by code point. */
  lemma {:induction false} KeysAscend(keys: set<string>)
    ensures forall i, j :: 0 <= i < j < |SortedKeys(keys)| ==> Precedes(SortedKeys(keys)[i], SortedKeys(keys)[j])
  {
    if keys != {} {
      var l, rest := Least(keys), SortedKeys(keys - {Least(keys)});
      KeysAscend(keys - {l});
      forall j | 0 <= j < |rest|
        ensures Precedes(l, rest[j])
      {
        assert rest[j] in keys - {l};
        LessEqPrecedes(l, rest[j]);
      }
      assert SortedKeys(keys) == [l] + rest;
    }
  }

  /** Insertion into a sorted list. */
  function Insert(k: string, sorted: seq<string>): seq<string> {
    if sorted == [] || LessEq(k, sorted[0]) then [k] + sorted else [sorted[0]] + Insert(k, sorted[1..])
  }

  function InsertionSort(order: seq<string>): seq<string> {
    if order == [] then [] else Insert(order[0], InsertionSort(order[1..]))
  }

  lemma LeastUnique(k: string, keys: set<string>)
    requires IsLeast(k, keys)
    ensures Least(keys) == k
  {
    LessEqAntisymmetric(k, Least(keys));
  }

  lemma {:induction false} InsertIntoSorted(k: string, keys: set<string>)
    requires k !in keys
    ensures Insert(k, SortedKeys(keys)) == SortedKeys(keys + {k})
  {
    var all := keys + {k};
    if keys == {} {
      assert all == {k};
      LessEqTotal(k, k);
      LeastUnique(k, all);
      assert all - {k} == {};
    } else {
      var l := Least(keys);
      var sorted := SortedKeys(keys);
      assert sorted[0] == l && sorted[1..] == SortedKeys(keys - {l});
      if LessEq(k, l) {
        forall o | o in all
          ensures LessEq(k, o)
        {
          LessEqTotal(k, k);
          if o != k {
            LessEqTransitive(k, l, o);
          }
        }
        LeastUnique(k, all);
        assert all - {k} == keys;
      } else {
        LessEqTotal(k, l);
        LeastUnique(l, all);
        assert all - {l} == (keys - {l}) + {k};
        InsertIntoSorted(k, keys - {l});
      }
    }
  }

  lemma HeadJoinsTail(order: seq<string>)
    requires order != [] && Distinct(order)
    ensures (set k | k in order) == (set k | k in order[1..]) + {order[0]} && order[0] !in order[1..]
  {
    assert order == [order[0]] + order[1..];
  }

  /** Whatever order the keys were inserted in, sorting them gives the one canonical order of the key set. */
  lemma {:induction false} SortIgnoresInsertionOrder(order: seq<string>)
    requires Distinct(order)
    ensures InsertionSort(order) == SortedKeys(set k | k in order)
  {
    if order == [] {
      assert (set k | k in order) == {};
    } else {
      SortIgnoresInsertionOrder(order[1..]);
      HeadJoinsTail(order);
      InsertIntoSorted(order[0], set k | k in order[1..]);
    }
  }

  // ---------------------------------------------------------------------------------------------
  // Values

  /** `fl` is how `repr` spells a float; everything else about the text is fixed. */
  function Print(fl: Float -> string, j: Json): string
    decreases j, 1, 0
  {
    match j
    case Null => "null"
    case Bool(b) => if b then "true" else "false"
    case Int(n) => if n < 0 then "-" + Digits(-n) else Digits(n)
    case Flt(f) => fl(f)
    case Str(s) => Quoted(s)
    case Arr(items) => "[" + Items(fl, j, 0)
    case Obj(fields) => "{" + Members(fl, j, SortedKeys(fields.Keys))
  }

  function Items(fl: Float -> string, j: Json, i: nat): string
    requires j.Arr? && i <= |j.items|
    decreases j, 0, |j.items| - i
  {
    if i == |j.items| then "]"
    else (if i == 0 then "" else ",") + (Print(fl, j.items[i]) + Items(fl, j, i + 1))
  }

  function Members(fl: Float -> string, j: Json, keys: seq<string>, first: bool := true): string
    requires j.Obj? && forall k :: k in keys ==> k in j.fields
    decreases j, 0, |keys|
  {
    if keys == [] then "}"
    else (if first then "" else ",") + (Quoted(keys[0]) + (":" + (Print(fl, j.fields[keys[0]]) + Members(fl, j, keys[1..], false))))
  }

  /** The characters that may follow a value. */
  predicate Closer(c: char) {
    c == ',' || c == ']' || c == '}'
  }

  ghost predicate NoCloser(s: string) {
    forall i :: 0 <= i < |s| ==> !Closer(s[i])
  }

  /** Some character that no integer is spelled with. */
  ghost predicate Fractional(s: string) {
    exists i :: 0 <= i < |s| && s[i] != '-' && !IsDigit(s[i])
  }

  /**
    What `repr` guarantees of floats, NaN and the infinities included: different floats are spelled differently, and
    none like an integer, a word, or anything that contains a comma or a closing bracket.
   */
  ghost predicate Spells(fl: Float -> string) {
    && (forall f, g :: fl(f) == fl(g) ==> f == g)
    && (forall f :: fl(f) != [] && KindOf(fl(f)[0]) == ANumber && NoCloser(fl(f)) && Fractional(fl(f)))
  }

  /** What may follow a value inside a document, or the end of it. */
  ghost predicate Closed(s: string) {
    s != [] ==> Closer(s[0])
  }

  datatype Kind = AWord | ANumber | AString | AnArray | AnObject | Punctuation

  function KindOf(c: char): Kind {
    if c == 'n' || c == 't' || c == 'f' then AWord
    else if c == '-' || IsDigit(c) || c == 'N' || c == 'I' then ANumber
    else if c == '"' then AString
    else if c == '[' then AnArray
    else if c == '{' then AnObject
    else Punctuation
  }

  function KindOfValue(j: Json): Kind {
    match j
    case Null => AWord
    case Bool(_) => AWord
    case Int(_) => ANumber
    case Flt(_) => ANumber
    case Str(_) => AString
    case Arr(_) => AnArray
    case Obj(_) => AnObject
  }

  lemma PrintStarts(fl: Float -> string, j: Json, s: string)
    requires Spells(fl)
    ensures Print(fl, j) != [] && (Print(fl, j) + s)[0] == Print(fl, j)[0]
    ensures KindOf(Print(fl, j)[0]) == KindOfValue(j) != Punctuation
  {
  }

  lemma IntsAgree(fl: Float -> string, n: int, s: string, m: int, t: string)
    requires Closed(s) && Closed(t) && Print(fl, Int(n)) + s == Print(fl, Int(m)) + t
    ensures n == m && s == t
  {
    var text := Print(fl, Int(n)) + s;
    assert n < 0 ==> text[0] == '-';
    assert n >= 0 ==> text[0] == Digits(n)[0];
    assert m < 0 ==> text[0] == '-';
    assert m >= 0 ==> text[0] == Digits(m)[0];
    assert n < 0 <==> m < 0;
    if n < 0 {
      CancelFront("-", Digits(-n), s, Digits(-m), t);
      RunsAgree(Digits(-n), s, Digits(-m), t);
    } else {
      RunsAgree(Digits(n), s, Digits(m), t);
    }
  }

  /** Two texts without closers that are each followed by a closer, or by nothing, and spell the same are the same. */
  lemma RunsToCloser(a: string, s: string, b: string, t: string)
    requires NoCloser(a) && NoCloser(b) && Closed(s) && Closed(t) && a + s == b + t
    ensures a == b && s == t
  {
    var text := a + s;
    assert |a| < |text| ==> text[|a|] == s[0];
    assert |b| < |text| ==> text[|b|] == t[0];
    assert forall i :: 0 <= i < |a| ==> !Closer(text[i]);
    assert forall i :: 0 <= i < |b| ==> !Closer(text[i]);
    SamePrefix(a, s, b, t);
  }

  lemma IntText(fl: Float -> string, n: int)
    ensures NoCloser(Print(fl, Int(n))) && !Fractional(Print(fl, Int(n)))
  {
    var text := Print(fl, Int(n));
    if n < 0 {
      assert forall i :: 0 < i < |text| ==> text[i] == Digits(-n)[i - 1];
    }
  }

  lemma NumbersAgree(fl: Float -> string, a: Json, s: string, b: Json, t: string)
    requires Spells(fl) && Closed(s) && Closed(t) && (a.Int? || a.Flt?) && (b.Int? || b.Flt?)
    requires Print(fl, a) + s == Print(fl, b) + t
    ensures a == b && s == t
  {
    if a.Int? { IntText(fl, a.n); }
    if b.Int? { IntText(fl, b.n); }
    RunsToCloser(Print(fl, a), s, Print(fl, b), t);
    if a.Int? && b.Int? {
      IntsAgree(fl, a.n, s, b.n, t);
    }
  }

  lemma WordsAgree(fl: Float -> string, a: Json, s: string, b: Json, t: string)
    requires KindOfValue(a) == KindOfValue(b) == AWord && Print(fl, a) + s == Print(fl, b) + t
    ensures a == b && s == t
  {
    var text := Print(fl, a) + s;
    assert text[0] == Print(fl, a)[0] && text[0] == Print(fl, b)[0];
    SamePrefix(Print(fl, a), s, Print(fl, b), t);
  }

  /**
    The canonical text of a value, followed by whatever may follow a value, determines both: no two values print
    the same, and no value's text is a proper prefix of another's in the same place.
   */
  lemma {:induction false} PrintAgrees(fl: Float -> string, a: Json, s: string, b: Json, t: string)
    requires Spells(fl) && Closed(s) && Closed(t)
    requires Print(fl, a) + s == Print(fl, b) + t
    ensures a == b && s == t
    decreases a, 2, 0
  {
    PrintStarts(fl, a, s);
    PrintStarts(fl, b, t);
    match a {
      case Null => WordsAgree(fl, a, s, b, t);
      case Bool(_) => WordsAgree(fl, a, s, b, t);
      case Int(_) => NumbersAgree(fl, a, s, b, t);
      case Flt(_) => NumbersAgree(fl, a, s, b, t);
      case Str(x) => QuotedAgree(x, s, b.s, t);
      case Arr(_) => ArraysAgree(fl, a, s, b, t);
      case Obj(_) => ObjectsAgree(fl, a, s, b, t);
    }
  }

  lemma {:induction false} ArraysAgree(fl: Float -> string, a: Json, s: string, b: Json, t: string)
    requires a.Arr? && b.Arr? && Spells(fl) && Closed(s) && Closed(t)
    requires Print(fl, a) + s == Print(fl, b) + t
    ensures a == b && s == t
    decreases a, 1, 0
  {
    CancelFront("[", Items(fl, a, 0), s, Items(fl, b, 0), t);
    ItemsAgree(fl, a, s, b, t, 0);
    assert a.items == a.items[0..] == b.items[0..] == b.items;
  }

  lemma {:induction false} ObjectsAgree(fl: Float -> string, a: Json, s: string, b: Json, t: string)
    requires a.Obj? && b.Obj? && Spells(fl) && Closed(s) && Closed(t)
    requires Print(fl, a) + s == Print(fl, b) + t
    ensures a == b && s == t
    decreases a, 1, 0
  {
    var ks, ls := SortedKeys(a.fields.Keys), SortedKeys(b.fields.Keys);
    CancelFront("{", Members(fl, a, ks), s, Members(fl, b, ls), t);
    MembersAgree(fl, a, ks, s, b, ls, t, true);
    SameMembers(a.fields, b.fields);
  }

  lemma SameMembers(a: map<string, Json>, b: map<string, Json>)
    requires SortedKeys(a.Keys) == SortedKeys(b.Keys)
    requires forall k :: k in SortedKeys(a.Keys) ==> k in a && k in b && a[k] == b[k]
    ensures a == b
  {
    assert forall k :: k in a <==> k in SortedKeys(a.Keys);
    assert forall k :: k in b <==> k in SortedKeys(a.Keys);
  }

  lemma ItemsUnroll(fl: Float -> string, j: Json, i: nat, s: string)
    requires j.Arr? && i < |j.items|
    ensures (Items(fl, j, i) + s)[if i == 0 then 0 else 1..] == Print(fl, j.items[i]) + (Items(fl, j, i + 1) + s)
  {
  }

  /** The element at hand is the same in both, and so is the text of the rest. */
  lemma {:induction false} ItemAgrees(fl: Float -> string, a: Json, s: string, b: Json, t: string, i: nat)
    requires a.Arr? && b.Arr? && Spells(fl) && Closed(s) && Closed(t)
    requires i < |a.items| && i < |b.items|
    requires Items(fl, a, i) + s == Items(fl, b, i) + t
    ensures a.items[i] == b.items[i] && Items(fl, a, i + 1) + s == Items(fl, b, i + 1) + t
    decreases a, 0, |a.items| - i, 0
  {
    ItemsUnroll(fl, a, i, s);
    ItemsUnroll(fl, b, i, t);
    ItemsStart(fl, a, i + 1, s);
    ItemsStart(fl, b, i + 1, t);
    PrintAgrees(fl, a.items[i], Items(fl, a, i + 1) + s, b.items[i], Items(fl, b, i + 1) + t);
  }

  lemma {:induction false} ItemsAgree(fl: Float -> string, a: Json, s: string, b: Json, t: string, i: nat)
    requires a.Arr? && b.Arr? && Spells(fl) && Closed(s) && Closed(t)
    requires i <= |a.items| && i <= |b.items|
    requires Items(fl, a, i) + s == Items(fl, b, i) + t
    ensures |a.items| == |b.items| && a.items[i..] == b.items[i..] && s == t
    decreases a, 0, |a.items| - i, 1
  {
    var text := Items(fl, a, i) + s;
    ItemsStart(fl, a, i, s);
    ItemsStart(fl, b, i, t);
    if i == |a.items| {
      assert s == text[1..] && t == text[1..];
    } else {
      ItemAgrees(fl, a, s, b, t, i);
      ItemsAgree(fl, a, s, b, t, i + 1);
      assert a.items[i..] == [a.items[i]] + a.items[i + 1..] && b.items[i..] == [b.items[i]] + b.items[i + 1..];
    }
  }

  lemma ItemsStart(fl: Float -> string, j: Json, i: nat, s: string)
    requires j.Arr? && Spells(fl) && i <= |j.items|
    ensures Items(fl, j, i) != [] && (Items(fl, j, i) + s)[0] == Items(fl, j, i)[0]
    ensures Items(fl, j, i)[0] == ']' <==> i == |j.items|
    ensures i > 0 ==> Closed(Items(fl, j, i) + s)
  {
    if i < |j.items| {
      PrintStarts(fl, j.items[i], Items(fl, j, i + 1));
    }
  }

  /** The text of the first member, after its comma if it has one, and of everything that follows it. */
  lemma MembersUnroll(fl: Float -> string, j: Json, keys: seq<string>, s: string, first: bool)
    requires j.Obj? && keys != [] && forall k :: k in keys ==> k in j.fields
    ensures Members(fl, j, keys, first) + s ==
            (if first then "" else ",") +
            (Quoted(keys[0]) + (":" + (Print(fl, j.fields[keys[0]]) + (Members(fl, j, keys[1..], false) + s))))
  {
    var q, x, rest := Quoted(keys[0]), Print(fl, j.fields[keys[0]]), Members(fl, j, keys[1..], false);
    Associative(x, rest, s);
    Associative(":", x + rest, s);
    Associative(q, ":" + (x + rest), s);
    Associative(if first then "" else ",", q + (":" + (x + rest)), s);
  }

  lemma {:induction false} MembersAgree(fl: Float -> string, a: Json, ks: seq<string>, s: string,
                                        b: Json, ls: seq<string>, t: string, first: bool)
    requires a.Obj? && b.Obj? && Spells(fl) && Closed(s) && Closed(t)
    requires (forall k :: k in ks ==> k in a.fields) && (forall l :: l in ls ==> l in b.fields)
    requires Members(fl, a, ks, first) + s == Members(fl, b, ls, first) + t
    ensures ks == ls && (forall k :: k in ks ==> a.fields[k] == b.fields[k]) && s == t
    decreases a, 0, |ks|
  {
    var text := Members(fl, a, ks, first) + s;
    MembersStart(fl, a, ks, s, first);
    MembersStart(fl, b, ls, t, first);
    if ks == [] {
      assert s == text[1..] && t == text[1..];
    } else {
      var x, y := a.fields[ks[0]], b.fields[ls[0]];
      var s2, t2 := Members(fl, a, ks[1..], false) + s, Members(fl, b, ls[1..], false) + t;
      var s1, t1 := ":" + (Print(fl, x) + s2), ":" + (Print(fl, y) + t2);
      MembersUnroll(fl, a, ks, s, first);
      MembersUnroll(fl, b, ls, t, first);
      SamePrefix(if first then "" else ",", Quoted(ks[0]) + s1, if first then "" else ",", Quoted(ls[0]) + t1);
      QuotedAgree(ks[0], s1, ls[0], t1);
      SamePrefix(":", Print(fl, x) + s2, ":", Print(fl, y) + t2);
      MembersStart(fl, a, ks[1..], s, false);
      MembersStart(fl, b, ls[1..], t, false);
      PrintAgrees(fl, x, s2, y, t2);
      MembersAgree(fl, a, ks[1..], s, b, ls[1..], t, false);
      assert ks == [ks[0]] + ks[1..] && ls == [ls[0]] + ls[1..];
    }
  }

  lemma MembersStart(fl: Float -> string, j: Json, keys: seq<string>, s: string, first: bool)
    requires j.Obj? && Spells(fl) && forall k :: k in keys ==> k in j.fields
    ensures Members(fl, j, keys, first) != []
    ensures (Members(fl, j, keys, first) + s)[0] == Members(fl, j, keys, first)[0]
    ensures Members(fl, j, keys, first)[0] == '}' <==> keys == []
    ensures !first ==> Closed(Members(fl, j, keys, first) + s)
  {
  }

  /** `canonical_bytes`: the text, which is pure ASCII, of everything but the signature block. */
  function Text(fl: Float -> string, manifest: map<string, Json>): string {
    Print(fl, Obj(manifest - {"signature"}))
  }

  /** Two manifests have the same signed bytes exactly when they agree on everything but the signature block. */
  lemma SameTextSameManifest(fl: Float -> string, a: map<string, Json>, b: map<string, Json>)
    requires Spells(fl)
    ensures Text(fl, a) == Text(fl, b) <==> a - {"signature"} == b - {"signature"}
  {
    if Text(fl, a) == Text(fl, b) {
      var x, y := Obj(a - {"signature"}), Obj(b - {"signature"});
      assert Print(fl, x) + "" == Print(fl, y) + "";
      PrintAgrees(fl, x, "", y, "");
    }
  }

  // ---------------------------------------------------------------------------------------------
  // A spelling with these guarantees

  /** Not Python's spelling, but one with the same guarantees: sign, mantissa, the letter e, and the exponent. */
  function Spelling(f: Float): string {
    match f
    case NaN => "NaN"
    case Infinite(negative) => if negative then "-Infinity" else "Infinity"
    case Finite(negative, m, e) => (if negative then "-" else "") + (Digits(m) + ("e" + ExponentText(e)))
  }

  function ExponentText(e: int): string {
    if e < 0 then "-" + Digits(-e) else Digits(e)
  }

  lemma ExponentsAgree(e: int, g: int)
    requires ExponentText(e) == ExponentText(g)
    ensures e == g
  {
    var s := ExponentText(e);
    assert e < 0 <==> s[0] == '-' by { assert e >= 0 ==> IsDigit(Digits(e)[0]); }
    assert g < 0 <==> s[0] == '-' by { assert g >= 0 ==> IsDigit(Digits(g)[0]); }
    if e < 0 {
      assert s[1..] == Digits(-e) && s[1..] == Digits(-g);
    }
  }

  lemma FiniteSpelling(f: Float)
    requires f.Finite?
    ensures var s := Spelling(f);
            && s != [] && (s[0] == '-' <==> f.negative) && (!f.negative ==> IsDigit(s[0]))
            && NoCloser(s) && Fractional(s)
            && s[if f.negative then 1 else 0..] == Digits(f.mantissa) + ("e" + ExponentText(f.exponent))
  {
    var s, d, x := Spelling(f), Digits(f.mantissa), ExponentText(f.exponent);
    var sign := if f.negative then "-" else "";
    assert s == sign + (d + ("e" + x));
    assert s[|sign| + |d|] == 'e';
    assert f.exponent < 0 ==> forall i :: 0 < i < |x| ==> x[i] == Digits(-f.exponent)[i - 1];
    forall i | 0 <= i < |s|
      ensures !Closer(s[i])
    {
      assert |sign| <= i < |sign| + |d| ==> s[i] == d[i - |sign|];
      assert |sign| + |d| < i ==> s[i] == x[i - |sign| - |d| - 1];
    }
    assert !f.negative ==> s[0] == d[0];
  }

  lemma FiniteSpellingsAgree(f: Float, g: Float)
    requires f.Finite? && g.Finite? && Spelling(f) == Spelling(g)
    ensures f == g
  {
    FiniteSpelling(f);
    FiniteSpelling(g);
    RunsAgree(Digits(f.mantissa), "e" + ExponentText(f.exponent), Digits(g.mantissa), "e" + ExponentText(g.exponent));
    assert ("e" + ExponentText(f.exponent))[1..] == ExponentText(f.exponent);
    assert ("e" + ExponentText(g.exponent))[1..] == ExponentText(g.exponent);
    ExponentsAgree(f.exponent, g.exponent);
  }

  /** The guarantees can be met: there is a spelling of every float that has them. */
  lemma SpellingSpells()
    ensures Spells(Spelling)
  {
    forall f: Float
      ensures Spelling(f) != [] && KindOf(Spelling(f)[0]) == ANumber && NoCloser(Spelling(f)) && Fractional(Spelling(f))
    {
      match f {
        case Finite(_, _, _) => FiniteSpelling(f);
        case NaN => assert Spelling(f)[1] == 'a';
        case Infinite(negative) => assert Spelling(f)[if negative then 2 else 1] == 'n';
      }
    }
    forall f: Float, g: Float | Spelling(f) == Spelling(g)
      ensures f == g
    {
      if f.Finite? && g.Finite? {
        FiniteSpellingsAgree(f, g);
      } else {
        SpecialSpellings(f, g);
      }
    }
  }

  /** NaN and the infinities are spelled with a letter where a finite float has its first digit. */
  lemma FirstDigitTells(f: Float)
    ensures var s := Spelling(f); |s| > 1 && (f.Finite? <==> IsDigit(s[if s[0] == '-' then 1 else 0]))
  {
    if f.Finite? {
      FiniteSpelling(f);
      var s := Spelling(f);
      assert s[if f.negative then 1 else 0..][0] == Digits(f.mantissa)[0];
    }
  }

  lemma SpecialSpellings(f: Float, g: Float)
    requires !(f.Finite? && g.Finite?) && Spelling(f) == Spelling(g)
    ensures f == g
  {
    FirstDigitTells(f);
    FirstDigitTells(g);
    assert |"NaN"| == 3 && |"Infinity"| == 8 && |"-Infinity"| == 9;
  }
}
