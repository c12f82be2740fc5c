/** Parsing undoes printing: the text of a tree, formatted or not, followed by any text that cannot be
    read as more of a number, parses to the tree and stops at that text. */
module JsonRoundTrip {
  import opened JsonSpec
  import opened Wrappers

  // ----- white space --------------------------------------------------------------------------

  /** White space, without the NUL that ends a text. */
  predicate Blank(s: string) {
    forall c :: c in s ==> '\0' < c <= ' '
  }

  lemma {:induction false} SkipBlank(a: string, s: string)
    requires Blank(a)
    ensures Skip(a + s) == Skip(s)
    decreases |a|
  {
    if a == "" {
      assert a + s == s;
    } else {
      assert (a + s)[1..] == a[1..] + s && a[0] in a;
      assert forall c :: c in a[1..] ==> c in a;
      SkipBlank(a[1..], s);
    }
  }

  lemma SkipNothing(s: string)
    requires At(s, 0) > ' '
    ensures Skip(s) == s
  {
  }

  lemma {:induction false} TabsBlank(n: int)
    ensures Blank(Tabs(n))
    decreases n
  {
    if n > 0 { TabsBlank(n - 1); }
  }

  // ----- strings ------------------------------------------------------------------------------

  lemma HexDigitValue(d: nat)
    requires d < 16
    ensures HexValue(HexDigit(d)) == d
  {
  }

  /** The escape of a control character is read back as that character. */
  lemma UnicodeEscape(c: char, rest: string)
    requires 0 < c as int < 32
    ensures ParseUnicode("00" + [HexDigit(c as int / 16), HexDigit(c as int % 16)] + rest) == Some(([c], rest))
  {
    HexDigitValue(c as int / 16);
    HexDigitValue(c as int % 16);
    var s := "00" + [HexDigit(c as int / 16), HexDigit(c as int % 16)] + rest;
    assert s[4..] == rest;
    assert Hex4(s) == c as int;
  }

  // ----- Unicode escapes ----------------------------------------------------------------------

  /** The code point that one to four bytes of UTF-8 stand for. */
  function DecodeUtf8(b: string): int {
    if |b| == 1 then b[0] as int
    else if |b| == 2 then (b[0] as int - 0xC0) * 0x40 + (b[1] as int - 0x80)
    else if |b| == 3 then (b[0] as int - 0xE0) * 0x1000 + (b[1] as int - 0x80) * 0x40 + (b[2] as int - 0x80)
    else if |b| == 4 then
      (b[0] as int - 0xF0) * 0x4_0000 + (b[1] as int - 0x80) * 0x1000 + (b[2] as int - 0x80) * 0x40 + (b[3] as int - 0x80)
    else -1
  }

  /** Leading byte and continuation bytes are in the ranges that tell them apart. */
  predicate WellFormedUtf8(b: string) {
    && 1 <= |b| <= 4
    && (|b| == 1 ==> b[0] as int < 0x80) && (|b| == 2 ==> 0xC0 <= b[0] as int < 0xE0)
    && (|b| == 3 ==> 0xE0 <= b[0] as int < 0xF0) && (|b| == 4 ==> 0xF0 <= b[0] as int < 0xF8)
    && forall i :: 1 <= i < |b| ==> 0x80 <= b[i] as int < 0xC0
  }

  lemma Utf8Decodes(u: nat)
    requires 0 < u < 0x11_0000
    ensures WellFormedUtf8(Utf8(u)) && DecodeUtf8(Utf8(u)) == u
    ensures |Utf8(u)| == if u < 0x80 then 1 else if u < 0x800 then 2 else if u < 0x1_0000 then 3 else 4
  {
    SixBits(u);
    SixBits(u / 0x40);
    SixBits(u / 0x40 / 0x40);
  }

  lemma SixBits(u: nat)
    ensures u == u / 0x40 * 0x40 + u % 0x40
  {
  }

  /** Four hexadecimal digits of a 16-bit unit. */
  function HexText(u: nat): (t: string)
    requires u < 0x1_0000
    ensures |t| == 4
  {
    [HexDigit(u / 0x1000), HexDigit(u / 0x100 % 0x10), HexDigit(u / 0x10 % 0x10), HexDigit(u % 0x10)]
  }

  lemma HexTextValue(u: nat, rest: string)
    requires u < 0x1_0000
    ensures Hex4(HexText(u) + rest) == u
  {
    var a, b, c, d := u / 0x1000, u / 0x100 % 0x10, u / 0x10 % 0x10, u % 0x10;
    FourBits(u);
    HexDigitValue(a);
    HexDigitValue(b);
    HexDigitValue(c);
    HexDigitValue(d);
    hide HexDigit, HexValue;
    assert HexText(u) == [HexDigit(a), HexDigit(b), HexDigit(c), HexDigit(d)];
  }

  lemma FourBits(u: nat)
    ensures u == u / 0x1000 * 0x1000 + u / 0x100 % 0x10 * 0x100 + u / 0x10 % 0x10 * 0x10 + u % 0x10
  {
    assert u / 0x10 / 0x10 == u / 0x100 && u / 0x100 / 0x10 == u / 0x1000;
  }

  /** The two halves of the surrogate pair of a code point beyond the first plane. */
  function HighOf(u: nat): (h: nat)
    requires 0x1_0000 <= u < 0x11_0000
    ensures HighHalf(h)
  {
    0xD800 + (u - 0x1_0000) / 0x400
  }

  function LowOf(u: nat): (l: nat)
    requires 0x1_0000 <= u < 0x11_0000
    ensures LowHalf(l)
  {
    0xDC00 + (u - 0x1_0000) % 0x400
  }

  lemma HalvesJoin(u: nat)
    requires 0x1_0000 <= u < 0x11_0000
    ensures 0x1_0000 + HighOf(u) % 0x400 * 0x400 + LowOf(u) % 0x400 == u
  {
    var w := u - 0x1_0000;
    assert (0xD800 + w / 0x400) % 0x400 == w / 0x400;
    assert (0xDC00 + w % 0x400) % 0x400 == w % 0x400;
  }

  function PairText(hi: nat, lo: nat): string
    requires HighHalf(hi) && LowHalf(lo)
  {
    HexText(hi) + ("\\u" + HexText(lo))
  }

  /** The \u escape of a character of the first plane, and the pair of escapes of any other one
      (section 7 of RFC 8259). */
  function UnicodeText(u: nat): string
    requires u < 0x11_0000
  {
    if u < 0x1_0000 then "\\u" + HexText(u) else "\\u" + PairText(HighOf(u), LowOf(u))
  }

  /** Either stands for the character's UTF-8 bytes. */
  lemma UnicodeRead(u: nat, s: string)
    requires 0 < u < 0x11_0000 && !HighHalf(u) && !LowHalf(u)
    ensures ParseChars(UnicodeText(u) + s) == Prepend(Utf8(u), ParseChars(s))
  {
    hide Hex4, HexText, Utf8, ParseUnicode, PairText, HighOf, LowOf;
    if u < 0x1_0000 {
      SingleRead(u, s);
      EscapeReads(HexText(u), s);
    } else {
      HalvesRead(HighOf(u), LowOf(u), s);
      HalvesJoin(u);
      EscapeReads(PairText(HighOf(u), LowOf(u)), s);
    }
  }

  lemma EscapeReads(x: string, s: string)
    ensures var u := ParseUnicode(x + s);
      ParseChars("\\u" + x + s) == if u.None? then None else Prepend(u.value.0, ParseChars(u.value.1))
  {
    hide ParseUnicode;
    assert ("\\u" + x + s)[2..] == x + s;
  }

  lemma SingleRead(u: nat, s: string)
    requires 0 < u < 0x1_0000 && !HighHalf(u) && !LowHalf(u)
    ensures ParseUnicode(HexText(u) + s) == Some((Utf8(u), s))
  {
    HexTextValue(u, s);
    assert (HexText(u) + s)[4..] == s;
    hide Hex4, HexText, Utf8;
  }

  lemma HalvesRead(hi: nat, lo: nat, s: string)
    requires HighHalf(hi) && LowHalf(lo)
    ensures ParseUnicode(PairText(hi, lo) + s) == Some((Utf8(0x1_0000 + hi % 0x400 * 0x400 + lo % 0x400), s))
  {
    hide Hex4, HexText, Utf8;
    var t := PairText(hi, lo) + s;
    assert t == HexText(hi) + ("\\u" + HexText(lo) + s);
    assert Hex4(t) == hi by { HexTextValue(hi, "\\u" + HexText(lo) + s); }
    assert t[6..] == HexText(lo) + s && t[10..] == s && t[4] == '\\' && t[5] == 'u';
    assert Hex4(t[6..]) == lo by { HexTextValue(lo, s); }
  }

  lemma EscapeChar(c: char, s: string)
    requires c != '\0'
    ensures ParseChars(Escape(c) + s) == Prepend([c], ParseChars(s))
  {
    var t := Escape(c) + s;
    if |Escape(c)| == 1 {
      assert t[1..] == s;
    } else if |Escape(c)| == 2 {
      assert t[2..] == s;
    } else {
      var u := "00" + [HexDigit(c as int / 16), HexDigit(c as int % 16)] + s;
      assert t[2..] == u;
      UnicodeEscape(c, s);
    }
  }

  lemma {:induction false} CharsRoundTrip(s: string, rest: string)
    requires NulFree(s)
    ensures ParseChars(EscapeAll(s) + "\"" + rest) == Some((s, rest))
    decreases |s|
  {
    var tail := "\"" + rest;
    if s == "" {
      assert EscapeAll(s) + "\"" + rest == tail;
    } else {
      assert EscapeAll(s) + "\"" + rest == Escape(s[0]) + (EscapeAll(s[1..]) + "\"" + rest);
      EscapeChar(s[0], EscapeAll(s[1..]) + "\"" + rest);
      CharsRoundTrip(s[1..], rest);
      assert [s[0]] + s[1..] == s;
    }
  }

  /** The buffer of parse_string has room for what an escaped string stands for. */
  lemma {:induction false} CharsFit(s: string, rest: string)
    requires NulFree(s)
    ensures var n := StringLength(EscapeAll(s) + "\"" + rest); n.Some? && n.value >= |s|
    decreases |s|
  {
    if s != "" {
      var t := EscapeAll(s[1..]) + "\"" + rest;
      assert EscapeAll(s) + "\"" + rest == Escape(s[0]) + t;
      CharsFit(s[1..], rest);
      EscapeLength(s[0], t);
    }
  }

  lemma EscapeLength(c: char, t: string)
    requires StringLength(t).Some?
    ensures var n := StringLength(Escape(c) + t); n.Some? && n.value >= 1 + StringLength(t).value
  {
    var s := Escape(c) + t;
    if |Escape(c)| == 1 {
      assert s[1..] == t;
    } else if |Escape(c)| == 2 {
      assert s[2..] == t;
    } else {
      var d := [HexDigit(c as int / 16), HexDigit(c as int % 16)];
      assert s[2..] == "00" + d + t;
      PlainLength("00" + d, t);
    }
  }

  /** Characters other than quotes and backslashes count once. */
  lemma {:induction false} PlainLength(a: string, t: string)
    requires forall c :: c in a ==> c != '\"' && c != '\\'
    requires StringLength(t).Some?
    ensures StringLength(a + t) == Some(|a| + StringLength(t).value)
    decreases |a|
  {
    if a == "" {
      assert a + t == t;
    } else {
      assert (a + t)[1..] == a[1..] + t && a[0] in a;
      assert forall c :: c in a[1..] ==> c in a;
      PlainLength(a[1..], t);
    }
  }

  /** The inside of a string as section 7 of RFC 8259 has it: closed by a quote, every \u followed by
      four hexadecimal digits. */
  predicate WellFormed(s: string) {
    s != "" &&
    if s[0] == '\"' then true
    else if s[0] != '\\' then WellFormed(s[1..])
    else
      && |s| > 1 && WellFormed(s[2..])
      && (s[1] == 'u' ==> |s| >= 6 && forall i :: 2 <= i < 6 ==> HexValue(s[i]) >= 0)
  }

  /** Reading a well-formed string stays inside the text and inside the buffer allocated for it. */
  lemma {:induction false} WellFormedFits(s: string)
    requires WellFormed(s)
    ensures ParseChars(s).Some? && StringLength(s).Some? && |ParseChars(s).value.0| <= StringLength(s).value
    decreases |s|
  {
    if s[0] == '\"' {
    } else if s[0] != '\\' {
      WellFormedFits(s[1..]);
    } else if s[1] != 'u' {
      WellFormedFits(s[2..]);
    } else {
      HexSteps(s);
      var u := Hex4(s[2..]);
      assert s[2..][4..] == s[6..];
      if HighHalf(u) && At(s, 6) == '\\' && At(s, 7) == 'u' {
        HexSteps(s[6..]);
        assert s[6..][6..] == s[12..] && s[2..][10..] == s[12..];
        WellFormedFits(s[12..]);
      } else {
        WellFormedFits(s[6..]);
      }
    }
  }

  /** The four digits of an escape count one each. */
  lemma HexSteps(s: string)
    requires WellFormed(s) && |s| > 1 && s[0] == '\\' && s[1] == 'u'
    ensures |s| >= 6 && WellFormed(s[6..])
    ensures StringLength(s) == if StringLength(s[6..]).None? then None else Some(5 + StringLength(s[6..]).value)
  {
    var t := s[2..];
    assert forall i :: 0 <= i < 4 ==> HexValue(t[i]) >= 0;
    assert t[1..][0] == t[1] && t[2..][0] == t[2] && t[3..][0] == t[3];
    assert t[1..][1..] == t[2..] && t[2..][1..] == t[3..] && t[3..][1..] == t[4..] && t[4..] == s[6..];
    assert WellFormed(t[1..]) && WellFormed(t[2..]) && WellFormed(t[3..]) && WellFormed(t[4..]);
    assert StringLength(t[3..]) == Longer(StringLength(t[4..]));
    assert StringLength(t[2..]) == Longer(StringLength(t[3..]));
    assert StringLength(t[1..]) == Longer(StringLength(t[2..]));
  }

  lemma StringRoundTrip(s: string, rest: string)
    requires NulFree(s)
    ensures ParseString(Quote(s) + rest) == Done(s, rest)
  {
    assert (Quote(s) + rest)[1..] == EscapeAll(s) + "\"" + rest;
    CharsRoundTrip(s, rest);
    CharsFit(s, rest);
  }

  // ----- numbers ------------------------------------------------------------------------------

  lemma {:induction false} TakeDigitsAppend(n: nat, a: string, b: string)
    requires forall c :: c in a ==> IsDigit(c)
    ensures TakeDigits(n, a + b) == TakeDigits(TakeDigits(n, a).0, b)
    decreases |a|
  {
    if a == "" {
      assert a + b == b;
    } else {
      assert (a + b)[1..] == a[1..] + b && a[0] in a;
      assert forall c :: c in a[1..] ==> c in a;
      TakeDigitsAppend(10 * n + (a[0] - '0') as nat, a[1..], b);
    }
  }

  lemma {:induction false} DigitsShape(n: nat)
    ensures |Digits(n)| > 0 && forall c :: c in Digits(n) ==> IsDigit(c)
    ensures Digits(n)[0] == '0' <==> n == 0
    ensures TakeDigits(0, Digits(n)).0 == n
    decreases n
  {
    if n >= 10 {
      DigitsShape(n / 10);
      TakeDigitsAppend(0, Digits(n / 10), [Digit(n % 10)]);
    }
  }

  /** The text after a number does not continue it. */
  predicate EndsNumber(n: int, rest: string) {
    && !(if n == 0 then '1' <= At(rest, 0) <= '9' else IsDigit(At(rest, 0)))
    && At(rest, 0) != 'e' && At(rest, 0) != 'E'
    && !(At(rest, 0) == '.' && IsDigit(At(rest, 1)))
  }

  /** What parse_number does after the sign and the digits of an integer. */
  function AfterDigits(sign: int, n: nat, s: string): (Json, string) {
    var point := At(s, 0) == '.' && IsDigit(At(s, 1));
    var all := if point then TakeDigits(n, s[1..]) else (n, s);
    var e := ParseExponent(all.1);
    (Number(sign * all.0, (if point then |all.1| - (|s| - 1) else 0) + e.0), e.1)
  }

  /** Where the digits of an integer end: a zero stops after itself unless a digit from 1 to 9 follows. */
  function TailDigits(n: nat, rest: string): (nat, string) {
    if n == 0 && !('1' <= At(rest, 0) <= '9') then (n, rest) else TakeDigits(n, rest)
  }

  lemma NumberReads(n: int, rest: string)
    ensures var d := TailDigits(if n < 0 then -n else n, rest);
      ParseNumber(Decimal(n) + rest) == AfterDigits(if n < 0 then -1 else 1, d.0, d.1)
  {
    hide ParseExponent;
    var m := if n < 0 then -n else n;
    var s := Decimal(n) + rest;
    DigitsShape(m);
    var t := if At(s, 0) == '-' then s[1..] else s;
    assert t == Digits(m) + rest;
    if m == 0 {
      assert t[1..] == rest;
    } else {
      TakeDigitsAppend(0, Digits(m), rest);
    }
  }

  /** An integer is read back, and reading stops where its text ends, exactly when the text that follows
      does not continue it. */
  lemma NumberRoundTrip(n: int, rest: string)
    ensures ParseNumber(Decimal(n) + rest) == (Number(n, 0), rest) <==> EndsNumber(n, rest)
  {
    NumberReads(n, rest);
    var m := if n < 0 then -n else n;
    var d := TailDigits(m, rest);
    if IsDigit(At(rest, 0)) && d.1 == rest {
      assert n == 0 && At(rest, 0) == '0';
    }
  }

  // ----- values -------------------------------------------------------------------------------

  /** A value never starts with white space. */
  lemma PrintStarts(v: Json, depth: nat, fmt: bool)
    ensures Print(v, depth, fmt) != "" && Print(v, depth, fmt)[0] > ' '
  {
    if v.Number? {
      DigitsShape(if v.mantissa < 0 then -v.mantissa else v.mantissa);
    }
  }

  predicate Admissible(v: Json, rest: string) {
    v.Number? ==> EndsNumber(v.mantissa, rest)
  }

  lemma StartsFirst(s: string, t: string)
    requires t != ""
    ensures StartsWith(s, t) ==> At(s, 0) == t[0]
  {
    if StartsWith(s, t) { assert s[..|t|][0] == s[0]; }
  }

  /** The literals differ in their first letter, and no other value starts with one of these. */
  lemma NoLiteral(s: string)
    ensures At(s, 0) != 'n' ==> !StartsWith(s, "null")
    ensures At(s, 0) != 'f' ==> !StartsWith(s, "false")
    ensures At(s, 0) != 't' ==> !StartsWith(s, "true")
  {
    StartsFirst(s, "null");
    StartsFirst(s, "false");
    StartsFirst(s, "true");
  }

  lemma LiteralRoundTrip(v: Json, depth: nat, fmt: bool, rest: string)
    requires v.Null? || v.False? || v.True?
    ensures ParseValue(Print(v, depth, fmt) + rest) == Done(v, rest)
  {
    var t := Print(v, depth, fmt);
    var s := t + rest;
    assert s[..|t|] == t && s[|t|..] == rest;
    assert s[0] == t[0];
    NoLiteral(s);
  }

  /** A text that starts with a quote, a digit or a minus sign is none of the literals. */
  lemma LeafValue(s: string)
    ensures At(s, 0) == '\"' && ParseString(s).Done? ==>
      ParseValue(s) == Done(Text(ParseString(s).value), ParseString(s).rest)
    ensures At(s, 0) == '-' || IsDigit(At(s, 0)) ==> ParseValue(s) == Done(ParseNumber(s).0, ParseNumber(s).1)
  {
    NoLiteral(s);
    hide ParseNumber, ParseString;
  }

  lemma NumberValue(n: int, rest: string)
    ensures var p := ParseNumber(Decimal(n) + rest); ParseValue(Decimal(n) + rest) == Done(p.0, p.1)
  {
    DigitsShape(if n < 0 then -n else n);
    assert Digits(if n < 0 then -n else n)[0] in Digits(if n < 0 then -n else n);
    hide ParseNumber, ParseValue;
    LeafValue(Decimal(n) + rest);
  }

  lemma {:induction false} ValueRoundTrip(v: Json, depth: nat, fmt: bool, rest: string)
    requires Printable(v) && Admissible(v, rest)
    ensures ParseValue(Print(v, depth, fmt) + rest) == Done(v, rest)
    decreases v
  {
    hide ParseValue, Quote, Decimal;
    match v
    case Number(n, e) =>
      NumberRoundTrip(n, rest);
      NumberValue(n, rest);
    case Text(t) => TextRoundTrip(t, depth, fmt, rest);
    case Array(items) => ArrayRoundTrip(items, depth, fmt, rest);
    case Object(ms) => ObjectRoundTrip(ms, depth, fmt, rest);
    case _ => LiteralRoundTrip(v, depth, fmt, rest);
  }

  lemma TextRoundTrip(t: string, depth: nat, fmt: bool, rest: string)
    requires NulFree(t)
    ensures ParseValue(Print(Text(t), depth, fmt) + rest) == Done(Text(t), rest)
  {
    StringRoundTrip(t, rest);
    assert (Quote(t) + rest)[0] == '\"';
    hide ParseValue, Quote;
    LeafValue(Quote(t) + rest);
  }

  lemma {:induction false} ArrayRoundTrip(items: Items, depth: nat, fmt: bool, rest: string)
    requires PrintableItems(items)
    ensures ParseValue(Print(Array(items), depth, fmt) + rest) == Done(Array(items), rest)
    decreases items, 1
  {
    var s := Print(Array(items), depth, fmt) + rest;
    var body := PrintItems(items, depth + 1, fmt) + ("]" + rest);
    assert s[1..] == body;
    NestedValue(s);
    hide ParseValue;
    if items.NoItems? {
      assert body == "]" + rest && body[1..] == rest;
    } else {
      PrintStarts(items.value, depth + 1, fmt);
      SkipNothing(body);
      NotClosing(items.value, depth + 1, fmt);
      ItemsRoundTrip(items, depth + 1, fmt, rest);
    }
  }

  lemma NotClosing(v: Json, depth: nat, fmt: bool)
    ensures Print(v, depth, fmt) != "" && Print(v, depth, fmt)[0] != ']'
  {
    if v.Number? {
      DigitsShape(if v.mantissa < 0 then -v.mantissa else v.mantissa);
    }
  }

  /** What follows an element: the separator, the other elements and the closing bracket. */
  function AfterItem(next: Items, depth: nat, fmt: bool, rest: string): string {
    ItemSeparator(next, fmt) + (PrintItems(next, depth, fmt) + ("]" + rest))
  }

  lemma ItemParts(items: Items, depth: nat, fmt: bool, rest: string)
    requires items.Item?
    ensures PrintItems(items, depth, fmt) + ("]" + rest)
      == Print(items.value, depth, fmt) + AfterItem(items.next, depth, fmt, rest)
  {
    hide Print, ItemSeparator;
  }

  /** It does not continue a number. */
  lemma AfterItemEnds(v: Json, next: Items, depth: nat, fmt: bool, rest: string)
    ensures Admissible(v, AfterItem(next, depth, fmt, rest))
  {
    var after := AfterItem(next, depth, fmt, rest);
    assert after[0] == ',' || after[0] == ']';
  }

  lemma AfterItemReads(next: Items, depth: nat, fmt: bool, rest: string)
    ensures var t := Skip(AfterItem(next, depth, fmt, rest));
      if next.NoItems? then t == "]" + rest && t[1..] == rest
      else At(t, 0) == ',' && Skip(t[1..]) == Skip(PrintItems(next, depth, fmt) + ("]" + rest))
  {
    var after := AfterItem(next, depth, fmt, rest);
    if next.NoItems? {
      assert after == "]" + rest && after[1..] == rest;
    } else {
      var more := PrintItems(next, depth, fmt) + ("]" + rest);
      SkipNothing(after);
      assert after[1..] == (if fmt then " " else "") + more;
      SkipBlank(if fmt then " " else "", more);
    }
  }

  lemma {:induction false} ItemsRoundTrip(items: Items, depth: nat, fmt: bool, rest: string)
    requires PrintableItems(items) && items.Item?
    ensures ParseItems(PrintItems(items, depth, fmt) + ("]" + rest)) == Done(items, rest)
    decreases items, 0
  {
    hide ParseValue, Print, PrintItems, AfterItem, Skip, Admissible;
    var v, next := items.value, items.next;
    var after := AfterItem(next, depth, fmt, rest);
    ItemParts(items, depth, fmt, rest);
    PrintStarts(v, depth, fmt);
    SkipNothing(Print(v, depth, fmt) + after);
    AfterItemEnds(v, next, depth, fmt, rest);
    ValueRoundTrip(v, depth, fmt, after);
    AfterItemReads(next, depth, fmt, rest);
    if next.Item? {
      ItemsRoundTrip(next, depth, fmt, rest);
      ItemsSkip(PrintItems(next, depth, fmt) + ("]" + rest), Skip(after)[1..]);
    }
  }

  /** Leading white space does not change what is read. */
  lemma ItemsSkip(s: string, t: string)
    requires Skip(s) == Skip(t)
    ensures ParseItems(s) == ParseItems(t)
  {
  }

  lemma MembersSkip(s: string, t: string)
    requires Skip(s) == Skip(t)
    ensures ParseMembers(s) == ParseMembers(t)
  {
  }

  /** parse_value on an opening brace or bracket. */
  lemma NestedValue(s: string)
    ensures At(s, 0) == '{' ==> ParseValue(s) == ParseObject(s)
    ensures At(s, 0) == '[' ==> ParseValue(s) == ParseArray(s)
  {
    hide ParseNumber, ParseString, ParseObject, ParseArray, Skip;
    NoLiteral(s);
  }

  lemma EmptyObjectRoundTrip(depth: nat, fmt: bool, rest: string)
    ensures ParseValue(Print(Object(NoMembers), depth, fmt) + rest) == Done(Object(NoMembers), rest)
  {
    var white := if fmt then "\n" + Tabs(depth - 1) else "";
    TabsBlank(depth - 1);
    var s := "{" + white + "}" + rest;
    assert Print(Object(NoMembers), depth, fmt) == "{" + white + "}";
    hide Print, ParseValue, ParseMembers, ParseItems, Tabs;
    NestedValue(s);
    assert s[1..] == white + ("}" + rest);
    SkipBlank(white, "}" + rest);
    assert ("}" + rest)[1..] == rest;
  }

  lemma {:induction false} ObjectRoundTrip(ms: Members, depth: nat, fmt: bool, rest: string)
    requires PrintableMembers(ms)
    ensures ParseValue(Print(Object(ms), depth, fmt) + rest) == Done(Object(ms), rest)
    decreases ms, 1
  {
    hide ParseValue, ParseMembers, PrintMembers, Tabs;
    if ms.NoMembers? {
      EmptyObjectRoundTrip(depth, fmt, rest);
    } else {
      var s := Print(Object(ms), depth, fmt) + rest;
      NestedValue(s);
      var body := PrintMembers(ms, depth + 1, fmt) + (Indent(depth, fmt) + ("}" + rest));
      assert s[1..] == (if fmt then "\n" else "") + body;
      SkipBlank(if fmt then "\n" else "", body);
      FirstMember(ms, depth + 1, fmt, Indent(depth, fmt) + ("}" + rest));
      assert ParseMembers(body) == Done(ms, rest) by {
        TabsBlank(depth);
        MembersRoundTrip(ms, depth + 1, fmt, Indent(depth, fmt), rest);
      }
      MembersSkip(Skip(body), body);
    }
  }

  lemma Regroup(a: string, b: string, c: string, d: string, e: string, f: string, g: string)
    ensures a + b + c + d + e + f + g == a + (b + (c + (d + (e + (f + g)))))
  {
  }

  /** What follows a member's value: the end of its line, the other members and the closing brace. */
  function AfterValue(next: Members, depth: nat, fmt: bool, tail: string): string {
    MemberEnd(next, fmt) + (PrintMembers(next, depth, fmt) + tail)
  }

  lemma MemberParts(ms: Members, depth: nat, fmt: bool, tail: string)
    requires ms.Member?
    ensures PrintMembers(ms, depth, fmt) + tail ==
      Indent(depth, fmt) + (Quote(ms.name) + (Colon(fmt) + (Print(ms.value, depth, fmt) + AfterValue(ms.next, depth, fmt, tail))))
  {
    Regroup(Indent(depth, fmt), Quote(ms.name), Colon(fmt), Print(ms.value, depth, fmt), MemberEnd(ms.next, fmt),
            PrintMembers(ms.next, depth, fmt), tail);
    hide Indent, Quote, Colon, Print, MemberEnd;
  }

  /** The text of the members starts, after white space, with a quote. */
  lemma FirstMember(ms: Members, depth: nat, fmt: bool, tail: string)
    requires ms.Member?
    ensures At(Skip(PrintMembers(ms, depth, fmt) + tail), 0) == '\"'
    ensures Skip(Skip(PrintMembers(ms, depth, fmt) + tail)) == Skip(PrintMembers(ms, depth, fmt) + tail)
  {
    MemberParts(ms, depth, fmt, tail);
    hide PrintMembers, Print, AfterValue;
    TabsBlank(depth);
    SkipBlank(Indent(depth, fmt), Quote(ms.name) + (Colon(fmt) + (Print(ms.value, depth, fmt) + AfterValue(ms.next, depth, fmt, tail))));
  }

  /** Whatever follows a member's value does not continue a number. */
  lemma AfterValueEnds(v: Json, next: Members, depth: nat, fmt: bool, white: string, rest: string)
    requires Blank(white)
    ensures Admissible(v, AfterValue(next, depth, fmt, white + ("}" + rest)))
  {
    var after := AfterValue(next, depth, fmt, white + ("}" + rest));
    if next.NoMembers? && !fmt {
      assert after == white + ("}" + rest);
      if white != "" { assert white[0] in white; }
    } else {
      assert after[0] == MemberEnd(next, fmt)[0];
    }
  }

  /** After the last value: white space and the closing brace; after any other: a comma and the next
      member. */
  lemma AfterValueReads(next: Members, depth: nat, fmt: bool, white: string, rest: string)
    requires Blank(white)
    ensures var t := Skip(AfterValue(next, depth, fmt, white + ("}" + rest)));
      if next.NoMembers? then t == "}" + rest && t[1..] == rest
      else At(t, 0) == ',' && Skip(t[1..]) == Skip(PrintMembers(next, depth, fmt) + (white + ("}" + rest)))
  {
    var more := PrintMembers(next, depth, fmt) + (white + ("}" + rest));
    var after := AfterValue(next, depth, fmt, white + ("}" + rest));
    var line := if fmt then "\n" else "";
    if next.NoMembers? {
      assert after == (line + white) + ("}" + rest);
      SkipBlank(line + white, "}" + rest);
      assert ("}" + rest)[1..] == rest;
    } else {
      SkipNothing(after);
      assert after[1..] == line + more;
      SkipBlank(line, more);
    }
  }

  lemma {:induction false} MembersRoundTrip(ms: Members, depth: nat, fmt: bool, white: string, rest: string)
    requires PrintableMembers(ms) && ms.Member? && Blank(white)
    ensures ParseMembers(PrintMembers(ms, depth, fmt) + (white + ("}" + rest))) == Done(ms, rest)
    decreases ms, 0
  {
    hide ParseValue, Print, PrintMembers, Quote, AfterValue, Blank, ParseName, Skip, Admissible;
    var v, next := ms.value, ms.next;
    var tail := white + ("}" + rest);
    var after := AfterValue(next, depth, fmt, tail);
    MemberParts(ms, depth, fmt, tail);
    PrintStarts(v, depth, fmt);
    NameRoundTrip(ms.name, depth, fmt, Print(v, depth, fmt) + after);
    AfterValueEnds(v, next, depth, fmt, white, rest);
    ValueRoundTrip(v, depth, fmt, after);
    AfterValueReads(next, depth, fmt, white, rest);
    if next.Member? {
      MembersRoundTrip(next, depth, fmt, white, rest);
      MembersSkip(PrintMembers(next, depth, fmt) + tail, Skip(after)[1..]);
    }
  }

  lemma QuoteStarts(name: string)
    ensures Quote(name) != "" && Quote(name)[0] == '\"'
  {
  }

  lemma NameRoundTrip(name: string, depth: nat, fmt: bool, after: string)
    requires NulFree(name) && At(after, 0) > ' '
    ensures var r := ParseName(Indent(depth, fmt) + (Quote(name) + (Colon(fmt) + after)));
      r.Done? && r.value == name && Skip(r.rest) == after
  {
    hide ParseString, Quote, Blank, Tabs;
    var t := Colon(fmt) + after;
    assert Quote(name) != "" && Quote(name)[0] == '\"' by { QuoteStarts(name); }
    TabsBlank(depth);
    SkipBlank(Indent(depth, fmt), Quote(name) + t);
    SkipNothing(Quote(name) + t);
    StringRoundTrip(name, t);
    SkipNothing(t);
    assert t[1..] == (if fmt then "\t" else "") + after;
    SkipBlank(if fmt then "\t" else "", after);
    SkipNothing(after);
  }

  /** Parsing undoes printing for every tree, at any depth and in either format; the text after the
      value matters only to a number, and then the condition is exact. */
  lemma RoundTrip(v: Json, depth: nat, fmt: bool, rest: string)
    requires Printable(v)
    ensures ParseValue(Print(v, depth, fmt) + rest) == Done(v, rest) <==> Admissible(v, rest)
  {
    if Admissible(v, rest) {
      ValueRoundTrip(v, depth, fmt, rest);
    } else {
      NumberRoundTrip(v.mantissa, rest);
      DigitsShape(if v.mantissa < 0 then -v.mantissa else v.mantissa);
    }
  }

  /** What cJSON_Print and cJSON_PrintUnformatted write, cJSON_Parse reads, white space around it or not. */
  lemma ParsePrint(v: Json, fmt: bool, before: string, after: string, whole: bool)
    requires Printable(v) && Blank(before) && Blank(after)
    ensures Parse(before + Print(v, 0, fmt) + after, whole) == Done(v, if whole then "" else after)
  {
    var text := Print(v, 0, fmt) + after;
    assert before + Print(v, 0, fmt) + after == before + text;
    SkipBlank(before, text);
    PrintStarts(v, 0, fmt);
    SkipNothing(text);
    RoundTrip(v, 0, fmt, after);
    assert after + "" == after;
    SkipBlank(after, "");
  }
}
