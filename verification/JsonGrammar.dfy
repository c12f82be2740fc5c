/** The grammar of RFC 8259 and what its texts mean, stated without the parser; and that the parser reads
    every one of them as what it means. A piece of syntax is kept with its white space, the spelling of its
    strings and the digits of its numbers. */
module JsonGrammar {
  import opened JsonDocuments
  import opened JsonRoundTrip
  import opened JsonSpec
  import opened Sequences
  import opened Wrappers

  // ----- strings (section 7) ------------------------------------------------------------------

  /** The code points that the two-character escapes stand for. */
  const SHORT: map<char, nat> :=
    map['\"' := 0x22, '\\' := 0x5C, '/' := 0x2F, 'b' := 0x08, 'f' := 0x0C, 'n' := 0x0A, 'r' := 0x0D, 't' := 0x09]

  const HEX: map<char, nat> :=
    map['0' := 0, '1' := 1, '2' := 2, '3' := 3, '4' := 4, '5' := 5, '6' := 6, '7' := 7, '8' := 8, '9' := 9,
        'a' := 10, 'b' := 11, 'c' := 12, 'd' := 13, 'e' := 14, 'f' := 15,
        'A' := 10, 'B' := 11, 'C' := 12, 'D' := 13, 'E' := 14, 'F' := 15]

  predicate IsHex(c: char) {
    c in HEX
  }

  function HexOf(c: char): (d: nat)
    requires IsHex(c)
    ensures d < 16
  {
    HEX[c]
  }

  /** What a two-character escape stands for: its letter, unless the table says otherwise. */
  function ShortOf(letter: char): char {
    if letter in SHORT then SHORT[letter] as char else letter
  }

  /** A character as it is, a two-character escape, or a UTF-16 code unit in four hexadecimal digits. */
  datatype Piece = Plain(c: char) | Short(letter: char) | Unit(a: char, b: char, c: char, d: char)

  /** Characters can be told from escapes, and units from other escapes. */
  predicate ReadablePiece(p: Piece) {
    match p
    case Plain(c) => c != '\"' && c != '\\'
    case Short(letter) => letter != 'u'
    case Unit(_, _, _, _) => true
  }

  predicate HexPiece(p: Piece) {
    p.Unit? ==> IsHex(p.a) && IsHex(p.b) && IsHex(p.c) && IsHex(p.d)
  }

  /** Beyond the grammar, any character but u is let through after a backslash. */
  predicate ValidPiece(p: Piece) {
    ReadablePiece(p) && HexPiece(p)
  }

  predicate ReadablePieces(ps: seq<Piece>) {
    forall p :: p in ps ==> ReadablePiece(p)
  }

  predicate ValidPieces(ps: seq<Piece>) {
    forall p :: p in ps ==> ValidPiece(p)
  }

  function PieceText(p: Piece): string {
    match p
    case Plain(c) => [c]
    case Short(letter) => ['\\', letter]
    case Unit(a, b, c, d) => ['\\', 'u', a, b, c, d]
  }

  function PiecesText(ps: seq<Piece>): string {
    if ps == [] then "" else PieceText(ps[0]) + PiecesText(ps[1..])
  }

  /** The number a unit's digits spell, zero when they are no digits. */
  function UnitValue(p: Piece): (u: nat)
    requires p.Unit?
    ensures u < 0x1_0000
  {
    if !HexPiece(p) then 0
    else HexOf(p.a) * 4096 + HexOf(p.b) * 256 + HexOf(p.c) * 16 + HexOf(p.d)
  }

  /** The UTF-8 bytes of what the pieces stand for. An escape outside the table stands for its letter. A
      code unit stands for its code point, and a high surrogate with the low one after it for theirs; where
      there is no such code point, or it is zero, which no C string can hold, for nothing, and a high
      surrogate then takes a unit after it along. */
  function Meaning(ps: seq<Piece>): string
    decreases |ps|
  {
    if ps == [] then ""
    else
      match ps[0]
      case Plain(c) => [c] + Meaning(ps[1..])
      case Short(letter) => [ShortOf(letter)] + Meaning(ps[1..])
      case Unit(_, _, _, _) =>
        var u := UnitValue(ps[0]);
        if 0xD800 <= u < 0xDC00 && |ps| > 1 && ps[1].Unit? then
          var w := UnitValue(ps[1]);
          (if 0xDC00 <= w < 0xE000 then Utf8(0x1_0000 + (u - 0xD800) * 0x400 + (w - 0xDC00)) else "") + Meaning(ps[2..])
        else (if u == 0 || 0xD800 <= u < 0xE000 then "" else Utf8(u)) + Meaning(ps[1..])
  }

  lemma HexTable(c: char)
    ensures IsHex(c) <==> HexValue(c) >= 0
    ensures IsHex(c) ==> HexValue(c) == HexOf(c)
  {
  }

  lemma UnitReads(p: Piece, s: string)
    requires p.Unit?
    ensures Hex4([p.a, p.b, p.c, p.d] + s) == UnitValue(p)
  {
    HexTable(p.a);
    HexTable(p.b);
    HexTable(p.c);
    HexTable(p.d);
    hide HexValue, IsHex, HexOf;
  }

  lemma TailPieces(ps: seq<Piece>)
    requires ValidPieces(ps) && ps != []
    ensures ValidPiece(ps[0]) && ValidPieces(ps[1..])
    ensures PiecesText(ps) == PieceText(ps[0]) + PiecesText(ps[1..])
  {
  }

  /** What pieces spell is the inside of a well-formed string. */
  lemma {:induction false} PiecesWellFormed(ps: seq<Piece>, rest: string)
    requires ValidPieces(ps)
    ensures WellFormed(PiecesText(ps) + ("\"" + rest)) && AfterQuote(PiecesText(ps) + ("\"" + rest)) == rest
    decreases |ps|
  {
    var tail := "\"" + rest;
    if ps == [] {
      assert PiecesText(ps) + tail == tail && tail[1..] == rest;
    } else {
      hide WellFormed, AfterQuote, PieceText, ValidPiece;
      TailPieces(ps);
      PiecesWellFormed(ps[1..], rest);
      hide PiecesText;
      Assoc(PieceText(ps[0]), PiecesText(ps[1..]), tail);
      PieceWellFormed(ps[0], PiecesText(ps[1..]) + tail);
    }
  }

  lemma PieceWellFormed(p: Piece, more: string)
    requires ValidPiece(p) && WellFormed(more)
    ensures WellFormed(PieceText(p) + more) && AfterQuote(PieceText(p) + more) == AfterQuote(more)
  {
    var s := PieceText(p) + more;
    match p
    case Plain(_) => assert s[1..] == more;
    case Short(_) => assert s[2..] == more;
    case Unit(a, b, c, d) => UnitWellFormed(a, b, c, d, more);
  }

  lemma UnitWellFormed(a: char, b: char, c: char, d: char, more: string)
    requires IsHex(a) && IsHex(b) && IsHex(c) && IsHex(d) && WellFormed(more)
    ensures var s := ['\\', 'u', a, b, c, d] + more; WellFormed(s) && AfterQuote(s) == AfterQuote(more)
  {
    HexTable(a);
    HexTable(b);
    HexTable(c);
    HexTable(d);
    hide HexValue, IsHex, WellFormed, AfterQuote;
    var t3 := [d] + more;
    var t2 := [c] + t3;
    var t1 := [b] + t2;
    var t0 := [a] + t1;
    DigitWellFormed(d, more);
    DigitWellFormed(c, t3);
    DigitWellFormed(b, t2);
    DigitWellFormed(a, t1);
    assert t0[0] == a && t0[1] == b && t0[2] == c && t0[3] == d;
    EscapeWellFormed(t0);
    assert ['\\', 'u', a, b, c, d] + more == "\\u" + t0;
  }

  lemma EscapeWellFormed(t: string)
    requires WellFormed(t) && |t| >= 4 && forall i :: 0 <= i < 4 ==> HexValue(t[i]) >= 0
    ensures WellFormed("\\u" + t) && AfterQuote("\\u" + t) == AfterQuote(t)
  {
    hide HexValue;
    var s := "\\u" + t;
    assert s[2..] == t;
    assert forall i :: 2 <= i < 6 ==> s[i] == t[i - 2];
  }

  lemma DigitWellFormed(c: char, more: string)
    requires IsHex(c) && WellFormed(more)
    ensures WellFormed([c] + more) && AfterQuote([c] + more) == AfterQuote(more)
  {
    HexTable(c);
    hide IsHex;
    NotSpecial(c);
    assert ([c] + more)[1..] == more;
  }

  /** Every well-formed string is spelled by pieces. */
  lemma {:induction false} Spelling(s: string) returns (ps: seq<Piece>)
    requires WellFormed(s)
    ensures ValidPieces(ps) && s == PiecesText(ps) + ("\"" + AfterQuote(s))
    decreases |s|
  {
    if s[0] == '\"' {
      ps := [];
      assert s == "\"" + s[1..];
    } else {
      var p, n := FirstPiece(s);
      hide WellFormed, AfterQuote, ValidPiece, PieceText;
      var more := Spelling(s[n..]);
      ps := [p] + more;
      ConsPieces(p, more);
      hide PiecesText;
      Assoc(PieceText(p), PiecesText(more), "\"" + AfterQuote(s));
    }
  }

  lemma ConsPieces(p: Piece, ps: seq<Piece>)
    requires ValidPiece(p) && ValidPieces(ps)
    ensures ValidPieces([p] + ps) && PiecesText([p] + ps) == PieceText(p) + PiecesText(ps)
  {
    hide ValidPiece, PieceText;
    assert ([p] + ps)[1..] == ps;
  }

  lemma FirstPiece(s: string) returns (p: Piece, n: nat)
    requires WellFormed(s) && s[0] != '\"'
    ensures 0 < n <= |s| && ValidPiece(p) && s == PieceText(p) + s[n..]
    ensures WellFormed(s[n..]) && AfterQuote(s[n..]) == AfterQuote(s)
  {
    hide IsHex, HexValue;
    if s[0] != '\\' {
      p, n := Plain(s[0]), 1;
    } else if s[1] != 'u' {
      p, n := Short(s[1]), 2;
    } else {
      AfterUnicode(s);
      HexTable(s[2]);
      HexTable(s[3]);
      HexTable(s[4]);
      HexTable(s[5]);
      p, n := Unit(s[2], s[3], s[4], s[5]), 6;
    }
  }

  /** The parser reads pieces as what they mean, and stops behind the quote that closes them. */
  lemma {:induction false} PiecesRead(ps: seq<Piece>, rest: string)
    requires ValidPieces(ps)
    ensures ParseChars(PiecesText(ps) + ("\"" + rest)) == Some((Meaning(ps), rest))
    decreases |ps|
  {
    hide ParseChars, Meaning, ValidPiece;
    if ps == [] {
      EmptyReads(rest);
    } else {
      TailPieces(ps);
      if !ps[0].Unit? {
        PiecesRead(ps[1..], rest);
        SimpleReads(ps, rest);
      } else if PairFirst(ps) {
        PiecesRead(ps[2..], rest);
        PairReads(ps, rest);
      } else {
        PiecesRead(ps[1..], rest);
        LoneReads(ps, rest);
      }
    }
  }

  lemma EmptyReads(rest: string)
    ensures ParseChars(PiecesText([]) + ("\"" + rest)) == Some((Meaning([]), rest))
  {
    var tail := "\"" + rest;
    assert PiecesText([]) + tail == tail && tail[1..] == rest;
  }

  lemma SimpleReads(ps: seq<Piece>, rest: string)
    requires ValidPieces(ps) && ps != [] && !ps[0].Unit?
    requires ParseChars(PiecesText(ps[1..]) + ("\"" + rest)) == Some((Meaning(ps[1..]), rest))
    ensures ParseChars(PiecesText(ps) + ("\"" + rest)) == Some((Meaning(ps), rest))
  {
    hide Utf8, UnitValue, ShortOf, ParseChars;
    var tail := "\"" + rest;
    assert ValidPiece(ps[0]);
    SimpleRead(ps[0], PiecesText(ps[1..]) + tail);
    Assoc(PieceText(ps[0]), PiecesText(ps[1..]), tail);
  }

  /** What is read of one piece that is no unit. */
  lemma SimpleRead(p: Piece, more: string)
    requires ValidPiece(p) && !p.Unit?
    ensures ParseChars(PieceText(p) + more) ==
      Prepend([if p.Plain? then p.c else ShortOf(p.letter)], ParseChars(more))
  {
    hide ParseUnicode, ShortOf, Unescape;
    var s := PieceText(p) + more;
    if p.Plain? {
      assert s[1..] == more;
    } else {
      assert s[2..] == more;
      ShortReads(p.letter);
    }
  }

  lemma ShortReads(letter: char)
    ensures Unescape(letter) == ShortOf(letter)
  {
  }

  /** The pieces begin with two units of which the first is a high surrogate. */
  predicate PairFirst(ps: seq<Piece>) {
    |ps| > 1 && ps[0].Unit? && ps[1].Unit? && 0xD800 <= UnitValue(ps[0]) < 0xDC00
  }

  function UnitText(p: Piece): string
    requires p.Unit?
  {
    [p.a, p.b, p.c, p.d]
  }

  /** What is read of two units. */
  lemma PairRead(p: Piece, q: Piece, more: string)
    requires p.Unit? && q.Unit? && ValidPiece(p) && ValidPiece(q) && 0xD800 <= UnitValue(p) < 0xDC00
    ensures var w := UnitValue(q);
      ParseUnicode(UnitText(p) + (PieceText(q) + more)) ==
        Some((if 0xDC00 <= w < 0xE000 then Utf8(0x1_0000 + (UnitValue(p) - 0xD800) * 0x400 + (w - 0xDC00)) else "", more))
  {
    hide Utf8, Hex4, UnitValue, ValidPiece;
    UnitReads(p, PieceText(q) + more);
    UnitReads(q, more);
    var t := UnitText(p) + (PieceText(q) + more);
    assert t[6..] == UnitText(q) + more && t[10..] == more;
    Halves(UnitValue(p), UnitValue(q));
  }

  /** What is read of one unit that is not the first of two. */
  lemma LoneRead(p: Piece, more: string)
    requires p.Unit? && ValidPiece(p)
    requires 0xD800 <= UnitValue(p) < 0xDC00 ==> !(At(more, 0) == '\\' && At(more, 1) == 'u')
    ensures var u := UnitValue(p);
      ParseUnicode(UnitText(p) + more) == Some((if u == 0 || 0xD800 <= u < 0xE000 then "" else Utf8(u), more))
  {
    hide Utf8, Hex4, UnitValue, ValidPiece;
    UnitReads(p, more);
    var t := UnitText(p) + more;
    assert t[4..] == more && At(t, 4) == At(more, 0) && At(t, 5) == At(more, 1);
  }

  lemma PairReads(ps: seq<Piece>, rest: string)
    requires ValidPieces(ps) && PairFirst(ps)
    requires ParseChars(PiecesText(ps[2..]) + ("\"" + rest)) == Some((Meaning(ps[2..]), rest))
    ensures ParseChars(PiecesText(ps) + ("\"" + rest)) == Some((Meaning(ps), rest))
  {
    hide Utf8, UnitValue, ValidPiece, ParseUnicode, ParseChars;
    var tail := "\"" + rest;
    var p, q := ps[0], ps[1];
    TailPieces(ps);
    TailPieces(ps[1..]);
    assert ps[1..][1..] == ps[2..];
    var more := PiecesText(ps[2..]) + tail;
    assert PiecesText(ps) + tail == "\\u" + UnitText(p) + (PieceText(q) + more);
    PairRead(p, q, more);
    EscapeReads(UnitText(p), PieceText(q) + more);
  }

  lemma Halves(u: nat, w: nat)
    requires 0xD800 <= u < 0xDC00
    ensures 0xDC00 <= w < 0xE000 ==>
      0x1_0000 + u % 0x400 * 0x400 + w % 0x400 == 0x1_0000 + (u - 0xD800) * 0x400 + (w - 0xDC00)
  {
  }

  lemma LoneReads(ps: seq<Piece>, rest: string)
    requires ValidPieces(ps) && ps != [] && ps[0].Unit? && !PairFirst(ps)
    requires ParseChars(PiecesText(ps[1..]) + ("\"" + rest)) == Some((Meaning(ps[1..]), rest))
    ensures ParseChars(PiecesText(ps) + ("\"" + rest)) == Some((Meaning(ps), rest))
  {
    hide Utf8, UnitValue, ValidPiece, ParseUnicode, ParseChars;
    var p := ps[0];
    TailPieces(ps);
    var more := PiecesText(ps[1..]) + ("\"" + rest);
    Assoc(PieceText(p), PiecesText(ps[1..]), "\"" + rest);
    assert PieceText(p) == "\\u" + UnitText(p);
    NotUnit(ps[1..], rest);
    LoneRead(p, more);
    EscapeReads(UnitText(p), more);
  }

  /** Pieces that do not begin with a unit do not look as if they did. */
  lemma NotUnit(ps: seq<Piece>, rest: string)
    requires ValidPieces(ps)
    ensures var s := PiecesText(ps) + ("\"" + rest);
      At(s, 0) == '\\' && At(s, 1) == 'u' ==> ps != [] && ps[0].Unit?
  {
    hide IsHex;
    if ps != [] { TailPieces(ps); }
  }

  function StringText(ps: seq<Piece>): string {
    "\"" + (PiecesText(ps) + "\"")
  }

  /** parse_string reads every string as what it means. */
  lemma StringReads(ps: seq<Piece>, rest: string)
    requires ValidPieces(ps)
    ensures ParseString(StringText(ps) + rest) == Done(Meaning(ps), rest)
  {
    hide ParseChars, StringLength, WellFormed, PiecesText;
    var inside := PiecesText(ps) + ("\"" + rest);
    assert (StringText(ps) + rest)[1..] == inside;
    PiecesWellFormed(ps, rest);
    PiecesRead(ps, rest);
    WellFormedFits(inside);
  }

  /** So it does any text that opens a well-formed string. */
  lemma StringMeans(s: string) returns (ps: seq<Piece>)
    requires WellFormed(s)
    ensures ValidPieces(ps) && "\"" + s == StringText(ps) + AfterQuote(s)
    ensures ParseString("\"" + s) == Done(Meaning(ps), AfterQuote(s))
  {
    hide ParseString, WellFormed, PiecesText;
    ps := Spelling(s);
    assert "\"" + s == StringText(ps) + AfterQuote(s);
    StringReads(ps, AfterQuote(s));
  }

  // ----- numbers (section 6) ------------------------------------------------------------------

  datatype Exponent = NoExponent | Exponent(mark: char, sign: string, digits: string)

  /** A fraction is its digits, none for a number without a decimal point. */
  datatype Numeral = Numeral(minus: bool, whole: string, fraction: string, exp: Exponent)

  predicate DigitString(s: string) {
    forall c :: c in s ==> '0' <= c <= '9'
  }

  /** The grammar of section 6 if `strict`. The parser also lets through one zero before other digits, a
      minus sign without digits, and an exponent without digits. */
  predicate ValidNumeral(n: Numeral, strict: bool) {
    && DigitString(n.whole) && (n.whole == "" ==> n.minus && !strict)
    && (n.whole != "" && n.whole[0] == '0' ==> |n.whole| == 1 || (n.whole[1] != '0' && !strict))
    && DigitString(n.fraction) && ValidExponent(n.exp, strict)
  }

  predicate ValidExponent(e: Exponent, strict: bool) {
    e.Exponent? ==>
      && (e.mark == 'e' || e.mark == 'E') && (e.sign == "" || e.sign == "+" || e.sign == "-")
      && DigitString(e.digits) && (strict ==> e.digits != "")
  }

  function FractionText(digits: string): string {
    if digits == "" then "" else "." + digits
  }

  function ExponentText(e: Exponent): string {
    if e.NoExponent? then "" else [e.mark] + (e.sign + e.digits)
  }

  function NumeralText(n: Numeral): string {
    (if n.minus then "-" else "") + (n.whole + (FractionText(n.fraction) + ExponentText(n.exp)))
  }

  /** The number that decimal digits stand for. */
  function NatOf(s: string): nat {
    if s == "" then 0
    else
      var last := s[|s| - 1];
      10 * NatOf(s[..|s| - 1]) + if '0' <= last <= '9' then (last - '0') as nat else 0
  }

  function ExponentOf(e: Exponent): int {
    if e.NoExponent? then 0 else NatOf(e.digits) * if e.sign == "-" then -1 else 1
  }

  function NumeralValue(n: Numeral): Json {
    var m := NatOf(n.whole + n.fraction);
    Number((if n.minus then -1 else 1) * m, ExponentOf(n.exp) - |n.fraction|)
  }

  /** What may follow a value in a document: its end, white space, a comma or a closing bracket or brace. */
  predicate Follows(rest: string) {
    rest == "" || rest[0] <= ' ' || rest[0] == ',' || rest[0] == ']' || rest[0] == '}'
  }

  /** Reading on behind the digits `a`. */
  lemma {:induction false} DigitsTaken(a: string, b: string, rest: string)
    requires DigitString(a) && DigitString(b) && !IsDigit(At(rest, 0))
    ensures DigitString(a + b) && TakeDigits(NatOf(a), b + rest) == (NatOf(a + b), rest)
    decreases |b|
  {
    if b == "" {
      assert b + rest == rest && a + b == a;
    } else {
      assert b[0] in b;
      assert (b + rest)[1..] == b[1..] + rest && (a + [b[0]])[..|a|] == a;
      assert (a + [b[0]]) + b[1..] == a + b;
      assert DigitString(b[1..]) by { assert forall c :: c in b[1..] ==> c in b; }
      DigitsTaken(a + [b[0]], b[1..], rest);
    }
  }

  lemma ExponentReads(e: Exponent, rest: string)
    requires Follows(rest) && ValidExponent(e, false)
    ensures ParseExponent(ExponentText(e) + rest) == (ExponentOf(e), rest)
  {
    hide TakeDigits, NatOf, DigitString;
    if e.NoExponent? {
      assert ExponentText(e) + rest == rest;
    } else {
      AllTaken(e.digits, rest);
      DigitsFirst(e.digits, rest);
      assert ExponentText(e) + rest == [e.mark] + (e.sign + (e.digits + rest));
      SignReads(e, e.digits + rest, rest);
    }
  }

  lemma DigitsFirst(digits: string, rest: string)
    requires DigitString(digits) && Follows(rest)
    ensures At(digits + rest, 0) != '+' && At(digits + rest, 0) != '-'
  {
    if digits == "" { assert digits + rest == rest; } else { assert digits[0] in digits; }
  }

  lemma SignReads(e: Exponent, t: string, rest: string)
    requires e.Exponent? && ValidExponent(e, false) && TakeDigits(0, t) == (NatOf(e.digits), rest)
    requires At(t, 0) != '+' && At(t, 0) != '-'
    ensures ParseExponent([e.mark] + (e.sign + t)) == (ExponentOf(e), rest)
  {
    hide TakeDigits, NatOf, DigitString;
    var s := [e.mark] + (e.sign + t);
    assert s[1..] == e.sign + t;
    if e.sign == "" {
      assert e.sign + t == t;
    } else {
      assert (e.sign + t)[1..] == t;
    }
  }

  lemma AllTaken(digits: string, rest: string)
    requires DigitString(digits) && !IsDigit(At(rest, 0))
    ensures TakeDigits(0, digits + rest) == (NatOf(digits), rest)
  {
    hide TakeDigits;
    DigitsTaken("", digits, rest);
    assert "" + digits == digits;
  }

  lemma NatOfNothing()
    ensures NatOf("") == 0 && NatOf("0") == 0
  {
  }

  lemma {:induction false} LeadingZero(s: string)
    ensures NatOf("0" + s) == NatOf(s)
    decreases |s|
  {
    if s == "" {
      assert "0" + s == "0";
      NatOfNothing();
    } else {
      var front := s[..|s| - 1];
      assert ("0" + s)[..|s|] == "0" + front;
      LeadingZero(front);
    }
  }

  /** What parse_number makes of the digits behind a sign and a zero. */
  function WholeDigits(t: string): (nat, string) {
    if '1' <= At(t, 0) <= '9' then TakeDigits(0, t) else (0, t)
  }

  function PastZero(t: string): string {
    if At(t, 0) == '0' then t[1..] else t
  }

  /** The whole digits: a zero stands alone, or before a digit from 1 to 9. */
  lemma WholeReads(whole: string, rest: string)
    requires DigitString(whole) && !IsDigit(At(rest, 0))
    requires whole != "" && whole[0] == '0' ==> |whole| == 1 || whole[1] != '0'
    ensures WholeDigits(PastZero(whole + rest)) == (NatOf(whole), rest)
  {
    hide *;
    if whole != "" && whole[0] == '0' {
      ZeroFirst(whole, rest);
      LeadingZero(whole[1..]);
      NonZeroReads(whole[1..], rest);
    } else {
      NoZeroFirst(whole, rest);
      NonZeroReads(whole, rest);
    }
  }

  lemma ZeroFirst(w: string, rest: string)
    requires DigitString(w) && w != "" && w[0] == '0'
    ensures w == "0" + w[1..] && PastZero(w + rest) == w[1..] + rest && DigitString(w[1..])
  {
    assert forall c :: c in w[1..] ==> c in w;
  }

  lemma NoZeroFirst(w: string, rest: string)
    requires !IsDigit(At(rest, 0)) && (w != "" ==> w[0] != '0')
    ensures PastZero(w + rest) == w + rest
  {
    if w == "" { assert w + rest == rest; }
  }

  lemma NonZeroReads(w: string, rest: string)
    requires DigitString(w) && !IsDigit(At(rest, 0)) && (w != "" ==> w[0] != '0')
    ensures WholeDigits(w + rest) == (NatOf(w), rest)
  {
    hide TakeDigits, NatOf;
    if w == "" {
      assert w + rest == rest;
      NatOfNothing();
    } else {
      assert '0' <= w[0] <= '9' by { assert w[0] in w; }
      AllTaken(w, rest);
      hide DigitString;
      assert At(w + rest, 0) == w[0];
    }
  }

  /** The digits after a decimal point. */
  lemma FractionReads(whole: string, fraction: string, rest: string)
    requires DigitString(whole) && DigitString(fraction)
    requires !IsDigit(At(rest, 0)) && At(rest, 0) != '.'
    ensures DigitString(whole + fraction)
    ensures var s := FractionText(fraction) + rest;
      && Point(s) == (fraction != "")
      && (if Point(s) then TakeDigits(NatOf(whole), s[1..]) else (NatOf(whole), s)) == (NatOf(whole + fraction), rest)
  {
    hide TakeDigits, NatOf;
    var s := FractionText(fraction) + rest;
    if fraction == "" {
      assert s == rest && whole + fraction == whole;
    } else {
      assert s[1..] == fraction + rest && fraction[0] in fraction;
      DigitsTaken(whole, fraction, rest);
    }
  }

  predicate Point(f: string) {
    At(f, 0) == '.' && IsDigit(At(f, 1))
  }

  /** The parts parse_number goes through: `t` behind the sign, `f` behind the whole digits, `e` behind the
      fraction. */
  lemma NumberParts(minus: bool, t: string, w: nat, f: string, m: nat, e: string, x: int, rest: string)
    requires !minus ==> At(t, 0) != '-'
    requires WholeDigits(PastZero(t)) == (w, f)
    requires (if Point(f) then TakeDigits(w, f[1..]) else (w, f)) == (m, e)
    requires ParseExponent(e) == (x, rest)
    ensures ParseNumber((if minus then "-" else "") + t) ==
      (Number((if minus then -1 else 1) * m, (if Point(f) then |e| - (|f| - 1) else 0) + x), rest)
  {
    hide TakeDigits, ParseExponent;
    var s := (if minus then "-" else "") + t;
    assert minus ==> s[1..] == t && At(s, 0) == '-';
    assert !minus ==> s == t;
  }

  /** parse_number reads every numeral as the number it stands for, and stops at its end. */
  lemma NumeralReads(n: Numeral, rest: string)
    requires ValidNumeral(n, false) && Follows(rest)
    ensures ParseNumber(NumeralText(n) + rest) == (NumeralValue(n), rest)
  {
    hide *;
    var e := ExponentText(n.exp) + rest;
    var f := FractionText(n.fraction) + e;
    NumeralJoins(n, rest);
    NumeralIs(n);
    AfterFraction(n, rest);
    MinusFirst(n, f);
    Scale(n.fraction, e);
    WholeReads(n.whole, f);
    FractionReads(n.whole, n.fraction, e);
    ExponentReads(n.exp, rest);
    NumberParts(n.minus, n.whole + f, NatOf(n.whole), f, NatOf(n.whole + n.fraction), e, ExponentOf(n.exp), rest);
  }

  lemma NumeralIs(n: Numeral)
    ensures NumeralValue(n) ==
      Number((if n.minus then -1 else 1) * NatOf(n.whole + n.fraction), ExponentOf(n.exp) - |n.fraction|)
    ensures ValidNumeral(n, false) ==>
      && ValidExponent(n.exp, false) && DigitString(n.whole) && DigitString(n.fraction)
      && (n.whole != "" && n.whole[0] == '0' ==> |n.whole| == 1 || n.whole[1] != '0')
  {
    hide NatOf, DigitString, ExponentOf;
  }

  lemma MinusFirst(n: Numeral, f: string)
    requires ValidNumeral(n, false)
    ensures !n.minus ==> At(n.whole + f, 0) != '-'
  {
    WholeStarts(n);
  }

  /** Every digit after the point makes the number ten times smaller. */
  lemma Scale(fraction: string, e: string)
    ensures (if fraction != "" then |e| - (|FractionText(fraction) + e| - 1) else 0) == -|fraction|
  {
  }

  lemma NumeralJoins(n: Numeral, rest: string)
    ensures NumeralText(n) + rest ==
      (if n.minus then "-" else "") + (n.whole + (FractionText(n.fraction) + (ExponentText(n.exp) + rest)))
  {
    hide FractionText, ExponentText;
    var a, b := FractionText(n.fraction), ExponentText(n.exp);
    Assoc(a, b, rest);
    Assoc(n.whole, a + b, rest);
    Assoc(if n.minus then "-" else "", n.whole + (a + b), rest);
  }

  /** Neither the exponent nor what follows a numeral continues its digits. */
  lemma AfterFraction(n: Numeral, rest: string)
    requires ValidNumeral(n, false) && Follows(rest)
    ensures var e := ExponentText(n.exp) + rest; var f := FractionText(n.fraction) + e;
      !IsDigit(At(e, 0)) && At(e, 0) != '.' && !IsDigit(At(f, 0))
  {
    hide DigitString;
    var e := ExponentText(n.exp) + rest;
    if n.exp.NoExponent? { assert e == rest; }
    if n.fraction == "" { assert FractionText(n.fraction) + e == e; }
  }

  lemma WholeStarts(n: Numeral)
    requires ValidNumeral(n, false)
    ensures n.whole != "" ==> '0' <= n.whole[0] <= '9'
    ensures n.whole == "" ==> n.minus
  {
    if n.whole != "" { assert n.whole[0] in n.whole; }
  }

  lemma StrictReadable(n: Numeral)
    requires ValidNumeral(n, true)
    ensures ValidNumeral(n, false)
  {
  }

  // ----- documents (sections 2 to 5) ----------------------------------------------------------

  /** A value with its white space. An empty array or object has white space of its own. */
  datatype Syntax =
    | Word(word: Json)
    | Numeric(number: Numeral)
    | Quoted(pieces: seq<Piece>)
    | List(white: string, elements: Elements)
    | Table(white: string, fields: Fields)

  datatype Elements = NoElement | Element(before: string, value: Syntax, after: string, next: Elements)

  datatype Fields =
    | NoField
    | Field(before: string, name: seq<Piece>, colon: (string, string), value: Syntax, after: string, next: Fields)

  /** The grammar if `strict`, except that white space may be any character up to the blank; otherwise with
      what the parser lets through in numbers and units. */
  predicate ValidSyntax(x: Syntax, strict: bool) {
    match x
    case Word(v) => v.Null? || v.False? || v.True?
    case Numeric(n) => ValidNumeral(n, strict)
    case Quoted(ps) => GoodPieces(ps, strict)
    case List(white, es) => Blank(white) && ValidElements(es, strict)
    case Table(white, fs) => Blank(white) && ValidFields(fs, strict)
  }

  predicate GoodPieces(ps: seq<Piece>, strict: bool) {
    if strict then ValidPieces(ps) else ReadablePieces(ps)
  }

  predicate ValidElements(es: Elements, strict: bool) {
    es.Element? ==>
      Blank(es.before) && ValidSyntax(es.value, strict) && Blank(es.after) && ValidElements(es.next, strict)
  }

  predicate ValidFields(fs: Fields, strict: bool) {
    fs.Field? ==>
      && Blank(fs.before) && GoodPieces(fs.name, strict) && Blank(fs.colon.0) && Blank(fs.colon.1)
      && ValidSyntax(fs.value, strict) && Blank(fs.after) && ValidFields(fs.next, strict)
  }

  function WordText(v: Json): string {
    match v
    case Null => "null"
    case False => "false"
    case _ => "true"
  }

  function SyntaxText(x: Syntax): string {
    match x
    case Word(v) => WordText(v)
    case Numeric(n) => NumeralText(n)
    case Quoted(ps) => StringText(ps)
    case List(white, es) => "[" + ((if es.NoElement? then white else ElementsText(es)) + "]")
    case Table(white, fs) => "{" + ((if fs.NoField? then white else FieldsText(fs)) + "}")
  }

  function ElementsText(es: Elements): string {
    match es
    case NoElement => ""
    case Element(before, value, after, next) =>
      before + (SyntaxText(value) + (after + (if next.NoElement? then "" else "," + ElementsText(next))))
  }

  function FieldsText(fs: Fields): string {
    match fs
    case NoField => ""
    case Field(before, name, colon, value, after, next) =>
      before + (StringText(name) + (colon.0 + (":" + (colon.1 + (SyntaxText(value)
        + (after + (if next.NoField? then "" else "," + FieldsText(next))))))))
  }

  /** The tree that a piece of syntax means. */
  function Tree(x: Syntax): Json {
    match x
    case Word(v) => v
    case Numeric(n) => NumeralValue(n)
    case Quoted(ps) => Text(Meaning(ps))
    case List(_, es) => Array(Nodes(es))
    case Table(_, fs) => Object(NamedNodes(fs))
  }

  function Nodes(es: Elements): Items {
    if es.NoElement? then NoItems else Item(Tree(es.value), Nodes(es.next))
  }

  function NamedNodes(fs: Fields): Members {
    if fs.NoField? then NoMembers else Member(Meaning(fs.name), Tree(fs.value), NamedNodes(fs.next))
  }

  lemma SyntaxStarts(x: Syntax)
    requires ValidSyntax(x, true)
    ensures SyntaxText(x) != "" && SyntaxText(x)[0] > ' ' && SyntaxText(x)[0] != ']'
  {
    if x.Numeric? { StrictReadable(x.number); WholeStarts(x.number); }
  }

  /** White space and a closing character, or a comma, follow a value well. */
  lemma WhiteFollows(white: string, tail: string)
    requires Blank(white) && Follows(tail)
    ensures Follows(white + tail)
  {
    if white == "" { assert white + tail == tail; } else { assert white[0] in white; }
  }

  lemma WhiteSkips(white: string, tail: string)
    requires Blank(white) && At(tail, 0) > ' '
    ensures Skip(white + tail) == tail
  {
    hide Blank;
    SkipBlank(white, tail);
    SkipNothing(tail);
  }

  /** parse_value reads every value as the tree it means, and stops at its end. */
  lemma {:induction false} Reads(x: Syntax, rest: string)
    requires ValidSyntax(x, true) && Follows(rest)
    ensures ParseValue(SyntaxText(x) + rest) == Done(Tree(x), rest)
    decreases x, 0
  {
    match x
    case Word(v) =>
      hide ParseValue;
      LiteralRoundTrip(v, 0, false, rest);
    case Numeric(n) => NumericReads(n, rest);
    case Quoted(ps) => QuotedReads(ps, rest);
    case List(white, es) =>
      if es.Element? {
        ElementsRead(es, rest);
        ListReads(white, es, rest);
      } else {
        EmptyListReads(white, rest);
      }
    case Table(white, fs) =>
      if fs.Field? {
        FieldsRead(fs, rest);
        TableReads(white, fs, rest);
      } else {
        EmptyTableReads(white, rest);
      }
  }

  lemma NumericReads(n: Numeral, rest: string)
    requires ValidNumeral(n, true) && Follows(rest)
    ensures ParseValue(NumeralText(n) + rest) == Done(NumeralValue(n), rest)
  {
    var s := NumeralText(n) + rest;
    StrictReadable(n);
    WholeStarts(n);
    assert At(s, 0) == '-' || IsDigit(At(s, 0));
    hide ParseValue, ParseNumber, NumeralText;
    NumeralReads(n, rest);
    LeafValue(s);
  }

  lemma QuotedReads(ps: seq<Piece>, rest: string)
    requires ValidPieces(ps)
    ensures ParseValue(StringText(ps) + rest) == Done(Text(Meaning(ps)), rest)
  {
    assert At(StringText(ps) + rest, 0) == '\"';
    hide ParseValue, ParseString, StringText;
    StringReads(ps, rest);
    LeafValue(StringText(ps) + rest);
  }

  lemma EmptyListReads(white: string, rest: string)
    requires Blank(white)
    ensures ParseValue("[" + (white + "]") + rest) == Done(Array(NoItems), rest)
  {
    hide ParseValue, ParseItems;
    var s := "[" + (white + "]") + rest;
    var tail := "]" + rest;
    assert s[1..] == white + tail && tail[1..] == rest;
    WhiteSkips(white, tail);
    NestedValue(s);
  }

  lemma EmptyTableReads(white: string, rest: string)
    requires Blank(white)
    ensures ParseValue("{" + (white + "}") + rest) == Done(Object(NoMembers), rest)
  {
    hide ParseValue, ParseMembers;
    var s := "{" + (white + "}") + rest;
    var tail := "}" + rest;
    assert s[1..] == white + tail && tail[1..] == rest;
    WhiteSkips(white, tail);
    NestedValue(s);
  }

  /** What follows an element, or a member's value, after white space. */
  function AfterElement(next: Elements, rest: string): string {
    if next.NoElement? then "]" + rest else "," + (ElementsText(next) + ("]" + rest))
  }

  function AfterField(next: Fields, rest: string): string {
    if next.NoField? then "}" + rest else "," + (FieldsText(next) + ("}" + rest))
  }

  lemma ElementParts(es: Elements, rest: string)
    requires es.Element?
    ensures ElementsText(es) + ("]" + rest)
      == es.before + (SyntaxText(es.value) + (es.after + AfterElement(es.next, rest)))
  {
    hide SyntaxText;
    var tail := "]" + rest;
    var more := if es.next.NoElement? then "" else "," + ElementsText(es.next);
    assert more + tail == AfterElement(es.next, rest);
    hide ElementsText, AfterElement;
    Assoc(es.after, more, tail);
    Assoc(SyntaxText(es.value), es.after + more, tail);
    Assoc(es.before, SyntaxText(es.value) + (es.after + more), tail);
  }

  lemma FieldParts(fs: Fields, rest: string)
    requires fs.Field?
    ensures FieldsText(fs) + ("}" + rest)
      == fs.before + (StringText(fs.name) + (fs.colon.0 + (":" + (fs.colon.1
           + (SyntaxText(fs.value) + (fs.after + AfterField(fs.next, rest)))))))
  {
    hide SyntaxText, StringText;
    var tail := "}" + rest;
    var more := if fs.next.NoField? then "" else "," + FieldsText(fs.next);
    assert more + tail == AfterField(fs.next, rest);
    var a := fs.after + more;
    var b := SyntaxText(fs.value) + a;
    var c := fs.colon.1 + b;
    var d := ":" + c;
    var e := fs.colon.0 + d;
    var f := StringText(fs.name) + e;
    hide AfterField;
    assert FieldsText(fs) == fs.before + f;
    hide FieldsText;
    Assoc(fs.after, more, tail);
    Assoc(SyntaxText(fs.value), a, tail);
    Assoc(fs.colon.1, b, tail);
    Assoc(":", c, tail);
    Assoc(fs.colon.0, d, tail);
    Assoc(StringText(fs.name), e, tail);
    Assoc(fs.before, f, tail);
  }

  lemma {:induction false} ElementsRead(es: Elements, rest: string)
    requires ValidElements(es, true) && es.Element?
    ensures ParseItems(ElementsText(es) + ("]" + rest)) == Done(Nodes(es), rest)
    decreases es, 1
  {
    hide ParseValue, SyntaxText, ElementsText, Skip, Blank, Tree;
    var tail := AfterElement(es.next, rest);
    var after := es.after + tail;
    ElementParts(es, rest);
    SyntaxStarts(es.value);
    WhiteSkips(es.before, SyntaxText(es.value) + after);
    WhiteFollows(es.after, tail);
    Reads(es.value, after);
    WhiteSkips(es.after, tail);
    if es.next.Element? {
      assert tail[1..] == ElementsText(es.next) + ("]" + rest);
      ElementsRead(es.next, rest);
    } else {
      assert tail[1..] == rest;
    }
  }

  lemma ListReads(white: string, es: Elements, rest: string)
    requires ValidElements(es, true) && es.Element?
    requires ParseItems(ElementsText(es) + ("]" + rest)) == Done(Nodes(es), rest)
    ensures ParseValue(SyntaxText(List(white, es)) + rest) == Done(Array(Nodes(es)), rest)
  {
    var s := SyntaxText(List(white, es)) + rest;
    var body := ElementsText(es) + ("]" + rest);
    assert s == "[" + body by {
      Assoc(ElementsText(es), "]", rest);
      Assoc("[", ElementsText(es) + "]", rest);
    }
    hide ParseValue, ParseItems, SyntaxText, ElementsText;
    assert s[1..] == body;
    NestedValue(s);
    ElementParts(es, rest);
    SyntaxStarts(es.value);
    var inner := SyntaxText(es.value) + (es.after + AfterElement(es.next, rest));
    WhiteSkips(es.before, inner);
    SkipNothing(inner);
    ItemsSkip(body, inner);
  }

  lemma {:induction false} FieldsRead(fs: Fields, rest: string)
    requires ValidFields(fs, true) && fs.Field?
    ensures ParseMembers(FieldsText(fs) + ("}" + rest)) == Done(NamedNodes(fs), rest)
    decreases fs, 1
  {
    hide ParseValue, ParseName, SyntaxText, StringText, FieldsText, Skip, Blank, Tree, Meaning;
    var tail := AfterField(fs.next, rest);
    var after := fs.after + tail;
    var value := SyntaxText(fs.value) + after;
    FieldParts(fs, rest);
    NameReads(fs, fs.colon.1 + value);
    SyntaxStarts(fs.value);
    WhiteSkips(fs.colon.1, value);
    WhiteFollows(fs.after, tail);
    Reads(fs.value, after);
    WhiteSkips(fs.after, tail);
    if fs.next.Field? {
      assert tail[1..] == FieldsText(fs.next) + ("}" + rest);
      FieldsRead(fs.next, rest);
    } else {
      assert tail[1..] == rest;
    }
  }

  lemma NameReads(fs: Fields, after: string)
    requires fs.Field? && Blank(fs.before) && ValidPieces(fs.name) && Blank(fs.colon.0)
    ensures ParseName(fs.before + (StringText(fs.name) + (fs.colon.0 + (":" + after)))) == Done(Meaning(fs.name), after)
  {
    var tail := fs.colon.0 + (":" + after);
    assert At(StringText(fs.name) + tail, 0) == '\"';
    hide ParseString, StringText, Meaning, Skip, Blank;
    WhiteSkips(fs.before, StringText(fs.name) + tail);
    StringReads(fs.name, tail);
    WhiteSkips(fs.colon.0, ":" + after);
    assert (":" + after)[1..] == after;
  }

  lemma TableReads(white: string, fs: Fields, rest: string)
    requires ValidFields(fs, true) && fs.Field?
    requires ParseMembers(FieldsText(fs) + ("}" + rest)) == Done(NamedNodes(fs), rest)
    ensures ParseValue(SyntaxText(Table(white, fs)) + rest) == Done(Object(NamedNodes(fs)), rest)
  {
    var s := SyntaxText(Table(white, fs)) + rest;
    var body := FieldsText(fs) + ("}" + rest);
    assert s == "{" + body by {
      Assoc(FieldsText(fs), "}", rest);
      Assoc("{", FieldsText(fs) + "}", rest);
    }
    hide ParseValue, ParseMembers, SyntaxText, FieldsText;
    assert s[1..] == body;
    NestedValue(s);
    FieldParts(fs, rest);
    var inner := StringText(fs.name) + (fs.colon.0 + (":" + (fs.colon.1
                   + (SyntaxText(fs.value) + (fs.after + AfterField(fs.next, rest))))));
    assert At(inner, 0) == '\"';
    hide StringText;
    WhiteSkips(fs.before, inner);
    SkipNothing(inner);
    MembersSkip(body, inner);
  }

  /** cJSON_Parse reads every JSON text as the tree it means. */
  lemma DocumentReads(before: string, x: Syntax, after: string, whole: bool)
    requires Blank(before) && ValidSyntax(x, true) && Blank(after)
    ensures Parse(before + (SyntaxText(x) + after), whole) == Done(Tree(x), if whole then "" else after)
  {
    hide ParseValue, SyntaxText, Tree, Blank;
    var text := SyntaxText(x) + after;
    SyntaxStarts(x);
    WhiteSkips(before, text);
    assert Follows(after) by { WhiteFollows(after, ""); assert after + "" == after; }
    Reads(x, after);
    SkipBlank(after, "");
    assert after + "" == after;
  }
}
