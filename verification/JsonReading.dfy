/** The other direction of the grammar: every text the parser accepts is spelled by a piece of syntax that
    means the tree it returns. Only what the predicates of the grammar let through beyond RFC 8259 is accepted
    beyond it, and one thing more: a string at the end of the text may lack its closing quote. */
module JsonReading {
  import opened JsonGrammar
  import opened JsonRoundTrip
  import opened JsonSpec
  import opened Sequences
  import opened Wrappers

  /** The white space at the start of a text. */
  function Before(s: string): string {
    s[..|s| - |Skip(s)|]
  }

  lemma {:induction false} SkipIs(s: string)
    requires NulFree(s)
    ensures Blank(Before(s)) && s == Before(s) + Skip(s) && NulFree(Skip(s))
    ensures s == Skip(s) ==> Before(s) == ""
    decreases |s|
  {
    if s != "" && s[0] <= ' ' {
      assert forall c :: c in s[1..] ==> c in s;
      assert s[0] in s;
      SkipIs(s[1..]);
      assert Before(s) == [s[0]] + Before(s[1..]);
      assert s == [s[0]] + s[1..];
    }
  }

  lemma SuffixNulFree(a: string, b: string)
    requires NulFree(a + b)
    ensures NulFree(b)
  {
    assert forall c :: c in b ==> c in a + b;
  }

  // ----- strings ------------------------------------------------------------------------------

  /** Pieces, the closing quote if there is one, and the text after it. */
  function Spelled(ps: seq<Piece>, closed: bool, rest: string): string {
    PiecesText(ps) + ((if closed then "\"" else "") + rest)
  }

  ghost predicate Known(s: string, ps: seq<Piece>, closed: bool) {
    && ReadablePieces(ps) && ParseChars(s).Some? && ParseChars(s).value.0 == Meaning(ps)
    && s == Spelled(ps, closed, ParseChars(s).value.1) && (!closed ==> ParseChars(s).value.1 == "")
  }

  lemma ConsReadable(p: Piece, ps: seq<Piece>)
    requires ReadablePiece(p) && ReadablePieces(ps)
    ensures ReadablePieces([p] + ps) && PiecesText([p] + ps) == PieceText(p) + PiecesText(ps)
  {
    hide ReadablePiece, PieceText;
    assert ([p] + ps)[1..] == ps;
  }

  lemma SpelledCons(p: Piece, ps: seq<Piece>, closed: bool, rest: string)
    requires ReadablePiece(p) && ReadablePieces(ps)
    ensures ReadablePieces([p] + ps) && Spelled([p] + ps, closed, rest) == PieceText(p) + Spelled(ps, closed, rest)
  {
    ConsReadable(p, ps);
    hide PiecesText, PieceText;
    Assoc(PieceText(p), PiecesText(ps), (if closed then "\"" else "") + rest);
  }

  lemma {:induction false} CharsKnown(s: string) returns (ps: seq<Piece>, closed: bool)
    requires ParseChars(s).Some?
    ensures Known(s, ps, closed)
    decreases |s|
  {
    hide Known, ParseChars, ParseUnicode;
    if s == "" || s[0] == '\"' {
      ps, closed := [], s != "";
      EndKnown(s);
    } else if s[0] != '\\' || (|s| > 1 && s[1] != 'u') {
      var n := SimpleCovers(s);
      ps, closed := CharsKnown(s[n..]);
      ps := SimpleKnown(s, ps, closed);
    } else {
      UnitCovers(s);
      if TwoUnits(s) {
        var more;
        more, closed := CharsKnown(s[12..]);
        PairKnown(s, more, closed);
        ps := [UnitAt(s), UnitAt(s[6..])] + more;
      } else {
        var more;
        more, closed := CharsKnown(s[6..]);
        LoneKnown(s, more, closed);
        ps := [UnitAt(s)] + more;
      }
    }
  }

  lemma EndKnown(s: string)
    requires s == "" || s[0] == '\"'
    ensures Known(s, [], s != "")
  {
    if s != "" { assert s == "" + ("\"" + s[1..]); }
  }

  lemma SimpleCovers(s: string) returns (n: nat)
    requires ParseChars(s).Some? && s != "" && s[0] != '\"' && (s[0] != '\\' || (|s| > 1 && s[1] != 'u'))
    ensures n == (if s[0] == '\\' then 2 else 1) && n <= |s| && ParseChars(s[n..]).Some?
  {
    n := if s[0] == '\\' then 2 else 1;
  }

  lemma SimpleKnown(s: string, more: seq<Piece>, closed: bool) returns (ps: seq<Piece>)
    requires ParseChars(s).Some? && s != "" && s[0] != '\"' && (s[0] != '\\' || (|s| > 1 && s[1] != 'u'))
    requires var n := if s[0] == '\\' then 2 else 1; Known(s[n..], more, closed)
    ensures Known(s, ps, closed)
  {
    hide ParseUnicode, Utf8, UnitValue, ShortOf, Unescape, Spelled;
    var p := if s[0] == '\\' then Short(s[1]) else Plain(s[0]);
    var n := if s[0] == '\\' then 2 else 1;
    ps := [p] + more;
    assert s == PieceText(p) + s[n..];
    SpelledCons(p, more, closed, ParseChars(s[n..]).value.1);
    assert ps[1..] == more;
    if s[0] == '\\' { ShortReads(s[1]); }
  }

  /** The unit a text begins with. */
  function UnitAt(s: string): Piece
    requires |s| >= 6
  {
    Unit(s[2], s[3], s[4], s[5])
  }

  predicate TwoUnits(s: string)
    requires |s| >= 6
  {
    HighHalf(UnitValue(UnitAt(s))) && At(s, 6) == '\\' && At(s, 7) == 'u'
  }

  /** A unit that is read is inside the text, and so is one read together with it. */
  lemma UnitCovers(s: string)
    requires ParseChars(s).Some? && |s| > 0 && s[0] == '\\' && !(|s| > 1 && s[1] != 'u')
    ensures |s| >= 6 && s[1] == 'u' && s == PieceText(UnitAt(s)) + s[6..]
    ensures TwoUnits(s) ==> |s| >= 12 && s[6..] == PieceText(UnitAt(s[6..])) + s[12..] && ParseChars(s[12..]).Some?
    ensures !TwoUnits(s) ==> ParseChars(s[6..]).Some?
  {
    hide ParseUnicode, ParseChars, UnitValue;
    EscapeThere(s);
    UnitIs(s);
    UnicodeRest(s[2..]);
    if TwoUnits(s) { UnitThere(s[6..]); }
  }

  lemma UnitThere(s: string)
    requires |s| >= 6 && s[0] == '\\' && s[1] == 'u'
    ensures s == PieceText(UnitAt(s)) + s[6..]
  {
  }

  lemma UnitIs(s: string)
    requires |s| >= 6 && s[0] == '\\' && s[1] == 'u'
    ensures s == PieceText(UnitAt(s)) + s[6..] && Hex4(s[2..]) == UnitValue(UnitAt(s))
    ensures s[2..][4..] == s[6..] && At(s[2..], 4) == At(s, 6) && At(s[2..], 5) == At(s, 7)
    ensures |s| >= 12 ==> s[2..][10..] == s[12..] && s[6..][6..] == s[12..]
  {
    hide Hex4, UnitValue;
    var p := UnitAt(s);
    assert s[2..] == [p.a, p.b, p.c, p.d] + s[6..];
    UnitReads(p, s[6..]);
  }

  lemma EscapeThere(s: string)
    requires ParseChars(s).Some? && |s| > 0 && s[0] == '\\' && !(|s| > 1 && s[1] != 'u')
    ensures |s| >= 6 && s[1] == 'u' && ParseUnicode(s[2..]).Some? && ParseChars(ParseUnicode(s[2..]).value.1).Some?
  {
    hide Hex4, Utf8;
  }

  lemma UnicodeRest(t: string)
    requires ParseUnicode(t).Some?
    ensures var two := HighHalf(Hex4(t)) && At(t, 4) == '\\' && At(t, 5) == 'u';
      |t| >= (if two then 10 else 4) && ParseUnicode(t).value.1 == if two then t[10..] else t[4..]
  {
    hide Hex4, Utf8;
  }

  lemma PairKnown(s: string, more: seq<Piece>, closed: bool)
    requires |s| >= 12 && s == PieceText(UnitAt(s)) + s[6..] && s[6..] == PieceText(UnitAt(s[6..])) + s[12..]
    requires TwoUnits(s) && Known(s[12..], more, closed)
    ensures Known(s, [UnitAt(s), UnitAt(s[6..])] + more, closed)
  {
    hide ParseChars, ParseUnicode, Utf8, UnitValue, Spelled, PiecesText;
    var p, q := UnitAt(s), UnitAt(s[6..]);
    var rest := ParseChars(s[12..]).value.1;
    SpelledCons(q, more, closed, rest);
    SpelledCons(p, [q] + more, closed, rest);
    var ps := [p] + ([q] + more);
    assert ps == [p, q] + more && ps[2..] == more;
    PairUnits(p, q, s[12..]);
    EscapeReads(UnitText(p), s[6..]);
    assert s == "\\u" + UnitText(p) + s[6..];
  }

  lemma PairUnits(p: Piece, q: Piece, more: string)
    requires p.Unit? && q.Unit? && HighHalf(UnitValue(p))
    ensures var w := UnitValue(q);
      ParseUnicode(UnitText(p) + (PieceText(q) + more)) ==
        Some((if 0xDC00 <= w < 0xE000 then Utf8(0x1_0000 + (UnitValue(p) - 0xD800) * 0x400 + (w - 0xDC00)) else "", more))
  {
    hide Utf8, Hex4, UnitValue;
    UnitReads(p, PieceText(q) + more);
    UnitReads(q, more);
    var t := UnitText(p) + (PieceText(q) + more);
    assert t[6..] == UnitText(q) + more && t[10..] == more;
    Halves(UnitValue(p), UnitValue(q));
  }

  lemma LoneKnown(s: string, more: seq<Piece>, closed: bool)
    requires |s| >= 6 && s == PieceText(UnitAt(s)) + s[6..]
    requires !TwoUnits(s) && Known(s[6..], more, closed)
    ensures Known(s, [UnitAt(s)] + more, closed)
  {
    hide ParseChars, ParseUnicode, Utf8, UnitValue, Spelled, PiecesText;
    var p := UnitAt(s);
    var rest := ParseChars(s[6..]).value.1;
    SpelledCons(p, more, closed, rest);
    FirstUnit(more, closed, rest);
    var ps := [p] + more;
    assert ps[1..] == more;
    LoneUnit(p, s[6..]);
    EscapeReads(UnitText(p), s[6..]);
    assert s == "\\u" + UnitText(p) + s[6..];
    assert At(s, 6) == At(s[6..], 0) && At(s, 7) == At(s[6..], 1);
  }

  lemma FirstUnit(ps: seq<Piece>, closed: bool, rest: string)
    ensures ps != [] && ps[0].Unit? ==> At(Spelled(ps, closed, rest), 0) == '\\' && At(Spelled(ps, closed, rest), 1) == 'u'
  {
  }

  lemma LoneUnit(p: Piece, more: string)
    requires p.Unit? && (HighHalf(UnitValue(p)) ==> !(At(more, 0) == '\\' && At(more, 1) == 'u'))
    ensures var u := UnitValue(p);
      ParseUnicode(UnitText(p) + more) == Some((if u == 0 || 0xD800 <= u < 0xE000 then "" else Utf8(u), more))
  {
    hide Utf8, Hex4, UnitValue;
    UnitReads(p, more);
    var t := UnitText(p) + more;
    assert t[4..] == more && At(t, 4) == At(more, 0) && At(t, 5) == At(more, 1);
  }

  /** What parse_string has read, closed or at the end of the text. */
  lemma StringKnown(s: string) returns (ps: seq<Piece>, closed: bool)
    requires ParseString(s).Done?
    ensures ReadablePieces(ps) && ParseString(s).value == Meaning(ps)
    ensures if closed then s == StringText(ps) + ParseString(s).rest
            else ParseString(s).rest == "" && s + "\"" == StringText(ps)
  {
    hide ParseChars, StringLength, PiecesText, Meaning;
    ps, closed := CharsKnown(s[1..]);
    var rest := ParseString(s).rest;
    var t := PiecesText(ps);
    assert s == "\"" + s[1..];
    if closed {
      Assoc(t, "\"", rest);
      Assoc("\"", t + "\"", rest);
    } else {
      assert "" + rest == "" && t + "" == t;
      Assoc("\"", t, "\"");
    }
  }

  // ----- numbers ------------------------------------------------------------------------------

  /** The digits that are taken. */
  lemma {:induction false} DigitsKnown(a: string, s: string) returns (d: string)
    requires DigitString(a)
    ensures DigitString(d) && TakeDigits(NatOf(a), s).0 == NatOf(a + d) && s == d + TakeDigits(NatOf(a), s).1
    ensures IsDigit(At(s, 0)) ==> d != "" && d[0] == s[0]
    decreases |s|
  {
    if IsDigit(At(s, 0)) {
      var b := a + [s[0]];
      assert b[..|a|] == a && NatOf(b) == 10 * NatOf(a) + (s[0] - '0') as nat;
      var more := DigitsKnown(b, s[1..]);
      hide TakeDigits, NatOf;
      d := [s[0]] + more;
      assert b + more == a + d;
      assert s == [s[0]] + s[1..];
    } else {
      d := "";
      assert a + d == a && d + s == s;
    }
  }

  lemma WholeKnown(t: string) returns (whole: string)
    ensures var (w, f) := WholeDigits(PastZero(t));
      && DigitString(whole) && NatOf(whole) == w && t == whole + f
      && (whole != "" && whole[0] == '0' ==> |whole| == 1 || whole[1] != '0')
      && (IsDigit(At(t, 0)) ==> whole != "")
  {
    hide TakeDigits, NatOf;
    NatOfNothing();
    var t0 := PastZero(t);
    var d := "";
    NoDigits();
    if '1' <= At(t0, 0) <= '9' {
      d := DigitsKnown("", t0);
      assert "" + d == d;
    } else {
      assert d + t0 == t0;
    }
    if At(t, 0) == '0' {
      whole := "0" + d;
      LeadingZero(d);
      assert t == "0" + t0;
      Assoc("0", d, WholeDigits(t0).1);
    } else {
      whole := d;
    }
  }

  lemma FractionKnown(whole: string, f: string) returns (fraction: string)
    requires DigitString(whole)
    ensures var (m, e) := if Point(f) then TakeDigits(NatOf(whole), f[1..]) else (NatOf(whole), f);
      && DigitString(fraction) && m == NatOf(whole + fraction) && f == FractionText(fraction) + e
      && (if Point(f) then |e| - (|f| - 1) else 0) == -|fraction|
  {
    hide TakeDigits, NatOf;
    if Point(f) {
      fraction := DigitsKnown(whole, f[1..]);
      assert f == "." + f[1..];
      Assoc(".", fraction, TakeDigits(NatOf(whole), f[1..]).1);
    } else {
      fraction := "";
      assert whole + fraction == whole && "" + f == f;
      assert forall c: char :: c !in "";
    }
  }

  lemma NoDigits()
    ensures DigitString("")
  {
    assert forall c: char :: c !in "";
  }

  lemma SignKnown(t: string) returns (sign: string, u: string)
    ensures t == sign + u && sign == if At(t, 0) == '+' then "+" else if At(t, 0) == '-' then "-" else ""
  {
    sign := if At(t, 0) == '+' then "+" else if At(t, 0) == '-' then "-" else "";
    u := if sign == "" then t else t[1..];
    assert "" + u == u;
  }

  /** What an exponent comes to, by its sign. */
  lemma SignedValue(t: string, sign: string, u: string)
    requires t == sign + u && sign == if At(t, 0) == '+' then "+" else if At(t, 0) == '-' then "-" else ""
    ensures forall mark: char | mark == 'e' || mark == 'E' ::
      ParseExponent([mark] + t) == (TakeDigits(0, u).0 * (if sign == "-" then -1 else 1), TakeDigits(0, u).1)
  {
    hide TakeDigits;
    assert sign == "" ==> u == t;
    assert sign != "" ==> t[1..] == u;
    forall mark: char | mark == 'e' || mark == 'E'
      ensures ParseExponent([mark] + t) == (TakeDigits(0, u).0 * (if sign == "-" then -1 else 1), TakeDigits(0, u).1)
    {
      assert ([mark] + t)[1..] == t;
    }
  }

  lemma ExponentKnown(s: string) returns (e: Exponent)
    ensures ValidExponent(e, false) && ParseExponent(s).0 == ExponentOf(e) && s == ExponentText(e) + ParseExponent(s).1
  {
    hide TakeDigits, NatOf, DigitString, ParseExponent;
    var mark := At(s, 0);
    if mark == 'e' || mark == 'E' {
      var t := s[1..];
      var sign, u := SignKnown(t);
      NoDigits();
      NatOfNothing();
      var d := DigitsKnown("", u);
      assert "" + d == d;
      e := Exponent(mark, sign, d);
      SignedValue(t, sign, u);
      assert s == [mark] + t;
      var rest := TakeDigits(0, u).1;
      Assoc(sign, d, rest);
      Assoc([mark], sign + d, rest);
    } else {
      e := NoExponent;
      NotExponent(s);
      assert "" + s == s;
    }
  }

  lemma NotExponent(s: string)
    requires At(s, 0) != 'e' && At(s, 0) != 'E'
    ensures ParseExponent(s) == (0, s)
  {
  }

  /** What parse_number has read. */
  lemma NumberKnown(s: string) returns (n: Numeral)
    requires At(s, 0) == '-' || IsDigit(At(s, 0))
    ensures ValidNumeral(n, false) && ParseNumber(s).0 == NumeralValue(n) && s == NumeralText(n) + ParseNumber(s).1
  {
    hide TakeDigits, NatOf, DigitString, ParseExponent, ParseNumber, WholeDigits, PastZero, ExponentText, FractionText;
    var minus := At(s, 0) == '-';
    var t := if minus then s[1..] else s;
    assert s == (if minus then "-" else "") + t by { if !minus { assert "" + t == t; } }
    var whole := WholeKnown(t);
    var (w, f) := WholeDigits(PastZero(t));
    var fraction := FractionKnown(whole, f);
    var (m, e) := if Point(f) then TakeDigits(w, f[1..]) else (w, f);
    var exp := ExponentKnown(e);
    n := Numeral(minus, whole, fraction, exp);
    var (x, rest) := ParseExponent(e);
    NumberParts(minus, t, w, f, m, e, x, rest);
    NumeralJoins(n, rest);
  }

  // ----- values -------------------------------------------------------------------------------

  /** The text is that of `x` and what follows it; or it is a string that the end of the text closes. */
  ghost predicate Spells(x: Syntax, s: string, rest: string) {
    s == SyntaxText(x) + rest || (x.Quoted? && rest == "" && s + "\"" == SyntaxText(x))
  }

  lemma RestNulFree(x: Syntax, s: string, rest: string)
    requires NulFree(s) && Spells(x, s, rest)
    ensures NulFree(rest)
  {
    hide SyntaxText, NulFree;
    if s == SyntaxText(x) + rest { SuffixNulFree(SyntaxText(x), rest); } else { NoNul(); }
  }

  lemma NoNul()
    ensures NulFree("")
  {
  }

  /** A text that parse_value accepts is that of a value, and the tree is what that value means. */
  lemma {:induction false} ValueKnown(s: string) returns (x: Syntax)
    requires NulFree(s) && ParseValue(s).Done?
    ensures ValidSyntax(x, false) && Tree(x) == ParseValue(s).value && Spells(x, s, ParseValue(s).rest)
    decreases |s|, 1
  {
    hide ParseValue, Spells, NulFree;
    if StartsWith(s, "null") || StartsWith(s, "false") || StartsWith(s, "true") {
      x := WordKnown(s);
    } else if At(s, 0) == '\"' {
      x := QuotedKnown(s);
    } else if At(s, 0) == '-' || IsDigit(At(s, 0)) {
      x := NumericKnown(s);
    } else if At(s, 0) == '[' {
      x := ListKnown(s);
    } else {
      NoOther(s);
      x := TableKnown(s);
    }
  }

  lemma NoOther(s: string)
    requires ParseValue(s).Done? && !StartsWith(s, "null") && !StartsWith(s, "false") && !StartsWith(s, "true")
    requires At(s, 0) != '\"' && At(s, 0) != '-' && !IsDigit(At(s, 0)) && At(s, 0) != '['
    ensures At(s, 0) == '{'
  {
  }

  lemma WordKnown(s: string) returns (x: Syntax)
    requires StartsWith(s, "null") || StartsWith(s, "false") || StartsWith(s, "true")
    ensures ParseValue(s).Done? && ValidSyntax(x, false) && Tree(x) == ParseValue(s).value
    ensures Spells(x, s, ParseValue(s).rest)
  {
    NoLiteral(s);
    var n := if StartsWith(s, "false") then 5 else 4;
    x := Word(if StartsWith(s, "null") then Null else if StartsWith(s, "false") then False else True);
    assert s == s[..n] + s[n..];
  }

  lemma QuotedKnown(s: string) returns (x: Syntax)
    requires ParseValue(s).Done? && At(s, 0) == '\"'
    ensures ValidSyntax(x, false) && Tree(x) == ParseValue(s).value && Spells(x, s, ParseValue(s).rest)
  {
    NoLiteral(s);
    hide ParseString, StringText, Meaning, StartsWith, ReadablePieces;
    assert ParseString(s).Done?;
    var ps, closed := StringKnown(s);
    x := Quoted(ps);
  }

  lemma NumericKnown(s: string) returns (x: Syntax)
    requires At(s, 0) == '-' || IsDigit(At(s, 0))
    ensures ParseValue(s).Done? && ValidSyntax(x, false) && Tree(x) == ParseValue(s).value
    ensures Spells(x, s, ParseValue(s).rest)
  {
    hide ParseValue, ParseNumber, NumeralText, NumeralValue, ValidNumeral;
    LeafValue(s);
    var n := NumberKnown(s);
    x := Numeric(n);
  }

  /** What the white space before an element or a member may be changed to. */
  lemma ElementsBefore(es: Elements, white: string)
    requires es.Element? && es.before == ""
    ensures ElementsText(es.(before := white)) == white + ElementsText(es)
  {
    hide SyntaxText;
    var t := SyntaxText(es.value) + (es.after + (if es.next.NoElement? then "" else "," + ElementsText(es.next)));
    assert "" + t == t;
  }

  lemma {:induction false} ListKnown(s: string) returns (x: Syntax)
    requires NulFree(s) && ParseValue(s).Done? && At(s, 0) == '['
    ensures ValidSyntax(x, false) && Tree(x) == ParseValue(s).value && Spells(x, s, ParseValue(s).rest)
    decreases |s|, 0
  {
    hide ParseValue, ParseItems, NulFree, Blank, Skip, Before;
    NestedValue(s);
    assert s == "[" + s[1..];
    SuffixNulFree("[", s[1..]);
    SkipIs(s[1..]);
    var white, t := Before(s[1..]), Skip(s[1..]);
    if At(t, 0) == ']' {
      x := List(white, NoElement);
      assert t == "]" + t[1..];
      EmptyListText(white, t[1..]);
    } else {
      var es := ItemsKnown(t);
      SkipIs(t);
      assert Skip(t) == t by { SkipTwice(s[1..]); }
      var es' := es.(before := white);
      x := List("", es');
      ListSpells(s, white, es, ParseItems(t).rest);
      NoBlank();
      ChangeBefore(es, white);
    }
  }

  lemma ChangeBefore(es: Elements, white: string)
    requires es.Element? && ValidElements(es, false) && Blank(white)
    ensures ValidElements(es.(before := white), false) && Nodes(es.(before := white)) == Nodes(es)
  {
    hide Blank, ValidSyntax, Tree;
  }

  lemma NoBlank()
    ensures Blank("")
  {
    assert forall c: char :: c !in "";
  }

  lemma {:induction false} SkipTwice(s: string)
    ensures Skip(Skip(s)) == Skip(s)
    decreases |s|
  {
    if s != "" && s[0] <= ' ' { SkipTwice(s[1..]); }
  }

  lemma EmptyListText(white: string, rest: string)
    ensures "[" + (white + ("]" + rest)) == SyntaxText(List(white, NoElement)) + rest
  {
    Assoc(white, "]", rest);
    Assoc("[", white + "]", rest);
  }

  lemma ListSpells(s: string, white: string, es: Elements, rest: string)
    requires es.Element? && es.before == "" && s == "[" + (white + (ElementsText(es) + ("]" + rest)))
    ensures Spells(List("", es.(before := white)), s, rest)
  {
    var t := ElementsText(es);
    ElementsBefore(es, white);
    ListTextIs(es.(before := white));
    hide ElementsText, SyntaxText;
    Assoc(white, t, "]" + rest);
    Assoc(white + t, "]", rest);
    Assoc("[", (white + t) + "]", rest);
  }

  lemma ListTextIs(es: Elements)
    requires es.Element?
    ensures SyntaxText(List("", es)) == "[" + (ElementsText(es) + "]")
  {
    hide ElementsText;
  }

  lemma {:induction false} ItemsKnown(s: string) returns (es: Elements)
    requires NulFree(s) && ParseItems(s).Done?
    ensures es.Element? && es.before == Before(s) && ValidElements(es, false) && Nodes(es) == ParseItems(s).value
    ensures s == ElementsText(es) + ("]" + ParseItems(s).rest)
    decreases |s|, 2
  {
    hide ParseValue, NulFree, Blank, Skip, Before, SyntaxText, Tree, ElementsText, ValidSyntax, Spells;
    SkipIs(s);
    var s1 := Skip(s);
    var x := ValueKnown(s1);
    var r1 := ParseValue(s1).rest;
    RestNulFree(x, s1, r1);
    SkipIs(r1);
    var after, t := Before(r1), Skip(r1);
    assert s1 == SyntaxText(x) + r1 by { ClosedSpells(x, s1, r1); }
    assert t == [t[0]] + t[1..];
    if At(t, 0) == ',' {
      SuffixNulFree(",", t[1..]);
      var next := ItemsKnown(t[1..]);
      es := Element(Before(s), x, after, next);
    } else {
      es := Element(Before(s), x, after, NoElement);
    }
    ElementParts(es, ParseItems(s).rest);
  }

  /** A string that is not closed is the last thing in the text. */
  lemma ClosedSpells(x: Syntax, s: string, rest: string)
    requires Spells(x, s, rest) && rest != ""
    ensures s == SyntaxText(x) + rest
  {
  }

  lemma FieldsBefore(fs: Fields, white: string)
    requires fs.Field? && fs.before == ""
    ensures FieldsText(fs.(before := white)) == white + FieldsText(fs)
  {
    hide SyntaxText, StringText;
    var t := StringText(fs.name) + (fs.colon.0 + (":" + (fs.colon.1 + (SyntaxText(fs.value)
        + (fs.after + (if fs.next.NoField? then "" else "," + FieldsText(fs.next)))))));
    assert "" + t == t;
  }

  lemma {:induction false} TableKnown(s: string) returns (x: Syntax)
    requires NulFree(s) && ParseValue(s).Done? && At(s, 0) == '{'
    ensures ValidSyntax(x, false) && Tree(x) == ParseValue(s).value && Spells(x, s, ParseValue(s).rest)
    decreases |s|, 0
  {
    hide ParseValue, ParseMembers, NulFree, Blank, Skip, Before;
    NestedValue(s);
    assert s == "{" + s[1..];
    SuffixNulFree("{", s[1..]);
    SkipIs(s[1..]);
    var white, t := Before(s[1..]), Skip(s[1..]);
    if At(t, 0) == '}' {
      x := Table(white, NoField);
      assert t == "}" + t[1..];
      EmptyTableText(white, t[1..]);
    } else {
      var fs := MembersKnown(t);
      SkipIs(t);
      assert Skip(t) == t by { SkipTwice(s[1..]); }
      x := Table("", fs.(before := white));
      TableSpells(s, white, fs, ParseMembers(t).rest);
      NoBlank();
      ChangeFieldsBefore(fs, white);
    }
  }

  lemma ChangeFieldsBefore(fs: Fields, white: string)
    requires fs.Field? && ValidFields(fs, false) && Blank(white)
    ensures ValidFields(fs.(before := white), false) && NamedNodes(fs.(before := white)) == NamedNodes(fs)
  {
    hide Blank, ValidSyntax, Tree, GoodPieces, Meaning;
  }

  lemma EmptyTableText(white: string, rest: string)
    ensures "{" + (white + ("}" + rest)) == SyntaxText(Table(white, NoField)) + rest
  {
    Assoc(white, "}", rest);
    Assoc("{", white + "}", rest);
  }

  lemma TableSpells(s: string, white: string, fs: Fields, rest: string)
    requires fs.Field? && fs.before == "" && s == "{" + (white + (FieldsText(fs) + ("}" + rest)))
    ensures Spells(Table("", fs.(before := white)), s, rest)
  {
    var t := FieldsText(fs);
    FieldsBefore(fs, white);
    TableTextIs(fs.(before := white));
    hide FieldsText, SyntaxText;
    Assoc(white, t, "}" + rest);
    Assoc(white + t, "}", rest);
    Assoc("{", (white + t) + "}", rest);
  }

  lemma TableTextIs(fs: Fields)
    requires fs.Field?
    ensures SyntaxText(Table("", fs)) == "{" + (FieldsText(fs) + "}")
  {
    hide FieldsText;
  }

  lemma NameKnown(s: string) returns (ps: seq<Piece>, colon: string)
    requires NulFree(s) && ParseName(s).Done?
    ensures ReadablePieces(ps) && Meaning(ps) == ParseName(s).value && Blank(colon) && NulFree(ParseName(s).rest)
    ensures s == Before(s) + (StringText(ps) + (colon + (":" + ParseName(s).rest)))
  {
    hide ParseString, NulFree, Blank, Skip, Before, StringText, Meaning, ReadablePieces;
    SkipIs(s);
    var s1 := Skip(s);
    var closed;
    ps, closed := StringKnown(s1);
    var r := ParseString(s1).rest;
    assert closed by { assert r != "" by { SkipEmpty(); } }
    SuffixNulFree(StringText(ps), r);
    SkipIs(r);
    colon := Before(r);
    var t := Skip(r);
    assert t == ":" + t[1..];
    SuffixNulFree(":", t[1..]);
  }

  lemma SkipEmpty()
    ensures Skip("") == ""
  {
  }

  lemma {:induction false} MembersKnown(s: string) returns (fs: Fields)
    requires NulFree(s) && ParseMembers(s).Done?
    ensures fs.Field? && fs.before == Before(s) && ValidFields(fs, false) && NamedNodes(fs) == ParseMembers(s).value
    ensures s == FieldsText(fs) + ("}" + ParseMembers(s).rest)
    decreases |s|, 2
  {
    hide ParseValue, ParseName, NulFree, Blank, Skip, Before, SyntaxText, Tree, FieldsText, ValidSyntax, Spells,
      StringText, Meaning, ReadablePieces, PiecesText;
    var ps, colon := NameKnown(s);
    SkipIs(s);
    var a := ParseName(s).rest;
    SkipIs(a);
    var s1 := Skip(a);
    var x := ValueKnown(s1);
    var r1 := ParseValue(s1).rest;
    RestNulFree(x, s1, r1);
    SkipIs(r1);
    var after, t := Before(r1), Skip(r1);
    assert s1 == SyntaxText(x) + r1 by { ClosedSpells(x, s1, r1); }
    assert t == [t[0]] + t[1..];
    if At(t, 0) == ',' {
      SuffixNulFree(",", t[1..]);
      var next := MembersKnown(t[1..]);
      fs := Field(Before(s), ps, (colon, Before(a)), x, after, next);
    } else {
      fs := Field(Before(s), ps, (colon, Before(a)), x, after, NoField);
    }
    FieldParts(fs, ParseMembers(s).rest);
  }

  /** A text that cJSON_Parse accepts is white space and a value, and the tree is what that value means. */
  lemma DocumentKnown(s: string, whole: bool) returns (before: string, x: Syntax, after: string)
    requires NulFree(s) && Parse(s, whole).Done?
    ensures Blank(before) && ValidSyntax(x, false) && Tree(x) == Parse(s, whole).value && (whole ==> Blank(after))
    ensures Spells(x, Skip(s), after) && s == before + Skip(s)
  {
    hide ParseValue, NulFree, Skip, Before, SyntaxText, Tree, ValidSyntax, Spells;
    SkipIs(s);
    before := Before(s);
    x := ValueKnown(Skip(s));
    after := ParseValue(Skip(s)).rest;
    RestNulFree(x, Skip(s), after);
    SkipIs(after);
    assert Before(after) + "" == Before(after);
  }
}
