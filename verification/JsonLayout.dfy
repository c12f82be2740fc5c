/** Where the printer puts white space, and how it spells strings and numbers: its text is that of a piece of
    syntax without white space, or with line breaks and tabs by the nesting depth. */
module JsonLayout {
  import opened JsonGrammar
  import opened JsonRoundTrip
  import opened JsonSpec
  import opened Sequences

  // ----- strings ------------------------------------------------------------------------------

  /** The characters that are printed as a backslash and a letter. */
  const LETTERS: map<char, char> :=
    map['\"' := '\"', '\\' := '\\', 8 as char := 'b', 12 as char := 'f', '\n' := 'n', '\r' := 'r', '\t' := 't']

  /** Quotes, backslashes and the control characters that have a letter are printed with it, the other
      control characters as two small hexadecimal digits, and everything else, the solidus too, as it is. */
  function Spelled(c: char): Piece {
    if c in LETTERS then Short(LETTERS[c])
    else if c as int < 0x20 then Unit('0', '0', "01"[c as int / 16], "0123456789abcdef"[c as int % 16])
    else Plain(c)
  }

  function SpelledAll(s: string): seq<Piece> {
    if s == "" then [] else [Spelled(s[0])] + SpelledAll(s[1..])
  }

  lemma EscapeSpells(c: char)
    requires c != '\0'
    ensures ValidPiece(Spelled(c)) && Escape(c) == PieceText(Spelled(c))
    ensures Spelled(c).Short? ==> ShortOf(Spelled(c).letter) == c
    ensures Spelled(c).Plain? ==> Spelled(c).c == c
    ensures Spelled(c).Unit? ==> UnitValue(Spelled(c)) == c as int < 0x20
  {
    if c in LETTERS {
      LetterSpells(c);
    } else {
      NoLetter(c);
      if c as int < 0x20 { ControlSpells(c); }
    }
  }

  lemma LetterSpells(c: char)
    requires c in LETTERS
    ensures LETTERS[c] != 'u' && Escape(c) == ['\\', LETTERS[c]] && ShortOf(LETTERS[c]) == c
  {
  }

  lemma NoLetter(c: char)
    requires c !in LETTERS
    ensures Escape(c) ==
      if c as int < 32 then "\\u00" + [HexDigit(c as int / 16), HexDigit(c as int % 16)] else [c]
    ensures c != '\"' && c != '\\'
  {
    hide HexDigit;
    assert '\"' in LETTERS && '\\' in LETTERS;
  }

  lemma ControlSpells(c: char)
    requires c as int < 0x20
    ensures var p := Unit('0', '0', "01"[c as int / 16], "0123456789abcdef"[c as int % 16]);
      && ValidPiece(p) && UnitValue(p) == c as int
      && PieceText(p) == "\\u00" + [HexDigit(c as int / 16), HexDigit(c as int % 16)]
  {
    var a, b := c as int / 16, c as int % 16;
    SmallHex(a);
    SmallHex(b);
    SmallHex(0);
    hide IsHex, HexOf, HexDigit;
    assert "01"[a] == HexDigit(a) && "0123456789abcdef"[b] == HexDigit(b) && HexDigit(0) == '0';
  }

  lemma SmallHex(d: nat)
    requires d < 16
    ensures HexDigit(d) == "0123456789abcdef"[d] && (d < 2 ==> HexDigit(d) == "01"[d])
    ensures IsHex(HexDigit(d)) && HexOf(HexDigit(d)) == d
  {
    HexDigitValue(d);
    HexTable(HexDigit(d));
  }

  /** A printed string is spelled that way, and means the string. */
  lemma {:induction false} QuoteSpells(s: string)
    requires NulFree(s)
    ensures ValidPieces(SpelledAll(s)) && EscapeAll(s) == PiecesText(SpelledAll(s)) && Meaning(SpelledAll(s)) == s
    decreases |s|
  {
    if s != "" {
      hide Spelled, Escape, PieceText, ValidPiece, ShortOf, UnitValue, Utf8;
      QuoteSpells(s[1..]);
      EscapeSpells(s[0]);
      var p, ps := Spelled(s[0]), SpelledAll(s[1..]);
      ConsPieces(p, ps);
      assert ([p] + ps)[1..] == ps;
      SpelledMeans(p, ps, s[0]);
      assert [s[0]] + s[1..] == s;
    }
  }

  lemma SpelledMeans(p: Piece, ps: seq<Piece>, c: char)
    requires ValidPieces([p] + ps) && ValidPieces(ps) && c != '\0' && ValidPiece(p)
    requires p.Short? ==> ShortOf(p.letter) == c
    requires p.Plain? ==> p.c == c
    requires p.Unit? ==> UnitValue(p) == c as int < 0x20
    ensures Meaning([p] + ps) == [c] + Meaning(ps)
  {
    hide ValidPiece, ShortOf, UnitValue;
    assert ([p] + ps)[1..] == ps;
  }

  // ----- numbers ------------------------------------------------------------------------------

  /** An integer is printed without fraction and exponent; a valid numeral has no leading zeros. */
  function Spell(n: int): Numeral {
    Numeral(n < 0, Digits(if n < 0 then -n else n), "", NoExponent)
  }

  lemma {:induction false} DigitsValue(n: nat)
    ensures DigitString(Digits(n)) && NatOf(Digits(n)) == n
    decreases n
  {
    if n >= 10 {
      DigitsValue(n / 10);
      assert Digits(n)[..|Digits(n)| - 1] == Digits(n / 10);
    } else {
      assert Digits(n)[..0] == "";
    }
  }

  lemma DecimalSpells(n: int)
    ensures ValidNumeral(Spell(n), true) && NumeralText(Spell(n)) == Decimal(n) && NumeralValue(Spell(n)) == Number(n, 0)
  {
    hide NumeralText, NumeralValue, ValidNumeral, Decimal, Spell;
    SpellValid(n);
    SpellText(n);
    SpellValue(n);
  }

  lemma SpellValid(n: int)
    ensures ValidNumeral(Spell(n), true)
  {
    var m := if n < 0 then -n else n;
    DigitsShape(m);
    DigitsValue(m);
    assert |Digits(0)| == 1;
    hide Digits, DigitString;
    assert DigitString("") by { assert forall c: char :: c !in ""; }
  }

  lemma SpellText(n: int)
    ensures NumeralText(Spell(n)) == Decimal(n)
  {
    var d := Digits(if n < 0 then -n else n);
    hide Digits;
    assert d + ("" + "") == d;
    assert "" + d == d;
  }

  lemma SpellValue(n: int)
    requires ValidNumeral(Spell(n), true)
    ensures NumeralValue(Spell(n)) == Number(n, 0)
  {
    var m := if n < 0 then -n else n;
    var d := Digits(m);
    DigitsValue(m);
    hide Digits, NatOf, DigitString, ValidNumeral;
    assert d + "" == d;
    assert Spell(n).fraction == "" && Spell(n).exp.NoExponent?;
  }

  // ----- values -------------------------------------------------------------------------------

  /** A line break and the tabs that begin the next line. */
  function NewLine(tabs: int, fmt: bool): string {
    if fmt then "\n" + seq(if tabs < 0 then 0 else tabs, _ => '\t') else ""
  }

  /** A value at a nesting depth. Formatted, every member of an object begins a line of its own, behind one
      tab for each bracket and brace that is open there, and the closing brace a line behind one less; a
      colon is followed by a tab and a comma in an array by a blank. The closing brace of an empty object
      also begins a line, with yet one tab less. There is no other white space. */
  function Laid(v: Json, depth: nat, fmt: bool): Syntax
    decreases v, 0
  {
    match v
    case Number(n, _) => Numeric(Spell(n))
    case Text(s) => Quoted(SpelledAll(s))
    case Array(items) => List("", LaidItems(items, depth + 1, fmt, ""))
    case Object(ms) => Table(NewLine(depth - 1, fmt), LaidMembers(ms, depth + 1, fmt))
    case w => Word(w)
  }

  function LaidItems(items: Items, depth: nat, fmt: bool, before: string): Elements
    decreases items, 0
  {
    match items
    case NoItems => NoElement
    case Item(v, next) => Element(before, Laid(v, depth, fmt), "", LaidItems(next, depth, fmt, if fmt then " " else ""))
  }

  function LaidMembers(ms: Members, depth: nat, fmt: bool): Fields
    decreases ms, 0
  {
    match ms
    case NoMembers => NoField
    case Member(name, v, next) =>
      Field(NewLine(depth, fmt), SpelledAll(name), ("", if fmt then "\t" else ""), Laid(v, depth, fmt),
            if next.NoMembers? then NewLine(depth - 1, fmt) else "", LaidMembers(next, depth, fmt))
  }

  lemma {:induction false} TabsAre(n: int)
    ensures Tabs(n) == seq(if n < 0 then 0 else n, _ => '\t')
    decreases n
  {
    if n > 0 {
      TabsAre(n - 1);
      var f := (_: int) => '\t';
      assert seq(n, _ => '\t') == "\t" + seq(n - 1, _ => '\t');
    }
  }

  lemma NewLineIs(tabs: int, fmt: bool)
    ensures NewLine(tabs, fmt) == (if fmt then "\n" + Tabs(tabs) else "") && Blank(NewLine(tabs, fmt))
  {
    TabsAre(tabs);
  }

  /** `x` is valid syntax for `v` and its text is `t`. */
  ghost predicate Lays(x: Syntax, v: Json, t: string) {
    ValidSyntax(x, true) && Tree(x) == v && SyntaxText(x) == t
  }

  /** The text printed for a value is that of the syntax laid out, which is valid and means the value. */
  lemma {:induction false} PrintLaid(v: Json, depth: nat, fmt: bool)
    requires Printable(v)
    ensures Lays(Laid(v, depth, fmt), v, Print(v, depth, fmt))
    decreases v, 0
  {
    hide Lays, Laid, Print, PrintItems, ElementsText, LaidItems, ValidElements, Nodes, PrintMembers, FieldsText,
      LaidMembers, ValidFields, NamedNodes, MembersBlock;
    match v
    case Number(n, _) => NumberLaid(n, depth, fmt);
    case Text(s) => StringLaid(s, depth, fmt);
    case Array(items) =>
      assert Blank("") by { assert forall c: char :: c !in ""; }
      ItemsLaid(items, depth + 1, fmt, "");
      ListLaid(items, depth, fmt);
    case Object(ms) =>
      MembersLaid(ms, depth, fmt);
      if ms.Member? { TableLaid(ms, depth, fmt); } else { EmptyTableLaid(depth, fmt); }
    case _ => WordLaid(v, depth, fmt);
  }

  lemma WordLaid(v: Json, depth: nat, fmt: bool)
    requires v.Null? || v.False? || v.True?
    ensures Lays(Laid(v, depth, fmt), v, Print(v, depth, fmt))
  {
  }

  lemma NumberLaid(n: int, depth: nat, fmt: bool)
    ensures Lays(Laid(Number(n, 0), depth, fmt), Number(n, 0), Print(Number(n, 0), depth, fmt))
  {
    hide NumeralText, NumeralValue, ValidNumeral, Decimal, Spell;
    DecimalSpells(n);
  }

  lemma StringLaid(s: string, depth: nat, fmt: bool)
    requires NulFree(s)
    ensures Lays(Laid(Text(s), depth, fmt), Text(s), Print(Text(s), depth, fmt))
  {
    hide Quote, StringText, Meaning, SpelledAll, ValidPieces;
    TextLaid(s);
  }

  lemma TextLaid(s: string)
    requires NulFree(s)
    ensures ValidPieces(SpelledAll(s)) && Meaning(SpelledAll(s)) == s && StringText(SpelledAll(s)) == Quote(s)
  {
    hide SpelledAll, EscapeAll, Meaning, PiecesText;
    QuoteSpells(s);
    Assoc("\"", EscapeAll(s), "\"");
  }

  lemma ListLaid(items: Items, depth: nat, fmt: bool)
    requires var es := LaidItems(items, depth + 1, fmt, "");
      && ValidElements(es, true) && Nodes(es) == items && es.Element? == items.Item?
      && ElementsText(es) == "" + PrintItems(items, depth + 1, fmt)
    ensures Lays(Laid(Array(items), depth, fmt), Array(items), Print(Array(items), depth, fmt))
  {
    hide *;
    var t := PrintItems(items, depth + 1, fmt);
    var es := LaidItems(items, depth + 1, fmt, "");
    ListIs(items, depth, fmt);
    NoElements(es);
    assert "" + t == t;
    Assoc("[", t, "]");
    ListLays(es, items);
  }

  lemma ListIs(items: Items, depth: nat, fmt: bool)
    ensures Laid(Array(items), depth, fmt) == List("", LaidItems(items, depth + 1, fmt, ""))
    ensures Print(Array(items), depth, fmt) == "[" + PrintItems(items, depth + 1, fmt) + "]"
  {
    hide PrintItems, LaidItems;
  }

  lemma NoElements(es: Elements)
    ensures es.NoElement? ==> ElementsText(es) == ""
    ensures Blank("")
  {
    assert forall c: char :: c !in "";
  }

  lemma ListLays(es: Elements, items: Items)
    requires ValidElements(es, true) && Nodes(es) == items && (es.NoElement? ==> ElementsText(es) == "") && Blank("")
    ensures Lays(List("", es), Array(items), "[" + (ElementsText(es) + "]"))
  {
    hide Blank, ValidElements, Nodes, ElementsText;
  }

  lemma EmptyTableLaid(depth: nat, fmt: bool)
    ensures Lays(Laid(Object(NoMembers), depth, fmt), Object(NoMembers), Print(Object(NoMembers), depth, fmt))
  {
    NewLineIs(depth - 1, fmt);
    hide NewLine, Tabs, Blank;
    var w := NewLine(depth - 1, fmt);
    var x := Laid(Object(NoMembers), depth, fmt);
    assert x == Table(w, NoField);
    assert ValidSyntax(x, true) && Tree(x) == Object(NoMembers);
    assert SyntaxText(x) == "{" + (w + "}");
    assert Print(Object(NoMembers), depth, fmt) == "{" + w + "}";
    Assoc("{", w, "}");
  }

  function Break(fmt: bool): string {
    if fmt then "\n" else ""
  }

  lemma TableLaid(ms: Members, depth: nat, fmt: bool)
    requires ms.Member?
    requires var fs := LaidMembers(ms, depth + 1, fmt);
      ValidFields(fs, true) && NamedNodes(fs) == ms && fs.Field? && FieldsText(fs) == MembersBlock(ms, depth, fmt)
    ensures Lays(Laid(Object(ms), depth, fmt), Object(ms), Print(Object(ms), depth, fmt))
  {
    var w, fs := NewLine(depth - 1, fmt), LaidMembers(ms, depth + 1, fmt);
    assert Laid(Object(ms), depth, fmt) == Table(w, fs);
    hide *;
    NewLineIs(depth - 1, fmt);
    PrintOpens(ms, depth, fmt);
    Braces(Break(fmt), PrintMembers(ms, depth + 1, fmt), Indent(depth, fmt));
    BlockIs(ms, depth, fmt);
    TableLays(w, fs, ms);
  }

  lemma BlockIs(ms: Members, depth: nat, fmt: bool)
    ensures MembersBlock(ms, depth, fmt) == Break(fmt) + PrintMembers(ms, depth + 1, fmt) + Indent(depth, fmt)
  {
  }

  lemma TableLays(white: string, fs: Fields, ms: Members)
    requires Blank(white) && ValidFields(fs, true) && fs.Field? && NamedNodes(fs) == ms
    ensures Lays(Table(white, fs), Object(ms), "{" + (FieldsText(fs) + "}"))
  {
    hide Blank, ValidFields, NamedNodes, FieldsText;
  }

  lemma PrintOpens(ms: Members, depth: nat, fmt: bool)
    requires ms.Member?
    ensures Print(Object(ms), depth, fmt) ==
      "{" + Break(fmt) + PrintMembers(ms, depth + 1, fmt) + Indent(depth, fmt) + "}"
  {
    hide PrintMembers, Tabs;
    assert "{" + "\n" == "{\n" && "{" + "" == "{";
  }

  lemma Braces(a: string, t: string, b: string)
    ensures "{" + ((a + t + b) + "}") == "{" + a + t + b + "}"
  {
    assert ("{" + a) + t == "{" + (a + t);
  }

  /** The lines of the members, from the break after the opening brace to the tabs before the closing one. */
  function MembersBlock(ms: Members, depth: nat, fmt: bool): string {
    Break(fmt) + PrintMembers(ms, depth + 1, fmt) + Indent(depth, fmt)
  }

  lemma {:induction false} ItemsLaid(items: Items, depth: nat, fmt: bool, before: string)
    requires PrintableItems(items) && Blank(before)
    ensures var es := LaidItems(items, depth, fmt, before);
      && ValidElements(es, true) && Nodes(es) == items && es.Element? == items.Item?
      && ElementsText(es) == (if items.Item? then before else "") + PrintItems(items, depth, fmt)
    decreases items, 0
  {
    if items.Item? {
      hide Printable, ValidSyntax, Tree, SyntaxText, Print, Laid;
      var white := if fmt then " " else "";
      Blanks(fmt);
      hide Blank;
      PrintLaid(items.value, depth, fmt);
      ItemsLaid(items.next, depth, fmt, white);
      ItemText(items, depth, fmt, before);
    }
  }

  lemma ItemText(items: Items, depth: nat, fmt: bool, before: string)
    requires items.Item?
    requires SyntaxText(Laid(items.value, depth, fmt)) == Print(items.value, depth, fmt)
    requires var white := if fmt then " " else ""; var es := LaidItems(items.next, depth, fmt, white);
      && es.Element? == items.next.Item?
      && (items.next.Item? ==> ElementsText(es) == white + PrintItems(items.next, depth, fmt))
    ensures ElementsText(LaidItems(items, depth, fmt, before)) == before + PrintItems(items, depth, fmt)
  {
    var white := if fmt then " " else "";
    var t, m := Print(items.value, depth, fmt), PrintItems(items.next, depth, fmt);
    var more := if items.next.NoItems? then "" else "," + (white + m);
    assert ElementsText(LaidItems(items, depth, fmt, before)) == before + (t + ("" + more));
    assert PrintItems(items, depth, fmt) == t + ItemSeparator(items.next, fmt) + m;
    assert items.next.NoItems? ==> m == "";
    hide ElementsText, LaidItems, PrintItems, Print;
    assert "" + more == more;
    assert more == ItemSeparator(items.next, fmt) + m by {
      if items.next.Item? { Assoc(",", white, m); assert "," + white == ItemSeparator(items.next, fmt); }
    }
    Assoc(t, ItemSeparator(items.next, fmt), m);
  }

  lemma {:induction false} MembersLaid(ms: Members, depth: nat, fmt: bool)
    requires PrintableMembers(ms)
    ensures var fs := LaidMembers(ms, depth + 1, fmt);
      && ValidFields(fs, true) && NamedNodes(fs) == ms && fs.Field? == ms.Member?
      && (ms.Member? ==> FieldsText(fs) == MembersBlock(ms, depth, fmt))
    decreases ms, 0
  {
    if ms.Member? {
      hide Printable, ValidSyntax, Tree, SyntaxText, Print, Laid, ValidPieces, SpelledAll, Meaning, NewLine, StringText,
        Quote, MembersBlock, FieldsText, Blank;
      NewLineIs(depth + 1, fmt);
      NewLineIs(depth, fmt);
      Blanks(fmt);
      TextLaid(ms.name);
      PrintLaid(ms.value, depth + 1, fmt);
      MembersLaid(ms.next, depth, fmt);
      MemberText(ms, depth, fmt);
    }
  }

  lemma Blanks(fmt: bool)
    ensures Blank("") && Blank(if fmt then "\t" else "") && Blank(if fmt then " " else "")
  {
    assert forall c: char :: c !in "";
  }

  /** A blank after a colon. */
  function Gap(fmt: bool): string {
    if fmt then "\t" else ""
  }

  lemma MemberText(ms: Members, depth: nat, fmt: bool)
    requires ms.Member? && StringText(SpelledAll(ms.name)) == Quote(ms.name)
    requires SyntaxText(Laid(ms.value, depth + 1, fmt)) == Print(ms.value, depth + 1, fmt)
    requires var fs := LaidMembers(ms.next, depth + 1, fmt);
      fs.Field? == ms.next.Member? && (ms.next.Member? ==> FieldsText(fs) == MembersBlock(ms.next, depth, fmt))
    ensures FieldsText(LaidMembers(ms, depth + 1, fmt)) == MembersBlock(ms, depth, fmt)
  {
    NewLineParts(depth, fmt);
    NewLineParts(depth + 1, fmt);
    FieldOpens(ms, depth, fmt);
    MemberOpens(ms, depth, fmt);
    var line, last := Break(fmt), Indent(depth, fmt);
    var m := PrintMembers(ms.next, depth + 1, fmt);
    hide FieldsText, LaidMembers, PrintMembers, Print, Quote, NewLine, Break, Gap, Indent;
    if ms.next.NoMembers? {
      MemberJoins(line, Indent(depth + 1, fmt), Quote(ms.name), Gap(fmt), Print(ms.value, depth + 1, fmt), "", m, last);
      assert "" + line + m + last == line + last;
    } else {
      MemberJoins(line, Indent(depth + 1, fmt), Quote(ms.name), Gap(fmt), Print(ms.value, depth + 1, fmt), ",", m, last);
      Assoc(",", line + m, last);
      Assoc(",", line, m);
    }
  }

  lemma NewLineParts(depth: nat, fmt: bool)
    ensures NewLine(depth, fmt) == Break(fmt) + Indent(depth, fmt)
  {
    NewLineIs(depth, fmt);
  }

  /** A member's line as syntax. */
  lemma FieldOpens(ms: Members, depth: nat, fmt: bool)
    requires ms.Member? && StringText(SpelledAll(ms.name)) == Quote(ms.name)
    requires SyntaxText(Laid(ms.value, depth + 1, fmt)) == Print(ms.value, depth + 1, fmt)
    requires var fs := LaidMembers(ms.next, depth + 1, fmt);
      fs.Field? == ms.next.Member? && (ms.next.Member? ==> FieldsText(fs) == MembersBlock(ms.next, depth, fmt))
    ensures FieldsText(LaidMembers(ms, depth + 1, fmt)) ==
      NewLine(depth + 1, fmt) + (Quote(ms.name) + (":" + (Gap(fmt) + (Print(ms.value, depth + 1, fmt) +
        if ms.next.NoMembers? then NewLine(depth, fmt) else "," + MembersBlock(ms.next, depth, fmt)))))
  {
    hide NewLine, MembersBlock, Print, Quote, StringText, SyntaxText, SpelledAll, Laid;
    var w, b := NewLine(depth, fmt), "," + MembersBlock(ms.next, depth, fmt);
    assert w + "" == w && "" + b == b;
    var colon := ":" + (Gap(fmt) + (Print(ms.value, depth + 1, fmt) + if ms.next.NoMembers? then w else b));
    assert "" + colon == colon;
  }

  /** A member's line as printed. */
  lemma MemberOpens(ms: Members, depth: nat, fmt: bool)
    requires ms.Member?
    ensures PrintMembers(ms, depth + 1, fmt) ==
      (Indent(depth + 1, fmt) + Quote(ms.name) + (":" + Gap(fmt)) + Print(ms.value, depth + 1, fmt)
       + ((if ms.next.NoMembers? then "" else ",") + Break(fmt)))
      + PrintMembers(ms.next, depth + 1, fmt)
    ensures ms.next.NoMembers? ==> PrintMembers(ms.next, depth + 1, fmt) == ""
  {
    hide Indent, Quote, Print;
    assert Colon(fmt) == ":" + Gap(fmt);
  }

  lemma MemberJoins(line: string, tabs: string, q: string, white: string, p: string, comma: string, m: string, last: string)
    ensures (line + tabs) + (q + (":" + (white + (p + (comma + line + m + last)))))
         == line + ((tabs + q + (":" + white) + p + (comma + line)) + m) + last
  {
  }
}
