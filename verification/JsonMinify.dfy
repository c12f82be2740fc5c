/** cJSON_Minify: white space and comments are taken out of a text in place. */
module JsonMinify {
  import opened JsonSpec
  import opened Sequences
  import opened Wrappers

  predicate White(c: char) {
    c == ' ' || c == '\t' || c == '\r' || c == '\n'
  }

  /** The text after a line comment, from its end of line on. */
  function LineEnd(s: string): (r: string)
    ensures |r| <= |s| && (s != "" && s[0] != '\n' ==> |r| < |s|)
  {
    if s == "" || s[0] == '\n' then s else LineEnd(s[1..])
  }

  /** The text after a block comment; None when it is not closed. */
  function CommentEnd(s: string): (r: Option<string>)
    ensures r.Some? ==> |r.value| < |s|
  {
    if s == "" then None
    else if s[0] == '*' && At(s, 1) == '/' then Some(s[2..])
    else CommentEnd(s[1..])
  }

  /** A string literal as written, from after its opening quote to its closing one, and the text after
      it; None when it is not closed. */
  function RawString(s: string): (r: Option<(string, string)>)
    ensures r.Some? ==> |r.value.1| < |s| && s == r.value.0 + r.value.1
    decreases |s|
  {
    if s == "" then None
    else if s[0] == '\"' then Some((s[..1], s[1..]))
    else
      var k := if s[0] == '\\' then 2 else 1;
      if |s| < k then None
      else
        var p := RawString(s[k..]);
        if p.None? then None else Some((s[..k] + p.value.0, p.value.1))
  }

  function Then(a: string, r: Option<string>): Option<string> {
    if r.None? then None else Some(a + r.value)
  }

  /** The text without white space and comments outside strings; None when a string or a comment is not
      closed, and the code would run past the end. */
  function Minify(s: string): Option<string>
    decreases |s|
  {
    if s == "" then Some("")
    else if White(s[0]) then Minify(s[1..])
    else if s[0] == '/' && At(s, 1) == '/' then Minify(LineEnd(s))
    else if s[0] == '/' && At(s, 1) == '*' then
      var t := CommentEnd(s);
      if t.None? then None else Minify(t.value)
    else if s[0] == '\"' then
      var p := RawString(s[1..]);
      if p.None? then None else Then("\"" + p.value.0, Minify(p.value.1))
    else Then([s[0]], Minify(s[1..]))
  }

  // ----- minifying undoes formatting ----------------------------------------------------------

  lemma ThenBoth(a: string, b: string, r: Option<string>)
    ensures Then(a + b, r) == Then(a, Then(b, r)) && Then("", r) == r
  {
    if r.Some? { assert a + b + r.value == a + (b + r.value) && "" + r.value == r.value; }
  }

  /** A line comment goes with everything before its line break, which is white space itself. */
  lemma {:induction false} LineCommentDropped(c: string, s: string)
    requires '\n' !in c
    ensures Minify("//" + c + "\n" + s) == Minify(s) && Minify("//" + c) == Some("")
  {
    LineEnds("//" + c, s);
    assert "//" + c + "\n" + s == "//" + c + ("\n" + s);
    assert ("\n" + s)[1..] == s;
    assert At("//" + c, 1) == '/' && At("//" + c + ("\n" + s), 1) == '/';
  }

  lemma {:induction false} LineEnds(a: string, s: string)
    requires '\n' !in a
    ensures LineEnd(a + ("\n" + s)) == "\n" + s && LineEnd(a) == ""
    decreases |a|
  {
    if a == "" {
      assert a + ("\n" + s) == "\n" + s;
    } else {
      assert (a + ("\n" + s))[1..] == a[1..] + ("\n" + s);
      LineEnds(a[1..], s);
    }
  }

  /** Nowhere in the text does a star stand before a solidus. */
  predicate Open(c: string) {
    forall i :: 0 <= i < |c| - 1 ==> !(c[i] == '*' && c[i + 1] == '/')
  }

  /** A block comment goes up to the first star before a solidus, and that may be the star that opens it. */
  lemma BlockCommentDropped(a: string, s: string)
    requires a != "" && a[0] == '*' && a[|a| - 1] == '*' && Open(a)
    ensures Minify("/" + a + ("/" + s)) == Minify(s)
  {
    assert At("/" + a + ("/" + s), 1) == '*';
    assert Open("/" + a);
    CommentEnds("/" + a, s);
  }

  lemma {:induction false} CommentEnds(a: string, s: string)
    requires a != "" && a[|a| - 1] == '*' && Open(a)
    ensures CommentEnd(a + ("/" + s)) == Some(s)
    decreases |a|
  {
    var t := a + ("/" + s);
    if |a| == 1 {
      assert t[2..] == s;
    } else {
      assert t[1..] == a[1..] + ("/" + s);
      assert t[1] == a[1];
      CommentEnds(a[1..], s);
    }
  }

  predicate Plain(a: string) {
    forall c :: c in a ==> !White(c) && c != '/' && c != '\"'
  }

  lemma {:induction false} PlainCopied(a: string, s: string)
    requires Plain(a)
    ensures Minify(a + s) == Then(a, Minify(s))
    decreases |a|
  {
    if a == "" {
      assert a + s == s;
      ThenBoth("", "", Minify(s));
    } else {
      assert (a + s)[1..] == a[1..] + s && a[0] in a;
      assert forall c :: c in a[1..] ==> c in a;
      PlainCopied(a[1..], s);
      ThenBoth([a[0]], a[1..], Minify(s));
      assert [a[0]] + a[1..] == a;
    }
  }

  lemma {:induction false} WhiteDropped(a: string, s: string)
    requires forall c :: c in a ==> White(c)
    ensures Minify(a + s) == Minify(s)
    decreases |a|
  {
    if a == "" {
      assert a + s == s;
    } else {
      assert (a + s)[1..] == a[1..] + s && a[0] in a;
      assert forall c :: c in a[1..] ==> c in a;
      WhiteDropped(a[1..], s);
    }
  }

  lemma {:induction false} TabsWhite(n: int)
    ensures forall c :: c in Tabs(n) ==> White(c)
    decreases n
  {
    if n > 0 { TabsWhite(n - 1); }
  }

  /** Nothing inside a printed string ends it, or is touched. */
  lemma {:induction false} EscapedRaw(s: string, rest: string)
    ensures RawString(EscapeAll(s) + "\"" + rest) == Some((EscapeAll(s) + "\"", rest))
    decreases |s|
  {
    if s == "" {
      assert EscapeAll(s) + "\"" + rest == "\"" + rest && ("\"" + rest)[1..] == rest && ("\"" + rest)[..1] == "\"";
    } else {
      var e, more := Escape(s[0]), EscapeAll(s[1..]);
      EscapedRaw(s[1..], rest);
      assert EscapeAll(s) == e + more;
      EscapeRaw(s[0], more + "\"" + rest);
      hide RawString, EscapeAll, Escape;
      Assoc(e, more, "\"");
      Assoc(e, more + "\"", rest);
    }
  }

  lemma EscapeRaw(c: char, t: string)
    requires RawString(t).Some?
    ensures RawString(Escape(c) + t) == Some((Escape(c) + RawString(t).value.0, RawString(t).value.1))
  {
    var e := Escape(c);
    if |e| <= 2 {
      ShortRaw(e, t);
    } else {
      var d := "00" + [HexDigit(c as int / 16), HexDigit(c as int % 16)];
      hide HexDigit;
      assert e == "\\u" + d;
      LongRaw(d, t);
    }
  }

  lemma ShortRaw(e: string, t: string)
    requires RawString(t).Some? && (|e| == 1 || |e| == 2) && (|e| == 2 <==> e[0] == '\\') && e[0] != '\"'
    ensures RawString(e + t) == Some((e + RawString(t).value.0, RawString(t).value.1))
  {
    assert (e + t)[|e|..] == t && (e + t)[..|e|] == e;
  }

  lemma LongRaw(d: string, t: string)
    requires RawString(t).Some? && forall c :: c in d ==> c != '\"' && c != '\\'
    ensures RawString("\\u" + d + t) == Some(("\\u" + d + RawString(t).value.0, RawString(t).value.1))
  {
    hide RawString;
    var r := RawString(t).value.0;
    Assoc("\\u", d, t);
    Assoc("\\u", d, r);
    HexRaw(d, t);
    UnicodeRaw(d + t);
  }

  lemma UnicodeRaw(x: string)
    requires RawString(x).Some?
    ensures RawString("\\u" + x) == Some(("\\u" + RawString(x).value.0, RawString(x).value.1))
  {
    assert ("\\u" + x)[2..] == x && ("\\u" + x)[..2] == "\\u";
  }

  lemma {:induction false} HexRaw(d: string, t: string)
    requires RawString(t).Some? && forall c :: c in d ==> c != '\"' && c != '\\'
    ensures RawString(d + t) == Some((d + RawString(t).value.0, RawString(t).value.1))
    decreases |d|
  {
    var r := RawString(t).value.0;
    if d == "" {
      assert d + t == t && d + r == r;
    } else {
      assert (d + t)[1..] == d[1..] + t && (d + t)[..1] == d[..1] && d[0] in d;
      assert forall c :: c in d[1..] ==> c in d;
      HexRaw(d[1..], t);
      assert d[..1] + (d[1..] + r) == d + r;
    }
  }

  lemma QuoteCopied(s: string, rest: string)
    ensures Minify(Quote(s) + rest) == Then(Quote(s), Minify(rest))
  {
    EscapedRaw(s, rest);
    StringMinified(EscapeAll(s) + "\"" + rest);
    hide Minify, RawString, EscapeAll;
    assert "\"" + (EscapeAll(s) + "\"" + rest) == Quote(s) + rest;
    assert "\"" + (EscapeAll(s) + "\"") == Quote(s);
  }

  lemma StringMinified(t: string)
    requires RawString(t).Some?
    ensures Minify("\"" + t) == Then("\"" + RawString(t).value.0, Minify(RawString(t).value.1))
  {
    assert ("\"" + t)[1..] == t;
    hide RawString;
  }

  lemma {:induction false} DigitsPlain(n: nat)
    ensures Plain(Digits(n))
    decreases n
  {
    if n >= 10 { DigitsPlain(n / 10); }
  }

  lemma LeafCopied(v: Json, depth: nat, fmt: bool, rest: string)
    requires !v.Array? && !v.Object?
    ensures Minify(Print(v, depth, fmt) + rest) == Then(Print(v, 0, false), Minify(rest))
  {
    if v.Text? {
      QuoteCopied(v.chars, rest);
    } else {
      if v.Number? { DigitsPlain(if v.mantissa < 0 then -v.mantissa else v.mantissa); }
      PlainCopied(Print(v, depth, fmt), rest);
    }
  }

  /** Minifying the text of a tree, formatted at any depth or not, and whatever follows it gives the
      unformatted text and the minified rest. */
  lemma {:induction false} ValueMinified(v: Json, depth: nat, fmt: bool, rest: string)
    ensures Minify(Print(v, depth, fmt) + rest) == Then(Print(v, 0, false), Minify(rest))
    decreases v, 0
  {
    hide Minify, Then;
    match v
    case Array(items) => ArrayMinified(items, depth, fmt, rest);
    case Object(ms) => ObjectMinified(ms, depth, fmt, rest);
    case _ => LeafCopied(v, depth, fmt, rest);
  }

  /** Copied text, then text that is minified to something else. */
  lemma CopyThen(a: string, s: string, b: string, rest: string)
    requires Plain(a) && Minify(s) == Then(b, Minify(rest))
    ensures Minify(a + s) == Then(a + b, Minify(rest))
  {
    PlainCopied(a, s);
    ThenBoth(a, b, Minify(rest));
  }

  lemma {:induction false} ArrayMinified(items: Items, depth: nat, fmt: bool, rest: string)
    ensures Minify(Print(Array(items), depth, fmt) + rest) == Then(Print(Array(items), 0, false), Minify(rest))
    decreases items, 1
  {
    hide Minify, Then;
    var close := "]" + rest;
    ItemsMinified(items, depth + 1, fmt, close);
    ItemsDepth(items, 0, 1);
    PlainCopied("]", rest);
    ThenBoth(PrintItems(items, 0, false), "]", Minify(rest));
    assert Print(Array(items), depth, fmt) + rest == "[" + (PrintItems(items, depth + 1, fmt) + close);
    CopyThen("[", PrintItems(items, depth + 1, fmt) + close, PrintItems(items, 0, false) + "]", rest);
    assert "[" + (PrintItems(items, 0, false) + "]") == Print(Array(items), 0, false);
  }

  lemma {:induction false} ItemsMinified(items: Items, depth: nat, fmt: bool, rest: string)
    ensures Minify(PrintItems(items, depth, fmt) + rest) == Then(PrintItems(items, 0, false), Minify(rest))
    decreases items, 0
  {
    hide Minify, Then;
    match items
    case NoItems =>
      assert PrintItems(items, depth, fmt) + rest == rest;
      ThenBoth("", "", Minify(rest));
    case Item(v, next) =>
      var sep, plain := ItemSeparator(next, fmt), ItemSeparator(next, false);
      var tail, more := PrintItems(next, depth, fmt) + rest, PrintItems(next, 0, false);
      assert PrintItems(items, depth, fmt) + rest == Print(v, depth, fmt) + (sep + tail);
      assert PrintItems(items, 0, false) == Print(v, 0, false) + (plain + more);
      hide Print, PrintItems, ItemSeparator;
      ValueMinified(v, depth, fmt, sep + tail);
      ItemsMinified(next, depth, fmt, rest);
      SeparatorMinified(next, fmt, tail);
      ThenBoth(plain, more, Minify(rest));
      ThenBoth(Print(v, 0, false), plain + more, Minify(rest));
  }

  lemma SeparatorMinified(next: Items, fmt: bool, tail: string)
    ensures Minify(ItemSeparator(next, fmt) + tail) == Then(ItemSeparator(next, false), Minify(tail))
  {
    if next.NoItems? {
      assert "" + tail == tail;
      ThenBoth("", "", Minify(tail));
    } else {
      var white := if fmt then " " else "";
      assert ItemSeparator(next, fmt) + tail == "," + (white + tail);
      WhiteDropped(white, tail);
      PlainCopied(",", white + tail);
    }
  }

  /** Unformatted text does not depend on the depth. */
  lemma {:induction false} ValueDepth(v: Json, d: nat, e: nat)
    ensures Print(v, d, false) == Print(v, e, false)
    decreases v
  {
    match v
    case Array(items) => ItemsDepth(items, d + 1, e + 1);
    case Object(ms) => MembersDepth(ms, d + 1, e + 1);
    case _ =>
  }

  lemma {:induction false} ItemsDepth(items: Items, d: nat, e: nat)
    ensures PrintItems(items, d, false) == PrintItems(items, e, false)
    decreases items
  {
    if items.Item? {
      ValueDepth(items.value, d, e);
      ItemsDepth(items.next, d, e);
    }
  }

  lemma {:induction false} MembersDepth(ms: Members, d: nat, e: nat)
    ensures PrintMembers(ms, d, false) == PrintMembers(ms, e, false)
    decreases ms
  {
    if ms.Member? {
      ValueDepth(ms.value, d, e);
      MembersDepth(ms.next, d, e);
    }
  }

  /** White space before the closing brace goes. */
  lemma CloseMinified(white: string, rest: string)
    requires forall c :: c in white ==> White(c)
    ensures Minify(white + ("}" + rest)) == Then("}", Minify(rest))
  {
    WhiteDropped(white, "}" + rest);
    PlainCopied("}", rest);
  }

  lemma {:induction false} ObjectMinified(ms: Members, depth: nat, fmt: bool, rest: string)
    ensures Minify(Print(Object(ms), depth, fmt) + rest) == Then(Print(Object(ms), 0, false), Minify(rest))
    decreases ms, 1
  {
    hide Minify, Then;
    if ms.NoMembers? {
      EmptyMinified(depth, fmt, rest);
    } else {
      var close := Indent(depth, fmt) + ("}" + rest);
      MembersMinified(ms, depth + 1, fmt, close);
      MembersDepth(ms, 0, 1);
      BracesMinified(ms, depth, fmt, rest);
    }
  }

  lemma EmptyMinified(depth: nat, fmt: bool, rest: string)
    ensures Minify(Print(Object(NoMembers), depth, fmt) + rest) == Then(Print(Object(NoMembers), 0, false), Minify(rest))
  {
    hide Minify, Then, Tabs;
    var white := if fmt then "\n" + Tabs(depth - 1) else "";
    TabsWhite(depth - 1);
    CloseMinified(white, rest);
    assert Print(Object(NoMembers), depth, fmt) + rest == "{" + (white + ("}" + rest));
    CopyThen("{", white + ("}" + rest), "}", rest);
    assert "{" + "}" == Print(Object(NoMembers), 0, false);
  }

  /** The braces around members. */
  lemma BracesMinified(ms: Members, depth: nat, fmt: bool, rest: string)
    requires ms.Member? && PrintMembers(ms, 0, false) == PrintMembers(ms, 1, false)
    requires var close := Indent(depth, fmt) + ("}" + rest);
      Minify(PrintMembers(ms, depth + 1, fmt) + close) == Then(PrintMembers(ms, 0, false), Minify(close))
    ensures Minify(Print(Object(ms), depth, fmt) + rest) == Then(Print(Object(ms), 0, false), Minify(rest))
  {
    hide Minify, Then, Tabs, PrintMembers;
    var line, white := if fmt then "\n" else "", Indent(depth, fmt);
    var close := white + ("}" + rest);
    var t, u := PrintMembers(ms, depth + 1, fmt), PrintMembers(ms, 0, false);
    assert Print(Object(ms), depth, fmt) == "{" + line + t + white + "}";
    assert Print(Object(ms), 0, false) == "{" + (u + "}");
    TabsWhite(depth);
    hide Print;
    CloseMinified(white, rest);
    ThenBoth(u, "}", Minify(rest));
    WhiteDropped(line, t + close);
    Gathered(line, t, white, rest);
    CopyThen("{", line + (t + close), u + "}", rest);
  }

  lemma Gathered(line: string, t: string, white: string, rest: string)
    ensures "{" + line + t + white + "}" + rest == "{" + (line + (t + (white + ("}" + rest))))
  {
  }

  lemma {:induction false} MembersMinified(ms: Members, depth: nat, fmt: bool, rest: string)
    ensures Minify(PrintMembers(ms, depth, fmt) + rest) == Then(PrintMembers(ms, 0, false), Minify(rest))
    decreases ms, 0
  {
    hide Minify, Then, Print, PrintMember, Tabs;
    match ms
    case NoMembers =>
      assert PrintMembers(ms, depth, fmt) + rest == rest;
      ThenBoth("", "", Minify(rest));
    case Member(name, v, next) =>
      var tail := PrintMembers(next, depth, fmt) + rest;
      assert PrintMembers(ms, depth, fmt) + rest == PrintMember(name, v, next, depth, fmt) + tail;
      MembersMinified(next, depth, fmt, rest);
      MemberMinified(name, v, next, depth, fmt, tail);
      ThenBoth(PrintMember(name, v, next, 0, false), PrintMembers(next, 0, false), Minify(rest));
  }

  lemma {:induction false} MemberMinified(name: string, v: Json, next: Members, depth: nat, fmt: bool, tail: string)
    ensures Minify(PrintMember(name, v, next, depth, fmt) + tail) ==
            Then(PrintMember(name, v, next, 0, false), Minify(tail))
    decreases v, 1
  {
    hide Minify, Then, Print, Quote, Tabs;
    var comma := if next.NoMembers? then "" else ",";
    var line, tab := if fmt then "\n" else "", if fmt then "\t" else "";
    var m := Minify(tail);
    WhiteDropped(line, tail);
    PlainCopied(comma, line + tail);
    var s1 := comma + (line + tail);
    assert Minify(s1) == Then(comma, m);
    ValueMinified(v, depth, fmt, s1);
    ThenBoth(Print(v, 0, false), comma, m);
    var s2 := Print(v, depth, fmt) + s1;
    assert Minify(s2) == Then(Print(v, 0, false) + comma, m);
    WhiteDropped(tab, s2);
    CopyThen(":", tab + s2, Print(v, 0, false) + comma, tail);
    var s3 := ":" + (tab + s2);
    QuoteCopied(name, s3);
    ThenBoth(Quote(name), ":" + (Print(v, 0, false) + comma), m);
    TabsWhite(depth);
    WhiteDropped(Indent(depth, fmt), Quote(name) + s3);
    MemberText(name, v, next, depth, fmt, tail);
  }

  lemma MemberText(name: string, v: Json, next: Members, depth: nat, fmt: bool, tail: string)
    ensures var comma := if next.NoMembers? then "" else ",";
      var line, tab := if fmt then "\n" else "", if fmt then "\t" else "";
      && PrintMember(name, v, next, depth, fmt) + tail ==
         Indent(depth, fmt) + (Quote(name) + (":" + (tab + (Print(v, depth, fmt) + (comma + (line + tail))))))
      && PrintMember(name, v, next, 0, false) == Quote(name) + (":" + (Print(v, 0, false) + comma))
  {
    hide Print, Quote, Tabs;
  }

  /** Minifying the formatted text gives exactly the unformatted one, and leaves the unformatted one as
      it is. */
  lemma MinifyUnformats(v: Json, depth: nat, fmt: bool)
    ensures Minify(Print(v, depth, fmt)) == Some(Print(v, 0, false))
  {
    ValueMinified(v, depth, fmt, "");
    assert Print(v, depth, fmt) + "" == Print(v, depth, fmt) && Print(v, 0, false) + "" == Print(v, 0, false);
  }

  // ----- in place -----------------------------------------------------------------------------

  /** From the read pointer on the buffer still holds the text and its NUL. */
  ghost predicate Unread(json: array<char>, text: string, p: nat)
    reads json
  {
    && p <= |text| < json.Length && json[|text|] == '\0' && NulFree(text)
    && json[p..|text|] == text[p..]
  }

  lemma UnreadAt(json: array<char>, text: string, p: nat)
    requires Unread(json, text, p)
    ensures forall i :: p <= i < |text| ==> json[i] == text[i] && json[i] != '\0'
    ensures forall k :: p <= k <= |text| ==> Unread(json, text, k) && text[p..][k - p..] == text[k..]
  {
    forall i | p <= i < |text| ensures json[i] == text[i] && json[i] != '\0' {
      assert json[i] == json[p..|text|][i - p] && text[i] == text[p..][i - p];
      assert text[i] in text;
    }
  }

  /** The line comment loop. */
  method SkipLine(json: array<char>, ghost text: string, pos: nat) returns (p: nat)
    requires Unread(json, text, pos)
    ensures pos <= p <= |text| && text[p..] == LineEnd(text[pos..])
  {
    UnreadAt(json, text, pos);
    p := pos;
    while json[p] != '\0' && json[p] != '\n'
      invariant pos <= p <= |text| && LineEnd(text[pos..]) == LineEnd(text[p..])
      decreases |text| - p
    {
      assert text[p..][1..] == text[p + 1..];
      p := p + 1;
    }
  }

  /** The block comment loop. */
  method SkipComment(json: array<char>, ghost text: string, pos: nat) returns (p: nat)
    requires Unread(json, text, pos) && CommentEnd(text[pos..]).Some?
    ensures pos < p <= |text| && Some(text[p..]) == CommentEnd(text[pos..])
  {
    UnreadAt(json, text, pos);
    p := pos;
    while json[p] != '\0' && !(json[p] == '*' && json[p + 1] == '/')
      invariant pos <= p <= |text| && CommentEnd(text[pos..]) == CommentEnd(text[p..])
      decreases |text| - p
    {
      assert text[p..][1..] == text[p + 1..];
      p := p + 1;
    }
    assert text[p..][2..] == text[p + 2..];
    p := p + 2;
  }

  /** *into++ = *json++ on a character of the text. */
  method MoveChar(json: array<char>, ghost text: string, pos: nat, at: nat) returns (p: nat, into: nat)
    requires Unread(json, text, pos) && pos < |text| && at <= pos
    modifies json
    ensures p == pos + 1 && into == at + 1 && Unread(json, text, p)
    ensures json[..into] == old(json[..at]) + [text[pos]]
  {
    UnreadAt(json, text, pos);
    json[at], p, into := json[pos], pos + 1, at + 1;
    assert forall i :: p <= i < |text| ==> json[i] == text[i];
  }

  lemma RawStep(s: string)
    requires RawString(s).Some? && s[0] != '\"'
    ensures s[0] == '\\' ==> |s| > 1 && RawString(s[1..][1..]).Some?
    ensures s[0] == '\\' ==> RawString(s).value.0 == [s[0]] + ([s[1]] + RawString(s[1..][1..]).value.0)
    ensures s[0] == '\\' ==> RawString(s).value.1 == RawString(s[1..][1..]).value.1
    ensures s[0] != '\\' ==> RawString(s[1..]).Some? && RawString(s).value.0 == [s[0]] + RawString(s[1..]).value.0
    ensures s[0] != '\\' ==> RawString(s).value.1 == RawString(s[1..]).value.1
  {
    if s[0] == '\\' {
      assert s[1..][1..] == s[2..] && s[..2] == [s[0]] + [s[1]];
      Assoc([s[0]], [s[1]], RawString(s[2..]).value.0);
    }
  }

  /** What has been copied of a literal and what is still to come make up the whole. */
  ghost predicate Copying(done: string, text: string, p: nat, raw: Option<(string, string)>)
    requires p <= |text|
  {
    && raw.Some? && RawString(text[p..]).Some?
    && raw.value.0 == done + RawString(text[p..]).value.0 && raw.value.1 == RawString(text[p..]).value.1
  }

  lemma CopyingStep(done: string, text: string, p: nat, raw: Option<(string, string)>)
    requires p <= |text| && Copying(done, text, p, raw) && text[p..][0] != '\"'
    ensures p < |text| && (text[p] == '\\' ==> p + 1 < |text|)
    ensures text[p] == '\\' ==> Copying(done + [text[p]] + [text[p + 1]], text, p + 2, raw)
    ensures text[p] != '\\' ==> Copying(done + [text[p]], text, p + 1, raw)
  {
    var s := text[p..];
    RawStep(s);
    assert s[1..] == text[p + 1..];
    if text[p] == '\\' {
      assert s[1..][1..] == text[p + 2..];
      assert done + [s[0]] + [s[1]] + RawString(text[p + 2..]).value.0
          == done + ([s[0]] + ([s[1]] + RawString(text[p + 2..]).value.0));
    } else {
      assert done + [s[0]] + RawString(text[p + 1..]).value.0 == done + ([s[0]] + RawString(text[p + 1..]).value.0);
    }
  }

  /** The loop over a string literal, from after its opening quote on; the closing quote is copied too. */
  method CopyString(json: array<char>, ghost text: string, pos: nat, at: nat) returns (p: nat, into: nat)
    requires Unread(json, text, pos) && at <= pos && RawString(text[pos..]).Some?
    modifies json
    ensures var raw := RawString(text[pos..]).value;
      into <= p && Unread(json, text, p) && text[p..] == raw.1 && json[..into] == old(json[..at]) + raw.0
  {
    hide NulFree, RawString;
    ghost var raw := RawString(text[pos..]);
    ghost var before, done := json[..at], "";
    p, into := pos, at;
    assert "" + raw.value.0 == raw.value.0;
    while json[p] != '\0' && json[p] != '\"'
      invariant into <= p && Unread(json, text, p) && json[..into] == before + done && Copying(done, text, p, raw)
      decreases |text| - p
    {
      p, into, done := CopyStep(json, text, p, into, before, done, raw);
    }
    UnreadAt(json, text, p);
    CopyingEnds(done, text, p, raw);
    p, into := MoveChar(json, text, p, into);
  }

  /** One turn of the loop: an escape is copied with the character after the backslash. */
  method CopyStep(json: array<char>, ghost text: string, pos: nat, at: nat,
                  ghost before: string, ghost done0: string, ghost raw: Option<(string, string)>)
    returns (p: nat, into: nat, ghost done: string)
    requires Unread(json, text, pos) && at <= pos && json[pos] != '\"' && Copying(done0, text, pos, raw)
    requires json[..at] == before + done0
    modifies json
    ensures pos < p && into <= p && Unread(json, text, p) && json[..into] == before + done && Copying(done, text, p, raw)
  {
    UnreadAt(json, text, pos);
    assert pos < |text| && text[pos] == json[pos] by { CopyingInside(done0, text, pos, raw); }
    assert text[pos..][0] == text[pos];
    CopyingStep(done0, text, pos, raw);
    hide NulFree, RawString, Copying;
    p, into, done := pos, at, done0;
    if json[p] == '\\' {
      done := done + [text[p]];
      p, into := MoveChar(json, text, p, into);
    }
    done := done + [text[p]];
    p, into := MoveChar(json, text, p, into);
  }

  lemma CopyingInside(done: string, text: string, p: nat, raw: Option<(string, string)>)
    requires p <= |text| && Copying(done, text, p, raw)
    ensures p < |text|
  {
    assert text[p..] != "";
  }

  lemma CopyingEnds(done: string, text: string, p: nat, raw: Option<(string, string)>)
    requires p <= |text| && Copying(done, text, p, raw) && (p < |text| ==> text[p] == '\"')
    ensures p < |text| && raw.value.0 == done + [text[p]] && raw.value.1 == text[p + 1..]
  {
    var s := text[p..];
    assert s != "";
    assert s[0] == '\"' && s[..1] == [text[p]] && s[1..] == text[p + 1..];
  }

  /** What has been written, before what the unread text gives, is the whole result. */
  ghost predicate Minifying(done: string, text: string, p: nat, all: Option<string>)
    requires p <= |text|
  {
    all.Some? && all == Then(done, Minify(text[p..]))
  }

  /** cJSON_Minify. The write pointer never passes the read pointer, so no unread character is lost. */
  method MinifyInPlace(json: array<char>, ghost text: string) returns (ghost length: nat)
    requires Unread(json, text, 0) && Minify(text).Some?
    modifies json
    ensures length <= |text| && Some(json[..length]) == Minify(text) && json[length] == '\0'
  {
    ghost var all := Minify(text);
    var p: nat, into: nat := 0, 0;
    assert text[0..] == text;
    ThenBoth("", "", all);
    while json[p] != '\0'
      invariant into <= p && Unread(json, text, p) && Minifying(json[..into], text, p, all)
      decreases |text| - p
    {
      UnreadAt(json, text, p);
      p, into := MinifyStep(json, text, p, into, all);
    }
    UnreadAt(json, text, p);
    assert text[p..] == "" && json[..into] + "" == json[..into];
    json[into] := '\0';
    return into;
  }

  /** What the first character of the text decides. */
  lemma MinifyFirst(s: string)
    requires s != "" && Minify(s).Some?
    ensures White(s[0]) ==> Minify(s) == Minify(s[1..])
    ensures s[0] == '/' && At(s, 1) == '/' ==> Minify(s) == Minify(LineEnd(s))
    ensures s[0] == '/' && At(s, 1) == '*' ==> CommentEnd(s).Some? && Minify(s) == Minify(CommentEnd(s).value)
    ensures s[0] == '\"' ==> RawString(s[1..]).Some?
    ensures s[0] == '\"' ==>
      Minify(s) == Then("\"" + RawString(s[1..]).value.0, Minify(RawString(s[1..]).value.1))
    ensures !White(s[0]) && s[0] != '\"' && !(s[0] == '/' && (At(s, 1) == '/' || At(s, 1) == '*')) ==>
      Minify(s) == Then([s[0]], Minify(s[1..]))
  {
  }

  lemma MinifyingStep(done: string, add: string, text: string, pos: nat, p: nat, all: Option<string>)
    requires pos <= p <= |text| && Minifying(done, text, pos, all)
    requires Minify(text[pos..]) == Then(add, Minify(text[p..]))
    ensures Minifying(done + add, text, p, all)
  {
    ThenBoth(done, add, Minify(text[p..]));
    hide Minify;
  }

  /** One turn of the loop. */
  method MinifyStep(json: array<char>, ghost text: string, pos: nat, at: nat, ghost all: Option<string>)
    returns (p: nat, into: nat)
    requires Unread(json, text, pos) && pos < |text| && at <= pos && Minifying(json[..at], text, pos, all)
    modifies json
    ensures pos < p && into <= p && Unread(json, text, p) && Minifying(json[..into], text, p, all)
  {
    hide NulFree, Minify, Then, RawString, LineEnd, CommentEnd, Minifying;
    ghost var s, done := text[pos..], json[..at];
    assert s[1..] == text[pos + 1..] && Minify(s).Some? && s[0] == text[pos] by { MinifyingSome(done, text, pos, all); }
    assert Unread(json, text, pos + 1) && json[pos] == s[0] && (pos + 1 < |text| ==> json[pos + 1] == s[1])
           && (pos + 1 == |text| ==> json[pos + 1] == '\0') by {
      UnreadAt(json, text, pos);
    }
    MinifyFirst(s);
    ThenBoth("", "", Minify(s));
    assert done + "" == done;
    p, into := pos, at;
    if json[p] == ' ' || json[p] == '\t' || json[p] == '\r' || json[p] == '\n' {
      p := p + 1;
      ThenBoth("", "", Minify(text[p..]));
      MinifyingStep(done, "", text, pos, p, all);
    } else if json[p] == '/' && json[p + 1] == '/' {
      p := SkipLine(json, text, p);
      ThenBoth("", "", Minify(text[p..]));
      MinifyingStep(done, "", text, pos, p, all);
      assert Unread(json, text, p) by { UnreadAt(json, text, pos); }
    } else if json[p] == '/' && json[p + 1] == '*' {
      p := SkipComment(json, text, p);
      ThenBoth("", "", Minify(text[p..]));
      MinifyingStep(done, "", text, pos, p, all);
      assert Unread(json, text, p) by { UnreadAt(json, text, pos); }
    } else if json[p] == '\"' {
      ghost var raw := RawString(text[pos + 1..]).value.0;
      p, into := MoveChar(json, text, p, into);
      p, into := CopyString(json, text, p, into);
      assert json[..into] == done + ("\"" + raw);
      MinifyingStep(done, "\"" + raw, text, pos, p, all);
    } else {
      p, into := MoveChar(json, text, p, into);
      MinifyingStep(done, [text[pos]], text, pos, p, all);
    }
  }

  lemma MinifyingSome(done: string, text: string, p: nat, all: Option<string>)
    requires p <= |text| && Minifying(done, text, p, all)
    ensures Minify(text[p..]).Some?
  {
    hide Minify;
  }
}
