/** JSON trees, their text and the parser of cJSON.c. A `char` stands for a byte; a C string is the text
    before its terminating NUL, and reading just past the text finds that NUL. */
module JsonSpec {
  import opened Wrappers

  /** Number(n, e) is n * 10^e. The chain of siblings is the `next` chain of the nodes. */
  datatype Json =
    | Null
    | False
    | True
    | Number(mantissa: int, exponent: int)
    | Text(chars: string)
    | Array(child: Items)
    | Object(members: Members)

  datatype Items = NoItems | Item(value: Json, next: Items)

  datatype Members = NoMembers | Member(name: string, value: Json, next: Members)

  predicate NulFree(s: string) {
    '\0' !in s
  }

  /** What the printer is promised to handle: 32-bit integers and strings without NUL. */
  predicate Printable(v: Json) {
    match v
    case Number(n, e) => -0x8000_0000 <= n < 0x8000_0000 && e == 0
    case Text(s) => NulFree(s)
    case Array(items) => PrintableItems(items)
    case Object(ms) => PrintableMembers(ms)
    case _ => true
  }

  predicate PrintableItems(items: Items) {
    items.Item? ==> Printable(items.value) && PrintableItems(items.next)
  }

  predicate PrintableMembers(ms: Members) {
    ms.Member? ==> NulFree(ms.name) && Printable(ms.value) && PrintableMembers(ms.next)
  }

  // ----- printing -----------------------------------------------------------------------------

  function Digit(d: nat): char
    requires d < 10
  {
    '0' + d as char
  }

  /** Decimal digits without leading zeros. */
  function Digits(n: nat): string {
    if n < 10 then [Digit(n)] else Digits(n / 10) + [Digit(n % 10)]
  }

  function Decimal(n: int): string {
    if n < 0 then "-" + Digits(-n) else Digits(n)
  }

  /** A lower-case hexadecimal digit. */
  function HexDigit(d: nat): char
    requires d < 16
  {
    if d < 10 then '0' + d as char else 'a' + (d - 10) as char
  }

  /** How a character of a string is written (section 7 of RFC 8259). */
  function Escape(c: char): string {
    if c == '\\' then "\\\\"
    else if c == '\"' then "\\\""
    else if c as int == 8 then "\\b"
    else if c as int == 12 then "\\f"
    else if c == '\n' then "\\n"
    else if c == '\r' then "\\r"
    else if c == '\t' then "\\t"
    else if c as int < 32 then "\\u00" + [HexDigit(c as int / 16), HexDigit(c as int % 16)]
    else [c]
  }

  function EscapeAll(s: string): string {
    if s == "" then "" else Escape(s[0]) + EscapeAll(s[1..])
  }

  function Quote(s: string): string {
    "\"" + EscapeAll(s) + "\""
  }

  function Tabs(n: int): string {
    if n <= 0 then "" else "\t" + Tabs(n - 1)
  }

  /** The text of a value at a nesting depth, formatted or not. */
  function Print(v: Json, depth: nat, fmt: bool): string
    decreases v, 0
  {
    match v
    case Null => "null"
    case False => "false"
    case True => "true"
    case Number(n, _) => Decimal(n)
    case Text(s) => Quote(s)
    case Array(items) => "[" + PrintItems(items, depth + 1, fmt) + "]"
    case Object(ms) =>
      if ms.NoMembers? then "{" + (if fmt then "\n" + Tabs(depth - 1) else "") + "}"
      else (if fmt then "{\n" else "{") + PrintMembers(ms, depth + 1, fmt) + (if fmt then Tabs(depth) else "") + "}"
  }

  function ItemSeparator(next: Items, fmt: bool): string {
    if next.NoItems? then "" else if fmt then ", " else ","
  }

  function PrintItems(items: Items, depth: nat, fmt: bool): string
    decreases items, 0
  {
    match items
    case NoItems => ""
    case Item(v, next) => Print(v, depth, fmt) + ItemSeparator(next, fmt) + PrintItems(next, depth, fmt)
  }

  function Indent(depth: nat, fmt: bool): string {
    if fmt then Tabs(depth) else ""
  }

  function Colon(fmt: bool): string {
    if fmt then ":\t" else ":"
  }

  function MemberEnd(next: Members, fmt: bool): string {
    (if next.NoMembers? then "" else ",") + (if fmt then "\n" else "")
  }

  function PrintMember(name: string, v: Json, next: Members, depth: nat, fmt: bool): string
    decreases v, 1
  {
    Indent(depth, fmt) + Quote(name) + Colon(fmt) + Print(v, depth, fmt) + MemberEnd(next, fmt)
  }

  function PrintMembers(ms: Members, depth: nat, fmt: bool): string
    decreases ms, 0
  {
    match ms
    case NoMembers => ""
    case Member(name, v, next) => PrintMember(name, v, next, depth, fmt) + PrintMembers(next, depth, fmt)
  }

  // ----- parsing ------------------------------------------------------------------------------

  function At(s: string, i: nat): char {
    if i < |s| then s[i] else '\0'
  }

  function Skip(s: string): (r: string)
    ensures |r| <= |s|
    ensures r == "" || r[0] > ' '
  {
    if s != "" && s[0] <= ' ' then Skip(s[1..]) else s
  }

  predicate IsDigit(c: char) {
    '0' <= c <= '9'
  }

  /** The digits at the start of the text, appended to `n` in decimal. */
  function TakeDigits(n: nat, s: string): (r: (nat, string))
    ensures |r.1| <= |s|
    decreases |s|
  {
    if IsDigit(At(s, 0)) then TakeDigits(10 * n + (s[0] - '0') as nat, s[1..]) else (n, s)
  }

  /** The exponent part, when there is one. */
  function ParseExponent(s: string): (r: (int, string))
    ensures |r.1| <= |s|
  {
    if At(s, 0) == 'e' || At(s, 0) == 'E' then
      var t := s[1..];
      if At(t, 0) == '+' then (var d := TakeDigits(0, t[1..]); (d.0, d.1))
      else if At(t, 0) == '-' then (var d := TakeDigits(0, t[1..]); (0 - d.0 as int, d.1))
      else (var d := TakeDigits(0, t); (d.0, d.1))
    else (0, s)
  }

  /** parse_number, with exact decimal arithmetic. */
  function ParseNumber(s: string): (r: (Json, string))
    ensures r.0.Number? && |r.1| <= |s|
    ensures At(s, 0) == '-' || IsDigit(At(s, 0)) ==> |r.1| < |s|
  {
    var sign: int := if At(s, 0) == '-' then -1 else 1;
    var t := if At(s, 0) == '-' then s[1..] else s;
    var t0 := if At(t, 0) == '0' then t[1..] else t;
    var whole := if '1' <= At(t0, 0) <= '9' then TakeDigits(0, t0) else (0, t0);
    var point := At(whole.1, 0) == '.' && IsDigit(At(whole.1, 1));
    var all := if point then TakeDigits(whole.0, whole.1[1..]) else whole;
    var scale := if point then |all.1| - (|whole.1| - 1) else 0;
    var e := ParseExponent(all.1);
    (Number(sign * all.0, scale + e.0), e.1)
  }

  function HexValue(c: char): (v: int)
    ensures -1 <= v < 16
  {
    if '0' <= c <= '9' then (c - '0') as int
    else if 'A' <= c <= 'F' then 10 + (c - 'A') as int
    else if 'a' <= c <= 'f' then 10 + (c - 'a') as int
    else -1
  }

  /** parse_hex4: four hexadecimal digits, or 0. */
  function Hex4(s: string): (r: nat)
    ensures r < 0x1_0000
  {
    var a, b, c, d := HexValue(At(s, 0)), HexValue(At(s, 1)), HexValue(At(s, 2)), HexValue(At(s, 3));
    if a < 0 || b < 0 || c < 0 || d < 0 then 0 else a * 0x1000 + b * 0x100 + c * 0x10 + d
  }

  /** A code point in UTF-8. */
  function Utf8(u: nat): (r: string)
    requires 0 < u < 0x11_0000
    ensures 1 <= |r| <= 4
    ensures u < 0x1_0000 ==> |r| <= 3
  {
    if u < 0x80 then [u as char]
    else if u < 0x800 then [(0xC0 + u / 0x40) as char, (0x80 + u % 0x40) as char]
    else if u < 0x1_0000 then
      [(0xE0 + u / 0x40 / 0x40) as char, (0x80 + u / 0x40 % 0x40) as char, (0x80 + u % 0x40) as char]
    else
      [(0xF0 + u / 0x40 / 0x40 / 0x40) as char, (0x80 + u / 0x40 / 0x40 % 0x40) as char,
       (0x80 + u / 0x40 % 0x40) as char, (0x80 + u % 0x40) as char]
  }

  predicate HighHalf(u: nat) {
    0xD800 <= u <= 0xDBFF
  }

  predicate LowHalf(u: nat) {
    0xDC00 <= u <= 0xDFFF
  }

  /** The bytes a \u escape stands for and the text after it; `s` starts after the "\u". A half of a
      surrogate pair without its partner, and zero, stand for nothing. None: the text ends inside. */
  function ParseUnicode(s: string): (r: Option<(string, string)>)
    ensures r.Some? ==> |r.value.1| < |s|
  {
    if |s| < 4 then None
    else
      var u := Hex4(s);
      if LowHalf(u) || u == 0 then Some(("", s[4..]))
      else if HighHalf(u) then
        if At(s, 4) != '\\' || At(s, 5) != 'u' then Some(("", s[4..]))
        else if |s| < 10 then None
        else
          var w := Hex4(s[6..]);
          if LowHalf(w) then Some((Utf8(0x1_0000 + u % 0x400 * 0x400 + w % 0x400), s[10..])) else Some(("", s[10..]))
      else Some((Utf8(u), s[4..]))
  }

  function Unescape(c: char): char {
    match c
    case 'b' => 8 as char
    case 'f' => 12 as char
    case 'n' => '\n'
    case 'r' => '\r'
    case 't' => '\t'
    case _ => c
  }

  function Prepend(a: string, r: Option<(string, string)>): Option<(string, string)> {
    match r
    case None => None
    case Some(p) => Some((a + p.0, p.1))
  }

  /** The characters of a string up to the closing quote, unescaped, and the text after the quote. None:
      the code would read past the terminating NUL. */
  function ParseChars(s: string): (r: Option<(string, string)>)
    ensures r.Some? ==> |r.value.1| <= |s|
    decreases |s|
  {
    if s == "" then Some(("", ""))
    else if s[0] == '\"' then Some(("", s[1..]))
    else if s[0] != '\\' then Prepend([s[0]], ParseChars(s[1..]))
    else if |s| == 1 then None
    else if s[1] == 'u' then
      var u := ParseUnicode(s[2..]);
      if u.None? then None else Prepend(u.value.0, ParseChars(u.value.1))
    else Prepend([Unescape(s[1])], ParseChars(s[2..]))
  }

  /** What a parser function comes to: a value and the text after it, a reported failure, or, on
      malformed strings, an access outside the text or the new buffer. */
  datatype Parsed<+T> = Done(value: T, rest: string) | Failed | Undefined

  /** The length parse_string allocates for: characters up to the closing quote, an escape counting once.
      None: the scan steps over the terminating NUL. */
  function StringLength(s: string): Option<nat> {
    if s == "" || s[0] == '\"' then Some(0)
    else if s[0] != '\\' then Longer(StringLength(s[1..]))
    else if |s| == 1 then None
    else Longer(StringLength(s[2..]))
  }

  function Longer(n: Option<nat>): Option<nat> {
    if n.None? then None else Some(n.value + 1)
  }

  /** parse_string. */
  function ParseString(s: string): (r: Parsed<string>)
    ensures r.Done? ==> |r.rest| < |s|
  {
    if At(s, 0) != '\"' then Failed
    else
      var n := StringLength(s[1..]);
      var p := ParseChars(s[1..]);
      if n.None? || p.None? || |p.value.0| > n.value then Undefined else Done(p.value.0, p.value.1)
  }

  function StartsWith(s: string, t: string): bool {
    |s| >= |t| && s[..|t|] == t
  }

  /** parse_value. */
  function ParseValue(s: string): (r: Parsed<Json>)
    ensures r.Done? ==> |r.rest| < |s|
    decreases |s|, 1
  {
    if StartsWith(s, "null") then Done(Null, s[4..])
    else if StartsWith(s, "false") then Done(False, s[5..])
    else if StartsWith(s, "true") then Done(True, s[4..])
    else if At(s, 0) == '\"' then
      match ParseString(s)
      case Done(t, rest) => Done(Text(t), rest)
      case Failed => Failed
      case Undefined => Undefined
    else if At(s, 0) == '-' || IsDigit(At(s, 0)) then
      var p := ParseNumber(s);
      Done(p.0, p.1)
    else if At(s, 0) == '[' then ParseArray(s)
    else if At(s, 0) == '{' then ParseObject(s)
    else Failed
  }

  /** parse_array. */
  function ParseArray(s: string): (r: Parsed<Json>)
    requires At(s, 0) == '['
    ensures r.Done? ==> |r.rest| < |s|
    decreases |s|, 0
  {
    var t := Skip(s[1..]);
    if At(t, 0) == ']' then Done(Array(NoItems), t[1..])
    else
      match ParseItems(t)
      case Done(items, rest) => Done(Array(items), rest)
      case Failed => Failed
      case Undefined => Undefined
  }

  /** The rest of an array from an element on. */
  function ParseItems(s: string): (r: Parsed<Items>)
    ensures r.Done? ==> |r.rest| < |s|
    decreases |s|, 2
  {
    match ParseValue(Skip(s))
    case Failed => Failed
    case Undefined => Undefined
    case Done(v, rest) =>
      var t := Skip(rest);
      if At(t, 0) == ',' then
        match ParseItems(t[1..])
        case Done(next, end) => Done(Item(v, next), end)
        case Failed => Failed
        case Undefined => Undefined
      else if At(t, 0) == ']' then Done(Item(v, NoItems), t[1..])
      else Failed
  }

  /** A member's name and the text after the colon. */
  function ParseName(s: string): (r: Parsed<string>)
    ensures r.Done? ==> |r.rest| < |s|
  {
    match ParseString(Skip(s))
    case Failed => Failed
    case Undefined => Undefined
    case Done(name, rest) =>
      var t := Skip(rest);
      if At(t, 0) == ':' then Done(name, t[1..]) else Failed
  }

  /** parse_object. */
  function ParseObject(s: string): (r: Parsed<Json>)
    requires At(s, 0) == '{'
    ensures r.Done? ==> |r.rest| < |s|
    decreases |s|, 0
  {
    var t := Skip(s[1..]);
    if At(t, 0) == '}' then Done(Object(NoMembers), t[1..])
    else
      match ParseMembers(t)
      case Done(ms, rest) => Done(Object(ms), rest)
      case Failed => Failed
      case Undefined => Undefined
  }

  /** The rest of an object from a member on. */
  function ParseMembers(s: string): (r: Parsed<Members>)
    ensures r.Done? ==> |r.rest| < |s|
    decreases |s|, 2
  {
    match ParseName(s)
    case Failed => Failed
    case Undefined => Undefined
    case Done(name, after) =>
      match ParseValue(Skip(after))
      case Failed => Failed
      case Undefined => Undefined
      case Done(v, rest) =>
        var t := Skip(rest);
        if At(t, 0) == ',' then
          match ParseMembers(t[1..])
          case Done(next, end) => Done(Member(name, v, next), end)
          case Failed => Failed
          case Undefined => Undefined
        else if At(t, 0) == '}' then Done(Member(name, v, NoMembers), t[1..])
        else Failed
  }

  /** cJSON_ParseWithOpts: leading white space is skipped, and the whole text must be the value when the
      caller wants that. */
  function Parse(s: string, whole: bool): Parsed<Json> {
    match ParseValue(Skip(s))
    case Failed => Failed
    case Undefined => Undefined
    case Done(v, rest) =>
      if !whole then Done(v, rest) else if Skip(rest) == "" then Done(v, "") else Failed
  }
}
