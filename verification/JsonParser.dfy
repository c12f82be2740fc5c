/** The parser of cJSON.c as it runs: a pointer moves over the text, strings are unescaped into a buffer
    whose size was measured first, and elements are appended in a loop. */
module JsonParser {
  import opened JsonSpec
  import opened Wrappers

  lemma Suffix(text: string, pos: nat, k: nat)
    requires pos + k <= |text|
    ensures text[pos..][k..] == text[pos + k..]
  {
  }

  /** A call that returns a value also returns where the text after it starts. */
  ghost predicate Reads<T>(v: Option<T>, end: nat, text: string, r: Parsed<T>) {
    match r
    case Done(x, rest) => v == Some(x) && end <= |text| && text[end..] == rest
    case Failed => v == None
    case Undefined => false
  }

  /** skip. */
  method SkipAt(text: string, pos: nat) returns (p: nat)
    requires pos <= |text|
    ensures pos <= p <= |text| && text[p..] == Skip(text[pos..])
  {
    p := pos;
    while p < |text| && text[p] <= ' '
      invariant pos <= p <= |text| && Skip(text[pos..]) == Skip(text[p..])
    {
      Suffix(text, p, 1);
      p := p + 1;
    }
  }

  // ----- numbers ------------------------------------------------------------------------------

  /** The digit loops of parse_number. */
  method TakeDigitsAt(text: string, pos: nat, n0: nat) returns (n: nat, p: nat)
    requires pos <= |text|
    ensures pos <= p <= |text| && (n, text[p..]) == TakeDigits(n0, text[pos..])
  {
    n, p := n0, pos;
    while p < |text| && IsDigit(text[p])
      invariant pos <= p <= |text| && TakeDigits(n0, text[pos..]) == TakeDigits(n, text[p..])
    {
      Suffix(text, p, 1);
      n := 10 * n + (text[p] - '0') as nat;
      p := p + 1;
    }
  }

  method ParseExponentAt(text: string, pos: nat) returns (e: int, p: nat)
    requires pos <= |text|
    ensures pos <= p <= |text| && (e, text[p..]) == ParseExponent(text[pos..])
  {
    e, p := 0, pos;
    if At(text, p) == 'e' || At(text, p) == 'E' {
      var sign: int := 1;
      Suffix(text, p, 1);
      p := p + 1;
      if At(text, p) == '+' {
        Suffix(text, p, 1);
        p := p + 1;
      } else if At(text, p) == '-' {
        Suffix(text, p, 1);
        sign, p := -1, p + 1;
      }
      var n;
      n, p := TakeDigitsAt(text, p, 0);
      e := sign * n;
    }
  }

  /** parse_number. */
  method ParseNumberAt(text: string, pos: nat) returns (v: Json, p: nat)
    requires pos <= |text|
    ensures pos <= p <= |text| && (v, text[p..]) == ParseNumber(text[pos..])
  {
    hide TakeDigits, ParseExponent;
    var n: nat, sign: int, scale: int := 0, 1, 0;
    p := pos;
    if At(text, p) == '-' {
      Suffix(text, p, 1);
      sign, p := -1, p + 1;
    }
    if At(text, p) == '0' {
      Suffix(text, p, 1);
      p := p + 1;
    }
    if '1' <= At(text, p) <= '9' { n, p := TakeDigitsAt(text, p, 0); }
    if At(text, p) == '.' && IsDigit(At(text, p + 1)) {
      Suffix(text, p, 1);
      var from := p + 1;
      n, p := TakeDigitsAt(text, from, n);
      scale := from - p;
    }
    var e;
    e, p := ParseExponentAt(text, p);
    v := Number(sign * n, scale + e);
  }

  // ----- strings ------------------------------------------------------------------------------

  /** The first loop of parse_string. */
  method MeasureString(text: string, pos: nat) returns (len: nat)
    requires pos <= |text| && StringLength(text[pos..]).Some?
    ensures Some(len) == StringLength(text[pos..])
  {
    len := 0;
    var p := pos;
    while p < |text| && text[p] != '\"'
      invariant pos <= p <= |text| && StringLength(text[p..]).Some?
      invariant StringLength(text[pos..]).value == len + StringLength(text[p..]).value
    {
      len := len + 1;
      Suffix(text, p, 1);
      if text[p] == '\\' {
        Suffix(text, p, 2);
        p := p + 1;
      }
      p := p + 1;
    }
  }

  /** One of the last bytes of a code point: its six low bits; what is left of the code point. */
  method PutTail(out: array<char>, p: nat, uc: nat) returns (rest: nat)
    requires p < out.Length
    modifies out
    ensures rest == uc / 0x40 && out[..] == old(out[..])[p := (0x80 + uc % 0x40) as char]
  {
    out[p] := (0x80 + uc % 0x40) as char;
    rest := uc / 0x40;
  }

  /** The UTF-8 bytes of a code point, written from the last one down. */
  method WriteUtf8(out: array<char>, at: nat, code: nat) returns (len: nat)
    requires 0 < code < 0x11_0000 && at + |Utf8(code)| <= out.Length
    modifies out
    ensures len == |Utf8(code)| && out[..at + len] == old(out[..at]) + Utf8(code)
  {
    var mark, uc, p := [0x00, 0x00, 0xC0, 0xE0, 0xF0], code, at;
    len := if code < 0x80 then 1 else if code < 0x800 then 2 else if code < 0x1_0000 then 3 else 4;
    p := p + len;
    if len == 4 {
      p := p - 1;
      uc := PutTail(out, p, uc);
    }
    if len >= 3 {
      p := p - 1;
      uc := PutTail(out, p, uc);
    }
    if len >= 2 {
      p := p - 1;
      uc := PutTail(out, p, uc);
    }
    p := p - 1;
    out[p] := (mark[len] + uc) as char;
    BytesWritten(old(out[..]), out[..], at, code);
  }

  /** A prefix kept and the bytes of a code point after it. */
  lemma BytesWritten(before: string, after: string, at: nat, code: nat)
    requires 0 < code < 0x11_0000 && |after| == |before| && at + |Utf8(code)| <= |after|
    requires forall k :: 0 <= k < at ==> after[k] == before[k]
    requires forall k :: 0 <= k < |Utf8(code)| ==> after[at + k] == Utf8(code)[k]
    ensures after[..at + |Utf8(code)|] == before[..at] + Utf8(code)
  {
    hide Utf8;
  }

  /** A \u escape; `pos` is just after the "u". The pointer moves past it and its bytes are written. */
  method ReadUnicode(text: string, pos: nat, out: array<char>, at: nat) returns (p: nat, n: nat)
    requires pos <= |text| && ParseUnicode(text[pos..]).Some?
    requires at + |ParseUnicode(text[pos..]).value.0| <= out.Length
    modifies out
    ensures var r := ParseUnicode(text[pos..]).value;
      && pos < p <= |text| && text[p..] == r.1 && n == at + |r.0| && out[..n] == old(out[..at]) + r.0
  {
    hide Hex4, Utf8;
    Suffix(text, pos, 4);
    var uc := Hex4(text[pos..]);
    p, n := pos + 4, at;
    if LowHalf(uc) || uc == 0 { return; }
    if HighHalf(uc) {
      if At(text, p) != '\\' || At(text, p + 1) != 'u' { return; }
      Suffix(text, pos, 6);
      Suffix(text, pos, 10);
      var uc2 := Hex4(text[p + 2..]);
      p := p + 6;
      if !LowHalf(uc2) { return; }
      uc := 0x1_0000 + uc % 0x400 * 0x400 + uc2 % 0x400;
    }
    var len := WriteUtf8(out, at, uc);
    n := at + len;
  }

  lemma PrependBoth(a: string, b: string, r: Option<(string, string)>)
    ensures Prepend(a + b, r) == Prepend(a, Prepend(b, r)) && Prepend("", r) == r
  {
    if r.Some? { assert a + b + r.value.0 == a + (b + r.value.0) && "" + r.value.0 == r.value.0; }
  }

  /** What has been written and what the rest of the string still gives. */
  ghost predicate Written(out: array<char>, n: nat, text: string, p: nat, all: Option<(string, string)>)
    requires p <= |text|
    reads out
  {
    && n < out.Length && all.Some? && |all.value.0| < out.Length
    && all == Prepend(out[..n], ParseChars(text[p..]))
  }

  /** The second loop of parse_string: copy and unescape up to the closing quote. */
  method ReadChars(text: string, pos: nat, out: array<char>) returns (p: nat, n: nat)
    requires pos <= |text| && ParseChars(text[pos..]).Some?
    requires |ParseChars(text[pos..]).value.0| < out.Length
    modifies out
    ensures var r := ParseChars(text[pos..]).value;
      p <= |text| && text[p..] == r.1 && n == |r.0| && out[..n] == r.0
  {
    ghost var all := ParseChars(text[pos..]);
    p, n := pos, 0;
    PrependBoth("", "", all);
    while p < |text| && text[p] != '\"'
      invariant p <= |text| && Written(out, n, text, p, all)
      decreases |text| - p
    {
      p, n := ReadChar(text, p, out, n, all);
    }
    if p < |text| {
      Suffix(text, p, 1);
      p := p + 1;
    }
  }

  /** One turn of that loop. */
  method ReadChar(text: string, pos: nat, out: array<char>, at: nat, ghost all: Option<(string, string)>)
    returns (p: nat, n: nat)
    requires pos < |text| && text[pos] != '\"' && Written(out, at, text, pos, all)
    modifies out
    ensures pos < p <= |text| && Written(out, n, text, p, all)
  {
    Suffix(text, pos, 1);
    ghost var done := out[..at];
    if text[pos] != '\\' {
      out[at] := text[pos];
      PrependBoth(done, [text[pos]], ParseChars(text[pos + 1..]));
      assert out[..at + 1] == done + [text[pos]];
      return pos + 1, at + 1;
    }
    Suffix(text, pos, 2);
    if text[pos + 1] == 'u' {
      ghost var u := ParseUnicode(text[pos + 2..]).value;
      PrependBoth(done, u.0, ParseChars(u.1));
      p, n := ReadUnicode(text, pos + 2, out, at);
    } else {
      out[at] := Unescape(text[pos + 1]);
      PrependBoth(done, [Unescape(text[pos + 1])], ParseChars(text[pos + 2..]));
      assert out[..at + 1] == done + [Unescape(text[pos + 1])];
      p, n := pos + 2, at + 1;
    }
  }

  /** parse_string: measure, allocate, unescape. */
  method ParseStringAt(text: string, pos: nat) returns (v: Option<string>, end: nat)
    requires pos <= |text| && !ParseString(text[pos..]).Undefined?
    ensures Reads(v, end, text, ParseString(text[pos..]))
  {
    if At(text, pos) != '\"' { return None, pos; }
    Suffix(text, pos, 1);
    var len := MeasureString(text, pos + 1);
    var out := new char[len + 1];
    var n;
    end, n := ReadChars(text, pos + 1, out);
    out[n] := '\0';
    return Some(out[..n]), end;
  }

  // ----- values -------------------------------------------------------------------------------

  /** Siblings appended so far, before those still to come. */
  function Siblings(vs: seq<Json>, rest: Items): Items {
    if vs == [] then rest else Item(vs[0], Siblings(vs[1..], rest))
  }

  function Named(ms: seq<(string, Json)>, rest: Members): Members {
    if ms == [] then rest else Member(ms[0].0, ms[0].1, Named(ms[1..], rest))
  }

  ghost function ThenItems(vs: seq<Json>, r: Parsed<Items>): Parsed<Items> {
    match r
    case Done(items, rest) => Done(Siblings(vs, items), rest)
    case Failed => Failed
    case Undefined => Undefined
  }

  ghost function ThenMembers(ms: seq<(string, Json)>, r: Parsed<Members>): Parsed<Members> {
    match r
    case Done(members, rest) => Done(Named(ms, members), rest)
    case Failed => Failed
    case Undefined => Undefined
  }

  lemma {:induction false} SiblingsAppend(vs: seq<Json>, v: Json, rest: Items)
    ensures Siblings(vs + [v], rest) == Siblings(vs, Item(v, rest))
    decreases |vs|
  {
    if vs == [] {
      assert [v][1..] == [];
    } else {
      assert (vs + [v])[1..] == vs[1..] + [v];
      SiblingsAppend(vs[1..], v, rest);
    }
  }

  lemma {:induction false} NamedAppend(ms: seq<(string, Json)>, m: (string, Json), rest: Members)
    ensures Named(ms + [m], rest) == Named(ms, Member(m.0, m.1, rest))
    decreases |ms|
  {
    if ms == [] {
      assert [m][1..] == [];
    } else {
      assert (ms + [m])[1..] == ms[1..] + [m];
      NamedAppend(ms[1..], m, rest);
    }
  }

  /** What the text after an element and the white space behind it leads to. */
  ghost function AfterItem(t: string): Parsed<Items> {
    if At(t, 0) == ',' then ParseItems(t[1..])
    else if At(t, 0) == ']' then Done(NoItems, t[1..])
    else Failed
  }

  ghost function AfterMember(t: string): Parsed<Members> {
    if At(t, 0) == ',' then ParseMembers(t[1..])
    else if At(t, 0) == '}' then Done(NoMembers, t[1..])
    else Failed
  }

  /** One more element. */
  lemma ItemsStep(vs: seq<Json>, s: string)
    ensures ThenItems(vs, ParseItems(s)) ==
      match ParseValue(Skip(s)) {
        case Done(v, rest) => ThenItems(vs + [v], AfterItem(Skip(rest)))
        case Failed => Failed
        case Undefined => Undefined
      }
  {
    var p := ParseValue(Skip(s));
    if p.Done? {
      var r := AfterItem(Skip(p.rest));
      if r.Done? { SiblingsAppend(vs, p.value, r.value); }
    }
  }

  lemma MembersStep(ms: seq<(string, Json)>, s: string)
    ensures ThenMembers(ms, ParseMembers(s)) ==
      match ParseName(s) {
        case Done(name, after) =>
          (match ParseValue(Skip(after)) {
             case Done(v, rest) => ThenMembers(ms + [(name, v)], AfterMember(Skip(rest)))
             case Failed => Failed
             case Undefined => Undefined
           })
        case Failed => Failed
        case Undefined => Undefined
      }
  {
    hide ParseValue;
    var q := ParseName(s);
    if q.Done? {
      var p := ParseValue(Skip(q.rest));
      if p.Done? {
        var r := AfterMember(Skip(p.rest));
        if r.Done? { NamedAppend(ms, (q.value, p.value), r.value); }
      }
    }
  }

  method Matches(text: string, pos: nat, word: string) returns (b: bool)
    requires pos <= |text|
    ensures b == StartsWith(text[pos..], word)
  {
    b := pos + |word| <= |text| && text[pos..pos + |word|] == word;
    assert pos + |word| <= |text| ==> text[pos..][..|word|] == text[pos..pos + |word|];
  }

  /** parse_value. */
  method ParseValueAt(text: string, pos: nat) returns (v: Option<Json>, end: nat)
    requires pos <= |text| && !ParseValue(text[pos..]).Undefined?
    ensures Reads(v, end, text, ParseValue(text[pos..]))
    decreases |text| - pos, 1
  {
    var isNull := Matches(text, pos, "null");
    if isNull { Suffix(text, pos, 4); return Some(Null), pos + 4; }
    var isFalse := Matches(text, pos, "false");
    if isFalse { Suffix(text, pos, 5); return Some(False), pos + 5; }
    var isTrue := Matches(text, pos, "true");
    if isTrue { Suffix(text, pos, 4); return Some(True), pos + 4; }
    hide StartsWith, ParseNumber, ParseString, ParseArray, ParseObject;
    if At(text, pos) == '\"' {
      var s;
      s, end := ParseStringAt(text, pos);
      if s.None? { return None, end; }
      return Some(Text(s.value)), end;
    }
    if At(text, pos) == '-' || IsDigit(At(text, pos)) {
      var n;
      n, end := ParseNumberAt(text, pos);
      return Some(n), end;
    }
    if At(text, pos) == '[' {
      v, end := ParseArrayAt(text, pos);
      return;
    }
    if At(text, pos) == '{' {
      v, end := ParseObjectAt(text, pos);
      return;
    }
    return None, pos;
  }

  /** parse_array. */
  method ParseArrayAt(text: string, pos: nat) returns (v: Option<Json>, end: nat)
    requires pos < |text| && text[pos] == '[' && !ParseArray(text[pos..]).Undefined?
    ensures Reads(v, end, text, ParseArray(text[pos..]))
    decreases |text| - pos, 0
  {
    hide ParseValue, ParseItems, Skip;
    Suffix(text, pos, 1);
    var p := SkipAt(text, pos + 1);
    if At(text, p) == ']' {
      Suffix(text, p, 1);
      return Some(Array(NoItems)), p + 1;
    }
    ghost var all := ParseItems(text[p..]);
    assert ThenItems([], all) == all;
    var vs: seq<Json> := [];
    var more := true;
    while more
      invariant pos < p <= |text| && !all.Undefined?
      invariant all == ThenItems(vs, if more then ParseItems(text[p..]) else AfterItem(text[p..]))
      invariant !more ==> At(text, p) != ','
      decreases |text| - p, more
    {
      ItemsStep(vs, text[p..]);
      var q := SkipAt(text, p);
      var child;
      child, q := ParseValueAt(text, q);
      if child.None? { return None, q; }
      vs := vs + [child.value];
      p := SkipAt(text, q);
      more := At(text, p) == ',';
      if more {
        Suffix(text, p, 1);
        p := p + 1;
      }
    }
    if At(text, p) == ']' {
      Suffix(text, p, 1);
      return Some(Array(Siblings(vs, NoItems))), p + 1;
    }
    return None, p;
  }

  /** The name of a member and the colon after it. */
  method ParseNameAt(text: string, pos: nat) returns (name: Option<string>, end: nat)
    requires pos <= |text| && !ParseName(text[pos..]).Undefined?
    ensures Reads(name, end, text, ParseName(text[pos..]))
  {
    hide ParseString, Skip;
    var p := SkipAt(text, pos);
    name, p := ParseStringAt(text, p);
    if name.None? { return None, p; }
    p := SkipAt(text, p);
    if At(text, p) != ':' { return None, p; }
    Suffix(text, p, 1);
    return name, p + 1;
  }

  /** parse_object. */
  method ParseObjectAt(text: string, pos: nat) returns (v: Option<Json>, end: nat)
    requires pos < |text| && text[pos] == '{' && !ParseObject(text[pos..]).Undefined?
    ensures Reads(v, end, text, ParseObject(text[pos..]))
    decreases |text| - pos, 0
  {
    hide ParseValue, ParseMembers, ParseName, Skip;
    Suffix(text, pos, 1);
    var p := SkipAt(text, pos + 1);
    if At(text, p) == '}' {
      Suffix(text, p, 1);
      return Some(Object(NoMembers)), p + 1;
    }
    ghost var all := ParseMembers(text[p..]);
    assert ThenMembers([], all) == all;
    var ms: seq<(string, Json)> := [];
    var more := true;
    while more
      invariant pos < p <= |text| && !all.Undefined?
      invariant all == ThenMembers(ms, if more then ParseMembers(text[p..]) else AfterMember(text[p..]))
      invariant !more ==> At(text, p) != ','
      decreases |text| - p, more
    {
      MembersStep(ms, text[p..]);
      var name, q := ParseNameAt(text, p);
      if name.None? { return None, q; }
      q := SkipAt(text, q);
      var child;
      child, q := ParseValueAt(text, q);
      if child.None? { return None, q; }
      ms := ms + [(name.value, child.value)];
      p := SkipAt(text, q);
      more := At(text, p) == ',';
      if more {
        Suffix(text, p, 1);
        p := p + 1;
      }
    }
    if At(text, p) == '}' {
      Suffix(text, p, 1);
      return Some(Object(Named(ms, NoMembers))), p + 1;
    }
    return None, p;
  }

  /** cJSON_ParseWithOpts. */
  method ParseText(text: string, whole: bool) returns (v: Option<Json>, end: nat)
    requires !Parse(text, whole).Undefined?
    ensures Reads(v, end, text, Parse(text, whole))
  {
    hide ParseValue, Skip;
    assert text[0..] == text;
    var p := SkipAt(text, 0);
    v, end := ParseValueAt(text, p);
    if v.None? { return None, end; }
    if whole {
      end := SkipAt(text, end);
      if end < |text| { return None, end; }
    }
  }
}
