/** The two printers of cJSON.c as they run: one allocates a result for every node, the other writes into
    one growing buffer. Array bounds show that every size computed beforehand covers what is written. */
module JsonPrinter {
  import opened JsonSpec
  import opened Sequences

  // ----- text in buffers ----------------------------------------------------------------------

  /** A buffer holds a C string. */
  ghost predicate IsText(a: array<char>, t: string)
    reads a
  {
    |t| < a.Length && a[..|t|] == t && a[|t|] == '\0'
  }

  lemma {:induction false} EscapeAllNulFree(s: string)
    requires NulFree(s)
    ensures NulFree(EscapeAll(s))
    decreases |s|
  {
    if s != "" {
      assert s[0] in s && forall c :: c in s[1..] ==> c in s;
      EscapeAllNulFree(s[1..]);
    }
  }

  lemma {:induction false} TabsNulFree(n: int)
    ensures NulFree(Tabs(n)) && |Tabs(n)| == if n <= 0 then 0 else n
    decreases n
  {
    if n > 0 { TabsNulFree(n - 1); }
  }

  lemma {:induction false} DigitsNulFree(n: nat)
    ensures NulFree(Digits(n))
    decreases n
  {
    if n >= 10 { DigitsNulFree(n / 10); }
  }

  /** The result buffers of numbers have 21 bytes. */
  lemma DecimalShort(n: int)
    requires -0x8000_0000 <= n < 0x8000_0000
    ensures |Decimal(n)| <= 11 && NulFree(Decimal(n))
  {
    var m: nat := if n < 0 then -n else n;
    DigitsNulFree(m);
    assert Power(2) == 100 && Power(4) == 10_000 && Power(6) == 1_000_000 && Power(8) == 100_000_000 by {
      assert Power(1) == 10 && Power(3) == 1000 && Power(5) == 100_000 && Power(7) == 10_000_000;
    }
    assert Power(9) == 1_000_000_000 && Power(10) == 10_000_000_000;
    DigitsShort(m, 10);
  }

  lemma {:induction false} DigitsShort(n: nat, k: nat)
    requires n < Power(k) && k > 0
    ensures |Digits(n)| <= k
    decreases n
  {
    if n >= 10 { DigitsShort(n / 10, k - 1); }
  }

  function Power(k: nat): nat {
    if k == 0 then 1 else 10 * Power(k - 1)
  }

  lemma QuoteNulFree(s: string)
    requires NulFree(s)
    ensures NulFree(Quote(s))
  {
    EscapeAllNulFree(s);
  }

  /** Printed text has no NUL, so strlen finds its end. */
  lemma {:induction false} PrintNulFree(v: Json, depth: nat, fmt: bool)
    requires Printable(v)
    ensures NulFree(Print(v, depth, fmt))
    decreases v
  {
    hide Quote, Decimal;
    match v
    case Number(n, _) => DecimalShort(n);
    case Text(s) => QuoteNulFree(s);
    case Array(items) => ItemsNulFree(items, depth + 1, fmt);
    case Object(ms) =>
      TabsNulFree(depth - 1);
      TabsNulFree(depth);
      MembersNulFree(ms, depth + 1, fmt);
    case _ =>
  }

  lemma {:induction false} ItemsNulFree(items: Items, depth: nat, fmt: bool)
    requires PrintableItems(items)
    ensures NulFree(PrintItems(items, depth, fmt))
    decreases items
  {
    if items.Item? {
      PrintNulFree(items.value, depth, fmt);
      ItemsNulFree(items.next, depth, fmt);
    }
  }

  lemma {:induction false} MembersNulFree(ms: Members, depth: nat, fmt: bool)
    requires PrintableMembers(ms)
    ensures NulFree(PrintMembers(ms, depth, fmt))
    decreases ms
  {
    if ms.Member? {
      hide Quote;
      QuoteNulFree(ms.name);
      TabsNulFree(depth);
      PrintNulFree(ms.value, depth, fmt);
      MembersNulFree(ms.next, depth, fmt);
    }
  }

  /** strlen from `from` on. */
  method StrLen(a: array<char>, from: nat, ghost end: nat) returns (n: nat)
    requires from <= end < a.Length && a[end] == '\0' && forall i :: from <= i < end ==> a[i] != '\0'
    ensures from + n == end
  {
    n := 0;
    while a[from + n] != '\0'
      invariant from + n <= end
      decreases end - n
    {
      n := n + 1;
    }
  }

  method StrLenOf(a: array<char>, ghost t: string) returns (n: nat)
    requires IsText(a, t) && NulFree(t)
    ensures n == |t|
  {
    forall i | 0 <= i < |t| ensures a[i] != '\0' { assert a[i] == t[i] && t[i] in t; }
    n := StrLen(a, 0, |t|);
  }

  /** Characters copied to a place with room for them. */
  method Put(out: array<char>, at: nat, t: string) returns (p: nat)
    requires at + |t| <= out.Length
    modifies out
    ensures p == at + |t| && out[..p] == old(out[..at]) + t
    ensures forall i :: p <= i < out.Length ==> out[i] == old(out[i])
  {
    for k := 0 to |t|
      invariant out[..at + k] == old(out[..at]) + t[..k]
      invariant forall i :: at + k <= i < out.Length ==> out[i] == old(out[i])
    {
      out[at + k] := t[k];
      assert t[..k + 1] == t[..k] + [t[k]];
      assert out[..at + k + 1] == out[..at + k] + [t[k]];
    }
    assert t[..|t|] == t;
    p := at + |t|;
  }

  // ----- strings ------------------------------------------------------------------------------

  /** print_string_ptr looks for characters to escape first. */
  predicate Special(c: char) {
    c as int < 32 || c == '\"' || c == '\\'
  }

  lemma {:induction false} NothingSpecial(s: string)
    requires forall c :: c in s ==> !Special(c)
    ensures EscapeAll(s) == s
    decreases |s|
  {
    if s != "" {
      assert s[0] in s && forall c :: c in s[1..] ==> c in s;
      assert Escape(s[0]) == [s[0]] && s == [s[0]] + s[1..];
      NothingSpecial(s[1..]);
      hide Escape;
    }
  }

  /** What is written and what is still to be escaped make up the whole. */
  lemma EscapeStep(s: string, i: nat, done: string)
    requires i < |s| && done + EscapeAll(s[i..]) == EscapeAll(s)
    ensures done + Escape(s[i]) + EscapeAll(s[i + 1..]) == EscapeAll(s)
  {
    var more := EscapeAll(s[i + 1..]);
    assert EscapeAll(s[i..]) == Escape(s[i]) + more by { assert s[i..][1..] == s[i + 1..]; }
    hide Escape, EscapeAll;
    Assoc(done, Escape(s[i]), more);
  }

  /** The first loop of print_string_ptr. */
  method HasSpecial(s: string) returns (special: bool)
    ensures special <==> exists c :: c in s && Special(c)
  {
    special := false;
    for i := 0 to |s|
      invariant special <==> exists c :: c in s[..i] && Special(c)
    {
      assert s[..i + 1] == s[..i] + [s[i]];
      special := special || Special(s[i]);
    }
    assert s[..|s|] == s;
  }

  /** The bytes an escaped character takes. */
  lemma EscapeSize(c: char)
    requires c != '\0'
    ensures |Escape(c)| == if c in "\"\\\n\r\t" || c as int == 8 || c as int == 12 then 2 else if c as int < 32 then 6 else 1
  {
  }

  /** The counting loop of print_string_ptr. */
  method EscapedSize(s: string) returns (len: nat)
    requires NulFree(s)
    ensures len == |EscapeAll(s)|
  {
    hide Escape;
    len := 0;
    assert s[0..] == s;
    for i := 0 to |s|
      invariant |EscapeAll(s)| == len + |EscapeAll(s[i..])|
    {
      assert s[i..][1..] == s[i + 1..] && s[i] in s;
      EscapeSize(s[i]);
      len := len + 1;
      if s[i] in "\"\\\n\r\t" || s[i] as int == 8 || s[i] as int == 12 { len := len + 1; }
      else if s[i] as int < 32 { len := len + 5; }
    }
  }

  /** The bytes print_string_ptr asks for: the quoted text and its NUL. */
  method QuotedSize(s: string) returns (size: nat, special: bool)
    requires NulFree(s)
    ensures size == |Quote(s)| + 1
    ensures special <==> exists c :: c in s && Special(c)
  {
    special := HasSpecial(s);
    if !special {
      NothingSpecial(s);
      return |s| + 3, special;
    }
    var len := EscapedSize(s);
    size := len + 3;
  }

  /** The escaping loop of print_string_ptr. */
  method WriteEscaped(out: array<char>, at: nat, s: string) returns (p: nat)
    requires at + |EscapeAll(s)| <= out.Length
    modifies out
    ensures p == at + |EscapeAll(s)| && out[..p] == old(out[..at]) + EscapeAll(s)
  {
    hide Escape, EscapeAll;
    ghost var before, done := out[..at], "";
    p := at;
    assert s[0..] == s && before + "" == before && "" + EscapeAll(s) == EscapeAll(s);
    for i := 0 to |s|
      invariant p == at + |done| && p <= out.Length && out[..p] == before + done
      invariant done + EscapeAll(s[i..]) == EscapeAll(s)
    {
      EscapeStep(s, i, done);
      assert |done + Escape(s[i])| + |EscapeAll(s[i + 1..])| == |EscapeAll(s)|;
      p := Put(out, p, Escape(s[i]));
      Assoc(before, done, Escape(s[i]));
      done := done + Escape(s[i]);
    }
    assert EscapeAll(s[|s|..]) == "" by { EscapeNothing(); assert s[|s|..] == ""; }
    assert done + "" == done;
  }

  lemma EscapeNothing()
    ensures EscapeAll("") == ""
  {
  }

  /** The writing part of print_string_ptr, to a place with that much room. */
  method WriteQuoted(out: array<char>, at: nat, s: string, special: bool) returns (p: nat)
    requires at + |Quote(s)| < out.Length && (special <==> exists c :: c in s && Special(c))
    modifies out
    ensures p == at + |Quote(s)| && out[..p] == old(out[..at]) + Quote(s) && out[p] == '\0'
  {
    hide EscapeAll, Special;
    ghost var before := out[..at];
    p := Put(out, at, "\"");
    if !special {
      NothingSpecial(s);
      p := Put(out, p, s);
    } else {
      p := WriteEscaped(out, p, s);
    }
    assert out[..p] == before + "\"" + EscapeAll(s);
    p := Put(out, p, "\"");
    out[p] := '\0';
    assert before + "\"" + EscapeAll(s) + "\"" == before + Quote(s);
  }

  // ----- one allocation per node --------------------------------------------------------------

  /** A fresh C string of a given size. */
  method NewText(t: string, size: nat) returns (out: array<char>)
    requires |t| < size
    ensures fresh(out) && IsText(out, t)
  {
    out := new char[size];
    var p := Put(out, 0, t);
    out[p] := '\0';
  }

  /** print_string_ptr into its own allocation. */
  method PrintString(s: string) returns (out: array<char>)
    requires NulFree(s)
    ensures fresh(out) && IsText(out, Quote(s))
  {
    var size, special := QuotedSize(s);
    out := new char[size];
    var p := WriteQuoted(out, 0, s, special);
  }

  /** print_number. */
  method PrintNumber(n: int) returns (out: array<char>)
    requires -0x8000_0000 <= n < 0x8000_0000
    ensures fresh(out) && IsText(out, Decimal(n))
  {
    if n == 0 {
      out := NewText("0", 2);
    } else {
      DecimalShort(n);
      out := NewText(Decimal(n), 21);
    }
  }

  /** The printed elements of an array, one C string each. */
  ghost function ItemTexts(items: Items, depth: nat, fmt: bool): seq<string> {
    match items
    case NoItems => []
    case Item(v, next) => [Print(v, depth, fmt)] + ItemTexts(next, depth, fmt)
  }

  /** What print_array adds to its length for the elements. */
  ghost function ItemsRoom(items: Items, depth: nat, fmt: bool): nat {
    match items
    case NoItems => 0
    case Item(v, next) => |Print(v, depth, fmt)| + 2 + (if fmt then 1 else 0) + ItemsRoom(next, depth, fmt)
  }

  lemma {:induction false} ItemsFit(items: Items, depth: nat, fmt: bool)
    ensures |PrintItems(items, depth, fmt)| <= ItemsRoom(items, depth, fmt)
    decreases items
  {
    if items.Item? { ItemsFit(items.next, depth, fmt); }
  }

  ghost function MemberNames(ms: Members): seq<string> {
    match ms
    case NoMembers => []
    case Member(name, v, next) => [Quote(name)] + MemberNames(next)
  }

  ghost function MemberTexts(ms: Members, depth: nat, fmt: bool): seq<string> {
    match ms
    case NoMembers => []
    case Member(name, v, next) => [Print(v, depth, fmt)] + MemberTexts(next, depth, fmt)
  }

  /** What print_object adds to its length for the members. */
  ghost function MembersRoom(ms: Members, depth: nat, fmt: bool): nat {
    match ms
    case NoMembers => 0
    case Member(name, v, next) =>
      |Print(v, depth, fmt)| + |Quote(name)| + 2 + (if fmt then 2 + depth else 0) + MembersRoom(next, depth, fmt)
  }

  lemma {:induction false} MembersFit(ms: Members, depth: nat, fmt: bool)
    ensures |PrintMembers(ms, depth, fmt)| <= MembersRoom(ms, depth, fmt)
    decreases ms
  {
    hide Quote, Print;
    if ms.Member? {
      TabsNulFree(depth);
      MembersFit(ms.next, depth, fmt);
    }
  }

  /** print_value without a buffer. */
  method PrintValue(v: Json, depth: nat, fmt: bool) returns (out: array<char>)
    requires Printable(v)
    ensures fresh(out) && IsText(out, Print(v, depth, fmt))
    decreases v, 1
  {
    hide Quote, Decimal;
    match v
    case Null => out := NewText("null", 5);
    case False => out := NewText("false", 6);
    case True => out := NewText("true", 5);
    case Number(n, _) => out := PrintNumber(n);
    case Text(s) => out := PrintString(s);
    case Array(items) => out := PrintArray(items, depth, fmt);
    case Object(ms) => out := PrintObject(ms, depth, fmt);
  }

  /** print_array without a buffer. */
  method PrintArray(items: Items, depth: nat, fmt: bool) returns (out: array<char>)
    requires PrintableItems(items)
    ensures fresh(out) && IsText(out, Print(Array(items), depth, fmt))
    decreases items, 1
  {
    if items.NoItems? {
      out := NewText("[]", 3);
      return;
    }
    var entries, len := PrintEntries(items, depth + 1, fmt);
    ItemsFit(items, depth + 1, fmt);
    out := new char[len];
    var ptr := Put(out, 0, "[");
    ptr := JoinEntries(out, ptr, items, entries, depth + 1, fmt);
    ptr := Put(out, ptr, "]");
    out[ptr] := '\0';
    assert [] + "[" == "[";
  }

  /** The loop of print_array that prints the elements and adds up the length. */
  method PrintEntries(items: Items, depth: nat, fmt: bool) returns (entries: seq<string>, len: nat)
    requires PrintableItems(items)
    ensures entries == ItemTexts(items, depth, fmt) && len == 5 + ItemsRoom(items, depth, fmt)
    decreases items, 0
  {
    hide Print;
    entries, len := [], 5;
    var child := items;
    while child.Item?
      invariant PrintableItems(child) && (child == items || child < items)
      invariant entries + ItemTexts(child, depth, fmt) == ItemTexts(items, depth, fmt)
      invariant len + ItemsRoom(child, depth, fmt) == 5 + ItemsRoom(items, depth, fmt)
      decreases child
    {
      var ret := PrintValue(child.value, depth, fmt);
      PrintNulFree(child.value, depth, fmt);
      var n := StrLenOf(ret, Print(child.value, depth, fmt));
      Assoc(entries, [ret[..n]], ItemTexts(child.next, depth, fmt));
      entries := entries + [ret[..n]];
      len := len + n + 2 + (if fmt then 1 else 0);
      child := child.next;
    }
  }

  /** The loop of print_array that copies the elements with separators between them. */
  method JoinEntries(out: array<char>, at: nat, ghost items: Items, entries: seq<string>, ghost depth: nat, fmt: bool)
    returns (ptr: nat)
    requires entries == ItemTexts(items, depth, fmt) && at + |PrintItems(items, depth, fmt)| <= out.Length
    modifies out
    ensures ptr == at + |PrintItems(items, depth, fmt)|
    ensures out[..ptr] == old(out[..at]) + PrintItems(items, depth, fmt)
  {
    hide Print;
    ghost var before, done, rest := out[..at], "", items;
    ptr := at;
    assert before + "" == before && entries[0..] == entries && "" + PrintItems(items, depth, fmt) == PrintItems(items, depth, fmt);
    for i := 0 to |entries|
      invariant entries[i..] == ItemTexts(rest, depth, fmt)
      invariant ptr == at + |done| && ptr <= out.Length && out[..ptr] == before + done
      invariant done + PrintItems(rest, depth, fmt) == PrintItems(items, depth, fmt)
    {
      assert rest.Item? && entries[i] == Print(rest.value, depth, fmt) && entries[i + 1..] == ItemTexts(rest.next, depth, fmt) by {
        assert entries[i..][0] == entries[i] && entries[i..][1..] == entries[i + 1..];
      }
      ghost var t := entries[i] + ItemSeparator(rest.next, fmt);
      ItemsSplit(rest, depth, fmt, done);
      assert |done + t| + |PrintItems(rest.next, depth, fmt)| == |PrintItems(items, depth, fmt)|;
      ptr := PutEntry(out, ptr, entries[i], i == |entries| - 1, rest.next, fmt);
      Assoc(before, done, t);
      done := done + t;
      rest := rest.next;
    }
    assert done + "" == done;
  }

  /** One element and the separator after it. */
  method PutEntry(out: array<char>, at: nat, entry: string, last: bool, ghost next: Items, fmt: bool) returns (ptr: nat)
    requires (last <==> next.NoItems?) && at + |entry + ItemSeparator(next, fmt)| <= out.Length
    modifies out
    ensures ptr == at + |entry + ItemSeparator(next, fmt)|
    ensures out[..ptr] == old(out[..at]) + (entry + ItemSeparator(next, fmt))
  {
    ptr := Put(out, at, entry);
    if !last { ptr := Put(out, ptr, if fmt then ", " else ","); }
  }

  lemma ItemsSplit(items: Items, depth: nat, fmt: bool, done: string)
    requires items.Item?
    ensures done + PrintItems(items, depth, fmt)
         == done + (Print(items.value, depth, fmt) + ItemSeparator(items.next, fmt)) + PrintItems(items.next, depth, fmt)
  {
    hide Print, ItemSeparator;
  }

  /** The empty object, which print_object handles apart. */
  method PrintEmptyObject(depth: nat, fmt: bool) returns (out: array<char>)
    ensures fresh(out) && IsText(out, Print(Object(NoMembers), depth, fmt))
  {
    TabsNulFree(depth - 1);
    hide Tabs;
    out := NewText("{" + (if fmt then "\n" + Tabs(depth - 1) else "") + "}", if fmt then depth + 4 else 3);
  }

  /** print_object without a buffer. */
  method PrintObject(ms: Members, depth: nat, fmt: bool) returns (out: array<char>)
    requires PrintableMembers(ms)
    ensures fresh(out) && IsText(out, Print(Object(ms), depth, fmt))
    decreases ms, 1
  {
    hide Print, PrintMembers, Tabs, Quote, MembersRoom;
    if ms.NoMembers? {
      out := PrintEmptyObject(depth, fmt);
      return;
    }
    var names, entries, len := PrintMemberEntries(ms, depth + 1, fmt);
    len := len + (if fmt then depth + 1 else 0);
    MembersFit(ms, depth + 1, fmt);
    TabsNulFree(depth);
    out := new char[len];
    var ptr := Put(out, 0, if fmt then "{\n" else "{");
    ptr := JoinMembers(out, ptr, ms, names, entries, depth + 1, fmt);
    ptr := Put(out, ptr, (if fmt then Tabs(depth) else "") + "}");
    out[ptr] := '\0';
    ObjectText(ms, depth, fmt);
  }

  lemma ObjectText(ms: Members, depth: nat, fmt: bool)
    requires ms.Member?
    ensures Print(Object(ms), depth, fmt) ==
      [] + (if fmt then "{\n" else "{") + PrintMembers(ms, depth + 1, fmt) + ((if fmt then Tabs(depth) else "") + "}")
  {
    hide PrintMembers, Tabs;
  }

  /** The members collected so far and those still to come. */
  ghost predicate Collected(names: seq<string>, entries: seq<string>, len: nat, child: Members, ms: Members,
                            depth: nat, fmt: bool)
  {
    && names + MemberNames(child) == MemberNames(ms)
    && entries + MemberTexts(child, depth, fmt) == MemberTexts(ms, depth, fmt)
    && len + MembersRoom(child, depth, fmt) == 7 + MembersRoom(ms, depth, fmt)
  }

  lemma CollectStep(names: seq<string>, entries: seq<string>, len: nat, child: Members, ms: Members, depth: nat, fmt: bool)
    requires child.Member? && Collected(names, entries, len, child, ms, depth, fmt)
    ensures var name, entry := Quote(child.name), Print(child.value, depth, fmt);
      Collected(names + [name], entries + [entry], len + |entry| + |name| + 2 + (if fmt then 2 + depth else 0),
                child.next, ms, depth, fmt)
  {
    hide Print, Quote;
    var name, entry := Quote(child.name), Print(child.value, depth, fmt);
    Assoc(names, [name], MemberNames(child.next));
    Assoc(entries, [entry], MemberTexts(child.next, depth, fmt));
  }

  lemma CollectEnds(names: seq<string>, entries: seq<string>, len: nat, ms: Members, depth: nat, fmt: bool)
    ensures Collected([], [], 7, ms, ms, depth, fmt)
    ensures Collected(names, entries, len, NoMembers, ms, depth, fmt) ==>
      names == MemberNames(ms) && entries == MemberTexts(ms, depth, fmt) && len == 7 + MembersRoom(ms, depth, fmt)
  {
  }

  /** The loop of print_object that prints names and values and adds up the length. */
  method PrintMemberEntries(ms: Members, depth: nat, fmt: bool)
    returns (names: seq<string>, entries: seq<string>, len: nat)
    requires PrintableMembers(ms)
    ensures names == MemberNames(ms) && entries == MemberTexts(ms, depth, fmt)
    ensures len == 7 + MembersRoom(ms, depth, fmt)
    decreases ms, 0
  {
    hide Print, Quote, MemberNames, MemberTexts, MembersRoom, Collected;
    names, entries, len := [], [], 7;
    var child := ms;
    CollectEnds(names, entries, len, ms, depth, fmt);
    while child.Member?
      invariant PrintableMembers(child) && (child == ms || child < ms)
      invariant Collected(names, entries, len, child, ms, depth, fmt)
      decreases child
    {
      CollectStep(names, entries, len, child, ms, depth, fmt);
      var name, entry := PrintMemberEntry(child.name, child.value, depth, fmt);
      names, entries := names + [name], entries + [entry];
      len := len + |entry| + |name| + 2 + (if fmt then 2 + depth else 0);
      child := child.next;
    }
    CollectEnds(names, entries, len, ms, depth, fmt);
  }

  /** A member's name and value, each as the C string its print function returns. */
  method PrintMemberEntry(name: string, v: Json, depth: nat, fmt: bool) returns (str: string, ret: string)
    requires NulFree(name) && Printable(v)
    ensures str == Quote(name) && ret == Print(v, depth, fmt)
    decreases v, 2
  {
    hide Print, Quote;
    QuoteNulFree(name);
    PrintNulFree(v, depth, fmt);
    var s := PrintString(name);
    var m := StrLenOf(s, Quote(name));
    str := s[..m];
    var r := PrintValue(v, depth, fmt);
    var n := StrLenOf(r, Print(v, depth, fmt));
    ret := r[..n];
  }

  /** The loop of print_object that composes the members. */
  method JoinMembers(out: array<char>, at: nat, ghost ms: Members, names: seq<string>, entries: seq<string>,
                     depth: nat, fmt: bool)
    returns (ptr: nat)
    requires names == MemberNames(ms) && entries == MemberTexts(ms, depth, fmt)
    requires at + |PrintMembers(ms, depth, fmt)| <= out.Length
    modifies out
    ensures ptr == at + |PrintMembers(ms, depth, fmt)|
    ensures out[..ptr] == old(out[..at]) + PrintMembers(ms, depth, fmt)
  {
    hide Print, Quote, Tabs, PrintMember;
    ghost var before, done, rest := out[..at], "", ms;
    ptr := at;
    assert before + "" == before && names[0..] == names && entries[0..] == entries;
    assert "" + PrintMembers(ms, depth, fmt) == PrintMembers(ms, depth, fmt);
    SameCount(ms, depth, fmt);
    for i := 0 to |entries|
      invariant names[i..] == MemberNames(rest) && entries[i..] == MemberTexts(rest, depth, fmt)
      invariant ptr == at + |done| && ptr <= out.Length && out[..ptr] == before + done
      invariant done + PrintMembers(rest, depth, fmt) == PrintMembers(ms, depth, fmt)
    {
      assert rest.Member? && names[i] == Quote(rest.name) && names[i + 1..] == MemberNames(rest.next) by {
        assert names[i..][0] == names[i] && names[i..][1..] == names[i + 1..];
      }
      assert entries[i] == Print(rest.value, depth, fmt) && entries[i + 1..] == MemberTexts(rest.next, depth, fmt) by {
        assert entries[i..][0] == entries[i] && entries[i..][1..] == entries[i + 1..];
      }
      ghost var t := PrintMember(rest.name, rest.value, rest.next, depth, fmt);
      Assoc(done, t, PrintMembers(rest.next, depth, fmt));
      ptr := PutMember(out, ptr, rest, names[i], entries[i], i == |entries| - 1, depth, fmt);
      Assoc(before, done, t);
      done := done + t;
      rest := rest.next;
    }
    assert done + "" == done;
  }

  lemma {:induction false} SameCount(ms: Members, depth: nat, fmt: bool)
    ensures |MemberNames(ms)| == |MemberTexts(ms, depth, fmt)|
    decreases ms
  {
    if ms.Member? { SameCount(ms.next, depth, fmt); }
  }

  /** One member: tabs, name, colon, value, comma, end of line. */
  method PutMember(out: array<char>, at: nat, ghost ms: Members, name: string, entry: string, last: bool,
                   depth: nat, fmt: bool)
    returns (ptr: nat)
    requires ms.Member? && name == Quote(ms.name) && entry == Print(ms.value, depth, fmt)
    requires last <==> ms.next.NoMembers?
    requires at + |PrintMember(ms.name, ms.value, ms.next, depth, fmt)| <= out.Length
    modifies out
    ensures ptr == at + |PrintMember(ms.name, ms.value, ms.next, depth, fmt)|
    ensures out[..ptr] == old(out[..at]) + PrintMember(ms.name, ms.value, ms.next, depth, fmt)
  {
    hide Print, Quote, Tabs;
    ghost var before := out[..at];
    ptr := at;
    if fmt { ptr := Put(out, ptr, Tabs(depth)); }
    assert out[..ptr] == before + Indent(depth, fmt);
    ptr := Put(out, ptr, name);
    ptr := Put(out, ptr, if fmt then ":\t" else ":");
    ptr := Put(out, ptr, entry);
    ptr := Put(out, ptr, (if last then "" else ",") + (if fmt then "\n" else ""));
    MemberGroup(before, Indent(depth, fmt), name, Colon(fmt), entry, MemberEnd(ms.next, fmt));
  }

  lemma MemberGroup(before: string, a: string, b: string, c: string, d: string, e: string)
    ensures before + a + b + c + d + e == before + (a + b + c + d + e)
  {
  }
}
