/** Printing into one growing buffer, as cJSON_PrintBuffered does: `ensure` makes room before every write
    and the offset moves over what has been written. */
module JsonBuffer {
  import opened JsonPrinter
  import opened JsonSpec
  import opened Sequences

  /** Bitwise or of two numbers. */
  function Or(a: nat, b: nat): (r: nat)
    ensures r >= a
  {
    if a == 0 then b else 2 * Or(a / 2, b / 2) + (if a % 2 == 1 || b % 2 == 1 then 1 else 0)
  }

  /** pow2gt on a positive number below 2^31. */
  function Pow2Gt(x: nat): (r: nat)
    requires x > 0
    ensures r >= x
  {
    var a := x - 1;
    var b := Or(a, a / 2);
    var c := Or(b, b / 4);
    var d := Or(c, c / 16);
    var e := Or(d, d / 256);
    Or(e, e / 65536) + 1
  }

  /** A larger copy of a buffer. */
  method Enlarged(from: array<char>, size: nat) returns (to: array<char>)
    requires from.Length <= size
    ensures fresh(to) && to.Length == size && to[..from.Length] == from[..]
  {
    to := new char[size];
    for i := 0 to from.Length
      invariant to[..i] == from[..i]
    {
      to[i] := from[i];
      assert to[..i + 1] == to[..i] + [to[i]] && from[..i + 1] == from[..i] + [from[i]];
    }
  }

  class PrintBuffer {
    var buffer: array<char>
    var length: nat
    var offset: nat

    constructor (prebuffer: nat)
      ensures Valid() && fresh(buffer) && length == prebuffer && offset == 0
    {
      buffer := new char[prebuffer];
      length, offset := prebuffer, 0;
    }

    ghost predicate Valid()
      reads this
    {
      length == buffer.Length && offset <= length
    }

    /** What has been printed before the offset. */
    ghost function Before(): string
      requires Valid()
      reads this, buffer
    {
      buffer[..offset]
    }

    /** `before` and then `text` and a NUL are in the buffer; the offset has not passed the NUL. */
    ghost predicate Holds(before: string, text: string)
      reads this, buffer
    {
      && Valid() && |before| + |text| < length
      && buffer[..|before| + |text|] == before + text && buffer[|before| + |text|] == '\0'
      && |before| <= offset <= |before| + |text|
    }

    /** ensure: there is room for `needed` characters from the offset on, and nothing before the offset
        has changed. */
    method Ensure(needed: nat)
      requires Valid() && needed > 0
      modifies this`buffer, this`length
      ensures Valid() && offset + needed <= length && Before() == old(Before())
      ensures buffer == old(buffer) || fresh(buffer)
    {
      var total := needed + offset;
      if total <= length { return; }
      var newsize := Pow2Gt(total);
      var newbuffer := Enlarged(buffer, newsize);
      assert newbuffer[..offset] == newbuffer[..length][..offset] == buffer[..][..offset] == buffer[..offset];
      length := newsize;
      buffer := newbuffer;
    }

    /** update: the offset moves to the NUL. */
    method Update(ghost before: string, ghost text: string)
      requires Holds(before, text) && NulFree(text)
      modifies this`offset
      ensures Valid() && Before() == before + text
    {
      ghost var end := |before| + |text|;
      forall i | offset <= i < end ensures buffer[i] != '\0' {
        assert buffer[i] == (before + text)[i] && text[i - |before|] in text;
      }
      var n := StrLen(buffer, offset, end);
      offset := offset + n;
    }

    /** Characters written at the offset, which moves over them. */
    method Append(text: string)
      requires Valid() && offset + |text| <= length
      modifies this`offset, buffer
      ensures Valid() && Before() == old(Before()) + text
    {
      offset := Put(buffer, offset, text);
    }

    /** Characters and a NUL written at the offset, which stays. */
    method Finish(text: string)
      requires Valid() && offset + |text| < length
      modifies buffer
      ensures Holds(old(Before()), text)
    {
      var p := Put(buffer, offset, text);
      buffer[p] := '\0';
    }
  }

  /** Where the pointer a print function returns stands: at the start of its text, except that a loop
      counter of print_object overwrites it when a formatted object has members. */
  function Returned(v: Json, depth: nat, fmt: bool, start: nat): nat {
    if v.Object? && v.members.Member? && fmt then depth else start
  }

  /** print_value with a buffer. */
  method PrintValueInto(p: PrintBuffer, v: Json, depth: nat, fmt: bool) returns (at: nat)
    requires p.Valid() && Printable(v)
    modifies p, p.buffer
    ensures p.Holds(old(p.Before()), Print(v, depth, fmt)) && (p.buffer == old(p.buffer) || fresh(p.buffer))
    ensures at == Returned(v, depth, fmt, old(p.offset))
    decreases v, 1
  {
    hide Quote, Decimal, Tabs;
    at := p.offset;
    match v
    case Null =>
      p.Ensure(5);
      p.Finish("null");
    case False =>
      p.Ensure(6);
      p.Finish("false");
    case True =>
      p.Ensure(5);
      p.Finish("true");
    case Number(n, _) => PrintNumberInto(p, n);
    case Text(s) => PrintStringInto(p, s);
    case Array(items) => PrintArrayInto(p, items, depth, fmt);
    case Object(ms) => at := PrintObjectInto(p, ms, depth, fmt);
  }

  /** print_number with a buffer. */
  method PrintNumberInto(p: PrintBuffer, n: int)
    requires p.Valid() && -0x8000_0000 <= n < 0x8000_0000
    modifies p, p.buffer
    ensures p.Holds(old(p.Before()), Decimal(n)) && (p.buffer == old(p.buffer) || fresh(p.buffer))
  {
    if n == 0 {
      p.Ensure(2);
      p.Finish("0");
    } else {
      DecimalShort(n);
      p.Ensure(21);
      p.Finish(Decimal(n));
    }
  }

  /** print_string_ptr with a buffer. */
  method PrintStringInto(p: PrintBuffer, s: string)
    requires p.Valid() && NulFree(s)
    modifies p, p.buffer
    ensures p.Holds(old(p.Before()), Quote(s)) && (p.buffer == old(p.buffer) || fresh(p.buffer))
  {
    hide Quote;
    var size, special := QuotedSize(s);
    p.Ensure(size);
    var end := WriteQuoted(p.buffer, p.offset, s, special);
  }

  /** print_array with a buffer. */
  method PrintArrayInto(p: PrintBuffer, items: Items, depth: nat, fmt: bool)
    requires p.Valid() && PrintableItems(items)
    modifies p, p.buffer
    ensures p.Holds(old(p.Before()), Print(Array(items), depth, fmt)) && (p.buffer == old(p.buffer) || fresh(p.buffer))
    decreases items, 1
  {
    ghost var before, all := p.Before(), PrintItems(items, depth + 1, fmt);
    assert Print(Array(items), depth, fmt) == "[" + all + "]" && (items.NoItems? ==> "[" + all + "]" == "[]");
    hide Print, PrintItems;
    if items.NoItems? {
      p.Ensure(3);
      p.Finish("[]");
      return;
    }
    p.Ensure(1);
    p.Append("[");
    PrintItemsInto(p, items, depth + 1, fmt);
    p.Ensure(2);
    ghost var inside := p.Before();
    Assoc(before, "[", all);
    p.Finish("]");
    HoldsJoined(p, before, "[" + all, "]", inside);
  }

  /** What was printed before the last piece counts as part of the text. */
  lemma HoldsJoined(p: PrintBuffer, before: string, first: string, last: string, inside: string)
    requires p.Holds(inside, last) && inside == before + first
    ensures p.Holds(before, first + last)
  {
    Assoc(before, first, last);
  }

  /** The loop of print_array with a buffer. */
  method PrintItemsInto(p: PrintBuffer, items: Items, depth: nat, fmt: bool)
    requires p.Valid() && PrintableItems(items)
    modifies p, p.buffer
    ensures p.Valid() && p.Before() == old(p.Before()) + PrintItems(items, depth, fmt)
    ensures p.buffer == old(p.buffer) || fresh(p.buffer)
    decreases items, 0
  {
    hide Print;
    ghost var before, done := p.Before(), "";
    var child := items;
    assert before + "" == before && "" + PrintItems(items, depth, fmt) == PrintItems(items, depth, fmt);
    while child.Item?
      invariant PrintableItems(child) && (child == items || child < items)
      invariant p.Valid() && (p.buffer == old(p.buffer) || fresh(p.buffer)) && p.Before() == before + done
      invariant done + PrintItems(child, depth, fmt) == PrintItems(items, depth, fmt)
      decreases child
    {
      ghost var t := Print(child.value, depth, fmt);
      var at := PrintValueInto(p, child.value, depth, fmt);
      PrintNulFree(child.value, depth, fmt);
      p.Update(before + done, t);
      if child.next.Item? {
        var len := if fmt then 2 else 1;
        p.Ensure(len + 1);
        p.Append(if fmt then ", " else ",");
      }
      ItemsSplit(child, depth, fmt, done);
      Regroup(before, done, t, ItemSeparator(child.next, fmt));
      done := done + (t + ItemSeparator(child.next, fmt));
      child := child.next;
    }
    assert done + "" == done;
  }

  lemma Regroup(a: string, b: string, c: string, d: string)
    ensures a + b + c + d == a + (b + (c + d)) && a + b + c + "" == a + b + c
  {
  }

  /** print_object with a buffer. */
  method PrintObjectInto(p: PrintBuffer, ms: Members, depth: nat, fmt: bool) returns (at: nat)
    requires p.Valid() && PrintableMembers(ms)
    modifies p, p.buffer
    ensures p.Holds(old(p.Before()), Print(Object(ms), depth, fmt)) && (p.buffer == old(p.buffer) || fresh(p.buffer))
    ensures at == Returned(Object(ms), depth, fmt, old(p.offset))
    decreases ms, 1
  {
    at := p.offset;
    if ms.NoMembers? {
      PrintEmptyInto(p, depth, fmt);
      return;
    }
    hide Print, PrintMembers, Tabs;
    ghost var before, all := p.Before(), PrintMembers(ms, depth + 1, fmt);
    var open := if fmt then "{\n" else "{";
    p.Ensure((if fmt then 2 else 1) + 1);
    p.Append(open);
    PrintMembersInto(p, ms, depth + 1, fmt);
    Assoc(before, open, all);
    at := CloseObject(p, before, open + all, depth, fmt, at);
    ObjectText(ms, depth, fmt);
    assert [] + open == open;
  }

  /** The empty object, which print_object handles apart. */
  method PrintEmptyInto(p: PrintBuffer, depth: nat, fmt: bool)
    requires p.Valid()
    modifies p, p.buffer
    ensures p.Holds(old(p.Before()), Print(Object(NoMembers), depth, fmt)) && (p.buffer == old(p.buffer) || fresh(p.buffer))
  {
    var text := "{" + (if fmt then "\n" + Tabs(depth - 1) else "") + "}";
    assert |text| < (if fmt then depth + 4 else 3) && text == Print(Object(NoMembers), depth, fmt) by { TabsNulFree(depth - 1); }
    hide Print, Tabs;
    p.Ensure(if fmt then depth + 4 else 3);
    p.Finish(text);
  }

  /** The closing brace of an object with members, on its own line when formatted: the loop that writes the
      tabs counts with the variable `i` that held the start of the object. */
  method CloseObject(p: PrintBuffer, ghost before: string, ghost first: string, depth: nat, fmt: bool, start: nat) returns (i: nat)
    requires p.Valid() && p.Before() == before + first
    modifies p, p.buffer
    ensures p.Holds(before, first + (Indent(depth, fmt) + "}")) && (p.buffer == old(p.buffer) || fresh(p.buffer))
    ensures i == if fmt then depth else start
  {
    p.Ensure(if fmt then depth + 2 else 2);
    ghost var inside := p.Before();
    var out, ptr := p.buffer, p.offset;
    i := start;
    hide Tabs;
    assert inside == inside + "" && Tabs(0) == "" by { TabsStep(0); }
    if fmt {
      i := 0;
      while i < depth
        invariant i <= depth && ptr == |inside| + i && p.Valid() && p.buffer == out && p.offset == |inside|
        invariant out[..ptr] == inside + Tabs(i)
      {
        TabsStep(i);
        Assoc(inside, Tabs(i), "\t");
        out[ptr] := '\t';
        ptr := ptr + 1;
        i := i + 1;
      }
    }
    assert out[..ptr] == inside + Indent(depth, fmt);
    out[ptr] := '}';
    out[ptr + 1] := '\0';
    Assoc(inside, Indent(depth, fmt), "}");
    HoldsJoined(p, before, first, Indent(depth, fmt) + "}", inside);
  }

  lemma {:induction false} TabsStep(n: nat)
    ensures Tabs(n + 1) == Tabs(n) + "\t" && Tabs(0) == ""
  {
    if n > 0 { TabsStep(n - 1); }
  }

  /** The loop of print_object with a buffer. */
  method PrintMembersInto(p: PrintBuffer, ms: Members, depth: nat, fmt: bool)
    requires p.Valid() && PrintableMembers(ms) && depth > 0
    modifies p, p.buffer
    ensures p.Valid() && p.Before() == old(p.Before()) + PrintMembers(ms, depth, fmt)
    ensures p.buffer == old(p.buffer) || fresh(p.buffer)
    decreases ms, 0
  {
    hide Print, PrintMember, Quote, Tabs;
    ghost var before, done := p.Before(), "";
    var child := ms;
    assert before + "" == before && "" + PrintMembers(ms, depth, fmt) == PrintMembers(ms, depth, fmt);
    while child.Member?
      invariant PrintableMembers(child) && (child == ms || child < ms)
      invariant p.Valid() && (p.buffer == old(p.buffer) || fresh(p.buffer)) && p.Before() == before + done
      invariant done + PrintMembers(child, depth, fmt) == PrintMembers(ms, depth, fmt)
      decreases child
    {
      ghost var t := PrintMember(child.name, child.value, child.next, depth, fmt);
      PrintMemberInto(p, child.name, child.value, child.next, depth, fmt);
      Assoc(done, t, PrintMembers(child.next, depth, fmt));
      Assoc(before, done, t);
      done := done + t;
      child := child.next;
    }
    assert done + "" == done;
  }

  /** One turn of that loop. */
  method PrintMemberInto(p: PrintBuffer, name: string, v: Json, next: Members, depth: nat, fmt: bool)
    requires p.Valid() && NulFree(name) && Printable(v) && depth > 0
    modifies p, p.buffer
    ensures p.Valid() && p.Before() == old(p.Before()) + PrintMember(name, v, next, depth, fmt)
    ensures p.buffer == old(p.buffer) || fresh(p.buffer)
    decreases v, 2
  {
    hide Print, Quote, Tabs;
    ghost var before := p.Before();
    PrintNameInto(p, name, depth, fmt);
    ghost var named := p.Before();
    var at := PrintValueInto(p, v, depth, fmt);
    PrintNulFree(v, depth, fmt);
    p.Update(named, Print(v, depth, fmt));
    var len := (if fmt then 1 else 0) + (if next.Member? then 1 else 0);
    p.Ensure(len + 1);
    p.Append(MemberEnd(next, fmt));
    MemberGroup(before, Indent(depth, fmt), Quote(name), Colon(fmt), Print(v, depth, fmt), MemberEnd(next, fmt));
  }

  /** A member's tabs, name and colon. */
  method PrintNameInto(p: PrintBuffer, name: string, depth: nat, fmt: bool)
    requires p.Valid() && NulFree(name) && depth > 0
    modifies p, p.buffer
    ensures p.Valid() && p.Before() == old(p.Before()) + Indent(depth, fmt) + Quote(name) + Colon(fmt)
    ensures p.buffer == old(p.buffer) || fresh(p.buffer)
  {
    TabsNulFree(depth);
    hide Tabs, Quote;
    ghost var before := p.Before();
    if fmt {
      p.Ensure(depth);
      p.Append(Tabs(depth));
    }
    assert p.Before() == before + Indent(depth, fmt);
    PrintStringInto(p, name);
    QuoteNulFree(name);
    p.Update(before + Indent(depth, fmt), Quote(name));
    p.Ensure(if fmt then 2 else 1);
    p.Append(if fmt then ":\t" else ":");
  }

  /** cJSON_PrintBuffered: whatever the starting size, the buffer it returns holds the text that printing
      without a buffer gives, and the returned pointer is the start of it. */
  method PrintBuffered(v: Json, prebuffer: nat, fmt: bool) returns (out: array<char>, at: nat)
    requires Printable(v) && prebuffer > 0
    ensures at == 0 && IsText(out, Print(v, 0, fmt)) && fresh(out)
  {
    var p := new PrintBuffer(prebuffer);
    assert p.Before() == "";
    at := PrintValueInto(p, v, 0, fmt);
    out := p.buffer;
    assert "" + Print(v, 0, fmt) == Print(v, 0, fmt);
  }
}
