/** Whole documents: a text all of whose strings are well formed is parsed or rejected, and never sends the
    parser outside the text or a buffer. Nothing else about the text is assumed. */
module JsonDocuments {
  import opened JsonRoundTrip
  import opened JsonSpec

  /** The text after the quote that closes a well-formed string. */
  function AfterQuote(s: string): (r: string)
    requires WellFormed(s)
    ensures |r| < |s|
    decreases |s|
  {
    if s[0] == '\"' then s[1..]
    else if s[0] != '\\' then AfterQuote(s[1..])
    else AfterQuote(s[2..])
  }

  /** Every string of the text is well formed, wherever it stands; a quote outside a string opens one. */
  predicate StringsOk(s: string)
    decreases |s|
  {
    s == ""
    || if s[0] == '\"' then WellFormed(s[1..]) && StringsOk(AfterQuote(s[1..])) else StringsOk(s[1..])
  }

  // ----- strings ------------------------------------------------------------------------------

  /** Hexadecimal digits are no quotes and no backslashes. */
  lemma AfterUnicode(s: string)
    requires WellFormed(s) && |s| > 1 && s[0] == '\\' && s[1] == 'u'
    ensures |s| >= 6 && WellFormed(s[6..]) && AfterQuote(s) == AfterQuote(s[6..])
  {
    HexSteps(s);
    var a, b, c, d := s[2..], s[3..], s[4..], s[5..];
    assert a[1..] == b && b[1..] == c && c[1..] == d && d[1..] == s[6..];
    assert HexValue(a[0]) >= 0 && HexValue(b[0]) >= 0 && HexValue(c[0]) >= 0 && HexValue(d[0]) >= 0;
    NotSpecial(a[0]);
    NotSpecial(b[0]);
    NotSpecial(c[0]);
    NotSpecial(d[0]);
    PlainStep(a);
    PlainStep(b);
    PlainStep(c);
    PlainStep(d);
  }

  lemma PlainStep(s: string)
    requires WellFormed(s) && s[0] != '\"' && s[0] != '\\'
    ensures WellFormed(s[1..]) && AfterQuote(s) == AfterQuote(s[1..])
  {
  }

  lemma NotSpecial(c: char)
    requires HexValue(c) >= 0
    ensures c != '\"' && c != '\\'
  {
  }

  /** The parser leaves a well-formed string behind its closing quote. */
  lemma {:induction false} CharsEnd(s: string)
    requires WellFormed(s)
    ensures ParseChars(s).Some? && ParseChars(s).value.1 == AfterQuote(s)
    decreases |s|
  {
    if s[0] == '\"' {
    } else if s[0] != '\\' {
      CharsEnd(s[1..]);
    } else if s[1] != 'u' {
      CharsEnd(s[2..]);
    } else {
      AfterUnicode(s);
      assert s[2..][4..] == s[6..];
      var u := Hex4(s[2..]);
      if HighHalf(u) && At(s, 6) == '\\' && At(s, 7) == 'u' {
        AfterUnicode(s[6..]);
        assert s[6..][6..] == s[12..] && s[2..][10..] == s[12..];
        CharsEnd(s[12..]);
      } else {
        CharsEnd(s[6..]);
      }
    }
  }

  lemma StringDefined(s: string)
    requires StringsOk(s)
    ensures var r := ParseString(s); !r.Undefined? && (r.Done? ==> StringsOk(r.rest))
  {
    hide ParseChars, StringLength, WellFormed, AfterQuote;
    if At(s, 0) == '\"' {
      WellFormedFits(s[1..]);
      CharsEnd(s[1..]);
    }
  }

  // ----- what is no string --------------------------------------------------------------------

  lemma StringsDrop(s: string, n: nat)
    requires StringsOk(s) && n <= |s| && forall i :: 0 <= i < n ==> s[i] != '\"'
    ensures StringsOk(s[n..])
    decreases n
  {
    if n == 0 {
      assert s[0..] == s;
    } else {
      StringsDrop(s[1..], n - 1);
      assert s[1..][n - 1..] == s[n..];
    }
  }

  lemma {:induction false} SkipDefined(s: string)
    requires StringsOk(s)
    ensures StringsOk(Skip(s))
    decreases |s|
  {
    if s != "" && s[0] <= ' ' { SkipDefined(s[1..]); }
  }

  lemma {:induction false} DigitsDefined(n: nat, s: string)
    requires StringsOk(s)
    ensures StringsOk(TakeDigits(n, s).1)
    decreases |s|
  {
    if IsDigit(At(s, 0)) { DigitsDefined(10 * n + (s[0] - '0') as nat, s[1..]); }
  }

  lemma ExponentDefined(s: string)
    requires StringsOk(s)
    ensures StringsOk(ParseExponent(s).1)
  {
    hide TakeDigits;
    if At(s, 0) == 'e' || At(s, 0) == 'E' {
      var t := s[1..];
      var u := if At(t, 0) == '+' || At(t, 0) == '-' then t[1..] else t;
      DigitsDefined(0, u);
    }
  }

  lemma NumberDefined(s: string)
    requires StringsOk(s)
    ensures StringsOk(ParseNumber(s).1)
  {
    hide TakeDigits, ParseExponent;
    var t := if At(s, 0) == '-' then s[1..] else s;
    var t0 := if At(t, 0) == '0' then t[1..] else t;
    DigitsDefined(0, t0);
    var whole := if '1' <= At(t0, 0) <= '9' then TakeDigits(0, t0) else (0, t0);
    if At(whole.1, 0) == '.' {
      DigitsDefined(whole.0, whole.1[1..]);
      ExponentDefined(TakeDigits(whole.0, whole.1[1..]).1);
    }
    ExponentDefined(whole.1);
  }

  // ----- values -------------------------------------------------------------------------------

  lemma LiteralDefined(s: string, word: string)
    requires StringsOk(s) && StartsWith(s, word) && '\"' !in word
    ensures StringsOk(s[|word|..])
  {
    assert forall i :: 0 <= i < |word| ==> s[i] == word[i] && word[i] in word;
    StringsDrop(s, |word|);
  }

  lemma {:induction false} ValueDefined(s: string)
    requires StringsOk(s)
    ensures var r := ParseValue(s); !r.Undefined? && (r.Done? ==> StringsOk(r.rest))
    decreases |s|, 1
  {
    hide StartsWith, ParseNumber, ParseString, ParseArray, ParseObject;
    if StartsWith(s, "null") { LiteralDefined(s, "null"); }
    else if StartsWith(s, "false") { LiteralDefined(s, "false"); }
    else if StartsWith(s, "true") { LiteralDefined(s, "true"); }
    else if At(s, 0) == '\"' { StringDefined(s); }
    else if At(s, 0) == '-' || IsDigit(At(s, 0)) { NumberDefined(s); }
    else if At(s, 0) == '[' { ArrayDefined(s); }
    else if At(s, 0) == '{' { ObjectDefined(s); }
  }

  lemma {:induction false} ArrayDefined(s: string)
    requires StringsOk(s) && At(s, 0) == '['
    ensures var r := ParseArray(s); !r.Undefined? && (r.Done? ==> StringsOk(r.rest))
    decreases |s|, 0
  {
    hide ParseItems, Skip;
    var t := Skip(s[1..]);
    SkipDefined(s[1..]);
    if At(t, 0) != ']' { ItemsDefined(t); }
  }

  lemma {:induction false} ItemsDefined(s: string)
    requires StringsOk(s)
    ensures var r := ParseItems(s); !r.Undefined? && (r.Done? ==> StringsOk(r.rest))
    decreases |s|, 2
  {
    hide ParseValue, Skip;
    SkipDefined(s);
    ValueDefined(Skip(s));
    var p := ParseValue(Skip(s));
    if p.Done? {
      SkipDefined(p.rest);
      var t := Skip(p.rest);
      if At(t, 0) == ',' { ItemsDefined(t[1..]); }
    }
  }

  lemma NameDefined(s: string)
    requires StringsOk(s)
    ensures var r := ParseName(s); !r.Undefined? && (r.Done? ==> StringsOk(r.rest))
  {
    hide ParseString, Skip;
    SkipDefined(s);
    StringDefined(Skip(s));
    var p := ParseString(Skip(s));
    if p.Done? { SkipDefined(p.rest); }
  }

  lemma {:induction false} ObjectDefined(s: string)
    requires StringsOk(s) && At(s, 0) == '{'
    ensures var r := ParseObject(s); !r.Undefined? && (r.Done? ==> StringsOk(r.rest))
    decreases |s|, 0
  {
    hide ParseMembers, Skip;
    var t := Skip(s[1..]);
    SkipDefined(s[1..]);
    if At(t, 0) != '}' { MembersDefined(t); }
  }

  lemma {:induction false} MembersDefined(s: string)
    requires StringsOk(s)
    ensures var r := ParseMembers(s); !r.Undefined? && (r.Done? ==> StringsOk(r.rest))
    decreases |s|, 2
  {
    hide ParseName, ParseValue, Skip;
    NameDefined(s);
    var q := ParseName(s);
    if q.Done? {
      SkipDefined(q.rest);
      ValueDefined(Skip(q.rest));
      var p := ParseValue(Skip(q.rest));
      if p.Done? {
        SkipDefined(p.rest);
        var t := Skip(p.rest);
        if At(t, 0) == ',' { MembersDefined(t[1..]); }
      }
    }
  }

  /** cJSON_Parse on any text whose strings are well formed, JSON or not: a value or a failure. */
  lemma DocumentDefined(s: string, whole: bool)
    requires StringsOk(s)
    ensures !Parse(s, whole).Undefined?
  {
    hide ParseValue, Skip;
    SkipDefined(s);
    ValueDefined(Skip(s));
  }
}
