/** What Project/Public/tinyxml2/tinyxml2.cpp makes of the five predefined entities of section 4.6 of XML 1.0 and of the
    digits of character references, letter by letter. */
module XmlEntities {
  import opened XmlText

  /** A text begins with a word. */
  predicate Begins(s: string, word: string) {
    |word| <= |s| && s[..|word|] == word
  }

  /** The entity that a text begins with is replaced by its character, and so on behind it. */
  function Unescape(s: string): string {
    if s == "" then ""
    else if Begins(s, "&lt;") then "<" + Unescape(s[4..])
    else if Begins(s, "&gt;") then ">" + Unescape(s[4..])
    else if Begins(s, "&amp;") then "&" + Unescape(s[5..])
    else if Begins(s, "&quot;") then "\"" + Unescape(s[6..])
    else if Begins(s, "&apos;") then "'" + Unescape(s[6..])
    else [s[0]] + Unescape(s[1..])
  }

  predicate BeginsEntity(s: string) {
    Begins(s, "&lt;") || Begins(s, "&gt;") || Begins(s, "&amp;") || Begins(s, "&quot;") || Begins(s, "&apos;")
  }

  /** Every ampersand begins an entity. */
  ghost predicate OnlyEntities(s: string) {
    forall i {:trigger s[i]} :: 0 <= i < |s| && s[i] == '&' ==> BeginsEntity(s[i..])
  }

  // ---------------------------------------------------------------------------------------------------------
  // Printing

  /** Markup is always written as entities, quotes only in attribute values, everything else as it is. */
  lemma EscapedAs(c: char, restricted: bool)
    ensures Escape("<", restricted) == "&lt;"
    ensures Escape(">", restricted) == "&gt;"
    ensures Escape("&", restricted) == "&amp;"
    ensures Escape("\"", restricted) == if restricted then "\"" else "&quot;"
    ensures Escape("'", restricted) == if restricted then "'" else "&apos;"
    ensures c !in "<>&\"'" ==> Escape([c], restricted) == [c]
  {
    EscapeOne('<', restricted);
    EscapeOne('>', restricted);
    EscapeOne('&', restricted);
    EscapeOne('\"', restricted);
    EscapeOne('\'', restricted);
    EscapeOne(c, restricted);
    assert "<>&\"'" == ['<', '>', '&', '\"', '\''];
  }

  lemma UnescapeWord(word: string, rest: string)
    ensures Begins(word + rest, word) && (word + rest)[|word|..] == rest
    ensures |word| > 0 ==> (word + rest)[0] == word[0]
  {
  }

  lemma UnescapeFirst(c: char, rest: string, restricted: bool)
    ensures Unescape(Escape([c], restricted) + rest) == [c] + Unescape(rest)
  {
    hide Escape, Unescape, Begins;
    EscapedAs(c, restricted);
    var e := Escape([c], restricted);
    UnescapeWord(e, rest);
    if e == [c] {
      UnescapeOther(e + rest);
    } else {
      UnescapeEntity(e + rest, e);
    }
  }

  lemma UnescapeOther(s: string)
    requires s != "" && s[0] != '&'
    ensures Unescape(s) == [s[0]] + Unescape(s[1..])
  {
    hide Begins;
    OtherFirst(s, "&lt;");
    OtherFirst(s, "&gt;");
    OtherFirst(s, "&amp;");
    OtherFirst(s, "&quot;");
    OtherFirst(s, "&apos;");
  }

  lemma OtherFirst(s: string, word: string)
    requires s != "" && word != "" && s[0] != word[0]
    ensures !Begins(s, word)
  {
  }

  lemma UnescapeEntity(s: string, word: string)
    requires Begins(s, word) && word in {"&lt;", "&gt;", "&amp;", "&quot;", "&apos;"}
    ensures s != "" && Unescape(s) == Meant(word) + Unescape(s[|word|..])
  {
    NoOther(s, word);
    hide Begins;
    assert Begins(s, "&lt;") || Begins(s, "&gt;") || Begins(s, "&amp;") || Begins(s, "&quot;") || Begins(s, "&apos;");
  }

  function Meant(word: string): string {
    if word == "&lt;" then "<"
    else if word == "&gt;" then ">"
    else if word == "&amp;" then "&"
    else if word == "&quot;" then "\""
    else "'"
  }

  /** A text begins with one of the entities at the most. */
  lemma NoOther(s: string, word: string)
    requires word in {"&lt;", "&gt;", "&amp;", "&quot;", "&apos;"} && Begins(s, word)
    ensures forall w :: w in {"&lt;", "&gt;", "&amp;", "&quot;", "&apos;"} && Begins(s, w) ==> w == word
  {
    assert s[1] == word[1] && s[2] == word[2];
    forall w | w in {"&lt;", "&gt;", "&amp;", "&quot;", "&apos;"} && Begins(s, w) ensures w == word {
      assert s[1] == w[1] && s[2] == w[2];
    }
  }

  /** Printed text with every entity replaced by its character is the text. */
  lemma {:induction false} UnescapeEscape(t: string, restricted: bool)
    ensures Unescape(Escape(t, restricted)) == t
  {
    hide Escape, Unescape;
    if t == "" {
      Nothing(restricted);
    } else {
      UnescapeEscape(t[1..], restricted);
      assert t == [t[0]] + t[1..];
      EscapeAppend([t[0]], t[1..], restricted);
      UnescapeFirst(t[0], Escape(t[1..], restricted), restricted);
    }
  }

  lemma Nothing(restricted: bool)
    ensures Escape("", restricted) == "" && Unescape("") == ""
  {
  }

  // ---------------------------------------------------------------------------------------------------------
  // Reading

  /** Behind an ampersand each of the five names, up to its semicolon, stands for its character. */
  lemma FrontOfEntity(s: string, newline: bool)
    ensures Begins(s, "&lt;") ==> Front(s, newline, true) == Piece("<", 4)
    ensures Begins(s, "&gt;") ==> Front(s, newline, true) == Piece(">", 4)
    ensures Begins(s, "&amp;") ==> Front(s, newline, true) == Piece("&", 5)
    ensures Begins(s, "&quot;") ==> Front(s, newline, true) == Piece("\"", 6)
    ensures Begins(s, "&apos;") ==> Front(s, newline, true) == Piece("'", 6)
  {
    if Begins(s, "&lt;") { EntityIs(s, "lt;"); }
    if Begins(s, "&gt;") { EntityIs(s, "gt;"); }
    if Begins(s, "&amp;") { EntityIs(s, "amp;"); }
    if Begins(s, "&quot;") { EntityIs(s, "quot;"); }
    if Begins(s, "&apos;") { EntityIs(s, "apos;"); }
  }

  lemma EntityIs(s: string, name: string)
    requires name in {"lt;", "gt;", "amp;", "quot;", "apos;"} && Begins(s, "&" + name)
    ensures s[0] == '&' && s[1] != '#' && StartsWith(s[1..], name)
    ensures forall n :: n in {"lt;", "gt;", "amp;", "quot;", "apos;"} && StartsWith(s[1..], n) ==> n == name
  {
    var word := "&" + name;
    forall i | 0 <= i < |name| ensures s[1..][i] == name[i] {
      assert s[..|word|][i + 1] == word[i + 1];
    }
    assert s[..|word|][0] == word[0];
    var u := s[1..];
    assert u[0] == name[0] && u[1] == name[1];
    if name != "lt;" { OtherName(u, "lt;"); }
    if name != "gt;" { OtherName(u, "gt;"); }
    if name != "amp;" { OtherName(u, "amp;"); }
    if name != "quot;" { OtherName(u, "quot;"); }
    if name != "apos;" { OtherName(u, "apos;"); }
  }

  lemma OtherName(u: string, name: string)
    requires |u| >= 2 && |name| >= 2 && (u[0] != name[0] || u[1] != name[1])
    ensures !StartsWith(u, name)
  {
  }

  /** What has been decoded stays. */
  lemma {:induction false} DecodedStays(s: string, p: nat, out: string, newline: bool, entities: bool)
    requires |out| <= p <= |s|
    ensures var r := DecodeFrom(s, p, out, newline, entities); |out| <= |r| && r[..|out|] == out
    decreases |s| - p
  {
    hide Front, DecodeFrom;
    if p == |s| {
      DecodeEnd(s, out, newline, entities);
    } else {
      DecodeStep(s, p, out, newline, entities);
      var f := Front(s[p..], newline, entities);
      if f.Piece? {
        DecodedStays(s, p + f.used, out + f.bytes, newline, entities);
      } else {
        DecodedStays(s, p + 1, out + [s[|out|]], newline, entities);
      }
      var r := DecodeFrom(s, p, out, newline, entities);
      assert r[..|out|] == out by {
        var more := if f.Piece? then f.bytes else [s[|out|]];
        assert r[..|out + more|] == out + more;
        assert r[..|out|] == r[..|out + more|][..|out|];
      }
    }
  }

  /** Text that needs no decoding is kept. */
  lemma {:induction false} DecodePlain(s: string, p: nat, n: nat, newline: bool)
    requires p <= n <= |s|
    requires forall c :: c in s[..n] ==> c != '&' && c != '\r' && c != '\n'
    ensures DecodeFrom(s, p, s[..p], newline, true) == DecodeFrom(s, n, s[..n], newline, true)
    decreases n - p
  {
    if p < n {
      assert s[p] in s[..n] && s[..p] + [s[p]] == s[..p + 1];
      DecodePlain(s, p + 1, n, newline);
    }
  }

  lemma DecodedAs(pre: string, word: string, c: char, rest: string, newline: bool)
    requires forall x :: x in pre ==> x != '&' && x != '\r' && x != '\n'
    requires word != "" && Front(word + rest, newline, true) == Piece([c], |word|)
    ensures pre + [c] <= Decode(pre + word + rest, newline, true)
  {
    hide Front, DecodeFrom;
    var s := pre + word + rest;
    assert s[..|pre|] == pre && s[|pre|..] == word + rest && s[..0] == "";
    DecodePlain(s, 0, |pre|, newline);
    DecodeStep(s, |pre|, pre, newline, true);
    DecodedStays(s, |pre| + |word|, pre + [c], newline, true);
  }

  /** Reading the first entity of a text, behind whatever needs no decoding and in front of any rest, gives its
      character. */
  lemma EntitiesAreDecoded(pre: string, rest: string, newline: bool)
    requires forall x :: x in pre ==> x != '&' && x != '\r' && x != '\n'
    ensures pre + "<" <= Decode(pre + "&lt;" + rest, newline, true)
    ensures pre + ">" <= Decode(pre + "&gt;" + rest, newline, true)
    ensures pre + "&" <= Decode(pre + "&amp;" + rest, newline, true)
    ensures pre + "\"" <= Decode(pre + "&quot;" + rest, newline, true)
    ensures pre + "'" <= Decode(pre + "&apos;" + rest, newline, true)
  {
    hide Front, Decode;
    FrontOfEntity("&lt;" + rest, newline);
    DecodedAs(pre, "&lt;", '<', rest, newline);
    FrontOfEntity("&gt;" + rest, newline);
    DecodedAs(pre, "&gt;", '>', rest, newline);
    FrontOfEntity("&amp;" + rest, newline);
    DecodedAs(pre, "&amp;", '&', rest, newline);
    FrontOfEntity("&quot;" + rest, newline);
    DecodedAs(pre, "&quot;", '\"', rest, newline);
    FrontOfEntity("&apos;" + rest, newline);
    DecodedAs(pre, "&apos;", '\'', rest, newline);
  }

  lemma FrontOfUnescape(s: string)
    requires s != "" && (s[0] == '&' ==> BeginsEntity(s))
    ensures var f := Front(s, false, true);
      f.Piece? && Unescape(s) == f.bytes + Unescape(s[f.used..])
  {
    FrontOfEntity(s, false);
    if s[0] == '&' { hide Front; }
  }

  lemma {:induction false} DecodeUnescapes(s: string, p: nat, out: string)
    requires |out| <= p <= |s| && OnlyEntities(s)
    ensures DecodeFrom(s, p, out, false, true) == out + Unescape(s[p..])
    decreases |s| - p
  {
    hide Front, Unescape, BeginsEntity, DecodeFrom;
    if p == |s| {
      Nothing(false);
      DecodeEnd(s, out, false, true);
    } else {
      assert s[p..][0] == s[p];
      FrontOfUnescape(s[p..]);
      var f := Front(s[p..], false, true);
      DecodeStep(s, p, out, false, true);
      DecodeUnescapes(s, p + f.used, out + f.bytes);
      assert s[p..][f.used..] == s[p + f.used..];
    }
  }

  /** Reading a text in which every ampersand begins an entity replaces each of them by its character. */
  lemma DecodeIsUnescape(s: string)
    requires OnlyEntities(s)
    ensures Decode(s, false, true) == Unescape(s)
  {
    hide Unescape, DecodeFrom;
    DecodeUnescapes(s, 0, "");
    assert s[0..] == s;
  }

  /** An ampersand that begins nothing is not copied, so behind an entity it does not survive. */
  lemma StrayAmpersand()
    ensures Decode("&lt;&x", true, true) == "<lx"
  {
    var s := "&lt;&x";
    hide DecodeFrom, Front;
    FrontOfEntity(s, true);
    StrayFront("&x", true);
    OtherFront("x", true);
    assert s[0..] == s && Begins(s, "&lt;") && s[4..] == "&x" && s[5..] == "x" && s[1] == 'l';
    DecodeStep(s, 0, "", true, true);
    assert "" + "<" == "<" && "<" + ['l'] == "<l" && "<l" + "x" == "<lx";
    DecodeStep(s, 4, "<", true, true);
    DecodeStep(s, 5, "<l", true, true);
    DecodeEnd(s, "<lx", true, true);
  }

  lemma StrayFront(s: string, newline: bool)
    requires s != "" && s[0] == '&' && ByteAt(s, 1) != '#' && !BeginsEntity(s)
    ensures Front(s, newline, true) == Keep
  {
    NamesEntity(s, "lt;");
    NamesEntity(s, "gt;");
    NamesEntity(s, "amp;");
    NamesEntity(s, "quot;");
    NamesEntity(s, "apos;");
  }

  lemma NamesEntity(s: string, name: string)
    requires s != "" && s[0] == '&'
    ensures StartsWith(s[1..], name) ==> Begins(s, "&" + name)
  {
    if StartsWith(s[1..], name) {
      assert s[1..][..|name|] == name;
      assert s[..|name| + 1] == [s[0]] + s[1..][..|name|];
    }
  }

  lemma OtherFront(s: string, newline: bool)
    requires s != "" && s[0] != '&' && s[0] != '\r' && s[0] != '\n'
    ensures Front(s, newline, true) == Piece([s[0]], 1)
  {
  }

  /** How much the entity takes that a text begins with; nothing if it begins with none. */
  function EntityLength(s: string): nat {
    if Begins(s, "&lt;") || Begins(s, "&gt;") then 4
    else if Begins(s, "&amp;") then 5
    else if Begins(s, "&quot;") || Begins(s, "&apos;") then 6
    else 0
  }

  /** With `p` bytes read and `q` written, each ampersand to come that begins no entity meets one at the place where it
      would have to be copied to. */
  predicate StraysSurvive(s: string, p: nat, q: nat)
    requires q <= p <= |s|
    decreases |s| - p
  {
    p == |s| ||
    (EntityBounds(s[p..]);
     var n := EntityLength(s[p..]);
     if n > 0 then StraysSurvive(s, p + n, q + 1)
     else (s[p] == '&' ==> s[q] == '&') && StraysSurvive(s, p + 1, q + 1))
  }

  lemma EntityBounds(s: string)
    ensures EntityLength(s) <= |s| && (EntityLength(s) > 0 <==> BeginsEntity(s))
  {
  }

  lemma SurvivesStep(s: string, p: nat, q: nat)
    requires q <= p < |s|
    ensures EntityLength(s[p..]) <= |s| - p
    ensures var n := EntityLength(s[p..]);
      StraysSurvive(s, p, q) <==>
        if n > 0 then StraysSurvive(s, p + n, q + 1)
        else (s[p] == '&' ==> s[q] == '&') && StraysSurvive(s, p + 1, q + 1)
  {
    hide EntityLength;
    EntityBounds(s[p..]);
  }

  lemma UnescapeStep(s: string)
    requires s != ""
    ensures EntityLength(s) <= |s|
    ensures EntityLength(s) == 0 ==> Unescape(s) == [s[0]] + Unescape(s[1..])
    ensures EntityLength(s) > 0 ==> exists c ::
      Front(s, false, true) == Piece([c], EntityLength(s)) && Unescape(s) == [c] + Unescape(s[EntityLength(s)..])
  {
    FrontOfEntity(s, false);
    hide Front, Begins;
    assert EntityLength(s) > 0 ==> Front(s, false, true).Piece? && |Front(s, false, true).bytes| == 1;
    if EntityLength(s) > 0 {
      var c := Front(s, false, true).bytes[0];
      assert Front(s, false, true) == Piece([c], EntityLength(s)) by { EntityBounds(s); }
    }
  }

  /** No ampersand is followed by the mark of a character reference. */
  ghost predicate NoReference(s: string) {
    forall i {:trigger ByteAt(s, i + 1)} :: 0 <= i < |s| && s[i] == '&' ==> ByteAt(s, i + 1) != '#'
  }

  lemma NoReferenceAt(s: string, p: nat)
    requires NoReference(s) && p < |s| && s[p] == '&'
    ensures ByteAt(s[p..], 1) != '#'
  {
    assert ByteAt(s[p..], 1) == ByteAt(s, p + 1);
  }

  lemma {:induction false} SurvivingIff(s: string, p: nat, out: string)
    requires |out| <= p <= |s|
    requires NoReference(s)
    ensures DecodeFrom(s, p, out, false, true) == out + Unescape(s[p..]) <==> StraysSurvive(s, p, |out|)
    decreases |s| - p
  {
    hide Front, Unescape, DecodeFrom, EntityLength, StraysSurvive, NoReference;
    if p == |s| {
      Nothing(false);
      DecodeEnd(s, out, false, true);
      NoneLeft(s, |out|);
    } else {
      var rest := s[p..];
      assert rest[0] == s[p] && rest[1..] == s[p + 1..];
      if s[p] == '&' { NoReferenceAt(s, p); }
      UnescapeStep(rest);
      DecodeStep(s, p, out, false, true);
      SurvivesStep(s, p, |out|);
      var n := EntityLength(rest);
      if n > 0 {
        var c :| Front(rest, false, true) == Piece([c], n) && Unescape(rest) == [c] + Unescape(rest[n..]);
        SurvivingIff(s, p + n, out + [c]);
        assert rest[n..] == s[p + n..];
        assert out + [c] + Unescape(s[p + n..]) == out + Unescape(rest);
      } else {
        var c := if s[p] == '&' then s[|out|] else s[p];
        NextByte(s, p, out);
        SurvivingIff(s, p + 1, out + [c]);
        DecodedStays(s, p + 1, out + [c], false, true);
        assert out + [s[p]] + Unescape(s[p + 1..]) == out + Unescape(rest);
        assert (out + Unescape(rest))[|out|] == s[p];
      }
    }
  }

  lemma NoneLeft(s: string, q: nat)
    requires q <= |s|
    ensures StraysSurvive(s, |s|, q)
  {
  }

  lemma NextByte(s: string, p: nat, out: string)
    requires |out| <= p < |s| && EntityLength(s[p..]) == 0 && (s[p] == '&' ==> ByteAt(s[p..], 1) != '#')
    ensures DecodeFrom(s, p, out, false, true) ==
      DecodeFrom(s, p + 1, out + [if s[p] == '&' then s[|out|] else s[p]], false, true)
  {
    hide Front, DecodeFrom;
    EntityBounds(s[p..]);
    DecodeStep(s, p, out, false, true);
    if s[p] == '&' { StrayFront(s[p..], false); } else { PlainFront(s[p..]); }
  }

  lemma PlainFront(s: string)
    requires s != "" && s[0] != '&'
    ensures Front(s, false, true) == Piece([s[0]], 1)
  {
  }

  /** Reading a text without character references replaces the entities, and them alone, if and only if each ampersand
      that begins no entity finds an ampersand at the place of the text that has been written up to. */
  lemma DecodeIsUnescapeIff(s: string)
    requires NoReference(s)
    ensures Decode(s, false, true) == Unescape(s) <==> StraysSurvive(s, 0, 0)
  {
    hide Unescape, DecodeFrom, StraysSurvive, NoReference;
    SurvivingIff(s, 0, "");
    assert s[0..] == s;
    assert "" + Unescape(s) == Unescape(s);
  }

  // ---------------------------------------------------------------------------------------------------------
  // What only looks like a character reference

  /** There is no semicolon, or a character that is neither a digit nor the mark stands between the last mark and it. */
  predicate Malformed(body: string, a: string, c: char, ds: string, more: string) {
    var hex := "x" <= body;
    var digits := if hex then "0123456789abcdefABCDEF" else "0123456789";
    && body != "" && (forall x :: x in a + [c] + ds ==> x != ';' && x != '\0')
    && ((body == a + [c] + ds && more == "") ||
        (body == a + [c] + ds + ";" + more && (hex ==> "x" <= a) &&
         c !in digits && c != (if hex then 'x' else '#') && forall x :: x in ds ==> x in digits))
  }

  lemma {:induction false} SemicolonIs(s: string, i: nat, q: nat)
    requires i <= q <= |s| && forall k :: i <= k < q ==> s[k] != ';' && s[k] != '\0'
    requires q < |s| ==> s[q] == ';'
    ensures FindSemicolon(s, i) == if q < |s| then q else -1
    decreases q - i
  {
    if i < q { SemicolonIs(s, i + 1, q); }
  }

  lemma {:induction false} BackwardStops(s: string, q: nat, k: nat, mark: char, base: nat, mult: nat, ucs: nat)
    requires k <= q < |s| && (exists i :: 0 <= i <= q && s[i] == mark)
    requires s[k] != mark && Digit(s[k], base) < 0
    requires forall i :: k < i <= q ==> s[i] != mark && Digit(s[i], base) >= 0
    ensures Backward(s, q, mark, base, mult, ucs) == -1
    decreases q
  {
    if q > k {
      var i :| 0 <= i <= q && s[i] == mark;
      assert i < k;
      BackwardStops(s, q - 1, k, mark, base, mult * base % TWO_32,
        (ucs + mult * Digit(s[q], base) % TWO_32) % TWO_64);
    }
  }

  lemma IsDigit(x: char)
    ensures Digit(x, 16) >= 0 <==> x in "0123456789abcdefABCDEF"
    ensures Digit(x, 10) >= 0 <==> x in "0123456789"
    ensures Digit('x', 16) < 0 && Digit('#', 10) < 0
  {
    AllDigits(x);
    var s := "0123456789";
    if '0' <= x <= '9' { assert s[x as int - '0' as int] == x; }
  }

  /** Where things stand in such a text. */
  lemma MalformedPlaces(body: string, a: string, c: char, ds: string, more: string)
    requires Malformed(body, a, c, ds, more)
    ensures var s, text := "&#" + body, a + [c] + ds;
      && (forall i :: 2 <= i < 2 + |text| ==> i < |s| && s[i] == text[i - 2] && s[i] != ';' && s[i] != '\0')
      && (body == text ==> |s| == 2 + |text|)
      && (body != text ==> 2 + |text| < |s| && s[2 + |text|] == ';')
      && s[1] == '#' && s[2] == body[0] && (s[2] == 'x' <==> "x" <= body)
  {
    var s, text := "&#" + body, a + [c] + ds;
    forall i | 2 <= i < 2 + |text| ensures i < |s| && s[i] == text[i - 2] && s[i] != ';' && s[i] != '\0' {
      assert s[i] == body[i - 2] && text[i - 2] in text;
    }
    if body != text { assert body[|text|] == ';'; }
  }

  lemma DigitsBehind(body: string, a: string, c: char, ds: string, more: string)
    requires Malformed(body, a, c, ds, more) && body != a + [c] + ds
    ensures var s, hex, k := "&#" + body, "x" <= body, 2 + |a|;
      && k < 2 + |a + [c] + ds| < |s|
      && s[k] != (if hex then 'x' else '#') && Digit(s[k], if hex then 16 else 10) < 0
      && forall i :: k < i < 2 + |a + [c] + ds| ==>
           s[i] != (if hex then 'x' else '#') && Digit(s[i], if hex then 16 else 10) >= 0
  {
    hide Digit;
    MalformedPlaces(body, a, c, ds, more);
    var s, hex, k, text := "&#" + body, "x" <= body, 2 + |a|, a + [c] + ds;
    assert s[k] == text[|a|] == c;
    IsDigit(c);
    forall i | k < i < 2 + |text|
      ensures s[i] != (if hex then 'x' else '#') && Digit(s[i], if hex then 16 else 10) >= 0
    {
      assert s[i] == text[i - 2] == ds[i - k - 1] && ds[i - k - 1] in ds;
      IsDigit(s[i]);
    }
  }

  lemma NotAReference(body: string, a: string, c: char, ds: string, more: string)
    requires Malformed(body, a, c, ds, more)
    ensures GetCharacterRef("&#" + body) == NotARef
  {
    hide Backward, Digit, Utf8, FindSemicolon;
    var s, hex := "&#" + body, "x" <= body;
    var first, q := if hex then 3 else 2, 2 + |a + [c] + ds|;
    MalformedPlaces(body, a, c, ds, more);
    if body == a + [c] + ds {
      if first < |s| { SemicolonIs(s, first, q); }
    } else {
      DigitsBehind(body, a, c, ds, more);
      SemicolonIs(s, first, q);
      assert s[first - 1] == if hex then 'x' else '#';
      hide Malformed;
      if hex {
        BackwardStops(s, q - 1, 2 + |a|, 'x', 16, 1, 0);
      } else {
        BackwardStops(s, q - 1, 2 + |a|, '#', 10, 1, 0);
      }
    }
  }

  /** What is not a character reference is kept as it is written. */
  lemma MalformedIsKept(pre: string, body: string, a: string, c: char, ds: string, more: string, newline: bool)
    requires forall x :: x in pre ==> x != '&' && x != '\r' && x != '\n'
    requires Malformed(body, a, c, ds, more)
    ensures pre + "&#" <= Decode(pre + ("&#" + body), newline, true)
  {
    hide DecodeFrom, GetCharacterRef;
    var s, p := pre + ("&#" + body), |pre|;
    NotAReference(body, a, c, ds, more);
    assert s[..p] == pre && s[p..] == "&#" + body && s[p + 1..] == "#" + body && s[..0] == "";
    DecodePlain(s, 0, p, newline);
    DecodeStep(s, p, pre, newline, true);
    assert Front("&#" + body, newline, true) == Piece("&", 1);
    OtherFront("#" + body, newline);
    DecodeStep(s, p + 1, pre + "&", newline, true);
    assert pre + "&" + "#" == pre + "&#";
    DecodedStays(s, p + 2, pre + "&#", newline, true);
  }

  /** A reference without digits is one to the number zero. */
  lemma EmptyReference(rest: string)
    ensures GetCharacterRef("&#;" + rest) == Ref(['\0'], 3)
    ensures GetCharacterRef("&#x;" + rest) == Ref(['\0'], 4)
  {
    SemicolonIs("&#;" + rest, 2, 2);
    SemicolonIs("&#x;" + rest, 3, 3);
    assert ("&#;" + rest)[1] == '#' && ("&#x;" + rest)[2] == 'x';
  }

  /** Of a bare mark at the end of the text the ampersand goes. */
  lemma BareReference(pre: string, newline: bool)
    requires forall x :: x in pre ==> x != '&' && x != '\r' && x != '\n'
    ensures Decode(pre + "&#", newline, true) == pre + "#"
  {
    hide DecodeFrom;
    var s, p := pre + "&#", |pre|;
    assert s[..p] == pre && s[p..] == "&#" && s[p + 1..] == "#" && s[..0] == "";
    DecodePlain(s, 0, p, newline);
    DecodeStep(s, p, pre, newline, true);
    assert Front("&#", newline, true) == Piece("", 1);
    OtherFront("#", newline);
    assert pre + "" == pre;
    DecodeStep(s, p + 1, pre, newline, true);
    DecodeEnd(s, pre + "#", newline, true);
  }

  // ---------------------------------------------------------------------------------------------------------
  // Digits and bytes

  /** The digits of both bases, in order. */
  lemma DigitIs(c: char, i: nat)
    requires i < 16
    ensures Digit("0123456789abcdef"[i], 16) == i == Digit("0123456789ABCDEF"[i], 16)
    ensures Digit("0123456789abcdef"[i], 10) == if i < 10 then i else -1
    ensures c !in "0123456789abcdefABCDEF" ==> Digit(c, 16) == Digit(c, 10) == -1
  {
    assert c in "0123456789abcdefABCDEF" <==> '0' <= c <= '9' || 'a' <= c <= 'f' || 'A' <= c <= 'F' by {
      AllDigits(c);
    }
  }

  lemma AllDigits(c: char)
    ensures c in "0123456789abcdefABCDEF" <==> '0' <= c <= '9' || 'a' <= c <= 'f' || 'A' <= c <= 'F'
  {
    var s := "0123456789abcdefABCDEF";
    if '0' <= c <= '9' { assert s[c as int - '0' as int] == c; }
    if 'a' <= c <= 'f' { assert s[c as int - 'a' as int + 10] == c; }
    if 'A' <= c <= 'F' { assert s[c as int - 'A' as int + 16] == c; }
  }

  /** The examples of section 7 of RFC 3629. */
  lemma Utf8Is()
    ensures Utf8(0x41) == ['\U{41}']
    ensures Utf8(0x391) == ['\U{CE}', '\U{91}']
    ensures Utf8(0x2262) == ['\U{E2}', '\U{89}', '\U{A2}']
    ensures Utf8(0x233B4) == ['\U{F0}', '\U{A3}', '\U{8E}', '\U{B4}']
  {
  }
}
