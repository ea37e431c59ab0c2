/** Decoding undoes escaping, up to the normalization of line ends. */
module XmlRoundTrip {
  import opened XmlText

  /** Line ends as the parser normalizes them: CR, CR LF and LF CR all become LF. */
  function Normalized(t: string): string {
    if t == "" then ""
    else if t[0] == CR then [LF] + Normalized(if ByteAt(t, 1) == LF then t[2..] else t[1..])
    else if t[0] == LF then [LF] + Normalized(if ByteAt(t, 1) == CR then t[2..] else t[1..])
    else [t[0]] + Normalized(t[1..])
  }

  lemma {:induction false} NormalizedIff(t: string)
    ensures Normalized(t) == t <==> CR !in t
    ensures CR !in Normalized(t)
    decreases |t|
  {
    if t != "" {
      NormalizedIff(t[1..]);
      if |t| > 1 { NormalizedIff(t[2..]); }
      assert t == [t[0]] + t[1..];
      if CR !in t { assert forall c :: c in t[1..] ==> c in t; }
    }
  }

  /** The first line end of a text, of one character or two, becomes a single line feed. */
  lemma LineEndsAre(line: string, end: string, rest: string)
    requires '\r' !in line && '\n' !in line
    requires end in {"\r\n", "\n\r", "\r", "\n"}
    requires end == "\r" ==> !("\n" <= rest)
    requires end == "\n" ==> !("\r" <= rest)
    ensures Normalized(line + (end + rest)) == line + ("\n" + Normalized(rest))
    ensures Normalized(line) == line
  {
    hide Normalized;
    LineEndFirst(end, rest);
    LineStays(line, end + rest);
    LineStays(line, "");
    assert line + "" == line;
  }

  lemma {:induction false} LineStays(line: string, more: string)
    requires '\r' !in line && '\n' !in line
    ensures Normalized(line + more) == line + Normalized(more)
    decreases |line|
  {
    if line == "" {
      assert line + more == more;
    } else {
      assert line[0] in line && forall c :: c in line[1..] ==> c in line;
      assert (line + more)[1..] == line[1..] + more;
      LineStays(line[1..], more);
    }
  }

  lemma LineEndFirst(end: string, rest: string)
    requires end in {"\r\n", "\n\r", "\r", "\n"}
    requires end == "\r" ==> !("\n" <= rest)
    requires end == "\n" ==> !("\r" <= rest)
    ensures Normalized(end + rest) == "\n" + Normalized(rest)
    ensures Normalized("") == ""
  {
    assert (end + rest)[|end|..] == rest;
    assert |end| == 1 && rest != "" ==> [rest[0]] <= rest;
    assert |end| == 2 ==> (end + rest)[1] == end[1];
  }

  lemma FrontOfEscaped(c: char, rest: string, restricted: bool)
    requires c != CR && c != LF
    ensures EscapeChar(c, restricted) != ""
    ensures Front(EscapeChar(c, restricted) + rest, true, true) == Piece([c], |EscapeChar(c, restricted)|)
  {
    var s := EscapeChar(c, restricted) + rest;
    if Flagged(c, restricted) {
      assert s[1..] == Pattern(c) + ";" + rest;
      EntityOfPattern(c, s);
    }
  }

  lemma EntityOfPattern(c: char, s: string)
    requires Pattern(c) != "" && s != "" && StartsWith(s[1..], Pattern(c) + ";")
    ensures EntityAt(s) == c && s[1] != '#'
  {
    var u := s[1..];
    assert u[0] == Pattern(c)[0] && u[1] == (Pattern(c) + ";")[1];
  }

  lemma FrontOfLineEnd(t: string, restricted: bool)
    requires t != "" && (t[0] == CR || t[0] == LF)
    ensures Escape(t, restricted)[..1] == t[..1] && Escape(t, restricted)[1..] == Escape(t[1..], restricted)
    ensures Front(Escape(t, restricted), true, true) ==
      Piece([LF], if ByteAt(t, 1) == (if t[0] == CR then LF else CR) then 2 else 1)
  {
    if |t| > 1 {
      assert Escape(t[1..], restricted) == EscapeChar(t[1], restricted) + Escape(t[2..], restricted);
    }
  }

  lemma {:induction false} DecodeEscapedFrom(pre: string, t: string, out: string, restricted: bool)
    requires |out| <= |pre|
    ensures DecodeFrom(pre + Escape(t, restricted), |pre|, out, true, true) == out + Normalized(t)
    decreases |t|
  {
    hide Front, EscapeChar, Escape, DecodeFrom;
    var s := pre + Escape(t, restricted);
    EscapeSplit(t, restricted);
    if t == "" {
      assert s == pre;
      DecodeEnd(s, out, true, true);
    } else {
      var eol := t[0] == CR || t[0] == LF;
      var n := if eol && ByteAt(t, 1) == (if t[0] == CR then LF else CR) then 2 else 1;
      var e := if eol then t[..n] else EscapeChar(t[0], restricted);
      var c := if eol then LF else t[0];
      if eol {
        FrontOfLineEnd(t, restricted);
        EscapeLineEnds(t, n, restricted);
      } else {
        FrontOfEscaped(c, Escape(t[1..], restricted), restricted);
      }
      Regroup(pre, e, Escape(t[n..], restricted));
      DecodeStep(s, |pre|, out, true, true);
      DecodeEscapedFrom(pre + e, t[n..], out + [c], restricted);
      Regroup(out, [c], Normalized(t[n..]));
    }
  }

  lemma Regroup(a: string, b: string, c: string)
    ensures a + (b + c) == a + b + c
    ensures (a + (b + c))[|a|..] == b + c
  {
  }

  lemma EscapeSplit(t: string, restricted: bool)
    ensures t == "" ==> Escape(t, restricted) == ""
    ensures t != "" ==> Escape(t, restricted) == EscapeChar(t[0], restricted) + Escape(t[1..], restricted)
  {
  }

  lemma EscapeLineEnds(t: string, n: nat, restricted: bool)
    requires n <= |t| && n <= 2 && forall i :: 0 <= i < n ==> t[i] == CR || t[i] == LF
    ensures Escape(t, restricted) == t[..n] + Escape(t[n..], restricted)
  {
    EscapeAppend(t[..n], t[n..], restricted);
    assert t == t[..n] + t[n..];
    EscapePlain(t[..n], restricted);
  }

  /** Whatever is printed is read back with its line ends normalized. */
  lemma DecodeEscape(t: string, restricted: bool)
    ensures Decode(Escape(t, restricted), true, true) == Normalized(t)
  {
    DecodeEscapedFrom("", t, "", restricted);
    assert "" + Escape(t, restricted) == Escape(t, restricted) && "" + Normalized(t) == Normalized(t);
  }

  /** Escaping and decoding give a text back exactly when it is free of CR, with either entity set. */
  lemma RoundTrip(t: string, restricted: bool)
    ensures Decode(Escape(t, restricted), true, true) == t <==> '\r' !in t
  {
    DecodeEscape(t, restricted);
    NormalizedIff(t);
  }

  lemma FrontVerbatim(t: string)
    requires t != ""
    ensures var f := Front(t, true, false);
            f.Piece? && 1 <= f.used <= |t| && Normalized(t) == f.bytes + Normalized(t[f.used..])
  {
  }

  lemma {:induction false} DecodeVerbatimFrom(s: string, p: nat, out: string)
    requires |out| <= p <= |s|
    ensures DecodeFrom(s, p, out, true, false) == out + Normalized(s[p..])
    decreases |s| - p
  {
    if p == |s| {
      assert s[p..] == "";
    } else {
      FrontVerbatim(s[p..]);
      var f := Front(s[p..], true, false);
      hide Front;
      DecodeVerbatimFrom(s, p + f.used, out + f.bytes);
      assert s[p..][f.used..] == s[p + f.used..];
      Regroup(out, f.bytes, Normalized(s[p + f.used..]));
    }
  }

  /** Text that is not escaped (comments, CDATA and the like) comes back likewise. */
  lemma VerbatimRoundTrip(s: string)
    ensures Decode(s, true, false) == s <==> '\r' !in s
  {
    DecodeVerbatimFrom(s, 0, "");
    assert s[0..] == s && "" + Normalized(s) == Normalized(s);
    NormalizedIff(s);
  }
}
