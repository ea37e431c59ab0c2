/** Text in and out of Project/Public/tinyxml2/tinyxml2.cpp: escaping on output, and the in-place decoding of entities,
    character references and line ends on input.  A `string` stands for C text without its terminator, one `char` per
    byte. */
module XmlText {

  const LF: char := '\n'
  const CR: char := '\r'

  /** The byte at an index, where the terminator stands just behind the text. */
  function ByteAt(s: string, i: nat): char {
    if i < |s| then s[i] else '\0'
  }

  predicate StartsWith(s: string, t: string) {
    |t| <= |s| && forall i :: 0 <= i < |t| ==> s[i] == t[i]
  }

  // ---------------------------------------------------------------------------------------------------------
  // Escaping

  /** The entity table. */
  function Pattern(c: char): string {
    if c == '"' then "quot"
    else if c == '&' then "amp"
    else if c == '\'' then "apos"
    else if c == '<' then "lt"
    else if c == '>' then "gt"
    else ""
  }

  /** Which characters are written as entities: all five, or in text only those of markup. */
  predicate Flagged(c: char, restricted: bool) {
    if restricted then c == '&' || c == '<' || c == '>' else Pattern(c) != ""
  }

  function EscapeChar(c: char, restricted: bool): string {
    if Flagged(c, restricted) then "&" + Pattern(c) + ";" else [c]
  }

  function Escape(s: string, restricted: bool): string {
    if s == "" then "" else EscapeChar(s[0], restricted) + Escape(s[1..], restricted)
  }

  lemma {:induction false} EscapeAppend(a: string, b: string, restricted: bool)
    ensures Escape(a + b, restricted) == Escape(a, restricted) + Escape(b, restricted)
  {
    hide EscapeChar;
    if a == "" {
      assert a + b == b;
    } else {
      EscapeAppend(a[1..], b, restricted);
      assert (a + b)[1..] == a[1..] + b && (a + b)[0] == a[0];
      EscapeFirst(a, restricted);
      EscapeFirst(a + b, restricted);
      hide Escape;
    }
  }

  lemma EscapeFirst(s: string, restricted: bool)
    requires s != ""
    ensures Escape(s, restricted) == EscapeChar(s[0], restricted) + Escape(s[1..], restricted)
  {
    hide EscapeChar;
  }

  lemma {:induction false} EscapePlain(s: string, restricted: bool)
    requires forall c :: c in s ==> !Flagged(c, restricted)
    ensures Escape(s, restricted) == s
  {
    if s != "" {
      EscapePlain(s[1..], restricted);
    }
  }

  /** `PrintString`: runs of ordinary bytes are flushed in one piece, flagged bytes as entities. */
  method PrintString(buffer: string, text: string, restricted: bool) returns (out: string)
    ensures out == buffer + Escape(text, restricted)
  {
    hide Escape, Flagged, Pattern;
    out := buffer;
    var p, q := 0, 0;
    EscapePlain("", restricted);
    while q < |text|
      invariant p <= q <= |text|
      invariant out == buffer + Escape(text[..p], restricted)
      invariant forall c :: c in text[p..q] ==> !Flagged(c, restricted)
    {
      if Flagged(text[q], restricted) {
        EscapeRun(text, p, q, restricted);
        out := out + text[p..q];
        out := out + ("&" + Pattern(text[q]) + ";");
        p := q + 1;
      } else {
        assert text[p..q + 1] == text[p..q] + [text[q]];
      }
      q := q + 1;
    }
    EscapePlain(text[p..], restricted);
    EscapeAppend(text[..p], text[p..], restricted);
    assert text == text[..p] + text[p..];
    out := out + text[p..];
  }

  lemma EscapeRun(text: string, p: nat, q: nat, restricted: bool)
    requires p <= q < |text| && Flagged(text[q], restricted)
    requires forall c :: c in text[p..q] ==> !Flagged(c, restricted)
    ensures Escape(text[..q + 1], restricted) ==
      Escape(text[..p], restricted) + text[p..q] + ("&" + Pattern(text[q]) + ";")
  {
    hide Escape, Flagged, EscapeChar;
    EscapePlain(text[p..q], restricted);
    EscapeAppend(text[..p], text[p..q], restricted);
    assert text[..q] == text[..p] + text[p..q];
    EscapeAppend(text[..q], [text[q]], restricted);
    assert text[..q + 1] == text[..q] + [text[q]];
    EscapeOne(text[q], restricted);
  }

  lemma EscapeOne(c: char, restricted: bool)
    ensures Escape([c], restricted) == EscapeChar(c, restricted)
    ensures Flagged(c, restricted) ==> EscapeChar(c, restricted) == "&" + Pattern(c) + ";"
  {
    assert [c][1..] == "";
  }

  // ---------------------------------------------------------------------------------------------------------
  // Character references

  /** `ConvertUTF32ToUTF8`: the bytes of a code, or none when it needs more than 21 bits. */
  function Utf8(code: nat): (bytes: string)
    ensures |bytes| <= 4
  {
    if code < 0x80 then [code as char]
    else if code < 0x800 then [(0xC0 + code / 0x40) as char, (0x80 + code % 0x40) as char]
    else if code < 0x1_0000 then
      [(0xE0 + code / 0x1000) as char, (0x80 + code / 0x40 % 0x40) as char, (0x80 + code % 0x40) as char]
    else if code < 0x20_0000 then
      [(0xF0 + code / 0x4_0000) as char, (0x80 + code / 0x1000 % 0x40) as char, (0x80 + code / 0x40 % 0x40) as char,
       (0x80 + code % 0x40) as char]
    else ""
  }

  predicate Continuation(c: char) { 0x80 <= c as int < 0xC0 }

  function Low6(c: char): nat { c as int % 0x40 }

  /** Reading one character back by the table of section 3 of RFC 3629. */
  function FromUtf8(b: string): int {
    if |b| == 1 && b[0] as int < 0x80 then b[0] as int
    else if |b| == 2 && 0xC0 <= b[0] as int < 0xE0 && Continuation(b[1]) then
      (b[0] as int - 0xC0) * 0x40 + Low6(b[1])
    else if |b| == 3 && 0xE0 <= b[0] as int < 0xF0 && Continuation(b[1]) && Continuation(b[2]) then
      (b[0] as int - 0xE0) * 0x1000 + Low6(b[1]) * 0x40 + Low6(b[2])
    else if |b| == 4 && 0xF0 <= b[0] as int < 0xF8 && Continuation(b[1]) && Continuation(b[2]) &&
      Continuation(b[3]) then
      (b[0] as int - 0xF0) * 0x4_0000 + Low6(b[1]) * 0x1000 + Low6(b[2]) * 0x40 + Low6(b[3])
    else -1
  }

  /** The bytes are those of section 3 of RFC 3629, and no shorter form would do. */
  lemma Utf8RoundTrip(code: nat)
    requires code < 0x20_0000
    ensures FromUtf8(Utf8(code)) == code
    ensures |Utf8(code)| == 2 ==> code >= 0x80
    ensures |Utf8(code)| == 3 ==> code >= 0x800
    ensures |Utf8(code)| == 4 ==> code >= 0x1_0000
  {
    SixBits(code);
    if code >= 0x1_0000 {
      FourBytes(code);
    } else if code >= 0x800 {
      ThreeBytes(code);
    }
  }

  /** The bits of a code in sixes. */
  lemma SixBits(code: nat)
    ensures code == code / 0x40 * 0x40 + code % 0x40
    ensures code / 0x40 == code / 0x1000 * 0x40 + code / 0x40 % 0x40
    ensures code / 0x1000 == code / 0x4_0000 * 0x40 + code / 0x1000 % 0x40
  {
  }

  lemma ThreeBytes(code: nat)
    requires 0x800 <= code < 0x1_0000
    ensures FromUtf8(Utf8(code)) == code
  {
    SixBits(code);
  }

  lemma FourBytes(code: nat)
    requires 0x1_0000 <= code < 0x20_0000
    ensures FromUtf8(Utf8(code)) == code
  {
    SixBits(code);
  }

  /** The shortest form of a code is the only one. */
  lemma Utf8IsUnique(b: string)
    requires FromUtf8(b) >= if |b| <= 1 then 0 else if |b| == 2 then 0x80 else if |b| == 3 then 0x800 else 0x1_0000
    ensures Utf8(FromUtf8(b)) == b
  {
    if |b| == 3 {
      ThreeAreUnique(b);
    } else if |b| == 4 {
      FourAreUnique(b);
    }
  }

  lemma ThreeAreUnique(b: string)
    requires |b| == 3 && FromUtf8(b) >= 0x800
    ensures Utf8(FromUtf8(b)) == b
  {
    Sixes(b[0] as int - 0xE0, Low6(b[1]), Low6(b[2]));
  }

  lemma FourAreUnique(b: string)
    requires |b| == 4 && FromUtf8(b) >= 0x1_0000
    ensures Utf8(FromUtf8(b)) == b
  {
    var code := FromUtf8(b);
    Sixes(b[0] as int - 0xF0, Low6(b[1]), Low6(b[2]));
    Sixes((b[0] as int - 0xF0) * 0x40 + Low6(b[1]), Low6(b[2]), Low6(b[3]));
    assert code / 0x4_0000 == b[0] as int - 0xF0;
    assert Utf8(code)[0] == b[0] && Utf8(code)[1] == b[1];
  }

  lemma Sixes(x: nat, y: nat, z: nat)
    requires y < 0x40 && z < 0x40
    ensures (x * 0x1000 + y * 0x40 + z) / 0x1000 == x
    ensures (x * 0x1000 + y * 0x40 + z) / 0x40 == x * 0x40 + y && (x * 0x40 + y) % 0x40 == y
    ensures (x * 0x1000 + y * 0x40 + z) % 0x40 == z
  {
  }

  function Digit(c: char, base: nat): int {
    var d := if '0' <= c <= '9' then c as int - '0' as int
             else if 'a' <= c <= 'f' then c as int - 'a' as int + 10
             else if 'A' <= c <= 'F' then c as int - 'A' as int + 10
             else -1;
    if d < base then d else -1
  }

  const TWO_32 := 0x1_0000_0000
  const TWO_64 := 0x1_0000_0000_0000_0000

  /** The digits from `q` back to the mark, least significant first, in 32-bit factors and a 64-bit sum; -1 if there
      is anything but digits. */
  function Backward(s: string, q: nat, mark: char, base: nat, mult: nat, ucs: nat): int
    requires q < |s| && exists i :: 0 <= i <= q && s[i] == mark
    decreases q
  {
    if s[q] == mark then ucs
    else
      var d := Digit(s[q], base);
      if d < 0 then -1
      else Backward(s, q - 1, mark, base, mult * base % TWO_32, (ucs + mult * d % TWO_32) % TWO_64)
  }

  /** `strchr` for the semicolon; -1 when the text ends first. */
  function FindSemicolon(s: string, i: nat): (r: int)
    ensures r == -1 || (i <= r < |s| && s[r] == ';')
    decreases |s| - i
  {
    if i >= |s| || s[i] == '\0' then -1 else if s[i] == ';' then i else FindSemicolon(s, i + 1)
  }

  datatype CharRef = NotARef | Ref(bytes: string, used: nat)

  /** `GetCharacterRef`, for text that begins with `&#`. */
  function GetCharacterRef(s: string): (r: CharRef)
    requires |s| >= 2 && s[1] == '#'
    ensures r.Ref? ==> 1 <= r.used <= |s| && |r.bytes| <= r.used
  {
    if ByteAt(s, 2) == '\0' then Ref("", 1)
    else
      var hex := s[2] == 'x';
      var first := if hex then 3 else 2;
      var q := if ByteAt(s, first) == '\0' then -1 else FindSemicolon(s, first);
      if q < 0 then NotARef
      else
        var ucs := if hex then Backward(s, q - 1, 'x', 16, 1, 0) else Backward(s, q - 1, '#', 10, 1, 0);
        if ucs < 0 then NotARef else Ref(Utf8(ucs), q + 1)
  }

  predicate Digits(ds: string, base: nat) {
    forall c :: c in ds ==> Digit(c, base) >= 0
  }

  /** The number a string of digits denotes. */
  function Value(ds: string, base: nat): nat
    requires Digits(ds, base)
  {
    if ds == "" then 0 else Value(ds[..|ds| - 1], base) * base + Digit(ds[|ds| - 1], base)
  }

  function Times(m: nat, v: nat): nat { m * v }

  /** As long as the number fits into 32 bits, the wrapping sum is exact, however many leading zeros there are. */
  lemma {:induction false} BackwardIsValue(s: string, a: nat, q: nat, mark: char, base: nat, m: nat, ucs: nat)
    requires a <= q < |s| && s[a] == mark && Digits(s[a + 1..q + 1], base) && Digit(mark, base) < 0 && base > 0
    requires Times(m, Value(s[a + 1..q + 1], base)) < TWO_32 && ucs + Times(m, Value(s[a + 1..q + 1], base)) < TWO_64
    ensures Backward(s, q, mark, base, m % TWO_32, ucs) == ucs + Times(m, Value(s[a + 1..q + 1], base))
    decreases q
  {
    hide Value, Digit, Times, Backward, Digits;
    LastDigit(s, a, q, base);
    TimesZero(m);
    BackwardStep(s, q, mark, base, m % TWO_32, ucs, a);
    if q > a {
      var d := Digit(s[q], base);
      OneDigit(m, base, Value(s[a + 1..q], base), d);
      BackwardIsValue(s, a, q - 1, mark, base, Times(m, base), ucs + Times(m, d));
    }
  }

  lemma BackwardStep(s: string, q: nat, mark: char, base: nat, mult: nat, ucs: nat, a: nat)
    requires a <= q < |s| && s[a] == mark && Digit(mark, base) < 0 && (q > a ==> Digit(s[q], base) >= 0)
    ensures q == a ==> Backward(s, q, mark, base, mult, ucs) == ucs
    ensures q > a ==>
      Backward(s, q, mark, base, mult, ucs)
        == Backward(s, q - 1, mark, base, mult * base % TWO_32, (ucs + mult * Digit(s[q], base) % TWO_32) % TWO_64)
  {
  }

  lemma TimesZero(m: nat)
    ensures Times(m, 0) == 0
  {
  }

  lemma LastDigit(s: string, a: nat, q: nat, base: nat)
    requires a <= q < |s| && Digits(s[a + 1..q + 1], base)
    ensures q == a ==> Value(s[a + 1..q + 1], base) == 0
    ensures q > a ==> Digits(s[a + 1..q], base) && Digits(s[q..q + 1], base) && Digit(s[q], base) >= 0
    ensures q > a ==> Value(s[a + 1..q + 1], base) == Times(Value(s[a + 1..q], base), base) + Digit(s[q], base)
  {
    var ds := s[a + 1..q + 1];
    if q > a {
      assert ds[..|ds| - 1] == s[a + 1..q] && ds[|ds| - 1] == s[q];
      assert s[q] in ds;
    }
  }

  lemma OneDigit(m: nat, base: nat, front: nat, d: nat)
    requires base > 0 && Times(m, Times(front, base) + d) < TWO_32
    ensures m % TWO_32 * d % TWO_32 == Times(m, d)
    ensures m % TWO_32 * base % TWO_32 == Times(m, base) % TWO_32
    ensures Times(Times(m, base), front) + Times(m, d) == Times(m, Times(front, base) + d)
  {
    hide Times;
    TimesLaws(m, base, front, d);
    TimesMod(m, base);
    TimesMod(m, d);
  }

  lemma TimesLaws(m: nat, base: nat, front: nat, d: nat)
    ensures Times(Times(m, base), front) + Times(m, d) == Times(m, Times(front, base) + d)
  {
    var f := front * base;
    assert m * (f + d) == m * f + m * d;
    assert m * (front * base) == m * base * front;
  }

  lemma TimesMod(m: nat, d: nat)
    ensures m % TWO_32 * d % TWO_32 == Times(m, d) % TWO_32
  {
    ModMul(m, d);
  }

  lemma ModMul(m: nat, base: nat)
    ensures m % TWO_32 * base % TWO_32 == m * base % TWO_32
  {
    var q, r := m / TWO_32, m % TWO_32;
    assert m * base == TWO_32 * (q * base) + r * base;
    ModAdd(q * base, r * base);
  }

  lemma ModAdd(k: nat, r: nat)
    ensures (TWO_32 * k + r) % TWO_32 == r % TWO_32
  {
  }

  lemma {:induction false} SemicolonAfterDigits(s: string, i: nat, q: nat)
    requires i <= q < |s| && s[q] == ';' && forall k :: i <= k < q ==> s[k] != ';' && s[k] != '\0'
    ensures FindSemicolon(s, i) == q
    decreases q - i
  {
    if i < q {
      SemicolonAfterDigits(s, i + 1, q);
    }
  }

  /** `&#n;` and `&#xh;` stand for the UTF-8 form of the number they denote. */
  lemma ReferenceIsUtf8(s: string, hex: bool, q: nat)
    requires var first := if hex then 3 else 2; first < q < |s| && s[1] == '#' && (hex <==> s[2] == 'x') && s[q] == ';'
    requires var first, base := if hex then 3 else 2, if hex then 16 else 10;
             Digits(s[first..q], base) && Value(s[first..q], base) < TWO_32
    ensures GetCharacterRef(s) ==
      Ref(Utf8(if hex then Value(s[3..q], 16) else Value(s[2..q], 10)), q + 1)
  {
    hide Backward, Utf8, Value;
    var first, base := if hex then 3 else 2, if hex then 16 else 10;
    forall k | first <= k < q ensures s[k] != ';' && s[k] != '\0' {
      assert s[k] in s[first..q];
    }
    SemicolonAfterDigits(s, first, q);
    assert s[first - 1] == if hex then 'x' else '#';
    BackwardIsValue(s, first - 1, q - 1, s[first - 1], base, 1, 0);
  }

  // ---------------------------------------------------------------------------------------------------------
  // Decoding

  /** The entity that a text beginning with `&` starts with, as its value, or a NUL if none. */
  function EntityAt(s: string): char
    requires s != ""
  {
    if StartsWith(s[1..], "quot;") then '"'
    else if StartsWith(s[1..], "amp;") then '&'
    else if StartsWith(s[1..], "apos;") then '\''
    else if StartsWith(s[1..], "lt;") then '<'
    else if StartsWith(s[1..], "gt;") then '>'
    else '\0'
  }

  /** What the front of a text is decoded to, and how much of it that takes.  `Keep` is the branch for an `&` that
      starts no entity: the write pointer moves on without a write. */
  datatype Piece = Piece(bytes: string, used: nat) | Keep

  function Front(s: string, newline: bool, entities: bool): (r: Piece)
    requires s != ""
    ensures r.Piece? ==> 1 <= r.used <= |s| && |r.bytes| <= r.used
  {
    if newline && s[0] == CR then Piece([LF], if ByteAt(s, 1) == LF then 2 else 1)
    else if newline && s[0] == LF then Piece([LF], if ByteAt(s, 1) == CR then 2 else 1)
    else if entities && s[0] == '&' then
      if ByteAt(s, 1) == '#' then
        match GetCharacterRef(s)
        case Ref(bytes, used) => Piece(bytes, used)
        case NotARef => Piece([s[0]], 1)
      else if EntityAt(s) != '\0' then Piece([EntityAt(s)], |Pattern(EntityAt(s))| + 2)
      else Keep
    else Piece([s[0]], 1)
  }

  /** The decoding of `s` from position `p` on, behind what has been written so far.  A kept byte is the one that
      stands at the write position, which no write has reached yet. */
  function DecodeFrom(s: string, p: nat, out: string, newline: bool, entities: bool): (r: string)
    requires |out| <= p <= |s|
    ensures |r| <= |s|
    decreases |s| - p
  {
    if p == |s| then out
    else
      match Front(s[p..], newline, entities)
      case Piece(bytes, used) => DecodeFrom(s, p + used, out + bytes, newline, entities)
      case Keep => DecodeFrom(s, p + 1, out + [s[|out|]], newline, entities)
  }

  function Decode(s: string, newline: bool, entities: bool): string {
    DecodeFrom(s, 0, "", newline, entities)
  }

  /** The decoding loop of `StrPair::GetStr`, in the buffer that holds the whole document: the write pointer never
      passes the read pointer, nothing outside the text is touched but the byte at its end, which becomes the
      terminator. */
  method GetStr(buf: array<char>, start: nat, end: nat, newline: bool, entities: bool) returns (newEnd: nat)
    requires start <= end < buf.Length
    modifies buf
    ensures start <= newEnd <= end
    ensures buf[start..newEnd] == Decode(old(buf[start..end]), newline, entities) && buf[newEnd] == '\0'
    ensures buf[..start] == old(buf[..start]) && buf[end + 1..] == old(buf[end + 1..])
  {
    hide DecodeFrom, Written;
    ghost var was := buf[..];
    buf[end] := '\0';
    ghost var base := buf[..];
    assert base == was[end := '\0'];
    assert base[start..end] == was[start..end] == buf[start..end];
    ghost var out;
    newEnd, out := DecodeLoop(buf, start, end, newline, entities);
    newEnd := start + newEnd;
    ghost var cur := buf[..];
    Terminated(cur, base, start, out, newEnd);
    buf[newEnd] := '\0';
    ghost var last := buf[..];
    assert last == cur[newEnd := '\0'];
    assert buf[start..newEnd] == last[start..newEnd];
    assert buf[..start] == last[..start] == was[..start];
    assert last[end + 1..] == last[newEnd + 1..][end - newEnd..];
    assert base[end + 1..] == base[newEnd + 1..][end - newEnd..] == was[end + 1..];
    assert buf[end + 1..] == last[end + 1..];
  }

  /** The buffer when `out` has been written over the text from `start` on, up to the write pointer `q`. */
  ghost predicate Written(cur: string, base: string, start: nat, out: string, q: nat) {
    start <= q <= |base| && |out| == q - start && cur == base[..start] + out + base[q..]
  }

  /** `p` and `q` are the read and the write pointer, as distances from `start`. */
  method DecodeLoop(buf: array<char>, start: nat, end: nat, newline: bool, entities: bool)
    returns (q: nat, ghost out: string)
    requires start <= end < buf.Length
    modifies buf
    ensures start + q <= end && Written(buf[..], old(buf[..]), start, out, start + q)
    ensures out == Decode(old(buf[start..end]), newline, entities)
  {
    hide DecodeFrom, Written;
    ghost var base := buf[..];
    var len := end - start;
    var p := 0;
    q, out := 0, "";
    NothingWritten(base, start);
    while p < len
      invariant q <= p <= len && |out| == q
      invariant Written(buf[..], base, start, out, start + q)
      invariant DecodeFrom(base[start..end], p, out, newline, entities) == Decode(base[start..end], newline, entities)
      decreases len - p
    {
      p, q, out := DecodeOne(buf, start, end, p, q, newline, entities, base, out);
    }
    DecodeEnd(base[start..end], out, newline, entities);
  }

  /** One round of the decoding loop. */
  method DecodeOne(buf: array<char>, start: nat, end: nat, p: nat, q: nat, newline: bool, entities: bool,
      ghost base: string, ghost out: string)
    returns (p': nat, q': nat, ghost out': string)
    requires start <= end < |base| && |out| == q <= p < end - start
    requires Written(buf[..], base, start, out, start + q)
    modifies buf
    ensures q' <= p' <= end - start && p < p' && |out'| == q'
    ensures Written(buf[..], base, start, out', start + q')
    ensures DecodeFrom(base[start..end], p', out', newline, entities) ==
      DecodeFrom(base[start..end], p, out, newline, entities)
  {
    hide Front, DecodeFrom, Written;
    ghost var s := base[start..end];
    Unread(buf, base, start, out, start + q, start + p, end);
    DecodeStep(s, p, out, newline, entities);
    var front := Front(buf[start + p..end], newline, entities);
    match front {
      case Piece(bytes, used) =>
        Put(buf, start + q, bytes, base, start, out);
        p', q', out' := p + used, q + |bytes|, out + bytes;
      case Keep =>
        KeepExtends(buf[..], base, start, out, start + q);
        p', q', out' := p + 1, q + 1, out + [s[q]];
    }
  }

  lemma NothingWritten(base: string, start: nat)
    requires start <= |base|
    ensures Written(base, base, start, "", start)
  {
  }

  lemma Unread(buf: array<char>, base: string, start: nat, out: string, q: nat, p: nat, end: nat)
    requires q <= p <= end <= |base| && Written(buf[..], base, start, out, q)
    ensures buf.Length == |base| && buf[p..end] == base[start..end][p - start..]
  {
    ghost var cur := buf[..];
    UnreadIs(cur, base, start, out, q, p, end);
    assert buf[p..end] == cur[p..end];
  }

  lemma UnreadIs(cur: string, base: string, start: nat, out: string, q: nat, p: nat, end: nat)
    requires q <= p <= end <= |base| && Written(cur, base, start, out, q)
    ensures |cur| == |base| && cur[p..end] == base[start..end][p - start..]
  {
    assert cur[q..] == base[q..];
    assert cur[p..end] == cur[q..][p - q..end - q];
    assert base[start..end][p - start..] == base[q..][p - q..end - q];
  }

  lemma PutExtends(cur: string, base: string, start: nat, out: string, q: nat, bytes: string)
    requires q + |bytes| <= |base| && Written(cur, base, start, out, q)
    ensures |cur| == |base| && Written(cur[..q] + bytes + cur[q + |bytes|..], base, start, out + bytes, q + |bytes|)
  {
    assert cur[..q] == base[..start] + out;
    assert cur[q + |bytes|..] == base[q + |bytes|..];
  }

  lemma KeepExtends(cur: string, base: string, start: nat, out: string, q: nat)
    requires q < |base| && Written(cur, base, start, out, q)
    ensures Written(cur, base, start, out + [base[q]], q + 1)
  {
    assert base[q..] == [base[q]] + base[q + 1..];
  }

  lemma Terminated(cur: string, base: string, start: nat, out: string, q: nat)
    requires q < |base| && Written(cur, base, start, out, q)
    ensures |cur| == |base|
    ensures var end := cur[q := '\0'];
            end[start..q] == out && end[q] == '\0' && end[..start] == base[..start] && end[q + 1..] == base[q + 1..]
  {
  }

  /** `memcpy` of decoded bytes to the write pointer. */
  method Put(buf: array<char>, q: nat, bytes: string, ghost base: string, ghost start: nat, ghost out: string)
    requires q + |bytes| <= |base| && Written(buf[..], base, start, out, q)
    modifies buf
    ensures Written(buf[..], base, start, out + bytes, q + |bytes|)
  {
    ghost var cur := buf[..];
    PutExtends(cur, base, start, out, q, bytes);
    forall i | 0 <= i < |bytes| { buf[q + i] := bytes[i]; }
    assert buf[..] == cur[..q] + bytes + cur[q + |bytes|..];
  }

  lemma DecodeStep(s: string, p: nat, out: string, newline: bool, entities: bool)
    requires |out| <= p < |s|
    ensures var f := Front(s[p..], newline, entities);
            DecodeFrom(s, p, out, newline, entities) ==
              if f.Keep? then DecodeFrom(s, p + 1, out + [s[|out|]], newline, entities)
              else DecodeFrom(s, p + f.used, out + f.bytes, newline, entities)
  {
  }

  lemma DecodeEnd(s: string, out: string, newline: bool, entities: bool)
    requires |out| <= |s|
    ensures DecodeFrom(s, |s|, out, newline, entities) == out
  {
  }
}
