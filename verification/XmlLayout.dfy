/** What the parser of Project/Public/tinyxml2/tinyxml2.cpp makes of documents that are laid out in other ways than the
    printer lays them out: with other white space, and with quotes of either kind. */
module XmlLayout {
  import opened XmlText
  import opened XmlDom
  import opened XmlParser
  import opened XmlDocument
  import opened XmlExact

  // ---------------------------------------------------------------------------------------------------------
  // Characters

  const WHITE: string := [' ', '\t', '\n', '\U{B}', '\U{C}', '\r']

  predicate White(s: string) {
    forall c :: c in s ==> c in WHITE
  }

  lemma WhiteIs(c: char)
    ensures IsWhiteSpace(c) <==> c in [' ', '\t', '\n', '\U{B}', '\U{C}', '\r']
  {
  }

  lemma WhiteIsBlank(s: string)
    requires White(s)
    ensures Blank(s)
    ensures s != "" ==> IsWhiteSpace(s[0]) && !IsNameChar(s[0])
  {
    forall i | 0 <= i < |s| ensures IsWhiteSpace(s[i]) {
      assert s[i] in s;
      WhiteIs(s[i]);
    }
  }

  const LETTERS := "abcdefghijklmnopqrstuvwxyz"
  const CAPITALS := "ABCDEFGHIJKLMNOPQRSTUVWXYZ"

  /** A name may begin with a letter, a colon, an underscore or any byte of a longer character; digits, points and
      hyphens may only follow. */
  lemma NameCharsAre(c: char)
    ensures IsNameStartChar(c) <==> c in LETTERS || c in CAPITALS || c in ":_" || c as int >= 128
    ensures IsNameChar(c) <==> IsNameStartChar(c) || c in "0123456789.-"
  {
    Letters(c);
    Capitals(c);
    OtherNameChars(c);
    hide LETTERS, CAPITALS;
  }

  lemma Letters(c: char)
    ensures c in LETTERS <==> 'a' <= c <= 'z'
  {
    if 'a' <= c <= 'z' { assert LETTERS[c as int - 'a' as int] == c; }
  }

  lemma Capitals(c: char)
    ensures c in CAPITALS <==> 'A' <= c <= 'Z'
  {
    if 'A' <= c <= 'Z' { assert CAPITALS[c as int - 'A' as int] == c; }
  }

  lemma OtherNameChars(c: char)
    ensures c in ":_" <==> c == ':' || c == '_'
    ensures c in "0123456789.-" <==> '0' <= c <= '9' || c == '.' || c == '-'
  {
    var s := "0123456789.-";
    if '0' <= c <= '9' { assert s[c as int - '0' as int] == c; }
    assert s[10] == '.' && s[11] == '-' && ":_"[0] == ':' && ":_"[1] == '_';
  }

  // ---------------------------------------------------------------------------------------------------------
  // Attributes

  /** An attribute as it may be written. */
  datatype Written = Written(
    before: string, name: string, beforeEquals: string, afterEquals: string, quote: char, raw: string)

  predicate WellWritten(w: Written) {
    && White(w.before) && White(w.beforeEquals) && White(w.afterEquals)
    && LegalName(w.name)
    && (w.quote == '"' || w.quote == '\'') && w.quote !in w.raw
  }

  function Quoted(w: Written, rest: string): string {
    [w.quote] + (w.raw + ([w.quote] + rest))
  }

  function Behind(w: Written, rest: string): string {
    w.beforeEquals + ("=" + (w.afterEquals + Quoted(w, rest)))
  }

  /** An attribute in front of a rest. */
  function Spelled(w: Written, rest: string): string {
    w.before + (w.name + Behind(w, rest))
  }

  function AllSpelled(ws: seq<Written>, rest: string): string {
    if ws == [] then rest else Spelled(ws[0], AllSpelled(ws[1..], rest))
  }

  function Meant(w: Written): Attr { Attr(w.name, Decode(w.raw, true, true)) }

  function AllMeant(ws: seq<Written>): seq<Attr> {
    if ws == [] then [] else [Meant(ws[0])] + AllMeant(ws[1..])
  }

  lemma ParsesWritten(w: Written, rest: string)
    requires WellWritten(w)
    ensures ParseAttr(w.name + Behind(w, rest)) == Some((Meant(w), rest))
  {
    hide ParseName, ParseText, Decode, LegalName, SkipWhiteSpace, Contains, White, Blank;
    var equals, quoted := "=" + (w.afterEquals + Quoted(w, rest)), Quoted(w, rest);
    WhiteIsBlank(w.beforeEquals);
    WhiteIsBlank(w.afterEquals);
    NameBefore(w, rest);
    SkipsBlank(w.beforeEquals, equals);
    SkipsNothing(equals);
    assert equals[1..] == w.afterEquals + quoted;
    SkipsBlank(w.afterEquals, quoted);
    SkipsNothing(quoted);
    assert quoted[1..] == w.raw + ([w.quote] + rest);
    OneCharacter(w.raw, w.quote);
    ParsesUpTo(w.raw, [w.quote], rest);
  }

  lemma NameBefore(w: Written, rest: string)
    requires WellWritten(w)
    ensures ParseName(w.name + Behind(w, rest)) == Some((w.name, Behind(w, rest))) && Behind(w, rest) != ""
  {
    hide ParseName, LegalName, White, Blank;
    var behind := Behind(w, rest);
    WhiteIsBlank(w.beforeEquals);
    assert behind[0] == if w.beforeEquals == "" then '=' else w.beforeEquals[0];
    ParsesName(w.name, behind);
  }

  /** However its attributes are written, a tag is read up to its end with each of them, in their order. */
  lemma {:induction false} LayoutIsRead(ws: seq<Written>, done: seq<Attr>, tail: string, isSealed: bool, rest: string)
    requires (forall i :: 0 <= i < |ws| ==> WellWritten(ws[i])) && White(tail)
    requires forall i, j :: 0 <= i < j < |ws| ==> ws[i].name != ws[j].name
    requires forall i :: 0 <= i < |ws| ==> !HasAttr(done, ws[i].name)
    ensures ParseAttributes(AllSpelled(ws, tail + (TagEnd(isSealed) + rest)), done) ==
      Tag(done + AllMeant(ws), isSealed, rest)
    decreases |ws|
  {
    hide ParseAttr, White, Blank, WellWritten, SkipWhiteSpace, HasAttr, Spelled, Meant;
    var end := TagEnd(isSealed) + rest;
    if ws == [] {
      WhiteIsBlank(tail);
      SkipsBlank(tail, end);
      SkipsNothing(end);
      assert !IsNameStartChar(end[0]);
      assert isSealed ==> end[2..] == rest;
      assert !isSealed ==> end[1..] == rest;
      assert done + [] == done;
    } else {
      var w := ws[0];
      WrittenStep(w, AllSpelled(ws[1..], tail + end), done);
      forall i | 0 <= i < |ws[1..]| ensures !HasAttr(done + [Meant(w)], ws[1..][i].name) {
        OtherName(done, w, ws[i + 1].name);
      }
      LayoutIsRead(ws[1..], done + [Meant(w)], tail, isSealed, rest);
      assert done + [Meant(w)] + AllMeant(ws[1..]) == done + ([Meant(w)] + AllMeant(ws[1..]));
    }
  }

  lemma OtherName(done: seq<Attr>, w: Written, name: string)
    requires !HasAttr(done, name) && w.name != name
    ensures !HasAttr(done + [Meant(w)], name)
  {
    hide Decode;
  }

  lemma WrittenStep(w: Written, more: string, done: seq<Attr>)
    requires WellWritten(w) && !HasAttr(done, w.name)
    ensures ParseAttributes(Spelled(w, more), done) == ParseAttributes(more, done + [Meant(w)])
  {
    hide ParseAttr, White, Blank, SkipWhiteSpace, HasAttr, Behind, Decode;
    var p := w.name + Behind(w, more);
    WhiteIsBlank(w.before);
    SkipsBlank(w.before, p);
    assert p[0] == w.name[0] && IsNameStartChar(p[0]);
    SkipsNothing(p);
    ParsesWritten(w, more);
    AttributeStep(Spelled(w, more), done, p, Meant(w), more);
  }

  // ---------------------------------------------------------------------------------------------------------
  // Nodes

  lemma OpensTag(s: string)
    requires s != "" && s[0] == '<'
    ensures StartsWith(s, "<")
  {
  }

  /** White space in front of markup is passed over. */
  lemma SkippedBeforeMarkup(w: string, s: string, docEmpty: bool)
    requires White(w) && s != "" && s[0] == '<'
    ensures ParseOne(w + s, docEmpty) == ParseOne(s, docEmpty)
  {
    hide White, Blank, SkipWhiteSpace, ParseElement, ParseBody;
    WhiteIsBlank(w);
    SkipsBlank(w, s);
    SkipsNothing(s);
    OpensTag(s);
    hide StartsWith;
    assert Identify(w + s) == Identify(s);
    hide Identify;
  }

  datatype LeafKind = CommentLeaf | CDataLeaf | DeclarationLeaf | UnknownLeaf

  /** A node as it may be written: an element with an end tag, an empty element, markup with a terminator of its own, or
      words between markup. */
  datatype Form =
    | Full(before: string, name: string, attrs: seq<Written>, tail: string,
        kids: seq<Form>, beforeEnd: string, endTail: string)
    | Empty(before: string, name: string, attrs: seq<Written>, tail: string)
    | Leaf(before: string, kind: LeafKind, body: string)
    | Words(raw: string)

  function LeafSpelled(kind: LeafKind, v: string, rest: string): string {
    match kind
    case CommentLeaf => "<!--" + (v + ("-->" + rest))
    case CDataLeaf => "<![CDATA[" + (v + ("]]>" + rest))
    case DeclarationLeaf => "<?" + (v + ("?>" + rest))
    case UnknownLeaf => "<!" + (v + (">" + rest))
  }

  function LeafMeant(kind: LeafKind, v: string): Node {
    var value := Decode(v, true, false);
    match kind
    case CommentLeaf => Comment(value)
    case CDataLeaf => Text(value, true)
    case DeclarationLeaf => Declaration(value)
    case UnknownLeaf => Unknown(value)
  }

  predicate LeafWell(kind: LeafKind, v: string, docEmpty: bool) {
    match kind
    case CommentLeaf => !Contains(v, "-->")
    case CDataLeaf => !Contains(v, "]]>")
    case DeclarationLeaf => !Contains(v, "?>") && docEmpty
    case UnknownLeaf => !Contains(v, ">") && !StartsWith(v, "--") && !StartsWith(v, "[CDATA[")
  }

  function EndSpelled(beforeEnd: string, name: string, endTail: string, rest: string): string {
    beforeEnd + ("</" + (name + (endTail + (">" + rest))))
  }

  /** A node in front of a rest. */
  function FormSpelled(f: Form, rest: string): string
    decreases f, 1
  {
    match f
    case Full(before, name, attrs, tail, kids, beforeEnd, endTail) =>
      before + ("<" + (name +
        AllSpelled(attrs, tail + (">" + FormsSpelled(kids, EndSpelled(beforeEnd, name, endTail, rest))))))
    case Empty(before, name, attrs, tail) => before + ("<" + (name + AllSpelled(attrs, tail + ("/>" + rest))))
    case Leaf(before, kind, body) => before + LeafSpelled(kind, body, rest)
    case Words(raw) => raw + rest
  }

  function FormsSpelled(fs: seq<Form>, rest: string): string
    decreases fs, 0
  {
    if fs == [] then rest else FormSpelled(fs[0], FormsSpelled(fs[1..], rest))
  }

  function FormMeant(f: Form): Node
    decreases f, 1
  {
    match f
    case Full(_, name, attrs, _, kids, _, _) => Element(name, AllMeant(attrs), FormsMeant(kids))
    case Empty(_, name, attrs, _) => Element(name, AllMeant(attrs), [])
    case Leaf(_, kind, body) => LeafMeant(kind, body)
    case Words(raw) => Text(Decode(raw, true, true), false)
  }

  function FormsMeant(fs: seq<Form>): seq<Node>
    decreases fs, 0
  {
    if fs == [] then [] else [FormMeant(fs[0])] + FormsMeant(fs[1..])
  }

  predicate TagWell(name: string, attrs: seq<Written>, tail: string) {
    && LegalName(name) && White(tail)
    && (forall i :: 0 <= i < |attrs| ==> WellWritten(attrs[i]))
    && (forall i, j :: 0 <= i < j < |attrs| ==> attrs[i].name != attrs[j].name)
    && (attrs != [] ==> attrs[0].before != "")
  }

  /** Words reach up to the next `<`, so there is no white space in front of the markup behind them. */
  predicate WellFormed(f: Form, docEmpty: bool)
    decreases f, 1
  {
    match f
    case Full(before, name, attrs, tail, kids, beforeEnd, endTail) =>
      && White(before) && TagWell(name, attrs, tail) && White(beforeEnd) && White(endTail)
      && AllWell(kids, docEmpty, false)
      && (kids != [] && kids[|kids| - 1].Words? ==> beforeEnd == "")
    case Empty(before, name, attrs, tail) => White(before) && TagWell(name, attrs, tail)
    case Leaf(before, kind, body) => White(before) && LeafWell(kind, body, docEmpty)
    case Words(raw) => '<' !in raw && !White(raw)
  }

  predicate AllWell(fs: seq<Form>, docEmpty: bool, top: bool)
    decreases fs, 0
  {
    fs != [] ==>
      && WellFormed(fs[0], docEmpty)
      && (fs[0].Words? && |fs| > 1 ==> !fs[1].Words? && fs[1].before == "")
      && AllWell(fs[1..], docEmpty && !top, top)
  }

  lemma LeafIsRead(kind: LeafKind, v: string, rest: string, docEmpty: bool)
    requires LeafWell(kind, v, docEmpty)
    ensures ParseOne(LeafSpelled(kind, v, rest), docEmpty) == Got(LeafMeant(kind, v), rest)
  {
    hide Identify, SkipWhiteSpace, Contains, Decode, ParseText;
    match kind
    case CDataLeaf =>
      IdentifiesCData(v + ("]]>" + rest));
      ParsesUpTo(v, "]]>", rest);
    case CommentLeaf =>
      IdentifiesComment(v + ("-->" + rest));
      ParsesUpTo(v, "-->", rest);
    case DeclarationLeaf =>
      IdentifiesDeclaration(v + ("?>" + rest));
      ParsesUpTo(v, "?>", rest);
    case UnknownLeaf =>
      UnknownIsNoComment(v, rest, "--");
      UnknownIsNoComment(v, rest, "[CDATA[");
      IdentifiesUnknown(v + (">" + rest));
      ParsesUpTo(v, ">", rest);
  }

  lemma LeafOpens(kind: LeafKind, v: string, rest: string)
    ensures IsMarkup(LeafSpelled(kind, v, rest))
  {
  }

  lemma WordsOpen(raw: string, rest: string)
    requires '<' !in raw && !White(raw)
    ensures var p := SkipWhiteSpace(raw + rest); p != "" && p[0] != '<'
  {
    WhiteIs(raw[0]);
    assert raw[0] in raw && raw == [raw[0]] + raw[1..];
    if IsWhiteSpace(raw[0]) {
      assert (raw + rest)[1..] == raw[1..] + rest;
      WordsOpen(raw[1..], rest);
    }
  }

  lemma WordsAreRead(raw: string, rest: string, docEmpty: bool)
    requires '<' !in raw && !White(raw) && IsMarkup(rest)
    ensures ParseOne(raw + rest, docEmpty) == Got(Text(Decode(raw, true, true), false), rest)
  {
    hide SkipWhiteSpace, Identify, ParseText, Decode, Contains, White;
    WordsOpen(raw, rest);
    IdentifiesText(raw + rest);
    OneCharacter(raw, '<');
    ParsesUpTo(raw, "<", rest[1..]);
    assert rest == "<" + rest[1..];
  }

  /** A tag, in any layout, up to the rest behind it. */
  lemma TagIsRead(name: string, attrs: seq<Written>, tail: string, isSealed: bool, rest: string)
    requires TagWell(name, attrs, tail)
    ensures var behind := AllSpelled(attrs, tail + (TagEnd(isSealed) + rest));
      && ParseAttributes(behind, []) == Tag(AllMeant(attrs), isSealed, rest)
      && ParseName(name + behind) == Some((name, behind))
  {
    hide ParseName, White, WellWritten, LegalName, AllSpelled, AllMeant;
    LayoutIsRead(attrs, [], tail, isSealed, rest);
    assert [] + AllMeant(attrs) == AllMeant(attrs);
    NotInTheName(attrs, tail, TagEnd(isSealed) + rest);
    ParsesName(name, AllSpelled(attrs, tail + (TagEnd(isSealed) + rest)));
  }

  lemma NotInTheName(attrs: seq<Written>, tail: string, end: string)
    requires White(tail) && (attrs != [] ==> WellWritten(attrs[0]) && attrs[0].before != "")
    requires end != "" && !IsNameChar(end[0])
    ensures var behind := AllSpelled(attrs, tail + end); behind != "" && !IsNameChar(behind[0])
  {
    hide White, Blank;
    WhiteIsBlank(tail);
    if attrs != [] { WhiteIsBlank(attrs[0].before); }
  }

  lemma NameIsNoMark(name: string)
    requires LegalName(name)
    ensures name[0] != '?' && name[0] != '!'
  {
  }

  lemma EmptyElement(name: string, behind: string, attrs: seq<Attr>, rest: string, docEmpty: bool)
    requires LegalName(name) && ParseName(name + behind) == Some((name, behind))
    requires ParseAttributes(behind, []) == Tag(attrs, true, rest)
    ensures ParseOne("<" + (name + behind), docEmpty) == Got(Element(name, attrs, []), rest)
  {
    hide SkipWhiteSpace, ParseAttributes, ParseName, Identify, LegalName;
    NameStart(name);
    NameIsNoMark(name);
    IdentifiesElement(name + behind);
    SkipsNothing(name + behind);
  }

  lemma FullElement(
    name: string, behind: string, attrs: seq<Attr>, body: string, kids: seq<Node>, rest: string, docEmpty: bool)
    requires LegalName(name) && ParseName(name + behind) == Some((name, behind))
    requires ParseAttributes(behind, []) == Tag(attrs, false, body) && body != ""
    requires ParseNodes(body, docEmpty, false) == Closed(kids, name, rest)
    ensures ParseOne("<" + (name + behind), docEmpty) == Got(Element(name, attrs, kids), rest)
  {
    hide SkipWhiteSpace, ParseAttributes, ParseName, ParseNodes, Identify, LegalName;
    NameStart(name);
    NameIsNoMark(name);
    IdentifiesElement(name + behind);
    SkipsNothing(name + behind);
  }

  lemma EndIsRead(beforeEnd: string, name: string, endTail: string, rest: string, docEmpty: bool)
    requires White(beforeEnd) && White(endTail) && LegalName(name)
    ensures ParseNodes(EndSpelled(beforeEnd, name, endTail, rest), docEmpty, false) == Closed([], name, rest)
  {
    hide White, LegalName, SkipWhiteSpace, Identify, ParseElement;
    var tag := "/" + (name + (endTail + (">" + rest)));
    assert "<" + tag == "</" + (name + (endTail + (">" + rest)));
    SkippedBeforeMarkup(beforeEnd, "<" + tag, docEmpty);
    ClosesElement(name, endTail, rest, docEmpty);
    IdentifiesElement(tag);
  }

  lemma ClosesElement(name: string, endTail: string, rest: string, docEmpty: bool)
    requires White(endTail) && LegalName(name)
    ensures ParseElement("/" + (name + (endTail + (">" + rest))), docEmpty) == ClosingTag(name, rest)
  {
    hide White, LegalName, SkipWhiteSpace, ParseName, ParseAttributes;
    var tag := name + (endTail + (">" + rest));
    TagIsRead(name, [], endTail, false, rest);
    SkipsNothing("/" + tag);
    assert ("/" + tag)[1..] == tag;
  }

  /** A node is read as what it means, however it is laid out and whatever follows it. */
  lemma {:induction false} FormIsRead(f: Form, rest: string, docEmpty: bool)
    requires WellFormed(f, docEmpty) && (f.Words? ==> IsMarkup(rest))
    ensures ParseOne(FormSpelled(f, rest), docEmpty) == Got(FormMeant(f), rest)
    decreases f, 1
  {
    hide ParseOne, ParseNodes, White, LegalName, AllSpelled, AllMeant, FormsSpelled, FormsMeant, AllWell, LeafWell;
    hide LeafSpelled, LeafMeant, ParseName, ParseAttributes, Decode;
    match f
    case Full(before, name, attrs, tail, kids, beforeEnd, endTail) =>
      var end := EndSpelled(beforeEnd, name, endTail, rest);
      var body := FormsSpelled(kids, end);
      var behind := AllSpelled(attrs, tail + (">" + body));
      SkippedBeforeMarkup(before, "<" + (name + behind), docEmpty);
      TagIsRead(name, attrs, tail, false, body);
      EndOpens(beforeEnd, name, endTail, rest);
      FormsAreRead(kids, end, docEmpty, false);
      EndIsRead(beforeEnd, name, endTail, rest, docEmpty);
      assert FormsMeant(kids) + [] == FormsMeant(kids);
      SomethingSpelled(kids, end, docEmpty);
      FullElement(name, behind, AllMeant(attrs), body, FormsMeant(kids), rest, docEmpty);
    case Empty(before, name, attrs, tail) =>
      var behind := AllSpelled(attrs, tail + ("/>" + rest));
      SkippedBeforeMarkup(before, "<" + (name + behind), docEmpty);
      TagIsRead(name, attrs, tail, true, rest);
      EmptyElement(name, behind, AllMeant(attrs), rest, docEmpty);
    case Leaf(before, kind, body) =>
      LeafOpens(kind, body, rest);
      SkippedBeforeMarkup(before, LeafSpelled(kind, body, rest), docEmpty);
      LeafIsRead(kind, body, rest, docEmpty);
    case Words(raw) => WordsAreRead(raw, rest, docEmpty);
  }

  lemma EndOpens(beforeEnd: string, name: string, endTail: string, rest: string)
    ensures EndSpelled(beforeEnd, name, endTail, rest) != ""
    ensures beforeEnd == "" ==> IsMarkup(EndSpelled(beforeEnd, name, endTail, rest))
  {
  }

  lemma SomethingSpelled(fs: seq<Form>, rest: string, docEmpty: bool)
    requires rest != "" && AllWell(fs, docEmpty, false)
    ensures FormsSpelled(fs, rest) != ""
  {
    hide AllSpelled, LeafWell, TagWell;
  }

  /** Nodes are read one after another as what they mean. */
  lemma {:induction false} FormsAreRead(fs: seq<Form>, rest: string, docEmpty: bool, top: bool)
    requires AllWell(fs, docEmpty, top) && (fs != [] && fs[|fs| - 1].Words? ==> IsMarkup(rest))
    ensures ParseNodes(FormsSpelled(fs, rest), docEmpty, top) ==
      Prepend(FormsMeant(fs), ParseNodes(rest, docEmpty && !(top && fs != []), top))
    decreases fs, 0
  {
    hide FormSpelled, FormMeant, WellFormed, ParseOne, ParseNodes;
    if fs == [] {
      PrependNone(ParseNodes(rest, docEmpty, top));
    } else {
      var more := FormsSpelled(fs[1..], rest);
      if fs[0].Words? { WordsAreFollowed(fs, rest, docEmpty, top); }
      FormIsRead(fs[0], more, docEmpty);
      FormDeclares(fs[0], docEmpty);
      ParseStep(FormSpelled(fs[0], more), docEmpty, top);
      FormsAreRead(fs[1..], rest, docEmpty && !top, top);
      MeantTwo(fs);
      PrependTwo(FormsMeant(fs), ParseNodes(rest, docEmpty && !top, top));
    }
  }

  lemma MeantTwo(fs: seq<Form>)
    requires fs != []
    ensures FormsMeant(fs) != [] && [FormsMeant(fs)[0]] == [FormMeant(fs[0])]
    ensures FormsMeant(fs)[1..] == FormsMeant(fs[1..])
  {
    hide FormMeant;
  }

  lemma FormDeclares(f: Form, docEmpty: bool)
    requires WellFormed(f, docEmpty)
    ensures FormMeant(f).Declaration? ==> docEmpty
  {
    hide AllMeant, White, TagWell, AllWell, Decode;
  }

  lemma WordsAreFollowed(fs: seq<Form>, rest: string, docEmpty: bool, top: bool)
    requires fs != [] && fs[0].Words? && AllWell(fs, docEmpty, top)
    requires fs[|fs| - 1].Words? ==> IsMarkup(rest)
    ensures IsMarkup(FormsSpelled(fs[1..], rest))
  {
    hide WellFormed, FormSpelled;
    if |fs| > 1 {
      assert WellFormed(fs[1], docEmpty && !top);
      FormOpens(fs[1], FormsSpelled(fs[1..][1..], rest), docEmpty && !top);
    }
  }

  lemma FormOpens(f: Form, rest: string, docEmpty: bool)
    requires !f.Words? && f.before == "" && WellFormed(f, docEmpty)
    ensures IsMarkup(FormSpelled(f, rest))
  {
    hide AllSpelled, FormsSpelled, White, WellWritten, AllWell, LeafWell, LeafSpelled;
    if f.Leaf? {
      LeafOpens(f.kind, f.body, rest);
      assert "" + LeafSpelled(f.kind, f.body, rest) == LeafSpelled(f.kind, f.body, rest);
    }
  }

  /** A document: white space, nodes in any layout, and white space again. */
  lemma LaidOutDocument(before: string, fs: seq<Form>, after: string)
    requires White(before) && White(after) && fs != [] && AllWell(fs, true, true)
    requires !fs[0].Words? && fs[0].before == "" && !fs[|fs| - 1].Words?
    ensures ParseDocument(before + FormsSpelled(fs, after)) == Success(Document(false, FormsMeant(fs)))
    ensures ParseDocument(before + (['\U{EF}', '\U{BB}', '\U{BF}'] + FormsSpelled(fs, after))) ==
      Success(Document(true, FormsMeant(fs)))
  {
    hide White, Blank, FormSpelled, WellFormed, FormsMeant, ParseNodes, SkipWhiteSpace, StartsWith;
    var text := FormsSpelled(fs, after);
    assert WellFormed(fs[0], true);
    FormOpens(fs[0], FormsSpelled(fs[1..], after), true);
    WhiteIsBlank(before);
    SkipsBlank(before, text);
    SkipsBlank(before, BOM + text);
    SkipsNothing(text);
    SkipsNothing(BOM + text);
    Differs(text, BOM, 0);
    BeginsWithMark(text);
    FormsAreRead(fs, after, true, true);
    OnlyWhiteLeft(after);
    assert FormsMeant(fs) + [] == FormsMeant(fs);
  }

  lemma OnlyWhiteLeft(after: string)
    requires White(after)
    ensures ParseNodes(after, false, true) == Ended([])
  {
    hide White, Blank;
    WhiteIsBlank(after);
    SkipsBlank(after, "");
    assert after + "" == after;
  }

  // ---------------------------------------------------------------------------------------------------------
  // Errors

  function LeafTerminator(kind: LeafKind): string {
    match kind
    case CommentLeaf => "-->"
    case CDataLeaf => "]]>"
    case DeclarationLeaf => "?>"
    case UnknownLeaf => ">"
  }

  function LeafError(kind: LeafKind): XmlError {
    match kind
    case CommentLeaf => ParsingComment
    case CDataLeaf => ParsingCData
    case DeclarationLeaf => ParsingDeclaration
    case UnknownLeaf => ParsingUnknown
  }

  /** Markup that is not terminated is an error of its kind. */
  lemma Unterminated(kind: LeafKind, v: string, docEmpty: bool)
    requires !Contains(v, LeafTerminator(kind))
    requires kind == UnknownLeaf ==> !StartsWith(v, "--") && !StartsWith(v, "[CDATA[")
    ensures ParseOne((match kind case CommentLeaf => "<!--" case CDataLeaf => "<![CDATA["
                      case DeclarationLeaf => "<?" case UnknownLeaf => "<!") + v, docEmpty) == Bad(LeafError(kind))
  {
    hide Identify, SkipWhiteSpace, Decode, StartsWith;
    NotFound(v, LeafTerminator(kind));
    match kind
    case CDataLeaf => IdentifiesCData(v);
    case CommentLeaf => IdentifiesComment(v);
    case DeclarationLeaf => IdentifiesDeclaration(v);
    case UnknownLeaf => IdentifiesUnknown(v);
  }

  lemma NotFound(v: string, tag: string)
    requires !Contains(v, tag)
    ensures ParseText(v, tag) == None
  {
    hide StartsWith;
  }

  /** Words behind which no markup comes are an error. */
  lemma WordsAtTheEnd(raw: string, docEmpty: bool)
    requires '<' !in raw && !White(raw)
    ensures ParseOne(raw, docEmpty) == Bad(ParsingText)
    ensures ParseOne(raw + "<", docEmpty) == Bad(Parsing)
  {
    hide SkipWhiteSpace, Identify, Decode, Contains, White, Find;
    WordsOpen(raw, "");
    assert raw + "" == raw;
    WordsOpen(raw, "<");
    IdentifiesText(raw);
    IdentifiesText(raw + "<");
    OneCharacter(raw, '<');
    NotFound(raw, "<");
    ParsesUpTo(raw, "<", "");
    assert "<" + "" == "<";
  }

  /** An element whose end tag has another name is an error. */
  lemma OtherEndTag(f: Form, endName: string, rest: string, docEmpty: bool)
    requires f.Full? && WellFormed(f, docEmpty) && LegalName(endName) && endName != f.name
    ensures var body := FormsSpelled(f.kids, EndSpelled(f.beforeEnd, endName, f.endTail, rest));
      ParseOne("<" + (f.name + AllSpelled(f.attrs, f.tail + (">" + body))), docEmpty) == Bad(MismatchedElement)
  {
    hide ParseOne, ParseNodes, White, LegalName, AllSpelled, AllMeant, FormsSpelled, FormsMeant, AllWell;
    hide ParseName, ParseAttributes;
    var end := EndSpelled(f.beforeEnd, endName, f.endTail, rest);
    var body := FormsSpelled(f.kids, end);
    TagIsRead(f.name, f.attrs, f.tail, false, body);
    EndOpens(f.beforeEnd, endName, f.endTail, rest);
    FormsAreRead(f.kids, end, docEmpty, false);
    EndIsRead(f.beforeEnd, endName, f.endTail, rest, docEmpty);
    SomethingSpelled(f.kids, end, docEmpty);
    Mismatched(f.name, AllSpelled(f.attrs, f.tail + (">" + body)), AllMeant(f.attrs), body, docEmpty);
  }

  lemma Mismatched(name: string, behind: string, attrs: seq<Attr>, body: string, docEmpty: bool)
    requires LegalName(name) && ParseName(name + behind) == Some((name, behind))
    requires ParseAttributes(behind, []) == Tag(attrs, false, body) && body != ""
    requires ParseNodes(body, docEmpty, false).Closed? && ParseNodes(body, docEmpty, false).name != name
    ensures ParseOne("<" + (name + behind), docEmpty) == Bad(MismatchedElement)
  {
    hide SkipWhiteSpace, ParseAttributes, ParseName, ParseNodes, Identify, LegalName;
    NameStart(name);
    NameIsNoMark(name);
    IdentifiesElement(name + behind);
    SkipsNothing(name + behind);
  }

  /** A second attribute of the same name is an error. */
  lemma DoubledAttribute(ws: seq<Written>, w: Written, rest: string, done: seq<Attr>)
    requires (forall i :: 0 <= i < |ws| ==> WellWritten(ws[i])) && WellWritten(w)
    requires forall i, j :: 0 <= i < j < |ws| ==> ws[i].name != ws[j].name
    requires forall i :: 0 <= i < |ws| ==> !HasAttr(done, ws[i].name)
    requires HasAttr(done + AllMeant(ws), w.name)
    ensures ParseAttributes(AllSpelled(ws, Spelled(w, rest)), done) == BadTag(ParsingAttribute)
    decreases |ws|
  {
    hide ParseAttr, White, Blank, WellWritten, SkipWhiteSpace, HasAttr, Spelled, Meant;
    if ws == [] {
      assert done + [] == done;
      SecondTime(w, rest, done);
    } else {
      var v := ws[0];
      WrittenStep(v, AllSpelled(ws[1..], Spelled(w, rest)), done);
      forall i | 0 <= i < |ws[1..]| ensures !HasAttr(done + [Meant(v)], ws[1..][i].name) {
        OtherName(done, v, ws[i + 1].name);
      }
      assert done + [Meant(v)] + AllMeant(ws[1..]) == done + ([Meant(v)] + AllMeant(ws[1..]));
      DoubledAttribute(ws[1..], w, rest, done + [Meant(v)]);
    }
  }

  lemma SecondTime(w: Written, rest: string, done: seq<Attr>)
    requires WellWritten(w) && HasAttr(done, w.name)
    ensures ParseAttributes(Spelled(w, rest), done) == BadTag(ParsingAttribute)
  {
    hide ParseAttr, White, Blank, SkipWhiteSpace, HasAttr, Behind, Decode;
    var p := w.name + Behind(w, rest);
    WhiteIsBlank(w.before);
    SkipsBlank(w.before, p);
    assert p[0] == w.name[0] && IsNameStartChar(p[0]);
    SkipsNothing(p);
    ParsesWritten(w, rest);
  }

  /** A declaration behind another node is an error. */
  lemma LateDeclaration(before: string, v: string, rest: string, top: bool)
    requires White(before) && !Contains(v, "?>")
    ensures ParseNodes(before + ("<?" + (v + ("?>" + rest))), false, top) == Failed(ParsingDeclaration)
  {
    hide Identify, SkipWhiteSpace, Contains, Decode, ParseText, White;
    SkippedBeforeMarkup(before, "<?" + (v + ("?>" + rest)), false);
    IdentifiesDeclaration(v + ("?>" + rest));
    ParsesUpTo(v, "?>", rest);
  }
}
