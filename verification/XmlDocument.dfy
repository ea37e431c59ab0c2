/** Printing a document in compact mode and parsing the print gives the document back. */
module XmlDocument {
  import opened XmlText
  import opened XmlRoundTrip
  import opened XmlDom
  import opened XmlParser

  // ---------------------------------------------------------------------------------------------------------
  // The documents of which this holds

  predicate Contains(s: string, t: string) {
    exists i :: 0 <= i <= |s| && StartsWith(s[i..], t)
  }

  predicate LegalName(s: string) {
    s != "" && IsNameStartChar(s[0]) && forall i :: 0 <= i < |s| ==> IsNameChar(s[i])
  }

  predicate LegalAttrs(attrs: seq<Attr>) {
    && (forall i :: 0 <= i < |attrs| ==> LegalName(attrs[i].name) && CR !in attrs[i].value)
    && (forall i, j :: 0 <= i < j < |attrs| ==> attrs[i].name != attrs[j].name)
  }

  predicate Plain(n: Node) { n.Text? && !n.cdata }

  predicate Blank(s: string) { forall i :: 0 <= i < |s| ==> IsWhiteSpace(s[i]) }

  /** A node that comes back; `docEmpty` says that the document has no child yet when the parser meets it. */
  predicate LegalNode(n: Node, docEmpty: bool)
    decreases n, 1
  {
    match n
    case Element(name, attrs, kids) => LegalName(name) && LegalAttrs(attrs) && LegalNodes(kids, docEmpty, false)
    case Text(v, cdata) => CR !in v && if cdata then !Contains(v, "]]>") else !Blank(v)
    case Comment(v) => CR !in v && !Contains(v, "-->")
    case Declaration(v) => CR !in v && !Contains(v, "?>") && docEmpty
    case Unknown(v) => CR !in v && !Contains(v, ">") && !StartsWith(v, "--") && !StartsWith(v, "[CDATA[")
  }

  predicate LegalNodes(ns: seq<Node>, docEmpty: bool, top: bool)
    decreases ns, 0
  {
    ns != [] ==>
      && LegalNode(ns[0], docEmpty)
      && (Plain(ns[0]) && |ns| > 1 ==> !Plain(ns[1]))
      && (Plain(ns[0]) && |ns| == 1 ==> !top)
      && LegalNodes(ns[1..], docEmpty && !top, top)
  }

  /** Text that opens a document without a byte order mark must not look like one, nor begin with white space. */
  predicate LegalStart(d: Document) {
    !d.bom && d.kids != [] && Plain(d.kids[0]) ==>
      d.kids[0].value != "" && !IsWhiteSpace(d.kids[0].value[0]) && !StartsWith(d.kids[0].value, BOM)
  }

  predicate LegalDocument(d: Document) {
    d.kids != [] && LegalNodes(d.kids, true, true) && LegalStart(d)
  }

  // ---------------------------------------------------------------------------------------------------------
  // Runs of text

  /** The last character of the tag tells it from every shift of itself. */
  predicate EndsOnce(tag: string) {
    tag != "" && forall i :: 0 <= i < |tag| - 1 ==> tag[i] != tag[|tag| - 1]
  }

  lemma {:induction false} FindsFirst(body: string, tag: string, rest: string)
    requires EndsOnce(tag) && !Contains(body, tag)
    ensures Find(body + (tag + rest), tag) == |body|
  {
    var s := body + (tag + rest);
    if body == "" {
      assert s == tag + rest;
    } else {
      NotYet(body, tag, rest);
      assert s[1..] == body[1..] + (tag + rest);
      if Contains(body[1..], tag) { TailContains(body, tag); }
      FindsFirst(body[1..], tag, rest);
    }
  }

  lemma NotYet(body: string, tag: string, rest: string)
    requires EndsOnce(tag) && !Contains(body, tag) && body != ""
    ensures !StartsWith(body + (tag + rest), tag)
  {
    var s := body + (tag + rest);
    if |tag| <= |body| {
      assert body[0..] == body;
      assert s[..|tag|] == body[..|tag|];
    } else {
      assert s[|tag| - 1] == tag[|tag| - 1 - |body|];
    }
  }

  lemma TailContains(body: string, tag: string)
    requires body != "" && Contains(body[1..], tag)
    ensures Contains(body, tag)
  {
    var i :| 0 <= i <= |body[1..]| && StartsWith(body[1..][i..], tag);
    assert body[1..][i..] == body[i + 1..];
  }

  lemma ParsesUpTo(body: string, tag: string, rest: string)
    requires EndsOnce(tag) && !Contains(body, tag)
    ensures ParseText(body + (tag + rest), tag) == Some((body, rest))
  {
    hide Find, Contains;
    FindsFirst(body, tag, rest);
    var s := body + (tag + rest);
    assert s[..|body|] == body && s[|body| + |tag|..] == rest;
  }

  lemma {:induction false} EscapeIsSafe(v: string, restricted: bool, c: char)
    requires c == '<' || c == '>' || (c == '"' && !restricted)
    ensures c !in Escape(v, restricted)
  {
    hide Escape;
    EscapeSplit(v, restricted);
    if v != "" {
      EscapeIsSafe(v[1..], restricted, c);
    }
  }

  lemma OneCharacter(s: string, c: char)
    requires c !in s
    ensures !Contains(s, [c])
  {
    forall i | 0 <= i <= |s| ensures !StartsWith(s[i..], [c]) {
      if i < |s| { assert s[i] in s; }
    }
  }

  // ---------------------------------------------------------------------------------------------------------
  // Names and attributes

  lemma {:induction false} NameEnds(name: string, rest: string)
    requires forall i :: 0 <= i < |name| ==> IsNameChar(name[i])
    requires rest != "" ==> !IsNameChar(rest[0])
    ensures NameLength(name + rest) == |name|
  {
    if name == "" {
      assert name + rest == rest;
    } else {
      NameEnds(name[1..], rest);
      assert (name + rest)[1..] == name[1..] + rest;
    }
  }

  lemma ParsesName(name: string, rest: string)
    requires LegalName(name) && (rest != "" ==> !IsNameChar(rest[0]))
    ensures ParseName(name + rest) == Some((name, rest))
  {
    NameEnds(name, rest);
  }

  lemma SkipsNothing(s: string)
    requires s != "" && !IsWhiteSpace(s[0])
    ensures SkipWhiteSpace(s) == s
  {
  }

  /** The print of an attribute, regrouped. */
  function AttrText(a: Attr, rest: string): string {
    a.name + ("=" + ("\"" + (Escape(a.value, false) + ("\"" + rest))))
  }

  lemma AttrTextIs(a: Attr, rest: string)
    ensures PrintAttr(a) + rest == " " + AttrText(a, rest)
    ensures AttrText(a, rest) == a.name + ("=" + ("\"" + (Escape(a.value, false) + ("\"" + rest))))
  {
    hide Escape;
  }

  lemma ParsesAttr(a: Attr, rest: string)
    requires LegalName(a.name)
    ensures ParseAttr(AttrText(a, rest)) == Some((Attr(a.name, Normalized(a.value)), rest))
    ensures CR !in a.value <==> Attr(a.name, Normalized(a.value)) == a
  {
    hide Escape, ParseName, ParseText, Decode, LegalName, SkipWhiteSpace, Contains;
    var value := Escape(a.value, false);
    var quoted := "\"" + (value + ("\"" + rest));
    ParsesName(a.name, "=" + quoted);
    SkipsNothing("=" + quoted);
    assert ("=" + quoted)[1..] == quoted;
    SkipsNothing(quoted);
    assert quoted[1..] == value + ("\"" + rest);
    EscapeIsSafe(a.value, false, '"');
    OneCharacter(value, '"');
    ParsesUpTo(value, "\"", rest);
    DecodeEscape(a.value, false);
    NormalizedIff(a.value);
  }

  /** The end of an open tag. */
  function TagEnd(isSealed: bool): string { if isSealed then "/>" else ">" }

  lemma {:induction false} ParsesAttributes(attrs: seq<Attr>, done: seq<Attr>, isSealed: bool, rest: string)
    requires LegalAttrs(done + attrs)
    ensures ParseAttributes(PrintAttrs(attrs) + (TagEnd(isSealed) + rest), done) == Tag(done + attrs, isSealed, rest)
    decreases |attrs|
  {
    hide ParseAttr, LegalName, PrintAttr, SkipWhiteSpace, HasAttr, Normalized;
    var end := TagEnd(isSealed) + rest;
    if attrs == [] {
      assert done + attrs == done && PrintAttrs(attrs) + end == end;
      SkipsNothing(end);
      assert !IsNameStartChar(end[0]);
      assert isSealed ==> end[2..] == rest;
      assert !isSealed ==> end[1..] == rest;
    } else {
      var a, more := attrs[0], PrintAttrs(attrs[1..]) + end;
      assert PrintAttrs(attrs) + end == PrintAttr(a) + more;
      assert a == (done + attrs)[|done|];
      NewName(done, attrs);
      ReadsOne(PrintAttrs(attrs) + end, done, a, more);
      NormalizedIff(a.value);
      assert done + attrs == done + [a] + attrs[1..];
      ParsesAttributes(attrs[1..], done + [a], isSealed, rest);
    }
  }

  lemma ReadsOne(s: string, done: seq<Attr>, a: Attr, more: string)
    requires s == PrintAttr(a) + more && LegalName(a.name) && !HasAttr(done, a.name)
    ensures ParseAttributes(s, done) == ParseAttributes(more, done + [Attr(a.name, Normalized(a.value))])
  {
    hide ParseAttr, AttrText, LegalName, PrintAttr, SkipWhiteSpace, HasAttr;
    AttrTextIs(a, more);
    NameOpens(a, more);
    SkipsSpace(AttrText(a, more));
    ParsesAttr(a, more);
    AttributeStep(s, done, AttrText(a, more), Attr(a.name, Normalized(a.value)), more);
  }

  lemma AttributeStep(s: string, done: seq<Attr>, p: string, a: Attr, more: string)
    requires SkipWhiteSpace(s) == p && p != "" && IsNameStartChar(p[0])
    requires ParseAttr(p) == Some((a, more)) && !HasAttr(done, a.name)
    ensures ParseAttributes(s, done) == ParseAttributes(more, done + [a])
  {
    hide ParseAttr, HasAttr, IsNameStartChar;
  }

  lemma NameOpens(a: Attr, rest: string)
    requires LegalName(a.name)
    ensures AttrText(a, rest) != "" && IsNameStartChar(AttrText(a, rest)[0]) && !IsWhiteSpace(AttrText(a, rest)[0])
  {
    hide Escape;
  }

  lemma SkipsSpace(s: string)
    requires s != "" && !IsWhiteSpace(s[0])
    ensures SkipWhiteSpace(" " + s) == s
  {
    assert (" " + s)[1..] == s;
  }

  lemma NewName(done: seq<Attr>, attrs: seq<Attr>)
    requires attrs != [] && LegalAttrs(done + attrs)
    ensures !HasAttr(done, attrs[0].name)
  {
    hide LegalName;
    forall b | b in done ensures b.name != attrs[0].name {
      var i :| 0 <= i < |done| && done[i] == b;
      assert (done + attrs)[i] == b && (done + attrs)[|done|] == attrs[0];
    }
  }

  // ---------------------------------------------------------------------------------------------------------
  // Nodes without children

  lemma ParsesBody(v: string, tag: string, rest: string, make: string -> Node, error: XmlError)
    requires EndsOnce(tag) && !Contains(v, tag) && CR !in v
    ensures ParseBody(v + (tag + rest), tag, false, make, error) == Got(make(v), rest)
  {
    hide Contains, ParseText, Decode;
    ParsesUpTo(v, tag, rest);
    VerbatimRoundTrip(v);
  }

  lemma Differs(s: string, tag: string, i: nat)
    requires i < |tag| && (i < |s| ==> s[i] != tag[i])
    ensures !StartsWith(s, tag)
  {
  }

  lemma Begins(tag: string, t: string)
    requires tag != "" && tag[0] == '<'
    ensures StartsWith(tag + t, tag) && (tag + t)[|tag|..] == t && SkipWhiteSpace(tag + t) == tag + t
  {
    SkipsNothing(tag + t);
  }

  lemma IdentifiesDeclaration(t: string)
    ensures SkipWhiteSpace("<?" + t) != "" && Identify("<?" + t) == (IsDeclaration, t)
  {
    hide StartsWith, SkipWhiteSpace;
    Begins("<?", t);
  }

  lemma IdentifiesComment(t: string)
    ensures SkipWhiteSpace("<!--" + t) != "" && Identify("<!--" + t) == (IsComment, t)
  {
    hide StartsWith, SkipWhiteSpace;
    Begins("<!--", t);
    Differs("<!--" + t, "<?", 1);
  }

  lemma IdentifiesCData(t: string)
    ensures SkipWhiteSpace("<![CDATA[" + t) != "" && Identify("<![CDATA[" + t) == (IsCData, t)
  {
    hide StartsWith, SkipWhiteSpace;
    Begins("<![CDATA[", t);
    Differs("<![CDATA[" + t, "<?", 1);
    Differs("<![CDATA[" + t, "<!--", 2);
  }

  lemma IdentifiesUnknown(t: string)
    requires !StartsWith(t, "--") && !StartsWith(t, "[CDATA[")
    ensures SkipWhiteSpace("<!" + t) != "" && Identify("<!" + t) == (IsUnknown, t)
  {
    hide StartsWith, SkipWhiteSpace;
    Begins("<!", t);
    Differs("<!" + t, "<?", 1);
    assert "<!" + "--" == "<!--" && "<!" + "[CDATA[" == "<![CDATA[";
    if StartsWith("<!" + t, "<!" + "--") { Behind("<!", t, "--"); }
    if StartsWith("<!" + t, "<!" + "[CDATA[") { Behind("<!", t, "[CDATA["); }
  }

  lemma Behind(head: string, t: string, tag: string)
    requires StartsWith(head + t, head + tag)
    ensures StartsWith(t, tag)
  {
    forall i | 0 <= i < |tag| ensures t[i] == tag[i] {
      assert t[i] == (head + t)[|head| + i] && (head + tag)[|head| + i] == tag[i];
    }
  }

  lemma IdentifiesElement(t: string)
    requires t != "" && t[0] != '?' && t[0] != '!'
    ensures SkipWhiteSpace("<" + t) != "" && Identify("<" + t) == (IsElement, t)
  {
    hide StartsWith, SkipWhiteSpace;
    Begins("<", t);
    Differs("<" + t, "<?", 1);
    Differs("<" + t, "<!--", 1);
    Differs("<" + t, "<![CDATA[", 1);
    Differs("<" + t, "<!", 1);
  }

  lemma UnknownIsNoComment(v: string, rest: string, head: string)
    requires !StartsWith(v, head) && '>' !in head
    ensures !StartsWith(v + (">" + rest), head)
  {
    var s := v + (">" + rest);
    assert s[|v|] == '>';
    if |head| <= |v| {
      assert s[..|head|] == v[..|head|];
    } else {
      assert head[|v|] in head;
    }
  }

  /** Nodes whose text is not escaped. */
  lemma LeafComesBack(n: Node, rest: string, docEmpty: bool)
    requires LegalNode(n, docEmpty) && !n.Element? && !Plain(n)
    ensures ParseOne(PrintNode(n) + rest, docEmpty) == Got(n, rest)
  {
    hide Identify, SkipWhiteSpace, ParseBody, Contains;
    match n
    case Text(v, _) =>
      var body := v + ("]]>" + rest);
      IdentifiesCData(body);
      Bracketed("<![CDATA[", v, "]]>", rest);
      ParsesBody(v, "]]>", rest, v => Text(v, true), ParsingCData);
    case Comment(v) =>
      IdentifiesComment(v + ("-->" + rest));
      Bracketed("<!--", v, "-->", rest);
      ParsesBody(v, "-->", rest, v => Comment(v), ParsingComment);
    case Declaration(v) =>
      IdentifiesDeclaration(v + ("?>" + rest));
      Bracketed("<?", v, "?>", rest);
      ParsesBody(v, "?>", rest, v => Declaration(v), ParsingDeclaration);
    case Unknown(v) =>
      UnknownIsNoComment(v, rest, "--");
      UnknownIsNoComment(v, rest, "[CDATA[");
      IdentifiesUnknown(v + (">" + rest));
      Bracketed("<!", v, ">", rest);
      ParsesBody(v, ">", rest, v => Unknown(v), ParsingUnknown);
  }

  lemma Bracketed(a: string, b: string, c: string, d: string)
    ensures a + b + c + d == a + (b + (c + d))
  {
  }

  // ---------------------------------------------------------------------------------------------------------
  // Plain text

  lemma {:induction false} EscapeOpens(v: string, rest: string)
    requires !Blank(v)
    ensures var p := SkipWhiteSpace(Escape(v, true) + rest); p != "" && p[0] != '<'
  {
    hide EscapeChar, Escape, Blank;
    NotBlank(v);
    EscapeSplit(v, true);
    EscapeCharOpens(v[0]);
    var s := EscapeChar(v[0], true) + (Escape(v[1..], true) + rest);
    assert Escape(v, true) + rest == s;
    if IsWhiteSpace(v[0]) {
      EscapeOpens(v[1..], rest);
      assert s[1..] == Escape(v[1..], true) + rest;
    }
  }

  lemma NotBlank(v: string)
    requires !Blank(v)
    ensures v != "" && (IsWhiteSpace(v[0]) ==> !Blank(v[1..]))
  {
    if v != "" && Blank(v[1..]) {
      assert forall i :: 0 < i < |v| ==> v[i] == v[1..][i - 1];
    }
  }

  lemma EscapeCharOpens(c: char)
    ensures var e := EscapeChar(c, true);
      e != "" && e[0] != '<' && (IsWhiteSpace(c) ==> e == [c]) && (!IsWhiteSpace(c) ==> !IsWhiteSpace(e[0]))
  {
  }

  lemma IdentifiesText(s: string)
    requires var p := SkipWhiteSpace(s); p != "" && p[0] != '<'
    ensures Identify(s) == (IsText, s)
  {
    hide StartsWith, SkipWhiteSpace;
    var p := SkipWhiteSpace(s);
    Differs(p, "<?", 0);
    Differs(p, "<!--", 0);
    Differs(p, "<![CDATA[", 0);
    Differs(p, "<!", 0);
    Differs(p, "<", 0);
  }

  /** What may follow plain text: more than a lone `<`. */
  predicate IsMarkup(s: string) { |s| >= 2 && s[0] == '<' }

  lemma TextComesBack(v: string, rest: string, docEmpty: bool)
    requires CR !in v && !Blank(v) && IsMarkup(rest)
    ensures ParseOne(Escape(v, true) + rest, docEmpty) == Got(Text(v, false), rest)
  {
    hide Escape, SkipWhiteSpace, Identify, ParseText, Decode, Contains, Blank;
    EscapeOpens(v, rest);
    IdentifiesText(Escape(v, true) + rest);
    EscapeIsSafe(v, true, '<');
    OneCharacter(Escape(v, true), '<');
    ParsesUpTo(Escape(v, true), "<", rest[1..]);
    assert rest == "<" + rest[1..];
    RoundTrip(v, true);
  }

  // ---------------------------------------------------------------------------------------------------------
  // Elements

  /** The open tag of an element, as `ParseElement` gets to see it. */
  function OpenTag(name: string, attrs: seq<Attr>, isSealed: bool, rest: string): string {
    name + (PrintAttrs(attrs) + (TagEnd(isSealed) + rest))
  }

  lemma {:induction false} BehindName(attrs: seq<Attr>, isSealed: bool, rest: string)
    ensures var s := PrintAttrs(attrs) + (TagEnd(isSealed) + rest); s != "" && !IsNameChar(s[0])
  {
    hide Escape;
  }

  lemma ParsesOpenTag(name: string, attrs: seq<Attr>, isSealed: bool, rest: string)
    requires LegalName(name) && LegalAttrs(attrs)
    ensures SkipWhiteSpace(OpenTag(name, attrs, isSealed, rest)) == OpenTag(name, attrs, isSealed, rest)
    ensures OpenTag(name, attrs, isSealed, rest) != "" && IsNameStartChar(OpenTag(name, attrs, isSealed, rest)[0])
    ensures var s := PrintAttrs(attrs) + (TagEnd(isSealed) + rest);
            && ParseName(OpenTag(name, attrs, isSealed, rest)) == Some((name, s))
            && ParseAttributes(s, []) == Tag(attrs, isSealed, rest)
  {
    hide PrintAttrs, ParseName, ParseAttributes, SkipWhiteSpace, LegalAttrs, TagEnd;
    BehindName(attrs, isSealed, rest);
    ParsesName(name, PrintAttrs(attrs) + (TagEnd(isSealed) + rest));
    SkipsNothing(OpenTag(name, attrs, isSealed, rest));
    assert [] + attrs == attrs;
    ParsesAttributes(attrs, [], isSealed, rest);
  }

  lemma SealedElement(name: string, attrs: seq<Attr>, rest: string, docEmpty: bool)
    requires LegalName(name) && LegalAttrs(attrs)
    ensures ParseOne("<" + OpenTag(name, attrs, true, rest), docEmpty) == Got(Element(name, attrs, []), rest)
  {
    hide OpenTag, PrintAttrs, TagEnd, ParseName, ParseAttributes, SkipWhiteSpace, LegalName, LegalAttrs, Identify;
    ParsesOpenTag(name, attrs, true, rest);
    IdentifiesElement(OpenTag(name, attrs, true, rest));
  }

  lemma OpenElement(name: string, attrs: seq<Attr>, body: string, docEmpty: bool, kids: seq<Node>, rest: string)
    requires LegalName(name) && LegalAttrs(attrs) && body != ""
    requires ParseNodes(body, docEmpty, false) == Closed(kids, name, rest)
    ensures ParseOne("<" + OpenTag(name, attrs, false, body), docEmpty) == Got(Element(name, attrs, kids), rest)
  {
    hide OpenTag, PrintAttrs, TagEnd, ParseName, ParseAttributes, SkipWhiteSpace, LegalName, LegalAttrs, Identify;
    hide ParseNodes;
    ParsesOpenTag(name, attrs, false, body);
    IdentifiesElement(OpenTag(name, attrs, false, body));
  }

  lemma EndTagIsClosing(name: string, rest: string, docEmpty: bool)
    requires LegalName(name)
    ensures ParseElement("/" + (name + (">" + rest)), docEmpty) == ClosingTag(name, rest)
  {
    hide PrintAttrs, ParseName, ParseAttributes, SkipWhiteSpace, LegalName;
    var tag := name + (">" + rest);
    NoAttrText(rest);
    ParsesOpenTag(name, [], false, rest);
    assert OpenTag(name, [], false, rest) == tag;
    SkipsNothing("/" + tag);
    assert ("/" + tag)[1..] == tag;
  }

  /** The end tag of an element ends the list of its children. */
  lemma EndTag(name: string, rest: string, docEmpty: bool)
    requires LegalName(name)
    ensures ParseNodes("</" + (name + (">" + rest)), docEmpty, false) == Closed([], name, rest)
  {
    hide LegalName, SkipWhiteSpace, Identify, ParseElement;
    var tag := "/" + (name + (">" + rest));
    EndTagIsClosing(name, rest, docEmpty);
    IdentifiesElement(tag);
    assert "<" + tag == "</" + (name + (">" + rest));
  }

  lemma NoAttrText(rest: string)
    ensures PrintAttrs([]) + (TagEnd(false) + rest) == ">" + rest
  {
  }

  // ---------------------------------------------------------------------------------------------------------
  // All nodes

  lemma ElementPrint(n: Node, rest: string)
    requires n.Element?
    ensures n.kids == [] ==> PrintNode(n) + rest == "<" + OpenTag(n.name, n.attrs, true, rest)
    ensures n.kids != [] ==>
      PrintNode(n) + rest ==
        "<" + OpenTag(n.name, n.attrs, false, PrintNodes(n.kids) + ("</" + (n.name + (">" + rest))))
  {
    hide PrintAttrs, PrintNodes;
    Bracketed("<", n.name, PrintAttrs(n.attrs), if n.kids == [] then "/>" + rest
      else ">" + (PrintNodes(n.kids) + ("</" + (n.name + (">" + rest)))));
  }

  lemma PrintOpens(n: Node)
    requires !Plain(n)
    ensures IsMarkup(PrintNode(n))
  {
    hide PrintAttrs, PrintNodes;
  }

  lemma MarkupAhead(s: string, t: string)
    requires IsMarkup(s)
    ensures IsMarkup(s + t)
  {
  }

  /** One node comes back, whatever follows it. */
  lemma {:induction false} NodeComesBack(n: Node, rest: string, docEmpty: bool)
    requires LegalNode(n, docEmpty) && (Plain(n) ==> IsMarkup(rest))
    ensures ParseOne(PrintNode(n) + rest, docEmpty) == Got(n, rest)
    decreases n, 1
  {
    hide PrintNodes, LegalNodes, ParseOne, ParseNodes, OpenTag, LegalName, LegalAttrs, Escape, Contains, Blank;
    if n.Element? {
      hide PrintNode;
      ElementPrint(n, rest);
      if n.kids == [] {
        SealedElement(n.name, n.attrs, rest, docEmpty);
      } else {
        var end := "</" + (n.name + (">" + rest));
        NodesComeBack(n.kids, end, docEmpty, false);
        EndTag(n.name, rest, docEmpty);
        assert n.kids + [] == n.kids;
        OpenElement(n.name, n.attrs, PrintNodes(n.kids) + end, docEmpty, n.kids, rest);
      }
    } else if Plain(n) {
      TextComesBack(n.value, rest, docEmpty);
    } else {
      hide PrintNode;
      LeafComesBack(n, rest, docEmpty);
    }
  }

  /** A list of nodes comes back in front of whatever else there is. */
  lemma {:induction false} NodesComeBack(ns: seq<Node>, rest: string, docEmpty: bool, top: bool)
    requires LegalNodes(ns, docEmpty, top) && (top || IsMarkup(rest))
    ensures ParseNodes(PrintNodes(ns) + rest, docEmpty, top) ==
      Prepend(ns, ParseNodes(rest, docEmpty && !(top && ns != []), top))
    decreases ns, 0
  {
    hide PrintNode, LegalNode, ParseOne, ParseNodes, Plain;
    if ns == [] {
      assert PrintNodes(ns) + rest == rest;
      PrependNone(ParseNodes(rest, docEmpty, top));
    } else {
      var more := PrintNodes(ns[1..]) + rest;
      assert PrintNodes(ns) + rest == PrintNode(ns[0]) + more;
      if Plain(ns[0]) {
        TextIsFollowed(ns, rest, docEmpty, top);
      }
      NodeComesBack(ns[0], more, docEmpty);
      DeclarationIsFirst(ns[0], docEmpty);
      ParseStep(PrintNode(ns[0]) + more, docEmpty, top);
      NodesComeBack(ns[1..], rest, docEmpty && !top, top);
      PrependTwo(ns, ParseNodes(rest, docEmpty && !top, top));
    }
  }

  lemma DeclarationIsFirst(n: Node, docEmpty: bool)
    requires LegalNode(n, docEmpty)
    ensures n.Declaration? ==> docEmpty
  {
  }

  lemma PrependTwo(ns: seq<Node>, r: Siblings)
    requires ns != []
    ensures Prepend([ns[0]], Prepend(ns[1..], r)) == Prepend(ns, r)
  {
    if !r.Failed? {
      assert [ns[0]] + (ns[1..] + r.nodes) == ns + r.nodes;
    }
  }

  lemma TextIsFollowed(ns: seq<Node>, rest: string, docEmpty: bool, top: bool)
    requires ns != [] && Plain(ns[0]) && LegalNodes(ns, docEmpty, top) && (top || IsMarkup(rest))
    ensures IsMarkup(PrintNodes(ns[1..]) + rest)
  {
    hide PrintNode, LegalNode, Plain;
    if |ns| == 1 {
      assert PrintNodes(ns[1..]) + rest == rest;
    } else {
      PrintOpens(ns[1]);
      assert PrintNodes(ns[1..]) + rest == PrintNode(ns[1]) + (PrintNodes(ns[1..][1..]) + rest);
      MarkupAhead(PrintNode(ns[1]), PrintNodes(ns[1..][1..]) + rest);
    }
  }

  // ---------------------------------------------------------------------------------------------------------
  // Documents

  lemma {:induction false} NoMarkInEscape(v: string, rest: string, mark: string)
    requires !StartsWith(v, mark) && (rest != "" ==> rest[0] == '<') && (forall c :: c in mark ==> c as int >= 0x80)
    ensures !StartsWith(Escape(v, true) + rest, mark)
    decreases |v|
  {
    hide EscapeChar, Escape;
    var s := Escape(v, true) + rest;
    EscapeSplit(v, true);
    if v == "" {
      if s != "" && mark != "" { assert mark[0] in mark && s[0] == '<'; }
    } else {
      var e, more := EscapeChar(v[0], true), Escape(v[1..], true) + rest;
      assert s == e + more;
      EscapeHigh(v[0]);
      if StartsWith(s, mark) {
        assert s[0] == mark[0] && mark[0] in mark;
        assert s[1..] == more;
        SameHead(s, v, mark);
        assert forall c :: c in mark[1..] ==> c in mark;
        NoMarkInEscape(v[1..], rest, mark[1..]);
      }
    }
  }

  lemma EscapeHigh(c: char)
    ensures var e := EscapeChar(c, true); e != "" && (e[0] as int >= 0x80 ==> e == [c])
  {
  }

  lemma SameHead(s: string, v: string, mark: string)
    requires mark != "" && v != "" && s != "" && s[0] == v[0] && StartsWith(s, mark)
    ensures StartsWith(s[1..], mark[1..])
    ensures StartsWith(v[1..], mark[1..]) ==> StartsWith(v, mark)
  {
    if StartsWith(v[1..], mark[1..]) {
      assert forall i :: 0 < i < |mark| ==> v[i] == v[1..][i - 1] == mark[1..][i - 1] == mark[i];
    }
  }

  /** A document without a mark shows none, and no white space before it. */
  lemma DocumentOpens(kids: seq<Node>)
    requires LegalDocument(Document(false, kids))
    ensures var s := PrintNodes(kids); s != "" && !IsWhiteSpace(s[0]) && !StartsWith(s, BOM)
  {
    hide PrintNode, LegalNode, Escape, StartsWith;
    var n, more := kids[0], PrintNodes(kids[1..]);
    assert PrintNodes(kids) == PrintNode(n) + more;
    if Plain(n) {
      TextIsFollowed(kids, "", true, true);
      assert more + "" == more;
      assert PrintNode(n) == Escape(n.value, true) by { PlainPrint(n); }
      NoMarkInEscape(n.value, more, BOM);
      EscapeSplit(n.value, true);
      EscapeCharOpens(n.value[0]);
    } else {
      PrintOpens(n);
      Differs(PrintNodes(kids), BOM, 0);
    }
  }

  lemma PlainPrint(n: Node)
    requires Plain(n)
    ensures PrintNode(n) == Escape(n.value, true)
  {
    hide Escape;
  }

  /** The round trip. */
  lemma DocumentComesBack(d: Document)
    requires LegalDocument(d)
    ensures ParseDocument(PrintDocument(d)) == Success(d)
  {
    hide PrintNodes, ParseNodes, LegalNodes, StartsWith, SkipWhiteSpace, LegalStart;
    var text := PrintNodes(d.kids);
    NodesComeBack(d.kids, "", true, true);
    assert text + "" == text;
    NothingLeft();
    assert d.kids + [] == d.kids;
    if d.bom {
      SkipsNothing(BOM + text);
      BeginsWithMark(text);
      SomethingPrinted(d.kids);
    } else {
      assert d == Document(false, d.kids) && "" + text == text;
      DocumentOpens(d.kids);
      SkipsNothing(text);
    }
  }

  lemma BeginsWithMark(text: string)
    ensures StartsWith(BOM + text, BOM) && (BOM + text)[3..] == text
  {
  }

  lemma NothingLeft()
    ensures ParseNodes("", false, true) == Ended([])
  {
  }

  lemma SomethingPrinted(kids: seq<Node>)
    requires kids != [] && LegalNodes(kids, true, true)
    ensures PrintNodes(kids) != ""
  {
    hide Escape, PrintAttrs, LegalNode;
    if Plain(kids[0]) {
      TextIsFollowed(kids, "", true, true);
    }
  }

  /** A document without nodes does not come back, with or without a mark. */
  lemma EmptyDocumentIsRefused(bom: bool)
    ensures ParseDocument(PrintDocument(Document(bom, []))) == Failure(EmptyDocument)
  {
    hide SkipWhiteSpace, StartsWith;
    var text := PrintDocument(Document(bom, []));
    assert text == if bom then BOM else "";
    if bom {
      assert BOM + "" == BOM;
      SkipsNothing(BOM);
      BeginsWithMark("");
    } else {
      NothingToSkip();
    }
  }

  lemma NothingToSkip()
    ensures SkipWhiteSpace("") == "" && !StartsWith("", BOM)
  {
  }
}
