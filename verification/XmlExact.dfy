/** The converse of the round trip: a document that comes back from its compact print is a legal one. */
module XmlExact {
  import opened XmlText
  import opened XmlRoundTrip
  import opened XmlDom
  import opened XmlParser
  import opened XmlDocument

  // ---------------------------------------------------------------------------------------------------------
  // Runs of text

  /** The body is cut where the terminator first begins, in it or behind it. */
  lemma CutsAtTheFirst(v: string, tag: string, rest: string)
    requires tag != ""
    ensures 0 <= Find(v + (tag + rest), tag) <= |v|
    ensures Contains(v, tag) ==> Find(v + (tag + rest), tag) < |v|
  {
    hide Find;
    var s := v + (tag + rest);
    assert s[|v|..] == tag + rest;
    var i := Find(s, tag);
    if Contains(v, tag) {
      var j :| 0 <= j <= |v| && StartsWith(v[j..], tag);
      assert s[j..] == v[j..] + (tag + rest);
    }
  }

  /** A body that comes back was not cut, and holds no CR. */
  lemma BodyIsWhole(v: string, tag: string, rest: string, make: string -> Node, error: XmlError)
    requires tag != ""
    requires var r := ParseBody(v + (tag + rest), tag, false, make, error); r.Got? && r.node == make(v)
    requires forall a, b :: make(a) == make(b) ==> a == b
    ensures !Contains(v, tag) && CR !in v
  {
    hide Contains, Find, DecodeFrom;
    CutsAtTheFirst(v, tag, rest);
    var i := Find(v + (tag + rest), tag);
    var raw := (v + (tag + rest))[..i];
    assert raw == v[..i];
    assert Decode(raw, true, false) == v;
    assert v[..|v|] == v;
    VerbatimRoundTrip(v);
  }

  lemma {:induction false} SkipsBlank(v: string, rest: string)
    ensures Blank(v) ==> SkipWhiteSpace(v + rest) == SkipWhiteSpace(rest)
    decreases |v|
  {
    if v == "" {
      assert v + rest == rest;
    } else if Blank(v) {
      SkipsBlank(v[1..], rest);
      assert (v + rest)[1..] == v[1..] + rest;
    }
  }

  lemma BlankIsPlain(v: string)
    requires Blank(v)
    ensures Escape(v, true) == v
  {
    EscapePlain(v, true);
  }

  // ---------------------------------------------------------------------------------------------------------
  // What the parser makes of any text

  /** A node tells what was identified. */
  ghost predicate KindFits(n: Node, kind: Kind) {
    match n
    case Element(_, _, _) => kind == IsElement
    case Text(_, cdata) => kind == if cdata then IsCData else IsText
    case Comment(_) => kind == IsComment
    case Declaration(_) => kind == IsDeclaration
    case Unknown(_) => kind == IsUnknown
  }

  lemma KindOf(s: string, docEmpty: bool)
    requires ParseOne(s, docEmpty).Got?
    ensures SkipWhiteSpace(s) != "" && KindFits(ParseOne(s, docEmpty).node, Identify(s).0)
  {
    hide Identify, SkipWhiteSpace, ParseText, Decode;
    hide ParseNodes, ParseAttributes, ParseName;
  }

  /** Text is followed by markup, never by other text. */
  lemma NoTextBehindText(s: string, docEmpty: bool, docEmpty': bool)
    requires ParseOne(s, docEmpty).Got? && Plain(ParseOne(s, docEmpty).node)
    ensures var rest := ParseOne(s, docEmpty).rest;
      ParseOne(rest, docEmpty').Got? ==> !Plain(ParseOne(rest, docEmpty').node)
  {
    hide ParseOne;
    KindOf(s, docEmpty);
    var rest := ParseOne(s, docEmpty).rest;
    assert rest != "" && rest[0] == '<' by { TextLeavesTag(s, docEmpty); }
    if ParseOne(rest, docEmpty').Got? {
      KindOf(rest, docEmpty');
      TagIsNoText(rest);
    }
  }

  lemma TextLeavesTag(s: string, docEmpty: bool)
    requires ParseOne(s, docEmpty).Got? && Plain(ParseOne(s, docEmpty).node)
    ensures var rest := ParseOne(s, docEmpty).rest; rest != "" && rest[0] == '<'
  {
    hide ParseText, Decode;
    KindOf(s, docEmpty);
    hide Identify, SkipWhiteSpace;
  }

  lemma TagIsNoText(s: string)
    requires s != "" && s[0] == '<'
    ensures SkipWhiteSpace(s) == s && Identify(s).0 != IsText
  {
  }

  lemma {:induction false} NameIsLegal(s: string)
    requires ParseName(s).Some?
    ensures LegalName(ParseName(s).value.0)
  {
    AllNameChars(s);
  }

  lemma {:induction false} AllNameChars(s: string)
    ensures forall i :: 0 <= i < NameLength(s) ==> IsNameChar(s[i])
  {
    if s != "" && IsNameChar(s[0]) {
      AllNameChars(s[1..]);
      assert forall i :: 0 < i < NameLength(s) ==> s[i] == s[1..][i - 1];
    }
  }

  /** Legal names, each once. */
  ghost predicate Named(attrs: seq<Attr>) {
    && (forall i :: 0 <= i < |attrs| ==> LegalName(attrs[i].name))
    && (forall i, j :: 0 <= i < j < |attrs| ==> attrs[i].name != attrs[j].name)
  }

  lemma {:induction false} AttributesAreNamed(s: string, done: seq<Attr>)
    requires Named(done) && ParseAttributes(s, done).Tag?
    ensures Named(ParseAttributes(s, done).attrs) && done <= ParseAttributes(s, done).attrs
    decreases |s|
  {
    hide ParseName, ParseText, Decode, LegalName;
    var p := SkipWhiteSpace(s);
    if IsNameStartChar(p[0]) {
      var (a, rest) := ParseAttr(p).value;
      NameIsLegal(p);
      assert forall i :: 0 <= i < |done| ==> done[i] in done;
      AttributesAreNamed(rest, done + [a]);
    }
  }

  // ---------------------------------------------------------------------------------------------------------
  // Nodes without children

  lemma UnknownIsNothingElse(t: string)
    requires SkipWhiteSpace("<!" + t) != "" && Identify("<!" + t).0 == IsUnknown
    ensures !StartsWith(t, "--") && !StartsWith(t, "[CDATA[")
  {
    hide StartsWith, SkipWhiteSpace;
    SkipsNothing("<!" + t);
    assert "<!" + "--" == "<!--" && "<!" + "[CDATA[" == "<![CDATA[";
    if StartsWith(t, "--") { Ahead("<!", t, "--"); }
    if StartsWith(t, "[CDATA[") { Ahead("<!", t, "[CDATA["); }
  }

  lemma Ahead(head: string, t: string, tag: string)
    requires StartsWith(t, tag)
    ensures StartsWith(head + t, head + tag)
  {
  }

  lemma StartsLonger(v: string, t: string, tag: string)
    requires StartsWith(v, tag)
    ensures StartsWith(v + t, tag)
  {
  }

  lemma LeafIsLegal(n: Node, rest: string, docEmpty: bool)
    requires !n.Element? && !Plain(n) && (n.Declaration? ==> docEmpty)
    requires var r := ParseOne(PrintNode(n) + rest, docEmpty); r.Got? && r.node == n
    ensures LegalNode(n, docEmpty)
  {
    hide Identify, SkipWhiteSpace, ParseBody, Contains, StartsWith;
    match n
    case Text(v, _) =>
      IdentifiesCData(v + ("]]>" + rest));
      Bracketed("<![CDATA[", v, "]]>", rest);
      BodyIsWhole(v, "]]>", rest, v => Text(v, true), ParsingCData);
    case Comment(v) =>
      IdentifiesComment(v + ("-->" + rest));
      Bracketed("<!--", v, "-->", rest);
      BodyIsWhole(v, "-->", rest, v => Comment(v), ParsingComment);
    case Declaration(v) =>
      IdentifiesDeclaration(v + ("?>" + rest));
      Bracketed("<?", v, "?>", rest);
      BodyIsWhole(v, "?>", rest, v => Declaration(v), ParsingDeclaration);
    case Unknown(v) =>
      var body := v + (">" + rest);
      Bracketed("<!", v, ">", rest);
      KindOf("<!" + body, docEmpty);
      UnknownIsNothingElse(body);
      IdentifiesUnknown(body);
      if StartsWith(v, "--") { StartsLonger(v, ">" + rest, "--"); }
      if StartsWith(v, "[CDATA[") { StartsLonger(v, ">" + rest, "[CDATA["); }
      BodyIsWhole(v, ">", rest, v => Unknown(v), ParsingUnknown);
  }

  /** What follows plain text in print: markup, or nothing. */
  predicate MarkupOrEnd(s: string) { s == "" || IsMarkup(s) }

  /** Plain text, possibly with white space before it skipped, as the parser reads it back. */
  lemma TextRead(v: string, rest: string, docEmpty: bool)
    requires MarkupOrEnd(rest)
    requires var r := ParseOne(Escape(v, true) + rest, docEmpty); r.Got? && Plain(r.node)
    ensures ParseOne(Escape(v, true) + rest, docEmpty).node == Text(Normalized(v), false)
    ensures !Blank(v) && IsMarkup(rest)
  {
    hide Escape, SkipWhiteSpace, Identify, ParseText, Decode, Contains, Blank;
    var s := Escape(v, true) + rest;
    KindOf(s, docEmpty);
    EscapeIsSafe(v, true, '<');
    OneCharacter(Escape(v, true), '<');
    if Blank(v) {
      BlankIsPlain(v);
      SkipsBlank(v, rest);
      BlankIsNoText(s, rest);
    }
    NoTagAtAll(Escape(v, true));
    assert rest == "" ==> s == Escape(v, true);
    if rest != "" {
      ParsesUpTo(Escape(v, true), "<", rest[1..]);
      assert rest == "<" + rest[1..];
      DecodeEscape(v, true);
    }
  }

  lemma BlankIsNoText(s: string, rest: string)
    requires SkipWhiteSpace(s) == SkipWhiteSpace(rest) != "" && MarkupOrEnd(rest)
    ensures Identify(s).0 != IsText
  {
  }

  lemma NoTagAtAll(s: string)
    requires !Contains(s, "<")
    ensures ParseText(s, "<") == None
  {
  }

  // ---------------------------------------------------------------------------------------------------------
  // Elements

  lemma {:induction false} ValuesAreLegal(attrs: seq<Attr>, done: seq<Attr>, isSealed: bool, rest: string)
    requires Named(done + attrs)
    requires var t := ParseAttributes(PrintAttrs(attrs) + (TagEnd(isSealed) + rest), done);
      t.Tag? && t.attrs == done + attrs
    ensures forall i :: 0 <= i < |attrs| ==> CR !in attrs[i].value
    decreases |attrs|
  {
    hide ParseAttr, LegalName, PrintAttr, SkipWhiteSpace, HasAttr, TagEnd, Normalized;
    if attrs != [] {
      var a, more := attrs[0], PrintAttrs(attrs[1..]) + (TagEnd(isSealed) + rest);
      var s := PrintAttrs(attrs) + (TagEnd(isSealed) + rest);
      assert s == PrintAttr(a) + more;
      assert a == (done + attrs)[|done|];
      FreshName(done, attrs);
      ReadsOne(s, done, a, more);
      var b := Attr(a.name, Normalized(a.value));
      NamedSoFar(done, attrs, b);
      AttributesAreNamed(more, done + [b]);
      assert (done + [b])[|done|] == (done + attrs)[|done|];
      NormalizedIff(a.value);
      assert done + attrs == done + [a] + attrs[1..];
      ValuesAreLegal(attrs[1..], done + [a], isSealed, rest);
    }
  }

  lemma FreshName(done: seq<Attr>, attrs: seq<Attr>)
    requires attrs != [] && Named(done + attrs)
    ensures !HasAttr(done, attrs[0].name)
  {
    hide LegalName;
    forall b | b in done ensures b.name != attrs[0].name {
      var i :| 0 <= i < |done| && done[i] == b;
      assert (done + attrs)[i] == b && (done + attrs)[|done|] == attrs[0];
    }
  }

  lemma NamedSoFar(done: seq<Attr>, attrs: seq<Attr>, b: Attr)
    requires attrs != [] && Named(done + attrs) && b.name == attrs[0].name
    ensures Named(done + [b])
  {
    hide LegalName;
    var all := done + attrs;
    assert all[|done|] == attrs[0] && forall i :: 0 <= i < |done| ==> all[i] == done[i];
  }

  /** An element's tag that comes back is legal, and its children come back from between its tags. */
  lemma ElementIsLegal(n: Node, rest: string, docEmpty: bool)
    requires n.Element?
    requires var r := ParseOne(PrintNode(n) + rest, docEmpty); r.Got? && r.node == n
    ensures LegalName(n.name) && LegalAttrs(n.attrs)
    ensures n.kids != [] ==>
      var body := PrintNodes(n.kids) + ("</" + (n.name + (">" + rest)));
      ParseNodes(body, docEmpty, false).Closed? && ParseNodes(body, docEmpty, false).nodes == n.kids
  {
    hide ParseOne, OpenTag, ParseElement, PrintNode, LegalAttrs, LegalName, ParseNodes;
    ElementPrint(n, rest);
    var isSealed := n.kids == [];
    var body := if isSealed then rest else PrintNodes(n.kids) + ("</" + (n.name + (">" + rest)));
    var tag := OpenTag(n.name, n.attrs, isSealed, body);
    ElementBehindTag(tag, docEmpty);
    NameOfElement(tag, docEmpty);
    ReadsTag(n, isSealed, body, docEmpty);
  }

  lemma ElementBehindTag(t: string, docEmpty: bool)
    requires var r := ParseOne("<" + t, docEmpty); r.Got? && r.node.Element?
    ensures ParseOne("<" + t, docEmpty) == ParseElement(t, docEmpty)
  {
    hide ParseElement;
    KindOf("<" + t, docEmpty);
    SkipsNothing("<" + t);
    assert ("<" + t)[1..] == t;
  }

  lemma NameOfElement(t: string, docEmpty: bool)
    requires ParseElement(t, docEmpty).Got?
    ensures ParseElement(t, docEmpty).node.Element? && LegalName(ParseElement(t, docEmpty).node.name)
  {
    hide ParseName, ParseAttributes, ParseNodes, SkipWhiteSpace, LegalName;
    var p := SkipWhiteSpace(t);
    NameIsLegal(if p != "" && p[0] == '/' then p[1..] else p);
  }

  lemma ReadsTag(n: Node, isSealed: bool, body: string, docEmpty: bool)
    requires n.Element? && LegalName(n.name) && isSealed == (n.kids == [])
    requires var r := ParseElement(OpenTag(n.name, n.attrs, isSealed, body), docEmpty); r.Got? && r.node == n
    ensures LegalAttrs(n.attrs)
    ensures !isSealed ==> ParseNodes(body, docEmpty, false).Closed? && ParseNodes(body, docEmpty, false).nodes == n.kids
  {
    hide ParseName, ParseAttributes, ParseNodes, SkipWhiteSpace, LegalName, PrintAttrs, TagEnd;
    var tag, s := OpenTag(n.name, n.attrs, isSealed, body), PrintAttrs(n.attrs) + (TagEnd(isSealed) + body);
    BehindName(n.attrs, isSealed, body);
    ParsesName(n.name, s);
    assert tag[0] == n.name[0];
    NameStart(n.name);
    SkipsNothing(tag);
    AttributesAreNamed(s, []);
    assert [] + n.attrs == n.attrs;
    ValuesAreLegal(n.attrs, [], isSealed, body);
    ParsesAttributes(n.attrs, [], isSealed, body);
  }

  lemma NameStart(name: string)
    requires LegalName(name)
    ensures name != "" && !IsWhiteSpace(name[0]) && name[0] != '/'
  {
  }

  // ---------------------------------------------------------------------------------------------------------
  // Lists of nodes

  /** A list of nodes that comes back, in front of an end tag or of the end of the document, is legal. */
  lemma {:induction false} NodesAreLegal(ns: seq<Node>, rest: string, docEmpty: bool, top: bool)
    requires if top then rest == "" else IsMarkup(rest)
    requires var r := ParseNodes(PrintNodes(ns) + rest, docEmpty, top); !r.Failed? && r.nodes == ns
    ensures LegalNodes(ns, docEmpty, top)
    decreases ns, 0
  {
    hide PrintNode, LegalNode, ParseOne, ParseNodes, Plain;
    if ns != [] {
      var n, more := ns[0], PrintNodes(ns[1..]) + rest;
      assert PrintNodes(ns) + rest == PrintNode(n) + more;
      var s := PrintNode(n) + more;
      FirstRead(s, docEmpty, top, ns);
      if Plain(n) { FollowsText(ns, rest); }
      NodeIsLegal(n, more, docEmpty);
      NodeComesBack(n, more, docEmpty);
      NodesAreLegal(ns[1..], rest, docEmpty && !top, top);
      assert Plain(n) && |ns| == 1 ==> more == rest;
    }
  }

  /** The first of the nodes that the parser's loop gives is the first that was read; behind text comes no text. */
  lemma FirstRead(s: string, docEmpty: bool, top: bool, ns: seq<Node>)
    requires ns != [] && !ParseNodes(s, docEmpty, top).Failed? && ParseNodes(s, docEmpty, top).nodes == ns
    ensures var one := ParseOne(s, docEmpty);
      && one.Got? && one.node == ns[0] && (ns[0].Declaration? ==> docEmpty)
      && (var more := ParseNodes(one.rest, docEmpty && !top, top); !more.Failed? && more.nodes == ns[1..])
    ensures Plain(ns[0]) && |ns| > 1 ==> !Plain(ns[1])
  {
    hide ParseOne, ParseNodes, Plain;
    ParseStop(s, docEmpty, top);
    var one := ParseOne(s, docEmpty);
    ParseStep(s, docEmpty, top);
    var more := ParseNodes(one.rest, docEmpty && !top, top);
    assert ([one.node] + more.nodes)[1..] == more.nodes;
    if Plain(ns[0]) && |ns| > 1 {
      ParseStop(one.rest, docEmpty && !top, top);
      ParseStep(one.rest, docEmpty && !top, top);
      NoTextBehindText(s, docEmpty, docEmpty && !top);
    }
  }

  lemma FollowsText(ns: seq<Node>, rest: string)
    requires ns != [] && MarkupOrEnd(rest) && (|ns| > 1 ==> !Plain(ns[1]))
    ensures MarkupOrEnd(PrintNodes(ns[1..]) + rest)
  {
    hide PrintNode, Plain;
    if |ns| == 1 {
      assert PrintNodes(ns[1..]) + rest == rest;
    } else {
      PrintOpens(ns[1]);
      assert PrintNodes(ns[1..]) + rest == PrintNode(ns[1]) + (PrintNodes(ns[1..][1..]) + rest);
      MarkupAhead(PrintNode(ns[1]), PrintNodes(ns[1..][1..]) + rest);
    }
  }

  /** A node that comes back is legal. */
  lemma {:induction false} NodeIsLegal(n: Node, rest: string, docEmpty: bool)
    requires n.Declaration? ==> docEmpty
    requires Plain(n) ==> MarkupOrEnd(rest)
    requires var r := ParseOne(PrintNode(n) + rest, docEmpty); r.Got? && r.node == n
    ensures LegalNode(n, docEmpty) && (Plain(n) ==> IsMarkup(rest))
    decreases n, 1
  {
    hide ParseOne, ParseNodes, PrintNodes, PrintAttrs, LegalName, LegalAttrs, Contains, Blank, StartsWith, Escape;
    hide LegalNodes;
    if n.Element? {
      ElementIsLegal(n, rest, docEmpty);
      if n.kids != [] {
        NodesAreLegal(n.kids, "</" + (n.name + (">" + rest)), docEmpty, false);
      } else {
        NoNodes(docEmpty);
      }
    } else if Plain(n) {
      PlainPrint(n);
      TextRead(n.value, rest, docEmpty);
      NormalizedIff(n.value);
    } else {
      LeafIsLegal(n, rest, docEmpty);
    }
  }

  lemma NoNodes(docEmpty: bool)
    ensures LegalNodes([], docEmpty, false)
  {
  }

  // ---------------------------------------------------------------------------------------------------------
  // Documents

  lemma {:induction false} NormalizedShrinks(t: string)
    ensures |Normalized(t)| <= |t|
    decreases |t|
  {
    if t != "" {
      NormalizedShrinks(t[1..]);
      if |t| > 1 { NormalizedShrinks(t[2..]); }
    }
  }

  /** White space before text is skipped, character by character. */
  lemma {:induction false} SkipsInText(v: string, rest: string)
    requires !Blank(v)
    ensures SkipWhiteSpace(Escape(v, true) + rest) == Escape(SkipWhiteSpace(v), true) + rest
    ensures |SkipWhiteSpace(v)| <= |v| && (|SkipWhiteSpace(v)| == |v| ==> SkipWhiteSpace(v) == v)
    decreases |v|
  {
    hide EscapeChar, Escape, Blank;
    NotBlank(v);
    EscapeSplit(v, true);
    EscapeCharOpens(v[0]);
    var s := Escape(v, true) + rest;
    assert s == EscapeChar(v[0], true) + (Escape(v[1..], true) + rest);
    if IsWhiteSpace(v[0]) {
      SkipsInText(v[1..], rest);
      assert s[1..] == Escape(v[1..], true) + rest;
    }
  }

  lemma MarkIsPrinted(v: string, rest: string)
    requires StartsWith(v, BOM)
    ensures StartsWith(Escape(v, true) + rest, BOM)
  {
    EscapePlain(BOM, true);
    EscapeAppend(BOM, v[3..], true);
    assert v == BOM + v[3..];
  }

  /** A document that opens with text and comes back opens with that very text. */
  lemma TextOpens(kids: seq<Node>)
    requires kids != [] && Plain(kids[0])
    requires var r := ParseNodes(SkipWhiteSpace(PrintNodes(kids)), true, true); !r.Failed? && r.nodes == kids
    ensures var v := kids[0].value; v != "" && !IsWhiteSpace(v[0])
    ensures SkipWhiteSpace(PrintNodes(kids)) == PrintNodes(kids)
    ensures StartsWith(kids[0].value, BOM) ==> StartsWith(PrintNodes(kids), BOM)
  {
    hide PrintNode, ParseOne, ParseNodes, StartsWith, Escape, Blank, SkipWhiteSpace;
    var v, more := kids[0].value, PrintNodes(kids[1..]);
    PlainPrint(kids[0]);
    assert PrintNodes(kids) == Escape(v, true) + more;
    var p := SkipWhiteSpace(PrintNodes(kids));
    FirstRead(p, true, true, kids);
    assert more + "" == more;
    FollowsText(kids, "");
    if Blank(v) {
      BlankIsPlain(v);
      SkipsBlank(v, more);
      BlankOpensNothing(more);
      KindOf(p, true);
    } else {
      SkipsInText(v, more);
      TextRead(SkipWhiteSpace(v), more, true);
      NormalizedShrinks(SkipWhiteSpace(v));
      NotBlank(v);
      NothingSkipped(v);
      if StartsWith(v, BOM) { MarkIsPrinted(v, more); }
    }
  }

  lemma BlankOpensNothing(s: string)
    requires MarkupOrEnd(s)
    ensures SkipWhiteSpace(s) == s
    ensures s != "" ==> Identify(s).0 != IsText
  {
  }

  lemma NothingSkipped(v: string)
    requires v != "" && SkipWhiteSpace(v) == v
    ensures !IsWhiteSpace(v[0])
  {
  }

  /** The round trip, exactly: of all documents, those that come back from their print are the legal ones. */
  lemma ComesBackIff(d: Document)
    ensures ParseDocument(PrintDocument(d)) == Success(d) <==> LegalDocument(d)
  {
    hide ParseDocument, LegalDocument;
    if ParseDocument(PrintDocument(d)) == Success(d) {
      DocumentIsLegal(d);
    }
    if LegalDocument(d) {
      DocumentComesBack(d);
    }
  }

  lemma DocumentIsLegal(d: Document)
    requires ParseDocument(PrintDocument(d)) == Success(d)
    ensures LegalDocument(d)
  {
    hide PrintNodes, PrintNode, ParseNodes, LegalNodes, StartsWith, SkipWhiteSpace, Plain;
    if d.kids == [] { EmptyDocumentIsRefused(d.bom); }
    var text := PrintNodes(d.kids);
    assert text + "" == text;
    if d.bom {
      SkipsNothing(BOM + text);
      BeginsWithMark(text);
    } else {
      assert "" + text == text;
      if Plain(d.kids[0]) {
        TextOpens(d.kids);
      } else {
        TagOpens(d.kids);
      }
    }
    NodesAreLegal(d.kids, "", true, true);
  }

  lemma TagOpens(kids: seq<Node>)
    requires kids != [] && !Plain(kids[0])
    ensures SkipWhiteSpace(PrintNodes(kids)) == PrintNodes(kids)
  {
    hide PrintNode;
    PrintOpens(kids[0]);
    SkipsNothing(PrintNodes(kids));
  }
}
