/** The parser of Project/Public/tinyxml2/tinyxml2.cpp: what it makes of a text, with its errors.  A pointer into the
    text is represented by the text from there on. */
module XmlParser {
  import opened XmlText
  import opened XmlDom

  datatype XmlError =
    | EmptyDocument
    | ParsingElement
    | ParsingAttribute
    | ParsingText
    | ParsingCData
    | ParsingComment
    | ParsingDeclaration
    | ParsingUnknown
    | MismatchedElement
    | Parsing

  datatype Option<+T> = None | Some(value: T)

  predicate IsWhiteSpace(c: char) { c == ' ' || 9 <= c as int <= 13 }

  predicate IsNameStartChar(c: char) {
    c as int >= 128 || 'a' <= c <= 'z' || 'A' <= c <= 'Z' || c == ':' || c == '_'
  }

  predicate IsNameChar(c: char) {
    IsNameStartChar(c) || '0' <= c <= '9' || c == '.' || c == '-'
  }

  function SkipWhiteSpace(s: string): (r: string)
    ensures |r| <= |s|
    ensures r != "" ==> !IsWhiteSpace(r[0])
  {
    if s != "" && IsWhiteSpace(s[0]) then SkipWhiteSpace(s[1..]) else s
  }

  // ---------------------------------------------------------------------------------------------------------
  // `StrPair`: runs of text

  /** The first place where a tag starts; -1 if nowhere. */
  function Find(s: string, tag: string): (i: int)
    ensures i == -1 || (0 <= i < |s| && StartsWith(s[i..], tag))
    ensures forall j :: 0 <= j < (if i < 0 then |s| else i) ==> !StartsWith(s[j..], tag)
  {
    if s == "" then -1
    else if StartsWith(s, tag) then 0
    else
      assert forall j :: 0 < j < |s| ==> s[j..] == s[1..][j - 1..];
      var i := Find(s[1..], tag);
      if i < 0 then -1 else i + 1
  }

  /** `ParseText`: the text up to an end tag, and what follows the tag. */
  function ParseText(s: string, endTag: string): (r: Option<(string, string)>)
    ensures r.Some? ==> |r.value.1| <= |s| && |r.value.0| + |endTag| + |r.value.1| == |s|
  {
    var i := Find(s, endTag);
    if i < 0 then None else Some((s[..i], s[i + |endTag|..]))
  }

  /** The loop of `StrPair::ParseText`. */
  method ParseTextLoop(s: string, endTag: string) returns (r: Option<(string, string)>)
    requires endTag != ""
    ensures r == ParseText(s, endTag)
  {
    hide Find, StartsWith;
    var p := 0;
    assert s[0..] == s;
    while p < |s|
      invariant p <= |s|
      invariant Find(s, endTag) == var i := Find(s[p..], endTag); if i < 0 then -1 else p + i
    {
      FindStep(s, p, endTag);
      if s[p] == endTag[0] && StartsWith(s[p..], endTag) {
        return Some((s[..p], s[p + |endTag|..]));
      }
      p := p + 1;
    }
    FindStep(s, p, endTag);
    return None;
  }

  lemma FindStep(s: string, p: nat, tag: string)
    requires p <= |s| && tag != ""
    ensures p == |s| ==> Find(s[p..], tag) == -1
    ensures p < |s| && StartsWith(s[p..], tag) ==> Find(s[p..], tag) == 0 && s[p] == tag[0] && p + |tag| <= |s|
    ensures p < |s| && !StartsWith(s[p..], tag) ==>
      Find(s[p..], tag) == var i := Find(s[p + 1..], tag); if i < 0 then -1 else i + 1
  {
    if p < |s| {
      assert s[p..][1..] == s[p + 1..];
    }
  }

  function NameLength(s: string): (n: nat)
    ensures n <= |s|
  {
    if s != "" && IsNameChar(s[0]) then 1 + NameLength(s[1..]) else 0
  }

  function ParseName(s: string): (r: Option<(string, string)>)
    ensures r.Some? ==> |r.value.1| < |s| && r.value.0 != ""
  {
    if s == "" || !IsNameStartChar(s[0]) then None
    else Some((s[..NameLength(s)], s[NameLength(s)..]))
  }

  /** The loop of `StrPair::ParseName`. */
  method ParseNameLoop(s: string) returns (r: Option<(string, string)>)
    ensures r == ParseName(s)
  {
    if s == "" || !IsNameStartChar(s[0]) { return None; }
    var p := 1;
    while p < |s| && IsNameChar(s[p])
      invariant 1 <= p <= |s| && NameLength(s) == p + NameLength(s[p..])
    {
      assert s[p..][1..] == s[p + 1..];
      p := p + 1;
    }
    return Some((s[..p], s[p..]));
  }

  // ---------------------------------------------------------------------------------------------------------
  // Attributes

  /** `XMLAttribute::ParseDeep`. */
  function ParseAttr(s: string): (r: Option<(Attr, string)>)
    ensures r.Some? ==> |r.value.1| < |s|
  {
    match ParseName(s)
    case None => None
    case Some((name, afterName)) =>
      var eq := SkipWhiteSpace(afterName);
      if afterName == "" || eq == "" || eq[0] != '=' then None
      else
        var open := SkipWhiteSpace(eq[1..]);
        if open == "" || (open[0] != '"' && open[0] != '\'') then None
        else
          match ParseText(open[1..], [open[0]])
          case None => None
          case Some((raw, rest)) => Some((Attr(name, Decode(raw, true, true)), rest))
  }

  predicate HasAttr(attrs: seq<Attr>, name: string) {
    exists a :: a in attrs && a.name == name
  }

  datatype Tag = Tag(attrs: seq<Attr>, isSealed: bool, rest: string) | BadTag(error: XmlError)

  /** `XMLElement::ParseAttributes`: up to the end of the tag, behind the attributes read so far. */
  function ParseAttributes(s: string, attrs: seq<Attr>): (t: Tag)
    ensures t.Tag? ==> |t.rest| < |s|
    decreases |s|
  {
    var p := SkipWhiteSpace(s);
    if p == "" then BadTag(ParsingElement)
    else if IsNameStartChar(p[0]) then
      match ParseAttr(p)
      case None => BadTag(ParsingAttribute)
      case Some((a, rest)) => if HasAttr(attrs, a.name) then BadTag(ParsingAttribute)
        else ParseAttributes(rest, attrs + [a])
    else if p[0] == '>' then Tag(attrs, false, p[1..])
    else if p[0] == '/' && ByteAt(p, 1) == '>' then Tag(attrs, true, p[2..])
    else BadTag(ParsingElement)
  }

  /** `XMLAttribute::ParseDeep`, on the loops. */
  method ParseAttrDeep(s: string) returns (r: Option<(Attr, string)>)
    ensures r == ParseAttr(s)
  {
    hide ParseText, ParseName, SkipWhiteSpace, Decode;
    var named := ParseNameLoop(s);
    if named.None? { return None; }
    var (name, afterName) := named.value;
    var eq := SkipWhiteSpace(afterName);
    if afterName == "" || eq == "" || eq[0] != '=' { return None; }
    var open := SkipWhiteSpace(eq[1..]);
    if open == "" || (open[0] != '"' && open[0] != '\'') { return None; }
    var found := ParseTextLoop(open[1..], [open[0]]);
    if found.None? { return None; }
    return Some((Attr(name, Decode(found.value.0, true, true)), found.value.1));
  }

  /** The loop of `ParseAttributes`. */
  method ParseAttributesLoop(s: string) returns (t: Tag)
    ensures t == ParseAttributes(s, [])
  {
    hide ParseAttr, SkipWhiteSpace;
    var p, attrs := s, [];
    while true
      invariant ParseAttributes(s, []) == ParseAttributes(p, attrs)
      decreases |p|
    {
      var q := SkipWhiteSpace(p);
      if q == "" { return BadTag(ParsingElement); }
      if IsNameStartChar(q[0]) {
        var parsed := ParseAttrDeep(q);
        if parsed.None? || HasAttr(attrs, parsed.value.0.name) { return BadTag(ParsingAttribute); }
        p, attrs := parsed.value.1, attrs + [parsed.value.0];
      } else if q[0] == '>' {
        return Tag(attrs, false, q[1..]);
      } else if q[0] == '/' && ByteAt(q, 1) == '>' {
        return Tag(attrs, true, q[2..]);
      } else {
        return BadTag(ParsingElement);
      }
    }
  }

  // ---------------------------------------------------------------------------------------------------------
  // Nodes

  datatype Kind = IsDeclaration | IsComment | IsCData | IsUnknown | IsElement | IsText

  /** `XMLDocument::Identify`, for text that is not blank: what comes next, and where its body begins. */
  function Identify(s: string): (r: (Kind, string))
    requires SkipWhiteSpace(s) != ""
    ensures |r.1| <= |s| && (r.0 != IsText ==> |r.1| < |s|)
  {
    var p := SkipWhiteSpace(s);
    if StartsWith(p, "<?") then (IsDeclaration, p[2..])
    else if StartsWith(p, "<!--") then (IsComment, p[4..])
    else if StartsWith(p, "<![CDATA[") then (IsCData, p[9..])
    else if StartsWith(p, "<!") then (IsUnknown, p[2..])
    else if StartsWith(p, "<") then (IsElement, p[1..])
    else (IsText, s)
  }

  /** One node: a complete node; a closing tag, which is for the parent; no node before the end of the text;
      an error. */
  datatype One =
    | Got(node: Node, rest: string)
    | ClosingTag(name: string, after: string)
    | Nothing
    | Bad(error: XmlError)

  /** Nodes up to the closing tag that ends them, or to the end of the text. */
  datatype Siblings =
    | Closed(nodes: seq<Node>, name: string, after: string)
    | Ended(nodes: seq<Node>)
    | Failed(error: XmlError)

  function Prepend(ns: seq<Node>, r: Siblings): Siblings {
    match r
    case Closed(nodes, name, after) => Closed(ns + nodes, name, after)
    case Ended(nodes) => Ended(ns + nodes)
    case Failed(e) => Failed(e)
  }

  /** Bodies that are taken over up to a terminator. */
  function ParseBody(s: string, endTag: string, entities: bool, make: string -> Node, error: XmlError): (r: One)
    ensures r.Got? || r.Bad?
    ensures r.Got? ==> |r.rest| <= |s|
  {
    match ParseText(s, endTag)
    case None => Bad(error)
    case Some((raw, rest)) => Got(make(Decode(raw, true, entities)), rest)
  }

  /** `XMLText::ParseDeep` for plain text: it must be followed by a tag. */
  function ParsePlainText(s: string): (r: One)
    ensures r.Got? || r.Bad?
    ensures r.Got? ==> s != "" && (s[0] != '<' ==> |r.rest| < |s|)
  {
    match ParseText(s, "<")
    case None => Bad(ParsingText)
    case Some((raw, rest)) => if rest == "" then Bad(Parsing) else Got(Text(Decode(raw, true, true), false), "<" + rest)
  }

  /** `Identify` and the `ParseDeep` of the node. `docEmpty` says that the document has no child yet. */
  function ParseOne(s: string, docEmpty: bool): (r: One)
    ensures r.Got? ==> |r.rest| < |s|
    ensures r.ClosingTag? ==> |r.after| < |s|
    decreases |s|, 0
  {
    if SkipWhiteSpace(s) == "" then Nothing
    else
      var (kind, body) := Identify(s);
      match kind
      case IsDeclaration => ParseBody(body, "?>", false, v => Declaration(v), ParsingDeclaration)
      case IsComment => ParseBody(body, "-->", false, v => Comment(v), ParsingComment)
      case IsCData => ParseBody(body, "]]>", false, v => Text(v, true), ParsingCData)
      case IsUnknown => ParseBody(body, ">", false, v => Unknown(v), ParsingUnknown)
      case IsElement => ParseElement(body, docEmpty)
      case IsText => TextIsNoTag(s); ParsePlainText(s)
  }

  lemma TextIsNoTag(s: string)
    requires SkipWhiteSpace(s) != "" && Identify(s).0 == IsText
    ensures s != "" && s[0] != '<'
  {
  }

  /** `XMLElement::ParseDeep`, and what the parent's loop does with the end tag that came back. */
  function ParseElement(s: string, docEmpty: bool): (r: One)
    ensures r.Got? ==> |r.rest| < |s|
    ensures r.ClosingTag? ==> |r.after| < |s|
    decreases |s|, 2
  {
    var p := SkipWhiteSpace(s);
    var closing := p != "" && p[0] == '/';
    match ParseName(if closing then p[1..] else p)
    case None => Bad(Parsing)
    case Some((name, afterName)) =>
      match ParseAttributes(afterName, [])
      case BadTag(e) => Bad(e)
      case Tag(attrs, isSealed, rest) =>
        if isSealed then Got(Element(name, attrs, []), rest)
        else if closing then ClosingTag(name, rest)
        else if rest == "" then Bad(MismatchedElement)
        else
          match ParseNodes(rest, docEmpty, false)
          case Failed(e) => Bad(e)
          case Ended(_) => Bad(Parsing)
          case Closed(kids, endName, after) =>
            if endName == name then Got(Element(name, attrs, kids), after) else Bad(MismatchedElement)
  }

  /** `XMLNode::ParseDeep`: the children of the document (`top`) or of an element.  A declaration is an error unless the
      document is still empty. */
  function ParseNodes(s: string, docEmpty: bool, top: bool): (r: Siblings)
    ensures r.Closed? ==> |r.after| < |s|
    decreases |s|, 1
  {
    match ParseOne(s, docEmpty)
    case Nothing => Ended([])
    case Bad(e) => Failed(e)
    case ClosingTag(name, after) => Closed([], name, after)
    case Got(node, rest) =>
      if node.Declaration? && !docEmpty then Failed(ParsingDeclaration)
      else Prepend([node], ParseNodes(rest, docEmpty && !top, top))
  }

  // ---------------------------------------------------------------------------------------------------------
  // The same as loops

  lemma ParseStep(s: string, docEmpty: bool, top: bool)
    ensures var one := ParseOne(s, docEmpty);
      one.Got? && (one.node.Declaration? ==> docEmpty) ==>
        ParseNodes(s, docEmpty, top) == Prepend([one.node], ParseNodes(one.rest, docEmpty && !top, top))
  {
    hide ParseOne;
  }

  lemma ParseStop(s: string, docEmpty: bool, top: bool)
    ensures var one, all := ParseOne(s, docEmpty), ParseNodes(s, docEmpty, top);
      && (one.Nothing? ==> all == Ended([]))
      && (one.Bad? ==> all == Failed(one.error))
      && (one.ClosingTag? ==> all == Closed([], one.name, one.after))
      && (one.Got? && one.node.Declaration? && !docEmpty ==> all == Failed(ParsingDeclaration))
  {
    hide ParseOne;
  }

  lemma PrependPrepend(ns: seq<Node>, n: Node, r: Siblings)
    ensures Prepend(ns, Prepend([n], r)) == Prepend(ns + [n], r)
  {
    if !r.Failed? {
      assert ns + ([n] + r.nodes) == ns + [n] + r.nodes;
    }
  }

  /** The loop of `XMLNode::ParseDeep`. */
  method ParseDeep(s: string, docEmpty: bool, top: bool) returns (r: Siblings)
    ensures r == ParseNodes(s, docEmpty, top)
    decreases |s|, 1
  {
    hide ParseOne, ParseNodes;
    var p, nodes, empty := s, [], docEmpty;
    PrependNone(ParseNodes(s, docEmpty, top));
    while true
      invariant |p| <= |s| && ParseNodes(s, docEmpty, top) == Prepend(nodes, ParseNodes(p, empty, top))
      decreases |p|
    {
      var one := ParseNode(p, empty);
      ParseStep(p, empty, top);
      ParseStop(p, empty, top);
      match one {
        case Nothing => return Ended(nodes);
        case Bad(e) => return Failed(e);
        case ClosingTag(name, after) => return Closed(nodes, name, after);
        case Got(node, rest) =>
          if node.Declaration? && !empty { return Failed(ParsingDeclaration); }
          PrependPrepend(nodes, node, ParseNodes(rest, empty && !top, top));
          p, nodes, empty := rest, nodes + [node], empty && !top;
      }
    }
  }

  lemma PrependNone(r: Siblings)
    ensures Prepend([], r) == r
  {
    if r.Closed? { assert [] + r.nodes == r.nodes; }
    if r.Ended? { assert [] + r.nodes == r.nodes; }
  }

  /** `Identify`, then the `ParseDeep` of the kind of node found. */
  method ParseNode(s: string, docEmpty: bool) returns (r: One)
    ensures r == ParseOne(s, docEmpty)
    decreases |s|, 0
  {
    hide ParseElement, ParsePlainText, ParseBody, SkipWhiteSpace;
    if SkipWhiteSpace(s) == "" { return Nothing; }
    var (kind, body) := Identify(s);
    match kind {
      case IsDeclaration => r := ParseUpTo(body, "?>", v => Declaration(v), ParsingDeclaration);
      case IsComment => r := ParseUpTo(body, "-->", v => Comment(v), ParsingComment);
      case IsCData => r := ParseUpTo(body, "]]>", v => Text(v, true), ParsingCData);
      case IsUnknown => r := ParseUpTo(body, ">", v => Unknown(v), ParsingUnknown);
      case IsElement => r := ParseElementDeep(body, docEmpty);
      case IsText => r := ParseTextDeep(s);
    }
  }

  /** `ParseDeep` of the nodes whose body ends with a terminator of their own. */
  method ParseUpTo(s: string, endTag: string, make: string -> Node, error: XmlError) returns (r: One)
    requires endTag != ""
    ensures r == ParseBody(s, endTag, false, make, error)
  {
    var found := ParseTextLoop(s, endTag);
    if found.None? { return Bad(error); }
    return Got(make(Decode(found.value.0, true, false)), found.value.1);
  }

  /** `XMLText::ParseDeep` outside CDATA; the `<` that ends the text is given back. */
  method ParseTextDeep(s: string) returns (r: One)
    ensures r == ParsePlainText(s)
  {
    var found := ParseTextLoop(s, "<");
    if found.None? { return Bad(ParsingText); }
    if found.value.1 == "" { return Bad(Parsing); }
    return Got(Text(Decode(found.value.0, true, true), false), "<" + found.value.1);
  }

  /** `XMLElement::ParseDeep`: the tag, then the children, up to the end tag that the last of them has read. */
  method ParseElementDeep(s: string, docEmpty: bool) returns (r: One)
    ensures r == ParseElement(s, docEmpty)
    decreases |s|, 2
  {
    hide ParseName, ParseAttributes, ParseNodes, SkipWhiteSpace;
    var p := SkipWhiteSpace(s);
    var closing := p != "" && p[0] == '/';
    if closing { p := p[1..]; }
    var named := ParseNameLoop(p);
    if named.None? { return Bad(Parsing); }
    var (name, afterName) := named.value;
    var tag := ParseAttributesLoop(afterName);
    if tag.BadTag? { return Bad(tag.error); }
    if tag.isSealed { return Got(Element(name, tag.attrs, []), tag.rest); }
    if closing { return ClosingTag(name, tag.rest); }
    if tag.rest == "" { return Bad(MismatchedElement); }
    var kids := ParseDeep(tag.rest, docEmpty, false);
    match kids {
      case Failed(e) => r := Bad(e);
      case Ended(_) => r := Bad(Parsing);
      case Closed(nodes, endName, after) =>
        r := if endName == name then Got(Element(name, tag.attrs, nodes), after) else Bad(MismatchedElement);
    }
  }

  // ---------------------------------------------------------------------------------------------------------
  // Documents

  datatype Outcome = Success(document: Document) | Failure(error: XmlError)

  /** `XMLDocument::Parse`. */
  function ParseDocument(s: string): Outcome {
    var p := SkipWhiteSpace(s);
    var bom := StartsWith(p, BOM);
    var body := if bom then p[3..] else p;
    if body == "" then Failure(EmptyDocument)
    else
      match ParseNodes(body, true, true)
      case Failed(e) => Failure(e)
      case Ended(nodes) => Success(Document(bom, nodes))
      case Closed(nodes, _, _) => Success(Document(bom, nodes))
  }

  method Parse(s: string) returns (r: Outcome)
    ensures r == ParseDocument(s)
  {
    hide ParseNodes, SkipWhiteSpace, StartsWith;
    var p := SkipWhiteSpace(s);
    var bom := StartsWith(p, BOM);
    if bom {
      BomLength(p);
      p := p[3..];
    }
    if p == "" { return Failure(EmptyDocument); }
    var nodes := ParseDeep(p, true, true);
    r := if nodes.Failed? then Failure(nodes.error) else Success(Document(bom, nodes.nodes));
  }

  lemma BomLength(p: string)
    requires StartsWith(p, BOM)
    ensures |p| >= 3
  {
  }
}
