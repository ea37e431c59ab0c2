/** The document tree of Project/Public/tinyxml2 and the printer in compact mode. */
module XmlDom {
  import opened XmlText

  datatype Attr = Attr(name: string, value: string)

  datatype Node =
    | Element(name: string, attrs: seq<Attr>, kids: seq<Node>)
    | Text(value: string, cdata: bool)
    | Comment(value: string)
    | Declaration(value: string)
    | Unknown(value: string)

  datatype Document = Document(bom: bool, kids: seq<Node>)

  const BOM: string := [0xEF as char, 0xBB as char, 0xBF as char]

  // ---------------------------------------------------------------------------------------------------------
  // What a document looks like in print

  function PrintAttr(a: Attr): string {
    " " + a.name + "=\"" + Escape(a.value, false) + "\""
  }

  function PrintAttrs(attrs: seq<Attr>): string {
    if attrs == [] then "" else PrintAttr(attrs[0]) + PrintAttrs(attrs[1..])
  }

  function PrintNode(n: Node): string
    decreases n, 1
  {
    match n
    case Element(name, attrs, kids) =>
      "<" + name + PrintAttrs(attrs) + if kids == [] then "/>" else ">" + PrintNodes(kids) + "</" + name + ">"
    case Text(v, cdata) => if cdata then "<![CDATA[" + v + "]]>" else Escape(v, true)
    case Comment(v) => "<!--" + v + "-->"
    case Declaration(v) => "<?" + v + "?>"
    case Unknown(v) => "<!" + v + ">"
  }

  function PrintNodes(ns: seq<Node>): string
    decreases ns, 0
  {
    if ns == [] then "" else PrintNode(ns[0]) + PrintNodes(ns[1..])
  }

  function PrintDocument(d: Document): string {
    (if d.bom then BOM else "") + PrintNodes(d.kids)
  }

  lemma NodesSplit(a: seq<Node>, b: seq<Node>)
    ensures a == [] ==> PrintNodes(a) == "" && a + b == b
    ensures a != [] ==> PrintNodes(a) == PrintNode(a[0]) + PrintNodes(a[1..])
    ensures a != [] ==> PrintNodes(a + b) == PrintNode(a[0]) + PrintNodes(a[1..] + b)
  {
    hide PrintNode;
    if a != [] {
      assert (a + b)[1..] == a[1..] + b;
    } else {
      assert a + b == b;
    }
  }

  lemma {:induction false} PrintNodesAppend(a: seq<Node>, b: seq<Node>)
    ensures PrintNodes(a + b) == PrintNodes(a) + PrintNodes(b)
  {
    hide PrintNode, PrintNodes;
    NodesSplit(a, b);
    if a != [] {
      PrintNodesAppend(a[1..], b);
    }
  }

  lemma AttrsSplit(a: seq<Attr>, b: seq<Attr>)
    ensures a == [] ==> PrintAttrs(a) == "" && a + b == b
    ensures a != [] ==> PrintAttrs(a) == PrintAttr(a[0]) + PrintAttrs(a[1..])
    ensures a != [] ==> PrintAttrs(a + b) == PrintAttr(a[0]) + PrintAttrs(a[1..] + b)
  {
    hide PrintAttr;
    if a != [] {
      assert (a + b)[1..] == a[1..] + b;
    } else {
      assert a + b == b;
    }
  }

  lemma {:induction false} PrintAttrsAppend(a: seq<Attr>, b: seq<Attr>)
    ensures PrintAttrs(a + b) == PrintAttrs(a) + PrintAttrs(b)
  {
    hide PrintAttr, PrintAttrs;
    AttrsSplit(a, b);
    if a != [] {
      PrintAttrsAppend(a[1..], b);
    }
  }

  // ---------------------------------------------------------------------------------------------------------
  // The printer

  /** `XMLPrinter` in compact mode: what has been printed, the elements that are open, and whether the last of them
      still lacks the end of its tag. */
  class XMLPrinter {
    var buffer: string
    var elementJustOpened: bool
    var stack: seq<string>

    constructor ()
      ensures buffer == "" && !elementJustOpened && stack == []
    {
      buffer, elementJustOpened, stack := "", false, [];
    }

    /** The end of the open tag that the next output other than an attribute will print. */
    ghost function Pending(): string
      reads this
    {
      if elementJustOpened then ">" else ""
    }

    method SealElementIfJustOpened()
      modifies this`buffer, this`elementJustOpened
      ensures buffer == old(buffer + Pending()) && !elementJustOpened
    {
      if !elementJustOpened { return; }
      elementJustOpened := false;
      buffer := buffer + ">";
    }

    method OpenElement(name: string)
      modifies this
      ensures buffer == old(buffer + Pending()) + ("<" + name) && elementJustOpened && stack == old(stack) + [name]
    {
      SealElementIfJustOpened();
      stack := stack + [name];
      buffer := buffer + ("<" + name);
      elementJustOpened := true;
    }

    method PushAttribute(name: string, value: string)
      requires elementJustOpened
      modifies this`buffer
      ensures buffer == old(buffer) + PrintAttrs([Attr(name, value)])
    {
      hide Escape;
      buffer := buffer + " " + name + "=\"";
      buffer := PrintString(buffer, value, false);
      buffer := buffer + "\"";
      assert PrintAttrs([Attr(name, value)]) == PrintAttr(Attr(name, value)) + "";
    }

    /** Closes the innermost element: an element that nothing was put into closes its own tag. */
    method CloseElement()
      requires stack != []
      modifies this
      ensures stack == old(stack)[..|old(stack)| - 1] && !elementJustOpened
      ensures buffer == old(buffer) + if old(elementJustOpened) then "/>" else "</" + old(stack)[|old(stack)| - 1] + ">"
    {
      var name := stack[|stack| - 1];
      stack := stack[..|stack| - 1];
      if elementJustOpened {
        buffer := buffer + "/>";
      } else {
        buffer := buffer + ("</" + name + ">");
      }
      elementJustOpened := false;
    }

    method PushText(text: string, cdata: bool)
      modifies this`buffer, this`elementJustOpened
      ensures buffer == old(buffer + Pending()) + PrintNode(Text(text, cdata)) && !elementJustOpened
    {
      SealElementIfJustOpened();
      if cdata {
        buffer := buffer + ("<![CDATA[" + text + "]]>");
      } else {
        buffer := PrintString(buffer, text, true);
      }
    }

    /** `PushComment`, `PushDeclaration` and `PushUnknown`. */
    method PushLeaf(n: Node)
      requires n.Comment? || n.Declaration? || n.Unknown?
      modifies this`buffer, this`elementJustOpened
      ensures buffer == old(buffer + Pending()) + PrintNode(n) && !elementJustOpened
    {
      SealElementIfJustOpened();
      match n {
        case Comment(v) => buffer := buffer + ("<!--" + v + "-->");
        case Declaration(v) => buffer := buffer + ("<?" + v + "?>");
        case Unknown(v) => buffer := buffer + ("<!" + v + ">");
      }
    }

    /** A node and everything below it, as the visitor walks it. */
    method Accept(n: Node)
      modifies this
      ensures buffer == old(buffer + Pending()) + PrintNode(n) && !elementJustOpened && stack == old(stack)
      decreases n, 1
    {
      hide PrintNode, PrintAttrs, PrintNodes;
      match n
      case Element(name, attrs, kids) =>
        ghost var before := buffer + Pending();
        OpenAll(name, attrs);
        ghost var begun := buffer;
        AcceptAll(kids);
        ghost var filled := buffer;
        CloseElement();
        ElementText(n, before, begun, filled);
      case Text(v, cdata) => PushText(v, cdata);
      case _ => PushLeaf(n);
    }

    /** `VisitEnter` of an element: the tag and its attributes. */
    method OpenAll(name: string, attrs: seq<Attr>)
      modifies this
      ensures buffer == old(buffer + Pending()) + ("<" + name + PrintAttrs(attrs))
      ensures elementJustOpened && stack == old(stack) + [name]
    {
      hide PrintAttrs;
      OpenElement(name);
      ghost var start := buffer;
      NoAttrs();
      for i := 0 to |attrs|
        invariant elementJustOpened && stack == old(stack) + [name]
        invariant buffer == start + PrintAttrs(attrs[..i])
      {
        PushAttribute(attrs[i].name, attrs[i].value);
        PrintAttrsAppend(attrs[..i], [attrs[i]]);
        assert attrs[i] == Attr(attrs[i].name, attrs[i].value);
        assert attrs[..i + 1] == attrs[..i] + [attrs[i]];
      }
      assert attrs[..|attrs|] == attrs;
    }

    static lemma NoAttrs()
      ensures PrintAttrs([]) == ""
    {
    }

    static lemma ElementText(n: Node, before: string, begun: string, filled: string)
      requires n.Element? && begun == before + ("<" + n.name + PrintAttrs(n.attrs))
      requires filled == if n.kids == [] then begun else begun + ">" + PrintNodes(n.kids)
      ensures filled + (if n.kids == [] then "/>" else "</" + n.name + ">") == before + PrintNode(n)
    {
      hide PrintAttrs, PrintNodes;
      var tag := "<" + n.name + PrintAttrs(n.attrs);
      if n.kids != [] {
        assert filled + ("</" + n.name + ">") == before + (tag + (">" + PrintNodes(n.kids) + "</" + n.name + ">"));
      }
    }

    method AcceptAll(ns: seq<Node>)
      modifies this
      ensures ns == [] ==> buffer == old(buffer) && elementJustOpened == old(elementJustOpened)
      ensures ns != [] ==> buffer == old(buffer + Pending()) + PrintNodes(ns) && !elementJustOpened
      ensures stack == old(stack)
      decreases ns, 0
    {
      hide PrintNode;
      for i := 0 to |ns|
        invariant stack == old(stack)
        invariant i == 0 ==> buffer == old(buffer) && elementJustOpened == old(elementJustOpened)
        invariant i > 0 ==> buffer == old(buffer + Pending()) + PrintNodes(ns[..i]) && !elementJustOpened
      {
        Accept(ns[i]);
        PrintNodesAppend(ns[..i], [ns[i]]);
        assert PrintNodes([ns[i]]) == PrintNode(ns[i]) + "";
        assert ns[..i + 1] == ns[..i] + [ns[i]];
        if i == 0 { assert ns[..1] == [ns[0]]; }
      }
      assert ns[..|ns|] == ns;
    }

    /** `XMLDocument::Print` into a fresh printer. */
    method Print(d: Document)
      requires buffer == "" && !elementJustOpened
      modifies this
      ensures buffer == PrintDocument(d) && stack == old(stack)
    {
      hide PrintNodes;
      if d.bom {
        buffer := buffer + BOM;
      }
      EmptyPrint();
      AcceptAll(d.kids);
    }

    static lemma EmptyPrint()
      ensures PrintNodes([]) == ""
    {
    }
  }
}
