/** The parsed-document queries the extraction loop relies on, kept minimal:
    `find_all(tag, class_=c)` (webscraping.py:72), `find(tag, class_=c)`
    (webscraping.py:82, 90, 104, 119) and `get_text(strip=True)` (webscraping.py:84,
    92, 106, 121). The parser that builds the tree is not part of this model. */
module Dom {
  import opened Wrappers
  import opened Text

  /** A parsed node: an element with its tag name, class list and children, or a
      piece of text. */
  datatype Node =
    | Element(tag: string, classes: seq<string>, children: seq<Node>)
    | TextNode(text: string)

  /** The arguments of `find(tag, class_=cls)`. */
  datatype Selector = Selector(tag: string, cls: string)

  /** An element with this tag whose class list contains the class. */
  predicate Matches(n: Node, sel: Selector) {
    n.Element? && n.tag == sel.tag && sel.cls in n.classes
  }

  /** Every descendant of `n`, not `n` itself, in document (pre-)order. */
  function Descendants(n: Node): (ds: seq<Node>)
    decreases n, 1
  {
    match n
    case TextNode(_) => []
    case Element(_, _, children) => DescendantsOf(children)
  }

  /** The nodes of `ns`, each followed by its own descendants. */
  function DescendantsOf(ns: seq<Node>): (ds: seq<Node>)
    decreases ns, 0
  {
    if ns == [] then [] else [ns[0]] + Descendants(ns[0]) + DescendantsOf(ns[1..])
  }

  /** Keep the nodes that match `sel`, in order. */
  function Select(ns: seq<Node>, sel: Selector): (r: seq<Node>)
  {
    if ns == [] then []
    else (if Matches(ns[0], sel) then [ns[0]] else []) + Select(ns[1..], sel)
  }

  /** `Select` keeps exactly the nodes of `ns` that match. */
  lemma {:induction false} SelectSpec(ns: seq<Node>, sel: Selector)
    ensures forall x :: x in Select(ns, sel) <==> x in ns && Matches(x, sel)
  {
    if ns != [] {
      SelectSpec(ns[1..], sel);
      assert ns == [ns[0]] + ns[1..];
    }
  }

  lemma {:induction false} SelectAppend(a: seq<Node>, b: seq<Node>, sel: Selector)
    ensures Select(a + b, sel) == Select(a, sel) + Select(b, sel)
  {
    if a == [] {
      assert a + b == b;
    } else {
      assert (a + b)[1..] == a[1..] + b;
      SelectAppend(a[1..], b, sel);
    }
  }

  /** `node.find_all(tag, class_=cls)`: the matching descendants in document order. */
  function FindAll(n: Node, sel: Selector): (r: seq<Node>)
    decreases n, 1
  {
    match n
    case TextNode(_) => []
    case Element(_, _, children) => FindAllIn(children, sel)
  }

  function FindAllIn(ns: seq<Node>, sel: Selector): (r: seq<Node>)
    decreases ns, 0
  {
    if ns == [] then []
    else (if Matches(ns[0], sel) then [ns[0]] else []) + FindAll(ns[0], sel) + FindAllIn(ns[1..], sel)
  }

  /** `node.find(tag, class_=cls)`: the first matching descendant, stopping the
      search there; `None` plays the part of Python's `None`. */
  function Find(n: Node, sel: Selector): (r: Option<Node>)
    ensures r.Some? ==> Matches(r.value, sel)
    decreases n, 1
  {
    match n
    case TextNode(_) => None
    case Element(_, _, children) => FindIn(children, sel)
  }

  function FindIn(ns: seq<Node>, sel: Selector): (r: Option<Node>)
    ensures r.Some? ==> Matches(r.value, sel)
    decreases ns, 0
  {
    if ns == [] then None
    else if Matches(ns[0], sel) then Some(ns[0])
    else
      match Find(ns[0], sel)
      case Some(x) => Some(x)
      case None => FindIn(ns[1..], sel)
  }

  /** `find_all` returns exactly the matching descendants, in document order. */
  lemma {:induction false} FindAllInDocumentOrder(n: Node, sel: Selector)
    ensures FindAll(n, sel) == Select(Descendants(n), sel)
    decreases n, 1
  {
    match n
    case TextNode(_) =>
    case Element(_, _, children) => FindAllInOrderOf(children, sel);
  }

  lemma {:induction false} FindAllInOrderOf(ns: seq<Node>, sel: Selector)
    ensures FindAllIn(ns, sel) == Select(DescendantsOf(ns), sel)
    decreases ns, 0
  {
    if ns != [] {
      FindAllInDocumentOrder(ns[0], sel);
      FindAllInOrderOf(ns[1..], sel);
      SelectAppend([ns[0]] + Descendants(ns[0]), DescendantsOf(ns[1..]), sel);
      SelectAppend([ns[0]], Descendants(ns[0]), sel);
      assert Select([ns[0]], sel) == if Matches(ns[0], sel) then [ns[0]] else [] by {
        assert [ns[0]][1..] == [];
      }
    }
  }

  /** The elements `find_all` returns are exactly the matching descendants. */
  lemma FindAllMatchingDescendants(n: Node, sel: Selector)
    ensures forall x :: x in FindAll(n, sel) <==> x in Descendants(n) && Matches(x, sel)
  {
    FindAllInDocumentOrder(n, sel);
    SelectSpec(Descendants(n), sel);
  }

  /** The first element found by `find_all`. */
  function First(ns: seq<Node>): (r: Option<Node>) {
    if ns == [] then None else Some(ns[0])
  }

  /** `find` and `find_all` agree: `find` gives the first result of `find_all`,
      and nothing exactly when `find_all` gives nothing. */
  lemma {:induction false} FindIsFirstOfFindAll(n: Node, sel: Selector)
    ensures Find(n, sel) == First(FindAll(n, sel))
    decreases n, 1
  {
    match n
    case TextNode(_) =>
    case Element(_, _, children) => FindInIsFirst(children, sel);
  }

  lemma {:induction false} FindInIsFirst(ns: seq<Node>, sel: Selector)
    ensures FindIn(ns, sel) == First(FindAllIn(ns, sel))
    decreases ns, 0
  {
    if ns != [] {
      FindIsFirstOfFindAll(ns[0], sel);
      FindInIsFirst(ns[1..], sel);
    }
  }

  /** `node.get_text(strip=True)`: every text piece under `n`, in document order,
      stripped and joined with no separator (pieces that strip to nothing add nothing). */
  function StrippedText(n: Node): (r: string)
    ensures NoSurroundingSpace(r)
    decreases n, 1
  {
    match n
    case TextNode(t) => Strip(t)
    case Element(_, _, children) => StrippedTextOf(children)
  }

  function StrippedTextOf(ns: seq<Node>): (r: string)
    ensures NoSurroundingSpace(r)
    decreases ns, 0
  {
    if ns == [] then []
    else
      var a := StrippedText(ns[0]);
      var b := StrippedTextOf(ns[1..]);
      assert a + b == [] || (a + b)[0] == (if a == [] then b[0] else a[0]);
      assert a + b == [] || (a + b)[|a + b| - 1] == (if b == [] then a[|a| - 1] else b[|b| - 1]);
      a + b
  }

  /** The common case: an element holding a single piece of text gives that text
      stripped, inner spaces kept. */
  lemma SingleTextStripped(tag: string, classes: seq<string>, t: string)
    ensures StrippedText(Element(tag, classes, [TextNode(t)])) == Strip(t)
  {
    assert [TextNode(t)][1..] == [];
    assert StrippedTextOf([TextNode(t)]) == Strip(t) + [];
  }
}
