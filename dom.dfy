/**
 * The DOM the merger works on, as a value tree. The XPath query `//body`,
 * evaluated as a single NODE, selects the first `body` element in document
 * order; FindBody gives that element's children.
 */
module Dom {
  import opened Wrappers

  datatype Node = Element(tag: string, children: seq<Node>) | Text(text: string)

  const BodyTag: string := "body"

  /** Children of the first body element of n in document order (preorder). */
  function FindBody(n: Node): Option<seq<Node>>
    decreases n
  {
    match n
    case Text(_) => None
    case Element(tag, cs) => if tag == BodyTag then Some(cs) else FindBodyIn(cs)
  }

  /** Children of the first body element within the forest ns. */
  function FindBodyIn(ns: seq<Node>): Option<seq<Node>>
    decreases ns
  {
    if ns == [] then None
    else if FindBody(ns[0]).Some? then FindBody(ns[0])
    else FindBodyIn(ns[1..])
  }

  /** Whether m is n itself or one of n's descendants. */
  predicate Occurs(m: Node, n: Node)
    decreases n
  {
    m == n || (n.Element? && exists i :: 0 <= i < |n.children| && Occurs(m, n.children[i]))
  }

  /**
   * FindBody selects a body element of the tree, and finds one whenever the
   * tree has one: `//body` yields null only for a document without a body.
   */
  lemma {:induction false} FindBodySelectsABody(n: Node)
    ensures FindBody(n).Some? ==> Occurs(Element(BodyTag, FindBody(n).value), n)
    ensures (exists cs :: Occurs(Element(BodyTag, cs), n)) ==> FindBody(n).Some?
    decreases n
  {
    match n
    case Text(_) =>
    case Element(tag, kids) =>
      if tag != BodyTag {
        FindBodyInSelectsABody(kids);
        if FindBodyIn(kids).Some? {
          var i :| 0 <= i < |kids| && Occurs(Element(BodyTag, FindBodyIn(kids).value), kids[i]);
          assert Occurs(Element(BodyTag, FindBody(n).value), n);
        }
        if exists cs :: Occurs(Element(BodyTag, cs), n) {
          var cs :| Occurs(Element(BodyTag, cs), n);
          var i :| 0 <= i < |kids| && Occurs(Element(BodyTag, cs), kids[i]);
          assert FindBodyIn(kids).Some?;
        }
      }
  }

  /** The same for a forest: Some exactly when one of its trees has a body, and then a body of one of them. */
  lemma {:induction false} FindBodyInSelectsABody(ns: seq<Node>)
    ensures FindBodyIn(ns).Some? ==> exists i :: 0 <= i < |ns| && Occurs(Element(BodyTag, FindBodyIn(ns).value), ns[i])
    ensures (exists i, cs :: 0 <= i < |ns| && Occurs(Element(BodyTag, cs), ns[i])) ==> FindBodyIn(ns).Some?
    decreases ns
  {
    if ns != [] {
      FindBodySelectsABody(ns[0]);
      FindBodyInSelectsABody(ns[1..]);
      if FindBodyIn(ns).Some? && FindBody(ns[0]).None? {
        var j :| 0 <= j < |ns[1..]| && Occurs(Element(BodyTag, FindBodyIn(ns[1..]).value), ns[1..][j]);
        assert ns[1..][j] == ns[j + 1];
      }
      if exists i, cs :: 0 <= i < |ns| && Occurs(Element(BodyTag, cs), ns[i]) {
        var i, cs :| 0 <= i < |ns| && Occurs(Element(BodyTag, cs), ns[i]);
        if i > 0 {
          assert ns[1..][i - 1] == ns[i];
        }
      }
    }
  }

  /** The elements and text nodes of n in document order: n, then each child's subtree in turn. */
  function Preorder(n: Node): seq<Node>
    decreases n
  {
    match n
    case Text(_) => [n]
    case Element(_, cs) => [n] + PreorderIn(cs)
  }

  function PreorderIn(ns: seq<Node>): seq<Node>
    decreases ns
  {
    if ns == [] then [] else Preorder(ns[0]) + PreorderIn(ns[1..])
  }

  predicate IsBody(m: Node)
  {
    m.Element? && m.tag == BodyTag
  }

  /** A linear scan for the first body element of a node list; the children of the earliest one. */
  function FirstBodyOf(s: seq<Node>): Option<seq<Node>>
    decreases |s|
  {
    if s == [] then None
    else if IsBody(s[0]) then Some(s[0].children)
    else FirstBodyOf(s[1..])
  }

  /** The scan finds a body exactly when the list holds one, and then the earliest. */
  lemma {:induction false} FirstBodyOfIsEarliest(s: seq<Node>)
    ensures FirstBodyOf(s).None? <==> forall j :: 0 <= j < |s| ==> !IsBody(s[j])
    ensures FirstBodyOf(s).Some? ==>
              exists i :: 0 <= i < |s| && IsBody(s[i]) && s[i].children == FirstBodyOf(s).value &&
                          forall j :: 0 <= j < i ==> !IsBody(s[j])
    decreases |s|
  {
    if s != [] && !IsBody(s[0]) {
      var t := s[1..];
      FirstBodyOfIsEarliest(t);
      assert forall j :: 0 < j < |s| ==> s[j] == t[j - 1];
      if FirstBodyOf(t).Some? {
        var i :| 0 <= i < |t| && IsBody(t[i]) && t[i].children == FirstBodyOf(t).value &&
                 forall j :: 0 <= j < i ==> !IsBody(t[j]);
        assert IsBody(s[i + 1]) && s[i + 1].children == FirstBodyOf(s).value;
        assert forall j :: 0 <= j < i + 1 ==> !IsBody(s[j]);
      } else {
        assert forall j :: 0 <= j < |s| ==> !IsBody(s[j]);
      }
    } else if s != [] {
      assert IsBody(s[0]) && s[0].children == FirstBodyOf(s).value;
    }
  }

  lemma {:induction false} FirstBodyOfAppend(a: seq<Node>, b: seq<Node>)
    ensures FirstBodyOf(a + b) == if FirstBodyOf(a).Some? then FirstBodyOf(a) else FirstBodyOf(b)
    decreases |a|
  {
    if a == [] {
      assert a + b == b;
    } else {
      assert (a + b)[0] == a[0] && (a + b)[1..] == a[1..] + b;
      FirstBodyOfAppend(a[1..], b);
    }
  }

  /**
   * FindBody is `//body` taken as a single NODE: the children of the first
   * body element in document order, None when the tree has none.
   */
  lemma {:induction false} FindBodyIsFirstInDocumentOrder(n: Node)
    ensures FindBody(n) == FirstBodyOf(Preorder(n))
    decreases n
  {
    match n
    case Text(_) =>
    case Element(tag, cs) =>
      assert ([n] + PreorderIn(cs))[1..] == PreorderIn(cs);
      if tag != BodyTag {
        FindBodyInIsFirstInDocumentOrder(cs);
      }
  }

  lemma {:induction false} FindBodyInIsFirstInDocumentOrder(ns: seq<Node>)
    ensures FindBodyIn(ns) == FirstBodyOf(PreorderIn(ns))
    decreases ns
  {
    if ns != [] {
      FindBodyIsFirstInDocumentOrder(ns[0]);
      FindBodyInIsFirstInDocumentOrder(ns[1..]);
      FirstBodyOfAppend(Preorder(ns[0]), PreorderIn(ns[1..]));
    }
  }

  /** n with extra appended to the children of its first body element. */
  function ExtendBody(n: Node, extra: seq<Node>): Node
    decreases n
  {
    match n
    case Text(_) => n
    case Element(tag, cs) =>
      if tag == BodyTag then Element(tag, cs + extra) else Element(tag, ExtendBodyIn(cs, extra))
  }

  function ExtendBodyIn(ns: seq<Node>, extra: seq<Node>): seq<Node>
    decreases ns
  {
    if ns == [] then []
    else if FindBody(ns[0]).Some? then [ExtendBody(ns[0], extra)] + ns[1..]
    else [ns[0]] + ExtendBodyIn(ns[1..], extra)
  }

  /**
   * Appending to the first body keeps that element first and grows its
   * children by exactly extra; a tree without a body is left alone.
   */
  lemma {:induction false} FindBodyAfterExtend(n: Node, extra: seq<Node>)
    ensures FindBody(ExtendBody(n, extra)) ==
            if FindBody(n).Some? then Some(FindBody(n).value + extra) else None
    ensures FindBody(n).None? ==> ExtendBody(n, extra) == n
    decreases n
  {
    match n
    case Text(_) =>
    case Element(tag, cs) =>
      if tag != BodyTag {
        FindBodyInAfterExtend(cs, extra);
      }
  }

  lemma {:induction false} FindBodyInAfterExtend(ns: seq<Node>, extra: seq<Node>)
    ensures FindBodyIn(ExtendBodyIn(ns, extra)) ==
            if FindBodyIn(ns).Some? then Some(FindBodyIn(ns).value + extra) else None
    ensures FindBodyIn(ns).None? ==> ExtendBodyIn(ns, extra) == ns
    decreases ns
  {
    if ns != [] {
      var r := ExtendBodyIn(ns, extra);
      FindBodyAfterExtend(ns[0], extra);
      if FindBody(ns[0]).Some? {
        assert r[0] == ExtendBody(ns[0], extra);
      } else {
        assert r[0] == ns[0] && r[1..] == ExtendBodyIn(ns[1..], extra);
        FindBodyInAfterExtend(ns[1..], extra);
      }
    }
  }

  /** Appending nothing changes nothing. */
  lemma {:induction false} ExtendByNothing(n: Node)
    ensures ExtendBody(n, []) == n
    decreases n
  {
    match n
    case Text(_) =>
    case Element(tag, cs) =>
      if tag == BodyTag {
        assert cs + [] == cs;
      } else {
        ExtendInByNothing(cs);
      }
  }

  lemma {:induction false} ExtendInByNothing(ns: seq<Node>)
    ensures ExtendBodyIn(ns, []) == ns
    decreases ns
  {
    if ns != [] {
      ExtendByNothing(ns[0]);
      if FindBody(ns[0]).None? {
        ExtendInByNothing(ns[1..]);
      }
    }
  }

  /** Two appends to the first body are one append of both, in order. */
  lemma {:induction false} ExtendTwice(n: Node, a: seq<Node>, b: seq<Node>)
    ensures ExtendBody(ExtendBody(n, a), b) == ExtendBody(n, a + b)
    decreases n
  {
    match n
    case Text(_) =>
    case Element(tag, cs) =>
      if tag == BodyTag {
        assert cs + a + b == cs + (a + b);
      } else {
        ExtendInTwice(cs, a, b);
      }
  }

  lemma {:induction false} ExtendInTwice(ns: seq<Node>, a: seq<Node>, b: seq<Node>)
    ensures ExtendBodyIn(ExtendBodyIn(ns, a), b) == ExtendBodyIn(ns, a + b)
    decreases ns
  {
    if ns != [] {
      var once := ExtendBodyIn(ns, a);
      FindBodyAfterExtend(ns[0], a);
      ExtendTwice(ns[0], a, b);
      if FindBody(ns[0]).Some? {
        assert once[0] == ExtendBody(ns[0], a) && once[1..] == ns[1..];
      } else {
        assert once[0] == ns[0] && once[1..] == ExtendBodyIn(ns[1..], a);
        ExtendInTwice(ns[1..], a, b);
      }
    }
  }

  /** The children of several bodies laid end to end, in order. */
  function Flatten(bodies: seq<seq<Node>>): seq<Node>
    decreases |bodies|
  {
    if bodies == [] then [] else bodies[0] + Flatten(bodies[1..])
  }

  lemma {:induction false} FlattenSnoc(bodies: seq<seq<Node>>, last: seq<Node>)
    ensures Flatten(bodies + [last]) == Flatten(bodies) + last
    decreases |bodies|
  {
    if bodies == [] {
      assert Flatten([last]) == last + Flatten([]);
    } else {
      assert (bodies + [last])[1..] == bodies[1..] + [last];
      FlattenSnoc(bodies[1..], last);
    }
  }

  /** Flattening a suffix of bodies is flattening it without its last body, then that body. */
  lemma FlattenDropLast(bodies: seq<seq<Node>>, i: nat)
    requires i < |bodies|
    ensures Flatten(bodies[i..]) == Flatten(bodies[i..|bodies| - 1]) + bodies[|bodies| - 1]
  {
    assert bodies[i..|bodies| - 1] + [bodies[|bodies| - 1]] == bodies[i..];
    FlattenSnoc(bodies[i..|bodies| - 1], bodies[|bodies| - 1]);
  }

  /** An org.w3c.dom.Document: a tree that the merger updates in place. */
  class Document {
    var root: Node

    constructor (root: Node)
      ensures this.root == root
    {
      this.root := root;
    }

    /**
     * appendChild on the body element located earlier: the (already
     * deep-cloned and adopted) node becomes the body's last child.
     */
    method AppendToBody(child: Node)
      requires FindBody(root).Some?
      modifies this
      ensures root == ExtendBody(old(root), [child])
      ensures FindBody(root) == Some(FindBody(old(root)).value + [child])
    {
      FindBodyAfterExtend(root, [child]);
      root := ExtendBody(root, [child]);
    }
  }
}
