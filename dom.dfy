/** The tree produced by `html_parser::Dom::parse`, the outcome of fetching and
    parsing one page, and the two orders in which the repository walks a tree:
    document pre-order (a deque with children pushed to the front) and the
    crawler's stack order (children pushed to the back, last popped first). */
module Dom {
  import opened Base

  /** `html_parser::Node`: an attribute maps to `None` when it is written
      without a value (`<a href>`). */
  datatype Node =
    | Text(text: string)
    | Comment(comment: string)
    | Element(name: string, attributes: map<string, Option<string>>, children: seq<Node>)

  /** The result of `Dom::parse`. */
  datatype Parsed = ParseFailed(error: Error) | Tree(children: seq<Node>)

  /** Everything the network and the parser can answer for one page:
      the GET fails, the body cannot be decoded as text, or a body of `len`
      bytes arrives together with what `Dom::parse` makes of it. */
  datatype Response =
    | SendFailed(error: Error)
    | DecodeFailed(error: Error)
    | Page(len: nat, dom: Parsed)

  /** The URL a node links to: only an `a` element whose `href` attribute is
      present, has a value, and parses. */
  function HrefUrl(n: Node, parse: Parser): Option<Url>
  {
    match n
    case Element(name, attributes, _) =>
      if name == "a" && "href" in attributes && attributes["href"].Some?
      then parse(attributes["href"].value)
      else None
    case _ => None
  }

  /** The candidate URL of every node, in the order of `nodes`. */
  function Hrefs(nodes: seq<Node>, parse: Parser): seq<Option<Url>>
  {
    seq(|nodes|, i requires 0 <= i < |nodes| => HrefUrl(nodes[i], parse))
  }

  lemma HrefsAppend(a: seq<Node>, b: seq<Node>, parse: Parser)
    ensures Hrefs(a + b, parse) == Hrefs(a, parse) + Hrefs(b, parse)
  {
  }

  /** The children of an element; text and comments have none. */
  function Kids(n: Node): seq<Node>
  {
    if n.Element? then n.children else []
  }

  // ---------------------------------------------------------------- pre-order

  /** Document pre-order of a node: the node, then its children's subtrees
      from first to last. */
  function PreOrder(n: Node): seq<Node>
    decreases n, 1
  {
    [n] + (if n.Element? then PreOrderForest(n.children) else [])
  }

  function PreOrderForest(f: seq<Node>): seq<Node>
    decreases f, 0
  {
    if |f| == 0 then [] else PreOrder(f[0]) + PreOrderForest(f[1..])
  }

  /** Pre-order of a forest is the concatenation of the pre-orders of its parts. */
  lemma {:induction false} PreOrderForestAppend(a: seq<Node>, b: seq<Node>)
    ensures PreOrderForest(a + b) == PreOrderForest(a) + PreOrderForest(b)
    decreases |a|
  {
    if |a| == 0 {
      assert a + b == b;
    } else {
      assert (a + b)[0] == a[0] && (a + b)[1..] == a[1..] + b;
      PreOrderForestAppend(a[1..], b);
    }
  }

  /** One step of the deque walk: taking the first root off the front and
      pushing its children in its place leaves the pre-order unchanged except
      that the root itself is now behind. */
  lemma PreOrderPopFront(node: Node, rest: seq<Node>)
    ensures PreOrderForest([node] + rest) == [node] + PreOrderForest(Kids(node) + rest)
  {
    var f := [node] + rest;
    assert f[0] == node && f[1..] == rest;
    assert PreOrder(node) == [node] + PreOrderForest(Kids(node));
    PreOrderForestAppend(Kids(node), rest);
  }

  // ------------------------------------------------------------ stack order

  /** The order in which a stack walk visits a forest when it pops the last
      node and pushes that node's children on top. */
  function WalkForest(f: seq<Node>): seq<Node>
    decreases f, 0
  {
    if |f| == 0 then [] else WalkNode(f[|f| - 1]) + WalkForest(f[..|f| - 1])
  }

  function WalkNode(n: Node): seq<Node>
    decreases n, 1
  {
    [n] + (if n.Element? then WalkForest(n.children) else [])
  }

  /** Pushing `b` on top of `a` makes the walk finish `b` before touching `a`. */
  lemma {:induction false} WalkForestAppend(a: seq<Node>, b: seq<Node>)
    ensures WalkForest(a + b) == WalkForest(b) + WalkForest(a)
    decreases |b|
  {
    if |b| == 0 {
      assert a + b == a;
    } else {
      var b' := b[..|b| - 1];
      assert (a + b)[..|a + b| - 1] == a + b';
      WalkForestAppend(a, b');
    }
  }

  /** A leaf inserted between `a` and `b` is visited after `b` and before `a`. */
  lemma WalkInsertLeaf(a: seq<Node>, leaf: Node, b: seq<Node>)
    requires Kids(leaf) == []
    ensures WalkForest(a + [leaf] + b) == WalkForest(b) + [leaf] + WalkForest(a)
    ensures WalkForest(a + b) == WalkForest(b) + WalkForest(a)
  {
    assert WalkForest([leaf]) == [leaf] by {
      assert WalkNode(leaf) == [leaf] + WalkForest(Kids(leaf));
      assert [leaf][..0] == [];
    }
    WalkForestAppend(a + [leaf], b);
    WalkForestAppend(a, [leaf]);
    WalkForestAppend(a, b);
  }

  /** One step of the stack walk: popping the top node and pushing its
      children on top leaves the walk unchanged except that the node itself is
      now behind. */
  lemma WalkPopBack(front: seq<Node>, node: Node)
    ensures WalkForest(front + [node]) == [node] + WalkForest(front + Kids(node))
  {
    var kids, rest := WalkForest(Kids(node)), WalkForest(front);
    assert WalkForest([node]) == [node] + kids by {
      assert [node][..0] == [];
    }
    WalkForestAppend(front, [node]);
    WalkForestAppend(front, Kids(node));
    assert ([node] + kids) + rest == [node] + (kids + rest);
  }

  /** The stack walk visits every node of the tree exactly as often as
      pre-order does: once. */
  lemma {:induction false} WalkForestVisitsEachNodeOnce(f: seq<Node>)
    ensures multiset(WalkForest(f)) == multiset(PreOrderForest(f))
    decreases f, 0
  {
    if |f| > 0 {
      var front, last := f[..|f| - 1], f[|f| - 1];
      assert f == front + [last];
      PreOrderForestAppend(front, [last]);
      assert PreOrderForest([last]) == PreOrder(last) + PreOrderForest([]);
      WalkNodeVisitsEachNodeOnce(last);
      WalkForestVisitsEachNodeOnce(front);
    }
  }

  lemma {:induction false} WalkNodeVisitsEachNodeOnce(n: Node)
    ensures multiset(WalkNode(n)) == multiset(PreOrder(n))
    decreases n, 1
  {
    if n.Element? {
      WalkForestVisitsEachNodeOnce(n.children);
    }
  }

  /** Both walks have one entry per node of the tree. */
  lemma WalkForestLength(f: seq<Node>)
    ensures |WalkForest(f)| == |PreOrderForest(f)|
  {
    WalkForestVisitsEachNodeOnce(f);
    assert |multiset(WalkForest(f))| == |multiset(PreOrderForest(f))|;
  }
}
