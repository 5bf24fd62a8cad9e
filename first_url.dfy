/** `first_url` of ex08/src/main.rs and ex6/src/main.rs (the two bodies are the
    same): fetch a page, parse it with `html_parser`, and walk the tree with a
    deque, pushing each element's children to the front in reverse so that the
    walk follows document pre-order; the first anchor with a valued, parseable
    href wins. */
module FirstUrl {
  import opened Base
  import opened Dom
  import opened Links

  /** What `first_url` promises: the first anchor URL of the page in
      document pre-order. */
  function FirstAnchorUrl(children: seq<Node>, parse: Parser): Option<Url>
  {
    FirstSome(Hrefs(PreOrderForest(children), parse))
  }

  /** A leaf that offers no URL (a text or comment node, or an element without
      children and without a valued, parseable anchor href) does not change
      the first anchor URL of the forest it is inserted into. */
  lemma NoUrlLeafSkipped(a: seq<Node>, leaf: Node, b: seq<Node>, parse: Parser)
    requires Kids(leaf) == [] && HrefUrl(leaf, parse).None?
    ensures FirstAnchorUrl(a + [leaf] + b, parse) == FirstAnchorUrl(a + b, parse)
  {
    assert PreOrderForest([leaf]) == [leaf] by {
      assert PreOrder(leaf) == [leaf] + PreOrderForest(Kids(leaf));
      assert [leaf][1..] == [];
    }
    PreOrderForestAppend(a + [leaf], b);
    PreOrderForestAppend(a, [leaf]);
    PreOrderForestAppend(a, b);
    var pa, pb := PreOrderForest(a), PreOrderForest(b);
    HrefsAppend(pa + [leaf], pb, parse);
    HrefsAppend(pa, [leaf], parse);
    HrefsAppend(pa, pb, parse);
    assert Hrefs([leaf], parse) == [None];
    SkipNone(Hrefs(pa, parse), Hrefs(pb, parse));
  }

  /** Any failure of the GET, of decoding or of parsing is returned as it is
      (the three `?`s); otherwise the walk returns `Ok` of the first anchor URL
      in pre-order. The deque always holds the roots of the unvisited part of
      the tree, whose pre-order is exactly the unvisited suffix. */
  method FirstUrl(response: Response, parse: Parser) returns (r: Result<Option<Url>>)
    ensures response.SendFailed? || response.DecodeFailed? ==> r == Err(response.error)
    ensures response.Page? && response.dom.ParseFailed? ==> r == Err(response.dom.error)
    ensures response.Page? && response.dom.Tree? ==>
      r == Ok(FirstAnchorUrl(response.dom.children, parse))
  {
    var children: seq<Node>;
    match response {
      case SendFailed(e) => return Err(e);
      case DecodeFailed(e) => return Err(e);
      case Page(_, dom) =>
        match dom {
          case ParseFailed(e) => return Err(e);
          case Tree(c) => children := c;
        }
    }
    var firstUrl := Walk(children, parse);
    return Ok(firstUrl);
  }

  /** The deque walk of `first_url` over the parsed tree. */
  method Walk(children: seq<Node>, parse: Parser) returns (firstUrl: Option<Url>)
    ensures firstUrl == FirstAnchorUrl(children, parse)
  {
    firstUrl := None;
    var nodeTodo := children;
    ghost var visited: seq<Node> := [];
    while |nodeTodo| > 0
      invariant PreOrderForest(children) == visited + PreOrderForest(nodeTodo)
      invariant forall n :: n in visited ==> HrefUrl(n, parse).None?
      invariant firstUrl == None
      decreases |PreOrderForest(nodeTodo)|
    {
      var node := nodeTodo[0];
      ghost var rest := nodeTodo[1..];
      assert nodeTodo == [node] + rest;
      PreOrderPopFront(node, rest);
      ghost var prefix := visited;
      visited := visited + [node];
      nodeTodo := nodeTodo[1..];
      var attrs: map<string, Option<string>>;
      match node {
        case Text(_) =>
          assert Kids(node) + rest == rest;
          continue;
        case Comment(_) =>
          assert Kids(node) + rest == rest;
          continue;
        case Element(name, attributes, kids) =>
          nodeTodo := PushFrontReversed(kids, nodeTodo);
          assert nodeTodo == Kids(node) + rest;
          assert PreOrderForest(children) == visited + PreOrderForest(nodeTodo);
          if name == "a" {
            attrs := attributes;
          } else {
            continue;
          }
      }
      if !("href" in attrs && attrs["href"].Some?) {
        continue;
      }
      var href := attrs["href"].value;
      var url := parse(href);
      if url.None? {
        continue;
      }
      firstUrl := url;
      FoundAt(children, prefix, node, PreOrderForest(nodeTodo), parse);
      break;
    }
    if firstUrl.None? {
      NoneFound(children, visited, parse);
    }
  }

  /** `for child in children.rev() { node_todo.push_front(child) }`: the
      children end up in front of the deque in their own order. */
  method PushFrontReversed(kids: seq<Node>, deque: seq<Node>) returns (r: seq<Node>)
    ensures r == kids + deque
  {
    r := deque;
    var i := |kids|;
    while i > 0
      invariant 0 <= i <= |kids|
      invariant r == kids[i..] + deque
    {
      i := i - 1;
      r := [kids[i]] + r;
    }
  }

  /** The first candidate is found behind a prefix that offered none. */
  lemma FoundAt(children: seq<Node>, visited: seq<Node>, node: Node, rest: seq<Node>, parse: Parser)
    requires PreOrderForest(children) == visited + [node] + rest
    requires forall n :: n in visited ==> HrefUrl(n, parse).None?
    requires HrefUrl(node, parse).Some?
    ensures FirstAnchorUrl(children, parse) == HrefUrl(node, parse)
  {
    var s := Hrefs(visited + [node] + rest, parse);
    assert s[|visited|] == HrefUrl(node, parse);
    assert forall j :: 0 <= j < |visited| ==> s[j] == HrefUrl(visited[j], parse) && visited[j] in visited;
  }

  /** A walk that saw every node and no candidate finds nothing. */
  lemma NoneFound(children: seq<Node>, visited: seq<Node>, parse: Parser)
    requires PreOrderForest(children) == visited
    requires forall n :: n in visited ==> HrefUrl(n, parse).None?
    ensures FirstAnchorUrl(children, parse) == None
  {
    var s := Hrefs(visited, parse);
    assert forall j :: 0 <= j < |visited| ==> s[j] == HrefUrl(visited[j], parse) && visited[j] in visited;
  }
}
