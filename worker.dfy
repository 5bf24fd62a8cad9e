/** One worker of `crawl` in crawler-proto/src/main.rs: the body of the tokio task
    spawned for a `(site, depth)` pair. It fetches the page, records its
    length, bails out at the depth limit, and otherwise walks the parsed tree
    with a node stack, queueing one level deeper every anchor URL it has not
    seen. The crawl's shared `global_seen` is read through a snapshot. */
module Worker {
  import opened Base
  import opened Dom

  const MAX_DEPTH: nat := 3

  /** A `(Url, u32)` pair of `site_todo`. */
  datatype WorkItem = WorkItem(url: Url, depth: nat)

  /** The tuple a worker task returns: its site and its local `seen`,
      `site_todo`, `site_len` and `accum_errs`. */
  datatype WorkerResult = WorkerResult(
    site: Url,
    seen: seq<Url>,
    todo: seq<WorkItem>,
    lens: seq<(Url, nat)>,
    errs: seq<(Url, Error)>)

  /** Whether visiting node `n` queues a link: it is an anchor with a valued,
      parseable href that is neither in the snapshot of `global_seen` nor in
      the worker's local `seen`, which holds only the worker's own site. */
  predicate Queues(n: Node, site: Url, globalSeen: seq<Url>, parse: Parser)
  {
    HrefUrl(n, parse).Some? && HrefUrl(n, parse).value !in globalSeen && HrefUrl(n, parse).value != site
  }

  /** The work items queued while visiting `visited` in that order. */
  function Harvest(visited: seq<Node>, site: Url, depth: nat, globalSeen: seq<Url>, parse: Parser): seq<WorkItem>
    decreases |visited|
  {
    if |visited| == 0 then []
    else
      var n := visited[|visited| - 1];
      Harvest(visited[..|visited| - 1], site, depth, globalSeen, parse) +
        (if Queues(n, site, globalSeen, parse) then [WorkItem(HrefUrl(n, parse).value, depth + 1)] else [])
  }

  /** A link is queued, one level deeper, exactly for the visited anchors
      that pass the checks; at most one item per visited node. */
  lemma {:induction false} HarvestSpec(visited: seq<Node>, site: Url, depth: nat, globalSeen: seq<Url>, parse: Parser)
    ensures var r := Harvest(visited, site, depth, globalSeen, parse);
      |r| <= |visited| &&
      (forall x :: x in r ==>
        (x.depth == depth + 1 &&
         exists i :: 0 <= i < |visited| && Queues(visited[i], site, globalSeen, parse) &&
           HrefUrl(visited[i], parse).value == x.url)) &&
      (forall i :: 0 <= i < |visited| && Queues(visited[i], site, globalSeen, parse) ==>
        WorkItem(HrefUrl(visited[i], parse).value, depth + 1) in r)
    decreases |visited|
  {
    if |visited| > 0 {
      var front := visited[..|visited| - 1];
      HarvestSpec(front, site, depth, globalSeen, parse);
      assert forall i :: 0 <= i < |front| ==> front[i] == visited[i];
    }
  }

  /** Harvesting a walk split in two harvests each part in turn. */
  lemma {:induction false} HarvestAppend(x: seq<Node>, y: seq<Node>, site: Url, depth: nat, globalSeen: seq<Url>, parse: Parser)
    ensures Harvest(x + y, site, depth, globalSeen, parse) ==
      Harvest(x, site, depth, globalSeen, parse) + Harvest(y, site, depth, globalSeen, parse)
    decreases |y|
  {
    if |y| == 0 {
      assert x + y == x;
    } else {
      var y' := y[..|y| - 1];
      assert (x + y)[..|x + y| - 1] == x + y' && (x + y)[|x + y| - 1] == y[|y| - 1];
      HarvestAppend(x, y', site, depth, globalSeen, parse);
    }
  }

  /** A leaf that offers no URL (a text or comment node, or an element without
      children and without a valued, parseable anchor href) changes nothing
      the worker queues for the forest it is inserted into. */
  lemma NoUrlLeafNotQueued(a: seq<Node>, leaf: Node, b: seq<Node>, site: Url, depth: nat, globalSeen: seq<Url>, parse: Parser)
    requires Kids(leaf) == [] && HrefUrl(leaf, parse).None?
    ensures Harvest(WalkForest(a + [leaf] + b), site, depth, globalSeen, parse) ==
      Harvest(WalkForest(a + b), site, depth, globalSeen, parse)
  {
    WalkInsertLeaf(a, leaf, b);
    var wa, wb := WalkForest(a), WalkForest(b);
    HarvestAppend(wb + [leaf], wa, site, depth, globalSeen, parse);
    HarvestAppend(wb, [leaf], site, depth, globalSeen, parse);
    HarvestAppend(wb, wa, site, depth, globalSeen, parse);
    assert Harvest([leaf], site, depth, globalSeen, parse) == [] by {
      assert [leaf][..0] == [];
    }
  }

  /** Over a whole parsed tree: the walk queues a link for every anchor of the
      tree that passes the checks, and for nothing else. */
  lemma TreeHarvest(children: seq<Node>, site: Url, depth: nat, globalSeen: seq<Url>, parse: Parser)
    ensures forall n :: n in PreOrderForest(children) && Queues(n, site, globalSeen, parse) ==>
      WorkItem(HrefUrl(n, parse).value, depth + 1) in Harvest(WalkForest(children), site, depth, globalSeen, parse)
    ensures forall x :: x in Harvest(WalkForest(children), site, depth, globalSeen, parse) ==>
      (exists n :: n in PreOrderForest(children) && Queues(n, site, globalSeen, parse) && HrefUrl(n, parse).value == x.url)
  {
    var visited := WalkForest(children);
    WalkForestVisitsEachNodeOnce(children);
    HarvestSpec(visited, site, depth, globalSeen, parse);
    assert forall n :: n in PreOrderForest(children) <==> n in visited by {
      forall n ensures n in PreOrderForest(children) <==> n in visited {
        assert n in PreOrderForest(children) <==> n in multiset(PreOrderForest(children));
        assert n in visited <==> n in multiset(visited);
      }
    }
    forall n | n in PreOrderForest(children) && Queues(n, site, globalSeen, parse)
      ensures WorkItem(HrefUrl(n, parse).value, depth + 1) in Harvest(visited, site, depth, globalSeen, parse)
    {
      var i :| 0 <= i < |visited| && visited[i] == n;
    }
    forall x | x in Harvest(visited, site, depth, globalSeen, parse)
      ensures exists n :: n in PreOrderForest(children) && Queues(n, site, globalSeen, parse) && HrefUrl(n, parse).value == x.url
    {
      var i :| 0 <= i < |visited| && Queues(visited[i], site, globalSeen, parse) && HrefUrl(visited[i], parse).value == x.url;
      assert visited[i] in visited;
    }
  }

  /** What a worker returns, step by step as the spawned body runs. */
  function Worker(item: WorkItem, response: Response, globalSeen: seq<Url>, parse: Parser): (r: WorkerResult)
    ensures r.site == item.url
    ensures r.seen == [] || r.seen == [item.url]
    ensures |r.errs| <= 1 && forall e :: e in r.errs ==> e.0 == item.url
    ensures item.depth == MAX_DEPTH ==> r.seen == [] && r.todo == [] && (r.errs == [] <==> response.Page?)
    ensures item.depth == MAX_DEPTH && response.Page? ==> r.lens == [(item.url, response.len)]
    ensures forall x :: x in r.todo ==>
      x.depth == item.depth + 1 && x.url !in globalSeen && x.url != item.url
  {
    var site := item.url;
    match response
    case SendFailed(e) => WorkerResult(site, [], [], [], [(site, e)])
    case DecodeFailed(e) => WorkerResult(site, [], [], [], [(site, e)])
    case Page(len, dom) =>
      if item.depth == MAX_DEPTH then WorkerResult(site, [], [], [(site, len)], [])
      else
        match dom
        case ParseFailed(e) => WorkerResult(site, [site], [], [(site, len)], [(site, e)])
        case Tree(children) =>
          HarvestSpec(WalkForest(children), site, item.depth, globalSeen, parse);
          WorkerResult(site, [site], Harvest(WalkForest(children), site, item.depth, globalSeen, parse), [(site, len)], [])
  }

  /** Whether the worker for `item` ends in an error: the GET or the decoding
      failed, or the page was parsed below the depth limit and the parse
      failed. */
  predicate Fails(item: WorkItem, response: Response)
  {
    !response.Page? || (item.depth != MAX_DEPTH && response.dom.ParseFailed?)
  }

  /** Below the depth limit, a worker reports an error exactly when its GET,
      its decoding or its parse failed, and then queues nothing; on a parsed
      page it queues a link for every anchor of the tree that passes the
      checks, and for nothing else. */
  lemma WorkerOutcome(item: WorkItem, response: Response, globalSeen: seq<Url>, parse: Parser)
    ensures Worker(item, response, globalSeen, parse).errs != [] <==> Fails(item, response)
    ensures var r := Worker(item, response, globalSeen, parse);
      item.depth != MAX_DEPTH ==>
        (r.errs != [] <==> response.SendFailed? || response.DecodeFailed? || response.dom.ParseFailed?) &&
        (r.errs != [] ==> r.todo == [])
    ensures var r := Worker(item, response, globalSeen, parse);
      response.Page? && response.dom.Tree? && item.depth != MAX_DEPTH ==>
        forall n :: n in PreOrderForest(response.dom.children) && Queues(n, item.url, globalSeen, parse) ==>
          WorkItem(HrefUrl(n, parse).value, item.depth + 1) in r.todo
    ensures var r := Worker(item, response, globalSeen, parse);
      response.Page? && response.dom.Tree? && item.depth != MAX_DEPTH ==>
        forall x :: x in r.todo ==>
          (exists n :: n in PreOrderForest(response.dom.children) &&
            Queues(n, item.url, globalSeen, parse) && HrefUrl(n, parse).value == x.url)
  {
    if response.Page? && response.dom.Tree? && item.depth != MAX_DEPTH {
      TreeHarvest(response.dom.children, item.url, item.depth, globalSeen, parse);
    }
  }

  /** The local `seen` holds only the worker's own site, so a page with two
      anchors to the same new URL queues that URL twice. */
  lemma SameLinkQueuedTwice()
    ensures var link := Element("a", map["href" := Some("next")], []);
      Worker(WorkItem(Url("home"), 0), Page(0, Tree([link, link])), [], s => Some(Url(s))).todo ==
        [WorkItem(Url("next"), 1), WorkItem(Url("next"), 1)]
  {
    var link := Element("a", map["href" := Some("next")], []);
    var parse: Parser := s => Some(Url(s));
    var site, next := Url("home"), Url("next");
    assert WalkForest([link]) == [link];
    assert WalkForest([link, link]) == [link, link];
    assert HrefUrl(link, parse) == Some(next);
    assert next != site by { assert next.serialized[0] != site.serialized[0]; }
    assert Queues(link, site, [], parse);
    var visited := [link, link];
    assert visited[..1] == [link];
    assert Harvest([link], site, 0, [], parse) == [WorkItem(next, 1)];
    assert Harvest(visited, site, 0, [], parse) == [WorkItem(next, 1), WorkItem(next, 1)];
  }

  /** Extending the snapshot of `global_seen` by URLs other than `x`'s does
      not stop `x` from being queued. */
  lemma {:induction false} HarvestIgnoresOtherSeen(visited: seq<Node>, site: Url, depth: nat, globalSeen: seq<Url>,
                                                   extra: seq<Url>, parse: Parser, x: WorkItem)
    requires x in Harvest(visited, site, depth, globalSeen, parse) && x.url !in extra
    ensures x in Harvest(visited, site, depth, globalSeen + extra, parse)
    decreases |visited|
  {
    var front, n := visited[..|visited| - 1], visited[|visited| - 1];
    if x in Harvest(front, site, depth, globalSeen, parse) {
      HarvestIgnoresOtherSeen(front, site, depth, globalSeen, extra, parse, x);
    } else {
      assert Queues(n, site, globalSeen, parse) && x == WorkItem(HrefUrl(n, parse).value, depth + 1);
      assert Queues(n, site, globalSeen + extra, parse);
    }
  }

  /** The join adds to `global_seen` only a worker's local `seen`, never the
      links it queued. So a worker that runs after worker `a` has been merged
      still queues every link it would have queued before, unless the link is
      `a`'s own site: the order of the joins does not prevent duplicates. */
  lemma QueuedAgainAfterMerge(a: WorkItem, pa: Response, b: WorkItem, pb: Response,
                              globalSeen: seq<Url>, parse: Parser, x: WorkItem)
    requires x in Worker(b, pb, globalSeen, parse).todo && x.url != a.url
    ensures x in Worker(b, pb, globalSeen + Worker(a, pa, globalSeen, parse).seen, parse).todo
  {
    var extra := Worker(a, pa, globalSeen, parse).seen;
    assert x.url !in extra;
    HarvestIgnoresOtherSeen(WalkForest(pb.dom.children), b.url, b.depth, globalSeen, extra, parse, x);
  }

  /** Two workers whose pages both link to `x`: the second runs against the
      `global_seen` left by merging the first, and still queues `x`. */
  lemma DuplicateAcrossWorkers()
    ensures var link := Element("a", map["href" := Some("x")], []);
      var parse: Parser := s => Some(Url(s));
      var wa := Worker(WorkItem(Url("a"), 0), Page(0, Tree([link])), [], parse);
      var wb := Worker(WorkItem(Url("b"), 0), Page(0, Tree([link])), wa.seen, parse);
      wa.seen == [Url("a")] && wa.todo == [WorkItem(Url("x"), 1)] && wb.todo == [WorkItem(Url("x"), 1)]
  {
    var link := Element("a", map["href" := Some("x")], []);
    var parse: Parser := s => Some(Url(s));
    assert WalkForest([link]) == [link];
    assert HrefUrl(link, parse) == Some(Url("x"));
    assert Url("x") != Url("a") by { assert "x"[0] != "a"[0]; }
    assert Url("x") != Url("b") by { assert "x"[0] != "b"[0]; }
    assert Queues(link, Url("a"), [], parse);
    assert Queues(link, Url("b"), [Url("a")], parse);
    assert [link][..0] == [];
  }

  /** The worker task. Each failing step records one `(site, err)` and returns
      at once (the `accum_err!` macro); the tree walk pops the last node of
      `node_todo` and pushes its children on top, counting the nodes. The
      count is the size of the tree: the walk visits every node once. */
  method RunWorker(item: WorkItem, response: Response, globalSeen: seq<Url>, parse: Parser)
    returns (r: WorkerResult, nodeCount: nat)
    ensures r == Worker(item, response, globalSeen, parse)
    ensures nodeCount == (if response.Page? && response.dom.Tree? && item.depth != MAX_DEPTH
                          then |PreOrderForest(response.dom.children)| else 0)
  {
    var site := item.url;
    var depth := item.depth;
    var seen: seq<Url> := [];
    var siteTodo: seq<WorkItem> := [];
    var siteLen: seq<(Url, nat)> := [];
    var accumErrs: seq<(Url, Error)> := [];
    nodeCount := 0;
    var len: nat;
    var dom: Parsed;
    match response {
      case SendFailed(e) =>
        accumErrs := accumErrs + [(site, e)];
        return WorkerResult(site, seen, siteTodo, siteLen, accumErrs), nodeCount;
      case DecodeFailed(e) =>
        accumErrs := accumErrs + [(site, e)];
        return WorkerResult(site, seen, siteTodo, siteLen, accumErrs), nodeCount;
      case Page(l, d) =>
        len, dom := l, d;
    }
    siteLen := siteLen + [(site, len)];
    if depth == MAX_DEPTH {
      return WorkerResult(site, seen, siteTodo, siteLen, accumErrs), nodeCount;
    }
    seen := seen + [site];
    var children: seq<Node>;
    match dom {
      case ParseFailed(e) =>
        accumErrs := accumErrs + [(site, e)];
        return WorkerResult(site, seen, siteTodo, siteLen, accumErrs), nodeCount;
      case Tree(c) =>
        children := c;
    }
    siteTodo, nodeCount := WalkTree(children, site, depth, globalSeen, parse);
    return WorkerResult(site, seen, siteTodo, siteLen, accumErrs), nodeCount;
  }

  /** The node-stack walk of the worker: pop the last node, queue its link if
      it passes the checks (the local `seen` is `[site]` here), push its
      children on top. */
  method WalkTree(children: seq<Node>, site: Url, depth: nat, globalSeen: seq<Url>, parse: Parser)
    returns (siteTodo: seq<WorkItem>, nodeCount: nat)
    ensures siteTodo == Harvest(WalkForest(children), site, depth, globalSeen, parse)
    ensures nodeCount == |PreOrderForest(children)|
  {
    var seen := [site];
    siteTodo := [];
    nodeCount := 0;
    var nodeTodo := children;
    ghost var visited: seq<Node> := [];
    while |nodeTodo| > 0
      invariant WalkForest(children) == visited + WalkForest(nodeTodo)
      invariant siteTodo == Harvest(visited, site, depth, globalSeen, parse)
      invariant nodeCount == |visited|
      decreases |WalkForest(nodeTodo)|
    {
      var node := nodeTodo[|nodeTodo| - 1];
      ghost var front := nodeTodo[..|nodeTodo| - 1];
      assert nodeTodo == front + [node];
      WalkPopBack(front, node);
      ghost var unvisited := WalkForest(front + Kids(node));
      assert WalkForest(children) == (visited + [node]) + unvisited;
      HarvestSnoc(visited, node, site, depth, globalSeen, parse);
      ghost var queued := siteTodo;
      nodeTodo := nodeTodo[..|nodeTodo| - 1];
      nodeCount := nodeCount + 1;
      match node {
        case Text(_) =>
        case Comment(_) =>
        case Element(name, attributes, kids) =>
          if name == "a" && "href" in attributes && attributes["href"].Some? {
            var href := attributes["href"].value;
            match parse(href) {
              case Some(url) =>
                if url !in globalSeen && url !in seen {
                  siteTodo := siteTodo + [WorkItem(url, depth + 1)];
                }
              case None =>
            }
          }
          nodeTodo := nodeTodo + kids;
      }
      assert siteTodo == queued + (if Queues(node, site, globalSeen, parse)
                                   then [WorkItem(HrefUrl(node, parse).value, depth + 1)] else []);
      assert nodeTodo == front + Kids(node);
      assert WalkForest(nodeTodo) == unvisited;
      visited := visited + [node];
    }
    assert visited == WalkForest(children);
    WalkForestLength(children);
  }

  /** Visiting one more node adds at most its own link to what was queued. */
  lemma HarvestSnoc(visited: seq<Node>, n: Node, site: Url, depth: nat, globalSeen: seq<Url>, parse: Parser)
    ensures Harvest(visited + [n], site, depth, globalSeen, parse) ==
      Harvest(visited, site, depth, globalSeen, parse) +
        (if Queues(n, site, globalSeen, parse) then [WorkItem(HrefUrl(n, parse).value, depth + 1)] else [])
  {
    assert (visited + [n])[..|visited|] == visited;
  }
}
