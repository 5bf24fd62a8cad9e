/** The crawl driver `crawl` of crawler-proto/src/main.rs, run sequentially:
    each wave pops up to `worker_batch.size` items from the end of
    `site_todo`, runs one worker per item against the `global_seen` of the
    start of the wave, joins the workers by popping their handles, merges what
    they return, and lets the batch controller pick the next size. */
module Crawler {
  import opened Base
  import opened Dom
  import opened Worker
  import opened Batching

  /** `SITES.iter().filter_map(|x| Url::parse(x).ok().map(|x| (x, 0)))`. */
  function Seeds(sites: seq<string>, parse: Parser): seq<WorkItem>
    decreases |sites|
  {
    if |sites| == 0 then []
    else
      var front := Seeds(sites[..|sites| - 1], parse);
      match parse(sites[|sites| - 1])
      case Some(u) => front + [WorkItem(u, 0)]
      case None => front
  }

  /** The crawl starts with exactly the seeds that parse, all at depth 0. */
  lemma {:induction false} SeedsSpec(sites: seq<string>, parse: Parser)
    ensures |Seeds(sites, parse)| <= |sites|
    ensures forall x :: x in Seeds(sites, parse) ==>
      (x.depth == 0 && exists i :: 0 <= i < |sites| && parse(sites[i]) == Some(x.url))
    ensures forall i :: 0 <= i < |sites| && parse(sites[i]).Some? ==>
      WorkItem(parse(sites[i]).value, 0) in Seeds(sites, parse)
    decreases |sites|
  {
    if |sites| > 0 {
      var front := sites[..|sites| - 1];
      SeedsSpec(front, parse);
      assert forall i :: 0 <= i < |front| ==> front[i] == sites[i];
    }
  }

  function Min(a: nat, b: nat): nat
  {
    if a <= b then a else b
  }

  /** The results of one wave's workers, in the order of the popped slice of
      `site_todo` (the order in which the joins merge them). */
  function Dispatch(popped: seq<WorkItem>, fetch: Url -> Response, globalSeen: seq<Url>, parse: Parser): seq<WorkerResult>
  {
    seq(|popped|, i requires 0 <= i < |popped| => Worker.Worker(popped[i], fetch(popped[i].url), globalSeen, parse))
  }

  function Todos(rs: seq<WorkerResult>): seq<WorkItem>
  {
    if |rs| == 0 then [] else Todos(rs[..|rs| - 1]) + rs[|rs| - 1].todo
  }

  function Seens(rs: seq<WorkerResult>): seq<Url>
  {
    if |rs| == 0 then [] else Seens(rs[..|rs| - 1]) + rs[|rs| - 1].seen
  }

  function Lens(rs: seq<WorkerResult>): seq<(Url, nat)>
  {
    if |rs| == 0 then [] else Lens(rs[..|rs| - 1]) + rs[|rs| - 1].lens
  }

  function Errs(rs: seq<WorkerResult>): seq<(Url, Error)>
  {
    if |rs| == 0 then [] else Errs(rs[..|rs| - 1]) + rs[|rs| - 1].errs
  }

  /** The number of workers that returned at least one error. */
  function ErrorCount(rs: seq<WorkerResult>): nat
  {
    if |rs| == 0 then 0 else ErrorCount(rs[..|rs| - 1]) + (if |rs[|rs| - 1].errs| > 0 then 1 else 0)
  }

  /** Each worker records at most one error, so the wave's error count is both
      the number of error records it adds and at most the number of workers. */
  lemma {:induction false} WaveErrors(rs: seq<WorkerResult>)
    requires forall i :: 0 <= i < |rs| ==> |rs[i].errs| <= 1
    ensures |Errs(rs)| == ErrorCount(rs) <= |rs|
    decreases |rs|
  {
    if |rs| > 0 {
      WaveErrors(rs[..|rs| - 1]);
    }
  }

  /** The same for the results of a wave's dispatch. */
  lemma DispatchErrors(popped: seq<WorkItem>, fetch: Url -> Response, globalSeen: seq<Url>, parse: Parser)
    ensures var rs := Dispatch(popped, fetch, globalSeen, parse);
      |Errs(rs)| == ErrorCount(rs) <= |popped|
  {
    var rs := Dispatch(popped, fetch, globalSeen, parse);
    assert forall i :: 0 <= i < |rs| ==> rs[i] == Worker.Worker(popped[i], fetch(popped[i].url), globalSeen, parse);
    WaveErrors(rs);
  }

  /** How many of `popped` end in an error when fetched through `fetch`. */
  function Failures(popped: seq<WorkItem>, fetch: Url -> Response): nat
  {
    if |popped| == 0 then 0
    else
      var k := |popped| - 1;
      Failures(popped[..k], fetch) + (if Fails(popped[k], fetch(popped[k].url)) then 1 else 0)
  }

  /** The error count that drives the shrink is the number of dispatched
      items whose GET, decoding or parse failed. */
  lemma {:induction false} ErrorCountIsFailures(popped: seq<WorkItem>, fetch: Url -> Response, globalSeen: seq<Url>, parse: Parser)
    ensures ErrorCount(Dispatch(popped, fetch, globalSeen, parse)) == Failures(popped, fetch)
    decreases |popped|
  {
    if |popped| > 0 {
      var k := |popped| - 1;
      var rs := Dispatch(popped, fetch, globalSeen, parse);
      assert rs[..k] == Dispatch(popped[..k], fetch, globalSeen, parse);
      ErrorCountIsFailures(popped[..k], fetch, globalSeen, parse);
      WorkerOutcome(popped[k], fetch(popped[k].url), globalSeen, parse);
    }
  }

  /** Merging one more result onto what was merged before extends each
      merged sequence by that result's part. */
  lemma MergeOne(rs: seq<WorkerResult>, t: nat, todo: seq<WorkItem>, seen: seq<Url>, lens: seq<(Url, nat)>, errs: seq<(Url, Error)>)
    requires t < |rs|
    ensures todo + Todos(rs[..t + 1]) == todo + Todos(rs[..t]) + rs[t].todo
    ensures seen + Seens(rs[..t + 1]) == seen + Seens(rs[..t]) + rs[t].seen
    ensures lens + Lens(rs[..t + 1]) == lens + Lens(rs[..t]) + rs[t].lens
    ensures errs + Errs(rs[..t + 1]) == errs + Errs(rs[..t]) + rs[t].errs
    ensures ErrorCount(rs[..t + 1]) == ErrorCount(rs[..t]) + (if |rs[t].errs| > 0 then 1 else 0)
  {
    assert rs[..t + 1][..t] == rs[..t];
  }

  /** Each item of `added` is one level below some item of `popped` that was
      not at the depth limit. */
  ghost predicate OneLevelBelow(added: seq<WorkItem>, popped: seq<WorkItem>)
  {
    forall x :: x in added ==>
      exists y :: y in popped && y.depth != MAX_DEPTH && x.depth == y.depth + 1
  }

  /** Every item a wave queues is one level below the item whose worker
      queued it, which was not at the depth limit, and is not in the snapshot
      of `global_seen` that the workers read. */
  lemma {:induction false} TodosDeeper(rs: seq<WorkerResult>, popped: seq<WorkItem>, fetch: Url -> Response, globalSeen: seq<Url>, parse: Parser)
    requires |rs| <= |popped| && rs == Dispatch(popped, fetch, globalSeen, parse)[..|rs|]
    ensures forall x :: x in Todos(rs) ==> x.url !in globalSeen
    ensures OneLevelBelow(Todos(rs), popped)
    decreases |rs|
  {
    if |rs| > 0 {
      var k := |rs| - 1;
      assert rs[..k] == Dispatch(popped, fetch, globalSeen, parse)[..k];
      TodosDeeper(rs[..k], popped, fetch, globalSeen, parse);
      assert rs[k] == Worker.Worker(popped[k], fetch(popped[k].url), globalSeen, parse);
      assert popped[k] in popped;
      forall x | x in Todos(rs)
        ensures x.url !in globalSeen
        ensures exists y :: y in popped && y.depth != MAX_DEPTH && x.depth == y.depth + 1
      {
        if x !in Todos(rs[..k]) {
          assert x in rs[k].todo;
        }
      }
    }
  }

  /** Every item is within the depth limit. */
  ghost predicate WithinDepth(s: seq<WorkItem>)
  {
    forall x :: x in s ==> x.depth <= MAX_DEPTH
  }

  /** Replacing popped items by items one level below them keeps every queued
      item within the depth limit. */
  lemma DeeperStaysBounded(prefix: seq<WorkItem>, popped: seq<WorkItem>, added: seq<WorkItem>)
    requires WithinDepth(prefix + popped)
    requires OneLevelBelow(added, popped)
    ensures WithinDepth(prefix + added)
  {
    forall x | x in prefix + added ensures x.depth <= MAX_DEPTH {
      if x !in prefix {
        var y :| y in popped && y.depth != MAX_DEPTH && x.depth == y.depth + 1;
        assert y in prefix + popped;
      }
    }
  }

  // ------------------------------------------------------------ termination

  /** How many queued items sit at depth `d`. */
  function CountAt(s: seq<WorkItem>, d: nat): nat
  {
    if |s| == 0 then 0 else CountAt(s[..|s| - 1], d) + (if s[|s| - 1].depth == d then 1 else 0)
  }

  lemma {:induction false} CountAtAppend(a: seq<WorkItem>, b: seq<WorkItem>, d: nat)
    ensures CountAt(a + b, d) == CountAt(a, d) + CountAt(b, d)
    decreases |b|
  {
    if |b| == 0 {
      assert a + b == a;
    } else {
      assert (a + b)[..|a + b| - 1] == a + b[..|b| - 1];
      CountAtAppend(a, b[..|b| - 1], d);
    }
  }

  lemma {:induction false} CountAtPositive(s: seq<WorkItem>, d: nat)
    ensures CountAt(s, d) > 0 <==> exists x :: x in s && x.depth == d
    decreases |s|
  {
    if |s| > 0 {
      var front := s[..|s| - 1];
      CountAtPositive(front, d);
      assert s == front + [s[|s| - 1]];
    }
  }

  /** The smallest depth among some work items. */
  function MinDepth(s: seq<WorkItem>): (m: nat)
    requires |s| > 0
    ensures exists x :: x in s && x.depth == m
    ensures forall x :: x in s ==> m <= x.depth
  {
    if |s| == 1 then s[0].depth
    else
      var m := MinDepth(s[1..]);
      assert forall x :: x in s[1..] ==> x in s;
      assert forall x :: x in s ==> x == s[0] || x in s[1..];
      if s[0].depth <= m then s[0].depth else m
  }

  /** The crawl's measure: the counts of queued items at depths 0 to 3, read
      lexicographically. */
  ghost predicate MeasureLess(t: seq<WorkItem>, s: seq<WorkItem>)
  {
    CountAt(t, 0) < CountAt(s, 0) ||
    (CountAt(t, 0) == CountAt(s, 0) &&
     (CountAt(t, 1) < CountAt(s, 1) ||
      (CountAt(t, 1) == CountAt(s, 1) &&
       (CountAt(t, 2) < CountAt(s, 2) ||
        (CountAt(t, 2) == CountAt(s, 2) && CountAt(t, 3) < CountAt(s, 3))))))
  }

  /** Replacing a non-empty slice of items within the depth limit by items
      that are each deeper than one of them lowers the measure: the count at
      the shallowest popped depth drops and no shallower count changes. */
  lemma WaveLowersMeasure(prefix: seq<WorkItem>, popped: seq<WorkItem>, added: seq<WorkItem>)
    requires |popped| > 0
    requires WithinDepth(prefix + popped)
    requires OneLevelBelow(added, popped)
    ensures MeasureLess(prefix + added, prefix + popped)
  {
    assert forall y :: y in popped ==> y in prefix + popped;
    var m := MinDepth(popped);
    forall d: nat | d <= m
      ensures CountAt(added, d) == 0
      ensures d < m ==> CountAt(popped, d) == 0
    {
      CountAtPositive(added, d);
      CountAtPositive(popped, d);
    }
    CountAtPositive(popped, m);
    forall d: nat
      ensures CountAt(prefix + added, d) == CountAt(prefix, d) + CountAt(added, d)
      ensures CountAt(prefix + popped, d) == CountAt(prefix, d) + CountAt(popped, d)
    {
      CountAtAppend(prefix, added, d);
      CountAtAppend(prefix, popped, d);
    }
  }

  // ------------------------------------------------------------------ state

  /** The locals of `crawl` that outlive a wave. */
  class Crawler {
    var globalSeen: seq<Url>
    var siteTodo: seq<WorkItem>
    var siteLen: seq<(Url, nat)>
    var accumErrs: seq<(Url, Error)>
    const batch: Batch

    /** The batch state stays `Incrementing`, the size stays positive, and
        every queued item is within the depth limit. */
    ghost predicate Valid()
      reads this, batch
    {
      batch.state == Incrementing && batch.size >= 1 && WithinDepth(siteTodo)
    }

    constructor (sites: seq<string>, parse: Parser)
      ensures Valid() && fresh(batch)
      ensures siteTodo == Seeds(sites, parse) && batch.size == 1
      ensures globalSeen == [] && siteLen == [] && accumErrs == []
    {
      globalSeen := [];
      siteTodo := Seeds(sites, parse);
      siteLen := [];
      accumErrs := [];
      batch := new Batch();
      SeedsSpec(sites, parse);
    }

    /** One iteration of `'more_todo`. `fetch` is what the network and the
        parser answer for each URL during this wave. */
    method Wave(fetch: Url -> Response, parse: Parser) returns (handlesLen: nat, errorCount: nat)
      requires Valid() && |siteTodo| > 0
      modifies this, batch
      ensures Valid()
      ensures 0 < handlesLen == Min(old(batch.size), |old(siteTodo)|) <= old(batch.size)
      ensures var n := |old(siteTodo)|;
        var results := Dispatch(old(siteTodo)[n - handlesLen..], fetch, old(globalSeen), parse);
        siteTodo == old(siteTodo)[..n - handlesLen] + Todos(results) &&
        globalSeen == old(globalSeen) + Seens(results) &&
        siteLen == old(siteLen) + Lens(results) &&
        accumErrs == old(accumErrs) + Errs(results) &&
        errorCount == ErrorCount(results) == |Errs(results)| &&
        errorCount == Failures(old(siteTodo)[n - handlesLen..], fetch)
      ensures errorCount <= handlesLen
      ensures batch.size == NextSize(Incrementing, old(batch.size), errorCount, handlesLen)
    {
      ghost var todo0, n := siteTodo, |siteTodo|;
      handlesLen, errorCount := SpawnAndJoin(fetch, parse);
      ghost var popped := todo0[n - handlesLen..];
      ghost var results := Dispatch(popped, fetch, old(globalSeen), parse);
      TodosDeeper(results, popped, fetch, old(globalSeen), parse);
      DispatchErrors(popped, fetch, old(globalSeen), parse);
      ErrorCountIsFailures(popped, fetch, old(globalSeen), parse);
      assert todo0 == todo0[..n - handlesLen] + popped;
      DeeperStaysBounded(todo0[..n - handlesLen], popped, Todos(results));
      batch.Adjust(errorCount, handlesLen);
    }

    /** The spawning and the joining loop of a wave, which do not touch the
        batch controller. */
    method SpawnAndJoin(fetch: Url -> Response, parse: Parser) returns (handlesLen: nat, errorCount: nat)
      requires |siteTodo| > 0 && batch.size >= 1
      modifies this`siteTodo, this`globalSeen, this`siteLen, this`accumErrs
      ensures 0 < handlesLen == Min(batch.size, |old(siteTodo)|)
      ensures var n := |old(siteTodo)|;
        var results := Dispatch(old(siteTodo)[n - handlesLen..], fetch, old(globalSeen), parse);
        siteTodo == old(siteTodo)[..n - handlesLen] + Todos(results) &&
        globalSeen == old(globalSeen) + Seens(results) &&
        siteLen == old(siteLen) + Lens(results) &&
        accumErrs == old(accumErrs) + Errs(results) &&
        errorCount == ErrorCount(results)
    {
      ghost var todo0, n := siteTodo, |siteTodo|;
      var handles := Spawn(fetch, parse);
      assert |handles| <= batch.size;
      handlesLen := |handles|;
      assert handlesLen > 0;  // the per-handle time divides by it
      ghost var results := Dispatch(todo0[n - handlesLen..], fetch, globalSeen, parse);
      assert forall j :: 0 <= j < handlesLen ==> handles[j] == results[handlesLen - 1 - j];
      errorCount := Join(handles, results);
    }

    /** The spawning loop: pops up to `batch.size` items from the end of
        `site_todo` and runs a worker for each. Handle `j` belongs to the
        `j`-th item from the end. */
    method Spawn(fetch: Url -> Response, parse: Parser) returns (handles: seq<WorkerResult>)
      modifies this`siteTodo
      ensures var n := |old(siteTodo)|;
        |handles| == Min(batch.size, n) &&
        siteTodo == old(siteTodo)[..n - |handles|] &&
        forall j :: 0 <= j < |handles| ==>
          handles[j] == Worker.Worker(old(siteTodo)[n - 1 - j], fetch(old(siteTodo)[n - 1 - j].url), globalSeen, parse)
    {
      ghost var todo0, n := siteTodo, |siteTodo|;
      handles := [];
      var i := 0;
      while i < batch.size
        invariant i <= batch.size && |handles| == Min(i, n)
        invariant siteTodo == todo0[..n - |handles|]
        invariant forall j :: 0 <= j < |handles| ==>
          handles[j] == Worker.Worker(todo0[n - 1 - j], fetch(todo0[n - 1 - j].url), globalSeen, parse)
      {
        if |siteTodo| > 0 {
          var item := siteTodo[|siteTodo| - 1];
          siteTodo := siteTodo[..|siteTodo| - 1];
          var result, _ := RunWorker(item, fetch(item.url), globalSeen, parse);
          handles := handles + [result];
        }
        i := i + 1;
      }
    }

    /** The joining loop: pops the handles from the end, so the results are
        merged in the order of `results`, and counts the workers that
        reported an error. */
    method Join(handles: seq<WorkerResult>, ghost results: seq<WorkerResult>) returns (errorCount: nat)
      requires |handles| == |results|
      requires forall j :: 0 <= j < |handles| ==> handles[j] == results[|results| - 1 - j]
      modifies this`siteTodo, this`globalSeen, this`siteLen, this`accumErrs
      ensures siteTodo == old(siteTodo) + Todos(results)
      ensures globalSeen == old(globalSeen) + Seens(results)
      ensures siteLen == old(siteLen) + Lens(results)
      ensures accumErrs == old(accumErrs) + Errs(results)
      ensures errorCount == ErrorCount(results)
    {
      errorCount := 0;
      var todo, seen, lens, errs := siteTodo, globalSeen, siteLen, accumErrs;
      var i := |handles|;
      while i > 0
        modifies {}
        invariant 0 <= i <= |handles|
        invariant todo == siteTodo + Todos(results[..|handles| - i])
        invariant seen == globalSeen + Seens(results[..|handles| - i])
        invariant lens == siteLen + Lens(results[..|handles| - i])
        invariant errs == accumErrs + Errs(results[..|handles| - i])
        invariant errorCount == ErrorCount(results[..|handles| - i])
      {
        i := i - 1;
        var h := handles[i];
        MergeOne(results, |handles| - 1 - i, siteTodo, globalSeen, siteLen, accumErrs);
        if |h.errs| > 0 {
          errorCount := errorCount + 1;
        }
        seen := seen + h.seen;
        todo := todo + h.todo;
        lens := lens + h.lens;
        errs := errs + h.errs;
      }
      assert results[..|handles|] == results;
      siteTodo, globalSeen, siteLen, accumErrs := todo, seen, lens, errs;
    }

    /** `crawl`: waves until `site_todo` is empty. `fetch(w, u)` is the answer
        for URL `u` during wave `w`. The loop terminates because every wave
        replaces items by strictly deeper ones and depth is bounded. */
    method Crawl(fetch: (nat, Url) -> Response, parse: Parser)
      requires Valid()
      modifies this, batch
      ensures Valid() && siteTodo == []
      ensures old(globalSeen) <= globalSeen && old(siteLen) <= siteLen && old(accumErrs) <= accumErrs
    {
      var wave: nat := 0;
      while |siteTodo| > 0
        invariant Valid()
        invariant old(globalSeen) <= globalSeen && old(siteLen) <= siteLen && old(accumErrs) <= accumErrs
        decreases CountAt(siteTodo, 0), CountAt(siteTodo, 1), CountAt(siteTodo, 2), CountAt(siteTodo, 3)
      {
        ghost var before, seenBefore := siteTodo, globalSeen;
        var w := wave;
        var handlesLen, errorCount := Wave(u => fetch(w, u), parse);
        ghost var cut := |before| - handlesLen;
        ghost var popped := before[cut..];
        ghost var results := Dispatch(popped, u => fetch(w, u), seenBefore, parse);
        TodosDeeper(results, popped, u => fetch(w, u), seenBefore, parse);
        assert before == before[..cut] + popped;
        forall x | x in Todos(results) ensures exists y :: y in popped && x.depth > y.depth {
          var j :| 0 <= j < |results| && popped[j].depth < MAX_DEPTH && x.depth == popped[j].depth + 1;
          assert popped[j] in popped;
        }
        WaveLowersMeasure(before[..cut], popped, Todos(results));
        wave := wave + 1;
      }
    }
  }
}
