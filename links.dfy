/** Find-first and filter-map over a sequence of candidate URLs. Every link
    extractor in the repository reduces to one of these two once its tree walk
    or selector has produced the candidates in visiting order. */
module Links {
  import opened Base

  /** The first present candidate, or `None` when there is none. */
  function FirstSome(s: seq<Option<Url>>): (r: Option<Url>)
    ensures r.None? <==> forall i :: 0 <= i < |s| ==> s[i].None?
    ensures r.Some? ==> exists i :: 0 <= i < |s| && s[i] == r && forall j :: 0 <= j < i ==> s[j].None?
  {
    if |s| == 0 then None
    else if s[0].Some? then s[0]
    else
      var r := FirstSome(s[1..]);
      assert forall i :: 1 <= i < |s| ==> s[i] == s[1..][i - 1];
      r
  }

  /** The present candidates, in order. */
  function Somes(s: seq<Option<Url>>): (r: seq<Url>)
    ensures |r| <= |s|
    ensures forall u :: u in r <==> Some(u) in s
  {
    if |s| == 0 then []
    else
      var front := s[..|s| - 1];
      assert s == front + [s[|s| - 1]];
      Somes(front) + (if s[|s| - 1].Some? then [s[|s| - 1].value] else [])
  }

  /** Collecting the present candidates commutes with concatenation: the order
      of the input is kept, and every part contributes independently. */
  lemma {:induction false} SomesAppend(a: seq<Option<Url>>, b: seq<Option<Url>>)
    ensures Somes(a + b) == Somes(a) + Somes(b)
    decreases |b|
  {
    if |b| == 0 {
      assert a + b == a;
    } else {
      var b' := b[..|b| - 1];
      assert (a + b)[..|a + b| - 1] == a + b';
      SomesAppend(a, b');
    }
  }

  /** An absent candidate contributes nothing; a present one contributes
      exactly its URL. */
  lemma SomesSingleton(c: Option<Url>)
    ensures Somes([c]) == if c.Some? then [c.value] else []
  {
    assert [c][..0] == [];
  }

  /** The find-first variant returns the head of what the filter-map variant
      returns. */
  lemma {:induction false} FirstIsHeadOfSomes(s: seq<Option<Url>>)
    ensures FirstSome(s) == if Somes(s) == [] then None else Some(Somes(s)[0])
    decreases |s|
  {
    if |s| > 0 {
      assert s == [s[0]] + s[1..];
      SomesAppend([s[0]], s[1..]);
      SomesSingleton(s[0]);
      FirstIsHeadOfSomes(s[1..]);
    }
  }

  /** An absent candidate in the middle changes neither the find-first nor the
      filter-map result. */
  lemma SkipNone(a: seq<Option<Url>>, b: seq<Option<Url>>)
    ensures Somes(a + [None] + b) == Somes(a + b)
    ensures FirstSome(a + [None] + b) == FirstSome(a + b)
  {
    SomesAppend(a + [None], b);
    SomesAppend(a, [None]);
    SomesAppend(a, b);
    SomesSingleton(None);
    FirstSkipsNone(a, b);
  }

  lemma {:induction false} FirstSkipsNone(a: seq<Option<Url>>, b: seq<Option<Url>>)
    ensures FirstSome(a + [None] + b) == FirstSome(a + b)
    decreases |a|
  {
    if |a| == 0 {
      assert a + [None] + b == [None] + b && ([None] + b)[1..] == b && a + b == b;
    } else {
      assert (a + [None] + b)[0] == a[0] && (a + [None] + b)[1..] == a[1..] + [None] + b;
      assert (a + b)[0] == a[0] && (a + b)[1..] == a[1..] + b;
      FirstSkipsNone(a[1..], b);
    }
  }
}
