/** The `scraper`-based extractors. `Html::parse_document` never fails and
    `doc.select(&Selector::parse("a"))` yields the anchor elements in document
    order; what the loops see of each is `element.value().attr("href")`, so a
    selection is modelled as that sequence of lookups.

    `first_url_in_text` is written out identically in ex03, ex05, ex07 and
    old/ex06 (old/ex06 also prints the text before returning `None`), and
    `all_urls_in_text` identically in ex09 and ex10. */
module Selection {
  import opened Base
  import opened Links

  /** The URL one selected element contributes: its href, if it has one and
      it parses. */
  function UrlOf(href: Option<string>, parse: Parser): Option<Url>
  {
    if href.Some? then parse(href.value) else None
  }

  function Candidates(selection: seq<Option<string>>, parse: Parser): seq<Option<Url>>
  {
    seq(|selection|, i requires 0 <= i < |selection| => UrlOf(selection[i], parse))
  }

  /** Looking up candidates commutes with splitting the selection. */
  lemma CandidatesAppend(a: seq<Option<string>>, b: seq<Option<string>>, parse: Parser)
    ensures Candidates(a + b, parse) == Candidates(a, parse) + Candidates(b, parse)
  {
  }

  /** `all_urls_in_text`: every selected element with an href that parses
      contributes its URL, in selection order; the others are skipped without
      aborting, and the function always returns `Ok`. */
  method AllUrlsInText(selection: seq<Option<string>>, parse: Parser) returns (r: Result<seq<Url>>)
    ensures r == Ok(Somes(Candidates(selection, parse)))
  {
    ghost var c := Candidates(selection, parse);
    var urls: seq<Url> := [];
    for i := 0 to |selection|
      invariant urls == Somes(c[..i])
    {
      assert c[..i + 1] == c[..i] + [c[i]];
      SomesAppend(c[..i], [c[i]]);
      SomesSingleton(c[i]);
      var link: string;
      match selection[i] {
        case Some(l) => link := l;
        case None => continue;
      }
      var url: Url;
      match parse(link) {
        case Some(u) => url := u;
        case None => continue;
      }
      urls := urls + [url];
    }
    assert c[..|selection|] == c;
    return Ok(urls);
  }

  /** `first_url_in_text`: `Ok(Some(u))` for the first selected element whose
      href is present and parses, `Ok(None)` when there is none; never `Err`. */
  method FirstUrlInText(selection: seq<Option<string>>, parse: Parser) returns (r: Result<Option<Url>>)
    ensures r == Ok(FirstSome(Candidates(selection, parse)))
  {
    ghost var c := Candidates(selection, parse);
    for i := 0 to |selection|
      invariant forall j :: 0 <= j < i ==> c[j].None?
    {
      var link: string;
      match selection[i] {
        case Some(l) => link := l;
        case None => continue;
      }
      var url: Url;
      match parse(link) {
        case Some(u) => url := u;
        case None => continue;
      }
      assert c[i] == Some(url);
      return Ok(Some(url));
    }
    return Ok(None);
  }

  /** What `all_urls_in_text` returns is never longer than the selection,
      holds a URL exactly when some selected href parses to it, and is
      assembled part by part in selection order. */
  lemma AllUrlsShape(a: seq<Option<string>>, b: seq<Option<string>>, parse: Parser, u: Url)
    ensures |Somes(Candidates(a, parse))| <= |a|
    ensures u in Somes(Candidates(a, parse)) <==> exists i :: 0 <= i < |a| && a[i].Some? && parse(a[i].value) == Some(u)
    ensures Somes(Candidates(a + b, parse)) == Somes(Candidates(a, parse)) + Somes(Candidates(b, parse))
  {
    var c := Candidates(a, parse);
    if Some(u) in c {
      var i :| 0 <= i < |c| && c[i] == Some(u);
      assert a[i].Some? && parse(a[i].value) == Some(u);
    }
    if exists i :: 0 <= i < |a| && a[i].Some? && parse(a[i].value) == Some(u) {
      var i :| 0 <= i < |a| && a[i].Some? && parse(a[i].value) == Some(u);
      assert c[i] == Some(u);
    }
    CandidatesAppend(a, b, parse);
    SomesAppend(c, Candidates(b, parse));
  }

  /** An element without an href, or whose href does not parse, changes
      neither result. */
  lemma SkippedElement(a: seq<Option<string>>, href: Option<string>, b: seq<Option<string>>, parse: Parser)
    requires UrlOf(href, parse).None?
    ensures Somes(Candidates(a + [href] + b, parse)) == Somes(Candidates(a + b, parse))
    ensures FirstSome(Candidates(a + [href] + b, parse)) == FirstSome(Candidates(a + b, parse))
  {
    var ca, cb := Candidates(a, parse), Candidates(b, parse);
    CandidatesAppend(a + [href], b, parse);
    CandidatesAppend(a, [href], parse);
    CandidatesAppend(a, b, parse);
    assert Candidates([href], parse) == [None];
    SkipNone(ca, cb);
  }

  /** `first_url_in_text` returns the first URL that `all_urls_in_text`
      returns for the same selection. */
  lemma FirstIsFirstOfAll(selection: seq<Option<string>>, parse: Parser)
    ensures FirstSome(Candidates(selection, parse)) ==
      var all := Somes(Candidates(selection, parse));
      if all == [] then None else Some(all[0])
  {
    FirstIsHeadOfSomes(Candidates(selection, parse));
  }
}
