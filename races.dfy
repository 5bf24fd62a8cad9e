/** The race driver in `main` of ex08/src/main.rs: the sites are split with
    `SITES.chunks(3)` and each chunk is matched on `(chunk.get(0),
    chunk.get(1), chunk.get(2))` to pick a three-, two- or one-way race; the
    fourth arm panics. The races themselves are not modelled. */
module Races {
  import opened Base

  const APACHE := "https://www.apache.org/"
  const AMAZON := "https://www.amazon.com/"
  const CRATES_IO := "https://crates.io/"
  const DOCS_RS := "https://docs.rs/"
  const MOZILLA := "https://www.mozilla.org/"
  const RUST_LANG := "https://www.rust-lang.org/"
  const WIKIPEDIA := "http://www.wikipedia.org/"
  const SITES: seq<string> := [APACHE, AMAZON, CRATES_IO, DOCS_RS, MOZILLA, RUST_LANG, WIKIPEDIA]

  /** `slice::chunks(n)`: consecutive pieces of length `n`, the last one
      possibly shorter. */
  function Chunks<T>(s: seq<T>, n: nat): (r: seq<seq<T>>)
    requires n > 0
    ensures forall i :: 0 <= i < |r| ==> 0 < |r[i]| <= n
    ensures forall i :: 0 <= i < |r| - 1 ==> |r[i]| == n
    decreases |s|
  {
    if |s| == 0 then []
    else if |s| <= n then [s]
    else [s[..n]] + Chunks(s[n..], n)
  }

  function Flatten<T>(chunks: seq<seq<T>>): seq<T>
  {
    if |chunks| == 0 then [] else chunks[0] + Flatten(chunks[1..])
  }

  /** The chunks put back together are the original sequence. */
  lemma {:induction false} ChunksFlatten<T>(s: seq<T>, n: nat)
    requires n > 0
    ensures Flatten(Chunks(s, n)) == s
    decreases |s|
  {
    if |s| > n {
      var r := Chunks(s, n);
      assert r[0] == s[..n] && r[1..] == Chunks(s[n..], n);
      ChunksFlatten(s[n..], n);
      assert s == s[..n] + s[n..];
    } else if |s| > 0 {
      assert Flatten([s]) == s + Flatten<T>([]);
    }
  }

  /** `slice::get`. */
  function Get<T>(s: seq<T>, i: nat): Option<T>
  {
    if i < |s| then Some(s[i]) else None
  }

  datatype Arm = ThreeWayRace | TwoWayRace | RunsAlone | Panics

  /** The arm of the `match` in `main` that a chunk selects. */
  function ArmFor<T>(chunk: seq<T>): Arm
  {
    match (Get(chunk, 0), Get(chunk, 1), Get(chunk, 2))
    case (Some(_), Some(_), Some(_)) => ThreeWayRace
    case (Some(_), Some(_), None) => TwoWayRace
    case (Some(_), None, None) => RunsAlone
    case _ => Panics
  }

  /** Whatever the site list, no chunk of three reaches the `panic!` arm, and
      the arm chosen is the one for the chunk's length. */
  lemma NoChunkPanics<T>(sites: seq<T>)
    ensures forall c :: c in Chunks(sites, 3) ==> ArmFor(c) != Panics
    ensures forall c :: c in Chunks(sites, 3) ==>
      ArmFor(c) == (if |c| == 3 then ThreeWayRace else if |c| == 2 then TwoWayRace else RunsAlone)
  {
    forall c | c in Chunks(sites, 3)
      ensures ArmFor(c) == (if |c| == 3 then ThreeWayRace else if |c| == 2 then TwoWayRace else RunsAlone)
    {
      var i :| 0 <= i < |Chunks(sites, 3)| && Chunks(sites, 3)[i] == c;
      assert 0 < |c| <= 3;
    }
  }

  /** For the seven sites of ex08 the races are three-way, three-way, then a
      single site on its own. */
  lemma SitesRaces()
    ensures |Chunks(SITES, 3)| == 3
    ensures ArmFor(Chunks(SITES, 3)[0]) == ThreeWayRace
    ensures ArmFor(Chunks(SITES, 3)[1]) == ThreeWayRace
    ensures ArmFor(Chunks(SITES, 3)[2]) == RunsAlone
  {
    var c := Chunks(SITES, 3);
    assert |SITES| == 7;
    assert c == [SITES[..3]] + Chunks(SITES[3..], 3);
    assert Chunks(SITES[3..], 3) == [SITES[3..][..3]] + Chunks(SITES[3..][3..], 3);
    assert Chunks(SITES[3..][3..], 3) == [SITES[3..][3..]];
  }
}
