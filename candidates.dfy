/**
 * Candidate filtering and scoring: the part of the player search that keeps
 * the hits compatible with the queried name and attaches a parsed location
 * and an activity score to each.
 */
module Candidates {
  import opened Wrappers
  import opened Strings
  import opened Location

  /** The `source` object of one search hit. */
  datatype Source = Source(
    id: int,
    firstName: string,
    lastName: string,
    location: Option<string>,  // `location?.display`
    singles: Option<real>,     // `myUtrSingles`
    doubles: Option<real>)     // `myUtrDoubles`

  /** One search hit; its `source` may be missing. */
  datatype Hit = Hit(source: Option<Source>)

  /** The queried name reduced to its lower-cased first and last words. */
  datatype NameQuery = NameQuery(first: string, last: string)

  /** A kept hit with its parsed location and activity score. */
  datatype Candidate = Candidate(source: Source, place: Place, score: real)

  /** The word separator of a queried name. */
  const Space: string := " "

  /** The query of a split name: its first and its last word, lower-cased. */
  function QueryOf(words: seq<string>): NameQuery
    requires |words| >= 1
  {
    NameQuery(ToLower(words[0]), ToLower(words[|words| - 1]))
  }

  /** `name.split(' ')`, then the first and the last word. */
  function ParseQuery(name: string): NameQuery {
    QueryOf(Split(name, Space))
  }

  lemma SpaceBorderFree()
    ensures BorderFree(Space)
  {
  }

  /** A name made of space-free words is queried by its lower-cased first and last word. */
  lemma ParseQueryWords(words: seq<string>)
    requires |words| >= 1 && SeparatorFree(words, Space)
    ensures ParseQuery(Join(words, Space)) == NameQuery(ToLower(words[0]), ToLower(words[|words| - 1]))
  {
    SpaceBorderFree();
    SplitJoin(words, Space);
  }

  /** The first name equals the query's first word exactly; the last name contains its last word. */
  predicate Matches(src: Source, q: NameQuery) {
    ToLower(src.firstName) == q.first && Contains(ToLower(src.lastName), q.last)
  }

  /** The filter condition on one hit. */
  predicate Kept(hit: Hit, q: NameQuery) {
    hit.source.Some? && Matches(hit.source.value, q)
  }

  /** The sources of the kept hits, in the order of the hits. */
  function Matching(hits: seq<Hit>, q: NameQuery): (r: seq<Source>)
    ensures |r| <= |hits|
    ensures forall k :: 0 <= k < |r| ==> Matches(r[k], q) && Hit(Some(r[k])) in hits
    ensures forall i :: 0 <= i < |hits| && Kept(hits[i], q) ==> hits[i].source.value in r
    decreases |hits|
  {
    if hits == [] then []
    else
      var rest := Matching(hits[1..], q);
      assert forall i :: 1 <= i < |hits| ==> hits[i] == hits[1..][i - 1];
      if Kept(hits[0], q) then [hits[0].source.value] + rest else rest
  }

  /** Filtering keeps the input order: it distributes over concatenation. */
  lemma {:induction false} MatchingAppend(a: seq<Hit>, b: seq<Hit>, q: NameQuery)
    ensures Matching(a + b, q) == Matching(a, q) + Matching(b, q)
    decreases |a|
  {
    if a == [] {
      assert a + b == b;
    } else {
      assert (a + b)[1..] == a[1..] + b;
      MatchingAppend(a[1..], b, q);
    }
  }

  /** The ratings of a source are non-negative where present. */
  predicate NonNegativeRatings(src: Source) {
    (src.singles.Some? ==> src.singles.value >= 0.0) && (src.doubles.Some? ==> src.doubles.value >= 0.0)
  }

  /** `(myUtrSingles || 0) + (myUtrDoubles || 0)`. */
  function ActivityScore(src: Source): (r: real)
    ensures src.singles.None? && src.doubles.None? ==> r == 0.0
    ensures NonNegativeRatings(src) ==> r >= 0.0
    ensures r > 0.0 ==> (src.singles.Some? && src.singles.value > 0.0) || (src.doubles.Some? && src.doubles.value > 0.0)
  {
    src.singles.GetOr(0.0) + src.doubles.GetOr(0.0)
  }

  /** One kept hit with its parsed location and activity score. */
  function Score(src: Source): Candidate {
    Candidate(src, ParseLocation(src.location), ActivityScore(src))
  }

  /**
   * The candidates for a queried name: exactly the kept hits, in their
   * order, each with its location and score.
   */
  function ScoredCandidates(name: string, hits: seq<Hit>): (cs: seq<Candidate>)
    ensures |cs| == |Matching(hits, ParseQuery(name))| <= |hits|
    ensures forall k :: 0 <= k < |cs| ==> cs[k].source == Matching(hits, ParseQuery(name))[k]
    ensures forall k :: 0 <= k < |cs| ==>
      && Matches(cs[k].source, ParseQuery(name))
      && Hit(Some(cs[k].source)) in hits
      && cs[k].place == ParseLocation(cs[k].source.location)
      && cs[k].score == ActivityScore(cs[k].source)
  {
    var m := Matching(hits, ParseQuery(name));
    seq(|m|, k requires 0 <= k < |m| => Score(m[k]))
  }

  /** There are no candidates exactly when no hit passes the filter. */
  lemma CandidatesEmptyIff(name: string, hits: seq<Hit>)
    ensures ScoredCandidates(name, hits) == [] <==> forall i :: 0 <= i < |hits| ==> !Kept(hits[i], ParseQuery(name))
  {
    var q := ParseQuery(name);
    var m := Matching(hits, q);
    if m != [] {
      var i :| 0 <= i < |hits| && hits[i] == Hit(Some(m[0]));
      assert Kept(hits[i], q);
    }
  }
}
