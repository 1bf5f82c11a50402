/**
 * Tiered identity resolution: the rest of the player search, which picks one
 * profile id among the scored candidates, first match wins.
 */
module Resolver {
  import opened Wrappers
  import opened Location
  import opened Candidates

  /** The home-area city names (lower-cased) and the home state code (`"tx"` in the script). */
  datatype Config = Config(homeCities: seq<string>, homeState: string)

  /** The two location-based tiers. */
  datatype Tier = HomeArea | HomeState

  /** A candidate belongs to a tier when it is active and its location matches the tier. */
  predicate InTier(c: Candidate, tier: Tier, cfg: Config) {
    && c.score > 0.0
    && match tier
       case HomeArea => c.place.city.Some? && c.place.city.value in cfg.homeCities
       case HomeState => c.place.state == Some(cfg.homeState)
  }

  /** `Array.prototype.find` with the tier as predicate: the index of the first candidate in the tier. */
  function FindFirst(cs: seq<Candidate>, tier: Tier, cfg: Config): (r: Option<nat>)
    ensures r.Some? ==> r.value < |cs| && InTier(cs[r.value], tier, cfg)
    ensures r.Some? ==> forall j :: 0 <= j < r.value ==> !InTier(cs[j], tier, cfg)
    ensures r.None? ==> forall j :: 0 <= j < |cs| ==> !InTier(cs[j], tier, cfg)
    decreases |cs|
  {
    if cs == [] then None
    else if InTier(cs[0], tier, cfg) then Some(0)
    else
      match FindFirst(cs[1..], tier, cfg)
      case None => None
      case Some(i) => Some(i + 1)
  }

  /**
   * The `reduce` that keeps the running maximum and replaces it only on a
   * strictly larger score: the first candidate of largest score.
   */
  function MostActive(cs: seq<Candidate>): (k: nat)
    requires |cs| > 0
    ensures k < |cs|
    ensures forall j :: 0 <= j < |cs| ==> cs[j].score <= cs[k].score
    ensures forall j :: 0 <= j < k ==> cs[j].score < cs[k].score
    decreases |cs|
  {
    if |cs| == 1 then 0
    else
      var k := MostActive(cs[..|cs| - 1]);
      if cs[|cs| - 1].score > cs[k].score then |cs| - 1 else k
  }

  /**
   * No candidate: unresolved. Otherwise the first active home-area
   * candidate, else the first active home-state candidate, else the most
   * active candidate.
   */
  function Resolve(cs: seq<Candidate>, cfg: Config): (r: Option<int>)
    ensures r.None? <==> cs == []
    ensures r.Some? ==> exists k :: 0 <= k < |cs| && cs[k].source.id == r.value
  {
    if cs == [] then None
    else
      match FindFirst(cs, HomeArea, cfg)
      case Some(i) => Some(cs[i].source.id)
      case None =>
        match FindFirst(cs, HomeState, cfg)
        case Some(i) => Some(cs[i].source.id)
        case None => Some(cs[MostActive(cs)].source.id)
  }

  /** Tier 1: the first active home-area candidate wins. */
  lemma ResolveHomeArea(cs: seq<Candidate>, cfg: Config, i: nat)
    requires i < |cs| && InTier(cs[i], HomeArea, cfg)
    requires forall j :: 0 <= j < i ==> !InTier(cs[j], HomeArea, cfg)
    ensures Resolve(cs, cfg) == Some(cs[i].source.id)
  {
    var f := FindFirst(cs, HomeArea, cfg);
    assert f == Some(i);
  }

  /** Tier 2: with no active home-area candidate, the first active home-state candidate wins. */
  lemma ResolveHomeState(cs: seq<Candidate>, cfg: Config, i: nat)
    requires forall j :: 0 <= j < |cs| ==> !InTier(cs[j], HomeArea, cfg)
    requires i < |cs| && InTier(cs[i], HomeState, cfg)
    requires forall j :: 0 <= j < i ==> !InTier(cs[j], HomeState, cfg)
    ensures Resolve(cs, cfg) == Some(cs[i].source.id)
  {
    var f := FindFirst(cs, HomeState, cfg);
    assert f == Some(i);
  }

  /**
   * Tier 3: with neither, the winner has a score at least every other
   * candidate's, and no earlier candidate has an equal score.
   */
  lemma ResolveMostActive(cs: seq<Candidate>, cfg: Config)
    requires cs != []
    requires forall j :: 0 <= j < |cs| ==> !InTier(cs[j], HomeArea, cfg) && !InTier(cs[j], HomeState, cfg)
    ensures exists k :: (0 <= k < |cs| && Resolve(cs, cfg) == Some(cs[k].source.id)
                         && (forall j :: 0 <= j < |cs| ==> cs[j].score <= cs[k].score)
                         && (forall j :: 0 <= j < k ==> cs[j].score < cs[k].score))
  {
    var k := MostActive(cs);
    assert Resolve(cs, cfg) == Some(cs[k].source.id);
  }

  /** `searchPlayerID` on a delivered search response, without the request itself. */
  function SearchPlayerId(name: string, hits: seq<Hit>, cfg: Config): Option<int> {
    Resolve(ScoredCandidates(name, hits), cfg)
  }

  /** The search leaves the player unresolved exactly when no hit passes the name filter. */
  lemma SearchPlayerIdUnresolvedIff(name: string, hits: seq<Hit>, cfg: Config)
    ensures SearchPlayerId(name, hits, cfg).None? <==> forall i :: 0 <= i < |hits| ==> !Kept(hits[i], ParseQuery(name))
  {
    CandidatesEmptyIff(name, hits);
  }

  /** A resolved id is the id of a hit that passes the name filter. */
  lemma SearchPlayerIdSound(name: string, hits: seq<Hit>, cfg: Config)
    ensures SearchPlayerId(name, hits, cfg).Some? ==>
      exists i :: (0 <= i < |hits| && Kept(hits[i], ParseQuery(name))
                   && hits[i].source.value.id == SearchPlayerId(name, hits, cfg).value)
  {
    var cs := ScoredCandidates(name, hits);
    var r := Resolve(cs, cfg);
    if r.Some? {
      var k :| 0 <= k < |cs| && cs[k].source.id == r.value;
      var i :| 0 <= i < |hits| && hits[i] == Hit(Some(cs[k].source));
      assert Kept(hits[i], ParseQuery(name));
    }
  }

  /** A candidate used by the examples below. */
  function SampleCandidate(city: string, id: int, score: real): Candidate {
    Candidate(Source(id, "", "", None, Some(score), None), Place(Some(city), None), score)
  }

  /** An inactive home-area candidate is skipped in favour of a later active one. */
  lemma ResolveSkipsInactiveExample()
    ensures Resolve([SampleCandidate("katy", 1, 0.0), SampleCandidate("katy", 2, 5.0)], Config(["katy"], "tx")) == Some(2)
  {
    var cs := [SampleCandidate("katy", 1, 0.0), SampleCandidate("katy", 2, 5.0)];
    ResolveHomeArea(cs, Config(["katy"], "tx"), 1);
  }

  /** Scores 3, 7, 7 and no location match: the first 7 wins. */
  lemma ResolveTieExample()
    ensures Resolve([SampleCandidate("austin", 1, 3.0), SampleCandidate("austin", 2, 7.0), SampleCandidate("austin", 3, 7.0)], Config(["katy"], "tx")) == Some(2)
  {
    var cs := [SampleCandidate("austin", 1, 3.0), SampleCandidate("austin", 2, 7.0), SampleCandidate("austin", 3, 7.0)];
    var cfg := Config(["katy"], "tx");
    assert forall j :: 0 <= j < |cs| ==> !InTier(cs[j], HomeArea, cfg) && !InTier(cs[j], HomeState, cfg);
    ResolveMostActive(cs, cfg);
  }
}
