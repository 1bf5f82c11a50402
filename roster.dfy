/**
 * Roster building and team averaging: the main loop that turns each team's
 * player names into one record per name and computes the team's averages.
 * The search and fetch requests are not made here: their outcomes are
 * inputs, one per player.
 */
module Roster {
  import opened Wrappers
  import opened Candidates
  import opened Resolver
  import opened Ratings

  /**
   * One team with the outcome of every request its players would cause:
   * `responses[i]` is the search response for `players[i]` (absent when the
   * request failed), `fetched[i]` the record the rating lookup would return
   * for the id resolved for `players[i]` (absent when that request failed).
   */
  datatype Team = Team(
    name: string,
    players: seq<string>,
    responses: seq<Option<seq<Hit>>>,
    fetched: seq<Option<PlayerRecord>>)

  /** A team's request outcomes match its players one to one. */
  predicate WellFormed(t: Team) {
    |t.responses| == |t.players| && |t.fetched| == |t.players|
  }

  /** The id the search yields: absent when the request failed or nothing resolved. */
  function LookupId(name: string, response: Option<seq<Hit>>, cfg: Config): Option<int> {
    match response
    case None => None
    case Some(hits) => SearchPlayerId(name, hits, cfg)
  }

  /**
   * The record pushed for a player: the fetched record when the id resolved
   * to a non-zero (truthy) value and the fetch succeeded, else a placeholder
   * with the player's name.
   */
  function Entry(name: string, id: Option<int>, fetched: Option<PlayerRecord>): PlayerRecord {
    if id.Some? && id.value != 0 && fetched.Some? then fetched.value else Placeholder(name)
  }

  /** A player search: from a name and its search response to the resolved id. */
  type Search = (string, Option<seq<Hit>>) -> Option<int>

  /** The search the program performs, for one configuration. */
  function Lookup(cfg: Config): Search {
    (name: string, response: Option<seq<Hit>>) => LookupId(name, response, cfg)
  }

  /** The records pushed for the first `n` players of a team. */
  function RosterUpTo(t: Team, search: Search, n: nat): (r: seq<PlayerRecord>)
    requires WellFormed(t) && n <= |t.players|
    ensures |r| == n
    decreases n
  {
    if n == 0 then []
    else RosterUpTo(t, search, n - 1) + [Entry(t.players[n - 1], search(t.players[n - 1], t.responses[n - 1]), t.fetched[n - 1])]
  }

  /** The roster of a team: one record per player. */
  function TeamRoster(t: Team, cfg: Config): seq<PlayerRecord>
    requires WellFormed(t)
  {
    RosterUpTo(t, Lookup(cfg), |t.players|)
  }

  /** Record `i` of a roster prefix is player `i`'s entry. */
  lemma {:induction false} RosterUpToAt(t: Team, search: Search, n: nat, i: nat)
    requires WellFormed(t) && i < n <= |t.players|
    ensures RosterUpTo(t, search, n)[i] == Entry(t.players[i], search(t.players[i], t.responses[i]), t.fetched[i])
    decreases n
  {
    if i < n - 1 {
      RosterUpToAt(t, search, n - 1, i);
    }
  }

  /**
   * A roster has exactly one record per player, in order: the fetched record
   * when the player's id resolved to a non-zero value and the fetch
   * succeeded, else a placeholder with the player's name and no rating data.
   */
  lemma TeamRosterAt(t: Team, cfg: Config, i: nat)
    requires WellFormed(t) && i < |t.players|
    ensures |TeamRoster(t, cfg)| == |t.players|
    ensures var id := LookupId(t.players[i], t.responses[i], cfg);
      TeamRoster(t, cfg)[i] == if id.Some? && id.value != 0 && t.fetched[i].Some? then t.fetched[i].value
                               else PlayerRecord(t.players[i], None, None, None, None)
  {
    RosterUpToAt(t, Lookup(cfg), |t.players|, i);
  }

  /**
   * The inner loop over `team.players`, pushing one record per name; the
   * search is the one `Lookup` gives, passed in as a parameter.
   */
  method BuildRoster(t: Team, search: Search) returns (roster: seq<PlayerRecord>)
    requires WellFormed(t)
    ensures roster == RosterUpTo(t, search, |t.players|)
  {
    roster := [];
    for i := 0 to |t.players|
      invariant roster == RosterUpTo(t, search, i)
    {
      var playerName := t.players[i];
      var playerId := search(playerName, t.responses[i]);
      var record;
      if playerId.Some? && playerId.value != 0 {
        var playerData := t.fetched[i];
        if playerData.Some? {
          record := playerData.value;
        } else {
          record := Placeholder(playerName);
        }
      } else {
        record := Placeholder(playerName);
      }
      roster := roster + [record];
    }
  }

  /**
   * An unresolved player never counts: whenever a team average is present,
   * it rests on the reliable rating of a player whose record was fetched.
   */
  lemma AverageDrawsOnFetchedRecords(t: Team, search: Search, kind: Kind)
    requires WellFormed(t)
    ensures var roster := RosterUpTo(t, search, |t.players|);
      TeamAverage(roster, kind).Some? ==>
      exists i :: 0 <= i < |t.players| && t.fetched[i].Some? && roster[i] == t.fetched[i].value
                  && Reliable(t.fetched[i].value, kind)
  {
    var roster := RosterUpTo(t, search, |t.players|);
    if TeamAverage(roster, kind).Some? {
      var i :| 0 <= i < |roster| && Reliable(roster[i], kind);
      RosterUpToAt(t, search, |t.players|, i);
    }
  }

  /** One team's output: its name, its roster and its averages. */
  datatype TeamReport = TeamReport(name: string, roster: seq<PlayerRecord>, summary: Summary)

  /** The outer loop over the teams. */
  method SummarizeTeams(teams: seq<Team>, cfg: Config) returns (reports: seq<TeamReport>)
    requires forall k :: 0 <= k < |teams| ==> WellFormed(teams[k])
    ensures |reports| == |teams|
    ensures forall k :: 0 <= k < |teams| ==>
      && reports[k].name == teams[k].name
      && reports[k].roster == TeamRoster(teams[k], cfg)
      && reports[k].summary == Summarize(reports[k].roster)
  {
    reports := [];
    for k := 0 to |teams|
      invariant |reports| == k
      invariant forall m :: 0 <= m < k ==>
        && reports[m].name == teams[m].name
        && reports[m].roster == TeamRoster(teams[m], cfg)
        && reports[m].summary == Summarize(reports[m].roster)
    {
      var teamPlayers := BuildRoster(teams[k], Lookup(cfg));
      var avgSingles := TeamAverage(teamPlayers, Singles);
      var avgDoubles := TeamAverage(teamPlayers, Doubles);
      reports := reports + [TeamReport(teams[k].name, teamPlayers, Summary(avgSingles, avgDoubles))];
    }
  }
}
