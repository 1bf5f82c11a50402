# fetchUTR: player lookup and team averages, modelled in Dafny

`fetchUTR.js` looks up each player of each team in the UTR ratings directory
and prints the players' singles and doubles ratings together with team
averages. This project models the decision logic of that script and proves
its properties:

- **Location parsing** (`Location`): `parseLocation` turns a `"City, ST"`
  display string into a lower-cased (city, state) pair.
- **Candidate filtering and scoring** (`Candidates`): the queried name is
  reduced to its first and last word; a search hit is kept when it has a
  `source`, its lower-cased first name equals the first word and its
  lower-cased last name contains the last word; each kept hit gets its parsed
  location and an activity score `(singles || 0) + (doubles || 0)`.
- **Tiered identity resolution** (`Resolver`): no candidate gives no id;
  otherwise the first active home-area candidate, else the first active
  home-state candidate, else the first candidate of largest score (the
  `reduce` with a strict `>`).
- **Roster building and team averages** (`Ratings`, `Roster`): one record per
  player name, the fetched record or a placeholder with the name and no
  rating data; each average is the mean of the ratings that are above 0 with
  progress of at least 100, absent when there are none.
- **Rating formatting** (`Format`): `formatUTR`.

`Strings` holds the string primitives the script relies on (ASCII
lower-casing, `split` with a non-empty separator, `includes`) with their
round-trip lemmas; `Wrappers` holds `Option`, standing for `null`/`undefined`.

The home-area cities and the home state code (`"tx"` in the script) are the
parameters `Config.homeCities` and `Config.homeState`. The search response and
the fetched record of every player are inputs (`Roster.Team`): an absent
response or record stands for a request whose error the script catches and
turns into `null`. Turning numbers into text is the parameter `show`.

`split(', ')` at fetchUTR.js:35-37 keeps only the second piece as the state,
so `"Katy, TX, USA"` has state `"tx"` (`Location.ParseLocationThirdPiece`).

Design choices for JavaScript's loose values:
- Ratings and progress are `real`, so the means are exact.
- Ids are `int`; the test `if (playerID)` at fetchUTR.js:172 is `id != 0`.
- An absent progress next to a present rating is modelled as `undefined`, so
  `formatUTR` appends no annotation. A JSON `null` there would print
  `(null% reliable)`, because `null < 100` holds in JavaScript.

## Model

| member | source | states |
|---|---|---|
| `Strings.LowerChar` | fetchUTR.js:36 | upper-case ASCII letters map to their lower-case letter, every other character is kept, and no upper-case letter remains |
| `Strings.ToLower` | fetchUTR.js:65-71 | same length, each character lower-cased by `LowerChar` |
| `Strings.ContainsIff` | fetchUTR.js:71 | `includes` holds exactly when `needle` occurs at some position of `hay` |
| `Strings.Contains` | fetchUTR.js:71 | `includes`; characterised by `Strings.ContainsIff` |
| `Strings.Split` | fetchUTR.js:35 | `split` yields at least one piece, and the first piece is a prefix of the input |
| `Strings.JoinSplit` | fetchUTR.js:35 | joining the pieces of a split with the separator gives back the input |
| `Strings.SplitPiecesFree` | fetchUTR.js:35 | no piece of a split contains the separator |
| `Strings.SplitWhole` | fetchUTR.js:35 | a string without the separator splits into itself alone |
| `Strings.SplitFirst` | fetchUTR.js:35 | a separator-free first piece is cut off exactly at the first separator |
| `Strings.SplitJoin` | fetchUTR.js:35 | splitting undoes joining separator-free pieces (for a separator whose occurrences cannot overlap) |
| `Location.Piece` | fetchUTR.js:36-37 | a piece is absent exactly when empty, else its lower-cased text |
| `Location.ParseLocation` | fetchUTR.js:33-39 | total; an absent or empty input gives no city and no state; a present city or state is non-empty and has no upper-case letter |
| `Location.PlaceOf` | fetchUTR.js:36-38 | the `{city, state}` of the split pieces: `parts[0]` and `parts[1]` through `Piece`; characterised by `Location.ParseLocationPieces` and `Location.ParseLocationFirstSeparator` |
| `Location.ParseLocationPieces` | fetchUTR.js:35-38 | for separator-free pieces joined by `", "`: city from the first piece, state from the second, absent without a second piece, any later piece ignored |
| `Location.ParseLocationFirstSeparator` | fetchUTR.js:35-38 | the city is the text before the first `", "` (the whole string when there is none) and the state the text from there to the next `", "` |
| `Location.NoCommaNoSeparator` | fetchUTR.js:35 | a string without a comma contains no `", "` |
| `Location.ExampleLowerCases` | fetchUTR.js:36-37 | lower-casing of the example inputs |
| `Location.ParseLocationCityState` | fetchUTR.js:33-39 | `"Houston, TX"` parses to `houston` / `tx` |
| `Location.ParseLocationCityOnly` | fetchUTR.js:33-39 | `"Houston"` parses to `houston` and no state |
| `Location.ParseLocationThirdPiece` | fetchUTR.js:35-38 | `"Katy, TX, USA"` parses to `katy` / `tx`: the third piece is ignored |
| `Candidates.ParseQueryWords` | fetchUTR.js:64-66 | a name made of space-free words is queried by its lower-cased first and last word |
| `Candidates.ParseQuery` | fetchUTR.js:64-66 | the first and the last word of `name.split(' ')`, lower-cased; characterised by `Candidates.ParseQueryWords` |
| `Candidates.QueryOf` | fetchUTR.js:65-66 | `words[0]` and `words[words.length - 1]`, lower-cased; characterised by `Candidates.ParseQueryWords` |
| `Candidates.Matches` | fetchUTR.js:70-71 | the lower-cased first name equals the first word and the lower-cased last name includes the last word |
| `Candidates.Kept` | fetchUTR.js:68-72 | the filter predicate: the hit has a `source` and it matches the query; `Candidates.Matching` is proved to keep exactly these hits |
| `Candidates.Matching` | fetchUTR.js:68-72 | every kept source matches the query on both names and comes from a hit; every hit that passes the filter is kept |
| `Candidates.MatchingAppend` | fetchUTR.js:68-72 | the filter keeps input order: it distributes over concatenation |
| `Candidates.ActivityScore` | fetchUTR.js:83 | 0 when both ratings are absent, non-negative when the ratings are, and positive only with some positive rating |
| `Candidates.Score` | fetchUTR.js:81-90 | the `map` body: the source with its parsed location and its activity score |
| `Candidates.ScoredCandidates` | fetchUTR.js:81-90 | one candidate per kept source, in order, each matching the query and carrying its parsed location and activity score |
| `Candidates.CandidatesEmptyIff` | fetchUTR.js:68-77 | there is no candidate exactly when no hit passes the filter |
| `Resolver.FindFirst` | fetchUTR.js:98-102 | `find`: the index of the first candidate in the tier, or none in the tier at all |
| `Resolver.InTier` | fetchUTR.js:98-112 | the two `find` predicates: a positive score and a home-area city, or a positive score and the home state |
| `Resolver.MostActive` | fetchUTR.js:119-122 | the `reduce` picks a candidate whose score is at least every other one and strictly above every earlier one |
| `Resolver.Resolve` | fetchUTR.js:74-77 | unresolved exactly when there is no candidate; a resolved id is some candidate's id |
| `Resolver.ResolveHomeArea` | fetchUTR.js:97-106 | the first active home-area candidate wins |
| `Resolver.ResolveHomeState` | fetchUTR.js:108-116 | with no active home-area candidate, the first active home-state candidate wins |
| `Resolver.ResolveMostActive` | fetchUTR.js:118-124 | with neither, the winner's score is at least every other and no earlier candidate has an equal score |
| `Resolver.SearchPlayerId` | fetchUTR.js:64-124 | the body of `searchPlayerID` on a delivered response; its properties are `Resolver.SearchPlayerIdUnresolvedIff` and `Resolver.SearchPlayerIdSound` |
| `Resolver.SearchPlayerIdUnresolvedIff` | fetchUTR.js:64-124 | the search leaves the player unresolved exactly when no hit passes the name filter |
| `Resolver.SearchPlayerIdSound` | fetchUTR.js:68-124 | a resolved id is the id of a hit that passes the name filter |
| `Resolver.ResolveSkipsInactiveExample` | fetchUTR.js:98-102 | an inactive home-area candidate is skipped for a later active one |
| `Resolver.ResolveTieExample` | fetchUTR.js:119-122 | scores 3, 7, 7: the first 7 wins |
| `Ratings.Contributions` | fetchUTR.js:197-198 | at most one value per record, each positive |
| `Ratings.Reliable` | fetchUTR.js:197-198 | the filter predicate `rating > 0 && progress >= 100`, false when either value is absent |
| `Ratings.Placeholder` | fetchUTR.js:177-183 | the record pushed for an unresolved player (also fetchUTR.js:186-192): the name and four absent rating fields |
| `Ratings.ContributionsExact` | fetchUTR.js:197-198 | a value contributes exactly when it is the rating of a record with rating above 0 and progress of at least 100 |
| `Ratings.ContributionsEmptyIff` | fetchUTR.js:197-198 | nothing contributes exactly when no record qualifies |
| `Ratings.ContributionsAppend` | fetchUTR.js:197-198 | the filter distributes over concatenation |
| `Ratings.Sum` | fetchUTR.js:200-201 | the `reduce((a, b) => a + b, 0)` left fold; properties in `Ratings.SumAppend`, `Ratings.SumAbove`, `Ratings.SumBelow` |
| `Ratings.SumAppend` | fetchUTR.js:200-201 | the running sum of a concatenation is the sum of the sums |
| `Ratings.SumAbove` | fetchUTR.js:200-201 | elements all above `m` sum to more than their count times `m` |
| `Ratings.SumBelow` | fetchUTR.js:200-201 | elements all below `m` sum to less than their count times `m` |
| `Ratings.Mean` | fetchUTR.js:200-201 | absent exactly for no values; otherwise the mean times the count is the sum |
| `Ratings.MeanBetween` | fetchUTR.js:200-201 | the mean lies between the smallest and the largest value |
| `Ratings.TeamAverage` | fetchUTR.js:197-201 | a team average is absent exactly when no record qualifies |
| `Ratings.TeamAverageBounds` | fetchUTR.js:197-201 | a present average is positive and lies between the smallest and largest qualifying rating |
| `Ratings.RemoveMatching` | fetchUTR.js:197-201 | removing matching elements from two permutations leaves permutations |
| `Ratings.ContributionsMoveFront` | fetchUTR.js:197-201 | moving a record to the front keeps the number and the sum of the contributions |
| `Ratings.ContributionsPermutation` | fetchUTR.js:197-201 | reordering the roster keeps the number and the sum of the contributions |
| `Ratings.TeamAveragePermutation` | fetchUTR.js:197-201 | a team average does not depend on roster order |
| `Ratings.Summarize` | fetchUTR.js:197-201 | the singles and the doubles average of one roster, each over its own ratings |
| `Ratings.SummarizeExample` | fetchUTR.js:197-201 | ratings 10 (progress 100), 8 (progress 90) and a placeholder average to 10 singles and no doubles |
| `Format.FormatRating` | fetchUTR.js:153-157 | `"N/A"` for a missing rating; otherwise the rating text is a prefix of the result, which equals it exactly when progress is absent or at least 100, and otherwise continues with `" (p% reliable)"` |
| `Format.Annotation` | fetchUTR.js:155 | the `" (p% reliable)"` suffix; `Format.FormatRating` states when it is appended |
| `Format.FormatNotAvailableIff` | fetchUTR.js:154 | when no number renders as `"N/A"`, the result is `"N/A"` exactly for a missing rating |
| `Format.FormatExamples` | fetchUTR.js:154-156 | 9.5 with progress 100 is bare, with 85 annotated; a missing rating is `"N/A"` |
| `Roster.LookupId` | fetchUTR.js:171 | the id `searchPlayerID` yields: absent when the search request failed, else `Resolver.SearchPlayerId` on the response |
| `Roster.Entry` | fetchUTR.js:172-193 | the branching: the fetched record for a non-zero id and a successful fetch, else the placeholder |
| `Roster.TeamRoster` | fetchUTR.js:169-194 | the roster the loop builds with the program's search; characterised record by record by `Roster.TeamRosterAt` |
| `Roster.RosterUpTo` | fetchUTR.js:169-193 | the records pushed for the first `n` players number exactly `n` |
| `Roster.RosterUpToAt` | fetchUTR.js:169-193 | record `i` is player `i`'s entry: the fetched record when the search gives a non-zero id and the fetch succeeded, else the placeholder |
| `Roster.TeamRosterAt` | fetchUTR.js:169-193 | one record per player, in order: the fetched record when the player's id resolves to a non-zero value and the fetch succeeded, else a placeholder with the player's name and all four rating fields absent |
| `Roster.BuildRoster` | fetchUTR.js:168-193 | the inner loop, run with any search, pushes exactly the records `RosterUpTo` describes for all players |
| `Roster.AverageDrawsOnFetchedRecords` | fetchUTR.js:169-201 | a present team average always rests on a reliable rating of some player whose record was fetched and pushed |
| `Roster.SummarizeTeams` | fetchUTR.js:166-201 | one report per team, in order, with the team's name, the roster the program's own search (`Lookup`) yields and its two averages |

## Left out

- The network: logging in (`getUTRToken`), the search request and the rating
  lookup (`fetchPlayerUTR`), fetchUTR.js:42-53, 57-60, 132-150. Their results
  are inputs; a caught error is an absent input.
- The early exit when no token is obtained (fetchUTR.js:161-165), which
  depends on the login request.
- All console output and the `DEBUG` logging, including the team header and
  `toFixed(2)`.
- Number-to-text rendering, which is the parameter `show`; JavaScript
  floating point is modelled by `real`.
- `Roster.BuildRoster` takes the player search as a parameter (a function
  from a name and its search response to an id) rather than calling
  `searchPlayerID` itself; `Roster.SummarizeTeams` passes it the program's
  search, `Roster.Lookup`.
- The `async`/`await` sequencing of the main function: the loops run over
  responses that are already delivered.
- The hard-coded credentials, teams and city list (fetchUTR.js:7-30): teams
  and home cities are parameters.
- A hit whose `source` lacks `firstName` or `lastName` makes the script throw,
  and the whole search returns `null`; names are always present here.
- JavaScript truthiness beyond absent values: `NaN` ratings, a `0` rating
  treated as missing by `|| 0` (the same sum), and falsy non-numeric ids.
- `toLowerCase` beyond ASCII: `Strings.ToLower` lower-cases only `A`-`Z`.
- `Location.ParseLocation` and `Candidates.ParseQuery` rely on `Strings.Split`
  with a non-empty separator only; JavaScript's `split('')` is not modelled.
