/**
 * Rating aggregation: a team's singles and doubles averages over the
 * players whose rating is positive and fully reliable.
 */
module Ratings {
  import opened Wrappers

  /** One player's record as the rating lookup returns it. */
  datatype PlayerRecord = PlayerRecord(
    name: string,
    singles: Option<real>,          // `singlesUTR`
    doubles: Option<real>,          // `doublesUTR`
    singlesProgress: Option<real>,  // `singlesProgress`, the reliability percentage
    doublesProgress: Option<real>)  // `doublesProgress`

  /** The record of a player whose lookup failed: the queried name and no rating data. */
  function Placeholder(name: string): PlayerRecord {
    PlayerRecord(name, None, None, None, None)
  }

  /** The two kinds of rating, each averaged on its own. */
  datatype Kind = Singles | Doubles

  function RatingOf(p: PlayerRecord, kind: Kind): Option<real> {
    match kind
    case Singles => p.singles
    case Doubles => p.doubles
  }

  function ProgressOf(p: PlayerRecord, kind: Kind): Option<real> {
    match kind
    case Singles => p.singlesProgress
    case Doubles => p.doublesProgress
  }

  /** `rating > 0 && progress >= 100`, which is false for an absent rating or progress. */
  predicate Reliable(p: PlayerRecord, kind: Kind) {
    && RatingOf(p, kind).Some? && RatingOf(p, kind).value > 0.0
    && ProgressOf(p, kind).Some? && ProgressOf(p, kind).value >= 100.0
  }

  /** The ratings of the reliable records, in roster order (the `filter` and `map`). */
  function Contributions(roster: seq<PlayerRecord>, kind: Kind): (xs: seq<real>)
    ensures |xs| <= |roster|
    ensures forall i :: 0 <= i < |xs| ==> xs[i] > 0.0
    decreases |roster|
  {
    if roster == [] then []
    else
      (if Reliable(roster[0], kind) then [RatingOf(roster[0], kind).value] else [])
      + Contributions(roster[1..], kind)
  }

  /** A value contributes exactly when it is the rating of some reliable record. */
  lemma {:induction false} ContributionsExact(roster: seq<PlayerRecord>, kind: Kind, x: real)
    ensures x in Contributions(roster, kind) <==>
      exists i :: 0 <= i < |roster| && Reliable(roster[i], kind) && RatingOf(roster[i], kind) == Some(x)
    decreases |roster|
  {
    if roster != [] {
      ContributionsExact(roster[1..], kind, x);
      if exists i :: 0 < i < |roster| && Reliable(roster[i], kind) && RatingOf(roster[i], kind) == Some(x) {
        var i :| 0 < i < |roster| && Reliable(roster[i], kind) && RatingOf(roster[i], kind) == Some(x);
        assert roster[1..][i - 1] == roster[i];
      }
      if exists i :: 0 <= i < |roster| - 1 && Reliable(roster[1..][i], kind) && RatingOf(roster[1..][i], kind) == Some(x) {
        var i :| 0 <= i < |roster| - 1 && Reliable(roster[1..][i], kind) && RatingOf(roster[1..][i], kind) == Some(x);
        assert roster[i + 1] == roster[1..][i];
      }
    }
  }

  lemma {:induction false} ContributionsAppend(a: seq<PlayerRecord>, b: seq<PlayerRecord>, kind: Kind)
    ensures Contributions(a + b, kind) == Contributions(a, kind) + Contributions(b, kind)
    decreases |a|
  {
    if a == [] {
      assert a + b == b;
    } else {
      assert (a + b)[1..] == a[1..] + b;
      ContributionsAppend(a[1..], b, kind);
    }
  }

  /** `reduce((a, b) => a + b, 0)`: a left fold. */
  function Sum(xs: seq<real>): real
    decreases |xs|
  {
    if xs == [] then 0.0 else Sum(xs[..|xs| - 1]) + xs[|xs| - 1]
  }

  lemma {:induction false} SumAppend(a: seq<real>, b: seq<real>)
    ensures Sum(a + b) == Sum(a) + Sum(b)
    decreases |b|
  {
    if b == [] {
      assert a + b == a;
    } else {
      assert (a + b)[..|a + b| - 1] == a + b[..|b| - 1];
      SumAppend(a, b[..|b| - 1]);
    }
  }

  /** All elements strictly above `m`: the sum is strictly above `|xs| * m`. */
  lemma {:induction false} SumAbove(xs: seq<real>, m: real)
    requires xs != []
    requires forall i :: 0 <= i < |xs| ==> xs[i] > m
    ensures Sum(xs) > (|xs| as real) * m
    decreases |xs|
  {
    var init := xs[..|xs| - 1];
    if init != [] {
      SumAbove(init, m);
      assert (|xs| as real) * m == (|init| as real) * m + m;
    }
  }

  /** All elements strictly below `m`: the sum is strictly below `|xs| * m`. */
  lemma {:induction false} SumBelow(xs: seq<real>, m: real)
    requires xs != []
    requires forall i :: 0 <= i < |xs| ==> xs[i] < m
    ensures Sum(xs) < (|xs| as real) * m
    decreases |xs|
  {
    var init := xs[..|xs| - 1];
    if init != [] {
      SumBelow(init, m);
      assert (|xs| as real) * m == (|init| as real) * m + m;
    }
  }

  /** The arithmetic mean; absent for no values. */
  function Mean(xs: seq<real>): (m: Option<real>)
    ensures m.None? <==> xs == []
    ensures m.Some? ==> m.value * (|xs| as real) == Sum(xs)
  {
    if xs == [] then None else Some(Sum(xs) / (|xs| as real))
  }

  /** The mean lies between the smallest and the largest value. */
  lemma MeanBetween(xs: seq<real>)
    requires xs != []
    ensures exists i :: 0 <= i < |xs| && xs[i] <= Mean(xs).value
    ensures exists j :: 0 <= j < |xs| && xs[j] >= Mean(xs).value
  {
    var m := Mean(xs).value;
    if forall i :: 0 <= i < |xs| ==> xs[i] > m {
      SumAbove(xs, m);
    }
    if forall j :: 0 <= j < |xs| ==> xs[j] < m {
      SumBelow(xs, m);
    }
  }

  /** There is nothing to average exactly when no record is reliable. */
  lemma {:induction false} ContributionsEmptyIff(roster: seq<PlayerRecord>, kind: Kind)
    ensures Contributions(roster, kind) == [] <==> forall i :: 0 <= i < |roster| ==> !Reliable(roster[i], kind)
    decreases |roster|
  {
    if roster != [] {
      ContributionsEmptyIff(roster[1..], kind);
      assert forall i :: 1 <= i < |roster| ==> roster[i] == roster[1..][i - 1];
    }
  }

  /** A team average: the mean of the reliable ratings, absent exactly when there are none. */
  function TeamAverage(roster: seq<PlayerRecord>, kind: Kind): (avg: Option<real>)
    ensures avg.None? <==> forall i :: 0 <= i < |roster| ==> !Reliable(roster[i], kind)
  {
    ContributionsEmptyIff(roster, kind);
    Mean(Contributions(roster, kind))
  }

  /**
   * A present average is positive and lies between the smallest and the
   * largest reliable rating of the team.
   */
  lemma TeamAverageBounds(roster: seq<PlayerRecord>, kind: Kind)
    ensures TeamAverage(roster, kind).Some? ==>
      && TeamAverage(roster, kind).value > 0.0
      && (exists i :: 0 <= i < |roster| && Reliable(roster[i], kind)
                      && RatingOf(roster[i], kind).value <= TeamAverage(roster, kind).value)
      && (exists j :: 0 <= j < |roster| && Reliable(roster[j], kind)
                      && RatingOf(roster[j], kind).value >= TeamAverage(roster, kind).value)
  {
    var xs := Contributions(roster, kind);
    if xs != [] {
      MeanBetween(xs);
      var m := Mean(xs).value;
      var i :| 0 <= i < |xs| && xs[i] <= m;
      var j :| 0 <= j < |xs| && xs[j] >= m;
      ContributionsExact(roster, kind, xs[i]);
      ContributionsExact(roster, kind, xs[j]);
    }
  }

  /** Removing the first element of `r1` and an equal element of its permutation `r2` leaves permutations. */
  lemma RemoveMatching(r1: seq<PlayerRecord>, r2: seq<PlayerRecord>, j: nat)
    requires multiset(r1) == multiset(r2)
    requires r1 != [] && j < |r2| && r2[j] == r1[0]
    ensures multiset(r2[..j] + r2[j + 1..]) == multiset(r1[1..])
  {
    var x, rest := r1[0], r2[..j] + r2[j + 1..];
    assert r2 == r2[..j] + [x] + r2[j + 1..];
    assert r1 == [x] + r1[1..];
    assert multiset(rest) + multiset{x} == multiset(r2);
    assert multiset(r1[1..]) + multiset{x} == multiset(r1);
    forall y ensures multiset(rest)[y] == multiset(r1[1..])[y] {
      assert (multiset(rest) + multiset{x})[y] == (multiset(r1[1..]) + multiset{x})[y];
    }
  }

  /** The contributions of `before + [x] + after` against those of `[x] + before + after`. */
  lemma ContributionsMoveFront(before: seq<PlayerRecord>, x: PlayerRecord, after: seq<PlayerRecord>, kind: Kind)
    ensures |Contributions(before + ([x] + after), kind)| == |Contributions([x], kind)| + |Contributions(before + after, kind)|
    ensures Sum(Contributions(before + ([x] + after), kind)) == Sum(Contributions([x], kind)) + Sum(Contributions(before + after, kind))
  {
    var cb, cx, ca := Contributions(before, kind), Contributions([x], kind), Contributions(after, kind);
    ContributionsAppend(before, [x] + after, kind);
    ContributionsAppend([x], after, kind);
    ContributionsAppend(before, after, kind);
    SumAppend(cb, ca);
    SumAppend(cb, cx + ca);
    SumAppend(cx, ca);
  }

  /** Moving the first record of `r1` to position `|before|` keeps the count and the sum. */
  lemma PermutationStep(r1: seq<PlayerRecord>, before: seq<PlayerRecord>, after: seq<PlayerRecord>, kind: Kind)
    requires r1 != []
    requires |Contributions(r1[1..], kind)| == |Contributions(before + after, kind)|
    requires Sum(Contributions(r1[1..], kind)) == Sum(Contributions(before + after, kind))
    ensures |Contributions(r1, kind)| == |Contributions(before + ([r1[0]] + after), kind)|
    ensures Sum(Contributions(r1, kind)) == Sum(Contributions(before + ([r1[0]] + after), kind))
  {
    var x := r1[0];
    assert r1 == [x] + r1[1..];
    ContributionsAppend([x], r1[1..], kind);
    SumAppend(Contributions([x], kind), Contributions(r1[1..], kind));
    ContributionsMoveFront(before, x, after, kind);
  }

  /** Reordering the roster changes neither the number nor the sum of the contributions. */
  lemma {:induction false} ContributionsPermutation(r1: seq<PlayerRecord>, r2: seq<PlayerRecord>, kind: Kind)
    requires multiset(r1) == multiset(r2)
    ensures |Contributions(r1, kind)| == |Contributions(r2, kind)|
    ensures Sum(Contributions(r1, kind)) == Sum(Contributions(r2, kind))
    decreases |r1|
  {
    if r1 == [] {
      assert |multiset(r2)| == 0;
    } else {
      assert r1[0] in multiset(r2);
      var j :| 0 <= j < |r2| && r2[j] == r1[0];
      var before, after := r2[..j], r2[j + 1..];
      assert r2 == before + ([r1[0]] + after);
      RemoveMatching(r1, r2, j);
      ContributionsPermutation(r1[1..], before + after, kind);
      PermutationStep(r1, before, after, kind);
    }
  }

  /** A team average does not depend on the order of the roster. */
  lemma TeamAveragePermutation(r1: seq<PlayerRecord>, r2: seq<PlayerRecord>, kind: Kind)
    requires multiset(r1) == multiset(r2)
    ensures TeamAverage(r1, kind) == TeamAverage(r2, kind)
  {
    ContributionsPermutation(r1, r2, kind);
  }

  /** The two averages of one team. */
  datatype Summary = Summary(singles: Option<real>, doubles: Option<real>)

  /** Both averages of a roster, each over its own kind of rating. */
  function Summarize(roster: seq<PlayerRecord>): Summary {
    Summary(TeamAverage(roster, Singles), TeamAverage(roster, Doubles))
  }

  /** Only the fully reliable singles rating counts; no doubles rating gives no doubles average. */
  lemma SummarizeExample()
    ensures Summarize([
      PlayerRecord("a", Some(10.0), None, Some(100.0), None),
      PlayerRecord("b", Some(8.0), None, Some(90.0), None),
      Placeholder("c")]) == Summary(Some(10.0), None)
  {
    var roster := [
      PlayerRecord("a", Some(10.0), None, Some(100.0), None),
      PlayerRecord("b", Some(8.0), None, Some(90.0), None),
      Placeholder("c")];
    assert roster[1..] == [roster[1], roster[2]];
    assert roster[1..][1..] == [roster[2]];
    assert Contributions(roster, Singles) == [10.0];
  }
}
