/**
 * The string primitives the lookup logic relies on: ASCII lower-casing,
 * `String.prototype.split` with a non-empty separator, and
 * `String.prototype.includes`.
 */
module Strings {

  /** The ASCII lower-case of one character; every other character is kept. */
  function LowerChar(c: char): (d: char)
    ensures 'A' <= c <= 'Z' ==> d as int == c as int + 32
    ensures !('A' <= c <= 'Z') ==> d == c
    ensures !('A' <= d <= 'Z')
  {
    if 'A' <= c <= 'Z' then (c as int + 32) as char else c
  }

  /** `toLowerCase`, restricted to the ASCII letters. */
  function ToLower(s: string): (r: string)
    ensures |r| == |s|
    ensures forall i :: 0 <= i < |s| ==> r[i] == LowerChar(s[i])
  {
    if s == [] then [] else [LowerChar(s[0])] + ToLower(s[1..])
  }

  /** `hay.includes(needle)`: some position of `hay` starts a copy of `needle`. */
  function Contains(hay: string, needle: string): bool
    decreases |hay|
  {
    if needle <= hay then true
    else if hay == [] then false
    else Contains(hay[1..], needle)
  }

  /** `needle` occurs in `hay` at position `i`. */
  ghost predicate OccursAt(hay: string, needle: string, i: int) {
    0 <= i && i + |needle| <= |hay| && hay[i..i + |needle|] == needle
  }

  /** `Contains` is exactly the existence of an occurrence. */
  lemma {:induction false} ContainsIff(hay: string, needle: string)
    ensures Contains(hay, needle) <==> exists i :: OccursAt(hay, needle, i)
    decreases |hay|
  {
    if needle <= hay {
      assert OccursAt(hay, needle, 0);
    } else if hay == [] {
      assert needle != [];
    } else {
      ContainsIff(hay[1..], needle);
      if Contains(hay[1..], needle) {
        var j :| OccursAt(hay[1..], needle, j);
        assert hay[1..][j..j + |needle|] == hay[j + 1..j + 1 + |needle|];
        assert OccursAt(hay, needle, j + 1);
      } else {
        forall i ensures !OccursAt(hay, needle, i) {
          if i == 0 && |needle| <= |hay| {
            assert hay[0..|needle|] == hay[..|needle|];
          } else if 1 <= i && i + |needle| <= |hay| {
            assert hay[1..][i - 1..i - 1 + |needle|] == hay[i..i + |needle|];
            assert !OccursAt(hay[1..], needle, i - 1);
          }
        }
      }
    }
  }

  /**
   * `s.split(sep)` for a non-empty separator: scanning left to right, every
   * occurrence of `sep` ends one piece and starts the next, and the
   * separators themselves are dropped.
   */
  function Split(s: string, sep: string): (parts: seq<string>)
    requires sep != []
    ensures |parts| >= 1
    ensures parts[0] <= s
    decreases |s|
  {
    if |s| < |sep| then [s]
    else if sep <= s then [""] + Split(s[|sep|..], sep)
    else
      var rest := Split(s[1..], sep);
      [[s[0]] + rest[0]] + rest[1..]
  }

  /** `parts.join(sep)`. */
  function Join(parts: seq<string>, sep: string): string
    decreases |parts|
  {
    if parts == [] then ""
    else if |parts| == 1 then parts[0]
    else parts[0] + sep + Join(parts[1..], sep)
  }

  /** No piece of `parts` contains `sep`. */
  ghost predicate SeparatorFree(parts: seq<string>, sep: string) {
    forall k :: 0 <= k < |parts| ==> !Contains(parts[k], sep)
  }

  /** No proper suffix of `sep` is also a prefix of it, so occurrences of `sep` never overlap. */
  ghost predicate BorderFree(sep: string) {
    forall k :: 0 < k < |sep| ==> sep[k..] != sep[..|sep| - k]
  }

  lemma ContainsUnfold(c: char, t: string, needle: string)
    ensures Contains([c] + t, needle) <==> needle <= [c] + t || Contains(t, needle)
  {
    assert ([c] + t)[1..] == t;
  }

  lemma JoinCons(p: string, rest: seq<string>, sep: string)
    requires rest != []
    ensures Join([p] + rest, sep) == p + sep + Join(rest, sep)
  {
    assert ([p] + rest)[1..] == rest;
  }

  /** Gluing a character onto the first piece glues it onto the joined string. */
  lemma JoinGlue(c: char, rest: seq<string>, sep: string)
    requires rest != []
    ensures Join([[c] + rest[0]] + rest[1..], sep) == [c] + Join(rest, sep)
  {
    if |rest| > 1 {
      assert rest == [rest[0]] + rest[1..];
      JoinCons(rest[0], rest[1..], sep);
      JoinCons([c] + rest[0], rest[1..], sep);
    }
  }

  /** Joining the pieces of a split gives back the original string. */
  lemma {:induction false} JoinSplit(s: string, sep: string)
    requires sep != []
    ensures Join(Split(s, sep), sep) == s
    decreases |s|
  {
    if |s| < |sep| {
    } else if sep <= s {
      var tail := s[|sep|..];
      var rest := Split(tail, sep);
      assert Split(s, sep) == [""] + rest;
      JoinSplit(tail, sep);
      JoinCons("", rest, sep);
      assert Join([""] + rest, sep) == sep + tail;
      assert sep + tail == s;
    } else {
      var tail := s[1..];
      var rest := Split(tail, sep);
      assert Split(s, sep) == [[s[0]] + rest[0]] + rest[1..];
      JoinSplit(tail, sep);
      JoinGlue(s[0], rest, sep);
      assert [s[0]] + tail == s;
    }
  }

  /** No piece produced by a split contains the separator. */
  lemma {:induction false} SplitPiecesFree(s: string, sep: string)
    requires sep != []
    ensures SeparatorFree(Split(s, sep), sep)
    decreases |s|
  {
    var parts := Split(s, sep);
    if |s| < |sep| {
      ContainsIff(s, sep);
    } else if sep <= s {
      var rest := Split(s[|sep|..], sep);
      SplitPiecesFree(s[|sep|..], sep);
      assert parts == [""] + rest;
      assert !Contains("", sep);
      forall k | 0 < k < |parts| ensures !Contains(parts[k], sep) {
        assert parts[k] == rest[k - 1];
      }
    } else {
      var rest := Split(s[1..], sep);
      SplitPiecesFree(s[1..], sep);
      assert parts == [[s[0]] + rest[0]] + rest[1..];
      ContainsUnfold(s[0], rest[0], sep);
      assert [s[0]] + rest[0] <= s by {
        assert s == [s[0]] + s[1..];
      }
      assert !(sep <= [s[0]] + rest[0]);
      forall k | 0 < k < |parts| ensures !Contains(parts[k], sep) {
        assert parts[k] == rest[k];
      }
    }
  }

  /** A string without the separator splits into itself alone. */
  lemma {:induction false} SplitWhole(c: string, sep: string)
    requires sep != []
    requires !Contains(c, sep)
    ensures Split(c, sep) == [c]
    decreases |c|
  {
    if |c| < |sep| {
    } else {
      assert c != [];
      ContainsUnfold(c[0], c[1..], sep);
      assert c == [c[0]] + c[1..];
      SplitWhole(c[1..], sep);
    }
  }

  /** A non-empty separator-free string followed by the separator does not start with the separator. */
  lemma NoSeparatorAtStart(c: string, t: string, sep: string)
    requires sep != [] && BorderFree(sep)
    requires c != [] && !Contains(c, sep)
    ensures !(sep <= c + sep + t)
  {
    var s := c + sep + t;
    if |c| >= |sep| {
      assert s[..|sep|] == c[..|sep|];
      assert !(sep <= c);
    } else {
      var k := |c|;
      assert sep[k..] != sep[..|sep| - k];
      assert s[..|sep|][k..] == sep[..|sep| - k];
    }
  }

  /** A separator-free first piece is split off exactly at the first separator. */
  lemma {:induction false} SplitFirst(c: string, t: string, sep: string)
    requires sep != [] && BorderFree(sep)
    requires !Contains(c, sep)
    ensures Split(c + sep + t, sep) == [c] + Split(t, sep)
    decreases |c|
  {
    var s := c + sep + t;
    if c == [] {
      assert s == sep + t;
      assert s[|sep|..] == t;
    } else {
      ContainsUnfold(c[0], c[1..], sep);
      NoSeparatorAtStart(c, t, sep);
      assert s[1..] == c[1..] + sep + t;
      SplitFirst(c[1..], t, sep);
      var rest := Split(s[1..], sep);
      assert rest == [c[1..]] + Split(t, sep);
      assert Split(s, sep) == [[s[0]] + rest[0]] + rest[1..];
      assert [s[0]] + rest[0] == c;
      assert rest[1..] == Split(t, sep);
    }
  }

  /** Splitting is the inverse of joining separator-free pieces. */
  lemma {:induction false} SplitJoin(parts: seq<string>, sep: string)
    requires sep != [] && BorderFree(sep)
    requires |parts| >= 1 && SeparatorFree(parts, sep)
    ensures Split(Join(parts, sep), sep) == parts
    decreases |parts|
  {
    if |parts| == 1 {
      SplitWhole(parts[0], sep);
    } else {
      assert SeparatorFree(parts[1..], sep) by {
        forall k | 0 <= k < |parts| - 1 ensures !Contains(parts[1..][k], sep) {
          assert parts[1..][k] == parts[k + 1];
        }
      }
      SplitJoin(parts[1..], sep);
      SplitFirst(parts[0], Join(parts[1..], sep), sep);
      assert parts == [parts[0]] + parts[1..];
    }
  }
}
