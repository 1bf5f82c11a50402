/** Location parsing: a free-text `"City, ST"` display string to a lower-cased (city, state) pair. */
module Location {
  import opened Wrappers
  import opened Strings

  /** A parsed location; either part may be absent. */
  datatype Place = Place(city: Option<string>, state: Option<string>)

  /** The literal separator between the city and the state. */
  const Separator: string := ", "

  /** One piece of the display string: absent when empty (an empty string is falsy), else lower-cased. */
  function Piece(s: string): (r: Option<string>)
    ensures r.None? <==> s == ""
    ensures r.Some? ==> r.value == ToLower(s) && |r.value| == |s|
  {
    if s == "" then None else Some(ToLower(s))
  }

  /**
   * `parseLocation`: an absent or empty display string gives no city and no
   * state; otherwise the string is split at every `", "`, the first piece is
   * the city and the second the state, lower-cased, each absent when empty.
   * Any further piece is ignored.
   */
  function ParseLocation(display: Option<string>): (p: Place)
    ensures (display.None? || display == Some("")) ==> p == Place(None, None)
    ensures p.city.Some? ==> p.city.value != "" && forall i :: 0 <= i < |p.city.value| ==> !('A' <= p.city.value[i] <= 'Z')
    ensures p.state.Some? ==> p.state.value != "" && forall i :: 0 <= i < |p.state.value| ==> !('A' <= p.state.value[i] <= 'Z')
  {
    if display.None? || display.value == "" then Place(None, None)
    else PlaceOf(Split(display.value, Separator))
  }

  /** The place named by the pieces of a split display string: the first two pieces, any others ignored. */
  function PlaceOf(parts: seq<string>): Place
    requires |parts| >= 1
  {
    Place(Piece(parts[0]), if |parts| > 1 then Piece(parts[1]) else None)
  }

  lemma SeparatorBorderFree()
    ensures BorderFree(Separator)
  {
    assert Separator[1..] == " " && Separator[..1] == ",";
  }

  /**
   * A display string made of separator-free pieces joined by `", "` parses
   * to its first piece as the city and its second piece (if any) as the state.
   */
  lemma ParseLocationPieces(parts: seq<string>)
    requires |parts| >= 1 && SeparatorFree(parts, Separator)
    ensures ParseLocation(Some(Join(parts, Separator)))
         == Place(Piece(parts[0]), if |parts| > 1 then Piece(parts[1]) else None)
  {
    if |parts| > 1 {
      assert |Join(parts, Separator)| >= |Separator|;
    }
    if Join(parts, Separator) != "" {
      SeparatorBorderFree();
      SplitJoin(parts, Separator);
    }
  }

  /**
   * For every display string: the city is the lower-cased text up
   * to the first `", "` (or the whole string when there is none), and the
   * state is the lower-cased text between the first and the second `", "`.
   */
  lemma ParseLocationFirstSeparator(c: string, t: string)
    requires !Contains(c, Separator)
    ensures ParseLocation(Some(c)) == Place(Piece(c), None)
    ensures ParseLocation(Some(c + Separator + t)).city == Piece(c)
    ensures ParseLocation(Some(c + Separator + t)).state == Piece(Split(t, Separator)[0])
  {
    SeparatorBorderFree();
    SplitWhole(c, Separator);
    SplitFirst(c, t, Separator);
    assert c + Separator + t != "" by {
      assert |c + Separator + t| >= 2;
    }
  }

  /** A string without a comma contains no separator. */
  lemma NoCommaNoSeparator(s: string)
    requires forall i :: 0 <= i < |s| ==> s[i] != ','
    ensures !Contains(s, Separator)
  {
    ContainsIff(s, Separator);
    forall i ensures !OccursAt(s, Separator, i) {
      if 0 <= i && i + 2 <= |s| {
        assert s[i..i + 2][0] == s[i];
      }
    }
  }

  /** The lower-cased forms of the example strings, character by character. */
  lemma ExampleLowerCases()
    ensures ToLower("Houston") == "houston" && ToLower("TX") == "tx" && ToLower("Katy") == "katy"
  {
    var h, t, k := ToLower("Houston"), ToLower("TX"), ToLower("Katy");
    assert forall i :: 0 <= i < 7 ==> h[i] == "houston"[i];
    assert forall i :: 0 <= i < 2 ==> t[i] == "tx"[i];
    assert forall i :: 0 <= i < 4 ==> k[i] == "katy"[i];
  }

  /** `"Houston, TX"` parses to city `"houston"` and state `"tx"`. */
  lemma ParseLocationCityState()
    ensures ParseLocation(Some("Houston, TX")) == Place(Some("houston"), Some("tx"))
  {
    NoCommaNoSeparator("Houston");
    NoCommaNoSeparator("TX");
    JoinCons("Houston", ["TX"], Separator);
    assert ["Houston"] + ["TX"] == ["Houston", "TX"];
    assert "Houston" + Separator + "TX" == "Houston, TX";
    ParseLocationPieces(["Houston", "TX"]);
    ExampleLowerCases();
  }

  /** `"Houston"` parses to city `"houston"` and no state. */
  lemma ParseLocationCityOnly()
    ensures ParseLocation(Some("Houston")) == Place(Some("houston"), None)
  {
    NoCommaNoSeparator("Houston");
    assert Join(["Houston"], Separator) == "Houston";
    ParseLocationPieces(["Houston"]);
    ExampleLowerCases();
  }

  /** A third piece is ignored: `"Katy, TX, USA"` has city `"katy"` and state `"tx"`. */
  lemma ParseLocationThirdPiece()
    ensures ParseLocation(Some("Katy, TX, USA")) == Place(Some("katy"), Some("tx"))
  {
    NoCommaNoSeparator("Katy");
    NoCommaNoSeparator("TX");
    NoCommaNoSeparator("USA");
    JoinCons("TX", ["USA"], Separator);
    JoinCons("Katy", ["TX", "USA"], Separator);
    assert ["Katy"] + ["TX", "USA"] == ["Katy", "TX", "USA"];
    assert "Katy" + Separator + ("TX" + Separator + "USA") == "Katy, TX, USA";
    ParseLocationPieces(["Katy", "TX", "USA"]);
    ExampleLowerCases();
  }
}
