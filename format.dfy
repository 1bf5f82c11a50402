/** Rating formatting: one rating and its reliability percentage as display text. */
module Format {
  import opened Wrappers

  /** The marker shown for a missing rating. */
  const NotAvailable: string := "N/A"

  /** The parenthetical appended to a provisional rating. */
  function Annotation(progress: real, show: real -> string): string {
    " (" + show(progress) + "% reliable)"
  }

  /**
   * `formatUTR`: `"N/A"` for a missing rating; otherwise the rating's text,
   * followed by the reliability annotation exactly when the progress is
   * present and below 100. `show` is the number-to-text rendering.
   */
  function FormatRating(rating: Option<real>, progress: Option<real>, show: real -> string): (r: string)
    ensures rating.None? ==> r == NotAvailable
    ensures rating.Some? ==> show(rating.value) <= r
    ensures rating.Some? ==> (r == show(rating.value) <==> !(progress.Some? && progress.value < 100.0))
    ensures rating.Some? && progress.Some? && progress.value < 100.0 ==>
      r[|show(rating.value)|..] == Annotation(progress.value, show)
  {
    match rating
    case None => NotAvailable
    case Some(v) =>
      if progress.Some? && progress.value < 100.0 then show(v) + Annotation(progress.value, show)
      else show(v)
  }

  /** When no number renders as `"N/A"`, the output is `"N/A"` exactly for a missing rating. */
  lemma FormatNotAvailableIff(rating: Option<real>, progress: Option<real>, show: real -> string)
    requires forall x :: show(x) != NotAvailable
    ensures FormatRating(rating, progress, show) == NotAvailable <==> rating.None?
  {
    if rating.Some? && progress.Some? && progress.value < 100.0 {
      var r := FormatRating(rating, progress, show);
      assert |r| >= |Annotation(progress.value, show)| > |NotAvailable|;
    }
  }

  /** A fully reliable rating is shown bare; a provisional one shows its percentage. */
  lemma FormatExamples(show: real -> string)
    ensures FormatRating(Some(9.5), Some(100.0), show) == show(9.5)
    ensures FormatRating(Some(9.5), Some(85.0), show) == show(9.5) + " (" + show(85.0) + "% reliable)"
    ensures FormatRating(None, Some(85.0), show) == "N/A"
  {
  }
}
