/**
 * The display helpers of the older root package: the same map formatter as the internal
 * utils package, and an older connectivity-error classifier with three patterns and no
 * guard for a nil slice.
 */
module RootUtils {

  import opened Wrappers
  import opened Text
  import Utils

  /** The older pattern list: "Bad Request" is not among them. */
  const ListOfErrors: seq<string> :=
    ["i/o timeout", "context deadline exceeded", "connection refused"]

  lemma ContainsAnyListOfErrors(s: string)
    ensures Utils.ContainsAny(s, ListOfErrors) <==>
      || IsSubstring("i/o timeout", s)
      || IsSubstring("context deadline exceeded", s)
      || IsSubstring("connection refused", s)
  {
    assert ListOfErrors[0] == "i/o timeout";
    assert ListOfErrors[1] == "context deadline exceeded";
    assert ListOfErrors[2] == "connection refused";
  }

  /**
   * Classifies the first element of a listing result; the slice must not be empty, because
   * the source reads slice[0] unconditionally.
   */
  function CheckForError(slice: seq<string>): (r: (string, bool))
    requires |slice| > 0
    ensures r.1 <==> || IsSubstring("i/o timeout", slice[0])
                     || IsSubstring("context deadline exceeded", slice[0])
                     || IsSubstring("connection refused", slice[0])
    ensures r.1 ==> r.0 == "Error: " + slice[0] + " (validate cluster access and restart)"
    ensures !r.1 ==> r.0 == ""
  {
    var checkValue := slice[0];
    ContainsAnyListOfErrors(checkValue);
    if Utils.ContainsAny(checkValue, ListOfErrors)
    then (Utils.ClusterAccessWarning(checkValue), true)
    else ("", false)
  }

  /** Only the first element decides: later elements are never inspected. */
  lemma CheckForErrorFirstOnly(slice: seq<string>, rest: seq<string>)
    requires |slice| > 0
    ensures CheckForError(slice + rest) == CheckForError([slice[0]])
  {
    assert (slice + rest)[0] == slice[0];
  }

  /** "Bad Request" passes the older classifier but is caught by the newer one. */
  lemma BadRequestOnlyInNewerClassifier()
    ensures CheckForError(["Bad Request"]) == ("", false)
    ensures Utils.CheckForError(Some(["Bad Request"])).1
  {
    NotSubstringByFirstChar("i/o timeout", "Bad Request");
    NotSubstringByFirstChar("context deadline exceeded", "Bad Request");
    NotSubstringByFirstChar("connection refused", "Bad Request");
    Utils.SubstringOfItself("Bad Request");
  }
}
