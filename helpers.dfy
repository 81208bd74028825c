/** Internet Archive link helpers (cinegram/utils/helpers.py). */
module Helpers {
  import opened Common
  import opened PyStrings

  const Marker: string := "archive.org/details/"

  /** `"archive.org/details/" in url` */
  function IsValidArchiveUrl(url: string): (r: bool)
    ensures r <==> exists i :: OccursAt(url, Marker, i)
  {
    ContainsIff(url, Marker);
    Contains(url, Marker)
  }

  /** Where the pattern `archive\.org/details/([^/]+)` matches: the marker followed by at
      least one character other than '/'. */
  predicate MatchAt(url: string, i: int) {
    OccursAt(url, Marker, i) && i + |Marker| < |url| && url[i + |Marker|] != '/'
  }

  /** Length of the leading run of characters other than '/' (the greedy `[^/]+`). */
  function SegmentLength(s: string): (n: nat)
    ensures n <= |s|
    ensures forall k :: 0 <= k < n ==> s[k] != '/'
    ensures n < |s| ==> s[n] == '/'
  {
    if s == [] || s[0] == '/' then 0 else 1 + SegmentLength(s[1..])
  }

  /** The leftmost match at or after `from`, as `re.search` scans. */
  function MatchFrom(url: string, from: nat): (r: Option<nat>)
    ensures r.Some? ==> from <= r.value && MatchAt(url, r.value)
    ensures forall j :: from <= j && (r.None? || j < r.value) ==> !MatchAt(url, j)
    decreases |url| - from
  {
    if from + |Marker| >= |url| then None
    else if MatchAt(url, from) then Some(from)
    else MatchFrom(url, from + 1)
  }

  /** `re.search(r"archive\.org/details/([^/]+)", url)`, group 1 or `None`. */
  function ExtractIdentifier(url: string): (r: Option<string>)
    ensures r.Some? <==> exists i :: MatchAt(url, i)
    ensures r.Some? ==> r.value != [] && '/' !in r.value
    ensures r.Some? ==> exists i ::
      MatchAt(url, i) && (forall j :: 0 <= j < i ==> !MatchAt(url, j))
      && OccursAt(url, Marker + r.value, i)
      && (i + |Marker| + |r.value| == |url| || url[i + |Marker| + |r.value|] == '/')
  {
    match MatchFrom(url, 0)
    case None => None
    case Some(i) =>
      var rest := url[i + |Marker|..];
      var id := rest[..SegmentLength(rest)];
      assert url[i..i + |Marker| + |id|] == Marker + id by {
        assert url[i..i + |Marker|] == Marker;
        assert url[i + |Marker|..i + |Marker| + |id|] == id;
      }
      Some(id)
  }

  /** A returned identifier lies behind the marker, so the URL passes the validity test. */
  lemma IdentifierImpliesValid(url: string)
    requires ExtractIdentifier(url).Some?
    ensures IsValidArchiveUrl(url)
    ensures Contains(url, Marker + ExtractIdentifier(url).value)
  {
    var id := ExtractIdentifier(url).value;
    var i :| MatchAt(url, i) && OccursAt(url, Marker + id, i);
    assert OccursAt(url, Marker, i);
    ContainsIff(url, Marker + id);
  }
}
