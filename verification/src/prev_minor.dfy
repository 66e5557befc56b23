/**
 * The stable rule the Python, Ruby and Go fetchers share
 * (`_get_stability_criteria` in version/fetchers/python.py, ruby.py, go.py):
 * latest is the first release; stable is the first release, in list order,
 * with latest's major version and the minor version just below latest's.
 */
module PrevMinor {
  import opened Wrappers
  import opened Text
  import opened Utils

  /** `r.version` matches digits.digits.digits with major `major` and minor `minor - 1`. */
  predicate IsPrevMinor(r: ReleaseInfo, major: int, minor: int)
  {
    match MatchTriple(r.version)
    case None => false
    case Some((a, b, _)) => a == major && b == minor - 1
  }

  /** The index of the first release, from index `from` on, that `IsPrevMinor` accepts. */
  function FirstPrevMinor(releases: seq<ReleaseInfo>, major: int, minor: int, from: nat := 0): (r: Option<nat>)
    requires from <= |releases|
    ensures r.Some? ==> from <= r.value < |releases| && IsPrevMinor(releases[r.value], major, minor)
    ensures r.Some? ==> forall j :: from <= j < r.value ==> !IsPrevMinor(releases[j], major, minor)
    ensures r.None? ==> forall j :: from <= j < |releases| ==> !IsPrevMinor(releases[j], major, minor)
    decreases |releases| - from
  {
    if from == |releases| then None
    else if IsPrevMinor(releases[from], major, minor) then Some(from)
    else FirstPrevMinor(releases, major, minor, from + 1)
  }

  /** `_get_stability_criteria`; `Err` is the ValueError raised for no releases. */
  function Criteria(releases: seq<ReleaseInfo>): (r: Result<(ReleaseInfo, ReleaseInfo)>)
    ensures r.Err? <==> releases == []
    ensures r.Err? ==> r.msg == "No releases available"
    ensures r.Ok? ==> r.value.0 == releases[0]
    ensures r.Ok? ==> r.value.1 in releases
  {
    if releases == [] then Err("No releases available")
    else
      var latest := releases[0];
      match MatchTriple(latest.version)
      case None => Ok((latest, latest))
      case Some((major, minor, _)) =>
        match FirstPrevMinor(releases, major, minor)
        case Some(k) => Ok((latest, releases[k]))
        case None => Ok((latest, latest))
  }

  /** When a release of latest's major and previous minor exists, the first one is stable. */
  lemma StableIsFirstPrevMinor(releases: seq<ReleaseInfo>, major: nat, minor: nat, patch: nat, k: nat)
    requires releases != [] && MatchTriple(releases[0].version) == Some((major, minor, patch))
    requires k < |releases| && IsPrevMinor(releases[k], major, minor)
    requires forall j :: 0 <= j < k ==> !IsPrevMinor(releases[j], major, minor)
    ensures Criteria(releases) == Ok((releases[0], releases[k]))
  {
    var f := FirstPrevMinor(releases, major, minor);
    assert f.Some?;
    assert !(f.value < k);
    assert !(k < f.value);
  }

  /**
   * Stable falls back to latest when latest does not begin with
   * digits.digits.digits, or no release has its major and previous minor.
   */
  lemma StableFallsBack(releases: seq<ReleaseInfo>)
    requires releases != []
    requires match MatchTriple(releases[0].version)
             case None => true
             case Some((major, minor, _)) =>
               forall j :: 0 <= j < |releases| ==> !IsPrevMinor(releases[j], major, minor)
    ensures Criteria(releases) == Ok((releases[0], releases[0]))
  {
  }
}
