/**
 * version/version_fetcher.py: the output the legacy fetchers' results are
 * reduced to, and the aggregate of all five. The five fetch functions are
 * inputs: each one's outcome is given.
 */
module VersionFetcher {
  import opened Wrappers
  import opened Json
  import opened Text
  import opened Legacy

  /** `VersionType` */
  datatype VersionType = LatestType | StableType | BothType

  /** What a legacy fetch function did: raised (message, exception type name), or returned. */
  datatype LegacyOutcome = LegacyRaised(msg: string, errorType: string) | LegacyReturned(info: LegacyInfo)

  /** `vars(info)` */
  function Vars(info: LegacyInfo): (m: map<string, Json>)
    ensures m.Keys == {"latest", "stable", "details"}
  {
    map["latest" := OptStr(info.latest), "stable" := OptStr(info.stable), "details" := JObj(info.details)]
  }

  /** `get_version_output`; `JNull` stands for `None`. */
  function VersionOutput(info: map<string, Json>, versionType: VersionType): (r: Json)
    ensures info == map[] ==> r == JNull
    ensures info != map[] && versionType == LatestType ==> r == Get(info, "latest")
    ensures info != map[] && versionType == StableType ==> r == Get(info, "stable")
    ensures versionType == BothType && r != JNull ==>
      && r.JArr? && 1 <= |r.items| <= 2
      && NoDup(r.items)
      && (forall i :: 0 <= i < |r.items| ==> Truthy(r.items[i]))
      && (Truthy(Get(info, "latest")) ==> r.items[0] == Get(info, "latest"))
    ensures versionType == BothType && info != map[] ==>
      (r == JNull <==> !Truthy(Get(info, "latest")) && !Truthy(Get(info, "stable")))
  {
    if info == map[] then JNull
    else
      var latest := Get(info, "latest");
      var stable := Get(info, "stable");
      match versionType
      case LatestType => latest
      case StableType => stable
      case BothType =>
        var withLatest := if Truthy(latest) then [latest] else [];
        var versions := if Truthy(stable) && stable != latest then withLatest + [stable] else withLatest;
        if versions == [] then JNull else JArr(versions)
  }

  /** For `BOTH`, the stable version is listed exactly when it is set and differs from the latest. */
  lemma BothListsStable(info: map<string, Json>)
    requires info != map[] && Truthy(Get(info, "stable"))
    ensures var r := VersionOutput(info, BothType);
      r.JArr? && (Get(info, "stable") in r.items)
      && (|r.items| == 2 <==> Truthy(Get(info, "latest")) && Get(info, "stable") != Get(info, "latest"))
  {
  }

  /** The languages `fetch_all_versions` asks, in its order. */
  const Languages: seq<string> := ["python", "ruby", "nodejs", "go", "rust"]

  /** The five language names differ from each other. */
  lemma LanguagesDistinct()
    ensures |Languages| == 5
    ensures Languages[0] == "python" && Languages[1] == "ruby" && Languages[2] == "nodejs"
    ensures Languages[3] == "go" && Languages[4] == "rust"
    ensures forall i, j :: 0 <= i < j < |Languages| ==> Languages[i] != Languages[j]
  {
    assert "python"[0] != "nodejs"[0];
    assert "ruby"[2] != "rust"[2];
  }

  /** The index of the first outcome that raised, if any. */
  function FirstRaised(outcomes: seq<LegacyOutcome>): (r: Option<nat>)
    ensures r.Some? ==> r.value < |outcomes| && outcomes[r.value].LegacyRaised? &&
                        forall i :: 0 <= i < r.value ==> outcomes[i].LegacyReturned?
    ensures r.None? ==> forall i :: 0 <= i < |outcomes| ==> outcomes[i].LegacyReturned?
  {
    if outcomes == [] then None
    else if outcomes[0].LegacyRaised? then Some(0)
    else match FirstRaised(outcomes[1..])
      case None => None
      case Some(k) => Some(k + 1)
  }

  /**
   * `fetch_all_versions`; `outcomes` are the five fetch functions' in the
   * order of `Languages`. The first that raises ends it with only the
   * error and its type; otherwise every language whose output is not
   * `None` is listed, and every language's details (never `None`).
   */
  function FetchAllVersions(versionType: VersionType, outcomes: seq<LegacyOutcome>): (r: Doc)
    requires |outcomes| == |Languages|
    ensures FirstRaised(outcomes).Some? ==>
      var e := outcomes[FirstRaised(outcomes).value];
      r == map["error" := JStr(e.msg), "error_type" := JStr(e.errorType)]
    ensures FirstRaised(outcomes).None? ==>
      && r.Keys == {"versions", "details"}
      && r["versions"].JObj? && r["details"].JObj?
      && (forall i :: 0 <= i < |Languages| ==>
            var out := VersionOutput(Vars(outcomes[i].info), versionType);
            && (Languages[i] in r["versions"].fields <==> out != JNull)
            && (out != JNull ==> r["versions"].fields[Languages[i]] == out)
            && Languages[i] in r["details"].fields
            && r["details"].fields[Languages[i]] == JObj(outcomes[i].info.details))
      && (forall l :: l in r["versions"].fields || l in r["details"].fields ==> l in Languages)
  {
    match FirstRaised(outcomes)
    case Some(i) =>
      map["error" := JStr(outcomes[i].msg), "error_type" := JStr(outcomes[i].errorType)]
    case None =>
      Aggregate(Outputs(OutputList(versionType, outcomes)), Details(outcomes))
  }

  /** The successful result: the outputs under "versions", the details under "details". */
  function Aggregate(versions: map<string, Json>, details: map<string, Json>): (r: Doc)
    ensures r.Keys == {"versions", "details"}
    ensures r["versions"] == JObj(versions) && r["details"] == JObj(details)
  {
    map["versions" := JObj(versions), "details" := JObj(details)]
  }

  /** Each fetcher's output, in the order of `Languages`. */
  function OutputList(versionType: VersionType, outcomes: seq<LegacyOutcome>): (outs: seq<Json>)
    requires |outcomes| == |Languages| && FirstRaised(outcomes).None?
    ensures |outs| == |Languages|
    ensures forall i :: 0 <= i < |Languages| ==> outs[i] == VersionOutput(Vars(outcomes[i].info), versionType)
  {
    seq(|Languages|, i requires 0 <= i < |Languages| => VersionOutput(Vars(outcomes[i].info), versionType))
  }

  /** Each language's output, `None` included, as the dict literal builds it. */
  function AllOutputs(outs: seq<Json>): (m: map<string, Json>)
    requires |outs| == |Languages|
    ensures m.Keys == set l | l in Languages
    ensures forall i :: 0 <= i < |Languages| ==> m[Languages[i]] == outs[i]
  {
    LanguagesDistinct();
    map i | 0 <= i < |Languages| :: Languages[i] := outs[i]
  }

  /** The languages whose fetcher returned an output other than `None`, with that output. */
  function Outputs(outs: seq<Json>): (m: map<string, Json>)
    requires |outs| == |Languages|
    ensures forall i :: 0 <= i < |Languages| ==>
              (Languages[i] in m <==> outs[i] != JNull) && (outs[i] != JNull ==> m[Languages[i]] == outs[i])
    ensures forall l :: l in m ==> l in Languages
  {
    var all := AllOutputs(outs);
    map l | l in all && all[l] != JNull :: all[l]
  }

  /** Every language's details; a `VersionInfo` always has them, so none is dropped. */
  function Details(outcomes: seq<LegacyOutcome>): (m: map<string, Json>)
    requires |outcomes| == |Languages| && FirstRaised(outcomes).None?
    ensures forall i :: 0 <= i < |Languages| ==> Languages[i] in m && m[Languages[i]] == JObj(outcomes[i].info.details)
    ensures forall l :: l in m ==> l in Languages
  {
    map["python" := JObj(outcomes[0].info.details),
        "ruby" := JObj(outcomes[1].info.details),
        "nodejs" := JObj(outcomes[2].info.details),
        "go" := JObj(outcomes[3].info.details),
        "rust" := JObj(outcomes[4].info.details)]
  }

  /** With `STABLE`, the listed languages are those whose fetcher found a stable version. */
  lemma StableListsFound(outcomes: seq<LegacyOutcome>, i: nat)
    requires |outcomes| == |Languages| && FirstRaised(outcomes).None? && i < |Languages|
    ensures var r := FetchAllVersions(StableType, outcomes);
      && (Languages[i] in r["versions"].fields <==> outcomes[i].info.stable.Some?)
      && (outcomes[i].info.stable.Some? ==>
            r["versions"].fields[Languages[i]] == JStr(outcomes[i].info.stable.value))
  {
    StableOutput(outcomes[i].info);
    var r := FetchAllVersions(StableType, outcomes);
    assert Languages[i] in r["versions"].fields <==> OptStr(outcomes[i].info.stable) != JNull;
  }

  /** With `STABLE`, a fetcher's output is its stable version. */
  lemma StableOutput(info: LegacyInfo)
    ensures VersionOutput(Vars(info), StableType) == OptStr(info.stable)
  {
    var vars := Vars(info);
    assert "stable" in vars && vars["stable"] == OptStr(info.stable);
    assert vars != map[];
  }
}
