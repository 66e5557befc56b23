/**
 * The fetch pipeline every GitHub-backed fetcher shares
 * (version/core/base.py): paging through the tags API, keeping the tags a
 * language accepts, parsing them and choosing latest and stable.
 *
 * The language-specific parts are parameters: `isStable` is
 * `_is_stable_tag`, `parse` is `_parse_version_from_tag` (an `Err` is a
 * ParseError) and `criteria` is `_get_stability_criteria` (an `Err` is the
 * ValueError it raises). The HTTP answers are the sequence `pages`.
 */
module Base {
  import opened Wrappers
  import opened Text
  import opened Json
  import opened Utils
  import opened Seqs

  /** The fields of a GitHub tag object the fetchers read; a missing name is "". */
  datatype Tag = Tag(name: string, commitSha: Option<string>, tarballUrl: Option<string>,
                     zipballUrl: Option<string>)

  /** The answer to one request for a page of tags. */
  datatype PageResult =
    | Page(tags: seq<Tag>)
    | RequestFailed(status: Option<int>, text: string)

  const PerPage: nat := 100
  const MaxPages: nat := 5

  /** `count or 5` */
  function TargetCount(count: Option<int>): (t: int)
    ensures count.None? || count == Some(0) ==> t == 5
    ensures count.Some? && count.value != 0 ==> t == count.value
  {
    match count
    case None => 5
    case Some(c) => if c == 0 then 5 else c
  }

  /** The answer to the request for page `p` (from 1); pages past the given ones are empty. */
  function PageAt(pages: seq<PageResult>, p: nat): PageResult
  {
    if 1 <= p <= |pages| then pages[p - 1] else Page([])
  }

  /** The `additional_info` every tag parser records. */
  function TagInfo(tag: Tag): (m: map<string, Json>)
    ensures "tag_name" in m && m["tag_name"] == JStr(tag.name)
  {
    map["tag_name" := JStr(tag.name),
        "commit" := JObj(map["sha" := OptStr(tag.commitSha)]),
        "tarball_url" := OptStr(tag.tarballUrl),
        "zipball_url" := OptStr(tag.zipballUrl)]
  }

  /** The date parser a release built without a date never consults. */
  function NoDate(s: string): Option<string> { None }

  /** The stable tags of pages 1 to `n`, page by page, in page order. */
  function Collected(pages: seq<PageResult>, isStable: Tag -> bool, n: nat): seq<Tag>
  {
    if n == 0 then []
    else
      Collected(pages, isStable, n - 1)
      + (match PageAt(pages, n) case Page(tags) => Filter(tags, isStable) case _ => [])
  }

  const RateLimitMessage: string :=
    "GitHub API rate limit exceeded. Please set GITHUB_TOKEN environment variable or wait for rate limit reset."

  /** The message of the GitHubAPIError a failed request becomes. */
  function RequestError(status: Option<int>, text: string): (msg: string)
    ensures status == Some(403) && Contains(text, "rate limit exceeded") ==> msg == RateLimitMessage
    ensures !(status == Some(403) && Contains(text, "rate limit exceeded")) ==>
      msg == "Failed to fetch GitHub tags: " + text
  {
    if status == Some(403) && Contains(text, "rate limit exceeded") then RateLimitMessage
    else "Failed to fetch GitHub tags: " + text
  }

  /** How the paging loop ended, and how many pages it requested. */
  datatype Paged =
    | Held(held: seq<Tag>, requested: nat)
    | PagingRaised(msg: string, requested: nat)

  /**
   * The paging loop of `_get_github_tags`, from page `page` on; the tags
   * held on entering it are those of the pages before.
   */
  function Paging(pages: seq<PageResult>, isStable: Tag -> bool, target: int, page: nat): (r: Paged)
    requires 1 <= page <= MaxPages + 1
    ensures page - 1 <= r.requested <= MaxPages
    decreases MaxPages + 1 - page
  {
    var held := Collected(pages, isStable, page - 1);
    if !(|held| < target && page <= MaxPages) then Held(held, page - 1)
    else
      match PageAt(pages, page)
      case RequestFailed(status, text) => PagingRaised(RequestError(status, text), page)
      case Page(tags) =>
        var now := held + Filter(tags, isStable);
        if tags == [] || |tags| < PerPage then Held(now, page)
        else Paging(pages, isStable, target, page + 1)
  }

  /** Fewer than `target` tags were held after page `p`. */
  predicate HeldFewer(pages: seq<PageResult>, isStable: Tag -> bool, target: int, p: nat)
  {
    |Collected(pages, isStable, p)| < target
  }

  /** A page is full: it holds at least `PerPage` tags. */
  predicate Full(pages: seq<PageResult>, p: nat)
  {
    PageAt(pages, p).Page? && |PageAt(pages, p).tags| >= PerPage
  }

  /**
   * The loop moved past a page only when that page was full and fewer than
   * `target` tags were held.
   */
  ghost predicate ReadRule(pages: seq<PageResult>, isStable: Tag -> bool, target: int, requested: nat)
  {
    && (forall p :: 1 <= p < requested ==> Full(pages, p))
    && (forall p :: 0 <= p < requested ==> HeldFewer(pages, isStable, target, p))
  }

  /**
   * The stop rule: the loop keeps the tags of every page it read, and it
   * stopped at a page that failed, was empty or short, at the fifth page, or
   * once `target` tags were held.
   */
  ghost predicate StopRule(pages: seq<PageResult>, isStable: Tag -> bool, target: int, r: Paged)
  {
    && (r.Held? ==> r.held == Collected(pages, isStable, r.requested))
    && (r.Held? ==>
         || r.requested == MaxPages
         || |r.held| >= target
         || (PageAt(pages, r.requested).Page? && |PageAt(pages, r.requested).tags| < PerPage))
    && (r.PagingRaised? ==>
         && PageAt(pages, r.requested).RequestFailed?
         && r.msg == RequestError(PageAt(pages, r.requested).status, PageAt(pages, r.requested).text))
  }

  /** The loop read every page before the one it stopped at, and requested a page only while it held fewer than `target` tags. */
  lemma PagingReads(pages: seq<PageResult>, isStable: Tag -> bool, target: int)
    ensures ReadRule(pages, isStable, target, Paging(pages, isStable, target, 1).requested)
  {
    var requested := Paging(pages, isStable, target, 1).requested;
    forall q | 1 <= q <= requested
      ensures HeldFewer(pages, isStable, target, q - 1)
      ensures q < requested ==> Full(pages, q)
    {
      PageRequested(pages, isStable, target, 1, q);
    }
    forall p | 0 <= p < requested
      ensures HeldFewer(pages, isStable, target, p)
    {
      PageRequested(pages, isStable, target, 1, p + 1);
    }
  }

  /**
   * Page `q` was requested only with fewer than `target` tags held, and the
   * loop went past it only when it was full.
   */
  lemma {:induction false} PageRequested(pages: seq<PageResult>, isStable: Tag -> bool, target: int, page: nat, q: nat)
    requires 1 <= page <= MaxPages + 1
    requires page <= q <= Paging(pages, isStable, target, page).requested
    ensures HeldFewer(pages, isStable, target, q - 1)
    ensures q < Paging(pages, isStable, target, page).requested ==> Full(pages, q)
    decreases q - page
  {
    var r := Paging(pages, isStable, target, page);
    var held := Collected(pages, isStable, page - 1);
    if !(|held| < target && page <= MaxPages) {
      assert false;
    }
    if q > page || q < r.requested {
      var answer := PageAt(pages, page);
      if answer.RequestFailed? || answer.tags == [] || |answer.tags| < PerPage {
        assert false;
      }
      assert r == Paging(pages, isStable, target, page + 1);
      if q > page {
        PageRequested(pages, isStable, target, page + 1, q);
      }
    }
  }

  lemma {:induction false} PagingStops(pages: seq<PageResult>, isStable: Tag -> bool, target: int, page: nat)
    requires 1 <= page <= MaxPages + 1
    ensures StopRule(pages, isStable, target, Paging(pages, isStable, target, page))
    decreases MaxPages + 1 - page
  {
    var r := Paging(pages, isStable, target, page);
    var held := Collected(pages, isStable, page - 1);
    if |held| < target && page <= MaxPages {
      var answer := PageAt(pages, page);
      if answer.Page? {
        var now := held + Filter(answer.tags, isStable);
        if !(answer.tags == [] || |answer.tags| < PerPage) {
          assert r == Paging(pages, isStable, target, page + 1);
          PagingStops(pages, isStable, target, page + 1);
        } else {
          assert now == Collected(pages, isStable, page);
          assert r == Held(now, page);
        }
      } else {
        assert r == PagingRaised(RequestError(answer.status, answer.text), page);
      }
    } else {
      assert r == Held(held, page - 1);
    }
  }

  /** `_get_github_tags(count)`; `Err` is the GitHubAPIError it raises. */
  function GithubTags(count: Option<int>, pages: seq<PageResult>, isStable: Tag -> bool): (r: Result<seq<Tag>>)
    ensures r.Ok? && TargetCount(count) > 0 ==> |r.value| <= TargetCount(count)
  {
    var target := TargetCount(count);
    match Paging(pages, isStable, target, 1)
    case PagingRaised(msg, _) => Err(msg)
    case Held(held, _) => Ok(if target != 0 then PyPrefix(held, target) else held)
  }

  /** The paging loop itself, proved to compute `GithubTags`. */
  method GetGithubTags(count: Option<int>, pages: seq<PageResult>, isStable: Tag -> bool)
    returns (r: Result<seq<Tag>>)
    ensures r == GithubTags(count, pages, isStable)
  {
    var stableTags: seq<Tag> := [];
    var page: nat := 1;
    var target := TargetCount(count);
    ghost var stopped: Option<nat> := None;  // the page a `break` left the loop at
    while |stableTags| < target && page <= MaxPages
      invariant 1 <= page <= MaxPages + 1
      invariant stableTags == Collected(pages, isStable, page - 1)
      invariant Paging(pages, isStable, target, page) == Paging(pages, isStable, target, 1)
      invariant stopped.None?
      decreases MaxPages + 1 - page
    {
      PagingAt(pages, isStable, target, page);
      match PageAt(pages, page) {
        case RequestFailed(status, text) =>
          GithubTagsOf(count, pages, isStable);
          return Err(RequestError(status, text));
        case Page(tags) =>
          if tags == [] {
            assert Paging(pages, isStable, target, 1) == Held(stableTags + Filter(tags, isStable), page);
            stopped := Some(page);
            break;
          }
          stableTags := stableTags + Filter(tags, isStable);
          if |tags| < PerPage {
            assert Paging(pages, isStable, target, 1) == Held(stableTags, page);
            stopped := Some(page);
            break;
          }
          page := page + 1;
      }
    }
    if stopped.None? {
      PagingAt(pages, isStable, target, page);
    }
    HeldResult(count, pages, isStable, stableTags);
    r := Ok(if target != 0 then PyPrefix(stableTags, target) else stableTags);
  }

  /** `GithubTags` read off the loop's outcome. */
  lemma GithubTagsOf(count: Option<int>, pages: seq<PageResult>, isStable: Tag -> bool)
    ensures var target := TargetCount(count);
      var run := Paging(pages, isStable, target, 1);
      && (run.Held? ==> GithubTags(count, pages, isStable) == Ok(if target != 0 then PyPrefix(run.held, target) else run.held))
      && (run.PagingRaised? ==> GithubTags(count, pages, isStable) == Err(run.msg))
  {
  }

  /** A loop that ended holding `held` returns its prefix. */
  lemma HeldResult(count: Option<int>, pages: seq<PageResult>, isStable: Tag -> bool, held: seq<Tag>)
    requires var run := Paging(pages, isStable, TargetCount(count), 1); run.Held? && run.held == held
    ensures var target := TargetCount(count);
      GithubTags(count, pages, isStable) == Ok(if target != 0 then PyPrefix(held, target) else held)
  {
  }

  /** One turn of the paging loop, as `Paging` takes it from page `page`. */
  lemma PagingAt(pages: seq<PageResult>, isStable: Tag -> bool, target: int, page: nat)
    requires 1 <= page <= MaxPages + 1
    ensures var held := Collected(pages, isStable, page - 1);
      var r := Paging(pages, isStable, target, page);
      && (!(|held| < target && page <= MaxPages) ==> r == Held(held, page - 1))
      && (|held| < target && page <= MaxPages ==>
            match PageAt(pages, page)
            case RequestFailed(status, text) => r == PagingRaised(RequestError(status, text), page)
            case Page(tags) =>
              && Collected(pages, isStable, page) == held + Filter(tags, isStable)
              && (tags == [] || |tags| < PerPage ==> r == Held(held + Filter(tags, isStable), page))
              && (tags != [] && |tags| >= PerPage ==> r == Paging(pages, isStable, target, page + 1)))
  {
  }

  /**
   * What `_get_github_tags` returns: at most `target` tags, each accepted by
   * `isStable`, in page-then-tag order, from at most five pages; a failed
   * request raises with the message `RequestError` gives it.
   */
  lemma GithubTagsSpec(count: Option<int>, pages: seq<PageResult>, isStable: Tag -> bool)
    ensures var r := GithubTags(count, pages, isStable);
            var run := Paging(pages, isStable, TargetCount(count), 1);
            && run.requested <= MaxPages
            && (r.Ok? ==>
                 && |r.value| <= (if TargetCount(count) > 0 then TargetCount(count) else 0)
                 && (forall k :: 0 <= k < |r.value| ==> isStable(r.value[k]))
                 && r.value <= Collected(pages, isStable, run.requested))
            && (r.Err? ==>
                 && 1 <= run.requested && PageAt(pages, run.requested).RequestFailed?
                 && r.msg == RequestError(PageAt(pages, run.requested).status,
                                          PageAt(pages, run.requested).text))
  {
    var target := TargetCount(count);
    PagingReads(pages, isStable, target);
    PagingStops(pages, isStable, target, 1);
    var run := Paging(pages, isStable, target, 1);
    if run.Held? {
      CollectedStable(pages, isStable, run.requested);
      if target <= 0 {
        assert run == Held([], 0);
      }
    }
  }

  lemma {:induction false} CollectedStable(pages: seq<PageResult>, isStable: Tag -> bool, n: nat)
    ensures forall k :: 0 <= k < |Collected(pages, isStable, n)| ==> isStable(Collected(pages, isStable, n)[k])
  {
    if n > 0 {
      CollectedStable(pages, isStable, n - 1);
    }
  }

  // -------------------------------------------------------- fetch_versions

  /** The test the loop's `try` applies: the tag parses. */
  function ParsesOk(parse: Tag -> Result<ReleaseInfo>): Tag -> bool
  {
    t => parse(t).Ok?
  }

  /** `r` lists the releases of the tags that parse, in tag order: the `k`-th comes from the `k`-th tag that parses. */
  ghost predicate InTagOrder(tags: seq<Tag>, parse: Tag -> Result<ReleaseInfo>, r: seq<ReleaseInfo>)
  {
    var idx := Passing(tags, ParsesOk(parse));
    |r| == |idx| && forall k :: 0 <= k < |r| ==> parse(tags[idx[k]]) == Ok(r[k])
  }

  /** The releases of the tags that parse, in tag order; ParseErrors are skipped. */
  function ParseAll(tags: seq<Tag>, parse: Tag -> Result<ReleaseInfo>): (r: seq<ReleaseInfo>)
    ensures |r| <= |tags|
    ensures r == [] <==> forall k :: 0 <= k < |tags| ==> parse(tags[k]).Err?
    ensures forall k :: 0 <= k < |tags| && parse(tags[k]).Ok? ==> parse(tags[k]).value in r
  {
    if tags == [] then []
    else
      var n := |tags| - 1;
      var init := tags[..n];
      var last := tags[n];
      assert forall k :: 0 <= k < |init| ==> init[k] == tags[k];
      ParseAll(init, parse) + (match parse(last) case Ok(ri) => [ri] case Err(_) => [])
  }

  /** The releases come in tag order, one for each tag that parses. */
  lemma {:induction false} ParseAllOrder(tags: seq<Tag>, parse: Tag -> Result<ReleaseInfo>)
    ensures InTagOrder(tags, parse, ParseAll(tags, parse))
  {
    if tags != [] {
      var init := tags[..|tags| - 1];
      ParseAllOrder(init, parse);
      ParseAllStep(tags, parse, ParseAll(init, parse));
    }
  }

  /** One more tag: its release joins at the end exactly when it parses. */
  lemma ParseAllStep(tags: seq<Tag>, parse: Tag -> Result<ReleaseInfo>, r0: seq<ReleaseInfo>)
    requires tags != [] && InTagOrder(tags[..|tags| - 1], parse, r0)
    ensures InTagOrder(tags, parse, r0 + (match parse(tags[|tags| - 1]) case Ok(ri) => [ri] case Err(_) => []))
  {
    var n := |tags| - 1;
    PassingSnoc(tags, ParsesOk(parse));
    assert ParsesOk(parse)(tags[n]) == parse(tags[n]).Ok?;
    var idx0 := Passing(tags[..n], ParsesOk(parse));
    assert forall k :: 0 <= k < |idx0| ==> tags[..n][idx0[k]] == tags[idx0[k]];
  }

  /** The default `_get_stability_criteria`: the first release is both latest and stable. */
  function DefaultCriteria(releases: seq<ReleaseInfo>): (r: Result<(ReleaseInfo, ReleaseInfo)>)
    ensures r.Err? <==> releases == []
    ensures r.Err? ==> r.msg == "No releases available"
    ensures r.Ok? ==> r.value.0 == releases[0] && r.value.1 == releases[0]
  {
    if releases == [] then Err("No releases available") else Ok((releases[0], releases[0]))
  }

  /** The `details` of a successful fetch; `extra` is `_get_additional_info()`. */
  function SuccessDetails(fetchTime: string, source: string, latest: ReleaseInfo, stable: ReleaseInfo,
                          extra: map<string, Json>): map<string, Json>
  {
    map["fetch_time" := JStr(fetchTime), "source" := JStr(source),
        "latest_info" := ReleaseJson(latest), "stable_info" := ReleaseJson(stable)] + extra
  }

  /** `fetch_versions(recent_count)`, with every exception reported in `details`. */
  function FetchResult(recentCount: int, pages: seq<PageResult>, isStable: Tag -> bool,
                       parse: Tag -> Result<ReleaseInfo>,
                       criteria: seq<ReleaseInfo> -> Result<(ReleaseInfo, ReleaseInfo)>,
                       fetchTime: string, source: string, extra: map<string, Json>): (info: VersionInfo)
    ensures info.latest.None? <==> info.stable.None?
    ensures info.latest.None? ==> info.recentReleases == [] && "error" in info.details
    ensures info.latest.Some? ==>
      && GithubTags(Some(recentCount), pages, isStable).Ok?
      && |info.recentReleases| <= |GithubTags(Some(recentCount), pages, isStable).value|
  {
    match GithubTags(Some(recentCount), pages, isStable)
    case Err(msg) => VersionInfo(None, None, [], ErrorDetails(msg, "GitHubAPIError"))
    case Ok(tags) =>
      if tags == [] then VersionInfo(None, None, [], map["error" := JStr("No releases found")])
      else
        var infos := ParseAll(tags, parse);
        if infos == [] then VersionInfo(None, None, [], map["error" := JStr("Failed to parse any releases")])
        else
          match criteria(infos)
          case Err(msg) => VersionInfo(None, None, [], ErrorDetails(msg, "ValueError"))
          case Ok((latest, stable)) =>
            VersionInfo(Some(latest.version), Some(stable.version), PyPrefix(infos, recentCount),
                        SuccessDetails(fetchTime, source, latest, stable, extra))
  }

  /** `fetch_versions`, with its loop over the tags. */
  method FetchVersions(recentCount: int, pages: seq<PageResult>, isStable: Tag -> bool,
                       parse: Tag -> Result<ReleaseInfo>,
                       criteria: seq<ReleaseInfo> -> Result<(ReleaseInfo, ReleaseInfo)>,
                       fetchTime: string, source: string, extra: map<string, Json>)
    returns (info: VersionInfo)
    ensures info == FetchResult(recentCount, pages, isStable, parse, criteria, fetchTime, source, extra)
  {
    var fetched := GetGithubTags(Some(recentCount), pages, isStable);
    if fetched.Err? {
      return VersionInfo(None, None, [], ErrorDetails(fetched.msg, "GitHubAPIError"));
    }
    var tags := fetched.value;
    if tags == [] {
      return VersionInfo(None, None, [], map["error" := JStr("No releases found")]);
    }
    var releaseInfos: seq<ReleaseInfo> := [];
    for i := 0 to |tags|
      invariant releaseInfos == ParseAll(tags[..i], parse)
    {
      assert tags[..i + 1][..i] == tags[..i];
      match parse(tags[i]) {
        case Ok(releaseInfo) =>
          releaseInfos := releaseInfos + [releaseInfo];
        case Err(_) =>
      }
    }
    assert tags[..|tags|] == tags;
    if releaseInfos == [] {
      return VersionInfo(None, None, [], map["error" := JStr("Failed to parse any releases")]);
    }
    var recentReleases := PyPrefix(releaseInfos, recentCount);
    match criteria(releaseInfos) {
      case Err(msg) =>
        info := VersionInfo(None, None, [], ErrorDetails(msg, "ValueError"));
      case Ok((latest, stable)) =>
        info := VersionInfo(Some(latest.version), Some(stable.version), recentReleases,
                            SuccessDetails(fetchTime, source, latest, stable, extra));
    }
  }

  /**
   * What `fetch_versions` reports: an error in `details` exactly when latest
   * and stable are missing; otherwise the first `recent_count` parsed
   * releases, with latest and stable chosen from all of them.
   */
  lemma FetchResultSpec(recentCount: int, pages: seq<PageResult>, isStable: Tag -> bool,
                        parse: Tag -> Result<ReleaseInfo>,
                        criteria: seq<ReleaseInfo> -> Result<(ReleaseInfo, ReleaseInfo)>,
                        fetchTime: string, source: string, extra: map<string, Json>)
    requires "error" !in extra
    ensures var info := FetchResult(recentCount, pages, isStable, parse, criteria, fetchTime, source, extra);
            && (info.latest.None? <==> "error" in info.details)
            && (info.latest.None? ==> info.stable.None? && info.recentReleases == [])
            && (info.latest.Some? ==>
                  && GithubTags(Some(recentCount), pages, isStable).Ok?
                  && var infos := ParseAll(GithubTags(Some(recentCount), pages, isStable).value, parse);
                  && criteria(infos).Ok?
                  && info.latest == Some(criteria(infos).value.0.version)
                  && info.stable == Some(criteria(infos).value.1.version)
                  && info.recentReleases == PyPrefix(infos, recentCount))
  {
  }

  /** Fetched tags that all fail to parse give "Failed to parse any releases". */
  lemma NoneParse(recentCount: int, pages: seq<PageResult>, isStable: Tag -> bool,
                  parse: Tag -> Result<ReleaseInfo>,
                  criteria: seq<ReleaseInfo> -> Result<(ReleaseInfo, ReleaseInfo)>,
                  fetchTime: string, source: string, extra: map<string, Json>)
    requires GithubTags(Some(recentCount), pages, isStable).Ok?
    requires GithubTags(Some(recentCount), pages, isStable).value != []
    requires var tags := GithubTags(Some(recentCount), pages, isStable).value;
             forall k :: 0 <= k < |tags| ==> parse(tags[k]).Err?
    ensures FetchResult(recentCount, pages, isStable, parse, criteria, fetchTime, source, extra)
            == VersionInfo(None, None, [], map["error" := JStr("Failed to parse any releases")])
  {
  }

  /** No accepted tag gives "No releases found" and nothing else. */
  lemma NoTags(recentCount: int, pages: seq<PageResult>, isStable: Tag -> bool,
               parse: Tag -> Result<ReleaseInfo>,
               criteria: seq<ReleaseInfo> -> Result<(ReleaseInfo, ReleaseInfo)>,
               fetchTime: string, source: string, extra: map<string, Json>)
    requires GithubTags(Some(recentCount), pages, isStable) == Ok([])
    ensures FetchResult(recentCount, pages, isStable, parse, criteria, fetchTime, source, extra)
            == VersionInfo(None, None, [], map["error" := JStr("No releases found")])
  {
  }

  /**
   * The two exceptions `fetch_versions` catches: a failed tag request is
   * reported with its message as a "GitHubAPIError", and a criteria that
   * raises with its message as a "ValueError".
   */
  lemma FetchErrors(recentCount: int, pages: seq<PageResult>, isStable: Tag -> bool,
                    parse: Tag -> Result<ReleaseInfo>,
                    criteria: seq<ReleaseInfo> -> Result<(ReleaseInfo, ReleaseInfo)>,
                    fetchTime: string, source: string, extra: map<string, Json>)
    ensures var fetched := GithubTags(Some(recentCount), pages, isStable);
            var info := FetchResult(recentCount, pages, isStable, parse, criteria, fetchTime, source, extra);
            fetched.Err? ==> info == VersionInfo(None, None, [], ErrorDetails(fetched.msg, "GitHubAPIError"))
    ensures var fetched := GithubTags(Some(recentCount), pages, isStable);
            var info := FetchResult(recentCount, pages, isStable, parse, criteria, fetchTime, source, extra);
            fetched.Ok? && ParseAll(fetched.value, parse) != [] && criteria(ParseAll(fetched.value, parse)).Err? ==>
              info == VersionInfo(None, None, [], ErrorDetails(criteria(ParseAll(fetched.value, parse)).msg, "ValueError"))
  {
  }
}
