/**
 * update_matrix_dynamic.py: replacing a matrix document's version lists
 * with the versions a strategy selects from freshly fetched information.
 * Reading, backing up and writing the file are not part of this model; the
 * document is the input, the updated document the output.
 */
module MatrixDynamic {
  import opened Wrappers
  import opened Json
  import opened Text
  import opened Utils
  import opened Update

  const Stable: string := "stable"
  const Latest: string := "latest"
  const Both: string := "both"

  /** `VersionStrategy.is_valid` */
  predicate IsValid(strategy: string)
  {
    strategy in [Stable, Latest, Both]
  }

  lemma IsValidExactly(strategy: string)
    ensures IsValid(strategy) <==> strategy == "stable" || strategy == "latest" || strategy == "both"
  {
  }

  /** Whether the strategy takes the stable version, and whether it takes the latest one. */
  predicate TakesStable(strategy: string) { strategy == Stable || strategy == Both }
  predicate TakesLatest(strategy: string) { strategy == Latest || strategy == Both }

  /** `get_versions_from_strategy` */
  function VersionsFromStrategy(info: VersionInfo, strategy: string): (r: Result<seq<string>>)
    ensures r.Err? <==> !IsValid(strategy)
    ensures r.Err? ==> r.msg == "Invalid strategy: " + strategy
    ensures r.Ok? ==>
      && |r.value| <= 2
      && NoDup(r.value)
      && (forall v :: v in r.value <==>
            || (TakesStable(strategy) && Given(info.stable) && v == info.stable.value)
            || (TakesLatest(strategy) && Given(info.latest) && v == info.latest.value))
      && (TakesStable(strategy) && Given(info.stable) ==> |r.value| > 0 && r.value[0] == info.stable.value)
  {
    if !IsValid(strategy) then Err("Invalid strategy: " + strategy)
    else
      var withStable := if TakesStable(strategy) && Given(info.stable) then [info.stable.value] else [];
      if TakesLatest(strategy) && Given(info.latest) && info.latest.value !in withStable
      then Ok(withStable + [info.latest.value])
      else Ok(withStable)
  }

  /** Nothing is selected exactly when the fields the strategy reads are `None` or empty. */
  lemma EmptySelection(info: VersionInfo, strategy: string)
    requires IsValid(strategy)
    ensures VersionsFromStrategy(info, strategy) == Ok([]) <==>
      (!TakesStable(strategy) || !Given(info.stable)) && (!TakesLatest(strategy) || !Given(info.latest))
  {
    var r := VersionsFromStrategy(info, strategy);
    if TakesStable(strategy) && Given(info.stable) {
      assert info.stable.value in r.value;
    } else if TakesLatest(strategy) && Given(info.latest) {
      assert info.latest.value in r.value;
    }
  }

  // ------------------------------------------------------ update_matrix_json

  /**
   * The list one language gets: the selected versions, or `None` when the
   * fetcher raises, the strategy is invalid or nothing is selected; the
   * language's list is then left alone.
   */
  function Selection(language: string, strategy: string, fetch: string -> FetchOutcome): (r: Option<seq<string>>)
    ensures r.Some? ==> r.value != [] && IsValid(strategy) && language in Supported
  {
    match Fetched(language, fetch)
    case Raised(_) => None
    case Returned(info) =>
      match VersionsFromStrategy(info, strategy)
      case Err(_) => None
      case Ok(vs) => if vs == [] then None else Some(vs)
  }

  /** The languages whose list is replaced. */
  function Replaced(strategies: map<string, string>, fetch: string -> FetchOutcome): set<string>
  {
    set l | l in strategies && Selection(l, strategies[l], fetch).Some?
  }

  /** The document with "versions" created when missing. */
  function WithVersions(matrix: Doc): (d: Doc)
    ensures "versions" in d && d.Keys == matrix.Keys + {"versions"}
    ensures "versions" !in matrix ==> d["versions"] == JObj(map[])
    ensures forall k :: k in matrix ==> d[k] == matrix[k]
  {
    if "versions" in matrix then matrix else matrix["versions" := JObj(map[])]
  }

  /**
   * `update_matrix_json` in memory: each replaced language's list becomes
   * exactly its selected versions; every other list, and every other key,
   * is as it was. A "versions" that is not an object makes every
   * assignment raise, so nothing changes.
   */
  function UpdateMatrixJson(matrix: Doc, strategies: map<string, string>, fetch: string -> FetchOutcome)
    : (r: Doc)
    ensures "versions" in r && r.Keys == matrix.Keys + {"versions"}
    ensures forall k :: k in matrix && k != "versions" ==> r[k] == matrix[k]
    ensures !WithVersions(matrix)["versions"].JObj? ==> r == WithVersions(matrix)
    ensures WithVersions(matrix)["versions"].JObj? ==>
      var before := WithVersions(matrix)["versions"].fields;
      && r["versions"].JObj?
      && r["versions"].fields.Keys == before.Keys + Replaced(strategies, fetch)
      && (forall l :: l in Replaced(strategies, fetch) ==>
            r["versions"].fields[l] == StrList(Selection(l, strategies[l], fetch).value))
      && (forall l :: l in before && l !in Replaced(strategies, fetch) ==> r["versions"].fields[l] == before[l])
  {
    var base := WithVersions(matrix);
    if !base["versions"].JObj? then base
    else base["versions" := JObj(ReplacedLists(base["versions"].fields, strategies, fetch))]
  }

  /** The version lists after the loop: the replaced ones set, the others kept. */
  function ReplacedLists(before: map<string, Json>, strategies: map<string, string>, fetch: string -> FetchOutcome)
    : (lists: map<string, Json>)
    ensures lists.Keys == before.Keys + Replaced(strategies, fetch)
    ensures forall l :: l in Replaced(strategies, fetch) ==>
              lists[l] == StrList(Selection(l, strategies[l], fetch).value)
    ensures forall l :: l in before && l !in Replaced(strategies, fetch) ==> lists[l] == before[l]
  {
    map l | l in before.Keys + Replaced(strategies, fetch) ::
      if l in Replaced(strategies, fetch) then StrList(Selection(l, strategies[l], fetch).value) else before[l]
  }

  /** A language the strategies do not name is never touched. */
  lemma UnnamedUntouched(matrix: Doc, strategies: map<string, string>, fetch: string -> FetchOutcome,
                         language: string)
    requires "versions" in matrix && matrix["versions"].JObj? && language in matrix["versions"].fields
    requires language !in strategies
    ensures var r := UpdateMatrixJson(matrix, strategies, fetch);
      language in r["versions"].fields && r["versions"].fields[language] == matrix["versions"].fields[language]
  {
  }

  /** The loop of `update_matrix_json` over the strategies, with its `try`/`except`. */
  method UpdateMatrix(matrix: Doc, strategies: map<string, string>, fetch: string -> FetchOutcome)
    returns (data: Doc)
    ensures data == UpdateMatrixJson(matrix, strategies, fetch)
  {
    data := matrix;
    if "versions" !in data {
      data := data["versions" := JObj(map[])];
    }
    if !data["versions"].JObj? {
      return;
    }
    var lists := ReplaceAll(data["versions"].fields, strategies, fetch);
    data := data["versions" := JObj(lists)];
  }

  /** The loop itself: each language fetched, its selection taken, its list replaced when non-empty. */
  method ReplaceAll(before: map<string, Json>, strategies: map<string, string>, fetch: string -> FetchOutcome)
    returns (lists: map<string, Json>)
    ensures lists == ReplacedLists(before, strategies, fetch)
  {
    lists := before;
    var remaining := strategies.Keys;
    while remaining != {}
      invariant remaining <= strategies.Keys
      invariant ReplacedSoFar(before, strategies, fetch, lists, remaining)
      decreases remaining
    {
      var language :| language in remaining;
      ReplaceStep(before, strategies, fetch, lists, remaining, language);
      remaining := remaining - {language};
      var strategy := strategies[language];
      var outcome := Fetched(language, fetch);
      if outcome.Raised? {
        continue;
      }
      var versions := VersionsFromStrategy(outcome.info, strategy);
      if versions.Err? || versions.value == [] {
        continue;
      }
      lists := lists[language := StrList(versions.value)];
    }
    assert Replaced(strategies, fetch) - remaining == Replaced(strategies, fetch);
  }

  /** The lists once the languages outside `remaining` are done. */
  ghost predicate ReplacedSoFar(before: map<string, Json>, strategies: map<string, string>,
                                fetch: string -> FetchOutcome, lists: map<string, Json>, remaining: set<string>)
  {
    var done := Replaced(strategies, fetch) - remaining;
    && lists.Keys == before.Keys + done
    && (forall l :: l in done ==> lists[l] == StrList(Selection(l, strategies[l], fetch).value))
    && (forall l :: l in before && l !in done ==> lists[l] == before[l])
  }

  /** One turn of the loop keeps `ReplacedSoFar`: a language with a selection gets it, any other is skipped. */
  lemma ReplaceStep(before: map<string, Json>, strategies: map<string, string>, fetch: string -> FetchOutcome,
                    lists: map<string, Json>, remaining: set<string>, language: string)
    requires language in remaining && remaining <= strategies.Keys
    requires ReplacedSoFar(before, strategies, fetch, lists, remaining)
    ensures var sel := Selection(language, strategies[language], fetch);
      && (sel.None? ==> ReplacedSoFar(before, strategies, fetch, lists, remaining - {language}))
      && (sel.Some? ==>
            ReplacedSoFar(before, strategies, fetch, lists[language := StrList(sel.value)], remaining - {language}))
    ensures var outcome := Fetched(language, fetch);
      && (outcome.Raised? ==> Selection(language, strategies[language], fetch).None?)
      && (outcome.Returned? ==>
            var versions := VersionsFromStrategy(outcome.info, strategies[language]);
            Selection(language, strategies[language], fetch) ==
              if versions.Err? || versions.value == [] then None else Some(versions.value))
  {
    var sel := Selection(language, strategies[language], fetch);
    if sel.None? {
      SkipStep(before, strategies, fetch, lists, remaining, language);
    } else {
      SetStep(before, strategies, fetch, lists, remaining, language);
    }
  }

  /** A language without a selection is not among the replaced ones, so skipping it changes nothing. */
  lemma SkipStep(before: map<string, Json>, strategies: map<string, string>, fetch: string -> FetchOutcome,
                 lists: map<string, Json>, remaining: set<string>, language: string)
    requires language in remaining && remaining <= strategies.Keys
    requires Selection(language, strategies[language], fetch).None?
    requires ReplacedSoFar(before, strategies, fetch, lists, remaining)
    ensures ReplacedSoFar(before, strategies, fetch, lists, remaining - {language})
  {
    assert language !in Replaced(strategies, fetch);
    assert Replaced(strategies, fetch) - (remaining - {language}) == Replaced(strategies, fetch) - remaining;
  }

  /** A language with a selection joins the replaced ones, with its selected list. */
  lemma SetStep(before: map<string, Json>, strategies: map<string, string>, fetch: string -> FetchOutcome,
                lists: map<string, Json>, remaining: set<string>, language: string)
    requires language in remaining && remaining <= strategies.Keys
    requires Selection(language, strategies[language], fetch).Some?
    requires ReplacedSoFar(before, strategies, fetch, lists, remaining)
    ensures ReplacedSoFar(before, strategies, fetch,
                          lists[language := StrList(Selection(language, strategies[language], fetch).value)],
                          remaining - {language})
  {
    var replaced := Replaced(strategies, fetch);
    assert language in replaced;
    assert replaced - (remaining - {language}) == (replaced - remaining) + {language};
  }

  // ------------------------------------------------------ save_json_file

  /** The text `save_json_file` writes: the serialised document with a newline added when it lacks one. */
  function WithNewline(content: string): (text: string)
    ensures EndsWith(text, "\n")
    ensures content <= text && |text| <= |content| + 1
    ensures EndsWith(content, "\n") ==> text == content
  {
    if EndsWith(content, "\n") then content else content + "\n"
  }

  /** `json.dumps` never ends in a newline, so the text ends in exactly one. */
  lemma ExactlyOneNewline(content: string)
    requires !EndsWith(content, "\n")
    ensures var text := WithNewline(content);
      text == content + "\n" && !EndsWith(text[..|text| - 1], "\n")
  {
    assert WithNewline(content)[..|content|] == content;
  }

  /** Writing again adds nothing. */
  lemma WithNewlineIdempotent(content: string)
    ensures WithNewline(WithNewline(content)) == WithNewline(content)
  {
  }
}
