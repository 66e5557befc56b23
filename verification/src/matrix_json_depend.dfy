/**
 * generate_matrix_json_depend.py: the older matrix generator, with a fixed
 * base matrix, no input file, and one file per language when a language is
 * asked for. Every `json.dump` is recorded as a `Write` in the order it
 * happens; creating the output directory is not modelled.
 */
module MatrixJsonDepend {
  import opened Wrappers
  import opened Json
  import opened Text
  import opened VersionFetcher
  import opened MatrixJson

  const NamePrefix: string := "matrix-"
  const NameSuffix: string := "-stable.json"

  /** The file name: per language when one language is asked for, shared otherwise. */
  function FileName(specificLang: Option<string>, lang: string): (name: string)
    ensures Given(specificLang) ==> StartsWith(name, NamePrefix) && EndsWith(name, NameSuffix)
    ensures !Given(specificLang) ==> name == "matrix-stable.json"
  {
    if Given(specificLang) then NamePrefix + lang + NameSuffix else "matrix-stable.json"
  }

  /** The language a per-language file name was made for. */
  function LangOfFileName(name: string): string
    requires |name| >= |NamePrefix| + |NameSuffix|
  {
    name[|NamePrefix|..|name| - |NameSuffix|]
  }

  /** A per-language file name gives its language back, so distinct languages get distinct files. */
  lemma FileNameRoundTrip(specificLang: Option<string>, lang: string)
    requires Given(specificLang)
    ensures |FileName(specificLang, lang)| >= |NamePrefix| + |NameSuffix|
    ensures LangOfFileName(FileName(specificLang, lang)) == lang
  {
    var name := FileName(specificLang, lang);
    assert name == NamePrefix + lang + NameSuffix;
    assert name[|NamePrefix|..|name| - |NameSuffix|] == lang;
  }

  lemma FileNameInjective(specificLang: Option<string>, l1: string, l2: string)
    requires Given(specificLang)
    ensures FileName(specificLang, l1) == FileName(specificLang, l2) ==> l1 == l2
  {
    FileNameRoundTrip(specificLang, l1);
    FileNameRoundTrip(specificLang, l2);
  }

  /** The path written: the file name, joined with the output directory when one is given. */
  function FilePath(outputDir: Option<string>, specificLang: Option<string>, lang: string): string
  {
    var name := FileName(specificLang, lang);
    if Given(outputDir) then PathJoin(outputDir.value, name) else name
  }

  /** The path ends in the file name, and starts with the output directory when one is given. */
  lemma FilePathShape(outputDir: Option<string>, specificLang: Option<string>, lang: string)
    ensures var path := FilePath(outputDir, specificLang, lang);
      && EndsWith(path, FileName(specificLang, lang))
      && (!Given(outputDir) ==> path == FileName(specificLang, lang))
      && (Given(outputDir) ==> StartsWith(path, outputDir.value) && |path| > |FileName(specificLang, lang)|)
  {
    var name := FileName(specificLang, lang);
    assert name[0] == 'm';
    assert !StartsWith(name, "/");
  }

  /**
   * The result, `None` when the function raises: the fetched document must
   * hold "versions", which the language choice reads when no language is
   * given and the loop's first membership test reads otherwise.
   */
  function GeneratedDepend(versionData: Doc, specificLang: Option<string>): (r: Option<map<string, Doc>>)
    requires FetcherShaped(versionData)
    ensures r.None? <==> "versions" !in versionData
    ensures r.Some? && !Given(specificLang) ==> r.value.Keys == Found(versionData).Keys
    ensures r.Some? && Given(specificLang) ==> r.value.Keys == {specificLang.value} * Found(versionData).Keys
    ensures r.Some? ==> forall l :: l in r.value ==>
              r.value[l] == MatrixFor(DefaultMatrix, l, Found(versionData)[l])
  {
    if "versions" !in versionData then None
    else
      var languages := if Given(specificLang) then {specificLang.value} else Found(versionData).Keys;
      Some(Matrices(DefaultMatrix, languages, Found(versionData)))
  }

  /** The function raises exactly when a fetcher raised. */
  lemma RaisesOnFetchError(outcomes: seq<LegacyOutcome>, specificLang: Option<string>)
    requires |outcomes| == |Languages|
    ensures FetcherShaped(FetchAllVersions(StableType, outcomes))
    ensures GeneratedDepend(FetchAllVersions(StableType, outcomes), specificLang).None? <==>
            FirstRaised(outcomes).Some?
  {
    FetchedShape(outcomes);
  }

  /** Each language is written once, to its path, with its matrix; nothing else is written. */
  ghost predicate WrittenOnce(writes: seq<Write>, matrices: map<string, Doc>, outputDir: Option<string>,
                              specificLang: Option<string>)
  {
    && (forall i :: 0 <= i < |writes| ==>
          && writes[i].lang in matrices
          && writes[i].path == FilePath(outputDir, specificLang, writes[i].lang)
          && writes[i].matrix == matrices[writes[i].lang])
    && (forall i, j :: 0 <= i < j < |writes| ==> writes[i].lang != writes[j].lang)
    && (forall l :: l in matrices ==> Write(l, FilePath(outputDir, specificLang, l), matrices[l]) in writes)
  }

  /**
   * `generate_matrix_json` of generate_matrix_json_depend.py. `result` is
   * `None` when it raises; nothing is written then.
   */
  method GenerateMatrixJsonDepend(outcomes: seq<LegacyOutcome>, outputDir: Option<string>,
                                  specificLang: Option<string>)
    returns (result: Option<map<string, Doc>>, writes: seq<Write>)
    requires |outcomes| == |Languages|
    ensures FetcherShaped(FetchAllVersions(StableType, outcomes))
    ensures result == GeneratedDepend(FetchAllVersions(StableType, outcomes), specificLang)
    ensures result.None? <==> FirstRaised(outcomes).Some?
    ensures result.None? ==> writes == []
    ensures result.Some? ==> WrittenOnce(writes, result.value, outputDir, specificLang)
  {
    var versionData := FetchAllVersions(StableType, outcomes);
    FetchedShape(outcomes);
    if "versions" !in versionData {
      return None, [];
    }
    var found := versionData["versions"].fields;
    var languages := if Given(specificLang) then {specificLang.value} else found.Keys;
    var matrices;
    matrices, writes := ProcessDepend(DefaultMatrix, languages, found, outputDir, specificLang);
    result := Some(matrices);
  }

  /** The loop over the languages: skip those without a version, build the matrix, write it, record it. */
  method ProcessDepend(base: Doc, languages: set<string>, found: map<string, Json>, outputDir: Option<string>,
                       specificLang: Option<string>)
    returns (matrices: map<string, Doc>, writes: seq<Write>)
    ensures matrices == Matrices(base, languages, found)
    ensures WrittenOnce(writes, matrices, outputDir, specificLang)
  {
    matrices := map[];
    writes := [];
    var remaining := languages;
    while remaining != {}
      invariant remaining <= languages
      invariant matrices == Matrices(base, languages - remaining, found)
      invariant WrittenOnce(writes, matrices, outputDir, specificLang)
      decreases remaining
    {
      var lang :| lang in remaining;
      MatricesStep(base, languages - remaining, found, lang);
      assert languages - (remaining - {lang}) == (languages - remaining) + {lang};
      remaining := remaining - {lang};
      if lang !in found {
        continue;
      }
      var matrix := base["versions" := JObj(map[lang := Wrapped(found[lang])])];
      var path := FilePath(outputDir, specificLang, lang);
      OnceStep(writes, matrices, outputDir, specificLang, lang, matrix);
      writes := writes + [Write(lang, path, matrix)];
      matrices := matrices[lang := matrix];
    }
    assert languages - remaining == languages;
  }

  /** Recording a new language keeps every language written exactly once. */
  lemma OnceStep(writes: seq<Write>, matrices: map<string, Doc>, outputDir: Option<string>,
                 specificLang: Option<string>, lang: string, matrix: Doc)
    requires WrittenOnce(writes, matrices, outputDir, specificLang)
    requires lang !in matrices
    ensures WrittenOnce(writes + [Write(lang, FilePath(outputDir, specificLang, lang), matrix)],
                        matrices[lang := matrix], outputDir, specificLang)
  {
    var all := writes + [Write(lang, FilePath(outputDir, specificLang, lang), matrix)];
    var m := matrices[lang := matrix];
    forall i | 0 <= i < |all|
      ensures all[i].lang in m && all[i].matrix == m[all[i].lang]
      ensures all[i].path == FilePath(outputDir, specificLang, all[i].lang)
    {
      if i < |writes| {
        assert all[i] == writes[i];
      }
    }
    forall l | l in m
      ensures Write(l, FilePath(outputDir, specificLang, l), m[l]) in all
    {
      if l != lang {
        assert Write(l, FilePath(outputDir, specificLang, l), matrices[l]) in writes;
      } else {
        assert all[|writes|] == Write(l, FilePath(outputDir, specificLang, l), m[l]);
      }
    }
  }
}
