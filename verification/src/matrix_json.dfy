/**
 * generate_matrix_json.py: one matrix document per language, built from
 * the stable versions `fetch_all_versions` reports, optionally on top of
 * an existing matrix file. The fetch outcomes, the file system's answer for
 * the input file and the file writes are modelled as values: the input
 * file is looked up through `files`, and every `json.dump` is recorded as
 * a `Write` in the order it happens.
 */
module MatrixJson {
  import opened Wrappers
  import opened Json
  import opened Text
  import opened VersionFetcher

  /** The base matrix before any input file is applied. */
  const DefaultMatrix: Doc := map[
    "os" := StrList(["ubuntu-latest", "windows-latest", "macos-latest"]),
    "versions" := JObj(map[]),
    "ghpages_branch" := JStr("ghpages")]

  /** What opening and decoding the input file gives. */
  datatype FileState = Absent | Unparsable | Holds(doc: Doc)

  /** One `json.dump` to a file: the language whose matrix it is, the path, the document. */
  datatype Write = Write(lang: string, path: string, matrix: Doc)

  /** `os.path.dirname(path) != ""`: the path names a directory part. */
  predicate HasDirectory(path: string)
  {
    '/' in path
  }

  /**
   * `os.path.join(dir, name)` for two relative or absolute POSIX paths: an
   * absolute name replaces the directory, otherwise one separator joins them.
   */
  function PathJoin(dir: string, name: string): (p: string)
    ensures EndsWith(p, name)
    ensures !StartsWith(name, "/") && dir != "" ==> StartsWith(p, dir) && |p| > |name|
  {
    if StartsWith(name, "/") then name
    else if dir == "" || EndsWith(dir, "/") then dir + name
    else dir + "/" + name
  }

  /**
   * The base matrix after the input file: its top-level keys replace the
   * defaults key by key (`dict.update`); a missing file leaves the defaults
   * but its directory is created, which raises when the path has no
   * directory part; an undecodable file raises. `None` stands for the raise.
   */
  function BaseMatrix(inputFile: Option<string>, files: string -> FileState): (r: Option<Doc>)
    ensures !Given(inputFile) ==> r == Some(DefaultMatrix)
    ensures Given(inputFile) ==>
      var state := files(inputFile.value);
      && (r.None? <==> state.Unparsable? || (state.Absent? && !HasDirectory(inputFile.value)))
      && (state.Absent? && r.Some? ==> r.value == DefaultMatrix)
      && (state.Holds? ==>
            && r.Some?
            && r.value.Keys == DefaultMatrix.Keys + state.doc.Keys
            && (forall k :: k in state.doc ==> r.value[k] == state.doc[k])
            && (forall k :: k in DefaultMatrix && k !in state.doc ==> r.value[k] == DefaultMatrix[k]))
    ensures r.Some? ==> "versions" in r.value
  {
    if !Given(inputFile) then Some(DefaultMatrix)
    else match files(inputFile.value)
      case Holds(doc) => Some(DefaultMatrix + doc)
      case Unparsable => None
      case Absent => if HasDirectory(inputFile.value) then Some(DefaultMatrix) else None
  }

  /** A document as `fetch_all_versions` returns it: "versions", when present, is an object. */
  predicate FetcherShaped(versionData: Doc)
  {
    "versions" in versionData ==> versionData["versions"].JObj?
  }

  /** `version_data.get("versions", {})` */
  function Found(versionData: Doc): map<string, Json>
    requires FetcherShaped(versionData)
  {
    if "versions" in versionData then versionData["versions"].fields else map[]
  }

  /** What `fetch_all_versions(VersionType.STABLE)` returns always has that shape. */
  lemma FetchedShape(outcomes: seq<LegacyOutcome>)
    requires |outcomes| == |Languages|
    ensures FetcherShaped(FetchAllVersions(StableType, outcomes))
    ensures "versions" in FetchAllVersions(StableType, outcomes) <==> FirstRaised(outcomes).None?
  {
  }

  /**
   * The languages to process: the one asked for; else, with an input file,
   * the keys of the base matrix's "versions" (raising when that is not an
   * object); else the keys of the fetched "versions" (raising when the
   * fetch reported an error).
   */
  function LanguagesToProcess(specificLang: Option<string>, inputFile: Option<string>, base: Doc,
                              versionData: Doc): (r: Option<set<string>>)
    requires "versions" in base && FetcherShaped(versionData)
    ensures Given(specificLang) ==> r == Some({specificLang.value})
    ensures !Given(specificLang) && Given(inputFile) ==>
      && (r.Some? <==> base["versions"].JObj?)
      && (r.Some? ==> r.value == base["versions"].fields.Keys)
    ensures !Given(specificLang) && !Given(inputFile) ==>
      && (r.Some? <==> "versions" in versionData)
      && (r.Some? ==> r.value == Found(versionData).Keys)
  {
    if Given(specificLang) then Some({specificLang.value})
    else if Given(inputFile) then
      if base["versions"].JObj? then Some(base["versions"].fields.Keys) else None
    else if "versions" in versionData then Some(versionData["versions"].fields.Keys)
    else None
  }

  /** The list a language's matrix holds: a version string becomes a one-element list; anything else is kept. */
  function Wrapped(v: Json): (w: Json)
    ensures v.JStr? ==> w.JArr? && w.items == [v]
    ensures !v.JStr? ==> w == v
    ensures v.JStr? || v.JArr? ==> w.JArr?
  {
    if v.JStr? then JArr([v]) else v
  }

  /**
   * One language's matrix: a copy of the base whose "versions" holds that
   * language alone; every other key is the base's.
   */
  function MatrixFor(base: Doc, lang: string, v: Json): (m: Doc)
    ensures m.Keys == base.Keys + {"versions"}
    ensures m["versions"].JObj? && m["versions"].fields.Keys == {lang}
    ensures m["versions"].fields[lang] == Wrapped(v)
    ensures forall k :: k in base && k != "versions" ==> m[k] == base[k]
  {
    base["versions" := JObj(map[lang := Wrapped(v)])]
  }

  /** The matrices of the processed languages that have a fetched version. */
  function Matrices(base: Doc, languages: set<string>, found: map<string, Json>): (r: map<string, Doc>)
    ensures r.Keys == languages * found.Keys
    ensures forall l :: l in r ==> r[l] == MatrixFor(base, l, found[l])
  {
    map l | l in languages * found.Keys :: MatrixFor(base, l, found[l])
  }

  /** Processing one more language adds its matrix when it has a version, and nothing otherwise. */
  lemma MatricesStep(base: Doc, done: set<string>, found: map<string, Json>, lang: string)
    requires lang !in done
    ensures lang !in Matrices(base, done, found)
    ensures lang !in found ==> Matrices(base, done + {lang}, found) == Matrices(base, done, found)
    ensures lang in found ==>
      Matrices(base, done + {lang}, found) == Matrices(base, done, found)[lang := MatrixFor(base, lang, found[lang])]
  {
    if lang in found {
      MatricesAdd(base, done, found, lang);
    } else {
      assert Matrices(base, done + {lang}, found).Keys == Matrices(base, done, found).Keys;
    }
  }

  lemma MatricesAdd(base: Doc, done: set<string>, found: map<string, Json>, lang: string)
    requires lang !in done && lang in found
    ensures Matrices(base, done + {lang}, found) == Matrices(base, done, found)[lang := MatrixFor(base, lang, found[lang])]
  {
    var n := Matrices(base, done + {lang}, found);
    var e := Matrices(base, done, found)[lang := MatrixFor(base, lang, found[lang])];
    assert n.Keys == e.Keys;
    forall l | l in n
      ensures n[l] == e[l]
    {
    }
  }

  /** `generate_matrix_json`'s result, `None` when it raises. */
  function Generated(versionData: Doc, specificLang: Option<string>, inputFile: Option<string>,
                     files: string -> FileState): (r: Option<map<string, Doc>>)
    requires FetcherShaped(versionData)
    ensures r.Some? ==> r.value.Keys <= Found(versionData).Keys
    ensures r.Some? && Given(specificLang) ==> r.value.Keys <= {specificLang.value}
  {
    match BaseMatrix(inputFile, files)
    case None => None
    case Some(base) =>
      match LanguagesToProcess(specificLang, inputFile, base, versionData)
      case None => None
      case Some(languages) => Some(Matrices(base, languages, Found(versionData)))
  }

  /** The file name under the output directory: per language when one language is asked for. */
  function OutputName(specificLang: Option<string>, lang: string): string
  {
    if Given(specificLang) then lang + "_project_matrix.json" else "matrix-stable.json"
  }

  /** With neither a language nor an input file, every fetched language gets its matrix. */
  lemma EveryFetchedLanguage(outcomes: seq<LegacyOutcome>, files: string -> FileState)
    requires |outcomes| == |Languages| && FirstRaised(outcomes).None?
    ensures var versionData := FetchAllVersions(StableType, outcomes);
      && FetcherShaped(versionData)
      && var r := Generated(versionData, None, None, files);
      && r.Some? && r.value.Keys == versionData["versions"].fields.Keys
  {
    var versionData := FetchAllVersions(StableType, outcomes);
    FetchedShape(outcomes);
    FetchedVersions(versionData, files);
  }

  /** The same, for any document holding "versions". */
  lemma FetchedVersions(versionData: Doc, files: string -> FileState)
    requires FetcherShaped(versionData) && "versions" in versionData
    ensures var r := Generated(versionData, None, None, files);
      r.Some? && r.value.Keys == versionData["versions"].fields.Keys
  {
    var languages := LanguagesToProcess(None, None, DefaultMatrix, versionData);
    assert languages == Some(Found(versionData).Keys);
  }

  /** A requested language gets a matrix exactly when a version was fetched for it. */
  lemma RequestedLanguage(versionData: Doc, lang: string, inputFile: Option<string>, files: string -> FileState)
    requires FetcherShaped(versionData) && lang != ""
    requires BaseMatrix(inputFile, files).Some?
    ensures var r := Generated(versionData, Some(lang), inputFile, files);
      && r.Some?
      && (lang in r.value <==> lang in Found(versionData))
      && (lang in r.value ==> r.value[lang]["versions"].fields == map[lang := Wrapped(Found(versionData)[lang])])
  {
  }

  /**
   * With an input file and no language, the languages are those the file's
   * "versions" names: a file without "versions" yields no matrix at all.
   */
  lemma InputFileLanguages(versionData: Doc, inputFile: string, files: string -> FileState)
    requires FetcherShaped(versionData) && inputFile != "" && files(inputFile).Holds?
    ensures var doc := files(inputFile).doc;
      var r := Generated(versionData, None, Some(inputFile), files);
      && ("versions" !in doc ==> r == Some(map[]))
      && ("versions" in doc && doc["versions"].JObj? ==>
            r.Some? && r.value.Keys == doc["versions"].fields.Keys * Found(versionData).Keys)
      && ("versions" in doc && !doc["versions"].JObj? ==> r.None?)
  {
    var doc := files(inputFile).doc;
    var base := BaseMatrix(Some(inputFile), files).value;
    if "versions" !in doc {
      assert base["versions"] == JObj(map[]);
    } else {
      assert base["versions"] == doc["versions"];
    }
  }

  /**
   * When a fetcher raised, `fetch_all_versions` reports an error and no
   * matrix is produced: the function raises unless a language or an input
   * file is given, and then returns an empty result.
   */
  lemma FetchErrorYieldsNoMatrix(outcomes: seq<LegacyOutcome>, specificLang: Option<string>,
                                 inputFile: Option<string>, files: string -> FileState)
    requires |outcomes| == |Languages| && FirstRaised(outcomes).Some?
    ensures var versionData := FetchAllVersions(StableType, outcomes);
      && FetcherShaped(versionData)
      && var r := Generated(versionData, specificLang, inputFile, files);
      && (r.None? || r.value == map[])
      && (!Given(specificLang) && !Given(inputFile) ==> r.None?)
  {
    FetchedShape(outcomes);
    NoVersionsNoMatrix(FetchAllVersions(StableType, outcomes), specificLang, inputFile, files);
  }

  /** The same, for any document without "versions". */
  lemma NoVersionsNoMatrix(versionData: Doc, specificLang: Option<string>, inputFile: Option<string>,
                           files: string -> FileState)
    requires FetcherShaped(versionData) && "versions" !in versionData
    ensures var r := Generated(versionData, specificLang, inputFile, files);
      && (r.None? || r.value == map[])
      && (!Given(specificLang) && !Given(inputFile) ==> r.None?)
  {
    var r := Generated(versionData, specificLang, inputFile, files);
    if r.Some? {
      assert r.value.Keys == {};
    }
  }

  /** Where one language's matrix is written: the output directory's file, then the input file. */
  function Targets(outputDir: Option<string>, inputFile: Option<string>, specificLang: Option<string>,
                   lang: string): (ts: seq<string>)
    ensures |ts| == (if Given(outputDir) then 1 else 0) + (if Given(inputFile) then 1 else 0)
    ensures Given(inputFile) ==> ts[|ts| - 1] == inputFile.value
    ensures Given(outputDir) && Given(specificLang) ==> EndsWith(ts[0], lang + "_project_matrix.json")
    ensures Given(outputDir) && !Given(specificLang) ==> EndsWith(ts[0], "matrix-stable.json")
  {
    var name := OutputName(specificLang, lang);
    (if Given(outputDir) then [PathJoin(outputDir.value, name)] else [])
    + (if Given(inputFile) then [inputFile.value] else [])
  }

  /** Without a specific language every language goes to the same files. */
  lemma SharedTargets(outputDir: Option<string>, inputFile: Option<string>, specificLang: Option<string>,
                      l1: string, l2: string)
    requires !Given(specificLang)
    ensures Targets(outputDir, inputFile, specificLang, l1) == Targets(outputDir, inputFile, specificLang, l2)
  {
  }

  /** The writes and the matrices agree: each write holds its language's matrix, and each target got one. */
  ghost predicate WritesAgree(writes: seq<Write>, matrices: map<string, Doc>, outputDir: Option<string>,
                              inputFile: Option<string>, specificLang: Option<string>)
  {
    && (forall i :: 0 <= i < |writes| ==>
          && writes[i].lang in matrices
          && writes[i].matrix == matrices[writes[i].lang]
          && writes[i].path in Targets(outputDir, inputFile, specificLang, writes[i].lang))
    && (forall l, t :: l in matrices && t in Targets(outputDir, inputFile, specificLang, l) ==>
          Write(l, t, matrices[l]) in writes)
  }

  /** The writes one language's matrix gets, one per target. */
  function WritesFor(outputDir: Option<string>, inputFile: Option<string>, specificLang: Option<string>,
                     lang: string, matrix: Doc): (w: seq<Write>)
    ensures |w| == |Targets(outputDir, inputFile, specificLang, lang)|
    ensures forall i :: 0 <= i < |w| ==> w[i] == Write(lang, Targets(outputDir, inputFile, specificLang, lang)[i], matrix)
  {
    var name := OutputName(specificLang, lang);
    (if Given(outputDir) then [Write(lang, PathJoin(outputDir.value, name), matrix)] else [])
    + (if Given(inputFile) then [Write(lang, inputFile.value, matrix)] else [])
  }

  /** Recording a new language's writes keeps the writes and the matrices in agreement. */
  lemma AgreeStep(writes: seq<Write>, matrices: map<string, Doc>, outputDir: Option<string>,
                  inputFile: Option<string>, specificLang: Option<string>, lang: string, matrix: Doc)
    requires WritesAgree(writes, matrices, outputDir, inputFile, specificLang)
    requires lang !in matrices
    ensures WritesAgree(writes + WritesFor(outputDir, inputFile, specificLang, lang, matrix),
                        matrices[lang := matrix], outputDir, inputFile, specificLang)
  {
    var added := WritesFor(outputDir, inputFile, specificLang, lang, matrix);
    var all := writes + added;
    var m := matrices[lang := matrix];
    forall i | 0 <= i < |all|
      ensures all[i].lang in m && all[i].matrix == m[all[i].lang]
      ensures all[i].path in Targets(outputDir, inputFile, specificLang, all[i].lang)
    {
      if i < |writes| {
        assert all[i] == writes[i];
      } else {
        assert all[i] == added[i - |writes|];
      }
    }
    forall l, t | l in m && t in Targets(outputDir, inputFile, specificLang, l)
      ensures Write(l, t, m[l]) in all
    {
      if l == lang {
        var targets := Targets(outputDir, inputFile, specificLang, l);
        var k :| 0 <= k < |targets| && targets[k] == t;
        assert all[|writes| + k] == added[k];
      } else {
        assert Write(l, t, matrices[l]) in writes;
      }
    }
  }

  /**
   * `generate_matrix_json`: the fetched stable versions, the base matrix,
   * the language choice, then one matrix per language with a version.
   * `result` is `None` when the function raises; nothing is written then.
   */
  method GenerateMatrixJson(outcomes: seq<LegacyOutcome>, inputFile: Option<string>, outputDir: Option<string>,
                            specificLang: Option<string>, files: string -> FileState)
    returns (result: Option<map<string, Doc>>, writes: seq<Write>)
    requires |outcomes| == |Languages|
    ensures FetcherShaped(FetchAllVersions(StableType, outcomes))
    ensures result == Generated(FetchAllVersions(StableType, outcomes), specificLang, inputFile, files)
    ensures result.None? ==> writes == []
    ensures result.Some? ==> WritesAgree(writes, result.value, outputDir, inputFile, specificLang)
    ensures !Given(specificLang) ==> forall i, j :: 0 <= i < |writes| && 0 <= j < |writes| ==>
              writes[i].path in Targets(outputDir, inputFile, specificLang, writes[j].lang)
  {
    var versionData := FetchAllVersions(StableType, outcomes);
    FetchedShape(outcomes);
    var base := DefaultMatrix;
    if Given(inputFile) {
      match files(inputFile.value)
      case Holds(doc) =>
        base := base + doc;
      case Unparsable =>
        return None, [];
      case Absent =>
        if !HasDirectory(inputFile.value) {
          return None, [];
        }
    }
    assert BaseMatrix(inputFile, files) == Some(base);
    var languages := LanguagesToProcess(specificLang, inputFile, base, versionData);
    if languages.None? {
      return None, [];
    }
    var matrices;
    matrices, writes := Process(base, languages.value, Found(versionData), outputDir, inputFile, specificLang);
    result := Some(matrices);
    if !Given(specificLang) {
      WritesShareTargets(writes, matrices, outputDir, inputFile, specificLang);
    }
  }

  /** Without a specific language, every write goes to a target of every language written. */
  lemma WritesShareTargets(writes: seq<Write>, matrices: map<string, Doc>, outputDir: Option<string>,
                           inputFile: Option<string>, specificLang: Option<string>)
    requires !Given(specificLang) && WritesAgree(writes, matrices, outputDir, inputFile, specificLang)
    ensures forall i, j :: 0 <= i < |writes| && 0 <= j < |writes| ==>
              writes[i].path in Targets(outputDir, inputFile, specificLang, writes[j].lang)
  {
    forall i, j | 0 <= i < |writes| && 0 <= j < |writes|
      ensures writes[i].path in Targets(outputDir, inputFile, specificLang, writes[j].lang)
    {
      SharedTargets(outputDir, inputFile, specificLang, writes[i].lang, writes[j].lang);
    }
  }

  /** The loop over the languages: skip those without a version, build the matrix, write it, record it. */
  method Process(base: Doc, languages: set<string>, found: map<string, Json>, outputDir: Option<string>,
                 inputFile: Option<string>, specificLang: Option<string>)
    returns (matrices: map<string, Doc>, writes: seq<Write>)
    ensures matrices == Matrices(base, languages, found)
    ensures WritesAgree(writes, matrices, outputDir, inputFile, specificLang)
  {
    matrices := map[];
    writes := [];
    var remaining := languages;
    while remaining != {}
      invariant remaining <= languages
      invariant matrices == Matrices(base, languages - remaining, found)
      invariant WritesAgree(writes, matrices, outputDir, inputFile, specificLang)
      decreases remaining
    {
      var lang :| lang in remaining;
      MatricesStep(base, languages - remaining, found, lang);
      assert languages - (remaining - {lang}) == (languages - remaining) + {lang};
      remaining := remaining - {lang};
      if lang !in found {
        continue;
      }
      var matrix := base["versions" := JObj(map[lang := Wrapped(found[lang])])];
      AgreeStep(writes, matrices, outputDir, inputFile, specificLang, lang, matrix);
      writes := Save(writes, outputDir, inputFile, specificLang, lang, matrix);
      matrices := matrices[lang := matrix];
    }
    assert languages - remaining == languages;
  }

  /** The file saving of one iteration: the output directory's file, then the input file. */
  method Save(writes: seq<Write>, outputDir: Option<string>, inputFile: Option<string>,
              specificLang: Option<string>, lang: string, matrix: Doc)
    returns (after: seq<Write>)
    ensures after == writes + WritesFor(outputDir, inputFile, specificLang, lang, matrix)
  {
    after := writes;
    if Given(outputDir) {
      after := after + [Write(lang, PathJoin(outputDir.value, OutputName(specificLang, lang)), matrix)];
    }
    if Given(inputFile) {
      after := after + [Write(lang, inputFile.value, matrix)];
    }
  }
}
