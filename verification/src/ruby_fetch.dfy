/**
 * version/ruby_fetch.py after the download: the version lists of the
 * sections of ruby-lang.org's downloads.yml, found by pattern matching on
 * the text, and the latest and stable versions picked from them.
 */
module RubyFetch {
  import opened Wrappers
  import opened Json
  import opened Text
  import opened Legacy

  const Url: string := "https://raw.githubusercontent.com/ruby/www.ruby-lang.org/master/_data/downloads.yml"

  // ------------------------------------------------------------ patterns

  /** `\w` on ASCII text: a letter, a digit or '_'. */
  predicate IsWordChar(c: char)
  {
    'a' <= c <= 'z' || 'A' <= c <= 'Z' || '0' <= c <= '9' || c == '_'
  }

  /** `\n\w+:` matches at `p`: a newline, a word, a colon. */
  predicate HeaderAt(s: string, p: nat)
  {
    p + 1 < |s| && s[p] == '\n' &&
    var e := RunEnd(s, p + 1, IsWordChar);
    e > p + 1 && e < |s| && s[e] == ':'
  }

  /**
   * `:\s*\n\s+- \d+` matches at `i`: a colon, then a run of whitespace
   * holding a newline that is not its last character, then "- " and a digit.
   */
  predicate ListAt(s: string, i: nat)
  {
    i + 1 <= |s| && s[i] == ':' &&
    var e := RunEnd(s, i + 1, IsSpace);
    && e + 2 < |s| && s[e] == '-' && s[e + 1] == ' ' && IsDigit(s[e + 2])
    && exists k :: i + 1 <= k < e - 1 && s[k] == '\n'
  }

  /** `- (\d+\.\d+\.\d+)` matches at `i`. */
  predicate EntryAt(s: string, i: nat)
  {
    i + 2 <= |s| && s[i] == '-' && s[i + 1] == ' ' && TripleSplit(s[i + 2..]).Some?
  }

  /** The group the entry at `i` captures. */
  function VersionAt(s: string, i: nat): (v: string)
    requires EntryAt(s, i)
    ensures OccursAt(s, "- " + v, i)
    ensures TripleSplit(v).Some? && TripleSplit(v).value.3 == ""
    ensures i + 2 + |v| == |s| || !IsDigit(s[i + 2 + |v|])
  {
    var t := TripleSplit(s[i + 2..]).value;
    EntryText(s, i, t.0, t.1, t.2, t.3);
    t.0 + "." + t.1 + "." + t.2
  }

  lemma EntryText(s: string, i: nat, a: string, b: string, c: string, rest: string)
    requires i + 2 <= |s| && s[i] == '-' && s[i + 1] == ' '
    requires TripleSplit(s[i + 2..]) == Some((a, b, c, rest))
    ensures OccursAt(s, "- " + (a + "." + b + "." + c), i)
    ensures TripleSplit(a + "." + b + "." + c) == Some((a, b, c, ""))
    ensures var n := i + 2 + |a + "." + b + "." + c|; n == |s| || !IsDigit(s[n])
  {
    var v := a + "." + b + "." + c;
    assert s[i + 2..] == v + rest;
    if i + 2 + |v| < |s| {
      assert s[i + 2 + |v|] == rest[0];
    }
    Occurs(s, i, v, rest);
    assert IsTriple(a, b, c, "");
    TripleSplitOf(a, b, c, "");
    assert v + "" == v;
  }

  lemma Occurs(s: string, i: nat, v: string, rest: string)
    requires i + 2 <= |s| && s[i] == '-' && s[i + 1] == ' ' && s[i + 2..] == v + rest
    ensures OccursAt(s, "- " + v, i)
  {
    assert s[i..i + 2 + |v|] == s[i..i + 2] + s[i + 2..][..|v|];
    assert s[i + 2..][..|v|] == v;
    assert s[i..i + 2] == "- ";
  }

  /** The positions of the entries of `s`, in document order. */
  function EntryPositions(s: string): (ps: seq<nat>)
    ensures forall k :: 0 <= k < |ps| ==> ps[k] < |s| && EntryAt(s, ps[k])
    ensures forall k, l :: 0 <= k < l < |ps| ==> ps[k] < ps[l]
    ensures forall i :: 0 <= i < |s| && EntryAt(s, i) ==> i in ps
  {
    Positions(|s|, (i: nat) => EntryAt(s, i), 0)
  }

  /**
   * `re.findall(r"- (\d+\.\d+\.\d+)", s)`: the version of every entry, in
   * document order. Two entries cannot overlap, since a match holds no '-'
   * after its first character, so every position where the pattern matches
   * is reported.
   */
  function FindAll(s: string): (r: seq<string>)
    ensures |r| == |EntryPositions(s)|
    ensures forall k :: 0 <= k < |r| ==> r[k] == VersionAt(s, EntryPositions(s)[k])
  {
    var ps := EntryPositions(s);
    seq(|ps|, k requires 0 <= k < |ps| => VersionAt(s, ps[k]))
  }

  // ------------------------------------------------------------ sections

  /**
   * The text of a section: from the first "<section>:" to the next
   * `\n\w+:` after that header, or to the end; `None` when the header does
   * not occur.
   */
  function SectionContent(content: string, section: string): (r: Option<string>)
    ensures Find(content, section + ":").None? <==> r.None?
    ensures r.Some? ==>
      var start := Find(content, section + ":").value;
      var after := start + |section| + 1;
      && after <= |content|
      && exists end :: after <= end <= |content| && r.value == content[start..end] &&
                       SectionEnd(content[after..], end - after)
  {
    match Find(content, section + ":")
    case None => None
    case Some(start) =>
      var after := start + |section| + 1;
      var rest := content[after..];
      var headers := Headers(rest);
      var end := if headers != [] then headers[0] + after else |content|;
      assert SectionEnd(rest, end - after);
      Some(content[start..end])
  }

  /**
   * `e` is where `re.search(r"\n\w+:", rest)` starts: the first header
   * position, or the length of `rest` when there is none.
   */
  predicate SectionEnd(rest: string, e: nat)
  {
    || (e == |rest| && forall q :: 0 <= q < |rest| ==> !HeaderAt(rest, q))
    || (e < |rest| && HeaderAt(rest, e) && forall q :: 0 <= q < e ==> !HeaderAt(rest, q))
  }

  /** The positions where a header starts, in increasing order. */
  function Headers(rest: string): (ps: seq<nat>)
    ensures forall k :: 0 <= k < |ps| ==> ps[k] < |rest| && HeaderAt(rest, ps[k])
    ensures ps != [] ==> forall q :: 0 <= q < ps[0] ==> !HeaderAt(rest, q)
    ensures ps == [] ==> forall q :: 0 <= q < |rest| ==> !HeaderAt(rest, q)
  {
    var ps := Positions(|rest|, HeaderTest(rest), 0);
    FirstPosition(|rest|, HeaderTest(rest), ps);
    ps
  }

  /** `\n\w+:` matches at a position of `rest`. */
  function HeaderTest(rest: string): (t: nat -> bool)
    ensures forall p: nat :: t(p) == HeaderAt(rest, p)
  {
    (p: nat) => HeaderAt(rest, p)
  }

  /** Nothing before the first of the increasing positions satisfies the test. */
  lemma FirstPosition(n: nat, at: nat -> bool, ps: seq<nat>)
    requires forall k :: 0 <= k < |ps| ==> ps[k] < n
    requires forall k, l :: 0 <= k < l < |ps| ==> ps[k] < ps[l]
    requires forall i :: 0 <= i < n && at(i) ==> i in ps
    ensures ps != [] ==> forall q :: 0 <= q < ps[0] ==> !at(q)
    ensures ps == [] ==> forall q :: 0 <= q < n ==> !at(q)
  {
    if ps != [] {
      forall q | 0 <= q < ps[0]
        ensures q !in ps
      {
        forall k | 0 <= k < |ps|
          ensures ps[k] != q
        {
          assert ps[0] <= ps[k];
        }
      }
    }
  }

  /**
   * `extract_versions_from_section`: nothing when the header is missing or
   * the section holds no list of versions; otherwise every "- X.Y.Z" entry
   * of the section, each exactly three digit runs joined by dots.
   */
  function ExtractVersionsFromSection(content: string, section: string): (r: seq<string>)
    ensures Find(content, section + ":").None? ==> r == []
    ensures SectionContent(content, section).Some? && HasList(SectionContent(content, section).value) ==>
      r == FindAll(SectionContent(content, section).value)
    ensures SectionContent(content, section).Some? && !HasList(SectionContent(content, section).value) ==> r == []
    ensures r != [] ==>
      && SectionContent(content, section).Some?
      && HasList(SectionContent(content, section).value)
      && r == FindAll(SectionContent(content, section).value)
    ensures forall k :: 0 <= k < |r| ==> TripleSplit(r[k]).Some? && TripleSplit(r[k]).value.3 == ""
    ensures forall k :: 0 <= k < |r| ==> InSection(content, section, r[k])
  {
    match SectionContent(content, section)
    case None => []
    case Some(sc) =>
      if HasList(sc) then
        var r := FindAll(sc);
        EntriesInContent(content, section, r);
        r
      else []
  }

  /** `re.search(r":\s*\n\s+- \d+", sc)` finds a match. */
  predicate HasList(sc: string)
  {
    exists i :: 0 <= i < |sc| && ListAt(sc, i)
  }

  /** "- v" occurs in the text at or after the section's header. */
  ghost predicate InSection(content: string, section: string, v: string)
  {
    Find(content, section + ":").Some? &&
    exists i :: Find(content, section + ":").value <= i && OccursAt(content, "- " + v, i)
  }

  /** Each entry of the section occurs in the whole text, after the header. */
  lemma EntriesInContent(content: string, section: string, r: seq<string>)
    requires SectionContent(content, section).Some? && r == FindAll(SectionContent(content, section).value)
    ensures forall k :: 0 <= k < |r| ==> InSection(content, section, r[k])
  {
    var sc := SectionContent(content, section).value;
    var start := Find(content, section + ":").value;
    var end :| start <= end <= |content| && sc == content[start..end];
    forall k | 0 <= k < |r|
      ensures InSection(content, section, r[k])
    {
      var p := EntryPositions(sc)[k];
      SliceOccurs(content, start, end, p, "- " + r[k]);
    }
  }

  /** What occurs in a slice occurs in the whole text, shifted by the slice's start. */
  lemma SliceOccurs(content: string, start: nat, end: nat, p: nat, w: string)
    requires start <= end <= |content| && OccursAt(content[start..end], w, p)
    ensures OccursAt(content, w, start + p)
  {
    var sc := content[start..end];
    assert p + |w| <= |sc|;
    forall j | 0 <= j < |w|
      ensures content[start + p + j] == w[j]
    {
      assert sc[p..p + |w|][j] == w[j];
    }
    assert content[start + p..start + p + |w|] == w;
  }

  // ------------------------------------------------------------ fetch

  /** `"\n".join(content.split("\n")[:15])`: the first fifteen lines. */
  function ContentPreview(content: string): string
  {
    Join(PyPrefix(Split(content, '\n'), 15), "\n")
  }

  /** What "latest_info" holds: the version and the section it came from. */
  function PickInfo(version: string, kind: string): Json
  {
    JObj(map["version" := JStr(version), "type" := JStr(kind)])
  }

  /** What "stable_info" holds: the first stable version and the whole stable list. */
  function StableInfo(stable: seq<string>): Json
    requires stable != []
  {
    JObj(map["version" := JStr(stable[0]), "type" := JStr("stable"), "all_stable" := StrList(stable)])
  }

  /**
   * `fetch_ruby_versions` once the text is downloaded: the four sections'
   * lists are stored; the latest is the first preview version, else the
   * first stable one; the stable is the first stable version, absent when
   * the stable section lists none. A failed download leaves the error and
   * its type.
   */
  method FetchRubyVersions(response: Response<string>) returns (info: LegacyInfo)
    ensures response.Failed? ==> info == Failure(response.msg, response.errorType)
    ensures response.Fetched? ==>
      var content := response.body;
      var preview := ExtractVersionsFromSection(content, "preview");
      var stable := ExtractVersionsFromSection(content, "stable");
      && SectionsStored(info.details, response.fetchTime, content)
      && (info.latest.Some? <==> preview != [] || stable != [])
      && (preview != [] ==>
            info.latest == Some(preview[0]) && Get(info.details, "latest_info") == PickInfo(preview[0], "preview"))
      && (preview == [] && stable != [] ==>
            info.latest == Some(stable[0]) && Get(info.details, "latest_info") == PickInfo(stable[0], "stable"))
      && (info.stable.Some? <==> stable != [])
      && (stable != [] ==> info.stable == Some(stable[0]) && Get(info.details, "stable_info") == StableInfo(stable))
      && (preview == [] && stable == [] ==> "latest_info" !in info.details && "stable_info" !in info.details)
  {
    if response.Failed? {
      return Failure(response.msg, response.errorType);
    }
    var content := response.body;
    var previewVersions := ExtractVersionsFromSection(content, "preview");
    var stableVersions := ExtractVersionsFromSection(content, "stable");
    var securityVersions := ExtractVersionsFromSection(content, "security_maintenance");
    var eolVersions := ExtractVersionsFromSection(content, "eol");
    FirstVersionGiven(content, "preview");
    var details := SectionDetails(response.fetchTime, content, previewVersions, stableVersions,
                                  securityVersions, eolVersions);
    info := Pick(previewVersions, stableVersions, details);
    StoredKept(details, info.details, response.fetchTime, content);
  }

  /** The details hold the source, the preview of the text and the four sections' lists. */
  predicate SectionsStored(d: map<string, Json>, fetchTime: Json, content: string)
  {
    && Get(d, "source") == JStr(Url) && Get(d, "fetch_time") == fetchTime
    && Get(d, "content_preview") == JStr(ContentPreview(content))
    && Get(d, "preview_versions") == StrList(ExtractVersionsFromSection(content, "preview"))
    && Get(d, "stable_versions") == StrList(ExtractVersionsFromSection(content, "stable"))
    && Get(d, "security_maintenance_versions") == StrList(ExtractVersionsFromSection(content, "security_maintenance"))
    && Get(d, "eol_versions") == StrList(ExtractVersionsFromSection(content, "eol"))
  }

  /** Adding "latest_info" and "stable_info" keeps what the sections stored. */
  lemma StoredKept(before: map<string, Json>, after: map<string, Json>, fetchTime: Json, content: string)
    requires SectionsStored(before, fetchTime, content)
    requires forall k :: k != "latest_info" && k != "stable_info" ==> Get(after, k) == Get(before, k)
    ensures SectionsStored(after, fetchTime, content)
  {
    assert Get(after, "source") == Get(before, "source");
    assert Get(after, "fetch_time") == Get(before, "fetch_time");
    assert Get(after, "content_preview") == Get(before, "content_preview");
    assert Get(after, "preview_versions") == Get(before, "preview_versions");
    assert Get(after, "stable_versions") == Get(before, "stable_versions");
    assert Get(after, "security_maintenance_versions") == Get(before, "security_maintenance_versions");
    assert Get(after, "eol_versions") == Get(before, "eol_versions");
  }

  /** An extracted version is never empty: it holds two dots. */
  lemma FirstVersionGiven(content: string, section: string)
    ensures var vs := ExtractVersionsFromSection(content, section);
      vs != [] ==> vs[0] != ""
  {
    var vs := ExtractVersionsFromSection(content, section);
    if vs != [] {
      assert TripleSplit(vs[0]).Some?;
      var t := TripleSplit(vs[0]).value;
      assert vs[0] == t.0 + "." + t.1 + "." + t.2 + t.3;
    }
  }

  /** The details before the picks: the source, the preview of the text and the four lists. */
  function SectionDetails(fetchTime: Json, content: string, preview: seq<string>, stable: seq<string>,
                          security: seq<string>, eol: seq<string>): (d: map<string, Json>)
    ensures Get(d, "source") == JStr(Url) && Get(d, "fetch_time") == fetchTime
    ensures Get(d, "content_preview") == JStr(ContentPreview(content))
    ensures Get(d, "preview_versions") == StrList(preview) && Get(d, "stable_versions") == StrList(stable)
    ensures Get(d, "security_maintenance_versions") == StrList(security) && Get(d, "eol_versions") == StrList(eol)
    ensures "latest_info" !in d && "stable_info" !in d
  {
    Source(Url, fetchTime)["content_preview" := JStr(ContentPreview(content))]
      ["preview_versions" := StrList(preview)]
      ["stable_versions" := StrList(stable)]
      ["security_maintenance_versions" := StrList(security)]
      ["eol_versions" := StrList(eol)]
  }

  /** The two picks, and the details they add. */
  method Pick(preview: seq<string>, stable: seq<string>, details: map<string, Json>) returns (info: LegacyInfo)
    requires preview != [] ==> preview[0] != ""
    ensures forall k :: k != "latest_info" && k != "stable_info" ==> Get(info.details, k) == Get(details, k)
    ensures info.latest.Some? <==> preview != [] || stable != []
    ensures preview != [] ==>
      info.latest == Some(preview[0]) && Get(info.details, "latest_info") == PickInfo(preview[0], "preview")
    ensures preview == [] && stable != [] ==>
      info.latest == Some(stable[0]) && Get(info.details, "latest_info") == PickInfo(stable[0], "stable")
    ensures info.stable.Some? <==> stable != []
    ensures stable != [] ==> info.stable == Some(stable[0]) && Get(info.details, "stable_info") == StableInfo(stable)
    ensures preview == [] && stable == [] ==> info.details == details
  {
    var after := details;
    var latestVersion: Option<string> := None;
    var stableVersion: Option<string> := None;
    if preview != [] {
      latestVersion := Some(preview[0]);
      after := after["latest_info" := PickInfo(preview[0], "preview")];
    }
    if stable != [] {
      stableVersion := Some(stable[0]);
      after := after["stable_info" := StableInfo(stable)];
      if !Given(latestVersion) {
        latestVersion := stableVersion;
        after := after["latest_info" := PickInfo(stable[0], "stable")];
      }
    }
    info := LegacyInfo(latestVersion, stableVersion, after);
  }
}
