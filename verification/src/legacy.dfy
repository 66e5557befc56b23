/**
 * What the five legacy fetchers (the `*_fetch.py` files of version/) share once their feed
 * is downloaded and decoded: the `VersionInfo` record they return, the
 * download's outcome as an input, what a descending sort guarantees about
 * its first entries, and the positions a `re.findall` scan reports.
 */
module Legacy {
  import opened Wrappers
  import opened Json
  import opened Text
  import opened SortKey

  /** The `VersionInfo` dataclass of the legacy fetchers. */
  datatype LegacyInfo = LegacyInfo(latest: Option<string>, stable: Option<string>, details: map<string, Json>)

  /**
   * The download: the decoded body with the response's `date` header, or
   * the exception raised (its message and its type's name).
   */
  datatype Response<T> = Fetched(body: T, fetchTime: Json) | Failed(msg: string, errorType: string)

  /** The `except` branch that records the error and its type. */
  function Failure(msg: string, errorType: string): LegacyInfo
  {
    LegacyInfo(None, None, map["error" := JStr(msg), "error_type" := JStr(errorType)])
  }

  /** The details every successful fetch starts from. */
  function Source(url: string, fetchTime: Json): map<string, Json>
  {
    map["source" := JStr(url), "fetch_time" := fetchTime]
  }

  /** The keys the fetchers store their details under differ from each other. */
  lemma DetailKeysDistinct()
    ensures "source" != "fetch_time" && "source" != "latest_info" && "source" != "stable_info"
    ensures "source" != "versions" && "source" != "version_branches" && "source" != "recent_versions"
    ensures "fetch_time" != "latest_info" && "fetch_time" != "stable_info" && "fetch_time" != "versions"
    ensures "fetch_time" != "version_branches" && "fetch_time" != "recent_versions"
    ensures "latest_info" != "stable_info" && "latest_info" != "versions" && "latest_info" != "version_branches"
    ensures "latest_info" != "recent_versions"
    ensures "stable_info" != "versions" && "stable_info" != "version_branches" && "stable_info" != "recent_versions"
    ensures "versions" != "version_branches" && "versions" != "recent_versions"
    ensures "version_branches" != "recent_versions"
  {
    assert "latest_info"[0] != "stable_info"[0];
  }

  // ------------------------------------------------------------ sort keys

  /** `int(p)` succeeds for every part of `v.split(".")`. */
  predicate IntParts(v: string)
  {
    var parts := Split(v, '.');
    forall i :: 0 <= i < |parts| ==> PyInt(parts[i]).Some?
  }

  /** `tuple(map(int, v.split(".")))`, or `(0, 0, 0)` when a part is not an integer. */
  function IntTupleKey(v: string): (k: Key)
    ensures forall i :: 0 <= i < |k| ==> k[i].Num?
    ensures IntParts(v) ==> k == IntsOf(Split(v, '.'))
    ensures !IntParts(v) ==> k == [Num(0), Num(0), Num(0)]
  {
    if IntParts(v) then IntsOf(Split(v, '.')) else [Num(0), Num(0), Num(0)]
  }

  /** The integers of parts that all parse. */
  function IntsOf(parts: seq<string>): (k: Key)
    requires forall i :: 0 <= i < |parts| ==> PyInt(parts[i]).Some?
    ensures |k| == |parts|
    ensures forall i :: 0 <= i < |k| ==> k[i] == Num(PyInt(parts[i]).value)
  {
    seq(|parts|, i requires 0 <= i < |parts| => Num(PyInt(parts[i]).value))
  }

  /** Tuples of integers never raise TypeError: any two are comparable, one way or the other. */
  lemma {:induction false} NumKeysTotal(a: Key, b: Key)
    requires forall i :: 0 <= i < |a| ==> a[i].Num?
    requires forall i :: 0 <= i < |b| ==> b[i].Num?
    ensures a == b || Lt(a, b) || Lt(b, a)
  {
    if a != [] && b != [] && a[0] == b[0] {
      NumKeysTotal(a[1..], b[1..]);
      CompareFlip(a, b);
    } else {
      CompareFlip(a, b);
    }
  }

  // ------------------------------------------------------ descending sorts

  /** Every element from position `k` on of a descending sort has a key no greater than the one at `k`. */
  lemma SortedHead<T>(r: seq<T>, key: T -> Key, k: nat, x: T)
    requires SortedBy(r, key, true) && k < |r| && x in r[k..]
    ensures !Lt(key(r[k]), key(x))
  {
    var j :| k <= j < |r| && r[j] == x;
    if j == k {
      LtIrreflexive(key(x));
    }
  }

  /** The second element of `SortBy(s, key, true)` has the greatest key once the first is removed. */
  lemma SortedSecond<T>(s: seq<T>, key: T -> Key)
    requires |s| > 1
    ensures var r := SortBy(s, key, true);
      && r[1] in multiset(s) - multiset{r[0]}
      && forall x :: x in multiset(s) - multiset{r[0]} ==> !Lt(key(r[1]), key(x))
  {
    var r := SortBy(s, key, true);
    assert r == [r[0]] + r[1..];
    assert multiset(s) - multiset{r[0]} == multiset(r[1..]);
    assert r[1] in r[1..];
    forall x | x in multiset(s) - multiset{r[0]}
      ensures !Lt(key(r[1]), key(x))
    {
      assert x in r[1..];
      SortedHead(r, key, 1, x);
    }
  }

  /** The first element of `SortBy(s, key, true)` has the greatest key of `s`. */
  lemma SortedTop<T>(s: seq<T>, key: T -> Key)
    requires s != []
    ensures var r := SortBy(s, key, true);
      r[0] in s && forall x :: x in s ==> !Lt(key(r[0]), key(x))
  {
    var r := SortBy(s, key, true);
    assert r[0] in multiset(r);
    forall x | x in s
      ensures !Lt(key(r[0]), key(x))
    {
      assert x in multiset(s);
      assert r[0..] == r;
      SortedHead(r, key, 0, x);
    }
  }

  /** `next((x for x in s if p(x)), None)`, as an index. */
  function FirstWhere<T>(s: seq<T>, p: T -> bool): (r: Option<nat>)
    ensures r.Some? ==> r.value < |s| && p(s[r.value]) && forall i :: 0 <= i < r.value ==> !p(s[i])
    ensures r.None? ==> forall i :: 0 <= i < |s| ==> !p(s[i])
  {
    if s == [] then None
    else if p(s[0]) then Some(0)
    else match FirstWhere(s[1..], p)
      case None => None
      case Some(k) => Some(k + 1)
  }

  /**
   * The first element satisfying `p` in a descending sort has the greatest
   * key among the elements of `s` satisfying `p`; there is one exactly when
   * some element of `s` satisfies `p`.
   */
  lemma SortedFirstWhere<T>(s: seq<T>, key: T -> Key, p: T -> bool)
    ensures var r := SortBy(s, key, true);
      && (FirstWhere(r, p).Some? <==> exists x :: x in s && p(x))
      && (FirstWhere(r, p).Some? ==>
            var k := FirstWhere(r, p).value;
            r[k] in s && forall x :: x in s && p(x) ==> !Lt(key(r[k]), key(x)))
  {
    var r := SortBy(s, key, true);
    match FirstWhere(r, p)
    case None =>
      forall x | x in s
        ensures !p(x)
      {
        assert x in multiset(r);
      }
    case Some(k) =>
      assert r[k] in multiset(r);
      forall x | x in s && p(x)
        ensures !Lt(key(r[k]), key(x))
      {
        assert x in multiset(r);
        var j :| 0 <= j < |r| && r[j] == x;
        assert r[j] in r[k..];
        SortedHead(r, key, k, x);
      }
  }

  // ------------------------------------------------------------ findall

  /** The end of the run of characters satisfying `p` that starts at `i`. */
  function RunEnd(s: string, i: nat, p: char -> bool): (e: nat)
    requires i <= |s|
    ensures i <= e <= |s|
    ensures forall j :: i <= j < e ==> p(s[j])
    ensures e == |s| || !p(s[e])
    decreases |s| - i
  {
    if i == |s| || !p(s[i]) then i else RunEnd(s, i + 1, p)
  }

  /**
   * The positions in `[from, n)` where `at` holds, in increasing order:
   * what `re.findall` reports for a pattern whose matches cannot overlap.
   */
  function Positions(n: nat, at: nat -> bool, from: nat): (ps: seq<nat>)
    ensures forall k :: 0 <= k < |ps| ==> from <= ps[k] < n && at(ps[k])
    ensures forall k, l :: 0 <= k < l < |ps| ==> ps[k] < ps[l]
    ensures forall i :: from <= i < n && at(i) ==> i in ps
    decreases n - from
  {
    if from >= n then []
    else if at(from) then [from] + Positions(n, at, from + 1)
    else Positions(n, at, from + 1)
  }
}
