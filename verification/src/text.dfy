/**
 * The Python `str` operations the tool relies on, over `seq<char>`.
 * Case mapping, digits and word characters are the ASCII ones; the
 * whitespace set is the one `str.isspace` uses.
 */
module Text {
  import opened Wrappers

  // ---------------------------------------------------------------- case

  predicate IsUpper(c: char) { 'A' <= c <= 'Z' }

  function LowerChar(c: char): char
  {
    if IsUpper(c) then (c as int + 32) as char else c
  }

  /** `str.lower()` */
  function Lower(s: string): (r: string)
    ensures |r| == |s|
    ensures forall i :: 0 <= i < |s| ==> r[i] == LowerChar(s[i])
    ensures NoUpper(r)
  {
    seq(|s|, i requires 0 <= i < |s| => LowerChar(s[i]))
  }

  predicate NoUpper(s: string)
  {
    forall i :: 0 <= i < |s| ==> !IsUpper(s[i])
  }

  // ------------------------------------------------------- substrings

  /** `str.startswith(p)` */
  predicate StartsWith(s: string, p: string)
  {
    |p| <= |s| && s[..|p|] == p
  }

  /** `str.endswith(p)` */
  predicate EndsWith(s: string, p: string)
  {
    |p| <= |s| && s[|s| - |p|..] == p
  }

  predicate OccursAt(s: string, sub: string, i: int)
  {
    0 <= i && i + |sub| <= |s| && s[i..i + |sub|] == sub
  }

  /** `sub in s` */
  predicate Contains(s: string, sub: string)
  {
    exists i | 0 <= i <= |s| - |sub| :: OccursAt(s, sub, i)
  }

  /** `any(x in s for x in subs)` */
  predicate ContainsAny(s: string, subs: seq<string>)
  {
    exists k | 0 <= k < |subs| :: Contains(s, subs[k])
  }

  /** What a slice of `s` contains, `s` contains. */
  lemma ContainsSlice(s: string, lo: nat, hi: nat, sub: string)
    requires lo <= hi <= |s| && Contains(s[lo..hi], sub)
    ensures Contains(s, sub)
  {
    var i :| 0 <= i <= |s[lo..hi]| - |sub| && OccursAt(s[lo..hi], sub, i);
    forall j | 0 <= j < |sub|
      ensures s[lo + i + j] == sub[j]
    {
      assert s[lo..hi][i..i + |sub|][j] == sub[j];
    }
    assert s[lo + i..lo + i + |sub|] == sub;
    assert OccursAt(s, sub, lo + i);
  }

  /** Containment is transitive. */
  lemma ContainsTrans(s: string, m: string, n: string)
    requires Contains(s, m) && Contains(m, n)
    ensures Contains(s, n)
  {
    var i :| 0 <= i <= |s| - |m| && OccursAt(s, m, i);
    assert s[i..i + |m|] == m;
    ContainsSlice(s, i, i + |m|, n);
  }

  /** A string containing no `[c]` does not contain the character `c`. */
  lemma CharNotIn(s: string, c: char)
    requires !Contains(s, [c])
    ensures c !in s
  {
    if c in s {
      var i :| 0 <= i < |s| && s[i] == c;
      assert OccursAt(s, [c], i);
    }
  }

  /** `str.find(sub)`: the first index where `sub` occurs. */
  function Find(s: string, sub: string): (r: Option<nat>)
    ensures r.Some? ==> OccursAt(s, sub, r.value)
    ensures r.Some? ==> forall j :: 0 <= j < r.value ==> !OccursAt(s, sub, j)
    ensures r.None? ==> forall j :: 0 <= j ==> !OccursAt(s, sub, j)
    decreases |s|
  {
    if |s| < |sub| then None
    else if s[..|sub|] == sub then Some(0)
    else
      match Find(s[1..], sub)
      case None =>
        assert forall j :: 1 <= j ==> (OccursAt(s, sub, j) <==> OccursAt(s[1..], sub, j - 1));
        None
      case Some(k) =>
        assert forall j :: 1 <= j ==> (OccursAt(s, sub, j) <==> OccursAt(s[1..], sub, j - 1));
        Some(k + 1)
  }

  // ------------------------------------------------------ split / join

  function Count(s: string, c: char): nat
  {
    if s == [] then 0 else (if s[0] == c then 1 else 0) + Count(s[1..], c)
  }

  lemma {:induction false} CountConcat(s: string, t: string, c: char)
    ensures Count(s + t, c) == Count(s, c) + Count(t, c)
  {
    if s != [] {
      assert (s + t)[0] == s[0] && (s + t)[1..] == s[1..] + t;
      CountConcat(s[1..], t, c);
    } else {
      assert s + t == t;
    }
  }

  lemma {:induction false} CountAbsent(s: string, c: char)
    requires c !in s
    ensures Count(s, c) == 0
  {
    if s != [] {
      CountAbsent(s[1..], c);
    }
  }

  /** A string lacking one of the characters of `sub` does not contain `sub`. */
  lemma CharAbsent(s: string, sub: string, c: char)
    requires c in sub && c !in s
    ensures !Contains(s, sub)
  {
    var j :| 0 <= j < |sub| && sub[j] == c;
    forall i | 0 <= i <= |s| - |sub|
      ensures !OccursAt(s, sub, i)
    {
      assert s[i..i + |sub|][j] == s[i + j] != c;
    }
  }

  /** `str.split(c)` with a one-character separator. */
  function Split(s: string, c: char): (r: seq<string>)
    ensures |r| == Count(s, c) + 1
    ensures forall k :: 0 <= k < |r| ==> c !in r[k]
  {
    if s == [] then [""]
    else
      var rest := Split(s[1..], c);
      if s[0] == c then [""] + rest else [[s[0]] + rest[0]] + rest[1..]
  }

  /** `sep.join(parts)` */
  function Join(parts: seq<string>, sep: string): string
  {
    if parts == [] then ""
    else if |parts| == 1 then parts[0]
    else parts[0] + sep + Join(parts[1..], sep)
  }

  lemma {:induction false} JoinSplit(s: string, c: char)
    ensures Join(Split(s, c), [c]) == s
  {
    if s != [] {
      JoinSplit(s[1..], c);
      var rest := Split(s[1..], c);
      if s[0] == c {
        assert Split(s, c) == [""] + rest;
      } else {
        assert Split(s, c) == [[s[0]] + rest[0]] + rest[1..];
        if |rest| > 1 {
          assert Join(rest, [c]) == rest[0] + [c] + Join(rest[1..], [c]);
        }
      }
    }
  }

  // ---------------------------------------------------------- replace

  /** `str.replace(a, b)` for one-character arguments. */
  function ReplaceChar(s: string, a: char, b: char): (r: string)
    ensures |r| == |s|
    ensures forall i :: 0 <= i < |s| ==> r[i] == (if s[i] == a then b else s[i])
    ensures a != b ==> a !in r
  {
    seq(|s|, i requires 0 <= i < |s| => if s[i] == a then b else s[i])
  }

  /**
   * `str.replace(pat, rep)`: leftmost, non-overlapping occurrences. Text
   * without the pattern comes back unchanged, and a replacement no longer
   * than the pattern never lengthens the text.
   */
  function Replace(s: string, pat: string, rep: string): (r: string)
    requires pat != []
    ensures !Contains(s, pat) ==> r == s
    ensures |rep| <= |pat| ==> |r| <= |s|
    decreases |s|
  {
    if |s| < |pat| then s
    else if s[..|pat|] == pat then
      assert OccursAt(s, pat, 0);
      rep + Replace(s[|pat|..], pat, rep)
    else
      ShiftOccurs(s, pat);
      [s[0]] + Replace(s[1..], pat, rep)
  }

  /** `replace` against `find`: without an occurrence the text comes back unchanged. */
  lemma ReplaceNoFind(s: string, pat: string, rep: string)
    requires pat != [] && Find(s, pat).None?
    ensures Replace(s, pat, rep) == s
  {
  }

  /**
   * `replace` against `find`: the text before the first occurrence is kept,
   * that occurrence becomes `rep`, and the replacing goes on after it.
   */
  lemma ReplaceAtFind(s: string, pat: string, rep: string, i: nat)
    requires pat != [] && Find(s, pat) == Some(i)
    ensures i + |pat| <= |s|
    ensures Replace(s, pat, rep) == s[..i] + rep + Replace(s[i + |pat|..], pat, rep)
  {
    assert OccursAt(s, pat, i);
    SplitAround(s, pat, i);
    ReplaceSplit(s[..i], s[i + |pat|..], pat, rep);
  }

  lemma SplitAround(s: string, sub: string, i: nat)
    requires OccursAt(s, sub, i)
    ensures s == s[..i] + sub + s[i + |sub|..]
  {
    assert s == s[..i] + s[i..i + |sub|] + s[i + |sub|..];
  }

  /** The text split around the first occurrence of the pattern. */
  lemma {:induction false} ReplaceSplit(pre: string, post: string, pat: string, rep: string)
    requires pat != [] && Find(pre + pat + post, pat) == Some(|pre|)
    ensures Replace(pre + pat + post, pat, rep) == pre + rep + Replace(post, pat, rep)
    decreases |pre|
  {
    var s := pre + pat + post;
    FindStep(s, pat, |pre|);
    if pre == [] {
      assert s == pat + post && s[|pat|..] == post;
      ReplaceFront(s, pat, rep);
    } else {
      assert s[1..] == pre[1..] + pat + post;
      ReplaceSplit(pre[1..], post, pat, rep);
      ReplaceBehind(s, pat, rep);
      ConsConcat(pre, rep, Replace(post, pat, rep));
    }
  }

  lemma ConsConcat<T>(pre: seq<T>, rep: seq<T>, rest: seq<T>)
    requires pre != []
    ensures [pre[0]] + (pre[1..] + rep + rest) == pre + rep + rest
  {
    assert pre == [pre[0]] + pre[1..];
  }

  /** One step of `find`: where the answer comes from. */
  lemma FindStep(s: string, sub: string, i: nat)
    requires Find(s, sub) == Some(i)
    ensures |sub| <= |s|
    ensures i == 0 <==> s[..|sub|] == sub
    ensures i > 0 ==> Find(s[1..], sub) == Some(i - 1)
  {
  }

  /** An occurrence at the front is replaced, and the replacing goes on after it. */
  lemma ReplaceFront(s: string, pat: string, rep: string)
    requires pat != [] && |pat| <= |s| && s[..|pat|] == pat
    ensures Replace(s, pat, rep) == rep + Replace(s[|pat|..], pat, rep)
  {
  }

  /** No occurrence at the front: the first character is kept. */
  lemma ReplaceBehind(s: string, pat: string, rep: string)
    requires pat != [] && |pat| <= |s| && s[..|pat|] != pat
    ensures Replace(s, pat, rep) == [s[0]] + Replace(s[1..], pat, rep)
  {
  }

  /** An occurrence in the tail is an occurrence in the whole, one place on. */
  lemma ShiftOccurs(s: string, pat: string)
    requires s != []
    ensures Contains(s[1..], pat) ==> Contains(s, pat)
  {
    if Contains(s[1..], pat) {
      var i :| 0 <= i <= |s[1..]| - |pat| && OccursAt(s[1..], pat, i);
      assert s[1..][i..i + |pat|] == s[i + 1..i + 1 + |pat|];
      assert OccursAt(s, pat, i + 1);
    }
  }

  /** A truthy optional string: present and not empty. */
  predicate Given(o: Option<string>)
  {
    o.Some? && o.value != ""
  }

  // ------------------------------------------------------- whitespace

  /** The characters `str.isspace` accepts. */
  predicate IsSpace(c: char)
  {
    || c == ' ' || '\t' <= c <= '\r' || '\U{1c}' <= c <= '\U{1f}'
    || c == '\U{85}' || c == '\U{a0}' || c == '\U{1680}'
    || '\U{2000}' <= c <= '\U{200a}' || c == '\U{2028}' || c == '\U{2029}'
    || c == '\U{202f}' || c == '\U{205f}' || c == '\U{3000}'
  }

  /** `str.lstrip(chars)` with the characters given as a predicate. */
  function LStripBy(s: string, drop: char -> bool): (r: string)
    ensures |r| <= |s| && r == s[|s| - |r|..]
    ensures r == [] || !drop(r[0])
    ensures forall i :: 0 <= i < |s| - |r| ==> drop(s[i])
  {
    if s != [] && drop(s[0]) then LStripBy(s[1..], drop) else s
  }

  function RStripBy(s: string, drop: char -> bool): (r: string)
    ensures |r| <= |s| && r == s[..|r|]
    ensures r == [] || !drop(r[|r| - 1])
    ensures forall i :: |r| <= i < |s| ==> drop(s[i])
  {
    if s != [] && drop(s[|s| - 1]) then RStripBy(s[..|s| - 1], drop) else s
  }

  /** `str.lstrip(chars)` */
  function LStrip(s: string, chars: set<char>): (r: string)
    ensures |r| <= |s| && r == s[|s| - |r|..]
    ensures r == [] || r[0] !in chars
    ensures forall i :: 0 <= i < |s| - |r| ==> s[i] in chars
  {
    LStripBy(s, c => c in chars)
  }

  /** `lstrip` drops a leading character of the set and goes on with the rest. */
  lemma LStripStep(s: string, chars: set<char>)
    requires s != [] && s[0] in chars
    ensures LStrip(s, chars) == LStrip(s[1..], chars)
  {
  }

  /** `lstrip` stops at a leading character outside the set. */
  lemma LStripStop(s: string, chars: set<char>)
    requires s != [] && s[0] !in chars
    ensures LStrip(s, chars) == s
  {
  }

  /** `lstrip` removes a whole run of characters of the set, up to the first one outside it. */
  lemma {:induction false} LStripRun(p: string, d: string, chars: set<char>)
    requires forall i :: 0 <= i < |p| ==> p[i] in chars
    requires d != [] && d[0] !in chars
    ensures LStrip(p + d, chars) == d
  {
    if p == [] {
      assert p + d == d;
      LStripStop(d, chars);
    } else {
      assert (p + d)[1..] == p[1..] + d;
      LStripStep(p + d, chars);
      LStripRun(p[1..], d, chars);
    }
  }

  /** `str.strip()` */
  function Strip(s: string): (r: string)
    ensures r == [] || (!IsSpace(r[0]) && !IsSpace(r[|r| - 1]))
    ensures |r| <= |s|
    ensures exists lo, hi :: 0 <= lo <= hi <= |s| && r == s[lo..hi] && SpacesOutside(s, lo, hi)
  {
    var l := LStripBy(s, IsSpace);
    var r := RStripBy(l, IsSpace);
    StripSlice(s, l, r);
    r
  }

  /** Stripping both ends leaves the slice between the leading and the trailing whitespace. */
  lemma StripSlice(s: string, l: string, r: string)
    requires |l| <= |s| && l == s[|s| - |l|..] && forall i :: 0 <= i < |s| - |l| ==> IsSpace(s[i])
    requires |r| <= |l| && r == l[..|r|] && forall i :: |r| <= i < |l| ==> IsSpace(l[i])
    ensures var lo := |s| - |l|; lo + |r| <= |s| && r == s[lo..lo + |r|] && SpacesOutside(s, lo, lo + |r|)
  {
    var lo := |s| - |l|;
    PrefixOfSuffix(s, l, r);
    forall i | lo + |r| <= i < |s|
      ensures IsSpace(s[i])
    {
      assert s[i] == l[i - lo];
    }
  }

  /** A prefix of a suffix is a slice. */
  lemma PrefixOfSuffix<T>(s: seq<T>, l: seq<T>, r: seq<T>)
    requires |l| <= |s| && l == s[|s| - |l|..]
    requires |r| <= |l| && r == l[..|r|]
    ensures r == s[|s| - |l|..|s| - |l| + |r|]
  {
  }

  /** Only whitespace lies before `lo` and from `hi` on. */
  predicate SpacesOutside(s: string, lo: nat, hi: nat)
    requires lo <= hi <= |s|
  {
    (forall i :: 0 <= i < lo ==> IsSpace(s[i])) && (forall i :: hi <= i < |s| ==> IsSpace(s[i]))
  }

  /** What `strip()` leaves, the original contains. */
  lemma StripContains(s: string, sub: string)
    requires Contains(Strip(s), sub)
    ensures Contains(s, sub)
  {
    var lo, hi := StripBounds(s);
    ContainsSlice(s, lo, hi, sub);
  }

  /** What the lower-cased `strip()` leaves, the lower-cased original contains. */
  lemma LowerStripContains(s: string, sub: string)
    requires Contains(Lower(Strip(s)), sub)
    ensures Contains(Lower(s), sub)
  {
    var lo, hi := StripBounds(s);
    LowerSliceContains(s, lo, hi, sub);
  }

  /** `strip()` leaves a slice of the original. */
  lemma StripBounds(s: string) returns (lo: nat, hi: nat)
    ensures lo <= hi <= |s| && Strip(s) == s[lo..hi]
  {
    var l := LStripBy(s, IsSpace);
    var r := RStripBy(l, IsSpace);
    lo, hi := |s| - |l|, |s| - |l| + |r|;
    assert l == s[lo..] && r == l[..|r|];
    assert s[lo..][..|r|] == s[lo..hi];
  }

  /** What the lower-cased slice contains, the lower-cased whole contains. */
  lemma LowerSliceContains(s: string, lo: nat, hi: nat, sub: string)
    requires lo <= hi <= |s| && Contains(Lower(s[lo..hi]), sub)
    ensures Contains(Lower(s), sub)
  {
    assert Lower(s[lo..hi]) == Lower(s)[lo..hi];
    ContainsSlice(Lower(s), lo, hi, sub);
  }

  // ----------------------------------------------------------- digits

  predicate IsDigit(c: char) { '0' <= c <= '9' }

  /** `str.isdigit()`: non-empty and every character a digit. */
  predicate AllDigits(s: string)
  {
    |s| > 0 && forall i :: 0 <= i < |s| ==> IsDigit(s[i])
  }

  function DigitOf(c: char): nat
    requires IsDigit(c)
  {
    c as int - '0' as int
  }

  function DigitsValue(s: string): nat
    requires forall i :: 0 <= i < |s| ==> IsDigit(s[i])
  {
    if s == [] then 0
    else DigitsValue(s[..|s| - 1]) * 10 + DigitOf(s[|s| - 1])
  }

  function DigitChar(d: nat): (c: char)
    requires d < 10
    ensures IsDigit(c) && DigitOf(c) == d
  {
    ('0' as int + d) as char
  }

  /** `str(n)` for a natural number: its decimal digits, no leading zero. */
  function NatString(n: nat): (r: string)
    ensures |r| > 0 && forall i :: 0 <= i < |r| ==> IsDigit(r[i])
    decreases n
  {
    if n < 10 then [DigitChar(n)] else NatString(n / 10) + [DigitChar(n % 10)]
  }

  /** Reading the digits of `str(n)` back gives `n`. */
  lemma {:induction false} NatStringValue(n: nat)
    ensures DigitsValue(NatString(n)) == n
    decreases n
  {
    var r := NatString(n);
    if n < 10 {
      assert r[..|r| - 1] == [];
    } else {
      NatStringValue(n / 10);
      assert r[..|r| - 1] == NatString(n / 10);
    }
  }

  /** `str(n)` for an integer: a '-' before the digits of a negative one. */
  function IntString(n: int): string
  {
    if n < 0 then "-" + NatString(-n) else NatString(n)
  }

  /** The longest prefix of `s` made of digits. */
  function LeadingDigits(s: string): (r: string)
    ensures |r| <= |s| && r == s[..|r|]
    ensures forall i :: 0 <= i < |r| ==> IsDigit(r[i])
    ensures |r| == |s| || !IsDigit(s[|r|])
  {
    if s != [] && IsDigit(s[0]) then [s[0]] + LeadingDigits(s[1..]) else ""
  }

  lemma {:induction false} LeadingDigitsOf(d: string, rest: string)
    requires forall i :: 0 <= i < |d| ==> IsDigit(d[i])
    requires rest == [] || !IsDigit(rest[0])
    ensures LeadingDigits(d + rest) == d
  {
    if d != [] {
      assert (d + rest)[1..] == d[1..] + rest;
      LeadingDigitsOf(d[1..], rest);
    }
  }

  /** Digits with single underscores between them, as `int()` admits. */
  predicate UnderscoredDigits(t: string)
  {
    && |t| > 0 && IsDigit(t[0]) && IsDigit(t[|t| - 1])
    && (forall i :: 0 <= i < |t| ==> IsDigit(t[i]) || t[i] == '_')
    && (forall i :: 0 <= i < |t| - 1 ==> !(t[i] == '_' && t[i + 1] == '_'))
  }

  function DropUnderscores(t: string): (r: string)
    requires forall i :: 0 <= i < |t| ==> IsDigit(t[i]) || t[i] == '_'
    ensures forall i :: 0 <= i < |r| ==> IsDigit(r[i])
  {
    if t == [] then "" else (if t[0] == '_' then "" else [t[0]]) + DropUnderscores(t[1..])
  }

  /** Python's `int(s)` in base 10: `None` where `int` raises ValueError. */
  function PyInt(s: string): (r: Option<int>)
    ensures AllDigits(s) ==> r == Some(DigitsValue(s))
  {
    if AllDigits(s) then
      DigitsStrip(s);
      DigitsLiteral(s);
      IntLiteral(Strip(s))
    else IntLiteral(Strip(s))
  }

  /** The literal `int()` reads once whitespace is stripped. */
  function IntLiteral(t: string): Option<int>
  {
    if |t| > 0 && (t[0] == '+' || t[0] == '-') then
      var u := t[1..];
      if UnderscoredDigits(u) then
        var n: int := DigitsValue(DropUnderscores(u));
        Some(if t[0] == '-' then -n else n)
      else None
    else if UnderscoredDigits(t) then Some(DigitsValue(DropUnderscores(t)))
    else None
  }

  /** Plain digits read as their value. */
  lemma DigitsLiteral(s: string)
    requires AllDigits(s)
    ensures IntLiteral(s) == Some(DigitsValue(s))
  {
    DigitsUnderscored(s);
    DigitsDropUnderscores(s);
  }

  /**
   * What `int()` accepts: after stripping whitespace, digits with single
   * underscores between them, optionally after one sign. The value is
   * that of the digits, negated after '-'.
   */
  lemma PyIntAccepts(s: string)
    ensures var t := Strip(s);
            PyInt(s).Some? <==> UnderscoredDigits(t) || (|t| > 0 && (t[0] == '+' || t[0] == '-') && UnderscoredDigits(t[1..]))
    ensures var t := Strip(s);
            UnderscoredDigits(t) ==> PyInt(s) == Some(DigitsValue(DropUnderscores(t)))
    ensures var t := Strip(s);
            |t| > 0 && (t[0] == '+' || t[0] == '-') && UnderscoredDigits(t[1..]) ==>
              var n: int := DigitsValue(DropUnderscores(t[1..]));
              PyInt(s) == Some(if t[0] == '-' then -n else n)
  {
  }

  lemma DigitsUnderscored(s: string)
    requires AllDigits(s)
    ensures UnderscoredDigits(s)
  {
  }

  lemma DigitsStrip(s: string)
    requires AllDigits(s)
    ensures Strip(s) == s
  {
  }

  lemma {:induction false} DigitsDropUnderscores(s: string)
    requires forall i :: 0 <= i < |s| ==> IsDigit(s[i])
    ensures DropUnderscores(s) == s
  {
    if s != [] {
      DigitsDropUnderscores(s[1..]);
    }
  }

  // ------------------------------------------------------------ slices

  /** No element occurs twice. */
  predicate NoDup<T(==)>(s: seq<T>)
  {
    forall i, j :: 0 <= i < j < |s| ==> s[i] != s[j]
  }

  /** Python's `s[:n]`: a negative `n` counts from the end. */
  function PyPrefix<T>(s: seq<T>, n: int): (r: seq<T>)
    ensures 0 <= n ==> r == s[..if n < |s| then n else |s|]
    ensures n < 0 ==> r == s[..if |s| + n > 0 then |s| + n else 0]
    ensures |r| <= |s| && r == s[..|r|]
  {
    var k := if 0 <= n then (if n < |s| then n else |s|) else (if |s| + n > 0 then |s| + n else 0);
    s[..k]
  }

  // -------------------------------------------------- digits.digits.digits

  /**
   * The pieces `re.match(r"(\d+)\.(\d+)\.(\d+)", s)` finds: three maximal
   * digit runs separated by dots, and the rest of the string. Greedy `\d+`
   * never has to back off, because a shorter run would leave a digit where
   * the pattern needs a dot.
   */
  function TripleSplit(s: string): (r: Option<(string, string, string, string)>)
    ensures r.Some? ==> IsTriple(r.value.0, r.value.1, r.value.2, r.value.3)
    ensures r.Some? ==> s == r.value.0 + "." + r.value.1 + "." + r.value.2 + r.value.3
  {
    var a := LeadingDigits(s);
    if |a| == 0 || |a| == |s| || s[|a|] != '.' then None
    else
      var s1 := s[|a| + 1..];
      var b := LeadingDigits(s1);
      if |b| == 0 || |b| == |s1| || s1[|b|] != '.' then None
      else
        var s2 := s1[|b| + 1..];
        var c := LeadingDigits(s2);
        if |c| == 0 then None
        else
          RunThenDot(s);
          RunThenDot(s1);
          RunThenRest(s2);
          Rejoin(s, a, s1, b, s2, c, s2[|c|..]);
          Some((a, b, c, s2[|c|..]))
  }

  /** The three pieces put back together give the string they were cut from. */
  lemma Rejoin(s: string, a: string, s1: string, b: string, s2: string, c: string, rest: string)
    requires s == a + "." + s1 && s1 == b + "." + s2 && s2 == c + rest
    ensures s == a + "." + b + "." + c + rest
  {
    calc {
      s;
      a + "." + (b + "." + (c + rest));
      { assert b + "." + (c + rest) == b + "." + c + rest; }
      a + "." + (b + "." + c + rest);
    }
  }

  /** A digit run followed by a dot: the string is the run, the dot and what follows. */
  lemma RunThenDot(s: string)
    requires var a := LeadingDigits(s); |a| > 0 && |a| < |s| && s[|a|] == '.'
    ensures var a := LeadingDigits(s); AllDigits(a) && s == a + "." + s[|a| + 1..]
  {
    var a := LeadingDigits(s);
    assert s == s[..|a|] + [s[|a|]] + s[|a| + 1..];
  }

  /** A non-empty digit run and a rest that does not continue it. */
  lemma RunThenRest(s: string)
    requires |LeadingDigits(s)| > 0
    ensures var c := LeadingDigits(s);
      && AllDigits(c) && s == c + s[|c|..] && (s[|c|..] == [] || !IsDigit(s[|c|..][0]))
  {
    var c := LeadingDigits(s);
    assert s == s[..|c|] + s[|c|..];
  }

  /** Three non-empty digit runs, and a rest that does not continue the last one. */
  predicate IsTriple(a: string, b: string, c: string, rest: string)
  {
    AllDigits(a) && AllDigits(b) && AllDigits(c) && (rest == [] || !IsDigit(rest[0]))
  }

  /** The integers of the three groups, or `None` when the pattern does not match. */
  function MatchTriple(s: string): (r: Option<(nat, nat, nat)>)
    ensures r.Some? <==> TripleSplit(s).Some?
  {
    match TripleSplit(s)
    case None => None
    case Some((a, b, c, _)) => Some((DigitsValue(a), DigitsValue(b), DigitsValue(c)))
  }

  /** Any string of the matched shape is split at exactly its three runs. */
  lemma TripleSplitOf(a: string, b: string, c: string, rest: string)
    requires IsTriple(a, b, c, rest)
    ensures TripleSplit(a + "." + b + "." + c + rest) == Some((a, b, c, rest))
    ensures MatchTriple(a + "." + b + "." + c + rest)
      == Some((DigitsValue(a), DigitsValue(b), DigitsValue(c)))
  {
    var s2 := c + rest;
    var s1 := b + ['.'] + s2;
    var s := a + ['.'] + s1;
    Rejoin(s, a, s1, b, s2, c, rest);
    DotAfterRun(a, s1);
    DotAfterRun(b, s2);
    LeadingDigitsOf(c, rest);
    assert s2[|c|..] == rest;
    assert TripleSplit(s) == Some((a, b, c, rest));
  }

  lemma DotAfterRun(a: string, t: string)
    requires AllDigits(a)
    ensures LeadingDigits(a + ['.'] + t) == a
    ensures (a + ['.'] + t)[|a|] == '.' && (a + ['.'] + t)[|a| + 1..] == t
  {
    assert a + ['.'] + t == a + (['.'] + t);
    LeadingDigitsOf(a, ['.'] + t);
  }
}
