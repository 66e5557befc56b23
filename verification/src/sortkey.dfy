/**
 * Python's ordering of the sort keys the tool builds, and the stable sort
 * `list.sort(key=…, reverse=…)` / `sorted(…)` performs with them.
 *
 * A key is a list whose items are ints or strs. Python compares two lists
 * item by item; the first pair of unequal items decides, and when one list
 * is a prefix of the other the shorter one is smaller. Comparing an int with
 * a str raises TypeError, which `Compare` reports as `Incomparable`.
 */
module SortKey {
  import opened Text
  import Seqs

  datatype Part = Num(n: int) | Str(s: string)
  type Key = seq<Part>
  datatype Order = Less | Same | Greater | Incomparable

  function Flip(o: Order): Order
  {
    match o
    case Less => Greater
    case Greater => Less
    case _ => o
  }

  /** Python's comparison of two `str` values: by code point, a proper prefix first. */
  function StrCompare(a: string, b: string): (o: Order)
    ensures o != Incomparable
    ensures o == Same <==> a == b
  {
    if a == [] && b == [] then Same
    else if a == [] then Less
    else if b == [] then Greater
    else if a[0] < b[0] then Less
    else if a[0] > b[0] then Greater
    else
      assert a == [a[0]] + a[1..] && b == [b[0]] + b[1..];
      StrCompare(a[1..], b[1..])
  }

  function PartCompare(x: Part, y: Part): Order
  {
    match (x, y)
    case (Num(m), Num(n)) => if m < n then Less else if m == n then Same else Greater
    case (Str(s), Str(t)) => StrCompare(s, t)
    case _ => Incomparable
  }

  /** Python's comparison of two lists of ints and strs. */
  function Compare(a: Key, b: Key): (o: Order)
    ensures o == Same <==> a == b
  {
    if a == [] && b == [] then Same
    else if a == [] then Less
    else if b == [] then Greater
    else if a[0] == b[0] then
      assert a == [a[0]] + a[1..] && b == [b[0]] + b[1..];
      Compare(a[1..], b[1..])
    else PartCompare(a[0], b[0])
  }

  /** `a < b` in Python, when it does not raise. */
  predicate Lt(a: Key, b: Key) { Compare(a, b) == Less }

  /** Python can compare `a` with `b` without raising TypeError. */
  predicate Comparable(a: Key, b: Key) { Compare(a, b) != Incomparable }

  lemma {:induction false} StrCompareFlip(a: string, b: string)
    ensures StrCompare(b, a) == Flip(StrCompare(a, b))
  {
    if a != [] && b != [] && a[0] == b[0] {
      StrCompareFlip(a[1..], b[1..]);
    }
  }

  lemma {:induction false} CompareFlip(a: Key, b: Key)
    ensures Compare(b, a) == Flip(Compare(a, b))
  {
    if a != [] && b != [] {
      if a[0] == b[0] {
        CompareFlip(a[1..], b[1..]);
      } else if a[0].Str? && b[0].Str? {
        StrCompareFlip(a[0].s, b[0].s);
      }
    }
  }

  lemma {:induction false} StrLtTrans(a: string, b: string, c: string)
    requires StrCompare(a, b) == Less && StrCompare(b, c) == Less
    ensures StrCompare(a, c) == Less
  {
    if a != [] && a[0] == b[0] && b[0] == c[0] {
      StrLtTrans(a[1..], b[1..], c[1..]);
    }
  }

  /** `<` on keys is transitive, even when some other pairs are incomparable. */
  lemma {:induction false} LtTrans(a: Key, b: Key, c: Key)
    requires Lt(a, b) && Lt(b, c)
    ensures Lt(a, c)
  {
    if a != [] {
      if a[0] == b[0] && b[0] == c[0] {
        LtTrans(a[1..], b[1..], c[1..]);
      } else if a[0] != b[0] && b[0] != c[0] && a[0].Str? {
        StrLtTrans(a[0].s, b[0].s, c[0].s);
      } else if a[0] == b[0] && b[0] != c[0] && a[0].Str? {
        assert a[0] != c[0];
      }
    }
  }

  lemma LtIrreflexive(a: Key)
    ensures !Lt(a, a)
  {
  }

  /**
   * The key `[int(p) if p.isdigit() else p for p in v.replace("-", ".").split(".")]`
   * the cache and the template sort versions by.
   */
  function NumericFirstKey(v: string): (k: Key)
    ensures |k| == Count(ReplaceChar(v, '-', '.'), '.') + 1
    ensures forall i :: 0 <= i < |k| ==>
      var p := Split(ReplaceChar(v, '-', '.'), '.')[i];
      k[i] == (if AllDigits(p) then Num(DigitsValue(p)) else Str(p))
  {
    var parts := Split(ReplaceChar(v, '-', '.'), '.');
    seq(|parts|, i requires 0 <= i < |parts| =>
      if AllDigits(parts[i]) then Num(DigitsValue(parts[i])) else Str(parts[i]))
  }

  /** `[int(x) for x in v.split(".")]` as a sort key. */
  function IntsKey(v: string): (k: Key)
    ensures forall i :: 0 <= i < |k| ==> k[i].Num?
  {
    var parts := Split(v, '.');
    seq(|parts|, i requires 0 <= i < |parts| => Num(match PyInt(parts[i]) case Some(n) => n case None => 0))
  }

  // ------------------------------------------------------------ sorting

  /** Key `x` must come strictly before key `y` in the requested direction. */
  predicate Precedes(desc: bool, x: Key, y: Key)
  {
    if desc then Lt(y, x) else Lt(x, y)
  }

  lemma PrecedesTrans(desc: bool, x: Key, y: Key, z: Key)
    requires Precedes(desc, x, y) && Precedes(desc, y, z)
    ensures Precedes(desc, x, z)
  {
    if desc { LtTrans(z, y, x); } else { LtTrans(x, y, z); }
  }

  /** No element is strictly ahead of one placed before it. */
  predicate SortedBy<T>(s: seq<T>, key: T -> Key, desc: bool)
  {
    forall i, j :: 0 <= i < j < |s| ==> !Precedes(desc, key(s[j]), key(s[i]))
  }

  /** Every two keys of `s` can be compared without a TypeError. */
  predicate AllComparable<T>(s: seq<T>, key: T -> Key)
  {
    forall i, j :: 0 <= i < |s| && 0 <= j < |s| ==> Comparable(key(s[i]), key(s[j]))
  }

  /** Inserts `x` after every element it does not strictly precede. */
  function Insert<T>(x: T, s: seq<T>, key: T -> Key, desc: bool): (r: seq<T>)
    ensures |r| == |s| + 1
    ensures multiset(r) == multiset(s) + multiset{x}
    ensures forall k :: 0 <= k < |r| ==> r[k] == x || r[k] in s
  {
    if s == [] then [x]
    else if Precedes(desc, key(x), key(s[0])) then [x] + s
    else
      assert s == [s[0]] + s[1..];
      [s[0]] + Insert(x, s[1..], key, desc)
  }

  lemma {:induction false} InsertSorted<T>(x: T, s: seq<T>, key: T -> Key, desc: bool)
    requires SortedBy(s, key, desc)
    ensures SortedBy(Insert(x, s, key, desc), key, desc)
  {
    if s == [] {
    } else if Precedes(desc, key(x), key(s[0])) {
      InsertFrontSorted(x, s, key, desc);
    } else {
      assert SortedBy(s[1..], key, desc);
      InsertSorted(x, s[1..], key, desc);
      InsertBehindSorted(x, s, key, desc);
    }
  }

  /** `x` strictly ahead of the head goes in front of a sorted sequence and keeps it sorted. */
  lemma InsertFrontSorted<T>(x: T, s: seq<T>, key: T -> Key, desc: bool)
    requires SortedBy(s, key, desc) && s != [] && Precedes(desc, key(x), key(s[0]))
    ensures SortedBy([x] + s, key, desc)
  {
    var r := [x] + s;
    forall i, j | 0 <= i < j < |r|
      ensures !Precedes(desc, key(r[j]), key(r[i]))
    {
      if i == 0 && Precedes(desc, key(r[j]), key(x)) {
        if j == 1 {
          PrecedesTrans(desc, key(s[0]), key(x), key(s[0]));
          LtIrreflexive(key(s[0]));
        } else {
          PrecedesTrans(desc, key(r[j]), key(x), key(s[0]));
        }
      }
    }
  }

  /** `x` not ahead of the head goes behind it, into the sorted tail. */
  lemma InsertBehindSorted<T>(x: T, s: seq<T>, key: T -> Key, desc: bool)
    requires SortedBy(s, key, desc) && s != [] && !Precedes(desc, key(x), key(s[0]))
    requires SortedBy(Insert(x, s[1..], key, desc), key, desc)
    ensures SortedBy([s[0]] + Insert(x, s[1..], key, desc), key, desc)
  {
    var t := Insert(x, s[1..], key, desc);
    var r := [s[0]] + t;
    forall i, j | 0 <= i < j < |r|
      ensures !Precedes(desc, key(r[j]), key(r[i]))
    {
      if i == 0 {
        assert r[j] == t[j - 1];
        if t[j - 1] != x {
          var m :| 0 <= m < |s[1..]| && s[1..][m] == t[j - 1];
          assert s[m + 1] == r[j];
        }
      }
    }
  }

  /**
   * Python's stable `sorted(s, key=key, reverse=desc)`: insertion sort that
   * keeps equal elements in their original order.
   */
  function SortBy<T>(s: seq<T>, key: T -> Key, desc: bool): (r: seq<T>)
    ensures |r| == |s|
    ensures multiset(r) == multiset(s)
    ensures SortedBy(r, key, desc)
  {
    if s == [] then []
    else
      var init := s[..|s| - 1];
      assert s == init + [s[|s| - 1]];
      InsertSorted(s[|s| - 1], SortBy(init, key, desc), key, desc);
      Insert(s[|s| - 1], SortBy(init, key, desc), key, desc)
  }

  /**
   * Stability of the insertion: when every element passing `p` has the key
   * `k`, the passing elements of the sorted `t` keep their order and `x`
   * joins them last.
   */
  lemma {:induction false} InsertStable<T>(x: T, t: seq<T>, key: T -> Key, desc: bool, p: T -> bool, k: Key)
    requires SortedBy(t, key, desc)
    requires forall y :: p(y) ==> key(y) == k
    ensures Seqs.Filter(Insert(x, t, key, desc), p) == Seqs.Filter(t, p) + (if p(x) then [x] else [])
  {
    var px := if p(x) then [x] else [];
    if t == [] {
      assert Insert(x, t, key, desc) == [x];
      FilterSingle(x, p);
    } else if Precedes(desc, key(x), key(t[0])) {
      assert Insert(x, t, key, desc) == [x] + t;
      InsertFrontStable(x, t, key, desc, p, k);
    } else {
      assert SortedBy(t[1..], key, desc);
      InsertStable(x, t[1..], key, desc, p, k);
      FilterBehindHead(t, Insert(x, t[1..], key, desc), p, px);
    }
  }

  /** Keeping the head in front of a tail that filters to `f + px` filters to the whole's `f + px`. */
  lemma FilterBehindHead<T>(t: seq<T>, u: seq<T>, p: T -> bool, px: seq<T>)
    requires t != [] && Seqs.Filter(u, p) == Seqs.Filter(t[1..], p) + px
    ensures Seqs.Filter([t[0]] + u, p) == Seqs.Filter(t, p) + px
  {
    var f0, f1 := Seqs.Filter([t[0]], p), Seqs.Filter(t[1..], p);
    assert Seqs.Filter([t[0]] + u, p) == f0 + (f1 + px) by {
      Seqs.FilterConcat([t[0]], u, p);
    }
    assert Seqs.Filter(t, p) == f0 + f1 by {
      assert [t[0]] + t[1..] == t;
      Seqs.FilterConcat([t[0]], t[1..], p);
    }
    ConcatAssoc(f0, f1, px);
  }

  /** `x` placed in front of every element: no passing element of `t` shares its key. */
  lemma InsertFrontStable<T>(x: T, t: seq<T>, key: T -> Key, desc: bool, p: T -> bool, k: Key)
    requires SortedBy(t, key, desc) && t != [] && Precedes(desc, key(x), key(t[0]))
    requires forall y :: p(y) ==> key(y) == k
    ensures Seqs.Filter([x] + t, p) == Seqs.Filter(t, p) + (if p(x) then [x] else [])
  {
    Seqs.FilterConcat([x], t, p);
    FilterSingle(x, p);
    if p(x) {
      LtIrreflexive(key(x));
      forall j | 0 <= j < |t|
        ensures !p(t[j])
      {
        assert key(t[j]) != key(x) by {
          if j > 0 {
            assert !Precedes(desc, key(t[j]), key(t[0]));
          }
        }
      }
      assert Seqs.Filter(t, p) == [];
    }
  }

  lemma ConcatAssoc<T>(a: seq<T>, b: seq<T>, c: seq<T>)
    ensures a + (b + c) == (a + b) + c
  {
  }

  lemma FilterSingle<T>(x: T, p: T -> bool)
    ensures Seqs.Filter([x], p) == if p(x) then [x] else []
  {
    assert [x][..0] == [];
  }

  /**
   * The sort is stable: among elements sharing one key, the sorted sequence
   * holds those passing `p` in the order `s` has them.
   */
  lemma {:induction false} SortStable<T>(s: seq<T>, key: T -> Key, desc: bool, p: T -> bool, k: Key)
    requires forall y :: p(y) ==> key(y) == k
    ensures Seqs.Filter(SortBy(s, key, desc), p) == Seqs.Filter(s, p)
  {
    if s != [] {
      var init := s[..|s| - 1];
      SortStable(init, key, desc, p, k);
      InsertStable(s[|s| - 1], SortBy(init, key, desc), key, desc, p, k);
    }
  }

  /** Sorting keeps every element. */
  lemma SortedMember<T>(s: seq<T>, key: T -> Key, desc: bool, x: T)
    requires x in SortBy(s, key, desc)
    ensures x in s
  {
    assert x in multiset(SortBy(s, key, desc));
  }
}
