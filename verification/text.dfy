/**
 * The `str` operations the source relies on (`starts_with`, `ends_with`,
 * `contains`, `replacen`, `replace`, `splitn`), Rust's ordering of strings,
 * and the stable sort of `Vec::sort`/`sort_by_key`.
 */
module Text {
  import opened Base

  predicate StartsWith(s: string, p: string)
  {
    |p| <= |s| && s[..|p|] == p
  }

  predicate EndsWith(s: string, c: char)
  {
    |s| > 0 && s[|s| - 1] == c
  }

  predicate OccursAt(s: string, pat: string, j: nat)
  {
    j + |pat| <= |s| && s[j..j + |pat|] == pat
  }

  /** Index of the first occurrence of `pat` in `s` at or after `from`. */
  function FindFrom(s: string, pat: string, from: nat): (r: Option<nat>)
    decreases |s| - from
    ensures r.Some? ==> from <= r.value && OccursAt(s, pat, r.value)
    ensures r.Some? ==> forall j :: from <= j < r.value ==> !OccursAt(s, pat, j)
    ensures r.None? ==> forall j :: from <= j ==> !OccursAt(s, pat, j)
  {
    if from + |pat| > |s| then None
    else if s[from..from + |pat|] == pat then Some(from)
    else FindFrom(s, pat, from + 1)
  }

  /** `s.replacen(pat, rep, 1)`: replaces the first occurrence of `pat`. */
  function ReplaceFirst(s: string, pat: string, rep: string): string
  {
    match FindFrom(s, pat, 0)
    case None => s
    case Some(i) => s[..i] + rep + s[i + |pat|..]
  }

  /** When `s` starts with `pat`, `replacen` removes exactly that prefix. */
  lemma ReplaceFirstAtStart(s: string, pat: string, rep: string)
    requires StartsWith(s, pat)
    ensures ReplaceFirst(s, pat, rep) == rep + s[|pat|..]
  {
    assert OccursAt(s, pat, 0);
  }

  /** `s.replace(from, to)` for single characters. */
  function ReplaceChar(s: string, from: char, to: char): (r: string)
    ensures |r| == |s|
    ensures forall i :: 0 <= i < |s| ==> r[i] == (if s[i] == from then to else s[i])
  {
    if s == [] then [] else [if s[0] == from then to else s[0]] + ReplaceChar(s[1..], from, to)
  }

  /** `s.splitn(2, c).next()`: the text before the first `c`, or all of `s`. */
  function FirstSegment(s: string, c: char): (r: string)
    ensures |r| <= |s| && r == s[..|r|]
    ensures c !in r
    ensures |r| < |s| ==> s[|r|] == c
  {
    if s == [] || s[0] == c then [] else [s[0]] + FirstSegment(s[1..], c)
  }

  // ----- Rust's `Ord` on strings -----

  /**
   * `a <= b` in Rust's string order: byte-wise lexicographic on UTF-8, which
   * is the same as lexicographic on scalar values.
   */
  predicate LexLe(a: string, b: string)
  {
    a == [] || (b != [] && (a[0] < b[0] || (a[0] == b[0] && LexLe(a[1..], b[1..]))))
  }

  lemma {:induction false} LexLeRefl(a: string)
    ensures LexLe(a, a)
  {
    if a != [] {
      LexLeRefl(a[1..]);
    }
  }

  lemma {:induction false} LexLeAntisym(a: string, b: string)
    requires LexLe(a, b) && LexLe(b, a)
    ensures a == b
  {
    if a != [] && b != [] {
      LexLeAntisym(a[1..], b[1..]);
      assert a == [a[0]] + a[1..] && b == [b[0]] + b[1..];
    }
  }

  lemma {:induction false} LexLeTrans(a: string, b: string, c: string)
    requires LexLe(a, b) && LexLe(b, c)
    ensures LexLe(a, c)
  {
    if a != [] && b != [] && c != [] && a[0] == b[0] == c[0] {
      LexLeTrans(a[1..], b[1..], c[1..]);
    }
  }

  lemma {:induction false} LexLeTotal(a: string, b: string)
    ensures LexLe(a, b) || LexLe(b, a)
  {
    if a != [] && b != [] && a[0] == b[0] {
      LexLeTotal(a[1..], b[1..]);
    }
  }

  // ----- stable sorting by a string key -----

  ghost predicate SortedBy<T>(s: seq<T>, key: T -> string)
  {
    forall i, j :: 0 <= i < j < |s| ==> LexLe(key(s[i]), key(s[j]))
  }

  /** A sequence stays sorted when an element no greater than all of it goes in front. */
  lemma ConsSorted<T>(h: T, rest: seq<T>, key: T -> string)
    requires SortedBy(rest, key)
    requires forall e | e in multiset(rest) :: LexLe(key(h), key(e))
    ensures SortedBy([h] + rest, key)
  {
    forall i, j | 0 <= i < j < |[h] + rest| ensures LexLe(key(([h] + rest)[i]), key(([h] + rest)[j])) {
      if i == 0 {
        assert rest[j - 1] in multiset(rest);
      }
    }
  }

  /**
   * Inserts `x` into the sorted `t` after every element whose key is not
   * greater than `x`'s, which keeps equal keys in arrival order.
   */
  function Insert<T>(x: T, t: seq<T>, key: T -> string): (r: seq<T>)
    requires SortedBy(t, key)
    ensures SortedBy(r, key)
    ensures multiset(r) == multiset(t) + multiset{x}
    ensures |r| == |t| + 1
  {
    if t == [] then [x]
    else if !LexLe(key(t[0]), key(x)) then
      LexLeTotal(key(t[0]), key(x));
      forall e | e in multiset(t) ensures LexLe(key(x), key(e)) {
        var j :| 0 <= j < |t| && t[j] == e;
        if j > 0 { LexLeTrans(key(x), key(t[0]), key(t[j])); } else { LexLeRefl(key(x)); }
      }
      ConsSorted(x, t, key);
      [x] + t
    else
      var rest := Insert(x, t[1..], key);
      assert t == [t[0]] + t[1..];
      forall e | e in multiset(rest) ensures LexLe(key(t[0]), key(e)) {
        if e != x {
          var j :| 0 <= j < |t[1..]| && t[1..][j] == e;
          assert t[j + 1] == e;
        }
      }
      ConsSorted(t[0], rest, key);
      [t[0]] + rest
  }

  /** `sort_by_key` (a stable sort): sorted by key, a permutation of `s`. */
  function SortBy<T>(s: seq<T>, key: T -> string): (r: seq<T>)
    ensures SortedBy(r, key)
    ensures multiset(r) == multiset(s)
    ensures |r| == |s|
  {
    if s == [] then []
    else
      assert s == s[..|s| - 1] + [s[|s| - 1]];
      Insert(s[|s| - 1], SortBy(s[..|s| - 1], key), key)
  }

  function Identity(s: string): string
  {
    s
  }

  predicate NoDuplicates<T(==)>(s: seq<T>)
  {
    forall i, j :: 0 <= i < j < |s| ==> s[i] != s[j]
  }

  /** Sorting keeps exactly the elements it was given. */
  lemma SortByMembers<T>(s: seq<T>, key: T -> string, x: T)
    ensures x in SortBy(s, key) <==> x in s
  {
    assert x in SortBy(s, key) <==> x in multiset(SortBy(s, key));
    assert x in s <==> x in multiset(s);
  }

  /** The elements of a finite set of strings in ascending order. */
  function SortedElements(ks: set<string>): (r: seq<string>)
    ensures |r| == |ks|
    ensures forall k :: k in r <==> k in ks
    ensures NoDuplicates(r)
    ensures SortedBy(r, Identity)
    decreases |ks|
  {
    if ks == {} then []
    else
      LeastExists(ks);
      LeastUnique(ks);
      var m :| IsLeast(m, ks);
      var rest := SortedElements(ks - {m});
      PrependLeast(m, ks, rest);
      [m] + rest
  }

  /** The least element in front of the others, sorted and without repeats, lists the whole set so. */
  lemma PrependLeast(m: string, ks: set<string>, rest: seq<string>)
    requires IsLeast(m, ks) && |rest| == |ks - {m}|
    requires forall k :: k in rest <==> k in ks - {m}
    requires NoDuplicates(rest) && SortedBy(rest, Identity)
    ensures |[m] + rest| == |ks|
    ensures forall k :: k in [m] + rest <==> k in ks
    ensures NoDuplicates([m] + rest)
    ensures SortedBy([m] + rest, Identity)
  {
    forall j | 0 <= j < |rest| ensures rest[j] in ks && LexLe(m, rest[j]) {
      assert rest[j] in rest;
    }
  }

  predicate IsLeast(m: string, ks: set<string>)
  {
    m in ks && forall k | k in ks :: LexLe(m, k)
  }

  lemma LeastUnique(ks: set<string>)
    ensures forall m1, m2 :: IsLeast(m1, ks) && IsLeast(m2, ks) ==> m1 == m2
  {
    forall m1, m2 | IsLeast(m1, ks) && IsLeast(m2, ks) ensures m1 == m2 {
      LexLeAntisym(m1, m2);
    }
  }

  lemma {:induction false} LeastExists(ks: set<string>)
    requires ks != {}
    ensures exists m :: IsLeast(m, ks)
    decreases |ks|
  {
    var x :| x in ks;
    if ks == {x} {
      LexLeRefl(x);
      assert forall k | k in ks :: k == x;
      assert IsLeast(x, ks);
    } else {
      LeastExists(ks - {x});
      var m :| IsLeast(m, ks - {x});
      LexLeTotal(m, x);
      if LexLe(m, x) {
        assert IsLeast(m, ks);
      } else {
        forall k | k in ks ensures LexLe(x, k) {
          if k == x { LexLeRefl(x); } else { LexLeTrans(x, m, k); }
        }
        assert IsLeast(x, ks);
      }
    }
  }

  // ----- concatenating the pieces of each element -----

  /** Regrouping a concatenation, stated once so that heavy contexts need not rediscover it. */
  lemma AppendAssoc<E>(a: seq<E>, b: seq<E>, c: seq<E>)
    ensures a + (b + c) == (a + b) + c
  {
  }

  /** `f(ks[0]) + f(ks[1]) + ...`: a loop that pushes what each element yields. */
  function FlatMap<K, E>(ks: seq<K>, f: K -> seq<E>): seq<E>
  {
    if ks == [] then [] else f(ks[0]) + FlatMap(ks[1..], f)
  }

  lemma {:induction false} FlatMapAppend<K, E>(a: seq<K>, b: seq<K>, f: K -> seq<E>)
    ensures FlatMap(a + b, f) == FlatMap(a, f) + FlatMap(b, f)
  {
    if a == [] {
      assert a + b == b;
    } else {
      assert (a + b)[0] == a[0] && (a + b)[1..] == a[1..] + b;
      FlatMapAppend(a[1..], b, f);
    }
  }

  /** Taking the same element out of two permutations leaves permutations. */
  lemma RemoveMatching<K>(a: seq<K>, b: seq<K>, i: nat)
    requires multiset(a) == multiset(b) && a != [] && i < |b| && b[i] == a[0]
    ensures multiset(a[1..]) == multiset(b[..i] + b[i + 1..])
  {
    assert a == [a[0]] + a[1..];
    assert b == b[..i] + [b[i]] + b[i + 1..];
    assert multiset(a[1..]) == multiset(a) - multiset{a[0]};
    assert multiset(b[..i] + b[i + 1..]) == multiset(b) - multiset{a[0]};
  }

  /** What is collected does not depend on the order the elements are visited in. */
  lemma {:induction false} FlatMapPermutation<K, E>(a: seq<K>, b: seq<K>, f: K -> seq<E>)
    requires multiset(a) == multiset(b)
    ensures multiset(FlatMap(a, f)) == multiset(FlatMap(b, f))
    decreases |a|
  {
    if a == [] {
      assert |b| == |multiset(b)| == 0;
    } else {
      var x := a[0];
      assert x in multiset(a);
      var i :| 0 <= i < |b| && b[i] == x;
      var left, right := b[..i], b[i + 1..];
      RemoveMatching(a, b, i);
      FlatMapPermutation(a[1..], left + right, f);
      assert b == left + [x] + right;
      FlatMapAppend(left + [x], right, f);
      FlatMapAppend(left, [x], f);
      FlatMapAppend(left, right, f);
      assert FlatMap([x], f) == f(x);
      calc {
        multiset(FlatMap(b, f));
        multiset(FlatMap(left, f)) + multiset(f(x)) + multiset(FlatMap(right, f));
        multiset(f(x)) + multiset(FlatMap(left + right, f));
        multiset(f(x)) + multiset(FlatMap(a[1..], f));
        multiset(FlatMap(a, f));
      }
    }
  }

  lemma {:induction false} FlatMapMembers<K, E>(ks: seq<K>, f: K -> seq<E>)
    ensures forall e :: e in FlatMap(ks, f) <==> exists k | k in ks :: e in f(k)
  {
    if ks != [] {
      FlatMapMembers(ks[1..], f);
      assert ks == [ks[0]] + ks[1..];
    }
  }

  /** Two duplicate-free enumerations of the same elements are permutations of each other. */
  lemma DistinctEnumerations<T>(a: seq<T>, b: seq<T>)
    requires NoDuplicates(a) && NoDuplicates(b)
    requires forall k :: k in a <==> k in b
    ensures multiset(a) == multiset(b)
  {
    forall k ensures multiset(a)[k] == multiset(b)[k] {
      DistinctCount(a, k);
      DistinctCount(b, k);
    }
  }

  lemma {:induction false} DistinctCount<T>(a: seq<T>, k: T)
    requires NoDuplicates(a)
    ensures multiset(a)[k] == if k in a then 1 else 0
  {
    if a != [] {
      assert a == [a[0]] + a[1..];
      DistinctCount(a[1..], k);
    }
  }
}
