/**
 * Ranking of scored records: the `sort_key` of both views, and the stable
 * in-place `list.sort` ordered by it. The sort is specified by a left-to-right
 * insertion sort; any stable sort by the same key gives the same list
 * (`StableSortUnique`), so the result is the one Python's sort produces.
 * The sort is stated for any key function, and used with `KeyOf`.
 */
module Ranking {
  import opened Wrappers
  import opened Scoring

  /** `10 ** 6`: the days value of a record without a due date. */
  const NoDueDateDays := 1000000

  /** `(-score, days)`, compared lexicographically. */
  datatype SortKey = SortKey(negatedScore: real, days: int)

  /**
   * `sort_key(t)`: a missing `_score` (one the scorer did not write) counts
   * as 0.0 and a missing or null `_days_until_due` as `10 ** 6`. The scorer
   * always writes a number, so no other `_score` value reaches the key.
   */
  function KeyOf(r: ScoredRecord): (k: SortKey)
    ensures ScoreKey !in r ==> k.negatedScore == 0.0
    ensures ScoreKey in r && r[ScoreKey].Score? ==> k.negatedScore == -r[ScoreKey].score
    ensures DaysKey in r && r[DaysKey] == DaysUntilDue(None) ==> k.days == NoDueDateDays
    ensures DaysKey in r && r[DaysKey].DaysUntilDue? && r[DaysKey].days.Some? ==> k.days == r[DaysKey].days.value
  {
    var score := if ScoreKey in r && r[ScoreKey].Score? then r[ScoreKey].score else 0.0;
    var days :=
      if DaysKey in r && r[DaysKey].DaysUntilDue? && r[DaysKey].days.Some?
      then r[DaysKey].days.value else NoDueDateDays;
    SortKey(-score, days)
  }

  /** Python's tuple `<=`: higher score first, then fewer days until due. */
  predicate KeyLe(a: SortKey, b: SortKey) {
    a.negatedScore < b.negatedScore || (a.negatedScore == b.negatedScore && a.days <= b.days)
  }

  lemma KeyLeIsTotalOrder(a: SortKey, b: SortKey, c: SortKey)
    ensures KeyLe(a, a)
    ensures KeyLe(a, b) || KeyLe(b, a)
    ensures KeyLe(a, b) && KeyLe(b, a) ==> a == b
    ensures KeyLe(a, b) && KeyLe(b, c) ==> KeyLe(a, c)
  {
  }

  ghost predicate Sorted<T>(s: seq<T>, key: T -> SortKey) {
    forall i, j :: 0 <= i < j < |s| ==> KeyLe(key(s[i]), key(s[j]))
  }

  /** The elements of `s` whose key is `k`, in their order in `s`. */
  function WithKey<T>(s: seq<T>, key: T -> SortKey, k: SortKey): seq<T> {
    if s == [] then []
    else WithKey(s[..|s| - 1], key, k) + (if key(s[|s| - 1]) == k then [s[|s| - 1]] else [])
  }

  /** Stability: the output is sorted and every group of equal keys keeps its input order. */
  ghost predicate IsStableSortOf<T>(out: seq<T>, input: seq<T>, key: T -> SortKey) {
    Sorted(out, key) && forall k :: WithKey(out, key, k) == WithKey(input, key, k)
  }

  /** Place `x` after every element of `t` whose key is not greater than its own. */
  function Insert<T>(t: seq<T>, x: T, key: T -> SortKey): (r: seq<T>)
    ensures |r| == |t| + 1
  {
    if t == [] then [x]
    else if KeyLe(key(t[|t| - 1]), key(x)) then t + [x]
    else Insert(t[..|t| - 1], x, key) + [t[|t| - 1]]
  }

  /** A stable sort by `key`, as a left-to-right insertion sort. */
  function SortBy<T>(s: seq<T>, key: T -> SortKey): (r: seq<T>)
    ensures |r| == |s|
  {
    if s == [] then [] else Insert(SortBy(s[..|s| - 1], key), s[|s| - 1], key)
  }

  /** `scored.sort(key=sort_key)` of both views. */
  function Rank(s: seq<ScoredRecord>): (r: seq<ScoredRecord>)
    ensures multiset(r) == multiset(s)
  {
    SortByPermutes(s, KeyOf);
    SortBy(s, KeyOf)
  }

  lemma {:induction false} WithKeyMember<T>(s: seq<T>, key: T -> SortKey, k: SortKey, y: T)
    requires y in WithKey(s, key, k)
    ensures y in s && key(y) == k
  {
    if s != [] {
      var init := s[..|s| - 1];
      if y in WithKey(init, key, k) {
        WithKeyMember(init, key, k, y);
        assert y in s by { assert s == init + [s[|s| - 1]]; }
      }
    }
  }

  lemma WithKeyAppend<T>(s: seq<T>, x: T, key: T -> SortKey, k: SortKey)
    ensures WithKey(s + [x], key, k) == WithKey(s, key, k) + (if key(x) == k then [x] else [])
  {
    assert (s + [x])[..|s|] == s;
  }

  lemma {:induction false} InsertPermutes<T>(t: seq<T>, x: T, key: T -> SortKey)
    ensures multiset(Insert(t, x, key)) == multiset(t) + multiset{x}
  {
    if t != [] && !KeyLe(key(t[|t| - 1]), key(x)) {
      InsertPermutes(t[..|t| - 1], x, key);
      assert t == t[..|t| - 1] + [t[|t| - 1]];
    }
  }

  lemma {:induction false} InsertSorted<T>(t: seq<T>, x: T, key: T -> SortKey)
    requires Sorted(t, key)
    ensures Sorted(Insert(t, x, key), key)
  {
    if t != [] && !KeyLe(key(t[|t| - 1]), key(x)) {
      var init, last := t[..|t| - 1], t[|t| - 1];
      InsertSorted(init, x, key);
      InsertPermutes(init, x, key);
      var r := Insert(init, x, key);
      forall i | 0 <= i < |r|
        ensures KeyLe(key(r[i]), key(last))
      {
        assert r[i] in multiset(r);
        if r[i] != x {
          assert r[i] in multiset(init);
          var j :| 0 <= j < |init| && init[j] == r[i];
          assert t[j] == r[i];
        }
      }
    }
  }

  /** Inserting keeps every other key group as it was and puts `x` at the end of its own. */
  lemma {:induction false} InsertWithKey<T>(t: seq<T>, x: T, key: T -> SortKey, k: SortKey)
    ensures WithKey(Insert(t, x, key), key, k) == WithKey(t, key, k) + (if key(x) == k then [x] else [])
  {
    if t == [] {
      WithKeyAppend([], x, key, k);
    } else if KeyLe(key(t[|t| - 1]), key(x)) {
      WithKeyAppend(t, x, key, k);
    } else {
      var init, last := t[..|t| - 1], t[|t| - 1];
      InsertWithKey(init, x, key, k);
      WithKeyAppend(Insert(init, x, key), last, key, k);
      WithKeyAppend(init, last, key, k);
      assert t == init + [last];
      assert key(last) != key(x);
    }
  }

  /** The sorted list is ordered by the key. */
  lemma {:induction false} SortBySorted<T>(s: seq<T>, key: T -> SortKey)
    ensures Sorted(SortBy(s, key), key)
  {
    if s != [] {
      var init := s[..|s| - 1];
      SortBySorted(init, key);
      InsertSorted(SortBy(init, key), s[|s| - 1], key);
    }
  }

  /** The sorted list holds the same elements as its input. */
  lemma {:induction false} SortByPermutes<T>(s: seq<T>, key: T -> SortKey)
    ensures multiset(SortBy(s, key)) == multiset(s)
  {
    if s != [] {
      var init := s[..|s| - 1];
      var last := s[|s| - 1];
      assert s == init + [last];
      assert SortBy(s, key) == Insert(SortBy(init, key), last, key);
      SortByPermutes(init, key);
      InsertPermutes(SortBy(init, key), last, key);
      assert multiset(s) == multiset(init) + multiset{last};
    }
  }

  /** The sorted list keeps the input order of elements with equal keys. */
  lemma {:induction false} SortByStable<T>(s: seq<T>, key: T -> SortKey, k: SortKey)
    ensures WithKey(SortBy(s, key), key, k) == WithKey(s, key, k)
  {
    if s != [] {
      var init := s[..|s| - 1];
      SortByStable(init, key, k);
      InsertWithKey(SortBy(init, key), s[|s| - 1], key, k);
    }
  }

  /**
   * The ranking is a stable sort of its input: ordered by the key, the same
   * records (as a multiset), and equal keys in input order.
   */
  lemma RankIsStableSort(s: seq<ScoredRecord>)
    ensures IsStableSortOf(Rank(s), s, KeyOf)
    ensures multiset(Rank(s)) == multiset(s) && |Rank(s)| == |s|
  {
    SortBySorted(s, KeyOf);
    SortByPermutes(s, KeyOf);
    forall k ensures WithKey(Rank(s), KeyOf, k) == WithKey(s, KeyOf, k) {
      SortByStable(s, KeyOf, k);
    }
    assert |multiset(Rank(s))| == |multiset(s)|;
  }

  lemma WithKeyOfLast<T>(s: seq<T>, key: T -> SortKey)
    requires s != []
    ensures var g := WithKey(s, key, key(s[|s| - 1]));
      g != [] && g[|g| - 1] == s[|s| - 1]
  {
  }

  lemma SortedLastIsGreatest<T>(s: seq<T>, key: T -> SortKey, y: T)
    requires Sorted(s, key) && s != [] && y in s
    ensures KeyLe(key(y), key(s[|s| - 1]))
  {
    var i :| 0 <= i < |s| && s[i] == y;
    if i < |s| - 1 {
      assert KeyLe(key(s[i]), key(s[|s| - 1]));
    }
  }

  /** Of two sorted lists with the same key groups, the last elements agree. */
  lemma LastsAgree<T>(a: seq<T>, b: seq<T>, key: T -> SortKey)
    requires Sorted(a, key) && Sorted(b, key) && a != []
    requires forall k :: WithKey(a, key, k) == WithKey(b, key, k)
    ensures b != [] && a[|a| - 1] == b[|b| - 1]
  {
    var x := a[|a| - 1];
    WithKeyOfLast(a, key);
    var gb := WithKey(b, key, key(x));
    assert gb == WithKey(a, key, key(x));
    WithKeyMember(b, key, key(x), gb[|gb| - 1]);
    var y := b[|b| - 1];
    WithKeyOfLast(b, key);
    SortedLastIsGreatest(b, key, gb[|gb| - 1]);
    var ga := WithKey(a, key, key(y));
    assert ga == WithKey(b, key, key(y));
    WithKeyMember(a, key, key(y), ga[|ga| - 1]);
    SortedLastIsGreatest(a, key, ga[|ga| - 1]);
    assert key(x) == key(y);
  }

  lemma SortedPrefix<T>(s: seq<T>, key: T -> SortKey, n: nat)
    requires Sorted(s, key) && n <= |s|
    ensures Sorted(s[..n], key)
  {
  }

  /** Two sorted lists with the same key groups, in the same orders, are the same list. */
  lemma {:induction false} StableSortUnique<T>(a: seq<T>, b: seq<T>, key: T -> SortKey)
    requires Sorted(a, key) && Sorted(b, key)
    requires forall k :: WithKey(a, key, k) == WithKey(b, key, k)
    ensures a == b
    decreases |a| + |b|, if a == [] then 1 else 0
  {
    if a == [] {
      if b != [] {
        StableSortUnique(b, a, key);
      }
    } else {
      LastsAgree(a, b, key);
      var x := a[|a| - 1];
      var a', b' := a[..|a| - 1], b[..|b| - 1];
      assert a == a' + [x] && b == b' + [x];
      forall k ensures WithKey(a', key, k) == WithKey(b', key, k) {
        WithKeyAppend(a', x, key, k);
        WithKeyAppend(b', x, key, k);
        var ga, gb, tail := WithKey(a', key, k), WithKey(b', key, k), if key(x) == k then [x] else [];
        assert ga + tail == gb + tail by {
          assert WithKey(a, key, k) == WithKey(b, key, k);
        }
        assert ga == (ga + tail)[..|ga|] && gb == (gb + tail)[..|gb|];
      }
      SortedPrefix(a, key, |a| - 1);
      SortedPrefix(b, key, |b| - 1);
      StableSortUnique(a', b', key);
    }
  }

  /** Any stable sort of `s` by the sort key, however it is computed, is `Rank(s)`. */
  lemma StableSortIsRank(out: seq<ScoredRecord>, s: seq<ScoredRecord>)
    requires IsStableSortOf(out, s, KeyOf)
    ensures out == Rank(s)
  {
    RankIsStableSort(s);
    StableSortUnique(out, Rank(s), KeyOf);
  }

  /**
   * Inserting `x` puts it right after the last element whose key is not
   * greater than its own: a gap `j` with only greater keys to its right,
   * and a key not greater than `x`'s (or nothing) to its left.
   */
  lemma {:induction false} InsertAtGap<T>(t: seq<T>, x: T, key: T -> SortKey, j: nat)
    requires j <= |t|
    requires j == 0 || KeyLe(key(t[j - 1]), key(x))
    requires forall k :: j <= k < |t| ==> !KeyLe(key(t[k]), key(x))
    ensures Insert(t, x, key) == t[..j] + [x] + t[j..]
  {
    if j < |t| {
      var init, last := t[..|t| - 1], t[|t| - 1];
      assert !KeyLe(key(last), key(x));
      assert Insert(t, x, key) == Insert(init, x, key) + [last];
      assert init[..j] == t[..j];
      InsertAtGap(init, x, key, j);
      assert t[j..] == init[j..] + [last];
    } else {
      assert t[..j] == t && t[j..] == [];
    }
  }

  /**
   * The array during one insertion step, as a sequence: the hole at `j`
   * still holds its original element, and `A[j..i]` has moved one place right.
   */
  ghost function Shifted<T>(A: seq<T>, i: nat, j: nat): seq<T>
    requires j <= i < |A|
  {
    A[..j] + [A[j]] + A[j..i] + A[i + 1..]
  }

  /** Moving the element left of the hole into it widens the shifted run by one. */
  lemma ShiftStep<T>(A: seq<T>, i: nat, j: nat)
    requires 0 < j <= i < |A|
    ensures Shifted(A, i, j)[j := A[j - 1]] == Shifted(A, i, j - 1)
  {
    var s, u := Shifted(A, i, j)[j := A[j - 1]], Shifted(A, i, j - 1);
    assert |s| == |u| == |A|;
    forall k | 0 <= k < |A|
      ensures s[k] == u[k]
    {
      if k < j - 1 {
      } else if k <= j {
      } else if k <= i {
        assert s[k] == A[k - 1] == u[k];
      }
    }
  }

  /** Writing `x` into the hole yields `A[..j] + [x] + A[j..i]`, then the untouched tail. */
  lemma PlaceStep<T>(A: seq<T>, i: nat, j: nat, x: T)
    requires j <= i < |A|
    ensures Shifted(A, i, j)[j := x][..i + 1] == A[..i][..j] + [x] + A[..i][j..]
    ensures Shifted(A, i, j)[j := x][i + 1..] == A[i + 1..]
  {
    var s := Shifted(A, i, j)[j := x];
    assert s == A[..j] + [x] + A[j..i] + A[i + 1..];
    assert A[..i][..j] == A[..j] && A[..i][j..] == A[j..i];
  }

  /**
   * One step of the in-place sort: with `a[..i]` already sorted, move each
   * element whose key is greater than that of `a[i]` one place right, from
   * the end, and drop `a[i]` into the gap.
   */
  method InsertAt<T>(a: array<T>, i: nat, key: T -> SortKey)
    requires i < a.Length
    modifies a
    ensures a[..i + 1] == Insert(old(a[..i]), old(a[i]), key)
    ensures a[i + 1..] == old(a[i + 1..])
  {
    ghost var A := a[..];
    var x := a[i];
    var kx := key(x);
    var j := i;
    assert a[..] == Shifted(A, i, j);
    while j > 0 && !KeyLe(key(a[j - 1]), kx)
      invariant 0 <= j <= i
      invariant a[..] == Shifted(A, i, j)
      invariant forall k :: j <= k < i ==> !KeyLe(key(A[k]), kx)
    {
      ghost var before := a[..];
      assert a[j - 1] == A[j - 1];
      a[j] := a[j - 1];
      assert a[..] == before[j := A[j - 1]];
      ShiftStep(A, i, j);
      j := j - 1;
    }
    ghost var before := a[..];
    a[j] := x;
    assert a[..] == before[j := x];
    PlaceStep(A, i, j, x);
    InsertAtGap(A[..i], x, key, j);
  }

  /** `list.sort(key=key)` in place, as an insertion sort over the list's array. */
  method SortInPlace<T>(a: array<T>, key: T -> SortKey)
    modifies a
    ensures a[..] == SortBy(old(a[..]), key)
  {
    ghost var input := a[..];
    var i := 0;
    while i < a.Length
      invariant 0 <= i <= a.Length
      invariant a[..i] == SortBy(input[..i], key)
      invariant a[i..] == input[i..]
    {
      ghost var sorted := a[..i];
      assert a[i] == input[i];
      InsertAt(a, i, key);
      assert a[..i + 1] == Insert(sorted, input[i], key);
      assert input[..i + 1][..i] == input[..i];
      assert SortBy(input[..i + 1], key) == Insert(SortBy(input[..i], key), input[i], key);
      assert a[i + 1..] == input[i + 1..];
      i := i + 1;
    }
    assert input[..a.Length] == input;
  }
}
