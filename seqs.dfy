/**
 * The pandas building blocks the analyses are made of, stated on sequences:
 * `Series.unique` (Unique), the sorted keys of a `groupby` (SortedDistinct),
 * the rows of one group (Group) and `Series.mode()[0]` (Mode).
 */
module Seqs {
  import opened Order

  ghost predicate Distinct<T>(s: seq<T>)
  {
    forall i, j :: 0 <= i < j < |s| ==> s[i] != s[j]
  }

  /** Every element comes strictly before every later one. */
  ghost predicate Increasing<T>(s: seq<T>, lt: (T, T) -> bool)
  {
    forall i, j :: 0 <= i < j < |s| ==> lt(s[i], s[j])
  }

  /** The last element of a sequence without repeats is not among the others. */
  lemma LastIsNew<T>(xs: seq<T>)
    requires Distinct(xs) && xs != []
    ensures xs[|xs| - 1] !in xs[..|xs| - 1]
    ensures Distinct(xs[..|xs| - 1])
  {
  }

  lemma IncreasingIsDistinct<T(!new)>(s: seq<T>, lt: (T, T) -> bool)
    requires StrictTotalOrder(lt) && Increasing(s, lt)
    ensures Distinct(s)
  {
  }

  /** Index of the first occurrence of `x` in `s`. */
  function FirstIndex<T(==)>(s: seq<T>, x: T): (k: nat)
    requires x in s
    ensures k < |s| && s[k] == x && x !in s[..k]
  {
    if s[0] == x then 0 else 1 + FirstIndex(s[1..], x)
  }

  /**
   * The distinct elements of `s`, in the order in which they first appear
   * (pandas `Series.unique`).
   */
  function Unique<T(==,!new)>(s: seq<T>): (u: seq<T>)
    ensures forall x :: x in u <==> x in s
    ensures Distinct(u)
    ensures forall i, j :: 0 <= i < j < |u| ==> FirstIndex(s, u[i]) < FirstIndex(s, u[j])
  {
    if s == [] then []
    else
      var init := s[..|s| - 1];
      var x := s[|s| - 1];
      var u' := Unique(init);
      assert s == init + [x];
      FirstIndexExtend(init, x);
      if x in u' then u' else u' + [x]
  }

  /** Appending an element leaves the first occurrences already present where they were. */
  lemma FirstIndexExtend<T>(init: seq<T>, x: T)
    ensures forall y :: y in init ==> FirstIndex(init + [x], y) == FirstIndex(init, y)
    ensures x !in init ==> FirstIndex(init + [x], x) == |init|
  {
    forall y | y in init
      ensures FirstIndex(init + [x], y) == FirstIndex(init, y)
    {
      var k := FirstIndex(init, y);
      var k' := FirstIndex(init + [x], y);
      assert (init + [x])[k] == y;
      assert (init + [x])[..k'] <= init + [x];
    }
  }

  /** Inserts `x` into the strictly increasing `s`, unless it is there already. */
  function Insert<T(==,!new)>(x: T, s: seq<T>, lt: (T, T) -> bool): (r: seq<T>)
    requires StrictTotalOrder(lt) && Increasing(s, lt)
    ensures Increasing(r, lt)
    ensures forall y :: y in r <==> y == x || y in s
  {
    if s == [] then [x]
    else if x == s[0] then s
    else if lt(x, s[0]) then [x] + s
    else
      var tail := Insert(x, s[1..], lt);
      assert forall y :: y in tail ==> lt(s[0], y);
      [s[0]] + tail
  }

  /**
   * The distinct elements of `s` in ascending order: the keys of a pandas
   * `groupby` with its default `sort=True`.
   */
  function SortedDistinct<T(==,!new)>(s: seq<T>, lt: (T, T) -> bool): (r: seq<T>)
    requires StrictTotalOrder(lt)
    ensures Increasing(r, lt)
    ensures forall y :: y in r <==> y in s
  {
    if s == [] then [] else Insert(s[0], SortedDistinct(s[1..], lt), lt)
  }

  /** The elements of `s` whose key is `k`, in their original order: one group of a `groupby`. */
  function Group<T(!new), K(==)>(s: seq<T>, key: T -> K, k: K): (g: seq<T>)
    ensures forall x :: x in g <==> x in s && key(x) == k
    ensures forall x :: multiset(g)[x] == (if key(x) == k then multiset(s)[x] else 0)
    ensures |g| <= |s|
  {
    if s == [] then []
    else
      assert s == [s[0]] + s[1..];
      var rest := Group(s[1..], key, k);
      if key(s[0]) == k then [s[0]] + rest else rest
  }

  /** A one-row input keeps its row exactly when the row's key is `k`. */
  lemma GroupSingleton<T(!new), K>(x: T, key: T -> K, k: K)
    ensures Group([x], key, k) == if key(x) == k then [x] else []
  {
  }

  /**
   * Selecting from a concatenation selects from each part and keeps the parts
   * in order; with `GroupSingleton` this fixes the order of the kept rows.
   */
  lemma {:induction false} GroupAppend<T(!new), K>(s: seq<T>, t: seq<T>, key: T -> K, k: K)
    ensures Group(s + t, key, k) == Group(s, key, k) + Group(t, key, k)
  {
    if s == [] {
      assert s + t == t;
    } else {
      assert (s + t)[0] == s[0] && (s + t)[1..] == s[1..] + t;
      GroupAppend(s[1..], t, key, k);
    }
  }

  /** The sizes of the groups named by `ks`, added up. */
  function GroupSizes<T(!new), K(==)>(s: seq<T>, key: T -> K, ks: seq<K>): nat
  {
    if ks == [] then 0 else |Group(s, key, ks[0])| + GroupSizes(s, key, ks[1..])
  }

  lemma {:induction false} GroupSizesOfNothing<T(!new), K>(key: T -> K, ks: seq<K>)
    ensures GroupSizes([], key, ks) == 0
  {
    if ks != [] {
      GroupSizesOfNothing(key, ks[1..]);
    }
  }

  lemma {:induction false} GroupSizesStep<T(!new), K>(x: T, t: seq<T>, key: T -> K, ks: seq<K>)
    requires Distinct(ks)
    ensures GroupSizes([x] + t, key, ks) == GroupSizes(t, key, ks) + (if key(x) in ks then 1 else 0)
  {
    if ks != [] {
      assert Distinct(ks[1..]) by {
        forall i, j | 0 <= i < j < |ks[1..]|
          ensures ks[1..][i] != ks[1..][j]
        {
          assert ks[1..][i] == ks[i + 1] && ks[1..][j] == ks[j + 1];
        }
      }
      GroupSizesStep(x, t, key, ks[1..]);
      assert ([x] + t)[1..] == t;
      assert key(x) in ks <==> key(x) == ks[0] || key(x) in ks[1..];
    }
  }

  /**
   * When `ks` names every key of `s` once, the groups partition `s`: their
   * sizes add up to `|s|`.
   */
  lemma {:induction false} GroupSizesCover<T(!new), K>(s: seq<T>, key: T -> K, ks: seq<K>)
    requires Distinct(ks)
    requires forall x :: x in s ==> key(x) in ks
    ensures GroupSizes(s, key, ks) == |s|
  {
    if s == [] {
      GroupSizesOfNothing(key, ks);
    } else {
      assert s == [s[0]] + s[1..];
      GroupSizesCover(s[1..], key, ks);
      GroupSizesStep(s[0], s[1..], key, ks);
    }
  }

  /** How often `x` occurs in `s`. */
  function Count<T(==)>(s: seq<T>, x: T): nat
  {
    multiset(s)[x]
  }

  /**
   * `m` is what pandas' `Series.mode()[0]` returns: a value of `s` of highest
   * frequency, and, since the modes come sorted, the least one among those.
   */
  ghost predicate IsMode<T>(s: seq<T>, m: T, lt: (T, T) -> bool)
  {
    && m in s
    && (forall y :: y in s ==> Count(s, y) <= Count(s, m))
    && (forall y :: y in s && Count(s, y) == Count(s, m) ==> !lt(y, m))
  }

  /** The most frequent of the candidates in `s`, the least one on ties. */
  function ModeAmong<T(==,!new)>(s: seq<T>, candidates: seq<T>, lt: (T, T) -> bool): (m: T)
    requires |candidates| > 0 && StrictTotalOrder(lt)
    ensures m in candidates
    ensures forall y :: y in candidates ==> Count(s, y) <= Count(s, m)
    ensures forall y :: y in candidates && Count(s, y) == Count(s, m) ==> !lt(y, m)
    decreases |candidates|
  {
    if |candidates| == 1 then candidates[0]
    else
      var x := candidates[0];
      var best := ModeAmong(s, candidates[1..], lt);
      assert forall y :: y in candidates ==> y == x || y in candidates[1..];
      if Count(s, x) > Count(s, best) || (Count(s, x) == Count(s, best) && lt(x, best)) then x else best
  }

  function Mode<T(==,!new)>(s: seq<T>, lt: (T, T) -> bool): (m: T)
    requires |s| > 0 && StrictTotalOrder(lt)
    ensures IsMode(s, m, lt)
  {
    ModeAmong(s, s, lt)
  }

  /** Under a total order the mode is determined: it is exactly `Series.mode()[0]`. */
  lemma ModeIsUnique<T(!new)>(s: seq<T>, m1: T, m2: T, lt: (T, T) -> bool)
    requires StrictTotalOrder(lt)
    requires IsMode(s, m1, lt) && IsMode(s, m2, lt)
    ensures m1 == m2
  {
  }
}
