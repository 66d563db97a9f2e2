/** Sequence helpers shared by the parsers and the table handlers: counting and
    filtering (`filter`, `some`, `findIndex`), JavaScript's two-step `splice` move,
    and ordering rows by a key (`orderBy`). */
module SeqUtil {

  /** Number of elements satisfying `p`; defined from the end so that a loop
      counting left to right matches it prefix by prefix. */
  function CountWhere<T>(s: seq<T>, p: T -> bool): (n: nat)
    ensures n <= |s|
  {
    if s == [] then 0 else CountWhere(s[..|s| - 1], p) + (if p(s[|s| - 1]) then 1 else 0)
  }

  lemma CountWherePrefix<T>(s: seq<T>, i: nat, p: T -> bool)
    requires i < |s|
    ensures CountWhere(s[..i + 1], p) == CountWhere(s[..i], p) + (if p(s[i]) then 1 else 0)
  {
    assert s[..i + 1][..i] == s[..i];
  }

  /** The prefix count grows by `c`, the 0 or 1 the next element contributes. */
  lemma CountWhereStep<T>(s: seq<T>, i: nat, p: T -> bool, c: nat)
    requires i < |s| && c == (if p(s[i]) then 1 else 0)
    ensures CountWhere(s[..i + 1], p) == CountWhere(s[..i], p) + c
  {
    CountWherePrefix(s, i, p);
  }

  lemma CountWhereAll<T>(s: seq<T>, p: T -> bool)
    requires forall k :: 0 <= k < |s| ==> !p(s[k])
    ensures CountWhere(s, p) == 0
  {
    if s != [] { CountWhereAll(s[..|s| - 1], p); }
  }

  /** Two scans that agree position by position count the same. */
  lemma {:induction false} CountWhereSame<T, U>(a: seq<T>, p: T -> bool, b: seq<U>, q: U -> bool)
    requires |a| == |b|
    requires forall k :: 0 <= k < |a| ==> p(a[k]) == q(b[k])
    ensures CountWhere(a, p) == CountWhere(b, q)
  {
    if a != [] {
      CountWhereSame(a[..|a| - 1], p, b[..|b| - 1], q);
    }
  }

  /** A stricter test counts no more. */
  lemma {:induction false} CountWhereImplies<T>(s: seq<T>, p: T -> bool, q: T -> bool)
    requires forall k :: 0 <= k < |s| && p(s[k]) ==> q(s[k])
    ensures CountWhere(s, p) <= CountWhere(s, q)
  {
    if s != [] {
      CountWhereImplies(s[..|s| - 1], p, q);
    }
  }

  /** Two tests that never both hold, and each imply a third, count together no
      more than the third. */
  lemma {:induction false} CountWhereDisjoint<T>(s: seq<T>, p: T -> bool, q: T -> bool, r: T -> bool)
    requires forall k :: 0 <= k < |s| ==> !(p(s[k]) && q(s[k]))
    requires forall k :: 0 <= k < |s| && (p(s[k]) || q(s[k])) ==> r(s[k])
    ensures CountWhere(s, p) + CountWhere(s, q) <= CountWhere(s, r)
  {
    if s != [] {
      CountWhereDisjoint(s[..|s| - 1], p, q, r);
    }
  }

  /** `s.filter(p)`, keeping the order of `s`. */
  function Filter<T(!new)>(s: seq<T>, p: T -> bool): (r: seq<T>)
    ensures |r| == CountWhere(s, p)
  {
    if s == [] then []
    else Filter(s[..|s| - 1], p) + (if p(s[|s| - 1]) then [s[|s| - 1]] else [])
  }

  /** What `Filter` keeps is exactly the elements that pass `p`. */
  lemma {:induction false} FilterMembers<T(!new)>(s: seq<T>, p: T -> bool)
    ensures forall x :: x in Filter(s, p) <==> x in s && p(x)
  {
    if s != [] {
      var n := |s| - 1;
      FilterMembers(s[..n], p);
      assert s == s[..n] + [s[n]];
    }
  }

  /** A filter every element passes keeps the sequence. */
  lemma {:induction false} FilterAll<T(!new)>(s: seq<T>, p: T -> bool)
    requires forall x :: x in s ==> p(x)
    ensures Filter(s, p) == s
  {
    if s != [] {
      FilterAll(s[..|s| - 1], p);
      assert s == s[..|s| - 1] + [s[|s| - 1]];
    }
  }

  lemma FilterPrefix<T(!new)>(s: seq<T>, i: nat, p: T -> bool)
    requires i < |s|
    ensures Filter(s[..i + 1], p) == Filter(s[..i], p) + (if p(s[i]) then [s[i]] else [])
  {
    assert s[..i + 1][..i] == s[..i];
  }

  /** Two elements at different positions that both satisfy `p` make a count of at least two. */
  lemma CountWhereTwo<T>(s: seq<T>, i: nat, j: nat, p: T -> bool)
    requires i < j < |s| && p(s[i]) && p(s[j])
    ensures CountWhere(s, p) >= 2
  {
    var n := |s| - 1;
    if j < n {
      assert s[..n][i] == s[i] && s[..n][j] == s[j];
      CountWhereTwo(s[..n], i, j, p);
    } else {
      assert s[..n][i] == s[i];
      CountWhereOne(s[..n], i, p);
    }
  }

  lemma CountWhereOne<T>(s: seq<T>, i: nat, p: T -> bool)
    requires i < |s| && p(s[i])
    ensures CountWhere(s, p) >= 1
  {
    var n := |s| - 1;
    if i < n {
      assert s[..n][i] == s[i];
      CountWhereOne(s[..n], i, p);
    }
  }

  /** `findIndex(p)`: the first position satisfying `p`, or -1. */
  function FindIndex<T>(s: seq<T>, p: T -> bool): (r: int)
    ensures -1 <= r < |s|
    ensures r >= 0 ==> p(s[r])
  {
    FindFrom(s, 0, p)
  }

  /** The first position from `i` on satisfying `p`, or -1. */
  function FindFrom<T>(s: seq<T>, i: nat, p: T -> bool): (r: int)
    requires i <= |s|
    ensures r == -1 || (i <= r < |s| && p(s[r]))
    decreases |s| - i
  {
    if i == |s| then -1
    else if p(s[i]) then i
    else FindFrom(s, i + 1, p)
  }

  lemma {:induction false} FindFromIs<T>(s: seq<T>, i: nat, p: T -> bool)
    requires i <= |s|
    ensures FindFrom(s, i, p) == -1 <==> forall k :: i <= k < |s| ==> !p(s[k])
    ensures FindFrom(s, i, p) >= 0 ==> forall k :: i <= k < FindFrom(s, i, p) ==> !p(s[k])
    decreases |s| - i
  {
    if i < |s| && !p(s[i]) {
      FindFromIs(s, i + 1, p);
    }
  }

  /** `findIndex` finds the first match: -1 exactly when nothing matches, and no
      match before the position it returns. */
  lemma FindIndexIs<T>(s: seq<T>, p: T -> bool)
    ensures FindIndex(s, p) == -1 <==> forall k :: 0 <= k < |s| ==> !p(s[k])
    ensures FindIndex(s, p) >= 0 ==> forall k :: 0 <= k < FindIndex(s, p) ==> !p(s[k])
  {
    FindFromIs(s, 0, p);
  }

  /** The first match is where `findIndex` stops. */
  lemma FindIndexAt<T>(s: seq<T>, p: T -> bool, k: nat)
    requires k < |s| && p(s[k])
    requires forall j :: 0 <= j < k ==> !p(s[j])
    ensures FindIndex(s, p) == k
  {
    FindIndexIs(s, p);
  }

  function RemoveAt<T>(s: seq<T>, i: nat): (r: seq<T>)
    requires i < |s|
    ensures |r| == |s| - 1
  {
    s[..i] + s[i + 1..]
  }

  /** `const [x] = s.splice(from, 1); s.splice(to, 0, x);` */
  function Move<T>(s: seq<T>, from: nat, to: nat): (r: seq<T>)
    requires from < |s| && to < |s|
    ensures |r| == |s|
    ensures r[to] == s[from]
    ensures RemoveAt(r, to) == RemoveAt(s, from)
    ensures multiset(r) == multiset(s)
  {
    var rest := RemoveAt(s, from);
    var r := rest[..to] + [s[from]] + rest[to..];
    assert RemoveAt(r, to) == rest by {
      assert r[..to] == rest[..to];
      assert r[to + 1..] == rest[to..];
      assert rest == rest[..to] + rest[to..];
    }
    assert multiset(r) == multiset(s) by {
      assert s == s[..from] + [s[from]] + s[from + 1..];
      assert multiset(s) == multiset(rest) + multiset{s[from]};
      assert rest == rest[..to] + rest[to..];
      assert multiset(r) == multiset(rest[..to]) + multiset{s[from]} + multiset(rest[to..]);
    }
    r
  }

  /** `f` takes different values at different positions (a unique column). */
  ghost predicate Distinct<T>(s: seq<T>, f: T -> int) {
    forall i, j :: 0 <= i < j < |s| ==> f(s[i]) != f(s[j])
  }

  lemma DistinctRemoveAt<T>(a: seq<T>, p: nat, f: T -> int)
    requires p < |a| && Distinct(a, f)
    ensures Distinct(RemoveAt(a, p), f)
    ensures forall y :: y in RemoveAt(a, p) ==> f(y) != f(a[p])
  {
    var a' := RemoveAt(a, p);
    forall i, j | 0 <= i < j < |a'| ensures f(a'[i]) != f(a'[j]) {
      var i0 := if i < p then i else i + 1;
      var j0 := if j < p then j else j + 1;
      assert a'[i] == a[i0] && a'[j] == a[j0];
    }
    forall y | y in a' ensures f(y) != f(a[p]) {
      var q :| 0 <= q < |a'| && a'[q] == y;
      var q0 := if q < p then q else q + 1;
      assert a[q0] == y;
    }
  }

  lemma MultisetRemoveAt<T>(a: seq<T>, p: nat)
    requires p < |a|
    ensures multiset(RemoveAt(a, p)) == multiset(a) - multiset{a[p]}
  {
    assert a == a[..p] + [a[p]] + a[p + 1..];
  }

  /** A permutation of a sequence with a unique column keeps that column unique. */
  lemma {:induction false} DistinctPermutation<T>(a: seq<T>, b: seq<T>, f: T -> int)
    requires multiset(a) == multiset(b)
    requires Distinct(a, f)
    ensures Distinct(b, f)
    decreases |b|
  {
    if b != [] {
      var x := b[|b| - 1];
      var b' := b[..|b| - 1];
      assert b == b' + [x];
      assert x in multiset(a) by { assert x in b; }
      var p :| 0 <= p < |a| && a[p] == x;
      var a' := RemoveAt(a, p);
      MultisetRemoveAt(a, p);
      DistinctRemoveAt(a, p, f);
      DistinctPermutation(a', b', f);
      forall y | y in b' ensures f(y) != f(x) {
        assert y in multiset(a');
      }
      DistinctSnoc(b', x, f);
    }
  }

  lemma DistinctSnoc<T>(s: seq<T>, x: T, f: T -> int)
    requires Distinct(s, f)
    requires forall y :: y in s ==> f(y) != f(x)
    ensures Distinct(s + [x], f)
  {
    var t := s + [x];
    forall i, j | 0 <= i < j < |t| ensures f(t[i]) != f(t[j]) {
      assert t[i] == s[i];
      if j < |s| { assert t[j] == s[j]; }
    }
  }

  /** Keys compare by their first component, then their second. */
  predicate KeyLe(a: (int, int), b: (int, int)) {
    a.0 < b.0 || (a.0 == b.0 && a.1 <= b.1)
  }

  ghost predicate SortedBy<T>(s: seq<T>, key: T -> (int, int)) {
    forall i, j :: 0 <= i < j < |s| ==> KeyLe(key(s[i]), key(s[j]))
  }

  function InsertSorted<T>(x: T, s: seq<T>, key: T -> (int, int)): (r: seq<T>)
    requires SortedBy(s, key)
    ensures |r| == |s| + 1
    ensures multiset(r) == multiset(s) + multiset{x}
    ensures SortedBy(r, key)
  {
    if s == [] then [x]
    else if KeyLe(key(x), key(s[0])) then
      var r := [x] + s;
      assert SortedBy(r, key) by {
        forall i, j | 0 <= i < j < |r| ensures KeyLe(key(r[i]), key(r[j])) {
          if i > 0 { assert r[i] == s[i - 1] && r[j] == s[j - 1]; }
          else if j > 1 { assert KeyLe(key(s[0]), key(s[j - 1])); }
        }
      }
      r
    else
      var tail := InsertSorted(x, s[1..], key);
      var r := [s[0]] + tail;
      assert s == [s[0]] + s[1..];
      assert SortedBy(r, key) by {
        forall j | 0 <= j < |tail| ensures KeyLe(key(s[0]), key(tail[j])) {
          assert tail[j] in multiset(tail);
          if tail[j] != x {
            assert tail[j] in multiset(s[1..]);
            var k :| 0 <= k < |s[1..]| && s[1..][k] == tail[j];
            assert s[k + 1] == tail[j];
          }
        }
      }
      r
  }

  /** `orderBy(key)`: a sorted permutation of `s`. */
  function SortByKey<T>(s: seq<T>, key: T -> (int, int)): (r: seq<T>)
    ensures |r| == |s|
    ensures multiset(r) == multiset(s)
    ensures SortedBy(r, key)
  {
    if s == [] then []
    else
      assert s == [s[0]] + s[1..];
      InsertSorted(s[0], SortByKey(s[1..], key), key)
  }

  /** Ids strictly increase along the table and lie in 1 .. next-1: the last id is
      below `next`, and the rows before it are keyed below the last id. */
  ghost predicate Keyed<T>(s: seq<T>, key: T -> int, next: int)
    decreases |s|
  {
    s == [] || (1 <= key(s[|s| - 1]) < next && Keyed(s[..|s| - 1], key, key(s[|s| - 1])))
  }

  /** `Keyed`, read position by position. */
  ghost predicate KeyedAt<T>(s: seq<T>, key: T -> int, next: int) {
    (forall i, j :: 0 <= i < j < |s| ==> key(s[i]) < key(s[j]))
    && (forall i :: 0 <= i < |s| ==> 1 <= key(s[i]) < next)
  }

  lemma {:induction false} KeyedMeans<T>(s: seq<T>, key: T -> int, next: int)
    ensures Keyed(s, key, next) <==> KeyedAt(s, key, next)
    decreases |s|
  {
    if s != [] {
      var n := |s| - 1;
      var init, last := s[..n], key(s[n]);
      KeyedMeans(init, key, last);
      if Keyed(s, key, next) {
        forall i, j | 0 <= i < j < |s| ensures key(s[i]) < key(s[j]) {
          assert s[i] == init[i];
          if j < n { assert s[j] == init[j]; }
        }
        forall i | 0 <= i < |s| ensures 1 <= key(s[i]) < next {
          if i < n { assert s[i] == init[i]; }
        }
      }
      if KeyedAt(s, key, next) {
        forall i, j | 0 <= i < j < |init| ensures key(init[i]) < key(init[j]) {
          assert init[i] == s[i] && init[j] == s[j];
        }
        forall i | 0 <= i < |init| ensures 1 <= key(init[i]) < last {
          assert init[i] == s[i];
        }
      }
    }
  }

  /** Adding a row under the next id keeps the table keyed. */
  lemma KeyedSnoc<T>(s: seq<T>, x: T, key: T -> int, next: int)
    requires Keyed(s, key, next) && key(x) == next && 1 <= next
    ensures Keyed(s + [x], key, next + 1)
  {
    assert (s + [x])[..|s|] == s;
  }

  /** A table rewritten row by row with the ids kept stays keyed. */
  lemma KeyedSameKeys<T>(s: seq<T>, t: seq<T>, key: T -> int, next: int)
    requires Keyed(s, key, next) && |t| == |s|
    requires forall i :: 0 <= i < |s| ==> key(t[i]) == key(s[i])
    ensures Keyed(t, key, next)
  {
    KeyedMeans(s, key, next);
    KeyedMeans(t, key, next);
  }

  /** A table keyed below some bound is keyed below any larger one. */
  lemma KeyedRaise<T>(s: seq<T>, key: T -> int, next: int, bound: int)
    requires Keyed(s, key, next) && next <= bound
    ensures Keyed(s, key, bound)
  {
  }

  /** Dropping rows keeps the table keyed. */
  lemma {:induction false} KeyedFilter<T(!new)>(s: seq<T>, p: T -> bool, key: T -> int, next: int)
    requires Keyed(s, key, next)
    ensures Keyed(Filter(s, p), key, next)
  {
    if s != [] {
      var n := |s| - 1;
      var init := s[..n];
      KeyedFilter(init, p, key, key(s[n]));
      if p(s[n]) {
        var t := Filter(init, p) + [s[n]];
        assert Filter(s, p) == t;
        assert t[..|t| - 1] == Filter(init, p);
      } else {
        assert Filter(s, p) == Filter(init, p);
        KeyedRaise(Filter(init, p), key, key(s[n]), next);
      }
    }
  }

  /** Rows appended under consecutive fresh ids keep the table keyed. */
  lemma KeyedAppend<T>(s: seq<T>, t: seq<T>, key: T -> int, next: int)
    requires Keyed(s, key, next) && 1 <= next
    requires forall k :: 0 <= k < |t| ==> key(t[k]) == next + k
    ensures Keyed(s + t, key, next + |t|)
  {
    KeyedMeans(s, key, next);
    KeyedMeans(s + t, key, next + |t|);
    var u := s + t;
    forall i, j | 0 <= i < j < |u| ensures key(u[i]) < key(u[j]) {
      if j < |s| {
        assert u[i] == s[i] && u[j] == s[j];
      } else if i < |s| {
        assert u[i] == s[i] && u[j] == t[j - |s|];
      } else {
        assert u[i] == t[i - |s|] && u[j] == t[j - |s|];
      }
    }
    forall i | 0 <= i < |u| ensures 1 <= key(u[i]) < next + |t| {
      if i < |s| {
        assert u[i] == s[i];
      } else {
        assert u[i] == t[i - |s|];
      }
    }
  }
}
