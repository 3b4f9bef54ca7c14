/** Byte-string order, and sorting by it: what Rust's ordered maps and slice
    sorts rely on. */
module Order {
  import opened Machine

  /** Lexicographic order on byte strings. */
  predicate LexLess(a: seq<byte>, b: seq<byte>) {
    b != [] && (a == [] || a[0] < b[0] || (a[0] == b[0] && LexLess(a[1..], b[1..])))
  }

  lemma {:induction false} LexTotal(a: seq<byte>, b: seq<byte>)
    ensures !(LexLess(a, b) && LexLess(b, a))
    ensures a != b <==> LexLess(a, b) || LexLess(b, a)
  {
    if a != [] && b != [] && a[0] == b[0] {
      LexTotal(a[1..], b[1..]);
      if a[1..] == b[1..] { assert a == [a[0]] + a[1..] && b == [b[0]] + b[1..]; }
    }
  }

  lemma {:induction false} LexTransitive(a: seq<byte>, b: seq<byte>, c: seq<byte>)
    requires LexLess(a, b) && LexLess(b, c)
    ensures LexLess(a, c)
  {
    if a != [] && a[0] == b[0] == c[0] { LexTransitive(a[1..], b[1..], c[1..]); }
  }

  /** The order in one step: the first difference decides, and a proper prefix
      comes first. */
  lemma {:induction false} LexLessIff(a: seq<byte>, b: seq<byte>)
    ensures LexLess(a, b) <==>
            exists k :: 0 <= k <= |a| && k < |b| && a[..k] == b[..k] && (k == |a| || a[k] < b[k])
  {
    if a != [] && b != [] && a[0] == b[0] {
      LexLessIff(a[1..], b[1..]);
      if LexLess(a, b) {
        var k :| 0 <= k <= |a[1..]| && k < |b[1..]| && a[1..][..k] == b[1..][..k]
          && (k == |a[1..]| || a[1..][k] < b[1..][k]);
        assert a[..k + 1] == [a[0]] + a[1..][..k] && b[..k + 1] == [b[0]] + b[1..][..k];
      }
      if k :| 0 <= k <= |a| && k < |b| && a[..k] == b[..k] && (k == |a| || a[k] < b[k]) {
        assert k > 0;
        assert a[..k][1..] == a[1..][..k - 1] && b[..k][1..] == b[1..][..k - 1];
      }
    } else if a == [] && b != [] {
      assert a[..0] == b[..0];
    } else if a != [] && b != [] {
      assert a[..0] == b[..0];
      if k :| 0 <= k <= |a| && k < |b| && a[..k] == b[..k] && (k == |a| || a[k] < b[k]) {
        assert k > 0 ==> a[..k][0] == b[..k][0];
      }
    }
  }

  // ---- Sorting ----

  function Insert(x: seq<byte>, s: seq<seq<byte>>): seq<seq<byte>> {
    if s == [] then [x] else if LexLess(s[0], x) then [s[0]] + Insert(x, s[1..]) else [x] + s
  }

  function Sort(s: seq<seq<byte>>): seq<seq<byte>> { if s == [] then [] else Insert(s[0], Sort(s[1..])) }

  ghost predicate Sorted(s: seq<seq<byte>>) {
    forall i, j :: 0 <= i < j < |s| ==> !LexLess(s[j], s[i])
  }

  ghost predicate NoneBelow(x: seq<byte>, s: seq<seq<byte>>) { forall y :: y in s ==> !LexLess(y, x) }

  lemma SortedCons(x: seq<byte>, s: seq<seq<byte>>)
    ensures Sorted([x] + s) <==> NoneBelow(x, s) && Sorted(s)
  {
    var t := [x] + s;
    if Sorted(t) {
      forall y | y in s ensures !LexLess(y, x) {
        var k :| 0 <= k < |s| && s[k] == y;
        assert t[k + 1] == y && t[0] == x;
      }
      forall i, j | 0 <= i < j < |s| ensures !LexLess(s[j], s[i]) { assert t[i + 1] == s[i] && t[j + 1] == s[j]; }
    }
  }

  lemma {:induction false} InsertSorts(x: seq<byte>, s: seq<seq<byte>>)
    requires Sorted(s)
    ensures Sorted(Insert(x, s)) && multiset(Insert(x, s)) == multiset(s) + multiset{x}
    ensures forall y :: y in Insert(x, s) <==> y == x || y in s
  {
    if s == [] {
    } else {
      var h, rest := s[0], s[1..];
      assert s == [h] + rest;
      SortedCons(h, rest);
      LexTotal(h, x);
      if LexLess(h, x) {
        InsertSorts(x, rest);
        SortedCons(h, Insert(x, rest));
      } else {
        forall y | y in s ensures !LexLess(y, x) {
          if LexLess(y, x) && x != h { LexTransitive(y, x, h); }
        }
        SortedCons(x, s);
      }
    }
  }

  lemma {:induction false} SortSorts(s: seq<seq<byte>>)
    ensures Sorted(Sort(s)) && multiset(Sort(s)) == multiset(s)
  {
    if s == [] {
    } else {
      SortSorts(s[1..]);
      InsertSorts(s[0], Sort(s[1..]));
      assert s == [s[0]] + s[1..];
    }
  }

  lemma SameHead(s: seq<seq<byte>>, t: seq<seq<byte>>)
    requires Sorted(s) && Sorted(t) && multiset(s) == multiset(t) && s != [] && t != []
    ensures s[0] == t[0]
  {
    var (a, x, b, y) := (s[0], s[1..], t[0], t[1..]);
    assert s == [a] + x && t == [b] + y;
    assert a in multiset(t) && b in multiset(s);
    LexTotal(a, b);
  }

  lemma TailMultiset(s: seq<seq<byte>>)
    requires s != []
    ensures multiset(s[1..]) == multiset(s) - multiset{s[0]} && s == [s[0]] + s[1..]
  {
    assert s == [s[0]] + s[1..];
  }

  /** A multiset has only one sorted arrangement. */
  lemma {:induction false} SortedUnique(s: seq<seq<byte>>, t: seq<seq<byte>>)
    requires Sorted(s) && Sorted(t) && multiset(s) == multiset(t)
    ensures s == t
  {
    SameSize(s, t);
    if s != [] {
      SameHead(s, t);
      TailMultiset(s);
      TailMultiset(t);
      SortedUnique(s[1..], t[1..]);
    }
  }

  lemma SameSize(s: seq<seq<byte>>, t: seq<seq<byte>>)
    requires multiset(s) == multiset(t)
    ensures |s| == |t|
  {
    assert |s| == |multiset(s)| && |t| == |multiset(t)|;
  }

  /** Sorting forgets order and nothing else. */
  lemma SortIdentifiesMultisets(s: seq<seq<byte>>, t: seq<seq<byte>>)
    ensures Sort(s) == Sort(t) <==> multiset(s) == multiset(t)
  {
    SortSorts(s);
    SortSorts(t);
    if multiset(s) == multiset(t) { SortedUnique(Sort(s), Sort(t)); }
  }

  // ---- Sets ----

  lemma SubsetSize<T>(a: set<T>, b: set<T>)
    requires a <= b
    ensures |a| <= |b|
  {
    assert b == a + (b - a);
  }

  lemma Overlap<T>(a: set<T>, b: set<T>, all: set<T>)
    requires a <= all && b <= all
    ensures |a * b| >= |a| + |b| - |all|
  {
    assert a + b == (a - b) + b && a == (a - b) + (a * b);
    SubsetSize(a + b, all);
  }

  /** A set whose elements all come from a sequence is no larger than it. */
  lemma {:induction false} ListedAtMost<S(!new), T(!new)>(s: seq<S>, f: S -> T, ids: set<T>)
    requires forall id :: id in ids ==> exists x :: x in s && f(x) == id
    ensures |ids| <= |s|
  {
    if s == [] {
      assert ids == {};
    } else {
      var first, rest := f(s[0]), s[1..];
      forall id | id in ids - {first} ensures exists x :: x in rest && f(x) == id {
        var x :| x in s && f(x) == id;
        assert s == [s[0]] + rest;
      }
      ListedAtMost(rest, f, ids - {first});
      SubsetSize(ids, (ids - {first}) + {first});
    }
  }

  // ---- Ordered iteration over a set of keys ----

  ghost predicate StrictOrder<T(!new)>(less: (T, T) -> bool, keys: set<T>) {
    && (forall a, b | a in keys && b in keys :: a != b <==> less(a, b) || less(b, a))
    && (forall a, b | a in keys && b in keys :: !(less(a, b) && less(b, a)))
    && (forall a, b, c | a in keys && b in keys && c in keys :: less(a, b) && less(b, c) ==> less(a, c))
  }

  predicate IsLeast<T(==)>(less: (T, T) -> bool, keys: set<T>, m: T) {
    m in keys && forall k | k in keys :: k == m || less(m, k)
  }

  lemma LeastExists<T(!new)>(less: (T, T) -> bool, keys: set<T>) returns (m: T)
    requires StrictOrder(less, keys) && keys != {}
    ensures IsLeast(less, keys, m)
    decreases |keys|
  {
    var x :| x in keys;
    var rest := keys - {x};
    if rest == {} {
      assert keys == {x};
      m := x;
    } else {
      var n := LeastExists(less, rest);
      m := if less(x, n) then x else n;
      assert less(x, n) || less(n, x);
    }
  }

  lemma LeastUnique<T(!new)>(less: (T, T) -> bool, keys: set<T>)
    requires StrictOrder(less, keys) && keys != {}
    ensures exists m :: IsLeast(less, keys, m)
    ensures forall m, n :: IsLeast(less, keys, m) && IsLeast(less, keys, n) ==> m == n
  {
    var m := LeastExists(less, keys);
  }

  /** The keys of an ordered map, in iteration order. */
  function Ascending<T(!new, ==)>(keys: set<T>, less: (T, T) -> bool): seq<T>
    requires StrictOrder(less, keys)
    decreases |keys|
  {
    if keys == {} then []
    else
      LeastUnique(less, keys);
      var m :| IsLeast(less, keys, m);
      [m] + Ascending(keys - {m}, less)
  }

  ghost predicate Ascends<T(!new)>(s: seq<T>, keys: set<T>, less: (T, T) -> bool) {
    (forall x :: x in s <==> x in keys) && (forall i, j :: 0 <= i < j < |s| ==> less(s[i], s[j]))
  }

  lemma {:induction false} AscendingAscends<T(!new)>(keys: set<T>, less: (T, T) -> bool)
    requires StrictOrder(less, keys)
    ensures Ascends(Ascending(keys, less), keys, less) && |Ascending(keys, less)| == |keys|
    decreases |keys|
  {
    if keys == {} {
    } else {
      var s := Ascending(keys, less);
      LeastUnique(less, keys);
      var m, rest := s[0], s[1..];
      assert IsLeast(less, keys, m) && rest == Ascending(keys - {m}, less);
      AscendingAscends(keys - {m}, less);
      LeastThenRest(m, rest, keys, less);
      assert s == [m] + rest;
    }
  }

  lemma LeastThenRest<T(!new)>(m: T, rest: seq<T>, keys: set<T>, less: (T, T) -> bool)
    requires IsLeast(less, keys, m) && Ascends(rest, keys - {m}, less)
    ensures Ascends([m] + rest, keys, less)
  {
    var s := [m] + rest;
    forall i, j | 0 <= i < j < |s| ensures less(s[i], s[j]) {
      assert s[j] == rest[j - 1] && rest[j - 1] in rest;
    }
  }

  lemma EmptyListsNothing<T(!new)>(s: seq<T>, keys: set<T>, less: (T, T) -> bool)
    requires Ascends(s, keys, less)
    ensures s == [] <==> keys == {}
  {
    if s != [] { assert s[0] in s; }
  }

  lemma HeadIsLeast<T(!new)>(s: seq<T>, keys: set<T>, less: (T, T) -> bool)
    requires Ascends(s, keys, less) && s != []
    ensures s[0] in keys && forall k :: k in keys && k != s[0] ==> less(s[0], k)
  {
    assert s[0] in s;
    forall k | k in keys && k != s[0] ensures less(s[0], k) {
      assert k in s;
    }
  }

  /** Only one strictly ascending sequence lists a given set of keys. */
  lemma {:induction false} AscendsUnique<T(!new)>(s: seq<T>, t: seq<T>, keys: set<T>, less: (T, T) -> bool)
    requires StrictOrder(less, keys) && Ascends(s, keys, less) && Ascends(t, keys, less)
    ensures s == t
  {
    EmptyListsNothing(s, keys, less);
    EmptyListsNothing(t, keys, less);
    if s != [] {
      HeadIsLeast(s, keys, less);
      HeadIsLeast(t, keys, less);
      var m, x, y := s[0], s[1..], t[1..];
      AscendsTail(s, keys, less);
      AscendsTail(t, keys, less);
      AscendsUnique(x, y, keys - {m}, less);
      assert s == [m] + x && t == [m] + y;
    }
  }

  lemma AscendsTail<T(!new)>(s: seq<T>, keys: set<T>, less: (T, T) -> bool)
    requires StrictOrder(less, keys) && Ascends(s, keys, less) && s != []
    ensures Ascends(s[1..], keys - {s[0]}, less)
  {
    assert s == [s[0]] + s[1..];
    forall x ensures x in s[1..] <==> x in keys - {s[0]} {
      if x in s[1..] {
        var k :| 0 <= k < |s[1..]| && s[1..][k] == x;
        assert s[k + 1] == x && less(s[0], x) && x in s && s[0] in s;
      }
    }
  }

  lemma LexOrders(keys: set<seq<byte>>)
    ensures StrictOrder(LexLess, keys)
  {
    forall a, b | a in keys && b in keys
      ensures (a != b <==> LexLess(a, b) || LexLess(b, a)) && !(LexLess(a, b) && LexLess(b, a))
    {
      LexTotal(a, b);
    }
    forall a, b, c | a in keys && b in keys && c in keys && LexLess(a, b) && LexLess(b, c) ensures LexLess(a, c) {
      LexTransitive(a, b, c);
    }
  }
}
