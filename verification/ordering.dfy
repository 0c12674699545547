/** Sorting as the pages do it: `Array.prototype.sort`, which is stable,
    with a comparator that is a strict total order on the sort keys. The
    video lists use

      if (av < bv) return order === "asc" ? -1 : 1;
      if (av > bv) return order === "asc" ? 1 : -1;
      return 0;

    where `av`, `bv` are the sort keys of the two rows (`Comparator`). */
module Ordering {
  import Text
  import opened Seqs

  /** The `order` state; any value other than "asc" sorts descending. */
  datatype Direction = Asc | Desc

  /** The order button: `o === "asc" ? "desc" : "asc"`. */
  function Toggle(d: Direction): (r: Direction)
    ensures r != d
  {
    if d == Asc then Desc else Asc
  }

  lemma ToggleTwice(d: Direction)
    ensures Toggle(Toggle(d)) == d
  {
  }

  /** A sort key: within one sort every key has the same shape (all numbers
      or all strings). */
  datatype SortKey = Num(n: int) | Str(s: string)

  /** JavaScript `<` on two keys of the same shape; numbers are placed
      before strings only to make the order total. */
  predicate KeyLess(a: SortKey, b: SortKey) {
    match (a, b)
    case (Num(x), Num(y)) => x < y
    case (Str(x), Str(y)) => Text.StrLess(x, y)
    case (Num(_), Str(_)) => true
    case (Str(_), Num(_)) => false
  }

  /** The comparator returns a negative number: `a` goes before `b`. */
  predicate Before(a: SortKey, b: SortKey, dir: Direction) {
    if dir == Asc then KeyLess(a, b) else KeyLess(b, a)
  }

  lemma BeforeIrreflexive(a: SortKey, dir: Direction)
    ensures !Before(a, a, dir)
  {
    if a.Str? { Text.StrLessIrreflexive(a.s); }
  }

  lemma KeyLessTransitive(a: SortKey, b: SortKey, c: SortKey)
    requires KeyLess(a, b) && KeyLess(b, c)
    ensures KeyLess(a, c)
  {
    if a.Str? && b.Str? && c.Str? { Text.StrLessTransitive(a.s, b.s, c.s); }
  }

  lemma KeyLessTotal(a: SortKey, b: SortKey)
    requires a != b
    ensures KeyLess(a, b) || KeyLess(b, a)
  {
    if a.Str? && b.Str? { Text.StrLessTotal(a.s, b.s); }
  }

  /** The video lists' comparator as a relation: `lt(a, b)` when the
      comparator returns a negative number for `a`, `b`. */
  function Comparator(dir: Direction): (SortKey, SortKey) -> bool {
    (a: SortKey, b: SortKey) => Before(a, b, dir)
  }

  /** What a comparator must be for the sort to have one answer: no key
      before itself, transitive, and any two different keys ordered. */
  ghost predicate StrictTotalOrder<K(!new)>(lt: (K, K) -> bool) {
    && (forall a :: !lt(a, a))
    && (forall a, b, c | lt(a, b) && lt(b, c) :: lt(a, c))
    && (forall a, b | a != b :: lt(a, b) || lt(b, a))
  }

  lemma ComparatorIsStrictTotal(dir: Direction)
    ensures StrictTotalOrder(Comparator(dir))
  {
    var lt := Comparator(dir);
    forall a ensures !lt(a, a) {
      BeforeIrreflexive(a, dir);
    }
    forall a, b, c | lt(a, b) && lt(b, c) ensures lt(a, c) {
      if dir == Asc { KeyLessTransitive(a, b, c); } else { KeyLessTransitive(c, b, a); }
    }
    forall a, b | a != b ensures lt(a, b) || lt(b, a) {
      KeyLessTotal(a, b);
    }
  }

  /** Strictly-before followed by not-after is strictly before. */
  lemma BeforeThenNotAfter<K(!new)>(lt: (K, K) -> bool, a: K, b: K, c: K)
    requires StrictTotalOrder(lt) && lt(a, b) && !lt(c, b)
    ensures lt(a, c) && !lt(c, a)
  {
    if b != c {
      assert lt(b, c);
    }
  }

  /** Sorted by the comparator: no later element goes strictly before an
      earlier one. */
  ghost predicate SortedBy<T, K>(s: seq<T>, key: T -> K, lt: (K, K) -> bool) {
    forall i, j | 0 <= i < j < |s| :: !lt(key(s[j]), key(s[i]))
  }

  /** Inserts `x` after every element it does not go strictly before. */
  function Insert<T(!new), K(==,!new)>(x: T, t: seq<T>, key: T -> K, lt: (K, K) -> bool): (r: seq<T>)
    requires StrictTotalOrder(lt) && SortedBy(t, key, lt)
    ensures multiset(r) == multiset(t) + multiset{x}
    ensures SortedBy(r, key, lt)
    decreases |t|
  {
    if |t| == 0 then [x]
    else if lt(key(x), key(t[0])) then
      InsertFrontSorted(x, t, key, lt);
      [x] + t
    else
      assert t == [t[0]] + t[1..];
      var rest := Insert(x, t[1..], key, lt);
      InsertBehindSorted(x, t, rest, key, lt);
      [t[0]] + rest
  }

  lemma InsertFrontSorted<T, K(!new)>(x: T, t: seq<T>, key: T -> K, lt: (K, K) -> bool)
    requires StrictTotalOrder(lt)
    requires |t| > 0 && SortedBy(t, key, lt) && lt(key(x), key(t[0]))
    ensures SortedBy([x] + t, key, lt)
  {
    var r := [x] + t;
    forall i, j | 0 <= i < j < |r| ensures !lt(key(r[j]), key(r[i])) {
      if i == 0 {
        assert r[j] == t[j - 1];
        if j > 1 {
          assert !lt(key(t[j - 1]), key(t[0]));
        }
        BeforeThenNotAfter(lt, key(x), key(t[0]), key(t[j - 1]));
      } else {
        assert r[i] == t[i - 1] && r[j] == t[j - 1];
      }
    }
  }

  lemma InsertBehindSorted<T(!new), K>(x: T, t: seq<T>, rest: seq<T>, key: T -> K, lt: (K, K) -> bool)
    requires |t| > 0 && SortedBy(t, key, lt) && !lt(key(x), key(t[0]))
    requires multiset(rest) == multiset(t[1..]) + multiset{x} && SortedBy(rest, key, lt)
    ensures SortedBy([t[0]] + rest, key, lt)
  {
    var r := [t[0]] + rest;
    forall i, j | 0 <= i < j < |r| ensures !lt(key(r[j]), key(r[i])) {
      if i == 0 {
        var y := r[j];
        assert y == rest[j - 1];
        assert y in multiset(rest);
        if y != x {
          assert y in multiset(t[1..]);
          var k :| 0 <= k < |t[1..]| && t[1..][k] == y;
          assert t[k + 1] == y;
        }
      } else {
        assert r[i] == rest[i - 1] && r[j] == rest[j - 1];
      }
    }
  }

  /** The test "has key `k`". */
  function HasKey<T, K(==,!new)>(key: T -> K, k: K): T -> bool {
    (x: T) => key(x) == k
  }

  /** The elements of `s` whose key is `k`, in their order in `s`. */
  function KeyClass<T(!new), K(==,!new)>(s: seq<T>, key: T -> K, k: K): seq<T> {
    Filter(s, HasKey(key, k))
  }

  lemma {:induction false} KeyClassEmpty<T(!new), K(!new)>(t: seq<T>, key: T -> K, k: K)
    requires forall i | 0 <= i < |t| :: key(t[i]) != k
    ensures KeyClass(t, key, k) == []
  {
    if |t| > 0 {
      KeyClassEmpty(t[1..], key, k);
    }
  }

  /** Inserting `x` appends it to its own key class and leaves the others
      alone: it goes after every element with the same key. */
  lemma {:induction false} InsertKeyClass<T(!new), K(!new)>(x: T, t: seq<T>, key: T -> K, lt: (K, K) -> bool, k: K)
    requires StrictTotalOrder(lt) && SortedBy(t, key, lt)
    ensures KeyClass(Insert(x, t, key, lt), key, k) == KeyClass(t, key, k) + (if key(x) == k then [x] else [])
    decreases |t|
  {
    if |t| == 0 {
      assert Insert(x, t, key, lt) == [x] + [];
      FilterCons(x, [], HasKey(key, k));
    } else if lt(key(x), key(t[0])) {
      assert Insert(x, t, key, lt) == [x] + t;
      InsertFrontKeyClass(x, t, key, lt, k);
    } else {
      var rest := Insert(x, t[1..], key, lt);
      assert Insert(x, t, key, lt) == [t[0]] + rest;
      InsertKeyClass(x, t[1..], key, lt, k);
      ConsKeyClass(t, rest, key, k, if key(x) == k then [x] else []);
    }
  }

  /** `x` going before the first element of a sorted `t` shares its key
      with no element of `t`. */
  lemma {:induction false} InsertFrontKeyClass<T(!new), K(!new)>(x: T, t: seq<T>, key: T -> K, lt: (K, K) -> bool, k: K)
    requires StrictTotalOrder(lt) && SortedBy(t, key, lt)
    requires |t| > 0 && lt(key(x), key(t[0]))
    ensures KeyClass([x] + t, key, k) == KeyClass(t, key, k) + (if key(x) == k then [x] else [])
  {
    FilterCons(x, t, HasKey(key, k));
    if key(x) == k {
      forall i | 0 <= i < |t| ensures key(t[i]) != k {
        if i > 0 {
          assert !lt(key(t[i]), key(t[0]));
        }
        BeforeThenNotAfter(lt, key(x), key(t[0]), key(t[i]));
      }
      KeyClassEmpty(t, key, k);
    }
  }

  lemma {:induction false} ConsKeyClass<T(!new), K(!new)>(t: seq<T>, rest: seq<T>, key: T -> K, k: K, extra: seq<T>)
    requires |t| > 0 && KeyClass(rest, key, k) == KeyClass(t[1..], key, k) + extra
    ensures KeyClass([t[0]] + rest, key, k) == KeyClass(t, key, k) + extra
  {
    var p := HasKey(key, k);
    FilterUncons(t, p);
    FilterCons(t[0], rest, p);
    ConcatAssoc(if p(t[0]) then [t[0]] else [], Filter(t[1..], p), extra);
  }

  /** `s.sort(comparator)`: a stable insertion sort. The result is a
      permutation of `s`, ordered by the comparator, and elements with
      equal keys keep their order in `s`. */
  function Sort<T(!new), K(==,!new)>(s: seq<T>, key: T -> K, lt: (K, K) -> bool): (r: seq<T>)
    requires StrictTotalOrder(lt)
    ensures multiset(r) == multiset(s)
    ensures SortedBy(r, key, lt)
    ensures forall k :: KeyClass(r, key, k) == KeyClass(s, key, k)
  {
    if |s| == 0 then []
    else
      var init, last := s[..|s| - 1], s[|s| - 1];
      assert s == init + [last];
      var t := Sort(init, key, lt);
      SortStep(init, last, t, key, lt);
      Insert(last, t, key, lt)
  }

  lemma SortStep<T(!new), K(!new)>(init: seq<T>, last: T, t: seq<T>, key: T -> K, lt: (K, K) -> bool)
    requires StrictTotalOrder(lt) && SortedBy(t, key, lt)
    requires forall k :: KeyClass(t, key, k) == KeyClass(init, key, k)
    ensures forall k :: KeyClass(Insert(last, t, key, lt), key, k) == KeyClass(init + [last], key, k)
  {
    forall k ensures KeyClass(Insert(last, t, key, lt), key, k) == KeyClass(init + [last], key, k) {
      InsertKeyClass(last, t, key, lt, k);
      FilterAppend(init, last, HasKey(key, k));
    }
  }

  /** Stability, element-wise: two elements with the same key that the
      sort puts in some order were in that order before. */
  lemma SortKeepsTieOrder<T(!new), K(!new)>(s: seq<T>, key: T -> K, lt: (K, K) -> bool, x: T, y: T)
    requires StrictTotalOrder(lt)
    requires key(x) == key(y) && Precedes(Sort(s, key, lt), x, y)
    ensures Precedes(s, x, y)
  {
    var p := HasKey(key, key(x));
    FilterPrecedes(Sort(s, key, lt), p, x, y);
    assert KeyClass(Sort(s, key, lt), key, key(x)) == KeyClass(s, key, key(x));
    FilterPrecedesBack(s, p, x, y);
  }
}
