/** Sequence operations that stand for JavaScript's `Array.prototype.filter`
    and for `Array.from(new Set(xs))`. */
module Seqs {

  /** `a` is obtained from `b` by deleting elements: order is kept. */
  ghost predicate IsSubseq<T>(a: seq<T>, b: seq<T>)
    decreases |b|
  {
    |a| == 0 || (|b| > 0 && (if a[0] == b[0] then IsSubseq(a[1..], b[1..]) else IsSubseq(a, b[1..])))
  }

  /** `s.filter(p)`: exactly the elements satisfying `p`, each as often as
      in `s`. */
  function Filter<T(!new)>(s: seq<T>, p: T -> bool): (r: seq<T>)
    ensures forall x :: multiset(r)[x] == if p(x) then multiset(s)[x] else 0
    ensures |r| <= |s|
  {
    if |s| == 0 then []
    else
      assert s == [s[0]] + s[1..];
      (if p(s[0]) then [s[0]] else []) + Filter(s[1..], p)
  }

  lemma FilterMembers<T(!new)>(s: seq<T>, p: T -> bool, x: T)
    ensures x in Filter(s, p) <==> x in s && p(x)
  {
    assert x in Filter(s, p) <==> multiset(Filter(s, p))[x] > 0;
    assert x in s <==> multiset(s)[x] > 0;
  }

  lemma {:induction false} FilterIsSubseq<T(!new)>(s: seq<T>, p: T -> bool)
    ensures IsSubseq(Filter(s, p), s)
  {
    if |s| > 0 {
      var rest := Filter(s[1..], p);
      FilterIsSubseq(s[1..], p);
      if p(s[0]) {
        assert Filter(s, p) == [s[0]] + rest;
        assert ([s[0]] + rest)[1..] == rest;
      } else {
        assert Filter(s, p) == rest;
        SubseqOfTail(rest, s);
      }
    }
  }

  lemma {:induction false} SubseqOfTail<T>(a: seq<T>, b: seq<T>)
    requires |b| > 0 && IsSubseq(a, b[1..])
    ensures IsSubseq(a, b)
    decreases |b|, |a|
  {
    if |a| > 0 && a[0] == b[0] {
      SubseqDropHead(a, b[1..]);
    }
  }

  /** If `a` embeds into `c`, so does `a` without its first element. */
  lemma {:induction false} SubseqDropHead<T>(a: seq<T>, c: seq<T>)
    requires |a| > 0 && IsSubseq(a, c)
    ensures IsSubseq(a[1..], c)
    decreases |c|, |a|
  {
    if |a| > 1 {
      if a[0] == c[0] {
        SubseqOfTail(a[1..], c);
      } else {
        SubseqDropHead(a, c[1..]);
        SubseqOfTail(a[1..], c);
      }
    }
  }

  /** Filtering distributes over appending one element. */
  lemma {:induction false} FilterAppend<T(!new)>(s: seq<T>, x: T, p: T -> bool)
    ensures Filter(s + [x], p) == Filter(s, p) + (if p(x) then [x] else [])
  {
    var t, tail := s + [x], if p(x) then [x] else [];
    if |s| == 0 {
      assert t == [x] && t[1..] == [];
      FilterUncons(t, p);
    } else {
      assert t[0] == s[0] && t[1..] == s[1..] + [x];
      FilterAppend(s[1..], x, p);
      FilterUncons(t, p);
      FilterUncons(s, p);
      ConcatAssoc(if p(s[0]) then [s[0]] else [], Filter(s[1..], p), tail);
    }
  }

  lemma {:induction false} FilterAll<T(!new)>(s: seq<T>, p: T -> bool)
    requires forall i | 0 <= i < |s| :: p(s[i])
    ensures Filter(s, p) == s
  {
    if |s| > 0 {
      assert forall i | 0 <= i < |s[1..]| :: p(s[1..][i]) by {
        forall i | 0 <= i < |s[1..]| ensures p(s[1..][i]) {
          assert s[1..][i] == s[i + 1];
        }
      }
      FilterAll(s[1..], p);
      assert Filter(s, p) == [s[0]] + Filter(s[1..], p);
      assert s == [s[0]] + s[1..];
    }
  }

  /** Filtering a sequence that starts with `y`. */
  lemma FilterCons<T(!new)>(y: T, s: seq<T>, p: T -> bool)
    ensures Filter([y] + s, p) == (if p(y) then [y] else []) + Filter(s, p)
  {
    assert ([y] + s)[1..] == s;
  }

  lemma {:induction false} FilterUncons<T(!new)>(s: seq<T>, p: T -> bool)
    requires |s| > 0
    ensures Filter(s, p) == (if p(s[0]) then [s[0]] else []) + Filter(s[1..], p)
  {
  }

  lemma ConcatAssoc<T>(a: seq<T>, b: seq<T>, c: seq<T>)
    ensures a + (b + c) == (a + b) + c
  {
  }

  /** Two tests that agree everywhere filter alike. */
  lemma {:induction false} FilterExt<T(!new)>(s: seq<T>, p: T -> bool, q: T -> bool)
    requires forall x :: p(x) == q(x)
    ensures Filter(s, p) == Filter(s, q)
  {
    if |s| > 0 {
      FilterExt(s[1..], p, q);
    }
  }

  /** Filtering twice is filtering once by the conjunction. */
  lemma {:induction false} FilterFilter<T(!new)>(s: seq<T>, p: T -> bool, q: T -> bool, pq: T -> bool)
    requires forall x :: pq(x) == (p(x) && q(x))
    ensures Filter(Filter(s, p), q) == Filter(s, pq)
  {
    if |s| > 0 {
      var rest := Filter(s[1..], p);
      FilterFilter(s[1..], p, q, pq);
      assert Filter(s, pq) == (if pq(s[0]) then [s[0]] else []) + Filter(s[1..], pq);
      if p(s[0]) {
        assert Filter(s, p) == [s[0]] + rest;
        FilterCons(s[0], rest, q);
      } else {
        assert Filter(s, p) == rest;
      }
    }
  }

  /** Some occurrence of `x` in `s` comes before some occurrence of `y`. */
  ghost predicate Precedes<T>(s: seq<T>, x: T, y: T) {
    exists i, j | 0 <= i < j < |s| :: s[i] == x && s[j] == y
  }

  /** Filtering keeps two kept elements in their order. */
  lemma {:induction false} FilterPrecedes<T(!new)>(s: seq<T>, p: T -> bool, x: T, y: T)
    requires Precedes(s, x, y) && p(x) && p(y)
    ensures Precedes(Filter(s, p), x, y)
  {
    var i, j :| 0 <= i < j < |s| && s[i] == x && s[j] == y;
    var f, rest := Filter(s, p), Filter(s[1..], p);
    if i == 0 {
      assert f == [s[0]] + rest && f[1..] == rest;
      assert y in s[1..] by {
        assert s[1..][j - 1] == y;
      }
      FilterMembers(s[1..], p, y);
      PrecedesHead(f, y);
    } else {
      assert Precedes(s[1..], x, y) by {
        assert s[1..][i - 1] == x && s[1..][j - 1] == y;
      }
      FilterPrecedes(s[1..], p, x, y);
      if p(s[0]) {
        assert f == [s[0]] + rest && f[1..] == rest;
        PrecedesInTail(f, x, y);
      } else {
        assert f == rest;
      }
    }
  }

  lemma PrecedesHead<T>(t: seq<T>, y: T)
    requires |t| > 0 && y in t[1..]
    ensures Precedes(t, t[0], y)
  {
    var j :| 0 <= j < |t[1..]| && t[1..][j] == y;
    assert t[j + 1] == y;
  }

  /** Two elements in order after filtering were in that order before. */
  lemma {:induction false} FilterPrecedesBack<T(!new)>(s: seq<T>, p: T -> bool, x: T, y: T)
    requires Precedes(Filter(s, p), x, y)
    ensures Precedes(s, x, y)
  {
    var f, rest := Filter(s, p), Filter(s[1..], p);
    var a, b :| 0 <= a < b < |f| && f[a] == x && f[b] == y;
    if p(s[0]) {
      assert f == [s[0]] + rest;
      if a == 0 {
        assert rest[b - 1] == y;
        PrecedesFromHead(s, p, y);
      } else {
        assert rest[a - 1] == x && rest[b - 1] == y;
        FilterPrecedesBack(s[1..], p, x, y);
        PrecedesInTail(s, x, y);
      }
    } else {
      assert f == rest;
      FilterPrecedesBack(s[1..], p, x, y);
      PrecedesInTail(s, x, y);
    }
  }

  lemma PrecedesFromHead<T(!new)>(s: seq<T>, p: T -> bool, y: T)
    requires |s| > 0 && y in Filter(s[1..], p)
    ensures Precedes(s, s[0], y)
  {
    FilterMembers(s[1..], p, y);
    PrecedesHead(s, y);
  }

  lemma PrecedesInTail<T>(s: seq<T>, x: T, y: T)
    requires |s| > 0 && Precedes(s[1..], x, y)
    ensures Precedes(s, x, y)
  {
    var i, j :| 0 <= i < j < |s[1..]| && s[1..][i] == x && s[1..][j] == y;
    assert s[i + 1] == x && s[j + 1] == y;
  }

  /** The position of the first occurrence of `x` in `s`. */
  function FirstIndex<T(==)>(s: seq<T>, x: T): (i: nat)
    requires x in s
    ensures i < |s| && s[i] == x
    ensures forall j | 0 <= j < i :: s[j] != x
  {
    if s[0] == x then 0
    else
      assert x in s[1..] by { assert s == [s[0]] + s[1..]; }
      var k := FirstIndex(s[1..], x);
      assert forall j | 1 <= j < k + 1 :: s[j] == s[1..][j - 1];
      1 + k
  }

  /** Appending cannot move an existing first occurrence. */
  lemma FirstIndexAppend<T>(s: seq<T>, y: T, x: T)
    requires x in s
    ensures x in s + [y] && FirstIndex(s + [y], x) == FirstIndex(s, x)
  {
    var i, k := FirstIndex(s + [y], x), FirstIndex(s, x);
    assert (s + [y])[k] == x;
  }

  /** Every element occurs at most once. */
  predicate NoDuplicates<T(==)>(s: seq<T>) {
    forall x | x in s :: multiset(s)[x] == 1
  }

  lemma NoDuplicatesDistinct<T>(s: seq<T>, i: nat, j: nat)
    requires NoDuplicates(s) && i < j < |s|
    ensures s[i] != s[j]
  {
    var x := s[i];
    assert s == s[..j] + s[j..];
    assert x in s[..j];
    assert multiset(s)[x] == multiset(s[..j])[x] + multiset(s[j..])[x];
    assert multiset(s[j..])[x] == 0;
    assert s[j] in s[j..];
  }

  /** `Array.from(new Set(s))`: the distinct elements of `s`, in the order
      of their first occurrence (a `Set` iterates in insertion order). */
  function Dedupe<T(==,!new)>(s: seq<T>): (r: seq<T>)
    ensures NoDuplicates(r)
    ensures forall x :: x in r <==> x in s
    ensures forall i, j | 0 <= i < j < |r| :: FirstIndex(s, r[i]) < FirstIndex(s, r[j])
  {
    if |s| == 0 then []
    else
      var init, last := s[..|s| - 1], s[|s| - 1];
      assert s == init + [last];
      var d := Dedupe(init);
      DedupeStep(init, last, d);
      if last in d then d else d + [last]
  }

  /** One element more: a new element goes last, an old one changes
      nothing. */
  lemma DedupeStep<T>(init: seq<T>, last: T, d: seq<T>)
    requires NoDuplicates(d)
    requires forall x :: x in d <==> x in init
    requires forall i, j | 0 <= i < j < |d| :: FirstIndex(init, d[i]) < FirstIndex(init, d[j])
    ensures var r := if last in d then d else d + [last];
      && NoDuplicates(r)
      && (forall x :: x in r <==> x in init + [last])
      && (forall i, j | 0 <= i < j < |r| :: FirstIndex(init + [last], r[i]) < FirstIndex(init + [last], r[j]))
  {
    var s := init + [last];
    var r := if last in d then d else d + [last];
    assert forall x :: x in s <==> x in init || x == last;
    forall i, j | 0 <= i < j < |r|
      ensures FirstIndex(s, r[i]) < FirstIndex(s, r[j])
    {
      assert r[i] == d[i];
      FirstIndexAppend(init, last, r[i]);
      if j < |d| {
        assert r[j] == d[j];
        FirstIndexAppend(init, last, r[j]);
      } else {
        assert r[j] == last && last !in init;
        var k := FirstIndex(s, last);
      }
    }
    if last !in d {
      forall x | x in r ensures multiset(r)[x] == 1 {
        if x == last {
          assert multiset(d)[last] == 0;
        } else {
          assert x in d;
        }
      }
    }
  }
}
