/** Generic sequence operations that stand for the JavaScript array and Set
    idioms the importer relies on: `[...new Set(xs)]`, `filter` and the
    stable `Array.prototype.sort`. */
module Seqs {

  /** No element occurs twice. */
  predicate NoDup<T(==)>(s: seq<T>) {
    forall i, j :: 0 <= i < j < |s| ==> s[i] != s[j]
  }

  /** `[...new Set(xs)]`: duplicates removed, the first occurrence kept. */
  function Dedupe<T(==,!new)>(xs: seq<T>): (r: seq<T>)
    ensures NoDup(r)
    ensures forall x :: x in r <==> x in xs
    ensures |r| <= |xs|
    decreases |xs|
  {
    if xs == [] then []
    else
      var d := Dedupe(xs[..|xs| - 1]);
      var x := xs[|xs| - 1];
      assert xs == xs[..|xs| - 1] + [x];
      if x in d then d else d + [x]
  }

  /** Adding elements after the old ones never disturbs the old union:
      the de-duplicated old list is a prefix of the de-duplicated whole. */
  lemma {:induction false} DedupePrefix<T(!new)>(a: seq<T>, b: seq<T>)
    ensures Dedupe(a) <= Dedupe(a + b)
    ensures |Dedupe(a)| <= |Dedupe(a + b)|
    decreases |b|
  {
    if b == [] {
      assert a + b == a;
    } else {
      var b' := b[..|b| - 1];
      assert (a + b)[..|a + b| - 1] == a + b';
      DedupePrefix(a, b');
    }
  }

  /** Adding only elements that are already present changes nothing. */
  lemma {:induction false} DedupeAbsorbs<T(!new)>(a: seq<T>, b: seq<T>)
    requires forall x :: x in b ==> x in a
    ensures Dedupe(a + b) == Dedupe(a)
    decreases |b|
  {
    if b == [] {
      assert a + b == a;
    } else {
      var b' := b[..|b| - 1];
      assert (a + b)[..|a + b| - 1] == a + b';
      assert (a + b)[|a + b| - 1] == b[|b| - 1];
      DedupeAbsorbs(a, b');
    }
  }

  /** A list without duplicates is its own de-duplication. */
  lemma {:induction false} DedupeNoDup<T(!new)>(s: seq<T>)
    requires NoDup(s)
    ensures Dedupe(s) == s
    decreases |s|
  {
    if s != [] {
      var s' := s[..|s| - 1];
      assert NoDup(s');
      DedupeNoDup(s');
      assert s[|s| - 1] !in s';
    }
  }

  /** Every element of `s` in order, mapped by `f` (`Array.prototype.map`). */
  function Map<T, U>(s: seq<T>, f: T -> U): (r: seq<U>)
    ensures |r| == |s|
    ensures forall i :: 0 <= i < |s| ==> r[i] == f(s[i])
  {
    if s == [] then [] else [f(s[0])] + Map(s[1..], f)
  }

  lemma {:induction false} MapAppend<T, U>(a: seq<T>, b: seq<T>, f: T -> U)
    ensures Map(a + b, f) == Map(a, f) + Map(b, f)
  {
  }

  /** The elements of `s` whose key is `k`, in order. */
  function WithKey<T(!new)>(s: seq<T>, key: T -> int, k: int): (r: seq<T>)
    ensures forall y :: y in r ==> y in s && key(y) == k
  {
    if s == [] then []
    else if key(s[0]) == k then [s[0]] + WithKey(s[1..], key, k)
    else WithKey(s[1..], key, k)
  }

  lemma {:induction false} WithKeyAppend<T(!new)>(a: seq<T>, b: seq<T>, key: T -> int, k: int)
    ensures WithKey(a + b, key, k) == WithKey(a, key, k) + WithKey(b, key, k)
    decreases |a|
  {
    if a == [] {
      assert a + b == b;
    } else {
      assert (a + b)[1..] == a[1..] + b;
      WithKeyAppend(a[1..], b, key, k);
    }
  }

  /** Keys never decrease along `s`. */
  predicate SortedBy<T>(s: seq<T>, key: T -> int) {
    forall i, j :: 0 <= i < j < |s| ==> key(s[i]) <= key(s[j])
  }

  /** Places `x` after every element of `t` whose key does not exceed its own,
      scanning from the back: the step of a stable insertion sort. */
  function Insert<T(!new)>(t: seq<T>, x: T, key: T -> int): (r: seq<T>)
    ensures |r| == |t| + 1
    ensures multiset(r) == multiset(t) + multiset{x}
    ensures forall y :: y in r ==> y in t || y == x
    ensures SortedBy(t, key) ==> SortedBy(r, key)
    decreases |t|
  {
    if t == [] || key(t[|t| - 1]) <= key(x) then t + [x]
    else
      var last := t[|t| - 1];
      var t' := t[..|t| - 1];
      assert t == t' + [last];
      var r' := Insert(t', x, key);
      assert SortedBy(t, key) ==> forall y :: y in r' ==> key(y) <= key(last);
      r' + [last]
  }

  /** An element whose key is below every key of `t` goes in front. */
  lemma {:induction false} InsertFront<T(!new)>(t: seq<T>, x: T, key: T -> int)
    requires forall y :: y in t ==> key(y) > key(x)
    ensures Insert(t, x, key) == [x] + t
    decreases |t|
  {
    if t != [] {
      var t', last := t[..|t| - 1], t[|t| - 1];
      assert t == t' + [last];
      assert last in t;
      assert forall y :: y in t' ==> y in t;
      InsertFront(t', x, key);
    }
  }

  /** The stable sort by an integer key (`Array.prototype.sort` with a
      comparator `key(a) - key(b)`; stable since ECMAScript 2019). */
  function SortBy<T(!new)>(s: seq<T>, key: T -> int): (r: seq<T>)
    ensures |r| == |s|
    ensures multiset(r) == multiset(s)
    ensures SortedBy(r, key)
    decreases |s|
  {
    if s == [] then []
    else
      assert s == s[..|s| - 1] + [s[|s| - 1]];
      Insert(SortBy(s[..|s| - 1], key), s[|s| - 1], key)
  }

  lemma {:induction false} InsertStable<T(!new)>(t: seq<T>, x: T, key: T -> int, k: int)
    ensures WithKey(Insert(t, x, key), key, k) == WithKey(t + [x], key, k)
    decreases |t|
  {
    if t != [] && key(t[|t| - 1]) > key(x) {
      var last := t[|t| - 1];
      var t' := t[..|t| - 1];
      assert t == t' + [last];
      var r' := Insert(t', x, key);
      assert Insert(t, x, key) == r' + [last];
      InsertStable(t', x, key, k);
      StableStep(r', t', x, last, key, k);
    }
  }

  /** Moving `last` in front of `x`, whose key is smaller, keeps the
      elements of every one key in order. */
  lemma StableStep<T(!new)>(r: seq<T>, t: seq<T>, x: T, last: T, key: T -> int, k: int)
    requires key(last) > key(x)
    requires WithKey(r, key, k) == WithKey(t + [x], key, k)
    ensures WithKey(r + [last], key, k) == WithKey(t + [last] + [x], key, k)
  {
    var wx, wl := WithKey([x], key, k), WithKey([last], key, k);
    assert [x][1..] == [] && [last][1..] == [];
    assert WithKey([], key, k) == [];
    assert wx == if key(x) == k then [x] else [];
    assert wl == if key(last) == k then [last] else [];
    WithKeyAppend(r, [last], key, k);
    WithKeyAppend(t, [x], key, k);
    WithKeyAppend(t + [last], [x], key, k);
    WithKeyAppend(t, [last], key, k);
  }

  /** Stability: elements with equal keys keep their relative order. */
  lemma {:induction false} SortByStable<T(!new)>(s: seq<T>, key: T -> int, k: int)
    ensures WithKey(SortBy(s, key), key, k) == WithKey(s, key, k)
    decreases |s|
  {
    if s != [] {
      var s' := s[..|s| - 1];
      assert s == s' + [s[|s| - 1]];
      SortByStable(s', key, k);
      InsertStable(SortBy(s', key), s[|s| - 1], key, k);
      WithKeyAppend(SortBy(s', key), [s[|s| - 1]], key, k);
      WithKeyAppend(s', [s[|s| - 1]], key, k);
    }
  }

  /** `a` is `b` with some elements taken out: every element of `a` occurs in
      `b`, in the same order. */
  predicate SubSeq<T(==)>(a: seq<T>, b: seq<T>)
    decreases |b|
  {
    a == [] || (b != [] && ((a[0] == b[0] && SubSeq(a[1..], b[1..])) || SubSeq(a, b[1..])))
  }

  lemma {:induction false} SubSeqRefl<T>(s: seq<T>)
    ensures SubSeq(s, s)
    decreases |s|
  {
    if s != [] {
      SubSeqRefl(s[1..]);
    }
  }

  lemma {:induction false} SubSeqTrans<T>(a: seq<T>, b: seq<T>, c: seq<T>)
    requires SubSeq(a, b) && SubSeq(b, c)
    ensures SubSeq(a, c)
    decreases |c|
  {
    if a != [] {
      if SubSeq(b, c[1..]) {
        SubSeqTrans(a, b, c[1..]);
      } else if a[0] == b[0] && SubSeq(a[1..], b[1..]) {
        SubSeqTrans(a[1..], b[1..], c[1..]);
      } else {
        SubSeqTrans(a, b[1..], c[1..]);
      }
    }
  }

  /** Inserting an element anywhere keeps the old sequence inside the new. */
  lemma {:induction false} SubSeqInsert<T>(s: seq<T>, i: nat, x: T)
    requires i <= |s|
    ensures SubSeq(s, s[..i] + [x] + s[i..])
    decreases i
  {
    var t := s[..i] + [x] + s[i..];
    if i == 0 {
      assert t[1..] == s;
      SubSeqRefl(s);
    } else {
      assert t[0] == s[0];
      assert t[1..] == s[1..][..i - 1] + [x] + s[1..][i - 1..];
      SubSeqInsert(s[1..], i - 1, x);
    }
  }

  lemma SubSeqAppend<T>(s: seq<T>, x: T)
    ensures SubSeq(s, s + [x])
  {
    SubSeqInsert(s, |s|, x);
    assert s[..|s|] + [x] + s[|s|..] == s + [x];
  }

  /** The elements of `s` that satisfy `p`, in order (`Array.prototype.filter`). */
  function Filter<T(!new)>(s: seq<T>, p: T -> bool): (r: seq<T>)
    ensures |r| <= |s|
    ensures forall x :: x in r <==> x in s && p(x)
  {
    if s == [] then [] else (if p(s[0]) then [s[0]] else []) + Filter(s[1..], p)
  }

  /** What `Filter` keeps stays in its original order. */
  lemma {:induction false} FilterSubSeq<T(!new)>(s: seq<T>, p: T -> bool)
    ensures SubSeq(Filter(s, p), s)
    decreases |s|
  {
    if s != [] {
      FilterSubSeq(s[1..], p);
      var r := Filter(s, p);
      if p(s[0]) {
        assert r[0] == s[0] && r[1..] == Filter(s[1..], p);
      } else {
        assert r == Filter(s[1..], p);
        if r != [] {
          assert SubSeq(r, s[1..]);
        }
      }
    }
  }

  /** One more element: `Set.prototype.add`. */
  lemma DedupeSnoc<T(!new)>(xs: seq<T>, x: T)
    ensures Dedupe(xs + [x]) == if x in Dedupe(xs) then Dedupe(xs) else Dedupe(xs) + [x]
  {
    assert (xs + [x])[..|xs|] == xs;
  }
}
