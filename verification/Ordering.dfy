/** The order of Go strings (by code point, which for UTF-8 is the order by byte) and sorting
    by a string key. */
module Ordering {

  predicate Less(a: string, b: string) {
    b != [] && (a == [] || a[0] < b[0] || (a[0] == b[0] && Less(a[1..], b[1..])))
  }

  lemma {:induction false} LessTransitive(a: string, b: string, c: string)
    requires Less(a, b) && Less(b, c)
    ensures Less(a, c)
  {
    if a != [] && a[0] == b[0] == c[0] {
      LessTransitive(a[1..], b[1..], c[1..]);
    }
  }

  lemma {:induction false} LessIrreflexive(a: string)
    ensures !Less(a, a)
  {
    if a != [] {
      LessIrreflexive(a[1..]);
    }
  }

  lemma {:induction false} LessTotal(a: string, b: string)
    ensures a == b || Less(a, b) || Less(b, a)
  {
    if a != [] && b != [] && a[0] == b[0] {
      LessTotal(a[1..], b[1..]);
      if a[1..] == b[1..] {
        assert a == [a[0]] + a[1..] && b == [b[0]] + b[1..];
      }
    }
  }

  /** The lexicographic order: after a common prefix the smaller string ends, or has the smaller
      character. */
  lemma {:induction false} LessIff(a: string, b: string)
    ensures Less(a, b) <==> exists k :: Differ(a, b, k)
  {
    if a != [] && b != [] && a[0] == b[0] {
      LessIff(a[1..], b[1..]);
      if k :| Differ(a[1..], b[1..], k) {
        assert a[..k + 1] == [a[0]] + a[1..][..k] && b[..k + 1] == [b[0]] + b[1..][..k];
        assert Differ(a, b, k + 1);
      }
      if k :| Differ(a, b, k) {
        assert k > 0;
        assert a[1..][..k - 1] == a[..k][1..] && b[1..][..k - 1] == b[..k][1..];
        assert Differ(a[1..], b[1..], k - 1);
      }
    } else if Less(a, b) {
      assert Differ(a, b, 0);
    } else if k :| Differ(a, b, k) {
      FirstDiffers(a, b, k);
    }
  }

  lemma FirstDiffers(a: string, b: string, k: int)
    requires Differ(a, b, k)
    ensures b != [] && (a == [] || a[0] < b[0] || a[0] == b[0])
  {
    if k > 0 {
      assert a[0] == a[..k][0] == b[..k][0] == b[0];
    }
  }

  /** The strings agree up to position `k`, where `a` ends or has the smaller character. */
  ghost predicate Differ(a: string, b: string, k: int) {
    0 <= k <= |a| && k < |b| && a[..k] == b[..k] && (k < |a| ==> a[k] < b[k])
  }

  /** a <= b <= c implies a <= c, where x <= y is !Less(y, x). */
  lemma AtMostTransitive(a: string, b: string, c: string)
    requires !Less(b, a) && !Less(c, b)
    ensures !Less(c, a)
  {
    LessTotal(a, b);
    if Less(c, a) {
      if a != b {
        LessTransitive(c, a, b);
      }
    }
  }

  ghost predicate Sorted<T>(s: seq<T>, key: T -> string) {
    forall i, j :: 0 <= i < j < |s| ==> !Less(key(s[j]), key(s[i]))
  }

  ghost predicate StrictlySorted<T>(s: seq<T>, key: T -> string) {
    forall i, j :: 0 <= i < j < |s| ==> Less(key(s[i]), key(s[j]))
  }

  /** Inserts behind every element that is not greater, which keeps the sort stable. */
  function Insert<T>(x: T, s: seq<T>, key: T -> string): (r: seq<T>)
    ensures multiset(r) == multiset(s) + multiset{x}
  {
    if s == [] then [x]
    else
      var n := |s| - 1;
      if Less(key(x), key(s[n])) then
        assert s == s[..n] + [s[n]];
        Insert(x, s[..n], key) + [s[n]]
      else s + [x]
  }

  function Sort<T>(s: seq<T>, key: T -> string): (r: seq<T>)
    ensures multiset(r) == multiset(s)
  {
    if s == [] then []
    else
      var n := |s| - 1;
      assert s == s[..n] + [s[n]];
      Insert(s[n], Sort(s[..n], key), key)
  }

  lemma SameElements<T>(a: seq<T>, b: seq<T>, x: T)
    requires multiset(a) == multiset(b)
    ensures x in a <==> x in b
  {
    assert x in a <==> x in multiset(a);
    assert x in b <==> x in multiset(b);
  }

  /** No key of the list is greater than the bound, and all are smaller. */
  ghost predicate NoneAbove<T>(s: seq<T>, bound: string, key: T -> string) {
    forall i :: 0 <= i < |s| ==> !Less(bound, key(s[i]))
  }

  ghost predicate AllBelow<T>(s: seq<T>, bound: string, key: T -> string) {
    forall i :: 0 <= i < |s| ==> Less(key(s[i]), bound)
  }

  lemma AppendSorted<T>(s: seq<T>, x: T, key: T -> string)
    requires Sorted(s, key) && NoneAbove(s, key(x), key)
    ensures Sorted(s + [x], key)
  {
  }

  lemma AppendStrict<T>(s: seq<T>, x: T, key: T -> string)
    requires StrictlySorted(s, key) && AllBelow(s, key(x), key)
    ensures StrictlySorted(s + [x], key)
  {
  }

  lemma {:induction false} InsertNoneAbove<T>(x: T, s: seq<T>, bound: string, key: T -> string)
    requires NoneAbove(s, bound, key) && !Less(bound, key(x))
    ensures NoneAbove(Insert(x, s, key), bound, key)
  {
    if s != [] && Less(key(x), key(s[|s| - 1])) {
      var n := |s| - 1;
      InsertNoneAbove(x, s[..n], bound, key);
      AppendNoneAbove(Insert(x, s[..n], key), s[n], bound, key);
    } else {
      AppendNoneAbove(s, x, bound, key);
    }
  }

  lemma AppendNoneAbove<T>(s: seq<T>, x: T, bound: string, key: T -> string)
    requires NoneAbove(s, bound, key) && !Less(bound, key(x))
    ensures NoneAbove(s + [x], bound, key)
  {
  }

  lemma {:induction false} InsertAllBelow<T>(x: T, s: seq<T>, bound: string, key: T -> string)
    requires AllBelow(s, bound, key) && Less(key(x), bound)
    ensures AllBelow(Insert(x, s, key), bound, key)
  {
    if s != [] && Less(key(x), key(s[|s| - 1])) {
      var n := |s| - 1;
      InsertAllBelow(x, s[..n], bound, key);
      AppendAllBelow(Insert(x, s[..n], key), s[n], bound, key);
    } else {
      AppendAllBelow(s, x, bound, key);
    }
  }

  lemma AppendAllBelow<T>(s: seq<T>, x: T, bound: string, key: T -> string)
    requires AllBelow(s, bound, key) && Less(key(x), bound)
    ensures AllBelow(s + [x], bound, key)
  {
  }

  /** A sorted list whose last key is not above the bound has no key above it. */
  lemma LastNoneAbove<T>(s: seq<T>, bound: string, key: T -> string)
    requires Sorted(s, key) && s != [] && !Less(bound, key(s[|s| - 1]))
    ensures NoneAbove(s, bound, key)
  {
    var n := |s| - 1;
    forall i | 0 <= i < n ensures !Less(bound, key(s[i])) {
      AtMostTransitive(key(s[i]), key(s[n]), bound);
    }
  }

  lemma LastAllBelow<T>(s: seq<T>, bound: string, key: T -> string)
    requires StrictlySorted(s, key) && s != [] && Less(key(s[|s| - 1]), bound)
    ensures AllBelow(s, bound, key)
  {
    var n := |s| - 1;
    forall i | 0 <= i < n ensures Less(key(s[i]), bound) {
      LessTransitive(key(s[i]), key(s[n]), bound);
    }
  }

  lemma LessAsymmetric(a: string, b: string)
    requires Less(a, b)
    ensures !Less(b, a)
  {
    if Less(b, a) {
      LessTransitive(a, b, a);
      LessIrreflexive(a);
    }
  }

  lemma {:induction false} InsertSorted<T>(x: T, s: seq<T>, key: T -> string)
    requires Sorted(s, key)
    ensures Sorted(Insert(x, s, key), key)
  {
    if s != [] {
      var n := |s| - 1;
      if Less(key(x), key(s[n])) {
        InsertSorted(x, s[..n], key);
        LessAsymmetric(key(x), key(s[n]));
        InsertNoneAbove(x, s[..n], key(s[n]), key);
        AppendSorted(Insert(x, s[..n], key), s[n], key);
      } else {
        LastNoneAbove(s, key(x), key);
        AppendSorted(s, x, key);
      }
    }
  }

  lemma {:induction false} SortSorts<T>(s: seq<T>, key: T -> string)
    ensures Sorted(Sort(s, key), key)
  {
    if s != [] {
      var n := |s| - 1;
      SortSorts(s[..n], key);
      InsertSorted(s[n], Sort(s[..n], key), key);
    }
  }

  lemma {:induction false} SortOfSorted<T>(s: seq<T>, key: T -> string)
    requires Sorted(s, key)
    ensures Sort(s, key) == s
  {
    if s != [] {
      var n := |s| - 1;
      SortOfSorted(s[..n], key);
      calc {
        Sort(s, key);
        Insert(s[n], Sort(s[..n], key), key);
        Insert(s[n], s[..n], key);
        { InsertLast(s[n], s[..n], key); }
        s[..n] + [s[n]];
        s;
      }
    }
  }

  /** What is not smaller than the last element is inserted at the end. */
  lemma InsertLast<T>(x: T, s: seq<T>, key: T -> string)
    requires s != [] ==> !Less(key(x), key(s[|s| - 1]))
    ensures Insert(x, s, key) == s + [x]
  {
  }

  /** Sorting after every append is the same as sorting once. */
  lemma SortOfAppend<T>(s: seq<T>, x: T, key: T -> string)
    ensures Sort(Sort(s, key) + [x], key) == Sort(s + [x], key)
  {
    SortSorts(s, key);
    SortOfSorted(Sort(s, key), key);
    assert (Sort(s, key) + [x])[..|s|] == Sort(s, key) by { assert |Sort(s, key)| == |multiset(s)|; }
    assert (s + [x])[..|s|] == s;
  }

  lemma NonemptyToo<T>(a: seq<T>, b: seq<T>)
    requires forall x :: x in a ==> x in b
    ensures a != [] ==> b != []
  {
    if a != [] {
      assert a[0] in a;
    }
  }

  /** Strictly sorted lists with the same elements are equal. */
  lemma {:induction false} StrictlySortedUnique<T>(a: seq<T>, b: seq<T>, key: T -> string)
    requires StrictlySorted(a, key) && StrictlySorted(b, key)
    requires forall x :: x in a <==> x in b
    ensures a == b
  {
    NonemptyToo(a, b);
    NonemptyToo(b, a);
    if a != [] {
      assert a[0] in b;
      assert b[0] in a;
      if a[0] != b[0] {
        LessTransitive(key(a[0]), key(b[0]), key(a[0]));
        LessIrreflexive(key(a[0]));
      }
      forall x ensures x in a[1..] <==> x in b[1..] {
        NotInRest(a, key);
        NotInRest(b, key);
        assert x in a <==> x == a[0] || x in a[1..];
        assert x in b <==> x == b[0] || x in b[1..];
      }
      StrictlySortedUnique(a[1..], b[1..], key);
      assert a == [a[0]] + a[1..] && b == [b[0]] + b[1..];
    }
  }

  lemma NotInRest<T>(s: seq<T>, key: T -> string)
    requires s != [] && StrictlySorted(s, key)
    ensures s[0] !in s[1..]
  {
    LessIrreflexive(key(s[0]));
  }

  lemma {:induction false} InsertStrict<T>(x: T, s: seq<T>, key: T -> string)
    requires StrictlySorted(s, key) && forall i :: 0 <= i < |s| ==> key(s[i]) != key(x)
    ensures StrictlySorted(Insert(x, s, key), key)
  {
    if s != [] {
      var n := |s| - 1;
      if Less(key(x), key(s[n])) {
        InsertStrict(x, s[..n], key);
        InsertAllBelow(x, s[..n], key(s[n]), key);
        AppendStrict(Insert(x, s[..n], key), s[n], key);
      } else {
        LessTotal(key(s[n]), key(x));
        LastAllBelow(s, key(x), key);
        AppendStrict(s, x, key);
      }
    }
  }

  /** Without repeated keys the sorted list is strictly sorted. */
  lemma {:induction false} SortStrict<T>(s: seq<T>, key: T -> string)
    requires forall i, j :: 0 <= i < j < |s| ==> key(s[i]) != key(s[j])
    ensures StrictlySorted(Sort(s, key), key)
  {
    if s != [] {
      var n := |s| - 1;
      var front := Sort(s[..n], key);
      SortStrict(s[..n], key);
      forall i | 0 <= i < |front| ensures key(front[i]) != key(s[n]) {
        SameElements(front, s[..n], front[i]);
      }
      InsertStrict(s[n], front, key);
    }
  }
}
