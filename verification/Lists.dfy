/** Splitting and joining on a separator, as Go's strings.Split and strings.Join do,
    over elements of any type (bytes of a host name, characters of a secret value). */
module Lists {

  datatype Option<+T> = None | Some(value: T)

  function Lookup<V>(m: map<string, V>, k: string): Option<V> {
    if k in m then Some(m[k]) else None
  }

  /** Sets an entry, or removes it. */
  function Put<V>(m: map<string, V>, k: string, v: Option<V>): map<string, V> {
    if v.Some? then m[k := v.value] else m - {k}
  }

  lemma PutElsewhere<V>(m: map<string, V>, k: string, v: Option<V>)
    ensures forall other :: other != k ==> Lookup(Put(m, k, v), other) == Lookup(m, other)
  {
  }

  /** Maps that agree up to one key agree on all others. */
  lemma OtherKept<V>(before: map<string, V>, after: map<string, V>, changed: string, key: string)
    requires after - {changed} == before - {changed} && key != changed
    ensures Lookup(after, key) == Lookup(before, key)
  {
    assert key in before <==> key in before - {changed};
    assert key in after <==> key in after - {changed};
    assert key in after ==> (after - {changed})[key] == after[key];
    assert key in before ==> (before - {changed})[key] == before[key];
  }

  ghost predicate Distinct<T>(s: seq<T>) {
    forall i, j :: 0 <= i < j < |s| ==> s[i] != s[j]
  }

  function Split<T(==)>(s: seq<T>, sep: T): (parts: seq<seq<T>>)
    ensures |parts| >= 1
  {
    if s == [] then [[]]
    else
      var rest := Split(s[1..], sep);
      if s[0] == sep then [[]] + rest else [[s[0]] + rest[0]] + rest[1..]
  }

  function Join<T>(parts: seq<seq<T>>, sep: T): seq<T> {
    if |parts| == 0 then []
    else if |parts| == 1 then parts[0]
    else parts[0] + [sep] + Join(parts[1..], sep)
  }

  predicate Free<T(==)>(parts: seq<seq<T>>, sep: T) {
    forall i :: 0 <= i < |parts| ==> sep !in parts[i]
  }

  lemma {:induction false} JoinOfSplit<T>(s: seq<T>, sep: T)
    ensures Join(Split(s, sep), sep) == s
    ensures Free(Split(s, sep), sep)
  {
    if s == [] {
    } else {
      var rest := Split(s[1..], sep);
      JoinOfSplit(s[1..], sep);
      if s[0] == sep {
        assert ([[]] + rest)[1..] == rest;
        assert Join([[]] + rest, sep) == [sep] + s[1..];
      } else {
        PrependFirst([s[0]], rest, sep);
      }
    }
  }

  /** Adding a prefix to the first part adds it to the joined string. */
  lemma {:induction false} PrependFirst<T>(prefix: seq<T>, parts: seq<seq<T>>, sep: T)
    requires |parts| >= 1
    ensures Join([prefix + parts[0]] + parts[1..], sep) == prefix + Join(parts, sep)
  {
    var longer := [prefix + parts[0]] + parts[1..];
    assert longer[1..] == parts[1..];
    if |parts| > 1 {
      var rest := Join(parts[1..], sep);
      assert Join(longer, sep) == prefix + parts[0] + [sep] + rest;
      assert prefix + parts[0] + [sep] + rest == prefix + (parts[0] + [sep] + rest);
    }
  }

  lemma {:induction false} SplitOfFree<T>(part: seq<T>, sep: T)
    requires sep !in part
    ensures Split(part, sep) == [part]
  {
    if part != [] {
      SplitOfFree(part[1..], sep);
      assert [part[0]] + part[1..] == part;
    }
  }

  lemma {:induction false} SplitAtFirst<T>(part: seq<T>, rest: seq<T>, sep: T)
    requires sep !in part
    ensures Split(part + [sep] + rest, sep) == [part] + Split(rest, sep)
  {
    var s := part + [sep] + rest;
    if part == [] {
      assert s[1..] == rest;
    } else {
      SplitAtFirst(part[1..], rest, sep);
      assert s[1..] == part[1..] + [sep] + rest;
      assert [part[0]] + part[1..] == part;
    }
  }

  lemma {:induction false} SplitOfJoin<T>(parts: seq<seq<T>>, sep: T)
    requires |parts| >= 1 && Free(parts, sep)
    ensures Split(Join(parts, sep), sep) == parts
  {
    if |parts| == 1 {
      SplitOfFree(parts[0], sep);
      assert parts == [parts[0]];
    } else {
      SplitOfJoin(parts[1..], sep);
      SplitAtFirst(parts[0], Join(parts[1..], sep), sep);
      assert parts == [parts[0]] + parts[1..];
    }
  }

  /** The first part and everything after it, seen as lengths. */
  lemma JoinLength<T>(parts: seq<seq<T>>, first: seq<T>, sep: T)
    requires |parts| >= 1
    ensures |Join([first] + parts[1..], sep)| == |first| + |Join(parts, sep)| - |parts[0]|
  {
    if |parts| > 1 {
      assert ([first] + parts[1..])[1..] == parts[1..];
    }
  }
}
