/** Merging of environment variables (controllers/argoutil/env.go). */
module Environment {
  import opened Lists
  import opened Ordering

  datatype EnvVar = EnvVar(name: string, value: string)

  function NameOf(e: EnvVar): string {
    e.name
  }

  /** The last, and the first, entry of a name. */
  function Last(s: seq<EnvVar>, name: string): (e: Option<EnvVar>)
    ensures e.Some? <==> exists i :: 0 <= i < |s| && s[i].name == name
    ensures e.Some? ==> e.value in s && e.value.name == name
  {
    if s == [] then None
    else if s[|s| - 1].name == name then Some(s[|s| - 1])
    else Last(s[..|s| - 1], name)
  }

  function First(s: seq<EnvVar>, name: string): (e: Option<EnvVar>)
    ensures e.Some? <==> exists i :: 0 <= i < |s| && s[i].name == name
    ensures e.Some? ==> e.value in s && e.value.name == name
  {
    if s == [] then None
    else
      var before := First(s[..|s| - 1], name);
      if before.Some? then before
      else if s[|s| - 1].name == name then Some(s[|s| - 1])
      else None
  }

  /** The entry the merged list has for a name. */
  function Wanted(existing: seq<EnvVar>, merge: seq<EnvVar>, override: bool, name: string): (e: Option<EnvVar>)
    ensures e.Some? ==> e.value.name == name
  {
    if override
    then (if Last(merge, name).Some? then Last(merge, name) else Last(existing, name))
    else (if Last(existing, name).Some? then Last(existing, name) else First(merge, name))
  }

  /** The result is sorted by name without repeated names, and has exactly the wanted entries. */
  ghost predicate Merged(existing: seq<EnvVar>, merge: seq<EnvVar>, override: bool, ret: seq<EnvVar>) {
    && StrictlySorted(ret, NameOf)
    && forall e: EnvVar :: e in ret <==> Wanted(existing, merge, override, e.name) == Some(e)
  }

  method EnvMerge(existing: seq<EnvVar>, merge: seq<EnvVar>, override: bool) returns (ret: seq<EnvVar>)
    ensures Merged(existing, merge, override, ret)
  {
    ret := [];
    var final: map<string, EnvVar> := map[];
    for i := 0 to |existing|
      invariant forall n :: Lookup(final, n) == Last(existing[..i], n)
    {
      assert existing[..i + 1][..i] == existing[..i];
      final := final[existing[i].name := existing[i]];
    }
    assert existing[..|existing|] == existing;
    for i := 0 to |merge|
      invariant forall n :: Lookup(final, n) == Wanted(existing, merge[..i], override, n)
    {
      var m := merge[i];
      ghost var before := final;
      if m.name in final {
        if override {
          final := final[m.name := m];
        }
      } else {
        final := final[m.name := m];
      }
      forall n ensures Lookup(final, n) == Wanted(existing, merge[..i + 1], override, n) {
        WantedNext(existing, merge, i, override, n);
        assert Lookup(before, n) == Wanted(existing, merge[..i], override, n);
      }
    }
    assert merge[..|merge|] == merge;
    forall n | n in final ensures final[n].name == n {
      assert Lookup(final, n) == Wanted(existing, merge, override, n);
    }
    ret := Drain(final);
    SortStrict(ret, NameOf);
    forall e: EnvVar ensures e in Sort(ret, NameOf) <==> Wanted(existing, merge, override, e.name) == Some(e) {
      SameElements(Sort(ret, NameOf), ret, e);
      assert Lookup(final, e.name) == Wanted(existing, merge, override, e.name);
    }
    ret := Sort(ret, NameOf);
  }

  /** The values of a map, in an order the language does not fix. */
  method Drain(final: map<string, EnvVar>) returns (ret: seq<EnvVar>)
    requires forall n :: n in final ==> final[n].name == n
    ensures forall e: EnvVar :: e in ret <==> Lookup(final, e.name) == Some(e)
    ensures forall i, j :: 0 <= i < j < |ret| ==> ret[i].name != ret[j].name
  {
    ret := [];
    var rest := final.Keys;
    while rest != {}
      invariant rest <= final.Keys
      invariant forall e: EnvVar :: e in ret <==> e.name !in rest && Lookup(final, e.name) == Some(e)
      invariant forall i, j :: 0 <= i < j < |ret| ==> ret[i].name != ret[j].name
      decreases rest
    {
      var k :| k in rest;
      assert forall i :: 0 <= i < |ret| ==> ret[i] in ret;
      rest := rest - {k};
      ret := ret + [final[k]];
    }
  }

  lemma WantedNext(existing: seq<EnvVar>, merge: seq<EnvVar>, i: nat, override: bool, name: string)
    requires i < |merge|
    ensures var before := Wanted(existing, merge[..i], override, name);
      Wanted(existing, merge[..i + 1], override, name) ==
      if merge[i].name == name && (override || before.None?) then Some(merge[i]) else before
  {
    assert merge[..i + 1][..i] == merge[..i];
  }

  /** Whatever order the map is drained in, the result is the same. */
  lemma MergedUnique(existing: seq<EnvVar>, merge: seq<EnvVar>, override: bool, r: seq<EnvVar>, r': seq<EnvVar>)
    requires Merged(existing, merge, override, r) && Merged(existing, merge, override, r')
    ensures r == r'
  {
    StrictlySortedUnique(r, r', NameOf);
  }

  /** Looking a name up in the merged list gives the wanted entry. */
  lemma MergedLookup(existing: seq<EnvVar>, merge: seq<EnvVar>, override: bool, r: seq<EnvVar>, name: string)
    requires Merged(existing, merge, override, r)
    ensures Last(r, name) == First(r, name) == Wanted(existing, merge, override, name)
  {
    var w := Wanted(existing, merge, override, name);
    if w.Some? {
      assert w.value in r;
    }
  }

  /** Merging the same list again with the same flag changes nothing. */
  lemma MergeTwice(a: seq<EnvVar>, b: seq<EnvVar>, override: bool, once: seq<EnvVar>, twice: seq<EnvVar>)
    requires Merged(a, b, override, once) && Merged(once, b, override, twice)
    ensures twice == once
  {
    forall e: EnvVar ensures e in twice <==> e in once {
      MergedLookup(a, b, override, once, e.name);
    }
    StrictlySortedUnique(twice, once, NameOf);
  }

  ghost predicate Unambiguous(a: seq<EnvVar>, b: seq<EnvVar>) {
    forall name :: Last(b, name).None? ==> Last(a, name) == First(a, name)
  }

  /** Overriding `a` with `b` is completing `b` from `a`, exactly when every name of `a` that
      `b` does not set has the same first and last entry in `a`. */
  lemma SwapIff(a: seq<EnvVar>, b: seq<EnvVar>, overridden: seq<EnvVar>, completed: seq<EnvVar>)
    requires Merged(a, b, true, overridden) && Merged(b, a, false, completed)
    ensures overridden == completed <==> Unambiguous(a, b)
  {
    if overridden == completed {
      forall name | Last(b, name).None? ensures Last(a, name) == First(a, name) {
        MergedLookup(a, b, true, overridden, name);
        MergedLookup(b, a, false, completed, name);
      }
    }
    if Unambiguous(a, b) {
      assert forall name :: Wanted(a, b, true, name) == Wanted(b, a, false, name);
      StrictlySortedUnique(overridden, completed, NameOf);
    }
  }

  /** In particular when no name is repeated in `a`. */
  lemma SwapWithoutRepeats(a: seq<EnvVar>, b: seq<EnvVar>, overridden: seq<EnvVar>, completed: seq<EnvVar>)
    requires Merged(a, b, true, overridden) && Merged(b, a, false, completed)
    requires forall i, j :: 0 <= i < j < |a| ==> a[i].name != a[j].name
    ensures overridden == completed
  {
    assert forall name :: Last(a, name) == First(a, name);
    SwapIff(a, b, overridden, completed);
  }
}
