/** The list in the cluster secret refines a set of namespaces. */
module ClusterSecretRuns {
  import opened Lists
  import opened Ordering
  import opened ClusterSecret

  // ---- From any earlier value of the secret ----

  lemma MembersAppend(entries: seq<string>, e: string)
    ensures Members(entries + [e]) == Members(entries) + {TrimSpace(e)}
  {
  }

  lemma MembersSorted(entries: seq<string>)
    ensures Members(Sort(entries, Itself)) == Members(entries)
    ensures Free(entries, ',') ==> Free(Sort(entries, Itself), ',')
    ensures |Sort(entries, Itself)| == |entries|
  {
    var sorted := Sort(entries, Itself);
    forall e ensures e in sorted <==> e in entries {
      SameElements(sorted, entries, e);
    }
    assert |sorted| == |multiset(sorted)| == |multiset(entries)|;
    assert forall i :: 0 <= i < |sorted| ==> sorted[i] in sorted;
  }

  lemma {:induction false} MembersAdded(entries: seq<string>, names: seq<string>)
    ensures Members(AddMissing(entries, names)) == Members(entries) + Members(names)
  {
    if names != [] {
      var k := |names| - 1;
      var front, n := AddMissing(entries, names[..k]), TrimSpace(names[k]);
      MembersAdded(entries, names[..k]);
      assert names == names[..k] + [names[k]];
      MembersAppend(names[..k], names[k]);
      MembersAppend(front, n);
      TrimmedTwice(names[k]);
      HasIff(front, n);
    }
  }

  lemma {:induction false} FreeAdded(entries: seq<string>, names: seq<string>)
    requires Free(entries, ',') && Free(names, ',')
    ensures Free(AddMissing(entries, names), ',') && |AddMissing(entries, names)| >= |entries|
  {
    if names != [] {
      var k := |names| - 1;
      FreeAdded(entries, names[..k]);
      TrimmedTwice(names[k]);
      assert ',' !in TrimSpace(names[k]);
    }
  }

  lemma {:induction false} MembersKept(entries: seq<string>, n: string)
    ensures Members(Kept(entries, n)) == Members(entries) - {n}
    ensures Free(entries, ',') ==> Free(Kept(entries, n), ',')
    ensures Kept(entries, n) == [] <==> Members(entries) <= {n}
  {
    if entries != [] {
      var k := |entries| - 1;
      var front, e := Kept(entries[..k], n), TrimSpace(entries[k]);
      MembersKept(entries[..k], n);
      assert entries == entries[..k] + [entries[k]];
      MembersAppend(entries[..k], entries[k]);
      MembersAppend(front, e);
      TrimmedTwice(entries[k]);
    }
  }

  predicate AreNames(names: seq<string>) {
    forall n :: n in names ==> IsName(n)
  }

  lemma WantedNames(managed: seq<string>, owner: string)
    requires AreNames(managed) && IsName(owner)
    ensures var names := Sort(WithOwner(managed, owner), Itself);
      |names| >= 1 && Free(names, ',') && Members(names) == (set n | n in managed) + {owner}
  {
    HasIff(managed, owner);
    assert Free(WithOwner(managed, owner), ',') by {
      assert forall i :: 0 <= i < |managed| ==> managed[i] in managed;
    }
    assert Members(WithOwner(managed, owner)) == (set n | n in managed) + {owner} by {
      MembersAppend(managed, owner);
      assert Members(managed) == set n | n in managed;
    }
    MembersSorted(WithOwner(managed, owner));
  }

  /** The names a secret lists. Go splits a missing list into one empty entry, which counts as
      a name from then on. */
  function Listed(secret: Secret): set<string> {
    match secret
    case Absent => {}
    case Present(None) => {""}
    case Present(Some(value)) => Members(Split(value, ','))
  }

  lemma ListedEntries(secret: Secret)
    ensures Listed(secret) == if secret.Absent? then {} else Members(Entries(secret.namespaces))
  {
    if secret == Present(None) {
      assert Entries(secret.namespaces) == [""] && Members([""]) == {TrimSpace("")};
    }
  }

  /** A reconciliation unions the managed namespaces and the owner into the list, whatever was
      in it, and stores it sorted. So it lists an empty name exactly when the secret was there
      without a list, or with an empty name in it. */
  lemma ReconcileUnions(secret: Secret, managed: seq<string>, owner: string)
    requires AreNames(managed) && IsName(owner)
    ensures var after := Reconciled(secret, managed, owner, false);
      && after.Present? && after.namespaces.Some?
      && Sorted(Entries(after.namespaces), Itself)
      && Listed(after) == Listed(secret) + (set n | n in managed) + {owner}
      && ("" in Listed(after) <==> secret.Present? && (secret.namespaces.None? || "" in Listed(secret)))
  {
    var names := Sort(WithOwner(managed, owner), Itself);
    WantedNames(managed, owner);
    SortSorts(WithOwner(managed, owner), Itself);
    NamesUnited(secret, names);
    UnionRegrouped(Listed(secret), Members(names), set n | n in managed, {owner});
    NoEmptyName(managed, owner);
  }

  lemma NoEmptyName(managed: seq<string>, owner: string)
    requires AreNames(managed) && IsName(owner)
    ensures "" !in (set n | n in managed) + {owner}
  {
  }

  lemma UnionRegrouped<T>(a: set<T>, bc: set<T>, b: set<T>, c: set<T>)
    requires bc == b + c
    ensures a + bc == a + b + c
  {
  }

  lemma NamesUnited(secret: Secret, names: seq<string>)
    requires |names| >= 1 && Free(names, ',') && Sorted(names, Itself)
    ensures var after := WithNames(secret, names, false);
      && Sorted(Entries(after.namespaces), Itself)
      && Listed(after) == Listed(secret) + Members(names)
  {
    ListedEntries(secret);
    ListedEntries(WithNames(secret, names, false));
    if secret.Absent? {
      SplitOfJoin(names, ',');
    } else {
      var entries := Entries(secret.namespaces);
      JoinOfSplit(if secret.namespaces.Some? then secret.namespaces.value else "", ',');
      MembersAdded(entries, names);
      FreeAdded(entries, names);
      StoredSorted(AddMissing(entries, names));
    }
  }

  lemma {:induction false} NothingMissing(entries: seq<string>, names: seq<string>)
    requires Members(names) <= Members(entries)
    ensures AddMissing(entries, names) == entries
  {
    if names != [] {
      var k := |names| - 1;
      assert names == names[..k] + [names[k]];
      MembersAppend(names[..k], names[k]);
      NothingMissing(entries, names[..k]);
      HasIff(entries, TrimSpace(names[k]));
    }
  }

  /** Reconciling again is the identity. */
  lemma ReconcileTwice(secret: Secret, managed: seq<string>, owner: string, clusterConfig: bool)
    requires AreNames(managed) && IsName(owner)
    ensures var once := Reconciled(secret, managed, owner, clusterConfig);
      Reconciled(once, managed, owner, clusterConfig) == once
  {
    if !clusterConfig {
      var names := Sort(WithOwner(managed, owner), Itself);
      var once := Reconciled(secret, managed, owner, false);
      var entries := Entries(once.namespaces);
      WantedNames(managed, owner);
      ReconcileUnions(secret, managed, owner);
      ListedEntries(once);
      NothingMissing(entries, names);
      SortOfSorted(entries, Itself);
      JoinOfSplit(once.namespaces.value, ',');
    }
  }

  /** Removing a namespace removes exactly that one, if any other is left, and stores the rest
      sorted; otherwise nothing changes. */
  lemma RemoveExact(namespaces: string, n: string)
    ensures var before, after := Members(Split(namespaces, ',')), Split(Without(namespaces, n), ',');
      if before <= {n} then Without(namespaces, n) == namespaces
      else Members(after) == before - {n} && Sorted(after, Itself)
  {
    var entries := Split(namespaces, ',');
    JoinOfSplit(namespaces, ',');
    MembersKept(entries, n);
    if Kept(entries, n) != [] {
      StoredSorted(Kept(entries, n));
    }
  }

  /** The last entry cannot be removed. */
  lemma LastEntryStays(n: string)
    requires IsName(n)
    ensures Removed(Present(Some(n)), n) == Present(Some(n))
  {
    SplitOfFree(n, ',');
    RemoveExact(n, n);
  }

  lemma StoredSorted(entries: seq<string>)
    requires |entries| >= 1 && Free(entries, ',')
    ensures var stored := Split(Join(Sort(entries, Itself), ','), ',');
      stored == Sort(entries, Itself) && Sorted(stored, Itself) && Members(stored) == Members(entries)
  {
    MembersSorted(entries);
    SortSorts(entries, Itself);
    SplitOfJoin(Sort(entries, Itself), ',');
  }

  // ---- Runs from the creation of the secret ----

  datatype Event = Reconcile(managed: seq<string>, clusterConfig: bool) | LabelRemoved(namespace: string)

  datatype Abstract = NoSecret | NoList | Listing(names: set<string>)

  ghost predicate Valid(e: Event) {
    e.Reconcile? ==> AreNames(e.managed) && Distinct(e.managed)
  }

  function Step(secret: Secret, owner: string, e: Event): Secret {
    match e
    case Reconcile(managed, clusterConfig) => Reconciled(secret, managed, owner, clusterConfig)
    case LabelRemoved(n) => Removed(secret, n)
  }

  /** The same events on a set, as the code treats them: after a time as cluster configuration
      instance the list is missing, and its missing value counts as one empty name, and the
      last name is not removed. RunMeetsPromise compares this with what the events should do. */
  function AbstractStep(a: Abstract, owner: string, e: Event): Abstract {
    match e
    case Reconcile(managed, clusterConfig) =>
      if clusterConfig then (if a.NoSecret? then NoSecret else NoList)
      else
        var names := match a case NoSecret => {} case NoList => {""} case Listing(names) => names;
        Listing(names + (set n | n in managed) + {owner})
    case LabelRemoved(n) => if a.Listing? && !(a.names <= {n}) then Listing(a.names - {n}) else a
  }

  /** The secret holds exactly the sorted list of the set. */
  ghost predicate Represents(secret: Secret, a: Abstract) {
    match secret
    case Absent => a.NoSecret?
    case Present(None) => a.NoList?
    case Present(Some(value)) => a.Listing? && IsListing(Split(value, ','), a.names)
  }

  ghost predicate IsListing(entries: seq<string>, names: set<string>) {
    && StrictlySorted(entries, Itself)
    && (forall n :: n in entries <==> n in names)
    && (forall n :: n in names ==> TrimSpace(n) == n)
  }

  /** There is only one such secret. */
  lemma RepresentsUnique(a: Secret, b: Secret, s: Abstract)
    requires Represents(a, s) && Represents(b, s)
    ensures a == b
  {
    if s.Listing? {
      StrictlySortedUnique(Split(a.namespaces.value, ','), Split(b.namespaces.value, ','), Itself);
      JoinOfSplit(a.namespaces.value, ',');
      JoinOfSplit(b.namespaces.value, ',');
    }
  }

  /** A list of distinct trimmed entries is stored as the listing of its set. */
  lemma StoredListing(entries: seq<string>, names: set<string>)
    requires |entries| >= 1 && Free(entries, ',') && Distinct(entries) && Trimmed(entries)
    requires Members(entries) == names
    ensures IsListing(Split(Join(Sort(entries, Itself), ','), ','), names)
  {
    StoredSorted(entries);
    SortStrict(entries, Itself);
    forall n ensures n in Sort(entries, Itself) <==> n in entries {
      SameElements(Sort(entries, Itself), entries, n);
    }
  }

  ghost predicate Trimmed(entries: seq<string>) {
    forall e :: e in entries ==> TrimSpace(e) == e
  }

  lemma ListingFacts(value: string, names: set<string>)
    requires IsListing(Split(value, ','), names)
    ensures var entries := Split(value, ',');
      Distinct(entries) && Trimmed(entries) && Free(entries, ',') && Members(entries) == names
  {
    var entries := Split(value, ',');
    JoinOfSplit(value, ',');
    forall i, j | 0 <= i < j < |entries| ensures entries[i] != entries[j] {
      LessIrreflexive(entries[i]);
    }
  }

  lemma {:induction false} AddedDistinct(entries: seq<string>, names: seq<string>)
    requires Distinct(entries) && Trimmed(entries)
    ensures Distinct(AddMissing(entries, names)) && Trimmed(AddMissing(entries, names))
  {
    if names != [] {
      var k := |names| - 1;
      AddedDistinct(entries, names[..k]);
      TrimmedTwice(names[k]);
      var front, n := AddMissing(entries, names[..k]), TrimSpace(names[k]);
      if !Has(front, n) {
        forall i | 0 <= i < |front| ensures front[i] != n {
          assert front[i] in front;
        }
        assert Distinct(front + [n]);
      }
    }
  }

  lemma {:induction false} KeptDistinct(entries: seq<string>, n: string)
    requires Distinct(entries) && Trimmed(entries)
    ensures Distinct(Kept(entries, n)) && Trimmed(Kept(entries, n))
    ensures forall e :: e in Kept(entries, n) ==> e in entries
  {
    if entries != [] {
      var k := |entries| - 1;
      KeptDistinct(entries[..k], n);
      var kept := Kept(entries[..k], n);
      assert entries[k] !in entries[..k];
      assert entries[k] !in kept;
      AppendDistinct(kept, entries[k]);
    }
  }

  lemma AppendDistinct(s: seq<string>, x: string)
    requires Distinct(s) && x !in s
    ensures Distinct(s + [x])
  {
    assert forall i :: 0 <= i < |s| ==> s[i] in s;
  }

  /** Ready to be stored: distinct trimmed names without commas. */
  ghost predicate Proper(entries: seq<string>) {
    |entries| >= 1 && Free(entries, ',') && Distinct(entries) && Trimmed(entries)
  }

  lemma WantedProper(owner: string, managed: seq<string>)
    requires IsName(owner) && AreNames(managed) && Distinct(managed)
    ensures Proper(WithOwner(managed, owner)) && Members(WithOwner(managed, owner)) == (set n | n in managed) + {owner}
  {
    var wanted := WithOwner(managed, owner);
    WantedNames(managed, owner);
    MembersSorted(wanted);
    HasIff(managed, owner);
    assert forall i :: 0 <= i < |managed| ==> managed[i] in managed;
    assert forall n :: n in wanted ==> IsName(n);
    assert forall i :: 0 <= i < |wanted| ==> wanted[i] in wanted;
  }

  lemma AddedProper(entries: seq<string>, names: seq<string>)
    requires Proper(entries) && Free(names, ',')
    ensures Proper(AddMissing(entries, names)) && Members(AddMissing(entries, names)) == Members(entries) + Members(names)
  {
    AddedDistinct(entries, names);
    MembersAdded(entries, names);
    FreeAdded(entries, names);
  }

  lemma EntriesProper(namespaces: Option<string>, before: set<string>)
    requires if namespaces.Some? then IsListing(Split(namespaces.value, ','), before) else before == {""}
    ensures Proper(Entries(namespaces)) && Members(Entries(namespaces)) == before
  {
    if namespaces.Some? {
      ListingFacts(namespaces.value, before);
    } else {
      assert Entries(namespaces) == [""] && Members([""]) == {TrimSpace("")};
    }
  }

  lemma CreationRefines(owner: string, managed: seq<string>)
    requires IsName(owner) && AreNames(managed) && Distinct(managed)
    ensures Represents(Reconciled(Absent, managed, owner, false), Listing((set n | n in managed) + {owner}))
  {
    WantedProper(owner, managed);
    StoredListing(WithOwner(managed, owner), (set n | n in managed) + {owner});
  }

  lemma UpdateRefines(namespaces: Option<string>, before: set<string>, owner: string, managed: seq<string>)
    requires IsName(owner) && AreNames(managed)
    requires if namespaces.Some? then IsListing(Split(namespaces.value, ','), before) else before == {""}
    ensures Represents(Reconciled(Present(namespaces), managed, owner, false), Listing(before + (set n | n in managed) + {owner}))
  {
    var names := Sort(WithOwner(managed, owner), Itself);
    WantedNames(managed, owner);
    EntriesProper(namespaces, before);
    AddedProper(Entries(namespaces), names);
    assert before + Members(names) == before + (set n | n in managed) + {owner};
    StoredListing(AddMissing(Entries(namespaces), names), before + (set n | n in managed) + {owner});
  }

  lemma RemovalRefines(secret: Secret, a: Abstract, n: string)
    requires Represents(secret, a)
    ensures Represents(Removed(secret, n), AbstractStep(a, "", LabelRemoved(n)))
  {
    if a.Listing? {
      var entries := Split(secret.namespaces.value, ',');
      ListingFacts(secret.namespaces.value, a.names);
      MembersKept(entries, n);
      KeptDistinct(entries, n);
      if Kept(entries, n) != [] {
        StoredListing(Kept(entries, n), a.names - {n});
      }
    }
  }

  function Run(secret: Secret, owner: string, events: seq<Event>): Secret {
    if events == [] then secret
    else Step(Run(secret, owner, events[..|events| - 1]), owner, events[|events| - 1])
  }

  function AbstractRun(a: Abstract, owner: string, events: seq<Event>): Abstract {
    if events == [] then a
    else AbstractStep(AbstractRun(a, owner, events[..|events| - 1]), owner, events[|events| - 1])
  }

  /** Over every sequence of reconciliations and label removals, from before the secret
      exists, the stored string is the sorted list of the set the events amount to. */
  lemma {:induction false} RunRefines(owner: string, events: seq<Event>)
    requires IsName(owner) && forall e :: e in events ==> Valid(e)
    ensures Represents(Run(Absent, owner, events), AbstractRun(NoSecret, owner, events))
  {
    if events != [] {
      var k := |events| - 1;
      RunRefines(owner, events[..k]);
      var secret, a := Run(Absent, owner, events[..k]), AbstractRun(NoSecret, owner, events[..k]);
      assert events[k] in events;
      match events[k]
      case Reconcile(managed, clusterConfig) =>
        if !clusterConfig {
          if secret.Absent? {
            CreationRefines(owner, managed);
          } else {
            UpdateRefines(secret.namespaces, if a.Listing? then a.names else {""}, owner, managed);
          }
        }
      case LabelRemoved(n) => RemovalRefines(secret, a, n);
    }
  }

  // ---- What the list should hold ----

  /** The set the events should amount to, if there is to be a list: the namespaces managed
      since the last time as cluster configuration instance and the owner, less those whose
      label was removed. */
  function Promised(owner: string, events: seq<Event>): Option<set<string>> {
    if events == [] then None
    else PromisedStep(Promised(owner, events[..|events| - 1]), owner, events[|events| - 1])
  }

  function PromisedStep(before: Option<set<string>>, owner: string, e: Event): Option<set<string>> {
    match e
    case Reconcile(managed, clusterConfig) =>
      if clusterConfig then None
      else Some((if before.Some? then before.value else {}) + (set n | n in managed) + {owner})
    case LabelRemoved(n) => if before.Some? then Some(before.value - {n}) else None
  }

  /** The instance has been reconciled outside cluster configuration mode. */
  predicate Created(events: seq<Event>) {
    exists i :: 0 <= i < |events| && events[i].Reconcile? && !events[i].clusterConfig
  }

  /** And at some later time, not necessarily the next, in that mode. */
  predicate Flipped(events: seq<Event>) {
    exists j :: 0 <= j < |events| && events[j].Reconcile? && events[j].clusterConfig && Created(events[..j])
  }

  lemma CreatedNext(events: seq<Event>)
    requires events != []
    ensures var k := |events| - 1;
      Created(events) <==> Created(events[..k]) || (events[k].Reconcile? && !events[k].clusterConfig)
  {
    var front := events[..|events| - 1];
    assert forall i :: 0 <= i < |front| ==> front[i] == events[i];
  }

  lemma FlippedNext(events: seq<Event>)
    requires events != []
    ensures var k := |events| - 1;
      Flipped(events) <==> Flipped(events[..k]) || (events[k].Reconcile? && events[k].clusterConfig && Created(events[..k]))
  {
    var front := events[..|events| - 1];
    assert forall j :: 0 <= j < |front| ==> front[j] == events[j] && front[..j] == events[..j];
  }

  /** There is a secret from the first reconciliation outside cluster configuration mode on,
      and it has ever been without list exactly after a flip. */
  lemma {:induction false} SecretExistsIff(owner: string, events: seq<Event>)
    ensures var a := AbstractRun(NoSecret, owner, events);
      (a.NoSecret? <==> !Created(events)) && (a.NoList? ==> Flipped(events)) && (Flipped(events) ==> Created(events))
  {
    if events != [] {
      SecretExistsIff(owner, events[..|events| - 1]);
      CreatedNext(events);
      FlippedNext(events);
    }
  }

  /** The list holds an empty name, which is no namespace, exactly when the instance was in
      cluster configuration mode at some time after the secret was created. */
  lemma {:induction false} EmptyNameIff(owner: string, events: seq<Event>)
    requires IsName(owner) && (forall e :: e in events ==> Valid(e)) && LabelRemoved("") !in events
    ensures var a := AbstractRun(NoSecret, owner, events); a.Listing? ==> ("" in a.names <==> Flipped(events))
  {
    if events != [] {
      var k := |events| - 1;
      EmptyNameIff(owner, events[..k]);
      SecretExistsIff(owner, events[..k]);
      FlippedNext(events);
      assert events[k] in events;
    }
  }

  lemma {:induction false} PromisedNames(owner: string, events: seq<Event>)
    requires IsName(owner) && forall e :: e in events ==> Valid(e)
    ensures Promised(owner, events).Some? ==> "" !in Promised(owner, events).value
  {
    if events != [] {
      var k := |events| - 1;
      PromisedNames(owner, events[..k]);
      assert events[k] in events;
    }
  }

  /** Over every run in which the owner's own label is left alone, the list holds the promised
      names and, after a flip, an empty one. So it is as promised exactly without a flip. */
  lemma RunMeetsPromise(owner: string, events: seq<Event>)
    requires IsName(owner) && (forall e :: e in events ==> Valid(e))
    requires LabelRemoved(owner) !in events && LabelRemoved("") !in events
    ensures var a := AbstractRun(NoSecret, owner, events); var promised := Promised(owner, events);
      && (a.Listing? <==> promised.Some?)
      && (a.Listing? ==> a.names == promised.value + if Flipped(events) then {""} else {})
      && (a.Listing? ==> (a.names == promised.value <==> !Flipped(events)))
  {
    PromisedButEmpty(owner, events);
    EmptyNameIff(owner, events);
    PromisedNames(owner, events);
    var a, promised := AbstractRun(NoSecret, owner, events), Promised(owner, events);
    if a.Listing? {
      AddBack(a.names, promised.value, "");
    }
  }

  lemma AddBack<T>(a: set<T>, b: set<T>, x: T)
    requires a - {x} == b - {x} && x !in b
    ensures a == b + if x in a then {x} else {}
  {
    assert b == a - {x};
  }

  lemma SameBut<T>(a: set<T>, b: set<T>, x: T, added: set<T>, removed: T)
    requires a - {x} == b - {x}
    ensures (a + added) - {x} == (b + added) - {x} && (a - {removed}) - {x} == (b - {removed}) - {x}
  {
    assert (a + added) - {x} == (a - {x}) + (added - {x});
    assert (b + added) - {x} == (b - {x}) + (added - {x});
    assert (a - {removed}) - {x} == (a - {x}) - {removed};
    assert (b - {removed}) - {x} == (b - {x}) - {removed};
  }

  lemma {:induction false} PromisedButEmpty(owner: string, events: seq<Event>)
    requires IsName(owner) && LabelRemoved(owner) !in events && LabelRemoved("") !in events
    ensures var a := AbstractRun(NoSecret, owner, events); var promised := Promised(owner, events);
      (a.Listing? <==> promised.Some?) && (a.Listing? ==> a.names - {""} == promised.value - {""})
  {
    if events != [] {
      var k := |events| - 1;
      PromisedButEmpty(owner, events[..k]);
      RemovalsTakeEffect(owner, events[..k], owner);
      assert events[k] in events;
      PromiseStep(AbstractRun(NoSecret, owner, events[..k]), Promised(owner, events[..k]), owner, events[k]);
    }
  }

  lemma PromiseStep(a: Abstract, promised: Option<set<string>>, owner: string, e: Event)
    requires (a.Listing? <==> promised.Some?) && (a.Listing? ==> a.names - {""} == promised.value - {""} && owner in a.names)
    requires e != LabelRemoved(owner)
    ensures var after := AbstractStep(a, owner, e); var promised' := PromisedStep(promised, owner, e);
      (after.Listing? <==> promised'.Some?) && (after.Listing? ==> after.names - {""} == promised'.value - {""})
  {
    var names := match a case NoSecret => {} case NoList => {""} case Listing(names) => names;
    var wanted := if promised.Some? then promised.value else {};
    match e
    case Reconcile(managed, clusterConfig) =>
      SameBut(names, wanted, "", (set n | n in managed) + {owner}, "");
      UnionRegrouped(names, (set n | n in managed) + {owner}, set n | n in managed, {owner});
      UnionRegrouped(wanted, (set n | n in managed) + {owner}, set n | n in managed, {owner});
    case LabelRemoved(n) => SameBut(names, wanted, "", {}, n);
  }

  /** The list is as promised after the events. */
  predicate AsPromised(owner: string, events: seq<Event>) {
    var a, promised := AbstractRun(NoSecret, owner, events), Promised(owner, events);
    (a.Listing? <==> promised.Some?) && (a.Listing? ==> a.names == promised.value)
  }

  /** The two events that break the promise: a namespace is to be removed that is the only entry
      left, and a list is to be written to a secret that has lost it. */
  predicate Breaks(a: Abstract, e: Event) {
    match e
    case Reconcile(_, clusterConfig) => !clusterConfig && a.NoList?
    case LabelRemoved(n) => a == Listing({n})
  }

  /** At every moment of the run so far. */
  predicate AlwaysAsPromised(owner: string, events: seq<Event>) {
    AsPromised(owner, events) && (events != [] ==> AlwaysAsPromised(owner, events[..|events| - 1]))
  }

  predicate NeverBroken(owner: string, events: seq<Event>) {
    events != [] ==>
      var front := events[..|events| - 1];
      !Breaks(AbstractRun(NoSecret, owner, front), events[|events| - 1]) && NeverBroken(owner, front)
  }

  lemma {:induction false} NeverWithoutEntries(owner: string, events: seq<Event>)
    ensures AbstractRun(NoSecret, owner, events) != Listing({})
  {
    if events != [] {
      var k := |events| - 1;
      NeverWithoutEntries(owner, events[..k]);
      if events[k].Reconcile? && !events[k].clusterConfig {
        assert owner in AbstractRun(NoSecret, owner, events).names;
      }
    }
  }

  /** Over every run, the owner's own label included, the list is as promised at every moment
      exactly when neither of the two events occurs. */
  lemma {:induction false} AlwaysAsPromisedIff(owner: string, events: seq<Event>)
    requires IsName(owner) && forall e :: e in events ==> Valid(e)
    ensures AlwaysAsPromised(owner, events) <==> NeverBroken(owner, events)
  {
    if events != [] {
      var k := |events| - 1;
      var front := events[..k];
      AlwaysAsPromisedIff(owner, front);
      NeverWithoutEntries(owner, front);
      PromisedNames(owner, events);
      if AlwaysAsPromised(owner, front) {
        StepBreaksIff(AbstractRun(NoSecret, owner, front), Promised(owner, front), owner, events[k]);
      }
    }
  }

  lemma StepBreaksIff(a: Abstract, promised: Option<set<string>>, owner: string, e: Event)
    requires (a.Listing? <==> promised.Some?) && (a.Listing? ==> a.names == promised.value) && a != Listing({})
    requires PromisedStep(promised, owner, e).Some? ==> "" !in PromisedStep(promised, owner, e).value
    ensures var after := AbstractStep(a, owner, e); var promised' := PromisedStep(promised, owner, e);
      ((after.Listing? <==> promised'.Some?) && (after.Listing? ==> after.names == promised'.value)) <==> !Breaks(a, e)
  {
    if e.Reconcile? && !e.clusterConfig && a.NoList? {
      assert "" in AbstractStep(a, owner, e).names;
    }
    if e.LabelRemoved? && a.Listing? {
      assert a.names <= {e.namespace} <==> a.names == {e.namespace};
    }
  }

  /** Three reconciliations, the second one in cluster configuration mode, after which the
      stored string starts with an empty entry. */
  lemma EmptyEntryAppears(owner: string)
    requires IsName(owner)
    ensures Run(Absent, owner, [Reconcile([], false), Reconcile([], true), Reconcile([], false)]) == Present(Some("," + owner))
  {
    var events := [Reconcile([], false), Reconcile([], true), Reconcile([], false)];
    FlipEmpties(owner);
    RunRefines(owner, events);
    EmptyThenOwner(owner);
    RepresentsUnique(Run(Absent, owner, events), Present(Some("," + owner)), Listing({"", owner}));
  }

  lemma FlipEmpties(owner: string)
    ensures var events := [Reconcile([], false), Reconcile([], true), Reconcile([], false)];
      AbstractRun(NoSecret, owner, events) == Listing({"", owner})
  {
    var first, second := Reconcile([], false), Reconcile([], true);
    assert [first, second, first][..2] == [first, second];
    assert [first, second][..1] == [first];
    assert AbstractRun(NoSecret, owner, [first]).Listing?;
    assert AbstractRun(NoSecret, owner, [first, second]) == NoList;
  }

  lemma EmptyThenOwner(owner: string)
    requires IsName(owner)
    ensures Represents(Present(Some("," + owner)), Listing({"", owner}))
  {
    assert "," + owner == "" + [','] + owner;
    SplitAtFirst("", owner, ',');
    SplitOfFree(owner, ',');
    assert Split("," + owner, ',') == ["", owner];
  }

  // ---- Runs with failed requests on all cluster secrets ----

  /** What one event may do to the secrets of the instance, whatever fails. */
  ghost predicate StoreStep(secrets: seq<Item>, owner: string, e: Event, secrets': seq<Item>) {
    match e
    case Reconcile(managed, clusterConfig) =>
      secrets' == secrets || secrets' == ReconciledAll(secrets, managed, owner, clusterConfig)
    case LabelRemoved(n) => exists k: nat :: k <= |secrets| && secrets' == RemovedUpTo(secrets, n, k)
  }

  predicate Subsequence<T(==)>(some: seq<T>, all: seq<T>) {
    if all == [] then some == []
    else
      var front := all[..|all| - 1];
      Subsequence(some, front) || (some != [] && some[|some| - 1] == all[|all| - 1] && Subsequence(some[..|some| - 1], front))
  }

  /** A step acts on the secret for the default server like its event, or not at all. */
  lemma StoreStepActs(secrets: seq<Item>, owner: string, e: Event, secrets': seq<Item>)
    requires StoreStep(secrets, owner, e, secrets')
    ensures View(secrets') == View(secrets) || View(secrets') == Step(View(secrets), owner, e)
  {
    match e
    case Reconcile(managed, clusterConfig) => ReconciledView(secrets, managed, owner, clusterConfig);
    case LabelRemoved(n) =>
      var k: nat :| k <= |secrets| && secrets' == RemovedUpTo(secrets, n, k);
      RemovedView(secrets, n, k);
  }

  /** With failures the stored string is still the sorted list of the set that some of the
      events, in their order, amount to. */
  lemma {:induction false} StoreRunRefines(owner: string, events: seq<Event>, states: seq<seq<Item>>) returns (took: seq<Event>)
    requires IsName(owner) && |states| == |events| + 1 && View(states[0]) == Absent
    requires forall e :: e in events ==> Valid(e)
    requires forall i :: 0 <= i < |events| ==> StoreStep(states[i], owner, events[i], states[i + 1])
    ensures Subsequence(took, events) && (forall e :: e in took ==> e in events)
    ensures View(states[|events|]) == Run(Absent, owner, took)
    ensures Represents(View(states[|events|]), AbstractRun(NoSecret, owner, took))
  {
    took := [];
    if events != [] {
      var k := |events| - 1;
      took := StoreRunRefines(owner, events[..k], states[..k + 1]);
      assert StoreStep(states[k], owner, events[k], states[k + 1]);
      StoreStepActs(states[k], owner, events[k], states[k + 1]);
      if View(states[k + 1]) != View(states[k]) {
        var longer := took + [events[k]];
        assert longer[..|took|] == took;
        took := longer;
      }
    }
    RunRefines(owner, took);
  }

  /** The owner is always in the list while its own label is left alone, so every label
      removal takes effect. */
  lemma {:induction false} RemovalsTakeEffect(owner: string, events: seq<Event>, n: string)
    requires LabelRemoved(owner) !in events
    ensures var a := AbstractRun(NoSecret, owner, events);
      && (a.Listing? ==> owner in a.names)
      && (a.Listing? && n != owner ==> AbstractStep(a, owner, LabelRemoved(n)) == Listing(a.names - {n}))
  {
    if events != [] {
      var k := |events| - 1;
      RemovalsTakeEffect(owner, events[..k], n);
      assert events[k] in events;
    }
  }
}
