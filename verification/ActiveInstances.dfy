/** Accounting of active instances at the start of a reconciliation: the map from namespace to
    phase, and the two gauges published as metrics (controllers/argocd/argocd_controller.go). */
module ActiveInstances {
  import opened Lists

  /** A reconciliation that found its instance. */
  datatype Event = Event(namespace: string, phase: string, deleting: bool)

  datatype Books = Books(active: map<string, string>, total: int, byPhase: map<string, int>)

  function Gauge(byPhase: map<string, int>, phase: string): int {
    if phase in byPhase then byPhase[phase] else 0
  }

  function Moved(byPhase: map<string, int>, phase: string, delta: int): map<string, int> {
    byPhase[phase := Gauge(byPhase, phase) + delta]
  }

  class Accounting {
    var active: map<string, string>
    var total: int
    var byPhase: map<string, int>

    constructor ()
      ensures active == map[] && total == 0 && byPhase == map[]
    {
      active, total, byPhase := map[], 0, map[];
    }

    method Reconcile(e: Event)
      modifies this
      ensures Books(active, total, byPhase) == Account(old(Books(active, total, byPhase)), e)
    {
      var newPhase := e.phase;
      if e.namespace !in active {
        if newPhase != "" {
          active := active[e.namespace := newPhase];
          byPhase := Moved(byPhase, newPhase, 1);
          total := total + 1;
        }
      } else {
        var oldPhase := active[e.namespace];
        if oldPhase != newPhase {
          active := active[e.namespace := newPhase];
          byPhase := Moved(byPhase, newPhase, 1);
          byPhase := Moved(byPhase, oldPhase, -1);
        }
      }
      if e.deleting {
        active := active - {e.namespace};
        byPhase := Moved(byPhase, newPhase, -1);
        total := total - 1;
      }
    }
  }

  /** The same accounting on values, in two steps. */
  function Account(b: Books, e: Event): Books {
    var seen := Observe(b, e);
    if e.deleting then Books(seen.active - {e.namespace}, seen.total - 1, Moved(seen.byPhase, e.phase, -1)) else seen
  }

  function Observe(b: Books, e: Event): Books {
    if e.namespace in b.active then
      var oldPhase := b.active[e.namespace];
      if oldPhase == e.phase then b
      else Books(b.active[e.namespace := e.phase], b.total, Moved(Moved(b.byPhase, e.phase, 1), oldPhase, -1))
    else if e.phase == "" then b
    else Books(b.active[e.namespace := e.phase], b.total + 1, Moved(b.byPhase, e.phase, 1))
  }

  function Tracked<K, V(==)>(active: map<K, V>, phase: V): set<K> {
    set n | n in active && active[n] == phase
  }

  /** Number of namespaces tracked with a phase. */
  function Count<K, V(==)>(active: map<K, V>, phase: V): int {
    |Tracked(active, phase)|
  }

  /** Map and gauges agree, up to `missed` deletions. */
  ghost predicate Balanced(b: Books, missed: int) {
    && b.total == |b.active| - missed
    && forall p :: Gauge(b.byPhase, p) == Count(b.active, p) - if p == "" then missed else 0
  }

  /** The event deletes an instance that was never tracked and has no phase yet. */
  predicate Misses(b: Books, e: Event) {
    e.deleting && e.namespace !in b.active && e.phase == ""
  }

  lemma CountRemoved<K, V>(active: map<K, V>, n: K, p: V)
    ensures Count(active - {n}, p) == Count(active, p) - if n in active && active[n] == p then 1 else 0
    ensures |active - {n}| == |active| - if n in active then 1 else 0
  {
    assert Tracked(active - {n}, p) == Tracked(active, p) - {n};
    assert (active - {n}).Keys == active.Keys - {n};
  }

  lemma CountSet<K, V>(active: map<K, V>, n: K, phase: V, p: V)
    requires n !in active
    ensures Count(active[n := phase], p) == Count(active, p) + if p == phase then 1 else 0
  {
    var after := active[n := phase];
    if p == phase {
      assert Tracked(after, p) == Tracked(active, p) + {n};
    } else {
      assert Tracked(after, p) == Tracked(active, p);
    }
  }

  lemma SizeSet<K, V>(active: map<K, V>, n: K, phase: V)
    requires n !in active
    ensures |active[n := phase]| == |active| + 1
  {
    assert active[n := phase].Keys == active.Keys + {n};
  }

  lemma CountChanged<K, V>(active: map<K, V>, n: K, phase: V, p: V)
    ensures Count(active[n := phase], p) ==
      Count(active, p) - (if n in active && active[n] == p then 1 else 0) + (if p == phase then 1 else 0)
    ensures |active[n := phase]| == |active| + if n in active then 0 else 1
  {
    CountRemoved(active, n, p);
    CountSet(active - {n}, n, phase, p);
    SizeSet(active - {n}, n, phase);
    assert (active - {n})[n := phase] == active[n := phase];
  }

  lemma ObserveBalances(b: Books, e: Event, missed: int)
    requires Balanced(b, missed)
    ensures Balanced(Observe(b, e), missed)
  {
    var seen := Observe(b, e);
    if seen != b {
      assert seen.active == b.active[e.namespace := e.phase];
      forall p ensures Gauge(seen.byPhase, p) == Count(seen.active, p) - if p == "" then missed else 0 {
        CountChanged(b.active, e.namespace, e.phase, p);
      }
      CountChanged(b.active, e.namespace, e.phase, "");
    }
  }

  lemma AccountBalances(b: Books, e: Event, missed: int)
    requires Balanced(b, missed)
    ensures Balanced(Account(b, e), missed + if Misses(b, e) then 1 else 0)
  {
    ObserveBalances(b, e, missed);
    var seen := Observe(b, e);
    assert e.namespace in seen.active ==> seen.active[e.namespace] == e.phase;
    assert e.namespace in seen.active || e.phase == "";
    if e.deleting {
      DeletionBalances(seen, e.namespace, e.phase, missed);
    }
  }

  lemma DeletionBalances(b: Books, n: string, phase: string, missed: int)
    requires Balanced(b, missed)
    requires if n in b.active then b.active[n] == phase else phase == ""
    ensures Balanced(Books(b.active - {n}, b.total - 1, Moved(b.byPhase, phase, -1)), missed + if n in b.active then 0 else 1)
  {
    var missed' := missed + if n in b.active then 0 else 1;
    forall p ensures Gauge(Moved(b.byPhase, phase, -1), p) == Count(b.active - {n}, p) - if p == "" then missed' else 0 {
      CountRemoved(b.active, n, p);
      GaugeMoved(b.byPhase, phase, -1, p);
    }
    CountRemoved(b.active, n, "");
  }

  lemma GaugeMoved(byPhase: map<string, int>, phase: string, delta: int, p: string)
    ensures Gauge(Moved(byPhase, phase, delta), p) == Gauge(byPhase, p) + if p == phase then delta else 0
  {
  }

  function Run(b: Books, events: seq<Event>): Books
    decreases |events|
  {
    if events == [] then b else Run(Account(b, events[0]), events[1..])
  }

  function Missed(b: Books, events: seq<Event>): nat
    decreases |events|
  {
    if events == [] then 0
    else (if Misses(b, events[0]) then 1 else 0) + Missed(Account(b, events[0]), events[1..])
  }

  /** Conservation over every run of reconciliations, in any order, of any instances. */
  lemma {:induction false} RunBalances(b: Books, events: seq<Event>, missed: int)
    requires Balanced(b, missed)
    ensures Balanced(Run(b, events), missed + Missed(b, events))
    decreases |events|
  {
    if events != [] {
      AccountBalances(b, events[0], missed);
      RunBalances(Account(b, events[0]), events[1..], missed + if Misses(b, events[0]) then 1 else 0);
    }
  }

  /** What one reconciliation does to the phase its own namespace is tracked with. */
  function Tracking(before: Option<string>, e: Event): Option<string> {
    if e.deleting then None
    else if e.phase != "" || before.Some? then Some(e.phase)
    else None
  }

  function TrackingOver(before: Option<string>, events: seq<Event>, n: string): Option<string>
    decreases |events|
  {
    if events == [] then before
    else TrackingOver(if events[0].namespace == n then Tracking(before, events[0]) else before, events[1..], n)
  }

  /** Over every run the map has the phase a namespace was last seen with; deletions and other
      namespaces' events do to it what they should: end it, and nothing. */
  lemma {:induction false} MapFollowsEvents(b: Books, events: seq<Event>, n: string)
    ensures Lookup(Run(b, events).active, n) == TrackingOver(Lookup(b.active, n), events, n)
    decreases |events|
  {
    if events != [] {
      MapFollowsEvents(Account(b, events[0]), events[1..], n);
    }
  }

  const EMPTY := Books(map[], 0, map[])

  /** From the start of the controller, the gauges show what the map holds exactly when no
      untracked instance without a phase was ever deleted; deletions may be retried. */
  lemma GaugesAgreeIff(events: seq<Event>)
    ensures var b := Run(EMPTY, events);
      (b.total == |b.active| && forall p :: Gauge(b.byPhase, p) == Count(b.active, p)) <==> Missed(EMPTY, events) == 0
  {
    assert Balanced(EMPTY, 0) by {
      forall p ensures Count(EMPTY.active, p) == 0 {
        assert Tracked(EMPTY.active, p) == {};
      }
    }
    RunBalances(EMPTY, events, 0);
  }

  /** Deleting such an instance drives both gauges below zero. */
  lemma NegativeGauges(namespace: string)
    ensures var b := Run(EMPTY, [Event(namespace, "", true)]);
      b.active == map[] && b.total == -1 && Gauge(b.byPhase, "") == -1
  {
    assert [Event(namespace, "", true)][1..] == [];
    assert EMPTY.active - {namespace} == map[];
  }

  /** A deletion that is retried counts once, unless it is a missed one. */
  lemma RetriedDeletion(b: Books, e: Event)
    requires e.deleting && e.phase != ""
    ensures var once := Account(b, e); var twice := Account(once, e);
      twice.active == once.active && twice.total == once.total && forall p :: Gauge(twice.byPhase, p) == Gauge(once.byPhase, p)
  {
    var once := Account(b, e);
    assert e.namespace !in once.active;
    assert once.active[e.namespace := e.phase] - {e.namespace} == once.active;
  }
}
