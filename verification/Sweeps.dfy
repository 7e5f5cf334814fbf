/** Loops that handle the entries of a map one by one. */
module Sweeps {
  import opened Lists

  /** The entries in `done` are related to what they were before, the others are unchanged. */
  ghost predicate Swept<V>(done: set<string>, before: map<string, V>, now: map<string, V>, related: (string, V, V) -> bool) {
    && now.Keys == before.Keys
    && forall n :: n in before ==> if n in done then related(n, before[n], now[n]) else now[n] == before[n]
  }

  lemma SweptNone<V>(before: map<string, V>, related: (string, V, V) -> bool)
    ensures Swept({}, before, before, related)
  {
  }

  /** One more entry is handled; a name without entry changes nothing. */
  lemma SweptNext<V>(done: set<string>, before: map<string, V>, now: map<string, V>, next: map<string, V>, n: string,
                     related: (string, V, V) -> bool)
    requires Swept(done, before, now, related) && n !in done
    requires if n in now then n in next && next == now[n := next[n]] && related(n, before[n], next[n]) else next == now
    ensures Swept(done + {n}, before, next, related)
  {
  }

  /** An entry is as wanted; when something failed it may also be as before. */
  predicate Reached<V(==)>(before: Option<V>, wanted: Option<V>, now: Option<V>, clean: bool) {
    now == wanted || (!clean && now == before)
  }
}
