/** An entity-state record as Home Assistant's `/api/states` returns it, with
    only the fields the health engine and the server read. Every field may be
    missing. For `entityId`, `None` stands for a missing key only: a present
    `entity_id` holding `None` makes both readers raise and is not modelled.
    For `state` and the two versions, `None` stands for a missing key or a key
    holding `None`, which the readers treat alike. */
module Entities {
  import opened Wrappers

  datatype Record = Record(
    entityId: Option<string>,
    state: Option<string>,
    latestVersion: Option<string>,     // attributes["latest_version"]
    installedVersion: Option<string>)  // attributes["installed_version"]

  /** `state.get("entity_id", "")`: the id, or "" when the key is absent. */
  function EntityId(r: Record): string {
    r.entityId.GetOr("")
  }

  /** `state.get("state") or ""`: a missing, `None` or empty state is "". */
  function StateOf(r: Record): string {
    r.state.GetOr("")
  }

  /** The number of records of the snapshot that satisfy `p`. */
  ghost function CountWhere(states: seq<Record>, p: Record -> bool): nat {
    |set i | 0 <= i < |states| && p(states[i])|
  }

  lemma CountWhereStep(states: seq<Record>, p: Record -> bool)
    requires states != []
    ensures CountWhere(states, p) ==
      CountWhere(states[..|states| - 1], p) + (if p(states[|states| - 1]) then 1 else 0)
  {
    var n := |states| - 1;
    var prefix := states[..n];
    var a := set i | 0 <= i < |prefix| && p(prefix[i]);
    var b := set i | 0 <= i < |states| && p(states[i]);
    assert b == a + (if p(states[n]) then {n} else {});
    assert n !in a;
  }

  /** No predicate holds of more records than the snapshot has. */
  lemma {:induction false} CountWhereAtMost(states: seq<Record>, p: Record -> bool)
    ensures CountWhere(states, p) <= |states|
  {
    if states != [] {
      CountWhereAtMost(states[..|states| - 1], p);
      CountWhereStep(states, p);
    }
  }

  /** A list built by a loop over the snapshot that appends `f(r)` for each
      record `r` satisfying `p`: the unavailable, critical and update lists
      of `analyze_health`, and the domains `_safe_domain_counts` counts. */
  function Collect<T>(states: seq<Record>, p: Record -> bool, f: Record -> T): seq<T> {
    if states == [] then []
    else
      var r := states[|states| - 1];
      Collect(states[..|states| - 1], p, f) + (if p(r) then [f(r)] else [])
  }

  /** One more turn of the loop appends at most the one element. */
  lemma CollectStep<T>(states: seq<Record>, i: nat, p: Record -> bool, f: Record -> T)
    requires i < |states|
    ensures Collect(states[..i + 1], p, f) ==
      Collect(states[..i], p, f) + (if p(states[i]) then [f(states[i])] else [])
  {
    assert states[..i + 1][..i] == states[..i];
  }

  /** Collecting over a concatenation is collecting over each part. */
  lemma {:induction false} CollectAppend<T>(a: seq<Record>, b: seq<Record>, p: Record -> bool, f: Record -> T)
    ensures Collect(a + b, p, f) == Collect(a, p, f) + Collect(b, p, f)
  {
    if b == [] {
      assert a + b == a;
    } else {
      var b' := b[..|b| - 1];
      CollectAppend(a, b', p, f);
      assert (a + b)[..|a + b| - 1] == a + b';
      assert (a + b)[|a + b| - 1] == b[|b| - 1];
    }
  }

  /** The list has one element per record satisfying `p`. */
  lemma {:induction false} CollectCount<T>(states: seq<Record>, p: Record -> bool, f: Record -> T)
    ensures |Collect(states, p, f)| == CountWhere(states, p)
  {
    if states != [] {
      CollectCount(states[..|states| - 1], p, f);
      CountWhereStep(states, p);
    }
  }

  /** A value occurs in the list once per record satisfying `p` that `f`
      maps to it (`hit` picks out exactly those records). */
  lemma {:induction false} CollectOccurrences<T>(states: seq<Record>, p: Record -> bool, f: Record -> T, v: T,
                                                 hit: Record -> bool)
    requires forall r :: hit(r) == (p(r) && f(r) == v)
    ensures multiset(Collect(states, p, f))[v] == CountWhere(states, hit)
  {
    if states != [] {
      var n, r := |states| - 1, states[|states| - 1];
      CollectOccurrences(states[..n], p, f, v, hit);
      CountWhereStep(states, hit);
      var tail := if p(r) then [f(r)] else [];
      assert multiset(tail)[v] == if hit(r) then 1 else 0;
    }
  }

  /** The image of every record satisfying `p` is in the list. */
  lemma {:induction false} CollectContains<T>(states: seq<Record>, p: Record -> bool, f: Record -> T, i: nat)
    requires i < |states| && p(states[i])
    ensures f(states[i]) in Collect(states, p, f)
  {
    var n := |states| - 1;
    if i < n {
      CollectContains(states[..n], p, f, i);
    }
  }

  /** A non-empty list was collected from some record satisfying `p`. */
  lemma {:induction false} CollectWitness<T>(states: seq<Record>, p: Record -> bool, f: Record -> T) returns (i: nat)
    requires Collect(states, p, f) != []
    ensures i < |states| && p(states[i])
  {
    var n := |states| - 1;
    if p(states[n]) {
      i := n;
    } else {
      assert Collect(states[..n], p, f) != [];
      i := CollectWitness(states[..n], p, f);
    }
  }

  /** A stricter filter collects no more records. */
  lemma {:induction false} CollectStricter<T, U>(states: seq<Record>, p: Record -> bool, f: Record -> T,
                                                 q: Record -> bool, g: Record -> U)
    requires forall r :: q(r) ==> p(r)
    ensures |Collect(states, q, g)| <= |Collect(states, p, f)|
  {
    if states != [] {
      CollectStricter(states[..|states| - 1], p, f, q, g);
    }
  }

  /** When every record satisfies `p`, every record is collected. */
  lemma {:induction false} CollectAll<T>(states: seq<Record>, p: Record -> bool, f: Record -> T)
    requires forall i :: 0 <= i < |states| ==> p(states[i])
    ensures |Collect(states, p, f)| == |states|
  {
    if states != [] {
      CollectAll(states[..|states| - 1], p, f);
    }
  }

  /** When no record satisfies `p`, nothing is collected. */
  lemma {:induction false} CollectNone<T>(states: seq<Record>, p: Record -> bool, f: Record -> T)
    requires forall i :: 0 <= i < |states| ==> !p(states[i])
    ensures Collect(states, p, f) == []
  {
    if states != [] {
      CollectNone(states[..|states| - 1], p, f);
    }
  }
}
