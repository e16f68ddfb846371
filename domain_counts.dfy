/** Counting entities per domain into an insertion-ordered dictionary, and
    ordering such a dictionary by count, highest first, the way Python's
    stable `sorted(d.items(), key=count, reverse=True)` does. Both the health
    analyzer (`by_domain`) and the server (`_safe_domain_counts`) are built
    from these two steps. */
module DomainCounts {

  /** A Python dict from domain to count. Its iteration order is the order in
      which the keys were first inserted, so it is a sequence of pairs with
      distinct keys rather than a Dafny map. */
  type Tally = seq<(string, nat)>

  function Keys(t: Tally): seq<string> {
    seq(|t|, i requires 0 <= i < |t| => t[i].0)
  }

  predicate Distinct(s: seq<string>) {
    forall i, j :: 0 <= i < j < |s| ==> s[i] != s[j]
  }

  /** No key occurs twice: `Distinct(Keys(t))`, stated on the entries so
      that proofs about them need not go through `Keys` (see
      `DistinctKeysIff`). */
  predicate DistinctKeys(t: Tally) {
    forall i, j :: 0 <= i < j < |t| ==> t[i].0 != t[j].0
  }

  lemma DistinctKeysIff(t: Tally)
    ensures DistinctKeys(t) <==> Distinct(Keys(t))
  {
    forall i, j | 0 <= i < j < |t| ensures (t[i].0 != t[j].0) == (Keys(t)[i] != Keys(t)[j]) { }
  }

  /** The sum of the counts. */
  function Sum(t: Tally): nat {
    if t == [] then 0 else t[0].1 + Sum(t[1..])
  }

  /** `counts[k] = counts.get(k, 0) + 1`, and equally
      `by_domain[k].append(...)` on a `defaultdict(list)` when only the
      length of each list is kept: a key seen before has its count raised in
      place, a new key goes at the end with count 1. */
  function Bump(t: Tally, k: string): Tally {
    if t == [] then [(k, 1)]
    else if t[0].0 == k then [(k, t[0].1 + 1)] + t[1..]
    else [t[0]] + Bump(t[1..], k)
  }

  /** The dictionary built by bumping each key of `keys` in turn. */
  function TallyOf(keys: seq<string>): Tally {
    if keys == [] then [] else Bump(TallyOf(keys[..|keys| - 1]), keys[|keys| - 1])
  }

  /** The distinct elements of `keys`, in order of first occurrence: the
      reference for a dictionary's insertion order. */
  function Dedup(keys: seq<string>): (r: seq<string>)
    ensures forall k :: k in r <==> k in keys
    ensures Distinct(r)
  {
    if keys == [] then []
    else
      var p := Dedup(keys[..|keys| - 1]);
      var k := keys[|keys| - 1];
      if k in p then p else p + [k]
  }

  lemma {:induction false} BumpPresent(t: Tally, k: string, j: nat)
    requires DistinctKeys(t) && j < |t| && t[j].0 == k
    ensures |Bump(t, k)| == |t|
    ensures forall i :: 0 <= i < |t| && i != j ==> Bump(t, k)[i] == t[i]
    ensures Bump(t, k)[j] == (k, t[j].1 + 1)
  {
    if t[0].0 != k {
      BumpPresent(t[1..], k, j - 1);
    }
  }

  lemma {:induction false} BumpAbsent(t: Tally, k: string)
    requires k !in Keys(t)
    ensures Bump(t, k) == t + [(k, 1)]
  {
    if t != [] {
      assert t[0].0 == Keys(t)[0];
      assert k !in Keys(t[1..]) by {
        forall i | 0 <= i < |t| - 1 ensures Keys(t[1..])[i] == Keys(t)[i + 1] { }
      }
      BumpAbsent(t[1..], k);
    }
  }

  /** `t` is the dictionary of `keys`: its keys are the distinct keys in
      order of first occurrence, each with its number of occurrences. */
  predicate Counts(t: Tally, keys: seq<string>) {
    Keys(t) == Dedup(keys) &&
    forall i :: 0 <= i < |t| ==> t[i].1 == multiset(keys)[t[i].0]
  }

  lemma CountsDistinctKeys(t: Tally, keys: seq<string>)
    requires Counts(t, keys)
    ensures DistinctKeys(t)
  {
    DistinctKeysIff(t);
  }

  lemma DedupAppend(keys: seq<string>, k: string)
    ensures Dedup(keys + [k]) == if k in keys then Dedup(keys) else Dedup(keys) + [k]
  {
    assert (keys + [k])[..|keys|] == keys;
  }

  lemma KeysAppend(t: Tally, e: (string, nat))
    ensures Keys(t + [e]) == Keys(t) + [e.0]
  {
    forall i | 0 <= i < |t| + 1 ensures Keys(t + [e])[i] == (Keys(t) + [e.0])[i] { }
  }

  /** A key seen before: bumping raises its count in place. */
  lemma BumpCountsPresent(t: Tally, keys: seq<string>, k: string)
    requires Counts(t, keys) && k in keys
    ensures Counts(Bump(t, k), keys + [k])
  {
    CountsDistinctKeys(t, keys);
    var j :| 0 <= j < |Dedup(keys)| && Dedup(keys)[j] == k;
    assert Keys(t)[j] == t[j].0;
    BumpPresent(t, k, j);
    var u := Bump(t, k);
    DedupAppend(keys, k);
    assert Keys(u) == Keys(t) by {
      forall i | 0 <= i < |t| ensures Keys(u)[i] == Keys(t)[i] { }
    }
    var m, m' := multiset(keys), multiset(keys + [k]);
    assert m' == m + multiset{k};
    forall i | 0 <= i < |u| ensures u[i].1 == m'[u[i].0] {
      if i != j {
        assert u[i] == t[i];
        assert Keys(t)[i] == t[i].0;
      }
    }
  }

  /** A new key: bumping appends it with count 1. */
  lemma BumpCountsAbsent(t: Tally, keys: seq<string>, k: string)
    requires Counts(t, keys) && k !in keys
    ensures Counts(Bump(t, k), keys + [k])
  {
    BumpAbsent(t, k);
    DedupAppend(keys, k);
    KeysAppend(t, (k, 1));
    BumpAbsentCounts(t, keys, k);
  }

  lemma BumpAbsentCounts(t: Tally, keys: seq<string>, k: string)
    requires Keys(t) == Dedup(keys) && k !in keys
    requires forall i :: 0 <= i < |t| ==> t[i].1 == multiset(keys)[t[i].0]
    ensures forall i :: 0 <= i < |t| + 1 ==> (t + [(k, 1)])[i].1 == multiset(keys + [k])[(t + [(k, 1)])[i].0]
  {
    var u := t + [(k, 1)];
    var m, m' := multiset(keys), multiset(keys + [k]);
    assert m' == m + multiset{k};
    forall i | 0 <= i < |u| ensures u[i].1 == m'[u[i].0] {
      if i < |t| {
        assert u[i] == t[i] && Keys(t)[i] == t[i].0;
        assert t[i].0 in Dedup(keys);
      }
    }
  }

  /** The dictionary holds each distinct key once, in order of first
      occurrence, with the number of times it occurs. */
  lemma {:induction false} TallyOfCounts(keys: seq<string>)
    ensures Keys(TallyOf(keys)) == Dedup(keys)
    ensures forall i :: 0 <= i < |TallyOf(keys)| ==>
      TallyOf(keys)[i].1 == multiset(keys)[TallyOf(keys)[i].0]
  {
    if keys != [] {
      var p, k := keys[..|keys| - 1], keys[|keys| - 1];
      assert keys == p + [k];
      TallyOfCounts(p);
      if k in p {
        BumpCountsPresent(TallyOf(p), p, k);
      } else {
        BumpCountsAbsent(TallyOf(p), p, k);
      }
      assert Counts(TallyOf(keys), keys);
    }
  }

  /** Every count in the dictionary is at least one, its keys are distinct,
      and a key is in it exactly when it occurs. */
  lemma TallyOfShape(keys: seq<string>)
    ensures DistinctKeys(TallyOf(keys))
    ensures forall i :: 0 <= i < |TallyOf(keys)| ==> TallyOf(keys)[i].1 >= 1
    ensures forall k :: k in Keys(TallyOf(keys)) <==> k in keys
  {
    TallyOfCounts(keys);
    var t := TallyOf(keys);
    forall i | 0 <= i < |t| ensures t[i].1 >= 1 {
      assert Keys(t)[i] == t[i].0;
      assert t[i].0 in keys;
    }
    DistinctKeysIff(t);
  }

  lemma {:induction false} SumBump(t: Tally, k: string)
    ensures Sum(Bump(t, k)) == Sum(t) + 1
  {
    if t != [] && t[0].0 != k {
      SumBump(t[1..], k);
    }
  }

  /** The counts add up to the number of keys counted. */
  lemma {:induction false} SumTallyOf(keys: seq<string>)
    ensures Sum(TallyOf(keys)) == |keys|
  {
    if keys != [] {
      SumTallyOf(keys[..|keys| - 1]);
      SumBump(TallyOf(keys[..|keys| - 1]), keys[|keys| - 1]);
    }
  }

  lemma {:induction false} SumAppend(a: Tally, b: Tally)
    ensures Sum(a + b) == Sum(a) + Sum(b)
  {
    if a != [] {
      assert (a + b)[1..] == a[1..] + b;
      SumAppend(a[1..], b);
    } else {
      assert a + b == b;
    }
  }

  /** Cutting a dictionary short never raises its total. */
  lemma SumPrefix(t: Tally, n: nat)
    requires n <= |t|
    ensures Sum(t[..n]) <= Sum(t)
  {
    assert t == t[..n] + t[n..];
    SumAppend(t[..n], t[n..]);
  }

  // ---------------------------------------------------------------------
  // Ordering by count, highest first, stably.

  predicate SortedDesc(t: Tally) {
    forall i, j :: 0 <= i < j < |t| ==> t[i].1 >= t[j].1
  }

  /** The entries of `t` whose count is `c`, in their order in `t`. */
  function WithCount(t: Tally, c: nat): Tally {
    if t == [] then [] else (if t[0].1 == c then [t[0]] else []) + WithCount(t[1..], c)
  }

  /** Places `x` after every entry whose count is at least its own. */
  function InsertDesc(t: Tally, x: (string, nat)): Tally {
    if t == [] then [x]
    else if t[0].1 < x.1 then [x] + t
    else [t[0]] + InsertDesc(t[1..], x)
  }

  /** Python's `sorted(items, key=lambda kv: kv[1], reverse=True)`: an
      insertion sort that keeps entries with equal counts in their input
      order. */
  function SortDesc(t: Tally): Tally {
    if t == [] then [] else InsertDesc(SortDesc(t[..|t| - 1]), t[|t| - 1])
  }

  lemma {:induction false} WithCountAppend(a: Tally, b: Tally, c: nat)
    ensures WithCount(a + b, c) == WithCount(a, c) + WithCount(b, c)
  {
    if a != [] {
      assert (a + b)[1..] == a[1..] + b;
      WithCountAppend(a[1..], b, c);
    } else {
      assert a + b == b;
    }
  }

  lemma {:induction false} WithCountNone(t: Tally, c: nat)
    requires forall i :: 0 <= i < |t| ==> t[i].1 != c
    ensures WithCount(t, c) == []
  {
    if t != [] {
      WithCountNone(t[1..], c);
    }
  }

  lemma {:induction false} InsertDescPermutes(t: Tally, x: (string, nat))
    ensures |InsertDesc(t, x)| == |t| + 1
    ensures multiset(InsertDesc(t, x)) == multiset(t) + multiset{x}
    ensures Sum(InsertDesc(t, x)) == Sum(t) + x.1
  {
    if t != [] && t[0].1 >= x.1 {
      InsertDescPermutes(t[1..], x);
      assert t == [t[0]] + t[1..];
    }
  }

  lemma {:induction false} InsertDescSorted(t: Tally, x: (string, nat))
    requires SortedDesc(t)
    ensures SortedDesc(InsertDesc(t, x))
  {
    if t != [] && t[0].1 >= x.1 {
      var r := InsertDesc(t[1..], x);
      InsertDescSorted(t[1..], x);
      InsertDescMembers(t[1..], x);
      assert InsertDesc(t, x) == [t[0]] + r;
      forall j | 0 <= j < |r| ensures t[0].1 >= r[j].1 {
        assert r[j] in r;
        if r[j] != x {
          var i :| 0 <= i < |t| - 1 && t[1..][i] == r[j];
          assert t[i + 1] == r[j];
        }
      }
    }
  }

  lemma {:induction false} InsertDescWithCount(t: Tally, x: (string, nat), c: nat)
    requires SortedDesc(t)
    ensures WithCount(InsertDesc(t, x), c) == WithCount(t, c) + WithCount([x], c)
  {
    if t == [] {
    } else if t[0].1 < x.1 {
      if c == x.1 {
        WithCountNone(t, c);
      }
      WithCountAppend([x], t, c);
    } else {
      var r := InsertDesc(t[1..], x);
      InsertDescWithCount(t[1..], x, c);
      assert t == [t[0]] + t[1..];
      assert InsertDesc(t, x) == [t[0]] + r;
      WithCountAppend([t[0]], r, c);
      WithCountAppend([t[0]], t[1..], c);
    }
  }

  /** Sorting yields a permutation of the entries, ordered by count
      descending, with the same total. */
  lemma {:induction false} SortDescSorted(t: Tally)
    ensures |SortDesc(t)| == |t|
    ensures multiset(SortDesc(t)) == multiset(t)
    ensures SortedDesc(SortDesc(t))
    ensures Sum(SortDesc(t)) == Sum(t)
  {
    if t != [] {
      var p, x := t[..|t| - 1], t[|t| - 1];
      assert t == p + [x];
      SortDescSorted(p);
      InsertDescPermutes(SortDesc(p), x);
      InsertDescSorted(SortDesc(p), x);
      SumAppend(p, [x]);
    }
  }

  /** The sort is stable: for every count, the entries with that count come
      out in the order they went in. */
  lemma {:induction false} SortDescStable(t: Tally)
    ensures forall c :: WithCount(SortDesc(t), c) == WithCount(t, c)
  {
    if t != [] {
      var p, x := t[..|t| - 1], t[|t| - 1];
      assert t == p + [x];
      SortDescStable(p);
      SortDescSorted(p);
      forall c ensures WithCount(SortDesc(t), c) == WithCount(t, c) {
        InsertDescWithCount(SortDesc(p), x, c);
        WithCountAppend(p, [x], c);
      }
    }
  }

  /** Sorting a dictionary with distinct keys gives distinct keys. */
  lemma {:induction false} SortDescKeepsKeysDistinct(t: Tally)
    requires DistinctKeys(t)
    ensures DistinctKeys(SortDesc(t))
  {
    if t != [] {
      var p, x := t[..|t| - 1], t[|t| - 1];
      SortDescKeepsKeysDistinct(p);
      SortDescSorted(p);
      var s := SortDesc(p);
      forall y | y in s ensures y.0 != x.0 {
        assert y in multiset(p);
        var i :| 0 <= i < |p| && p[i] == y;
        assert t[i] == y;
      }
      InsertDescDistinct(s, x);
    }
  }

  lemma {:induction false} InsertDescDistinct(t: Tally, x: (string, nat))
    requires DistinctKeys(t)
    requires forall y :: y in t ==> y.0 != x.0
    ensures DistinctKeys(InsertDesc(t, x))
  {
    if t != [] && t[0].1 >= x.1 {
      var r := InsertDesc(t[1..], x);
      InsertDescDistinct(t[1..], x);
      forall y | y in r ensures y.0 != t[0].0 {
        InsertDescMembers(t[1..], x);
        if y != x {
          var i :| 0 <= i < |t| - 1 && t[1..][i] == y;
          assert t[i + 1] == y;
        }
      }
      assert InsertDesc(t, x) == [t[0]] + r;
      forall i, j | 0 <= i < j < |r| + 1 ensures ([t[0]] + r)[i].0 != ([t[0]] + r)[j].0 {
        if i == 0 {
          assert r[j - 1] in r;
        }
      }
    }
  }

  lemma {:induction false} InsertDescMembers(t: Tally, x: (string, nat))
    ensures forall y :: y in InsertDesc(t, x) <==> y in t || y == x
  {
    if t != [] && t[0].1 >= x.1 {
      InsertDescMembers(t[1..], x);
      assert t == [t[0]] + t[1..];
    }
  }

  /** Cutting a sequence short keeps, for every count, a prefix of the
      entries with that count. */
  lemma {:induction false} WithCountPrefix(t: Tally, n: nat, c: nat)
    requires n <= |t|
    ensures WithCount(t[..n], c) <= WithCount(t, c)
  {
    if n > 0 {
      assert t[..n][1..] == t[1..][..n - 1];
      WithCountPrefix(t[1..], n - 1, c);
    }
  }

  /** Python's slice `items[:n]`: the first `n` entries, or all of them
      when there are fewer. */
  function Take(t: Tally, n: nat): (r: Tally)
    ensures r <= t
    ensures |r| == if |t| <= n then |t| else n
  {
    if |t| <= n then t else t[..n]
  }
}
