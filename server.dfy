/** The decision logic of homeops/server.py: the per-domain entity counts of
    the `/api/doctor` response (`_safe_domain_counts`) and the URL of a Core
    API call (the join inside `_ha_get`). */
module Server {
  import opened Wrappers
  import opened Text
  import opened DomainCounts
  import opened Entities

  /** How many domains the response lists at most. */
  const MaxDomains: nat := 12

  /** The default of `HOMEOPS_CORE_API_BASE`. */
  const DefaultCoreApiBase: string := "http://supervisor/core/api"

  /** An entity id with a `.` has the text before its first `.` as its
      domain; an id without one has no domain here (there is no "unknown"
      bucket). */
  predicate HasDomain(r: Record) {
    '.' in EntityId(r)
  }

  function DomainOf(r: Record): string {
    BeforeFirst(EntityId(r), '.')
  }

  /** The domain of each record that has one, in snapshot order. */
  function DottedDomains(states: seq<Record>): seq<string> {
    Collect(states, HasDomain, DomainOf)
  }

  /** What `_safe_domain_counts` returns, as a function of the snapshot. */
  function TopDomainCounts(states: seq<Record>): Tally {
    Take(SortDesc(TallyOf(DottedDomains(states))), MaxDomains)
  }

  lemma PrefixStep(states: seq<Record>, i: nat)
    requires i < |states|
    ensures TallyOf(DottedDomains(states[..i + 1])) ==
      if HasDomain(states[i]) then Bump(TallyOf(DottedDomains(states[..i])), DomainOf(states[i]))
      else TallyOf(DottedDomains(states[..i]))
  {
    CollectStep(states, i, HasDomain, DomainOf);
    var seen := DottedDomains(states[..i]);
    if HasDomain(states[i]) {
      var d := DomainOf(states[i]);
      assert (seen + [d])[..|seen|] == seen;
    } else {
      assert seen + [] == seen;
    }
  }

  /** `_safe_domain_counts`: count the ids per domain in one pass, then rank
      the domains by count and keep the first twelve. */
  method SafeDomainCounts(states: seq<Record>) returns (r: Tally)
    ensures r == TopDomainCounts(states)
  {
    var counts: Tally := [];
    for i := 0 to |states|
      invariant counts == TallyOf(DottedDomains(states[..i]))
    {
      PrefixStep(states, i);
      var eid := EntityId(states[i]);
      if '.' in eid {
        var domain := BeforeFirst(eid, '.');
        counts := Bump(counts, domain);
      }
    }
    assert states[..|states|] == states;
    r := Take(SortDesc(counts), MaxDomains);
  }

  /** Each returned pair counts the records whose id has that domain, so no
      count is zero, and no domain is returned twice. */
  lemma TopDomainCountsCounts(states: seq<Record>)
    ensures DistinctKeys(TopDomainCounts(states))
    ensures forall i :: 0 <= i < |TopDomainCounts(states)| ==>
      var (d, n) := TopDomainCounts(states)[i];
      n >= 1 && n == CountWhere(states, r => HasDomain(r) && DomainOf(r) == d)
  {
    var domains := DottedDomains(states);
    var t := TallyOf(domains);
    var ranked := SortDesc(t);
    var top := TopDomainCounts(states);
    TallyOfShape(domains);
    TallyOfCounts(domains);
    SortDescSorted(t);
    SortDescKeepsKeysDistinct(t);
    forall i | 0 <= i < |top|
      ensures top[i].1 >= 1 && top[i].1 == CountWhere(states, r => HasDomain(r) && DomainOf(r) == top[i].0)
    {
      assert top[i] == ranked[i];
      assert ranked[i] in multiset(t);
      var j :| 0 <= j < |t| && t[j] == top[i];
      CollectOccurrences(states, HasDomain, DomainOf, top[i].0, r => HasDomain(r) && DomainOf(r) == top[i].0);
    }
  }

  /** The result is ordered by count, highest first, holds at most twelve
      pairs, and domains with equal counts keep the order in which their
      first entity appears. */
  lemma TopDomainCountsOrder(states: seq<Record>)
    ensures |TopDomainCounts(states)| <= MaxDomains
    ensures |TopDomainCounts(states)| ==
      if |Dedup(DottedDomains(states))| <= MaxDomains then |Dedup(DottedDomains(states))| else MaxDomains
    ensures SortedDesc(TopDomainCounts(states))
    ensures Keys(TallyOf(DottedDomains(states))) == Dedup(DottedDomains(states))
    ensures forall c :: (WithCount(TopDomainCounts(states), c) <=
      WithCount(TallyOf(DottedDomains(states)), c))
  {
    var t := TallyOf(DottedDomains(states));
    var ranked := SortDesc(t);
    SortDescSorted(t);
    SortDescStable(t);
    TallyOfCounts(DottedDomains(states));
    assert |Keys(t)| == |t|;
    forall c ensures WithCount(TopDomainCounts(states), c) <= WithCount(t, c) {
      WithCountPrefix(ranked, |TopDomainCounts(states)|, c);
      assert ranked[..|TopDomainCounts(states)|] == TopDomainCounts(states);
    }
  }

  /** The cut drops only the lowest-ranked domains: every counted domain left
      out has a count no greater than any kept one; with at most twelve
      domains none is left out, and with more exactly twelve are kept. */
  lemma TruncationDropsLowest(states: seq<Record>)
    ensures forall e :: e in TallyOf(DottedDomains(states)) && e !in TopDomainCounts(states) ==>
      forall i :: 0 <= i < |TopDomainCounts(states)| ==> e.1 <= TopDomainCounts(states)[i].1
    ensures |Dedup(DottedDomains(states))| <= MaxDomains ==>
      multiset(TopDomainCounts(states)) == multiset(TallyOf(DottedDomains(states)))
    ensures |Dedup(DottedDomains(states))| > MaxDomains ==> |TopDomainCounts(states)| == MaxDomains
  {
    var t := TallyOf(DottedDomains(states));
    var ranked := SortDesc(t);
    var top := TopDomainCounts(states);
    SortDescSorted(t);
    TallyOfCounts(DottedDomains(states));
    forall e | e in t && e !in top ensures forall i :: 0 <= i < |top| ==> e.1 <= top[i].1 {
      assert e in multiset(ranked);
      var j :| 0 <= j < |ranked| && ranked[j] == e;
      forall i | 0 <= i < |top| ensures e.1 <= top[i].1 {
        assert top[i] == ranked[i];
      }
    }
  }

  /** The returned counts add up to at most the number of records with a
      domain, and to exactly that number when there are at most twelve
      domains; that is all records when every id has a domain. */
  lemma TopDomainCountsSum(states: seq<Record>)
    ensures Sum(TopDomainCounts(states)) <= CountWhere(states, HasDomain) <= |states|
    ensures |Dedup(DottedDomains(states))| <= MaxDomains ==>
      Sum(TopDomainCounts(states)) == CountWhere(states, HasDomain)
    ensures ((forall i :: 0 <= i < |states| ==> HasDomain(states[i])) &&
      |Dedup(DottedDomains(states))| <= MaxDomains) ==> Sum(TopDomainCounts(states)) == |states|
  {
    var domains := DottedDomains(states);
    var t := TallyOf(domains);
    var ranked := SortDesc(t);
    SortDescSorted(t);
    SumTallyOf(domains);
    TallyOfCounts(domains);
    SumPrefix(ranked, |TopDomainCounts(states)|);
    assert ranked[..|TopDomainCounts(states)|] == TopDomainCounts(states);
    CollectCount(states, HasDomain, DomainOf);
    CountWhereAtMost(states, HasDomain);
    if forall i :: 0 <= i < |states| ==> HasDomain(states[i]) {
      CollectAll(states, HasDomain, DomainOf);
    }
  }

  // ---------------------------------------------------------------------
  // The Core API URL.

  /** `f"{base.rstrip('/')}/{path.lstrip('/')}"`. */
  function CoreApiUrl(base: string, path: string): string {
    RStrip(base, '/') + "/" + LStrip(path, '/')
  }

  /** A base without a trailing `/` and a path without a leading `/` are
      joined by exactly one `/`. */
  lemma CoreApiUrlOfCleanParts(base: string, path: string)
    requires base == [] || base[|base| - 1] != '/'
    requires path == [] || path[0] != '/'
    ensures CoreApiUrl(base, path) == base + "/" + path
  {
  }

  /** Extra slashes at the end of the base or the start of the path change
      nothing. */
  lemma CoreApiUrlIgnoresSlashes(base: string, path: string, m: nat, n: nat)
    ensures CoreApiUrl(base + Repeat('/', m), Repeat('/', n) + path) == CoreApiUrl(base, path)
  {
    RStripRepeat('/', m, base);
    LStripRepeat('/', n, path);
  }

  /** The URL is the stripped base, one `/`, then the stripped path; the
      base lost only trailing slashes and the path only leading ones. */
  lemma CoreApiUrlParts(base: string, path: string)
    ensures var b, p := RStrip(base, '/'), LStrip(path, '/');
      CoreApiUrl(base, path) == b + "/" + p &&
      b <= base && (b == [] || b[|b| - 1] != '/') &&
      (forall i :: |b| <= i < |base| ==> base[i] == '/') &&
      |p| <= |path| && p == path[|path| - |p|..] && (p == [] || p[0] != '/') &&
      (forall i :: 0 <= i < |path| - |p| ==> path[i] == '/')
  {
    RStripSpec(base, '/');
    LStripSpec(path, '/');
  }

  /** With the default base, `_ha_get("/config")` and `_ha_get("/states")`
      call the base URL followed by "/config" and "/states". */
  lemma DefaultCoreApiUrls()
    ensures CoreApiUrl(DefaultCoreApiBase, "/config") == DefaultCoreApiBase + "/config"
    ensures CoreApiUrl(DefaultCoreApiBase, "/states") == DefaultCoreApiBase + "/states"
  {
    CoreApiUrlIgnoresSlashes(DefaultCoreApiBase, "config", 0, 1);
    CoreApiUrlIgnoresSlashes(DefaultCoreApiBase, "states", 0, 1);
    CoreApiUrlOfCleanParts(DefaultCoreApiBase, "config");
    CoreApiUrlOfCleanParts(DefaultCoreApiBase, "states");
  }
}
