/** The health engine of homeops/app/health/analyzer.py: `analyze_health`
    classifies a snapshot of entity states into a summary (unavailable
    entities, overall and in important domains, grouped by domain; pending
    updates; a severity), and `build_report` turns that summary into the
    headline, description, first steps and details the dashboard shows. */
module Analyzer {
  import opened Wrappers
  import opened Text
  import opened DomainCounts
  import opened Entities

  /** The domains whose unavailability counts as critical: the ones core to
      the physical running of a home. */
  const ImportantDomains: set<string> :=
    {"light", "switch", "lock", "climate", "cover", "fan", "media_player"}

  /** The number of unavailable important entities from which the system is
      critical. */
  const CriticalThreshold: nat := 5

  /** The domain of an entity id: the text before its first `.`, or
      "unknown" when it has none. */
  function Domain(entityId: string): (d: string)
    ensures '.' in entityId ==> d + "." <= entityId && '.' !in d
    ensures '.' !in entityId ==> d == "unknown"
  {
    if '.' in entityId then
      var d := BeforeFirst(entityId, '.');
      assert d + "." == entityId[..|d| + 1];
      d
    else "unknown"
  }

  function DomainOf(r: Record): string {
    Domain(EntityId(r))
  }

  /** The entity reports itself unavailable, or its state is unknown. */
  predicate IsUnavailable(r: Record) {
    StateOf(r) == "unavailable" || StateOf(r) == "unknown"
  }

  predicate IsCritical(r: Record) {
    IsUnavailable(r) && DomainOf(r) in ImportantDomains
  }

  /** Python truthiness of an optional string attribute. */
  predicate Truthy(v: Option<string>) {
    v.Some? && v.value != ""
  }

  /** An `update.*` entity that is on, or whose latest and installed versions
      are both given and differ. */
  predicate HasPendingUpdate(r: Record) {
    DomainOf(r) == "update" &&
    (StateOf(r) == "on" ||
     (Truthy(r.latestVersion) && Truthy(r.installedVersion) &&
      r.latestVersion.value != r.installedVersion.value))
  }

  datatype UpdateItem = UpdateItem(entityId: string, installed: Option<string>, latest: Option<string>)

  function UpdateItemOf(r: Record): UpdateItem {
    UpdateItem(EntityId(r), r.installedVersion, r.latestVersion)
  }

  // The lists `analyze_health` accumulates, as functions of the records seen
  // so far.

  function UnavailableIds(states: seq<Record>): seq<string> {
    Collect(states, IsUnavailable, EntityId)
  }

  function CriticalIds(states: seq<Record>): seq<string> {
    Collect(states, IsCritical, EntityId)
  }

  /** The domain of each unavailable entity, in snapshot order: what the
      per-domain buckets of `by_domain` are filled from. */
  function UnavailableDomains(states: seq<Record>): seq<string> {
    Collect(states, IsUnavailable, DomainOf)
  }

  function PendingUpdates(states: seq<Record>): seq<UpdateItem> {
    Collect(states, HasPendingUpdate, UpdateItemOf)
  }

  datatype Severity = Critical | Warning | Healthy {
    function Name(): string {
      match this
      case Critical => "critical"
      case Warning => "warning"
      case Healthy => "healthy"
    }
  }

  /** The severity rule, in its priority order: critical from the threshold
      on, otherwise a warning when anything important is unavailable or an
      update is pending, otherwise healthy. */
  function SeverityFor(criticalCount: nat, updateCount: nat): (s: Severity)
    ensures s == Critical <==> criticalCount >= CriticalThreshold
    ensures s == Warning <==> criticalCount < CriticalThreshold && (criticalCount >= 1 || updateCount >= 1)
    ensures s == Healthy <==> criticalCount == 0 && updateCount == 0
  {
    if criticalCount >= CriticalThreshold then Critical
    else if criticalCount > 0 || updateCount > 0 then Warning
    else Healthy
  }

  /** The dictionary `analyze_health` returns. `byDomain` maps each domain to
      its number of unavailable entities, highest first. */
  datatype Summary = Summary(
    severity: Severity,
    totalCount: nat,
    criticalCount: nat,
    byDomain: Tally,
    updateCount: nat,
    updateItems: seq<UpdateItem>)

  /** What `analyze_health` computes, as a function of the snapshot. */
  function Summarize(states: seq<Record>): Summary {
    var critical := CriticalIds(states);
    var updates := PendingUpdates(states);
    Summary(
      SeverityFor(|critical|, |updates|),
      |UnavailableIds(states)|,
      |critical|,
      SortDesc(TallyOf(UnavailableDomains(states))),
      |updates|,
      updates)
  }

  /** How each accumulated list grows by one record. */
  lemma PrefixStep(states: seq<Record>, i: nat)
    requires i < |states|
    ensures UnavailableIds(states[..i + 1]) ==
      UnavailableIds(states[..i]) + (if IsUnavailable(states[i]) then [EntityId(states[i])] else [])
    ensures CriticalIds(states[..i + 1]) ==
      CriticalIds(states[..i]) + (if IsCritical(states[i]) then [EntityId(states[i])] else [])
    ensures TallyOf(UnavailableDomains(states[..i + 1])) ==
      if IsUnavailable(states[i]) then Bump(TallyOf(UnavailableDomains(states[..i])), DomainOf(states[i]))
      else TallyOf(UnavailableDomains(states[..i]))
    ensures PendingUpdates(states[..i + 1]) ==
      PendingUpdates(states[..i]) + (if HasPendingUpdate(states[i]) then [UpdateItemOf(states[i])] else [])
  {
    CollectStep(states, i, IsUnavailable, EntityId);
    CollectStep(states, i, IsCritical, EntityId);
    CollectStep(states, i, HasPendingUpdate, UpdateItemOf);
    CollectStep(states, i, IsUnavailable, DomainOf);
    var seen := UnavailableDomains(states[..i]);
    if IsUnavailable(states[i]) {
      var d := DomainOf(states[i]);
      assert (seen + [d])[..|seen|] == seen;
      assert TallyOf(seen + [d]) == Bump(TallyOf(seen), d);
    } else {
      assert seen + [] == seen;
    }
  }

  /** `analyze_health`: one pass over the snapshot filling the unavailable,
      critical and update lists and the per-domain buckets, then the severity
      and the buckets ordered by size. */
  method AnalyzeHealth(states: seq<Record>) returns (h: Summary)
    ensures h == Summarize(states)
  {
    var unavailable: seq<string> := [];
    var criticalUnavailable: seq<string> := [];
    var byDomain: Tally := [];
    var updates: seq<UpdateItem> := [];
    for i := 0 to |states|
      invariant unavailable == UnavailableIds(states[..i])
      invariant criticalUnavailable == CriticalIds(states[..i])
      invariant byDomain == TallyOf(UnavailableDomains(states[..i]))
      invariant updates == PendingUpdates(states[..i])
    {
      PrefixStep(states, i);
      var state := states[i];
      var entityId := EntityId(state);
      var entityState := StateOf(state);
      var domain := Domain(entityId);

      if entityState == "unavailable" || entityState == "unknown" {
        unavailable := unavailable + [entityId];
        byDomain := Bump(byDomain, domain);
        if domain in ImportantDomains {
          criticalUnavailable := criticalUnavailable + [entityId];
        }
      }

      if domain == "update" {
        var latest := state.latestVersion;
        var installed := state.installedVersion;
        if entityState == "on" || (Truthy(latest) && Truthy(installed) && latest.value != installed.value) {
          updates := updates + [UpdateItem(entityId, installed, latest)];
        }
      }
    }
    assert states[..|states|] == states;

    var severity;
    if |criticalUnavailable| >= CriticalThreshold {
      severity := Critical;
    } else if criticalUnavailable != [] || updates != [] {
      severity := Warning;
    } else {
      severity := Healthy;
    }

    h := Summary(severity, |unavailable|, |criticalUnavailable|, SortDesc(byDomain), |updates|, updates);
  }

  // ---------------------------------------------------------------------
  // What the summary says about the snapshot.

  /** The summary's counts are numbers of records: `total_count` counts the
      records whose state is exactly "unavailable" or "unknown" (so a missing
      state never counts), `critical_count` those of them in an important
      domain, each domain's bucket those of them in that domain, and
      `updates.count` the records with a pending update, which are as many
      as the update items. */
  lemma SummaryCounts(states: seq<Record>)
    ensures Summarize(states).totalCount == CountWhere(states, IsUnavailable)
    ensures Summarize(states).criticalCount == CountWhere(states, IsCritical)
    ensures forall d :: (multiset(UnavailableDomains(states))[d] ==
      CountWhere(states, r => IsUnavailable(r) && DomainOf(r) == d))
    ensures Summarize(states).updateCount == CountWhere(states, HasPendingUpdate)
    ensures Summarize(states).updateCount == |Summarize(states).updateItems|
  {
    CollectCount(states, IsUnavailable, EntityId);
    CollectCount(states, IsCritical, EntityId);
    CollectCount(states, HasPendingUpdate, UpdateItemOf);
    forall d ensures multiset(UnavailableDomains(states))[d] ==
      CountWhere(states, r => IsUnavailable(r) && DomainOf(r) == d)
    {
      CollectOccurrences(states, IsUnavailable, DomainOf, d, r => IsUnavailable(r) && DomainOf(r) == d);
    }
  }

  /** Classifying a snapshot is classifying its records one by one, in
      order: each list of a concatenation is the concatenation of the lists. */
  lemma AccumulateAppend(a: seq<Record>, b: seq<Record>)
    ensures UnavailableIds(a + b) == UnavailableIds(a) + UnavailableIds(b)
    ensures CriticalIds(a + b) == CriticalIds(a) + CriticalIds(b)
    ensures UnavailableDomains(a + b) == UnavailableDomains(a) + UnavailableDomains(b)
    ensures PendingUpdates(a + b) == PendingUpdates(a) + PendingUpdates(b)
  {
    CollectAppend(a, b, IsUnavailable, EntityId);
    CollectAppend(a, b, IsCritical, EntityId);
    CollectAppend(a, b, IsUnavailable, DomainOf);
    CollectAppend(a, b, HasPendingUpdate, UpdateItemOf);
  }

  /** What one record contributes to the summary. */
  lemma SummaryOfOne(r: Record)
    ensures Summarize([r]).totalCount == if IsUnavailable(r) then 1 else 0
    ensures Summarize([r]).criticalCount == if IsCritical(r) then 1 else 0
    ensures Summarize([r]).updateItems == if HasPendingUpdate(r) then [UpdateItemOf(r)] else []
    ensures r.state.None? ==> Summarize([r]).totalCount == 0
  {
    CollectStep([r], 0, IsUnavailable, EntityId);
    CollectStep([r], 0, IsCritical, EntityId);
    CollectStep([r], 0, HasPendingUpdate, UpdateItemOf);
    assert [r][..1] == [r];
  }

  lemma CriticalAmongUnavailable(states: seq<Record>)
    ensures |CriticalIds(states)| <= |UnavailableIds(states)| == |UnavailableDomains(states)|
  {
    CollectStricter(states, IsUnavailable, EntityId, IsCritical, EntityId);
    CollectCount(states, IsUnavailable, EntityId);
    CollectCount(states, IsUnavailable, DomainOf);
  }

  /** `critical_count <= total_count`. */
  lemma CriticalAtMostTotal(states: seq<Record>)
    ensures Summarize(states).criticalCount <= Summarize(states).totalCount
  {
    CriticalAmongUnavailable(states);
  }

  /** The buckets of `by_domain` add up to `total_count`. */
  lemma ByDomainSumsToTotal(states: seq<Record>)
    ensures Sum(Summarize(states).byDomain) == Summarize(states).totalCount
  {
    var domains := UnavailableDomains(states);
    SortDescSorted(TallyOf(domains));
    SumTallyOf(domains);
    CriticalAmongUnavailable(states);
  }

  /** Each entry of `by_domain` counts the unavailable entities of its
      domain, so no entry is zero, and no domain appears twice. */
  lemma ByDomainCounts(states: seq<Record>)
    ensures DistinctKeys(Summarize(states).byDomain)
    ensures forall i :: 0 <= i < |Summarize(states).byDomain| ==>
      var (d, n) := Summarize(states).byDomain[i];
      n >= 1 && n == multiset(UnavailableDomains(states))[d]
  {
    var domains := UnavailableDomains(states);
    var t := TallyOf(domains);
    var bd := Summarize(states).byDomain;
    TallyOfShape(domains);
    TallyOfCounts(domains);
    SortDescSorted(t);
    SortDescKeepsKeysDistinct(t);
    forall i | 0 <= i < |bd| ensures bd[i].1 >= 1 && bd[i].1 == multiset(domains)[bd[i].0] {
      assert bd[i] in multiset(t);
      var j :| 0 <= j < |t| && t[j] == bd[i];
    }
  }

  /** `by_domain` has an entry for exactly the domains with an unavailable
      entity. */
  lemma ByDomainKeys(states: seq<Record>)
    ensures forall d :: d in Keys(Summarize(states).byDomain) <==> d in UnavailableDomains(states)
  {
    var domains := UnavailableDomains(states);
    var t := TallyOf(domains);
    var bd := Summarize(states).byDomain;
    TallyOfShape(domains);
    SortDescSorted(t);
    forall d ensures d in Keys(bd) <==> d in domains {
      if d in Keys(bd) {
        var i :| 0 <= i < |bd| && Keys(bd)[i] == d;
        assert bd[i] in multiset(t);
        var j :| 0 <= j < |t| && t[j] == bd[i];
        assert Keys(t)[j] == d;
      }
      if d in domains {
        assert d in Keys(t);
        var j :| 0 <= j < |t| && Keys(t)[j] == d;
        assert t[j] in multiset(bd);
        var i :| 0 <= i < |bd| && bd[i] == t[j];
        assert Keys(bd)[i] == d;
      }
    }
  }

  /** `by_domain` is ordered by count, highest first, and domains with equal
      counts keep the order in which their first unavailable entity appears
      in the snapshot. */
  lemma ByDomainOrder(states: seq<Record>)
    ensures SortedDesc(Summarize(states).byDomain)
    ensures Keys(TallyOf(UnavailableDomains(states))) == Dedup(UnavailableDomains(states))
    ensures forall c :: (WithCount(Summarize(states).byDomain, c) ==
      WithCount(TallyOf(UnavailableDomains(states)), c))
  {
    var domains := UnavailableDomains(states);
    SortDescSorted(TallyOf(domains));
    SortDescStable(TallyOf(domains));
    TallyOfCounts(domains);
  }

  function Rank(s: Severity): nat {
    match s
    case Healthy => 0
    case Warning => 1
    case Critical => 2
  }

  /** More records never lower the severity. */
  lemma SeverityMonotone(a: seq<Record>, b: seq<Record>)
    ensures Rank(Summarize(a + b).severity) >= Rank(Summarize(a).severity)
  {
    AccumulateAppend(a, b);
  }

  /** An unavailable entity outside the important domains, with no pending
      update, adds to `total_count` and leaves the severity as it was. */
  lemma SeverityIgnoresOtherDomains(states: seq<Record>, r: Record)
    requires IsUnavailable(r) && DomainOf(r) !in ImportantDomains && !HasPendingUpdate(r)
    ensures Summarize(states + [r]).severity == Summarize(states).severity
    ensures Summarize(states + [r]).totalCount == Summarize(states).totalCount + 1
  {
    AccumulateAppend(states, [r]);
    SummaryOfOne(r);
  }

  /** An id "<d>.<rest>" whose `d` has no `.` is in domain `d`, whatever
      `rest` holds (further dots included). */
  lemma DomainOfDottedId(d: string, rest: string)
    requires '.' !in d
    ensures Domain(d + "." + rest) == d
  {
    var id := d + "." + rest;
    assert id[|d|] == '.';
    var r := BeforeFirst(id, '.');
    assert r == id[..|d|] == d;
  }

  /** "light.kitchen" is a light. */
  lemma DomainOfLightKitchen()
    ensures Domain("light.kitchen") == "light"
  {
    assert "light.kitchen" == "light" + "." + "kitchen";
    DomainOfDottedId("light", "kitchen");
  }

  /** Only the first `.` separates the domain: "sensor.a.b" is a sensor. */
  lemma DomainOfTwoDots()
    ensures Domain("sensor.a.b") == "sensor"
  {
    assert "sensor.a.b" == "sensor" + "." + "a.b";
    DomainOfDottedId("sensor", "a.b");
  }

  /** An id without a `.`, the empty id included, is in domain "unknown". */
  lemma DomainOfUndotted()
    ensures Domain("nodomain") == "unknown"
    ensures Domain("") == "unknown"
  {
  }

  // ---------------------------------------------------------------------
  // build_report

  /** The dictionary `build_report` reads, with Python's defaults for missing
      keys: `health.get("severity")` may be absent (None), a missing
      `critical_count` means 0 and a missing `by_domain` means {}. */
  datatype HealthDict = HealthDict(
    severity: Option<string>,
    criticalCount: Option<int>,
    byDomain: seq<(string, int)>)

  /** The dictionary `analyze_health` hands to `build_report`. */
  function ToDict(s: Summary): HealthDict {
    HealthDict(Some(s.severity.Name()), Some(s.criticalCount), s.byDomain)
  }

  datatype Report = Report(headline: string, description: string, startHere: seq<string>, details: string)

  const HealthyHeadline: string := "No critical issues detected"
  const HealthyDescription: string := "All core devices appear to be operating normally."
  const HeadlineSuffix: string := " critical devices unavailable"
  const IssueDescription: string :=
    "Core device domains (lights, climate, locks, media) are unavailable. " +
    "This usually indicates an integration outage, coordinator issue, or network/device power problem."
  /** The three first steps; the first keeps the source's mis-encoded arrow
      (U+00E2 U+2020 U+2019, a UTF-8 "→" read as Windows-1252). */
  const StartHere: seq<string> := [
    "Check whether the affected integration(s) show errors in Settings \U{e2}\U{2020}\U{2019} Devices & services.",
    "If the affected devices are Zigbee/Z-Wave, verify the coordinator is online and not rebooting.",
    "If this started after an update or restart, review what changed recently before rebooting repeatedly."
  ]
  const DetailsPrefix: string := "Most affected domains: "

  /** `f"{domain} ({count})"`. */
  function FormatEntry(e: (string, int)): string {
    e.0 + " (" + IntToString(e.1) + ")"
  }

  function FormatAll(es: seq<(string, int)>): (r: seq<string>)
    ensures |r| == |es| && forall i :: 0 <= i < |es| ==> r[i] == FormatEntry(es[i])
  {
    if es == [] then [] else [FormatEntry(es[0])] + FormatAll(es[1..])
  }

  /** The entries of `by_domain` whose domain is important, in order. */
  function ImportantEntries(bd: seq<(string, int)>): seq<(string, int)> {
    if bd == [] then []
    else (if bd[0].0 in ImportantDomains then [bd[0]] else []) + ImportantEntries(bd[1..])
  }

  /** The `impacted` list: the important entries, or else the first entry. */
  function Impacted(bd: seq<(string, int)>): seq<string> {
    var listed := FormatAll(ImportantEntries(bd));
    if listed == [] && bd != [] then [FormatEntry(bd[0])] else listed
  }

  /** The `details` string. */
  function Details(bd: seq<(string, int)>): string {
    var impacted := Impacted(bd);
    if impacted != [] then DetailsPrefix + Join(", ", impacted) else ""
  }

  /** `build_report`: a fixed reassuring report when the severity is
      "healthy", and for any other severity (or none) the critical-count
      headline, the fixed description and three steps, and the details. */
  function BuildReport(h: HealthDict): (r: Report)
    ensures r.startHere == [] <==> h.severity == Some("healthy")
    ensures h.severity == Some("healthy") ==>
      r.headline == HealthyHeadline && r.description == HealthyDescription && r.details == ""
    ensures h.severity != Some("healthy") ==>
      |r.startHere| == 3 && r.startHere == StartHere && r.description == IssueDescription
    ensures r.details == "" <==> h.severity == Some("healthy") || h.byDomain == []
    ensures r.details != "" ==> DetailsPrefix <= r.details
    ensures h.severity != Some("healthy") ==> r.details == Details(h.byDomain)
  {
    if h.severity == Some("healthy") then
      Report(HealthyHeadline, HealthyDescription, [], "")
    else
      var critCount := h.criticalCount.GetOr(0);
      Report(IntToString(critCount) + HeadlineSuffix, IssueDescription, StartHere, Details(h.byDomain))
  }

  /** Outside the healthy case the headline is the critical count, in
      decimal, then " critical devices unavailable"; the count can be read
      back from it. */
  lemma HeadlineCarriesCriticalCount(h: HealthDict)
    requires h.severity != Some("healthy")
    ensures var r := BuildReport(h);
      var n := |r.headline| - |HeadlineSuffix|;
      n >= 1 && r.headline[n..] == HeadlineSuffix &&
      ParseInt(r.headline[..n]) == Some(h.criticalCount.GetOr(0))
  {
    var c := h.criticalCount.GetOr(0);
    var digits := IntToString(c);
    var r := BuildReport(h);
    assert r.headline == digits + HeadlineSuffix;
    assert r.headline[..|digits|] == digits;
    assert r.headline[|digits|..] == HeadlineSuffix;
    IntToStringRoundTrip(c);
  }

  /** The important entries are exactly the entries with an important
      domain... */
  lemma {:induction false} ImportantEntriesMembers(bd: seq<(string, int)>)
    ensures forall e :: e in ImportantEntries(bd) <==> e in bd && e.0 in ImportantDomains
  {
    if bd != [] {
      ImportantEntriesMembers(bd[1..]);
      assert bd == [bd[0]] + bd[1..];
    }
  }

  /** ...kept in `by_domain` order: filtering a concatenation filters each
      part. */
  lemma {:induction false} ImportantEntriesAppend(a: seq<(string, int)>, b: seq<(string, int)>)
    ensures ImportantEntries(a + b) == ImportantEntries(a) + ImportantEntries(b)
  {
    if a != [] {
      assert (a + b)[1..] == a[1..] + b;
      ImportantEntriesAppend(a[1..], b);
    } else {
      assert a + b == b;
    }
  }

  /** When `by_domain` names an important domain, the details list the
      important entries and nothing else (no limit on their number). */
  lemma DetailsListImportant(bd: seq<(string, int)>)
    requires exists i :: 0 <= i < |bd| && bd[i].0 in ImportantDomains
    ensures Details(bd) == DetailsPrefix + Join(", ", FormatAll(ImportantEntries(bd)))
    ensures |Impacted(bd)| == |ImportantEntries(bd)|
  {
    var i :| 0 <= i < |bd| && bd[i].0 in ImportantDomains;
    ImportantEntriesMembers(bd);
    assert bd[i] in ImportantEntries(bd);
  }

  /** Without an important domain, nothing passes the filter. */
  lemma {:induction false} ImportantEntriesNone(bd: seq<(string, int)>)
    requires forall i :: 0 <= i < |bd| ==> bd[i].0 !in ImportantDomains
    ensures ImportantEntries(bd) == []
  {
    if bd != [] {
      assert forall i :: 0 <= i < |bd| - 1 ==> bd[1..][i] == bd[i + 1];
      ImportantEntriesNone(bd[1..]);
    }
  }

  /** When no important domain is in `by_domain`, the details name its first
      (highest-count) entry alone. */
  lemma DetailsFallBackToTop(bd: seq<(string, int)>)
    requires bd != []
    requires forall i :: 0 <= i < |bd| ==> bd[i].0 !in ImportantDomains
    ensures Details(bd) == DetailsPrefix + FormatEntry(bd[0])
  {
    ImportantEntriesNone(bd);
    assert FormatAll([]) == [];
    assert Impacted(bd) == [FormatEntry(bd[0])];
  }

  // ---------------------------------------------------------------------
  // The two together, as the dashboard and the JSON endpoint call them.

  lemma ByDomainEmptyIff(states: seq<Record>)
    ensures Summarize(states).byDomain == [] <==> Summarize(states).totalCount == 0
  {
    var domains := UnavailableDomains(states);
    CriticalAmongUnavailable(states);
    SortDescSorted(TallyOf(domains));
    TallyOfShape(domains);
    if domains != [] {
      assert domains[0] in Keys(TallyOf(domains));
    }
  }

  /** The report of a snapshot has first steps exactly when something
      important is unavailable or an update is pending; its headline is the
      critical count whenever it is not healthy; its details are empty
      exactly when it is healthy or nothing is unavailable. */
  lemma ReportOfSnapshot(states: seq<Record>)
    ensures var s := Summarize(states); var r := BuildReport(ToDict(s));
      (r.startHere == [] <==> s.criticalCount == 0 && s.updateCount == 0) &&
      (s.severity != Healthy ==> r.headline == IntToString(s.criticalCount) + HeadlineSuffix) &&
      (r.details == "" <==> s.severity == Healthy || s.totalCount == 0)
  {
    var s := Summarize(states);
    assert s.severity.Name() == "healthy" <==> s.severity == Healthy;
    ByDomainEmptyIff(states);
  }

  /** With at least one important entity unavailable, the details list the
      important domains of `by_domain`, never the fallback. */
  lemma CriticalSnapshotDetails(states: seq<Record>)
    requires Summarize(states).criticalCount >= 1
    ensures var s := Summarize(states);
      ImportantEntries(s.byDomain) != [] &&
      BuildReport(ToDict(s)).details == DetailsPrefix + Join(", ", FormatAll(ImportantEntries(s.byDomain)))
  {
    var s := Summarize(states);
    var k := CollectWitness(states, IsCritical, EntityId);
    var d := DomainOf(states[k]);
    CollectContains(states, IsUnavailable, DomainOf, k);
    ByDomainKeys(states);
    var i :| 0 <= i < |s.byDomain| && Keys(s.byDomain)[i] == d;
    assert s.severity != Healthy;
    DetailsListImportant(s.byDomain);
  }

  /** As written, a snapshot whose only issue is pending updates gets the
      unavailable-devices report with a count of zero: there is no
      update-specific headline. */
  lemma UpdatesOnlyReport(states: seq<Record>)
    requires Summarize(states).criticalCount == 0 && Summarize(states).updateCount >= 1
    ensures var r := BuildReport(ToDict(Summarize(states)));
      r.headline == "0" + HeadlineSuffix && r.startHere == StartHere
  {
    assert DigitChar(0) == '0';
  }

  // ---------------------------------------------------------------------
  // Scenarios.

  /** For any `update.<name>` entity, the update rule is the one of the
      source: pending when "on", or when both versions are non-empty and
      differ. */
  lemma UpdateRuleOfUpdateEntity(name: string, state: Option<string>, latest: Option<string>, installed: Option<string>)
    ensures var r := Record(Some("update." + name), state, latest, installed);
      HasPendingUpdate(r) <==>
        state.GetOr("") == "on" ||
        (latest.Some? && installed.Some? && latest.value != "" && installed.value != "" &&
         latest.value != installed.value)
  {
    assert "update." + name == "update" + "." + name;
    DomainOfDottedId("update", name);
  }

  /** The update rule on `update.foo` with state "off": equal versions are
      not pending, a newer latest version is, an empty installed version is
      not. */
  lemma UpdateDetectionWhenOff()
    ensures !HasPendingUpdate(Record(Some("update.foo"), Some("off"), Some("1.0"), Some("1.0")))
    ensures HasPendingUpdate(Record(Some("update.foo"), Some("off"), Some("1.1"), Some("1.0")))
    ensures !HasPendingUpdate(Record(Some("update.foo"), Some("off"), Some("1.1"), Some("")))
  {
    var off, on := "off", "on";
    assert off != on by { assert off[1] != on[1]; }
    var older, newer := "1.0", "1.1";
    assert newer != older by { assert newer[2] != older[2]; }
    assert "update.foo" == "update." + "foo";
    UpdateRuleOfUpdateEntity("foo", Some(off), Some(older), Some(older));
    UpdateRuleOfUpdateEntity("foo", Some(off), Some(newer), Some(older));
    UpdateRuleOfUpdateEntity("foo", Some(off), Some(newer), Some(""));
  }

  /** `update.foo` in state "on" is pending, with no version given. */
  lemma UpdateDetectionWhenOn()
    ensures HasPendingUpdate(Record(Some("update.foo"), Some("on"), None, None))
  {
    assert "update.foo" == "update." + "foo";
    UpdateRuleOfUpdateEntity("foo", Some("on"), None, None);
  }

  /** An unavailable update entity with a newer version is counted both as
      unavailable and as a pending update. */
  lemma UnavailableUpdateCountedTwice(r: Record)
    requires DomainOf(r) == "update" && IsUnavailable(r)
    requires Truthy(r.latestVersion) && Truthy(r.installedVersion)
    requires r.latestVersion.value != r.installedVersion.value
    ensures var s := Summarize([r]);
      s.totalCount == 1 && s.criticalCount == 0 && s.updateCount == 1 && s.severity == Warning
  {
    SummaryOfOne(r);
  }

  lemma AllCriticalNoUpdates(states: seq<Record>)
    requires forall i :: 0 <= i < |states| ==> IsCritical(states[i]) && !HasPendingUpdate(states[i])
    ensures |CriticalIds(states)| == |UnavailableIds(states)| == |states|
    ensures PendingUpdates(states) == []
  {
    CollectAll(states, IsCritical, EntityId);
    CollectAll(states, IsUnavailable, EntityId);
    CollectNone(states, HasPendingUpdate, UpdateItemOf);
  }

  /** A snapshot of unavailable `light.*` entities, one per name. */
  function UnavailableLights(names: seq<string>): seq<Record> {
    seq(|names|, i requires 0 <= i < |names| => Record(Some("light." + names[i]), Some("unavailable"), None, None))
  }

  /** Five or more unavailable lights and nothing else: critical, with the
      number of lights in the headline and the three first steps. */
  lemma UnavailableLightsReport(names: seq<string>)
    requires |names| >= CriticalThreshold
    ensures var s := Summarize(UnavailableLights(names));
      s.severity == Critical && s.criticalCount == s.totalCount == |names| && s.updateCount == 0
    ensures var r := BuildReport(ToDict(Summarize(UnavailableLights(names))));
      r.headline == IntToString(|names|) + HeadlineSuffix && |r.startHere| == 3
  {
    var states := UnavailableLights(names);
    forall i | 0 <= i < |states| ensures IsCritical(states[i]) && !HasPendingUpdate(states[i]) {
      assert "light." + names[i] == "light" + "." + names[i];
      DomainOfDottedId("light", names[i]);
    }
    AllCriticalNoUpdates(states);
  }

  lemma SixUnavailableLights(names: seq<string>)
    requires |names| == 6
    ensures var r := BuildReport(ToDict(Summarize(UnavailableLights(names))));
      r.headline == "6" + HeadlineSuffix && |r.startHere| == 3
  {
    UnavailableLightsReport(names);
    assert DigitChar(6) == '6';
  }

  /** An empty snapshot is healthy, and its report has no steps and no
      details. */
  lemma EmptySnapshotReport()
    ensures Summarize([]).severity == Healthy
    ensures BuildReport(ToDict(Summarize([]))) == Report(HealthyHeadline, HealthyDescription, [], "")
  {
  }
}
