# homeops health engine, in Dafny

A model of the decision logic of the homeops Home Assistant add-on, with
proofs about it.

- `analyze_health` takes the entity-state snapshot of `/api/states` and classifies it into a summary:
  - unavailable entities, overall and in the important domains;
  - unavailable entities per domain, ordered by count;
  - pending updates;
  - a severity of critical, warning or healthy.
- `build_report` turns that summary into the dashboard's report: headline, description, first steps and details.
- From `homeops/server.py` the model covers two things:
  - `_safe_domain_counts`, the per-domain entity counts of `/api/doctor`: the twelve largest domains;
  - the join of the Core API base URL and a request path.

Modules:

- `Wrappers`: `Option`, standing for a dictionary lookup that may find nothing.
- `Text`: Python string operations.
  - `split(c)[0]` is `BeforeFirst`.
  - `lstrip` and `rstrip` of one character are `LStrip` and `RStrip`.
  - `f"{n}"` is `IntToString`, with its inverse `ParseInt`.
  - `sep.join` is `Join`.
- `DomainCounts`: an insertion-ordered Python dict of counts as a `Tally`.
  - A `Tally` is a sequence of (key, count) pairs with distinct keys.
  - `Bump` is `d[k] = d.get(k, 0) + 1`.
  - `TallyOf` runs `Bump` over a list of keys.
  - `SortDesc` is Python's stable `sorted(..., key=count, reverse=True)`.
  - `Take` is the slice `[:n]`.
- `Entities`: the entity-state record.
  - `entity_id`, `state` and the two version attributes are each optional.
  - `CountWhere` counts the records that satisfy a predicate. It is the independent yardstick for the summary's counts.
  - `Collect(states, p, f)` is the list a loop builds by appending `f(r)` for each record `r` satisfying `p`. The unavailable, critical and update lists of `analyze_health`, the domains behind its buckets, and the domains `_safe_domain_counts` counts are all of this form.
- `Analyzer`: `analyze_health` and `build_report`.
  - `analyze_health` is a loop method proved equal to the function `Summarize`. The lemmas about the summary are proved against `Summarize`.
  - `build_report` is a function.
  - The constant `ImportantDomains` is `IMPORTANT_DOMAINS` (`homeops/app/health/analyzer.py:20-28`). `CriticalThreshold` is the 5 of `homeops/app/health/analyzer.py:107`.
- `Server`:
  - `_safe_domain_counts` is a loop method proved equal to `TopDomainCounts`;
  - the URL join is the function `CoreApiUrl`.
  - The constant `MaxDomains` is the 12 of `homeops/server.py:55`.

What the code does, stated plainly:

- `build_report` has two branches: severity "healthy", and everything else.
  - Any other severity, a missing one included, gives the headline "<critical_count> critical devices unavailable", the fixed description and the three fixed steps.
  - The headline always carries the critical count, even when the only issue is pending updates. A snapshot with no critical entity and two pending updates is reported as "0 critical devices unavailable" (`Analyzer.UpdatesOnlyReport`).
  - The report has no `severity` key.
- `details` lists every important domain of `by_domain`. The comment at `homeops/app/health/analyzer.py:170` speaks of the top three, but the list is not cut.
- An entity id without a `.` is in the domain "unknown" in `analyze_health`. In `_safe_domain_counts` it is not counted at all.

## Model

| member | source | states |
|---|---|---|
| Entities.EntityId | homeops/app/health/analyzer.py:78 | `state.get("entity_id", "")`: the id, or "" when absent (computes; no contract) |
| Entities.StateOf | homeops/app/health/analyzer.py:79 | `state.get("state") or ""`: the state, or "" when absent or None (computes; no contract; `SummaryOfOne` shows a missing state never counts) |
| Entities.Collect | homeops/app/health/analyzer.py:77-104 | the list a loop builds by appending `f(r)` for each record satisfying `p` (computes; its properties are the `Collect*` lemmas) |
| Entities.CountWhereStep | homeops/app/health/analyzer.py:77 | the number of records meeting a rule grows by one exactly when the next record meets it |
| Entities.CountWhereAtMost | homeops/server.py:50 | no rule holds of more records than the snapshot has |
| Entities.CollectStep | homeops/app/health/analyzer.py:77-104 | one more turn of the loop appends the record's element exactly when the record qualifies |
| Entities.CollectAppend | homeops/app/health/analyzer.py:77-104 | a list accumulated over a concatenated snapshot is the concatenation of the parts' lists |
| Entities.CollectCount | homeops/app/health/analyzer.py:86-104 | an accumulated list has one element per qualifying record |
| Entities.CollectOccurrences | homeops/app/health/analyzer.py:88 | a value occurs in an accumulated list once per qualifying record that gives it (a domain once per unavailable record of that domain) |
| Entities.CollectContains | homeops/app/health/analyzer.py:86-88 | every qualifying record's element is in the list |
| Entities.CollectWitness | homeops/app/health/analyzer.py:89-90 | a non-empty list was accumulated from a qualifying record |
| Entities.CollectStricter | homeops/app/health/analyzer.py:86-90 | a stricter rule accumulates no more elements (critical entities are among the unavailable ones) |
| Entities.CollectAll | homeops/server.py:50-54 | when every record qualifies, the list has one element per record |
| Entities.CollectNone | homeops/app/health/analyzer.py:93-104 | when no record qualifies, the list is empty |
| Analyzer.Domain | homeops/app/health/analyzer.py:83 | an id with a `.` has as domain the `.`-free text that, followed by `.`, starts the id; an id without one is in "unknown" |
| Analyzer.DomainOfDottedId | homeops/app/health/analyzer.py:83 | "<d>.<rest>" with `.`-free `d` is in domain `d` whatever `rest` holds |
| Analyzer.DomainOfLightKitchen | homeops/app/health/analyzer.py:83 | "light.kitchen" is in domain "light" |
| Analyzer.DomainOfTwoDots | homeops/app/health/analyzer.py:83 | "sensor.a.b" is in domain "sensor": only the first `.` separates |
| Analyzer.DomainOfUndotted | homeops/app/health/analyzer.py:83 | "nodomain" and "" are in "unknown" |
| Analyzer.DomainOf | homeops/app/health/analyzer.py:78-83 | the domain of a record's id, "" when absent (computes; its properties are `Domain`'s contract) |
| Analyzer.IsUnavailable | homeops/app/health/analyzer.py:86 | state exactly "unavailable" or "unknown" (a predicate; counted by `SummaryCounts`) |
| Analyzer.IsCritical | homeops/app/health/analyzer.py:86-90 | unavailable and in an important domain (a predicate; counted by `SummaryCounts`) |
| Analyzer.Truthy | homeops/app/health/analyzer.py:97 | a version attribute is truthy when given and non-empty (a predicate; see `UpdateDetectionWhenOff`) |
| Analyzer.HasPendingUpdate | homeops/app/health/analyzer.py:93-97 | domain "update" and state "on" or both versions non-empty and different (a predicate; see `UpdateRuleOfUpdateEntity`) |
| Analyzer.UpdateItemOf | homeops/app/health/analyzer.py:98-104 | the `{entity_id, installed, latest}` item of a record (computes; no contract) |
| Analyzer.UnavailableIds | homeops/app/health/analyzer.py:72-87 | the `unavailable` list, in snapshot order (computes; see `SummaryCounts`, `AccumulateAppend`, `SummaryOfOne`) |
| Analyzer.CriticalIds | homeops/app/health/analyzer.py:73-90 | the `critical_unavailable` list, in snapshot order (computes; see `SummaryCounts`, `CriticalAmongUnavailable`) |
| Analyzer.UnavailableDomains | homeops/app/health/analyzer.py:74-88 | the domain of each entry appended to `by_domain`, in snapshot order (computes; see `ByDomainCounts`, `ByDomainOrder`) |
| Analyzer.PendingUpdates | homeops/app/health/analyzer.py:75-104 | the `updates` list, in snapshot order (computes; see `SummaryCounts`, `UpdateRuleOfUpdateEntity`) |
| Analyzer.Severity.Name | homeops/app/health/analyzer.py:107-112 | the strings "critical", "warning" and "healthy" (computes; see `EmptySnapshotReport`, `ReportOfSnapshot`) |
| Analyzer.SeverityFor | homeops/app/health/analyzer.py:106-112 | critical iff critical count >= 5; warning iff below 5 and something critical or an update; healthy iff neither |
| Analyzer.Summarize | homeops/app/health/analyzer.py:72-131 | the summary as a function of the snapshot (computes; `AnalyzeHealth` is proved equal to it, and the `ByDomain*`, `SummaryCounts` and `Severity*` lemmas state its properties) |
| Analyzer.PrefixStep | homeops/app/health/analyzer.py:77-104 | one more record extends the unavailable, critical and update lists and bumps the domain bucket exactly when it qualifies |
| Analyzer.AnalyzeHealth | homeops/app/health/analyzer.py:31-131 | the loop's result is the summary `Summarize` of the snapshot |
| Analyzer.SummaryCounts | homeops/app/health/analyzer.py:120-131 | total_count, critical_count, each bucket and updates.count are the numbers of records meeting their rule; updates.count equals the number of items |
| Analyzer.AccumulateAppend | homeops/app/health/analyzer.py:77-104 | the four lists of a concatenated snapshot are the concatenations of the lists of its parts |
| Analyzer.SummaryOfOne | homeops/app/health/analyzer.py:77-104 | a single record adds 1 to total/critical exactly when it is unavailable/critical and one update item exactly when it has a pending update; a missing state counts for nothing |
| Analyzer.CriticalAmongUnavailable | homeops/app/health/analyzer.py:86-90 | the critical list is no longer than the unavailable list, which is as long as the list of their domains |
| Analyzer.CriticalAtMostTotal | homeops/app/health/analyzer.py:123-124 | critical_count <= total_count |
| Analyzer.ByDomainSumsToTotal | homeops/app/health/analyzer.py:114-125 | the counts of by_domain add up to total_count |
| Analyzer.ByDomainCounts | homeops/app/health/analyzer.py:114-118 | by_domain has distinct domains, and each count is at least 1 and equals the number of unavailable records of that domain |
| Analyzer.ByDomainKeys | homeops/app/health/analyzer.py:114-118 | a domain is in by_domain iff some unavailable record has it |
| Analyzer.ByDomainOrder | homeops/app/health/analyzer.py:114-118 | by_domain is sorted by count, highest first; equal counts keep the order of the buckets' first appearance |
| Analyzer.ByDomainEmptyIff | homeops/app/health/analyzer.py:114-125 | by_domain is empty iff total_count is 0 |
| Analyzer.SeverityMonotone | homeops/app/health/analyzer.py:106-112 | adding records never lowers the severity |
| Analyzer.SeverityIgnoresOtherDomains | homeops/app/health/analyzer.py:86-112 | an unavailable record of a non-important domain with no update adds 1 to total_count and leaves the severity unchanged |
| Analyzer.UpdateRuleOfUpdateEntity | homeops/app/health/analyzer.py:93-97 | an `update.<name>` entity is pending iff its state is "on" or both versions are non-empty and differ |
| Analyzer.UpdateDetectionWhenOff | homeops/app/health/analyzer.py:93-97 | update.foo "off" with equal versions is not pending; with 1.1 over 1.0 it is; with an empty installed version it is not |
| Analyzer.UpdateDetectionWhenOn | homeops/app/health/analyzer.py:93-97 | update.foo "on" is pending with no versions given |
| Analyzer.UnavailableUpdateCountedTwice | homeops/app/health/analyzer.py:86-104 | an unavailable update entity with differing versions counts as unavailable and as an update, not as critical, and gives a warning |
| Analyzer.AllCriticalNoUpdates | homeops/app/health/analyzer.py:86-104 | if every record is critical without an update, the critical and unavailable lists have one entry per record and the update list is empty |
| Analyzer.UnavailableLightsReport | homeops/app/health/analyzer.py:31-190 | five or more unavailable lights: critical, counts equal to the number of lights, headline that number, three steps |
| Analyzer.SixUnavailableLights | homeops/app/health/analyzer.py:155-168 | six unavailable lights give the headline "6 critical devices unavailable" and three steps |
| Analyzer.EmptySnapshotReport | homeops/app/health/analyzer.py:106-152 | an empty snapshot is healthy and gets the fixed healthy report |
| Analyzer.FormatEntry | homeops/app/health/analyzer.py:174 | `f"{domain} ({count})"` (computes; no contract) |
| Analyzer.FormatAll | homeops/app/health/analyzer.py:173-177 | one `"<domain> (<count>)"` string per entry, in order |
| Analyzer.ImportantEntries | homeops/app/health/analyzer.py:173-177 | the by_domain entries with an important domain, in order (computes; see `ImportantEntriesMembers`, `ImportantEntriesAppend`, `ImportantEntriesNone`) |
| Analyzer.Impacted | homeops/app/health/analyzer.py:173-181 | the formatted important entries, or else the first entry alone (computes; see `DetailsListImportant`, `DetailsFallBackToTop`) |
| Analyzer.Details | homeops/app/health/analyzer.py:183 | "Most affected domains: " and the impacted list joined by ", ", or "" when it is empty (computes; see `BuildReport`, `DetailsListImportant`, `DetailsFallBackToTop`) |
| Analyzer.ToDict | homeops/app/__init__.py:51-52 | the summary dictionary `analyze_health` returns and `build_report` reads (computes; see `ReportOfSnapshot`) |
| Analyzer.BuildReport | homeops/app/health/analyzer.py:134-190 | steps are empty iff the severity is "healthy"; healthy gives the fixed headline and description and empty details; otherwise the fixed description and three steps; details are empty iff healthy or by_domain is empty, and otherwise start with "Most affected domains: "; outside healthy the details are `Details(by_domain)`, so the `Details*` lemmas apply to every report |
| Analyzer.HeadlineCarriesCriticalCount | homeops/app/health/analyzer.py:155-156 | outside healthy the headline is the decimal critical_count (0 when missing), which parses back, followed by " critical devices unavailable" |
| Analyzer.ImportantEntriesMembers | homeops/app/health/analyzer.py:173-177 | the impacted entries are exactly the by_domain entries with an important domain |
| Analyzer.ImportantEntriesAppend | homeops/app/health/analyzer.py:173-177 | the filter keeps by_domain order |
| Analyzer.DetailsListImportant | homeops/app/health/analyzer.py:170-183 | with an important domain present, details list all important entries joined by ", " and nothing else |
| Analyzer.ImportantEntriesNone | homeops/app/health/analyzer.py:173-179 | with no important domain in by_domain, the filtered list is empty |
| Analyzer.DetailsFallBackToTop | homeops/app/health/analyzer.py:178-183 | with no important domain, details name the first by_domain entry alone |
| Analyzer.ReportOfSnapshot | homeops/app/health/analyzer.py:134-190 | for the report of a snapshot: steps iff something critical or an update; headline is the critical count outside healthy; details empty iff healthy or nothing unavailable |
| Analyzer.CriticalSnapshotDetails | homeops/app/health/analyzer.py:170-183 | with a critical entity, the details list the important domains, never the fallback |
| Analyzer.UpdatesOnlyReport | homeops/app/health/analyzer.py:154-168 | with updates only, the headline is "0 critical devices unavailable" with the three steps |
| Text.BeforeFirst | homeops/app/health/analyzer.py:83 | the result is a `c`-free prefix of `s` that is all of `s` or is followed by `c` |
| Text.LStrip | homeops/server.py:38 | `s.lstrip(c)` (computes; see `LStripSpec`, `LStripRepeat`) |
| Text.RStrip | homeops/server.py:38 | `s.rstrip(c)` (computes; see `RStripSpec`, `RStripRepeat`) |
| Text.LStripSpec | homeops/server.py:38 | lstrip leaves a suffix not starting with `c` and drops only `c`s |
| Text.RStripSpec | homeops/server.py:38 | rstrip leaves a prefix not ending with `c` and drops only `c`s |
| Text.LStripRepeat | homeops/server.py:38 | leading copies of `c` do not change lstrip |
| Text.RStripRepeat | homeops/server.py:38 | trailing copies of `c` do not change rstrip |
| Text.NatToString | homeops/app/health/analyzer.py:156 | decimal digits, at least one, leading zero only for 0 |
| Text.NatToStringValue | homeops/app/health/analyzer.py:156 | the digits denote the number |
| Text.IntToString | homeops/app/health/analyzer.py:156 | `f"{n}"` for an integer (computes; see `IntToStringRoundTrip`) |
| Text.Join | homeops/app/health/analyzer.py:183 | `sep.join(items)` (computes; no contract) |
| Text.IntToStringRoundTrip | homeops/app/health/analyzer.py:156 | parsing the formatted integer gives it back |
| Text.IntToStringInjective | homeops/app/health/analyzer.py:156 | distinct integers format differently |
| DomainCounts.Dedup | homeops/app/health/analyzer.py:74 | the same members as the key list, with no repeats; the body keeps first occurrences in order, which `TallyOfCounts` ties to the dictionary's key order |
| DomainCounts.Bump | homeops/server.py:54 | `counts[k] = counts.get(k, 0) + 1`, and a bucket append at analyzer.py:88 counted by length (computes; see `BumpPresent`, `BumpAbsent`) |
| DomainCounts.TallyOf | homeops/app/health/analyzer.py:88 | the dictionary built by bumping each key in turn (computes; see `TallyOfCounts`, `TallyOfShape`, `SumTallyOf`) |
| DomainCounts.BumpPresent | homeops/server.py:54 | bumping a present key adds 1 to its count in place |
| DomainCounts.BumpAbsent | homeops/server.py:54 | bumping an absent key appends it with count 1 |
| DomainCounts.DistinctKeysIff | homeops/server.py:49-54 | a dictionary's keys are distinct read entry by entry iff its key list has no repeats |
| DomainCounts.CountsDistinctKeys | homeops/server.py:49-54 | a dictionary that counts a key list has distinct keys |
| DomainCounts.DedupAppend | homeops/server.py:54 | a repeated key adds no new first occurrence; a new key is the last first occurrence |
| DomainCounts.KeysAppend | homeops/server.py:54 | appending an entry appends its key |
| DomainCounts.BumpCountsPresent | homeops/server.py:54 | bumping a key seen before keeps the dictionary the count of the longer key list |
| DomainCounts.BumpCountsAbsent | homeops/server.py:54 | bumping a new key keeps the dictionary the count of the longer key list |
| DomainCounts.BumpAbsentCounts | homeops/server.py:54 | after appending a new key with count 1, every count is its number of occurrences |
| DomainCounts.TallyOfCounts | homeops/server.py:49-54 | the keys are the distinct keys in first-occurrence order and each count is the number of occurrences |
| DomainCounts.TallyOfShape | homeops/server.py:49-54 | distinct keys, every count at least 1, exactly the keys seen |
| DomainCounts.SumBump | homeops/server.py:54 | a bump adds 1 to the total |
| DomainCounts.SumTallyOf | homeops/server.py:49-54 | the counts add up to the number of keys seen |
| DomainCounts.SumAppend | homeops/server.py:55 | the total of a concatenation is the sum of the totals |
| DomainCounts.SumPrefix | homeops/server.py:55 | cutting the tally short never raises its total |
| DomainCounts.WithCountAppend | homeops/server.py:55 | selecting one count distributes over concatenation |
| DomainCounts.WithCountNone | homeops/server.py:55 | selecting a count no entry has gives nothing |
| DomainCounts.InsertDesc | homeops/app/health/analyzer.py:117 | places an entry after every entry whose count is at least its own (computes; see the `InsertDesc*` lemmas) |
| DomainCounts.SortDesc | homeops/server.py:55 | stable `sorted(items, key=count, reverse=True)`, also at analyzer.py:117 (computes; see `SortDescSorted`, `SortDescStable`) |
| DomainCounts.InsertDescPermutes | homeops/server.py:55 | an insertion adds exactly the one entry |
| DomainCounts.InsertDescSorted | homeops/server.py:55 | an insertion into a descending sequence keeps it descending |
| DomainCounts.InsertDescWithCount | homeops/server.py:55 | an insertion puts the entry after all entries of its count |
| DomainCounts.SortDescSorted | homeops/server.py:55 | the sort is descending and a permutation, with the same length and total |
| DomainCounts.SortDescStable | homeops/server.py:55 | the sort is stable: for each count the entries with it keep their order |
| DomainCounts.SortDescKeepsKeysDistinct | homeops/server.py:55 | sorting keeps the keys distinct |
| DomainCounts.InsertDescDistinct | homeops/server.py:55 | inserting a new key keeps the keys distinct |
| DomainCounts.InsertDescMembers | homeops/server.py:55 | an insertion holds the old entries and the new one |
| DomainCounts.WithCountPrefix | homeops/server.py:55 | a prefix keeps, for each count, a prefix of the entries with it |
| DomainCounts.Take | homeops/server.py:55 | `[:n]` is the prefix of length min(n, length) |
| Server.HasDomain | homeops/server.py:52 | `"." in eid` (a predicate; see `TopDomainCountsCounts`) |
| Server.DomainOf | homeops/server.py:53 | `eid.split(".", 1)[0]` (computes; its properties are `BeforeFirst`'s contract) |
| Server.DottedDomains | homeops/server.py:50-54 | the domain of each record counted, in snapshot order (computes; see `PrefixStep`, `TopDomainCountsCounts`, `TopDomainCountsSum`) |
| Server.TopDomainCounts | homeops/server.py:48-55 | what `_safe_domain_counts` returns (computes; `SafeDomainCounts` is proved equal to it, and the `TopDomainCounts*` and `TruncationDropsLowest` lemmas state its properties) |
| Server.PrefixStep | homeops/server.py:50-54 | one more record bumps its domain's count exactly when its id has a `.` |
| Server.SafeDomainCounts | homeops/server.py:48-55 | the loop and sort give `TopDomainCounts` of the snapshot |
| Server.TopDomainCountsCounts | homeops/server.py:48-55 | distinct domains, each count at least 1 and equal to the number of records of that domain |
| Server.TopDomainCountsOrder | homeops/server.py:55 | exactly min(12, number of domains) pairs, sorted by count, highest first; equal counts keep first-appearance order |
| Server.TruncationDropsLowest | homeops/server.py:55 | a dropped domain counts no more than any kept one; with at most 12 domains none is dropped, with more exactly 12 are kept |
| Server.TopDomainCountsSum | homeops/server.py:48-55 | the counts add up to at most the number of dotted records, and exactly to it with at most 12 domains |
| Server.CoreApiUrl | homeops/server.py:38 | `f"{base.rstrip('/')}/{path.lstrip('/')}"` (computes; see `CoreApiUrlParts`) |
| Server.CoreApiUrlOfCleanParts | homeops/server.py:38 | a base without a trailing `/` and a path without a leading `/` are joined by one `/` |
| Server.CoreApiUrlIgnoresSlashes | homeops/server.py:38 | extra trailing slashes on the base or leading ones on the path change nothing |
| Server.CoreApiUrlParts | homeops/server.py:38 | the URL is the base less its trailing slashes, `/`, and the path less its leading slashes |
| Server.DefaultCoreApiUrls | homeops/server.py:207-208 | with the default base, "/config" and "/states" are appended with a single `/` |

## Left out

- HTTP, environment and time:
  - the HTTP server and its routes;
  - the request to the Core API (`urlopen`, headers, the token check, JSON decoding);
  - the environment variables;
  - the uptime clock;
  - `INDEX_HTML`;
  - `homeops/app/main.py`, `homeops/app/ha_client.py` and `homeops/app/health/models.py`.
  - These are I/O or presentation. The URL join and the default base are the only parts of `_ha_get` modelled.
- The server's fallback dictionaries when a fetch fails, and the `isinstance(states, list)` guard. Both are I/O error handling around the core.
- Dynamic types: records are assumed to be dictionaries.
  - `entity_id` and `state` are strings or absent.
  - A `state` key holding `None` is modelled: `state.get("state") or ""` makes it "", like an absent one.
  - An `entity_id` key that is present but holds `None` or any other non-string is not modelled. Both `analyze_health` (the `"." in entity_id` test at `homeops/app/health/analyzer.py:83`) and `_safe_domain_counts` (`homeops/server.py:52`) raise `TypeError` on it. In the model `None` stands only for an absent `entity_id`, which defaults to "".
  - Attributes other than the two version fields are not modelled.
  - A non-dict `attributes` value, or an `attributes` value of `None`, is not modelled.
- Analyzer.AnalyzeHealth: each by_domain bucket is kept as its count, not its list of entity ids. The source only ever takes the length of a bucket.
- Analyzer.BuildReport: the dictionary it reads is `HealthDict`. A `critical_count` key that is present but holds `None` is not representable; it would be formatted as "None". A `by_domain` that is not a dict is not representable either.
- Analyzer.UpdateItemOf: the version fields are strings or absent, not arbitrary JSON values. A non-string version is not modelled.
- `sorted` is a library call. It is modelled as the function `SortDesc`, a stable insertion sort, not as a loop. Only its result is modelled (order and stability), not its algorithm.
