# agentlog incident, correlation and pattern core in Dafny

agentlog is a structured-logging library for services. Each log event carries
a semantic type, entities, a service, a trace id and an anomaly score. On top
of the log stream the library runs three in-memory engines:

- an **event correlator** indexes events by trace id, entity value and
  service. It relates each new event to earlier ones by four rules: trace,
  entity, service and temporal. A **causality analyzer** learns which event
  types precede which, and a **root-cause analyzer** picks the earliest
  event of the strongest correlation.
- a **pattern engine** scores events against sequential patterns, walking
  back through recent context, and against frequency patterns over sliding
  windows of timestamps (burst, repeated entity, absence). It also scores
  regex patterns on one field, and reports the patterns that score above
  0.5, best first.
- an **incident manager** turns events that cross a threshold into
  `INC-nnnnnn` incidents. It classifies their severity, suppresses
  duplicates, tracks status changes, resolution and auto-resolution, and
  keeps statistics counters. It ships two encoders for its integrations:
  JSON string escaping and Base64.

Two small Flask servers simulate the ticketing back ends the integrations
talk to:

- a **PagerDuty** Events API v2 mock keeps an incident list with
  find-or-create by dedup key;
- a **Jira** mock keeps a ticket list numbered from 1000.

The model follows the form of each source file:

- the simulators' global lists and counters are `class`es (`PagerDuty.Registry`,
  `Jira.TicketStore`), with one atomic method per HTTP handler;
- `IncidentManager`, `EventCorrelator`, `CausalityAnalyzer`,
  `SequentialPattern`, `FrequencyPattern` and `PatternEngine` are classes
  whose methods update their fields;
- each loop is a method with invariants, proved against a specification
  function;
- the switch tables, `calculate_severity`, `find_root_cause` and regex field
  selection are functions.

Module layout:

| file | module | models |
|---|---|---|
| optional.dfy | Optional | `std::optional`, Python `None`, a missing key |
| text.dfy | Text | decimal rendering, zero padding, the text after the last `-` |
| json.dfy | JsonValue | decoded request bodies, Python `==`, `dict.get`, truthiness, `str()` |
| pagerduty.dfy | PagerDuty | demo/simulators/pagerduty/server.py |
| jira.dfy | Jira | demo/simulators/jira/server.py |
| common.dfy | Common | include/agentlog/common.h |
| event.dfy | Events | the `LogEvent` fields the engines read (include/agentlog/event.h) |
| incident_types.dfy | IncidentTypes | include/agentlog/incident_manager.h |
| encoding.dfy | Encoding | `json_escape` and `base64_encode` in src/incident_manager.cpp |
| incident_manager.dfy | Incidents | `IncidentManager` and the severity tables in src/incident_manager.cpp |
| correlation.dfy | Correlations | src/correlation_engine.cpp |
| patterns.dfy | Patterns | src/pattern_engine.cpp |

Conventions:

- **Time.** Timestamps and durations are integer nanoseconds. The clock
  (`system_clock::now()`, `datetime.now()`) is a `now` parameter, with one
  value per call.
- **Numbers.** Scores, confidences and strengths are `real`.
- **Regular expressions.** `std::regex_search` is the function parameter
  `search(text, pattern)`.
- **Map order.** `std::map` (`ContextMap`, `MetricMap`) is a sequence of
  pairs with strictly ascending keys, so iteration order is modelled.
- **Unordered containers.** `unordered_map` and `unordered_set` are Dafny
  `map` and `set`. Loops over them pick the next key with `:|`, so their
  contracts hold for every iteration order.
- **Mutexes** are ignored; each call is one atomic step.

Behaviour of the code that the model keeps as written:

- **Jira clear.** `clear_tickets` resets the counter to 1000, the value the
  counter starts at, not to 1.
- **Sequential walk.** The backward walk compares each context event
  against the `max_time_since_prev` of the step it is looking for (the
  previous step). It measures from the time of the last matched event.
- **Resolving twice.** `resolve_incident` has no guard against resolving
  an incident twice. Resolving the only incident of a fresh manager twice
  drives the `size_t` counter `currently_open` round to 2^64 - 1
  (`Incidents.ResolveTwiceWraps`).
- **Dedup ids.** A duplicate found by `evaluate_event` still consumes an
  incident id.
- **Delay average.** `learn` averages `typical_delay` in unsigned 64-bit
  arithmetic: multiplying the signed nanosecond count by the `uint64_t`
  count gives an unsigned duration. A context event later than the event it
  is learnt for passes the 60-second filter and gives a negative delay. The
  average then wraps: two such events 1000 ns late record 2^63 − 1000 ns
  (`Correlations.LaterContextDelay`).
- **Print failures.** In both simulators the response is printed only after
  the store has changed. A body that makes printing raise answers 400 but
  keeps the new or updated incident or ticket.

## Model

| member | source | states |
|---|---|---|
| Common.Ordinal | include/agentlog/common.h:20-28 | every log severity has its declared ordinal, TRACE = 0 up to ALERT = 6 |
| Common.SeverityOf | include/agentlog/common.h:20-28 | a raw value denotes an enumerator exactly when it is in 0..6, and that enumerator's ordinal is the value |
| Common.OrdinalRoundTrip | include/agentlog/common.h:20-28 | reading an enumerator's ordinal back gives the enumerator, so ordinals are distinct |
| Common.SeverityOrder | include/agentlog/common.h:20-28 | the ordinals strictly increase in declaration order TRACE < DEBUG < … < ALERT, which is the order severity comparisons use |
| Common.SeverityToString | include/agentlog/common.h:30-41 | the name is "UNKNOWN" exactly when the raw value is outside the enum; otherwise it is the enumerator's upper-case name |
| Common.SeverityNamesDistinct | include/agentlog/common.h:30-41 | distinct severities have distinct names, none of them "UNKNOWN" |
| Common.StrLessIrreflexive | include/agentlog/common.h:57-61 | no key sorts before itself under `std::string`'s ordering, so strictly ascending map keys are distinct |
| Common.Lookup | include/agentlog/common.h:57-61 | `find` on an ordered map returns the value stored under the key, and none exactly when no entry has that key |
| Text.NatToDecimal | demo/simulators/jira/server.py:98 | a counter renders as decimal digits with no leading zero |
| Text.IntToDecimal | demo/simulators/pagerduty/server.py:126 | Python's `str` of a non-negative counter is all digits |
| Text.DecimalRoundTrip | demo/simulators/jira/server.py:98 | reading a rendered counter back gives the counter |
| Text.DecimalInjective | demo/simulators/jira/server.py:98 | different counters never render alike |
| Text.ZeroPad | src/incident_manager.cpp:500 | `setw`/`setfill('0')` pads to at least the width and never truncates |
| Text.PaddedRoundTrip | src/incident_manager.cpp:500 | a zero-padded counter reads back as the counter |
| Text.SuffixAfterLastDash | demo/simulators/jira/server.py:98 | the text after the last `-` of a key is a dash-free suffix of it |
| Text.SuffixAfterJoin | demo/simulators/jira/server.py:98 | whatever the project text, the key `project-n` ends in `n` after its last dash |
| JsonValue.PyEqReflexive | demo/simulators/pagerduty/server.py:132 | every NaN-free decoded value is `==` to itself, so a stored NaN-free dedup key finds its own incident |
| JsonValue.Get | demo/simulators/pagerduty/server.py:121-127 | `dict.get(key, default)` is the stored value when present and the default otherwise |
| JsonValue.PyStr | demo/simulators/jira/server.py:98 | an f-string inserts a string value unchanged |
| PagerDuty.ParseEvent | demo/simulators/pagerduty/server.py:120-127 | a body fails exactly when it, or its `event` member, is not a dict; otherwise the action defaults to "trigger", the routing key to "unknown", the dedup key to `incident-<counter>` and the payload to `{}` |
| PagerDuty.FindKey | demo/simulators/pagerduty/server.py:129-134 | the result is the first incident whose dedup key is `==` to the key, and none exactly when no incident has such a key |
| PagerDuty.CountStatus | demo/simulators/pagerduty/server.py:186-190 | a status count never exceeds the number of incidents |
| PagerDuty.Registry.constructor | demo/simulators/pagerduty/server.py:20-21 | the process starts with no incidents and the counter at 1 |
| PagerDuty.Registry.EnqueueEvent | demo/simulators/pagerduty/server.py:114-164 | an unreadable body answers 400 and changes nothing. Otherwise the registry becomes find-or-create of the event and the 202 reply echoes the dedup key used, unless printing the stored incident raises; then it answers 400 and keeps the change. The registry invariant is preserved |
| PagerDuty.Registry.FindIncident | demo/simulators/pagerduty/server.py:129-134 | the scan loop returns the first incident with a `==` dedup key, or none |
| PagerDuty.Registry.ListIncidents | demo/simulators/pagerduty/server.py:182-195 | `total` is the list length, and the three counts are the exact-equality counts of "triggered", "acknowledged" and "resolved", summing to at most `total` |
| PagerDuty.Registry.ClearIncidents | demo/simulators/pagerduty/server.py:197-205 | the reply counts the old incidents; the list is empty and the counter is 1 again |
| PagerDuty.IngestShape | demo/simulators/pagerduty/server.py:129-150 | a new key appends exactly one incident with id = counter and status = action and advances the counter by one. A known key keeps the length and the counter, and changes only that incident's status and `updated_at` |
| PagerDuty.IngestKeepsInvariant | demo/simulators/pagerduty/server.py:129-147 | every ingested event keeps the invariant: no two incidents have `==` dedup keys, and ids strictly increase from 1 and stay below the counter |
| PagerDuty.SameKeyUpdates | demo/simulators/pagerduty/server.py:129-150 | a second event with the same NaN-free key updates the incident the first created or updated, with the same id and no new incident |
| PagerDuty.KeylessEventsCreateTwo | demo/simulators/pagerduty/server.py:120-147 | two key-less events in a row, whose synthesized keys are not yet in use, create two incidents with distinct ids and advance the counter by two |
| PagerDuty.StatusCountsBounded | demo/simulators/pagerduty/server.py:186-192 | triggered + acknowledged + resolved ≤ total |
| PagerDuty.ClearTwice | demo/simulators/pagerduty/server.py:197-205 | clearing twice reports 0 the second time |
| PagerDuty.ScenarioSteps | demo/simulators/pagerduty/server.py:129-150 | trigger A, acknowledge A, trigger B store the action verbs as the statuses of incidents 1 and 2 |
| PagerDuty.ScenarioAsWritten | demo/simulators/pagerduty/server.py:136-190 | after trigger A, acknowledge A, trigger B, the statuses are "acknowledge" and "trigger" and every status count is 0 |
| PagerDuty.CanonicalStatus | demo/simulators/pagerduty/server.py:136-150 | corrected status: the verbs trigger, acknowledge and resolve map to the past-tense statuses the statistics count; anything else is kept |
| PagerDuty.IngestCanonical | demo/simulators/pagerduty/server.py:129-150 | corrected find-or-create: the target incident carries the canonical status, and the list grows by one exactly on a new key |
| PagerDuty.ScenarioCanonical | demo/simulators/pagerduty/server.py:182-195 | corrected: the same scenario counts one acknowledged and one triggered incident |
| Jira.ProjectKey | demo/simulators/jira/server.py:97 | the project key is read exactly when the body, its `fields` and their `project` are dicts, and defaults to "AGENT" |
| Jira.NewTicket | demo/simulators/jira/server.py:98-108 | the ticket built at counter n has key `project-n`, id `n + 1`, the request's fields and the call's time |
| Jira.AppendKeepsInvariant | demo/simulators/jira/server.py:97-111 | appending a ticket built from the counter and advancing the counter keeps the key counters strictly increasing from 1000 and below the counter |
| Jira.TicketStore.constructor | demo/simulators/jira/server.py:19-20 | the process starts with no tickets and the counter at 1000 |
| Jira.TicketStore.CreateIssue | demo/simulators/jira/server.py:88-125 | a body whose project key cannot be read answers 400 and changes nothing. Otherwise the counter advances by one and the ticket built from the old counter is appended. The reply is 201 with its id, key and self link, or 400 if printing raises, with the ticket kept |
| Jira.TicketStore.GetIssue | demo/simulators/jira/server.py:127-133 | the first ticket with the key, or none exactly when no ticket has it; the store is not changed |
| Jira.TicketStore.SearchIssues | demo/simulators/jira/server.py:135-143 | every stored ticket from position 0, with `total` = `maxResults` = the number of tickets |
| Jira.TicketStore.ClearTickets | demo/simulators/jira/server.py:150-158 | the reply counts the old tickets; the list is empty and the counter is back at 1000 |
| Jira.TicketStore.KeysDistinct | demo/simulators/jira/server.py:97-111 | between clears no two stored tickets share a key |
| Jira.TicketStore.IdIsKeyNumberPlusOne | demo/simulators/jira/server.py:98-103 | every stored ticket's id is the number in its key plus one |
| Jira.BuiltTicketNumbers | demo/simulators/jira/server.py:98-103 | a ticket built at counter n reads back n from its key and n + 1 from its id |
| Jira.KeyNamesCounter | demo/simulators/jira/server.py:98 | the key's text after its last dash is the counter, whatever the project renders to |
| Jira.DefaultProject | demo/simulators/jira/server.py:97 | a body without `fields` files under project "AGENT" |
| Jira.ClearTwice | demo/simulators/jira/server.py:150-158 | clearing twice reports 0 the second time and leaves the counter at 1000 |
| IncidentTypes.SeverityOrdinal | include/agentlog/incident_manager.h:23-28 | the incident severities LOW … CRITICAL have ordinals 0 … 3 |
| IncidentTypes.IncidentSeverityOf | include/agentlog/incident_manager.h:23-28 | a raw value names an incident severity exactly when it is in 0..3, with that ordinal |
| IncidentTypes.IncidentSeverityToString | include/agentlog/incident_manager.h:30-38 | the name is "UNKNOWN" exactly for values outside the enum |
| IncidentTypes.SeverityNamesDistinct | include/agentlog/incident_manager.h:30-38 | LOW, MEDIUM, HIGH and CRITICAL have pairwise distinct names other than "UNKNOWN" |
| IncidentTypes.DefaultConfig | include/agentlog/incident_manager.h:100-118 | the defaults order the thresholds critical 0.95 > high 0.85 > medium 0.75 = anomaly threshold. The pattern threshold is 1 and the correlation threshold 3. Auto-resolution is on after 15 minutes and deduplication is on within 5 minutes |
| IncidentTypes.InitialStats | include/agentlog/incident_manager.h:201-206 | all four statistics counters start at 0 |
| Incidents.SizeAdd | include/agentlog/incident_manager.h:201-206 | `size_t` arithmetic stays below 2^64 and is exact when it does not wrap |
| Incidents.JiraPriority | src/incident_manager.cpp:510-518 | the Jira priority is one of Highest, High, Medium, Low |
| Incidents.PagerDutySeverity | src/incident_manager.cpp:610-618 | the PagerDuty severity is one of critical, error, warning, info |
| Incidents.SlackColor | src/incident_manager.cpp:698-706 | the Slack colour is a `#RRGGBB` string |
| Incidents.SlackEmoji | src/incident_manager.cpp:709-717 | the Slack emoji is a `:name:` code |
| Incidents.SeverityTablesDistinguish | src/incident_manager.cpp:510-717 | each table maps distinct severities to distinct values. Jira and PagerDuty map an out-of-range value to the MEDIUM entry; Slack gives it a colour and emoji of its own |
| Incidents.CalculateSeverity | src/incident_manager.cpp:476-494 | CRITICAL iff score ≥ critical threshold. HIGH iff not critical and (score ≥ high threshold or ≥ 2 patterns). MEDIUM iff neither and (score ≥ medium threshold or ≥ 5 correlations). LOW otherwise |
| Incidents.SeverityMonotone | src/incident_manager.cpp:476-494 | a higher score, more patterns or more correlations never lower the severity, for any thresholds |
| Incidents.IncidentId | src/incident_manager.cpp:496-503 | an id is "INC-" followed by digits that read back as the counter, at least six of them |
| Incidents.IncidentIdInjective | src/incident_manager.cpp:496-503 | different counter values give different ids, so ids are never reused |
| Incidents.FirstIncidentId | include/agentlog/incident_manager.h:124-126 | the first id of a fresh manager is INC-000001 |
| Incidents.LongIncidentId | src/incident_manager.cpp:500 | the counter 1234567 gives INC-1234567: a counter past six digits is printed in full, never truncated |
| Incidents.IdNumberOfId | src/incident_manager.cpp:496-503 | the counter value can be read back from an id |
| Incidents.FlattenContents | src/incident_manager.cpp:207-213 | an id is among the collected correlation ids exactly when some correlation lists it |
| Incidents.PatternTags | src/incident_manager.cpp:233-235 | one tag `pattern:<name>` per matched pattern, in order |
| Incidents.LabelsOf | src/incident_manager.cpp:222-227 | labels hold the severity name and the event type, plus the service exactly when the event names one, and nothing else |
| Incidents.BuildIncident | src/incident_manager.cpp:146-235 | the incident built from an event is OPEN with the generated id and the calculated severity. Its title is "Pattern detected: " and the first pattern, or "Anomaly in " and the event type when no pattern matched. Its event ids are the event's own id, then every correlation's ids in order. It counts at most one affected service, is tagged critical-anomaly iff the score is ≥ 0.9, and carries the severity, event-type and service labels |
| Incidents.DefaultGateSeverity | src/incident_manager.cpp:127-157 | under the defaults an event admitted by its score alone is at least MEDIUM, and a score below 0.95 is never CRITICAL |
| Incidents.OverlapCount | src/incident_manager.cpp:417-422 | the overlap is at most the number of ids; it is all of them when every id is shared and 0 when none is |
| Incidents.OverlapDuplicate | src/incident_manager.cpp:394-430 | against a live incident inside the window, an incident whose ids all occur there is a duplicate. An incident with no ids is a duplicate only by title and severity |
| Incidents.CountOverlap | src/incident_manager.cpp:414-422 | the overlap loop counts the new incident's ids found in the set of the existing incident's ids |
| Incidents.CollectEventIds | src/incident_manager.cpp:207-213 | the event's id followed by every correlation's ids, in order |
| Incidents.CollectTags | src/incident_manager.cpp:229-235 | "critical-anomaly" when the score is ≥ 0.9, then one `pattern:` tag per pattern |
| Incidents.Resolve | src/incident_manager.cpp:325-328 | a resolved incident is RESOLVED with `resolved_at` and root cause set, and nothing else changed |
| Incidents.AutoResolved | src/incident_manager.cpp:441-453 | auto-resolution keeps every key, resolves each OPEN or INVESTIGATING incident created before the cutoff, and leaves every other incident as it was |
| Incidents.AllSeen | src/incident_manager.cpp:441-453 | once the loop has visited every key, the partial result is the whole auto-resolution |
| Incidents.AutoResolveStep | src/incident_manager.cpp:442-451 | visiting one key resolves its incident iff it is stale, and counts it iff so |
| Incidents.CountCreated | src/incident_manager.cpp:248-249 | a stored incident adds one to `total_created` and to `currently_open` (mod 2^64) and nothing else |
| Incidents.CountDuplicate | src/incident_manager.cpp:241 | a suppressed duplicate adds one to `deduplicated` only |
| Incidents.CountResolved | src/incident_manager.cpp:330-331 | a resolution moves one count from `currently_open` (mod 2^64) to `resolved` |
| Incidents.OpenCountStep | include/agentlog/incident_manager.h:201-206 | `currently_open` stays equal to created − resolved modulo 2^64 across every counted step |
| Incidents.IncidentManager.constructor | include/agentlog/incident_manager.h:124-126 | a manager starts with the given configuration, no incidents, zeroed statistics and the id counter at 1 |
| Incidents.IncidentManager.GenerateIncidentId | src/incident_manager.cpp:496-503 | returns the id of the current counter and post-increments it |
| Incidents.IncidentManager.FindDuplicate | src/incident_manager.cpp:394-430 | a returned id names a stored incident that suppresses the new one; none exactly when no stored incident does |
| Incidents.IncidentManager.EvaluateEvent | src/incident_manager.cpp:119-268 | below every threshold nothing changes. Otherwise one id is consumed. A duplicate (when deduplication is on) only bumps `deduplicated`. Any other incident is stored under its fresh id and counted as created and open |
| Incidents.IncidentManager.Admit | src/incident_manager.cpp:237-249 | the tail of `evaluate_event`: a duplicate is only counted, and any other incident is stored and counted |
| Incidents.IncidentManager.CreateIncident | src/incident_manager.cpp:270-310 | a new OPEN incident with the given fields and a fresh id is stored without a duplicate check and counted |
| Incidents.IncidentManager.Store | src/incident_manager.cpp:246-249 | storing under the just-issued id adds exactly one incident and counts it |
| Incidents.IncidentManager.UpdateStatus | src/incident_manager.cpp:312-319 | a known incident takes the new status and nothing else changes; an unknown id changes nothing; the statistics never change |
| Incidents.IncidentManager.ResolveIncident | src/incident_manager.cpp:321-356 | a known incident is resolved with the resolution as root cause, and one count moves from open to resolved, even when it was already resolved; an unknown id changes nothing |
| Incidents.IncidentManager.GetIncident | src/incident_manager.cpp:358-367 | the stored incident under the id, or none exactly when there is none |
| Incidents.IncidentManager.GetOpenIncidents | src/incident_manager.cpp:369-381 | exactly the OPEN or INVESTIGATING incidents, each once, as stored |
| Incidents.IncidentManager.AutoResolveStaleIncidents | src/incident_manager.cpp:432-454 | when disabled nothing changes. Otherwise the store becomes its auto-resolution at `now - resolution_timeout`, `resolved` grows by the number of stale incidents, and the other counters and the keys are kept |
| Incidents.IncidentManager.ResolveAllStale | src/incident_manager.cpp:439-453 | the loop resolves and counts exactly the stale incidents, in any iteration order |
| Incidents.IncidentManager.ResolveIfStale | src/incident_manager.cpp:442-451 | one incident is resolved and counted iff it is stale |
| Incidents.OpenListingStep | src/incident_manager.cpp:373-378 | visiting one key appends its incident iff it is OPEN or INVESTIGATING |
| Incidents.StoreKeepsInvariant | src/incident_manager.cpp:246-249 | storing the incident of the just-issued id keeps the statistics invariant: `total_created` = stored incidents, and `currently_open` = created − resolved mod 2^64. It also keeps the ids issued so far = created + deduplicated |
| Incidents.StoreKeys | src/incident_manager.cpp:247 | the just-issued id is not yet stored, so storing under it adds exactly one entry |
| Incidents.CountsCreated | src/incident_manager.cpp:248-249 | counting a creation keeps the counters in agreement |
| Incidents.DuplicateKeepsInvariant | src/incident_manager.cpp:239-242 | a suppressed duplicate consumes an id and keeps the statistics invariant |
| Incidents.ResolveKeepsInvariant | src/incident_manager.cpp:325-331 | resolving a stored incident keeps the statistics invariant |
| Incidents.CountsResolved | src/incident_manager.cpp:330-331 | counting a resolution keeps the counters in agreement |
| Incidents.ResolveTwiceWraps | src/incident_manager.cpp:321-331 | resolving the only incident of a fresh manager twice leaves `currently_open` at 2^64 − 1 and `resolved` at 2 |
| Encoding.EscapedAppend | src/incident_manager.cpp:21-37 | escaping one more byte appends that byte's escape |
| Encoding.JsonEscape | src/incident_manager.cpp:19-39 | the escape loop writes the escape of every byte, in order |
| Encoding.ShortEscapeDecodes | src/incident_manager.cpp:23-29 | each of `"`, `\`, backspace, form feed, newline, CR and tab is written as a two-character escape that decodes back to it |
| Encoding.ControlEscapeDecodes | src/incident_manager.cpp:31-32 | every other byte below 32 is written as `\u00XY`, which decodes back to it |
| Encoding.EscapeByteDecodes | src/incident_manager.cpp:22-36 | with an unsigned `char`, every byte's escape decodes back to that byte |
| Encoding.EscapeRoundTrip | src/incident_manager.cpp:19-39 | corrected escaper (unsigned `char`): decoding the escaped text under section 7 of RFC 8259 gives back exactly the input bytes |
| Encoding.AsciiRoundTrip | src/incident_manager.cpp:19-39 | on ASCII text the signed and unsigned readings agree, and the as-written escaper round-trips |
| Encoding.SignedHighByteEscape | src/incident_manager.cpp:31-32 | as written with a signed `char`, a byte ≥ 0x80 takes the `c < 32` branch and is written as `\u00ffffffXY` |
| Encoding.SignedCharBreaksUtf8 | src/incident_manager.cpp:31-32 | as written with a signed `char`, the UTF-8 text "é" does not decode back to itself |
| Encoding.Sextet | src/incident_manager.cpp:43-46 | a table entry is never the pad character `=` |
| Encoding.SextetIsTable | src/incident_manager.cpp:43-46 | `base64_chars` has 64 entries and is the alphabet of section 4 of RFC 4648 |
| Encoding.AlphabetChars | src/incident_manager.cpp:43-46 | every entry of `base64_chars` is a letter, a digit, `+` or `/` |
| Encoding.Base64Append | src/incident_manager.cpp:52-59 | the encoding splits at any multiple of three bytes |
| Encoding.ProgressStep | src/incident_manager.cpp:52-58 | after each byte the output is the encoding of the whole groups read so far, with the pending bits held in `val` |
| Encoding.Base64Quads | src/incident_manager.cpp:65-67 | the encoding is a whole number of four-character groups |
| Encoding.Done | src/incident_manager.cpp:61-63 | after the flush the output is the encoding up to its `=` padding |
| Encoding.EmitReady | src/incident_manager.cpp:55-58 | the inner loop emits exactly the complete six-bit groups pending in `val` |
| Encoding.EncodeBytes | src/incident_manager.cpp:52-59 | the byte loop leaves the encoding of the whole groups read, with the leftover bits pending |
| Encoding.Base64Encode | src/incident_manager.cpp:42-70 | the output is exactly the RFC 4648 encoding of the input, padded with `=` as in section 3.2 |
| Encoding.Base64Length | src/incident_manager.cpp:42-70 | the output has 4·⌈n/3⌉ characters |
| Encoding.Base64Shape | src/incident_manager.cpp:42-70 | the output is letters, digits, `+` and `/`, followed by no, one or two `=`: as many as the last group of three lacks bytes |
| Correlations.PushExtends | src/correlation_engine.cpp:41-52 | pushing an id under a key adds it under that key and changes no other key |
| Correlations.PushNonEmptyExtends | src/correlation_engine.cpp:41-52 | the trace and service indices file the id under a non-empty key and skip an empty one |
| Correlations.IndexEntitiesExtends | src/correlation_engine.cpp:46-48 | the entity index files the id under exactly the event's entity values |
| Correlations.StoredExtends | src/correlation_engine.cpp:36-52 | filing a stored id keeps every indexed id naming a stored event |
| Correlations.ExactStep | src/correlation_engine.cpp:235-249 | filing one more stored event keeps an index listing exactly the visited events, each under its keys |
| Correlations.RebuildStep | src/correlation_engine.cpp:235-249 | one turn of the rebuild keeps all three indices exact |
| Correlations.ExactIsStored | src/correlation_engine.cpp:230-249 | an exact index lists stored events only |
| Correlations.TraceCorrelation | src/correlation_engine.cpp:62-85 | a trace correlation exists iff the trace id is non-empty and ids are filed under it. Its ids are those earlier ids followed by the event's own, with confidence 1.0 |
| Correlations.RelatedMembers | src/correlation_engine.cpp:88-99 | an id is related iff it is not the event's own and some entity value of the event lists it |
| Correlations.EntityListing | src/correlation_engine.cpp:101-116 | a listing of the related set, each once, decides the entity rule: type "entity", confidence 0.8, the event's id last |
| Correlations.FindingsOf | src/correlation_engine.cpp:20-34 | the four rules' results, in order trace, entity, service, temporal, make up what `correlate` finds |
| Correlations.FilingKeepsStored | src/correlation_engine.cpp:36-52 | storing an event and filing it keeps every index consistent |
| Correlations.RecentIds | src/correlation_engine.cpp:129-138 | an id is kept iff it is listed and its stored event is no older than the cutoff |
| Correlations.RecentIdsCounts | src/correlation_engine.cpp:129-138 | each kept id appears as often as it is listed, and no other id appears |
| Correlations.ServiceCorrelation | src/correlation_engine.cpp:118-155 | a service correlation exists iff the service is non-empty and some filed id's stored event is at most one minute older than the event. Its ids are those recent ids, then the event's own, with confidence 0.6 |
| Correlations.TemporalWindow | src/correlation_engine.cpp:163-167 | truncating to whole seconds makes the 5-second window reach up to, but not including, 6 seconds |
| Correlations.NearbyStep | src/correlation_engine.cpp:162-170 | visiting one stored event lists it iff it is another event within five whole seconds |
| Correlations.NearbyResult | src/correlation_engine.cpp:172-186 | the complete listing has one entry per nearby event, and the temporal rule fires iff there are at least two |
| Correlations.Involving | src/correlation_engine.cpp:188-200 | the members are exactly the stored correlations listing the id |
| Correlations.InvolvingCounts | src/correlation_engine.cpp:188-200 | each correlation listing the id appears as often as it is stored, and no other appears |
| Correlations.RecentEvents | src/correlation_engine.cpp:212-219 | cleanup keeps exactly the events no older than the cutoff, unchanged |
| Correlations.RecentCorrelations | src/correlation_engine.cpp:221-228 | the members cleanup keeps are exactly the correlations whose last event is no older than the cutoff |
| Correlations.RecentCorrelationsCounts | src/correlation_engine.cpp:221-228 | each kept correlation appears as often as it is stored, and no dropped one appears |
| Correlations.RecentCorrelationsIdempotent | src/correlation_engine.cpp:221-228 | filtering twice with one cutoff is filtering once |
| Correlations.EventCorrelator.constructor | include/agentlog/correlation_engine.h:77-83 | a correlator starts with no events, correlations or index entries |
| Correlations.EventCorrelator.Correlate | src/correlation_engine.cpp:14-60 | the rules run against the state before the event. The event is stored under its id and filed in the three indices, and what was found is appended to the correlations. Every indexed id names a stored event |
| Correlations.EventCorrelator.ApplyRules | src/correlation_engine.cpp:20-34 | the four rules in order against the current state |
| Correlations.EventCorrelator.File | src/correlation_engine.cpp:41-52 | filing updates the three indices as specified and nothing else |
| Correlations.EventCorrelator.CorrelateByEntities | src/correlation_engine.cpp:87-116 | the entity rule's result for the current entity index, in any set order |
| Correlations.EventCorrelator.CorrelateByService | src/correlation_engine.cpp:118-155 | the service rule's result for the current state |
| Correlations.EventCorrelator.CorrelateByTime | src/correlation_engine.cpp:157-186 | the temporal rule's result, in any map order: type "temporal", confidence 0.4, at least two other events within five whole seconds, each once, then the event's id |
| Correlations.EventCorrelator.GetCorrelationsForEvent | src/correlation_engine.cpp:188-200 | the loop returns the stored correlations listing the id, in order |
| Correlations.EventCorrelator.Cleanup | src/correlation_engine.cpp:207-250 | old events and correlations are dropped, and every index lists exactly the remaining events under their keys, so every indexed id names a stored event |
| Correlations.EventCorrelator.EraseOlderThan | src/correlation_engine.cpp:212-219 | the erase loop keeps exactly the recent events |
| Correlations.EventCorrelator.Rebuild | src/correlation_engine.cpp:230-249 | the rebuild leaves each index listing exactly the stored events, in any map order |
| Correlations.DistinctCard | src/correlation_engine.cpp:112 | a duplicate-free listing of a set has as many entries as the set |
| Correlations.OthersIn | src/correlation_engine.cpp:93-97 | the inner loop collects an entity value's ids other than the event's own |
| Correlations.Enumerate | src/correlation_engine.cpp:112 | iterating an `unordered_set` lists each member once |
| Correlations.TraceScenario | src/correlation_engine.cpp:62-85 | of two events of one trace, the first finds no trace correlation; the second finds one listing both ids, earlier first, with confidence 1.0 |
| Correlations.RuleLabels | src/correlation_engine.cpp:87-186 | the entity and temporal rules label what they find "entity" and "temporal" |
| Correlations.NoTraceCorrelation | src/correlation_engine.cpp:20-34 | without a trace correlation nothing found is labelled "trace_id" |
| Correlations.FirstOfTrace | src/correlation_engine.cpp:42-44 | the first event of a trace files its id under a fresh key |
| Correlations.TraceFirst | src/correlation_engine.cpp:62-85 | with one earlier id under the trace, the trace correlation comes first and lists [earlier, new] |
| Correlations.AsUnsigned | include/agentlog/correlation_engine.h:110-111 | an `int64_t` read as `uint64_t` is its value modulo 2^64: unchanged when non-negative, plus 2^64 when negative |
| Correlations.AsSigned | include/agentlog/correlation_engine.h:110-111 | a `uint64_t` stored back into the signed `typical_delay` lands in the `int64_t` range with the same bits |
| Correlations.SignedRoundTrip | include/agentlog/correlation_engine.h:110-111 | an `int64_t` read as unsigned and back is unchanged |
| Correlations.UnsignedAverage | src/correlation_engine.cpp:329 | the running average of the delay is computed modulo 2^64 and lands in the `int64_t` range. The first observation of a pair keeps its own delay |
| Correlations.NoWrapAverage | src/correlation_engine.cpp:329 | when the old average and the delay are non-negative and the weighted sum stays below 2^63, the average is the floor of the sum over the count |
| Correlations.AverageBetween | src/correlation_engine.cpp:329 | in that case the new average lies between the old average and the new delay |
| Correlations.LaterContextDelay | src/correlation_engine.cpp:306-329 | a context event 1000 ns after the event, learnt twice, records -1000 ns and then 2^63 − 1000 ns |
| Correlations.Observe | src/correlation_engine.cpp:315-332 | one observation adds one to the count and keeps strength ≤ 1. A new pair starts as PRECEDES with strength 0.1 + 0.05 and, for an `int64_t` delay, typical delay e − prev. A known pair keeps its kind and names. Its strength rises by 0.05, capped at 1, and its typical delay becomes the unsigned running average |
| Correlations.LearnCounts | src/correlation_engine.cpp:302-334 | `learn` raises the count of (cause, event type) by the number of context events of that cause within 60 s; pairs with another effect are untouched |
| Correlations.LearnNewPairs | src/correlation_engine.cpp:313-332 | every pair `learn` creates starts as PRECEDES, names its own cause and effect, and has strength ≤ 1. No existing pair is lost, and a changed one keeps strength ≤ 1 |
| Correlations.Known | src/correlation_engine.cpp:290-297 | at most one relationship per context event, each the stored one for some context event's type paired with the effect |
| Correlations.LearnKeepsNames | src/correlation_engine.cpp:313-323 | learning keeps every relationship stored under its own (cause, effect) pair |
| Correlations.CausalityAnalyzer.constructor | include/agentlog/correlation_engine.h:98-114 | an analyzer starts with no relationships |
| Correlations.CausalityAnalyzer.LearnFrom | src/correlation_engine.cpp:302-334 | the relationships become `learn` of the context, in order |
| Correlations.CausalityAnalyzer.Analyze | src/correlation_engine.cpp:281-300 | the known relationship for (c, event type) for each context event c, in order |
| Correlations.CausalityAnalyzer.Register | src/correlation_engine.cpp:347-352 | the relationship is stored, or replaced, under its own pair |
| Correlations.RegisteredIsKnown | src/correlation_engine.cpp:281-300 | a registered relationship is what `analyze` reports for an effect preceded by one cause event |
| Correlations.FindRootCause | src/correlation_engine.cpp:358-388 | none iff the correlation has no events. Otherwise the root is its first event and the affected ids are all its ids. The confidence is the correlation's times 0.7, so it lies between 0 and the correlation's. The evidence is a temporal item, then the correlation itself |
| Correlations.Strongest | src/correlation_engine.cpp:402-405 | `max_element` picks the first correlation of greatest confidence |
| Correlations.RootCauseAnalyzer.constructor | include/agentlog/correlation_engine.h:183-185 | the analyzer reads the correlator it was given |
| Correlations.RootCauseAnalyzer.FindRootCauseForEvent | src/correlation_engine.cpp:390-408 | none when no stored correlation lists the event; otherwise the root cause of the first strongest one |
| Patterns.NewStep | include/agentlog/pattern_engine.h:56-65 | a step has no required entities and no matcher, and its time limit defaults to 60 s |
| Patterns.HasAllMeans | src/pattern_engine.cpp:88-93 | the required-entities check holds iff every required name is an entity of the event |
| Patterns.AnyValueMatchesMeans | src/pattern_engine.cpp:95-108 | the matcher check holds iff some entity value contains a match |
| Patterns.MatchesStepMeans | src/pattern_engine.cpp:82-111 | an event matches a step iff it has the step's type and every required entity, and, when the step has a matcher, some entity value matches it |
| Patterns.WalkBack | src/pattern_engine.cpp:32-60 | the backward walk never ends past the step it started at |
| Patterns.ScoreBands | src/pattern_engine.cpp:14-65 | a sequential score lies in [0, 1]. It is positive iff the event matches the last step (so no steps scores 0), it is 1 iff the sequence is complete, and every partial match scores below 0.5 |
| Patterns.WalkBackSound | src/pattern_engine.cpp:36-60 | a walk that finds every step found the earlier steps in the context, in order, each within the previous step's time limit of its successor |
| Patterns.ChainExtend | src/pattern_engine.cpp:49-52 | a chain in the older context extended by a matching newest event is a chain |
| Patterns.ChainWiden | src/pattern_engine.cpp:36 | a chain in the older context is a chain in the whole context |
| Patterns.FullMatchHasChain | src/pattern_engine.cpp:53-58 | a full match of a multi-step pattern has its earlier steps in the context, in order and within their limits |
| Patterns.CascadingFailure | src/pattern_engine.cpp:293-301 | the built-in cascade has three steps, from database.slow to user.error |
| Patterns.SequentialPattern.constructor | include/agentlog/pattern_engine.h:67-70 | a new pattern has its name and steps and a match count of 0 |
| Patterns.SequentialPattern.Match | src/pattern_engine.cpp:14-65 | the loop returns the sequential score, and the match count grows by exactly one on a full match and is unchanged otherwise |
| Patterns.DropOlder | src/pattern_engine.cpp:130-132 | popping keeps a suffix whose front is in the window, and drops only timestamps before the cutoff |
| Patterns.DropOlderIdempotent | src/pattern_engine.cpp:130-132 | pruning twice prunes no more |
| Patterns.DropOlderOfOrdered | src/pattern_engine.cpp:130-132 | on timestamps recorded in order, pruning keeps exactly those at or after the cutoff |
| Patterns.ScanEntries | src/pattern_engine.cpp:149-160 | the REPEATED scan keeps every deque and only prunes them |
| Patterns.ScanEntry | src/pattern_engine.cpp:149-160 | the scan leaves each value's deque either as it was or pruned |
| Patterns.ScanKeepsWindows | src/pattern_engine.cpp:149-160 | the scan changes no in-window deque |
| Patterns.PruneOneKeepsWindows | src/pattern_engine.cpp:150-155 | pruning one value's deque changes no value's in-window count |
| Patterns.RepeatedIff | src/pattern_engine.cpp:147-162 | REPEATED fires iff some entity value of the event has at least `threshold` timestamps inside the window |
| Patterns.ScanIdempotent | src/pattern_engine.cpp:147-162 | scanning an already scanned map changes nothing and finds the same |
| Patterns.BurstBands | src/pattern_engine.cpp:137-145 | a burst scores at most 1, positive iff the count reaches the threshold, then above 0.7, and exactly 1 from twice the threshold minus one |
| Patterns.BurstMonotone | src/pattern_engine.cpp:137-145 | more events in the window never lower the burst score |
| Patterns.RecordAppends | src/pattern_engine.cpp:183-185 | training appends the timestamp once per entity carrying a value, and to no other value |
| Patterns.FrequencyPattern.constructor | include/agentlog/pattern_engine.h:108-117 | a new pattern has its settings and empty histories |
| Patterns.FrequencyPattern.ScoreMeans | src/pattern_engine.cpp:117-171 | a frequency score is 0 for other event types and for ABSENCE, and at most 1. A burst is positive iff the in-window count reaches the threshold; a repeat is 1 iff some entity value has reached it in the window |
| Patterns.FrequencyPattern.PrunedIdempotent | src/pattern_engine.cpp:126-162 | matching the same event again prunes nothing more |
| Patterns.FrequencyPattern.PrunedKeepsScore | src/pattern_engine.cpp:126-162 | the pruning `match` does leaves the score of the same event unchanged |
| Patterns.FrequencyPattern.TrainedTimesEvents | src/pattern_engine.cpp:173-180 | training adds one timestamp per training for the configured event type and changes nothing for others |
| Patterns.FrequencyPattern.TrainedTimesEntities | src/pattern_engine.cpp:183-185 | training adds one timestamp per training and entity to each entity value's deque |
| Patterns.FrequencyPattern.Match | src/pattern_engine.cpp:117-171 | `match` returns the score of the history before the call and leaves the history pruned |
| Patterns.FrequencyPattern.ScanRepeated | src/pattern_engine.cpp:147-162 | the REPEATED loop prunes as the scan does and reports whether some value reached the threshold |
| Patterns.FrequencyPattern.Train | src/pattern_engine.cpp:173-186 | the history becomes its training on the event |
| Patterns.PopOlder | src/pattern_engine.cpp:130-132 | the `pop_front` loop leaves the pruned deque |
| Patterns.RetryStorm | src/pattern_engine.cpp:313-321 | the retry storm is a fresh BURST pattern on `api.retry` with threshold 10, a 30-second window and empty histories |
| Patterns.AuthFailure | src/pattern_engine.cpp:303-311 | the authentication-failure pattern is a fresh REPEATED pattern on `auth.failed` with threshold 5, a 60-second window and empty histories |
| Patterns.BuiltinFrequencies | src/pattern_engine.cpp:313-321 | at the retry storm's threshold of 10, 9 events in the window score 0, 10 score above 0.7 and 19 score 1 |
| Patterns.FieldValue | src/pattern_engine.cpp:213-227 | "message" and "event_type" read those fields. Any other name reads the entity of that name, and is none iff the event has no such entity |
| Patterns.RegexScore | src/pattern_engine.cpp:211-230 | the score is 0 or 1, and 1 iff the selected field exists and contains a match |
| Patterns.RegexFieldSelection | src/pattern_engine.cpp:215-226 | a missing entity scores 0 whatever the regex, and the two reserved names never read an entity |
| Patterns.Scored | src/pattern_engine.cpp:252-253 | every registered pattern paired with its score, in registration order |
| Patterns.Significant | src/pattern_engine.cpp:254-260 | exactly the matches scoring above 0.5, each from the input |
| Patterns.InsertPermutes | src/pattern_engine.cpp:264-265 | insertion adds exactly the new match |
| Patterns.InsertMembers | src/pattern_engine.cpp:264-265 | every element after insertion is the new match or an old one |
| Patterns.InsertSorted | src/pattern_engine.cpp:264-265 | insertion keeps scores non-increasing |
| Patterns.SortByScore | src/pattern_engine.cpp:264-265 | the result is a permutation of the input, ordered by non-increasing score |
| Patterns.Histories | include/agentlog/pattern_engine.h:135-136 | the history of each registered pattern, by position |
| Patterns.MatchCounts | include/agentlog/pattern_engine.h:88 | the match count of each registered pattern, by position |
| Patterns.Snapshots | src/pattern_engine.cpp:252-253 | every pattern paired with the score it has on the given histories |
| Patterns.ProgressStart | src/pattern_engine.cpp:252 | before the first turn nothing has been pruned or counted |
| Patterns.HistoriesDone | src/pattern_engine.cpp:252-261 | after the last turn every frequency pattern holds its pruned history, however often it is registered |
| Patterns.CountsDone | src/pattern_engine.cpp:252-261 | after the last turn every sequential pattern has counted its full match once per registration |
| Patterns.OccurrencesOfMember | src/pattern_engine.cpp:240-243 | every registered pattern occurs at least once |
| Patterns.PatternEngine.constructor | include/agentlog/pattern_engine.h:160-195 | an engine starts with no patterns |
| Patterns.PatternEngine.RegisterPattern | src/pattern_engine.cpp:240-243 | the pattern is appended |
| Patterns.PatternEngine.MatchPatterns | src/pattern_engine.cpp:245-268 | the result is a permutation of the patterns scoring above 0.5 in the state before the call, sorted by non-increasing score. Every frequency pattern is pruned and every sequential one counts its full match, once per registration |
| Patterns.PatternEngine.ScoreAll | src/pattern_engine.cpp:252-261 | the loop collects the significant snapshot scores in registration order |
| Patterns.PatternEngine.ScoreAt | src/pattern_engine.cpp:253-260 | one turn scores what its snapshot predicted and advances the progress |
| Patterns.PatternEngine.TrainAll | src/pattern_engine.cpp:270-275 | each frequency pattern is trained once per registration; the match counts and the pattern list are unchanged |
| Patterns.PatternEngine.TrainAt | src/pattern_engine.cpp:272-274 | one turn trains one pattern and leaves the match counts |

## Left out

- Network and process glue: the HTTP integrations to Jira, PagerDuty and Slack (libcurl), `curl_helper`, the dashboard and Slack simulators, the logger and its worker threads, and the anomaly detector (floating-point statistics).
- The notification loops over integrations and the `on_created` / `on_resolved` callbacks: they call code outside the model and change no modelled state.
- Mutexes and atomics: each call is one atomic step.
- Text rendering: `Incident::to_json` and `summary`, the incident `description` built by `evaluate_event` (stored as the empty string), `PatternMatch::description`, `SequentialPattern::description`, `FrequencyPattern::description`, `RegexPattern::description`, `CausalRelationship::description`, and the console output of `print_incident`, `print_ticket` and `print_banner`. Only *whether* a print function raises is modelled, because that decides the reply.
- Correlation `reason` and `metadata` texts are carried in the datatype, but no contract states their contents.
- Incidents.BuildIncident and Incidents.IncidentManager.EvaluateEvent: the code leaves `affected_users_count` of the incident built by `evaluate_event` uninitialised (src/incident_manager.cpp:146, a `size_t` member with no initialiser), and `to_json` later reads that indeterminate value. The model stores 0 there. `create_incident` sets it to 0, as modelled.
- Getters with no logic: `get_all_incidents`, `get_stats`, `get_active_correlations`, `get_known_relationships`, `PatternEngine::patterns()`, the Jira `/tickets` listing and the simulators' `/health`, `/v2/change/enqueue` and index pages.
- Drivers: `CorrelationEngine::process` (three calls in a row), `register_builtin_relationships` and `register_builtin_patterns`.
- Factory functions: `exception_pattern` and `memory_leak_pattern` (only `cascading_failure`, `retry_storm` and `auth_failure_pattern` are modelled).
- Regular expressions are not interpreted: `search` is a parameter. Nothing is proved about which texts a pattern matches.
- Floating point: scores, confidences and strengths are exact reals, so rounding is not modelled. `0.1 + 0.05` is exactly `0.15` here.
- Python timestamps: `datetime.now().isoformat()` becomes the handler's `now` parameter; its text format is not modelled.
- Patterns.PatternEngine.MatchPatterns: `std::sort` is not stable and the model's insertion sort is, so the contract states a permutation sorted by score and leaves the order among equal scores open, as the source does.
- Patterns.SequentialPattern.Match: `match_count_` is a `uint64_t` and is modelled unbounded; 2^64 full matches are out of reach.
- Correlations.CausalityAnalyzer.LearnFrom: `observed_count` (`uint64_t`) is an unbounded count, so the average divides by the count itself rather than by the count modulo 2^64. 2^64 observations of one pair are out of reach. The delay arithmetic itself is modulo 2^64, as in the code.
- Incidents.IncidentManager.GenerateIncidentId: the 64-bit counter `next_incident_id_` is unbounded.
- Encoding.Base64Encode: `val` is an unbounded integer. The C++ `int` overflows after four bytes, which is undefined behaviour but wraps on common compilers and leaves the low bits the encoder reads unchanged.
- Encoding.JsonEscape: the text `std::hex` prints for a negative `int` is modelled only for values a signed `char` can hold.
- Patterns.SequentialPattern.Match and Patterns.PatternEngine.TrainAll: `SequentialPattern::train` and `RegexPattern::train` do nothing, and the model has no method for them.
- Incidents.IncidentManager.AutoResolveStaleIncidents, Incidents.IncidentManager.ResolveAllStale, Incidents.IncidentManager.ResolveIfStale and Incidents.AutoResolved: the cutoff and every `resolved_at` come from one `now`. The code reads the clock once for the cutoff and again for each resolved incident, so its `resolved_at` values may be later than the cutoff plus the timeout, and may differ between incidents.
- Correlations.EventCorrelator.Cleanup and Correlations.EventCorrelator.Rebuild: the index contracts state which ids are listed under each key, not how many times. The rebuild pushes each surviving id once per key occurrence, so an event with two entities of the same value is listed twice under that value.
- JsonValue.PyEqReflexive and PagerDuty.SameKeyUpdates: decoded JSON numbers are exact reals, with no `NaN` or `Infinity`. Python's `json.loads` accepts `NaN`, which is not `==` to itself. In the code, an event whose dedup key is `NaN` therefore never finds an incident, and each such event creates a new one.
- Correlations.Involving, Correlations.RecentCorrelations and Correlations.RecentIds: their contracts state which elements are kept and how often, not in what order. The stored order is kept only by the filter definitions themselves.

## Findings

| source | as written | input that shows it | evidently intended | confidence | as-written member | corrected member |
|---|---|---|---|---|---|---|
| src/incident_manager.cpp:31-32 | `json_escape` tests `c < 32` on a plain `char`, which is signed on x86-64, so every byte ≥ 0x80 is written as `\u00ffffffXY` | the UTF-8 text "é" (bytes C3 A9) escapes to `\u00ffffffc3\u00ffffffa9`, which does not decode back to "é" | only bytes below 0x20 are escaped (compare as `unsigned char`), so every UTF-8 string round-trips under section 7 of RFC 8259 | not executed | Encoding.SignedCharBreaksUtf8 | Encoding.EscapeRoundTrip |
| demo/simulators/pagerduty/server.py:136-190 | the incident's `status` is set to the action verb (`trigger`, `acknowledge`, `resolve`), but the statistics count the past tense (`triggered`, `acknowledged`, `resolved`) | trigger A, acknowledge A, trigger B: two incidents, every status count 0 | the verbs are stored as the past-tense statuses, so the same events count one acknowledged and one triggered incident | not executed | PagerDuty.ScenarioAsWritten | PagerDuty.ScenarioCanonical |
