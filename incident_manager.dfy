/** The incident manager of the C++ library: it turns events that cross a
    threshold into incidents, classifies their severity, names them
    `INC-nnnnnn`, suppresses duplicates, and tracks status changes,
    resolutions and the statistics counters. */
module Incidents {
  import opened Optional
  import Common
  import opened Events
  import opened IncidentTypes
  import opened Correlations
  import Text

  /** `size_t` arithmetic wraps modulo 2^64. */
  const SizeModulus: int := Common.Word64

  /** Adding `d` to a `size_t` counter. */
  function SizeAdd(x: nat, d: int): (r: nat)
    ensures r < SizeModulus
    ensures 0 <= x + d < SizeModulus ==> r == x + d
  {
    (x + d) % SizeModulus
  }

  // ---------------------------------------------------------------------
  // Severity tables of the integrations

  /** The Jira priority of a raw severity value; out-of-range values fall
      to the `default:` branch. */
  function JiraPriority(raw: int): (p: string)
    ensures p in {"Highest", "High", "Medium", "Low"}
  {
    match IncidentSeverityOf(raw)
    case Some(Critical) => "Highest"
    case Some(High) => "High"
    case Some(Medium) => "Medium"
    case Some(Low) => "Low"
    case None => "Medium"
  }

  /** The PagerDuty severity of a raw severity value. */
  function PagerDutySeverity(raw: int): (p: string)
    ensures p in {"critical", "error", "warning", "info"}
  {
    match IncidentSeverityOf(raw)
    case Some(Critical) => "critical"
    case Some(High) => "error"
    case Some(Medium) => "warning"
    case Some(Low) => "info"
    case None => "warning"
  }

  /** The Slack attachment colour of a raw severity value. */
  function SlackColor(raw: int): (c: string)
    ensures |c| == 7 && c[0] == '#'
  {
    match IncidentSeverityOf(raw)
    case Some(Critical) => "#FF0000"
    case Some(High) => "#FF6600"
    case Some(Medium) => "#FFCC00"
    case Some(Low) => "#36A64F"
    case None => "#CCCCCC"
  }

  /** The Slack emoji of a raw severity value. */
  function SlackEmoji(raw: int): (e: string)
    ensures |e| >= 2 && e[0] == ':' && e[|e| - 1] == ':'
  {
    match IncidentSeverityOf(raw)
    case Some(Critical) => ":fire:"
    case Some(High) => ":warning:"
    case Some(Medium) => ":large_orange_diamond:"
    case Some(Low) => ":information_source:"
    case None => ":grey_question:"
  }

  /** Each table tells the four severities apart; Jira and PagerDuty
      report an out-of-range value as MEDIUM, while Slack gives it a
      colour and an emoji of its own. */
  lemma SeverityTablesDistinguish(a: IncidentSeverity, b: IncidentSeverity, raw: int)
    ensures a != b ==> JiraPriority(SeverityOrdinal(a)) != JiraPriority(SeverityOrdinal(b))
    ensures a != b ==> PagerDutySeverity(SeverityOrdinal(a)) != PagerDutySeverity(SeverityOrdinal(b))
    ensures a != b ==> SlackColor(SeverityOrdinal(a)) != SlackColor(SeverityOrdinal(b))
    ensures a != b ==> SlackEmoji(SeverityOrdinal(a)) != SlackEmoji(SeverityOrdinal(b))
    ensures IncidentSeverityOf(raw).None? ==>
      && JiraPriority(raw) == JiraPriority(SeverityOrdinal(Medium))
      && PagerDutySeverity(raw) == PagerDutySeverity(SeverityOrdinal(Medium))
      && SlackColor(raw) != SlackColor(SeverityOrdinal(a))
      && SlackEmoji(raw) != SlackEmoji(SeverityOrdinal(a))
  {
    SeverityNamesDistinct(a, b);
    SeverityNamesDistinct(b, a);
  }

  // ---------------------------------------------------------------------
  // Severity classification

  /** `calculate_severity`: thresholds on the anomaly score, raised to
      HIGH by two or more pattern matches and to MEDIUM by five or more
      correlations. */
  function CalculateSeverity(config: Config, score: real, patternMatches: nat, correlatedEvents: nat): (s: IncidentSeverity)
    ensures s == Critical <==> score >= config.criticalThreshold
    ensures s == High <==>
      score < config.criticalThreshold && (score >= config.highThreshold || patternMatches >= 2)
    ensures s == Medium <==>
      && score < config.criticalThreshold && score < config.highThreshold && patternMatches < 2
      && (score >= config.mediumThreshold || correlatedEvents >= 5)
  {
    if score >= config.criticalThreshold then Critical
    else if score >= config.highThreshold || patternMatches >= 2 then High
    else if score >= config.mediumThreshold || correlatedEvents >= 5 then Medium
    else Low
  }

  /** More evidence never lowers the severity: it is monotone in the
      score, the pattern count and the correlation count, whatever the
      thresholds. */
  lemma SeverityMonotone(config: Config, s1: real, s2: real, p1: nat, p2: nat, c1: nat, c2: nat)
    requires s1 <= s2 && p1 <= p2 && c1 <= c2
    ensures SeverityOrdinal(CalculateSeverity(config, s1, p1, c1))
            <= SeverityOrdinal(CalculateSeverity(config, s2, p2, c2))
  {
  }

  // ---------------------------------------------------------------------
  // Incident ids

  /** `generate_incident_id` for counter value `n`: "INC-" and the counter
      zero-padded to six digits (never truncated). */
  function IncidentId(n: nat): (id: string)
    ensures |id| >= 10 && id[..4] == "INC-"
    ensures Text.AllDigits(id[4..]) && Text.DigitsValue(id[4..]) == n
  {
    var digits := Text.ZeroPad(Text.NatToDecimal(n), 6);
    Text.PaddedRoundTrip(n, 6);
    assert ("INC-" + digits)[4..] == digits;
    "INC-" + digits
  }

  /** Distinct counter values give distinct ids, so ids are never reused. */
  lemma IncidentIdInjective(m: nat, n: nat)
    requires IncidentId(m) == IncidentId(n)
    ensures m == n
  {
    assert IncidentId(m)[4..] == IncidentId(n)[4..];
  }

  /** The first id of a fresh manager is zero-padded to six digits. */
  lemma FirstIncidentId()
    ensures IncidentId(1) == "INC-000001"
  {
    assert Text.NatToDecimal(1) == "1";
    assert Text.Zeros(5) == "00000" by {
      assert Text.Zeros(0) == "";
    }
  }

  /** An id past 999999 is printed in full, never truncated. */
  lemma LongIncidentId()
    ensures IncidentId(1234567) == "INC-1234567"
  {
    assert Text.NatToDecimal(1234567) == "1234567" by {
      assert Text.NatToDecimal(1) == "1";
      assert Text.NatToDecimal(12) == "12";
      assert Text.NatToDecimal(123) == "123";
      assert Text.NatToDecimal(1234) == "1234";
      assert Text.NatToDecimal(12345) == "12345";
      assert Text.NatToDecimal(123456) == "123456";
    }
  }

  /** The counter value an incident id names (0 for text that is not one). */
  ghost function IdNumber(key: string): nat
  {
    if |key| >= 4 && Text.AllDigits(key[4..]) then Text.DigitsValue(key[4..]) else 0
  }

  /** Reading the number back from an id gives the counter value. */
  lemma IdNumberOfId(n: nat)
    ensures IdNumber(IncidentId(n)) == n
  {
  }

  // ---------------------------------------------------------------------
  // Building an incident from an event

  /** `evaluate_event`'s gate: the anomaly score, the pattern count or the
      correlation count reaches its threshold. */
  predicate ShouldCreate(config: Config, event: LogEvent, correlations: nat, patterns: nat)
  {
    || event.anomalyScore >= config.anomalyThreshold
    || patterns >= config.patternMatchThreshold
    || correlations >= config.correlatedEventsThreshold
  }

  /** All correlations' event ids, in order. */
  function Flatten(correlations: seq<Correlation>): (ids: seq<nat>)
  {
    if correlations == [] then []
    else Flatten(correlations[..|correlations| - 1]) + correlations[|correlations| - 1].eventIds
  }

  /** The event's own id followed by every correlation's ids. */
  function EventIdsOf(event: LogEvent, correlations: seq<Correlation>): seq<nat>
  {
    [event.eventId] + Flatten(correlations)
  }

  /** Every id of every correlation appears in the flattened list, and the
      list holds nothing else. */
  lemma {:induction false} FlattenContents(correlations: seq<Correlation>, id: nat)
    ensures id in Flatten(correlations) <==>
      exists i :: 0 <= i < |correlations| && id in correlations[i].eventIds
  {
    if correlations != [] {
      var init := correlations[..|correlations| - 1];
      FlattenContents(init, id);
      if id in Flatten(correlations) && id !in Flatten(init) {
        assert id in correlations[|correlations| - 1].eventIds;
      }
      if exists i :: 0 <= i < |correlations| && id in correlations[i].eventIds {
        var i :| 0 <= i < |correlations| && id in correlations[i].eventIds;
        if i < |init| {
          assert init[i] == correlations[i];
        }
      }
    }
  }

  /** `"pattern:" + p` for every matched pattern, in order. */
  function PatternTags(patterns: seq<string>): (tags: seq<string>)
    ensures |tags| == |patterns|
    ensures forall i :: 0 <= i < |patterns| ==> tags[i] == "pattern:" + patterns[i]
  {
    if patterns == [] then []
    else PatternTags(patterns[..|patterns| - 1]) + ["pattern:" + patterns[|patterns| - 1]]
  }

  /** The tags: "critical-anomaly" for a score of at least 0.9, then the
      pattern tags. */
  function TagsOf(event: LogEvent, patterns: seq<string>): seq<string>
  {
    (if event.anomalyScore >= 0.9 then ["critical-anomaly"] else []) + PatternTags(patterns)
  }

  /** The title: the first matched pattern, or else the event type. */
  function TitleOf(event: LogEvent, patterns: seq<string>): string
  {
    if patterns != [] then "Pattern detected: " + patterns[0] else "Anomaly in " + event.eventType
  }

  /** The labels: severity name, event type and, when known, the service. */
  function LabelsOf(event: LogEvent, severity: IncidentSeverity): (labels: map<string, string>)
    ensures "severity" in labels && labels["severity"] == SeverityName(severity)
    ensures "event_type" in labels && labels["event_type"] == event.eventType
    ensures "service" in labels <==> event.serviceName != ""
    ensures "service" in labels ==> labels["service"] == event.serviceName
    ensures labels.Keys <= {"severity", "event_type", "service"}
  {
    var base := map["severity" := SeverityName(severity), "event_type" := event.eventType];
    if event.serviceName != "" then base["service" := event.serviceName] else base
  }

  /** The incident `evaluate_event` builds before looking for duplicates. */
  function BuildIncident(config: Config, id: string, event: LogEvent, correlations: seq<Correlation>,
                         patterns: seq<string>, now: int): (inc: Incident)
    ensures inc.incidentId == id && inc.status == Open && inc.createdAt == now
    ensures inc.severity == CalculateSeverity(config, event.anomalyScore, |patterns|, |correlations|)
    ensures patterns != [] ==> inc.title == "Pattern detected: " + patterns[0]
    ensures patterns == [] ==> inc.title == "Anomaly in " + event.eventType
    ensures inc.eventIds == [event.eventId] + Flatten(correlations)
    ensures |inc.eventIds| >= 1 && inc.eventIds[0] == event.eventId
    ensures inc.affectedServicesCount <= 1
    ensures inc.labels == LabelsOf(event, inc.severity)
    ensures ("critical-anomaly" in inc.tags) <==> event.anomalyScore >= 0.9
    ensures "severity" in inc.labels && inc.labels["severity"] == SeverityName(inc.severity)
  {
    var severity := CalculateSeverity(config, event.anomalyScore, |patterns|, |correlations|);
    var tags := TagsOf(event, patterns);
    assert "critical-anomaly" !in PatternTags(patterns) by {
      forall i | 0 <= i < |patterns| ensures PatternTags(patterns)[i] != "critical-anomaly" {
        assert PatternTags(patterns)[i][0] == 'p';
      }
    }
    Incident(
      id,
      TitleOf(event, patterns),
      "",
      severity,
      Open,
      now,
      None,
      EventIdsOf(event, correlations),
      None,
      None,
      event.anomalyScore,
      if event.serviceName != "" then 1 else 0,
      0,
      LabelsOf(event, severity),
      tags,
      None,
      None)
  }

  /** An event let through by its score alone, under the default
      configuration, becomes at least a MEDIUM incident; a pattern match
      alone never yields CRITICAL. */
  lemma DefaultGateSeverity(event: LogEvent, correlations: nat, patterns: nat)
    ensures ShouldCreate(DefaultConfig(), event, correlations, patterns) && patterns == 0 && correlations < 3 ==>
      SeverityOrdinal(CalculateSeverity(DefaultConfig(), event.anomalyScore, patterns, correlations)) >= 1
    ensures event.anomalyScore < 0.95 ==>
      CalculateSeverity(DefaultConfig(), event.anomalyScore, patterns, correlations) != Critical
  {
  }

  // ---------------------------------------------------------------------
  // Duplicate detection

  /** How many entries of `ids` (with repetitions) are in `s`. */
  function OverlapCount(ids: seq<nat>, s: set<nat>): (n: nat)
    ensures n <= |ids|
    ensures (forall i :: 0 <= i < |ids| ==> ids[i] in s) ==> n == |ids|
    ensures (forall i :: 0 <= i < |ids| ==> ids[i] !in s) ==> n == 0
  {
    if ids == [] then 0
    else OverlapCount(ids[..|ids| - 1], s) + (if ids[|ids| - 1] in s then 1 else 0)
  }

  /** `existing` suppresses `incident`: created inside the window, not
      RESOLVED or CLOSED, and either the same title and severity or more
      than half of the new incident's ids (integer division) among its own. */
  predicate IsDuplicateOf(existing: Incident, incident: Incident, window: int)
  {
    && existing.createdAt >= incident.createdAt - window
    && !IsFinished(existing.status)
    && ((existing.title == incident.title && existing.severity == incident.severity)
        || OverlapCount(incident.eventIds, set x | x in existing.eventIds) > |incident.eventIds| / 2)
  }

  ghost predicate HasDuplicate(incidents: map<string, Incident>, incident: Incident, window: int)
  {
    exists k :: k in incidents && IsDuplicateOf(incidents[k], incident, window)
  }

  /** An incident whose ids all occur in a live incident inside the window
      is a duplicate of it; one with no event ids is a duplicate only by
      title and severity. */
  lemma OverlapDuplicate(existing: Incident, incident: Incident, window: int)
    requires existing.createdAt >= incident.createdAt - window && !IsFinished(existing.status)
    ensures incident.eventIds != [] && (forall i :: 0 <= i < |incident.eventIds| ==> incident.eventIds[i] in existing.eventIds) ==>
      IsDuplicateOf(existing, incident, window)
    ensures incident.eventIds == [] ==>
      (IsDuplicateOf(existing, incident, window) <==>
        existing.title == incident.title && existing.severity == incident.severity)
  {
  }

  /** The count of `incident_ids` entries found in the set built from
      `existing` (the inner loop of `find_duplicate`). */
  method CountOverlap(ids: seq<nat>, existing: seq<nat>) returns (overlap: nat)
    ensures overlap == OverlapCount(ids, set x | x in existing)
  {
    var existingSet := set x | x in existing;
    overlap := 0;
    var i := 0;
    while i < |ids|
      invariant 0 <= i <= |ids|
      invariant overlap == OverlapCount(ids[..i], existingSet)
    {
      assert ids[..i + 1][..i] == ids[..i];
      if ids[i] in existingSet {
        overlap := overlap + 1;
      }
      i := i + 1;
    }
    assert ids[..|ids|] == ids;
  }

  /** The event ids loop of `evaluate_event`. */
  method CollectEventIds(event: LogEvent, correlations: seq<Correlation>) returns (ids: seq<nat>)
    ensures ids == EventIdsOf(event, correlations)
  {
    ids := [event.eventId];
    var i := 0;
    while i < |correlations|
      invariant 0 <= i <= |correlations|
      invariant ids == [event.eventId] + Flatten(correlations[..i])
    {
      assert correlations[..i + 1][..i] == correlations[..i];
      ids := ids + correlations[i].eventIds;
      i := i + 1;
    }
    assert correlations[..|correlations|] == correlations;
  }

  /** The tags loop of `evaluate_event`. */
  method CollectTags(event: LogEvent, patterns: seq<string>) returns (tags: seq<string>)
    ensures tags == TagsOf(event, patterns)
  {
    tags := [];
    if event.anomalyScore >= 0.9 {
      tags := tags + ["critical-anomaly"];
    }
    ghost var head := tags;
    var i := 0;
    while i < |patterns|
      invariant 0 <= i <= |patterns|
      invariant tags == head + PatternTags(patterns[..i])
    {
      assert patterns[..i + 1][..i] == patterns[..i];
      tags := tags + ["pattern:" + patterns[i]];
      i := i + 1;
    }
    assert patterns[..|patterns|] == patterns;
  }

  // ---------------------------------------------------------------------
  // Resolution

  const AutoResolution: string := "Auto-resolved: no further activity"

  /** An incident after `resolve_incident` or auto-resolution. */
  function Resolve(inc: Incident, resolution: string, now: int): (r: Incident)
    ensures r.status == Resolved && r.resolvedAt == Some(now) && r.rootCause == Some(resolution)
    ensures r.(status := inc.status, resolvedAt := inc.resolvedAt, rootCause := inc.rootCause) == inc
  {
    inc.(status := Resolved, resolvedAt := Some(now), rootCause := Some(resolution))
  }

  /** Auto-resolution picks OPEN or INVESTIGATING incidents created
      before the cutoff. */
  predicate Stale(inc: Incident, cutoff: int)
  {
    IsOpen(inc.status) && inc.createdAt < cutoff
  }

  ghost function StaleKeys(incidents: map<string, Incident>, cutoff: int): set<string>
  {
    set k | k in incidents && Stale(incidents[k], cutoff)
  }

  /** The store after auto-resolution with the given cutoff: each stale
      incident resolved, every other one as it was. */
  ghost function AutoResolved(incidents: map<string, Incident>, cutoff: int, now: int): (r: map<string, Incident>)
    ensures r.Keys == incidents.Keys
    ensures forall k :: k in r ==>
      r[k] == if Stale(incidents[k], cutoff) then Resolve(incidents[k], AutoResolution, now) else incidents[k]
  {
    ResolvedAmong(incidents, incidents.Keys, cutoff, now)
  }

  /** Once every key is visited, the partial forms are the whole ones. */
  lemma AllSeen(original: map<string, Incident>, cutoff: int, now: int)
    ensures ResolvedAmong(original, original.Keys, cutoff, now) == AutoResolved(original, cutoff, now)
    ensures StaleAmong(original, original.Keys, cutoff) == StaleKeys(original, cutoff)
  {
  }

  /** The store after auto-resolving the keys in `seen`. */
  ghost function ResolvedAmong(original: map<string, Incident>, seen: set<string>, cutoff: int, now: int): map<string, Incident>
  {
    map k | k in original :: if k in seen && Stale(original[k], cutoff) then Resolve(original[k], AutoResolution, now) else original[k]
  }

  /** The stale keys among those in `seen`. */
  ghost function StaleAmong(original: map<string, Incident>, seen: set<string>, cutoff: int): set<string>
  {
    set k | k in seen && k in original && Stale(original[k], cutoff)
  }

  /** Visiting one more key resolves it if, and only if, it is stale. */
  lemma AutoResolveStep(original: map<string, Incident>, seen: set<string>, cutoff: int, now: int, id: string)
    requires id in original && id !in seen
    ensures ResolvedAmong(original, seen, cutoff, now)[id] == original[id]
    ensures Stale(original[id], cutoff) ==>
      && ResolvedAmong(original, seen + {id}, cutoff, now)
         == ResolvedAmong(original, seen, cutoff, now)[id := Resolve(original[id], AutoResolution, now)]
      && |StaleAmong(original, seen + {id}, cutoff)| == |StaleAmong(original, seen, cutoff)| + 1
    ensures !Stale(original[id], cutoff) ==>
      && ResolvedAmong(original, seen + {id}, cutoff, now) == ResolvedAmong(original, seen, cutoff, now)
      && StaleAmong(original, seen + {id}, cutoff) == StaleAmong(original, seen, cutoff)
  {
    if Stale(original[id], cutoff) {
      assert StaleAmong(original, seen + {id}, cutoff) == StaleAmong(original, seen, cutoff) + {id};
    }
  }

  ghost function OpenKeys(incidents: map<string, Incident>): set<string>
  {
    set k | k in incidents && IsOpen(incidents[k].status)
  }

  /** The counters after one stored incident. */
  function CountCreated(s: Stats): (r: Stats)
    ensures r.totalCreated == s.totalCreated + 1 && r.resolved == s.resolved && r.deduplicated == s.deduplicated
    ensures r.currentlyOpen == SizeAdd(s.currentlyOpen, 1)
  {
    s.(totalCreated := s.totalCreated + 1, currentlyOpen := SizeAdd(s.currentlyOpen, 1))
  }

  /** The counters after one suppressed duplicate. */
  function CountDuplicate(s: Stats): (r: Stats)
    ensures r.deduplicated == s.deduplicated + 1
    ensures r.totalCreated == s.totalCreated && r.resolved == s.resolved && r.currentlyOpen == s.currentlyOpen
  {
    s.(deduplicated := s.deduplicated + 1)
  }

  /** The counters after one resolution: `currently_open--`, `resolved++`. */
  function CountResolved(s: Stats): (r: Stats)
    ensures r.resolved == s.resolved + 1 && r.totalCreated == s.totalCreated && r.deduplicated == s.deduplicated
    ensures r.currentlyOpen == SizeAdd(s.currentlyOpen, -1)
  {
    s.(currentlyOpen := SizeAdd(s.currentlyOpen, -1), resolved := s.resolved + 1)
  }

  /** The statistics invariant: ids handed out are the stored incidents
      plus the suppressed duplicates, the store holds one incident per
      creation, and `currently_open` is created minus resolved, wrapped to
      `size_t`. */
  ghost predicate StatsInvariant(incidents: map<string, Incident>, stats: Stats, nextId: nat)
  {
    CountsAgree(stats, nextId, |incidents|) && KeysIssued(incidents, nextId)
  }

  ghost predicate CountsAgree(stats: Stats, nextId: nat, stored: nat)
  {
    && nextId == 1 + stats.totalCreated + stats.deduplicated
    && stored == stats.totalCreated
    && stats.currentlyOpen == (stats.totalCreated - stats.resolved) % SizeModulus
  }

  /** Every stored incident sits under its own id, issued below `nextId`. */
  ghost predicate KeysIssued(incidents: map<string, Incident>, nextId: nat)
  {
    forall k :: k in incidents ==> incidents[k].incidentId == k && IdNumber(k) < nextId
  }

  /** One more creation, resolution or duplicate keeps `currently_open`
      equal to created minus resolved, modulo 2^64. */
  lemma OpenCountStep(created: nat, resolved: nat, open: nat, dc: nat, dr: nat)
    requires open == (created - resolved) % SizeModulus
    ensures SizeAdd(open, dc - dr) == ((created + dc) - (resolved + dr)) % SizeModulus
  {
    var q := (created - resolved) / SizeModulus;
    assert created - resolved == q * SizeModulus + open;
    ShiftMod(open + dc - dr, q);
  }

  lemma ShiftMod(x: int, q: int)
    ensures (x + q * SizeModulus) % SizeModulus == x % SizeModulus
  {
    var r := x % SizeModulus;
    var d := x / SizeModulus;
    assert x + q * SizeModulus == (d + q) * SizeModulus + r;
  }

  class IncidentManager {
    const config: Config
    var incidents: map<string, Incident>
    var stats: Stats
    var nextId: nat

    ghost predicate Valid()
      reads this
    {
      StatsInvariant(incidents, stats, nextId)
    }

    /** A manager with the given configuration, no incidents, zeroed
        statistics and the id counter at 1. */
    constructor (config: Config)
      ensures Valid()
      ensures this.config == config && incidents == map[] && stats == InitialStats() && nextId == 1
    {
      this.config := config;
      incidents := map[];
      stats := InitialStats();
      nextId := 1;
    }

    /** `generate_incident_id`: the id for the current counter, which is
        post-incremented. */
    method GenerateIncidentId() returns (id: string)
      modifies this
      ensures id == IncidentId(old(nextId)) && nextId == old(nextId) + 1
      ensures incidents == old(incidents) && stats == old(stats)
    {
      id := IncidentId(nextId);
      nextId := nextId + 1;
    }

    /** `find_duplicate`: some stored incident that suppresses `incident`,
        in the map's unspecified iteration order, or none. */
    method FindDuplicate(incident: Incident) returns (dup: Option<string>)
      ensures dup.Some? ==> dup.value in incidents && IsDuplicateOf(incidents[dup.value], incident, config.deduplicationWindow)
      ensures dup.None? <==> !HasDuplicate(incidents, incident, config.deduplicationWindow)
    {
      var cutoff := incident.createdAt - config.deduplicationWindow;
      var remaining := incidents.Keys;
      while remaining != {}
        invariant remaining <= incidents.Keys
        invariant forall k :: k in incidents && k !in remaining ==>
          !IsDuplicateOf(incidents[k], incident, config.deduplicationWindow)
        decreases |remaining|
      {
        var id :| id in remaining;
        remaining := remaining - {id};
        var existing := incidents[id];
        if existing.createdAt < cutoff {
          continue;
        }
        if existing.status == Resolved || existing.status == Closed {
          continue;
        }
        if existing.title == incident.title && existing.severity == incident.severity {
          return Some(id);
        }
        var overlap := CountOverlap(incident.eventIds, existing.eventIds);
        if overlap > |incident.eventIds| / 2 {
          return Some(id);
        }
      }
      return None;
    }

    /** `evaluate_event`. Below every threshold nothing changes. Otherwise
        an id is consumed; a duplicate only bumps `deduplicated`, and a new
        incident is stored and counted as created and open. */
    method EvaluateEvent(event: LogEvent, correlations: seq<Correlation>, patterns: seq<string>, now: int)
      returns (r: Option<Incident>)
      requires Valid()
      modifies this
      ensures Valid()
      ensures !ShouldCreate(config, event, |correlations|, |patterns|) ==>
        r.None? && incidents == old(incidents) && stats == old(stats) && nextId == old(nextId)
      ensures ShouldCreate(config, event, |correlations|, |patterns|) ==>
        var inc := BuildIncident(config, IncidentId(old(nextId)), event, correlations, patterns, now);
        && nextId == old(nextId) + 1
        && inc.incidentId !in old(incidents)
        && (config.enableDeduplication && HasDuplicate(old(incidents), inc, config.deduplicationWindow) ==>
              && r.None? && incidents == old(incidents)
              && stats == CountDuplicate(old(stats)))
        && (!(config.enableDeduplication && HasDuplicate(old(incidents), inc, config.deduplicationWindow)) ==>
              && r == Some(inc) && incidents == old(incidents)[inc.incidentId := inc]
              && |incidents| == |old(incidents)| + 1
              && stats == CountCreated(old(stats)))
    {
      if !ShouldCreate(config, event, |correlations|, |patterns|) {
        return None;
      }
      var id := GenerateIncidentId();
      var severity := CalculateSeverity(config, event.anomalyScore, |patterns|, |correlations|);
      var title := if |patterns| > 0 then "Pattern detected: " + patterns[0] else "Anomaly in " + event.eventType;
      var eventIds := CollectEventIds(event, correlations);
      var services := if event.serviceName != "" then 1 else 0;
      var tags := CollectTags(event, patterns);
      var incident := Incident(id, title, "", severity, Open, now, None, eventIds, None, None,
                               event.anomalyScore, services, 0, LabelsOf(event, severity), tags, None, None);
      assert incident == BuildIncident(config, id, event, correlations, patterns, now);
      r := Admit(incident, old(nextId));
    }

    /** The tail of `evaluate_event`: with deduplication on, a duplicate
        is only counted; otherwise the incident is stored and counted. */
    method Admit(incident: Incident, ghost issued: nat) returns (r: Option<Incident>)
      requires nextId == issued + 1 && StatsInvariant(incidents, stats, issued)
      requires incident.incidentId == IncidentId(issued)
      modifies this
      ensures Valid() && nextId == old(nextId) && incident.incidentId !in old(incidents)
      ensures config.enableDeduplication && HasDuplicate(old(incidents), incident, config.deduplicationWindow) ==>
        r.None? && incidents == old(incidents) && stats == CountDuplicate(old(stats))
      ensures !(config.enableDeduplication && HasDuplicate(old(incidents), incident, config.deduplicationWindow)) ==>
        && r == Some(incident) && incidents == old(incidents)[incident.incidentId := incident]
        && |incidents| == |old(incidents)| + 1 && stats == CountCreated(old(stats))
    {
      StoreKeys(incidents, issued, incident);
      if config.enableDeduplication {
        var dup := FindDuplicate(incident);
        if dup.Some? {
          DuplicateKeepsInvariant(incidents, stats, issued);
          stats := CountDuplicate(stats);
          return None;
        }
      }
      Store(incident, issued);
      return Some(incident);
    }

    /** `create_incident`: a new OPEN incident with the given title,
        description, severity and event ids, stored and counted without a
        duplicate check. */
    method CreateIncident(title: string, description: string, severity: IncidentSeverity, eventIds: seq<nat>, now: int)
      returns (inc: Incident)
      requires Valid()
      modifies this
      ensures Valid()
      ensures inc == Incident(IncidentId(old(nextId)), title, description, severity, Open, now, None, eventIds,
                              None, None, 0.0, 0, 0, map[], [], None, None)
      ensures inc.incidentId !in old(incidents)
      ensures nextId == old(nextId) + 1 && incidents == old(incidents)[inc.incidentId := inc]
      ensures stats == CountCreated(old(stats))
    {
      var id := GenerateIncidentId();
      inc := Incident(id, title, description, severity, Open, now, None, eventIds,
                      None, None, 0.0, 0, 0, map[], [], None, None);
      Store(inc, old(nextId));
    }

    /** Storing a fresh incident whose id was just generated. */
    method Store(inc: Incident, ghost issued: nat)
      requires nextId == issued + 1 && StatsInvariant(incidents, stats, issued)
      requires inc.incidentId == IncidentId(issued)
      modifies this
      ensures Valid()
      ensures nextId == old(nextId) && inc.incidentId !in old(incidents)
      ensures incidents == old(incidents)[inc.incidentId := inc] && |incidents| == |old(incidents)| + 1
      ensures stats == CountCreated(old(stats))
    {
      StoreKeepsInvariant(incidents, stats, issued, inc);
      incidents := incidents[inc.incidentId := inc];
      stats := CountCreated(stats);
    }

    /** `update_status`: sets the status of a known incident; an unknown
        id changes nothing, and the statistics never change. */
    method UpdateStatus(id: string, status: IncidentStatus)
      requires Valid()
      modifies this
      ensures Valid()
      ensures stats == old(stats) && nextId == old(nextId)
      ensures id in old(incidents) ==> incidents == old(incidents)[id := old(incidents)[id].(status := status)]
      ensures id !in old(incidents) ==> incidents == old(incidents)
    {
      if id in incidents {
        incidents := incidents[id := incidents[id].(status := status)];
      }
    }

    /** `resolve_incident`: a known incident becomes RESOLVED with its
        resolution as root cause, and one count moves from open to
        resolved; resolving twice counts twice. */
    method ResolveIncident(id: string, resolution: string, now: int)
      requires Valid()
      modifies this
      ensures Valid()
      ensures nextId == old(nextId)
      ensures id in old(incidents) ==>
        && incidents == old(incidents)[id := Resolve(old(incidents)[id], resolution, now)]
        && stats == CountResolved(old(stats))
      ensures id !in old(incidents) ==> incidents == old(incidents) && stats == old(stats)
    {
      if id in incidents {
        ResolveKeepsInvariant(incidents, stats, nextId, id, Resolve(incidents[id], resolution, now));
        incidents := incidents[id := Resolve(incidents[id], resolution, now)];
        stats := CountResolved(stats);
      }
    }

    /** `get_incident`. */
    method GetIncident(id: string) returns (r: Option<Incident>)
      ensures r.Some? <==> id in incidents
      ensures r.Some? ==> r.value == incidents[id]
    {
      if id in incidents {
        r := Some(incidents[id]);
      } else {
        r := None;
      }
    }

    /** `get_open_incidents`: every OPEN or INVESTIGATING incident once,
        in the map's unspecified iteration order. */
    method GetOpenIncidents() returns (result: seq<Incident>)
      requires Valid()
      ensures forall i :: 0 <= i < |result| ==>
        result[i].incidentId in OpenKeys(incidents) && result[i] == incidents[result[i].incidentId]
      ensures forall i, j :: 0 <= i < j < |result| ==> result[i].incidentId != result[j].incidentId
      ensures forall k :: k in OpenKeys(incidents) ==> Listed(result, k)
    {
      result := [];
      ghost var seen: set<string> := {};
      var remaining := incidents.Keys;
      while remaining != {}
        invariant remaining <= incidents.Keys && seen == incidents.Keys - remaining
        invariant OpenListing(result, incidents, seen)
        decreases |remaining|
      {
        var id :| id in remaining;
        var incident := incidents[id];
        OpenListingStep(result, incidents, seen, id);
        if incident.status == Open || incident.status == Investigating {
          result := result + [incident];
        }
        VisitOne(incidents.Keys, remaining, seen, id);
        remaining := remaining - {id};
        seen := seen + {id};
      }
    }

    /** Incidents created before this instant count as stale. */
    function Cutoff(now: int): int
    {
      now - config.resolutionTimeout
    }

    /** `auto_resolve_stale_incidents`: when enabled, every OPEN or
        INVESTIGATING incident created before `now - resolution_timeout`
        is resolved with the auto-resolution text and counted; nothing else
        changes. When disabled, nothing changes. */
    method AutoResolveStaleIncidents(now: int)
      requires Valid()
      modifies this
      ensures Valid()
      ensures nextId == old(nextId) && incidents.Keys == old(incidents).Keys
      ensures !config.enableAutoResolution ==> incidents == old(incidents) && stats == old(stats)
      ensures config.enableAutoResolution ==>
        incidents == AutoResolved(old(incidents), Cutoff(now), now)
      ensures config.enableAutoResolution ==>
        stats.resolved == old(stats).resolved + |StaleKeys(old(incidents), Cutoff(now))|
      ensures stats.totalCreated == old(stats).totalCreated && stats.deduplicated == old(stats).deduplicated
    {
      if config.enableAutoResolution {
        ResolveAllStale(Cutoff(now), now);
      }
    }

    /** The loop of `auto_resolve_stale_incidents`: every open incident
        created before `cutoff` is resolved and counted. */
    method ResolveAllStale(cutoff: int, now: int)
      requires Valid()
      modifies this
      ensures Valid() && nextId == old(nextId)
      ensures incidents == AutoResolved(old(incidents), cutoff, now)
      ensures stats.resolved == old(stats).resolved + |StaleKeys(old(incidents), cutoff)|
      ensures stats.totalCreated == old(stats).totalCreated && stats.deduplicated == old(stats).deduplicated
    {
      ghost var original := incidents;
      ghost var seen: set<string> := {};
      assert original == ResolvedAmong(original, seen, cutoff, now);
      var remaining := incidents.Keys;
      while remaining != {}
        invariant Valid()
        invariant nextId == old(nextId) && remaining <= original.Keys && seen == original.Keys - remaining
        invariant incidents == ResolvedAmong(original, seen, cutoff, now)
        invariant stats.resolved == old(stats).resolved + |StaleAmong(original, seen, cutoff)|
        invariant stats.totalCreated == old(stats).totalCreated
        invariant stats.deduplicated == old(stats).deduplicated
        decreases |remaining|
      {
        var id :| id in remaining;
        VisitOne(original.Keys, remaining, seen, id);
        AutoResolveStep(original, seen, cutoff, now, id);
        ResolveIfStale(id, cutoff, now);
        remaining := remaining - {id};
        seen := seen + {id};
      }
      assert seen == original.Keys;
      AllSeen(original, cutoff, now);
    }

    /** One step of auto-resolution: the incident under `id` is resolved
        and counted if it is stale, and left alone otherwise. */
    method ResolveIfStale(id: string, cutoff: int, now: int)
      requires Valid() && id in incidents
      modifies this
      ensures Valid() && nextId == old(nextId)
      ensures Stale(old(incidents)[id], cutoff) ==>
        incidents == old(incidents)[id := Resolve(old(incidents)[id], AutoResolution, now)]
        && stats == CountResolved(old(stats))
      ensures !Stale(old(incidents)[id], cutoff) ==> incidents == old(incidents) && stats == old(stats)
    {
      var incident := incidents[id];
      if incident.status == Open || incident.status == Investigating {
        if incident.createdAt < cutoff {
          ResolveKeepsInvariant(incidents, stats, nextId, id, Resolve(incident, AutoResolution, now));
          incidents := incidents[id := Resolve(incident, AutoResolution, now)];
          stats := CountResolved(stats);
        }
      }
    }
  }

  /** `result` lists, once each and as stored, exactly the open incidents
      among the keys in `seen`. */
  ghost predicate OpenListing(result: seq<Incident>, incidents: map<string, Incident>, seen: set<string>)
  {
    && (forall i :: 0 <= i < |result| ==>
          result[i].incidentId in OpenKeys(incidents) && result[i].incidentId in seen
          && result[i] == incidents[result[i].incidentId])
    && (forall i, j :: 0 <= i < j < |result| ==> result[i].incidentId != result[j].incidentId)
    && (forall k :: k in OpenKeys(incidents) && k in seen ==> Listed(result, k))
  }

  /** Visiting one more key: an open incident is appended, any other is
      skipped. */
  lemma OpenListingStep(result: seq<Incident>, incidents: map<string, Incident>, seen: set<string>, id: string)
    requires OpenListing(result, incidents, seen) && id in incidents && id !in seen
    requires forall k :: k in incidents ==> incidents[k].incidentId == k
    ensures IsOpen(incidents[id].status) ==> OpenListing(result + [incidents[id]], incidents, seen + {id})
    ensures !IsOpen(incidents[id].status) ==> OpenListing(result, incidents, seen + {id})
  {
    var inc := incidents[id];
    assert inc.incidentId == id;
    if IsOpen(inc.status) {
      ListedExtend(result, inc);
      var r := result + [inc];
      forall i | 0 <= i < |r|
        ensures r[i].incidentId in OpenKeys(incidents) && r[i].incidentId in seen + {id}
        ensures r[i] == incidents[r[i].incidentId]
      {
        if i < |result| {
          assert r[i] == result[i];
        }
      }
    }
  }

  /** Moving one key from the unvisited to the visited keys. */
  lemma VisitOne(keys: set<string>, remaining: set<string>, seen: set<string>, id: string)
    requires remaining <= keys && seen == keys - remaining && id in remaining
    ensures id !in seen && remaining - {id} <= keys && seen + {id} == keys - (remaining - {id})
    ensures remaining - {id} == {} ==> seen + {id} == keys
    ensures |remaining - {id}| < |remaining|
  {
  }

  /** Some entry of `result` carries the id `k`. */
  ghost predicate Listed(result: seq<Incident>, k: string)
  {
    exists i :: 0 <= i < |result| && result[i].incidentId == k
  }

  /** Appending keeps every listed id listed and lists the new one. */
  lemma ListedExtend(result: seq<Incident>, inc: Incident)
    ensures Listed(result + [inc], inc.incidentId)
    ensures forall k :: Listed(result, k) ==> Listed(result + [inc], k)
  {
    assert (result + [inc])[|result|].incidentId == inc.incidentId;
    forall k | Listed(result, k) ensures Listed(result + [inc], k) {
      var i :| 0 <= i < |result| && result[i].incidentId == k;
      assert (result + [inc])[i].incidentId == k;
    }
  }

  /** Storing the incident named by the id just generated keeps the
      statistics invariant: its id was not in use, the store grows by one
      and the created and open counts move together. */
  lemma StoreKeepsInvariant(incidents: map<string, Incident>, stats: Stats, issued: nat, inc: Incident)
    requires StatsInvariant(incidents, stats, issued)
    requires inc.incidentId == IncidentId(issued)
    ensures inc.incidentId !in incidents
    ensures StatsInvariant(incidents[inc.incidentId := inc], CountCreated(stats), issued + 1)
  {
    StoreKeys(incidents, issued, inc);
    CountsCreated(stats, issued, |incidents|);
  }

  /** The id just issued is not yet stored, and storing under it keeps
      every key below the advanced counter. */
  lemma StoreKeys(incidents: map<string, Incident>, issued: nat, inc: Incident)
    requires KeysIssued(incidents, issued)
    requires inc.incidentId == IncidentId(issued)
    ensures inc.incidentId !in incidents && |incidents[inc.incidentId := inc]| == |incidents| + 1
    ensures KeysIssued(incidents[inc.incidentId := inc], issued + 1)
  {
    var id := inc.incidentId;
    IdNumberOfId(issued);
    var after := incidents[id := inc];
    forall k | k in after ensures after[k].incidentId == k && IdNumber(k) < issued + 1 {
      if k != id {
        assert k in incidents && after[k] == incidents[k];
      }
    }
  }

  lemma CountsCreated(stats: Stats, issued: nat, stored: nat)
    requires CountsAgree(stats, issued, stored)
    ensures CountsAgree(CountCreated(stats), issued + 1, stored + 1)
  {
    OpenCountStep(stats.totalCreated, stats.resolved, stats.currentlyOpen, 1, 0);
  }

  /** A suppressed duplicate consumes an id and counts it. */
  lemma DuplicateKeepsInvariant(incidents: map<string, Incident>, stats: Stats, issued: nat)
    requires StatsInvariant(incidents, stats, issued)
    ensures StatsInvariant(incidents, CountDuplicate(stats), issued + 1)
  {
  }

  /** Replacing a stored incident by its resolved form and counting the
      resolution keeps the statistics invariant. */
  lemma ResolveKeepsInvariant(incidents: map<string, Incident>, stats: Stats, next: nat, id: string, inc: Incident)
    requires StatsInvariant(incidents, stats, next)
    requires id in incidents && inc.incidentId == id
    ensures StatsInvariant(incidents[id := inc], CountResolved(stats), next)
  {
    assert incidents[id := inc].Keys == incidents.Keys;
    CountsResolved(stats, next, |incidents|);
  }

  lemma CountsResolved(stats: Stats, next: nat, stored: nat)
    requires CountsAgree(stats, next, stored)
    ensures CountsAgree(CountResolved(stats), next, stored)
  {
    OpenCountStep(stats.totalCreated, stats.resolved, stats.currentlyOpen, 0, 1);
  }

  /** Resolving the only incident of a fresh manager twice leaves
      `currently_open` at 2^64 - 1 and `resolved` at 2. */
  method ResolveTwiceWraps(m: IncidentManager, now: int) returns (inc: Incident)
    requires m.Valid() && m.incidents == map[] && m.stats == InitialStats() && m.nextId == 1
    modifies m
    ensures m.stats.currentlyOpen == SizeModulus - 1 && m.stats.resolved == 2 && m.stats.totalCreated == 1
  {
    inc := m.CreateIncident("outage", "", High, [], now);
    m.ResolveIncident(inc.incidentId, "fixed", now);
    m.ResolveIncident(inc.incidentId, "fixed again", now);
  }
}
