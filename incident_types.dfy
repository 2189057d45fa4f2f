/** The incident vocabulary of the C++ library: severities and statuses,
    the incident record, the manager's configuration and its statistics. */
module IncidentTypes {
  import opened Optional
  import Common

  /** Incident severities with ordinals LOW = 0 … CRITICAL = 3. */
  datatype IncidentSeverity = Low | Medium | High | Critical

  /** Incident lifecycle statuses with ordinals OPEN = 0 … CLOSED = 5. */
  datatype IncidentStatus = Open | Investigating | Identified | Monitoring | Resolved | Closed

  function SeverityOrdinal(s: IncidentSeverity): (n: nat)
    ensures n <= 3
  {
    match s
    case Low => 0
    case Medium => 1
    case High => 2
    case Critical => 3
  }

  /** The enumerator a raw value denotes, if any. */
  function IncidentSeverityOf(raw: int): (r: Option<IncidentSeverity>)
    ensures r.Some? <==> 0 <= raw <= 3
    ensures r.Some? ==> SeverityOrdinal(r.value) == raw
  {
    if raw == 0 then Some(Low)
    else if raw == 1 then Some(Medium)
    else if raw == 2 then Some(High)
    else if raw == 3 then Some(Critical)
    else None
  }

  /** `incident_severity_to_string` on a raw value. */
  function IncidentSeverityToString(raw: int): (name: string)
    ensures name == "UNKNOWN" <==> IncidentSeverityOf(raw).None?
  {
    match IncidentSeverityOf(raw)
    case Some(Low) => "LOW"
    case Some(Medium) => "MEDIUM"
    case Some(High) => "HIGH"
    case Some(Critical) => "CRITICAL"
    case None => "UNKNOWN"
  }

  /** The name of an enumerator. */
  function SeverityName(s: IncidentSeverity): string
  {
    IncidentSeverityToString(SeverityOrdinal(s))
  }

  /** Every enumerator reads back from its ordinal, and the four names are
      pairwise distinct upper-case words other than "UNKNOWN". */
  lemma SeverityNamesDistinct(a: IncidentSeverity, b: IncidentSeverity)
    ensures IncidentSeverityOf(SeverityOrdinal(a)) == Some(a)
    ensures SeverityName(a) != "UNKNOWN"
    ensures SeverityName(a) == SeverityName(b) ==> a == b
  {
  }

  /** An incident record. `resolvedAt` and `rootCause` are set on
      resolution; the external ticket ids stay empty in this model. */
  datatype Incident = Incident(
    incidentId: string,
    title: string,
    description: string,
    severity: IncidentSeverity,
    status: IncidentStatus,
    createdAt: int,
    resolvedAt: Option<int>,
    eventIds: seq<nat>,
    rootCause: Option<string>,
    rootCauseEventId: Option<nat>,
    anomalyScore: real,
    affectedServicesCount: nat,
    affectedUsersCount: nat,
    labels: map<string, string>,
    tags: seq<string>,
    jiraTicketId: Option<string>,
    pagerdutyIncidentId: Option<string>)

  /** `IncidentManagerConfig`. Durations are nanoseconds. */
  datatype Config = Config(
    anomalyThreshold: real,
    patternMatchThreshold: nat,
    correlatedEventsThreshold: nat,
    enableAutoResolution: bool,
    resolutionTimeout: int,
    enableDeduplication: bool,
    deduplicationWindow: int,
    criticalThreshold: real,
    highThreshold: real,
    mediumThreshold: real)

  /** The default member initialisers. */
  function DefaultConfig(): (c: Config)
    ensures c.criticalThreshold > c.highThreshold > c.mediumThreshold
    ensures c.mediumThreshold == c.anomalyThreshold
    ensures c.patternMatchThreshold == 1 && c.correlatedEventsThreshold == 3
    ensures c.enableAutoResolution && c.resolutionTimeout == 15 * Common.Minute
    ensures c.enableDeduplication && c.deduplicationWindow == 5 * Common.Minute
    ensures c.deduplicationWindow < c.resolutionTimeout
  {
    Config(0.75, 1, 3, true, 15 * Common.Minute, true, 5 * Common.Minute, 0.95, 0.85, 0.75)
  }

  /** `IncidentManager::Stats`. */
  datatype Stats = Stats(totalCreated: nat, currentlyOpen: nat, resolved: nat, deduplicated: nat)

  /** A statistics block as first constructed. */
  function InitialStats(): (s: Stats)
    ensures s.totalCreated == 0 && s.currentlyOpen == 0 && s.resolved == 0 && s.deduplicated == 0
  {
    Stats(0, 0, 0, 0)
  }

  /** The statuses that count as open: OPEN and INVESTIGATING. */
  predicate IsOpen(s: IncidentStatus) { s == Open || s == Investigating }

  /** The statuses duplicate detection skips: RESOLVED and CLOSED. */
  predicate IsFinished(s: IncidentStatus) { s == Resolved || s == Closed }
}
