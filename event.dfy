/** The parts of a structured log event that the incident, correlation and
    pattern engines read. */
module Events {
  import opened Common

  /** A `LogEvent`: its semantic type, the instant it was created (in
      nanoseconds), its message, its entities in ascending name order, the
      emitting service, the distributed trace it belongs to (empty when
      none), its process-unique id and its anomaly score. */
  datatype LogEvent = LogEvent(
    eventType: string,
    timestamp: int,
    message: string,
    entities: ContextMap,
    serviceName: string,
    traceId: string,
    eventId: nat,
    anomalyScore: real)
}
