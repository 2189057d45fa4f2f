/** The correlation engine: an event correlator that indexes events by
    trace, entity value and service and derives correlations from those
    indices, a causality analyzer that learns counts for pairs of event
    types, and a root-cause heuristic over correlations. */
module Correlations {
  import opened Optional
  import opened Common
  import opened Events

  /** A `Correlation`: the correlated event ids (the triggering event's id
      last), the rule that found them, its confidence, a reason and the
      time span it covers. */
  datatype Correlation = Correlation(
    eventIds: seq<nat>,
    correlationType: string,
    confidence: real,
    reason: string,
    firstEventTime: int,
    lastEventTime: int,
    metadata: map<string, string>)

  /** A found correlation as a one-element list, a missing one as none. */
  function AsSeq(o: Option<Correlation>): seq<Correlation>
  {
    if o.Some? then [o.value] else []
  }

  // ---------------------------------------------------------------------
  // Indices: key -> ids in insertion order
  // ---------------------------------------------------------------------

  /** `index[key]` as `operator[]` and `find` see it: absent is empty. */
  function IdsUnder(index: map<string, seq<nat>>, key: string): seq<nat>
  {
    if key in index then index[key] else []
  }

  /** `after` holds exactly the entries of `before` plus `id` under each
      key of `keys`. */
  ghost predicate Extends(before: map<string, seq<nat>>, after: map<string, seq<nat>>, keys: set<string>, id: nat)
  {
    && (forall k, x :: k in after && x in after[k] ==> (k in before && x in before[k]) || (x == id && k in keys))
    && (forall k, x :: k in before && x in before[k] ==> k in after && x in after[k])
    && (forall k :: k in keys ==> k in after && id in after[k])
  }

  /** `index[key].push_back(id)`. */
  function Push(index: map<string, seq<nat>>, key: string, id: nat): map<string, seq<nat>>
  {
    index[key := IdsUnder(index, key) + [id]]
  }

  /** Pushing adds `id` under `key` and nothing else. */
  lemma PushExtends(index: map<string, seq<nat>>, key: string, id: nat)
    ensures Extends(index, Push(index, key, id), {key}, id)
  {
    var r := Push(index, key, id);
    assert r[key] == IdsUnder(index, key) + [id];
  }

  /** The trace and service indices skip an empty key. */
  function PushNonEmpty(index: map<string, seq<nat>>, key: string, id: nat): map<string, seq<nat>>
  {
    if key == "" then index else Push(index, key, id)
  }

  /** Filing under a possibly empty key adds `id` under the key if it is
      non-empty, and nothing otherwise. */
  lemma PushNonEmptyExtends(index: map<string, seq<nat>>, key: string, id: nat)
    ensures Extends(index, PushNonEmpty(index, key, id), if key != "" then {key} else {}, id)
  {
    if key != "" {
      PushExtends(index, key, id);
    }
  }

  /** The entity values of a context map. */
  ghost function ValuesOf(entities: seq<(string, string)>): set<string>
  {
    set i | 0 <= i < |entities| :: entities[i].1
  }

  /** The entity index after pushing `id` under every entity value, in
      the entities' (ascending key) order; an empty value is a key too. */
  function IndexEntities(index: map<string, seq<nat>>, entities: seq<(string, string)>, id: nat): map<string, seq<nat>>
    decreases |entities|
  {
    if entities == [] then index
    else Push(IndexEntities(index, entities[..|entities| - 1], id), entities[|entities| - 1].1, id)
  }

  /** Filing under every entity value adds `id` under exactly those
      values. */
  lemma {:induction false} IndexEntitiesExtends(index: map<string, seq<nat>>, entities: seq<(string, string)>, id: nat)
    ensures Extends(index, IndexEntities(index, entities, id), ValuesOf(entities), id)
    decreases |entities|
  {
    if entities != [] {
      var init := entities[..|entities| - 1];
      var last := entities[|entities| - 1].1;
      var mid := IndexEntities(index, init, id);
      IndexEntitiesExtends(index, init, id);
      PushExtends(mid, last, id);
      assert ValuesOf(entities) == ValuesOf(init) + {last} by {
        assert forall i :: 0 <= i < |init| ==> init[i] == entities[i];
      }
    }
  }

  /** Every id listed in the index names a stored event. */
  ghost predicate Stored(index: map<string, seq<nat>>, events: map<nat, LogEvent>)
  {
    forall k, x :: k in index && x in index[k] ==> x in events
  }

  /** Extending a consistent index with a stored id keeps it consistent. */
  lemma StoredExtends(before: map<string, seq<nat>>, after: map<string, seq<nat>>, keys: set<string>, id: nat,
                      events: map<nat, LogEvent>, events': map<nat, LogEvent>)
    requires Stored(before, events) && Extends(before, after, keys, id)
    requires events.Keys <= events'.Keys && id in events'
    ensures Stored(after, events')
  {
  }

  /** The three indices. */
  datatype IndexKind = ByTrace | ByEntity | ByService

  /** The keys an event is filed under in one index. */
  ghost function KeysOf(kind: IndexKind, e: LogEvent): set<string>
  {
    match kind
    case ByTrace => if e.traceId != "" then {e.traceId} else {}
    case ByEntity => ValuesOf(e.entities)
    case ByService => if e.serviceName != "" then {e.serviceName} else {}
  }

  /** The index lists exactly the events in `seen`, each under its keys. */
  ghost predicate IndexExact(index: map<string, seq<nat>>, events: map<nat, LogEvent>, seen: set<nat>, kind: IndexKind)
  {
    && (forall k, x :: k in index && x in index[k] ==> x in seen && x in events && k in KeysOf(kind, events[x]))
    && (forall k, x :: x in seen && x in events && k in KeysOf(kind, events[x]) ==> k in index && x in index[k])
  }

  /** Filing one more stored event keeps the index exact. */
  lemma ExactStep(before: map<string, seq<nat>>, after: map<string, seq<nat>>, events: map<nat, LogEvent>,
                  seen: set<nat>, kind: IndexKind, id: nat)
    requires IndexExact(before, events, seen, kind) && id in events
    requires Extends(before, after, KeysOf(kind, events[id]), id)
    ensures IndexExact(after, events, seen + {id}, kind)
  {
    forall k, x | x in seen + {id} && x in events && k in KeysOf(kind, events[x])
      ensures k in after && x in after[k]
    {
      if x != id {
        assert k in before && x in before[k];
      }
    }
  }

  /** All three indices list exactly the events in `seen`. */
  ghost predicate AllExact(traceIndex: map<string, seq<nat>>, entityIndex: map<string, seq<nat>>,
                           serviceIndex: map<string, seq<nat>>, events: map<nat, LogEvent>, seen: set<nat>)
  {
    && IndexExact(traceIndex, events, seen, ByTrace)
    && IndexExact(entityIndex, events, seen, ByEntity)
    && IndexExact(serviceIndex, events, seen, ByService)
  }

  /** Filing one more stored event in all three indices. */
  lemma RebuildStep(traceIndex: map<string, seq<nat>>, entityIndex: map<string, seq<nat>>,
                    serviceIndex: map<string, seq<nat>>, events: map<nat, LogEvent>, seen: set<nat>, id: nat)
    requires AllExact(traceIndex, entityIndex, serviceIndex, events, seen) && id in events
    ensures AllExact(PushNonEmpty(traceIndex, events[id].traceId, id),
                     IndexEntities(entityIndex, events[id].entities, id),
                     PushNonEmpty(serviceIndex, events[id].serviceName, id), events, seen + {id})
  {
    var e := events[id];
    PushNonEmptyExtends(traceIndex, e.traceId, id);
    IndexEntitiesExtends(entityIndex, e.entities, id);
    PushNonEmptyExtends(serviceIndex, e.serviceName, id);
    ExactStep(traceIndex, PushNonEmpty(traceIndex, e.traceId, id), events, seen, ByTrace, id);
    ExactStep(entityIndex, IndexEntities(entityIndex, e.entities, id), events, seen, ByEntity, id);
    ExactStep(serviceIndex, PushNonEmpty(serviceIndex, e.serviceName, id), events, seen, ByService, id);
  }

  /** An exact index lists stored events only. */
  lemma ExactIsStored(index: map<string, seq<nat>>, events: map<nat, LogEvent>, seen: set<nat>, kind: IndexKind)
    requires IndexExact(index, events, seen, kind)
    ensures Stored(index, events)
  {
  }

  // ---------------------------------------------------------------------
  // The four correlation rules, as specifications
  // ---------------------------------------------------------------------

  /** `ids` lists the set `s` once each, in some order, then `last`. */
  ghost predicate Enumerates(ids: seq<nat>, s: set<nat>, last: nat)
  {
    && |ids| == |s| + 1 && ids[|ids| - 1] == last
    && (forall x :: x in ids[..|ids| - 1] <==> x in s)
    && (forall i, j :: 0 <= i < j < |ids| - 1 ==> ids[i] != ids[j])
  }

  /** `correlate_by_trace_id`: the ids already filed under the event's
      non-empty trace id, then the event's own id, with confidence 1. */
  function TraceCorrelation(traceIndex: map<string, seq<nat>>, e: LogEvent): (r: Option<Correlation>)
    ensures r.Some? <==> e.traceId != "" && IdsUnder(traceIndex, e.traceId) != []
    ensures r.Some? ==>
      && r.value.eventIds == IdsUnder(traceIndex, e.traceId) + [e.eventId]
      && r.value.correlationType == "trace_id" && r.value.confidence == 1.0
      && r.value.firstEventTime == e.timestamp == r.value.lastEventTime
      && r.value.metadata == map["trace_id" := e.traceId]
  {
    if e.traceId == "" || IdsUnder(traceIndex, e.traceId) == [] then None
    else
      Some(Correlation(traceIndex[e.traceId] + [e.eventId], "trace_id", 1.0,
                       "Events share trace ID: " + e.traceId, e.timestamp, e.timestamp,
                       map["trace_id" := e.traceId]))
  }

  /** The ids other than `self` in a list. */
  ghost function Others(ids: seq<nat>, self: nat): set<nat>
  {
    set x | x in ids && x != self
  }

  /** The ids filed under any of the entity values, other than `self`. */
  ghost function RelatedIds(entityIndex: map<string, seq<nat>>, entities: seq<(string, string)>, self: nat): set<nat>
    decreases |entities|
  {
    if entities == [] then {}
    else RelatedIds(entityIndex, entities[..|entities| - 1], self)
         + Others(IdsUnder(entityIndex, entities[|entities| - 1].1), self)
  }

  /** An id is related exactly when it is not the event's own and some
      entity value of the event lists it. */
  lemma {:induction false} RelatedMembers(entityIndex: map<string, seq<nat>>, entities: seq<(string, string)>, self: nat, x: nat)
    ensures x in RelatedIds(entityIndex, entities, self) <==>
      x != self && exists i :: 0 <= i < |entities| && x in IdsUnder(entityIndex, entities[i].1)
    decreases |entities|
  {
    if entities != [] {
      var init := entities[..|entities| - 1];
      RelatedMembers(entityIndex, init, self, x);
      if x != self && x !in RelatedIds(entityIndex, entities, self) {
        forall i | 0 <= i < |entities| ensures x !in IdsUnder(entityIndex, entities[i].1) {
          if i < |init| {
            assert init[i] == entities[i];
          }
        }
      }
    }
  }

  /** `correlate_by_entities`: the related ids, each once, in the
      unspecified order of an `unordered_set`, then the event's own id. */
  ghost predicate EntityResult(entityIndex: map<string, seq<nat>>, e: LogEvent, r: Option<Correlation>)
  {
    var related := RelatedIds(entityIndex, e.entities, e.eventId);
    && (r.None? <==> related == {})
    && (r.Some? ==>
          && Enumerates(r.value.eventIds, related, e.eventId)
          && r.value == Correlation(r.value.eventIds, "entity", 0.8, "Events share common entities",
                                    e.timestamp, e.timestamp, map[]))
  }

  /** A listing of the related set decides the entity rule. */
  lemma EntityListing(ids: seq<nat>, entityIndex: map<string, seq<nat>>, e: LogEvent)
    requires forall x :: x in ids <==> x in RelatedIds(entityIndex, e.entities, e.eventId)
    requires forall i, j :: 0 <= i < j < |ids| ==> ids[i] != ids[j]
    requires |ids| == |RelatedIds(entityIndex, e.entities, e.eventId)| > 0
    ensures EntityResult(entityIndex, e, Some(Correlation(ids + [e.eventId], "entity", 0.8, "Events share common entities",
                                                          e.timestamp, e.timestamp, map[])))
  {
    assert (ids + [e.eventId])[..|ids|] == ids;
  }

  /** What `correlate` finds, given the results of the entity and temporal
      rules: trace, entity, service and temporal correlations in that
      order, each present when its rule fires. */
  ghost predicate Findings(found: seq<Correlation>, traceIndex: map<string, seq<nat>>, entityIndex: map<string, seq<nat>>,
                           serviceIndex: map<string, seq<nat>>, events: map<nat, LogEvent>, e: LogEvent)
  {
    exists en, tm | EntityResult(entityIndex, e, en) && TemporalResult(events, e, tm) ::
      found == AsSeq(TraceCorrelation(traceIndex, e)) + AsSeq(en)
               + AsSeq(ServiceCorrelation(serviceIndex, events, e)) + AsSeq(tm)
  }

  lemma FindingsOf(found: seq<Correlation>, traceIndex: map<string, seq<nat>>, entityIndex: map<string, seq<nat>>,
                   serviceIndex: map<string, seq<nat>>, events: map<nat, LogEvent>, e: LogEvent,
                   en: Option<Correlation>, tm: Option<Correlation>)
    requires EntityResult(entityIndex, e, en) && TemporalResult(events, e, tm)
    requires found == AsSeq(TraceCorrelation(traceIndex, e)) + AsSeq(en)
                      + AsSeq(ServiceCorrelation(serviceIndex, events, e)) + AsSeq(tm)
    ensures Findings(found, traceIndex, entityIndex, serviceIndex, events, e)
  {
  }

  /** Storing an event and filing its id keeps every index consistent. */
  lemma FilingKeepsStored(traceIndex: map<string, seq<nat>>, entityIndex: map<string, seq<nat>>,
                          serviceIndex: map<string, seq<nat>>, events: map<nat, LogEvent>, e: LogEvent)
    requires Stored(traceIndex, events) && Stored(entityIndex, events) && Stored(serviceIndex, events)
    ensures Stored(PushNonEmpty(traceIndex, e.traceId, e.eventId), events[e.eventId := e])
    ensures Stored(IndexEntities(entityIndex, e.entities, e.eventId), events[e.eventId := e])
    ensures Stored(PushNonEmpty(serviceIndex, e.serviceName, e.eventId), events[e.eventId := e])
  {
    var after := events[e.eventId := e];
    PushNonEmptyExtends(traceIndex, e.traceId, e.eventId);
    IndexEntitiesExtends(entityIndex, e.entities, e.eventId);
    PushNonEmptyExtends(serviceIndex, e.serviceName, e.eventId);
    StoredExtends(traceIndex, PushNonEmpty(traceIndex, e.traceId, e.eventId), KeysOf(ByTrace, e), e.eventId, events, after);
    StoredExtends(entityIndex, IndexEntities(entityIndex, e.entities, e.eventId), KeysOf(ByEntity, e), e.eventId, events, after);
    StoredExtends(serviceIndex, PushNonEmpty(serviceIndex, e.serviceName, e.eventId), KeysOf(ByService, e), e.eventId, events, after);
  }

  /** The ids of `ids`, in order, whose stored event is not older than
      `cutoff`. */
  function RecentIds(ids: seq<nat>, events: map<nat, LogEvent>, cutoff: int): (r: seq<nat>)
    ensures forall x :: x in r <==> x in ids && x in events && events[x].timestamp >= cutoff
    ensures |r| <= |ids|
    decreases |ids|
  {
    if ids == [] then []
    else
      var x := ids[|ids| - 1];
      var init := RecentIds(ids[..|ids| - 1], events, cutoff);
      assert forall y :: y in ids <==> y in ids[..|ids| - 1] || y == x by {
        assert ids == ids[..|ids| - 1] + [x];
      }
      if x in events && events[x].timestamp >= cutoff then init + [x] else init
  }

  /** Each kept id is kept as often as it is listed. */
  lemma {:induction false} RecentIdsCounts(ids: seq<nat>, events: map<nat, LogEvent>, cutoff: int)
    ensures forall x ::
      multiset(RecentIds(ids, events, cutoff))[x] == if x in events && events[x].timestamp >= cutoff then multiset(ids)[x] else 0
    decreases |ids|
  {
    if ids != [] {
      var x, init := ids[|ids| - 1], ids[..|ids| - 1];
      assert ids == init + [x];
      RecentIdsCounts(init, events, cutoff);
    }
  }

  /** `correlate_by_service`: the ids filed under the event's non-empty
      service whose events are at most one minute older than it, then the
      event's own id; none when no such id remains. */
  function ServiceCorrelation(serviceIndex: map<string, seq<nat>>, events: map<nat, LogEvent>, e: LogEvent): (r: Option<Correlation>)
    ensures r.Some? <==>
      e.serviceName != "" &&
      exists x :: x in IdsUnder(serviceIndex, e.serviceName) && x in events && events[x].timestamp >= e.timestamp - Minute
    ensures r.Some? ==>
      && r.value.eventIds == RecentIds(IdsUnder(serviceIndex, e.serviceName), events, e.timestamp - Minute) + [e.eventId]
      && r.value.correlationType == "service" && r.value.confidence == 0.6
      && r.value.metadata == map["service" := e.serviceName]
  {
    if e.serviceName == "" || IdsUnder(serviceIndex, e.serviceName) == [] then None
    else
      var recent := RecentIds(serviceIndex[e.serviceName], events, e.timestamp - Minute);
      if recent == [] then None
      else
        assert recent[0] in recent;
        Some(Correlation(recent + [e.eventId], "service", 0.6, "Events from same service: " + e.serviceName,
                         e.timestamp, e.timestamp, map["service" := e.serviceName]))
  }

  /** `|a - b|`. */
  function AbsDiff(a: int, b: int): nat
  {
    if a >= b then a - b else b - a
  }

  /** `duration_cast<seconds>(abs(a - b))`: whole seconds, truncated. */
  function SecondsApart(a: int, b: int): nat
  {
    AbsDiff(a, b) / Second
  }

  /** Truncation makes the five-second window reach up to, but not
      including, six seconds. */
  lemma TemporalWindow(a: int, b: int)
    ensures SecondsApart(a, b) <= 5 <==> AbsDiff(a, b) < 6 * Second
  {
  }

  /** The other stored events within five whole seconds of `e`. */
  ghost function NearbyIds(events: map<nat, LogEvent>, e: LogEvent): set<nat>
  {
    set x | x in events && x != e.eventId && SecondsApart(e.timestamp, events[x].timestamp) <= 5
  }

  /** `correlate_by_time`: at least two nearby events, each once in the
      unspecified order of the event table, then the event's own id. */
  ghost predicate TemporalResult(events: map<nat, LogEvent>, e: LogEvent, r: Option<Correlation>)
  {
    var nearby := NearbyIds(events, e);
    && (r.None? <==> |nearby| < 2)
    && (r.Some? ==>
          && Enumerates(r.value.eventIds, nearby, e.eventId)
          && r.value == Correlation(r.value.eventIds, "temporal", 0.4, "Events occurred within 5 seconds",
                                    e.timestamp, e.timestamp, map[]))
  }

  /** `nearby` lists, once each, the nearby events among `seen`. */
  ghost predicate NearbyListing(nearby: seq<nat>, events: map<nat, LogEvent>, e: LogEvent, seen: set<nat>)
  {
    && (forall x :: x in nearby <==> x in seen && x in NearbyIds(events, e))
    && (forall i, j :: 0 <= i < j < |nearby| ==> nearby[i] != nearby[j])
  }

  /** Visiting one more stored event. */
  lemma NearbyStep(nearby: seq<nat>, events: map<nat, LogEvent>, e: LogEvent, seen: set<nat>, id: nat)
    requires NearbyListing(nearby, events, e, seen) && id in events && id !in seen
    ensures SecondsApart(e.timestamp, events[id].timestamp) <= 5 && id != e.eventId ==>
      NearbyListing(nearby + [id], events, e, seen + {id})
    ensures !(SecondsApart(e.timestamp, events[id].timestamp) <= 5 && id != e.eventId) ==>
      NearbyListing(nearby, events, e, seen + {id})
  {
  }

  /** The complete listing decides the temporal rule. */
  lemma NearbyResult(nearby: seq<nat>, events: map<nat, LogEvent>, e: LogEvent)
    requires NearbyListing(nearby, events, e, events.Keys)
    ensures |nearby| == |NearbyIds(events, e)|
    ensures |nearby| >= 2 ==>
      TemporalResult(events, e, Some(Correlation(nearby + [e.eventId], "temporal", 0.4, "Events occurred within 5 seconds",
                                                 e.timestamp, e.timestamp, map[])))
    ensures |nearby| < 2 ==> TemporalResult(events, e, None)
  {
    DistinctCard(nearby, NearbyIds(events, e));
    assert (nearby + [e.eventId])[..|nearby|] == nearby;
  }

  /** The stored correlations, in order, that list `id`. */
  function Involving(correlations: seq<Correlation>, id: nat): (r: seq<Correlation>)
    ensures forall c :: c in r <==> c in correlations && id in c.eventIds
    ensures |r| <= |correlations|
    decreases |correlations|
  {
    if correlations == [] then []
    else
      var c := correlations[|correlations| - 1];
      var init := correlations[..|correlations| - 1];
      assert correlations == init + [c];
      if id in c.eventIds then Involving(init, id) + [c] else Involving(init, id)
  }

  /** Each listed correlation is listed as often as it is stored. */
  lemma {:induction false} InvolvingCounts(correlations: seq<Correlation>, id: nat)
    ensures forall c ::
      multiset(Involving(correlations, id))[c] == if id in c.eventIds then multiset(correlations)[c] else 0
    decreases |correlations|
  {
    if correlations != [] {
      var c, init := correlations[|correlations| - 1], correlations[..|correlations| - 1];
      assert correlations == init + [c];
      InvolvingCounts(init, id);
    }
  }

  /** The events `cleanup` keeps: those not older than the cutoff. */
  function RecentEvents(events: map<nat, LogEvent>, cutoff: int): (r: map<nat, LogEvent>)
    ensures r.Keys <= events.Keys
    ensures forall x :: x in r ==> r[x] == events[x] && r[x].timestamp >= cutoff
    ensures forall x :: x in events && events[x].timestamp >= cutoff ==> x in r
  {
    map x | x in events && events[x].timestamp >= cutoff :: events[x]
  }

  /** `remove_if` on the correlations: the ones whose last event is not
      older than the cutoff, in their stored order. */
  function RecentCorrelations(correlations: seq<Correlation>, cutoff: int): (r: seq<Correlation>)
    ensures forall c :: c in r <==> c in correlations && c.lastEventTime >= cutoff
    ensures |r| <= |correlations|
    decreases |correlations|
  {
    if correlations == [] then []
    else
      var c := correlations[|correlations| - 1];
      var init := correlations[..|correlations| - 1];
      assert correlations == init + [c];
      if c.lastEventTime >= cutoff then RecentCorrelations(init, cutoff) + [c] else RecentCorrelations(init, cutoff)
  }

  /** Each kept correlation is kept as often as it is stored. */
  lemma {:induction false} RecentCorrelationsCounts(correlations: seq<Correlation>, cutoff: int)
    ensures forall c ::
      multiset(RecentCorrelations(correlations, cutoff))[c] == if c.lastEventTime >= cutoff then multiset(correlations)[c] else 0
    decreases |correlations|
  {
    if correlations != [] {
      var c, init := correlations[|correlations| - 1], correlations[..|correlations| - 1];
      assert correlations == init + [c];
      RecentCorrelationsCounts(init, cutoff);
    }
  }

  /** Filtering the correlations twice with the same cutoff filters them
      once. */
  lemma {:induction false} RecentCorrelationsIdempotent(correlations: seq<Correlation>, cutoff: int)
    ensures RecentCorrelations(RecentCorrelations(correlations, cutoff), cutoff) == RecentCorrelations(correlations, cutoff)
    decreases |correlations|
  {
    if correlations != [] {
      var c := correlations[|correlations| - 1];
      var init := correlations[..|correlations| - 1];
      RecentCorrelationsIdempotent(init, cutoff);
      var once := RecentCorrelations(init, cutoff);
      if c.lastEventTime >= cutoff {
        assert (once + [c])[..|once + [c]| - 1] == once;
      }
    }
  }

  // ---------------------------------------------------------------------
  // EventCorrelator
  // ---------------------------------------------------------------------

  /** `EventCorrelator`: stored events by id, the correlations found so
      far, and the trace, entity-value and service indices. */
  class EventCorrelator {
    var events: map<nat, LogEvent>
    var correlations: seq<Correlation>
    var traceIndex: map<string, seq<nat>>
    var entityIndex: map<string, seq<nat>>
    var serviceIndex: map<string, seq<nat>>

    /** Every indexed id names a stored event. */
    ghost predicate Valid()
      reads this
    {
      Stored(traceIndex, events) && Stored(entityIndex, events) && Stored(serviceIndex, events)
    }

    constructor()
      ensures Valid()
      ensures events == map[] && correlations == []
      ensures traceIndex == map[] && entityIndex == map[] && serviceIndex == map[]
    {
      events := map[];
      correlations := [];
      traceIndex := map[];
      entityIndex := map[];
      serviceIndex := map[];
    }

    /** `correlate`: the four rules run against the state before the event
        is stored; then the event is stored under its id, filed in the
        three indices, and the correlations found are appended. */
    method Correlate(e: LogEvent) returns (found: seq<Correlation>)
      requires Valid()
      modifies this
      ensures Valid()
      ensures Findings(found, old(traceIndex), old(entityIndex), old(serviceIndex), old(events), e)
      ensures events == old(events)[e.eventId := e]
      ensures traceIndex == PushNonEmpty(old(traceIndex), e.traceId, e.eventId)
      ensures entityIndex == IndexEntities(old(entityIndex), e.entities, e.eventId)
      ensures serviceIndex == PushNonEmpty(old(serviceIndex), e.serviceName, e.eventId)
      ensures correlations == old(correlations) + found
    {
      found := ApplyRules(e);
      FilingKeepsStored(traceIndex, entityIndex, serviceIndex, events, e);
      events := events[e.eventId := e];
      File(e.eventId, e);
      correlations := correlations + found;
    }

    /** The four rules of `correlate`, in order, against the current state. */
    method ApplyRules(e: LogEvent) returns (found: seq<Correlation>)
      ensures Findings(found, traceIndex, entityIndex, serviceIndex, events, e)
    {
      var trace := TraceCorrelation(traceIndex, e);
      var entity := CorrelateByEntities(e);
      var service := CorrelateByService(e);
      var temporal := CorrelateByTime(e);
      found := AsSeq(trace) + AsSeq(entity) + AsSeq(service) + AsSeq(temporal);
      FindingsOf(found, traceIndex, entityIndex, serviceIndex, events, e, entity, temporal);
    }

    /** Filing an event's id in the three indices, as `correlate` and the
        rebuild in `cleanup` both do. */
    method File(id: nat, e: LogEvent)
      modifies this
      ensures traceIndex == PushNonEmpty(old(traceIndex), e.traceId, id)
      ensures entityIndex == IndexEntities(old(entityIndex), e.entities, id)
      ensures serviceIndex == PushNonEmpty(old(serviceIndex), e.serviceName, id)
      ensures events == old(events) && correlations == old(correlations)
    {
      if e.traceId != "" {
        traceIndex := Push(traceIndex, e.traceId, id);
      }
      var i := 0;
      while i < |e.entities|
        invariant 0 <= i <= |e.entities|
        invariant entityIndex == IndexEntities(old(entityIndex), e.entities[..i], id)
        invariant traceIndex == PushNonEmpty(old(traceIndex), e.traceId, id)
        invariant serviceIndex == old(serviceIndex) && events == old(events) && correlations == old(correlations)
      {
        assert e.entities[..i + 1][..i] == e.entities[..i];
        entityIndex := Push(entityIndex, e.entities[i].1, id);
        i := i + 1;
      }
      assert e.entities[..i] == e.entities;
      if e.serviceName != "" {
        serviceIndex := Push(serviceIndex, e.serviceName, id);
      }
    }

    /** `correlate_by_entities`: collects the related ids into a set, then
        lists that set. */
    method CorrelateByEntities(e: LogEvent) returns (r: Option<Correlation>)
      ensures EntityResult(entityIndex, e, r)
    {
      var related: set<nat> := {};
      var i := 0;
      while i < |e.entities|
        invariant 0 <= i <= |e.entities|
        invariant related == RelatedIds(entityIndex, e.entities[..i], e.eventId)
      {
        assert e.entities[..i + 1][..i] == e.entities[..i];
        var value := e.entities[i].1;
        var others: set<nat> := {};
        if value in entityIndex {
          others := OthersIn(entityIndex[value], e.eventId);
        }
        related := related + others;
        i := i + 1;
      }
      assert e.entities[..i] == e.entities;
      if related == {} {
        return None;
      }
      var ids := Enumerate(related);
      r := Some(Correlation(ids + [e.eventId], "entity", 0.8, "Events share common entities",
                            e.timestamp, e.timestamp, map[]));
      EntityListing(ids, entityIndex, e);
    }

    /** `correlate_by_service`: filters the service's ids by age. */
    method CorrelateByService(e: LogEvent) returns (r: Option<Correlation>)
      ensures r == ServiceCorrelation(serviceIndex, events, e)
    {
      if e.serviceName == "" || e.serviceName !in serviceIndex || serviceIndex[e.serviceName] == [] {
        return None;
      }
      var ids := serviceIndex[e.serviceName];
      var cutoff := e.timestamp - Minute;
      var recent: seq<nat> := [];
      var i := 0;
      while i < |ids|
        invariant 0 <= i <= |ids|
        invariant recent == RecentIds(ids[..i], events, cutoff)
      {
        assert ids[..i + 1][..i] == ids[..i];
        if ids[i] in events && events[ids[i]].timestamp >= cutoff {
          recent := recent + [ids[i]];
        }
        i := i + 1;
      }
      assert ids[..i] == ids;
      if recent == [] {
        return None;
      }
      r := Some(Correlation(recent + [e.eventId], "service", 0.6, "Events from same service: " + e.serviceName,
                            e.timestamp, e.timestamp, map["service" := e.serviceName]));
    }

    /** `correlate_by_time`: scans the event table in its unspecified
        order for other events within five whole seconds. */
    method CorrelateByTime(e: LogEvent) returns (r: Option<Correlation>)
      ensures TemporalResult(events, e, r)
    {
      var nearby: seq<nat> := [];
      var remaining := events.Keys;
      ghost var seen: set<nat> := {};
      while remaining != {}
        invariant remaining <= events.Keys && seen == events.Keys - remaining
        invariant NearbyListing(nearby, events, e, seen)
        decreases |remaining|
      {
        var id :| id in remaining;
        NearbyStep(nearby, events, e, seen, id);
        if SecondsApart(e.timestamp, events[id].timestamp) <= 5 && id != e.eventId {
          nearby := nearby + [id];
        }
        remaining := remaining - {id};
        seen := seen + {id};
      }
      assert seen == events.Keys;
      NearbyResult(nearby, events, e);
      if |nearby| < 2 {
        return None;
      }
      r := Some(Correlation(nearby + [e.eventId], "temporal", 0.4, "Events occurred within 5 seconds",
                            e.timestamp, e.timestamp, map[]));
    }

    /** `get_correlations_for_event`: the stored correlations listing
        `id`, in stored order. */
    method GetCorrelationsForEvent(id: nat) returns (result: seq<Correlation>)
      ensures result == Involving(correlations, id)
    {
      result := [];
      var i := 0;
      while i < |correlations|
        invariant 0 <= i <= |correlations|
        invariant result == Involving(correlations[..i], id)
      {
        assert correlations[..i + 1][..i] == correlations[..i];
        if id in correlations[i].eventIds {
          result := result + [correlations[i]];
        }
        i := i + 1;
      }
      assert correlations[..i] == correlations;
    }

    /** `cleanup(max_age)` with `cutoff` = now - max_age: old events and
        correlations go, and the indices are rebuilt from the events that
        remain, so each lists exactly the stored events filed under it. */
    method Cleanup(cutoff: int)
      modifies this
      ensures Valid()
      ensures events == RecentEvents(old(events), cutoff)
      ensures correlations == RecentCorrelations(old(correlations), cutoff)
      ensures IndexExact(traceIndex, events, events.Keys, ByTrace)
      ensures IndexExact(entityIndex, events, events.Keys, ByEntity)
      ensures IndexExact(serviceIndex, events, events.Keys, ByService)
    {
      EraseOlderThan(cutoff);
      correlations := RecentCorrelations(correlations, cutoff);
      Rebuild();
    }

    /** The erase loop of `cleanup`. */
    method EraseOlderThan(cutoff: int)
      modifies this
      ensures events == RecentEvents(old(events), cutoff)
      ensures correlations == old(correlations)
    {
      ghost var original := events;
      var remaining := events.Keys;
      while remaining != {}
        invariant remaining <= original.Keys
        invariant forall x :: x in events <==> x in original && (x in remaining || original[x].timestamp >= cutoff)
        invariant forall x :: x in events ==> events[x] == original[x]
        invariant correlations == old(correlations)
        decreases |remaining|
      {
        var id :| id in remaining;
        if events[id].timestamp < cutoff {
          events := events - {id};
        }
        remaining := remaining - {id};
      }
      assert events == RecentEvents(original, cutoff);
    }

    /** The index rebuild of `cleanup`, over the events in their
        unspecified order. */
    method Rebuild()
      modifies this
      ensures events == old(events) && correlations == old(correlations)
      ensures IndexExact(traceIndex, events, events.Keys, ByTrace)
      ensures IndexExact(entityIndex, events, events.Keys, ByEntity)
      ensures IndexExact(serviceIndex, events, events.Keys, ByService)
      ensures Valid()
    {
      traceIndex := map[];
      entityIndex := map[];
      serviceIndex := map[];
      var remaining := events.Keys;
      ghost var seen: set<nat> := {};
      while remaining != {}
        invariant remaining <= events.Keys && seen == events.Keys - remaining
        invariant events == old(events) && correlations == old(correlations)
        invariant AllExact(traceIndex, entityIndex, serviceIndex, events, seen)
        decreases |remaining|
      {
        var id :| id in remaining;
        RebuildStep(traceIndex, entityIndex, serviceIndex, events, seen, id);
        File(id, events[id]);
        remaining := remaining - {id};
        seen := seen + {id};
      }
      assert seen == events.Keys;
      ExactIsStored(traceIndex, events, events.Keys, ByTrace);
      ExactIsStored(entityIndex, events, events.Keys, ByEntity);
      ExactIsStored(serviceIndex, events, events.Keys, ByService);
    }
  }

  /** A list of distinct elements whose members form `s` has |s| elements. */
  lemma {:induction false} DistinctCard(xs: seq<nat>, s: set<nat>)
    requires forall x :: x in xs <==> x in s
    requires forall i, j :: 0 <= i < j < |xs| ==> xs[i] != xs[j]
    ensures |xs| == |s|
    decreases |xs|
  {
    if xs != [] {
      var init := xs[..|xs| - 1];
      var last := xs[|xs| - 1];
      forall i | 0 <= i < |init| ensures init[i] != last {
        assert init[i] == xs[i];
      }
      forall x ensures x in init <==> x in s - {last} {
        if x in init {
          var i :| 0 <= i < |init| && init[i] == x;
          assert xs[i] == x;
        }
        if x in s - {last} {
          assert x in xs;
          var i :| 0 <= i < |xs| && xs[i] == x;
          assert i < |init|;
          assert init[i] == x;
        }
      }
      DistinctCard(init, s - {last});
    }
  }

  /** The inner loop of `correlate_by_entities`: the ids of one entity
      value other than the event's own. */
  method OthersIn(ids: seq<nat>, self: nat) returns (others: set<nat>)
    ensures others == Others(ids, self)
  {
    others := {};
    var j := 0;
    while j < |ids|
      invariant 0 <= j <= |ids|
      invariant others == Others(ids[..j], self)
    {
      assert ids[..j + 1] == ids[..j] + [ids[j]];
      if ids[j] != self {
        others := others + {ids[j]};
      }
      j := j + 1;
    }
    assert ids[..j] == ids;
  }

  /** Lists a finite set once each, in an unspecified order: the iteration
      of an `unordered_set`. */
  method Enumerate(s: set<nat>) returns (xs: seq<nat>)
    ensures forall x :: x in xs <==> x in s
    ensures forall i, j :: 0 <= i < j < |xs| ==> xs[i] != xs[j]
    ensures |xs| == |s|
  {
    xs := [];
    var rest := s;
    while rest != {}
      invariant rest <= s
      invariant forall x :: x in xs <==> x in s - rest
      invariant forall i, j :: 0 <= i < j < |xs| ==> xs[i] != xs[j]
      decreases |rest|
    {
      var x :| x in rest;
      xs := xs + [x];
      rest := rest - {x};
    }
    DistinctCard(xs, s);
  }

  /** Two events of one trace: the first finds no trace correlation, the
      second one listing both ids, the earlier first. */
  method TraceScenario(c: EventCorrelator, e1: LogEvent, e2: LogEvent) returns (found1: seq<Correlation>, found2: seq<Correlation>)
    requires c.Valid() && c.traceIndex == map[]
    requires e1.traceId == e2.traceId == "checkout-42"
    modifies c
    ensures forall i :: 0 <= i < |found1| ==> found1[i].correlationType != "trace_id"
    ensures |found2| >= 1 && found2[0].correlationType == "trace_id"
    ensures found2[0].eventIds == [e1.eventId, e2.eventId] && found2[0].confidence == 1.0
  {
    ghost var entities1, services1, events1 := c.entityIndex, c.serviceIndex, c.events;
    found1 := c.Correlate(e1);
    ghost var en, tm :| EntityResult(entities1, e1, en) && TemporalResult(events1, e1, tm) &&
      found1 == AsSeq(TraceCorrelation(map[], e1)) + AsSeq(en) + AsSeq(ServiceCorrelation(services1, events1, e1)) + AsSeq(tm);
    RuleLabels(e1, entities1, events1, en, tm);
    assert TraceCorrelation(map[], e1) == None;
    NoTraceCorrelation(found1, en, ServiceCorrelation(services1, events1, e1), tm);
    ghost var entities2, services2, events2 := c.entityIndex, c.serviceIndex, c.events;
    FirstOfTrace("checkout-42", e1.eventId);
    found2 := c.Correlate(e2);
    ghost var en2, tm2 :| EntityResult(entities2, e2, en2) && TemporalResult(events2, e2, tm2) &&
      found2 == AsSeq(TraceCorrelation(map["checkout-42" := [e1.eventId]], e2)) + AsSeq(en2)
                + AsSeq(ServiceCorrelation(services2, events2, e2)) + AsSeq(tm2);
    TraceFirst(found2, e2, e1.eventId, en2, ServiceCorrelation(services2, events2, e2), tm2);
  }

  /** The entity and temporal rules label what they find. */
  lemma RuleLabels(e: LogEvent, entityIndex: map<string, seq<nat>>, events: map<nat, LogEvent>,
                   en: Option<Correlation>, tm: Option<Correlation>)
    requires EntityResult(entityIndex, e, en) && TemporalResult(events, e, tm)
    ensures en.Some? ==> en.value.correlationType == "entity"
    ensures tm.Some? ==> tm.value.correlationType == "temporal"
  {
  }

  /** Without a trace correlation, nothing found is labelled "trace_id". */
  lemma NoTraceCorrelation(found: seq<Correlation>, en: Option<Correlation>, sv: Option<Correlation>, tm: Option<Correlation>)
    requires en.Some? ==> en.value.correlationType == "entity"
    requires sv.Some? ==> sv.value.correlationType == "service"
    requires tm.Some? ==> tm.value.correlationType == "temporal"
    requires found == AsSeq(None) + AsSeq(en) + AsSeq(sv) + AsSeq(tm)
    ensures forall i :: 0 <= i < |found| ==> found[i].correlationType != "trace_id"
  {
  }

  /** The first event of a trace files it under a fresh key. */
  lemma FirstOfTrace(t: string, id: nat)
    requires t != ""
    ensures PushNonEmpty(map[], t, id) == map[t := [id]]
  {
    var empty: map<string, seq<nat>> := map[];
    assert IdsUnder(empty, t) + [id] == [id];
    assert Push(empty, t, id) == map[t := [id]];
  }

  /** A trace with one earlier id puts its correlation first. */
  lemma TraceFirst(found: seq<Correlation>, e: LogEvent, earlier: nat,
                   en: Option<Correlation>, sv: Option<Correlation>, tm: Option<Correlation>)
    requires e.traceId != ""
    requires found == AsSeq(TraceCorrelation(map[e.traceId := [earlier]], e)) + AsSeq(en) + AsSeq(sv) + AsSeq(tm)
    ensures |found| >= 1 && found[0].correlationType == "trace_id"
    ensures found[0].eventIds == [earlier, e.eventId] && found[0].confidence == 1.0
  {
    var t := TraceCorrelation(map[e.traceId := [earlier]], e);
    assert t.Some?;
    assert found[0] == t.value;
  }

  // ---------------------------------------------------------------------
  // CausalityAnalyzer
  // ---------------------------------------------------------------------

  /** `CausalityType`. */
  datatype CausalityType = Causes | Prevents | Enables | Precedes

  /** `CausalRelationship`: cause and effect event types, kind, strength,
      typical delay in nanoseconds and how often it was observed. */
  datatype CausalRelationship = CausalRelationship(
    causeEventType: string,
    effectEventType: string,
    kind: CausalityType,
    strength: real,
    typicalDelay: int,
    observedCount: nat)

  /** The value-initialised relationship `operator[]` inserts for a new
      pair: empty names, the first enumerator, all numbers zero. */
  function BlankRelationship(): CausalRelationship
  {
    CausalRelationship("", "", Causes, 0.0, 0, 0)
  }

  /** `(cause, effect)` as `EventPair`. */
  type EventPair = (string, string)

  /** The `uint64_t` holding the same bits as an `int64_t`. */
  function AsUnsigned(x: int): (u: nat)
    ensures u < Word64
    ensures 0 <= x < Word64 ==> u == x
    ensures -Word64 <= x < 0 ==> u == x + Word64
  {
    x % Word64
  }

  /** The `int64_t` holding the same bits as a `uint64_t`. */
  function AsSigned(u: nat): (x: int)
    requires u < Word64
    ensures -Word64 / 2 <= x < Word64 / 2
    ensures AsUnsigned(x) == u
  {
    if u < Word64 / 2 then u else u - Word64
  }

  /** Reading an `int64_t` as unsigned and back gives it unchanged. */
  lemma SignedRoundTrip(x: int)
    requires -Word64 / 2 <= x < Word64 / 2
    ensures AsSigned(AsUnsigned(x)) == x
  {
  }

  /** The running average of `learn` for the `n`-th observation.
      `typical_delay * (observed_count - 1)` has the common type of the
      signed nanosecond count and the `uint64_t` count, which is unsigned,
      so the sum and the division are done modulo 2^64 and the quotient
      is stored back into the signed `typical_delay`. */
  function UnsignedAverage(avg: int, n: nat, delay: int): (r: int)
    requires n >= 1
    ensures -Word64 / 2 <= r < Word64 / 2
    ensures n == 1 && -Word64 / 2 <= delay < Word64 / 2 ==> r == delay
  {
    var product := AsUnsigned(avg) * (n - 1);
    MulNonNegative(AsUnsigned(avg), n - 1);
    var sum := (product + AsUnsigned(delay)) % Word64;
    QuotientBelow(sum, n);
    assert n == 1 ==> product == 0 && sum == AsUnsigned(delay) && sum / n == sum;
    AsSigned(sum / n)
  }

  /** Without wrap-around the unsigned average is the floor of the
      weighted sum over the count. */
  lemma NoWrapAverage(avg: int, n: nat, delay: int)
    requires n >= 1 && 0 <= avg < Word64 / 2 && 0 <= delay
    requires avg * (n - 1) + delay < Word64 / 2
    ensures UnsignedAverage(avg, n, delay) == (avg * (n - 1) + delay) / n
  {
    MulNonNegative(avg, n - 1);
    var x := avg * (n - 1) + delay;
    assert AsUnsigned(avg) == avg && AsUnsigned(delay) == delay;
    assert AsUnsigned(avg) * (n - 1) + AsUnsigned(delay) == x;
    ModSmall(x);
    QuotientBelow(x, n);
  }

  lemma ModSmall(x: int)
    requires 0 <= x < Word64
    ensures x % Word64 == x
  {
  }

  lemma QuotientBelow(x: int, n: int)
    requires 0 <= x && n >= 1
    ensures 0 <= x / n <= x
  {
    var q := x / n;
    assert q * n <= x;
    MulNonNegative(q, n - 1);
    assert q * n == q * (n - 1) + q;
  }

  /** With non-negative delays whose weighted sum fits in 63 bits, the
      running average lies between the old average and the new delay. */
  lemma AverageBetween(avg: int, n: nat, delay: int)
    requires n >= 1 && 0 <= avg < Word64 / 2 && 0 <= delay
    requires avg * (n - 1) + delay < Word64 / 2
    ensures avg <= delay ==> avg <= UnsignedAverage(avg, n, delay) <= delay
    ensures delay <= avg ==> delay <= UnsignedAverage(avg, n, delay) <= avg
  {
    NoWrapAverage(avg, n, delay);
    var sum := avg * (n - 1) + delay;
    if avg <= delay {
      SumBetween(avg, delay, n, sum);
      DivBetween(sum, n, avg, delay);
    } else {
      SumBetweenRev(delay, avg, n, sum);
      DivBetween(sum, n, delay, avg);
    }
  }

  /** An old average `a` weighted `m - 1` times plus a larger delay `b`
      lies between `a * m` and `b * m`. */
  lemma SumBetween(a: int, b: int, m: int, sum: int)
    requires 0 <= a <= b && m >= 1 && sum == a * (m - 1) + b
    ensures a * m <= sum <= b * m
  {
    assert a * m == a * (m - 1) + a;
    assert b * m == b * (m - 1) + b;
    MulMonotone(a, b, m - 1);
  }

  /** The same with the larger value as the old average. */
  lemma SumBetweenRev(a: int, b: int, m: int, sum: int)
    requires 0 <= a <= b && m >= 1 && sum == b * (m - 1) + a
    ensures a * m <= sum <= b * m
  {
    assert a * m == a * (m - 1) + a;
    assert b * m == b * (m - 1) + b;
    MulMonotone(a, b, m - 1);
  }

  lemma MulNonNegative(a: int, b: int)
    requires 0 <= a && 0 <= b
    ensures 0 <= a * b
  {
  }

  lemma MulMonotone(a: int, b: int, c: int)
    requires a <= b && 0 <= c
    ensures a * c <= b * c
  {
    assert b * c - a * c == (b - a) * c;
    MulNonNegative(b - a, c);
  }

  /** A quotient of a sum between `lo * n` and `hi * n` lies between `lo`
      and `hi`. */
  lemma DivBetween(sum: int, n: int, lo: int, hi: int)
    requires n >= 1 && 0 <= lo && lo * n <= sum <= hi * n
    ensures lo <= sum / n <= hi
  {
    var q := sum / n;
    assert q * n <= sum < q * n + n;
    if q < lo {
      MulMonotone(q + 1, lo, n);
      assert false;
    }
    if q > hi {
      MulMonotone(hi + 1, q, n);
      assert false;
    }
  }

  /** One observation of `prev` before `e`: a pair never observed starts
      as PRECEDES with strength 0.1 and the observed delay; the count goes
      up by one, the delay becomes the unsigned running average, and the
      strength rises by 0.05 up to 1. */
  function Observe(rel: CausalRelationship, prev: LogEvent, e: LogEvent): (r: CausalRelationship)
    ensures r.observedCount == rel.observedCount + 1
    ensures r.strength <= 1.0
    ensures rel.observedCount == 0 ==>
      && r.kind == Precedes && r.causeEventType == prev.eventType && r.effectEventType == e.eventType
      && r.strength == 0.15
    ensures rel.observedCount == 0 && -Word64 / 2 <= e.timestamp - prev.timestamp < Word64 / 2 ==>
      r.typicalDelay == e.timestamp - prev.timestamp
    ensures rel.observedCount != 0 ==>
      && r.kind == rel.kind && r.causeEventType == rel.causeEventType && r.effectEventType == rel.effectEventType
      && r.strength == Min(1.0, rel.strength + 0.05)
      && r.typicalDelay == UnsignedAverage(rel.typicalDelay, r.observedCount, e.timestamp - prev.timestamp)
  {
    var delay := e.timestamp - prev.timestamp;
    var start := if rel.observedCount == 0
                 then CausalRelationship(prev.eventType, e.eventType, Precedes, 0.1, delay, 0)
                 else rel;
    var n := start.observedCount + 1;
    start.(observedCount := n,
           typicalDelay := UnsignedAverage(start.typicalDelay, n, delay),
           strength := Min(1.0, start.strength + 0.05))
  }

  /** A context event 1000 ns later than the event it is learnt for, seen
      twice: the first observation records -1000 ns, and the second
      averages the unsigned sum 2^64 - 2000 to 2^63 - 1000 ns. */
  lemma LaterContextDelay(prev: LogEvent, e: LogEvent)
    requires prev.timestamp == e.timestamp + 1000
    ensures Observe(BlankRelationship(), prev, e).typicalDelay == -1000
    ensures Observe(Observe(BlankRelationship(), prev, e), prev, e).typicalDelay == Word64 / 2 - 1000
  {
    var first := Observe(BlankRelationship(), prev, e);
    assert first.typicalDelay == -1000;
    assert AsUnsigned(-1000) == Word64 - 1000;
    assert (AsUnsigned(-1000) * 1 + AsUnsigned(-1000)) % Word64 == Word64 - 2000;
  }

  /** Only context events at most 60 seconds older than `e` are learnt. */
  predicate Recent(prev: LogEvent, e: LogEvent)
  {
    prev.timestamp >= e.timestamp - 60 * Second
  }

  /** One context event of `learn`. */
  function LearnOne(rels: map<EventPair, CausalRelationship>, e: LogEvent, prev: LogEvent): map<EventPair, CausalRelationship>
  {
    if !Recent(prev, e) then rels
    else
      var pair := (prev.eventType, e.eventType);
      var rel := if pair in rels then rels[pair] else BlankRelationship();
      rels[pair := Observe(rel, prev, e)]
  }

  /** `learn` over the whole context, in order. */
  function Learn(rels: map<EventPair, CausalRelationship>, e: LogEvent, context: seq<LogEvent>): map<EventPair, CausalRelationship>
    decreases |context|
  {
    if context == [] then rels
    else LearnOne(Learn(rels, e, context[..|context| - 1]), e, context[|context| - 1])
  }

  /** The observation count of a pair, zero when it is unknown. */
  function CountOf(rels: map<EventPair, CausalRelationship>, pair: EventPair): nat
  {
    if pair in rels then rels[pair].observedCount else 0
  }

  /** The recent context events of the given type. */
  function RecentOfType(context: seq<LogEvent>, e: LogEvent, cause: string): nat
    decreases |context|
  {
    if context == [] then 0
    else
      var prev := context[|context| - 1];
      RecentOfType(context[..|context| - 1], e, cause) + (if Recent(prev, e) && prev.eventType == cause then 1 else 0)
  }

  /** `learn` raises the count of (cause, e's type) by the number of
      recent context events of that cause type, and leaves the count of
      every pair with another effect type alone. */
  lemma {:induction false} LearnCounts(rels: map<EventPair, CausalRelationship>, e: LogEvent, context: seq<LogEvent>, pair: EventPair)
    ensures pair.1 == e.eventType ==>
      CountOf(Learn(rels, e, context), pair) == CountOf(rels, pair) + RecentOfType(context, e, pair.0)
    ensures pair.1 != e.eventType ==>
      (pair in Learn(rels, e, context) <==> pair in rels) &&
      (pair in rels ==> Learn(rels, e, context)[pair] == rels[pair])
    decreases |context|
  {
    if context != [] {
      LearnCounts(rels, e, context[..|context| - 1], pair);
    }
  }

  /** Every pair `learn` creates starts as PRECEDES, names its own cause
      and effect types, and has been observed; every pair it touches ends
      with strength at most 1. */
  lemma {:induction false} LearnNewPairs(rels: map<EventPair, CausalRelationship>, e: LogEvent, context: seq<LogEvent>)
    ensures forall pair :: pair in Learn(rels, e, context) && pair !in rels ==>
      var r := Learn(rels, e, context)[pair];
      && r.kind == Precedes && r.causeEventType == pair.0 && r.effectEventType == pair.1
      && r.observedCount >= 1 && r.strength <= 1.0
    ensures forall pair :: pair in rels && pair in Learn(rels, e, context) && Learn(rels, e, context)[pair] != rels[pair] ==>
      Learn(rels, e, context)[pair].strength <= 1.0
    ensures rels.Keys <= Learn(rels, e, context).Keys
    decreases |context|
  {
    if context != [] {
      LearnNewPairs(rels, e, context[..|context| - 1]);
    }
  }

  /** The relationships known for pairs (c, effect), for each context event
      c in order. */
  function Known(rels: map<EventPair, CausalRelationship>, effect: string, context: seq<LogEvent>): (r: seq<CausalRelationship>)
    ensures |r| <= |context|
    ensures forall x :: x in r ==> exists c :: c in context && (c.eventType, effect) in rels && rels[(c.eventType, effect)] == x
    decreases |context|
  {
    if context == [] then []
    else
      var c := context[|context| - 1];
      var init := context[..|context| - 1];
      var pair := (c.eventType, effect);
      assert forall y :: y in init ==> y in context;
      Known(rels, effect, init) + (if pair in rels then [rels[pair]] else [])
  }

  /** Every stored relationship names the pair it is stored under. */
  ghost predicate NamesMatch(rels: map<EventPair, CausalRelationship>)
  {
    forall pair :: pair in rels ==> rels[pair].causeEventType == pair.0 && rels[pair].effectEventType == pair.1
  }

  /** Learning keeps every relationship under its own pair. */
  lemma {:induction false} LearnKeepsNames(rels: map<EventPair, CausalRelationship>, e: LogEvent, context: seq<LogEvent>)
    requires NamesMatch(rels)
    ensures NamesMatch(Learn(rels, e, context))
    decreases |context|
  {
    if context != [] {
      LearnKeepsNames(rels, e, context[..|context| - 1]);
    }
  }

  /** `CausalityAnalyzer`: relationships keyed by (cause type, effect type). */
  class CausalityAnalyzer {
    var relationships: map<EventPair, CausalRelationship>

    ghost predicate Valid()
      reads this
    {
      NamesMatch(relationships)
    }

    constructor()
      ensures Valid() && relationships == map[]
    {
      relationships := map[];
    }

    /** `learn`: one observation per recent context event, in order. */
    method LearnFrom(e: LogEvent, context: seq<LogEvent>)
      requires Valid()
      modifies this
      ensures Valid()
      ensures relationships == Learn(old(relationships), e, context)
    {
      var cutoff := e.timestamp - 60 * Second;
      var i := 0;
      while i < |context|
        invariant 0 <= i <= |context|
        invariant relationships == Learn(old(relationships), e, context[..i])
      {
        assert context[..i + 1][..i] == context[..i];
        var prev := context[i];
        if prev.timestamp >= cutoff {
          var pair := (prev.eventType, e.eventType);
          var rel := if pair in relationships then relationships[pair] else BlankRelationship();
          if rel.observedCount == 0 {
            rel := rel.(causeEventType := prev.eventType, effectEventType := e.eventType, kind := Precedes,
                        strength := 0.1, typicalDelay := e.timestamp - prev.timestamp);
          }
          rel := rel.(observedCount := rel.observedCount + 1);
          var delay := e.timestamp - prev.timestamp;
          rel := rel.(typicalDelay := UnsignedAverage(rel.typicalDelay, rel.observedCount, delay));
          rel := rel.(strength := Min(1.0, rel.strength + 0.05));
          relationships := relationships[pair := rel];
        }
        i := i + 1;
      }
      assert context[..i] == context;
      LearnKeepsNames(old(relationships), e, context);
    }

    /** `analyze`: the known relationship for (c, e's type), for each
        context event c in order. */
    method Analyze(e: LogEvent, context: seq<LogEvent>) returns (found: seq<CausalRelationship>)
      ensures found == Known(relationships, e.eventType, context)
    {
      found := [];
      var i := 0;
      while i < |context|
        invariant 0 <= i <= |context|
        invariant found == Known(relationships, e.eventType, context[..i])
      {
        assert context[..i + 1][..i] == context[..i];
        var pair := (context[i].eventType, e.eventType);
        if pair in relationships {
          found := found + [relationships[pair]];
        }
        i := i + 1;
      }
      assert context[..i] == context;
    }

    /** `register_relationship`: stores (or replaces) `rel` under its own
        pair. */
    method Register(rel: CausalRelationship)
      requires Valid()
      modifies this
      ensures Valid()
      ensures relationships == old(relationships)[(rel.causeEventType, rel.effectEventType) := rel]
    {
      relationships := relationships[(rel.causeEventType, rel.effectEventType) := rel];
    }
  }

  /** A registered relationship is what `analyze` reports for an effect
      event preceded by one cause event. */
  lemma RegisteredIsKnown(rels: map<EventPair, CausalRelationship>, rel: CausalRelationship, cause: LogEvent, effect: string)
    requires cause.eventType == rel.causeEventType && effect == rel.effectEventType
    ensures Known(rels[(rel.causeEventType, rel.effectEventType) := rel], effect, [cause]) == [rel]
  {
    assert [cause][..0] == [];
  }

  // ---------------------------------------------------------------------
  // RootCauseAnalyzer
  // ---------------------------------------------------------------------

  /** One piece of evidence: its kind, a description and a weight. */
  datatype Evidence = Evidence(kind: string, description: string, weight: real)

  /** `RootCause`. The source never sets `root_event_type`; it stays empty. */
  datatype RootCause = RootCause(
    rootEventId: nat,
    rootEventType: string,
    affectedEventIds: seq<nat>,
    confidence: real,
    explanation: string,
    evidence: seq<Evidence>)

  /** `find_root_cause`: none for a correlation without events; otherwise
      its first event, all its events as affected, 0.7 of its confidence,
      and two pieces of evidence, temporal then the correlation itself. */
  function FindRootCause(c: Correlation): (r: Option<RootCause>)
    ensures r.None? <==> c.eventIds == []
    ensures r.Some? ==>
      && r.value.rootEventId == c.eventIds[0] && r.value.rootEventId in r.value.affectedEventIds
      && r.value.affectedEventIds == c.eventIds
      && r.value.confidence == c.confidence * 0.7
      && (c.confidence >= 0.0 ==> 0.0 <= r.value.confidence <= c.confidence)
      && |r.value.evidence| == 2 && r.value.evidence[0].kind == "temporal"
      && r.value.evidence[1] == Evidence("correlation", c.reason, c.confidence)
  {
    if c.eventIds == [] then None
    else
      Some(RootCause(c.eventIds[0], "", c.eventIds, c.confidence * 0.7, "Earliest event in correlation chain",
                     [Evidence("temporal", "First event in time sequence", 0.6),
                      Evidence("correlation", c.reason, c.confidence)]))
  }

  /** `std::max_element` by confidence: the first correlation of greatest
      confidence. */
  function Strongest(cs: seq<Correlation>): (i: nat)
    requires cs != []
    ensures i < |cs|
    ensures forall j :: 0 <= j < |cs| ==> cs[j].confidence <= cs[i].confidence
    ensures forall j :: 0 <= j < i ==> cs[j].confidence < cs[i].confidence
    decreases |cs|
  {
    if |cs| == 1 then 0
    else
      var k := Strongest(cs[..|cs| - 1]);
      assert forall j :: 0 <= j < |cs| - 1 ==> cs[..|cs| - 1][j] == cs[j];
      if cs[k].confidence < cs[|cs| - 1].confidence then |cs| - 1 else k
  }

  /** `RootCauseAnalyzer`, reading the correlator it shares. */
  class RootCauseAnalyzer {
    const correlator: EventCorrelator

    constructor(correlator: EventCorrelator)
      ensures this.correlator == correlator
    {
      this.correlator := correlator;
    }

    /** `find_root_cause_for_event`: none when no stored correlation lists
        the event; otherwise the root cause of the strongest one. */
    method FindRootCauseForEvent(id: nat) returns (r: Option<RootCause>)
      ensures Involving(correlator.correlations, id) == [] ==> r.None?
      ensures Involving(correlator.correlations, id) != [] ==>
        var cs := Involving(correlator.correlations, id);
        r == FindRootCause(cs[Strongest(cs)])
    {
      var cs := correlator.GetCorrelationsForEvent(id);
      if cs == [] {
        return None;
      }
      r := FindRootCause(cs[Strongest(cs)]);
    }
  }
}
