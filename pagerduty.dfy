/** The mock PagerDuty Events API v2 server: an in-memory incident registry
    keyed by dedup key, with a process-wide id counter starting at 1.
    The registry is the two module globals `incidents` and
    `incident_counter`; here they are the fields of one `Registry` object
    and each HTTP handler is one atomic method call. */
module PagerDuty {
  import opened JsonValue
  import opened Optional
  import Text

  /** One stored incident (a Python dict mutated in place on updates).
      Timestamps are the instants the handler was called. */
  datatype Incident = Incident(
    id: int,
    dedupKey: Json,
    status: Json,
    payload: Json,
    routingKey: Json,
    createdAt: int,
    updatedAt: int)

  /** The fields `enqueue_event` reads from a request body, defaults applied. */
  datatype Event = Event(routingKey: Json, action: Json, dedupKey: Json, payload: Json)

  /** What `enqueue_event` answers: 202 echoing the dedup key it used, or 400. */
  datatype EnqueueReply = Accepted(dedupKey: Json) | BadRequest

  /** The body of the `/incidents` listing. */
  datatype Listing = Listing(
    total: nat,
    incidents: seq<Incident>,
    triggered: nat,
    acknowledged: nat,
    resolved: nat)

  function HttpStatus(r: EnqueueReply): int {
    if r.Accepted? then 202 else 400
  }

  /** The key used when an event carries none: `f'incident-{incident_counter}'`. */
  function SynthesizedKey(counter: int): Json {
    Str("incident-" + Text.IntToDecimal(counter))
  }

  /** Reading the request body. Every `.get` needs a dict: a body that is
      not a JSON object, or an `event` member that is not one, raises
      before anything is stored. */
  function ParseEvent(body: Json, counter: int): (r: Option<Event>)
    ensures r.None? <==> !body.Obj? || !Get(body.fields, "event", Obj(map[])).Obj?
    ensures r.Some? ==>
      var event := Get(body.fields, "event", Obj(map[])).fields;
      && r.value.action == Get(event, "event_action", Str("trigger"))
      && r.value.routingKey == Get(body.fields, "routing_key", Str("unknown"))
      && r.value.dedupKey == Get(event, "dedup_key", SynthesizedKey(counter))
      && r.value.payload == Get(event, "payload", Obj(map[]))
  {
    if !body.Obj? then None
    else
      var event := Get(body.fields, "event", Obj(map[]));
      if !event.Obj? then None
      else Some(Event(
        Get(body.fields, "routing_key", Str("unknown")),
        Get(event.fields, "event_action", Str("trigger")),
        Get(event.fields, "dedup_key", SynthesizedKey(counter)),
        Get(event.fields, "payload", Obj(map[]))))
  }

  /** The first incident whose dedup key is `==` to `key`. */
  function FindKey(incs: seq<Incident>, key: Json): (r: Option<nat>)
    ensures r.Some? ==> r.value < |incs| && PyEq(incs[r.value].dedupKey, key)
    ensures r.Some? ==> forall j :: 0 <= j < r.value ==> !PyEq(incs[j].dedupKey, key)
    ensures r.None? <==> forall j :: 0 <= j < |incs| ==> !PyEq(incs[j].dedupKey, key)
  {
    if incs == [] then None
    else if PyEq(incs[0].dedupKey, key) then Some(0)
    else match FindKey(incs[1..], key)
      case None => None
      case Some(i) => Some(i + 1)
  }

  /** Find-or-create: a new incident with the next id and `status` = action,
      or, for a known key, only `status` and `updated_at` overwritten. */
  function Ingest(incs: seq<Incident>, counter: int, e: Event, now: int): (seq<Incident>, int)
  {
    match FindKey(incs, e.dedupKey)
    case None =>
      (incs + [Incident(counter, e.dedupKey, e.action, e.payload, e.routingKey, now, now)], counter + 1)
    case Some(i) =>
      (incs[i := incs[i].(status := e.action, updatedAt := now)], counter)
  }

  /** The position of the incident an event acts on. */
  function Target(incs: seq<Incident>, key: Json): nat
  {
    match FindKey(incs, key)
    case None => |incs|
    case Some(i) => i
  }

  /** When `print_incident` raises for the stored incident and the event's
      action: a non-string action reaches `action.upper()`, a non-dict
      payload reaches `payload.get`, a non-string severity reaches the
      colour lookup or `.upper()`, and truthy non-dict custom details reach
      `.items()`. */
  predicate PrintIncidentRaises(incident: Incident, action: Json)
  {
    || !action.Str?
    || !incident.payload.Obj?
    || !Get(incident.payload.fields, "severity", Str("info")).Str?
    || (var details := Get(incident.payload.fields, "custom_details", Obj(map[]));
        Truthy(details) && !details.Obj?)
  }

  /** Statistics: how many stored statuses are `==` to `status`. */
  function CountStatus(incs: seq<Incident>, status: string): (n: nat)
    ensures n <= |incs|
  {
    if incs == [] then 0
    else CountStatus(incs[..|incs| - 1], status)
         + (if PyEq(incs[|incs| - 1].status, Str(status)) then 1 else 0)
  }

  /** No two incidents have `==` dedup keys. */
  ghost predicate KeysDistinct(incs: seq<Incident>)
  {
    forall i, j :: 0 <= i < j < |incs| ==> !PyEq(incs[i].dedupKey, incs[j].dedupKey)
  }

  /** Ids strictly increase in list order, start at 1 and stay below the counter. */
  ghost predicate IdsBelow(incs: seq<Incident>, counter: int)
  {
    && (forall i, j :: 0 <= i < j < |incs| ==> incs[i].id < incs[j].id)
    && (forall i :: 0 <= i < |incs| ==> 1 <= incs[i].id < counter)
  }

  ghost predicate RegistryInvariant(incs: seq<Incident>, counter: int)
  {
    counter >= 1 && KeysDistinct(incs) && IdsBelow(incs, counter)
  }

  class Registry {
    var incidents: seq<Incident>
    var counter: int

    ghost predicate Valid()
      reads this
    {
      RegistryInvariant(incidents, counter)
    }

    /** Process start: no incidents, counter at 1. */
    constructor ()
      ensures Valid()
      ensures incidents == [] && counter == 1
    {
      incidents := [];
      counter := 1;
    }

    /** POST /v2/enqueue. A body that cannot be read changes nothing and
        gets 400. Otherwise the incident is found or created; only then is
        it printed, so a print failure answers 400 without undoing the store. */
    method EnqueueEvent(body: Json, now: int) returns (reply: EnqueueReply)
      requires Valid()
      modifies this
      ensures Valid()
      ensures ParseEvent(body, old(counter)).None? ==>
        reply == BadRequest && incidents == old(incidents) && counter == old(counter)
      ensures ParseEvent(body, old(counter)).Some? ==>
        var e := ParseEvent(body, old(counter)).value;
        var t := Target(old(incidents), e.dedupKey);
        && (incidents, counter) == Ingest(old(incidents), old(counter), e, now)
        && t < |incidents|
        && reply == (if PrintIncidentRaises(incidents[t], e.action) then BadRequest
                     else Accepted(e.dedupKey))
    {
      var parsed := ParseEvent(body, counter);
      if parsed.None? {
        return BadRequest;
      }
      var e := parsed.value;

      var found := FindIncident(e.dedupKey);

      var t: nat;
      if found.None? {
        incidents := incidents + [Incident(counter, e.dedupKey, e.action, e.payload, e.routingKey, now, now)];
        t := |incidents| - 1;
        counter := counter + 1;
      } else {
        t := found.value;
        incidents := incidents[t := incidents[t].(status := e.action, updatedAt := now)];
      }
      IngestKeepsInvariant(old(incidents), old(counter), e, now);

      if PrintIncidentRaises(incidents[t], e.action) {
        reply := BadRequest;
      } else {
        reply := Accepted(e.dedupKey);
      }
    }

    /** The scan for an incident whose dedup key is `==` to `key`. */
    method FindIncident(key: Json) returns (found: Option<nat>)
      ensures found == FindKey(incidents, key)
    {
      found := None;
      var i := 0;
      while i < |incidents|
        invariant 0 <= i <= |incidents|
        invariant forall j :: 0 <= j < i ==> !PyEq(incidents[j].dedupKey, key)
      {
        if PyEq(incidents[i].dedupKey, key) {
          found := Some(i);
          break;
        }
        i := i + 1;
      }
    }

    /** GET /incidents: the list and its three status counts, computed afresh. */
    method ListIncidents() returns (listing: Listing)
      requires Valid()
      ensures listing.total == |incidents| && listing.incidents == incidents
      ensures listing.triggered == CountStatus(incidents, "triggered")
      ensures listing.acknowledged == CountStatus(incidents, "acknowledged")
      ensures listing.resolved == CountStatus(incidents, "resolved")
      ensures listing.triggered + listing.acknowledged + listing.resolved <= listing.total
    {
      StatusCountsBounded(incidents);
      listing := Listing(
        |incidents|,
        incidents,
        CountStatus(incidents, "triggered"),
        CountStatus(incidents, "acknowledged"),
        CountStatus(incidents, "resolved"));
    }

    /** POST /incidents/clear: reports how many were removed, empties the
        list and resets the counter to 1. */
    method ClearIncidents() returns (count: nat)
      requires Valid()
      modifies this
      ensures Valid()
      ensures count == |old(incidents)|
      ensures incidents == [] && counter == 1
    {
      count := |incidents|;
      incidents := [];
      counter := 1;
    }
  }

  /** A miss appends exactly one incident carrying the counter as id and the
      action as status, and advances the counter by one; a hit keeps the
      length and the counter and changes only the matched incident's
      `status` and `updated_at`. */
  lemma IngestShape(incs: seq<Incident>, counter: int, e: Event, now: int)
    ensures var (after, c) := Ingest(incs, counter, e, now);
      FindKey(incs, e.dedupKey).None? ==>
        && |after| == |incs| + 1 && c == counter + 1
        && after[..|incs|] == incs
        && after[|incs|].id == counter && after[|incs|].status == e.action
        && after[|incs|].dedupKey == e.dedupKey
    ensures var (after, c) := Ingest(incs, counter, e, now);
      FindKey(incs, e.dedupKey).Some? ==>
        var i := FindKey(incs, e.dedupKey).value;
        && |after| == |incs| && c == counter
        && (forall j :: 0 <= j < |incs| && j != i ==> after[j] == incs[j])
        && after[i].status == e.action && after[i].updatedAt == now
        && after[i].id == incs[i].id && after[i].payload == incs[i].payload
        && after[i].routingKey == incs[i].routingKey && after[i].dedupKey == incs[i].dedupKey
        && after[i].createdAt == incs[i].createdAt
  {
  }

  /** The registry invariant (one incident per dedup key, increasing ids
      below the counter) survives every ingested event. */
  lemma IngestKeepsInvariant(incs: seq<Incident>, counter: int, e: Event, now: int)
    requires RegistryInvariant(incs, counter)
    ensures var (after, c) := Ingest(incs, counter, e, now);
      RegistryInvariant(after, c)
  {
    var (after, c) := Ingest(incs, counter, e, now);
    match FindKey(incs, e.dedupKey)
    case None =>
      forall i, j | 0 <= i < j < |after|
        ensures !PyEq(after[i].dedupKey, after[j].dedupKey)
      {
        if j == |incs| {
          assert after[j].dedupKey == e.dedupKey;
        } else {
          assert after[i] == incs[i] && after[j] == incs[j];
        }
      }
    case Some(k) =>
      forall i, j | 0 <= i < j < |after|
        ensures !PyEq(after[i].dedupKey, after[j].dedupKey)
      {
        assert after[i].dedupKey == incs[i].dedupKey && after[j].dedupKey == incs[j].dedupKey;
      }
  }

  /** Once an event with some key has been ingested, the next event with
      the same key finds that incident: it is updated, nothing is appended
      and its id does not change. */
  lemma {:induction false} SameKeyUpdates(incs: seq<Incident>, counter: int, e1: Event, e2: Event, now1: int, now2: int)
    requires e1.dedupKey == e2.dedupKey
    ensures var (mid, c1) := Ingest(incs, counter, e1, now1);
      var (after, c2) := Ingest(mid, c1, e2, now2);
      var t := Target(incs, e1.dedupKey);
      && |after| == |mid| && c2 == c1 && t < |after|
      && after[t].status == e2.action && after[t].id == mid[t].id
  {
    var (mid, c1) := Ingest(incs, counter, e1, now1);
    var t := Target(incs, e1.dedupKey);
    PyEqReflexive(e1.dedupKey);
    assert t < |mid| && PyEq(mid[t].dedupKey, e2.dedupKey);
    assert FindKey(mid, e2.dedupKey).Some?;
  }

  /** Two key-less events in a row create two incidents, unless the
      synthesized keys were already in use. */
  lemma {:induction false} KeylessEventsCreateTwo(incs: seq<Incident>, counter: int, e1: Event, e2: Event, now1: int, now2: int)
    requires counter >= 1
    requires e1.dedupKey == SynthesizedKey(counter) && e2.dedupKey == SynthesizedKey(counter + 1)
    requires FindKey(incs, SynthesizedKey(counter)).None?
    requires FindKey(incs, SynthesizedKey(counter + 1)).None?
    ensures var (mid, c1) := Ingest(incs, counter, e1, now1);
      var (after, c2) := Ingest(mid, c1, e2, now2);
      |after| == |incs| + 2 && c2 == counter + 2 && after[|incs|].id != after[|incs| + 1].id
  {
    var (mid, c1) := Ingest(incs, counter, e1, now1);
    assert mid[|incs|].dedupKey == SynthesizedKey(counter);
    if !PyEq(SynthesizedKey(counter), SynthesizedKey(counter + 1)) {
      forall j | 0 <= j < |mid| ensures !PyEq(mid[j].dedupKey, SynthesizedKey(counter + 1)) {
        if j < |incs| {
          assert mid[j] == incs[j];
        }
      }
    } else {
      var a := Text.NatToDecimal(counter);
      var b := Text.NatToDecimal(counter + 1);
      assert "incident-" + a == "incident-" + b;
      assert a == ("incident-" + a)[9..];
      Text.DecimalInjective(counter, counter + 1);
    }
  }

  /** The three counts never exceed the number of incidents. */
  lemma {:induction false} StatusCountsBounded(incs: seq<Incident>)
    ensures CountStatus(incs, "triggered") + CountStatus(incs, "acknowledged")
            + CountStatus(incs, "resolved") <= |incs|
  {
    if incs != [] {
      StatusCountsBounded(incs[..|incs| - 1]);
      var s := incs[|incs| - 1].status;
      assert !(PyEq(s, Str("triggered")) && PyEq(s, Str("acknowledged")));
      assert !(PyEq(s, Str("triggered")) && PyEq(s, Str("resolved")));
      assert !(PyEq(s, Str("acknowledged")) && PyEq(s, Str("resolved")));
    }
  }

  /** Clearing twice: the second clear reports 0. */
  method ClearTwice(r: Registry) returns (first: nat, second: nat)
    requires r.Valid()
    modifies r
    ensures first == |old(r.incidents)| && second == 0
    ensures r.incidents == [] && r.counter == 1
  {
    first := r.ClearIncidents();
    second := r.ClearIncidents();
  }

  function Ev(key: string, action: string): Event {
    Event(Str("unknown"), Str(action), Str(key), Obj(map[]))
  }

  /** The incident a fresh event creates in the scenarios below. */
  function Fresh(id: int, key: string, status: string, now: int): Incident {
    Incident(id, Str(key), Str(status), Obj(map[]), Str("unknown"), now, now)
  }

  /** Two strings are `==` exactly when they are the same string. */
  lemma StrPyEq(x: string, y: string)
    ensures PyEq(Str(x), Str(y)) <==> x == y
  {
  }

  /** The counts over a two-incident list, one incident at a time. */
  lemma CountPair(a: Incident, b: Incident, x: string, y: string, status: string)
    requires a.status == Str(x) && b.status == Str(y)
    ensures CountStatus([a, b], status) == (if x == status then 1 else 0) + (if y == status then 1 else 0)
  {
    StrPyEq(x, status);
    StrPyEq(y, status);
    assert [a, b][..1] == [a];
    assert [a][..0] == [];
  }

  /** The scenario's three steps with verbs `v1`, `v2`, `v3` stored as the
      statuses: trigger A, acknowledge A, trigger B. */
  lemma ScenarioSteps(v1: string, v2: string, v3: string, now: int)
    ensures Ingest([], 1, Ev("A", v1), now) == ([Fresh(1, "A", v1, now)], 2)
    ensures Ingest([Fresh(1, "A", v1, now)], 2, Ev("A", v2), now) == ([Fresh(1, "A", v2, now)], 2)
    ensures Ingest([Fresh(1, "A", v2, now)], 2, Ev("B", v3), now) ==
      ([Fresh(1, "A", v2, now), Fresh(2, "B", v3, now)], 3)
  {
    StrPyEq("A", "A");
    StrPyEq("A", "B");
    assert [] + [Fresh(1, "A", v1, now)] == [Fresh(1, "A", v1, now)];
    assert FindKey([Fresh(1, "A", v1, now)], Str("A")) == Some(0);
    assert [Fresh(1, "A", v1, now)][0 := Fresh(1, "A", v2, now)] == [Fresh(1, "A", v2, now)];
    assert FindKey([Fresh(1, "A", v2, now)], Str("B")) == None by {
      assert [Fresh(1, "A", v2, now)][1..] == [];
    }
    assert [Fresh(1, "A", v2, now)] + [Fresh(2, "B", v3, now)] == [Fresh(1, "A", v2, now), Fresh(2, "B", v3, now)];
  }

  /** As written: the stored status is the action verb itself, so the
      trigger / acknowledge / trigger scenario leaves one incident with
      status "acknowledge", one with "trigger", and every count at 0. */
  lemma ScenarioAsWritten(now: int)
    ensures var (s1, c1) := Ingest([], 1, Ev("A", "trigger"), now);
      var (s2, c2) := Ingest(s1, c1, Ev("A", "acknowledge"), now);
      var (s3, c3) := Ingest(s2, c2, Ev("B", "trigger"), now);
      && |s3| == 2 && c3 == 3
      && s3[0].id == 1 && s3[0].status == Str("acknowledge")
      && s3[1].id == 2 && s3[1].status == Str("trigger")
      && CountStatus(s3, "triggered") == 0
      && CountStatus(s3, "acknowledged") == 0
      && CountStatus(s3, "resolved") == 0
  {
    ScenarioSteps("trigger", "acknowledge", "trigger", now);
    var a := Fresh(1, "A", "acknowledge", now);
    var b := Fresh(2, "B", "trigger", now);
    CountPair(a, b, "acknowledge", "trigger", "triggered");
    CountPair(a, b, "acknowledge", "trigger", "acknowledged");
    CountPair(a, b, "acknowledge", "trigger", "resolved");
  }

  /** The status an action evidently stands for: the canonical verbs map to
      the past-tense statuses the statistics count; anything else is kept. */
  function CanonicalStatus(action: Json): (status: Json)
    ensures action == Str("trigger") ==> status == Str("triggered")
    ensures action == Str("acknowledge") ==> status == Str("acknowledged")
    ensures action == Str("resolve") ==> status == Str("resolved")
    ensures action != Str("trigger") && action != Str("acknowledge") && action != Str("resolve") ==>
      status == action
  {
    if action == Str("trigger") then Str("triggered")
    else if action == Str("acknowledge") then Str("acknowledged")
    else if action == Str("resolve") then Str("resolved")
    else action
  }

  /** Find-or-create storing the canonical status instead of the verb. */
  function IngestCanonical(incs: seq<Incident>, counter: int, e: Event, now: int): (r: (seq<Incident>, int))
    ensures Target(incs, e.dedupKey) < |r.0|
    ensures r.0[Target(incs, e.dedupKey)].status == CanonicalStatus(e.action)
    ensures |r.0| == |incs| + (if FindKey(incs, e.dedupKey).None? then 1 else 0)
  {
    Ingest(incs, counter, e.(action := CanonicalStatus(e.action)), now)
  }

  /** For the scenario's events, the canonical ingest is the plain one
      with the past-tense status as action. */
  lemma CanonicalEv(incs: seq<Incident>, counter: int, key: string, verb: string, past: string, now: int)
    requires CanonicalStatus(Str(verb)) == Str(past)
    ensures IngestCanonical(incs, counter, Ev(key, verb), now) == Ingest(incs, counter, Ev(key, past), now)
  {
    assert Ev(key, verb).(action := CanonicalStatus(Str(verb))) == Ev(key, past);
  }

  /** Corrected: the same scenario yields one acknowledged and one
      triggered incident. */
  lemma ScenarioCanonical(now: int)
    ensures var (s1, c1) := IngestCanonical([], 1, Ev("A", "trigger"), now);
      var (s2, c2) := IngestCanonical(s1, c1, Ev("A", "acknowledge"), now);
      var (s3, c3) := IngestCanonical(s2, c2, Ev("B", "trigger"), now);
      && |s3| == 2 && c3 == 3 && s3[0].id == 1
      && CountStatus(s3, "triggered") == 1
      && CountStatus(s3, "acknowledged") == 1
      && CountStatus(s3, "resolved") == 0
  {
    CanonicalEv([], 1, "A", "trigger", "triggered", now);
    CanonicalEv([Fresh(1, "A", "triggered", now)], 2, "A", "acknowledge", "acknowledged", now);
    CanonicalEv([Fresh(1, "A", "acknowledged", now)], 2, "B", "trigger", "triggered", now);
    ScenarioSteps("triggered", "acknowledged", "triggered", now);
    var a := Fresh(1, "A", "acknowledged", now);
    var b := Fresh(2, "B", "triggered", now);
    CountPair(a, b, "acknowledged", "triggered", "triggered");
    CountPair(a, b, "acknowledged", "triggered", "acknowledged");
    CountPair(a, b, "acknowledged", "triggered", "resolved");
  }
}
