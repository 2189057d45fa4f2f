/** The mock Jira REST server: an in-memory ticket list and a process-wide
    key counter starting at 1000. The two module globals `tickets` and
    `ticket_counter` are the fields of one `TicketStore`; each HTTP handler
    is one atomic method call. */
module Jira {
  import opened JsonValue
  import opened Optional
  import Text

  const InitialCounter: nat := 1000

  /** One stored ticket. `created` is the instant the handler was called. */
  datatype Ticket = Ticket(id: string, key: string, selfUrl: string, fields: Json, created: int)

  /** What `create_issue` answers: 201 with id, key and self link, or 400. */
  datatype CreateReply = Created(id: string, key: string, selfUrl: string) | BadRequest

  /** The body of a search: everything, on one page. */
  datatype SearchResult = SearchResult(startAt: nat, maxResults: nat, total: nat, issues: seq<Ticket>)

  function HttpStatus(r: CreateReply): int {
    if r.Created? then 201 else 400
  }

  /** `data.get('fields', {}).get('project', {}).get('key', 'AGENT')`: the
      project key, or None when one of the three `.get` calls meets a value
      that is not a dict. */
  function ProjectKey(body: Json): (r: Option<Json>)
    ensures r.Some? <==>
      && body.Obj?
      && Get(body.fields, "fields", Obj(map[])).Obj?
      && Get(Get(body.fields, "fields", Obj(map[])).fields, "project", Obj(map[])).Obj?
    ensures r.Some? ==>
      var project := Get(Get(body.fields, "fields", Obj(map[])).fields, "project", Obj(map[]));
      r.value == Get(project.fields, "key", Str("AGENT"))
  {
    if !body.Obj? then None
    else
      var fields := Get(body.fields, "fields", Obj(map[]));
      if !fields.Obj? then None
      else
        var project := Get(fields.fields, "project", Obj(map[]));
        if !project.Obj? then None
        else Some(Get(project.fields, "key", Str("AGENT")))
  }

  /** `f"{project}-{counter}"`. */
  function TicketKey(project: Json, counter: nat, render: Json -> string): string
  {
    PyStr(project, render) + "-" + Text.NatToDecimal(counter)
  }

  /** The self link, which names the counter after its increment. */
  function SelfUrl(n: nat): string
  {
    "http://localhost:8080/rest/api/2/issue/" + Text.NatToDecimal(n)
  }

  /** When `print_ticket` raises on the stored `fields` dict:
      a present `priority` or `issuetype` that is not a dict (`.get`),
      an unhashable priority name (colour lookup), a description without
      `len` or a long list or dict description (the `[:200] + "..."`
      step), truthy labels that `', '.join` cannot take, and truthy
      components that are not a list of dicts with string names. */
  predicate PrintTicketRaises(fields: map<string, Json>)
  {
    var priority := Get(fields, "priority", Obj(map[]));
    var issuetype := Get(fields, "issuetype", Obj(map[]));
    var description := Get(fields, "description", Str("No description"));
    var labels := Get(fields, "labels", Arr([]));
    var components := Get(fields, "components", Arr([]));
    || !priority.Obj?
    || !Hashable(Get(priority.fields, "name", Str("Medium")))
    || !issuetype.Obj?
    || description.Null? || description.Bool? || description.Int? || description.Float?
    || (description.Arr? && |description.items| > 200)
    || (description.Obj? && |description.fields| > 200)
    || (Truthy(labels) && !JoinableStrings(labels))
    || (Truthy(components) && !NamedComponents(components))
  }

  /** What `', '.join(x)` accepts: a string, a dict (its string keys), or a
      list of strings. */
  predicate JoinableStrings(x: Json)
  {
    x.Str? || x.Obj? || (x.Arr? && forall i :: 0 <= i < |x.items| ==> x.items[i].Str?)
  }

  /** A list of dicts each of whose `.get('name', '')` is a string. */
  predicate NamedComponents(x: Json)
  {
    x.Arr? && forall i :: 0 <= i < |x.items| ==>
      x.items[i].Obj? && Get(x.items[i].fields, "name", Str("")).Str?
  }

  /** Ticket `t` was created when the counter stood at `n`: its key ends
      in `-n` and its id is `n + 1`. */
  ghost predicate BuiltFrom(t: Ticket, n: nat)
  {
    Text.SuffixAfterLastDash(t.key) == Text.NatToDecimal(n) && t.id == Text.NatToDecimal(n + 1)
  }

  /** The counters the stored keys were built from strictly increase, lie
      between 1000 and the current counter, and each ticket was built from
      its own. */
  ghost predicate StoreInvariant(tickets: seq<Ticket>, numbers: seq<nat>, counter: nat)
  {
    && counter >= InitialCounter
    && |numbers| == |tickets|
    && (forall i, j :: 0 <= i < j < |numbers| ==> numbers[i] < numbers[j])
    && (forall i :: 0 <= i < |numbers| ==> InitialCounter <= numbers[i] < counter)
    && (forall i :: 0 <= i < |tickets| ==> BuiltFrom(tickets[i], numbers[i]))
  }

  /** The ticket `create_issue` builds when the counter stands at `n`. */
  function NewTicket(project: Json, n: nat, fields: Json, now: int, render: Json -> string): (t: Ticket)
    ensures BuiltFrom(t, n)
    ensures t.fields == fields && t.created == now
  {
    Text.SuffixAfterJoin(PyStr(project, render), Text.NatToDecimal(n));
    Ticket(Text.NatToDecimal(n + 1), TicketKey(project, n, render), SelfUrl(n + 1), fields, now)
  }

  /** Storing a ticket built from the current counter and advancing the
      counter keeps the store invariant. */
  lemma AppendKeepsInvariant(tickets: seq<Ticket>, numbers: seq<nat>, counter: nat, t: Ticket)
    requires StoreInvariant(tickets, numbers, counter) && BuiltFrom(t, counter)
    ensures StoreInvariant(tickets + [t], numbers + [counter], counter + 1)
  {
  }

  class TicketStore {
    var tickets: seq<Ticket>
    var counter: nat
    /** The counter value each stored ticket's key was built from. */
    ghost var numbers: seq<nat>

    ghost predicate Valid()
      reads this
    {
      StoreInvariant(tickets, numbers, counter)
    }

    /** Process start: no tickets, counter at 1000. */
    constructor ()
      ensures Valid()
      ensures tickets == [] && counter == InitialCounter
    {
      tickets := [];
      counter := InitialCounter;
      numbers := [];
    }

    /** POST /rest/api/2/issue. A body whose project key cannot be read
        changes nothing and gets 400. Otherwise the key takes the current
        counter, the counter advances and the ticket is stored; a failure
        while printing it answers 400 but keeps the ticket and the count. */
    method CreateIssue(body: Json, now: int, render: Json -> string) returns (reply: CreateReply)
      requires Valid()
      modifies this
      ensures Valid()
      ensures ProjectKey(body).None? ==>
        reply == BadRequest && tickets == old(tickets) && counter == old(counter)
      ensures ProjectKey(body).Some? ==>
        var fields := Get(body.fields, "fields", Obj(map[]));
        var ticket := NewTicket(ProjectKey(body).value, old(counter), fields, now, render);
        && counter == old(counter) + 1
        && tickets == old(tickets) + [ticket]
        && reply == (if PrintTicketRaises(fields.fields) then BadRequest
                     else Created(ticket.id, ticket.key, ticket.selfUrl))
    {
      var project := ProjectKey(body);
      if project.None? {
        return BadRequest;
      }
      var fields := Get(body.fields, "fields", Obj(map[]));
      var ticket := NewTicket(project.value, counter, fields, now, render);
      AppendKeepsInvariant(tickets, numbers, counter, ticket);
      tickets := tickets + [ticket];
      numbers := numbers + [counter];
      counter := counter + 1;
      reply := if PrintTicketRaises(fields.fields) then BadRequest
               else Created(ticket.id, ticket.key, ticket.selfUrl);
    }

    /** GET /rest/api/2/issue/<key>: the first ticket with that key
        (200), or none (404). */
    method GetIssue(issueKey: string) returns (r: Option<Ticket>)
      requires Valid()
      ensures r.Some? ==> r.value in tickets && r.value.key == issueKey
      ensures r.None? <==> forall i :: 0 <= i < |tickets| ==> tickets[i].key != issueKey
      ensures r.Some? ==>
        exists i :: 0 <= i < |tickets| && tickets[i] == r.value && (forall j :: 0 <= j < i ==> tickets[j].key != issueKey)
    {
      var i := 0;
      while i < |tickets|
        invariant 0 <= i <= |tickets|
        invariant forall j :: 0 <= j < i ==> tickets[j].key != issueKey
      {
        if tickets[i].key == issueKey {
          return Some(tickets[i]);
        }
        i := i + 1;
      }
      return None;
    }

    /** GET or POST /rest/api/2/search: every stored ticket, on one page. */
    method SearchIssues() returns (r: SearchResult)
      requires Valid()
      ensures r.startAt == 0 && r.issues == tickets
      ensures r.total == r.maxResults == |tickets|
    {
      r := SearchResult(0, |tickets|, |tickets|, tickets);
    }

    /** POST /tickets/clear: reports how many were removed, empties the
        list and resets the counter to 1000. */
    method ClearTickets() returns (count: nat)
      requires Valid()
      modifies this
      ensures Valid()
      ensures count == |old(tickets)|
      ensures tickets == [] && counter == InitialCounter
    {
      count := |tickets|;
      tickets := [];
      numbers := [];
      counter := InitialCounter;
    }

    /** Between clears no two tickets share a key: each key ends in the
        counter it was built from, and those counters strictly increase. */
    lemma KeysDistinct()
      requires Valid()
      ensures forall i, j :: 0 <= i < j < |tickets| ==> tickets[i].key != tickets[j].key
    {
      forall i, j | 0 <= i < j < |tickets|
        ensures tickets[i].key != tickets[j].key
      {
        if tickets[i].key == tickets[j].key {
          assert BuiltFrom(tickets[i], numbers[i]) && BuiltFrom(tickets[j], numbers[j]);
          Text.DecimalInjective(numbers[i], numbers[j]);
        }
      }
    }

    /** A ticket's id is the number in its key plus one. */
    lemma IdIsKeyNumberPlusOne(i: nat)
      requires Valid() && i < |tickets|
      ensures Text.AllDigits(tickets[i].id) && Text.AllDigits(Text.SuffixAfterLastDash(tickets[i].key))
      ensures Text.DigitsValue(tickets[i].id) == Text.DigitsValue(Text.SuffixAfterLastDash(tickets[i].key)) + 1
    {
      BuiltTicketNumbers(tickets[i], numbers[i]);
    }
  }

  /** Both numbers of a ticket built from `n` read back: the key's suffix
      as `n`, the id as `n + 1`. */
  lemma BuiltTicketNumbers(t: Ticket, n: nat)
    requires BuiltFrom(t, n)
    ensures Text.AllDigits(t.id) && Text.AllDigits(Text.SuffixAfterLastDash(t.key))
    ensures Text.DigitsValue(Text.SuffixAfterLastDash(t.key)) == n
    ensures Text.DigitsValue(t.id) == n + 1
  {
    var suffix, id := Text.NatToDecimal(n), Text.NatToDecimal(n + 1);
    assert Text.SuffixAfterLastDash(t.key) == suffix && t.id == id;
    Text.DecimalRoundTrip(n);
    Text.DecimalRoundTrip(n + 1);
  }

  /** The key of a ticket names the counter it was built from: reading the
      digits after the last dash gives that counter back, whatever the
      project key renders to. */
  lemma KeyNamesCounter(project: Json, counter: nat, render: Json -> string)
    ensures Text.SuffixAfterLastDash(TicketKey(project, counter, render)) == Text.NatToDecimal(counter)
    ensures Text.DigitsValue(Text.SuffixAfterLastDash(TicketKey(project, counter, render))) == counter
  {
    Text.SuffixAfterJoin(PyStr(project, render), Text.NatToDecimal(counter));
    Text.DecimalRoundTrip(counter);
  }

  /** A project key that is missing entirely yields the default project. */
  lemma DefaultProject(body: Json)
    requires body.Obj? && "fields" !in body.fields
    ensures ProjectKey(body) == Some(Str("AGENT"))
  {
  }

  /** Clearing twice: the second clear reports 0, and the next ticket is
      numbered 1000 again. */
  method ClearTwice(s: TicketStore) returns (first: nat, second: nat)
    requires s.Valid()
    modifies s
    ensures first == |old(s.tickets)| && second == 0
    ensures s.tickets == [] && s.counter == InitialCounter
  {
    first := s.ClearTickets();
    second := s.ClearTickets();
  }
}
