/** The pattern engine: sequential patterns walked backwards through the
    recent context, frequency patterns over sliding windows of timestamps,
    regex patterns over one field of an event, and the engine that scores
    an event against every registered pattern and reports the significant
    ones, best first.

    Regular expressions are not interpreted: `search(text, pattern)` stands
    for `std::regex_search` and is a parameter of everything that needs it. */
module Patterns {
  import opened Optional
  import opened Common
  import opened Events

  /** `std::regex_search(text, std::regex(pattern))`. */
  type Search = (string, string) -> bool

  //===========================================================================
  // SequentialPattern
  //===========================================================================

  /** `SequentialPattern::Step`: the event type, entity names the event must
      carry, an optional regex one entity value must contain, and the
      largest gap allowed between this step and the one after it (the walk
      measures the gap with the earlier step's limit). */
  datatype Step = Step(
    eventType: string,
    requiredEntities: seq<string>,
    entityMatcher: Option<string>,
    maxTimeSincePrev: int)

  /** The `Step` constructor: no required entities, no matcher, and the
      default limit of 60 seconds unless one is given. */
  function NewStep(eventType: string, maxTime: Option<int>): (s: Step)
    ensures s.eventType == eventType && s.requiredEntities == [] && s.entityMatcher == None
    ensures s.maxTimeSincePrev == if maxTime.Some? then maxTime.value else 60 * Second
  {
    Step(eventType, [], None, if maxTime.Some? then maxTime.value else 60 * Second)
  }

  /** Every name in `names` is an entity of `entities`. */
  predicate HasAll(entities: ContextMap, names: seq<string>)
  {
    names == [] || (Lookup(entities, names[0]).Some? && HasAll(entities, names[1..]))
  }

  lemma {:induction false} HasAllMeans(entities: ContextMap, names: seq<string>)
    ensures HasAll(entities, names) <==> forall k :: k in names ==> Lookup(entities, k).Some?
  {
    if names != [] {
      HasAllMeans(entities, names[1..]);
      if HasAll(entities, names) {
        forall k | k in names
          ensures Lookup(entities, k).Some?
        {
          if k != names[0] {
            assert k in names[1..];
          }
        }
      } else if Lookup(entities, names[0]).None? {
        assert names[0] in names;
      } else {
        assert !HasAll(entities, names[1..]);
        var k :| k in names[1..] && Lookup(entities, k).None?;
        assert k in names;
      }
    }
  }

  /** Some entity value contains a match of `pattern`. */
  predicate AnyValueMatches(entities: seq<(string, string)>, pattern: string, search: Search)
  {
    entities != [] && (search(entities[0].1, pattern) || AnyValueMatches(entities[1..], pattern, search))
  }

  lemma {:induction false} AnyValueMatchesMeans(entities: seq<(string, string)>, pattern: string, search: Search)
    ensures AnyValueMatches(entities, pattern, search)
            <==> exists i :: 0 <= i < |entities| && search(entities[i].1, pattern)
  {
    if entities != [] {
      AnyValueMatchesMeans(entities[1..], pattern, search);
      if search(entities[0].1, pattern) {
        assert 0 < |entities|;
      } else if exists i :: 0 <= i < |entities| && search(entities[i].1, pattern) {
        var i :| 0 <= i < |entities| && search(entities[i].1, pattern);
        assert entities[1..][i - 1] == entities[i];
      }
    }
  }

  /** `matches_step`. */
  predicate MatchesStep(e: LogEvent, step: Step, search: Search)
  {
    && e.eventType == step.eventType
    && HasAll(e.entities, step.requiredEntities)
    && (step.entityMatcher.None? || AnyValueMatches(e.entities, step.entityMatcher.value, search))
  }

  /** An event matches a step exactly when it has the step's type, carries
      every required entity, and, when the step has a matcher, some entity
      value contains a match. */
  lemma MatchesStepMeans(e: LogEvent, step: Step, search: Search)
    ensures MatchesStep(e, step, search) <==>
              && e.eventType == step.eventType
              && (forall k :: k in step.requiredEntities ==> Lookup(e.entities, k).Some?)
              && (step.entityMatcher.Some? ==>
                    exists i :: 0 <= i < |e.entities| && search(e.entities[i].1, step.entityMatcher.value))
  {
    HasAllMeans(e.entities, step.requiredEntities);
    if step.entityMatcher.Some? {
      AnyValueMatchesMeans(e.entities, step.entityMatcher.value, search);
    }
  }

  /** The backward walk of `match`: starting from step `current`, last
      matched at `time`, visit `context` from its newest event; stop at the
      first event farther from `time` than the previous step allows, and
      step back whenever an event matches the previous step. The result is
      the step the walk ends at; 0 means every step was found. */
  function WalkBack(steps: seq<Step>, current: nat, time: int, context: seq<LogEvent>, search: Search): (r: nat)
    requires current < |steps|
    ensures r <= current
    decreases |context|
  {
    if current == 0 || context == [] then current
    else
      var ev := context[|context| - 1];
      var prev := steps[current - 1];
      if time - ev.timestamp > prev.maxTimeSincePrev then current
      else if MatchesStep(ev, prev, search) then WalkBack(steps, current - 1, ev.timestamp, context[..|context| - 1], search)
      else WalkBack(steps, current, time, context[..|context| - 1], search)
  }

  /** The step the walk from the last step ends at. */
  function Remaining(steps: seq<Step>, e: LogEvent, context: seq<LogEvent>, search: Search): nat
    requires |steps| > 0
  {
    WalkBack(steps, |steps| - 1, e.timestamp, context, search)
  }

  /** The event completes the whole sequence. */
  predicate FullMatch(steps: seq<Step>, e: LogEvent, context: seq<LogEvent>, search: Search)
  {
    |steps| > 0 && MatchesStep(e, steps[|steps| - 1], search) && Remaining(steps, e, context, search) == 0
  }

  /** The score `SequentialPattern::match` returns. */
  function SequentialScore(steps: seq<Step>, e: LogEvent, context: seq<LogEvent>, search: Search): real
  {
    if |steps| == 0 || !MatchesStep(e, steps[|steps| - 1], search) then 0.0
    else if |steps| == 1 then 1.0
    else
      var r := Remaining(steps, e, context, search);
      if r == 0 then 1.0 else (1.0 - r as real / |steps| as real) * 0.5
  }

  /** Scores lie in [0, 1]; a score is positive exactly when the event
      matches the last step; it is 1 exactly for a full match, and every
      partial match scores strictly below 0.5. */
  lemma ScoreBands(steps: seq<Step>, e: LogEvent, context: seq<LogEvent>, search: Search)
    ensures 0.0 <= SequentialScore(steps, e, context, search) <= 1.0
    ensures SequentialScore(steps, e, context, search) > 0.0
            <==> |steps| > 0 && MatchesStep(e, steps[|steps| - 1], search)
    ensures SequentialScore(steps, e, context, search) == 1.0 <==> FullMatch(steps, e, context, search)
    ensures !FullMatch(steps, e, context, search) ==> SequentialScore(steps, e, context, search) < 0.5
  {
    if |steps| > 1 && MatchesStep(e, steps[|steps| - 1], search) {
      var r := Remaining(steps, e, context, search);
      var n := |steps|;
      if r > 0 {
        assert 0 < r < n;
        FractionBelowOne(r, n);
      }
    }
  }

  lemma FractionBelowOne(r: nat, n: nat)
    requires 0 < r < n
    ensures 0.0 < r as real / n as real < 1.0
  {
    assert r as real < n as real;
  }

  /** Positions `pos` of `context` at which the first `count` steps occur,
      in order, each within the limit of the step before its successor, the
      last within its limit of `time`. */
  ghost predicate Chain(steps: seq<Step>, count: nat, time: int, context: seq<LogEvent>, search: Search, pos: seq<nat>)
    requires count < |steps|
  {
    && |pos| == count
    && (forall j :: 0 <= j < count ==> pos[j] < |context| && MatchesStep(context[pos[j]], steps[j], search))
    && (forall j :: 0 <= j < count - 1 ==> pos[j] < pos[j + 1])
    && (forall j :: 0 <= j < count - 1 && pos[j + 1] < |context| && pos[j] < |context| ==>
          context[pos[j + 1]].timestamp - context[pos[j]].timestamp <= steps[j].maxTimeSincePrev)
    && (count > 0 && pos[count - 1] < |context| ==>
          time - context[pos[count - 1]].timestamp <= steps[count - 1].maxTimeSincePrev)
  }

  /** A walk that finds every step has found the earlier steps in the
      context, in order, each within its time limit. */
  lemma {:induction false} WalkBackSound(steps: seq<Step>, current: nat, time: int, context: seq<LogEvent>, search: Search)
    returns (pos: seq<nat>)
    requires current < |steps|
    requires WalkBack(steps, current, time, context, search) == 0
    ensures Chain(steps, current, time, context, search, pos)
    decreases |context|
  {
    if current == 0 {
      pos := [];
    } else {
      assert context != [];
      var n := |context|;
      var ev := context[n - 1];
      var prefix := context[..n - 1];
      assert time - ev.timestamp <= steps[current - 1].maxTimeSincePrev;
      if MatchesStep(ev, steps[current - 1], search) {
        assert WalkBack(steps, current - 1, ev.timestamp, prefix, search) == 0;
        var p := WalkBackSound(steps, current - 1, ev.timestamp, prefix, search);
        pos := p + [n - 1];
        ChainExtend(steps, current, time, context, search, p);
      } else {
        assert WalkBack(steps, current, time, prefix, search) == 0;
        pos := WalkBackSound(steps, current, time, prefix, search);
        ChainWiden(steps, current, time, context, search, pos);
      }
    }
  }

  /** A chain in all but the newest event, extended by that event as the
      next step. */
  lemma ChainExtend(steps: seq<Step>, current: nat, time: int, context: seq<LogEvent>, search: Search, p: seq<nat>)
    requires 0 < current < |steps| && context != []
    requires MatchesStep(context[|context| - 1], steps[current - 1], search)
    requires time - context[|context| - 1].timestamp <= steps[current - 1].maxTimeSincePrev
    requires Chain(steps, current - 1, context[|context| - 1].timestamp, context[..|context| - 1], search, p)
    ensures Chain(steps, current, time, context, search, p + [|context| - 1])
  {
    var n := |context|;
    var prefix := context[..n - 1];
    var pos := p + [n - 1];
    forall j | 0 <= j < current - 1
      ensures pos[j] == p[j] < n - 1 && context[pos[j]] == prefix[p[j]]
    {
    }
    assert pos[current - 1] == n - 1 && context[n - 1] == context[|context| - 1];
  }

  /** A chain in all but the newest event is a chain in the whole context. */
  lemma ChainWiden(steps: seq<Step>, count: nat, time: int, context: seq<LogEvent>, search: Search, pos: seq<nat>)
    requires count < |steps| && context != []
    requires Chain(steps, count, time, context[..|context| - 1], search, pos)
    ensures Chain(steps, count, time, context, search, pos)
  {
    var prefix := context[..|context| - 1];
    forall j | 0 <= j < count
      ensures pos[j] < |context| && context[pos[j]] == prefix[pos[j]]
    {
    }
  }

  /** A full match of a multi-step pattern: the context holds the earlier
      steps in order and within their limits. */
  lemma FullMatchHasChain(steps: seq<Step>, e: LogEvent, context: seq<LogEvent>, search: Search) returns (pos: seq<nat>)
    requires FullMatch(steps, e, context, search)
    ensures Chain(steps, |steps| - 1, e.timestamp, context, search, pos)
  {
    pos := WalkBackSound(steps, |steps| - 1, e.timestamp, context, search);
  }

  /** `PatternFactory::cascading_failure`. */
  function CascadingFailure(): (steps: seq<Step>)
    ensures |steps| == 3 && steps[0].eventType == "database.slow" && steps[2].eventType == "user.error"
  {
    [NewStep("database.slow", Some(10 * Second)),
     NewStep("api.timeout", Some(5 * Second)),
     NewStep("user.error", Some(3 * Second))]
  }

  class SequentialPattern {
    const name: string
    const steps: seq<Step>
    /** `match_count_`. */
    var matchCount: nat

    constructor(name: string, steps: seq<Step>)
      ensures this.name == name && this.steps == steps && matchCount == 0
    {
      this.name := name;
      this.steps := steps;
      matchCount := 0;
    }

    /** `SequentialPattern::match`: the score, counting a full match. */
    method Match(e: LogEvent, context: seq<LogEvent>, search: Search) returns (score: real)
      modifies this
      ensures score == SequentialScore(steps, e, context, search)
      ensures matchCount == old(matchCount) + (if FullMatch(steps, e, context, search) then 1 else 0)
    {
      if |steps| == 0 {
        return 0.0;
      }
      if !MatchesStep(e, steps[|steps| - 1], search) {
        return 0.0;
      }
      if |steps| == 1 {
        matchCount := matchCount + 1;
        return 1.0;
      }
      var current := |steps| - 1;
      var time := e.timestamp;
      var k := |context|;
      assert context[..k] == context;
      while k > 0
        invariant 0 <= k <= |context|
        invariant 0 < current < |steps|
        invariant WalkBack(steps, current, time, context[..k], search) == Remaining(steps, e, context, search)
        invariant matchCount == old(matchCount)
      {
        assert context[..k][..k - 1] == context[..k - 1];
        var ev := context[k - 1];
        var prev := steps[current - 1];
        if time - ev.timestamp > prev.maxTimeSincePrev {
          break;
        }
        if MatchesStep(ev, prev, search) {
          current := current - 1;
          time := ev.timestamp;
          if current == 0 {
            matchCount := matchCount + 1;
            return 1.0;
          }
        }
        k := k - 1;
      }
      score := (1.0 - current as real / |steps| as real) * 0.5;
    }
  }

  //===========================================================================
  // FrequencyPattern
  //===========================================================================

  /** `FrequencyPattern::FrequencyType`. */
  datatype FrequencyType = Burst | Repeated | Absence

  /** The timestamps recorded under `value`, an empty deque when none. */
  function Get(times: map<string, seq<int>>, value: string): seq<int>
  {
    if value in times then times[value] else []
  }

  /** The deque after popping every front timestamp older than `cutoff`. */
  function DropOlder(ts: seq<int>, cutoff: int): (r: seq<int>)
    ensures |r| <= |ts| && r == ts[|ts| - |r|..]
    ensures r != [] ==> r[0] >= cutoff
    ensures forall i :: 0 <= i < |ts| - |r| ==> ts[i] < cutoff
  {
    if ts != [] && ts[0] < cutoff then DropOlder(ts[1..], cutoff) else ts
  }

  /** Popping twice changes nothing more. */
  lemma DropOlderIdempotent(ts: seq<int>, cutoff: int)
    ensures DropOlder(DropOlder(ts, cutoff), cutoff) == DropOlder(ts, cutoff)
  {
  }

  /** When timestamps were recorded in order, what stays is exactly the
      timestamps at or after the cutoff. */
  lemma DropOlderOfOrdered(ts: seq<int>, cutoff: int)
    requires forall i, j :: 0 <= i < j < |ts| ==> ts[i] <= ts[j]
    ensures forall t :: t in DropOlder(ts, cutoff) <==> t in ts && t >= cutoff
  {
    var r := DropOlder(ts, cutoff);
    var d := |ts| - |r|;
    forall t | t in ts && t >= cutoff
      ensures t in r
    {
      var i :| 0 <= i < |ts| && ts[i] == t;
      assert i >= d;
      assert r[i - d] == t;
    }
    forall t | t in r
      ensures t in ts && t >= cutoff
    {
      var i :| 0 <= i < |r| && r[i] == t;
      assert ts[d + i] == t;
      assert r[0] <= r[i] by {
        assert ts[d] <= ts[d + i] || i == 0;
      }
    }
  }

  /** The `REPEATED` scan: for each entity value in order, prune its
      deque (creating an empty one when absent) and stop at the first value
      with at least `threshold` timestamps left. The new map and whether
      such a value was found. */
  function RepeatScan(times: map<string, seq<int>>, entities: seq<(string, string)>, cutoff: int, threshold: nat)
    : (map<string, seq<int>>, bool)
    decreases |entities|
  {
    if entities == [] then (times, false)
    else
      var value := entities[0].1;
      var pruned := DropOlder(Get(times, value), cutoff);
      var after := times[value := pruned];
      if |pruned| >= threshold then (after, true)
      else RepeatScan(after, entities[1..], cutoff, threshold)
  }

  /** The scan only prunes: every deque is either untouched or pruned, and
      no deque is removed. */
  lemma ScanEntries(times: map<string, seq<int>>, entities: seq<(string, string)>, cutoff: int, threshold: nat)
    ensures forall w :: w in times ==> w in RepeatScan(times, entities, cutoff, threshold).0
    ensures forall w :: Get(RepeatScan(times, entities, cutoff, threshold).0, w) == Get(times, w)
                     || Get(RepeatScan(times, entities, cutoff, threshold).0, w) == DropOlder(Get(times, w), cutoff)
  {
    forall w
      ensures w in times ==> w in RepeatScan(times, entities, cutoff, threshold).0
      ensures Get(RepeatScan(times, entities, cutoff, threshold).0, w) == Get(times, w)
           || Get(RepeatScan(times, entities, cutoff, threshold).0, w) == DropOlder(Get(times, w), cutoff)
    {
      ScanEntry(times, entities, cutoff, threshold, w);
    }
  }

  /** The scan's effect on the deque of one value `w`. */
  lemma {:induction false} ScanEntry(times: map<string, seq<int>>, entities: seq<(string, string)>, cutoff: int, threshold: nat, w: string)
    ensures w in times ==> w in RepeatScan(times, entities, cutoff, threshold).0
    ensures Get(RepeatScan(times, entities, cutoff, threshold).0, w) == Get(times, w)
         || Get(RepeatScan(times, entities, cutoff, threshold).0, w) == DropOlder(Get(times, w), cutoff)
    decreases |entities|
  {
    if entities != [] {
      var value := entities[0].1;
      var pruned := DropOlder(Get(times, value), cutoff);
      var after := times[value := pruned];
      var result := RepeatScan(times, entities, cutoff, threshold).0;
      assert Get(after, w) == if w == value then DropOlder(Get(times, w), cutoff) else Get(times, w);
      if |pruned| >= threshold {
        assert result == after;
      } else {
        var rest := RepeatScan(after, entities[1..], cutoff, threshold).0;
        assert result == rest;
        ScanEntry(after, entities[1..], cutoff, threshold, w);
        DropOlderIdempotent(Get(times, w), cutoff);
      }
    }
  }

  /** The scan leaves every in-window deque as it was. */
  lemma ScanKeepsWindows(times: map<string, seq<int>>, entities: seq<(string, string)>, cutoff: int, threshold: nat)
    ensures forall w :: DropOlder(Get(RepeatScan(times, entities, cutoff, threshold).0, w), cutoff)
                     == DropOlder(Get(times, w), cutoff)
  {
    ScanEntries(times, entities, cutoff, threshold);
    forall w
      ensures DropOlder(Get(RepeatScan(times, entities, cutoff, threshold).0, w), cutoff) == DropOlder(Get(times, w), cutoff)
    {
      DropOlderIdempotent(Get(times, w), cutoff);
    }
  }

  /** `value` has at least `threshold` timestamps inside the window. */
  predicate Heavy(times: map<string, seq<int>>, value: string, cutoff: int, threshold: nat)
  {
    |DropOlder(Get(times, value), cutoff)| >= threshold
  }

  /** Pruning one deque changes no in-window count. */
  lemma PruneOneKeepsWindows(times: map<string, seq<int>>, value: string, cutoff: int, threshold: nat)
    ensures forall w :: Heavy(times[value := DropOlder(Get(times, value), cutoff)], w, cutoff, threshold)
                        == Heavy(times, w, cutoff, threshold)
  {
    var after := times[value := DropOlder(Get(times, value), cutoff)];
    forall w
      ensures Heavy(after, w, cutoff, threshold) == Heavy(times, w, cutoff, threshold)
    {
      if w == value {
        assert Get(after, w) == DropOlder(Get(times, w), cutoff);
        DropOlderIdempotent(Get(times, w), cutoff);
      } else {
        assert Get(after, w) == Get(times, w);
      }
    }
  }


  /** `REPEATED` fires exactly when some entity value of the event has at
      least `threshold` timestamps inside the window. */
  lemma {:induction false} RepeatedIff(times: map<string, seq<int>>, entities: seq<(string, string)>, cutoff: int, threshold: nat)
    ensures RepeatScan(times, entities, cutoff, threshold).1
            <==> exists i :: 0 <= i < |entities| && Heavy(times, entities[i].1, cutoff, threshold)
    decreases |entities|
  {
    if entities != [] {
      var value := entities[0].1;
      var after := times[value := DropOlder(Get(times, value), cutoff)];
      if !Heavy(times, value, cutoff, threshold) {
        var rest := entities[1..];
        assert RepeatScan(times, entities, cutoff, threshold) == RepeatScan(after, rest, cutoff, threshold);
        RepeatedIff(after, rest, cutoff, threshold);
        PruneOneKeepsWindows(times, value, cutoff, threshold);
        if exists i :: 0 <= i < |entities| && Heavy(times, entities[i].1, cutoff, threshold) {
          var i :| 0 <= i < |entities| && Heavy(times, entities[i].1, cutoff, threshold);
          assert i != 0;
          assert rest[i - 1] == entities[i];
          assert Heavy(after, rest[i - 1].1, cutoff, threshold);
        }
        if RepeatScan(times, entities, cutoff, threshold).1 {
          var i :| 0 <= i < |rest| && Heavy(after, rest[i].1, cutoff, threshold);
          assert entities[i + 1] == rest[i];
          assert Heavy(times, entities[i + 1].1, cutoff, threshold);
        }
      } else {
        assert RepeatScan(times, entities, cutoff, threshold).1;
        assert Heavy(times, entities[0].1, cutoff, threshold);
      }
    }
  }

  /** Scanning an already scanned map changes nothing and finds the same. */
  lemma {:induction false} ScanIdempotent(times: map<string, seq<int>>, entities: seq<(string, string)>, cutoff: int, threshold: nat)
    ensures RepeatScan(RepeatScan(times, entities, cutoff, threshold).0, entities, cutoff, threshold)
            == RepeatScan(times, entities, cutoff, threshold)
    decreases |entities|
  {
    if entities != [] {
      var value := entities[0].1;
      var rest := entities[1..];
      var pruned := DropOlder(Get(times, value), cutoff);
      var after := times[value := pruned];
      DropOlderIdempotent(Get(times, value), cutoff);
      if |pruned| >= threshold {
        assert RepeatScan(times, entities, cutoff, threshold) == (after, true);
        assert Get(after, value) == pruned;
        UpdateSame(after, value, DropOlder(Get(after, value), cutoff));
      } else {
        var out := RepeatScan(after, rest, cutoff, threshold);
        assert RepeatScan(times, entities, cutoff, threshold) == out;
        ScanEntry(after, rest, cutoff, threshold, value);
        assert Get(out.0, value) == pruned;
        UpdateSame(out.0, value, DropOlder(Get(out.0, value), cutoff));
        assert RepeatScan(out.0, entities, cutoff, threshold) == RepeatScan(out.0, rest, cutoff, threshold);
        ScanIdempotent(after, rest, cutoff, threshold);
      }
    }
  }

  /** Storing the deque a map already holds leaves the map as it is. */
  lemma UpdateSame(m: map<string, seq<int>>, value: string, ts: seq<int>)
    requires value in m && m[value] == ts
    ensures m[value := ts] == m
  {
  }




  /** `min(1.0, 0.7 + excess * 0.3)` with `excess = (count - threshold + 1)
      / threshold`, once `count` reaches `threshold`. A threshold of 0
      divides by zero, giving an infinite excess and so a score of 1. */
  function BurstScore(count: nat, threshold: nat): real
  {
    if count < threshold then 0.0
    else if threshold == 0 then 1.0
    else Min(1.0, 0.7 + ((count - threshold + 1) as real / threshold as real) * 0.3)
  }

  /** A burst scores nothing below the threshold and more than 0.7 (so it
      is always significant) from it on, never more than 1, and a full 1
      once the count is one short of twice the threshold. */
  lemma BurstBands(count: nat, threshold: nat)
    ensures BurstScore(count, threshold) <= 1.0
    ensures BurstScore(count, threshold) > 0.0 <==> count >= threshold
    ensures count >= threshold ==> BurstScore(count, threshold) > 0.7
    ensures count + 1 >= 2 * threshold ==> BurstScore(count, threshold) == 1.0
  {
    if count >= threshold && threshold > 0 {
      var excess := (count - threshold + 1) as real / threshold as real;
      assert excess > 0.0;
      if count + 1 >= 2 * threshold {
        assert (count - threshold + 1) as real >= threshold as real;
        assert excess >= 1.0;
      }
    }
  }

  /** More events in the window never lower the burst score. */
  lemma BurstMonotone(c1: nat, c2: nat, threshold: nat)
    requires c1 <= c2
    ensures BurstScore(c1, threshold) <= BurstScore(c2, threshold)
  {
    BurstBands(c1, threshold);
    BurstBands(c2, threshold);
    if c1 >= threshold && threshold > 0 {
      var t := threshold as real;
      var a := (c1 - threshold + 1) as real;
      var b := (c2 - threshold + 1) as real;
      assert b / t - a / t == (b - a) / t;
      assert (b - a) / t >= 0.0;
    }
  }

  /** How many of `entities` have the value `value`. */
  function CountValue(entities: seq<(string, string)>, value: string): nat
  {
    if entities == [] then 0
    else (if entities[0].1 == value then 1 else 0) + CountValue(entities[1..], value)
  }

  /** `train`'s entity loop: append `ts` to the deque of each entity value
      in order, creating the deque when absent. */
  function Record(times: map<string, seq<int>>, entities: seq<(string, string)>, ts: int): map<string, seq<int>>
    decreases |entities|
  {
    if entities == [] then times
    else
      var value := entities[0].1;
      Record(times[value := Get(times, value) + [ts]], entities[1..], ts)
  }

  /** Training appends `ts` once per entity carrying that value, and nothing
      else. */
  lemma {:induction false} RecordAppends(times: map<string, seq<int>>, entities: seq<(string, string)>, ts: int, value: string)
    ensures Get(Record(times, entities, ts), value) == Get(times, value) + seq(CountValue(entities, value), _ => ts)
    decreases |entities|
  {
    if entities != [] {
      var v := entities[0].1;
      var after := times[v := Get(times, v) + [ts]];
      RecordAppends(after, entities[1..], ts, value);
      var n := CountValue(entities[1..], value);
      if v == value {
        assert [ts] + seq(n, _ => ts) == seq(n + 1, _ => ts);
      }
    }
  }

  /** `event_times_` and `entity_times_` of a frequency pattern. */
  datatype History = History(eventTimes: seq<int>, entityTimes: map<string, seq<int>>)

  class FrequencyPattern {
    const name: string
    /** `event_type_`, `type_`, `threshold_` and `window_`. */
    const eventType: string
    const kind: FrequencyType
    const threshold: nat
    const window: int
    var eventTimes: seq<int>
    var entityTimes: map<string, seq<int>>

    constructor(name: string, eventType: string, kind: FrequencyType, threshold: nat, window: int)
      ensures this.name == name && this.eventType == eventType && this.kind == kind
      ensures this.threshold == threshold && this.window == window
      ensures eventTimes == [] && entityTimes == map[]
    {
      this.name := name;
      this.eventType := eventType;
      this.kind := kind;
      this.threshold := threshold;
      this.window := window;
      eventTimes := [];
      entityTimes := map[];
    }

    ghost function Recorded(): History
      reads this
    {
      History(eventTimes, entityTimes)
    }

    /** The start of the window ending at `now`. */
    function Cutoff(now: int): int
    {
      now - window
    }

    /** The history after `match` of `e` has pruned it. */
    function Pruned(h: History, e: LogEvent): History
    {
      if e.eventType != eventType then h
      else
        var cutoff := Cutoff(e.timestamp);
        History(DropOlder(h.eventTimes, cutoff),
                if kind == Repeated then RepeatScan(h.entityTimes, e.entities, cutoff, threshold).0 else h.entityTimes)
    }

    /** The score `match` of `e` returns on history `h`. */
    function ScoreOn(h: History, e: LogEvent): real
    {
      if e.eventType != eventType then 0.0
      else
        var cutoff := Cutoff(e.timestamp);
        match kind
        case Burst => BurstScore(|DropOlder(h.eventTimes, cutoff)|, threshold)
        case Repeated => if RepeatScan(h.entityTimes, e.entities, cutoff, threshold).1 then 1.0 else 0.0
        case Absence => 0.0
    }

    ghost function Score(e: LogEvent): real
      reads this
    {
      ScoreOn(Recorded(), e)
    }

    /** The history after `train` of `e`. */
    function Trained(h: History, e: LogEvent): History
    {
      if e.eventType != eventType then h
      else History(h.eventTimes + [e.timestamp], Record(h.entityTimes, e.entities, e.timestamp))
    }

    /** The history after `n` trainings on `e`. */
    function TrainedTimes(h: History, e: LogEvent, n: nat): History
    {
      if n == 0 then h else Trained(TrainedTimes(h, e, n - 1), e)
    }

    /** A score is 0 for other event types and for `ABSENCE`, at most 1,
        positive for a burst exactly when the in-window count reaches the
        threshold, and 1 for a repeat exactly when some entity value of the
        event has reached it inside the window. */
    lemma ScoreMeans(h: History, e: LogEvent)
      ensures 0.0 <= ScoreOn(h, e) <= 1.0
      ensures e.eventType != eventType || kind == Absence ==> ScoreOn(h, e) == 0.0
      ensures e.eventType == eventType && kind == Burst ==>
                (ScoreOn(h, e) > 0.0 <==> |DropOlder(h.eventTimes, Cutoff(e.timestamp))| >= threshold)
      ensures e.eventType == eventType && kind == Repeated ==>
                (ScoreOn(h, e) == 1.0 <==>
                   exists i :: 0 <= i < |e.entities| && Heavy(h.entityTimes, e.entities[i].1, Cutoff(e.timestamp), threshold))
    {
      var cutoff := Cutoff(e.timestamp);
      BurstBands(|DropOlder(h.eventTimes, cutoff)|, threshold);
      RepeatedIff(h.entityTimes, e.entities, cutoff, threshold);
    }

    /** Matching the same event again prunes nothing more... */
    lemma PrunedIdempotent(h: History, e: LogEvent)
      ensures Pruned(Pruned(h, e), e) == Pruned(h, e)
    {
      if e.eventType == eventType {
        var cutoff := Cutoff(e.timestamp);
        DropOlderIdempotent(h.eventTimes, cutoff);
        if kind == Repeated {
          ScanIdempotent(h.entityTimes, e.entities, cutoff, threshold);
        }
      }
    }

    /** ...and scores the same. */
    lemma PrunedKeepsScore(h: History, e: LogEvent)
      ensures ScoreOn(Pruned(h, e), e) == ScoreOn(h, e)
    {
      if e.eventType == eventType {
        var cutoff := Cutoff(e.timestamp);
        DropOlderIdempotent(h.eventTimes, cutoff);
        if kind == Repeated {
          var after := RepeatScan(h.entityTimes, e.entities, cutoff, threshold).0;
          ScanKeepsWindows(h.entityTimes, e.entities, cutoff, threshold);
          RepeatedIff(h.entityTimes, e.entities, cutoff, threshold);
          RepeatedIff(after, e.entities, cutoff, threshold);
        }
      }
    }

    /** Training records one timestamp per training for the configured
        event type and ignores other event types... */
    lemma {:induction false} TrainedTimesEvents(h: History, e: LogEvent, n: nat)
      ensures |TrainedTimes(h, e, n).eventTimes| == |h.eventTimes| + (if e.eventType == eventType then n else 0)
      ensures e.eventType != eventType ==> TrainedTimes(h, e, n) == h
    {
      if n > 0 {
        TrainedTimesEvents(h, e, n - 1);
      }
    }

    /** ...and one timestamp per training and entity for each entity value. */
    lemma {:induction false} TrainedTimesEntities(h: History, e: LogEvent, n: nat, value: string)
      requires e.eventType == eventType
      ensures |Get(TrainedTimes(h, e, n).entityTimes, value)| == |Get(h.entityTimes, value)| + n * CountValue(e.entities, value)
    {
      if n > 0 {
        var before := TrainedTimes(h, e, n - 1);
        var c := CountValue(e.entities, value);
        TrainedTimesEntities(h, e, n - 1, value);
        RecordAppends(before.entityTimes, e.entities, e.timestamp, value);
        assert TrainedTimes(h, e, n).entityTimes == Record(before.entityTimes, e.entities, e.timestamp);
        assert (n - 1) * c + c == n * c;
      }
    }

    /** `FrequencyPattern::match`. */
    method Match(e: LogEvent) returns (score: real)
      modifies this
      ensures score == old(Score(e))
      ensures Recorded() == Pruned(old(Recorded()), e)
    {
      if e.eventType != eventType {
        return 0.0;
      }
      ghost var h := Recorded();
      var cutoff := Cutoff(e.timestamp);
      eventTimes := PopOlder(eventTimes, cutoff);
      var count := |eventTimes|;
      assert count == |DropOlder(h.eventTimes, cutoff)|;
      match kind {
        case Burst =>
          score := BurstScore(count, threshold);
          assert Recorded() == History(DropOlder(h.eventTimes, cutoff), h.entityTimes);
        case Repeated =>
          var found := ScanRepeated(e.entities, cutoff);
          score := if found then 1.0 else 0.0;
          assert Recorded() == History(DropOlder(h.eventTimes, cutoff), RepeatScan(h.entityTimes, e.entities, cutoff, threshold).0);
        case Absence =>
          score := 0.0;
          assert Recorded() == History(DropOlder(h.eventTimes, cutoff), h.entityTimes);
      }
    }

    /** The `REPEATED` branch of `match`: prune the deque of each entity
        value in turn until one holds at least `threshold` timestamps. */
    method ScanRepeated(entities: seq<(string, string)>, cutoff: int) returns (found: bool)
      modifies this
      ensures eventTimes == old(eventTimes)
      ensures (entityTimes, found) == RepeatScan(old(entityTimes), entities, cutoff, threshold)
    {
      var i := 0;
      while i < |entities|
        invariant 0 <= i <= |entities|
        invariant eventTimes == old(eventTimes)
        invariant RepeatScan(entityTimes, entities[i..], cutoff, threshold)
                  == RepeatScan(old(entityTimes), entities, cutoff, threshold)
      {
        assert entities[i..][1..] == entities[i + 1..];
        var value := entities[i].1;
        var times := PopOlder(Get(entityTimes, value), cutoff);
        entityTimes := entityTimes[value := times];
        if |times| >= threshold {
          return true;
        }
        i := i + 1;
      }
      return false;
    }

    /** `FrequencyPattern::train`. */
    method Train(e: LogEvent)
      modifies this
      ensures Recorded() == Trained(old(Recorded()), e)
    {
      if e.eventType != eventType {
        return;
      }
      eventTimes := eventTimes + [e.timestamp];
      var i := 0;
      while i < |e.entities|
        invariant 0 <= i <= |e.entities|
        invariant eventTimes == old(eventTimes) + [e.timestamp]
        invariant Record(entityTimes, e.entities[i..], e.timestamp) == Record(old(entityTimes), e.entities, e.timestamp)
      {
        assert e.entities[i..][1..] == e.entities[i + 1..];
        var value := e.entities[i].1;
        entityTimes := entityTimes[value := Get(entityTimes, value) + [e.timestamp]];
        i := i + 1;
      }
    }
  }

  /** The `pop_front` loop over a deque of timestamps. */
  method PopOlder(ts: seq<int>, cutoff: int) returns (r: seq<int>)
    ensures r == DropOlder(ts, cutoff)
  {
    r := ts;
    while r != [] && r[0] < cutoff
      invariant DropOlder(r, cutoff) == DropOlder(ts, cutoff)
      decreases |r|
    {
      r := r[1..];
    }
  }

  /** `PatternFactory::retry_storm`: a burst of ten `api.retry` events
      within 30 seconds. */
  method RetryStorm() returns (p: FrequencyPattern)
    ensures fresh(p)
    ensures p.name == "retry_storm" && p.eventType == "api.retry" && p.kind == Burst
    ensures p.threshold == 10 && p.window == 30 * Second
    ensures p.eventTimes == [] && p.entityTimes == map[]
  {
    p := new FrequencyPattern("retry_storm", "api.retry", Burst, 10, 30 * Second);
  }

  /** `PatternFactory::auth_failure_pattern`: five `auth.failed` events
      carrying the same entity value within 60 seconds. */
  method AuthFailure() returns (p: FrequencyPattern)
    ensures fresh(p)
    ensures p.name == "auth_failure_burst" && p.eventType == "auth.failed" && p.kind == Repeated
    ensures p.threshold == 5 && p.window == 60 * Second
    ensures p.eventTimes == [] && p.entityTimes == map[]
  {
    p := new FrequencyPattern("auth_failure_burst", "auth.failed", Repeated, 5, 60 * Second);
  }

  /** The burst bands at the retry storm's threshold of ten: nine events
      in the window score 0, ten score above 0.7, nineteen score 1. */
  lemma BuiltinFrequencies()
    ensures BurstScore(9, 10) == 0.0 && BurstScore(10, 10) > 0.7 && BurstScore(19, 10) == 1.0
  {
    BurstBands(9, 10);
    BurstBands(10, 10);
    BurstBands(19, 10);
  }

  //===========================================================================
  // RegexPattern
  //===========================================================================

  /** `RegexPattern`: its name, its regular expression and the field it
      searches ("message" by default). */
  datatype RegexPattern = RegexPattern(name: string, pattern: string, field: string)

  /** The text `RegexPattern::match` searches: the message, the event type,
      or the entity the field names, if the event has it. */
  function FieldValue(e: LogEvent, field: string): (r: Option<string>)
    ensures field == "message" ==> r == Some(e.message)
    ensures field == "event_type" ==> r == Some(e.eventType)
    ensures field != "message" && field != "event_type" ==>
              (r.Some? <==> exists i :: 0 <= i < |e.entities| && e.entities[i].0 == field)
              && (r.Some? ==> (field, r.value) in e.entities)
  {
    if field == "message" then Some(e.message)
    else if field == "event_type" then Some(e.eventType)
    else Lookup(e.entities, field)
  }

  /** `RegexPattern::match`. */
  function RegexScore(p: RegexPattern, e: LogEvent, search: Search): (r: real)
    ensures r == 0.0 || r == 1.0
    ensures r == 1.0 <==> FieldValue(e, p.field).Some? && search(FieldValue(e, p.field).value, p.pattern)
  {
    match FieldValue(e, p.field)
    case None => 0.0
    case Some(value) => if search(value, p.pattern) then 1.0 else 0.0
  }

  /** A pattern on a missing entity scores 0, whatever the regex; and the
      two reserved field names never read an entity of that name. */
  lemma RegexFieldSelection(p: RegexPattern, e: LogEvent, other: ContextMap, search: Search)
    ensures (p.field != "message" && p.field != "event_type" && Lookup(e.entities, p.field).None?) ==>
              RegexScore(p, e, search) == 0.0
    ensures (p.field == "message" || p.field == "event_type") ==>
              RegexScore(p, e.(entities := other), search) == RegexScore(p, e, search)
  {
  }

  //===========================================================================
  // PatternEngine
  //===========================================================================

  /** A registered pattern (`std::shared_ptr<PatternMatcher>`). */
  datatype Matcher =
    | Sequential(seqp: SequentialPattern)
    | Frequency(freq: FrequencyPattern)
    | Regex(regex: RegexPattern)

  /** `PatternEngine::PatternMatch` without its description text. */
  datatype PatternMatch = PatternMatch(pattern: Matcher, score: real)

  /** The score the pattern's `match` gives `e` in the current state. */
  ghost function PatternScore(m: Matcher, e: LogEvent, context: seq<LogEvent>, search: Search): real
    reads if m.Frequency? then {m.freq} else {}
  {
    match m
    case Sequential(s) => SequentialScore(s.steps, e, context, search)
    case Frequency(f) => f.Score(e)
    case Regex(r) => RegexScore(r, e, search)
  }

  ghost function FrequencyObjects(ps: seq<Matcher>): set<FrequencyPattern>
  {
    set j | 0 <= j < |ps| && ps[j].Frequency? :: ps[j].freq
  }

  /** Every pattern paired with its score, in registration order. */
  ghost function Scored(ps: seq<Matcher>, e: LogEvent, context: seq<LogEvent>, search: Search): (r: seq<PatternMatch>)
    reads FrequencyObjects(ps)
    ensures |r| == |ps|
    ensures forall j :: 0 <= j < |ps| ==> r[j] == PatternMatch(ps[j], PatternScore(ps[j], e, context, search))
  {
    if ps == [] then []
    else
      assert FrequencyObjects(ps[..|ps| - 1]) <= FrequencyObjects(ps) by {
        forall f | f in FrequencyObjects(ps[..|ps| - 1]) ensures f in FrequencyObjects(ps) {
          var j :| 0 <= j < |ps| - 1 && ps[..|ps| - 1][j].Frequency? && ps[..|ps| - 1][j].freq == f;
          assert ps[j] == ps[..|ps| - 1][j];
        }
      }
      Scored(ps[..|ps| - 1], e, context, search)
        + [PatternMatch(ps[|ps| - 1], PatternScore(ps[|ps| - 1], e, context, search))]
  }

  /** The matches scoring above 0.5, in order. */
  function Significant(ms: seq<PatternMatch>): (r: seq<PatternMatch>)
    ensures forall i :: 0 <= i < |r| ==> r[i] in ms && r[i].score > 0.5
    ensures forall i :: 0 <= i < |ms| && ms[i].score > 0.5 ==> ms[i] in r
    ensures |r| <= |ms|
  {
    if ms == [] then []
    else Significant(ms[..|ms| - 1]) + (if ms[|ms| - 1].score > 0.5 then [ms[|ms| - 1]] else [])
  }

  /** Scores never increase along `ms`. */
  predicate SortedDesc(ms: seq<PatternMatch>)
  {
    forall i, j :: 0 <= i < j < |ms| ==> ms[i].score >= ms[j].score
  }

  /** Inserts `m` after every match scoring at least as much. */
  function Insert(m: PatternMatch, sorted: seq<PatternMatch>): seq<PatternMatch>
  {
    if sorted == [] then [m]
    else if sorted[0].score < m.score then [m] + sorted
    else [sorted[0]] + Insert(m, sorted[1..])
  }

  /** Insertion adds exactly `m`... */
  lemma {:induction false} InsertPermutes(m: PatternMatch, sorted: seq<PatternMatch>)
    ensures multiset(Insert(m, sorted)) == multiset(sorted) + multiset{m}
  {
    if sorted != [] && sorted[0].score >= m.score {
      InsertPermutes(m, sorted[1..]);
      assert sorted == [sorted[0]] + sorted[1..];
    }
  }

  /** ...each element of the result is `m` or comes from `sorted`... */
  lemma {:induction false} InsertMembers(m: PatternMatch, sorted: seq<PatternMatch>)
    ensures |Insert(m, sorted)| == |sorted| + 1
    ensures forall j :: 0 <= j < |Insert(m, sorted)| ==> Insert(m, sorted)[j] == m || Insert(m, sorted)[j] in sorted
  {
    if sorted != [] && sorted[0].score >= m.score {
      InsertMembers(m, sorted[1..]);
    }
  }

  /** ...and the order is kept. */
  lemma {:induction false} InsertSorted(m: PatternMatch, sorted: seq<PatternMatch>)
    requires SortedDesc(sorted)
    ensures SortedDesc(Insert(m, sorted))
  {
    if sorted != [] && sorted[0].score >= m.score {
      var rest := Insert(m, sorted[1..]);
      InsertSorted(m, sorted[1..]);
      InsertMembers(m, sorted[1..]);
      forall j | 0 <= j < |rest|
        ensures rest[j].score <= sorted[0].score
      {
        if rest[j] != m {
          var k :| 0 <= k < |sorted[1..]| && sorted[1..][k] == rest[j];
          assert sorted[k + 1] == rest[j];
        }
      }
    }
  }

  /** `std::sort` by descending score (equal scores keep their order here;
      the library leaves it unspecified). */
  method SortByScore(ms: seq<PatternMatch>) returns (sorted: seq<PatternMatch>)
    ensures SortedDesc(sorted)
    ensures multiset(sorted) == multiset(ms)
  {
    sorted := [];
    var i := 0;
    while i < |ms|
      invariant 0 <= i <= |ms|
      invariant SortedDesc(sorted)
      invariant multiset(sorted) == multiset(ms[..i])
    {
      assert ms[..i + 1] == ms[..i] + [ms[i]];
      InsertPermutes(ms[i], sorted);
      InsertSorted(ms[i], sorted);
      sorted := Insert(ms[i], sorted);
      i := i + 1;
    }
    assert ms[..i] == ms;
  }

  /** How many times `m` is registered in `ps`. */
  function Occurrences(ps: seq<Matcher>, m: Matcher): nat
  {
    if ps == [] then 0
    else Occurrences(ps[..|ps| - 1], m) + (if ps[|ps| - 1] == m then 1 else 0)
  }

  ghost function SequentialObjects(ps: seq<Matcher>): set<SequentialPattern>
  {
    set j | 0 <= j < |ps| && ps[j].Sequential? :: ps[j].seqp
  }

  /** The history of a frequency pattern; other patterns have none. */
  ghost function HistoryOf(m: Matcher): History
    reads if m.Frequency? then {m.freq} else {}
  {
    if m.Frequency? then m.freq.Recorded() else History([], map[])
  }

  /** The match count of a sequential pattern; other patterns have none. */
  ghost function CountOf(m: Matcher): nat
    reads if m.Sequential? then {m.seqp} else {}
  {
    if m.Sequential? then m.seqp.matchCount else 0
  }

  /** The histories of `ps`, position by position. */
  ghost function Histories(ps: seq<Matcher>): (r: seq<History>)
    reads FrequencyObjects(ps)
    ensures |r| == |ps| && forall j :: 0 <= j < |ps| ==> r[j] == HistoryOf(ps[j])
  {
    if ps == [] then []
    else
      assert FrequencyObjects(ps[..|ps| - 1]) <= FrequencyObjects(ps) by {
        forall f | f in FrequencyObjects(ps[..|ps| - 1]) ensures f in FrequencyObjects(ps) {
          var j :| 0 <= j < |ps| - 1 && ps[..|ps| - 1][j].Frequency? && ps[..|ps| - 1][j].freq == f;
          assert ps[j] == ps[..|ps| - 1][j];
        }
      }
      Histories(ps[..|ps| - 1]) + [HistoryOf(ps[|ps| - 1])]
  }

  /** The match counts of `ps`, position by position. */
  ghost function MatchCounts(ps: seq<Matcher>): (r: seq<nat>)
    reads SequentialObjects(ps)
    ensures |r| == |ps| && forall j :: 0 <= j < |ps| ==> r[j] == CountOf(ps[j])
  {
    if ps == [] then []
    else
      assert SequentialObjects(ps[..|ps| - 1]) <= SequentialObjects(ps) by {
        forall s | s in SequentialObjects(ps[..|ps| - 1]) ensures s in SequentialObjects(ps) {
          var j :| 0 <= j < |ps| - 1 && ps[..|ps| - 1][j].Sequential? && ps[..|ps| - 1][j].seqp == s;
          assert ps[j] == ps[..|ps| - 1][j];
        }
      }
      MatchCounts(ps[..|ps| - 1]) + [CountOf(ps[|ps| - 1])]
  }

  /** The histories once every frequency pattern has matched `e`. */
  function PrunedAll(ps: seq<Matcher>, hs: seq<History>, e: LogEvent): (r: seq<History>)
    requires |hs| == |ps|
  {
    seq(|ps|, j requires 0 <= j < |ps| => if ps[j].Frequency? then ps[j].freq.Pruned(hs[j], e) else hs[j])
  }

  /** The match counts once every sequential pattern has matched `e`, once
      per registration. */
  function CountedAll(ps: seq<Matcher>, cs: seq<nat>, e: LogEvent, context: seq<LogEvent>, search: Search): (r: seq<nat>)
    requires |cs| == |ps|
  {
    seq(|ps|, j requires 0 <= j < |ps| =>
      if ps[j].Sequential? && FullMatch(ps[j].seqp.steps, e, context, search) then cs[j] + Occurrences(ps, ps[j]) else cs[j])
  }

  /** The score pattern `m` had when its history was `h`. */
  function SnapshotScore(m: Matcher, h: History, e: LogEvent, context: seq<LogEvent>, search: Search): real
  {
    match m
    case Sequential(s) => SequentialScore(s.steps, e, context, search)
    case Frequency(f) => f.ScoreOn(h, e)
    case Regex(r) => RegexScore(r, e, search)
  }

  /** Every pattern paired with its score when the histories were `hs`. */
  function Snapshots(ps: seq<Matcher>, hs: seq<History>, e: LogEvent, context: seq<LogEvent>, search: Search)
    : (r: seq<PatternMatch>)
    requires |hs| == |ps|
    ensures |r| == |ps|
    ensures forall j :: 0 <= j < |ps| ==> r[j] == PatternMatch(ps[j], SnapshotScore(ps[j], hs[j], e, context, search))
  {
    seq(|ps|, j requires 0 <= j < |ps| => PatternMatch(ps[j], SnapshotScore(ps[j], hs[j], e, context, search)))
  }

  /** After the first `n` turns, each frequency pattern has been pruned
      from its history in `hs` if it was among them, and is untouched
      otherwise. */
  ghost predicate FrequencyProgress(ps: seq<Matcher>, n: nat, hs: seq<History>, e: LogEvent)
    requires n <= |ps| && |hs| == |ps|
    reads FrequencyObjects(ps)
  {
    forall j :: 0 <= j < |ps| && ps[j].Frequency? ==>
      ps[j].freq.Recorded() == if Occurrences(ps[..n], ps[j]) > 0 then ps[j].freq.Pruned(hs[j], e) else hs[j]
  }

  /** After the first `n` turns, each sequential pattern has counted one
      full match per turn it had among them. */
  ghost predicate SequentialProgress(ps: seq<Matcher>, n: nat, cs: seq<nat>, e: LogEvent,
                                     context: seq<LogEvent>, search: Search)
    requires n <= |ps| && |cs| == |ps|
    reads SequentialObjects(ps)
  {
    forall j :: 0 <= j < |ps| && ps[j].Sequential? ==>
      ps[j].seqp.matchCount == cs[j] + (if FullMatch(ps[j].seqp.steps, e, context, search) then Occurrences(ps[..n], ps[j]) else 0)
  }

  /** The histories once every frequency pattern has been trained on `e`
      once per registration. */
  function TrainedAll(ps: seq<Matcher>, hs: seq<History>, e: LogEvent): (r: seq<History>)
    requires |hs| == |ps|
  {
    seq(|ps|, j requires 0 <= j < |ps| => if ps[j].Frequency? then ps[j].freq.TrainedTimes(hs[j], e, Occurrences(ps, ps[j])) else hs[j])
  }

  /** After the first `n` turns of training, each frequency pattern has
      been trained once per turn it had among them. */
  ghost predicate TrainProgress(ps: seq<Matcher>, n: nat, hs: seq<History>, e: LogEvent)
    requires n <= |ps| && |hs| == |ps|
    reads FrequencyObjects(ps)
  {
    forall j :: 0 <= j < |ps| && ps[j].Frequency? ==>
      ps[j].freq.Recorded() == ps[j].freq.TrainedTimes(hs[j], e, Occurrences(ps[..n], ps[j]))
  }

  /** Before the first turn, the snapshots are the current state. */
  lemma ProgressStart(ps: seq<Matcher>, hs: seq<History>, cs: seq<nat>, e: LogEvent, context: seq<LogEvent>, search: Search)
    requires hs == Histories(ps) && cs == MatchCounts(ps)
    ensures FrequencyProgress(ps, 0, hs, e) && SequentialProgress(ps, 0, cs, e, context, search)
    ensures forall j :: 0 <= j < |ps| && !ps[j].Frequency? ==> hs[j] == History([], map[])
    ensures forall j :: 0 <= j < |ps| && !ps[j].Sequential? ==> cs[j] == 0
  {
    assert ps[..0] == [];
  }

  /** Once every turn is taken, each frequency pattern has been pruned. */
  lemma HistoriesDone(ps: seq<Matcher>, hs: seq<History>, e: LogEvent)
    requires |hs| == |ps| && FrequencyProgress(ps, |ps|, hs, e)
    requires forall j :: 0 <= j < |ps| && !ps[j].Frequency? ==> hs[j] == History([], map[])
    ensures Histories(ps) == PrunedAll(ps, hs, e)
  {
    assert ps[..|ps|] == ps;
    OccurrencesOfMember(ps);
    var h := Histories(ps);
    var hp := PrunedAll(ps, hs, e);
    forall j | 0 <= j < |ps|
      ensures h[j] == hp[j]
    {
      if ps[j].Frequency? {
        assert Occurrences(ps[..|ps|], ps[j]) > 0;
        assert h[j] == ps[j].freq.Recorded();
      } else {
        assert h[j] == History([], map[]);
      }
    }
  }

  /** Once every turn is taken, each sequential pattern has counted its
      full matches. */
  lemma CountsDone(ps: seq<Matcher>, cs: seq<nat>, e: LogEvent, context: seq<LogEvent>, search: Search)
    requires |cs| == |ps| && SequentialProgress(ps, |ps|, cs, e, context, search)
    requires forall j :: 0 <= j < |ps| && !ps[j].Sequential? ==> cs[j] == 0
    ensures MatchCounts(ps) == CountedAll(ps, cs, e, context, search)
  {
    assert ps[..|ps|] == ps;
    var c := MatchCounts(ps);
    var cp := CountedAll(ps, cs, e, context, search);
    forall j | 0 <= j < |ps|
      ensures c[j] == cp[j]
    {
      if ps[j].Sequential? {
        assert c[j] == ps[j].seqp.matchCount;
      } else {
        assert c[j] == 0;
      }
    }
  }

  /** Every registered pattern occurs at least once. */
  lemma {:induction false} OccurrencesOfMember(ps: seq<Matcher>)
    ensures forall j :: 0 <= j < |ps| ==> Occurrences(ps, ps[j]) > 0
  {
    if ps != [] {
      var init := ps[..|ps| - 1];
      OccurrencesOfMember(init);
      forall j | 0 <= j < |ps| - 1
        ensures Occurrences(ps, ps[j]) > 0
      {
        assert ps[j] == init[j];
      }
    }
  }

  class PatternEngine {
    /** `patterns_`, in registration order. */
    var patterns: seq<Matcher>

    constructor()
      ensures patterns == []
    {
      patterns := [];
    }

    /** The pattern objects whose state matching and training update. */
    ghost function Objects(): set<object>
      reads this
    {
      (set j | 0 <= j < |patterns| && patterns[j].Sequential? :: patterns[j].seqp as object)
        + (set j | 0 <= j < |patterns| && patterns[j].Frequency? :: patterns[j].freq as object)
    }

    /** `register_pattern`. */
    method RegisterPattern(m: Matcher)
      modifies this
      ensures patterns == old(patterns) + [m]
    {
      patterns := patterns + [m];
    }

    /** `match_patterns`: the patterns scoring above 0.5, best first. Each
        sequential pattern counts one match per registration when the event
        completes it; each frequency pattern ends up pruned once, however
        often it is registered. */
    method MatchPatterns(e: LogEvent, context: seq<LogEvent>, search: Search) returns (matches: seq<PatternMatch>)
      modifies Objects()
      ensures SortedDesc(matches)
      ensures multiset(matches) == multiset(Significant(old(Scored(patterns, e, context, search))))
      ensures patterns == old(patterns)
      ensures Histories(patterns) == PrunedAll(patterns, old(Histories(patterns)), e)
      ensures MatchCounts(patterns) == CountedAll(patterns, old(MatchCounts(patterns)), e, context, search)
    {
      ghost var hs := Histories(patterns);
      ghost var cs := MatchCounts(patterns);
      assert Scored(patterns, e, context, search) == Snapshots(patterns, hs, e, context, search);
      var found := ScoreAll(e, context, search, hs, cs);
      matches := SortByScore(found);
    }

    /** The loop of `match_patterns`: every pattern scores what it scored
        with the histories `hs`, the significant scores are kept in order,
        and each pattern's state moves on once per registration. */
    method ScoreAll(e: LogEvent, context: seq<LogEvent>, search: Search, ghost hs: seq<History>, ghost cs: seq<nat>)
      returns (found: seq<PatternMatch>)
      requires hs == Histories(patterns) && cs == MatchCounts(patterns)
      modifies Objects()
      ensures patterns == old(patterns)
      ensures found == Significant(Snapshots(patterns, hs, e, context, search))
      ensures Histories(patterns) == PrunedAll(patterns, hs, e)
      ensures MatchCounts(patterns) == CountedAll(patterns, cs, e, context, search)
    {
      var ps := patterns;
      ghost var scored := Snapshots(ps, hs, e, context, search);
      assert scored[..0] == [];
      ProgressStart(ps, hs, cs, e, context, search);
      found := [];
      var i := 0;
      while i < |ps|
        invariant 0 <= i <= |ps|
        invariant patterns == ps
        invariant found == Significant(scored[..i])
        invariant FrequencyProgress(ps, i, hs, e)
        invariant SequentialProgress(ps, i, cs, e, context, search)
      {
        assert scored[..i + 1][..i] == scored[..i];
        var score := ScoreAt(ps, i, e, context, search, hs, cs, scored[i]);
        assert FrequencyProgress(ps, i + 1, hs, e);
        assert SequentialProgress(ps, i + 1, cs, e, context, search);
        if score > 0.5 {
          found := found + [PatternMatch(ps[i], score)];
        }
        i := i + 1;
      }
      assert scored[..i] == scored;
      HistoriesDone(ps, hs, e);
      CountsDone(ps, cs, e, context, search);
    }

    /** One turn of `match_patterns`' loop: pattern `i` scores what it
        scored with its history in `hs`, and its state moves on one step. */
    method ScoreAt(ps: seq<Matcher>, i: nat, e: LogEvent, context: seq<LogEvent>, search: Search,
                   ghost hs: seq<History>, ghost cs: seq<nat>, ghost expected: PatternMatch)
      returns (score: real)
      requires i < |ps| && ps == patterns && |hs| == |ps| && |cs| == |ps|
      requires FrequencyProgress(ps, i, hs, e) && SequentialProgress(ps, i, cs, e, context, search)
      requires forall j :: 0 <= j < |ps| && ps[j] == ps[i] ==> hs[j] == hs[i]
      requires expected == PatternMatch(ps[i], SnapshotScore(ps[i], hs[i], e, context, search))
      modifies Objects()
      ensures patterns == ps
      ensures score == expected.score
      ensures FrequencyProgress(ps, i + 1, hs, e) && SequentialProgress(ps, i + 1, cs, e, context, search)
    {
      assert ps[..i + 1][..i] == ps[..i];
      var m := ps[i];
      match m {
        case Sequential(sp) =>
          assert sp as object in Objects();
          score := sp.Match(e, context, search);
        case Frequency(fp) =>
          assert fp as object in Objects();
          fp.PrunedKeepsScore(hs[i], e);
          fp.PrunedIdempotent(hs[i], e);
          score := fp.Match(e);
        case Regex(rp) =>
          score := RegexScore(rp, e, search);
      }
    }

    /** `train_all`: each frequency pattern is trained once per
        registration; sequential and regex patterns ignore training. */
    method TrainAll(e: LogEvent)
      modifies Objects()
      ensures patterns == old(patterns)
      ensures Histories(patterns) == TrainedAll(patterns, old(Histories(patterns)), e)
      ensures MatchCounts(patterns) == old(MatchCounts(patterns))
    {
      var ps := patterns;
      ghost var hs := Histories(ps);
      ghost var cs := MatchCounts(ps);
      assert ps[..0] == [];
      var i := 0;
      while i < |ps|
        invariant 0 <= i <= |ps|
        invariant patterns == ps
        invariant TrainProgress(ps, i, hs, e)
        invariant MatchCounts(ps) == cs
      {
        TrainAt(ps, i, e, hs);
        i := i + 1;
      }
      assert ps[..i] == ps;
    }

    /** One turn of `train_all`'s loop. */
    method TrainAt(ps: seq<Matcher>, i: nat, e: LogEvent, ghost hs: seq<History>)
      requires i < |ps| && ps == patterns && |hs| == |ps|
      requires TrainProgress(ps, i, hs, e)
      modifies Objects()
      ensures patterns == ps
      ensures TrainProgress(ps, i + 1, hs, e)
      ensures MatchCounts(ps) == old(MatchCounts(ps))
    {
      assert ps[..i + 1][..i] == ps[..i];
      if ps[i].Frequency? {
        var fp := ps[i].freq;
        assert fp as object in Objects();
        fp.Train(e);
      }
    }
  }
}
