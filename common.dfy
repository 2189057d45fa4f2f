/** Shared vocabulary of the C++ library: time units, the log `Severity`
    enumeration and its names, and the ordered string-keyed maps used for
    entities and metrics. */
module Common {
  import opened Optional

  /** `timestamp_t` and `duration_t` are nanosecond counts. */
  const Nanosecond: int := 1
  const Second: int := 1_000_000_000
  const Minute: int := 60 * Second

  /** How many values a 64-bit integer type holds: `uint64_t` and `size_t`
      arithmetic wraps modulo this, and `int64_t` covers
      [-Word64 / 2, Word64 / 2). */
  const Word64: int := 0x1_0000_0000_0000_0000

  /** `std::min` on `double`s, exact. */
  function Min(a: real, b: real): real
  {
    if b < a then b else a
  }

  /** Log severities with their declared ordinals TRACE = 0 … ALERT = 6. */
  datatype Severity = Trace | Debug | Info | Warning | Error | Critical | Alert

  function Ordinal(s: Severity): (n: nat)
    ensures n <= 6
  {
    match s
    case Trace => 0
    case Debug => 1
    case Info => 2
    case Warning => 3
    case Error => 4
    case Critical => 5
    case Alert => 6
  }

  /** The enumerator a raw value denotes, if any (`static_cast<Severity>`). */
  function SeverityOf(raw: int): (r: Option<Severity>)
    ensures r.Some? <==> 0 <= raw <= 6
    ensures r.Some? ==> Ordinal(r.value) == raw
  {
    if raw == 0 then Some(Trace)
    else if raw == 1 then Some(Debug)
    else if raw == 2 then Some(Info)
    else if raw == 3 then Some(Warning)
    else if raw == 4 then Some(Error)
    else if raw == 5 then Some(Critical)
    else if raw == 6 then Some(Alert)
    else None
  }

  /** Comparison of `enum class` values is comparison of their ordinals. */
  predicate SeverityLess(a: Severity, b: Severity) { Ordinal(a) < Ordinal(b) }

  /** Every enumerator has its own ordinal, and the ordinals read back. */
  lemma OrdinalRoundTrip(s: Severity)
    ensures SeverityOf(Ordinal(s)) == Some(s)
  {
  }

  /** The severities in declaration order are strictly increasing. */
  lemma SeverityOrder()
    ensures SeverityLess(Trace, Debug) && SeverityLess(Debug, Info) && SeverityLess(Info, Warning)
    ensures SeverityLess(Warning, Error) && SeverityLess(Error, Critical) && SeverityLess(Critical, Alert)
    ensures forall a, b :: SeverityLess(a, b) ==> !SeverityLess(b, a) && a != b
  {
  }

  /** `severity_to_string` on a raw value: the enumerator's name, or
      "UNKNOWN" for a value outside the enumeration. */
  function SeverityToString(raw: int): (name: string)
    ensures name == "UNKNOWN" <==> SeverityOf(raw).None?
  {
    match SeverityOf(raw)
    case Some(Trace) => "TRACE"
    case Some(Debug) => "DEBUG"
    case Some(Info) => "INFO"
    case Some(Warning) => "WARNING"
    case Some(Error) => "ERROR"
    case Some(Critical) => "CRITICAL"
    case Some(Alert) => "ALERT"
    case None => "UNKNOWN"
  }

  /** Distinct enumerators have distinct names. */
  lemma SeverityNamesDistinct(a: Severity, b: Severity)
    requires SeverityToString(Ordinal(a)) == SeverityToString(Ordinal(b))
    ensures a == b
  {
  }

  /** `std::string`'s `operator<`: lexicographic, a proper prefix first. */
  predicate StrLess(a: string, b: string)
  {
    if a == [] then b != []
    else if b == [] then false
    else if a[0] != b[0] then a[0] < b[0]
    else StrLess(a[1..], b[1..])
  }

  /** No string sorts before itself, so map keys in ascending order are
      pairwise distinct. */
  lemma {:induction false} StrLessIrreflexive(a: string)
    ensures !StrLess(a, a)
  {
    if a != [] {
      StrLessIrreflexive(a[1..]);
    }
  }

  /** The keys of a `std::map`, in iteration order, strictly ascend. */
  ghost predicate KeysAscending<V>(m: seq<(string, V)>)
  {
    forall i, j :: 0 <= i < j < |m| ==> StrLess(m[i].0, m[j].0)
  }

  /** `std::map<std::string, V>` as its entries in iteration order. */
  type OrderedMap<V> = m: seq<(string, V)> | KeysAscending(m) witness []

  /** `ContextMap`: entities and context, string to string. */
  type ContextMap = OrderedMap<string>

  /** `MetricMap`: metric name to value. */
  type MetricMap = OrderedMap<real>

  /** `find(key)`: the value stored under `key`, if any. */
  function Lookup<V>(m: OrderedMap<V>, key: string): (r: Option<V>)
    ensures r.Some? <==> exists i :: 0 <= i < |m| && m[i].0 == key
    ensures r.Some? ==> (key, r.value) in m
    ensures forall i :: 0 <= i < |m| && m[i].0 == key ==> r == Some(m[i].1)
  {
    if m == [] then None
    else if m[0].0 == key then
      assert forall i :: 0 < i < |m| ==> m[i].0 != key by {
        forall i | 0 < i < |m| ensures m[i].0 != key {
          StrLessIrreflexive(key);
        }
      }
      Some(m[0].1)
    else
      var rest: OrderedMap<V> := m[1..];
      Lookup(rest, key)
  }
}
