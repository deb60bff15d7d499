/** Resolution metrics (Oracle/metrics/registry.ts, Oracle/src/metrics/generic.ts).

    A metric is a named strategy whose `fetchValue` yields a number or null.
    What a data-backed metric yields on one call comes from outside the
    process, so it is a parameter `reading` here; the manual `generic`
    metric ignores it and always yields null. */
module Metrics {
  import opened Wrappers
  import opened Seqs

  /** Whether `fetchValue` consults a data source or never yields a value. */
  datatype Source = Manual | Feed

  datatype Metric = Metric(name: string, source: Source)

  /** generic.ts: the metric for markets an administrator resolves by hand. */
  const GenericMetric: Metric := Metric("generic", Manual)

  /** The two metrics the registry's constructor registers. */
  const EthStakingRateMetric: Metric := Metric("eth_staking_rate", Feed)
  const EthPriceMetric: Metric := Metric("eth_price", Feed)

  /** `await metric.fetchValue()`, where `reading` is what the data source
      yields on this call. */
  function FetchValue(m: Metric, reading: Option<real>): (r: Option<real>)
    ensures r.Some? ==> m.source == Feed && r == reading
    ensures m.source == Feed ==> r == reading
  {
    match m.source
    case Manual => None
    case Feed => reading
  }

  /** The generic metric never yields a value, whatever the data source says. */
  lemma GenericNeverYields(reading: Option<real>)
    ensures FetchValue(GenericMetric, reading) == None
  {
  }

  /** A JavaScript `Map<string, Metric>`: the entries, and the keys in
      insertion order. */
  datatype Registry = Registry(entries: map<string, Metric>, names: seq<string>)

  /** Each key listed once, the list and the map agree, and every metric is
      filed under its own name. */
  predicate Valid(r: Registry) {
    && Distinct(r.names)
    && (forall n :: n in r.names ==> n in r.entries)
    && (forall n :: n in r.entries ==> n in r.names)
    && (forall n :: n in r.entries ==> r.entries[n].name == n)
  }

  const EmptyRegistry: Registry := Registry(map[], [])

  /** `getMetric(name)`: the metric filed under `name`, or undefined. */
  function GetMetric(r: Registry, name: string): (m: Option<Metric>)
    ensures m.Some? <==> name in r.entries
    ensures Valid(r) && m.Some? ==> m.value.name == name
  {
    if name in r.entries then Some(r.entries[name]) else None
  }

  /** `register(metric)`: `Map.set` under the metric's name.  A new name goes
      to the end of the listing; a known name keeps its place and its entry is
      replaced. */
  function Register(r: Registry, m: Metric): (r': Registry)
    ensures Valid(r) ==> Valid(r')
    ensures GetMetric(r', m.name) == Some(m)
    ensures forall n :: n != m.name ==> GetMetric(r', n) == GetMetric(r, n)
    ensures m.name in r.entries ==> r'.names == r.names
    ensures m.name !in r.entries ==> r'.names == r.names + [m.name]
  {
    var names := if m.name in r.entries then r.names else r.names + [m.name];
    var r' := Registry(r.entries[m.name := m], names);
    if Valid(r) && m.name !in r.entries then DistinctAppend(r.names, m.name); r' else r'
  }

  /** `listMetrics()`: every registered name exactly once, in registration order. */
  function ListMetrics(r: Registry): (ns: seq<string>)
    ensures Valid(r) ==> Distinct(ns)
    ensures Valid(r) ==> forall n :: n in ns <==> GetMetric(r, n).Some?
  {
    r.names
  }

  /** The registry as the module exports it: built by registering the two
      data-backed metrics into an empty map.  The generic metric is not among
      them, so a market whose metric type is "generic" finds no handler. */
  function BuiltinRegistry(): (r: Registry)
    ensures Valid(r)
    ensures ListMetrics(r) == ["eth_staking_rate", "eth_price"]
    ensures GetMetric(r, "eth_staking_rate") == Some(EthStakingRateMetric)
    ensures GetMetric(r, "eth_price") == Some(EthPriceMetric)
    ensures GetMetric(r, GenericMetric.name) == None
  {
    Register(Register(EmptyRegistry, EthStakingRateMetric), EthPriceMetric)
  }
}
