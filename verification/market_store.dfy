/** The oracle's market table (db.ts) as a map from market id to row.

    Rows come back from a query in an order the store chooses; the model
    takes that order as a parameter `order` that lists every market id once
    (`Enumerates`).  Updates are `UPDATE … WHERE market_id = $id`, so an
    update of an absent id changes nothing.  Store failures are not part of
    these functions: each caller consults a `StoreCall -> bool` fault oracle
    before the call, because every db.ts operation rethrows to its caller. */
module MarketStore {
  import opened Wrappers
  import opened Seqs

  /** The `status` column.  Being on the ledger is the separate `onChain` flag. */
  datatype Status = Pending | Locked | Resolved

  datatype Market = Market(
    title: string,
    description: string,
    optionA: string,
    optionB: string,
    deadline: int,
    threshold: real,
    metricType: string,
    status: Status,
    onChain: bool,
    totalStaked: nat,
    optionAStakes: nat,
    optionBStakes: nat)

  /** The three stake counters read from the ledger. */
  datatype Stats = Stats(total: nat, optionA: nat, optionB: nat)

  type Store = map<string, Market>

  /** The row filters the worker and the REST layer query by. */
  datatype Query = AllRows | NotOnChain | WithStatus(status: Status)

  /** One store operation, named so that a fault oracle can make it throw. */
  datatype StoreCall =
    | Read(q: Query)
    | ReadById(id: string)
    | Upsert(id: string)
    | WriteStats(id: string)
    | WriteOnChain(id: string)
    | WriteStatus(id: string, status: Status)

  /** The `metric_type` column default and `addMarket`'s default argument. */
  const DefaultMetricType: string := "eth_staking_rate"

  function Counters(m: Market): Stats {
    Stats(m.totalStaked, m.optionAStakes, m.optionBStakes)
  }

  predicate Matches(q: Query, m: Market) {
    match q
    case AllRows => true
    case NotOnChain => !m.onChain
    case WithStatus(st) => m.status == st
  }

  /** A freshly inserted row: status 'pending', off the ledger, no stakes. */
  function NewMarket(title: string, description: string, optionA: string, optionB: string,
                     deadline: int, threshold: real, metricType: string): (m: Market)
    ensures m.status == Pending && !m.onChain && Counters(m) == Stats(0, 0, 0)
    ensures m.title == title && m.description == description
    ensures m.optionA == optionA && m.optionB == optionB
    ensures m.deadline == deadline && m.threshold == threshold && m.metricType == metricType
  {
    Market(title, description, optionA, optionB, deadline, threshold, metricType,
           Pending, false, 0, 0, 0)
  }

  /** `addMarket`: an INSERT that, on a clash of market ids, overwrites only
      the deadline, threshold, metric type and description. */
  function AddMarket(s: Store, id: string, title: string, deadline: int, threshold: real,
                     metricType: string, description: string, optionA: string, optionB: string): (r: Store)
    ensures r.Keys == s.Keys + {id}
    ensures id !in s ==> r[id] == NewMarket(title, description, optionA, optionB, deadline, threshold, metricType)
    ensures id in s ==> r[id].deadline == deadline && r[id].threshold == threshold
                        && r[id].metricType == metricType && r[id].description == description
    ensures id in s ==> r[id].status == s[id].status && r[id].onChain == s[id].onChain
                        && Counters(r[id]) == Counters(s[id])
                        && r[id].title == s[id].title
                        && r[id].optionA == s[id].optionA && r[id].optionB == s[id].optionB
    ensures forall k :: k in s && k != id ==> r[k] == s[k]
  {
    if id in s then
      s[id := s[id].(deadline := deadline, threshold := threshold,
                     metricType := metricType, description := description)]
    else
      s[id := NewMarket(title, description, optionA, optionB, deadline, threshold, metricType)]
  }

  /** `order` lists the ids of `s`, each exactly once. */
  predicate Enumerates(order: seq<string>, s: Store) {
    && Distinct(order)
    && (forall id :: id in order ==> id in s)
    && (forall id :: id in s ==> id in order)
  }

  /** The ids a query returns, in the store's row order. */
  function Select(s: Store, order: seq<string>, q: Query): (r: seq<string>)
    ensures forall id :: id in r <==> id in order && id in s && Matches(q, s[id])
    ensures Distinct(order) ==> Distinct(r)
  {
    if order == [] then []
    else
      var rest := Select(s, order[1..], q);
      if order[0] in s && Matches(q, s[order[0]]) then [order[0]] + rest else rest
  }

  /** `getAllMarkets`. */
  function GetAllMarkets(s: Store, order: seq<string>): (r: seq<string>)
    ensures Enumerates(order, s) ==> Enumerates(r, s)
  {
    Select(s, order, AllRows)
  }

  /** `getPendingMarkets`: exactly the rows whose status is 'pending'. */
  function GetPendingMarkets(s: Store, order: seq<string>): (r: seq<string>)
    ensures Distinct(order) ==> Distinct(r)
    ensures Enumerates(order, s) ==> forall id :: id in r <==> id in s && s[id].status == Pending
  {
    Select(s, order, WithStatus(Pending))
  }

  /** `getLockedMarkets`: exactly the rows whose status is 'locked'. */
  function GetLockedMarkets(s: Store, order: seq<string>): (r: seq<string>)
    ensures Distinct(order) ==> Distinct(r)
    ensures Enumerates(order, s) ==> forall id :: id in r <==> id in s && s[id].status == Locked
  {
    Select(s, order, WithStatus(Locked))
  }

  /** `getMarketsNotOnChain`: exactly the rows whose on-chain flag is unset,
      whatever their status. */
  function GetMarketsNotOnChain(s: Store, order: seq<string>): (r: seq<string>)
    ensures Distinct(order) ==> Distinct(r)
    ensures Enumerates(order, s) ==> forall id :: id in r <==> id in s && !s[id].onChain
  {
    Select(s, order, NotOnChain)
  }

  /** `getMarketById`. */
  function GetMarketById(s: Store, id: string): (r: Option<Market>)
    ensures r.Some? <==> id in s
    ensures r.Some? ==> r.value == s[id]
  {
    if id in s then Some(s[id]) else None
  }

  /** `UPDATE markets SET status = st WHERE market_id = id`: unconditional,
      so the store itself does not keep the lifecycle order. */
  function SetStatus(s: Store, id: string, st: Status): (r: Store)
    ensures r.Keys == s.Keys
    ensures id in s ==> r[id].status == st && r[id].(status := s[id].status) == s[id]
    ensures forall k :: k in s && k != id ==> r[k] == s[k]
  {
    if id in s then s[id := s[id].(status := st)] else s
  }

  /** `markLocked`. */
  function MarkLocked(s: Store, id: string): (r: Store)
    ensures r.Keys == s.Keys
    ensures id in s ==> r[id].status == Locked && r[id].(status := s[id].status) == s[id]
    ensures forall k :: k in s && k != id ==> r[k] == s[k]
  {
    SetStatus(s, id, Locked)
  }

  /** `markResolved`. */
  function MarkResolved(s: Store, id: string): (r: Store)
    ensures r.Keys == s.Keys
    ensures id in s ==> r[id].status == Resolved && r[id].(status := s[id].status) == s[id]
    ensures forall k :: k in s && k != id ==> r[k] == s[k]
  {
    SetStatus(s, id, Resolved)
  }

  /** `markOnChain`: sets the on-chain flag and nothing else. */
  function MarkOnChain(s: Store, id: string): (r: Store)
    ensures r.Keys == s.Keys
    ensures id in s ==> r[id].onChain && r[id].(onChain := s[id].onChain) == s[id]
    ensures forall k :: k in s && k != id ==> r[k] == s[k]
  {
    if id in s then s[id := s[id].(onChain := true)] else s
  }

  /** The row with its three stake counters replaced. */
  function WithStats(m: Market, st: Stats): (r: Market)
    ensures Counters(r) == st
    ensures r.(totalStaked := m.totalStaked, optionAStakes := m.optionAStakes,
               optionBStakes := m.optionBStakes) == m
  {
    m.(totalStaked := st.total, optionAStakes := st.optionA, optionBStakes := st.optionB)
  }

  /** `updateMarketStats`: overwrites exactly the three counters. */
  function UpdateMarketStats(s: Store, id: string, st: Stats): (r: Store)
    ensures r.Keys == s.Keys
    ensures id in s ==> r[id] == WithStats(s[id], st)
    ensures forall k :: k in s && k != id ==> r[k] == s[k]
  {
    if id in s then s[id := WithStats(s[id], st)] else s
  }

  /** Writing the same counters twice is the same as writing them once. */
  lemma UpdateMarketStatsIdempotent(s: Store, id: string, st: Stats)
    ensures UpdateMarketStats(UpdateMarketStats(s, id, st), id, st) == UpdateMarketStats(s, id, st)
  {
  }

  /** Position of a status in the lifecycle pending -> locked -> resolved. */
  function Rank(st: Status): nat {
    match st
    case Pending => 0
    case Locked => 1
    case Resolved => 2
  }

  /** The columns only `addMarket` writes. */
  predicate SameListing(m: Market, m': Market) {
    && m'.title == m.title && m'.description == m.description
    && m'.optionA == m.optionA && m'.optionB == m.optionB
    && m'.deadline == m.deadline && m'.threshold == m.threshold
    && m'.metricType == m.metricType
  }

  /** `m'` is a possible later state of row `m` under the lifecycle: same
      listing, status no earlier, and the on-chain flag never cleared. */
  predicate Evolves(m: Market, m': Market) {
    SameListing(m, m') && Rank(m.status) <= Rank(m'.status) && (m.onChain ==> m'.onChain)
  }

  predicate StoreEvolves(s: Store, s': Store) {
    s'.Keys == s.Keys && forall id :: id in s ==> Evolves(s[id], s'[id])
  }

  lemma StoreEvolvesTransitive(a: Store, b: Store, c: Store)
    requires StoreEvolves(a, b) && StoreEvolves(b, c)
    ensures StoreEvolves(a, c)
  {
  }
}
