/** The oracle's REST layer (Oracle/src/api.ts): market ids, and the create,
    read, lock and resolve endpoints over the market store.

    Request bodies are modelled after JSON parsing: a text field is absent
    or a string, `deadline` an integer, `threshold` a number, and
    `winning_option` an integer.  Store failures come from a fault oracle,
    as in the worker; every handler answers them with status 500. */
module AdminApi {
  import opened Wrappers
  import opened Seqs
  import opened Text
  import opened Numerals
  import opened MarketStore
  import opened Metrics
  import FieldCodec
  import Worker
  import WorkerLemmas

  const TwoTo31: int := 0x8000_0000
  const TwoTo32: int := 0x1_0000_0000

  predicate IsInt32(x: int) {
    -TwoTo31 <= x < TwoTo31
  }

  /** ECMAScript ToInt32: the integer congruent to `x` modulo 2^32 in
      [-2^31, 2^31). */
  function Int32(x: int): (r: int)
    ensures IsInt32(r)
    ensures (x - r) % TwoTo32 == 0
    ensures IsInt32(x) ==> r == x
  {
    (x + TwoTo31) % TwoTo32 - TwoTo31
  }

  lemma Int32Periodic(x: int, k: int)
    ensures Int32(x + k * TwoTo32) == Int32(x)
  {
    assert (x + k * TwoTo32 + TwoTo31) % TwoTo32 == (x + TwoTo31) % TwoTo32;
  }

  /** The Java string hash over UTF-16 code units: `h = 31 * h + unit`,
      wrapped to 32 bits after every step. */
  function JavaHash(units: seq<nat>): (h: int)
    decreases |units|
    ensures IsInt32(h)
  {
    if units == [] then 0 else Int32(31 * JavaHash(units[..|units| - 1]) + units[|units| - 1])
  }

  /** The loop body of `generateMarketId`: `((hash << 5) - hash) + char`
      followed by `hash & hash`, both 32-bit operations, is one Java hash
      step. */
  lemma ShiftStepIsJavaStep(h: int, u: nat)
    requires IsInt32(h)
    ensures Int32(Int32(h * 32) - h + u) == Int32(31 * h + u)
  {
    var w := Int32(h * 32);
    var k := (h * 32 - w) / TwoTo32;
    assert h * 32 - w == k * TwoTo32;
    Int32Periodic(31 * h + u, -k);
    assert w - h + u == 31 * h + u + (-k) * TwoTo32;
  }

  function Abs(x: int): (r: nat)
    ensures r == x || r == -x
  {
    if x < 0 then -x else x
  }

  /** The number in a generated id: `Math.abs(hash) + Date.now()`. */
  function Stamp(title: string, now: nat): nat {
    Abs(JavaHash(Utf16Units(title))) + now
  }

  /** The id `generateMarketId(title)` returns at `now` milliseconds. */
  function MarketId(title: string, now: nat): (id: string)
    ensures EndsWith(id, "field")
  {
    FieldCodec.FieldLiteral(Stamp(title, now))
  }

  /** `generateMarketId`: the 32-bit shift-and-subtract loop over the title's
      UTF-16 code units, then `${Math.abs(hash) + Date.now()}field`. */
  method GenerateMarketId(title: string, now: nat) returns (id: string)
    ensures id == MarketId(title, now)
    ensures EndsWith(id, "field") && Worker.PoolKey(id) == Some(id)
  {
    var units := Utf16Units(title);
    var hash := 0;
    var i := 0;
    while i < |units|
      invariant 0 <= i <= |units|
      invariant hash == JavaHash(units[..i])
    {
      assert units[..i + 1][..i] == units[..i];
      ShiftStepIsJavaStep(hash, units[i]);
      hash := Int32(Int32(hash * 32) - hash + units[i]);
      i := i + 1;
    }
    assert units[..i] == units;
    id := FieldCodec.FieldLiteral(Abs(hash) + now);
  }

  /** The numeral in front of "field" in a generated id reads back as
      `|hash| + now`. */
  lemma MarketIdReadsBack(title: string, now: nat)
    ensures ParseBigInt(RemoveFirst(MarketId(title, now), "field"))
            == Some(Stamp(title, now))
  {
    FieldCodec.LiteralReadsBack(Stamp(title, now));
  }

  /** Every id generated with at most 26 digits is one whose pool the lock
      and resolve steps, as written, look for under another key. */
  lemma GeneratedIdMissesWrittenKey(title: string, now: nat)
    requires |NatToDecimal(Stamp(title, now))| + 5 <= 31
    ensures Worker.WrittenSubmitKey(MarketId(title, now)) != Worker.PoolKey(MarketId(title, now))
  {
    WorkerLemmas.WrittenKeyMisses(Stamp(title, now));
  }

  /** An HTTP reply: its status code and, where it matters, its payload. */
  datatype Response =
    | Created(marketId: string)   // 201
    | Done(marketId: string)      // 200 after a lock
    | ResolvedWith(marketId: string, winningOption: int)  // 200 after a resolution
    | Found(market: Market)       // 200 for a read by id
    | Listed(ids: seq<string>)    // 200 for a listing
    | BadRequest                  // 400
    | NotFound                    // 404
    | ServerError                 // 500
  {
    function Code(): nat {
      match this
      case Created(_) => 201
      case Done(_) => 200
      case ResolvedWith(_, _) => 200
      case Found(_) => 200
      case Listed(_) => 200
      case BadRequest => 400
      case NotFound => 404
      case ServerError => 500
    }
  }

  /** The fields of a `POST /markets` body. */
  datatype CreateRequest = CreateRequest(
    title: Option<string>,
    description: Option<string>,
    optionA: Option<string>,
    optionB: Option<string>,
    metricType: Option<string>,
    threshold: Option<real>,
    deadline: Option<int>)

  /** `value || fallback` on an optional text field. */
  function Fallback(o: Option<string>, fallback: string): (r: string)
    ensures o.Some? && o.value != [] ==> r == o.value
    ensures o.None? || o.value == [] ==> r == fallback
  {
    if o.Some? && o.value != [] then o.value else fallback
  }

  /** The required fields are all truthy: a non-empty title, and a deadline
      and a threshold that are present and not zero. */
  predicate HasRequired(req: CreateRequest) {
    && req.title.Some? && req.title.value != []
    && req.deadline.Some? && req.deadline.value != 0
    && req.threshold.Some? && req.threshold.value != 0.0
  }

  /** `POST /markets` at `now` milliseconds. */
  function CreateMarket(s: Store, req: CreateRequest, now: nat, fails: StoreCall -> bool): (r: (Store, Response))
    ensures r.1 == BadRequest <==> !HasRequired(req)
    ensures !r.1.Created? ==> r.0 == s
    ensures r.1.Created? ==>
              && HasRequired(req) && r.1.marketId == MarketId(req.title.value, now)
              && r.0.Keys == s.Keys + {r.1.marketId}
              && (forall k :: k in s && k != r.1.marketId ==> r.0[k] == s[k])
    ensures r.1.Created? && r.1.marketId !in s ==>
              r.0[r.1.marketId] == NewMarket(req.title.value, Fallback(req.description, ""),
                                             Fallback(req.optionA, "YES"), Fallback(req.optionB, "NO"),
                                             req.deadline.value, req.threshold.value,
                                             Fallback(req.metricType, GenericMetric.name))
    ensures r.1.Created? && r.1.marketId in s ==>
              r.0[r.1.marketId] == s[r.1.marketId].(deadline := req.deadline.value,
                                                    threshold := req.threshold.value,
                                                    metricType := Fallback(req.metricType, GenericMetric.name),
                                                    description := Fallback(req.description, ""))
    ensures r.1.Created? <==> HasRequired(req) && !fails(Upsert(MarketId(req.title.value, now)))
    ensures r.1 == ServerError <==> HasRequired(req) && fails(Upsert(MarketId(req.title.value, now)))
  {
    if !HasRequired(req) then (s, BadRequest)
    else
      var id := MarketId(req.title.value, now);
      if fails(Upsert(id)) then (s, ServerError)
      else
        (AddMarket(s, id, req.title.value, req.deadline.value, req.threshold.value,
                   Fallback(req.metricType, GenericMetric.name), Fallback(req.description, ""),
                   Fallback(req.optionA, "YES"), Fallback(req.optionB, "NO")),
         Created(id))
  }

  /** `GET /markets/:id`. */
  function GetMarket(s: Store, id: string, fails: StoreCall -> bool): (r: Response)
    ensures r == NotFound <==> !fails(ReadById(id)) && id !in s
    ensures r.Found? <==> !fails(ReadById(id)) && id in s
    ensures r.Found? ==> r.market == s[id]
    ensures r == ServerError <==> fails(ReadById(id))
  {
    if fails(ReadById(id)) then ServerError
    else
      match GetMarketById(s, id)
      case None => NotFound
      case Some(m) => Found(m)
  }

  /** `GET /markets`, `/markets/pending` and `/markets/locked`. */
  function ListMarkets(s: Store, order: seq<string>, q: Query, fails: StoreCall -> bool): (r: Response)
    requires q != NotOnChain
    ensures r == ServerError <==> fails(Read(q))
    ensures r.Listed? <==> !fails(Read(q))
    ensures r.Listed? && Distinct(order) ==> Distinct(r.ids)
    ensures r.Listed? && Enumerates(order, s) ==> forall id :: id in r.ids <==> id in s && Matches(q, s[id])
  {
    if fails(Read(q)) then ServerError else Listed(Select(s, order, q))
  }

  /** `POST /markets/:id/lock`: only a pending market can be locked. */
  function LockMarket(s: Store, id: string, fails: StoreCall -> bool): (r: (Store, Response))
    ensures r.1 == NotFound <==> !fails(ReadById(id)) && id !in s
    ensures r.1 == BadRequest <==> !fails(ReadById(id)) && id in s && s[id].status != Pending
    ensures r.1.Done? <==> && !fails(ReadById(id)) && id in s && s[id].status == Pending
                           && !fails(WriteStatus(id, Locked))
    ensures r.1 == ServerError <==> fails(ReadById(id))
                                    || (id in s && s[id].status == Pending && fails(WriteStatus(id, Locked)))
    ensures r.1.Done? ==> r.1.marketId == id && r.0 == MarkLocked(s, id)
    ensures !r.1.Done? ==> r.0 == s
  {
    if fails(ReadById(id)) then (s, ServerError)
    else
      match GetMarketById(s, id)
      case None => (s, NotFound)
      case Some(m) =>
        if m.status != Pending then (s, BadRequest)
        else if fails(WriteStatus(id, Locked)) then (s, ServerError)
        else (MarkLocked(s, id), Done(id))
  }

  /** `winning_option` is exactly the number 1 or 2. */
  predicate ValidOption(w: Option<int>) {
    w == Some(1) || w == Some(2)
  }

  /** `POST /markets/:id/resolve`: the option is checked before the market
      is looked up, only a locked market can be resolved, and the option is
      echoed in the reply but not stored. */
  function ResolveMarket(s: Store, id: string, winning: Option<int>, fails: StoreCall -> bool): (r: (Store, Response))
    ensures !ValidOption(winning) ==> r == (s, BadRequest)
    ensures r.1 == NotFound <==> ValidOption(winning) && !fails(ReadById(id)) && id !in s
    ensures r.1 == BadRequest <==> !ValidOption(winning)
                                   || (!fails(ReadById(id)) && id in s && s[id].status != Locked)
    ensures r.1 == ServerError <==> && ValidOption(winning)
                                    && (fails(ReadById(id))
                                        || (id in s && s[id].status == Locked && fails(WriteStatus(id, Resolved))))
    ensures r.1.ResolvedWith? <==> && ValidOption(winning) && !fails(ReadById(id)) && id in s
                                   && s[id].status == Locked && !fails(WriteStatus(id, Resolved))
    ensures r.1.ResolvedWith? ==> && r.1.marketId == id && Some(r.1.winningOption) == winning
                                  && r.0 == MarkResolved(s, id)
    ensures !r.1.ResolvedWith? ==> r.0 == s
  {
    if !ValidOption(winning) then (s, BadRequest)
    else if fails(ReadById(id)) then (s, ServerError)
    else
      match GetMarketById(s, id)
      case None => (s, NotFound)
      case Some(m) =>
        if m.status != Locked then (s, BadRequest)
        else if fails(WriteStatus(id, Resolved)) then (s, ServerError)
        else (MarkResolved(s, id), ResolvedWith(id, winning.value))
  }

  /** Which option an administrator names makes no difference to the store:
      the two replies differ at most in the option they echo. */
  lemma ResolveIgnoresOption(s: Store, id: string, fails: StoreCall -> bool)
    ensures ResolveMarket(s, id, Some(1), fails).0 == ResolveMarket(s, id, Some(2), fails).0
    ensures var r1 := ResolveMarket(s, id, Some(1), fails).1;
            var r2 := ResolveMarket(s, id, Some(2), fails).1;
            && (r1.ResolvedWith? <==> r2.ResolvedWith?)
            && (r1.ResolvedWith? ==> r2 == r1.(winningOption := 2))
            && (!r1.ResolvedWith? ==> r1 == r2)
  {
  }

  /** Two titles whose hashes have the same absolute value get the same id
      at the same millisecond, so creating both adds one row, not two: the
      second `addMarket` overwrites the first's deadline, threshold, metric
      type and description but keeps its title. */
  lemma SameHashOneRow(s: Store, req1: CreateRequest, req2: CreateRequest, now: nat, fails: StoreCall -> bool)
    requires HasRequired(req1) && HasRequired(req2)
    requires Abs(JavaHash(Utf16Units(req1.title.value))) == Abs(JavaHash(Utf16Units(req2.title.value)))
    ensures var first := CreateMarket(s, req1, now, fails);
            var second := CreateMarket(first.0, req2, now, fails);
            && (first.1.Created? ==> second.0.Keys == s.Keys + {first.1.marketId})
            && (first.1.Created? && second.1.Created? ==>
                  && second.1.marketId == first.1.marketId
                  && second.0[first.1.marketId].title == first.0[first.1.marketId].title)
  {
    assert Stamp(req1.title.value, now) == Stamp(req2.title.value, now);
  }

  /** The manual endpoints move a market only forward in its lifecycle. */
  lemma ManualEndpointsEvolve(s: Store, id: string, winning: Option<int>, fails: StoreCall -> bool)
    ensures StoreEvolves(s, LockMarket(s, id, fails).0)
    ensures StoreEvolves(s, ResolveMarket(s, id, winning, fails).0)
  {
  }

  /** The metric names `GET /metrics` advertises. */
  const AdvertisedMetrics: seq<string> := ["eth_price", "btc_price", "eth_gas_price", "btc_dominance",
                                           "eth_staking_rate", "fear_greed", "stablecoin_peg", "generic"]

  /** Of the eight advertised metric types only two have a handler in the
      registry under Oracle/metrics/ (`BuiltinRegistry`); with that registry
      a market created with any other type is never resolved by the worker. */
  lemma AdvertisedWithoutHandler()
    ensures forall i :: 0 <= i < |AdvertisedMetrics| ==>
              (GetMetric(BuiltinRegistry(), AdvertisedMetrics[i]).Some? <==>
               AdvertisedMetrics[i] == "eth_price" || AdvertisedMetrics[i] == "eth_staking_rate")
  {
    var r := BuiltinRegistry();
    assert r.entries.Keys == {"eth_staking_rate", "eth_price"};
  }
}
