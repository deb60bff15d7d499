/** The oracle worker (Oracle/src/worker.ts): one tick of `startWorker`'s
    interval as a pure function of the market store, the clock and the
    outcomes of everything outside the process.

    A tick runs four phases in order, each over the rows one query returns:
    sync the ledger's stake counters into every row; submit `create_pool`
    for rows not yet on the ledger; submit `lock_pool` for pending rows whose
    deadline has passed; submit `resolve_pool` for locked rows whose metric
    yields a value.  A row's flag or status changes only after the ledger
    accepted the submission.  A store failure on a listing or on a flag or
    status write ends the tick (the interval body's outer `catch`); the rows
    already written stay written. */
module Worker {
  import opened Wrappers
  import opened Text
  import opened Numerals
  import opened FieldCodec
  import opened MarketStore
  import opened Metrics
  import opened PoolStats

  /** What `getProgramMappingValue(PROGRAM_ID, "pools", key)` gives: no
      value, a thrown error, or the pool record as text. */
  datatype PoolLookup = NotFound | LookupFailed | Found(data: string)

  /** The ledger program's transitions the worker calls. */
  datatype LedgerFn = CreatePool | LockPool | ResolvePool

  /** One `programManager.execute` call: the market it is for, the
      transition, and its positional inputs. */
  datatype Submission = Submission(market: string, fn: LedgerFn, inputs: seq<string>)

  /** Which ledger key the lock and resolve phases send: the one worker.ts
      computes (`WrittenSubmitKey`), or the key the sync phase reads the
      pool by (`PoolKey`). */
  datatype KeyRule = AsWritten | SameAsSync

  /** Everything a tick depends on besides the store and the clock:
      the key rule, whether the oracle key and node address are configured,
      the ledger's pool mapping, whether the ledger accepts a submission
      (proving and broadcasting succeed), the metric registry, what each
      market's data source yields this tick, and which store calls throw. */
  datatype Environment = Environment(
    keyRule: KeyRule,
    credentials: bool,
    pools: string -> PoolLookup,
    accepts: Submission -> bool,
    registry: Registry,
    readings: string -> Option<real>,
    storeFails: StoreCall -> bool)

  /** The store after a stretch of the tick, the submissions made so far in
      order, and whether the tick is still running. */
  datatype Step = Step(store: Store, log: seq<Submission>, ok: bool)

  ghost predicate NoStoreFaults(env: Environment) {
    forall c :: !env.storeFails(c)
  }

  /** The ledger key of a market id as the sync phase computes it: an id that
      is already a field literal is used as it is, any other id is encoded.
      Under the `SameAsSync` key rule the lock and resolve phases send this
      key as well. */
  function PoolKey(id: string): (r: Option<string>)
    ensures EndsWith(id, "field") ==> r == Some(id)
    ensures r.None? <==> id == []
    ensures r.Some? ==> EndsWith(r.value, "field")
  {
    if EndsWith(id, "field") then Some(id) else StringToField(Utf8(id))
  }

  /** The key `lockMarket` and `resolveMarket` pass to the ledger: the id is
      always encoded, even when it is already a field literal. */
  function WrittenSubmitKey(id: string): (r: Option<string>)
    ensures r.None? <==> id == []
    ensures r.Some? ==> EndsWith(r.value, "field")
  {
    StringToField(Utf8(id))
  }

  /** The key lock and resolve send under a key rule. */
  function SubmitKey(rule: KeyRule, id: string): (r: Option<string>)
    ensures rule == AsWritten ==> r == WrittenSubmitKey(id)
    ensures rule == SameAsSync ==> r == PoolKey(id)
    ensures r.None? <==> id == []
  {
    match rule
    case AsWritten => WrittenSubmitKey(id)
    case SameAsSync => PoolKey(id)
  }

  /** Option 1 (YES) wins when the metric's value reaches the threshold. */
  function WinningOption(value: real, threshold: real): (w: nat)
    ensures w == 1 || w == 2
    ensures w == 1 <==> value >= threshold
  {
    if value >= threshold then 1 else 2
  }

  // ---------------------------------------------------------------------
  // Phase 0: sync

  /** The counters the ledger holds for a market, when its pool record is
      found, is non-empty and carries all three counters.  An id that cannot
      be encoded, a failed lookup and a missing record all give `None`. */
  function LedgerStats(id: string, env: Environment): (r: Option<Stats>)
    ensures r.Some? ==> PoolKey(id).Some? && env.pools(PoolKey(id).value).Found?
    ensures PoolKey(id).Some? && env.pools(PoolKey(id).value).Found? ==>
              r == ParseStats(env.pools(PoolKey(id).value).data)
  {
    match PoolKey(id)
    case None => None
    case Some(k) =>
      match env.pools(k)
      case Found(data) => if data == [] then None else ParseStats(data)
      case _ => None
  }

  /** One iteration of the sync loop; every error inside it is caught. */
  function SyncMarket(s: Store, id: string, env: Environment): (r: Store)
    ensures r.Keys == s.Keys
  {
    match LedgerStats(id, env)
    case None => s
    case Some(st) => if env.storeFails(WriteStats(id)) then s else UpdateMarketStats(s, id, st)
  }

  function SyncMarkets(s: Store, ids: seq<string>, env: Environment): (r: Store)
    decreases |ids|
    ensures r.Keys == s.Keys
  {
    if ids == [] then s else SyncMarkets(SyncMarket(s, ids[0], env), ids[1..], env)
  }

  /** `syncOnChainData`: a failure to list the rows ends the tick. */
  function Sync(s: Store, order: seq<string>, env: Environment): (r: Step)
    ensures r.store.Keys == s.Keys && r.log == []
  {
    if env.storeFails(Read(AllRows)) then Step(s, [], false)
    else Step(SyncMarkets(s, GetAllMarkets(s, order), env), [], true)
  }

  /** What the sync phase does to one row: the counters are overwritten by
      the ledger's (not added to), and nothing else changes. */
  function SyncedRow(id: string, m: Market, env: Environment): (r: Market)
    ensures r.(totalStaked := m.totalStaked, optionAStakes := m.optionAStakes,
               optionBStakes := m.optionBStakes) == m
    ensures LedgerStats(id, env).Some? && !env.storeFails(WriteStats(id)) ==>
              Counters(r) == LedgerStats(id, env).value
    ensures LedgerStats(id, env).None? || env.storeFails(WriteStats(id)) ==> r == m
  {
    match LedgerStats(id, env)
    case None => m
    case Some(st) => if env.storeFails(WriteStats(id)) then m else WithStats(m, st)
  }

  // ---------------------------------------------------------------------
  // Phases 1-3: create, lock, resolve

  /** The three submitting phases; locking reads the clock, in seconds. */
  datatype Phase = Creating | Locking(now: int) | Resolving

  /** The rows a phase works through. */
  function PhaseQuery(p: Phase): Query {
    match p
    case Creating => NotOnChain
    case Locking(_) => WithStatus(Pending)
    case Resolving => WithStatus(Locked)
  }

  function PhaseFn(p: Phase): LedgerFn {
    match p
    case Creating => CreatePool
    case Locking(_) => LockPool
    case Resolving => ResolvePool
  }

  /** `value || fallback` on a text column. */
  function OrElse(s: string, fallback: string): (r: string)
    ensures s == [] ==> r == fallback
    ensures s != [] ==> r == s
  {
    if s == [] then fallback else s
  }

  /** `stringToField` of a non-empty text. */
  function TextField(s: string): (r: string)
    requires s != []
    ensures Some(r) == StringToField(Utf8(s))
  {
    StringToField(Utf8(s)).value
  }

  /** The inputs of `create_pool`: title, description, the two option labels
      as one array literal, and the deadline as a `u64` literal, with the
      texts' fallbacks for empty columns. */
  function CreateInputs(m: Market): (r: seq<string>)
    ensures |r| == 4
    ensures EndsWith(r[0], "field") && EndsWith(r[1], "field") && EndsWith(r[3], "u64")
  {
    var a := TextField(OrElse(m.optionA, "YES"));
    var b := TextField(OrElse(m.optionB, "NO"));
    [TextField(OrElse(m.title, "Market")), TextField(OrElse(m.description, "Prediction market")),
     "[" + a + ", " + b + "]", U64Literal(m.deadline)]
  }

  /** A text field whose first character is not NUL decodes back to the
      text's first 31 bytes. */
  lemma TextFieldReadsBack(s: string)
    requires s != [] && s[0] != '\0'
    ensures FieldToBytes(TextField(s)) == Truncate(Utf8(s))
  {
    FieldRoundTrip(Utf8(s));
  }

  /** Where each column goes among the inputs of `create_pool`. */
  lemma CreateInputsLayout(m: Market)
    ensures var r := CreateInputs(m);
            && r[0] == TextField(OrElse(m.title, "Market"))
            && r[1] == TextField(OrElse(m.description, "Prediction market"))
            && r[2] == "[" + TextField(OrElse(m.optionA, "YES")) + ", " + TextField(OrElse(m.optionB, "NO")) + "]"
            && r[3] == U64Literal(m.deadline)
  {
  }

  /** The first two inputs of `create_pool` decode back to (the first 31
      bytes of) the title and the description, or their fallbacks. */
  lemma CreateTextsReadBack(m: Market)
    ensures var title := OrElse(m.title, "Market");
            title[0] != '\0' ==> FieldToBytes(CreateInputs(m)[0]) == Truncate(Utf8(title))
    ensures var desc := OrElse(m.description, "Prediction market");
            desc[0] != '\0' ==> FieldToBytes(CreateInputs(m)[1]) == Truncate(Utf8(desc))
  {
    CreateInputsLayout(m);
    var title := OrElse(m.title, "Market");
    var desc := OrElse(m.description, "Prediction market");
    if title[0] != '\0' { TextFieldReadsBack(title); }
    if desc[0] != '\0' { TextFieldReadsBack(desc); }
  }

  /** The third input of `create_pool` is the array of the two option
      labels, option A first, each decoding back to (the first 31 bytes of)
      its label or fallback. */
  lemma CreateOptionsReadBack(m: Market)
    ensures var a := OrElse(m.optionA, "YES");
            var b := OrElse(m.optionB, "NO");
            && CreateInputs(m)[2] == "[" + TextField(a) + ", " + TextField(b) + "]"
            && (a[0] != '\0' ==> FieldToBytes(TextField(a)) == Truncate(Utf8(a)))
            && (b[0] != '\0' ==> FieldToBytes(TextField(b)) == Truncate(Utf8(b)))
  {
    CreateInputsLayout(m);
    var a := OrElse(m.optionA, "YES");
    var b := OrElse(m.optionB, "NO");
    if a[0] != '\0' { TextFieldReadsBack(a); }
    if b[0] != '\0' { TextFieldReadsBack(b); }
  }

  /** The last input of `create_pool` reads back as the deadline when it is
      non-negative, and is no `u64` literal otherwise. */
  lemma CreateDeadlineReadBack(m: Market)
    ensures m.deadline >= 0 ==> ParseU64Literal(CreateInputs(m)[3]) == Some(m.deadline)
    ensures m.deadline < 0 ==> ParseU64Literal(CreateInputs(m)[3]) == None
  {
    CreateInputsLayout(m);
    U64LiteralRoundTrip(m.deadline);
  }

  /** The resolution value of a locked market: its metric's reading, or
      `None` when no metric of that name is registered or it yields null. */
  function ResolutionValue(m: Market, registry: Registry, reading: Option<real>): Option<real> {
    match GetMetric(registry, m.metricType)
    case None => None
    case Some(h) => FetchValue(h, reading)
  }

  /** The submission a phase makes for one of its rows, if any:
      `createMarketOnChain`, the deadline test and `lockMarket`, or the
      handler lookup, `fetchValue`, the threshold rule and `resolveMarket`.
      Without credentials nothing is submitted. */
  function Attempt(p: Phase, id: string, m: Market, env: Environment): (r: Option<Submission>)
    ensures r.Some? ==> env.credentials && r.value.market == id && r.value.fn == PhaseFn(p)
    ensures r.Some? && p.Locking? ==>
              p.now >= m.deadline && SubmitKey(env.keyRule, id).Some? && r.value.inputs == [SubmitKey(env.keyRule, id).value]
    ensures r.Some? && p.Resolving? ==>
              && ResolutionValue(m, env.registry, env.readings(id)).Some? && SubmitKey(env.keyRule, id).Some?
              && r.value.inputs == [SubmitKey(env.keyRule, id).value,
                   U64Literal(WinningOption(ResolutionValue(m, env.registry, env.readings(id)).value, m.threshold))]
  {
    if !env.credentials then None
    else
      match p
      case Creating => Some(Submission(id, CreatePool, CreateInputs(m)))
      case Locking(now) =>
        if now < m.deadline then None
        else (
          match SubmitKey(env.keyRule, id)
          case None => None
          case Some(k) => Some(Submission(id, LockPool, [k])))
      case Resolving =>
        match ResolutionValue(m, env.registry, env.readings(id))
        case None => None
        case Some(v) =>
          match SubmitKey(env.keyRule, id)
          case None => None
          case Some(k) => Some(Submission(id, ResolvePool, [k, U64Literal(WinningOption(v, m.threshold))]))
  }

  /** The store write a phase makes after an accepted submission. */
  function MarkCall(p: Phase, id: string): StoreCall {
    match p
    case Creating => WriteOnChain(id)
    case Locking(_) => WriteStatus(id, Locked)
    case Resolving => WriteStatus(id, Resolved)
  }

  function Mark(p: Phase, s: Store, id: string): Store {
    match p
    case Creating => MarkOnChain(s, id)
    case Locking(_) => MarkLocked(s, id)
    case Resolving => MarkResolved(s, id)
  }

  /** `Mark` on one row. */
  function Marked(p: Phase, m: Market): Market {
    match p
    case Creating => m.(onChain := true)
    case Locking(_) => m.(status := Locked)
    case Resolving => m.(status := Resolved)
  }

  /** One iteration of a phase loop.  The row is the one the phase's query
      returned; a refused submission leaves it as it is. */
  function AdvanceOne(p: Phase, st: Step, id: string, env: Environment): (r: Step)
    ensures r.store.Keys == st.store.Keys
    ensures st.log <= r.log && |r.log| <= |st.log| + 1
    ensures r.ok ==> st.ok
  {
    if !st.ok || id !in st.store then st
    else
      match Attempt(p, id, st.store[id], env)
      case None => st
      case Some(sub) =>
        var log := st.log + [sub];
        if !env.accepts(sub) then Step(st.store, log, true)
        else if env.storeFails(MarkCall(p, id)) then Step(st.store, log, false)
        else Step(Mark(p, st.store, id), log, true)
  }

  function AdvanceAll(p: Phase, st: Step, ids: seq<string>, env: Environment): (r: Step)
    decreases |ids|
    ensures r.store.Keys == st.store.Keys
    ensures st.log <= r.log
    ensures r.ok ==> st.ok
  {
    if ids == [] then st else AdvanceAll(p, AdvanceOne(p, st, ids[0], env), ids[1..], env)
  }

  /** One submitting phase: list its rows, then work through them. */
  function RunPhase(p: Phase, st: Step, order: seq<string>, env: Environment): (r: Step)
    ensures r.store.Keys == st.store.Keys
    ensures st.log <= r.log
    ensures r.ok ==> st.ok
  {
    if !st.ok then st
    else if env.storeFails(Read(PhaseQuery(p))) then st.(ok := false)
    else AdvanceAll(p, st, Select(st.store, order, PhaseQuery(p)), env)
  }

  /** One tick at `now` seconds, over the rows in the store's order. */
  function Tick(s: Store, order: seq<string>, now: int, env: Environment): (r: Step)
    ensures r.store.Keys == s.Keys
  {
    var synced := Sync(s, order, env);
    var created := RunPhase(Creating, synced, order, env);
    var locked := RunPhase(Locking(now), created, order, env);
    RunPhase(Resolving, locked, order, env)
  }

  /** The inputs of one tick of a run. */
  datatype TickInput = TickInput(order: seq<string>, now: int, env: Environment)

  /** Successive ticks, each starting from the store the previous one left. */
  function Run(s: Store, ticks: seq<TickInput>): (r: Store)
    decreases |ticks|
    ensures r.Keys == s.Keys
  {
    if ticks == [] then s else Run(Tick(s, ticks[0].order, ticks[0].now, ticks[0].env).store, ticks[1..])
  }

  // ---------------------------------------------------------------------
  // The same tick, row by row

  /** What a phase does to one row, as a reference for `RunPhase`. */
  function Advanced(p: Phase, id: string, m: Market, env: Environment): Market {
    if !Matches(PhaseQuery(p), m) then m
    else
      match Attempt(p, id, m, env)
      case None => m
      case Some(sub) => if env.accepts(sub) then Marked(p, m) else m
  }

  /** The row as the create phase sees it and leaves it. */
  function AfterCreate(id: string, m: Market, env: Environment): Market {
    Advanced(Creating, id, SyncedRow(id, m, env), env)
  }

  /** The row as the resolve phase sees it. */
  function AfterLock(id: string, m: Market, now: int, env: Environment): Market {
    Advanced(Locking(now), id, AfterCreate(id, m, env), env)
  }

  /** The row after a whole tick, phase by phase. */
  function TickRow(id: string, m: Market, now: int, env: Environment): Market {
    Advanced(Resolving, id, AfterLock(id, m, now, env), env)
  }

  /** `sub` is a submission the tick owes to row `id` of `s`: the one its
      create, lock or resolve phase attempts on the row as that phase sees it. */
  predicate Justified(sub: Submission, s: Store, now: int, env: Environment) {
    && sub.market in s
    && var id := sub.market;
       var m0 := SyncedRow(id, s[id], env);
       var m1 := AfterCreate(id, s[id], env);
       var m2 := AfterLock(id, s[id], now, env);
       || (Matches(PhaseQuery(Creating), m0) && Attempt(Creating, id, m0, env) == Some(sub))
       || (Matches(PhaseQuery(Locking(now)), m1) && Attempt(Locking(now), id, m1, env) == Some(sub))
       || (Matches(PhaseQuery(Resolving), m2) && Attempt(Resolving, id, m2, env) == Some(sub))
  }
}
