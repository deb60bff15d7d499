# Prediction-market oracle: a Dafny model

This project models the off-chain half of a privacy prediction market on the
Aleo ledger. That half consists of:

- **The oracle worker** (`Oracle/src/worker.ts`). Once a minute it:
  - copies every pool's stake counters from the ledger into the market table;
  - submits `create_pool` for markets not yet on the ledger;
  - submits `lock_pool` for pending markets whose deadline has passed;
  - submits `resolve_pool` for locked markets whose metric yields a value, with option 1 (YES) when the value reaches the market's threshold and option 2 (NO) otherwise.
- **The worker's field encoding of text**: `stringToField` and `fieldToString`.
- **The market table** (`Oracle/src/db.ts`).
- **The administrator's REST layer** (`Oracle/src/api.ts`):
  - market ids;
  - create, read, list, lock and resolve.
- **The metric registry** (`Oracle/metrics/registry.ts`) and **the manual `generic` metric** (`Oracle/src/metrics/generic.ts`).
- **The earlier Python oracle loop** (`Oracle/worker.py`). It resolves pending markets directly, with no lock step.
- **The front end's `makePrediction`** (`Frontend/hooks/use-prediction.ts`). It builds the inputs of the program's `predict` transition and hands them to the wallet.

Everything outside the process becomes a parameter:

- the clock;
- the ledger's `pools` mapping;
- whether the ledger accepts a submission;
- what a metric's data source yields;
- which store calls throw;
- the wallet.

A worker tick is a pure function `Worker.Tick(store, order, now, env)`. It returns the new store, the submissions made in order, and whether the tick ran to its end. `order` is the row order the database returns. One row order per tick is shared by all of its queries; the queries in `Oracle/src/db.ts` have no `ORDER BY`, so the database could return each listing in another order, but no proved property depends on the order.

The lock and resolve phases address a pool by a key that `env.keyRule` chooses. `AsWritten` is the key worker.ts sends: the market id run through `stringToField`. `SameAsSync` is the key the sync phase reads the pool under. The two differ for every id the admin API generates; see "Findings".

## Layout

| file | module | what it holds |
|---|---|---|
| `wrappers.dfy` | `Wrappers` | `Option` |
| `seqs.dfy` | `Seqs` | `Distinct` |
| `text.dfy` | `Text` | JavaScript string operations: `endsWith`, first-occurrence `replace`, `trim`, and the UTF-8 and UTF-16 encodings |
| `numerals.dfy` | `Numerals` | `${n}`, the `BigInt(string)` grammar, and `u64` literals |
| `field_codec.dfy` | `FieldCodec` | `stringToField` / `fieldToString` at the byte level |
| `market_store.dfy` | `MarketStore` | the `markets` table and its queries and updates, plus the lifecycle order pending → locked → resolved |
| `metrics.dfy` | `Metrics` | metrics, `fetchValue`, the registry |
| `pool_stats.dfy` | `PoolStats` | the `<name>:\s*(\d+)u64` counter patterns |
| `worker.dfy` | `Worker` | the sync phase, the three submitting phases, the tick, and runs of ticks, with a row-by-row reference (`TickRow`) |
| `worker_lemmas.dfy` | `WorkerLemmas` | what a tick does, proved against that reference |
| `admin_api.dfy` | `AdminApi` | `generateMarketId` and the endpoints |
| `legacy_worker.dfy` | `LegacyWorker` | the Python loop |
| `prediction.dfy` | `Prediction` | `makePrediction` |

## Model

| member | source | states |
|---|---|---|
| `Text.RemoveFirstCutsLeftmost` | Oracle/src/worker.ts:47 | `replace` with a string pattern cuts out exactly the leftmost occurrence |
| `Numerals.ParseBigIntOfDecimal` | Oracle/src/worker.ts:48 | `BigInt` reads back every decimal numeral `${i}`, signed or not |
| `Numerals.U64LiteralRoundTrip` | Oracle/src/worker.ts:205 | a `${i}u64` literal reads back as `i` for `i >= 0`; a negative one is no `u64` literal |
| `FieldCodec.Truncate` | Oracle/src/worker.ts:38-40 | only the first 31 bytes take part: a longer buffer is cut to exactly its first 31 bytes, and a buffer of at most 31 bytes is kept whole |
| `FieldCodec.FieldValue` | Oracle/src/worker.ts:38-41 | the encoded number is always below 2^248 |
| `FieldCodec.StringToField` | Oracle/src/worker.ts:37-43 | the encoding throws exactly on the empty text (`BigInt("0x")`); otherwise it is a literal ending in `field` |
| `FieldCodec.ToBytesBE` | Oracle/src/worker.ts:49-51 | the number's bytes have no leading zero byte and read back as the number |
| `FieldCodec.BytesRoundTrip` | Oracle/src/worker.ts:38-51 | bytes without a leading zero byte survive being turned into a number and back |
| `FieldCodec.DecimalLiteralBody` | Oracle/src/worker.ts:42-48 | removing `field` from `${n}field` and parsing the rest gives `n` back |
| `FieldCodec.FieldRoundTrip` | Oracle/src/worker.ts:37-56 | `fieldToString` undoes `stringToField` on every text whose first byte is not 0x00, up to the 31-byte cut |
| `FieldCodec.LeadingZeroLost` | Oracle/src/worker.ts:37-56 | a text of two or more bytes starting with a 0x00 byte does not decode back to its first 31 bytes: the encoded number drops the leading zero byte |
| `FieldCodec.LiteralReadsBack` | Oracle/src/worker.ts:42-48 | the numeral in front of `field` reads back as the encoded number |
| `FieldCodec.SingleZeroSurvives` | Oracle/src/worker.ts:41-51 | the one-byte text 0x00 encodes as `0field` and decodes back to the single byte 0, because the hex of 0 is padded to `00` |
| `FieldCodec.EmptyNumeralIsZero` | Oracle/src/worker.ts:47-51 | `"field"` decodes as the single byte 0, since `BigInt("")` is 0 |
| `FieldCodec.NonNumeralIsUnknown` | Oracle/src/worker.ts:46-55 | a text with no `f` whose trimmed end is no hexadecimal digit, followed by `field`, makes `BigInt` throw, and the decoding is "Unknown" |
| `FieldCodec.BarePrefixIsUnknown` | Oracle/src/worker.ts:46-55 | a bare radix prefix such as `0x` before `field` makes `BigInt` throw, and the decoding is "Unknown" |
| `MarketStore.NewMarket` | Oracle/src/db.ts:48-50 | an inserted row is pending, not on the ledger, has zero stakes, and carries the given listing |
| `MarketStore.AddMarket` | Oracle/src/db.ts:41-64 | inserts a new id. On an id clash only deadline, threshold, metric type and description are overwritten; status, flag, counters, title and labels stay. No other row changes |
| `MarketStore.Select` | Oracle/src/db.ts:66-86 | a query returns exactly the rows matching its filter, each once |
| `MarketStore.GetAllMarkets` | Oracle/src/db.ts:7-16 | lists every market exactly once |
| `MarketStore.GetPendingMarkets` | Oracle/src/db.ts:66-75 | lists exactly the rows whose status is pending, each once |
| `MarketStore.GetLockedMarkets` | Oracle/src/db.ts:77-86 | lists exactly the rows whose status is locked, each once |
| `MarketStore.GetMarketsNotOnChain` | Oracle/src/worker.ts:239 | lists exactly the rows whose on-ledger flag is unset, whatever their status |
| `MarketStore.GetMarketById` | Oracle/src/api.ts:53-56 | gives the row exactly when the id is in the table |
| `MarketStore.SetStatus` | Oracle/src/db.ts:88-108 | sets the status of the named row and changes nothing else; an absent id changes nothing |
| `MarketStore.MarkLocked` | Oracle/src/db.ts:88-97 | the named row becomes locked and nothing else changes |
| `MarketStore.MarkResolved` | Oracle/src/db.ts:99-108 | the named row becomes resolved and nothing else changes |
| `MarketStore.MarkOnChain` | Oracle/src/worker.ts:247 | the named row's on-ledger flag is set and nothing else changes |
| `MarketStore.WithStats` | Oracle/src/db.ts:116-119 | the three counters take the given values; every other column stays |
| `MarketStore.UpdateMarketStats` | Oracle/src/db.ts:110-128 | exactly the named row's three counters are overwritten |
| `MarketStore.UpdateMarketStatsIdempotent` | Oracle/src/db.ts:116-119 | writing the same counters twice equals writing them once |
| `Metrics.FetchValue` | Oracle/src/metrics/generic.ts:11-14 | a metric yields a value only when it is data-backed, and a data-backed metric yields exactly what its source gave |
| `Metrics.GenericNeverYields` | Oracle/src/metrics/generic.ts:9-14 | the generic metric yields null whatever the data source says |
| `Metrics.GetMetric` | Oracle/metrics/registry.ts:18-20 | a handler is found exactly for a registered name, and it carries that name |
| `Metrics.Register` | Oracle/metrics/registry.ts:13-16 | afterwards the name maps to the new metric and every other name is unchanged. A new name goes to the end of the listing; a known one keeps its place. The registry stays well formed |
| `Metrics.ListMetrics` | Oracle/metrics/registry.ts:22-24 | lists each registered name exactly once |
| `Metrics.BuiltinRegistry` | Oracle/metrics/registry.ts:5-27 | the exported registry lists `eth_staking_rate` then `eth_price`, and has no handler for `generic` |
| `PoolStats.RegexMatchIsMatchAt` | Oracle/src/worker.ts:79-81 | wherever `<name>:\s*(\d+)u64` matches (name, colon, white space, at least one digit, `u64`), `MatchAt` succeeds there with the value of the digit group |
| `PoolStats.MatchAtIsRegexMatch` | Oracle/src/worker.ts:79-81 | `MatchAt` succeeds only where that pattern matches, with the longest white-space and digit runs, and its value is the digits' value |
| `PoolStats.FirstMatchFrom` | Oracle/src/worker.ts:79-81 | finds the leftmost index where the pattern matches, or reports that none does |
| `PoolStats.FindStat` | Oracle/src/worker.ts:79-86 | the captured value comes from the leftmost match; `None` means the pattern matches nowhere |
| `PoolStats.ParseStats` | Oracle/src/worker.ts:79-89 | gives counters exactly when all three patterns match, each from its own leftmost match |
| `PoolStats.RenderedStatReadBack` | Oracle/src/worker.ts:79-86 | a counter printed as `name: Nu64` anywhere in a record reads back as N, whatever follows, when the pattern matches nowhere before it |
| `Worker.PoolKey` | Oracle/src/worker.ts:66 | an id already ending in `field` is its own ledger key; any other non-empty id is encoded; the empty id has no key |
| `Worker.WrittenSubmitKey` | Oracle/src/worker.ts:171-172 | the key lock (and resolve, line 204) actually sends: always encoded, throwing on the empty id |
| `Worker.SubmitKey` | Oracle/src/worker.ts:171-172 | the key rule picks the key lock and resolve send: the written key under `AsWritten`, the sync key under `SameAsSync`; neither exists for the empty id |
| `Worker.WinningOption` | Oracle/src/worker.ts:282 | option 1 exactly when the value reaches the threshold, otherwise 2 |
| `Worker.LedgerStats` | Oracle/src/worker.ts:66-83 | counters come only from a pool record found under the market's key, parsed in full; and a found record that holds all three counters always yields them |
| `Worker.SyncMarket` | Oracle/src/worker.ts:63-95 | one sync iteration never adds or drops a market |
| `Worker.SyncMarkets` | Oracle/src/worker.ts:62-96 | the sync loop never adds or drops a market |
| `Worker.Sync` | Oracle/src/worker.ts:58-97 | sync submits nothing and keeps the set of markets |
| `Worker.SyncedRow` | Oracle/src/worker.ts:75-89 | sync overwrites a row's counters with the ledger's (not adding to them) when the record is complete and the write succeeds. Otherwise the row is untouched. No other column changes |
| `Worker.OrElse` | Oracle/src/worker.ts:128-131 | an empty column takes its fallback; a non-empty one is kept |
| `Worker.TextFieldReadsBack` | Oracle/src/worker.ts:128-131 | a non-empty text field passed to `create_pool` decodes back to the first 31 UTF-8 bytes of its text, unless the text starts with U+0000 |
| `Worker.CreateTextsReadBack` | Oracle/src/worker.ts:128-140 | the first two inputs of `create_pool` decode back to the first 31 UTF-8 bytes of the title and description, or of their fallbacks `Market` and `Prediction market`, unless the text starts with U+0000 |
| `Worker.CreateOptionsReadBack` | Oracle/src/worker.ts:130-138 | the third input is the array of the two labels, option A first, each decoding back to the first 31 UTF-8 bytes of its label or its fallback `YES` / `NO`, unless the label starts with U+0000 |
| `Worker.CreateDeadlineReadBack` | Oracle/src/worker.ts:132-139 | the last input reads back as the deadline when it is not negative, and is no `u64` literal otherwise |
| `Worker.Attempt` | Oracle/src/worker.ts:162-224 | nothing is submitted without credentials. A lock needs the deadline reached and sends the key rule's key alone. A resolution needs a value from the market's handler and sends the key rule's key and the threshold rule's option |
| `Worker.AdvanceOne` | Oracle/src/worker.ts:256-264 | one loop iteration keeps the set of markets and appends at most one submission |
| `Worker.AdvanceAll` | Oracle/src/worker.ts:256-265 | a phase loop only appends to the submission log |
| `Worker.RunPhase` | Oracle/src/worker.ts:255-265 | a phase only appends to the log, and a stopped tick stays stopped |
| `Worker.Tick` | Oracle/src/worker.ts:231-298 | a tick keeps the set of markets |
| `Worker.Run` | Oracle/src/worker.ts:231-298 | successive ticks keep the set of markets |
| `WorkerLemmas.SyncedRowIdempotent` | Oracle/src/worker.ts:88 | syncing a row twice equals syncing it once |
| `WorkerLemmas.SyncMarketRow` | Oracle/src/worker.ts:63-95 | one sync iteration changes only its own row |
| `WorkerLemmas.SyncMarketsRows` | Oracle/src/worker.ts:62-96 | the sync loop syncs exactly the listed rows |
| `WorkerLemmas.SyncRows` | Oracle/src/worker.ts:58-97 | when the listing succeeds, every row is synced |
| `WorkerLemmas.SyncIdempotent` | Oracle/src/worker.ts:58-97 | a second sync against the same ledger changes nothing |
| `WorkerLemmas.SyncEvolves` | Oracle/src/worker.ts:58-97 | sync never touches status, flag or listing, even under failures |
| `WorkerLemmas.AdvanceOneRows` | Oracle/src/worker.ts:244-264 | one iteration leaves every row alone except its own, which it leaves as is or marks |
| `WorkerLemmas.AdvanceOneEvolves` | Oracle/src/worker.ts:256-264 | one iteration moves a row only forward in the lifecycle |
| `WorkerLemmas.AdvanceAllEvolves` | Oracle/src/worker.ts:256-265 | a phase loop moves rows only forward in the lifecycle |
| `WorkerLemmas.RunPhaseEvolves` | Oracle/src/worker.ts:239-294 | each phase moves rows only forward in the lifecycle, whatever fails |
| `WorkerLemmas.TickEvolves` | Oracle/src/worker.ts:231-298 | a tick never moves a market backwards, clears its on-ledger flag or alters its listing, whatever fails |
| `WorkerLemmas.RunEvolves` | Oracle/src/worker.ts:231-298 | the same holds over any number of ticks |
| `WorkerLemmas.AdvanceOneExact` | Oracle/src/worker.ts:240-264 | without store faults an iteration applies the row rule and logs exactly its attempt |
| `WorkerLemmas.AdvanceAllExact` | Oracle/src/worker.ts:256-265 | without store faults a phase loop applies the row rule to exactly the listed rows. Its log holds exactly their attempts |
| `WorkerLemmas.RunPhaseExact` | Oracle/src/worker.ts:239-294 | without store faults a phase applies the row rule to every row. It submits exactly the attempts of the rows its query lists |
| `WorkerLemmas.TickExact` | Oracle/src/worker.ts:231-298 | without store faults a tick completes. Each row ends as the row-by-row reference says, and each submission is one its row owed |
| `WorkerLemmas.RowLockNeedsDeadline` | Oracle/src/worker.ts:256-264 | a pending row leaves pending only if its deadline has passed and the ledger accepted its lock under the key rule's key |
| `WorkerLemmas.LockNeedsDeadline` | Oracle/src/worker.ts:255-265 | whatever fails, a pending market leaves pending in a tick only if its deadline has passed, the credentials are set and the ledger accepted its `lock_pool` under the key rule's key |
| `WorkerLemmas.RowLockAtDeadline` | Oracle/src/worker.ts:255-290 | a pending row at its deadline, with credentials set and its lock accepted, ends locked or resolved, and resolved when its resolution is accepted too |
| `WorkerLemmas.LockAtDeadline` | Oracle/src/worker.ts:255-290 | without store faults, a pending market whose deadline has passed is locked in the same tick when the credentials are set and its `lock_pool` is accepted, and resolved in that tick when a value is available and its resolution accepted |
| `WorkerLemmas.RowPendingBeforeDeadline` | Oracle/src/worker.ts:258 | before its deadline a pending row stays pending |
| `WorkerLemmas.PendingBeforeDeadline` | Oracle/src/worker.ts:255-265 | whatever fails, no tick moves a market out of pending before its deadline |
| `WorkerLemmas.RowResolveNeedsValue` | Oracle/src/worker.ts:268-290 | a row becomes resolved only with credentials, a metric value, and an accepted `resolve_pool` carrying the threshold rule's option |
| `WorkerLemmas.ResolveNeedsValue` | Oracle/src/worker.ts:268-290 | whatever fails, a market is resolved only after its metric yielded a value and the ledger accepted the `resolve_pool` carrying the threshold rule's option |
| `WorkerLemmas.PhaseRowsKeepListing` | Oracle/src/worker.ts:236-265 | no phase alters a row's listing; sync and creation keep its status; a resolved row stays resolved |
| `WorkerLemmas.RowNoValueNoResolution` | Oracle/src/worker.ts:274-293 | without a metric value the resolve phase attempts nothing and the row is not resolved |
| `WorkerLemmas.NoValueNoResolution` | Oracle/src/worker.ts:274-293 | whatever fails, a market whose metric yields nothing is not resolved and gets no `resolve_pool` this tick |
| `WorkerLemmas.GenericMarketsWaitForAdmin` | Oracle/src/worker.ts:274-278 | with any registry that has no handler for `generic`, or files generic.ts under it, a generic market is never resolved or submitted for resolution by the worker, whatever fails |
| `WorkerLemmas.RowCreateNeedsAcceptance` | Oracle/src/worker.ts:239-249 | a row off the ledger gets its flag exactly when credentials are set and its `create_pool` is accepted |
| `WorkerLemmas.CreateNeedsAcceptance` | Oracle/src/worker.ts:239-249 | the on-ledger flag is set exactly for markets whose creation was accepted |
| `WorkerLemmas.JustifiedShape` | Oracle/src/worker.ts:171-205 | lock and resolve submissions start with the key rule's key. A resolution carries option 1 or 2. A resolved row is only ever sent `create_pool` |
| `WorkerLemmas.SubmissionsWellFormed` | Oracle/src/worker.ts:162-224 | whatever fails, each submission of a tick is for a known market. Lock and resolve send the key rule's key, and none targets a market already resolved. Each resolution carries 1u64 or 2u64 |
| `WorkerLemmas.SubmissionsUsePoolKey` | Oracle/src/worker.ts:66 | whatever fails, under the `SameAsSync` rule every lock and resolve of a tick is sent under the key the sync phase reads the pool by |
| `WorkerLemmas.AsWrittenSubmissionsMissPool` | Oracle/src/worker.ts:171-204 | whatever fails, under the `AsWritten` rule, for a generated id of at most 26 digits, no lock or resolve of a tick is sent under the key the sync phase reads |
| `WorkerLemmas.AttemptNeedsReading` | Oracle/src/worker.ts:280-284 | a phase submits only its own transition, and a resolution only after the data source gave a value |
| `WorkerLemmas.SyncKeepsStatus` | Oracle/src/worker.ts:88 | sync never changes a status |
| `WorkerLemmas.RunPhaseMoves` | Oracle/src/worker.ts:239-294 | whatever fails, a phase leaves each row as it was or marks it, and marks it only when its query selected the row and the ledger accepted the attempt on it; rows it does not select are untouched; each new submission is its attempt on a selected row |
| `WorkerLemmas.TickResolutionsNeedValue` | Oracle/src/worker.ts:268-293 | whatever fails, every `resolve_pool` of a tick names a stored market whose metric yielded a value |
| `WorkerLemmas.TickNeedsReading` | Oracle/src/worker.ts:280-293 | whatever fails, a resolution is submitted only after a reading, and a locked market without one stays locked |
| `WorkerLemmas.LockedWaitsForReading` | Oracle/src/worker.ts:291-293 | a locked market stays locked through any run of ticks in which its data source yields nothing |
| `WorkerLemmas.TickStopsWhenListingFails` | Oracle/src/worker.ts:60 | when the sync listing throws, the tick does nothing at all |
| `WorkerLemmas.TickStopsBeforeLocking` | Oracle/src/worker.ts:255-297 | when listing pending markets throws, the tick stops with no status changed and only creations submitted |
| `WorkerLemmas.WrittenKeyMisses` | Oracle/src/worker.ts:171 | for every field-literal id of at most 26 digits, the key lock and resolve send is not the pool key |
| `AdminApi.Int32` | Oracle/src/api.ts:114-115 | the 32-bit wrap is congruent to its input modulo 2^32, lies in the int32 range, and fixes int32 values |
| `AdminApi.JavaHash` | Oracle/src/api.ts:111-116 | the title hash stays a 32-bit signed integer |
| `AdminApi.ShiftStepIsJavaStep` | Oracle/src/api.ts:114-115 | `((h << 5) - h) + c`, wrapped, is the step `31 * h + c` wrapped |
| `AdminApi.MarketId` | Oracle/src/api.ts:109-120 | every generated id ends in `field` and is its own pool key |
| `AdminApi.GenerateMarketId` | Oracle/src/api.ts:109-120 | the shift loop over the UTF-16 code units computes the Java string hash of the title; the id is `|hash| + now` followed by `field` |
| `AdminApi.MarketIdReadsBack` | Oracle/src/api.ts:118-119 | the numeral of a generated id reads back as `|hash| + now` |
| `AdminApi.SameHashOneRow` | Oracle/src/api.ts:109-120 | two titles with the same absolute hash, created in the same millisecond, make one row: the second insert hits the first id and keeps the first title |
| `AdminApi.GeneratedIdMissesWrittenKey` | Oracle/src/api.ts:109-120 | the lock and resolve key as written never matches an API-generated id of at most 26 digits |
| `AdminApi.Fallback` | Oracle/src/api.ts:91-94 | a missing or empty field takes its default; any other is kept |
| `AdminApi.CreateMarket` | Oracle/src/api.ts:64-106 | 400 exactly when title, deadline or threshold is falsy; 500 exactly when the insert throws; 201 with the generated id exactly when the fields are present and the insert succeeds. A new id is added with its defaults (metric `generic`, description '', YES, NO). On an id clash the row keeps everything but its deadline, threshold, metric type and description. No other market changes |
| `AdminApi.GetMarket` | Oracle/src/api.ts:51-61 | 404 exactly for an unknown id, the row for a known one, 500 exactly when the read throws |
| `AdminApi.ListMarkets` | Oracle/src/api.ts:21-48 | 500 exactly when the query throws, the listing exactly when it does not. The listing holds exactly the rows matching the query, each once |
| `AdminApi.LockMarket` | Oracle/src/api.ts:160-186 | 404 for an unknown id, 400 for a market not pending, 500 exactly when the read or the write throws. Success exactly when it is pending and the write succeeds, and then the market is locked. Otherwise nothing changes |
| `AdminApi.ResolveMarket` | Oracle/src/api.ts:123-157 | 400 exactly for an option other than 1 or 2 (before any lookup) or a market found not locked. 404 for an unknown id; 500 exactly when the read or the write throws. Success exactly when locked and the write succeeds: the market is resolved and the reply echoes the option. Otherwise nothing changes |
| `AdminApi.ResolveIgnoresOption` | Oracle/src/api.ts:145-152 | the chosen option does not affect the store; the two replies differ only in the option they echo |
| `AdminApi.ManualEndpointsEvolve` | Oracle/src/api.ts:123-186 | the lock and resolve endpoints move markets only forward in the lifecycle |
| `AdminApi.AdvertisedWithoutHandler` | Oracle/src/api.ts:189-202 | of the eight advertised metric types only `eth_price` and `eth_staking_rate` have a handler |
| `LegacyWorker.ResolveMarketPy` | Oracle/worker.py:48-126 | true exactly when the credentials are set and the broadcast got status 200 |
| `LegacyWorker.LegacyAttempt` | Oracle/worker.py:137-146 | a resolution is broadcast only after the deadline, with credentials and a value. It sends the raw id and the threshold rule's option |
| `LegacyWorker.LegacyStep` | Oracle/worker.py:137-154 | one iteration keeps the set of markets |
| `LegacyWorker.LegacyLoop` | Oracle/worker.py:137-154 | the loop keeps the set of markets |
| `LegacyWorker.LegacyPass` | Oracle/worker.py:133-157 | a pass keeps the set of markets |
| `LegacyWorker.LegacyStepRows` | Oracle/worker.py:146-147 | one iteration changes at most its own row, and only to resolved |
| `LegacyWorker.LegacyLoopRows` | Oracle/worker.py:137-154 | the loop leaves each row as is or marks a listed row resolved |
| `LegacyWorker.LegacyPassSkipsLock` | Oracle/worker.py:133-154 | whatever fails, markets go from pending straight to resolved; nothing is locked and no other row changes |
| `LegacyWorker.LegacyStepExact` | Oracle/worker.py:137-150 | without store faults an iteration applies the row rule |
| `LegacyWorker.LegacyLoopExact` | Oracle/worker.py:137-154 | without store faults the loop applies the row rule to exactly the listed rows |
| `LegacyWorker.LegacyPassExact` | Oracle/worker.py:133-157 | without store faults a pass applies the row rule to every market |
| `LegacyWorker.LegacyRowResolves` | Oracle/worker.py:137-150 | a pending market is resolved exactly when its deadline has passed, the credentials are set, a value is read and the broadcast returns 200. The metric type plays no part |
| `Prediction.ToField` | Frontend/hooks/use-prediction.ts:33-40 | a text ending in `field` is kept, any other gets `field` appended |
| `Prediction.ToFieldIdempotent` | Frontend/hooks/use-prediction.ts:33-40 | formatting twice equals formatting once |
| `Prediction.FormatPoolId` | Frontend/hooks/use-prediction.ts:78 | the pool input always ends in `field`: a supplied id that ends in `field` is kept, any other supplied id (the empty one included, giving `field`) gets `field` appended, and no pool gives `1field` |
| `Prediction.FindSuitable` | Frontend/hooks/use-prediction.ts:92-102 | `find` returns the first record whose balance covers the stake; `None` means none does |
| `Prediction.PrivateBalanceReadsBack` | Frontend/hooks/use-prediction.ts:97 | a balance printed as `Nu64.private` reads as N |
| `Prediction.PublicBalanceReadsBack` | Frontend/hooks/use-prediction.ts:97 | a balance printed as `Nu64` reads as N |
| `Prediction.CreditsRecord` | Frontend/hooks/use-prediction.ts:85-107 | an attached record is one the wallet returned, and it covers the stake |
| `Prediction.AttachesFirstSuitable` | Frontend/hooks/use-prediction.ts:92-103 | the record attached is the first suitable one in the wallet's list |
| `Prediction.PredictInputs` | Frontend/hooks/use-prediction.ts:109-122 | four inputs, or five with a non-empty record; the pool id comes first and the record last |
| `Prediction.PredictInputsReadBack` | Frontend/hooks/use-prediction.ts:109-122 | option and random number read back from their literals, and so does the stake times 1,000,000 when the amount is not negative; a negative amount gives no `u64` literal |
| `Prediction.MakePrediction` | Frontend/hooks/use-prediction.ts:48-155 | 'Wallet not connected' (no key, or an empty one) is checked before 'Wallet does not support transactions', and neither sends anything. Otherwise the inputs are sent, and success holds exactly when the transaction request does not throw; the id it returns, possibly none, is passed through |
| `Prediction.FailureMessage` | Frontend/hooks/use-prediction.ts:144-154 | a thrown `Error` reports its message; anything else reports 'Transaction failed' |
| `Prediction.StakesOnCreatedPool` | Frontend/hooks/use-prediction.ts:78 | for an id the admin API generated, the front end's pool input is the key the worker's sync phase reads; the same holds for the default pool |

## Left out

- Ledger access is not modelled: the Aleo SDK, proving, fees, thread pools and the network. A lookup is the parameter `pools`, and a submission's fate is the parameter `accepts` (or `broadcast`, or the wallet's `transact`).
- The timer is not modelled: the 60-second interval, overlapping interval runs, and the 5-second pause between creations. Each tick is one call of `Worker.Tick`, and runs are sequences of ticks (`Worker.Run`).
- The database is not modelled: SQL, connection pooling, `initDb` and the Python `db` module. The table is a map. The order rows come back in is a parameter. Store failures are a fault oracle.
- `Oracle/src/db.ts` does not have some operations that api.ts and worker.ts call: `getMarketById`, `getMarketsNotOnChain`, `markOnChain`, and the eight-argument `addMarket` with title and option labels. They are modelled from their call sites. Their conflict rule is the one `addMarket` has in db.ts.
- Floating point is not modelled. Thresholds and metric readings are reals, and deadlines and stake counters are integers. `parseInt` and `parseFloat` of request fields are taken to give the integer and real they denote. `parseInt` losing precision above 2^53 is left out.
- `fieldToString`'s final UTF-8 decoding of the bytes is not modelled (`FieldCodec.FieldToBytes` stops at the bytes). No modelled code calls it.
- `marketExistsOnChain` is not modelled; no modelled code calls it. The command-line tools are outside this model.
- The handlers registered in the registry under `Oracle/metrics/` are assumed to be named `eth_staking_rate` and `eth_price`; their modules are not part of this model. worker.ts imports the registry under `Oracle/src/metrics/`, which is not part of this model either: the worker takes its registry as the parameter `env.registry`.
- HTTP, Express, CORS and JSON are not modelled. Request fields arrive already typed. A `deadline` or `winning_option` of a type other than a number is left out.
- React state is not modelled: `isLoading`, `error` and `transactionId`.
- `Math.random` is not modelled. The random number is a parameter, not bounded by 2^53.
- `Prediction.MakePrediction`: the stake `amount` is an integer number of credits. With a fractional amount, `BigInt(amount * 1_000_000)` would throw inside the record search, and the literal would carry a decimal point. That case is not modelled. The source's type comment calls the amount microcredits, but the code multiplies by 1,000,000; the model follows the code.
- `Prediction.CreditsRecord`: a record whose JSON does not parse, lacks `microcredits`, or has a non-string `microcredits` is modelled as `microcredits == None`. All three make the source's callback return false.
- `FieldCodec.NonNumeralIsUnknown`: proved only for texts without an `f` whose trimmed end is no hexadecimal digit. Other non-numerals fall to "Unknown" by the same definition, but are not stated.
- `WorkerLemmas.TickExact`: the exact, row-by-row account of a tick assumes no store call throws, and so do `TickExactRows`, `TickExactLog`, `RunPhaseExact`, `LockAtDeadline`, `CreateNeedsAcceptance` and `LegacyWorker.LegacyPassExact`; the `Row…` lemmas and `JustifiedShape` describe that account. Those state what a tick achieves, which a failing store call can prevent. The lemmas that state what a tick never does (`TickEvolves`, `PendingBeforeDeadline`, `LockNeedsDeadline`, `ResolveNeedsValue`, `NoValueNoResolution`, `GenericMarketsWaitForAdmin`, `TickNeedsReading`, `TickResolutionsNeedValue`, `SubmissionsWellFormed`, `SubmissionsUsePoolKey`, `AsWrittenSubmissionsMissPool`) hold whatever fails.
- The Python `fetch_eth_staking_data` returns a constant. The model gives its reading as the parameter `readings`, and the floating-point rate arithmetic is not modelled.

## Findings

| source | as written | input that shows it | evidently intended | confidence | as-written member | corrected member |
|---|---|---|---|---|---|---|
| Oracle/src/worker.ts:171 | `lockMarket` and `resolveMarket` (line 204) always run the market id through `stringToField`. The sync phase (line 66) and `marketExistsOnChain` (line 102) use an id that already ends in `field` as the ledger key itself. | The id `1700000000000field`, as `generateMarketId` produces it. Sync reads the pool at key `1700000000000field`. Lock and resolve send the big-endian value of the id's UTF-8 bytes followed by `field`, a different key. | Lock and resolve address the pool under the same key the sync phase reads: the id itself when it is already a field literal. | medium, not executed | `Worker.WrittenSubmitKey`, the key `Worker.Attempt` sends under the `AsWritten` rule; shown different by `WorkerLemmas.WrittenKeyMisses`, `AdminApi.GeneratedIdMissesWrittenKey` and, for whole ticks, `WorkerLemmas.AsWrittenSubmissionsMissPool` | `Worker.PoolKey`, the key `Worker.Attempt` sends under the `SameAsSync` rule; `WorkerLemmas.SubmissionsUsePoolKey` |
