/** The earlier Python oracle loop (Oracle/worker.py): one pass over the
    pending markets, resolving each one whose deadline has passed straight
    from 'pending' to 'resolved', with no lock step and no on-chain creation.

    The data source is consulted for every market alike, whatever its metric
    type.  A store failure is not caught in this loop and ends the process,
    which is a pass that stops (`ok` false). */
module LegacyWorker {
  import opened Wrappers
  import opened Seqs
  import opened Numerals
  import opened MarketStore
  import opened Worker

  /** What broadcasting the resolution transaction gives: an HTTP reply
      status, or an exception raised while authorising, proving or posting. */
  datatype BroadcastReply = HttpStatus(code: int) | Raised

  /** Everything a pass depends on besides the store and the clock. */
  datatype LegacyEnv = LegacyEnv(
    credentials: bool,
    readings: string -> Option<real>,
    broadcast: Submission -> BroadcastReply,
    storeFails: StoreCall -> bool)

  /** `resolve_market`: true exactly when the credentials are configured and
      the node answered the broadcast with status 200. */
  function ResolveMarketPy(credentials: bool, reply: BroadcastReply): (ok: bool)
    ensures ok ==> credentials
    ensures ok <==> credentials && reply.HttpStatus? && reply.code == 200
  {
    if !credentials then false
    else
      match reply
      case Raised => false
      case HttpStatus(code) => code == 200
  }

  /** The resolution a pass broadcasts for a pending row, if any: the market
      id is passed to the ledger as it is, with the threshold rule's option. */
  function LegacyAttempt(id: string, m: Market, now: int, env: LegacyEnv): (r: Option<Submission>)
    ensures r.Some? ==> && env.credentials && now >= m.deadline && env.readings(id).Some?
                        && r.value == Submission(id, ResolvePool,
                             [id, U64Literal(WinningOption(env.readings(id).value, m.threshold))])
  {
    if now < m.deadline || !env.credentials then None
    else
      match env.readings(id)
      case None => None
      case Some(v) => Some(Submission(id, ResolvePool, [id, U64Literal(WinningOption(v, m.threshold))]))
  }

  /** One iteration of the `for` loop in `main`. */
  function LegacyStep(st: Step, id: string, now: int, env: LegacyEnv): (r: Step)
    ensures r.store.Keys == st.store.Keys
  {
    if !st.ok || id !in st.store then st
    else
      match LegacyAttempt(id, st.store[id], now, env)
      case None => st
      case Some(sub) =>
        var log := st.log + [sub];
        if !ResolveMarketPy(env.credentials, env.broadcast(sub)) then Step(st.store, log, true)
        else if env.storeFails(WriteStatus(id, Resolved)) then Step(st.store, log, false)
        else Step(MarkResolved(st.store, id), log, true)
  }

  function LegacyLoop(st: Step, ids: seq<string>, now: int, env: LegacyEnv): (r: Step)
    decreases |ids|
    ensures r.store.Keys == st.store.Keys
  {
    if ids == [] then st else LegacyLoop(LegacyStep(st, ids[0], now, env), ids[1..], now, env)
  }

  /** One pass of `main`'s loop at `now` seconds. */
  function LegacyPass(s: Store, order: seq<string>, now: int, env: LegacyEnv): (r: Step)
    ensures r.store.Keys == s.Keys
  {
    if env.storeFails(Read(WithStatus(Pending))) then Step(s, [], false)
    else LegacyLoop(Step(s, [], true), GetPendingMarkets(s, order), now, env)
  }

  /** What a pass does to one row. */
  function LegacyRow(id: string, m: Market, now: int, env: LegacyEnv): Market {
    if m.status != Pending then m
    else
      match LegacyAttempt(id, m, now, env)
      case None => m
      case Some(sub) => if ResolveMarketPy(env.credentials, env.broadcast(sub)) then m.(status := Resolved) else m
  }

  lemma LegacyStepRows(st: Step, id: string, now: int, env: LegacyEnv)
    ensures forall x :: x in st.store && x != id ==> LegacyStep(st, id, now, env).store[x] == st.store[x]
    ensures id in st.store ==> || LegacyStep(st, id, now, env).store[id] == st.store[id]
                               || LegacyStep(st, id, now, env).store[id] == st.store[id].(status := Resolved)
  {
  }

  /** Whatever fails, the loop leaves each row as it was or marks a listed
      one resolved. */
  lemma {:induction false} LegacyLoopRows(st: Step, ids: seq<string>, now: int, env: LegacyEnv)
    decreases |ids|
    ensures forall x :: x in st.store ==>
              || LegacyLoop(st, ids, now, env).store[x] == st.store[x]
              || (x in ids && LegacyLoop(st, ids, now, env).store[x] == st.store[x].(status := Resolved))
  {
    if ids != [] {
      var st1 := LegacyStep(st, ids[0], now, env);
      assert LegacyLoop(st, ids, now, env) == LegacyLoop(st1, ids[1..], now, env);
      LegacyStepRows(st, ids[0], now, env);
      LegacyLoopRows(st1, ids[1..], now, env);
    }
  }

  /** Whatever fails, a pass moves markets from 'pending' straight to
      'resolved' and touches nothing else: no market is ever locked, and no
      market that is not pending changes. */
  lemma LegacyPassSkipsLock(s: Store, order: seq<string>, now: int, env: LegacyEnv)
    ensures forall id :: id in s ==>
              || LegacyPass(s, order, now, env).store[id] == s[id]
              || (s[id].status == Pending && LegacyPass(s, order, now, env).store[id] == s[id].(status := Resolved))
    ensures StoreEvolves(s, LegacyPass(s, order, now, env).store)
  {
    if !env.storeFails(Read(WithStatus(Pending))) {
      LegacyLoopRows(Step(s, [], true), GetPendingMarkets(s, order), now, env);
    }
  }

  lemma LegacyStepExact(st: Step, id: string, now: int, env: LegacyEnv)
    requires st.ok && id in st.store && st.store[id].status == Pending
    requires forall c :: !env.storeFails(c)
    ensures LegacyStep(st, id, now, env).ok
    ensures LegacyStep(st, id, now, env).store == st.store[id := LegacyRow(id, st.store[id], now, env)]
  {
    assert !env.storeFails(WriteStatus(id, Resolved));
  }

  lemma {:induction false} LegacyLoopExact(st: Step, ids: seq<string>, now: int, env: LegacyEnv)
    requires st.ok && Distinct(ids) && forall c :: !env.storeFails(c)
    requires forall x :: x in ids ==> x in st.store && st.store[x].status == Pending
    decreases |ids|
    ensures LegacyLoop(st, ids, now, env).ok
    ensures forall x :: x in st.store ==>
              LegacyLoop(st, ids, now, env).store[x] == if x in ids then LegacyRow(x, st.store[x], now, env) else st.store[x]
  {
    if ids != [] {
      var id := ids[0];
      var st1 := LegacyStep(st, id, now, env);
      assert LegacyLoop(st, ids, now, env) == LegacyLoop(st1, ids[1..], now, env);
      LegacyStepExact(st, id, now, env);
      forall x | x in ids[1..] ensures x != id && x in st1.store && st1.store[x] == st.store[x] {
        assert x in ids;
      }
      LegacyLoopExact(st1, ids[1..], now, env);
      forall x | x in st.store
        ensures LegacyLoop(st1, ids[1..], now, env).store[x] == if x in ids then LegacyRow(x, st.store[x], now, env) else st.store[x]
      {
        assert x in ids <==> x == id || x in ids[1..];
      }
    }
  }

  /** Without store failures a pass resolves exactly the pending markets
      whose deadline has passed, whose data source yields a value, and whose
      resolution the node accepts with status 200. */
  lemma LegacyPassExact(s: Store, order: seq<string>, now: int, env: LegacyEnv)
    requires Enumerates(order, s) && forall c :: !env.storeFails(c)
    ensures LegacyPass(s, order, now, env).ok
    ensures forall id :: id in s ==> LegacyPass(s, order, now, env).store[id] == LegacyRow(id, s[id], now, env)
  {
    assert !env.storeFails(Read(WithStatus(Pending)));
    LegacyLoopExact(Step(s, [], true), GetPendingMarkets(s, order), now, env);
  }

  /** The row rule spelled out: a pending market becomes resolved when and
      only when its deadline has passed, the credentials are set, its data
      source yields a value and the node accepts the broadcast; the metric
      type plays no part. */
  lemma LegacyRowResolves(id: string, m: Market, now: int, env: LegacyEnv)
    requires m.status == Pending
    ensures LegacyRow(id, m, now, env).status == Resolved <==>
              && now >= m.deadline && env.credentials && env.readings(id).Some?
              && env.broadcast(Submission(id, ResolvePool,
                   [id, U64Literal(WinningOption(env.readings(id).value, m.threshold))])) == HttpStatus(200)
    ensures forall t :: LegacyRow(id, m.(metricType := t), now, env).status == LegacyRow(id, m, now, env).status
  {
  }
}
