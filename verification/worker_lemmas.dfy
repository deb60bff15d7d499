/** What a worker tick does and does not do (Oracle/src/worker.ts
    `syncOnChainData` and `startWorker`). */
module WorkerLemmas {
  import opened Wrappers
  import opened Seqs
  import opened Text
  import opened Numerals
  import opened FieldCodec
  import opened MarketStore
  import opened Metrics
  import opened Worker

  // ---------------------------------------------------------------------
  // Sync

  lemma SyncedRowIdempotent(id: string, m: Market, env: Environment)
    ensures SyncedRow(id, SyncedRow(id, m, env), env) == SyncedRow(id, m, env)
  {
  }

  lemma SyncMarketRow(s: Store, id: string, env: Environment)
    ensures forall x :: x in s ==> SyncMarket(s, id, env)[x] == if x == id then SyncedRow(x, s[x], env) else s[x]
  {
  }

  /** The sync loop syncs every listed row (once or more, which is the same)
      and leaves the others alone. */
  lemma {:induction false} SyncMarketsRows(s: Store, ids: seq<string>, env: Environment)
    decreases |ids|
    ensures forall x :: x in s ==> SyncMarkets(s, ids, env)[x] == if x in ids then SyncedRow(x, s[x], env) else s[x]
  {
    if ids != [] {
      var s1 := SyncMarket(s, ids[0], env);
      SyncMarketRow(s, ids[0], env);
      SyncMarketsRows(s1, ids[1..], env);
      forall x | x in s
        ensures SyncMarkets(s, ids, env)[x] == if x in ids then SyncedRow(x, s[x], env) else s[x]
      {
        SyncedRowIdempotent(x, s[x], env);
        assert x in ids <==> x == ids[0] || x in ids[1..];
      }
    }
  }

  /** When the rows can be listed, the sync phase brings every row's counters
      up to date with the ledger and changes nothing else. */
  lemma SyncRows(s: Store, order: seq<string>, env: Environment)
    requires Enumerates(order, s) && !env.storeFails(Read(AllRows))
    ensures Sync(s, order, env).ok
    ensures forall id :: id in s ==> Sync(s, order, env).store[id] == SyncedRow(id, s[id], env)
  {
    SyncMarketsRows(s, GetAllMarkets(s, order), env);
  }

  /** Syncing twice in a row is syncing once. */
  lemma SyncIdempotent(s: Store, order: seq<string>, env: Environment)
    requires Enumerates(order, s) && !env.storeFails(Read(AllRows))
    ensures Sync(Sync(s, order, env).store, order, env) == Sync(s, order, env)
  {
    var s1 := Sync(s, order, env).store;
    SyncRows(s, order, env);
    SyncRows(s1, order, env);
    forall id | id in s ensures Sync(s1, order, env).store[id] == s1[id] {
      SyncedRowIdempotent(id, s[id], env);
    }
  }

  // ---------------------------------------------------------------------
  // The lifecycle never runs backwards, whatever fails

  lemma SyncEvolves(s: Store, order: seq<string>, env: Environment)
    ensures StoreEvolves(s, Sync(s, order, env).store)
  {
    if !env.storeFails(Read(AllRows)) {
      SyncMarketsRows(s, GetAllMarkets(s, order), env);
    }
  }

  /** The rows a phase may still write: the lock phase only ever sees rows
      that were pending, so none of them is resolved. */
  predicate Admissible(p: Phase, m: Market) {
    p.Locking? ==> m.status != Resolved
  }

  lemma MarkRows(p: Phase, s: Store, id: string)
    ensures Mark(p, s, id).Keys == s.Keys
    ensures id in s ==> Mark(p, s, id) == s[id := Marked(p, s[id])]
    ensures forall x :: x in s && x != id ==> Mark(p, s, id)[x] == s[x]
  {
  }

  /** One loop iteration does nothing, or logs its row's attempt and then
      either leaves the store as it is or marks the row. */
  lemma AdvanceOneShape(p: Phase, st: Step, id: string, env: Environment)
    ensures var r := AdvanceOne(p, st, id, env);
            || r == st
            || (&& st.ok && id in st.store && Attempt(p, id, st.store[id], env).Some?
                && r.log == st.log + [Attempt(p, id, st.store[id], env).value]
                && (r.store == st.store || r.store == Mark(p, st.store, id)))
  {
    if st.ok && id in st.store {
      var a := Attempt(p, id, st.store[id], env);
      var r := AdvanceOne(p, st, id, env);
      if a.None? {
        assert r == st;
      } else if !env.accepts(a.value) || env.storeFails(MarkCall(p, id)) {
        assert r.store == st.store && r.log == st.log + [a.value];
      } else {
        assert r.store == Mark(p, st.store, id) && r.log == st.log + [a.value];
      }
    }
  }

  lemma AdvanceOneRows(p: Phase, st: Step, id: string, env: Environment)
    ensures var r := AdvanceOne(p, st, id, env);
            && (forall x :: x in st.store && x != id ==> r.store[x] == st.store[x])
            && (id in st.store ==> r.store[id] == st.store[id] || r.store[id] == Marked(p, st.store[id]))
  {
    AdvanceOneShape(p, st, id, env);
    MarkRows(p, st.store, id);
  }

  /** One loop iteration moves its row forward and keeps the rest as they
      are; a row it marks in the lock phase is locked, so still admissible. */
  lemma AdvanceOneEvolves(p: Phase, st: Step, id: string, env: Environment)
    requires id in st.store ==> Admissible(p, st.store[id])
    ensures StoreEvolves(st.store, AdvanceOne(p, st, id, env).store)
    ensures forall x :: x in st.store ==> (Admissible(p, st.store[x]) ==> Admissible(p, AdvanceOne(p, st, id, env).store[x]))
  {
    var r := AdvanceOne(p, st, id, env);
    AdvanceOneRows(p, st, id, env);
    forall x | x in st.store
      ensures Evolves(st.store[x], r.store[x])
      ensures Admissible(p, st.store[x]) ==> Admissible(p, r.store[x])
    {
      if x == id && r.store[x] != st.store[x] {
        MarkedEvolves(p, st.store[x]);
      }
    }
  }

  lemma MarkedEvolves(p: Phase, m: Market)
    requires Admissible(p, m)
    ensures Evolves(m, Marked(p, m)) && Admissible(p, Marked(p, m))
  {
  }

  lemma {:induction false} AdvanceAllEvolves(p: Phase, st: Step, ids: seq<string>, env: Environment)
    requires forall x :: x in ids && x in st.store ==> Admissible(p, st.store[x])
    decreases |ids|
    ensures StoreEvolves(st.store, AdvanceAll(p, st, ids, env).store)
  {
    if ids != [] {
      var st1 := AdvanceOne(p, st, ids[0], env);
      var r := AdvanceAll(p, st1, ids[1..], env);
      assert AdvanceAll(p, st, ids, env) == r;
      AdvanceOneEvolves(p, st, ids[0], env);
      forall x | x in ids[1..] && x in st1.store ensures Admissible(p, st1.store[x]) {
        assert x in ids;
      }
      AdvanceAllEvolves(p, st1, ids[1..], env);
      StoreEvolvesTransitive(st.store, st1.store, r.store);
    }
  }

  lemma RunPhaseEvolves(p: Phase, st: Step, order: seq<string>, env: Environment)
    ensures StoreEvolves(st.store, RunPhase(p, st, order, env).store)
  {
    if st.ok && !env.storeFails(Read(PhaseQuery(p))) {
      AdvanceAllEvolves(p, st, Select(st.store, order, PhaseQuery(p)), env);
    }
  }

  /** A tick never clears the on-chain flag, never moves a status back, and
      never edits a market's listing, even when it stops half-way. */
  lemma TickEvolves(s: Store, order: seq<string>, now: int, env: Environment)
    ensures StoreEvolves(s, Tick(s, order, now, env).store)
  {
    var synced := Sync(s, order, env);
    var created := RunPhase(Creating, synced, order, env);
    var locked := RunPhase(Locking(now), created, order, env);
    SyncEvolves(s, order, env);
    RunPhaseEvolves(Creating, synced, order, env);
    RunPhaseEvolves(Locking(now), created, order, env);
    RunPhaseEvolves(Resolving, locked, order, env);
    StoreEvolvesTransitive(s, synced.store, created.store);
    StoreEvolvesTransitive(s, created.store, locked.store);
    StoreEvolvesTransitive(s, locked.store, Tick(s, order, now, env).store);
  }

  /** The same holds over any number of ticks. */
  lemma {:induction false} RunEvolves(s: Store, ticks: seq<TickInput>)
    decreases |ticks|
    ensures StoreEvolves(s, Run(s, ticks))
  {
    if ticks != [] {
      var s1 := Tick(s, ticks[0].order, ticks[0].now, ticks[0].env).store;
      TickEvolves(s, ticks[0].order, ticks[0].now, ticks[0].env);
      RunEvolves(s1, ticks[1..]);
      StoreEvolvesTransitive(s, s1, Run(s, ticks));
    }
  }

  // ---------------------------------------------------------------------
  // Without store failures a tick is the row-by-row reference

  lemma AdvanceOneExact(p: Phase, st: Step, id: string, env: Environment)
    requires NoStoreFaults(env) && st.ok && id in st.store
    ensures Matches(PhaseQuery(p), st.store[id]) ==>
              AdvanceOne(p, st, id, env).store == st.store[id := Advanced(p, id, st.store[id], env)]
    ensures var r := AdvanceOne(p, st, id, env);
            var a := Attempt(p, id, st.store[id], env);
            && r.ok
            && (a.None? ==> r.log == st.log)
            && (a.Some? ==> r.log == st.log + [a.value])
  {
    var m := st.store[id];
    var a := Attempt(p, id, m, env);
    var r := AdvanceOne(p, st, id, env);
    if a.None? {
      assert r == st;
      assert Advanced(p, id, m, env) == m;
      assert st.store[id := m] == st.store;
    } else if env.accepts(a.value) {
      assert r == Step(Mark(p, st.store, id), st.log + [a.value], true) by {
        assert !env.storeFails(MarkCall(p, id));
      }
      assert Mark(p, st.store, id) == st.store[id := Marked(p, m)] by {
        MarkRows(p, st.store, id);
      }
      assert Matches(PhaseQuery(p), m) ==> Advanced(p, id, m, env) == Marked(p, m);
    } else {
      assert r == Step(st.store, st.log + [a.value], true);
      assert Advanced(p, id, m, env) == m;
      assert st.store[id := m] == st.store;
    }
  }

  lemma PrefixMembers<T>(a: seq<T>, b: seq<T>)
    requires a <= b
    ensures forall x :: x in a ==> x in b
  {
    forall x | x in a ensures x in b {
      var i :| 0 <= i < |a| && a[i] == x;
      assert b[i] == x;
    }
  }

  /** Without store failures a phase loop applies `Advanced` to each of its
      rows and submits exactly what `Attempt` asks for on them. */
  lemma AdvanceAllExact(p: Phase, st: Step, ids: seq<string>, env: Environment)
    requires NoStoreFaults(env) && st.ok && Distinct(ids)
    requires forall x :: x in ids ==> x in st.store && Matches(PhaseQuery(p), st.store[x])
    ensures AdvanceAll(p, st, ids, env).ok
    ensures forall x :: x in st.store ==>
              AdvanceAll(p, st, ids, env).store[x] == if x in ids then Advanced(p, x, st.store[x], env) else st.store[x]
    ensures forall sub :: sub in AdvanceAll(p, st, ids, env).log ==>
              sub in st.log || (sub.market in ids && Attempt(p, sub.market, st.store[sub.market], env) == Some(sub))
    ensures forall x :: x in ids && Attempt(p, x, st.store[x], env).Some? ==>
              Attempt(p, x, st.store[x], env).value in AdvanceAll(p, st, ids, env).log
  {
    AdvanceAllExactRows(p, st, ids, env);
    AdvanceAllExactLog(p, st, ids, env);
  }

  /** The first loop iteration, without store failures, keeps the rest of
      the listed rows as they were. */
  lemma AdvanceFirstKeepsRest(p: Phase, st: Step, ids: seq<string>, env: Environment)
    requires NoStoreFaults(env) && st.ok && Distinct(ids) && ids != []
    requires forall x :: x in ids ==> x in st.store && Matches(PhaseQuery(p), st.store[x])
    ensures var st1 := AdvanceOne(p, st, ids[0], env);
            && st1.ok && Distinct(ids[1..])
            && forall x :: x in ids[1..] ==> x != ids[0] && x in st1.store && st1.store[x] == st.store[x]
  {
    AdvanceOneExact(p, st, ids[0], env);
    MarkRows(p, st.store, ids[0]);
    forall x | x in ids[1..] ensures x != ids[0] && x in st.store {
      assert x in ids;
    }
  }

  lemma {:induction false} AdvanceAllExactRows(p: Phase, st: Step, ids: seq<string>, env: Environment)
    requires NoStoreFaults(env) && st.ok && Distinct(ids)
    requires forall x :: x in ids ==> x in st.store && Matches(PhaseQuery(p), st.store[x])
    decreases |ids|
    ensures AdvanceAll(p, st, ids, env).ok
    ensures forall x :: x in st.store ==>
              AdvanceAll(p, st, ids, env).store[x] == if x in ids then Advanced(p, x, st.store[x], env) else st.store[x]
  {
    if ids != [] {
      var id := ids[0];
      var st1 := AdvanceOne(p, st, id, env);
      var r := AdvanceAll(p, st1, ids[1..], env);
      assert AdvanceAll(p, st, ids, env) == r;
      AdvanceOneExact(p, st, id, env);
      AdvanceFirstKeepsRest(p, st, ids, env);
      AdvanceAllExactRows(p, st1, ids[1..], env);
      forall x | x in st.store
        ensures r.store[x] == if x in ids then Advanced(p, x, st.store[x], env) else st.store[x]
      {
        assert x in ids <==> x == id || x in ids[1..];
      }
    }
  }

  lemma AdvanceAllExactLog(p: Phase, st: Step, ids: seq<string>, env: Environment)
    requires NoStoreFaults(env) && st.ok && Distinct(ids)
    requires forall x :: x in ids ==> x in st.store && Matches(PhaseQuery(p), st.store[x])
    ensures forall sub :: sub in AdvanceAll(p, st, ids, env).log ==>
              sub in st.log || (sub.market in ids && Attempt(p, sub.market, st.store[sub.market], env) == Some(sub))
    ensures forall x :: x in ids && Attempt(p, x, st.store[x], env).Some? ==>
              Attempt(p, x, st.store[x], env).value in AdvanceAll(p, st, ids, env).log
  {
    AdvanceAllLogOwed(p, st, ids, env);
    AdvanceAllLogComplete(p, st, ids, env);
  }

  /** Every submission a phase loop adds is the attempt of one of its rows. */
  lemma AdvanceAllLogOwed(p: Phase, st: Step, ids: seq<string>, env: Environment)
    requires NoStoreFaults(env) && st.ok && Distinct(ids)
    requires forall x :: x in ids ==> x in st.store && Matches(PhaseQuery(p), st.store[x])
    ensures forall sub :: sub in AdvanceAll(p, st, ids, env).log ==>
              sub in st.log || (sub.market in ids && Attempt(p, sub.market, st.store[sub.market], env) == Some(sub))
  {
    AdvanceAllMoves(p, st.store, st, ids, env);
  }

  /** Every attempt of a row of a phase loop is submitted. */
  lemma {:induction false} AdvanceAllLogComplete(p: Phase, st: Step, ids: seq<string>, env: Environment)
    requires NoStoreFaults(env) && st.ok && Distinct(ids)
    requires forall x :: x in ids ==> x in st.store && Matches(PhaseQuery(p), st.store[x])
    decreases |ids|
    ensures forall x :: x in ids && Attempt(p, x, st.store[x], env).Some? ==>
              Attempt(p, x, st.store[x], env).value in AdvanceAll(p, st, ids, env).log
  {
    if ids != [] {
      var id := ids[0];
      var st1 := AdvanceOne(p, st, id, env);
      var r := AdvanceAll(p, st1, ids[1..], env);
      assert AdvanceAll(p, st, ids, env) == r;
      AdvanceOneExact(p, st, id, env);
      AdvanceFirstKeepsRest(p, st, ids, env);
      AdvanceAllLogComplete(p, st1, ids[1..], env);
      var a := Attempt(p, id, st.store[id], env);
      PrefixMembers(st1.log, r.log);
      forall x | x in ids && Attempt(p, x, st.store[x], env).Some?
        ensures Attempt(p, x, st.store[x], env).value in r.log
      {
        if x == id {
          assert st1.log[|st.log|] == a.value;
        } else {
          assert x in ids[1..];
        }
      }
    }
  }

  /** A whole phase, when nothing in the store fails: every row is
      `Advanced`, and the submissions are exactly the selected rows' attempts. */
  lemma RunPhaseExact(p: Phase, st: Step, order: seq<string>, env: Environment)
    requires NoStoreFaults(env) && st.ok && Enumerates(order, st.store)
    ensures RunPhase(p, st, order, env).ok
    ensures forall x :: x in st.store ==> RunPhase(p, st, order, env).store[x] == Advanced(p, x, st.store[x], env)
    ensures forall sub :: sub in RunPhase(p, st, order, env).log ==>
              || sub in st.log
              || (&& sub.market in st.store && Matches(PhaseQuery(p), st.store[sub.market])
                  && Attempt(p, sub.market, st.store[sub.market], env) == Some(sub))
    ensures forall x :: x in st.store && Matches(PhaseQuery(p), st.store[x]) && Attempt(p, x, st.store[x], env).Some? ==>
              Attempt(p, x, st.store[x], env).value in RunPhase(p, st, order, env).log
  {
    RunPhaseExactRows(p, st, order, env);
    RunPhaseExactLog(p, st, order, env);
  }

  lemma RunPhaseExactRows(p: Phase, st: Step, order: seq<string>, env: Environment)
    requires NoStoreFaults(env) && st.ok && Enumerates(order, st.store)
    ensures RunPhase(p, st, order, env).ok
    ensures forall x :: x in st.store ==> RunPhase(p, st, order, env).store[x] == Advanced(p, x, st.store[x], env)
  {
    assert !env.storeFails(Read(PhaseQuery(p)));
    var ids := Select(st.store, order, PhaseQuery(p));
    AdvanceAllExactRows(p, st, ids, env);
  }

  lemma RunPhaseExactLog(p: Phase, st: Step, order: seq<string>, env: Environment)
    requires NoStoreFaults(env) && st.ok && Enumerates(order, st.store)
    ensures forall sub :: sub in RunPhase(p, st, order, env).log ==>
              || sub in st.log
              || (&& sub.market in st.store && Matches(PhaseQuery(p), st.store[sub.market])
                  && Attempt(p, sub.market, st.store[sub.market], env) == Some(sub))
    ensures forall x :: x in st.store && Matches(PhaseQuery(p), st.store[x]) && Attempt(p, x, st.store[x], env).Some? ==>
              Attempt(p, x, st.store[x], env).value in RunPhase(p, st, order, env).log
  {
    assert !env.storeFails(Read(PhaseQuery(p)));
    var ids := Select(st.store, order, PhaseQuery(p));
    AdvanceAllExactLog(p, st, ids, env);
  }

  /** A tick without store failures: every row ends as `TickRow` says, and
      every submission is owed to its row. */
  lemma TickExact(s: Store, order: seq<string>, now: int, env: Environment)
    requires NoStoreFaults(env) && Enumerates(order, s)
    ensures Tick(s, order, now, env).ok
    ensures forall id :: id in s ==> Tick(s, order, now, env).store[id] == TickRow(id, s[id], now, env)
    ensures forall sub :: sub in Tick(s, order, now, env).log ==> Justified(sub, s, now, env)
  {
    TickExactRows(s, order, now, env);
    TickExactLog(s, order, now, env);
  }

  lemma TickExactRows(s: Store, order: seq<string>, now: int, env: Environment)
    requires NoStoreFaults(env) && Enumerates(order, s)
    ensures Tick(s, order, now, env).ok
    ensures forall id :: id in s ==> Tick(s, order, now, env).store[id] == TickRow(id, s[id], now, env)
  {
    assert !env.storeFails(Read(AllRows));
    var synced := Sync(s, order, env);
    var created := RunPhase(Creating, synced, order, env);
    var locked := RunPhase(Locking(now), created, order, env);
    SyncRows(s, order, env);
    RunPhaseExactRows(Creating, synced, order, env);
    RunPhaseExactRows(Locking(now), created, order, env);
    RunPhaseExactRows(Resolving, locked, order, env);
  }

  lemma TickExactLog(s: Store, order: seq<string>, now: int, env: Environment)
    requires NoStoreFaults(env) && Enumerates(order, s)
    ensures forall sub :: sub in Tick(s, order, now, env).log ==> Justified(sub, s, now, env)
  {
    assert !env.storeFails(Read(AllRows));
    var synced := Sync(s, order, env);
    var created := RunPhase(Creating, synced, order, env);
    var locked := RunPhase(Locking(now), created, order, env);
    SyncRows(s, order, env);
    RunPhaseExactRows(Creating, synced, order, env);
    RunPhaseExactRows(Locking(now), created, order, env);
    RunPhaseExactLog(Creating, synced, order, env);
    RunPhaseExactLog(Locking(now), created, order, env);
    RunPhaseExactLog(Resolving, locked, order, env);
    forall sub | sub in Tick(s, order, now, env).log
      ensures Justified(sub, s, now, env)
    {
      var id := sub.market;
      if sub !in locked.log {
        assert id in s && locked.store[id] == AfterLock(id, s[id], now, env);
        JustifiedByResolve(sub, s, now, env);
      } else if sub !in created.log {
        assert id in s && created.store[id] == AfterCreate(id, s[id], env);
        JustifiedByLock(sub, s, now, env);
      } else {
        assert id in s && synced.store[id] == SyncedRow(id, s[id], env);
        JustifiedByCreate(sub, s, now, env);
      }
    }
  }

  /** What the create phase attempts on the synced row is owed. */
  lemma JustifiedByCreate(sub: Submission, s: Store, now: int, env: Environment)
    requires sub.market in s
    requires var m0 := SyncedRow(sub.market, s[sub.market], env);
             Matches(PhaseQuery(Creating), m0) && Attempt(Creating, sub.market, m0, env) == Some(sub)
    ensures Justified(sub, s, now, env)
  {
  }

  /** What the lock phase attempts on the row the create phase left is owed. */
  lemma JustifiedByLock(sub: Submission, s: Store, now: int, env: Environment)
    requires sub.market in s
    requires var m1 := AfterCreate(sub.market, s[sub.market], env);
             Matches(PhaseQuery(Locking(now)), m1) && Attempt(Locking(now), sub.market, m1, env) == Some(sub)
    ensures Justified(sub, s, now, env)
  {
  }

  /** What the resolve phase attempts on the row the lock phase left is owed. */
  lemma JustifiedByResolve(sub: Submission, s: Store, now: int, env: Environment)
    requires sub.market in s
    requires var m2 := AfterLock(sub.market, s[sub.market], now, env);
             Matches(PhaseQuery(Resolving), m2) && Attempt(Resolving, sub.market, m2, env) == Some(sub)
    ensures Justified(sub, s, now, env)
  {
  }

  // ---------------------------------------------------------------------
  // Row by row

  /** A phase either leaves a row as it is or, for a selected row whose
      submission the ledger accepted, marks it. */
  lemma AdvancedCases(p: Phase, id: string, m: Market, env: Environment)
    ensures || Advanced(p, id, m, env) == m
            || (&& Matches(PhaseQuery(p), m) && Attempt(p, id, m, env).Some?
                && env.accepts(Attempt(p, id, m, env).value) && Advanced(p, id, m, env) == Marked(p, m))
    ensures Matches(PhaseQuery(p), m) && Attempt(p, id, m, env).Some? && env.accepts(Attempt(p, id, m, env).value)
            ==> Advanced(p, id, m, env) == Marked(p, m)
  {
  }

  lemma RowLockNeedsDeadline(id: string, m: Market, now: int, env: Environment)
    requires m.status == Pending && TickRow(id, m, now, env).status != Pending
    ensures now >= m.deadline && env.credentials && SubmitKey(env.keyRule, id).Some?
    ensures env.accepts(Submission(id, LockPool, [SubmitKey(env.keyRule, id).value]))
  {
    var m1 := AfterCreate(id, m, env);
    var m2 := AfterLock(id, m, now, env);
    AdvancedCases(Creating, id, SyncedRow(id, m, env), env);
    AdvancedCases(Locking(now), id, m1, env);
    AdvancedCases(Resolving, id, m2, env);
    assert m1.status == Pending && m1.deadline == m.deadline;
    assert m2.status != Pending;
  }

  lemma LockNeedsDeadline(s: Store, order: seq<string>, now: int, env: Environment, id: string)
    requires id in s
    requires s[id].status == Pending && Tick(s, order, now, env).store[id].status != Pending
    ensures now >= s[id].deadline && env.credentials && SubmitKey(env.keyRule, id).Some?
    ensures env.accepts(Submission(id, LockPool, [SubmitKey(env.keyRule, id).value]))
  {
    var s0, s1, s2 := TickPhases(s, order, now, env);
    MovesLockNeedDeadline(id, s[id], s0[id], s1[id], s2[id], Tick(s, order, now, env).store[id], now, env);
  }

  /** The lock phase locks a pending row whose deadline has passed when the
      ledger accepts the lock. */
  lemma LockPhaseLocks(id: string, m: Market, now: int, env: Environment)
    requires id != [] && m.status == Pending && now >= m.deadline && env.credentials
    requires env.accepts(Submission(id, LockPool, [SubmitKey(env.keyRule, id).value]))
    ensures Advanced(Locking(now), id, m, env) == m.(status := Locked)
  {
    assert Attempt(Locking(now), id, m, env) == Some(Submission(id, LockPool, [SubmitKey(env.keyRule, id).value]));
  }

  lemma RowLockAtDeadline(id: string, m: Market, now: int, env: Environment)
    requires id != [] && m.status == Pending && now >= m.deadline && env.credentials
    requires env.accepts(Submission(id, LockPool, [SubmitKey(env.keyRule, id).value]))
    ensures TickRow(id, m, now, env).status in {Locked, Resolved}
    ensures ResolutionValue(m, env.registry, env.readings(id)).Some? &&
            env.accepts(Submission(id, ResolvePool,
              [SubmitKey(env.keyRule, id).value,
               U64Literal(WinningOption(ResolutionValue(m, env.registry, env.readings(id)).value, m.threshold))]))
            ==> TickRow(id, m, now, env).status == Resolved
  {
    var m1 := AfterCreate(id, m, env);
    var m2 := AfterLock(id, m, now, env);
    PhaseRowsKeepListing(id, m, now, env);
    LockPhaseLocks(id, m1, now, env);
    assert m2.status == Locked && m2.threshold == m.threshold;
    assert ResolutionValue(m2, env.registry, env.readings(id)) == ResolutionValue(m, env.registry, env.readings(id));
    AdvancedCases(Resolving, id, m2, env);
    if ResolutionValue(m, env.registry, env.readings(id)).Some? {
      ResolvePhaseResolves(id, m2, env);
    }
  }

  /** The resolve phase resolves a locked row whose metric yields a value
      when the ledger accepts the resolution. */
  lemma ResolvePhaseResolves(id: string, m: Market, env: Environment)
    requires id != [] && m.status == Locked && env.credentials
    requires ResolutionValue(m, env.registry, env.readings(id)).Some?
    ensures var sub := Submission(id, ResolvePool,
              [SubmitKey(env.keyRule, id).value,
               U64Literal(WinningOption(ResolutionValue(m, env.registry, env.readings(id)).value, m.threshold))]);
            && Attempt(Resolving, id, m, env) == Some(sub)
            && (env.accepts(sub) ==> Advanced(Resolving, id, m, env) == m.(status := Resolved))
  {
  }

  /** Conversely, a pending market whose deadline has passed is locked in the
      tick when the ledger accepts the lock, and is resolved in the same tick
      when its metric also yields a value and the ledger accepts the
      resolution. */
  lemma LockAtDeadline(s: Store, order: seq<string>, now: int, env: Environment, id: string)
    requires NoStoreFaults(env) && Enumerates(order, s) && id in s && id != []
    requires s[id].status == Pending && now >= s[id].deadline && env.credentials
    requires env.accepts(Submission(id, LockPool, [SubmitKey(env.keyRule, id).value]))
    ensures Tick(s, order, now, env).store[id].status in {Locked, Resolved}
    ensures ResolutionValue(s[id], env.registry, env.readings(id)).Some? &&
            env.accepts(Submission(id, ResolvePool,
              [SubmitKey(env.keyRule, id).value,
               U64Literal(WinningOption(ResolutionValue(s[id], env.registry, env.readings(id)).value, s[id].threshold))]))
            ==> Tick(s, order, now, env).store[id].status == Resolved
  {
    TickExact(s, order, now, env);
    RowLockAtDeadline(id, s[id], now, env);
  }

  lemma RowPendingBeforeDeadline(id: string, m: Market, now: int, env: Environment)
    requires m.status == Pending && now < m.deadline
    ensures TickRow(id, m, now, env).status == Pending
  {
    var m1 := AfterCreate(id, m, env);
    AdvancedCases(Creating, id, SyncedRow(id, m, env), env);
    assert m1.status == Pending && m1.deadline == m.deadline;
    AdvancedCases(Locking(now), id, m1, env);
    AdvancedCases(Resolving, id, AfterLock(id, m, now, env), env);
  }

  /** Before the deadline a pending market stays pending. */
  lemma PendingBeforeDeadline(s: Store, order: seq<string>, now: int, env: Environment, id: string)
    requires id in s
    requires s[id].status == Pending && now < s[id].deadline
    ensures Tick(s, order, now, env).store[id].status == Pending
  {
    var s0, s1, s2 := TickPhases(s, order, now, env);
    MovesLockNeedDeadline(id, s[id], s0[id], s1[id], s2[id], Tick(s, order, now, env).store[id], now, env);
  }

  lemma RowResolveNeedsValue(id: string, m: Market, now: int, env: Environment)
    requires m.status != Resolved && TickRow(id, m, now, env).status == Resolved
    ensures env.credentials && SubmitKey(env.keyRule, id).Some?
    ensures ResolutionValue(m, env.registry, env.readings(id)).Some?
    ensures env.accepts(Submission(id, ResolvePool,
              [SubmitKey(env.keyRule, id).value,
               U64Literal(WinningOption(ResolutionValue(m, env.registry, env.readings(id)).value, m.threshold))]))
  {
    var m1 := AfterCreate(id, m, env);
    var m2 := AfterLock(id, m, now, env);
    AdvancedCases(Creating, id, SyncedRow(id, m, env), env);
    AdvancedCases(Locking(now), id, m1, env);
    assert SameListing(m, m2) && m2.status != Resolved;
    AdvancedCases(Resolving, id, m2, env);
  }

  /** A market becomes 'resolved' only through an accepted `resolve_pool`
      submission that carries the winning option the threshold rule picks
      from its metric's value. */
  lemma ResolveNeedsValue(s: Store, order: seq<string>, now: int, env: Environment, id: string)
    requires id in s
    requires s[id].status != Resolved && Tick(s, order, now, env).store[id].status == Resolved
    ensures env.credentials && SubmitKey(env.keyRule, id).Some?
    ensures ResolutionValue(s[id], env.registry, env.readings(id)).Some?
    ensures env.accepts(Submission(id, ResolvePool,
              [SubmitKey(env.keyRule, id).value,
               U64Literal(WinningOption(ResolutionValue(s[id], env.registry, env.readings(id)).value, s[id].threshold))]))
  {
    var s0, s1, s2 := TickPhases(s, order, now, env);
    MovesResolveNeedValue(id, s[id], s0[id], s1[id], s2[id], Tick(s, order, now, env).store[id], now, env);
  }

  /** The phase rows as a tick's submissions see them keep the listing and
      the status order of the stored row. */
  lemma PhaseRowsKeepListing(id: string, m: Market, now: int, env: Environment)
    ensures SameListing(m, SyncedRow(id, m, env)) && SyncedRow(id, m, env).status == m.status
    ensures SameListing(m, AfterCreate(id, m, env)) && AfterCreate(id, m, env).status == m.status
    ensures SameListing(m, AfterLock(id, m, now, env))
    ensures AfterLock(id, m, now, env).status == m.status || AfterLock(id, m, now, env).status == Locked
    ensures m.status == Resolved ==> AfterLock(id, m, now, env).status == Resolved
  {
    AdvancedCases(Creating, id, SyncedRow(id, m, env), env);
    AdvancedCases(Locking(now), id, AfterCreate(id, m, env), env);
  }

  lemma RowNoValueNoResolution(id: string, m: Market, now: int, env: Environment)
    requires ResolutionValue(m, env.registry, env.readings(id)).None?
    ensures m.status != Resolved ==> TickRow(id, m, now, env).status != Resolved
    ensures Attempt(Resolving, id, AfterLock(id, m, now, env), env).None?
  {
    PhaseRowsKeepListing(id, m, now, env);
    var m2 := AfterLock(id, m, now, env);
    assert ResolutionValue(m2, env.registry, env.readings(id)).None?;
    NoValueNoAttempt(id, m2, env);
  }

  /** Without a metric value the resolve phase attempts nothing on a row. */
  lemma NoValueNoAttempt(id: string, m: Market, env: Environment)
    requires ResolutionValue(m, env.registry, env.readings(id)).None?
    ensures Attempt(Resolving, id, m, env).None?
    ensures Advanced(Resolving, id, m, env) == m
  {
  }

  /** A market whose metric yields no value this tick (no such metric, the
      manual generic metric, or a failed fetch) is neither resolved nor
      submitted for resolution. */
  lemma NoValueNoResolution(s: Store, order: seq<string>, now: int, env: Environment, id: string)
    requires id in s
    requires ResolutionValue(s[id], env.registry, env.readings(id)).None?
    ensures s[id].status != Resolved ==> Tick(s, order, now, env).store[id].status != Resolved
    ensures forall sub :: sub in Tick(s, order, now, env).log && sub.market == id ==> sub.fn != ResolvePool
  {
    var s0, s1, s2 := TickPhases(s, order, now, env);
    if s[id].status != Resolved {
      MovesResolveNeedValue(id, s[id], s0[id], s1[id], s2[id], Tick(s, order, now, env).store[id], now, env);
    }
    TickResolutionsNeedValue(s, order, now, env);
  }

  /** A market of metric type "generic" is never resolved by the worker,
      whether the registry files the generic metric under that name or has
      no handler for it: it waits for an administrator. */
  lemma GenericMarketsWaitForAdmin(s: Store, order: seq<string>, now: int, env: Environment, id: string)
    requires id in s
    requires s[id].metricType == GenericMetric.name
    requires GetMetric(env.registry, GenericMetric.name).None?
             || GetMetric(env.registry, GenericMetric.name) == Some(GenericMetric)
    ensures s[id].status != Resolved ==> Tick(s, order, now, env).store[id].status != Resolved
    ensures forall sub :: sub in Tick(s, order, now, env).log && sub.market == id ==> sub.fn != ResolvePool
  {
    GenericNeverYields(env.readings(id));
    assert ResolutionValue(s[id], env.registry, env.readings(id)).None?;
    NoValueNoResolution(s, order, now, env, id);
  }

  lemma RowCreateNeedsAcceptance(id: string, m: Market, now: int, env: Environment)
    requires !m.onChain
    ensures TickRow(id, m, now, env).onChain <==>
              env.credentials && env.accepts(Submission(id, CreatePool, CreateInputs(m)))
  {
    var m0 := SyncedRow(id, m, env);
    PhaseRowsKeepListing(id, m, now, env);
    CreateInputsOfListing(m, m0);
    CreatePhaseFlag(id, m0, env);
    LaterPhasesKeepFlag(id, m, now, env);
  }

  /** `create_pool` reads only the listing of a row. */
  lemma CreateInputsOfListing(m: Market, m': Market)
    requires SameListing(m, m')
    ensures CreateInputs(m) == CreateInputs(m')
  {
  }

  /** The create phase flags a row off the ledger exactly when its
      submission is made and accepted. */
  lemma CreatePhaseFlag(id: string, m: Market, env: Environment)
    requires !m.onChain
    ensures Advanced(Creating, id, m, env).onChain <==>
              env.credentials && env.accepts(Submission(id, CreatePool, CreateInputs(m)))
  {
  }

  /** Locking and resolving never touch the on-ledger flag. */
  lemma LaterPhasesKeepFlag(id: string, m: Market, now: int, env: Environment)
    ensures TickRow(id, m, now, env).onChain == AfterCreate(id, m, env).onChain
  {
    AdvancedCases(Locking(now), id, AfterCreate(id, m, env), env);
    AdvancedCases(Resolving, id, AfterLock(id, m, now, env), env);
  }

  /** A market is flagged as on the ledger only after an accepted
      `create_pool` submission built from its listing, and always then. */
  lemma CreateNeedsAcceptance(s: Store, order: seq<string>, now: int, env: Environment, id: string)
    requires NoStoreFaults(env) && Enumerates(order, s) && id in s && !s[id].onChain
    ensures Tick(s, order, now, env).store[id].onChain <==>
              env.credentials && env.accepts(Submission(id, CreatePool, CreateInputs(s[id])))
  {
    TickExact(s, order, now, env);
    RowCreateNeedsAcceptance(id, s[id], now, env);
  }

  /** What a submission the tick owes to a row looks like. */
  lemma JustifiedShape(sub: Submission, s: Store, now: int, env: Environment)
    requires Justified(sub, s, now, env)
    ensures sub.fn != CreatePool ==>
              && SubmitKey(env.keyRule, sub.market).Some? && 1 <= |sub.inputs| && sub.inputs[0] == SubmitKey(env.keyRule, sub.market).value
    ensures sub.fn == ResolvePool ==>
              |sub.inputs| == 2 && (sub.inputs[1] == U64Literal(1) || sub.inputs[1] == U64Literal(2))
    ensures s[sub.market].status == Resolved ==> sub.fn == CreatePool
  {
    var id := sub.market;
    PhaseRowsKeepListing(id, s[id], now, env);
  }

  /** Every submission of a tick is well formed: lock and resolve name the
      pool under the key rule's key, a resolution names option 1 or 2, and a
      resolved market is never locked or resolved again. */
  lemma SubmissionsWellFormed(s: Store, order: seq<string>, now: int, env: Environment)
    ensures forall sub :: sub in Tick(s, order, now, env).log ==> sub.market in s
    ensures forall sub :: sub in Tick(s, order, now, env).log && sub.fn != CreatePool ==>
              && SubmitKey(env.keyRule, sub.market).Some? && 1 <= |sub.inputs|
              && sub.inputs[0] == SubmitKey(env.keyRule, sub.market).value
              && s[sub.market].status != Resolved
    ensures forall sub :: sub in Tick(s, order, now, env).log && sub.fn == ResolvePool ==>
              |sub.inputs| == 2 && (sub.inputs[1] == U64Literal(1) || sub.inputs[1] == U64Literal(2))
  {
    var s0, s1, s2 := TickPhases(s, order, now, env);
    forall sub | sub in Tick(s, order, now, env).log
      ensures sub.market in s
      ensures sub.fn != CreatePool ==>
                && SubmitKey(env.keyRule, sub.market).Some? && 1 <= |sub.inputs|
                && sub.inputs[0] == SubmitKey(env.keyRule, sub.market).value
                && s[sub.market].status != Resolved
      ensures sub.fn == ResolvePool ==>
                |sub.inputs| == 2 && (sub.inputs[1] == U64Literal(1) || sub.inputs[1] == U64Literal(2))
    {
      var x := sub.market;
      assert x in s;
      PhaseSubmissionShape(sub, s[x], s0[x], s1[x], s2[x], now, env);
    }
  }

  /** The shape of a submission one of a tick's phases makes on row
      `sub.market`, seen through the row's phase states. */
  lemma PhaseSubmissionShape(sub: Submission, m: Market, m0: Market, m1: Market, m2: Market, now: int, env: Environment)
    requires SameListing(m, m0) && m0.status == m.status
    requires RowMove(Creating, sub.market, m0, m1, env) && RowMove(Locking(now), sub.market, m1, m2, env)
    requires || (Matches(PhaseQuery(Creating), m0) && Attempt(Creating, sub.market, m0, env) == Some(sub))
             || (Matches(PhaseQuery(Locking(now)), m1) && Attempt(Locking(now), sub.market, m1, env) == Some(sub))
             || (Matches(PhaseQuery(Resolving), m2) && Attempt(Resolving, sub.market, m2, env) == Some(sub))
    ensures sub.fn != CreatePool ==>
              && SubmitKey(env.keyRule, sub.market).Some? && 1 <= |sub.inputs|
              && sub.inputs[0] == SubmitKey(env.keyRule, sub.market).value
              && m.status != Resolved
    ensures sub.fn == ResolvePool ==>
              |sub.inputs| == 2 && (sub.inputs[1] == U64Literal(1) || sub.inputs[1] == U64Literal(2))
  {
    assert m1.status == m.status;
    if Matches(PhaseQuery(Creating), m0) && Attempt(Creating, sub.market, m0, env) == Some(sub) {
      assert sub.fn == CreatePool;
    } else if Matches(PhaseQuery(Locking(now)), m1) && Attempt(Locking(now), sub.market, m1, env) == Some(sub) {
      assert m1.status == Pending && sub.fn == LockPool;
    } else {
      assert m2.status == Locked && m1.status != Resolved;
      var v := ResolutionValue(m2, env.registry, env.readings(sub.market)).value;
      assert sub.inputs[1] == U64Literal(WinningOption(v, m2.threshold));
    }
  }

  /** Under the corrected key rule, lock and resolve name the pool by the
      key the sync phase reads it under. */
  lemma SubmissionsUsePoolKey(s: Store, order: seq<string>, now: int, env: Environment)
    requires env.keyRule == SameAsSync
    ensures forall sub :: sub in Tick(s, order, now, env).log && sub.fn != CreatePool ==>
              && sub.market in s && PoolKey(sub.market).Some? && 1 <= |sub.inputs|
              && sub.inputs[0] == PoolKey(sub.market).value
  {
    SubmissionsWellFormed(s, order, now, env);
  }

  /** As written, lock and resolve name the pool of a market whose id is a
      field literal of at most 26 digits under a key other than the one the
      sync phase reads it by. */
  lemma AsWrittenSubmissionsMissPool(s: Store, order: seq<string>, now: int, env: Environment, n: nat)
    requires env.keyRule == AsWritten
    requires |NatToDecimal(n)| + 5 <= MaxFieldBytes
    ensures var id := NatToDecimal(n) + "field";
            forall sub :: sub in Tick(s, order, now, env).log && sub.market == id && sub.fn != CreatePool ==>
              1 <= |sub.inputs| && Some(sub.inputs[0]) != PoolKey(id)
  {
    var id := NatToDecimal(n) + "field";
    SubmissionsWellFormed(s, order, now, env);
    WrittenKeyMisses(n);
    assert SubmitKey(AsWritten, id) == WrittenSubmitKey(id);
  }

  // ---------------------------------------------------------------------
  // Whatever fails: which way each phase can move a status

  /** What a phase can do to row `x`, whatever fails: leave it as it is,
      or mark it when the row was one its query selects and the ledger
      accepted the submission the phase attempts on it. */
  predicate RowMove(p: Phase, x: string, before: Market, after: Market, env: Environment) {
    || after == before
    || (&& Matches(PhaseQuery(p), before)
        && Attempt(p, x, before, env).Some? && env.accepts(Attempt(p, x, before, env).value)
        && after == Marked(p, before))
  }

  /** Every row of `s` is a move of the phase from the row of `s0`. */
  predicate Moved(p: Phase, s0: Store, s: Store, env: Environment) {
    s.Keys == s0.Keys && forall x :: x in s0 ==> RowMove(p, x, s0[x], s[x], env)
  }

  /** A submission a phase makes from store `s`: the attempt on one of the
      rows its query selects. */
  predicate PhaseSubmission(p: Phase, sub: Submission, s: Store, env: Environment) {
    sub.market in s && Matches(PhaseQuery(p), s[sub.market]) && Attempt(p, sub.market, s[sub.market], env) == Some(sub)
  }

  /** A phase submits only its own transition, and a resolution only after
      the data source gave a value. */
  lemma AttemptNeedsReading(p: Phase, id: string, m: Market, env: Environment)
    requires Attempt(p, id, m, env).Some?
    ensures Attempt(p, id, m, env).value.fn == PhaseFn(p)
    ensures p.Resolving? ==> env.readings(id).Some?
  {
    if p.Resolving? {
      var h := GetMetric(env.registry, m.metricType);
      assert h.Some? && FetchValue(h.value, env.readings(id)).Some?;
    }
  }

  /** Marking a row does not change what its phase attempts on it. */
  lemma AttemptOfMarked(p: Phase, x: string, m: Market, env: Environment)
    ensures Attempt(p, x, Marked(p, m), env) == Attempt(p, x, m, env)
  {
    assert SameListing(m, Marked(p, m));
    AttemptOfListing(p, x, m, Marked(p, m), env);
  }

  /** A phase's attempt reads only the listing of the row. */
  lemma AttemptOfListing(p: Phase, x: string, m: Market, m': Market, env: Environment)
    requires SameListing(m, m')
    ensures Attempt(p, x, m', env) == Attempt(p, x, m, env)
  {
    match p
    case Creating =>
      CreateInputsOfListing(m, m');
    case Locking(_) =>
    case Resolving =>
      assert ResolutionValue(m', env.registry, env.readings(x)) == ResolutionValue(m, env.registry, env.readings(x));
  }

  lemma AdvanceOneMoves(p: Phase, s0: Store, st: Step, id: string, env: Environment)
    requires Moved(p, s0, st.store, env)
    requires id in s0 ==> Matches(PhaseQuery(p), s0[id])
    ensures var r := AdvanceOne(p, st, id, env);
            && Moved(p, s0, r.store, env)
            && (forall x :: x in st.store && x != id ==> r.store[x] == st.store[x])
            && (forall sub :: sub in r.log ==> sub in st.log || (sub.market == id && PhaseSubmission(p, sub, s0, env)))
  {
    AdvanceOneRowMoves(p, s0, st, id, env);
    AdvanceOneLogMoves(p, s0, st, id, env);
  }

  lemma AdvanceOneRowMoves(p: Phase, s0: Store, st: Step, id: string, env: Environment)
    requires Moved(p, s0, st.store, env)
    requires id in s0 ==> Matches(PhaseQuery(p), s0[id])
    ensures var r := AdvanceOne(p, st, id, env);
            && Moved(p, s0, r.store, env)
            && (forall x :: x in st.store && x != id ==> r.store[x] == st.store[x])
  {
    var r := AdvanceOne(p, st, id, env);
    AdvanceOneShape(p, st, id, env);
    MarkRows(p, st.store, id);
    if r.store != st.store {
      var sub := Attempt(p, id, st.store[id], env).value;
      AttemptOfMarked(p, id, s0[id], env);
      assert env.accepts(sub);
      var marked := st.store[id := Marked(p, s0[id])];
      assert r.store == marked;
      forall x | x in s0 ensures RowMove(p, x, s0[x], marked[x], env) {
        if x != id {
          assert marked[x] == st.store[x];
        }
      }
    }
  }

  lemma AdvanceOneLogMoves(p: Phase, s0: Store, st: Step, id: string, env: Environment)
    requires st.store.Keys == s0.Keys
    requires id in s0 ==> Matches(PhaseQuery(p), s0[id]) && RowMove(p, id, s0[id], st.store[id], env)
    ensures var r := AdvanceOne(p, st, id, env);
            forall sub :: sub in r.log ==> sub in st.log || (sub.market == id && PhaseSubmission(p, sub, s0, env))
  {
    var r := AdvanceOne(p, st, id, env);
    AdvanceOneShape(p, st, id, env);
    if r != st {
      var sub := Attempt(p, id, st.store[id], env).value;
      AttemptOfMarked(p, id, s0[id], env);
      assert PhaseSubmission(p, sub, s0, env);
      AppendedLog(st.log, sub);
    }
  }

  lemma AppendedLog(log: seq<Submission>, sub: Submission)
    ensures forall y :: y in log + [sub] ==> y in log || y == sub
  {
  }

  lemma {:induction false} AdvanceAllMoves(p: Phase, s0: Store, st: Step, ids: seq<string>, env: Environment)
    requires Moved(p, s0, st.store, env)
    requires forall x :: x in ids && x in s0 ==> Matches(PhaseQuery(p), s0[x])
    decreases |ids|
    ensures var r := AdvanceAll(p, st, ids, env);
            && Moved(p, s0, r.store, env)
            && (forall x :: x in st.store && x !in ids ==> r.store[x] == st.store[x])
            && (forall sub :: sub in r.log ==> sub in st.log || (sub.market in ids && PhaseSubmission(p, sub, s0, env)))
  {
    if ids != [] {
      var st1 := AdvanceOne(p, st, ids[0], env);
      assert AdvanceAll(p, st, ids, env) == AdvanceAll(p, st1, ids[1..], env);
      AdvanceOneMoves(p, s0, st, ids[0], env);
      assert forall x :: x in ids[1..] ==> x in ids;
      AdvanceAllMoves(p, s0, st1, ids[1..], env);
    }
  }

  /** Whatever fails, a phase leaves every row as it is or marks it after
      an accepted submission, leaves the rows its query does not select
      alone, and submits only what it attempts on the rows it selects. */
  lemma RunPhaseMoves(p: Phase, st: Step, order: seq<string>, env: Environment)
    ensures var r := RunPhase(p, st, order, env);
            && Moved(p, st.store, r.store, env)
            && (forall x :: x in st.store && !Matches(PhaseQuery(p), st.store[x]) ==> r.store[x] == st.store[x])
            && (forall sub :: sub in r.log ==> sub in st.log || PhaseSubmission(p, sub, st.store, env))
  {
    if st.ok && !env.storeFails(Read(PhaseQuery(p))) {
      AdvanceAllMoves(p, st.store, st, Select(st.store, order, PhaseQuery(p)), env);
    }
  }

  /** Row `id` through the phases of one tick: `m` as stored, `m0` as
      synced, then as each phase leaves it. */
  predicate PhaseRows(id: string, m: Market, m0: Market, m1: Market, m2: Market, m3: Market, now: int, env: Environment) {
    && SameListing(m, m0) && m0.status == m.status
    && RowMove(Creating, id, m0, m1, env)
    && RowMove(Locking(now), id, m1, m2, env)
    && RowMove(Resolving, id, m2, m3, env)
  }

  /** Along the phases a row keeps its listing, and only the lock phase
      takes it out of pending. */
  lemma PhaseRowsListing(id: string, m: Market, m0: Market, m1: Market, m2: Market, m3: Market, now: int, env: Environment)
    requires PhaseRows(id, m, m0, m1, m2, m3, now, env)
    ensures SameListing(m, m1) && m1.status == m.status
    ensures SameListing(m, m2) && (m2 == m1 || m2.status == Locked)
    ensures m2.status == Resolved ==> m.status == Resolved
    ensures SameListing(m, m3) && (m3 == m2 || m3.status == Resolved)
  {
  }

  lemma MovesLockNeedDeadline(id: string, m: Market, m0: Market, m1: Market, m2: Market, m3: Market, now: int, env: Environment)
    requires PhaseRows(id, m, m0, m1, m2, m3, now, env) && m.status == Pending
    ensures m3.status != Pending ==>
              && now >= m.deadline && env.credentials && SubmitKey(env.keyRule, id).Some?
              && env.accepts(Submission(id, LockPool, [SubmitKey(env.keyRule, id).value]))
  {
    PhaseRowsListing(id, m, m0, m1, m2, m3, now, env);
    if m2 == m1 {
      assert m3 == m2;
    }
  }

  lemma MovesResolveNeedValue(id: string, m: Market, m0: Market, m1: Market, m2: Market, m3: Market, now: int, env: Environment)
    requires PhaseRows(id, m, m0, m1, m2, m3, now, env) && m.status != Resolved
    ensures m3.status == Resolved ==>
              && env.credentials && SubmitKey(env.keyRule, id).Some?
              && ResolutionValue(m, env.registry, env.readings(id)).Some?
              && env.accepts(Submission(id, ResolvePool,
                   [SubmitKey(env.keyRule, id).value,
                    U64Literal(WinningOption(ResolutionValue(m, env.registry, env.readings(id)).value, m.threshold))]))
  {
    PhaseRowsListing(id, m, m0, m1, m2, m3, now, env);
    AttemptOfListing(Resolving, id, m, m2, env);
  }

  /** Whatever fails, every resolution a tick submits is for a stored row
      whose metric yielded a value. */
  lemma TickResolutionsNeedValue(s: Store, order: seq<string>, now: int, env: Environment)
    ensures forall sub :: sub in Tick(s, order, now, env).log && sub.fn == ResolvePool ==>
              sub.market in s && ResolutionValue(s[sub.market], env.registry, env.readings(sub.market)).Some?
  {
    var s0, s1, s2 := TickPhases(s, order, now, env);
    MovedKeepsListing(Creating, s0, s1, env);
    MovedKeepsListing(Locking(now), s1, s2, env);
    forall sub | sub in Tick(s, order, now, env).log
      ensures sub.fn == ResolvePool ==>
                sub.market in s && ResolutionValue(s[sub.market], env.registry, env.readings(sub.market)).Some?
    {
      SubmissionNeedsValue(sub, s, s0, s1, s2, now, env);
    }
  }

  lemma MovedKeepsListing(p: Phase, a: Store, b: Store, env: Environment)
    requires Moved(p, a, b, env)
    ensures forall x :: x in a ==> SameListing(a[x], b[x]) && (b[x] == a[x] || b[x] == Marked(p, a[x]))
  {
  }

  /** Only a data-source reading gives a metric value. */
  lemma ValueNeedsReading(m: Market, registry: Registry, reading: Option<real>)
    requires ResolutionValue(m, registry, reading).Some?
    ensures reading.Some?
  {
  }

  lemma SubmissionNeedsValue(sub: Submission, s: Store, s0: Store, s1: Store, s2: Store, now: int, env: Environment)
    requires s2.Keys == s.Keys && forall x :: x in s ==> SameListing(s[x], s2[x])
    requires || PhaseSubmission(Creating, sub, s0, env)
             || PhaseSubmission(Locking(now), sub, s1, env)
             || PhaseSubmission(Resolving, sub, s2, env)
    ensures sub.fn == ResolvePool ==>
              sub.market in s && ResolutionValue(s[sub.market], env.registry, env.readings(sub.market)).Some?
  {
    if PhaseSubmission(Resolving, sub, s2, env) {
      AttemptOfListing(Resolving, sub.market, s[sub.market], s2[sub.market], env);
    }
  }

  /** The stores a tick's phases start from, whatever fails: the synced
      store keeps every listing and status, each phase only moves rows, and
      every submission is one phase's attempt on a row it selects. */
  lemma TickPhases(s: Store, order: seq<string>, now: int, env: Environment)
    returns (s0: Store, s1: Store, s2: Store)
    ensures s0.Keys == s.Keys
    ensures forall x :: x in s ==> SameListing(s[x], s0[x]) && s0[x].status == s[x].status
    ensures Moved(Creating, s0, s1, env) && Moved(Locking(now), s1, s2, env)
    ensures Moved(Resolving, s2, Tick(s, order, now, env).store, env)
    ensures forall sub :: sub in Tick(s, order, now, env).log ==>
              || PhaseSubmission(Creating, sub, s0, env)
              || PhaseSubmission(Locking(now), sub, s1, env)
              || PhaseSubmission(Resolving, sub, s2, env)
  {
    var synced := Sync(s, order, env);
    var created := RunPhase(Creating, synced, order, env);
    var locked := RunPhase(Locking(now), created, order, env);
    SyncEvolves(s, order, env);
    SyncKeepsStatus(s, order, env);
    RunPhaseMoves(Creating, synced, order, env);
    RunPhaseMoves(Locking(now), created, order, env);
    RunPhaseMoves(Resolving, locked, order, env);
    s0, s1, s2 := synced.store, created.store, locked.store;
  }

  lemma SyncKeepsStatus(s: Store, order: seq<string>, env: Environment)
    ensures forall x :: x in s ==> Sync(s, order, env).store[x].status == s[x].status
  {
    if !env.storeFails(Read(AllRows)) {
      SyncMarketsRows(s, GetAllMarkets(s, order), env);
    }
  }

  /** Whatever fails, a tick submits a resolution only for a market whose
      data source yielded a value, and a locked market whose data source
      yielded nothing is still locked afterwards. */
  lemma TickNeedsReading(s: Store, order: seq<string>, now: int, env: Environment)
    ensures forall sub :: sub in Tick(s, order, now, env).log && sub.fn == ResolvePool ==> env.readings(sub.market).Some?
    ensures forall id :: id in s && s[id].status == Locked && env.readings(id).None? ==>
              Tick(s, order, now, env).store[id].status == Locked
  {
    var r := Tick(s, order, now, env);
    TickResolutionsNeedValue(s, order, now, env);
    forall sub | sub in r.log ensures sub.fn == ResolvePool ==> env.readings(sub.market).Some? {
      if sub.fn == ResolvePool {
        ValueNeedsReading(s[sub.market], env.registry, env.readings(sub.market));
      }
    }
    var s0, s1, s2 := TickPhases(s, order, now, env);
    forall id | id in s && s[id].status == Locked && env.readings(id).None?
      ensures r.store[id].status == Locked
    {
      MovesResolveNeedValue(id, s[id], s0[id], s1[id], s2[id], r.store[id], now, env);
      PhaseRowsListing(id, s[id], s0[id], s1[id], s2[id], r.store[id], now, env);
      if r.store[id].status == Resolved {
        ValueNeedsReading(s[id], env.registry, env.readings(id));
      }
    }
  }

  /** A locked market stays locked for as long as its data source yields
      nothing, over any number of ticks and whatever else fails. */
  lemma {:induction false} LockedWaitsForReading(s: Store, ticks: seq<TickInput>, id: string)
    requires id in s && s[id].status == Locked
    requires forall i :: 0 <= i < |ticks| ==> ticks[i].env.readings(id).None?
    decreases |ticks|
    ensures Run(s, ticks)[id].status == Locked
  {
    if ticks != [] {
      var t := ticks[0];
      TickNeedsReading(s, t.order, t.now, t.env);
      var s1 := Tick(s, t.order, t.now, t.env).store;
      assert forall i :: 0 <= i < |ticks[1..]| ==> ticks[1..][i] == ticks[i + 1];
      LockedWaitsForReading(s1, ticks[1..], id);
    }
  }

  /** A failure to list the rows ends the tick before anything is done. */
  lemma TickStopsWhenListingFails(s: Store, order: seq<string>, now: int, env: Environment)
    requires env.storeFails(Read(AllRows))
    ensures Tick(s, order, now, env) == Step(s, [], false)
  {
  }

  /** A failure to list the pending rows ends the tick after the create
      phase: no status changes and nothing but `create_pool` is submitted. */
  lemma TickStopsBeforeLocking(s: Store, order: seq<string>, now: int, env: Environment)
    requires !env.storeFails(Read(AllRows)) && env.storeFails(Read(WithStatus(Pending)))
    ensures !Tick(s, order, now, env).ok
    ensures forall id :: id in s ==> Tick(s, order, now, env).store[id].status == s[id].status
    ensures forall sub :: sub in Tick(s, order, now, env).log ==> sub.fn == CreatePool
  {
    var synced := Sync(s, order, env);
    var created := RunPhase(Creating, synced, order, env);
    SyncKeepsStatus(s, order, env);
    RunPhaseMoves(Creating, synced, order, env);
    assert Tick(s, order, now, env) == created.(ok := false);
    forall sub | sub in created.log ensures sub.fn == CreatePool {
      AttemptNeedsReading(Creating, sub.market, synced.store[sub.market], env);
    }
  }

  // ---------------------------------------------------------------------
  // The key lock and resolve compute as written

  /** For every id of the form the REST layer generates (a decimal numeral
      followed by "field", at most 31 characters), the key `lockMarket` and
      `resolveMarket` compute is not the key the sync phase reads the pool
      by: the id, already a field literal, is encoded once more. */
  lemma WrittenKeyMisses(n: nat)
    requires |NatToDecimal(n)| + 5 <= MaxFieldBytes
    ensures WrittenSubmitKey(NatToDecimal(n) + "field") != PoolKey(NatToDecimal(n) + "field")
  {
    var d := NatToDecimal(n);
    var id := d + "field";
    assert EndsWith(id, "field") by { assert id[|id| - 5..] == "field"; }
    var v := FieldValue(Utf8(id));
    EncodedNumeralIsLarger(n);
    var lit := FieldLiteral(v);
    assert lit[..|lit| - 5] == NatToDecimal(v);
    assert id[..|id| - 5] == d;
    if NatToDecimal(v) == d {
      NatToDecimalInjective(v, n);
    }
  }

  /** Encoding the text of such an id gives a larger number than the id's
      numeral: the id's first byte is a digit, so its big-endian value is at
      least `256^(|d| + 4)`, while the numeral is below `10^|d|`. */
  lemma EncodedNumeralIsLarger(n: nat)
    requires |NatToDecimal(n)| + 5 <= MaxFieldBytes
    ensures FieldValue(Utf8(NatToDecimal(n) + "field")) > n
  {
    var d := NatToDecimal(n);
    var id := d + "field";
    assert IsAscii(id) by {
      forall i | 0 <= i < |id| ensures id[i] as int < 0x80 {
        if i < |d| { assert id[i] == d[i] && IsDigit(d[i]); }
      }
    }
    Utf8OfAscii(id);
    var b := Utf8(id);
    assert FieldValue(b) == FromBytesBE(b) by { assert Truncate(b) == b; }
    assert FromBytesBE(b) >= Pow(256, |d| + 4) by {
      assert b[0] == d[0] as int && IsDigit(d[0]);
      FromBytesLowerBound(b);
    }
    assert n < Pow(256, |d| + 4) by {
      DecimalDigitsAreRadix10(d);
      RadixValueBound(d, 10);
      PowMonotoneBase(10, 256, |d|);
      PowMonotoneExponent(256, |d|, |d| + 4);
    }
  }

}
