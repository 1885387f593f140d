/** Every interleaving of the protocol keeps its invariant, so the committed tables are always those
    of running the committed transactions one after the other, in commit order. */
module ProtocolProofs {
  import opened Basics
  import opened Spaces
  import opened NamespaceRules
  import opened RoundTrip
  import opened Registry
  import opened Protocol

  // ---------------------------------------------------------------- steps of one transaction

  /** What one allocation or entry is about lies in the namespace the lookup found. */
  lemma TargetsAtHome(db: Db, counter: int, p: Program, n: int)
    requires Consistent(System(db, counter)) && TargetIn(db, p, n) && Acceptable(p)
    ensures p.RevokeOneEntry? ==> Targets(db, p) == {p.id}
    ensures p.RevokeWhole? ==> Targets(db, p) == OfAllocation(db[n].entries, p.allocation)
    ensures Targets(db, p) <= db[n].entries.Keys
  {
    match p
    case RevokeOneEntry(id) => assert n in HomesOfEntry(db, id);
    case RevokeWhole(a) =>
      var j := Member(OfAllocation(db[n].entries, a));
      forall i | i in Targets(db, p) ensures i in OfAllocation(db[n].entries, a) {
        var m :| m in db && i in OfAllocation(db[m].entries, a);
        assert db[m].entries[i].allocation == db[n].entries[j].allocation;
      }
      forall i | i in OfAllocation(db[n].entries, a) ensures i in Targets(db, p) {
        assert n in db && i in OfAllocation(db[n].entries, a);
      }
    case _ =>
  }

  lemma InsertKeeps(st: State, tx: Tx, s': Space, v: int)
    requires Consistent(System(st.committed, st.counter)) && TxOk(st.committed, st.counter, tx)
    requires tx.Holding? && tx.progress.Granting? && |tx.progress.ids| < tx.program.count
    requires NextGrant(st, tx) == Ok((s', v))
    ensures TxOk(st.committed, st.counter + 1, Inserted(tx, st.counter, v, s'.next))
    ensures DrawnIds(Inserted(tx, st.counter, v, s'.next)) == DrawnIds(tx) + {st.counter}
  {
    var db, c := st.committed, st.counter;
    ElementsAppend(tx.progress.ids, c);
    GrantFacts(View(db, tx), tx.program.request, tx.token, c);
    GrantManyAppend(db[tx.ns], tx.program.request, tx.token, tx.progress.ids, c);
    InsertedView(db, tx, c, v, s');
    InsertedIds(db, c, tx);
  }

  lemma InsertedView(db: Db, tx: Tx, c: int, v: int, s': Space)
    requires tx.Holding? && tx.progress.Granting? && tx.program.AllocateBatch? && tx.ns in db
    requires tx.writes.Keys == Elements(tx.progress.ids)
    requires s'.bounds == tx.columns.bounds && s'.active == tx.columns.active
    requires var row := Entry(v, tx.program.request.symbol, tx.program.request.project, tx.token, Active);
      s'.entries == View(db, tx).entries[c := row]
    ensures View(db, Inserted(tx, c, v, s'.next)) == s'
    ensures Inserted(tx, c, v, s'.next).writes.Keys == Elements(tx.progress.ids + [c])
  {
  }

  lemma InsertedIds(db: Db, c: int, tx: Tx)
    requires tx.Holding? && tx.progress.Granting? && IdsFresh(db, c, tx.progress.ids) && DrawnBelow(db, c)
    ensures IdsFresh(db, c + 1, tx.progress.ids + [c])
  {
  }

  lemma GrantManyAppend(s: Space, q: Request, token: int, ids: seq<int>, id: int)
    requires GrantMany(s, q, token, ids).Ok? && Grant(GrantMany(s, q, token, ids).value.0, q, token, id).Ok?
    ensures GrantMany(s, q, token, ids + [id]).Ok?
    ensures var s1 := GrantMany(s, q, token, ids).value.0;
      GrantMany(s, q, token, ids + [id]).value.0 == Grant(s1, q, token, id).value.0
  {
  }

  lemma RereadKeeps(st: State, tx: Tx)
    requires Consistent(System(st.committed, st.counter)) && TxOk(st.committed, st.counter, tx)
    requires tx.Holding? && tx.progress.Locked? && !NamesNamespace(tx.program)
    requires !AnyDeprecated(View(st.committed, tx).entries, Targets(st.committed, tx.program))
    ensures var ids := Targets(st.committed, tx.program); var rows := View(st.committed, tx).entries;
      TxOk(st.committed, st.counter,
           tx.(progress := Revoking(ids, set id | id in ids && id in rows && rows[id].status == Active)))
  {
    TargetsAtHome(st.committed, st.counter, tx.program, tx.ns);
    var rows := st.committed[tx.ns].entries;
    assert View(st.committed, tx).entries == rows;
    NothingYet(rows, Targets(st.committed, tx.program));
  }

  lemma NothingYet(rows: Table, ids: set<int>)
    requires ids <= rows.Keys
    ensures RevokedSoFar(rows, ids, set id | id in ids && id in rows && rows[id].status == Active) == map[]
  {
  }

  lemma RevokeRowKeeps(st: State, tx: Tx, id: int)
    requires TxOk(st.committed, st.counter, tx) && tx.Holding? && tx.progress.Revoking? && id in tx.progress.todo
    ensures id in View(st.committed, tx).entries
    ensures TxOk(st.committed, st.counter,
      tx.(writes := tx.writes[id := View(st.committed, tx).entries[id].(status := Revoked)],
          progress := tx.progress.(todo := tx.progress.todo - {id})))
  {
  }

  lemma ReleaseKeeps(st: State, tx: Tx)
    requires TxOk(st.committed, st.counter, tx) && tx.Holding? && tx.progress.Revoking? && tx.progress.todo == {}
    ensures TxOk(st.committed, st.counter, PulledBack(tx))
  {
    var s, targets := st.committed[tx.ns], tx.progress.targets;
    assert s.entries + tx.writes == MarkRevoked(s.entries, targets);
    var written := WrittenValues(tx);
    forall v ensures v in written <==> v in Released(s.entries, targets) {
      if v in written {
        var id :| id in tx.writes && tx.writes[id].value == v;
        assert id in targets && s.entries[id].status == Active && s.entries[id].value == v;
      }
      if v in Released(s.entries, targets) {
        var id :| id in targets && id in s.entries && s.entries[id].status == Active && s.entries[id].value == v;
        assert id in tx.writes && tx.writes[id].value == v;
      }
    }
    assert written == Released(s.entries, targets);
  }

  lemma AdjustKeeps(db: Db, counter: int, tx: Tx, s': Space)
    requires TxOk(db, counter, tx) && tx.Holding? && tx.progress.Locked? && AdjustsRow(tx.program)
    requires Apply(View(db, tx), RowOp(tx.program)) == (s', Done)
    ensures TxOk(db, counter, tx.(columns := ColumnsOf(s'), progress := Adjusted))
  {
    assert db[tx.ns].entries + map[] == db[tx.ns].entries;
    assert View(db, tx) == db[tx.ns];
    assert s'.entries == db[tx.ns].entries;
  }

  // ---------------------------------------------------------------- what a commit does to the others

  lemma CounterGrows(db: Db, counter: int, counter': int, tx: Tx)
    requires TxOk(db, counter, tx) && counter <= counter'
    ensures TxOk(db, counter', tx)
  {
  }

  predicate Quiet(s: Space, s': Space, tx: Tx) {
    && (forall id :: id in s.entries ==> id in s'.entries && s'.entries[id].allocation == s.entries[id].allocation)
    && (forall id :: id in s'.entries && id !in s.entries ==>
      id !in DrawnIds(tx) && s'.entries[id].allocation != tx.token)
  }

  lemma TargetStays(db: Db, n: int, s': Space, tx: Tx, m: int)
    requires TargetIn(db, tx.program, m) && n in db && Quiet(db[n], s', tx)
    ensures TargetIn(db[n := s'], tx.program, m)
  {
    if tx.program.RevokeWhole? && m == n {
      var i := Member(OfAllocation(db[n].entries, tx.program.allocation));
      assert i in OfAllocation(s'.entries, tx.program.allocation);
    }
  }

  /** Another namespace committing leaves a transaction where it was. */
  lemma OthersUndisturbed(db: Db, counter: int, n: int, s': Space, tx: Tx)
    requires Consistent(System(db, counter)) && Consistent(System(db[n := s'], counter))
    requires TxOk(db, counter, tx) && n in db && Quiet(db[n], s', tx) && (tx.Holding? ==> tx.ns != n)
    ensures TxOk(db[n := s'], counter, tx)
  {
    var db' := db[n := s'];
    forall m, i | m in db' && i in db'[m].entries ensures db'[m].entries[i].allocation != tx.token {
      if m == n && i in db[n].entries {
        assert s'.entries[i].allocation == db[n].entries[i].allocation;
      }
    }
    match tx
    case Begun(_, _) =>
    case Located(_, _, m) => TargetStays(db, n, s', tx, m);
    case Holding(_, _, m, _, _, _) =>
      assert db'[m] == db[m];
      if tx.progress.Granting? {
        var ids := tx.progress.ids;
        assert IdsFresh(db, counter, ids);
        forall i, k | 0 <= i < |ids| && k in db' ensures ids[i] < counter && ids[i] !in db'[k].entries {
          assert ids[i] in DrawnIds(tx);
          assert n in db && ids[i] !in db[n].entries;
        }
      } else if !NamesNamespace(tx.program) {
        TargetStays(db, n, s', tx, m);
        TargetsAtHome(db, counter, tx.program, m);
        TargetsAtHome(db', counter, tx.program, m);
      }
  }

  // ---------------------------------------------------------------- commit

  lemma RevokedEntryAlone(db: Db, counter: int, id: int, n: int)
    requires Consistent(System(db, counter)) && n in db && id in db[n].entries && !AnyDeprecated(db[n].entries, {id})
    ensures RevokeEntryIn(System(db, 0), id) == (System(db[n := Revoke(db[n], {id})], 0), Changed)
  {
    assert n in HomesOfEntry(db, id);
    forall m | m in HomesOfEntry(db, id) ensures m == n {
      assert id in db[m].entries && id in db[n].entries;
    }
    assert HomesOfEntry(db, id) == {n};
    assert db[n].entries[id].status != Deprecated;
  }

  lemma RevokedAllocationAlone(db: Db, counter: int, a: int, n: int)
    requires Consistent(System(db, counter)) && a != NO_ALLOCATION && n in db
    requires OfAllocation(db[n].entries, a) != {} && !AnyDeprecated(db[n].entries, OfAllocation(db[n].entries, a))
    ensures RevokeAllocationIn(System(db, 0), a) ==
      (System(db[n := Revoke(db[n], OfAllocation(db[n].entries, a))], 0), Changed)
  {
    assert n in HomesOfAllocation(db, a);
    HomeIsUnique(db, a);
    RevokeIsLocal(System(db, 0), a);
  }

  /** The values a batch has written, in order, are the values it was granted. */
  lemma WrittenInOrder(db: Db, counter: int, tx: Tx)
    requires TxOk(db, counter, tx) && tx.Holding? && tx.progress.Granting?
    ensures InsertedValues(tx.writes, tx.progress.ids) ==
      GrantMany(db[tx.ns], tx.program.request, tx.token, tx.progress.ids).value.1
  {
    var ids := tx.progress.ids;
    BatchFrame(db[tx.ns], tx.program.request, tx.token, ids);
    forall i | 0 <= i < |ids| ensures ids[i] in tx.writes && View(db, tx).entries[ids[i]] == tx.writes[ids[i]] {
      assert ids[i] in Elements(ids);
    }
  }

  lemma BatchAlone(db: Db, counter: int, tx: Tx)
    requires TxOk(db, counter, tx) && Finished(tx) && tx.progress.Granting?
    ensures InNamespace(System(db, tx.token), tx.ns, Batch(tx.program.request, tx.token, tx.progress.ids), 0) ==
      (System(db[tx.ns := View(db, tx)], tx.token), ReplyOf(tx))
  {
    WrittenInOrder(db, counter, tx);
    assert tx.progress.ids != [];
  }

  /** A finished transaction has done, in its namespace, what it would do alone on the committed tables,
      and answers what it would answer there. */
  lemma FinishedIsAlone(db: Db, counter: int, tx: Tx)
    requires Consistent(System(db, counter)) && TxOk(db, counter, tx) && Finished(tx)
    ensures Alone(db, CommitRecord(tx)) == (db[tx.ns := View(db, tx)], ReplyOf(tx))
  {
    match tx.program
    case AllocateBatch(_, _, _) => BatchAlone(db, counter, tx);
    case RevokeOneEntry(id) =>
      TargetsAtHome(db, counter, tx.program, tx.ns);
      RevokedEntryAlone(db, counter, id, tx.ns);
    case RevokeWhole(a) =>
      TargetsAtHome(db, counter, tx.program, tx.ns);
      RevokedAllocationAlone(db, counter, a, tx.ns);
    case _ =>
  }

  lemma FinishedIsQuiet(db: Db, counter: int, tx: Tx)
    requires Consistent(System(db, counter)) && TxOk(db, counter, tx) && Finished(tx)
    ensures UniqueLive(View(db, tx).entries) && GrewFrom(db, db[tx.ns], View(db, tx), counter)
    ensures forall id :: id in View(db, tx).entries && id !in db[tx.ns].entries ==>
      id in DrawnIds(tx) && View(db, tx).entries[id].allocation == tx.token
  {
    var s, s' := db[tx.ns], View(db, tx);
    if tx.progress.Granting? {
      BatchUnique(s, tx.program.request, tx.token, tx.progress.ids);
      BatchFrame(s, tx.program.request, tx.token, tx.progress.ids);
      forall id | id in s'.entries && id !in s.entries
        ensures id in DrawnIds(tx) && s'.entries[id].allocation == tx.token && id < counter && Unused(db, id, tx.token)
      {
        var i :| 0 <= i < |tx.progress.ids| && tx.progress.ids[i] == id;
      }
    } else if tx.progress.Pulled? {
      RevokeUnique(s, tx.progress.of);
    } else {
      assert s'.entries == s.entries;
    }
  }

  lemma SerialAppend(start: Db, log: seq<Record>, r: Record)
    ensures Serial(start, log + [r]) == Alone(Serial(start, log), r).0
  {
    assert (log + [r])[..|log|] == log;
  }

  lemma CommitSerial(start: Db, st: State, t: int)
    requires Inv(start, st) && Enabled(st, Commit(t))
    ensures Do(st, Commit(t)).committed == Serial(start, Do(st, Commit(t)).log)
  {
    var st' := Do(st, Commit(t));
    FinishedIsAlone(st.committed, st.counter, st.txs[t]);
    SerialAppend(start, st.log, st'.log[|st.log|]);
  }

  lemma CommitConsistent(start: Db, st: State, t: int)
    requires Inv(start, st) && Enabled(st, Commit(t))
    ensures Consistent(System(Do(st, Commit(t)).committed, st.counter))
  {
    FinishedIsQuiet(st.committed, st.counter, st.txs[t]);
    RowsConsistent(System(st.committed, st.counter), st.txs[t].ns, View(st.committed, st.txs[t]), st.counter);
  }

  /** To every other transaction the committing one adds only rows that are none of its own. */
  lemma CommitQuiet(st: State, t: int, u: int)
    requires Consistent(System(st.committed, st.counter)) && AllTxOk(st) && Separate(st) && Enabled(st, Commit(t))
    requires u in st.txs && u != t
    ensures Quiet(st.committed[st.txs[t].ns], View(st.committed, st.txs[t]), st.txs[u])
  {
    FinishedIsQuiet(st.committed, st.counter, st.txs[t]);
    assert st.txs[u].token != st.txs[t].token && DrawnIds(st.txs[u]) !! DrawnIds(st.txs[t]);
  }

  lemma CommitTx(st: State, t: int, u: int)
    requires Consistent(System(st.committed, st.counter)) && LocksMatch(st) && Separate(st) && AllTxOk(st)
    requires Enabled(st, Commit(t)) && u in st.txs && u != t
    requires Consistent(System(Do(st, Commit(t)).committed, st.counter))
    ensures TxOk(Do(st, Commit(t)).committed, st.counter, st.txs[u])
  {
    CommitQuiet(st, t, u);
    OtherLock(st, t, u);
    OthersUndisturbed(st.committed, st.counter, st.txs[t].ns, View(st.committed, st.txs[t]), st.txs[u]);
  }

  lemma CommitTxs(start: Db, st: State, t: int)
    requires Inv(start, st) && Enabled(st, Commit(t)) && Consistent(System(Do(st, Commit(t)).committed, st.counter))
    ensures AllTxOk(Do(st, Commit(t)))
  {
    forall u | u in st.txs && u != t ensures TxOk(Do(st, Commit(t)).committed, st.counter, st.txs[u]) {
      CommitTx(st, t, u);
    }
  }

  lemma OtherLock(st: State, t: int, u: int)
    requires LocksMatch(st) && t in st.txs && u in st.txs && t != u && st.txs[t].Holding?
    ensures st.txs[u].Holding? ==> st.txs[t].ns != st.txs[u].ns
  {
  }

  /** A transaction that ends, committed or not, gives up its lock and nothing else. */
  lemma EndKeepsLocks(st: State, st': State, t: int)
    requires LocksMatch(st) && Separate(st) && t in st.txs
    requires st'.locks == Unlock(st, st.txs[t]) && st'.txs == st.txs - {t}
    ensures LocksMatch(st') && Separate(st')
  {
    forall n | n in st'.locks ensures st'.locks[n] in st'.txs {
      assert n in st.locks;
    }
  }

  lemma CommitKeeps(start: Db, st: State, t: int)
    requires Inv(start, st) && Enabled(st, Commit(t))
    ensures Inv(start, Do(st, Commit(t)))
  {
    CommitSerial(start, st, t);
    CommitConsistent(start, st, t);
    CommitTxs(start, st, t);
    EndKeepsLocks(st, Do(st, Commit(t)), t);
  }

  // ---------------------------------------------------------------- every step

  /** `tx` is a later stage of transaction t: same token, same lock, and no ids drawn but unused ones. */
  predicate LaterStage(st: State, t: int, tx: Tx) {
    && t in st.txs && tx.token == st.txs[t].token
    && tx.Holding? == st.txs[t].Holding? && (tx.Holding? ==> tx.ns == st.txs[t].ns)
    && forall id :: id in DrawnIds(tx) ==> id in DrawnIds(st.txs[t]) || st.counter <= id
  }

  lemma ReplacedLocks(st: State, t: int, tx: Tx, st': State)
    requires LocksMatch(st) && LaterStage(st, t, tx)
    requires st'.locks == st.locks && st'.txs == st.txs[t := tx]
    ensures LocksMatch(st')
  {
  }

  lemma ReplacedApart(st: State, t: int, tx: Tx, st': State)
    requires Separate(st) && AllTxOk(st) && LaterStage(st, t, tx) && st'.txs == st.txs[t := tx]
    ensures Separate(st')
  {
    forall u | u in st.txs && u != t ensures DrawnIds(st.txs[u]) !! DrawnIds(tx) {
      IdsDrawn(st, u);
    }
  }

  lemma ReplacedOk(st: State, t: int, tx: Tx, st': State)
    requires AllTxOk(st) && t in st.txs && st.counter <= st'.counter && TxOk(st.committed, st'.counter, tx)
    requires st'.committed == st.committed && st'.txs == st.txs[t := tx]
    ensures AllTxOk(st')
  {
    forall u | u in st'.txs ensures TxOk(st'.committed, st'.counter, st'.txs[u]) {
      if u != t {
        CounterGrows(st.committed, st.counter, st'.counter, st.txs[u]);
      }
    }
  }

  /** `st'` is `st` with transaction t moved on to `tx`. */
  predicate Advanced(st: State, t: int, tx: Tx, st': State) {
    && st'.committed == st.committed && st'.locks == st.locks && st'.log == st.log
    && st'.txs == st.txs[t := tx] && st.counter <= st'.counter
  }

  lemma Replaced(start: Db, st: State, t: int, tx: Tx, st': State)
    requires Inv(start, st) && LaterStage(st, t, tx) && Advanced(st, t, tx, st') && TxOk(st.committed, st'.counter, tx)
    ensures Inv(start, st')
  {
    ReplacedLocks(st, t, tx, st');
    ReplacedApart(st, t, tx, st');
    ReplacedOk(st, t, tx, st');
  }

  lemma IdsDrawn(st: State, u: int)
    requires u in st.txs && TxOk(st.committed, st.counter, st.txs[u])
    ensures forall id :: id in DrawnIds(st.txs[u]) ==> id < st.counter
  {
  }

  lemma BeginKeeps(start: Db, st: State, t: int, p: Program)
    requires Inv(start, st) && Enabled(st, Begin(t, p))
    ensures Inv(start, Do(st, Begin(t, p)))
  {
    var st' := Do(st, Begin(t, p));
    forall u | u in st'.txs ensures TxOk(st'.committed, st'.counter, st'.txs[u]) {
      if u != t {
        CounterGrows(st.committed, st.counter, st'.counter, st.txs[u]);
      }
    }
    assert LocksMatch(st');
  }

  /** The lock holder starts from the committed row. */
  lemma AcquiredOk(db: Db, counter: int, tx: Tx)
    requires TxOk(db, counter, tx) && !tx.Holding? && (tx.Begun? ==> NamesNamespace(tx.program))
    requires WantedLock(tx) in db && (tx.Located? ==> !NamesNamespace(tx.program))
    requires tx.program.AllocateBatch? ==> db[WantedLock(tx)].active
    ensures TxOk(db, counter, Holding(tx.program, tx.token, WantedLock(tx), ColumnsOf(db[WantedLock(tx)]), map[],
                                      if tx.program.AllocateBatch? then Granting([]) else Locked))
  {
    var s := db[WantedLock(tx)];
    assert s.entries + map[] == s.entries;
    assert Elements([]) == {};
    if tx.program.AllocateBatch? {
      assert GrantMany(s, tx.program.request, tx.token, []) == Ok((s, []));
    }
  }

  lemma AcquireKeeps(start: Db, st: State, t: int)
    requires Inv(start, st) && Enabled(st, Acquire(t))
    ensures Inv(start, Do(st, Acquire(t)))
  {
    var st' := Do(st, Acquire(t));
    AcquiredOk(st.committed, st.counter, st.txs[t]);
    assert AllTxOk(st');
    AcquireKeepsLocks(st, t);
  }

  lemma AcquireKeepsLocks(st: State, t: int)
    requires LocksMatch(st) && Separate(st) && Enabled(st, Acquire(t))
    ensures LocksMatch(Do(st, Acquire(t))) && Separate(Do(st, Acquire(t)))
  {
    var st' := Do(st, Acquire(t));
    assert DrawnIds(st'.txs[t]) == {};
    assert forall u :: u in st.txs && u != t ==> st'.txs[u] == st.txs[u];
    assert forall n :: n in st.locks ==> n != st'.txs[t].ns && st'.locks[n] == st.locks[n] && st.locks[n] != t;
  }

  lemma AbortKeeps(start: Db, st: State, t: int)
    requires Inv(start, st) && t in st.txs
    ensures Inv(start, Do(st, Abort(t)))
  {
    EndKeepsLocks(st, Do(st, Abort(t)), t);
  }

  lemma LocateStep(start: Db, st: State, t: int, n: int)
    requires Inv(start, st) && Enabled(st, Locate(t, n))
    ensures Inv(start, Do(st, Locate(t, n)))
  {
  }

  lemma InsertReplaces(st: State, t: int, s': Space, v: int)
    requires Enabled(st, Insert(t)) && NextGrant(st, st.txs[t]) == Ok((s', v))
    ensures Advanced(st, t, Inserted(st.txs[t], st.counter, v, s'.next), Do(st, Insert(t)))
    ensures Do(st, Insert(t)).counter == st.counter + 1
  {
  }

  lemma InsertStage(st: State, t: int, s': Space, v: int)
    requires Consistent(System(st.committed, st.counter)) && AllTxOk(st)
    requires Enabled(st, Insert(t)) && NextGrant(st, st.txs[t]) == Ok((s', v))
    ensures var tx' := Inserted(st.txs[t], st.counter, v, s'.next);
      LaterStage(st, t, tx') && TxOk(st.committed, st.counter + 1, tx')
  {
    InsertKeeps(st, st.txs[t], s', v);
  }

  lemma InsertStep(start: Db, st: State, t: int)
    requires Inv(start, st) && Enabled(st, Insert(t))
    ensures Inv(start, Do(st, Insert(t)))
  {
    var (s', v) := NextGrant(st, st.txs[t]).value;
    var tx := Inserted(st.txs[t], st.counter, v, s'.next);
    InsertStage(st, t, s', v);
    InsertReplaces(st, t, s', v);
    Replaced(start, st, t, tx, Do(st, Insert(t)));
  }

  lemma RereadStep(start: Db, st: State, t: int)
    requires Inv(start, st) && Enabled(st, Reread(t))
    ensures Inv(start, Do(st, Reread(t)))
  {
    RereadKeeps(st, st.txs[t]);
    Replaced(start, st, t, Do(st, Reread(t)).txs[t], Do(st, Reread(t)));
  }

  lemma RevokeRowStep(start: Db, st: State, t: int, id: int)
    requires Inv(start, st) && Enabled(st, RevokeRow(t, id))
    ensures Inv(start, Do(st, RevokeRow(t, id)))
  {
    RevokeRowKeeps(st, st.txs[t], id);
    Replaced(start, st, t, Do(st, RevokeRow(t, id)).txs[t], Do(st, RevokeRow(t, id)));
  }

  lemma ReleaseStep(start: Db, st: State, t: int)
    requires Inv(start, st) && Enabled(st, Release(t))
    ensures Inv(start, Do(st, Release(t)))
  {
    ReleaseKeeps(st, st.txs[t]);
    Replaced(start, st, t, Do(st, Release(t)).txs[t], Do(st, Release(t)));
  }

  lemma AdjustStep(start: Db, st: State, t: int)
    requires Inv(start, st) && Enabled(st, Adjust(t))
    ensures Inv(start, Do(st, Adjust(t)))
  {
    var tx := st.txs[t];
    var s' := Apply(View(st.committed, tx), RowOp(tx.program)).0;
    AdjustKeeps(st.committed, st.counter, tx, s');
    Replaced(start, st, t, tx.(columns := ColumnsOf(s'), progress := Adjusted), Do(st, Adjust(t)));
  }

  lemma StepKeeps(start: Db, st: State, a: Action)
    requires Inv(start, st) && Enabled(st, a)
    ensures Inv(start, Do(st, a))
  {
    match a
    case Begin(t, p) => BeginKeeps(start, st, t, p);
    case Locate(t, n) => LocateStep(start, st, t, n);
    case Acquire(t) => AcquireKeeps(start, st, t);
    case Insert(t) => InsertStep(start, st, t);
    case Reread(t) => RereadStep(start, st, t);
    case RevokeRow(t, id) => RevokeRowStep(start, st, t, id);
    case Release(t) => ReleaseStep(start, st, t);
    case Adjust(t) => AdjustStep(start, st, t);
    case Commit(t) => CommitKeeps(start, st, t);
    case Abort(t) => AbortKeeps(start, st, t);
  }

  lemma {:induction false} PathKeeps(db: Db, counter: int, actions: seq<Action>)
    requires Consistent(System(db, counter)) && Path(Initial(db, counter), actions).Some?
    ensures Inv(db, Path(Initial(db, counter), actions).value)
    decreases |actions|
  {
    if actions != [] {
      PathKeeps(db, counter, actions[..|actions| - 1]);
      StepKeeps(db, Path(Initial(db, counter), actions[..|actions| - 1]).value, actions[|actions| - 1]);
    }
  }

  // ---------------------------------------------------------------- the theorems

  /** Each committed transaction answered what it answers in the serial run. */
  predicate SerialReplies(start: Db, log: seq<Record>) {
    forall k :: 0 <= k < |log| ==> log[k].reply == Alone(Serial(start, log[..k]), log[k]).1
  }

  lemma SerialRepliesAppend(start: Db, log: seq<Record>, r: Record)
    requires SerialReplies(start, log) && r.reply == Alone(Serial(start, log), r).1
    ensures SerialReplies(start, log + [r])
  {
    var log' := log + [r];
    forall k | 0 <= k < |log'| ensures log'[k].reply == Alone(Serial(start, log'[..k]), log'[k]).1 {
      assert log'[..k] == log[..k];
      assert log[..|log|] == log;
    }
  }

  lemma {:induction false} PathReplies(db: Db, counter: int, actions: seq<Action>)
    requires Consistent(System(db, counter)) && Path(Initial(db, counter), actions).Some?
    ensures SerialReplies(db, Path(Initial(db, counter), actions).value.log)
    decreases |actions|
  {
    if actions != [] {
      var before, a := actions[..|actions| - 1], actions[|actions| - 1];
      PathReplies(db, counter, before);
      PathKeeps(db, counter, before);
      var st := Path(Initial(db, counter), before).value;
      if a.Commit? {
        FinishedIsAlone(st.committed, st.counter, st.txs[a.t]);
        SerialRepliesAppend(db, st.log, CommitRecord(st.txs[a.t]));
      }
    }
  }

  /** Whatever the interleaving, the committed tables are those of the committed transactions run
      serially in commit order, and each of them answered what it answers there. */
  lemma Serializable(db: Db, counter: int, actions: seq<Action>, st: State)
    requires Consistent(System(db, counter)) && Path(Initial(db, counter), actions) == Some(st)
    ensures st.committed == Serial(db, st.log)
    ensures SerialReplies(db, st.log)
  {
    PathKeeps(db, counter, actions);
    PathReplies(db, counter, actions);
  }

  /** A row of a namespace, committed or written by a transaction still in flight. */
  predicate InPool(st: State, n: int, id: int, e: Entry) {
    (n in st.committed && id in st.committed[n].entries && st.committed[n].entries[id] == e)
    || exists t ::
      t in st.txs && st.txs[t].Holding? && st.txs[t].ns == n && id in st.txs[t].writes && st.txs[t].writes[id] == e
  }

  lemma PoolWithinView(st: State, t: int, id: int, e: Entry)
    requires Consistent(System(st.committed, st.counter)) && LocksMatch(st)
    requires t in st.txs && st.txs[t].Holding? && st.txs[t].progress.Granting?
    requires TxOk(st.committed, st.counter, st.txs[t]) && InPool(st, st.txs[t].ns, id, e)
    ensures id in View(st.committed, st.txs[t]).entries && View(st.committed, st.txs[t]).entries[id] == e
  {
  }

  lemma LiveWriteIsGrant(st: State, t: int, id: int)
    requires t in st.txs && TxOk(st.committed, st.counter, st.txs[t]) && st.txs[t].Holding?
    requires id in st.txs[t].writes && st.txs[t].writes[id].status != Revoked
    ensures st.txs[t].progress.Granting?
  {
  }

  predicate SameValueHeld(e: Entry, f: Entry) {
    e.status != Revoked && f.status != Revoked && e.value == f.value
  }

  lemma OneHolderOf(start: Db, st: State, n: int, i: int, e: Entry, j: int, f: Entry)
    requires Inv(start, st) && InPool(st, n, i, e) && InPool(st, n, j, f)
    requires SameValueHeld(e, f)
    ensures i == j
  {
    if t :| t in st.txs && st.txs[t].Holding? && st.txs[t].ns == n && st.txs[t].progress.Granting? {
      PoolWithinView(st, t, i, e);
      PoolWithinView(st, t, j, f);
      var tx := st.txs[t];
      BatchUnique(st.committed[n], tx.program.request, tx.token, tx.progress.ids);
    } else {
      forall t | t in st.txs && st.txs[t].Holding? && st.txs[t].ns == n
        ensures forall id :: id in st.txs[t].writes ==> st.txs[t].writes[id].status == Revoked
      {
        forall id | id in st.txs[t].writes ensures st.txs[t].writes[id].status == Revoked {
          if st.txs[t].writes[id].status != Revoked {
            LiveWriteIsGrant(st, t, id);
          }
        }
      }
    }
  }

  /** In every reachable state, over committed rows and all writes in flight, a value of a namespace is
      held by at most one row. No step consults the unique key to get there. */
  lemma OneHolderEverywhere(db: Db, counter: int, actions: seq<Action>, st: State)
    requires Consistent(System(db, counter)) && Path(Initial(db, counter), actions) == Some(st)
    ensures forall n, i, e, j, f :: InPool(st, n, i, e) && InPool(st, n, j, f) && SameValueHeld(e, f) ==> i == j
  {
    PathKeeps(db, counter, actions);
    forall n, i, e, j, f | InPool(st, n, i, e) && InPool(st, n, j, f) && SameValueHeld(e, f) ensures i == j {
      OneHolderOf(db, st, n, i, e, j, f);
    }
  }

  /** The value an insert is about to take is held by no row at all, committed or in flight, so the
      unique key on live values refuses no insert in any interleaving: what it refuses is a symbol in use. */
  lemma ValueKeyNeverDecides(db: Db, counter: int, actions: seq<Action>, st: State, t: int)
    requires Consistent(System(db, counter)) && Path(Initial(db, counter), actions) == Some(st)
    requires t in st.txs && st.txs[t].Holding? && st.txs[t].progress.Granting? && st.txs[t].program.AllocateBatch?
    requires st.txs[t].ns in st.committed
    ensures var tx := st.txs[t]; var view := View(st.committed, tx); var c := Chosen(view, tx.program.request.project);
      && (!c.NoValue? ==> forall id, e :: InPool(st, tx.ns, id, e) && e.status != Revoked ==> e.value != c.value)
      && (NextGrant(st, tx) == Err(Conflict) <==> !c.NoValue? && SymbolTaken(view.entries, tx.program.request.symbol))
  {
    PathKeeps(db, counter, actions);
    var tx := st.txs[t];
    var view := View(st.committed, tx);
    InsertedIds(st.committed, st.counter, tx);
    assert st.counter !in view.entries by {
      IdsDrawn(st, t);
    }
    ValueKeyNeverHit(view, tx.program.request, tx.token, st.counter);
    var c := Chosen(view, tx.program.request.project);
    if !c.NoValue? {
      ChosenIsFree(view, tx.program.request.project);
      forall id, e | InPool(st, tx.ns, id, e) && e.status != Revoked ensures e.value != c.value {
        PoolWithinView(st, t, id, e);
        assert view.entries[id].value in LiveValues(view.entries);
      }
    }
  }

  // ---------------------------------------------------------------- whole batches

  /** A committed batch is there as a whole: its rows are exactly the rows carrying its token. */
  predicate Landed(db: Db, r: Record) {
    r.program.AllocateBatch? ==>
      && r.program.ns in db && 0 < r.program.count == |r.ids|
      && OfAllocation(db[r.program.ns].entries, r.token) == Elements(r.ids)
      && |OfAllocation(db[r.program.ns].entries, r.token)| == r.program.count
  }

  predicate Logged(log: seq<Record>, n: int, token: int) {
    exists k :: 0 <= k < |log| && log[k].program.AllocateBatch? && log[k].program.ns == n && log[k].token == token
  }

  /** Every row stems from the start or from a committed batch of its namespace. */
  predicate Explained(st: State, counter: int) {
    forall n, id ::
      n in st.committed && id in st.committed[n].entries && counter <= st.committed[n].entries[id].allocation ==>
      Logged(st.log, n, st.committed[n].entries[id].allocation)
  }

  predicate Whole(st: State, counter: int) {
    (forall k :: 0 <= k < |st.log| ==> Landed(st.committed, st.log[k])) && Explained(st, counter)
  }

  /** Rows kept and new ones with an unused token leave every other allocation's rows as they were. */
  lemma SameRowsElsewhere(db: Db, counter: int, tx: Tx, token: int)
    requires Consistent(System(db, counter)) && TxOk(db, counter, tx) && Finished(tx) && token != tx.token
    ensures OfAllocation(View(db, tx).entries, token) == OfAllocation(db[tx.ns].entries, token)
  {
    FinishedIsQuiet(db, counter, tx);
  }

  lemma CommittedBatchLands(db: Db, counter: int, tx: Tx)
    requires TxOk(db, counter, tx) && Finished(tx) && tx.progress.Granting?
    ensures Landed(db[tx.ns := View(db, tx)], CommitRecord(tx))
  {
    assert forall id :: id in db[tx.ns].entries ==> db[tx.ns].entries[id].allocation != tx.token;
    assert OfAllocation(db[tx.ns].entries, tx.token) == {};
    BatchIdsDiffer(db[tx.ns], tx.program.request, tx.token, tx.progress.ids);
    BatchRows(db[tx.ns], tx.program.request, tx.token, tx.progress.ids);
  }

  lemma RevocationLogsNoBatch(db: Db, counter: int, tx: Tx)
    requires TxOk(db, counter, tx) && Finished(tx) && !tx.progress.Granting?
    ensures !tx.program.AllocateBatch?
  {
  }

  lemma CommitWhole(start: Db, counter: int, st: State, t: int)
    requires Inv(start, st) && Enabled(st, Commit(t)) && Whole(st, counter)
    ensures Whole(Do(st, Commit(t)), counter)
  {
    var db, tx, st' := st.committed, st.txs[t], Do(st, Commit(t));
    forall k | 0 <= k < |st'.log| ensures Landed(st'.committed, st'.log[k]) {
      if k < |st.log| {
        LandedStays(db, st.counter, tx, st.log[k]);
      } else if tx.progress.Granting? {
        CommittedBatchLands(db, st.counter, tx);
      } else {
        RevocationLogsNoBatch(db, st.counter, tx);
      }
    }
    CommitExplained(start, counter, st, t);
  }

  lemma LandedStays(db: Db, counter: int, tx: Tx, r: Record)
    requires Consistent(System(db, counter)) && TxOk(db, counter, tx) && Finished(tx) && Landed(db, r)
    ensures Landed(db[tx.ns := View(db, tx)], r)
  {
    if r.program.AllocateBatch? && r.program.ns == tx.ns {
      var id := r.ids[0];
      assert id in Elements(r.ids) && id in OfAllocation(db[tx.ns].entries, r.token);
      assert r.token != tx.token by {
        assert tx.ns in db && db[tx.ns].entries[id].allocation == r.token;
      }
      SameRowsElsewhere(db, counter, tx, r.token);
    }
  }

  lemma CommitExplained(start: Db, counter: int, st: State, t: int)
    requires Inv(start, st) && Enabled(st, Commit(t)) && Explained(st, counter)
    ensures Explained(Do(st, Commit(t)), counter)
  {
    var db, tx, st' := st.committed, st.txs[t], Do(st, Commit(t));
    FinishedIsQuiet(db, st.counter, tx);
    forall n, id | n in st'.committed && id in st'.committed[n].entries
      && counter <= st'.committed[n].entries[id].allocation
      ensures Logged(st'.log, n, st'.committed[n].entries[id].allocation)
    {
      if id in db[n].entries {
        var token := db[n].entries[id].allocation;
        assert st'.committed[n].entries[id].allocation == token;
        LoggedStays(st.log, st'.log[|st.log|], n, token);
      } else {
        assert n == tx.ns && id in DrawnIds(tx) && tx.progress.Granting?;
        assert st'.log[|st.log|] == CommitRecord(tx);
      }
    }
  }

  lemma LoggedStays(log: seq<Record>, r: Record, n: int, token: int)
    requires Logged(log, n, token)
    ensures Logged(log + [r], n, token)
  {
    var k :| 0 <= k < |log| && log[k].program.AllocateBatch? && log[k].program.ns == n && log[k].token == token;
    assert (log + [r])[k] == log[k];
  }

  lemma {:induction false} PathWhole(db: Db, counter: int, actions: seq<Action>)
    requires Consistent(System(db, counter)) && Path(Initial(db, counter), actions).Some?
    ensures Whole(Path(Initial(db, counter), actions).value, counter)
    decreases |actions|
  {
    if actions != [] {
      var before, a := actions[..|actions| - 1], actions[|actions| - 1];
      PathWhole(db, counter, before);
      PathKeeps(db, counter, before);
      var st := Path(Initial(db, counter), before).value;
      if a.Commit? {
        CommitWhole(db, counter, st, a.t);
      } else {
        assert Do(st, a).committed == st.committed && Do(st, a).log == st.log;
      }
    }
  }

  /** Batches land whole or not at all: a committed batch has exactly the rows it asked for, a row not
      there from the start belongs to a committed batch, and no row carries the token of a transaction
      still in flight. */
  lemma BatchesLandWhole(db: Db, counter: int, actions: seq<Action>, st: State)
    requires Consistent(System(db, counter)) && Path(Initial(db, counter), actions) == Some(st)
    ensures forall k :: 0 <= k < |st.log| ==> Landed(st.committed, st.log[k])
    ensures Explained(st, counter)
    ensures forall t :: t in st.txs ==> TokenUnused(st.committed, st.txs[t].token)
  {
    PathKeeps(db, counter, actions);
    PathWhole(db, counter, actions);
  }
}
