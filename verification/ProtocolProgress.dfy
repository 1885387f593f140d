/**
  A transaction that would succeed alone can always be carried to its commit: from every reachable state in
  which nobody holds the lock of its namespace, some sequence of its own steps commits it, with the tables
  and the reply of the serial run.
 */
module ProtocolProgress {
  import opened Basics
  import opened Spaces
  import opened NamespaceRules
  import opened Registry
  import opened Protocol
  import opened ProtocolProofs

  /** What the program leaves in the log when it runs alone from here, drawing from the counter. */
  function RecordNow(db: Db, counter: int, p: Program): Record
    requires Acceptable(p)
  {
    var r := Record(p, counter, if p.AllocateBatch? then Drawn(counter + 1, p.count) else [], Changed);
    r.(reply := Alone(db, r).1)
  }

  predicate SucceedsAlone(st: State, p: Program) {
    Acceptable(p) && !RecordNow(st.committed, st.counter, p).reply.Refused?
  }

  ghost predicate HomeUnlocked(st: State, p: Program) {
    forall n :: AtHome(st.committed, p, n) ==> n !in st.locks
  }

  predicate StepsOf(actions: seq<Action>, t: int) {
    forall i :: 0 <= i < |actions| ==> actions[i].t == t
  }

  /** The steps commit the record and leave every other transaction where it was. */
  predicate Completes(st: State, actions: seq<Action>, r: Record, st': State) {
    && Path(st, actions) == Some(st')
    && st'.log == st.log + [r] && st'.committed == Alone(st.committed, r).0
    && st'.txs == st.txs && st'.locks == st.locks
  }

  // ---------------------------------------------------------------- one more step

  lemma PathThen(st: State, actions: seq<Action>, a: Action, mid: State)
    requires Path(st, actions) == Some(mid) && Enabled(mid, a)
    ensures Path(st, actions + [a]) == Some(Do(mid, a))
  {
    assert (actions + [a])[..|actions|] == actions;
  }

  /** The steps so far moved transaction `t` only, which has not committed. */
  predicate Underway(start: Db, st: State, t: int, p: Program, actions: seq<Action>, mid: State) {
    && Inv(start, mid) && Path(st, actions) == Some(mid) && StepsOf(actions, t)
    && t !in st.txs && t in mid.txs && mid.txs == st.txs[t := mid.txs[t]]
    && mid.committed == st.committed && mid.log == st.log
    && mid.txs[t].program == p && mid.txs[t].token == st.counter
    && if mid.txs[t].Holding? then mid.txs[t].ns !in st.locks && mid.locks == st.locks[mid.txs[t].ns := t]
       else mid.locks == st.locks
  }

  lemma Begins(start: Db, st: State, t: int, p: Program) returns (mid: State)
    requires Inv(start, st) && t !in st.txs && Acceptable(p)
    ensures Underway(start, st, t, p, [Begin(t, p)], mid)
    ensures mid.counter == st.counter + 1 && mid.txs[t] == Begun(p, st.counter)
  {
    var a := Begin(t, p);
    StepKeeps(start, st, a);
    mid := Do(st, a);
    assert [a][..0] == [];
    assert Path(st, []) == Some(st);
  }

  /** What any step between begin and commit leaves alone. */
  predicate OwnStep(st: State, t: int, st': State) {
    && t in st.txs && t in st'.txs && st'.txs == st.txs[t := st'.txs[t]]
    && st'.committed == st.committed && st'.log == st.log
    && st'.txs[t].program == st.txs[t].program && st'.txs[t].token == st.txs[t].token
    && if st.txs[t].Holding? then st'.txs[t].Holding? && st'.txs[t].ns == st.txs[t].ns && st'.locks == st.locks
       else if st'.txs[t].Holding? then st'.txs[t].ns !in st.locks && st'.locks == st.locks[st'.txs[t].ns := t]
       else st'.locks == st.locks
  }

  lemma StepIsOwn(st: State, a: Action)
    requires Enabled(st, a) && !a.Begin? && !a.Commit? && !a.Abort?
    ensures OwnStep(st, a.t, Do(st, a))
  {
    hide Grant, Apply;
  }

  lemma Continues(start: Db, st: State, t: int, p: Program, actions: seq<Action>, mid: State, a: Action)
    requires Underway(start, st, t, p, actions, mid) && Enabled(mid, a) && a.t == t
    requires !a.Begin? && !a.Commit? && !a.Abort?
    ensures Underway(start, st, t, p, actions + [a], Do(mid, a))
  {
    hide Enabled, Do, Inv, Path;
    StepKeeps(start, mid, a);
    PathThen(st, actions, a, mid);
    StepIsOwn(mid, a);
  }

  lemma CommitLeaves(st: State, t: int)
    requires Enabled(st, Commit(t))
    ensures var tx := st.txs[t]; var st' := Do(st, Commit(t));
      && st'.committed == st.committed[tx.ns := View(st.committed, tx)] && st'.log == st.log + [CommitRecord(tx)]
      && st'.txs == st.txs - {t} && st'.locks == st.locks - {tx.ns}
  {
  }

  lemma CommitEnabled(start: Db, st: State, t: int)
    requires Inv(start, st) && t in st.txs && Finished(st.txs[t])
    ensures Enabled(st, Commit(t)) && Consistent(System(st.committed, st.counter))
    ensures TxOk(st.committed, st.counter, st.txs[t])
  {
  }

  lemma Commits(start: Db, st: State, t: int, p: Program, actions: seq<Action>, mid: State) returns (st': State)
    requires Underway(start, st, t, p, actions, mid) && Finished(mid.txs[t])
    ensures Completes(st, actions + [Commit(t)], CommitRecord(mid.txs[t]), st')
    ensures Alone(st.committed, CommitRecord(mid.txs[t])).1 == ReplyOf(mid.txs[t])
  {
    hide Enabled, Do, Inv, Path, Alone, TxOk, Consistent, View;
    var a := Commit(t);
    CommitEnabled(start, mid, t);
    FinishedIsAlone(mid.committed, mid.counter, mid.txs[t]);
    PathThen(st, actions, a, mid);
    CommitLeaves(mid, t);
    st' := Do(mid, a);
    assert st.locks[mid.txs[t].ns := t] - {mid.txs[t].ns} == st.locks;
    assert st.txs[t := mid.txs[t]] - {t} == st.txs;
  }

  // ---------------------------------------------------------------- allocation

  predicate Inserting(mid: State, t: int, ids: seq<int>) {
    t in mid.txs && mid.txs[t].Holding? && mid.txs[t].progress == Granting(ids)
  }

  /** A batch that can be granted as a whole can be granted row by row. */
  lemma NextIsGranted(s: Space, q: Request, token: int, first: int, count: nat, k: nat)
    requires k < count && GrantMany(s, q, token, Drawn(first, count)).Ok?
    ensures GrantMany(s, q, token, Drawn(first, k)).Ok?
    ensures Grant(GrantMany(s, q, token, Drawn(first, k)).value.0, q, token, first + k).Ok?
  {
    hide Grant;
    var ids := Drawn(first, k + 1);
    BatchPrefix(s, q, token, Drawn(first, count), k + 1);
    assert Drawn(first, count)[..k + 1] == ids;
    var s1, values, s2, v := BatchSplit(s, q, token, ids);
    assert ids[..|ids| - 1] == Drawn(first, k);
  }

  lemma InsertEnabled(start: Db, st: State, t: int, p: Program, actions: seq<Action>, mid: State, first: int, k: nat)
    requires Underway(start, st, t, p, actions, mid) && p.AllocateBatch? && k < p.count
    requires Inserting(mid, t, Drawn(first, k)) && mid.counter == first + k && p.ns in st.committed
    requires GrantMany(st.committed[p.ns], p.request, st.counter, Drawn(first, p.count)).Ok?
    ensures mid.txs[t].ns == p.ns && Enabled(mid, Insert(t))
  {
    hide GrantMany, Grant, Consistent, LocksMatch, Separate, Path;
    var tx := mid.txs[t];
    assert TxOk(mid.committed, mid.counter, tx);
    NextIsGranted(st.committed[p.ns], p.request, st.counter, first, p.count, k);
  }

  lemma InsertsOne(st: State, t: int, ids: seq<int>)
    requires Enabled(st, Insert(t)) && Inserting(st, t, ids)
    ensures Inserting(Do(st, Insert(t)), t, ids + [st.counter]) && Do(st, Insert(t)).counter == st.counter + 1
  {
    hide Grant;
  }

  lemma {:induction false} InsertsAll(start: Db, st: State, t: int, p: Program, before: seq<Action>, held: State,
                                      k: nat)
    returns (actions: seq<Action>, mid: State)
    requires Underway(start, st, t, p, before, held) && p.AllocateBatch? && k <= p.count
    requires Inserting(held, t, []) && p.ns in st.committed
    requires GrantMany(st.committed[p.ns], p.request, st.counter, Drawn(held.counter, p.count)).Ok?
    ensures Underway(start, st, t, p, actions, mid)
    ensures Inserting(mid, t, Drawn(held.counter, k)) && mid.counter == held.counter + k
    decreases k
  {
    hide GrantMany, Underway, Enabled, Do;
    if k == 0 {
      actions, mid := before, held;
      assert Drawn(held.counter, 0) == [];
    } else {
      var actions', mid' := InsertsAll(start, st, t, p, before, held, k - 1);
      InsertEnabled(start, st, t, p, actions', mid', held.counter, k - 1);
      Continues(start, st, t, p, actions', mid', Insert(t));
      InsertsOne(mid', t, Drawn(held.counter, k - 1));
      actions, mid := actions' + [Insert(t)], Do(mid', Insert(t));
      assert Drawn(held.counter, k - 1) + [mid'.counter] == Drawn(held.counter, k);
    }
  }

  lemma AllocationSucceeds(st: State, p: Program)
    requires p.AllocateBatch? && SucceedsAlone(st, p)
    ensures p.ns in st.committed && st.committed[p.ns].active
    ensures GrantMany(st.committed[p.ns], p.request, st.counter, Drawn(st.counter + 1, p.count)).Ok?
  {
    hide GrantMany;
    assert Drawn(st.counter + 1, p.count) != [];
  }

  lemma AcquireEnabled(start: Db, st: State, t: int, p: Program, actions: seq<Action>, mid: State)
    requires Underway(start, st, t, p, actions, mid) && !mid.txs[t].Holding?
    requires mid.txs[t].Begun? ==> NamesNamespace(p)
    requires WantedLock(mid.txs[t]) in st.committed && WantedLock(mid.txs[t]) !in st.locks
    requires p.AllocateBatch? ==> st.committed[p.ns].active
    requires mid.txs[t].Located? ==> !p.AllocateBatch?
    ensures Enabled(mid, Acquire(t)) && t in Do(mid, Acquire(t)).txs
    ensures var tx := Do(mid, Acquire(t)).txs[t];
      && Do(mid, Acquire(t)).counter == mid.counter
      && tx.Holding? && tx.ns == WantedLock(mid.txs[t])
      && tx.progress == if p.AllocateBatch? then Granting([]) else Locked
  {
    hide Inv, Path;
  }

  lemma AllocationCommits(start: Db, st: State, t: int, p: Program) returns (actions: seq<Action>, st': State)
    requires Inv(start, st) && t !in st.txs && p.AllocateBatch? && SucceedsAlone(st, p) && HomeUnlocked(st, p)
    ensures Completes(st, actions, RecordNow(st.committed, st.counter, p), st') && StepsOf(actions, t)
  {
    hide GrantMany, Underway, Enabled, Do, Inv, Completes, Alone;
    AllocationSucceeds(st, p);
    assert AtHome(st.committed, p, p.ns);
    var begun := Begins(start, st, t, p);
    AcquireEnabled(start, st, t, p, [Begin(t, p)], begun);
    Continues(start, st, t, p, [Begin(t, p)], begun, Acquire(t));
    var held := Do(begun, Acquire(t));
    var steps, mid := InsertsAll(start, st, t, p, [Begin(t, p)] + [Acquire(t)], held, p.count);
    UnderwayTx(start, st, t, p, steps, mid);
    st' := Commits(start, st, t, p, steps, mid);
    actions := steps + [Commit(t)];
    ReplyNow(st, p, mid.txs[t]);
  }

  lemma UnderwayTx(start: Db, st: State, t: int, p: Program, actions: seq<Action>, mid: State)
    requires Underway(start, st, t, p, actions, mid)
    ensures t in mid.txs && mid.txs[t].program == p && mid.txs[t].token == st.counter && StepsOf(actions, t)
  {
  }

  lemma ReplyNow(st: State, p: Program, tx: Tx)
    requires tx.Holding? && Acceptable(p) && tx.program == p && tx.token == st.counter
    requires GrantedIds(tx) == if p.AllocateBatch? then Drawn(st.counter + 1, p.count) else []
    requires Alone(st.committed, CommitRecord(tx)).1 == ReplyOf(tx)
    ensures CommitRecord(tx) == RecordNow(st.committed, st.counter, p)
  {
    hide Alone;
    ReplyIgnored(st.committed, CommitRecord(tx), Changed);
  }

  /** What runs is decided by the program and the ids it drew. */
  lemma ReplyIgnored(db: Db, r: Record, reply: Reply)
    ensures Alone(db, r.(reply := reply)) == Alone(db, r)
  {
    hide InNamespace, RevokeEntryIn, RevokeAllocationIn;
  }

  // ---------------------------------------------------------------- bounds and cursors

  lemma AdjustSucceeds(st: State, p: Program)
    requires AdjustsRow(p) && SucceedsAlone(st, p)
    ensures p.ns in st.committed && Apply(st.committed[p.ns], RowOp(p)).1 == Done
  {
  }

  lemma AdjustEnabled(start: Db, st: State, t: int, p: Program, actions: seq<Action>, mid: State)
    requires Underway(start, st, t, p, actions, mid) && mid.txs[t].Holding? && mid.txs[t].progress.Locked?
    requires AdjustsRow(p) && p.ns in st.committed && Apply(st.committed[p.ns], RowOp(p)).1 == Done
    ensures Enabled(mid, Adjust(t))
    ensures t in Do(mid, Adjust(t)).txs && Do(mid, Adjust(t)).txs[t].Holding?
    ensures Do(mid, Adjust(t)).txs[t].progress == Adjusted
  {
    hide Apply, Consistent, LocksMatch, Separate, Path;
    var tx := mid.txs[t];
    assert TxOk(mid.committed, mid.counter, tx);
    assert View(mid.committed, tx) == st.committed[p.ns];
  }

  lemma AdjustCommits(start: Db, st: State, t: int, p: Program) returns (actions: seq<Action>, st': State)
    requires Inv(start, st) && t !in st.txs && AdjustsRow(p) && SucceedsAlone(st, p) && HomeUnlocked(st, p)
    ensures Completes(st, actions, RecordNow(st.committed, st.counter, p), st') && StepsOf(actions, t)
  {
    hide Underway, Enabled, Do, Inv, Completes, Alone, Apply;
    AdjustSucceeds(st, p);
    assert AtHome(st.committed, p, p.ns);
    var begun := Begins(start, st, t, p);
    AcquireEnabled(start, st, t, p, [Begin(t, p)], begun);
    Continues(start, st, t, p, [Begin(t, p)], begun, Acquire(t));
    var steps, held := [Begin(t, p)] + [Acquire(t)], Do(begun, Acquire(t));
    AdjustEnabled(start, st, t, p, steps, held);
    Continues(start, st, t, p, steps, held, Adjust(t));
    steps := steps + [Adjust(t)];
    var mid := Do(held, Adjust(t));
    UnderwayTx(start, st, t, p, steps, mid);
    st' := Commits(start, st, t, p, steps, mid);
    actions := steps + [Commit(t)];
    ReplyNow(st, p, mid.txs[t]);
  }

  // ---------------------------------------------------------------- revocation

  lemma RevocationSucceeds(st: State, p: Program) returns (n: int)
    requires Consistent(System(st.committed, st.counter)) && !NamesNamespace(p) && SucceedsAlone(st, p)
    ensures TargetIn(st.committed, p, n) && !AnyDeprecated(st.committed[n].entries, Targets(st.committed, p))
  {
    var db := st.committed;
    if p.RevokeOneEntry? {
      n := SetMin(HomesOfEntry(db, p.id));
      assert n in HomesOfEntry(db, p.id);
    } else {
      n := SetMin(HomesOfAllocation(db, p.allocation));
      assert n in HomesOfAllocation(db, p.allocation);
    }
    TargetsAtHome(db, st.counter, p, n);
  }

  lemma LocateEnabled(start: Db, st: State, t: int, p: Program, actions: seq<Action>, mid: State, n: int)
    requires Underway(start, st, t, p, actions, mid) && mid.txs[t].Begun? && TargetIn(st.committed, p, n)
    ensures Enabled(mid, Locate(t, n)) && t in Do(mid, Locate(t, n)).txs
    ensures Do(mid, Locate(t, n)).txs[t] == Located(p, st.counter, n)
  {
    hide Inv, Path;
  }

  lemma RereadEnabled(start: Db, st: State, t: int, p: Program, actions: seq<Action>, mid: State)
    requires Underway(start, st, t, p, actions, mid) && mid.txs[t].Holding? && mid.txs[t].progress.Locked?
    requires !NamesNamespace(p) && mid.txs[t].ns in st.committed
    requires !AnyDeprecated(st.committed[mid.txs[t].ns].entries, Targets(st.committed, p))
    ensures Enabled(mid, Reread(t))
    ensures t in Do(mid, Reread(t)).txs && Do(mid, Reread(t)).txs[t].Holding?
    ensures Do(mid, Reread(t)).txs[t].progress.Revoking?
  {
    hide Consistent, LocksMatch, Separate, Path;
    var tx := mid.txs[t];
    assert TxOk(mid.committed, mid.counter, tx);
    assert View(mid.committed, tx).entries == st.committed[tx.ns].entries;
  }

  predicate StillRevoking(mid: State, t: int) {
    t in mid.txs && mid.txs[t].Holding? && mid.txs[t].progress.Revoking?
  }

  lemma RevokeRowEnabled(start: Db, st: State, t: int, p: Program, actions: seq<Action>, mid: State, id: int)
    requires Underway(start, st, t, p, actions, mid) && StillRevoking(mid, t) && id in mid.txs[t].progress.todo
    ensures Enabled(mid, RevokeRow(t, id)) && StillRevoking(Do(mid, RevokeRow(t, id)), t)
    ensures Do(mid, RevokeRow(t, id)).txs[t].progress.todo == mid.txs[t].progress.todo - {id}
  {
    hide Consistent, LocksMatch, Separate, Path;
    var tx := mid.txs[t];
    assert TxOk(mid.committed, mid.counter, tx);
    RevokeRowKeeps(mid, tx, id);
  }

  lemma {:induction false} RevokesAll(start: Db, st: State, t: int, p: Program, before: seq<Action>, read: State)
    returns (actions: seq<Action>, mid: State)
    requires Underway(start, st, t, p, before, read) && StillRevoking(read, t)
    ensures Underway(start, st, t, p, actions, mid) && StillRevoking(mid, t) && mid.txs[t].progress.todo == {}
    decreases |read.txs[t].progress.todo|
  {
    hide Underway, Enabled, Do;
    if read.txs[t].progress.todo == {} {
      actions, mid := before, read;
    } else {
      var id := Member(read.txs[t].progress.todo);
      RevokeRowEnabled(start, st, t, p, before, read, id);
      Continues(start, st, t, p, before, read, RevokeRow(t, id));
      actions, mid := RevokesAll(start, st, t, p, before + [RevokeRow(t, id)], Do(read, RevokeRow(t, id)));
    }
  }

  lemma ReleaseEnabled(start: Db, st: State, t: int, p: Program, actions: seq<Action>, mid: State)
    requires Underway(start, st, t, p, actions, mid) && StillRevoking(mid, t) && mid.txs[t].progress.todo == {}
    ensures Enabled(mid, Release(t))
    ensures t in Do(mid, Release(t)).txs && Do(mid, Release(t)).txs[t].Holding?
    ensures Do(mid, Release(t)).txs[t].progress.Pulled?
  {
    hide Consistent, LocksMatch, Separate, Path;
    assert TxOk(mid.committed, mid.counter, mid.txs[t]);
  }

  /** Up to the rows re-read under the lock. */
  lemma RevocationReads(start: Db, st: State, t: int, p: Program) returns (steps: seq<Action>, read: State)
    requires Inv(start, st) && t !in st.txs && !NamesNamespace(p) && SucceedsAlone(st, p) && HomeUnlocked(st, p)
    ensures Underway(start, st, t, p, steps, read) && StillRevoking(read, t)
  {
    hide Underway, Enabled, Do, Alone, LocksMatch, Separate;
    var n := RevocationSucceeds(st, p);
    assert AtHome(st.committed, p, n);
    var begun := Begins(start, st, t, p);
    steps := [Begin(t, p)];
    LocateEnabled(start, st, t, p, steps, begun, n);
    Continues(start, st, t, p, steps, begun, Locate(t, n));
    steps := steps + [Locate(t, n)];
    var located := Do(begun, Locate(t, n));
    AcquireEnabled(start, st, t, p, steps, located);
    Continues(start, st, t, p, steps, located, Acquire(t));
    steps := steps + [Acquire(t)];
    var held := Do(located, Acquire(t));
    RereadEnabled(start, st, t, p, steps, held);
    Continues(start, st, t, p, steps, held, Reread(t));
    steps, read := steps + [Reread(t)], Do(held, Reread(t));
  }

  lemma RevocationCommits(start: Db, st: State, t: int, p: Program) returns (actions: seq<Action>, st': State)
    requires Inv(start, st) && t !in st.txs && !NamesNamespace(p) && SucceedsAlone(st, p) && HomeUnlocked(st, p)
    ensures Completes(st, actions, RecordNow(st.committed, st.counter, p), st') && StepsOf(actions, t)
  {
    hide Underway, Enabled, Do, Inv, Completes, Alone;
    var steps, read := RevocationReads(start, st, t, p);
    var revoked: State;
    steps, revoked := RevokesAll(start, st, t, p, steps, read);
    ReleaseEnabled(start, st, t, p, steps, revoked);
    Continues(start, st, t, p, steps, revoked, Release(t));
    steps := steps + [Release(t)];
    var mid := Do(revoked, Release(t));
    UnderwayTx(start, st, t, p, steps, mid);
    st' := Commits(start, st, t, p, steps, mid);
    actions := steps + [Commit(t)];
    ReplyNow(st, p, mid.txs[t]);
  }

  // ---------------------------------------------------------------- the theorem

  /** From every reachable state a new transaction that would succeed alone commits by steps of its own, if
      its namespace is not locked: its record is that of running alone now, and nothing else has moved. */
  lemma SucceedsWhenUnlocked(db: Db, counter: int, before: seq<Action>, st: State, t: int, p: Program)
    returns (actions: seq<Action>, st': State)
    requires Consistent(System(db, counter)) && Path(Initial(db, counter), before) == Some(st)
    requires t !in st.txs && SucceedsAlone(st, p) && HomeUnlocked(st, p)
    ensures Completes(st, actions, RecordNow(st.committed, st.counter, p), st') && StepsOf(actions, t)
  {
    hide Completes, Inv, Alone;
    PathKeeps(db, counter, before);
    if p.AllocateBatch? {
      actions, st' := AllocationCommits(db, st, t, p);
    } else if AdjustsRow(p) {
      actions, st' := AdjustCommits(db, st, t, p);
    } else {
      actions, st' := RevocationCommits(db, st, t, p);
    }
  }

  /** A transaction that holds a lock can give it up at any time, so a lock is never kept by waiting. */
  lemma HolderCanStop(db: Db, counter: int, before: seq<Action>, st: State, n: int)
    requires Consistent(System(db, counter)) && Path(Initial(db, counter), before) == Some(st) && n in st.locks
    ensures Enabled(st, Abort(st.locks[n]))
    ensures Do(st, Abort(st.locks[n])).locks == st.locks - {n}
    ensures Do(st, Abort(st.locks[n])).committed == st.committed && Do(st, Abort(st.locks[n])).log == st.log
  {
    PathKeeps(db, counter, before);
  }
}
