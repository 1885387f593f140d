/**
  Allocation, revocation, bound changes and recalculation as concurrent transactions. A transaction
  takes the row lock of one namespace, from then on sees the committed tables plus its own writes, and
  becomes visible at once when it commits. Revocations find their namespace before they hold the lock and
  re-read under it. Row locks, read-committed visibility and all-or-nothing commits are what the database
  provides.
 */
module Protocol {
  import opened Basics
  import opened Candidates
  import opened Spaces
  import opened Registry

  datatype Program =
    | AllocateBatch(ns: int, request: Request, count: int)
    | RevokeOneEntry(id: int)
    | RevokeWhole(allocation: int)
    | ChangeBounds(ns: int, min: Option<int>, max: Option<int>, active: bool)
    | Recompute(ns: int)

  datatype Progress =
    | Granting(ids: seq<int>)                          // entry ids inserted so far
    | Locked                                           // lock held, nothing done yet
    | Revoking(targets: set<int>, todo: set<int>)      // rows re-read; those still to be revoked
    | Pulled(of: set<int>)                             // cursor pulled back
    | Adjusted                                         // namespace row rewritten

  /** What a transaction may rewrite in the namespace row. */
  datatype Columns = Columns(next: int, bounds: Bounds, active: bool)

  datatype Tx =
    | Begun(program: Program, token: int)
    | Located(program: Program, token: int, ns: int)
    | Holding(program: Program, token: int, ns: int, columns: Columns, writes: Table, progress: Progress)

  /** A committed transaction: the ids it drew and what it told its caller. */
  datatype Record = Record(program: Program, token: int, ids: seq<int>, reply: Reply)

  datatype State = State(committed: Db, counter: int, locks: map<int, int>, txs: map<int, Tx>, log: seq<Record>)

  datatype Action =
    | Begin(t: int, program: Program)
    | Locate(t: int, ns: int)
    | Acquire(t: int)
    | Insert(t: int)
    | Reread(t: int)
    | RevokeRow(t: int, id: int)
    | Release(t: int)
    | Adjust(t: int)
    | Commit(t: int)
    | Abort(t: int)

  // ---------------------------------------------------------------- what a transaction sees

  function ColumnsOf(s: Space): Columns {
    Columns(s.next, s.bounds, s.active)
  }

  /** Its namespace as the lock holder sees it: committed rows under its own writes. */
  function View(db: Db, tx: Tx): Space
    requires tx.Holding? && tx.ns in db
  {
    Space(tx.columns.next, tx.columns.bounds, tx.columns.active, db[tx.ns].entries + tx.writes)
  }

  /** Programs that lock the namespace they name; revocations look theirs up. */
  predicate NamesNamespace(p: Program) {
    p.AllocateBatch? || p.ChangeBounds? || p.Recompute?
  }

  predicate AdjustsRow(p: Program) {
    p.ChangeBounds? || p.Recompute?
  }

  function RowOp(p: Program): Op
    requires AdjustsRow(p)
  {
    match p
    case ChangeBounds(_, min, max, active) => Update(min, max, active)
    case Recompute(_) => Recalculate
  }

  /** Rows a revocation is about, read over the whole table. */
  function Targets(db: Db, p: Program): set<int> {
    match p
    case RevokeOneEntry(id) => if HomesOfEntry(db, id) == {} then {} else {id}
    case RevokeWhole(a) => set n, id | n in db && id in OfAllocation(db[n].entries, a) :: id
    case _ => {}
  }

  predicate TargetIn(db: Db, p: Program, n: int) {
    n in db && match p
      case RevokeOneEntry(id) => id in db[n].entries
      case RevokeWhole(a) => OfAllocation(db[n].entries, a) != {}
      case _ => false
  }

  /** The namespace the program names, or one its lookup may find. */
  predicate AtHome(db: Db, p: Program, n: int) {
    n in db && if NamesNamespace(p) then p.ns == n else TargetIn(db, p, n)
  }

  function WantedLock(tx: Tx): int
    requires !tx.Holding? && (tx.Begun? ==> NamesNamespace(tx.program))
  {
    if tx.Begun? then tx.program.ns else tx.ns
  }

  function NextGrant(st: State, tx: Tx): Result<(Space, int)>
    requires tx.Holding? && tx.ns in st.committed && tx.program.AllocateBatch?
  {
    Grant(View(st.committed, tx), tx.program.request, tx.token, st.counter)
  }

  function GrantedIds(tx: Tx): seq<int>
    requires tx.Holding?
  {
    if tx.progress.Granting? then tx.progress.ids else []
  }

  /** What the transaction answers when it commits: the values it inserted, in the order it did. */
  function ReplyOf(tx: Tx): Reply
    requires tx.Holding?
  {
    if tx.progress.Granting? then Allocation(tx.token, InsertedValues(tx.writes, tx.progress.ids)) else Changed
  }

  function InsertedValues(writes: Table, ids: seq<int>): seq<int> {
    seq(|ids|, i requires 0 <= i < |ids| => if ids[i] in writes then writes[ids[i]].value else 0)
  }

  function CommitRecord(tx: Tx): Record
    requires tx.Holding?
  {
    Record(tx.program, tx.token, GrantedIds(tx), ReplyOf(tx))
  }

  predicate Finished(tx: Tx) {
    tx.Holding? && (tx.progress.Pulled? || tx.progress.Adjusted? ||
                    (tx.progress.Granting? && tx.program.AllocateBatch? && |tx.progress.ids| == tx.program.count))
  }

  // ---------------------------------------------------------------- steps

  /** What the service lets through to the store. */
  predicate Acceptable(p: Program) {
    match p
    case AllocateBatch(_, _, count) => 0 < count
    case RevokeWhole(a) => a != NO_ALLOCATION
    case ChangeBounds(_, min, max, _) => BoundsOrdered(min, max)
    case _ => true
  }

  predicate Enabled(st: State, a: Action) {
    match a
    case Begin(t, p) => t !in st.txs && Acceptable(p)
    case Locate(t, n) => t in st.txs && st.txs[t].Begun? && TargetIn(st.committed, st.txs[t].program, n)
    case Acquire(t) =>
      t in st.txs && var tx := st.txs[t];
      && !tx.Holding? && (tx.Begun? ==> NamesNamespace(tx.program))
      && WantedLock(tx) in st.committed && WantedLock(tx) !in st.locks
      && (tx.program.AllocateBatch? ==> st.committed[WantedLock(tx)].active)
    case Insert(t) =>
      t in st.txs && var tx := st.txs[t];
      && tx.Holding? && tx.ns in st.committed && tx.program.AllocateBatch? && tx.progress.Granting?
      && |tx.progress.ids| < tx.program.count && NextGrant(st, tx).Ok?
    case Reread(t) =>
      t in st.txs && var tx := st.txs[t];
      && tx.Holding? && tx.ns in st.committed && tx.progress.Locked? && !NamesNamespace(tx.program)
      && !AnyDeprecated(View(st.committed, tx).entries, Targets(st.committed, tx.program))
    case RevokeRow(t, id) =>
      t in st.txs && var tx := st.txs[t];
      && tx.Holding? && tx.ns in st.committed && tx.progress.Revoking? && id in tx.progress.todo
      && id in View(st.committed, tx).entries
    case Release(t) =>
      t in st.txs && var tx := st.txs[t];
      tx.Holding? && tx.ns in st.committed && tx.progress.Revoking? && tx.progress.todo == {}
    case Adjust(t) =>
      t in st.txs && var tx := st.txs[t];
      && tx.Holding? && tx.ns in st.committed && tx.progress.Locked? && AdjustsRow(tx.program)
      && Apply(View(st.committed, tx), RowOp(tx.program)).1 == Done
    case Commit(t) => t in st.txs && Finished(st.txs[t]) && st.txs[t].ns in st.committed
    case Abort(t) => t in st.txs
  }

  function Unlock(st: State, tx: Tx): map<int, int> {
    if tx.Holding? then st.locks - {tx.ns} else st.locks
  }

  function WrittenValues(tx: Tx): set<int>
    requires tx.Holding?
  {
    set id | id in tx.writes :: tx.writes[id].value
  }

  /** The transaction after inserting one row and writing the cursor. */
  function Inserted(tx: Tx, id: int, value: int, next: int): Tx
    requires tx.Holding? && tx.program.AllocateBatch? && tx.progress.Granting?
  {
    var row := Entry(value, tx.program.request.symbol, tx.program.request.project, tx.token, Active);
    var columns := tx.columns.(next := next);
    Holding(tx.program, tx.token, tx.ns, columns, tx.writes[id := row], Granting(tx.progress.ids + [id]))
  }

  function PulledBack(tx: Tx): Tx
    requires tx.Holding? && tx.progress.Revoking?
  {
    var columns := tx.columns.(next := PullBack(tx.columns.next, WrittenValues(tx)));
    tx.(columns := columns, progress := Pulled(tx.progress.targets))
  }

  function Do(st: State, a: Action): State
    requires Enabled(st, a)
  {
    match a
    case Begin(t, p) => st.(txs := st.txs[t := Begun(p, st.counter)], counter := st.counter + 1)
    case Locate(t, n) => st.(txs := st.txs[t := Located(st.txs[t].program, st.txs[t].token, n)])
    case Acquire(t) =>
      var tx := st.txs[t];
      var n := WantedLock(tx);
      st.(locks := st.locks[n := t],
          txs := st.txs[t := Holding(tx.program, tx.token, n, ColumnsOf(st.committed[n]), map[],
                                     if tx.program.AllocateBatch? then Granting([]) else Locked)])
    case Insert(t) =>
      var (s', v) := NextGrant(st, st.txs[t]).value;
      st.(counter := st.counter + 1, txs := st.txs[t := Inserted(st.txs[t], st.counter, v, s'.next)])
    case Reread(t) =>
      var tx := st.txs[t];
      var ids := Targets(st.committed, tx.program);
      var rows := View(st.committed, tx).entries;
      var todo := set id | id in ids && id in rows && rows[id].status == Active;
      st.(txs := st.txs[t := tx.(progress := Revoking(ids, todo))])
    case RevokeRow(t, id) =>
      var tx := st.txs[t];
      var row := View(st.committed, tx).entries[id];
      st.(txs := st.txs[t := tx.(writes := tx.writes[id := row.(status := Revoked)],
                                 progress := tx.progress.(todo := tx.progress.todo - {id}))])
    case Release(t) =>
      var tx := st.txs[t];
      st.(txs := st.txs[t := PulledBack(tx)])
    case Adjust(t) =>
      var tx := st.txs[t];
      var s' := Apply(View(st.committed, tx), RowOp(tx.program)).0;
      st.(txs := st.txs[t := tx.(columns := ColumnsOf(s'), progress := Adjusted)])
    case Commit(t) =>
      var tx := st.txs[t];
      State(st.committed[tx.ns := View(st.committed, tx)], st.counter, Unlock(st, tx), st.txs - {t},
            st.log + [CommitRecord(tx)])
    case Abort(t) => st.(locks := Unlock(st, st.txs[t]), txs := st.txs - {t})
  }

  /** The state after a sequence of steps, if every step is possible. */
  function Path(st: State, actions: seq<Action>): Option<State>
    decreases |actions|
  {
    if actions == [] then Some(st) else
      match Path(st, actions[..|actions| - 1])
      case None => None
      case Some(mid) => if Enabled(mid, actions[|actions| - 1]) then Some(Do(mid, actions[|actions| - 1])) else None
  }

  // ---------------------------------------------------------------- the serial reference

  /** A committed transaction run alone: the tables after it, and its reply. */
  function Alone(db: Db, r: Record): (Db, Reply) {
    match r.program
    case AllocateBatch(n, q, _) =>
      var (sys', reply) := InNamespace(System(db, r.token), n, Batch(q, r.token, r.ids), 0);
      (sys'.db, reply)
    case RevokeOneEntry(id) =>
      var (sys', reply) := RevokeEntryIn(System(db, 0), id);
      (sys'.db, reply)
    case RevokeWhole(a) =>
      var (sys', reply) := RevokeAllocationIn(System(db, 0), a);
      (sys'.db, reply)
    case _ =>
      var (sys', reply) := InNamespace(System(db, 0), r.program.ns, RowOp(r.program), 0);
      (sys'.db, reply)
  }

  function Serial(db: Db, log: seq<Record>): Db
    decreases |log|
  {
    if log == [] then db else Alone(Serial(db, log[..|log| - 1]), log[|log| - 1]).0
  }

  // ---------------------------------------------------------------- the invariant

  predicate IdsFresh(db: Db, counter: int, ids: seq<int>) {
    forall i, n :: 0 <= i < |ids| && n in db ==> ids[i] < counter && ids[i] !in db[n].entries
  }

  function RevokedSoFar(rows: Table, ids: set<int>, todo: set<int>): Table
    requires ids <= rows.Keys
  {
    map id | id in ids && rows[id].status == Active && id !in todo :: rows[id].(status := Revoked)
  }

  /** Where a lock holder stands, as the sequential functions say it. */
  predicate InProgress(db: Db, counter: int, tx: Tx)
    requires tx.Holding? && tx.ns in db
  {
    var s := db[tx.ns];
    match tx.progress
    case Granting(ids) =>
      && tx.program.AllocateBatch? && tx.program.ns == tx.ns && |ids| <= tx.program.count
      && s.active && GrantMany(s, tx.program.request, tx.token, ids).Ok?
      && View(db, tx) == GrantMany(s, tx.program.request, tx.token, ids).value.0
      && tx.writes.Keys == Elements(ids) && IdsFresh(db, counter, ids)
    case Locked =>
      AtHome(db, tx.program, tx.ns) && !tx.program.AllocateBatch? && tx.writes == map[] && tx.columns == ColumnsOf(s)
    case Revoking(targets, todo) =>
      && TargetIn(db, tx.program, tx.ns) && targets == Targets(db, tx.program) && targets <= s.entries.Keys
      && !AnyDeprecated(s.entries, targets) && tx.columns == ColumnsOf(s)
      && todo <= (set id | id in targets && s.entries[id].status == Active)
      && tx.writes == RevokedSoFar(s.entries, targets, todo)
    case Pulled(targets) =>
      && TargetIn(db, tx.program, tx.ns) && targets == Targets(db, tx.program)
      && !AnyDeprecated(s.entries, targets) && View(db, tx) == Revoke(s, targets)
      && (forall id :: id in tx.writes ==> tx.writes[id].status == Revoked)
    case Adjusted =>
      && AdjustsRow(tx.program) && tx.program.ns == tx.ns && tx.writes == map[]
      && Apply(s, RowOp(tx.program)).1 == Done && View(db, tx) == Apply(s, RowOp(tx.program)).0
  }

  predicate TokenUnused(db: Db, token: int) {
    forall n, i :: n in db && i in db[n].entries ==> db[n].entries[i].allocation != token
  }

  predicate TxOk(db: Db, counter: int, tx: Tx) {
    && tx.token < counter && TokenUnused(db, tx.token) && Acceptable(tx.program)
    && match tx
       case Begun(_, _) => true
       case Located(p, _, n) => TargetIn(db, p, n)
       case Holding(_, _, n, _, _, _) => n in db && InProgress(db, counter, tx)
  }

  predicate LocksMatch(st: State) {
    && (forall t :: t in st.txs && st.txs[t].Holding? ==> st.txs[t].ns in st.locks && st.locks[st.txs[t].ns] == t)
    && (forall n :: n in st.locks ==>
      st.locks[n] in st.txs && st.txs[st.locks[n]].Holding? && st.txs[st.locks[n]].ns == n)
  }

  function DrawnIds(tx: Tx): set<int> {
    if tx.Holding? && tx.progress.Granting? then Elements(tx.progress.ids) else {}
  }

  predicate Separate(st: State) {
    forall t, u :: t in st.txs && u in st.txs && t != u ==>
      st.txs[t].token != st.txs[u].token && DrawnIds(st.txs[t]) !! DrawnIds(st.txs[u])
  }

  predicate AllTxOk(st: State) {
    forall t :: t in st.txs ==> TxOk(st.committed, st.counter, st.txs[t])
  }

  predicate Inv(start: Db, st: State) {
    && Consistent(System(st.committed, st.counter))
    && LocksMatch(st) && Separate(st)
    && AllTxOk(st)
    && st.committed == Serial(start, st.log)
  }

  function Initial(db: Db, counter: int): State {
    State(db, counter, map[], map[], [])
  }
}
