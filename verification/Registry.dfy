/** All namespaces together: the commands as functions on the stored state, and the whole-run
    theorems. */
module Registry {
  import opened Basics
  import opened Candidates
  import opened Spaces
  import opened NamespaceRules
  import opened RevocationRules

  type Db = map<int, Space>

  /** `counter` supplies entry ids and allocation tokens; nothing drawn from it was drawn before. */
  datatype System = System(db: Db, counter: int)

  datatype Command =
    | Create(ns: int, start: int, min: Option<int>, max: Option<int>)
    | Change(ns: int, min: Option<int>, max: Option<int>, active: bool)
    | Allocate(ns: int, request: Request, count: int)
    | RevokeEntry(id: int)
    | RevokeAllocation(allocation: int)
    | Restart

  datatype Reply = Allocation(token: int, values: seq<int>) | Changed | Refused(error: Error)

  // ---------------------------------------------------------------- lookups across namespaces

  function HomesOfEntry(db: Db, id: int): set<int> {
    set n | n in db && id in db[n].entries
  }

  function HomesOfAllocation(db: Db, allocation: int): set<int> {
    set n | n in db && OfAllocation(db[n].entries, allocation) != {}
  }

  function ReleasedEverywhere(db: Db, allocation: int): set<int> {
    set n, id | n in db && id in OfAllocation(db[n].entries, allocation) && db[n].entries[id].status == Active
      :: db[n].entries[id].value
  }

  predicate DeprecatedAnywhere(db: Db, allocation: int) {
    exists n :: n in db && AnyDeprecated(db[n].entries, OfAllocation(db[n].entries, allocation))
  }

  /** Every row of the allocation is revoked, wherever it is; one namespace's cursor is pulled back. */
  function RevokeEverywhere(db: Db, home: int, allocation: int): Db {
    map n | n in db :: Space(
      if n == home then PullBack(db[n].next, ReleasedEverywhere(db, allocation)) else db[n].next,
      db[n].bounds, db[n].active, MarkRevoked(db[n].entries, OfAllocation(db[n].entries, allocation)))
  }

  function WithAllocationRevoked(s: Space, allocation: int): Space {
    s.(entries := MarkRevoked(s.entries, OfAllocation(s.entries, allocation)))
  }

  function RecalculatedIn(db: Db, done: set<int>): Db {
    map n | n in db :: if n in done then Apply(db[n], Recalculate).0 else db[n]
  }

  function Drawn(first: int, count: int): (ids: seq<int>)
    requires 0 <= count
    ensures |ids| == count && forall i :: 0 <= i < count ==> ids[i] == first + i
  {
    seq(count, i => first + i)
  }

  // ---------------------------------------------------------------- commands

  function InNamespace(sys: System, n: int, op: Op, drawn: int): (System, Reply) {
    if n !in sys.db then (sys, Refused(NotFound)) else
      var (s', outcome) := Apply(sys.db[n], op);
      match outcome
      case Failed(e) => (sys, Refused(e))
      case Done => (System(sys.db[n := s'], sys.counter), Changed)
      case Granted(values) => (System(sys.db[n := s'], sys.counter + drawn), Allocation(sys.counter, values))
  }

  function BatchOf(sys: System, q: Request, count: int): Op
    requires 0 <= count
  {
    Batch(q, sys.counter, Drawn(sys.counter + 1, count))
  }

  function CreateIn(sys: System, n: int, start: int, min: Option<int>, max: Option<int>): (System, Reply) {
    if !BoundsOrdered(min, max) || (min.Some? && start < min.value) || (max.Some? && start > max.value) then
      (sys, Refused(Invalid))
    else if n in sys.db then (sys, Refused(Conflict))
    else (System(sys.db[n := Space(start, Bounds(min, max, []), true, map[])], sys.counter), Changed)
  }

  /** Unordered bounds are refused before the namespace is looked up. */
  function ChangeIn(sys: System, n: int, min: Option<int>, max: Option<int>, active: bool): (System, Reply) {
    if !BoundsOrdered(min, max) then (sys, Refused(Invalid)) else InNamespace(sys, n, Update(min, max, active), 0)
  }

  function AllocateIn(sys: System, n: int, q: Request, count: int): (System, Reply) {
    if count <= 0 then (sys, Refused(Invalid)) else InNamespace(sys, n, BatchOf(sys, q, count), count + 1)
  }

  function RevokeEntryIn(sys: System, id: int): (System, Reply) {
    var homes := HomesOfEntry(sys.db, id);
    if homes == {} then (sys, Refused(NotFound)) else InNamespace(sys, SetMin(homes), RevokeOne(id), 0)
  }

  function RevokeAllocationIn(sys: System, allocation: int): (System, Reply) {
    var homes := HomesOfAllocation(sys.db, allocation);
    if allocation == NO_ALLOCATION then (sys, Refused(Invalid))
    else if homes == {} then (sys, Refused(NotFound))
    else if DeprecatedAnywhere(sys.db, allocation) then (sys, Refused(Conflict))
    else (System(RevokeEverywhere(sys.db, SetMin(homes), allocation), sys.counter), Changed)
  }

  function Exec(sys: System, c: Command): (System, Reply) {
    match c
    case Create(n, start, min, max) => CreateIn(sys, n, start, min, max)
    case Change(n, min, max, active) => ChangeIn(sys, n, min, max, active)
    case Allocate(n, q, count) => AllocateIn(sys, n, q, count)
    case RevokeEntry(id) => RevokeEntryIn(sys, id)
    case RevokeAllocation(allocation) => RevokeAllocationIn(sys, allocation)
    case Restart => (System(RecalculatedIn(sys.db, sys.db.Keys), sys.counter), Changed)
  }

  function ExecAll(sys: System, cs: seq<Command>): System
    decreases |cs|
  {
    if cs == [] then sys else Exec(ExecAll(sys, cs[..|cs| - 1]), cs[|cs| - 1]).0
  }

  // ---------------------------------------------------------------- the invariant of the registry

  predicate IdsApart(db: Db) {
    forall n, m, id :: n in db && m in db && id in db[n].entries && id in db[m].entries ==> n == m
  }

  /** All entries of one allocation lie in one namespace; rows without an allocation may lie anywhere. */
  predicate AllocationsTogether(db: Db) {
    forall n, m, i, j :: (n in db && m in db && i in db[n].entries && j in db[m].entries
                          && db[n].entries[i].allocation != NO_ALLOCATION
                          && db[n].entries[i].allocation == db[m].entries[j].allocation) ==> n == m
  }

  predicate DrawnBelow(db: Db, counter: int) {
    forall n, id :: n in db && id in db[n].entries ==> id < counter && db[n].entries[id].allocation < counter
  }

  predicate AllUnique(db: Db) {
    forall n :: n in db ==> UniqueLive(db[n].entries)
  }

  predicate Consistent(sys: System) {
    && IdsApart(sys.db) && AllocationsTogether(sys.db) && AllUnique(sys.db)
    && DrawnBelow(sys.db, sys.counter) && NO_ALLOCATION < sys.counter
  }

  lemma HomeIsUnique(db: Db, allocation: int)
    requires AllocationsTogether(db) && allocation != NO_ALLOCATION && HomesOfAllocation(db, allocation) != {}
    ensures HomesOfAllocation(db, allocation) == {SetMin(HomesOfAllocation(db, allocation))}
  {
    var homes := HomesOfAllocation(db, allocation);
    var home := SetMin(homes);
    forall n | n in homes ensures n == home {
      var i := Member(OfAllocation(db[n].entries, allocation));
      var j := Member(OfAllocation(db[home].entries, allocation));
    }
  }

  /** With its entries together, revoking an allocation is a transaction of its one namespace. */
  lemma RevokeIsLocal(sys: System, allocation: int)
    requires AllocationsTogether(sys.db) && allocation != NO_ALLOCATION && HomesOfAllocation(sys.db, allocation) != {}
    ensures var home := SetMin(HomesOfAllocation(sys.db, allocation));
      Exec(sys, RevokeAllocation(allocation)) == InNamespace(sys, home, RevokeBatch(allocation), 0)
  {
    var db := sys.db;
    HomeIsUnique(db, allocation);
    var home := SetMin(HomesOfAllocation(db, allocation));
    var s := db[home];
    var ids := OfAllocation(s.entries, allocation);
    assert home in HomesOfAllocation(db, allocation);
    forall n | n in db && n != home ensures OfAllocation(db[n].entries, allocation) == {} {
      assert n !in HomesOfAllocation(db, allocation);
    }
    assert DeprecatedAnywhere(db, allocation) <==> AnyDeprecated(s.entries, ids);
    assert ReleasedEverywhere(db, allocation) == Released(s.entries, ids);
    forall n | n in db && n != home ensures MarkRevoked(db[n].entries, {}) == db[n].entries {
    }
    if !AnyDeprecated(s.entries, ids) {
      assert RevokeEverywhere(db, home, allocation) == db[home := Revoke(s, ids)];
    }
  }

  lemma AllocateIs(sys: System, n: int, q: Request, count: int)
    requires count > 0
    ensures AllocateIn(sys, n, q, count) == InNamespace(sys, n, BatchOf(sys, q, count), count + 1)
  {
  }

  /** A refused revocation changes nothing; any other is one namespace's transaction. */
  lemma RevokeAllocationIs(sys: System, token: int)
    requires AllocationsTogether(sys.db)
    ensures token == NO_ALLOCATION ==> RevokeAllocationIn(sys, token) == (sys, Refused(Invalid))
    ensures token != NO_ALLOCATION && HomesOfAllocation(sys.db, token) == {} ==>
      RevokeAllocationIn(sys, token) == (sys, Refused(NotFound))
    ensures token != NO_ALLOCATION && HomesOfAllocation(sys.db, token) != {} ==>
      var home := SetMin(HomesOfAllocation(sys.db, token));
      RevokeAllocationIn(sys, token) == InNamespace(sys, home, RevokeBatch(token), 0)
  {
    if token != NO_ALLOCATION && HomesOfAllocation(sys.db, token) != {} {
      RevokeIsLocal(sys, token);
    }
  }

  /** What a command is, seen from one namespace: at most one transaction. */
  function Seen(sys: System, c: Command, n: int): seq<Op> {
    match c
    case Create(_, _, _, _) => []
    case Change(m, min, max, active) => if m == n && BoundsOrdered(min, max) then [Update(min, max, active)] else []
    case Allocate(m, q, count) => if m == n && count > 0 then [BatchOf(sys, q, count)] else []
    case RevokeEntry(id) =>
      var homes := HomesOfEntry(sys.db, id);
      if homes != {} && SetMin(homes) == n then [RevokeOne(id)] else []
    case RevokeAllocation(allocation) =>
      var homes := HomesOfAllocation(sys.db, allocation);
      if allocation != NO_ALLOCATION && homes != {} && SetMin(homes) == n then [RevokeBatch(allocation)] else []
    case Restart => [Recalculate]
  }

  lemma RunOne(s: Space, op: Op)
    ensures Run(s, [op]) == Apply(s, op).0
  {
  }

  lemma FailedChangesNothing(s: Space, op: Op)
    ensures Apply(s, op).1.Failed? ==> Apply(s, op).0 == s
  {
  }

  lemma SeenFromNamespace(sys: System, n: int, m: int, op: Op, drawn: int)
    requires n in sys.db && m in sys.db
    ensures InNamespace(sys, m, op, drawn).0.db.Keys == sys.db.Keys
    ensures InNamespace(sys, m, op, drawn).0.db[n] == Run(sys.db[n], if m == n then [op] else [])
  {
  }

  /** A namespace changes only by its own transactions. */
  lemma ExecIsLocal(sys: System, c: Command, n: int)
    requires AllocationsTogether(sys.db) && n in sys.db
    ensures n in Exec(sys, c).0.db && Exec(sys, c).0.db[n] == Run(sys.db[n], Seen(sys, c, n))
  {
    match c
    case Create(_, _, _, _) =>
    case Change(m, min, max, active) =>
      if m in sys.db {
        SeenFromNamespace(sys, n, m, Update(min, max, active), 0);
      }
    case Allocate(m, q, count) =>
      if count > 0 && m in sys.db {
        SeenFromNamespace(sys, n, m, BatchOf(sys, q, count), count + 1);
      }
    case RevokeEntry(id) =>
      var homes := HomesOfEntry(sys.db, id);
      if homes != {} {
        assert SetMin(homes) in homes;
        SeenFromNamespace(sys, n, SetMin(homes), RevokeOne(id), 0);
      }
    case RevokeAllocation(allocation) =>
      var homes := HomesOfAllocation(sys.db, allocation);
      if allocation != NO_ALLOCATION && homes != {} {
        assert SetMin(homes) in homes;
        RevokeIsLocal(sys, allocation);
        SeenFromNamespace(sys, n, SetMin(homes), RevokeBatch(allocation), 0);
      }
    case Restart =>
      RunOne(sys.db[n], Recalculate);
  }

  lemma InNamespaceConsistent(sys: System, n: int, op: Op, drawn: int)
    requires Consistent(sys)
    requires op.Batch? ==> op.allocation == sys.counter && drawn == |op.ids| + 1
    requires op.Batch? ==> forall i :: 0 <= i < |op.ids| ==> op.ids[i] == sys.counter + 1 + i
    requires !op.Batch? ==> drawn == 0
    ensures Consistent(InNamespace(sys, n, op, drawn).0)
  {
    if n in sys.db {
      var s' := Apply(sys.db[n], op).0;
      ApplyUnique(sys.db[n], op);
      var counter := InNamespace(sys, n, op, drawn).0.counter;
      if op.Batch? && GrantMany(sys.db[n], op.request, op.allocation, op.ids).Ok? && op.ids != [] && sys.db[n].active {
        BatchGrew(sys, n, op.request, op.ids);
      } else {
        NoRowsAdded(sys.db[n], op);
      }
      RowsConsistent(sys, n, s', counter);
    }
  }

  /** A batch gains only rows with ids and a token drawn for it. */
  lemma BatchGrew(sys: System, n: int, q: Request, ids: seq<int>)
    requires Consistent(sys) && n in sys.db && GrantMany(sys.db[n], q, sys.counter, ids).Ok?
    requires forall i :: 0 <= i < |ids| ==> ids[i] == sys.counter + 1 + i
    ensures GrewFrom(sys.db, sys.db[n], GrantMany(sys.db[n], q, sys.counter, ids).value.0, sys.counter + |ids| + 1)
  {
    BatchFrame(sys.db[n], q, sys.counter, ids);
    var s' := GrantMany(sys.db[n], q, sys.counter, ids).value.0;
    forall id | id in s'.entries && id !in sys.db[n].entries
      ensures sys.counter < id <= sys.counter + |ids| && s'.entries[id].allocation == sys.counter
    {
      var i :| 0 <= i < |ids| && ids[i] == id;
    }
  }

  lemma NoRowsAdded(s: Space, op: Op)
    requires !Apply(s, op).1.Granted?
    ensures var s' := Apply(s, op).0;
      s'.entries.Keys == s.entries.Keys && forall id :: id in s.entries ==>
        s'.entries[id].allocation == s.entries[id].allocation
  {
  }

  /** An id and a token no stored row carries. */
  predicate Unused(db: Db, id: int, token: int) {
    forall n, i :: n in db && i in db[n].entries ==> i != id && db[n].entries[i].allocation != token
  }

  predicate GrewFrom(db: Db, s: Space, s': Space, counter: int) {
    && (forall id :: id in s.entries ==> id in s'.entries && s'.entries[id].allocation == s.entries[id].allocation)
    && (forall id :: id in s'.entries && id !in s.entries ==>
        id < counter && s'.entries[id].allocation < counter && Unused(db, id, s'.entries[id].allocation))
  }

  /** Replacing one namespace by one that kept its rows and gained only rows with unused ids and tokens. */
  lemma RowsConsistent(sys: System, n: int, s': Space, counter: int)
    requires Consistent(sys) && n in sys.db && UniqueLive(s'.entries) && sys.counter <= counter
    requires GrewFrom(sys.db, sys.db[n], s', counter)
    ensures Consistent(System(sys.db[n := s'], counter))
  {
  }

  lemma RevokeEntryConsistent(sys: System, id: int)
    requires Consistent(sys)
    ensures Consistent(RevokeEntryIn(sys, id).0)
  {
    if HomesOfEntry(sys.db, id) != {} {
      InNamespaceConsistent(sys, SetMin(HomesOfEntry(sys.db, id)), RevokeOne(id), 0);
    }
  }

  lemma RevokeAllocationConsistent(sys: System, allocation: int)
    requires Consistent(sys)
    ensures Consistent(RevokeAllocationIn(sys, allocation).0)
  {
    RevokeAllocationIs(sys, allocation);
    if allocation != NO_ALLOCATION && HomesOfAllocation(sys.db, allocation) != {} {
      InNamespaceConsistent(sys, SetMin(HomesOfAllocation(sys.db, allocation)), RevokeBatch(allocation), 0);
    }
  }

  lemma RecalculatedConsistent(sys: System, done: set<int>)
    requires Consistent(sys)
    ensures Consistent(System(RecalculatedIn(sys.db, done), sys.counter))
  {
    var db' := RecalculatedIn(sys.db, done);
    assert forall n :: n in sys.db ==> db'[n].entries == sys.db[n].entries;
  }

  lemma ExecConsistent(sys: System, c: Command)
    requires Consistent(sys)
    ensures Consistent(Exec(sys, c).0)
  {
    match c
    case Create(n, start, min, max) =>
    case Change(n, min, max, active) => InNamespaceConsistent(sys, n, Update(min, max, active), 0);
    case Allocate(n, q, count) =>
      if count > 0 {
        InNamespaceConsistent(sys, n, BatchOf(sys, q, count), count + 1);
      }
    case RevokeEntry(id) => RevokeEntryConsistent(sys, id);
    case RevokeAllocation(allocation) => RevokeAllocationConsistent(sys, allocation);
    case Restart => RecalculatedConsistent(sys, sys.db.Keys);
  }

  /** Whatever consistent state a run of commands starts from, values keep one holder, ids stay distinct
      and every allocation stays in one namespace. */
  lemma {:induction false} RunsStayConsistent(sys: System, cs: seq<Command>)
    requires Consistent(sys)
    ensures Consistent(ExecAll(sys, cs))
    decreases |cs|
  {
    if cs != [] {
      RunsStayConsistent(sys, cs[..|cs| - 1]);
      ExecConsistent(ExecAll(sys, cs[..|cs| - 1]), cs[|cs| - 1]);
    }
  }

  /** The transactions one namespace sees in a run. */
  function SeenInRun(sys: System, cs: seq<Command>, n: int): seq<Op>
    decreases |cs|
  {
    if cs == [] then [] else
      SeenInRun(sys, cs[..|cs| - 1], n) + Seen(ExecAll(sys, cs[..|cs| - 1]), cs[|cs| - 1], n)
  }

  lemma {:induction false} RunJoin(s: Space, a: seq<Op>, b: seq<Op>)
    ensures Run(s, a + b) == Run(Run(s, a), b)
    decreases |b|
  {
    if b == [] {
      assert a + b == a;
    } else {
      assert (a + b)[..|a + b| - 1] == a + b[..|b| - 1];
      RunJoin(s, a, b[..|b| - 1]);
    }
  }

  /** Any run of the registry is, for each namespace, a run of that namespace's own transactions: what
      holds of namespace runs holds of every namespace here. */
  lemma {:induction false} RunIsLocal(sys: System, cs: seq<Command>, n: int)
    requires Consistent(sys) && n in sys.db
    ensures n in ExecAll(sys, cs).db && ExecAll(sys, cs).db[n] == Run(sys.db[n], SeenInRun(sys, cs, n))
    decreases |cs|
  {
    if cs != [] {
      var before := cs[..|cs| - 1];
      RunIsLocal(sys, before, n);
      RunsStayConsistent(sys, before);
      ExecIsLocal(ExecAll(sys, before), cs[|cs| - 1], n);
      RunJoin(sys.db[n], SeenInRun(sys, before, n), Seen(ExecAll(sys, before), cs[|cs| - 1], n));
    }
  }

  /** In particular, reserved ranges stay with their projects and live values within the maximum. */
  lemma NamespacesKeepRules(sys: System, cs: seq<Command>, n: int)
    requires Consistent(sys) && n in sys.db
    ensures n in ExecAll(sys, cs).db
    ensures OnlyRightfulRowsAdded(sys.db[n].bounds.ranges, sys.db[n].entries, ExecAll(sys, cs).db[n].entries)
    ensures WithinMax(sys.db[n]) ==> WithinMax(ExecAll(sys, cs).db[n])
  {
    RunIsLocal(sys, cs, n);
    RunRightful(sys.db[n], SeenInRun(sys, cs, n));
    if WithinMax(sys.db[n]) {
      RunWithinMax(sys.db[n], SeenInRun(sys, cs, n));
    }
  }

  // ---------------------------------------------------------------- revoking a batch or its entries

  function EntryCommands(ids: seq<int>): seq<Command> {
    seq(|ids|, i requires 0 <= i < |ids| => RevokeEntry(ids[i]))
  }

  lemma EntryInHome(sys: System, home: int, id: int)
    requires IdsApart(sys.db) && home in sys.db && id in sys.db[home].entries
    ensures RevokeEntryIn(sys, id).0 == System(sys.db[home := Apply(sys.db[home], RevokeOne(id)).0], sys.counter)
  {
    assert home in HomesOfEntry(sys.db, id);
    assert forall n :: n in HomesOfEntry(sys.db, id) ==> n == home;
    FailedChangesNothing(sys.db[home], RevokeOne(id));
    assert sys.db[home := sys.db[home]] == sys.db;
  }

  /** Replacing a namespace by one with the same ids keeps ids apart. */
  lemma IdsStayApart(db: Db, home: int, s: Space)
    requires IdsApart(db) && home in db && s.entries.Keys == db[home].entries.Keys
    ensures IdsApart(db[home := s])
  {
  }

  lemma EntryCommandsAppend(sys: System, before: seq<int>, id: int)
    ensures ExecAll(sys, EntryCommands(before + [id])) == RevokeEntryIn(ExecAll(sys, EntryCommands(before)), id).0
  {
    assert EntryCommands(before + [id])[..|before|] == EntryCommands(before);
  }

  lemma RevokeEachKeys(s: Space, ids: seq<int>)
    requires forall i :: 0 <= i < |ids| ==> ids[i] in s.entries
    ensures RevokeEach(s, ids).entries.Keys == s.entries.Keys
  {
    EachIsAll(s, ids);
  }

  lemma {:induction false} EntriesInHome(sys: System, home: int, ids: seq<int>)
    requires IdsApart(sys.db) && home in sys.db && forall i :: 0 <= i < |ids| ==> ids[i] in sys.db[home].entries
    ensures ExecAll(sys, EntryCommands(ids)) == System(sys.db[home := RevokeEach(sys.db[home], ids)], sys.counter)
    decreases |ids|
  {
    if ids == [] {
      assert sys.db[home := sys.db[home]] == sys.db;
    } else {
      var before, id := ids[..|ids| - 1], ids[|ids| - 1];
      assert ids == before + [id];
      EntriesInHome(sys, home, before);
      EntryCommandsAppend(sys, before, id);
      RevokeEachKeys(sys.db[home], before);
      var s1 := RevokeEach(sys.db[home], before);
      IdsStayApart(sys.db, home, s1);
      EntryInHome(System(sys.db[home := s1], sys.counter), home, id);
      assert sys.db[home := s1][home := RevokeEach(sys.db[home], ids)] == sys.db[home := RevokeEach(sys.db[home], ids)];
    }
  }

  /** Revoking an allocation leaves the registry as revoking each of its entries would, in any order,
      exactly when it holds no DEPRECATED entry, or no ACTIVE one. */
  lemma AllocationRevokedAsEntries(sys: System, allocation: int, ids: seq<int>)
    requires IdsApart(sys.db) && AllocationsTogether(sys.db)
    requires allocation != NO_ALLOCATION && HomesOfAllocation(sys.db, allocation) != {}
    requires Elements(ids) == OfAllocation(sys.db[SetMin(HomesOfAllocation(sys.db, allocation))].entries, allocation)
    ensures var t := sys.db[SetMin(HomesOfAllocation(sys.db, allocation))].entries;
      (Exec(sys, RevokeAllocation(allocation)).0 == ExecAll(sys, EntryCommands(ids)))
        <==> (!AnyDeprecated(t, Elements(ids)) || !AnyActive(t, Elements(ids)))
  {
    var home := SetMin(HomesOfAllocation(sys.db, allocation));
    var s := sys.db[home];
    assert forall i :: 0 <= i < |ids| ==> ids[i] in Elements(ids);
    RevokeIsLocal(sys, allocation);
    EntriesInHome(sys, home, ids);
    BatchIsEachExactly(s, allocation, ids);
    FailedChangesNothing(s, RevokeBatch(allocation));
    var s1, s2 := Apply(s, RevokeBatch(allocation)).0, RevokeEach(s, ids);
    assert sys.db[home := s] == sys.db;
    assert Exec(sys, RevokeAllocation(allocation)).0.db == sys.db[home := s1];
    assert sys.db[home := s1][home] == s1 && sys.db[home := s2][home] == s2;
  }
}
