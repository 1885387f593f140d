/**
  What each command does to the rows and columns of the store, and what it answers: the requests of its
  caller on one side, the tables on the other.
 */
module CommandRules {
  import opened Basics
  import opened Ranges
  import opened Candidates
  import opened Spaces
  import opened NamespaceRules
  import opened RoundTrip
  import opened Registry

  /** Namespaces other than `n` are there as before. */
  predicate ElsewhereSame(db: Db, db': Db, n: int) {
    && (forall m :: m in db && m != n ==> m in db' && db'[m] == db[m])
    && (forall m :: m in db' && m != n ==> m in db)
  }

  // ---------------------------------------------------------------- the cases of an allocation

  /** What is answered and stored for a batch, committed or not. */
  function Booked(sys: System, n: int, count: int, batch: Result<(Space, seq<int>)>): (System, Reply) {
    match batch
    case Err(e) => (sys, Refused(e))
    case Ok((s', values)) => (System(sys.db[n := s'], sys.counter + count + 1), Allocation(sys.counter, values))
  }

  lemma AllocateBooks(sys: System, n: int, q: Request, count: int)
    requires 0 < count && n in sys.db && sys.db[n].active
    ensures var batch := GrantMany(sys.db[n], q, sys.counter, Drawn(sys.counter + 1, count));
      Exec(sys, Allocate(n, q, count)) == Booked(sys, n, count, batch)
  {
    hide GrantMany;
    AllocateIs(sys, n, q, count);
    assert BatchOf(sys, q, count).ids != [];
  }

  lemma AllocateDeclined(sys: System, n: int, q: Request, count: int)
    requires !(0 < count && n in sys.db && sys.db[n].active)
    ensures Exec(sys, Allocate(n, q, count)) ==
      (sys, Refused(if count <= 0 then Invalid else if n !in sys.db then NotFound else NotActive))
  {
    if 0 < count {
      AllocateIs(sys, n, q, count);
      assert Drawn(sys.counter + 1, count) != [];
    }
  }

  // ---------------------------------------------------------------- creating a namespace

  predicate StartInside(start: int, min: Option<int>, max: Option<int>) {
    BoundsOrdered(min, max) && (min.Some? ==> min.value <= start) && (max.Some? ==> start <= max.value)
  }

  /** Refused for unordered bounds, a start outside them or an id in use, and for nothing else; otherwise an
      empty active namespace with those bounds is added. */
  lemma CreateMeans(sys: System, n: int, start: int, min: Option<int>, max: Option<int>, sys': System, r: Reply)
    requires Exec(sys, Create(n, start, min, max)) == (sys', r)
    ensures !StartInside(start, min, max) ==> r == Refused(Invalid)
    ensures StartInside(start, min, max) && n in sys.db ==> r == Refused(Conflict)
    ensures StartInside(start, min, max) && n !in sys.db ==> r == Changed
    ensures r != Changed ==> sys' == sys
    ensures r == Changed ==>
      && sys'.counter == sys.counter && ElsewhereSame(sys.db, sys'.db, n) && n in sys'.db
      && sys'.db[n].entries == map[] && sys'.db[n].active
      && sys'.db[n].bounds == Bounds(min, max, []) && sys'.db[n].next == start
  {
  }

  lemma OneGlobalGrant(s: Space, q: Request, allocation: int, id: int)
    requires OwnsNothing(s.bounds, q.project) && id !in s.entries && !SymbolTaken(s.entries, q.symbol)
    requires NextGlobal(UsageOf(s.entries), s.bounds, s.next).Some?
    ensures GrantMany(s, q, allocation, [id]).Ok?
    ensures GrantMany(s, q, allocation, [id]).value.1 == [NextGlobal(UsageOf(s.entries), s.bounds, s.next).value]
  {
    NextGlobalGrant(s, q, allocation, id, NextGlobal(UsageOf(s.entries), s.bounds, s.next).value);
    assert [id][..0] == [];
    assert GrantMany(s, q, allocation, []) == Ok((s, []));
  }

  lemma FirstOfEmpty(s: Space)
    requires s.entries == map[] && s.bounds.ranges == [] && AboveMin(s.bounds, s.next) && BelowMax(s.bounds, s.next)
    ensures NextGlobal(UsageOf(s.entries), s.bounds, s.next) == Some(s.next)
  {
    var u := UsageOf(s.entries);
    NextGlobalMeans(u, s.bounds, s.next);
    assert Fresh(u, s.bounds, s.next, s.next);
  }

  /** The first value a new namespace hands out is the start it was created with. */
  lemma FirstAllocationIsStart(sys: System, n: int, start: int, min: Option<int>, max: Option<int>, sys': System)
    requires Exec(sys, Create(n, start, min, max)) == (sys', Changed)
    ensures Exec(sys', Allocate(n, Request("", ""), 1)).1 == Allocation(sys'.counter, [start])
  {
    CreateMeans(sys, n, start, min, max, sys', Changed);
    var s, q := sys'.db[n], Request("", "");
    var ids := Drawn(sys'.counter + 1, 1);
    assert ids == [sys'.counter + 1];
    FirstOfEmpty(s);
    OneGlobalGrant(s, q, sys'.counter, sys'.counter + 1);
    AllocateBooks(sys', n, q, 1);
  }

  // ---------------------------------------------------------------- changing bounds and status

  predicate NoLiveAbove(t: Table, max: int) {
    forall id :: id in t && t[id].status != Revoked ==> t[id].value <= max
  }

  /** Ordered bounds that cut off no range and have no live row above them. */
  predicate Accepts(s: Space, min: Option<int>, max: Option<int>) {
    && BoundsOrdered(min, max)
    && (min.Some? ==> forall i :: 0 <= i < |s.bounds.ranges| ==> min.value <= s.bounds.ranges[i].start)
    && (max.Some? ==> forall i :: 0 <= i < |s.bounds.ranges| ==> s.bounds.ranges[i].end <= max.value)
    && (max.Some? ==> NoLiveAbove(s.entries, max.value))
  }

  /** The requested bounds and status are in force, and a cursor below the minimum has moved up to it. */
  predicate Updated(s: Space, min: Option<int>, max: Option<int>, active: bool, s': Space) {
    && s'.bounds.min == min && s'.bounds.max == max && s'.active == active
    && s'.bounds.ranges == s.bounds.ranges && s'.entries == s.entries
    && s'.next == (if min.Some? && s.next < min.value then min.value else s.next)
  }

  lemma UpdateMeans(s: Space, min: Option<int>, max: Option<int>, active: bool, s': Space, o: Outcome)
    requires Apply(s, Update(min, max, active)) == (s', o)
    ensures o == Done <==> Accepts(s, min, max)
    ensures o == Done ==> Updated(s, min, max, active, s')
    ensures o != Done ==> s' == s && o == Failed(if BoundsOrdered(min, max) then Conflict else Invalid)
  {
    var b := Bounds(min, max, s.bounds.ranges);
    assert RangesWithin(b) <==>
      && (min.Some? ==> forall i :: 0 <= i < |s.bounds.ranges| ==> min.value <= s.bounds.ranges[i].start)
      && (max.Some? ==> forall i :: 0 <= i < |s.bounds.ranges| ==> s.bounds.ranges[i].end <= max.value);
    forall id | id in s.entries && s.entries[id].status != Revoked
      ensures s.entries[id].value in LiveValues(s.entries)
    {
    }
    assert LiveWithinMax(s.(bounds := b)) <==> (max.Some? ==> NoLiveAbove(s.entries, max.value));
  }

  /** A change is answered `Changed` exactly when the namespace exists and accepts the bounds. */
  lemma ChangeMeans(sys: System, n: int, min: Option<int>, max: Option<int>, active: bool, sys': System, r: Reply)
    requires Exec(sys, Change(n, min, max, active)) == (sys', r)
    ensures !BoundsOrdered(min, max) ==> r == Refused(Invalid)
    ensures BoundsOrdered(min, max) && n !in sys.db ==> r == Refused(NotFound)
    ensures BoundsOrdered(min, max) && n in sys.db ==>
      r == if Accepts(sys.db[n], min, max) then Changed else Refused(Conflict)
    ensures r != Changed ==> sys' == sys
    ensures r == Changed ==>
      && sys'.counter == sys.counter && ElsewhereSame(sys.db, sys'.db, n)
      && n in sys.db && n in sys'.db && Updated(sys.db[n], min, max, active, sys'.db[n])
  {
    if BoundsOrdered(min, max) && n in sys.db {
      var (s', o) := Apply(sys.db[n], Update(min, max, active));
      UpdateMeans(sys.db[n], min, max, active, s', o);
    }
  }

  lemma {:induction false} BatchReasons(s: Space, q: Request, allocation: int, ids: seq<int>)
    ensures var r := GrantMany(s, q, allocation, ids); r.Err? ==> r.error in {Exhausted, Conflict}
    decreases |ids|
  {
    if ids != [] {
      var before := ids[..|ids| - 1];
      BatchReasons(s, q, allocation, before);
      BatchIsExtended(s, q, allocation, ids);
      if GrantMany(s, q, allocation, before).Ok? {
        ValueKeyNeverHit(GrantMany(s, q, allocation, before).value.0, q, allocation, ids[|ids| - 1]);
      }
    }
  }

  /** After an accepted change to inactive every allocation is refused as such, after one to active none is. */
  lemma StatusDecides(sys: System, n: int, min: Option<int>, max: Option<int>, active: bool, sys': System,
                      q: Request, count: int)
    requires Exec(sys, Change(n, min, max, active)) == (sys', Changed) && 0 < count
    ensures Exec(sys', Allocate(n, q, count)).1 == Refused(NotActive) <==> !active
  {
    ChangeMeans(sys, n, min, max, active, sys', Changed);
    if active {
      var ids := Drawn(sys'.counter + 1, count);
      AllocateBooks(sys', n, q, count);
      BatchReasons(sys'.db[n], q, sys'.counter, ids);
    } else {
      AllocateDeclined(sys', n, q, count);
    }
  }

  // ---------------------------------------------------------------- recalculating cursors

  /** The cursor is what a search from the minimum, else from 1, finds; when it finds nothing, one past the
      maximum, else where it started. Nothing else changes, and an empty namespace keeps its cursor. */
  ghost predicate RecalculatedFrom(s: Space, s': Space) {
    && s'.entries == s.entries && s'.bounds == s.bounds && s'.active == s.active
    && if s.entries == map[] then s'.next == s.next else
         var start := if s.bounds.min.Some? then s.bounds.min.value else 1;
         exists r :: Finds(UsageOf(s.entries), s.bounds, start, r) &&
           s'.next == match r
             case Some(v) => v
             case None => if s.bounds.max.Some? then s.bounds.max.value + 1 else start
  }

  lemma RecalculateMeans(s: Space, s': Space, o: Outcome)
    requires Apply(s, Recalculate) == (s', o)
    ensures o == Done && RecalculatedFrom(s, s')
  {
    if |s.entries| == 0 {
      assert s.entries == map[];
    } else {
      var start := if s.bounds.min.Some? then s.bounds.min.value else 1;
      NextGlobalMeans(UsageOf(s.entries), s.bounds, start);
    }
  }

  /** A restart recalculates every namespace and does nothing else. */
  lemma RestartMeans(sys: System, sys': System, r: Reply)
    requires Exec(sys, Restart) == (sys', r)
    ensures r == Changed && sys'.counter == sys.counter && sys'.db.Keys == sys.db.Keys
    ensures forall n :: n in sys.db ==> RecalculatedFrom(sys.db[n], sys'.db[n])
  {
    forall n | n in sys.db ensures RecalculatedFrom(sys.db[n], sys'.db[n]) {
      var (s', o) := Apply(sys.db[n], Recalculate);
      RecalculateMeans(sys.db[n], s', o);
    }
  }

  // ---------------------------------------------------------------- single grants

  /** A free value of a range that names the project. */
  predicate OwnedFree(s: Space, project: string, v: int) {
    v !in LiveValues(s.entries) && NamedBy(s.bounds.ranges, v, project)
  }

  /** The least free value the project owns; if it owns none, what a search from the cursor finds. */
  ghost predicate Takes(s: Space, project: string, r: Option<int>) {
    if exists v :: OwnedFree(s, project, v)
    then r.Some? && OwnedFree(s, project, r.value) && forall v :: OwnedFree(s, project, v) ==> r.value <= v
    else Finds(UsageOf(s.entries), s.bounds, s.next, r)
  }

  lemma ChosenMeans(s: Space, project: string)
    ensures var c := Chosen(s, project);
      && Takes(s, project, if c.NoValue? then None else Some(c.value))
      && (c.Own? <==> exists v :: OwnedFree(s, project, v))
  {
    var own := OwnFree(LiveValues(s.entries), s.bounds.ranges, project);
    forall v ensures v in own <==> OwnedFree(s, project, v) {
      OwnFreeMeans(LiveValues(s.entries), s.bounds.ranges, project, v);
    }
    if own == {} {
      NextGlobalMeans(UsageOf(s.entries), s.bounds, s.next);
    } else {
      var v := Member(own);
      assert OwnedFree(s, project, v);
    }
  }

  /** One ACTIVE row is added with the value taken. The cursor stays put when the value was owned and lay below
      it; else it is what a search past the value finds, or just past the value. */
  ghost predicate GrantStep(s: Space, q: Request, token: int, id: int, v: int, s': Space) {
    && Takes(s, q.project, Some(v))
    && id !in s.entries && s'.entries == s.entries[id := Entry(v, q.symbol, q.project, token, Active)]
    && s'.bounds == s.bounds && s'.active == s.active
    && if OwnedFree(s, q.project, v) && v < s.next then s'.next == s.next else
         exists r :: Finds(UsageOf(s'.entries), s.bounds, v + 1, r) && s'.next == if r.Some? then r.value else v + 1
  }

  lemma GrantMeans(s: Space, q: Request, token: int, id: int, s': Space, v: int)
    requires Grant(s, q, token, id) == Ok((s', v))
    ensures GrantStep(s, q, token, id, v, s')
  {
    GrantFacts(s, q, token, id);
    ChosenMeans(s, q.project);
    NextGlobalMeans(UsageOf(s'.entries), s.bounds, v + 1);
  }

  // ---------------------------------------------------------------- allocating a batch

  /** The ids of the rows with that token, in order, and what those rows hold. */
  predicate RowsAre(t: Table, token: int, count: int, values: seq<int>, q: Request) {
    var ids := Ordered(OfAllocation(t, token));
    && |ids| == count == |values|
    && forall i :: 0 <= i < |ids| ==> ids[i] in t && t[ids[i]] == Entry(values[i], q.symbol, q.project, token, Active)
  }

  lemma DrawnAreRows(s: Space, q: Request, token: int, count: int)
    requires 0 < count && OfAllocation(s.entries, token) == {}
    requires GrantMany(s, q, token, Drawn(token + 1, count)).Ok?
    ensures var (s', values) := GrantMany(s, q, token, Drawn(token + 1, count)).value;
      RowsAre(s'.entries, token, count, values, q)
  {
    var drawn := Drawn(token + 1, count);
    var s' := GrantMany(s, q, token, drawn).value.0;
    BatchRows(s, q, token, drawn);
    var ids := Ordered(OfAllocation(s'.entries, token));
    assert forall x :: x in ids <==> x in drawn;
    SameIncreasing(ids, drawn);
    BatchFrame(s, q, token, drawn);
  }

  /** Exactly the requested number of new rows, in id order with those values, each with the caller's symbol
      and project; every other row, the bounds and the status are as before. */
  predicate BatchAdded(s: Space, q: Request, token: int, count: int, values: seq<int>, s': Space) {
    && RowsAre(s'.entries, token, count, values, q) && Increasing(values)
    && (forall id :: id in s.entries ==> id in s'.entries && s'.entries[id] == s.entries[id])
    && (forall id :: id in s'.entries && id !in s.entries ==> s'.entries[id].allocation == token)
    && s'.bounds == s.bounds && s'.active == s.active
  }

  lemma BatchMeans(s: Space, q: Request, token: int, count: int, s': Space, values: seq<int>)
    requires 0 < count && OfAllocation(s.entries, token) == {}
    requires GrantMany(s, q, token, Drawn(token + 1, count)) == Ok((s', values))
    ensures BatchAdded(s, q, token, count, values, s')
  {
    var drawn := Drawn(token + 1, count);
    DrawnAreRows(s, q, token, count);
    BatchFrame(s, q, token, drawn);
    BatchGrows(s, q, token, drawn);
    forall id | id in s'.entries && id !in s.entries ensures s'.entries[id].allocation == token {
      var i :| 0 <= i < |drawn| && drawn[i] == id;
    }
  }

  lemma CounterIsUnused(sys: System, n: int)
    requires DrawnBelow(sys.db, sys.counter) && n in sys.db
    ensures OfAllocation(sys.db[n].entries, sys.counter) == {}
  {
    assert forall id :: id in sys.db[n].entries ==> sys.db[n].entries[id].allocation < sys.counter;
  }

  /** A granted allocation adds that batch under a token no row had, and changes no other namespace. */
  lemma AllocateMeans(sys: System, n: int, q: Request, count: int, sys': System, token: int, values: seq<int>)
    requires DrawnBelow(sys.db, sys.counter) && Exec(sys, Allocate(n, q, count)) == (sys', Allocation(token, values))
    ensures 0 < count && n in sys.db && n in sys'.db && sys.db[n].active && ElsewhereSame(sys.db, sys'.db, n)
    ensures forall m, id :: m in sys.db && id in sys.db[m].entries ==> sys.db[m].entries[id].allocation != token
    ensures BatchAdded(sys.db[n], q, token, count, values, sys'.db[n])
  {
    hide GrantMany;
    if !(0 < count && n in sys.db && sys.db[n].active) {
      AllocateDeclined(sys, n, q, count);
    } else {
      AllocateBooks(sys, n, q, count);
      CounterIsUnused(sys, n);
      BatchMeans(sys.db[n], q, token, count, sys'.db[n], values);
    }
  }

  /** One grant after the other, each in the namespace as the one before left it. */
  ghost predicate GrantSteps(stages: seq<Space>, q: Request, token: int, values: seq<int>) {
    && |stages| == |values| + 1
    && forall i :: 0 <= i < |values| ==> GrantStep(stages[i], q, token, token + 1 + i, values[i], stages[i + 1])
  }

  lemma StepsExtend(stages: seq<Space>, q: Request, token: int, values: seq<int>, v: int, s': Space)
    requires GrantSteps(stages, q, token, values)
    requires GrantStep(stages[|values|], q, token, token + 1 + |values|, v, s')
    ensures GrantSteps(stages + [s'], q, token, values + [v])
  {
    hide GrantStep;
  }

  lemma EmptyBatch(s: Space, q: Request, token: int)
    ensures GrantMany(s, q, token, []) == Ok((s, []))
  {
  }

  lemma {:induction false} BatchSteps(s: Space, q: Request, token: int, count: nat, s': Space, values: seq<int>)
    returns (stages: seq<Space>)
    requires GrantMany(s, q, token, Drawn(token + 1, count)) == Ok((s', values))
    ensures |values| == count && GrantSteps(stages, q, token, values) && stages[0] == s && stages[count] == s'
    decreases count
  {
    hide GrantMany, Grant, GrantStep;
    if count == 0 {
      EmptyBatch(s, q, token);
      assert Drawn(token + 1, 0) == [];
      stages := [s];
    } else {
      var ids := Drawn(token + 1, count);
      var s1, before, s2, v := BatchSplit(s, q, token, ids);
      assert ids[..count - 1] == Drawn(token + 1, count - 1);
      var earlier := BatchSteps(s, q, token, count - 1, s1, before);
      GrantMeans(s1, q, token, token + count, s2, v);
      StepsExtend(earlier, q, token, before, v, s2);
      stages := earlier + [s2];
    }
  }

  /** The values of an allocation, in order, are what grants one after the other take. */
  lemma AllocateSteps(sys: System, n: int, q: Request, count: int, sys': System, token: int, values: seq<int>)
    returns (stages: seq<Space>)
    requires Exec(sys, Allocate(n, q, count)) == (sys', Allocation(token, values))
    ensures n in sys.db && n in sys'.db && |values| == count && GrantSteps(stages, q, token, values)
    ensures stages[0] == sys.db[n] && stages[count] == sys'.db[n]
  {
    hide GrantMany, GrantSteps;
    if !(0 < count && n in sys.db && sys.db[n].active) {
      AllocateDeclined(sys, n, q, count);
    } else {
      AllocateBooks(sys, n, q, count);
      stages := BatchSteps(sys.db[n], q, token, count, sys'.db[n], values);
    }
  }

  predicate IdsNew(s: Space, ids: seq<int>) {
    (forall i :: 0 <= i < |ids| ==> ids[i] !in s.entries) && forall i, j :: 0 <= i < j < |ids| ==> ids[i] != ids[j]
  }

  /** Only a symbol makes a batch with new ids conflict: one in use, or one for more than one row. */
  lemma {:induction false} ConflictMeans(s: Space, q: Request, allocation: int, ids: seq<int>)
    requires IdsNew(s, ids) && GrantMany(s, q, allocation, ids) == Err(Conflict)
    ensures q.symbol != "" && (SymbolTaken(s.entries, q.symbol) || |ids| >= 2)
    decreases |ids|
  {
    BatchIsExtended(s, q, allocation, ids);
    var before, id := ids[..|ids| - 1], ids[|ids| - 1];
    if GrantMany(s, q, allocation, before).Err? {
      ConflictMeans(s, q, allocation, before);
    } else {
      BatchKeys(s, q, allocation, before);
      assert id !in before;
      ValueKeyNeverHit(GrantMany(s, q, allocation, before).value.0, q, allocation, id);
    }
  }

  lemma BatchRefusals(s: Space, q: Request, token: int, ids: seq<int>)
    requires IdsNew(s, ids) && ids != []
    ensures var batch := GrantMany(s, q, token, ids);
      && (batch.Ok? ==> !SymbolTaken(s.entries, q.symbol) && (|ids| >= 2 ==> q.symbol == ""))
      && (batch.Err? ==> batch.error in {Exhausted, Conflict})
      && (batch == Err(Conflict) ==> q.symbol != "" && (SymbolTaken(s.entries, q.symbol) || |ids| >= 2))
  {
    BatchReasons(s, q, token, ids);
    if GrantMany(s, q, token, ids).Ok? {
      SymbolFree(s, q, token, ids);
    } else if GrantMany(s, q, token, ids) == Err(Conflict) {
      ConflictMeans(s, q, token, ids);
    }
  }

  /** Every refusal of an allocation leaves the store alone and has one of these reasons; a symbol in use, or
      asked for twice, never gets a value. */
  lemma AllocateRefusals(sys: System, n: int, q: Request, count: int, sys': System, r: Reply)
    requires DrawnBelow(sys.db, sys.counter) && Exec(sys, Allocate(n, q, count)) == (sys', r)
    ensures !r.Allocation? ==> sys' == sys && r.Refused?
    ensures r == Refused(Invalid) <==> count <= 0
    ensures r == Refused(NotFound) <==> 0 < count && n !in sys.db
    ensures r == Refused(NotActive) <==> 0 < count && n in sys.db && !sys.db[n].active
    ensures n in sys.db && SymbolTaken(sys.db[n].entries, q.symbol) ==> !r.Allocation?
    ensures q.symbol != "" && count >= 2 ==> !r.Allocation?
    ensures r == Refused(Conflict) ==>
      n in sys.db && q.symbol != "" && (SymbolTaken(sys.db[n].entries, q.symbol) || count >= 2)
    ensures r.Refused? ==> r.error in {Invalid, NotFound, NotActive, Exhausted, Conflict}
  {
    if 0 < count && n in sys.db && sys.db[n].active {
      AllocateBooks(sys, n, q, count);
      BatchRefusals(sys.db[n], q, sys.counter, Drawn(sys.counter + 1, count));
    } else {
      AllocateDeclined(sys, n, q, count);
    }
  }

  /** One value without a conflicting symbol is refused as exhausted exactly when there is none to take. */
  lemma ExhaustedMeans(sys: System, n: int, q: Request)
    requires DrawnBelow(sys.db, sys.counter) && n in sys.db && sys.db[n].active
    ensures Exec(sys, Allocate(n, q, 1)).1 == Refused(Exhausted) <==> Takes(sys.db[n], q.project, None)
  {
    var s, id := sys.db[n], sys.counter + 1;
    assert Drawn(id, 1) == [id];
    AllocateBooks(sys, n, q, 1);
    assert [id][..0] == [];
    assert GrantMany(s, q, sys.counter, []) == Ok((s, []));
    BatchIsExtended(s, q, sys.counter, [id]);
    ValueKeyNeverHit(s, q, sys.counter, id);
    ChosenMeans(s, q.project);
  }

  // ---------------------------------------------------------------- revoking an entry

  /** That row is REVOKED and the cursor at most its value; every other row and column is as it was. */
  predicate EntryRevoked(s: Space, id: int, s': Space)
    requires id in s.entries
  {
    var e := s.entries[id];
    && s'.entries == s.entries[id := e.(status := Revoked)]
    && s'.bounds == s.bounds && s'.active == s.active
    && s'.next == if e.value < s.next then e.value else s.next
  }

  lemma RevokeOneMeans(s: Space, id: int)
    requires id in s.entries && s.entries[id].status == Active
    ensures EntryRevoked(s, id, Apply(s, RevokeOne(id)).0) && Apply(s, RevokeOne(id)).1 == Done
  {
    assert Released(s.entries, {id}) == {s.entries[id].value};
    assert MarkRevoked(s.entries, {id}) == s.entries[id := s.entries[id].(status := Revoked)];
  }

  lemma RevokeOneAgain(s: Space, id: int)
    requires id in s.entries && s.entries[id].status == Revoked
    ensures Apply(s, RevokeOne(id)) == (s, Done)
  {
    assert Released(s.entries, {id}) == {};
    assert MarkRevoked(s.entries, {id}) == s.entries;
  }

  /** An id in no namespace is not found; a DEPRECATED row is refused; a REVOKED one is left as it is; an
      ACTIVE one becomes REVOKED and releases its value. */
  lemma RevokeEntryMeans(sys: System, id: int, sys': System, r: Reply)
    requires IdsApart(sys.db) && Exec(sys, Command.RevokeEntry(id)) == (sys', r)
    ensures (forall n :: n in sys.db ==> id !in sys.db[n].entries) ==> r == Refused(NotFound) && sys' == sys
    ensures forall n :: n in sys.db && id in sys.db[n].entries ==>
      match sys.db[n].entries[id].status
      case Deprecated => r == Refused(Conflict) && sys' == sys
      case Revoked => r == Changed && sys' == sys
      case Active =>
        && r == Changed && sys'.counter == sys.counter && ElsewhereSame(sys.db, sys'.db, n)
        && n in sys'.db && EntryRevoked(sys.db[n], id, sys'.db[n])
  {
    var homes := HomesOfEntry(sys.db, id);
    if n :| n in sys.db && id in sys.db[n].entries {
      assert n in homes;
      assert homes == {n} by {
        assert forall m :: m in homes ==> m == n;
      }
      var s := sys.db[n];
      if s.entries[id].status == Active {
        RevokeOneMeans(s, id);
      } else if s.entries[id].status == Revoked {
        RevokeOneAgain(s, id);
        assert sys.db[n := s] == sys.db;
      }
    } else {
      assert homes == {};
    }
  }

  // ---------------------------------------------------------------- revoking an allocation

  predicate HasRow(s: Space, token: int) {
    exists id :: id in s.entries && s.entries[id].allocation == token
  }

  predicate HasDeprecatedRow(s: Space, token: int) {
    exists id :: id in s.entries && s.entries[id].allocation == token && s.entries[id].status == Deprecated
  }

  /** A row of the allocation that is still ACTIVE. */
  predicate ActiveRow(s: Space, token: int, id: int) {
    id in s.entries && s.entries[id].allocation == token && s.entries[id].status == Active
  }

  /** Exactly the ACTIVE rows of the allocation become REVOKED, and the cursor is the least of what it was
      and their values. */
  ghost predicate AllocationRevoked(s: Space, token: int, s': Space) {
    && s'.bounds == s.bounds && s'.active == s.active && s'.entries.Keys == s.entries.Keys
    && (forall id :: id in s.entries ==>
        s'.entries[id] == if ActiveRow(s, token, id) then s.entries[id].(status := Revoked) else s.entries[id])
    && s'.next <= s.next && (forall id :: ActiveRow(s, token, id) ==> s'.next <= s.entries[id].value)
    && (s'.next == s.next || exists id :: ActiveRow(s, token, id) && s'.next == s.entries[id].value)
  }

  lemma RevokeBatchMeans(s: Space, token: int)
    requires HasRow(s, token) && !HasDeprecatedRow(s, token)
    ensures Apply(s, RevokeBatch(token)).1 == Done && AllocationRevoked(s, token, Apply(s, RevokeBatch(token)).0)
  {
    var ids := OfAllocation(s.entries, token);
    var released := Released(s.entries, ids);
    var id :| id in s.entries && s.entries[id].allocation == token;
    assert id in ids;
    forall i | ActiveRow(s, token, i) ensures s.entries[i].value in released {
      assert i in ids;
    }
    if released != {} {
      var v := SetMin(released);
      var i :| i in ids && i in s.entries && s.entries[i].status == Active && s.entries[i].value == v;
      assert ActiveRow(s, token, i);
    }
  }

  lemma RevokeBatchRefused(s: Space, token: int)
    requires HasDeprecatedRow(s, token)
    ensures Apply(s, RevokeBatch(token)) == (s, Failed(Conflict))
  {
    var id :| id in s.entries && s.entries[id].allocation == token && s.entries[id].status == Deprecated;
    assert id in OfAllocation(s.entries, token);
  }

  lemma HasRowMeans(s: Space, token: int)
    ensures HasRow(s, token) <==> OfAllocation(s.entries, token) != {}
  {
    if HasRow(s, token) {
      var id :| id in s.entries && s.entries[id].allocation == token;
      assert id in OfAllocation(s.entries, token);
    } else if OfAllocation(s.entries, token) != {} {
      var id := Member(OfAllocation(s.entries, token));
    }
  }

  /** Without a token it is invalid, without rows not found, with a DEPRECATED row refused as a whole; else
      all its ACTIVE rows become REVOKED and release their values. */
  lemma RevokeAllocationMeans(sys: System, token: int, sys': System, r: Reply)
    requires AllocationsTogether(sys.db) && Exec(sys, Command.RevokeAllocation(token)) == (sys', r)
    ensures token == NO_ALLOCATION ==> r == Refused(Invalid) && sys' == sys
    ensures token != NO_ALLOCATION && (forall n :: n in sys.db ==> !HasRow(sys.db[n], token)) ==>
      r == Refused(NotFound) && sys' == sys
    ensures token != NO_ALLOCATION ==> forall n :: n in sys.db && HasRow(sys.db[n], token) ==>
      if HasDeprecatedRow(sys.db[n], token) then r == Refused(Conflict) && sys' == sys
      else && r == Changed && sys'.counter == sys.counter && ElsewhereSame(sys.db, sys'.db, n)
           && n in sys'.db && AllocationRevoked(sys.db[n], token, sys'.db[n])
  {
    hide Apply, OfAllocation, RevokeAllocationIn, HasRow, HasDeprecatedRow, AllocationRevoked, AllocationsTogether;
    var homes := HomesOfAllocation(sys.db, token);
    RevokeAllocationIs(sys, token);
    if token != NO_ALLOCATION {
      forall n | n in sys.db ensures HasRow(sys.db[n], token) <==> n in homes {
        HasRowMeans(sys.db[n], token);
      }
      if n :| n in sys.db && HasRow(sys.db[n], token) {
        HomeIsUnique(sys.db, token);
        if HasDeprecatedRow(sys.db[n], token) {
          RevokeBatchRefused(sys.db[n], token);
        } else {
          RevokeBatchMeans(sys.db[n], token);
        }
      } else {
        assert homes == {};
      }
    }
  }
}
