/** The store: tables that its methods update in place, each method one committed transaction. */
module Store {
  import opened Basics
  import opened Candidates
  import opened Spaces
  import opened Allocator
  import opened Registry

  // ---------------------------------------------------------------- the row loops of an allocation's revocation

  method AnyRefusedAnywhere(db: Db, allocation: int) returns (refused: bool)
    ensures refused <==> DeprecatedAnywhere(db, allocation)
  {
    var all := NamespaceIds(db);
    for i := 0 to |all|
      invariant forall j :: 0 <= j < i ==>
        !AnyDeprecated(db[all[j]].entries, OfAllocation(db[all[j]].entries, allocation))
    {
      var n := all[i];
      var targets := AllocationRows(db[n].entries, allocation);
      var here := AnyRefused(db[n].entries, targets);
      if here {
        return true;
      }
    }
    return false;
  }

  /** Rows of one allocation, in id order. */
  function AllocationRows(t: Table, allocation: int): (targets: seq<int>)
    ensures Elements(targets) == OfAllocation(t, allocation)
    ensures forall i :: 0 <= i < |targets| ==> targets[i] in t
  {
    var targets := Ordered(OfAllocation(t, allocation));
    assert forall i :: 0 <= i < |targets| ==> targets[i] in targets;
    targets
  }

  function Lesser(a: Option<int>, b: Option<int>): Option<int> {
    if a.None? || (b.Some? && b.value < a.value) then b else a
  }

  lemma LesserOfBoth(a: Option<int>, s: set<int>, b: Option<int>, t: set<int>)
    requires IsLeastReleased(a, s) && IsLeastReleased(b, t)
    ensures IsLeastReleased(Lesser(a, b), s + t)
  {
  }

  /** The tables after visiting the namespaces in the given order. */
  function RevokedOver(db: Db, order: seq<int>, allocation: int): Db
    requires forall i :: 0 <= i < |order| ==> order[i] in db
    decreases |order|
  {
    if order == [] then db else
      var n := order[|order| - 1];
      RevokedOver(db, order[..|order| - 1], allocation)[n := WithAllocationRevoked(db[n], allocation)]
  }

  function ReleasedOver(db: Db, order: seq<int>, allocation: int): set<int>
    requires forall i :: 0 <= i < |order| ==> order[i] in db
    decreases |order|
  {
    if order == [] then {} else
      var t := db[order[|order| - 1]].entries;
      ReleasedOver(db, order[..|order| - 1], allocation) + Released(t, OfAllocation(t, allocation))
  }

  lemma {:induction false} RevokedOverMeans(db: Db, order: seq<int>, allocation: int)
    requires forall i :: 0 <= i < |order| ==> order[i] in db
    ensures var db' := RevokedOver(db, order, allocation);
      db'.Keys == db.Keys && forall n :: n in db ==>
        db'[n] == if n in order then WithAllocationRevoked(db[n], allocation) else db[n]
    decreases |order|
  {
    if order != [] {
      RevokedOverMeans(db, order[..|order| - 1], allocation);
      assert order == order[..|order| - 1] + [order[|order| - 1]];
    }
  }

  lemma {:induction false} ReleasedOverMeans(db: Db, order: seq<int>, allocation: int)
    requires forall i :: 0 <= i < |order| ==> order[i] in db
    ensures forall v :: v in ReleasedOver(db, order, allocation) <==>
      exists n :: n in order && v in Released(db[n].entries, OfAllocation(db[n].entries, allocation))
    decreases |order|
  {
    if order != [] {
      var before, last := order[..|order| - 1], order[|order| - 1];
      ReleasedOverMeans(db, before, allocation);
      assert order == before + [last];
      assert forall n :: n in order <==> n in before || n == last;
    }
  }

  lemma ReleasedOverAll(db: Db, order: seq<int>, allocation: int)
    requires forall i :: 0 <= i < |order| ==> order[i] in db
    requires forall n :: n in db ==> n in order
    ensures ReleasedOver(db, order, allocation) == ReleasedEverywhere(db, allocation)
  {
    ReleasedOverMeans(db, order, allocation);
    forall v ensures v in ReleasedOver(db, order, allocation) <==> v in ReleasedEverywhere(db, allocation) {
      if v in ReleasedOver(db, order, allocation) {
        var n :| n in order && v in Released(db[n].entries, OfAllocation(db[n].entries, allocation));
        var id :| id in OfAllocation(db[n].entries, allocation) && db[n].entries[id].status == Active
          && db[n].entries[id].value == v;
      }
      if v in ReleasedEverywhere(db, allocation) {
        var n, id :| n in db && id in OfAllocation(db[n].entries, allocation)
          && db[n].entries[id].status == Active && db[n].entries[id].value == v;
        assert n in order && v in Released(db[n].entries, OfAllocation(db[n].entries, allocation));
      }
    }
  }

  method RevokeRowsOf(s: Space, allocation: int) returns (s': Space, least: Option<int>)
    ensures s' == WithAllocationRevoked(s, allocation)
    ensures IsLeastReleased(least, Released(s.entries, OfAllocation(s.entries, allocation)))
  {
    var entries, minReleased := RevokeLoop(s.entries, AllocationRows(s.entries, allocation));
    return s.(entries := entries), minReleased;
  }

  method RevokeRows(db: Db, order: seq<int>, allocation: int) returns (db': Db, minReleased: Option<int>)
    requires forall i :: 0 <= i < |order| ==> order[i] in db
    ensures db' == RevokedOver(db, order, allocation)
    ensures IsLeastReleased(minReleased, ReleasedOver(db, order, allocation))
  {
    db', minReleased := db, None;
    for i := 0 to |order|
      invariant db' == RevokedOver(db, order[..i], allocation)
      invariant IsLeastReleased(minReleased, ReleasedOver(db, order[..i], allocation))
    {
      var n := order[i];
      PrefixStep(order, i);
      var s', least := RevokeRowsOf(db[n], allocation);
      LesserOfBoth(minReleased, ReleasedOver(db, order[..i], allocation), least,
        Released(db[n].entries, OfAllocation(db[n].entries, allocation)));
      db' := db'[n := s'];
      minReleased := Lesser(minReleased, least);
    }
    assert order[..|order|] == order;
  }

  lemma RevokedEverywhere(db: Db, order: seq<int>, home: int, allocation: int, db': Db)
    requires forall i :: 0 <= i < |order| ==> order[i] in db
    requires (forall n :: n in db ==> n in order) && home in db
    requires home in RevokedOver(db, order, allocation)
    requires var all := RevokedOver(db, order, allocation);
      db' == all[home := all[home].(next := PullBack(db[home].next, ReleasedOver(db, order, allocation)))]
    ensures db' == RevokeEverywhere(db, home, allocation)
  {
    RevokedOverMeans(db, order, allocation);
    ReleasedOverAll(db, order, allocation);
  }

  /** Revoke every row of the allocation, then pull one namespace's cursor back. */
  method RevokeAndRelease(db: Db, home: int, allocation: int) returns (db': Db)
    requires home in db
    ensures db' == RevokeEverywhere(db, home, allocation)
  {
    var order := NamespaceIds(db);
    var minReleased;
    db', minReleased := RevokeRows(db, order, allocation);
    RevokedOverMeans(db, order, allocation);
    ghost var all := db';
    var next := db[home].next;
    if minReleased.Some? && minReleased.value < next {
      next := minReleased.value;
    }
    db' := db'[home := db'[home].(next := next)];
    RevokedEverywhere(db, order, home, allocation, db');
  }

  function BatchReply(sys: System, ns: int, r: Result<(Space, seq<int>)>, drawn: int): (System, Reply) {
    match r
    case Err(e) => (sys, Refused(e))
    case Ok((s', values)) => (System(sys.db[ns := s'], sys.counter + drawn), Allocation(sys.counter, values))
  }

  lemma BatchOutcome(sys: System, ns: int, q: Request, ids: seq<int>, drawn: int)
    requires ids != [] && ns in sys.db && sys.db[ns].active
    ensures InNamespace(sys, ns, Batch(q, sys.counter, ids), drawn)
      == BatchReply(sys, ns, GrantMany(sys.db[ns], q, sys.counter, ids), drawn)
  {
  }

  lemma AllocateRefused(sys: System, ns: int, q: Request, count: int)
    ensures count <= 0 ==> AllocateIn(sys, ns, q, count) == (sys, Refused(Invalid))
    ensures count > 0 && ns !in sys.db ==> AllocateIn(sys, ns, q, count) == (sys, Refused(NotFound))
    ensures count > 0 && ns in sys.db && !sys.db[ns].active ==>
      AllocateIn(sys, ns, q, count) == (sys, Refused(NotActive))
  {
  }

  /** The batch loop with a token and entry ids of its own. */
  method RunBatch(sys: System, ns: int, q: Request, count: int) returns (batch: Result<(Space, seq<int>)>)
    requires count > 0 && ns in sys.db && sys.db[ns].active
    ensures AllocateIn(sys, ns, q, count) == BatchReply(sys, ns, batch, count + 1)
  {
    var ids := Drawn(sys.counter + 1, count);
    AllocateIs(sys, ns, q, count);
    BatchOutcome(sys, ns, q, ids, count + 1);
    batch := GrantLoop(sys.db[ns], q, sys.counter, ids);
  }

  // ---------------------------------------------------------------- recomputing cursors one after the other

  function RecalculatedOver(db: Db, order: seq<int>): (db': Db)
    requires forall i :: 0 <= i < |order| ==> order[i] in db
    ensures db'.Keys == db.Keys
    decreases |order|
  {
    if order == [] then db else
      var before, n := RecalculatedOver(db, order[..|order| - 1]), order[|order| - 1];
      before[n := Apply(before[n], Recalculate).0]
  }

  lemma RecalculatedStep(db: Db, order: seq<int>, i: nat)
    requires i < |order| && forall j :: 0 <= j < |order| ==> order[j] in db
    ensures var before := RecalculatedOver(db, order[..i]);
      RecalculatedOver(db, order[..i + 1]) == before[order[i] := Apply(before[order[i]], Recalculate).0]
  {
    PrefixStep(order, i);
  }

  lemma {:induction false} RecalculatedOverMeans(db: Db, order: seq<int>)
    requires Increasing(order) && forall i :: 0 <= i < |order| ==> order[i] in db
    ensures RecalculatedOver(db, order) == RecalculatedIn(db, Elements(order))
    decreases |order|
  {
    if order == [] {
      assert Elements(order) == {};
    } else {
      var before, n := order[..|order| - 1], order[|order| - 1];
      RecalculatedOverMeans(db, before);
      assert order == before + [n];
      ElementsAppend(before, n);
      assert forall i :: 0 <= i < |before| ==> before[i] < n;
      RecalculateOneMore(db, Elements(before), n);
    }
  }

  function NamespaceIds(db: Db): (ids: seq<int>)
    ensures (forall i :: 0 <= i < |ids| ==> ids[i] in db) && forall n :: n in db ==> n in ids
  {
    var ids := Ordered(db.Keys);
    assert forall i :: 0 <= i < |ids| ==> ids[i] in ids;
    ids
  }

  lemma RecalculatedEverywhere(db: Db)
    ensures RecalculatedOver(db, NamespaceIds(db)) == RecalculatedIn(db, db.Keys)
  {
    RecalculatedOverMeans(db, NamespaceIds(db));
    assert Elements(NamespaceIds(db)) == db.Keys;
  }

  lemma RecalculatedAll(db: Db, counter: int, ids: seq<int>)
    requires ids == NamespaceIds(db)
    ensures RecalculatedOver(db, ids[..|ids|]) == RecalculatedIn(db, db.Keys)
    ensures Consistent(System(db, counter)) ==> Consistent(System(RecalculatedIn(db, db.Keys), counter))
  {
    assert ids[..|ids|] == ids;
    RecalculatedEverywhere(db);
    if Consistent(System(db, counter)) {
      RecalculatedConsistent(System(db, counter), db.Keys);
    }
  }

  lemma RecalculateOneMore(db: Db, done: set<int>, n: int)
    requires n in db && n !in done
    ensures RecalculatedIn(db, done + {n}) == RecalculatedIn(db, done)[n := Apply(db[n], Recalculate).0]
    ensures RecalculatedIn(db, done)[n] == db[n]
  {
  }

  lemma AllocateKeepsConsistent(sys: System, ns: int, q: Request, count: int)
    ensures Consistent(sys) ==> Consistent(AllocateIn(sys, ns, q, count).0)
  {
    KeepsConsistent(sys, Allocate(ns, q, count));
  }

  lemma KeepsConsistent(sys: System, c: Command)
    ensures Consistent(sys) ==> Consistent(Exec(sys, c).0)
  {
    if Consistent(sys) {
      ExecConsistent(sys, c);
    }
  }

  class TypeStore {
    var spaces: map<int, Space>
    var counter: int

    ghost function State(): System
      reads this
    {
      System(spaces, counter)
    }

    ghost predicate Valid()
      reads this
    {
      Consistent(State())
    }

    constructor ()
      ensures Valid() && State() == System(map[], 1)
    {
      spaces, counter := map[], 1;
    }

    method CreateNamespace(ns: int, start: int, min: Option<int>, max: Option<int>) returns (r: Reply)
      modifies this
      ensures (State(), r) == CreateIn(old(State()), ns, start, min, max)
      ensures old(Valid()) ==> Valid()
    {
      KeepsConsistent(State(), Create(ns, start, min, max));
      if !BoundsOrdered(min, max) || (min.Some? && start < min.value) || (max.Some? && start > max.value) {
        return Refused(Invalid);
      }
      if ns in spaces {
        return Refused(Conflict);
      }
      spaces := spaces[ns := Space(start, Bounds(min, max, []), true, map[])];
      return Changed;
    }

    method UpdateNamespace(ns: int, min: Option<int>, max: Option<int>, active: bool) returns (r: Reply)
      modifies this
      ensures (State(), r) == ChangeIn(old(State()), ns, min, max, active)
      ensures old(Valid()) ==> Valid()
    {
      KeepsConsistent(State(), Change(ns, min, max, active));
      if !BoundsOrdered(min, max) {
        return Refused(Invalid);
      }
      if ns !in spaces {
        return Refused(NotFound);
      }
      var s := spaces[ns];
      var b := Bounds(min, max, s.bounds.ranges);
      var fits := BoundsFit(s, b);
      if !fits {
        return Refused(Conflict);
      }
      var next := s.next;
      if min.Some? && next < min.value {
        next := min.value;
      }
      spaces := spaces[ns := Space(next, b, active, s.entries)];
      return Changed;
    }

    method AllocateBatch(ns: int, q: Request, count: int) returns (r: Reply)
      modifies this
      ensures (State(), r) == AllocateIn(old(State()), ns, q, count)
      ensures old(Valid()) ==> Valid()
    {
      AllocateKeepsConsistent(State(), ns, q, count);
      AllocateRefused(State(), ns, q, count);
      if count <= 0 {
        return Refused(Invalid);
      }
      if ns !in spaces {
        return Refused(NotFound);
      }
      if !spaces[ns].active {
        return Refused(NotActive);
      }
      var batch := RunBatch(System(spaces, counter), ns, q, count);
      if batch.Err? {
        return Refused(batch.error);
      }
      r := Allocation(counter, batch.value.1);
      spaces := spaces[ns := batch.value.0];
      counter := counter + count + 1;
    }

    method RevokeEntry(id: int) returns (r: Reply)
      modifies this
      ensures (State(), r) == RevokeEntryIn(old(State()), id)
      ensures old(Valid()) ==> Valid()
    {
      KeepsConsistent(State(), Command.RevokeEntry(id));
      var homes := HomesOfEntry(spaces, id);
      if homes == {} {
        return Refused(NotFound);
      }
      var ns := SetMin(homes);
      var s := spaces[ns];
      var e := s.entries[id];
      if e.status == Revoked {
        assert MarkRevoked(s.entries, {id}) == s.entries;
        assert Released(s.entries, {id}) == {};
        assert spaces[ns := s] == spaces;
        return Changed;
      }
      if e.status != Active {
        return Refused(Conflict);
      }
      var entries := s.entries[id := e.(status := Revoked)];
      assert MarkRevoked(s.entries, {id}) == entries;
      assert Released(s.entries, {id}) == {e.value};
      spaces := spaces[ns := s.(entries := entries, next := if s.next <= e.value then s.next else e.value)];
      return Changed;
    }

    /** All rows of the allocation, wherever they are, in one transaction; the cursor pulled back is
        that of the namespace the first lookup found. */
    method RevokeAllocation(allocation: int) returns (r: Reply)
      modifies this
      ensures (State(), r) == RevokeAllocationIn(old(State()), allocation)
      ensures old(Valid()) ==> Valid()
    {
      KeepsConsistent(State(), Command.RevokeAllocation(allocation));
      if allocation == NO_ALLOCATION {
        return Refused(Invalid);
      }
      var homes := HomesOfAllocation(spaces, allocation);
      if homes == {} {
        return Refused(NotFound);
      }
      var refused := AnyRefusedAnywhere(spaces, allocation);
      if refused {
        return Refused(Conflict);
      }
      var ns := SetMin(homes);
      assert ns in homes;
      spaces := RevokeAndRelease(spaces, ns, allocation);
      return Changed;
    }

    /** Startup: every namespace's cursor is recomputed, one transaction each. */
    method RecalculateAll()
      modifies this
      ensures spaces == RecalculatedIn(old(spaces), old(spaces).Keys) && counter == old(counter)
      ensures old(Valid()) ==> Valid()
    {
      ghost var before := spaces;
      var ids := NamespaceIds(spaces);
      for i := 0 to |ids|
        invariant counter == old(counter) && spaces == RecalculatedOver(before, ids[..i])
      {
        RecalculatedStep(before, ids, i);
        var r := RecalculateCursor(ids[i]);
      }
      RecalculatedAll(before, counter, ids);
    }

    method RecalculateCursor(ns: int) returns (r: Reply)
      modifies this
      ensures counter == old(counter)
      ensures ns in old(spaces) ==> r == Changed && spaces == old(spaces)[ns := Apply(old(spaces[ns]), Recalculate).0]
      ensures ns !in old(spaces) ==> r == Refused(NotFound) && spaces == old(spaces)
    {
      if ns !in spaces {
        return Refused(NotFound);
      }
      var s := spaces[ns];
      if |s.entries| == 0 {
        return Changed;
      }
      var start := if s.bounds.min.Some? then s.bounds.min.value else 1;
      var candidate := NextGlobalCandidate(s, start);
      var next := start;
      if candidate.Some? {
        next := candidate.value;
      } else if s.bounds.max.Some? {
        next := s.bounds.max.value + 1;
      }
      spaces := spaces[ns := s.(next := next)];
      return Changed;
    }
  }
}
