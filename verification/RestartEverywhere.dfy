/** Restarts of the whole registry: every cursor is recomputed, and no command's reply tells. */
module RestartEverywhere {
  import opened Basics
  import opened Candidates
  import opened Spaces
  import opened RoundTrip
  import opened Restart
  import opened Registry

  /** Registries that differ in nothing but cursors nobody can tell apart. */
  predicate AlikeAll(a: System, b: System) {
    a.counter == b.counter && a.db.Keys == b.db.Keys && forall n :: n in a.db ==> Alike(a.db[n], b.db[n])
  }

  /** Bounds stay, requesters own no range, and new namespaces start at 1 or above, or at their minimum. */
  predicate GlobalCommand(sys: System, c: Command) {
    match c
    case Create(_, start, min, _) => min.Some? || 1 <= start
    case Change(_, _, _, _) => false
    case Allocate(n, q, _) => n in sys.db ==> OwnsNothing(sys.db[n].bounds, q.project)
    case _ => true
  }

  predicate GlobalCommands(sys: System, cs: seq<Command>) {
    forall i :: 0 <= i < |cs| ==> GlobalCommand(ExecAll(sys, cs[..i]), cs[i])
  }

  /** The replies to everything but the restarts. */
  function Replies(sys: System, cs: seq<Command>): seq<Reply>
    decreases |cs|
  {
    if cs == [] then [] else
      var before, c := cs[..|cs| - 1], cs[|cs| - 1];
      Replies(sys, before) + (if c.Restart? then [] else [Exec(ExecAll(sys, before), c).1])
  }

  function Uninterrupted(cs: seq<Command>): seq<Command>
    decreases |cs|
  {
    if cs == [] then [] else
      Uninterrupted(cs[..|cs| - 1]) + (if cs[|cs| - 1].Restart? then [] else [cs[|cs| - 1]])
  }

  // ---------------------------------------------------------------- one command

  lemma InNamespaceAlike(a: System, b: System, n: int, op: Op, drawn: int)
    requires AlikeAll(a, b) && !op.Recalculate? && (n in a.db ==> GlobalOp(a.db[n].bounds, op))
    ensures InNamespace(a, n, op, drawn).1 == InNamespace(b, n, op, drawn).1
    ensures AlikeAll(InNamespace(a, n, op, drawn).0, InNamespace(b, n, op, drawn).0)
  {
    if n in a.db {
      AlikeStep(a.db[n], b.db[n], op);
    }
  }

  lemma SameEntries(a: System, b: System)
    requires AlikeAll(a, b)
    ensures forall n :: n in a.db ==> b.db[n].entries == a.db[n].entries
    ensures AllocationsTogether(a.db) ==> AllocationsTogether(b.db)
    ensures forall id :: HomesOfEntry(a.db, id) == HomesOfEntry(b.db, id)
    ensures forall token :: HomesOfAllocation(a.db, token) == HomesOfAllocation(b.db, token)
  {
    forall n | n in a.db ensures b.db[n].entries == a.db[n].entries {
      assert a.db[n].(next := 0) == b.db[n].(next := 0);
    }
  }

  lemma CreateAlike(a: System, b: System, n: int, start: int, min: Option<int>, max: Option<int>)
    requires AlikeAll(a, b) && (min.Some? || 1 <= start)
    ensures CreateIn(a, n, start, min, max).1 == CreateIn(b, n, start, min, max).1
    ensures AlikeAll(CreateIn(a, n, start, min, max).0, CreateIn(b, n, start, min, max).0)
  {
    var s := Space(start, Bounds(min, max, []), true, map[]);
    assert StartsPositive(s);
    assert Alike(s, s);
  }

  lemma AllocateAlike(a: System, b: System, n: int, q: Request, count: int)
    requires AlikeAll(a, b) && (n in a.db ==> OwnsNothing(a.db[n].bounds, q.project))
    ensures AllocateIn(a, n, q, count).1 == AllocateIn(b, n, q, count).1
    ensures AlikeAll(AllocateIn(a, n, q, count).0, AllocateIn(b, n, q, count).0)
  {
    if count > 0 {
      var op := BatchOf(a, q, count);
      assert BatchOf(b, q, count) == op;
      AllocateIs(a, n, q, count);
      AllocateIs(b, n, q, count);
      InNamespaceAlike(a, b, n, op, count + 1);
    }
  }

  lemma RevokeEntryAlike(a: System, b: System, id: int)
    requires AlikeAll(a, b)
    ensures RevokeEntryIn(a, id).1 == RevokeEntryIn(b, id).1
    ensures AlikeAll(RevokeEntryIn(a, id).0, RevokeEntryIn(b, id).0)
  {
    SameEntries(a, b);
    if HomesOfEntry(a.db, id) != {} {
      InNamespaceAlike(a, b, SetMin(HomesOfEntry(a.db, id)), RevokeOne(id), 0);
    }
  }

  lemma RevokeAllocationAlike(a: System, b: System, token: int)
    requires AlikeAll(a, b) && AllocationsTogether(a.db)
    ensures RevokeAllocationIn(a, token).1 == RevokeAllocationIn(b, token).1
    ensures AlikeAll(RevokeAllocationIn(a, token).0, RevokeAllocationIn(b, token).0)
  {
    SameEntries(a, b);
    RevokeAllocationIs(a, token);
    RevokeAllocationIs(b, token);
    if token != NO_ALLOCATION && HomesOfAllocation(a.db, token) != {} {
      InNamespaceAlike(a, b, SetMin(HomesOfAllocation(a.db, token)), RevokeBatch(token), 0);
    }
  }

  lemma ExecAlike(a: System, b: System, c: Command)
    requires AlikeAll(a, b) && AllocationsTogether(a.db) && GlobalCommand(a, c) && !c.Restart?
    ensures Exec(a, c).1 == Exec(b, c).1 && AlikeAll(Exec(a, c).0, Exec(b, c).0)
  {
    match c
    case Create(n, start, min, max) => CreateAlike(a, b, n, start, min, max);
    case Allocate(n, q, count) => AllocateAlike(a, b, n, q, count);
    case RevokeEntry(id) => RevokeEntryAlike(a, b, id);
    case RevokeAllocation(token) => RevokeAllocationAlike(a, b, token);
  }

  lemma RestartAlike(a: System, b: System)
    requires AlikeAll(a, b)
    ensures AlikeAll(Exec(a, Command.Restart).0, b)
  {
    forall n | n in a.db ensures Alike(Exec(a, Command.Restart).0.db[n], b.db[n]) {
      AlikeRecalculate(a.db[n], b.db[n]);
    }
  }

  // ---------------------------------------------------------------- runs

  lemma ExecAppend(sys: System, cs: seq<Command>, c: Command)
    ensures ExecAll(sys, cs + [c]) == Exec(ExecAll(sys, cs), c).0
    ensures Replies(sys, cs + [c]) == Replies(sys, cs) + (if c.Restart? then [] else [Exec(ExecAll(sys, cs), c).1])
  {
    assert (cs + [c])[..|cs|] == cs;
  }

  /** Runs that look alike go on looking alike, one of them without its restarts. */
  predicate Unseen(sys: System, cs: seq<Command>, other: seq<Command>) {
    Replies(sys, cs) == Replies(sys, other) && AlikeAll(ExecAll(sys, cs), ExecAll(sys, other))
  }

  lemma UnseenRestart(sys: System, cs: seq<Command>, other: seq<Command>)
    requires Unseen(sys, cs, other)
    ensures Unseen(sys, cs + [Command.Restart], other)
  {
    ExecAppend(sys, cs, Command.Restart);
    RestartAlike(ExecAll(sys, cs), ExecAll(sys, other));
  }

  lemma UnseenCommand(sys: System, cs: seq<Command>, other: seq<Command>, c: Command)
    requires Unseen(sys, cs, other) && !c.Restart?
    requires AllocationsTogether(ExecAll(sys, cs).db) && GlobalCommand(ExecAll(sys, cs), c)
    ensures Unseen(sys, cs + [c], other + [c])
  {
    ExecAppend(sys, cs, c);
    ExecAppend(sys, other, c);
    ExecAlike(ExecAll(sys, cs), ExecAll(sys, other), c);
  }

  /** Restarts inserted anywhere into a run of creations, global allocations and revocations change no
      reply, in a registry whose cursors hide nothing, such as an empty one. */
  lemma {:induction false} RestartsUnseen(sys: System, cs: seq<Command>)
    requires Consistent(sys) && AlikeAll(sys, sys) && GlobalCommands(sys, cs)
    ensures Unseen(sys, cs, Uninterrupted(cs))
    decreases |cs|
  {
    if cs != [] {
      var before, c := cs[..|cs| - 1], cs[|cs| - 1];
      assert cs == before + [c];
      GlobalPrefix(sys, before, c);
      RestartsUnseen(sys, before);
      RunsStayConsistent(sys, before);
      if c.Restart? {
        UnseenRestart(sys, before, Uninterrupted(before));
        assert Uninterrupted(cs) == Uninterrupted(before);
      } else {
        UnseenCommand(sys, before, Uninterrupted(before), c);
      }
    }
  }

  lemma GlobalPrefix(sys: System, before: seq<Command>, c: Command)
    requires GlobalCommands(sys, before + [c])
    ensures GlobalCommands(sys, before) && GlobalCommand(ExecAll(sys, before), c)
  {
    var cs := before + [c];
    assert cs[..|before|] == before;
    assert forall i :: 0 <= i < |before| ==> before[i] == cs[i] && before[..i] == cs[..i];
  }
}
