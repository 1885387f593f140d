/** Restarting recomputes every cursor. When can anybody tell? */
module Restart {
  import opened Basics
  import opened Ranges
  import opened Candidates
  import opened Spaces
  import opened NamespaceRules
  import opened CursorRules
  import opened RoundTrip

  /** The least unreserved value above everything registered, maximum aside. */
  function FirstFresh(u: Usage, b: Bounds): int
    requires u.ever != {}
  {
    LeastUnreserved(b.ranges, None, Floor(b, SetMax(u.ever) + 1)).value
  }

  /** A cursor that hides nothing: at or below every reusable value and the first fresh one. */
  predicate Faithful(u: Usage, b: Bounds, cursor: int)
    requires u.ever != {}
  {
    CursorCovers(u, b, cursor) && cursor <= FirstFresh(u, b)
  }

  lemma SkipReserved(ranges: seq<ReservedRange>, max: Option<int>, from: int, to: int)
    requires from <= to && forall v :: from <= v < to ==> Reserved(ranges, v)
    ensures LeastUnreserved(ranges, max, from) == LeastUnreserved(ranges, max, to)
  {
  }

  /** All faithful cursors find the same value. */
  lemma FaithfulAgree(u: Usage, b: Bounds, k1: int, k2: int)
    requires u.live <= u.ever && u.ever != {} && Faithful(u, b, k1) && Faithful(u, b, k2)
    ensures NextGlobal(u, b, k1) == NextGlobal(u, b, k2)
  {
    FaithfulFinds(u, b, k1);
    FaithfulFinds(u, b, k2);
  }

  lemma FaithfulFinds(u: Usage, b: Bounds, k: int)
    requires u.live <= u.ever && u.ever != {} && Faithful(u, b, k)
    ensures NextGlobal(u, b, k) ==
      if PendingInBounds(u, b) != {} then Some(SetMin(PendingInBounds(u, b)))
      else LeastUnreserved(b.ranges, b.max, Floor(b, SetMax(u.ever) + 1))
  {
    ReusableIsPending(u, b, k);
    var from := Floor(b, SetMax(u.ever) + 1);
    var to := AboveHighWater(u, Floor(b, k));
    assert from <= to <= FirstFresh(u, b) || to == from;
    SkipReserved(b.ranges, b.max, from, to);
  }

  lemma FreshIsFirstFresh(u: Usage, b: Bounds, start: int)
    requires u.ever != {} && Floor(b, start) <= Floor(b, SetMax(u.ever) + 1)
    requires Reusable(u, b, Floor(b, start)) == {}
    ensures var r := NextGlobal(u, b, start);
      if r.Some? then r.value == FirstFresh(u, b) else b.max.Some? && b.max.value < FirstFresh(u, b)
  {
  }

  /** Past a registered value at most the first fresh one is found. */
  lemma PastBelowFirstFresh(u: Usage, b: Bounds, c: int)
    requires c in u.ever
    ensures Past(u, b, c) <= FirstFresh(u, b)
  {
  }

  lemma FaithfulAfterGrant(u: Usage, b: Bounds, cursor: int, c: int)
    requires u.live <= u.ever && (u.ever != {} ==> Faithful(u, b, cursor))
    requires NextGlobal(u, b, cursor) == Some(c)
    ensures Faithful(Register(u, c), b, Past(Register(u, c), b, c))
  {
    assert u.ever == {} ==> Pending(u, b) == {};
    CursorAfterGlobal(u, b, cursor, c);
    PastBelowFirstFresh(Register(u, c), b, c);
  }

  predicate AllPositive(s: set<int>) {
    forall v :: v in s ==> 1 <= v
  }

  lemma FaithfulAfterRecompute(u: Usage, b: Bounds)
    requires u.live <= u.ever && u.ever != {} && (b.min.Some? || AllPositive(u.ever))
    ensures Faithful(u, b, Recomputed(u, b))
  {
    RecomputedCovers(u, b);
    var start := if b.min.Some? then b.min.value else 1;
    var m := Member(u.ever);
    if Reusable(u, b, Floor(b, start)) == {} {
      FreshIsFirstFresh(u, b, start);
    } else {
      assert Recomputed(u, b) in Reusable(u, b, Floor(b, start));
    }
  }

  // ---------------------------------------------------------------- two registries that differ in their cursors

  /** Nothing a global allocation will ever issue lies below 1, unless a minimum is set. */
  predicate StartsPositive(s: Space) {
    s.bounds.min.Some? ||
      var first := LeastUnreserved(s.bounds.ranges, s.bounds.max, s.next);
      first.None? || 1 <= first.value
  }

  predicate FaithfulSpace(s: Space) {
    var u := UsageOf(s.entries);
    u.ever != {} && Faithful(u, s.bounds, s.next) && (s.bounds.min.Some? || AllPositive(u.ever))
  }

  /** Same rows, same entries, and cursors nobody can tell apart. */
  predicate Alike(s1: Space, s2: Space) {
    s1.(next := 0) == s2.(next := 0)
    && if |s1.entries| == 0 then s1.next == s2.next && StartsPositive(s1) else FaithfulSpace(s1) && FaithfulSpace(s2)
  }

  lemma AlikeFinds(s1: Space, s2: Space)
    requires Alike(s1, s2)
    ensures NextGlobal(UsageOf(s1.entries), s1.bounds, s1.next) == NextGlobal(UsageOf(s2.entries), s2.bounds, s2.next)
  {
    EmptyUsage(s1.entries);
    if |s1.entries| != 0 {
      FaithfulAgree(UsageOf(s1.entries), s1.bounds, s1.next, s2.next);
    }
  }

  lemma GrantStaysFaithful(s: Space, q: Request, allocation: int, id: int)
    requires if |s.entries| == 0 then StartsPositive(s) else FaithfulSpace(s)
    requires OwnsNothing(s.bounds, q.project) && Grant(s, q, allocation, id).Ok?
    ensures FaithfulSpace(Grant(s, q, allocation, id).value.0)
  {
    var u := UsageOf(s.entries);
    EmptyUsage(s.entries);
    OwnsNothingChoosesGlobally(s, q.project);
    GrantFacts(s, q, allocation, id);
    var v := Grant(s, q, allocation, id).value.1;
    FaithfulAfterGrant(u, s.bounds, s.next, v);
    NextGlobalSound(u, s.bounds, s.next);
    if s.bounds.min.None? && u.ever != {} && v !in u.ever {
      var x := Member(u.ever);
      assert x < v;
    }
    if s.bounds.min.None? && u.ever == {} {
      assert Reusable(u, s.bounds, Floor(s.bounds, s.next)) == {};
    }
  }

  lemma AlikeGrant(s1: Space, s2: Space, q: Request, allocation: int, id: int)
    requires Alike(s1, s2) && OwnsNothing(s1.bounds, q.project)
    ensures var r1, r2 := Grant(s1, q, allocation, id), Grant(s2, q, allocation, id);
      if r1.Ok? then r2.Ok? && r1.value.1 == r2.value.1 && Alike(r1.value.0, r2.value.0) else r1 == r2
  {
    AlikeFinds(s1, s2);
    OwnsNothingChoosesGlobally(s1, q.project);
    OwnsNothingChoosesGlobally(s2, q.project);
    assert s1.entries == s2.entries && s1.bounds == s2.bounds && s1.active == s2.active;
    assert Chosen(s1, q.project) == Chosen(s2, q.project);
    if Grant(s1, q, allocation, id).Ok? {
      GrantStaysFaithful(s1, q, allocation, id);
      GrantStaysFaithful(s2, q, allocation, id);
      EmptyUsage(Grant(s1, q, allocation, id).value.0.entries);
    }
  }

  lemma {:induction false} AlikeBatch(s1: Space, s2: Space, q: Request, allocation: int, ids: seq<int>)
    requires Alike(s1, s2) && OwnsNothing(s1.bounds, q.project)
    ensures var r1, r2 := GrantMany(s1, q, allocation, ids), GrantMany(s2, q, allocation, ids);
      if r1.Ok? then r2.Ok? && r1.value.1 == r2.value.1 && Alike(r1.value.0, r2.value.0) else r1 == r2
    decreases |ids|
  {
    if ids != [] {
      var before := ids[..|ids| - 1];
      AlikeBatch(s1, s2, q, allocation, before);
      if GrantMany(s1, q, allocation, before).Ok? {
        BatchFrame(s1, q, allocation, before);
        AlikeGrant(GrantMany(s1, q, allocation, before).value.0, GrantMany(s2, q, allocation, before).value.0,
          q, allocation, ids[|ids| - 1]);
      }
    }
  }

  lemma RevokeStaysFaithful(s: Space, ids: set<int>)
    requires FaithfulSpace(s)
    ensures FaithfulSpace(Revoke(s, ids))
  {
    UsageAfterRevoke(s.entries, ids);
    RevokeCovers(s, ids);
  }

  lemma AlikeRevoke(s1: Space, s2: Space, ids: set<int>)
    requires Alike(s1, s2) && |s1.entries| != 0
    ensures Alike(Revoke(s1, ids), Revoke(s2, ids))
  {
    RevokeStaysFaithful(s1, ids);
    RevokeStaysFaithful(s2, ids);
    assert s1.entries == s2.entries && s1.bounds == s2.bounds && s1.active == s2.active;
    EmptyUsage(Revoke(s1, ids).entries);
  }

  lemma AlikeRecalculate(s1: Space, s2: Space)
    requires Alike(s1, s2)
    ensures Alike(Apply(s1, Recalculate).0, s2)
  {
    EmptyUsage(s1.entries);
    if |s1.entries| != 0 {
      FaithfulAfterRecompute(UsageOf(s1.entries), s1.bounds);
    }
  }

  predicate GlobalOp(b: Bounds, op: Op) {
    match op
    case Batch(q, _, _) => OwnsNothing(b, q.project)
    case Update(_, _, _) => false
    case _ => true
  }

  predicate GlobalOps(b: Bounds, ops: seq<Op>) {
    forall i :: 0 <= i < |ops| ==> GlobalOp(b, ops[i])
  }

  /** One step of the bisimulation: the same answer, and still nobody can tell. */
  lemma AlikeStep(s1: Space, s2: Space, op: Op)
    requires Alike(s1, s2) && GlobalOp(s1.bounds, op) && !op.Recalculate?
    ensures Apply(s1, op).1 == Apply(s2, op).1 && Alike(Apply(s1, op).0, Apply(s2, op).0)
  {
    assert s1.entries == s2.entries && s1.bounds == s2.bounds && s1.active == s2.active;
    match op
    case Batch(q, allocation, ids) => AlikeBatch(s1, s2, q, allocation, ids);
    case RevokeOne(id) =>
      if !Apply(s1, op).1.Failed? {
        AlikeRevoke(s1, s2, {id});
      }
    case RevokeBatch(of) =>
      if !Apply(s1, op).1.Failed? {
        var id := Member(OfAllocation(s1.entries, of));
        AlikeRevoke(s1, s2, OfAllocation(s1.entries, of));
      }
    case Recalculate =>
  }

  // ---------------------------------------------------------------- restart transparency

  function WithoutRestarts(ops: seq<Op>): seq<Op>
    decreases |ops|
  {
    if ops == [] then [] else
      WithoutRestarts(ops[..|ops| - 1]) + (if ops[|ops| - 1].Recalculate? then [] else [ops[|ops| - 1]])
  }

  /** What callers see: the answers to everything but the recalculations. */
  function Answers(s: Space, ops: seq<Op>): seq<Outcome>
    decreases |ops|
  {
    if ops == [] then [] else
      Answers(s, ops[..|ops| - 1])
        + (if ops[|ops| - 1].Recalculate? then [] else [Apply(Run(s, ops[..|ops| - 1]), ops[|ops| - 1]).1])
  }

  lemma RunAppend(s: Space, ops: seq<Op>, op: Op)
    ensures Run(s, ops + [op]) == Apply(Run(s, ops), op).0
    ensures Answers(s, ops + [op]) == Answers(s, ops) + (if op.Recalculate? then [] else [Apply(Run(s, ops), op).1])
  {
  }

  lemma {:induction false} BoundsKept(s: Space, ops: seq<Op>)
    requires GlobalOps(s.bounds, ops)
    ensures Run(s, ops).bounds == s.bounds && Run(s, ops).active == s.active
    decreases |ops|
  {
    if ops != [] {
      BoundsKept(s, ops[..|ops| - 1]);
      var s1, op := Run(s, ops[..|ops| - 1]), ops[|ops| - 1];
      assert GlobalOp(s.bounds, op);
      if op.Batch? && GrantMany(s1, op.request, op.allocation, op.ids).Ok? {
        BatchFrame(s1, op.request, op.allocation, op.ids);
      }
    }
  }

  /** Restarts inserted anywhere change no answer of a run of global allocations and revocations. */
  lemma {:induction false} RestartTransparent(s: Space, ops: seq<Op>)
    requires s.entries == map[] && StartsPositive(s) && GlobalOps(s.bounds, ops)
    ensures Answers(s, ops) == Answers(s, WithoutRestarts(ops))
    ensures Alike(Run(s, ops), Run(s, WithoutRestarts(ops)))
    decreases |ops|
  {
    if ops != [] {
      var before, op := ops[..|ops| - 1], ops[|ops| - 1];
      RestartTransparent(s, before);
      BoundsKept(s, before);
      assert GlobalOp(s.bounds, op);
      if op.Recalculate? {
        AlikeRecalculate(Run(s, before), Run(s, WithoutRestarts(before)));
        assert WithoutRestarts(ops) == WithoutRestarts(before);
      } else {
        AlikeStep(Run(s, before), Run(s, WithoutRestarts(before)), op);
        RunAppend(s, WithoutRestarts(before), op);
      }
    }
  }

  /** Transparency holds for every run exactly when a minimum is set or the first value the namespace
      would issue is at least 1 (or there is none). */
  lemma RestartTransparentExactly(s: Space)
    requires s.entries == map[] && s.active
    ensures (forall ops :: GlobalOps(s.bounds, ops) ==> Answers(s, ops) == Answers(s, WithoutRestarts(ops))) <==>
      StartsPositive(s)
  {
    if StartsPositive(s) {
      forall ops | GlobalOps(s.bounds, ops) ensures Answers(s, ops) == Answers(s, WithoutRestarts(ops)) {
        RestartTransparent(s, ops);
      }
    } else {
      RestartVisible(s);
      var ops :| RestartSeen(s, ops);
    }
  }

  const ANYONE := Request("", "")

  lemma AnswersOneMore(s: Space, ops: seq<Op>, op: Op)
    requires !op.Recalculate?
    ensures Answers(s, ops + [op]) == Answers(s, ops) + [Apply(Run(s, ops), op).1]
    ensures Answers(s, ops + [Recalculate] + [op]) ==
      Answers(s, ops) + [Apply(Apply(Run(s, ops), Recalculate).0, op).1]
  {
    RunAppend(s, ops, op);
    RunAppend(s, ops, Recalculate);
    RunAppend(s, ops + [Recalculate], op);
  }

  lemma LastDiffers(seen: seq<Outcome>, x: Outcome, y: Outcome)
    requires x != y
    ensures seen + [x] != seen + [y]
  {
    assert (seen + [x])[|seen|] == x && (seen + [y])[|seen|] == y;
  }

  /** A restart shows as soon as the next answer differs. */
  lemma RestartShows(s: Space, ops: seq<Op>, op: Op)
    requires !op.Recalculate?
    requires Apply(Apply(Run(s, ops), Recalculate).0, op).1 != Apply(Run(s, ops), op).1
    ensures Answers(s, ops + [Recalculate] + [op]) != Answers(s, ops + [op])
  {
    AnswersOneMore(s, ops, op);
    LastDiffers(Answers(s, ops), Apply(Apply(Run(s, ops), Recalculate).0, op).1, Apply(Run(s, ops), op).1);
  }

  lemma WithoutAppend(ops: seq<Op>, op: Op)
    ensures WithoutRestarts(ops + [op]) == WithoutRestarts(ops) + (if op.Recalculate? then [] else [op])
  {
  }

  lemma AllocateThenRevoke(s: Space) returns (quiet: seq<Op>)
    requires s.entries == map[] && s.active && !StartsPositive(s)
    ensures var v := LeastUnreserved(s.bounds.ranges, s.bounds.max, s.next).value;
      Run(s, quiet) == Space(v, s.bounds, true, map[1 := Entry(v, "", "", 1, Revoked)])
    ensures GlobalOps(s.bounds, quiet) && WithoutRestarts(quiet) == quiet
  {
    var v := LeastUnreserved(s.bounds.ranges, s.bounds.max, s.next).value;
    var s1 := Space(Past(Usage({v}, {v}), s.bounds, v), s.bounds, true, map[1 := Entry(v, "", "", 1, Active)]);
    FirstBelowOne(s, v, s1);
    RevokedBelowOne(s1, v, Space(v, s.bounds, true, map[1 := Entry(v, "", "", 1, Revoked)]));
    var none: seq<Op> := [];
    var first := Batch(ANYONE, 1, [1]);
    RunAppend(s, none, first);
    RunAppend(s, none + [first], RevokeOne(1));
    WithoutAppend(none, first);
    WithoutAppend(none + [first], RevokeOne(1));
    quiet := none + [first] + [RevokeOne(1)];
  }

  lemma RestartDropped(quiet: seq<Op>, op: Op)
    requires WithoutRestarts(quiet) == quiet && !op.Recalculate?
    ensures WithoutRestarts(quiet + [Recalculate] + [op]) == quiet + [op]
  {
  }

  lemma GlobalOpsAppend(b: Bounds, ops: seq<Op>, op: Op)
    requires GlobalOps(b, ops) && GlobalOp(b, op)
    ensures GlobalOps(b, ops + [op])
  {
  }

  predicate RestartSeen(s: Space, ops: seq<Op>) {
    GlobalOps(s.bounds, ops) && Answers(s, ops) != Answers(s, WithoutRestarts(ops))
  }

  lemma RestartSeenAfter(s: Space, quiet: seq<Op>, op: Op)
    requires GlobalOps(s.bounds, quiet) && WithoutRestarts(quiet) == quiet
    requires GlobalOp(s.bounds, op) && !op.Recalculate?
    requires Apply(Apply(Run(s, quiet), Recalculate).0, op).1 != Apply(Run(s, quiet), op).1
    ensures RestartSeen(s, quiet + [Recalculate] + [op])
  {
    RestartShows(s, quiet, op);
    RestartDropped(quiet, op);
    GlobalOpsAppend(s.bounds, quiet, Recalculate);
    GlobalOpsAppend(s.bounds, quiet + [Recalculate], op);
  }

  /** Allocate, revoke, restart, allocate: below 1 the restart is visible. */
  lemma RestartVisible(s: Space)
    requires s.entries == map[] && s.active && !StartsPositive(s)
    ensures exists ops :: RestartSeen(s, ops)
  {
    var quiet := AllocateThenRevoke(s);
    SecondBelowOne(Run(s, quiet), LeastUnreserved(s.bounds.ranges, s.bounds.max, s.next).value);
    RestartSeenAfter(s, quiet, Batch(ANYONE, 1, [2]));
  }

  lemma FirstBelowOne(s: Space, v: int, s1: Space)
    requires s.entries == map[] && s.active && !StartsPositive(s)
    requires v == LeastUnreserved(s.bounds.ranges, s.bounds.max, s.next).value
    requires s1 == Space(Past(Usage({v}, {v}), s.bounds, v), s.bounds, true, map[1 := Entry(v, "", "", 1, Active)])
    ensures Apply(s, Batch(ANYONE, 1, [1])).0 == s1
  {
    var u := UsageOf(s.entries);
    assert u == Usage({}, {});
    assert NextGlobal(u, s.bounds, s.next) == Some(v);
    OwnsNothingChoosesGlobally(s, "");
    ValueKeyNeverHit(s, ANYONE, 1, 1);
    GrantFacts(s, ANYONE, 1, 1);
    assert Register(u, v) == Usage({v}, {v});
    assert [1][..0] == [];
    assert GrantMany(s, ANYONE, 1, []) == Ok((s, []));
    var r := Grant(s, ANYONE, 1, 1).value;
    assert r.0.entries == s1.entries && r.1 == v;
    assert r.0 == s1;
  }

  lemma RevokedBelowOne(s1: Space, v: int, s2: Space)
    requires s1.entries == map[1 := Entry(v, "", "", 1, Active)] && s1.next == Past(Usage({v}, {v}), s1.bounds, v)
    requires s2 == Space(v, s1.bounds, true, map[1 := Entry(v, "", "", 1, Revoked)]) && s1.active
    ensures Apply(s1, RevokeOne(1)).0 == s2
  {
    PastExceeds(Usage({v}, {v}), s1.bounds, v);
    assert v < s1.next;
    assert Released(s1.entries, {1}) == {v};
    assert MarkRevoked(s1.entries, {1}) == s2.entries;
  }

  lemma SecondBelowOne(s2: Space, v: int)
    requires s2 == Space(v, s2.bounds, true, map[1 := Entry(v, "", "", 1, Revoked)])
    requires v < 1 && s2.bounds.min.None? && !Reserved(s2.bounds.ranges, v) && BelowMax(s2.bounds, v)
    ensures Apply(s2, Batch(ANYONE, 1, [2])).1 == Granted([v])
    ensures Apply(Apply(s2, Recalculate).0, Batch(ANYONE, 1, [2])).1 != Granted([v])
  {
    var u := UsageOf(s2.entries);
    assert s2.entries[1].value == v;
    assert u == Usage({}, {v});
    ExactMeans(u, s2.bounds, v);
    OneGrant(s2);
    var restarted := Apply(s2, Recalculate).0;
    OneGrant(restarted);
    if NextGlobal(u, s2.bounds, 1).Some? {
      NextGlobalSound(u, s2.bounds, 1);
    }
    if NextGlobal(u, s2.bounds, restarted.next).Some? {
      NextGlobalSound(u, s2.bounds, restarted.next);
    }
    assert v < restarted.next;
  }

  lemma OneGrant(s: Space)
    requires s.active && 2 !in s.entries
    ensures var r := NextGlobal(UsageOf(s.entries), s.bounds, s.next);
      Apply(s, Batch(ANYONE, 1, [2])).1 == if r.Some? then Granted([r.value]) else Failed(Exhausted)
  {
    OwnsNothingChoosesGlobally(s, "");
    ValueKeyNeverHit(s, ANYONE, 1, 2);
    assert [2][..0] == [];
    assert GrantMany(s, ANYONE, 1, []) == Ok((s, []));
  }
}
