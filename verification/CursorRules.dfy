/** The stored cursor as a cache over the entries: when it hides no released value, and when it is
    exactly what the next allocation hands out. */
module CursorRules {
  import opened Basics
  import opened Ranges
  import opened Candidates
  import opened Spaces
  import opened NamespaceRules
  import opened OwnGrants

  predicate Covers(s: Space) {
    CursorCovers(UsageOf(s.entries), s.bounds, s.next)
  }

  // ---------------------------------------------------------------- exactly which steps lose a released value

  /** A batch of `count` grants goes past a waiting released value: the project still owns a free value
      above the least one waiting, and the batch is larger than the number it owns below it. */
  predicate PassesReleased(s: Space, project: string, count: nat) {
    var own, waiting := Owned(s, project), Waiting(s);
    waiting != {} &&
    var below := set v | v in own && v < SetMin(waiting);
    below != own && |below| < count
  }

  /** Lowering or dropping the minimum opens a window below it that holds a released value under the cursor. */
  predicate ReopensReleased(s: Space, min: Option<int>) {
    var u := UsageOf(s.entries);
    exists v :: v in u.ever - u.live && !Reserved(s.bounds.ranges, v)
      && (min.Some? ==> min.value <= v) && !AboveMin(s.bounds, v) && v < s.next
  }

  /** Recomputing without a minimum starts above a released value. */
  predicate RecomputesAbove(s: Space) {
    s.bounds.min.None? && exists v :: v in Pending(UsageOf(s.entries), s.bounds) && v < RecomputeFrom(s.bounds)
  }

  predicate LosesReleased(s: Space, op: Op) {
    !Apply(s, op).1.Failed? &&
    match op
    case Batch(q, _, ids) => PassesReleased(s, q.project, |ids|)
    case RevokeOne(_) => false
    case RevokeBatch(_) => false
    case Recalculate => RecomputesAbove(s)
    case Update(min, max, _) => ReopensReleased(s, min)
  }

  /** The next grant comes from a reserved range at or above the cursor while a released value waits below it. */
  predicate JumpsReleased(s: Space, project: string) {
    var c := Chosen(s, project);
    c.Own? && s.next <= c.value && exists v :: v in Waiting(s) && v < c.value
  }

  /** Some grant of the batch does so. */
  predicate BatchJumps(s: Space, q: Request, allocation: int, ids: seq<int>)
    requires GrantMany(s, q, allocation, ids).Ok?
    decreases |ids|
  {
    ids != [] &&
    (BatchJumps(s, q, allocation, ids[..|ids| - 1])
     || JumpsReleased(GrantMany(s, q, allocation, ids[..|ids| - 1]).value.0, q.project))
  }

  lemma GrantCovers(s: Space, q: Request, allocation: int, id: int)
    requires Covers(s) && Grant(s, q, allocation, id).Ok?
    ensures Covers(Grant(s, q, allocation, id).value.0) <==> !JumpsReleased(s, q.project)
  {
    GrantFacts(s, q, allocation, id);
    var u := UsageOf(s.entries);
    var c := Chosen(s, q.project);
    if c.Own? {
      assert c.value in Owned(s, q.project);
      OwnFreeMeans(u.live, s.bounds.ranges, q.project, c.value);
      assert c.value !in Waiting(s);
      CursorAfterOwn(u, s.bounds, s.next, c.value);
    } else {
      CursorAfterGlobal(u, s.bounds, s.next, c.value);
    }
  }

  /** A value once jumped over stays below the cursor for the rest of the batch. */
  lemma GrantKeepsLoss(s: Space, q: Request, allocation: int, id: int)
    requires !Covers(s) && Grant(s, q, allocation, id).Ok?
    ensures !Covers(Grant(s, q, allocation, id).value.0)
  {
    GrantFacts(s, q, allocation, id);
    GrantAdvances(s, q, allocation, id);
    var u := UsageOf(s.entries);
    var (s', v) := Grant(s, q, allocation, id).value;
    var lost :| lost in Pending(u, s.bounds) && lost < s.next;
    if Chosen(s, q.project).Own? {
      assert v in OwnFree(u.live, s.bounds.ranges, q.project);
    } else {
      NextGlobalSound(u, s.bounds, s.next);
    }
    assert lost in Pending(UsageOf(s'.entries), s'.bounds);
  }

  lemma {:induction false} BatchCovers(s: Space, q: Request, allocation: int, ids: seq<int>)
    requires Covers(s) && GrantMany(s, q, allocation, ids).Ok?
    ensures Covers(GrantMany(s, q, allocation, ids).value.0) <==> !BatchJumps(s, q, allocation, ids)
    decreases |ids|
  {
    if ids != [] {
      var n := |ids| - 1;
      BatchCovers(s, q, allocation, ids[..n]);
      BatchGrows(s, q, allocation, ids[..n]);
      var s1 := GrantMany(s, q, allocation, ids[..n]).value.0;
      if Covers(s1) {
        GrantCovers(s1, q, allocation, ids[n]);
      } else {
        GrantKeepsLoss(s1, q, allocation, ids[n]);
      }
    }
  }

  /** After the first grants of a batch that passes no released value, the next grant jumps over one
      exactly when the batch so far has taken all the project owns below the least one waiting. */
  lemma NextJumps(s: Space, q: Request, allocation: int, ids: seq<int>)
    requires GrantMany(s, q, allocation, ids).Ok? && Covers(GrantMany(s, q, allocation, ids).value.0)
    requires !PassesReleased(s, q.project, |ids|)
    ensures JumpsReleased(GrantMany(s, q, allocation, ids).value.0, q.project) <==>
      PassesReleased(s, q.project, |ids| + 1)
  {
    var s1 := GrantMany(s, q, allocation, ids).value.0;
    var own, waiting := Owned(s, q.project), Waiting(s);
    if waiting != {} && exists v :: v in own && SetMin(waiting) <= v {
      NextJumpsAt(s, q, allocation, ids);
    } else {
      BatchShrinks(s, q, allocation, ids);
      if waiting != {} {
        assert (set v | v in own && v < SetMin(waiting)) == own;
      }
    }
  }

  lemma NextJumpsAt(s: Space, q: Request, allocation: int, ids: seq<int>)
    requires GrantMany(s, q, allocation, ids).Ok? && Covers(GrantMany(s, q, allocation, ids).value.0)
    requires !PassesReleased(s, q.project, |ids|)
    requires Waiting(s) != {} && exists v :: v in Owned(s, q.project) && SetMin(Waiting(s)) <= v
    ensures JumpsReleased(GrantMany(s, q, allocation, ids).value.0, q.project) <==>
      PassesReleased(s, q.project, |ids| + 1)
  {
    var s1, own, m := GrantMany(s, q, allocation, ids).value.0, Owned(s, q.project), SetMin(Waiting(s));
    var below := set v | v in own && v < m;
    var top :| top in own && m <= top;
    assert top !in below;
    SubsetOfSize(below, own);
    BatchTakesLeast(s, q, allocation, ids);
    var o := LeastLeft(own, Owned(s1, q.project), |ids|, below, m);
    OwnFreeMeans(LiveValues(s.entries), s.bounds.ranges, q.project, m);
    assert m !in own;
    assert Chosen(s1, q.project) == Own(o);
    assert Waiting(s1) == Waiting(s);
    assert o < m ==> forall v :: v in Waiting(s1) ==> o < v;
    assert s1.next <= m;
  }

  /** What is left of `own` after its least `n` went starts at or above `m` exactly when all below `m` went. */
  lemma LeastLeft(own: set<int>, rest: set<int>, n: nat, below: set<int>, m: int) returns (o: int)
    requires LeastTaken(own, rest, n) && n <= |below| && below != own && |below| < |own|
    requires below == set v | v in own && v < m
    ensures rest != {} && o == SetMin(rest) && o in own && (m <= o <==> |below| == n)
  {
    assert rest != {};
    TakenExactly(own, rest, n, below);
    o := SetMin(rest);
  }

  /** Whether a batch jumps over a released value can be read off the state before it. */
  lemma {:induction false} BatchJumpsExactly(s: Space, q: Request, allocation: int, ids: seq<int>)
    requires Covers(s) && GrantMany(s, q, allocation, ids).Ok?
    ensures BatchJumps(s, q, allocation, ids) <==> PassesReleased(s, q.project, |ids|)
    decreases |ids|
  {
    if ids != [] {
      var before := ids[..|ids| - 1];
      BatchJumpsExactly(s, q, allocation, before);
      BatchCovers(s, q, allocation, before);
      if !PassesReleased(s, q.project, |before|) {
        NextJumps(s, q, allocation, before);
      }
    }
  }

  lemma RevokeCovers(s: Space, ids: set<int>)
    requires Covers(s)
    ensures Covers(Revoke(s, ids))
  {
    UsageAfterRevoke(s.entries, ids);
    CursorAfterRelease(UsageOf(s.entries), s.bounds, s.next, UsageOf(Revoke(s, ids).entries),
      Released(s.entries, ids), Revoke(s, ids).next);
  }

  /** The invariant "no reusable released value below the cursor" survives a transaction exactly
      when the transaction is not one of the three that lose a released value. */
  lemma CoversExactly(s: Space, op: Op)
    requires Covers(s)
    ensures Covers(Apply(s, op).0) <==> !LosesReleased(s, op)
  {
    var u := UsageOf(s.entries);
    match op
    case Batch(q, allocation, ids) =>
      if GrantMany(s, q, allocation, ids).Ok? {
        BatchCovers(s, q, allocation, ids);
        BatchJumpsExactly(s, q, allocation, ids);
      }
    case RevokeOne(id) => RevokeCovers(s, {id});
    case RevokeBatch(of) => RevokeCovers(s, OfAllocation(s.entries, of));
    case Recalculate =>
      EmptyUsage(s.entries);
      RecomputedCovers(u, s.bounds);
    case Update(min, max, active) =>
      CursorAfterNewBounds(u, s.bounds, s.next, min, max);
  }

  predicate NeverLoses(s: Space, ops: seq<Op>)
    decreases |ops|
  {
    ops == [] || (NeverLoses(s, ops[..|ops| - 1]) && !LosesReleased(Run(s, ops[..|ops| - 1]), ops[|ops| - 1]))
  }

  lemma {:induction false} CoversStays(s: Space, ops: seq<Op>)
    requires Covers(s) && NeverLoses(s, ops)
    ensures Covers(Run(s, ops))
    decreases |ops|
  {
    if ops != [] {
      CoversStays(s, ops[..|ops| - 1]);
      CoversExactly(Run(s, ops[..|ops| - 1]), ops[|ops| - 1]);
    }
  }

  /** From a cursor that hides nothing, such as a new namespace's, a run without a losing step leaves every
      released value within reach: the next global allocation takes the least of them, or the least fresh
      value when there is none. */
  lemma ReleasedStayWithinReach(s: Space, ops: seq<Op>)
    requires Covers(s) && NeverLoses(s, ops)
    ensures var s' := Run(s, ops); var u := UsageOf(s'.entries);
      var r := NextGlobal(u, s'.bounds, s'.next); var released := PendingInBounds(u, s'.bounds);
      && Covers(s')
      && (released != {} ==> r == Some(SetMin(released)))
      && (released == {} && r.Some? ==>
          Fresh(u, s'.bounds, s'.next, r.value) && forall v :: Fresh(u, s'.bounds, s'.next, v) ==> r.value <= v)
      && (r.None? <==> released == {} && forall v :: !Fresh(u, s'.bounds, s'.next, v))
  {
    CoversStays(s, ops);
    var s' := Run(s, ops);
    GlobalIsLeastReleasedElseFresh(UsageOf(s'.entries), s'.bounds, s'.next);
  }

  lemma NewCovers(s: Space)
    requires s.entries == map[]
    ensures Covers(s)
  {
    assert Pending(UsageOf(s.entries), s.bounds) == {};
  }

  /** 2 is released, 3 is held, and 10 to 20 belong to project p. */
  function TwoWaiting(): Space {
    Space(2, Bounds(None, None, [ReservedRange(10, 20, "p")]), true,
          map[1 := Entry(2, "", "", 1, Revoked), 2 := Entry(3, "", "", 2, Active)])
  }

  lemma TwoWaitingFacts()
    ensures var s := TwoWaiting();
      && UsageOf(s.entries) == Usage({3}, {2, 3}) && Waiting(s) == {2} && UniqueLive(s.entries)
      && PendingInBounds(UsageOf(s.entries), s.bounds) == {2} && Chosen(s, "p") == Own(10)
  {
    var s := TwoWaiting();
    assert s.entries[1].value == 2 && s.entries[2].value == 3;
    assert !Reserved(s.bounds.ranges, 2) && !Reserved(s.bounds.ranges, 3);
    assert Holds(s.bounds.ranges[0], 10);
    forall v ensures v in Owned(s, "p") ==> 10 <= v {
      OwnFreeMeans({3}, s.bounds.ranges, "p", v);
    }
    OwnFreeMeans({3}, s.bounds.ranges, "p", 10);
  }

  /** A reserved grant that loses a released value: 2 is waiting, the project takes 10 from its range,
      and the cursor lands beyond both. */
  lemma ReservedGrantCanLose()
    ensures var s := TwoWaiting(); var r := Grant(s, Request("p", ""), 3, 4);
      && Covers(s) && UniqueLive(s.entries) && PendingInBounds(UsageOf(s.entries), s.bounds) == {2}
      && r.Ok? && r.value.1 == 10 && !Covers(r.value.0) && 2 in PendingInBounds(UsageOf(r.value.0.entries), s.bounds)
      && NextGlobal(UsageOf(r.value.0.entries), s.bounds, r.value.0.next) != Some(2)
  {
    var s, q := TwoWaiting(), Request("p", "");
    TwoWaitingFacts();
    ValueKeyNeverHit(s, q, 3, 4);
    GrantTakesLeast(s, q, 3, 4);
    GrantFacts(s, q, 3, 4);
    GrantCovers(s, q, 3, 4);
    assert 2 in Waiting(s);
    var s' := Grant(s, q, 3, 4).value.0;
    assert 2 in Waiting(s') && s'.next > 2;
    if NextGlobal(UsageOf(s'.entries), s.bounds, s'.next).Some? {
      NextGlobalSound(UsageOf(s'.entries), s.bounds, s'.next);
    }
  }

  /** Lowering the minimum from 10 to 1 leaves the released 3 below the cursor. */
  lemma LoweredMinimumCanLose()
    ensures var s := Space(10, Bounds(Some(10), None, []), true, map[1 := Entry(3, "", "", 1, Revoked)]);
      Covers(s) && UniqueLive(s.entries) && Apply(s, Update(Some(1), None, true)).1 == Done
        && !Covers(Apply(s, Update(Some(1), None, true)).0)
  {
    var t: Table := map[1 := Entry(3, "", "", 1, Revoked)];
    var s := Space(10, Bounds(Some(10), None, []), true, t);
    assert t[1].value == 3;
    assert EverValues(t) == {3} && LiveValues(t) == {};
    assert ReopensReleased(s, Some(1)) by {
      assert 3 in UsageOf(t).ever - UsageOf(t).live;
    }
    CoversExactly(s, Update(Some(1), None, true));
  }

  /** Recomputing without a minimum steps over the released -5. */
  lemma RecomputingCanLose()
    ensures var s := Space(-5, Bounds(None, None, []), true, map[1 := Entry(-5, "", "", 1, Revoked)]);
      Covers(s) && UniqueLive(s.entries) && !Covers(Apply(s, Recalculate).0)
  {
    var t: Table := map[1 := Entry(-5, "", "", 1, Revoked)];
    var s := Space(-5, Bounds(None, None, []), true, t);
    assert t[1].value == -5;
    assert EverValues(t) == {-5} && LiveValues(t) == {};
    assert RecomputesAbove(s) by {
      assert -5 in Pending(UsageOf(t), s.bounds);
    }
    CoversExactly(s, Recalculate);
  }

  // ---------------------------------------------------------------- the cursor is the next value

  /** `k` is what a search from `k` finds: it is reusable, or fresh. */
  lemma ExactMeans(u: Usage, b: Bounds, k: int)
    requires u.live <= u.ever
    ensures NextGlobal(u, b, k) == Some(k) <==>
      && AboveMin(b, k) && BelowMax(b, k) && !Reserved(b.ranges, k)
      && (k in u.ever - u.live || forall x :: x in u.ever ==> x < k)
  {
    if NextGlobal(u, b, k) == Some(k) {
      NextGlobalSound(u, b, k);
    }
    if AboveMin(b, k) && BelowMax(b, k) && !Reserved(b.ranges, k) {
      if k in u.ever - u.live {
        assert k in Reusable(u, b, Floor(b, k));
      } else if forall x :: x in u.ever ==> x < k {
        assert Reusable(u, b, Floor(b, k)) == {};
        NextGlobalFresh(u, b, k);
        assert Fresh(u, b, k, k);
      }
    }
  }

  predicate Unrestricted(b: Bounds) {
    b.max.None? && b.ranges == []
  }

  predicate Exact(s: Space) {
    && Unrestricted(s.bounds) && UniqueLive(s.entries)
    && (forall v :: v in EverValues(s.entries) ==> AboveMin(s.bounds, v))
    && NextGlobal(UsageOf(s.entries), s.bounds, s.next) == Some(s.next)
  }

  lemma UnrestrictedFinds(u: Usage, b: Bounds, start: int)
    requires Unrestricted(b)
    ensures NextGlobal(u, b, start).Some?
  {
  }

  lemma ExactStep(u: Usage, b: Bounds, k: int, project: string)
    requires u.live <= u.ever && Unrestricted(b) && NextGlobal(u, b, k) == Some(k)
    ensures Choose(u, b, k, project) == Global(k) && AboveMin(b, k)
    ensures var u' := Register(u, k); NextGlobal(u', b, Past(u', b, k)) == Some(Past(u', b, k))
  {
    var u' := Register(u, k);
    assert OwnFree(u.live, b.ranges, project) == {};
    NextGlobalSound(u, b, k);
    UnrestrictedFinds(u', b, k + 1);
    NextGlobalIdempotent(u', b, k + 1);
  }

  lemma GrantExact(s: Space, q: Request, allocation: int, id: int)
    requires Exact(s) && Grant(s, q, allocation, id).Ok?
    ensures Exact(Grant(s, q, allocation, id).value.0) && Grant(s, q, allocation, id).value.1 == s.next
  {
    var u := UsageOf(s.entries);
    ExactStep(u, s.bounds, s.next, q.project);
    GrantFacts(s, q, allocation, id);
    GrantUnique(s, q, allocation, id);
    assert UsageOf(Grant(s, q, allocation, id).value.0.entries) == Register(u, s.next);
  }

  lemma {:induction false} BatchExact(s: Space, q: Request, allocation: int, ids: seq<int>)
    requires Exact(s) && GrantMany(s, q, allocation, ids).Ok?
    ensures Exact(GrantMany(s, q, allocation, ids).value.0)
    ensures ids != [] ==>
      |GrantMany(s, q, allocation, ids).value.1| > 0 && GrantMany(s, q, allocation, ids).value.1[0] == s.next
    decreases |ids|
  {
    if ids != [] {
      BatchExact(s, q, allocation, ids[..|ids| - 1]);
      GrantExact(GrantMany(s, q, allocation, ids[..|ids| - 1]).value.0, q, allocation, ids[|ids| - 1]);
    }
  }

  lemma RevokeExact(s: Space, ids: set<int>)
    requires Exact(s)
    ensures Exact(Revoke(s, ids))
  {
    UsageAfterRevoke(s.entries, ids);
    ExactMeans(UsageOf(s.entries), s.bounds, s.next);
    var s' := Revoke(s, ids);
    ExactMeans(UsageOf(s'.entries), s'.bounds, s'.next);
  }

  predicate NoUpdate(ops: seq<Op>) {
    forall i :: 0 <= i < |ops| ==> !ops[i].Update?
  }

  lemma ApplyExact(s: Space, op: Op)
    requires Exact(s) && !op.Update?
    ensures Exact(Apply(s, op).0)
    ensures Apply(s, op).1.Granted? ==> |Apply(s, op).1.values| > 0 && Apply(s, op).1.values[0] == s.next
  {
    match op
    case Batch(q, allocation, ids) =>
      if GrantMany(s, q, allocation, ids).Ok? {
        BatchExact(s, q, allocation, ids);
      }
    case RevokeOne(id) => RevokeExact(s, {id});
    case RevokeBatch(of) => RevokeExact(s, OfAllocation(s.entries, of));
    case Recalculate =>
      if |s.entries| != 0 {
        var start := if s.bounds.min.Some? then s.bounds.min.value else 1;
        UnrestrictedFinds(UsageOf(s.entries), s.bounds, start);
        NextGlobalIdempotent(UsageOf(s.entries), s.bounds, start);
      }
  }

  /** Without a maximum and reserved ranges, whatever was allocated, revoked and recomputed since the
      namespace was created, the stored cursor is the first value the next allocation returns. */
  lemma {:induction false} CursorIsNextValue(s: Space, ops: seq<Op>)
    requires s.entries == map[] && Unrestricted(s.bounds) && AboveMin(s.bounds, s.next) && NoUpdate(ops)
    ensures Exact(Run(s, ops))
    ensures forall op: Op :: !op.Update? && Apply(Run(s, ops), op).1.Granted? ==>
      |Apply(Run(s, ops), op).1.values| > 0 && Apply(Run(s, ops), op).1.values[0] == Run(s, ops).next
    decreases |ops|
  {
    if ops == [] {
      ExactMeans(UsageOf(s.entries), s.bounds, s.next);
    } else {
      CursorIsNextValue(s, ops[..|ops| - 1]);
      ApplyExact(Run(s, ops[..|ops| - 1]), ops[|ops| - 1]);
    }
    forall op: Op | !op.Update? && Apply(Run(s, ops), op).1.Granted?
      ensures |Apply(Run(s, ops), op).1.values| > 0 && Apply(Run(s, ops), op).1.values[0] == Run(s, ops).next
    {
      ApplyExact(Run(s, ops), op);
    }
  }
}
