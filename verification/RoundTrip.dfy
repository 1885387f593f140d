/** Allocate a global batch, revoke it, allocate as many again: the same values, in the same order. */
module RoundTrip {
  import opened Basics
  import opened Candidates
  import opened Spaces
  import opened NamespaceRules
  import opened CursorRules

  /** No reserved range names the project, so all its grants are global. */
  predicate OwnsNothing(b: Bounds, project: string) {
    project == "" || forall i :: 0 <= i < |b.ranges| ==> b.ranges[i].project != project
  }

  lemma OwnsNothingChoosesGlobally(s: Space, project: string)
    requires OwnsNothing(s.bounds, project)
    ensures !Chosen(s, project).Own?
    ensures Chosen(s, project).Global? <==> NextGlobal(UsageOf(s.entries), s.bounds, s.next).Some?
    ensures Chosen(s, project).Global? ==>
      NextGlobal(UsageOf(s.entries), s.bounds, s.next) == Some(Chosen(s, project).value)
  {
  }

  /** Registering more values, none of them between the start and what the search finds, and one of
      them the value found, leaves the search result unchanged. */
  lemma FoundAgain(u: Usage, b: Bounds, start: int, v: int, u': Usage)
    requires u.live <= u.ever && NextGlobal(u, b, start) == Some(v)
    requires u'.live == u.live && u.ever <= u'.ever && v in u'.ever
    requires forall x :: x in u'.ever - u.ever && start <= x ==> v <= x
    ensures NextGlobal(u', b, start) == Some(v)
  {
    NextGlobalSound(u, b, start);
    var floor := Floor(b, start);
    assert v in Reusable(u', b, floor);
    forall x | x in Reusable(u', b, floor) ensures v <= x {
      if x in u.ever {
        assert x in Reusable(u, b, floor);
        assert v == SetMin(Reusable(u, b, floor));
      } else {
        assert x in u'.ever - u.ever;
      }
    }
    assert SetMin(Reusable(u', b, floor)) == v;
  }

  /** The value after `v` in a batch is what a search just past `v` finds. */
  lemma NextAfter(u: Usage, b: Bounds, v: int, w: int)
    requires NextGlobal(u, b, Past(u, b, v)) == Some(w)
    ensures NextGlobal(u, b, v + 1) == Some(w)
  {
    if NextGlobal(u, b, v + 1).Some? {
      NextGlobalIdempotent(u, b, v + 1);
    }
  }

  lemma FirstGrants(s: Space, q: Request, allocation: int, ids: seq<int>)
    requires GrantMany(s, q, allocation, ids).Ok? && ids != []
    ensures Grant(s, q, allocation, ids[0]).Ok?
    ensures |ids| >= 2 ==> Grant(Grant(s, q, allocation, ids[0]).value.0, q, allocation, ids[1]).Ok?
  {
    BatchPrefix(s, q, allocation, ids, 1);
    assert ids[..1][..0] == [];
    assert GrantMany(s, q, allocation, []) == Ok((s, []));
    if |ids| >= 2 {
      BatchPrefix(s, q, allocation, ids, 2);
      assert ids[..2][..1] == ids[..1];
    }
  }

  lemma SymbolFree(s: Space, q: Request, allocation: int, ids: seq<int>)
    requires GrantMany(s, q, allocation, ids).Ok? && ids != []
    ensures !SymbolTaken(s.entries, q.symbol)
    ensures |ids| >= 2 ==> q.symbol == ""
  {
    FirstGrants(s, q, allocation, ids);
    ValueKeyNeverHit(s, q, allocation, ids[0]);
    if |ids| >= 2 {
      GrantFacts(s, q, allocation, ids[0]);
      var s1 := Grant(s, q, allocation, ids[0]).value.0;
      assert ids[0] in s1.entries && s1.entries[ids[0]].symbol == q.symbol;
      ValueKeyNeverHit(s1, q, allocation, ids[1]);
    }
  }

  // ---------------------------------------------------------------- global batches as value sequences

  function CursorAt(u: Usage, b: Bounds, cursor: int, values: seq<int>, i: nat): int
    requires i <= |values|
  {
    if i == 0 then cursor else Past(RegisterAll(u, values[..i]), b, values[i - 1])
  }

  predicate StepAt(u: Usage, b: Bounds, cursor: int, values: seq<int>, i: nat)
    requires i < |values|
  {
    NextGlobal(RegisterAll(u, values[..i]), b, CursorAt(u, b, cursor, values, i)) == Some(values[i])
  }

  /** `values` is what successive global grants issue. */
  predicate GlobalRun(u: Usage, b: Bounds, cursor: int, values: seq<int>) {
    forall i :: 0 <= i < |values| ==> StepAt(u, b, cursor, values, i)
  }

  lemma RunPrefix(u: Usage, b: Bounds, cursor: int, values: seq<int>, v: int)
    ensures GlobalRun(u, b, cursor, values + [v]) <==>
      GlobalRun(u, b, cursor, values)
        && NextGlobal(RegisterAll(u, values), b, CursorAt(u, b, cursor, values, |values|)) == Some(v)
  {
    var all := values + [v];
    forall i | 0 <= i <= |values|
      ensures all[..i] == values[..i] && CursorAt(u, b, cursor, all, i) == CursorAt(u, b, cursor, values, i) {
      assert all[..i] == values[..i];
    }
    assert values[..|values|] == values;
    forall i | 0 <= i < |values| ensures StepAt(u, b, cursor, all, i) <==> StepAt(u, b, cursor, values, i) {
      assert all[..i] == values[..i];
    }
    assert StepAt(u, b, cursor, all, |values|) <==>
      NextGlobal(RegisterAll(u, values), b, CursorAt(u, b, cursor, values, |values|)) == Some(v);
  }

  /** `s'` is `s` after global grants of exactly these values. */
  predicate AfterGlobalRun(s: Space, values: seq<int>, s': Space) {
    var u := UsageOf(s.entries);
    && GlobalRun(u, s.bounds, s.next, values) && s'.bounds == s.bounds
    && s'.next == CursorAt(u, s.bounds, s.next, values, |values|)
    && UsageOf(s'.entries) == RegisterAll(u, values)
  }

  lemma GlobalStep(s: Space, values: seq<int>, s1: Space, q: Request, allocation: int, id: int, s2: Space, v: int)
    requires OwnsNothing(s.bounds, q.project) && AfterGlobalRun(s, values, s1)
    requires Grant(s1, q, allocation, id) == Ok((s2, v))
    ensures AfterGlobalRun(s, values + [v], s2)
  {
    var u := UsageOf(s.entries);
    GrantFacts(s1, q, allocation, id);
    OwnsNothingChoosesGlobally(s1, q.project);
    RunPrefix(u, s.bounds, s.next, values, v);
    RegisterAllAppend(u, values, v);
    assert (values + [v])[..|values| + 1] == values + [v];
  }

  lemma {:induction false} BatchIsGlobalRun(s: Space, q: Request, allocation: int, ids: seq<int>)
    requires GrantMany(s, q, allocation, ids).Ok? && OwnsNothing(s.bounds, q.project)
    ensures var (s', values) := GrantMany(s, q, allocation, ids).value; AfterGlobalRun(s, values, s')
    decreases |ids|
  {
    if ids == [] {
      assert Elements([]) == {};
    } else {
      var s1, values, s2, v := BatchSplit(s, q, allocation, ids);
      BatchIsGlobalRun(s, q, allocation, ids[..|ids| - 1]);
      GlobalStep(s, values, s1, q, allocation, ids[|ids| - 1], s2, v);
    }
  }

  /** With its ids new and its symbol free, the next global grant gets the next value. */
  lemma NextGlobalGrant(s1: Space, q: Request, allocation: int, id: int, v: int)
    requires OwnsNothing(s1.bounds, q.project) && NextGlobal(UsageOf(s1.entries), s1.bounds, s1.next) == Some(v)
    requires id !in s1.entries && !SymbolTaken(s1.entries, q.symbol)
    ensures Grant(s1, q, allocation, id).Ok? && Grant(s1, q, allocation, id).value.1 == v
  {
    OwnsNothingChoosesGlobally(s1, q.project);
    ValueKeyNeverHit(s1, q, allocation, id);
  }

  lemma {:induction false} GlobalRunIsBatch(s: Space, q: Request, allocation: int, ids: seq<int>, values: seq<int>)
    requires OwnsNothing(s.bounds, q.project) && GlobalRun(UsageOf(s.entries), s.bounds, s.next, values)
    requires |ids| == |values| && forall j :: 0 <= j < |ids| ==> ids[j] !in s.entries
    requires forall j, k :: 0 <= j < k < |ids| ==> ids[j] != ids[k]
    requires |ids| >= 2 ==> q.symbol == ""
    requires |ids| >= 1 ==> !SymbolTaken(s.entries, q.symbol)
    ensures GrantMany(s, q, allocation, ids).Ok? && GrantMany(s, q, allocation, ids).value.1 == values
    decreases |ids|
  {
    if ids != [] {
      var n := |ids| - 1;
      assert values == values[..n] + [values[n]];
      RunPrefix(UsageOf(s.entries), s.bounds, s.next, values[..n], values[n]);
      GlobalRunIsBatch(s, q, allocation, ids[..n], values[..n]);
      assert ids[n] !in ids[..n];
      GlobalRunContinues(s, q, allocation, ids[..n], values[..n], ids[n], values[n]);
    }
  }

  lemma GlobalRunContinues(s: Space, q: Request, allocation: int, ids: seq<int>, values: seq<int>, id: int, v: int)
    requires OwnsNothing(s.bounds, q.project)
    requires GrantMany(s, q, allocation, ids).Ok? && GrantMany(s, q, allocation, ids).value.1 == values
    requires var u := UsageOf(s.entries);
      NextGlobal(RegisterAll(u, values), s.bounds, CursorAt(u, s.bounds, s.next, values, |values|)) == Some(v)
    requires id !in s.entries && id !in ids && !SymbolTaken(s.entries, q.symbol) && (ids != [] ==> q.symbol == "")
    ensures var s1 := GrantMany(s, q, allocation, ids).value.0;
      Grant(s1, q, allocation, id).Ok? && Grant(s1, q, allocation, id).value.1 == v
  {
    SymbolStaysFree(s, q, allocation, ids);
    BatchIsGlobalRun(s, q, allocation, ids);
    BatchKeys(s, q, allocation, ids);
    NextGlobalGrant(GrantMany(s, q, allocation, ids).value.0, q, allocation, id, v);
  }

  lemma SymbolStaysFree(s: Space, q: Request, allocation: int, ids: seq<int>)
    requires GrantMany(s, q, allocation, ids).Ok? && !SymbolTaken(s.entries, q.symbol) && (ids != [] ==> q.symbol == "")
    ensures !SymbolTaken(GrantMany(s, q, allocation, ids).value.0.entries, q.symbol)
  {
  }

  lemma ElementsPrefix(values: seq<int>, i: nat)
    requires i <= |values|
    ensures Elements(values[..i]) <= Elements(values)
    ensures forall x :: x in Elements(values) - Elements(values[..i]) ==>
      exists j :: i <= j < |values| && values[j] == x
  {
  }

  /** With all its values already released, the run repeats from its first value. */
  lemma RunRepeats(u: Usage, b: Bounds, cursor: int, values: seq<int>)
    requires u.live <= u.ever && values != [] && Increasing(values) && GlobalRun(u, b, cursor, values)
    ensures GlobalRun(Usage(u.live, u.ever + Elements(values)), b, values[0], values)
  {
    var again := Usage(u.live, u.ever + Elements(values));
    forall i | 0 <= i < |values| ensures StepAt(again, b, values[0], values, i) {
      RunRepeatsAt(u, b, cursor, values, i);
      if i > 0 {
        RunRepeatsAt(u, b, cursor, values, i - 1);
      }
    }
  }

  lemma RunRepeatsAt(u: Usage, b: Bounds, cursor: int, values: seq<int>, i: nat)
    requires u.live <= u.ever && Increasing(values) && GlobalRun(u, b, cursor, values) && i < |values|
    ensures var again := Usage(u.live, u.ever + Elements(values));
      && NextGlobal(RegisterAll(again, values[..i]), b, values[i]) == Some(values[i])
      && (i + 1 < |values| ==> CursorAt(again, b, values[0], values, i + 1) == values[i + 1])
  {
    var again := Usage(u.live, u.ever + Elements(values));
    var first, second := RegisterAll(u, values[..i]), RegisterAll(again, values[..i]);
    ElementsPrefix(values, i);
    assert StepAt(u, b, cursor, values, i);
    assert values[i] in Elements(values);
    NextGlobalSound(first, b, CursorAt(u, b, cursor, values, i));
    ExactMeans(second, b, values[i]);
    if i + 1 < |values| {
      ElementsPrefix(values, i + 1);
      first, second := RegisterAll(u, values[..i + 1]), RegisterAll(again, values[..i + 1]);
      assert StepAt(u, b, cursor, values, i + 1);
      NextAfter(first, b, values[i], values[i + 1]);
      assert values[i + 1] in Elements(values);
      FoundAgain(first, b, values[i] + 1, values[i + 1], second);
    }
  }

  // ---------------------------------------------------------------- the round trip

  lemma BatchRows(s: Space, q: Request, allocation: int, ids: seq<int>)
    requires GrantMany(s, q, allocation, ids).Ok? && OfAllocation(s.entries, allocation) == {}
    ensures OfAllocation(GrantMany(s, q, allocation, ids).value.0.entries, allocation) == Elements(ids)
  {
    BatchFrame(s, q, allocation, ids);
    var s1 := GrantMany(s, q, allocation, ids).value.0;
    forall id | id in OfAllocation(s1.entries, allocation) ensures id in ids {
      assert id in s.entries ==> id in OfAllocation(s.entries, allocation);
    }
  }

  lemma RowsReleased(t: Table, ids: seq<int>, values: seq<int>)
    requires |ids| == |values|
    requires forall i :: 0 <= i < |ids| ==> ids[i] in t && t[ids[i]].value == values[i] && t[ids[i]].status == Active
    ensures Released(t, Elements(ids)) == Elements(values)
  {
    forall v | v in Released(t, Elements(ids)) ensures v in values {
      var id :| id in Elements(ids) && id in t && t[id].status == Active && t[id].value == v;
      var i :| 0 <= i < |ids| && ids[i] == id;
      assert values[i] == v;
    }
    forall v | v in values ensures v in Released(t, Elements(ids)) {
      var i :| 0 <= i < |values| && values[i] == v;
      var id := ids[i];
      assert id in Elements(ids) && id in t && t[id].status == Active && t[id].value == v;
    }
  }

  lemma BatchUndone(s: Space, q: Request, allocation: int, ids: seq<int>)
    requires GrantMany(s, q, allocation, ids).Ok?
    ensures var t := MarkRevoked(GrantMany(s, q, allocation, ids).value.0.entries, Elements(ids));
      && LiveValues(t) == LiveValues(s.entries) && (SymbolTaken(t, q.symbol) ==> SymbolTaken(s.entries, q.symbol))
  {
    BatchFrame(s, q, allocation, ids);
    var s1 := GrantMany(s, q, allocation, ids).value.0;
    var t := MarkRevoked(s1.entries, Elements(ids));
    forall id | id in t ensures if id in s.entries then t[id] == s.entries[id] else t[id].status == Revoked {
      if id !in s.entries {
        var i :| 0 <= i < |ids| && ids[i] == id;
      }
    }
    forall v | v in LiveValues(s.entries) ensures v in LiveValues(t) {
      var id :| id in s.entries && s.entries[id].status != Revoked && s.entries[id].value == v;
      assert t[id].value == v;
    }
  }

  lemma RevokeBatchIs(s: Space, allocation: int, ids: set<int>)
    requires ids != {} && OfAllocation(s.entries, allocation) == ids && !AnyDeprecated(s.entries, ids)
    ensures Apply(s, RevokeBatch(allocation)) == (Revoke(s, ids), Done)
  {
  }

  lemma PullBackToFirst(next: int, values: seq<int>)
    requires values != [] && Increasing(values) && values[|values| - 1] < next
    ensures PullBack(next, Elements(values)) == values[0]
  {
    assert values[0] in Elements(values);
    assert SetMin(Elements(values)) == values[0];
  }

  /** The rows of a batch are all there is of its allocation, ACTIVE, with its values. */
  lemma BatchRowsActive(s: Space, q: Request, allocation: int, ids: seq<int>)
    requires GrantMany(s, q, allocation, ids).Ok? && ids != []
    ensures var (s1, values) := GrantMany(s, q, allocation, ids).value;
      && |values| == |ids| && Released(s1.entries, Elements(ids)) == Elements(values)
      && Elements(ids) != {} && !AnyDeprecated(s1.entries, Elements(ids))
  {
    BatchFrame(s, q, allocation, ids);
    var (s1, values) := GrantMany(s, q, allocation, ids).value;
    RowsReleased(s1.entries, ids, values);
    assert ids[0] in Elements(ids);
  }

  /** Revoking a whole batch frees exactly its values and pulls the cursor to the first of them. */
  lemma RevokedBatch(s: Space, q: Request, allocation: int, ids: seq<int>)
    requires GrantMany(s, q, allocation, ids).Ok? && ids != [] && OfAllocation(s.entries, allocation) == {}
    ensures var (s1, values) := GrantMany(s, q, allocation, ids).value;
      var (s2, outcome) := Apply(s1, RevokeBatch(allocation)); var u := UsageOf(s.entries);
      && |values| == |ids| && outcome == Done && s2.bounds == s.bounds && s2.active == s.active
      && UsageOf(s2.entries) == Usage(u.live, u.ever + Elements(values)) && s2.next == values[0]
      && s2.entries.Keys == s1.entries.Keys && (SymbolTaken(s2.entries, q.symbol) ==> SymbolTaken(s.entries, q.symbol))
  {
    var (s1, values) := GrantMany(s, q, allocation, ids).value;
    BatchShape(s, q, allocation, ids);
    BatchRows(s, q, allocation, ids);
    BatchRowsActive(s, q, allocation, ids);
    RevokeBatchIs(s1, allocation, Elements(ids));
    BatchGrows(s, q, allocation, ids);
    PullBackToFirst(s1.next, values);
    BatchUsage(s, q, allocation, ids);
    BatchUndone(s, q, allocation, ids);
    UsageAfterRevoke(s1.entries, Elements(ids));
  }

  /** Round trip: a global batch, its revocation, and a second batch of the same size return the same
      values in the same order, however the first batch mixed reused and fresh values. */
  lemma AllocateRevokeAllocate(s: Space, q: Request, a1: int, ids1: seq<int>, s1: Space, values: seq<int>, a2: int,
                               ids2: seq<int>)
    requires OwnsNothing(s.bounds, q.project) && OfAllocation(s.entries, a1) == {}
    requires Apply(s, Batch(q, a1, ids1)) == (s1, Granted(values))
    requires |ids2| == |ids1| && forall j :: 0 <= j < |ids2| ==> ids2[j] !in s1.entries
    requires forall j, k :: 0 <= j < k < |ids2| ==> ids2[j] != ids2[k]
    ensures Apply(s1, RevokeBatch(a1)).1 == Done
    ensures Apply(Apply(s1, RevokeBatch(a1)).0, Batch(q, a2, ids2)).1 == Granted(values)
  {
    RevokedBatch(s, q, a1, ids1);
    SymbolFree(s, q, a1, ids1);
    BatchGrows(s, q, a1, ids1);
    BatchFrame(s, q, a1, ids1);
    BatchIsGlobalRun(s, q, a1, ids1);
    RunRepeats(UsageOf(s.entries), s.bounds, s.next, values);
    var s2 := Apply(s1, RevokeBatch(a1)).0;
    GlobalRunIsBatch(s2, q, a2, ids2, values);
  }
}
