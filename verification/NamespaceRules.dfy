/** What every transaction of a namespace keeps, over whole runs. */
module NamespaceRules {
  import opened Basics
  import opened Ranges
  import opened Candidates
  import opened Spaces

  // ---------------------------------------------------------------- batches grow

  lemma PastExceeds(u: Usage, b: Bounds, c: int)
    requires u.live <= u.ever
    ensures c < Past(u, b, c)
  {
  }

  lemma GrantAdvances(s: Space, q: Request, allocation: int, id: int)
    requires Grant(s, q, allocation, id).Ok?
    ensures var (s', v) := Grant(s, q, allocation, id).value;
      && v < s'.next
      && (forall w :: w in OwnFree(LiveValues(s'.entries), s.bounds.ranges, q.project) ==> v < w)
      && (s.next <= v || v in OwnFree(LiveValues(s.entries), s.bounds.ranges, q.project))
      && s.next <= s'.next
  {
    GrantFacts(s, q, allocation, id);
    var (s', v) := Grant(s, q, allocation, id).value;
    var u := UsageOf(s.entries);
    PastExceeds(Register(u, v), s.bounds, v);
    assert OwnFree(LiveValues(s'.entries), s.bounds.ranges, q.project)
      == OwnFree(u.live, s.bounds.ranges, q.project) - {v};
    if Chosen(s, q.project).Global? {
      NextGlobalSound(u, s.bounds, s.next);
    }
  }

  /** One more grant after a batch, if there was one. */
  function Extended(before: Result<(Space, seq<int>)>, q: Request, allocation: int, id: int)
    : Result<(Space, seq<int>)>
  {
    match before
    case Err(e) => Err(e)
    case Ok((s1, values)) =>
      match Grant(s1, q, allocation, id)
      case Err(e) => Err(e)
      case Ok((s2, v)) => Ok((s2, values + [v]))
  }

  lemma BatchIsExtended(s: Space, q: Request, allocation: int, ids: seq<int>)
    requires ids != []
    ensures GrantMany(s, q, allocation, ids) ==
      Extended(GrantMany(s, q, allocation, ids[..|ids| - 1]), q, allocation, ids[|ids| - 1])
  {
  }

  lemma ExtendedParts(before: Result<(Space, seq<int>)>, q: Request, allocation: int, id: int)
    returns (s1: Space, values: seq<int>, s2: Space, v: int)
    requires Extended(before, q, allocation, id).Ok?
    ensures before == Ok((s1, values)) && Grant(s1, q, allocation, id) == Ok((s2, v))
    ensures Extended(before, q, allocation, id) == Ok((s2, values + [v]))
  {
    s1, values := before.value.0, before.value.1;
    var last := Grant(s1, q, allocation, id);
    s2, v := last.value.0, last.value.1;
  }

  /** A batch is a shorter batch and one more grant. */
  lemma BatchSplit(s: Space, q: Request, allocation: int, ids: seq<int>)
    returns (s1: Space, values: seq<int>, s2: Space, v: int)
    requires ids != [] && GrantMany(s, q, allocation, ids).Ok?
    ensures GrantMany(s, q, allocation, ids[..|ids| - 1]) == Ok((s1, values))
    ensures Grant(s1, q, allocation, ids[|ids| - 1]) == Ok((s2, v))
    ensures GrantMany(s, q, allocation, ids) == Ok((s2, values + [v]))
  {
    BatchIsExtended(s, q, allocation, ids);
    s1, values, s2, v := ExtendedParts(GrantMany(s, q, allocation, ids[..|ids| - 1]), q, allocation, ids[|ids| - 1]);
  }

  /** From `s` the grants `values` led to `s'`: they increase, and whatever comes next lies above them. */
  predicate Grown(s: Space, project: string, s': Space, values: seq<int>) {
    && Increasing(values) && s'.bounds == s.bounds && s.next <= s'.next
    && (values != [] ==> AllAbove(values[|values| - 1], s', project))
  }

  predicate AllAbove(last: int, s: Space, project: string) {
    last < s.next && forall w :: w in OwnFree(LiveValues(s.entries), s.bounds.ranges, project) ==> last < w
  }

  lemma GrownStep(s: Space, q: Request, s1: Space, values: seq<int>, allocation: int, id: int, s2: Space, v: int)
    requires Grown(s, q.project, s1, values) && Grant(s1, q, allocation, id) == Ok((s2, v))
    ensures Grown(s, q.project, s2, values + [v])
  {
    GrantAdvances(s1, q, allocation, id);
    GrantFacts(s1, q, allocation, id);
    assert values != [] ==> values[|values| - 1] < v;
  }

  lemma {:induction false} BatchGrows(s: Space, q: Request, allocation: int, ids: seq<int>)
    requires GrantMany(s, q, allocation, ids).Ok?
    ensures var (s', values) := GrantMany(s, q, allocation, ids).value;
      |values| == |ids| && Grown(s, q.project, s', values)
    decreases |ids|
  {
    if ids != [] {
      var s1, values, s2, v := BatchSplit(s, q, allocation, ids);
      BatchGrows(s, q, allocation, ids[..|ids| - 1]);
      GrownStep(s, q, s1, values, allocation, ids[|ids| - 1], s2, v);
    }
  }

  /** A batch hands out strictly increasing values, also when it exhausts several overlapping
      ranges of its project and spills into the global area. */
  lemma BatchIncreasing(s: Space, q: Request, allocation: int, ids: seq<int>, s': Space, values: seq<int>)
    requires GrantMany(s, q, allocation, ids) == Ok((s', values))
    ensures |values| == |ids| && Increasing(values)
  {
    BatchGrows(s, q, allocation, ids);
  }

  // ---------------------------------------------------------------- one holder per value

  lemma GrantUnique(s: Space, q: Request, allocation: int, id: int)
    requires UniqueLive(s.entries) && Grant(s, q, allocation, id).Ok?
    ensures UniqueLive(Grant(s, q, allocation, id).value.0.entries)
  {
    GrantFacts(s, q, allocation, id);
    var v := Grant(s, q, allocation, id).value.1;
    forall i | i in s.entries && s.entries[i].status != Revoked ensures s.entries[i].value != v {
      assert s.entries[i].value in LiveValues(s.entries);
    }
  }

  lemma {:induction false} BatchUnique(s: Space, q: Request, allocation: int, ids: seq<int>)
    requires UniqueLive(s.entries) && GrantMany(s, q, allocation, ids).Ok?
    ensures UniqueLive(GrantMany(s, q, allocation, ids).value.0.entries)
    decreases |ids|
  {
    if ids != [] {
      BatchUnique(s, q, allocation, ids[..|ids| - 1]);
      GrantUnique(GrantMany(s, q, allocation, ids[..|ids| - 1]).value.0, q, allocation, ids[|ids| - 1]);
    }
  }

  lemma RevokeUnique(s: Space, ids: set<int>)
    requires UniqueLive(s.entries)
    ensures UniqueLive(Revoke(s, ids).entries)
  {
  }

  lemma ApplyUnique(s: Space, op: Op)
    requires UniqueLive(s.entries)
    ensures UniqueLive(Apply(s, op).0.entries)
  {
    match op
    case Batch(q, allocation, ids) =>
      if GrantMany(s, q, allocation, ids).Ok? {
        BatchUnique(s, q, allocation, ids);
      }
    case RevokeOne(id) => RevokeUnique(s, {id});
    case RevokeBatch(allocation) => RevokeUnique(s, OfAllocation(s.entries, allocation));
    case Recalculate =>
    case Update(min, max, active) =>
  }

  /** Over any run every live value keeps a single holder. */
  lemma {:induction false} RunUnique(s: Space, ops: seq<Op>)
    requires UniqueLive(s.entries)
    ensures UniqueLive(Run(s, ops).entries)
    decreases |ops|
  {
    if ops != [] {
      RunUnique(s, ops[..|ops| - 1]);
      ApplyUnique(Run(s, ops[..|ops| - 1]), ops[|ops| - 1]);
    }
  }

  // ---------------------------------------------------------------- frames

  lemma {:induction false} BatchShape(s: Space, q: Request, allocation: int, ids: seq<int>)
    requires GrantMany(s, q, allocation, ids).Ok?
    ensures var (s', values) := GrantMany(s, q, allocation, ids).value;
      && s'.bounds == s.bounds && s'.active == s.active && |values| == |ids|
      && s'.entries.Keys == s.entries.Keys + Elements(ids)
    decreases |ids|
  {
    if ids != [] {
      var n := |ids| - 1;
      ElementsLast(ids);
      var s1, values, s2, v := BatchSplit(s, q, allocation, ids);
      BatchShape(s, q, allocation, ids[..n]);
      GrantFacts(s1, q, allocation, ids[n]);
    }
  }

  lemma {:induction false} BatchKeepsRows(s: Space, q: Request, allocation: int, ids: seq<int>)
    requires GrantMany(s, q, allocation, ids).Ok?
    ensures var t' := GrantMany(s, q, allocation, ids).value.0.entries;
      forall id :: id in s.entries ==> id !in ids && id in t' && t'[id] == s.entries[id]
    decreases |ids|
  {
    if ids != [] {
      var n := |ids| - 1;
      ElementsLast(ids);
      var s1, values, s2, v := BatchSplit(s, q, allocation, ids);
      BatchKeepsRows(s, q, allocation, ids[..n]);
      GrantFacts(s1, q, allocation, ids[n]);
    }
  }

  /** The table has a row of that batch for each id, with the value beside it. */
  predicate RowsOf(t: Table, ids: seq<int>, values: seq<int>, q: Request, allocation: int) {
    |values| == |ids| && forall i :: 0 <= i < |ids| ==>
      ids[i] in t && t[ids[i]] == Entry(values[i], q.symbol, q.project, allocation, Active)
  }

  lemma RowsOneMore(t: Table, ids: seq<int>, values: seq<int>, q: Request, allocation: int, v: int)
    requires ids != [] && RowsOf(t, ids[..|ids| - 1], values, q, allocation) && ids[|ids| - 1] !in t
    ensures var row := Entry(v, q.symbol, q.project, allocation, Active);
      RowsOf(t[ids[|ids| - 1] := row], ids, values + [v], q, allocation)
  {
    var before := ids[..|ids| - 1];
    assert forall i :: 0 <= i < |before| ==> ids[i] == before[i];
  }

  lemma {:induction false} BatchAddsRows(s: Space, q: Request, allocation: int, ids: seq<int>)
    requires GrantMany(s, q, allocation, ids).Ok?
    ensures var (s', values) := GrantMany(s, q, allocation, ids).value; RowsOf(s'.entries, ids, values, q, allocation)
    decreases |ids|
  {
    if ids != [] {
      var n := |ids| - 1;
      var s1, values, s2, v := BatchSplit(s, q, allocation, ids);
      BatchAddsRows(s, q, allocation, ids[..n]);
      GrantFacts(s1, q, allocation, ids[n]);
      RowsOneMore(s1.entries, ids, values, q, allocation, v);
    }
  }

  /** A batch adds exactly its own rows, one per value in order, and leaves every other row as it was. */
  lemma BatchFrame(s: Space, q: Request, allocation: int, ids: seq<int>)
    requires GrantMany(s, q, allocation, ids).Ok?
    ensures var (s', values) := GrantMany(s, q, allocation, ids).value;
      && s'.bounds == s.bounds && s'.active == s.active && |values| == |ids|
      && s'.entries.Keys == s.entries.Keys + Elements(ids)
      && (forall id :: id in s.entries ==> id !in ids && s'.entries[id] == s.entries[id])
      && (forall i :: 0 <= i < |ids| ==>
          ids[i] in s'.entries && s'.entries[ids[i]] == Entry(values[i], q.symbol, q.project, allocation, Active))
  {
    BatchShape(s, q, allocation, ids);
    BatchKeepsRows(s, q, allocation, ids);
    BatchAddsRows(s, q, allocation, ids);
  }

  lemma BatchKeys(s: Space, q: Request, allocation: int, ids: seq<int>)
    requires GrantMany(s, q, allocation, ids).Ok?
    ensures GrantMany(s, q, allocation, ids).value.0.entries.Keys == s.entries.Keys + Elements(ids)
  {
    BatchFrame(s, q, allocation, ids);
  }

  /** A batch succeeds when all but its last grant do, and that one does. */
  lemma BatchOneMore(s: Space, q: Request, allocation: int, ids: seq<int>)
    requires ids != [] && GrantMany(s, q, allocation, ids[..|ids| - 1]).Ok?
    requires Grant(GrantMany(s, q, allocation, ids[..|ids| - 1]).value.0, q, allocation, ids[|ids| - 1]).Ok?
    ensures GrantMany(s, q, allocation, ids).Ok?
  {
  }

  /** The rows of a batch have different ids. */
  lemma {:induction false} BatchIdsDiffer(s: Space, q: Request, allocation: int, ids: seq<int>)
    requires GrantMany(s, q, allocation, ids).Ok?
    ensures |Elements(ids)| == |ids|
    decreases |ids|
  {
    if ids == [] {
      assert Elements(ids) == {};
    } else {
      var n := |ids| - 1;
      ElementsLast(ids);
      var s1, values, s2, v := BatchSplit(s, q, allocation, ids);
      BatchIdsDiffer(s, q, allocation, ids[..n]);
      BatchShape(s, q, allocation, ids[..n]);
      GrantFacts(s1, q, allocation, ids[n]);
    }
  }

  /** What a shorter batch would have granted is a prefix of what the longer one granted. */
  lemma {:induction false} BatchPrefix(s: Space, q: Request, allocation: int, ids: seq<int>, i: nat)
    requires GrantMany(s, q, allocation, ids).Ok? && i <= |ids|
    ensures GrantMany(s, q, allocation, ids[..i]).Ok?
    ensures |GrantMany(s, q, allocation, ids).value.1| == |ids|
    ensures GrantMany(s, q, allocation, ids[..i]).value.1 == GrantMany(s, q, allocation, ids).value.1[..i]
    decreases |ids|
  {
    if i == |ids| {
      assert ids[..i] == ids;
      BatchFrame(s, q, allocation, ids);
    } else {
      assert ids[..|ids| - 1][..i] == ids[..i];
      BatchPrefix(s, q, allocation, ids[..|ids| - 1], i);
    }
  }

  function RegisterAll(u: Usage, values: seq<int>): Usage {
    Usage(u.live + Elements(values), u.ever + Elements(values))
  }

  lemma RegisterAllAppend(u: Usage, values: seq<int>, v: int)
    ensures Register(RegisterAll(u, values), v) == RegisterAll(u, values + [v])
  {
  }

  lemma {:induction false} BatchUsage(s: Space, q: Request, allocation: int, ids: seq<int>)
    requires GrantMany(s, q, allocation, ids).Ok?
    ensures var (s', values) := GrantMany(s, q, allocation, ids).value;
      UsageOf(s'.entries) == RegisterAll(UsageOf(s.entries), values)
    decreases |ids|
  {
    if ids != [] {
      var n := |ids| - 1;
      BatchUsage(s, q, allocation, ids[..n]);
      var (s1, values) := GrantMany(s, q, allocation, ids[..n]).value;
      GrantFacts(s1, q, allocation, ids[n]);
      RegisterAllAppend(UsageOf(s.entries), values, Grant(s1, q, allocation, ids[n]).value.1);
    }
  }

  lemma {:induction false} RangesKept(s: Space, ops: seq<Op>)
    ensures Run(s, ops).bounds.ranges == s.bounds.ranges
    decreases |ops|
  {
    if ops != [] {
      RangesKept(s, ops[..|ops| - 1]);
      var s1, op := Run(s, ops[..|ops| - 1]), ops[|ops| - 1];
      if op.Batch? && GrantMany(s1, op.request, op.allocation, op.ids).Ok? {
        BatchFrame(s1, op.request, op.allocation, op.ids);
      }
    }
  }

  // ---------------------------------------------------------------- reserved ranges belong to their projects

  /** If the value lies in some reserved range, a range holding it names the row's project. */
  predicate RightfullyHeld(ranges: seq<ReservedRange>, e: Entry) {
    Reserved(ranges, e.value) ==> NamedBy(ranges, e.value, e.project)
  }

  predicate RangesExclusive(s: Space) {
    forall id :: id in s.entries ==> RightfullyHeld(s.bounds.ranges, s.entries[id])
  }

  /** From `t` to `t'` no row changed hands or value, and every new row is rightfully held. */
  predicate OnlyRightfulRowsAdded(ranges: seq<ReservedRange>, t: Table, t': Table) {
    forall id :: id in t' ==>
      if id in t then t'[id].value == t[id].value && t'[id].project == t[id].project
      else RightfullyHeld(ranges, t'[id])
  }

  lemma GrantRightful(s: Space, q: Request, allocation: int, id: int)
    requires Grant(s, q, allocation, id).Ok?
    ensures OnlyRightfulRowsAdded(s.bounds.ranges, s.entries, Grant(s, q, allocation, id).value.0.entries)
  {
    GrantFacts(s, q, allocation, id);
    var u := UsageOf(s.entries);
    if Chosen(s, q.project).Own? {
      assert Chosen(s, q.project).value in OwnFree(u.live, s.bounds.ranges, q.project);
    } else {
      NextGlobalSound(u, s.bounds, s.next);
    }
  }

  lemma {:induction false} BatchRightful(s: Space, q: Request, allocation: int, ids: seq<int>)
    requires GrantMany(s, q, allocation, ids).Ok?
    ensures OnlyRightfulRowsAdded(s.bounds.ranges, s.entries, GrantMany(s, q, allocation, ids).value.0.entries)
    decreases |ids|
  {
    if ids != [] {
      var before := ids[..|ids| - 1];
      BatchRightful(s, q, allocation, before);
      BatchFrame(s, q, allocation, before);
      var s1 := GrantMany(s, q, allocation, before).value.0;
      GrantRightful(s1, q, allocation, ids[|ids| - 1]);
      GrantFacts(s1, q, allocation, ids[|ids| - 1]);
    }
  }

  lemma ApplyRightful(s: Space, op: Op)
    ensures OnlyRightfulRowsAdded(s.bounds.ranges, s.entries, Apply(s, op).0.entries)
  {
    if op.Batch? && GrantMany(s, op.request, op.allocation, op.ids).Ok? {
      BatchRightful(s, op.request, op.allocation, op.ids);
    }
  }

  /** Whatever a namespace starts from, every row a run adds in a reserved range belongs to a project a
      range holding its value names; so exclusivity, once true, stays true. */
  lemma {:induction false} RunRightful(s: Space, ops: seq<Op>)
    ensures OnlyRightfulRowsAdded(s.bounds.ranges, s.entries, Run(s, ops).entries)
    ensures forall id :: id in s.entries ==> id in Run(s, ops).entries
    ensures RangesExclusive(s) ==> RangesExclusive(Run(s, ops))
    decreases |ops|
  {
    RangesKept(s, ops);
    if ops != [] {
      var s1, op := Run(s, ops[..|ops| - 1]), ops[|ops| - 1];
      RunRightful(s, ops[..|ops| - 1]);
      RangesKept(s, ops[..|ops| - 1]);
      ApplyRightful(s1, op);
      RowsStay(s1, op);
    }
  }

  lemma RowsStay(s: Space, op: Op)
    ensures forall id :: id in s.entries ==> id in Apply(s, op).0.entries
  {
    if op.Batch? && GrantMany(s, op.request, op.allocation, op.ids).Ok? {
      BatchFrame(s, op.request, op.allocation, op.ids);
    }
  }

  /** A value only project-less ranges hold is never issued: no row a run adds has it, not even when it
      was registered earlier and released. */
  lemma BlockedNeverIssued(s: Space, ops: seq<Op>, value: int)
    requires Reserved(s.bounds.ranges, value)
    requires forall i :: 0 <= i < |s.bounds.ranges| && Holds(s.bounds.ranges[i], value) ==>
      s.bounds.ranges[i].project == ""
    ensures forall id :: id in Run(s, ops).entries && id !in s.entries ==> Run(s, ops).entries[id].value != value
  {
    RunRightful(s, ops);
    assert forall project :: !NamedBy(s.bounds.ranges, value, project);
  }

  // ---------------------------------------------------------------- nothing live above the maximum

  /** No range that holds a value for some project ends above the maximum. */
  predicate OwnedWithinMax(b: Bounds) {
    forall i :: 0 <= i < |b.ranges| && b.ranges[i].project != "" && b.ranges[i].start <= b.ranges[i].end ==>
      BelowMax(b, b.ranges[i].end)
  }

  predicate WithinMax(s: Space) {
    OwnedWithinMax(s.bounds) && LiveWithinMax(s)
  }

  lemma RangesWithinOwned(b: Bounds)
    requires RangesWithin(b)
    ensures OwnedWithinMax(b)
  {
  }

  lemma OwnBelowMax(live: set<int>, b: Bounds, project: string, v: int)
    requires OwnedWithinMax(b) && v in OwnFree(live, b.ranges, project)
    ensures BelowMax(b, v)
  {
    var i :| 0 <= i < |b.ranges| && b.ranges[i].project == project && b.ranges[i].start <= v <= b.ranges[i].end;
    assert BelowMax(b, b.ranges[i].end);
  }

  lemma GrantWithinMax(s: Space, q: Request, allocation: int, id: int)
    requires WithinMax(s) && Grant(s, q, allocation, id).Ok?
    ensures WithinMax(Grant(s, q, allocation, id).value.0)
  {
    GrantFacts(s, q, allocation, id);
    var u := UsageOf(s.entries);
    var c := Chosen(s, q.project);
    if c.Own? {
      assert c.value in OwnFree(u.live, s.bounds.ranges, q.project);
      OwnBelowMax(u.live, s.bounds, q.project, c.value);
    } else {
      NextGlobalSound(u, s.bounds, s.next);
    }
  }

  lemma {:induction false} BatchWithinMax(s: Space, q: Request, allocation: int, ids: seq<int>)
    requires WithinMax(s) && GrantMany(s, q, allocation, ids).Ok?
    ensures WithinMax(GrantMany(s, q, allocation, ids).value.0)
    decreases |ids|
  {
    if ids != [] {
      BatchWithinMax(s, q, allocation, ids[..|ids| - 1]);
      GrantWithinMax(GrantMany(s, q, allocation, ids[..|ids| - 1]).value.0, q, allocation, ids[|ids| - 1]);
    }
  }

  lemma RevokeWithinMax(s: Space, ids: set<int>)
    requires WithinMax(s)
    ensures WithinMax(Revoke(s, ids))
  {
    UsageAfterRevoke(s.entries, ids);
  }

  /** No transaction puts a live value above the maximum, and accepted bounds keep every range inside. */
  lemma ApplyWithinMax(s: Space, op: Op)
    requires WithinMax(s)
    ensures WithinMax(Apply(s, op).0)
    ensures RangesWithin(s.bounds) || (op.Update? && Apply(s, op).1 == Done) ==> RangesWithin(Apply(s, op).0.bounds)
  {
    match op
    case Batch(q, allocation, ids) =>
      if GrantMany(s, q, allocation, ids).Ok? {
        BatchWithinMax(s, q, allocation, ids);
        BatchFrame(s, q, allocation, ids);
      }
    case RevokeOne(id) => RevokeWithinMax(s, {id});
    case RevokeBatch(allocation) => RevokeWithinMax(s, OfAllocation(s.entries, allocation));
    case Recalculate =>
    case Update(min, max, active) =>
      if Apply(s, op).1 == Done {
        RangesWithinOwned(Bounds(min, max, s.bounds.ranges));
      }
  }

  /** Over any run no live value exceeds the maximum of the time, and ranges once inside the bounds stay inside. */
  lemma {:induction false} RunWithinMax(s: Space, ops: seq<Op>)
    requires WithinMax(s)
    ensures WithinMax(Run(s, ops))
    ensures RangesWithin(s.bounds) ==> RangesWithin(Run(s, ops).bounds)
    decreases |ops|
  {
    if ops != [] {
      RunWithinMax(s, ops[..|ops| - 1]);
      ApplyWithinMax(Run(s, ops[..|ops| - 1]), ops[|ops| - 1]);
    }
  }

  // ---------------------------------------------------------------- the high-water rule

  predicate AllBelow(s: set<int>, q: seq<int>) {
    forall x, y :: x in s && y in q ==> x < y
  }

  /** `q` lists, in increasing order, values that went into `after` on top of `before`. */
  predicate GrewBy(before: set<int>, after: set<int>, q: seq<int>) {
    Increasing(q) && AllBelow(before, q) && before <= after && forall x :: x in q ==> x in after
  }

  lemma GrewTwice(s0: set<int>, s1: set<int>, s2: set<int>, a: seq<int>, b: seq<int>)
    requires GrewBy(s0, s1, a) && GrewBy(s1, s2, b)
    ensures GrewBy(s0, s2, a + b)
  {
    assert forall x :: x in a + b ==> x in a || x in b;
    forall i, j | 0 <= i < j < |a + b| ensures (a + b)[i] < (a + b)[j] {
      if i < |a| <= j {
        assert a[i] in a && b[j - |a|] in b;
      }
    }
  }

  function FreshGrant(s: Space, project: string, v: int): seq<int> {
    if Chosen(s, project).Global? && v !in EverValues(s.entries) then [v] else []
  }

  lemma GrantHighWater(s: Space, q: Request, allocation: int, id: int)
    requires Grant(s, q, allocation, id).Ok?
    ensures var (s', v) := Grant(s, q, allocation, id).value; var ever := EverValues(s.entries);
      EverValues(s'.entries) == ever + {v} && GrewBy(ever, ever + {v}, FreshGrant(s, q.project, v))
  {
    GrantFacts(s, q, allocation, id);
    if Chosen(s, q.project).Global? {
      NextGlobalSound(UsageOf(s.entries), s.bounds, s.next);
    }
  }

  /** The values a batch issued globally that had never been registered. */
  function FreshInBatch(s: Space, q: Request, allocation: int, ids: seq<int>): seq<int>
    requires GrantMany(s, q, allocation, ids).Ok?
    decreases |ids|
  {
    if ids == [] then [] else
      var s1 := GrantMany(s, q, allocation, ids[..|ids| - 1]).value.0;
      var v := Grant(s1, q, allocation, ids[|ids| - 1]).value.1;
      FreshInBatch(s, q, allocation, ids[..|ids| - 1])
        + FreshGrant(s1, q.project, v)
  }

  function FreshByOp(s: Space, op: Op): seq<int> {
    if op.Batch? && Apply(s, op).1.Granted? then FreshInBatch(s, op.request, op.allocation, op.ids) else []
  }

  function FreshIssued(s: Space, ops: seq<Op>): seq<int>
    decreases |ops|
  {
    if ops == [] then [] else
      FreshIssued(s, ops[..|ops| - 1]) + FreshByOp(Run(s, ops[..|ops| - 1]), ops[|ops| - 1])
  }

  lemma OnlyGrantsRegister(s: Space, op: Op)
    requires !Apply(s, op).1.Granted?
    ensures EverValues(Apply(s, op).0.entries) == EverValues(s.entries)
    ensures Apply(s, op).0.bounds.ranges == s.bounds.ranges
  {
    match op
    case Batch(_, _, _) =>
    case RevokeOne(id) => UsageAfterRevoke(s.entries, {id});
    case RevokeBatch(of) => UsageAfterRevoke(s.entries, OfAllocation(s.entries, of));
    case Recalculate =>
    case Update(_, _, _) =>
  }

  lemma {:induction false} BatchHighWater(s: Space, q: Request, allocation: int, ids: seq<int>)
    requires GrantMany(s, q, allocation, ids).Ok?
    ensures var issued := FreshInBatch(s, q, allocation, ids);
      var ever' := EverValues(GrantMany(s, q, allocation, ids).value.0.entries);
      GrewBy(EverValues(s.entries), ever', issued)
    decreases |ids|
  {
    if ids != [] {
      BatchHighWater(s, q, allocation, ids[..|ids| - 1]);
      var s1 := GrantMany(s, q, allocation, ids[..|ids| - 1]).value.0;
      var v := Grant(s1, q, allocation, ids[|ids| - 1]).value.1;
      GrantHighWater(s1, q, allocation, ids[|ids| - 1]);
      GrewTwice(EverValues(s.entries), EverValues(s1.entries), EverValues(s1.entries) + {v},
        FreshInBatch(s, q, allocation, ids[..|ids| - 1]), FreshGrant(s1, q.project, v));
    }
  }

  lemma OpHighWater(s: Space, op: Op)
    ensures GrewBy(EverValues(s.entries), EverValues(Apply(s, op).0.entries), FreshByOp(s, op))
  {
    if op.Batch? && Apply(s, op).1.Granted? {
      BatchHighWater(s, op.request, op.allocation, op.ids);
    } else {
      OnlyGrantsRegister(s, op);
    }
  }

  predicate IssuedAbove(s: Space, op: Op) {
    AllBelow(EverValues(s.entries), FreshByOp(s, op))
  }

  /** Over any run the globally issued, never registered values strictly increase, and those of each
      transaction exceed everything registered before that transaction. */
  lemma {:induction false} HighWaterRule(s: Space, ops: seq<Op>)
    ensures GrewBy(EverValues(s.entries), EverValues(Run(s, ops).entries), FreshIssued(s, ops))
    ensures forall k :: 0 <= k < |ops| ==> IssuedAbove(Run(s, ops[..k]), ops[k])
    decreases |ops|
  {
    forall k | 0 <= k < |ops| ensures IssuedAbove(Run(s, ops[..k]), ops[k]) {
      OpHighWater(Run(s, ops[..k]), ops[k]);
    }
    if ops != [] {
      HighWaterRule(s, ops[..|ops| - 1]);
      var s1, op := Run(s, ops[..|ops| - 1]), ops[|ops| - 1];
      OpHighWater(s1, op);
      GrewTwice(EverValues(s.entries), EverValues(s1.entries), EverValues(Apply(s1, op).0.entries),
        FreshIssued(s, ops[..|ops| - 1]), FreshByOp(s1, op));
    }
  }

  lemma GrantAbove(s: Space, q: Request, allocation: int, id: int)
    requires Grant(s, q, allocation, id).Ok? && Chosen(s, q.project).Global?
    requires Grant(s, q, allocation, id).value.1 !in EverValues(s.entries)
    ensures forall x :: x in EverValues(s.entries) ==> x < Grant(s, q, allocation, id).value.1
  {
    GrantFacts(s, q, allocation, id);
    NextGlobalSound(UsageOf(s.entries), s.bounds, s.next);
  }

  /** Inside a batch, after the grants `before`: a global value never registered exceeds everything
      registered so far, by the batch's own earlier grants too. */
  lemma HighWaterInBatch(s: Space, q: Request, allocation: int, ids: seq<int>, s1: Space, before: seq<int>, id: int,
                         v: int)
    requires GrantMany(s, q, allocation, ids) == Ok((s1, before))
    requires Grant(s1, q, allocation, id).Ok? && Grant(s1, q, allocation, id).value.1 == v
    requires Chosen(s1, q.project).Global? && v !in EverValues(s1.entries)
    ensures forall x :: x in EverValues(s.entries) || x in before ==> x < v
  {
    GrantAbove(s1, q, allocation, id);
    BatchUsage(s, q, allocation, ids);
    assert forall x :: x in before ==> x in Elements(before);
    assert UsageOf(s1.entries).ever == UsageOf(s.entries).ever + Elements(before);
  }

  /** A natural hole: unregistered, unreserved, with something registered above it. */
  predicate NaturalHole(s: Space, h: int) {
    h !in EverValues(s.entries) && !Reserved(s.bounds.ranges, h) && exists x :: x in EverValues(s.entries) && h < x
  }

  lemma {:induction false} BatchSkipsHole(s: Space, q: Request, allocation: int, ids: seq<int>, h: int)
    requires NaturalHole(s, h) && GrantMany(s, q, allocation, ids).Ok?
    ensures NaturalHole(GrantMany(s, q, allocation, ids).value.0, h)
    decreases |ids|
  {
    if ids != [] {
      BatchSkipsHole(s, q, allocation, ids[..|ids| - 1], h);
      var s1 := GrantMany(s, q, allocation, ids[..|ids| - 1]).value.0;
      GrantFacts(s1, q, allocation, ids[|ids| - 1]);
      var u := UsageOf(s1.entries);
      if Chosen(s1, q.project).Global? {
        NextGlobalSound(u, s1.bounds, s1.next);
      } else {
        assert Chosen(s1, q.project).value in OwnFree(u.live, s1.bounds.ranges, q.project);
      }
      var x :| x in EverValues(s1.entries) && h < x;
      assert x in EverValues(GrantMany(s, q, allocation, ids).value.0.entries);
    }
  }

  /** A natural hole is never issued, whatever runs afterwards. */
  lemma {:induction false} HoleNeverIssued(s: Space, ops: seq<Op>, h: int)
    requires NaturalHole(s, h)
    ensures NaturalHole(Run(s, ops), h)
    decreases |ops|
  {
    if ops != [] {
      HoleNeverIssued(s, ops[..|ops| - 1], h);
      var s1, op := Run(s, ops[..|ops| - 1]), ops[|ops| - 1];
      if op.Batch? && Apply(s1, op).1.Granted? {
        BatchSkipsHole(s1, op.request, op.allocation, op.ids, h);
      } else {
        OnlyGrantsRegister(s1, op);
      }
    }
  }
}
