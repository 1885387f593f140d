/** The allocator's row loops, proved against the set-based choice. */
module Allocator {
  import opened Basics
  import opened Ranges
  import opened Candidates
  import opened Spaces

  /** Rows of: values between `start` and `end` held by a non-REVOKED entry, ordered by value. */
  function LiveRows(t: Table, start: int, end: int): seq<int> {
    Ordered(set v | v in LiveValues(t) && start <= v <= end)
  }

  /** Rows of: distinct REVOKED values from `floor` on that no non-REVOKED entry holds, ordered by value. */
  function ReusableRows(t: Table, floor: int): seq<int> {
    Ordered(set id | id in t && t[id].status == Revoked && floor <= t[id].value
                     && (forall other :: other in t && t[other].status != Revoked ==> t[other].value != t[id].value)
                     :: t[id].value)
  }

  lemma ReusableRowsMeaning(t: Table, floor: int)
    ensures forall v :: v in ReusableRows(t, floor) <==> v in EverValues(t) - LiveValues(t) && floor <= v
  {
  }

  /** The row loop of the free-value search, over rows that may repeat a value. */
  method FirstGap(rows: seq<int>, start: int, end: int) returns (r: Option<int>)
    requires NonDecreasing(rows) && forall i :: 0 <= i < |rows| ==> start <= rows[i] <= end
    ensures r.Some? ==> start <= r.value <= end && r.value !in rows && forall v :: start <= v < r.value ==> v in rows
    ensures r.None? <==> forall v :: start <= v <= end ==> v in rows
  {
    var candidate := start;
    var i := 0;
    while i < |rows|
      invariant 0 <= i <= |rows| && start <= candidate
      invariant forall v :: start <= v < candidate ==> v in rows
      invariant forall j :: 0 <= j < i ==> rows[j] < candidate
      invariant candidate == start || candidate - 1 in rows
    {
      var used := rows[i];
      if used > candidate {
        break;
      }
      if used == candidate {
        candidate := candidate + 1;
      }
      i := i + 1;
    }
    assert candidate !in rows;
    if candidate > end {
      return None;
    }
    return Some(candidate);
  }

  /** The least value of [start, end] no live entry holds; none exactly when all are held. */
  method FirstFreeInRange(t: Table, start: int, end: int) returns (r: Option<int>)
    ensures r.Some? ==> start <= r.value <= end && r.value !in LiveValues(t)
                        && forall v :: start <= v < r.value ==> v in LiveValues(t)
    ensures r.None? <==> forall v :: start <= v <= end ==> v in LiveValues(t)
  {
    var rows := LiveRows(t, start, end);
    assert forall v :: v in rows <==> v in LiveValues(t) && start <= v <= end;
    assert forall i :: 0 <= i < |rows| ==> rows[i] in rows;
    r := FirstGap(rows, start, end);
  }

  lemma DecodedUnreserved(raw: seq<ReservedRange>, max: Option<int>, c: int)
    ensures LeastUnreserved(DecodeReservedRanges(raw), max, c) == LeastUnreserved(raw, max, c)
  {
    SameMembers(DecodeReservedRanges(raw), raw);
    var r := LeastUnreserved(DecodeReservedRanges(raw), max, c);
    if r.Some? {
      LeastUnreservedUnique(raw, max, c, r.value);
    }
  }

  /** First reusable row within the maximum and outside every reserved range. */
  method FirstReusable(rows: seq<int>, b: Bounds) returns (r: Option<int>)
    requires Increasing(rows)
    ensures r.Some? ==> r.value in rows && BelowMax(b, r.value) && !Reserved(b.ranges, r.value)
    ensures r.Some? ==> forall v :: v in rows && BelowMax(b, v) && !Reserved(b.ranges, v) ==> r.value <= v
    ensures r.None? ==> forall v :: v in rows ==> !BelowMax(b, v) || Reserved(b.ranges, v)
  {
    for i := 0 to |rows|
      invariant forall j :: 0 <= j < i ==> Reserved(b.ranges, rows[j])
    {
      if !BelowMax(b, rows[i]) {
        return None;
      }
      if !Reserved(b.ranges, rows[i]) {
        return Some(rows[i]);
      }
    }
    return None;
  }

  /** The least released value the rows offer. */
  method ReusableCandidate(s: Space, floor: int) returns (r: Option<int>)
    ensures r.Some? ==> IsLeast(r.value, Reusable(UsageOf(s.entries), s.bounds, floor))
    ensures r.None? ==> forall v :: v !in Reusable(UsageOf(s.entries), s.bounds, floor)
  {
    var rows := ReusableRows(s.entries, floor);
    ReusableRowsMeaning(s.entries, floor);
    r := FirstReusable(rows, s.bounds);
  }

  /** One past the largest value ever registered, unless the floor is already above it. */
  method HighWaterCandidate(t: Table, floor: int) returns (candidate: int)
    ensures candidate == AboveHighWater(UsageOf(t), floor)
  {
    var ever := EverValues(t);
    candidate := floor;
    if ever != {} && candidate <= SetMax(ever) {
      candidate := SetMax(ever) + 1;
    }
  }

  lemma LeastReusable(u: Usage, b: Bounds, start: int, v: int)
    requires IsLeast(v, Reusable(u, b, Floor(b, start)))
    ensures NextGlobal(u, b, start) == Some(v)
  {
  }

  lemma NothingReusable(u: Usage, b: Bounds, start: int)
    requires forall v :: v !in Reusable(u, b, Floor(b, start))
    ensures NextGlobal(u, b, start) == LeastUnreserved(b.ranges, b.max, AboveHighWater(u, Floor(b, start)))
  {
    assert Reusable(u, b, Floor(b, start)) == {};
  }

  method NextGlobalCandidate(s: Space, start: int) returns (r: Option<int>)
    ensures r == NextGlobal(UsageOf(s.entries), s.bounds, start)
  {
    var b := s.bounds;
    var floor := start;
    if b.min.Some? && floor < b.min.value {
      floor := b.min.value;
    }
    var reusable := ReusableCandidate(s, floor);
    if reusable.Some? {
      LeastReusable(UsageOf(s.entries), b, start, reusable.value);
      return reusable;
    }
    NothingReusable(UsageOf(s.entries), b, start);
    var candidate := HighWaterCandidate(s.entries, floor);
    r := NextNonReservedValue(DecodeReservedRanges(b.ranges), b.max, candidate);
    DecodedUnreserved(b.ranges, b.max, candidate);
  }

  /** Every value of the project's first `i` ranges is held. */
  ghost predicate AllHeld(s: Space, project: string, ranges: seq<ReservedRange>, i: nat)
    requires i <= |ranges|
  {
    forall j, v :: 0 <= j < i && ranges[j].project == project && Holds(ranges[j], v) ==> v in LiveValues(s.entries)
  }

  lemma AllHeldOneMore(s: Space, project: string, ranges: seq<ReservedRange>, i: nat)
    requires i < |ranges| && AllHeld(s, project, ranges, i)
    requires ranges[i].project == project ==> forall v :: Holds(ranges[i], v) ==> v in LiveValues(s.entries)
    ensures AllHeld(s, project, ranges, i + 1)
  {
  }

  lemma NoneOwned(s: Space, project: string, ranges: seq<ReservedRange>)
    requires ranges == DecodeReservedRanges(s.bounds.ranges) && AllHeld(s, project, ranges, |ranges|)
    ensures OwnFree(LiveValues(s.entries), s.bounds.ranges, project) == {}
  {
    OwnInDecoded(LiveValues(s.entries), s.bounds.ranges, project);
  }

  /** The project's ranges are tried in decoded order; the first with a free value gives the least
      free value of all of them, because the order is by start. */
  method OwnCandidate(s: Space, project: string) returns (r: Option<int>)
    requires project != ""
    ensures r.Some? ==> Chosen(s, project) == Own(r.value)
    ensures r.None? ==> OwnFree(LiveValues(s.entries), s.bounds.ranges, project) == {}
  {
    var ranges := DecodeReservedRanges(s.bounds.ranges);
    for i := 0 to |ranges|
      invariant AllHeld(s, project, ranges, i)
    {
      if ranges[i].project == project {
        var free := FirstFreeInRange(s.entries, ranges[i].start, ranges[i].end);
        if free.Some? {
          LeastOfOwn(s, project, ranges, i, free.value);
          return free;
        }
      }
      AllHeldOneMore(s, project, ranges, i);
    }
    NoneOwned(s, project, ranges);
    return None;
  }

  method ChooseCandidate(s: Space, project: string) returns (c: Choice)
    ensures c == Chosen(s, project)
  {
    if project != "" {
      var own := OwnCandidate(s, project);
      if own.Some? {
        return Own(own.value);
      }
    }
    var next := NextGlobalCandidate(s, s.next);
    c := match next case Some(v) => Global(v) case None => NoValue;
  }

  /** The project's free values, read off the decoded ranges. */
  lemma OwnInDecoded(live: set<int>, raw: seq<ReservedRange>, project: string)
    ensures forall v :: v in OwnFree(live, raw, project) <==>
      v !in live && NamedBy(DecodeReservedRanges(raw), v, project)
  {
    SameMembers(DecodeReservedRanges(raw), raw);
    forall v ensures v in OwnFree(live, raw, project) <==> v !in live && NamedBy(raw, v, project) {
      OwnFreeMeans(live, raw, project, v);
    }
  }

  lemma LeastOfOwn(s: Space, project: string, ranges: seq<ReservedRange>, i: nat, c: int)
    requires project != "" && ranges == DecodeReservedRanges(s.bounds.ranges) && i < |ranges|
    requires ranges[i].project == project && Holds(ranges[i], c) && c !in LiveValues(s.entries)
    requires forall v :: ranges[i].start <= v < c ==> v in LiveValues(s.entries)
    requires AllHeld(s, project, ranges, i)
    ensures Chosen(s, project) == Own(c)
  {
    OwnInDecoded(LiveValues(s.entries), s.bounds.ranges, project);
    var own := OwnFree(LiveValues(s.entries), s.bounds.ranges, project);
    assert NamedBy(ranges, c, project);
    assert c in own;
    forall v | v in own ensures c <= v {
      var j :| 0 <= j < |ranges| && ranges[j].project == project && Holds(ranges[j], v);
      if i < j {
        assert Before(ranges[i], ranges[j]);
      }
    }
  }

  /** One pass of the batch loop: choose, insert, move the cursor unless a reserved grant lies below it. */
  method GrantNext(tx: Space, q: Request, allocation: int, id: int) returns (r: Result<(Space, int)>)
    ensures r == Grant(tx, q, allocation, id)
  {
    var c := ChooseCandidate(tx, q.project);
    if c.NoValue? {
      return Err(Exhausted);
    }
    if id in tx.entries || Clashes(tx.entries, c.value, q.symbol) {
      return Err(Conflict);
    }
    var inserted := tx.(entries := tx.entries[id := Entry(c.value, q.symbol, q.project, allocation, Active)]);
    if c.Own? && c.value < tx.next {
      return Ok((inserted, c.value));
    }
    var found := NextGlobalCandidate(inserted, c.value + 1);
    var next := if found.Some? then found.value else c.value + 1;
    assert next == Past(UsageOf(inserted.entries), tx.bounds, c.value);
    return Ok((inserted.(next := next), c.value));
  }

  lemma {:induction false} FailedPrefixFails(s: Space, q: Request, allocation: int, ids: seq<int>, i: nat)
    requires i <= |ids| && GrantMany(s, q, allocation, ids[..i]).Err?
    ensures GrantMany(s, q, allocation, ids) == GrantMany(s, q, allocation, ids[..i])
    decreases |ids|
  {
    if i == |ids| {
      assert ids[..i] == ids;
    } else {
      assert ids[..|ids| - 1][..i] == ids[..i];
      FailedPrefixFails(s, q, allocation, ids[..|ids| - 1], i);
    }
  }

  /** The batch loop over a transaction's own view: all grants, or the first failure. */
  method GrantLoop(s: Space, q: Request, allocation: int, ids: seq<int>) returns (r: Result<(Space, seq<int>)>)
    ensures r == GrantMany(s, q, allocation, ids)
  {
    var tx, values := s, [];
    for i := 0 to |ids|
      invariant GrantMany(s, q, allocation, ids[..i]) == Ok((tx, values))
    {
      PrefixStep(ids, i);
      var granted := GrantNext(tx, q, allocation, ids[i]);
      if granted.Err? {
        FailedPrefixFails(s, q, allocation, ids, i + 1);
        return Err(granted.error);
      }
      tx, values := granted.value.0, values + [granted.value.1];
    }
    assert ids[..|ids|] == ids;
    return Ok((tx, values));
  }

  // ---------------------------------------------------------------- revocation

  predicate IsLeastReleased(least: Option<int>, released: set<int>) {
    if released == {} then least.None? else least == Some(SetMin(released))
  }

  lemma MarkOneMore(t: Table, ids: set<int>, id: int)
    requires id in t
    ensures MarkRevoked(t, ids + {id})
      == if t[id].status == Active then MarkRevoked(t, ids)[id := t[id].(status := Revoked)] else MarkRevoked(t, ids)
  {
  }

  lemma LeastReleasedOneMore(least: Option<int>, released: set<int>, value: int)
    requires IsLeastReleased(least, released)
    ensures IsLeastReleased(if least.None? || value < least.value then Some(value) else least, released + {value})
  {
  }

  lemma ReleasedGrows(t: Table, ids: set<int>, id: int)
    requires id in t
    ensures Released(t, ids + {id}) == Released(t, ids) + (if t[id].status == Active then {t[id].value} else {})
  {
  }

  /** Read the targets in id order; refuse the whole allocation if one is neither ACTIVE nor REVOKED. */
  method AnyRefused(t: Table, targets: seq<int>) returns (refused: bool)
    requires forall i :: 0 <= i < |targets| ==> targets[i] in t
    ensures refused <==> AnyDeprecated(t, Elements(targets))
  {
    for i := 0 to |targets|
      invariant forall j :: 0 <= j < i ==> t[targets[j]].status != Deprecated
    {
      if t[targets[i]].status != Active && t[targets[i]].status != Revoked {
        var id := targets[i];
        assert id in Elements(targets) && id in t && t[id].status == Deprecated;
        return true;
      }
    }
    return false;
  }

  /** Revoke the targets one by one, accumulating the least released value. */
  method RevokeLoop(t: Table, targets: seq<int>) returns (entries: Table, minReleased: Option<int>)
    requires forall i :: 0 <= i < |targets| ==> targets[i] in t
    ensures entries == MarkRevoked(t, Elements(targets))
    ensures IsLeastReleased(minReleased, Released(t, Elements(targets)))
  {
    entries, minReleased := t, None;
    assert Elements(targets[..0]) == {} && MarkRevoked(t, {}) == t;
    for i := 0 to |targets|
      invariant entries == MarkRevoked(t, Elements(targets[..i]))
      invariant IsLeastReleased(minReleased, Released(t, Elements(targets[..i])))
    {
      var id := targets[i];
      PrefixStep(targets, i);
      ElementsAppend(targets[..i], id);
      ReleasedGrows(t, Elements(targets[..i]), id);
      MarkOneMore(t, Elements(targets[..i]), id);
      if t[id].status == Active {
        var value := t[id].value;
        LeastReleasedOneMore(minReleased, Released(t, Elements(targets[..i])), value);
        entries := entries[id := t[id].(status := Revoked)];
        if minReleased.None? || value < minReleased.value {
          minReleased := Some(value);
        }
      }
    }
    assert targets[..|targets|] == targets;
  }

  // ---------------------------------------------------------------- new bounds

  /** New bounds must not cut a reserved range or a live value off. */
  method BoundsFit(s: Space, b: Bounds) returns (fits: bool)
    requires b.ranges == s.bounds.ranges
    ensures fits <==> RangesWithin(b) && LiveWithinMax(s.(bounds := b))
  {
    var ranges := DecodeReservedRanges(b.ranges);
    SameMembers(ranges, b.ranges);
    assert forall k :: 0 <= k < |b.ranges| ==> b.ranges[k] in ranges;
    for i := 0 to |ranges|
      invariant forall j :: 0 <= j < i ==> AboveMin(b, ranges[j].start) && BelowMax(b, ranges[j].end)
    {
      if !AboveMin(b, ranges[i].start) || !BelowMax(b, ranges[i].end) {
        assert ranges[i] in b.ranges;
        return false;
      }
    }
    assert RangesWithin(b);
    var live := LiveValues(s.entries);
    return !(b.max.Some? && live != {} && SetMax(live) > b.max.value);
  }

  // ---------------------------------------------------------------- machine integers

  const MAX_INT64 := 0x7FFF_FFFF_FFFF_FFFF
  const MIN_INT64 := -0x8000_0000_0000_0000

  predicate Under(limit: int, u: Usage, b: Bounds) {
    (forall v :: v in u.ever ==> v < limit) && (forall i :: 0 <= i < |b.ranges| ==> b.ranges[i].end < limit)
  }

  /** From `c` the skip over reserved values ends inside 64 bits, if it ends at a value. */
  predicate SkipFits(b: Bounds, c: int) {
    var r := LeastUnreserved(b.ranges, b.max, c);
    r.Some? ==> r.value <= MAX_INT64
  }

  /** While registered values and range ends stay below the largest 64-bit integer, so that the increment
      past any of them fits, a search that starts inside the 64-bit range stays inside it: where it goes
      on above the largest registered value, where a skip over reserved values leads from anywhere, and where
      it ends. */
  lemma NoOverflow(u: Usage, b: Bounds, start: int)
    requires u.live <= u.ever && Under(MAX_INT64, u, b) && MIN_INT64 <= start <= MAX_INT64
    requires b.min.Some? ==> b.min.value <= MAX_INT64
    ensures MIN_INT64 <= AboveHighWater(u, Floor(b, start)) <= MAX_INT64
    ensures forall c :: c <= MAX_INT64 ==> SkipFits(b, c)
    ensures NextGlobal(u, b, start).Some? ==> MIN_INT64 <= NextGlobal(u, b, start).value <= MAX_INT64
  {
    assert !Reserved(b.ranges, MAX_INT64);
    if Reusable(u, b, Floor(b, start)) != {} {
      var least := SetMin(Reusable(u, b, Floor(b, start)));
      assert least in u.ever && start <= least;
    }
  }

  /** Nor does any cursor written from it leave 64 bits: after a grant below the largest integer, or recomputed. */
  lemma CursorFits(u: Usage, b: Bounds, c: int)
    requires u.live <= u.ever && Under(MAX_INT64, u, b) && MIN_INT64 <= c < MAX_INT64
    requires b.min.Some? ==> MIN_INT64 <= b.min.value <= MAX_INT64
    requires b.max.Some? ==> MIN_INT64 <= b.max.value <= MAX_INT64
    ensures MIN_INT64 <= Past(u, b, c) <= MAX_INT64
    ensures MIN_INT64 <= Recomputed(u, b) <= MAX_INT64
  {
    NoOverflow(u, b, c + 1);
    var start := if b.min.Some? then b.min.value else 1;
    NoOverflow(u, b, start);
    if NextGlobal(u, b, start).None? {
      assert !Reserved(b.ranges, MAX_INT64);
    }
  }
}
