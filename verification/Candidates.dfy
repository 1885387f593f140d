/**
  Which value an allocation takes, stated on the sets a namespace's entries give rise to,
  and what the stored cursor has to do with it.
 */
module Candidates {
  import opened Basics
  import opened Ranges

  /** `live`: values held by a non-REVOKED entry; `ever`: values any entry was ever registered with. */
  datatype Usage = Usage(live: set<int>, ever: set<int>)

  datatype Bounds = Bounds(min: Option<int>, max: Option<int>, ranges: seq<ReservedRange>)

  predicate AboveMin(b: Bounds, v: int) {
    b.min.Some? ==> b.min.value <= v
  }

  predicate BelowMax(b: Bounds, v: int) {
    b.max.Some? ==> v <= b.max.value
  }

  function Floor(b: Bounds, start: int): int {
    if b.min.Some? && start < b.min.value then b.min.value else start
  }

  /** Released values a global allocation may hand out again, whatever the cursor says. */
  function Pending(u: Usage, b: Bounds): set<int> {
    set v | v in u.ever - u.live && AboveMin(b, v) && !Reserved(b.ranges, v)
  }

  function PendingInBounds(u: Usage, b: Bounds): set<int> {
    set v | v in Pending(u, b) && BelowMax(b, v)
  }

  function Reusable(u: Usage, b: Bounds, floor: int): set<int> {
    set v | v in u.ever - u.live && floor <= v && BelowMax(b, v) && !Reserved(b.ranges, v)
  }

  /** The first value, from `floor` on, above everything ever registered. */
  function AboveHighWater(u: Usage, floor: int): int {
    if u.ever != {} && floor <= SetMax(u.ever) then SetMax(u.ever) + 1 else floor
  }

  function NextGlobal(u: Usage, b: Bounds, start: int): Option<int> {
    var floor := Floor(b, start);
    if Reusable(u, b, floor) != {} then Some(SetMin(Reusable(u, b, floor)))
    else LeastUnreserved(b.ranges, b.max, AboveHighWater(u, floor))
  }

  /** Free values of the ranges reserved for `project`; "" owns nothing. */
  function OwnFree(live: set<int>, ranges: seq<ReservedRange>, project: string): set<int> {
    if project == "" then {} else
      set i, v | 0 <= i < |ranges| && ranges[i].project == project
        && ranges[i].start <= v <= ranges[i].end && v !in live :: v
  }

  lemma OwnFreeMeans(live: set<int>, ranges: seq<ReservedRange>, project: string, v: int)
    ensures v in OwnFree(live, ranges, project) <==> v !in live && NamedBy(ranges, v, project)
    ensures NamedBy(ranges, v, project) ==> Reserved(ranges, v)
  {
    if v !in live && NamedBy(ranges, v, project) {
      var i :| 0 <= i < |ranges| && ranges[i].project == project && Holds(ranges[i], v);
      assert ranges[i].start <= v <= ranges[i].end;
    }
  }

  datatype Choice = Own(value: int) | Global(value: int) | NoValue

  function Choose(u: Usage, b: Bounds, cursor: int, project: string): Choice {
    var own := OwnFree(u.live, b.ranges, project);
    if own != {} then Own(SetMin(own))
    else match NextGlobal(u, b, cursor)
      case Some(v) => Global(v)
      case None => NoValue
  }

  function Register(u: Usage, v: int): Usage {
    Usage(u.live + {v}, u.ever + {v})
  }

  /** The cursor once `v` has been registered. */
  function Past(u: Usage, b: Bounds, v: int): int {
    match NextGlobal(u, b, v + 1)
    case Some(next) => next
    case None => v + 1
  }

  function Advance(u: Usage, b: Bounds, cursor: int, choice: Choice): int
    requires !choice.NoValue?
  {
    if choice.Own? && choice.value < cursor then cursor else Past(u, b, choice.value)
  }

  /** The cursor recomputed from scratch; only done once something is registered. */
  function Recomputed(u: Usage, b: Bounds): int {
    var start := if b.min.Some? then b.min.value else 1;
    match NextGlobal(u, b, start)
    case Some(next) => next
    case None => if b.max.Some? then b.max.value + 1 else start
  }

  // ---------------------------------------------------------------- what a global choice is

  /** A value above everything registered, unreserved, within bounds and not below the cursor. */
  predicate Fresh(u: Usage, b: Bounds, cursor: int, v: int) {
    cursor <= v && AboveMin(b, v) && BelowMax(b, v) && !Reserved(b.ranges, v) && forall x :: x in u.ever ==> x < v
  }

  lemma NextGlobalFresh(u: Usage, b: Bounds, start: int)
    requires Reusable(u, b, Floor(b, start)) == {}
    ensures var r := NextGlobal(u, b, start);
      && (r.Some? ==> Fresh(u, b, start, r.value) && forall v :: Fresh(u, b, start, v) ==> r.value <= v)
      && (r.None? ==> forall v :: !Fresh(u, b, start, v))
  {
  }

  /** Every global choice is free, unreserved, in bounds, not below where the search began, and a
      value never registered before only when it exceeds everything registered. */
  lemma NextGlobalSound(u: Usage, b: Bounds, start: int)
    requires u.live <= u.ever && NextGlobal(u, b, start).Some?
    ensures var v := NextGlobal(u, b, start).value;
      && start <= v && AboveMin(b, v) && BelowMax(b, v) && !Reserved(b.ranges, v) && v !in u.live
      && (v !in u.ever ==> Fresh(u, b, start, v))
  {
  }

  /** Searching again from the value found finds it again. */
  lemma NextGlobalIdempotent(u: Usage, b: Bounds, start: int)
    requires NextGlobal(u, b, start).Some?
    ensures NextGlobal(u, b, NextGlobal(u, b, start).value) == NextGlobal(u, b, start)
  {
    var v := NextGlobal(u, b, start).value;
    if Reusable(u, b, Floor(b, start)) == {} {
      NextGlobalFresh(u, b, start);
      assert Reusable(u, b, Floor(b, v)) == {};
      NextGlobalFresh(u, b, v);
    } else {
      assert v in Reusable(u, b, Floor(b, start));
      assert v in Reusable(u, b, Floor(b, v));
      assert Reusable(u, b, Floor(b, v)) <= Reusable(u, b, Floor(b, start));
    }
  }

  /** A released value, from `start` on, that a global allocation may hand out. */
  predicate ReleasedFrom(u: Usage, b: Bounds, start: int, v: int) {
    v in u.ever && v !in u.live && start <= v && AboveMin(b, v) && BelowMax(b, v) && !Reserved(b.ranges, v)
  }

  /** What a global search from `start` is for: the least released value, failing that the least fresh
      one, failing both nothing. */
  ghost predicate Finds(u: Usage, b: Bounds, start: int, r: Option<int>) {
    if exists v :: ReleasedFrom(u, b, start, v) then
      r.Some? && ReleasedFrom(u, b, start, r.value) && forall v :: ReleasedFrom(u, b, start, v) ==> r.value <= v
    else if exists v :: Fresh(u, b, start, v) then
      r.Some? && Fresh(u, b, start, r.value) && forall v :: Fresh(u, b, start, v) ==> r.value <= v
    else r.None?
  }

  /** The search finds that, wherever it starts. */
  lemma NextGlobalMeans(u: Usage, b: Bounds, start: int)
    ensures Finds(u, b, start, NextGlobal(u, b, start))
  {
    var reusable := Reusable(u, b, Floor(b, start));
    assert forall v :: v in reusable <==> ReleasedFrom(u, b, start, v);
    if reusable == {} {
      NextGlobalFresh(u, b, start);
    } else {
      var v := Member(reusable);
      assert ReleasedFrom(u, b, start, v);
    }
  }

  // ---------------------------------------------------------------- the cursor invariant

  /** No released value a global allocation could reuse lies below the cursor. */
  predicate CursorCovers(u: Usage, b: Bounds, cursor: int) {
    forall v :: v in Pending(u, b) ==> cursor <= v
  }

  lemma ReusableIsPending(u: Usage, b: Bounds, cursor: int)
    requires CursorCovers(u, b, cursor)
    ensures Reusable(u, b, Floor(b, cursor)) == PendingInBounds(u, b)
  {
  }

  /** Under the invariant a global allocation is the cursor-free rule: the least released value;
      failing that, the least fresh one; failing both, exhaustion. */
  lemma GlobalIsLeastReleasedElseFresh(u: Usage, b: Bounds, cursor: int)
    requires CursorCovers(u, b, cursor)
    ensures var r := NextGlobal(u, b, cursor); var released := PendingInBounds(u, b);
      && (released != {} ==> r == Some(SetMin(released)))
      && (released == {} && r.Some? ==> Fresh(u, b, cursor, r.value) && forall v :: Fresh(u, b, cursor, v) ==>
        r.value <= v)
      && (r.None? <==> released == {} && forall v :: !Fresh(u, b, cursor, v))
  {
    ReusableIsPending(u, b, cursor);
    if PendingInBounds(u, b) == {} {
      NextGlobalFresh(u, b, cursor);
    }
  }

  /** A released value above the maximum leaves no room above the high-water mark. */
  lemma NoFreshPastMax(u: Usage, b: Bounds, start: int, v: int)
    requires v in u.ever && !BelowMax(b, v)
    ensures forall w :: !Fresh(u, b, start, w)
  {
  }

  /** Wherever the search starts, what it finds lies at or below every released value not below the start. */
  lemma PastCovers(u: Usage, b: Bounds, c: int)
    requires u.live <= u.ever
    ensures c < Past(u, b, c)
    ensures forall v :: v in Pending(u, b) && c < v ==> Past(u, b, c) <= v
  {
    if NextGlobal(u, b, c + 1).Some? {
      NextGlobalSound(u, b, c + 1);
      forall v | v in Pending(u, b) && c < v ensures Past(u, b, c) <= v {
        PastBelow(u, b, c, v);
      }
    }
  }

  lemma PastBelow(u: Usage, b: Bounds, c: int, v: int)
    requires u.live <= u.ever && NextGlobal(u, b, c + 1).Some? && v in Pending(u, b) && c < v
    ensures NextGlobal(u, b, c + 1).value <= v
  {
    var found := Reusable(u, b, Floor(b, c + 1));
    if found == {} {
      assert v !in found;
      NextGlobalFresh(u, b, c + 1);
      NoFreshPastMax(u, b, c + 1, v);
    } else if BelowMax(b, v) {
      assert v in found;
    }
  }

  lemma CursorAfterGlobal(u: Usage, b: Bounds, cursor: int, c: int)
    requires u.live <= u.ever && CursorCovers(u, b, cursor)
    requires NextGlobal(u, b, cursor) == Some(c)
    ensures CursorCovers(Register(u, c), b, Past(Register(u, c), b, c))
  {
    var u' := Register(u, c);
    NextGlobalSound(u, b, cursor);
    PastCovers(u', b, c);
    forall v | v in Pending(u', b) ensures c < v {
      assert v in Pending(u, b) && v != c;
      GlobalIsLeastReleasedElseFresh(u, b, cursor);
      if BelowMax(b, v) {
        assert v in PendingInBounds(u, b);
      } else {
        NoFreshPastMax(u, b, cursor, v);
      }
    }
  }

  /** A grant from a reserved range keeps the invariant exactly when the cursor stays put or no
      released value is waiting below the grant. */
  lemma CursorAfterOwn(u: Usage, b: Bounds, cursor: int, c: int)
    requires u.live <= u.ever && CursorCovers(u, b, cursor)
    requires Reserved(b.ranges, c)
    ensures CursorCovers(Register(u, c), b, Advance(Register(u, c), b, cursor, Own(c)))
      <==> (c < cursor || forall v :: v in Pending(u, b) ==> c < v)
  {
    var u' := Register(u, c);
    assert Pending(u', b) == Pending(u, b);
    if c >= cursor {
      PastCovers(u', b, c);
    }
  }

  /** A released value: the cursor is pulled back to it. */
  lemma CursorAfterRelease(u: Usage, b: Bounds, cursor: int, u': Usage, released: set<int>, cursor': int)
    requires CursorCovers(u, b, cursor)
    requires u'.ever == u.ever && u.live <= u'.live + released
    requires cursor' <= cursor && forall v :: v in released ==> cursor' <= v
    ensures CursorCovers(u', b, cursor')
  {
    forall v | v in Pending(u', b) ensures cursor' <= v {
      assert v in released || v in Pending(u, b);
    }
  }

  /** New bounds, same ranges: the invariant survives exactly when no released value sits in the
      window that lowering the minimum opens below the cursor. */
  lemma CursorAfterNewBounds(u: Usage, b: Bounds, cursor: int, min: Option<int>, max: Option<int>)
    requires CursorCovers(u, b, cursor)
    ensures var b' := Bounds(min, max, b.ranges);
      CursorCovers(u, b', Floor(b', cursor)) <==>
        forall v :: v in u.ever - u.live && !Reserved(b.ranges, v) && AboveMin(b', v) && !AboveMin(b, v) ==> cursor <= v
  {
    var b' := Bounds(min, max, b.ranges);
    if forall v :: v in u.ever - u.live && !Reserved(b.ranges, v) && AboveMin(b', v) && !AboveMin(b, v) ==>
      cursor <= v {
      forall v | v in Pending(u, b') ensures Floor(b', cursor) <= v {
        if AboveMin(b, v) {
          assert v in Pending(u, b);
        }
      }
    } else {
      var v :| v in u.ever - u.live && !Reserved(b.ranges, v) && AboveMin(b', v) && !AboveMin(b, v) && !(cursor <= v);
      assert v in Pending(u, b') && cursor <= Floor(b', cursor);
    }
  }

  /** Where recomputing begins to look without a minimum: 1, or past a maximum below 1. */
  function RecomputeFrom(b: Bounds): int {
    if b.max.Some? && b.max.value < 1 then b.max.value + 1 else 1
  }

  /** Recomputing establishes the invariant exactly when a minimum is set or nothing released lies
      below the value the search begins at. */
  lemma RecomputedCovers(u: Usage, b: Bounds)
    requires u.live <= u.ever
    ensures CursorCovers(u, b, Recomputed(u, b))
      <==> b.min.Some? || forall v :: v in Pending(u, b) ==> RecomputeFrom(b) <= v
  {
    var start := if b.min.Some? then b.min.value else 1;
    if b.min.None? && b.max.Some? && b.max.value < 1 {
      assert Reusable(u, b, start) == {};
      NextGlobalFresh(u, b, start);
    } else if b.min.Some? || forall v :: v in Pending(u, b) ==> 1 <= v {
      assert CursorCovers(u, b, start);
      GlobalIsLeastReleasedElseFresh(u, b, start);
      forall v | v in Pending(u, b) ensures Recomputed(u, b) <= v {
        if BelowMax(b, v) {
          assert v in PendingInBounds(u, b);
        } else {
          NoFreshPastMax(u, b, start, v);
        }
      }
    } else if NextGlobal(u, b, start).Some? {
      NextGlobalSound(u, b, start);
    }
  }
}
