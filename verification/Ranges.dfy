/** Reserved ranges: decoding order, membership, and the skip over reserved values. */
module Ranges {
  import opened Basics

  /** `project` is the trimmed, case-folded project name; "" names nobody. */
  datatype ReservedRange = ReservedRange(start: int, end: int, project: string)

  predicate Holds(r: ReservedRange, v: int) {
    r.start <= v <= r.end
  }

  predicate Reserved(ranges: seq<ReservedRange>, v: int) {
    exists i :: 0 <= i < |ranges| && Holds(ranges[i], v)
  }

  /** Some range holding the value names the project. */
  predicate NamedBy(ranges: seq<ReservedRange>, value: int, project: string) {
    project != "" && exists i :: 0 <= i < |ranges| && ranges[i].project == project && Holds(ranges[i], value)
  }

  predicate Before(a: ReservedRange, b: ReservedRange) {
    a.start < b.start || (a.start == b.start && a.end <= b.end)
  }

  predicate SortedRanges(q: seq<ReservedRange>) {
    forall i, j :: 0 <= i < j < |q| ==> Before(q[i], q[j])
  }

  function InsertRange(r: ReservedRange, q: seq<ReservedRange>): seq<ReservedRange> {
    if q == [] || Before(r, q[0]) then [r] + q else [q[0]] + InsertRange(r, q[1..])
  }

  lemma {:induction false} InsertRangeMembers(r: ReservedRange, q: seq<ReservedRange>)
    ensures multiset(InsertRange(r, q)) == multiset(q) + multiset{r}
  {
    if !(q == [] || Before(r, q[0])) {
      InsertRangeMembers(r, q[1..]);
      assert q == [q[0]] + q[1..];
    }
  }

  lemma {:induction false} InsertRangeSorted(r: ReservedRange, q: seq<ReservedRange>)
    requires SortedRanges(q)
    ensures SortedRanges(InsertRange(r, q))
  {
    if !(q == [] || Before(r, q[0])) {
      var tail := q[1..];
      assert forall i :: 0 <= i < |tail| ==> tail[i] == q[i + 1];
      InsertRangeSorted(r, tail);
      InsertRangeMembers(r, tail);
      FirstBeforeAll(q[0], r, tail, InsertRange(r, tail));
    }
  }

  lemma FirstBeforeAll(first: ReservedRange, r: ReservedRange, q: seq<ReservedRange>, rest: seq<ReservedRange>)
    requires Before(first, r) && forall i :: 0 <= i < |q| ==> Before(first, q[i])
    requires multiset(rest) == multiset(q) + multiset{r}
    ensures forall i :: 0 <= i < |rest| ==> Before(first, rest[i])
  {
    forall i | 0 <= i < |rest| ensures Before(first, rest[i]) {
      assert rest[i] in multiset(rest);
      assert rest[i] in multiset(q) || rest[i] == r;
    }
  }

  /** Stored ranges come back ordered by start, then end, whatever order they were stored in. */
  function DecodeReservedRanges(raw: seq<ReservedRange>): (q: seq<ReservedRange>)
    ensures SortedRanges(q) && multiset(q) == multiset(raw)
  {
    if raw == [] then [] else
      assert raw == [raw[0]] + raw[1..];
      var rest := DecodeReservedRanges(raw[1..]);
      InsertRangeMembers(raw[0], rest);
      InsertRangeSorted(raw[0], rest);
      InsertRange(raw[0], rest)
  }

  lemma SameMembers(a: seq<ReservedRange>, b: seq<ReservedRange>)
    requires multiset(a) == multiset(b)
    ensures forall r :: r in a <==> r in b
    ensures forall v :: Reserved(a, v) <==> Reserved(b, v)
    ensures forall v, project :: NamedBy(a, v, project) <==> NamedBy(b, v, project)
  {
    assert forall r :: r in a <==> r in multiset(a);
    assert forall r :: r in b <==> r in multiset(b);
    forall v ensures Reserved(a, v) <==> Reserved(b, v) {
      if Reserved(a, v) {
        var i :| 0 <= i < |a| && Holds(a[i], v);
        assert a[i] in b;
      }
      if Reserved(b, v) {
        var i :| 0 <= i < |b| && Holds(b[i], v);
        assert b[i] in a;
      }
    }
    forall v, project ensures NamedBy(a, v, project) <==> NamedBy(b, v, project) {
      if NamedBy(a, v, project) {
        var i :| 0 <= i < |a| && a[i].project == project && Holds(a[i], v);
        assert a[i] in b;
      }
      if NamedBy(b, v, project) {
        var i :| 0 <= i < |b| && b[i].project == project && Holds(b[i], v);
        assert b[i] in a;
      }
    }
  }

  function Top(ranges: seq<ReservedRange>): (t: int)
    ensures forall i :: 0 <= i < |ranges| ==> ranges[i].end < t
  {
    if ranges == [] then 0 else
      var t := Top(ranges[1..]);
      assert forall i :: 1 <= i < |ranges| ==> ranges[i] == ranges[1..][i - 1];
      if ranges[0].end < t then t else ranges[0].end + 1
  }

  /** The least unreserved value from `c` on that respects the maximum. */
  function LeastUnreserved(ranges: seq<ReservedRange>, max: Option<int>, c: int): (r: Option<int>)
    ensures r.Some? ==> c <= r.value && !Reserved(ranges, r.value) && (max.Some? ==> r.value <= max.value)
    ensures r.Some? ==> forall v :: c <= v < r.value ==> Reserved(ranges, v)
    ensures r.None? <==> max.Some? && forall v :: c <= v <= max.value ==> Reserved(ranges, v)
    decreases if Reserved(ranges, c) then Top(ranges) - c else 0
  {
    if max.Some? && c > max.value then None
    else if !Reserved(ranges, c) then Some(c)
    else LeastUnreserved(ranges, max, c + 1)
  }

  /** Indices of the ranges that end at or after `c`: what is left for the skip loop to jump over. */
  function EndingFrom(ranges: seq<ReservedRange>, c: int): set<int> {
    set i | 0 <= i < |ranges| && ranges[i].end >= c
  }

  lemma LeastUnreservedUnique(ranges: seq<ReservedRange>, max: Option<int>, c: int, v: int)
    requires c <= v && !Reserved(ranges, v) && (max.Some? ==> v <= max.value)
    requires forall w :: c <= w < v ==> Reserved(ranges, w)
    ensures LeastUnreserved(ranges, max, c) == Some(v)
  {
  }

  /** The first stored range that holds `c`, scanned in stored order. */
  method FirstHolding(ranges: seq<ReservedRange>, c: int) returns (i: nat)
    ensures i <= |ranges| && forall j :: 0 <= j < i ==> !Holds(ranges[j], c)
    ensures i < |ranges| ==> Holds(ranges[i], c)
  {
    i := 0;
    while i < |ranges| && !Holds(ranges[i], c)
      invariant i <= |ranges| && forall j :: 0 <= j < i ==> !Holds(ranges[j], c)
    {
      i := i + 1;
    }
  }

  /** The skip loop: jump past the first range that holds the candidate until none does. */
  method NextNonReservedValue(ranges: seq<ReservedRange>, max: Option<int>, start: int) returns (r: Option<int>)
    ensures r == LeastUnreserved(ranges, max, start)
  {
    var candidate := start;
    while true
      invariant start <= candidate
      invariant forall v :: start <= v < candidate ==> Reserved(ranges, v)
      decreases EndingFrom(ranges, candidate)
    {
      if max.Some? && candidate > max.value {
        return None;
      }
      var i := FirstHolding(ranges, candidate);
      if i == |ranges| {
        assert !Reserved(ranges, candidate);
        LeastUnreservedUnique(ranges, max, start, candidate);
        return Some(candidate);
      }
      assert forall v :: candidate <= v <= ranges[i].end ==> Holds(ranges[i], v);
      if max.Some? && ranges[i].end >= max.value {
        return None;
      }
      assert i in EndingFrom(ranges, candidate) && i !in EndingFrom(ranges, ranges[i].end + 1);
      candidate := ranges[i].end + 1;
    }
  }
}
