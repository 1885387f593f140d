/** How batches use up the values reserved for their project: least first, and nothing else meanwhile. */
module OwnGrants {
  import opened Basics
  import opened Ranges
  import opened Candidates
  import opened Spaces
  import opened NamespaceRules

  function Owned(s: Space, project: string): set<int> {
    OwnFree(LiveValues(s.entries), s.bounds.ranges, project)
  }

  function Waiting(s: Space): set<int> {
    Pending(UsageOf(s.entries), s.bounds)
  }

  /** `rest` is `own` without its `n` least members. */
  predicate LeastTaken(own: set<int>, rest: set<int>, n: int) {
    rest <= own && |rest| == |own| - n && forall x, y :: x in own - rest && y in rest ==> x < y
  }

  lemma GrantTakesLeast(s: Space, q: Request, allocation: int, id: int)
    requires Grant(s, q, allocation, id).Ok? && Owned(s, q.project) != {}
    ensures var (s', v) := Grant(s, q, allocation, id).value; var own := Owned(s, q.project);
      v == SetMin(own) && Owned(s', q.project) == own - {v} && Waiting(s') == Waiting(s)
  {
    GrantFacts(s, q, allocation, id);
    var (s', v) := Grant(s, q, allocation, id).value;
    assert v in Owned(s, q.project);
  }

  lemma LeastOneMore(own: set<int>, rest: set<int>, n: int)
    requires LeastTaken(own, rest, n) && n < |own|
    ensures rest != {} && LeastTaken(own, rest - {SetMin(rest)}, n + 1)
  {
    assert rest != {};
    assert own - (rest - {SetMin(rest)}) == own - rest + {SetMin(rest)};
  }

  /** While the project has free values, a batch takes the least of them and leaves released values alone. */
  lemma {:induction false} BatchTakesLeast(s: Space, q: Request, allocation: int, ids: seq<int>)
    requires GrantMany(s, q, allocation, ids).Ok? && |ids| <= |Owned(s, q.project)|
    ensures var s' := GrantMany(s, q, allocation, ids).value.0;
      LeastTaken(Owned(s, q.project), Owned(s', q.project), |ids|) && Waiting(s') == Waiting(s)
    decreases |ids|
  {
    if ids != [] {
      var n := |ids| - 1;
      BatchTakesLeast(s, q, allocation, ids[..n]);
      var s1 := GrantMany(s, q, allocation, ids[..n]).value.0;
      LeastOneMore(Owned(s, q.project), Owned(s1, q.project), n);
      GrantTakesLeast(s1, q, allocation, ids[n]);
    }
  }

  /** A batch frees nothing: reserved values of the project and released values only get fewer. */
  lemma BatchShrinks(s: Space, q: Request, allocation: int, ids: seq<int>)
    requires GrantMany(s, q, allocation, ids).Ok?
    ensures var s' := GrantMany(s, q, allocation, ids).value.0;
      Owned(s', q.project) <= Owned(s, q.project) && Waiting(s') <= Waiting(s)
  {
    BatchFrame(s, q, allocation, ids);
    BatchUsage(s, q, allocation, ids);
  }

  /** Which of the project's values are gone after `n` grants. */
  lemma TakenExactly(own: set<int>, rest: set<int>, n: int, below: set<int>)
    requires LeastTaken(own, rest, n) && below <= own && 0 <= n <= |below|
    requires forall x, y :: x in below && y in own - below ==> x < y
    ensures |below| == n ==> rest == own - below
    ensures |below| > n ==> exists x :: x in below && x in rest
  {
    var taken := own - rest;
    assert own == taken + rest;
    assert |taken| == n;
    if forall x :: x in below ==> x !in rest {
      assert below <= taken;
      SubsetOfSize(below, taken);
    } else if |below| == n {
      var x :| x in below && x in rest;
      forall y | y in taken ensures y in below {
        assert y < x;
        assert y in own - below ==> x < y;
      }
      assert taken <= below - {x};
      SubsetOfSize(taken, below - {x});
    }
  }

  // ---------------------------------------------------------------- when live values stay within the maximum

  lemma SomeLeft(s: Space, q: Request, allocation: int, ids: seq<int>)
    requires GrantMany(s, q, allocation, ids).Ok? && |ids| < |Owned(s, q.project)|
    ensures Owned(GrantMany(s, q, allocation, ids).value.0, q.project) != {}
  {
    BatchTakesLeast(s, q, allocation, ids);
    LeastOneMore(Owned(s, q.project), Owned(GrantMany(s, q, allocation, ids).value.0, q.project), |ids|);
  }

  /** As long as the project has free values, a batch without a symbol gets them. */
  lemma {:induction false} OwnBatchSucceeds(s: Space, q: Request, allocation: int, ids: seq<int>)
    requires q.symbol == "" && |ids| <= |Owned(s, q.project)|
    requires forall i :: 0 <= i < |ids| ==> ids[i] !in s.entries
    requires forall i, j :: 0 <= i < j < |ids| ==> ids[i] != ids[j]
    ensures GrantMany(s, q, allocation, ids).Ok?
    decreases |ids|
  {
    if ids != [] {
      var before, id := ids[..|ids| - 1], ids[|ids| - 1];
      OwnBatchSucceeds(s, q, allocation, before);
      SomeLeft(s, q, allocation, before);
      BatchKeys(s, q, allocation, before);
      assert id !in before;
      OwnGrantSucceeds(GrantMany(s, q, allocation, before).value.0, q, allocation, id);
      BatchOneMore(s, q, allocation, ids);
    }
  }

  lemma OwnGrantSucceeds(s: Space, q: Request, allocation: int, id: int)
    requires q.symbol == "" && Owned(s, q.project) != {} && id !in s.entries
    ensures Grant(s, q, allocation, id).Ok?
  {
    ValueKeyNeverHit(s, q, allocation, id);
    assert Chosen(s, q.project).Own?;
  }

  /** A value the project owns is live once as many values as it owns have been granted. */
  lemma OwnedGetsIssued(s: Space, q: Request, allocation: int, ids: seq<int>, v: int)
    requires GrantMany(s, q, allocation, ids).Ok? && |ids| == |Owned(s, q.project)| && v in Owned(s, q.project)
    ensures v in LiveValues(GrantMany(s, q, allocation, ids).value.0.entries)
  {
    BatchTakesLeast(s, q, allocation, ids);
    BatchFrame(s, q, allocation, ids);
    var s' := GrantMany(s, q, allocation, ids).value.0;
    assert Owned(s', q.project) == {};
    var i :| 0 <= i < |s.bounds.ranges| && s.bounds.ranges[i].project == q.project
      && s.bounds.ranges[i].start <= v <= s.bounds.ranges[i].end;
    assert v !in LiveValues(s'.entries) ==> v in Owned(s', q.project);
  }

  lemma ExceedsMaximum(s: Space) returns (ops: seq<Op>)
    requires s.entries == map[] && s.active && !OwnedWithinMax(s.bounds)
    ensures !LiveWithinMax(Run(s, ops))
  {
    var i :| 0 <= i < |s.bounds.ranges| && s.bounds.ranges[i].project != ""
      && s.bounds.ranges[i].start <= s.bounds.ranges[i].end && !BelowMax(s.bounds, s.bounds.ranges[i].end);
    var r := s.bounds.ranges[i];
    var q := Request(r.project, "");
    assert Holds(s.bounds.ranges[i], r.end);
    OwnFreeMeans(LiveValues(s.entries), s.bounds.ranges, r.project, r.end);
    var ids := seq(|Owned(s, r.project)|, j requires 0 <= j => j);
    OwnBatchSucceeds(s, q, 1, ids);
    OwnedGetsIssued(s, q, 1, ids, r.end);
    BatchFrame(s, q, 1, ids);
    ops := [Batch(q, 1, ids)];
    assert ops[..0] == [];
    assert Run(s, ops) == Apply(s, ops[0]).0 == GrantMany(s, q, 1, ids).value.0;
  }

  /** Every run of a new namespace keeps its live values within the maximum exactly when no range that
      belongs to a project ends above it. */
  lemma UpperBoundExactly(s: Space)
    requires s.entries == map[] && s.active
    ensures (forall ops :: LiveWithinMax(Run(s, ops))) <==> OwnedWithinMax(s.bounds)
  {
    if OwnedWithinMax(s.bounds) {
      forall ops ensures LiveWithinMax(Run(s, ops)) {
        RunWithinMax(s, ops);
      }
    } else {
      var ops := ExceedsMaximum(s);
    }
  }
}
