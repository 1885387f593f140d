/** Revoking a batch against revoking its entries one by one, and revoking it again later. */
module RevocationRules {
  import opened Basics
  import opened Candidates
  import opened Spaces
  import opened NamespaceRules

  /** Revoke single entries in the given order; a refusal leaves the namespace as it was. */
  function RevokeEach(s: Space, ids: seq<int>): Space {
    if ids == [] then s else Apply(RevokeEach(s, ids[..|ids| - 1]), RevokeOne(ids[|ids| - 1])).0
  }

  lemma PullBackTwice(next: int, a: set<int>, b: set<int>)
    ensures PullBack(PullBack(next, a), b) == PullBack(next, a + b)
  {
  }

  lemma RevokeTwice(s: Space, a: set<int>, id: int)
    requires id in s.entries
    ensures Revoke(Revoke(s, a), {id}) == Revoke(s, a + {id})
  {
    var t, t1 := s.entries, MarkRevoked(s.entries, a);
    assert MarkRevoked(t1, {id}) == MarkRevoked(t, a + {id});
    var ra, rb := Released(t, a), Released(t1, {id});
    PullBackTwice(s.next, ra, rb);
    forall v ensures v in ra + rb <==> v in Released(t, a + {id}) {
      if v in Released(t, a + {id}) {
        var i :| i in a + {id} && i in t && t[i].status == Active && t[i].value == v;
        if i !in a {
          assert t1[i] == t[i];
        }
      }
      if v in ra {
        var i :| i in a && i in t && t[i].status == Active && t[i].value == v;
        assert i in a + {id};
      }
      if v in rb {
        var i :| i in {id} && i in t1 && t1[i].status == Active && t1[i].value == v;
        assert i in a + {id} && t[i].value == v && t[i].status == Active;
      }
    }
    assert ra + rb == Released(t, a + {id});
  }

  /** Refused or not, revoking an entry is revoking the set of it. */
  lemma RevokeOneIs(s: Space, id: int)
    requires id in s.entries
    ensures Apply(s, RevokeOne(id)).0 == Revoke(s, {id})
  {
    if s.entries[id].status == Deprecated {
      assert MarkRevoked(s.entries, {id}) == s.entries;
      assert Released(s.entries, {id}) == {};
    }
  }

  /** One by one, in whatever order, deprecated entries refused: the same as all at once. */
  lemma {:induction false} EachIsAll(s: Space, ids: seq<int>)
    requires forall i :: 0 <= i < |ids| ==> ids[i] in s.entries
    ensures RevokeEach(s, ids) == Revoke(s, Elements(ids))
    decreases |ids|
  {
    if ids == [] {
      assert MarkRevoked(s.entries, {}) == s.entries;
      assert Released(s.entries, {}) == {};
    } else {
      var before, id := ids[..|ids| - 1], ids[|ids| - 1];
      EachIsAll(s, before);
      assert ids == before + [id];
      ElementsAppend(before, id);
      RevokeTwice(s, Elements(before), id);
      RevokeOneIs(Revoke(s, Elements(before)), id);
    }
  }

  predicate AnyActive(t: Table, ids: set<int>) {
    exists id :: id in ids && id in t && t[id].status == Active
  }

  lemma RevokeChanges(s: Space, ids: set<int>)
    ensures Revoke(s, ids) == s <==> !AnyActive(s.entries, ids)
  {
    var t := s.entries;
    if AnyActive(t, ids) {
      var id :| id in ids && id in t && t[id].status == Active;
      assert MarkRevoked(t, ids)[id] != t[id];
    } else {
      forall id | id in t ensures MarkRevoked(t, ids)[id] == t[id] {
        assert id in ids ==> t[id].status != Active;
      }
      assert MarkRevoked(t, ids) == t;
      assert Released(t, ids) == {};
    }
  }

  /** Revoking an allocation is revoking its entries one by one exactly when none of them is
      DEPRECATED, or none is ACTIVE (and both then change nothing). */
  lemma BatchIsEachExactly(s: Space, allocation: int, ids: seq<int>)
    requires Elements(ids) == OfAllocation(s.entries, allocation)
    ensures Apply(s, RevokeBatch(allocation)).0 == RevokeEach(s, ids)
      <==> !AnyDeprecated(s.entries, Elements(ids)) || !AnyActive(s.entries, Elements(ids))
  {
    assert forall i :: 0 <= i < |ids| ==> ids[i] in Elements(ids);
    EachIsAll(s, ids);
    RevokeChanges(s, Elements(ids));
  }

  /** With one ACTIVE and one DEPRECATED entry they differ: the allocation is refused, the ACTIVE entry is not. */
  lemma MixedAllocationDiffers()
    ensures var s := Space(9, Bounds(None, None, []), true,
                           map[1 := Entry(3, "", "", 7, Active), 2 := Entry(4, "", "", 7, Deprecated)]);
      && OfAllocation(s.entries, 7) == Elements([1, 2])
      && Apply(s, RevokeBatch(7)) == (s, Failed(Conflict)) && RevokeEach(s, [1, 2]) != s
  {
    var t: Table := map[1 := Entry(3, "", "", 7, Active), 2 := Entry(4, "", "", 7, Deprecated)];
    var s := Space(9, Bounds(None, None, []), true, t);
    var ids := [1, 2];
    assert ids[0] == 1 && ids[1] == 2;
    assert OfAllocation(t, 7) == Elements(ids) == {1, 2};
    assert t[1].status == Active && t[2].status == Deprecated;
    assert AnyActive(t, {1, 2}) && AnyDeprecated(t, {1, 2});
    BatchIsEachExactly(s, 7, ids);
  }

  // ---------------------------------------------------------------- no transaction deprecates an entry

  predicate NoneDeprecated(t: Table) {
    forall id :: id in t ==> t[id].status != Deprecated
  }

  lemma {:induction false} RunDeprecatesNone(s: Space, ops: seq<Op>)
    requires NoneDeprecated(s.entries)
    ensures NoneDeprecated(Run(s, ops).entries)
    decreases |ops|
  {
    if ops != [] {
      var s1, op := Run(s, ops[..|ops| - 1]), ops[|ops| - 1];
      RunDeprecatesNone(s, ops[..|ops| - 1]);
      if op.Batch? && GrantMany(s1, op.request, op.allocation, op.ids).Ok? {
        BatchDeprecatesNone(s1, op.request, op.allocation, op.ids);
      }
    }
  }

  lemma BatchDeprecatesNone(s: Space, q: Request, allocation: int, ids: seq<int>)
    requires NoneDeprecated(s.entries) && GrantMany(s, q, allocation, ids).Ok?
    ensures NoneDeprecated(GrantMany(s, q, allocation, ids).value.0.entries)
  {
    BatchFrame(s, q, allocation, ids);
    var t := GrantMany(s, q, allocation, ids).value.0.entries;
    forall id | id in t && id !in s.entries ensures t[id].status == Active {
      var i :| 0 <= i < |ids| && ids[i] == id;
    }
  }

  /** So in any run that starts without DEPRECATED entries, from a new namespace say, revoking an
      allocation is always revoking its entries one by one. */
  lemma BatchIsEachInRuns(s: Space, ops: seq<Op>, allocation: int, ids: seq<int>)
    requires NoneDeprecated(s.entries) && Elements(ids) == OfAllocation(Run(s, ops).entries, allocation)
    ensures Apply(Run(s, ops), RevokeBatch(allocation)).0 == RevokeEach(Run(s, ops), ids)
  {
    RunDeprecatesNone(s, ops);
    BatchIsEachExactly(Run(s, ops), allocation, ids);
  }

  // ---------------------------------------------------------------- revoking again

  predicate AllRevoked(t: Table, ids: set<int>) {
    forall id :: id in ids && id in t ==> t[id].status == Revoked
  }

  predicate DrawsToken(ops: seq<Op>, allocation: int) {
    exists i :: 0 <= i < |ops| && ops[i].Batch? && ops[i].allocation == allocation
  }

  predicate SameRow(e: Entry, e': Entry) {
    e'.value == e.value && e'.allocation == e.allocation && (e.status != Active ==> e' == e)
  }

  /** A row keeps its value and token, a row not ACTIVE keeps its status, and a token not drawn again gains no rows. */
  lemma StepKeepsRows(s: Space, op: Op)
    ensures var s' := Apply(s, op).0;
      && (forall id :: id in s.entries ==> id in s'.entries && SameRow(s.entries[id], s'.entries[id]))
      && (forall id :: id in s'.entries && id !in s.entries ==> op.Batch? && s'.entries[id].allocation == op.allocation)
  {
    if op.Batch? && GrantMany(s, op.request, op.allocation, op.ids).Ok? {
      BatchFrame(s, op.request, op.allocation, op.ids);
    }
  }

  lemma {:induction false} RunKeepsRevoked(s: Space, ops: seq<Op>, allocation: int)
    requires AllRevoked(s.entries, OfAllocation(s.entries, allocation)) && !DrawsToken(ops, allocation)
    ensures var t := Run(s, ops).entries; AllRevoked(t, OfAllocation(t, allocation))
    ensures forall id :: id in s.entries ==>
      id in Run(s, ops).entries && Run(s, ops).entries[id].allocation == s.entries[id].allocation
    decreases |ops|
  {
    if ops != [] {
      var before, op := ops[..|ops| - 1], ops[|ops| - 1];
      RunKeepsRevoked(s, before, allocation);
      StepKeepsRows(Run(s, before), op);
      assert op.Batch? ==> op.allocation != allocation;
      var t0, t := Run(s, before).entries, Run(s, ops).entries;
      forall id | id in OfAllocation(t, allocation) ensures t[id].status == Revoked {
        assert id in OfAllocation(t0, allocation);
      }
    }
  }

  /** Once an allocation is revoked, revoking it again after any later run succeeds and changes nothing:
      neither the cursor nor any entry that has since been issued one of the freed values. */
  lemma RevokingAgainChangesNothing(s: Space, allocation: int, ops: seq<Op>)
    requires Apply(s, RevokeBatch(allocation)).1 == Done && !DrawsToken(ops, allocation)
    ensures var later := Run(Apply(s, RevokeBatch(allocation)).0, ops);
      Apply(later, RevokeBatch(allocation)) == (later, Done)
  {
    var s1 := Apply(s, RevokeBatch(allocation)).0;
    var ids := OfAllocation(s.entries, allocation);
    forall id | id in OfAllocation(s1.entries, allocation) ensures s1.entries[id].status == Revoked {
      assert id in ids;
    }
    RunKeepsRevoked(s1, ops, allocation);
    var later := Run(s1, ops);
    var id := Member(ids);
    assert id in OfAllocation(later.entries, allocation);
    RevokeChanges(later, OfAllocation(later.entries, allocation));
  }
}
