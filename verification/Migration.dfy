/**
  The one-time move of the legacy tables into columns of the namespace and entry tables, and why equal
  row counts before and after mean that nothing was lost.
 */
module Migration {
  import opened Basics

  // ---------------------------------------------------------------- lists held by namespaces

  /** A legacy alias or range row: the namespace it belongs to and what it holds. */
  datatype OwnedRow<+T> = OwnedRow(owner: int, item: T)

  /** The namespace's rows, in the order they are read. */
  function RowsOf<T>(rows: seq<OwnedRow<T>>, owner: int): seq<T> {
    if rows == [] then [] else
      var before := RowsOf(rows[..|rows| - 1], owner);
      var last := rows[|rows| - 1];
      if last.owner == owner then before + [last.item] else before
  }

  /** The column after every namespace with legacy rows had its list written; other lists stay. */
  function Grouped<T>(rows: seq<OwnedRow<T>>, column: map<int, seq<T>>): map<int, seq<T>> {
    map id | id in column :: if RowsOf(rows, id) == [] then column[id] else RowsOf(rows, id)
  }

  /** `SUM(JSON_LENGTH(list))`. */
  function Total<T>(column: map<int, seq<T>>): nat
    decreases |column|
  {
    if column.Keys == {} then 0 else
      var id := SetMin(column.Keys);
      assert |column - {id}| < |column| by { Smaller(column, id); }
      |column[id]| + Total(column - {id})
  }

  lemma Smaller<T>(m: map<int, T>, id: int)
    requires id in m
    ensures (m - {id}).Keys == m.Keys - {id}
    ensures |m - {id}| < |m|
  {
  }

  /** Each legacy row is in its own namespace's list, at the place its reading order gives it. */
  ghost predicate ListsKept<T>(rows: seq<OwnedRow<T>>, column: map<int, seq<T>>) {
    forall i :: 0 <= i < |rows| ==> SitsIn(rows, i, column)
  }

  ghost predicate SitsIn<T>(rows: seq<OwnedRow<T>>, i: nat, column: map<int, seq<T>>)
    requires i < |rows|
  {
    var place := |RowsOf(rows[..i], rows[i].owner)|;
    rows[i].owner in column && place < |column[rows[i].owner]| && column[rows[i].owner][place] == rows[i].item
  }

  /** Every list that no legacy row goes to was empty. */
  ghost predicate ListsClean<T>(rows: seq<OwnedRow<T>>, column: map<int, seq<T>>) {
    forall id :: id in column && RowsOf(rows, id) == [] ==> column[id] == []
  }

  // ---------------------------------------------------------------- columns filled by a join

  /** A legacy link or revocation row: the entry it belongs to and what it sets. */
  datatype Link<+T> = Link(entry: int, data: T)

  predicate Linked<T>(links: seq<Link<T>>, entry: int) {
    exists i :: 0 <= i < |links| && links[i].entry == entry
  }

  /** `UPDATE ... JOIN`: each entry with matching rows gets the data of one of them, whichever it is. */
  ghost predicate JoinUpdate<T>(links: seq<Link<T>>, before: map<int, T>, after: map<int, T>) {
    && after.Keys == before.Keys
    && (forall id :: id in before && !Linked(links, id) ==> after[id] == before[id])
    && (forall id :: id in before && Linked(links, id) ==>
      exists i :: 0 <= i < |links| && links[i].entry == id && links[i].data == after[id])
  }

  /** The entries the count query sees. */
  function Filled<T>(filled: T -> bool, column: map<int, T>): set<int> {
    set id | id in column && filled(column[id])
  }

  /** Each legacy row has an entry of its own that carries its data and is counted. */
  ghost predicate LinksKept<T>(filled: T -> bool, links: seq<Link<T>>, column: map<int, T>) {
    && (forall i :: 0 <= i < |links| ==>
      links[i].entry in column && column[links[i].entry] == links[i].data && filled(links[i].data))
    && (forall i, j :: 0 <= i < j < |links| ==> links[i].entry != links[j].entry)
  }

  /** No entry was filled before, except entries the legacy rows overwrite. */
  ghost predicate LinksClean<T>(filled: T -> bool, links: seq<Link<T>>, column: map<int, T>) {
    forall id :: id in Filled(filled, column) ==> Linked(links, id)
  }

  // ---------------------------------------------------------------- counting lists

  /** How many rows belong to one of the namespaces. */
  function CountIn<T>(rows: seq<OwnedRow<T>>, owners: set<int>): nat {
    if rows == [] then 0 else
      CountIn(rows[..|rows| - 1], owners) + (if rows[|rows| - 1].owner in owners then 1 else 0)
  }

  lemma {:induction false} CountInAll<T>(rows: seq<OwnedRow<T>>, owners: set<int>)
    ensures CountIn(rows, owners) <= |rows|
    ensures CountIn(rows, owners) == |rows| <==> forall i :: 0 <= i < |rows| ==> rows[i].owner in owners
    decreases |rows|
  {
    if rows != [] {
      var before := rows[..|rows| - 1];
      CountInAll(before, owners);
      assert forall i :: 0 <= i < |before| ==> before[i] == rows[i];
    }
  }

  lemma {:induction false} CountInSplit<T>(rows: seq<OwnedRow<T>>, owners: set<int>, owner: int)
    requires owner in owners
    ensures CountIn(rows, owners) == |RowsOf(rows, owner)| + CountIn(rows, owners - {owner})
    decreases |rows|
  {
    if rows != [] {
      CountInSplit(rows[..|rows| - 1], owners, owner);
    }
  }

  /** The lists no legacy row goes to. */
  function Untouched<T>(rows: seq<OwnedRow<T>>, column: map<int, seq<T>>): map<int, seq<T>> {
    map id | id in column && RowsOf(rows, id) == [] :: column[id]
  }

  lemma TotalStep<T>(column: map<int, seq<T>>, id: int)
    requires id in column && forall other :: other in column ==> id <= other
    ensures Total(column) == |column[id]| + Total(column - {id})
  {
  }

  /** What taking one namespace away does to both sides of `GroupedTotal`. */
  lemma GroupedLess<T>(rows: seq<OwnedRow<T>>, column: map<int, seq<T>>, id: int)
    requires id in column
    ensures Grouped(rows, column) - {id} == Grouped(rows, column - {id})
    ensures RowsOf(rows, id) == [] ==>
      id in Untouched(rows, column) && Untouched(rows, column) - {id} == Untouched(rows, column - {id})
    ensures RowsOf(rows, id) != [] ==> Untouched(rows, column) == Untouched(rows, column - {id})
  {
  }

  lemma {:induction false} GroupedTotal<T>(rows: seq<OwnedRow<T>>, column: map<int, seq<T>>)
    ensures Total(Grouped(rows, column)) == CountIn(rows, column.Keys) + Total(Untouched(rows, column))
    decreases |column|
  {
    if column.Keys == {} {
      CountInNone(rows);
      assert Grouped(rows, column).Keys == {} && Untouched(rows, column).Keys == {};
    } else {
      var id := SetMin(column.Keys);
      Smaller(column, id);
      GroupedTotal(rows, column - {id});
      CountInSplit(rows, column.Keys, id);
      GroupedLess(rows, column, id);
      TotalStep(Grouped(rows, column), id);
      if RowsOf(rows, id) == [] {
        TotalStep(Untouched(rows, column), id);
      }
    }
  }

  lemma {:induction false} CountInNone<T>(rows: seq<OwnedRow<T>>)
    ensures CountIn(rows, {}) == 0
    decreases |rows|
  {
    if rows != [] {
      CountInNone(rows[..|rows| - 1]);
    }
  }

  lemma {:induction false} TotalZero<T>(column: map<int, seq<T>>)
    ensures Total(column) == 0 <==> forall id :: id in column ==> column[id] == []
    decreases |column|
  {
    if column.Keys != {} {
      var id := SetMin(column.Keys);
      Smaller(column, id);
      var rest := column - {id};
      TotalZero(rest);
      assert forall other :: other in rest <==> other in column && other != id;
      assert forall other :: other in column ==> other == id || column[other] == rest[other];
    }
  }

  /** Where row i ends up among its namespace's rows. */
  lemma {:induction false} RowPlace<T>(rows: seq<OwnedRow<T>>, i: nat)
    requires i < |rows|
    ensures var place := |RowsOf(rows[..i], rows[i].owner)|;
      place < |RowsOf(rows, rows[i].owner)| && RowsOf(rows, rows[i].owner)[place] == rows[i].item
    decreases |rows|
  {
    var n := |rows| - 1;
    if i < n {
      assert rows[..n][..i] == rows[..i];
      RowPlace(rows[..n], i);
    }
  }

  /** Equal counts, clean lists and no loss: any two of them imply the third. */
  lemma ListCounts<T>(rows: seq<OwnedRow<T>>, before: map<int, seq<T>>)
    ensures var after := Grouped(rows, before);
      var same := |rows| == Total(after);
      && (same && ListsClean(rows, before) ==> ListsKept(rows, after))
      && (same && ListsKept(rows, after) ==> ListsClean(rows, before))
      && (ListsClean(rows, before) && ListsKept(rows, after) ==> same)
  {
    var after := Grouped(rows, before);
    GroupedTotal(rows, before);
    CountInAll(rows, before.Keys);
    TotalZero(Untouched(rows, before));
    KeptWhenOwned(rows, before);
    var untouched := Untouched(rows, before);
    assert forall id :: id in untouched ==> untouched[id] == before[id];
    assert forall id :: id in before && RowsOf(rows, id) == [] ==> id in untouched;
    assert ListsClean(rows, before) <==> Total(untouched) == 0;
  }

  lemma KeptWhenOwned<T>(rows: seq<OwnedRow<T>>, before: map<int, seq<T>>)
    ensures ListsKept(rows, Grouped(rows, before)) <==> forall i :: 0 <= i < |rows| ==> rows[i].owner in before
  {
    var after := Grouped(rows, before);
    forall i | 0 <= i < |rows| ensures SitsIn(rows, i, after) <==> rows[i].owner in before {
      RowPlace(rows, i);
    }
  }

  // ---------------------------------------------------------------- counting links

  function EntriesOf<T>(links: seq<Link<T>>): seq<int> {
    seq(|links|, i requires 0 <= i < |links| => links[i].entry)
  }

  /** Pigeonhole: a sequence has at most as many distinct members as places, and just as many exactly
      when no member repeats. */
  lemma {:induction false} Pigeonhole(q: seq<int>)
    ensures |Elements(q)| <= |q|
    ensures |Elements(q)| == |q| <==> forall i, j :: 0 <= i < j < |q| ==> q[i] != q[j]
    decreases |q|
  {
    if q == [] {
      assert Elements(q) == {};
    } else {
      var n := |q| - 1;
      var before, x := q[..n], q[n];
      Pigeonhole(before);
      assert q == before + [x];
      ElementsAppend(before, x);
      assert forall i :: 0 <= i < n ==> before[i] == q[i];
      if x in before {
        assert Elements(q) == Elements(before);
      } else {
        assert |Elements(q)| == |Elements(before)| + 1;
      }
    }
  }

  lemma FilledAfter<T>(filled: T -> bool, links: seq<Link<T>>, before: map<int, T>, after: map<int, T>)
    requires JoinUpdate(links, before, after)
    ensures LinksClean(filled, links, before) ==> Filled(filled, after) <= Elements(EntriesOf(links))
    ensures LinksKept(filled, links, after) ==> Elements(EntriesOf(links)) <= Filled(filled, after)
    ensures forall id :: id in Elements(EntriesOf(links)) <==> Linked(links, id)
  {
    var q := EntriesOf(links);
    forall id ensures id in Elements(q) <==> Linked(links, id) {
      if Linked(links, id) {
        var i :| 0 <= i < |links| && links[i].entry == id;
        assert q[i] == id;
      }
    }
    if LinksClean(filled, links, before) {
      forall id | id in Filled(filled, after) ensures id in Elements(q) {
        assert !Linked(links, id) ==> id in Filled(filled, before);
      }
    }
    if LinksKept(filled, links, after) {
      forall id | id in Elements(q) ensures id in Filled(filled, after) {
        var i :| 0 <= i < |q| && q[i] == id;
        assert links[i].entry == id;
      }
    }
  }

  /** Every row kept, once its entry exists, is counted, and is no one else's. */
  lemma KeptWhenDistinct<T>(filled: T -> bool, links: seq<Link<T>>, before: map<int, T>, after: map<int, T>)
    requires JoinUpdate(links, before, after)
    requires forall i, j :: 0 <= i < j < |links| ==> links[i].entry != links[j].entry
    requires forall i :: 0 <= i < |links| ==> links[i].entry in Filled(filled, after)
    ensures LinksKept(filled, links, after)
  {
  }

  /** Equal counts, a clean column and no loss: any two of them imply the third, whichever matching row
      the database picked for each entry. */
  lemma LinkCounts<T>(filled: T -> bool, links: seq<Link<T>>, before: map<int, T>, after: map<int, T>)
    requires JoinUpdate(links, before, after)
    ensures var same := |links| == |Filled(filled, after)|;
      && (same && LinksClean(filled, links, before) ==> LinksKept(filled, links, after))
      && (same && LinksKept(filled, links, after) ==> LinksClean(filled, links, before))
      && (LinksClean(filled, links, before) && LinksKept(filled, links, after) ==> same)
  {
    var q := EntriesOf(links);
    var ids, counted := Elements(q), Filled(filled, after);
    Pigeonhole(q);
    FilledAfter(filled, links, before, after);
    if LinksClean(filled, links, before) {
      SubsetOfSize(counted, ids);
      if |links| == |counted| {
        assert forall i :: 0 <= i < |links| ==> q[i] == links[i].entry && q[i] in ids;
        KeptWhenDistinct(filled, links, before, after);
      }
    }
    if LinksKept(filled, links, after) {
      SubsetOfSize(ids, counted);
      assert |ids| == |links|;
      if |links| == |counted| {
        assert forall id :: id in Filled(filled, before) && !Linked(links, id) ==> id in counted;
      }
    }
  }

  /** Without a clean column equal counts prove nothing: of two rows for one entry one is lost, and an
      entry filled earlier makes up the number. */
  lemma CountsCanHideALoss()
    ensures exists links: seq<Link<string>>, before, after ::
      JoinUpdate(links, before, after) && |links| == |Filled(s => s != "", after)|
        && !LinksKept(s => s != "", links, after)
  {
    var links := [Link(1, "a"), Link(1, "b")];
    var before: map<int, string> := map[1 := "", 2 := "z"];
    var after: map<int, string> := map[1 := "a", 2 := "z"];
    assert links[0].entry == 1 && links[0].data == after[1];
    assert Linked(links, 1) && !Linked(links, 2);
    assert Filled(s => s != "", after) == {1, 2};
    assert links[0].entry == links[1].entry;
    assert JoinUpdate(links, before, after);
  }

  /** The same for lists: the row of a missing namespace is lost, and a list filled earlier makes up the number. */
  lemma ListCountsCanHideALoss<T>(lost: T, earlier: T)
    ensures var rows := [OwnedRow(1, lost)]; var before := map[2 := [earlier]];
      && Grouped(rows, before) == before && |rows| == Total(before) && !ListsKept(rows, before)
  {
    var rows, before := [OwnedRow(1, lost)], map[2 := [earlier]];
    assert RowsOf(rows, 2) == RowsOf(rows[..0], 2) == [];
    assert Grouped(rows, before) == before;
    TotalStep(before, 2);
    assert (before - {2}).Keys == {};
    assert !SitsIn(rows, 0, before);
  }
}
