/**
  What each change of the labels does to the rows, when it is refused, and what it leaves alone: a query
  for any label but those added or removed is answered as before.
 */
module LabelRules {
  import opened Basics
  import opened Labels

  predicate HasCode(fold: Fold, rows: seq<NamespaceRow>, code: string, i: int) {
    0 <= i < |rows| && Same(fold, code, rows[i].code)
  }

  /** Every row but row `i` is as and where it was. */
  predicate OthersSame(rows: seq<NamespaceRow>, i: int, rows': seq<NamespaceRow>) {
    0 <= i < |rows| == |rows'| && forall j :: 0 <= j < |rows| && j != i ==> rows'[j] == rows[j]
  }

  lemma CodeIsUnique(fold: Fold, rows: seq<NamespaceRow>, code: string, i: int)
    requires Good(fold, rows) && HasCode(fold, rows, code, i)
    ensures IndexOfCode(fold, rows, code) == i
  {
    var k := IndexOfCode(fold, rows, code);
    assert Owns(fold, rows[i], code);
    if k < |rows| {
      assert Owns(fold, rows[k], code);
    }
  }

  // ---------------------------------------------------------------- acceptance and effect

  /** A namespace is created exactly when its code and name are non-empty and no row's label; it goes after
      all the rows there were. */
  lemma CreationMeans(fold: Fold, rows: seq<NamespaceRow>, id: int, code: string, display: string,
                      r: Result<seq<NamespaceRow>>)
    requires ApplyChange(fold, rows, id, Introduce(code, display)) == r
    ensures code == "" || display == "" ==> r == Err(Invalid)
    ensures code != "" && display != "" ==> (r == Err(Conflict) <==>
      exists i :: 0 <= i < |rows| && (Owns(fold, rows[i], code) || Owns(fold, rows[i], display)))
    ensures r.Err? ==> r.error in {Invalid, Conflict}
    ensures r.Ok? ==>
      && |r.value| == |rows| + 1 && r.value[|rows|] == NamespaceRow(id, code, display, [])
      && forall j :: 0 <= j < |rows| ==> r.value[j] == rows[j]
  {
    if exists i :: 0 <= i < |rows| && (Owns(fold, rows[i], code) || Owns(fold, rows[i], display)) {
      var i :| 0 <= i < |rows| && (Owns(fold, rows[i], code) || Owns(fold, rows[i], display));
      assert LabelTaken(fold, rows, code) || LabelTaken(fold, rows, display);
    }
  }

  /** Refused without a row of that code or when the name is another row's label or any alias; else that
      row has the new name. */
  lemma RenameMeans(fold: Fold, rows: seq<NamespaceRow>, id: int, code: string, display: string,
                    r: Result<seq<NamespaceRow>>)
    requires Good(fold, rows) && ApplyChange(fold, rows, id, Rename(code, display)) == r
    ensures code == "" || display == "" ==> r == Err(Invalid)
    ensures code != "" && display != "" && (forall i :: !HasCode(fold, rows, code, i)) ==> r == Err(NotFound)
    ensures code != "" && display != "" ==> forall i :: HasCode(fold, rows, code, i) ==>
      if exists j :: 0 <= j < |rows| && Owns(fold, rows[j], display) && (j != i || AliasOf(fold, rows[i], display))
      then r == Err(Conflict)
      else r.Ok? && OthersSame(rows, i, r.value) && r.value[i] == rows[i].(display := display)
  {
    var k := IndexOfCode(fold, rows, code);
    forall i | HasCode(fold, rows, code, i) ensures i == k {
      CodeIsUnique(fold, rows, code, i);
    }
    if k < |rows| {
      assert HasCode(fold, rows, code, k);
      forall j | 0 <= j < |rows| ensures rows[j].id != rows[k].id <==> j != k {
      }
      assert TakenExcept(fold, rows, display, rows[k].id) <==>
        exists j :: 0 <= j < |rows| && Owns(fold, rows[j], display) && (j != k || AliasOf(fold, rows[k], display));
    }
  }

  /** One above the largest alias id in use, or 1. */
  predicate NextAfter(aliases: seq<Alias>, id: int) {
    && 1 <= id && (forall k :: 0 <= k < |aliases| ==> aliases[k].id < id)
    && (id == 1 || exists k :: 0 <= k < |aliases| && aliases[k].id == id - 1)
  }

  lemma {:induction false} NextAliasIdIsNext(aliases: seq<Alias>)
    ensures NextAfter(aliases, NextAliasId(aliases))
  {
    if aliases != [] {
      NextAliasIdIsNext(aliases[..|aliases| - 1]);
    }
  }

  /** The row with one more alias, the last, under the next id. */
  predicate AliasAdded(row: NamespaceRow, alias: string, row': NamespaceRow) {
    var n := |row.aliases|;
    && row'.id == row.id && row'.code == row.code && row'.display == row.display
    && |row'.aliases| == n + 1 && (forall k :: 0 <= k < n ==> row'.aliases[k] == row.aliases[k])
    && row'.aliases[n].text == alias && NextAfter(row.aliases, row'.aliases[n].id)
  }

  lemma AppendAdds(row: NamespaceRow, alias: string)
    ensures AliasAdded(row, alias, Append(row, alias))
  {
    NextAliasIdIsNext(row.aliases);
  }

  /** Refused without a row of that code, when it is empty or that row's own code or name, or any label
      elsewhere; else that row has it as its last alias. */
  lemma AddAliasMeans(fold: Fold, rows: seq<NamespaceRow>, id: int, code: string, alias: string,
                      r: Result<seq<NamespaceRow>>)
    requires Good(fold, rows) && ApplyChange(fold, rows, id, AddAlias(code, alias)) == r
    ensures (forall i :: !HasCode(fold, rows, code, i)) ==> r == Err(NotFound)
    ensures forall i :: HasCode(fold, rows, code, i) ==>
      if alias == "" || Same(fold, alias, rows[i].code) || Same(fold, alias, rows[i].display) then r == Err(Invalid)
      else if exists j :: 0 <= j < |rows| && Owns(fold, rows[j], alias) then r == Err(Conflict)
      else r.Ok? && OthersSame(rows, i, r.value) && AliasAdded(rows[i], alias, r.value[i])
  {
    var k := IndexOfCode(fold, rows, code);
    forall i | HasCode(fold, rows, code, i) ensures i == k {
      CodeIsUnique(fold, rows, code, i);
    }
    if k < |rows| {
      assert HasCode(fold, rows, code, k);
      AppendAdds(rows[k], alias);
    }
  }

  predicate HasAliasId(row: NamespaceRow, id: int, k: int) {
    0 <= k < |row.aliases| && row.aliases[k].id == id
  }

  /** The row without its alias `k`. */
  predicate AliasDropped(row: NamespaceRow, k: int, row': NamespaceRow) {
    && row'.id == row.id && row'.code == row.code && row'.display == row.display
    && 0 <= k < |row.aliases| == |row'.aliases| + 1
    && forall j :: 0 <= j < |row'.aliases| ==> row'.aliases[j] == row.aliases[if j < k then j else j + 1]
  }

  /** Refused for an id that is not positive, without a row of that code, or without an alias of that id;
      else that row lacks that alias. */
  lemma DropAliasMeans(fold: Fold, rows: seq<NamespaceRow>, id: int, code: string, aliasId: int,
                       r: Result<seq<NamespaceRow>>)
    requires Good(fold, rows) && ApplyChange(fold, rows, id, DropAlias(code, aliasId)) == r
    ensures aliasId <= 0 ==> r == Err(Invalid)
    ensures 0 < aliasId && (forall i :: !HasCode(fold, rows, code, i)) ==> r == Err(NotFound)
    ensures 0 < aliasId ==> forall i :: HasCode(fold, rows, code, i) ==>
      && ((forall k :: !HasAliasId(rows[i], aliasId, k)) ==> r == Err(NotFound))
      && (forall k :: HasAliasId(rows[i], aliasId, k) ==>
          r.Ok? && OthersSame(rows, i, r.value) && AliasDropped(rows[i], k, r.value[i]))
  {
    var i := IndexOfCode(fold, rows, code);
    forall j | HasCode(fold, rows, code, j) ensures j == i {
      CodeIsUnique(fold, rows, code, j);
    }
    if 0 < aliasId && i < |rows| {
      assert HasCode(fold, rows, code, i);
      var k := IndexOfAlias(rows[i].aliases, aliasId);
      forall m | HasAliasId(rows[i], aliasId, m) ensures m == k {
        assert AliasesApart(fold, rows[i]);
      }
      if k < |rows[i].aliases| {
        assert HasAliasId(rows[i], aliasId, k);
      }
    }
  }

  // ---------------------------------------------------------------- every other label

  /** The same answer, about the row as it is now. */
  function Moved(r: Resolution, row: NamespaceRow, row': NamespaceRow): Resolution {
    match r
    case Resolved(found, how) => if found == row then Resolved(row', how) else r
    case Ambiguous => Ambiguous
    case Unknown => Unknown
  }

  /** A row is found by a label in one way only. */
  lemma FoundOneWay(fold: Fold, row: NamespaceRow, query: string, how: Match, other: Match)
    requires AliasesApart(fold, row) && FoundAs(fold, row, query, how) && FoundAs(fold, row, query, other)
    ensures how == other
  {
    if how.ByAlias? {
      var j :| 0 <= j < |row.aliases| && row.aliases[j].text == how.text;
      var k :| 0 <= k < |row.aliases| && row.aliases[k].text == other.text;
      assert Same(fold, row.aliases[j].text, row.aliases[k].text);
    }
  }

  /** The label is the row's own, and found in the same way, before and after. */
  ghost predicate KeepsLabel(fold: Fold, row: NamespaceRow, row': NamespaceRow, query: string) {
    && (Owns(fold, row, query) <==> Owns(fold, row', query))
    && forall how :: FoundAs(fold, row, query, how) ==> FoundAs(fold, row', query, how)
  }

  lemma ReplaceFrame(fold: Fold, rows: seq<NamespaceRow>, i: int, rows': seq<NamespaceRow>, query: string)
    requires Good(fold, rows) && Good(fold, rows') && OthersSame(rows, i, rows')
    requires KeepsLabel(fold, rows[i], rows'[i], query)
    ensures Resolve(fold, rows', query) == Moved(Resolve(fold, rows, query), rows[i], rows'[i])
  {
    ResolveFindsOwner(fold, rows, query);
    ResolveFindsOwner(fold, rows', query);
    if LabelTaken(fold, rows, query) {
      var j :| 0 <= j < |rows| && Owns(fold, rows[j], query);
      assert Owns(fold, rows'[j], query);
      OwnerResolves(fold, rows, j, query);
      OwnerResolves(fold, rows', j, query);
      FoundOneWay(fold, rows'[j], query, Resolve(fold, rows, query).how, Resolve(fold, rows', query).how);
    }
  }

  /** Every label but the two new ones is answered exactly as before a creation. */
  lemma CreationFrame(fold: Fold, rows: seq<NamespaceRow>, id: int, code: string, display: string,
                      rows': seq<NamespaceRow>, query: string)
    requires Good(fold, rows) && Older(rows, id)
    requires ApplyChange(fold, rows, id, Introduce(code, display)) == Ok(rows')
    requires !Same(fold, query, code) && !Same(fold, query, display)
    ensures Resolve(fold, rows', query) == Resolve(fold, rows, query)
  {
    CreationMeans(fold, rows, id, code, display, Ok(rows'));
    ApplyGood(fold, rows, id, Introduce(code, display));
    ResolveFindsOwner(fold, rows, query);
    ResolveFindsOwner(fold, rows', query);
    if LabelTaken(fold, rows, query) {
      var j :| 0 <= j < |rows| && Owns(fold, rows[j], query);
      assert Owns(fold, rows'[j], query);
      OwnerResolves(fold, rows, j, query);
      OwnerResolves(fold, rows', j, query);
      FoundOneWay(fold, rows[j], query, Resolve(fold, rows, query).how, Resolve(fold, rows', query).how);
    }
  }

  /** Every label but the old and the new name is answered as before, about the row as renamed. */
  lemma RenameFrame(fold: Fold, rows: seq<NamespaceRow>, id: int, code: string, display: string,
                    rows': seq<NamespaceRow>, i: int, query: string)
    requires Good(fold, rows) && Older(rows, id) && HasCode(fold, rows, code, i)
    requires ApplyChange(fold, rows, id, Rename(code, display)) == Ok(rows')
    requires !Same(fold, query, rows[i].display) && !Same(fold, query, display)
    ensures i < |rows'| && Resolve(fold, rows', query) == Moved(Resolve(fold, rows, query), rows[i], rows'[i])
  {
    RenameMeans(fold, rows, id, code, display, Ok(rows'));
    ApplyGood(fold, rows, id, Rename(code, display));
    ReplaceFrame(fold, rows, i, rows', query);
  }

  lemma AddedKeepsLabel(fold: Fold, row: NamespaceRow, alias: string, row': NamespaceRow, query: string)
    requires AliasAdded(row, alias, row') && !Same(fold, query, alias)
    ensures KeepsLabel(fold, row, row', query)
  {
  }

  /** Every label but the new alias is answered as before, about the row with its alias. */
  lemma AddAliasFrame(fold: Fold, rows: seq<NamespaceRow>, id: int, code: string, alias: string,
                      rows': seq<NamespaceRow>, i: int, query: string)
    requires Good(fold, rows) && Older(rows, id) && HasCode(fold, rows, code, i)
    requires ApplyChange(fold, rows, id, AddAlias(code, alias)) == Ok(rows') && !Same(fold, query, alias)
    ensures i < |rows'| && Resolve(fold, rows', query) == Moved(Resolve(fold, rows, query), rows[i], rows'[i])
  {
    AddAliasMeans(fold, rows, id, code, alias, Ok(rows'));
    ApplyGood(fold, rows, id, AddAlias(code, alias));
    AddedKeepsLabel(fold, rows[i], alias, rows'[i], query);
    ReplaceFrame(fold, rows, i, rows', query);
  }

  lemma DroppedKeepsLabel(fold: Fold, row: NamespaceRow, k: int, row': NamespaceRow, query: string)
    requires AliasDropped(row, k, row') && !Same(fold, query, row.aliases[k].text)
    ensures KeepsLabel(fold, row, row', query)
  {
    forall j | 0 <= j < |row.aliases| && j != k
      ensures exists m :: 0 <= m < |row'.aliases| && row'.aliases[m] == row.aliases[j]
    {
      assert row'.aliases[if j < k then j else j - 1] == row.aliases[j];
    }
  }

  /** Every label but the deleted alias is answered as before, about the row without it. */
  lemma DropAliasFrame(fold: Fold, rows: seq<NamespaceRow>, id: int, code: string, aliasId: int,
                       rows': seq<NamespaceRow>, i: int, k: int, query: string)
    requires Good(fold, rows) && Older(rows, id) && HasCode(fold, rows, code, i) && HasAliasId(rows[i], aliasId, k)
    requires ApplyChange(fold, rows, id, DropAlias(code, aliasId)) == Ok(rows')
    requires !Same(fold, query, rows[i].aliases[k].text)
    ensures i < |rows'| && Resolve(fold, rows', query) == Moved(Resolve(fold, rows, query), rows[i], rows'[i])
  {
    DropAliasMeans(fold, rows, id, code, aliasId, Ok(rows'));
    ApplyGood(fold, rows, id, DropAlias(code, aliasId));
    DroppedKeepsLabel(fold, rows[i], k, rows'[i], query);
    ReplaceFrame(fold, rows, i, rows', query);
  }
}
