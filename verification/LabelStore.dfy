/**
  The namespace table as an object: its loops scan rows and alias lists, and its changes append to and
  splice the lists of one row. Every method is proved against the functions of `Labels`.
 */
module LabelStore {
  import opened Basics
  import opened Labels

  /** The scan of one alias list. */
  method HasAlias(fold: Fold, aliases: seq<Alias>, name: string) returns (found: bool)
    ensures found <==> exists k :: 0 <= k < |aliases| && Same(fold, name, aliases[k].text)
  {
    for k := 0 to |aliases|
      invariant forall j :: 0 <= j < k ==> !Same(fold, name, aliases[j].text)
    {
      if Same(fold, name, aliases[k].text) {
        return true;
      }
    }
    return false;
  }

  /** One past the largest alias id, and at least 1. */
  method FreshAliasId(aliases: seq<Alias>) returns (next: int)
    ensures next == NextAliasId(aliases)
  {
    next := 1;
    for k := 0 to |aliases|
      invariant next == NextAliasId(aliases[..k])
    {
      assert aliases[..k + 1][..k] == aliases[..k];
      if aliases[k].id >= next {
        next := aliases[k].id + 1;
      }
    }
    assert aliases[..|aliases|] == aliases;
  }

  method FindAlias(aliases: seq<Alias>, id: int) returns (index: Option<nat>)
    ensures index == if IndexOfAlias(aliases, id) < |aliases| then Some(IndexOfAlias(aliases, id)) else None
  {
    for k := 0 to |aliases|
      invariant forall j :: 0 <= j < k ==> aliases[j].id != id
    {
      if aliases[k].id == id {
        return Some(k);
      }
    }
    return None;
  }

  /** The rows with one alias spliced out of the list of one of them. */
  method WithoutAlias(fold: Fold, rows: seq<NamespaceRow>, id: int, code: string, aliasId: int)
    returns (r: Result<seq<NamespaceRow>>)
    ensures r == ApplyChange(fold, rows, id, DropAlias(code, aliasId))
  {
    if aliasId <= 0 {
      return Err(Invalid);
    }
    var i := IndexOfCode(fold, rows, code);
    if i == |rows| {
      return Err(NotFound);
    }
    var aliases := rows[i].aliases;
    var index := FindAlias(aliases, aliasId);
    if index.None? {
      return Err(NotFound);
    }
    DropApplied(fold, rows, id, code, aliasId, i, index.value);
    aliases := aliases[..index.value] + aliases[index.value + 1..];
    return Ok(rows[i := rows[i].(aliases := aliases)]);
  }

  /** A match in the current row replaces the hit so far. */
  function LaterHit(code: string, text: Option<string>, before: Option<(string, string)>): Option<(string, string)> {
    if text.Some? then Some((code, text.value)) else before
  }

  lemma TakenTogether(fold: Fold, rows: seq<NamespaceRow>, a: string, b: string)
    ensures Same(fold, a, b) ==> (LabelTaken(fold, rows, a) <==> LabelTaken(fold, rows, b))
  {
  }

  class NamespaceTable {
    const fold: Fold
    var rows: seq<NamespaceRow>
    var lastId: int

    ghost predicate Valid()
      reads this
    {
      Good(fold, rows) && forall i :: 0 <= i < |rows| ==> rows[i].id <= lastId
    }

    /** What `ApplyChange` does to the table, for a row id no row has yet. */
    ghost function Spec(c: LabelChange): Result<seq<NamespaceRow>>
      reads this
    {
      ApplyChange(fold, rows, lastId + 1, c)
    }

    constructor (fold: Fold)
      ensures Valid() && rows == [] && this.fold == fold
    {
      this.fold := fold;
      rows := [];
      lastId := 0;
    }

    /** Some row has the label. */
    method LabelExists(name: string) returns (taken: bool)
      ensures taken <==> LabelTaken(fold, rows, name)
    {
      for i := 0 to |rows|
        invariant forall j :: 0 <= j < i ==> !Owns(fold, rows[j], name)
      {
        if Same(fold, name, rows[i].code) || Same(fold, name, rows[i].display) {
          return true;
        }
        var found := HasAlias(fold, rows[i].aliases, name);
        if found {
          return true;
        }
      }
      return false;
    }

    method LabelExistsExcept(name: string, id: int) returns (taken: bool)
      ensures taken <==> TakenExcept(fold, rows, name, id)
    {
      for i := 0 to |rows|
        invariant !TakenExcept(fold, rows[..i], name, id)
      {
        PrefixStep(rows, i);
        if rows[i].id != id && (Same(fold, name, rows[i].code) || Same(fold, name, rows[i].display)) {
          return true;
        }
        var found := HasAlias(fold, rows[i].aliases, name);
        if found {
          return true;
        }
      }
      assert rows[..|rows|] == rows;
      return false;
    }

    /** The code, then the display name if it is a label of its own. */
    method NewLabelsTaken(code: string, display: string) returns (conflict: bool)
      ensures conflict <==> LabelTaken(fold, rows, code) || LabelTaken(fold, rows, display)
    {
      var names := [code];
      if !Same(fold, code, display) {
        names := names + [display];
      }
      TakenTogether(fold, rows, code, display);
      for k := 0 to |names|
        invariant forall j :: 0 <= j < k ==> !LabelTaken(fold, rows, names[j])
      {
        conflict := LabelExists(names[k]);
        if conflict {
          return true;
        }
      }
      assert !LabelTaken(fold, rows, names[0]) && (!Same(fold, code, display) ==> !LabelTaken(fold, rows, names[1]));
      return false;
    }

    method CreateNamespace(code: string, display: string) returns (failure: Option<Error>)
      requires Valid()
      modifies this
      ensures Valid()
      ensures rows == After(old(rows), old(Spec(Introduce(code, display))))
      ensures failure == Failure(old(Spec(Introduce(code, display))))
    {
      ApplyGood(fold, rows, lastId + 1, Introduce(code, display));
      if code == "" || display == "" {
        return Some(Invalid);
      }
      var conflict := NewLabelsTaken(code, display);
      if conflict {
        return Some(Conflict);
      }
      lastId := lastId + 1;
      rows := rows + [NamespaceRow(lastId, code, display, [])];
      return None;
    }

    method UpdateNamespace(code: string, display: string) returns (failure: Option<Error>)
      requires Valid()
      modifies this
      ensures Valid()
      ensures rows == After(old(rows), old(Spec(Rename(code, display))))
      ensures failure == Failure(old(Spec(Rename(code, display))))
    {
      ApplyGood(fold, rows, lastId + 1, Rename(code, display));
      if code == "" || display == "" {
        return Some(Invalid);
      }
      var i := IndexOfCode(fold, rows, code);
      if i == |rows| {
        return Some(NotFound);
      }
      var conflict := LabelExistsExcept(display, rows[i].id);
      if conflict {
        return Some(Conflict);
      }
      rows := rows[i := rows[i].(display := display)];
      return None;
    }

    /** The locking scan over every row: a clash anywhere refuses, else the row with that id grows. */
    method InsertAlias(id: int, alias: string) returns (failure: Option<Error>)
      requires Valid()
      modifies this
      ensures lastId == old(lastId)
      ensures LabelTaken(fold, old(rows), alias) ==> failure == Some(Conflict) && rows == old(rows)
      ensures !LabelTaken(fold, old(rows), alias) && (forall i :: 0 <= i < |old(rows)| ==> old(rows)[i].id != id) ==>
        failure == Some(NotFound) && rows == old(rows)
      ensures !LabelTaken(fold, old(rows), alias) ==> forall i :: 0 <= i < |old(rows)| && old(rows)[i].id == id ==>
        failure == None && rows == old(rows)[i := Append(old(rows)[i], alias)]
    {
      var target: Option<nat> := None;
      for i := 0 to |rows|
        modifies {}
        invariant forall j :: 0 <= j < i ==> !Owns(fold, rows[j], alias)
        invariant target.None? ==> forall j :: 0 <= j < i ==> rows[j].id != id
        invariant target.Some? ==> target.value < i && rows[target.value].id == id
      {
        if Same(fold, alias, rows[i].code) || Same(fold, alias, rows[i].display) {
          return Some(Conflict);
        }
        var found := HasAlias(fold, rows[i].aliases, alias);
        if found {
          return Some(Conflict);
        }
        if rows[i].id == id {
          target := Some(i);
        }
      }
      if target.None? {
        return Some(NotFound);
      }
      var next := FreshAliasId(rows[target.value].aliases);
      var grown := rows[target.value].aliases + [Alias(next, alias)];
      rows := rows[target.value := rows[target.value].(aliases := grown)];
      return None;
    }

    method CreateNamespaceAlias(code: string, alias: string) returns (failure: Option<Error>)
      requires Valid()
      modifies this
      ensures Valid()
      ensures rows == After(old(rows), old(Spec(AddAlias(code, alias))))
      ensures failure == Failure(old(Spec(AddAlias(code, alias))))
    {
      ApplyGood(fold, rows, lastId + 1, AddAlias(code, alias));
      var i := IndexOfCode(fold, rows, code);
      if i == |rows| {
        return Some(NotFound);
      }
      if alias == "" || Same(fold, alias, rows[i].code) || Same(fold, alias, rows[i].display) {
        return Some(Invalid);
      }
      var conflict := LabelExists(alias);
      if conflict {
        return Some(Conflict);
      }
      failure := InsertAlias(rows[i].id, alias);
    }

    method DeleteNamespaceAlias(code: string, aliasId: int) returns (failure: Option<Error>)
      requires Valid()
      modifies this
      ensures Valid()
      ensures rows == After(old(rows), old(Spec(DropAlias(code, aliasId))))
      ensures failure == Failure(old(Spec(DropAlias(code, aliasId))))
    {
      ApplyGood(fold, rows, lastId + 1, DropAlias(code, aliasId));
      var changed := WithoutAlias(fold, rows, lastId + 1, code, aliasId);
      if changed.Err? {
        return Some(changed.error);
      }
      rows := changed.value;
      return None;
    }

    /** By code first, then one pass over the rows for display names and aliases. */
    method ResolveNamespace(query: string) returns (r: Resolution)
      ensures r == Resolve(fold, rows, query)
    {
      var direct := IndexOfCode(fold, rows, query);
      if direct < |rows| {
        return Resolved(rows[direct], ByCode);
      }
      var displayCodes: seq<string> := [];
      var hit: Option<(string, string)> := None;
      for i := 0 to |rows|
        invariant displayCodes == DisplayCodes(fold, rows[..i], query)
        invariant hit == AliasHit(fold, rows[..i], query)
      {
        PrefixStep(rows, i);
        if Same(fold, query, rows[i].display) {
          displayCodes := displayCodes + [rows[i].code];
        }
        var aliases := rows[i].aliases;
        ghost var before := hit;
        for k := 0 to |aliases|
          invariant hit == LaterHit(rows[i].code, LastAlias(fold, aliases[..k], query), before)
        {
          PrefixStep(aliases, k);
          if Same(fold, query, aliases[k].text) {
            hit := Some((rows[i].code, aliases[k].text));
          }
        }
        assert aliases[..|aliases|] == aliases;
      }
      assert rows[..|rows|] == rows;
      if |displayCodes| > 1 {
        return Ambiguous;
      }
      if |displayCodes| == 1 {
        return ByCodeOnly(fold, rows, displayCodes[0], ByDisplay);
      }
      match hit
      case Some((code, text)) =>
        if code != "" {
          return ByCodeOnly(fold, rows, code, ByAlias(text));
        }
        return Unknown;
      case None =>
        return Unknown;
    }
  }
}
