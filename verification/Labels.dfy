/**
  Codes, display names and aliases of namespaces, compared after case folding. One folding function
  stands for the database's collation and for the program's own case-insensitive comparison.
 */
module Labels {
  import opened Basics

  type Fold = string -> string

  datatype Alias = Alias(id: int, text: string)

  /** A row of the namespace table; codes, names and aliases are already trimmed. */
  datatype NamespaceRow = NamespaceRow(id: int, code: string, display: string, aliases: seq<Alias>)

  datatype Match = ByCode | ByDisplay | ByAlias(text: string)

  datatype Resolution = Resolved(row: NamespaceRow, how: Match) | Ambiguous | Unknown

  predicate Same(fold: Fold, a: string, b: string) {
    fold(a) == fold(b)
  }

  predicate AliasOf(fold: Fold, row: NamespaceRow, name: string) {
    exists k :: 0 <= k < |row.aliases| && Same(fold, name, row.aliases[k].text)
  }

  /** `name` is one of the row's own labels. */
  predicate Owns(fold: Fold, row: NamespaceRow, name: string) {
    Same(fold, name, row.code) || Same(fold, name, row.display) || AliasOf(fold, row, name)
  }

  predicate LabelTaken(fold: Fold, rows: seq<NamespaceRow>, name: string) {
    exists i :: 0 <= i < |rows| && Owns(fold, rows[i], name)
  }

  /** Another row's code or name, or any row's alias. */
  predicate TakenExcept(fold: Fold, rows: seq<NamespaceRow>, name: string, id: int) {
    exists i :: 0 <= i < |rows| &&
      (AliasOf(fold, rows[i], name)
       || (rows[i].id != id && (Same(fold, name, rows[i].code) || Same(fold, name, rows[i].display))))
  }

  // ---------------------------------------------------------------- lookup by code, name and alias

  /** The first row with that code, or |rows|. */
  function IndexOfCode(fold: Fold, rows: seq<NamespaceRow>, code: string): (i: nat)
    ensures i <= |rows|
    ensures i < |rows| ==> Same(fold, code, rows[i].code)
    ensures forall j :: 0 <= j < i ==> !Same(fold, code, rows[j].code)
  {
    if rows == [] then 0
    else if Same(fold, code, rows[0].code) then 0
    else
      var i := IndexOfCode(fold, rows[1..], code);
      assert forall j :: 1 <= j < |rows| ==> rows[j] == rows[1..][j - 1];
      i + 1
  }

  /** Codes of the rows whose display name matches, in row order. */
  function DisplayCodes(fold: Fold, rows: seq<NamespaceRow>, query: string): seq<string> {
    if rows == [] then [] else
      DisplayCodes(fold, rows[..|rows| - 1], query)
        + (if Same(fold, query, rows[|rows| - 1].display) then [rows[|rows| - 1].code] else [])
  }

  function LastAlias(fold: Fold, aliases: seq<Alias>, query: string): Option<string> {
    if aliases == [] then None
    else if Same(fold, query, aliases[|aliases| - 1].text) then Some(aliases[|aliases| - 1].text)
    else LastAlias(fold, aliases[..|aliases| - 1], query)
  }

  /** Code and alias of the last matching alias, over all rows. */
  function AliasHit(fold: Fold, rows: seq<NamespaceRow>, query: string): Option<(string, string)> {
    if rows == [] then None else
      var last := rows[|rows| - 1];
      match LastAlias(fold, last.aliases, query)
      case Some(text) => Some((last.code, text))
      case None => AliasHit(fold, rows[..|rows| - 1], query)
  }

  function ByCodeOnly(fold: Fold, rows: seq<NamespaceRow>, code: string, how: Match): Resolution {
    var i := IndexOfCode(fold, rows, code);
    if i < |rows| then Resolved(rows[i], how) else Unknown
  }

  function Resolve(fold: Fold, rows: seq<NamespaceRow>, query: string): Resolution {
    var direct := ByCodeOnly(fold, rows, query, ByCode);
    if direct.Resolved? then direct else
      var codes := DisplayCodes(fold, rows, query);
      if |codes| > 1 then Ambiguous
      else if |codes| == 1 then ByCodeOnly(fold, rows, codes[0], ByDisplay)
      else match AliasHit(fold, rows, query)
        case Some((code, text)) => if code != "" then ByCodeOnly(fold, rows, code, ByAlias(text)) else Unknown
        case None => Unknown
  }

  // ---------------------------------------------------------------- changes

  datatype LabelChange =
    | Introduce(code: string, display: string)
    | Rename(of: string, to: string)
    | AddAlias(code: string, alias: string)
    | DropAlias(code: string, aliasId: int)

  function NextAliasId(aliases: seq<Alias>): (n: int)
    ensures 1 <= n && forall k :: 0 <= k < |aliases| ==> aliases[k].id < n
  {
    if aliases == [] then 1 else
      var before := NextAliasId(aliases[..|aliases| - 1]);
      var id := aliases[|aliases| - 1].id;
      if id >= before then id + 1 else before
  }

  /** The first alias with that id, or |aliases|. */
  function IndexOfAlias(aliases: seq<Alias>, id: int): (k: nat)
    ensures k <= |aliases|
    ensures k < |aliases| ==> aliases[k].id == id
    ensures forall j :: 0 <= j < k ==> aliases[j].id != id
  {
    if aliases == [] then 0
    else if aliases[0].id == id then 0
    else
      var k := IndexOfAlias(aliases[1..], id);
      assert forall j :: 1 <= j < |aliases| ==> aliases[j] == aliases[1..][j - 1];
      k + 1
  }

  function Append(row: NamespaceRow, alias: string): NamespaceRow {
    row.(aliases := row.aliases + [Alias(NextAliasId(row.aliases), alias)])
  }

  function Without(aliases: seq<Alias>, k: nat): seq<Alias>
    requires k < |aliases|
  {
    aliases[..k] + aliases[k + 1..]
  }

  function ApplyChange(fold: Fold, rows: seq<NamespaceRow>, id: int, c: LabelChange): Result<seq<NamespaceRow>> {
    match c
    case Introduce(code, display) =>
      if code == "" || display == "" then Err(Invalid)
      else if LabelTaken(fold, rows, code) || LabelTaken(fold, rows, display) then Err(Conflict)
      else Ok(rows + [NamespaceRow(id, code, display, [])])
    case Rename(code, display) =>
      var i := IndexOfCode(fold, rows, code);
      if code == "" || display == "" then Err(Invalid)
      else if i == |rows| then Err(NotFound)
      else if TakenExcept(fold, rows, display, rows[i].id) then Err(Conflict)
      else Ok(rows[i := rows[i].(display := display)])
    case AddAlias(code, alias) =>
      var i := IndexOfCode(fold, rows, code);
      if i == |rows| then Err(NotFound)
      else if alias == "" || Same(fold, alias, rows[i].code) || Same(fold, alias, rows[i].display) then Err(Invalid)
      else if LabelTaken(fold, rows, alias) then Err(Conflict)
      else Ok(rows[i := Append(rows[i], alias)])
    case DropAlias(code, aliasId) =>
      var i := IndexOfCode(fold, rows, code);
      if aliasId <= 0 then Err(Invalid)
      else if i == |rows| then Err(NotFound)
      else
        var k := IndexOfAlias(rows[i].aliases, aliasId);
        if k == |rows[i].aliases| then Err(NotFound)
        else Ok(rows[i := rows[i].(aliases := Without(rows[i].aliases, k))])
  }

  /** A refused change leaves the rows as they were. */
  function After(rows: seq<NamespaceRow>, r: Result<seq<NamespaceRow>>): seq<NamespaceRow> {
    if r.Ok? then r.value else rows
  }

  function Failure(r: Result<seq<NamespaceRow>>): Option<Error> {
    if r.Ok? then None else Some(r.error)
  }

  function RunChanges(fold: Fold, cs: seq<LabelChange>): seq<NamespaceRow>
    decreases |cs|
  {
    if cs == [] then [] else
      var rows := RunChanges(fold, cs[..|cs| - 1]);
      After(rows, ApplyChange(fold, rows, |cs|, cs[|cs| - 1]))
  }

  // ---------------------------------------------------------------- the label invariant

  ghost predicate LabelsApart(fold: Fold, rows: seq<NamespaceRow>) {
    forall i, j, name ::
      0 <= i < |rows| && 0 <= j < |rows| && Owns(fold, rows[i], name) && Owns(fold, rows[j], name) ==> i == j
  }

  predicate AliasesApart(fold: Fold, row: NamespaceRow) {
    var q := row.aliases;
    && (forall j, k :: 0 <= j < |q| && 0 <= k < |q| && Same(fold, q[j].text, q[k].text) ==> j == k)
    && (forall j, k :: 0 <= j < |q| && 0 <= k < |q| && q[j].id == q[k].id ==> j == k)
    && (forall k :: 0 <= k < |row.aliases| ==> 1 <= row.aliases[k].id)
    && (forall k :: 0 <= k < |row.aliases| ==> !Same(fold, row.aliases[k].text, row.code))
    && (forall k :: 0 <= k < |row.aliases| ==> !Same(fold, row.aliases[k].text, row.display))
  }

  ghost predicate Good(fold: Fold, rows: seq<NamespaceRow>) {
    && LabelsApart(fold, rows)
    && (forall i, j :: 0 <= i < |rows| && 0 <= j < |rows| && rows[i].id == rows[j].id ==> i == j)
    && (forall i :: 0 <= i < |rows| ==> rows[i].code != "" && AliasesApart(fold, rows[i]))
  }

  lemma CreateGood(fold: Fold, rows: seq<NamespaceRow>, id: int, code: string, display: string)
    requires Good(fold, rows) && code != ""
    requires !LabelTaken(fold, rows, code) && !LabelTaken(fold, rows, display)
    requires forall i :: 0 <= i < |rows| ==> rows[i].id != id
    ensures Good(fold, rows + [NamespaceRow(id, code, display, [])])
  {
  }

  lemma RenameGood(fold: Fold, rows: seq<NamespaceRow>, i: nat, display: string)
    requires Good(fold, rows) && i < |rows| && !TakenExcept(fold, rows, display, rows[i].id)
    ensures Good(fold, rows[i := rows[i].(display := display)])
  {
  }

  lemma AddAliasGood(fold: Fold, rows: seq<NamespaceRow>, i: nat, alias: string)
    requires Good(fold, rows) && i < |rows| && !LabelTaken(fold, rows, alias)
    ensures Good(fold, rows[i := Append(rows[i], alias)])
  {
  }

  lemma WithoutApart(fold: Fold, row: NamespaceRow, k: nat)
    requires AliasesApart(fold, row) && k < |row.aliases|
    ensures AliasesApart(fold, row.(aliases := Without(row.aliases, k)))
  {
    var row' := row.(aliases := Without(row.aliases, k));
    forall j | 0 <= j < |row'.aliases| ensures row'.aliases[j] == row.aliases[if j < k then j else j + 1] {
    }
    forall i, j | 0 <= i < j < |row'.aliases|
      ensures !Same(fold, row'.aliases[i].text, row'.aliases[j].text) && row'.aliases[i].id != row'.aliases[j].id
    {
      var a, b := row.aliases[if i < k then i else i + 1], row.aliases[if j < k then j else j + 1];
      assert row'.aliases[i] == a && row'.aliases[j] == b;
    }
  }

  lemma DropAliasGood(fold: Fold, rows: seq<NamespaceRow>, i: nat, k: nat)
    requires Good(fold, rows) && i < |rows| && k < |rows[i].aliases|
    ensures Good(fold, rows[i := rows[i].(aliases := Without(rows[i].aliases, k))])
  {
    var aliases, rest := rows[i].aliases, Without(rows[i].aliases, k);
    var row := rows[i].(aliases := rest);
    assert forall j :: 0 <= j < |rest| ==> rest[j] == aliases[if j < k then j else j + 1];
    WithoutApart(fold, rows[i], k);
    forall j, name | 0 <= j < |rows| && j != i && Owns(fold, row, name) ensures !Owns(fold, rows[j], name) {
      assert Owns(fold, rows[i], name) by {
        if AliasOf(fold, row, name) {
          var m :| 0 <= m < |rest| && Same(fold, name, rest[m].text);
          assert Same(fold, name, aliases[if m < k then m else m + 1].text);
        }
      }
    }
  }

  predicate Older(rows: seq<NamespaceRow>, id: int) {
    forall i :: 0 <= i < |rows| ==> rows[i].id < id
  }

  lemma ApplyGood(fold: Fold, rows: seq<NamespaceRow>, id: int, c: LabelChange)
    requires Good(fold, rows) && Older(rows, id)
    ensures ApplyChange(fold, rows, id, c).Ok? ==>
      Good(fold, ApplyChange(fold, rows, id, c).value) && Older(ApplyChange(fold, rows, id, c).value, id + 1)
  {
    if ApplyChange(fold, rows, id, c).Ok? {
      match c
      case Introduce(code, display) => CreateGood(fold, rows, id, code, display);
      case Rename(code, display) => RenameGood(fold, rows, IndexOfCode(fold, rows, code), display);
      case AddAlias(code, alias) => AddAliasGood(fold, rows, IndexOfCode(fold, rows, code), alias);
      case DropAlias(code, aliasId) =>
        var i := IndexOfCode(fold, rows, code);
        DropAliasGood(fold, rows, i, IndexOfAlias(rows[i].aliases, aliasId));
    }
  }

  /** Over any run of changes from an empty registry no label belongs to two namespaces, and alias
      labels and ids are distinct within each. */
  lemma {:induction false} RunGood(fold: Fold, cs: seq<LabelChange>)
    ensures Good(fold, RunChanges(fold, cs))
    ensures forall i :: 0 <= i < |RunChanges(fold, cs)| ==> RunChanges(fold, cs)[i].id <= |cs|
    decreases |cs|
  {
    if cs != [] {
      RunGood(fold, cs[..|cs| - 1]);
      ApplyGood(fold, RunChanges(fold, cs[..|cs| - 1]), |cs|, cs[|cs| - 1]);
    }
  }

  // ---------------------------------------------------------------- what resolving means

  /** How a row is found by one of its labels. */
  predicate FoundAs(fold: Fold, row: NamespaceRow, query: string, how: Match) {
    match how
    case ByCode => Same(fold, query, row.code)
    case ByDisplay => !Same(fold, query, row.code) && Same(fold, query, row.display)
    case ByAlias(text) =>
      && !Same(fold, query, row.code) && !Same(fold, query, row.display) && Same(fold, query, text)
      && exists k :: 0 <= k < |row.aliases| && row.aliases[k].text == text
  }

  lemma CodeFinds(fold: Fold, rows: seq<NamespaceRow>, i: nat)
    requires Good(fold, rows) && i < |rows|
    ensures IndexOfCode(fold, rows, rows[i].code) == i
  {
    var k := IndexOfCode(fold, rows, rows[i].code);
    assert Owns(fold, rows[i], rows[i].code);
    if k < i {
      assert Owns(fold, rows[k], rows[i].code);
    }
  }

  predicate OneDisplay(fold: Fold, rows: seq<NamespaceRow>, query: string) {
    forall i, j :: 0 <= i < j < |rows| ==> !(Same(fold, query, rows[i].display) && Same(fold, query, rows[j].display))
  }

  lemma {:induction false} DisplayCodesMeaning(fold: Fold, rows: seq<NamespaceRow>, query: string)
    ensures forall c :: c in DisplayCodes(fold, rows, query) ==>
      exists i :: 0 <= i < |rows| && Same(fold, query, rows[i].display) && rows[i].code == c
    ensures DisplayCodes(fold, rows, query) == [] <==>
      forall i :: 0 <= i < |rows| ==> !Same(fold, query, rows[i].display)
    ensures OneDisplay(fold, rows, query) ==> |DisplayCodes(fold, rows, query)| <= 1
  {
    if rows != [] {
      var n := |rows| - 1;
      var before := rows[..n];
      DisplayCodesMeaning(fold, before, query);
      assert forall i :: 0 <= i < n ==> before[i] == rows[i];
      if OneDisplay(fold, rows, query) && Same(fold, query, rows[n].display) {
        assert forall i :: 0 <= i < n ==> !Same(fold, query, before[i].display);
      }
    }
  }

  lemma {:induction false} LastAliasMeaning(fold: Fold, aliases: seq<Alias>, query: string)
    ensures match LastAlias(fold, aliases, query)
      case Some(text) => Same(fold, query, text) && exists k :: 0 <= k < |aliases| && aliases[k].text == text
      case None => forall k :: 0 <= k < |aliases| ==> !Same(fold, query, aliases[k].text)
  {
    if aliases != [] {
      LastAliasMeaning(fold, aliases[..|aliases| - 1], query);
    }
  }

  lemma {:induction false} AliasHitMeaning(fold: Fold, rows: seq<NamespaceRow>, query: string)
    ensures match AliasHit(fold, rows, query)
      case Some((code, text)) => Same(fold, query, text) &&
        exists i, k ::
          0 <= i < |rows| && 0 <= k < |rows[i].aliases| && rows[i].code == code && rows[i].aliases[k].text == text
      case None => forall i :: 0 <= i < |rows| ==> !AliasOf(fold, rows[i], query)
  {
    if rows != [] {
      LastAliasMeaning(fold, rows[|rows| - 1].aliases, query);
      AliasHitMeaning(fold, rows[..|rows| - 1], query);
    }
  }

  /** The row behind the one matching display name, when no code matches. */
  lemma DisplayFindsOwner(fold: Fold, rows: seq<NamespaceRow>, query: string)
    requires Good(fold, rows)
    ensures |DisplayCodes(fold, rows, query)| <= 1
    ensures |DisplayCodes(fold, rows, query)| == 1 ==>
      exists i :: 0 <= i < |rows| && Same(fold, query, rows[i].display)
        && IndexOfCode(fold, rows, DisplayCodes(fold, rows, query)[0]) == i
  {
    DisplayCodesMeaning(fold, rows, query);
    var codes := DisplayCodes(fold, rows, query);
    assert OneDisplay(fold, rows, query) by {
      assert forall i :: 0 <= i < |rows| && Same(fold, query, rows[i].display) ==> Owns(fold, rows[i], query);
    }
    if |codes| == 1 {
      assert codes[0] in codes;
      var i :| 0 <= i < |rows| && Same(fold, query, rows[i].display) && rows[i].code == codes[0];
      CodeFinds(fold, rows, i);
    }
  }

  lemma AliasFindsOwner(fold: Fold, rows: seq<NamespaceRow>, query: string)
    requires Good(fold, rows)
    ensures AliasHit(fold, rows, query).Some? ==>
      var (code, text) := AliasHit(fold, rows, query).value;
      && code != "" && Same(fold, query, text)
      && var i := IndexOfCode(fold, rows, code);
      i < |rows| && exists k :: 0 <= k < |rows[i].aliases| && rows[i].aliases[k].text == text
  {
    AliasHitMeaning(fold, rows, query);
    if AliasHit(fold, rows, query).Some? {
      var (code, text) := AliasHit(fold, rows, query).value;
      var i, k :| 0 <= i < |rows| && 0 <= k < |rows[i].aliases| && rows[i].code == code
        && rows[i].aliases[k].text == text;
      CodeFinds(fold, rows, i);
    }
  }

  /** Under the invariant resolving finds a namespace exactly when the label is one of its own, says by
      which of its labels, and never reports ambiguity. */
  lemma ResolveFindsOwner(fold: Fold, rows: seq<NamespaceRow>, query: string)
    requires Good(fold, rows)
    ensures var r := Resolve(fold, rows, query);
      && !r.Ambiguous?
      && (r.Unknown? <==> !LabelTaken(fold, rows, query))
      && (r.Resolved? ==> r.row in rows && Owns(fold, r.row, query) && FoundAs(fold, r.row, query, r.how))
  {
    var direct := IndexOfCode(fold, rows, query);
    if direct < |rows| {
      assert Owns(fold, rows[direct], query);
    } else {
      DisplayFindsOwner(fold, rows, query);
      var codes := DisplayCodes(fold, rows, query);
      if |codes| == 1 {
        var i := IndexOfCode(fold, rows, codes[0]);
        assert Owns(fold, rows[i], query);
      } else {
        DisplayCodesMeaning(fold, rows, query);
        ResolveByAlias(fold, rows, query);
      }
    }
  }

  /** The last case of `ResolveFindsOwner`: no code and no display name matches. */
  lemma ResolveByAlias(fold: Fold, rows: seq<NamespaceRow>, query: string)
    requires Good(fold, rows)
    requires forall i :: 0 <= i < |rows| ==> !Same(fold, query, rows[i].code) && !Same(fold, query, rows[i].display)
    ensures AliasHit(fold, rows, query).None? ==> !LabelTaken(fold, rows, query)
    ensures AliasHit(fold, rows, query).Some? ==>
      var (code, text) := AliasHit(fold, rows, query).value;
      var i := IndexOfCode(fold, rows, code);
      code != "" && i < |rows| && Owns(fold, rows[i], query) && FoundAs(fold, rows[i], query, ByAlias(text))
  {
    AliasHitMeaning(fold, rows, query);
    AliasFindsOwner(fold, rows, query);
  }

  lemma OwnerResolves(fold: Fold, rows: seq<NamespaceRow>, i: nat, query: string)
    requires Good(fold, rows) && i < |rows| && Owns(fold, rows[i], query)
    ensures Resolve(fold, rows, query).Resolved? && Resolve(fold, rows, query).row == rows[i]
    ensures FoundAs(fold, rows[i], query, Resolve(fold, rows, query).how)
  {
    ResolveFindsOwner(fold, rows, query);
  }

  // ---------------------------------------------------------------- what changes do to resolving

  /** A new namespace is found by its code and by its display name. */
  lemma CreatedResolves(fold: Fold, rows: seq<NamespaceRow>, id: int, code: string, display: string)
    requires Good(fold, rows) && Older(rows, id) && ApplyChange(fold, rows, id, Introduce(code, display)).Ok?
    ensures var rows' := ApplyChange(fold, rows, id, Introduce(code, display)).value;
      var row := NamespaceRow(id, code, display, []);
      && Resolve(fold, rows', code) == Resolved(row, ByCode)
      && Resolve(fold, rows', display) == Resolved(row, if Same(fold, display, code) then ByCode else ByDisplay)
  {
    ApplyGood(fold, rows, id, Introduce(code, display));
    var rows' := rows + [NamespaceRow(id, code, display, [])];
    OwnerResolves(fold, rows', |rows|, code);
    OwnerResolves(fold, rows', |rows|, display);
  }

  /** A renamed namespace is found by its new name, and its old name, unless it is its code or the new
      name as well, finds nothing. */
  lemma RenamedResolves(fold: Fold, rows: seq<NamespaceRow>, id: int, code: string, display: string)
    requires Good(fold, rows) && Older(rows, id) && ApplyChange(fold, rows, id, Rename(code, display)).Ok?
    ensures var rows' := ApplyChange(fold, rows, id, Rename(code, display)).value;
      var row := rows[IndexOfCode(fold, rows, code)];
      && Resolve(fold, rows', display).Resolved?
      && Resolve(fold, rows', display).row == row.(display := display)
      && (!Same(fold, row.display, row.code) && !Same(fold, row.display, display) ==>
          Resolve(fold, rows', row.display) == Unknown)
  {
    ApplyGood(fold, rows, id, Rename(code, display));
    var i := IndexOfCode(fold, rows, code);
    var former, rows' := rows[i].display, rows[i := rows[i].(display := display)];
    OwnerResolves(fold, rows', i, display);
    if !Same(fold, former, rows[i].code) && !Same(fold, former, display) {
      OldNameFree(fold, rows, i, display);
      ResolveFindsOwner(fold, rows', former);
    }
  }

  lemma OldNameFree(fold: Fold, rows: seq<NamespaceRow>, i: nat, display: string)
    requires Good(fold, rows) && i < |rows|
    requires !Same(fold, rows[i].display, rows[i].code) && !Same(fold, rows[i].display, display)
    ensures !LabelTaken(fold, rows[i := rows[i].(display := display)], rows[i].display)
  {
    var rows' := rows[i := rows[i].(display := display)];
    assert Owns(fold, rows[i], rows[i].display);
    assert AliasesApart(fold, rows[i]);
    forall j | 0 <= j < |rows'| ensures !Owns(fold, rows'[j], rows[i].display) {
      assert j != i ==> rows'[j] == rows[j];
    }
  }

  /** An added alias finds its namespace, as that alias. */
  lemma AddedAliasResolves(fold: Fold, rows: seq<NamespaceRow>, id: int, code: string, alias: string)
    requires Good(fold, rows) && Older(rows, id) && ApplyChange(fold, rows, id, AddAlias(code, alias)).Ok?
    ensures var rows' := ApplyChange(fold, rows, id, AddAlias(code, alias)).value;
      var row := rows[IndexOfCode(fold, rows, code)];
      Resolve(fold, rows', alias) == Resolved(Append(row, alias), ByAlias(alias))
  {
    ApplyGood(fold, rows, id, AddAlias(code, alias));
    var i := IndexOfCode(fold, rows, code);
    var row := Append(rows[i], alias);
    var n := |rows[i].aliases|;
    assert Same(fold, alias, row.aliases[n].text);
    var rows' := rows[i := row];
    OwnerResolves(fold, rows', i, alias);
    var r := Resolve(fold, rows', alias);
    assert r.how.ByAlias?;
    var k :| 0 <= k < |row.aliases| && row.aliases[k].text == r.how.text;
    assert AliasesApart(fold, rows'[i]) && Same(fold, row.aliases[k].text, row.aliases[n].text);
  }

  /** A deleted alias finds nothing any more. */
  lemma DroppedAliasUnknown(fold: Fold, rows: seq<NamespaceRow>, id: int, code: string, aliasId: int)
    requires Good(fold, rows) && Older(rows, id) && ApplyChange(fold, rows, id, DropAlias(code, aliasId)).Ok?
    ensures var rows' := ApplyChange(fold, rows, id, DropAlias(code, aliasId)).value;
      var aliases := rows[IndexOfCode(fold, rows, code)].aliases;
      Resolve(fold, rows', aliases[IndexOfAlias(aliases, aliasId)].text) == Unknown
  {
    ApplyGood(fold, rows, id, DropAlias(code, aliasId));
    var i := IndexOfCode(fold, rows, code);
    var k := IndexOfAlias(rows[i].aliases, aliasId);
    var text := rows[i].aliases[k].text;
    assert Owns(fold, rows[i], text);
    WithoutDropsLabel(fold, rows[i], k);
    var rows' := rows[i := rows[i].(aliases := Without(rows[i].aliases, k))];
    assert forall j :: 0 <= j < |rows'| ==> !Owns(fold, rows'[j], text);
    ResolveFindsOwner(fold, rows', text);
  }

  lemma WithoutDropsLabel(fold: Fold, row: NamespaceRow, k: nat)
    requires AliasesApart(fold, row) && k < |row.aliases|
    ensures !Owns(fold, row.(aliases := Without(row.aliases, k)), row.aliases[k].text)
  {
  }

  /** After any run of changes, a label resolves to the one namespace that owns it, if there is one. */
  lemma ResolveAfterRun(fold: Fold, cs: seq<LabelChange>, query: string, rows: seq<NamespaceRow>, r: Resolution)
    requires rows == RunChanges(fold, cs) && r == Resolve(fold, rows, query)
    ensures !r.Ambiguous?
    ensures r.Resolved? ==> r.row in rows && Owns(fold, r.row, query)
    ensures forall i :: 0 <= i < |rows| && Owns(fold, rows[i], query) ==> r.Resolved? && r.row == rows[i]
  {
    RunGood(fold, cs);
    ResolveFindsOwner(fold, rows, query);
  }

  lemma TakenIgnoresOrder(fold: Fold, rows: seq<NamespaceRow>, other: seq<NamespaceRow>, query: string)
    requires forall row :: row in rows ==> row in other
    ensures LabelTaken(fold, rows, query) ==> LabelTaken(fold, other, query)
  {
    if LabelTaken(fold, rows, query) {
      var i :| 0 <= i < |rows| && Owns(fold, rows[i], query);
      assert rows[i] in other;
    }
  }

  /** The answer does not depend on the order in which the rows are read. */
  lemma ResolveIgnoresOrder(fold: Fold, rows: seq<NamespaceRow>, other: seq<NamespaceRow>, query: string)
    requires Good(fold, rows) && Good(fold, other) && forall row :: row in rows <==> row in other
    ensures Resolve(fold, rows, query) == Resolve(fold, other, query)
  {
    ResolveFindsOwner(fold, rows, query);
    ResolveFindsOwner(fold, other, query);
    var a, b := Resolve(fold, rows, query), Resolve(fold, other, query);
    TakenIgnoresOrder(fold, rows, other, query);
    TakenIgnoresOrder(fold, other, rows, query);
    if LabelTaken(fold, rows, query) {
      assert a.row in other;
      var j :| 0 <= j < |rows| && rows[j] == a.row;
      assert b.row in rows;
      var k :| 0 <= k < |rows| && rows[k] == b.row;
      assert a.row == b.row;
      if a.how.ByAlias? {
        var m :| 0 <= m < |a.row.aliases| && a.row.aliases[m].text == a.how.text;
        assert b.how.ByAlias?;
        var n :| 0 <= n < |b.row.aliases| && b.row.aliases[n].text == b.how.text;
        assert Same(fold, a.row.aliases[m].text, a.row.aliases[n].text);
        assert AliasesApart(fold, rows[j]);
      }
    }
  }

  /** Replacing a row by one with the same code does not move the code. */
  lemma {:induction false} CodeStays(fold: Fold, rows: seq<NamespaceRow>, i: nat, row: NamespaceRow, code: string)
    requires i < |rows| && row.code == rows[i].code
    ensures IndexOfCode(fold, rows[i := row], code) == IndexOfCode(fold, rows, code)
    decreases |rows|
  {
    var rows' := rows[i := row];
    assert rows'[0].code == rows[0].code;
    if i > 0 {
      assert rows'[1..] == rows[1..][i - 1 := row];
      CodeStays(fold, rows[1..], i - 1, row, code);
    } else {
      assert rows'[1..] == rows[1..];
    }
  }

  lemma AppendedAlias(row: NamespaceRow, alias: string)
    ensures var given := NextAliasId(row.aliases);
      && IndexOfAlias(Append(row, alias).aliases, given) == |row.aliases|
      && Without(Append(row, alias).aliases, |row.aliases|) == row.aliases
  {
    var given := NextAliasId(row.aliases);
    var aliases := Append(row, alias).aliases;
    assert aliases[|row.aliases|].id == given;
    assert forall k :: 0 <= k < |row.aliases| ==> aliases[k].id != given;
  }

  lemma AddApplied(fold: Fold, rows: seq<NamespaceRow>, id: int, code: string, alias: string)
    requires ApplyChange(fold, rows, id, AddAlias(code, alias)).Ok?
    ensures var i := IndexOfCode(fold, rows, code);
      i < |rows| && ApplyChange(fold, rows, id, AddAlias(code, alias)) == Ok(rows[i := Append(rows[i], alias)])
  {
  }

  lemma DropApplied(fold: Fold, rows: seq<NamespaceRow>, id: int, code: string, aliasId: int, i: nat, k: nat)
    requires aliasId > 0 && i == IndexOfCode(fold, rows, code) && i < |rows|
    requires k == IndexOfAlias(rows[i].aliases, aliasId) && k < |rows[i].aliases|
    ensures var row := rows[i].(aliases := Without(rows[i].aliases, k));
      ApplyChange(fold, rows, id, DropAlias(code, aliasId)) == Ok(rows[i := row])
  {
  }

  /** Adding an alias and deleting it by the id it got restores the table. */
  lemma AddThenDrop(fold: Fold, rows: seq<NamespaceRow>, id: int, code: string, alias: string)
    requires ApplyChange(fold, rows, id, AddAlias(code, alias)).Ok?
    ensures var rows' := ApplyChange(fold, rows, id, AddAlias(code, alias)).value;
      var given := NextAliasId(rows[IndexOfCode(fold, rows, code)].aliases);
      ApplyChange(fold, rows', id, DropAlias(code, given)) == Ok(rows)
  {
    AddApplied(fold, rows, id, code, alias);
    var i := IndexOfCode(fold, rows, code);
    var row := Append(rows[i], alias);
    CodeStays(fold, rows, i, row, code);
    AppendedAlias(rows[i], alias);
    DropApplied(fold, rows[i := row], id, code, NextAliasId(rows[i].aliases), i, |rows[i].aliases|);
    assert rows[i := row][i := rows[i]] == rows;
  }
}
