/**
  The upgrade as it runs: copy each legacy table that exists, compare counts, tidy entry states, and
  only then drop. A failed comparison leaves every legacy table where it was.
 */
module MigrationRun {
  import opened Basics
  import opened Migration
  import Labels
  import Ranges
  import Spaces

  datatype Revocation = Revocation(revoker: string, reason: string, at: Option<int>)

  datatype LegacyEntry = LegacyEntry(allocation: string, revocation: Revocation, status: Spaces.Status, created: int)

  datatype UpgradeOutcome = Upgraded | Mismatch(table: string) | OrphanedAllocations

  /** The legacy tables; None where a table does not exist. */
  datatype Legacy = Legacy(
    aliases: Option<seq<OwnedRow<Labels.Alias>>>,
    ranges: Option<seq<OwnedRow<Ranges.ReservedRange>>>,
    links: Option<seq<Link<string>>>,
    revocations: Option<seq<Link<Revocation>>>,
    headers: Option<seq<string>>)

  const NO_LEGACY := Legacy(None, None, None, None, None)

  predicate Tagged(allocation: string) {
    allocation != ""
  }

  predicate Stamped(r: Revocation) {
    r.at.Some?
  }

  function Allocations(t: map<int, LegacyEntry>): map<int, string> {
    map id | id in t :: t[id].allocation
  }

  function Revocations(t: map<int, LegacyEntry>): map<int, Revocation> {
    map id | id in t :: t[id].revocation
  }

  function WithAllocations(t: map<int, LegacyEntry>, column: map<int, string>): map<int, LegacyEntry>
    requires t.Keys <= column.Keys
  {
    map id | id in t :: t[id].(allocation := column[id])
  }

  function WithRevocations(t: map<int, LegacyEntry>, column: map<int, Revocation>): map<int, LegacyEntry>
    requires t.Keys <= column.Keys
  {
    map id | id in t :: t[id].(revocation := column[id])
  }

  /** An ACTIVE entry with a revocation time is revoked. */
  function RevokedIfStamped(e: LegacyEntry): LegacyEntry {
    if e.status == Spaces.Active && e.revocation.at.Some? then e.(status := Spaces.Revoked) else e
  }

  /** A revoked entry without a revocation time takes its creation time. */
  function StampedIfRevoked(e: LegacyEntry): LegacyEntry {
    if e.status == Spaces.Revoked && e.revocation.at.None?
    then e.(revocation := e.revocation.(at := Some(e.created)))
    else e
  }

  function Settled(e: LegacyEntry): LegacyEntry {
    StampedIfRevoked(RevokedIfStamped(e))
  }

  function SettledAll(t: map<int, LegacyEntry>): map<int, LegacyEntry> {
    map id | id in t :: Settled(t[id])
  }

  /** What settling may do to an entry: an ACTIVE one that has a revocation time becomes REVOKED, and one that
      is REVOKED without a time has its creation time. */
  predicate SettledFrom(e: LegacyEntry, e': LegacyEntry) {
    && e'.allocation == e.allocation && e'.created == e.created
    && e'.revocation.revoker == e.revocation.revoker && e'.revocation.reason == e.revocation.reason
    && e'.status == (if e.status == Spaces.Active && e.revocation.at.Some? then Spaces.Revoked else e.status)
    && e'.revocation.at == (if e.status == Spaces.Revoked && e.revocation.at.None? then Some(e.created)
                            else e.revocation.at)
  }

  predicate Tidied(t: map<int, LegacyEntry>, t': map<int, LegacyEntry>) {
    t'.Keys == t.Keys && forall id :: id in t ==> SettledFrom(t[id], t'[id])
  }

  // ---------------------------------------------------------------- what each step promises

  /** A list column after its legacy table, if there is one, was copied in. */
  function Copied<T>(legacy: Option<seq<OwnedRow<T>>>, column: map<int, seq<T>>): map<int, seq<T>> {
    if legacy.None? then column else Grouped(legacy.value, column)
  }

  /** An entry column after its legacy table, if there is one, was joined in. */
  ghost predicate Joined<T>(legacy: Option<seq<Link<T>>>, before: map<int, T>, after: map<int, T>) {
    if legacy.None? then after == before else JoinUpdate(legacy.value, before, after)
  }

  /** The same entries, but for what the two joins set. */
  predicate OnlyJoinedColumns(before: map<int, LegacyEntry>, after: map<int, LegacyEntry>) {
    && after.Keys == before.Keys
    && forall id :: id in before ==>
      after[id] == before[id].(allocation := after[id].allocation, revocation := after[id].revocation)
  }

  predicate ListCountAgrees<T>(legacy: Option<seq<OwnedRow<T>>>, column: map<int, seq<T>>) {
    legacy.Some? ==> |legacy.value| == Total(column)
  }

  predicate LinkCountAgrees<T>(filled: T -> bool, legacy: Option<seq<Link<T>>>, column: map<int, T>) {
    legacy.Some? ==> |legacy.value| == |Filled(filled, column)|
  }

  predicate LinkedTo(links: seq<Link<string>>, header: string) {
    exists i :: 0 <= i < |links| && links[i].data == header
  }

  /** Each header has a row in the link table; without a link table there may be no header at all. */
  predicate HeadersLinked(headers: Option<seq<string>>, links: Option<seq<Link<string>>>) {
    headers.Some? ==> forall k :: 0 <= k < |headers.value| ==> links.Some? && LinkedTo(links.value, headers.value[k])
  }

  /** The four counts and the header check. */
  predicate AllAgree(d: Legacy, aliases: map<int, seq<Labels.Alias>>, ranges: map<int, seq<Ranges.ReservedRange>>,
                     entries: map<int, LegacyEntry>) {
    && ListCountAgrees(d.aliases, aliases)
    && ListCountAgrees(d.ranges, ranges)
    && LinkCountAgrees(Tagged, d.links, Allocations(entries))
    && LinkCountAgrees(Stamped, d.revocations, Revocations(entries))
    && HeadersLinked(d.headers, d.links)
  }

  /** The table lost nothing exactly when the lists it does not write were empty before. */
  ghost predicate ListVerdict<T>(legacy: Option<seq<OwnedRow<T>>>, before: map<int, seq<T>>, after: map<int, seq<T>>) {
    legacy.Some? ==> (ListsKept(legacy.value, after) <==> ListsClean(legacy.value, before))
  }

  /** The table lost nothing exactly when no entry it does not write was filled before. */
  ghost predicate LinkVerdict<T>(filled: T -> bool, legacy: Option<seq<Link<T>>>, before: map<int, T>,
                                 after: map<int, T>) {
    legacy.Some? ==> (LinksKept(filled, legacy.value, after) <==> LinksClean(filled, legacy.value, before))
  }

  lemma ListVerdictHolds<T>(legacy: Option<seq<OwnedRow<T>>>, before: map<int, seq<T>>)
    requires ListCountAgrees(legacy, Copied(legacy, before))
    ensures ListVerdict(legacy, before, Copied(legacy, before))
  {
    if legacy.Some? {
      ListCounts(legacy.value, before);
    }
  }

  lemma LinkVerdictHolds<T>(filled: T -> bool, legacy: Option<seq<Link<T>>>, before: map<int, T>, after: map<int, T>)
    requires Joined(legacy, before, after) && LinkCountAgrees(filled, legacy, after)
    ensures LinkVerdict(filled, legacy, before, after)
  {
    if legacy.Some? {
      LinkCounts(filled, legacy.value, before, after);
    }
  }

  // ---------------------------------------------------------------- the copying loops

  method GroupRows<T>(rows: seq<OwnedRow<T>>) returns (byNamespace: map<int, seq<T>>)
    ensures forall id :: id in byNamespace <==> RowsOf(rows, id) != []
    ensures forall id :: id in byNamespace ==> byNamespace[id] == RowsOf(rows, id)
  {
    byNamespace := map[];
    for i := 0 to |rows|
      invariant forall id :: id in byNamespace <==> RowsOf(rows[..i], id) != []
      invariant forall id :: id in byNamespace ==> byNamespace[id] == RowsOf(rows[..i], id)
    {
      assert rows[..i + 1][..i] == rows[..i];
      var owner := rows[i].owner;
      var list := if owner in byNamespace then byNamespace[owner] else [];
      byNamespace := byNamespace[owner := list + [rows[i].item]];
    }
    assert rows[..|rows|] == rows;
  }

  /** One UPDATE per namespace, in whatever order the map yields them; an id without a row is no update. */
  method WriteLists<T>(byNamespace: map<int, seq<T>>, column: map<int, seq<T>>) returns (written: map<int, seq<T>>)
    ensures written == map id | id in column :: if id in byNamespace then byNamespace[id] else column[id]
  {
    written := column;
    var todo := byNamespace.Keys;
    while todo != {}
      invariant todo <= byNamespace.Keys
      invariant written.Keys == column.Keys
      invariant forall id :: id in column ==>
        written[id] == if id in byNamespace && id !in todo then byNamespace[id] else column[id]
      decreases |todo|
    {
      ghost var some := Member(todo);
      var owner :| owner in todo;
      if owner in written {
        written := written[owner := byNamespace[owner]];
      }
      todo := todo - {owner};
    }
    assert forall id :: id in column ==> written[id] == if id in byNamespace then byNamespace[id] else column[id];
  }

  method CopyLists<T>(rows: seq<OwnedRow<T>>, column: map<int, seq<T>>) returns (written: map<int, seq<T>>)
    ensures written == Grouped(rows, column)
  {
    var byNamespace := GroupRows(rows);
    written := WriteLists(byNamespace, column);
  }

  /** The database visits each entry once and takes any one of its matching rows. */
  method UpdateJoin<T>(links: seq<Link<T>>, column: map<int, T>) returns (updated: map<int, T>)
    ensures JoinUpdate(links, column, updated)
  {
    updated := column;
    var todo := column.Keys;
    while todo != {}
      invariant todo <= column.Keys
      invariant updated.Keys == column.Keys
      invariant forall id :: id in column && (id in todo || !Linked(links, id)) ==> updated[id] == column[id]
      invariant forall id :: id in column && id !in todo && Linked(links, id) ==> Supplied(links, id, updated[id])
      decreases |todo|
    {
      ghost var some := Member(todo);
      var id :| id in todo;
      if Linked(links, id) {
        var i :| 0 <= i < |links| && links[i].entry == id;
        assert Supplied(links, id, links[i].data);
        updated := updated[id := links[i].data];
      }
      todo := todo - {id};
    }
    forall id | id in column && Linked(links, id)
      ensures exists i :: 0 <= i < |links| && links[i].entry == id && links[i].data == updated[id]
    {
      assert Supplied(links, id, updated[id]);
    }
  }

  ghost predicate Supplied<T>(links: seq<Link<T>>, id: int, data: T) {
    exists i :: 0 <= i < |links| && links[i].entry == id && links[i].data == data
  }

  method CountOrphans(headers: seq<string>, links: Option<seq<Link<string>>>) returns (orphaned: nat)
    ensures orphaned == 0 <==> HeadersLinked(Some(headers), links)
  {
    orphaned := 0;
    for i := 0 to |headers|
      invariant orphaned == 0 <==> HeadersLinked(Some(headers[..i]), links)
    {
      assert forall k :: 0 <= k < i ==> headers[..i + 1][k] == headers[..i][k];
      assert headers[..i + 1][i] == headers[i];
      if links.None? || !LinkedTo(links.value, headers[i]) {
        orphaned := orphaned + 1;
      }
    }
    assert headers[..|headers|] == headers;
  }

  // ---------------------------------------------------------------- the database

  class Database {
    var aliases: map<int, seq<Labels.Alias>>
    var ranges: map<int, seq<Ranges.ReservedRange>>
    var entries: map<int, LegacyEntry>
    var legacy: Legacy

    method MigrateAliases()
      modifies this`aliases
      ensures aliases == Copied(legacy.aliases, old(aliases))
    {
      if legacy.aliases.Some? {
        aliases := CopyLists(legacy.aliases.value, aliases);
      }
    }

    method MigrateRanges()
      modifies this`ranges
      ensures ranges == Copied(legacy.ranges, old(ranges))
    {
      if legacy.ranges.Some? {
        ranges := CopyLists(legacy.ranges.value, ranges);
      }
    }

    method MigrateAllocations()
      modifies this`entries
      ensures OnlyJoinedColumns(old(entries), entries) && Revocations(entries) == old(Revocations(entries))
      ensures Joined(legacy.links, old(Allocations(entries)), Allocations(entries))
    {
      if legacy.links.Some? {
        var column := UpdateJoin(legacy.links.value, Allocations(entries));
        entries := WithAllocations(entries, column);
        assert Allocations(entries) == column;
      }
    }

    method MigrateRevocations()
      modifies this`entries
      ensures OnlyJoinedColumns(old(entries), entries) && Allocations(entries) == old(Allocations(entries))
      ensures Joined(legacy.revocations, old(Revocations(entries)), Revocations(entries))
    {
      if legacy.revocations.Some? {
        var column := UpdateJoin(legacy.revocations.value, Revocations(entries));
        entries := WithRevocations(entries, column);
        assert Revocations(entries) == column;
      }
    }

    method Validate() returns (outcome: UpgradeOutcome)
      ensures outcome.Upgraded? <==> AllAgree(legacy, aliases, ranges, entries)
    {
      if legacy.aliases.Some? && |legacy.aliases.value| != Total(aliases) {
        return Mismatch("namespace_aliases");
      }
      if legacy.ranges.Some? && |legacy.ranges.value| != Total(ranges) {
        return Mismatch("reserved_ranges");
      }
      if legacy.links.Some? && |legacy.links.value| != |Filled(Tagged, Allocations(entries))| {
        return Mismatch("type_allocation_entries");
      }
      if legacy.revocations.Some? && |legacy.revocations.value| != |Filled(Stamped, Revocations(entries))| {
        return Mismatch("type_entry_revocations");
      }
      if legacy.headers.Some? {
        var orphaned := CountOrphans(legacy.headers.value, legacy.links);
        if orphaned > 0 {
          return OrphanedAllocations;
        }
      }
      return Upgraded;
    }

    method NormalizeEntries()
      modifies this`entries
      ensures entries == SettledAll(old(entries))
    {
      entries := map id | id in entries :: RevokedIfStamped(entries[id]);
      entries := map id | id in entries :: StampedIfRevoked(entries[id]);
      assert forall id :: id in entries ==> entries[id] == Settled(old(entries)[id]);
    }

    /** Copies every legacy table and compares counts. */
    method CopyAndCheck() returns (outcome: UpgradeOutcome)
      modifies this`aliases, this`ranges, this`entries
      ensures aliases == Copied(legacy.aliases, old(aliases)) && ranges == Copied(legacy.ranges, old(ranges))
      ensures OnlyJoinedColumns(old(entries), entries)
      ensures Joined(legacy.links, old(Allocations(entries)), Allocations(entries))
      ensures Joined(legacy.revocations, old(Revocations(entries)), Revocations(entries))
      ensures outcome.Upgraded? <==> AllAgree(legacy, aliases, ranges, entries)
    {
      MigrateAliases();
      MigrateRanges();
      MigrateAllocations();
      MigrateRevocations();
      outcome := Validate();
    }

    /** The lists and the two joined entry columns take in every legacy table there is, and nothing else
        changes but entry states (`copied` are the entries before those are settled). The legacy tables go
        exactly when all counts agree and no header is orphaned; each of them then lost nothing exactly
        when no other list or entry was already filled. */
    method Upgrade() returns (outcome: UpgradeOutcome, ghost copied: map<int, LegacyEntry>)
      modifies this
      ensures aliases == Copied(old(legacy.aliases), old(aliases)) && ranges == Copied(old(legacy.ranges), old(ranges))
      ensures OnlyJoinedColumns(old(entries), copied)
      ensures Joined(old(legacy.links), old(Allocations(entries)), Allocations(copied))
      ensures Joined(old(legacy.revocations), old(Revocations(entries)), Revocations(copied))
      ensures entries == if outcome.Upgraded? then SettledAll(copied) else copied
      ensures outcome.Upgraded? <==> AllAgree(old(legacy), aliases, ranges, copied)
      ensures legacy == if outcome.Upgraded? then NO_LEGACY else old(legacy)
      ensures outcome.Upgraded? ==> ListVerdict(old(legacy.aliases), old(aliases), aliases)
      ensures outcome.Upgraded? ==> ListVerdict(old(legacy.ranges), old(ranges), ranges)
      ensures outcome.Upgraded? ==>
        LinkVerdict(Tagged, old(legacy.links), old(Allocations(entries)), Allocations(entries))
      ensures outcome.Upgraded? ==>
        LinkVerdict(Stamped, old(legacy.revocations), old(Revocations(entries)), Revocations(entries))
      ensures outcome.Upgraded? ==> Tidied(copied, entries)
    {
      hide AllAgree, ListVerdict, LinkVerdict, Tidied, SettledAll, Joined, Copied;
      outcome := CopyAndCheck();
      copied := entries;
      if !outcome.Upgraded? {
        return;
      }
      NormalizeEntries();
      Verdicts(legacy, old(aliases), old(ranges), old(entries), copied);
      legacy := legacy.(links := None);
      legacy := legacy.(revocations := None);
      legacy := legacy.(headers := None);
      legacy := legacy.(aliases := None);
      legacy := legacy.(ranges := None);
    }
  }

  lemma SettlingTidies(copied: map<int, LegacyEntry>)
    ensures Allocations(SettledAll(copied)) == Allocations(copied) && Tidied(copied, SettledAll(copied))
  {
    assert forall id :: id in copied ==> SettledAll(copied)[id].allocation == copied[id].allocation;
  }

  /** What agreeing counts say about all four copied columns. */
  lemma Verdicts(d: Legacy, aliases: map<int, seq<Labels.Alias>>, ranges: map<int, seq<Ranges.ReservedRange>>,
                 before: map<int, LegacyEntry>, copied: map<int, LegacyEntry>)
    requires AllAgree(d, Copied(d.aliases, aliases), Copied(d.ranges, ranges), copied)
    requires Joined(d.links, Allocations(before), Allocations(copied))
    requires Joined(d.revocations, Revocations(before), Revocations(copied))
    ensures ListVerdict(d.aliases, aliases, Copied(d.aliases, aliases))
    ensures ListVerdict(d.ranges, ranges, Copied(d.ranges, ranges))
    ensures LinkVerdict(Tagged, d.links, Allocations(before), Allocations(SettledAll(copied)))
    ensures LinkVerdict(Stamped, d.revocations, Revocations(before), Revocations(SettledAll(copied)))
    ensures Tidied(copied, SettledAll(copied))
  {
    ListVerdictHolds(d.aliases, aliases);
    ListVerdictHolds(d.ranges, ranges);
    EntryVerdicts(d.links, d.revocations, before, copied);
  }

  /** Both entry columns, after the joins and after settling. */
  lemma EntryVerdicts(links: Option<seq<Link<string>>>, revocations: Option<seq<Link<Revocation>>>,
                      before: map<int, LegacyEntry>, copied: map<int, LegacyEntry>)
    requires Joined(links, Allocations(before), Allocations(copied))
    requires Joined(revocations, Revocations(before), Revocations(copied))
    requires LinkCountAgrees(Tagged, links, Allocations(copied))
    requires LinkCountAgrees(Stamped, revocations, Revocations(copied))
    ensures LinkVerdict(Tagged, links, Allocations(before), Allocations(SettledAll(copied)))
    ensures LinkVerdict(Stamped, revocations, Revocations(before), Revocations(SettledAll(copied)))
    ensures Tidied(copied, SettledAll(copied))
  {
    LinkVerdictHolds(Tagged, links, Allocations(before), Allocations(copied));
    LinkVerdictHolds(Stamped, revocations, Revocations(before), Revocations(copied));
    SettlingTidies(copied);
    SettlingKeepsVerdict(revocations, Revocations(before), copied);
  }

  /** Settling neither loses nor repairs a copied revocation. */
  lemma SettlingKeeps(links: seq<Link<Revocation>>, before: map<int, Revocation>, copied: map<int, LegacyEntry>)
    requires JoinUpdate(links, before, Revocations(copied))
    ensures LinksKept(Stamped, links, Revocations(SettledAll(copied))) <==>
      LinksKept(Stamped, links, Revocations(copied))
  {
    if LinksKept(Stamped, links, Revocations(SettledAll(copied))) {
      forall i | 0 <= i < |links| ensures Revocations(copied)[links[i].entry] == links[i].data {
        var id := links[i].entry;
        assert id in before && Linked(links, id);
        var j :| 0 <= j < |links| && links[j].entry == id && links[j].data == Revocations(copied)[id];
        assert j == i;
      }
    }
  }

  lemma SettlingKeepsVerdict(legacy: Option<seq<Link<Revocation>>>, before: map<int, Revocation>, copied: map<int,
                             LegacyEntry>)
    requires Joined(legacy, before, Revocations(copied)) && LinkVerdict(Stamped, legacy, before, Revocations(copied))
    ensures LinkVerdict(Stamped, legacy, before, Revocations(SettledAll(copied)))
  {
    if legacy.Some? {
      SettlingKeeps(legacy.value, before, copied);
    }
  }

  /** An upgrade whose counts agree and which loses a row: the alias of a missing namespace 1 is gone, and
      the list namespace 2 already had makes up the number. */
  method UpgradeCanLose() returns (db: Database, outcome: UpgradeOutcome)
    ensures outcome.Upgraded? && db.legacy == NO_LEGACY
    ensures !ListsKept([OwnedRow(1, Labels.Alias(1, "a"))], db.aliases)
  {
    db := new Database;
    db.aliases, db.ranges, db.entries := map[2 := [Labels.Alias(1, "z")]], map[], map[];
    db.legacy := NO_LEGACY.(aliases := Some([OwnedRow(1, Labels.Alias(1, "a"))]));
    ListCountsCanHideALoss(Labels.Alias(1, "a"), Labels.Alias(1, "z"));
    ghost var copied;
    outcome, copied := db.Upgrade();
  }
}
