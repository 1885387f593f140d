/**
  One namespace: its row, its entries, and the transactions that change them, as functions.
  The rows of `type_entries` are grouped by their `namespace_id`, so a query restricted to a
  namespace reads exactly the entries of one Space.
 */
module Spaces {
  import opened Basics
  import opened Candidates

  datatype Status = Active | Deprecated | Revoked

  /** `symbol` and `project` are compared as the database compares them; "" is no symbol, no project.
      `allocation` is the batch token, or NO_ALLOCATION for a row registered without one. */
  datatype Entry = Entry(value: int, symbol: string, project: string, allocation: int, status: Status)

  const NO_ALLOCATION := 0

  type Table = map<int, Entry>

  datatype Space = Space(next: int, bounds: Bounds, active: bool, entries: Table)

  datatype Request = Request(project: string, symbol: string)

  // ---------------------------------------------------------------- queries

  function LiveValues(t: Table): set<int> {
    set id | id in t && t[id].status != Revoked :: t[id].value
  }

  function EverValues(t: Table): set<int> {
    set id | id in t :: t[id].value
  }

  function UsageOf(t: Table): (u: Usage)
    ensures u.live <= u.ever
  {
    Usage(LiveValues(t), EverValues(t))
  }

  function OfAllocation(t: Table, allocation: int): set<int> {
    set id | id in t && t[id].allocation == allocation
  }

  /** A row the unique keys on live values and live symbols would reject. */
  predicate Clashes(t: Table, value: int, symbol: string) {
    exists id :: id in t && t[id].status != Revoked &&
      (t[id].value == value || (symbol != "" && t[id].symbol == symbol))
  }

  predicate SymbolTaken(t: Table, symbol: string) {
    symbol != "" && exists id :: id in t && t[id].status != Revoked && t[id].symbol == symbol
  }

  // ---------------------------------------------------------------- allocation

  function Chosen(s: Space, project: string): Choice {
    Choose(UsageOf(s.entries), s.bounds, s.next, project)
  }

  /** One insert of a batch: choose, insert, move the cursor. */
  function Grant(s: Space, q: Request, allocation: int, id: int): Result<(Space, int)> {
    var c := Chosen(s, q.project);
    if c.NoValue? then Err(Exhausted)
    else if id in s.entries || Clashes(s.entries, c.value, q.symbol) then Err(Conflict)
    else
      var entries := s.entries[id := Entry(c.value, q.symbol, q.project, allocation, Active)];
      Ok((s.(entries := entries, next := Advance(UsageOf(entries), s.bounds, s.next, c)), c.value))
  }

  function GrantMany(s: Space, q: Request, allocation: int, ids: seq<int>): Result<(Space, seq<int>)> {
    if ids == [] then Ok((s, [])) else
      match GrantMany(s, q, allocation, ids[..|ids| - 1])
      case Err(e) => Err(e)
      case Ok((s', values)) =>
        match Grant(s', q, allocation, ids[|ids| - 1])
        case Err(e) => Err(e)
        case Ok((s'', v)) => Ok((s'', values + [v]))
  }

  // ---------------------------------------------------------------- revocation

  function MarkRevoked(t: Table, ids: set<int>): Table {
    map id | id in t :: if id in ids && t[id].status == Active then t[id].(status := Revoked) else t[id]
  }

  function Released(t: Table, ids: set<int>): set<int> {
    set id | id in ids && id in t && t[id].status == Active :: t[id].value
  }

  function PullBack(next: int, released: set<int>): int {
    if released == {} || next <= SetMin(released) then next else SetMin(released)
  }

  function Revoke(s: Space, ids: set<int>): Space {
    s.(entries := MarkRevoked(s.entries, ids), next := PullBack(s.next, Released(s.entries, ids)))
  }

  predicate AnyDeprecated(t: Table, ids: set<int>) {
    exists id :: id in ids && id in t && t[id].status == Deprecated
  }

  // ---------------------------------------------------------------- transactions of one namespace

  datatype Op =
    | Batch(request: Request, allocation: int, ids: seq<int>)
    | RevokeOne(id: int)
    | RevokeBatch(of: int)
    | Recalculate
    | Update(min: Option<int>, max: Option<int>, active: bool)

  datatype Outcome = Granted(values: seq<int>) | Done | Failed(error: Error)

  predicate BoundsOrdered(min: Option<int>, max: Option<int>) {
    min.Some? && max.Some? ==> min.value <= max.value
  }

  predicate RangesWithin(b: Bounds) {
    forall i :: 0 <= i < |b.ranges| ==> AboveMin(b, b.ranges[i].start) && BelowMax(b, b.ranges[i].end)
  }

  predicate LiveWithinMax(s: Space) {
    forall v :: v in LiveValues(s.entries) ==> BelowMax(s.bounds, v)
  }

  function Committed(s: Space, r: Result<(Space, seq<int>)>): (Space, Outcome) {
    match r
    case Ok((s', values)) => (s', Granted(values))
    case Err(e) => (s, Failed(e))
  }

  function Apply(s: Space, op: Op): (Space, Outcome) {
    match op
    case Batch(q, allocation, ids) =>
      if ids == [] then (s, Failed(Invalid))
      else if !s.active then (s, Failed(NotActive))
      else Committed(s, GrantMany(s, q, allocation, ids))
    case RevokeOne(id) =>
      if id !in s.entries then (s, Failed(NotFound))
      else if s.entries[id].status == Deprecated then (s, Failed(Conflict))
      else (Revoke(s, {id}), Done)
    case RevokeBatch(allocation) =>
      var ids := OfAllocation(s.entries, allocation);
      if ids == {} then (s, Failed(NotFound))
      else if AnyDeprecated(s.entries, ids) then (s, Failed(Conflict))
      else (Revoke(s, ids), Done)
    case Recalculate =>
      if |s.entries| == 0 then (s, Done)
      else (s.(next := Recomputed(UsageOf(s.entries), s.bounds)), Done)
    case Update(min, max, active) =>
      var b := Bounds(min, max, s.bounds.ranges);
      if !BoundsOrdered(min, max) then (s, Failed(Invalid))
      else if !RangesWithin(b) || !LiveWithinMax(s.(bounds := b)) then (s, Failed(Conflict))
      else (s.(bounds := b, active := active, next := Floor(b, s.next)), Done)
  }

  function Run(s: Space, ops: seq<Op>): Space {
    if ops == [] then s else Apply(Run(s, ops[..|ops| - 1]), ops[|ops| - 1]).0
  }

  // ---------------------------------------------------------------- what a write does to the value sets

  lemma UsageAfterInsert(t: Table, id: int, e: Entry)
    requires id !in t && e.status != Revoked
    ensures UsageOf(t[id := e]) == Register(UsageOf(t), e.value)
  {
    var t' := t[id := e];
    assert forall i :: i in t ==> t'[i] == t[i];
    forall v ensures v in LiveValues(t') <==> v in LiveValues(t) + {e.value} {
      if v in LiveValues(t) {
        var i :| i in t && t[i].status != Revoked && t[i].value == v;
        assert i in t' && t'[i].value == v;
      }
      assert t'[id].value == e.value;
    }
    forall v ensures v in EverValues(t') <==> v in EverValues(t) + {e.value} {
      if v in EverValues(t) {
        var i :| i in t && t[i].value == v;
        assert i in t' && t'[i].value == v;
      }
      assert t'[id].value == e.value;
    }
  }

  predicate UniqueLive(t: Table) {
    forall i, j ::
      i in t && j in t && t[i].status != Revoked && t[j].status != Revoked && t[i].value == t[j].value ==> i == j
  }

  lemma UsageAfterRevoke(t: Table, ids: set<int>)
    ensures var u := UsageOf(t); var u' := UsageOf(MarkRevoked(t, ids)); var released := Released(t, ids);
      && u'.ever == u.ever && u'.live <= u.live <= u'.live + released
      && released <= u.live
      && (UniqueLive(t) ==> u'.live == u.live - released)
  {
    var t' := MarkRevoked(t, ids);
    forall v ensures v in EverValues(t') <==> v in EverValues(t) {
      if v in EverValues(t) {
        var i :| i in t && t[i].value == v;
        assert t'[i].value == v;
      }
      if v in EverValues(t') {
        var i :| i in t' && t'[i].value == v;
        assert t[i].value == v;
      }
    }
    forall v | v in LiveValues(t) ensures v in LiveValues(t') + Released(t, ids) {
      var i :| i in t && t[i].status != Revoked && t[i].value == v;
      assert t'[i].value == v;
    }
    forall v | v in LiveValues(t') ensures v in LiveValues(t) {
      var i :| i in t' && t'[i].status != Revoked && t'[i].value == v;
      assert t[i].value == v;
    }
  }

  lemma EmptyUsage(t: Table)
    ensures |t| == 0 <==> EverValues(t) == {}
  {
    if |t| != 0 {
      var id := Member(t.Keys);
      assert t[id].value in EverValues(t);
    }
  }

  /** Everything one insert does, without naming how the choice was made. */
  lemma GrantFacts(s: Space, q: Request, allocation: int, id: int)
    requires Grant(s, q, allocation, id).Ok?
    ensures var (s', v) := Grant(s, q, allocation, id).value; var u := UsageOf(s.entries);
      var c := Chosen(s, q.project);
      && id !in s.entries && s'.entries == s.entries[id := Entry(v, q.symbol, q.project, allocation, Active)]
      && UsageOf(s'.entries) == Register(u, v) && v !in u.live
      && s'.bounds == s.bounds && s'.active == s.active
      && !c.NoValue? && c.value == v && s'.next == Advance(Register(u, v), s.bounds, s.next, c)
  {
    var c := Chosen(s, q.project);
    UsageAfterInsert(s.entries, id, Entry(c.value, q.symbol, q.project, allocation, Active));
    ChosenIsFree(s, q.project);
  }

  lemma ChosenIsFree(s: Space, project: string)
    requires !Chosen(s, project).NoValue?
    ensures Chosen(s, project).value !in LiveValues(s.entries)
  {
    var u := UsageOf(s.entries);
    if OwnFree(u.live, s.bounds.ranges, project) == {} {
      NextGlobalSound(u, s.bounds, s.next);
    }
  }

  lemma ClashIsSymbol(t: Table, value: int, symbol: string)
    requires value !in LiveValues(t)
    ensures Clashes(t, value, symbol) <==> SymbolTaken(t, symbol)
  {
    forall id | id in t && t[id].status != Revoked ensures t[id].value != value {
      assert t[id].value in LiveValues(t);
    }
  }

  /** The unique key on live values is never what refuses an insert: it fails for want of a value,
      for a symbol in use, or for a primary key already drawn, and for nothing else. */
  lemma ValueKeyNeverHit(s: Space, q: Request, allocation: int, id: int)
    ensures var r := Grant(s, q, allocation, id);
      && (r == Err(Exhausted) <==> Chosen(s, q.project).NoValue?)
      && (r == Err(Conflict) <==>
        !Chosen(s, q.project).NoValue? && (id in s.entries || SymbolTaken(s.entries, q.symbol)))
      && (r.Err? ==> r.error in {Exhausted, Conflict})
  {
    var c := Chosen(s, q.project);
    if !c.NoValue? {
      ChosenIsFree(s, q.project);
      ClashIsSymbol(s.entries, c.value, q.symbol);
    }
  }
}
