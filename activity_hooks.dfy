/**
 * The hooks of the "activities" collection: the entry each new activity gets
 * (daily only in the first schema, in the table of its type in the second),
 * the owner check on updates, and the type-change hook that moves an open
 * entry from the table of the old type to the table of the new one.
 *
 * In the second schema the type-change hook is bound to the after-create
 * event, right after the entry-creation hook, so it only ever compares a new
 * activity with itself. `ChangeType` models its body as written;
 * `ChangeActivityTypeAtomic` and `UpdateActivityRequestMigrating` model the
 * evidently intended update-time migration of the activity's own entry.
 */
module ActivityHooks {
  import opened Ledger
  import Provisioning

  /** The first open entry of table t that a `closed = False` query returns (lowest id first). */
  function FirstOpen(t: Table, n: nat): (r: Option<Id>)
    ensures r.Some? ==> r.value in t && !t[r.value].closed && r.value < n
    ensures r.Some? ==> forall id :: id in t && !t[id].closed && id < n ==> r.value <= id
    ensures r.None? ==> forall id :: id in t && id < n ==> t[id].closed
  {
    AscendingHead(OpenSet(t), n);
    assert forall id :: id in t && !t[id].closed ==> id in OpenSet(t);
    var ids := OpenIds(t, n);
    if ids == [] then None else Some(ids[0])
  }

  /** The first open entry of table t that belongs to activity a. */
  function FirstOpenOf(t: Table, a: Id, n: nat): (r: Option<Id>)
    ensures r.Some? ==> r.value in OpenOf(t, a) && r.value < n
    ensures r.Some? ==> forall id :: id in OpenOf(t, a) && id < n ==> r.value <= id
    ensures r.None? ==> forall id :: id in OpenOf(t, a) ==> id >= n
  {
    AscendingHead(OpenOf(t, a), n);
    var ids := Ascending(OpenOf(t, a), n);
    if ids == [] then None else Some(ids[0])
  }

  // ---------------------------------------------------------------------------
  // Entry creation

  /** The first schema's after-create hook: one open daily entry for the new activity, whatever its type. */
  method CreateDailyEntryHookV1(s: Store, a: Id, rejects: set<Ref>) returns (r: Result<Store>)
    requires a in s.activities && KeysBelow(s.daily, s.nextId)
    ensures r.Ok? <==> EntryRef(Daily, s.nextId) !in rejects
    ensures r.Ok? ==> r.value.daily == s.daily[s.nextId := Provisioning.EntryFor(s, a)]
    ensures r.Ok? ==> forall b :: OpenCount(r.value.daily, b) == OpenCount(s.daily, b) + (if b == a then 1 else 0)
    ensures r.Ok? ==> r.value == s.WithTable(Daily, r.value.daily).(nextId := s.nextId + 1)
  {
    var activity := s.activities[a];
    var record := Entry(a, 0, activity.goal, false);
    r := InsertEntry(s, Daily, record, rejects);
    forall b {
      InsertOpenCount(s.daily, s.nextId, record, b);
    }
  }

  /**
   * The second schema's after-create hook: an activity whose type names no
   * period is refused; otherwise it gets one open entry in the table of its type.
   */
  method CreateEntryHook(s: Store, a: Id, rejects: set<Ref>) returns (r: Result<Store>)
    requires a in s.activities && s.TablesBelow()
    ensures PeriodOf(s.activities[a].typ).None? ==> r == Err(UnknownActivityType)
    ensures r.Ok? <==> PeriodOf(s.activities[a].typ).Some? &&
                       EntryRef(PeriodOf(s.activities[a].typ).value, s.nextId) !in rejects
    ensures r.Ok? ==>
      var p := PeriodOf(s.activities[a].typ).value;
      && r.value.Table(p) == s.Table(p)[s.nextId := Provisioning.EntryFor(s, a)]
      && (forall b :: OpenCount(r.value.Table(p), b) == OpenCount(s.Table(p), b) + (if b == a then 1 else 0))
      && r.value == s.WithTable(p, r.value.Table(p)).(nextId := s.nextId + 1)
  {
    var typ := PeriodOf(s.activities[a].typ);
    if typ.None? {
      return Err(UnknownActivityType);
    }
    var p := typ.value;
    var record := Entry(a, 0, s.activities[a].goal, false);
    r := InsertEntry(s, p, record, rejects);
    assert KeysBelow(s.Table(p), s.nextId);
    forall b ensures OpenCount(s.Table(p)[s.nextId := record], b) == OpenCount(s.Table(p), b) + (if b == a then 1 else 0) {
      InsertOpenCount(s.Table(p), s.nextId, record, b);
    }
  }

  // ---------------------------------------------------------------------------
  // Owner check

  /** The owner check: the stored activity must exist and keep its owner. */
  function OwnerCheck(s: Store, id: Id, incoming: Activity): (o: Outcome)
    ensures o == Pass <==> id in s.activities && s.activities[id].user == incoming.user
    ensures id !in s.activities ==> o == Fail(NotFound)
    ensures id in s.activities && s.activities[id].user != incoming.user ==> o == Fail(OwnerChanged)
  {
    if id !in s.activities then Fail(NotFound)
    else if s.activities[id].user != incoming.user then Fail(OwnerChanged)
    else Pass
  }

  /**
   * An activity update request in the second schema: the owner check, then the
   * save of the incoming record. No update hook touches the entry tables, so a
   * type change leaves the activity's open entries in the table of its old type.
   */
  function UpdateActivityRequest(s: Store, id: Id, incoming: Activity): (r: Result<Store>)
    ensures r.Ok? <==> id in s.activities && s.activities[id].user == incoming.user
    ensures r.Ok? ==> r.value.activities == s.activities[id := incoming]
    ensures r.Ok? ==> forall p :: r.value.Table(p) == s.Table(p)
    ensures r.Ok? ==> r.value.users == s.users && r.value.rewards == s.rewards && r.value.nextId == s.nextId
  {
    match OwnerCheck(s, id, incoming)
    case Fail(err) => Err(err)
    case Pass => Ok(s.(activities := s.activities[id := incoming]))
  }

  /** Once an activity exists, no accepted update request ever changes its owner. */
  lemma {:induction false} OwnerNeverChanges(s: Store, id: Id, updates: seq<(Id, Activity)>)
    requires id in s.activities
    ensures var s2 := UpdateAll(s, updates); id in s2.activities && s2.activities[id].user == s.activities[id].user
    decreases |updates|
  {
    if updates != [] {
      var r := UpdateActivityRequest(s, updates[0].0, updates[0].1);
      var s1 := if r.Ok? then r.value else s;
      assert id in s1.activities && s1.activities[id].user == s.activities[id].user;
      OwnerNeverChanges(s1, id, updates[1..]);
    }
  }

  /** The store after a sequence of activity update requests, each refused one leaving it as it was. */
  function UpdateAll(s: Store, updates: seq<(Id, Activity)>): Store
    decreases |updates|
  {
    if updates == [] then s
    else
      var r := UpdateActivityRequest(s, updates[0].0, updates[0].1);
      UpdateAll(if r.Ok? then r.value else s, updates[1..])
  }

  // ---------------------------------------------------------------------------
  // Type change, as written

  /**
   * The type-change hook's body as written, for stored activity id and
   * incoming record `incoming`. It returns the store as the hook leaves it
   * (there is no transaction) and the hook's outcome. The migrated entry is
   * the first open entry of the old table, whichever activity owns it, and it
   * is deleted before its replacement is saved.
   */
  function ChangeType(s: Store, id: Id, incoming: Activity, rejects: set<Ref>): (Store, Outcome)
  {
    if id !in s.activities then (s, Fail(NotFound))
    else if s.activities[id].typ == incoming.typ then (s, Pass)
    else if PeriodOf(s.activities[id].typ).None? then (s, Fail(UnknownActivityType))
    else
      var po := PeriodOf(s.activities[id].typ).value;
      match FirstOpen(s.Table(po), s.nextId)
      case None => (s, Fail(NotFound))
      case Some(f) =>
        if PeriodOf(incoming.typ).None? then (s, Fail(NotFound))
        else
          var pn := PeriodOf(incoming.typ).value;
          var prior := s.Table(po)[f];
          var moved := Entry(id, prior.progress, prior.goal, false);
          match DeleteEntry(s, po, f, rejects)
          case Err(err) => (s, Fail(err))
          case Ok(s1) =>
            match InsertEntry(s1, pn, moved, rejects)
            case Err(err) => (s1, Fail(err))
            case Ok(s2) => (s2, Pass)
  }

  /** `changeActivityTypeHookBind`'s handler, step by step. */
  method ChangeActivityTypeHook(s: Store, id: Id, incoming: Activity, rejects: set<Ref>)
    returns (s2: Store, out: Outcome)
    ensures (s2, out) == ChangeType(s, id, incoming, rejects)
    // early exits, each before any write
    ensures id !in s.activities ==> s2 == s && out == Fail(NotFound)
    ensures id in s.activities && s.activities[id].typ == incoming.typ ==> s2 == s && out == Pass
    ensures id in s.activities && s.activities[id].typ != incoming.typ && PeriodOf(s.activities[id].typ).None? ==>
      s2 == s && out == Fail(UnknownActivityType)
    // a failure leaves a trace only when the delete went through and the save was refused
    ensures out.Fail? && s2 != s ==>
      && id in s.activities && s.activities[id].typ != incoming.typ
      && PeriodOf(s.activities[id].typ).Some? && PeriodOf(incoming.typ).Some?
      && FirstOpen(s.Table(PeriodOf(s.activities[id].typ).value), s.nextId).Some?
      && var po := PeriodOf(s.activities[id].typ).value;
         var f := FirstOpen(s.Table(po), s.nextId).value;
         && EntryRef(po, f) !in rejects
         && EntryRef(PeriodOf(incoming.typ).value, s.nextId) in rejects
         && s2 == s.WithTable(po, s.Table(po) - {f})
  {
    if id !in s.activities {
      return s, Fail(NotFound);
    }
    var oldType := s.activities[id].typ;
    var newType := incoming.typ;
    if oldType == newType {
      return s, Pass;
    }
    if oldType != "daily" && oldType != "weekly" && oldType != "monthly" && oldType != "yearly" {
      return s, Fail(UnknownActivityType);
    }
    var po := PeriodOf(oldType).value;
    var first := FirstOpen(s.Table(po), s.nextId);
    if first.None? {
      return s, Fail(NotFound);
    }
    var pn := PeriodOf(newType);
    if pn.None? {
      return s, Fail(NotFound);
    }
    var oldRecord := s.Table(po)[first.value];
    var newRecord := Entry(id, oldRecord.progress, oldRecord.goal, false);
    var deleted := DeleteEntry(s, po, first.value, rejects);
    if deleted.Err? {
      return s, Fail(deleted.error);
    }
    var saved := InsertEntry(deleted.value, pn.value, newRecord, rejects);
    if saved.Err? {
      return deleted.value, Fail(saved.error);
    }
    return saved.value, Pass;
  }

  /**
   * The hook passes exactly when the types are equal, or both name a period,
   * the old table has an open entry and neither the delete of the first one
   * nor the save of its copy under the next id is refused.
   */
  lemma ChangeTypePasses(s: Store, id: Id, incoming: Activity, rejects: set<Ref>)
    ensures ChangeType(s, id, incoming, rejects).1 == Pass <==>
      && id in s.activities
      && (|| s.activities[id].typ == incoming.typ
          || (&& PeriodOf(s.activities[id].typ).Some? && PeriodOf(incoming.typ).Some?
              && FirstOpen(s.Table(PeriodOf(s.activities[id].typ).value), s.nextId).Some?
              && EntryRef(PeriodOf(s.activities[id].typ).value,
                          FirstOpen(s.Table(PeriodOf(s.activities[id].typ).value), s.nextId).value) !in rejects
              && EntryRef(PeriodOf(incoming.typ).value, s.nextId) !in rejects))
  {
    if id in s.activities && s.activities[id].typ != incoming.typ && PeriodOf(s.activities[id].typ).Some? {
      var po := PeriodOf(s.activities[id].typ).value;
      if FirstOpen(s.Table(po), s.nextId).Some? && PeriodOf(incoming.typ).Some? {
        var f := FirstOpen(s.Table(po), s.nextId).value;
        var prior := s.Table(po)[f];
        var moved := Entry(id, prior.progress, prior.goal, false);
        if DeleteEntry(s, po, f, rejects).Ok? {
          var s1 := DeleteEntry(s, po, f, rejects).value;
          assert s1.nextId == s.nextId;
          assert InsertEntry(s1, PeriodOf(incoming.typ).value, moved, rejects).Ok? <==>
            EntryRef(PeriodOf(incoming.typ).value, s.nextId) !in rejects;
        }
      }
    }
  }

  /** Called with the stored record itself, as it is after create, the hook does nothing. */
  lemma ChangeTypeOnItselfIsNoop(s: Store, id: Id, rejects: set<Ref>)
    requires id in s.activities
    ensures ChangeType(s, id, s.activities[id], rejects) == (s, Pass)
  {
  }

  /**
   * After `createActivityEntryHookBind` and `changeActivityTypeHookBind`, in
   * their bind order, handle an activity creation: the entry is created and the
   * type-change hook, seeing the new activity against itself, changes nothing.
   */
  method AfterActivityCreate(s: Store, a: Id, rejects: set<Ref>) returns (r: Result<Store>)
    requires a in s.activities && s.Valid()
    ensures PeriodOf(s.activities[a].typ).None? ==> r == Err(UnknownActivityType)
    ensures r.Ok? <==> PeriodOf(s.activities[a].typ).Some? &&
                       EntryRef(PeriodOf(s.activities[a].typ).value, s.nextId) !in rejects
    ensures r.Ok? ==>
      var p := PeriodOf(s.activities[a].typ).value;
      && r.value.Table(p) == s.Table(p)[s.nextId := Provisioning.EntryFor(s, a)]
      && r.value == s.WithTable(p, r.value.Table(p)).(nextId := s.nextId + 1)
  {
    r := CreateEntryHook(s, a, rejects);
    if r.Err? {
      return;
    }
    var s1 := r.value;
    ChangeTypeOnItselfIsNoop(s1, a, rejects);
    var s2, out := ChangeActivityTypeHook(s1, a, s1.activities[a], rejects);
    assert out == Pass && s2 == s1;
    r := Ok(s2);
  }

  /**
   * When the old entry's delete goes through and the new entry's save is
   * refused, the hook reports the failure with the old entry already gone:
   * the activity's progress is lost from both tables.
   */
  lemma ChangeTypeLosesEntryOnFailedSave(s: Store, id: Id, incoming: Activity, rejects: set<Ref>)
    requires id in s.activities && s.activities[id].typ != incoming.typ
    requires PeriodOf(s.activities[id].typ).Some? && PeriodOf(incoming.typ).Some?
    requires FirstOpen(s.Table(PeriodOf(s.activities[id].typ).value), s.nextId).Some?
    requires EntryRef(PeriodOf(s.activities[id].typ).value,
                      FirstOpen(s.Table(PeriodOf(s.activities[id].typ).value), s.nextId).value) !in rejects
    requires EntryRef(PeriodOf(incoming.typ).value, s.nextId) in rejects
    ensures var po := PeriodOf(s.activities[id].typ).value;
      var f := FirstOpen(s.Table(po), s.nextId).value;
      var (s2, out) := ChangeType(s, id, incoming, rejects);
      && out == Fail(SaveRejected)
      && f !in s2.Table(po)
      && s2 == s.WithTable(po, s.Table(po) - {f})
  {
  }

  /** A store with two daily activities of one user; the first open daily entry, id 3, belongs to activity 2. */
  const ForeignStore: Store := Store(
    map[0 := User(0)],
    map[1 := Activity("run", 0, 5, 3, "daily"), 2 := Activity("read", 0, 2, 1, "daily")],
    map[],
    map[3 := Entry(2, 7, 1, false), 4 := Entry(1, 1, 3, false)],
    map[], map[], map[], 5)

  /** Activity 1 of `ForeignStore` with its type changed to weekly. */
  const ForeignIncoming: Activity := Activity("run", 0, 5, 3, "weekly")

  /**
   * A successful run of the hook as written: the first open entry f of the old
   * table is removed and a record of activity id with f's progress and goal is
   * added to the new table. When f belongs to another activity, that activity
   * loses an open entry and activity id keeps all of its own.
   */
  lemma ChangeTypeMovesFirstOpen(s: Store, id: Id, incoming: Activity, rejects: set<Ref>)
    requires id in s.activities && s.activities[id].typ != incoming.typ
    requires PeriodOf(s.activities[id].typ).Some? && PeriodOf(incoming.typ).Some?
    requires FirstOpen(s.Table(PeriodOf(s.activities[id].typ).value), s.nextId).Some?
    requires s.TablesBelow()
    requires EntryRef(PeriodOf(s.activities[id].typ).value,
                      FirstOpen(s.Table(PeriodOf(s.activities[id].typ).value), s.nextId).value) !in rejects
    requires EntryRef(PeriodOf(incoming.typ).value, s.nextId) !in rejects
    ensures var po := PeriodOf(s.activities[id].typ).value;
      var pn := PeriodOf(incoming.typ).value;
      var f := FirstOpen(s.Table(po), s.nextId).value;
      var owner := s.Table(po)[f].activity;
      var (s2, out) := ChangeType(s, id, incoming, rejects);
      && out == Pass
      && s2.Table(pn)[s.nextId] == Entry(id, s.Table(po)[f].progress, s.Table(po)[f].goal, false)
      && s2.Table(po) == s.Table(po) - {f}
      && (owner != id ==> OpenCount(s2.Table(po), owner) == OpenCount(s.Table(po), owner) - 1)
      && (owner != id ==> OpenCount(s2.Table(po), id) == OpenCount(s.Table(po), id))
  {
    var po := PeriodOf(s.activities[id].typ).value;
    var pn := PeriodOf(incoming.typ).value;
    var f := FirstOpen(s.Table(po), s.nextId).value;
    assert po != pn;
    DeleteOpenCount(s.Table(po), f, s.Table(po)[f].activity);
    DeleteOpenCount(s.Table(po), f, id);
  }

  /**
   * In `ForeignStore` the first open daily entry belongs to activity 2, not to
   * activity 1 whose type changes. These are the preconditions of
   * `ChangeTypeMovesFirstOpen` for this store, which then gives the move of
   * entry 3 to activity 1's weekly table.
   */
  lemma FirstOpenCanBeForeign()
    ensures ForeignStore.activities[1].typ != ForeignIncoming.typ
    ensures PeriodOf(ForeignStore.activities[1].typ) == Some(Daily)
    ensures PeriodOf(ForeignIncoming.typ) == Some(Weekly)
    ensures FirstOpen(ForeignStore.daily, ForeignStore.nextId) == Some(3)
    ensures ForeignStore.daily[3].activity == 2 && 4 in OpenOf(ForeignStore.daily, 1)
  {
    assert "daily"[0] != "weekly"[0];
    assert 3 in ForeignStore.daily && !ForeignStore.daily[3].closed;
  }

  // ---------------------------------------------------------------------------
  // Type change, as intended

  /**
   * Whether the intended migration of activity id goes through: the types are
   * equal, or both name a period, the activity has an open entry in the old
   * table, and neither the delete of its first open entry nor the save of the
   * copy under the next id is refused.
   */
  predicate CanMigrate(s: Store, id: Id, incoming: Activity, rejects: set<Ref>)
    requires id in s.activities
  {
    var po := PeriodOf(s.activities[id].typ);
    var pn := PeriodOf(incoming.typ);
    || s.activities[id].typ == incoming.typ
    || (&& po.Some? && pn.Some?
        && FirstOpenOf(s.Table(po.value), id, s.nextId).Some?
        && EntryRef(po.value, FirstOpenOf(s.Table(po.value), id, s.nextId).value) !in rejects
        && EntryRef(pn.value, s.nextId) !in rejects)
  }

  /** The store after a successful intended migration: unchanged for equal types, otherwise the activity's first open entry moved. */
  function Migrated(s: Store, id: Id, incoming: Activity, rejects: set<Ref>): Store
    requires id in s.activities && CanMigrate(s, id, incoming, rejects)
  {
    if s.activities[id].typ == incoming.typ then s
    else
      var po := PeriodOf(s.activities[id].typ).value;
      Moved(s, po, PeriodOf(incoming.typ).value, FirstOpenOf(s.Table(po), id, s.nextId).value)
  }

  /**
   * The intended migration, all or nothing: the first open entry of activity
   * id itself moves from the table of the old type to the table of the new
   * type, keeping its progress and goal. A refused write leaves the store as
   * it was.
   */
  method ChangeActivityTypeAtomic(s: Store, id: Id, incoming: Activity, rejects: set<Ref>)
    returns (r: Result<Store>)
    requires s.TablesBelow()
    ensures r.Ok? <==> id in s.activities && CanMigrate(s, id, incoming, rejects)
    ensures r.Ok? ==> r.value == Migrated(s, id, incoming, rejects)
    ensures id !in s.activities ==> r == Err(NotFound)
    ensures id in s.activities && s.activities[id].typ != incoming.typ && PeriodOf(s.activities[id].typ).None? ==>
      r == Err(UnknownActivityType)
    ensures r.Ok? && s.activities[id].typ != incoming.typ ==>
      var po := PeriodOf(s.activities[id].typ).value;
      var pn := PeriodOf(incoming.typ).value;
      var f := FirstOpenOf(s.Table(po), id, s.nextId).value;
      && s.nextId in r.value.Table(pn)
      && r.value.Table(pn)[s.nextId] == s.Table(po)[f]
      && (forall b :: OpenCount(r.value.Table(po), b) == OpenCount(s.Table(po), b) - (if b == id then 1 else 0))
      && (forall b :: OpenCount(r.value.Table(pn), b) == OpenCount(s.Table(pn), b) + (if b == id then 1 else 0))
      && (forall q :: q != po && q != pn ==> r.value.Table(q) == s.Table(q))
    ensures r.Ok? ==> r.value.users == s.users && r.value.activities == s.activities && r.value.rewards == s.rewards
    ensures r.Ok? ==> r.value.TablesBelow() && r.value.nextId >= s.nextId
  {
    if id !in s.activities {
      return Err(NotFound);
    }
    var oldType := s.activities[id].typ;
    if oldType == incoming.typ {
      return Ok(s);
    }
    var po := PeriodOf(oldType);
    var pn := PeriodOf(incoming.typ);
    if po.None? {
      return Err(UnknownActivityType);
    }
    if pn.None? {
      return Err(NotFound);
    }
    var first := FirstOpenOf(s.Table(po.value), id, s.nextId);
    if first.None? {
      return Err(NotFound);
    }
    r := MoveEntry(s, po.value, pn.value, first.value, rejects);
    if r.Ok? {
      MovedEffect(s, po.value, pn.value, first.value);
    }
  }

  /** The store after open entry f of table po has moved to table pn under the next id. */
  function Moved(s: Store, po: Period, pn: Period, f: Id): Store
    requires f in s.Table(po)
  {
    var e := s.Table(po)[f];
    s.WithTable(po, s.Table(po) - {f})
     .WithTable(pn, s.Table(pn)[s.nextId := Entry(e.activity, e.progress, e.goal, false)])
     .(nextId := s.nextId + 1)
  }

  /**
   * The intended migration's writes: open entry f of table po moves to table
   * pn under the next id. Both writes happen or neither does.
   */
  method MoveEntry(s: Store, po: Period, pn: Period, f: Id, rejects: set<Ref>) returns (r: Result<Store>)
    requires po != pn && f in s.Table(po)
    ensures r.Ok? <==> EntryRef(po, f) !in rejects && EntryRef(pn, s.nextId) !in rejects
    ensures r.Ok? ==> r.value == Moved(s, po, pn, f)
  {
    var oldRecord := s.Table(po)[f];
    var newRecord := Entry(oldRecord.activity, oldRecord.progress, oldRecord.goal, false);
    var deleted :- DeleteEntry(s, po, f, rejects);
    r := InsertEntry(deleted, pn, newRecord, rejects);
  }

  /**
   * A move carries the entry over unchanged: its activity loses one open entry
   * in po and gains one in pn, no other table, user, activity or reward
   * changes, and every entry id stays below the id bound.
   */
  lemma MovedEffect(s: Store, po: Period, pn: Period, f: Id)
    requires s.TablesBelow() && po != pn && f in s.Table(po) && !s.Table(po)[f].closed
    ensures var s2 := Moved(s, po, pn, f);
      var a := s.Table(po)[f].activity;
      && s.nextId in s2.Table(pn)
      && s2.Table(pn)[s.nextId] == s.Table(po)[f]
      && (forall b :: OpenCount(s2.Table(po), b) == OpenCount(s.Table(po), b) - (if b == a then 1 else 0))
      && (forall b :: OpenCount(s2.Table(pn), b) == OpenCount(s.Table(pn), b) + (if b == a then 1 else 0))
      && (forall q :: q != po && q != pn ==> s2.Table(q) == s.Table(q))
      && s2.users == s.users && s2.activities == s.activities && s2.rewards == s.rewards
      && s2.TablesBelow() && s2.nextId == s.nextId + 1
  {
    var s2 := Moved(s, po, pn, f);
    var e := s.Table(po)[f];
    MovedShape(s, po, pn, f);
    assert KeysBelow(s.Table(pn), s.nextId);
    MoveOpenCounts(s.Table(po), s.Table(pn), f, s.nextId, e);
    forall q ensures KeysBelow(s2.Table(q), s2.nextId) {
      assert KeysBelow(s.Table(q), s.nextId);
    }
  }

  /** Where a move writes: entry f leaves table po and reappears, open, under the next id in table pn. */
  lemma MovedShape(s: Store, po: Period, pn: Period, f: Id)
    requires po != pn && f in s.Table(po) && !s.Table(po)[f].closed
    ensures var s2 := Moved(s, po, pn, f);
      && s2.Table(po) == s.Table(po) - {f}
      && s2.Table(pn) == s.Table(pn)[s.nextId := s.Table(po)[f]]
      && (forall q :: q != po && q != pn ==> s2.Table(q) == s.Table(q))
      && s2.users == s.users && s2.activities == s.activities && s2.rewards == s.rewards
      && s2.nextId == s.nextId + 1
  {
    var e := s.Table(po)[f];
    var s3 := s.WithTable(po, s.Table(po) - {f}).WithTable(pn, s.Table(pn)[s.nextId := e]);
    assert Entry(e.activity, e.progress, e.goal, false) == e;
    var s2 := Moved(s, po, pn, f);
    assert s2 == s3.(nextId := s.nextId + 1);
    forall q ensures s2.Table(q) == s3.Table(q) {
      match q
      case Daily =>
      case Weekly =>
      case Monthly =>
      case Yearly =>
    }
  }

  /**
   * Removing open entry f from table to and adding the open record e of the
   * same activity to table tn under a fresh id n: that activity loses one open
   * entry in to and gains one in tn; no other activity's counts change.
   */
  lemma MoveOpenCounts(to: Table, tn: Table, f: Id, n: Id, e: Entry)
    requires f in to && !to[f].closed && n !in tn && !e.closed && e.activity == to[f].activity
    ensures forall b :: OpenCount(to - {f}, b) == OpenCount(to, b) - (if b == e.activity then 1 else 0)
    ensures forall b :: OpenCount(tn[n := e], b) == OpenCount(tn, b) + (if b == e.activity then 1 else 0)
  {
    forall b
      ensures OpenCount(to - {f}, b) == OpenCount(to, b) - (if b == e.activity then 1 else 0)
      ensures OpenCount(tn[n := e], b) == OpenCount(tn, b) + (if b == e.activity then 1 else 0)
    {
      DeleteOpenCount(to, f, b);
      InsertOpenCount(tn, n, e, b);
    }
  }

  /**
   * The evidently intended activity update request: the owner check, then the
   * migration of the activity's open entry to the table of its new type, then
   * the save of the incoming record, all or nothing.
   */
  method UpdateActivityRequestMigrating(s: Store, id: Id, incoming: Activity, rejects: set<Ref>)
    returns (r: Result<Store>)
    requires s.Valid()
    ensures r.Ok? <==>
      id in s.activities && s.activities[id].user == incoming.user && CanMigrate(s, id, incoming, rejects)
    ensures OwnerCheck(s, id, incoming).Fail? ==> r == Err(OwnerCheck(s, id, incoming).error)
    ensures r.Ok? ==> r.value == Migrated(s, id, incoming, rejects).(activities := s.activities[id := incoming])
    ensures r.Ok? ==> r.value.users == s.users && r.value.rewards == s.rewards
    ensures r.Ok? && s.activities[id].typ == incoming.typ ==> forall q :: r.value.Table(q) == s.Table(q)
    ensures r.Ok? && s.activities[id].typ != incoming.typ ==>
      var po := PeriodOf(s.activities[id].typ).value;
      var pn := PeriodOf(incoming.typ).value;
      && OpenCount(r.value.Table(po), id) == OpenCount(s.Table(po), id) - 1
      && OpenCount(r.value.Table(pn), id) == OpenCount(s.Table(pn), id) + 1
      && (forall q :: q != po && q != pn ==> r.value.Table(q) == s.Table(q))
    ensures r.Ok? ==> r.value.Valid()
  {
    var check := OwnerCheck(s, id, incoming);
    if check.Fail? {
      return Err(check.error);
    }
    var s1 :- ChangeActivityTypeAtomic(s, id, incoming, rejects);
    var s2 := s1.(activities := s1.activities[id := incoming]);
    forall p ensures s2.Table(p) == s1.Table(p) {
      match p
      case Daily =>
      case Weekly =>
      case Monthly =>
      case Yearly =>
    }
    assert s2.activities.Keys == s.activities.Keys;
    assert KeysBelow(s2.activities, s2.nextId);
    r := Ok(s2);
  }
}
