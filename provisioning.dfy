/**
 * The provisioning jobs. `createNewDailyEntriesCron` opens a fresh daily entry
 * for every activity; its successors `createNewDailyEntriesV2Cron`,
 * `createNewWeeklyEntriesCron`, `createNewMonthlyEntriesCron` and
 * `createNewYearlyEntriesCron` open one in table "<type>_entries" for every
 * activity whose `type` names that period. Each job is one transaction.
 */
module Provisioning {
  import opened Ledger

  /** The record a job creates for activity a: no progress yet, the activity's goal, open. */
  function EntryFor(s: Store, a: Id): (r: Entry)
    requires a in s.activities
    ensures r.activity == a && r.progress == 0 && !r.closed
    ensures r.goal == s.activities[a].goal
  {
    Entry(a, 0, s.activities[a].goal, false)
  }

  /** Whether activity a passes the job's query filter: none, or `type = '<name>'`. */
  predicate Matches(s: Store, a: Id, filter: Option<Period>)
    requires a in s.activities
  {
    filter.None? || s.activities[a].typ == PeriodName(filter.value)
  }

  function MatchingSet(s: Store, filter: Option<Period>): set<Id>
  {
    set a | a in s.activities && Matches(s, a, filter)
  }

  /** The result of the job's activity query, in ascending id order. */
  function Selected(s: Store, filter: Option<Period>): (r: seq<Id>)
    ensures forall i :: 0 <= i < |r| ==> r[i] in s.activities && Matches(s, r[i], filter)
    ensures forall a :: a in s.activities && a < s.nextId && Matches(s, a, filter) ==> a in r
    ensures forall i, j :: 0 <= i < j < |r| ==> r[i] < r[j]
  {
    Ascending(MatchingSet(s, filter), s.nextId)
  }

  /** The transaction body: insert one open entry per activity of acts, stopping at the first refused save. */
  function Provision(s: Store, p: Period, acts: seq<Id>, rejects: set<Ref>): Result<Store>
    requires forall i :: 0 <= i < |acts| ==> acts[i] in s.activities
    decreases |acts|
  {
    if acts == [] then Ok(s)
    else
      match InsertEntry(s, p, EntryFor(s, acts[0]), rejects)
      case Err(err) => Err(err)
      case Ok(s1) => Provision(s1, p, acts[1..], rejects)
  }

  /** Provisioning commits exactly when none of the new records' ids is refused. */
  lemma {:induction false} ProvisionCommits(s: Store, p: Period, acts: seq<Id>, rejects: set<Ref>)
    requires forall i :: 0 <= i < |acts| ==> acts[i] in s.activities
    ensures Provision(s, p, acts, rejects).Ok? <==>
      forall k :: s.nextId <= k < s.nextId + |acts| ==> EntryRef(p, k) !in rejects
    decreases |acts|
  {
    if acts != [] && EntryRef(p, s.nextId) !in rejects {
      var s1 := InsertEntry(s, p, EntryFor(s, acts[0]), rejects).value;
      ProvisionCommits(s1, p, acts[1..], rejects);
    }
  }

  /** Provisioning takes the next |acts| ids and changes no user, activity, reward or other table. */
  lemma {:induction false} ProvisionFrame(s: Store, p: Period, acts: seq<Id>, rejects: set<Ref>)
    requires forall i :: 0 <= i < |acts| ==> acts[i] in s.activities
    requires Provision(s, p, acts, rejects).Ok?
    ensures var s2 := Provision(s, p, acts, rejects).value;
      && s2.nextId == s.nextId + |acts|
      && s2.users == s.users && s2.activities == s.activities && s2.rewards == s.rewards
      && forall q :: q != p ==> s2.Table(q) == s.Table(q)
    decreases |acts|
  {
    if acts != [] {
      var s1 := InsertEntry(s, p, EntryFor(s, acts[0]), rejects).value;
      ProvisionFrame(s1, p, acts[1..], rejects);
    }
  }

  /**
   * Provisioning adds to table p the records with ids nextId .. nextId + |acts| - 1
   * and keeps every record the table already had.
   */
  lemma {:induction false} ProvisionTable(s: Store, p: Period, acts: seq<Id>, rejects: set<Ref>)
    requires KeysBelow(s.Table(p), s.nextId)
    requires forall i :: 0 <= i < |acts| ==> acts[i] in s.activities
    requires Provision(s, p, acts, rejects).Ok?
    ensures var t2 := Provision(s, p, acts, rejects).value.Table(p);
      && (forall id :: id in t2 <==> id in s.Table(p) || s.nextId <= id < s.nextId + |acts|)
      && (forall id :: id in s.Table(p) ==> t2[id] == s.Table(p)[id])
    decreases |acts|
  {
    if acts != [] {
      var s1 := InsertEntry(s, p, EntryFor(s, acts[0]), rejects).value;
      ProvisionTable(s1, p, acts[1..], rejects);
    }
  }

  /** The record provisioning stores under id nextId + i is the fresh entry of the i-th activity of acts. */
  lemma {:induction false} ProvisionNew(s: Store, p: Period, acts: seq<Id>, rejects: set<Ref>)
    requires KeysBelow(s.Table(p), s.nextId)
    requires forall i :: 0 <= i < |acts| ==> acts[i] in s.activities
    requires Provision(s, p, acts, rejects).Ok?
    ensures var t2 := Provision(s, p, acts, rejects).value.Table(p);
      forall i :: 0 <= i < |acts| ==> s.nextId + i in t2 && t2[s.nextId + i] == EntryFor(s, acts[i])
    decreases |acts|
  {
    if acts != [] {
      var n := s.nextId;
      var rest := acts[1..];
      var s1 := InsertEntry(s, p, EntryFor(s, acts[0]), rejects).value;
      ProvisionTable(s1, p, rest, rejects);
      ProvisionNew(s1, p, rest, rejects);
      var t2 := Provision(s, p, acts, rejects).value.Table(p);
      forall i | 0 <= i < |acts| ensures n + i in t2 && t2[n + i] == EntryFor(s, acts[i]) {
        if i > 0 {
          assert rest[i - 1] == acts[i];
          assert n + i == s1.nextId + (i - 1);
        } else {
          assert n in s1.Table(p);
        }
      }
    }
  }

  /** Each provisioned activity gains one open entry per occurrence in acts; every other activity keeps its count. */
  lemma {:induction false} ProvisionOpenCount(s: Store, p: Period, acts: seq<Id>, rejects: set<Ref>, b: Id)
    requires KeysBelow(s.Table(p), s.nextId)
    requires forall i :: 0 <= i < |acts| ==> acts[i] in s.activities
    requires Provision(s, p, acts, rejects).Ok?
    ensures OpenCount(Provision(s, p, acts, rejects).value.Table(p), b) ==
      OpenCount(s.Table(p), b) + multiset(acts)[b]
    decreases |acts|
  {
    if acts != [] {
      var e := EntryFor(s, acts[0]);
      var s1 := InsertEntry(s, p, e, rejects).value;
      InsertOpenCount(s.Table(p), s.nextId, e, b);
      ProvisionOpenCount(s1, p, acts[1..], rejects, b);
      assert acts == [acts[0]] + acts[1..];
    }
  }

  /** A committed provisioning keeps the store valid. */
  lemma ProvisionValid(s: Store, p: Period, acts: seq<Id>, rejects: set<Ref>)
    requires s.Valid()
    requires forall i :: 0 <= i < |acts| ==> acts[i] in s.activities
    requires Provision(s, p, acts, rejects).Ok?
    ensures Provision(s, p, acts, rejects).value.Valid()
  {
    TableBelow(s, p);
    ProvisionFrame(s, p, acts, rejects);
    ProvisionTable(s, p, acts, rejects);
    var s2 := Provision(s, p, acts, rejects).value;
    forall q ensures KeysBelow(s2.Table(q), s2.nextId) {
      TableBelow(s, q);
    }
    assert KeysBelow(s2.daily, s2.nextId) by { assert s2.daily == s2.Table(Daily); }
    assert KeysBelow(s2.weekly, s2.nextId) by { assert s2.weekly == s2.Table(Weekly); }
    assert KeysBelow(s2.monthly, s2.nextId) by { assert s2.monthly == s2.Table(Monthly); }
    assert KeysBelow(s2.yearly, s2.nextId) by { assert s2.yearly == s2.Table(Yearly); }
  }

  /** The transaction body of every provisioning job, as the loop over the query result. */
  method ProvisionEntries(tx: Store, p: Period, filter: Option<Period>, rejects: set<Ref>)
    returns (r: Result<Store>)
    ensures r == Provision(tx, p, Selected(tx, filter), rejects)
  {
    var activities := Selected(tx, filter);
    var cur := tx;
    var i := 0;
    while i < |activities|
      invariant 0 <= i <= |activities|
      invariant cur.activities == tx.activities
      invariant Provision(tx, p, activities, rejects) == Provision(cur, p, activities[i..], rejects)
    {
      assert activities[i..][0] == activities[i] && activities[i..][1..] == activities[i + 1..];
      var activity := cur.activities[activities[i]];
      var record := Entry(activities[i], 0, activity.goal, false);
      var saved := InsertEntry(cur, p, record, rejects);
      if saved.Err? {
        return saved;
      }
      cur := saved.value;
      i := i + 1;
    }
    return Ok(cur);
  }

  /** `createNewDailyEntriesCron`: a daily entry for every activity, whatever its type. */
  method CreateNewDailyEntriesCron(s: Store, rejects: set<Ref>) returns (s2: Store)
    ensures s2 == Commit(s, Provision(s, Daily, Selected(s, None), rejects))
  {
    var body := ProvisionEntries(s, Daily, None, rejects);
    s2 := Commit(s, body);
  }

  /** `createNew<Period>EntriesCron` (the daily one in its V2 form): an entry in table p for every activity of type p. */
  method CreateNewEntriesCron(s: Store, p: Period, rejects: set<Ref>) returns (s2: Store)
    ensures s2 == Commit(s, Provision(s, p, Selected(s, Some(p)), rejects))
  {
    var body := ProvisionEntries(s, p, Some(p), rejects);
    s2 := Commit(s, body);
  }

  /** A committed provisioning job adds one open entry to table p for each activity its query selects and none for any other. */
  lemma ProvisionJobCounts(s: Store, p: Period, filter: Option<Period>, rejects: set<Ref>)
    requires s.Valid()
    requires Provision(s, p, Selected(s, filter), rejects).Ok?
    ensures var s2 := Provision(s, p, Selected(s, filter), rejects).value;
      forall b :: OpenCount(s2.Table(p), b) ==
        OpenCount(s.Table(p), b) + (if b in s.activities && Matches(s, b, filter) then 1 else 0)
  {
    var acts := Selected(s, filter);
    TableBelow(s, p);
    forall b ensures OpenCount(Provision(s, p, acts, rejects).value.Table(p), b) ==
      OpenCount(s.Table(p), b) + (if b in s.activities && Matches(s, b, filter) then 1 else 0)
    {
      SelectedOnce(s, filter, b);
      ProvisionOpenCount(s, p, acts, rejects, b);
    }
  }

  /**
   * A provisioning job commits exactly when none of the ids it hands out is
   * refused, and leaves the store as it was otherwise. The store stays valid
   * either way.
   */
  lemma ProvisionJobCommits(s: Store, p: Period, filter: Option<Period>, rejects: set<Ref>)
    requires s.Valid()
    ensures var acts := Selected(s, filter); var body := Provision(s, p, acts, rejects);
      var s2 := Commit(s, body);
      && (body.Ok? <==> forall k :: s.nextId <= k < s.nextId + |acts| ==> EntryRef(p, k) !in rejects)
      && (body.Err? ==> s2 == s)
      && s2.Valid()
  {
    var acts := Selected(s, filter);
    ProvisionCommits(s, p, acts, rejects);
    if Provision(s, p, acts, rejects).Ok? {
      ProvisionValid(s, p, acts, rejects);
    }
  }

  /**
   * After a committed `createNew<Period>EntriesCron` every activity of that
   * period has exactly one more open entry in its table, and every other
   * activity exactly as many as before; a refused save leaves the store as it
   * was. The store stays valid either way.
   */
  lemma CreateNewEntriesEffect(s: Store, p: Period, rejects: set<Ref>)
    requires s.Valid()
    ensures var acts := Selected(s, Some(p)); var body := Provision(s, p, acts, rejects);
      var s2 := Commit(s, body);
      && (body.Ok? <==> forall k :: s.nextId <= k < s.nextId + |acts| ==> EntryRef(p, k) !in rejects)
      && (body.Err? ==> s2 == s)
      && (body.Ok? ==> forall b ::
            OpenCount(s2.Table(p), b) ==
              OpenCount(s.Table(p), b) + (if b in s.activities && s.activities[b].typ == PeriodName(p) then 1 else 0))
      && s2.Valid()
  {
    ProvisionJobCommits(s, p, Some(p), rejects);
    if Provision(s, p, Selected(s, Some(p)), rejects).Ok? {
      ProvisionJobCounts(s, p, Some(p), rejects);
    }
  }

  /** The daily job of the first schema: one more open daily entry for every activity, whatever its type. */
  lemma CreateNewDailyEntriesEffect(s: Store, rejects: set<Ref>)
    requires s.Valid()
    ensures var acts := Selected(s, None); var body := Provision(s, Daily, acts, rejects);
      var s2 := Commit(s, body);
      && (body.Ok? <==> forall k :: s.nextId <= k < s.nextId + |acts| ==> EntryRef(Daily, k) !in rejects)
      && (body.Err? ==> s2 == s)
      && (body.Ok? ==> forall b ::
            OpenCount(s2.daily, b) == OpenCount(s.daily, b) + (if b in s.activities then 1 else 0))
      && s2.Valid()
  {
    ProvisionJobCommits(s, Daily, None, rejects);
    if Provision(s, Daily, Selected(s, None), rejects).Ok? {
      ProvisionJobCounts(s, Daily, None, rejects);
    }
  }

  /** A strictly increasing sequence holds each of its elements once. */
  lemma {:induction false} IncreasingOnce(r: seq<Id>, b: Id)
    requires forall i, j :: 0 <= i < j < |r| ==> r[i] < r[j]
    ensures multiset(r)[b] == if b in r then 1 else 0
    decreases |r|
  {
    if r != [] {
      assert r == [r[0]] + r[1..];
      IncreasingOnce(r[1..], b);
      if b in r[1..] {
        var k :| 0 <= k < |r[1..]| && r[1..][k] == b;
        assert r[k + 1] == b;
      }
    }
  }

  /** In a valid store the query returns each matching activity exactly once and nothing else. */
  lemma SelectedOnce(s: Store, filter: Option<Period>, b: Id)
    requires s.Valid()
    ensures multiset(Selected(s, filter))[b] ==
      if b in s.activities && Matches(s, b, filter) then 1 else 0
  {
    var r := Selected(s, filter);
    IncreasingOnce(r, b);
    if b in r {
      var k :| 0 <= k < |r| && r[k] == b;
    }
  }
}
