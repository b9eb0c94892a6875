/**
 * The rollover jobs. `calculatePointsCron` closes every open daily entry in
 * one transaction and credits the activity's points to its owner when the
 * entry met its goal; `calculatePointsV2Cron` does the same for the daily,
 * weekly, monthly and yearly tables, one transaction per table, ignoring
 * each transaction's result.
 */
module Rollover {
  import opened Ledger

  /** An entry has met its goal when its progress reached it. */
  predicate Met(e: Entry)
  {
    e.progress >= e.goal
  }

  predicate Distinct(ids: seq<Id>)
  {
    forall i, j :: 0 <= i < j < |ids| ==> ids[i] != ids[j]
  }

  /** Looks up the activity and then its user, and saves the user with the activity's points added. */
  function CreditOwner(s: Store, activityId: Id, rejects: set<Ref>): Result<Store>
  {
    if activityId !in s.activities then Err(NotFound)
    else
      var a := s.activities[activityId];
      if a.user !in s.users then Err(NotFound)
      else SaveUser(s, a.user, s.users[a.user].(points := s.users[a.user].points + a.points), rejects)
  }

  /** One iteration of the sweep: close entry id and save it, then credit the owner if the goal was met. */
  function CloseEntry(s: Store, p: Period, id: Id, rejects: set<Ref>): Result<Store>
  {
    if id !in s.Table(p) then Err(NotFound)
    else
      var e := s.Table(p)[id];
      match SaveEntry(s, p, id, e.(closed := true), rejects)
      case Err(err) => Err(err)
      case Ok(s1) => if e.progress < e.goal then Ok(s1) else CreditOwner(s1, e.activity, rejects)
  }

  /** The transaction body over the entries ids, stopping at the first error. */
  function Sweep(s: Store, p: Period, ids: seq<Id>, rejects: set<Ref>): Result<Store>
    decreases |ids|
  {
    if ids == [] then Ok(s)
    else
      match CloseEntry(s, p, ids[0], rejects)
      case Err(err) => Err(err)
      case Ok(s1) => Sweep(s1, p, ids[1..], rejects)
  }

  /** The transaction body run on the open entries of table p. */
  function SweepOf(s: Store, p: Period, rejects: set<Ref>): Result<Store>
  {
    Sweep(s, p, OpenIds(s.Table(p), s.nextId), rejects)
  }

  /** The store after one rollover transaction on table p. */
  function Rollover(s: Store, p: Period, rejects: set<Ref>): Store
  {
    Commit(s, SweepOf(s, p, rejects))
  }

  /** Closing entry id can go through: its save is accepted and, if it met its goal, its activity and user exist and the user's save is accepted. */
  predicate CanClose(s: Store, p: Period, id: Id, rejects: set<Ref>)
  {
    && id in s.Table(p)
    && EntryRef(p, id) !in rejects
    && (Met(s.Table(p)[id]) ==>
          var aid := s.Table(p)[id].activity;
          && aid in s.activities
          && s.activities[aid].user in s.users
          && UserRef(s.activities[aid].user) !in rejects)
  }

  /** What closing entry id earns user u: its activity's points if it met its goal and u owns the activity. */
  function Earned(s: Store, p: Period, id: Id, u: Id): int
  {
    if id in s.Table(p) && Met(s.Table(p)[id]) && s.Table(p)[id].activity in s.activities
       && s.activities[s.Table(p)[id].activity].user == u
    then s.activities[s.Table(p)[id].activity].points
    else 0
  }

  function Credit(s: Store, p: Period, ids: seq<Id>, u: Id): int
    decreases |ids|
  {
    if ids == [] then 0 else Earned(s, p, ids[0], u) + Credit(s, p, ids[1..], u)
  }

  function CloseAll(t: Table, ids: seq<Id>): Table
  {
    map id | id in t :: if id in ids then t[id].(closed := true) else t[id]
  }

  /** s2 is s after closing the entries ids of table p, with no other table, activity or reward changed. */
  ghost predicate Swept(s: Store, s2: Store, p: Period, ids: seq<Id>)
  {
    && s2.Table(p) == CloseAll(s.Table(p), ids)
    && (forall q :: q != p ==> s2.Table(q) == s.Table(q))
    && s2.activities == s.activities && s2.rewards == s.rewards && s2.nextId == s.nextId
  }

  /** One loop pass succeeds exactly when the entry can be closed. */
  lemma CloseEntryCommits(s: Store, p: Period, id: Id, rejects: set<Ref>)
    ensures CloseEntry(s, p, id, rejects).Ok? <==> CanClose(s, p, id, rejects)
  {
    if id in s.Table(p) && EntryRef(p, id) !in rejects {
      var e := s.Table(p)[id];
      var s1 := s.WithTable(p, s.Table(p)[id := e.(closed := true)]);
      assert CloseEntry(s, p, id, rejects) ==
        if e.progress < e.goal then Ok(s1) else CreditOwner(s1, e.activity, rejects);
    }
  }

  /** A successful pass closes the entry and adds the activity's points to its owner only when the goal was met. */
  lemma CloseEntryEffect(s: Store, p: Period, id: Id, rejects: set<Ref>)
    requires CloseEntry(s, p, id, rejects).Ok?
    ensures id in s.Table(p)
    ensures var s1 := CloseEntry(s, p, id, rejects).value;
      && s1.Table(p) == s.Table(p)[id := s.Table(p)[id].(closed := true)]
      && (forall q :: q != p ==> s1.Table(q) == s.Table(q))
      && s1.activities == s.activities && s1.rewards == s.rewards && s1.nextId == s.nextId
      && s1.users.Keys == s.users.Keys
      && forall u :: u in s.users ==> s1.users[u].points == s.users[u].points + Earned(s, p, id, u)
  {
    var e := s.Table(p)[id];
    var s1 := s.WithTable(p, s.Table(p)[id := e.(closed := true)]);
    assert CloseEntry(s, p, id, rejects) ==
      if e.progress < e.goal then Ok(s1) else CreditOwner(s1, e.activity, rejects);
    if !Met(e) {
      assert forall u :: Earned(s, p, id, u) == 0;
    } else {
      var a := s.activities[e.activity];
      forall u | u in s.users
        ensures Earned(s, p, id, u) == if a.user == u then a.points else 0
      {
      }
    }
  }

  /** Credit reads only the entries ids of table p and the activities. */
  lemma {:induction false} CreditFrame(s: Store, s2: Store, p: Period, ids: seq<Id>, u: Id)
    requires s2.activities == s.activities
    requires forall i :: 0 <= i < |ids| ==>
      (ids[i] in s.Table(p) <==> ids[i] in s2.Table(p)) &&
      (ids[i] in s.Table(p) ==> s2.Table(p)[ids[i]] == s.Table(p)[ids[i]])
    ensures Credit(s2, p, ids, u) == Credit(s, p, ids, u)
    decreases |ids|
  {
    if ids != [] {
      assert ids[1..][0..] == ids[1..];
      CreditFrame(s, s2, p, ids[1..], u);
    }
  }

  /** The sweep over distinct entries succeeds exactly when every one of them can be closed. */
  lemma {:induction false} SweepCommits(s: Store, p: Period, ids: seq<Id>, rejects: set<Ref>)
    requires Distinct(ids)
    ensures Sweep(s, p, ids, rejects).Ok? <==>
      forall i :: 0 <= i < |ids| ==> CanClose(s, p, ids[i], rejects)
    decreases |ids|
  {
    if ids != [] {
      var id := ids[0];
      var rest := ids[1..];
      CloseEntryCommits(s, p, id, rejects);
      var r1 := CloseEntry(s, p, id, rejects);
      if r1.Ok? {
        CloseEntryEffect(s, p, id, rejects);
        var s1 := r1.value;
        assert Distinct(rest);
        SweepCommits(s1, p, rest, rejects);
        forall i | 0 <= i < |rest|
          ensures CanClose(s1, p, rest[i], rejects) == CanClose(s, p, rest[i], rejects)
        {
          assert rest[i] == ids[i + 1];
        }
        forall i | 0 <= i < |ids| && i > 0
          ensures ids[i] == rest[i - 1]
        {
        }
      }
    }
  }

  /** A successful sweep over distinct entries closes them all. */
  lemma {:induction false} SweepCloses(s: Store, p: Period, ids: seq<Id>, rejects: set<Ref>)
    requires Distinct(ids)
    requires Sweep(s, p, ids, rejects).Ok?
    ensures Swept(s, Sweep(s, p, ids, rejects).value, p, ids)
    decreases |ids|
  {
    if ids == [] {
      assert CloseAll(s.Table(p), ids) == s.Table(p);
    } else {
      var id := ids[0];
      var rest := ids[1..];
      CloseEntryEffect(s, p, id, rejects);
      var s1 := CloseEntry(s, p, id, rejects).value;
      assert Distinct(rest);
      SweepCloses(s1, p, rest, rejects);
      assert CloseAll(s1.Table(p), rest) == CloseAll(s.Table(p), ids);
    }
  }

  /** A successful sweep over distinct entries credits each user the points its met entries earn it. */
  lemma {:induction false} SweepCredits(s: Store, p: Period, ids: seq<Id>, rejects: set<Ref>)
    requires Distinct(ids)
    requires Sweep(s, p, ids, rejects).Ok?
    ensures var s2 := Sweep(s, p, ids, rejects).value;
      && s2.users.Keys == s.users.Keys
      && forall u :: u in s.users ==> s2.users[u].points == s.users[u].points + Credit(s, p, ids, u)
    decreases |ids|
  {
    if ids != [] {
      var id := ids[0];
      var rest := ids[1..];
      CloseEntryEffect(s, p, id, rejects);
      var s1 := CloseEntry(s, p, id, rejects).value;
      assert Distinct(rest);
      SweepCredits(s1, p, rest, rejects);
      forall i | 0 <= i < |rest|
        ensures rest[i] in s.Table(p) <==> rest[i] in s1.Table(p)
        ensures rest[i] in s.Table(p) ==> s1.Table(p)[rest[i]] == s.Table(p)[rest[i]]
      {
        assert rest[i] == ids[i + 1];
      }
      var s2 := Sweep(s, p, ids, rejects).value;
      forall u | u in s.users
        ensures s2.users[u].points == s.users[u].points + Credit(s, p, ids, u)
      {
        CreditFrame(s, s1, p, rest, u);
      }
    }
  }

  /** The query result holds each open entry of a valid table exactly once. */
  lemma OpenIdsFacts(s: Store, p: Period)
    requires s.Valid()
    ensures Distinct(OpenIds(s.Table(p), s.nextId))
    ensures forall id :: id in OpenIds(s.Table(p), s.nextId) <==> id in OpenSet(s.Table(p))
  {
    TableBelow(s, p);
  }

  /** A rollover transaction commits exactly when every open entry of the table can be closed. */
  lemma RolloverCommits(s: Store, p: Period, rejects: set<Ref>)
    requires s.Valid()
    ensures SweepOf(s, p, rejects).Ok? <==>
      forall id :: id in OpenSet(s.Table(p)) ==> CanClose(s, p, id, rejects)
  {
    var ids := OpenIds(s.Table(p), s.nextId);
    OpenIdsFacts(s, p);
    SweepCommits(s, p, ids, rejects);
    if forall i :: 0 <= i < |ids| ==> CanClose(s, p, ids[i], rejects) {
      forall id | id in OpenSet(s.Table(p)) ensures CanClose(s, p, id, rejects) {
        var k :| 0 <= k < |ids| && ids[k] == id;
      }
    }
  }

  /** A committed rollover closes every entry of the table, changes nothing else in it and credits each user the points of its met entries. */
  lemma RolloverCloses(s: Store, p: Period, rejects: set<Ref>)
    requires s.Valid()
    requires SweepOf(s, p, rejects).Ok?
    ensures var t := s.Table(p); var s2 := Rollover(s, p, rejects);
      && s2.Table(p).Keys == t.Keys
      && (forall id :: id in t ==> s2.Table(p)[id] == t[id].(closed := true))
      && (forall q :: q != p ==> s2.Table(q) == s.Table(q))
      && s2.activities == s.activities && s2.rewards == s.rewards && s2.nextId == s.nextId
      && s2.users.Keys == s.users.Keys
      && forall u :: u in s.users ==>
           s2.users[u].points == s.users[u].points + Credit(s, p, OpenIds(t, s.nextId), u)
  {
    var t := s.Table(p);
    var ids := OpenIds(t, s.nextId);
    OpenIdsFacts(s, p);
    SweepCloses(s, p, ids, rejects);
    SweepCredits(s, p, ids, rejects);
    var s2 := Rollover(s, p, rejects);
    assert s2.Table(p) == CloseAll(t, ids);
    forall id | id in t ensures s2.Table(p)[id] == t[id].(closed := true) {
      if id !in ids {
        assert id !in OpenSet(t);
      }
    }
  }

  /** A rollover keeps the store valid. */
  lemma RolloverValid(s: Store, p: Period, rejects: set<Ref>)
    requires s.Valid()
    ensures Rollover(s, p, rejects).Valid()
  {
    if SweepOf(s, p, rejects).Ok? {
      var s2 := Rollover(s, p, rejects);
      RolloverCloses(s, p, rejects);
      forall q ensures s2.Table(q).Keys == s.Table(q).Keys {
      }
      SameKeysValid(s, s2);
    }
  }

  /**
   * One rollover transaction on table p: it commits exactly when every open
   * entry can be closed. Then every entry of the table is closed, the open ones
   * change in nothing else, the closed ones not at all, and each user gains the
   * points of the met entries of the activities it owns; otherwise the store is
   * the snapshot. No other table, activity or reward changes.
   */
  lemma RolloverEffect(s: Store, p: Period, rejects: set<Ref>)
    requires s.Valid()
    ensures var t := s.Table(p); var s2 := Rollover(s, p, rejects);
      && (SweepOf(s, p, rejects).Ok? <==> forall id :: id in OpenSet(t) ==> CanClose(s, p, id, rejects))
      && (SweepOf(s, p, rejects).Err? ==> s2 == s)
      && (SweepOf(s, p, rejects).Ok? ==>
            && s2.Table(p).Keys == t.Keys
            && (forall id :: id in t ==> s2.Table(p)[id] == t[id].(closed := true))
            && (forall q :: q != p ==> s2.Table(q) == s.Table(q))
            && s2.activities == s.activities && s2.rewards == s.rewards && s2.nextId == s.nextId
            && s2.users.Keys == s.users.Keys
            && forall u :: u in s.users ==>
                 s2.users[u].points == s.users[u].points + Credit(s, p, OpenIds(t, s.nextId), u))
      && s2.Valid()
  {
    RolloverCommits(s, p, rejects);
    RolloverValid(s, p, rejects);
    if SweepOf(s, p, rejects).Ok? {
      RolloverCloses(s, p, rejects);
    }
  }

  /** A second rollover of the same table right after the first changes nothing: closed entries are never selected again. */
  lemma RolloverIdempotent(s: Store, p: Period, rejects: set<Ref>)
    requires s.Valid()
    ensures Rollover(Rollover(s, p, rejects), p, rejects) == Rollover(s, p, rejects)
  {
    if SweepOf(s, p, rejects).Ok? {
      RolloverCloses(s, p, rejects);
      RolloverValid(s, p, rejects);
      var s2 := Rollover(s, p, rejects);
      assert OpenSet(s2.Table(p)) == {};
    }
  }

  /** With no activity worth negative points, rollover credits are never negative. */
  lemma {:induction false} CreditNonNegative(s: Store, p: Period, ids: seq<Id>, u: Id)
    requires forall a :: a in s.activities ==> s.activities[a].points >= 0
    ensures Credit(s, p, ids, u) >= 0
    decreases |ids|
  {
    if ids != [] {
      CreditNonNegative(s, p, ids[1..], u);
    }
  }

  /** Rollover never lowers a balance while every activity's points are non-negative; it adds, never subtracts. */
  lemma RolloverNeverDebits(s: Store, p: Period, rejects: set<Ref>)
    requires s.Valid()
    requires forall a :: a in s.activities ==> s.activities[a].points >= 0
    ensures forall u :: u in s.users ==>
      u in Rollover(s, p, rejects).users && Rollover(s, p, rejects).users[u].points >= s.users[u].points
  {
    RolloverEffect(s, p, rejects);
    forall u | u in s.users {
      CreditNonNegative(s, p, OpenIds(s.Table(p), s.nextId), u);
    }
  }

  /** One pass of the loop body: close and save the entry, then credit the owner if the goal was met. */
  method CloseOne(cur: Store, p: Period, id: Id, rejects: set<Ref>) returns (r: Result<Store>)
    ensures r == CloseEntry(cur, p, id, rejects)
  {
    if id !in cur.Table(p) {
      return Err(NotFound);
    }
    var entry := cur.Table(p)[id];
    var saved := SaveEntry(cur, p, id, entry.(closed := true), rejects);
    if saved.Err? {
      return saved;
    }
    if entry.progress < entry.goal {
      return saved;
    }
    var tx := saved.value;
    if entry.activity !in tx.activities {
      return Err(NotFound);
    }
    var activity := tx.activities[entry.activity];
    if activity.user !in tx.users {
      return Err(NotFound);
    }
    var user := tx.users[activity.user];
    r := SaveUser(tx, activity.user, user.(points := user.points + activity.points), rejects);
  }

  /** The transaction body of both rollover jobs, as the loop over the query result. */
  method SweepTable(tx: Store, p: Period, rejects: set<Ref>) returns (r: Result<Store>)
    ensures r == SweepOf(tx, p, rejects)
  {
    var entries := OpenIds(tx.Table(p), tx.nextId);
    var cur := tx;
    var i := 0;
    while i < |entries|
      invariant 0 <= i <= |entries|
      invariant SweepOf(tx, p, rejects) == Sweep(cur, p, entries[i..], rejects)
    {
      assert entries[i..][0] == entries[i] && entries[i..][1..] == entries[i + 1..];
      var step := CloseOne(cur, p, entries[i], rejects);
      if step.Err? {
        return step;
      }
      cur := step.value;
      i := i + 1;
    }
    return Ok(cur);
  }

  /** `calculatePointsCron`: one transaction over the daily table; its result is dropped. */
  method CalculatePointsCron(s: Store, rejects: set<Ref>) returns (s2: Store)
    ensures s2 == Rollover(s, Daily, rejects)
  {
    var body := SweepTable(s, Daily, rejects);
    s2 := Commit(s, body);
  }

  /** The store after one rollover transaction per table of ps, in order, each committed or dropped on its own. */
  function RolloverAll(s: Store, ps: seq<Period>, rejects: set<Ref>): Store
    decreases |ps|
  {
    if ps == [] then s
    else Rollover(RolloverAll(s, ps[..|ps| - 1], rejects), ps[|ps| - 1], rejects)
  }

  /** Every table's rollover keeps the store valid, so the four-table job does too. */
  lemma {:induction false} RolloverAllValid(s: Store, ps: seq<Period>, rejects: set<Ref>)
    requires s.Valid()
    ensures RolloverAll(s, ps, rejects).Valid()
    decreases |ps|
  {
    if ps != [] {
      RolloverAllValid(s, ps[..|ps| - 1], rejects);
      RolloverValid(RolloverAll(s, ps[..|ps| - 1], rejects), ps[|ps| - 1], rejects);
    }
  }

  /** `calculatePointsV2Cron`: daily, weekly, monthly, yearly, one transaction each, results ignored. */
  method CalculatePointsV2Cron(s: Store, rejects: set<Ref>) returns (s2: Store)
    ensures s2 == RolloverAll(s, Periods, rejects)
  {
    var tables := Periods;
    s2 := s;
    for i := 0 to |tables|
      invariant s2 == RolloverAll(s, tables[..i], rejects)
    {
      var body := SweepTable(s2, tables[i], rejects);
      assert Commit(s2, body) == Rollover(s2, tables[i], rejects);
      assert tables[..i + 1][..i] == tables[..i] && tables[..i + 1][i] == tables[i];
      s2 := Commit(s2, body);
    }
    assert tables[..|tables|] == tables;
  }

  /** The points user u gains from the tables of ps whose own transaction commits. */
  function CommittedCredit(s: Store, ps: seq<Period>, rejects: set<Ref>, u: Id): int
    decreases |ps|
  {
    if ps == [] then 0
    else
      var p := ps[|ps| - 1];
      CommittedCredit(s, ps[..|ps| - 1], rejects, u) +
      (if SweepOf(s, p, rejects).Ok? then Credit(s, p, OpenIds(s.Table(p), s.nextId), u) else 0)
  }

  /** Rollover of table p depends only on that table, the activities, which users exist and the id bound. */
  lemma RolloverLocal(s: Store, s0: Store, p: Period, rejects: set<Ref>)
    requires s.Valid() && s0.Valid()
    requires s0.Table(p) == s.Table(p) && s0.activities == s.activities
    requires s0.users.Keys == s.users.Keys && s0.nextId == s.nextId
    ensures SweepOf(s0, p, rejects).Ok? == SweepOf(s, p, rejects).Ok?
    ensures Rollover(s0, p, rejects).Table(p) == Rollover(s, p, rejects).Table(p)
    ensures forall u :: Credit(s0, p, OpenIds(s.Table(p), s.nextId), u) == Credit(s, p, OpenIds(s.Table(p), s.nextId), u)
  {
    RolloverLocalCommits(s, s0, p, rejects);
    if SweepOf(s, p, rejects).Ok? {
      RolloverCloses(s, p, rejects);
      RolloverCloses(s0, p, rejects);
      var a := Rollover(s0, p, rejects).Table(p);
      var b := Rollover(s, p, rejects).Table(p);
      assert a.Keys == b.Keys;
      assert forall id :: id in a ==> a[id] == b[id];
    }
    forall u {
      CreditFrame(s, s0, p, OpenIds(s.Table(p), s.nextId), u);
    }
  }

  /** Whether table p's transaction commits does not depend on the rest of the store. */
  lemma RolloverLocalCommits(s: Store, s0: Store, p: Period, rejects: set<Ref>)
    requires s.Valid() && s0.Valid()
    requires s0.Table(p) == s.Table(p) && s0.activities == s.activities
    requires s0.users.Keys == s.users.Keys
    ensures SweepOf(s0, p, rejects).Ok? == SweepOf(s, p, rejects).Ok?
  {
    RolloverCommits(s, p, rejects);
    RolloverCommits(s0, p, rejects);
    forall id ensures CanClose(s0, p, id, rejects) == CanClose(s, p, id, rejects) {
    }
  }

  /**
   * The four-table rollover, for any list of distinct tables: each table ends
   * as if it had been rolled over alone, whatever happened to the tables before
   * it (a failure rolls back that table only), and each user gains the credits
   * of exactly the tables whose transaction committed.
   */
  lemma {:induction false} RolloverAllEffect(s: Store, ps: seq<Period>, rejects: set<Ref>)
    requires s.Valid()
    requires forall i, j :: 0 <= i < j < |ps| ==> ps[i] != ps[j]
    ensures var s2 := RolloverAll(s, ps, rejects);
      && (forall p :: s2.Table(p) == if p in ps then Rollover(s, p, rejects).Table(p) else s.Table(p))
      && s2.activities == s.activities && s2.rewards == s.rewards && s2.nextId == s.nextId
      && s2.users.Keys == s.users.Keys && s2.Valid()
      && forall u :: u in s.users ==>
           s2.users[u].points == s.users[u].points + CommittedCredit(s, ps, rejects, u)
    decreases |ps|
  {
    if ps != [] {
      var init := ps[..|ps| - 1];
      var last := ps[|ps| - 1];
      RolloverAllEffect(s, init, rejects);
      var s0 := RolloverAll(s, init, rejects);
      assert last !in init by {
        forall i | 0 <= i < |init| ensures init[i] != last {
          assert init[i] == ps[i];
        }
      }
      RolloverLocal(s, s0, last, rejects);
      RolloverEffect(s0, last, rejects);
      RolloverEffect(s, last, rejects);
      forall p ensures p in ps <==> p in init || p == last {
        if p in ps {
          var k :| 0 <= k < |ps| && ps[k] == p;
          if k < |ps| - 1 { assert init[k] == p; }
        }
      }
    }
  }

  /** `calculatePointsV2Cron` sweeps all four tables, each committed or rolled back on its own. */
  lemma CalculatePointsV2Effect(s: Store, rejects: set<Ref>)
    requires s.Valid()
    ensures var s2 := RolloverAll(s, Periods, rejects);
      && (forall p :: s2.Table(p) == Rollover(s, p, rejects).Table(p))
      && s2.activities == s.activities && s2.rewards == s.rewards
      && forall u :: u in s.users ==>
           u in s2.users && s2.users[u].points == s.users[u].points + CommittedCredit(s, Periods, rejects, u)
  {
    RolloverAllEffect(s, Periods, rejects);
    forall p ensures p in Periods {
      match p
      case Daily => assert Periods[0] == p;
      case Weekly => assert Periods[1] == p;
      case Monthly => assert Periods[2] == p;
      case Yearly => assert Periods[3] == p;
    }
  }
}
