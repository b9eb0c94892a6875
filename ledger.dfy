/**
 * The record store the ledger engine works on: the `users`, `activities` and
 * `rewards` collections and the four entry tables, together with the store
 * operations the engine calls (find, save, insert, delete) and the
 * all-or-nothing rule of a transaction.
 *
 * The store is a value: an operation that writes returns the new store.
 * Record ids are handed out in increasing order (`nextId`), so a smaller id is
 * an older record, and a query returns its records in ascending id order.
 */
module Ledger {

  type Id = nat

  datatype Option<T> = None | Some(value: T)

  /** The period of an activity, which also names its entry table. */
  datatype Period = Daily | Weekly | Monthly | Yearly

  /** The entry tables in the order the four-table rollover sweeps them. */
  const Periods: seq<Period> := [Daily, Weekly, Monthly, Yearly]

  /** The activity `type` value of a period; its table is "<name>_entries". */
  function PeriodName(p: Period): string
  {
    match p
    case Daily => "daily"
    case Weekly => "weekly"
    case Monthly => "monthly"
    case Yearly => "yearly"
  }

  /** The period an activity `type` value names, if it names one. */
  function PeriodOf(typ: string): (r: Option<Period>)
    ensures r.Some? ==> PeriodName(r.value) == typ
    ensures r.None? ==> forall p :: PeriodName(p) != typ
  {
    if typ == "daily" then Some(Daily)
    else if typ == "weekly" then Some(Weekly)
    else if typ == "monthly" then Some(Monthly)
    else if typ == "yearly" then Some(Yearly)
    else None
  }

  /** Exactly the four type names name a period, and each names its own. */
  lemma PeriodOfNames(typ: string)
    ensures PeriodOf(typ).Some? <==> typ in {"daily", "weekly", "monthly", "yearly"}
    ensures forall p :: PeriodOf(PeriodName(p)) == Some(p)
  {
  }

  datatype User = User(points: int)

  datatype Activity = Activity(name: string, user: Id, points: int, goal: int, typ: string)

  datatype Reward = Reward(
    user: Id, name: string, unitCost: int, redeemed: int, used: int, maxRedeemables: int)

  /** One period's progress record for one activity. */
  datatype Entry = Entry(activity: Id, progress: int, goal: int, closed: bool)

  type Table = map<Id, Entry>

  predicate KeysBelow<V>(m: map<Id, V>, n: nat)
  {
    forall id :: id in m ==> id < n
  }

  datatype Store = Store(
    users: map<Id, User>,
    activities: map<Id, Activity>,
    rewards: map<Id, Reward>,
    daily: Table,
    weekly: Table,
    monthly: Table,
    yearly: Table,
    nextId: Id)
  {
    /** The entry table "<PeriodName(p)>_entries". */
    function Table(p: Period): Table
    {
      match p
      case Daily => daily
      case Weekly => weekly
      case Monthly => monthly
      case Yearly => yearly
    }

    function WithTable(p: Period, t: Table): (r: Store)
      ensures r.Table(p) == t
      ensures forall q :: q != p ==> r.Table(q) == Table(q)
      ensures r.users == users && r.activities == activities && r.rewards == rewards
      ensures r.nextId == nextId
    {
      match p
      case Daily => this.(daily := t)
      case Weekly => this.(weekly := t)
      case Monthly => this.(monthly := t)
      case Yearly => this.(yearly := t)
    }

    /** Every entry id in use was handed out before `nextId`. */
    predicate TablesBelow()
    {
      forall p :: KeysBelow(Table(p), nextId)
    }

    /** Every record id in use was handed out before `nextId`. */
    ghost predicate Valid()
    {
      && KeysBelow(users, nextId)
      && KeysBelow(activities, nextId)
      && KeysBelow(rewards, nextId)
      && TablesBelow()
    }
  }

  lemma TableBelow(s: Store, p: Period)
    requires s.Valid()
    ensures KeysBelow(s.Table(p), s.nextId)
  {
  }

  /** A store with the same ids in every collection and the same id bound as a valid one is valid. */
  lemma SameKeysValid(s: Store, s2: Store)
    requires s.Valid()
    requires s2.nextId == s.nextId && s2.users.Keys == s.users.Keys
    requires s2.activities.Keys == s.activities.Keys && s2.rewards.Keys == s.rewards.Keys
    requires forall q :: s2.Table(q).Keys == s.Table(q).Keys
    ensures s2.Valid()
  {
    assert s2.Table(Daily).Keys == s.Table(Daily).Keys;
    assert s2.Table(Weekly).Keys == s.Table(Weekly).Keys;
    assert s2.Table(Monthly).Keys == s.Table(Monthly).Keys;
    assert s2.Table(Yearly).Keys == s.Table(Yearly).Keys;
  }

  /** The errors the engine's operations return; each stands for one message of the source. */
  datatype Error =
    | NotFound              // a referenced record or collection is missing
    | SaveRejected          // the store refused to save or delete a record
    | UnknownActivityType   // "Not known activity type" / "Unknown activity type"
    | ReopenClosedEntry     // "Is not possible to reopen a closed entry"
    | DeleteClosedEntry     // "Is not possible to delete a closed entry"
    | RedeemedDecreased     // "new value is smaller than the old one"
    | RedeemedOverMax       // "exceded the max redeemables limit"
    | UsedDecreased         // "Cannot use %d rewards"
    | UsedOverRedeemed      // "Already used all redeemed rewards"
    | NotEnoughPoints       // "Not enough points to redeem reward"
    | OwnerChanged          // "Cannot change activity owner"

  datatype Result<T> = Ok(value: T) | Err(error: Error)
  {
    predicate IsFailure() { Err? }

    function PropagateFailure<U>(): Result<U>
      requires Err?
    {
      Err(error)
    }

    function Extract(): T
      requires Ok?
    {
      value
    }
  }

  /** What a hook returns: `Pass` for `e.Next()`, `Fail` for an error that vetoes the write. */
  datatype Outcome = Pass | Fail(error: Error)

  /** A record the store may be asked to write. */
  datatype Ref = EntryRef(period: Period, id: Id) | UserRef(id: Id) | RewardRef(id: Id)

  /**
   * `RunInTransaction`: the body ran against a snapshot of the store; its
   * writes are kept when it returns no error and dropped when it does.
   */
  function Commit(snapshot: Store, body: Result<Store>): Store
  {
    if body.Ok? then body.value else snapshot
  }

  // Store operations. `rejects` holds the records whose write the store
  // refuses (a validation or persistence failure it reports as an error).

  function SaveEntry(s: Store, p: Period, id: Id, e: Entry, rejects: set<Ref>): Result<Store>
  {
    if EntryRef(p, id) in rejects then Err(SaveRejected)
    else Ok(s.WithTable(p, s.Table(p)[id := e]))
  }

  /** Saves a new record into table p under the next free id. */
  function InsertEntry(s: Store, p: Period, e: Entry, rejects: set<Ref>): (r: Result<Store>)
    ensures r.Ok? <==> EntryRef(p, s.nextId) !in rejects
    ensures r.Ok? ==> r.value.Table(p) == s.Table(p)[s.nextId := e] && r.value.nextId == s.nextId + 1
    ensures r.Ok? ==> forall q :: q != p ==> r.value.Table(q) == s.Table(q)
    ensures r.Ok? ==> r.value.users == s.users && r.value.activities == s.activities && r.value.rewards == s.rewards
  {
    if EntryRef(p, s.nextId) in rejects then Err(SaveRejected)
    else Ok(s.WithTable(p, s.Table(p)[s.nextId := e]).(nextId := s.nextId + 1))
  }

  function DeleteEntry(s: Store, p: Period, id: Id, rejects: set<Ref>): Result<Store>
  {
    if id !in s.Table(p) then Err(NotFound)
    else if EntryRef(p, id) in rejects then Err(SaveRejected)
    else Ok(s.WithTable(p, s.Table(p) - {id}))
  }

  function SaveUser(s: Store, id: Id, u: User, rejects: set<Ref>): Result<Store>
  {
    if UserRef(id) in rejects then Err(SaveRejected)
    else Ok(s.(users := s.users[id := u]))
  }

  function SaveReward(s: Store, id: Id, r: Reward, rejects: set<Ref>): Result<Store>
  {
    if RewardRef(id) in rejects then Err(SaveRejected)
    else Ok(s.(rewards := s.rewards[id := r]))
  }

  /** The ids of S below n, in ascending order: the order a query returns them in. */
  function Ascending(S: set<Id>, n: nat): (r: seq<Id>)
    ensures forall i :: 0 <= i < |r| ==> r[i] in S && r[i] < n
    ensures forall x :: x in S && x < n ==> x in r
    ensures forall i, j :: 0 <= i < j < |r| ==> r[i] < r[j]
    ensures S == {} ==> r == []
  {
    if n == 0 then []
    else Ascending(S, n - 1) + (if n - 1 in S then [n - 1] else [])
  }

  /** The head of an ascending query result is the least id of S below n; an empty result means S has no id below n. */
  lemma AscendingHead(S: set<Id>, n: nat)
    ensures Ascending(S, n) == [] ==> forall x :: x in S ==> x >= n
    ensures Ascending(S, n) != [] ==> forall x :: x in S && x < n ==> Ascending(S, n)[0] <= x
  {
    var r := Ascending(S, n);
    if r != [] {
      forall x | x in S && x < n ensures r[0] <= x {
        var k :| 0 <= k < |r| && r[k] == x;
      }
    }
  }

  function OpenSet(t: Table): set<Id>
  {
    set id | id in t && !t[id].closed
  }

  /** The result of the query `closed = False` on table t. */
  function OpenIds(t: Table, n: nat): seq<Id>
  {
    Ascending(OpenSet(t), n)
  }

  /** The open entries of activity a in table t. */
  function OpenOf(t: Table, a: Id): set<Id>
  {
    set id | id in t && t[id].activity == a && !t[id].closed
  }

  function OpenCount(t: Table, a: Id): nat
  {
    |OpenOf(t, a)|
  }

  /** Adding an open entry for activity a under a new id adds one open entry for a and none for any other activity. */
  lemma InsertOpenCount(t: Table, n: Id, e: Entry, b: Id)
    requires n !in t && !e.closed
    ensures OpenOf(t[n := e], b) == OpenOf(t, b) + (if b == e.activity then {n} else {})
    ensures OpenCount(t[n := e], b) == OpenCount(t, b) + (if b == e.activity then 1 else 0)
  {
    var t' := t[n := e];
    assert OpenOf(t', b) == OpenOf(t, b) + (if b == e.activity then {n} else {});
    if b == e.activity {
      assert n !in OpenOf(t, b);
    }
  }

  /** Removing entry n removes it from the open entries of its activity and changes no other count. */
  lemma DeleteOpenCount(t: Table, n: Id, b: Id)
    requires n in t
    ensures OpenOf(t - {n}, b) == OpenOf(t, b) - {n}
    ensures OpenCount(t - {n}, b) ==
      OpenCount(t, b) - (if t[n].activity == b && !t[n].closed then 1 else 0)
  {
    assert OpenOf(t - {n}, b) == OpenOf(t, b) - {n};
  }
}
