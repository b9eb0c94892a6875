/**
 * The request hooks that guard the entry tables. An update request is refused
 * when the STORED entry is closed; a delete request is refused when the record
 * the request carries is closed. The first schema guards the daily table only;
 * the second gives each of the four tables the same pair of guards.
 */
module EntryGuards {
  import opened Ledger

  /**
   * The first schema's daily update guard. Its lookup error is ignored, so it
   * relies on the entry being stored, as it is for an update request.
   */
  function GuardDailyUpdateV1(s: Store, id: Id): (o: Outcome)
    requires id in s.daily
    ensures o == Pass <==> !s.daily[id].closed
    ensures o.Fail? ==> o.error == ReopenClosedEntry
  {
    if s.daily[id].closed then Fail(ReopenClosedEntry) else Pass
  }

  /** The update guard of table p: the stored entry must exist and be open; the incoming record is not looked at. */
  function GuardEntryUpdate(s: Store, p: Period, id: Id): (o: Outcome)
    ensures o == Pass <==> id in s.Table(p) && !s.Table(p)[id].closed
    ensures id !in s.Table(p) ==> o == Fail(NotFound)
    ensures id in s.Table(p) && s.Table(p)[id].closed ==> o == Fail(ReopenClosedEntry)
  {
    if id !in s.Table(p) then Fail(NotFound)
    else if s.Table(p)[id].closed then Fail(ReopenClosedEntry)
    else Pass
  }

  /** The delete guard of every entry table: it tests the record the request carries. */
  function GuardEntryDelete(rec: Entry): (o: Outcome)
    ensures o == Pass <==> !rec.closed
    ensures o.Fail? ==> o.error == DeleteClosedEntry
  {
    if rec.closed then Fail(DeleteClosedEntry) else Pass
  }

  /** On a stored daily entry the second schema's guard decides exactly as the first schema's. */
  lemma DailyGuardsAgree(s: Store, id: Id)
    requires id in s.daily
    ensures GuardDailyUpdateV1(s, id) == GuardEntryUpdate(s, Daily, id)
  {
  }

  /** An update request on table p: the guard, then the save of the incoming record. */
  function UpdateEntryRequest(s: Store, p: Period, id: Id, incoming: Entry): (r: Result<Store>)
    ensures r.Ok? <==> id in s.Table(p) && !s.Table(p)[id].closed
    ensures r.Ok? ==> r.value.Table(p) == s.Table(p)[id := incoming]
    ensures r.Ok? ==> r.value == s.WithTable(p, r.value.Table(p))
  {
    match GuardEntryUpdate(s, p, id)
    case Fail(err) => Err(err)
    case Pass => Ok(s.WithTable(p, s.Table(p)[id := incoming]))
  }

  /**
   * A delete request on table p. The record a delete request carries is the
   * stored one, so the guard sees the stored `closed` flag.
   */
  function DeleteEntryRequest(s: Store, p: Period, id: Id): (r: Result<Store>)
    ensures r.Ok? <==> id in s.Table(p) && !s.Table(p)[id].closed
    ensures r.Ok? ==> r.value.Table(p) == s.Table(p) - {id}
    ensures r.Ok? ==> r.value == s.WithTable(p, r.value.Table(p))
  {
    if id !in s.Table(p) then Err(NotFound)
    else
      match GuardEntryDelete(s.Table(p)[id])
      case Fail(err) => Err(err)
      case Pass => Ok(s.WithTable(p, s.Table(p) - {id}))
  }

  /** A request a client can send against an entry table. */
  datatype Request = Update(period: Period, id: Id, incoming: Entry) | Delete(period: Period, id: Id)

  /** The store after one request; a refused request leaves it as it was. */
  function Handle(s: Store, req: Request): Store
  {
    var r := match req
      case Update(p, id, e) => UpdateEntryRequest(s, p, id, e)
      case Delete(p, id) => DeleteEntryRequest(s, p, id);
    if r.Ok? then r.value else s
  }

  function HandleAll(s: Store, reqs: seq<Request>): Store
    decreases |reqs|
  {
    if reqs == [] then s else HandleAll(Handle(s, reqs[0]), reqs[1..])
  }

  /** No request changes or removes a closed entry. */
  lemma HandleKeepsClosed(s: Store, req: Request, p: Period, id: Id)
    requires id in s.Table(p) && s.Table(p)[id].closed
    ensures id in Handle(s, req).Table(p) && Handle(s, req).Table(p)[id] == s.Table(p)[id]
  {
  }

  /** Whatever entry requests clients send, a closed entry stays in its table exactly as it is. */
  lemma {:induction false} ClosedEntryFrozen(s: Store, reqs: seq<Request>, p: Period, id: Id)
    requires id in s.Table(p) && s.Table(p)[id].closed
    ensures id in HandleAll(s, reqs).Table(p) && HandleAll(s, reqs).Table(p)[id] == s.Table(p)[id]
    decreases |reqs|
  {
    if reqs != [] {
      HandleKeepsClosed(s, reqs[0], p, id);
      ClosedEntryFrozen(Handle(s, reqs[0]), reqs[1..], p, id);
    }
  }

  /** The update guard ignores the incoming record, so a request may close an open entry or rewrite its progress and goal. */
  lemma UpdateMayRewriteOpen(s: Store, p: Period, id: Id, incoming: Entry)
    requires id in s.Table(p) && !s.Table(p)[id].closed
    ensures Handle(s, Update(p, id, incoming)).Table(p)[id] == incoming
  {
  }
}
