/**
 * The rewards: the nightly reset job `updateRedeemedRewardsCron`, and the two
 * update-request hooks of the "rewards" collection, the check (priority 0) and
 * the redeem (priority 2), which together with the final save make up a reward
 * update request.
 */
module Rewards {
  import opened Ledger

  /** The counters of a reward are consistent: used ≤ redeemed ≤ max_redeemables, none negative. */
  predicate Sound(r: Reward)
  {
    0 <= r.used <= r.redeemed <= r.maxRedeemables
  }

  /** Every reward with `redeemed` and `used` set back to 0 and every other field kept. */
  function ResetAll(rewards: map<Id, Reward>): (r: map<Id, Reward>)
    ensures r.Keys == rewards.Keys
    ensures forall id :: id in r ==> r[id].redeemed == 0 && r[id].used == 0
    ensures forall id :: id in r ==>
      && r[id].user == rewards[id].user && r[id].name == rewards[id].name
      && r[id].unitCost == rewards[id].unitCost && r[id].maxRedeemables == rewards[id].maxRedeemables
  {
    map id | id in rewards :: rewards[id].(redeemed := 0, used := 0)
  }

  /** The transaction body over the rewards ids: save each one reset, stopping at the first refused save. */
  function Reset(s: Store, ids: seq<Id>, rejects: set<Ref>): Result<Store>
    decreases |ids|
  {
    if ids == [] then Ok(s)
    else if ids[0] !in s.rewards then Err(NotFound)
    else
      match SaveReward(s, ids[0], s.rewards[ids[0]].(redeemed := 0, used := 0), rejects)
      case Err(err) => Err(err)
      case Ok(s1) => Reset(s1, ids[1..], rejects)
  }

  /** The rewards with the counters of those among done reset. */
  function ResetSome(rewards: map<Id, Reward>, done: set<Id>): map<Id, Reward>
  {
    map id | id in rewards :: if id in done then rewards[id].(redeemed := 0, used := 0) else rewards[id]
  }

  function Elements(ids: seq<Id>): set<Id>
  {
    set i | 0 <= i < |ids| :: ids[i]
  }

  /**
   * Resetting distinct existing rewards succeeds exactly when none of their
   * saves is refused, and then resets exactly those and changes nothing else.
   */
  lemma {:induction false} ResetEffect(s: Store, ids: seq<Id>, rejects: set<Ref>)
    requires forall i :: 0 <= i < |ids| ==> ids[i] in s.rewards
    requires forall i, j :: 0 <= i < j < |ids| ==> ids[i] != ids[j]
    ensures Reset(s, ids, rejects).Ok? <==> forall i :: 0 <= i < |ids| ==> RewardRef(ids[i]) !in rejects
    ensures Reset(s, ids, rejects).Ok? ==>
      Reset(s, ids, rejects).value == s.(rewards := ResetSome(s.rewards, Elements(ids)))
    decreases |ids|
  {
    if ids != [] {
      var id := ids[0];
      var rest := ids[1..];
      if RewardRef(id) !in rejects {
        var s1 := s.(rewards := s.rewards[id := s.rewards[id].(redeemed := 0, used := 0)]);
        forall i | 0 <= i < |rest| ensures rest[i] in s1.rewards && rest[i] != id {
          assert rest[i] == ids[i + 1];
        }
        ResetEffect(s1, rest, rejects);
        if Reset(s, ids, rejects).Ok? {
          assert Elements(ids) == Elements(rest) + {id} by {
            forall x | x in Elements(ids) ensures x in Elements(rest) + {id} {
              var i :| 0 <= i < |ids| && ids[i] == x;
              if i > 0 { assert rest[i - 1] == x; }
            }
            forall x | x in Elements(rest) ensures x in Elements(ids) {
              var i :| 0 <= i < |rest| && rest[i] == x;
              assert ids[i + 1] == x;
            }
          }
          assert ResetSome(s1.rewards, Elements(rest)) == ResetSome(s.rewards, Elements(ids));
        }
        forall i | 0 <= i < |ids| && i > 0 ensures ids[i] == rest[i - 1] {
        }
      }
    }
  }

  /**
   * The transaction body of `updateRedeemedRewardsCron` succeeds exactly when
   * the store accepts every reward's save, and then every reward has its
   * counters reset and nothing else in the store changed.
   */
  lemma ResetAllEffect(s: Store, rejects: set<Ref>)
    requires KeysBelow(s.rewards, s.nextId)
    ensures var r := Reset(s, Ascending(s.rewards.Keys, s.nextId), rejects);
      && (r.Ok? <==> forall id :: id in s.rewards ==> RewardRef(id) !in rejects)
      && (r.Ok? ==> r.value == s.(rewards := ResetAll(s.rewards)))
  {
    var ids := Ascending(s.rewards.Keys, s.nextId);
    ResetEffect(s, ids, rejects);
    AscendingElements(s.rewards.Keys, s.nextId);
    ResetSomeAll(s.rewards);
    AscendingAccepted(s.rewards.Keys, s.nextId, rejects);
  }

  /** A query over ids all below the bound returns every one of them. */
  lemma AscendingElements(S: set<Id>, n: nat)
    requires forall x :: x in S ==> x < n
    ensures Elements(Ascending(S, n)) == S
  {
    var ids := Ascending(S, n);
    forall x | x in S ensures x in Elements(ids) {
      var i :| 0 <= i < |ids| && ids[i] == x;
    }
  }

  lemma ResetSomeAll(rewards: map<Id, Reward>)
    ensures ResetSome(rewards, rewards.Keys) == ResetAll(rewards)
  {
  }

  /** No reward save of the query result is refused exactly when no reward save of S is. */
  lemma AscendingAccepted(S: set<Id>, n: nat, rejects: set<Ref>)
    requires forall x :: x in S ==> x < n
    ensures (forall i :: 0 <= i < |Ascending(S, n)| ==> RewardRef(Ascending(S, n)[i]) !in rejects) <==>
      (forall id :: id in S ==> RewardRef(id) !in rejects)
  {
    var ids := Ascending(S, n);
    if forall i :: 0 <= i < |ids| ==> RewardRef(ids[i]) !in rejects {
      forall id | id in S ensures RewardRef(id) !in rejects {
        var i :| 0 <= i < |ids| && ids[i] == id;
      }
    } else {
      var i :| 0 <= i < |ids| && RewardRef(ids[i]) in rejects;
      assert ids[i] in S;
    }
  }

  /** The transaction body of `updateRedeemedRewardsCron`, as the loop over the query result. */
  method ResetRewards(tx: Store, rejects: set<Ref>) returns (r: Result<Store>)
    ensures r == Reset(tx, Ascending(tx.rewards.Keys, tx.nextId), rejects)
  {
    var rewards := Ascending(tx.rewards.Keys, tx.nextId);
    var cur := tx;
    var i := 0;
    while i < |rewards|
      invariant 0 <= i <= |rewards|
      invariant Reset(tx, rewards, rejects) == Reset(cur, rewards[i..], rejects)
    {
      assert rewards[i..][0] == rewards[i] && rewards[i..][1..] == rewards[i + 1..];
      var id := rewards[i];
      if id !in cur.rewards {
        return Err(NotFound);
      }
      var reward := cur.rewards[id];
      var saved := SaveReward(cur, id, reward.(redeemed := 0, used := 0), rejects);
      if saved.Err? {
        return saved;
      }
      cur := saved.value;
      i := i + 1;
    }
    return Ok(cur);
  }

  /** `updateRedeemedRewardsCron`: the reset as one transaction, its result dropped. */
  method UpdateRedeemedRewardsCron(s: Store, rejects: set<Ref>) returns (s2: Store)
    requires s.Valid()
    ensures (forall id :: id in s.rewards ==> RewardRef(id) !in rejects) ==> s2 == s.(rewards := ResetAll(s.rewards))
    ensures (exists id :: id in s.rewards && RewardRef(id) in rejects) ==> s2 == s
  {
    var body := ResetRewards(s, rejects);
    ResetAllEffect(s, rejects);
    s2 := Commit(s, body);
  }

  /** A reset leaves every reward with a non-negative limit consistent. */
  lemma ResetSound(rewards: map<Id, Reward>)
    requires forall id :: id in rewards ==> rewards[id].maxRedeemables >= 0
    ensures forall id :: id in ResetAll(rewards) ==> Sound(ResetAll(rewards)[id])
  {
  }

  /**
   * The check hook: the stored reward must exist, and the incoming one may only
   * raise `redeemed`, up to the stored limit, and only raise `used`, up to the
   * stored (pre-update) `redeemed`. The first failing test names the error.
   */
  function CheckRewardUpdate(s: Store, id: Id, incoming: Reward): (o: Outcome)
    ensures o == Pass <==>
      && id in s.rewards
      && s.rewards[id].redeemed <= incoming.redeemed <= s.rewards[id].maxRedeemables
      && s.rewards[id].used <= incoming.used <= s.rewards[id].redeemed
    ensures id !in s.rewards ==> o == Fail(NotFound)
    ensures id in s.rewards && incoming.redeemed < s.rewards[id].redeemed ==> o == Fail(RedeemedDecreased)
    ensures (id in s.rewards && s.rewards[id].redeemed <= incoming.redeemed &&
             incoming.redeemed > s.rewards[id].maxRedeemables) ==> o == Fail(RedeemedOverMax)
    ensures (id in s.rewards && s.rewards[id].redeemed <= incoming.redeemed <= s.rewards[id].maxRedeemables &&
             incoming.used < s.rewards[id].used) ==> o == Fail(UsedDecreased)
    ensures (id in s.rewards && s.rewards[id].redeemed <= incoming.redeemed <= s.rewards[id].maxRedeemables &&
             s.rewards[id].used <= incoming.used && incoming.used > s.rewards[id].redeemed) ==> o == Fail(UsedOverRedeemed)
  {
    if id !in s.rewards then Fail(NotFound)
    else
      var stored := s.rewards[id];
      if incoming.redeemed - stored.redeemed < 0 then Fail(RedeemedDecreased)
      else if incoming.redeemed > stored.maxRedeemables then Fail(RedeemedOverMax)
      else if incoming.used - stored.used < 0 then Fail(UsedDecreased)
      else if incoming.used > stored.redeemed then Fail(UsedOverRedeemed)
      else Pass
  }

  /** The points the redeem hook charges: the newly redeemed units at the stored unit cost. */
  function Cost(stored: Reward, incoming: Reward): int
  {
    (incoming.redeemed - stored.redeemed) * stored.unitCost
  }

  /**
   * The redeem hook: it charges the reward's owner the cost of the newly
   * redeemed units, refusing when the owner has fewer points than that.
   */
  method RedeemHook(s: Store, id: Id, incoming: Reward, rejects: set<Ref>) returns (r: Result<Store>)
    ensures r.Ok? <==>
      && id in s.rewards && s.rewards[id].user in s.users
      && s.users[s.rewards[id].user].points >= Cost(s.rewards[id], incoming)
      && UserRef(s.rewards[id].user) !in rejects
    ensures r.Ok? ==>
      var owner := s.rewards[id].user;
      r.value == s.(users := s.users[owner := User(s.users[owner].points - Cost(s.rewards[id], incoming))])
    ensures r.Ok? ==> r.value.users[s.rewards[id].user].points >= 0
    ensures (id in s.rewards && s.rewards[id].user in s.users &&
             s.users[s.rewards[id].user].points < Cost(s.rewards[id], incoming)) ==> r == Err(NotEnoughPoints)
    ensures id !in s.rewards || s.rewards[id].user !in s.users ==> r == Err(NotFound)
    ensures r.Err? && r.error != NotFound && r.error != NotEnoughPoints ==>
      r == Err(SaveRejected) && UserRef(s.rewards[id].user) in rejects
  {
    if id !in s.rewards {
      return Err(NotFound);
    }
    var reward := s.rewards[id];
    if reward.user !in s.users {
      return Err(NotFound);
    }
    var user := s.users[reward.user];
    var redeemed := incoming.redeemed - reward.redeemed;
    var cost := redeemed * reward.unitCost;
    if user.points < cost {
      return Err(NotEnoughPoints);
    }
    r := SaveUser(s, reward.user, user.(points := user.points - cost), rejects);
  }

  /**
   * A reward update request: the check hook, then the redeem hook, then the
   * save of the incoming record. A failing hook ends the request with nothing
   * written; otherwise the owner is charged and the incoming record stored.
   */
  method UpdateRewardRequest(s: Store, id: Id, incoming: Reward, rejects: set<Ref>) returns (r: Result<Store>)
    ensures r.Ok? <==>
      && CheckRewardUpdate(s, id, incoming) == Pass
      && s.rewards[id].user in s.users
      && s.users[s.rewards[id].user].points >= Cost(s.rewards[id], incoming)
      && UserRef(s.rewards[id].user) !in rejects
    ensures CheckRewardUpdate(s, id, incoming).Fail? ==> r == Err(CheckRewardUpdate(s, id, incoming).error)
    ensures r.Ok? ==>
      var owner := s.rewards[id].user;
      && r.value.rewards == s.rewards[id := incoming]
      && r.value.users == s.users[owner := User(s.users[owner].points - Cost(s.rewards[id], incoming))]
      && r.value == s.(rewards := r.value.rewards, users := r.value.users)
  {
    var check := CheckRewardUpdate(s, id, incoming);
    if check.Fail? {
      return Err(check.error);
    }
    var redeemed := RedeemHook(s, id, incoming, rejects);
    if redeemed.Err? {
      return redeemed;
    }
    var tx := redeemed.value;
    r := Ok(tx.(rewards := tx.rewards[id := incoming]));
  }

  /** An accepted update keeps a consistent reward consistent, as long as it leaves the limit as it was. */
  lemma UpdateKeepsSound(s: Store, id: Id, incoming: Reward)
    requires id in s.rewards && Sound(s.rewards[id])
    requires CheckRewardUpdate(s, id, incoming) == Pass
    requires incoming.maxRedeemables == s.rewards[id].maxRedeemables
    ensures Sound(incoming)
  {
  }

  /** The check compares against the stored limit only, so an update that lowers the limit below the new `redeemed` passes. */
  lemma CheckAllowsLimitBelowRedeemed()
    ensures var s := Store(map[0 := User(10)], map[], map[1 := Reward(0, "coffee", 1, 2, 0, 5)],
                           map[], map[], map[], map[], 2);
      && Sound(s.rewards[1])
      && CheckRewardUpdate(s, 1, Reward(0, "coffee", 1, 3, 0, 1)) == Pass
      && !Sound(Reward(0, "coffee", 1, 3, 0, 1))
  {
  }

  /** An update that redeems nothing new costs nothing: the owner's balance is left as it was. */
  lemma NoNewRedeemNoCharge(s: Store, id: Id, incoming: Reward)
    requires id in s.rewards && incoming.redeemed == s.rewards[id].redeemed
    ensures Cost(s.rewards[id], incoming) == 0
    ensures s.rewards[id].user in s.users ==>
      s.users[s.rewards[id].user].(points := s.users[s.rewards[id].user].points - Cost(s.rewards[id], incoming))
        == s.users[s.rewards[id].user]
  {
  }

  /** A redeem with a non-negative unit cost never raises a balance. */
  lemma RedeemNeverCredits(s: Store, id: Id, incoming: Reward)
    requires id in s.rewards && s.rewards[id].unitCost >= 0
    requires CheckRewardUpdate(s, id, incoming) == Pass
    ensures Cost(s.rewards[id], incoming) >= 0
  {
  }
}
