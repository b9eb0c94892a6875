/**
 * The generation-gated job registry. Each schema generation lists the jobs it
 * needs; at start-up the jobs of every applied generation are handed to the
 * scheduler, lowest generation first. Cron expressions are opaque labels.
 */
module Schedule {
  import opened Ledger
  import Rollover
  import Provisioning
  import Rewards

  /** The job function a scheduled entry runs. */
  datatype Job =
    | CalculatePointsV1
    | CreateNewDailyEntriesV1
    | UpdateRedeemedRewards
    | CalculatePointsV2
    | CreateNewEntries(period: Period)

  /** A named job with its cron expression. */
  datatype MigrationCron = MigrationCron(name: string, cronTab: string, job: Job)

  /** Generation number to the jobs it introduces. */
  type Registry = map<int, seq<MigrationCron>>

  /** The scheduler's jobs by name. */
  type Scheduler = map<string, MigrationCron>

  /** The jobs of generation 7. */
  const Generation7: seq<MigrationCron> := [
    MigrationCron("calculatePoints", "0 6 * * *", CalculatePointsV1),
    MigrationCron("createNewDailyEntries", "1 6 * * *", CreateNewDailyEntriesV1),
    MigrationCron("updateRedeemedRewards", "0 6 * * *", UpdateRedeemedRewards)
  ]

  /** The jobs of generation 8. */
  const Generation8: seq<MigrationCron> := [
    MigrationCron("calculatePoints", "0 6 * * *", CalculatePointsV2),
    MigrationCron("createNewDailyEntries", "1 6 * * *", CreateNewEntries(Daily)),
    MigrationCron("createNewWeeklyEntries", "1 6 * * 1", CreateNewEntries(Weekly)),
    MigrationCron("createNewMonthlyEntries", "1 6 1 * *", CreateNewEntries(Monthly)),
    MigrationCron("createNewYearlyEntries", "1 6 1 1 *", CreateNewEntries(Yearly))
  ]

  /** Running a scheduled job: every job keeps every id below the id bound. */
  method RunJob(job: Job, s: Store, rejects: set<Ref>) returns (s2: Store)
    requires s.Valid()
    ensures s2.Valid()
  {
    match job
    case CalculatePointsV1 =>
      s2 := Rollover.CalculatePointsCron(s, rejects);
      Rollover.RolloverValid(s, Daily, rejects);
    case CreateNewDailyEntriesV1 =>
      s2 := Provisioning.CreateNewDailyEntriesCron(s, rejects);
      if Provisioning.Provision(s, Daily, Provisioning.Selected(s, None), rejects).Ok? {
        Provisioning.ProvisionValid(s, Daily, Provisioning.Selected(s, None), rejects);
      }
    case UpdateRedeemedRewards =>
      s2 := Rewards.UpdateRedeemedRewardsCron(s, rejects);
      if s2 != s {
        SameKeysValid(s, s2);
      }
    case CalculatePointsV2 =>
      s2 := Rollover.CalculatePointsV2Cron(s, rejects);
      Rollover.RolloverAllValid(s, Periods, rejects);
    case CreateNewEntries(p) =>
      s2 := Provisioning.CreateNewEntriesCron(s, p, rejects);
      if Provisioning.Provision(s, p, Provisioning.Selected(s, Some(p)), rejects).Ok? {
        Provisioning.ProvisionValid(s, p, Provisioning.Selected(s, Some(p)), rejects);
      }
  }

  // ---------------------------------------------------------------------------
  // Migration ids

  /** The row numbers 1..n of n applied migrations. */
  function Ids(n: nat): (ids: seq<int>)
    ensures |ids| == n && forall i :: 0 <= i < n ==> ids[i] == i + 1
  {
    if n == 0 then [] else Ids(n - 1) + [n]
  }

  /**
   * The ids of the applied migrations. `rows` is the number of rows the
   * migrations query returns, or None when the query fails; a failed query
   * yields no ids and reports the failure.
   */
  method GetMigrationIds(rows: Option<nat>) returns (ids: seq<int>, failed: bool)
    ensures failed <==> rows.None?
    ensures rows.None? ==> ids == []
    ensures rows.Some? ==> ids == Ids(rows.value)
    ensures forall i, j :: 0 <= i < j < |ids| ==> ids[i] < ids[j]
  {
    var n := if rows.Some? then rows.value else 0;
    failed := rows.None?;
    ids := [];
    var k := 0;
    while k < n
      invariant 0 <= k <= n
      invariant ids == Ids(k)
    {
      ids := ids + [k + 1];
      k := k + 1;
    }
  }

  // ---------------------------------------------------------------------------
  // Installing jobs

  /** The jobs handed to the scheduler for ids, in the order they are added. */
  function Installed(registry: Registry, ids: seq<int>): seq<MigrationCron>
    decreases |ids|
  {
    if ids == [] then []
    else (if ids[0] in registry then registry[ids[0]] else []) + Installed(registry, ids[1..])
  }

  /** The scheduler after adding crons in order; adding a job replaces any job of the same name. */
  function Install(sched: Scheduler, crons: seq<MigrationCron>): Scheduler
    decreases |crons|
  {
    if crons == [] then sched else Install(sched[crons[0].name := crons[0]], crons[1..])
  }

  /** The last job called name in crons. */
  function LastNamed(crons: seq<MigrationCron>, name: string): (r: Option<MigrationCron>)
    ensures r.Some? ==> r.value in crons && r.value.name == name
    ensures r.Some? ==>
      exists i :: 0 <= i < |crons| && crons[i] == r.value && (forall j :: i < j < |crons| ==> crons[j].name != name)
    ensures r.None? <==> forall i :: 0 <= i < |crons| ==> crons[i].name != name
  {
    if crons == [] then None
    else if crons[|crons| - 1].name == name then Some(crons[|crons| - 1])
    else LastNamed(crons[..|crons| - 1], name)
  }

  lemma {:induction false} InstalledAppend(registry: Registry, a: seq<int>, b: seq<int>)
    ensures Installed(registry, a + b) == Installed(registry, a) + Installed(registry, b)
    decreases |a|
  {
    if a != [] {
      assert (a + b)[0] == a[0] && (a + b)[1..] == a[1..] + b;
      InstalledAppend(registry, a[1..], b);
    } else {
      assert a + b == b;
    }
  }

  lemma {:induction false} InstallAppend(sched: Scheduler, a: seq<MigrationCron>, b: seq<MigrationCron>)
    ensures Install(sched, a + b) == Install(Install(sched, a), b)
    decreases |a|
  {
    if a != [] {
      assert (a + b)[0] == a[0] && (a + b)[1..] == a[1..] + b;
      InstallAppend(sched[a[0].name := a[0]], a[1..], b);
    } else {
      assert a + b == b;
    }
  }

  /** The names of crons. */
  function Names(crons: seq<MigrationCron>): set<string>
  {
    set c | c in crons :: c.name
  }

  /**
   * Last writer wins: after adding crons, a name is scheduled with the last
   * job of that name in crons, and a name none of them uses keeps what the
   * scheduler had.
   */
  lemma {:induction false} InstallLastWins(sched: Scheduler, crons: seq<MigrationCron>, name: string)
    ensures LastNamed(crons, name).Some? ==>
      name in Install(sched, crons) && Install(sched, crons)[name] == LastNamed(crons, name).value
    ensures LastNamed(crons, name).None? ==>
      (name in Install(sched, crons) <==> name in sched) &&
      (name in sched ==> Install(sched, crons)[name] == sched[name])
    decreases |crons|
  {
    if crons != [] {
      var k := |crons| - 1;
      var init := crons[..k];
      assert crons == init + [crons[k]];
      InstallAppend(sched, init, [crons[k]]);
      InstallLastWins(sched, init, name);
      var mid := Install(sched, init);
      assert Install(mid, [crons[k]]) == mid[crons[k].name := crons[k]];
    }
  }

  /** Adding crons schedules exactly their names on top of what the scheduler had. */
  lemma {:induction false} InstallKeys(sched: Scheduler, crons: seq<MigrationCron>)
    ensures Install(sched, crons).Keys == sched.Keys + Names(crons)
    decreases |crons|
  {
    if crons != [] {
      InstallKeys(sched[crons[0].name := crons[0]], crons[1..]);
      assert Names(crons) == {crons[0].name} + Names(crons[1..]) by {
        forall c | c in crons ensures c == crons[0] || c in crons[1..] {
          var i :| 0 <= i < |crons| && crons[i] == c;
          if i > 0 { assert crons[1..][i - 1] == c; }
        }
      }
    }
  }

  /** With ids 1..n, generation 7's jobs are added when n >= 7, then generation 8's when n >= 8, and nothing else. */
  lemma {:induction false} InstalledGenerations(n: nat)
    ensures Installed(map[7 := Generation7, 8 := Generation8], Ids(n)) ==
      (if n >= 7 then Generation7 else []) + (if n >= 8 then Generation8 else [])
  {
    var registry := map[7 := Generation7, 8 := Generation8];
    if n > 0 {
      InstalledGenerations(n - 1);
      InstalledAppend(registry, Ids(n - 1), [n]);
      assert Installed(registry, [n]) == (if n in registry then registry[n] else []) + Installed(registry, []);
    }
  }

  /** The scheduler after the jobs of the generations among ids are added, lowest id first, in list order within a generation. */
  method ApplyMigrationCron(registry: Registry, sched: Scheduler, rows: Option<nat>) returns (sched2: Scheduler)
    ensures var ids := if rows.Some? then Ids(rows.value) else [];
      sched2 == Install(sched, Installed(registry, ids))
  {
    var ids, failed := GetMigrationIds(rows);
    sched2 := sched;
    var i := 0;
    while i < |ids|
      invariant 0 <= i <= |ids|
      invariant Install(sched, Installed(registry, ids)) == Install(sched2, Installed(registry, ids[i..]))
    {
      assert ids[i..][0] == ids[i] && ids[i..][1..] == ids[i + 1..];
      var id := ids[i];
      assert Installed(registry, ids[i..]) ==
        (if id in registry then registry[id] else []) + Installed(registry, ids[i + 1..]);
      if id in registry {
        var entry := registry[id];
        ghost var rest := Installed(registry, ids[i + 1..]);
        var j := 0;
        while j < |entry|
          invariant 0 <= j <= |entry|
          invariant Install(sched, Installed(registry, ids)) == Install(sched2, entry[j..] + rest)
        {
          var cron := entry[j];
          assert (entry[j..] + rest)[0] == cron && (entry[j..] + rest)[1..] == entry[j + 1..] + rest;
          sched2 := sched2[cron.name := cron];
          j := j + 1;
        }
        assert entry[j..] + rest == rest;
      } else {
        assert Installed(registry, ids[i..]) == Installed(registry, ids[i + 1..]);
      }
      i := i + 1;
    }
  }

  // ---------------------------------------------------------------------------
  // Start-up

  /** The registry start-up builds: generations 7 and 8. */
  const MigrationCrons: Registry := map[7 := Generation7, 8 := Generation8]

  /** The migration ids for a query result: none when the query fails. */
  function MigrationIds(rows: Option<nat>): seq<int>
  {
    if rows.Some? then Ids(rows.value) else []
  }

  /** The scheduler once start-up has built the registry and applied it. */
  function Startup(sched: Scheduler, rows: Option<nat>): Scheduler
  {
    Install(sched - {"calculatePoints"} - {"createNewDailyEntries"}, Installed(MigrationCrons, MigrationIds(rows)))
  }

  /**
   * Start-up: fill the registry, then apply it. Building the jobs of
   * generation 8 already drops any scheduled "calculatePoints" and
   * "createNewDailyEntries" job, whichever generations end up applied.
   */
  method InitMigrationsCron(sched: Scheduler, rows: Option<nat>) returns (registry: Registry, sched2: Scheduler)
    ensures registry == MigrationCrons
    ensures sched2 == Startup(sched, rows)
  {
    registry := map[];
    registry := registry[7 := Generation7];
    var current := sched - {"calculatePoints"};
    current := current - {"createNewDailyEntries"};
    registry := registry[8 := Generation8];
    sched2 := ApplyMigrationCron(registry, current, rows);
  }

  /** A failed migration query installs nothing. */
  lemma StartupQueryFailed(sched: Scheduler)
    ensures Startup(sched, None) == sched - {"calculatePoints"} - {"createNewDailyEntries"}
  {
  }

  /** With fewer than seven applied migrations no job is installed. */
  lemma StartupBelow7(sched: Scheduler, n: nat)
    requires n < 7
    ensures Startup(sched, Some(n)) == sched - {"calculatePoints"} - {"createNewDailyEntries"}
  {
    InstalledGenerations(n);
  }

  /** With exactly seven applied migrations the three jobs of generation 7 are scheduled. */
  lemma StartupGeneration7(sched: Scheduler)
    ensures var s2 := Startup(sched, Some(7));
      && s2.Keys == sched.Keys + Names(Generation7)
      && "calculatePoints" in s2 && s2["calculatePoints"].job == CalculatePointsV1
      && "createNewDailyEntries" in s2 && s2["createNewDailyEntries"].job == CreateNewDailyEntriesV1
      && "updateRedeemedRewards" in s2 && s2["updateRedeemedRewards"].job == UpdateRedeemedRewards
  {
    InstalledGenerations(7);
    var cleared := sched - {"calculatePoints"} - {"createNewDailyEntries"};
    assert Generation7 + [] == Generation7;
    InstallKeys(cleared, Generation7);
    Generation7Installs(cleared);
    assert Generation7[0].name == "calculatePoints" && Generation7[1].name == "createNewDailyEntries";
    assert Generation7[2].name == "updateRedeemedRewards";
  }

  /** Adding generation 7's jobs to any scheduler schedules each of them under its name. */
  lemma Generation7Installs(sched: Scheduler)
    ensures forall k :: 0 <= k < |Generation7| ==>
      Generation7[k].name in Install(sched, Generation7) && Install(sched, Generation7)[Generation7[k].name] == Generation7[k]
  {
    NamesDiffer();
    InstallDistinct(sched, Generation7);
  }

  /**
   * With eight or more applied migrations the version-2 jobs replace the
   * version-1 jobs of the same name, the weekly, monthly and yearly
   * provisioning jobs are added, and the reward reset of generation 7 stays.
   */
  lemma StartupFrom8(sched: Scheduler, n: nat)
    requires n >= 8
    ensures var s2 := Startup(sched, Some(n));
      && s2.Keys == sched.Keys + Names(Generation7) + Names(Generation8)
      && "calculatePoints" in s2 && s2["calculatePoints"].job == CalculatePointsV2
      && "createNewDailyEntries" in s2 && s2["createNewDailyEntries"].job == CreateNewEntries(Daily)
      && "createNewWeeklyEntries" in s2 && s2["createNewWeeklyEntries"].job == CreateNewEntries(Weekly)
      && "createNewMonthlyEntries" in s2 && s2["createNewMonthlyEntries"].job == CreateNewEntries(Monthly)
      && "createNewYearlyEntries" in s2 && s2["createNewYearlyEntries"].job == CreateNewEntries(Yearly)
      && "updateRedeemedRewards" in s2 && s2["updateRedeemedRewards"].job == UpdateRedeemedRewards
  {
    InstalledGenerations(n);
    var cleared := sched - {"calculatePoints"} - {"createNewDailyEntries"};
    InstallAppend(cleared, Generation7, Generation8);
    var mid := Install(cleared, Generation7);
    NamesDiffer();
    InstallKeys(cleared, Generation7);
    InstallKeys(mid, Generation8);
    InstallLastWins(cleared, Generation7, "updateRedeemedRewards");
    Generation8Installs(mid);
    assert Generation8[0].name == "calculatePoints" && Generation8[1].name == "createNewDailyEntries";
    assert Generation8[2].name == "createNewWeeklyEntries" && Generation8[3].name == "createNewMonthlyEntries";
    assert Generation8[4].name == "createNewYearlyEntries";
  }

  /**
   * With eight or more applied migrations a job whose name neither generation
   * uses is untouched: it stays scheduled, with the same job, exactly when it
   * was scheduled before start-up.
   */
  lemma StartupFrom8Keeps(sched: Scheduler, n: nat, name: string)
    requires n >= 8
    requires name !in Names(Generation7) + Names(Generation8)
    ensures name in Startup(sched, Some(n)) <==> name in sched
    ensures name in sched ==> Startup(sched, Some(n))[name] == sched[name]
  {
    InstalledGenerations(n);
    var cleared := sched - {"calculatePoints"} - {"createNewDailyEntries"};
    var crons := Generation7 + Generation8;
    assert forall i :: 0 <= i < |crons| ==> crons[i].name != name by {
      forall i | 0 <= i < |crons| ensures crons[i].name != name {
        assert crons[i] in Generation7 || crons[i] in Generation8;
      }
    }
    InstallLastWins(cleared, crons, name);
    assert Generation8[0].name == "calculatePoints" && Generation8[1].name == "createNewDailyEntries";
  }

  /**
   * Adding generation 8's jobs to any scheduler schedules each of them under
   * its name and leaves the reward reset job as it was.
   */
  lemma Generation8Installs(sched: Scheduler)
    ensures forall k :: 0 <= k < |Generation8| ==>
      Generation8[k].name in Install(sched, Generation8) && Install(sched, Generation8)[Generation8[k].name] == Generation8[k]
    ensures "updateRedeemedRewards" in sched ==>
      "updateRedeemedRewards" in Install(sched, Generation8) &&
      Install(sched, Generation8)["updateRedeemedRewards"] == sched["updateRedeemedRewards"]
  {
    Generation8Distinct();
    InstallDistinct(sched, Generation8);
    InstallLastWins(sched, Generation8, "updateRedeemedRewards");
  }

  /** Adding jobs of pairwise different names schedules each of them under its name. */
  lemma InstallDistinct(sched: Scheduler, crons: seq<MigrationCron>)
    requires forall i, j :: 0 <= i < j < |crons| ==> crons[i].name != crons[j].name
    ensures forall k :: 0 <= k < |crons| ==>
      crons[k].name in Install(sched, crons) && Install(sched, crons)[crons[k].name] == crons[k]
  {
    forall k | 0 <= k < |crons|
      ensures crons[k].name in Install(sched, crons) && Install(sched, crons)[crons[k].name] == crons[k]
    {
      LastNamedAt(crons, k);
      InstallLastWins(sched, crons, crons[k].name);
    }
  }

  /** The five job names of generation 8 are pairwise different. */
  lemma Generation8Distinct()
    ensures forall i, j :: 0 <= i < j < |Generation8| ==> Generation8[i].name != Generation8[j].name
  {
    NamesDiffer();
    assert "createNewDailyEntries"[9] != "createNewMonthlyEntries"[9];
    assert "createNewWeeklyEntries"[9] != "createNewMonthlyEntries"[9];
    assert "createNewYearlyEntries"[9] != "createNewMonthlyEntries"[9];
    assert "calculatePoints"[1] != "createNewWeeklyEntries"[1];
    assert "calculatePoints"[1] != "createNewMonthlyEntries"[1];
    assert "calculatePoints"[1] != "createNewYearlyEntries"[1];
  }

  /** A job whose name no later job in crons uses is the last one of that name. */
  lemma {:induction false} LastNamedAt(crons: seq<MigrationCron>, i: int)
    requires 0 <= i < |crons|
    requires forall j :: i < j < |crons| ==> crons[j].name != crons[i].name
    ensures LastNamed(crons, crons[i].name) == Some(crons[i])
    decreases |crons|
  {
    if i < |crons| - 1 {
      LastNamedAt(crons[..|crons| - 1], i);
    }
  }

  /** The job names of both generations are pairwise different. */
  lemma NamesDiffer()
    ensures "calculatePoints" != "createNewDailyEntries" && "calculatePoints" != "updateRedeemedRewards"
    ensures "createNewDailyEntries" != "updateRedeemedRewards"
    ensures "createNewWeeklyEntries" != "createNewYearlyEntries"
    ensures "createNewWeeklyEntries" != "updateRedeemedRewards" && "createNewYearlyEntries" != "updateRedeemedRewards"
    ensures "createNewDailyEntries" != "createNewWeeklyEntries" && "createNewDailyEntries" != "createNewMonthlyEntries"
    ensures "createNewDailyEntries" != "createNewYearlyEntries"
  {
    assert "calculatePoints"[1] != "createNewDailyEntries"[1];
    assert "createNewDailyEntries"[0] != "updateRedeemedRewards"[0];
    assert "createNewWeeklyEntries"[9] != "createNewYearlyEntries"[9];
    assert "createNewWeeklyEntries"[0] != "updateRedeemedRewards"[0];
    assert "createNewYearlyEntries"[0] != "updateRedeemedRewards"[0];
  }
}
