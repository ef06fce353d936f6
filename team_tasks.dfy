/**
 * `TeamTasks`: for each person, how many of their tasks are in each status,
 * and the greedy promotion of `PerformPersonTasks`.
 */
module TeamTasks {
  import opened Wrappers

  datatype TaskStatus = NEW | IN_PROGRESS | TESTING | DONE

  /** The position of a status in the enumeration. */
  function Rank(s: TaskStatus): nat
  {
    match s
    case NEW => 0
    case IN_PROGRESS => 1
    case TESTING => 2
    case DONE => 3
  }

  function StatusAt(i: nat): (s: TaskStatus)
    requires i < 4
    ensures Rank(s) == i
  {
    if i == 0 then NEW else if i == 1 then IN_PROGRESS else if i == 2 then TESTING else DONE
  }

  /** `Next(status)`: the following status; DONE has none. */
  function Next(s: TaskStatus): (n: TaskStatus)
    requires s != DONE
    ensures Rank(n) == Rank(s) + 1
  {
    StatusAt(Rank(s) + 1)
  }

  type TasksInfo = map<TaskStatus, int>

  /** `tasks_info[s]` as read: a missing status counts 0. */
  function Get(m: TasksInfo, s: TaskStatus): int
  {
    if s in m then m[s] else 0
  }

  predicate NoZeros(m: TasksInfo)
  {
    forall s :: s in m ==> m[s] != 0
  }

  /** Erases the entries whose count is 0, visiting the statuses in key order. */
  method RemoveZeros(info: TasksInfo) returns (r: TasksInfo)
    ensures NoZeros(r) && r.Keys <= info.Keys
    ensures forall s :: Get(r, s) == Get(info, s)
  {
    r := info;
    for i := 0 to 4
      invariant r.Keys <= info.Keys
      invariant forall s :: Get(r, s) == Get(info, s)
      invariant forall s :: s in r && Rank(s) < i ==> r[s] != 0
    {
      var s := StatusAt(i);
      if s in r && r[s] == 0 {
        r := r - {s};
      }
    }
  }

  /** The counts of a person as `person_tasks_[person]` finds them: none for a newcomer. */
  function Info(personTasks: map<string, TasksInfo>, person: string): TasksInfo
  {
    if person in personTasks then personTasks[person] else map[]
  }

  // The greedy promotion of `PerformPersonTasks`, status by status.

  function Min(a: int, b: int): int
  {
    if a <= b then a else b
  }

  /** `task_count` when the first loop reaches status `k`. */
  function Remaining(t: TasksInfo, taskCount: int, k: nat): int
    requires k <= 3
    decreases k, 0
  {
    if k == 0 then taskCount else Remaining(t, taskCount, k - 1) - Moved(t, taskCount, k - 1)
  }

  /** `updated_tasks[Next(s)]` for the status `s` of rank `k`: how many leave `s`. */
  function Moved(t: TasksInfo, taskCount: int, k: nat): int
    requires k < 3
    decreases k, 1
  {
    Min(Remaining(t, taskCount, k), Get(t, StatusAt(k)))
  }

  /** How many tasks reach `s` in one call. */
  function UpdatedCount(t: TasksInfo, taskCount: int, s: TaskStatus): int
  {
    if s == NEW then 0 else Moved(t, taskCount, Rank(s) - 1)
  }

  /** How many tasks stay in `s` in one call; DONE tasks are never counted. */
  function UntouchedCount(t: TasksInfo, taskCount: int, s: TaskStatus): int
  {
    if s == DONE then 0 else Get(t, s) - Moved(t, taskCount, Rank(s))
  }

  /** The count of `s` after one call: it loses the tasks that leave it and gains those that arrive. */
  function AfterCount(t: TasksInfo, taskCount: int, s: TaskStatus): int
  {
    Get(t, s) - (if s == DONE then 0 else Moved(t, taskCount, Rank(s))) + UpdatedCount(t, taskCount, s)
  }

  /** The person's counts after one call; every status is then present. */
  function After(t: TasksInfo, taskCount: int): TasksInfo
  {
    map[NEW := AfterCount(t, taskCount, NEW), IN_PROGRESS := AfterCount(t, taskCount, IN_PROGRESS),
        TESTING := AfterCount(t, taskCount, TESTING), DONE := AfterCount(t, taskCount, DONE)]
  }

  function Total(m: TasksInfo): int
  {
    Get(m, NEW) + Get(m, IN_PROGRESS) + Get(m, TESTING) + Get(m, DONE)
  }

  predicate NonNegative(m: TasksInfo)
  {
    forall s :: s in m ==> m[s] >= 0
  }

  /** `updated_tasks` after the first `i` turns of the first loop. */
  function PromotedPrefix(t: TasksInfo, taskCount: int, i: nat): TasksInfo
    requires i <= 3
  {
    if i == 0 then map[] else PromotedPrefix(t, taskCount, i - 1)[StatusAt(i) := Moved(t, taskCount, i - 1)]
  }

  /** `updated_tasks` after the first loop: the promotions into each status but NEW. */
  function Promoted(t: TasksInfo, taskCount: int): TasksInfo
  {
    map[IN_PROGRESS := Moved(t, taskCount, 0), TESTING := Moved(t, taskCount, 1), DONE := Moved(t, taskCount, 2)]
  }

  /** The first loop of `PerformPersonTasks`: `updated_tasks`, filled status by status. */
  method Promotions(t: TasksInfo, taskCount: int) returns (up: TasksInfo)
    ensures up == Promoted(t, taskCount)
    ensures forall s :: Get(up, s) == UpdatedCount(t, taskCount, s)
  {
    var count := taskCount;
    up := map[];
    for i := 0 to 3
      invariant count == Remaining(t, taskCount, i)
      invariant up == PromotedPrefix(t, taskCount, i)
    {
      var status := StatusAt(i);
      up := up[Next(status) := Min(count, Get(t, status))];
      count := count - up[Next(status)];
    }
    PromotedAll(t, taskCount);
  }

  lemma PromotedAll(t: TasksInfo, taskCount: int)
    ensures PromotedPrefix(t, taskCount, 3) == Promoted(t, taskCount)
    ensures forall s :: Get(Promoted(t, taskCount), s) == UpdatedCount(t, taskCount, s)
    ensures forall s :: Get(Promoted(t, taskCount)[NEW := 0], s) == UpdatedCount(t, taskCount, s)
  {
    assert PromotedPrefix(t, taskCount, 1) == map[IN_PROGRESS := Moved(t, taskCount, 0)];
    assert PromotedPrefix(t, taskCount, 2) == map[IN_PROGRESS := Moved(t, taskCount, 0), TESTING := Moved(t, taskCount, 1)];
  }

  /** `untouched_tasks` after the first `i` turns of the second loop. */
  function LeftPrefix(t: TasksInfo, taskCount: int, i: nat): TasksInfo
    requires i <= 3
  {
    if i == 0 then map[]
    else LeftPrefix(t, taskCount, i - 1)[StatusAt(i - 1) := UntouchedCount(t, taskCount, StatusAt(i - 1))]
  }

  /** The person's counts after the first `i` turns of the second loop. */
  function SettledPrefix(t: TasksInfo, taskCount: int, i: nat): TasksInfo
    requires i <= 3
  {
    if i == 0 then t
    else SettledPrefix(t, taskCount, i - 1)[StatusAt(i - 1) := AfterCount(t, taskCount, StatusAt(i - 1))]
  }

  lemma {:induction false} SettledPrefixLater(t: TasksInfo, taskCount: int, i: nat, j: nat)
    requires i <= j < 4
    ensures Get(SettledPrefix(t, taskCount, i), StatusAt(j)) == Get(t, StatusAt(j))
  {
    if i > 0 {
      SettledPrefixLater(t, taskCount, i - 1, j);
    }
  }

  /**
   * The second loop of `PerformPersonTasks`: fills `untouched_tasks` and
   * settles the counts of NEW, IN_PROGRESS and TESTING. Reading
   * `updated_tasks[NEW]` inserts a zero entry.
   */
  method Settle(t: TasksInfo, taskCount: int, up: TasksInfo) returns (tasks: TasksInfo, up': TasksInfo, left: TasksInfo)
    requires up == Promoted(t, taskCount)
    ensures up' == up[NEW := 0]
    ensures left == LeftPrefix(t, taskCount, 3)
    ensures tasks == SettledPrefix(t, taskCount, 3)
  {
    tasks, up', left := t, up, map[];
    for i := 0 to 3
      invariant up' == if i == 0 then up else up[NEW := 0]
      invariant left == LeftPrefix(t, taskCount, i)
      invariant tasks == SettledPrefix(t, taskCount, i)
    {
      tasks, up', left := SettleTurn(t, taskCount, up, i, tasks, up', left);
    }
  }

  /** Turn `i` of the second loop of `PerformPersonTasks`. */
  method SettleTurn(t: TasksInfo, taskCount: int, up: TasksInfo, i: nat, tasks: TasksInfo, up': TasksInfo, left: TasksInfo)
    returns (tasks2: TasksInfo, up2: TasksInfo, left2: TasksInfo)
    requires up == Promoted(t, taskCount) && i < 3
    requires up' == if i == 0 then up else up[NEW := 0]
    requires left == LeftPrefix(t, taskCount, i)
    requires tasks == SettledPrefix(t, taskCount, i)
    ensures up2 == up[NEW := 0]
    ensures left2 == LeftPrefix(t, taskCount, i + 1)
    ensures tasks2 == SettledPrefix(t, taskCount, i + 1)
  {
    var status := StatusAt(i);
    SettleStep(t, taskCount, i, tasks, up');
    left2 := left[status := Get(tasks, status) - Get(up', Next(status))];
    up2 := up'[status := Get(up', status)];
    tasks2 := tasks[status := Get(tasks, status) + up2[status] - Get(up', Next(status))];
    SettleUp(t, taskCount, up, i, up');
    SettleCount(t, taskCount, i, Get(tasks, status) + up2[status] - Get(up', Next(status)));
  }

  /** Reading `updated_tasks[status]` inserts the zero entry of NEW, and nothing else. */
  lemma SettleUp(t: TasksInfo, taskCount: int, up: TasksInfo, i: nat, up': TasksInfo)
    requires up == Promoted(t, taskCount) && i < 3
    requires up' == if i == 0 then up else up[NEW := 0]
    ensures up'[StatusAt(i) := Get(up', StatusAt(i))] == up[NEW := 0]
  {
    if i > 0 {
      assert StatusAt(i) in up';
    }
  }

  /** The new count of the status of rank `i` is its count after the call. */
  lemma SettleCount(t: TasksInfo, taskCount: int, i: nat, count: int)
    requires i < 3
    requires count == Get(t, StatusAt(i)) + UpdatedCount(t, taskCount, StatusAt(i)) - Moved(t, taskCount, i)
    ensures count == AfterCount(t, taskCount, StatusAt(i))
  {
  }

  /** What turn `i` of the second loop reads: the count before the call and the promotions in and out. */
  lemma SettleStep(t: TasksInfo, taskCount: int, i: nat, tasks: TasksInfo, up: TasksInfo)
    requires i < 3 && tasks == SettledPrefix(t, taskCount, i)
    requires up == Promoted(t, taskCount) || up == Promoted(t, taskCount)[NEW := 0]
    ensures Get(tasks, StatusAt(i)) == Get(t, StatusAt(i))
    ensures Get(up, Next(StatusAt(i))) == Moved(t, taskCount, i)
    ensures Get(up, StatusAt(i)) == UpdatedCount(t, taskCount, StatusAt(i))
  {
    SettledPrefixLater(t, taskCount, i, i);
    PromotedAll(t, taskCount);
  }

  /** What the loops of `PerformPersonTasks` leave, in terms of the counts before the call. */
  lemma SettledCounts(t: TasksInfo, taskCount: int)
    ensures var tasks := SettledPrefix(t, taskCount, 3);
      tasks[DONE := Get(tasks, DONE) + Get(Promoted(t, taskCount), DONE)] == After(t, taskCount)
    ensures forall s :: Get(LeftPrefix(t, taskCount, 3), s) == UntouchedCount(t, taskCount, s)
    ensures DONE !in LeftPrefix(t, taskCount, 3)
    ensures forall s :: Get(Promoted(t, taskCount)[NEW := 0], s) == UpdatedCount(t, taskCount, s)
  {
    PromotedAll(t, taskCount);
    SettledPrefixLater(t, taskCount, 3, 3);
    var tasks := SettledPrefix(t, taskCount, 3);
    assert SettledPrefix(t, taskCount, 1) == t[NEW := AfterCount(t, taskCount, NEW)];
    assert SettledPrefix(t, taskCount, 2) == t[NEW := AfterCount(t, taskCount, NEW)][IN_PROGRESS := AfterCount(t, taskCount, IN_PROGRESS)];
    assert tasks == t[NEW := AfterCount(t, taskCount, NEW)][IN_PROGRESS := AfterCount(t, taskCount, IN_PROGRESS)]
      [TESTING := AfterCount(t, taskCount, TESTING)];
    var done := tasks[DONE := Get(tasks, DONE) + Get(Promoted(t, taskCount), DONE)];
    assert NEW in done && IN_PROGRESS in done && TESTING in done && DONE in done;
    assert NEW in After(t, taskCount) && IN_PROGRESS in After(t, taskCount);
    assert TESTING in After(t, taskCount) && DONE in After(t, taskCount);
    assert Get(tasks, DONE) == Get(t, DONE);
    assert Get(Promoted(t, taskCount), DONE) == Moved(t, taskCount, 2);
    assert UpdatedCount(t, taskCount, DONE) == Moved(t, taskCount, 2);
    assert done[DONE] == AfterCount(t, taskCount, DONE);
    forall s: TaskStatus ensures s in done && s in After(t, taskCount) && done[s] == After(t, taskCount)[s] {
      match s
      case NEW =>
      case IN_PROGRESS =>
      case TESTING =>
      case DONE =>
    }
    assert done == After(t, taskCount);
    assert LeftPrefix(t, taskCount, 1) == map[NEW := UntouchedCount(t, taskCount, NEW)];
    assert LeftPrefix(t, taskCount, 2) == map[NEW := UntouchedCount(t, taskCount, NEW),
      IN_PROGRESS := UntouchedCount(t, taskCount, IN_PROGRESS)];
    assert LeftPrefix(t, taskCount, 3) == map[NEW := UntouchedCount(t, taskCount, NEW),
      IN_PROGRESS := UntouchedCount(t, taskCount, IN_PROGRESS), TESTING := UntouchedCount(t, taskCount, TESTING)];
  }

  class TeamTasks {
    /** `person_tasks_`. */
    var personTasks: map<string, TasksInfo>

    constructor ()
      ensures personTasks == map[]
    {
      personTasks := map[];
    }

    /** `at(person)`: throws for a person with no tasks on record. */
    method GetPersonTasksInfo(person: string) returns (r: Result<TasksInfo, ()>)
      ensures r.Err? <==> person !in personTasks
      ensures r.Ok? ==> r.value == personTasks[person]
    {
      if person !in personTasks {
        return Err(());
      }
      return Ok(personTasks[person]);
    }

    /** One more NEW task for `person`; nothing else changes. */
    method AddNewTask(person: string)
      modifies this
      ensures var t := Info(old(personTasks), person);
        personTasks == old(personTasks)[person := t[NEW := Get(t, NEW) + 1]]
    {
      var t := Info(personTasks, person);
      personTasks := personTasks[person := t[NEW := Get(t, NEW) + 1]];
    }

    /**
     * Promotes up to `taskCount` of the person's tasks by one status each,
     * the lowest statuses first, and reports how many were promoted into and
     * left in each status.
     */
    method PerformPersonTasks(person: string, taskCount: int) returns (updated: TasksInfo, untouched: TasksInfo)
      modifies this
      ensures var t := Info(old(personTasks), person);
        personTasks == old(personTasks)[person := After(t, taskCount)] &&
        (forall s :: Get(updated, s) == UpdatedCount(t, taskCount, s)) &&
        (forall s :: Get(untouched, s) == UntouchedCount(t, taskCount, s))
      ensures NoZeros(updated) && NoZeros(untouched) && DONE !in untouched
    {
      var tasks := Info(personTasks, person);
      ghost var t := tasks;
      var up := Promotions(tasks, taskCount);
      var left;
      tasks, up, left := Settle(tasks, taskCount, up);
      tasks := tasks[DONE := Get(tasks, DONE) + Get(up, DONE)];
      SettledCounts(t, taskCount);
      personTasks := personTasks[person := tasks];
      updated := RemoveZeros(up);
      untouched := RemoveZeros(left);
    }
  }

  // What one call of `PerformPersonTasks` promises.

  lemma {:induction false} RemainingBounds(t: TasksInfo, taskCount: int, k: nat)
    requires NonNegative(t) && taskCount >= 0 && k <= 3
    ensures 0 <= Remaining(t, taskCount, k) <= taskCount
    ensures k > 0 ==> 0 <= Moved(t, taskCount, k - 1) <= Get(t, StatusAt(k - 1))
    decreases k
  {
    if k > 0 {
      RemainingBounds(t, taskCount, k - 1);
    }
  }

  /**
   * No status gives away more tasks than it had, and every task the call
   * counts either moved up one status or stayed.
   */
  lemma PromotionBounds(t: TasksInfo, taskCount: int)
    requires NonNegative(t) && taskCount >= 0
    ensures forall s :: s != DONE ==> 0 <= UpdatedCount(t, taskCount, Next(s)) <= Get(t, s)
    ensures forall s :: s != DONE ==> UntouchedCount(t, taskCount, s) + UpdatedCount(t, taskCount, Next(s)) == Get(t, s)
    ensures forall s :: UntouchedCount(t, taskCount, s) >= 0 && UpdatedCount(t, taskCount, s) >= 0
  {
    RemainingBounds(t, taskCount, 1);
    RemainingBounds(t, taskCount, 2);
    RemainingBounds(t, taskCount, 3);
  }

  /** At most `taskCount` tasks are promoted in all, and no count becomes negative. */
  lemma PromotionTotal(t: TasksInfo, taskCount: int)
    requires NonNegative(t) && taskCount >= 0
    ensures Total(Promoted(t, taskCount)) <= taskCount
    ensures NonNegative(After(t, taskCount))
  {
    RemainingBounds(t, taskCount, 3);
    PromotionBounds(t, taskCount);
  }

  /** Promotion moves tasks between statuses and never creates or loses one. */
  lemma {:induction false} PerformKeepsTotal(t: TasksInfo, taskCount: int)
    ensures Total(After(t, taskCount)) == Total(t)
  {
  }

  /** Counts with no zero entries are equal when they read the same everywhere. */
  lemma SameCounts(a: TasksInfo, b: TasksInfo)
    requires NoZeros(a) && NoZeros(b)
    requires forall s :: Get(a, s) == Get(b, s)
    ensures a == b
  {
    forall s ensures s in a <==> s in b {
      assert Get(a, s) == Get(b, s);
    }
    assert a.Keys == b.Keys;
    forall s | s in a ensures a[s] == b[s] {
      assert Get(a, s) == Get(b, s);
    }
  }

  /** Ivan's first promotion in `main`: two of his three new tasks. */
  lemma FirstPromotion()
    ensures forall s :: UpdatedCount(map[NEW := 3], 2, s) == Get(map[IN_PROGRESS := 2], s)
    ensures forall s :: UntouchedCount(map[NEW := 3], 2, s) == Get(map[NEW := 1], s)
    ensures After(map[NEW := 3], 2) == map[NEW := 1, IN_PROGRESS := 2, TESTING := 0, DONE := 0]
  {
    var t := map[NEW := 3];
    assert Moved(t, 2, 0) == 2 && Moved(t, 2, 1) == 0 && Moved(t, 2, 2) == 0;
  }

  /** Ivan's second promotion in `main`: one task each out of NEW and IN_PROGRESS. */
  lemma SecondPromotion()
    ensures var t := map[NEW := 1, IN_PROGRESS := 2, TESTING := 0, DONE := 0];
      (forall s :: UpdatedCount(t, 2, s) == Get(map[IN_PROGRESS := 1, TESTING := 1], s)) &&
      (forall s :: UntouchedCount(t, 2, s) == Get(map[IN_PROGRESS := 1], s))
  {
    var t := map[NEW := 1, IN_PROGRESS := 2, TESTING := 0, DONE := 0];
    assert Moved(t, 2, 0) == 1 && Moved(t, 2, 1) == 1 && Moved(t, 2, 2) == 0;
  }

  /** The session of `main`: Ivan's three new tasks, promoted two at a time. */
  method TestTeamTasks() returns (ilia: Result<TasksInfo, ()>, updated1: TasksInfo, untouched1: TasksInfo,
                                  updated2: TasksInfo, untouched2: TasksInfo)
    ensures ilia == Ok(map[NEW := 1])
    ensures updated1 == map[IN_PROGRESS := 2] && untouched1 == map[NEW := 1]
    ensures updated2 == map[IN_PROGRESS := 1, TESTING := 1] && untouched2 == map[IN_PROGRESS := 1]
  {
    var tasks := new TeamTasks();
    tasks.AddNewTask("Ilia");
    assert "Ivan"[1] != "Ilia"[1];
    for i := 0 to 3
      invariant "Ilia" in tasks.personTasks && tasks.personTasks["Ilia"] == map[NEW := 1]
      invariant Info(tasks.personTasks, "Ivan") == if i == 0 then map[] else map[NEW := i]
    {
      tasks.AddNewTask("Ivan");
    }
    ilia := tasks.GetPersonTasksInfo("Ilia");
    updated1, untouched1 := tasks.PerformPersonTasks("Ivan", 2);
    FirstPromotion();
    SameCounts(updated1, map[IN_PROGRESS := 2]);
    SameCounts(untouched1, map[NEW := 1]);
    updated2, untouched2 := tasks.PerformPersonTasks("Ivan", 2);
    SecondPromotion();
    SameCounts(updated2, map[IN_PROGRESS := 1, TESTING := 1]);
    SameCounts(untouched2, map[IN_PROGRESS := 1]);
  }
}
