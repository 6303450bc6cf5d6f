/**
 The task table: what each operation on it does, the invariant that all of them keep, and the
 bound on how long a ready task waits.
 */
module TaskModel {
  const MAX_TASKS: nat := 16

  datatype Status = Ready | Running | Blocked | Terminated

  // stack and dir are heap addresses; stack 0 is NULL, dir 0 the kernel's page directory, and
  // slot -1 no user slot.  "sig" is the signal that ended the task, or 0.
  datatype Task = Task(pid: nat, ppid: nat, st: Status, next: nat, wake: nat,
                       stack: nat, dir: nat, slot: int, exit: int, sig: nat)

  // Slot 0 is the idle task.  "stacks", "dirs" and "slots" are what is allocated, and "reaped"
  // the pids that waitpid has returned.
  datatype State = State(tasks: seq<Task>, cur: nat, nextPid: nat, ticks: nat,
                         stacks: set<nat>, dirs: set<nat>, slots: set<int>, reaped: set<nat>)

  // ----- the invariant

  // The ring is one cycle over all slots.
  predicate Ring(ts: seq<Task>) {
    2 <= |ts| <= MAX_TASKS && forall i :: 0 <= i < |ts| ==> ts[i].next == if i + 1 == |ts| then 0 else i + 1
  }

  // The current task may be in any state but Ready; no other task is running.
  predicate Switching(s: State) {
    && s.cur < |s.tasks| && s.tasks[s.cur].st != Ready
    && (forall i :: 0 <= i < |s.tasks| && i != s.cur ==> s.tasks[i].st != Running)
    && |s.tasks| > 0 && (s.tasks[0].st == Ready || (s.cur == 0 && s.tasks[0].st == Running))
  }

  predicate OneRunning(s: State) { Switching(s) && s.tasks[s.cur].st == Running }

  // A sleeper's deadline has not been reached.
  predicate Asleep(s: State) {
    forall i :: 0 <= i < |s.tasks| && s.tasks[i].st == Blocked ==> s.tasks[i].wake > s.ticks
  }

  // Pids are unique and new ones were never used; a pid that has been waited for is gone.
  predicate Pids(s: State) {
    && s.nextPid > 0
    && (forall i :: 0 <= i < |s.tasks| ==> s.tasks[i].pid < s.nextPid && s.tasks[i].pid !in s.reaped)
    && (forall i, j :: 0 <= i < j < |s.tasks| && s.tasks[i].pid != 0 ==> s.tasks[i].pid != s.tasks[j].pid)
    && 0 !in s.reaped && forall p :: p in s.reaped ==> p < s.nextPid
  }

  // Everything allocated has exactly one owner, and everything owned is allocated.
  predicate Owned(s: State) {
    && 0 !in s.stacks && 0 !in s.dirs && -1 !in s.slots
    && (forall i :: 0 <= i < |s.tasks| ==> Holds(s, s.tasks[i]))
    && (forall i, j :: 0 <= i < j < |s.tasks| ==> Apart(s.tasks[i], s.tasks[j]))
  }

  predicate Holds(s: State, t: Task) {
    && (t.stack == 0 || t.stack in s.stacks) && (t.dir == 0 || t.dir in s.dirs) && (t.slot == -1 || t.slot in s.slots)
    && (t.slot == -1 <==> t.dir == 0)
  }

  predicate Apart(t: Task, u: Task) {
    (t.stack == 0 || t.stack != u.stack) && (t.dir == 0 || t.dir != u.dir) && (t.slot == -1 || t.slot != u.slot)
  }

  ghost predicate NoLeaks(s: State) {
    && (forall x :: x in s.stacks ==> exists i :: 0 <= i < |s.tasks| && s.tasks[i].stack == x)
    && (forall x :: x in s.dirs ==> exists i :: 0 <= i < |s.tasks| && s.tasks[i].dir == x)
    && (forall x :: x in s.slots ==> exists i :: 0 <= i < |s.tasks| && s.tasks[i].slot == x)
  }

  ghost predicate Inv(s: State) {
    Ring(s.tasks) && OneRunning(s) && Asleep(s) && Pids(s) && Owned(s) && NoLeaks(s)
  }

  // The invariant while the current task is being put aside.
  ghost predicate MidInv(s: State) {
    Ring(s.tasks) && Switching(s) && Asleep(s) && Pids(s) && Owned(s) && NoLeaks(s)
  }

  // Only the states of tasks and the current one differ.
  predicate SameButStates(s: State, s2: State) {
    && |s2.tasks| == |s.tasks| && s2 == s.(tasks := s2.tasks, cur := s2.cur)
    && forall i :: 0 <= i < |s.tasks| ==> s2.tasks[i] == s.tasks[i].(st := s2.tasks[i].st, wake := s2.tasks[i].wake)
  }

  // The tasks hold what they held.
  predicate SameHoldings(s: State, s2: State) {
    && |s2.tasks| == |s.tasks| && s2.stacks == s.stacks && s2.dirs == s.dirs && s2.slots == s.slots
    && (forall i :: 0 <= i < |s.tasks| ==> s2.tasks[i].stack == s.tasks[i].stack)
    && (forall i :: 0 <= i < |s.tasks| ==> s2.tasks[i].dir == s.tasks[i].dir)
    && (forall i :: 0 <= i < |s.tasks| ==> s2.tasks[i].slot == s.tasks[i].slot)
  }

  lemma SameOwners(s: State, s2: State)
    requires SameHoldings(s, s2) && Owned(s) && NoLeaks(s)
    ensures Owned(s2) && NoLeaks(s2)
  {
    SameOwned(s, s2);
    hide Owned;
  }

  lemma SameOwned(s: State, s2: State)
    requires SameHoldings(s, s2) && Owned(s)
    ensures Owned(s2)
  {
    forall k | 0 <= k < |s2.tasks| ensures Holds(s2, s2.tasks[k]) { assert Holds(s, s.tasks[k]); }
    forall j, k | 0 <= j < k < |s2.tasks| ensures Apart(s2.tasks[j], s2.tasks[k]) {
      assert Apart(s.tasks[j], s.tasks[k]);
    }
  }

  lemma StatesOnly(s: State, s2: State)
    requires SameButStates(s, s2) && Ring(s.tasks) && Pids(s) && Owned(s) && NoLeaks(s)
    ensures Ring(s2.tasks) && Pids(s2) && Owned(s2) && NoLeaks(s2)
  {
    assert SameHoldings(s, s2);
    SameOwners(s, s2);
    hide Owned, NoLeaks, SameHoldings;
  }

  // ----- schedule

  // How many slots ahead of the current one a slot is, in the order of the ring.
  function Ahead(cur: nat, i: nat): int { if i > cur then i - cur else i + MAX_TASKS - cur }

  lemma AheadIsMod(cur: nat, i: nat)
    requires cur < MAX_TASKS && i < MAX_TASKS && i != cur
    ensures Ahead(cur, i) == (i - cur) % MAX_TASKS && 1 <= Ahead(cur, i) < MAX_TASKS
  {
  }

  predicate Waiting(s: State, i: nat) { 0 < i < |s.tasks| && s.tasks[i].st == Ready }

  // The search of schedule() through the ring, from slot i to the current one.
  function Search(s: State, i: nat): (r: int)
    requires Ring(s.tasks) && s.cur < |s.tasks| && i < |s.tasks|
    ensures r == -1 || (0 < r < |s.tasks| && s.tasks[r].st == Ready)
    decreases if i <= s.cur then s.cur - i else s.cur + |s.tasks| - i
  {
    if i > 0 && s.tasks[i].st == Ready then i
    else if i == s.cur then -1
    else Search(s, s.tasks[i].next)
  }

  function Pick(s: State): (r: int)
    requires Ring(s.tasks) && s.cur < |s.tasks|
    ensures r == -1 || (0 <= r < |s.tasks| && s.tasks[r].st == Ready)
  {
    var r := Search(s, s.tasks[s.cur].next);
    if r == -1 && s.tasks[0].st == Ready then 0 else r
  }

  lemma {:induction false} SearchIs(s: State, i: nat)
    requires Ring(s.tasks) && Switching(s) && i < |s.tasks|
    ensures Search(s, i) == -1 ==> forall k :: Waiting(s, k) ==> Ahead(s.cur, k) < Ahead(s.cur, i)
    ensures Search(s, i) != -1 ==>
              forall k :: Waiting(s, k) && Ahead(s.cur, k) >= Ahead(s.cur, i) ==>
                Ahead(s.cur, Search(s, i)) <= Ahead(s.cur, k)
    decreases if i <= s.cur then s.cur - i else s.cur + |s.tasks| - i
  {
    if !(i > 0 && s.tasks[i].st == Ready) && i != s.cur {
      SearchIs(s, s.tasks[i].next);
    }
  }

  /** schedule() picks the ready task next in the ring, the idle task only if no other task is
      ready, and none only if not even the idle task is. */
  lemma PickIs(s: State)
    requires Ring(s.tasks) && Switching(s)
    ensures forall k :: Waiting(s, k) ==> Pick(s) > 0 && Ahead(s.cur, Pick(s)) <= Ahead(s.cur, k)
    ensures Pick(s) == -1 ==> s.cur == 0
    ensures Pick(s) != s.cur
  {
    var first := s.tasks[s.cur].next;
    SearchIs(s, first);
    assert forall k: nat :: Waiting(s, k) ==> Ahead(s.cur, k) >= Ahead(s.cur, first);
  }

  function SetState(ts: seq<Task>, i: nat, st: Status): (r: seq<Task>)
    requires i < |ts|
    ensures |r| == |ts| && r[i] == ts[i].(st := st) && forall k :: 0 <= k < |ts| && k != i ==> r[k] == ts[k]
  {
    ts[i := ts[i].(st := st)]
  }

  // When no task is ready, the processor halts and tries again: nothing changes.
  function Schedule(s: State): State
    requires Ring(s.tasks) && s.cur < |s.tasks|
  {
    var j := Pick(s);
    if j == -1 then s
    else
      var ts := SetState(s.tasks, j, Running);
      var us := if ts[s.cur].st == Running then SetState(ts, s.cur, Ready) else ts;
      s.(tasks := us, cur := j)
  }

  lemma ScheduleKeeps(s: State)
    requires MidInv(s)
    ensures Inv(Schedule(s)) && SameButStates(s, Schedule(s))
  {
    hide Pids, Owned, NoLeaks, SameButStates, Schedule;
    ScheduleStates(s);
    StatesOnly(s, Schedule(s));
  }

  lemma ScheduleStates(s: State)
    requires Ring(s.tasks) && Switching(s) && Asleep(s)
    ensures OneRunning(Schedule(s)) && Asleep(Schedule(s)) && SameButStates(s, Schedule(s))
  {
    PickIs(s);
  }

  /** A task that waits comes strictly closer to the current slot with every schedule(). */
  lemma ScheduleAdvances(s: State, i: nat)
    requires MidInv(s) && Waiting(s, i)
    ensures Schedule(s).cur == i || (Waiting(Schedule(s), i) && Ahead(Schedule(s).cur, i) < Ahead(s.cur, i))
  {
    PickIs(s);
  }

  // ----- resources

  // task_release_resources.
  function Release(s: State, i: nat): State
    requires i < |s.tasks|
  {
    var t := s.tasks[i];
    s.(tasks := s.tasks[i := t.(stack := 0, dir := 0, slot := -1)],
       stacks := s.stacks - {t.stack}, dirs := s.dirs - {t.dir}, slots := s.slots - {t.slot})
  }

  /** What is released was allocated and belonged to no other task. */
  lemma ReleaseOwned(s: State, i: nat)
    requires Owned(s) && i < |s.tasks|
    ensures Owned(Release(s, i))
  {
    var s2 := Release(s, i);
    forall j | 0 <= j < |s.tasks| ensures Holds(s2, s2.tasks[j]) {
      if j < i { assert Apart(s.tasks[j], s.tasks[i]); }
      if j > i { assert Apart(s.tasks[i], s.tasks[j]); }
      assert Holds(s, s.tasks[j]);
    }
    assert forall j, k :: 0 <= j < k < |s.tasks| ==> Apart(s.tasks[j], s.tasks[k]);
  }

  lemma ReleaseLeaks(s: State, i: nat)
    requires NoLeaks(s) && i < |s.tasks|
    ensures NoLeaks(Release(s, i))
  {
    var s2 := Release(s, i);
    forall x | x in s2.stacks ensures exists j :: 0 <= j < |s2.tasks| && s2.tasks[j].stack == x {
      var j :| 0 <= j < |s.tasks| && s.tasks[j].stack == x;
      assert s2.tasks[j].stack == x;
    }
    forall x | x in s2.dirs ensures exists j :: 0 <= j < |s2.tasks| && s2.tasks[j].dir == x {
      var j :| 0 <= j < |s.tasks| && s.tasks[j].dir == x;
      assert s2.tasks[j].dir == x;
    }
    forall x | x in s2.slots ensures exists j :: 0 <= j < |s2.tasks| && s2.tasks[j].slot == x {
      var j :| 0 <= j < |s.tasks| && s.tasks[j].slot == x;
      assert s2.tasks[j].slot == x;
    }
  }

  // ----- task_create

  // The first terminated slot, or |ts|.
  function FirstTerminated(ts: seq<Task>, i: nat): (k: nat)
    requires i <= |ts|
    ensures i <= k <= |ts| && (k < |ts| ==> ts[k].st == Terminated)
    ensures forall j :: i <= j < k ==> ts[j].st != Terminated
    decreases |ts| - i
  {
    if i == |ts| || ts[i].st == Terminated then i else FirstTerminated(ts, i + 1)
  }

  function NewTask(s: State, next: nat, stack: nat): Task
    requires s.cur < |s.tasks|
  {
    Task(s.nextPid, s.tasks[s.cur].pid, Ready, next, 0, stack, 0, -1, 0, 0)
  }

  // "stack" is what kmalloc returned; the second result is the pid, or -1.
  function Create(s: State, stack: nat): (State, int)
    requires Ring(s.tasks) && s.cur < |s.tasks|
  {
    var k := FirstTerminated(s.tasks, 0);
    var pid: int := s.nextPid;
    if stack == 0 || (k == |s.tasks| && |s.tasks| >= MAX_TASKS) then (s, -1)
    else if k < |s.tasks| then
      var r := Release(s, k);
      (r.(tasks := r.tasks[k := NewTask(s, s.tasks[k].next, stack)], nextPid := s.nextPid + 1,
          stacks := r.stacks + {stack}),
       pid)
    else
      var n := |s.tasks|;
      var linked := s.tasks[n - 1 := s.tasks[n - 1].(next := n)];
      (s.(tasks := linked + [NewTask(s, 0, stack)], nextPid := s.nextPid + 1, stacks := s.stacks + {stack}), pid)
  }

  // Task i gets a new pid and a new stack, and holds nothing else.
  predicate Fills(s: State, s2: State, i: nat, stack: nat) {
    && i < |s2.tasks| && |s.tasks| <= |s2.tasks| && s2.cur == s.cur && s2.ticks == s.ticks && s2.reaped == s.reaped
    && s2.nextPid == s.nextPid + 1 && s2.stacks == s.stacks + {stack} && s2.dirs == s.dirs && s2.slots == s.slots
    && s2.tasks[i].pid == s.nextPid && s2.tasks[i].stack == stack && s2.tasks[i].dir == 0 && s2.tasks[i].slot == -1
    && s2.tasks[i].st == Ready && (i < |s.tasks| ==> Bare(s.tasks[i]) && |s2.tasks| == |s.tasks|)
    && (i >= |s.tasks| ==> i == |s.tasks| && |s2.tasks| == |s.tasks| + 1)
    && forall k :: 0 <= k < |s.tasks| && k != i ==> s2.tasks[k] == s.tasks[k].(next := s2.tasks[k].next)
  }

  predicate Bare(t: Task) { t.stack == 0 && t.dir == 0 && t.slot == -1 }

  lemma FillPids(s: State, s2: State, i: nat, stack: nat)
    requires Pids(s) && Fills(s, s2, i, stack)
    ensures Pids(s2)
  {
    assert forall k :: 0 <= k < |s.tasks| && k != i ==> s2.tasks[k].pid == s.tasks[k].pid;
  }

  lemma FillOwned(s: State, s2: State, i: nat, stack: nat)
    requires Owned(s) && Fills(s, s2, i, stack) && stack != 0 && stack !in s.stacks
    ensures Owned(s2)
  {
    forall k | 0 <= k < |s2.tasks| ensures Holds(s2, s2.tasks[k]) {
      if k != i { assert Holds(s, s.tasks[k]); }
    }
    forall j, k | 0 <= j < k < |s2.tasks| ensures Apart(s2.tasks[j], s2.tasks[k]) {
      if j != i { assert Holds(s, s.tasks[j]); }
      if k != i { assert Holds(s, s.tasks[k]); }
      if j != i && k != i { assert Apart(s.tasks[j], s.tasks[k]); }
    }
  }

  lemma FillLeaks(s: State, s2: State, i: nat, stack: nat)
    requires NoLeaks(s) && Fills(s, s2, i, stack) && 0 !in s.stacks && 0 !in s.dirs && -1 !in s.slots
    ensures NoLeaks(s2)
  {
    forall x | x in s2.stacks ensures exists j :: 0 <= j < |s2.tasks| && s2.tasks[j].stack == x {
      if x in s.stacks {
        var j :| 0 <= j < |s.tasks| && s.tasks[j].stack == x;
        assert s2.tasks[j].stack == x;
      }
    }
    forall x | x in s2.dirs ensures exists j :: 0 <= j < |s2.tasks| && s2.tasks[j].dir == x {
      var j :| 0 <= j < |s.tasks| && s.tasks[j].dir == x;
      assert s2.tasks[j].dir == x;
    }
    forall x | x in s2.slots ensures exists j :: 0 <= j < |s2.tasks| && s2.tasks[j].slot == x {
      var j :| 0 <= j < |s.tasks| && s.tasks[j].slot == x;
      assert s2.tasks[j].slot == x;
    }
  }

  lemma FillStates(s: State, s2: State, i: nat, stack: nat)
    requires OneRunning(s) && Asleep(s) && Fills(s, s2, i, stack) && i != s.cur && i != 0
    ensures OneRunning(s2) && Asleep(s2)
  {
  }

  lemma CreateKeeps(s: State, stack: nat)
    requires Inv(s) && stack !in s.stacks
    ensures Inv(Create(s, stack).0)
  {
    hide NoLeaks, Pids, Owned, Fills, Asleep;
    var k := FirstTerminated(s.tasks, 0);
    var s2 := Create(s, stack).0;
    if s2 != s {
      if k < |s.tasks| {
        var r := Release(s, k);
        ReleaseOwned(s, k);
        ReleaseLeaks(s, k);
        ReleaseRest(s, k);
        CreateFills(s, r, k, stack);
        CreateInv(r, s2, k, stack);
      } else {
        AppendFills(s, stack);
        CreateInv(s, s2, |s.tasks|, stack);
      }
    }
  }

  lemma CreateInv(r: State, s2: State, i: nat, stack: nat)
    requires Pids(r) && Owned(r) && NoLeaks(r) && OneRunning(r) && Asleep(r) && Fills(r, s2, i, stack)
    requires stack != 0 && stack !in r.stacks && i != r.cur && i != 0 && Ring(s2.tasks)
    ensures Inv(s2)
  {
    FillPids(r, s2, i, stack);
    FillOwned(r, s2, i, stack);
    FillStates(r, s2, i, stack);
    hide Pids, OneRunning, Asleep, Ring;
    FillLeaks(r, s2, i, stack);
  }

  lemma ReleaseRest(s: State, k: nat)
    requires Pids(s) && OneRunning(s) && Asleep(s) && Ring(s.tasks) && k < |s.tasks|
    ensures Pids(Release(s, k)) && OneRunning(Release(s, k)) && Asleep(Release(s, k)) && Ring(Release(s, k).tasks)
  {
  }

  lemma CreateFills(s: State, r: State, k: nat, stack: nat)
    requires Ring(s.tasks) && s.cur < |s.tasks| && k < |s.tasks| && k == FirstTerminated(s.tasks, 0)
             && r == Release(s, k) && stack != 0
    ensures Fills(r, Create(s, stack).0, k, stack) && Ring(Create(s, stack).0.tasks)
  {
  }

  lemma AppendFills(s: State, stack: nat)
    requires Ring(s.tasks) && s.cur < |s.tasks| && |s.tasks| == FirstTerminated(s.tasks, 0) && stack != 0
             && |s.tasks| < MAX_TASKS
    ensures Fills(s, Create(s, stack).0, |s.tasks|, stack) && Ring(Create(s, stack).0.tasks)
  {
  }
}
