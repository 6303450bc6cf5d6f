/**
 Ending, sleeping, waking and waiting, and what holds over every run of the task table.
 */
module TaskRuns {
  import opened Bytes
  import opened TaskModel

  const USER_SLOTS: int := 12

  // ----- ending a task

  // The first task with the pid, or |ts|.
  function FindPid(ts: seq<Task>, pid: nat, i: nat): (k: nat)
    requires i <= |ts|
    ensures i <= k <= |ts| && (k < |ts| ==> ts[k].pid == pid)
    ensures forall j :: i <= j < k ==> ts[j].pid != pid
    decreases |ts| - i
  {
    if i == |ts| || ts[i].pid == pid then i else FindPid(ts, pid, i + 1)
  }

  function End(s: State, i: nat, exit: int, sig: nat): State
    requires i < |s.tasks|
  {
    s.(tasks := s.tasks[i := s.tasks[i].(st := Terminated, exit := exit, sig := sig)])
  }

  // task_terminate_by_pid; ending the current task goes on to schedule().
  function Kill(s: State, pid: nat, exit: int, sig: nat): (State, int)
    requires Ring(s.tasks) && s.cur < |s.tasks|
  {
    var k := FindPid(s.tasks, pid, 0);
    if k == |s.tasks| || k == 0 then (s, -1)
    else if s.tasks[k].st == Terminated then (s, 0)
    else if k == s.cur then (Schedule(End(s, k, exit, sig)), 0)
    else (End(s, k, exit, sig), 0)
  }

  lemma EndKeeps(s: State, i: nat, exit: int, sig: nat)
    requires Inv(s) && 0 < i < |s.tasks|
    ensures MidInv(End(s, i, exit, sig)) && (i != s.cur ==> Inv(End(s, i, exit, sig)))
  {
    hide NoLeaks, Owned;
    EndOwned(s, i, exit, sig);
  }

  lemma EndOwned(s: State, i: nat, exit: int, sig: nat)
    requires Owned(s) && NoLeaks(s) && i < |s.tasks|
    ensures Owned(End(s, i, exit, sig)) && NoLeaks(End(s, i, exit, sig))
  {
    hide NoLeaks, Owned;
    SameOwners(s, End(s, i, exit, sig));
  }

  // ----- sleeping and waking

  // The number of ticks sleep(ms) waits, in 32-bit arithmetic.
  function SleepTicks(ms: nat): (n: nat)
    ensures n >= 1
  {
    if ms * 100 % WORD / 1000 == 0 then 1 else ms * 100 % WORD / 1000
  }

  function PutToSleep(s: State, ms: nat): State
    requires s.cur < |s.tasks|
  {
    s.(tasks := s.tasks[s.cur := s.tasks[s.cur].(st := Blocked, wake := s.ticks + SleepTicks(ms))])
  }

  function Sleep(s: State, ms: nat): State
    requires Ring(s.tasks) && s.cur < |s.tasks|
  {
    if ms == 0 then s else Schedule(PutToSleep(s, ms))
  }

  lemma SleepKeeps(s: State, ms: nat)
    requires Inv(s) && s.cur != 0
    ensures MidInv(PutToSleep(s, ms))
  {
    var s2 := PutToSleep(s, ms);
    hide SleepTicks, NoLeaks, Owned, Pids;
    assert SameButStates(s, s2);
    StatesOnly(s, s2);
  }

  function Woken(t: Task, now: nat): Task {
    if t.st == Blocked && t.wake <= now then t.(st := Ready) else t
  }

  // The loop of timer_handler, from task i on.
  function WakeFrom(ts: seq<Task>, now: nat, i: nat): (us: seq<Task>)
    requires i <= |ts|
    ensures |us| == |ts| && forall k :: 0 <= k < |ts| ==> us[k] == if k < i then ts[k] else Woken(ts[k], now)
    decreases |ts| - i
  {
    if i == |ts| then ts else WakeFrom(ts[i := Woken(ts[i], now)], now, i + 1)
  }

  function WakeAll(s: State): State {
    s.(ticks := s.ticks + 1, tasks := WakeFrom(s.tasks, s.ticks + 1, 0))
  }

  function Tick(s: State): State
    requires Ring(s.tasks) && s.cur < |s.tasks|
  {
    Schedule(WakeAll(s))
  }

  lemma WakeKeeps(s: State)
    requires Inv(s)
    ensures MidInv(WakeAll(s))
  {
    hide NoLeaks, Owned, WakeFrom;
    SameOwners(s, WakeAll(s));
    WakePids(s);
    hide Pids;
  }

  lemma WakePids(s: State)
    requires Pids(s)
    ensures Pids(WakeAll(s))
  {
    var s2 := WakeAll(s);
    assert forall k :: 0 <= k < |s.tasks| ==> s2.tasks[k].pid == s.tasks[k].pid;
  }

  // ----- waiting for a child

  // Whether task i is a child that waitpid(pid) of the current task looks at.
  predicate IsChild(s: State, pid: int, i: nat)
    requires s.cur < |s.tasks| && i < |s.tasks|
  {
    && i != 0 && s.tasks[i].pid != 0
    && s.tasks[i].ppid == s.tasks[s.cur].pid && (pid > 0 ==> pid == s.tasks[i].pid)
  }

  // The first such child, from i on, that has terminated, or |tasks|.
  function FirstZombie(s: State, pid: int, i: nat): (k: nat)
    requires s.cur < |s.tasks| && i <= |s.tasks|
    ensures i <= k <= |s.tasks| && (k < |s.tasks| ==> IsChild(s, pid, k) && s.tasks[k].st == Terminated)
    ensures forall j :: i <= j < k ==> !(IsChild(s, pid, j) && s.tasks[j].st == Terminated)
    decreases |s.tasks| - i
  {
    if i == |s.tasks| || (IsChild(s, pid, i) && s.tasks[i].st == Terminated) then i else FirstZombie(s, pid, i + 1)
  }

  predicate HasChild(s: State, pid: int)
    requires s.cur < |s.tasks|
  {
    exists i :: 0 <= i < |s.tasks| && IsChild(s, pid, i)
  }

  // The status word: the low seven bits of the signal, or the low byte of the exit code above.
  function StatusWord(exit: int, sig: nat): int { if sig != 0 then sig % 128 else exit % 256 * 256 }

  function Reap(s: State, i: nat): State
    requires i < |s.tasks|
  {
    var r := Release(s, i);
    r.(tasks := r.tasks[i := r.tasks[i].(pid := 0, ppid := 0, st := Terminated, exit := 0, sig := 0)],
       reaped := s.reaped + {s.tasks[i].pid})
  }

  // One scan of task_waitpid: the new state, the result and the status.  Result 0 means that
  // there are children, but none has terminated; waitpid then yields and scans again, or
  // returns 0 if it was told not to hang.
  function Wait(s: State, pid: int): (State, int, int)
    requires s.cur < |s.tasks|
  {
    var k := FirstZombie(s, pid, 0);
    if k < |s.tasks| then
      var found: int := s.tasks[k].pid;
      (Reap(s, k), found, StatusWord(s.tasks[k].exit, s.tasks[k].sig))
    else if HasChild(s, pid) then (s, 0, 0)
    else (s, -1, 0)
  }

  lemma ReapKeeps(s: State, i: nat)
    requires Inv(s) && 0 < i < |s.tasks| && s.tasks[i].st == Terminated && s.tasks[i].pid != 0
    ensures Inv(Reap(s, i))
  {
    hide NoLeaks, Owned, Pids;
    ReapOwned(s, i);
    ReapPids(s, i);
    assert OneRunning(Reap(s, i)) && Asleep(Reap(s, i)) && Ring(Reap(s, i).tasks);
  }

  lemma ReapOwned(s: State, i: nat)
    requires Owned(s) && NoLeaks(s) && i < |s.tasks|
    ensures Owned(Reap(s, i)) && NoLeaks(Reap(s, i))
  {
    hide NoLeaks, Owned;
    ReleaseOwned(s, i);
    ReleaseLeaks(s, i);
    SameOwners(Release(s, i), Reap(s, i));
  }

  lemma ReapPids(s: State, i: nat)
    requires Pids(s) && i < |s.tasks| && s.tasks[i].pid != 0
    ensures Pids(Reap(s, i))
  {
    var s2 := Reap(s, i);
    assert forall k :: 0 <= k < |s.tasks| && k != i ==> s2.tasks[k].pid == s.tasks[k].pid;
  }

  // ----- a user address space for the current task

  // The lowest user slot that is not in use, from i on, or USER_SLOTS.
  function LowestSlot(used: set<int>, i: int): (k: int)
    requires 0 <= i <= USER_SLOTS
    ensures i <= k <= USER_SLOTS && (k < USER_SLOTS ==> k !in used)
    ensures forall j :: i <= j < k ==> j in used
    decreases USER_SLOTS - i
  {
    if i == USER_SLOTS || i !in used then i else LowestSlot(used, i + 1)
  }

  // ensure_current_task_user_space; "dir" is the page directory that could be allocated, or 0.
  function Attach(s: State, dir: nat): (State, int)
    requires s.cur < |s.tasks|
  {
    var t := s.tasks[s.cur];
    var slot := LowestSlot(s.slots, 0);
    if t.slot != -1 then (s, 0)
    else if slot == USER_SLOTS || dir == 0 then (s, -1)
    else (s.(tasks := s.tasks[s.cur := t.(slot := slot, dir := dir)],
             slots := s.slots + {slot}, dirs := s.dirs + {dir}), 0)
  }

  lemma AttachKeeps(s: State, dir: nat)
    requires Inv(s) && dir !in s.dirs
    ensures Inv(Attach(s, dir).0)
  {
    hide Owned, NoLeaks, LowestSlot;
    var s2 := Attach(s, dir).0;
    if s2 != s { AttachOwned(s, s2, LowestSlot(s.slots, 0), dir); }
  }

  lemma AttachOwned(s: State, s2: State, slot: int, dir: nat)
    requires Owned(s) && NoLeaks(s) && s.cur < |s.tasks| && s.tasks[s.cur].slot == -1
    requires slot !in s.slots && slot != -1 && dir !in s.dirs && dir != 0
    requires s2 == s.(tasks := s.tasks[s.cur := s.tasks[s.cur].(slot := slot, dir := dir)],
                      slots := s.slots + {slot}, dirs := s.dirs + {dir})
    ensures Owned(s2) && NoLeaks(s2)
  {
    hide NoLeaks;
    assert Holds(s, s.tasks[s.cur]);
    AttachLeaks(s, s2, slot, dir);
    forall k | 0 <= k < |s2.tasks| ensures Holds(s2, s2.tasks[k]) { assert Holds(s, s.tasks[k]); }
    forall j, k | 0 <= j < k < |s2.tasks| ensures Apart(s2.tasks[j], s2.tasks[k]) {
      assert Holds(s, s.tasks[j]) && Holds(s, s.tasks[k]) && Apart(s.tasks[j], s.tasks[k]);
    }
  }

  lemma AttachLeaks(s: State, s2: State, slot: int, dir: nat)
    requires NoLeaks(s) && s.cur < |s.tasks| && s.tasks[s.cur].slot == -1 && s.tasks[s.cur].dir == 0 && 0 !in s.dirs
             && -1 !in s.slots
    requires s2 == s.(tasks := s.tasks[s.cur := s.tasks[s.cur].(slot := slot, dir := dir)],
                      slots := s.slots + {slot}, dirs := s.dirs + {dir})
    ensures NoLeaks(s2)
  {
    var c := s.cur;
    assert s2.tasks[c].slot == slot && s2.tasks[c].dir == dir;
    forall x | x in s2.stacks ensures exists j :: 0 <= j < |s2.tasks| && s2.tasks[j].stack == x {
      var j :| 0 <= j < |s.tasks| && s.tasks[j].stack == x;
      assert s2.tasks[j].stack == x;
    }
    forall x | x in s.dirs ensures exists j :: 0 <= j < |s2.tasks| && s2.tasks[j].dir == x {
      var j :| 0 <= j < |s.tasks| && s.tasks[j].dir == x;
      assert s2.tasks[j].dir == x;
    }
    forall x | x in s.slots ensures exists j :: 0 <= j < |s2.tasks| && s2.tasks[j].slot == x {
      var j :| 0 <= j < |s.tasks| && s.tasks[j].slot == x;
      assert s2.tasks[j].slot == x;
    }
  }

  // ----- runs

  // What can happen to the task table.  "stack" and "dir" are what the heap returned, or 0.
  datatype Event =
    | Yield
    | Creates(stack: nat)
    | Kills(pid: nat, exit: int, sig: nat)
    | Exits(code: int)
    | Sleeps(ms: nat)
    | Ticks
    | Waits(child: int)
    | Attaches(dir: nat)

  // The heap hands out only what is not in use, and the idle task only halts.
  predicate Enabled(s: State, e: Event) {
    match e
    case Creates(stack) => stack !in s.stacks
    case Attaches(dir) => dir !in s.dirs
    case Exits(_) => s.cur != 0
    case Sleeps(_) => s.cur != 0
    case _ => true
  }

  function Next(s: State, e: Event): State
    requires Ring(s.tasks) && s.cur < |s.tasks|
  {
    match e
    case Yield => Schedule(s)
    case Creates(stack) => Create(s, stack).0
    case Kills(pid, exit, sig) => Kill(s, pid, exit, sig).0
    case Exits(code) => Schedule(End(s, s.cur, code, 0))
    case Sleeps(ms) => Sleep(s, ms)
    case Ticks => Tick(s)
    case Waits(child) => Wait(s, child).0
    case Attaches(dir) => Attach(s, dir).0
  }

  // The state in which the event calls schedule(), if it does.
  predicate CallsSchedule(s: State, e: Event)
    requires s.cur < |s.tasks|
  {
    e.Yield? || e.Exits? || e.Ticks? || (e.Sleeps? && e.ms != 0) ||
    (e.Kills? && var k := FindPid(s.tasks, e.pid, 0); k == s.cur != 0 && s.tasks[k].st != Terminated)
  }

  function Before(s: State, e: Event): State
    requires s.cur < |s.tasks|
  {
    match e
    case Kills(_, exit, sig) => End(s, s.cur, exit, sig)
    case Exits(code) => End(s, s.cur, code, 0)
    case Sleeps(ms) => PutToSleep(s, ms)
    case Ticks => WakeAll(s)
    case _ => s
  }

  lemma BeforeKeeps(s: State, e: Event)
    requires Inv(s) && Enabled(s, e) && CallsSchedule(s, e)
    ensures MidInv(Before(s, e)) && Next(s, e) == Schedule(Before(s, e)) && Before(s, e).cur == s.cur
  {
    hide Pids, Owned, NoLeaks, Schedule, Asleep;
    match e
    case Yield =>
    case Kills(pid, exit, sig) => EndKeeps(s, s.cur, exit, sig);
    case Exits(code) => EndKeeps(s, s.cur, code, 0);
    case Sleeps(ms) => SleepKeeps(s, ms);
    case Ticks => WakeKeeps(s);
  }

  lemma KillKeeps(s: State, pid: nat, exit: int, sig: nat)
    requires Inv(s) && !CallsSchedule(s, Kills(pid, exit, sig))
    ensures Inv(Kill(s, pid, exit, sig).0)
  {
    hide Pids, Owned, NoLeaks, Asleep, Schedule, End;
    var k := FindPid(s.tasks, pid, 0);
    if 0 < k < |s.tasks| { EndKeeps(s, k, exit, sig); }
  }

  lemma WaitKeeps(s: State, pid: int)
    requires Inv(s)
    ensures Inv(Wait(s, pid).0)
  {
    hide Pids, Owned, NoLeaks, Asleep, Reap;
    var k := FirstZombie(s, pid, 0);
    if k < |s.tasks| { ReapKeeps(s, k); }
  }

  lemma QuietKeeps(s: State, e: Event)
    requires Inv(s) && Enabled(s, e) && !CallsSchedule(s, e)
    ensures Inv(Next(s, e))
  {
    assert Ring(s.tasks) && s.cur < |s.tasks|;
    hide Inv, Create, Attach, Kill, Wait, Schedule;
    match e
    case Creates(stack) => CreateKeeps(s, stack);
    case Kills(pid, exit, sig) => KillKeeps(s, pid, exit, sig);
    case Waits(child) => WaitKeeps(s, child);
    case Attaches(dir) => AttachKeeps(s, dir);
    case _ =>
  }

  lemma InvBasics(s: State)
    requires Inv(s)
    ensures Ring(s.tasks) && s.cur < |s.tasks|
    ensures 0 !in s.stacks && 0 !in s.dirs && -1 !in s.slots
  {
  }

  /** Every event keeps the invariant. */
  lemma NextKeeps(s: State, e: Event)
    requires Inv(s) && Enabled(s, e)
    ensures Inv(Next(s, e))
  {
    hide Inv, MidInv, Before, Next;
    InvBasics(s);
    if CallsSchedule(s, e) {
      BeforeKeeps(s, e);
      ScheduleKeeps(Before(s, e));
    } else {
      QuietKeeps(s, e);
    }
  }

  ghost predicate Leads(s: State, e: Event, s2: State) {
    Ring(s.tasks) && s.cur < |s.tasks| && Enabled(s, e) && s2 == Next(s, e)
  }

  // ss is a run that es leads through.
  ghost predicate IsRun(ss: seq<State>, es: seq<Event>) {
    && |ss| == |es| + 1 && Inv(ss[0])
    && forall i, j :: 0 <= i && j == i + 1 && j < |ss| ==> Leads(ss[i], es[i], ss[j])
  }

  /** The invariant holds in every state of every run. */
  lemma {:induction false} RunKeeps(ss: seq<State>, es: seq<Event>, i: nat)
    requires IsRun(ss, es) && i < |ss|
    ensures Inv(ss[i])
  {
    hide Inv, Next, Enabled;
    if i > 0 {
      RunKeeps(ss, es, i - 1);
      assert Leads(ss[i - 1], es[i - 1], ss[i]);
      NextKeeps(ss[i - 1], es[i - 1]);
    }
  }

  // ----- bounded waiting

  /** An event brings a task that waits before and after closer, if it calls schedule(). */
  lemma NextAdvances(s: State, e: Event, k: nat)
    requires Inv(s) && Enabled(s, e) && Waiting(s, k) && Waiting(Next(s, e), k)
    ensures if CallsSchedule(s, e) then Ahead(Next(s, e).cur, k) < Ahead(s.cur, k) else Next(s, e).cur == s.cur
  {
    if CallsSchedule(s, e) {
      BeforeWaits(s, e, k);
      hide Before, Next, Pids, Owned, NoLeaks, Asleep;
      BeforeKeeps(s, e);
      ScheduleAdvances(Before(s, e), k);
      ScheduleKeeps(Before(s, e));
    }
  }

  lemma BeforeWaits(s: State, e: Event, k: nat)
    requires Inv(s) && Enabled(s, e) && CallsSchedule(s, e) && Waiting(s, k)
    ensures Waiting(Before(s, e), k)
  {
    hide Pids, Owned, NoLeaks, Asleep;
  }

  // How often a run calls schedule().
  function Calls(ss: seq<State>, es: seq<Event>): nat
    requires |ss| == |es| + 1
  {
    if es == [] then 0
    else
      var n := |es| - 1;
      Calls(ss[..n + 1], es[..n]) + if ss[n].cur < |ss[n].tasks| && CallsSchedule(ss[n], es[n]) then 1 else 0
  }

  lemma RunPrefix(ss: seq<State>, es: seq<Event>)
    requires IsRun(ss, es) && es != []
    ensures IsRun(ss[..|es|], es[..|es| - 1])
  {
    hide Inv, Leads;
    var n := |es| - 1;
    var us, vs := ss[..n + 1], es[..n];
    forall i, j | 0 <= i && j == i + 1 && j < |us| ensures Leads(us[i], vs[i], us[j]) {
      assert us[i] == ss[i] && vs[i] == es[i] && us[j] == ss[j];
    }
  }

  lemma {:induction false} CallsBound(ss: seq<State>, es: seq<Event>, k: nat)
    requires IsRun(ss, es) && forall i :: 0 <= i < |ss| ==> Waiting(ss[i], k)
    ensures Calls(ss, es) + Ahead(ss[|es|].cur, k) <= Ahead(ss[0].cur, k)
  {
    if es != [] {
      hide Inv, Next, Enabled, CallsSchedule, Ahead, Waiting;
      var n := |es| - 1;
      RunPrefix(ss, es);
      RunKeeps(ss, es, n);
      CallsBound(ss[..n + 1], es[..n], k);
      assert Leads(ss[n], es[n], ss[n + 1]);
      assert Waiting(ss[n], k) && Waiting(ss[n + 1], k);
      NextAdvances(ss[n], es[n], k);
    }
  }

  /** Bounded waiting: whatever else happens, a task that stays ready sees fewer than
      MAX_TASKS - 1 calls of schedule(); the next one runs it at the latest. */
  lemma BoundedWaiting(ss: seq<State>, es: seq<Event>, k: nat)
    requires IsRun(ss, es) && forall i :: 0 <= i < |ss| ==> Waiting(ss[i], k)
    ensures Calls(ss, es) < MAX_TASKS - 1
  {
    RunKeeps(ss, es, 0);
    RunKeeps(ss, es, |es|);
    CallsBound(ss, es, k);
    NotCurrent(ss[0], k);
    NotCurrent(ss[|es|], k);
  }

  lemma NotCurrent(s: State, k: nat)
    requires Inv(s) && Waiting(s, k)
    ensures 1 <= Ahead(s.cur, k) < MAX_TASKS
  {
    AheadIsMod(s.cur, k);
  }

  // ----- sleepers

  // What may become of a sleeper: it sleeps on, is killed, or the tick that reaches its
  // deadline wakes it.
  predicate OnTime(s: State, s2: State, e: Event, i: nat) {
    && i < |s.tasks| && i < |s2.tasks|
    && var t := s2.tasks[i];
       || (t.st == Blocked && t.wake == s.tasks[i].wake && t.wake > s2.ticks)
       || t.st == Terminated
       || (e.Ticks? && s.tasks[i].wake == s2.ticks && (t.st == Ready || t.st == Running))
  }

  /** A sleeper is not ready before its deadline, and is ready at the first tick that reaches it. */
  lemma SleepersWakeOnTime(s: State, e: Event, i: nat)
    requires Inv(s) && Enabled(s, e) && i < |s.tasks| && s.tasks[i].st == Blocked
    ensures OnTime(s, Next(s, e), e, i)
  {
    hide Inv, MidInv, Before, Next;
    InvBasics(s);
    if CallsSchedule(s, e) {
      BeforeSleeper(s, e, i);
      BeforeKeeps(s, e);
      ScheduleSleeper(Before(s, e), i);
    } else {
      QuietSleeper(s, e, i);
    }
  }

  lemma QuietSleeper(s: State, e: Event, i: nat)
    requires Inv(s) && Enabled(s, e) && !CallsSchedule(s, e) && i < |s.tasks| && s.tasks[i].st == Blocked
    ensures OnTime(s, Next(s, e), e, i)
  {
    hide Pids, Owned, NoLeaks, Schedule;
    match e
    case Creates(stack) => hide Reap, Attach;
    case Kills(pid, exit, sig) =>
    case Waits(child) =>
    case Attaches(dir) =>
    case _ =>
  }

  lemma BeforeSleeper(s: State, e: Event, i: nat)
    requires Inv(s) && Enabled(s, e) && CallsSchedule(s, e) && i < |s.tasks| && s.tasks[i].st == Blocked
    ensures i < |Before(s, e).tasks|
    ensures var t := Before(s, e).tasks[i];
            || t == s.tasks[i]
            || (e.Ticks? && s.tasks[i].wake == Before(s, e).ticks && t.st == Ready)
  {
    hide Pids, Owned, NoLeaks;
  }

  lemma ScheduleSleeper(s: State, i: nat)
    requires MidInv(s) && i < |s.tasks|
    ensures |Schedule(s).tasks| == |s.tasks| && Schedule(s).ticks == s.ticks
    ensures s.tasks[i].st == Blocked ==> Schedule(s).tasks[i] == s.tasks[i] && s.tasks[i].wake > s.ticks
    ensures s.tasks[i].st == Ready ==> Schedule(s).tasks[i].st == Ready || Schedule(s).tasks[i].st == Running
  {
    hide Pids, Owned, NoLeaks;
    PickIs(s);
  }

  // ----- waitpid

  /** waitpid returns a pid that it has never returned before, of a terminated child of the
      caller, with that child's status. */
  lemma WaitIsNew(s: State, pid: int)
    requires Inv(s) && Wait(s, pid).1 > 0
    ensures var (s2, child, status) := Wait(s, pid);
            && child !in s.reaped && child in s2.reaped
            && (pid > 0 ==> child == pid)
            && exists i :: 0 < i < |s.tasks| && s.tasks[i].pid == child && s.tasks[i].st == Terminated
                 && s.tasks[i].ppid == s.tasks[s.cur].pid && status == StatusWord(s.tasks[i].exit, s.tasks[i].sig)
  {
    hide Owned, NoLeaks, Asleep;
    var k := FirstZombie(s, pid, 0);
    assert s.tasks[k].pid == Wait(s, pid).1;
  }

  /** And once returned, a pid stays so: no later event makes it new again. */
  lemma ReapedGrows(s: State, e: Event)
    requires Inv(s) && Enabled(s, e)
    ensures s.reaped <= Next(s, e).reaped
  {
    hide Pids, Owned, NoLeaks, Asleep;
    if CallsSchedule(s, e) {
      BeforeKeeps(s, e);
    }
  }

  lemma {:induction false} ReapedRun(ss: seq<State>, es: seq<Event>, i: nat, j: nat)
    requires IsRun(ss, es) && i <= j < |ss|
    ensures ss[i].reaped <= ss[j].reaped
    decreases j
  {
    hide Inv, Next, Enabled;
    if i < j {
      ReapedRun(ss, es, i, j - 1);
      RunKeeps(ss, es, j - 1);
      assert Leads(ss[j - 1], es[j - 1], ss[j]);
      ReapedGrows(ss[j - 1], es[j - 1]);
    }
  }

  // The pid that event i of a run returns, if it is a wait that finds a terminated child.
  function Returned(ss: seq<State>, es: seq<Event>, i: nat): int
    requires i < |es| && i < |ss|
  {
    if es[i].Waits? && ss[i].cur < |ss[i].tasks| then Wait(ss[i], es[i].child).1 else 0
  }

  /** Over every run, waitpid returns each child pid at most once. */
  lemma ReturnedOnce(ss: seq<State>, es: seq<Event>, i: nat, j: nat)
    requires IsRun(ss, es) && i < j < |es| && Returned(ss, es, i) > 0 && Returned(ss, es, j) > 0
    ensures Returned(ss, es, i) != Returned(ss, es, j)
  {
    hide Inv, Enabled, Wait;
    RunKeeps(ss, es, i);
    RunKeeps(ss, es, j);
    WaitIsNew(ss[i], es[i].child);
    WaitIsNew(ss[j], es[j].child);
    assert Leads(ss[i], es[i], ss[i + 1]);
    WaitNext(ss[i], es[i]);
    ReapedRun(ss, es, i + 1, j);
  }

  lemma WaitNext(s: State, e: Event)
    requires Ring(s.tasks) && s.cur < |s.tasks| && e.Waits?
    ensures Next(s, e) == Wait(s, e.child).0
  {
  }
}
