/**
 What the events do to the fields of the tasks, one event at a time and over every run.
 */
module TaskFields {
  import opened Bytes
  import opened TaskModel
  import opened TaskRuns

  // ----- schedule()

  /** schedule() makes a ready task the running one, and the one that was running a ready one.  All
      else stays: a current task that sleeps or has ended goes on sleeping, or stays ended. */
  lemma ScheduleChanges(s: State)
    requires MidInv(s)
    ensures var s2 := Schedule(s);
            && |s2.tasks| == |s.tasks| && s2 == s.(tasks := s2.tasks, cur := s2.cur) && s2.cur < |s.tasks|
            && (s2.cur == s.cur ==> s2 == s && s.cur == 0 && s.tasks[0].st == Running)
            && (s2.cur != s.cur ==>
                  && s.tasks[s2.cur].st == Ready && s2.tasks[s2.cur] == s.tasks[s2.cur].(st := Running)
                  && s2.tasks[s.cur] ==
                     if s.tasks[s.cur].st == Running then s.tasks[s.cur].(st := Ready) else s.tasks[s.cur])
            && forall i :: 0 <= i < |s.tasks| && i != s.cur && i != s2.cur ==> s2.tasks[i] == s.tasks[i]
  {
    hide Pids, Owned, NoLeaks, Asleep;
    PickIs(s);
  }

  /** In particular no task that has ended is touched. */
  lemma ScheduleSparesEnded(s: State, k: nat)
    requires MidInv(s) && k < |s.tasks| && s.tasks[k].st == Terminated
    ensures |Schedule(s).tasks| == |s.tasks| && Schedule(s).tasks[k] == s.tasks[k]
  {
    ScheduleChanges(s);
    hide Schedule, Pids, Owned, NoLeaks, Asleep;
  }

  // ----- ending

  // Task i has ended with this exit code and signal; otherwise it is as it was.
  predicate Ended(s: State, s2: State, i: nat, exit: int, sig: nat) {
    i < |s.tasks| && i < |s2.tasks| && s2.tasks[i] == s.tasks[i].(st := Terminated, exit := exit, sig := sig)
  }

  // Apart from task i, and from who is running, nothing has changed.
  predicate OthersAsBefore(s: State, s2: State, i: nat) {
    && |s2.tasks| == |s.tasks| && s2 == s.(tasks := s2.tasks, cur := s2.cur)
    && forall j :: 0 <= j < |s.tasks| && j != i ==>
         || s2.tasks[j] == s.tasks[j]
         || (s.cur == i && j == s2.cur && s.tasks[j].st == Ready && s2.tasks[j] == s.tasks[j].(st := Running))
  }

  /** task_exit: the current task has ended, and another one is running. */
  lemma ExitEnds(s: State, code: int)
    requires Inv(s) && s.cur != 0
    ensures var s2 := Next(s, Exits(code));
            && Ended(s, s2, s.cur, code, 0) && OthersAsBefore(s, s2, s.cur)
            && s2.cur != s.cur && s2.cur < |s.tasks| && s2.tasks[s2.cur].st == Running
  {
    EndKeeps(s, s.cur, code, 0);
    ScheduleChanges(End(s, s.cur, code, 0));
    hide Schedule, Pids, Owned, NoLeaks, Asleep;
  }

  // The first task with the pid.
  predicate Has(s: State, k: nat, pid: nat) {
    k < |s.tasks| && s.tasks[k].pid == pid && forall j :: 0 <= j < k ==> s.tasks[j].pid != pid
  }

  /** task_terminate_by_pid: the task with the pid has ended, with this exit code and signal unless
      it had before.  It fails, and changes nothing, iff there is none or it is the idle task. */
  lemma KillEnds(s: State, pid: nat, exit: int, sig: nat)
    requires Inv(s)
    ensures var (s2, r) := Kill(s, pid, exit, sig);
            && (r == 0 || r == -1)
            && (r == 0 <==> exists k: nat :: 0 < k && Has(s, k, pid))
            && (r == -1 ==> s2 == s)
            && forall k: nat :: 0 < k && Has(s, k, pid) ==>
                 if s.tasks[k].st == Terminated then s2 == s
                 else Ended(s, s2, k, exit, sig) && OthersAsBefore(s, s2, k)
  {
    var k := FindPid(s.tasks, pid, 0);
    assert k < |s.tasks| ==> Has(s, k, pid);
    assert forall j: nat :: Has(s, j, pid) ==> j == k;
    if 0 < k < |s.tasks| && s.tasks[k].st != Terminated && k == s.cur {
      EndKeeps(s, k, exit, sig);
      ScheduleChanges(End(s, k, exit, sig));
    }
    hide Schedule, Pids, Owned, NoLeaks, Asleep;
  }

  // ----- a task that has ended stays ended

  // No task has the pid, and none ever will.
  predicate Gone(s: State, p: nat) {
    p != 0 && p < s.nextPid && forall i :: 0 <= i < |s.tasks| ==> s.tasks[i].pid != p
  }

  /** An event leaves a task that has ended as it is, unless waitpid of its parent takes it or
      create uses its place for another task: then its pid is gone. */
  lemma EndedStep(s: State, e: Event, k: nat)
    requires Inv(s) && Enabled(s, e) && k < |s.tasks| && s.tasks[k].st == Terminated && s.tasks[k].pid != 0
    ensures var s2 := Next(s, e);
            || (k < |s2.tasks| && s2.tasks[k] == s.tasks[k])
            || (Gone(s2, s.tasks[k].pid) && (e.Creates? || (e.Waits? && Wait(s, e.child).1 == s.tasks[k].pid)))
  {
    InvBasics(s);
    if CallsSchedule(s, e) {
      BeforeKeeps(s, e);
      BeforeSpares(s, e, k);
      ScheduleSparesEnded(Before(s, e), k);
    } else {
      QuietEnded(s, e, k);
    }
  }

  lemma BeforeSpares(s: State, e: Event, k: nat)
    requires Inv(s) && Enabled(s, e) && CallsSchedule(s, e) && k < |s.tasks| && s.tasks[k].st == Terminated
    ensures k < |Before(s, e).tasks| && Before(s, e).tasks[k] == s.tasks[k]
  {
    hide Pids, Owned, NoLeaks, Asleep;
  }

  lemma QuietEnded(s: State, e: Event, k: nat)
    requires Inv(s) && Enabled(s, e) && !CallsSchedule(s, e)
    requires k < |s.tasks| && s.tasks[k].st == Terminated && s.tasks[k].pid != 0
    ensures var s2 := Next(s, e);
            || (k < |s2.tasks| && s2.tasks[k] == s.tasks[k])
            || (Gone(s2, s.tasks[k].pid) && (e.Creates? || (e.Waits? && Wait(s, e.child).1 == s.tasks[k].pid)))
  {
    hide Owned, NoLeaks, Schedule, Asleep;
    match e
    case Creates(stack) =>
      hide Reap, Attach, Wait;
      PidOnce(s, k);
    case Kills(pid, exit, sig) =>
    case Waits(child) =>
      PidOnce(s, k);
    case Attaches(dir) =>
    case _ =>
  }

  lemma PidOnce(s: State, k: nat)
    requires Pids(s) && k < |s.tasks| && s.tasks[k].pid != 0
    ensures forall i :: 0 <= i < |s.tasks| && i != k ==> s.tasks[i].pid != s.tasks[k].pid
  {
  }

  lemma GoneStep(s: State, e: Event, p: nat)
    requires Inv(s) && Enabled(s, e) && Gone(s, p)
    ensures Gone(Next(s, e), p)
  {
    InvBasics(s);
    hide Owned, NoLeaks, Asleep;
    if CallsSchedule(s, e) {
      BeforeKeeps(s, e);
      ScheduleChanges(Before(s, e));
      GoneBefore(s, e, p);
      hide Schedule, Before, Next;
    } else {
      GoneQuiet(s, e, p);
    }
  }

  lemma GoneBefore(s: State, e: Event, p: nat)
    requires Inv(s) && Enabled(s, e) && CallsSchedule(s, e) && Gone(s, p)
    ensures Gone(Before(s, e), p)
  {
    hide Pids, Owned, NoLeaks, Asleep;
  }

  lemma GoneQuiet(s: State, e: Event, p: nat)
    requires Inv(s) && Enabled(s, e) && !CallsSchedule(s, e) && Gone(s, p)
    ensures Gone(Next(s, e), p)
  {
    hide Pids, Owned, NoLeaks, Asleep, Schedule;
    match e
    case Creates(stack) => hide Reap, Attach;
    case Kills(pid, exit, sig) =>
    case Waits(child) =>
    case Attaches(dir) =>
    case _ =>
  }

  /** Over every run: a task that has ended never runs again.  As long as any task has its pid, that
      is the task as it ended, with its exit code and signal. */
  lemma {:induction false} EndedForGood(ss: seq<State>, es: seq<Event>, i: nat, j: nat, k: nat)
    requires IsRun(ss, es) && i <= j < |ss|
    requires k < |ss[i].tasks| && ss[i].tasks[k].st == Terminated && ss[i].tasks[k].pid != 0
    ensures (k < |ss[j].tasks| && ss[j].tasks[k] == ss[i].tasks[k]) || Gone(ss[j], ss[i].tasks[k].pid)
    decreases j
  {
    hide Inv, Next, Enabled, Gone;
    if i < j {
      EndedForGood(ss, es, i, j - 1, k);
      RunKeeps(ss, es, j - 1);
      assert Leads(ss[j - 1], es[j - 1], ss[j]);
      if k < |ss[j - 1].tasks| && ss[j - 1].tasks[k] == ss[i].tasks[k] {
        EndedStep(ss[j - 1], es[j - 1], k);
      } else {
        GoneStep(ss[j - 1], es[j - 1], ss[i].tasks[k].pid);
      }
    }
  }

  // ----- creating

  // A new task, of the current one's children, ready to run, with its stack and nothing else.
  predicate Child(s: State, t: Task, stack: nat) {
    && s.cur < |s.tasks| && t.pid == s.nextPid && t.ppid == s.tasks[s.cur].pid && t.st == Ready && t.wake == 0
    && t.stack == stack && t.dir == 0 && t.slot == -1 && t.exit == 0 && t.sig == 0
  }

  /** task_create: a new child of the current task, in the place of a task that has ended or in a new
      place; no other task has changed but for its link.  It fails iff there is no stack or no
      place, and then nothing has changed. */
  lemma CreateMakes(s: State, stack: nat)
    requires Inv(s)
    ensures var (s2, pid) := Create(s, stack);
            && (pid == -1 || pid == s.nextPid)
            && (pid == -1 <==> stack == 0 || (|s.tasks| == MAX_TASKS && forall i :: 0 <= i < |s.tasks| ==>
                                                                           s.tasks[i].st != Terminated))
            && (pid == -1 ==> s2 == s)
            && (pid != -1 ==> exists k: nat :: CreatedAt(s, s2, k, stack))
  {
    hide Pids, Owned, NoLeaks, Asleep, OneRunning;
    InvBasics(s);
    var k := FirstTerminated(s.tasks, 0);
    var (s2, pid) := Create(s, stack);
    if pid != -1 { assert CreatedAt(s, s2, k, stack); }
  }

  predicate CreatedAt(s: State, s2: State, k: nat, stack: nat) {
    && k < |s2.tasks| && Child(s, s2.tasks[k], stack) && s2.cur == s.cur && s2.nextPid == s.nextPid + 1
    && (if k < |s.tasks| then |s2.tasks| == |s.tasks| && s.tasks[k].st == Terminated
        else k == |s.tasks| && |s2.tasks| == k + 1)
    && forall i :: 0 <= i < |s.tasks| && i != k ==> s2.tasks[i] == s.tasks[i].(next := s2.tasks[i].next)
  }

  // ----- waiting

  // What a program makes of a status word.
  function ExitStatus(status: int): int { status / 0x100 % 0x100 }
  function TermSignal(status: int): int { status % 0x80 }

  /** The status word tells the exit code, as a byte, or the signal that ended the task. */
  lemma StatusReads(exit: int, sig: nat)
    ensures var w := StatusWord(exit, sig);
            && 0 <= w < 0x1_0000
            && (sig == 0 ==> ExitStatus(w) == exit % 0x100 && TermSignal(w) == 0 && w % 0x100 == 0)
            && (sig != 0 ==> TermSignal(w) == sig % 0x80 && ExitStatus(w) == 0)
  {
  }

  // Task i is a child of the current task that waitpid(pid) asks for.
  predicate AskedFor(s: State, pid: int, i: nat) {
    && s.cur < |s.tasks| && 0 < i < |s.tasks| && s.tasks[i].pid != 0 && s.tasks[i].ppid == s.tasks[s.cur].pid
    && (pid <= 0 || s.tasks[i].pid == pid)
  }

  /** One scan of waitpid: it takes a child that has ended, if there is one; else the result is 0
      if there is a child, and -1 if there is none, and nothing changes.  A child that is taken
      loses its pid and all that it holds, and no other task changes. */
  lemma WaitTakes(s: State, pid: int)
    requires Inv(s)
    ensures var (s2, r, status) := Wait(s, pid);
            && (r > 0 <==> exists i: nat :: AskedFor(s, pid, i) && s.tasks[i].st == Terminated)
            && (r == 0 <==> (exists i: nat :: AskedFor(s, pid, i)) &&
                            forall i: nat :: AskedFor(s, pid, i) ==> s.tasks[i].st != Terminated)
            && (r == -1 <==> forall i: nat :: !AskedFor(s, pid, i))
            && (r <= 0 ==> s2 == s && status == 0)
            && (r > 0 ==> exists k: nat :: Taken(s, s2, pid, k, r, status))
  {
    hide Owned, NoLeaks, Asleep;
    var k := FirstZombie(s, pid, 0);
    assert forall i: nat :: AskedFor(s, pid, i) <==> i < |s.tasks| && IsChild(s, pid, i);
    if k < |s.tasks| {
      var (s2, r, status) := Wait(s, pid);
      assert Taken(s, s2, pid, k, r, status);
    }
  }

  predicate Taken(s: State, s2: State, pid: int, k: nat, r: int, status: int) {
    && AskedFor(s, pid, k) && s.tasks[k].st == Terminated && r == s.tasks[k].pid && |s2.tasks| == |s.tasks|
    && s2.cur == s.cur
    && status == StatusWord(s.tasks[k].exit, s.tasks[k].sig)
    && s2.tasks[k] == Task(0, 0, Terminated, s.tasks[k].next, s.tasks[k].wake, 0, 0, -1, 0, 0)
    && forall i :: 0 <= i < |s.tasks| && i != k ==> s2.tasks[i] == s.tasks[i]
  }

  /** A child that is created, killed and waited for by its pid is returned, with the status that it
      was killed with. */
  lemma ChildStatus(s: State, stack: nat, exit: int, sig: nat)
    requires Inv(s) && stack !in s.stacks && Create(s, stack).1 > 0
    ensures var (s1, pid) := Create(s, stack);
            && Inv(s1) && Inv(Kill(s1, pid, exit, sig).0)
            && Wait(Kill(s1, pid, exit, sig).0, pid).1 == pid
            && Wait(Kill(s1, pid, exit, sig).0, pid).2 == StatusWord(exit, sig)
  {
    hide Owned, NoLeaks, Asleep, Create, Kill, Wait, StatusWord;
    CreateKeeps(s, stack);
    var (s1, pid) := Create(s, stack);
    CreateMakes(s, stack);
    var k: nat :| CreatedAt(s, s1, k, stack);
    KilledChild(s1, k, pid, exit, sig);
  }

  lemma KilledChild(s: State, k: nat, pid: nat, exit: int, sig: nat)
    requires Inv(s) && s.cur < |s.tasks| && 0 < k < |s.tasks| && k != s.cur && s.tasks[k].pid == pid != 0
    requires s.tasks[k].ppid == s.tasks[s.cur].pid && s.tasks[k].st == Ready
    ensures var s2 := Kill(s, pid, exit, sig).0;
            Inv(s2) && Wait(s2, pid).1 == pid && Wait(s2, pid).2 == StatusWord(exit, sig)
  {
    KillKeeps(s, pid, exit, sig);
    PidOnce(s, k);
    assert Has(s, k, pid);
    KillEnds(s, pid, exit, sig);
    var s2 := Kill(s, pid, exit, sig).0;
    assert Ended(s, s2, k, exit, sig) && s2.cur == s.cur;
    hide Owned, NoLeaks, Asleep, Kill, Wait, StatusWord;
    assert AskedFor(s2, pid, k);
    WaitTakes(s2, pid);
    var (s3, r, status) := Wait(s2, pid);
    var j: nat :| Taken(s2, s3, pid, j, r, status);
    PidOnce(s2, k);
  }

  // ----- sleeping and waking

  /** sleep(ms): a tenth of a tick for every millisecond, at least one tick, as long as the product
      fits 32 bits. */
  lemma SleepLength(ms: nat)
    ensures ms * 100 < WORD ==> SleepTicks(ms) == if ms < 10 then 1 else ms / 10
  {
  }

  /** The caller sleeps until that many ticks have passed, and another task runs. */
  lemma SleepSets(s: State, ms: nat)
    requires Inv(s) && s.cur != 0 && ms > 0
    ensures var s2 := Next(s, Sleeps(ms));
            && |s2.tasks| == |s.tasks|
            && s2.tasks[s.cur] == s.tasks[s.cur].(st := Blocked, wake := s.ticks + SleepTicks(ms))
            && OthersAsBefore(s, s2, s.cur) && s2.cur != s.cur && s2.ticks == s.ticks
  {
    SleepKeeps(s, ms);
    ScheduleChanges(PutToSleep(s, ms));
    hide Schedule, Pids, Owned, NoLeaks, Asleep, SleepTicks;
  }

  /** A tick wakes every sleeper whose time has come, and no other, and then calls schedule(). */
  lemma TickWakes(s: State, i: nat)
    requires Inv(s) && i < |s.tasks| && i != s.cur
    ensures var s2 := Next(s, Ticks);
            && s2.ticks == s.ticks + 1 && |s2.tasks| == |s.tasks|
            && s2.tasks[i] ==
               if s2.cur == i then s.tasks[i].(st := Running)
               else if s.tasks[i].st == Blocked && s.tasks[i].wake <= s.ticks + 1 then s.tasks[i].(st := Ready)
               else s.tasks[i]
  {
    hide Schedule, Pids, Owned, NoLeaks, Asleep, WakeFrom, Switching, Ring;
    InvBasics(s);
    WakeKeeps(s);
    var s1 := WakeAll(s);
    assert s1.tasks[i] == Woken(s.tasks[i], s.ticks + 1);
    hide WakeAll;
    ScheduleChanges(s1);
  }

  // ----- a user address space

  /** ensure_current_task_user_space: the current task gets the lowest user slot that is free and a
      page directory, unless it has them; it fails, without change, iff there is none. */
  lemma AttachGives(s: State, dir: nat)
    requires Inv(s)
    ensures var (s2, r) := Attach(s, dir); var t := s.tasks[s.cur];
            && (r == 0 || r == -1)
            && (r == -1 <==> t.slot == -1 && (dir == 0 || forall i :: 0 <= i < 12 ==> i in s.slots))
            && (r == -1 || t.slot != -1 ==> s2 == s)
            && (r == 0 && t.slot == -1 ==>
                  var slot := s2.tasks[s.cur].slot;
                  && 0 <= slot < 12 && slot !in s.slots && (forall i :: 0 <= i < slot ==> i in s.slots)
                  && s2 == s.(tasks := s.tasks[s.cur := t.(slot := slot, dir := dir)],
                              slots := s.slots + {slot}, dirs := s.dirs + {dir}))
  {
    hide Pids, Owned, NoLeaks, Asleep;
  }
}
