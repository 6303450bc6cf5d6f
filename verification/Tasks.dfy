/**
 The task table as the kernel keeps it, with the loops that search and update it.
 */
module Tasks {
  import opened Bytes
  import opened TaskModel
  import opened TaskRuns
  import opened TaskFields

  class TaskTable {
    var tasks: seq<Task>
    var current: nat
    var nextPid: nat
    var ticks: nat
    var slotUsed: set<int>
    ghost var stacks: set<nat>
    ghost var dirs: set<nat>
    ghost var reaped: set<nat>

    ghost function View(): State
      reads this
    {
      State(tasks, current, nextPid, ticks, stacks, dirs, slotUsed, reaped)
    }

    ghost predicate Valid()
      reads this
    {
      Inv(View())
    }

    // task_init: the idle task, and the running initial task, which has no stack of its own.
    constructor (idleStack: nat)
      requires idleStack != 0
      ensures Valid() && |tasks| == 2 && current == 1
    {
      tasks := [Task(1, 0, Ready, 1, 0, idleStack, 0, -1, 0, 0), Task(2, 0, Running, 0, 0, 0, 0, -1, 0, 0)];
      current, nextPid, ticks := 1, 3, 0;
      slotUsed := {};
      stacks, dirs, reaped := {idleStack}, {}, {};
      new;
      assert tasks[0].stack == idleStack;
    }

    // The search of schedule(): around the ring, passing over the idle task.
    method PickNext() returns (next: nat, found: bool)
      requires Ring(tasks) && current < |tasks|
      ensures found <==> Pick(View()) != -1
      ensures found ==> next == Pick(View())
    {
      next, found := current, false;
      var idleReady := false;
      ghost var s := View();
      next := tasks[next].next;
      while true
        invariant next < |tasks| && Search(s, tasks[current].next) == Search(s, next)
        invariant idleReady ==> tasks[0].st == Ready
        invariant tasks[0].st == Ready && !idleReady ==> Unseen(s, next)
        decreases if next <= current then current - next else current + |tasks| - next
      {
        if tasks[next].st == Ready {
          if next == 0 {
            idleReady := true;
          } else {
            return next, true;
          }
        }
        if next == current { break; }
        next := tasks[next].next;
      }
      if idleReady { return 0, true; }
    }

    /** schedule(). */
    method Schedule()
      requires Ring(tasks) && current < |tasks|
      modifies this`tasks, this`current
      ensures View() == TaskModel.Schedule(old(View()))
    {
      var next, found := PickNext();
      if found {
        var prev := current;
        current := next;
        tasks := tasks[current := tasks[current].(st := Running)];
        if tasks[prev].st == Running {
          tasks := tasks[prev := tasks[prev].(st := Ready)];
        }
      }
    }

    /** task_create; "stack" is what kmalloc returned. */
    method Create(stack: nat) returns (pid: int)
      requires Valid() && stack !in stacks
      modifies this
      ensures Valid() && (View(), pid) == TaskModel.Create(old(View()), stack)
    {
      hide Inv;
      CreateKeeps(View(), stack);
      InvBasics(View());
      if stack == 0 { return -1; }
      ghost var s := View();
      var slot := 0;
      while slot < |tasks| && tasks[slot].st != Terminated
        invariant 0 <= slot <= |tasks| && FirstTerminated(tasks, 0) == FirstTerminated(tasks, slot)
      {
        slot := slot + 1;
      }
      if slot < |tasks| {
        ReleaseResources(slot);
      } else if |tasks| >= MAX_TASKS {
        return -1;
      }
      var link := if slot < |tasks| then tasks[slot].next else 0;
      var t := Task(nextPid, tasks[current].pid, Ready, link, 0, stack, 0, -1, 0, 0);
      if slot < |tasks| {
        tasks := tasks[slot := t];
      } else {
        var last := |tasks| - 1;
        tasks := tasks[last := tasks[last].(next := slot)];
        tasks := tasks + [t];
      }
      stacks := stacks + {stack};
      pid := nextPid;
      nextPid := nextPid + 1;
    }

    // task_release_resources.
    method ReleaseResources(i: nat)
      requires i < |tasks| && 0 !in stacks && 0 !in dirs && -1 !in slotUsed
      modifies this`tasks, this`stacks, this`dirs, this`slotUsed
      ensures View() == Release(old(View()), i)
    {
      var t := tasks[i];
      if t.dir != 0 { dirs := dirs - {t.dir}; }
      if t.slot != -1 { slotUsed := slotUsed - {t.slot}; }
      if t.stack != 0 { stacks := stacks - {t.stack}; }
      tasks := tasks[i := t.(stack := 0, dir := 0, slot := -1)];
    }

    method Find(pid: nat) returns (k: nat)
      ensures k == FindPid(tasks, pid, 0)
    {
      k := 0;
      while k < |tasks|
        invariant 0 <= k <= |tasks| && FindPid(tasks, pid, 0) == FindPid(tasks, pid, k)
      {
        if tasks[k].pid == pid { return; }
        k := k + 1;
      }
    }

    /** task_terminate_by_pid. */
    method Terminate(pid: nat, exit: int, sig: nat) returns (r: int)
      requires Valid()
      modifies this
      ensures Valid() && (View(), r) == Kill(old(View()), pid, exit, sig)
      ensures r == 0 <==> exists k: nat :: 0 < k && Has(old(View()), k, pid)
      ensures forall k: nat :: 0 < k && Has(old(View()), k, pid) ==>
                if old(tasks)[k].st == Terminated then View() == old(View())
                else Ended(old(View()), View(), k, exit, sig) && OthersAsBefore(old(View()), View(), k)
    {
      hide Inv, TaskModel.Schedule, Ended, OthersAsBefore, Has;
      KillEnds(View(), pid, exit, sig);
      KillValid(View(), pid, exit, sig);
      InvBasics(View());
      var k := Find(pid);
      if k == |tasks| || k == 0 { return -1; }
      if tasks[k].st == Terminated { return 0; }
      tasks := tasks[k := tasks[k].(st := Terminated, exit := exit, sig := sig)];
      if k == current { Schedule(); }
      r := 0;
    }

    /** SYS_EXIT and task_exit. */
    method Exit(code: int)
      requires Valid() && current != 0
      modifies this
      ensures Valid() && View() == Next(old(View()), Exits(code))
      ensures Ended(old(View()), View(), old(current), code, 0) && OthersAsBefore(old(View()), View(), old(current))
    {
      hide Inv, TaskModel.Schedule, Ended, OthersAsBefore;
      InvBasics(View());
      NextKeeps(View(), Exits(code));
      ExitEnds(View(), code);
      tasks := tasks[current := tasks[current].(st := Terminated, exit := code, sig := 0)];
      Schedule();
    }

    /** timer_handler. */
    method TimerTick()
      requires Valid()
      modifies this
      ensures Valid() && View() == Tick(old(View()))
    {
      hide Inv, TaskModel.Schedule, WakeFrom;
      TickKeeps(View());
      ticks := ticks + 1;
      var i := 0;
      while i < |tasks|
        invariant 0 <= i <= |tasks| == |old(tasks)|
        invariant forall k :: 0 <= k < |tasks| ==>
                    tasks[k] == if k < i then Woken(old(tasks)[k], ticks) else old(tasks)[k]
        invariant View() == old(View()).(tasks := tasks, ticks := ticks) && ticks == old(ticks) + 1
      {
        if tasks[i].st == Blocked && tasks[i].wake <= ticks {
          tasks := tasks[i := tasks[i].(st := Ready)];
        }
        i := i + 1;
      }
      assert tasks == WakeFrom(old(tasks), ticks, 0);
      Schedule();
    }

    /** sleep(). */
    method SleepFor(ms: nat)
      requires Valid() && current != 0
      modifies this
      ensures Valid() && View() == Sleep(old(View()), ms)
    {
      hide Inv, TaskModel.Schedule;
      SleepValid(View(), ms);
      if ms == 0 { return; }
      var wait := ms * 100 % WORD / 1000;
      if wait == 0 { wait := 1; }
      tasks := tasks[current := tasks[current].(st := Blocked, wake := ticks + wait)];
      Schedule();
    }

    /** One scan of task_waitpid. */
    method WaitScan(pid: int) returns (r: int, status: int)
      requires Valid()
      modifies this
      ensures Valid() && (View(), r, status) == Wait(old(View()), pid)
    {
      hide Inv, Reap;
      WaitKeeps(View(), pid);
      InvBasics(View());
      ghost var s := View();
      var i, hasChild := 0, false;
      while i < |tasks|
        invariant 0 <= i <= |tasks| && View() == s && FirstZombie(s, pid, 0) == FirstZombie(s, pid, i)
        invariant hasChild ==> HasChild(s, pid)
        invariant !hasChild ==> forall j :: 0 <= j < i ==> !IsChild(s, pid, j)
      {
        var t := tasks[i];
        if i != 0 && t.pid != 0 && t.ppid == tasks[current].pid && !(pid > 0 && pid != t.pid) {
          assert IsChild(s, pid, i);
          hasChild := true;
          if t.st == Terminated {
            status := if t.sig != 0 then t.sig % 128 else t.exit % 256 * 256;
            r := t.pid;
            ReapOne(i);
            return;
          }
        }
        i := i + 1;
      }
      return if hasChild then 0 else -1, 0;
    }

    method ReapOne(i: nat)
      requires i < |tasks| && 0 !in stacks && 0 !in dirs && -1 !in slotUsed
      modifies this
      ensures View() == Reap(old(View()), i)
    {
      reaped := reaped + {tasks[i].pid};
      ReleaseResources(i);
      tasks := tasks[i := tasks[i].(pid := 0, ppid := 0, st := Terminated, exit := 0, sig := 0)];
    }

    // mm_user_slot_alloc.
    method SlotAlloc() returns (idx: int)
      modifies this`slotUsed
      ensures idx == LowestSlot(old(slotUsed), 0)
      ensures slotUsed == if idx < USER_SLOTS then old(slotUsed) + {idx} else old(slotUsed)
    {
      idx := 0;
      while idx < USER_SLOTS
        invariant 0 <= idx <= USER_SLOTS && LowestSlot(slotUsed, 0) == LowestSlot(slotUsed, idx)
                  && slotUsed == old(slotUsed)
      {
        if idx !in slotUsed {
          slotUsed := slotUsed + {idx};
          return;
        }
        idx := idx + 1;
      }
    }

    /** ensure_current_task_user_space; "dir" is the page directory that could be allocated. */
    method EnsureUserSpace(dir: nat) returns (r: int)
      requires Valid() && dir !in dirs
      modifies this
      ensures Valid() && (View(), r) == Attach(old(View()), dir)
    {
      hide Inv;
      AttachKeeps(View(), dir);
      InvBasics(View());
      if tasks[current].slot != -1 { return 0; }
      var slot := SlotAlloc();
      if slot == USER_SLOTS { return -1; }
      if dir == 0 {
        slotUsed := slotUsed - {slot};
        assert slotUsed == old(slotUsed);
        return -1;
      }
      tasks := tasks[current := tasks[current].(slot := slot, dir := dir)];
      dirs := dirs + {dir};
      return 0;
    }
  }

  // The search has not come past the idle task yet.
  predicate Unseen(s: State, i: nat) {
    s.cur < |s.tasks| && i < |s.tasks| && (i == 0 || s.cur < i)
  }

  lemma TickKeeps(s: State)
    requires Inv(s)
    ensures Ring(s.tasks) && s.cur < |s.tasks| && Ring(WakeAll(s).tasks) && Inv(Tick(s))
  {
    hide Inv, TaskModel.Schedule;
    InvBasics(s);
    NextKeeps(s, Ticks);
  }

  lemma SleepValid(s: State, ms: nat)
    requires Inv(s) && s.cur != 0
    ensures Ring(s.tasks) && s.cur < |s.tasks| && Inv(Sleep(s, ms))
  {
    hide Inv, TaskModel.Schedule;
    InvBasics(s);
    NextKeeps(s, Sleeps(ms));
  }

  lemma KillValid(s: State, pid: nat, exit: int, sig: nat)
    requires Inv(s)
    ensures Ring(s.tasks) && s.cur < |s.tasks| && Inv(Kill(s, pid, exit, sig).0)
  {
    hide Inv, TaskModel.Schedule;
    InvBasics(s);
    NextKeeps(s, Kills(pid, exit, sig));
  }
}
