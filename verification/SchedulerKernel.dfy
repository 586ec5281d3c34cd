/** The scheduler's routines on the task table (kernel/sched/sched.c). */
module SchedulerKernel {
  import opened Base
  import opened Scheduler

  class TaskTable {
    const tasks: array<Task>
    var current: nat
    var nextPid: nat
    var cr3: nat
    var fpu: nat
    var halted: bool

    ghost predicate Valid()
      reads this, tasks
    {
      tasks.Length == TASK_MAX && Inv(Value())
    }

    ghost function Value(): Sched
      reads this, tasks
    {
      Sched(tasks[..], current, nextPid, cr3, fpu, halted)
    }

    /** sched_init: the boot context becomes the first task. */
    constructor (cr3: nat, fpu: nat)
      ensures Valid() && fresh(tasks) && Value() == Boot(cr3, fpu)
    {
      tasks := new Task[TASK_MAX](_ => BLANK);
      this.cr3, this.fpu, halted, current, nextPid := cr3, fpu, false, 0, 1;
      new;
      var slot := TaskFindSlot();
      assert tasks[..] == seq(TASK_MAX, _ => BLANK);
      FreshSlot(tasks[..]);
      current := slot.value;
      tasks[current] := Task(nextPid, Running, cr3, 0, fpu);
      nextPid := (nextPid + 1) % PIDS;
      assert tasks[..] == Boot(cr3, fpu).tasks;
    }

    /** One of task_find_slot's loops. */
    method Scan(st: State) returns (i: nat)
      requires tasks.Length == TASK_MAX
      ensures i == FirstIn(tasks[..], st, 0)
    {
      i := 0;
      while i < TASK_MAX
        invariant i <= TASK_MAX && FirstIn(tasks[..], st, 0) == FirstIn(tasks[..], st, i)
      {
        if tasks[i].state == st {
          return;
        }
        i := i + 1;
      }
    }

    /** task_find_slot. */
    method TaskFindSlot() returns (slot: Option<nat>)
      requires tasks.Length == TASK_MAX
      modifies tasks
      ensures (tasks[..], slot) == FindSlot(old(tasks[..]))
    {
      hide FirstIn;
      var z := Scan(Zombie);
      if z < TASK_MAX {
        tasks[z] := BLANK;
        return Some(z);
      }
      var u := Scan(Unused);
      return if u < TASK_MAX then Some(u) else None;
    }

    /** task_next. */
    method TaskNext(after: nat) returns (r: nat)
      requires tasks.Length == TASK_MAX && after < TASK_MAX
      ensures r == NextFrom(tasks[..], after, 1)
    {
      var i := 1;
      while i <= TASK_MAX
        invariant 1 <= i <= TASK_MAX + 1 && NextFrom(tasks[..], after, 1) == NextFrom(tasks[..], after, i)
      {
        var t := (after + i) % TASK_MAX;
        assert t == Slot(after, i);
        if tasks[t].state == Ready || tasks[t].state == Running {
          return t;
        }
        i := i + 1;
      }
      return after;
    }

    /** sched_task_alive. */
    method SchedTaskAlive(pid: nat) returns (r: bool)
      requires tasks.Length == TASK_MAX
      ensures r == Alive(tasks[..], pid)
    {
      var i := 0;
      while i < TASK_MAX
        invariant i <= TASK_MAX
        invariant forall k | 0 <= k < i :: tasks[k].pid != pid || tasks[k].state == Zombie
      {
        if tasks[i].pid == pid && tasks[i].state != Zombie {
          assert tasks[..][i] == tasks[i];
          return true;
        }
        i := i + 1;
      }
      return false;
    }

    /** sched_tick. The result is the frame to resume, or 0 to go on with the interrupted one. */
    method SchedTick(frame: nat, regs: nat, critical: bool) returns (rsp: nat)
      requires Valid() && !halted
      modifies this, tasks
      ensures Valid() && Value() == Step(old(Value()), Tick(frame, regs, critical))
      ensures rsp == if current == old(current) then 0 else tasks[current].rsp
    {
      hide NextFrom;
      StepInv(Value(), Tick(frame, regs, critical));
      fpu := regs;
      if tasks[current].state == Zombie || critical {
        return 0;
      }
      tasks[current] := tasks[current].(rsp := frame);
      var next := TaskNext(current);
      NextIsRunnable(tasks[..], current, 1);
      if next == current {
        return 0;
      }
      tasks[current] := tasks[current].(state := Ready, fpu := regs);
      SwitchIn(next);
      return tasks[current].rsp;
    }

    /** The end of both switches: the next task's address space and FPU state are loaded. */
    method SwitchIn(next: nat)
      requires tasks.Length == TASK_MAX && next < TASK_MAX
      modifies tasks, `current, `cr3, `fpu
      ensures Value() == SwitchTo(old(Value()), old(tasks[..]), next)
    {
      tasks[next] := tasks[next].(state := Running);
      cr3 := tasks[next].cr3;
      fpu := tasks[next].fpu;
      current := next;
    }

    /** task_create_user on the task table; room says whether the memory for its stacks was there. */
    method TaskCreate(space: nat, rsp: nat, regs: nat, room: bool) returns (pid: int)
      requires Valid() && !halted
      modifies this, tasks
      ensures Valid() && Value() == Step(old(Value()), Create(space, rsp, regs, room))
      ensures var full := NoneWith(old(tasks[..]), Zombie) && NoneWith(old(tasks[..]), Unused);
              pid == if room && !full then old(nextPid) else -1
    {
      hide FirstIn;
      StepInv(Value(), Create(space, rsp, regs, room));
      var slot := TaskFindSlot();
      if slot.None? {
        return -1;
      }
      if !room {
        return -1;
      }
      tasks[slot.value] := Task(nextPid, Ready, space, rsp, regs);
      pid := nextPid;
      nextPid := (nextPid + 1) % PIDS;
    }

    /** task_exit. */
    method TaskExit(regs: nat)
      requires Valid() && !halted
      modifies this, tasks
      ensures Valid() && Value() == Step(old(Value()), Exit(regs))
    {
      hide NextFrom;
      StepInv(Value(), Exit(regs));
      tasks[current] := tasks[current].(state := Zombie);
      var next := TaskNext(current);
      NextIsRunnable(tasks[..], current, 1);
      if next == current {
        halted := true;
        return;
      }
      tasks[current] := tasks[current].(fpu := regs);
      SwitchIn(next);
    }
  }

  lemma FreshSlot(ts: seq<Task>)
    requires ts == seq(TASK_MAX, _ => BLANK)
    ensures FindSlot(ts) == (ts, Some(0))
  {
  }
}
