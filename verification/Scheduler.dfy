/** The round-robin scheduler and the task lifecycle (kernel/sched/sched.c). */
module Scheduler {
  import opened Base

  const TASK_MAX: nat := 16
  const PIDS: nat := 0x1_0000_0000

  datatype State = Unused | Ready | Running | Zombie

  /** A task slot: rsp and fpu are the saved frame position and FPU image of a task that is switched out. */
  datatype Task = Task(pid: nat, state: State, cr3: nat, rsp: nat, fpu: nat)

  const BLANK := Task(0, Unused, 0, 0, 0)

  /** The slots, the current slot, the next pid, the loaded address space and FPU state. */
  datatype Sched = Sched(tasks: seq<Task>, cur: nat, nextPid: nat, cr3: nat, fpu: nat, halted: bool)

  predicate Runnable(t: Task) {
    t.state == Ready || t.state == Running
  }

  function Slot(after: nat, i: nat): nat {
    (after + i) % TASK_MAX
  }

  /** task_next: the first runnable slot after this one, cyclically; itself if there is none. */
  function NextFrom(tasks: seq<Task>, after: nat, i: nat): (r: nat)
    requires |tasks| == TASK_MAX && after < TASK_MAX && 1 <= i <= TASK_MAX + 1
    ensures r < TASK_MAX
    decreases TASK_MAX + 1 - i
  {
    if i > TASK_MAX then after
    else if Runnable(tasks[Slot(after, i)]) then Slot(after, i)
    else NextFrom(tasks, after, i + 1)
  }

  /** The first slot in this state from i. */
  function FirstIn(tasks: seq<Task>, st: State, i: nat): (r: nat)
    requires i <= |tasks|
    ensures i <= r <= |tasks| && (r < |tasks| ==> tasks[r].state == st)
    ensures forall k | i <= k < r :: tasks[k].state != st
    decreases |tasks| - i
  {
    if i == |tasks| || tasks[i].state == st then i else FirstIn(tasks, st, i + 1)
  }

  /** task_find_slot: a zombie's slot, wiped, before an unused one. */
  function FindSlot(tasks: seq<Task>): (r: (seq<Task>, Option<nat>))
    ensures |r.0| == |tasks| && (r.1.Some? ==> r.1.value < |tasks|)
  {
    var z := FirstIn(tasks, Zombie, 0);
    if z < |tasks| then (tasks[z := BLANK], Some(z))
    else
      var u := FirstIn(tasks, Unused, 0);
      (tasks, if u < |tasks| then Some(u) else None)
  }

  // ---- events ----

  /** A timer tick with the interrupted frame and FPU state; a task creation, which may fail for want
      of memory; an exit of the current task. */
  datatype Event =
    | Tick(frame: nat, fpu: nat, critical: bool)
    | Create(cr3: nat, rsp: nat, fpu: nat, room: bool)
    | Exit(fpu: nat)

  function SwitchTo(s: Sched, tasks: seq<Task>, next: nat): Sched
    requires |tasks| == TASK_MAX && next < TASK_MAX
  {
    var t := tasks[next];
    s.(tasks := tasks[next := t.(state := Running)], cur := next, cr3 := t.cr3, fpu := t.fpu)
  }

  /** sched_tick. */
  function OnTick(s: Sched, frame: nat, fpu: nat, critical: bool): Sched
    requires |s.tasks| == TASK_MAX && s.cur < TASK_MAX
  {
    var t := s.tasks[s.cur];
    if t.state == Zombie || critical then s.(fpu := fpu)
    else
      var saved := s.tasks[s.cur := t.(rsp := frame)];
      var next := NextFrom(saved, s.cur, 1);
      if next == s.cur then s.(tasks := saved, fpu := fpu)
      else SwitchTo(s, saved[s.cur := t.(rsp := frame, state := Ready, fpu := fpu)], next)
  }

  /** task_create_user as far as the task table goes. */
  function OnCreate(s: Sched, cr3: nat, rsp: nat, fpu: nat, room: bool): Sched
    requires |s.tasks| == TASK_MAX
  {
    var (tasks, slot) := FindSlot(s.tasks);
    if slot.None? then s
    else if !room then s.(tasks := tasks)
    else s.(tasks := tasks[slot.value := Task(s.nextPid, Ready, cr3, rsp, fpu)], nextPid := (s.nextPid + 1) % PIDS)
  }

  /** task_exit. */
  function OnExit(s: Sched, fpu: nat): Sched
    requires |s.tasks| == TASK_MAX && s.cur < TASK_MAX
  {
    var tasks := s.tasks[s.cur := s.tasks[s.cur].(state := Zombie)];
    var next := NextFrom(tasks, s.cur, 1);
    if next == s.cur then s.(tasks := tasks, halted := true)
    else SwitchTo(s, tasks[s.cur := tasks[s.cur].(fpu := fpu)], next)
  }

  function Step(s: Sched, e: Event): Sched
    requires |s.tasks| == TASK_MAX && s.cur < TASK_MAX
  {
    if s.halted then s
    else
      match e
      case Tick(frame, fpu, critical) => OnTick(s, frame, fpu, critical)
      case Create(cr3, rsp, fpu, room) => OnCreate(s, cr3, rsp, fpu, room)
      case Exit(fpu) => OnExit(s, fpu)
  }

  /** sched_init. */
  function Boot(cr3: nat, fpu: nat): Sched {
    Sched(seq(TASK_MAX, i => if i == 0 then Task(1, Running, cr3, 0, fpu) else BLANK), 0, 2, cr3, fpu, false)
  }

  // ---- the invariant ----

  /** Until the halt exactly the current task is running, in its own address space. */
  predicate Inv(s: Sched) {
    && |s.tasks| == TASK_MAX && s.cur < TASK_MAX
    && (forall i | 0 <= i < TASK_MAX :: s.tasks[i].state == Running ==> i == s.cur)
    && (!s.halted ==> s.tasks[s.cur].state == Running && s.cr3 == s.tasks[s.cur].cr3)
    && (s.halted ==> forall i | 0 <= i < TASK_MAX :: !Runnable(s.tasks[i]))
  }

  lemma {:induction false} NextIsRunnable(tasks: seq<Task>, after: nat, i: nat)
    requires |tasks| == TASK_MAX && after < TASK_MAX && 1 <= i <= TASK_MAX + 1
    ensures var r := NextFrom(tasks, after, i); r != after ==> Runnable(tasks[r])
    ensures NextFrom(tasks, after, i) == after ==> forall k | i <= k < TASK_MAX :: !Runnable(tasks[Slot(after, k)])
    decreases TASK_MAX + 1 - i
  {
    if i <= TASK_MAX && !Runnable(tasks[Slot(after, i)]) {
      NextIsRunnable(tasks, after, i + 1);
    }
  }

  /** How many slots lie from one slot to another, going round. */
  function Dist(from: nat, to: nat): nat
    requires from < TASK_MAX && to < TASK_MAX
  {
    (to + TASK_MAX - from) % TASK_MAX
  }

  lemma SlotDist(from: nat, to: nat)
    requires from < TASK_MAX && to < TASK_MAX
    ensures Slot(from, Dist(from, to)) == to && (from != to ==> 1 <= Dist(from, to) < TASK_MAX)
  {
  }

  lemma DistSlot(from: nat, i: nat)
    requires from < TASK_MAX && i < TASK_MAX
    ensures Dist(from, Slot(from, i)) == i
  {
  }

  /** The next task is no farther away than any runnable one. */
  lemma {:induction false} NextIsNearest(tasks: seq<Task>, after: nat, i: nat, to: nat)
    requires |tasks| == TASK_MAX && after < TASK_MAX && to < TASK_MAX && to != after && Runnable(tasks[to])
    requires 1 <= i <= Dist(after, to)
    ensures var r := NextFrom(tasks, after, i); r != after && i <= Dist(after, r) <= Dist(after, to)
    decreases TASK_MAX + 1 - i
  {
    SlotDist(after, to);
    if Runnable(tasks[Slot(after, i)]) {
      DistSlot(after, i);
      assert Slot(after, i) != after by {
        assert Dist(after, after) == 0;
      }
    } else {
      NextIsNearest(tasks, after, i + 1, to);
    }
  }

  lemma NobodyElse(tasks: seq<Task>, cur: nat)
    requires |tasks| == TASK_MAX && cur < TASK_MAX && NextFrom(tasks, cur, 1) == cur
    ensures forall i | 0 <= i < TASK_MAX && i != cur :: !Runnable(tasks[i])
  {
    forall i | 0 <= i < TASK_MAX && i != cur ensures !Runnable(tasks[i]) {
      SlotDist(cur, i);
      NextIsRunnable(tasks, cur, 1);
    }
  }

  lemma StepInv(s: Sched, e: Event)
    requires Inv(s)
    ensures Inv(Step(s, e))
  {
    hide NextFrom, FirstIn;
    if !s.halted {
      match e
      case Tick(frame, fpu, critical) =>
        NextIsRunnable(s.tasks[s.cur := s.tasks[s.cur].(rsp := frame)], s.cur, 1);
      case Create(_, _, _, _) =>
      case Exit(fpu) =>
        var tasks := s.tasks[s.cur := s.tasks[s.cur].(state := Zombie)];
        NextIsRunnable(tasks, s.cur, 1);
        if NextFrom(tasks, s.cur, 1) == s.cur {
          NobodyElse(tasks, s.cur);
        }
    }
  }

  function Exec(s: Sched, es: seq<Event>): (r: Sched)
    requires Inv(s)
    ensures Inv(r)
    decreases |es|
  {
    if es == [] then s else StepInv(s, es[0]); Exec(Step(s, es[0]), es[1..])
  }

  // ---- fairness ----

  predicate Waiting(s: Sched, i: nat) {
    |s.tasks| == TASK_MAX && i < TASK_MAX && s.tasks[i].state == Ready
  }

  /** Task i runs again with the frame, FPU state and address space it was switched out with. */
  predicate Resumed(s: Sched, i: nat, t: Task) {
    && |s.tasks| == TASK_MAX && i < TASK_MAX
    && s.cur == i && s.tasks[i] == t.(state := Running) && s.fpu == t.fpu && s.cr3 == t.cr3
  }

  lemma DistLeft(cur: nat, next: nat, i: nat)
    requires cur < TASK_MAX && next < TASK_MAX && i < TASK_MAX && 0 < Dist(cur, next) <= Dist(cur, i)
    ensures Dist(next, i) == Dist(cur, i) - Dist(cur, next)
  {
  }

  /** One step brings a waiting task nearer, or leaves everything about it as it is. */
  lemma StepTowards(s: Sched, e: Event, i: nat)
    requires Inv(s) && Waiting(s, i)
    ensures var s' := Step(s, e);
            || Resumed(s', i, s.tasks[i])
            || (&& Waiting(s', i) && s'.tasks[i] == s.tasks[i]
                && (s'.cur == s.cur || Dist(s'.cur, i) < Dist(s.cur, i))
                && ((e.Tick? && !e.critical) || e.Exit? ==> s'.cur != s.cur))
  {
    hide NextFrom, Dist;
    StepInv(s, e);
    assert i != s.cur && !s.halted;
    match e
    case Tick(frame, fpu, critical) =>
      if !critical {
        Nearer(s.tasks[s.cur := s.tasks[s.cur].(rsp := frame)], s.cur, i);
      }
    case Create(_, _, _, _) => hide FirstIn;
    case Exit(fpu) =>
      Nearer(s.tasks[s.cur := s.tasks[s.cur].(state := Zombie)], s.cur, i);
  }

  lemma Nearer(tasks: seq<Task>, cur: nat, i: nat)
    requires |tasks| == TASK_MAX && cur < TASK_MAX && i < TASK_MAX && i != cur && Runnable(tasks[i])
    ensures var next := NextFrom(tasks, cur, 1); next != cur && Dist(next, i) < Dist(cur, i)
  {
    SlotDist(cur, i);
    NextIsNearest(tasks, cur, 1, i);
    DistLeft(cur, NextFrom(tasks, cur, 1), i);
  }

  /** How many events of the run give other tasks a chance: ticks outside critical sections, and exits. */
  function Chances(es: seq<Event>): nat {
    if es == [] then 0
    else (if (es[0].Tick? && !es[0].critical) || es[0].Exit? then 1 else 0) + Chances(es[1..])
  }

  /** A ready task runs again, as it was left, once the run has had as many ticks outside critical sections or exits
      as it is slots away, at most TASK_MAX - 1. */
  lemma {:induction false} RunsAgain(s: Sched, es: seq<Event>, i: nat)
    requires Inv(s) && Waiting(s, i) && Chances(es) >= Dist(s.cur, i)
    ensures Dist(s.cur, i) <= TASK_MAX - 1
    ensures exists k | 0 <= k <= |es| :: Resumed(Exec(s, es[..k]), i, s.tasks[i])
    decreases |es|
  {
    SlotDist(s.cur, i);
    hide Step, NextFrom, Dist;
    var s' := Step(s, es[0]);
    StepInv(s, es[0]);
    StepTowards(s, es[0], i);
    if Resumed(s', i, s.tasks[i]) {
      assert es[..1][1..] == [] && es[..1][0] == es[0];
      assert Exec(s, es[..1]) == s';
    } else {
      RunsAgain(s', es[1..], i);
      var k :| 0 <= k <= |es[1..]| && Resumed(Exec(s', es[1..][..k]), i, s'.tasks[i]);
      assert es[..k + 1][1..] == es[1..][..k] && es[..k + 1][0] == es[0];
      assert Exec(s, es[..k + 1]) == Exec(s', es[1..][..k]);
    }
  }

  // ---- what each event does ----

  /** The d-th slot after the current one, going round, is runnable, and none before it is. */
  predicate Nearest(s: Sched, d: nat) {
    && |s.tasks| == 16 && s.cur < 16 && 1 <= d < 16 && CanRun(s, d)
    && forall e: nat | 1 <= e < d :: !CanRun(s, e)
  }

  predicate CanRun(s: Sched, d: nat)
    requires |s.tasks| == 16
  {
    Runnable(s.tasks[(s.cur + d) % 16])
  }

  predicate Alone(s: Sched) {
    |s.tasks| == TASK_MAX && forall j | 0 <= j < TASK_MAX && j != s.cur :: !Runnable(s.tasks[j])
  }

  lemma SameNext(s: Sched, tasks: seq<Task>)
    requires Inv(s) && |tasks| == TASK_MAX && forall j | 0 <= j < TASK_MAX && j != s.cur :: tasks[j] == s.tasks[j]
    ensures NextFrom(tasks, s.cur, 1) == s.cur <==> Alone(s)
    ensures forall d: nat | Nearest(s, d) :: NextFrom(tasks, s.cur, 1) == (s.cur + d) % 16 != s.cur
  {
    hide NextFrom, Dist;
    NextIsRunnable(tasks, s.cur, 1);
    if NextFrom(tasks, s.cur, 1) == s.cur {
      NobodyElse(tasks, s.cur);
    }
    forall d: nat | Nearest(s, d) ensures NextFrom(tasks, s.cur, 1) == (s.cur + d) % 16 != s.cur {
      NextAt(s, tasks, d, 1);
    }
  }

  lemma OtherSlot(cur: nat, i: nat)
    requires cur < 16 && 1 <= i < 16
    ensures Slot(cur, i) == (cur + i) % 16 != cur
  {
  }

  lemma {:induction false} NextAt(s: Sched, tasks: seq<Task>, d: nat, i: nat)
    requires Nearest(s, d) && 1 <= i <= d
    requires |tasks| == TASK_MAX && forall j | 0 <= j < TASK_MAX && j != s.cur :: tasks[j] == s.tasks[j]
    ensures NextFrom(tasks, s.cur, i) == (s.cur + d) % 16 != s.cur
    decreases d - i
  {
    OtherSlot(s.cur, i);
    assert CanRun(s, i) <==> Runnable(tasks[Slot(s.cur, i)]);
    hide Slot, CanRun, Runnable;
    if i < d {
      NextAt(s, tasks, d, i + 1);
    }
  }

  /** A tick outside a critical section goes to the nearest other runnable task if there is one, and leaves the old one
      ready with the frame and the FPU state that it was interrupted with; in a critical section, or with no other
      task, it stays. */
  lemma TickAnswer(s: Sched, frame: nat, fpu: nat, critical: bool)
    requires Inv(s) && !s.halted
    ensures var s', t := Step(s, Tick(frame, fpu, critical)), s.tasks[s.cur];
            && (s'.cur != s.cur <==> !critical && !Alone(s))
            && (critical ==> s' == s.(fpu := fpu))
            && (!critical && Alone(s) ==> s' == s.(tasks := s.tasks[s.cur := t.(rsp := frame)], fpu := fpu))
            && (!critical ==> forall d: nat | Nearest(s, d) ::
                  var n := (s.cur + d) % 16;
                  s' == Sched(s.tasks[s.cur := Task(t.pid, Ready, t.cr3, frame, fpu)]
                                     [n := s.tasks[n].(state := Running)],
                              n, s.nextPid, s.tasks[n].cr3, s.tasks[n].fpu, false))
  {
    hide NextFrom, Dist;
    var t := s.tasks[s.cur];
    var saved := s.tasks[s.cur := t.(rsp := frame)];
    SameNext(s, saved);
    assert saved[s.cur := t.(rsp := frame, state := Ready, fpu := fpu)] ==
           s.tasks[s.cur := Task(t.pid, Ready, t.cr3, frame, fpu)];
  }

  /** An exit leaves a zombie and goes to the nearest other runnable task; without one the machine halts. */
  lemma ExitAnswer(s: Sched, fpu: nat)
    requires Inv(s) && !s.halted
    ensures var s', t := Step(s, Exit(fpu)), s.tasks[s.cur];
            && (s'.halted <==> Alone(s))
            && (Alone(s) ==> s' == s.(tasks := s.tasks[s.cur := t.(state := Zombie)], halted := true))
            && forall d: nat | Nearest(s, d) ::
                 var n := (s.cur + d) % 16;
                 s' == Sched(s.tasks[s.cur := t.(state := Zombie, fpu := fpu)][n := s.tasks[n].(state := Running)],
                             n, s.nextPid, s.tasks[n].cr3, s.tasks[n].fpu, false)
  {
    hide NextFrom, Dist;
    var t := s.tasks[s.cur];
    var tasks := s.tasks[s.cur := t.(state := Zombie)];
    SameNext(s, tasks);
    assert tasks[s.cur := tasks[s.cur].(fpu := fpu)] == s.tasks[s.cur := t.(state := Zombie, fpu := fpu)];
  }

  predicate FirstWith(tasks: seq<Task>, st: State, i: nat) {
    i < |tasks| && tasks[i].state == st && forall k | 0 <= k < i :: tasks[k].state != st
  }

  predicate NoneWith(tasks: seq<Task>, st: State) {
    forall k | 0 <= k < |tasks| :: tasks[k].state != st
  }

  /** A new task takes the first zombie's slot, or the first unused one if there is no zombie; without memory a
      zombie's slot is only wiped. */
  lemma CreateAnswer(s: Sched, cr3: nat, rsp: nat, fpu: nat, room: bool, i: nat)
    requires Inv(s) && !s.halted
    ensures var s' := Step(s, Create(cr3, rsp, fpu, room));
            var added := s.(tasks := if i < TASK_MAX then s.tasks[i := Task(s.nextPid, Ready, cr3, rsp, fpu)] else [],
                            nextPid := (s.nextPid + 1) % 0x1_0000_0000);
            && (NoneWith(s.tasks, Zombie) && NoneWith(s.tasks, Unused) ==> s' == s)
            && (FirstWith(s.tasks, Zombie, i) ==>
                  s' == if room then added else s.(tasks := s.tasks[i := Task(0, Unused, 0, 0, 0)]))
            && (NoneWith(s.tasks, Zombie) && FirstWith(s.tasks, Unused, i) ==> s' == if room then added else s)
  {
    FirstIs(s.tasks, Zombie, i);
    FirstIs(s.tasks, Unused, i);
    hide FirstIn;
    if FirstWith(s.tasks, Zombie, i) {
      assert s.tasks[i := BLANK][i := Task(s.nextPid, Ready, cr3, rsp, fpu)] ==
             s.tasks[i := Task(s.nextPid, Ready, cr3, rsp, fpu)];
    }
  }

  lemma FirstIs(tasks: seq<Task>, st: State, i: nat)
    ensures FirstWith(tasks, st, i) ==> FirstIn(tasks, st, 0) == i
    ensures NoneWith(tasks, st) ==> FirstIn(tasks, st, 0) == |tasks|
  {
  }

  // ---- pids ----

  /** Pids are positive, were handed out, and belong to one slot each. */
  predicate PidsOk(s: Sched) {
    && |s.tasks| == TASK_MAX && 0 < s.nextPid
    && (forall i | 0 <= i < TASK_MAX :: s.tasks[i].state != Unused ==> 0 < s.tasks[i].pid < s.nextPid)
    && (forall i | 0 <= i < TASK_MAX :: s.tasks[i].state == Unused ==> s.tasks[i].pid == 0)
    && (forall i, j | 0 <= i < j < TASK_MAX && s.tasks[i].state != Unused && s.tasks[j].state != Unused ::
          s.tasks[i].pid != s.tasks[j].pid)
  }

  /** sched_task_alive. */
  predicate Alive(tasks: seq<Task>, pid: nat) {
    exists i | 0 <= i < |tasks| :: tasks[i].pid == pid && tasks[i].state != Zombie
  }

  /** The same tasks in the same slots; zombies stay zombies. */
  predicate SameTasks(ts: seq<Task>, ts': seq<Task>) {
    |ts'| == |ts| && forall i | 0 <= i < |ts| ::
      ts'[i].pid == ts[i].pid && (ts'[i].state == Unused <==> ts[i].state == Unused)
        && (ts[i].state == Zombie ==> ts'[i].state == Zombie)
  }

  lemma TickSameTasks(s: Sched, e: Event)
    requires Inv(s) && !e.Create?
    ensures SameTasks(s.tasks, Step(s, e).tasks) && Step(s, e).nextPid == s.nextPid
  {
    hide NextFrom;
    if !s.halted {
      match e
      case Tick(frame, fpu, critical) =>
        NextIsRunnable(s.tasks[s.cur := s.tasks[s.cur].(rsp := frame)], s.cur, 1);
      case Exit(fpu) =>
        NextIsRunnable(s.tasks[s.cur := s.tasks[s.cur].(state := Zombie)], s.cur, 1);
    }
  }

  /** A task creation hands out at most the counter's pid; whoever else is alive was so before. */
  lemma CreatedPid(s: Sched, cr3: nat, rsp: nat, fpu: nat, room: bool, pid: nat)
    requires |s.tasks| == TASK_MAX && s.nextPid < PIDS && 0 < pid && !Alive(s.tasks, pid)
    ensures var s' := OnCreate(s, cr3, rsp, fpu, room);
            && (s'.nextPid == s.nextPid || s'.nextPid == if s.nextPid + 1 < PIDS then s.nextPid + 1 else 0)
            && (Alive(s'.tasks, pid) <==> s'.nextPid != s.nextPid && s.nextPid == pid)
  {
    hide FirstIn;
    var s' := OnCreate(s, cr3, rsp, fpu, room);
    var (tasks, slot) := FindSlot(s.tasks);
    assert !Alive(tasks, pid);
    if slot.Some? && room {
      assert s'.tasks[slot.value].pid == s.nextPid && s'.tasks[slot.value].state == Ready;
    }
  }

  lemma CreatePids(s: Sched, cr3: nat, rsp: nat, fpu: nat, room: bool)
    requires PidsOk(s) && s.nextPid < PIDS
    requires OnCreate(s, cr3, rsp, fpu, room).nextPid != s.nextPid ==> s.nextPid + 1 < PIDS
    ensures PidsOk(OnCreate(s, cr3, rsp, fpu, room))
    ensures s.nextPid <= OnCreate(s, cr3, rsp, fpu, room).nextPid <= s.nextPid + 1
  {
    hide FirstIn;
  }

  /** Exactly the creation that hands out a dead pid again revives it. */
  lemma StepAlive(s: Sched, e: Event, pid: nat)
    requires Inv(s) && s.nextPid < PIDS && 0 < pid && !Alive(s.tasks, pid)
    ensures var s' := Step(s, e);
            && (s'.nextPid == s.nextPid || s'.nextPid == if s.nextPid + 1 < PIDS then s.nextPid + 1 else 0)
            && (Alive(s'.tasks, pid) <==> s'.nextPid != s.nextPid && s.nextPid == pid)
  {
    if e.Create? {
      hide OnCreate;
      CreatedPid(s, e.cr3, e.rsp, e.fpu, e.room, pid);
    } else {
      hide Step;
      TickSameTasks(s, e);
    }
  }

  /** How many tasks a run creates. */
  function Created(s: Sched, es: seq<Event>): nat
    requires Inv(s)
    decreases |es|
  {
    if es == [] then 0
    else
      StepInv(s, es[0]);
      var s' := Step(s, es[0]);
      (if s'.nextPid != s.nextPid then 1 else 0) + Created(s', es[1..])
  }

  /** How many creations go by before the counter comes round to a pid. */
  function Until(next: nat, pid: nat): (n: int) {
    if next <= pid then pid - next else PIDS - next + pid
  }

  /** The pid of an exiting task is dead at once. */
  lemma ExitKills(s: Sched, fpu: nat)
    requires Inv(s) && PidsOk(s) && !s.halted
    ensures !Alive(Step(s, Exit(fpu)).tasks, s.tasks[s.cur].pid)
  {
    hide NextFrom;
  }

  predicate NeverAlive(s: Sched, es: seq<Event>, pid: nat)
    requires Inv(s)
  {
    forall k | 0 <= k <= |es| :: !Alive(Exec(s, es[..k]).tasks, pid)
  }

  lemma NeverAliveStep(s: Sched, es: seq<Event>, pid: nat)
    requires Inv(s) && es != [] && !Alive(s.tasks, pid) && Inv(Step(s, es[0]))
    ensures NeverAlive(s, es, pid) <==> NeverAlive(Step(s, es[0]), es[1..], pid)
  {
    hide Alive, Step;
    forall k | 0 <= k < |es|
      ensures Exec(s, es[..k + 1]) == Exec(Step(s, es[0]), es[1..][..k])
    {
      assert es[..k + 1][0] == es[0] && es[..k + 1][1..] == es[1..][..k];
    }
    if !NeverAlive(s, es, pid) {
      var k :| 0 <= k <= |es| && Alive(Exec(s, es[..k]).tasks, pid);
      assert es[..0] == [];
      assert k > 0;
      assert Exec(s, es[..k - 1 + 1]) == Exec(Step(s, es[0]), es[1..][..k - 1]);
    }
    if !NeverAlive(Step(s, es[0]), es[1..], pid) {
      var k :| 0 <= k <= |es[1..]| && Alive(Exec(Step(s, es[0]), es[1..][..k]).tasks, pid);
      assert Alive(Exec(s, es[..k + 1]).tasks, pid);
    }
  }

  /** Over a whole run, whatever else happens, a dead pid stays dead exactly while the run creates no
      more tasks than the counter needs to come round to that pid. */
  lemma {:induction false} DeadForGood(s: Sched, es: seq<Event>, pid: nat)
    requires Inv(s) && s.nextPid < PIDS && 0 < pid < PIDS && !Alive(s.tasks, pid)
    ensures NeverAlive(s, es, pid) <==> Created(s, es) <= Until(s.nextPid, pid)
    decreases |es|
  {
    hide Alive, Step;
    if es == [] {
      assert es[..0] == es;
    } else {
      var s' := Step(s, es[0]);
      StepInv(s, es[0]);
      StepAlive(s, es[0], pid);
      NeverAliveStep(s, es, pid);
      if Alive(s'.tasks, pid) {
        assert es[1..][..0] == [];
      } else {
        DeadForGood(s', es[1..], pid);
      }
    }
  }

  lemma StepPids(s: Sched, e: Event)
    requires Inv(s) && PidsOk(s) && s.nextPid < PIDS
    requires Step(s, e).nextPid != s.nextPid ==> s.nextPid + 1 < PIDS
    ensures PidsOk(Step(s, e)) && s.nextPid <= Step(s, e).nextPid <= s.nextPid + 1
  {
    if e.Create? && !s.halted {
      hide OnCreate, PidsOk;
      CreatePids(s, e.cr3, e.rsp, e.fpu, e.room);
    } else if !e.Create? {
      hide Step;
      TickSameTasks(s, e);
      StepInv(s, e);
    }
  }

  /** Until the pid counter wraps around, live tasks have distinct pids below it. */
  lemma {:induction false} PidsStayOk(s: Sched, es: seq<Event>)
    requires Inv(s) && PidsOk(s) && s.nextPid + Created(s, es) < PIDS
    ensures PidsOk(Exec(s, es)) && Exec(s, es).nextPid == s.nextPid + Created(s, es)
    decreases |es|
  {
    if es != [] {
      hide Step, PidsOk;
      StepInv(s, es[0]);
      StepPids(s, es[0]);
      PidsStayOk(Step(s, es[0]), es[1..]);
    }
  }

  lemma BootOk(cr3: nat, fpu: nat)
    ensures Inv(Boot(cr3, fpu)) && PidsOk(Boot(cr3, fpu)) && Boot(cr3, fpu).nextPid == 2
  {
  }

  lemma {:induction false} ExecCat(s: Sched, es: seq<Event>, fs: seq<Event>)
    requires Inv(s)
    ensures Exec(s, es + fs) == Exec(Exec(s, es), fs)
    ensures Created(s, es + fs) == Created(s, es) + Created(Exec(s, es), fs)
    decreases |es|
  {
    if es == [] {
      assert es + fs == fs;
    } else {
      hide Step;
      StepInv(s, es[0]);
      assert (es + fs)[0] == es[0] && (es + fs)[1..] == es[1..] + fs;
      ExecCat(Step(s, es[0]), es[1..], fs);
    }
  }

  /** From boot, over every history: one task runs, in its own address space; live tasks have distinct
      pids; and a pid that was handed out and has died is never alive again, as long as fewer tasks were
      created than there are pids left. */
  lemma FromBoot(cr3: nat, fpu: nat, es: seq<Event>, later: seq<Event>, pid: nat)
    requires Inv(Boot(cr3, fpu)) && 2 + Created(Boot(cr3, fpu), es) < PIDS
    ensures var s := Exec(Boot(cr3, fpu), es);
            && Inv(s) && PidsOk(s) && s.nextPid == 2 + Created(Boot(cr3, fpu), es)
            && (0 < pid < s.nextPid && !Alive(s.tasks, pid) ==>
                  (NeverAlive(s, later, pid) <==> 2 + Created(Boot(cr3, fpu), es + later) <= PIDS + pid))
  {
    hide Inv, PidsOk, Alive, Boot, NeverAlive;
    BootOk(cr3, fpu);
    PidsStayOk(Boot(cr3, fpu), es);
    ExecCat(Boot(cr3, fpu), es, later);
    var s := Exec(Boot(cr3, fpu), es);
    if 0 < pid < s.nextPid && !Alive(s.tasks, pid) {
      DeadForGood(s, later, pid);
    }
  }

  /** Pid 0 counts as alive exactly while some slot is unused. */
  lemma ZeroIsAlive(s: Sched)
    requires PidsOk(s)
    ensures Alive(s.tasks, 0) <==> exists i | 0 <= i < TASK_MAX :: s.tasks[i].state == Unused
  {
  }
}
