/** The shell's descriptor calls while other tasks run in between. Each call is preceded by
    any number of steps of other tasks; user tasks have no system call that spawns. */
module ShellOps {
  import opened Base
  import opened Pipes
  import opened Descriptors
  import opened DescriptorOps
  import opened DescriptorRuns
  import opened DescriptorTheorems
  import opened Sharing
  import opened VfsKernel

  /** What the tree and the heap answer to one vfs_open. */
  datatype OpenPlan = OpenPlan(found: NodeResult, malloc: bool)

  /** A step of another task: a descriptor call, or the start of its execve, which opens the new image
      and leaves the descriptor in the global that the shell's loader uses too. */
  datatype Move = Call(act: Act) | Image(task: Pid, plan: OpenPlan)

  function ActOf(m: Move): Act {
    match m
    case Call(act) => act
    case Image(task, plan) => Act(task, OpOpen(plan.found, O_RDONLY, plan.malloc))
  }

  predicate OthersOnly(moves: seq<Move>, t: Pid) {
    forall i | 0 <= i < |moves| :: ActOf(moves[i]).task != t && !ActOf(moves[i]).op.OpSpawn?
  }

  /** No task has come to hold a description that existed before, except `child`,
      which may hold what the parent's table `tbl` held. */
  ghost predicate Passed(s: Sys, s': Sys, child: Pid, tbl: Table) {
    && s.nextId <= s'.nextId && s.nextPid <= s'.nextPid && SameFiles(s, s')
    && forall u: Pid, f: FileId | f < s.nextId && Holds(s', u, f) ::
         Holds(s, u, f) || (u == child && Some(f) in tbl)
  }

  /** No task has come to hold a description that existed before, and those descriptions
      are what they were. */
  ghost predicate Sealed(s: Sys, s': Sys) {
    && s.nextId <= s'.nextId && s.nextPid <= s'.nextPid && SameFiles(s, s')
    && forall u: Pid, f: FileId | f < s.nextId && Holds(s', u, f) :: Holds(s, u, f)
  }

  lemma SealedTrans(s: Sys, s1: Sys, s2: Sys)
    requires Sealed(s, s1) && Sealed(s1, s2)
    ensures Sealed(s, s2)
  {
    hide Holds, SameFiles;
    SameFilesTrans(s, s1, s2);
  }

  /** What task t does not hold spreads to nobody. */
  ghost predicate Carried(s: Sys, s': Sys, t: Pid) {
    && s.nextId <= s'.nextId && s.nextPid <= s'.nextPid
    && forall u: Pid, f: FileId | f < s.nextId && !Holds(s, t, f) && Holds(s', u, f) :: Holds(s, u, f)
  }

  lemma CarriedTrans(s: Sys, s1: Sys, s2: Sys, t: Pid)
    requires Carried(s, s1, t) && Carried(s1, s2, t)
    ensures Carried(s, s2, t)
  {
    hide Holds;
  }

  lemma SealedCarries(s: Sys, s': Sys, t: Pid)
    requires Sealed(s, s')
    ensures Carried(s, s', t)
  {
    hide Holds;
  }

  lemma PassedCarries(s: Sys, s': Sys, child: Pid, t: Pid)
    requires t in s.tables && Passed(s, s', child, s.tables[t])
    ensures Carried(s, s', t)
  {
  }

  lemma SealedIds(s: Sys, s': Sys)
    requires Sealed(s, s')
    ensures s.nextId <= s'.nextId && s.nextPid <= s'.nextPid && SameFiles(s, s')
  {
  }

  ghost predicate HeldOnlyBy(s: Sys, f: FileId, who: set<Pid>) {
    forall u: Pid :: Holds(s, u, f) ==> u in who
  }

  lemma StepSealed(s: Sys, a: Act)
    requires Inv(s) && !a.op.OpSpawn?
    ensures Sealed(s, Step(s, a).0)
  {
    hide Step, Inv, Holds, SameFiles;
    NextIdGrows(s, a);
    StepSameFiles(s, a);
    forall u: Pid, f: FileId | f < s.nextId && Holds(Step(s, a).0, u, f) ensures Holds(s, u, f) {
      StepHolders(s, a, u, f);
    }
  }

  ghost predicate Ready(k: Vfs)
    reads k
  {
    && Inv(k.Value()) && k.current in k.tables && |k.tables[k.current]| == MAX_FDS
    && Coherent(k.journal) && k.elfFd == LastFd(k.journal)
  }

  /** Since journal j every loader for task t has closed the number that it had opened. */
  predicate Undisturbed(j: seq<LoaderEvent>, j': seq<LoaderEvent>, t: Pid) {
    j <= j' && forall i | |j| <= i < |j'| && j'[i].Drop? && j'[i].task == t :: j'[i].fd == j'[i].mine
  }

  lemma UndisturbedTrans(j: seq<LoaderEvent>, j1: seq<LoaderEvent>, j2: seq<LoaderEvent>, t: Pid)
    requires j <= j1 <= j2
    ensures Undisturbed(j, j2, t) <==> Undisturbed(j, j1, t) && Undisturbed(j1, j2, t)
  {
    assert forall i | 0 <= i < |j1| :: j2[i] == j1[i];
  }

  lemma JournalGrows(j: seq<LoaderEvent>, e: LoaderEvent)
    requires Coherent(j)
    requires e.Drop? ==> e.fd == LastFd(j) && e.mine == LastOf(j, e.task)
    ensures Coherent(j + [e]) && LastFd(j + [e]) == if e.Assign? then e.fd else LastFd(j)
  {
    var j' := j + [e];
    assert j'[..|j|] == j;
    forall i | 0 <= i < |j'| && j'[i].Drop?
      ensures j'[i].fd == LastFd(j'[..i]) && j'[i].mine == LastOf(j'[..i], j'[i].task)
    {
      assert i < |j| ==> j'[..i] == j[..i];
    }
  }

  /** The same said of assignments alone: whenever a loader of t closes, the last assignment of all carries the
      number of its own last one. */
  lemma UndisturbedIs(j: seq<LoaderEvent>, j': seq<LoaderEvent>, t: Pid)
    requires Coherent(j') && j <= j'
    ensures Undisturbed(j, j', t) <==>
            forall i | |j| <= i < |j'| && j'[i].Drop? && j'[i].task == t :: LastFd(j'[..i]) == LastOf(j'[..i], t)
  {
    hide LastFd, LastOf;
  }

  /** If no other task's loader assigns the global between a loader's open and its close, the loader closes
      the number that it opened. */
  lemma QuietIsUndisturbed(j: seq<LoaderEvent>, j': seq<LoaderEvent>, t: Pid)
    requires Coherent(j') && j <= j'
    requires forall i | |j| <= i < |j'| && j'[i].Drop? && j'[i].task == t ::
               i > 0 && j'[i - 1].Assign? && j'[i - 1].task == t
    ensures Undisturbed(j, j', t)
  {
    forall i | |j| <= i < |j'| && j'[i].Drop? && j'[i].task == t ensures j'[i].fd == j'[i].mine {
      assert j'[..i][i - 1] == j'[i - 1];
    }
  }

  ghost function Tbl(k: Vfs): Table
    requires k.current in k.tables
    reads k
  {
    k.tables[k.current]
  }

  /** Other tasks take any number of steps; the running task's table is untouched. */
  method Yield(k: Vfs)
    requires Ready(k)
    modifies k
    ensures Ready(k) && k.current == old(k.current) && Tbl(k) == old(Tbl(k))
    ensures Sealed(old(k.Value()), k.Value()) && k.nextPid == old(k.nextPid)
    ensures k.tables.Keys <= old(k.tables.Keys)
    ensures Foreign(old(k.journal), k.journal, k.current)
    ensures forall e | |old(k.journal)| <= e < |k.journal| :: k.journal[e].task in old(k.tables)
  {
    hide Inv, Sealed, Coherent, LastFd, LastOf;
    SealedRefl(k.Value());
    assert OthersOnly([], k.current);
    var moves: seq<Move> :| OthersOnly(moves, k.current);
    for i := 0 to |moves|
      invariant OthersOnly(moves, k.current)
      invariant Ready(k) && k.current == old(k.current) && Tbl(k) == old(Tbl(k))
      invariant Sealed(old(k.Value()), k.Value()) && k.nextPid == old(k.nextPid)
      invariant k.tables.Keys <= old(k.tables.Keys)
      invariant Foreign(old(k.journal), k.journal, k.current)
      invariant forall e | |old(k.journal)| <= e < |k.journal| :: k.journal[e].task in old(k.tables)
    {
      hide Step, ActOf;
      ghost var s := k.Value();
      var act := ActOf(moves[i]);
      StepSealed(s, act);
      StepOthers(s, act, k.current);
      TasksOnlyBySpawn(s, act);
      SealedTrans(old(k.Value()), s, Step(s, act).0);
      var runs := act.task in k.tables;
      var o := k.DoStep(act);
      if moves[i].Image? && runs && o.Ret? {
        JournalGrows(k.journal, Assign(act.task, o.code));
        k.elfFd := o.code;
        k.journal := k.journal + [Assign(act.task, o.code)];
      }
    }
  }

  /** Since journal j only loaders of other tasks have assigned the global. */
  ghost predicate Foreign(j: seq<LoaderEvent>, j': seq<LoaderEvent>, t: Pid) {
    j <= j' && forall i | |j| <= i < |j'| :: j'[i].Assign? && j'[i].task != t
  }

  lemma ForeignTrans(j: seq<LoaderEvent>, j1: seq<LoaderEvent>, j2: seq<LoaderEvent>, t: Pid)
    requires Foreign(j, j1, t) && Foreign(j1, j2, t)
    ensures Foreign(j, j2, t)
  {
    assert forall i | 0 <= i < |j1| :: j2[i] == j1[i];
  }

  lemma ForeignIsUndisturbed(j: seq<LoaderEvent>, j': seq<LoaderEvent>, t: Pid)
    requires Foreign(j, j', t)
    ensures Undisturbed(j, j', t)
  {
  }

  lemma {:induction false} ForeignLast(j: seq<LoaderEvent>, j': seq<LoaderEvent>, t: Pid)
    requires Foreign(j, j', t)
    ensures LastOf(j', t) == LastOf(j, t)
    decreases |j'|
  {
    if |j'| > |j| {
      var i := j'[..|j'| - 1];
      assert forall k | 0 <= k < |i| :: i[k] == j'[k];
      ForeignLast(j, i, t);
    } else {
      assert j' == j;
    }
  }

  lemma TasksOnlyBySpawn(s: Sys, a: Act)
    requires Inv(s) && !a.op.OpSpawn?
    ensures Step(s, a).0.nextPid == s.nextPid && Step(s, a).0.tables.Keys <= s.tables.Keys
  {
    hide FileOk, PipeOk, TablesOk, Holders, ReadPassOf, WritePassOf, FirstFree;
  }

  // ---- free slots ----

  /** The free slots beyond the standard ones. */
  ghost function FreeSlots(t: Table): set<nat> {
    set x | 3 <= x < |t| && t[x] == None
  }

  lemma SomeFree(t: Table)
    requires |t| == MAX_FDS
    ensures FirstFree(t, 3) < MAX_FDS <==> |FreeSlots(t)| >= 1
  {
    hide FirstFree;
    var i := FirstFree(t, 3);
    if i < MAX_FDS {
      assert i in FreeSlots(t);
    } else {
      assert FreeSlots(t) == {};
    }
  }

  lemma TwoFree(t: Table)
    requires |t| == MAX_FDS
    ensures PipeSlots(t).Some? <==> |FreeSlots(t)| >= 2
  {
    hide FirstFree, FreeSlots;
    SomeFree(t);
    var a := FirstFree(t, 3);
    if a < MAX_FDS {
      var b := FirstFree(t, a + 1);
      assert PipeSlots(t).Some? <==> b < MAX_FDS;
      if b < MAX_FDS {
        TwoAreFree(t, a, b);
      } else {
        OneIsFree(t, a);
      }
    }
  }

  lemma TwoAreFree(t: Table, a: nat, b: nat)
    requires 3 <= a < b < |t| && t[a] == None && t[b] == None
    ensures |FreeSlots(t)| >= 2
  {
    assert FreeSlots(t) == {a, b} + (FreeSlots(t) - {a, b});
  }

  lemma OneIsFree(t: Table, a: nat)
    requires 3 <= a < |t| && t[a] == None && forall x | 3 <= x < |t| && x != a :: t[x].Some?
    ensures |FreeSlots(t)| == 1
  {
    assert FreeSlots(t) == {a};
  }

  /** The file is found and there is memory for its description. */
  predicate CanOpen(plan: OpenPlan) {
    plan.found.Found? && plan.malloc
  }

  // ---- single calls ----

  method ShDup(k: Vfs, fd: int) returns (code: int)
    requires Ready(k)
    modifies k
    ensures Ready(k) && k.current == old(k.current)
    ensures Sealed(old(k.Value()), k.Value()) && k.nextPid == old(k.nextPid)
    ensures Foreign(old(k.journal), k.journal, k.current)
    ensures var t := old(Tbl(k));
            if 0 <= fd < MAX_FDS && t[fd].Some? && FirstFree(t, 0) < MAX_FDS
            then code == FirstFree(t, 0) && Tbl(k) == t[code := t[fd]]
            else code < 0 && Tbl(k) == t
  {
    hide FileOk, PipeOk, Dup, Holds, Sealed, TablesOk;
    Yield(k);
    ghost var s := k.Value();
    DupKeeps(s, k.current, fd);
    code := k.VfsDup(fd);
    StepSealed(s, Act(k.current, OpDup(fd)));
    SealedTrans(old(k.Value()), s, k.Value());
    DupTable(s, k.current, fd);
  }

  lemma DupTable(s: Sys, t: Pid, fd: int)
    requires Inv(s) && t in s.tables
    ensures |s.tables[t]| == MAX_FDS
    ensures var (s', code) := Dup(s, t, fd);
            && s'.nextPid == s.nextPid && t in s'.tables && |s'.tables[t]| == MAX_FDS
            && if 0 <= fd < MAX_FDS && s.tables[t][fd].Some? && FirstFree(s.tables[t], 0) < MAX_FDS
               then code == FirstFree(s.tables[t], 0) && s'.tables[t] == s.tables[t][code := s.tables[t][fd]]
               else code < 0 && s'.tables[t] == s.tables[t]
  {
    hide FileOk, PipeOk;
  }

  method ShDup2(k: Vfs, from: int, to: int) returns (code: int)
    requires Ready(k)
    modifies k
    ensures Ready(k) && k.current == old(k.current)
    ensures Sealed(old(k.Value()), k.Value()) && k.nextPid == old(k.nextPid)
    ensures Foreign(old(k.journal), k.journal, k.current)
    ensures var t := old(Tbl(k));
            Tbl(k) == if 0 <= from < MAX_FDS && t[from].Some? && 0 <= to < MAX_FDS
                      then t[to := t[from]] else t
  {
    hide FileOk, PipeOk, Dup2, Holds, Sealed, TablesOk;
    Yield(k);
    ghost var s := k.Value();
    Dup2Keeps(s, k.current, from, to);
    code := k.VfsDup2(from, to);
    StepSealed(s, Act(k.current, OpDup2(from, to)));
    SealedTrans(old(k.Value()), s, k.Value());
    Dup2Table(s, k.current, from, to);
  }

  lemma Dup2Table(s: Sys, t: Pid, from: int, to: int)
    requires Inv(s) && t in s.tables
    ensures var s' := Dup2(s, t, from, to).0;
            && s'.nextPid == s.nextPid && t in s'.tables
            && s'.tables[t] == if 0 <= from < MAX_FDS && s.tables[t][from].Some? && 0 <= to < MAX_FDS
                               then s.tables[t][to := s.tables[t][from]] else s.tables[t]
  {
    hide FileOk, PipeOk, FileUnref;
    if OpenFd(s, t, from) && 0 <= to < MAX_FDS && from != to {
      VacateKeeps(s, t, from, to);
    }
  }

  method ShClose(k: Vfs, fd: int)
    requires Ready(k)
    modifies k
    ensures Ready(k) && k.current == old(k.current)
    ensures Sealed(old(k.Value()), k.Value()) && k.nextPid == old(k.nextPid)
    ensures Foreign(old(k.journal), k.journal, k.current)
    ensures Tbl(k) == if 0 <= fd < MAX_FDS then old(Tbl(k))[fd := None] else old(Tbl(k))
    ensures k.tables.Keys <= old(k.tables.Keys)
  {
    hide FileOk, PipeOk, Close, Holds, Sealed, TablesOk;
    Yield(k);
    ghost var s := k.Value();
    CloseKeeps(s, k.current, fd);
    var code := k.VfsClose(fd);
    StepSealed(s, Act(k.current, OpClose(fd)));
    SealedTrans(old(k.Value()), s, k.Value());
    CloseTable(s, k.current, fd);
  }

  lemma CloseTable(s: Sys, t: Pid, fd: int)
    requires Inv(s) && t in s.tables
    ensures |s.tables[t]| == MAX_FDS
    ensures var s' := Close(s, t, fd).0;
            && s'.nextPid == s.nextPid && s'.tables.Keys == s.tables.Keys
            && s'.tables[t] == if 0 <= fd < MAX_FDS then s.tables[t][fd := None] else s.tables[t]
  {
    hide FileOk, PipeOk;
  }

  /** The slot holds a description of the node that the plan found, opened with these flags and not yet used: at the
      end of the node if they ask for appending, and at its start otherwise. */
  ghost predicate OpenedAs(s: Sys, v: Slot, plan: OpenPlan, flags: nat) {
    && v.Some? && v.value in s.files && plan.found.Found?
    && s.files[v.value].target == Node(plan.found.node) && s.files[v.value].flags == flags
    && s.files[v.value].pos == if flags / 0x400 % 2 == 1 then plan.found.size else 0
  }

  method ShOpen(k: Vfs, plan: OpenPlan, flags: nat) returns (fd: int)
    requires Ready(k)
    modifies k
    ensures Ready(k) && k.current == old(k.current)
    ensures Sealed(old(k.Value()), k.Value()) && k.nextPid == old(k.nextPid)
    ensures Foreign(old(k.journal), k.journal, k.current)
    ensures fd >= 0 <==> CanOpen(plan) && |FreeSlots(old(Tbl(k)))| >= 1
    ensures if 0 <= fd
            then 3 <= fd < MAX_FDS && old(Tbl(k))[fd] == None && Tbl(k)[fd].Some?
                 && old(k.nextId) <= Tbl(k)[fd].value < k.nextId
                 && OpenedAs(k.Value(), Tbl(k)[fd], plan, flags)
                 && Tbl(k) == old(Tbl(k))[fd := Tbl(k)[fd]]
            else Tbl(k) == old(Tbl(k))
  {
    hide FreeSlots;
    Yield(k);
    ghost var s := k.Value();
    SomeFree(Tbl(k));
    OpenKeeps(s, k.current, plan.found, flags, plan.malloc);
    fd := k.VfsOpen(plan.found, flags, plan.malloc);
    StepSealed(s, Act(k.current, OpOpen(plan.found, flags, plan.malloc)));
    SealedTrans(old(k.Value()), s, k.Value());
  }

  /** A new pipe p: only the caller holds its ends. */
  method ShPipe(k: Vfs, malloc: bool) returns (ok: bool, r: nat, w: nat, ghost p: PipeId)
    requires Ready(k)
    modifies k
    ensures Ready(k) && k.current == old(k.current)
    ensures Sealed(old(k.Value()), k.Value()) && k.nextPid == old(k.nextPid)
    ensures Foreign(old(k.journal), k.journal, k.current)
    ensures ok <==> malloc && |FreeSlots(old(Tbl(k)))| >= 2
    ensures !ok ==> Tbl(k) == old(Tbl(k))
    ensures ok ==>
      && old(k.nextId) <= p && p + 2 < k.nextId
      && 3 <= r < w < MAX_FDS && old(Tbl(k))[r] == None && old(Tbl(k))[w] == None
      && Tbl(k) == old(Tbl(k))[r := Some(p + 1)][w := Some(p + 2)]
      && HeldOnlyBy(k.Value(), p + 2, {k.current})
  {
    hide FileOk, PipeOk, Holds, FirstFree, Sealed, FreeSlots;
    Yield(k);
    ghost var s := k.Value();
    p := s.nextId;
    TwoFree(Tbl(k));
    MakePipeKeeps(s, k.current, malloc);
    SealedIds(old(k.Value()), s);
    var code;
    code, r, w := k.VfsPipe(malloc);
    ok := code == 0;
    StepSealed(s, Act(k.current, OpPipe(malloc)));
    SealedTrans(old(k.Value()), s, k.Value());
    if ok {
      NewPipeOwner(s, k.current, malloc);
    }
  }

  lemma NewPipeOwner(s: Sys, t: Pid, malloc: bool)
    requires Inv(s) && t in s.tables && MakePipe(s, t, malloc).1.Some?
    ensures HeldOnlyBy(MakePipe(s, t, malloc).0, s.nextId + 2, {t})
  {
    FreshUnheld(s, s.nextId + 2);
    NoHolderIsEmpty(s, s.nextId + 2);
    var s', f := MakePipe(s, t, malloc).0, s.nextId + 2;
    forall u: Pid | Holds(s', u, f) ensures u == t {
      assert !Holds(s, u, f);
    }
  }

  // ---- starting a program ----

  /** How elf_exec fares: what vfs_open finds, and whether the image can be loaded and a
      task created. */
  datatype ExecPlan = ExecPlan(open: OpenPlan, loads: bool)

  predicate CanExec(plan: ExecPlan) {
    CanOpen(plan.open) && plan.loads
  }

  lemma SpawnPasses(s: Sys, t: Pid)
    requires Inv(s) && t in s.tables
    ensures Passed(s, Spawn(s, t), s.nextPid, s.tables[t])
  {
    hide Inv;
    SpawnSameFiles(s, t);
  }

  lemma PassedAround(s: Sys, s1: Sys, s2: Sys, s3: Sys, child: Pid, tbl: Table, tbl1: Table)
    requires Sealed(s, s1) && Passed(s1, s2, child, tbl1) && Sealed(s2, s3)
    requires forall f: FileId | f < s.nextId :: Some(f) in tbl1 ==> Some(f) in tbl
    ensures Passed(s, s3, child, tbl)
  {
    hide Holds, SameFiles;
    SameFilesTrans(s, s1, s2);
    SameFilesTrans(s, s2, s3);
  }

  /** vfs_close on a table. */
  function Closed(t: Table, fd: int): (r: Table)
    ensures |r| == |t|
  {
    if 0 <= fd < |t| then t[fd := None] else t
  }

  /** The image stayed open in slot x, with a description no older than n, and fd was closed in its place. */
  ghost predicate Leaked(t: Table, t': Table, x: int, fd: int, n: nat) {
    && |t| == |t'| == MAX_FDS && 3 <= x < MAX_FDS && fd != x
    && t[x] == None && t'[x].Some? && t'[x].value >= n && t' == Closed(t[x := t'[x]], fd)
  }

  /** elf_exec: the child inherits the table, including the slot of its own image file. At the end the
      shell closes whatever number the global then holds. Its table ends as it was exactly when that is
      the number it opened; otherwise the image stays open and another slot is closed. */
  method ElfExec(k: Vfs, plan: ExecPlan) returns (pid: int, ghost image: int, ghost closed: int, ghost at: Sys)
    requires Ready(k)
    modifies k
    ensures Ready(k) && k.current == old(k.current) && old(k.journal) <= k.journal
    ensures pid >= 0 <==> CanExec(plan) && |FreeSlots(old(Tbl(k)))| >= 1
    ensures Tbl(k) == old(Tbl(k)) <==> Undisturbed(old(k.journal), k.journal, k.current)
    ensures !Undisturbed(old(k.journal), k.journal, k.current) ==>
      Leaked(old(Tbl(k)), Tbl(k), image, closed, old(k.nextId))
    ensures pid < 0 ==> Sealed(old(k.Value()), k.Value()) && k.nextPid == old(k.nextPid)
    ensures pid >= 0 ==>
      && pid == old(k.nextPid) && k.nextPid == pid + 1 && pid != k.current
      && Passed(old(k.Value()), k.Value(), pid, old(Tbl(k)))
      && Inherited(old(k.Value()), at, pid, old(Tbl(k)))
  {
    hide Inv, Holds, Sealed, Passed, Spawn, SameFiles, Coherent, LastFd, LastOf, Foreign, Undisturbed, FreeSlots;
    ghost var s, j := k.Value(), k.journal;
    at := s;
    var fd := OpenImage(k, plan.open);
    image, closed := fd, fd;
    ghost var s1, j1 := k.Value(), k.journal;
    if fd < 0 {
      return fd, image, closed, at;
    }
    if !plan.loads {
      pid := -ENOMEM;
      closed := DropImage(k, fd);
      SealedTrans(s, s1, k.Value());
    } else {
      CurrentIsOld(k);
      SpawnPasses(s1, k.current);
      pid := k.CreateTask();
      ghost var s2 := k.Value();
      at := s2;
      SealedIds(s, s1);
      PassedFiles(s1, s2, pid, s1.tables[k.current]);
      SameFilesTrans(s, s1, s2);
      closed := DropImage(k, fd);
      PassedAround(s, s1, s2, k.Value(), pid, s.tables[k.current], s1.tables[k.current]);
    }
    UndisturbedTrans(j, j1, k.journal, k.current);
  }

  /** The open at the start of elf_exec, whose result goes to the global; then others run. */
  method OpenImage(k: Vfs, plan: OpenPlan) returns (fd: int)
    requires Ready(k)
    modifies k
    ensures Ready(k) && k.current == old(k.current)
    ensures Sealed(old(k.Value()), k.Value()) && k.nextPid == old(k.nextPid)
    ensures old(k.journal) <= k.journal && Undisturbed(old(k.journal), k.journal, k.current)
    ensures LastOf(k.journal, k.current) == fd
    ensures fd >= 0 <==> CanOpen(plan) && |FreeSlots(old(Tbl(k)))| >= 1
    ensures if 0 <= fd
            then 3 <= fd < MAX_FDS && old(Tbl(k))[fd] == None && Tbl(k)[fd].Some?
                 && old(k.nextId) <= Tbl(k)[fd].value && Tbl(k) == old(Tbl(k))[fd := Tbl(k)[fd]]
            else Tbl(k) == old(Tbl(k))
  {
    hide Inv, Sealed, Coherent, LastFd, Foreign, OpenedAs, FreeSlots;
    ghost var s, j := k.Value(), k.journal;
    fd := ShOpen(k, plan, O_RDONLY);
    ghost var s1, j1 := k.Value(), k.journal;
    ForeignIsUndisturbed(j, j1, k.current);
    JournalGrows(j1, Assign(k.current, fd));
    k.elfFd := fd;
    k.journal := k.journal + [Assign(k.current, fd)];
    ghost var j2 := k.journal;
    assert LastOf(j2, k.current) == fd;
    Yield(k);
    SealedTrans(s, s1, k.Value());
    ForeignLast(j2, k.journal, k.current);
    ForeignIsUndisturbed(j2, k.journal, k.current);
    ForeignExtends(j2, k.journal, k.current);
    UndisturbedTrans(j, j2, k.journal, k.current);
  }

  lemma ForeignExtends(j: seq<LoaderEvent>, j': seq<LoaderEvent>, t: Pid)
    requires Foreign(j, j', t)
    ensures j <= j'
  {
  }

  /** The close at the end of elf_exec: the number comes from the global. */
  method DropImage(k: Vfs, fd: int) returns (ghost closed: int)
    requires Ready(k) && LastOf(k.journal, k.current) == fd
    modifies k
    ensures Ready(k) && k.current == old(k.current) && old(k.journal) <= k.journal
    ensures Sealed(old(k.Value()), k.Value()) && k.nextPid == old(k.nextPid)
    ensures Tbl(k) == Closed(old(Tbl(k)), closed)
    ensures closed == fd <==> Undisturbed(old(k.journal), k.journal, k.current)
  {
    hide Inv, Sealed, Coherent, LastFd, LastOf, Foreign;
    ghost var s, j := k.Value(), k.journal;
    Yield(k);
    ghost var s1, j1 := k.Value(), k.journal;
    var number := k.elfFd;
    closed := number;
    ForeignLast(j, j1, k.current);
    JournalGrows(j1, Drop(k.current, fd, number));
    k.journal := k.journal + [Drop(k.current, fd, number)];
    ghost var j2 := k.journal;
    ShClose(k, number);
    SealedTrans(s, s1, k.Value());
    ForeignIsUndisturbed(j, j1, k.current);
    ForeignIsUndisturbed(j2, k.journal, k.current);
    ForeignExtends(j2, k.journal, k.current);
    UndisturbedTrans(j, j1, j2, k.current);
    UndisturbedTrans(j, j2, k.journal, k.current);
    assert j2[|j1|] == Drop(k.current, fd, number);
  }

  lemma OpenStep(s: Sys, t: Pid, plan: OpenPlan)
    requires Inv(s) && t in s.tables && plan.found.Found? && plan.malloc && FirstFree(s.tables[t], 3) < MAX_FDS
    ensures var (s', o) := Step(s, ActOf(Image(t, plan)));
            var x := FirstFree(s.tables[t], 3);
            o == Ret(x) && s'.nextId == s.nextId + 1 && s'.nextPid == s.nextPid
            && s'.tables == s.tables[t := s.tables[t][x := Some(s.nextId)]]
  {
    hide FileOk, PipeOk, FirstFree;
  }

  lemma CloseStep(s: Sys, t: Pid, fd: int)
    requires Inv(s) && t in s.tables
    ensures Step(s, Act(t, OpClose(fd))).0.tables == s.tables[t := Closed(s.tables[t], fd)]
  {
    hide FileOk, PipeOk;
    TableLength(s, t);
    CloseKeeps(s, t, fd);
    assert Step(s, Act(t, OpClose(fd))).0 == Close(s, t, fd).0;
    if !OpenFd(s, t, fd) {
      assert Closed(s.tables[t], fd) == s.tables[t];
    }
  }

  /** The shell's loader opens its image, another task's execve opens its own, the shell closes the number
      in the global: the shell's table is as before exactly when both got the same number. */
  lemma TwoLoaders(s: Sys, shell: Pid, other: Pid, p: OpenPlan, q: OpenPlan)
    requires Inv(s) && shell in s.tables && other in s.tables && shell != other
    requires p.found.Found? && p.malloc && FirstFree(s.tables[shell], 3) < MAX_FDS
    requires q.found.Found? && q.malloc && FirstFree(s.tables[other], 3) < MAX_FDS
    ensures var (s1, o1) := Step(s, ActOf(Image(shell, p)));
            var (s2, o2) := Step(s1, ActOf(Image(other, q)));
            && o1.Ret? && o2.Ret?
            && var s3 := Step(s2, Act(shell, OpClose(o2.code))).0;
               shell in s3.tables && (s3.tables[shell] == s.tables[shell] <==> o1.code == o2.code)
  {
    hide Inv, Step, FirstFree;
    TableLength(s, shell);
    var x, y := FirstFree(s.tables[shell], 3), FirstFree(s.tables[other], 3);
    OpenStep(s, shell, p);
    var s1 := Step(s, ActOf(Image(shell, p))).0;
    OpenStep(s1, other, q);
    var s2 := Step(s1, ActOf(Image(other, q))).0;
    CloseStep(s2, shell, y);
    var t, t' := s.tables[shell], Closed(s.tables[shell][x := Some(s.nextId)], y);
    assert t[x] == None && (x != y ==> t'[x].Some?) && (x == y ==> t' == t);
  }

  /** What the shell does for one program that is still running: open the image, start it, close the image. */
  function OneProgram(plan: OpenPlan): seq<Act> {
    [ActOf(Image(1, plan)), Act(1, OpSpawn), Act(1, OpClose(3))]
  }

  /** From boot: the shell has started one program, which still has its own image open in slot 3. While
      the shell starts the next program, the first one calls execve; the shell ends with the image in
      slot 3 open. */
  lemma LeakFromBoot(plan: OpenPlan)
    requires plan.found.Found? && plan.malloc
    ensures var s := Exec(Boot(), OneProgram(plan));
            && 1 in s.tables && s.tables[1] == Boot().tables[1] && 2 in s.tables
            && var s3 := Exec(s, [ActOf(Image(1, plan)), ActOf(Image(2, plan)), Act(1, OpClose(4))]);
               1 in s3.tables && s3.tables[1] != s.tables[1]
  {
    hide Inv, Step, FirstFree;
    var s := Boot();
    FreeAt(s.tables[1], 3);
    OpenStep(s, 1, plan);
    var s1 := Step(s, ActOf(Image(1, plan))).0;
    var s2 := Step(s1, Act(1, OpSpawn)).0;
    SpawnStep(s1, 1);
    CloseStep(s2, 1, 3);
    var s3 := Step(s2, Act(1, OpClose(3))).0;
    assert s3.tables[1] == s.tables[1];
    FreeAt(s3.tables[2], 4);
    ThreeSteps(s, ActOf(Image(1, plan)), Act(1, OpSpawn), Act(1, OpClose(3)));
    ThreeSteps(s3, ActOf(Image(1, plan)), ActOf(Image(2, plan)), Act(1, OpClose(4)));
    OpenStep(s3, 1, plan);
    OpenStep(Step(s3, ActOf(Image(1, plan))).0, 2, plan);
    TwoLoaders(s3, 1, 2, plan, plan);
  }

  lemma FreeAt(t: Table, x: nat)
    requires 3 <= x < |t| && t[x] == None && forall k | 3 <= k < x :: t[k].Some?
    ensures FirstFree(t, 3) == x
  {
    FirstFreeUnique(t, 3, x);
  }

  lemma SpawnStep(s: Sys, t: Pid)
    requires Inv(s) && t in s.tables
    ensures Step(s, Act(t, OpSpawn)).0.tables == s.tables[s.nextPid := s.tables[t]]
  {
    hide Inv;
  }

  lemma ExecCons(s: Sys, a: Act, rest: seq<Act>)
    requires Inv(s)
    ensures Exec(s, [a] + rest) == Exec(Step(s, a).0, rest)
  {
    hide Step, Inv;
    assert ([a] + rest)[1..] == rest;
  }

  lemma ThreeSteps(s: Sys, a: Act, b: Act, c: Act)
    requires Inv(s)
    ensures Exec(s, [a, b, c]) == Step(Step(Step(s, a).0, b).0, c).0
  {
    hide Step, Inv, Exec;
    var s1 := Step(s, a).0;
    var s2 := Step(s1, b).0;
    ExecCons(s, a, [b, c]);
    ExecCons(s1, b, [c]);
    ExecCons(s2, c, []);
    assert [a] + [b, c] == [a, b, c] && [b] + [c] == [b, c] && [c] + [] == [c];
    assert Exec(Step(s2, c).0, []) == Step(s2, c).0 by { ExecNone(Step(s2, c).0); }
  }

  lemma ExecNone(s: Sys)
    requires Inv(s)
    ensures Exec(s, []) == s
  {
  }

  // ---- a full table ----

  lemma FreeFrom(t: Table, x: nat)
    requires |t| == MAX_FDS && 3 <= x <= MAX_FDS && (forall k | 3 <= k < x :: t[k].Some?)
    requires x < MAX_FDS ==> t[x] == None
    ensures FirstFree(t, 3) == x
  {
    FirstFreeUnique(t, 3, x);
  }

  /** Opening files until the table is full, and one more. */
  lemma {:induction false} OpensOverflow(s: Sys, t: Pid, plan: OpenPlan, x: nat)
    requires Inv(s) && t in s.tables && |s.tables[t]| == MAX_FDS && 3 <= x <= MAX_FDS
    requires plan.found.Found? && plan.malloc
    requires (forall k | 3 <= k < x :: s.tables[t][k].Some?) && (forall k | x <= k < MAX_FDS :: s.tables[t][k] == None)
    ensures SomeOpenOverflows(s, seq(MAX_FDS - x + 1, _ => ActOf(Image(t, plan))))
    decreases MAX_FDS - x
  {
    hide Inv, Step, FirstFree;
    var acts := seq(MAX_FDS - x + 1, _ => ActOf(Image(t, plan)));
    FreeFrom(s.tables[t], x);
    if x < MAX_FDS {
      OpenStep(s, t, plan);
      assert acts[1..] == seq(MAX_FDS - (x + 1) + 1, _ => ActOf(Image(t, plan)));
      OpensOverflow(Step(s, acts[0]).0, t, plan, x + 1);
    }
  }

  /** From boot the fourteenth file that the shell opens and keeps open is lost. */
  lemma LostFromBoot(plan: OpenPlan)
    requires plan.found.Found? && plan.malloc
    ensures Lost(Boot()) == {} && Lost(Exec(Boot(), seq(14, _ => ActOf(Image(1, plan))))) != {}
  {
    hide Inv, Exec, SomeOpenOverflows;
    var s := Boot();
    assert Lost(s) == {} by {
      NoneLostAtBoot();
    }
    OpensOverflow(s, 1, plan, 3);
    LostExactlyByOverflow(s, seq(14, _ => ActOf(Image(1, plan))));
  }

  lemma NoneLostAtBoot()
    ensures Lost(Boot()) == {}
  {
    var s := Boot();
    forall f | f in s.files ensures Holders(s.tables, f) != {} {
      assert (1, f) in Holders(s.tables, f);
    }
  }

  /** In state `at` the child has every open slot of the table it was started from. */
  ghost predicate Inherited(s: Sys, at: Sys, child: Pid, tbl: Table) {
    && SameFiles(s, at) && Inv(at) && child in at.tables && |at.tables[child]| == |tbl|
    && forall x | 0 <= x < |tbl| && tbl[x].Some? :: at.tables[child][x] == tbl[x]
  }

  lemma PassedFiles(s: Sys, s': Sys, child: Pid, tbl: Table)
    requires Passed(s, s', child, tbl)
    ensures SameFiles(s, s')
  {
  }

  lemma CurrentIsOld(k: Vfs)
    requires Ready(k)
    ensures k.current < k.nextPid
  {
  }

  // ---- builtins ----

  /** What an ordinary builtin does with descriptors: pipe passes on slots it was given, and files that
      it opens, uses and closes. */
  datatype Errand =
    | Done
    | ReadOn(fd: int, count: nat, rest: Errand)
    | WriteOn(fd: int, data: seq<byte>, rest: Errand)
    | WithFile(plan: OpenPlan, flags: nat, body: Errand, rest: Errand)

  /** A builtin runs in the shell itself; `exec` alone starts a program, one. */
  datatype Builtin = Errands(work: Errand) | StartProgram(exec: ExecPlan)

  /** One pipe pass of the running task on its own table. */
  method ShPass(k: Vfs, op: Op) returns (o: Outcome)
    requires Ready(k) && MovesBytes(op)
    modifies k
    ensures Ready(k) && k.current == old(k.current) && Tbl(k) == old(Tbl(k))
    ensures Sealed(old(k.Value()), k.Value()) && k.nextPid == old(k.nextPid)
    ensures Foreign(old(k.journal), k.journal, k.current)
  {
    hide Inv, Holds, Sealed, Read, Write;
    Yield(k);
    ghost var s := k.Value();
    StepSealed(s, Act(k.current, op));
    PassTables(s, k.current, op);
    o := k.DoStep(Act(k.current, op));
    SealedTrans(old(k.Value()), s, k.Value());
  }

  lemma PassTables(s: Sys, t: Pid, op: Op)
    requires Inv(s) && MovesBytes(op)
    ensures Step(s, Act(t, op)).0.tables == s.tables && Step(s, Act(t, op)).0.nextPid == s.nextPid
  {
    hide Inv, Read, Write;
    if op.OpRead? {
      ReadShape(s, t, op.fd, op.count);
    } else {
      WriteShape(s, t, op.fd, op.data);
    }
  }

  lemma SealedRefl(s: Sys)
    ensures Sealed(s, s)
  {
  }

  /** An ordinary builtin leaves the shell's table as it was and passes nothing on. */
  method RunErrand(k: Vfs, b: Errand)
    requires Ready(k)
    modifies k
    ensures Ready(k) && k.current == old(k.current) && Tbl(k) == old(Tbl(k))
    ensures Sealed(old(k.Value()), k.Value()) && k.nextPid == old(k.nextPid)
    ensures Foreign(old(k.journal), k.journal, k.current)
    decreases b, 1
  {
    hide Inv, Holds, Sealed;
    ghost var s := k.Value();
    if b.Done? {
      SealedRefl(s);
    } else {
      RunItem(k, b);
      ghost var s1 := k.Value();
      RunErrand(k, b.rest);
      SealedTrans(s, s1, k.Value());
    }
  }

  /** The first thing a builtin does. */
  method RunItem(k: Vfs, b: Errand)
    requires Ready(k) && !b.Done?
    modifies k
    ensures Ready(k) && k.current == old(k.current) && Tbl(k) == old(Tbl(k))
    ensures Sealed(old(k.Value()), k.Value()) && k.nextPid == old(k.nextPid)
    ensures Foreign(old(k.journal), k.journal, k.current)
    decreases b, 0
  {
    hide Inv, Holds, Sealed;
    ghost var s := k.Value();
    match b {
      case ReadOn(fd, count, _) =>
        var o := ShPass(k, OpRead(fd, count));
      case WriteOn(fd, data, _) =>
        var o := ShPass(k, OpWrite(fd, data));
      case WithFile(plan, flags, body, _) =>
        var fd := ShOpen(k, plan, flags);
        ghost var s1 := k.Value();
        if fd >= 0 {
          RunErrand(k, body);
          ghost var s2 := k.Value();
          ShClose(k, fd);
          SealedTrans(s, s1, s2);
          SealedTrans(s, s2, k.Value());
        }
    }
  }
}
