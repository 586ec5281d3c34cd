/** The descriptor operations of kernel/vfs/vfs.c and the task lifecycle of
    kernel/sched/sched.c as steps on Descriptors.Sys. A step is one table operation, or
    one pass of a pipe call between two hlt() waits; steps are atomic. */
module DescriptorOps {
  import opened Base
  import opened Pipes
  import opened Descriptors

  function EmptyTable(): Table {
    seq(MAX_FDS, _ => None)
  }

  /** The lowest free slot at or above `from`; the table's length when there is none. */
  function FirstFree(tbl: Table, from: nat): (i: nat)
    requires from <= |tbl|
    ensures from <= i <= |tbl|
    ensures i < |tbl| ==> tbl[i] == None
    ensures forall k | from <= k < i :: tbl[k].Some?
    decreases |tbl| - from
  {
    if from == |tbl| || tbl[from].None? then from else FirstFree(tbl, from + 1)
  }

  // ---- table operations ----

  ghost function Close(s: Sys, t: Pid, fd: int): (r: (Sys, int))
    requires Inv(s)
  {
    if !OpenFd(s, t, fd) then (s, -EBADF)
    else
      SlotAlive(s, t, fd);
      (Detach(s, t, fd), 0)
  }

  ghost function Dup(s: Sys, t: Pid, fd: int): (r: (Sys, int))
    requires Inv(s)
  {
    if !OpenFd(s, t, fd) then (s, -EBADF)
    else
      var i := FirstFree(s.tables[t], 0);
      if i == MAX_FDS then (s, -ENOMEM)
      else
        SlotAlive(s, t, fd);
        (Attach(s, t, i, s.tables[t][fd].value), i)
  }

  /** The state in which vfs_dup2 has dropped the file that was on the target slot. */
  ghost function Vacate(s: Sys, t: Pid, fd: nat): Sys
    requires Inv(s) && t in s.tables && fd < MAX_FDS
  {
    if OpenFd(s, t, fd) then
      SlotAlive(s, t, fd);
      Detach(s, t, fd)
    else s
  }

  lemma VacateKeeps(s: Sys, t: Pid, old_: nat, fd: nat)
    requires Inv(s) && OpenFd(s, t, old_) && fd < MAX_FDS && fd != old_
    ensures var s1 := Vacate(s, t, fd);
            && Inv(s1) && s1.tables == s.tables[t := s.tables[t][fd := None]]
            && s1.nextId == s.nextId && s1.nextPid == s.nextPid
            && OpenFd(s1, t, old_) && s1.tables[t][old_] == s.tables[t][old_]
            && Alive(s1, s.tables[t][old_].value) && |Holders(s1.tables, s.tables[t][old_].value)| > 0
  {
    hide FileOk, PipeOk, FileUnref;
    if OpenFd(s, t, fd) {
      SlotAlive(s, t, fd);
      DetachKeeps(s, t, fd);
      UnrefShape(s, s.tables[t][fd].value, 0, 0);
    } else {
      assert s.tables[t][fd := None] == s.tables[t];
      assert s.tables[t := s.tables[t]] == s.tables;
    }
    SlotAlive(Vacate(s, t, fd), t, old_);
  }

  ghost function Dup2(s: Sys, t: Pid, from: int, to: int): (r: (Sys, int))
    requires Inv(s)
  {
    if !OpenFd(s, t, from) || !(0 <= to < MAX_FDS) then (s, -EBADF)
    else if from == to then (s, to)
    else
      VacateKeeps(s, t, from, to);
      (Attach(Vacate(s, t, to), t, to, s.tables[t][from].value), to)
  }

  /** What the tree layer found for a path: an error, or a node and its size. */
  datatype NodeResult = NoNode(errno: Errno) | Found(node: nat, size: nat)

  type Errno = e: int | e > 0 witness 1

  function NewFile(s: Sys, file: File): Sys {
    s.(files := s.files[s.nextId := file], nextId := s.nextId + 1)
  }

  ghost function Open(s: Sys, t: Pid, found: NodeResult, flags: nat, malloc: bool): (r: (Sys, int))
    requires Inv(s)
  {
    if t !in s.tables then (s, -EBADF)
    else if found.NoNode? then (s, 0 - found.errno)
    else if !malloc then (s, -ENOMEM)
    else
      // flags & O_APPEND (0x400): start at the end
      var pos := if (flags / 0x400) % 2 == 1 then found.size else 0;
      var s1 := NewFile(s, File(Node(found.node), pos, flags, 1));
      var i := FirstFree(s.tables[t], 3);
      if i == MAX_FDS then (s1, -ENOMEM)
      else (SetSlot(s1, t, i, Some(s.nextId)), i)
  }

  /** The slots vfs_pipe would use, if both exist. */
  function PipeSlots(tbl: Table): (r: Option<(nat, nat)>)
    requires |tbl| == MAX_FDS
    ensures r.Some? ==> 3 <= r.value.0 < r.value.1 < MAX_FDS
                        && tbl[r.value.0] == None && tbl[r.value.1] == None
  {
    var a := FirstFree(tbl, 3);
    if a == MAX_FDS then None
    else
      var b := FirstFree(tbl, a + 1);
      if b == MAX_FDS then None else Some((a, b))
  }

  function NewPipe(s: Sys, t: Pid, a: nat, b: nat): Sys
    requires t in s.tables && a < |s.tables[t]| && b < |s.tables[t]|
  {
    var p := s.nextId;
    s.(pipes := s.pipes[p := FreshRing()],
       files := s.files[p + 1 := File(PipeEnd(p), 0, O_RDONLY, 1)][p + 2 := File(PipeEnd(p), 0, O_WRONLY, 1)],
       tables := s.tables[t := s.tables[t][a := Some(p + 1)][b := Some(p + 2)]],
       nextId := p + 3)
  }

  ghost function MakePipe(s: Sys, t: Pid, malloc: bool): (r: (Sys, Option<(nat, nat)>))
    requires Inv(s)
  {
    if t !in s.tables || !malloc then (s, None)
    else match PipeSlots(s.tables[t])
      case None => (s, None)
      case Some((a, b)) => (NewPipe(s, t, a, b), Some((a, b)))
  }

  // ---- task lifecycle ----

  /** The child's table once slots i.. are copied from the parent's. */
  function Copied(s: Sys, parent: Pid, child: Pid, i: nat): map<Pid, Table>
    requires parent in s.tables && child in s.tables
    requires i <= |s.tables[child]| && i <= |s.tables[parent]|
  {
    s.tables[child := s.tables[child][..i] + s.tables[parent][i..]]
  }

  /** Slots i.. of the child are still empty. */
  ghost predicate Inheriting(s: Sys, parent: Pid, child: Pid, i: nat) {
    && parent in s.tables && child in s.tables && parent != child
    && i <= MAX_FDS == |s.tables[child]| == |s.tables[parent]|
    && forall k | i <= k < MAX_FDS :: s.tables[child][k] == None
  }

  lemma InheritDone(s: Sys, parent: Pid, child: Pid)
    requires Inheriting(s, parent, child, MAX_FDS)
    ensures Copied(s, parent, child, MAX_FDS) == s.tables
  {
    assert s.tables[child][..MAX_FDS] + s.tables[parent][MAX_FDS..] == s.tables[child];
  }

  lemma InheritSkips(s: Sys, parent: Pid, child: Pid, i: nat)
    requires Inheriting(s, parent, child, i) && i < MAX_FDS && s.tables[parent][i].None?
    ensures Inheriting(s, parent, child, i + 1)
    ensures Copied(s, parent, child, i + 1) == Copied(s, parent, child, i)
  {
    var c, p := s.tables[child], s.tables[parent];
    assert c[..i] + p[i..] == c[..i + 1] + p[i + 1..];
  }

  lemma InheritCopies(s: Sys, parent: Pid, child: Pid, i: nat)
    requires Inv(s) && Inheriting(s, parent, child, i) && i < MAX_FDS && s.tables[parent][i].Some?
    ensures Alive(s, s.tables[parent][i].value)
    ensures var s1 := Attach(s, child, i, s.tables[parent][i].value);
            && Inv(s1) && s1.nextPid == s.nextPid && s1.nextId == s.nextId
            && Inheriting(s1, parent, child, i + 1)
            && Copied(s1, parent, child, i + 1) == Copied(s, parent, child, i)
  {
    hide FileOk, PipeOk, Inv;
    SlotAlive(s, parent, i);
    AttachKeeps(s, child, i, s.tables[parent][i].value);
    var c, p := s.tables[child], s.tables[parent];
    assert c[..i] + p[i..] == c[i := p[i]][..i + 1] + p[i + 1..];
  }

  /** vfs_fd_inherit from slot i on; slots below i are done. */
  ghost function InheritFrom(s: Sys, parent: Pid, child: Pid, i: nat): (s': Sys)
    requires Inv(s) && Inheriting(s, parent, child, i)
    ensures Inv(s') && s'.nextPid == s.nextPid && s'.nextId == s.nextId
    ensures s'.tables == Copied(s, parent, child, i)
    decreases MAX_FDS - i
  {
    if i == MAX_FDS then
      InheritDone(s, parent, child);
      s
    else if s.tables[parent][i].None? then
      InheritSkips(s, parent, child, i);
      InheritFrom(s, parent, child, i + 1)
    else
      InheritCopies(s, parent, child, i);
      InheritFrom(Attach(s, child, i, s.tables[parent][i].value), parent, child, i + 1)
  }

  /** The state after slot i has been copied. */
  ghost function InheritSlot(s: Sys, parent: Pid, child: Pid, i: nat): (s1: Sys)
    requires Inv(s) && Inheriting(s, parent, child, i) && i < MAX_FDS
    ensures Inv(s1) && Inheriting(s1, parent, child, i + 1)
    ensures InheritFrom(s1, parent, child, i + 1) == InheritFrom(s, parent, child, i)
  {
    if s.tables[parent][i].None? then
      InheritSkips(s, parent, child, i);
      s
    else
      InheritCopies(s, parent, child, i);
      Attach(s, child, i, s.tables[parent][i].value)
  }

  function NewTask(s: Sys): Sys {
    s.(tables := s.tables[s.nextPid := EmptyTable()], nextPid := s.nextPid + 1)
  }

  lemma NewTaskKeeps(s: Sys)
    requires Inv(s)
    ensures Inv(NewTask(s)) && s.nextPid !in s.tables
  {
    var s' := NewTask(s);
    forall f: FileId ensures Holders(s'.tables, f) == Holders(s.tables, f) {}
    forall f | f in s'.files ensures FileOk(s', f) { assert FileOk(s, f); }
    forall p | p in s'.pipes ensures PipeOk(s', p) { assert PipeOk(s, p); }
  }

  lemma SpawnTables(s: Sys, t: Pid, tables: map<Pid, Table>)
    requires t in s.tables && s.nextPid !in s.tables
    requires Inheriting(NewTask(s), t, s.nextPid, 0) && tables == Copied(NewTask(s), t, s.nextPid, 0)
    ensures tables == s.tables[s.nextPid := s.tables[t]]
  {
    assert NewTask(s).tables[s.nextPid][..0] + s.tables[t][0..] == s.tables[t];
  }

  /** A new task with a counted copy of the creator's table. */
  ghost function Spawn(s: Sys, t: Pid): (s': Sys)
    requires Inv(s) && t in s.tables
    ensures Inv(s') && s'.nextPid == s.nextPid + 1 && s'.nextId == s.nextId
    ensures s'.tables == s.tables[s.nextPid := s.tables[t]]
  {
    NewTaskKeeps(s);
    var s' := InheritFrom(NewTask(s), t, s.nextPid, 0);
    SpawnTables(s, t, s'.tables);
    s'
  }

  /** Slots below i are empty. */
  ghost predicate Closing(s: Sys, t: Pid, i: nat) {
    && t in s.tables && i <= MAX_FDS == |s.tables[t]|
    && forall k | 0 <= k < i :: s.tables[t][k] == None
  }

  lemma CloseAllDone(s: Sys, t: Pid)
    requires Closing(s, t, MAX_FDS)
    ensures s.tables == s.tables[t := EmptyTable()]
  {
    assert s.tables[t] == EmptyTable();
  }

  lemma CloseAllDrops(s: Sys, t: Pid, i: nat)
    requires Inv(s) && Closing(s, t, i) && i < MAX_FDS && s.tables[t][i].Some?
    ensures OpenFd(s, t, i) && Alive(s, s.tables[t][i].value)
    ensures var s1 := Detach(s, t, i);
            && Inv(s1) && s1.nextPid == s.nextPid && s1.nextId == s.nextId
            && Closing(s1, t, i + 1)
            && s1.tables[t := EmptyTable()] == s.tables[t := EmptyTable()]
  {
    hide FileOk, PipeOk, Inv, FileUnref;
    SlotAlive(s, t, i);
    DetachKeeps(s, t, i);
    UnrefShape(s, s.tables[t][i].value, 0, 0);
  }

  /** vfs_close_all from slot i on; slots below i are already empty. */
  ghost function CloseAllFrom(s: Sys, t: Pid, i: nat): (s': Sys)
    requires Inv(s) && Closing(s, t, i)
    ensures Inv(s') && s'.nextPid == s.nextPid && s'.nextId == s.nextId
    ensures s'.tables == s.tables[t := EmptyTable()]
    decreases MAX_FDS - i
  {
    if i == MAX_FDS then
      CloseAllDone(s, t);
      s
    else if s.tables[t][i].None? then CloseAllFrom(s, t, i + 1)
    else
      CloseAllDrops(s, t, i);
      CloseAllFrom(Detach(s, t, i), t, i + 1)
  }

  /** The state after slot i has been dealt with. */
  ghost function CloseSlot(s: Sys, t: Pid, i: nat): (s1: Sys)
    requires Inv(s) && Closing(s, t, i) && i < MAX_FDS
    ensures Inv(s1) && Closing(s1, t, i + 1) && CloseAllFrom(s1, t, i + 1) == CloseAllFrom(s, t, i)
  {
    if s.tables[t][i].None? then s
    else
      CloseAllDrops(s, t, i);
      Detach(s, t, i)
  }

  lemma ForgetTaskKeeps(s: Sys, t: Pid)
    requires Inv(s) && t in s.tables && s.tables[t] == EmptyTable()
    ensures Inv(s.(tables := s.tables - {t}))
  {
    var s' := s.(tables := s.tables - {t});
    forall f: FileId ensures Holders(s'.tables, f) == Holders(s.tables, f) {}
    forall f | f in s'.files ensures FileOk(s', f) { assert FileOk(s, f); }
    forall p | p in s'.pipes ensures PipeOk(s', p) { assert PipeOk(s, p); }
  }

  /** task_exit: every slot is closed and the task is gone. */
  ghost function Exit(s: Sys, t: Pid): (s': Sys)
    requires Inv(s) && t in s.tables
    ensures Inv(s') && s'.nextPid == s.nextPid && s'.nextId == s.nextId
    ensures s'.tables == s.tables - {t}
  {
    var s1 := CloseAllFrom(s, t, 0);
    ForgetTaskKeeps(s1, t);
    s1.(tables := s1.tables - {t})
  }
}
