/** The descriptor layer of kernel/vfs/vfs.c as the kernel runs it: one object whose
    methods update the heap of descriptions, the pipes and the tables in place, each
    proved to be the corresponding step of DescriptorOps. */
module VfsKernel {
  import opened Base
  import opened Pipes
  import opened Descriptors
  import opened DescriptorOps
  import opened DescriptorRuns

  /** Filling a slot does not depend on what the slot held. */
  lemma AttachOverwrites(s: Sys, t: Pid, i: nat, f: FileId)
    requires t in s.tables && i < |s.tables[t]| && Alive(s, f)
    ensures Attach(SetSlot(s, t, i, None), t, i, f) == Attach(s, t, i, f)
  {
    assert s.tables[t][i := None][i := Some(f)] == s.tables[t][i := Some(f)];
  }

  /** Two calls of fd_alloc find the slots that PipeSlots names. */
  lemma PipeSlotsByAlloc(tbl: Table, f: FileId)
    requires |tbl| == MAX_FDS
    ensures var a := FirstFree(tbl, 3);
            if a == MAX_FDS then PipeSlots(tbl) == None
            else var b := FirstFree(tbl[a := Some(f)], 3);
                 PipeSlots(tbl) == if b == MAX_FDS then None else Some((a, b))
  {
    var a := FirstFree(tbl, 3);
    if a < MAX_FDS {
      FirstFreeUnique(tbl[a := Some(f)], 3, FirstFree(tbl, a + 1));
    }
  }

  lemma FirstFreeUnique(tbl: Table, from: nat, i: nat)
    requires from <= i <= |tbl| && (i < |tbl| ==> tbl[i] == None)
    requires forall k | from <= k < i :: tbl[k].Some?
    ensures FirstFree(tbl, from) == i
    decreases |tbl| - from
  {
    if from < i {
      FirstFreeUnique(tbl, from + 1, i);
    }
  }

  lemma TableLength(s: Sys, t: Pid)
    requires Inv(s)
    ensures t in s.tables ==> |s.tables[t]| == MAX_FDS
  {
    hide FileOk, PipeOk;
  }

  /** What happens to the loaders' global: a loader that runs for a task assigns it the number its open returned,
      and later closes the number that it then holds. */
  datatype LoaderEvent = Assign(task: Pid, fd: int) | Drop(task: Pid, mine: int, fd: int)

  /** The number that the global holds after these events. */
  function LastFd(j: seq<LoaderEvent>): int {
    if j == [] then -1 else if j[|j| - 1].Assign? then j[|j| - 1].fd else LastFd(j[..|j| - 1])
  }

  /** The number that a loader for task t has opened last. */
  function LastOf(j: seq<LoaderEvent>, t: Pid): int {
    if j == [] then -1
    else if j[|j| - 1].Assign? && j[|j| - 1].task == t then j[|j| - 1].fd
    else LastOf(j[..|j| - 1], t)
  }

  /** What is closed is what the global holds, and what the closing loader had opened is told right. */
  predicate Coherent(j: seq<LoaderEvent>) {
    forall i | 0 <= i < |j| && j[i].Drop? :: j[i].fd == LastFd(j[..i]) && j[i].mine == LastOf(j[..i], j[i].task)
  }

  class Vfs {
    var files: map<FileId, File>
    var pipes: map<PipeId, Ring>
    var tables: map<Pid, Table>
    var nextId: nat
    var nextPid: Pid
    var current: Pid
    // g_elf_fd of kernel/elf/tus_elf.c: one descriptor number for every loader, whichever task it runs for
    var elfFd: int
    // what the loaders have done with it
    var journal: seq<LoaderEvent>

    ghost function Value(): Sys
      reads this
    {
      Sys(files, pipes, tables, nextId, nextPid)
    }

    /** The state of the system when the scheduler has started and task t runs. */
    constructor (s: Sys, t: Pid)
      ensures Value() == s && current == t && elfFd == -1 && journal == []
    {
      files, pipes, tables, nextId, nextPid := s.files, s.pipes, s.tables, s.nextId, s.nextPid;
      current, elfFd, journal := t, -1, [];
    }

    method RefFile(f: FileId)
      requires Alive(Value(), f)
      modifies this`files, this`pipes
      ensures Value() == FileRef(old(Value()), f)
    {
      var file := files[f];
      files := files[f := file.(refs := file.refs + 1)];
      if file.target.PipeEnd? {
        var p := file.target.pipe;
        if Writes(file) {
          pipes := pipes[p := pipes[p].(refsW := pipes[p].refsW + 1)];
        } else {
          pipes := pipes[p := pipes[p].(refsR := pipes[p].refsR + 1)];
        }
      }
    }

    method UnrefFile(f: FileId)
      requires Alive(Value(), f)
      modifies this`files, this`pipes
      ensures Value() == FileUnref(old(Value()), f)
    {
      var file := files[f];
      if file.target.PipeEnd? {
        var p := file.target.pipe;
        if Writes(file) {
          pipes := pipes[p := pipes[p].(refsW := pipes[p].refsW - 1)];
        } else {
          pipes := pipes[p := pipes[p].(refsR := pipes[p].refsR - 1)];
        }
      }
      file := file.(refs := file.refs - 1);
      files := files[f := file];
      if file.refs == 0 {
        if file.target.PipeEnd? {
          var p := file.target.pipe;
          if pipes[p].refsR == 0 && pipes[p].refsW == 0 {
            pipes := pipes - {p};
          }
        }
        files := files - {f};
      }
    }

    /** tbl[fd] = v in the running task's table. */
    method Store(fd: nat, v: Slot)
      requires current in tables && fd < |tables[current]|
      modifies this`tables
      ensures Value() == SetSlot(old(Value()), current, fd, v)
    {
      tables := tables[current := tables[current][fd := v]];
    }

    /** The scan of fd_alloc (from slot 3) and vfs_dup (from slot 0). */
    method FindFree(from: nat) returns (i: nat)
      requires current in tables && from <= |tables[current]|
      ensures i == FirstFree(tables[current], from)
    {
      i := from;
      while i < |tables[current]| && tables[current][i].Some?
        invariant from <= i <= |tables[current]|
        invariant FirstFree(tables[current], i) == FirstFree(tables[current], from)
      {
        i := i + 1;
      }
    }

    method FdAlloc(f: FileId) returns (fd: int)
      requires current in tables && |tables[current]| == MAX_FDS
      modifies this`tables
      ensures var i := FirstFree(old(tables[current]), 3);
              if i == MAX_FDS then fd == -ENOMEM && tables == old(tables)
              else fd == i && Value() == SetSlot(old(Value()), current, i, Some(f))
    {
      var i := FindFree(3);
      if i == MAX_FDS {
        return -ENOMEM;
      }
      Store(i, Some(f));
      return i;
    }

    /** vfs_open after the path has been looked up. */
    method VfsOpen(found: NodeResult, flags: nat, malloc: bool) returns (fd: int)
      requires Inv(Value())
      modifies this`files, this`tables, this`nextId
      ensures (Value(), fd) == Open(old(Value()), current, found, flags, malloc)
    {
      if current !in tables {
        return -EBADF;
      }
      if found.NoNode? {
        return 0 - found.errno;
      }
      if !malloc {
        return -ENOMEM;
      }
      var pos := if (flags / 0x400) % 2 == 1 then found.size else 0;
      var f := nextId;
      files := files[f := File(Node(found.node), pos, flags, 1)];
      nextId := nextId + 1;
      fd := FdAlloc(f);
    }

    method VfsClose(fd: int) returns (code: int)
      requires Inv(Value())
      modifies this`files, this`pipes, this`tables
      ensures (Value(), code) == Close(old(Value()), current, fd)
    {
      hide FileOk, PipeOk, Inv;
      TableLength(Value(), current);
      if current !in tables || fd < 0 || fd >= MAX_FDS || tables[current][fd].None? {
        return -EBADF;
      }
      var f := tables[current][fd].value;
      SlotAlive(Value(), current, fd);
      Store(fd, None);
      UnrefFile(f);
      return 0;
    }

    method VfsDup(fd: int) returns (code: int)
      requires Inv(Value())
      modifies this`files, this`pipes, this`tables
      ensures (Value(), code) == Dup(old(Value()), current, fd)
    {
      if current !in tables || fd < 0 || fd >= MAX_FDS || tables[current][fd].None? {
        return -EBADF;
      }
      var i := FindFree(0);
      if i == MAX_FDS {
        return -ENOMEM;
      }
      SlotAlive(Value(), current, fd);
      var f := tables[current][fd].value;
      Store(i, Some(f));
      RefFile(f);
      return i;
    }

    /** The target's file is dropped while the slot still names it, then replaced. */
    method VfsDup2(from: int, to: int) returns (code: int)
      requires Inv(Value())
      modifies this`files, this`pipes, this`tables
      ensures (Value(), code) == Dup2(old(Value()), current, from, to)
    {
      if current !in tables || from < 0 || from >= MAX_FDS || tables[current][from].None? {
        return -EBADF;
      }
      if to < 0 || to >= MAX_FDS {
        return -EBADF;
      }
      if from == to {
        return to;
      }
      ghost var s := Value();
      hide FileOk, PipeOk, TablesOk, FileRef, FileUnref;
      VacateKeeps(s, current, from, to);
      if tables[current][to].Some? {
        SlotAlive(s, current, to);
        UnrefShape(s, tables[current][to].value, 0, 0);
        UnrefFile(tables[current][to].value);
      }
      var f := tables[current][from].value;
      assert SetSlot(Value(), current, to, None) == Vacate(s, current, to);
      AttachOverwrites(Value(), current, to, f);
      Store(to, Some(f));
      RefFile(f);
      return to;
    }

    /** On success fds[0] is the read end and fds[1] the write end. */
    method VfsPipe(malloc: bool) returns (code: int, r: nat, w: nat)
      requires Inv(Value())
      modifies this`files, this`pipes, this`tables, this`nextId
      ensures (Value(), if code == 0 then Some((r, w)) else None) == MakePipe(old(Value()), current, malloc)
    {
      hide FileOk, PipeOk, FirstFree, Inv;
      TableLength(Value(), current);
      r, w := 0, 0;
      if current !in tables {
        return -EBADF, 0, 0;
      }
      if !malloc {
        return -ENOMEM, 0, 0;
      }
      ghost var s := Value();
      var p := nextId;
      var a := FdAlloc(p + 1);
      var b := FdAlloc(p + 2);
      PipeSlotsByAlloc(s.tables[current], p + 1);
      if a < 0 || b < 0 {
        if a >= 0 {
          Store(a, None);
          assert s.tables[current][a := Some(p + 1)][a := None] == s.tables[current];
          assert tables == s.tables;
        }
        return -ENOMEM, 0, 0;
      }
      assert tables == s.tables[current := s.tables[current][a := Some(p + 1)][b := Some(p + 2)]];
      pipes := pipes[p := FreshRing()];
      files := files[p + 1 := File(PipeEnd(p), 0, O_RDONLY, 1)][p + 2 := File(PipeEnd(p), 0, O_WRONLY, 1)];
      nextId := p + 3;
      return 0, a, b;
    }

    /** One pass of vfs_close_all's loop. */
    method CloseSlotAt(i: nat)
      requires Inv(Value()) && i < MAX_FDS && Closing(Value(), current, i)
      modifies this`files, this`pipes, this`tables
      ensures Value() == CloseSlot(old(Value()), current, i)
    {
      if tables[current][i].Some? {
        hide FileOk, PipeOk, FileUnref, Inv;
        ghost var s := Value();
        CloseAllDrops(s, current, i);
        UnrefShape(s, tables[current][i].value, 0, 0);
        UnrefFile(tables[current][i].value);
        Store(i, None);
      }
    }

    /** vfs_close_all for the running task. */
    method VfsCloseAll()
      requires Inv(Value()) && current in tables
      modifies this`files, this`pipes, this`tables
      ensures Value() == CloseAllFrom(old(Value()), current, 0)
    {
      assert Closing(Value(), current, 0);
      hide Inv, CloseSlot, Closing;
      for i := 0 to MAX_FDS
        invariant Inv(Value()) && Closing(Value(), current, i)
        invariant CloseAllFrom(Value(), current, i) == CloseAllFrom(old(Value()), current, 0)
      {
        CloseSlotAt(i);
      }
    }

    /** One pass of vfs_fd_inherit's loop. */
    method InheritSlotAt(child: Pid, i: nat)
      requires Inv(Value()) && i < MAX_FDS && Inheriting(Value(), current, child, i)
      modifies this`files, this`pipes, this`tables
      ensures Value() == InheritSlot(old(Value()), current, child, i)
    {
      hide FileOk, PipeOk, FileRef, Inv;
      if tables[current][i].Some? {
        var f := tables[current][i].value;
        InheritCopies(Value(), current, child, i);
        tables := tables[child := tables[child][i := Some(f)]];
        RefFile(f);
      }
    }

    /** vfs_fd_inherit: a counted copy of the running task's table for a new task. */
    method VfsFdInherit(child: Pid)
      requires Inv(Value()) && current in tables && child in tables && child != current
      requires tables[child] == EmptyTable()
      modifies this`files, this`pipes, this`tables
      ensures Value() == InheritFrom(old(Value()), current, child, 0)
    {
      assert Inheriting(Value(), current, child, 0);
      hide Inv, InheritSlot, Inheriting;
      for i := 0 to MAX_FDS
        invariant Inv(Value()) && Inheriting(Value(), current, child, i)
        invariant InheritFrom(Value(), current, child, i) == InheritFrom(old(Value()), current, child, 0)
      {
        InheritSlotAt(child, i);
      }
    }

    /** The descriptor side of task_create_user: a new pid with the creator's open files. */
    method CreateTask() returns (pid: Pid)
      requires Inv(Value()) && current in tables
      modifies this`files, this`pipes, this`tables, this`nextPid
      ensures pid == old(nextPid) && Value() == Spawn(old(Value()), current)
    {
      NewTaskKeeps(Value());
      pid := nextPid;
      nextPid := nextPid + 1;
      tables := tables[pid := EmptyTable()];
      assert Value() == NewTask(old(Value()));
      VfsFdInherit(pid);
    }

    /** The descriptor side of task_exit. */
    method TaskExit()
      requires Inv(Value()) && current in tables
      modifies this`files, this`pipes, this`tables
      ensures Value() == Exit(old(Value()), current)
    {
      VfsCloseAll();
      tables := tables - {current};
    }

    /** vfs_read up to the next wait. */
    method VfsReadPass(fd: int, count: nat) returns (o: Outcome)
      requires Inv(Value())
      modifies this`pipes
      ensures (Value(), o) == Read(old(Value()), current, fd, count)
    {
      if current !in tables || fd < 0 || fd >= MAX_FDS || tables[current][fd].None? {
        return Ret(-EBADF);
      }
      SlotAlive(Value(), current, fd);
      var file := files[tables[current][fd].value];
      if file.flags % 4 == O_WRONLY {
        return Ret(-EBADF);
      }
      match file.target {
        case Node(n) =>
          return ToNode(n);
        case PipeEnd(p) =>
          PipeAtLive(Value(), current, fd);
          var (ring, pass) := ReadPassOf(pipes[p], count);
          match pass {
            case EndOfFile =>
              return AtEof(p);
            case ReadWait =>
              return Wait;
            case Got(bytes) =>
              pipes := pipes[p := ring];
              return Delivered(p, bytes);
          }
      }
    }

    /** vfs_write up to the next wait. */
    method VfsWritePass(fd: int, data: seq<byte>) returns (o: Outcome)
      requires Inv(Value())
      modifies this`pipes
      ensures (Value(), o) == Write(old(Value()), current, fd, data)
    {
      if current !in tables || fd < 0 || fd >= MAX_FDS || tables[current][fd].None? {
        return Ret(-EBADF);
      }
      SlotAlive(Value(), current, fd);
      var file := files[tables[current][fd].value];
      if file.flags % 4 == O_RDONLY {
        return Ret(-EBADF);
      }
      match file.target {
        case Node(n) =>
          return ToNode(n);
        case PipeEnd(p) =>
          PipeAtLive(Value(), current, fd);
          FillAppendsPrefix(pipes[p], data);
          var (ring, pass) := WritePassOf(pipes[p], data);
          match pass {
            case WriteDone =>
              return Ret(0);
            case BrokenPipe =>
              return Ret(-EPIPE);
            case WriteWait =>
              return Wait;
            case Accepted(n) =>
              pipes := pipes[p := ring];
              return Stored(p, data[..n]);
          }
      }
    }

    /** One step of any task, as the running task. */
    method DoStep(a: Act) returns (o: Outcome)
      requires Inv(Value())
      modifies this`files, this`pipes, this`tables, this`nextId, this`nextPid, this`current
      ensures (Value(), o) == Step(old(Value()), a)
      ensures current == old(current)
    {
      hide Inv, Read, Write, Open, Close, Dup, Dup2, MakePipe, Spawn, Exit;
      var me := current;
      current := a.task;
      if a.task !in tables {
        o := Ret(-EPERM);
      } else {
        match a.op {
          case OpOpen(found, flags, malloc) =>
            var code := VfsOpen(found, flags, malloc);
            o := Ret(code);
          case OpClose(fd) =>
            var code := VfsClose(fd);
            o := Ret(code);
          case OpDup(fd) =>
            var code := VfsDup(fd);
            o := Ret(code);
          case OpDup2(from, to) =>
            var code := VfsDup2(from, to);
            o := Ret(code);
          case OpPipe(malloc) =>
            var code, r, w := VfsPipe(malloc);
            o := if code == 0 then NewFds(r, w) else Ret(-ENOMEM);
          case OpSpawn =>
            var pid := CreateTask();
            o := Child(pid);
          case OpExit =>
            TaskExit();
            o := Ret(0);
          case OpRead(fd, count) =>
            o := VfsReadPass(fd, count);
          case OpWrite(fd, data) =>
            o := VfsWritePass(fd, data);
        }
      }
      current := me;
    }
  }
}
