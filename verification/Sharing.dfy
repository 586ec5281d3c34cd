/** Which task can hold which description, over whole runs: end-of-file is complete
    and permanent, and the only description ever lost is the one of a failed open. */
module Sharing {
  import opened Base
  import opened Pipes
  import opened Descriptors
  import opened DescriptorOps
  import opened DescriptorRuns
  import opened DescriptorTheorems

  predicate Holds(s: Sys, t: Pid, f: FileId) {
    t in s.tables && Some(f) in s.tables[t]
  }

  /** A step of one task changes no other task's table. */
  lemma StepOthers(s: Sys, a: Act, u: Pid)
    requires Inv(s) && u in s.tables && u != a.task
    ensures u in Step(s, a).0.tables && Step(s, a).0.tables[u] == s.tables[u]
  {
    hide FileOk, PipeOk, Holders, ReadPassOf, WritePassOf, FirstFree, PipeSlots;
  }

  /** A description is passed on only by the task that holds it: to itself, or to a child. */
  lemma StepHolders(s: Sys, a: Act, u: Pid, f: FileId)
    requires Inv(s) && f < s.nextId && Holds(Step(s, a).0, u, f)
    ensures Holds(s, u, f) || (a.op.OpSpawn? && u == s.nextPid && Holds(s, a.task, f))
  {
    hide FileOk, PipeOk, Holders, ReadPassOf, WritePassOf, FirstFree, PipeSlots;
    match a.op
    case OpSpawn =>
    case OpExit =>
    case OpDup2(_, _) =>
    case OpPipe(_) =>
    case _ =>
  }

  ghost predicate NoHolder(s: Sys, f: FileId) {
    forall u: Pid :: !Holds(s, u, f)
  }

  lemma NoHolderIsEmpty(s: Sys, f: FileId)
    ensures NoHolder(s, f) <==> Holders(s.tables, f) == {}
  {
    if NoHolder(s, f) {
      forall t, i | t in s.tables && 0 <= i < |s.tables[t]| ensures s.tables[t][i] != Some(f) {
        assert !Holds(s, t, f);
      }
    } else {
      var u: Pid :| Holds(s, u, f);
      var i :| 0 <= i < |s.tables[u]| && s.tables[u][i] == Some(f);
      assert (u, i) in Holders(s.tables, f);
    }
  }

  lemma NoHolderStep(s: Sys, a: Act, f: FileId)
    requires Inv(s) && f < s.nextId && NoHolder(s, f)
    ensures NoHolder(Step(s, a).0, f)
  {
    hide Step, Inv, Holds;
    forall u: Pid ensures !Holds(Step(s, a).0, u, f) {
      if Holds(Step(s, a).0, u, f) {
        StepHolders(s, a, u, f);
      }
    }
  }

  /** What nobody holds, nobody will ever hold. */
  lemma {:induction false} NoHolderStays(s: Sys, acts: seq<Act>, f: FileId)
    requires Inv(s) && f < s.nextId && NoHolder(s, f)
    ensures NoHolder(Exec(s, acts), f)
    decreases |acts|
  {
    if acts != [] {
      hide Step, Inv, NoHolder;
      NextIdGrows(s, acts[0]);
      NoHolderStep(s, acts[0], f);
      NoHolderStays(Step(s, acts[0]).0, acts[1..], f);
    }
  }

  /** Only a holder of the write end stores bytes in a pipe. */
  lemma StoreNeedsWriteEnd(s: Sys, a: Act)
    requires Inv(s) && Step(s, a).1.Stored?
    ensures var p := Step(s, a).1.pipe;
            p in s.pipes && Holds(s, a.task, p + 2) && p + 2 < s.nextId
  {
    hide FileOk, PipeOk, TablesOk, Inv, Write, Open, Close, Dup, Dup2, MakePipe, Read;
    match a.op {
      case OpWrite(fd, data) => WriteNeedsWriteEnd(s, a.task, fd, data);
      case OpRead(fd, count) => ReadShape(s, a.task, fd, count);
      case _ =>
    }
  }

  lemma WriteNeedsWriteEnd(s: Sys, t: Pid, fd: int, data: seq<byte>)
    requires Inv(s) && Write(s, t, fd, data).1.Stored?
    ensures var p := Write(s, t, fd, data).1.pipe;
            p in s.pipes && Holds(s, t, p + 2) && p + 2 < s.nextId
  {
    hide FileOk, PipeOk, TablesOk, Inv, Fill;
    WriteShape(s, t, fd, data);
    var p := Write(s, t, fd, data).1.pipe;
    SlotAlive(s, t, fd);
    EndsOfPipe(s, p, s.tables[t][fd].value);
    PipeFlags(s, p, s.tables[t][fd].value);
  }

  lemma PipeFlags(s: Sys, p: PipeId, f: FileId)
    requires Inv(s) && f in s.files && s.files[f].target == PipeEnd(p)
    ensures f == p + 1 + s.files[f].flags && s.files[f].flags <= 1 && p + 2 < s.nextId
  {
    assert FileOk(s, f) && PipeOk(s, p);
  }

  lemma NothingStored(s: Sys, a: Act, p: PipeId)
    requires Inv(s) && NoHolder(s, p + 2)
    ensures StoredBy(Step(s, a).1, p) == []
  {
    hide Step, Inv, Holds;
    if Step(s, a).1.Stored? {
      StoreNeedsWriteEnd(s, a);
    }
  }

  /** With no write end left, nothing more enters the pipe. */
  lemma {:induction false} NoWriterNoBytes(s: Sys, acts: seq<Act>, p: PipeId)
    requires Inv(s) && p + 2 < s.nextId && NoHolder(s, p + 2)
    ensures Into(Trace(s, acts), p) == []
    decreases |acts|
  {
    if acts != [] {
      hide Step, Inv, NoHolder, StoredBy;
      NothingStored(s, acts[0], p);
      NextIdGrows(s, acts[0]);
      NoHolderStep(s, acts[0], p + 2);
      NoWriterNoBytes(Step(s, acts[0]).0, acts[1..], p);
      TraceUnfolds(s, acts, p);
    }
  }

  /** pipe_read returns 0 only when the pipe is empty and no write end is open. */
  lemma EofMeansDrained(s: Sys, a: Act)
    requires Inv(s) && Step(s, a).1.AtEof?
    ensures var p := Step(s, a).1.pipe;
            && p in s.pipes && p + 2 < s.nextId && Step(s, a).0 == s
            && Queue(s, p) == [] && NoHolder(s, p + 2)
  {
    hide Inv, Read, Write, Open, Close, Dup, Dup2, MakePipe;
    match a.op {
      case OpRead(fd, count) => ReadShape(s, a.task, fd, count);
      case OpWrite(fd, data) => WriteShape(s, a.task, fd, data);
      case _ =>
    }
    DrainedPipe(s, Step(s, a).1.pipe);
  }

  lemma DrainedPipe(s: Sys, p: PipeId)
    requires Inv(s) && p in s.pipes && s.pipes[p].count == 0 && s.pipes[p].refsW == 0
    ensures p + 2 < s.nextId && Queue(s, p) == [] && NoHolder(s, p + 2)
  {
    assert PipeOk(s, p);
    NoHolderIsEmpty(s, p + 2);
  }

  /** A read of nonzero size that moves no byte is a wait or end-of-file. */
  lemma ReadProgress(s: Sys, a: Act)
    requires Inv(s) && a.op.OpRead? && a.op.count > 0
    ensures Step(s, a).1.Delivered? ==> Step(s, a).1.bytes != []
  {
    hide Inv, Read, Drain;
    ReadShape(s, a.task, a.op.fd, a.op.count);
    if Step(s, a).1.Delivered? {
      DrainNonempty(s.pipes[Step(s, a).1.pipe], a.op.count);
    }
  }

  /** End-of-file is complete and permanent: when a read reports it, everything the pipe
      ever accepted has been delivered, and in every later state no task has a write end
      and no byte has moved through the pipe since. */
  lemma EofCompleteAndPermanent(s: Sys, before: seq<Act>, a: Act, after: seq<Act>, p: PipeId)
    requires Inv(s) && p >= s.nextId
    requires Step(Exec(s, before), a).1 == AtEof(p)
    ensures var s1 := Exec(s, before);
            var s2 := Exec(s1, after);
            && Into(Trace(s, before), p) == OutOf(Trace(s, before), p)
            && NoHolder(s2, p + 2)
            && Into(Trace(s1, after), p) == [] == OutOf(Trace(s1, after), p)
  {
    var s1 := Exec(s, before);
    hide Step, Inv, Queue;
    EofMeansDrained(s1, a);
    PipeIsFifo(s, before, p);
    NoHolderStays(s1, after, p + 2);
    NoWriterNoBytes(s1, after, p);
    EmptyStaysEmpty(s1, after, p);
  }

  /** From an empty pipe nothing comes out before something goes in. */
  lemma {:induction false} EmptyStaysEmpty(s: Sys, acts: seq<Act>, p: PipeId)
    requires Inv(s) && p < s.nextId && Queue(s, p) == [] && Into(Trace(s, acts), p) == []
    ensures OutOf(Trace(s, acts), p) == []
    decreases |acts|
  {
    if acts != [] {
      hide Step, Inv, Queue;
      StepConserves(s, acts[0], p);
      TraceUnfolds(s, acts, p);
      var (s1, o1) := Step(s, acts[0]);
      if p !in s1.pipes {
        QueueOfNone(s1, p);
      }
      EmptyStaysEmpty(s1, acts[1..], p);
    }
  }

  // ---- a description keeps its target and flags ----

  /** Old descriptions that still exist are unchanged but for their count. */
  ghost predicate SameFiles(s: Sys, s': Sys) {
    forall f | f in s'.files && f < s.nextId ::
      f in s.files && s'.files[f] == s.files[f].(refs := s'.files[f].refs)
  }

  lemma SameFilesRefl(s: Sys)
    ensures SameFiles(s, s)
  {
  }

  lemma SameFilesTrans(s: Sys, s1: Sys, s2: Sys)
    requires SameFiles(s, s1) && SameFiles(s1, s2) && s.nextId <= s1.nextId
    ensures SameFiles(s, s2)
  {
  }

  lemma AttachSameFiles(s: Sys, t: Pid, i: nat, f: FileId)
    requires t in s.tables && i < |s.tables[t]| && Alive(s, f)
    ensures SameFiles(s, Attach(s, t, i, f)) && Attach(s, t, i, f).nextId == s.nextId
  {
  }

  lemma DetachSameFiles(s: Sys, t: Pid, i: nat)
    requires OpenFd(s, t, i) && Alive(s, s.tables[t][i].value)
    ensures SameFiles(s, Detach(s, t, i)) && Detach(s, t, i).nextId == s.nextId
  {
  }

  lemma {:induction false} InheritSameFiles(s: Sys, parent: Pid, child: Pid, i: nat)
    requires Inv(s) && Inheriting(s, parent, child, i)
    ensures SameFiles(s, InheritFrom(s, parent, child, i))
    decreases MAX_FDS - i
  {
    if i < MAX_FDS {
      if s.tables[parent][i].None? {
        InheritSameFiles(s, parent, child, i + 1);
      } else {
        var f := s.tables[parent][i].value;
        SlotAlive(s, parent, i);
        InheritCopies(s, parent, child, i);
        AttachSameFiles(s, child, i, f);
        var s1 := Attach(s, child, i, f);
        hide FileOk, PipeOk, FileRef, SameFiles;
        InheritSameFiles(s1, parent, child, i + 1);
        SameFilesTrans(s, s1, InheritFrom(s1, parent, child, i + 1));
      }
    }
  }

  lemma {:induction false} CloseAllSameFiles(s: Sys, t: Pid, i: nat)
    requires Inv(s) && Closing(s, t, i)
    ensures SameFiles(s, CloseAllFrom(s, t, i))
    decreases MAX_FDS - i
  {
    hide FileOk, PipeOk, FileUnref, SameFiles;
    SameFilesRefl(s);
    if i < MAX_FDS {
      if s.tables[t][i].None? {
        CloseAllSameFiles(s, t, i + 1);
      } else {
        CloseAllDrops(s, t, i);
        DetachSameFiles(s, t, i);
        var s1 := Detach(s, t, i);
        CloseAllSameFiles(s1, t, i + 1);
        SameFilesTrans(s, s1, CloseAllFrom(s1, t, i + 1));
      }
    }
  }

  lemma SpawnSameFiles(s: Sys, t: Pid)
    requires Inv(s) && t in s.tables
    ensures SameFiles(s, Spawn(s, t))
  {
    NewTaskKeeps(s);
    InheritSameFiles(NewTask(s), t, s.nextPid, 0);
  }

  lemma ExitSameFiles(s: Sys, t: Pid)
    requires Inv(s) && t in s.tables
    ensures SameFiles(s, Exit(s, t))
  {
    CloseAllSameFiles(s, t, 0);
  }

  lemma Dup2SameFiles(s: Sys, t: Pid, from: int, to: int)
    requires Inv(s)
    ensures SameFiles(s, Dup2(s, t, from, to).0)
  {
    if OpenFd(s, t, from) && 0 <= to < MAX_FDS && from != to {
      VacateKeeps(s, t, from, to);
      var s1 := Vacate(s, t, to);
      if OpenFd(s, t, to) {
        SlotAlive(s, t, to);
        DetachSameFiles(s, t, to);
      }
      AttachSameFiles(s1, t, to, s.tables[t][from].value);
      hide FileOk, PipeOk, FileRef, FileUnref;
      SameFilesTrans(s, s1, Attach(s1, t, to, s.tables[t][from].value));
    }
  }

  lemma DupSameFiles(s: Sys, t: Pid, fd: int)
    requires Inv(s)
    ensures SameFiles(s, Dup(s, t, fd).0)
  {
    if OpenFd(s, t, fd) && FirstFree(s.tables[t], 0) < MAX_FDS {
      SlotAlive(s, t, fd);
      AttachSameFiles(s, t, FirstFree(s.tables[t], 0), s.tables[t][fd].value);
    }
  }

  lemma StepSameFiles(s: Sys, a: Act)
    requires Inv(s)
    ensures SameFiles(s, Step(s, a).0)
  {
    hide FileOk, PipeOk, Inv, Dup, Dup2, Read, Write, FileUnref, FileRef, FirstFree, PipeSlots;
    if a.task in s.tables {
      match a.op {
        case OpClose(fd) =>
          if OpenFd(s, a.task, fd) {
            SlotAlive(s, a.task, fd);
            DetachSameFiles(s, a.task, fd);
          }
        case OpDup(fd) => DupSameFiles(s, a.task, fd);
        case OpDup2(from, to) => Dup2SameFiles(s, a.task, from, to);
        case OpSpawn => SpawnSameFiles(s, a.task);
        case OpExit => ExitSameFiles(s, a.task);
        case OpRead(fd, count) => ReadShape(s, a.task, fd, count);
        case OpWrite(fd, data) => WriteShape(s, a.task, fd, data);
        case _ =>
      }
    }
  }

  // ---- lost descriptions ----

  /** Descriptions in the heap that no slot points at. */
  ghost function Lost(s: Sys): set<FileId> {
    set f | f in s.files && Holders(s.tables, f) == {}
  }

  lemma AttachLost(s: Sys, t: Pid, i: nat, f: FileId)
    requires Inv(s) && t in s.tables && i < |s.tables[t]| && s.tables[t][i] == None
    requires Alive(s, f) && |Holders(s.tables, f)| > 0
    ensures Lost(Attach(s, t, i, f)) == Lost(s)
  {
    hide Inv;
    forall g | g in s.files ensures g in Lost(Attach(s, t, i, f)) <==> g in Lost(s) {
      HoldersCount(s.tables, t, i, Some(f), g);
    }
  }

  lemma DetachLost(s: Sys, t: Pid, i: nat)
    requires Inv(s) && OpenFd(s, t, i) && Alive(s, s.tables[t][i].value)
    ensures Lost(Detach(s, t, i)) == Lost(s)
  {
    var f := s.tables[t][i].value;
    assert FileOk(s, f);
    HoldsMeansPositive(s.tables, t, i, f);
    hide Inv, FileUnref, FileOk;
    forall g: FileId ensures g in Lost(Detach(s, t, i)) <==> g in Lost(s) {
      UnrefShape(s, f, g, 0);
      HoldersCount(s.tables, t, i, None, g);
    }
  }

  lemma {:induction false} InheritLost(s: Sys, parent: Pid, child: Pid, i: nat)
    requires Inv(s) && Inheriting(s, parent, child, i)
    ensures Lost(InheritFrom(s, parent, child, i)) == Lost(s)
    decreases MAX_FDS - i
  {
    if i < MAX_FDS {
      hide Lost, FileOk, PipeOk, FileRef;
      if s.tables[parent][i].None? {
        InheritLost(s, parent, child, i + 1);
      } else {
        var f := s.tables[parent][i].value;
        SlotAlive(s, parent, i);
        InheritCopies(s, parent, child, i);
        AttachLost(s, child, i, f);
        InheritLost(Attach(s, child, i, f), parent, child, i + 1);
      }
    }
  }

  lemma {:induction false} CloseAllLost(s: Sys, t: Pid, i: nat)
    requires Inv(s) && Closing(s, t, i)
    ensures Lost(CloseAllFrom(s, t, i)) == Lost(s)
    decreases MAX_FDS - i
  {
    if i < MAX_FDS {
      hide Lost, FileOk, PipeOk, FileUnref;
      if s.tables[t][i].None? {
        CloseAllLost(s, t, i + 1);
      } else {
        CloseAllDrops(s, t, i);
        DetachLost(s, t, i);
        CloseAllLost(Detach(s, t, i), t, i + 1);
      }
    }
  }

  lemma SameHoldersLost(s: Sys, s': Sys)
    requires s'.files == s.files && forall f: FileId :: Holders(s'.tables, f) == Holders(s.tables, f)
    ensures Lost(s') == Lost(s)
  {
  }

  lemma SpawnLost(s: Sys, t: Pid)
    requires Inv(s) && t in s.tables
    ensures Lost(Spawn(s, t)) == Lost(s)
  {
    NewTaskKeeps(s);
    forall f: FileId ensures Holders(NewTask(s).tables, f) == Holders(s.tables, f) {}
    SameHoldersLost(s, NewTask(s));
    InheritLost(NewTask(s), t, s.nextPid, 0);
  }

  lemma ExitLost(s: Sys, t: Pid)
    requires Inv(s) && t in s.tables
    ensures Lost(Exit(s, t)) == Lost(s)
  {
    CloseAllLost(s, t, 0);
    var s1 := CloseAllFrom(s, t, 0);
    forall f: FileId ensures Holders((s1.tables - {t}), f) == Holders(s1.tables, f) {}
    SameHoldersLost(s1, s1.(tables := s1.tables - {t}));
  }

  lemma DupLost(s: Sys, t: Pid, fd: int)
    requires Inv(s)
    ensures Lost(Dup(s, t, fd).0) == Lost(s)
  {
    if OpenFd(s, t, fd) && FirstFree(s.tables[t], 0) < MAX_FDS {
      SlotAlive(s, t, fd);
      AttachLost(s, t, FirstFree(s.tables[t], 0), s.tables[t][fd].value);
    }
  }

  lemma Dup2Lost(s: Sys, t: Pid, from: int, to: int)
    requires Inv(s)
    ensures Lost(Dup2(s, t, from, to).0) == Lost(s)
  {
    if OpenFd(s, t, from) && 0 <= to < MAX_FDS && from != to {
      hide Lost, FileOk, PipeOk, FileRef, FileUnref;
      VacateKeeps(s, t, from, to);
      if OpenFd(s, t, to) {
        SlotAlive(s, t, to);
        DetachLost(s, t, to);
      }
      AttachLost(Vacate(s, t, to), t, to, s.tables[t][from].value);
    }
  }

  /** The guard of the branch in which vfs_open has made a description but finds no slot. */
  predicate OpenOverflows(s: Sys, a: Act) {
    && a.task in s.tables && |s.tables[a.task]| == MAX_FDS
    && a.op.OpOpen? && a.op.found.Found? && a.op.malloc
    && FirstFree(s.tables[a.task], 3) == MAX_FDS
  }

  lemma OpenLost(s: Sys, a: Act)
    requires Inv(s) && a.op.OpOpen?
    ensures Lost(Step(s, a).0) == Lost(s) + if OpenOverflows(s, a) then {s.nextId} else {}
  {
    hide PipeOk, Holders;
    FreshUnheld(s, s.nextId);
    if a.task in s.tables && a.op.found.Found? && a.op.malloc {
      var i := FirstFree(s.tables[a.task], 3);
      hide FileOk, FirstFree;
      if i < MAX_FDS {
        forall g: FileId ensures g in Lost(Step(s, a).0) <==> g in Lost(s) {
          HoldersCount(s.tables, a.task, i, Some(s.nextId), g);
        }
      }
    }
  }

  lemma PipeLost(s: Sys, a: Act)
    requires Inv(s) && a.op.OpPipe?
    ensures Lost(Step(s, a).0) == Lost(s)
  {
    if a.task in s.tables && a.op.malloc && PipeSlots(s.tables[a.task]).Some? {
      var (x, y) := PipeSlots(s.tables[a.task]).value;
      FreshUnheld(s, s.nextId + 1);
      FreshUnheld(s, s.nextId + 2);
      forall g: FileId ensures g in Lost(Step(s, a).0) <==> g in Lost(s) {
        NewPipeHolders(s, a.task, x, y, g);
      }
    }
  }

  /** Over one step the lost descriptions change only by the guard of that branch. */
  lemma StepLost(s: Sys, a: Act)
    requires Inv(s)
    ensures Lost(Step(s, a).0) == Lost(s) + if OpenOverflows(s, a) then {s.nextId} else {}
  {
    hide Lost, FileOk, PipeOk, Inv, Open, Dup, Dup2, MakePipe, Read, Write, FileUnref;
    if a.task in s.tables {
      match a.op {
        case OpOpen(_, _, _) => OpenLost(s, a);
        case OpClose(fd) =>
          if OpenFd(s, a.task, fd) {
            SlotAlive(s, a.task, fd);
            DetachLost(s, a.task, fd);
          }
        case OpDup(fd) => DupLost(s, a.task, fd);
        case OpDup2(from, to) => Dup2Lost(s, a.task, from, to);
        case OpPipe(_) => PipeLost(s, a);
        case OpSpawn => SpawnLost(s, a.task);
        case OpExit => ExitLost(s, a.task);
        case OpRead(fd, count) =>
          ReadShape(s, a.task, fd, count);
          SameTablesLost(s, Step(s, a).0);
        case OpWrite(fd, data) =>
          WriteShape(s, a.task, fd, data);
          SameTablesLost(s, Step(s, a).0);
      }
    }
  }

  lemma SameTablesLost(s: Sys, s': Sys)
    requires s'.files == s.files && s'.tables == s.tables
    ensures Lost(s') == Lost(s)
  {
  }

  /** Some step of the run is an open that overflows its task's table. */
  ghost predicate SomeOpenOverflows(s: Sys, acts: seq<Act>)
    requires Inv(s)
    decreases |acts|
  {
    acts != [] && (OpenOverflows(s, acts[0]) || SomeOpenOverflows(Step(s, acts[0]).0, acts[1..]))
  }

  /** A run that starts with every description held ends so if and only if no open in it
      overflowed a table. */
  lemma {:induction false} LostExactlyByOverflow(s: Sys, acts: seq<Act>)
    requires Inv(s)
    ensures Lost(s) <= Lost(Exec(s, acts))
    ensures Lost(s) == {} ==> (Lost(Exec(s, acts)) == {} <==> !SomeOpenOverflows(s, acts))
    decreases |acts|
  {
    if acts != [] {
      hide Lost, Step, Inv, OpenOverflows;
      StepLost(s, acts[0]);
      LostExactlyByOverflow(Step(s, acts[0]).0, acts[1..]);
    }
  }
}
