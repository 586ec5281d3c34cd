/** Interleaved runs of any number of tasks over the descriptor operations. */
module DescriptorRuns {
  import opened Base
  import opened Pipes
  import opened Descriptors
  import opened DescriptorOps

  datatype Op =
    | OpOpen(found: NodeResult, flags: nat, malloc: bool)
    | OpClose(fd: int)
    | OpDup(fd: int)
    | OpDup2(from: int, to: int)
    | OpPipe(malloc: bool)
    | OpSpawn
    | OpExit
    | OpRead(fd: int, count: nat)
    | OpWrite(fd: int, data: seq<byte>)

  /** One atomic step of one task. */
  datatype Act = Act(task: Pid, op: Op)

  /** What a step reports. Bytes moved through a pipe are named with the pipe. */
  datatype Outcome =
    | Ret(code: int)
    | NewFds(r: nat, w: nat)
    | Child(pid: Pid)
    | Wait
    | AtEof(pipe: PipeId)
    | Delivered(pipe: PipeId, bytes: seq<byte>)
    | Stored(pipe: PipeId, bytes: seq<byte>)
    | ToNode(node: nat)

  // ---- every operation keeps the invariant ----

  lemma NewFileKeeps(s: Sys, file: File)
    requires Inv(s) && file.refs == 1 && file.target.Node?
    ensures Inv(NewFile(s, file)) && Holders(s.tables, s.nextId) == {}
  {
    var s' := NewFile(s, file);
    forall g | g in s'.files ensures FileOk(s', g) { assert g in s.files ==> FileOk(s, g); }
    forall p | p in s'.pipes ensures PipeOk(s', p) { assert PipeOk(s, p); }
    FreshUnheld(s, s.nextId);
  }

  /** No slot points at an identity that has not been handed out. */
  lemma FreshUnheld(s: Sys, f: FileId)
    requires Inv(s) && f >= s.nextId
    ensures Holders(s.tables, f) == {}
  {
    assert f !in s.files;
  }

  lemma OpenKeeps(s: Sys, t: Pid, found: NodeResult, flags: nat, malloc: bool)
    requires Inv(s)
    ensures Inv(Open(s, t, found, flags, malloc).0)
  {
    if t in s.tables && found.Found? && malloc {
      var f := s.nextId;
      var pos := if (flags / 0x400) % 2 == 1 then found.size else 0;
      var s1 := NewFile(s, File(Node(found.node), pos, flags, 1));
      NewFileKeeps(s, File(Node(found.node), pos, flags, 1));
      var i := FirstFree(s.tables[t], 3);
      if i < MAX_FDS {
        FillSlotKeeps(s1, t, i, f);
      }
    }
  }

  lemma FillSlotPipe(s: Sys, t: Pid, i: nat, f: FileId, p: PipeId)
    requires Inv(s) && t in s.tables && i < |s.tables[t]| && s.tables[t][i] == None
    requires f in s.files && s.files[f].target.Node? && p in s.pipes
    ensures PipeOk(SetSlot(s, t, i, Some(f)), p)
  {
    hide Inv, TablesOk, RingOk, Holders;
    EndsOfPipe(s, p, f);
    HoldersCount(s.tables, t, i, Some(f), p + 1);
    HoldersCount(s.tables, t, i, Some(f), p + 2);
  }

  /** Handing an unheld description with count 1 to a free slot. */
  lemma FillSlotKeeps(s: Sys, t: Pid, i: nat, f: FileId)
    requires Inv(s) && t in s.tables && i < |s.tables[t]| && s.tables[t][i] == None
    requires f in s.files && s.files[f].refs == 1 && Holders(s.tables, f) == {} && s.files[f].target.Node?
    ensures Inv(SetSlot(s, t, i, Some(f)))
  {
    var s' := SetSlot(s, t, i, Some(f));
    forall g | g in s'.files ensures FileOk(s', g) {
      HoldersCount(s.tables, t, i, Some(f), g);
      assert FileOk(s, g);
    }
    forall p | p in s'.pipes ensures PipeOk(s', p) {
      FillSlotPipe(s, t, i, f, p);
    }
  }

  lemma CloseKeeps(s: Sys, t: Pid, fd: int)
    requires Inv(s)
    ensures Inv(Close(s, t, fd).0)
  {
    if OpenFd(s, t, fd) {
      SlotAlive(s, t, fd);
      DetachKeeps(s, t, fd);
    }
  }

  lemma DupKeeps(s: Sys, t: Pid, fd: int)
    requires Inv(s)
    ensures Inv(Dup(s, t, fd).0)
  {
    if OpenFd(s, t, fd) {
      SlotAlive(s, t, fd);
      var i := FirstFree(s.tables[t], 0);
      if i < MAX_FDS {
        AttachKeeps(s, t, i, s.tables[t][fd].value);
      }
    }
  }

  lemma Dup2Keeps(s: Sys, t: Pid, from: int, to: int)
    requires Inv(s)
    ensures Inv(Dup2(s, t, from, to).0)
  {
    if OpenFd(s, t, from) && 0 <= to < MAX_FDS && from != to {
      VacateKeeps(s, t, from, to);
      AttachKeeps(Vacate(s, t, to), t, to, s.tables[t][from].value);
    }
  }

  lemma NewPipeHolders(s: Sys, t: Pid, a: nat, b: nat, g: FileId)
    requires Inv(s) && t in s.tables && a < b < MAX_FDS
    requires s.tables[t][a] == None && s.tables[t][b] == None
    ensures |Holders(NewPipe(s, t, a, b).tables, g)| ==
            if g == s.nextId + 1 || g == s.nextId + 2 then 1 else |Holders(s.tables, g)|
  {
    hide PipeOk, FileOk, RingOk;
    var p := s.nextId;
    var t1 := s.tables[t := s.tables[t][a := Some(p + 1)]];
    var t2 := t1[t := t1[t][b := Some(p + 2)]];
    assert t2 == NewPipe(s, t, a, b).tables;
    HoldersCount(s.tables, t, a, Some(p + 1), g);
    HoldersCount(t1, t, b, Some(p + 2), g);
    FreshUnheld(s, p + 1);
    FreshUnheld(s, p + 2);
  }

  lemma NewPipeKeeps(s: Sys, t: Pid, a: nat, b: nat)
    requires Inv(s) && t in s.tables && a < b < MAX_FDS
    requires s.tables[t][a] == None && s.tables[t][b] == None
    ensures Inv(NewPipe(s, t, a, b))
  {
    var s' := NewPipe(s, t, a, b);
    forall g | g in s'.files ensures FileOk(s', g) {
      NewPipeFile(s, t, a, b, g);
    }
    forall p | p in s'.pipes ensures PipeOk(s', p) {
      NewPipePipe(s, t, a, b, p);
    }
  }

  lemma NewPipeFile(s: Sys, t: Pid, a: nat, b: nat, g: FileId)
    requires Inv(s) && t in s.tables && a < b < MAX_FDS
    requires s.tables[t][a] == None && s.tables[t][b] == None
    requires g in NewPipe(s, t, a, b).files
    ensures FileOk(NewPipe(s, t, a, b), g)
  {
    NewPipeHolders(s, t, a, b, g);
    assert g in s.files ==> FileOk(s, g);
  }

  lemma NewPipePipe(s: Sys, t: Pid, a: nat, b: nat, p: PipeId)
    requires Inv(s) && t in s.tables && a < b < MAX_FDS
    requires s.tables[t][a] == None && s.tables[t][b] == None
    requires p in NewPipe(s, t, a, b).pipes
    ensures PipeOk(NewPipe(s, t, a, b), p)
  {
    NewPipeHolders(s, t, a, b, p + 1);
    NewPipeHolders(s, t, a, b, p + 2);
    assert p in s.pipes ==> PipeOk(s, p);
  }

  lemma MakePipeKeeps(s: Sys, t: Pid, malloc: bool)
    requires Inv(s)
    ensures Inv(MakePipe(s, t, malloc).0)
  {
    if t in s.tables && malloc && PipeSlots(s.tables[t]).Some? {
      var (a, b) := PipeSlots(s.tables[t]).value;
      NewPipeKeeps(s, t, a, b);
    }
  }

  // ---- pipe passes ----

  function WithRing(s: Sys, p: PipeId, r: Ring): Sys {
    s.(pipes := s.pipes[p := r])
  }

  lemma WithRingKeeps(s: Sys, p: PipeId, r: Ring)
    requires Inv(s) && p in s.pipes && RingOk(r)
    requires r.refsR == s.pipes[p].refsR && r.refsW == s.pipes[p].refsW
    ensures Inv(WithRing(s, p, r))
  {
    var s' := WithRing(s, p, r);
    forall g | g in s'.files ensures FileOk(s', g) { assert FileOk(s, g); }
    forall q | q in s'.pipes ensures PipeOk(s', q) { assert PipeOk(s, q); }
  }

  /** The pipe that task t reaches through fd, if fd is open on one. */
  ghost function PipeAt(s: Sys, t: Pid, fd: int): Option<PipeId>
    requires Inv(s)
  {
    if !OpenFd(s, t, fd) then None
    else
      SlotAlive(s, t, fd);
      match s.files[s.tables[t][fd].value].target
      case Node(_) => None
      case PipeEnd(p) => Some(p)
  }

  lemma PipeAtLive(s: Sys, t: Pid, fd: int)
    requires Inv(s) && PipeAt(s, t, fd).Some?
    ensures OpenFd(s, t, fd) && PipeAt(s, t, fd).value in s.pipes
    ensures RingOk(s.pipes[PipeAt(s, t, fd).value])
    ensures s.files[s.tables[t][fd].value].target == PipeEnd(PipeAt(s, t, fd).value)
  {
    SlotAlive(s, t, fd);
    assert PipeOk(s, PipeAt(s, t, fd).value);
  }

  /** vfs_read up to the next wait: EBADF on a closed or write-only descriptor, one pass
      of pipe_read on a pipe, and the tree layer for everything else. */
  ghost function Read(s: Sys, t: Pid, fd: int, count: nat): (r: (Sys, Outcome))
    requires Inv(s)
    ensures Inv(r.0)
  {
    if !OpenFd(s, t, fd) then (s, Ret(-EBADF))
    else
      SlotAlive(s, t, fd);
      var file := s.files[s.tables[t][fd].value];
      if file.flags % 4 == O_WRONLY then (s, Ret(-EBADF))
      else match file.target
        case Node(n) => (s, ToNode(n))
        case PipeEnd(p) =>
          PipeAtLive(s, t, fd);
          DrainTakesPrefix(s.pipes[p], count);
          var (ring, pass) := ReadPassOf(s.pipes[p], count);
          WithRingKeeps(s, p, ring);
          match pass
          case EndOfFile => (s, AtEof(p))
          case ReadWait => (s, Wait)
          case Got(bytes) => (WithRing(s, p, ring), Delivered(p, bytes))
  }

  /** vfs_write up to the next wait, on the bytes that the call has not stored yet. */
  ghost function Write(s: Sys, t: Pid, fd: int, data: seq<byte>): (r: (Sys, Outcome))
    requires Inv(s)
    ensures Inv(r.0)
  {
    if !OpenFd(s, t, fd) then (s, Ret(-EBADF))
    else
      SlotAlive(s, t, fd);
      var file := s.files[s.tables[t][fd].value];
      if file.flags % 4 == O_RDONLY then (s, Ret(-EBADF))
      else match file.target
        case Node(n) => (s, ToNode(n))
        case PipeEnd(p) =>
          PipeAtLive(s, t, fd);
          FillAppendsPrefix(s.pipes[p], data);
          var (ring, pass) := WritePassOf(s.pipes[p], data);
          WithRingKeeps(s, p, ring);
          match pass
          case WriteDone => (s, Ret(0))
          case BrokenPipe => (s, Ret(-EPIPE))
          case WriteWait => (s, Wait)
          case Accepted(n) => (WithRing(s, p, ring), Stored(p, data[..n]))
  }

  // ---- steps and runs ----

  /** One step; a task that has exited takes none. */
  ghost function Step(s: Sys, a: Act): (r: (Sys, Outcome))
    requires Inv(s)
    ensures Inv(r.0)
  {
    if a.task !in s.tables then (s, Ret(-EPERM))
    else match a.op
      case OpOpen(found, flags, malloc) =>
        OpenKeeps(s, a.task, found, flags, malloc);
        var (s', code) := Open(s, a.task, found, flags, malloc);
        (s', Ret(code))
      case OpClose(fd) =>
        CloseKeeps(s, a.task, fd);
        var (s', code) := Close(s, a.task, fd);
        (s', Ret(code))
      case OpDup(fd) =>
        DupKeeps(s, a.task, fd);
        var (s', code) := Dup(s, a.task, fd);
        (s', Ret(code))
      case OpDup2(from, to) =>
        Dup2Keeps(s, a.task, from, to);
        var (s', code) := Dup2(s, a.task, from, to);
        (s', Ret(code))
      case OpPipe(malloc) =>
        MakePipeKeeps(s, a.task, malloc);
        var (s', fds) := MakePipe(s, a.task, malloc);
        (s', if fds.None? then Ret(-ENOMEM) else NewFds(fds.value.0, fds.value.1))
      case OpSpawn => (Spawn(s, a.task), Child(s.nextPid))
      case OpExit => (Exit(s, a.task), Ret(0))
      case OpRead(fd, count) => Read(s, a.task, fd, count)
      case OpWrite(fd, data) => Write(s, a.task, fd, data)
  }

  /** The state after a run. */
  ghost function Exec(s: Sys, acts: seq<Act>): (s': Sys)
    requires Inv(s)
    ensures Inv(s')
    decreases |acts|
  {
    if acts == [] then s else Exec(Step(s, acts[0]).0, acts[1..])
  }

  /** What the steps of a run reported. */
  ghost function Trace(s: Sys, acts: seq<Act>): (o: seq<Outcome>)
    requires Inv(s)
    ensures |o| == |acts|
    decreases |acts|
  {
    if acts == [] then []
    else [Step(s, acts[0]).1] + Trace(Step(s, acts[0]).0, acts[1..])
  }
}
