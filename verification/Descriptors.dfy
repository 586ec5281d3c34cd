/** Open file descriptions, pipe ends and per-task descriptor tables as one value,
    and the operations of kernel/vfs/vfs.c on it. A description or a pipe that has
    been freed is absent from its map; identities are never reused. */
module Descriptors {
  import opened Base
  import opened Pipes

  const MAX_FDS: nat := 16

  const EPERM := 1
  const EBADF := 9
  const ENOMEM := 12
  const EPIPE := 32

  const O_RDONLY: nat := 0
  const O_WRONLY: nat := 1

  type FileId = nat
  type PipeId = nat
  type Pid = nat

  datatype Target = Node(node: nat) | PipeEnd(pipe: PipeId)

  /** struct vfs_file. */
  datatype File = File(target: Target, pos: nat, flags: nat, refs: int)

  /** flags & O_WRONLY */
  predicate Writes(f: File) {
    f.flags % 2 == 1
  }

  type Slot = Option<FileId>
  type Table = seq<Slot>

  datatype Sys = Sys(
    files: map<FileId, File>,
    pipes: map<PipeId, Ring>,
    tables: map<Pid, Table>,
    nextId: nat,
    nextPid: Pid)

  /** fd names an open slot of task t. */
  predicate OpenFd(s: Sys, t: Pid, fd: int) {
    t in s.tables && 0 <= fd < |s.tables[t]| && s.tables[t][fd].Some?
  }

  // ---- reference counting ----

  function AdjustEnd(r: Ring, writes: bool, delta: int): Ring {
    if writes then r.(refsW := r.refsW + delta) else r.(refsR := r.refsR + delta)
  }

  /** f is a live description and so is the pipe it points at. */
  predicate Alive(s: Sys, f: FileId) {
    f in s.files && (s.files[f].target.PipeEnd? ==> s.files[f].target.pipe in s.pipes)
  }

  function FileRef(s: Sys, f: FileId): Sys
    requires Alive(s, f)
  {
    var file := s.files[f];
    var pipes := match file.target
      case Node(_) => s.pipes
      case PipeEnd(p) => s.pipes[p := AdjustEnd(s.pipes[p], Writes(file), 1)];
    s.(files := s.files[f := file.(refs := file.refs + 1)], pipes := pipes)
  }

  function FileUnref(s: Sys, f: FileId): Sys
    requires Alive(s, f)
  {
    var file := s.files[f];
    var pipes := match file.target
      case Node(_) => s.pipes
      case PipeEnd(p) => s.pipes[p := AdjustEnd(s.pipes[p], Writes(file), -1)];
    if file.refs - 1 == 0 then
      var pipes' := match file.target
        case Node(_) => pipes
        case PipeEnd(p) => if pipes[p].refsR == 0 && pipes[p].refsW == 0 then pipes - {p} else pipes;
      s.(files := s.files - {f}, pipes := pipes')
    else
      s.(files := s.files[f := file.(refs := file.refs - 1)], pipes := pipes)
  }

  function SetSlot(s: Sys, t: Pid, i: nat, v: Slot): Sys
    requires t in s.tables && i < |s.tables[t]|
  {
    s.(tables := s.tables[t := s.tables[t][i := v]])
  }

  /** Point a slot at a description and count it. */
  function Attach(s: Sys, t: Pid, i: nat, f: FileId): Sys
    requires t in s.tables && i < |s.tables[t]| && Alive(s, f)
  {
    FileRef(SetSlot(s, t, i, Some(f)), f)
  }

  /** Empty an open slot and drop its count. */
  function Detach(s: Sys, t: Pid, i: nat): Sys
    requires OpenFd(s, t, i) && Alive(s, s.tables[t][i].value)
  {
    SetSlot(FileUnref(s, s.tables[t][i].value), t, i, None)
  }

  // ---- the invariant ----

  /** The (task, slot) pairs that point at description f. */
  ghost function Holders(tables: map<Pid, Table>, f: FileId): set<(Pid, nat)> {
    set t, i | t in tables && 0 <= i < |tables[t]| && tables[t][i] == Some(f) :: (t, i)
  }

  /** The (task, slot) pairs that are open on the given end of pipe p. */
  ghost function EndHolders(s: Sys, p: PipeId, writes: bool): set<(Pid, nat)> {
    set t, i | t in s.tables && 0 <= i < |s.tables[t]| && OnEnd(s.files, s.tables[t][i], p, writes) :: (t, i)
  }

  predicate OnEnd(files: map<FileId, File>, v: Slot, p: PipeId, writes: bool) {
    && v.Some? && v.value in files
    && files[v.value].target == PipeEnd(p) && Writes(files[v.value]) == writes
  }

  ghost predicate TablesOk(s: Sys) {
    forall t | t in s.tables ::
      && t < s.nextPid && |s.tables[t]| == MAX_FDS
      && forall i | 0 <= i < MAX_FDS :: s.tables[t][i].Some? ==> s.tables[t][i].value in s.files
  }

  /** A description in the heap is counted exactly, except one that vfs_open made
      for a task without a free slot: nobody holds it and its count stays at 1. */
  ghost predicate FileOk(s: Sys, f: FileId)
    requires f in s.files
  {
    var file := s.files[f];
    && f < s.nextId
    && (|| (file.refs == |Holders(s.tables, f)| && file.refs > 0)
        || (file.refs == 1 && Holders(s.tables, f) == {} && file.target.Node?))
    && (file.target.PipeEnd? ==>
          var p := file.target.pipe;
          p in s.pipes && file.flags <= 1 && f == if Writes(file) then p + 2 else p + 1)
  }

  ghost predicate PipeOk(s: Sys, p: PipeId)
    requires p in s.pipes
  {
    var r := s.pipes[p];
    && p + 2 < s.nextId && RingOk(r)
    && r.refsR == |Holders(s.tables, p + 1)| && r.refsW == |Holders(s.tables, p + 2)|
    && r.refsR + r.refsW > 0
    && (p + 1 in s.files ==> s.files[p + 1].target == PipeEnd(p))
    && (p + 2 in s.files ==> s.files[p + 2].target == PipeEnd(p))
  }

  ghost predicate Inv(s: Sys) {
    && TablesOk(s)
    && (forall f | f in s.files :: FileOk(s, f))
    && (forall p | p in s.pipes :: PipeOk(s, p))
  }

  // ---- slot updates keep the invariant ----

  lemma HoldersAfterSet(tables: map<Pid, Table>, t: Pid, i: nat, v: Slot, g: FileId)
    requires t in tables && i < |tables[t]|
    ensures Holders(tables[t := tables[t][i := v]], g) ==
            Holders(tables, g) - {(t, i)} + (if v == Some(g) then {(t, i)} else {})
  {
    var tables' := tables[t := tables[t][i := v]];
    forall u, j
      ensures (u, j) in Holders(tables', g) <==>
              (u, j) in Holders(tables, g) - {(t, i)} + (if v == Some(g) then {(t, i)} else {})
    {
      if u in tables && 0 <= j < |tables[u]| && (u, j) != (t, i) {
        assert tables'[u][j] == tables[u][j];
      }
    }
  }

  /** Emptying or filling one slot moves one pair in or out of one holder set. */
  lemma HoldersCount(tables: map<Pid, Table>, t: Pid, i: nat, v: Slot, g: FileId)
    requires t in tables && i < |tables[t]|
    ensures var was := tables[t][i];
            var tables' := tables[t := tables[t][i := v]];
            |Holders(tables', g)| == |Holders(tables, g)|
              + (if v == Some(g) then 1 else 0) - (if was == Some(g) then 1 else 0)
  {
    HoldersAfterSet(tables, t, i, v, g);
    assert (t, i) in Holders(tables, g) <==> tables[t][i] == Some(g);
  }

  lemma HoldsMeansPositive(tables: map<Pid, Table>, t: Pid, i: nat, f: FileId)
    requires t in tables && i < |tables[t]| && tables[t][i] == Some(f)
    ensures |Holders(tables, f)| > 0
  {
    assert (t, i) in Holders(tables, f);
  }

  /** Under the invariant an open slot points at a live description of a live pipe. */
  lemma SlotAlive(s: Sys, t: Pid, fd: nat)
    requires Inv(s) && OpenFd(s, t, fd)
    ensures Alive(s, s.tables[t][fd].value)
    ensures |Holders(s.tables, s.tables[t][fd].value)| > 0
  {
    HoldsMeansPositive(s.tables, t, fd, s.tables[t][fd].value);
  }

  lemma AttachFile(s: Sys, t: Pid, i: nat, f: FileId, g: FileId)
    requires Inv(s) && t in s.tables && i < |s.tables[t]| && s.tables[t][i] == None
    requires Alive(s, f) && |Holders(s.tables, f)| > 0 && g in s.files
    ensures FileOk(Attach(s, t, i, f), g)
  {
    HoldersCount(s.tables, t, i, Some(f), g);
    assert FileOk(s, g);
  }

  /** Descriptions p + 1 and p + 2, and no others, are the ends of pipe p. */
  lemma EndsOfPipe(s: Sys, p: PipeId, f: FileId)
    requires Inv(s) && f in s.files && p in s.pipes
    ensures s.files[f].target == PipeEnd(p) && Writes(s.files[f]) <==> f == p + 2
    ensures s.files[f].target == PipeEnd(p) && !Writes(s.files[f]) <==> f == p + 1
    ensures PipeOk(s, p) && FileOk(s, f)
  {
    assert PipeOk(s, p) && FileOk(s, f);
  }

  lemma AttachPipe(s: Sys, t: Pid, i: nat, f: FileId, p: PipeId)
    requires Inv(s) && t in s.tables && i < |s.tables[t]| && s.tables[t][i] == None
    requires Alive(s, f) && p in s.pipes
    ensures PipeOk(Attach(s, t, i, f), p)
  {
    hide Inv, TablesOk, Holders;
    EndsOfPipe(s, p, f);
    var s' := Attach(s, t, i, f);
    assert s'.tables == s.tables[t := s.tables[t][i := Some(f)]];
    HoldersCount(s.tables, t, i, Some(f), p + 1);
    HoldersCount(s.tables, t, i, Some(f), p + 2);
    if s.files[f].target != PipeEnd(p) {
      assert s'.pipes[p] == s.pipes[p];
    }
  }

  lemma AttachKeeps(s: Sys, t: Pid, i: nat, f: FileId)
    requires Inv(s) && t in s.tables && i < |s.tables[t]| && s.tables[t][i] == None
    requires Alive(s, f) && |Holders(s.tables, f)| > 0
    ensures Inv(Attach(s, t, i, f))
  {
    var s' := Attach(s, t, i, f);
    forall g | g in s'.files ensures FileOk(s', g) { AttachFile(s, t, i, f, g); }
    forall p | p in s'.pipes ensures PipeOk(s', p) { AttachPipe(s, t, i, f, p); }
  }

  /** The pipe of a description that is still held survives any other unref. */
  lemma DetachKeepsPipeOf(s: Sys, t: Pid, i: nat, g: FileId, p: PipeId)
    requires Inv(s) && OpenFd(s, t, i) && Alive(s, s.tables[t][i].value)
    requires g in s.files && s.files[g].target == PipeEnd(p) && p in s.pipes
    requires g in Detach(s, t, i).files
    ensures p in Detach(s, t, i).pipes
  {
    hide Inv, RingOk, TablesOk, Holders;
    var f := s.tables[t][i].value;
    EndsOfPipe(s, p, f);
    EndsOfPipe(s, p, g);
    if s.files[f].target == PipeEnd(p) && g != f {
      var r := AdjustEnd(s.pipes[p], Writes(s.files[f]), -1);
      assert if Writes(s.files[f]) then r.refsR > 0 else r.refsW > 0;
    }
  }

  lemma DetachFile(s: Sys, t: Pid, i: nat, g: FileId)
    requires Inv(s) && OpenFd(s, t, i) && Alive(s, s.tables[t][i].value)
    requires g in Detach(s, t, i).files
    ensures FileOk(Detach(s, t, i), g)
  {
    var f := s.tables[t][i].value;
    var s' := Detach(s, t, i);
    assert FileOk(s, g) && FileOk(s, f);
    HoldersCount(s.tables, t, i, None, g);
    HoldsMeansPositive(s.tables, t, i, f);
    if s.files[g].target.PipeEnd? {
      DetachKeepsPipeOf(s, t, i, g, s.files[g].target.pipe);
    }
    UnrefShape(s, f, g, 0);
    hide Inv, RingOk, TablesOk, PipeOk, FileUnref;
  }

  /** What an unref does to the description and pipe maps. */
  lemma UnrefShape(s: Sys, f: FileId, g: FileId, p: PipeId)
    requires Alive(s, f)
    ensures var s' := FileUnref(s, f);
            && s'.tables == s.tables && s'.nextId == s.nextId && s'.nextPid == s.nextPid
            && (g in s'.files <==> g in s.files && !(g == f && s.files[f].refs == 1))
            && (g in s'.files ==> s'.files[g] == s.files[g].(refs := s.files[g].refs - if g == f then 1 else 0))
            && (p in s'.pipes ==> p in s.pipes)
            && (p in s'.pipes ==>
                  s'.pipes[p] == if s.files[f].target == PipeEnd(p)
                                 then AdjustEnd(s.pipes[p], Writes(s.files[f]), -1) else s.pipes[p])
            && (p in s'.pipes && s.files[f].target == PipeEnd(p) && s.files[f].refs == 1 ==>
                  s'.pipes[p].refsR != 0 || s'.pipes[p].refsW != 0)
  {
  }

  /** A pipe that survives still has a holder. */
  lemma DetachPipe(s: Sys, t: Pid, i: nat, p: PipeId)
    requires Inv(s) && OpenFd(s, t, i) && Alive(s, s.tables[t][i].value)
    requires p in Detach(s, t, i).pipes
    ensures PipeOk(Detach(s, t, i), p)
  {
    hide Inv, TablesOk, FileUnref, Holders;
    var f := s.tables[t][i].value;
    UnrefShape(s, f, p + 1, p);
    UnrefShape(s, f, p + 2, p);
    EndsOfPipe(s, p, f);
    HoldersCount(s.tables, t, i, None, p + 1);
    HoldersCount(s.tables, t, i, None, p + 2);
    HoldsMeansPositive(s.tables, t, i, f);
    var s' := Detach(s, t, i);
    assert s'.tables == s.tables[t := s.tables[t][i := None]];
    assert s'.pipes == FileUnref(s, f).pipes && s'.files == FileUnref(s, f).files;
    var was, r := s.pipes[p], s'.pipes[p];
    if f == p + 2 {
      assert r.refsW == was.refsW - 1 && r.refsR == was.refsR;
      assert r.refsR + r.refsW > 0;
    } else if f == p + 1 {
      assert r.refsR == was.refsR - 1 && r.refsW == was.refsW;
      assert r.refsR + r.refsW > 0;
    } else {
      assert r == was;
    }
  }

  lemma DetachTables(s: Sys, t: Pid, i: nat)
    requires Inv(s) && OpenFd(s, t, i) && Alive(s, s.tables[t][i].value)
    ensures TablesOk(Detach(s, t, i))
  {
    var f := s.tables[t][i].value;
    var s' := Detach(s, t, i);
    assert FileOk(s, f);
    HoldersCount(s.tables, t, i, None, f);
    HoldsMeansPositive(s.tables, t, i, f);
    forall u, j | u in s'.tables && 0 <= j < MAX_FDS && s'.tables[u][j].Some?
      ensures s'.tables[u][j].value in s'.files
    {
      if s'.tables[u][j] == Some(f) {
        HoldsMeansPositive(s'.tables, u, j, f);
      }
    }
  }

  lemma DetachKeeps(s: Sys, t: Pid, i: nat)
    requires Inv(s) && OpenFd(s, t, i) && Alive(s, s.tables[t][i].value)
    ensures Inv(Detach(s, t, i))
  {
    var s' := Detach(s, t, i);
    DetachTables(s, t, i);
    forall g | g in s'.files ensures FileOk(s', g) { DetachFile(s, t, i, g); }
    forall p | p in s'.pipes ensures PipeOk(s', p) { DetachPipe(s, t, i, p); }
  }
}
