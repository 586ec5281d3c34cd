/** What every interleaved run of descriptor operations guarantees. */
module DescriptorTheorems {
  import opened Base
  import opened Pipes
  import opened Descriptors
  import opened DescriptorOps
  import opened DescriptorRuns

  // ---- reference counts ----

  /** After vfs_devices_init: the shell (pid 1) has the console open three times. */
  function BootState(): Sys {
    Sys(map[0 := File(Node(0), 0, 2, 1), 1 := File(Node(0), 0, 2, 1), 2 := File(Node(0), 0, 2, 1)],
        map[],
        map[1 := [Some(0), Some(1), Some(2)] + seq(MAX_FDS - 3, _ => None)],
        3, 2)
  }

  lemma BootOk()
    ensures Inv(BootState())
  {
    var s := BootState();
    forall f | f in s.files ensures FileOk(s, f) {
      assert Holders(s.tables, f) == {(1, f)};
    }
  }

  ghost function Boot(): (s: Sys)
    ensures Inv(s)
  {
    BootOk();
    BootState()
  }

  /** Under the invariant the pairs on an end of p are the holders of one description. */
  lemma EndHoldersAre(s: Sys, p: PipeId)
    requires Inv(s) && p in s.pipes
    ensures EndHolders(s, p, true) == Holders(s.tables, p + 2)
    ensures EndHolders(s, p, false) == Holders(s.tables, p + 1)
  {
    forall t, i | t in s.tables && 0 <= i < |s.tables[t]|
      ensures OnEnd(s.files, s.tables[t][i], p, true) <==> s.tables[t][i] == Some(p + 2)
      ensures OnEnd(s.files, s.tables[t][i], p, false) <==> s.tables[t][i] == Some(p + 1)
    {
      if s.tables[t][i].Some? {
        EndsOfPipe(s, p, s.tables[t][i].value);
      }
    }
  }

  /** In every reachable state a slot points at a live description whose count is the
      number of slots on it, and each pipe end's count is the number of slots on that end. */
  lemma CountsAreHolders(acts: seq<Act>)
    ensures var s := Exec(Boot(), acts);
            && (forall t, i | t in s.tables && 0 <= i < |s.tables[t]| && s.tables[t][i].Some? ::
                  var f := s.tables[t][i].value;
                  Alive(s, f) && s.files[f].refs == |Holders(s.tables, f)|)
            && (forall p | p in s.pipes ::
                  && s.pipes[p].refsR == |EndHolders(s, p, false)|
                  && s.pipes[p].refsW == |EndHolders(s, p, true)|
                  && EndHolders(s, p, false) + EndHolders(s, p, true) != {})
  {
    var s := Exec(Boot(), acts);
    forall t, i | t in s.tables && 0 <= i < |s.tables[t]| && s.tables[t][i].Some?
      ensures var f := s.tables[t][i].value;
              Alive(s, f) && s.files[f].refs == |Holders(s.tables, f)|
    {
      SlotAlive(s, t, i);
      assert FileOk(s, s.tables[t][i].value);
    }
    forall p | p in s.pipes
      ensures && s.pipes[p].refsR == |EndHolders(s, p, false)|
              && s.pipes[p].refsW == |EndHolders(s, p, true)|
              && EndHolders(s, p, false) + EndHolders(s, p, true) != {}
    {
      EndHoldersAre(s, p);
      assert PipeOk(s, p);
    }
  }

  // ---- a pipe is a bounded FIFO ----

  /** No pipe appears, and the pipes that remain hold the bytes they held. */
  ghost predicate SameBytes(s: Sys, s': Sys) {
    forall p | p in s'.pipes ::
      p in s.pipes && s'.pipes[p] == s.pipes[p].(refsR := s'.pipes[p].refsR, refsW := s'.pipes[p].refsW)
  }

  lemma AttachSameBytes(s: Sys, t: Pid, i: nat, f: FileId)
    requires t in s.tables && i < |s.tables[t]| && Alive(s, f)
    ensures SameBytes(s, Attach(s, t, i, f))
  {
  }

  lemma DetachSameBytes(s: Sys, t: Pid, i: nat)
    requires OpenFd(s, t, i) && Alive(s, s.tables[t][i].value)
    ensures SameBytes(s, Detach(s, t, i))
  {
  }

  lemma SameBytesRefl(s: Sys)
    ensures SameBytes(s, s)
  {
  }

  lemma SameBytesTrans(s: Sys, s1: Sys, s2: Sys)
    requires SameBytes(s, s1) && SameBytes(s1, s2)
    ensures SameBytes(s, s2)
  {
  }

  lemma InheritSameBytes(s: Sys, parent: Pid, child: Pid, i: nat)
    requires Inv(s) && Inheriting(s, parent, child, i)
    ensures SameBytes(s, InheritFrom(s, parent, child, i))
    decreases MAX_FDS - i
  {
    if i < MAX_FDS {
      if s.tables[parent][i].None? {
        InheritSameBytes(s, parent, child, i + 1);
      } else {
        var f := s.tables[parent][i].value;
        SlotAlive(s, parent, i);
        InheritCopies(s, parent, child, i);
        AttachSameBytes(s, child, i, f);
        var s1 := Attach(s, child, i, f);
        InheritSameBytes(s1, parent, child, i + 1);
        SameBytesTrans(s, s1, InheritFrom(s1, parent, child, i + 1));
      }
    }
  }

  lemma CloseAllSameBytes(s: Sys, t: Pid, i: nat)
    requires Inv(s) && Closing(s, t, i)
    ensures SameBytes(s, CloseAllFrom(s, t, i))
    decreases MAX_FDS - i
  {
    if i < MAX_FDS {
      if s.tables[t][i].None? {
        CloseAllSameBytes(s, t, i + 1);
      } else {
        CloseAllDrops(s, t, i);
        DetachSameBytes(s, t, i);
        var s1 := Detach(s, t, i);
        hide FileUnref, SameBytes, FileOk, PipeOk;
        CloseAllSameBytes(s1, t, i + 1);
        SameBytesTrans(s, s1, CloseAllFrom(s1, t, i + 1));
      }
    }
  }

  lemma SpawnSameBytes(s: Sys, t: Pid)
    requires Inv(s) && t in s.tables
    ensures SameBytes(s, Spawn(s, t))
  {
    NewTaskKeeps(s);
    InheritSameBytes(NewTask(s), t, s.nextPid, 0);
  }

  lemma ExitSameBytes(s: Sys, t: Pid)
    requires Inv(s) && t in s.tables
    ensures SameBytes(s, Exit(s, t))
  {
    CloseAllSameBytes(s, t, 0);
  }

  lemma Dup2SameBytes(s: Sys, t: Pid, from: int, to: int)
    requires Inv(s)
    ensures SameBytes(s, Dup2(s, t, from, to).0)
  {
    if OpenFd(s, t, from) && 0 <= to < MAX_FDS && from != to {
      hide FileRef, FileUnref, FileOk, PipeOk, SameBytes;
      VacateKeeps(s, t, from, to);
      var s1 := Vacate(s, t, to);
      assert SameBytes(s, s1) by {
        if OpenFd(s, t, to) {
          SlotAlive(s, t, to);
          DetachSameBytes(s, t, to);
        } else {
          SameBytesRefl(s);
        }
      }
      AttachSameBytes(s1, t, to, s.tables[t][from].value);
      SameBytesTrans(s, s1, Attach(s1, t, to, s.tables[t][from].value));
    } else {
      SameBytesRefl(s);
    }
  }

  predicate MovesBytes(op: Op) {
    op.OpRead? || op.OpWrite?
  }

  lemma TableStepSameBytes(s: Sys, a: Act)
    requires Inv(s) && !MovesBytes(a.op) && !a.op.OpPipe?
    ensures SameBytes(s, Step(s, a).0)
  {
    hide FileRef, FileUnref, FileOk, PipeOk, Inv, SameBytes;
    SameBytesRefl(s);
    if a.task in s.tables {
      match a.op {
        case OpClose(fd) =>
          if OpenFd(s, a.task, fd) {
            SlotAlive(s, a.task, fd);
            DetachSameBytes(s, a.task, fd);
          }
        case OpDup(fd) =>
          DupSameBytes(s, a.task, fd);
        case OpDup2(from, to) => Dup2SameBytes(s, a.task, from, to);
        case OpSpawn => SpawnSameBytes(s, a.task);
        case OpExit => ExitSameBytes(s, a.task);
        case OpOpen(found, flags, malloc) => OpenSameBytes(s, a.task, found, flags, malloc);
      }
    }
  }

  lemma DupSameBytes(s: Sys, t: Pid, fd: int)
    requires Inv(s)
    ensures SameBytes(s, Dup(s, t, fd).0)
  {
    if OpenFd(s, t, fd) && FirstFree(s.tables[t], 0) < MAX_FDS {
      SlotAlive(s, t, fd);
      AttachSameBytes(s, t, FirstFree(s.tables[t], 0), s.tables[t][fd].value);
    }
  }

  lemma OpenSameBytes(s: Sys, t: Pid, found: NodeResult, flags: nat, malloc: bool)
    requires Inv(s)
    ensures SameBytes(s, Open(s, t, found, flags, malloc).0)
  {
  }

  /** The bytes a pipe holds; a pipe that does not exist holds none. */
  ghost function Queue(s: Sys, p: PipeId): (q: seq<byte>)
    requires Inv(s)
    ensures |q| <= PIPE_BUF_SIZE
  {
    if p in s.pipes then
      assert PipeOk(s, p);
      Contents(s.pipes[p])
    else []
  }

  function StoredBy(o: Outcome, p: PipeId): seq<byte> {
    if o.Stored? && o.pipe == p then o.bytes else []
  }

  function DeliveredBy(o: Outcome, p: PipeId): seq<byte> {
    if o.Delivered? && o.pipe == p then o.bytes else []
  }

  /** All bytes a run's writes put into p, in order. */
  function Into(trace: seq<Outcome>, p: PipeId): seq<byte> {
    if trace == [] then [] else StoredBy(trace[0], p) + Into(trace[1..], p)
  }

  /** All bytes a run's reads took from p, in order. */
  function OutOf(trace: seq<Outcome>, p: PipeId): seq<byte> {
    if trace == [] then [] else DeliveredBy(trace[0], p) + OutOf(trace[1..], p)
  }

  /** One step conserves bytes on every pipe that survives it. */
  lemma StepConserves(s: Sys, a: Act, p: PipeId)
    requires Inv(s)
    ensures var (s', o) := Step(s, a);
            && s.nextId <= s'.nextId
            && (p in s'.pipes ==> p in s.pipes || p >= s.nextId)
            && (p in s'.pipes ==> Queue(s, p) + StoredBy(o, p) == DeliveredBy(o, p) + Queue(s', p))
            && (p !in s.pipes || p !in s'.pipes ==> StoredBy(o, p) == [] == DeliveredBy(o, p))
  {
    hide Open, Close, Dup, Dup2, MakePipe, Read, Write, Inv, SameBytes, Queue, FileRef, FileUnref;
    if a.task !in s.tables {
      SameBytesRefl(s);
      SameBytesQueue(s, s, p);
    } else if a.op.OpRead? {
      ReadConserves(s, a.task, a.op.fd, a.op.count, p);
    } else if a.op.OpWrite? {
      WriteConserves(s, a.task, a.op.fd, a.op.data, p);
    } else if a.op.OpPipe? {
      PipeConserves(s, a, p);
    } else {
      TableStepSameBytes(s, a);
      SameBytesQueue(s, Step(s, a).0, p);
      NextIdGrows(s, a);
    }
  }

  lemma SameBytesQueue(s: Sys, s': Sys, p: PipeId)
    requires Inv(s) && Inv(s') && SameBytes(s, s')
    ensures p in s'.pipes ==> p in s.pipes && Queue(s, p) == Queue(s', p)
  {
    assert p in s'.pipes ==> PipeOk(s', p);
  }

  lemma NextIdGrows(s: Sys, a: Act)
    requires Inv(s)
    ensures s.nextId <= Step(s, a).0.nextId
    ensures s.nextPid <= Step(s, a).0.nextPid
  {
    hide FileOk, PipeOk, TablesOk, Holders, ReadPassOf, WritePassOf, FirstFree;
  }

  /** A read that delivers is one Drain of one ring; any other read changes nothing. */
  lemma ReadShape(s: Sys, t: Pid, fd: int, count: nat)
    requires Inv(s)
    ensures var (s', o) := Read(s, t, fd, count);
            && !o.Stored? && (!o.Delivered? ==> s' == s)
            && (o.Delivered? ==>
                  && o.pipe in s.pipes && RingOk(s.pipes[o.pipe]) && s.pipes[o.pipe].count > 0
                  && (WithRing(s, o.pipe, Drain(s.pipes[o.pipe], count).0), o.bytes)
                     == (s', Drain(s.pipes[o.pipe], count).1))
            && (o.AtEof? ==>
                  && o.pipe in s.pipes && RingOk(s.pipes[o.pipe])
                  && s.pipes[o.pipe].count == 0 && s.pipes[o.pipe].refsW == 0)
  {
    if PipeAt(s, t, fd).Some? {
      PipeAtLive(s, t, fd);
    }
    hide FileOk, PipeOk, TablesOk, Drain, Fill;
  }

  /** A write that stores is one Fill of one ring; any other write changes nothing. */
  lemma WriteShape(s: Sys, t: Pid, fd: int, data: seq<byte>)
    requires Inv(s)
    ensures var (s', o) := Write(s, t, fd, data);
            && !o.Delivered? && !o.AtEof? && (!o.Stored? ==> s' == s)
            && (o.Stored? ==>
                  && o.pipe in s.pipes && RingOk(s.pipes[o.pipe])
                  && Fill(s.pipes[o.pipe], data).1 <= |data|
                  && (WithRing(s, o.pipe, Fill(s.pipes[o.pipe], data).0), o.bytes)
                     == (s', data[..Fill(s.pipes[o.pipe], data).1]))
  {
    if PipeAt(s, t, fd).Some? {
      PipeAtLive(s, t, fd);
      FillAppendsPrefix(s.pipes[PipeAt(s, t, fd).value], data);
    }
    hide FileOk, PipeOk, TablesOk, Drain, Fill;
  }

  lemma ReadConserves(s: Sys, t: Pid, fd: int, count: nat, p: PipeId)
    requires Inv(s)
    ensures var (s', o) := Read(s, t, fd, count);
            && s.nextId == s'.nextId && (p in s'.pipes <==> p in s.pipes)
            && Queue(s, p) + StoredBy(o, p) == DeliveredBy(o, p) + Queue(s', p)
            && (p !in s.pipes ==> StoredBy(o, p) == [] == DeliveredBy(o, p))
  {
    hide Read, Inv, Contents, RingOk, Drain;
    ReadShape(s, t, fd, count);
    var o := Read(s, t, fd, count).1;
    if o.Delivered? {
      DrainTakesPrefix(s.pipes[o.pipe], count);
    }
  }

  lemma WriteConserves(s: Sys, t: Pid, fd: int, data: seq<byte>, p: PipeId)
    requires Inv(s)
    ensures var (s', o) := Write(s, t, fd, data);
            && s.nextId == s'.nextId && (p in s'.pipes <==> p in s.pipes)
            && Queue(s, p) + StoredBy(o, p) == DeliveredBy(o, p) + Queue(s', p)
            && (p !in s.pipes ==> StoredBy(o, p) == [] == DeliveredBy(o, p))
  {
    hide Write, Inv, Contents, RingOk, Fill;
    WriteShape(s, t, fd, data);
    var o := Write(s, t, fd, data).1;
    if o.Stored? {
      FillAppendsPrefix(s.pipes[o.pipe], data);
    }
  }

  lemma PipeConserves(s: Sys, a: Act, p: PipeId)
    requires Inv(s) && a.op.OpPipe?
    ensures var (s', o) := Step(s, a);
            && s.nextId <= s'.nextId && !o.Stored? && !o.Delivered?
            && (p in s'.pipes ==> p in s.pipes || p >= s.nextId)
            && (p in s.pipes ==> p in s'.pipes)
            && Queue(s, p) == Queue(s', p)
  {
    assert p in s.pipes ==> PipeOk(s, p);
    hide FileOk, TablesOk, PipeOk, FirstFree, PipeSlots;
  }

  /** Once a pipe is gone it stays gone and no bytes move through it. */
  lemma {:induction false} GoneForGood(s: Sys, acts: seq<Act>, p: PipeId)
    requires Inv(s) && p !in s.pipes && p < s.nextId
    ensures p !in Exec(s, acts).pipes
    ensures Into(Trace(s, acts), p) == [] == OutOf(Trace(s, acts), p)
    decreases |acts|
  {
    if acts != [] {
      StepConserves(s, acts[0], p);
      hide Step;
      GoneForGood(Step(s, acts[0]).0, acts[1..], p);
    }
  }

  /** Conservation over a run that starts with p live or not yet made, and ends with p live. */
  lemma {:induction false} RunConserves(s: Sys, acts: seq<Act>, p: PipeId)
    requires Inv(s) && (p in s.pipes || p >= s.nextId) && p in Exec(s, acts).pipes
    ensures var o := Trace(s, acts);
            Queue(s, p) + Into(o, p) == OutOf(o, p) + Queue(Exec(s, acts), p)
    decreases |acts|
  {
    if acts != [] {
      hide Step, Inv, Queue;
      StepConserves(s, acts[0], p);
      var (s1, o1) := Step(s, acts[0]);
      if p !in s1.pipes {
        if p < s1.nextId {
          GoneForGood(s1, acts[1..], p);
          assert false;
        }
        QueueOfNone(s, p);
        QueueOfNone(s1, p);
      }
      RunConserves(s1, acts[1..], p);
      TraceUnfolds(s, acts, p);
      Regroup(Queue(s, p), StoredBy(o1, p), DeliveredBy(o1, p), Queue(s1, p),
              Into(Trace(s1, acts[1..]), p), OutOf(Trace(s1, acts[1..]), p), Queue(Exec(s, acts), p));
    }
  }

  lemma TraceUnfolds(s: Sys, acts: seq<Act>, p: PipeId)
    requires Inv(s) && acts != []
    ensures var (s1, o1) := Step(s, acts[0]);
            && Into(Trace(s, acts), p) == StoredBy(o1, p) + Into(Trace(s1, acts[1..]), p)
            && OutOf(Trace(s, acts), p) == DeliveredBy(o1, p) + OutOf(Trace(s1, acts[1..]), p)
  {
    hide Step, Inv;
    assert Trace(s, acts)[1..] == Trace(Step(s, acts[0]).0, acts[1..]);
  }

  /** Two consecutive conservation equations add up. */
  lemma Regroup(q: seq<byte>, in0: seq<byte>, out0: seq<byte>, q1: seq<byte>,
                in1: seq<byte>, out1: seq<byte>, q2: seq<byte>)
    requires q + in0 == out0 + q1 && q1 + in1 == out1 + q2
    ensures q + (in0 + in1) == (out0 + out1) + q2
  {
    calc {
      q + (in0 + in1);
      (q + in0) + in1;
      (out0 + q1) + in1;
      out0 + (q1 + in1);
      out0 + (out1 + q2);
      (out0 + out1) + q2;
    }
  }

  lemma QueueOfNone(s: Sys, p: PipeId)
    requires Inv(s) && p !in s.pipes
    ensures Queue(s, p) == []
  {
  }

  /** Over every run, whatever a pipe made during it has accepted is what it has delivered
      followed by what it still holds, and it holds at most 4096 bytes. */
  lemma PipeIsFifo(s: Sys, acts: seq<Act>, p: PipeId)
    requires Inv(s) && p >= s.nextId && p in Exec(s, acts).pipes
    ensures var o := Trace(s, acts);
            && Into(o, p) == OutOf(o, p) + Queue(Exec(s, acts), p)
            && |Queue(Exec(s, acts), p)| <= PIPE_BUF_SIZE
  {
    assert p !in s.pipes by { assert p in s.pipes ==> PipeOk(s, p); }
    RunConserves(s, acts, p);
    QueueOfNone(s, p);
  }
}
