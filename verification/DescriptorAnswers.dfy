/** What each descriptor call answers, and what it leaves, in terms of the tables, of who holds what and of the
    bytes in the pipes (kernel/vfs/vfs.c). */
module DescriptorAnswers {
  import opened Base
  import opened Pipes
  import opened Descriptors
  import opened DescriptorOps
  import opened DescriptorRuns
  import opened DescriptorTheorems
  import opened Sharing

  /** Some slot of some task points at description f. */
  ghost predicate Held(s: Sys, f: FileId) {
    Holders(s.tables, f) != {}
  }

  /** Slot fd of task t holds description f. */
  predicate At(s: Sys, t: Pid, fd: int, f: FileId) {
    OpenFd(s, t, fd) && s.tables[t][fd] == Some(f)
  }

  /** Slot i is free and every slot between from and i is taken. */
  predicate Lowest(tbl: Table, from: nat, i: nat) {
    from <= i < |tbl| && tbl[i] == None && forall k | from <= k < i :: tbl[k] != None
  }

  predicate NoneFree(tbl: Table, from: nat) {
    forall k | from <= k < |tbl| :: tbl[k] != None
  }

  // ---- pipes ----

  lemma PipeEnds(s: Sys, t: Pid, fd: int, p: PipeId, f: FileId)
    requires Inv(s) && p in s.pipes && At(s, t, fd, f) && (f == p + 1 || f == p + 2)
    ensures f in s.files && s.files[f].target == PipeEnd(p) && s.files[f].flags == (if f == p + 1 then 0 else 1)
    ensures RingOk(s.pipes[p]) && PipeAt(s, t, fd) == Some(p) && |Queue(s, p)| == s.pipes[p].count
    ensures s.pipes[p].refsR == |Holders(s.tables, p + 1)| && s.pipes[p].refsW == |Holders(s.tables, p + 2)|
  {
    hide FileOk, TablesOk;
    SlotAlive(s, t, fd);
    EndsOfPipe(s, p, f);
    PipeFlags(s, p, f);
  }

  /** A write of some bytes through a write end: -EPIPE exactly if nobody has a read end, a wait exactly if somebody
      has and the pipe is full, and otherwise as many of the bytes as there is room for are appended. */
  lemma WriteAnswer(s: Sys, t: Pid, fd: int, p: PipeId, data: seq<byte>)
    requires Inv(s) && p in s.pipes && At(s, t, fd, p + 2) && data != []
    ensures var (s', o) := Step(s, Act(t, OpWrite(fd, data)));
            var room := 4096 - |Queue(s, p)|;
            if !Held(s, p + 1) then s' == s && o == Ret(-32)
            else if room == 0 then s' == s && o == Wait
            else
              var sent := data[..Min(|data|, room)];
              sent != [] && o == Stored(p, sent) && Queue(s', p) == Queue(s, p) + sent && s'.tables == s.tables
  {
    hide Inv, Fill, RingOk, Contents;
    PipeEnds(s, t, fd, p, p + 2);
    FillAppendsPrefix(s.pipes[p], data);
    assert Step(s, Act(t, OpWrite(fd, data))) == Write(s, t, fd, data);
  }

  /** A read of some bytes through a read end: end-of-file exactly if the pipe is empty and nobody has a write end,
      a wait exactly if it is empty and somebody has, and otherwise its first bytes are taken. */
  lemma ReadAnswer(s: Sys, t: Pid, fd: int, p: PipeId, count: nat)
    requires Inv(s) && p in s.pipes && At(s, t, fd, p + 1) && count > 0
    ensures var (s', o) := Step(s, Act(t, OpRead(fd, count)));
            if Queue(s, p) == [] then s' == s && o == if Held(s, p + 2) then Wait else AtEof(p)
            else
              var n := Min(count, |Queue(s, p)|);
              n > 0 && o == Delivered(p, Queue(s, p)[..n]) && Queue(s', p) == Queue(s, p)[n..] && s'.tables == s.tables
  {
    hide Inv, Drain, RingOk, Contents;
    PipeEnds(s, t, fd, p, p + 1);
    DrainTakesPrefix(s.pipes[p], count);
    assert Step(s, Act(t, OpRead(fd, count))) == Read(s, t, fd, count);
  }

  /** A read end cannot be written to, nor a write end read from, and a closed slot neither. */
  lemma WrongEnd(s: Sys, t: Pid, fd: int, p: PipeId, count: nat, data: seq<byte>)
    requires Inv(s) && t in s.tables
    ensures !OpenFd(s, t, fd) || (p in s.pipes && At(s, t, fd, p + 2)) ==>
              Step(s, Act(t, OpRead(fd, count))) == (s, Ret(-9))
    ensures !OpenFd(s, t, fd) || (p in s.pipes && At(s, t, fd, p + 1)) ==>
              Step(s, Act(t, OpWrite(fd, data))) == (s, Ret(-9))
  {
    hide Inv, Fill, Drain, RingOk;
    if p in s.pipes && At(s, t, fd, p + 1) {
      PipeEnds(s, t, fd, p, p + 1);
    } else if p in s.pipes && At(s, t, fd, p + 2) {
      PipeEnds(s, t, fd, p, p + 2);
    }
    assert Step(s, Act(t, OpRead(fd, count))) == Read(s, t, fd, count);
    assert Step(s, Act(t, OpWrite(fd, data))) == Write(s, t, fd, data);
  }

  /** A file opened write-only cannot be read, one opened read-only cannot be written, and any other use of a file
      goes to its node. */
  lemma NodeAnswer(s: Sys, t: Pid, fd: int, n: nat, count: nat, data: seq<byte>)
    requires Inv(s) && OpenFd(s, t, fd)
    requires s.tables[t][fd].value in s.files && s.files[s.tables[t][fd].value].target == Node(n)
    ensures var mode := s.files[s.tables[t][fd].value].flags % 4;
            && Step(s, Act(t, OpRead(fd, count))) == (s, if mode == 1 then Ret(-9) else ToNode(n))
            && Step(s, Act(t, OpWrite(fd, data))) == (s, if mode == 0 then Ret(-9) else ToNode(n))
  {
    hide Inv, Fill, Drain, RingOk;
    assert Step(s, Act(t, OpRead(fd, count))) == Read(s, t, fd, count);
    assert Step(s, Act(t, OpWrite(fd, data))) == Write(s, t, fd, data);
  }

  // ---- tables ----

  lemma TableSize(s: Sys, t: Pid)
    requires Inv(s) && t in s.tables
    ensures |s.tables[t]| == 16
  {
  }

  /** Opening takes the lowest free slot from 3 on for a new description of the node, at its end if the flags ask for
      appending and at its start otherwise. */
  lemma OpenAnswer(s: Sys, t: Pid, found: NodeResult, flags: nat, malloc: bool)
    requires Inv(s) && t in s.tables
    ensures var (s', o) := Step(s, Act(t, OpOpen(found, flags, malloc)));
            var tbl := s.tables[t];
            if found.NoNode? then s' == s && o == Ret(0 - found.errno)
            else if !malloc then s' == s && o == Ret(-12)
            else
              && s.nextId !in s.files && s.nextId in s'.files
              && s'.files[s.nextId].target == Node(found.node) && s'.files[s.nextId].flags == flags
              && s'.files[s.nextId].pos == (if flags / 0x400 % 2 == 1 then found.size else 0)
              && (NoneFree(tbl, 3) ==> o == Ret(-12) && s'.tables == s.tables)
              && forall i: nat | Lowest(tbl, 3, i) ::
                   o == Ret(i) && s'.tables == s.tables[t := tbl[i := Some(s.nextId)]]
  {
    hide FileOk, PipeOk;
    TableSize(s, t);
    FreshUnheld(s, s.nextId);
    LowestIs(s.tables[t], 3);
    NoOldFile(s);
  }

  lemma NoOldFile(s: Sys)
    requires Inv(s)
    ensures s.nextId !in s.files
  {
    forall f | f in s.files ensures f < s.nextId {
      assert FileOk(s, f);
    }
  }

  lemma LowestIs(tbl: Table, from: nat)
    requires from <= |tbl|
    ensures FirstFree(tbl, from) == |tbl| <==> NoneFree(tbl, from)
    ensures forall i: nat | Lowest(tbl, from, i) :: FirstFree(tbl, from) == i
  {
  }

  lemma CloseAnswer(s: Sys, t: Pid, fd: int)
    requires Inv(s) && t in s.tables
    ensures var (s', o) := Step(s, Act(t, OpClose(fd)));
            if OpenFd(s, t, fd) then o == Ret(0) && s'.tables == s.tables[t := s.tables[t][fd := None]]
            else o == Ret(-9) && s' == s
  {
    hide FileOk, PipeOk, Inv;
    if OpenFd(s, t, fd) {
      SlotAlive(s, t, fd);
    }
  }

  /** A duplicate goes to the lowest free slot of all. */
  lemma DupAnswer(s: Sys, t: Pid, fd: int)
    requires Inv(s) && t in s.tables
    ensures var (s', o) := Step(s, Act(t, OpDup(fd)));
            var tbl := s.tables[t];
            if !OpenFd(s, t, fd) then o == Ret(-9) && s' == s
            else
              && (NoneFree(tbl, 0) ==> o == Ret(-12) && s' == s)
              && forall i: nat | Lowest(tbl, 0, i) :: o == Ret(i) && s'.tables == s.tables[t := tbl[i := tbl[fd]]]
  {
    hide FileOk, PipeOk, Inv;
    TableSize(s, t);
    LowestIs(s.tables[t], 0);
    if OpenFd(s, t, fd) {
      SlotAlive(s, t, fd);
    }
  }

  lemma Dup2Answer(s: Sys, t: Pid, from: int, to: int)
    requires Inv(s) && t in s.tables
    ensures |s.tables[t]| == 16
    ensures var (s', o) := Step(s, Act(t, OpDup2(from, to)));
            var tbl := s.tables[t];
            if !OpenFd(s, t, from) || to < 0 || to >= 16 then o == Ret(-9) && s' == s
            else o == Ret(to) && s'.tables == s.tables[t := tbl[to := tbl[from]]]
  {
    hide FileOk, PipeOk, Inv, Vacate;
    TableSize(s, t);
    var tbl := s.tables[t];
    if OpenFd(s, t, from) && 0 <= to < 16 {
      if from == to {
        assert tbl[to := tbl[from]] == tbl && s.tables[t := tbl] == s.tables;
      } else {
        VacateKeeps(s, t, from, to);
        assert tbl[to := None][to := tbl[from]] == tbl[to := tbl[from]];
      }
    }
  }

  /** A pipe takes the two lowest free slots from 3 on, the lower one for the end that is read from; it is empty, and
      nobody else has an end of it. */
  lemma PipeAnswer(s: Sys, t: Pid, malloc: bool, a: nat, b: nat)
    requires Inv(s) && t in s.tables && malloc && Lowest(s.tables[t], 3, a) && Lowest(s.tables[t], a + 1, b)
    ensures var (s', o) := Step(s, Act(t, OpPipe(malloc)));
            var p := s.nextId;
            && o == NewFds(a, b) && s'.tables == s.tables[t := s.tables[t][a := Some(p + 1)][b := Some(p + 2)]]
            && p !in s.pipes && p in s'.pipes && Queue(s', p) == []
            && Holders(s'.tables, p + 1) == {(t, a)} && Holders(s'.tables, p + 2) == {(t, b)}
  {
    hide FileOk, Inv;
    TableSize(s, t);
    LowestIs(s.tables[t], 3);
    LowestIs(s.tables[t], a + 1);
    FreshUnheld(s, s.nextId + 1);
    FreshUnheld(s, s.nextId + 2);
    NoOldPipe(s);
    var s' := Step(s, Act(t, OpPipe(malloc))).0;
    forall u: Pid, i: nat | u in s.tables && i < |s.tables[u]|
      ensures s.tables[u][i] != Some(s.nextId + 1) && s.tables[u][i] != Some(s.nextId + 2)
    {
      assert (u, i) !in Holders(s.tables, s.nextId + 1) && (u, i) !in Holders(s.tables, s.nextId + 2);
    }
  }

  lemma NoOldPipe(s: Sys)
    requires Inv(s)
    ensures s.nextId !in s.pipes
  {
    forall p | p in s.pipes ensures p < s.nextId {
      assert PipeOk(s, p);
    }
  }

  /** Without memory or without two free slots from 3 on there is no pipe, and nothing changes. */
  lemma NoPipe(s: Sys, t: Pid, malloc: bool)
    requires Inv(s) && t in s.tables
    requires !malloc || NoneFree(s.tables[t], 3) ||
             exists a: nat :: Lowest(s.tables[t], 3, a) && NoneFree(s.tables[t], a + 1)
    ensures Step(s, Act(t, OpPipe(malloc))) == (s, Ret(-12))
  {
    hide FileOk, PipeOk, Inv;
    TableSize(s, t);
    LowestIs(s.tables[t], 3);
    if a: nat :| Lowest(s.tables[t], 3, a) && NoneFree(s.tables[t], a + 1) {
      LowestIs(s.tables[t], a + 1);
    }
  }

  /** A child has the next number and its parent's open files, and nothing else changes in the tables. */
  lemma SpawnAnswer(s: Sys, t: Pid)
    requires Inv(s) && t in s.tables
    ensures var (s', o) := Step(s, Act(t, OpSpawn));
            o == Child(s.nextPid) && s.nextPid !in s.tables && s'.tables == s.tables[s.nextPid := s.tables[t]]
  {
    hide FileOk, PipeOk;
  }

  lemma ExitAnswer(s: Sys, t: Pid)
    requires Inv(s) && t in s.tables
    ensures var (s', o) := Step(s, Act(t, OpExit)); o == Ret(0) && s'.tables == s.tables - {t}
  {
    hide FileOk, PipeOk;
  }
}
