/** exec_pipeline of kernel/shell/commands.c: the shell rewires its own slots 0-2, starts a
    stage, and puts its slots back, while the stages already started run. */
module Pipeline {
  import opened Base
  import opened Pipes
  import opened Descriptors
  import opened DescriptorOps
  import opened DescriptorRuns
  import opened DescriptorTheorems
  import opened Sharing
  import opened VfsKernel
  import opened ShellOps

  /** rmode 2 is input, 1 append, anything else truncate. */
  datatype Redir = Redir(mode: nat, plan: OpenPlan)

  /** One stage: its redirections, its builtin if it is one, whether resolve_prog finds it,
      how elf_exec fares, and whether vfs_pipe gets its memory. */
  datatype Seg = Seg(redir: seq<Option<Redir>>, builtin: Option<Builtin>, resolved: bool,
                     exec: ExecPlan, malloc: bool)

  predicate SegOk(s: Seg) {
    |s.redir| == 3
  }

  function RedirFlags(mode: nat): nat {
    if mode == 2 then O_RDONLY
    else O_WRONLY + 0x40 + (if mode == 1 then 0x400 else 0x200)
  }

  /** t is b except on the standard slots and on the slots in extra, which b leaves free. */
  ghost predicate Patched(b: Table, t: Table, extra: set<nat>) {
    && |b| == |t| == MAX_FDS
    && (forall k | 3 <= k < MAX_FDS && k !in extra :: t[k] == b[k])
    && (forall k | k in extra :: 3 <= k < MAX_FDS && b[k] == None && t[k].Some?)
  }

  lemma PatchedFree(b: Table, t: Table, extra: set<nat>)
    requires Patched(b, t, extra)
    ensures |FreeSlots(t)| == |FreeSlots(b)| - |extra|
  {
    assert extra <= FreeSlots(b) && FreeSlots(t) == FreeSlots(b) - extra;
  }

  // ---- when a stage can start ----

  /** The number of redirections among the first n standard slots. */
  function Asked(seg: Seg, n: nat): nat
    requires SegOk(seg) && n <= 3
  {
    if n == 0 then 0 else Asked(seg, n - 1) + if seg.redir[n - 1].Some? then 1 else 0
  }

  predicate FilesOpen(seg: Seg, n: nat)
    requires SegOk(seg) && n <= 3
  {
    forall x | 0 <= x < n && seg.redir[x].Some? :: CanOpen(seg.redir[x].value.plan)
  }

  /** The files of the first n standard slots can be opened, each in a slot of its own. */
  predicate Fits(seg: Seg, n: nat, room: int)
    requires SegOk(seg) && n <= 3
  {
    FilesOpen(seg, n) && Asked(seg, n) <= room
  }

  lemma FitsNext(seg: Seg, n: nat, room: int)
    requires SegOk(seg) && n < 3 && Fits(seg, n, room)
    ensures Asked(seg, n + 1) == Asked(seg, n) + if seg.redir[n].Some? then 1 else 0
    ensures Fits(seg, n + 1, room) <==>
            (seg.redir[n].Some? ==> CanOpen(seg.redir[n].value.plan) && Asked(seg, n) < room)
    ensures !Fits(seg, n + 1, room) ==> !Fits(seg, 3, room)
  {
    assert Asked(seg, n + 1) <= Asked(seg, 3);
  }

  /** The slots that the shell fills to wire a stage: two for the pipe to the next one, and one for each file. */
  function SlotsFor(seg: Seg, last: bool): nat
    requires SegOk(seg)
  {
    (if last then 0 else 2) + Asked(seg, 3)
  }

  predicate Wirable(seg: Seg, last: bool, room: nat)
    requires SegOk(seg)
  {
    (last || seg.malloc) && FilesOpen(seg, 3) && SlotsFor(seg, last) <= room
  }

  lemma WirableIs(seg: Seg, last: bool, room: nat)
    requires SegOk(seg)
    ensures SlotsFor(seg, last) == (if last then 0 else 2) + Asked(seg, 3)
    ensures Wirable(seg, last, room) <==>
            (last || (seg.malloc && room >= 2)) && Fits(seg, 3, room - if last then 0 else 2)
  {
  }

  /** With so many free slots a stage starts if its files can be opened, there is memory for its pipe, and the slots
      are enough; a program also has to load, and needs one slot more for its image. */
  predicate Startable(seg: Seg, last: bool, room: nat)
    requires SegOk(seg)
  {
    && Wirable(seg, last, room)
    && (seg.builtin.None? ==> CanExec(seg.exec) && SlotsFor(seg, last) < room)
  }

  /** The first n stages can start, and the one after them cannot. */
  predicate StartsUpTo(segs: seq<Seg>, room: nat, n: nat)
    requires forall i | 0 <= i < |segs| :: SegOk(segs[i])
  {
    && n <= |segs| && (forall i | 0 <= i < n :: Startable(segs[i], i == |segs| - 1, room))
    && (n < |segs| ==> !Startable(segs[n], n == |segs| - 1, room))
  }

  /** The slots named by the nonnegative entries. */
  ghost function Named(fds: seq<int>): set<nat> {
    set i | 0 <= i < |fds| && fds[i] >= 0 :: fds[i] as nat
  }

  /** Three slots beyond the standard ones. */
  predicate SaveSlots(saves: seq<int>) {
    |saves| == 3 && forall j | 0 <= j < 3 :: 3 <= saves[j] < MAX_FDS
  }

  predicate SavesOk(b: Table, saves: seq<int>) {
    && |b| == MAX_FDS && SaveSlots(saves)
    && forall j | 0 <= j < 3 :: b[j].Some? && b[saves[j]] == b[j]
  }

  // ---- wiring one stage ----

  /** stdin becomes the read end of the previous pipe, unless that descriptor has been closed. */
  method WireStdin(k: Vfs, prevR: int, ghost b: Table, ghost f: FileId)
    requires Ready(k) && 3 <= prevR < MAX_FDS && |b| == MAX_FDS
    requires b[prevR] == None && (Tbl(k) == b[prevR := Some(f)] || Tbl(k) == b)
    modifies k
    ensures Ready(k) && k.current == old(k.current) && Patched(b, Tbl(k), {})
    ensures Tbl(k)[0] == (if old(Tbl(k))[prevR].Some? then Some(f) else b[0]) && Tbl(k)[1] == b[1] && Tbl(k)[2] == b[2]
    ensures Sealed(old(k.Value()), k.Value()) && k.nextPid == old(k.nextPid)
    ensures Foreign(old(k.journal), k.journal, k.current)
  {
    hide Coherent, LastFd, Inv, Sealed;
    ghost var s := k.Value();
    var code := ShDup2(k, prevR, 0);
    ghost var s1 := k.Value();
    ShClose(k, prevR);
    SealedTrans(s, s1, k.Value());
  }

  /** stdout becomes the write end of a new pipe p. */
  method WireStdout(k: Vfs, malloc: bool, ghost b: Table)
    returns (ok: bool, r: int, w: int, ghost p: PipeId)
    requires Ready(k) && Patched(b, Tbl(k), {})
    modifies k
    ensures Ready(k) && k.current == old(k.current)
    ensures Sealed(old(k.Value()), k.Value()) && k.nextPid == old(k.nextPid)
    ensures Foreign(old(k.journal), k.journal, k.current)
    ensures Tbl(k)[0] == old(Tbl(k))[0] && Tbl(k)[2] == old(Tbl(k))[2]
    ensures Tbl(k)[1] == if ok then Some(p + 2) else old(Tbl(k))[1]
    ensures ok <==> malloc && |FreeSlots(b)| >= 2
    ensures !ok ==> r == w == -1 && Patched(b, Tbl(k), {})
    ensures ok ==>
      && 0 <= r && 0 <= w && r != w && Patched(b, Tbl(k), {r, w}) && Tbl(k)[r] == Some(p + 1)
      && old(k.nextId) <= p && p + 2 < k.nextId && HeldOnlyBy(k.Value(), p + 2, {k.current})
  {
    hide Coherent, LastFd, Inv, Sealed, HeldOnlyBy, FreeSlots;
    ghost var s := k.Value();
    PatchedFree(b, Tbl(k), {});
    ok, r, w, p := ShPipe(k, malloc);
    if !ok {
      return false, -1, -1, p;
    }
    ghost var s1 := k.Value();
    var code := ShDup2(k, w, 1);
    SealedTrans(s, s1, k.Value());
    SealedIds(s1, k.Value());
    HeldSealed(s1, k.Value(), p + 2, {k.current});
  }

  lemma HeldSealed(s: Sys, s': Sys, f: FileId, who: set<Pid>)
    requires Sealed(s, s') && f < s.nextId && HeldOnlyBy(s, f, who)
    ensures HeldOnlyBy(s', f, who)
  {
  }

  /** One file redirection; fd is negative when the file cannot be opened. */
  method WireFile(k: Vfs, redir: Redir, tgt: nat, ghost b: Table, ghost extra: set<nat>)
    returns (fd: int)
    requires Ready(k) && tgt < 3 && Patched(b, Tbl(k), extra)
    modifies k
    ensures Ready(k) && k.current == old(k.current)
    ensures Sealed(old(k.Value()), k.Value()) && k.nextPid == old(k.nextPid)
    ensures Foreign(old(k.journal), k.journal, k.current)
    ensures fd >= 0 <==> CanOpen(redir.plan) && |extra| < |FreeSlots(b)|
    ensures fd < 0 ==> Patched(b, Tbl(k), extra)
    ensures fd >= 0 ==> 3 <= fd < MAX_FDS && fd !in extra && Patched(b, Tbl(k), extra + {fd})
    ensures fd >= 0 ==> OpenedAs(k.Value(), Tbl(k)[tgt], redir.plan, RedirFlags(redir.mode))
    ensures forall x | 0 <= x < MAX_FDS && x != fd && x != tgt :: Tbl(k)[x] == old(Tbl(k))[x]
  {
    hide Coherent, LastFd, Inv, Sealed, OpenedAs, FreeSlots, CanOpen;
    ghost var s := k.Value();
    PatchedFree(b, Tbl(k), extra);
    fd := ShOpen(k, redir.plan, RedirFlags(redir.mode));
    if fd >= 0 {
      ghost var s1, v := k.Value(), Tbl(k)[fd];
      var code := ShDup2(k, fd, tgt);
      SealedTrans(s, s1, k.Value());
      SealedIds(s1, k.Value());
      OpenStays(s1, k.Value(), k.current, fd, v, redir.plan, RedirFlags(redir.mode));
    }
  }

  /** What a slot was opened as stays so while the slot holds it. */
  lemma OpenStays(s: Sys, s': Sys, t: Pid, fd: nat, v: Slot, plan: OpenPlan, flags: nat)
    requires Inv(s) && Inv(s') && SameFiles(s, s') && OpenedAs(s, v, plan, flags)
    requires t in s'.tables && fd < |s'.tables[t]| && s'.tables[t][fd] == v
    ensures OpenedAs(s', v, plan, flags)
  {
    SlotAlive(s', t, fd);
    assert FileOk(s, v.value);
  }

  lemma NamedSet(fds: seq<int>, i: nat, fd: int)
    requires i < |fds| && fds[i] == -1
    ensures Named(fds[i := fd]) == Named(fds) + if fd >= 0 then {fd as nat} else {}
  {
    var fds' := fds[i := fd];
    forall x: nat ensures x in Named(fds') <==> x in Named(fds) || x == fd {
      if x == fd {
        assert fds'[i] == x;
      }
      if j :| 0 <= j < |fds| && fds[j] == x {
        assert fds'[j] == x;
      }
    }
  }

  /** The first n standard slots of t are redirected as the stage asks, or are those of u. */
  ghost predicate Redirected(s: Sys, u: Table, t: Table, seg: Seg, n: nat) {
    && |u| == |t| == MAX_FDS && SegOk(seg) && n <= 3
    && forall x | 0 <= x < 3 ::
         if x < n && seg.redir[x].Some?
         then OpenedAs(s, t[x], seg.redir[x].value.plan, RedirFlags(seg.redir[x].value.mode))
         else t[x] == u[x]
  }

  lemma RedirectedStays(s: Sys, s': Sys, p: Pid, u: Table, t: Table, seg: Seg, n: nat)
    requires Inv(s) && Inv(s') && SameFiles(s, s') && SegOk(seg) && n < 3 && seg.redir[n].Some?
    requires Redirected(s, u, t, seg, n) && p in s'.tables && |s'.tables[p]| == MAX_FDS
    requires forall x | 0 <= x < 3 && x != n :: s'.tables[p][x] == t[x]
    requires OpenedAs(s', s'.tables[p][n], seg.redir[n].value.plan, RedirFlags(seg.redir[n].value.mode))
    ensures Redirected(s', u, s'.tables[p], seg, n + 1)
  {
    hide Inv, OpenedAs, SameFiles;
    forall x | 0 <= x < n && seg.redir[x].Some?
      ensures OpenedAs(s', t[x], seg.redir[x].value.plan, RedirFlags(seg.redir[x].value.mode))
    {
      OpenStays(s, s', p, x, t[x], seg.redir[x].value.plan, RedirFlags(seg.redir[x].value.mode));
    }
  }

  /** Before the redirection loop comes to slot n: u is the table that it found, of which it leaves the slots in extra
      alone, and filefds are its own descriptors. */
  ghost predicate Wiring(s: Sys, u: Table, t: Table, b: Table, extra: set<nat>, seg: Seg, n: nat, filefds: seq<int>) {
    && Redirected(s, u, t, seg, n) && Held(u, t, b, extra, filefds)
    && Fits(seg, n, |FreeSlots(b)| - |extra|) && |Named(filefds)| == Asked(seg, n)
    && forall i | n <= i < 3 :: filefds[i] == -1
  }

  ghost predicate Held(u: Table, t: Table, b: Table, extra: set<nat>, filefds: seq<int>) {
    && |u| == MAX_FDS && |filefds| == 3 && Named(filefds) !! extra && Patched(b, t, extra + Named(filefds))
    && forall x | x in extra :: x < MAX_FDS && t[x] == u[x]
  }

  lemma WiringStart(s: Sys, t: Table, b: Table, extra: set<nat>, seg: Seg)
    requires SegOk(seg) && Patched(b, t, extra)
    ensures Wiring(s, t, t, b, extra, seg, 0, [-1, -1, -1])
  {
    hide FreeSlots, CanOpen, OpenedAs;
    NoneNamed();
    assert extra + {} == extra;
    PatchedFree(b, t, extra);
  }

  lemma WiringSkip(s: Sys, u: Table, t: Table, b: Table, extra: set<nat>, seg: Seg, n: nat, filefds: seq<int>)
    requires n < 3 && Wiring(s, u, t, b, extra, seg, n, filefds) && seg.redir[n].None?
    ensures Wiring(s, u, t, b, extra, seg, n + 1, filefds)
  {
    hide FreeSlots, CanOpen, OpenedAs, Held, Fits, Asked;
    FitsNext(seg, n, |FreeSlots(b)| - |extra|);
  }

  lemma HeldNext(u: Table, t: Table, t': Table, b: Table, extra: set<nat>, filefds: seq<int>, n: nat, fd: int)
    requires Held(u, t, b, extra, filefds) && n < 3 && filefds[n] == -1
    requires |t'| == MAX_FDS && forall x | 0 <= x < MAX_FDS && x != fd && x != n :: t'[x] == t[x]
    requires fd < 0 ==> Patched(b, t', extra + Named(filefds))
    requires fd >= 0 ==> fd !in extra + Named(filefds) && Patched(b, t', extra + Named(filefds) + {fd})
    ensures Held(u, t', b, extra, filefds[n := fd])
    ensures |Named(filefds[n := fd])| == |Named(filefds)| + if fd >= 0 then 1 else 0
  {
    var named := Named(filefds);
    NamedSet(filefds, n, fd);
    forall x | x in extra ensures x < MAX_FDS && t'[x] == u[x] {
      assert x in extra + named && 3 <= x;
    }
    hide Named;
    if fd >= 0 {
      assert extra + named + {fd} == extra + (named + {fd});
    }
  }

  lemma WiringNext(s: Sys, s': Sys, p: Pid, u: Table, t: Table, b: Table, extra: set<nat>, seg: Seg, n: nat,
                   filefds: seq<int>, fd: int)
    requires n < 3 && Wiring(s, u, t, b, extra, seg, n, filefds) && seg.redir[n].Some?
    requires Inv(s) && Inv(s') && SameFiles(s, s') && p in s'.tables && |s'.tables[p]| == MAX_FDS
    requires forall x | 0 <= x < MAX_FDS && x != fd && x != n :: s'.tables[p][x] == t[x]
    requires fd < 0 ==> Patched(b, s'.tables[p], extra + Named(filefds))
    requires fd >= 0 ==>
      && 3 <= fd && fd !in extra + Named(filefds) && Patched(b, s'.tables[p], extra + Named(filefds) + {fd})
      && OpenedAs(s', s'.tables[p][n], seg.redir[n].value.plan, RedirFlags(seg.redir[n].value.mode))
    requires fd >= 0 <==> CanOpen(seg.redir[n].value.plan) && |extra + Named(filefds)| < |FreeSlots(b)|
    ensures Held(u, s'.tables[p], b, extra, filefds[n := fd])
    ensures if fd >= 0 then Wiring(s', u, s'.tables[p], b, extra, seg, n + 1, filefds[n := fd])
            else !Fits(seg, 3, |FreeSlots(b)| - |extra|)
  {
    FitsNext(seg, n, |FreeSlots(b)| - |extra|);
    HeldNext(u, t, s'.tables[p], b, extra, filefds, n, fd);
    assert |extra + Named(filefds)| == |extra| + |Named(filefds)|;
    hide Inv, SameFiles, OpenedAs, Patched, Named, FreeSlots, CanOpen, Held, Fits, Asked, RedirFlags;
    if fd >= 0 {
      RedirectedStays(s, s', p, u, t, seg, n);
    }
  }

  /** The redirection loop. */
  method WireFiles(k: Vfs, seg: Seg, ghost b: Table, ghost extra: set<nat>)
    returns (failed: bool, filefds: seq<int>)
    requires Ready(k) && SegOk(seg) && Patched(b, Tbl(k), extra)
    modifies k
    ensures Ready(k) && k.current == old(k.current)
    ensures Sealed(old(k.Value()), k.Value()) && k.nextPid == old(k.nextPid)
    ensures Foreign(old(k.journal), k.journal, k.current)
    ensures !failed <==> Fits(seg, 3, |FreeSlots(b)| - |extra|)
    ensures !failed ==> |Named(filefds)| == Asked(seg, 3)
    ensures Held(old(Tbl(k)), Tbl(k), b, extra, filefds)
    ensures !failed ==> Redirected(k.Value(), old(Tbl(k)), Tbl(k), seg, 3)
  {
    hide Coherent, LastFd, Inv, Sealed, OpenedAs, FreeSlots, CanOpen, Fits, Asked, Redirected, Patched, Named,
         RedirFlags;
    failed, filefds := false, [-1, -1, -1];
    SealedRefl(k.Value());
    WiringStart(k.Value(), Tbl(k), b, extra, seg);
    var tgt := 0;
    while tgt < 3 && !failed
      invariant 0 <= tgt <= 3
      invariant Ready(k) && k.current == old(k.current)
      invariant Sealed(old(k.Value()), k.Value()) && k.nextPid == old(k.nextPid)
      invariant Foreign(old(k.journal), k.journal, k.current)
      invariant Held(old(Tbl(k)), Tbl(k), b, extra, filefds)
      invariant if failed then !Fits(seg, 3, |FreeSlots(b)| - |extra|)
                else Wiring(k.Value(), old(Tbl(k)), Tbl(k), b, extra, seg, tgt, filefds)
    {
      if seg.redir[tgt].Some? {
        ghost var s, t := k.Value(), Tbl(k);
        var fd := WireFile(k, seg.redir[tgt].value, tgt, b, extra + Named(filefds));
        SealedTrans(old(k.Value()), s, k.Value());
        SealedIds(s, k.Value());
        WiringNext(s, k.Value(), k.current, old(Tbl(k)), t, b, extra, seg, tgt, filefds, fd);
        filefds := filefds[tgt := fd];
        failed := fd < 0;
      } else {
        WiringSkip(k.Value(), old(Tbl(k)), Tbl(k), b, extra, seg, tgt, filefds);
      }
      tgt := tgt + 1;
    }
  }

  /** vfs_dup2(saves[j], j) for the three standard slots. */
  method RestoreStd(k: Vfs, saves: seq<int>)
    requires Ready(k) && SaveSlots(saves)
    modifies k
    ensures Ready(k) && k.current == old(k.current)
    ensures Sealed(old(k.Value()), k.Value()) && k.nextPid == old(k.nextPid)
    ensures Foreign(old(k.journal), k.journal, k.current)
    ensures UnwiredTo(old(Tbl(k)), Tbl(k), saves, {})
  {
    hide Coherent, LastFd, Inv, Sealed;
    SealedRefl(k.Value());
    for j := 0 to 3
      invariant Ready(k) && k.current == old(k.current)
      invariant Sealed(old(k.Value()), k.Value()) && k.nextPid == old(k.nextPid)
      invariant Foreign(old(k.journal), k.journal, k.current)
      invariant forall x | j <= x < MAX_FDS :: Tbl(k)[x] == old(Tbl(k))[x]
      invariant forall x | 0 <= x < j :: Tbl(k)[x] == PutBack(old(Tbl(k)), saves, x)
    {
      ghost var s := k.Value();
      var code := ShDup2(k, saves[j], j);
      SealedTrans(old(k.Value()), s, k.Value());
    }
  }

  /** What a standard slot is put back to: its saved copy, if that is still open. */
  ghost function PutBack(t: Table, saves: seq<int>, x: nat): Slot
    requires |t| == MAX_FDS && SaveSlots(saves) && x < 3
  {
    if t[saves[x]].Some? then t[saves[x]] else t[x]
  }

  /** The standard slots are put back and the slots in drop are closed. */
  ghost predicate UnwiredTo(t: Table, t': Table, saves: seq<int>, drop: set<nat>) {
    && |t| == |t'| == MAX_FDS && SaveSlots(saves)
    && forall x | 0 <= x < MAX_FDS :: t'[x] == if x < 3 then PutBack(t, saves, x) else if x in drop then None else t[x]
  }

  /** Close every nonnegative descriptor of a list. */
  method CloseNamed(k: Vfs, fds: seq<int>)
    requires Ready(k) && forall i | 0 <= i < |fds| :: fds[i] < MAX_FDS
    modifies k
    ensures Ready(k) && k.current == old(k.current)
    ensures Sealed(old(k.Value()), k.Value()) && k.nextPid == old(k.nextPid)
    ensures Foreign(old(k.journal), k.journal, k.current)
    ensures forall x | 0 <= x < MAX_FDS ::
      Tbl(k)[x] == if x in Named(fds) then None else old(Tbl(k))[x]
  {
    hide Coherent, LastFd, Inv, Sealed;
    SealedRefl(k.Value());
    assert fds[..|fds|] == fds;
    for i := 0 to |fds|
      invariant Ready(k) && k.current == old(k.current)
      invariant Sealed(old(k.Value()), k.Value()) && k.nextPid == old(k.nextPid)
      invariant Foreign(old(k.journal), k.journal, k.current)
      invariant forall x | 0 <= x < MAX_FDS ::
        Tbl(k)[x] == if x in Named(fds[..i]) then None else old(Tbl(k))[x]
    {
      NamedSnoc(fds, i);
      if fds[i] >= 0 {
        ghost var s := k.Value();
        ShClose(k, fds[i]);
        SealedTrans(old(k.Value()), s, k.Value());
      }
    }
  }

  lemma NamedSnoc(fds: seq<int>, i: nat)
    requires i < |fds|
    ensures Named(fds[..i + 1]) == Named(fds[..i]) + if fds[i] >= 0 then {fds[i] as nat} else {}
  {
    forall x: nat ensures x in Named(fds[..i + 1]) <==> x in Named(fds[..i]) || x == fds[i] {
      if x == fds[i] {
        assert fds[..i + 1][i] == x;
      }
      if j :| 0 <= j < i && fds[..i][j] == x {
        assert fds[..i + 1][j] == x;
      }
    }
  }

  /** Put the standard slots back and drop the temporary descriptors. */
  method Unwire(k: Vfs, saves: seq<int>, fds: seq<int>)
    requires Ready(k) && SaveSlots(saves)
    requires forall i | 0 <= i < |fds| :: fds[i] < 0 || 3 <= fds[i] < MAX_FDS
    modifies k
    ensures Ready(k) && k.current == old(k.current)
    ensures Sealed(old(k.Value()), k.Value()) && k.nextPid == old(k.nextPid)
    ensures Foreign(old(k.journal), k.journal, k.current)
    ensures UnwiredTo(old(Tbl(k)), Tbl(k), saves, Named(fds))
  {
    hide Coherent, LastFd, Inv, Sealed;
    ghost var s := k.Value();
    RestoreStd(k, saves);
    ghost var s1 := k.Value();
    CloseNamed(k, fds);
    SealedTrans(s, s1, k.Value());
  }

  // ---- one stage ----

  /** prevR names the slot of the read end of the previous pipe, which table b has free; the end itself is
      there, or has been closed. */
  ghost predicate Between(b: Table, t: Table, prevR: int, f: FileId) {
    && |b| == MAX_FDS
    && if prevR < 0 then t == b
       else 3 <= prevR < MAX_FDS && b[prevR] == None && (t == b[prevR := Some(f)] || t == b)
  }

  /** What the next stage reads from. */
  ghost function Fed(t: Table, prevR: int): Slot {
    if 0 <= prevR < |t| then t[prevR] else None
  }

  ghost function Kept(nextR: int): set<nat> {
    if nextR >= 0 then {nextR as nat} else {}
  }

  ghost function Ends(nextR: int, w: int): set<nat> {
    Kept(nextR) + Kept(w)
  }

  /** t is b apart from the standard slots, the read end that is kept for the next stage, and the descriptors fds. */
  ghost predicate Laid(b: Table, t: Table, nextR: int, fds: seq<int>) {
    && Named(fds) !! Kept(nextR) && Patched(b, t, Kept(nextR) + Named(fds))
    && forall i | 0 <= i < |fds| :: fds[i] < 0 || 3 <= fds[i] < MAX_FDS
  }

  /** The standard slots a stage gets when it has no redirections: the previous pipe's read
      end, the next pipe's write end, and otherwise the shell's own. */
  ghost function Plumbing(b: Table, prev: Slot, next: Slot): (d: Table)
    requires |b| == MAX_FDS
    ensures |d| == MAX_FDS
  {
    b[0 := if prev.Some? then prev else b[0]][1 := if next.Some? then next else b[1]]
  }

  ghost function EndAt(r: int, f: FileId): Slot {
    if r >= 0 then Some(f) else None
  }

  /** Standard input and output before the redirections. */
  method WireEnds(k: Vfs, malloc: bool, prevR: int, last: bool, ghost b: Table, ghost f: FileId)
    returns (ok: bool, nextR: int, w: int, ghost p: PipeId)
    requires Ready(k) && Between(b, Tbl(k), prevR, f)
    modifies k
    ensures Ready(k) && k.current == old(k.current)
    ensures Sealed(old(k.Value()), k.Value()) && k.nextPid == old(k.nextPid)
    ensures Foreign(old(k.journal), k.journal, k.current)
    ensures ok <==> last || (malloc && |FreeSlots(b)| >= 2)
    ensures (nextR >= 0 <==> ok && !last) && (w >= 0 <==> nextR >= 0) && (nextR >= 0 ==> nextR != w)
    ensures Patched(b, Tbl(k), Ends(nextR, w)) && |b| == MAX_FDS
    ensures |Ends(nextR, w)| == if nextR >= 0 then 2 else 0
    ensures Tbl(k)[..3] == Plumbing(b, Fed(old(Tbl(k)), prevR), EndAt(nextR, p + 2))[..3]
    ensures nextR >= 0 ==>
      && Tbl(k)[nextR] == Some(p + 1) && old(k.nextId) <= p && p + 2 < k.nextId
      && HeldOnlyBy(k.Value(), p + 2, {k.current})
  {
    hide Coherent, LastFd, Inv, Sealed, HeldOnlyBy, Patched, FreeSlots;
    ghost var s := k.Value();
    SealedRefl(s);
    ok, nextR, w, p := true, -1, -1, 0;
    if prevR >= 0 {
      WireStdin(k, prevR, b, f);
    } else {
      PatchedSelf(b);
    }
    assert Ends(-1, -1) == {};
    if !last {
      ghost var s1 := k.Value();
      SealedIds(s, s1);
      ok, nextR, w, p := WireStdout(k, malloc, b);
      SealedTrans(s, s1, k.Value());
      if ok {
        assert Ends(nextR, w) == {nextR, w};
      }
    }
  }

  /** All the rewiring before a stage starts. `fds` are the descriptors to drop afterwards. */
  method WireStage(k: Vfs, seg: Seg, prevR: int, last: bool, ghost b: Table, ghost f: FileId)
    returns (failed: bool, nextR: int, fds: seq<int>, ghost p: PipeId)
    requires Ready(k) && SegOk(seg) && Between(b, Tbl(k), prevR, f)
    modifies k
    ensures Ready(k) && k.current == old(k.current)
    ensures Sealed(old(k.Value()), k.Value()) && k.nextPid == old(k.nextPid)
    ensures Foreign(old(k.journal), k.journal, k.current)
    ensures !failed <==> Wirable(seg, last, |FreeSlots(b)|)
    ensures !failed ==> |FreeSlots(Tbl(k))| == |FreeSlots(b)| - SlotsFor(seg, last)
    ensures Laid(b, Tbl(k), nextR, fds)
    ensures last ==> nextR < 0
    ensures !last && !failed ==> nextR >= 0
    ensures nextR >= 0 ==>
      && Tbl(k)[nextR] == Some(p + 1) && old(k.nextId) <= p && p + 2 < k.nextId
      && HeldOnlyBy(k.Value(), p + 2, {k.current})
    ensures !failed ==>
      Redirected(k.Value(), Plumbing(b, Fed(old(Tbl(k)), prevR), EndAt(nextR, p + 2)), Tbl(k), seg, 3)
  {
    hide Coherent, LastFd, Inv, Sealed, HeldOnlyBy, Patched, Named, OpenedAs, FreeSlots, FilesOpen, Asked, Held,
         Redirected, Wiring, Ends, Laid, Plumbing, Fed, EndAt, Between, Fits, Wirable, SlotsFor, Foreign;
    ghost var s, prev, j := k.Value(), Fed(Tbl(k), prevR), k.journal;
    WirableIs(seg, last, |FreeSlots(b)|);
    var ok, w;
    ok, nextR, w, p := WireEnds(k, seg.malloc, prevR, last, b, f);
    failed := !ok;
    ghost var extra := Ends(nextR, w);
    var filefds := [-1, -1, -1];
    ghost var s1, t, j1 := k.Value(), Tbl(k), k.journal;
    WiringStart(s1, t, b, extra, seg);
    HeldFrom(s1, t, b, extra, seg, filefds);
    if ok {
      failed, filefds := WireFiles(k, seg, b, extra);
      if !failed {
        SameStd(k.Value(), t, Plumbing(b, prev, EndAt(nextR, p + 2)), Tbl(k), seg);
      }
      ForeignTrans(j, j1, k.journal, k.current);
      SealedTrans(s, s1, k.Value());
      SealedIds(s1, k.Value());
      if nextR >= 0 {
        HeldSealed(s1, k.Value(), p + 2, {k.current});
      }
    }
    fds := filefds + [w];
    StageFds(t, Tbl(k), b, nextR, w, filefds);
  }

  lemma HeldFrom(s: Sys, t: Table, b: Table, extra: set<nat>, seg: Seg, filefds: seq<int>)
    requires Wiring(s, t, t, b, extra, seg, 0, filefds)
    ensures Held(t, t, b, extra, filefds)
  {
  }

  /** The descriptors of a stage: the read end for the next one is kept, and the others are to be dropped. */
  lemma StageFds(u: Table, t: Table, b: Table, nextR: int, w: int, filefds: seq<int>)
    requires Held(u, t, b, Ends(nextR, w), filefds) && (nextR >= 0 <==> w >= 0) && (nextR >= 0 ==> nextR != w)
    ensures var fds := filefds + [w];
            && Laid(b, t, nextR, fds)
            && |FreeSlots(t)| == |FreeSlots(b)| - (if nextR >= 0 then 2 else 0) - |Named(filefds)|
            && (nextR >= 0 ==> t[nextR] == u[nextR])
  {
    hide Patched, Named, FreeSlots, Ends;
    StageNames(nextR, w, filefds);
    PatchedBounds(b, t, Kept(nextR), filefds + [w]);
    PatchedFree(b, t, Kept(nextR) + Named(filefds + [w]));
    assert nextR >= 0 ==> nextR in Kept(nextR);
  }

  lemma StageNames(nextR: int, w: int, filefds: seq<int>)
    requires |filefds| == 3 && (nextR >= 0 <==> w >= 0) && (nextR >= 0 ==> nextR != w)
    requires Named(filefds) !! Ends(nextR, w)
    ensures var fds := filefds + [w];
            && Ends(nextR, w) + Named(filefds) == Kept(nextR) + Named(fds) && Named(fds) !! Kept(nextR)
            && |Kept(nextR) + Named(fds)| == (if nextR >= 0 then 2 else 0) + |Named(filefds)|
            && Kept(nextR) <= Ends(nextR, w)
  {
    hide Named;
    var fds := filefds + [w];
    NamedSnoc(fds, 3);
    assert fds[..3] == filefds && fds[..4] == fds;
    assert Ends(nextR, w) == if nextR >= 0 then {nextR as nat, w as nat} else {};
    assert Ends(nextR, w) + Named(filefds) == Kept(nextR) + Named(fds);
  }

  lemma SameStd(s: Sys, u: Table, u': Table, t: Table, seg: Seg)
    requires Redirected(s, u, t, seg, 3) && |u'| == MAX_FDS && u[..3] == u'[..3]
    ensures Redirected(s, u', t, seg, 3)
  {
    assert forall x | 0 <= x < 3 :: u[x] == u[..3][x] == u'[..3][x] == u'[x];
  }

  lemma PatchedSelf(b: Table)
    requires |b| == MAX_FDS
    ensures Patched(b, b, {})
  {
  }

  lemma NoneNamed()
    ensures Named([-1, -1, -1]) == {}
  {
  }

  lemma PatchedBounds(b: Table, t: Table, keep: set<nat>, fds: seq<int>)
    requires Patched(b, t, keep + Named(fds))
    ensures forall i | 0 <= i < |fds| :: fds[i] < 0 || 3 <= fds[i] < MAX_FDS
  {
    forall i | 0 <= i < |fds| && fds[i] >= 0 ensures 3 <= fds[i] < MAX_FDS {
      assert fds[i] as nat in Named(fds);
    }
  }

  predicate Tame(seg: Seg) {
    seg.builtin.Some? ==> seg.builtin.value.Errands?
  }

  /** The state in which a stage starts and the task that runs it: the child, or the shell
      itself for a builtin. */
  datatype Start = Start(at: Sys, who: Pid)

  ghost predicate StartsFrom(s: Sys, st: Start, shell: Pid, pid: int) {
    if pid < 0 then st == Start(s, shell)
    else st.who == pid && shell in s.tables && Inherited(s, st.at, pid, s.tables[shell])
  }

  /** Run a builtin inline or spawn an external program; pid is negative when nothing was
      spawned for the pipeline. The table stays unless elf_exec closes another slot than its image's. */
  method Launch(k: Vfs, seg: Seg)
    returns (failed: bool, pid: int, ghost st: Start, ghost image: int, ghost closed: int)
    requires Ready(k)
    modifies k
    ensures Ready(k) && k.current == old(k.current) && old(k.journal) <= k.journal
    ensures Tbl(k) == old(Tbl(k)) <==> Undisturbed(old(k.journal), k.journal, k.current)
    ensures Tbl(k) != old(Tbl(k)) ==> Leaked(old(Tbl(k)), Tbl(k), image, closed, old(k.nextId))
    ensures Carried(old(k.Value()), k.Value(), k.current)
    ensures seg.builtin.Some? ==> pid < 0 && !failed
    ensures seg.builtin.None? ==>
      (failed <==> pid < 0) && (!failed <==> CanExec(seg.exec) && |FreeSlots(old(Tbl(k)))| >= 1)
    ensures !failed ==> StartsFrom(old(k.Value()), st, k.current, pid)
    ensures pid < 0 && Tame(seg) ==> Sealed(old(k.Value()), k.Value())
    ensures pid >= 0 ==>
      pid >= old(k.nextPid) && pid != k.current && Passed(old(k.Value()), k.Value(), pid, old(Tbl(k)))
  {
    hide Coherent, LastFd, Inv, Sealed, Passed, Carried, Inherited, Leaked, Undisturbed, Foreign, FreeSlots, CanExec;
    ghost var s := k.Value();
    st, image, closed := Start(s, k.current), -1, -1;
    if seg.builtin.Some? && seg.builtin.value.Errands? {
      ghost var j := k.journal;
      RunErrand(k, seg.builtin.value.work);
      SealedCarries(s, k.Value(), k.current);
      ForeignIsUndisturbed(j, k.journal, k.current);
      ForeignExtends(j, k.journal, k.current);
      return false, -1, st, image, closed;
    }
    var plan := if seg.builtin.Some? then seg.builtin.value.exec else seg.exec;
    ghost var at;
    pid, image, closed, at := ElfExec(k, plan);
    failed := pid < 0;
    if failed {
      SealedCarries(s, k.Value(), k.current);
    } else {
      PassedCarries(s, k.Value(), pid, k.current);
    }
    if seg.builtin.Some? {
      failed, pid := false, -1;
    } else if !failed {
      st := Start(at, pid);
    }
  }

  /** The stage runs with the standard slots d, redirected as it asks. */
  ghost predicate StdWired(st: Start, seg: Seg, d: Table) {
    && Inv(st.at) && st.who in st.at.tables
    && Redirected(st.at, d, st.at.tables[st.who], seg, 3)
  }

  lemma StartIsWired(s: Sys, st: Start, shell: Pid, pid: int, seg: Seg, d: Table)
    requires Inv(s) && shell in s.tables && Redirected(s, d, s.tables[shell], seg, 3)
    requires StartsFrom(s, st, shell, pid) && StdOpen(d)
    ensures StdWired(st, seg, d)
  {
    if pid >= 0 {
      var t, t' := s.tables[shell], st.at.tables[pid];
      forall x | 0 <= x < 3
        ensures t'[x] == t[x]
        ensures seg.redir[x].Some? ==>
          OpenedAs(st.at, t[x], seg.redir[x].value.plan, RedirFlags(seg.redir[x].value.mode))
      {
        assert t[x].Some?;
        if seg.redir[x].Some? {
          OpenStays(s, st.at, pid, x, t[x], seg.redir[x].value.plan, RedirFlags(seg.redir[x].value.mode));
        }
      }
    }
  }

  ghost function StagePid(pid: int): set<Pid> {
    if pid >= 0 then {pid as Pid} else {}
  }

  /** Every description in the table existed when the counter stood at n. */
  ghost predicate OlderThan(t: Table, n: nat) {
    forall x | 0 <= x < |t| && t[x].Some? :: t[x].value < n
  }

  lemma TableIsOlder(k: Vfs)
    requires Ready(k)
    ensures OlderThan(Tbl(k), k.nextId)
  {
    forall x | 0 <= x < |Tbl(k)| && Tbl(k)[x].Some? ensures Tbl(k)[x].value < k.nextId {
      assert FileOk(k.Value(), Tbl(k)[x].value);
    }
  }

  /** After the shell's own slots are back, only the stage itself has the write end. */
  lemma OnlyStageWrites(s: Sys, t: Pid, b: Table, nextR: int, p: PipeId, pid: int)
    requires t in s.tables && Between(b, s.tables[t], nextR, p + 1)
    requires OlderThan(b, p + 1) && HeldOnlyBy(s, p + 2, {t} + StagePid(pid))
    ensures HeldOnlyBy(s, p + 2, StagePid(pid))
  {
    assert !Holds(s, t, p + 2) by {
      forall x | 0 <= x < |s.tables[t]| ensures s.tables[t][x] != Some(p + 2) {
        assert s.tables[t][x] == b[x] || s.tables[t][x] == Some(p + 1);
      }
    }
  }

  /** The saved copies are all there, and so is the read end that the next stage is to get. */
  ghost predicate Sound(b: Table, t: Table, saves: seq<int>, prevR: int, f: FileId) {
    SavesOk(b, saves) && (prevR >= 0 ==> prevR < |t| && t[prevR] == Some(f))
  }

  lemma UnwiredTable(b: Table, t0: Table, prevR: int, f: FileId, wired: Table, t: Table, saves: seq<int>, nextR: int,
                     p: PipeId, fds: seq<int>)
    requires Laid(b, wired, nextR, fds)
    requires nextR >= 0 ==> wired[nextR] == Some(p + 1)
    requires Sound(b, t0, saves, prevR, f) && UnwiredTo(wired, t, saves, Named(fds))
    ensures Between(b, t, nextR, p + 1) && Sound(b, t, saves, nextR, p + 1)
  {
    assert forall j | 0 <= j < 3 :: saves[j] !in Kept(nextR) + Named(fds) && wired[saves[j]] == b[j];
    if nextR < 0 {
      assert t == b;
    } else {
      assert nextR as nat in Kept(nextR) && nextR as nat in Kept(nextR) + Named(fds);
      assert t == b[nextR := Some(p + 1)];
    }
  }

  /** Slot x holds a description no older than n that the pipeline will not close any more, or will close
      only after having copied it to a standard slot. */
  ghost predicate StuckAt(n: nat, t: Table, saves: seq<int>, prevR: int, x: int) {
    && |t| == MAX_FDS && SaveSlots(saves) && 3 <= x < MAX_FDS && x != prevR && t[x].Some? && t[x].value >= n
    && forall j | 0 <= j < 3 && saves[j] == x :: t[j] == t[x]
  }

  ghost predicate Stuck(n: nat, t: Table, saves: seq<int>, prevR: int) {
    exists x :: StuckAt(n, t, saves, prevR, x)
  }

  /** A leaked image is there to stay, and so is one that an earlier stage leaked. */
  lemma StaysStuck(n: nat, b: Table, t0: Table, prevR: int, f: FileId, wired: Table, nextR: int, fds: seq<int>,
                   t1: Table, image: int, closed: int, t: Table, saves: seq<int>)
    requires Between(b, t0, prevR, f) && Laid(b, wired, nextR, fds)
    requires if t1 == wired then Stuck(n, t0, saves, prevR) else Leaked(wired, t1, image, closed, n)
    requires UnwiredTo(t1, t, saves, Named(fds))
    ensures Stuck(n, t, saves, nextR)
  {
    var extra := Kept(nextR) + Named(fds);
    var x := image;
    if t1 == wired {
      x :| StuckAt(n, t0, saves, prevR, x);
      assert b[x] == t0[x];
    }
    assert x !in extra && (nextR >= 0 ==> nextR as nat in extra);
    assert t[x] == t1[x] && t1[x].Some?;
    assert StuckAt(n, t, saves, nextR, x);
  }

  /** The table without the read end for the next stage. */
  ghost function Without(t: Table, nextR: int): Table {
    Closed(t, nextR)
  }

  lemma WithoutBetween(b: Table, wired: Table, t1: Table, image: int, closed: int, n: nat, t: Table,
                       saves: seq<int>, nextR: int, p: PipeId, fds: seq<int>)
    requires Laid(b, wired, nextR, fds)
    requires nextR >= 0 ==> wired[nextR] == Some(p + 1)
    requires t1 == wired || Leaked(wired, t1, image, closed, n)
    requires UnwiredTo(t1, t, saves, Named(fds))
    ensures Between(Without(t, nextR), t, nextR, p + 1)
  {
    if nextR >= 0 {
      assert nextR as nat in Kept(nextR) && nextR as nat in Kept(nextR) + Named(fds);
      assert t[nextR] == t1[nextR];
      assert t[nextR] == Some(p + 1) || t[nextR] == None;
      assert t == Without(t, nextR)[nextR := t[nextR]];
    }
  }

  lemma WithoutIsBase(b: Table, t: Table, nextR: int, f: FileId)
    requires Between(b, t, nextR, f)
    ensures Without(t, nextR) == b
  {
  }

  /** A stage wired and started, before the shell's slots are put back: wired is the table before elf_exec. */
  method StartStage(k: Vfs, seg: Seg, saves: seq<int>, prevR: int, last: bool, ghost b: Table, ghost f: FileId)
    returns (failed: bool, nextR: int, pid: int, fds: seq<int>, ghost p: PipeId, ghost st: Start,
             ghost wired: Table, ghost image: int, ghost closed: int)
    requires Ready(k) && SegOk(seg) && Between(b, Tbl(k), prevR, f) && SaveSlots(saves)
    modifies k
    ensures Ready(k) && k.current == old(k.current) && old(k.journal) <= k.journal
    ensures !failed <==> Startable(seg, last, |FreeSlots(b)|)
    ensures failed || seg.builtin.Some? ==> pid < 0
    ensures last ==> nextR < 0
    ensures !last && !failed ==> nextR >= 0
    ensures Laid(b, wired, nextR, fds)
    ensures Tbl(k) == wired <==> Undisturbed(old(k.journal), k.journal, k.current)
    ensures Tbl(k) != wired ==> Leaked(wired, Tbl(k), image, closed, old(k.nextId))
    ensures Carried(old(k.Value()), k.Value(), k.current)
    ensures pid >= 0 ==> pid >= old(k.nextPid) && pid != k.current
    ensures nextR >= 0 ==> old(k.nextId) <= p && p + 2 < k.nextId && wired[nextR] == Some(p + 1)
    ensures nextR >= 0 && Tame(seg) ==> HeldOnlyBy(k.Value(), p + 2, {k.current} + StagePid(pid))
    ensures !failed && old(Sound(b, Tbl(k), saves, prevR, f)) ==>
      && StdWired(st, seg, Plumbing(b, EndAt(prevR, f), EndAt(nextR, p + 2)))
      && st.who == if seg.builtin.Some? then k.current else pid
  {
    hide Coherent, LastFd, Inv, Sealed, Passed, Carried, HeldOnlyBy, Patched, Named, Redirected, Inherited, StdWired,
         Leaked, Between, Sound, Plumbing, Fed, EndAt, StdOpen, Undisturbed, Foreign, FreeSlots, Wirable, SlotsFor,
         CanExec;
    ghost var s, t, sound, j := k.Value(), Tbl(k), Sound(b, Tbl(k), saves, prevR, f), k.journal;
    st := Start(s, k.current);
    failed, nextR, fds, p := WireStage(k, seg, prevR, last, b, f);
    ghost var s1, j1 := k.Value(), k.journal;
    wired := Tbl(k);
    ForeignIsUndisturbed(j, j1, k.current);
    ForeignExtends(j, j1, k.current);
    SealedCarries(s, s1, k.current);
    SealedIds(s, s1);
    pid, image, closed := -1, -1, -1;
    if !failed {
      failed, pid, st, image, closed := Launch(k, seg);
      if !failed && sound {
        PlumbingOpen(b, t, saves, prevR, f, EndAt(nextR, p + 2));
        StartIsWired(s1, st, k.current, pid, seg, Plumbing(b, EndAt(prevR, f), EndAt(nextR, p + 2)));
      }
      if Tbl(k) != wired {
        LeakedMono(wired, Tbl(k), image, closed, s1.nextId, s.nextId);
      }
    } else {
      SealedRefl(s1);
      SealedCarries(s1, s1, k.current);
      UndisturbedRefl(j1, k.current);
    }
    UndisturbedTrans(j, j1, k.journal, k.current);
    CarriedTrans(s, s1, k.Value(), k.current);
    CarriedIds(s1, k.Value(), k.current);
    if nextR >= 0 && Tame(seg) {
      AfterLaunch(s1, k.Value(), k.current, pid, p + 2, wired);
    }
  }

  /** One pass of exec_pipeline's loop. While every elf_exec has closed its own image, the shell's table is
      afterwards b again, plus at most the read end of the pipe to the next stage, and only the stage can
      write to that pipe. Once one has not, some slot is stuck. */
  method RunStage(k: Vfs, seg: Seg, saves: seq<int>, prevR: int, last: bool, ghost b: Table, ghost f: FileId,
                  ghost n: nat)
    returns (failed: bool, nextR: int, pid: int, ghost b': Table, ghost p: PipeId, ghost st: Start)
    requires Ready(k) && SegOk(seg) && Between(b, Tbl(k), prevR, f) && SaveSlots(saves) && n <= k.nextId
    modifies k
    ensures Ready(k) && k.current == old(k.current) && old(k.journal) <= k.journal
    ensures !failed <==> Startable(seg, last, |FreeSlots(b)|)
    ensures failed || seg.builtin.Some? ==> pid < 0
    ensures Between(b', Tbl(k), nextR, p + 1)
    ensures last ==> nextR < 0
    ensures !last && !failed ==> nextR >= 0
    ensures Carried(old(k.Value()), k.Value(), k.current)
    ensures pid >= 0 ==> pid >= old(k.nextPid) && pid != k.current
    ensures nextR >= 0 ==> old(k.nextId) <= p && p + 2 < k.nextId
    ensures !Undisturbed(old(k.journal), k.journal, k.current) || Stuck(n, old(Tbl(k)), saves, prevR) ==>
      Stuck(n, Tbl(k), saves, nextR)
    ensures Undisturbed(old(k.journal), k.journal, k.current) && old(Sound(b, Tbl(k), saves, prevR, f)) ==>
      && b' == b && Sound(b, Tbl(k), saves, nextR, p + 1)
      && (nextR >= 0 && Tame(seg) ==> HeldOnlyBy(k.Value(), p + 2, StagePid(pid)))
    ensures !failed && old(Sound(b, Tbl(k), saves, prevR, f)) ==>
      && StdWired(st, seg, Plumbing(b, EndAt(prevR, f), EndAt(nextR, p + 2)))
      && st.who == if seg.builtin.Some? then k.current else pid
  {
    hide Coherent, LastFd, Inv, Sealed, Carried, HeldOnlyBy, Patched, Named, OlderThan, StdWired, Stuck, Leaked,
         UnwiredTo, Without, Between, Sound, Plumbing, EndAt, Undisturbed, Foreign, FreeSlots, Startable;
    ghost var s, t, sound, j := k.Value(), Tbl(k), Sound(b, Tbl(k), saves, prevR, f), k.journal;
    TableIsOlder(k);
    BaseIsOlder(b, t, prevR, f, k.nextId);
    var fds;
    ghost var wired, image, closed;
    failed, nextR, pid, fds, p, st, wired, image, closed := StartStage(k, seg, saves, prevR, last, b, f);
    ghost var s2, t1, j2 := k.Value(), Tbl(k), k.journal;
    Unwire(k, saves, fds);
    ForeignIsUndisturbed(j2, k.journal, k.current);
    ForeignExtends(j2, k.journal, k.current);
    UndisturbedTrans(j, j2, k.journal, k.current);
    SealedCarries(s2, k.Value(), k.current);
    CarriedTrans(s, s2, k.Value(), k.current);
    SealedIds(s2, k.Value());
    b' := Without(Tbl(k), nextR);
    if t1 != wired {
      LeakedMono(wired, t1, image, closed, s.nextId, n);
    }
    StageTables(n, b, t, prevR, f, wired, nextR, p, fds, t1, image, closed, Tbl(k), saves);
    if t1 == wired && sound && nextR >= 0 && Tame(seg) {
      HeldSealed(s2, k.Value(), p + 2, {k.current} + StagePid(pid));
      OlderMono(b, s.nextId, p + 1);
      OnlyStageWrites(k.Value(), k.current, b, nextR, p, pid);
    }
  }

  /** What a pass of the loop makes of the shell's table. */
  lemma StageTables(n: nat, b: Table, t: Table, prevR: int, f: FileId, wired: Table, nextR: int, p: PipeId,
                    fds: seq<int>, t1: Table, image: int, closed: int, t': Table, saves: seq<int>)
    requires Between(b, t, prevR, f) && Laid(b, wired, nextR, fds)
    requires nextR >= 0 ==> wired[nextR] == Some(p + 1)
    requires t1 == wired || Leaked(wired, t1, image, closed, n)
    requires UnwiredTo(t1, t', saves, Named(fds))
    ensures Between(Without(t', nextR), t', nextR, p + 1)
    ensures t1 != wired || Stuck(n, t, saves, prevR) ==> Stuck(n, t', saves, nextR)
    ensures t1 == wired && Sound(b, t, saves, prevR, f) ==>
      Without(t', nextR) == b && Between(b, t', nextR, p + 1) && Sound(b, t', saves, nextR, p + 1)
  {
    hide Patched, Named, Stuck, Leaked, UnwiredTo, Without, Between, Sound, Kept;
    WithoutBetween(b, wired, t1, image, closed, n, t', saves, nextR, p, fds);
    if t1 != wired || Stuck(n, t, saves, prevR) {
      StaysStuck(n, b, t, prevR, f, wired, nextR, fds, t1, image, closed, t', saves);
    }
    if t1 == wired && Sound(b, t, saves, prevR, f) {
      UnwiredTable(b, t, prevR, f, wired, t', saves, nextR, p, fds);
      WithoutIsBase(b, t', nextR, p + 1);
    }
  }

  lemma ForeignRefl(j: seq<LoaderEvent>, t: Pid)
    ensures Foreign(j, j, t)
  {
  }

  lemma UndisturbedRefl(j: seq<LoaderEvent>, t: Pid)
    ensures Undisturbed(j, j, t)
  {
  }

  lemma PlumbingOpen(b: Table, t: Table, saves: seq<int>, prevR: int, f: FileId, next: Slot)
    requires Sound(b, t, saves, prevR, f)
    ensures |b| == MAX_FDS && Fed(t, prevR) == EndAt(prevR, f) && StdOpen(Plumbing(b, EndAt(prevR, f), next))
  {
  }

  lemma LeakedMono(t: Table, t': Table, x: int, fd: int, m: nat, n: nat)
    requires Leaked(t, t', x, fd, m) && n <= m
    ensures Leaked(t, t', x, fd, n)
  {
  }

  lemma CarriedIds(s: Sys, s': Sys, t: Pid)
    requires Carried(s, s', t)
    ensures s.nextId <= s'.nextId && s.nextPid <= s'.nextPid
  {
  }

  lemma OlderMono(b: Table, m: nat, n: nat)
    requires OlderThan(b, m) && m <= n
    ensures OlderThan(b, n)
  {
  }

  lemma BaseIsOlder(b: Table, t: Table, prevR: int, f: FileId, n: nat)
    requires Between(b, t, prevR, f) && OlderThan(t, n)
    ensures OlderThan(b, n)
  {
    forall x | 0 <= x < |b| && b[x].Some? ensures b[x].value < n {
      assert t[x] == b[x];
    }
  }

  lemma AfterLaunch(s: Sys, s': Sys, t: Pid, pid: int, f: FileId, tbl: Table)
    requires f < s.nextId && HeldOnlyBy(s, f, {t})
    requires if pid >= 0 then Passed(s, s', pid, tbl) else Sealed(s, s')
    ensures HeldOnlyBy(s', f, {t} + StagePid(pid))
  {
  }

  // ---- the whole pipeline ----

  lemma FreeSlotsFill(t: Table, i: nat, v: Slot)
    requires 3 <= i < |t| && t[i] == None && v.Some?
    ensures FreeSlots(t[i := v]) == FreeSlots(t) - {i}
    ensures |FreeSlots(t[i := v])| == |FreeSlots(t)| - 1
  {
    assert i in FreeSlots(t);
    assert FreeSlots(t[i := v]) == FreeSlots(t) - {i};
  }

  lemma NoFreeSlot(t: Table)
    requires StdOpen(t)
    ensures FirstFree(t, 0) == |t| <==> FreeSlots(t) == {}
  {
    var i := FirstFree(t, 0);
    if i < |t| {
      assert i in FreeSlots(t);
    }
  }

  predicate StdOpen(t: Table) {
    |t| == MAX_FDS && t[0].Some? && t[1].Some? && t[2].Some?
  }

  predicate StdSame(t: Table, b: Table) {
    |t| == |b| == MAX_FDS && t[0] == b[0] && t[1] == b[1] && t[2] == b[2]
  }

  /** t with the standard files copied into three slots that it leaves free. */
  ghost predicate Saved(t: Table, b: Table, saves: seq<int>) {
    && StdOpen(t) && |saves| == 3 && |b| == MAX_FDS
    && (forall j | 0 <= j < 3 :: 3 <= saves[j] < MAX_FDS && t[saves[j]] == None && b[saves[j]] == t[j])
    && (forall x | 0 <= x < MAX_FDS && x !in Named(saves) :: b[x] == t[x])
  }

  /** One vfs_dup of a standard slot. */
  method SaveOne(k: Vfs, j: nat) returns (fd: int)
    requires Ready(k) && j < 3 && StdOpen(Tbl(k))
    modifies k
    ensures Ready(k) && k.current == old(k.current)
    ensures Sealed(old(k.Value()), k.Value()) && k.nextPid == old(k.nextPid)
    ensures Foreign(old(k.journal), k.journal, k.current)
    ensures var t := old(Tbl(k));
            if FreeSlots(t) == {} then fd < 0 && Tbl(k) == t
            else 3 <= fd < MAX_FDS && t[fd] == None && Tbl(k) == t[fd := t[j]]
                 && |FreeSlots(Tbl(k))| == |FreeSlots(t)| - 1
  {
    hide Coherent, LastFd, Inv, Sealed;
    ghost var t := Tbl(k);
    NoFreeSlot(t);
    fd := ShDup(k, j);
    if fd >= 0 {
      FreeSlotsFill(t, fd, t[j]);
    }
  }

  method SaveStd(k: Vfs) returns (ok: bool, saves: seq<int>)
    requires Ready(k) && StdOpen(Tbl(k))
    modifies k
    ensures Ready(k) && k.current == old(k.current)
    ensures Sealed(old(k.Value()), k.Value()) && k.nextPid == old(k.nextPid)
    ensures Foreign(old(k.journal), k.journal, k.current)
    ensures ok <==> |FreeSlots(old(Tbl(k)))| >= 3
    ensures ok ==> Saved(old(Tbl(k)), Tbl(k), saves) && |FreeSlots(Tbl(k))| == |FreeSlots(old(Tbl(k)))| - 3
    ensures !ok ==> (Tbl(k) == old(Tbl(k)) <==> FreeSlots(old(Tbl(k))) == {})
    ensures StdSame(old(Tbl(k)), Tbl(k))
  {
    hide Coherent, LastFd, Inv, Sealed, FreeSlots;
    ghost var t := Tbl(k);
    ghost var s := k.Value();
    var a := SaveOne(k, 0);
    ghost var s1 := k.Value();
    var b := SaveOne(k, 1);
    ghost var s2 := k.Value();
    SealedTrans(s, s1, s2);
    var c := SaveOne(k, 2);
    SealedTrans(s, s2, k.Value());
    ok, saves := a >= 0 && b >= 0 && c >= 0, [a, b, c];
    if ok {
      assert Named(saves) == {a as nat, b as nat, c as nat} by { NamedThree(a, b, c); }
    } else if a >= 0 {
      assert Tbl(k)[a].Some?;
    }
  }

  lemma NamedThree(a: nat, b: nat, c: nat)
    ensures Named([a, b, c]) == {a, b, c}
  {
    var fds: seq<int> := [a, b, c];
    assert fds[0] == a && fds[1] == b && fds[2] == c;
  }

  /** Pipe j's write end is held by nobody but stage j. */
  ghost predicate Owned(s: Sys, ps: seq<PipeId>, spids: seq<int>, shell: Pid) {
    && |ps| == |spids|
    && forall j | 0 <= j < |ps| ::
         ps[j] + 2 < s.nextId && spids[j] != shell && HeldOnlyBy(s, ps[j] + 2, StagePid(spids[j]))
  }

  lemma OwnedCarried(s: Sys, s': Sys, ps: seq<PipeId>, spids: seq<int>, shell: Pid)
    requires Owned(s, ps, spids, shell) && Carried(s, s', shell)
    ensures Owned(s', ps, spids, shell)
  {
    forall j | 0 <= j < |ps| ensures HeldOnlyBy(s', ps[j] + 2, StagePid(spids[j])) {
      OneOwnedCarried(s, s', ps[j] + 2, spids[j], shell);
    }
  }

  lemma OneOwnedCarried(s: Sys, s': Sys, f: FileId, pid: int, shell: Pid)
    requires f < s.nextId && pid != shell && HeldOnlyBy(s, f, StagePid(pid)) && Carried(s, s', shell)
    ensures HeldOnlyBy(s', f, StagePid(pid))
  {
    hide Holds;
    assert !Holds(s, shell, f);
  }

  lemma OwnedSnoc(s: Sys, ps: seq<PipeId>, spids: seq<int>, shell: Pid, p: PipeId, pid: int)
    requires Owned(s, ps, spids, shell)
    requires p + 2 < s.nextId && pid != shell && HeldOnlyBy(s, p + 2, StagePid(pid))
    ensures Owned(s, ps + [p], spids + [pid], shell)
  {
    hide HeldOnlyBy, StagePid;
  }

  /** No stage of the pipeline is the builtin `exec`. */
  predicate AllTame(segs: seq<Seg>) {
    forall i | 0 <= i < |segs| :: Tame(segs[i])
  }

  /** The slot of pipe j's read or write end, when pipe j exists. */
  ghost function EndOf(ps: seq<PipeId>, j: int, offset: nat): Slot {
    if 0 <= j < |ps| then Some(ps[j] + offset) else None
  }

  /** Every started stage reads from the pipe before it and writes to the pipe after it,
      except where it is redirected; the outer ends are the shell's own. */
  ghost predicate Plumbed(segs: seq<Seg>, b: Table, ps: seq<PipeId>, starts: seq<Start>, shell: Pid) {
    && |starts| <= |segs| && |b| == MAX_FDS && |ps| >= (if |starts| == |segs| then |starts| - 1 else |starts|)
    && forall i | 0 <= i < |starts| ::
         && StdWired(starts[i], segs[i],
                     Plumbing(b, EndOf(ps, i - 1, 1), if i < |segs| - 1 then EndOf(ps, i, 2) else None))
         && (segs[i].builtin.Some? ==> starts[i].who == shell)
  }

  /** The tasks of the started stages that are external programs, in order. */
  ghost function Waited(segs: seq<Seg>, starts: seq<Start>): seq<Pid>
    requires |starts| <= |segs|
  {
    if starts == [] then []
    else
      var n := |starts| - 1;
      Waited(segs, starts[..n]) + if segs[n].builtin.None? then [starts[n].who] else []
  }

  /** The shell waits for the tasks of the started programs and for no others, and has each on record for its stage;
      a builtin has no task of its own. */
  ghost predicate Counted(segs: seq<Seg>, starts: seq<Start>, spids: seq<int>, pids: seq<Pid>) {
    && |starts| <= |segs| && pids == Waited(segs, starts)
    && (forall i | 0 <= i < |starts| && i < |spids| ::
          if segs[i].builtin.None? then spids[i] == starts[i].who else spids[i] < 0)
  }

  lemma CountedNext(segs: seq<Seg>, starts: seq<Start>, spids: seq<int>, pids: seq<Pid>, failed: bool, st: Start,
                    pid: int, starts': seq<Start>, spids': seq<int>, pids': seq<Pid>)
    requires Counted(segs, starts, spids, pids) && |starts| < |segs| && |spids| == |starts|
    requires if failed || segs[|starts|].builtin.Some? then pid < 0 else st.who == pid
    requires starts' == (if failed then starts else starts + [st])
    requires spids' == spids || spids' == spids + [pid]
    requires pids' == if pid >= 0 then pids + [pid] else pids
    ensures Counted(segs, starts', spids', pids')
  {
    assert (starts + [st])[..|starts|] == starts;
  }

  lemma PlumbedMore(segs: seq<Seg>, b: Table, ps: seq<PipeId>, starts: seq<Start>, shell: Pid, p: PipeId)
    requires |segs| > 0 && Plumbed(segs, b, ps, starts, shell)
    ensures Plumbed(segs, b, ps + [p], starts, shell)
  {
    hide StdWired, Plumbing;
    forall i | 0 <= i < |starts|
      ensures EndOf(ps + [p], i - 1, 1) == EndOf(ps, i - 1, 1)
      ensures i < |segs| - 1 ==> EndOf(ps + [p], i, 2) == EndOf(ps, i, 2)
    {
    }
  }

  lemma PlumbedSnoc(segs: seq<Seg>, b: Table, ps: seq<PipeId>, starts: seq<Start>, shell: Pid,
                    prev: Slot, next: Slot, st: Start)
    requires |starts| < |segs| && |ps| == |starts| && Plumbed(segs, b, ps, starts, shell)
    requires var i := |starts|;
             && StdWired(st, segs[i], Plumbing(b, prev, next)) && prev == EndOf(ps, i - 1, 1)
             && (segs[i].builtin.Some? ==> st.who == shell)
             && (next.Some? <==> i < |segs| - 1) && (next.Some? ==> next.value >= 2)
    ensures var ps' := if next.Some? then ps + [(next.value - 2) as PipeId] else ps;
            Plumbed(segs, b, ps', starts + [st], shell)
  {
    hide StdWired, Plumbing;
    if next.Some? {
      PlumbedMore(segs, b, ps, starts, shell, next.value - 2);
    }
  }

  /** exec_pipeline's loop over the stages, up to the point where the shell waits. */
  method RunStages(k: Vfs, segs: seq<Seg>, saves: seq<int>, ghost b: Table, ghost n: nat)
    returns (failed: bool, pids: seq<Pid>, ghost ps: seq<PipeId>, ghost spids: seq<int>, ghost starts: seq<Start>)
    requires Ready(k) && |segs| > 0 && (forall i | 0 <= i < |segs| :: SegOk(segs[i]))
    requires SavesOk(b, saves) && Tbl(k) == b && n <= k.nextId
    modifies k
    ensures Ready(k) && k.current == old(k.current) && old(k.journal) <= k.journal
    ensures k.current !in pids
    ensures var kept := Undisturbed(old(k.journal), k.journal, k.current);
            if kept then Tbl(k) == b else Stuck(n, Tbl(k), saves, -1)
    ensures |ps| == |spids| && (!failed ==> |ps| == |segs| - 1)
    ensures forall j | 0 <= j < |spids| && spids[j] >= 0 :: spids[j] in pids
    ensures Undisturbed(old(k.journal), k.journal, k.current) ==>
      && (AllTame(segs) ==> Owned(k.Value(), ps, spids, k.current))
      && (!failed <==> |starts| == |segs|) && StartsUpTo(segs, |FreeSlots(b)|, |starts|)
      && Plumbed(segs, b, ps, starts, k.current) && Counted(segs, starts, spids, pids)
  {
    hide Coherent, LastFd, Inv, Sealed, Carried, HeldOnlyBy, Owned, StdWired, Plumbing, Stuck, Undisturbed, Foreign,
         Counted, Startable, FreeSlots, Plumbed, Tame, Between, Sound;
    failed, pids, ps, spids, starts := false, [], [], [], [];
    ghost var j0, kept := k.journal, true;
    UndisturbedRefl(j0, k.current);
    NoPipesOwned(k.Value(), k.current);
    NoneCounted(segs);
    NothingPlumbed(segs, b, k.current);
    AtRest(b, saves);
    var prevR, i := -1, 0;
    ghost var f: FileId, c := 0, b;
    while i < |segs| && !failed
      invariant 0 <= i <= |segs| && (failed ==> i > 0)
      invariant Ready(k) && k.current == old(k.current) && n <= k.nextId && Between(c, Tbl(k), prevR, f)
      invariant !failed ==> (prevR >= 0 <==> 0 < i < |segs|)
      invariant k.current !in pids && j0 <= k.journal && kept == Undisturbed(j0, k.journal, k.current)
      invariant kept ==> c == b && Sound(b, Tbl(k), saves, prevR, f)
      invariant !kept ==> Stuck(n, Tbl(k), saves, prevR)
      invariant |ps| == |spids| && (!failed ==> |ps| == if i < |segs| then i else i - 1)
      invariant forall j | 0 <= j < |spids| && spids[j] >= 0 :: spids[j] in pids
      invariant kept && AllTame(segs) ==> Owned(k.Value(), ps, spids, k.current)
      invariant kept ==> Plumbed(segs, b, ps, starts, k.current) && (!failed ==> |starts| == i)
      invariant kept ==> Counted(segs, starts, spids, pids)
      invariant kept && !failed ==> forall j | 0 <= j < i :: Startable(segs[j], j == |segs| - 1, |FreeSlots(b)|)
      invariant kept && failed ==> |starts| == i - 1 && StartsUpTo(segs, |FreeSlots(b)|, i - 1)
      invariant prevR >= 0 && !failed ==> f == ps[i - 1] + 1
      decreases |segs| - i
    {
      ghost var s, prev, j := k.Value(), EndAt(prevR, f), k.journal;
      ghost var starts0, spids0, pids0 := starts, spids, pids;
      var pid;
      ghost var p, st;
      failed, prevR, pid, c, p, st := RunStage(k, segs[i], saves, prevR, i == |segs| - 1, c, f, n);
      CarriedIds(s, k.Value(), k.current);
      UndisturbedTrans(j0, j, k.journal, k.current);
      kept := Undisturbed(j0, k.journal, k.current);
      if kept {
        if !failed {
          PlumbedSnoc(segs, b, ps, starts, k.current, prev, EndAt(prevR, p + 2), st);
          starts := starts + [st];
        } else if prevR >= 0 {
          PlumbedMore(segs, b, ps, starts, k.current, p);
        }
      }
      f := p + 1;
      if pid >= 0 {
        pids := pids + [pid];
      }
      if kept && AllTame(segs) {
        OwnedCarried(s, k.Value(), ps, spids, k.current);
        if prevR >= 0 {
          OwnedSnoc(k.Value(), ps, spids, k.current, p, pid);
        }
      }
      if prevR >= 0 {
        ps, spids := ps + [p], spids + [pid];
      }
      if kept {
        CountedNext(segs, starts0, spids0, pids0, failed, st, pid, starts, spids, pids);
      }
      i := i + 1;
    }
    ghost var s, j := k.Value(), k.journal;
    DropRead(k, saves, prevR, c, f, n);
    ForeignIsUndisturbed(j, k.journal, k.current);
    ForeignExtends(j, k.journal, k.current);
    UndisturbedTrans(j0, j, k.journal, k.current);
    if kept && AllTame(segs) {
      OwnedCarried(s, k.Value(), ps, spids, k.current);
    }
  }

  lemma AtRest(b: Table, saves: seq<int>)
    requires SavesOk(b, saves)
    ensures Between(b, b, -1, 0) && Sound(b, b, saves, -1, 0)
  {
  }

  /** The read end that a stage which failed leaves behind is closed. */
  method DropRead(k: Vfs, saves: seq<int>, prevR: int, ghost c: Table, ghost f: FileId, ghost n: nat)
    requires Ready(k) && Between(c, Tbl(k), prevR, f)
    modifies k
    ensures Ready(k) && k.current == old(k.current) && Tbl(k) == c
    ensures Foreign(old(k.journal), k.journal, k.current) && Carried(old(k.Value()), k.Value(), k.current)
    ensures old(Stuck(n, Tbl(k), saves, prevR)) ==> Stuck(n, Tbl(k), saves, -1)
  {
    hide Coherent, LastFd, Inv, Sealed, Carried, Stuck;
    ghost var s, t := k.Value(), Tbl(k);
    SealedRefl(s);
    if prevR >= 0 {
      ShClose(k, prevR);
    }
    SealedCarries(s, k.Value(), k.current);
    if Stuck(n, t, saves, prevR) {
      if prevR >= 0 {
        StuckClosed(n, t, saves, prevR);
      } else {
        StuckDone(n, t, saves, prevR);
      }
    }
  }

  lemma StuckClosed(n: nat, t: Table, saves: seq<int>, prevR: int)
    requires Stuck(n, t, saves, prevR) && 3 <= prevR < MAX_FDS
    ensures Stuck(n, t[prevR := None], saves, -1)
  {
    var x :| StuckAt(n, t, saves, prevR, x);
    assert StuckAt(n, t[prevR := None], saves, -1, x);
  }

  lemma StuckDone(n: nat, t: Table, saves: seq<int>, prevR: int)
    requires Stuck(n, t, saves, prevR)
    ensures Stuck(n, t, saves, -1)
  {
    var x :| StuckAt(n, t, saves, prevR, x);
    assert StuckAt(n, t, saves, -1, x);
  }

  lemma NoneCounted(segs: seq<Seg>)
    ensures Counted(segs, [], [], [])
  {
  }

  lemma NoPipesOwned(s: Sys, shell: Pid)
    ensures Owned(s, [], [], shell)
  {
  }

  /** Wait until a task has exited; whatever else runs meanwhile, runs. */
  method WaitFor(k: Vfs, pid: Pid)
    requires Ready(k) && pid != k.current
    modifies k
    ensures Ready(k) && k.current == old(k.current) && Tbl(k) == old(Tbl(k))
    ensures Foreign(old(k.journal), k.journal, k.current)
    ensures pid !in k.tables && k.tables.Keys <= old(k.tables.Keys)
  {
    hide Coherent, LastFd, Sealed, Holds, FileOk, PipeOk, TablesOk;
    Yield(k);
    if pid in k.tables {
      StepOthers(k.Value(), Act(pid, OpExit), k.current);
      var o := k.DoStep(Act(pid, OpExit));
    }
    Yield(k);
  }

  predicate AllResolve(segs: seq<Seg>) {
    forall i | 0 <= i < |segs| :: segs[i].builtin.Some? || segs[i].resolved
  }

  /** The three final vfs_close calls undo the three saves, but not a leak. */
  method DropSaves(k: Vfs, saves: seq<int>, ghost t: Table, ghost n: nat)
    requires Ready(k) && SaveSlots(saves) && OlderThan(t, n)
    modifies k
    ensures Ready(k) && k.current == old(k.current)
    ensures k.tables.Keys <= old(k.tables.Keys)
    ensures Foreign(old(k.journal), k.journal, k.current)
    ensures old(Saved(t, Tbl(k), saves)) ==> Tbl(k) == t
    ensures old(Stuck(n, Tbl(k), saves, -1)) ==> Tbl(k) != t
  {
    hide Coherent, LastFd, Inv, Sealed, Saved, Stuck, OlderThan;
    ghost var t0 := Tbl(k);
    for j := 0 to 3
      invariant Ready(k) && k.current == old(k.current)
      invariant k.tables.Keys <= old(k.tables.Keys) && Foreign(old(k.journal), k.journal, k.current)
      invariant forall x | 0 <= x < MAX_FDS ::
        Tbl(k)[x] == if x in Named(saves[..j]) then None else t0[x]
    {
      NamedSnoc(saves, j);
      ShClose(k, saves[j]);
    }
    assert saves[..3] == saves;
    Dropped(t, t0, saves, Tbl(k), n);
  }

  lemma Dropped(t: Table, t0: Table, saves: seq<int>, t1: Table, n: nat)
    requires |t0| == |t1| == MAX_FDS && OlderThan(t, n)
    requires forall x | 0 <= x < MAX_FDS :: t1[x] == if x in Named(saves) then None else t0[x]
    ensures Saved(t, t0, saves) ==> t1 == t
    ensures Stuck(n, t0, saves, -1) ==> t1 != t
  {
    if Stuck(n, t0, saves, -1) {
      var x :| StuckAt(n, t0, saves, -1, x);
      if j :| 0 <= j < 3 && saves[j] == x {
        assert j !in Named(saves) && t1[j] == t0[x];
      } else {
        assert x !in Named(saves) && t1[x] == t0[x];
      }
    }
  }

  lemma SavedIsSaves(t: Table, b: Table, saves: seq<int>)
    requires Saved(t, b, saves)
    ensures SavesOk(b, saves)
  {
    forall j | 0 <= j < 3 ensures b[j] == t[j] {
      assert j !in Named(saves);
    }
  }

  /** A pipeline of any length, with any redirections and any failing stage, run while other
      tasks run. With the standard slots open it leaves the shell's table slot for slot as
      it was, unless the table had exactly one or two free slots: then a save fails after an
      earlier one succeeded and exec_pipeline returns without undoing it; and unless some elf_exec
      closed another number than it opened, which takes an execve of another task meanwhile
      (ShellOps.QuietIsUndisturbed). While the shell
      waits, nobody but stage j can write to the pipe between stages j and j + 1, as long as no stage is the
      builtin `exec`. */
  method ExecPipeline(k: Vfs, segs: seq<Seg>)
    returns (failed: bool, pids: seq<Pid>,
             ghost waiting: Sys, ghost ps: seq<PipeId>, ghost spids: seq<int>, ghost starts: seq<Start>)
    requires Ready(k) && |segs| > 0 && (forall i | 0 <= i < |segs| :: SegOk(segs[i]))
    requires StdOpen(Tbl(k))
    modifies k
    ensures Ready(k) && k.current == old(k.current) && old(k.journal) <= k.journal
    ensures !AllResolve(segs) ==> k.journal == old(k.journal) && Tbl(k) == old(Tbl(k))
    ensures AllResolve(segs) ==>
      (Tbl(k) == old(Tbl(k)) <==>
       Undisturbed(old(k.journal), k.journal, k.current) && !(1 <= |FreeSlots(old(Tbl(k)))| <= 2))
    ensures Undisturbed(old(k.journal), k.journal, k.current) ==> StdSame(old(Tbl(k)), Tbl(k))
    ensures forall pid | pid in pids :: pid !in k.tables
    ensures Inv(waiting) && k.current !in pids
    ensures |ps| == |spids| && forall j | 0 <= j < |spids| && spids[j] >= 0 :: spids[j] in pids
    ensures Undisturbed(old(k.journal), k.journal, k.current) ==>
      && (AllTame(segs) ==> Owned(waiting, ps, spids, k.current)) && Plumbed(segs, old(Tbl(k)), ps, starts, k.current)
      && Counted(segs, starts, spids, pids) && (!failed ==> |ps| == |segs| - 1)
      && (!failed <==> |starts| == |segs|)
      && if AllResolve(segs) && |FreeSlots(old(Tbl(k)))| >= 3
         then StartsUpTo(segs, |FreeSlots(old(Tbl(k)))| - 3, |starts|) else starts == []
  {
    hide Coherent, LastFd, Sealed, Owned, FreeSlots, FileOk, PipeOk, TablesOk, Plumbed, Stuck, OlderThan,
         Undisturbed, Foreign, Counted, StartsUpTo;
    failed, pids, waiting, ps, spids, starts := true, [], k.Value(), [], [], [];
    ghost var j0 := k.journal;
    UndisturbedRefl(j0, k.current);
    NothingPlumbed(segs, Tbl(k), k.current);
    NoneCounted(segs);
    NoPipesOwned(k.Value(), k.current);
    TableIsOlder(k);
    for i := 0 to |segs|
      invariant forall j | 0 <= j < i :: segs[j].builtin.Some? || segs[j].resolved
    {
      if segs[i].builtin.None? && !segs[i].resolved {
        return;
      }
    }
    ghost var t, n := Tbl(k), k.nextId;
    ghost var s := k.Value();
    var ok, saves := SaveStd(k);
    SealedIds(s, k.Value());
    ghost var j1 := k.journal;
    ForeignIsUndisturbed(j0, j1, k.current);
    ForeignExtends(j0, j1, k.current);
    if !ok {
      return;
    }
    ghost var b := Tbl(k);
    SavedIsSaves(t, b, saves);
    failed, pids, ps, spids, starts := RunStages(k, segs, saves, b, n);
    waiting := k.Value();
    ghost var j2 := k.journal;
    ForeignRefl(j2, k.current);
    UndisturbedTrans(j0, j1, j2, k.current);
    if Undisturbed(j0, j2, k.current) {
      PlumbedFrom(segs, t, b, saves, ps, starts, k.current);
    }
    ghost var t1 := Tbl(k);
    for i := 0 to |pids|
      invariant Ready(k) && k.current == old(k.current) && Tbl(k) == t1
      invariant Foreign(j2, k.journal, k.current)
      invariant forall j | 0 <= j < i :: pids[j] !in k.tables
    {
      ghost var j := k.journal;
      WaitFor(k, pids[i]);
      ForeignTrans(j2, j, k.journal, k.current);
    }
    ghost var j3 := k.journal;
    DropSaves(k, saves, t, n);
    ForeignTrans(j2, j3, k.journal, k.current);
    ForeignIsUndisturbed(j2, k.journal, k.current);
    ForeignExtends(j2, k.journal, k.current);
    UndisturbedTrans(j0, j2, k.journal, k.current);
  }

  /** Command lines up to the first one that an execve of another task disturbed: the standard slots never
      change, and a table that had room for the saves is slot for slot as it was after each of them,
      until, and only until, that one. So every line before it finds the same room, and starts the stages before the
      first one that cannot start. */
  method Session(k: Vfs, lines: seq<seq<Seg>>) returns (run: nat, ghost counts: seq<nat>)
    requires Ready(k) && StdOpen(Tbl(k))
    requires forall l | 0 <= l < |lines| :: |lines[l]| > 0 && forall i | 0 <= i < |lines[l]| :: SegOk(lines[l][i])
    modifies k
    ensures Ready(k) && k.current == old(k.current) && old(k.journal) <= k.journal && run <= |lines|
    ensures var kept := Undisturbed(old(k.journal), k.journal, k.current);
            && (kept ==> run == |lines| && StdSame(old(Tbl(k)), Tbl(k)))
            && (|FreeSlots(old(Tbl(k)))| >= 3 ==> (Tbl(k) == old(Tbl(k)) <==> kept))
            && (kept && |FreeSlots(old(Tbl(k)))| >= 3 ==> StartedAll(lines, |FreeSlots(old(Tbl(k)))| - 3, counts))
  {
    hide Coherent, LastFd, Inv, Owned, FreeSlots, Plumbed, SegOk, Undisturbed, StartsUpTo, AllResolve, Counted;
    run, counts := 0, [];
    var kept := true;
    ghost var j0 := k.journal;
    UndisturbedRefl(j0, k.current);
    while run < |lines| && kept
      invariant run <= |lines| && Ready(k) && k.current == old(k.current)
      invariant j0 <= k.journal && kept == Undisturbed(j0, k.journal, k.current)
      invariant kept ==> StdSame(old(Tbl(k)), Tbl(k))
      invariant |FreeSlots(old(Tbl(k)))| >= 3 ==> (Tbl(k) == old(Tbl(k)) <==> kept)
      invariant |counts| == run
      invariant kept && |FreeSlots(old(Tbl(k)))| >= 3 ==>
        StartedAll(lines[..run], |FreeSlots(old(Tbl(k)))| - 3, counts)
      decreases |lines| - run
    {
      var j := k.journal;
      var failed, pids, waiting, ps, spids, starts := ExecPipeline(k, lines[run]);
      UndisturbedRefl(j, k.current);
      UndisturbedTrans(j0, j, k.journal, k.current);
      counts := counts + [|starts|];
      run, kept := run + 1, Undisturbed(j, k.journal, k.current);
    }
    assert lines[..|lines|] == lines;
  }

  /** Line l started as many stages as count l says: those before the first that cannot start, or none if a program is
      not found. */
  ghost predicate StartedAll(lines: seq<seq<Seg>>, room: nat, counts: seq<nat>) {
    && |counts| == |lines|
    && forall l | 0 <= l < |lines| :: StartedOne(lines[l], room, counts[l])
  }

  predicate StartedOne(segs: seq<Seg>, room: nat, n: nat) {
    && (forall i | 0 <= i < |segs| :: SegOk(segs[i]))
    && if AllResolve(segs) then StartsUpTo(segs, room, n) else n == 0
  }

  /** From boot on, every command line ends with the table that the shell booted with, until one is
      disturbed. */
  method BootSession(lines: seq<seq<Seg>>)
    returns (t: Table, run: nat, journal: seq<LoaderEvent>, ghost counts: seq<nat>)
    requires forall l | 0 <= l < |lines| :: |lines[l]| > 0 && forall i | 0 <= i < |lines[l]| :: SegOk(lines[l][i])
    ensures Coherent(journal) && run <= |lines| && (Undisturbed([], journal, 1) ==> run == |lines|)
    ensures t == BootState().tables[1] <==> Undisturbed([], journal, 1)
    ensures Undisturbed([], journal, 1) ==> StartedAll(lines, MAX_FDS - 6, counts)
  {
    hide FileOk, PipeOk, SegOk, Undisturbed, StartedAll;
    BootOk();
    var k := new Vfs(BootState(), 1);
    BootFree();
    run, counts := Session(k, lines);
    t, journal := k.tables[1], k.journal;
  }

  lemma BootFree()
    ensures |FreeSlots(BootState().tables[1])| == MAX_FDS - 3
  {
    FreeAbove(BootState().tables[1], 3);
  }

  lemma {:induction false} FreeAbove(t: Table, i: nat)
    requires 3 <= i <= |t| && forall x | 3 <= x < |t| :: t[x].Some? <==> x < i
    ensures |FreeSlots(t)| == |t| - i
    decreases |t| - i
  {
    if i == |t| {
      assert FreeSlots(t) == {};
    } else {
      FreeSlotsFill(t, i, Some(0));
      FreeAbove(t[i := Some(0)], i + 1);
    }
  }

  /** A stage fills at most six slots of the shell's table, so with six free after the saves the table is never what
      stops it. */
  lemma SlotsSuffice(seg: Seg, last: bool, room: nat)
    requires SegOk(seg) && room >= 6
    ensures Startable(seg, last, room) <==>
            (last || seg.malloc) && FilesOpen(seg, 3) && (seg.builtin.None? ==> CanExec(seg.exec))
  {
    assert Asked(seg, 1) <= 1;
    assert Asked(seg, 2) <= 2;
  }

  /** With standard input closed the first save fails, and the second one lands in slot 0 itself, where
      exec_pipeline's early return leaves it: the table is not as it was. */
  lemma ClosedInputIsFilled(s: Sys, t: Pid)
    requires Inv(s) && t in s.tables && s.tables[t][0] == None && s.tables[t][1].Some?
    ensures var (s1, a) := Dup(s, t, 0);
            var (s2, b) := Dup(s1, t, 1);
            a < 0 && s1 == s && b == 0 && s2.tables[t][0] == s.tables[t][1] != None
  {
    hide FileOk, PipeOk;
  }

  lemma NothingPlumbed(segs: seq<Seg>, b: Table, shell: Pid)
    requires |b| == MAX_FDS && |segs| > 0
    ensures Plumbed(segs, b, [], [], shell)
  {
  }

  /** The saved copies do not change what the stages see on the standard slots. */
  lemma PlumbedFrom(segs: seq<Seg>, t: Table, b: Table, saves: seq<int>, ps: seq<PipeId>, starts: seq<Start>,
                    shell: Pid)
    requires Saved(t, b, saves) && Plumbed(segs, b, ps, starts, shell)
    ensures Plumbed(segs, t, ps, starts, shell)
  {
    SavedIsSaves(t, b, saves);
    forall i | 0 <= i < |starts|
      ensures StdWired(starts[i], segs[i],
                       Plumbing(t, EndOf(ps, i - 1, 1), if i < |segs| - 1 then EndOf(ps, i, 2) else None))
    {
      var prev, next := EndOf(ps, i - 1, 1), if i < |segs| - 1 then EndOf(ps, i, 2) else None;
      assert Plumbing(b, prev, next)[..3] == Plumbing(t, prev, next)[..3];
      SameStd(starts[i].at, Plumbing(b, prev, next), Plumbing(t, prev, next),
              starts[i].at.tables[starts[i].who], segs[i]);
    }
  }

  // ---- after the wait begins ----

  /** Whoever may hold a description stays within a set none of whose members spawns. */
  lemma {:induction false} HeldStaysWithin(s: Sys, acts: seq<Act>, f: FileId, who: set<Pid>)
    requires Inv(s) && f < s.nextId && HeldOnlyBy(s, f, who)
    requires forall i | 0 <= i < |acts| :: acts[i].op.OpSpawn? ==> acts[i].task !in who
    ensures HeldOnlyBy(Exec(s, acts), f, who) && f < Exec(s, acts).nextId
    decreases |acts|
  {
    if acts != [] {
      hide Inv, Step, Holds;
      var s1 := Step(s, acts[0]).0;
      NextIdGrows(s, acts[0]);
      forall u: Pid | Holds(s1, u, f) ensures u in who {
        StepHolders(s, acts[0], u, f);
      }
      HeldStaysWithin(s1, acts[1..], f, who);
    }
  }

  /** Once the only possible writers of a pipe have exited, its write count is zero and a
      read through any read end never waits: it delivers bytes or reports end-of-file. */
  lemma {:induction false} WritersGoneMeansEof(s: Sys, acts: seq<Act>, p: PipeId, who: set<Pid>,
                                                   t: Pid, fd: int, count: nat)
    requires Inv(s) && p + 2 < s.nextId && HeldOnlyBy(s, p + 2, who)
    requires forall i | 0 <= i < |acts| :: acts[i].op.OpSpawn? ==> acts[i].task !in who
    requires who !! Exec(s, acts).tables.Keys
    requires OpenFd(Exec(s, acts), t, fd) && Exec(s, acts).tables[t][fd] == Some(p + 1)
    requires p in Exec(s, acts).pipes && count > 0
    ensures var s' := Exec(s, acts);
            && s'.pipes[p].refsW == 0
            && var o := Step(s', Act(t, OpRead(fd, count))).1;
               o == AtEof(p) || (o.Delivered? && o.pipe == p && o.bytes != [])
  {
    var s' := Exec(s, acts);
    HeldStaysWithin(s, acts, p + 2, who);
    assert NoHolder(s', p + 2);
    NoHolderIsEmpty(s', p + 2);
    assert PipeOk(s', p);
    ReadEndNeverWaits(s', p, t, fd, count);
  }

  lemma ReadEndNeverWaits(s: Sys, p: PipeId, t: Pid, fd: int, count: nat)
    requires Inv(s) && p in s.pipes && s.pipes[p].refsW == 0 && count > 0
    requires OpenFd(s, t, fd) && s.tables[t][fd] == Some(p + 1)
    ensures var o := Step(s, Act(t, OpRead(fd, count))).1;
            o == AtEof(p) || (o.Delivered? && o.pipe == p && o.bytes != [])
  {
    hide Inv, TablesOk, FileOk, PipeOk, Drain, Contents;
    SlotAlive(s, t, fd);
    EndsOfPipe(s, p, p + 1);
    PipeFlags(s, p, p + 1);
    PipeAtLive(s, t, fd);
    if s.pipes[p].count > 0 {
      DrainNonempty(s.pipes[p], count);
    }
    assert Step(s, Act(t, OpRead(fd, count))) == Read(s, t, fd, count);
  }

  /** With no writers left, one read that has room takes all that is buffered, and the next one reports
      end-of-file. */
  lemma ThenEof(s: Sys, p: PipeId, t: Pid, fd: int, count: nat, more: nat)
    requires Inv(s) && p in s.pipes && s.pipes[p].refsW == 0
    requires OpenFd(s, t, fd) && s.tables[t][fd] == Some(p + 1) && count >= s.pipes[p].count
    ensures RingOk(s.pipes[p])
    ensures var (s', o) := Step(s, Act(t, OpRead(fd, count)));
            if s.pipes[p].count == 0 then o == AtEof(p)
            else o == Delivered(p, Contents(s.pipes[p])) && Step(s', Act(t, OpRead(fd, more))).1 == AtEof(p)
  {
    hide Inv, TablesOk, FileOk, PipeOk, Drain, Contents;
    SlotAlive(s, t, fd);
    EndsOfPipe(s, p, p + 1);
    PipeFlags(s, p, p + 1);
    PipeAtLive(s, t, fd);
    var (s', o) := Step(s, Act(t, OpRead(fd, count)));
    assert (s', o) == Read(s, t, fd, count);
    if s.pipes[p].count > 0 {
      DrainAll(s.pipes[p], count);
      assert s'.tables == s.tables && s'.files == s.files;
      PipeAtLive(s', t, fd);
      assert Step(s', Act(t, OpRead(fd, more))) == Read(s', t, fd, more);
    }
  }

  lemma DrainAll(r: Ring, count: nat)
    requires RingOk(r) && count >= r.count
    ensures var (r', out) := Drain(r, count); out == Contents(r) && r'.count == 0 && r'.refsW == r.refsW
  {
    DrainTakesPrefix(r, count);
  }

  /** From the state in which the shell waits: once stage i has exited, no write end of pipe i is left, and
      whoever reads pipe i gets what is still buffered and then end-of-file. */
  lemma {:induction false} StageExitIsEof(waiting: Sys, acts: seq<Act>, ps: seq<PipeId>, spids: seq<int>,
                                              shell: Pid, i: nat, reader: Pid, fd: int, count: nat, more: nat)
    requires Inv(waiting) && Owned(waiting, ps, spids, shell) && i < |ps|
    requires forall j | 0 <= j < |acts| :: acts[j].op.OpSpawn? ==> acts[j].task == shell
    requires spids[i] >= 0 ==> spids[i] !in Exec(waiting, acts).tables
    requires OpenFd(Exec(waiting, acts), reader, fd) && Exec(waiting, acts).tables[reader][fd] == Some(ps[i] + 1)
    requires ps[i] in Exec(waiting, acts).pipes && count >= Exec(waiting, acts).pipes[ps[i]].count
    ensures var (s, p) := (Exec(waiting, acts), ps[i]);
            && s.pipes[p].refsW == 0 && RingOk(s.pipes[p])
            && var (s', o) := Step(s, Act(reader, OpRead(fd, count)));
               if s.pipes[p].count == 0 then o == AtEof(p)
               else o == Delivered(p, Contents(s.pipes[p])) && Step(s', Act(reader, OpRead(fd, more))).1 == AtEof(p)
  {
    hide Step, Exec, Inv, OpenFd, RingOk, Contents;
    assert StagePid(spids[i]) !! Exec(waiting, acts).tables.Keys;
    WritersGoneMeansEof(waiting, acts, ps[i], StagePid(spids[i]), reader, fd, 1);
    ThenEof(Exec(waiting, acts), ps[i], reader, fd, count, more);
  }

  /** Where stage i + 1 reads, when it is not redirected: its slot 0 is the read end of pipe i. */
  lemma StageReadsPipe(segs: seq<Seg>, b: Table, ps: seq<PipeId>, starts: seq<Start>, shell: Pid, i: nat)
    requires Plumbed(segs, b, ps, starts, shell) && i + 1 < |starts|
    requires segs[i + 1].redir != [] && segs[i + 1].redir[0].None?
    ensures i < |ps| && starts[i + 1].who in starts[i + 1].at.tables
    ensures var t := starts[i + 1].at.tables[starts[i + 1].who]; |t| == MAX_FDS && t[0] == Some(ps[i] + 1)
  {
    hide Inv, OpenedAs;
    assert StdWired(starts[i + 1], segs[i + 1],
                    Plumbing(b, EndOf(ps, i, 1), if i + 1 < |segs| - 1 then EndOf(ps, i + 1, 2) else None));
  }

  /** Where a stage writes, when it is not redirected: slot 1 is the write end of pipe i, of the last stage the shell's
      own, and slot 2 is the shell's own; and the first stage reads from the shell's own slot 0. */
  lemma StageWritesPipe(segs: seq<Seg>, b: Table, ps: seq<PipeId>, starts: seq<Start>, shell: Pid, i: nat)
    requires Plumbed(segs, b, ps, starts, shell) && i < |starts| && SegOk(segs[i])
    ensures starts[i].who in starts[i].at.tables
    ensures var t := starts[i].at.tables[starts[i].who];
            && |t| == MAX_FDS
            && (segs[i].redir[1].None? && i < |segs| - 1 ==> i < |ps| && t[1] == Some(ps[i] + 2))
            && (segs[i].redir[1].None? && i == |segs| - 1 ==> t[1] == b[1])
            && (segs[i].redir[2].None? ==> t[2] == b[2]) && (segs[i].redir[0].None? && i == 0 ==> t[0] == b[0])
  {
    hide Inv, OpenedAs;
    assert StdWired(starts[i], segs[i],
                    Plumbing(b, EndOf(ps, i - 1, 1), if i < |segs| - 1 then EndOf(ps, i, 2) else None));
  }

  /** The two together: once the task of stage i is gone, stage i + 1, whose standard input is what it started with,
      reads what is still buffered and then end-of-file. */
  lemma NextStageSeesEof(segs: seq<Seg>, b: Table, waiting: Sys, acts: seq<Act>, ps: seq<PipeId>, spids: seq<int>,
                         pids: seq<Pid>, starts: seq<Start>, shell: Pid, i: nat, count: nat, more: nat)
    requires Plumbed(segs, b, ps, starts, shell) && Counted(segs, starts, spids, pids) && i + 1 < |starts|
    requires segs[i].builtin.None? && segs[i + 1].redir != [] && segs[i + 1].redir[0].None?
    requires Inv(waiting) && Owned(waiting, ps, spids, shell)
    requires forall j | 0 <= j < |acts| :: acts[j].op.OpSpawn? ==> acts[j].task == shell
    requires var s, reader := Exec(waiting, acts), starts[i + 1].who;
             && starts[i].who !in s.tables && i < |ps| && OpenFd(s, reader, 0)
             && reader in starts[i + 1].at.tables && |starts[i + 1].at.tables[reader]| == MAX_FDS
             && s.tables[reader][0] == starts[i + 1].at.tables[reader][0]
             && ps[i] in s.pipes && count >= s.pipes[ps[i]].count
    ensures var (s, p, reader) := (Exec(waiting, acts), ps[i], starts[i + 1].who);
            && s.pipes[p].refsW == 0 && RingOk(s.pipes[p])
            && var (s', o) := Step(s, Act(reader, OpRead(0, count)));
               if s.pipes[p].count == 0 then o == AtEof(p)
               else o == Delivered(p, Contents(s.pipes[p])) && Step(s', Act(reader, OpRead(0, more))).1 == AtEof(p)
  {
    hide Step, Exec, Inv, RingOk, Contents, Plumbed;
    StageReadsPipe(segs, b, ps, starts, shell, i);
    OwnedCount(waiting, ps, spids, shell);
    assert spids[i] == starts[i].who;
    StageExitIsEof(waiting, acts, ps, spids, shell, i, starts[i + 1].who, 0, count, more);
  }

  lemma OwnedCount(s: Sys, ps: seq<PipeId>, spids: seq<int>, shell: Pid)
    requires Owned(s, ps, spids, shell)
    ensures |spids| == |ps|
  {
  }

  /** A stage that is the builtin `exec` has a child that the pipeline does not count, and the child has the
      write end of the stage's pipe: until the child itself runs, it holds the end whatever else happens,
      so the next stage sees no end-of-file when the shell has put its own slots back. */
  lemma {:induction false} UncountedWriter(s: Sys, child: Pid, acts: seq<Act>, p: PipeId)
    requires Inv(s) && child in s.tables && |s.tables[child]| == MAX_FDS && s.tables[child][1] == Some(p + 2)
    requires forall i | 0 <= i < |acts| :: acts[i].task != child
    ensures Holds(Exec(s, acts), child, p + 2) && !HeldOnlyBy(Exec(s, acts), p + 2, StagePid(-1))
    decreases |acts|
  {
    hide Inv, Step;
    if acts == [] {
      assert s.tables[child][1] == Some(p + 2);
      assert Holds(s, child, p + 2);
    } else {
      StepOthers(s, acts[0], child);
      UncountedWriter(Step(s, acts[0]).0, child, acts[1..], p);
    }
  }

  /** The builtin `exec` makes such a child out of the shell's slots as they are wired for the stage. */
  lemma {:induction false} ExecBuiltinShares(s: Sys, shell: Pid, p: PipeId, acts: seq<Act>)
    requires Inv(s) && shell in s.tables && |s.tables[shell]| == MAX_FDS && s.tables[shell][1] == Some(p + 2)
    requires forall i | 0 <= i < |acts| :: acts[i].task != s.nextPid
    ensures !HeldOnlyBy(Exec(Step(s, Act(shell, OpSpawn)).0, acts), p + 2, StagePid(-1))
  {
    hide Inv, Step;
    SpawnStep(s, shell);
    UncountedWriter(Step(s, Act(shell, OpSpawn)).0, s.nextPid, acts, p);
  }
}
