/** Anonymous mmap with rollback and munmap (kernel/syscall/syscall.c). */
module Mmap {
  import opened Base
  import opened Pmm
  import opened PageTables
  import opened Vmm
  import opened AddressSpaces
  import opened VirtualAddresses
  import opened VmmKernel
  import opened AccessRights

  const USER_HALF_MAX: nat := 0x7fff_ffff_ffff
  const MAP_ANONYMOUS: nat := 0x20
  const EINVAL := 22
  const ENOMEM := 12

  // ---- ranges of pages ----

  /** The index paths of n pages from start. */
  function Paths(start: nat, n: nat): (r: seq<seq<nat>>)
    ensures |r| == n && forall i | 0 <= i < n :: Ix(r[i]) && r[i] == IxOf(start + i * PAGE_SIZE)
  {
    seq(n, i requires 0 <= i => IxOf(start + i * PAGE_SIZE))
  }

  lemma UserPath(v: nat)
    requires v <= USER_HALF_MAX
    ensures IxOf(v)[0] < KERNEL_HALF && (v / PAGE_SIZE) % PAGES == v / PAGE_SIZE
  {
  }

  lemma PageNumber(start: nat, i: nat)
    requires start % PAGE_SIZE == 0
    ensures (start + i * PAGE_SIZE) / PAGE_SIZE == start / PAGE_SIZE + i
  {
  }

  /** Pages of a user-half range have distinct paths in the user half. */
  lemma PathsDistinct(start: nat, i: nat, j: nat)
    requires start % PAGE_SIZE == 0 && start + i * PAGE_SIZE <= USER_HALF_MAX && start + j * PAGE_SIZE <= USER_HALF_MAX
    ensures IxOf(start + i * PAGE_SIZE)[0] < KERNEL_HALF
    ensures IxOf(start + i * PAGE_SIZE) == IxOf(start + j * PAGE_SIZE) ==> i == j
  {
    hide IxOf;
    var v, w := start + i * PAGE_SIZE, start + j * PAGE_SIZE;
    PageNumber(start, i);
    PageNumber(start, j);
    UserPath(v);
    UserPath(w);
    SameIxSamePage(v, w);
  }

  /** From ts to ts' only the translation of ix in space c changes, to v. */
  ghost predicate OnlyChanged(ts: Tables, ts': Tables, roles: Roles, c: nat, ix: seq<nat>, v: Option<nat>) {
    forall d: nat, jx: seq<nat> | IsSpace(roles, d) && Ix(jx) ::
      Look(ts', d, jx) == if d == c && jx == ix then v else Look(ts, d, jx)
  }

  lemma MapUser(s: Vm, roles: Roles, c: nat, ix: seq<nat>, frame: nat, flags: Flags)
    requires VmOk(s, roles) && IsSpace(roles, c) && Ix(ix) && ix[0] < KERNEL_HALF
    ensures var (s', ok) := MapIn(s, c, ix, frame, flags);
            var roles' := WalkRoles(s, roles, c, ix, true);
            && VmOk(s', roles') && GrowsTo(roles, roles') && s'.pool.total == s.pool.total
            && s'.pool.free == s.pool.free - (roles'.Keys - roles.Keys)
            && roles'.Keys - roles.Keys <= s.pool.free
            && (!ok ==> SameLooks(s.tables, s'.tables, roles) && Exhausted(s'.pool))
            && (ok ==> OnlyChanged(s.tables, s'.tables, roles, c, ix, Some(frame)))
  {
    hide VmOk, Look, MapIn, WalkRoles, Shares, Clear;
    UserIsClear(s, roles, c, ix);
    MapInEffect(s, roles, c, ix, frame, flags);
    var (s', ok) := MapIn(s, c, ix, frame, flags);
    if ok {
      PrivateChange(s, roles, s', WalkRoles(s, roles, c, ix, true), c, ix, Some(frame));
    }
  }

  lemma UnmapUser(s: Vm, roles: Roles, c: nat, ix: seq<nat>)
    requires VmOk(s, roles) && IsSpace(roles, c) && Ix(ix) && ix[0] < KERNEL_HALF
    ensures var s' := UnmapIn(s, c, ix);
            && VmOk(s', roles) && s'.pool == s.pool
            && OnlyChanged(s.tables, s'.tables, roles, c, ix, None)
  {
    hide VmOk, Look, UnmapIn, Shares, Clear;
    UserIsClear(s, roles, c, ix);
    UnmapInEffect(s, roles, c, ix);
    PrivateChange(s, roles, UnmapIn(s, c, ix), roles, c, ix, None);
  }

  /** In the user half a shared change is a change in one space. */
  lemma PrivateChange(s: Vm, roles: Roles, s': Vm, roles': Roles, c: nat, ix: seq<nat>, v: Option<nat>)
    requires VmOk(s', roles') && GrowsTo(roles, roles') && IsSpace(roles, c) && Ix(ix) && ix[0] < KERNEL_HALF
    requires Mapped(s.tables, s'.tables, roles, c, ix, v) && Look(s'.tables, c, ix) == v
    ensures OnlyChanged(s.tables, s'.tables, roles, c, ix, v)
  {
    hide VmOk, Look;
    forall d: nat, jx: seq<nat> | IsSpace(roles, d) && Ix(jx)
      ensures Look(s'.tables, d, jx) == if d == c && jx == ix then v else Look(s.tables, d, jx)
    {
      if Shares(s'.tables, c, d, ix) {
        UserHalfPrivate(s', roles', c, d, ix);
      }
    }
  }

  /** ts differs from ts0 only on the first |v| pages from start in space c, where it
      translates to v. */
  ghost predicate RangeIs(ts0: Tables, ts: Tables, roles: Roles, c: nat, start: nat, v: seq<Option<nat>>) {
    && (forall i | 0 <= i < |v| :: Look(ts, c, Paths(start, |v|)[i]) == v[i])
    && (forall d: nat, jx: seq<nat> | IsSpace(roles, d) && Ix(jx) && !(d == c && jx in Paths(start, |v|)) ::
          Look(ts, d, jx) == Look(ts0, d, jx))
  }

  lemma RangeEmpty(ts: Tables, roles: Roles, c: nat, start: nat)
    ensures RangeIs(ts, ts, roles, c, start, [])
  {
  }

  predicate UserRange(start: nat, n: nat) {
    start % PAGE_SIZE == 0 && start + n * PAGE_SIZE <= USER_HALF_MAX
  }

  lemma PathNotYet(start: nat, n: nat)
    requires UserRange(start, n + 1)
    ensures Paths(start, n + 1)[n] == IxOf(start + n * PAGE_SIZE)
    ensures IxOf(start + n * PAGE_SIZE) !in Paths(start, n)
    ensures Paths(start, n + 1)[..n] == Paths(start, n)
    ensures IxOf(start + n * PAGE_SIZE)[0] < KERNEL_HALF
  {
    hide IxOf;
    forall i | 0 <= i < n ensures Paths(start, n)[i] != IxOf(start + n * PAGE_SIZE) {
      PathsDistinct(start, i, n);
    }
    PathsDistinct(start, n, n);
  }

  /** One more page of the range is changed to x. */
  lemma RangeSnoc(ts0: Tables, ts: Tables, ts': Tables, roles0: Roles, roles: Roles, c: nat, start: nat,
                  v: seq<Option<nat>>, x: Option<nat>)
    requires UserRange(start, |v| + 1) && GrowsTo(roles0, roles) && IsSpace(roles0, c)
    requires RangeIs(ts0, ts, roles0, c, start, v)
    requires OnlyChanged(ts, ts', roles, c, IxOf(start + |v| * PAGE_SIZE), x)
    ensures RangeIs(ts0, ts', roles0, c, start, v + [x])
  {
    hide Look, IxOf;
    var n := |v|;
    PathNotYet(start, n);
    var ps, ps' := Paths(start, n), Paths(start, n + 1);
    forall i | 0 <= i < n + 1 ensures Look(ts', c, ps'[i]) == (v + [x])[i] {
      if i < n {
        assert ps'[i] == ps'[..n][i] == ps[i];
        assert Look(ts, c, ps[i]) == v[i];
      }
    }
    forall d: nat, jx: seq<nat> | IsSpace(roles0, d) && Ix(jx) && !(d == c && jx in ps')
      ensures Look(ts', d, jx) == Look(ts0, d, jx)
    {
      assert IsSpace(roles, d);
      assert jx in ps ==> jx in ps' by {
        assert forall y | y in ps :: y in ps'[..n];
      }
      assert ps'[n] in ps';
    }
  }

  /** The next page of the range already is what it should be. */
  lemma RangeSkip(ts0: Tables, ts: Tables, roles: Roles, c: nat, start: nat, v: seq<Option<nat>>)
    requires UserRange(start, |v| + 1) && IsSpace(roles, c) && RangeIs(ts0, ts, roles, c, start, v)
    ensures var x := Look(ts0, c, IxOf(start + |v| * PAGE_SIZE));
            Look(ts, c, IxOf(start + |v| * PAGE_SIZE)) == x && RangeIs(ts0, ts, roles, c, start, v + [x])
  {
    hide Look;
    PathNotYet(start, |v|);
    var ix := IxOf(start + |v| * PAGE_SIZE);
    assert OnlyChanged(ts, ts, roles, c, ix, Look(ts, c, ix));
    RangeSnoc(ts0, ts, ts, roles, roles, c, start, v, Look(ts, c, ix));
  }

  lemma RangeSame(ts0: Tables, ts: Tables, ts': Tables, roles0: Roles, roles: Roles, c: nat, start: nat,
                  v: seq<Option<nat>>)
    requires RangeIs(ts0, ts, roles0, c, start, v) && SameLooks(ts, ts', roles) && GrowsTo(roles0, roles)
      && IsSpace(roles0, c)
    ensures RangeIs(ts0, ts', roles0, c, start, v)
  {
    hide Look, IxOf;
    assert IsSpace(roles, c);
    forall i | 0 <= i < |v| ensures Look(ts', c, Paths(start, |v|)[i]) == v[i] {
      assert Look(ts, c, Paths(start, |v|)[i]) == v[i];
    }
    forall d: nat, jx: seq<nat> | IsSpace(roles0, d) && Ix(jx) && !(d == c && jx in Paths(start, |v|))
      ensures Look(ts', d, jx) == Look(ts0, d, jx)
    {
      assert IsSpace(roles, d);
    }
  }

  // ---- no two user pages share a frame ----

  predicate UserIx(ix: seq<nat>) {
    Ix(ix) && ix[0] < KERNEL_HALF
  }

  /** A frame that a user page maps is neither free nor a table. */
  ghost predicate DataFrames(ts: Tables, roles: Roles, free: set<nat>) {
    forall d: nat, jx: seq<nat> | IsSpace(roles, d) && UserIx(jx) && Look(ts, d, jx).Some? ::
      var f := Look(ts, d, jx).value;
      f != 0 && f !in roles && f !in free
  }

  /** Distinct user pages, of one space or of two, map distinct frames. */
  ghost predicate Unshared(ts: Tables, roles: Roles) {
    forall d: nat, jx: seq<nat>, e: nat, kx: seq<nat> |
      && IsSpace(roles, d) && UserIx(jx) && IsSpace(roles, e) && UserIx(kx)
      && Look(ts, d, jx).Some? && Look(ts, d, jx) == Look(ts, e, kx) ::
      d == e && jx == kx
  }

  ghost predicate Private(s: Vm, roles: Roles) {
    DataFrames(s.tables, roles, s.pool.free) && Unshared(s.tables, roles)
  }

  /** Same translations, fewer free frames, and only free frames became tables. */
  lemma PrivateGrows(s: Vm, roles: Roles, s': Vm, roles': Roles)
    requires Private(s, roles) && SameLooks(s.tables, s'.tables, roles) && GrowsTo(roles, roles')
    requires s'.pool.free <= s.pool.free && roles'.Keys - roles.Keys <= s.pool.free
    ensures Private(s', roles')
  {
    hide Look;
    forall d: nat | IsSpace(roles', d) ensures IsSpace(roles, d) {}
    forall d: nat, jx: seq<nat> | IsSpace(roles', d) && UserIx(jx) && Look(s'.tables, d, jx).Some?
      ensures Look(s'.tables, d, jx).value !in roles'
    {
      assert Look(s.tables, d, jx) == Look(s'.tables, d, jx);
      assert Look(s.tables, d, jx).value !in roles'.Keys - roles.Keys;
    }
  }

  /** Mapping a page that was unmapped to a frame nobody has. */
  lemma PrivateMaps(ts: Tables, ts': Tables, roles: Roles, free: set<nat>, c: nat, ix: seq<nat>, f: nat)
    requires DataFrames(ts, roles, free + {f}) && Unshared(ts, roles) && f !in free && f !in roles && f != 0
    requires IsSpace(roles, c) && UserIx(ix) && OnlyChanged(ts, ts', roles, c, ix, Some(f))
    ensures DataFrames(ts', roles, free) && Unshared(ts', roles)
  {
    hide Look;
  }

  /** Unmapping a page and freeing its frame. */
  lemma PrivateUnmaps(ts: Tables, ts': Tables, roles: Roles, free: set<nat>, c: nat, ix: seq<nat>)
    requires DataFrames(ts, roles, free) && Unshared(ts, roles)
    requires IsSpace(roles, c) && UserIx(ix) && Look(ts, c, ix).Some? && OnlyChanged(ts, ts', roles, c, ix, None)
    ensures DataFrames(ts', roles, free + {Look(ts, c, ix).value}) && Unshared(ts', roles)
  {
    hide Look;
  }

  /** Giving back a frame that is neither free nor a table. */
  lemma FreeKeepsVm(s: Vm, roles: Roles, f: nat)
    requires VmOk(s, roles) && f !in roles && f != 0
    ensures var s' := s.(pool := Free(s.pool, f));
            && VmOk(s', roles) && s'.pool.total == s.pool.total
            && s'.pool.free == s.pool.free + if f < s.pool.total then {f} else {}
  {
    hide Forest;
  }

  // ---- the system calls ----

  function ZeroPage(): seq<byte> {
    seq(PAGE_SIZE, _ => 0)
  }

  /** The frame that unmapping a page gives back. */
  function Returned(x: Option<nat>, total: nat): set<nat> {
    if x.Some? && x.value < total then {x.value} else {}
  }

  /** A walk that creates nothing changes no translation and no frame. */
  lemma WalkOnly(s: Vm, roles: Roles, c: nat, ix: seq<nat>)
    requires VmOk(s, roles) && IsSpace(roles, c) && UserIx(ix)
    ensures var s' := Walk(s, c, ix, false, false).0;
            VmOk(s', roles) && SameLooks(s.tables, s'.tables, roles) && s'.pool == s.pool
  {
    hide VmOk, Look, Walk, Clear;
    UserIsClear(s, roles, c, ix);
    WalkExtends(s, roles, c, ix, false, false);
    ExtendsParts(s, roles, Walk(s, c, ix, false, false).0, roles);
  }

  lemma ChangedAfterSame(ts: Tables, ts1: Tables, ts2: Tables, roles: Roles, c: nat, ix: seq<nat>, v: Option<nat>)
    requires SameLooks(ts, ts1, roles) && OnlyChanged(ts1, ts2, roles, c, ix, v)
    ensures OnlyChanged(ts, ts2, roles, c, ix, v)
  {
    hide Look;
    forall d: nat, jx: seq<nat> | IsSpace(roles, d) && Ix(jx)
      ensures Look(ts2, d, jx) == if d == c && jx == ix then v else Look(ts, d, jx)
    {
      assert Look(ts1, d, jx) == Look(ts, d, jx);
    }
  }

  lemma SameIsUnchanged(ts: Tables, ts': Tables, roles: Roles, c: nat, ix: seq<nat>)
    requires SameLooks(ts, ts', roles) && Ix(ix)
    ensures OnlyChanged(ts, ts', roles, c, ix, Look(ts, c, ix))
  {
    hide Look;
  }

  /** One page of sys_munmap as a whole: translate, clear the entry, free the frame. */
  lemma UnmapOneEffect(s: Vm, roles: Roles, c: nat, ix: seq<nat>)
    requires VmOk(s, roles) && Private(s, roles) && IsSpace(roles, c) && UserIx(ix)
    ensures var x := Look(s.tables, c, ix);
            var s1 := Walk(s, c, ix, false, false).0;
            if x.None? then VmOk(s1, roles) && Private(s1, roles) && s1.pool == s.pool
                            && OnlyChanged(s.tables, s1.tables, roles, c, ix, None)
            else
              var s2 := UnmapIn(s1, c, ix);
              var s3 := s2.(pool := Free(s2.pool, x.value));
              && VmOk(s3, roles) && Private(s3, roles) && s3.pool.total == s.pool.total
              && s3.pool.free == s.pool.free + Returned(x, s.pool.total)
              && OnlyChanged(s.tables, s3.tables, roles, c, ix, None)
  {
    hide VmOk, Look, Walk, UnmapIn, Unshared, SameLooks, OnlyChanged;
    var x := Look(s.tables, c, ix);
    WalkOnly(s, roles, c, ix);
    var s1 := Walk(s, c, ix, false, false).0;
    SameIsUnchanged(s.tables, s1.tables, roles, c, ix);
    PrivateGrows(s, roles, s1, roles);
    if x.Some? {
      UnmapUser(s1, roles, c, ix);
      var s2 := UnmapIn(s1, c, ix);
      ChangedAfterSame(s.tables, s1.tables, s2.tables, roles, c, ix, None);
      PrivateUnmaps(s.tables, s2.tables, roles, s.pool.free, c, ix);
      assert x.value !in roles && x.value != 0;
      FreeKeepsVm(s2, roles, x.value);
    }
  }

  const RW := Flags(true, true)

  /** Allocation takes one free frame, never frame 0, and fails only when none is free. */
  lemma AllocTakes(s: Vm, roles: Roles)
    requires VmOk(s, roles)
    ensures var (p, r) := Alloc(s.pool);
            && VmOk(s.(pool := p), roles) && p.total == s.pool.total
            && (r.None? ==> p == s.pool && forall f | f in s.pool.free :: f >= s.pool.total)
            && (r.Some? ==> r.value in s.pool.free && r.value != 0 && r.value !in roles && r.value < p.total
                            && p.free == s.pool.free - {r.value})
  {
    hide Forest;
    AllocIsNearest(s.pool);
  }

  /** One page of sys_mmap as a whole: allocate, map, and on failure give the frame back. */
  lemma MapOneEffect(s: Vm, roles: Roles, c: nat, ix: seq<nat>)
    requires VmOk(s, roles) && Private(s, roles) && IsSpace(roles, c) && UserIx(ix) && Alloc(s.pool).1.Some?
    ensures var (p, r) := Alloc(s.pool);
            var s1 := s.(pool := p);
            var (s2, ok) := MapIn(s1, c, ix, r.value, RW);
            var roles' := WalkRoles(s1, roles, c, ix, true);
            var s' := if ok then s2 else s2.(pool := Free(s2.pool, r.value));
            var taken := (if ok then {r.value} else {}) + (roles'.Keys - roles.Keys);
            && VmOk(s', roles') && Private(s', roles') && GrowsTo(roles, roles')
            && s'.pool.total == s.pool.total && s'.pool.free == s.pool.free - taken && taken <= s.pool.free
            && r.value !in roles'
            && (ok ==> OnlyChanged(s.tables, s'.tables, roles, c, ix, Some(r.value)))
            && (!ok ==> SameLooks(s.tables, s'.tables, roles) && SpentBut(s'.pool, {r.value}))
  {
    hide VmOk, Look, MapIn, WalkRoles, Unshared, SameLooks, Alloc;
    AllocTakes(s, roles);
    var (p, r) := Alloc(s.pool);
    var f := r.value;
    var s1 := s.(pool := p);
    MapUser(s1, roles, c, ix, f, RW);
    var (s2, ok) := MapIn(s1, c, ix, f, RW);
    var roles' := WalkRoles(s1, roles, c, ix, true);
    if ok {
      MappedPrivate(s.tables, s2.tables, roles, roles', s.pool.free, s2.pool.free, c, ix, f);
    } else {
      PrivateGrows(s, roles, s2, roles');
      PrivateKeepsFrame(s, s2, roles, roles', f);
      FreeKeepsVm(s2, roles', f);
      assert s2.pool.free + {f} == s.pool.free - (roles'.Keys - roles.Keys);
    }
  }

  /** A page that sys_mmap, or the loader, has mapped: user code reaches it and can run it, and can write it unless an
      entry that was there before forbids it. */
  lemma PageIsOpen(s: Vm, roles: Roles, c: nat, ix: seq<nat>, f: nat)
    requires VmOk(s, roles) && IsSpace(roles, c) && UserIx(ix) && MapIn(s, c, ix, f, RW).1
    ensures var es, was := Entries(MapIn(s, c, ix, f, RW).0.tables, c, ix), Entries(s.tables, c, ix[..3]);
            && UserReaches(es) && CanRun(es)
            && (CanWrite(es) <==> forall i: nat | i < 3 && There(was, i) :: was[i].write)
  {
    hide VmOk, MapIn, Entries, UserReaches, CanRun, CanWrite;
    UserIsClear(s, roles, c, ix);
    MappedRights(s, roles, c, ix, f, RW);
  }

  lemma MappedPrivate(ts: Tables, ts': Tables, roles: Roles, roles': Roles, free: set<nat>, free': set<nat>, c: nat,
                      ix: seq<nat>, f: nat)
    requires DataFrames(ts, roles, free) && Unshared(ts, roles) && f in free && f !in roles && f != 0
    requires IsSpace(roles, c) && UserIx(ix) && OnlyChanged(ts, ts', roles, c, ix, Some(f)) && GrowsTo(roles, roles')
    requires free' == free - {f} - (roles'.Keys - roles.Keys) && roles'.Keys - roles.Keys <= free - {f}
    ensures DataFrames(ts', roles', free') && Unshared(ts', roles')
  {
    hide Look, Unshared;
    PrivateMaps(ts, ts', roles, free - {f}, c, ix, f);
    forall d: nat | IsSpace(roles', d) ensures IsSpace(roles, d) {}
    assert Unshared(ts', roles') by {
      UnsharedGrows(ts', roles, roles');
    }
    forall d: nat, jx: seq<nat> | IsSpace(roles', d) && UserIx(jx) && Look(ts', d, jx).Some?
      ensures Look(ts', d, jx).value !in roles'
    {
      assert Look(ts', d, jx).value !in free - {f};
      assert Look(ts', d, jx).value !in roles'.Keys - roles.Keys;
    }
  }

  lemma UnsharedGrows(ts: Tables, roles: Roles, roles': Roles)
    requires Unshared(ts, roles) && GrowsTo(roles, roles')
    ensures Unshared(ts, roles')
  {
    hide Look;
    forall d: nat | IsSpace(roles', d) ensures IsSpace(roles, d) {}
  }

  lemma PrivateKeepsFrame(s: Vm, s': Vm, roles: Roles, roles': Roles, f: nat)
    requires Private(s, roles) && Private(s', roles') && SameLooks(s.tables, s'.tables, roles) && GrowsTo(roles, roles')
    requires f in s.pool.free
    ensures DataFrames(s'.tables, roles', s'.pool.free + {f})
  {
    hide Look, Unshared;
    forall d: nat | IsSpace(roles', d) ensures IsSpace(roles, d) {}
    forall d: nat, jx: seq<nat> | IsSpace(roles', d) && UserIx(jx) && Look(s'.tables, d, jx).Some?
      ensures Look(s'.tables, d, jx).value != f
    {
      assert Look(s.tables, d, jx) == Look(s'.tables, d, jx);
    }
  }

  // ---- whole ranges ----

  function Nones(n: nat): (r: seq<Option<nat>>)
    ensures |r| == n
  {
    seq(n, _ => None)
  }

  function Somes(fs: seq<nat>): (r: seq<Option<nat>>)
    ensures |r| == |fs|
  {
    seq(|fs|, i requires 0 <= i < |fs| => Some(fs[i]))
  }

  /** The frames that the first n pages from start give back. */
  ghost function ReturnedAll(ts: Tables, c: nat, start: nat, n: nat, total: nat): set<nat> {
    if n == 0 then {}
    else ReturnedAll(ts, c, start, n - 1, total) + Returned(Look(ts, c, IxOf(start + (n - 1) * PAGE_SIZE)), total)
  }

  /** None of these pages is mapped. */
  ghost predicate Unmapped(ts: Tables, c: nat, start: nat, n: nat) {
    forall i | 0 <= i < n :: Look(ts, c, Paths(start, n)[i]) == None
  }

  function FrameSet(fs: seq<nat>): set<nat> {
    set f | f in fs
  }

  predicate NoDuplicates(fs: seq<nat>) {
    forall i, j | 0 <= i < j < |fs| :: fs[i] != fs[j]
  }

  /** What a range was remapped to is given back when the range is unmapped. */
  lemma {:induction false} RangeReturns(ts0: Tables, ts: Tables, roles: Roles, c: nat, start: nat, fs: seq<nat>,
                                        n: nat, total: nat)
    requires n <= |fs| && RangeIs(ts0, ts, roles, c, start, Somes(fs)) && forall f | f in fs :: f < total
    ensures ReturnedAll(ts, c, start, n, total) == FrameSet(fs[..n])
  {
    hide Look, IxOf;
    if n > 0 {
      RangeReturns(ts0, ts, roles, c, start, fs, n - 1, total);
      assert Look(ts, c, Paths(start, |fs|)[n - 1]) == Somes(fs)[n - 1];
      assert fs[..n] == fs[..n - 1] + [fs[n - 1]];
      assert fs[n - 1] in fs;
    }
  }

  /** A range changed twice is what it was changed to last. */
  lemma RangeOver(ts0: Tables, ts: Tables, ts': Tables, roles0: Roles, roles: Roles, c: nat, start: nat,
                  v: seq<Option<nat>>, w: seq<Option<nat>>)
    requires |v| == |w| && GrowsTo(roles0, roles)
    requires RangeIs(ts0, ts, roles0, c, start, v) && RangeIs(ts, ts', roles, c, start, w)
    ensures RangeIs(ts0, ts', roles0, c, start, w)
  {
    hide Look, IxOf;
    forall d: nat, jx: seq<nat> | IsSpace(roles0, d) && Ix(jx) && !(d == c && jx in Paths(start, |w|))
      ensures Look(ts', d, jx) == Look(ts0, d, jx)
    {
      assert IsSpace(roles, d);
    }
  }

  /** Clearing a range that had nothing mapped changes nothing. */
  lemma RangeRestored(ts0: Tables, ts: Tables, roles: Roles, c: nat, start: nat, n: nat)
    requires RangeIs(ts0, ts, roles, c, start, Nones(n)) && Unmapped(ts0, c, start, n)
    ensures SameLooks(ts0, ts, roles)
  {
    hide Look, IxOf;
    var ps := Paths(start, n);
    forall d: nat, jx: seq<nat> | IsSpace(roles, d) && Ix(jx)
      ensures Look(ts, d, jx) == Look(ts0, d, jx)
    {
      if d == c && jx in ps {
        var i :| 0 <= i < n && ps[i] == jx;
        assert Look(ts, c, ps[i]) == Nones(n)[i] && Look(ts0, c, ps[i]) == None;
      }
    }
  }

  lemma UnmappedPrefix(ts: Tables, c: nat, start: nat, k: nat, n: nat)
    requires k <= n && Unmapped(ts, c, start, n)
    ensures Unmapped(ts, c, start, k)
  {
    hide Look, IxOf;
    forall i | 0 <= i < k ensures Look(ts, c, Paths(start, k)[i]) == None {
      assert Paths(start, k)[i] == Paths(start, n)[i];
    }
  }

  function RoundUp(len: nat): nat {
    (len + (PAGE_SIZE - 1)) / PAGE_SIZE * PAGE_SIZE
  }

  /** Both calls' range test, on 64-bit sums that wrap. */
  predicate OutOfUserHalf(start: nat, bytes: nat) {
    var end := (start + bytes) % WORD;
    end > USER_HALF_MAX || end < start
  }

  lemma WrapsAreCaught(start: nat, bytes: nat)
    requires start < WORD && bytes < WORD
    ensures OutOfUserHalf(start, bytes) <==> start + bytes > USER_HALF_MAX
  {
  }

  lemma RoundedPages(len: nat)
    requires 0 < len < WORD / 2
    ensures RoundUp(len) == Pages(len) * PAGE_SIZE && len <= RoundUp(len) < len + PAGE_SIZE && RoundUp(len) < WORD
  {
  }

  function Pages(len: nat): nat {
    (len + (PAGE_SIZE - 1)) / PAGE_SIZE
  }

  /** The fewest pages that hold len bytes. */
  lemma PagesLeast(len: nat)
    ensures len <= Pages(len) * 4096 < len + 4096 && RoundUp(len) == Pages(len) * 4096
  {
  }

  // ---- out of memory ----

  /** At most the frames of keep can still be allocated. */
  predicate SpentBut(p: Pool, keep: set<nat>) {
    forall f | f in p.free && f < p.total :: f in keep
  }

  lemma SubsetSize(a: set<nat>, b: set<nat>)
    requires a <= b
    ensures |a| <= |b|
  {
    if a != {} {
      var x :| x in a;
      SubsetSize(a - {x}, b - {x});
    }
  }

  lemma FrameSetSize(fs: seq<nat>)
    ensures |FrameSet(fs)| <= |fs|
  {
    if fs != [] {
      var init := fs[..|fs| - 1];
      FrameSetSize(init);
      assert fs == init + [fs[|fs| - 1]];
      assert FrameSet(fs) == FrameSet(init) + {fs[|fs| - 1]};
    }
  }

  /** After the rollback there are no more frames than the range has pages. */
  lemma SpentSize(p: Pool, p': Pool, frame: nat, fs: seq<nat>)
    requires SpentBut(p, {frame}) && p'.total == p.total && p'.free == p.free + FrameSet(fs)
    ensures |Usable(p')| <= |fs| + 1
  {
    SubsetSize(Usable(p'), FrameSet(fs) + {frame});
    FrameSetSize(fs);
  }

  predicate Zeroed(data: map<nat, seq<byte>>, fs: seq<nat>) {
    forall f | f in fs :: f in data && data[f] == ZeroPage()
  }

  /** The free frames are what the n mapped pages and the new tables have left. */
  ghost predicate TakenOnly(free: set<nat>, free': set<nat>, fs: seq<nat>, tables: set<nat>) {
    && FrameSet(fs) + tables <= free && free' == free - FrameSet(fs) - tables
    && NoDuplicates(fs) && FrameSet(fs) !! tables
  }

  lemma TakenMore(free: set<nat>, free': set<nat>, free'': set<nat>, fs: seq<nat>, f: nat, tables: set<nat>,
                  more: set<nat>)
    requires TakenOnly(free, free', fs, tables) && f !in more
    requires {f} + more <= free' && free'' == free' - ({f} + more)
    ensures TakenOnly(free, free'', fs + [f], tables + more)
  {
    assert FrameSet(fs + [f]) == FrameSet(fs) + {f};
    forall i | 0 <= i < |fs| ensures fs[i] != f {
      assert fs[i] in FrameSet(fs);
    }
  }

  lemma TakenTables(free: set<nat>, free': set<nat>, free'': set<nat>, fs: seq<nat>, tables: set<nat>, more: set<nat>)
    requires TakenOnly(free, free', fs, tables) && more <= free' && free'' == free' - more
    ensures TakenOnly(free, free'', fs, tables + more)
  {
  }

  /** The rollback gives back the mapped frames and keeps the tables. */
  lemma TakenReturned(free: set<nat>, free': set<nat>, fs: seq<nat>, tables: set<nat>)
    requires TakenOnly(free, free', fs, tables)
    ensures TakenOnly(free, free' + FrameSet(fs), [], tables)
  {
    assert FrameSet([]) == {};
  }

  /** Bytes of frames outside these are as before. */
  predicate SameBytesBut(data: map<nat, seq<byte>>, data': map<nat, seq<byte>>, frames: set<nat>) {
    forall g | g in data && g !in frames :: g in data' && data'[g] == data[g]
  }

  function NewTables(roles: Roles, roles': Roles): set<nat> {
    roles'.Keys - roles.Keys
  }

  lemma GrowsRefl(roles: Roles)
    ensures GrowsTo(roles, roles)
  {
  }

  lemma SameLooksRefl(ts: Tables, roles: Roles)
    ensures SameLooks(ts, ts, roles)
  {
  }

  /** A user task: its address space, its mmap cursor, and the bytes of the data frames. */
  class Process {
    const mmu: PageTableManager
    const space: nat
    var mmapCur: nat
    var data: map<nat, seq<byte>>

    ghost predicate Valid()
      reads this, mmu, mmu.pmm, mmu.pmm.bitmap
    {
      mmu.Valid() && IsSpace(mmu.roles, space) && Private(mmu.Value(), mmu.roles) && mmapCur <= USER_HALF_MAX
    }

    constructor (mmu: PageTableManager, space: nat)
      requires mmu.Valid() && IsSpace(mmu.roles, space) && Private(mmu.Value(), mmu.roles)
      ensures Valid() && this.mmu == mmu && this.space == space
    {
      this.mmu, this.space, this.mmapCur, this.data := mmu, space, 0x4000_0000, map[];
    }

    /** One page of sys_munmap. */
    method UnmapOne(virt: nat)
      requires Valid() && virt <= USER_HALF_MAX && virt % PAGE_SIZE == 0
      modifies mmu, mmu.pmm, mmu.pmm.bitmap
      ensures Valid() && mmu.roles == old(mmu.roles) && mmu.root == old(mmu.root) && mmu.cr3 == old(mmu.cr3)
      ensures OnlyChanged(old(mmu.tables), mmu.tables, mmu.roles, space, IxOf(virt), None)
      ensures mmu.Value().pool.total == old(mmu.Value().pool.total)
      ensures mmu.Value().pool.free == old(mmu.Value().pool.free) +
                Returned(Look(old(mmu.tables), space, IxOf(virt)), old(mmu.Value().pool.total))
    {
      hide VmOk, Look, IxOf, FreeSet, Walk, UnmapIn, Private, OnlyChanged, Walkable;
      UserPath(virt);
      ghost var s := mmu.Value();
      UnmapOneEffect(s, mmu.roles, space, IxOf(virt));
      NonzeroFrame(s, mmu.roles, space, IxOf(virt));
      UserWalkable(mmu.State(), space, IxOf(virt));
      var phys := mmu.TranslateAddress(space, virt);
      if phys == 0 {
        return;
      }
      UserWalkable(mmu.State(), space, IxOf(virt));
      mmu.UnmapPageIn(space, virt);
      mmu.pmm.FreeFrame(phys);
    }

    /** The loop of sys_munmap. */
    method UnmapPages(start: nat, n: nat)
      requires Valid() && UserRange(start, n)
      modifies mmu, mmu.pmm, mmu.pmm.bitmap
      ensures Valid() && mmu.roles == old(mmu.roles) && mmu.root == old(mmu.root) && mmu.cr3 == old(mmu.cr3)
      ensures RangeIs(old(mmu.tables), mmu.tables, mmu.roles, space, start, Nones(n))
      ensures mmu.Value().pool.total == old(mmu.Value().pool.total)
      ensures mmu.Value().pool.free == old(mmu.Value().pool.free) +
                ReturnedAll(old(mmu.tables), space, start, n, old(mmu.Value().pool.total))
    {
      hide VmOk, Look, IxOf, FreeSet, Private, OnlyChanged, RangeIs, Returned;
      ghost var ts0, total := mmu.tables, mmu.Value().pool.total;
      RangeEmpty(ts0, mmu.roles, space, start);
      assert Nones(0) == [];
      var i := 0;
      while i < n
        invariant i <= n && Valid()
        invariant mmu.roles == old(mmu.roles) && mmu.root == old(mmu.root) && mmu.cr3 == old(mmu.cr3)
        invariant RangeIs(ts0, mmu.tables, mmu.roles, space, start, Nones(i))
        invariant mmu.Value().pool.total == total
        invariant mmu.Value().pool.free == old(mmu.Value().pool.free) + ReturnedAll(ts0, space, start, i, total)
      {
        ghost var ts := mmu.tables;
        RangeSkip(ts0, ts, mmu.roles, space, start, Nones(i));
        UnmapOne(start + i * PAGE_SIZE);
        GrowsRefl(mmu.roles);
        RangeSnoc(ts0, ts, mmu.tables, mmu.roles, mmu.roles, space, start, Nones(i), None);
        assert Nones(i) + [None] == Nones(i + 1);
        i := i + 1;
      }
    }

    /** sys_munmap. */
    method SysMunmap(addr: nat, len: int) returns (r: int)
      requires Valid() && addr < WORD && len < WORD / 2
      modifies mmu, mmu.pmm, mmu.pmm.bitmap
      ensures Valid() && mmu.roles == old(mmu.roles) && mmu.root == old(mmu.root) && mmu.cr3 == old(mmu.cr3)
      ensures mmu.Value().pool.total == old(mmu.Value().pool.total)
      ensures r == if len > 0 && UserRange(addr, Pages(len)) then 0 else -EINVAL
      ensures r != 0 ==> mmu.Value() == old(mmu.Value())
      ensures r == 0 ==> RangeIs(old(mmu.tables), mmu.tables, mmu.roles, space, addr, Nones(Pages(len)))
      ensures r == 0 ==> mmu.Value().pool.free == old(mmu.Value().pool.free) +
                           ReturnedAll(old(mmu.tables), space, addr, Pages(len), old(mmu.Value().pool.total))
    {
      hide VmOk, Look, IxOf, FreeSet, Private, OnlyChanged, RangeIs, ReturnedAll;
      if len <= 0 || addr % PAGE_SIZE != 0 {
        return -EINVAL;
      }
      RoundedPages(len);
      var bytes := RoundUp(len);
      WrapsAreCaught(addr, bytes);
      if OutOfUserHalf(addr, bytes) {
        return -EINVAL;
      }
      UnmapPages(addr, bytes / PAGE_SIZE);
      return 0;
    }

    /** One page of sys_mmap; frame is the one it mapped. */
    method MapOne(virt: nat) returns (ok: bool, ghost frame: nat)
      requires Valid() && virt <= USER_HALF_MAX && virt % PAGE_SIZE == 0
      modifies this`data, mmu, mmu.pmm, mmu.pmm.bitmap
      ensures Valid() && GrowsTo(old(mmu.roles), mmu.roles) && mmu.root == old(mmu.root) && mmu.cr3 == old(mmu.cr3)
      ensures mmu.Value().pool.total == old(mmu.Value().pool.total)
      ensures var taken := (if ok then {frame} else {}) + NewTables(old(mmu.roles), mmu.roles);
              taken <= old(mmu.Value().pool.free) && mmu.Value().pool.free == old(mmu.Value().pool.free) - taken
      ensures ok ==> && OnlyChanged(old(mmu.tables), mmu.tables, old(mmu.roles), space, IxOf(virt), Some(frame))
                     && frame < mmu.Value().pool.total && frame !in mmu.roles
                     && frame in data && data[frame] == ZeroPage()
      ensures !ok ==> SameLooks(old(mmu.tables), mmu.tables, old(mmu.roles)) && SpentBut(mmu.Value().pool, {frame})
      ensures SameBytesBut(old(data), data, old(mmu.Value().pool.free))
    {
      hide VmOk, Look, IxOf, FreeSet, Alloc, MapIn, WalkRoles, Private, OnlyChanged, SameLooks, Walkable;
      UserPath(virt);
      ghost var s := mmu.Value();
      AllocTakes(s, mmu.roles);
      frame := 0;
      var phys := mmu.pmm.AllocFrame();
      if phys == 0 {
        assert Alloc(s.pool).1.None? && mmu.Value() == s;
        assert NewTables(mmu.roles, mmu.roles) == {};
        SameLooksRefl(mmu.tables, mmu.roles);
        return false, 0;
      }
      frame := phys / PAGE_SIZE;
      MapOneEffect(s, mmu.roles, space, IxOf(virt));
      data := data[phys / PAGE_SIZE := ZeroPage()];
      UserWalkable(mmu.State(), space, IxOf(virt));
      var code := mmu.MapPageIn(space, virt, phys, RW);
      if code != 0 {
        mmu.pmm.FreeFrame(phys);
        return false, frame;
      }
      return true, frame;
    }

    /** The rollback of sys_mmap: sys_munmap of the pages mapped so far. */
    method RollBack(start: nat, ghost fs: seq<nat>, k: nat, ghost ts0: Tables, ghost roles0: Roles,
                    ghost free0: set<nat>)
      requires Valid() && UserRange(start, k) && |fs| == k && GrowsTo(roles0, mmu.roles) && IsSpace(roles0, space)
      requires RangeIs(ts0, mmu.tables, roles0, space, start, Somes(fs))
      requires forall f | f in fs :: f < mmu.Value().pool.total
      requires TakenOnly(free0, mmu.Value().pool.free, fs, NewTables(roles0, mmu.roles))
      modifies mmu, mmu.pmm, mmu.pmm.bitmap
      ensures Valid() && mmu.roles == old(mmu.roles) && mmu.root == old(mmu.root) && mmu.cr3 == old(mmu.cr3)
      ensures mmu.Value().pool.total == old(mmu.Value().pool.total)
      ensures RangeIs(ts0, mmu.tables, roles0, space, start, Nones(k))
      ensures TakenOnly(free0, mmu.Value().pool.free, [], NewTables(roles0, mmu.roles))
      ensures mmu.Value().pool.free == old(mmu.Value().pool.free) + FrameSet(fs)
    {
      hide VmOk, Look, IxOf, FreeSet, Private, RangeIs, ReturnedAll, TakenOnly;
      ghost var ts, free, total := mmu.tables, mmu.Value().pool.free, mmu.Value().pool.total;
      var r := SysMunmap(start, k * PAGE_SIZE);
      if k == 0 {
        assert fs == [] && Somes(fs) == Nones(k) && FrameSet(fs) == {};
      } else {
        assert Pages(k * PAGE_SIZE) == k;
        GrowsRefl(mmu.roles);
        RangeOver(ts0, ts, mmu.tables, roles0, mmu.roles, space, start, Somes(fs), Nones(k));
        RangeReturns(ts0, ts, roles0, space, start, fs, k, total);
        assert fs[..k] == fs;
        TakenReturned(free0, free, fs, NewTables(roles0, mmu.roles));
      }
    }

    /** The loop of sys_mmap: all n pages or none. */
    method MapPages(start: nat, n: nat) returns (ok: bool, ghost fs: seq<nat>)
      requires Valid() && UserRange(start, n)
      modifies this`data, mmu, mmu.pmm, mmu.pmm.bitmap
      ensures Valid() && GrowsTo(old(mmu.roles), mmu.roles) && mmu.root == old(mmu.root) && mmu.cr3 == old(mmu.cr3)
      ensures mmu.Value().pool.total == old(mmu.Value().pool.total)
      ensures TakenOnly(old(mmu.Value().pool.free), mmu.Value().pool.free, fs, NewTables(old(mmu.roles), mmu.roles))
      ensures SameBytesBut(old(data), data, old(mmu.Value().pool.free))
      ensures ok ==> |fs| == n && Zeroed(data, fs)
                     && RangeIs(old(mmu.tables), mmu.tables, old(mmu.roles), space, start, Somes(fs))
                     && forall f | f in fs :: f < mmu.Value().pool.total
      ensures !ok ==> fs == [] && Cleared(old(mmu.tables), mmu.tables, old(mmu.roles), space, start, n)
                      && |Usable(mmu.Value().pool)| <= n
    {
      hide VmOk, Look, IxOf, FreeSet, Private, OnlyChanged, RangeIs, TakenOnly, GrowsTo, SameLooks;
      ghost var s0, ts0, roles0 := mmu.Value(), mmu.tables, mmu.roles;
      RangeEmpty(ts0, roles0, space, start);
      GrowsRefl(roles0);
      TakenNone(s0.pool.free, roles0);
      fs := [];
      assert Somes(fs) == [];
      var i := 0;
      while i < n
        invariant i == |fs| <= n && Valid() && GrowsTo(roles0, mmu.roles)
        invariant mmu.root == old(mmu.root) && mmu.cr3 == old(mmu.cr3)
        invariant RangeIs(ts0, mmu.tables, roles0, space, start, Somes(fs))
        invariant mmu.Value().pool.total == s0.pool.total && forall f | f in fs :: f < s0.pool.total
        invariant TakenOnly(s0.pool.free, mmu.Value().pool.free, fs, NewTables(roles0, mmu.roles))
        invariant Zeroed(data, fs) && SameBytesBut(old(data), data, s0.pool.free)
      {
        label Before:
        var ok, frame := MapOne(start + i * PAGE_SIZE);
        GrewMore(roles0, old@Before(mmu.roles), mmu.roles);
        SameBytesTrans(old(data), old@Before(data), data, s0.pool.free, old@Before(mmu.Value().pool.free), fs,
                       NewTables(roles0, old@Before(mmu.roles)));
        ghost var more := NewTables(old@Before(mmu.roles), mmu.roles);
        if !ok {
          RangeSame(ts0, old@Before(mmu.tables), mmu.tables, roles0, old@Before(mmu.roles), space, start, Somes(fs));
          TakenTables(s0.pool.free, old@Before(mmu.Value().pool.free), mmu.Value().pool.free, fs,
              NewTables(roles0, old@Before(mmu.roles)), more);
          ghost var spent := mmu.Value().pool;
          RollBack(start, fs, i, ts0, roles0, s0.pool.free);
          SpentSize(spent, mmu.Value().pool, frame, fs);
          return false, [];
        }
        RangeSnoc(ts0, old@Before(mmu.tables), mmu.tables, roles0, old@Before(mmu.roles), space, start, Somes(fs),
            Some(frame));
        TakenMore(s0.pool.free, old@Before(mmu.Value().pool.free), mmu.Value().pool.free, fs, frame,
            NewTables(roles0, old@Before(mmu.roles)), more);
        assert Somes(fs) + [Some(frame)] == Somes(fs + [frame]);
        fs := fs + [frame];
        i := i + 1;
      }
      return true, fs;
    }

    /** sys_mmap: the whole range, zeroed and private, or -ENOMEM with every frame back but the new tables. */
    method SysMmap(addr: nat, len: int, flags: nat) returns (r: int, ghost fs: seq<nat>)
      requires Valid() && addr < WORD && len < WORD / 2
      modifies this`data, this`mmapCur, mmu, mmu.pmm, mmu.pmm.bitmap
      ensures Valid() && GrowsTo(old(mmu.roles), mmu.roles) && mmu.root == old(mmu.root) && mmu.cr3 == old(mmu.cr3)
      ensures mmu.Value().pool.total == old(mmu.Value().pool.total)
      ensures TakenOnly(old(mmu.Value().pool.free), mmu.Value().pool.free, fs, NewTables(old(mmu.roles), mmu.roles))
      ensures SameBytesBut(old(data), data, old(mmu.Value().pool.free))
      ensures var start := if addr == 0 then old(mmapCur) else addr;
              && (len <= 0 || !Anonymous(flags) || start % PAGE_SIZE != 0 ==> r == -EINVAL)
              && (len > 0 && Anonymous(flags) && start % PAGE_SIZE == 0 ==>
                    r == -ENOMEM || (r == start && UserRange(start, Pages(len))))
              && (r == -ENOMEM && UserRange(start, Pages(len)) ==>
                    && Cleared(old(mmu.tables), mmu.tables, old(mmu.roles), space, start, Pages(len))
                    && |Usable(mmu.Value().pool)| <= Pages(len))
              && (r == -EINVAL || !UserRange(start, Pages(len)) ==> mmu.Value() == old(mmu.Value()))
              && (r >= 0 ==>
                    && |fs| == Pages(len) && Zeroed(data, fs) && (forall f | f in fs :: f < mmu.Value().pool.total)
                    && mmapCur == start + RoundUp(len)
                    && RangeIs(old(mmu.tables), mmu.tables, old(mmu.roles), space, start, Somes(fs)))
      ensures r < 0 ==> fs == [] && mmapCur == old(mmapCur)
    {
      hide VmOk, Look, IxOf, FreeSet, Private, OnlyChanged, RangeIs, TakenOnly, GrowsTo, SameLooks, Cleared,
           SameBytesBut, Zeroed;
      GrowsRefl(mmu.roles);
      TakenNone(mmu.Value().pool.free, mmu.roles);
      SameBytesRefl(data, mmu.Value().pool.free);
      if len <= 0 {
        return -EINVAL, [];
      }
      if !Anonymous(flags) {
        return -EINVAL, [];
      }
      var start := if addr == 0 then mmapCur else addr;
      if start % PAGE_SIZE != 0 {
        return -EINVAL, [];
      }
      RoundedPages(len);
      var bytes := RoundUp(len);
      WrapsAreCaught(start, bytes);
      if OutOfUserHalf(start, bytes) {
        return -ENOMEM, [];
      }
      var ok;
      ok, fs := MapPages(start, bytes / PAGE_SIZE);
      if !ok {
        return -ENOMEM, [];
      }
      mmapCur := start + bytes;
      return start, fs;
    }

    /** What sys_mmap put into an unmapped range, sys_munmap takes out again: every translation is
        as it was and every frame is back but those of the tables the mapping needed. */
    method MapThenUnmap(addr: nat, len: int, flags: nat) returns (r: int)
      requires Valid() && addr < WORD && len < WORD / 2
      requires len > 0 ==>
        var start := if addr == 0 then mmapCur else addr; Unmapped(mmu.tables, space, start, Pages(len))
      modifies this`data, this`mmapCur, mmu, mmu.pmm, mmu.pmm.bitmap
      ensures Valid() && SameLooks(old(mmu.tables), mmu.tables, old(mmu.roles))
      ensures mmu.Value().pool.free == old(mmu.Value().pool.free) - NewTables(old(mmu.roles), mmu.roles)
    {
      hide VmOk, Look, IxOf, FreeSet, Private, OnlyChanged, RangeIs, GrowsTo, SameLooks, Unmapped;
      ghost var ts0, roles0, free0 := mmu.tables, mmu.roles, mmu.Value().pool.free;
      ghost var cur := if addr == 0 then mmapCur else addr;
      ghost var fs;
      r, fs := SysMmap(addr, len, flags);
      assert FrameSet([]) == {};
      SameLooksRefl(ts0, roles0);
      if r < 0 {
        if r == -ENOMEM && len > 0 && UserRange(cur, Pages(len)) {
          ClearedUnmapped(ts0, mmu.tables, roles0, space, cur, Pages(len));
        }
        return;
      }
      ghost var ts1, roles1, free1 := mmu.tables, mmu.roles, mmu.Value().pool.free;
      var u := SysMunmap(r, len);
      RangeOver(ts0, ts1, mmu.tables, roles0, roles1, space, cur, Somes(fs), Nones(Pages(len)));
      RangeRestored(ts0, mmu.tables, roles0, space, cur, Pages(len));
      RangeReturns(ts0, ts1, roles0, space, cur, fs, Pages(len), mmu.Value().pool.total);
      assert fs[..Pages(len)] == fs;
      TakenReturned(free0, free1, fs, NewTables(roles0, roles1));
    }
  }

  predicate Anonymous(flags: nat) {
    flags / MAP_ANONYMOUS % 2 == 1
  }

  /** Bit 5 of the flags. */
  lemma AnonymousIs(flags: nat)
    ensures Anonymous(flags) <==> 32 <= flags % 64
  {
  }

  lemma SameBytesRefl(data: map<nat, seq<byte>>, frames: set<nat>)
    ensures SameBytesBut(data, data, frames)
  {
  }

  /** A failed mmap of an unmapped range changes no translation. */
  lemma ClearedUnmapped(ts0: Tables, ts: Tables, roles: Roles, c: nat, start: nat, n: nat)
    requires Cleared(ts0, ts, roles, c, start, n) && Unmapped(ts0, c, start, n)
    ensures SameLooks(ts0, ts, roles)
  {
    hide Look, IxOf, RangeIs, Unmapped, SameLooks;
    var k: nat :| k < n && RangeIs(ts0, ts, roles, c, start, Nones(k));
    UnmappedPrefix(ts0, c, start, k, n);
    RangeRestored(ts0, ts, roles, c, start, k);
  }

  lemma TakenNone(free: set<nat>, roles: Roles)
    ensures TakenOnly(free, free, [], NewTables(roles, roles))
  {
    assert FrameSet([]) == {};
  }

  lemma GrewMore(roles0: Roles, roles: Roles, roles': Roles)
    requires GrowsTo(roles0, roles) && GrowsTo(roles, roles')
    ensures GrowsTo(roles0, roles')
    ensures NewTables(roles0, roles') == NewTables(roles0, roles) + NewTables(roles, roles')
  {
  }

  lemma SameBytesTrans(d0: map<nat, seq<byte>>, d1: map<nat, seq<byte>>, d2: map<nat, seq<byte>>,
                       free0: set<nat>, free1: set<nat>, fs: seq<nat>, tables: set<nat>)
    requires SameBytesBut(d0, d1, free0) && SameBytesBut(d1, d2, free1) && TakenOnly(free0, free1, fs, tables)
    requires Zeroed(d1, fs)
    ensures SameBytesBut(d0, d2, free0) && Zeroed(d2, fs)
  {
    forall f | f in fs ensures f in d2 && d2[f] == ZeroPage() {
      assert f in FrameSet(fs);
    }
  }

  /** Nothing changed but that some first pages of the range are unmapped. */
  ghost predicate Cleared(ts0: Tables, ts: Tables, roles: Roles, c: nat, start: nat, n: nat) {
    exists k: nat | k < n :: RangeIs(ts0, ts, roles, c, start, Nones(k))
  }

  lemma NonzeroFrame(s: Vm, roles: Roles, c: nat, ix: seq<nat>)
    requires Private(s, roles) && IsSpace(roles, c) && UserIx(ix)
    ensures Look(s.tables, c, ix) != Some(0)
  {
  }
}
