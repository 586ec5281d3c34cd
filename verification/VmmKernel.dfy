/** kernel/mm/vmm.c as the kernel runs it: page-table entries, the current and root spaces
    and the frame allocator updated in place. */
module VmmKernel {
  import opened Base
  import opened Pmm
  import opened PageTables
  import opened Vmm
  import opened AddressSpaces
  import opened VirtualAddresses

  class PageTableManager {
    const pmm: FrameAllocator
    var tables: Tables
    var root: nat
    var cr3: nat
    ghost var roles: Roles

    ghost function Value(): Vm
      requires pmm.Valid()
      reads this, pmm, pmm.bitmap
    {
      Vm(tables, pmm.Value())
    }

    ghost function State(): World
      requires pmm.Valid()
      reads this, pmm, pmm.bitmap
    {
      World(Value(), roles, root, cr3)
    }

    ghost predicate Valid()
      reads this, pmm, pmm.bitmap
    {
      pmm.Valid() && WorldOk(State())
    }

    /** vmm_init: the boot loader's tables become the root space. */
    constructor (pmm: FrameAllocator, tables: Tables, root: nat, ghost roles: Roles)
      requires pmm.Valid() && VmOk(Vm(tables, pmm.Value()), roles) && IsSpace(roles, root)
      ensures Valid() && this.pmm == pmm && State() == World(Vm(tables, pmm.Value()), roles, root, root)
    {
      this.pmm := pmm;
      this.tables, this.root, this.cr3, this.roles := tables, root, root, roles;
    }

    /** table_fetch on entry k of table f. */
    method TableFetch(f: nat, k: nat, create: bool) returns (g: Option<nat>)
      requires pmm.Valid() && TableAt(tables, f) && k < ENTRIES && f !in pmm.Value().free
      modifies this`tables, pmm, pmm.bitmap
      ensures pmm.Valid() && (Value(), g) == Fetch(old(Value()), f, k, create)
    {
      hide FreeSet, Alloc;
      if tables[f][k].present {
        return Some(tables[f][k].frame);
      }
      if !create {
        return None;
      }
      ghost var pool := pmm.Value();
      var phys := pmm.AllocFrame();
      AllocFromFree(pool);
      if phys == 0 {
        return None;
      }
      var frame := phys / FRAME_SIZE;
      tables := tables[frame := EmptyTable()];
      tables := tables[f := tables[f][k := TableEntry(frame)]];
      return Some(frame);
    }

    /** table_fetch at one level of a walk along p, keeping the forest. */
    method Level(f: nat, k: nat, create: bool, ghost p: seq<nat>) returns (g: Option<nat>)
      requires pmm.Valid() && VmOk(Value(), roles) && f in roles
      requires PathOk(p) && p != [] && p[0] == k && |roles[f].path| + |p| <= 3 && ClearPath(tables, f, p)
      modifies this`tables, this`roles, pmm, pmm.bitmap
      ensures pmm.Valid() && VmOk(Value(), roles)
      ensures Extends(old(Value()), old(roles), Value(), roles)
      ensures g.None? ==>
        && Reach(old(Value()), f, p, create) == (Value(), None)
        && ReachRoles(old(Value()), old(roles), f, p, create) == roles
      ensures g.Some? ==>
        && TableAt(tables, f) && EntryFrame(tables[f][k]) == g && !tables[f][k].ps && ClearPath(tables, g.value, p[1..])
        && g.value in roles && |roles[g.value].path| == |old(roles)[f].path| + 1
        && Reach(old(Value()), f, p, create) == Reach(Value(), g.value, p[1..], create)
        && ReachRoles(old(Value()), old(roles), f, p, create) == ReachRoles(Value(), roles, g.value, p[1..], create)
    {
      hide FreeSet, Fetch, FetchRoles, Forest, Extends, Reach, ReachRoles;
      ghost var s := Value();
      VmTable(s, roles, f);
      FetchExtends(s, roles, f, k, create);
      FetchPlace(s, roles, f, k, create);
      FetchClear(s, roles, f, p, create);
      ReachUnfolds(s, roles, f, p, create);
      ghost var roles' := FetchRoles(s, roles, f, k, create);
      g := TableFetch(f, k, create);
      roles := roles';
    }

    /** The last lines of walk_pt: clear NX and propagate U/S on one upper entry. */
    method TouchEntry(f: nat, k: nat, user: bool)
      requires TableAt(tables, f) && k < ENTRIES
      modifies this`tables
      ensures tables == TouchAt(old(tables), f, k, user)
    {
      var e := tables[f][k].(nx := false);
      if user {
        e := e.(user := true);
      }
      tables := tables[f := tables[f][k := e]];
    }

    /** The three table levels of walk_pt. */
    method Levels(c: nat, i4: nat, i3: nat, i2: nat, create: bool, ghost ix: seq<nat>)
      returns (pt: Option<nat>, pdpt: nat, pd: nat)
      requires Valid() && Walkable(State(), c, ix) && i4 == ix[0] && i3 == ix[1] && i2 == ix[2]
      modifies this`tables, this`roles, pmm, pmm.bitmap
      ensures pmm.Valid() && (Value(), pt) == Reach(old(Value()), c, ix[..3], create)
      ensures roles == WalkRoles(old(Value()), old(roles), c, ix, create)
      ensures pt.Some? ==> Entered(tables, c, pdpt, pd, i4, i3)
    {
      hide FreeSet, VmOk, Extends, Reach, ReachRoles, ClearPath;
      pdpt, pd := 0, 0;
      ghost var p := ix[..3];
      pt := Level(c, i4, create, p);
      if pt.None? {
        return;
      }
      pdpt := pt.value;
      ghost var s1, r1 := Value(), roles;
      pt := Level(pdpt, i3, create, p[1..]);
      if pt.None? {
        return;
      }
      pd := pt.value;
      ghost var s2, r2 := Value(), roles;
      pt := Level(pd, i2, create, p[1..][1..]);
      if pt.None? {
        return;
      }
      ReachEnds(Value(), roles, pt.value, create);
      assert p[1..][1..][1..] == [];
      ExtendsKeepsRole(old(Value()), old(roles), s1, r1, c);
      WalkTables(c, s1, r1, pdpt, s2, r2, pd, Value(), roles, pt.value, i4, i3, i2);
    }

    /** Clear NX and propagate U/S on the three upper entries of a walk. */
    method TouchAll(c: nat, pdpt: nat, pd: nat, i4: nat, i3: nat, i2: nat, user: bool)
      requires i4 < ENTRIES && i3 < ENTRIES && i2 < ENTRIES && Entered(tables, c, pdpt, pd, i4, i3)
      modifies this`tables
      ensures tables == TouchPath(old(tables), c, [i4, i3, i2], user)
    {
      hide TouchPath;
      TouchPathUnfolds(tables, c, pdpt, pd, i4, i3, i2, user);
      TouchEntry(c, i4, user);
      TouchEntry(pdpt, i3, user);
      TouchEntry(pd, i2, user);
    }

    /** walk_pt: the leaf table for virt in space c. */
    method WalkPt(c: nat, virt: nat, create: bool, user: bool) returns (t: Option<nat>)
      requires Valid() && Walkable(State(), c, IxOf(virt))
      modifies this`tables, this`roles, pmm, pmm.bitmap
      ensures pmm.Valid() && (Value(), t) == Walk(old(Value()), c, IxOf(virt), create, user)
      ensures roles == WalkRoles(old(Value()), old(roles), c, IxOf(virt), create)
    {
      var i4 := (virt / 0x80_0000_0000) % 512;
      var i3 := (virt / 0x4000_0000) % 512;
      var i2 := (virt / 0x20_0000) % 512;
      ghost var ix := IxOf(virt);
      assert ix[0] == i4 && ix[1] == i3 && ix[2] == i2 && ix[..3] == [i4, i3, i2];
      hide FreeSet, VmOk, IxOf, Reach, WalkRoles, TouchPath, Forest, Clear;
      var pdpt, pd;
      t, pdpt, pd := Levels(c, i4, i3, i2, create, ix);
      if t.Some? {
        TouchAll(c, pdpt, pd, i4, i3, i2, user);
      }
    }

    /** vmm_space_clone: 0 when no frame is left. */
    method SpaceClone() returns (phys: nat)
      requires Valid()
      modifies this`tables, this`roles, pmm, pmm.bitmap
      ensures Valid() && State() == CloneStep(old(State()))
      ensures TableAt(old(tables), root)
      ensures phys == Phys(Clone(old(Value()), root).1)
    {
      hide FreeSet, Alloc, Forest;
      ghost var s, w := Value(), State();
      VmTable(s, roles, root);
      CloneCovered(w, 0);
      AllocFromFree(s.pool);
      phys := pmm.AllocFrame();
      ghost var r := Alloc(s.pool).1;
      assert phys == 0 <==> r.None? || r.value == 0;
      if phys == 0 {
        assert State() == CloneStep(w);
        return;
      }
      var frame := phys / FRAME_SIZE;
      assert r == Some(frame);
      var copy := EmptyTable();
      for i := KERNEL_HALF to ENTRIES
        invariant |copy| == ENTRIES && copy[..KERNEL_HALF] == EmptyTable()[..KERNEL_HALF]
        invariant copy[KERNEL_HALF..i] == tables[root][KERNEL_HALF..i]
      {
        copy := copy[i := tables[root][i]];
        assert copy[KERNEL_HALF..i + 1] == copy[KERNEL_HALF..i] + [copy[i]];
      }
      assert copy == copy[..KERNEL_HALF] + copy[KERNEL_HALF..];
      assert copy == ClonedTable(tables[root]);
      tables := tables[frame := copy];
      roles := CloneRoles(roles, Some(frame));
    }

    method SpaceSwitch(c: nat)
      requires Valid() && IsSpace(roles, c)
      modifies this`cr3
      ensures Valid() && State() == old(State()).(cr3 := c)
    {
      if c == cr3 {
        return;
      }
      cr3 := c;
    }

    method MapPageIn(c: nat, virt: nat, phys: nat, flags: Flags) returns (code: int)
      requires Valid() && (virt % PAGE_SIZE == 0 && phys % PAGE_SIZE == 0 ==> Walkable(State(), c, IxOf(virt)))
      modifies this`tables, this`roles, pmm, pmm.bitmap
      ensures Valid()
      ensures if virt % PAGE_SIZE != 0 || phys % PAGE_SIZE != 0 then code == -1 && State() == old(State())
              else State() == MapStep(old(State()), c, IxOf(virt), phys / PAGE_SIZE, flags)
                   && code == if MapIn(old(Value()), c, IxOf(virt), phys / PAGE_SIZE, flags).1 then 0 else -1
    {
      hide FreeSet, VmOk, IxOf, Walk, WalkRoles, Extends, Forest, IsSpace, Walkable;
      if virt % PAGE_SIZE != 0 || phys % PAGE_SIZE != 0 {
        return -1;
      }
      var ix := IxOf(virt);
      MapStepOk(State(), c, ix, phys / PAGE_SIZE, flags);
      var t := WalkPt(c, virt, true, flags.user);
      if t.None? || t.value !in tables || |tables[t.value]| != ENTRIES {
        return -1;
      }
      tables := tables[t.value := tables[t.value][ix[3] := LeafEntry(phys / PAGE_SIZE, flags)]];
      return 0;
    }

    /** Kernel-half pages go to the root space, user pages to the loaded one. */
    method MapPage(virt: nat, phys: nat, flags: Flags) returns (code: int)
      requires Valid()
      requires virt % PAGE_SIZE == 0 && phys % PAGE_SIZE == 0 ==>
        Walkable(State(), TargetSpace(State(), virt), IxOf(virt))
      modifies this`tables, this`roles, pmm, pmm.bitmap
      ensures Valid()
      ensures virt % PAGE_SIZE == 0 && phys % PAGE_SIZE == 0 ==>
        && State() == MapStep(old(State()), TargetSpace(old(State()), virt), IxOf(virt), phys / PAGE_SIZE, flags)
        && code == (if MapIn(old(Value()), TargetSpace(old(State()), virt), IxOf(virt), phys / PAGE_SIZE, flags).1
                    then 0 else -1)
      ensures virt % PAGE_SIZE != 0 || phys % PAGE_SIZE != 0 ==> State() == old(State()) && code == -1
    {
      hide VmOk, IxOf, MapIn, WalkRoles, Walkable;
      var c := if virt >= KERNEL_HALF_BASE then root else cr3;
      code := MapPageIn(c, virt, phys, flags);
    }

    method UnmapPageIn(c: nat, virt: nat)
      requires Valid() && Walkable(State(), c, IxOf(virt))
      modifies this`tables, this`roles, pmm, pmm.bitmap
      ensures Valid() && State() == old(State()).(vm := UnmapIn(old(Value()), c, IxOf(virt)))
    {
      hide FreeSet, VmOk, IxOf, Walk, WalkRoles, Extends, Clear;
      var ix := IxOf(virt);
      UnmapOk(State(), c, ix);
      var t := WalkPt(c, virt, false, false);
      if t.None? || t.value !in tables || |tables[t.value]| != ENTRIES {
        return;
      }
      tables := tables[t.value := tables[t.value][ix[3] := NoEntry]];
    }

    method UnmapPage(virt: nat)
      requires Valid() && Walkable(State(), TargetSpace(State(), virt), IxOf(virt))
      modifies this`tables, this`roles, pmm, pmm.bitmap
      ensures Valid()
      ensures State() == old(State()).(vm := UnmapIn(old(Value()), TargetSpace(old(State()), virt), IxOf(virt)))
    {
      hide VmOk, IxOf, UnmapIn;
      var c := if virt >= KERNEL_HALF_BASE then root else cr3;
      UnmapPageIn(c, virt);
    }

    /** vmm_translate_in: 0 when the address is not mapped. */
    method TranslateAddress(c: nat, virt: nat) returns (phys: nat)
      requires Valid() && Walkable(State(), c, IxOf(virt))
      modifies this`tables, this`roles, pmm, pmm.bitmap
      ensures Valid() && State() == old(State()).(vm := Walk(old(Value()), c, IxOf(virt), false, false).0)
      ensures phys == match Translate(old(tables), c, virt) { case None => 0 case Some(a) => a }
    {
      hide FreeSet, VmOk, IxOf, Walk, WalkRoles, Extends, Clear;
      var ix := IxOf(virt);
      TranslateOk(State(), c, ix);
      var t := WalkPt(c, virt, false, false);
      if t.None? || t.value !in tables || |tables[t.value]| != ENTRIES || !tables[t.value][ix[3]].present {
        return 0;
      }
      return tables[t.value][ix[3]].frame * PAGE_SIZE + virt % PAGE_SIZE;
    }

    /** vmm_reserve_tables over [virt, virt + bytes). */
    method ReserveTables(virt: nat, bytes: nat)
      requires Valid() && AllWalkable(State(), RegionPaths(virt, bytes))
      modifies this`tables, this`roles, pmm, pmm.bitmap
      ensures Valid() && State() == ReserveRegion(old(State()), virt, bytes)
    {
      hide FreeSet, IxOf, Walk, WalkRoles, WorldOk, ReserveOne, Walkable;
      var page := PageDown(virt);
      var last := PageDown(virt + bytes + PAGE_SIZE - 1);
      ghost var first := page;
      while page < last
        invariant Valid() && AllWalkable(State(), PagePaths(page, last))
        invariant Reserve(State(), PagePaths(page, last)) == Reserve(old(State()), PagePaths(first, last))
      {
        ghost var rest := PagePaths(page, last);
        assert rest[0] == IxOf(page) && rest[1..] == PagePaths(page + PAGE_SIZE, last);
        ReserveOneIs(State(), IxOf(page), rest[1..]);
        var t := WalkPt(root, page, true, false);
        page := page + PAGE_SIZE;
      }
    }
  }

  lemma ReserveOneIs(w: World, ix: seq<nat>, pages: seq<seq<nat>>)
    requires WorldOk(w) && Walkable(w, w.root, ix) && AllWalkable(w, pages)
    ensures ReserveOne(w, ix) ==
            w.(vm := Walk(w.vm, w.root, ix, true, false).0, roles := WalkRoles(w.vm, w.roles, w.root, ix, true))
    ensures WorldOk(ReserveOne(w, ix)) && AllWalkable(ReserveOne(w, ix), pages)
  {
    ReserveOneCarries(w, ix);
    StaysWalkable(w, ReserveOne(w, ix), pages);
  }

  lemma MapStepOk(w: World, c: nat, ix: seq<nat>, frame: nat, flags: Flags)
    requires WorldOk(w) && Walkable(w, c, ix)
    ensures WorldOk(MapStep(w, c, ix, frame, flags))
  {
    MapStepCarries(w, c, ix, frame, flags);
  }

  lemma UnmapOk(w: World, c: nat, ix: seq<nat>)
    requires WorldOk(w) && Walkable(w, c, ix)
    ensures WorldOk(w.(vm := UnmapIn(w.vm, c, ix))) && WalkRoles(w.vm, w.roles, c, ix, false) == w.roles
  {
    UnmapCarries(w, c, ix);
    WalkExtends(w.vm, w.roles, c, ix, false, false);
  }

  /** A walk that creates nothing finds the entry that the translation is defined by. */
  lemma TranslateOk(w: World, c: nat, ix: seq<nat>)
    requires WorldOk(w) && Walkable(w, c, ix)
    ensures var (vm, t) := Walk(w.vm, c, ix, false, false);
            && WorldOk(w.(vm := vm)) && WalkRoles(w.vm, w.roles, c, ix, false) == w.roles
            && Look(w.vm.tables, c, ix) ==
               if t.Some? && TableAt(vm.tables, t.value) then EntryFrame(vm.tables[t.value][ix[3]]) else None
  {
    hide VmOk, Walk, Descend, WalkRoles, LargeLook, ClearPath;
    TranslateCarries(w, c, ix);
    ClearLook(w.vm.tables, c, ix);
    KeepsClear(w.vm.tables, Walk(w.vm, c, ix, false, false).0.tables, w.roles, c, ix);
    ClearLook(Walk(w.vm, c, ix, false, false).0.tables, c, ix);
    WalkExtends(w.vm, w.roles, c, ix, false, false);
    var (vm, t) := Walk(w.vm, c, ix, false, false);
    ExtendsParts(w.vm, w.roles, vm, w.roles);
    assert Look(vm.tables, c, ix) == Look(w.vm.tables, c, ix);
  }

  /** The index paths of the pages in [first, last). */
  function PagePaths(first: nat, last: nat): (r: seq<seq<nat>>)
    ensures forall i | 0 <= i < |r| :: Ix(r[i])
    decreases last - first
  {
    if first >= last then [] else [IxOf(first)] + PagePaths(first + PAGE_SIZE, last)
  }

  /** Walk the root space on every page that [virt, virt + bytes) touches. */
  ghost function ReserveRegion(w: World, virt: nat, bytes: nat): World
    requires WorldOk(w) && AllWalkable(w, RegionPaths(virt, bytes))
  {
    Reserve(w, RegionPaths(virt, bytes))
  }

  /** The index paths of the pages that [virt, virt + bytes) touches. */
  function RegionPaths(virt: nat, bytes: nat): (r: seq<seq<nat>>)
    ensures forall i | 0 <= i < |r| :: Ix(r[i])
  {
    PagePaths(PageDown(virt), PageDown(virt + bytes + PAGE_SIZE - 1))
  }

  /** v & ~(PAGE_SIZE - 1) */
  function PageDown(v: nat): nat {
    v - v % PAGE_SIZE
  }

  /** Entry i4 of c leads to pdpt and entry i3 of pdpt leads to pd, three different tables. */
  ghost predicate Entered(ts: Tables, c: nat, pdpt: nat, pd: nat, i4: nat, i3: nat) {
    && i4 < ENTRIES && i3 < ENTRIES
    && c != pdpt && c != pd && pdpt != pd && TableAt(ts, pd)
    && TableAt(ts, c) && EntryFrame(ts[c][i4]) == Some(pdpt)
    && TableAt(ts, pdpt) && EntryFrame(ts[pdpt][i3]) == Some(pd)
  }

  lemma AllocFromFree(p: Pool)
    ensures var r := Alloc(p).1; r.Some? ==> r.value in p.free && r.value < p.total
  {
  }

  lemma ReachUnfolds(s: Vm, roles: Roles, f: nat, p: seq<nat>, create: bool)
    requires PathOk(p) && p != [] && VmOk(s, roles) && f in roles && |roles[f].path| + |p| <= 3
    requires ClearPath(s.tables, f, p)
    ensures TableAt(s.tables, f)
    ensures var (s1, r) := Fetch(s, f, p[0], create);
            var roles1 := FetchRoles(s, roles, f, p[0], create);
            if r.None? then Reach(s, f, p, create) == (s1, r) && ReachRoles(s, roles, f, p, create) == roles1
            else
              && VmOk(s1, roles1) && r.value in roles1 && |roles1[r.value].path| + |p| - 1 <= 3
              && ClearPath(s1.tables, r.value, p[1..])
              && Reach(s, f, p, create) == Reach(s1, r.value, p[1..], create)
              && ReachRoles(s, roles, f, p, create) == ReachRoles(s1, roles1, r.value, p[1..], create)
  {
    hide Fetch, FetchRoles, Forest;
    VmTable(s, roles, f);
    FetchPlace(s, roles, f, p[0], create);
    FetchClear(s, roles, f, p, create);
    assert Fetch(s, f, p[0], create).1.None? ==> Reach(s, f, p, create).1.None?;
  }

  lemma ReachEnds(s: Vm, roles: Roles, f: nat, create: bool)
    requires VmOk(s, roles) && f in roles && |roles[f].path| <= 3
    ensures Reach(s, f, [], create) == (s, Some(f)) && ReachRoles(s, roles, f, [], create) == roles
  {
  }

  /** The three entries a walk went through still lead to the tables it found. */
  lemma WalkTables(c: nat, s1: Vm, r1: Roles, pdpt: nat, s2: Vm, r2: Roles, pd: nat,
                   s3: Vm, r3: Roles, pt: nat, i4: nat, i3: nat, i2: nat)
    requires c in r1 && r1[c].path == [] && i4 < ENTRIES && i3 < ENTRIES && i2 < ENTRIES
    requires pdpt in r1 && |r1[pdpt].path| == 1 && pd in r2 && |r2[pd].path| == 2
    requires TableAt(s1.tables, c) && EntryFrame(s1.tables[c][i4]) == Some(pdpt) && !s1.tables[c][i4].ps
    requires TableAt(s2.tables, pdpt) && EntryFrame(s2.tables[pdpt][i3]) == Some(pd) && !s2.tables[pdpt][i3].ps
    requires TableAt(s3.tables, pd) && EntryFrame(s3.tables[pd][i2]) == Some(pt)
    requires Extends(s1, r1, s2, r2) && Extends(s2, r2, s3, r3)
    ensures Entered(s3.tables, c, pdpt, pd, i4, i3)
  {
    hide Extends;
    ExtendsTrans(s1, r1, s2, r2, s3, r3);
    ExtendsKeepsRole(s1, r1, s2, r2, pdpt);
    ExtendsKeepsRole(s1, r1, s2, r2, c);
    ExtendsStep(s1, r1, s3, r3, c, i4, pdpt);
    ExtendsStep(s2, r2, s3, r3, pdpt, i3, pd);
    OneStep(s3.tables, c, i4, pdpt);
    OneStep(s3.tables, pdpt, i3, pd);
  }

  lemma OneStep(ts: Tables, f: nat, k: nat, g: nat)
    requires k < ENTRIES && PathOk([k]) && Descend(ts, f, [k]) == Some(g)
    ensures TableAt(ts, f) && EntryFrame(ts[f][k]) == Some(g)
  {
  }

  lemma TouchPathUnfolds(ts: Tables, c: nat, pdpt: nat, pd: nat, i4: nat, i3: nat, i2: nat, user: bool)
    requires i2 < ENTRIES && Entered(ts, c, pdpt, pd, i4, i3)
    ensures TouchPath(ts, c, [i4, i3, i2], user) ==
            TouchAt(TouchAt(TouchAt(ts, c, i4, user), pdpt, i3, user), pd, i2, user)
  {
    var ts1 := TouchAt(ts, c, i4, user);
    var ts2 := TouchAt(ts1, pdpt, i3, user);
    var ts3 := TouchAt(ts2, pd, i2, user);
    assert [i4, i3, i2][1..] == [i3, i2] && [i3, i2][1..] == [i2] && [i2][1..] == [];
    assert TouchPath(ts, c, [i4, i3, i2], user) == TouchPath(ts1, pdpt, [i3, i2], user);
    assert TouchPath(ts1, pdpt, [i3, i2], user) == TouchPath(ts2, pd, [i2], user);
    assert TouchPath(ts2, pd, [i2], user) == TouchPath(ts3, ts2[pd][i2].frame, [], user);
  }
}
