/** Walking, mapping and cloning address spaces (kernel/mm/vmm.c). */
module Vmm {
  import opened Base
  import opened Pmm
  import opened PageTables

  /** Four table indices. */
  predicate Ix(ix: seq<nat>) {
    |ix| == 4 && PathOk(ix)
  }

  /** The tables form a forest, no table frame is free, and frame 0 is not allocatable. */
  ghost predicate VmOk(s: Vm, roles: Roles) {
    && Forest(s.tables, roles) && roles.Keys !! s.pool.free && 0 !in s.pool.free
    && s.pool.hint <= s.pool.total
  }

  ghost predicate SameLooks(ts: Tables, ts': Tables, roles: Roles) {
    forall c: nat, ix: seq<nat> | IsSpace(roles, c) && Ix(ix) :: Look(ts', c, ix) == Look(ts, c, ix)
  }

  /** Walks that succeeded lead where they led, and no large page has come to lie on a path. */
  ghost predicate KeepsWalks(ts: Tables, ts': Tables, roles: Roles) {
    forall h: nat, p: seq<nat> | h in roles && PathOk(p) && |roles[h].path| + |p| <= 3 ::
      KeepsWalk(ts, ts', h, p)
  }

  predicate KeepsWalk(ts: Tables, ts': Tables, h: nat, p: seq<nat>)
    requires PathOk(p)
  {
    && (Descend(ts, h, p).Some? ==> Descend(ts', h, p) == Descend(ts, h, p))
    && (ClearPath(ts, h, p) ==> ClearPath(ts', h, p))
  }

  lemma KeepsClear(ts: Tables, ts': Tables, roles: Roles, c: nat, ix: seq<nat>)
    requires KeepsWalks(ts, ts', roles) && IsSpace(roles, c) && Ix(ix) && Clear(ts, c, ix)
    ensures Clear(ts', c, ix)
  {
    hide ClearPath, Descend;
    assert KeepsWalk(ts, ts', c, ix[..3]);
  }

  /** The user half holds no large pages. */
  lemma UserIsClear(s: Vm, roles: Roles, c: nat, ix: seq<nat>)
    requires VmOk(s, roles) && IsSpace(roles, c) && Ix(ix) && ix[0] < KERNEL_HALF
    ensures Clear(s.tables, c, ix)
  {
    assert roles[c].path + ix[..3] == ix[..3];
    UserClear(s.tables, roles, c, ix[..3]);
  }

  ghost predicate GrowsTo(roles: Roles, roles': Roles) {
    && (forall f | f in roles :: f in roles' && roles'[f] == roles[f])
    && (forall f | f in roles' && f !in roles :: roles'[f].path != [])
  }

  /** Tables may have been added, out of the free frames; no translation has changed. */
  ghost predicate Extends(s: Vm, roles: Roles, s': Vm, roles': Roles) {
    && VmOk(s', roles') && GrowsTo(roles, roles')
    && SameLooks(s.tables, s'.tables, roles) && KeepsWalks(s.tables, s'.tables, roles)
    && s'.pool.free == s.pool.free - (roles'.Keys - roles.Keys) && s'.pool.total == s.pool.total
    && roles'.Keys - roles.Keys <= s.pool.free
  }

  lemma ExtendsRefl(s: Vm, roles: Roles)
    requires VmOk(s, roles)
    ensures Extends(s, roles, s, roles)
  {
  }

  lemma ExtendsTrans(s: Vm, r: Roles, s1: Vm, r1: Roles, s2: Vm, r2: Roles)
    requires Extends(s, r, s1, r1) && Extends(s1, r1, s2, r2)
    ensures Extends(s, r, s2, r2)
  {
    hide Forest, Descend, Look, ClearPath;
    assert r2.Keys - r.Keys == (r1.Keys - r.Keys) + (r2.Keys - r1.Keys);
    forall c: nat, ix: seq<nat> | IsSpace(r, c) && Ix(ix)
      ensures Look(s2.tables, c, ix) == Look(s.tables, c, ix)
    {
      assert IsSpace(r1, c);
      assert Look(s1.tables, c, ix) == Look(s.tables, c, ix);
    }
    forall h: nat, p: seq<nat> | h in r && PathOk(p) && |r[h].path| + |p| <= 3
      ensures KeepsWalk(s.tables, s2.tables, h, p)
    {
      assert KeepsWalk(s.tables, s1.tables, h, p) && KeepsWalk(s1.tables, s2.tables, h, p);
    }
  }

  // ---- one level ----

  /** table_fetch. */
  ghost function Fetch(s: Vm, f: nat, k: nat, create: bool): (r: (Vm, Option<nat>))
    requires TableAt(s.tables, f) && k < ENTRIES
  {
    if s.tables[f][k].present then (s, Some(s.tables[f][k].frame))
    else if !create then (s, None)
    else
      var (pool, r) := Alloc(s.pool);
      if r.None? || r.value == 0 then (s.(pool := pool), None)
      else (Vm(Link(s.tables, f, k, r.value), pool), r)
  }

  ghost function FetchRoles(s: Vm, roles: Roles, f: nat, k: nat, create: bool): Roles
    requires TableAt(s.tables, f) && k < ENTRIES && f in roles
  {
    var r := Fetch(s, f, k, create).1;
    if s.tables[f][k].present || r.None? then roles else LinkRoles(roles, f, k, r.value)
  }

  lemma FetchExtends(s: Vm, roles: Roles, f: nat, k: nat, create: bool)
    requires VmOk(s, roles) && f in roles && |roles[f].path| < 3 && k < ENTRIES && TableAt(s.tables, f)
    requires !s.tables[f][k].ps
    ensures var (s', r) := Fetch(s, f, k, create);
            var roles' := FetchRoles(s, roles, f, k, create);
            && Extends(s, roles, s', roles')
            && (!create ==> s' == s && roles' == roles)
            && (r.Some? ==> TableAt(s'.tables, f) && EntryFrame(s'.tables[f][k]) == r && !s'.tables[f][k].ps)
            && (r.None? ==> s'.tables == s.tables && roles' == roles)
            && (r.None? && create ==> Exhausted(s'.pool))
  {
    hide Forest, Descend, Look, Alloc, Distinct;
    AllocIsNearest(s.pool);
    var (pool, a) := Alloc(s.pool);
    assert a.Some? ==> a.value in s.pool.free && a.value != 0;
    var (s', r) := Fetch(s, f, k, create);
    ExtendsRefl(s, roles);
    if !s.tables[f][k].present && r.Some? {
      var g := r.value;
      assert CanLink(s.tables, roles, f, k, g);
      LinkExtends(s, roles, f, k, g, s'.pool);
    }
  }

  lemma LinkExtends(s: Vm, roles: Roles, f: nat, k: nat, g: nat, pool: Pool)
    requires VmOk(s, roles) && CanLink(s.tables, roles, f, k, g)
    requires g in s.pool.free && pool.free == s.pool.free - {g} && pool.hint <= pool.total == s.pool.total
    ensures Extends(s, roles, Vm(Link(s.tables, f, k, g), pool), LinkRoles(roles, f, k, g))
  {
    hide Forest, Descend, Look, Link, ClearPath;
    var ts', roles' := Link(s.tables, f, k, g), LinkRoles(roles, f, k, g);
    LinkForest(s.tables, roles, f, k, g);
    forall c: nat, ix: seq<nat> | IsSpace(roles, c) && Ix(ix)
      ensures Look(ts', c, ix) == Look(s.tables, c, ix)
    {
      LinkLook(s.tables, roles, f, k, g, c, ix);
    }
    forall h: nat, p: seq<nat> | h in roles && PathOk(p) && |roles[h].path| + |p| <= 3
      ensures KeepsWalk(s.tables, ts', h, p)
    {
      LinkDescend(s.tables, roles, f, k, g, h, p);
      if ClearPath(s.tables, h, p) {
        LinkClear(s.tables, roles, f, k, g, h, p);
      }
    }
    assert roles'.Keys - roles.Keys == {g};
  }

  // ---- several levels ----

  /** Fetch the tables along p, creating them if asked. */
  ghost function Reach(s: Vm, f: nat, p: seq<nat>, create: bool): (r: (Vm, Option<nat>))
    requires PathOk(p)
    decreases |p|
  {
    if p == [] then (s, Some(f))
    else if !TableAt(s.tables, f) then (s, None)
    else
      var (s1, r) := Fetch(s, f, p[0], create);
      if r.None? then (s1, None) else Reach(s1, r.value, p[1..], create)
  }

  ghost function ReachRoles(s: Vm, roles: Roles, f: nat, p: seq<nat>, create: bool): Roles
    requires PathOk(p) && VmOk(s, roles) && f in roles && |roles[f].path| + |p| <= 3 && ClearPath(s.tables, f, p)
    decreases |p|
  {
    if p == [] then roles
    else
      ForestTable(s.tables, roles, f);
      var (s1, r) := Fetch(s, f, p[0], create);
      var roles1 := FetchRoles(s, roles, f, p[0], create);
      FetchPlace(s, roles, f, p[0], create);
      FetchClear(s, roles, f, p, create);
      if r.None? then roles1 else ReachRoles(s1, roles1, r.value, p[1..], create)
  }

  /** The fetched table is in the grown forest, one level down. */
  lemma FetchPlace(s: Vm, roles: Roles, f: nat, k: nat, create: bool)
    requires VmOk(s, roles) && f in roles && |roles[f].path| < 3 && k < ENTRIES && TableAt(s.tables, f)
    requires !s.tables[f][k].ps
    ensures var (s1, r) := Fetch(s, f, k, create);
            var roles1 := FetchRoles(s, roles, f, k, create);
            && VmOk(s1, roles1)
            && (r.Some? ==> r.value in roles1 && roles1[r.value].path == roles[f].path + [k])
  {
    hide Forest, Alloc, Link;
    FetchExtends(s, roles, f, k, create);
    ForestLink(s.tables, roles, f, k);
  }

  /** A clear path is clear from the fetched table on: a new table is empty. */
  lemma FetchClear(s: Vm, roles: Roles, f: nat, p: seq<nat>, create: bool)
    requires VmOk(s, roles) && f in roles && TableAt(s.tables, f) && PathOk(p) && p != [] && ClearPath(s.tables, f, p)
    ensures var (s1, r) := Fetch(s, f, p[0], create); r.Some? ==> ClearPath(s1.tables, r.value, p[1..])
  {
    hide Forest, Alloc;
    AllocIsNearest(s.pool);
    var (s1, r) := Fetch(s, f, p[0], create);
    if !s.tables[f][p[0]].present && r.Some? {
      EmptyClear(s1.tables, r.value, p[1..]);
    }
  }

  lemma VmTable(s: Vm, roles: Roles, f: nat)
    requires VmOk(s, roles) && f in roles
    ensures TableAt(s.tables, f) && |roles[f].path| <= 3
  {
    ForestTable(s.tables, roles, f);
  }

  /** A present entry is a one-step walk, and later extensions keep it. */
  lemma ExtendsStep(s1: Vm, roles1: Roles, s2: Vm, roles2: Roles, f: nat, k: nat, g: nat)
    requires Extends(s1, roles1, s2, roles2) && f in roles1 && |roles1[f].path| < 3 && k < ENTRIES
    requires TableAt(s1.tables, f) && EntryFrame(s1.tables[f][k]) == Some(g) && !s1.tables[f][k].ps
    ensures Descend(s2.tables, f, [k]) == Some(g)
  {
    hide VmOk, SameLooks;
    assert Descend(s1.tables, f, [k]) == Descend(s1.tables, g, []);
    assert PathOk([k]) && KeepsWalk(s1.tables, s2.tables, f, [k]);
  }

  lemma FetchOnly(s: Vm, f: nat, p: seq<nat>)
    requires TableAt(s.tables, f) && PathOk(p) && p != [] && !s.tables[f][p[0]].ps
    ensures Fetch(s, f, p[0], false) == (s, EntryFrame(s.tables[f][p[0]]))
    ensures Descend(s.tables, f, p) == match EntryFrame(s.tables[f][p[0]]) {
              case None => None
              case Some(g) => Descend(s.tables, g, p[1..])
            }
  {
  }

  lemma {:induction false} ReachExtends(s: Vm, roles: Roles, f: nat, p: seq<nat>, create: bool)
    requires PathOk(p) && VmOk(s, roles) && f in roles && |roles[f].path| + |p| <= 3 && ClearPath(s.tables, f, p)
    ensures var (s', r) := Reach(s, f, p, create);
            var roles' := ReachRoles(s, roles, f, p, create);
            && Extends(s, roles, s', roles')
            && (r.Some? ==> Descend(s'.tables, f, p) == r)
            && (!create ==> s' == s && roles' == roles && r == Descend(s.tables, f, p))
            && (create && r.None? ==> Exhausted(s'.pool))
    decreases |p|
  {
    if p == [] {
      ExtendsRefl(s, roles);
    } else {
      hide Forest, VmOk, Extends, Fetch, FetchRoles, Exhausted, Descend;
      VmTable(s, roles, f);
      var (s1, r1) := Fetch(s, f, p[0], create);
      var roles1 := FetchRoles(s, roles, f, p[0], create);
      FetchOnly(s, f, p);
      FetchExtends(s, roles, f, p[0], create);
      FetchPlace(s, roles, f, p[0], create);
      FetchClear(s, roles, f, p, create);
      if r1.Some? {
        ReachExtends(s1, roles1, r1.value, p[1..], create);
        var (s2, r2) := Reach(s1, r1.value, p[1..], create);
        var roles2 := ReachRoles(s1, roles1, r1.value, p[1..], create);
        ExtendsTrans(s, roles, s1, roles1, s2, roles2);
        ExtendsKeepsRole(s, roles, s1, roles1, f);
        ExtendsStep(s1, roles1, s2, roles2, f, p[0], r1.value);
        DescendSplit(s2.tables, f, [p[0]], p[1..]);
        assert [p[0]] + p[1..] == p;
      }
    }
  }

  lemma ExtendsKeepsRole(s: Vm, roles: Roles, s': Vm, roles': Roles, f: nat)
    requires Extends(s, roles, s', roles') && f in roles
    ensures f in roles' && roles'[f] == roles[f]
  {
  }

  /** Clear NX and propagate U/S on the entries along p. */
  function TouchPath(ts: Tables, f: nat, p: seq<nat>, user: bool): Tables
    requires PathOk(p)
    decreases |p|
  {
    if p == [] || !TableAt(ts, f) then ts
    else TouchPath(TouchAt(ts, f, p[0], user), ts[f][p[0]].frame, p[1..], user)
  }

  lemma {:induction false} TouchPathForest(ts: Tables, roles: Roles, f: nat, p: seq<nat>, user: bool)
    requires Forest(ts, roles) && f in roles && PathOk(p) && |roles[f].path| + |p| <= 3 && Descend(ts, f, p).Some?
    ensures Forest(TouchPath(ts, f, p, user), roles)
    decreases |p|
  {
    hide Forest;
    if p != [] {
      ForestLink(ts, roles, f, p[0]);
      TouchForest(ts, roles, f, p[0], user);
      TouchDescend(ts, f, p[0], user, ts[f][p[0]].frame, p[1..]);
      TouchPathForest(TouchAt(ts, f, p[0], user), roles, ts[f][p[0]].frame, p[1..], user);
    }
  }

  lemma {:induction false} TouchPathDescend(ts: Tables, f: nat, p: seq<nat>, user: bool, h: nat, q: seq<nat>)
    requires PathOk(p) && PathOk(q)
    ensures Descend(TouchPath(ts, f, p, user), h, q) == Descend(ts, h, q)
    decreases |p|
  {
    if p != [] && TableAt(ts, f) {
      hide Descend;
      TouchDescend(ts, f, p[0], user, h, q);
      TouchPathDescend(TouchAt(ts, f, p[0], user), ts[f][p[0]].frame, p[1..], user, h, q);
    }
  }

  lemma {:induction false} TouchPathClear(ts: Tables, f: nat, p: seq<nat>, user: bool, h: nat, q: seq<nat>)
    requires PathOk(p) && PathOk(q)
    ensures ClearPath(TouchPath(ts, f, p, user), h, q) == ClearPath(ts, h, q)
    decreases |p|
  {
    if p != [] && TableAt(ts, f) {
      hide ClearPath;
      TouchClear(ts, f, p[0], user, h, q);
      TouchPathClear(TouchAt(ts, f, p[0], user), ts[f][p[0]].frame, p[1..], user, h, q);
    }
  }

  lemma {:induction false} TouchPathLook(ts: Tables, f: nat, p: seq<nat>, user: bool, c: nat, ix: seq<nat>)
    requires PathOk(p) && Ix(ix)
    ensures Look(TouchPath(ts, f, p, user), c, ix) == Look(ts, c, ix)
    decreases |p|
  {
    if p != [] && TableAt(ts, f) {
      hide Look;
      TouchLook(ts, f, p[0], user, c, ix);
      TouchPathLook(TouchAt(ts, f, p[0], user), ts[f][p[0]].frame, p[1..], user, c, ix);
    }
  }

  /** walk_pt: the leaf table of ix in space c. */
  ghost function Walk(s: Vm, c: nat, ix: seq<nat>, create: bool, user: bool): (r: (Vm, Option<nat>))
    requires Ix(ix)
  {
    var (s1, r) := Reach(s, c, ix[..3], create);
    if r.None? then (s1, None)
    else (s1.(tables := TouchPath(s1.tables, c, ix[..3], user)), r)
  }

  lemma TouchedExtends(s: Vm, roles: Roles, s1: Vm, roles1: Roles, c: nat, p: seq<nat>, user: bool)
    requires Extends(s, roles, s1, roles1) && IsSpace(roles, c) && PathOk(p) && |p| == 3
    requires Descend(s1.tables, c, p).Some?
    ensures Extends(s, roles, s1.(tables := TouchPath(s1.tables, c, p, user)), roles1)
  {
    hide Forest, Descend, Look, TouchPath, ClearPath;
    var ts' := TouchPath(s1.tables, c, p, user);
    TouchPathForest(s1.tables, roles1, c, p, user);
    forall e: nat, ix: seq<nat> | IsSpace(roles, e) && Ix(ix) ensures Look(ts', e, ix) == Look(s.tables, e, ix) {
      TouchPathLook(s1.tables, c, p, user, e, ix);
    }
    forall h: nat, q: seq<nat> | h in roles && PathOk(q) && |roles[h].path| + |q| <= 3
      ensures KeepsWalk(s.tables, ts', h, q)
    {
      assert KeepsWalk(s.tables, s1.tables, h, q);
      TouchPathDescend(s1.tables, c, p, user, h, q);
      TouchPathClear(s1.tables, c, p, user, h, q);
    }
  }

  ghost function WalkRoles(s: Vm, roles: Roles, c: nat, ix: seq<nat>, create: bool): Roles
    requires VmOk(s, roles) && IsSpace(roles, c) && Ix(ix)
  {
    if Clear(s.tables, c, ix) then ReachRoles(s, roles, c, ix[..3], create) else roles
  }

  /** A walk that meets no large page may add tables but changes no translation; it fails only when asked
      not to create a missing level, or when memory has run out. */
  lemma WalkExtends(s: Vm, roles: Roles, c: nat, ix: seq<nat>, create: bool, user: bool)
    requires VmOk(s, roles) && IsSpace(roles, c) && Ix(ix) && Clear(s.tables, c, ix)
    ensures var (s', r) := Walk(s, c, ix, create, user);
            var roles' := WalkRoles(s, roles, c, ix, create);
            && Extends(s, roles, s', roles')
            && (r.Some? ==> Descend(s'.tables, c, ix[..3]) == r)
            && (!create ==> s'.pool == s.pool && roles' == roles && r == Descend(s.tables, c, ix[..3]))
            && (create && r.None? ==> Exhausted(s'.pool))
  {
    hide VmOk, Extends, Descend, TouchPath, Exhausted;
    ReachExtends(s, roles, c, ix[..3], create);
    var (s1, r) := Reach(s, c, ix[..3], create);
    if r.Some? {
      TouchedExtends(s, roles, s1, ReachRoles(s, roles, c, ix[..3], create), c, ix[..3], user);
      TouchPathDescend(s1.tables, c, ix[..3], user, c, ix[..3]);
    }
  }

  // ---- mapping ----

  datatype Flags = Flags(write: bool, user: bool)

  function LeafEntry(frame: nat, flags: Flags): Pte {
    Pte(true, flags.write, flags.user, false, false, frame)
  }

  /** vmm_map_page_in on a page-aligned address with index path ix. */
  ghost function MapIn(s: Vm, c: nat, ix: seq<nat>, frame: nat, flags: Flags): (r: (Vm, bool))
    requires Ix(ix)
  {
    var (s1, t) := Walk(s, c, ix, true, flags.user);
    if t.None? || !TableAt(s1.tables, t.value) then (s1, false)
    else (s1.(tables := Store(s1.tables, t.value, ix[3], LeafEntry(frame, flags))), true)
  }

  /** vmm_unmap_page_in. */
  ghost function UnmapIn(s: Vm, c: nat, ix: seq<nat>): (s': Vm)
    requires Ix(ix)
  {
    var (s1, t) := Walk(s, c, ix, false, false);
    if t.None? || !TableAt(s1.tables, t.value) then s1
    else s1.(tables := Store(s1.tables, t.value, ix[3], NoEntry))
  }

  /** The walks of spaces c and e for ix end in the same leaf table. */
  ghost predicate Shares(ts: Tables, c: nat, e: nat, ix: seq<nat>)
    requires Ix(ix)
  {
    Descend(ts, c, ix[..3]).Some? && Descend(ts, c, ix[..3]) == Descend(ts, e, ix[..3])
  }

  /** In the user half no two spaces share a leaf table. */
  lemma UserHalfPrivate(s: Vm, roles: Roles, c: nat, e: nat, ix: seq<nat>)
    requires VmOk(s, roles) && IsSpace(roles, c) && IsSpace(roles, e) && Ix(ix) && ix[0] < KERNEL_HALF
    requires Shares(s.tables, c, e, ix)
    ensures c == e
  {
    hide Forest, Descend;
    DescendRole(s.tables, roles, c, ix[..3]);
    DescendRole(s.tables, roles, e, ix[..3]);
    ForestTable(s.tables, roles, c);
    ForestTable(s.tables, roles, e);
  }

  /** What a leaf write at the end of a walk does to every translation of every space. */
  lemma StoreEffect(s: Vm, roles: Roles, c: nat, ix: seq<nat>, t: nat, e: Pte)
    requires VmOk(s, roles) && IsSpace(roles, c) && Ix(ix) && Descend(s.tables, c, ix[..3]) == Some(t)
    ensures TableAt(s.tables, t)
    ensures var s' := s.(tables := Store(s.tables, t, ix[3], e));
            && VmOk(s', roles)
            && (forall d: nat, jx: seq<nat> | IsSpace(roles, d) && Ix(jx) ::
                  Look(s'.tables, d, jx) ==
                  if jx == ix && Shares(s.tables, c, d, ix) then EntryFrame(e) else Look(s.tables, d, jx))
  {
    hide Forest, Descend, Look;
    DescendRole(s.tables, roles, c, ix[..3]);
    assert [] + ix[..3] == ix[..3];
    VmTable(s, roles, t);
    StoreForest(s.tables, roles, t, ix[3], e);
    var s' := s.(tables := Store(s.tables, t, ix[3], e));
    forall d: nat, jx: seq<nat> | IsSpace(roles, d) && Ix(jx)
      ensures Look(s'.tables, d, jx) ==
              if jx == ix && Shares(s.tables, c, d, ix) then EntryFrame(e) else Look(s.tables, d, jx)
    {
      StoreLook(s.tables, roles, t, ix[3], e, d, jx);
      if Descend(s.tables, d, jx[..3]) == Some(t) && jx[3] == ix[3] {
        DescendRole(s.tables, roles, d, jx[..3]);
        assert [] + jx[..3] == jx[..3];
        assert jx == jx[..3] + [jx[3]] && ix == ix[..3] + [ix[3]];
      }
    }
  }

  /** vmm_map_page_in. On success the page translates to the frame, in space c and in every
      space that shares the leaf table, and no other translation changes; in the user half
      that is space c alone. A failing call changes no translation. */
  lemma MapInEffect(s: Vm, roles: Roles, c: nat, ix: seq<nat>, frame: nat, flags: Flags)
    requires VmOk(s, roles) && IsSpace(roles, c) && Ix(ix) && Clear(s.tables, c, ix)
    ensures var (s', ok) := MapIn(s, c, ix, frame, flags);
            var roles' := WalkRoles(s, roles, c, ix, true);
            && VmOk(s', roles') && GrowsTo(roles, roles') && KeepsWalks(s.tables, s'.tables, roles)
            && s'.pool.free == s.pool.free - (roles'.Keys - roles.Keys) && s'.pool.total == s.pool.total
            && roles'.Keys - roles.Keys <= s.pool.free
            && (!ok ==> SameLooks(s.tables, s'.tables, roles) && Exhausted(s'.pool))
            && (ok ==> Shares(s'.tables, c, c, ix) && Mapped(s.tables, s'.tables, roles, c, ix, Some(frame)))
  {
    hide VmOk, Extends, Walk, WalkRoles, Look, Descend, SameLooks, KeepsWalks, Exhausted, Mapped, GrowsTo;
    WalkExtends(s, roles, c, ix, true, flags.user);
    var (s1, t) := Walk(s, c, ix, true, flags.user);
    var roles1 := WalkRoles(s, roles, c, ix, true);
    ExtendsParts(s, roles, s1, roles1);
    if t.Some? {
      ExtendsKeepsRole(s, roles, s1, roles1, c);
      StoreMaps(s, roles, s1, roles1, c, ix, t.value, LeafEntry(frame, flags));
    }
  }

  /** From ts to ts' exactly the translation of ix changes, to v, in the spaces that share
      c's leaf table for it. */
  ghost predicate Mapped(ts: Tables, ts': Tables, roles: Roles, c: nat, ix: seq<nat>, v: Option<nat>)
    requires Ix(ix)
  {
    forall d: nat, jx: seq<nat> | IsSpace(roles, d) && Ix(jx) ::
      Look(ts', d, jx) == if jx == ix && Shares(ts', c, d, ix) then v else Look(ts, d, jx)
  }

  lemma ExtendsParts(s: Vm, roles: Roles, s': Vm, roles': Roles)
    requires Extends(s, roles, s', roles')
    ensures && VmOk(s', roles') && GrowsTo(roles, roles')
            && SameLooks(s.tables, s'.tables, roles) && KeepsWalks(s.tables, s'.tables, roles)
            && s'.pool.free == s.pool.free - (roles'.Keys - roles.Keys) && s'.pool.total == s.pool.total
            && roles'.Keys - roles.Keys <= s.pool.free
  {
  }

  /** An extension followed by a leaf write. */
  lemma StoreMaps(s: Vm, roles: Roles, s1: Vm, roles1: Roles, c: nat, ix: seq<nat>, t: nat, e: Pte)
    requires Extends(s, roles, s1, roles1) && IsSpace(roles, c) && IsSpace(roles1, c) && Ix(ix)
    requires Descend(s1.tables, c, ix[..3]) == Some(t)
    ensures TableAt(s1.tables, t)
    ensures var s2 := s1.(tables := Store(s1.tables, t, ix[3], e));
            && VmOk(s2, roles1) && KeepsWalks(s.tables, s2.tables, roles)
            && Shares(s2.tables, c, c, ix) && Mapped(s.tables, s2.tables, roles, c, ix, EntryFrame(e))
  {
    hide Forest, Look, Descend, ClearPath;
    StoreEffect(s1, roles1, c, ix, t, e);
    DescendRole(s1.tables, roles1, c, ix[..3]);
    var s2 := s1.(tables := Store(s1.tables, t, ix[3], e));
    forall h: nat, p: seq<nat> | h in roles && PathOk(p) && |roles[h].path| + |p| <= 3
      ensures Descend(s2.tables, h, p) == Descend(s1.tables, h, p) && KeepsWalk(s.tables, s2.tables, h, p)
    {
      assert KeepsWalk(s.tables, s1.tables, h, p);
      StoreDescend(s1.tables, roles1, t, ix[3], e, h, p);
      if ClearPath(s1.tables, h, p) {
        StoreClear(s1.tables, roles1, t, ix[3], e, h, p);
      }
    }
    forall d: nat, jx: seq<nat> | IsSpace(roles, d) && Ix(jx)
      ensures Look(s2.tables, d, jx) ==
              if jx == ix && Shares(s2.tables, c, d, ix) then EntryFrame(e) else Look(s.tables, d, jx)
    {
      assert IsSpace(roles1, d);
      assert Look(s1.tables, d, jx) == Look(s.tables, d, jx);
      assert Descend(s2.tables, d, ix[..3]) == Descend(s1.tables, d, ix[..3]);
      assert Descend(s2.tables, c, ix[..3]) == Descend(s1.tables, c, ix[..3]);
    }
    assert Descend(s2.tables, c, ix[..3]) == Some(t);
  }

  /** vmm_unmap_page_in: afterwards the page translates to nothing in every space that
      shares the leaf table, and no other translation changes. */
  lemma UnmapInEffect(s: Vm, roles: Roles, c: nat, ix: seq<nat>)
    requires VmOk(s, roles) && IsSpace(roles, c) && Ix(ix) && Clear(s.tables, c, ix)
    ensures var s' := UnmapIn(s, c, ix);
            && VmOk(s', roles) && s'.pool == s.pool && KeepsWalks(s.tables, s'.tables, roles)
            && Look(s'.tables, c, ix) == None && Mapped(s.tables, s'.tables, roles, c, ix, None)
  {
    hide VmOk, Extends, Walk, WalkRoles, Look, Descend, SameLooks, KeepsWalks, Mapped, GrowsTo;
    WalkExtends(s, roles, c, ix, false, false);
    var (s1, t) := Walk(s, c, ix, false, false);
    ExtendsParts(s, roles, s1, roles);
    if t.Some? {
      StoreMaps(s, roles, s1, roles, c, ix, t.value, NoEntry);
      MappedHere(s.tables, UnmapIn(s, c, ix).tables, roles, c, ix, None);
    } else {
      NothingToUnmap(s.tables, s1.tables, roles, c, ix);
    }
  }

  lemma MappedHere(ts: Tables, ts': Tables, roles: Roles, c: nat, ix: seq<nat>, v: Option<nat>)
    requires Ix(ix) && IsSpace(roles, c) && Mapped(ts, ts', roles, c, ix, v) && Shares(ts', c, c, ix)
    ensures Look(ts', c, ix) == v
  {
  }

  lemma NothingToUnmap(ts: Tables, ts': Tables, roles: Roles, c: nat, ix: seq<nat>)
    requires Ix(ix) && IsSpace(roles, c) && SameLooks(ts, ts', roles) && Descend(ts, c, ix[..3]) == None
    requires Clear(ts, c, ix) && KeepsWalks(ts, ts', roles)
    ensures Look(ts', c, ix) == None && Mapped(ts, ts', roles, c, ix, None)
  {
    hide Descend, LargeLook, ClearPath;
    ClearLook(ts, c, ix);
    assert Look(ts, c, ix) == None;
    forall d: nat, jx: seq<nat> | IsSpace(roles, d) && Ix(jx)
      ensures Look(ts', d, jx) == if jx == ix && Shares(ts', c, d, ix) then None else Look(ts, d, jx)
    {
      if jx == ix && Shares(ts', c, d, ix) {
        assert Look(ts', d, ix) == Look(ts', c, ix);
      }
    }
  }
}
