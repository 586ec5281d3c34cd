/** Many address spaces over whole runs: cloning shares the kernel half by reference, and
    once the heap's top-level entries exist every space sees every heap mapping. */
module AddressSpaces {
  import opened Base
  import opened Pmm
  import opened PageTables
  import opened Vmm
  import opened VirtualAddresses

  // ---- cloning ----

  /** A new top-level table: empty user half, kernel half copied from the root. */
  function ClonedTable(root: seq<Pte>): (t: seq<Pte>)
    requires |root| == ENTRIES
    ensures |t| == ENTRIES
  {
    EmptyTable()[..KERNEL_HALF] + root[KERNEL_HALF..]
  }

  /** vmm_space_clone. */
  ghost function Clone(s: Vm, root: nat): (r: (Vm, Option<nat>))
    requires TableAt(s.tables, root)
  {
    var (pool, r) := Alloc(s.pool);
    if r.None? || r.value == 0 then (s.(pool := pool), None)
    else (Vm(s.tables[r.value := ClonedTable(s.tables[root])], pool), r)
  }

  ghost function CloneRoles(roles: Roles, r: Option<nat>): Roles {
    if r.None? then roles else roles[r.value := Role(r.value, [])]
  }

  /** A frame outside the forest is on no walk of the forest. */
  lemma {:induction false} OutsideDescend(ts: Tables, roles: Roles, g: nat, t: seq<Pte>, h: nat, p: seq<nat>)
    requires Forest(ts, roles) && g !in roles && h in roles && PathOk(p) && |roles[h].path| + |p| <= 3
    ensures Descend(ts[g := t], h, p) == Descend(ts, h, p)
    decreases |p|
  {
    hide Forest;
    if p != [] {
      ForestLink(ts, roles, h, p[0]);
      if Leads(ts[h][p[0]]) {
        OutsideDescend(ts, roles, g, t, ts[h][p[0]].frame, p[1..]);
      }
    }
  }

  lemma {:induction false} OutsideClear(ts: Tables, roles: Roles, g: nat, t: seq<Pte>, h: nat, p: seq<nat>)
    requires Forest(ts, roles) && g !in roles && h in roles && PathOk(p) && |roles[h].path| + |p| <= 3
    ensures ClearPath(ts[g := t], h, p) == ClearPath(ts, h, p)
    decreases |p|
  {
    hide Forest;
    if p != [] {
      ForestLink(ts, roles, h, p[0]);
      if Leads(ts[h][p[0]]) {
        OutsideClear(ts, roles, g, t, ts[h][p[0]].frame, p[1..]);
      }
    }
  }

  lemma CloneForest(ts: Tables, roles: Roles, root: nat, g: nat)
    requires Forest(ts, roles) && IsSpace(roles, root) && TableAt(ts, root) && g !in roles
    ensures Forest(ts[g := ClonedTable(ts[root])], CloneRoles(roles, Some(g)))
  {
    hide Forest, Descend;
    var ts', roles' := ts[g := ClonedTable(ts[root])], CloneRoles(roles, Some(g));
    ForestDistinct(ts, roles);
    forall h | h in roles' ensures Placed(ts', roles', h) {
      ClonePlaced(ts, roles, root, g, h);
    }
    forall h, k | h in roles' && |roles'[h].path| < 3 && 0 <= k < ENTRIES && TableAt(ts', h)
      ensures LinkOk(roles', roles'[h], k, ts'[h][k])
    {
      ForestLink(ts, roles, if h == g then root else h, k);
    }
    CloneDistinct(ts, roles, g);
    MakeForest(ts', roles');
  }

  lemma CloneDistinct(ts: Tables, roles: Roles, g: nat)
    requires Forest(ts, roles) && g !in roles
    ensures Distinct(CloneRoles(roles, Some(g)))
  {
    forall h | h in roles ensures roles[h].space != g {
      ForestTable(ts, roles, h);
    }
  }

  lemma ClonePlaced(ts: Tables, roles: Roles, root: nat, g: nat, h: nat)
    requires Forest(ts, roles) && IsSpace(roles, root) && TableAt(ts, root) && g !in roles
    requires h in CloneRoles(roles, Some(g))
    ensures Placed(ts[g := ClonedTable(ts[root])], CloneRoles(roles, Some(g)), h)
  {
    hide Forest;
    if h != g {
      ForestTable(ts, roles, h);
      OutsideDescend(ts, roles, g, ClonedTable(ts[root]), roles[h].space, roles[h].path);
    }
  }

  /** A clone changes no translation of another space; its own user half is empty and its
      kernel half is the root's. */
  lemma CloneEffect(s: Vm, roles: Roles, root: nat)
    requires VmOk(s, roles) && IsSpace(roles, root) && TableAt(s.tables, root)
    ensures var (s', r) := Clone(s, root);
            var roles' := CloneRoles(roles, r);
            && VmOk(s', roles') && s'.pool.total == s.pool.total
            && SameLooks(s.tables, s'.tables, roles) && KeepsWalks(s.tables, s'.tables, roles)
            && (r.None? ==> s' == s && Exhausted(s.pool))
            && (r.Some? ==>
                  && r.value in s.pool.free && r.value !in roles && s'.pool.free == s.pool.free - {r.value}
                  && (forall ix: seq<nat> | Ix(ix) ::
                        Look(s'.tables, r.value, ix) == if ix[0] < KERNEL_HALF then None else Look(s.tables, root, ix)))
  {
    hide Forest, Descend, Look, Alloc;
    AllocIsNearest(s.pool);
    var (pool, a) := Alloc(s.pool);
    assert a.Some? ==> a.value in s.pool.free && a.value != 0;
    var (s', r) := Clone(s, root);
    if r.Some? {
      var g := r.value;
      CloneForest(s.tables, roles, root, g);
      forall c: nat, ix: seq<nat> | IsSpace(roles, c) && Ix(ix)
        ensures Look(s'.tables, c, ix) == Look(s.tables, c, ix)
      {
        OutsideLook(s.tables, roles, g, ClonedTable(s.tables[root]), c, ix);
      }
      forall h: nat, p: seq<nat> | h in roles && PathOk(p) && |roles[h].path| + |p| <= 3
        ensures KeepsWalk(s.tables, s'.tables, h, p)
      {
        OutsideDescend(s.tables, roles, g, ClonedTable(s.tables[root]), h, p);
        OutsideClear(s.tables, roles, g, ClonedTable(s.tables[root]), h, p);
      }
      forall ix: seq<nat> | Ix(ix)
        ensures Look(s'.tables, g, ix) == if ix[0] < KERNEL_HALF then None else Look(s.tables, root, ix)
      {
        CloneLook(s.tables, roles, root, g, ix);
      }
    }
  }

  lemma OutsideLook(ts: Tables, roles: Roles, g: nat, t: seq<Pte>, c: nat, ix: seq<nat>)
    requires Forest(ts, roles) && g !in roles && IsSpace(roles, c) && Ix(ix)
    ensures Look(ts[g := t], c, ix) == Look(ts, c, ix)
  {
    hide Forest, Descend, LargeLook;
    OutsideDescend(ts, roles, g, t, c, ix[..3]);
    if Descend(ts, c, ix[..3]).Some? {
      DescendRole(ts, roles, c, ix[..3]);
    }
    OutsideLarge(ts, roles, g, t, c, ix[..1], ix[1]);
    OutsideLarge(ts, roles, g, t, c, ix[..2], ix[2]);
    LargeSame(ts, ts[g := t], c, c, ix);
  }

  lemma OutsideLarge(ts: Tables, roles: Roles, g: nat, t: seq<Pte>, c: nat, p: seq<nat>, j: nat)
    requires Forest(ts, roles) && g !in roles && IsSpace(roles, c) && PathOk(p) && |p| <= 2
    ensures LargeAt(ts[g := t], Descend(ts[g := t], c, p), j) == LargeAt(ts, Descend(ts, c, p), j)
  {
    hide Forest, Descend;
    OutsideDescend(ts, roles, g, t, c, p);
    if Descend(ts, c, p).Some? {
      DescendRole(ts, roles, c, p);
    }
  }

  /** The clone's walks: nothing in the user half, the root's in the kernel half. */
  lemma CloneDescend(ts: Tables, root: nat, g: nat, p: seq<nat>)
    requires TableAt(ts, root) && g != root && PathOk(p) && p != []
    ensures var ts' := ts[g := ClonedTable(ts[root])];
            Descend(ts', g, p) == if p[0] < KERNEL_HALF then None else Descend(ts', root, p)
  {
    var t := ClonedTable(ts[root]);
    assert p[0] >= KERNEL_HALF ==> t[p[0]] == ts[root][p[0]];
  }

  lemma CloneLook(ts: Tables, roles: Roles, root: nat, g: nat, ix: seq<nat>)
    requires Forest(ts, roles) && IsSpace(roles, root) && TableAt(ts, root) && g !in roles && Ix(ix)
    ensures Look(ts[g := ClonedTable(ts[root])], g, ix) ==
            if ix[0] < KERNEL_HALF then None else Look(ts, root, ix)
  {
    hide Forest, Descend;
    var ts' := ts[g := ClonedTable(ts[root])];
    CloneDescend(ts, root, g, ix[..1]);
    CloneDescend(ts, root, g, ix[..2]);
    CloneDescend(ts, root, g, ix[..3]);
    if ix[0] >= KERNEL_HALF {
      OutsideLook(ts, roles, g, ClonedTable(ts[root]), root, ix);
      LargeSame(ts', ts', root, g, ix);
    }
  }

  /** No large page lies on a clone's walk unless it lies on the root's. */
  lemma CloneClear(ts: Tables, roles: Roles, root: nat, g: nat, ix: seq<nat>)
    requires Forest(ts, roles) && IsSpace(roles, root) && TableAt(ts, root) && g !in roles && Ix(ix)
    requires ix[0] < KERNEL_HALF || Clear(ts, root, ix)
    ensures Clear(ts[g := ClonedTable(ts[root])], g, ix)
  {
    hide Forest;
    var t := ClonedTable(ts[root]);
    OutsideClear(ts, roles, g, t, root, ix[..3]);
    assert ix[0] >= KERNEL_HALF ==> t[ix[0]] == ts[root][ix[0]];
  }

  // ---- runs ----

  /** All address spaces, the root space and the loaded one. */
  datatype World = World(vm: Vm, roles: Roles, root: nat, cr3: nat)

  ghost predicate WorldOk(w: World) {
    VmOk(w.vm, w.roles) && IsSpace(w.roles, w.root) && IsSpace(w.roles, w.cr3)
  }

  datatype VmOp =
    | MapPage(virt: nat, frame: nat, flags: Flags)
    | MapPageIn(c: nat, ix: seq<nat>, frame: nat, flags: Flags)
    | UnmapPage(virt: nat)
    | UnmapPageIn(c: nat, ix: seq<nat>)
    | TranslateIn(c: nat, ix: seq<nat>)
    | CloneSpace
    | Switch(c: nat)

  const KERNEL_HALF_BASE: nat := 0xffff_8000_0000_0000

  /** vmm_map_page and vmm_unmap_page work on the root from the base of the kernel half on. */
  function TargetSpace(w: World, virt: nat): nat {
    if virt >= KERNEL_HALF_BASE then w.root else w.cr3
  }

  /** The space exists and the walk for ix meets no large page in it. */
  ghost predicate Walkable(w: World, c: nat, ix: seq<nat>) {
    IsSpace(w.roles, c) && Ix(ix) && Clear(w.vm.tables, c, ix)
  }

  lemma UserWalkable(w: World, c: nat, ix: seq<nat>)
    requires WorldOk(w) && IsSpace(w.roles, c) && Ix(ix) && ix[0] < KERNEL_HALF
    ensures Walkable(w, c, ix)
  {
    UserIsClear(w.vm, w.roles, c, ix);
  }

  ghost predicate OpOk(w: World, op: VmOp) {
    match op
    case MapPage(virt, _, _) => Walkable(w, TargetSpace(w, virt), IxOf(virt))
    case MapPageIn(c, ix, _, _) => Walkable(w, c, ix)
    case UnmapPage(virt) => Walkable(w, TargetSpace(w, virt), IxOf(virt))
    case UnmapPageIn(c, ix) => Walkable(w, c, ix)
    case TranslateIn(c, ix) => Walkable(w, c, ix)
    case CloneSpace => true
    case Switch(c) => IsSpace(w.roles, c)
  }

  ghost function MapStep(w: World, c: nat, ix: seq<nat>, frame: nat, flags: Flags): World
    requires WorldOk(w) && Walkable(w, c, ix)
  {
    w.(vm := MapIn(w.vm, c, ix, frame, flags).0, roles := WalkRoles(w.vm, w.roles, c, ix, true))
  }

  ghost function CloneStep(w: World): World
    requires WorldOk(w)
  {
    VmTable(w.vm, w.roles, w.root);
    var (vm, r) := Clone(w.vm, w.root);
    w.(vm := vm, roles := CloneRoles(w.roles, r))
  }

  ghost function Step(w: World, op: VmOp): (w': World)
    requires WorldOk(w) && OpOk(w, op)
  {
    match op
    case MapPage(virt, frame, flags) => MapStep(w, TargetSpace(w, virt), IxOf(virt), frame, flags)
    case MapPageIn(c, ix, frame, flags) => MapStep(w, c, ix, frame, flags)
    case UnmapPage(virt) => w.(vm := UnmapIn(w.vm, TargetSpace(w, virt), IxOf(virt)))
    case UnmapPageIn(c, ix) => w.(vm := UnmapIn(w.vm, c, ix))
    case TranslateIn(c, ix) => w.(vm := Walk(w.vm, c, ix, false, false).0)
    case CloneSpace => CloneStep(w)
    case Switch(c) => w.(cr3 := c)
  }

  /** A page that vmm_map_page has mapped: from address 0xffff800000000000 on it is in the root space, below in the
      loaded one; unmapping takes it away from there. */
  lemma MapPageAnswer(w: World, virt: nat, frame: nat, flags: Flags)
    requires WorldOk(w)
    ensures var c := if virt >= 0xffff_8000_0000_0000 then w.root else w.cr3;
            && (OpOk(w, MapPage(virt, frame, flags)) && MapIn(w.vm, c, IxOf(virt), frame, flags).1 ==>
                  Look(Step(w, MapPage(virt, frame, flags)).vm.tables, c, IxOf(virt)) == Some(frame))
            && (OpOk(w, UnmapPage(virt)) ==> Look(Step(w, UnmapPage(virt)).vm.tables, c, IxOf(virt)) == None)
  {
    hide VmOk, MapIn, UnmapIn, WalkRoles, Look, IxOf, Clear, KeepsWalks, SameLooks, Exhausted, GrowsTo;
    var c := TargetSpace(w, virt);
    if OpOk(w, MapPage(virt, frame, flags)) && MapIn(w.vm, c, IxOf(virt), frame, flags).1 {
      MapInEffect(w.vm, w.roles, c, IxOf(virt), frame, flags);
    }
    if OpOk(w, UnmapPage(virt)) {
      UnmapInEffect(w.vm, w.roles, c, IxOf(virt));
    }
  }

  /** Every space reaches the same second-level table through top-level entry k. */
  ghost predicate Covered(w: World, k: nat) {
    && k < ENTRIES && PathOk([k]) && Descend(w.vm.tables, w.root, [k]).Some?
    && forall c: nat | IsSpace(w.roles, c) :: Descend(w.vm.tables, c, [k]) == Descend(w.vm.tables, w.root, [k])
  }

  /** The spaces are those of before and walks that succeeded lead where they led. */
  ghost predicate Carries(w: World, w': World) {
    && WorldOk(w') && w'.root == w.root
    && KeepsWalks(w.vm.tables, w'.vm.tables, w.roles)
    && forall c: nat :: IsSpace(w'.roles, c) <==> IsSpace(w.roles, c)
  }

  lemma CarriesCovered(w: World, w': World, k: nat)
    requires WorldOk(w) && Carries(w, w') && Covered(w, k)
    ensures Covered(w', k)
  {
    hide VmOk, Descend;
    forall c: nat | IsSpace(w'.roles, c)
      ensures Descend(w'.vm.tables, c, [k]) == Descend(w.vm.tables, c, [k])
    {
      assert IsSpace(w.roles, c);
      assert KeepsWalk(w.vm.tables, w'.vm.tables, c, [k]);
    }
    assert IsSpace(w'.roles, w.root);
  }

  lemma MapStepCarries(w: World, c: nat, ix: seq<nat>, frame: nat, flags: Flags)
    requires WorldOk(w) && Walkable(w, c, ix)
    ensures Carries(w, MapStep(w, c, ix, frame, flags))
  {
    hide VmOk, Descend, MapIn, WalkRoles, KeepsWalks;
    MapInEffect(w.vm, w.roles, c, ix, frame, flags);
  }

  lemma UnmapCarries(w: World, c: nat, ix: seq<nat>)
    requires WorldOk(w) && Walkable(w, c, ix)
    ensures Carries(w, w.(vm := UnmapIn(w.vm, c, ix)))
  {
    hide VmOk, Descend, UnmapIn, KeepsWalks;
    UnmapInEffect(w.vm, w.roles, c, ix);
  }

  lemma TranslateCarries(w: World, c: nat, ix: seq<nat>)
    requires WorldOk(w) && Walkable(w, c, ix)
    ensures Carries(w, w.(vm := Walk(w.vm, c, ix, false, false).0))
  {
    hide VmOk, Descend, Walk, KeepsWalks;
    WalkExtends(w.vm, w.roles, c, ix, false, false);
    ExtendsParts(w.vm, w.roles, Walk(w.vm, c, ix, false, false).0, w.roles);
  }

  lemma CloneCovered(w: World, k: nat)
    requires WorldOk(w) && (k >= KERNEL_HALF ==> Covered(w, k))
    ensures WorldOk(CloneStep(w)) && (k >= KERNEL_HALF ==> Covered(CloneStep(w), k))
  {
    hide VmOk;
    VmTable(w.vm, w.roles, w.root);
    CloneEffect(w.vm, w.roles, w.root);
    var (vm, r) := Clone(w.vm, w.root);
    var w' := CloneStep(w);
    if k >= KERNEL_HALF {
      assert KeepsWalk(w.vm.tables, vm.tables, w.root, [k]);
      forall c: nat | IsSpace(w'.roles, c)
        ensures Descend(vm.tables, c, [k]) == Descend(w.vm.tables, w.root, [k])
      {
        if r.Some? && c == r.value {
          CloneTop(w.vm.tables, w.root, c, k);
        } else {
          assert IsSpace(w.roles, c);
          assert KeepsWalk(w.vm.tables, vm.tables, c, [k]);
        }
      }
    }
  }

  lemma CloneTop(ts: Tables, root: nat, g: nat, k: nat)
    requires TableAt(ts, root) && KERNEL_HALF <= k < ENTRIES
    ensures Descend(ts[g := ClonedTable(ts[root])], g, [k]) == Descend(ts, root, [k])
  {
    var ts' := ts[g := ClonedTable(ts[root])];
    assert ts'[g][k] == ts[root][k];
    if Leads(ts[root][k]) {
      assert Descend(ts', g, [k]) == Descend(ts', ts[root][k].frame, []);
      assert Descend(ts, root, [k]) == Descend(ts, ts[root][k].frame, []);
    }
  }

  lemma StepCovered(w: World, op: VmOp, k: nat)
    requires WorldOk(w) && OpOk(w, op) && KERNEL_HALF <= k && Covered(w, k)
    ensures WorldOk(Step(w, op)) && Covered(Step(w, op), k) && Step(w, op).root == w.root
  {
    hide VmOk, Covered, Carries;
    match op {
      case MapPage(virt, frame, flags) =>
        MapStepCarries(w, TargetSpace(w, virt), IxOf(virt), frame, flags);
        Carried(w, Step(w, op), k);
      case MapPageIn(c, ix, frame, flags) =>
        MapStepCarries(w, c, ix, frame, flags);
        Carried(w, Step(w, op), k);
      case UnmapPage(virt) =>
        UnmapCarries(w, TargetSpace(w, virt), IxOf(virt));
        Carried(w, Step(w, op), k);
      case UnmapPageIn(c, ix) =>
        UnmapCarries(w, c, ix);
        Carried(w, Step(w, op), k);
      case TranslateIn(c, ix) =>
        TranslateCarries(w, c, ix);
        Carried(w, Step(w, op), k);
      case CloneSpace => CloneCovered(w, k);
      case Switch(c) => SwitchCovered(w, c, k);
    }
  }

  lemma Carried(w: World, w': World, k: nat)
    requires WorldOk(w) && Carries(w, w') && Covered(w, k)
    ensures WorldOk(w') && Covered(w', k) && w'.root == w.root
  {
    CarriesCovered(w, w', k);
  }

  lemma SwitchCovered(w: World, c: nat, k: nat)
    requires WorldOk(w) && IsSpace(w.roles, c) && Covered(w, k)
    ensures WorldOk(w.(cr3 := c)) && Covered(w.(cr3 := c), k)
  {
  }

  /** A run in which every operation names a space that exists when it runs, and walks no large page. */
  ghost predicate RunOk(w: World, ops: seq<VmOp>)
    decreases |ops|
  {
    ops == [] || (WorldOk(w) && OpOk(w, ops[0]) && RunOk(Step(w, ops[0]), ops[1..]))
  }

  ghost function Run(w: World, ops: seq<VmOp>): (w': World)
    requires RunOk(w, ops)
    decreases |ops|
  {
    if ops == [] then w else Run(Step(w, ops[0]), ops[1..])
  }

  /** Once the root's entry k of the kernel half exists and every space has it, then after
      any run of maps, unmaps, clones and switches, from any space, every space translates
      every address under that entry exactly as the root does. */
  lemma {:induction false} KernelSeenAlike(w: World, ops: seq<VmOp>, k: nat, c: nat, ix: seq<nat>)
    requires WorldOk(w) && RunOk(w, ops) && KERNEL_HALF <= k && Covered(w, k)
    requires IsSpace(Run(w, ops).roles, c) && Ix(ix) && ix[0] == k
    ensures Look(Run(w, ops).vm.tables, c, ix) == Look(Run(w, ops).vm.tables, Run(w, ops).root, ix)
    ensures Run(w, ops).root == w.root
    decreases |ops|
  {
    if ops == [] {
      SameTopSameLook(w.vm.tables, c, w.root, ix);
    } else {
      hide Step, WorldOk, Covered, Look;
      StepCovered(w, ops[0], k);
      KernelSeenAlike(Step(w, ops[0]), ops[1..], k, c, ix);
    }
  }

  lemma SameTopSameLook(ts: Tables, c: nat, e: nat, ix: seq<nat>)
    requires Ix(ix) && PathOk([ix[0]]) && Descend(ts, c, [ix[0]]) == Descend(ts, e, [ix[0]])
    ensures Look(ts, c, ix) == Look(ts, e, ix)
  {
    hide Descend, LargeLook;
    SameTopSameWalk(ts, c, e, ix[0], ix[1..1]);
    SameTopSameWalk(ts, c, e, ix[0], ix[1..2]);
    SameTopSameWalk(ts, c, e, ix[0], ix[1..3]);
    assert ix[..1] == [ix[0]] + ix[1..1] && ix[..2] == [ix[0]] + ix[1..2] && ix[..3] == [ix[0]] + ix[1..3];
    LargeSame(ts, ts, c, e, ix);
  }

  lemma SameTopSameWalk(ts: Tables, c: nat, e: nat, k: nat, rest: seq<nat>)
    requires PathOk([k]) && PathOk(rest) && Descend(ts, c, [k]) == Descend(ts, e, [k])
    ensures PathOk([k] + rest) && Descend(ts, c, [k] + rest) == Descend(ts, e, [k] + rest)
  {
    hide Descend;
    DescendSplit(ts, c, [k], rest);
    DescendSplit(ts, e, [k], rest);
  }

  // ---- large pages over whole runs ----

  /** No space has a large page on its walk for ix. */
  ghost predicate AllClear(w: World, ix: seq<nat>) {
    Ix(ix) && forall c: nat | IsSpace(w.roles, c) :: Clear(w.vm.tables, c, ix)
  }

  lemma CarriesClear(w: World, w': World, ix: seq<nat>)
    requires WorldOk(w) && Carries(w, w') && AllClear(w, ix)
    ensures WorldOk(w') && AllClear(w', ix)
  {
    hide VmOk, Clear, KeepsWalks;
    forall c: nat | IsSpace(w'.roles, c) ensures Clear(w'.vm.tables, c, ix) {
      KeepsClear(w.vm.tables, w'.vm.tables, w.roles, c, ix);
    }
  }

  lemma CloneAllClear(w: World, ix: seq<nat>)
    requires WorldOk(w) && AllClear(w, ix)
    ensures WorldOk(CloneStep(w)) && AllClear(CloneStep(w), ix)
  {
    hide Forest, Clear, Alloc, KeepsWalks;
    VmTable(w.vm, w.roles, w.root);
    CloneCovered(w, 0);
    CloneEffect(w.vm, w.roles, w.root);
    var (vm, r) := Clone(w.vm, w.root);
    var w' := CloneStep(w);
    forall c: nat | IsSpace(w'.roles, c) ensures Clear(vm.tables, c, ix) {
      if r.Some? && c == r.value {
        CloneClear(w.vm.tables, w.roles, w.root, c, ix);
      } else {
        KeepsClear(w.vm.tables, vm.tables, w.roles, c, ix);
      }
    }
  }

  /** No operation puts a large page on a walk. */
  lemma StepClear(w: World, op: VmOp, ix: seq<nat>)
    requires WorldOk(w) && OpOk(w, op) && AllClear(w, ix)
    ensures WorldOk(Step(w, op)) && AllClear(Step(w, op), ix)
  {
    hide VmOk, Clear, Carries;
    match op {
      case MapPage(virt, frame, flags) => MapStepCarries(w, TargetSpace(w, virt), IxOf(virt), frame, flags);
      case MapPageIn(c, jx, frame, flags) => MapStepCarries(w, c, jx, frame, flags);
      case UnmapPage(virt) => UnmapCarries(w, TargetSpace(w, virt), IxOf(virt));
      case UnmapPageIn(c, jx) => UnmapCarries(w, c, jx);
      case TranslateIn(c, jx) => TranslateCarries(w, c, jx);
      case CloneSpace => CloneAllClear(w, ix);
      case Switch(c) =>
    }
    if !op.CloneSpace? && !op.Switch? {
      CarriesClear(w, Step(w, op), ix);
    }
  }

  /** A page whose walk is clear in every space when a run starts can be mapped, unmapped and translated in
      every space, old or new, when it ends. In the user half every page is such a page. */
  lemma {:induction false} RunClear(w: World, ops: seq<VmOp>, ix: seq<nat>)
    requires WorldOk(w) && RunOk(w, ops) && Ix(ix) && (ix[0] < KERNEL_HALF || AllClear(w, ix))
    ensures AllClear(Run(w, ops), ix)
    decreases |ops|
  {
    hide Step, VmOk, Clear;
    if ix[0] < KERNEL_HALF {
      forall c: nat | IsSpace(w.roles, c) ensures Clear(w.vm.tables, c, ix) {
        UserIsClear(w.vm, w.roles, c, ix);
      }
    }
    if ops != [] {
      StepClear(w, ops[0], ix);
      RunClear(Step(w, ops[0]), ops[1..], ix);
    }
  }

  // ---- reserving the heap's tables at boot ----

  ghost function ReserveOne(w: World, ix: seq<nat>): World
    requires WorldOk(w) && Walkable(w, w.root, ix)
  {
    w.(vm := Walk(w.vm, w.root, ix, true, false).0, roles := WalkRoles(w.vm, w.roles, w.root, ix, true))
  }

  ghost predicate AllWalkable(w: World, pages: seq<seq<nat>>) {
    forall i | 0 <= i < |pages| :: Walkable(w, w.root, pages[i])
  }

  /** vmm_reserve_tables: walk every page of the region in the root space, creating tables. */
  ghost function Reserve(w: World, pages: seq<seq<nat>>): (w': World)
    requires WorldOk(w) && AllWalkable(w, pages)
    decreases |pages|
  {
    if pages == [] then w
    else
      ReserveOneCarries(w, pages[0]);
      StaysWalkable(w, ReserveOne(w, pages[0]), pages[1..]);
      Reserve(ReserveOne(w, pages[0]), pages[1..])
  }

  lemma StaysWalkable(w: World, w': World, pages: seq<seq<nat>>)
    requires WorldOk(w) && Carries(w, w') && AllWalkable(w, pages)
    ensures AllWalkable(w', pages)
  {
    hide Clear, VmOk, KeepsWalks;
    forall i | 0 <= i < |pages| ensures Walkable(w', w'.root, pages[i]) {
      KeepsClear(w.vm.tables, w'.vm.tables, w.roles, w.root, pages[i]);
    }
  }

  lemma ReserveOneCarries(w: World, ix: seq<nat>)
    requires WorldOk(w) && Walkable(w, w.root, ix)
    ensures var (vm, r) := Walk(w.vm, w.root, ix, true, false);
            && Carries(w, ReserveOne(w, ix))
            && (r.Some? ==> PathOk([ix[0]]) && Descend(vm.tables, w.root, [ix[0]]).Some?)
  {
    hide VmOk, Walk, WalkRoles, Descend;
    WalkExtends(w.vm, w.roles, w.root, ix, true, false);
    var (vm, r) := Walk(w.vm, w.root, ix, true, false);
    ExtendsParts(w.vm, w.roles, vm, WalkRoles(w.vm, w.roles, w.root, ix, true));
    if r.Some? {
      assert ix[..3] == [ix[0]] + ix[1..3];
      DescendSplit(vm.tables, w.root, [ix[0]], ix[1..3]);
    }
  }

  /** At boot, with the root as the only space, reserving a region leaves the top-level
      entries of all its pages in place, unless the allocator ran dry. */
  lemma {:induction false} ReserveCovers(w: World, pages: seq<seq<nat>>, i: nat)
    requires WorldOk(w) && AllWalkable(w, pages) && i < |pages|
    requires forall c: nat :: IsSpace(w.roles, c) <==> c == w.root
    ensures WorldOk(Reserve(w, pages))
    ensures Covered(Reserve(w, pages), pages[i][0]) || Exhausted(Reserve(w, pages).vm.pool)
    decreases |pages|
  {
    hide WorldOk, Carries, Walk, WalkRoles, Exhausted, Covered, Descend;
    ReserveOneCarries(w, pages[0]);
    var w1 := ReserveOne(w, pages[0]);
    StaysWalkable(w, w1, pages[1..]);
    ReserveStep(w, pages[0]);
    if i > 0 {
      ReserveCovers(w1, pages[1..], i - 1);
    } else {
      ReserveLater(w1, pages[1..], pages[0][0]);
    }
  }

  lemma ReserveStep(w: World, ix: seq<nat>)
    requires WorldOk(w) && Walkable(w, w.root, ix)
    requires forall c: nat :: IsSpace(w.roles, c) <==> c == w.root
    ensures var w1 := ReserveOne(w, ix);
            && WorldOk(w1) && w1.root == w.root
            && (forall c: nat :: IsSpace(w1.roles, c) <==> c == w1.root)
            && (Covered(w1, ix[0]) || Exhausted(w1.vm.pool))
            && (Exhausted(w.vm.pool) ==> Exhausted(w1.vm.pool))
  {
    hide VmOk, Walk, WalkRoles, Descend;
    ReserveOneCarries(w, ix);
    WalkExtends(w.vm, w.roles, w.root, ix, true, false);
    ExtendsParts(w.vm, w.roles, ReserveOne(w, ix).vm, ReserveOne(w, ix).roles);
  }

  /** Later walks keep an entry that is there, and an empty allocator stays empty. */
  lemma {:induction false} ReserveLater(w: World, pages: seq<seq<nat>>, k: nat)
    requires WorldOk(w) && AllWalkable(w, pages)
    requires forall c: nat :: IsSpace(w.roles, c) <==> c == w.root
    requires Covered(w, k) || Exhausted(w.vm.pool)
    ensures WorldOk(Reserve(w, pages))
    ensures Covered(Reserve(w, pages), k) || Exhausted(Reserve(w, pages).vm.pool)
    decreases |pages|
  {
    if pages != [] {
      hide WorldOk, Carries, Walk, WalkRoles, Exhausted, Covered, Descend;
      ReserveOneCarries(w, pages[0]);
      StaysWalkable(w, ReserveOne(w, pages[0]), pages[1..]);
      ReserveStep(w, pages[0]);
      if Covered(w, k) {
        CarriesCovered(w, ReserveOne(w, pages[0]), k);
      }
      ReserveLater(ReserveOne(w, pages[0]), pages[1..], k);
    }
  }

  /** Every walk of the reservation found or made its leaf table. */
  ghost predicate Reserves(w: World, pages: seq<seq<nat>>)
    requires WorldOk(w) && AllWalkable(w, pages)
    decreases |pages|
  {
    if pages == [] then true
    else
      ReserveOneCarries(w, pages[0]);
      StaysWalkable(w, ReserveOne(w, pages[0]), pages[1..]);
      Walk(w.vm, w.root, pages[0], true, false).1.Some? && Reserves(ReserveOne(w, pages[0]), pages[1..])
  }

  ghost predicate OnlyRoot(w: World) {
    forall c: nat :: IsSpace(w.roles, c) <==> c == w.root
  }

  /** All spaces share the top-level entry of the page, and its leaf table exists. */
  ghost predicate TablesReady(w: World, ix: seq<nat>) {
    Ix(ix) && Covered(w, ix[0]) && Descend(w.vm.tables, w.root, ix[..3]).Some? && Walkable(w, w.root, ix)
  }

  lemma CarriesReady(w: World, w': World, ix: seq<nat>)
    requires WorldOk(w) && Carries(w, w') && TablesReady(w, ix)
    ensures WorldOk(w') && TablesReady(w', ix)
  {
    hide VmOk, Descend, Clear, KeepsWalks, Covered, KeepsWalk;
    CarriesCovered(w, w', ix[0]);
    KeepsClear(w.vm.tables, w'.vm.tables, w.roles, w.root, ix);
    KeepsThis(w.vm.tables, w'.vm.tables, w.roles, w.root, ix);
  }

  lemma KeepsThis(ts: Tables, ts': Tables, roles: Roles, c: nat, ix: seq<nat>)
    requires KeepsWalks(ts, ts', roles) && IsSpace(roles, c) && Ix(ix) && Descend(ts, c, ix[..3]).Some?
    ensures Descend(ts', c, ix[..3]).Some?
  {
    hide Descend, ClearPath;
    assert KeepsWalk(ts, ts', c, ix[..3]);
  }

  lemma {:induction false} ReserveKeepsReady(w: World, pages: seq<seq<nat>>, ix: seq<nat>)
    requires WorldOk(w) && AllWalkable(w, pages) && TablesReady(w, ix)
    ensures WorldOk(Reserve(w, pages)) && TablesReady(Reserve(w, pages), ix)
    decreases |pages|
  {
    if pages != [] {
      hide WorldOk, Carries, TablesReady, ReserveOne, Walk;
      ReserveOneCarries(w, pages[0]);
      StaysWalkable(w, ReserveOne(w, pages[0]), pages[1..]);
      CarriesReady(w, ReserveOne(w, pages[0]), ix);
      ReserveKeepsReady(ReserveOne(w, pages[0]), pages[1..], ix);
    }
  }

  /** One walk of the reservation that succeeds puts its page in place. */
  lemma ReserveOneReady(w: World, ix: seq<nat>)
    requires WorldOk(w) && OnlyRoot(w) && Walkable(w, w.root, ix) && Walk(w.vm, w.root, ix, true, false).1.Some?
    ensures WorldOk(ReserveOne(w, ix)) && OnlyRoot(ReserveOne(w, ix)) && TablesReady(ReserveOne(w, ix), ix)
  {
    hide VmOk, Walk, WalkRoles, Descend, Clear, Extends, Exhausted, KeepsWalks;
    ReserveOneCarries(w, ix);
    WalkExtends(w.vm, w.roles, w.root, ix, true, false);
    KeepsClear(w.vm.tables, ReserveOne(w, ix).vm.tables, w.roles, w.root, ix);
  }

  /** A reservation at boot that did not run out of memory puts all its pages in place. */
  lemma {:induction false} ReservesAll(w: World, pages: seq<seq<nat>>, i: nat)
    requires WorldOk(w) && OnlyRoot(w) && AllWalkable(w, pages) && Reserves(w, pages) && i < |pages|
    ensures WorldOk(Reserve(w, pages)) && TablesReady(Reserve(w, pages), pages[i])
    decreases |pages|
  {
    hide WorldOk, Carries, TablesReady, ReserveOne, Walk;
    ReserveOneCarries(w, pages[0]);
    var w1 := ReserveOne(w, pages[0]);
    StaysWalkable(w, w1, pages[1..]);
    ReserveOneReady(w, pages[0]);
    if i == 0 {
      ReserveKeepsReady(w1, pages[1..], pages[0]);
    } else {
      ReservesAll(w1, pages[1..], i - 1);
    }
  }

  lemma StepReady(w: World, op: VmOp, ix: seq<nat>)
    requires WorldOk(w) && OpOk(w, op) && TablesReady(w, ix) && ix[0] >= KERNEL_HALF
    ensures WorldOk(Step(w, op)) && TablesReady(Step(w, op), ix) && Step(w, op).root == w.root
  {
    hide VmOk, Covered, Carries, Clear, KeepsWalks, Descend;
    StepCovered(w, op, ix[0]);
    match op {
      case MapPage(virt, frame, flags) => MapStepCarries(w, TargetSpace(w, virt), IxOf(virt), frame, flags);
      case MapPageIn(c, jx, frame, flags) => MapStepCarries(w, c, jx, frame, flags);
      case UnmapPage(virt) => UnmapCarries(w, TargetSpace(w, virt), IxOf(virt));
      case UnmapPageIn(c, jx) => UnmapCarries(w, c, jx);
      case TranslateIn(c, jx) => TranslateCarries(w, c, jx);
      case CloneSpace =>
        VmTable(w.vm, w.roles, w.root);
        CloneEffect(w.vm, w.roles, w.root);
        KeepsClear(w.vm.tables, CloneStep(w).vm.tables, w.roles, w.root, ix);
        KeepsThis(w.vm.tables, CloneStep(w).vm.tables, w.roles, w.root, ix);
      case Switch(c) =>
    }
    if !op.CloneSpace? && !op.Switch? {
      CarriesReady(w, Step(w, op), ix);
    }
  }

  lemma {:induction false} RunReady(w: World, ops: seq<VmOp>, ix: seq<nat>)
    requires WorldOk(w) && RunOk(w, ops) && TablesReady(w, ix) && ix[0] >= KERNEL_HALF
    ensures WorldOk(Run(w, ops)) && TablesReady(Run(w, ops), ix) && Run(w, ops).root == w.root
    decreases |ops|
  {
    if ops != [] {
      hide Step, WorldOk, TablesReady;
      StepReady(w, ops[0], ix);
      RunReady(Step(w, ops[0]), ops[1..], ix);
    }
  }

  /** Where the leaf table exists, mapping succeeds and takes no memory. */
  lemma ReadyMaps(w: World, ix: seq<nat>, frame: nat, flags: Flags)
    requires WorldOk(w) && TablesReady(w, ix)
    ensures var (vm, ok) := MapIn(w.vm, w.root, ix, frame, flags);
            ok && vm.pool == w.vm.pool && Look(vm.tables, w.root, ix) == Some(frame)
  {
    hide VmOk, Descend, ClearPath, WalkRoles, Look, Mapped, Exhausted, KeepsWalks, SameLooks;
    MapInEffect(w.vm, w.roles, w.root, ix, frame, flags);
    ReachThere(w.vm, w.root, ix[..3]);
    var (vm, ok) := MapIn(w.vm, w.root, ix, frame, flags);
    MapInReached(w, ix, frame, flags);
    MappedHere(w.vm.tables, vm.tables, w.roles, w.root, ix, Some(frame));
  }

  lemma MapInReached(w: World, ix: seq<nat>, frame: nat, flags: Flags)
    requires WorldOk(w) && TablesReady(w, ix)
    ensures MapIn(w.vm, w.root, ix, frame, flags).1 && MapIn(w.vm, w.root, ix, frame, flags).0.pool == w.vm.pool
  {
    hide Forest, ClearPath, Descend;
    ReachThere(w.vm, w.root, ix[..3]);
    var t := Descend(w.vm.tables, w.root, ix[..3]).value;
    DescendRole(w.vm.tables, w.roles, w.root, ix[..3]);
    WalkExtends(w.vm, w.roles, w.root, ix, true, flags.user);
    var vm, roles' := Walk(w.vm, w.root, ix, true, flags.user).0, WalkRoles(w.vm, w.roles, w.root, ix, true);
    ExtendsKeepsRole(w.vm, w.roles, vm, roles', t);
    VmTable(vm, roles', t);
  }

  lemma {:induction false} ReachThere(s: Vm, f: nat, p: seq<nat>)
    requires PathOk(p) && Descend(s.tables, f, p).Some?
    ensures Reach(s, f, p, true) == (s, Descend(s.tables, f, p))
    decreases |p|
  {
    if p != [] {
      ReachThere(s, s.tables[f][p[0]].frame, p[1..]);
    }
  }

  /** The heap. When the reservation at boot did not run out of memory, then after any later run, from any
      space, a page of the reserved region can still be mapped without further memory, and every space
      translates it as the root does. */
  lemma {:induction false} ReservedHeap(w: World, pages: seq<seq<nat>>, ops: seq<VmOp>, i: nat, c: nat, frame: nat,
                                        flags: Flags)
    requires WorldOk(w) && OnlyRoot(w) && AllWalkable(w, pages) && Reserves(w, pages)
    requires i < |pages| && pages[i][0] >= KERNEL_HALF
    requires RunOk(Reserve(w, pages), ops) && IsSpace(Run(Reserve(w, pages), ops).roles, c)
    ensures var w' := Run(Reserve(w, pages), ops);
            && Look(w'.vm.tables, c, pages[i]) == Look(w'.vm.tables, w'.root, pages[i])
            && var (vm, ok) := MapIn(w'.vm, w'.root, pages[i], frame, flags);
               ok && vm.pool == w'.vm.pool && Look(vm.tables, w'.root, pages[i]) == Some(frame)
  {
    hide RunOk, Run, Reserve, Reserves, Look, MapIn, WorldOk;
    ReservesAll(w, pages, i);
    KernelSeenAlike(Reserve(w, pages), ops, pages[i][0], c, pages[i]);
    RunReady(Reserve(w, pages), ops, pages[i]);
    ReadyMaps(Run(Reserve(w, pages), ops), pages[i], frame, flags);
  }
}
