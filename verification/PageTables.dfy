/** Four-level page tables (Intel SDM volume 3A, section 4.5) as kernel/mm/vmm.c builds them:
    tables by frame, walks that create missing levels, and what they translate. */
module PageTables {
  import opened Base
  import opened Pmm

  const ENTRIES: nat := 512
  /** First top-level index of the kernel half. */
  const KERNEL_HALF: nat := 256

  datatype Pte = Pte(present: bool, write: bool, user: bool, ps: bool, nx: bool, frame: nat)

  const NoEntry: Pte := Pte(false, false, false, false, false, 0)

  function EmptyTable(): seq<Pte> {
    seq(ENTRIES, _ => NoEntry)
  }

  type Tables = map<nat, seq<Pte>>

  /** The page tables in memory and the frame allocator they come from. */
  datatype Vm = Vm(tables: Tables, pool: Pool)

  predicate TableAt(ts: Tables, f: nat) {
    f in ts && |ts[f]| == ENTRIES
  }

  predicate PathOk(p: seq<nat>) {
    forall i | 0 <= i < |p| :: p[i] < ENTRIES
  }

  /** The entry leads to a table of the next level: it is present and maps no large page. */
  predicate Leads(e: Pte) {
    e.present && !e.ps
  }

  /** The table reached from f along p, when every entry on the way leads to a table. */
  function Descend(ts: Tables, f: nat, p: seq<nat>): Option<nat>
    requires PathOk(p)
    decreases |p|
  {
    if p == [] then Some(f)
    else if TableAt(ts, f) && Leads(ts[f][p[0]]) then Descend(ts, ts[f][p[0]].frame, p[1..])
    else None
  }

  /** The first frame of the large page that entry k of table t maps, if it does. */
  function LargeAt(ts: Tables, t: Option<nat>, k: nat): Option<nat> {
    if t.Some? && TableAt(ts, t.value) && k < ENTRIES && ts[t.value][k].present && ts[t.value][k].ps
    then Some(ts[t.value][k].frame) else None
  }

  /** The frames of a large page whose entry is d levels below the root. */
  function LargeFrames(d: nat): (n: nat)
    ensures n > 0
  {
    if d == 1 then ENTRIES * ENTRIES else ENTRIES
  }

  /** The frame at ix inside a large page from frame b on, whose entry is d levels below the root. An entry that is
      not aligned to the size of the page has reserved bits set, and the processor faults. */
  function LargeFrame(d: nat, b: nat, ix: seq<nat>): Option<nat>
    requires |ix| == 4
  {
    if b % LargeFrames(d) == 0 then Some(b + Offset(d, ix)) else None
  }

  /** Which of the large page's frames it is. */
  function Offset(d: nat, ix: seq<nat>): nat
    requires |ix| == 4
  {
    if d == 1 then ENTRIES * ix[2] + ix[3] else ix[3]
  }

  /** The frame at ix inside a page of 1 GiB, which a second-level table maps, or of 2 MiB, which a
      third-level table maps. */
  function LargeLook(ts: Tables, c: nat, ix: seq<nat>): Option<nat>
    requires PathOk(ix) && |ix| == 4
  {
    match LargeAt(ts, Descend(ts, c, ix[..1]), ix[1])
    case Some(b) => LargeFrame(1, b, ix)
    case None =>
      match LargeAt(ts, Descend(ts, c, ix[..2]), ix[2])
      case Some(b) => LargeFrame(2, b, ix)
      case None => None
  }

  /** The frame that space c maps at index path ix (four indices), if any. */
  function Look(ts: Tables, c: nat, ix: seq<nat>): Option<nat>
    requires PathOk(ix) && |ix| == 4
  {
    match Descend(ts, c, ix[..3])
    case None => LargeLook(ts, c, ix)
    case Some(t) =>
      if TableAt(ts, t) && ts[t][ix[3]].present then Some(ts[t][ix[3]].frame) else None
  }

  // ---- the forest ----

  /** A table's place: the space that created it and its path from that space's root. */
  datatype Role = Role(space: nat, path: seq<nat>)

  type Roles = map<nat, Role>

  /** An entry of an upper-level table with role r maps a large page of the kernel half, or leads to the
      child table, which has the same owner except across the shared kernel half. */
  ghost predicate LinkOk(roles: Roles, r: Role, k: nat, e: Pte) {
    && (e.ps ==> e.present && r.path != [] && r.path[0] >= KERNEL_HALF)
    && (Leads(e) ==>
          && e.frame in roles && roles[e.frame].path == r.path + [k]
          && (roles[e.frame].space == r.space || (r.path == [] && k >= KERNEL_HALF)))
  }

  ghost predicate Placed(ts: Tables, roles: Roles, f: nat)
    requires f in roles
  {
    var r := roles[f];
    && TableAt(ts, f) && |r.path| <= 3 && PathOk(r.path)
    && (r.path == [] ==> r.space == f)
    && r.space in roles && roles[r.space].path == []
    && Descend(ts, r.space, r.path) == Some(f)
  }

  ghost predicate Distinct(roles: Roles) {
    forall f, g | f in roles && g in roles && roles[f] == roles[g] :: f == g
  }

  /** Distinct tables have distinct places, every table is reached from its owner, every
      upper entry leads to the table of its place or maps a large page of the kernel half. */
  ghost predicate Forest(ts: Tables, roles: Roles) {
    && Distinct(roles)
    && (forall f | f in roles :: Placed(ts, roles, f))
    && (forall f, k | f in roles && |roles[f].path| < 3 && 0 <= k < ENTRIES && TableAt(ts, f) ::
          LinkOk(roles, roles[f], k, ts[f][k]))
  }

  lemma ForestTable(ts: Tables, roles: Roles, f: nat)
    requires Forest(ts, roles) && f in roles
    ensures Placed(ts, roles, f)
  {
  }

  lemma ForestLink(ts: Tables, roles: Roles, f: nat, k: nat)
    requires Forest(ts, roles) && f in roles && |roles[f].path| < 3 && k < ENTRIES
    ensures TableAt(ts, f) && LinkOk(roles, roles[f], k, ts[f][k])
  {
    assert Placed(ts, roles, f);
  }

  ghost predicate IsSpace(roles: Roles, c: nat) {
    c in roles && roles[c].path == []
  }

  lemma DescendSplit(ts: Tables, f: nat, p: seq<nat>, q: seq<nat>)
    requires PathOk(p) && PathOk(q)
    ensures PathOk(p + q)
    ensures Descend(ts, f, p + q) ==
            match Descend(ts, f, p) { case None => None case Some(g) => Descend(ts, g, q) }
    decreases |p|
  {
    if p == [] {
      assert p + q == q;
    } else {
      assert (p + q)[1..] == p[1..] + q;
      if TableAt(ts, f) && Leads(ts[f][p[0]]) {
        DescendSplit(ts, ts[f][p[0]].frame, p[1..], q);
      }
    }
  }

  /** A walk from a table stays in the forest, at the place its path says. */
  lemma {:induction false} DescendRole(ts: Tables, roles: Roles, f: nat, p: seq<nat>)
    requires Forest(ts, roles) && f in roles && PathOk(p) && |roles[f].path| + |p| <= 3
    requires Descend(ts, f, p).Some?
    ensures var g := Descend(ts, f, p).value;
            && g in roles && roles[g].path == roles[f].path + p
            && (roles[g].space == roles[f].space || (roles[f].path == [] && p != [] && p[0] >= KERNEL_HALF))
    decreases |p|
  {
    hide Forest;
    if p != [] {
      ForestLink(ts, roles, f, p[0]);
      var g := ts[f][p[0]].frame;
      DescendRole(ts, roles, g, p[1..]);
      assert roles[f].path + p == (roles[f].path + [p[0]]) + p[1..];
    } else {
      assert roles[f].path + p == roles[f].path;
    }
  }

  // ---- large pages ----

  /** No large page lies on the way along p. */
  predicate ClearPath(ts: Tables, f: nat, p: seq<nat>)
    requires PathOk(p)
    decreases |p|
  {
    p == [] || !TableAt(ts, f)
    || (!ts[f][p[0]].ps && (ts[f][p[0]].present ==> ClearPath(ts, ts[f][p[0]].frame, p[1..])))
  }

  /** The walk for ix in space c meets no large page. */
  predicate Clear(ts: Tables, c: nat, ix: seq<nat>)
    requires PathOk(ix) && |ix| == 4
  {
    ClearPath(ts, c, ix[..3])
  }

  /** Behind a walk along the first part of a clear path, the rest is clear. */
  lemma {:induction false} ClearRest(ts: Tables, f: nat, p: seq<nat>, q: seq<nat>)
    requires PathOk(p) && PathOk(q) && PathOk(p + q) && ClearPath(ts, f, p + q) && Descend(ts, f, p).Some?
    ensures ClearPath(ts, Descend(ts, f, p).value, q)
    decreases |p|
  {
    if p == [] {
      assert p + q == q;
    } else {
      assert (p + q)[1..] == p[1..] + q;
      ClearRest(ts, ts[f][p[0]].frame, p[1..], q);
    }
  }

  lemma ClearNotLarge(ts: Tables, f: nat, p: seq<nat>, q: seq<nat>)
    requires PathOk(p) && PathOk(q) && q != [] && PathOk(p + q) && ClearPath(ts, f, p + q)
    ensures LargeAt(ts, Descend(ts, f, p), q[0]) == None
  {
    if Descend(ts, f, p).Some? {
      ClearRest(ts, f, p, q);
    }
  }

  /** A clear walk meets no large page, so nothing is mapped where it ends early. */
  lemma ClearLook(ts: Tables, c: nat, ix: seq<nat>)
    requires PathOk(ix) && |ix| == 4 && Clear(ts, c, ix)
    ensures LargeLook(ts, c, ix) == None
  {
    hide ClearPath, Descend;
    assert ix[..3] == ix[..1] + ix[1..3] && ix[..3] == ix[..2] + ix[2..3];
    ClearNotLarge(ts, c, ix[..1], ix[1..3]);
    ClearNotLarge(ts, c, ix[..2], ix[2..3]);
  }

  /** The user half holds no large pages. */
  lemma {:induction false} UserClear(ts: Tables, roles: Roles, f: nat, p: seq<nat>)
    requires Forest(ts, roles) && f in roles && PathOk(p) && |roles[f].path| + |p| <= 3
    requires roles[f].path + p != [] ==> (roles[f].path + p)[0] < KERNEL_HALF
    ensures ClearPath(ts, f, p)
    decreases |p|
  {
    hide Forest;
    if p != [] {
      ForestLink(ts, roles, f, p[0]);
      if Leads(ts[f][p[0]]) {
        assert roles[f].path + p == roles[f].path + [p[0]] + p[1..];
        UserClear(ts, roles, ts[f][p[0]].frame, p[1..]);
      }
    }
  }

  /** Large pages stay where they were if the tables above them did. */
  lemma LargeSame(ts: Tables, ts': Tables, c: nat, c': nat, ix: seq<nat>)
    requires PathOk(ix) && |ix| == 4
    requires LargeAt(ts', Descend(ts', c', ix[..1]), ix[1]) == LargeAt(ts, Descend(ts, c, ix[..1]), ix[1])
    requires LargeAt(ts', Descend(ts', c', ix[..2]), ix[2]) == LargeAt(ts, Descend(ts, c, ix[..2]), ix[2])
    ensures LargeLook(ts', c', ix) == LargeLook(ts, c, ix)
  {
  }

  // ---- linking a fresh empty table ----

  function TableEntry(g: nat): Pte {
    Pte(true, true, true, false, false, g)
  }

  function Link(ts: Tables, f: nat, k: nat, g: nat): Tables
    requires TableAt(ts, f) && k < ENTRIES
  {
    ts[g := EmptyTable()][f := ts[f][k := TableEntry(g)]]
  }

  /** Entry k of upper-level table f is free and frame g is not a table yet. */
  ghost predicate CanLink(ts: Tables, roles: Roles, f: nat, k: nat, g: nat) {
    && Forest(ts, roles) && f in roles && |roles[f].path| < 3 && k < ENTRIES
    && TableAt(ts, f) && !ts[f][k].present && !ts[f][k].ps && g !in roles
  }

  /** Linking adds exactly one path end: the new table. */
  lemma {:induction false} LinkDescend(ts: Tables, roles: Roles, f: nat, k: nat, g: nat, h: nat, p: seq<nat>)
    requires CanLink(ts, roles, f, k, g) && h in roles && PathOk(p) && |roles[h].path| + |p| <= 3
    ensures var ts', n := Link(ts, f, k, g), |p| - 1;
            Descend(ts', h, p) ==
              if Descend(ts, h, p).Some? then Descend(ts, h, p)
              else if n >= 0 && p[n] == k && Descend(ts, h, p[..n]) == Some(f) then Some(g)
              else None
    decreases |p|
  {
    hide Forest;
    if p != [] {
      ForestLink(ts, roles, h, p[0]);
      var ts', n := Link(ts, f, k, g), |p| - 1;
      if h == f && p[0] == k {
        LinkEnd(ts, f, k, g, p);
      } else {
        assert ts'[h][p[0]] == ts[h][p[0]];
        if Leads(ts[h][p[0]]) {
          LinkDescend(ts, roles, f, k, g, ts[h][p[0]].frame, p[1..]);
          if n > 0 {
            assert p[1..][..n - 1] == p[..n][1..];
          }
        } else if n > 0 {
          assert Descend(ts, h, p[..n]) == None;
        }
      }
    }
  }

  lemma LinkEnd(ts: Tables, f: nat, k: nat, g: nat, p: seq<nat>)
    requires TableAt(ts, f) && k < ENTRIES && !ts[f][k].present && g != f
    requires PathOk(p) && p != [] && p[0] == k
    ensures Descend(ts, f, p) == None
    ensures |p| == 1 ==> Descend(Link(ts, f, k, g), f, p) == Some(g) && Descend(ts, f, p[..0]) == Some(f)
    ensures |p| > 1 ==> Descend(Link(ts, f, k, g), f, p) == None && Descend(ts, f, p[..|p| - 1]) == None
  {
    var ts' := Link(ts, f, k, g);
    assert Descend(ts', f, p) == Descend(ts', g, p[1..]);
    if |p| > 1 {
      assert !ts'[g][p[1..][0]].present;
    }
  }

  lemma NoStep(ts: Tables, f: nat, k: nat)
    requires TableAt(ts, f) && k < ENTRIES && !ts[f][k].present
    ensures Descend(ts, f, [k]) == None
  {
  }

  ghost function LinkRoles(roles: Roles, f: nat, k: nat, g: nat): Roles
    requires f in roles
  {
    roles[g := Role(roles[f].space, roles[f].path + [k])]
  }

  /** The place of the new table was vacant. */
  lemma LinkPlaceVacant(ts: Tables, roles: Roles, f: nat, k: nat, g: nat, h: nat)
    requires CanLink(ts, roles, f, k, g) && h in roles
    ensures roles[h] != Role(roles[f].space, roles[f].path + [k])
  {
    hide Forest;
    ForestTable(ts, roles, f);
    ForestTable(ts, roles, h);
    DescendSplit(ts, roles[f].space, roles[f].path, [k]);
    NoStep(ts, f, k);
  }

  lemma LinkReaches(ts: Tables, roles: Roles, f: nat, k: nat, g: nat, h: nat)
    requires CanLink(ts, roles, f, k, g) && h in LinkRoles(roles, f, k, g)
    ensures var r := LinkRoles(roles, f, k, g)[h];
            PathOk(r.path) && Descend(Link(ts, f, k, g), r.space, r.path) == Some(h)
  {
    hide Forest, Link;
    var r := LinkRoles(roles, f, k, g)[h];
    ForestTable(ts, roles, if h == g then f else h);
    LinkDescend(ts, roles, f, k, g, r.space, r.path);
    if h == g {
      DescendSplit(ts, r.space, roles[f].path, [k]);
      NoStep(ts, f, k);
      assert r.path[..|r.path| - 1] == roles[f].path;
    }
  }

  lemma LinkDistinct(ts: Tables, roles: Roles, f: nat, k: nat, g: nat)
    requires CanLink(ts, roles, f, k, g)
    ensures Distinct(LinkRoles(roles, f, k, g))
  {
    forall h | h in roles ensures roles[h] != Role(roles[f].space, roles[f].path + [k]) {
      LinkPlaceVacant(ts, roles, f, k, g, h);
    }
  }

  lemma LinkPlaced(ts: Tables, roles: Roles, f: nat, k: nat, g: nat, h: nat)
    requires CanLink(ts, roles, f, k, g) && h in LinkRoles(roles, f, k, g)
    ensures Placed(Link(ts, f, k, g), LinkRoles(roles, f, k, g), h)
  {
    hide Forest;
    ForestTable(ts, roles, if h == g then f else h);
    LinkReaches(ts, roles, f, k, g, h);
  }

  lemma LinkLinked(ts: Tables, roles: Roles, f: nat, k: nat, g: nat, h: nat, j: nat)
    requires CanLink(ts, roles, f, k, g) && h in LinkRoles(roles, f, k, g) && j < ENTRIES
    requires var r := LinkRoles(roles, f, k, g)[h]; |r.path| < 3 && TableAt(Link(ts, f, k, g), h)
    ensures var roles' := LinkRoles(roles, f, k, g);
            LinkOk(roles', roles'[h], j, Link(ts, f, k, g)[h][j])
  {
    hide Forest;
    if h in roles {
      ForestLink(ts, roles, h, j);
    }
  }

  lemma LinkForest(ts: Tables, roles: Roles, f: nat, k: nat, g: nat)
    requires CanLink(ts, roles, f, k, g)
    ensures Forest(Link(ts, f, k, g), LinkRoles(roles, f, k, g))
  {
    hide Forest, Link, LinkRoles, LinkOk, Placed, Distinct;
    var ts', roles' := Link(ts, f, k, g), LinkRoles(roles, f, k, g);
    LinkDistinct(ts, roles, f, k, g);
    forall h | h in roles' ensures Placed(ts', roles', h) {
      LinkPlaced(ts, roles, f, k, g, h);
    }
    forall h, j | h in roles' && |roles'[h].path| < 3 && 0 <= j < ENTRIES && TableAt(ts', h)
      ensures LinkOk(roles', roles'[h], j, ts'[h][j])
    {
      LinkLinked(ts, roles, f, k, g, h, j);
    }
    MakeForest(ts', roles');
  }

  lemma MakeForest(ts: Tables, roles: Roles)
    requires Distinct(roles) && forall f | f in roles :: Placed(ts, roles, f)
    requires forall f, k | f in roles && |roles[f].path| < 3 && 0 <= k < ENTRIES && TableAt(ts, f) ::
               LinkOk(roles, roles[f], k, ts[f][k])
    ensures Forest(ts, roles)
  {
  }

  lemma LinkLarge(ts: Tables, roles: Roles, f: nat, k: nat, g: nat, c: nat, p: seq<nat>, j: nat)
    requires CanLink(ts, roles, f, k, g) && IsSpace(roles, c) && PathOk(p) && |p| <= 2
    ensures LargeAt(Link(ts, f, k, g), Descend(Link(ts, f, k, g), c, p), j) == LargeAt(ts, Descend(ts, c, p), j)
  {
    hide Forest, Descend;
    LinkDescend(ts, roles, f, k, g, c, p);
    if Descend(ts, c, p).Some? {
      DescendRole(ts, roles, c, p);
    }
  }

  /** Behind an entry that leads nowhere there is no large page either. */
  lemma NoLargeBehind(ts: Tables, roles: Roles, f: nat, k: nat, g: nat, c: nat, ix: seq<nat>)
    requires CanLink(ts, roles, f, k, g) && IsSpace(roles, c) && PathOk(ix) && |ix| == 4
    requires Descend(ts, c, ix[..2]) == Some(f) && ix[2] == k
    ensures LargeLook(ts, c, ix) == None
  {
    hide Forest;
    assert ix[..2] == ix[..1] + [ix[1]];
    DescendSplit(ts, c, ix[..1], [ix[1]]);
  }

  /** Linking an empty table changes no translation. */
  lemma LinkLook(ts: Tables, roles: Roles, f: nat, k: nat, g: nat, c: nat, ix: seq<nat>)
    requires CanLink(ts, roles, f, k, g) && IsSpace(roles, c) && PathOk(ix) && |ix| == 4
    ensures Look(Link(ts, f, k, g), c, ix) == Look(ts, c, ix)
  {
    hide Forest, Descend, LargeLook;
    LinkDescend(ts, roles, f, k, g, c, ix[..3]);
    if Descend(ts, c, ix[..3]).Some? {
      DescendRole(ts, roles, c, ix[..3]);
    } else {
      assert ix[..3][..2] == ix[..2];
      LinkLarge(ts, roles, f, k, g, c, ix[..1], ix[1]);
      LinkLarge(ts, roles, f, k, g, c, ix[..2], ix[2]);
      LargeSame(ts, Link(ts, f, k, g), c, c, ix);
      if Descend(ts, c, ix[..2]) == Some(f) && ix[2] == k {
        NoLargeBehind(ts, roles, f, k, g, c, ix);
      }
    }
  }

  lemma EmptyClear(ts: Tables, g: nat, p: seq<nat>)
    requires g in ts && ts[g] == EmptyTable() && PathOk(p)
    ensures ClearPath(ts, g, p)
  {
  }

  lemma {:induction false} LinkClear(ts: Tables, roles: Roles, f: nat, k: nat, g: nat, h: nat, p: seq<nat>)
    requires CanLink(ts, roles, f, k, g) && h in roles && PathOk(p) && |roles[h].path| + |p| <= 3 && ClearPath(ts, h, p)
    ensures ClearPath(Link(ts, f, k, g), h, p)
    decreases |p|
  {
    hide Forest;
    if p != [] {
      var ts' := Link(ts, f, k, g);
      ForestLink(ts, roles, h, p[0]);
      if h == f && p[0] == k {
        EmptyClear(ts', g, p[1..]);
      } else {
        assert ts'[h][p[0]] == ts[h][p[0]];
        if ts[h][p[0]].present {
          LinkClear(ts, roles, f, k, g, ts[h][p[0]].frame, p[1..]);
        }
      }
    }
  }

  // ---- changing flags ----

  /** walk_pt's last lines on one upper entry: clear NX, and set U/S for a user page. */
  function Touch(e: Pte, user: bool): Pte {
    e.(nx := false, user := e.user || user)
  }

  function TouchAt(ts: Tables, f: nat, k: nat, user: bool): Tables
    requires TableAt(ts, f) && k < ENTRIES
  {
    ts[f := ts[f][k := Touch(ts[f][k], user)]]
  }

  /** Flags do not matter to walks. */
  lemma {:induction false} TouchDescend(ts: Tables, f: nat, k: nat, user: bool, h: nat, p: seq<nat>)
    requires TableAt(ts, f) && k < ENTRIES && PathOk(p)
    ensures Descend(TouchAt(ts, f, k, user), h, p) == Descend(ts, h, p)
    decreases |p|
  {
    if p != [] && TableAt(ts, h) && Leads(ts[h][p[0]]) {
      TouchDescend(ts, f, k, user, ts[h][p[0]].frame, p[1..]);
    }
  }

  lemma TouchLook(ts: Tables, f: nat, k: nat, user: bool, c: nat, ix: seq<nat>)
    requires TableAt(ts, f) && k < ENTRIES && PathOk(ix) && |ix| == 4
    ensures Look(TouchAt(ts, f, k, user), c, ix) == Look(ts, c, ix)
  {
    hide Descend;
    TouchDescend(ts, f, k, user, c, ix[..1]);
    TouchDescend(ts, f, k, user, c, ix[..2]);
    TouchDescend(ts, f, k, user, c, ix[..3]);
  }

  lemma {:induction false} TouchClear(ts: Tables, f: nat, k: nat, user: bool, h: nat, p: seq<nat>)
    requires TableAt(ts, f) && k < ENTRIES && PathOk(p)
    ensures ClearPath(TouchAt(ts, f, k, user), h, p) == ClearPath(ts, h, p)
    decreases |p|
  {
    if p != [] && TableAt(ts, h) && ts[h][p[0]].present {
      TouchClear(ts, f, k, user, ts[h][p[0]].frame, p[1..]);
    }
  }

  lemma TouchForest(ts: Tables, roles: Roles, f: nat, k: nat, user: bool)
    requires Forest(ts, roles) && f in roles && TableAt(ts, f) && k < ENTRIES
    ensures Forest(TouchAt(ts, f, k, user), roles)
  {
    hide Forest, Descend;
    var ts' := TouchAt(ts, f, k, user);
    forall h | h in roles ensures Placed(ts', roles, h) {
      ForestTable(ts, roles, h);
      TouchDescend(ts, f, k, user, roles[h].space, roles[h].path);
    }
    forall h, j | h in roles && |roles[h].path| < 3 && 0 <= j < ENTRIES && TableAt(ts', h)
      ensures LinkOk(roles, roles[h], j, ts'[h][j])
    {
      ForestLink(ts, roles, h, j);
    }
    ForestDistinct(ts, roles);
    MakeForest(ts', roles);
  }

  lemma ForestDistinct(ts: Tables, roles: Roles)
    requires Forest(ts, roles)
    ensures Distinct(roles)
  {
  }

  // ---- writing a leaf ----

  function Store(ts: Tables, t: nat, k: nat, e: Pte): Tables
    requires TableAt(ts, t) && k < ENTRIES
  {
    ts[t := ts[t][k := e]]
  }

  /** A leaf table's entries are not on the way to any table. */
  lemma {:induction false} StoreDescend(ts: Tables, roles: Roles, t: nat, k: nat, e: Pte, h: nat, p: seq<nat>)
    requires Forest(ts, roles) && t in roles && |roles[t].path| == 3 && TableAt(ts, t) && k < ENTRIES
    requires h in roles && PathOk(p) && |roles[h].path| + |p| <= 3
    ensures Descend(Store(ts, t, k, e), h, p) == Descend(ts, h, p)
    decreases |p|
  {
    hide Forest;
    if p != [] {
      ForestLink(ts, roles, h, p[0]);
      if Leads(ts[h][p[0]]) {
        StoreDescend(ts, roles, t, k, e, ts[h][p[0]].frame, p[1..]);
      }
    }
  }

  lemma StoreForest(ts: Tables, roles: Roles, t: nat, k: nat, e: Pte)
    requires Forest(ts, roles) && t in roles && |roles[t].path| == 3 && TableAt(ts, t) && k < ENTRIES
    ensures Forest(Store(ts, t, k, e), roles)
  {
    hide Forest, Descend;
    var ts' := Store(ts, t, k, e);
    forall h | h in roles ensures Placed(ts', roles, h) {
      ForestTable(ts, roles, h);
      StoreDescend(ts, roles, t, k, e, roles[h].space, roles[h].path);
    }
    forall h, j | h in roles && |roles[h].path| < 3 && 0 <= j < ENTRIES && TableAt(ts', h)
      ensures LinkOk(roles, roles[h], j, ts'[h][j])
    {
      ForestLink(ts, roles, h, j);
    }
    ForestDistinct(ts, roles);
    MakeForest(ts', roles);
  }

  function EntryFrame(e: Pte): Option<nat> {
    if e.present then Some(e.frame) else None
  }

  /** A leaf write is seen through exactly the spaces whose walk ends in that table, at
      exactly that index path. */
  lemma StoreLook(ts: Tables, roles: Roles, t: nat, k: nat, e: Pte, c: nat, ix: seq<nat>)
    requires Forest(ts, roles) && t in roles && |roles[t].path| == 3 && TableAt(ts, t) && k < ENTRIES
    requires IsSpace(roles, c) && PathOk(ix) && |ix| == 4
    ensures Look(Store(ts, t, k, e), c, ix) ==
            if Descend(ts, c, ix[..3]) == Some(t) && ix[3] == k then EntryFrame(e) else Look(ts, c, ix)
  {
    hide Forest, Descend;
    StoreDescend(ts, roles, t, k, e, c, ix[..3]);
    StoreLarge(ts, roles, t, k, e, c, ix[..1], ix[1]);
    StoreLarge(ts, roles, t, k, e, c, ix[..2], ix[2]);
  }

  lemma StoreLarge(ts: Tables, roles: Roles, t: nat, k: nat, e: Pte, c: nat, p: seq<nat>, j: nat)
    requires Forest(ts, roles) && t in roles && |roles[t].path| == 3 && TableAt(ts, t) && k < ENTRIES
    requires IsSpace(roles, c) && PathOk(p) && |p| <= 2
    ensures LargeAt(Store(ts, t, k, e), Descend(Store(ts, t, k, e), c, p), j) == LargeAt(ts, Descend(ts, c, p), j)
  {
    hide Forest, Descend;
    StoreDescend(ts, roles, t, k, e, c, p);
    if Descend(ts, c, p).Some? {
      DescendRole(ts, roles, c, p);
    }
  }

  lemma {:induction false} StoreClear(ts: Tables, roles: Roles, t: nat, k: nat, e: Pte, h: nat, p: seq<nat>)
    requires Forest(ts, roles) && t in roles && |roles[t].path| == 3 && TableAt(ts, t) && k < ENTRIES
    requires h in roles && PathOk(p) && |roles[h].path| + |p| <= 3 && ClearPath(ts, h, p)
    ensures ClearPath(Store(ts, t, k, e), h, p)
    decreases |p|
  {
    hide Forest;
    if p != [] {
      ForestLink(ts, roles, h, p[0]);
      if ts[h][p[0]].present {
        StoreClear(ts, roles, t, k, e, ts[h][p[0]].frame, p[1..]);
      }
    }
  }
}
