/** Large pages on a walked path (kernel/mm/vmm.c): the walk replaces the page by a finer table, but the entry
    that is written back still says that it maps a large page, now at the frame of that table. */
module LargePages {
  import opened Base
  import opened Pmm
  import opened PageTables
  import opened Vmm
  import opened AddressSpaces

  /** The entries of the new table: pieces of step frames each, with the flags of the large page. */
  function FinerTable(e: Pte, step: nat, ps: bool): (t: seq<Pte>)
    ensures |t| == ENTRIES
  {
    seq(ENTRIES, i requires 0 <= i < ENTRIES => Pte(e.present, e.write, e.user, ps, false, e.frame + step * i))
  }

  /** Frame g becomes the finer table of entry k of table f, which is d levels below a root. A page of 1 GiB
      becomes pages of 2 MiB, one of 2 MiB pages of 4 KiB. */
  function Split(ts: Tables, f: nat, k: nat, g: nat, d: nat): Tables
    requires TableAt(ts, f) && k < ENTRIES
  {
    var e := ts[f][k];
    ts[g := FinerTable(e, if d == 1 then ENTRIES else 1, d == 1)][f := ts[f][k := e.(frame := g, nx := false)]]
  }

  /** Entry k of table f, one or two levels below a root, maps a large page, and g is no table. */
  ghost predicate CanSplit(ts: Tables, roles: Roles, f: nat, k: nat, g: nat) {
    && Forest(ts, roles) && f in roles && 1 <= |roles[f].path| <= 2 && k < ENTRIES && TableAt(ts, f)
    && ts[f][k].present && ts[f][k].ps && g !in roles
  }

  ghost function SplitOf(ts: Tables, roles: Roles, f: nat, k: nat, g: nat): Tables
    requires CanSplit(ts, roles, f, k, g)
  {
    Split(ts, f, k, g, |roles[f].path|)
  }

  lemma {:induction false} SplitDescend(ts: Tables, roles: Roles, f: nat, k: nat, g: nat, h: nat, p: seq<nat>)
    requires CanSplit(ts, roles, f, k, g) && h in roles && PathOk(p) && |roles[h].path| + |p| <= 3
    ensures Descend(SplitOf(ts, roles, f, k, g), h, p) == Descend(ts, h, p)
    decreases |p|
  {
    hide Forest;
    if p != [] {
      ForestLink(ts, roles, h, p[0]);
      if Leads(ts[h][p[0]]) {
        SplitDescend(ts, roles, f, k, g, ts[h][p[0]].frame, p[1..]);
      }
    }
  }

  lemma SplitForest(ts: Tables, roles: Roles, f: nat, k: nat, g: nat)
    requires CanSplit(ts, roles, f, k, g)
    ensures Forest(SplitOf(ts, roles, f, k, g), roles)
  {
    hide Forest, Descend;
    var ts' := SplitOf(ts, roles, f, k, g);
    forall h | h in roles ensures Placed(ts', roles, h) {
      ForestTable(ts, roles, h);
      SplitDescend(ts, roles, f, k, g, roles[h].space, roles[h].path);
    }
    forall h, j | h in roles && |roles[h].path| < 3 && 0 <= j < ENTRIES && TableAt(ts', h)
      ensures LinkOk(roles, roles[h], j, ts'[h][j])
    {
      ForestLink(ts, roles, h, j);
    }
    ForestDistinct(ts, roles);
    MakeForest(ts', roles);
  }

  lemma SplitLarge(ts: Tables, roles: Roles, f: nat, k: nat, g: nat, c: nat, p: seq<nat>, j: nat)
    requires CanSplit(ts, roles, f, k, g) && IsSpace(roles, c) && PathOk(p) && |p| <= 2
    ensures var ts' := SplitOf(ts, roles, f, k, g);
            LargeAt(ts', Descend(ts', c, p), j) ==
            if Descend(ts, c, p) == Some(f) && j == k then Some(g) else LargeAt(ts, Descend(ts, c, p), j)
    ensures Descend(ts, c, p) == Some(f) ==> |p| == |roles[f].path|
  {
    hide Forest, Descend;
    SplitDescend(ts, roles, f, k, g, c, p);
    if Descend(ts, c, p).Some? {
      DescendRole(ts, roles, c, p);
    }
  }

  /** Page ix of space c lies in the large page of entry k of table f. */
  ghost predicate Inside(ts: Tables, roles: Roles, f: nat, k: nat, c: nat, ix: seq<nat>)
    requires f in roles && 1 <= |roles[f].path| <= 2 && Ix(ix)
  {
    Descend(ts, c, ix[..|roles[f].path|]) == Some(f) && ix[|roles[f].path|] == k
  }

  /** No walk goes through the entry of a large page. */
  lemma StopsThere(ts: Tables, c: nat, ix: seq<nat>, d: nat, f: nat)
    requires Ix(ix) && 1 <= d <= 2 && Descend(ts, c, ix[..d]) == Some(f) && TableAt(ts, f) && ts[f][ix[d]].ps
    ensures Descend(ts, c, ix[..3]) == None && Descend(ts, c, ix[..d + 1]) == None
    ensures d == 2 ==> LargeAt(ts, Descend(ts, c, ix[..1]), ix[1]) == None
  {
    DescendSplit(ts, c, ix[..d], ix[d..3]);
    DescendSplit(ts, c, ix[..d], ix[d..d + 1]);
    assert ix[..d] + ix[d..3] == ix[..3] && ix[..d] + ix[d..d + 1] == ix[..d + 1];
    if d == 2 {
      DescendSplit(ts, c, ix[..1], ix[1..2]);
      assert ix[..1] + ix[1..2] == ix[..2];
    }
  }

  /** The split moves every page of the large page to the frames from g on, or to a fault if g is not aligned to
      it, and no other page. */
  lemma SplitLook(ts: Tables, roles: Roles, f: nat, k: nat, g: nat, c: nat, ix: seq<nat>)
    requires CanSplit(ts, roles, f, k, g) && IsSpace(roles, c) && Ix(ix)
    ensures var d, e := |roles[f].path|, ts[f][k];
            && (Inside(ts, roles, f, k, c, ix) ==> Look(ts, c, ix) == LargeFrame(d, e.frame, ix))
            && Look(SplitOf(ts, roles, f, k, g), c, ix) ==
               if Inside(ts, roles, f, k, c, ix) then LargeFrame(d, g, ix) else Look(ts, c, ix)
  {
    hide Forest, Descend;
    var d, ts' := |roles[f].path|, SplitOf(ts, roles, f, k, g);
    SplitLarge(ts, roles, f, k, g, c, ix[..1], ix[1]);
    SplitLarge(ts, roles, f, k, g, c, ix[..2], ix[2]);
    SplitDescend(ts, roles, f, k, g, c, ix[..3]);
    if Inside(ts, roles, f, k, c, ix) {
      StopsThere(ts, c, ix, d, f);
    } else if Descend(ts, c, ix[..3]).Some? {
      DescendRole(ts, roles, c, ix[..3]);
      ForestTable(ts, roles, Descend(ts, c, ix[..3]).value);
    } else {
      LargeSame(ts, ts', c, c, ix);
    }
  }

  /** The stated purpose, the same mapping at finer granularity, is met exactly when the new table happens to
      be the first frame of the large page itself, or the page faulted before and does so still. */
  lemma SplitKeepsMapping(ts: Tables, roles: Roles, f: nat, k: nat, g: nat)
    requires CanSplit(ts, roles, f, k, g)
    ensures SameLooks(ts, SplitOf(ts, roles, f, k, g), roles) <==>
            var n := LargeFrames(|roles[f].path|);
            g == ts[f][k].frame || (g % n != 0 && ts[f][k].frame % n != 0)
  {
    hide Forest, Look, SplitOf, LargeFrames;
    var ts' := SplitOf(ts, roles, f, k, g);
    ForestTable(ts, roles, f);
    var c, path := roles[f].space, roles[f].path;
    var ix := path + [k] + if |path| == 1 then [0, 0] else [0];
    assert ix[..|path|] == path && Inside(ts, roles, f, k, c, ix);
    SplitLook(ts, roles, f, k, g, c, ix);
    var n := LargeFrames(|path|);
    forall e: nat, jx: seq<nat> |
      IsSpace(roles, e) && Ix(jx) && (g == ts[f][k].frame || (g % n != 0 && ts[f][k].frame % n != 0))
      ensures Look(ts', e, jx) == Look(ts, e, jx)
    {
      SplitLook(ts, roles, f, k, g, e, jx);
    }
  }

  /** Whatever the walk's caller then writes into the new table, the page that it wanted to map translates into
      the large page at g, or faults if g is not aligned to it, in every space that has it. */
  lemma SplitHidesMapping(ts: Tables, roles: Roles, f: nat, k: nat, g: nat, t: seq<Pte>, c: nat, ix: seq<nat>)
    requires CanSplit(ts, roles, f, k, g) && IsSpace(roles, c) && Ix(ix) && Inside(ts, roles, f, k, c, ix)
    ensures Look(SplitOf(ts, roles, f, k, g)[g := t], c, ix) == LargeFrame(|roles[f].path|, g, ix)
  {
    hide Forest, Look, SplitOf;
    SplitForest(ts, roles, f, k, g);
    SplitLook(ts, roles, f, k, g, c, ix);
    OutsideLook(SplitOf(ts, roles, f, k, g), roles, g, t, c, ix);
  }

  /** The same table with the PS bit of the entry cleared. */
  ghost function SplitAsMeant(ts: Tables, roles: Roles, f: nat, k: nat, g: nat): Tables
    requires CanSplit(ts, roles, f, k, g)
  {
    var ts' := SplitOf(ts, roles, f, k, g);
    ts'[f := ts'[f][k := ts'[f][k].(ps := false)]]
  }

  /** Only the PS bit is wrong: with it cleared, every page of the large page would translate as before the split. */
  lemma FinerIsSame(ts: Tables, roles: Roles, f: nat, k: nat, g: nat, c: nat, ix: seq<nat>)
    requires CanSplit(ts, roles, f, k, g) && IsSpace(roles, c) && Ix(ix) && Inside(ts, roles, f, k, c, ix)
    requires ts[f][k].frame % LargeFrames(|roles[f].path|) == 0
    ensures Look(SplitAsMeant(ts, roles, f, k, g), c, ix) == Look(ts, c, ix)
    ensures TableAt(SplitAsMeant(ts, roles, f, k, g), g)
    ensures var e', e := SplitAsMeant(ts, roles, f, k, g)[g][ix[|roles[f].path| + 1]], ts[f][k];
            e'.present && e'.write == e.write && e'.user == e.user && !e'.nx
  {
    hide Forest, Descend;
    var d, e, us := |roles[f].path|, ts[f][k], SplitAsMeant(ts, roles, f, k, g);
    SplitLook(ts, roles, f, k, g, c, ix);
    MeantDescend(ts, roles, f, k, g, c, ix[..d]);
    assert us[f][k] == e.(frame := g, nx := false, ps := false);
    assert us[g] == FinerTable(e, if d == 1 then 512 else 1, d == 1);
    MeantStep(us, c, ix, d, f, g);
    if d == 1 {
      FinerAligned(e.frame, ix[2]);
    }
  }

  lemma FinerAligned(b: nat, i: nat)
    requires b % (512 * 512) == 0
    ensures (b + 512 * i) % 512 == 0
  {
    assert b == 512 * (512 * (b / (512 * 512)));
  }

  /** The walk to table f does not go through the entry. */
  lemma {:induction false} MeantDescend(ts: Tables, roles: Roles, f: nat, k: nat, g: nat, h: nat, p: seq<nat>)
    requires CanSplit(ts, roles, f, k, g) && h in roles && PathOk(p) && Descend(ts, h, p) == Some(f)
    requires |roles[h].path| + |p| == |roles[f].path|
    ensures Descend(SplitAsMeant(ts, roles, f, k, g), h, p) == Some(f)
    decreases |p|
  {
    hide Forest;
    if p != [] {
      ForestLink(ts, roles, h, p[0]);
      MeantDescend(ts, roles, f, k, g, ts[h][p[0]].frame, p[1..]);
    }
  }

  /** From table f through its entry to the finer table, and on. */
  lemma MeantStep(us: Tables, c: nat, ix: seq<nat>, d: nat, f: nat, g: nat)
    requires Ix(ix) && 1 <= d <= 2 && Descend(us, c, ix[..d]) == Some(f) && TableAt(us, f) && TableAt(us, g)
    requires Leads(us[f][ix[d]]) && us[f][ix[d]].frame == g
    ensures Descend(us, c, ix[..d + 1]) == Some(g)
    ensures d == 1 && us[g][ix[2]].ps ==>
              Descend(us, c, ix[..3]) == None && LargeAt(us, Descend(us, c, ix[..1]), ix[1]) == None
  {
    DescendSplit(us, c, ix[..d], ix[d..d + 1]);
    assert ix[..d] + ix[d..d + 1] == ix[..d + 1];
    assert ix[d..d + 1][1..] == [];
    if d == 1 {
      DescendSplit(us, c, ix[..2], ix[2..3]);
      assert ix[..2] + ix[2..3] == ix[..3];
    }
  }
}
