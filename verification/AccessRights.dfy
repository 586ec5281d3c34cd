/** The access bits of the entries on the way to a page (kernel/mm/vmm.c; section 4.6 of the Intel SDM, volume 3A):
    user code reaches a page only if every entry says so, and runs it only if none forbids it. */
module AccessRights {
  import opened Base
  import opened Pmm
  import opened PageTables
  import opened Vmm

  /** The entries that the processor reads for path p from table f on, up to one that leads no further. */
  function Entries(ts: Tables, f: nat, p: seq<nat>): (r: seq<Pte>)
    requires PathOk(p)
    ensures |r| <= |p|
    decreases |p|
  {
    if p == [] || !TableAt(ts, f) then []
    else
      var e := ts[f][p[0]];
      [e] + if Leads(e) then Entries(ts, e.frame, p[1..]) else []
  }

  /** The i-th of these entries was there. */
  predicate There(es: seq<Pte>, i: nat) {
    i < |es| && es[i].present
  }

  lemma {:induction false} EntriesSnoc(ts: Tables, f: nat, p: seq<nat>, k: nat, t: nat)
    requires PathOk(p) && k < ENTRIES && Descend(ts, f, p) == Some(t) && TableAt(ts, t)
    ensures PathOk(p + [k]) && |Entries(ts, f, p)| == |p| && Entries(ts, f, p + [k]) == Entries(ts, f, p) + [ts[t][k]]
    decreases |p|
  {
    if p == [] {
      assert p + [k] == [k];
      assert [k][1..] == [] && Entries(ts, ts[t][k].frame, []) == [];
    } else {
      assert (p + [k])[1..] == p[1..] + [k] && (p + [k])[0] == p[0];
      EntriesSnoc(ts, ts[f][p[0]].frame, p[1..], k, t);
    }
  }

  // ---- fetching tables ----

  /** Tables above the one where the walk starts stay as they are. */
  lemma {:induction false} ReachAbove(s: Vm, roles: Roles, f: nat, p: seq<nat>, h: nat)
    requires PathOk(p) && VmOk(s, roles) && f in roles && |roles[f].path| + |p| <= 3 && ClearPath(s.tables, f, p)
    requires h in roles && |roles[h].path| < |roles[f].path|
    ensures h in s.tables && h in Reach(s, f, p, true).0.tables && Reach(s, f, p, true).0.tables[h] == s.tables[h]
    decreases |p|
  {
    hide Forest, VmOk, Alloc, ClearPath;
    VmTable(s, roles, h);
    VmTable(s, roles, f);
    if p != [] {
      assert !s.tables[f][p[0]].ps by {
        ClearFirst(s.tables, f, p);
      }
      FetchPlace(s, roles, f, p[0], true);
      FetchClear(s, roles, f, p, true);
      FetchKeeps(s, roles, f, p[0], h);
      var (s1, r) := Fetch(s, f, p[0], true);
      if r.Some? {
        ReachAbove(s1, FetchRoles(s, roles, f, p[0], true), r.value, p[1..], h);
      }
    }
  }

  lemma ClearFirst(ts: Tables, f: nat, p: seq<nat>)
    requires PathOk(p) && p != [] && TableAt(ts, f) && ClearPath(ts, f, p)
    ensures !ts[f][p[0]].ps
  {
  }

  lemma FetchKeeps(s: Vm, roles: Roles, f: nat, k: nat, h: nat)
    requires VmOk(s, roles) && f in roles && h in roles && h != f && k < ENTRIES
    requires TableAt(s.tables, f) && TableAt(s.tables, h)
    ensures var (s1, r) := Fetch(s, f, k, true);
            && h in s1.tables && s1.tables[h] == s.tables[h]
            && h in FetchRoles(s, roles, f, k, true) && FetchRoles(s, roles, f, k, true)[h] == roles[h]
  {
    hide Forest, Alloc;
    AllocIsNearest(s.pool);
  }

  lemma FetchedEntry(s: Vm, roles: Roles, f: nat, k: nat)
    requires VmOk(s, roles) && f in roles && k < ENTRIES && TableAt(s.tables, f)
    ensures var (s1, r) := Fetch(s, f, k, true);
            var e := s.tables[f][k];
            r.Some? ==>
              && f in FetchRoles(s, roles, f, k, true) && FetchRoles(s, roles, f, k, true)[f] == roles[f]
              && TableAt(s1.tables, f) && s1.tables[f][k].present && s1.tables[f][k].frame == r.value
              && (if e.present then s1 == s
                  else s1.tables[f][k] == Pte(true, true, true, false, false, r.value)
                       && r.value in s1.tables && s1.tables[r.value] == EmptyTable())
  {
    hide Forest, Alloc;
    AllocIsNearest(s.pool);
  }

  /** A walk that creates what is missing: entries that were there stay as they are, new ones allow everything. */
  lemma {:induction false} ReachEntries(s: Vm, roles: Roles, f: nat, p: seq<nat>)
    requires PathOk(p) && VmOk(s, roles) && f in roles && |roles[f].path| + |p| <= 3 && ClearPath(s.tables, f, p)
    requires Reach(s, f, p, true).1.Some?
    ensures var es, was := Entries(Reach(s, f, p, true).0.tables, f, p), Entries(s.tables, f, p);
            |es| == |p| && forall i: nat | i < |p| ::
              && Leads(es[i]) && (There(was, i) ==> es[i] == was[i])
              && (!There(was, i) ==> es[i].write && es[i].user && !es[i].nx)
    decreases |p|
  {
    hide Forest, VmOk, Alloc, ClearPath;
    if p != [] {
      VmTable(s, roles, f);
      ClearFirst(s.tables, f, p);
      FetchPlace(s, roles, f, p[0], true);
      FetchClear(s, roles, f, p, true);
      FetchedEntry(s, roles, f, p[0]);
      var (s1, r) := Fetch(s, f, p[0], true);
      var roles1 := FetchRoles(s, roles, f, p[0], true);
      ReachEntries(s1, roles1, r.value, p[1..]);
      ReachAbove(s1, roles1, r.value, p[1..], f);
      hide Fetch, FetchRoles;
      var s2 := Reach(s1, r.value, p[1..], true).0;
      assert s2 == Reach(s, f, p, true).0;
      var es, was1 := Entries(s2.tables, r.value, p[1..]), Entries(s1.tables, r.value, p[1..]);
      assert Entries(s2.tables, f, p) == [s1.tables[f][p[0]]] + es;
      if s.tables[f][p[0]].present {
        assert Entries(s.tables, f, p) == [s.tables[f][p[0]]] + was1;
        assert forall i: nat | 0 < i :: There(Entries(s.tables, f, p), i) <==> There(was1, i - 1);
      } else {
        NothingThere(s1.tables, r.value, p[1..]);
      }
    }
  }

  lemma NothingThere(ts: Tables, g: nat, p: seq<nat>)
    requires PathOk(p) && g in ts && ts[g] == EmptyTable()
    ensures forall i: nat :: !There(Entries(ts, g, p), i)
  {
  }

  // ---- the access bits of the upper levels ----

  predicate MaybeTouched(es: seq<Pte>, es': seq<Pte>, user: bool) {
    |es'| == |es| && forall i | 0 <= i < |es| :: es'[i] == es[i] || es'[i] == Touch(es[i], user)
  }

  predicate AllTouched(es: seq<Pte>, es': seq<Pte>, user: bool) {
    |es'| == |es| && forall i | 0 <= i < |es| :: es'[i] == Touch(es[i], user)
  }

  lemma TouchedTwice(es: seq<Pte>, es1: seq<Pte>, es2: seq<Pte>, user: bool)
    requires MaybeTouched(es, es1, user) && AllTouched(es1, es2, user)
    ensures AllTouched(es, es2, user)
  {
  }

  lemma MaybeCons(e: Pte, e': Pte, es: seq<Pte>, es': seq<Pte>, user: bool)
    requires (e' == e || e' == Touch(e, user)) && MaybeTouched(es, es', user)
    ensures MaybeTouched([e] + es, [e'] + es', user)
  {
  }

  lemma {:induction false} TouchAtEntries(ts: Tables, f: nat, k: nat, user: bool, h: nat, p: seq<nat>)
    requires TableAt(ts, f) && k < ENTRIES && PathOk(p)
    ensures MaybeTouched(Entries(ts, h, p), Entries(TouchAt(ts, f, k, user), h, p), user)
    decreases |p|
  {
    assert MaybeTouched([], [], user);
    hide MaybeTouched;
    if p != [] && TableAt(ts, h) {
      var e, e' := ts[h][p[0]], TouchAt(ts, f, k, user)[h][p[0]];
      if Leads(e) {
        TouchAtEntries(ts, f, k, user, e.frame, p[1..]);
        MaybeCons(e, e', Entries(ts, e.frame, p[1..]), Entries(TouchAt(ts, f, k, user), e.frame, p[1..]), user);
      } else {
        MaybeCons(e, e', [], [], user);
      }
    }
  }

  lemma {:induction false} TouchPathTables(ts: Tables, f: nat, p: seq<nat>, user: bool, h: nat, k: nat)
    requires PathOk(p) && TableAt(ts, h) && k < ENTRIES
    ensures var ts' := TouchPath(ts, f, p, user);
            TableAt(ts', h) && (ts'[h][k] == ts[h][k] || ts'[h][k] == Touch(ts[h][k], user))
    decreases |p|
  {
    if p != [] && TableAt(ts, f) {
      TouchPathTables(TouchAt(ts, f, p[0], user), ts[f][p[0]].frame, p[1..], user, h, k);
    }
  }

  /** Along the path every entry is touched. */
  lemma {:induction false} TouchPathEntries(ts: Tables, f: nat, p: seq<nat>, user: bool)
    requires PathOk(p) && AllLead(Entries(ts, f, p), |p|)
    ensures AllTouched(Entries(ts, f, p), Entries(TouchPath(ts, f, p, user), f, p), user)
    decreases |p|
  {
    if p != [] {
      hide AllTouched, MaybeTouched;
      LeadOn(ts, f, p);
      var e, ts1 := ts[f][p[0]], TouchAt(ts, f, p[0], user);
      TouchAtEntries(ts, f, p[0], user, e.frame, p[1..]);
      StillLead(Entries(ts, e.frame, p[1..]), Entries(ts1, e.frame, p[1..]), user, |p| - 1);
      TouchPathEntries(ts1, e.frame, p[1..], user);
      TouchPathTables(ts1, e.frame, p[1..], user, f, p[0]);
      var ts' := TouchPath(ts1, e.frame, p[1..], user);
      TouchedTwice(Entries(ts, e.frame, p[1..]), Entries(ts1, e.frame, p[1..]), Entries(ts', e.frame, p[1..]), user);
      assert ts'[f][p[0]] == Touch(e, user);
      TouchedCons(e, Entries(ts, e.frame, p[1..]), Entries(ts', e.frame, p[1..]), user);
    } else {
      assert AllTouched([], [], user);
    }
  }

  predicate AllLead(es: seq<Pte>, n: nat) {
    |es| == n && forall i | 0 <= i < n :: Leads(es[i])
  }

  lemma LeadOn(ts: Tables, f: nat, p: seq<nat>)
    requires PathOk(p) && p != [] && AllLead(Entries(ts, f, p), |p|)
    ensures TableAt(ts, f) && Leads(ts[f][p[0]]) && AllLead(Entries(ts, ts[f][p[0]].frame, p[1..]), |p| - 1)
  {
    LeadTail(Entries(ts, f, p), |p|);
    hide AllLead;
    var e := ts[f][p[0]];
    assert Entries(ts, f, p)[0] == e;
    assert Entries(ts, f, p)[1..] == Entries(ts, e.frame, p[1..]);
  }

  lemma LeadTail(es: seq<Pte>, n: nat)
    requires n > 0 && AllLead(es, n)
    ensures Leads(es[0]) && AllLead(es[1..], n - 1)
  {
  }

  lemma StillLead(es: seq<Pte>, es': seq<Pte>, user: bool, n: nat)
    requires AllLead(es, n) && MaybeTouched(es, es', user)
    ensures AllLead(es', n)
  {
  }

  lemma TouchedCons(e: Pte, es: seq<Pte>, es': seq<Pte>, user: bool)
    requires AllTouched(es, es', user)
    ensures AllTouched([e] + es, [Touch(e, user)] + es', user)
  {
  }

  lemma {:induction false} StoreEntries(ts: Tables, roles: Roles, t: nat, k: nat, e: Pte, h: nat, p: seq<nat>)
    requires Forest(ts, roles) && t in roles && |roles[t].path| == 3 && TableAt(ts, t) && k < ENTRIES
    requires h in roles && PathOk(p) && |roles[h].path| + |p| <= 3
    ensures Entries(Store(ts, t, k, e), h, p) == Entries(ts, h, p)
    decreases |p|
  {
    hide Forest;
    if p != [] {
      ForestLink(ts, roles, h, p[0]);
      if Leads(ts[h][p[0]]) {
        StoreEntries(ts, roles, t, k, e, ts[h][p[0]].frame, p[1..]);
      }
    }
  }

  // ---- mapping a page ----

  /** What a successful mapping leaves on the way to the page, compared with what was there: the leaf says what the
      caller asked for; the upper entries do not forbid execution, allow user code if the caller asks for it or they
      did before, and allow writing if they did before; new ones allow both. */
  predicate Granted(was: seq<Pte>, es: seq<Pte>, frame: nat, flags: Flags) {
    && |es| == 4 && es[3] == Pte(true, flags.write, flags.user, false, false, frame)
    && forall i: nat | i < 3 ::
         && es[i].present && !es[i].ps && !es[i].nx
         && (es[i].user <==> flags.user || !There(was, i) || was[i].user)
         && (es[i].write <==> !There(was, i) || was[i].write)
  }

  lemma MapInRights(s: Vm, roles: Roles, c: nat, ix: seq<nat>, frame: nat, flags: Flags)
    requires VmOk(s, roles) && IsSpace(roles, c) && Ix(ix) && Clear(s.tables, c, ix) && MapIn(s, c, ix, frame, flags).1
    ensures Granted(Entries(s.tables, c, ix[..3]), Entries(MapIn(s, c, ix, frame, flags).0.tables, c, ix), frame, flags)
  {
    hide VmOk, Extends, Reach, TouchPath, Descend, ReachRoles, Entries, Exhausted, ClearPath, LargeLook;
    var p := ix[..3];
    WalkExtends(s, roles, c, ix, true, flags.user);
    var (s1, t) := Reach(s, c, p, true);
    var (s2, t2) := Walk(s, c, ix, true, flags.user);
    var roles2 := WalkRoles(s, roles, c, ix, true);
    ReachEntries(s, roles, c, p);
    TouchPathEntries(s1.tables, c, p, flags.user);
    LeafTable(s2, roles, roles2, s, c, ix, t.value);
    var e := LeafEntry(frame, flags);
    StoreEntries(s2.tables, roles2, t.value, ix[3], e, c, p);
    var ts' := Store(s2.tables, t.value, ix[3], e);
    StoreDescend(s2.tables, roles2, t.value, ix[3], e, c, p);
    EntriesSnoc(ts', c, p, ix[3], t.value);
    assert p + [ix[3]] == ix;
  }

  lemma LeafTable(s2: Vm, roles: Roles, roles2: Roles, s: Vm, c: nat, ix: seq<nat>, t: nat)
    requires Extends(s, roles, s2, roles2) && IsSpace(roles, c) && Ix(ix) && Descend(s2.tables, c, ix[..3]) == Some(t)
    ensures Forest(s2.tables, roles2) && t in roles2 && |roles2[t].path| == 3 && TableAt(s2.tables, t)
    ensures IsSpace(roles2, c)
  {
    hide Forest, Descend, SameLooks, KeepsWalks;
    DescendRole(s2.tables, roles2, c, ix[..3]);
    assert [] + ix[..3] == ix[..3];
    VmTable(s2, roles2, t);
  }

  /** User code can reach the page, write it, and run what is there. */
  predicate UserReaches(es: seq<Pte>) {
    |es| == 4 && forall i | 0 <= i < 4 :: es[i].present && es[i].user
  }

  predicate CanWrite(es: seq<Pte>) {
    |es| == 4 && forall i | 0 <= i < 4 :: es[i].present && es[i].write
  }

  predicate CanRun(es: seq<Pte>) {
    |es| == 4 && forall i | 0 <= i < 4 :: es[i].present && !es[i].nx
  }

  /** After a mapping user code reaches the page exactly if the caller asked for that; the page can be run; and it can
      be written exactly if the caller asked for that and no table entry that was there before forbids it. */
  lemma MappedRights(s: Vm, roles: Roles, c: nat, ix: seq<nat>, frame: nat, flags: Flags)
    requires VmOk(s, roles) && IsSpace(roles, c) && Ix(ix) && Clear(s.tables, c, ix) && MapIn(s, c, ix, frame, flags).1
    ensures var es, was := Entries(MapIn(s, c, ix, frame, flags).0.tables, c, ix), Entries(s.tables, c, ix[..3]);
            && (UserReaches(es) <==> flags.user) && CanRun(es)
            && (CanWrite(es) <==> flags.write && forall i: nat | i < 3 && There(was, i) :: was[i].write)
  {
    hide VmOk, MapIn, Entries, Clear;
    MapInRights(s, roles, c, ix, frame, flags);
  }
}
