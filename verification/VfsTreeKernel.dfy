/** Lookup, creation and removal on the node tree (kernel/vfs/vfs.c). */
module VfsTreeKernel {
  import opened Base
  import opened PathNames
  import opened VfsTree
  import R = PathResolve

  class Tree {
    var nodes: map<nat, Node>
    var nextId: nat
    ghost var at: map<seq<string>, nat>
    ghost var paths: map<nat, seq<string>>

    ghost predicate Valid()
      reads this
    {
      TreeOk(nodes, at, paths) && forall n | n in nodes :: n < nextId
    }

    /** The map from component lists that the tree stands for. */
    ghost function Fs(): Fs
      requires Valid()
      reads this
    {
      View(nodes, at, paths)
    }

    /** vfs_init: a root directory and nothing in it. */
    constructor ()
      ensures Valid() && Fs() == map[[] := Info(Dir, 0, [])]
    {
      nodes := map[ROOT := Node("/", Info(Dir, 0, []), [])];
      nextId := 1;
      at := map[[] := ROOT];
      paths := map[ROOT := []];
    }

    /** dir_find. */
    method DirFind(d: nat, name: string) returns (r: Option<nat>)
      requires Valid() && d in nodes
      ensures d in paths
      ensures r == if paths[d] + [name] in at then Some(at[paths[d] + [name]]) else None
    {
      hide TreeOk;
      KidByName(nodes, at, paths, d, name);
      var kids := nodes[d].kids;
      var i := 0;
      while i < |kids|
        invariant i <= |kids| && forall k | 0 <= k < i :: nodes[kids[k]].name != name
      {
        if nodes[kids[i]].name == name {
          return Some(kids[i]);
        }
        i := i + 1;
      }
      return None;
    }

    /** vfs_lookup: the node at the path's component list, if there is one. */
    method Lookup(path: string) returns (r: Option<nat>)
      requires Valid()
      ensures r == if Comps(path) in at then Some(at[Comps(path)]) else None
      ensures r.Some? ==> r.value in nodes && r.value in paths && paths[r.value] == Comps(path)
    {
      hide Skip, End, CompsFrom, KidsOk, AllAttached, NoRepeats;
      ghost var cs := Comps(path);
      var cur := ROOT;
      var p := R.SkipSlashes(path, 0);
      CompsSkip(path, 0);
      ghost var i := 0;
      assert cs[0..] == cs;
      while p < |path|
        invariant p <= |path| && (p < |path| ==> path[p] != '/') && i <= |cs| && cs[i..] == CompsFrom(path, p)
        invariant cur in nodes && cur in paths && paths[cur] == cs[..i] && cs[..i] in at && at[cs[..i]] == cur
        decreases |path| - p
      {
        var end := R.FindEnd(path, p);
        CompsHead(path, p);
        var name := path[p..end];
        assert cs[i] == cs[i..][0] == name;
        assert cs[..i + 1] == cs[..i] + [name];
        KidByName(nodes, at, paths, cur, name);
        if |name| >= NAME_MAX {
          Missing(nodes, at, paths, cs, i + 1);
          return None;
        }
        if nodes[cur].info.kind != Dir {
          Missing(nodes, at, paths, cs, i + 1);
          return None;
        }
        var kid := DirFind(cur, name);
        if kid.None? {
          Missing(nodes, at, paths, cs, i + 1);
          return None;
        }
        cur := kid.value;
        assert cs[i + 1..] == cs[i..][1..];
        i := i + 1;
        p := R.SkipSlashes(path, end);
        CompsSkip(path, end);
      }
      R.AtEnd(path);
      assert cs[..i] == cs;
      return Some(cur);
    }

    /** path_split. */
    method PathSplit(path: string) returns (r: Option<(string, string)>)
      ensures r == SplitPath(path)
    {
      var slash: Option<nat> := None;
      var p := 0;
      while p < |path|
        invariant p <= |path| && slash == LastSlash(path, p)
      {
        if path[p] == '/' {
          slash := Some(p);
        }
        p := p + 1;
      }
      if slash.None? {
        if |path| >= NAME_MAX {
          return None;
        }
        return Some(("/", path));
      }
      var s := slash.value;
      var dir := "/";
      if s != 0 {
        if s >= DIR_MAX {
          return None;
        }
        dir := path[..s];
      }
      var name := path[s + 1..];
      if name == "" || |name| >= NAME_MAX {
        return None;
      }
      return Some((dir, name));
    }

    /** vfs_create_dir, vfs_create_file and vfs_create_device; room says whether the node could be allocated. */
    method Create(path: string, info: Info, room: bool) returns (r: Option<nat>)
      requires Valid()
      modifies this
      ensures Valid()
      ensures r.Some? <==> room && CanCreate(old(Fs()), path)
      ensures r.None? ==> Fs() == old(Fs())
      ensures r.Some? ==> Fs() == old(Fs())[Key(path).value := info]
      ensures r.Some? ==> Key(path).value in at && at[Key(path).value] == r.value && r.value in nodes
    {
      hide KidsOk, AllAttached, NoRepeats, Comps, SplitPath;
      var split := PathSplit(path);
      if split.None? {
        return None;
      }
      var (dir, name) := split.value;
      var parent := Lookup(dir);
      assert Parent(Comps(dir) + [name]) == Comps(dir);
      if parent.None? || nodes[parent.value].info.kind != Dir {
        return None;
      }
      var d := parent.value;
      var found := DirFind(d, name);
      if found.Some? {
        return None;
      }
      if !room {
        return None;
      }
      SplitName(path);
      var n := nextId;
      AttachOk(nodes, at, paths, d, n, Node(name, info, []));
      nodes := nodes[n := Node(name, info, [])][d := nodes[d].(kids := [n] + nodes[d].kids)];
      at := at[paths[d] + [name] := n];
      paths := paths[n := paths[d] + [name]];
      nextId := nextId + 1;
      return Some(n);
    }

    /** vfs_remove. */
    method Remove(path: string) returns (r: int)
      requires Valid()
      modifies this
      ensures Valid()
      ensures r == if CanRemove(old(Fs()), path) then 0 else -1
      ensures Fs() == if r == 0 then old(Fs()) - {Key(path).value} else old(Fs())
    {
      hide KidsOk, AllAttached, NoRepeats, Comps, SplitPath;
      var split := PathSplit(path);
      if split.None? {
        return -1;
      }
      var (dir, name) := split.value;
      var parent := Lookup(dir);
      ghost var p := Comps(dir) + [name];
      assert Parent(p) == Comps(dir);
      if parent.None? || nodes[parent.value].info.kind != Dir {
        return -1;
      }
      var d := parent.value;
      KidByName(nodes, at, paths, d, name);
      var kids := nodes[d].kids;
      var i := 0;
      while i < |kids|
        invariant i <= |kids| && forall k | 0 <= k < i :: nodes[kids[k]].name != name
      {
        var victim := kids[i];
        if nodes[victim].name == name {
          ChildHas(nodes, at, paths, victim);
          if nodes[victim].info.kind == Dir && nodes[victim].kids != [] {
            return -1;
          }
          DetachOk(nodes, at, paths, d, i);
          nodes := nodes[d := nodes[d].(kids := kids[..i] + kids[i + 1..])] - {victim};
          at := at - {p};
          paths := paths - {victim};
          return 0;
        }
        i := i + 1;
      }
      return -1;
    }

    /** New mode or contents for a node. */
    method Update(n: nat, info: Info)
      requires Valid() && n in nodes && info.kind == nodes[n].info.kind
      modifies this`nodes
      ensures Valid() && n in paths && Fs() == old(Fs())[paths[n] := info]
    {
      hide AllAttached, KidsOk;
      UpdateOk(nodes, at, paths, n, info);
      nodes := nodes[n := nodes[n].(info := info)];
    }
  }

  /** Leading slashes do not matter. */
  lemma CompsSkip(t: string, i: nat)
    requires i <= |t|
    ensures CompsFrom(t, Skip(t, i)) == CompsFrom(t, i)
  {
    SkipSplit(t, i, Skip(t, i));
  }

  lemma CompsHead(t: string, p: nat)
    requires p < |t| && t[p] != '/'
    ensures p < End(t, p) && CompsFrom(t, p) == [t[p..End(t, p)]] + CompsFrom(t, End(t, p))
  {
    SkipIs(t, p, p);
  }

  lemma Missing(nodes: map<nat, Node>, at: map<seq<string>, nat>, paths: map<nat, seq<string>>, cs: seq<string>, k: nat)
    requires TreeOk(nodes, at, paths) && k <= |cs| && cs[..k] !in at
    ensures cs !in at
  {
    if cs in at {
      PrefixExists(nodes, at, cs, k);
    }
  }

  lemma SplitName(path: string)
    requires SplitPath(path).Some?
    ensures |SplitPath(path).value.1| < NAME_MAX
  {
  }

  lemma UpdateOk(nodes: map<nat, Node>, at: map<seq<string>, nat>, paths: map<nat, seq<string>>, n: nat, info: Info)
    requires TreeOk(nodes, at, paths) && n in nodes && info.kind == nodes[n].info.kind
    ensures var nodes' := nodes[n := nodes[n].(info := info)];
            TreeOk(nodes', at, paths) && View(nodes', at, paths) == View(nodes, at, paths)[paths[n] := info]
  {
    hide KidsOk, AllAttached;
    UpdateKids(nodes, paths, n, info);
    UpdateAttached(nodes, at, n, info);
  }

  lemma UpdateKids(nodes: map<nat, Node>, paths: map<nat, seq<string>>, n: nat, info: Info)
    requires KidsOk(nodes, paths) && n in nodes && info.kind == nodes[n].info.kind
    ensures KidsOk(nodes[n := nodes[n].(info := info)], paths)
  {
    hide NoRepeats;
    var nodes' := nodes[n := nodes[n].(info := info)];
    forall d, i | d in nodes' && 0 <= i < |nodes'[d].kids| ensures KidOk(nodes', paths, d, nodes'[d].kids[i]) {
      assert KidOk(nodes, paths, d, nodes[d].kids[i]);
    }
  }

  lemma UpdateAttached(nodes: map<nat, Node>, at: map<seq<string>, nat>, n: nat, info: Info)
    requires AllAttached(nodes, at) && n in nodes
    ensures AllAttached(nodes[n := nodes[n].(info := info)], at)
  {
    var nodes' := nodes[n := nodes[n].(info := info)];
    forall p | p in at && p != [] ensures Attached(nodes', at, p) {
      assert Attached(nodes, at, p);
    }
  }

  /** A directory has children in the tree exactly when it has entries in the map. */
  lemma ChildHas(nodes: map<nat, Node>, at: map<seq<string>, nat>, paths: map<nat, seq<string>>, v: nat)
    requires TreeOk(nodes, at, paths) && v in nodes
    ensures v in paths && (nodes[v].kids != [] <==> HasChild(View(nodes, at, paths), paths[v]))
    ensures nodes[v].info.kind != Dir ==> nodes[v].kids == []
  {
    var fs := View(nodes, at, paths);
    if nodes[v].kids != [] {
      var k := nodes[v].kids[0];
      assert KidOk(nodes, paths, v, k);
      assert paths[k] in fs && ChildOf(paths[v], paths[k]);
    }
    if q :| q in fs && ChildOf(paths[v], q) {
      assert Attached(nodes, at, q);
    }
  }
}
