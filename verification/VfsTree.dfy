/** The in-memory directory tree and the map from component lists to nodes that it stands for
    (kernel/vfs/vfs.c). */
module VfsTree {
  import opened Base
  import opened PathNames

  const NAME_MAX: nat := 64
  const DIR_MAX: nat := 256

  datatype Kind = Dir | File | Device

  /** What a path leads to. */
  datatype Info = Info(kind: Kind, mode: nat, data: seq<byte>)

  /** The file system as a map from component lists to what is there. */
  type Fs = map<seq<string>, Info>

  /** A node with its children, the newest first. */
  datatype Node = Node(name: string, info: Info, kids: seq<nat>)

  const ROOT: nat := 0

  // ---- splitting a path ----

  /** The position of the last slash before i. */
  function LastSlash(t: string, i: nat): (r: Option<nat>)
    requires i <= |t|
    ensures r.Some? ==> r.value < i && t[r.value] == '/' && forall k | r.value < k < i :: t[k] != '/'
    ensures r.None? ==> forall k | 0 <= k < i :: t[k] != '/'
  {
    if i == 0 then None else if t[i - 1] == '/' then Some(i - 1) else LastSlash(t, i - 1)
  }

  /** path_split: the directory part and the final name. */
  function SplitPath(t: string): Option<(string, string)> {
    match LastSlash(t, |t|)
    case None => if |t| >= NAME_MAX then None else Some(("/", t))
    case Some(s) =>
      var dir, name := t[..s], t[s + 1..];
      if s >= DIR_MAX || name == "" || |name| >= NAME_MAX then None
      else Some((if s == 0 then "/" else dir, name))
  }

  /** The component list that creation and removal work on. */
  function Key(t: string): Option<seq<string>> {
    match SplitPath(t)
    case None => None
    case Some((dir, name)) => Some(Comps(dir) + [name])
  }

  /** It is the list that lookup goes by, except for the empty path: lookup takes that for the root,
      creation and removal for an entry of the root with an empty name. */
  lemma KeyIsComps(t: string)
    requires Key(t).Some?
    ensures Key(t).value == Comps(t) <==> t != ""
    ensures t == "" ==> Key(t) == Some([""]) && Comps(t) == []
  {
    assert Comps("/") == [] by {
      assert Skip("/", 0) == 1;
    }
    if t == "" {
      assert SplitPath(t) == Some(("/", "")) && Comps("/") + [""] == [""];
    } else {
      match LastSlash(t, |t|)
      case None => CompsOfName(t);
      case Some(s) =>
        var dir, name := t[..s], t[s + 1..];
        assert t == dir + "/" + name;
        CompsJoin(dir, name);
        CompsOfName(name);
        if s == 0 {
          assert dir == "" && Comps("") == [];
        }
    }
  }

  /** A path can be created or removed exactly if its last name has at most 63 characters and, unless the path has no
      slash, at least one, and at most 255 come before its last slash. */
  lemma KeyLimits(dir: string, name: string)
    requires '/' !in name
    ensures Key(name).Some? <==> |name| < 64
    ensures Key(dir + "/" + name).Some? <==> 0 < |name| < 64 && |dir| < 256
  {
    var t := dir + "/" + name;
    LastSlashSkips(name, 0, |name|);
    LastSlashSkips(t, |dir| + 1, |t|);
    assert t[|dir| + 1..] == name && t[..|dir|] == dir;
  }

  lemma {:induction false} LastSlashSkips(t: string, k: nat, i: nat)
    requires k <= i <= |t| && forall j | k <= j < i :: t[j] != '/'
    ensures LastSlash(t, i) == LastSlash(t, k)
    decreases i - k
  {
    if k < i {
      LastSlashSkips(t, k, i - 1);
    }
  }

  // ---- the map ----

  function Parent(p: seq<string>): seq<string>
    requires p != []
  {
    p[..|p| - 1]
  }

  predicate IsDir(fs: Fs, p: seq<string>) {
    p in fs && fs[p].kind == Dir
  }

  predicate ChildOf(p: seq<string>, q: seq<string>) {
    q != [] && Parent(q) == p
  }

  predicate HasChild(fs: Fs, p: seq<string>) {
    exists q | q in fs :: ChildOf(p, q)
  }

  /** Creation needs an existing parent directory and a free name. */
  predicate CanCreate(fs: Fs, path: string) {
    Key(path).Some? && IsDir(fs, Parent(Key(path).value)) && Key(path).value !in fs
  }

  /** Removal takes anything but a directory with entries. */
  predicate CanRemove(fs: Fs, path: string) {
    && Key(path).Some? && IsDir(fs, Parent(Key(path).value))
    && Key(path).value in fs && !(fs[Key(path).value].kind == Dir && HasChild(fs, Key(path).value))
  }

  // ---- the representation ----

  ghost predicate KidOk(nodes: map<nat, Node>, paths: map<nat, seq<string>>, d: nat, k: nat) {
    && d in nodes && d in paths && k in nodes && k in paths && nodes[d].info.kind == Dir
    && paths[k] == paths[d] + [nodes[k].name] && |nodes[k].name| < NAME_MAX
  }

  predicate NoRepeats(s: seq<nat>) {
    forall i, j | 0 <= i < j < |s| :: s[i] != s[j]
  }

  /** at and paths are inverse to each other. */
  ghost predicate Inverse(nodes: map<nat, Node>, at: map<seq<string>, nat>, paths: map<nat, seq<string>>) {
    && (forall p | p in at :: at[p] in nodes && at[p] in paths && paths[at[p]] == p)
    && (forall n | n in nodes :: n in paths && paths[n] in at && at[paths[n]] == n)
  }

  ghost predicate KidsOk(nodes: map<nat, Node>, paths: map<nat, seq<string>>) {
    forall d | d in nodes ::
      NoRepeats(nodes[d].kids) && forall i | 0 <= i < |nodes[d].kids| :: KidOk(nodes, paths, d, nodes[d].kids[i])
  }

  /** Every node but the root is listed in the directory above it. */
  ghost predicate Attached(nodes: map<nat, Node>, at: map<seq<string>, nat>, p: seq<string>)
    requires p in at && p != []
  {
    Parent(p) in at && at[Parent(p)] in nodes && at[p] in nodes[at[Parent(p)]].kids
  }

  ghost predicate AllAttached(nodes: map<nat, Node>, at: map<seq<string>, nat>) {
    forall p {:trigger Attached(nodes, at, p)} | p in at && p != [] :: Attached(nodes, at, p)
  }

  ghost predicate TreeOk(nodes: map<nat, Node>, at: map<seq<string>, nat>, paths: map<nat, seq<string>>) {
    && [] in at && at[[]] == ROOT && Inverse(nodes, at, paths) && nodes[ROOT].info.kind == Dir
    && KidsOk(nodes, paths) && AllAttached(nodes, at)
  }

  /** The map that a tree stands for. */
  ghost function View(nodes: map<nat, Node>, at: map<seq<string>, nat>, paths: map<nat, seq<string>>): Fs
    requires Inverse(nodes, at, paths)
  {
    map p | p in at :: nodes[at[p]].info
  }

  // ---- finding ----

  /** The child of directory d with this name is the node at the longer path. */
  lemma KidByName(nodes: map<nat, Node>, at: map<seq<string>, nat>, paths: map<nat, seq<string>>, d: nat, name: string)
    requires TreeOk(nodes, at, paths) && d in nodes
    ensures d in paths
    ensures forall i | 0 <= i < |nodes[d].kids| :: nodes[d].kids[i] in nodes &&
              (nodes[nodes[d].kids[i]].name == name ==>
                paths[d] + [name] in at && at[paths[d] + [name]] == nodes[d].kids[i])
    ensures paths[d] + [name] in at ==>
              var k := at[paths[d] + [name]];
              k in nodes[d].kids && k in nodes && nodes[k].name == name && nodes[d].info.kind == Dir
                && |name| < NAME_MAX
  {
    var p := paths[d] + [name];
    assert Parent(p) == paths[d];
    forall i | 0 <= i < |nodes[d].kids|
      ensures nodes[d].kids[i] in nodes
      ensures nodes[nodes[d].kids[i]].name == name ==> p in at && at[p] == nodes[d].kids[i]
    {
      assert KidOk(nodes, paths, d, nodes[d].kids[i]);
    }
    if p in at {
      assert Attached(nodes, at, p);
      var i :| 0 <= i < |nodes[d].kids| && nodes[d].kids[i] == at[p];
      assert KidOk(nodes, paths, d, nodes[d].kids[i]);
      assert p[|p| - 1] == nodes[at[p]].name;
    }
  }

  /** Every path above an existing one exists. */
  lemma {:induction false} PrefixExists(nodes: map<nat, Node>, at: map<seq<string>, nat>, p: seq<string>, k: nat)
    requires AllAttached(nodes, at) && p in at && k <= |p|
    ensures p[..k] in at
    decreases |p|
  {
    if k < |p| {
      assert Attached(nodes, at, p);
      PrefixExists(nodes, at, Parent(p), k);
      assert Parent(p)[..k] == p[..k];
    } else {
      assert p[..k] == p;
    }
  }

  // ---- changing ----

  /** A new node n under directory d. */
  lemma AttachOk(nodes: map<nat, Node>, at: map<seq<string>, nat>, paths: map<nat, seq<string>>, d: nat, n: nat,
                 node: Node)
    requires TreeOk(nodes, at, paths) && d in nodes && nodes[d].info.kind == Dir && n !in nodes
    requires node.kids == [] && |node.name| < NAME_MAX && paths[d] + [node.name] !in at
    ensures var p := paths[d] + [node.name];
            var nodes' := nodes[n := node][d := nodes[d].(kids := [n] + nodes[d].kids)];
            && TreeOk(nodes', at[p := n], paths[n := p])
            && View(nodes', at[p := n], paths[n := p]) == View(nodes, at, paths)[p := node.info]
  {
    var p := paths[d] + [node.name];
    var nodes' := nodes[n := node][d := nodes[d].(kids := [n] + nodes[d].kids)];
    var at', paths' := at[p := n], paths[n := p];
    assert Parent(p) == paths[d];
    AttachKids(nodes, at, paths, d, n, node);
    AttachAttached(nodes, at, paths, d, n, node);
  }

  lemma AttachKids(nodes: map<nat, Node>, at: map<seq<string>, nat>, paths: map<nat, seq<string>>, d: nat, n: nat,
                   node: Node)
    requires KidsOk(nodes, paths) && d in nodes && d in paths && nodes[d].info.kind == Dir && n !in nodes
    requires node.kids == [] && |node.name| < NAME_MAX
    ensures KidsOk(nodes[n := node][d := nodes[d].(kids := [n] + nodes[d].kids)], paths[n := paths[d] + [node.name]])
  {
    var nodes' := nodes[n := node][d := nodes[d].(kids := [n] + nodes[d].kids)];
    var paths' := paths[n := paths[d] + [node.name]];
    forall e | e in nodes'
      ensures NoRepeats(nodes'[e].kids)
      ensures forall i | 0 <= i < |nodes'[e].kids| :: KidOk(nodes', paths', e, nodes'[e].kids[i])
    {
      if e == d {
        forall i | 0 <= i < |nodes'[d].kids| ensures KidOk(nodes', paths', d, nodes'[d].kids[i]) {
          assert i > 0 ==> KidOk(nodes, paths, d, nodes[d].kids[i - 1]);
        }
        assert forall i | 0 < i < |nodes'[d].kids| :: nodes'[d].kids[i] == nodes[d].kids[i - 1];
        assert forall i | 0 <= i < |nodes[d].kids| :: KidOk(nodes, paths, d, nodes[d].kids[i]);
      } else if e != n {
        assert forall i | 0 <= i < |nodes[e].kids| :: KidOk(nodes, paths, e, nodes[e].kids[i]);
      }
    }
  }

  lemma AttachAttached(nodes: map<nat, Node>, at: map<seq<string>, nat>, paths: map<nat, seq<string>>, d: nat, n: nat,
                       node: Node)
    requires AllAttached(nodes, at) && Inverse(nodes, at, paths) && d in nodes && n !in nodes
      && paths[d] + [node.name] !in at
    ensures AllAttached(nodes[n := node][d := nodes[d].(kids := [n] + nodes[d].kids)], at[paths[d] + [node.name] := n])
  {
    var p := paths[d] + [node.name];
    var nodes' := nodes[n := node][d := nodes[d].(kids := [n] + nodes[d].kids)];
    var at' := at[p := n];
    assert Parent(p) == paths[d];
    forall q | q in at' && q != [] ensures Attached(nodes', at', q) {
      if q == p {
        assert nodes'[d].kids[0] == n;
      } else {
        assert Attached(nodes, at, q);
        var e := at[Parent(q)];
        assert forall k | k in nodes[d].kids :: k in [n] + nodes[d].kids;
      }
    }
  }

  /** Node k, without children, taken out of directory d. */
  lemma DetachOk(nodes: map<nat, Node>, at: map<seq<string>, nat>, paths: map<nat, seq<string>>, d: nat, i: nat)
    requires TreeOk(nodes, at, paths) && d in nodes && i < |nodes[d].kids|
    requires nodes[d].kids[i] in nodes && nodes[nodes[d].kids[i]].kids == []
    ensures var k := nodes[d].kids[i];
            k != d && k != ROOT && k in paths && d in paths && paths[k] in at && paths[k] == paths[d] + [nodes[k].name]
    ensures var k := nodes[d].kids[i];
            var nodes' := nodes[d := nodes[d].(kids := nodes[d].kids[..i] + nodes[d].kids[i + 1..])] - {k};
            && TreeOk(nodes', at - {paths[k]}, paths - {k})
            && View(nodes', at - {paths[k]}, paths - {k}) == View(nodes, at, paths) - {paths[k]}
  {
    var k := nodes[d].kids[i];
    assert KidOk(nodes, paths, d, k);
    assert paths[k] != [];
    DetachKids(nodes, at, paths, d, i);
    DetachAttached(nodes, at, paths, d, i);
  }

  /** Different directories have different children. */
  lemma NotShared(nodes: map<nat, Node>, at: map<seq<string>, nat>, paths: map<nat, seq<string>>, e: nat, c: nat,
                  d: nat, k: nat)
    requires Inverse(nodes, at, paths) && KidOk(nodes, paths, e, c) && KidOk(nodes, paths, d, k) && e != d
    ensures c != k
  {
    assert Parent(paths[c]) == paths[e] && Parent(paths[k]) == paths[d];
  }

  lemma DetachKids(nodes: map<nat, Node>, at: map<seq<string>, nat>, paths: map<nat, seq<string>>, d: nat, i: nat)
    requires TreeOk(nodes, at, paths) && d in nodes && i < |nodes[d].kids|
    requires nodes[d].kids[i] in nodes && nodes[d].kids[i] != d
    ensures var k := nodes[d].kids[i];
            KidsOk(nodes[d := nodes[d].(kids := nodes[d].kids[..i] + nodes[d].kids[i + 1..])] - {k}, paths - {k})
  {
    var k := nodes[d].kids[i];
    var rest := nodes[d].kids[..i] + nodes[d].kids[i + 1..];
    var nodes' := nodes[d := nodes[d].(kids := rest)] - {k};
    var paths' := paths - {k};
    assert forall j | 0 <= j < |rest| :: rest[j] == nodes[d].kids[if j < i then j else j + 1];
    assert KidOk(nodes, paths, d, k);
    forall e | e in nodes'
      ensures NoRepeats(nodes'[e].kids)
      ensures forall j | 0 <= j < |nodes'[e].kids| :: KidOk(nodes', paths', e, nodes'[e].kids[j])
    {
      forall j | 0 <= j < |nodes'[e].kids| ensures KidOk(nodes', paths', e, nodes'[e].kids[j]) {
        var c := nodes'[e].kids[j];
        if e == d {
          var j0 := if j < i then j else j + 1;
          assert KidOk(nodes, paths, d, nodes[d].kids[j0]);
        } else {
          assert KidOk(nodes, paths, e, c);
          NotShared(nodes, at, paths, e, c, d, k);
        }
      }
    }
  }

  lemma DetachAttached(nodes: map<nat, Node>, at: map<seq<string>, nat>, paths: map<nat, seq<string>>, d: nat, i: nat)
    requires TreeOk(nodes, at, paths) && d in nodes && i < |nodes[d].kids|
    requires nodes[d].kids[i] in nodes && nodes[nodes[d].kids[i]].kids == [] && nodes[d].kids[i] != d
    ensures var k := nodes[d].kids[i];
            && k in paths
            && var node := nodes[d].(kids := nodes[d].kids[..i] + nodes[d].kids[i + 1..]);
               AllAttached(nodes[d := node] - {k}, at - {paths[k]})
  {
    var k := nodes[d].kids[i];
    var rest := nodes[d].kids[..i] + nodes[d].kids[i + 1..];
    var nodes' := nodes[d := nodes[d].(kids := rest)] - {k};
    assert KidOk(nodes, paths, d, k);
    var at' := at - {paths[k]};
    forall q | q in at' && q != [] ensures Attached(nodes', at', q) {
      assert Attached(nodes, at, q);
      var e := at[Parent(q)];
      assert e != k;
      if e == d {
        var j :| 0 <= j < |nodes[d].kids| && nodes[d].kids[j] == at[q];
        assert j != i;
        assert rest[if j < i then j else j - 1] == at[q];
      }
    }
  }
}
