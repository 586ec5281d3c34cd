/** Mounting the root file system image (kernel/vfs/rootfs.c). */
module Rootfs {
  import opened Base
  import opened PathNames
  import opened VfsTree
  import opened VfsTreeKernel
  import opened Ustar

  /** tar_octal. */
  method ReadOctal(f: seq<byte>) returns (v: nat)
    ensures v == TarOctal(f)
  {
    v := 0;
    var i := 0;
    while i < |f|
      invariant i <= |f| && OctalFrom(f, 0, 0) == OctalFrom(f, i, v)
    {
      if 48 <= f[i] <= 55 {
        v := 8 * v + (f[i] - 48);
      } else if f[i] != 32 && f[i] != 0 {
        return;
      }
      i := i + 1;
    }
  }

  /** The length loop of tar_normalise. */
  method NameLength(h: seq<byte>, start: nat) returns (len: nat)
    requires |h| == BLOCK && start <= 2
    ensures len == NameLen(h, start, NAME_FIELD)
  {
    len := 0;
    while h[start + len] != 0 && len < NAME_FIELD
      invariant len <= NAME_FIELD && forall k | start <= k < start + len :: h[k] != 0
      decreases NAME_FIELD - len
    {
      len := len + 1;
    }
    NameLenIs(h, start, NAME_FIELD, len);
  }

  /** The trailing-slash loop of tar_normalise. */
  method Trim(name: string) returns (r: string)
    ensures r == TrimSlashes(name)
  {
    r := name;
    while r != "" && r[|r| - 1] == '/'
      invariant TrimSlashes(name) == TrimSlashes(r)
      decreases |r|
    {
      r := r[..|r| - 1];
    }
  }

  /** tar_normalise. */
  method Normalise(h: seq<byte>) returns (r: Option<string>)
    requires |h| == BLOCK
    ensures r == HeaderPath(h)
  {
    hide NameLen, TrimSlashes;
    var start := if h[0] == 46 && h[1] == 47 then 2 else 0;
    var len := NameLength(h, start);
    var t := Trim(Chars(h[start..start + len]));
    if t == "" {
      return None;
    }
    return Some(t);
  }

  /** The zero-block test. */
  method IsZero(b: seq<byte>) returns (zero: bool)
    requires |b| == BLOCK
    ensures zero == ZeroBlock(b)
  {
    var i := 0;
    while i < BLOCK
      invariant i <= BLOCK && forall k | 0 <= k < i :: b[k] == 0
    {
      if b[i] != 0 {
        return false;
      }
      i := i + 1;
    }
    return true;
  }

  // ---- what the heap answers ----

  /** Whether there is memory for a member's node, and for its contents. */
  datatype Room = Room(node: bool, bytes: bool)

  const ENOUGH := Room(true, true)

  /** One member with what the heap answers: the tree afterwards, and whether the mount goes on. A directory
      that cannot be created is passed over; a file that has no memory for its contents stays behind empty. */
  function MountIn(fs: Fs, path: string, m: Member, room: Room): (Fs, bool) {
    if !room.node || !CanCreate(fs, path) then (fs, m.dir)
    else if !m.dir && m.data != [] && !room.bytes then (fs[Key(path).value := InfoOf(m.(data := []))], false)
    else (fs[Key(path).value := InfoOf(m)], true)
  }

  function MountOneIn(fs: Fs, m: Member, room: Room): (Fs, bool) {
    match Normalised(m.name)
    case None => (fs, true)
    case Some(path) => MountIn(fs, path, m, room)
  }

  /** The members in turn, the first with the k-th answer of the heap, until one fails. */
  function MountAllIn(fs: Fs, ms: seq<Member>, rooms: nat -> Room, k: nat): (Fs, bool)
    decreases |ms|
  {
    if ms == [] then (fs, true)
    else
      var (fs', ok) := MountOneIn(fs, ms[0], rooms(k));
      if ok then MountAllIn(fs', ms[1..], rooms, k + 1) else (fs', false)
  }

  /** With enough memory this is mounting as such. */
  lemma {:induction false} EnoughRoom(fs: Fs, ms: seq<Member>, rooms: nat -> Room, k: nat)
    requires forall i: nat | k <= i < k + |ms| :: rooms(i) == ENOUGH
    ensures var (fs', ok) := MountAllIn(fs, ms, rooms, k);
            match MountAll(fs, ms) { case None => !ok case Some(gs) => ok && fs' == gs }
    decreases |ms|
  {
    hide CanCreate, Key, Normalised, InfoOf;
    if ms != [] {
      assert rooms(k) == ENOUGH;
      var (fs', ok) := MountOneIn(fs, ms[0], rooms(k));
      if ok {
        EnoughRoom(fs', ms[1..], rooms, k + 1);
      }
    }
  }

  /** What is there stays as it is. */
  lemma {:induction false} MountKeeps(fs: Fs, ms: seq<Member>, rooms: nat -> Room, k: nat, p: seq<string>)
    requires p in fs
    ensures var fs' := MountAllIn(fs, ms, rooms, k).0; p in fs' && fs'[p] == fs[p]
    decreases |ms|
  {
    hide Normalised, InfoOf, Key;
    if ms != [] {
      MountKeeps(MountOneIn(fs, ms[0], rooms(k)).0, ms[1..], rooms, k + 1, p);
    }
  }

  /** A mount that reports success has every file in place, whatever the heap answered. */
  lemma {:induction false} FilesAreThere(fs: Fs, ms: seq<Member>, rooms: nat -> Room, k: nat, j: nat)
    requires MountAllIn(fs, ms, rooms, k).1 && j < |ms| && !ms[j].dir && Place(ms[j]).Some?
    ensures var fs' := MountAllIn(fs, ms, rooms, k).0;
            Place(ms[j]).value in fs' && fs'[Place(ms[j]).value] == InfoOf(ms[j])
    decreases |ms|
  {
    hide Normalised, InfoOf, Key, CanCreate;
    var fs' := MountOneIn(fs, ms[0], rooms(k)).0;
    if j == 0 {
      MountKeeps(fs', ms[1..], rooms, k + 1, Place(ms[0]).value);
    } else {
      FilesAreThere(fs', ms[1..], rooms, k + 1, j - 1);
    }
  }

  /** One member of the archive. */
  method Extract(tree: Tree, path: string, kind: byte, mode: nat, data: seq<byte>, room: Room) returns (ok: bool)
    requires tree.Valid()
    modifies tree
    ensures tree.Valid()
    ensures kind == 53 || kind == 48 || kind == 0 ==>
              (tree.Fs(), ok) ==
              MountIn(old(tree.Fs()), path, Member(path, kind == 53, mode, if kind == 53 then [] else data), room)
    ensures kind != 53 && kind != 48 && kind != 0 ==> ok && tree.Fs() == old(tree.Fs())
  {
    hide TreeOk, View, Key;
    if kind == 53 {
      var d := tree.Create(path, Info(Dir, DIR_MODE, []), room.node);
      if d.Some? && mode != 0 {
        Stored(tree, Key(path).value, d.value);
        tree.Update(d.value, Info(Dir, mode, []));
        assert tree.Fs() == old(tree.Fs())[Key(path).value := Info(Dir, mode, [])];
      }
      return true;
    }
    if kind == 48 || kind == 0 {
      var n := tree.Create(path, Info(File, FILE_MODE, []), room.node);
      if n.None? {
        return false;
      }
      var used := if mode != 0 then mode else FILE_MODE;
      Stored(tree, Key(path).value, n.value);
      if |data| > 0 && !room.bytes {
        tree.Update(n.value, Info(File, used, []));
        assert tree.Fs() == old(tree.Fs())[Key(path).value := Info(File, used, [])];
        return false;
      }
      tree.Update(n.value, Info(File, used, data));
      assert tree.Fs() == old(tree.Fs())[Key(path).value := Info(File, used, data)];
    }
    return true;
  }

  lemma Stored(tree: Tree, p: seq<string>, n: nat)
    requires tree.Valid() && p in tree.at && tree.at[p] == n && n in tree.nodes
    ensures n in tree.paths && tree.paths[n] == p && p in tree.Fs() && tree.Fs()[p] == tree.nodes[n].info
  {
  }

  /** The bytes after a header; memory goes on behind the image. */
  function BytesAt(image: seq<byte>, behind: nat -> byte, off: nat, size: nat): (r: seq<byte>)
    ensures |r| == size
  {
    seq(size, i requires 0 <= i < size => if off + i < |image| then image[off + i] else behind(off + i))
  }

  lemma BytesInside(image: seq<byte>, behind: nat -> byte, off: nat, size: nat)
    requires off + size <= |image|
    ensures BytesAt(image, behind, off, size) == image[off..off + size]
  {
  }

  lemma FirstByte(img: seq<byte>, ms: seq<Member>)
    requires ms != [] && Archive(img, ms)
    ensures |img| >= BLOCK && img[0] != 0
  {
    hide TarOctal, Padded;
    var h, m := img[..BLOCK], ms[0];
    assert Chars(h[..|m.name|])[0] == h[0] as char == m.name[0];
  }

  lemma EndOfArchive(img: seq<byte>, ms: seq<Member>)
    requires Archive(img, ms) && (|img| < BLOCK || ZeroBlock(img))
    ensures ms == []
  {
    if ms != [] {
      FirstByte(img, ms);
    }
  }

  /** What the header says about the first member of an archive. */
  lemma FirstMember(img: seq<byte>, ms: seq<Member>)
    requires |img| >= BLOCK && Archive(img, ms) && !ZeroBlock(img)
    ensures ms != []
    ensures var h, m := img[..BLOCK], ms[0];
            var n := TarOctal(h[124..136]);
            && n == |m.data| && TarOctal(h[100..108]) == m.mode && HeaderPath(h) == Normalised(m.name)
            && (h[156] == 53 || h[156] == 48 || h[156] == 0) && (m.dir <==> h[156] == 53) && (m.dir ==> m.data == [])
            && n <= Padded(n) && BLOCK + Padded(n) <= |img|
            && img[BLOCK..BLOCK + n] == m.data && Archive(img[BLOCK + Padded(n)..], ms[1..])
  {
    hide TarOctal, Padded, HeaderPath, Normalised;
    HeaderPathIs(img[..BLOCK], ms[0]);
  }

  /** The same for the header at p of the image. */
  lemma NextMember(image: seq<byte>, p: nat, ms: seq<Member>)
    requires p + BLOCK <= |image| && Archive(image[p..], ms) && !ZeroBlock(image[p..])
    ensures ms != []
    ensures var h, m := image[p..p + BLOCK], ms[0];
            var n := TarOctal(h[124..136]);
            && n == |m.data| && TarOctal(h[100..108]) == m.mode && HeaderPath(h) == Normalised(m.name)
            && (h[156] == 53 || h[156] == 48 || h[156] == 0) && (m.dir <==> h[156] == 53) && (m.dir ==> m.data == [])
            && n <= Padded(n) && p + BLOCK + Padded(n) <= |image|
            && image[p + BLOCK..p + BLOCK + n] == m.data
            && Archive(image[p + BLOCK + Padded(n)..], ms[1..])
  {
    hide Archive, TarOctal, Padded, HeaderPath, Normalised, ZeroBlock;
    var img := image[p..];
    FirstMember(img, ms);
    var n := |ms[0].data|;
    assert img[..BLOCK] == image[p..p + BLOCK];
    assert img[BLOCK..BLOCK + n] == image[p + BLOCK..p + BLOCK + n];
    assert img[BLOCK + Padded(n)..] == image[p + BLOCK + Padded(n)..];
  }

  /** One header of the image, whatever it holds, and its bytes: the tree afterwards, whether the mount goes on, and
      where. */
  function MountHeader(fs: Fs, image: seq<byte>, behind: nat -> byte, p: nat, room: Room): (Fs, bool, nat)
    requires p + BLOCK <= |image|
  {
    var h := image[p..p + BLOCK];
    var size := TarOctal(h[124..136]);
    var dir := h[156] == 53;
    var (fs', ok) :=
      if HeaderPath(h).None? || (!dir && h[156] != 48 && h[156] != 0) then (fs, true)
      else
        var path := HeaderPath(h).value;
        var data := if dir then [] else BytesAt(image, behind, p + BLOCK, size);
        MountIn(fs, path, Member(path, dir, TarOctal(h[100..108]), data), room);
    var next := p + BLOCK + Padded(size);
    (fs', ok && next <= |image|, next)
  }

  /** The image from p on: up to a zero block, the end, a failure or a member that the image does not hold. */
  function MountBytes(fs: Fs, image: seq<byte>, behind: nat -> byte, p: nat, rooms: nat -> Room, k: nat): (Fs, bool)
    decreases |image| - p
  {
    if p + BLOCK > |image| || ZeroBlock(image[p..p + BLOCK]) then (fs, true)
    else
      var (fs', ok, next) := MountHeader(fs, image, behind, p, rooms(k));
      if ok then MountBytes(fs', image, behind, next, rooms, k + 1) else (fs', false)
  }

  /** The first member of an archive is what its header says. */
  lemma MemberByHeader(fs: Fs, image: seq<byte>, behind: nat -> byte, p: nat, ms: seq<Member>, room: Room)
    requires p + BLOCK <= |image| && Archive(image[p..], ms) && !ZeroBlock(image[p..])
    ensures ms != []
    ensures var (fs', ok, next) := MountHeader(fs, image, behind, p, room);
            && (fs', ok) == MountOneIn(fs, ms[0], room)
            && p < next <= |image| && Archive(image[next..], ms[1..])
  {
    hide Archive, TarOctal, Padded, HeaderPath, Normalised, ZeroBlock, InfoOf, CanCreate, Key;
    NextMember(image, p, ms);
    BytesInside(image, behind, p + BLOCK, |ms[0].data|);
    if HeaderPath(image[p..p + BLOCK]).Some? {
      SameMember(fs, ms[0], HeaderPath(image[p..p + BLOCK]).value, room);
    }
  }

  /** Only the normalised name of a member matters. */
  lemma SameMember(fs: Fs, m: Member, path: string, room: Room)
    requires Normalised(m.name) == Some(path)
    ensures MountOneIn(fs, m, room) == MountIn(fs, path, m.(name := path), room)
  {
  }

  /** On an archive the loop over the bytes mounts its members one by one. */
  lemma {:induction false} ArchiveBytes(fs: Fs, image: seq<byte>, behind: nat -> byte, p: nat, ms: seq<Member>,
                                        rooms: nat -> Room, k: nat)
    requires p <= |image| && Archive(image[p..], ms)
    ensures MountBytes(fs, image, behind, p, rooms, k) == MountAllIn(fs, ms, rooms, k)
    decreases |ms|
  {
    hide Archive, MountHeader, MountOneIn, ZeroBlock;
    if p + BLOCK > |image| {
      EndOfArchive(image[p..], ms);
    } else if ZeroBlock(image[p..p + BLOCK]) {
      IsZeroTail(image, p);
      EndOfArchive(image[p..], ms);
    } else {
      NotZero(image, p);
      MemberByHeader(fs, image, behind, p, ms, rooms(k));
      var (fs', ok, next) := MountHeader(fs, image, behind, p, rooms(k));
      if ok {
        ArchiveBytes(fs', image, behind, next, ms[1..], rooms, k + 1);
      }
    }
  }

  /** The body of the mount loop at p. */
  method MountNext(tree: Tree, image: seq<byte>, behind: nat -> byte, p: nat, room: Room) returns (ok: bool, next: nat)
    requires tree.Valid() && p + BLOCK <= |image|
    modifies tree
    ensures tree.Valid() && (tree.Fs(), ok, next) == MountHeader(old(tree.Fs()), image, behind, p, room)
  {
    hide TreeOk, View, MountIn, TarOctal, HeaderPath, Padded, InfoOf, Key, CanCreate;
    var h := image[p..p + BLOCK];
    var size := ReadOctal(h[124..136]);
    var mode := ReadOctal(h[100..108]);
    var path := Normalise(h);
    next := p + BLOCK + Padded(size);
    if path.Some? {
      ok := Extract(tree, path.value, h[156], mode, BytesAt(image, behind, p + BLOCK, size), room);
      if !ok {
        return;
      }
    }
    return next <= |image|, next;
  }

  lemma NotZero(image: seq<byte>, p: nat)
    requires p + BLOCK <= |image| && !ZeroBlock(image[p..p + BLOCK])
    ensures !ZeroBlock(image[p..])
  {
    var i :| 0 <= i < BLOCK && image[p..p + BLOCK][i] != 0;
    assert image[p..][i] != 0;
  }

  lemma IsZeroTail(image: seq<byte>, p: nat)
    requires p + BLOCK <= |image| && ZeroBlock(image[p..p + BLOCK])
    ensures ZeroBlock(image[p..])
  {
    forall i | 0 <= i < BLOCK ensures image[p..][i] == 0 {
      assert image[p..p + BLOCK][i] == 0;
    }
  }

  /** vfs_mount_rootfs, on any bytes and with any answers of the heap: the loop over the headers, down to what is
      left behind when one of them fails. */
  method Mount(tree: Tree, image: seq<byte>, behind: nat -> byte, rooms: nat -> Room) returns (r: int)
    requires tree.Valid()
    modifies tree
    ensures tree.Valid()
    ensures |image| < 2 * BLOCK ==> r == -1 && tree.Fs() == old(tree.Fs())
    ensures |image| >= 2 * BLOCK ==>
              var (fs, ok) := MountBytes(old(tree.Fs()), image, behind, 0, rooms, 0);
              tree.Fs() == fs && r == if ok then 0 else -1
  {
    hide TreeOk, View, MountHeader, ZeroBlock;
    if |image| < 2 * BLOCK {
      return -1;
    }
    var p, k := 0, 0;
    while p + BLOCK <= |image|
      invariant p <= |image| && tree.Valid()
      invariant MountBytes(tree.Fs(), image, behind, p, rooms, k) ==
                MountBytes(old(tree.Fs()), image, behind, 0, rooms, 0)
      decreases |image| - p
    {
      var zero := IsZero(image[p..p + BLOCK]);
      if zero {
        break;
      }
      HeaderAdvances(tree.Fs(), image, behind, p, rooms(k));
      var ok, next := MountNext(tree, image, behind, p, rooms(k));
      if !ok {
        return -1;
      }
      p, k := next, k + 1;
    }
    return 0;
  }

  lemma HeaderAdvances(fs: Fs, image: seq<byte>, behind: nat -> byte, p: nat, room: Room)
    requires p + BLOCK <= |image|
    ensures var (_, ok, next) := MountHeader(fs, image, behind, p, room); next > p && (ok ==> next <= |image|)
  {
    hide TarOctal, HeaderPath, MountIn, Padded;
  }

  // ---- what a mount with little memory gives ----

  /** Member i is member j or a directory above it. */
  predicate Above(ms: seq<Member>, i: nat, j: nat)
    requires i < |ms| && j < |ms|
  {
    Place(ms[i]).Some? && Place(ms[j]).Some? && Place(ms[i]).value <= Place(ms[j]).value
  }

  /** There was memory for the node of member j and for those of the directories above it. */
  ghost predicate Reached(ms: seq<Member>, rooms: nat -> Room, j: nat)
    requires j < |ms|
  {
    Place(ms[j]).Some? && forall i: nat | i < |ms| && Above(ms, i, j) :: rooms(i).node
  }

  /** A member that stops the mount: a file whose node or whose contents have no memory. */
  ghost predicate Stops(ms: seq<Member>, rooms: nat -> Room, j: nat)
    requires j < |ms|
  {
    !ms[j].dir && Place(ms[j]).Some? && !(Reached(ms, rooms, j) && (ms[j].data == [] || rooms(j).bytes))
  }

  /** The root and those of the first i members that were reached, and nothing else. */
  ghost predicate HoldsReached(fs: Fs, ms: seq<Member>, rooms: nat -> Room, i: nat)
    requires i <= |ms|
  {
    && IsDir(fs, [])
    && (forall j: nat | j < i && Reached(ms, rooms, j) ::
      Place(ms[j]).value in fs && fs[Place(ms[j]).value] == InfoOf(ms[j]))
    && (forall p | p in fs && p != [] :: exists j: nat :: j < i && Reached(ms, rooms, j) && Place(ms[j]) == Some(p))
  }

  /** Which members of a parent-first list can be created is what the heap answered for them and their parents. */
  lemma CreatedIfReached(fs: Fs, ms: seq<Member>, rooms: nat -> Room, i: nat)
    requires ParentFirst(ms) && i < |ms| && HoldsReached(fs, ms, rooms, i) && Normalised(ms[i].name).Some?
    ensures Place(ms[i]).Some? && Place(ms[i]).value !in fs
    ensures rooms(i).node && CanCreate(fs, Normalised(ms[i].name).value) <==> Reached(ms, rooms, i)
  {
    hide Normalised, Key, Reached;
    PlaceNonempty(ms[i]);
    var p := Parent(Place(ms[i]).value);
    if p == [] {
      ReachedTop(ms, rooms, i);
    } else {
      var j :| 0 <= j < i && Place(ms[j]) == Some(p) && ms[j].dir;
      ReachedBelow(ms, rooms, i, j);
      ParentMade(fs, ms, rooms, i, j, p);
    }
  }

  lemma ParentMade(fs: Fs, ms: seq<Member>, rooms: nat -> Room, i: nat, j: nat, p: seq<string>)
    requires ParentFirst(ms) && j < i <= |ms| && HoldsReached(fs, ms, rooms, i) && p != []
    requires Place(ms[j]) == Some(p) && ms[j].dir
    ensures IsDir(fs, p) <==> Reached(ms, rooms, j)
  {
    hide Place, Reached;
    if IsDir(fs, p) {
      var k: nat :| k < i && Reached(ms, rooms, k) && Place(ms[k]) == Some(p);
      assert k == j;
    }
  }

  lemma ReachedTop(ms: seq<Member>, rooms: nat -> Room, i: nat)
    requires ParentFirst(ms) && i < |ms| && Place(ms[i]).Some? && |Place(ms[i]).value| == 1
    ensures Reached(ms, rooms, i) <==> rooms(i).node
  {
    hide Normalised, Key;
    assert Above(ms, i, i);
    forall k: nat | k < |ms| && Above(ms, k, i) ensures k == i {
      PlaceNonempty(ms[k]);
      assert Place(ms[k]).value == Place(ms[i]).value;
    }
  }

  /** A member is reached through its parent. */
  lemma ReachedBelow(ms: seq<Member>, rooms: nat -> Room, i: nat, j: nat)
    requires ParentFirst(ms) && i < |ms| && j < |ms| && Place(ms[i]).Some? && Place(ms[i]).value != []
    requires Place(ms[j]) == Some(Parent(Place(ms[i]).value))
    ensures Reached(ms, rooms, i) <==> rooms(i).node && Reached(ms, rooms, j)
  {
    hide Normalised, Key;
    assert Above(ms, i, i);
    forall k: nat | k < |ms| ensures Above(ms, k, i) <==> k == i || Above(ms, k, j) {
      if Place(ms[k]).Some? {
        PrefixOrParent(Place(ms[k]).value, Place(ms[i]).value);
      }
    }
    hide Above, Place;
  }

  lemma PrefixOrParent(q: seq<string>, p: seq<string>)
    requires p != []
    ensures q <= p <==> q == p || q <= Parent(p)
  {
    if q <= p && |q| < |p| {
      assert Parent(p)[..|q|] == p[..|q|] == q;
    }
    if q <= Parent(p) {
      assert p[..|q|] == Parent(p)[..|q|] == q;
    }
  }

  lemma ReachedNext(fs: Fs, ms: seq<Member>, rooms: nat -> Room, i: nat)
    requires ParentFirst(ms) && i < |ms| && HoldsReached(fs, ms, rooms, i)
    ensures var (fs', ok) := MountOneIn(fs, ms[i], rooms(i));
            (ok <==> !Stops(ms, rooms, i)) && (ok ==> HoldsReached(fs', ms, rooms, i + 1))
  {
    hide Normalised, Key, InfoOf, Reached, CanCreate, ParentFirst;
    if Normalised(ms[i].name).Some? {
      CreatedIfReached(fs, ms, rooms, i);
      if Reached(ms, rooms, i) {
        HoldsOneMore(fs, ms, rooms, i);
      } else {
        HoldsNoMore(fs, ms, rooms, i);
      }
    } else {
      NotReached(ms, rooms, i);
      HoldsNoMore(fs, ms, rooms, i);
    }
  }

  lemma NotReached(ms: seq<Member>, rooms: nat -> Room, i: nat)
    requires i < |ms| && Place(ms[i]).None?
    ensures !Reached(ms, rooms, i)
  {
  }

  lemma HoldsOneMore(fs: Fs, ms: seq<Member>, rooms: nat -> Room, i: nat)
    requires i < |ms| && HoldsReached(fs, ms, rooms, i) && Reached(ms, rooms, i)
    requires Place(ms[i]).Some? && Place(ms[i]).value !in fs
    ensures HoldsReached(fs[Place(ms[i]).value := InfoOf(ms[i])], ms, rooms, i + 1)
  {
    hide Place, InfoOf, Reached;
    var p := Place(ms[i]).value;
    var fs' := fs[p := InfoOf(ms[i])];
    forall q | q in fs' && q != []
      ensures exists j: nat :: j < i + 1 && Reached(ms, rooms, j) && Place(ms[j]) == Some(q)
    {
      if q != p {
        var j: nat :| j < i && Reached(ms, rooms, j) && Place(ms[j]) == Some(q);
      }
    }
  }

  lemma HoldsNoMore(fs: Fs, ms: seq<Member>, rooms: nat -> Room, i: nat)
    requires i < |ms| && HoldsReached(fs, ms, rooms, i) && !Reached(ms, rooms, i)
    ensures HoldsReached(fs, ms, rooms, i + 1)
  {
    hide Place, InfoOf, Reached;
  }

  lemma {:induction false} ReachedFrom(fs: Fs, ms: seq<Member>, rooms: nat -> Room, i: nat)
    requires ParentFirst(ms) && i <= |ms| && HoldsReached(fs, ms, rooms, i)
    ensures var (fs', ok) := MountAllIn(fs, ms[i..], rooms, i);
            && (ok <==> forall j: nat | i <= j < |ms| :: !Stops(ms, rooms, j))
            && (ok ==> HoldsReached(fs', ms, rooms, |ms|))
    decreases |ms| - i
  {
    hide ParentFirst, HoldsReached, MountOneIn, Stops;
    if i < |ms| {
      assert ms[i..][0] == ms[i] && ms[i..][1..] == ms[i + 1..];
      ReachedNext(fs, ms, rooms, i);
      var (fs', ok) := MountOneIn(fs, ms[i], rooms(i));
      if ok {
        ReachedFrom(fs', ms, rooms, i + 1);
      }
    }
  }

  /** Mounting a parent-first list on an empty root, whatever the heap answers: it reports success exactly if every
      file got its memory, and then a member is missing exactly if its node or that of a directory above it got
      none. */
  lemma MountedExactly(root: Info, ms: seq<Member>, rooms: nat -> Room, k: nat)
    requires root.kind == Dir && ParentFirst(ms) && k < |ms| && Place(ms[k]).Some?
    ensures var (fs, ok) := MountAllIn(map[[] := root], ms, rooms, 0);
            var p := Place(ms[k]).value;
            && (ok <==> forall j: nat | j < |ms| :: !Stops(ms, rooms, j))
            && (ok ==> (p in fs <==> Reached(ms, rooms, k)) && (p in fs ==> fs[p] == InfoOf(ms[k])))
  {
    hide Normalised, Key, InfoOf, Reached, MountAllIn, Stops;
    assert ms[0..] == ms;
    ReachedFrom(map[[] := root], ms, rooms, 0);
    PlaceNonempty(ms[k]);
    var (fs, ok) := MountAllIn(map[[] := root], ms, rooms, 0);
    var p := Place(ms[k]).value;
    if ok && p in fs {
      var j: nat :| j < |ms| && Reached(ms, rooms, j) && Place(ms[j]) == Some(p);
      assert j == k;
    }
  }

  /** A directory without memory for its node is missing after a mount that reports success. */
  lemma DirectoryMissing(root: Info, mode: nat)
    requires root.kind == Dir
    ensures var ms := [Member("etc", true, mode, [])];
            var none := (_: nat) => Room(false, false);
            && ParentFirst(ms) && Place(ms[0]) == Some(["etc"])
            && MountAllIn(map[[] := root], ms, none, 0) == (map[[] := root], true)
  {
    hide Normalised, Key;
    var m := Member("etc", true, mode, []);
    PlaceOfEtc();
    assert Place(m) == Some(["etc"]) && Parent(["etc"]) == [];
    assert [m][1..] == [];
  }

  lemma PlaceOfEtc()
    ensures Normalised("etc") == Some("etc") && Key("etc") == Some(["etc"])
  {
    assert SplitPath("etc") == Some(("/", "etc"));
    KeyIsComps("etc");
    CompsOfName("etc");
  }

  /** What the loop over the bytes makes of a packed list. */
  lemma PackedBytes(ms: seq<Member>, behind: nat -> byte, rooms: nat -> Room, k: nat)
    requires (forall i | 0 <= i < |ms| :: Packable(ms[i])) && ParentFirst(ms) && k < |ms| && Place(ms[k]).Some?
    ensures |Pack(ms)| >= 2 * BLOCK
    ensures var (fs, ok) := MountBytes(map[[] := Info(Dir, 0, [])], Pack(ms), behind, 0, rooms, 0);
            var p := Place(ms[k]).value;
            && (ok <==> forall j: nat | j < |ms| :: !Stops(ms, rooms, j))
            && (ok ==> (p in fs <==> Reached(ms, rooms, k)) && (p in fs ==> fs[p] == InfoOf(ms[k])))
  {
    hide Archive, MountAllIn, MountBytes, Packable, ParentFirst, Place, Pack, Reached, Stops;
    PackIsArchive(ms);
    var image := Pack(ms);
    assert image[0..] == image;
    ArchiveBytes(map[[] := Info(Dir, 0, [])], image, behind, 0, ms, rooms, 0);
    MountedExactly(Info(Dir, 0, []), ms, rooms, k);
  }

  lemma AllReached(ms: seq<Member>, rooms: nat -> Room)
    requires forall i: nat | i < |ms| :: rooms(i) == ENOUGH
    ensures forall j: nat | j < |ms| && Place(ms[j]).Some? :: Reached(ms, rooms, j)
    ensures forall j: nat | j < |ms| :: !Stops(ms, rooms, j)
  {
    hide Place, Above;
  }

  /** What lookup finds is what the tree has there. */
  lemma FoundAt(tree: Tree, path: string, n: Option<nat>)
    requires tree.Valid() && n == if Comps(path) in tree.at then Some(tree.at[Comps(path)]) else None
    ensures n.Some? <==> Comps(path) in tree.Fs()
    ensures n.Some? ==> n.value in tree.nodes && tree.nodes[n.value].info == tree.Fs()[Comps(path)]
  {
  }

  /** Packing a parent-first list, mounting it on a fresh tree and looking a member's path up: the mount reports
      success exactly if every file got its memory, and then finds the member's type, mode and contents exactly if
      there was memory for its node and for those above it. With enough memory that is all of them. */
  method MountPacked(ms: seq<Member>, k: nat, behind: nat -> byte, rooms: nat -> Room)
    returns (r: int, found: Option<Info>)
    requires (forall i | 0 <= i < |ms| :: Packable(ms[i])) && ParentFirst(ms)
    requires k < |ms| && Normalised(ms[k].name).Some?
    ensures r == 0 <==> forall j: nat | j < |ms| :: !Stops(ms, rooms, j)
    ensures r == 0 ==> found == if Reached(ms, rooms, k) then Some(InfoOf(ms[k])) else None
    ensures (forall i: nat | i < |ms| :: rooms(i) == ENOUGH) ==> r == 0 && found == Some(InfoOf(ms[k]))
  {
    hide *;
    var tree := new Tree();
    PlaceOf(ms, k);
    PackedBytes(ms, behind, rooms, k);
    if forall i: nat | i < |ms| :: rooms(i) == ENOUGH {
      AllReached(ms, rooms);
    }
    var image := Pack(ms);
    r := Mount(tree, image, behind, rooms);
    var path := Normalised(ms[k].name).value;
    PlaceIsLookedUp(ms[k]);
    var n := tree.Lookup(path);
    FoundAt(tree, path, n);
    found := if n.Some? then Some(tree.nodes[n.value].info) else None;
  }

  lemma PlaceOf(ms: seq<Member>, k: nat)
    requires ParentFirst(ms) && k < |ms| && Normalised(ms[k].name).Some?
    ensures Place(ms[k]).Some?
  {
    hide Normalised, Key;
  }
}
