/** The ustar archive that the root file system is mounted from (kernel/vfs/rootfs.c; ustar Interchange
    Format of POSIX pax). */
module Ustar {
  import opened Base
  import opened PathNames
  import opened VfsTree

  const BLOCK: nat := 512
  const NAME_FIELD: nat := 100

  // ---- octal fields ----

  predicate OctalDigit(b: byte) {
    48 <= b <= 55
  }

  predicate Blank(b: byte) {
    b == 32 || b == 0
  }

  /** tar_octal from position i with value v so far. */
  function OctalFrom(f: seq<byte>, i: nat, v: nat): nat
    requires i <= |f|
    decreases |f| - i
  {
    if i == |f| then v
    else if OctalDigit(f[i]) then OctalFrom(f, i + 1, 8 * v + (f[i] - 48))
    else if Blank(f[i]) then OctalFrom(f, i + 1, v)
    else v
  }

  function TarOctal(f: seq<byte>): nat {
    OctalFrom(f, 0, 0)
  }

  /** v in n octal digits. */
  function Octal(v: nat, n: nat): (r: seq<byte>)
    ensures |r| == n && forall i | 0 <= i < n :: OctalDigit(r[i])
  {
    if n == 0 then [] else Octal(v / 8, n - 1) + [48 + v % 8]
  }

  function Pow8(n: nat): nat {
    if n == 0 then 1 else 8 * Pow8(n - 1)
  }

  lemma {:induction false} BlanksEnd(f: seq<byte>, i: nat, v: nat)
    requires i <= |f| && forall k | i <= k < |f| :: Blank(f[k])
    ensures OctalFrom(f, i, v) == v
    decreases |f| - i
  {
    if i < |f| {
      BlanksEnd(f, i + 1, v);
    }
  }

  lemma {:induction false} BlanksLead(f: seq<byte>, i: nat, j: nat, v: nat)
    requires i <= j <= |f| && forall k | i <= k < j :: Blank(f[k])
    ensures OctalFrom(f, i, v) == OctalFrom(f, j, v)
    decreases j - i
  {
    if i < j {
      BlanksLead(f, i + 1, j, v);
    }
  }

  /** Digits at i are read as the number they write. */
  lemma {:induction false} DigitsRead(f: seq<byte>, i: nat, v: nat, n: nat)
    requires i + n <= |f| && f[i..i + n] == Octal(v, n) && v < Pow8(n)
    ensures OctalFrom(f, i, 0) == OctalFrom(f, i + n, v)
    decreases n
  {
    if n > 0 {
      var o := Octal(v, n);
      assert f[i..i + n - 1] == f[i..i + n][..n - 1] == o[..n - 1] == Octal(v / 8, n - 1);
      assert f[i + n - 1] == f[i..i + n][n - 1] == o[n - 1] == 48 + v % 8;
      DigitsRead(f, i, v / 8, n - 1);
    }
  }

  /** A number written in octal, with blanks before and after it, is read back. */
  lemma OctalRoundTrip(lead: seq<byte>, v: nat, n: nat, trail: seq<byte>)
    requires v < Pow8(n) && (forall i | 0 <= i < |lead| :: Blank(lead[i]))
    requires forall i | 0 <= i < |trail| :: Blank(trail[i])
    ensures TarOctal(lead + Octal(v, n) + trail) == v
  {
    var f := lead + Octal(v, n) + trail;
    BlanksLead(f, 0, |lead|, 0);
    assert f[|lead|..|lead| + n] == Octal(v, n);
    DigitsRead(f, |lead|, v, n);
    BlanksEnd(f, |lead| + n, v);
  }

  // ---- names ----

  function Chars(bs: seq<byte>): (r: string)
    ensures |r| == |bs| && forall i | 0 <= i < |r| :: r[i] == bs[i] as char
  {
    seq(|bs|, i requires 0 <= i < |bs| => bs[i] as char)
  }

  /** The length of the C string at i, at most n. */
  function NameLen(h: seq<byte>, i: nat, n: nat): (r: nat)
    requires i + n <= |h|
    ensures r <= n && (forall k | i <= k < i + r :: h[k] != 0) && (r < n ==> h[i + r] == 0)
    decreases n
  {
    if n == 0 || h[i] == 0 then 0 else 1 + NameLen(h, i + 1, n - 1)
  }

  function TrimSlashes(t: string): (r: string)
    ensures r <= t && (r != "" ==> r[|r| - 1] != '/') && forall i | |r| <= i < |t| :: t[i] == '/'
  {
    if t != "" && t[|t| - 1] == '/' then TrimSlashes(t[..|t| - 1]) else t
  }

  function Undotted(t: string): string {
    if |t| >= 2 && t[0] == '.' && t[1] == '/' then t[2..] else t
  }

  /** The path that an archive name stands for; None for the archive root. */
  function Normalised(name: string): Option<string> {
    var t := TrimSlashes(Undotted(name));
    if t == "" then None else Some(t)
  }

  /** tar_normalise on a header block. */
  function HeaderPath(h: seq<byte>): Option<string>
    requires |h| == BLOCK
  {
    var start := if h[0] == 46 && h[1] == 47 then 2 else 0;
    var t := TrimSlashes(Chars(h[start..start + NameLen(h, start, NAME_FIELD)]));
    if t == "" then None else Some(t)
  }

  // ---- archives ----

  /** A member: its name in the archive, its mode and its data; a directory has none. */
  datatype Member = Member(name: string, dir: bool, mode: nat, data: seq<byte>)

  predicate NameOk(name: string) {
    && 0 < |name| <= NAME_FIELD && (|name| == NAME_FIELD ==> Undotted(name) == name)
    && forall i | 0 <= i < |name| :: 0 < name[i] as int < 256
  }

  /** The block is a header of the member. */
  predicate HeaderOf(h: seq<byte>, m: Member) {
    && |h| == BLOCK && NameOk(m.name)
    && Chars(h[..|m.name|]) == m.name && (|m.name| < NAME_FIELD ==> h[|m.name|] == 0)
    && TarOctal(h[100..108]) == m.mode && TarOctal(h[124..136]) == |m.data|
    && (if m.dir then h[156] == 53 && m.data == [] else h[156] == 48 || h[156] == 0)
  }

  function Padded(n: nat): nat {
    (n + (BLOCK - 1)) / BLOCK * BLOCK
  }

  predicate ZeroBlock(img: seq<byte>) {
    |img| >= BLOCK && forall i | 0 <= i < BLOCK :: img[i] == 0
  }

  /** The image holds these members, each with its data padded to blocks, up to a zero block or the end. */
  predicate Archive(img: seq<byte>, ms: seq<Member>)
    decreases |ms|
  {
    if ms == [] then |img| < BLOCK || ZeroBlock(img)
    else
      var n := |ms[0].data|;
      && BLOCK + Padded(n) <= |img| && HeaderOf(img[..BLOCK], ms[0])
      && n <= Padded(n) && img[BLOCK..BLOCK + n] == ms[0].data
      && Archive(img[BLOCK + Padded(n)..], ms[1..])
  }

  /** A name that fits its field is read back from the header. */
  lemma HeaderPathIs(h: seq<byte>, m: Member)
    requires HeaderOf(h, m)
    ensures HeaderPath(h) == Normalised(m.name)
  {
    hide TarOctal, TrimSlashes, NameLen;
    var name := m.name;
    assert forall i | 0 <= i < |name| :: h[i] as char == h[..|name|][i] as char == name[i];
    var dotted := |name| >= 2 && name[0] == '.' && name[1] == '/';
    var start := if h[0] == 46 && h[1] == 47 then 2 else 0;
    assert dotted <==> start == 2 by {
      assert |name| == 1 ==> h[1] == 0;
      assert |name| >= 2 ==> h[1] as char == name[1];
    }
    var len := |name| - start;
    NameLenIs(h, start, NAME_FIELD, len);
    assert Chars(h[start..start + len]) == Undotted(name);
  }

  lemma {:induction false} NameLenIs(h: seq<byte>, i: nat, n: nat, len: nat)
    requires i + n <= |h| && len <= n && (forall k | i <= k < i + len :: h[k] != 0) && (len < n ==> h[i + len] == 0)
    ensures NameLen(h, i, n) == len
    decreases n
  {
    if len > 0 {
      NameLenIs(h, i + 1, n - 1, len - 1);
    }
  }

  // ---- packing ----

  function Bytes(t: string): (r: seq<byte>)
    requires forall i | 0 <= i < |t| :: t[i] as int < 256
    ensures |r| == |t|
  {
    seq(|t|, i requires 0 <= i < |t| => t[i] as int)
  }

  function Zeros(n: nat): (r: seq<byte>)
    ensures |r| == n && forall i | 0 <= i < n :: r[i] == 0
  {
    seq(n, _ => 0)
  }

  predicate Packable(m: Member) {
    NameOk(m.name) && m.mode < Pow8(7) && |m.data| < Pow8(11) && (m.dir ==> m.data == [])
  }

  /** The header block: name, mode, owner, size, time and checksum, type, and the rest left zero. */
  function Header(m: Member): (r: seq<byte>)
    requires Packable(m)
    ensures |r| == BLOCK
  {
    Bytes(m.name) + Zeros(NAME_FIELD - |m.name|) + Octal(m.mode, 7) + [0] + Zeros(16) +
    Octal(|m.data|, 11) + [0] + Zeros(20) + [if m.dir then 53 else 48] + Zeros(355)
  }

  function Pack(ms: seq<Member>): (r: seq<byte>)
    requires forall i | 0 <= i < |ms| :: Packable(ms[i])
    ensures |r| >= 2 * BLOCK
  {
    if ms == [] then Zeros(2 * BLOCK)
    else
      var m := ms[0];
      assert Padded(|m.data|) >= |m.data|;
      Header(m) + m.data + Zeros(Padded(|m.data|) - |m.data|) + Pack(ms[1..])
  }

  lemma HeaderFields(m: Member)
    requires Packable(m)
    ensures var h := Header(m);
            && h[..|m.name|] == Bytes(m.name) && (|m.name| < NAME_FIELD ==> h[|m.name|] == 0)
            && h[100..108] == Octal(m.mode, 7) + [0] && h[124..136] == Octal(|m.data|, 11) + [0]
            && h[156] == if m.dir then 53 else 48
  {
    hide Octal, Bytes, Zeros, Pow8;
    var a := Bytes(m.name) + Zeros(NAME_FIELD - |m.name|);
    var b := Octal(m.mode, 7) + [0];
    var c := Octal(|m.data|, 11) + [0];
    var h := Header(m);
    assert h == a + (b + (Zeros(16) + (c + (Zeros(20) + ([if m.dir then 53 else 48] + Zeros(355))))));
    assert h[..100] == a;
    assert h[..|m.name|] == a[..|m.name|] == Bytes(m.name);
    assert |m.name| < NAME_FIELD ==> h[|m.name|] == a[|m.name|] == 0;
    assert h[100..] == b + (Zeros(16) + (c + (Zeros(20) + ([if m.dir then 53 else 48] + Zeros(355)))));
    assert h[100..108] == h[100..][..8] == b;
    assert h[124..] == h[100..][24..] == c + (Zeros(20) + ([if m.dir then 53 else 48] + Zeros(355)));
    assert h[124..136] == h[124..][..12] == c;
  }

  lemma HeaderPacked(m: Member)
    requires Packable(m)
    ensures HeaderOf(Header(m), m)
  {
    hide Octal, Header, Pow8, TarOctal;
    HeaderFields(m);
    OctalRoundTrip([], m.mode, 7, [0]);
    OctalRoundTrip([], |m.data|, 11, [0]);
    assert [] + Octal(m.mode, 7) + [0] == Octal(m.mode, 7) + [0];
    assert [] + Octal(|m.data|, 11) + [0] == Octal(|m.data|, 11) + [0];
    assert Chars(Bytes(m.name)) == m.name;
  }

  lemma PackedSlices(h: seq<byte>, data: seq<byte>, pad: seq<byte>, rest: seq<byte>)
    requires |h| == BLOCK
    ensures var img := h + data + pad + rest;
            && img[..BLOCK] == h && img[BLOCK..BLOCK + |data|] == data && img[BLOCK + |data| + |pad|..] == rest
  {
    var img := h + data + pad + rest;
    assert img == h + (data + (pad + rest));
    assert img[BLOCK..] == data + (pad + rest);
    assert img[BLOCK..BLOCK + |data|] == img[BLOCK..][..|data|];
  }

  /** A packed image is an archive of its members. */
  lemma {:induction false} PackIsArchive(ms: seq<Member>)
    requires forall i | 0 <= i < |ms| :: Packable(ms[i])
    ensures Archive(Pack(ms), ms)
    decreases |ms|
  {
    if ms != [] {
      hide Header, HeaderOf, Packable, Padded, Pack, Archive;
      var m, n := ms[0], |ms[0].data|;
      PaddedFits(n);
      HeaderPacked(m);
      PackIsArchive(ms[1..]);
      PackedSlices(Header(m), m.data, Zeros(Padded(n) - n), Pack(ms[1..]));
      PackStep(ms);
      ArchiveStep(Pack(ms), ms);
    }
  }

  lemma PackStep(ms: seq<Member>)
    requires ms != [] && forall i | 0 <= i < |ms| :: Packable(ms[i])
    ensures var n := |ms[0].data|;
            && n <= Padded(n)
            && Pack(ms) == Header(ms[0]) + ms[0].data + Zeros(Padded(n) - n) + Pack(ms[1..])
  {
    hide Header, Packable;
    PaddedFits(|ms[0].data|);
  }

  lemma ArchiveStep(img: seq<byte>, ms: seq<Member>)
    requires ms != []
    requires var n := |ms[0].data|;
             && BLOCK + Padded(n) <= |img| && HeaderOf(img[..BLOCK], ms[0])
             && n <= Padded(n) && img[BLOCK..BLOCK + n] == ms[0].data
             && Archive(img[BLOCK + Padded(n)..], ms[1..])
    ensures Archive(img, ms)
  {
  }

  lemma PaddedFits(n: nat)
    ensures n <= Padded(n)
  {
  }

  // ---- what a mount makes of the members ----

  const DIR_MODE: nat := 0x1ED
  const FILE_MODE: nat := 0x1A4

  /** What the member's path is to lead to; a mode of 0 leaves the default. */
  function InfoOf(m: Member): Info {
    if m.dir then Info(Dir, if m.mode != 0 then m.mode else DIR_MODE, [])
    else Info(File, if m.mode != 0 then m.mode else FILE_MODE, m.data)
  }

  /** What a member becomes: a directory without contents or a file with the archive's, with the archive's mode or, if
      that is 0, octal 755 and octal 644. */
  lemma InfoIs(m: Member)
    ensures InfoOf(m).kind == (if m.dir then Dir else File) && InfoOf(m).data == (if m.dir then [] else m.data)
    ensures m.mode != 0 ==> InfoOf(m).mode == m.mode
    ensures m.mode == 0 ==> InfoOf(m).mode == if m.dir then 493 else 420
  {
  }

  /** One member: the archive root is skipped, a directory that cannot be created too. */
  function MountOne(fs: Fs, m: Member): Option<Fs> {
    match Normalised(m.name)
    case None => Some(fs)
    case Some(path) =>
      if CanCreate(fs, path) then Some(fs[Key(path).value := InfoOf(m)])
      else if m.dir then Some(fs)
      else None
  }

  function MountAll(fs: Fs, ms: seq<Member>): Option<Fs>
    decreases |ms|
  {
    if ms == [] then Some(fs)
    else
      match MountOne(fs, ms[0])
      case None => None
      case Some(fs') => MountAll(fs', ms[1..])
  }

  /** Where a member goes; None for the archive root. */
  function Place(m: Member): Option<seq<string>> {
    match Normalised(m.name)
    case None => None
    case Some(path) => Key(path)
  }

  /** Some member before the i-th is the directory p. */
  predicate MadeBefore(ms: seq<Member>, i: nat, p: seq<string>)
    requires i <= |ms|
  {
    exists j | 0 <= j < i :: Place(ms[j]) == Some(p) && ms[j].dir
  }

  /** Parents come first, in directories of the archive, and no path comes twice. */
  predicate ParentFirst(ms: seq<Member>) {
    && (forall i | 0 <= i < |ms| && Normalised(ms[i].name).Some? ::
          Place(ms[i]).Some? && (Parent(Place(ms[i]).value) == [] || MadeBefore(ms, i, Parent(Place(ms[i]).value))))
    && (forall i, j | 0 <= i < j < |ms| && Place(ms[i]).Some? :: Place(ms[i]) != Place(ms[j]))
  }

  /** The root directory and the first i members. */
  ghost predicate HoldsFirst(fs: Fs, ms: seq<Member>, i: nat)
    requires i <= |ms|
  {
    && [] in fs && fs[[]].kind == Dir
    && (forall j | 0 <= j < i && Place(ms[j]).Some? ::
      Place(ms[j]).value in fs && fs[Place(ms[j]).value] == InfoOf(ms[j]))
    && (forall p | p in fs && p != [] :: exists j | 0 <= j < i :: Place(ms[j]) == Some(p))
  }

  lemma {:induction false} MountsFrom(fs: Fs, ms: seq<Member>, i: nat)
    requires ParentFirst(ms) && i <= |ms| && HoldsFirst(fs, ms, i)
    ensures var r := MountAll(fs, ms[i..]); r.Some? && HoldsFirst(r.value, ms, |ms|)
    decreases |ms| - i
  {
    if i < |ms| {
      hide Normalised, Key, ParentFirst;
      MountsNext(fs, ms, i);
      var fs' := MountOne(fs, ms[i]).value;
      MountsFrom(fs', ms, i + 1);
      assert ms[i..][0] == ms[i] && ms[i..][1..] == ms[i + 1..];
    }
  }

  lemma MountsNext(fs: Fs, ms: seq<Member>, i: nat)
    requires ParentFirst(ms) && i < |ms| && HoldsFirst(fs, ms, i)
    ensures var r := MountOne(fs, ms[i]); r.Some? && HoldsFirst(r.value, ms, i + 1)
  {
    hide Normalised, Key;
    var m := ms[i];
    if Normalised(m.name).Some? {
      var p := Place(m).value;
      PlaceNonempty(m);
      assert p !in fs;
      assert IsDir(fs, Parent(p));
      var fs' := fs[p := InfoOf(m)];
      forall q | q in fs' && q != [] ensures exists j | 0 <= j < i + 1 :: Place(ms[j]) == Some(q) {
        if q == p {
          assert Place(ms[i]) == Some(q);
        } else {
          var j :| 0 <= j < i && Place(ms[j]) == Some(q);
        }
      }
    }
  }

  lemma PlaceNonempty(m: Member)
    requires Place(m).Some?
    ensures Place(m).value != []
  {
  }

  /** Mounting a parent-first archive on an empty root gives exactly its members. */
  lemma MountsExactly(root: Info, ms: seq<Member>)
    requires root.kind == Dir && ParentFirst(ms)
    ensures var r := MountAll(map[[] := root], ms);
            && r.Some?
            && (forall j | 0 <= j < |ms| && Place(ms[j]).Some? ::
                  Place(ms[j]).value in r.value && r.value[Place(ms[j]).value] == InfoOf(ms[j]))
            && (forall p | p in r.value && p != [] :: exists j | 0 <= j < |ms| :: Place(ms[j]) == Some(p))
  {
    hide ParentFirst;
    assert ms[0..] == ms;
    MountsFrom(map[[] := root], ms, 0);
  }

  /** A member's place is where lookup goes for its path. */
  lemma PlaceIsLookedUp(m: Member)
    requires Place(m).Some?
    ensures Normalised(m.name).Some? && Comps(Normalised(m.name).value) == Place(m).value
  {
    KeyIsComps(Normalised(m.name).value);
  }
}
