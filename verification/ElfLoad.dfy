/** Loading the segments of a static ELF image into a new address space (kernel/elf/elfload.c,
    kernel/elf/tus_elf.c). */
module ElfLoad {
  import opened Base
  import opened Pmm
  import opened PageTables
  import opened Vmm
  import opened AddressSpaces
  import opened VirtualAddresses
  import opened VmmKernel
  import opened Mmap
  import S = StackImage

  const PT_LOAD: nat := 1
  const PHDR_SIZE: nat := 56

  // ---- user memory through the page tables ----

  type Frame = s: seq<byte> | |s| == PAGE_SIZE witness seq(PAGE_SIZE, _ => 0)

  /** The user half of an address space: its tables and the bytes of the frames. */
  datatype Mem = Mem(tables: Tables, space: nat, data: map<nat, Frame>)

  /** Some user page of the space maps a with a frame. */
  predicate Backed(m: Mem, a: nat) {
    var f := Look(m.tables, m.space, IxOf(a));
    a <= USER_HALF_MAX && f.Some? && f.value in m.data
  }

  function ByteAt(m: Mem, a: nat): byte
    requires Backed(m, a)
  {
    m.data[Look(m.tables, m.space, IxOf(a)).value][a % PAGE_SIZE]
  }

  /** A byte store at a user address. */
  function Poke(m: Mem, a: nat, b: byte): Mem
    requires Backed(m, a)
  {
    var f := Look(m.tables, m.space, IxOf(a)).value;
    m.(data := m.data[f := m.data[f][a % PAGE_SIZE := b]])
  }

  /** Bytes of other address spaces are as they were. */
  ghost predicate OthersKept(m: Mem, m': Mem, roles: Roles) {
    m'.space == m.space && forall d: nat, x: nat | IsSpace(roles, d) && d != m.space && Backed(m.(space := d), x) ::
      Backed(m'.(space := d), x) && ByteAt(m'.(space := d), x) == ByteAt(m.(space := d), x)
  }

  /** Addresses of one space with one frame are on one page. */
  lemma FramePage(m: Mem, roles: Roles, d: nat, a: nat, x: nat)
    requires Unshared(m.tables, roles) && IsSpace(roles, m.space) && IsSpace(roles, d)
    requires a <= USER_HALF_MAX && x <= USER_HALF_MAX
    requires Look(m.tables, m.space, IxOf(a)).Some? && Look(m.tables, d, IxOf(x)) == Look(m.tables, m.space, IxOf(a))
    ensures d == m.space && x / PAGE_SIZE == a / PAGE_SIZE
  {
    hide Look, IxOf;
    UserPath(a);
    UserPath(x);
    SameIxSamePage(a, x);
  }

  lemma PokeEffect(m: Mem, roles: Roles, a: nat, b: byte)
    requires Unshared(m.tables, roles) && IsSpace(roles, m.space) && Backed(m, a)
    ensures var m' := Poke(m, a, b);
            && m'.data.Keys == m.data.Keys && OthersKept(m, m', roles)
            && forall x: nat | Backed(m, x) :: Backed(m', x) && ByteAt(m', x) == if x == a then b else ByteAt(m, x)
  {
    hide Look, IxOf, Unshared;
    var m' := Poke(m, a, b);
    forall d: nat, x: nat | IsSpace(roles, d) && Backed(m.(space := d), x)
      ensures Backed(m'.(space := d), x)
      ensures ByteAt(m'.(space := d), x) == if d == m.space && x == a then b else ByteAt(m.(space := d), x)
    {
      if Look(m.tables, d, IxOf(x)) == Look(m.tables, m.space, IxOf(a)) {
        FramePage(m, roles, d, a, x);
        assert x % PAGE_SIZE == a % PAGE_SIZE ==> x == a;
      }
    }
    assert m.(space := m.space) == m && m'.(space := m.space) == m';
  }

  /** What was mapped is still mapped and the same, except in [lo, hi). */
  ghost predicate KeptBut(m: Mem, m': Mem, lo: nat, hi: nat) {
    forall x: nat | Backed(m, x) :: Backed(m', x) && (!(lo <= x < hi) ==> ByteAt(m', x) == ByteAt(m, x))
  }

  // ---- program headers ----

  datatype Ehdr = Ehdr(phoff: nat, phentsize: nat, phnum: nat)

  datatype Phdr = Phdr(kind: nat, offset: nat, vaddr: nat, filesz: nat, memsz: nat)

  function Field(file: seq<byte>, off: nat, n: nat): nat
    requires off + n <= |file|
  {
    S.UnLe(file[off..off + n])
  }

  function PhdrOff(eh: Ehdr, i: nat): nat {
    (eh.phoff + i * eh.phentsize) % WORD
  }

  predicate Readable(file: seq<byte>, off: nat, n: nat) {
    n == 0 || off + n <= |file|
  }

  function PhdrAt(file: seq<byte>, eh: Ehdr, i: nat): Phdr
    requires Readable(file, PhdrOff(eh, i), PHDR_SIZE)
  {
    var p := PhdrOff(eh, i);
    Phdr(Field(file, p, 4), Field(file, p + 8, 8), Field(file, p + 16, 8), Field(file, p + 32, 8),
        Field(file, p + 40, 8))
  }

  /** The loadable segments among the first n headers; None if one of them cannot be read. */
  function Loads(file: seq<byte>, eh: Ehdr, n: nat): Option<seq<Phdr>> {
    if n == 0 then Some([])
    else
      match Loads(file, eh, n - 1)
      case None => None
      case Some(ps) =>
        if !Readable(file, PhdrOff(eh, n - 1), PHDR_SIZE) then None
        else
          var p := PhdrAt(file, eh, n - 1);
          Some(if p.kind == PT_LOAD then ps + [p] else ps)
  }

  // ---- what the segments say ----

  predicate Covers(p: Phdr, a: nat) {
    p.vaddr <= a < p.vaddr + p.memsz
  }

  /** The byte that a segment puts at address a: from the file, then zeros. */
  function SegmentByte(file: seq<byte>, p: Phdr, a: nat): byte
    requires Covers(p, a) && Readable(file, p.offset, p.filesz)
  {
    var k := a - p.vaddr;
    if k < p.filesz then file[p.offset + k] else 0
  }

  /** A segment that fits its file, its memory and the user half. */
  predicate SegmentOk(file: seq<byte>, p: Phdr) {
    Readable(file, p.offset, p.filesz) && p.filesz <= p.memsz && p.vaddr + p.memsz <= USER_HALF_MAX
  }

  /** The byte at a is the one of the last segment that covers a. */
  ghost predicate AsLast(file: seq<byte>, ps: seq<Phdr>, m: Mem, a: nat)
    requires AllOk(file, ps)
    decreases |ps|
  {
    if ps == [] then true
    else
      var p := ps[|ps| - 1];
      assert SegmentOk(file, p);
      if Covers(p, a) then Backed(m, a) && ByteAt(m, a) == SegmentByte(file, p, a)
      else AsLast(file, ps[..|ps| - 1], m, a)
  }

  predicate AllOk(file: seq<byte>, ps: seq<Phdr>) {
    forall i | 0 <= i < |ps| :: SegmentOk(file, ps[i])
  }

  ghost predicate Loaded(file: seq<byte>, ps: seq<Phdr>, m: Mem)
    requires AllOk(file, ps)
  {
    forall a: nat :: AsLast(file, ps, m, a)
  }

  /** Byte-disjoint segments. */
  ghost predicate Disjoint(ps: seq<Phdr>) {
    forall i, j, a: nat | 0 <= i < j < |ps| && Covers(ps[i], a) :: !Covers(ps[j], a)
  }

  /** One segment's memory is its file bytes followed by zeros. */
  ghost predicate InPlace(file: seq<byte>, p: Phdr, m: Mem)
    requires SegmentOk(file, p)
  {
    forall a: nat | Covers(p, a) :: Backed(m, a) && ByteAt(m, a) == SegmentByte(file, p, a)
  }

  /** Byte-disjoint segments are all in place, whether or not they share pages. */
  lemma {:induction false} DisjointInPlace(file: seq<byte>, ps: seq<Phdr>, m: Mem, i: nat)
    requires AllOk(file, ps) && Disjoint(ps) && Loaded(file, ps, m) && i < |ps|
    ensures InPlace(file, ps[i], m)
  {
    forall a: nat | Covers(ps[i], a) ensures Backed(m, a) && ByteAt(m, a) == SegmentByte(file, ps[i], a) {
      OnlyOne(file, ps, m, i, a);
    }
  }

  lemma {:induction false} OnlyOne(file: seq<byte>, ps: seq<Phdr>, m: Mem, i: nat, a: nat)
    requires AllOk(file, ps) && i < |ps| && Covers(ps[i], a) && AsLast(file, ps, m, a)
    requires forall j | i < j < |ps| :: !Covers(ps[j], a)
    ensures Backed(m, a) && ByteAt(m, a) == SegmentByte(file, ps[i], a)
    decreases |ps|
  {
    if i < |ps| - 1 {
      OnlyOne(file, ps[..|ps| - 1], m, i, a);
    }
  }

  // ---- the loader ----

  datatype Status = Ok | IoError | NoMemory

  /** Every address of [lo, hi) is mapped. */
  ghost predicate AllBacked(m: Mem, lo: nat, hi: nat) {
    forall x: nat | lo <= x < hi :: Backed(m, x)
  }

  /** The bytes of segment p up to address hi are in place. */
  ghost predicate PlacedTo(file: seq<byte>, p: Phdr, m: Mem, hi: nat)
    requires SegmentOk(file, p)
  {
    forall a: nat | Covers(p, a) && a < hi :: Backed(m, a) && ByteAt(m, a) == SegmentByte(file, p, a)
  }

  // ---- one page ----

  /** Every user page's frame has bytes. */
  ghost predicate AllHeld(ts: Tables, roles: Roles, data: map<nat, Frame>) {
    forall d: nat, jx: seq<nat> | IsSpace(roles, d) && UserIx(jx) && Look(ts, d, jx).Some? ::
      Look(ts, d, jx).value in data
  }

  /** Outside these frames the bytes are the same. */
  predicate SameFrames(data: map<nat, Frame>, data': map<nat, Frame>, but: set<nat>) {
    forall f | f in data && f !in but :: f in data' && data'[f] == data[f]
  }

  lemma UserAddress(x: nat)
    requires x <= USER_HALF_MAX
    ensures UserIx(IxOf(x))
  {
    UserPath(x);
  }

  /** Nothing that any space sees has changed. */
  lemma SameMem(m: Mem, m': Mem, roles: Roles, free: set<nat>)
    requires SameLooks(m.tables, m'.tables, roles) && m'.space == m.space && IsSpace(roles, m.space)
    requires DataFrames(m.tables, roles, free) && SameFrames(m.data, m'.data, free) && AllHeld(m.tables, roles, m.data)
    ensures KeptBut(m, m', 0, 0) && OthersKept(m, m', roles) && AllHeld(m'.tables, roles, m'.data)
    ensures forall x: nat | Backed(m', x) :: Backed(m, x)
  {
    hide Look, IxOf;
    forall d: nat, x: nat | IsSpace(roles, d) && x <= USER_HALF_MAX
      ensures Backed(m.(space := d), x) <==> Backed(m'.(space := d), x)
      ensures Backed(m.(space := d), x) ==> ByteAt(m'.(space := d), x) == ByteAt(m.(space := d), x)
    {
      UserAddress(x);
      assert Look(m'.tables, d, IxOf(x)) == Look(m.tables, d, IxOf(x));
    }
    assert m.(space := m.space) == m && m'.(space := m.space) == m';
  }

  /** One more page of this space is mapped, to a frame that was free; nothing else has changed. */
  lemma NewPageMem(m: Mem, m': Mem, roles: Roles, free: set<nat>, virt: nat, f: nat)
    requires OnlyChanged(m.tables, m'.tables, roles, m.space, IxOf(virt), Some(f)) && virt <= USER_HALF_MAX
    requires m'.space == m.space && IsSpace(roles, m.space) && f in m'.data
      && Look(m.tables, m.space, IxOf(virt)) == None
    requires DataFrames(m.tables, roles, free) && SameFrames(m.data, m'.data, free) && AllHeld(m.tables, roles, m.data)
    ensures KeptBut(m, m', 0, 0) && OthersKept(m, m', roles) && AllHeld(m'.tables, roles, m'.data)
    ensures forall x: nat | x <= USER_HALF_MAX && x / PAGE_SIZE == virt / PAGE_SIZE :: Backed(m', x)
    ensures forall x: nat | Backed(m', x) :: Backed(m, x) || x / PAGE_SIZE == virt / PAGE_SIZE
  {
    hide Look, IxOf;
    forall d: nat, x: nat | IsSpace(roles, d) && x <= USER_HALF_MAX
      ensures Backed(m.(space := d), x) ==>
                Backed(m'.(space := d), x) && ByteAt(m'.(space := d), x) == ByteAt(m.(space := d), x)
      ensures Backed(m'.(space := d), x) ==>
        Backed(m.(space := d), x) || (d == m.space && x / PAGE_SIZE == virt / PAGE_SIZE)
      ensures d == m.space && x / PAGE_SIZE == virt / PAGE_SIZE ==> Backed(m'.(space := d), x)
    {
      UserAddress(x);
      UserPath(x);
      UserPath(virt);
      SameIxSamePage(x, virt);
      assert Look(m'.tables, d, IxOf(x)) ==
             if d == m.space && IxOf(x) == IxOf(virt) then Some(f) else Look(m.tables, d, IxOf(x));
    }
    assert m.(space := m.space) == m && m'.(space := m.space) == m';
  }

  /** Mapping a page again to the frame it has changes no translation. */
  lemma RemapEffect(s: Vm, roles: Roles, c: nat, ix: seq<nat>)
    requires VmOk(s, roles) && Private(s, roles) && IsSpace(roles, c) && UserIx(ix) && Look(s.tables, c, ix).Some?
    ensures var s1 := Walk(s, c, ix, false, false).0;
            && VmOk(s1, roles)
            && var (s2, ok) := MapIn(s1, c, ix, Look(s.tables, c, ix).value, RW);
            var roles' := WalkRoles(s1, roles, c, ix, true);
            && VmOk(s2, roles') && Private(s2, roles') && GrowsTo(roles, roles')
            && SameLooks(s.tables, s2.tables, roles) && (!ok ==> Exhausted(s2.pool))
  {
    hide VmOk, Look, Walk, MapIn, WalkRoles, Unshared, DataFrames;
    var x := Look(s.tables, c, ix);
    WalkOnly(s, roles, c, ix);
    var s1 := Walk(s, c, ix, false, false).0;
    MapUser(s1, roles, c, ix, x.value, RW);
    var (s2, ok) := MapIn(s1, c, ix, x.value, RW);
    var roles' := WalkRoles(s1, roles, c, ix, true);
    assert Look(s1.tables, c, ix) == x;
    assert SameLooks(s.tables, s2.tables, roles);
    PrivateGrows(s, roles, s2, roles');
  }

  /** A new frame for a page that has none. The frame is not given back when the mapping fails. */
  lemma FreshEffect(s: Vm, roles: Roles, c: nat, ix: seq<nat>)
    requires VmOk(s, roles) && Private(s, roles) && IsSpace(roles, c) && UserIx(ix)
    ensures var s1 := Walk(s, c, ix, false, false).0;
            && VmOk(s1, roles) && Private(s1, roles) && SameLooks(s.tables, s1.tables, roles) && s1.pool == s.pool
            && var (p, r) := Alloc(s.pool);
            && VmOk(s1.(pool := p), roles) && Private(s1.(pool := p), roles)
            && (r.None? ==> Exhausted(s.pool) && p == s.pool)
            && (r.Some? ==>
                  var (s2, ok) := MapIn(s1.(pool := p), c, ix, r.value, RW);
                  var roles' := WalkRoles(s1.(pool := p), roles, c, ix, true);
                  && r.value in s.pool.free && r.value != 0
                  && VmOk(s2, roles') && Private(s2, roles') && GrowsTo(roles, roles')
                  && (ok ==> OnlyChanged(s.tables, s2.tables, roles, c, ix, Some(r.value)))
                  && (!ok ==> SameLooks(s.tables, s2.tables, roles) && Exhausted(s2.pool)))
  {
    hide VmOk, Look, Walk, MapIn, WalkRoles, Unshared, DataFrames, SameLooks, OnlyChanged, Alloc;
    WalkOnly(s, roles, c, ix);
    var s1 := Walk(s, c, ix, false, false).0;
    PrivateGrows(s, roles, s1, roles);
    AllocTakes(s1, roles);
    var (p, r) := Alloc(s.pool);
    var s0 := s1.(pool := p);
    SameLooksRefl(s1.tables, roles);
    GrowsRefl(roles);
    PrivateGrows(s1, roles, s0, roles);
    if r.Some? {
      MapUser(s0, roles, c, ix, r.value, RW);
      var (s2, ok) := MapIn(s0, c, ix, r.value, RW);
      var roles' := WalkRoles(s0, roles, c, ix, true);
      if ok {
        ChangedAfterSame(s.tables, s1.tables, s2.tables, roles, c, ix, Some(r.value));
        MappedPrivate(s1.tables, s2.tables, roles, roles', s1.pool.free, s2.pool.free, c, ix, r.value);
      } else {
        PrivateGrows(s0, roles, s2, roles');
        SameLooksTrans(s.tables, s1.tables, s2.tables, roles);
      }
    }
  }

  lemma SameLooksTrans(ts: Tables, ts1: Tables, ts2: Tables, roles: Roles)
    requires SameLooks(ts, ts1, roles) && SameLooks(ts1, ts2, roles)
    ensures SameLooks(ts, ts2, roles)
  {
    hide Look;
    forall c: nat, ix: seq<nat> | IsSpace(roles, c) && Ix(ix) ensures Look(ts2, c, ix) == Look(ts, c, ix) {
      assert Look(ts1, c, ix) == Look(ts, c, ix);
    }
  }

  lemma KeptTrans(m: Mem, m1: Mem, m2: Mem, lo: nat, hi: nat)
    requires KeptBut(m, m1, lo, hi) && KeptBut(m1, m2, lo, hi)
    ensures KeptBut(m, m2, lo, hi)
  {
    hide Backed, ByteAt;
  }

  /** What one call may do to memory: other spaces keep everything, this one everything outside [lo, hi). */
  ghost predicate Keeps(m: Mem, m': Mem, roles: Roles, lo: nat, hi: nat) {
    KeptBut(m, m', lo, hi) && OthersKept(m, m', roles)
  }

  lemma SpacesStay(roles: Roles, roles': Roles)
    requires GrowsTo(roles, roles')
    ensures forall d: nat :: IsSpace(roles', d) <==> IsSpace(roles, d)
  {
  }

  lemma HeldStays(ts: Tables, roles: Roles, roles': Roles, data: map<nat, Frame>)
    requires AllHeld(ts, roles, data) && GrowsTo(roles, roles')
    ensures AllHeld(ts, roles', data)
  {
    hide Look;
    SpacesStay(roles, roles');
  }

  class Loader {
    const file: seq<byte>
    const mmu: PageTableManager
    const space: nat
    var data: map<nat, Frame>

    ghost predicate Valid()
      reads this, mmu, mmu.pmm, mmu.pmm.bitmap
    {
      && mmu.Valid() && IsSpace(mmu.roles, space) && Private(mmu.Value(), mmu.roles)
      && AllHeld(mmu.tables, mmu.roles, data)
    }

    /** The memory of the new space. */
    ghost function M(): Mem
      reads this, mmu
    {
      Mem(mmu.tables, space, data)
    }

    constructor (file: seq<byte>, mmu: PageTableManager, space: nat, data: map<nat, Frame>)
      requires mmu.Valid() && IsSpace(mmu.roles, space) && Private(mmu.Value(), mmu.roles)
      requires AllHeld(mmu.tables, mmu.roles, data)
      ensures Valid() && this.file == file && this.mmu == mmu && this.space == space && this.data == data
    {
      this.file, this.mmu, this.space, this.data := file, mmu, space, data;
    }

    /** A new frame, holding anything, for a page that has none. */
    method MapFresh(virt: nat, ghost s: Vm) returns (ok: bool)
      requires Valid() && virt % PAGE_SIZE == 0 && virt <= USER_HALF_MAX && VmOk(s, mmu.roles) && Private(s, mmu.roles)
      requires mmu.Value() == Walk(s, space, IxOf(virt), false, false).0 && Look(s.tables, space, IxOf(virt)) == None
      requires AllHeld(s.tables, mmu.roles, data)
      modifies `data, mmu, mmu.pmm, mmu.pmm.bitmap
      ensures Valid() && GrowsTo(old(mmu.roles), mmu.roles)
        && Keeps(Mem(s.tables, space, old(data)), M(), old(mmu.roles), 0, 0)
      ensures !ok ==> Exhausted(mmu.Value().pool)
      ensures ok ==> forall x: nat | x <= USER_HALF_MAX && x / PAGE_SIZE == virt / PAGE_SIZE :: Backed(M(), x)
      ensures forall x: nat | Backed(M(), x) ::
        Backed(Mem(s.tables, space, old(data)), x) || x / PAGE_SIZE == virt / PAGE_SIZE
    {
      hide VmOk, Look, IxOf, FreeSet, Walk, WalkRoles, MapIn, Alloc, Private, OnlyChanged, SameLooks, AllHeld, Backed,
           ByteAt, KeptBut, OthersKept, DataFrames;
      UserAddress(virt);
      ghost var m, roles := Mem(s.tables, space, data), mmu.roles;
      FreshEffect(s, roles, space, IxOf(virt));
      FramesOf(s, roles);
      GrowsRefl(roles);
      var frame := mmu.pmm.AllocFrame();
      ghost var r := Alloc(s.pool).1;
      if frame == 0 {
        SameMem(m, M(), roles, s.pool.free);
        return false;
      }
      assert r.Some? && frame == r.value * PAGE_SIZE;
      var held: Frame := *;
      data := data[frame / PAGE_SIZE := held];
      UserWalkable(mmu.State(), space, IxOf(virt));
      var code := mmu.MapPageIn(space, virt, frame, RW);
      if code != 0 {
        SameMem(m, M(), roles, s.pool.free);
      } else {
        NewPageMem(m, M(), roles, s.pool.free, virt, r.value);
      }
      HeldStays(mmu.tables, roles, mmu.roles, data);
      return code == 0;
    }

    /** One page of tus_alloc: a mapped page keeps its frame. */
    method AllocPage(virt: nat) returns (ok: bool)
      requires Valid() && virt % PAGE_SIZE == 0 && virt <= USER_HALF_MAX
      modifies `data, mmu, mmu.pmm, mmu.pmm.bitmap
      ensures Valid() && GrowsTo(old(mmu.roles), mmu.roles) && Keeps(old(M()), M(), old(mmu.roles), 0, 0)
      ensures !ok ==> Exhausted(mmu.Value().pool)
      ensures ok ==> forall x: nat | x <= USER_HALF_MAX && x / PAGE_SIZE == virt / PAGE_SIZE :: Backed(M(), x)
      ensures forall x: nat | Backed(M(), x) :: Backed(old(M()), x) || x / PAGE_SIZE == virt / PAGE_SIZE
    {
      hide VmOk, Look, IxOf, FreeSet, Walk, WalkRoles, MapIn, Alloc, Private, OnlyChanged, SameLooks, AllHeld, Backed,
           ByteAt, KeptBut, OthersKept, DataFrames;
      UserAddress(virt);
      ghost var s, roles, ix := mmu.Value(), mmu.roles, IxOf(virt);
      FreshEffect(s, roles, space, ix);
      FramesOf(s, roles);
      NonzeroFrame(s, roles, space, ix);
      UserWalkable(mmu.State(), space, IxOf(virt));
      var frame := mmu.TranslateAddress(space, virt);
      if frame == 0 {
        SameMem(Mem(s.tables, space, data), M(), roles, s.pool.free);
        ok := MapFresh(virt, s);
        return;
      }
      RemapEffect(s, roles, space, ix);
      UserWalkable(mmu.State(), space, IxOf(virt));
      var code := mmu.MapPageIn(space, virt, frame - frame % PAGE_SIZE, RW);
      SameMem(old(M()), M(), roles, s.pool.free);
      HeldStays(mmu.tables, roles, mmu.roles, data);
      PageIsMapped(old(M()), M(), old(mmu.roles), virt);
      return code == 0;
    }

    /** tus_alloc. */
    method TusAlloc(virt: nat, size: nat) returns (ok: bool)
      requires Valid() && virt + size <= USER_HALF_MAX
      modifies `data, mmu, mmu.pmm, mmu.pmm.bitmap
      ensures Valid() && GrowsTo(old(mmu.roles), mmu.roles) && Keeps(old(M()), M(), old(mmu.roles), 0, 0)
      ensures if ok then virt != 0 && AllBacked(M(), virt, virt + size)
              else virt == 0 || Exhausted(mmu.Value().pool)
      ensures forall x: nat | Backed(M(), x) :: Backed(old(M()), x) || TouchedPage(virt, virt + size, x / PAGE_SIZE)
    {
      hide Backed, ByteAt, KeptBut, OthersKept, AllHeld, Private, VmOk;
      var first, last := virt / PAGE_SIZE * PAGE_SIZE, (virt + size + (PAGE_SIZE - 1)) / PAGE_SIZE * PAGE_SIZE;
      KeepsRefl(M(), mmu.roles);
      GrowsRefl(mmu.roles);
      var page := first;
      while page < last
        invariant first <= page && page % PAGE_SIZE == 0 && page <= (if last < first then first else last)
        invariant Valid() && GrowsTo(old(mmu.roles), mmu.roles) && Keeps(old(M()), M(), old(mmu.roles), 0, 0)
        invariant forall x: nat | first <= x < page && x <= USER_HALF_MAX :: Backed(M(), x)
        invariant forall x: nat | Backed(M(), x) :: Backed(old(M()), x) || TouchedPage(virt, virt + size, x / PAGE_SIZE)
      {
        label Before:
        PageOfRange(virt, size, page);
        var mapped := AllocPage(page);
        KeepsTrans(old(M()), old@Before(M()), M(), old(mmu.roles), old@Before(mmu.roles), 0, 0);
        GrewMore(old(mmu.roles), old@Before(mmu.roles), mmu.roles);
        if !mapped {
          return false;
        }
        StillMappedAll(old@Before(M()), M(), first, page);
        page := page + PAGE_SIZE;
      }
      return virt != 0;
    }

    /** A byte store at a user address. */
    method PokeByte(a: nat, b: byte)
      requires Valid() && Backed(M(), a)
      modifies `data
      ensures Valid() && M() == Poke(old(M()), a, b) && Unshared(mmu.tables, mmu.roles)
    {
      hide VmOk, Look, IxOf, DataFrames, Unshared, FreeSet;
      var f := Look(mmu.tables, space, IxOf(a)).value;
      data := data[f := data[f][a % PAGE_SIZE := b]];
    }

    /** pread of a segment's file part to its address. */
    method ReadPart(p: Phdr)
      requires Valid() && SegmentOk(file, p) && AllBacked(M(), p.vaddr, p.vaddr + p.memsz)
      modifies `data
      ensures Valid() && Keeps(old(M()), M(), mmu.roles, p.vaddr, p.vaddr + p.memsz)
      ensures PlacedTo(file, p, M(), p.vaddr + p.filesz)
    {
      hide Backed, ByteAt, Poke, OthersKept, AllHeld, DataFrames, Unshared, VmOk, FreeSet;
      KeepsRefl(M(), mmu.roles);
      KeepsMore(M(), M(), mmu.roles, p.vaddr, p.vaddr + p.memsz);
      var i := 0;
      while i < p.filesz
        invariant i <= p.filesz && Valid()
        invariant Keeps(old(M()), M(), mmu.roles, p.vaddr, p.vaddr + p.memsz)
        invariant PlacedTo(file, p, M(), p.vaddr + i)
      {
        var a := p.vaddr + i;
        assert Backed(old(M()), a);
        ghost var m := M();
        PokeEffect(m, mmu.roles, a, file[p.offset + i]);
        PokeByte(a, file[p.offset + i]);
        OthersTrans(old(M()), m, M(), mmu.roles);
        i := i + 1;
      }
    }

    /** memset of the rest of a segment's memory. */
    method ZeroPart(p: Phdr)
      requires Valid() && SegmentOk(file, p) && AllBacked(M(), p.vaddr, p.vaddr + p.memsz)
      requires PlacedTo(file, p, M(), p.vaddr + p.filesz)
      modifies `data
      ensures Valid() && Keeps(old(M()), M(), mmu.roles, p.vaddr, p.vaddr + p.memsz)
      ensures InPlace(file, p, M())
    {
      hide Backed, ByteAt, Poke, OthersKept, AllHeld, DataFrames, Unshared, VmOk, FreeSet;
      KeepsRefl(M(), mmu.roles);
      KeepsMore(M(), M(), mmu.roles, p.vaddr, p.vaddr + p.memsz);
      var i := p.filesz;
      while i < p.memsz
        invariant p.filesz <= i <= p.memsz && Valid()
        invariant Keeps(old(M()), M(), mmu.roles, p.vaddr, p.vaddr + p.memsz)
        invariant PlacedTo(file, p, M(), p.vaddr + i)
      {
        var a := p.vaddr + i;
        assert Backed(old(M()), a);
        ghost var m := M();
        PokeEffect(m, mmu.roles, a, 0);
        PokeByte(a, 0);
        OthersTrans(old(M()), m, M(), mmu.roles);
        i := i + 1;
      }
    }

    /** One segment of el_load. */
    method LoadSegment(p: Phdr) returns (st: Status)
      requires Valid() && p.filesz <= p.memsz && p.vaddr + p.memsz <= USER_HALF_MAX
      modifies `data, mmu, mmu.pmm, mmu.pmm.bitmap
      ensures Valid() && GrowsTo(old(mmu.roles), mmu.roles)
      ensures Keeps(old(M()), M(), old(mmu.roles), p.vaddr, p.vaddr + p.memsz)
      ensures st == Ok ==> SegmentOk(file, p) && InPlace(file, p, M())
      ensures st == Ok ==> p.vaddr != 0
      ensures st == NoMemory ==> p.vaddr == 0 || Exhausted(mmu.Value().pool)
      ensures st == IoError ==> !Readable(file, p.offset, p.filesz)
    {
      hide Backed, ByteAt, InPlace, PlacedTo, AllBacked, Keeps, AllHeld, Private, VmOk, FreeSet;
      ghost var m0, roles0 := M(), mmu.roles;
      var ok := TusAlloc(p.vaddr, p.memsz);
      KeepsMore(m0, M(), roles0, p.vaddr, p.vaddr + p.memsz);
      if !ok {
        return NoMemory;
      }
      if !Readable(file, p.offset, p.filesz) {
        return IoError;
      }
      ghost var m1 := M();
      ReadPart(p);
      KeepsTrans(m0, m1, M(), roles0, mmu.roles, p.vaddr, p.vaddr + p.memsz);
      ghost var m2 := M();
      KeepsMapped(m1, m2, mmu.roles, p.vaddr, p.vaddr + p.memsz, p.vaddr, p.vaddr + p.memsz);
      ZeroPart(p);
      KeepsTrans(m0, m2, M(), roles0, mmu.roles, p.vaddr, p.vaddr + p.memsz);
      return Ok;
    }

    /** el_findphdr: the next loadable header from i; None at the end of the table. */
    method FindLoad(eh: Ehdr, i: nat) returns (st: Status, k: Option<nat>, ph: Phdr)
      requires i <= eh.phnum && Loads(file, eh, i).Some?
      ensures st != NoMemory
      ensures st == IoError ==> Loads(file, eh, eh.phnum).None?
      ensures st == Ok && k.None? ==> Loads(file, eh, eh.phnum) == Loads(file, eh, i)
      ensures st == Ok && k.Some? ==>
                && i <= k.value < eh.phnum && ph.kind == PT_LOAD
                && Loads(file, eh, k.value) == Loads(file, eh, i)
                && Loads(file, eh, k.value + 1) == Some(Loads(file, eh, i).value + [ph])
    {
      hide PhdrAt;
      ph := Phdr(0, 0, 0, 0, 0);
      var j := i;
      while j < eh.phnum
        invariant i <= j <= eh.phnum && Loads(file, eh, j) == Loads(file, eh, i)
      {
        if !Readable(file, PhdrOff(eh, j), PHDR_SIZE) {
          UnreadableTable(file, eh, j, eh.phnum);
          return IoError, None, ph;
        }
        ph := PhdrAt(file, eh, j);
        if ph.kind == PT_LOAD {
          return Ok, Some(j), ph;
        }
        j := j + 1;
      }
      return Ok, None, ph;
    }

    /** el_load. After success every address that some segment covers holds the byte of the last such
        segment, every other byte that was mapped before is as it was, and no other space has changed. */
    method ElLoad(eh: Ehdr) returns (st: Status)
      requires Valid() && Sized(file, eh)
      modifies `data, mmu, mmu.pmm, mmu.pmm.bitmap
      ensures Valid() && OthersKept(old(M()), M(), old(mmu.roles))
      ensures st == Ok ==>
                && Loads(file, eh, eh.phnum).Some? && AllOk(file, Loads(file, eh, eh.phnum).value)
                && Loaded(file, Loads(file, eh, eh.phnum).value, M())
                && KeptOutside(old(M()), M(), Loads(file, eh, eh.phnum).value)
      ensures Broken(file, eh) || AtZero(file, eh) ==> st != Ok
      ensures st == IoError ==> Broken(file, eh)
      ensures st == NoMemory ==> AtZero(file, eh) || Exhausted(mmu.Value().pool)
    {
      hide Backed, ByteAt, AsLast, KeptBut, OthersKept, Loads, SegmentOk, InPlace, KeptOutside, AllHeld, Private, VmOk,
           FreeSet;
      ghost var ps: seq<Phdr> := [];
      ghost var m0, roles0 := M(), mmu.roles;
      NoHeaders(file, eh);
      NothingLoaded(file, m0);
      KeepsRefl(m0, roles0);
      GrowsRefl(roles0);
      var i := 0;
      while true
        invariant i <= eh.phnum && Loads(file, eh, i) == Some(ps) && AllOk(file, ps)
        invariant Valid() && GrowsTo(roles0, mmu.roles) && OthersKept(m0, M(), roles0)
        invariant Loaded(file, ps, M()) && KeptOutside(m0, M(), ps) && NoneAtZero(ps)
        decreases eh.phnum - i
      {
        var found, ph;
        st, found, ph := FindLoad(eh, i);
        if st != Ok {
          return;
        }
        if found.None? {
          AllReadable(file, ps);
          NowhereAtZero(file, eh);
          return Ok;
        }
        assert ph == (ps + [ph])[|ps|];
        LoadsGrow(file, eh, found.value + 1, eh.phnum);
        ghost var m, roles := M(), mmu.roles;
        st := LoadSegment(ph);
        OthersGrow(m0, m, M(), roles0, roles);
        GrewMore(roles0, roles, mmu.roles);
        if st != Ok {
          return;
        }
        LoadedMore(file, ps, ph, m, M());
        KeptMoreSegments(m0, m, M(), ps, ph);
        ps := ps + [ph];
        i := found.value + 1;
      }
    }
  }

  /** The pages that bytes [lo, hi) lie on. */
  ghost predicate TouchedPage(lo: nat, hi: nat, q: nat) {
    lo / PAGE_SIZE <= q < (hi + (PAGE_SIZE - 1)) / PAGE_SIZE
  }

  lemma PageOfRange(virt: nat, size: nat, page: nat)
    requires virt + size <= USER_HALF_MAX && page % PAGE_SIZE == 0
    requires virt / PAGE_SIZE * PAGE_SIZE <= page < (virt + size + (PAGE_SIZE - 1)) / PAGE_SIZE * PAGE_SIZE
    ensures page <= USER_HALF_MAX && TouchedPage(virt, virt + size, page / PAGE_SIZE)
    ensures forall x: nat | page <= x < page + PAGE_SIZE :: x / PAGE_SIZE == page / PAGE_SIZE
  {
  }

  lemma FramesOf(s: Vm, roles: Roles)
    requires Private(s, roles)
    ensures DataFrames(s.tables, roles, s.pool.free)
  {
  }

  lemma KeepsRefl(m: Mem, roles: Roles)
    ensures Keeps(m, m, roles, 0, 0) && OthersKept(m, m, roles)
  {
  }

  lemma KeepsMore(m: Mem, m': Mem, roles: Roles, lo: nat, hi: nat)
    requires Keeps(m, m', roles, 0, 0)
    ensures Keeps(m, m', roles, lo, hi)
  {
    hide Backed, ByteAt, OthersKept;
  }

  lemma OthersTrans(m: Mem, m1: Mem, m2: Mem, roles: Roles)
    requires OthersKept(m, m1, roles) && OthersKept(m1, m2, roles)
    ensures OthersKept(m, m2, roles)
  {
    hide Backed, ByteAt;
  }

  lemma OthersGrow(m: Mem, m1: Mem, m2: Mem, roles: Roles, roles1: Roles)
    requires OthersKept(m, m1, roles) && OthersKept(m1, m2, roles1) && GrowsTo(roles, roles1)
    ensures OthersKept(m, m2, roles)
  {
    hide Backed, ByteAt;
    SpacesStay(roles, roles1);
  }

  lemma KeepsTrans(m: Mem, m1: Mem, m2: Mem, roles: Roles, roles1: Roles, lo: nat, hi: nat)
    requires Keeps(m, m1, roles, lo, hi) && Keeps(m1, m2, roles1, lo, hi) && GrowsTo(roles, roles1)
    ensures Keeps(m, m2, roles, lo, hi)
  {
    hide Backed, ByteAt, OthersKept;
    OthersGrow(m, m1, m2, roles, roles1);
    KeptTrans(m, m1, m2, lo, hi);
  }

  lemma KeepsMapped(m: Mem, m': Mem, roles: Roles, lo: nat, hi: nat, a: nat, b: nat)
    requires AllBacked(m, a, b) && Keeps(m, m', roles, lo, hi)
    ensures AllBacked(m', a, b)
  {
    hide Backed, ByteAt;
  }

  lemma StillMappedAll(m: Mem, m': Mem, lo: nat, hi: nat)
    requires KeptBut(m, m', 0, 0) && forall x: nat | lo <= x < hi && x <= USER_HALF_MAX :: Backed(m, x)
    ensures forall x: nat | lo <= x < hi && x <= USER_HALF_MAX :: Backed(m', x)
  {
    hide Backed, ByteAt;
  }

  /** A page that was mapped still is. */
  lemma PageIsMapped(m: Mem, m': Mem, roles: Roles, virt: nat)
    requires virt <= USER_HALF_MAX && KeptBut(m, m', 0, 0) && IsSpace(roles, m.space)
    requires AllHeld(m.tables, roles, m.data) && Look(m.tables, m.space, IxOf(virt)).Some?
    ensures forall x: nat | x <= USER_HALF_MAX && x / PAGE_SIZE == virt / PAGE_SIZE :: Backed(m', x)
  {
    hide Look, IxOf;
    forall x: nat | x <= USER_HALF_MAX && x / PAGE_SIZE == virt / PAGE_SIZE ensures Backed(m', x) {
      UserAddress(x);
      SameIxSamePage(x, virt);
      assert Backed(m, x);
    }
  }

  /** Every loadable segment has at least as much memory as file bytes, and lies in the user half. */
  predicate Sized(file: seq<byte>, eh: Ehdr) {
    forall n | 0 <= n <= eh.phnum && Loads(file, eh, n).Some? :: AllSized(Loads(file, eh, n).value)
  }

  predicate AllSized(ps: seq<Phdr>) {
    forall i | 0 <= i < |ps| :: ps[i].filesz <= ps[i].memsz && ps[i].vaddr + ps[i].memsz <= USER_HALF_MAX
  }

  /** Some header, or some segment's file part, lies outside the file. */
  predicate Broken(file: seq<byte>, eh: Ehdr) {
    match Loads(file, eh, eh.phnum)
    case None => true
    case Some(ps) => exists i | 0 <= i < |ps| :: !Readable(file, ps[i].offset, ps[i].filesz)
  }

  predicate NoneAtZero(ps: seq<Phdr>) {
    forall i | 0 <= i < |ps| :: ps[i].vaddr != 0
  }

  /** Some segment, all headers up to which can be read, starts at address 0: the allocator's result for it cannot be
      told from a failure. */
  predicate AtZero(file: seq<byte>, eh: Ehdr) {
    exists n | 0 <= n <= eh.phnum :: Loads(file, eh, n).Some? && !NoneAtZero(Loads(file, eh, n).value)
  }

  lemma NowhereAtZero(file: seq<byte>, eh: Ehdr)
    requires Loads(file, eh, eh.phnum).Some? && NoneAtZero(Loads(file, eh, eh.phnum).value)
    ensures !AtZero(file, eh)
  {
    hide Loads;
    forall n | 0 <= n <= eh.phnum && Loads(file, eh, n).Some? ensures NoneAtZero(Loads(file, eh, n).value) {
      LoadsGrow(file, eh, n, eh.phnum);
    }
  }

  predicate CoveredBy(ps: seq<Phdr>, a: nat) {
    exists i | 0 <= i < |ps| :: Covers(ps[i], a)
  }

  ghost predicate KeptOutside(m: Mem, m': Mem, ps: seq<Phdr>) {
    forall x: nat | Backed(m, x) :: Backed(m', x) && (!CoveredBy(ps, x) ==> ByteAt(m', x) == ByteAt(m, x))
  }

  lemma AllReadable(file: seq<byte>, ps: seq<Phdr>)
    requires AllOk(file, ps)
    ensures forall i | 0 <= i < |ps| :: Readable(file, ps[i].offset, ps[i].filesz)
  {
    forall i | 0 <= i < |ps| ensures Readable(file, ps[i].offset, ps[i].filesz) {
      assert SegmentOk(file, ps[i]);
    }
  }

  lemma NoHeaders(file: seq<byte>, eh: Ehdr)
    ensures Loads(file, eh, 0) == Some([])
  {
  }

  lemma NothingLoaded(file: seq<byte>, m: Mem)
    ensures Loaded(file, [], m) && KeptOutside(m, m, [])
  {
  }

  lemma {:induction false} UnreadableTable(file: seq<byte>, eh: Ehdr, j: nat, n: nat)
    requires j < n && !Readable(file, PhdrOff(eh, j), PHDR_SIZE)
    ensures Loads(file, eh, n).None?
    decreases n
  {
    if j < n - 1 {
      UnreadableTable(file, eh, j, n - 1);
    }
  }

  lemma {:induction false} LoadsGrow(file: seq<byte>, eh: Ehdr, i: nat, n: nat)
    requires i <= n && Loads(file, eh, i).Some?
    ensures Loads(file, eh, n).Some? ==> Loads(file, eh, i).value <= Loads(file, eh, n).value
    decreases n - i
  {
    if i < n {
      LoadsGrow(file, eh, i, n - 1);
    }
  }

  lemma {:induction false} AsLastKept(file: seq<byte>, ps: seq<Phdr>, m: Mem, m': Mem, lo: nat, hi: nat, a: nat)
    requires AllOk(file, ps) && AsLast(file, ps, m, a) && KeptBut(m, m', lo, hi) && !(lo <= a < hi)
    ensures AsLast(file, ps, m', a)
    decreases |ps|
  {
    hide Backed, ByteAt;
    if ps != [] && !Covers(ps[|ps| - 1], a) {
      AsLastKept(file, ps[..|ps| - 1], m, m', lo, hi, a);
    }
  }

  /** A further segment over the ones already loaded. */
  lemma LoadedMore(file: seq<byte>, ps: seq<Phdr>, p: Phdr, m: Mem, m': Mem)
    requires AllOk(file, ps) && Loaded(file, ps, m) && SegmentOk(file, p) && InPlace(file, p, m')
    requires KeptBut(m, m', p.vaddr, p.vaddr + p.memsz)
    ensures AllOk(file, ps + [p]) && Loaded(file, ps + [p], m')
  {
    hide Backed, ByteAt, KeptBut;
    var all := ps + [p];
    assert all[..|ps|] == ps;
    forall a: nat ensures AsLast(file, all, m', a) {
      if !Covers(p, a) {
        assert AsLast(file, ps, m, a);
        AsLastKept(file, ps, m, m', p.vaddr, p.vaddr + p.memsz, a);
      }
    }
  }

  lemma KeptMoreSegments(m0: Mem, m: Mem, m': Mem, ps: seq<Phdr>, p: Phdr)
    requires KeptOutside(m0, m, ps) && KeptBut(m, m', p.vaddr, p.vaddr + p.memsz)
    ensures KeptOutside(m0, m', ps + [p])
  {
    hide Backed, ByteAt;
    var all := ps + [p];
    forall x: nat | Backed(m0, x) && !CoveredBy(all, x) ensures !CoveredBy(ps, x) && !Covers(p, x) {
      assert all[|ps|] == p;
      assert forall i | 0 <= i < |ps| :: all[i] == ps[i];
    }
  }
}
