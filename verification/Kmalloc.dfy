/** The kernel heap (kernel/mm/kmalloc.c). */
module Kmalloc {
  import opened Base
  import opened Pmm
  import opened HeapMemory
  import opened HeapArena
  import opened HeapBlocks
  import opened HeapEffects

  /** The largest request whose page count does not wrap around. */
  const MAX_REQUEST: nat := WORD - 4128

  /** align_up on 64-bit sizes. */
  function AlignUp(n: nat): nat {
    (n + (ALIGN - 1)) % WORD / ALIGN * ALIGN
  }

  /** The payload size that a request is rounded to. */
  function Rounded(n: nat): nat {
    AlignUp(if n == 0 then ALIGN else n)
  }

  /** The page count of a large block, as 64-bit arithmetic gives it. */
  function LargePages(size: nat): nat {
    (size + HEADER + (PAGE_SIZE - 1)) % WORD / PAGE_SIZE
  }

  /** The bytes that a request reserves, header included. */
  function Reserved(n: nat): nat {
    var size := Rounded(n);
    if size > SMALL_MAX then LargePages(size) * PAGE_SIZE else HEADER + size
  }

  /** A request gets the room it asked for exactly when its page count does not wrap. */
  lemma RequestFits(n: nat)
    requires n < WORD
    ensures Reserved(n) >= HEADER + n <==> n <= MAX_REQUEST
  {
  }

  lemma RoundedSize(n: nat)
    requires n <= MAX_REQUEST
    ensures Rounded(n) % 16 == 0 && n <= Rounded(n) && 0 < Rounded(n) <= MAX_REQUEST
    ensures Rounded(Rounded(n)) == Rounded(n)
    ensures Rounded(n) > SMALL_MAX ==> HEADER + Rounded(n) <= LargePages(Rounded(n)) * PAGE_SIZE
  {
  }

  /** No more than needed: the least multiple of 16 that is at least the request and not 0; and for a large block the
      fewest pages that hold it and its header of 24 bytes. */
  lemma RoundedLeast(n: nat)
    requires n <= MAX_REQUEST
    ensures Rounded(n) % 16 == 0 && (n > 0 ==> n <= Rounded(n) < n + 16) && Rounded(0) == 16
    ensures (LargePages(Rounded(n)) - 1) * 4096 < 24 + Rounded(n) <= LargePages(Rounded(n)) * 4096
  {
  }

  lemma AllocTakes(p: Pool)
    ensures var (p', r) := Alloc(p);
            && p'.total == p.total
            && (r.None? <==> Exhausted(p)) && (r.None? ==> p' == p)
            && (r.Some? ==> r.value in p.free && r.value < p.total && p'.free == p.free - {r.value})
  {
  }

  lemma UsableLess(p: Pool)
    ensures var (p', r) := Alloc(p); |Usable(p')| == |Usable(p)| - if r.Some? then 1 else 0
    ensures Exhausted(p) <==> |Usable(p)| == 0
  {
    hide Alloc;
    AllocTakes(p);
    var (p', r) := Alloc(p);
    if r.Some? {
      assert r.value in Usable(p) && Usable(p') == Usable(p) - {r.value};
    }
    if Usable(p) != {} {
      var f :| f in Usable(p);
      assert f in p.free;
    }
  }

  // ---- pages ----

  /** A new page in [lo, hi) changes nothing outside. */
  lemma PageMapped(m: Mem, a: nat, page: Page)
    requires a % PAGE_SIZE == 0
    ensures var m' := m[a / PAGE_SIZE := page];
            && SameOutside(m, m', a, a + PAGE_SIZE)
            && AllBacked(m', a, a + PAGE_SIZE)
  {
  }

  lemma MappedFrames(m: Mem, p: Pool, q: nat, page: Page)
    requires FramesOk(m, p.free, p.total) && Alloc(p).1 == Some(page.frame)
    ensures var p' := Alloc(p).0; FramesOk(m[q := page], p'.free, p'.total)
  {
    hide Alloc;
    AllocTakes(p);
  }

  lemma StoredFrames(m: Mem, m': Mem, free: set<nat>, total: nat)
    requires FramesOk(m, free, total) && SameFrames(m, m')
    ensures FramesOk(m', free, total)
  {
  }

  lemma StoredInside(m: Mem, m1: Mem, m2: Mem, lo: nat, hi: nat, w: set<nat>)
    requires SameOutside(m, m1, lo, hi) && OnlyAt(m1, m2, w) && SameFrames(m1, m2) && forall x | x in w :: lo <= x < hi
    ensures SameOutside(m, m2, lo, hi)
  {
    hide Load;
    assert forall x: nat :: Backed(m2, x) <==> Backed(m1, x);
  }

  /** The three header words of a block. */
  function PutHeader(m: Mem, a: nat, size: nat, next: nat): Mem
    requires Backed(m, a) && Backed(m, a + 16)
  {
    var m1 := Store(m, a, size);
    StoreEffect(m, a, size);
    Store(m1, a + 16, next)
  }

  lemma PutHeaderEffect(m: Mem, a: nat, size: nat, next: nat)
    requires Backed(m, a) && Backed(m, a + 16)
    ensures var m' := PutHeader(m, a, size, next);
            && OnlyAt(m, m', {a, a + 16}) && SameFrames(m, m')
            && Backed(m', a) && Load(m', a) == size && Backed(m', a + 16) && Load(m', a + 16) == next
  {
    var m1 := Store(m, a, size);
    StoreEffect(m, a, size);
    StoreEffect(m1, a + 16, next);
    hide Store, Load, Backed;
    OnlyAtTrans(m, m1, Store(m1, a + 16, next), {a}, {a + 16});
    assert {a} + {a + 16} == {a, a + 16};
  }

  /** Memory and list head after writing x to the i-th link. */
  function LinkMem(m: Mem, list: seq<nat>, i: nat, x: nat): Mem
    requires i <= |list| && (i > 0 ==> Backed(m, list[i - 1] + 16))
  {
    if i == 0 then m else Store(m, list[i - 1] + 16, x)
  }

  function LinkHead(head: nat, i: nat, x: nat): nat {
    if i == 0 then x else head
  }

  /** Writing the list link before position i. */
  lemma LinkWritten(m: Mem, head: nat, list: seq<nat>, i: nat, x: nat)
    requires LinkBacked(m, list, i)
    ensures var m' := LinkMem(m, list, i, x);
            && OnlyAt(m, m', LinkWords(list, i)) && SameFrames(m, m')
            && LinkSet(m, head, m', LinkHead(head, i, x), list, i, x)
  {
    if i > 0 {
      StoreEffect(m, list[i - 1] + 16, x);
    }
  }

  predicate LinkBacked(m: Mem, list: seq<nat>, i: nat) {
    i <= |list| && (i > 0 ==> Backed(m, list[i - 1] + 16))
  }

  lemma Unwritten(m: Mem, m': Mem, w: set<nat>, x: nat)
    requires OnlyAt(m, m', w) && Backed(m, x)
    ensures Backed(m', x) && (x !in w ==> Load(m', x) == Load(m, x))
  {
  }

  lemma StillThere(m: Mem, m1: Mem, m2: Mem, w: set<nat>, w1: set<nat>, x: nat)
    requires OnlyAt(m, m1, w) && OnlyAt(m1, m2, w1) && Backed(m, x) && x !in w && x !in w1
    ensures Backed(m2, x) && Load(m2, x) == Load(m, x)
  {
    hide Backed, Load;
  }

  lemma FramesTrans(m: Mem, m1: Mem, m2: Mem)
    requires SameFrames(m, m1) && SameFrames(m1, m2)
    ensures SameFrames(m, m2)
  {
  }

  /** The header writes of a split, in the order they are made. */
  lemma SplitStores(m: Mem, head: nat, list: seq<nat>, i: nat, size: nat, left: nat)
    requires i < |list| && LinkBacked(m, list, i)
    requires var b := list[i];
             var rest := b + HEADER + size;
             && Backed(m, b) && Backed(m, rest) && Backed(m, rest + 16)
             && LinkWords(list, i) !! {b, rest, rest + 16}
    ensures var b := list[i];
            var rest := b + HEADER + size;
            var m1 := PutHeader(m, rest, left, LinkAt(list, i + 1));
            && LinkBacked(m1, list, i)
            && var m2 := LinkMem(m1, list, i, rest);
            && Backed(m2, b)
            && var m3 := Store(m2, b, size);
            SplitWrites(m, head, m3, LinkHead(head, i, rest), list, i, size, left)
  {
    hide Store, Load, Backed, PutHeader, LinkMem, OnlyAt, SameFrames, LinkAt;
    var b := list[i];
    var rest := b + HEADER + size;
    var next := LinkAt(list, i + 1);
    PutHeaderEffect(m, rest, left, next);
    var m1 := PutHeader(m, rest, left, next);
    if i > 0 {
      Unwritten(m, m1, {rest, rest + 16}, list[i - 1] + 16);
    }
    LinkWritten(m1, head, list, i, rest);
    var m2 := LinkMem(m1, list, i, rest);
    Unwritten(m, m1, {rest, rest + 16}, b);
    Unwritten(m1, m2, LinkWords(list, i), b);
    StoreEffect(m2, b, size);
    var m3 := Store(m2, b, size);
    StillThere(m1, m2, m3, LinkWords(list, i), {b}, rest);
    StillThere(m1, m2, m3, LinkWords(list, i), {b}, rest + 16);
    if i > 0 {
      Unwritten(m2, m3, {b}, list[i - 1] + 16);
    }
    FramesTrans(m, m1, m2);
    FramesTrans(m, m2, m3);
    OnlyAtTrans(m, m1, m2, {rest, rest + 16}, LinkWords(list, i));
    OnlyAtTrans(m, m2, m3, {rest, rest + 16} + LinkWords(list, i), {b});
    assert {rest, rest + 16} + LinkWords(list, i) + {b} == SplitWords(list, i, rest);
  }

  /** The header writes of an insertion. */
  lemma InsertStores(m: Mem, head: nat, list: seq<nat>, i: nat, b: nat)
    requires LinkBacked(m, list, i) && Backed(m, b + 16) && b + 16 !in LinkWords(list, i)
    ensures var m1 := Store(m, b + 16, LinkAt(list, i));
            && LinkBacked(m1, list, i)
            && InsertWrites(m, head, LinkMem(m1, list, i, b), LinkHead(head, i, b), list, i, b)
  {
    StoreEffect(m, b + 16, LinkAt(list, i));
    var m1 := Store(m, b + 16, LinkAt(list, i));
    LinkWritten(m1, head, list, i, b);
    hide Store, Load, Backed, LinkMem;
    OnlyAtTrans(m, m1, LinkMem(m1, list, i, b), {b + 16}, LinkWords(list, i));
  }

  lemma MergeStores(m: Mem, list: seq<nat>, i: nat, size: nat)
    requires i + 1 < |list| && Backed(m, list[i]) && Backed(m, list[i] + 16)
    ensures MergeWrites(m, PutHeader(m, list[i], size, LinkAt(list, i + 2)), list, i, size)
  {
    hide Store, Load, Backed, PutHeader;
    PutHeaderEffect(m, list[i], size, LinkAt(list, i + 2));
  }

  // ---- facts about blocks in a represented arena ----

  lemma ListedBlock(m: Mem, head: nat, h: Arena, i: nat)
    requires i < |h.list| && Represents(m, head, h)
    ensures var b := h.list[i];
            && b in h.tiles && h.tiles[b].kind == Free && b >= BASE
            && Backed(m, b) && Backed(m, b + 8) && Backed(m, b + 16)
            && Load(m, b) == h.tiles[b].size && Load(m, b + 16) == LinkAt(h.list, i + 1)
            && h.tiles[b].len == HEADER + h.tiles[b].size
  {
    hide Gapless, Apart, NoneMissing, Distinct, Load, Backed;
    assert LinkOk(m, h.list, i);
    assert BlockOk(m, h.list[i], h.tiles[h.list[i]]);
  }

  lemma TileBlock(m: Mem, head: nat, h: Arena, b: nat)
    requires b in h.tiles && Present(h.tiles[b]) && Represents(m, head, h)
    ensures b >= BASE && Backed(m, b) && Backed(m, b + 8) && Backed(m, b + 16)
    ensures Load(m, b) == h.tiles[b].size && h.tiles[b].size % 8 == 0
    ensures h.tiles[b].kind == Large ==> Load(m, b + 8) == h.tiles[b].len / PAGE_SIZE
    ensures BlockOk(m, b, h.tiles[b])
  {
    hide Gapless, Apart, Listed, Load, Backed;
    assert BlockOk(m, b, h.tiles[b]);
  }

  lemma LinkOfList(m: Mem, head: nat, h: Arena, i: nat)
    requires i <= |h.list| && Represents(m, head, h)
    ensures LinkBacked(m, h.list, i)
  {
    hide ArenaOk, Written, Linked, Load, Backed;
    if i > 0 {
      ListedBlock(m, head, h, i - 1);
    }
  }

  /** A free block's inner words are mapped. */
  lemma RestBacked(m: Mem, head: nat, h: Arena, i: nat, size: nat)
    requires CanSplit(h, i, size) && Represents(m, head, h)
    ensures var rest := h.list[i] + HEADER + size;
            Backed(m, rest) && Backed(m, rest + 16) && LinkWords(h.list, i) !! {h.list[i], rest, rest + 16}
  {
    hide Gapless, NoneMissing, Backed, Load, Apart, Inside;
    var b := h.list[i];
    var rest := b + HEADER + size;
    ListedBlock(m, head, h, i);
    assert BlockOk(m, b, h.tiles[b]);
    assert rest % 8 == 0 && (rest + 16) % 8 == 0;
    if i > 0 {
      var c := h.list[i - 1];
      ListedBlock(m, head, h, i - 1);
      assert c != b;
      BlocksDisjoint(h, c, b);
    }
  }

  // ---- the allocator ----

  class KernelHeap {
    const pmm: FrameAllocator
    var mem: Mem
    var free: nat
    var arenaNext: nat
    var arenaBytes: nat
    ghost var arena: Arena

    ghost predicate Valid()
      reads this, pmm, pmm.bitmap
    {
      && pmm.Valid() && Represents(mem, free, arena)
      && arenaNext == arena.next && BASE + arenaBytes == arenaNext
      && FramesOk(mem, pmm.Value().free, pmm.Value().total)
    }

    /** The live blocks by address, as their owners see them. */
    ghost function Blocks(): map<nat, Block>
      requires Valid()
      reads this, pmm, pmm.bitmap
    {
      Data(mem, arena.tiles)
    }

    /** kmalloc_init. */
    constructor (pmm: FrameAllocator)
      requires pmm.Valid() && 0 !in pmm.Value().free
      ensures Valid() && this.pmm == pmm && Blocks() == map[] && arena == Arena([], map[], BASE)
    {
      this.pmm := pmm;
      mem, free, arenaNext, arenaBytes := map[], 0, BASE, 0;
      arena := Arena([], map[], BASE);
    }

    /** *link = x, where link is the head (prev == 0) or the next word of prev. */
    method SetLink(prev: nat, x: nat)
      requires prev != 0 ==> Backed(mem, prev + 16)
      modifies `mem, `free
      ensures mem == if prev == 0 then old(mem) else Store(old(mem), prev + 16, x)
      ensures free == if prev == 0 then x else old(free)
    {
      if prev == 0 {
        free := x;
      } else {
        mem := Store(mem, prev + 16, x);
      }
    }

    /** heap_grow_page. A frame holds what ram says when it gets mapped. */
    method HeapGrowPage(ram: nat -> Words)
      requires Valid()
      modifies this, pmm, pmm.bitmap
      ensures Valid() && Blocks() == old(Blocks()) && pmm.Value() == Alloc(old(pmm.Value())).0
      ensures arena == if Exhausted(old(pmm.Value())) then old(arena) else Grown(old(arena))
      ensures !Exhausted(old(pmm.Value())) ==> PagesWord(mem, old(arenaNext), FreshPages(old(pmm.Value()), ram))
    {
      hide FreeSet, Alloc, ArenaOk, Written, Linked, FramesOk, Data, Backed, Load, Store, Exhausted, BlockOk, PutHeader,
           SameOutside, SameFrames, OnlyAt, AllBacked;
      AllocTakes(pmm.Value());
      NonzeroFrames(mem, pmm.Value());
      ghost var m0, p0 := mem, pmm.Value();
      var phys := pmm.AllocFrame();
      if phys == 0 {
        assert Alloc(p0).1.None? && pmm.Value() == p0;
        return;
      }
      NextAligned(arena);
      var words := ram(phys / PAGE_SIZE);
      var b := arenaNext;
      PageMapped(mem, b, Page(phys / PAGE_SIZE, words));
      MappedFrames(mem, p0, b / PAGE_SIZE, Page(phys / PAGE_SIZE, words));
      mem := mem[b / PAGE_SIZE := Page(phys / PAGE_SIZE, words)];
      ghost var m1 := mem;
      HeaderWords(mem, b, b + PAGE_SIZE);
      PutHeaderEffect(mem, b, PAGE_SIZE - HEADER, free);
      mem := PutHeader(mem, b, PAGE_SIZE - HEADER, free);
      FreshBlock(m0, m1, mem, b, free);
      UnwrittenWord(m0, mem, b, Page(phys / PAGE_SIZE, words), free);
      StoredFrames(m1, mem, pmm.Value().free, pmm.Value().total);
      GrowEffect(m0, free, mem, arena);
      free := b;
      arenaNext := arenaNext + PAGE_SIZE;
      arenaBytes := arenaBytes + PAGE_SIZE;
      arena := Grown(arena);
    }

    /** kmalloc's take of block b from the list, split if the rest is worth a block. */
    method TakeBlock(prev: nat, b: nat, size: nat, ghost i: nat)
      requires Valid() && i < |arena.list| && b == arena.list[i] && prev == Before(arena.list, i)
      requires b in arena.tiles && arena.tiles[b].size >= size && size % 8 == 0
      modifies `mem, `free, `arena
      ensures Valid() && arena == TakeFree(old(arena), i, size) && b in Blocks() && b !in old(Blocks())
      ensures Blocks() - {b} == old(Blocks())
      ensures Backed(old(mem), b + 8) && Blocks()[b].pages == Load(old(mem), b + 8) && 8 * |Blocks()[b].words| >= size
      ensures OnlyAt(old(mem), mem, TakeWords(old(arena).list, i, size))
    {
      hide FreeSet, ArenaOk, Written, Linked, FramesOk, Backed, Load, Store, BlockOk, PutHeader, SameOutside,
           SameFrames, OnlyAt, Data, TakeFree, SplitWrites;
      ghost var m0, h0 := mem, arena;
      ListedBlock(mem, free, arena, i);
      LinkOfList(mem, free, arena, i);
      LinkIs(mem, free, arena, i);
      var have := Load(mem, b);
      if have >= size + HEADER + ALIGN {
        var rest := b + HEADER + size;
        RestBacked(mem, free, arena, i, size);
        SplitStores(mem, free, arena.list, i, size, have - size - HEADER);
        mem := PutHeader(mem, rest, have - size - HEADER, Load(mem, b + 16));
        SetLink(prev, rest);
        mem := Store(mem, b, size);
        arena := TakeFree(h0, i, size);
        SplitEffect(m0, old(free), mem, free, h0, i, size);
        SplitKeeps(m0, old(free), mem, free, h0, i, size);
        SplitOnly(m0, old(free), mem, free, h0, i, size);
      } else {
        LinkWritten(mem, free, arena.list, i, Load(mem, b + 16));
        SetLink(prev, Load(mem, b + 16));
        arena := TakeFree(h0, i, size);
        UnlinkEffect(m0, old(free), mem, free, h0, i, size);
        UnlinkKeeps(m0, old(free), mem, free, h0, i);
        OnlyAtMore(m0, mem, LinkWords(h0.list, i), TakeWords(h0.list, i, size));
      }
      StoredFrames(m0, mem, pmm.Value().free, pmm.Value().total);
      TakenBlock(m0, mem, h0, i, size);
      TakeNext(h0, i, size);
    }

    /** kmalloc's walk of the free list. */
    method FirstFit(size: nat) returns (r: nat)
      requires Valid() && size % 8 == 0
      modifies `mem, `free, `arena
      ensures Valid() && ArenaOk(old(arena))
      ensures var i := Fit(old(arena), size);
              if i == |old(arena).list| then r == 0 && mem == old(mem) && free == old(free) && arena == old(arena)
              else
                var b := old(arena).list[i];
                && r == b + HEADER && b in old(arena).tiles && old(arena).tiles[b].size >= size
                && arena == TakeFree(old(arena), i, size)
                && b in Blocks() && PagesWord(old(mem), b, Blocks()[b].pages)
      ensures TakenOnly(old(arena), size, old(mem), mem)
      ensures Allocated(old(Blocks()), Blocks(), r, size)
    {
      hide FreeSet, Written, Linked, FramesOk, Backed, Load, Data, TakeFree, Tiling, NoneMissing, Distinct, FitFrom;
      ghost var i := 0;
      var prev, b := 0, free;
      HeadIs(mem, free, arena.list);
      while b != 0
        invariant Valid() && arena == old(arena) && mem == old(mem) && free == old(free)
        invariant i <= |arena.list| && b == LinkAt(arena.list, i) && prev == Before(arena.list, i)
        invariant forall k | 0 <= k < i :: arena.tiles[arena.list[k]].size < size
        decreases |arena.list| - i
      {
        ListedBlock(mem, free, arena, i);
        if Load(mem, b) >= size {
          FitIsFirst(arena, size, i);
          TakeBlock(prev, b, size, i);
          return b + HEADER;
        }
        prev, b, i := b, Load(mem, b + 16), i + 1;
      }
      if i < |arena.list| {
        ListedBlock(mem, free, arena, i);
      }
      FitIsFirst(arena, size, i);
      return 0;
    }

    /** heap_grow. */
    method HeapGrow(payload: nat, ram: nat -> Words)
      requires Valid()
      modifies this, pmm, pmm.bitmap
      ensures Valid() && Blocks() == old(Blocks())
      ensures 0 < payload <= PAGE_SIZE ==> pmm.Value() == Alloc(old(pmm.Value())).0
      ensures 0 < payload <= PAGE_SIZE ==>
        arena == if Exhausted(old(pmm.Value())) then old(arena) else Grown(old(arena))
      ensures 0 < payload <= PAGE_SIZE && !Exhausted(old(pmm.Value())) ==>
        PagesWord(mem, old(arenaNext), FreshPages(old(pmm.Value()), ram))
    {
      hide FreeSet, Represents, FramesOk, Data, Alloc, Exhausted, Grown, PagesWord, FreshPages;
      var left := payload;
      while left > 0
        invariant Valid() && left <= payload && Blocks() == old(Blocks())
        invariant left == payload ==>
          arena == old(arena) && pmm.Value() == old(pmm.Value()) && arenaNext == old(arenaNext)
        invariant left != payload <= PAGE_SIZE ==>
          && left == 0 && pmm.Value() == Alloc(old(pmm.Value())).0
          && (arena == if Exhausted(old(pmm.Value())) then old(arena) else Grown(old(arena)))
          && (!Exhausted(old(pmm.Value())) ==> PagesWord(mem, old(arenaNext), FreshPages(old(pmm.Value()), ram)))
        decreases left
      {
        HeapGrowPage(ram);
        left := left - if left > PAGE_SIZE then PAGE_SIZE else left;
      }
    }

    /** The loop of kmalloc's large case: n pages from the end of the arena, none of them part of it yet. */
    method MapPages(n: nat, ram: nat -> Words) returns (ok: bool)
      requires Valid()
      modifies `mem, pmm, pmm.bitmap
      ensures Valid() && Blocks() == old(Blocks()) && pmm.Value().free <= old(pmm.Value().free)
      ensures ok ==> SameOutside(old(mem), mem, arenaNext, arenaNext + n * PAGE_SIZE)
                     && AllBacked(mem, arenaNext, arenaNext + n * PAGE_SIZE)
      ensures ok <==> n <= |Usable(old(pmm.Value()))|
      ensures |Usable(pmm.Value())| == if ok then |Usable(old(pmm.Value()))| - n else 0
      ensures Exhausted(old(pmm.Value())) ==> pmm.Value() == old(pmm.Value())
    {
      hide FreeSet, Represents, FramesOk, Data, Alloc, Exhausted, SameOutside, AllBacked, ArenaOk, Usable;
      ghost var m0 := mem;
      assert ArenaOk(arena) by {
        ArenaOf(mem, free, arena);
      }
      NextAligned(arena);
      NothingMapped(mem, arenaNext);
      var i := 0;
      while i < n
        invariant i <= n && Valid() && Blocks() == old(Blocks()) && pmm.Value().free <= old(pmm.Value().free)
        invariant SameOutside(m0, mem, arenaNext, arenaNext + i * PAGE_SIZE)
        invariant AllBacked(mem, arenaNext, arenaNext + i * PAGE_SIZE)
        invariant Exhausted(old(pmm.Value())) ==> i == 0 && pmm.Value() == old(pmm.Value())
        invariant |Usable(pmm.Value())| == |Usable(old(pmm.Value()))| - i
      {
        ghost var p := pmm.Value();
        AllocTakes(p);
        UsableLess(p);
        NonzeroFrames(mem, p);
        var phys := pmm.AllocFrame();
        if phys == 0 {
          assert Alloc(p).1.None? && pmm.Value() == p;
          return false;
        }
        var page := Page(phys / PAGE_SIZE, ram(phys / PAGE_SIZE));
        var a := arenaNext + i * PAGE_SIZE;
        MorePages(m0, mem, arenaNext, a, page);
        MappedFrames(mem, p, a / PAGE_SIZE, page);
        mem := mem[a / PAGE_SIZE := page];
        StrayEffect(m0, free, mem, arena, a + PAGE_SIZE);
        i := i + 1;
      }
      return true;
    }

    /** The large case of kmalloc: it succeeds exactly if there are as many frames as pages. A request that fails keeps
        the frames that it got before memory ran out, which are all that there were. */
    method AllocLarge(size: nat, pages: nat, ram: nat -> Words) returns (r: nat)
      requires Valid() && size % 8 == 0 && HEADER + size <= pages * PAGE_SIZE
      modifies this, pmm, pmm.bitmap
      ensures Valid() && pmm.Value().free <= old(pmm.Value().free)
      ensures r != 0 <==> pages <= |Usable(old(pmm.Value()))|
      ensures |Usable(pmm.Value())| == if r != 0 then |Usable(old(pmm.Value()))| - pages else 0
      ensures r == 0 ==> arena == old(arena) && Exhausted(pmm.Value())
      ensures r == 0 ==> (pmm.Value() == old(pmm.Value()) <==> Exhausted(old(pmm.Value())))
      ensures r != 0 ==> r == old(arenaNext) + HEADER && arena == TakeLarge(old(arena), size, pages)
      ensures r != 0 ==> old(arenaNext) in Blocks() && Blocks()[old(arenaNext)].pages == pages
      ensures Allocated(old(Blocks()), Blocks(), r, size)
    {
      hide FreeSet, ArenaOk, Written, Linked, FramesOk, Backed, Load, Store, BlockOk, PutHeader, SameOutside,
           SameFrames, OnlyAt, Data, AllBacked, Exhausted, Usable;
      ghost var m0 := mem;
      NextAligned(arena);
      var b := arenaNext;
      UsableLess(pmm.Value());
      var ok := MapPages(pages, ram);
      UsableLess(pmm.Value());
      if !ok {
        return 0;
      }
      ghost var m1 := mem;
      HeaderWords(mem, b, b + pages * PAGE_SIZE);
      LargeStores(m0, mem, b, size, pages);
      mem := Store(mem, b, size);
      mem := Store(mem, b + 8, pages);
      mem := Store(mem, b + 16, 0);
      StoredFrames(m1, mem, pmm.Value().free, pmm.Value().total);
      LargeEffect(m0, free, mem, arena, size, pages);
      LargeBlock(m0, mem, arena, size, pages);
      arena := TakeLarge(arena, size, pages);
      arenaNext := arenaNext + pages * PAGE_SIZE;
      arenaBytes := arenaBytes + pages * PAGE_SIZE;
      return b + HEADER;
    }

    /** kmalloc. */
    method Kmalloc(n: nat, ram: nat -> Words) returns (r: nat)
      requires Valid() && n <= MAX_REQUEST
      modifies this, pmm, pmm.bitmap
      ensures Valid() && pmm.Value().free <= old(pmm.Value().free) && ArenaOk(old(arena))
      ensures r == 0 ==> arena == old(arena) && Exhausted(pmm.Value())
      ensures r == 0 ==> (pmm.Value() == old(pmm.Value()) <==> Exhausted(old(pmm.Value())))
      ensures Allocated(old(Blocks()), Blocks(), r, n)
      ensures Placed(old(arena), old(mem), old(pmm.Value()), ram, Rounded(n), r, arena, Blocks(), pmm.Value())
      ensures TakenOnly(old(arena), Rounded(n), old(mem), mem)
      decreases if FitIn(arena, Rounded(n)) then 0 else 1
    {
      hide FreeSet, ArenaOk, Written, Linked, FramesOk, Backed, Load, Data, TakeFree, Exhausted, Alloc, FitFrom,
           AlignUp, LargePages, Allocated, Grown, TakeLarge, FreshPages, PagesWord, Placed, OnlyAt, TakeWords;
      ghost var h, m, p := arena, mem, pmm.Value();
      RoundedSize(n);
      AllocatedLess(n, Rounded(n));
      var size := if n == 0 then ALIGN else n;
      size := AlignUp(size);
      if size > PAGE_SIZE - HEADER {
        var pages := LargePages(size);
        r := AllocLarge(size, pages, ram);
        PlacedLarge(h, m, p, ram, size, r, arena, Blocks(), pmm.Value());
        return;
      }
      r := FirstFit(size);
      if r != 0 {
        PlacedFit(h, m, p, ram, size, r, arena, Blocks(), pmm.Value());
        return;
      }
      assert !FitIn(arena, size);
      AllocTakes(pmm.Value());
      var before := arenaBytes;
      HeapGrow(size, ram);
      GrownFits(old(arena), size);
      if arenaBytes == before {
        PlacedNowhere(h, m, p, ram, size, arena, Blocks(), pmm.Value());
        return 0;
      }
      ghost var m1, p1 := mem, pmm.Value();
      r := Kmalloc(size, ram);
      PlacedAfterGrowth(h, m, p, m1, p1, ram, size, r, arena, Blocks(), pmm.Value());
    }

    /** kfree's sorted insertion into the list; i is the position found. */
    method Insert(b: nat) returns (prev: nat, ghost i: nat)
      requires Valid() && IsSmall(arena, b)
      modifies `mem, `free, `arena
      ensures Valid() && arena == Released(old(arena), b) && Blocks() == old(Blocks()) - {b}
      ensures i == SlotFrom(old(arena).list, b, 0) && prev == Before(arena.list, i)
      ensures i < |arena.list| && arena.list[i] == b
        && (prev != 0 ==> Backed(mem, prev + 16) && Load(mem, prev + 16) == b)
      ensures prev == 0 ==> free == b
      ensures OnlyAt(old(mem), mem, FreeWords(old(arena).list, b))
    {
      hide FreeSet, ArenaOk, Written, Linked, FramesOk, Backed, Load, Data, Store, LinkMem, SlotFrom, InsertWrites,
           FreeWords, OnlyAt;
      ghost var m0, h0 := mem, arena;
      HeadIs(mem, free, arena.list);
      var cur := free;
      prev, i := 0, 0;
      while cur != 0 && cur < b
        invariant Valid() && arena == h0 && mem == m0 && free == old(free)
        invariant i <= |arena.list| && cur == LinkAt(arena.list, i) && prev == Before(arena.list, i)
        invariant forall k | 0 <= k < i :: arena.list[k] < b
        decreases |arena.list| - i
      {
        ListedBlock(mem, free, arena, i);
        prev, cur, i := cur, Load(mem, cur + 16), i + 1;
      }
      if i < |arena.list| {
        ListedBlock(mem, free, arena, i);
      }
      SlotIsFirst(arena.list, b, 0, i);
      TileBlock(mem, free, arena, b);
      LinkOfList(mem, free, arena, i);
      LinkIs(mem, free, arena, i);
      NotLinkOf(mem, free, arena, i, b);
      InsertStores(mem, free, arena.list, i, b);
      mem := Store(mem, b + 16, cur);
      assert mem == Store(m0, b + 16, LinkAt(h0.list, i));
      LinkUnfolds(mem, h0.list, i, b);
      SetLink(prev, b);
      InsertEffect(m0, old(free), mem, free, h0, b);
      InsertFrames(m0, old(free), mem, free, h0.list, i, b);
      StoredFrames(m0, mem, pmm.Value().free, pmm.Value().total);
      arena := Released(h0, b);
      InsertLinkIs(m0, old(free), mem, free, h0.list, i, b);
      InsertOnly(m0, old(free), mem, free, h0.list, i, b);
    }

    /** kfree of a small block. */
    method FreeSmall(b: nat)
      requires Valid() && IsSmall(arena, b) && ArenaOk(arena)
      modifies `mem, `free, `arena
      ensures Valid() && arena == Freed(old(arena), b) && Blocks() == old(Blocks()) - {b}
      ensures OnlyAt(old(mem), mem, FreeWords(old(arena).list, b))
    {
      hide FreeSet, Tiling, Listed, Written, Linked, FramesOk, Backed, Load, Data, SlotFrom, Released, MergeWrites,
           PutHeader, Merged, FreeWords, OnlyAt;
      ReleasedOk(arena, b);
      var prev, i := Insert(b);
      ghost var m0, h0 := mem, arena;
      ListedBlock(mem, free, arena, i);
      var next := Load(mem, b + 16);
      if next != 0 && b + HEADER + Load(mem, b) == next {
        assert i + 1 < |arena.list| && Adjacent(arena, i);
        ListedBlock(mem, free, arena, i + 1);
        var size := Load(mem, b) + HEADER + Load(mem, next);
        MergeStores(mem, arena.list, i, size);
        mem := PutHeader(mem, b, size, Load(mem, next + 16));
        assert CanMerge(arena, i) && size == MergedSize(arena, i);
        MergeEffect(m0, free, mem, h0, i);
        MergeFrames(m0, mem, h0.list, i, size);
        StoredFrames(m0, mem, pmm.Value().free, pmm.Value().total);
        MergeNext(h0, i);
        arena := Merged(h0, i);
        MergeKeepsLink(m0, mem, prev, b, h0, i, size, free);
        MergeOnly(old(mem), m0, mem, old(arena).list, h0.list, i, size);
      } else if i + 1 < |arena.list| {
        ListedBlock(mem, free, arena, i + 1);
        assert !Adjacent(arena, i);
      }
      // The predecessor merge is guarded by *link != b, and the link was just set to b.
      assert if prev == 0 then free == b else Backed(mem, prev + 16) && Load(mem, prev + 16) == b;
    }

    /** The release loop of kfree: the pages of n page-sized steps from virt. */
    method ReleasePages(virt: nat, n: nat)
      requires pmm.Valid() && FramesOk(mem, pmm.Value().free, pmm.Value().total)
      modifies `mem, pmm, pmm.bitmap
      ensures pmm.Valid() && FramesOk(mem, pmm.Value().free, pmm.Value().total)
      ensures mem == old(mem) - PageSet(virt / PAGE_SIZE, n)
      ensures pmm.Value().free == old(pmm.Value().free) + FramesIn(old(mem), virt / PAGE_SIZE, n)
      ensures pmm.Value().total == old(pmm.Value().total)
    {
      hide FreeSet, FramesOk, PageSet, FramesIn, Pmm.Free;
      ghost var m0, free0 := mem, pmm.Value().free;
      NoPages(mem, virt / PAGE_SIZE);
      var i := 0;
      while i < n
        invariant i <= n && pmm.Valid() && FramesOk(mem, pmm.Value().free, pmm.Value().total)
        invariant mem == m0 - PageSet(virt / PAGE_SIZE, i)
        invariant pmm.Value().free == free0 + FramesIn(m0, virt / PAGE_SIZE, i)
        invariant pmm.Value().total == old(pmm.Value().total)
      {
        var q := (virt + i * PAGE_SIZE) / PAGE_SIZE;
        assert q == virt / PAGE_SIZE + i;
        var phys := if q in mem then mem[q].frame * PAGE_SIZE else 0;
        OneMorePage(m0, virt / PAGE_SIZE, i);
        assert q in m0 <==> q in mem;
        if q in mem {
          ReleasedFrame(mem, pmm.Value(), q);
        }
        if phys != 0 {
          mem := mem - {q};
          pmm.FreeFrame(phys);
        }
        i := i + 1;
      }
    }

    /** kfree. A small block whose inherited pages word is not 0 is taken for a large one: that many pages are
        unmapped from the one of its header on. The heap is sound afterwards exactly if no other block in use has
        a byte there; otherwise no arena has the other blocks any more. */
    method Kfree(ptr: nat)
      requires Valid() && (ptr != 0 ==> ptr >= HEADER && ptr - HEADER in Blocks())
      modifies this, pmm, pmm.bitmap
      ensures ptr == 0 ==> Valid() && mem == old(mem) && arena == old(arena) && pmm.Value() == old(pmm.Value())
      ensures ptr != 0 ==>
                var b := ptr - HEADER;
                var n := old(Blocks())[b].pages;
                && (Valid() <==> Spares(old(arena), b, n))
                && (Valid() ==> Blocks() == old(Blocks()) - {b} && FreedTo(old(arena), b, n, arena))
                && (!Valid() ==> Broken(mem, free, old(Blocks()) - {b}))
                && pmm.Value().free == old(pmm.Value().free) + FramesIn(old(mem), b / PAGE_SIZE, n)
                && pmm.Value().total == old(pmm.Value().total)
                && (n == 0 ==> OnlyAt(old(mem), mem, FreeWords(old(arena).list, b)))
    {
      hide FreeSet, Represents, FramesOk, Backed, Load, Freed, Spares, Data, Drops, FramesIn, PageSet;
      if ptr == 0 {
        return;
      }
      var b := ptr - HEADER;
      ghost var m0, h0 := mem, arena;
      LiveBlock(mem, free, arena, b);
      var pages := Load(mem, b + 8);
      if pages > 0 {
        ReleasePages(b, pages);
        PagesDropped(m0, b, pages);
        if Spares(h0, b, pages) {
          ReleaseEffect(m0, free, mem, h0, b, pages);
          arena := FreedPages(h0, b, pages);
        } else {
          TouchedBreaks(m0, free, mem, h0, b, pages);
          HeaderUnmapped(m0, b, pages);
          RepresentedBlock(mem, free, arena, b);
        }
        return;
      }
      NoPages(mem, b / PAGE_SIZE);
      NoneToSpare(h0, b);
      FreeSmall(b);
    }

    /** A write by the owner of a live block: word k of its payload. */
    method Write(b: nat, k: nat, v: nat)
      requires Valid() && b in Blocks() && k < |Blocks()[b].words|
      modifies `mem
      ensures Valid()
      ensures Blocks() == old(Blocks())[b := old(Blocks())[b].(words := old(Blocks())[b].words[k := v])]
      ensures OnlyAt(old(mem), mem, {b + HEADER + 8 * k})
    {
      hide FreeSet, ArenaOk, Written, Linked, FramesOk, Backed, Load, Data, Store;
      ghost var m0 := mem;
      PayloadWord(mem, free, arena, b, k);
      mem := Store(mem, b + HEADER + 8 * k, v);
      StoreEffect(m0, b + HEADER + 8 * k, v);
      StoredFrames(m0, mem, pmm.Value().free, pmm.Value().total);
      WriteEffect(m0, mem, free, arena, old(Blocks()), b, k, v);
    }

    /** memcpy of n words between the payloads of two live blocks. */
    method Copy(b: nat, from: nat, n: nat)
      requires Valid() && b in Blocks() && from in Blocks() && b != from
      requires n <= |Blocks()[b].words| && n <= |Blocks()[from].words|
      modifies `mem
      ensures Valid() && Blocks() == Copied(old(Blocks()), b, from, n)
    {
      hide FreeSet, Represents, FramesOk, Data, Copied, Backed, Load;
      ghost var d := Blocks();
      CopyNone(d, b, from);
      var i := 0;
      while i < n
        invariant i <= n && Valid() && Blocks() == Copied(d, b, from, i)
      {
        CopyOne(d, b, from, i);
        PayloadWord(mem, free, arena, from, i);
        Write(b, i, Load(mem, from + HEADER + 8 * i));
        i := i + 1;
      }
    }

    /** krealloc: want is what the blocks should be afterwards. Moving a block ends in kfree of the old one, with
        what that does to a small block whose inherited pages word is not 0. */
    method Krealloc(ptr: nat, n: nat, ram: nat -> Words) returns (r: nat, ghost want: map<nat, Block>)
      requires Valid() && n <= MAX_REQUEST && (ptr != 0 ==> ptr >= HEADER && ptr - HEADER in Blocks())
      modifies this, pmm, pmm.bitmap
      ensures Resized(old(Blocks()), want, ptr, r, n)
      ensures ptr != 0 ==> (r == ptr <==> AlignUp(n) <= 8 * |old(Blocks())[ptr - HEADER].words|)
      ensures r == 0 <==> if ptr == 0 then !Serves(old(arena), old(pmm.Value()), Rounded(n))
                          else r != ptr && !Serves(old(arena), old(pmm.Value()), Rounded(AlignUp(n)))
      ensures Valid() <==> CanMove(old(arena), old(Blocks()), ptr, AlignUp(n)) || r == ptr || r == 0
      ensures if Valid() then Blocks() == want else Broken(mem, free, want)
    {
      hide FreeSet, Represents, FramesOk, Backed, Load, Data, AlignUp, PagesWord, Placed, Spares, ArenaOk, Served,
           Rounded, Broken, Serves;
      ghost var h, m0, p0 := arena, mem, pmm.Value();
      if ptr == 0 {
        r := Kmalloc(n, ram);
        PlacedIfServed(h, m0, p0, ram, Rounded(n), r, arena, Blocks(), pmm.Value());
        want := Blocks();
        return;
      }
      var b := ptr - HEADER;
      ghost var d := Blocks();
      BlockSize(mem, free, arena, b);
      LiveBlock(mem, free, arena, b);
      AlignedSize(n);
      var size := AlignUp(n);
      var have := Load(mem, b);
      if size <= have {
        return ptr, d;
      }
      var moved := Kmalloc(size, ram);
      PlacedIfServed(h, m0, p0, ram, Rounded(size), moved, arena, Blocks(), pmm.Value());
      if moved == 0 {
        return 0, d;
      }
      PlacedServed(h, m0, p0, ram, Rounded(size), moved, arena, Blocks(), pmm.Value());
      var c := moved - HEADER;
      Together(Blocks(), d, c, b);
      ghost var d1 := Blocks();
      Copy(c, b, have / 8);
      ghost var d2 := Blocks();
      Kfree(ptr);
      MovedBlock(d, d1, d2, b, c, have / 8);
      r, want := moved, d2 - {b};
    }
  }

  /** Where a request of size bytes goes: whole pages at the end of the arena; the first free block that is
      large enough; a new page, if there is none; and nowhere, if memory has run out. The pages word of a
      small block is what the memory held there before. */
  ghost predicate Placed(h: Arena, m: Mem, p: Pool, ram: nat -> Words, size: nat, r: nat,
                         h': Arena, d': map<nat, Block>, p': Pool) {
    && ArenaOk(h)
    && var i := Fit(h, size);
       if size > SMALL_MAX then
         && (r != 0 <==> LargePages(size) <= |Usable(p)|)
         && |Usable(p')| == (if r != 0 then |Usable(p)| - LargePages(size) else 0)
         && (r != 0 ==> r == h.next + HEADER && h' == TakeLarge(h, size, LargePages(size)))
       else if i < |h.list| then
         && r == h.list[i] + HEADER && SmallTaken(h, i, size, h') && p' == p
         && h.list[i] in d' && PagesWord(m, h.list[i], d'[h.list[i]].pages)
       else if Exhausted(p) then r == 0
       else
         && r == h.next + HEADER && SmallTaken(Grown(h), 0, size, h')
         && h.next in d' && d'[h.next].pages == FreshPages(p, ram)
  }

  lemma PlacedLarge(h: Arena, m: Mem, p: Pool, ram: nat -> Words, size: nat, r: nat,
                    h': Arena, d': map<nat, Block>, p': Pool)
    requires ArenaOk(h) && size > SMALL_MAX && (r != 0 <==> LargePages(size) <= |Usable(p)|)
    requires |Usable(p')| == if r != 0 then |Usable(p)| - LargePages(size) else 0
    requires r != 0 ==> r == h.next + HEADER && h' == TakeLarge(h, size, LargePages(size))
    ensures Placed(h, m, p, ram, size, r, h', d', p')
  {
  }

  lemma PlacedFit(h: Arena, m: Mem, p: Pool, ram: nat -> Words, size: nat, r: nat,
                  h': Arena, d': map<nat, Block>, p': Pool)
    requires ArenaOk(h) && size <= SMALL_MAX && Fit(h, size) < |h.list| && p' == p
    requires var b := h.list[Fit(h, size)];
             && r == b + HEADER && b in h.tiles && h.tiles[b].size >= size && h' == TakeFree(h, Fit(h, size), size)
             && b in d' && PagesWord(m, b, d'[b].pages)
    ensures Placed(h, m, p, ram, size, r, h', d', p')
  {
    hide ArenaOk, TakeFree, PagesWord, Fit;
  }

  lemma PlacedNowhere(h: Arena, m: Mem, p: Pool, ram: nat -> Words, size: nat,
                      h': Arena, d': map<nat, Block>, p': Pool)
    requires ArenaOk(h) && size <= SMALL_MAX && Fit(h, size) >= |h.list| && Exhausted(p)
    ensures Placed(h, m, p, ram, size, 0, h', d', p')
  {
    hide ArenaOk, Fit;
  }

  lemma PlacedAfterGrowth(h: Arena, m: Mem, p: Pool, m1: Mem, p1: Pool, ram: nat -> Words, size: nat, r: nat,
                          h': Arena, d': map<nat, Block>, p': Pool)
    requires ArenaOk(h) && size <= SMALL_MAX && Fit(h, size) >= |h.list| && !Exhausted(p)
    requires Placed(Grown(h), m1, p1, ram, size, r, h', d', p') && PagesWord(m1, h.next, FreshPages(p, ram))
    ensures Placed(h, m, p, ram, size, r, h', d', p') && r != 0
  {
    hide Tiling, Listed, Fit, TakeFree, FreshPages;
    GrownFits(h, size);
  }

  /** The pages word of the header at b. */
  predicate PagesWord(m: Mem, b: nat, v: nat) {
    Backed(m, b + 8) && Load(m, b + 8) == v
  }

  /** What the next frame holds where a block header at its start has its pages word. */
  ghost function FreshPages(p: Pool, ram: nat -> Words): nat {
    match Alloc(p).1
    case None => 0
    case Some(f) => ram(f)[1]
  }

  /** heap_grow_page writes the first and the third word of the page, not the second. */
  lemma UnwrittenWord(m: Mem, m': Mem, b: nat, page: Page, head: nat)
    requires b % PAGE_SIZE == 0
    requires var m1 := m[b / PAGE_SIZE := page];
             Backed(m1, b) && Backed(m1, b + 16) && m' == PutHeader(m1, b, PAGE_SIZE - HEADER, head)
    ensures PagesWord(m', b, page.words[1])
  {
    hide PutHeader, Backed, Load;
    var m1 := m[b / PAGE_SIZE := page];
    PutHeaderEffect(m1, b, PAGE_SIZE - HEADER, head);
    FreshWord(m, b, page);
    Unwritten(m1, m', {b, b + 16}, b + 8);
  }

  /** The second word of a page. */
  lemma FreshWord(m: Mem, b: nat, page: Page)
    requires b % PAGE_SIZE == 0
    ensures PagesWord(m[b / PAGE_SIZE := page], b, page.words[1])
  {
    SecondWord(b / PAGE_SIZE);
  }

  lemma SecondWord(p: nat)
    ensures (p * PAGE_SIZE + 8) % 8 == 0
    ensures (p * PAGE_SIZE + 8) / PAGE_SIZE == p && (p * PAGE_SIZE + 8) % PAGE_SIZE == 8
  {
    PageWord(p);
  }

  /** From boot: the first small block has in its pages word what its frame held there. If that was not 0,
      kfree of the block unmaps the rest of the page with it and leaves the heap broken; otherwise the block is
      gone and the heap is sound. */
  method FirstBlock(pmm: FrameAllocator, ram: nat -> Words) returns (k: KernelHeap)
    requires pmm.Valid() && 0 !in pmm.Value().free && !Exhausted(pmm.Value())
    modifies pmm, pmm.bitmap
    ensures k.Valid() <==> FreshPages(old(pmm.Value()), ram) == 0
  {
    hide FreeSet, Represents, FramesOk, Data, Alloc, Exhausted, FreshPages, PagesWord, SmallTaken, Grown, Spares;
    k := new KernelHeap(pmm);
    ghost var h := k.arena;
    ArenaOf(k.mem, k.free, h);
    FirstFits(h);
    var r := k.Kmalloc(ALIGN, ram);
    FirstShares(h, k.arena, FreshPages(old(pmm.Value()), ram));
    k.Kfree(r);
  }

  /** The rest of the first page is a free block. */
  lemma FirstShares(h: Arena, h': Arena, n: nat)
    requires h == Arena([], map[], BASE) && SmallTaken(Grown(h), 0, ALIGN, h')
    ensures Spares(h', BASE, n) <==> n == 0
  {
    var rest := BASE + HEADER + ALIGN;
    assert rest in h'.tiles && h'.tiles[rest].kind == Free;
    if n > 0 {
      assert !Misses(h'.tiles, BASE, n, rest);
    }
  }

  lemma FirstFits(h: Arena)
    requires ArenaOk(h) && h.list == []
    ensures Fit(h, ALIGN) == 0 && Rounded(ALIGN) == ALIGN <= SMALL_MAX && ALIGN <= MAX_REQUEST
  {
  }

  /** The first n words of block b are those of block from. */
  ghost function Copied(d: map<nat, Block>, b: nat, from: nat, n: nat): map<nat, Block>
    requires b in d && from in d && n <= |d[b].words| && n <= |d[from].words|
  {
    d[b := d[b].(words := d[from].words[..n] + d[b].words[n..])]
  }

  lemma CopyNone(d: map<nat, Block>, b: nat, from: nat)
    requires b in d && from in d
    ensures Copied(d, b, from, 0) == d
  {
    assert d[from].words[..0] + d[b].words[0..] == d[b].words;
  }

  lemma CopyOne(d: map<nat, Block>, b: nat, from: nat, i: nat)
    requires b in d && from in d && b != from && i < |d[b].words| && i < |d[from].words|
    ensures var d' := Copied(d, b, from, i);
            && b in d' && from in d' && d'[from] == d[from] && i < |d'[b].words|
            && Copied(d, b, from, i + 1) == d'[b := d'[b].(words := d'[b].words[i := d[from].words[i]])]
  {
    assert (d[from].words[..i] + d[b].words[i..])[i := d[from].words[i]] ==
      d[from].words[..i + 1] + d[b].words[i + 1..];
  }

  /** What kmalloc did to the live blocks: nothing, or one new block with the room asked for. */
  predicate Allocated(d: map<nat, Block>, d': map<nat, Block>, r: nat, n: nat) {
    if r == 0 then d' == d
    else
      && r >= HEADER && r - HEADER in d' && r - HEADER !in d && d' - {r - HEADER} == d
      && 8 * |d'[r - HEADER].words| >= n
  }

  lemma AllocatedLess(n: nat, size: nat)
    requires n <= size
    ensures forall d: map<nat, Block>, d': map<nat, Block>, r: nat | Allocated(d, d', r, size) :: Allocated(d, d', r, n)
    ensures forall d: map<nat, Block> :: Allocated(d, d, 0, n)
  {
  }

  /** The arena after a request for size bytes that was met. */
  ghost function Served(h: Arena, size: nat): Arena
    requires ArenaOk(h)
  {
    var i := Fit(h, size);
    if size > SMALL_MAX then TakeLarge(h, size, LargePages(size))
    else if i < |h.list| then TakeFree(h, i, size)
    else TakeFree(Grown(h), 0, size)
  }

  lemma PlacedServed(h: Arena, m: Mem, p: Pool, ram: nat -> Words, size: nat, r: nat,
                     h': Arena, d': map<nat, Block>, p': Pool)
    requires Placed(h, m, p, ram, size, r, h', d', p') && r != 0
    ensures h' == Served(h, size)
  {
    hide ArenaOk, TakeFree, PagesWord, FreshPages, Grown, Exhausted;
  }

  /** There is a place for a request of size bytes: enough frames for its pages, a free block that is large enough, or a
      frame for a new page. */
  ghost predicate Serves(h: Arena, p: Pool, size: nat) {
    && ArenaOk(h)
    && if size > SMALL_MAX then LargePages(size) <= |Usable(p)| else Fit(h, size) < |h.list| || !Exhausted(p)
  }

  lemma PlacedIfServed(h: Arena, m: Mem, p: Pool, ram: nat -> Words, size: nat, r: nat,
                       h': Arena, d': map<nat, Block>, p': Pool)
    requires Placed(h, m, p, ram, size, r, h', d', p')
    ensures r != 0 <==> Serves(h, p, size)
  {
    hide ArenaOk, TakeFree, PagesWord, FreshPages, Grown, Exhausted, Usable;
  }

  /** Once the new block is there, the old one can be freed. */
  ghost predicate CanMove(h: Arena, d: map<nat, Block>, ptr: nat, size: nat) {
    ptr != 0 ==>
      ArenaOk(h) && ptr >= HEADER && ptr - HEADER in d &&
      Spares(Served(h, Rounded(size)), ptr - HEADER, d[ptr - HEADER].pages)
  }

  /** The words that taking the i-th free block for size bytes may write. */
  function TakeWords(list: seq<nat>, i: nat, size: nat): set<nat>
    requires i < |list|
  {
    SplitWords(list, i, list[i] + HEADER + size)
  }

  /** A small request that a free block can meet writes no other word. */
  ghost predicate TakenOnly(h: Arena, size: nat, m: Mem, m': Mem) {
    size <= SMALL_MAX && FitIn(h, size) ==> OnlyAt(m, m', TakeWords(h.list, Fit(h, size), size))
  }

  /** The words that the release of small block b may write. */
  function FreeWords(list: seq<nat>, b: nat): set<nat> {
    {b, b + 16} + LinkWords(list, SlotFrom(list, b, 0))
  }

  lemma OnlyAtMore(m: Mem, m': Mem, w: set<nat>, w': set<nat>)
    requires OnlyAt(m, m', w) && w <= w'
    ensures OnlyAt(m, m', w')
  {
    hide Backed, Load;
  }

  lemma SplitOnly(m: Mem, head: nat, m': Mem, head': nat, h: Arena, i: nat, size: nat)
    requires CanSplit(h, i, size) && SplitWrites(m, head, m', head', h.list, i, size, Left(h, i, size))
    ensures OnlyAt(m, m', TakeWords(h.list, i, size))
  {
    hide Backed, Load;
  }

  lemma InsertOnly(m: Mem, head: nat, m': Mem, head': nat, list: seq<nat>, i: nat, b: nat)
    requires i <= |list| && i == SlotFrom(list, b, 0) && InsertWrites(m, head, m', head', list, i, b)
    ensures OnlyAt(m, m', FreeWords(list, b))
  {
    hide Backed, Load, SlotFrom;
    OnlyAtMore(m, m', {b + 16} + LinkWords(list, i), FreeWords(list, b));
  }

  lemma MergeOnly(m: Mem, m1: Mem, m2: Mem, list: seq<nat>, list1: seq<nat>, i: nat, size: nat)
    requires i + 1 < |list1| && OnlyAt(m, m1, FreeWords(list, list1[i])) && MergeWrites(m1, m2, list1, i, size)
    ensures OnlyAt(m, m2, FreeWords(list, list1[i]))
  {
    hide Backed, Load, SlotFrom;
    var b := list1[i];
    OnlyAtTrans(m, m1, m2, FreeWords(list, b), {b, b + 16});
    assert FreeWords(list, b) + {b, b + 16} == FreeWords(list, b);
  }

  /** What kfree of a block with n in its pages word makes of the arena. */
  predicate FreedTo(h: Arena, b: nat, n: nat, h': Arena) {
    if n == 0 then ArenaOk(h) && IsSmall(h, b) && h' == Freed(h, b)
    else b in h.tiles && h' == FreedPages(h, b, n)
  }

  /** What krealloc did to the live blocks: nothing, or block ptr became block r, which begins with
      all that ptr held. */
  predicate Resized(d: map<nat, Block>, d': map<nat, Block>, ptr: nat, r: nat, n: nat) {
    if r == 0 then d' == d
    else if ptr == 0 then Allocated(d, d', r, n)
    else
      && r >= HEADER && ptr >= HEADER
      && var b, c := ptr - HEADER, r - HEADER;
      && b in d && c in d' && (c == b || c !in d) && d' - {c} == d - {b}
      && d[b].words <= d'[c].words && 8 * |d'[c].words| >= n
  }

  lemma MovedBlock(d: map<nat, Block>, d1: map<nat, Block>, d2: map<nat, Block>, b: nat, c: nat, k: nat)
    requires b in d && c in d1 && c !in d && d1 - {c} == d && b in d1 && d1[b] == d[b] && b != c
    requires k == |d[b].words| <= |d1[c].words|
    requires k <= |d1[b].words| && d2 == Copied(d1, c, b, k)
    ensures var d3 := d2 - {b};
            c in d3 && d3 - {c} == d - {b} && d[b].words <= d3[c].words && |d3[c].words| == |d1[c].words|
  {
    assert d1[b].words[..k] == d[b].words;
    var d3 := d2 - {b};
    forall a ensures a in d3 - {c} <==> a in d - {b} {
      assert a in d <==> a in d1 - {c};
    }
    forall a | a in d - {b} ensures (d3 - {c})[a] == d[a] {
      assert d[a] == (d1 - {c})[a];
    }
  }

  lemma AlignedSize(n: nat)
    requires n <= MAX_REQUEST
    ensures n <= AlignUp(n) <= MAX_REQUEST
  {
  }

  lemma Together(d': map<nat, Block>, d: map<nat, Block>, c: nat, b: nat)
    requires d' - {c} == d && c !in d && b in d
    ensures b in d' && d'[b] == d[b] && b != c
  {
    assert b in d' - {c};
  }

  lemma PayloadWord(m: Mem, head: nat, h: Arena, b: nat, k: nat)
    requires Represents(m, head, h) && b in Data(m, h.tiles) && k < |Data(m, h.tiles)[b].words|
    ensures Backed(m, b + HEADER + 8 * k) && Load(m, b + HEADER + 8 * k) == Data(m, h.tiles)[b].words[k]
  {
    hide ArenaOk, Linked, Backed, Load, BlockOk;
    PayloadBacked(m, b, h.tiles[b]);
  }

  lemma SizeOf(m: Mem, a: nat, t: Tile)
    requires BlockOk(m, a, t)
    ensures HEADER + t.size <= t.len && t.size % 8 == 0
  {
  }

  lemma BlockSize(m: Mem, head: nat, h: Arena, b: nat)
    requires Represents(m, head, h) && b in Data(m, h.tiles)
    ensures b in h.tiles && Live(h.tiles[b]) && 8 * |Data(m, h.tiles)[b].words| == h.tiles[b].size
  {
    hide ArenaOk, Linked, Backed, Load, BlockOk;
  }

  /** A write to a payload word leaves every header and every other payload alone. */
  lemma WriteEffect(m: Mem, m': Mem, head: nat, h: Arena, d: map<nat, Block>, b: nat, k: nat, v: nat)
    requires b in d && k < |d[b].words|
    requires OnlyAt(m, m', {b + HEADER + 8 * k}) && SameFrames(m, m')
    requires Backed(m', b + HEADER + 8 * k) && Load(m', b + HEADER + 8 * k) == v
    requires Represents(m, head, h) && d == Data(m, h.tiles)
    ensures Represents(m', head, h)
    ensures Data(m', h.tiles) == d[b := d[b].(words := d[b].words[k := v])]
  {
    hide ArenaOk, Linked, Backed, Load, BlockOk, OnlyAt, SameFrames, Held;
    BlockSize(m, head, h, b);
    var x := b + HEADER + 8 * k;
    assert b + HEADER <= x < End(h.tiles, b) by {
      assert BlockOk(m, b, h.tiles[b]);
      SizeOf(m, b, h.tiles[b]);
    }
    forall a | a in h.tiles
      ensures BlockOk(m', a, h.tiles[a])
      ensures Live(h.tiles[a]) && a != b ==> Held(m', a, h.tiles[a]) == Held(m, a, h.tiles[a])
    {
      PayloadWrite(m, m', head, h, b, x, a);
    }
    WriteLinked(m, m', head, h, b, x);
    WriteHeld(m, m', b, h.tiles[b], k, v);
  }

  /** A payload word of b is no header word, and no payload word of another block. */
  lemma PayloadWrite(m: Mem, m': Mem, head: nat, h: Arena, b: nat, x: nat, a: nat)
    requires b in h.tiles && a in h.tiles && b + HEADER <= x < End(h.tiles, b)
    requires Represents(m, head, h) && OnlyAt(m, m', {x}) && SameFrames(m, m')
    ensures BlockOk(m, a, h.tiles[a]) && BlockOk(m', a, h.tiles[a])
    ensures Live(h.tiles[a]) && a != b ==> Held(m', a, h.tiles[a]) == Held(m, a, h.tiles[a])
  {
    hide ArenaOk, Linked, Backed, Load, BlockOk, OnlyAt, SameFrames, Written, Held;
    WrittenSizes(m, h.tiles, a);
    if a != b {
      BlocksDisjoint(h, a, b);
    }
    BlockKept(m, m', {x}, a, h.tiles[a]);
    if Live(h.tiles[a]) && a != b {
      HeldElsewhere(m, m', x, a, h.tiles[a]);
    }
  }

  lemma HeldElsewhere(m: Mem, m': Mem, x: nat, a: nat, t: Tile)
    requires BlockOk(m, a, t) && BlockOk(m', a, t) && Present(t) && OnlyAt(m, m', {x}) && !(a <= x < a + t.len)
    ensures Held(m', a, t) == Held(m, a, t)
  {
    hide Backed, Load;
    SizeFits(a, t);
    hide TileOk;
    PayloadBacked(m, a, t);
    PayloadBacked(m', a, t);
    BlockHeader(m, a, t);
  }

  lemma WriteHeld(m: Mem, m': Mem, b: nat, t: Tile, k: nat, v: nat)
    requires BlockOk(m, b, t) && BlockOk(m', b, t) && Present(t) && k < t.size / 8
    requires OnlyAt(m, m', {b + HEADER + 8 * k}) && Backed(m', b + HEADER + 8 * k) && Load(m', b + HEADER + 8 * k) == v
    ensures 8 * |Held(m, b, t).words| == t.size
    ensures Held(m', b, t) == Held(m, b, t).(words := Held(m, b, t).words[k := v])
  {
    hide Backed, Load;
    SizeFits(b, t);
    hide TileOk;
    PayloadBacked(m, b, t);
    PayloadBacked(m', b, t);
    BlockHeader(m, b, t);
    var w, w' := Held(m, b, t).words, Held(m', b, t).words;
    forall i | 0 <= i < |w| ensures w'[i] == w[k := v][i] {
      assert i != k ==> b + HEADER + 8 * i != b + HEADER + 8 * k;
    }
  }

  lemma WriteLinked(m: Mem, m': Mem, head: nat, h: Arena, b: nat, x: nat)
    requires b in h.tiles && b + HEADER <= x < End(h.tiles, b)
    requires Represents(m, head, h) && OnlyAt(m, m', {x})
    ensures Linked(m', head, h.list)
  {
    hide Tiling, NoneMissing, Distinct, Backed, Load, BlockOk, OnlyAt, Written, Linked, LinkOk;
    forall k | 0 <= k < |h.list| ensures LinkOk(m', h.list, k) {
      var a := h.list[k];
      WrittenSizes(m, h.tiles, a);
      if a != b {
        BlocksDisjoint(h, a, b);
      }
      LinkKept(m, head, m', h.list, {x}, k);
    }
    HeadIs(m, head, h.list);
    LinkedFrom(m', head, h.list);
  }

  lemma LinkedFrom(m: Mem, head: nat, list: seq<nat>)
    requires head == LinkAt(list, 0) && forall k | 0 <= k < |list| :: LinkOk(m, list, k)
    ensures Linked(m, head, list)
  {
    hide LinkOk;
  }

  function PageSet(p: nat, n: nat): (r: set<nat>)
    ensures forall q: nat :: q in r <==> p <= q < p + n
  {
    if n == 0 then {} else PageSet(p, n - 1) + {p + n - 1}
  }

  /** The frames of the mapped pages among n from p. */
  function FramesIn(m: Mem, p: nat, n: nat): set<nat> {
    set q: nat | p <= q < p + n && q in m :: m[q].frame
  }

  lemma NoPages(m: Mem, p: nat)
    ensures PageSet(p, 0) == {} && FramesIn(m, p, 0) == {} && m - PageSet(p, 0) == m
  {
  }

  lemma OneMorePage(m: Mem, p: nat, i: nat)
    ensures p + i !in PageSet(p, i) && m - PageSet(p, i + 1) == m - PageSet(p, i) - {p + i}
    ensures PageSet(p, i + 1) == PageSet(p, i) + {p + i}
    ensures FramesIn(m, p, i + 1) == FramesIn(m, p, i) + if p + i in m then {m[p + i].frame} else {}
  {
  }

  /** Unmapping n pages from that of b on. */
  lemma PagesDropped(m: Mem, b: nat, n: nat)
    requires n > 0
    ensures Drops(m, m - PageSet(b / PAGE_SIZE, n), b, n)
  {
    hide PageSet;
    var m' := m - PageSet(b / PAGE_SIZE, n);
    forall x: nat ensures x / PAGE_SIZE in PageSet(b / PAGE_SIZE, n) <==>
      PageStart(b) <= x < PageStart(b) + n * PAGE_SIZE
    {
      InPages(b / PAGE_SIZE, n, x);
    }
    hide PageStart;
  }

  lemma InPages(p: nat, n: nat, x: nat)
    ensures p <= x / PAGE_SIZE < p + n <==> p * PAGE_SIZE <= x < p * PAGE_SIZE + n * PAGE_SIZE
  {
  }

  lemma NoneToSpare(h: Arena, b: nat)
    ensures Spares(h, b, 0)
  {
  }

  /** A live block as kfree finds it. */
  lemma LiveBlock(m: Mem, head: nat, h: Arena, b: nat)
    requires Represents(m, head, h) && b in Data(m, h.tiles)
    ensures ArenaOk(h) && Backed(m, b) && Backed(m, b + 8) && b in h.tiles && Load(m, b) == h.tiles[b].size
    ensures Load(m, b + 8) == Data(m, h.tiles)[b].pages && Holds(h, b, Load(m, b + 8))
    ensures Load(m, b + 8) == 0 ==> IsSmall(h, b)
  {
    hide ArenaOk, Linked, Backed, Load, BlockOk;
    TileBlock(m, head, h, b);
    if h.tiles[b].kind == Large {
      LargeHasPages(m, b, h.tiles[b]);
    }
  }

  lemma HeaderUnmapped(m: Mem, b: nat, pages: nat)
    requires pages > 0
    ensures !Backed(m - PageSet(b / PAGE_SIZE, pages), b)
  {
  }

  lemma RepresentedBlock(m: Mem, head: nat, h: Arena, b: nat)
    requires b in h.tiles && Present(h.tiles[b])
    ensures Represents(m, head, h) ==> Backed(m, b)
  {
    hide ArenaOk, Linked, Load, Backed;
    if Represents(m, head, h) {
      assert BlockOk(m, b, h.tiles[b]);
    }
  }

  /** Unmapping a page and freeing its frame. */
  lemma ReleasedFrame(m: Mem, p: Pool, q: nat)
    requires FramesOk(m, p.free, p.total) && q in m
    ensures var p' := Pmm.Free(p, m[q].frame);
            FramesOk(m - {q}, p'.free, p'.total) && p'.free == p.free + {m[q].frame} && p'.total == p.total
              && m[q].frame != 0
  {
  }

  lemma LargeHasPages(m: Mem, b: nat, t: Tile)
    requires BlockOk(m, b, t) && t.kind == Large
    ensures Load(m, b + 8) > 0
  {
  }

  lemma NotLinkOf(m: Mem, head: nat, h: Arena, i: nat, b: nat)
    requires i <= |h.list| && IsSmall(h, b) && Represents(m, head, h)
    ensures b + 16 !in LinkWords(h.list, i)
  {
    hide Tiling, NoneMissing, Distinct, Written, Linked;
    forall k | 0 <= k < |h.list| && k + 1 == i ensures h.list[k] != b {}
    PrevApart(m, h, i, b);
  }

  lemma LinkUnfolds(m: Mem, list: seq<nat>, i: nat, x: nat)
    requires LinkBacked(m, list, i)
    ensures LinkMem(m, list, i, x) == if i == 0 then m else Store(m, list[i - 1] + 16, x)
  {
  }

  lemma InsertFrames(m: Mem, head: nat, m': Mem, head': nat, list: seq<nat>, i: nat, b: nat)
    requires i <= |list| && InsertWrites(m, head, m', head', list, i, b)
    ensures SameFrames(m, m')
  {
  }

  lemma InsertLinkIs(m: Mem, head: nat, m': Mem, head': nat, list: seq<nat>, i: nat, b: nat)
    requires i <= |list| && InsertWrites(m, head, m', head', list, i, b)
    ensures if i == 0 then head' == b else Backed(m', list[i - 1] + 16) && Load(m', list[i - 1] + 16) == b
  {
  }

  lemma MergeFrames(m: Mem, m': Mem, list: seq<nat>, i: nat, size: nat)
    requires i + 1 < |list| && MergeWrites(m, m', list, i, size)
    ensures SameFrames(m, m')
  {
  }

  lemma MergeNext(h: Arena, i: nat)
    requires CanMerge(h, i)
    ensures Merged(h, i).next == h.next
  {
  }

  /** The merge writes the header of b, not the link to it. */
  lemma MergeKeepsLink(m: Mem, m': Mem, prev: nat, b: nat, h: Arena, i: nat, size: nat, head: nat)
    requires CanMerge(h, i) && MergeWrites(m, m', h.list, i, size) && b == h.list[i] && prev == Before(h.list, i)
    requires Represents(m, head, h) && (prev != 0 ==> Backed(m, prev + 16) && Load(m, prev + 16) == b)
    ensures prev != 0 ==> Backed(m', prev + 16) && Load(m', prev + 16) == b
  {
    hide Tiling, NoneMissing, Written, Linked, Backed, Load, OnlyAt;
    if i > 0 {
      ListedBlock(m, head, h, i - 1);
      ListedBlock(m, head, h, i);
      assert prev != b;
      BlocksDisjoint(h, prev, b);
      Unwritten(m, m', {b, b + 16}, prev + 16);
    }
  }

  predicate FitIn(h: Arena, size: nat) {
    ArenaOk(h) && Fit(h, size) < |h.list|
  }

  /** h' is h with its i-th free block taken for size bytes. */
  predicate SmallTaken(h: Arena, i: nat, size: nat, h': Arena) {
    i < |h.list| && h.list[i] in h.tiles && h.tiles[h.list[i]].size >= size && h' == TakeFree(h, i, size)
  }

  /** After growth the fresh page is the first fit. */
  lemma GrownFits(h: Arena, size: nat)
    requires ArenaOk(h) && size <= SMALL_MAX
    ensures ArenaOk(Grown(h)) && Fit(Grown(h), size) == 0 && FitIn(Grown(h), size)
    ensures Grown(h).next == h.next + PAGE_SIZE && Grown(h).list[0] == h.next
  {
    hide Tiling, Listed;
    GrownOk(h);
    assert Grown(h).tiles[Grown(h).list[0]].size == PAGE_SIZE - HEADER;
    hide Grown;
    FitIsFirst(Grown(h), size, 0);
  }

  lemma HeaderWords(m: Mem, lo: nat, hi: nat)
    requires AllBacked(m, lo, hi) && lo % PAGE_SIZE == 0 && lo + HEADER <= hi
    ensures Backed(m, lo) && Backed(m, lo + 8) && Backed(m, lo + 16)
  {
    hide Backed;
    PageIsWord(lo);
  }

  lemma PageIsWord(a: nat)
    requires a % PAGE_SIZE == 0
    ensures a % 8 == 0 && (a + 8) % 8 == 0 && (a + 16) % 8 == 0
  {
    assert a == 8 * (512 * (a / PAGE_SIZE));
  }

  /** The header writes of a large block. */
  lemma LargeStores(m0: Mem, m: Mem, b: nat, size: nat, pages: nat)
    requires b % PAGE_SIZE == 0 && size % 8 == 0 && HEADER + size <= pages * PAGE_SIZE
    requires SameOutside(m0, m, b, b + pages * PAGE_SIZE) && AllBacked(m, b, b + pages * PAGE_SIZE)
    requires Backed(m, b) && Backed(m, b + 8) && Backed(m, b + 16)
    ensures var m1 := Store(m, b, size);
            && Backed(m1, b + 8)
            && var m2 := Store(m1, b + 8, pages);
            && Backed(m2, b + 16)
            && var m3 := Store(m2, b + 16, 0);
            && SameOutside(m0, m3, b, b + pages * PAGE_SIZE) && SameFrames(m, m3)
            && BlockOk(m3, b, Tile(pages * PAGE_SIZE, size, Large)) && Backed(m3, b + 8) && Load(m3, b + 8) == pages
  {
    hide Load, Backed, Store, SameOutside, AllBacked, BlockOk, OnlyAt, SameFrames;
    StoreEffect(m, b, size);
    var m1 := Store(m, b, size);
    Unwritten(m, m1, {b}, b + 8);
    Unwritten(m, m1, {b}, b + 16);
    StoreEffect(m1, b + 8, pages);
    var m2 := Store(m1, b + 8, pages);
    Unwritten(m1, m2, {b + 8}, b);
    Unwritten(m1, m2, {b + 8}, b + 16);
    StoreEffect(m2, b + 16, 0);
    var m3 := Store(m2, b + 16, 0);
    Unwritten(m2, m3, {b + 16}, b);
    Unwritten(m2, m3, {b + 16}, b + 8);
    var hi := b + pages * PAGE_SIZE;
    StoredInside(m0, m, m1, b, hi, {b});
    StoredInside(m0, m1, m2, b, hi, {b + 8});
    StoredInside(m0, m2, m3, b, hi, {b + 16});
    FramesTrans(m, m1, m2);
    FramesTrans(m, m2, m3);
    StillBacked(m, m3, b, hi);
    LargeWritten(m3, b, size, pages);
  }

  lemma StillBacked(m: Mem, m': Mem, lo: nat, hi: nat)
    requires SameFrames(m, m') && AllBacked(m, lo, hi)
    ensures AllBacked(m', lo, hi)
  {
    assert forall x: nat | Backed(m, x) :: Backed(m', x);
  }

  lemma LargeWritten(m: Mem, b: nat, size: nat, pages: nat)
    requires b % PAGE_SIZE == 0 && size % 8 == 0 && HEADER + size <= pages * PAGE_SIZE
    requires AllBacked(m, b, b + pages * PAGE_SIZE) && Backed(m, b) && Backed(m, b + 8) && Backed(m, b + 16)
    requires Load(m, b) == size && Load(m, b + 8) == pages
    ensures BlockOk(m, b, Tile(pages * PAGE_SIZE, size, Large))
  {
    hide Load, Backed;
    PageIsWord(b);
    assert BlockBacked(m, b, Tile(pages * PAGE_SIZE, size, Large));
  }

  lemma LargeBlock(m: Mem, m': Mem, h: Arena, size: nat, pages: nat)
    requires ArenaOk(h) && Written(m, h.tiles) && Written(m', TakeLarge(h, size, pages).tiles)
    requires Backed(m', h.next + 8) && Load(m', h.next + 8) == pages
    ensures var d := Data(m', TakeLarge(h, size, pages).tiles);
            h.next in d && h.next !in Data(m, h.tiles) && d[h.next].pages == pages && 8 * |d[h.next].words| == size
  {
    hide BlockOk, Payload, Load, Backed, Gapless, Apart, Listed, Shaped;
    NoTileAtEnd(h.tiles, BASE, h.next);
    var h' := TakeLarge(h, size, pages);
    WrittenSizes(m', h'.tiles, h.next);
    assert Data(m', h'.tiles)[h.next] == Held(m', h.next, h'.tiles[h.next]);
  }

  /** Every word of [lo, hi) is mapped. */
  ghost predicate AllBacked(m: Mem, lo: nat, hi: nat) {
    forall x: nat | lo <= x < hi && x % 8 == 0 :: Backed(m, x)
  }

  lemma ArenaOf(m: Mem, head: nat, h: Arena)
    requires Represents(m, head, h)
    ensures ArenaOk(h)
  {
  }

  lemma NothingMapped(m: Mem, a: nat)
    ensures SameOutside(m, m, a, a) && AllBacked(m, a, a)
  {
  }

  lemma MorePages(m0: Mem, m: Mem, lo: nat, a: nat, page: Page)
    requires a % PAGE_SIZE == 0 && lo <= a && SameOutside(m0, m, lo, a) && AllBacked(m, lo, a)
    ensures var m' := m[a / PAGE_SIZE := page];
            SameOutside(m0, m', lo, a + PAGE_SIZE) && AllBacked(m', lo, a + PAGE_SIZE)
  {
    hide Load;
    PageMapped(m, a, page);
    hide Backed;
  }

  lemma SplitKeeps(m: Mem, head: nat, m': Mem, head': nat, h: Arena, i: nat, size: nat)
    requires CanSplit(h, i, size)
    requires SplitWrites(m, head, m', head', h.list, i, size, Left(h, i, size))
    requires Represents(m, head, h)
    ensures SameFrames(m, m') && Backed(m, h.list[i] + 8) && Backed(m', h.list[i] + 8)
    ensures Load(m', h.list[i] + 8) == Load(m, h.list[i] + 8)
  {
    hide ArenaOk, Written, Linked, Backed, Load, OnlyAt;
    ListedBlock(m, head, h, i);
    PrevApart(m, h, i, h.list[i]);
    Unwritten(m, m', SplitWords(h.list, i, h.list[i] + HEADER + size), h.list[i] + 8);
  }

  lemma UnlinkKeeps(m: Mem, head: nat, m': Mem, head': nat, h: Arena, i: nat)
    requires i < |h.list| && UnlinkWrites(m, head, m', head', h.list, i)
    requires Represents(m, head, h)
    ensures SameFrames(m, m') && Backed(m, h.list[i] + 8) && Backed(m', h.list[i] + 8)
    ensures Load(m', h.list[i] + 8) == Load(m, h.list[i] + 8)
  {
    hide ArenaOk, Written, Linked, Backed, Load, OnlyAt;
    ListedBlock(m, head, h, i);
    PrevApart(m, h, i, h.list[i]);
    Unwritten(m, m', LinkWords(h.list, i), h.list[i] + 8);
  }

  /** The block taken is live, with room for the request. */
  lemma TakenBlock(m: Mem, m': Mem, h: Arena, i: nat, size: nat)
    requires i < |h.list| && h.list[i] in h.tiles && h.tiles[h.list[i]].size >= size
    requires Written(m', TakeFree(h, i, size).tiles) && Written(m, h.tiles) && h.tiles[h.list[i]].kind == Free
    ensures var b := h.list[i];
            var d := Data(m', TakeFree(h, i, size).tiles);
            && b !in Data(m, h.tiles) && b in d && Backed(m', b + 8) && d[b].pages == Load(m', b + 8)
            && 8 * |d[b].words| >= size
  {
    hide BlockOk, Payload, Load, Backed;
    var h' := TakeFree(h, i, size);
    var b := h.list[i];
    assert b in h'.tiles && h'.tiles[b].kind == Small;
    WrittenSizes(m', h'.tiles, b);
    BlockHeader(m', b, h'.tiles[b]);
    assert Data(m', h'.tiles)[b] == Held(m', b, h'.tiles[b]);
  }

  lemma TakeNext(h: Arena, i: nat, size: nat)
    requires i < |h.list| && h.list[i] in h.tiles && h.tiles[h.list[i]].size >= size
    ensures TakeFree(h, i, size).next == h.next
  {
  }

  lemma BlockHeader(m: Mem, a: nat, t: Tile)
    requires BlockOk(m, a, t) && Present(t)
    ensures Backed(m, a) && Backed(m, a + 8) && Backed(m, a + 16)
  {
  }

  lemma LinkIs(m: Mem, head: nat, h: Arena, i: nat)
    requires i <= |h.list| && Represents(m, head, h)
    ensures i > 0 ==> Before(h.list, i) == h.list[i - 1] && h.list[i - 1] != 0
  {
    hide ArenaOk, Written, Linked, Load, Backed;
    if i > 0 {
      ListedBlock(m, head, h, i - 1);
    }
  }

  lemma NonzeroFrames(m: Mem, p: Pool)
    requires FramesOk(m, p.free, p.total)
    ensures 0 !in p.free
  {
  }

  lemma NextAligned(h: Arena)
    requires ArenaOk(h)
    ensures h.next % PAGE_SIZE == 0 && h.next >= BASE
  {
    hide Listed, Gapless, Apart, Shaped;
  }

  /** A fresh page with its header written is one free block. */
  lemma FreshBlock(m: Mem, m1: Mem, m2: Mem, a: nat, head: nat)
    requires a % PAGE_SIZE == 0 && SameOutside(m, m1, a, a + PAGE_SIZE)
    requires AllBacked(m1, a, a + PAGE_SIZE)
    requires Backed(m1, a) && Backed(m1, a + 16) && m2 == PutHeader(m1, a, PAGE_SIZE - HEADER, head)
    ensures SameOutside(m, m2, a, a + PAGE_SIZE)
    ensures BlockOk(m2, a, Tile(PAGE_SIZE, PAGE_SIZE - HEADER, Free))
    ensures Backed(m2, a + 16) && Load(m2, a + 16) == head && SameFrames(m1, m2)
  {
    PutHeaderEffect(m1, a, PAGE_SIZE - HEADER, head);
    hide Load, PutHeader;
    StoredInside(m, m1, m2, a, a + PAGE_SIZE, {a, a + 16});
    var t := Tile(PAGE_SIZE, PAGE_SIZE - HEADER, Free);
    assert TileOk(a, t);
    assert BlockBacked(m2, a, t);
    HeaderBacked(m2, a, t);
  }
}
