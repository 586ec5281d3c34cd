/** Two runs of the kernel heap from boot that end in kfree of a small block with a pages word that is not 0
    (kernel/mm/kmalloc.c). */
module HeapRuns {
  import opened Base
  import opened Pmm
  import opened HeapMemory
  import opened HeapArena
  import opened HeapBlocks
  import opened HeapEffects
  import opened Kmalloc

  const EMPTY := Arena([], map[], BASE)

  // ---- a block that fills its page ----

  /** One block of 4064 bytes takes the whole first page, so whatever its pages word is, kfree leaves a sound and
      empty heap. */
  method WholePage(pmm: FrameAllocator, ram: nat -> Words) returns (k: KernelHeap)
    requires pmm.Valid() && 0 !in pmm.Value().free && !Exhausted(pmm.Value())
    modifies pmm, pmm.bitmap
    ensures k.Valid() && k.Blocks() == map[]
  {
    hide FreeSet, Represents, FramesOk, Data, Alloc, Exhausted, FreshPages, PagesWord, SmallTaken, Grown, Spares;
    k := new KernelHeap(pmm);
    ArenaOf(k.mem, k.free, k.arena);
    NothingFits(4064);
    var r := k.Kmalloc(4064, ram);
    ghost var d := k.Blocks();
    OnlyBlock(d, BASE);
    AloneSpares(k.arena, d[BASE].pages);
    k.Kfree(r);
    assert d - {BASE} == map[];
  }

  lemma NothingFits(n: nat)
    requires 0 < n <= SMALL_MAX && n % 16 == 0
    ensures ArenaOk(EMPTY) && Fit(EMPTY, n) == 0 && Rounded(n) == n <= MAX_REQUEST
  {
  }

  lemma OnlyBlock(d: map<nat, Block>, b: nat)
    requires b in d && d - {b} == map[]
    ensures d.Keys == {b}
  {
    forall a | a in d ensures a == b {
      assert a != b ==> a in d - {b};
    }
  }

  lemma AloneSpares(h: Arena, n: nat)
    requires SmallTaken(Grown(EMPTY), 0, 4064, h)
    ensures Spares(h, BASE, n)
  {
    assert Grown(EMPTY).tiles == map[BASE := Tile(PAGE_SIZE, PAGE_SIZE - HEADER, Free)];
    assert h.tiles.Keys == {BASE};
  }

  // ---- a block whose owner writes ----

  /** The arena after one block of 64 bytes, after its release, after one block of 16, and after two. */
  const ONE_OF_64 := Arena([BASE + 88], map[BASE := Tile(88, 64, Small), BASE + 88 := Tile(4008, 3984, Free)],
                           BASE + PAGE_SIZE)
  const ALL_FREE := Arena([BASE], map[BASE := Tile(PAGE_SIZE, 4072, Free)], BASE + PAGE_SIZE)
  const ONE_OF_16 := Arena([BASE + 40], map[BASE := Tile(40, 16, Small), BASE + 40 := Tile(4056, 4032, Free)],
                           BASE + PAGE_SIZE)

  lemma TakeSixtyFour(h: Arena)
    requires SmallTaken(Grown(EMPTY), 0, 64, h)
    ensures h == ONE_OF_64
  {
    assert Grown(EMPTY) == Arena([BASE], map[BASE := Tile(PAGE_SIZE, 4072, Free)], BASE + PAGE_SIZE);
  }

  lemma FreeSixtyFour(h: Arena)
    requires FreedTo(ONE_OF_64, BASE, 0, h)
    ensures h == ALL_FREE && BASE + 48 !in FreeWords(ONE_OF_64.list, BASE)
  {
    assert SlotFrom(ONE_OF_64.list, BASE, 0) == 0;
    var r := Released(ONE_OF_64, BASE);
    assert r == Arena([BASE, BASE + 88], map[BASE := Tile(88, 64, Free), BASE + 88 := Tile(4008, 3984, Free)],
                      BASE + PAGE_SIZE);
    assert Adjacent(r, 0);
  }

  lemma SixteenFits()
    ensures ArenaOk(ALL_FREE) ==> FitIn(ALL_FREE, 16) && Fit(ALL_FREE, 16) == 0
    ensures ArenaOk(ONE_OF_16) ==> FitIn(ONE_OF_16, 16) && Fit(ONE_OF_16, 16) == 0
    ensures Rounded(16) == 16
  {
    hide ArenaOk;
  }

  lemma TakeSixteen(h: Arena)
    requires SmallTaken(ALL_FREE, 0, 16, h)
    ensures h == ONE_OF_16 && BASE + 48 !in TakeWords(ALL_FREE.list, 0, 16)
  {
  }

  lemma SharedPage(h: Arena, n: nat)
    requires SmallTaken(ONE_OF_16, 0, 16, h) && n > 0
    ensures !Spares(h, BASE + 40, n)
  {
    assert h.tiles[BASE] == Tile(40, 16, Small);
    assert PageStart(BASE + 40) == BASE;
    assert !Misses(h.tiles, BASE + 40, n, BASE);
  }

  /** A request for 16 bytes that the first free block meets. */
  lemma TakesFirst(h: Arena, m: Mem, p: Pool, ram: nat -> Words, r: nat, m': Mem, h': Arena, d': map<nat, Block>,
                   p': Pool)
    requires FitIn(h, 16) && Fit(h, 16) == 0
    requires Placed(h, m, p, ram, 16, r, h', d', p') && TakenOnly(h, 16, m, m')
    ensures h.list != [] && r == h.list[0] + HEADER && SmallTaken(h, 0, 16, h')
    ensures OnlyAt(m, m', TakeWords(h.list, 0, 16))
    ensures h.list[0] in d' && PagesWord(m, h.list[0], d'[h.list[0]].pages)
  {
    hide ArenaOk, OnlyAt, PagesWord, TakeFree, TakeWords, Fit;
  }

  /** The first half of the run: the word that the owner wrote is still in the free page. */
  method WriteAndFree(pmm: FrameAllocator, ram: nat -> Words, v: nat) returns (k: KernelHeap)
    requires pmm.Valid() && 0 !in pmm.Value().free && !Exhausted(pmm.Value())
    requires forall f: nat, i | 0 <= i < PAGE_WORDS :: ram(f)[i] == 0
    modifies pmm, pmm.bitmap
    ensures fresh(k) && k.Valid() && k.pmm == pmm && k.arena == ALL_FREE
    ensures k.Blocks() == map[] && PagesWord(k.mem, BASE + 40, v)
  {
    hide FreeSet, Represents, FramesOk, Data, Alloc, Exhausted, SmallTaken, Grown, Spares, OnlyAt, Backed, Load,
         FreeWords, FreedTo;
    k := new KernelHeap(pmm);
    ArenaOf(k.mem, k.free, k.arena);
    NothingFits(64);
    var r := k.Kmalloc(64, ram);
    TakeSixtyFour(k.arena);
    OnlyBlock(k.Blocks(), BASE);
    k.Write(BASE, 3, v);
    PayloadWord(k.mem, k.free, k.arena, BASE, 3);
    ghost var m, d := k.mem, k.Blocks();
    NoneToSpare(k.arena, BASE);
    k.Kfree(r);
    FreeSixtyFour(k.arena);
    Unwritten(m, k.mem, FreeWords(ONE_OF_64.list, BASE), BASE + 48);
    assert d - {BASE} == map[];
  }

  /** All frames hold zeros. A block of 64 bytes, a word that its owner writes, kfree, and two blocks of 16 bytes:
      the second has that word for its pages word, and kfree of it takes the page away from the first. */
  method OwnerWrites(pmm: FrameAllocator, ram: nat -> Words, v: nat)
    returns (k: KernelHeap, ghost left: map<nat, Block>)
    requires pmm.Valid() && 0 !in pmm.Value().free && !Exhausted(pmm.Value()) && v > 0
    requires forall f: nat, i | 0 <= i < PAGE_WORDS :: ram(f)[i] == 0
    modifies pmm, pmm.bitmap
    ensures !k.Valid() && left.Keys == {BASE} && Broken(k.mem, k.free, left)
  {
    hide FreeSet, Represents, FramesOk, Data, Alloc, Exhausted, SmallTaken, Spares, OnlyAt, Backed, Load, TakeWords,
         Placed, TakenOnly, FitIn, Fit, Broken, Rounded;
    k := WriteAndFree(pmm, ram, v);
    ghost var m, p := k.mem, pmm.Value();
    ArenaOf(k.mem, k.free, k.arena);
    SixteenFits();
    var a := k.Kmalloc(16, ram);
    left := k.Blocks();
    TakesFirst(ALL_FREE, m, p, ram, a, k.mem, k.arena, left, pmm.Value());
    OnlyBlock(left, BASE);
    TakeSixteen(k.arena);
    Unwritten(m, k.mem, TakeWords(ALL_FREE.list, 0, 16), BASE + 48);
    ArenaOf(k.mem, k.free, k.arena);
    m, p := k.mem, pmm.Value();
    var b := k.Kmalloc(16, ram);
    TakesFirst(ONE_OF_16, m, p, ram, b, k.mem, k.arena, k.Blocks(), pmm.Value());
    SharedPage(k.arena, v);
    k.Kfree(b);
  }
}
