/** What the header writes of kmalloc and kfree do to the represented arena (kernel/mm/kmalloc.c). */
module HeapEffects {
  import opened Base
  import opened HeapMemory
  import opened HeapArena
  import opened HeapBlocks

  // ---- header writes between mapped words ----

  lemma BlockSizes(m: Mem, a: nat, t: Tile)
    requires BlockOk(m, a, t)
    ensures t.len >= HEADER
  {
  }

  /** A block none of whose size and page words is written stays what it was. */
  lemma BlockKept(m: Mem, m': Mem, w: set<nat>, a: nat, t: Tile)
    requires BlockOk(m, a, t) && OnlyAt(m, m', w) && SameFrames(m, m') && a !in w && a + 8 !in w
    ensures BlockOk(m', a, t)
  {
    hide TileOk, Load;
    assert forall x: nat :: Backed(m', x) <==> Backed(m, x);
  }

  lemma HeadersApart(tiles: map<nat, Tile>, a: nat, c: nat)
    requires Apart(tiles) && a in tiles && c in tiles && a != c && tiles[a].len >= HEADER && tiles[c].len >= HEADER
    ensures a + HEADER <= c || c + HEADER <= a
  {
  }

  /** A resized block whose new size word is written. */
  lemma BlockResized(m: Mem, m': Mem, w: set<nat>, a: nat, t: Tile, b: nat, t': Tile)
    requires BlockOk(m, a, t) && t.kind == Free && OnlyAt(m, m', w) && SameFrames(m, m')
    requires TileOk(b, t') && Present(t') && t'.kind != Large && a <= b && b + t'.len <= a + t.len
    requires Backed(m', b) && Load(m', b) == t'.size
    ensures BlockOk(m', b, t')
  {
    hide Load;
    assert BlockBacked(m', b, t') by {
      hide TileOk;
    }
    HeaderBacked(m', b, t');
  }

  /** The words that linking at position i writes. */
  function LinkWords(list: seq<nat>, i: nat): set<nat>
    requires i <= |list|
  {
    if i == 0 then {} else {list[i - 1] + 16}
  }

  /** The i-th link of the list is set to x. */
  ghost predicate LinkSet(m: Mem, head: nat, m': Mem, head': nat, list: seq<nat>, i: nat, x: nat)
    requires i <= |list|
  {
    && head' == (if i == 0 then x else head)
    && (i > 0 ==> Backed(m', list[i - 1] + 16) && Load(m', list[i - 1] + 16) == x)
  }

  function SplitWords(list: seq<nat>, i: nat, rest: nat): set<nat>
    requires i < |list|
  {
    {list[i], rest, rest + 16} + LinkWords(list, i)
  }

  /** The writes that split block b = list[i]: both sizes, the link to rest, and rest's link. */
  ghost predicate SplitWrites(m: Mem, head: nat, m': Mem, head': nat, list: seq<nat>, i: nat, size: nat, left: nat)
    requires i < |list|
  {
    var b := list[i];
    var rest := b + HEADER + size;
    && OnlyAt(m, m', SplitWords(list, i, rest)) && SameFrames(m, m')
    && Backed(m', b) && Load(m', b) == size
    && Backed(m', rest) && Load(m', rest) == left
    && Backed(m', rest + 16) && Load(m', rest + 16) == LinkAt(list, i + 1)
    && LinkSet(m, head, m', head', list, i, rest)
  }

  /** The i-th free block can be split for size bytes. */
  predicate CanSplit(h: Arena, i: nat, size: nat) {
    i < |h.list| && h.list[i] in h.tiles && Splits(h.tiles[h.list[i]], size) && size % 8 == 0
  }

  function Left(h: Arena, i: nat, size: nat): nat
    requires CanSplit(h, i, size)
  {
    h.tiles[h.list[i]].size - size - HEADER
  }

  /** Splitting the i-th free block. */
  lemma SplitEffect(m: Mem, head: nat, m': Mem, head': nat, h: Arena, i: nat, size: nat)
    requires CanSplit(h, i, size)
    requires SplitWrites(m, head, m', head', h.list, i, size, Left(h, i, size))
    requires Represents(m, head, h)
    ensures Represents(m', head', TakeFree(h, i, size))
    ensures Data(m', TakeFree(h, i, size).tiles) - {h.list[i]} == Data(m, h.tiles)
  {
    hide ArenaOk, Written, Linked, Data, SplitWrites;
    TakeFreeOk(h, i, size);
    SplitWritten(m, head, m', head', h, i, size);
    SplitLinked(m, head, m', head', h, i, size);
    SplitData(m, head, m', head', h, i, size);
  }

  lemma SplitWritten(m: Mem, head: nat, m': Mem, head': nat, h: Arena, i: nat, size: nat)
    requires CanSplit(h, i, size)
    requires SplitWrites(m, head, m', head', h.list, i, size, Left(h, i, size))
    requires ArenaOk(h) && Written(m, h.tiles) && ArenaOk(TakeFree(h, i, size))
    ensures Written(m', TakeFree(h, i, size).tiles)
  {
    hide Gapless, Apart, NoneMissing, Distinct, BlockOk, OnlyAt, SameFrames, Load, Backed, TileOk;
    var b := h.list[i];
    var rest := b + HEADER + size;
    var w := SplitWords(h.list, i, rest);
    var h' := TakeFree(h, i, size);
    SplitShape(b, h.tiles[b], size);
    BlockResized(m, m', w, b, h.tiles[b], b, h'.tiles[b]);
    BlockResized(m, m', w, b, h.tiles[b], rest, h'.tiles[rest]);
    forall a | a in h'.tiles && a != b && a != rest ensures BlockOk(m', a, h'.tiles[a]) {
      assert h'.tiles[a] == h.tiles[a];
      BlockSizes(m, a, h.tiles[a]);
      BlockSizes(m', rest, h'.tiles[rest]);
      BlockSizes(m', b, h'.tiles[b]);
      HeadersApart(h'.tiles, a, b);
      HeadersApart(h'.tiles, a, rest);
      PrevApart(m, h, i, a);
      BlockKept(m, m', w, a, h.tiles[a]);
    }
  }

  /** No size or page word is a link word, and list members have links of their own. */
  lemma PrevApart(m: Mem, h: Arena, i: nat, a: nat)
    requires i <= |h.list| && a in h.tiles
    requires ArenaOk(h) && Written(m, h.tiles)
    ensures a !in LinkWords(h.list, i) && a + 8 !in LinkWords(h.list, i)
    ensures (forall k | 0 <= k < |h.list| && k + 1 == i :: h.list[k] != a) ==> a + 16 !in LinkWords(h.list, i)
  {
    hide Gapless, Apart, NoneMissing, BlockOk, TileOk, Written, Inside, Shaped;
    if i > 0 {
      var c := h.list[i - 1];
      assert c in h.tiles;
      WrittenSizes(m, h.tiles, c);
      WrittenSizes(m, h.tiles, a);
      if c != a {
        HeadersApart(h.tiles, a, c);
      }
    }
  }

  lemma WrittenSizes(m: Mem, tiles: map<nat, Tile>, a: nat)
    requires Written(m, tiles) && a in tiles
    ensures BlockOk(m, a, tiles[a]) && tiles[a].len >= HEADER
  {
  }

  /** Listed blocks other than the written ones keep their links. */
  lemma LinkKept(m: Mem, head: nat, m': Mem, list: seq<nat>, w: set<nat>, k: nat)
    requires Linked(m, head, list) && OnlyAt(m, m', w) && k < |list| && list[k] + 16 !in w
    ensures LinkOk(m', list, k)
  {
    hide Load, Backed;
    assert LinkOk(m, list, k);
  }

  lemma SplitLinked(m: Mem, head: nat, m': Mem, head': nat, h: Arena, i: nat, size: nat)
    requires CanSplit(h, i, size)
    requires SplitWrites(m, head, m', head', h.list, i, size, Left(h, i, size))
    requires Represents(m, head, h) && ArenaOk(TakeFree(h, i, size)) && Written(m', TakeFree(h, i, size).tiles)
    ensures Linked(m', head', TakeFree(h, i, size).list)
  {
    hide Tiling, NoneMissing, BlockOk, OnlyAt, Load, Backed, TileOk, Linked, LinkOk, Written;
    var b := h.list[i];
    var rest := b + HEADER + size;
    var w := SplitWords(h.list, i, rest);
    var h' := TakeFree(h, i, size);
    assert rest !in h.tiles by {
      NewBlock(h, i, size);
    }
    forall k | 0 <= k < |h.list| && k != i && k + 1 != i ensures LinkOk(m', h.list, k) {
      SplitLinkApart(m, m', h, i, size, k);
      LinkKept(m, head, m', h.list, w, k);
    }
    ReplaceLink(m, head, m', head', h.list, i, rest);
  }

  lemma NewBlock(h: Arena, i: nat, size: nat)
    requires CanSplit(h, i, size) && ArenaOk(h)
    ensures h.list[i] + HEADER + size !in h.tiles
  {
    hide Gapless, NoneMissing, Distinct;
    ShapeAt(h.tiles, BASE, h.next, h.list[i]);
    SplitApart(h.tiles, h.list[i], size);
  }

  lemma SplitLinkApart(m: Mem, m': Mem, h: Arena, i: nat, size: nat, k: nat)
    requires CanSplit(h, i, size) && k < |h.list| && k != i && k + 1 != i
    requires ArenaOk(h) && Written(m, h.tiles) && ArenaOk(TakeFree(h, i, size))
      && Written(m', TakeFree(h, i, size).tiles)
    ensures h.list[k] + 16 !in SplitWords(h.list, i, h.list[i] + HEADER + size)
  {
    hide Gapless, Apart, NoneMissing, BlockOk, TileOk, Written, Inside, Shaped;
    var a, b := h.list[k], h.list[i];
    var rest := b + HEADER + size;
    var h' := TakeFree(h, i, size);
    NewBlock(h, i, size);
    assert a != b && a in h.tiles;
    WrittenSizes(m', h'.tiles, a);
    WrittenSizes(m', h'.tiles, b);
    WrittenSizes(m', h'.tiles, rest);
    HeadersApart(h'.tiles, a, b);
    HeadersApart(h'.tiles, a, rest);
    PrevApart(m, h, i, a);
  }

  /** Link words are header words of listed blocks. */
  lemma LinkHeader(m: Mem, h: Arena, i: nat)
    requires i <= |h.list|
    requires ArenaOk(h) && Written(m, h.tiles)
    ensures i > 0 ==> HeaderWord(h.tiles, h.list[i - 1], h.list[i - 1] + 16)
  {
    hide Gapless, Apart, NoneMissing, Distinct, BlockOk, Written;
    if i > 0 {
      assert h.list[i - 1] in h.tiles;
      WrittenSizes(m, h.tiles, h.list[i - 1]);
    }
  }

  lemma SplitData(m: Mem, head: nat, m': Mem, head': nat, h: Arena, i: nat, size: nat)
    requires CanSplit(h, i, size)
    requires SplitWrites(m, head, m', head', h.list, i, size, Left(h, i, size))
    requires Represents(m, head, h) && ArenaOk(TakeFree(h, i, size)) && Written(m', TakeFree(h, i, size).tiles)
    ensures Data(m', TakeFree(h, i, size).tiles) - {h.list[i]} == Data(m, h.tiles)
  {
    hide Gapless, Apart, NoneMissing, BlockOk, OnlyAt, Load, Backed, TileOk, Inside, Shaped, Held, Linked, Written;
    var b := h.list[i];
    var rest := b + HEADER + size;
    var h' := TakeFree(h, i, size);
    NewBlock(h, i, size);
    WrittenSizes(m', h'.tiles, b);
    WrittenSizes(m', h'.tiles, rest);
    LinkHeader(m, h, i);
    assert HeaderWord(h'.tiles, b, b) && HeaderWord(h'.tiles, rest, rest) && HeaderWord(h'.tiles, rest, rest + 16);
    assert i > 0 ==> HeaderWord(h'.tiles, h.list[i - 1], h.list[i - 1] + 16);
    DataKept(m, m', h.tiles, h'.tiles, SplitWords(h.list, i, rest), b);
    assert b !in Data(m, h.tiles);
  }

  // ---- taking a whole block ----

  ghost predicate UnlinkWrites(m: Mem, head: nat, m': Mem, head': nat, list: seq<nat>, i: nat)
    requires i < |list|
  {
    OnlyAt(m, m', LinkWords(list, i)) && SameFrames(m, m') && LinkSet(m, head, m', head', list, i, LinkAt(list, i + 1))
  }

  predicate CanTakeWhole(h: Arena, i: nat, size: nat) {
    i < |h.list| && h.list[i] in h.tiles && h.tiles[h.list[i]].size >= size && !Splits(h.tiles[h.list[i]], size)
    && size % 8 == 0
  }

  lemma UnlinkEffect(m: Mem, head: nat, m': Mem, head': nat, h: Arena, i: nat, size: nat)
    requires CanTakeWhole(h, i, size) && UnlinkWrites(m, head, m', head', h.list, i)
    requires Represents(m, head, h)
    ensures Represents(m', head', TakeFree(h, i, size))
    ensures Data(m', TakeFree(h, i, size).tiles) - {h.list[i]} == Data(m, h.tiles)
  {
    hide ArenaOk, Written, Linked, Data, UnlinkWrites;
    TakeFreeOk(h, i, size);
    UnlinkWritten(m, head, m', head', h, i, size);
    UnlinkLinked(m, head, m', head', h, i);
    UnlinkData(m, head, m', head', h, i, size);
  }

  lemma UnlinkWritten(m: Mem, head: nat, m': Mem, head': nat, h: Arena, i: nat, size: nat)
    requires CanTakeWhole(h, i, size) && UnlinkWrites(m, head, m', head', h.list, i)
    requires ArenaOk(h) && Written(m, h.tiles)
    ensures Written(m', TakeFree(h, i, size).tiles)
  {
    hide Gapless, Apart, NoneMissing, Distinct, BlockOk, OnlyAt, SameFrames, Load, Backed, TileOk;
    var b := h.list[i];
    forall a | a in h.tiles ensures BlockOk(m', a, h.tiles[a]) {
      PrevApart(m, h, i, a);
      BlockKept(m, m', LinkWords(h.list, i), a, h.tiles[a]);
    }
    BlockTaken(m', b, h.tiles[b], Small);
  }

  /** Free and live small blocks look alike in memory. */
  lemma BlockTaken(m: Mem, a: nat, t: Tile, kind: Kind)
    requires BlockOk(m, a, t) && (t.kind == Free || t.kind == Small) && (kind == Free || kind == Small)
    ensures BlockOk(m, a, t.(kind := kind))
  {
  }

  lemma UnlinkLinked(m: Mem, head: nat, m': Mem, head': nat, h: Arena, i: nat)
    requires i < |h.list| && UnlinkWrites(m, head, m', head', h.list, i)
    requires Represents(m, head, h)
    ensures Linked(m', head', Without(h.list, i))
  {
    hide Tiling, NoneMissing, BlockOk, OnlyAt, Load, Backed, TileOk, Linked, LinkOk, Written;
    forall k | 0 <= k < |h.list| && k != i && k + 1 != i ensures LinkOk(m', h.list, k) {
      assert h.list[k] in h.tiles;
      PrevApart(m, h, i, h.list[k]);
      LinkKept(m, head, m', h.list, LinkWords(h.list, i), k);
    }
    RemoveLink(m, head, m', head', h.list, i);
  }

  lemma UnlinkData(m: Mem, head: nat, m': Mem, head': nat, h: Arena, i: nat, size: nat)
    requires CanTakeWhole(h, i, size) && UnlinkWrites(m, head, m', head', h.list, i)
    requires Represents(m, head, h) && ArenaOk(TakeFree(h, i, size)) && Written(m', TakeFree(h, i, size).tiles)
    ensures Data(m', TakeFree(h, i, size).tiles) - {h.list[i]} == Data(m, h.tiles)
  {
    hide Gapless, Apart, NoneMissing, BlockOk, OnlyAt, Load, Backed, TileOk, Inside, Shaped, Held, Linked, Written;
    var b := h.list[i];
    var h' := TakeFree(h, i, size);
    LinkHeader(m, h, i);
    assert i > 0 ==> HeaderWord(h'.tiles, h.list[i - 1], h.list[i - 1] + 16);
    DataKept(m, m', h.tiles, h'.tiles, LinkWords(h.list, i), b);
    assert b !in Data(m, h.tiles);
  }

  // ---- releasing a small block ----

  ghost predicate InsertWrites(m: Mem, head: nat, m': Mem, head': nat, list: seq<nat>, i: nat, b: nat)
    requires i <= |list|
  {
    && OnlyAt(m, m', {b + 16} + LinkWords(list, i)) && SameFrames(m, m')
    && Backed(m', b + 16) && Load(m', b + 16) == LinkAt(list, i)
    && LinkSet(m, head, m', head', list, i, b)
  }

  predicate IsSmall(h: Arena, b: nat) {
    b in h.tiles && h.tiles[b].kind == Small
  }

  lemma InsertEffect(m: Mem, head: nat, m': Mem, head': nat, h: Arena, b: nat)
    requires IsSmall(h, b) && InsertWrites(m, head, m', head', h.list, SlotFrom(h.list, b, 0), b)
    requires Represents(m, head, h)
    ensures Represents(m', head', Released(h, b))
    ensures Data(m', Released(h, b).tiles) == Data(m, h.tiles) - {b}
  {
    hide ArenaOk, Written, Linked, Data, InsertWrites;
    ReleasedOk(h, b);
    InsertWritten(m, head, m', head', h, b);
    InsertLinked(m, head, m', head', h, b);
    InsertData(m, head, m', head', h, b);
  }

  lemma InsertWritten(m: Mem, head: nat, m': Mem, head': nat, h: Arena, b: nat)
    requires IsSmall(h, b) && InsertWrites(m, head, m', head', h.list, SlotFrom(h.list, b, 0), b)
    requires ArenaOk(h) && Written(m, h.tiles)
    ensures Written(m', Released(h, b).tiles)
  {
    hide Gapless, Apart, NoneMissing, Distinct, BlockOk, OnlyAt, SameFrames, Load, Backed, TileOk;
    var i := SlotFrom(h.list, b, 0);
    forall a | a in h.tiles ensures BlockOk(m', a, h.tiles[a]) {
      PrevApart(m, h, i, a);
      BlockSizes(m, a, h.tiles[a]);
      BlockSizes(m, b, h.tiles[b]);
      if a != b {
        HeadersApart(h.tiles, a, b);
      }
      BlockKept(m, m', {b + 16} + LinkWords(h.list, i), a, h.tiles[a]);
    }
    BlockTaken(m', b, h.tiles[b], Free);
  }

  lemma InsertLinked(m: Mem, head: nat, m': Mem, head': nat, h: Arena, b: nat)
    requires IsSmall(h, b) && InsertWrites(m, head, m', head', h.list, SlotFrom(h.list, b, 0), b)
    requires Represents(m, head, h)
    ensures Linked(m', head', Released(h, b).list)
  {
    hide Tiling, NoneMissing, BlockOk, OnlyAt, Load, Backed, TileOk, Linked, LinkOk, Written;
    var i := SlotFrom(h.list, b, 0);
    forall k | 0 <= k < |h.list| && k + 1 != i ensures LinkOk(m', h.list, k) {
      assert h.list[k] in h.tiles && h.list[k] != b;
      PrevApart(m, h, i, h.list[k]);
      LinkKept(m, head, m', h.list, {b + 16} + LinkWords(h.list, i), k);
    }
    InsertLink(m, head, m', head', h.list, i, b);
  }

  lemma InsertData(m: Mem, head: nat, m': Mem, head': nat, h: Arena, b: nat)
    requires IsSmall(h, b) && InsertWrites(m, head, m', head', h.list, SlotFrom(h.list, b, 0), b)
    requires Represents(m, head, h) && ArenaOk(Released(h, b)) && Written(m', Released(h, b).tiles)
    ensures Data(m', Released(h, b).tiles) == Data(m, h.tiles) - {b}
  {
    hide Gapless, Apart, NoneMissing, BlockOk, OnlyAt, Load, Backed, TileOk, Inside, Shaped, Held, Linked, Written;
    var i := SlotFrom(h.list, b, 0);
    var h' := Released(h, b);
    LinkHeader(m, h, i);
    WrittenSizes(m, h.tiles, b);
    assert i > 0 ==> HeaderWord(h'.tiles, h.list[i - 1], h.list[i - 1] + 16);
    assert HeaderWord(h'.tiles, b, b + 16);
    DataKept(m, m', h.tiles, h'.tiles, {b + 16} + LinkWords(h.list, i), b);
    assert b !in Data(m', h'.tiles);
  }

  // ---- merging with the next listed block ----

  ghost predicate MergeWrites(m: Mem, m': Mem, list: seq<nat>, i: nat, size: nat)
    requires i + 1 < |list|
  {
    var b := list[i];
    && OnlyAt(m, m', {b, b + 16}) && SameFrames(m, m')
    && Backed(m', b) && Load(m', b) == size
    && Backed(m', b + 16) && Load(m', b + 16) == LinkAt(list, i + 2)
  }

  predicate CanMerge(h: Arena, i: nat) {
    && i + 1 < |h.list| && h.list[i] in h.tiles && h.list[i + 1] in h.tiles
    && h.tiles[h.list[i]].len >= HEADER && End(h.tiles, h.list[i]) == h.list[i + 1]
  }

  function MergedSize(h: Arena, i: nat): nat
    requires CanMerge(h, i)
  {
    h.tiles[h.list[i]].size + HEADER + h.tiles[h.list[i + 1]].size
  }

  lemma MergeEffect(m: Mem, head: nat, m': Mem, h: Arena, i: nat)
    requires CanMerge(h, i) && MergeWrites(m, m', h.list, i, MergedSize(h, i))
    requires Represents(m, head, h)
    ensures Represents(m', head, Merged(h, i))
    ensures Data(m', Merged(h, i).tiles) == Data(m, h.tiles)
  {
    hide ArenaOk, Written, Linked, Data, MergeWrites;
    MergedOk(h, i);
    MergeWritten(m, m', h, i);
    MergeLinked(m, head, m', h, i);
    MergeData(m, m', h, i);
  }

  lemma BlocksJoined(m: Mem, m': Mem, w: set<nat>, b: nat, t: Tile, s: Tile)
    requires BlockOk(m, b, t) && BlockOk(m, b + t.len, s) && t.kind == Free && s.kind == Free
    requires OnlyAt(m, m', w) && SameFrames(m, m')
    requires Backed(m', b) && Load(m', b) == t.size + HEADER + s.size
    ensures t.len >= HEADER && BlockOk(m', b, MergedTile(t, s))
  {
    hide Load;
    MergeShape(b, t, s, b + t.len);
    assert BlockBacked(m', b, MergedTile(t, s)) by {
      hide TileOk;
    }
    HeaderBacked(m', b, MergedTile(t, s));
  }

  lemma MergeWritten(m: Mem, m': Mem, h: Arena, i: nat)
    requires CanMerge(h, i) && MergeWrites(m, m', h.list, i, MergedSize(h, i))
    requires ArenaOk(h) && Written(m, h.tiles)
    ensures Written(m', Merged(h, i).tiles)
  {
    hide Gapless, Apart, NoneMissing, Distinct, BlockOk, OnlyAt, SameFrames, Load, Backed, TileOk;
    var b, s := h.list[i], h.list[i + 1];
    forall a | a in h.tiles && a != b && a != s ensures BlockOk(m', a, h.tiles[a]) {
      BlockSizes(m, a, h.tiles[a]);
      BlockSizes(m, b, h.tiles[b]);
      HeadersApart(h.tiles, a, b);
      BlockKept(m, m', {b, b + 16}, a, h.tiles[a]);
    }
    BlocksJoined(m, m', {b, b + 16}, b, h.tiles[b], h.tiles[s]);
  }

  lemma MergeLinked(m: Mem, head: nat, m': Mem, h: Arena, i: nat)
    requires CanMerge(h, i) && MergeWrites(m, m', h.list, i, MergedSize(h, i))
    requires Represents(m, head, h)
    ensures Linked(m', head, Merged(h, i).list)
  {
    hide Tiling, NoneMissing, BlockOk, OnlyAt, Load, Backed, TileOk, Linked, LinkOk, Written;
    var b := h.list[i];
    forall k | 0 <= k < |h.list| && k != i + 1 && k + 1 != i + 1 ensures LinkOk(m', h.list, k) {
      var a := h.list[k];
      assert a in h.tiles && a != b;
      WrittenSizes(m, h.tiles, a);
      WrittenSizes(m, h.tiles, b);
      ApartHeaders(h, a, b);
      LinkKept(m, head, m', h.list, {b, b + 16}, k);
    }
    assert head == LinkAt(h.list, 0) by {
      assert Linked(m, head, h.list);
      HeadIs(m, head, h.list);
    }
    RemoveLink(m, head, m', head, h.list, i + 1);
  }

  lemma HeadIs(m: Mem, head: nat, list: seq<nat>)
    requires Linked(m, head, list)
    ensures head == LinkAt(list, 0)
  {
  }

  lemma ApartHeaders(h: Arena, a: nat, b: nat)
    requires a in h.tiles && b in h.tiles && a != b && h.tiles[a].len >= HEADER && h.tiles[b].len >= HEADER
    requires ArenaOk(h)
    ensures a + HEADER <= b || b + HEADER <= a
  {
    hide Gapless, Apart, Listed, Shaped, Inside;
    HeadersApart(h.tiles, a, b);
  }

  lemma MergeData(m: Mem, m': Mem, h: Arena, i: nat)
    requires CanMerge(h, i) && MergeWrites(m, m', h.list, i, MergedSize(h, i))
    requires ArenaOk(h) && Written(m, h.tiles) && ArenaOk(Merged(h, i)) && Written(m', Merged(h, i).tiles)
    ensures Data(m', Merged(h, i).tiles) == Data(m, h.tiles)
  {
    hide Gapless, Apart, NoneMissing, BlockOk, OnlyAt, Load, Backed, TileOk, Inside, Shaped, Held, Written;
    var b := h.list[i];
    var h' := Merged(h, i);
    WrittenSizes(m', h'.tiles, b);
    assert HeaderWord(h'.tiles, b, b) && HeaderWord(h'.tiles, b, b + 16);
    DataKept(m, m', h.tiles, h'.tiles, {b, b + 16}, b);
    var d, d' := Data(m, h.tiles), Data(m', h'.tiles);
    assert b !in d && b !in d';
    assert d - {b} == d && d' - {b} == d';
  }

  // ---- pages ----

  /** Words outside [lo, hi) are mapped as before and hold what they held. */
  ghost predicate SameOutside(m: Mem, m': Mem, lo: nat, hi: nat) {
    forall x: nat | x < lo || hi <= x :: (Backed(m', x) <==> Backed(m, x))
      && (Backed(m, x) ==> Load(m', x) == Load(m, x))
  }

  lemma BlockOutside(m: Mem, m': Mem, lo: nat, hi: nat, a: nat, t: Tile)
    requires BlockOk(m, a, t) && SameOutside(m, m', lo, hi) && (a + t.len <= lo || hi <= a)
    ensures BlockOk(m', a, t) && (Present(t) ==> Held(m', a, t) == Held(m, a, t))
  {
    hide Backed, Load;
    SizeFits(a, t);
    hide TileOk;
    assert BlockBacked(m', a, t);
    if Present(t) {
      PayloadBacked(m, a, t);
      PayloadBacked(m', a, t);
      assert Held(m', a, t) == Held(m, a, t);
    }
  }

  lemma LinkedOutside(m: Mem, head: nat, m': Mem, list: seq<nat>, lo: nat, hi: nat)
    requires Linked(m, head, list) && SameOutside(m, m', lo, hi)
    requires forall k | 0 <= k < |list| :: list[k] + HEADER <= lo || hi <= list[k]
    ensures Linked(m', head, list)
  {
    hide Backed, Load;
    forall k | 0 <= k < |list| ensures LinkOk(m', list, k) {
      assert LinkOk(m, list, k);
    }
  }

  /** Pages mapped beyond the arena belong to no block. */
  lemma StrayEffect(m: Mem, head: nat, m': Mem, h: Arena, hi: nat)
    requires SameOutside(m, m', h.next, hi) && Represents(m, head, h)
    ensures Represents(m', head, h) && Data(m', h.tiles) == Data(m, h.tiles)
  {
    hide Gapless, Apart, Listed, BlockOk, OnlyAt, Load, Backed, TileOk, Shaped, SameOutside, Held, Linked, LinkOk;
    forall a | a in h.tiles
      ensures BlockOk(m', a, h.tiles[a])
      ensures Present(h.tiles[a]) ==> Held(m', a, h.tiles[a]) == Held(m, a, h.tiles[a])
    {
      assert End(h.tiles, a) <= h.next;
      BlockOutside(m, m', h.next, hi, a, h.tiles[a]);
    }
    ListBelow(m, h);
    LinkedOutside(m, head, m', h.list, h.next, hi);
  }

  /** heap_grow_page: a fresh page at the end holds a free block, in front of the list. */
  lemma GrowEffect(m: Mem, head: nat, m': Mem, h: Arena)
    requires SameOutside(m, m', h.next, h.next + PAGE_SIZE)
    requires BlockOk(m', h.next, Tile(PAGE_SIZE, PAGE_SIZE - HEADER, Free))
    requires Backed(m', h.next + 16) && Load(m', h.next + 16) == head
    requires Represents(m, head, h)
    ensures Represents(m', h.next, Grown(h)) && Data(m', Grown(h).tiles) == Data(m, h.tiles)
  {
    hide Gapless, Apart, Listed, BlockOk, OnlyAt, Load, Backed, TileOk, Shaped, SameOutside, Held, Linked, LinkOk;
    GrownOk(h);
    var h' := Grown(h);
    forall a | a in h.tiles
      ensures BlockOk(m', a, h.tiles[a])
      ensures Present(h.tiles[a]) ==> Held(m', a, h.tiles[a]) == Held(m, a, h.tiles[a])
    {
      assert End(h.tiles, a) <= h.next;
      BlockOutside(m, m', h.next, h.next + PAGE_SIZE, a, h.tiles[a]);
    }
    ListBelow(m, h);
    LinkedOutside(m, head, m', h.list, h.next, h.next + PAGE_SIZE);
    HeadIs(m, head, h.list);
    PushLink(m', head, h.list, h.next);
    assert With(h.list, 0, h.next) == h'.list;
  }

  lemma PushLink(m: Mem, head: nat, list: seq<nat>, b: nat)
    requires Linked(m, head, list) && Backed(m, b + 16) && Load(m, b + 16) == head
    ensures Linked(m, b, With(list, 0, b))
  {
    hide Backed, Load;
    InsertLink(m, head, m, b, list, 0, b);
  }

  lemma ListBelow(m: Mem, h: Arena)
    requires ArenaOk(h) && Written(m, h.tiles)
    ensures forall k | 0 <= k < |h.list| :: h.list[k] + HEADER <= h.next
  {
    hide Gapless, Apart, NoneMissing, Distinct, BlockOk, Shaped, Written;
    forall k | 0 <= k < |h.list| ensures h.list[k] + HEADER <= h.next {
      WrittenSizes(m, h.tiles, h.list[k]);
      assert End(h.tiles, h.list[k]) <= h.next;
    }
  }

  /** The large case of kmalloc: whole fresh pages at the end. */
  lemma LargeEffect(m: Mem, head: nat, m': Mem, h: Arena, size: nat, pages: nat)
    requires SameOutside(m, m', h.next, h.next + pages * PAGE_SIZE)
    requires BlockOk(m', h.next, Tile(pages * PAGE_SIZE, size, Large))
    requires Represents(m, head, h)
    ensures Represents(m', head, TakeLarge(h, size, pages))
    ensures Data(m', TakeLarge(h, size, pages).tiles) - {h.next} == Data(m, h.tiles)
  {
    hide Gapless, Apart, Listed, BlockOk, OnlyAt, Load, Backed, Shaped, SameOutside, Held, Linked, LinkOk;
    assert TileOk(h.next, Tile(pages * PAGE_SIZE, size, Large)) by {
      WrittenShape(m', h.next, Tile(pages * PAGE_SIZE, size, Large));
    }
    TakeLargeOk(h, size, pages);
    hide TileOk;
    var h' := TakeLarge(h, size, pages);
    forall a | a in h.tiles
      ensures BlockOk(m', a, h.tiles[a])
      ensures Present(h.tiles[a]) ==> Held(m', a, h.tiles[a]) == Held(m, a, h.tiles[a])
    {
      assert End(h.tiles, a) <= h.next;
      BlockOutside(m, m', h.next, h.next + pages * PAGE_SIZE, a, h.tiles[a]);
    }
    ListBelow(m, h);
    LinkedOutside(m, head, m', h.list, h.next, h.next + pages * PAGE_SIZE);
  }

  lemma WrittenShape(m: Mem, a: nat, t: Tile)
    requires BlockOk(m, a, t)
    ensures TileOk(a, t)
  {
  }

  lemma BlocksDisjoint(h: Arena, a: nat, b: nat)
    requires a in h.tiles && b in h.tiles && a != b && ArenaOk(h)
    ensures End(h.tiles, a) <= b || End(h.tiles, b) <= a
  {
    hide Gapless, Listed, Shaped, Inside;
  }

  /** The words of [lo, hi) are unmapped, and nothing else changes. */
  ghost predicate Unmaps(m: Mem, m': Mem, lo: nat, hi: nat) {
    SameOutside(m, m', lo, hi) && forall x: nat | lo <= x < hi :: !Backed(m', x)
  }

  /** kfree that unmaps n pages from that of b on. */
  ghost predicate Drops(m: Mem, m': Mem, b: nat, n: nat) {
    n > 0 && Unmaps(m, m', PageStart(b), PageStart(b) + n * PAGE_SIZE)
  }

  /** The block is live, and n is what its pages word may hold. */
  predicate Holds(h: Arena, b: nat, n: nat) {
    b in h.tiles && Live(h.tiles[b]) && PagesOk(h.tiles[b], n)
  }

  /** The release of pages without a byte of another block in use. */
  lemma ReleaseEffect(m: Mem, head: nat, m': Mem, h: Arena, b: nat, n: nat)
    requires Drops(m, m', b, n) && Holds(h, b, n) && Spares(h, b, n)
    requires Represents(m, head, h)
    ensures Represents(m', head, FreedPages(h, b, n))
    ensures Data(m', FreedPages(h, b, n).tiles) == Data(m, h.tiles) - {b}
  {
    hide ArenaOk, BlockOk, Drops, Held, Linked, LinkOk;
    FreedPagesOk(h, b, n);
    forall a | a in h.tiles && a != b
      ensures BlockOk(m', a, h.tiles[a])
      ensures Present(h.tiles[a]) ==> Held(m', a, h.tiles[a]) == Held(m, a, h.tiles[a])
    {
      SparedBlock(m, m', h, b, n, a);
    }
    DroppedBlock(m, m', b, h.tiles[b], n);
    ReleaseLinked(m, head, m', h, b, n);
  }

  lemma SparedBlock(m: Mem, m': Mem, h: Arena, b: nat, n: nat, a: nat)
    requires Drops(m, m', b, n) && Spares(h, b, n) && a in h.tiles && a != b && BlockOk(m, a, h.tiles[a])
    ensures BlockOk(m', a, h.tiles[a])
    ensures Present(h.tiles[a]) ==> Held(m', a, h.tiles[a]) == Held(m, a, h.tiles[a])
  {
    hide Held, Backed, Load, TileOk, HeaderOk;
    if Present(h.tiles[a]) {
      hide BlockOk, PageStart;
      BlockOutside(m, m', PageStart(b), PageStart(b) + n * PAGE_SIZE, a, h.tiles[a]);
    } else {
      NothingMore(m, m', b, n);
    }
  }

  lemma NothingMore(m: Mem, m': Mem, b: nat, n: nat)
    requires Drops(m, m', b, n)
    ensures forall x: nat | Backed(m', x) :: Backed(m, x) && Load(m', x) == Load(m, x)
  {
    hide Backed, Load, PageStart;
  }

  /** The block itself is gone, or what is left of it lost. */
  lemma DroppedBlock(m: Mem, m': Mem, b: nat, t: Tile, n: nat)
    requires Drops(m, m', b, n) && BlockOk(m, b, t) && Live(t) && PagesOk(t, n)
    ensures BlockOk(m', b, t.(kind := if WholePages(b, t, n) then Gone else Lost))
  {
    hide Backed, Load, SameOutside, HeaderOk;
    if WholePages(b, t, n) {
      assert PageStart(b) == b;
    }
  }

  lemma ReleaseLinked(m: Mem, head: nat, m': Mem, h: Arena, b: nat, n: nat)
    requires Drops(m, m', b, n) && Holds(h, b, n) && Spares(h, b, n)
    requires Represents(m, head, h)
    ensures Linked(m', head, h.list)
  {
    hide Tiling, NoneMissing, Distinct, BlockOk, SameOutside, Linked, LinkOk, Written, PageStart;
    var lo := PageStart(b);
    var hi := lo + n * PAGE_SIZE;
    forall k | 0 <= k < |h.list| ensures h.list[k] + HEADER <= lo || hi <= h.list[k] {
      WrittenSizes(m, h.tiles, h.list[k]);
      assert Misses(h.tiles, b, n, h.list[k]);
    }
    LinkedOutside(m, head, m', h.list, lo, hi);
  }

  // ---- a release that touches another block in use ----

  /** All the blocks of d are there, with what they held. */
  ghost predicate Keeps(d: map<nat, Block>, d': map<nat, Block>) {
    forall a | a in d :: a in d' && d'[a] == d[a]
  }

  /** No reading of the memory as an arena has all the blocks of d. */
  ghost predicate Broken(m: Mem, head: nat, d: map<nat, Block>) {
    forall h | Represents(m, head, h) :: !Keeps(d, Data(m, h.tiles))
  }

  lemma PageStartWord(b: nat)
    ensures PageStart(b) % 8 == 0
  {
    PageWord(b / PAGE_SIZE);
  }

  lemma PageWord(p: nat)
    ensures p * PAGE_SIZE % 8 == 0
  {
  }

  /** A block that a release touches is not whole any more. */
  lemma TouchedBlock(m: Mem, m': Mem, b: nat, n: nat, a: nat, t: Tile)
    requires Drops(m, m', b, n) && a % 8 == 0 && PageStart(b) < a + t.len && a < PageStart(b) + n * PAGE_SIZE
    ensures BlockOk(m', a, t) ==> !Present(t)
  {
    PageStartWord(b);
    hide Backed, Load, SameOutside, HeaderOk, PageStart;
    if t.len > 0 {
      var x := if a < PageStart(b) then PageStart(b) else a;
      assert a <= x < a + t.len && x % 8 == 0 && !Backed(m', x);
    }
  }

  /** The free list is still followed from block to block as long as the links are mapped. */
  lemma {:induction false} ListAgain(m: Mem, m': Mem, head: nat, list: seq<nat>, list': seq<nat>, i: nat)
    requires Linked(m, head, list) && Linked(m', head, list') && i < |list|
    requires forall k | 0 <= k < |list| :: list[k] != 0
    requires forall x: nat | Backed(m', x) :: Backed(m, x) && Load(m', x) == Load(m, x)
    ensures i < |list'| && list'[i] == list[i]
  {
    hide Backed, Load;
    if i > 0 {
      ListAgain(m, m', head, list, list', i - 1);
      assert LinkOk(m, list, i - 1) && LinkOk(m', list', i - 1);
    }
  }

  /** A free block that was touched is on the list, and cannot be represented. */
  lemma TouchedFree(m: Mem, head: nat, m': Mem, h: Arena, b: nat, n: nat, a: nat, h': Arena)
    requires Drops(m, m', b, n) && a in h.tiles && h.tiles[a].kind == Free && !Misses(h.tiles, b, n, a)
    requires Represents(m, head, h)
    ensures !Represents(m', head, h')
  {
    hide Tiling, Distinct, Backed, Load, Drops, TileOk, BlockOk, Linked, Written;
    if Represents(m', head, h') {
      var i :| 0 <= i < |h.list| && h.list[i] == a;
      ListNonzero(m, head, h);
      NothingMore(m, m', b, n);
      ListAgain(m, m', head, h.list, h'.list, i);
      SameSize(m, m', h, h', a);
      TouchedBlock(m, m', b, n, a, h'.tiles[a]);
    }
  }
  lemma ListNonzero(m: Mem, head: nat, h: Arena)
    requires Represents(m, head, h)
    ensures forall k | 0 <= k < |h.list| :: h.list[k] != 0
  {
    hide Gapless, Apart, NoneMissing, Distinct, Written, Linked, Shaped;
  }

  lemma SameSize(m: Mem, m': Mem, h: Arena, h': Arena, a: nat)
    requires Written(m, h.tiles) && Written(m', h'.tiles) && a in h.tiles && a in h'.tiles
    requires h.tiles[a].kind == Free && h'.tiles[a].kind == Free
    requires forall x: nat | Backed(m', x) :: Backed(m, x) && Load(m', x) == Load(m, x)
    ensures h'.tiles[a].len == h.tiles[a].len && a % 8 == 0 && BlockOk(m', a, h'.tiles[a])
  {
    hide Backed, Load;
    assert BlockOk(m, a, h.tiles[a]) && BlockOk(m', a, h'.tiles[a]);
  }

  /** A live block that was touched cannot be there with all it held. */
  lemma TouchedLive(m: Mem, head: nat, m': Mem, h: Arena, b: nat, n: nat, a: nat, h': Arena)
    requires Drops(m, m', b, n) && a in h.tiles && a != b && Live(h.tiles[a]) && !Misses(h.tiles, b, n, a)
    requires Represents(m, head, h) && Represents(m', head, h')
    ensures !Keeps(Data(m, h.tiles) - {b}, Data(m', h'.tiles))
  {
    hide ArenaOk, Backed, Load, Drops, TileOk, BlockOk, Linked, Held;
    var d: map<nat, Block>, d': map<nat, Block> := Data(m, h.tiles), Data(m', h'.tiles);
    assert a in d - {b};
    if a in d' && d'[a] == d[a] {
      SameBlock(m, m', a, h.tiles[a], h'.tiles[a]);
      TouchedBlock(m, m', b, n, a, h'.tiles[a]);
    }
  }

  /** What a live block holds tells its extent. */
  lemma SameBlock(m: Mem, m': Mem, a: nat, t: Tile, t': Tile)
    requires BlockOk(m, a, t) && BlockOk(m', a, t') && Live(t) && Live(t') && Held(m, a, t) == Held(m', a, t')
    ensures t'.len == t.len && a % 8 == 0
  {
    hide Backed, Load;
    assert t.kind == t'.kind && t.size == t'.size;
    if t.kind == Large {
      assert t.len == t.len / PAGE_SIZE * PAGE_SIZE && t'.len == t'.len / PAGE_SIZE * PAGE_SIZE;
    }
  }

  /** The release of pages with a byte of another block in use leaves a memory in which no arena has all the
      other live blocks and the list. */
  lemma TouchedBreaks(m: Mem, head: nat, m': Mem, h: Arena, b: nat, n: nat)
    requires Drops(m, m', b, n) && !Spares(h, b, n)
    requires Represents(m, head, h)
    ensures Broken(m', head, Data(m, h.tiles) - {b})
  {
    hide Represents, Drops, Misses, Keeps, Data;
    var a :| a in h.tiles && a != b && Present(h.tiles[a]) && !Misses(h.tiles, b, n, a);
    forall h' | Represents(m', head, h')
      ensures Written(m, h.tiles) && Written(m', h'.tiles) && !Keeps(Data(m, h.tiles) - {b}, Data(m', h'.tiles))
    {
      RepresentsWritten(m, head, h);
      RepresentsWritten(m', head, h');
      if h.tiles[a].kind == Free {
        TouchedFree(m, head, m', h, b, n, a, h');
      } else {
        TouchedLive(m, head, m', h, b, n, a, h');
      }
    }
  }

  lemma RepresentsWritten(m: Mem, head: nat, h: Arena)
    requires Represents(m, head, h)
    ensures Written(m, h.tiles)
  {
  }
}
