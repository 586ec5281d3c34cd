/** The heap arena as a tiling by blocks, and what allocation and release do to it
    (kernel/mm/kmalloc.c). */
module HeapArena {
  import opened Base
  import opened HeapMemory

  const BASE: nat := 0xffff_ffff_8100_0000
  const ALIGN: nat := 16
  const SMALL_MAX: nat := 4072

  /** A free block, a live small block, a live large block, the address range of pages that were released, or
      the range of a small block that kfree took for a large one with fewer pages: nobody uses it any more. */
  datatype Kind = Free | Small | Large | Gone | Lost

  datatype Tile = Tile(len: nat, size: nat, kind: Kind)

  /** list holds the free blocks in free-list order; tiles the blocks by address. */
  datatype Arena = Arena(list: seq<nat>, tiles: map<nat, Tile>, next: nat)

  predicate Live(t: Tile) {
    t.kind == Small || t.kind == Large
  }

  /** A block that the allocator or an owner still uses. */
  predicate Present(t: Tile) {
    t.kind == Free || Live(t)
  }

  predicate TileOk(a: nat, t: Tile) {
    && a % 8 == 0 && t.size % 8 == 0
    && (t.kind == Free || t.kind == Small || t.kind == Lost ==> t.len == HEADER + t.size)
    && (t.kind == Large || t.kind == Gone ==>
          a % PAGE_SIZE == 0 && t.len % PAGE_SIZE == 0 && HEADER + t.size <= t.len)
  }

  /** Where block a ends. */
  function End(tiles: map<nat, Tile>, a: nat): nat
    requires a in tiles
  {
    a + tiles[a].len
  }

  predicate Follows(tiles: map<nat, Tile>, a: nat, hi: nat)
    requires a in tiles
  {
    End(tiles, a) == hi || End(tiles, a) in tiles
  }

  predicate Gapless(tiles: map<nat, Tile>, lo: nat, hi: nat) {
    (lo == hi || lo in tiles) && forall a {:trigger Follows(tiles, a, hi)} | a in tiles :: Follows(tiles, a, hi)
  }

  predicate Apart(tiles: map<nat, Tile>) {
    forall a, b | a in tiles && b in tiles && a < b :: End(tiles, a) <= b
  }

  predicate Inside(tiles: map<nat, Tile>, lo: nat, hi: nat) {
    lo <= hi && forall a | a in tiles :: lo <= a && End(tiles, a) <= hi && tiles[a].len > 0
  }

  predicate Shaped(tiles: map<nat, Tile>) {
    forall a | a in tiles :: TileOk(a, tiles[a])
  }

  /** The blocks fill [lo, hi) without a gap and without overlap. */
  predicate Tiling(tiles: map<nat, Tile>, lo: nat, hi: nat) {
    Inside(tiles, lo, hi) && Gapless(tiles, lo, hi) && Apart(tiles) && Shaped(tiles)
  }

  /** The free list holds every free block once. */
  predicate Listed(list: seq<nat>, tiles: map<nat, Tile>) {
    && (forall i | 0 <= i < |list| :: list[i] in tiles && tiles[list[i]].kind == Free)
    && NoneMissing(list, tiles) && Distinct(list)
  }

  predicate NoneMissing(list: seq<nat>, tiles: map<nat, Tile>) {
    forall a | a in tiles && tiles[a].kind == Free :: a in list
  }

  predicate Distinct(list: seq<nat>) {
    forall i, j | 0 <= i < j < |list| :: list[i] != list[j]
  }

  predicate ArenaOk(h: Arena) {
    Tiling(h.tiles, BASE, h.next) && h.next % PAGE_SIZE == 0 && Listed(h.list, h.tiles)
  }

  // ---- every address of the arena is in exactly one block ----

  predicate Within(tiles: map<nat, Tile>, a: nat, x: nat) {
    a in tiles && a <= x < End(tiles, a)
  }

  lemma OneBlock(tiles: map<nat, Tile>, lo: nat, hi: nat, a: nat, b: nat, x: nat)
    requires Tiling(tiles, lo, hi) && Within(tiles, a, x) && Within(tiles, b, x)
    ensures a == b
  {
  }

  lemma {:induction false} BlockFrom(tiles: map<nat, Tile>, lo: nat, hi: nat, a: nat, x: nat) returns (b: nat)
    requires Tiling(tiles, lo, hi) && a in tiles && a <= x < hi
    ensures Within(tiles, b, x)
    decreases hi - a
  {
    if x < End(tiles, a) {
      b := a;
    } else {
      assert Follows(tiles, a, hi);
      b := BlockFrom(tiles, lo, hi, End(tiles, a), x);
    }
  }

  lemma TilesCover(h: Arena, x: nat)
    requires ArenaOk(h) && BASE <= x < h.next
    ensures exists a :: Within(h.tiles, a, x)
    ensures forall a, b | Within(h.tiles, a, x) && Within(h.tiles, b, x) :: a == b
  {
    var a := BlockFrom(h.tiles, BASE, h.next, BASE, x);
    forall a, b | Within(h.tiles, a, x) && Within(h.tiles, b, x) ensures a == b {
      OneBlock(h.tiles, BASE, h.next, a, b, x);
    }
  }

  // ---- first fit ----

  /** The first position from i of a free block of at least size bytes. */
  function FitFrom(list: seq<nat>, tiles: map<nat, Tile>, size: nat, i: nat): (r: nat)
    requires i <= |list| && forall k | 0 <= k < |list| :: list[k] in tiles
    ensures i <= r <= |list|
    ensures r < |list| ==> tiles[list[r]].size >= size
    ensures forall k | i <= k < r :: tiles[list[k]].size < size
    decreases |list| - i
  {
    if i == |list| || tiles[list[i]].size >= size then i else FitFrom(list, tiles, size, i + 1)
  }

  function Fit(h: Arena, size: nat): nat
    requires ArenaOk(h)
  {
    FitFrom(h.list, h.tiles, size, 0)
  }

  lemma FitFromIsFirst(list: seq<nat>, tiles: map<nat, Tile>, size: nat, j: nat, i: nat)
    requires j <= i <= |list| && forall k | 0 <= k < |list| :: list[k] in tiles
    requires forall k | j <= k < i :: tiles[list[k]].size < size
    requires i < |list| ==> tiles[list[i]].size >= size
    ensures FitFrom(list, tiles, size, j) == i
    decreases i - j
  {
    if j < i {
      FitFromIsFirst(list, tiles, size, j + 1, i);
    }
  }

  lemma FitIsFirst(h: Arena, size: nat, i: nat)
    requires ArenaOk(h) && i <= |h.list| && forall k | 0 <= k < i :: h.tiles[h.list[k]].size < size
    requires i < |h.list| ==> h.tiles[h.list[i]].size >= size
    ensures Fit(h, size) == i
  {
    FitFromIsFirst(h.list, h.tiles, size, 0, i);
  }

  predicate Splits(t: Tile, size: nat) {
    t.size >= size + HEADER + ALIGN
  }

  /** kmalloc's small case at the i-th free block. */
  function TakeFree(h: Arena, i: nat, size: nat): Arena
    requires i < |h.list| && h.list[i] in h.tiles && h.tiles[h.list[i]].size >= size
  {
    var b := h.list[i];
    var t := h.tiles[b];
    if Splits(t, size) then
      h.(list := h.list[i := b + HEADER + size], tiles := SplitTiles(h.tiles, b, size))
    else
      h.(list := Without(h.list, i), tiles := h.tiles[b := t.(kind := Small)])
  }

  /** heap_grow_page: a page-sized free block at the end, in front of the list. */
  function Grown(h: Arena): Arena {
    Arena([h.next] + h.list, h.tiles[h.next := Tile(PAGE_SIZE, PAGE_SIZE - HEADER, Free)], h.next + PAGE_SIZE)
  }

  /** kmalloc's large case: whole pages at the end. */
  function TakeLarge(h: Arena, size: nat, pages: nat): Arena {
    Arena(h.list, h.tiles[h.next := Tile(pages * PAGE_SIZE, size, Large)], h.next + pages * PAGE_SIZE)
  }

  /** kfree's list position: the first listed block at or above b. */
  function SlotFrom(list: seq<nat>, b: nat, i: nat): (r: nat)
    requires i <= |list|
    ensures i <= r <= |list|
    ensures r < |list| ==> list[r] >= b
    ensures forall k | i <= k < r :: list[k] < b
    decreases |list| - i
  {
    if i == |list| || list[i] >= b then i else SlotFrom(list, b, i + 1)
  }

  lemma SlotIsFirst(list: seq<nat>, b: nat, j: nat, i: nat)
    requires j <= i <= |list| && (forall k | j <= k < i :: list[k] < b) && (i < |list| ==> list[i] >= b)
    ensures SlotFrom(list, b, j) == i
    decreases i - j
  {
    if j < i {
      SlotIsFirst(list, b, j + 1, i);
    }
  }

  /** kfree of a small block without the merge. */
  function Released(h: Arena, b: nat): Arena
    requires b in h.tiles
  {
    var i := SlotFrom(h.list, b, 0);
    h.(list := With(h.list, i, b), tiles := h.tiles[b := h.tiles[b].(kind := Free)])
  }

  /** The merge of free block list[i] with the block after it in the list. */
  function Merged(h: Arena, i: nat): Arena
    requires i + 1 < |h.list| && h.list[i] in h.tiles && h.list[i + 1] in h.tiles && h.tiles[h.list[i]].len >= HEADER
  {
    var b, s := h.list[i], h.list[i + 1];
    h.(list := Without(h.list, i + 1), tiles := (h.tiles - {s})[b := MergedTile(h.tiles[b], h.tiles[s])])
  }

  predicate Adjacent(h: Arena, i: nat)
    requires i < |h.list| && h.list[i] in h.tiles
  {
    i + 1 < |h.list| && End(h.tiles, h.list[i]) == h.list[i + 1]
  }

  /** kfree of a small block. */
  function Freed(h: Arena, b: nat): Arena
    requires ArenaOk(h) && b in h.tiles && h.tiles[b].kind == Small
  {
    ReleasedOk(h, b);
    var r := Released(h, b);
    var i := SlotFrom(h.list, b, 0);
    if Adjacent(r, i) then MergedOk(r, i); Merged(r, i) else r
  }

  /** Where the page of address b starts. */
  function PageStart(b: nat): nat {
    b / PAGE_SIZE * PAGE_SIZE
  }

  /** None of the n pages from that of b on holds a byte of block a. */
  predicate Misses(tiles: map<nat, Tile>, b: nat, n: nat, a: nat)
    requires a in tiles
  {
    End(tiles, a) <= PageStart(b) || PageStart(b) + n * PAGE_SIZE <= a
  }

  /** A release of n pages from that of b on touches no other block in use. */
  predicate Spares(h: Arena, b: nat, n: nat) {
    n > 0 ==> forall a | a in h.tiles && a != b && Present(h.tiles[a]) :: Misses(h.tiles, b, n, a)
  }

  /** Block a is made of whole pages, none of them beyond the n-th. */
  predicate WholePages(a: nat, t: Tile, n: nat) {
    a % PAGE_SIZE == 0 && t.len % PAGE_SIZE == 0 && t.len <= n * PAGE_SIZE
  }

  /** kfree of a block with n in its pages word. */
  function FreedPages(h: Arena, b: nat, n: nat): Arena
    requires b in h.tiles
  {
    var t := h.tiles[b];
    h.(tiles := h.tiles[b := t.(kind := if WholePages(b, t, n) then Gone else Lost)])
  }

  /** Taking a free block for size bytes: the rest becomes a free block in its place on the list exactly if it has room
      for a header of 24 bytes and 16 more. */
  lemma TakeFreeIs(h: Arena, i: nat, size: nat)
    requires ArenaOk(h) && i < |h.list| && h.tiles[h.list[i]].size >= size
    ensures var b, h' := h.list[i], TakeFree(h, i, size);
            var left := h.tiles[b].size - size;
            && h'.next == h.next && b in h'.tiles && h'.tiles[b].kind == Small
            && (left >= 40 ==>
                  && h'.list == h.list[i := b + 24 + size] && h'.tiles[b] == Tile(24 + size, size, Small)
                  && b + 24 + size in h'.tiles && h'.tiles[b + 24 + size] == Tile(left, left - 24, Free))
            && (left < 40 ==>
                  h'.list == h.list[..i] + h.list[i + 1..] && h'.tiles[b] == h.tiles[b].(kind := Small))
  {
    hide Tiling, NoneMissing, Distinct;
  }

  /** Freeing a small block: it goes in front of the first listed block above it, and takes that one in exactly if it
      begins where the freed one ends. */
  lemma FreedIs(h: Arena, b: nat, i: nat)
    requires ArenaOk(h) && b in h.tiles && h.tiles[b].kind == Small && i <= |h.list|
    requires (forall k | 0 <= k < i :: h.list[k] < b) && (i < |h.list| ==> h.list[i] > b)
    ensures var h', t := Freed(h, b), h.tiles[b];
            && h'.next == h.next && b in h'.tiles && h'.tiles[b].kind == Free
            && if i < |h.list| && b + 24 + t.size == h.list[i]
               then h'.list == h.list[i := b] && h'.tiles[b].size == t.size + 24 + h.tiles[h.list[i]].size
                    && h.list[i] !in h'.tiles
               else h'.list == h.list[..i] + [b] + h.list[i..] && h'.tiles[b].size == t.size
  {
    hide NoneMissing, Distinct, Gapless, Inside, Apart;
    ReleasedOk(h, b);
    SlotIsFirst(h.list, b, 0, i);
    var r := Released(h, b);
    assert r.list == With(h.list, i, b) && r.list[i] == b;
    assert i < |h.list| ==> r.list[i + 1] == h.list[i];
    assert TileOk(b, h.tiles[b]);
    if Adjacent(r, i) {
      assert r.list[i + 1] == h.list[i] && i < |h.list|;
      assert TileOk(h.list[i], h.tiles[h.list[i]]);
      assert Without(r.list, i + 1) == h.list[i := b];
    }
  }

  // ---- every operation keeps the tiling ----

  function SplitTiles(tiles: map<nat, Tile>, b: nat, size: nat): map<nat, Tile>
    requires b in tiles && Splits(tiles[b], size)
  {
    var t := tiles[b];
    tiles[b := Tile(HEADER + size, size, Small)][b + HEADER + size := Tile(t.size - size, t.size - size - HEADER, Free)]
  }

  lemma TakeFreeOk(h: Arena, i: nat, size: nat)
    requires ArenaOk(h) && i < |h.list| && h.tiles[h.list[i]].size >= size && size % 8 == 0
    ensures ArenaOk(TakeFree(h, i, size))
  {
    hide Tiling;
    var b := h.list[i];
    ShapeAt(h.tiles, BASE, h.next, b);
    if Splits(h.tiles[b], size) {
      hide Listed;
      SplitTiling(h.tiles, BASE, h.next, b, size);
      SplitListed(h.list, h.tiles, h.next, i, size);
    } else {
      hide Listed;
      RemovedListed(h.list, h.tiles, i);
      KindTiling(h.tiles, BASE, h.next, b, Small);
    }
  }

  lemma ShapeAt(tiles: map<nat, Tile>, lo: nat, hi: nat, b: nat)
    requires Tiling(tiles, lo, hi) && b in tiles
    ensures TileOk(b, tiles[b]) && lo <= b && End(tiles, b) <= hi && tiles[b].len > 0
  {
    hide Apart, Gapless, TileOk;
  }

  lemma SplitTiling(tiles: map<nat, Tile>, lo: nat, hi: nat, b: nat, size: nat)
    requires Tiling(tiles, lo, hi) && b in tiles && tiles[b].kind == Free && Splits(tiles[b], size) && size % 8 == 0
    ensures Tiling(SplitTiles(tiles, b, size), lo, hi)
  {
    hide TileOk, Gapless, Apart;
    ShapeAt(tiles, lo, hi, b);
    SplitShape(b, tiles[b], size);
    SplitGapless(tiles, lo, hi, b, size);
    SplitApart(tiles, b, size);
  }

  lemma SplitGapless(tiles: map<nat, Tile>, lo: nat, hi: nat, b: nat, size: nat)
    requires Gapless(tiles, lo, hi) && b in tiles && tiles[b].len == HEADER + tiles[b].size && Splits(tiles[b], size)
    ensures Gapless(SplitTiles(tiles, b, size), lo, hi)
  {
    var ts := SplitTiles(tiles, b, size);
    forall a | a in ts ensures Follows(ts, a, hi) {
      assert Follows(tiles, if a == b + HEADER + size then b else a, hi);
    }
  }

  lemma SplitApart(tiles: map<nat, Tile>, b: nat, size: nat)
    requires Apart(tiles) && b in tiles && tiles[b].len == HEADER + tiles[b].size && Splits(tiles[b], size)
    ensures Apart(SplitTiles(tiles, b, size)) && b + HEADER + size !in tiles
  {
  }

  lemma SplitShape(b: nat, t: Tile, size: nat)
    requires TileOk(b, t) && t.kind == Free && Splits(t, size) && size % 8 == 0
    ensures TileOk(b, Tile(HEADER + size, size, Small)) && t.len == HEADER + t.size
    ensures TileOk(b + HEADER + size, Tile(t.size - size, t.size - size - HEADER, Free))
  {
    Eights(b / 8 + 3 + size / 8);
    Eights(t.size / 8 - size / 8 - 3);
  }

  lemma Eights(k: int)
    ensures (8 * k) % 8 == 0
  {
  }

  lemma SplitListed(list: seq<nat>, tiles: map<nat, Tile>, hi: nat, i: nat, size: nat)
    requires Tiling(tiles, BASE, hi) && Listed(list, tiles) && i < |list| && Splits(tiles[list[i]], size)
    ensures Listed(list[i := list[i] + HEADER + size], SplitTiles(tiles, list[i], size))
  {
    hide Gapless, NoneMissing, Apart;
    var b := list[i];
    ShapeAt(tiles, BASE, hi, b);
    SplitApart(tiles, b, size);
    Replaced(list, i, b + HEADER + size);
    SplitNoneMissing(list, tiles, i, size);
  }

  lemma Replaced(list: seq<nat>, i: nat, x: nat)
    requires i < |list| && Distinct(list) && x !in list
    ensures Distinct(list[i := x])
  {
  }

  lemma SplitNoneMissing(list: seq<nat>, tiles: map<nat, Tile>, i: nat, size: nat)
    requires NoneMissing(list, tiles) && i < |list| && list[i] in tiles && Splits(tiles[list[i]], size)
    ensures NoneMissing(list[i := list[i] + HEADER + size], SplitTiles(tiles, list[i], size))
  {
    var list' := list[i := list[i] + HEADER + size];
    forall a | a in list && a != list[i] ensures a in list' {
      var k :| 0 <= k < |list| && list[k] == a;
      assert list'[k] == a;
    }
    assert list'[i] == list[i] + HEADER + size;
  }

  function Without(list: seq<nat>, i: nat): (r: seq<nat>)
    requires i < |list|
    ensures |r| == |list| - 1 && forall k | 0 <= k < |r| :: r[k] == if k < i then list[k] else list[k + 1]
  {
    list[..i] + list[i + 1..]
  }

  lemma WithoutKeeps(list: seq<nat>, i: nat, a: nat)
    requires i < |list| && a in list && a != list[i]
    ensures a in Without(list, i)
  {
    var k :| 0 <= k < |list| && list[k] == a;
    assert Without(list, i)[if k < i then k else k - 1] == a;
  }

  lemma RemovedListed(list: seq<nat>, tiles: map<nat, Tile>, i: nat)
    requires Listed(list, tiles) && i < |list|
    ensures Listed(Without(list, i), tiles[list[i] := tiles[list[i]].(kind := Small)])
  {
    hide NoneMissing;
    assert NoneMissing(Without(list, i), tiles[list[i] := tiles[list[i]].(kind := Small)]) by {
      RemovedNoneMissing(list, tiles, i);
    }
  }

  lemma RemovedNoneMissing(list: seq<nat>, tiles: map<nat, Tile>, i: nat)
    requires NoneMissing(list, tiles) && i < |list| && list[i] in tiles
    ensures NoneMissing(Without(list, i), tiles[list[i] := tiles[list[i]].(kind := Small)])
    ensures NoneMissing(Without(list, i), tiles - {list[i]})
  {
    forall a | a in tiles && tiles[a].kind == Free && a != list[i] ensures a in Without(list, i) {
      WithoutKeeps(list, i, a);
    }
  }

  lemma NoTileAtEnd(tiles: map<nat, Tile>, lo: nat, hi: nat)
    requires Tiling(tiles, lo, hi)
    ensures hi !in tiles
  {
    hide Apart, Gapless, TileOk;
  }

  /** A new last block. */
  lemma AppendTiling(tiles: map<nat, Tile>, lo: nat, hi: nat, t: Tile)
    requires Tiling(tiles, lo, hi) && TileOk(hi, t) && t.len > 0
    ensures Tiling(tiles[hi := t], lo, hi + t.len) && hi !in tiles
  {
    hide TileOk, Gapless;
    NoTileAtEnd(tiles, lo, hi);
    AppendGapless(tiles, lo, hi, t);
  }

  lemma AppendGapless(tiles: map<nat, Tile>, lo: nat, hi: nat, t: Tile)
    requires Gapless(tiles, lo, hi)
    ensures Gapless(tiles[hi := t], lo, hi + t.len)
  {
    var ts := tiles[hi := t];
    forall a | a in ts ensures Follows(ts, a, hi + t.len) {
      assert a in tiles ==> Follows(tiles, a, hi);
    }
  }

  lemma GrownOk(h: Arena)
    requires ArenaOk(h)
    ensures ArenaOk(Grown(h)) && h.next !in h.tiles
  {
    hide Tiling, Listed, TileOk;
    PageShape(h.next);
    AppendTiling(h.tiles, BASE, h.next, Tile(PAGE_SIZE, PAGE_SIZE - HEADER, Free));
    PushListed(h.list, h.tiles, h.next, Tile(PAGE_SIZE, PAGE_SIZE - HEADER, Free));
  }

  lemma PageShape(a: nat)
    requires a % PAGE_SIZE == 0
    ensures TileOk(a, Tile(PAGE_SIZE, PAGE_SIZE - HEADER, Free)) && (a + PAGE_SIZE) % PAGE_SIZE == 0
  {
    assert a == 8 * (512 * (a / PAGE_SIZE));
  }

  lemma PushListed(list: seq<nat>, tiles: map<nat, Tile>, a: nat, t: Tile)
    requires Listed(list, tiles) && a !in tiles && t.kind == Free
    ensures Listed([a] + list, tiles[a := t])
  {
    var list' := [a] + list;
    assert forall x | x in list :: x in list';
    assert list'[0] == a;
    assert forall i | 0 < i < |list'| :: list'[i] == list[i - 1];
  }

  lemma TakeLargeOk(h: Arena, size: nat, pages: nat)
    requires ArenaOk(h) && size % 8 == 0 && HEADER + size <= pages * PAGE_SIZE
    ensures ArenaOk(TakeLarge(h, size, pages)) && h.next !in h.tiles
  {
    hide Tiling;
    assert TileOk(h.next, Tile(pages * PAGE_SIZE, size, Large));
    hide TileOk;
    AppendTiling(h.tiles, BASE, h.next, Tile(pages * PAGE_SIZE, size, Large));
  }

  /** Changing a block's kind. */
  lemma KindTiling(tiles: map<nat, Tile>, lo: nat, hi: nat, b: nat, kind: Kind)
    requires Tiling(tiles, lo, hi) && b in tiles && TileOk(b, tiles[b].(kind := kind))
    ensures Tiling(tiles[b := tiles[b].(kind := kind)], lo, hi)
  {
    hide TileOk, Gapless;
    KindGapless(tiles, lo, hi, b, kind);
  }

  lemma KindGapless(tiles: map<nat, Tile>, lo: nat, hi: nat, b: nat, kind: Kind)
    requires Gapless(tiles, lo, hi) && b in tiles
    ensures Gapless(tiles[b := tiles[b].(kind := kind)], lo, hi)
  {
    var ts := tiles[b := tiles[b].(kind := kind)];
    forall a | a in ts ensures Follows(ts, a, hi) {
      assert Follows(tiles, a, hi);
    }
  }

  lemma ReleasedOk(h: Arena, b: nat)
    requires ArenaOk(h) && b in h.tiles && h.tiles[b].kind == Small
    ensures ArenaOk(Released(h, b)) && Released(h, b).list[SlotFrom(h.list, b, 0)] == b
  {
    hide Tiling, Listed;
    ShapeAt(h.tiles, BASE, h.next, b);
    KindTiling(h.tiles, BASE, h.next, b, Free);
    var i := SlotFrom(h.list, b, 0);
    InsertedListed(h.list, h.tiles, i, b);
  }

  function With(list: seq<nat>, i: nat, b: nat): (r: seq<nat>)
    requires i <= |list|
    ensures |r| == |list| + 1 && r[i] == b
    ensures forall k | 0 <= k < |r| && k != i :: r[k] == if k < i then list[k] else list[k - 1]
  {
    list[..i] + [b] + list[i..]
  }

  lemma WithKeeps(list: seq<nat>, i: nat, b: nat, a: nat)
    requires i <= |list| && a in list
    ensures a in With(list, i, b)
  {
    var k :| 0 <= k < |list| && list[k] == a;
    assert With(list, i, b)[if k < i then k else k + 1] == a;
  }

  lemma InsertedListed(list: seq<nat>, tiles: map<nat, Tile>, i: nat, b: nat)
    requires Listed(list, tiles) && i <= |list| && b in tiles && tiles[b].kind != Free
    ensures Listed(With(list, i, b), tiles[b := tiles[b].(kind := Free)])
  {
    hide NoneMissing;
    InsertedNoneMissing(list, tiles, i, b);
  }

  lemma InsertedNoneMissing(list: seq<nat>, tiles: map<nat, Tile>, i: nat, b: nat)
    requires NoneMissing(list, tiles) && i <= |list| && b in tiles
    ensures NoneMissing(With(list, i, b), tiles[b := tiles[b].(kind := Free)])
  {
    assert With(list, i, b)[i] == b;
    forall a | a in tiles && tiles[a].kind == Free ensures a in With(list, i, b) {
      WithKeeps(list, i, b, a);
    }
  }

  lemma MergedOk(h: Arena, i: nat)
    requires ArenaOk(h) && i < |h.list| && Adjacent(h, i)
    ensures h.tiles[h.list[i]].len >= HEADER && ArenaOk(Merged(h, i))
  {
    hide Tiling;
    var b, s := h.list[i], h.list[i + 1];
    ShapeAt(h.tiles, BASE, h.next, b);
    MergeTiling(h.tiles, BASE, h.next, b, s);
    MergeListed(h.list, h.tiles, i);
  }

  function MergedTile(t: Tile, s: Tile): Tile
    requires t.len >= HEADER
  {
    Tile(t.len + s.len, t.len + s.len - HEADER, Free)
  }

  lemma MergeShape(b: nat, t: Tile, s: Tile, a: nat)
    requires TileOk(b, t) && TileOk(a, s) && t.kind == Free && s.kind == Free
    ensures TileOk(b, MergedTile(t, s))
  {
  }

  lemma MergeTiling(tiles: map<nat, Tile>, lo: nat, hi: nat, b: nat, s: nat)
    requires Tiling(tiles, lo, hi) && b in tiles && s in tiles && End(tiles, b) == s
    requires tiles[b].kind == Free && tiles[s].kind == Free && tiles[b].len >= HEADER
    ensures Tiling((tiles - {s})[b := MergedTile(tiles[b], tiles[s])], lo, hi)
  {
    hide TileOk, Gapless;
    ShapeAt(tiles, lo, hi, b);
    ShapeAt(tiles, lo, hi, s);
    MergeShape(b, tiles[b], tiles[s], s);
    forall a | a in tiles && a != b ensures End(tiles, a) != s {
      assert a < b ==> End(tiles, a) <= b;
      assert a > b ==> End(tiles, b) <= a && tiles[a].len > 0;
    }
    MergeGapless(tiles, lo, hi, b, s);
  }

  lemma MergeGapless(tiles: map<nat, Tile>, lo: nat, hi: nat, b: nat, s: nat)
    requires Gapless(tiles, lo, hi) && b in tiles && s in tiles && End(tiles, b) == s && tiles[b].len >= HEADER
    requires lo <= b && forall a | a in tiles && a != b :: End(tiles, a) != s
    ensures Gapless((tiles - {s})[b := MergedTile(tiles[b], tiles[s])], lo, hi)
  {
    var ts := (tiles - {s})[b := MergedTile(tiles[b], tiles[s])];
    forall a | a in ts ensures Follows(ts, a, hi) {
      assert Follows(tiles, if a == b then s else a, hi);
    }
  }

  lemma MergeListed(list: seq<nat>, tiles: map<nat, Tile>, i: nat)
    requires Listed(list, tiles) && i + 1 < |list| && tiles[list[i]].len >= HEADER
    ensures var merged := MergedTile(tiles[list[i]], tiles[list[i + 1]]);
            Listed(Without(list, i + 1), (tiles - {list[i + 1]})[list[i] := merged])
  {
    hide NoneMissing;
    var b, s := list[i], list[i + 1];
    RemovedNoneMissing(list, tiles, i + 1);
    MergeNoneMissing(Without(list, i + 1), tiles - {s}, i, MergedTile(tiles[b], tiles[s]));
  }

  lemma MergeNoneMissing(list: seq<nat>, tiles: map<nat, Tile>, i: nat, t: Tile)
    requires NoneMissing(list, tiles) && i < |list|
    ensures NoneMissing(list, tiles[list[i] := t])
  {
  }

  lemma FreedOk(h: Arena, b: nat)
    requires ArenaOk(h) && b in h.tiles && h.tiles[b].kind == Small
    ensures ArenaOk(Freed(h, b))
  {
    hide Tiling;
    ReleasedOk(h, b);
    var r := Released(h, b);
    var i := SlotFrom(h.list, b, 0);
    if Adjacent(r, i) {
      MergedOk(r, i);
    }
  }

  /** What kfree may find in the pages word: that of a large block is its page count. */
  predicate PagesOk(t: Tile, n: nat) {
    t.kind == Large ==> n == t.len / PAGE_SIZE
  }

  lemma FreedPagesOk(h: Arena, b: nat, n: nat)
    requires ArenaOk(h) && b in h.tiles && Live(h.tiles[b]) && PagesOk(h.tiles[b], n)
    ensures ArenaOk(FreedPages(h, b, n))
  {
    hide Tiling;
    ShapeAt(h.tiles, BASE, h.next, b);
    KindTiling(h.tiles, BASE, h.next, b, FreedPages(h, b, n).tiles[b].kind);
  }

  /** kfree of a large block touches no other block. */
  lemma LargeSpares(h: Arena, b: nat)
    requires ArenaOk(h) && b in h.tiles && h.tiles[b].kind == Large
    ensures Spares(h, b, h.tiles[b].len / PAGE_SIZE)
  {
    hide Gapless, Listed;
    assert TileOk(b, h.tiles[b]);
  }

  // ---- runs ----

  /** What the allocator does to the arena, one call at a time. */
  datatype Event = Fill(size: nat) | FillLarge(size: nat, pages: nat) | Grow | Release(block: nat, pages: nat)

  predicate Enabled(h: Arena, e: Event)
    requires ArenaOk(h)
  {
    match e
    case Fill(size) => size % 8 == 0 && Fit(h, size) < |h.list|
    case FillLarge(size, pages) => size % 8 == 0 && HEADER + size <= pages * PAGE_SIZE
    case Grow => true
    case Release(b, n) =>
      && b in h.tiles && Live(h.tiles[b]) && PagesOk(h.tiles[b], n) && Spares(h, b, n)
      && (n == 0 ==> h.tiles[b].kind == Small)
  }

  /** An event that is not enabled changes nothing. */
  function Apply(h: Arena, e: Event): Arena
    requires ArenaOk(h)
  {
    if !Enabled(h, e) then h
    else
      match e
      case Fill(size) => TakeFree(h, Fit(h, size), size)
      case FillLarge(size, pages) => TakeLarge(h, size, pages)
      case Grow => Grown(h)
      case Release(b, n) => if n == 0 then Freed(h, b) else FreedPages(h, b, n)
  }

  /** The block is live and this event does not release it. */
  predicate Spared(h: Arena, e: Event, a: nat) {
    a in h.tiles && Live(h.tiles[a]) && !(e.Release? && e.block == a)
  }

  lemma ApplyOk(h: Arena, e: Event)
    requires ArenaOk(h)
    ensures ArenaOk(Apply(h, e))
    ensures forall a | Spared(h, e, a) :: a in Apply(h, e).tiles && Apply(h, e).tiles[a] == h.tiles[a]
  {
    hide Tiling, NoneMissing, Distinct;
    if Enabled(h, e) {
      match e
      case Fill(size) => {
        TakeFreeOk(h, Fit(h, size), size);
        SplitSpares(h, Fit(h, size), size);
      }
      case FillLarge(size, pages) => TakeLargeOk(h, size, pages);
      case Grow => GrownOk(h);
      case Release(b, n) => {
        if n == 0 {
          FreedOk(h, b);
          FreedSpares(h, b);
        } else {
          FreedPagesOk(h, b, n);
        }
      }
    }
  }

  lemma SplitSpares(h: Arena, i: nat, size: nat)
    requires ArenaOk(h) && i < |h.list| && h.tiles[h.list[i]].size >= size
    ensures forall a | a in h.tiles && Live(h.tiles[a]) ::
      a in TakeFree(h, i, size).tiles && TakeFree(h, i, size).tiles[a] == h.tiles[a]
  {
    hide NoneMissing, Distinct, Gapless;
    var b := h.list[i];
    if Splits(h.tiles[b], size) {
      ShapeAt(h.tiles, BASE, h.next, b);
      SplitApart(h.tiles, b, size);
    }
  }

  lemma FreedSpares(h: Arena, b: nat)
    requires ArenaOk(h) && b in h.tiles && h.tiles[b].kind == Small
    ensures forall a | a in h.tiles && Live(h.tiles[a]) && a != b ::
      a in Freed(h, b).tiles && Freed(h, b).tiles[a] == h.tiles[a]
  {
    hide Tiling, NoneMissing, Distinct, SlotFrom;
    ReleasedOk(h, b);
  }

  ghost function Run(h: Arena, es: seq<Event>): Arena
    requires ArenaOk(h)
    decreases |es|
  {
    if es == [] then h else ApplyOk(h, es[0]); Run(Apply(h, es[0]), es[1..])
  }

  predicate Releases(es: seq<Event>, a: nat) {
    exists i :: 0 <= i < |es| && es[i].Release? && es[i].block == a
  }

  /** Over every run the blocks tile the arena, and a live block that the run does not release
      stays where and what it is. */
  lemma {:induction false} RunTiles(h: Arena, es: seq<Event>, a: nat)
    requires ArenaOk(h)
    ensures ArenaOk(Run(h, es))
    ensures a in h.tiles && Live(h.tiles[a]) && !Releases(es, a) ==>
              a in Run(h, es).tiles && Run(h, es).tiles[a] == h.tiles[a]
    decreases |es|
  {
    if es != [] {
      hide ArenaOk, Apply;
      ApplyOk(h, es[0]);
      RunTiles(Apply(h, es[0]), es[1..], a);
      if a in h.tiles && Live(h.tiles[a]) && !Releases(es, a) {
        assert Spared(h, es[0], a);
      }
    }
  }
}
