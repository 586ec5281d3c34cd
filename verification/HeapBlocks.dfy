/** How block headers in memory represent the arena: sizes, page counts and the linked free list
    (kernel/mm/kmalloc.c). */
module HeapBlocks {
  import opened Base
  import opened HeapMemory
  import opened HeapArena

  /** Header words: size at 0, pages at 8, next at 16. */
  predicate HeaderOk(m: Mem, a: nat, t: Tile)
    requires Backed(m, a) && Backed(m, a + 8)
  {
    Load(m, a) == t.size && (t.kind == Large ==> Load(m, a + 8) == t.len / PAGE_SIZE)
  }

  /** The words of a block in use are mapped, those of released pages are not; of a lost block some may be. */
  ghost predicate BlockBacked(m: Mem, a: nat, t: Tile) {
    t.kind != Lost ==> forall x: nat | a <= x < a + t.len && x % 8 == 0 :: Backed(m, x) <==> t.kind != Gone
  }

  lemma HeaderBacked(m: Mem, a: nat, t: Tile)
    requires BlockBacked(m, a, t) && TileOk(a, t) && Present(t)
    ensures Backed(m, a) && Backed(m, a + 8) && Backed(m, a + 16)
  {
    assert a % 8 == 0 && (a + 8) % 8 == 0 && (a + 16) % 8 == 0 && t.len >= HEADER;
  }

  ghost predicate BlockOk(m: Mem, a: nat, t: Tile) {
    && TileOk(a, t) && BlockBacked(m, a, t)
    && (Present(t) ==> Backed(m, a) && Backed(m, a + 8) && Backed(m, a + 16) && HeaderOk(m, a, t))
  }

  ghost predicate Written(m: Mem, tiles: map<nat, Tile>) {
    forall a | a in tiles :: BlockOk(m, a, tiles[a])
  }

  /** What the i-th link of the free list holds: a block, or NULL at the end. */
  function LinkAt(list: seq<nat>, i: nat): nat {
    if i < |list| then list[i] else 0
  }

  ghost predicate LinkOk(m: Mem, list: seq<nat>, i: nat)
    requires i < |list|
  {
    Backed(m, list[i] + 16) && Load(m, list[i] + 16) == LinkAt(list, i + 1)
  }

  ghost predicate Linked(m: Mem, head: nat, list: seq<nat>) {
    head == LinkAt(list, 0) && forall i | 0 <= i < |list| :: LinkOk(m, list, i)
  }

  /** Distinct mapped pages have distinct frames, none of them free. */
  ghost predicate FramesOk(m: Mem, free: set<nat>, total: nat) {
    && 0 !in free
    && (forall p | p in m :: m[p].frame != 0 && m[p].frame < total && m[p].frame !in free)
    && (forall p, q | p in m && q in m && m[p].frame == m[q].frame :: p == q)
  }

  /** Pages from next on are not part of any block. */
  ghost predicate Represents(m: Mem, head: nat, h: Arena) {
    ArenaOk(h) && Written(m, h.tiles) && Linked(m, head, h.list)
  }

  // ---- the data of the live blocks ----

  lemma PayloadBacked(m: Mem, a: nat, t: Tile)
    requires BlockOk(m, a, t) && Present(t)
    ensures forall i: nat | i < t.size / 8 :: Backed(m, a + HEADER + 8 * i)
  {
    hide Backed, HeaderOk;
    forall i: nat | i < t.size / 8 ensures Backed(m, a + HEADER + 8 * i) {
      assert 8 * i < t.size && t.len >= HEADER + t.size;
      assert (a + HEADER + 8 * i) % 8 == 0;
    }
  }

  /** The payload words of block a. */
  ghost function Payload(m: Mem, a: nat, t: Tile): (r: seq<nat>)
    requires BlockOk(m, a, t) && Present(t)
    ensures 8 * |r| == t.size
  {
    PayloadBacked(m, a, t);
    Span(m, a + HEADER, t.size / 8)
  }

  /** A live block: its pages word, which small blocks only inherit, and its payload. */
  datatype Block = Block(large: bool, pages: nat, words: seq<nat>)

  ghost function Held(m: Mem, a: nat, t: Tile): Block
    requires BlockOk(m, a, t) && Present(t)
  {
    Block(t.kind == Large, Load(m, a + 8), Payload(m, a, t))
  }

  /** The live blocks by address. */
  ghost function Data(m: Mem, tiles: map<nat, Tile>): map<nat, Block>
    requires Written(m, tiles)
  {
    map a | a in tiles && Live(tiles[a]) :: Held(m, a, tiles[a])
  }

  /** The size or link word of some block. */
  predicate HeaderWord(tiles: map<nat, Tile>, a: nat, x: nat) {
    a in tiles && tiles[a].len >= HEADER && (x == a || x == a + 16)
  }

  ghost predicate InHeaders(w: set<nat>, tiles: map<nat, Tile>) {
    forall x | x in w :: exists a :: HeaderWord(tiles, a, x)
  }

  /** Header writes never reach a payload. */
  lemma HeaderMissesPayload(tiles: map<nat, Tile>, a: nat, x: nat, c: nat)
    requires Apart(tiles) && HeaderWord(tiles, a, x) && c in tiles
    ensures !(c + HEADER <= x < End(tiles, c)) && (tiles[c].len >= HEADER ==> x != c + 8)
  {
    assert a < c ==> End(tiles, a) <= c;
    assert c < a ==> End(tiles, c) <= a;
  }

  lemma HeaderMissesWord(tiles: map<nat, Tile>, w: set<nat>, c: nat, x: nat)
    requires Apart(tiles) && InHeaders(w, tiles) && c in tiles && tiles[c].len >= HEADER
    requires c + HEADER <= x < End(tiles, c) || x == c + 8
    ensures x !in w
  {
    if x in w {
      var a :| HeaderWord(tiles, a, x);
      HeaderMissesPayload(tiles, a, x, c);
    }
  }

  /** A block that stays what it was keeps its payload when only headers are written. */
  lemma PayloadKept(m: Mem, m': Mem, tiles: map<nat, Tile>, w: set<nat>, a: nat)
    requires Apart(tiles) && InHeaders(w, tiles) && a in tiles && Present(tiles[a])
    requires BlockOk(m, a, tiles[a]) && BlockOk(m', a, tiles[a]) && OnlyAt(m, m', w)
    ensures Held(m', a, tiles[a]) == Held(m, a, tiles[a])
  {
    hide Backed, Load, InHeaders, Apart, HeaderOk, TileOk;
    var t := tiles[a];
    PayloadBacked(m, a, t);
    PayloadBacked(m', a, t);
    assert t.size / 8 * 8 <= t.size && HEADER + t.size <= t.len by {
      assert TileOk(a, t);
      SizeFits(a, t);
    }
    forall i: nat | i < t.size / 8 ensures Load(m', a + HEADER + 8 * i) == Load(m, a + HEADER + 8 * i) {
      HeaderMissesWord(tiles, w, a, a + HEADER + 8 * i);
    }
    HeaderMissesWord(tiles, w, a, a + 8);
  }

  lemma SizeFits(a: nat, t: Tile)
    requires TileOk(a, t)
    ensures HEADER + t.size <= t.len && t.size / 8 * 8 == t.size
  {
  }

  /** Header writes that leave the live blocks but those of some set alone leave their data alone. */
  lemma DataKept(m: Mem, m': Mem, tiles: map<nat, Tile>, tiles': map<nat, Tile>, w: set<nat>, b: nat)
    requires Apart(tiles') && InHeaders(w, tiles') && OnlyAt(m, m', w) && Written(m, tiles) && Written(m', tiles')
    requires forall a | a in tiles && a != b && Live(tiles[a]) :: a in tiles' && tiles'[a] == tiles[a]
    requires forall a | a in tiles' && a != b && Live(tiles'[a]) :: a in tiles
    requires forall a | a in tiles' && a != b && Live(tiles'[a]) :: tiles'[a] == tiles[a]
    ensures Data(m', tiles') - {b} == Data(m, tiles) - {b}
  {
    hide Apart, InHeaders, OnlyAt, BlockOk, Held;
    forall a | a in tiles' && a != b && Live(tiles'[a]) ensures Held(m', a, tiles'[a]) == Held(m, a, tiles[a]) {
      PayloadKept(m, m', tiles', w, a);
    }
  }

  // ---- links ----

  /** The block whose next word is the i-th link; 0 stands for the list head. */
  function Before(list: seq<nat>, i: nat): nat
    requires i <= |list|
  {
    if i == 0 then 0 else list[i - 1]
  }

  /** The i-th link now points to x, and x to what followed. */
  lemma ReplaceLink(m: Mem, head: nat, m': Mem, head': nat, list: seq<nat>, i: nat, x: nat)
    requires Linked(m, head, list) && i < |list|
    requires head' == if i == 0 then x else head
    requires forall k | 0 <= k < |list| && k != i && k + 1 != i :: LinkOk(m', list, k)
    requires i > 0 ==> Backed(m', list[i - 1] + 16) && Load(m', list[i - 1] + 16) == x
    requires Backed(m', x + 16) && Load(m', x + 16) == LinkAt(list, i + 1)
    ensures Linked(m', head', list[i := x])
  {
    hide Backed, Load, LinkOk;
    var list' := list[i := x];
    forall k | 0 <= k < |list'| ensures LinkOk(m', list', k) {
      ReplaceLinkAt(m', list, i, x, k);
    }
  }

  lemma ReplaceLinkAt(m: Mem, list: seq<nat>, i: nat, x: nat, k: nat)
    requires i < |list| && k < |list| && (k != i && k + 1 != i ==> LinkOk(m, list, k))
    requires k + 1 == i ==> Backed(m, list[k] + 16) && Load(m, list[k] + 16) == x
    requires Backed(m, x + 16) && Load(m, x + 16) == LinkAt(list, i + 1)
    ensures LinkOk(m, list[i := x], k)
  {
    hide Backed, Load;
  }

  /** The i-th link now skips its block. */
  lemma RemoveLink(m: Mem, head: nat, m': Mem, head': nat, list: seq<nat>, i: nat)
    requires Linked(m, head, list) && i < |list|
    requires head' == if i == 0 then LinkAt(list, 1) else head
    requires forall k | 0 <= k < |list| && k != i && k + 1 != i :: LinkOk(m', list, k)
    requires i > 0 ==> Backed(m', list[i - 1] + 16) && Load(m', list[i - 1] + 16) == LinkAt(list, i + 1)
    ensures Linked(m', head', Without(list, i))
  {
    hide Backed, Load, LinkOk;
    var list' := Without(list, i);
    forall k | 0 <= k < |list'| ensures LinkOk(m', list', k) {
      RemoveLinkAt(m', list, i, k);
    }
  }

  lemma RemoveLinkAt(m: Mem, list: seq<nat>, i: nat, k: nat)
    requires i < |list| && k < |list| - 1
    requires k + 1 == i ==> Backed(m, list[k] + 16) && Load(m, list[k] + 16) == LinkAt(list, i + 1)
    requires k + 1 < i ==> LinkOk(m, list, k)
    requires k >= i ==> LinkOk(m, list, k + 1)
    ensures LinkOk(m, Without(list, i), k)
  {
    hide Backed, Load;
  }

  /** The i-th link now points to a new block b that links to the old one. */
  lemma InsertLink(m: Mem, head: nat, m': Mem, head': nat, list: seq<nat>, i: nat, b: nat)
    requires Linked(m, head, list) && i <= |list|
    requires head' == if i == 0 then b else head
    requires forall k | 0 <= k < |list| && k + 1 != i :: LinkOk(m', list, k)
    requires i > 0 ==> Backed(m', list[i - 1] + 16) && Load(m', list[i - 1] + 16) == b
    requires Backed(m', b + 16) && Load(m', b + 16) == LinkAt(list, i)
    ensures Linked(m', head', With(list, i, b))
  {
    hide Backed, Load, LinkOk;
    var list' := With(list, i, b);
    forall k | 0 <= k < |list'| ensures LinkOk(m', list', k) {
      InsertLinkAt(m', list, i, b, k);
    }
  }

  lemma InsertLinkAt(m: Mem, list: seq<nat>, i: nat, b: nat, k: nat)
    requires i <= |list| && k <= |list|
    requires k + 1 == i ==> Backed(m, list[k] + 16) && Load(m, list[k] + 16) == b
    requires k == i ==> Backed(m, b + 16) && Load(m, b + 16) == LinkAt(list, i)
    requires k + 1 < i ==> LinkOk(m, list, k)
    requires k > i ==> LinkOk(m, list, k - 1)
    ensures LinkOk(m, With(list, i, b), k)
  {
    hide Backed, Load;
  }
}
