/** The bitmap frame allocator of kernel/mm/pmm.c. */
module Pmm {
  import opened Base

  const FRAME_SIZE: nat := 4096
  const MAX_FRAMES: nat := 1048576
  const BITMAP_BYTES: nat := 131072

  // ---- bits ----

  /** 1u << k as a byte. */
  function Mask(k: nat): bv8
    requires k < 8
  {
    (1 as bv8) << k
  }

  predicate BitSet(b: bv8, k: nat)
    requires k < 8
  {
    b & Mask(k) != 0
  }

  lemma Masks()
    ensures Mask(0) == 0x01 && Mask(1) == 0x02 && Mask(2) == 0x04 && Mask(3) == 0x08
    ensures Mask(4) == 0x10 && Mask(5) == 0x20 && Mask(6) == 0x40 && Mask(7) == 0x80
  {
  }

  lemma SetBit(b: bv8, j: nat, k: nat)
    requires j < 8 && k < 8
    ensures BitSet(b | Mask(j), k) <==> j == k || BitSet(b, k)
  {
    Masks();
  }

  lemma ClearBit(b: bv8, j: nat, k: nat)
    requires j < 8 && k < 8
    ensures BitSet(b & !Mask(j), k) <==> j != k && BitSet(b, k)
  {
    Masks();
  }

  /** frame_is_free. */
  predicate FrameFree(bm: seq<bv8>, f: nat)
    requires |bm| == BITMAP_BYTES && f < MAX_FRAMES
  {
    !BitSet(bm[f / 8], f % 8)
  }

  // ---- what the bitmap stands for ----

  /** The allocator as a set of free frames, the two counters and the search hint. */
  datatype Pool = Pool(free: set<nat>, total: nat, outstanding: int, hint: nat)

  ghost function FreeSet(bm: seq<bv8>): set<nat>
    requires |bm| == BITMAP_BYTES
  {
    set f | 0 <= f < MAX_FRAMES && FrameFree(bm, f)
  }

  /** Setting or clearing one frame's bit changes that frame only. */
  lemma BitmapSet(bm: seq<bv8>, f: nat, i: nat, k: nat)
    requires |bm| == BITMAP_BYTES && f < MAX_FRAMES && i == f / 8 && k == f % 8
    ensures FreeSet(bm[i := bm[i] | Mask(k)]) == FreeSet(bm) - {f}
  {
    hide BitSet, Mask;
    var bm' := bm[i := bm[i] | Mask(k)];
    forall g: nat | g < MAX_FRAMES ensures FrameFree(bm', g) <==> FrameFree(bm, g) && g != f {
      SetBit(bm[i], k, g % 8);
      SameByteSameBit(f, g);
    }
  }

  lemma BitmapClear(bm: seq<bv8>, f: nat, i: nat, k: nat)
    requires |bm| == BITMAP_BYTES && f < MAX_FRAMES && i == f / 8 && k == f % 8
    ensures FreeSet(bm[i := bm[i] & !Mask(k)]) == FreeSet(bm) + {f}
  {
    hide BitSet, Mask;
    var bm' := bm[i := bm[i] & !Mask(k)];
    forall g: nat | g < MAX_FRAMES ensures FrameFree(bm', g) <==> FrameFree(bm, g) || g == f {
      ClearBit(bm[i], k, g % 8);
      SameByteSameBit(f, g);
    }
  }

  lemma SameByteSameBit(f: nat, g: nat)
    ensures f / 8 == g / 8 && f % 8 == g % 8 ==> f == g
  {
  }

  /** The least free frame in [lo, hi), or hi. */
  ghost function FirstIn(free: set<nat>, lo: nat, hi: nat): (i: nat)
    requires lo <= hi
    ensures lo <= i <= hi && (i < hi ==> i in free)
    ensures forall k | lo <= k < i :: k !in free
    decreases hi - lo
  {
    if lo == hi || lo in free then lo else FirstIn(free, lo + 1, hi)
  }

  ghost function Take(p: Pool, f: nat): Pool {
    p.(free := p.free - {f}, outstanding := p.outstanding + 1, hint := f + 1)
  }

  /** The frames that can still be given out. */
  ghost function Usable(p: Pool): set<nat> {
    set f | f in p.free && f < p.total
  }

  ghost predicate Exhausted(p: Pool) {
    forall f | 0 <= f < p.total :: f !in p.free
  }

  /** pmm_alloc_frame: from the hint to the end, then from 0 to the hint. */
  ghost function Alloc(p: Pool): (r: (Pool, Option<nat>)) {
    var i := if p.hint < p.total then FirstIn(p.free, p.hint, p.total) else p.total;
    if i < p.total then (Take(p, i), Some(i))
    else
      var end := Min(p.hint, p.total);
      var j := FirstIn(p.free, 0, end);
      if j < end then (Take(p, j), Some(j)) else (p, None)
  }

  /** pmm_free_frame: out-of-range and already free frames are ignored. */
  ghost function Free(p: Pool, f: nat): Pool {
    if f >= p.total || f in p.free then p
    else p.(free := p.free + {f}, outstanding := p.outstanding - 1)
  }

  /** frames i .. i + count - 1 are all free. */
  ghost predicate RunFree(free: set<nat>, i: nat, count: nat) {
    forall k | i <= k < i + count :: k in free
  }

  /** The least start of a free run of `count` frames below total at or after i, if any. */
  ghost function FirstRun(free: set<nat>, i: nat, count: nat, total: nat): (r: Option<nat>)
    ensures r.Some? ==> i <= r.value && r.value + count <= total && RunFree(free, r.value, count)
    ensures forall k | i <= k && k + count <= total && (r.None? || k < r.value) :: !RunFree(free, k, count)
    decreases total - i
  {
    if i + count > total then None
    else if RunFree(free, i, count) then Some(i)
    else FirstRun(free, i + 1, count, total)
  }

  ghost function Frames(i: nat, count: nat): (r: set<nat>) {
    if count == 0 then {} else Frames(i, count - 1) + {i + count - 1}
  }

  lemma {:induction false} FramesAre(i: nat, count: nat)
    ensures |Frames(i, count)| == count
    ensures forall k: nat :: k in Frames(i, count) <==> i <= k < i + count
  {
    if count > 0 {
      FramesAre(i, count - 1);
    }
  }

  lemma NoFrames(i: nat)
    ensures Frames(i, 0) == {}
  {
  }

  lemma FramesSnoc(free: set<nat>, i: nat, j: nat)
    ensures free + Frames(i, j + 1) == free + Frames(i, j) + {i + j}
    ensures free - Frames(i, j + 1) == free - Frames(i, j) - {i + j}
  {
  }

  /** pmm_alloc_frames: first fit from 0, ignoring the hint. */
  ghost function AllocRun(p: Pool, count: nat): (r: (Pool, Option<nat>)) {
    if count == 0 then (p, None)
    else match FirstRun(p.free, 0, count, p.total)
      case None => (p, None)
      case Some(i) =>
        (p.(free := p.free - Frames(i, count), outstanding := p.outstanding + count, hint := i + count), Some(i))
  }

  /** The physical address that reports a result; 0 is failure. */
  function Phys(r: Option<nat>): nat {
    if r.None? then 0 else r.value * FRAME_SIZE
  }

  lemma PhysIs(f: nat)
    ensures Phys(None) == 0 && Phys(Some(f)) == f * 4096
  {
  }

  /** A boot memory map entry. */
  datatype Region = Region(usable: bool, base: nat, length: nat)

  /** The frames of a usable entry that lie wholly inside it and below the bitmap's end. */
  ghost function RegionFrames(r: Region): set<nat> {
    var start := (r.base + FRAME_SIZE - 1) / FRAME_SIZE;
    var end := Min((r.base + r.length) / FRAME_SIZE, MAX_FRAMES);
    if r.usable && start < end then Frames(start, end - start) else {}
  }

  ghost function UsableFrames(regions: seq<Region>): set<nat> {
    if regions == [] then {}
    else UsableFrames(regions[..|regions| - 1]) + RegionFrames(regions[|regions| - 1])
  }

  /** The whole frame f is memory of a usable entry. */
  predicate Offers(r: Region, f: nat) {
    r.usable && r.base <= f * FRAME_SIZE && (f + 1) * FRAME_SIZE <= r.base + r.length
  }

  lemma RegionOffers(r: Region, f: nat)
    ensures f in RegionFrames(r) <==> f < MAX_FRAMES && Offers(r, f)
  {
    var start, end := (r.base + FRAME_SIZE - 1) / FRAME_SIZE, (r.base + r.length) / FRAME_SIZE;
    FirstFrame(r.base, f);
    LastFrame(r.base + r.length, f);
    if start < Min(end, MAX_FRAMES) {
      FramesAre(start, Min(end, MAX_FRAMES) - start);
    }
  }

  lemma FirstFrame(base: nat, f: nat)
    ensures (base + FRAME_SIZE - 1) / FRAME_SIZE <= f <==> base <= f * FRAME_SIZE
  {
  }

  lemma LastFrame(end: nat, f: nat)
    ensures f < end / FRAME_SIZE <==> (f + 1) * FRAME_SIZE <= end
  {
  }

  /** The frames that the allocator starts with are those that lie wholly inside some usable entry, as far as the
      bitmap goes. */
  lemma {:induction false} UsableExactly(regions: seq<Region>, f: nat)
    ensures f in UsableFrames(regions) <==>
            f < MAX_FRAMES && exists i :: 0 <= i < |regions| && Offers(regions[i], f)
    decreases |regions|
  {
    hide RegionFrames, Offers;
    if regions != [] {
      var init, last := regions[..|regions| - 1], regions[|regions| - 1];
      UsableExactly(init, f);
      RegionOffers(last, f);
      if i :| 0 <= i < |regions| && Offers(regions[i], f) {
        assert i < |init| ==> init[i] == regions[i];
      }
      if i :| 0 <= i < |init| && Offers(init[i], f) {
        assert regions[i] == init[i];
      }
    }
  }

  ghost function FrameTotal(regions: seq<Region>): nat {
    if regions == [] then 0
    else FrameTotal(regions[..|regions| - 1]) + |RegionFrames(regions[|regions| - 1])|
  }

  /** With disjoint entries the frame count is the number of usable frames. */
  lemma {:induction false} DisjointTotal(regions: seq<Region>)
    requires forall i, j | 0 <= i < j < |regions| :: RegionFrames(regions[i]) !! RegionFrames(regions[j])
    ensures FrameTotal(regions) == |UsableFrames(regions)|
  {
    if regions != [] {
      var init, last := regions[..|regions| - 1], regions[|regions| - 1];
      DisjointTotal(init);
      UnionDisjoint(init, last);
    }
  }

  /** With disjoint entries the frame count fits the bitmap. */
  lemma DisjointFits(regions: seq<Region>)
    requires forall i, j | 0 <= i < j < |regions| :: RegionFrames(regions[i]) !! RegionFrames(regions[j])
    ensures FrameTotal(regions) <= MAX_FRAMES
  {
    DisjointTotal(regions);
    UsableInBitmap(regions);
    Fewer(UsableFrames(regions), MAX_FRAMES);
  }

  lemma {:induction false} UsableInBitmap(regions: seq<Region>)
    ensures forall f | f in UsableFrames(regions) :: f < MAX_FRAMES
  {
    if regions != [] {
      var r := regions[|regions| - 1];
      UsableInBitmap(regions[..|regions| - 1]);
      var start, end := (r.base + FRAME_SIZE - 1) / FRAME_SIZE, Min((r.base + r.length) / FRAME_SIZE, MAX_FRAMES);
      if start < end {
        FramesAre(start, end - start);
      }
    }
  }

  lemma {:induction false} Fewer(s: set<nat>, n: nat)
    requires forall f | f in s :: f < n
    ensures |s| <= n
    decreases n
  {
    if n > 0 {
      Fewer(s - {n - 1}, n - 1);
    }
  }

  lemma {:induction false} UnionDisjoint(regions: seq<Region>, r: Region)
    requires forall i | 0 <= i < |regions| :: RegionFrames(regions[i]) !! RegionFrames(r)
    ensures UsableFrames(regions) !! RegionFrames(r)
  {
    if regions != [] {
      UnionDisjoint(regions[..|regions| - 1], r);
    }
  }

  lemma NoRegions()
    ensures UsableFrames([]) == {} && FrameTotal([]) == 0
  {
  }

  lemma RegionSnoc(regions: seq<Region>, i: nat)
    requires i < |regions|
    ensures UsableFrames(regions[..i + 1]) == UsableFrames(regions[..i]) + RegionFrames(regions[i])
    ensures FrameTotal(regions[..i + 1]) == FrameTotal(regions[..i]) + |RegionFrames(regions[i])|
  {
    assert regions[..i + 1][..i] == regions[..i];
  }

  /** 0xFF bytes: every frame is used. */
  lemma AllUsed(bm: seq<bv8>)
    requires |bm| == BITMAP_BYTES && forall i | 0 <= i < |bm| :: bm[i] == 0xFF
    ensures FreeSet(bm) == {}
  {
    forall f: nat | f < MAX_FRAMES ensures !FrameFree(bm, f) {
      Masks();
    }
  }

  class FrameAllocator {
    const bitmap: array<bv8>
    var total: nat
    var outstanding: int
    var hint: nat

    ghost predicate Valid()
      reads this
    {
      bitmap.Length == BITMAP_BYTES && total <= MAX_FRAMES
    }

    ghost function Value(): Pool
      requires bitmap.Length == BITMAP_BYTES
      reads this, bitmap
    {
      Pool(FreeSet(bitmap[..]), total, outstanding, hint)
    }

    /** pmm_init. The scans stay within the bitmap exactly when the frame count does, as it does for entries
        that do not overlap. */
    constructor (regions: seq<Region>)
      ensures fresh(bitmap) && bitmap.Length == BITMAP_BYTES
      ensures Valid() <==> FrameTotal(regions) <= MAX_FRAMES
      ensures Value() == Pool(UsableFrames(regions), FrameTotal(regions), 0, 0)
      ensures forall f: nat :: f in Value().free <==>
                f < MAX_FRAMES && exists i :: 0 <= i < |regions| && Offers(regions[i], f)
    {
      bitmap := new bv8[BITMAP_BYTES](_ => 0xFF);
      total, outstanding, hint := 0, 0, 0;
      new;
      AllUsed(bitmap[..]);
      hide FreeSet, UsableFrames, FrameTotal, Offers;
      AddAll(regions);
      forall f: nat ensures f in Value().free <==>
                f < MAX_FRAMES && exists i :: 0 <= i < |regions| && Offers(regions[i], f)
      {
        UsableExactly(regions, f);
      }
    }

    /** pmm_init's loop over the memory map. */
    method AddAll(regions: seq<Region>)
      requires bitmap.Length == BITMAP_BYTES && Value() == Pool({}, 0, 0, 0)
      modifies this`total, bitmap
      ensures Value() == Pool(UsableFrames(regions), FrameTotal(regions), 0, 0)
    {
      hide FreeSet, RegionFrames, UsableFrames, FrameTotal;
      NoRegions();
      assert regions[..0] == [] && regions[..|regions|] == regions;
      for i := 0 to |regions|
        invariant Value() == Pool(UsableFrames(regions[..i]), FrameTotal(regions[..i]), 0, 0)
      {
        RegionSnoc(regions, i);
        AddRegion(regions[i]);
      }
    }

    /** The body of pmm_init's loop over the memory map. */
    method AddRegion(r: Region)
      requires bitmap.Length == BITMAP_BYTES
      modifies this`total, bitmap
      ensures Value() == old(Value()).(free := old(Value()).free + RegionFrames(r),
                                       total := old(total) + |RegionFrames(r)|)
    {
      hide FreeSet, Frames;
      ghost var free := Value().free;
      assert free + {} == free;
      if !r.usable {
        return;
      }
      var start := (r.base + FRAME_SIZE - 1) / FRAME_SIZE;
      var end := (r.base + r.length) / FRAME_SIZE;
      if end > MAX_FRAMES {
        end := MAX_FRAMES;
      }
      if start < end {
        FramesAre(start, end - start);
        AddFrames(start, end);
        assert RegionFrames(r) == Frames(start, end - start);
      } else {
        assert RegionFrames(r) == {};
      }
    }

    /** The inner loop of pmm_init: the bits, then the count. */
    method AddFrames(start: nat, end: nat)
      requires bitmap.Length == BITMAP_BYTES && start < end <= MAX_FRAMES
      modifies this`total, bitmap
      ensures Value() == old(Value()).(free := old(Value()).free + Frames(start, end - start),
                                       total := old(total) + (end - start))
    {
      hide FreeSet, Frames;
      FreeRun(start, end);
      ghost var bm := bitmap[..];
      total := total + (end - start);
      assert bitmap[..] == bm;
    }

    method FreeRun(start: nat, end: nat)
      requires bitmap.Length == BITMAP_BYTES && start <= end <= MAX_FRAMES
      modifies bitmap
      ensures Value() == old(Value()).(free := old(Value()).free + Frames(start, end - start))
    {
      hide FreeSet, Frames;
      NoFrames(start);
      ghost var free := Value().free;
      assert free + {} == free;
      for f := start to end
        invariant Value() == Pool(free + Frames(start, f - start), total, outstanding, hint)
      {
        SetFree(f);
        FramesSnoc(free, start, f - start);
      }
    }

    predicate IsFree(f: nat)
      requires Valid() && f < MAX_FRAMES
      reads this, bitmap
    {
      !BitSet(bitmap[f / 8], f % 8)
    }

    lemma IsFreeMeans(f: nat)
      requires Valid() && f < MAX_FRAMES
      ensures IsFree(f) <==> f in Value().free
    {
    }

    method SetUsed(f: nat)
      requires Valid() && f < MAX_FRAMES
      modifies bitmap
      ensures Value() == old(Value()).(free := old(Value()).free - {f})
    {
      hide FreeSet, Mask;
      var i, k := f / 8, f % 8;
      ghost var bm := bitmap[..];
      BitmapSet(bm, f, i, k);
      bitmap[i] := bitmap[i] | Mask(k);
      assert bitmap[..] == bm[i := bm[i] | Mask(k)];
    }

    method SetFree(f: nat)
      requires bitmap.Length == BITMAP_BYTES && f < MAX_FRAMES
      modifies bitmap
      ensures Value() == old(Value()).(free := old(Value()).free + {f})
    {
      hide FreeSet, Mask;
      var i, k := f / 8, f % 8;
      ghost var bm := bitmap[..];
      BitmapClear(bm, f, i, k);
      bitmap[i] := bitmap[i] & !Mask(k);
      assert bitmap[..] == bm[i := bm[i] & !Mask(k)];
    }

    /** The scan of pmm_alloc_frame over [lo, hi). */
    method Scan(lo: nat, hi: nat) returns (i: nat)
      requires Valid() && lo <= hi <= total
      ensures i == FirstIn(Value().free, lo, hi)
    {
      i := lo;
      while i < hi && !IsFree(i)
        invariant lo <= i <= hi
        invariant FirstIn(Value().free, i, hi) == FirstIn(Value().free, lo, hi)
      {
        IsFreeMeans(i);
        i := i + 1;
      }
      if i < hi {
        IsFreeMeans(i);
      }
    }

    method AllocFrame() returns (phys: nat)
      requires Valid()
      modifies this`outstanding, this`hint, bitmap
      ensures Valid()
      ensures var (p, r) := Alloc(old(Value())); Value() == p && phys == Phys(r)
    {
      var i := total;
      if hint < total {
        i := Scan(hint, total);
      }
      if i < total {
        SetUsed(i);
        outstanding := outstanding + 1;
        hint := i + 1;
        return i * FRAME_SIZE;
      }
      var end := Min(hint, total);
      i := Scan(0, end);
      if i < end {
        SetUsed(i);
        outstanding := outstanding + 1;
        hint := i + 1;
        return i * FRAME_SIZE;
      }
      return 0;
    }

    method FreeFrame(phys: nat)
      requires Valid()
      modifies this`outstanding, bitmap
      ensures Valid() && Value() == Free(old(Value()), phys / FRAME_SIZE)
    {
      var f := phys / FRAME_SIZE;
      if f >= total {
        return;
      }
      IsFreeMeans(f);
      if IsFree(f) {
        return;
      }
      SetFree(f);
      outstanding := outstanding - 1;
    }

    /** The inner test loop of pmm_alloc_frames. */
    method RunIsFree(i: nat, count: nat) returns (ok: bool)
      requires Valid() && i + count <= total
      ensures ok <==> RunFree(Value().free, i, count)
    {
      for j := 0 to count
        invariant RunFree(Value().free, i, j)
      {
        IsFreeMeans(i + j);
        if !IsFree(i + j) {
          return false;
        }
      }
      return true;
    }

    method TakeRun(i: nat, count: nat)
      requires Valid() && i + count <= total
      modifies bitmap
      ensures Value() == old(Value()).(free := old(Value()).free - Frames(i, count))
    {
      hide FreeSet, Frames;
      NoFrames(i);
      ghost var free := Value().free;
      assert free - {} == free;
      for j := 0 to count
        invariant Value() == Pool(free - Frames(i, j), total, outstanding, hint)
      {
        SetUsed(i + j);
        FramesSnoc(free, i, j);
      }
    }

    method AllocFrames(count: nat) returns (phys: nat)
      requires Valid()
      modifies this`outstanding, this`hint, bitmap
      ensures Valid()
      ensures var (p, r) := AllocRun(old(Value()), count); Value() == p && phys == Phys(r)
    {
      hide FreeSet, Frames;
      if count == 0 {
        return 0;
      }
      var i := 0;
      while i + count <= total
        invariant FirstRun(Value().free, i, count, total) == FirstRun(Value().free, 0, count, total)
        invariant Value() == old(Value())
      {
        var ok := RunIsFree(i, count);
        if ok {
          TakeRun(i, count);
          outstanding := outstanding + count;
          hint := i + count;
          return i * FRAME_SIZE;
        }
        i := i + 1;
      }
      return 0;
    }
  }

  // ---- the hinted search is a plain choice from the free set ----

  /** How far f lies past the hint, counting cyclically below total. */
  function PastHint(p: Pool, f: nat): int {
    if f >= p.hint then f - p.hint else f + p.total - p.hint
  }

  /** pmm_alloc_frame fails exactly when no free frame lies below the frame count, and
      otherwise hands out the free frame that is cyclically nearest after the hint. */
  lemma AllocIsNearest(p: Pool)
    requires p.hint <= p.total
    ensures var (p', r) := Alloc(p);
            && (r.None? <==> Exhausted(p))
            && p'.total == p.total && (r.None? ==> p' == p)
            && (r.Some? ==>
                  && r.value in p.free && r.value < p.total
                  && p'.free == p.free - {r.value} && p'.outstanding == p.outstanding + 1
                  && p'.hint == r.value + 1 <= p.total
                  && forall f | f in p.free && f < p.total :: PastHint(p, r.value) <= PastHint(p, f))
  {
  }

  // ---- runs ----

  datatype PoolOp = OpAlloc | OpAllocRun(count: nat) | OpFree(frame: nat)

  /** usable frames are free or held, never both, and the counter counts the held ones. */
  ghost predicate PoolOk(p: Pool, usable: set<nat>, held: set<nat>) {
    && p.free !! held && p.free + held == usable
    && p.outstanding == |held| && p.hint <= p.total
    && forall f | f in held :: f < p.total
  }

  /** One operation, and the frames the callers hold after it. */
  ghost function PoolStep(p: Pool, held: set<nat>, op: PoolOp): (r: (Pool, set<nat>)) {
    match op
    case OpAlloc =>
      var (p', r) := Alloc(p);
      (p', if r.Some? then held + {r.value} else held)
    case OpAllocRun(count) =>
      var (p', r) := AllocRun(p, count);
      (p', if r.Some? then held + Frames(r.value, count) else held)
    case OpFree(f) => (Free(p, f), held - {f})
  }

  lemma AllocKeepsBooks(p: Pool, usable: set<nat>, held: set<nat>)
    requires PoolOk(p, usable, held)
    ensures var (p', r) := Alloc(p);
            PoolOk(p', usable, if r.Some? then held + {r.value} else held)
  {
    hide Alloc;
    AllocIsNearest(p);
    var r := Alloc(p).1;
    if r.Some? {
      assert (p.free - {r.value}) + (held + {r.value}) == usable;
    }
  }

  /** pmm_alloc_frames gives the lowest run of frames that are all free, and fails exactly without one. */
  lemma AllocRunIsLowest(p: Pool, count: nat)
    requires count > 0
    ensures var (p', r) := AllocRun(p, count);
            && (r.None? <==> forall i: nat | i + count <= p.total :: !RunFree(p.free, i, count))
            && (r.None? ==> p' == p)
            && (r.Some? ==>
                  && r.value + count <= p.total && RunFree(p.free, r.value, count)
                  && (forall i: nat | i < r.value :: !RunFree(p.free, i, count))
                  && (forall f: nat :: f in p'.free <==> f in p.free && !(r.value <= f < r.value + count))
                  && p'.total == p.total && p'.outstanding == p.outstanding + count && p'.hint == r.value + count)
    ensures AllocRun(p, 0) == (p, None)
  {
    hide RunFree;
    var r := AllocRun(p, count).1;
    if r.Some? {
      FramesAre(r.value, count);
    }
  }

  lemma AllocRunKeepsBooks(p: Pool, usable: set<nat>, held: set<nat>, count: nat)
    requires PoolOk(p, usable, held)
    ensures var (p', r) := AllocRun(p, count);
            PoolOk(p', usable, if r.Some? then held + Frames(r.value, count) else held)
  {
    var (p', r) := AllocRun(p, count);
    if r.Some? {
      var fs := Frames(r.value, count);
      FramesAre(r.value, count);
      assert fs <= p.free by {
        forall k: nat | k in fs ensures k in p.free {}
      }
      assert |held + fs| == |held| + count;
      assert (p.free - fs) + (held + fs) == usable;
    }
  }

  /** A free keeps the books exactly when the frame is held, already free or out of range. */
  lemma FreeKeepsBooks(p: Pool, usable: set<nat>, held: set<nat>, f: nat)
    requires PoolOk(p, usable, held)
    ensures PoolOk(Free(p, f), usable, held - {f}) <==> f in held || f in p.free || f >= p.total
  {
    if f in held {
      assert (p.free + {f}) + (held - {f}) == usable;
    } else if f !in p.free && f < p.total {
      assert f in Free(p, f).free && f !in usable;
    } else {
      assert held - {f} == held;
    }
  }

  /** Every allocation keeps the books, and so does the free of a held frame. */
  lemma StepKeepsBooks(p: Pool, usable: set<nat>, held: set<nat>, op: PoolOp)
    requires PoolOk(p, usable, held) && (op.OpFree? ==> op.frame in held)
    ensures var (p', held') := PoolStep(p, held, op); PoolOk(p', usable, held')
  {
    hide PoolOk, Alloc, AllocRun;
    match op {
      case OpAlloc => AllocKeepsBooks(p, usable, held);
      case OpAllocRun(count) => AllocRunKeepsBooks(p, usable, held, count);
      case OpFree(f) => FreeKeepsBooks(p, usable, held, f);
    }
  }

  ghost function PoolRun(p: Pool, held: set<nat>, ops: seq<PoolOp>): (r: (Pool, set<nat>))
    decreases |ops|
  {
    if ops == [] then (p, held)
    else
      var (p1, held1) := PoolStep(p, held, ops[0]);
      PoolRun(p1, held1, ops[1..])
  }

  /** Every free in the run is of a frame that is held at that point. */
  ghost predicate FreesHeld(p: Pool, held: set<nat>, ops: seq<PoolOp>)
    decreases |ops|
  {
    ops != [] ==>
      && (ops[0].OpFree? ==> ops[0].frame in held)
      && var (p1, held1) := PoolStep(p, held, ops[0]);
         FreesHeld(p1, held1, ops[1..])
  }

  /** Over every run that frees only held frames, free and held frames partition the usable
      ones, so no held or unusable frame is ever handed out, and the counter is exact. */
  lemma {:induction false} RunKeepsBooks(p: Pool, usable: set<nat>, held: set<nat>, ops: seq<PoolOp>)
    requires PoolOk(p, usable, held) && FreesHeld(p, held, ops)
    ensures var (p', held') := PoolRun(p, held, ops); PoolOk(p', usable, held')
    decreases |ops|
  {
    if ops != [] {
      StepKeepsBooks(p, usable, held, ops[0]);
      var (p1, held1) := PoolStep(p, held, ops[0]);
      RunKeepsBooks(p1, usable, held1, ops[1..]);
    }
  }
}
