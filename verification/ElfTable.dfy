/** Program header tables as the System V gABI lays them out, and what loading one puts where
    (kernel/elf/elf.h, kernel/elf/elfload.c). */
module ElfTable {
  import opened Base
  import opened StackImage
  import opened PageTables
  import opened Mmap
  import opened Pmm
  import E = ElfLoad

  /** Elf64_Phdr, all of it. */
  datatype Entry = Entry(kind: nat, flags: nat, offset: nat, vaddr: nat, paddr: nat, filesz: nat, memsz: nat,
                         align: nat)

  function EntryBytes(e: Entry): (r: seq<byte>)
    ensures |r| == 56
  {
    Le(e.kind, 4) + Le(e.flags, 4) + Le(e.offset, 8) + Le(e.vaddr, 8) + Le(e.paddr, 8) + Le(e.filesz, 8) +
    Le(e.memsz, 8) + Le(e.align, 8)
  }

  /** The numbers fit their fields. */
  predicate EntryOk(e: Entry) {
    && e.kind < 0x1_0000_0000 && e.offset < WORD && e.vaddr < WORD && e.filesz < WORD && e.memsz < WORD
  }

  /** The file has these entries one after the other, the first at phoff and phentsize bytes from each to the next. */
  predicate HasTable(file: seq<byte>, eh: E.Ehdr, es: seq<Entry>) {
    && eh.phnum == |es|
    && forall i: nat | i < |es| :: EntryAt(file, eh.phoff + i * eh.phentsize, es[i])
  }

  predicate EntryAt(file: seq<byte>, at: nat, e: Entry) {
    at < WORD && at + 56 <= |file| && file[at..at + 56] == EntryBytes(e) && EntryOk(e)
  }

  /** The loadable entries, in order. */
  function Loadable(es: seq<Entry>): (r: seq<E.Phdr>) {
    if es == [] then []
    else
      var e := es[|es| - 1];
      Loadable(es[..|es| - 1]) + if e.kind == 1 then [E.Phdr(1, e.offset, e.vaddr, e.filesz, e.memsz)] else []
  }

  lemma FieldIs(file: seq<byte>, a: seq<byte>, v: nat, n: nat, b: seq<byte>, at: nat)
    requires at + |a| + n + |b| <= |file| && file[at..at + |a| + n + |b|] == a + Le(v, n) + b && v < Limit(n)
    ensures E.Field(file, at + |a|, n) == v
  {
    hide Le, UnLe, Limit;
    var s := file[at..at + |a| + n + |b|];
    forall i | 0 <= i < n ensures file[at + |a| + i] == Le(v, n)[i] {
      assert s[|a| + i] == file[at + |a| + i];
    }
    assert file[at + |a|..at + |a| + n] == Le(v, n);
    LeRoundTrip(v, n);
  }

  lemma Limits()
    ensures Limit(4) == 0x1_0000_0000 && Limit(8) == WORD
  {
    assert Limit(4) == 0x1_0000_0000;
    WordLimit();
  }

  /** An entry is read as it was written. */
  lemma EntryRead(file: seq<byte>, eh: E.Ehdr, i: nat, e: Entry)
    requires EntryAt(file, eh.phoff + i * eh.phentsize, e)
    ensures E.Readable(file, E.PhdrOff(eh, i), E.PHDR_SIZE)
    ensures E.PhdrAt(file, eh, i) == E.Phdr(e.kind, e.offset, e.vaddr, e.filesz, e.memsz)
  {
    hide Le, UnLe, Limit;
    Limits();
    var at := eh.phoff + i * eh.phentsize;
    var k, g, o, v := Le(e.kind, 4), Le(e.flags, 4), Le(e.offset, 8), Le(e.vaddr, 8);
    var p, f, m, a := Le(e.paddr, 8), Le(e.filesz, 8), Le(e.memsz, 8), Le(e.align, 8);
    var s := file[at..at + 56];
    assert s == [] + k + (g + o + v + p + f + m + a);
    FieldIs(file, [], e.kind, 4, g + o + v + p + f + m + a, at);
    assert s == (k + g) + o + (v + p + f + m + a);
    FieldIs(file, k + g, e.offset, 8, v + p + f + m + a, at);
    assert s == (k + g + o) + v + (p + f + m + a);
    FieldIs(file, k + g + o, e.vaddr, 8, p + f + m + a, at);
    assert s == (k + g + o + v + p) + f + (m + a);
    FieldIs(file, k + g + o + v + p, e.filesz, 8, m + a, at);
    assert s == (k + g + o + v + p + f) + m + a;
    FieldIs(file, k + g + o + v + p + f, e.memsz, 8, a, at);
  }

  /** The loader finds exactly the loadable entries of the table, with the numbers that were written. */
  lemma {:induction false} TableRead(file: seq<byte>, eh: E.Ehdr, es: seq<Entry>, n: nat)
    requires HasTable(file, eh, es) && n <= |es|
    ensures E.Loads(file, eh, n) == Some(Loadable(es[..n]))
    decreases n
  {
    hide EntryAt, E.PhdrAt, E.PhdrOff, E.Readable;
    if n > 0 {
      TableRead(file, eh, es, n - 1);
      assert es[..n][..n - 1] == es[..n - 1] && es[..n][n - 1] == es[n - 1];
      EntryRead(file, eh, n - 1, es[n - 1]);
      assert Loadable(es[..n - 1]) + [] == Loadable(es[..n - 1]);
    } else {
      assert es[..0] == [];
    }
  }

  // ---- loading ----

  /** Loadable entries have room for their file bytes, in the user half. */
  predicate Sized(es: seq<Entry>) {
    forall i | 0 <= i < |es| && es[i].kind == 1 ::
      es[i].filesz <= es[i].memsz && es[i].vaddr + es[i].memsz <= USER_HALF_MAX
  }

  predicate Meets(e: Entry, f: Entry, a: nat) {
    e.kind == 1 && f.kind == 1 && e.vaddr <= a < e.vaddr + e.memsz && f.vaddr <= a < f.vaddr + f.memsz
  }

  ghost predicate Disjoint(es: seq<Entry>) {
    forall i, j, a: nat | 0 <= i < j < |es| :: !Meets(es[i], es[j], a)
  }

  /** Some loadable entry asks for bytes that the file does not have. */
  predicate CutOff(file: seq<byte>, es: seq<Entry>) {
    exists i | 0 <= i < |es| :: es[i].kind == 1 && es[i].filesz > 0 && es[i].offset + es[i].filesz > |file|
  }

  /** Where the i-th entry is among the loadable ones. */
  function Rank(es: seq<Entry>, i: nat): nat
    requires i <= |es|
  {
    |Loadable(es[..i])|
  }

  lemma {:induction false} RankOf(es: seq<Entry>, i: nat)
    requires i < |es| && es[i].kind == 1
    ensures Rank(es, i) < |Loadable(es)|
    ensures Loadable(es)[Rank(es, i)] == E.Phdr(1, es[i].offset, es[i].vaddr, es[i].filesz, es[i].memsz)
    decreases |es|
  {
    var init := es[..|es| - 1];
    if i < |init| {
      RankOf(init, i);
      assert init[..i] == es[..i];
    }
  }

  /** Every loadable header stems from an entry, in order. */
  lemma {:induction false} EntryOf(es: seq<Entry>, k: nat) returns (i: nat)
    requires k < |Loadable(es)|
    ensures i < |es| && es[i].kind == 1 && Rank(es, i) == k
    ensures Loadable(es)[k] == E.Phdr(1, es[i].offset, es[i].vaddr, es[i].filesz, es[i].memsz)
    decreases |es|
  {
    var init := es[..|es| - 1];
    if k < |Loadable(init)| {
      i := EntryOf(init, k);
      assert init[..i] == es[..i];
    } else {
      i := |es| - 1;
    }
  }

  lemma {:induction false} RankGrows(es: seq<Entry>, i: nat, j: nat)
    requires i <= j <= |es|
    ensures Rank(es, i) <= Rank(es, j)
    decreases j - i
  {
    if i < j {
      RankGrows(es, i, j - 1);
      assert es[..j][..j - 1] == es[..j - 1];
    }
  }

  lemma DisjointLoads(es: seq<Entry>)
    requires Disjoint(es)
    ensures E.Disjoint(Loadable(es))
  {
    var ps := Loadable(es);
    forall k, l, a: nat | 0 <= k < l < |ps| && E.Covers(ps[k], a) ensures !E.Covers(ps[l], a) {
      var i := EntryOf(es, k);
      var j := EntryOf(es, l);
      if j <= i {
        RankGrows(es, j, i);
      }
      assert !Meets(es[i], es[j], a);
    }
  }

  lemma SizedLoads(file: seq<byte>, eh: E.Ehdr, es: seq<Entry>)
    requires HasTable(file, eh, es) && Sized(es)
    ensures E.Sized(file, eh)
  {
    hide HasTable, E.Loads;
    forall n | 0 <= n <= eh.phnum && E.Loads(file, eh, n).Some? ensures E.AllSized(E.Loads(file, eh, n).value) {
      TablePrefix(file, eh, es, n);
    }
  }

  lemma TablePrefix(file: seq<byte>, eh: E.Ehdr, es: seq<Entry>, n: nat)
    requires HasTable(file, eh, es) && Sized(es) && n <= eh.phnum
    ensures E.Loads(file, eh, n) == Some(Loadable(es[..n])) && E.AllSized(Loadable(es[..n]))
  {
    hide EntryAt, E.Loads, Loadable;
    TableRead(file, eh, es, n);
    var ps := Loadable(es[..n]);
    forall k | 0 <= k < |ps| ensures ps[k].filesz <= ps[k].memsz && ps[k].vaddr + ps[k].memsz <= USER_HALF_MAX {
      var i := EntryOf(es[..n], k);
      assert es[..n][i] == es[i];
    }
  }

  lemma CutOffBreaks(file: seq<byte>, eh: E.Ehdr, es: seq<Entry>)
    requires HasTable(file, eh, es)
    ensures CutOff(file, es) <==> E.Broken(file, eh)
  {
    hide HasTable, E.Loads, Loadable;
    WholeTable(file, eh, es);
    var ps := Loadable(es);
    if CutOff(file, es) {
      var i :| 0 <= i < |es| && es[i].kind == 1 && es[i].filesz > 0 && es[i].offset + es[i].filesz > |file|;
      RankOf(es, i);
      assert !E.Readable(file, ps[Rank(es, i)].offset, ps[Rank(es, i)].filesz);
    }
    if E.Broken(file, eh) {
      var k :| 0 <= k < |ps| && !E.Readable(file, ps[k].offset, ps[k].filesz);
      var i := EntryOf(es, k);
    }
  }

  /** Some loadable entry starts at address 0. */
  predicate ZeroEntry(es: seq<Entry>) {
    exists i: nat | i < |es| :: es[i].kind == 1 && es[i].vaddr == 0
  }

  lemma ZeroIsAtZero(file: seq<byte>, eh: E.Ehdr, es: seq<Entry>)
    requires HasTable(file, eh, es)
    ensures ZeroEntry(es) <==> E.AtZero(file, eh)
  {
    hide HasTable, E.Loads, Loadable;
    WholeTable(file, eh, es);
    var ps := Loadable(es);
    if ZeroEntry(es) {
      var i: nat :| i < |es| && es[i].kind == 1 && es[i].vaddr == 0;
      RankOf(es, i);
      assert ps[Rank(es, i)].vaddr == 0;
      assert E.Loads(file, eh, eh.phnum) == Some(ps) && !E.NoneAtZero(ps);
    } else {
      forall k | 0 <= k < |ps| ensures ps[k].vaddr != 0 {
        var i := EntryOf(es, k);
      }
      E.NowhereAtZero(file, eh);
    }
  }

  lemma WholeTable(file: seq<byte>, eh: E.Ehdr, es: seq<Entry>)
    requires HasTable(file, eh, es)
    ensures E.Loads(file, eh, eh.phnum) == Some(Loadable(es))
  {
    hide EntryAt, E.Loads;
    TableRead(file, eh, es, |es|);
    assert es[..|es|] == es;
  }

  /** Address a of the memory holds the k-th byte of entry e: from the file, then zeros. */
  ghost predicate Placed(file: seq<byte>, e: Entry, k: nat, m: E.Mem) {
    && E.Backed(m, e.vaddr + k)
    && (k < e.filesz ==> e.offset + k < |file| && E.ByteAt(m, e.vaddr + k) == file[e.offset + k])
    && (k >= e.filesz ==> E.ByteAt(m, e.vaddr + k) == 0)
  }

  lemma EntryPlaced(file: seq<byte>, es: seq<Entry>, m: E.Mem, i: nat, k: nat)
    requires Disjoint(es) && E.AllOk(file, Loadable(es)) && E.Loaded(file, Loadable(es), m)
    requires i < |es| && es[i].kind == 1 && k < es[i].memsz
    ensures Placed(file, es[i], k, m)
  {
    hide E.Backed, E.ByteAt, E.Loaded, E.InPlace, E.SegmentOk, E.Disjoint, Loadable, Rank, Disjoint, Placed;
    DisjointLoads(es);
    RankOf(es, i);
    var p := Loadable(es)[Rank(es, i)];
    E.DisjointInPlace(file, Loadable(es), m, Rank(es, i));
    BytePlaced(file, p, es[i], m, k);
  }

  lemma BytePlaced(file: seq<byte>, p: E.Phdr, e: Entry, m: E.Mem, k: nat)
    requires E.SegmentOk(file, p) && E.InPlace(file, p, m) && p == E.Phdr(1, e.offset, e.vaddr, e.filesz, e.memsz)
    requires k < e.memsz
    ensures Placed(file, e, k, m)
  {
    hide E.Backed, E.ByteAt;
    assert E.Covers(p, e.vaddr + k);
  }

  /** Loading a program whose file has this table: if it succeeds, every byte of every loadable entry is at its virtual
      address, from its file offset on and then zeros, provided that no two entries claim one address. It fails to read
      exactly where the file is too short, and finds no memory only when there is none or an entry starts at address
      0. */
  method LoadProgram(l: E.Loader, eh: E.Ehdr, es: seq<Entry>) returns (st: E.Status)
    requires l.Valid() && HasTable(l.file, eh, es) && Sized(es)
    modifies l, l.mmu, l.mmu.pmm, l.mmu.pmm.bitmap
    ensures l.Valid() && (CutOff(l.file, es) || ZeroEntry(es) ==> st != E.Ok)
    ensures st == E.IoError ==> CutOff(l.file, es)
    ensures st == E.NoMemory ==> ZeroEntry(es) || Exhausted(l.mmu.Value().pool)
    ensures st == E.Ok && Disjoint(es) ==> forall i: nat, k: nat |
              i < |es| && es[i].kind == 1 && k < es[i].memsz :: Placed(l.file, es[i], k, l.M())
  {
    hide HasTable, E.Loads, E.Loaded, E.Broken, E.Backed, E.ByteAt, Loadable, E.AllHeld, E.OthersKept, E.KeptOutside,
         E.AtZero, ZeroEntry;
    SizedLoads(l.file, eh, es);
    CutOffBreaks(l.file, eh, es);
    ZeroIsAtZero(l.file, eh, es);
    WholeTable(l.file, eh, es);
    st := l.ElLoad(eh);
    if st == E.Ok && Disjoint(es) {
      forall i: nat, k: nat | i < |es| && es[i].kind == 1 && k < es[i].memsz
        ensures Placed(l.file, es[i], k, l.M())
      {
        EntryPlaced(l.file, es, l.M(), i, k);
      }
    }
  }
}
