/** The words of the mapped heap pages (kernel/mm/kmalloc.c reads and writes them through block headers). */
module HeapMemory {
  import opened Base

  const PAGE_WORDS: nat := 512
  const HEADER: nat := 24

  type Words = s: seq<nat> | |s| == PAGE_WORDS witness seq(PAGE_WORDS, _ => 0)

  /** A mapped page: the frame behind it and its 8-byte words. */
  datatype Page = Page(frame: nat, words: Words)

  /** Mapped pages by page number. */
  type Mem = map<nat, Page>

  /** The word at address a can be accessed without a fault. */
  predicate Backed(m: Mem, a: nat) {
    a % 8 == 0 && a / PAGE_SIZE in m
  }

  function Load(m: Mem, a: nat): nat
    requires Backed(m, a)
  {
    m[a / PAGE_SIZE].words[a % PAGE_SIZE / 8]
  }

  function Store(m: Mem, a: nat, v: nat): Mem
    requires Backed(m, a)
  {
    var p := m[a / PAGE_SIZE];
    m[a / PAGE_SIZE := p.(words := p.words[a % PAGE_SIZE / 8 := v])]
  }

  /** Outside w every word is still there and as it was. */
  ghost predicate OnlyAt(m: Mem, m': Mem, w: set<nat>) {
    forall x: nat | Backed(m, x) :: Backed(m', x) && (x !in w ==> Load(m', x) == Load(m, x))
  }

  ghost predicate SameFrames(m: Mem, m': Mem) {
    m'.Keys == m.Keys && forall p | p in m :: m'[p].frame == m[p].frame
  }

  lemma WordIndex(a: nat, b: nat)
    requires a % 8 == 0 && b % 8 == 0 && a / PAGE_SIZE == b / PAGE_SIZE && a % PAGE_SIZE / 8 == b % PAGE_SIZE / 8
    ensures a == b
  {
  }

  lemma StoreEffect(m: Mem, a: nat, v: nat)
    requires Backed(m, a)
    ensures var m' := Store(m, a, v);
            Backed(m', a) && Load(m', a) == v && OnlyAt(m, m', {a}) && SameFrames(m, m')
  {
    var m' := Store(m, a, v);
    forall x: nat | Backed(m, x) ensures Backed(m', x) && (x != a ==> Load(m', x) == Load(m, x)) {
      if a / PAGE_SIZE == x / PAGE_SIZE && a % PAGE_SIZE / 8 == x % PAGE_SIZE / 8 {
        WordIndex(a, x);
      }
    }
  }

  lemma OnlyAtTrans(m: Mem, m1: Mem, m2: Mem, w: set<nat>, w1: set<nat>)
    requires OnlyAt(m, m1, w) && OnlyAt(m1, m2, w1)
    ensures OnlyAt(m, m2, w + w1)
  {
    hide Backed, Load;
  }

  /** The n words from address a. */
  function Span(m: Mem, a: nat, n: nat): (r: seq<nat>)
    requires forall i: nat | i < n :: Backed(m, a + 8 * i)
    ensures |r| == n && forall i | 0 <= i < n :: r[i] == Load(m, a + 8 * i)
  {
    seq(n, i requires 0 <= i < n => Load(m, a + 8 * i))
  }
}
