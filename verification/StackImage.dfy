/** The initial user stack (kernel/sched/sched.c, kernel/elf/tus_elf.c) and how the C runtime reads it
    (sources/musl-1.2.6/crt/crt1.c, sources/musl-1.2.6/ldso/dlstart.c). */
module StackImage {
  import opened Base

  const MAX_ARGS: nat := 16
  const STACK_BASE: nat := 0x6000_0000
  const STACK_SIZE: nat := 65536
  const AT_PAGESZ: nat := 6

  /** User address of the top stack page. */
  const TOP_PAGE: nat := STACK_BASE + STACK_SIZE - PAGE_SIZE

  /** A C string: no NUL inside. */
  predicate CString(s: seq<byte>) {
    0 !in s
  }

  // ---- little-endian words ----

  function Le(v: nat, n: nat): (r: seq<byte>)
    ensures |r| == n
  {
    if n == 0 then [] else [(v % 256) as byte] + Le(v / 256, n - 1)
  }

  function UnLe(s: seq<byte>): nat {
    if s == [] then 0 else s[0] as nat + 256 * UnLe(s[1..])
  }

  function Limit(n: nat): nat {
    if n == 0 then 1 else 256 * Limit(n - 1)
  }

  lemma {:induction false} LeRoundTrip(v: nat, n: nat)
    requires v < Limit(n)
    ensures UnLe(Le(v, n)) == v
  {
    if n > 0 {
      LeRoundTrip(v / 256, n - 1);
      assert Le(v, n)[1..] == Le(v / 256, n - 1);
    }
  }

  /** The lowest byte comes first. */
  lemma LittleEndian(s: seq<byte>)
    requires |s| == 8
    ensures UnLe(s) == s[0] as int + 0x100 * s[1] as int + 0x1_0000 * s[2] as int + 0x100_0000 * s[3] as int
                       + 0x1_0000_0000 * s[4] as int + 0x100_0000_0000 * s[5] as int
                       + 0x1_0000_0000_0000 * s[6] as int + 0x100_0000_0000_0000 * s[7] as int
  {
    assert s[0..] == s && s[8..] == [] && UnLe(s[8..]) == 0;
    hide UnLe;
    FirstByte(s, 7);
    FirstByte(s, 6);
    FirstByte(s, 5);
    FirstByte(s, 4);
    FirstByte(s, 3);
    FirstByte(s, 2);
    FirstByte(s, 1);
    FirstByte(s, 0);
  }

  lemma FirstByte(s: seq<byte>, k: nat)
    requires k < |s|
    ensures UnLe(s[k..]) == s[k] as int + 256 * UnLe(s[k + 1..])
  {
    assert s[k..][1..] == s[k + 1..];
  }

  lemma WordLimit()
    ensures Limit(8) == WORD
  {
    assert Limit(4) == 0x1_0000_0000;
    assert Limit(6) == 0x1_0000_0000_0000;
  }

  /** The word at offset a of the page. */
  function WordAt(p: seq<byte>, a: nat): nat
    requires a + 8 <= |p|
  {
    UnLe(p[a..a + 8])
  }

  /** The words ws lie at offset a. */
  ghost predicate WordsAt(p: seq<byte>, a: nat, ws: seq<nat>) {
    a + 8 * |ws| <= |p| && forall j | 0 <= j < |ws| :: WordAt(p, a + 8 * j) == ws[j]
  }

  /** The string s, with its NUL, lies at offset a. */
  predicate StringAt(p: seq<byte>, a: nat, s: seq<byte>) {
    a + |s| < |p| && p[a..a + |s|] == s && p[a + |s|] == 0
  }

  // ---- the arguments ----

  /** A pointer that may be NULL. */
  type Str = Option<seq<byte>>

  function Text(s: Str): seq<byte> {
    if s.Some? then s.value else []
  }

  function Count(argc: nat): nat {
    if argc + 1 > MAX_ARGS then MAX_ARGS else argc + 1
  }

  predicate ArgvOk(argc: nat, argv: Option<seq<Str>>) {
    argv.Some? ==> |argv.value| >= argc && forall i | 0 <= i < argc :: CString(Text(argv.value[i]))
  }

  /** The program name followed by the arguments, at most MAX_ARGS in all; a NULL is an empty string. */
  function Args(name: Str, argc: nat, argv: Option<seq<Str>>): (r: seq<seq<byte>>)
    requires ArgvOk(argc, argv)
    ensures |r| == Count(argc)
  {
    seq(Count(argc), i requires 0 <= i < Count(argc) =>
      if i == 0 then Text(name) else if argv.None? then [] else Text(argv.value[i - 1]))
  }

  /** Bytes of the strings with their NULs. */
  function Bytes(args: seq<seq<byte>>): nat {
    if args == [] then 0 else Bytes(args[..|args| - 1]) + |args[|args| - 1]| + 1
  }

  /** What the size check adds up. */
  function Need(args: seq<seq<byte>>): nat {
    8 + 8 * (|args| + 6) + Bytes(args)
  }

  /** The offset of the i-th string. */
  function Pos(args: seq<seq<byte>>, i: nat): int
    requires i < |args|
  {
    PAGE_SIZE - Bytes(args[..i + 1])
  }

  lemma {:induction false} BytesGrow(args: seq<seq<byte>>, i: nat, j: nat)
    requires i <= j <= |args|
    ensures Bytes(args[..i]) <= Bytes(args[..j])
    decreases j - i
  {
    if i < j {
      BytesGrow(args, i, j - 1);
      assert args[..j][..j - 1] == args[..j - 1];
    }
  }

  lemma BytesNext(args: seq<seq<byte>>, i: nat)
    requires i < |args|
    ensures Bytes(args[..i + 1]) == Bytes(args[..i]) + |args[i]| + 1
  {
    assert args[..i + 1][..i] == args[..i];
  }

  // ---- writing ----

  /** memcpy of a string and its NUL to offset a. */
  method PutString(page: array<byte>, a: nat, s: seq<byte>)
    requires a + |s| < page.Length
    modifies page
    ensures StringAt(page[..], a, s)
    ensures forall k | 0 <= k < page.Length && !(a <= k <= a + |s|) :: page[k] == old(page[k])
  {
    var i := 0;
    while i < |s|
      invariant i <= |s| && (forall k | 0 <= k < i :: page[a + k] == s[k])
      invariant forall k | 0 <= k < page.Length && !(a <= k < a + i) :: page[k] == old(page[k])
    {
      page[a + i] := s[i];
      i := i + 1;
    }
    page[a + |s|] := 0;
    assert page[..][a..a + |s|] == s;
  }

  /** A 64-bit store at offset a. */
  method PutWord(page: array<byte>, a: nat, v: nat)
    requires a + 8 <= page.Length && v < WORD
    modifies page
    ensures WordAt(page[..], a) == v
    ensures forall k | 0 <= k < page.Length && !(a <= k < a + 8) :: page[k] == old(page[k])
  {
    var bs := Le(v, 8);
    var i := 0;
    while i < 8
      invariant i <= 8 && forall k | 0 <= k < i :: page[a + k] == bs[k]
      invariant forall k | 0 <= k < page.Length && !(a <= k < a + i) :: page[k] == old(page[k])
    {
      page[a + i] := bs[i];
      i := i + 1;
    }
    assert page[..][a..a + 8] == bs;
    WordLimit();
    LeRoundTrip(v, 8);
  }

  /** Outside [lo, hi) both pages are alike. */
  predicate SameBut(p: seq<byte>, p': seq<byte>, lo: nat, hi: nat) {
    |p'| == |p| && forall k | 0 <= k < |p| && !(lo <= k < hi) :: p'[k] == p[k]
  }

  lemma WordKept(p: seq<byte>, p': seq<byte>, lo: nat, hi: nat, a: nat)
    requires SameBut(p, p', lo, hi) && a + 8 <= |p| && (a + 8 <= lo || hi <= a)
    ensures WordAt(p', a) == WordAt(p, a)
  {
    assert p'[a..a + 8] == p[a..a + 8];
  }

  lemma StringKept(p: seq<byte>, p': seq<byte>, lo: nat, hi: nat, a: nat, s: seq<byte>)
    requires SameBut(p, p', lo, hi) && StringAt(p, a, s) && (a + |s| < lo || hi <= a)
    ensures StringAt(p', a, s)
  {
    assert p'[a..a + |s|] == p[a..a + |s|];
  }

  /** The next word of a word array. */
  method AppendWord(page: array<byte>, a: nat, ghost ws: seq<nat>, n: nat, v: nat)
    requires WordsAt(page[..], a, ws) && n == |ws| && a + 8 * n + 8 <= page.Length && v < WORD
    modifies page
    ensures WordsAt(page[..], a, ws + [v]) && SameBut(old(page[..]), page[..], a + 8 * n, a + 8 * n + 8)
  {
    hide WordAt;
    ghost var p := page[..];
    PutWord(page, a + 8 * n, v);
    assert SameBut(p, page[..], a + 8 * n, a + 8 * n + 8);
    forall j | 0 <= j < n ensures WordAt(page[..], a + 8 * j) == ws[j] {
      WordKept(p, page[..], a + 8 * n, a + 8 * n + 8, a + 8 * j);
    }
  }

  /** The first n strings lie at their offsets. */
  ghost predicate StringsAt(p: seq<byte>, args: seq<seq<byte>>, n: nat) {
    |p| == PAGE_SIZE && n <= |args| && forall i | 0 <= i < n :: Pos(args, i) >= 0 && StringAt(p, Pos(args, i), args[i])
  }

  lemma StringsKept(p: seq<byte>, p': seq<byte>, lo: nat, hi: nat, args: seq<seq<byte>>, n: nat)
    requires StringsAt(p, args, n) && SameBut(p, p', lo, hi) && hi <= PAGE_SIZE - Bytes(args[..n])
    ensures StringsAt(p', args, n)
  {
    hide StringAt, Bytes;
    forall i | 0 <= i < n ensures StringAt(p', Pos(args, i), args[i]) {
      BytesGrow(args, i + 1, n);
      StringKept(p, p', lo, hi, Pos(args, i), args[i]);
    }
  }

  /** The user addresses of the strings. */
  function Pointers(args: seq<seq<byte>>): (r: seq<nat>)
    requires Bytes(args) <= PAGE_SIZE
    ensures |r| == |args|
  {
    seq(|args|, i requires 0 <= i < |args| => Pointer(args, i))
  }

  function Pointer(args: seq<seq<byte>>, i: nat): nat
    requires i < |args| && Bytes(args) <= PAGE_SIZE
  {
    AllFit(args, i);
    TOP_PAGE + Pos(args, i)
  }

  lemma AllFit(args: seq<seq<byte>>, i: nat)
    requires i < |args| && Bytes(args) <= PAGE_SIZE
    ensures Pos(args, i) >= 0
  {
    BytesGrow(args, i + 1, |args|);
    assert args[..|args|] == args;
  }

  /** The strings, growing down from the top of the page. */
  method PutStrings(page: array<byte>, args: seq<seq<byte>>) returns (sptr: nat, ptrs: seq<nat>)
    requires page.Length == PAGE_SIZE && Bytes(args) <= PAGE_SIZE
    modifies page
    ensures sptr == PAGE_SIZE - Bytes(args) && ptrs == Pointers(args)
    ensures StringsAt(page[..], args, |args|) && SameBut(old(page[..]), page[..], sptr, PAGE_SIZE)
  {
    hide StringAt, Bytes;
    assert args[..0] == [] && Bytes([]) == 0 by {
      NoBytes();
    }
    sptr, ptrs := PAGE_SIZE, [];
    var i := 0;
    while i < |args|
      invariant i <= |args| && sptr == PAGE_SIZE - Bytes(args[..i])
      invariant |ptrs| == i && forall k | 0 <= k < i :: ptrs[k] == TOP_PAGE + Pos(args, k)
      invariant StringsAt(page[..], args, i) && SameBut(old(page[..]), page[..], sptr, PAGE_SIZE)
    {
      AllFit(args, i);
      BytesNext(args, i);
      ghost var p := page[..];
      ghost var was := sptr;
      sptr := sptr - (|args[i]| + 1);
      PutString(page, sptr, args[i]);
      assert SameBut(p, page[..], sptr, was);
      StringsKept(p, page[..], sptr, was, args, i);
      ptrs := ptrs + [TOP_PAGE + sptr];
      i := i + 1;
    }
    assert args[..|args|] == args;
  }

  lemma NoBytes()
    ensures Bytes([]) == 0
  {
  }

  /** The words of the image: argc, the argument pointers, NULL, an empty environment, AT_PAGESZ and the end. */
  function ImageWords(args: seq<seq<byte>>): (r: seq<nat>)
    requires Bytes(args) <= PAGE_SIZE
    ensures |r| == |args| + 6
  {
    [|args|] + Pointers(args) + [0, 0, AT_PAGESZ, PAGE_SIZE, 0]
  }

  lemma PointerRange(args: seq<seq<byte>>, i: nat)
    requires i < |args| && Bytes(args) <= PAGE_SIZE
    ensures TOP_PAGE <= Pointers(args)[i] <= TOP_PAGE + PAGE_SIZE < WORD
  {
    AllFit(args, i);
  }

  /** The pointer array at offset a, word by word. */
  method PutWords(page: array<byte>, a: nat, args: seq<seq<byte>>, ptrs: seq<nat>)
    requires page.Length == PAGE_SIZE && Bytes(args) <= PAGE_SIZE && |args| <= MAX_ARGS && ptrs == Pointers(args)
    requires a + 8 * (|args| + 6) <= PAGE_SIZE
    modifies page
    ensures WordsAt(page[..], a, ImageWords(args)) && SameBut(old(page[..]), page[..], a, a + 8 * (|args| + 6))
  {
    hide WordsAt, Pointers, Bytes;
    var n := |args|;
    NoWords(page[..], a);
    AppendWord(page, a, [], 0, n);
    var i := 0;
    assert [n] + ptrs[..0] == [n] && [] + [n] == [n];
    while i < n
      invariant i <= n && WordsAt(page[..], a, [n] + ptrs[..i])
      invariant SameBut(old(page[..]), page[..], a, a + 8 * (1 + i))
    {
      PointerRange(args, i);
      AppendWord(page, a, [n] + ptrs[..i], 1 + i, ptrs[i]);
      assert [n] + ptrs[..i] + [ptrs[i]] == [n] + ptrs[..i + 1];
      i := i + 1;
    }
    ghost var ws := [n] + ptrs;
    assert [n] + ptrs[..n] == ws;
    AppendWord(page, a, ws, 1 + n, 0);
    AppendWord(page, a, ws + [0], 2 + n, 0);
    AppendWord(page, a, ws + [0] + [0], 3 + n, AT_PAGESZ);
    AppendWord(page, a, ws + [0] + [0] + [AT_PAGESZ], 4 + n, PAGE_SIZE);
    AppendWord(page, a, ws + [0] + [0] + [AT_PAGESZ] + [PAGE_SIZE], 5 + n, 0);
    assert ws + [0] + [0] + [AT_PAGESZ] + [PAGE_SIZE] + [0] == ImageWords(args);
  }

  lemma NoWords(p: seq<byte>, a: nat)
    requires a <= |p|
    ensures WordsAt(p, a, [])
  {
  }

  // ---- reading ----

  /** A word of user memory; only the top page can be read here. */
  function Word(p: seq<byte>, addr: nat): Option<nat> {
    if TOP_PAGE <= addr && addr + 8 <= TOP_PAGE + |p| then Some(WordAt(p, addr - TOP_PAGE)) else None
  }

  function StringFrom(p: seq<byte>, a: nat): Option<seq<byte>>
    decreases |p| - a
  {
    if a >= |p| then None
    else if p[a] == 0 then Some([])
    else match StringFrom(p, a + 1)
      case None => None
      case Some(s) => Some([p[a]] + s)
  }

  function CStringAt(p: seq<byte>, addr: nat): Option<seq<byte>> {
    if addr < TOP_PAGE then None else StringFrom(p, addr - TOP_PAGE)
  }

  /** The strings that n pointers from addr point to. */
  function Strings(p: seq<byte>, addr: nat, n: nat): Option<seq<seq<byte>>> {
    if n == 0 then Some([])
    else
      match (Strings(p, addr, n - 1), Word(p, addr + 8 * (n - 1)))
      case (Some(ss), Some(w)) =>
        (match CStringAt(p, w)
         case Some(s) => Some(ss + [s])
         case None => None)
      case _ => None
  }

  /** The index of the first zero word from i of the array at addr. */
  function ZeroFrom(p: seq<byte>, addr: nat, i: nat): (r: Option<nat>)
    ensures r.Some? ==> r.value >= i
    decreases |p| + TOP_PAGE - (addr + 8 * i)
  {
    match Word(p, addr + 8 * i)
    case None => None
    case Some(w) => if w == 0 then Some(i) else ZeroFrom(p, addr, i + 1)
  }

  /** The auxiliary vector at addr, up to its zero key. */
  function AuxFrom(p: seq<byte>, addr: nat): Option<seq<(nat, nat)>>
    decreases |p| + TOP_PAGE - addr
  {
    match Word(p, addr)
    case None => None
    case Some(k) =>
      if k == 0 then Some([])
      else
        match (Word(p, addr + 8), AuxFrom(p, addr + 16))
        case (Some(v), Some(rest)) => Some([(k, v)] + rest)
        case _ => None
  }

  /** What a program finds at its entry: arguments, the number of environment strings, the auxiliary vector. */
  datatype Startup = Startup(args: seq<seq<byte>>, env: nat, aux: seq<(nat, nat)>)

  /** The C runtime's reading of the stack: argc at rsp, argv after it; the environment after argv's
      terminator, and the auxiliary vector after the environment's. */
  function ReadStartup(p: seq<byte>, rsp: nat): Option<Startup> {
    match Word(p, rsp)
    case None => None
    case Some(argc) =>
      var argv := rsp + 8;
      if Word(p, argv + 8 * argc) != Some(0) then None
      else
        match (Strings(p, argv, argc), ZeroFrom(p, argv, argc + 1))
        case (Some(args), Some(i)) =>
          (match AuxFrom(p, argv + 8 * (i + 1))
           case Some(aux) => Some(Startup(args, i - (argc + 1), aux))
           case None => None)
        case _ => None
  }

  lemma {:induction false} ReadsString(p: seq<byte>, a: nat, s: seq<byte>)
    requires StringAt(p, a, s) && CString(s)
    ensures StringFrom(p, a) == Some(s)
    decreases |s|
  {
    if s != [] {
      assert p[a] == s[0] && p[a + 1..a + 1 + |s[1..]|] == s[1..];
      ReadsString(p, a + 1, s[1..]);
      assert [s[0]] + s[1..] == s;
    }
  }

  /** The j-th word of the image. */
  lemma ReadsWord(p: seq<byte>, a: nat, ws: seq<nat>, j: nat)
    requires WordsAt(p, a, ws) && j < |ws|
    ensures Word(p, TOP_PAGE + a + 8 * j) == Some(ws[j])
  {
    hide WordAt;
  }

  ghost predicate HoldsImage(p: seq<byte>, a: nat, args: seq<seq<byte>>) {
    && Bytes(args) <= PAGE_SIZE && WordsAt(p, a, ImageWords(args)) && StringsAt(p, args, |args|)
    && forall i | 0 <= i < |args| :: CString(args[i])
  }

  /** The k-th pointer leads to the k-th argument. */
  lemma ReadsArg(p: seq<byte>, a: nat, args: seq<seq<byte>>, k: nat)
    requires k < |args| && HoldsImage(p, a, args)
    ensures var w := Word(p, TOP_PAGE + a + 8 + 8 * k); w.Some? && CStringAt(p, w.value) == Some(args[k])
  {
    hide WordsAt, Word, Bytes, StringAt, StringFrom, CString;
    ReadsWord(p, a, ImageWords(args), k + 1);
    assert ImageWords(args)[k + 1] == Pointers(args)[k] == Pointer(args, k);
    AllFit(args, k);
    assert StringAt(p, Pos(args, k), args[k]);
    ReadsString(p, Pos(args, k), args[k]);
  }

  lemma {:induction false} ReadsStrings(p: seq<byte>, a: nat, args: seq<seq<byte>>, n: nat)
    requires n <= |args| && HoldsImage(p, a, args)
    ensures Strings(p, TOP_PAGE + a + 8, n) == Some(args[..n])
  {
    if n > 0 {
      hide HoldsImage, Word, CStringAt;
      ReadsStrings(p, a, args, n - 1);
      ReadsArg(p, a, args, n - 1);
      assert args[..n] == args[..n - 1] + [args[n - 1]];
    }
  }

  lemma AuxOne(p: seq<byte>, addr: nat, k: nat, v: nat)
    requires k != 0 && Word(p, addr) == Some(k) && Word(p, addr + 8) == Some(v) && Word(p, addr + 16) == Some(0)
    ensures AuxFrom(p, addr) == Some([(k, v)])
  {
    hide Word;
    assert AuxFrom(p, addr + 16) == Some([]);
    assert [(k, v)] + [] == [(k, v)];
  }

  /** The image reads back as what was put into it. */
  lemma ReadsImage(p: seq<byte>, a: nat, args: seq<seq<byte>>)
    requires HoldsImage(p, a, args)
    ensures ReadStartup(p, TOP_PAGE + a) == Some(Startup(args, 0, [(AT_PAGESZ, PAGE_SIZE)]))
  {
    hide Word, Strings, AuxFrom;
    var n := |args|;
    ReadsTail(p, a, args);
    ReadsStrings(p, a, args, n);
    hide HoldsImage;
    assert args[..n] == args;
    var argv := TOP_PAGE + a + 8;
    assert ZeroFrom(p, argv, n + 1) == Some(n + 1);
    AuxOne(p, argv + 8 * (n + 2), AT_PAGESZ, PAGE_SIZE);
  }

  /** The words around the argument pointers. */
  lemma ReadsTail(p: seq<byte>, a: nat, args: seq<seq<byte>>)
    requires HoldsImage(p, a, args)
    ensures var n, rsp, argv := |args|, TOP_PAGE + a, TOP_PAGE + a + 8;
            && Word(p, rsp) == Some(n) && Word(p, argv + 8 * n) == Some(0) && Word(p, argv + 8 * (n + 1)) == Some(0)
            && Word(p, argv + 8 * (n + 2)) == Some(AT_PAGESZ) && Word(p, argv + 8 * (n + 2) + 8) == Some(PAGE_SIZE)
            && Word(p, argv + 8 * (n + 2) + 16) == Some(0)
  {
    hide WordsAt, Word, Bytes, StringsAt, Pointers;
    var n := |args|;
    var ws := ImageWords(args);
    ReadsWord(p, a, ws, 0);
    ReadsWord(p, a, ws, n + 1);
    ReadsWord(p, a, ws, n + 2);
    ReadsWord(p, a, ws, n + 3);
    ReadsWord(p, a, ws, n + 4);
    ReadsWord(p, a, ws, n + 5);
  }

  // ---- the builder ----

  /** The image part of task_create_user and exec_build_stack, on the top page of a new stack. */
  method BuildStack(page: array<byte>, name: Str, argc: nat, argv: Option<seq<Str>>) returns (rsp: nat)
    requires page.Length == PAGE_SIZE && CString(Text(name)) && ArgvOk(argc, argv)
    modifies page
    ensures rsp == 0 <==> Need(Args(name, argc, argv)) > PAGE_SIZE
    ensures rsp == 0 ==> page[..] == old(page[..])
    ensures rsp != 0 ==>
              var args := Args(name, argc, argv);
              && TOP_PAGE < rsp && rsp + 8 * (|args| + 6) <= TOP_PAGE + PAGE_SIZE - Bytes(args)
              && SameBut(old(page[..]), page[..], rsp - TOP_PAGE, PAGE_SIZE)
              && ReadStartup(page[..], rsp) == Some(Startup(args, 0, [(AT_PAGESZ, PAGE_SIZE)]))
    ensures rsp != 0 ==>
              && ReadStartup(page[..], rsp).Some?
              && var seen := ReadStartup(page[..], rsp).value.args;
                 && |seen| == (if argc < 15 then argc + 1 else 16) && seen[0] == Text(name)
                 && forall i | 1 <= i < |seen| ::
                      seen[i] == if argv.Some? && argv.value[i - 1].Some? then argv.value[i - 1].value else []
    ensures rsp % 8 == 0
  {
    hide ReadStartup, StringsAt, WordsAt, ImageWords, Pointers, Bytes, Args, CString, ArgvOk;
    var nargs := if argc + 1 > MAX_ARGS then MAX_ARGS else argc + 1;
    var nwords := nargs + 6;
    var args := CollectArgs(name, argc, argv, nargs);
    var need := SizeNeeded(args, nwords);
    if need > PAGE_SIZE {
      return 0;
    }
    var sptr, ptrs := PutStrings(page, args);
    ghost var p := page[..];
    var init := sptr / 8 * 8 - 8 * nwords;
    PutWords(page, init, args, ptrs);
    assert args[..nargs] == args;
    StringsKept(p, page[..], init, init + 8 * nwords, args, nargs);
    AllStrings(name, argc, argv);
    ArgsInOrder(name, argc, argv);
    ReadsImage(page[..], init, args);
    return TOP_PAGE + init;
  }

  lemma ArgsInOrder(name: Str, argc: nat, argv: Option<seq<Str>>)
    requires ArgvOk(argc, argv)
    ensures var args := Args(name, argc, argv);
            && |args| == (if argc < 15 then argc + 1 else 16) && args[0] == Text(name)
            && forall i | 1 <= i < |args| ::
                 args[i] == if argv.Some? && argv.value[i - 1].Some? then argv.value[i - 1].value else []
  {
  }

  /** The size that is checked: 56 bytes, and for each argument 8 for its pointer, its bytes and their NUL. */
  lemma NeedIs(args: seq<seq<byte>>, a: seq<byte>)
    ensures Need([]) == 56 && Need(args + [a]) == Need(args) + 8 + |a| + 1
  {
    assert (args + [a])[..|args|] == args;
  }

  lemma AllStrings(name: Str, argc: nat, argv: Option<seq<Str>>)
    requires CString(Text(name)) && ArgvOk(argc, argv)
    ensures forall i | 0 <= i < Count(argc) :: CString(Args(name, argc, argv)[i])
  {
  }

  /** The loop over argv. */
  method CollectArgs(name: Str, argc: nat, argv: Option<seq<Str>>, nargs: nat) returns (args: seq<seq<byte>>)
    requires ArgvOk(argc, argv) && nargs == Count(argc)
    ensures args == Args(name, argc, argv)
  {
    args := [Text(name)];
    while |args| < nargs
      invariant 1 <= |args| <= nargs && args == Args(name, argc, argv)[..|args|]
    {
      args := args + [if argv.None? then [] else Text(argv.value[|args| - 1])];
    }
  }

  /** The size check's sum. */
  method SizeNeeded(args: seq<seq<byte>>, nwords: nat) returns (need: nat)
    requires nwords == |args| + 6
    ensures need == Need(args)
  {
    need := 8 + nwords * 8;
    var i := 0;
    while i < |args|
      invariant i <= |args| && need == 8 + nwords * 8 + Bytes(args[..i])
    {
      BytesNext(args, i);
      need := need + |args[i]| + 1;
      i := i + 1;
    }
    assert args[..|args|] == args;
  }

  /** The initial stack pointer is 16-byte aligned, as section 3.4.1 of the System V AMD64 ABI asks,
      exactly when the words between it and the end of the page are even in number. */
  lemma Alignment(args: seq<seq<byte>>)
    requires Need(args) <= PAGE_SIZE
    ensures var init := (PAGE_SIZE - Bytes(args)) / 8 * 8 - 8 * (|args| + 6);
            (TOP_PAGE + init) % 16 == 0 <==> ((Bytes(args) + 7) / 8 + |args|) % 2 == 0
  {
    hide Bytes;
    var q := (Bytes(args) + 7) / 8;
    assert (PAGE_SIZE - Bytes(args)) / 8 * 8 == PAGE_SIZE - 8 * q;
    Halves(512 - q - |args| - 6);
  }

  lemma Halves(k: int)
    ensures (TOP_PAGE + 8 * k) % 16 == 0 <==> k % 2 == 0
  {
    var q, r := k / 2, k % 2;
    assert k == 2 * q + r;
    assert TOP_PAGE + 8 * k == 16 * (TOP_PAGE / 16 + q) + 8 * r;
    Remainder(TOP_PAGE / 16 + q, 8 * r);
  }

  lemma Remainder(q: int, r: nat)
    requires r < 16
    ensures (16 * q + r) % 16 == r
  {
  }
}
