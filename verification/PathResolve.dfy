/** The shell's path normalisation (kernel/shell/cmd_fs.c). */
module PathResolve {
  import opened Base
  import opened PathNames

  const TMP_SIZE: nat := 288
  const SEG_MAX: nat := 32

  // ---- the fold of "." and ".." ----

  function Push(stack: seq<string>, c: string): seq<string> {
    if c == "." then stack
    else if c == ".." then if stack == [] then [] else stack[..|stack| - 1]
    else stack + [c]
  }

  function Fold(stack: seq<string>, cs: seq<string>): seq<string>
    decreases |cs|
  {
    if cs == [] then stack else Fold(Push(stack, cs[0]), cs[1..])
  }

  /** The same with room for SEG_MAX components: further ones are dropped. */
  function PushCapped(stack: seq<string>, c: string): seq<string> {
    if c == "." || c == ".." || |stack| < SEG_MAX then Push(stack, c) else stack
  }

  function FoldCapped(stack: seq<string>, cs: seq<string>): seq<string>
    decreases |cs|
  {
    if cs == [] then stack else FoldCapped(PushCapped(stack, cs[0]), cs[1..])
  }

  /** The fold never needs more than SEG_MAX components. */
  predicate Shallow(stack: seq<string>, cs: seq<string>)
    decreases |cs|
  {
    cs == [] || (|Push(stack, cs[0])| <= SEG_MAX && Shallow(Push(stack, cs[0]), cs[1..]))
  }

  lemma {:induction false} ShallowFold(stack: seq<string>, cs: seq<string>)
    requires |stack| <= SEG_MAX && Shallow(stack, cs)
    ensures FoldCapped(stack, cs) == Fold(stack, cs) && |Fold(stack, cs)| <= SEG_MAX
    decreases |cs|
  {
    if cs != [] {
      ShallowFold(Push(stack, cs[0]), cs[1..]);
    }
  }

  lemma {:induction false} FoldSplit(stack: seq<string>, cs: seq<string>, ds: seq<string>)
    ensures Fold(stack, cs + ds) == Fold(Fold(stack, cs), ds)
    decreases |cs|
  {
    if cs == [] {
      assert cs + ds == ds;
    } else {
      assert (cs + ds)[1..] == cs[1..] + ds;
      FoldSplit(Push(stack, cs[0]), cs[1..], ds);
    }
  }

  /** Names other than "." and "..". */
  predicate Normal(cs: seq<string>) {
    Names(cs) && "." !in cs && ".." !in cs
  }

  lemma {:induction false} FoldNormal(stack: seq<string>, cs: seq<string>)
    requires Normal(stack) && Names(cs)
    ensures Normal(Fold(stack, cs)) && Normal(FoldCapped(stack, cs))
    decreases |cs|
  {
    if cs != [] {
      FoldNormal(Push(stack, cs[0]), cs[1..]);
      FoldNormal(PushCapped(stack, cs[0]), cs[1..]);
    }
  }

  lemma {:induction false} FoldOfNormal(stack: seq<string>, cs: seq<string>)
    requires Normal(cs)
    ensures Fold(stack, cs) == stack + cs
    decreases |cs|
  {
    if cs != [] {
      FoldOfNormal(stack + [cs[0]], cs[1..]);
      assert stack + [cs[0]] + cs[1..] == stack + cs;
    } else {
      assert stack + cs == stack;
    }
  }

  // ---- path_resolve ----

  /** The text that is split: the input, or the working directory and the input. */
  function Source(cwd: string, input: string): Option<string> {
    if input != "" && input[0] == '/' then Some(if |input| < TMP_SIZE then input else input[..TMP_SIZE - 1])
    else if |cwd| + 1 + |input| >= TMP_SIZE then None
    else Some(cwd + "/" + input)
  }

  function Clip(t: string, n: nat): string {
    if |t| <= n then t else t[..n]
  }

  /** What path_resolve writes to a buffer of size bytes. */
  function Resolved(cwd: string, input: string, size: nat): string
    requires size > 1
  {
    match Source(cwd, input)
    case None => "/"
    case Some(t) => Clip(Render(FoldCapped([], Comps(t))), size - 1)
  }

  /** All components that the input stands for. */
  function Meant(cwd: string, input: string): seq<string> {
    if input != "" && input[0] == '/' then Comps(input) else Comps(cwd) + Comps(input)
  }

  /** The call stays within the text buffer, the segment array and the output buffer. */
  predicate Within(cwd: string, input: string, size: nat) {
    && size > 1
    && (if input != "" && input[0] == '/' then |input| < TMP_SIZE else |cwd| + 1 + |input| < TMP_SIZE)
    && Shallow([], Meant(cwd, input)) && |Render(Fold([], Meant(cwd, input)))| < size
  }

  /** Within its limits path_resolve is the fold of the working directory's components and the input's. */
  lemma ResolvedIsFold(cwd: string, input: string, size: nat)
    requires Within(cwd, input, size)
    ensures Resolved(cwd, input, size) == Render(Fold([], Meant(cwd, input)))
    ensures Normal(Fold([], Meant(cwd, input))) && Comps(Resolved(cwd, input, size)) == Fold([], Meant(cwd, input))
  {
    CompsJoin(cwd, input);
    var cs := Meant(cwd, input);
    ShallowFold([], cs);
    CompsAreNames(input, 0);
    CompsAreNames(cwd, 0);
    FoldNormal([], cs);
    CompsOfRender(Fold([], cs));
  }

  // ---- resolving again ----

  /** The text was not cut just behind a slash, or so that "." or ".." is what is left of its last name. */
  predicate WellCut(r: string) {
    var n := |r|;
    || r == "/"
    || (&& !(n >= 1 && r[n - 1] == '/')
        && !(n >= 2 && r[n - 2] == '/' && r[n - 1] == '.')
        && !(n >= 3 && r[n - 3] == '/' && r[n - 2] == '.' && r[n - 1] == '.'))
  }

  lemma {:induction false} CappedOfNormal(stack: seq<string>, cs: seq<string>, ds: seq<string>)
    requires Normal(cs) && |stack| + |cs| <= SEG_MAX
    ensures FoldCapped(stack, cs + ds) == FoldCapped(stack + cs, ds)
    decreases |cs|
  {
    if cs == [] {
      assert cs + ds == ds && stack + cs == stack;
    } else {
      assert (cs + ds)[1..] == cs[1..] + ds && cs[0] in cs;
      CappedOfNormal(stack + [cs[0]], cs[1..], ds);
      assert stack + [cs[0]] + cs[1..] == stack + cs;
    }
  }

  lemma {:induction false} CappedFits(stack: seq<string>, cs: seq<string>)
    requires |stack| <= SEG_MAX
    ensures |FoldCapped(stack, cs)| <= SEG_MAX
    decreases |cs|
  {
    if cs != [] {
      CappedFits(PushCapped(stack, cs[0]), cs[1..]);
    }
  }

  /** A nonempty cut of a rendered path: some whole components, a slash, and the beginning of the next. */
  lemma {:induction false} CutOf(cs: seq<string>, n: nat) returns (j: nat, p: string)
    requires 1 <= n <= |Slashed(cs)|
    ensures j < |cs| && |p| <= |cs[j]| && p == cs[j][..|p|] && Slashed(cs)[..n] == Slashed(cs[..j]) + "/" + p
    decreases |cs|
  {
    var init, last := cs[..|cs| - 1], cs[|cs| - 1];
    if n <= |Slashed(init)| {
      j, p := CutOf(init, n);
      assert init[..j] == cs[..j];
    } else {
      j, p := |cs| - 1, last[..n - |Slashed(init)| - 1];
    }
  }

  /** What the resolver makes of a cut path. */
  lemma CutFold(init: seq<string>, p: string)
    requires Normal(init) && |init| < SEG_MAX && '/' !in p
    ensures FoldCapped([], Comps(Slashed(init) + "/" + p)) == if p == "" then init else Push(init, p)
  {
    hide Slashed;
    CompsJoin(Slashed(init), p);
    CompsOfSlashed(init);
    CappedOfNormal([], init, Comps(p));
    assert [] + init == init;
    if p == "" {
      NoMore(init);
    } else {
      CompsOfName(p);
      FoldStep(init, p, []);
      NoMore(PushCapped(init, p));
      assert [p] + [] == [p];
    }
  }

  lemma CutAgain(init: seq<string>, p: string)
    requires '/' !in p
    ensures var r, r' := Slashed(init) + "/" + p, Render(if p == "" then init else Push(init, p));
            |r'| <= |r| && (r' == r <==> WellCut(r))
  {
    var a := Slashed(init);
    WellCutIs(a, p);
    if p == "" || p == "." || p == ".." {
      assert |a + "/" + p| == |a| + 1 + |p|;
    } else {
      assert (init + [p])[..|init|] == init;
    }
  }

  lemma WellCutIs(a: string, p: string)
    requires '/' !in p
    ensures WellCut(a + "/" + p) <==> if p == "" then a == "" else p != "." && p != ".."
  {
    var r := a + "/" + p;
    var k := |a|;
    assert r[k] == '/' && forall i | 0 <= i < |p| :: r[k + 1 + i] == p[i];
    if |p| > 0 {
      assert r[|r| - 1] == p[|p| - 1];
    }
    if |p| > 1 {
      assert r[|r| - 2] == p[|p| - 2];
    }
    if |p| > 2 {
      assert r[|r| - 3] == p[|p| - 3];
    }
  }

  /** For every input, depth and working directory: resolving a result again gives the same exactly when
      the buffer's end did not cut it badly. */
  lemma Idempotent(cwd: string, cwd': string, input: string, size: nat)
    requires 1 < size <= TMP_SIZE
    ensures var r := Resolved(cwd, input, size);
            Resolved(cwd', r, size) == r <==> WellCut(r)
  {
    hide FoldCapped, Slashed, Comps, WellCut;
    var r, cs := Resolved(cwd, input, size), Stack(cwd, input);
    StackIsNormal(cwd, input);
    RenderStarts(cs);
    NoMore([]);
    assert Resolved(cwd', r, size) == Clip(Render(FoldCapped([], Comps(r))), size - 1);
    if cs == [] {
      CompsOfRender(cs);
      assert WellCut(r) by { RootIsWellCut(); }
    } else {
      assert r == Slashed(cs)[..|r|];
      var j, p := CutOf(cs, |r|);
      NormalCut(cs, j, p);
      CutFold(cs[..j], p);
      CutAgain(cs[..j], p);
    }
  }

  lemma RootIsWellCut()
    ensures WellCut("/")
  {
  }

  lemma NormalCut(cs: seq<string>, j: nat, p: string)
    requires Normal(cs) && j < |cs| && |p| <= |cs[j]| && p == cs[j][..|p|]
    ensures Normal(cs[..j]) && '/' !in p
  {
    assert Name(cs[j]);
  }

  /** The components that are rendered. */
  function Stack(cwd: string, input: string): seq<string> {
    match Source(cwd, input)
    case None => []
    case Some(t) => FoldCapped([], Comps(t))
  }

  lemma StackIsNormal(cwd: string, input: string)
    ensures Normal(Stack(cwd, input)) && |Stack(cwd, input)| <= SEG_MAX
  {
    if Source(cwd, input).Some? {
      var t := Source(cwd, input).value;
      CompsAreNames(t, 0);
      FoldNormal([], Comps(t));
      CappedFits([], Comps(t));
    }
  }

  /** A result that fits its buffer, the fallback "/" included, resolves to itself from anywhere. */
  lemma FittingIsFixed(cwd: string, cwd': string, input: string, size: nat)
    requires 1 < size <= TMP_SIZE && |Render(Stack(cwd, input))| < size
    ensures Resolved(cwd', Resolved(cwd, input, size), size) == Resolved(cwd, input, size)
  {
    var cs := Stack(cwd, input);
    StackIsNormal(cwd, input);
    RenderStarts(cs);
    CompsOfRender(cs);
    CappedOfNormal([], cs, []);
    assert cs + [] == cs && [] + cs == cs;
  }

  /** From the directory with components cs: a name leads into it, "." stays, ".." goes up by one component and stays at
      the root, and an absolute path starts over. */
  lemma OneStep(cs: seq<string>, name: string, size: nat)
    requires Normal(cs) && Normal([name]) && |cs| < SEG_MAX && |Render(cs)| + 1 + |name| < TMP_SIZE
    requires |Render(cs)| + 1 + |name| < size && 3 < size && |Render(cs)| + 3 < TMP_SIZE
    ensures Resolved(Render(cs), name, size) == Render(cs + [name])
    ensures Resolved(Render(cs), ".", size) == Render(cs)
    ensures Resolved(Render(cs), "..", size) == Render(if cs == [] then [] else cs[..|cs| - 1])
    ensures Resolved(Render(cs), "/" + name, size) == "/" + name
  {
    hide Comps, Slashed, FoldCapped;
    CompsOfRender(cs);
    RenderStarts(cs);
    FoldDots(cs, name);
    assert [name][0] == name;
    CompsOfName(name);
    CompsOfName(".");
    CompsOfName("..");
    CompsJoin(Render(cs), name);
    CompsJoin(Render(cs), ".");
    CompsJoin(Render(cs), "..");
    RenderLonger(cs, name);
    SlashedTwo(name, name);
    CompsOfRender([name]);
    FoldDots([], name);
    assert [] + [name] == [name];
  }

  lemma FoldDots(cs: seq<string>, name: string)
    requires Normal(cs) && Normal([name]) && |cs| < SEG_MAX
    ensures FoldCapped([], cs + [name]) == cs + [name] && FoldCapped([], cs + ["."]) == cs
    ensures FoldCapped([], cs + [".."]) == if cs == [] then [] else cs[..|cs| - 1]
  {
    hide FoldCapped;
    assert [name][0] == name && [] + cs == cs;
    CappedOfNormal([], cs, [name]);
    CappedOfNormal([], cs, ["."]);
    CappedOfNormal([], cs, [".."]);
    FoldStep(cs, name, []);
    FoldStep(cs, ".", []);
    FoldStep(cs, "..", []);
    NoMore(PushCapped(cs, name));
    NoMore(PushCapped(cs, "."));
    NoMore(PushCapped(cs, ".."));
    assert [name] + [] == [name] && ["."] + [] == ["."] && [".."] + [] == [".."];
  }

  lemma RenderLonger(cs: seq<string>, name: string)
    ensures |Render(cs + [name])| <= |Render(cs)| + 1 + |name|
    ensures cs != [] ==> |Render(cs[..|cs| - 1])| <= |Render(cs)|
  {
    assert (cs + [name])[..|cs|] == cs;
  }

  /** Of more than 32 names the first 32 are kept. */
  lemma {:induction false} FirstNamesKept(stack: seq<string>, cs: seq<string>)
    requires Normal(cs) && |stack| <= 32
    ensures FoldCapped(stack, cs) == if |stack| + |cs| <= 32 then stack + cs else (stack + cs)[..32]
    decreases |cs|
  {
    if cs == [] {
      assert stack + cs == stack;
    } else {
      assert Name(cs[0]) && cs[0] in cs;
      if |stack| < 32 {
        FirstNamesKept(stack + [cs[0]], cs[1..]);
        assert stack + [cs[0]] + cs[1..] == stack + cs;
      } else {
        FirstNamesKept(stack, cs[1..]);
        assert (stack + cs)[..32] == stack && (stack + cs[1..])[..32] == stack;
        assert cs[1..] == [] ==> stack + cs[1..] == stack;
      }
    }
  }

  /** Of an absolute path the first 287 characters count; a relative one that is too long together with the working
      directory and the slash between them gives the root. */
  lemma LongInput(cwd: string, input: string, size: nat)
    requires size > 1
    ensures input != "" && input[0] == '/' && |input| >= 288 ==>
              Resolved(cwd, input, size) == Resolved(cwd, input[..287], size)
    ensures (input == "" || input[0] != '/') && |cwd| + |input| >= 287 ==> Resolved(cwd, input, size) == "/"
  {
    hide FoldCapped, Comps, Render;
  }

  /** An absolute path of 253 letters, a slash and a further name, with the shell's 256 bytes: the first result ends
      in the slash, the second does not. */
  lemma CutExample(cwd: string, cwd': string, a: string)
    requires |a| == 253 && forall i | 0 <= i < |a| :: a[i] == 'a'
    ensures Resolved(cwd, "/" + a + "/x", 256) == "/" + a + "/"
    ensures Resolved(cwd', "/" + a + "/", 256) == "/" + a
  {
    hide FoldCapped, Comps, Slashed;
    var t := "/" + a + "/x";
    assert a[0] == 'a' && '/' !in a;
    assert Normal([a, "x"]) && Normal([a]);
    SlashedTwo(a, "x");
    assert "/" + a + "/" + "x" == t;
    CompsOfRender([a, "x"]);
    CappedOfNormal([], [a, "x"], []);
    NoMore([a, "x"]);
    assert [a, "x"] + [] == [a, "x"] && [] + [a, "x"] == [a, "x"];
    assert t[..255] == "/" + a + "/";
    CutFold([a], "");
    assert "/" + a + "/" + "" == "/" + a + "/";
  }

  lemma SlashedTwo(a: string, b: string)
    ensures Slashed([a]) == "/" + a && Slashed([a, b]) == "/" + a + "/" + b
  {
    assert [a][..0] == [] && [a, b][..1] == [a];
    assert "" + "/" + a == "/" + a;
  }

  lemma {:induction false} RenderStarts(cs: seq<string>)
    ensures Render(cs) != "" && Render(cs)[0] == '/'
  {
    if |cs| > 1 {
      RenderStarts(cs[..|cs| - 1]);
    } else if |cs| == 1 {
      assert Slashed(cs[..0]) == "";
    }
  }

  lemma MeantJoin(cwd: string, a: string, b: string)
    requires a != ""
    ensures Meant(cwd, a + "/" + b) == Meant(cwd, a) + Comps(b)
  {
    CompsJoin(a, b);
    hide Comps;
    assert (a + "/" + b)[0] == a[0];
    assert Comps(cwd) + (Comps(a) + Comps(b)) == Comps(cwd) + Comps(a) + Comps(b);
  }

  lemma FoldAgain(cs: seq<string>, ds: seq<string>)
    requires Normal(Fold([], cs))
    ensures Fold([], Fold([], cs) + ds) == Fold([], cs + ds)
  {
    hide Fold;
    var fs := Fold([], cs);
    FoldSplit([], cs, ds);
    FoldSplit([], fs, ds);
    FoldOfNormal([], fs);
    assert [] + fs == fs;
  }

  /** Resolving "a/b" is resolving "b" from where "a" resolves to. */
  lemma Composes(cwd: string, a: string, b: string, size: nat)
    requires size > 1 && a != "" && !(b != "" && b[0] == '/')
    requires Within(cwd, a + "/" + b, size) && Within(cwd, a, size) && Within(Resolved(cwd, a, size), b, size)
    ensures Resolved(cwd, a + "/" + b, size) == Resolved(Resolved(cwd, a, size), b, size)
  {
    hide Within, Resolved, Fold, Comps, Normal, Render;
    var r := Resolved(cwd, a, size);
    ResolvedIsFold(cwd, a, size);
    ResolvedIsFold(cwd, a + "/" + b, size);
    ResolvedIsFold(r, b, size);
    MeantJoin(cwd, a, b);
    FoldAgain(Meant(cwd, a), Comps(b));
  }

  // ---- the routine ----

  method SkipSlashes(t: string, i: nat) returns (p: nat)
    requires i <= |t|
    ensures p == Skip(t, i)
  {
    p := i;
    while p < |t| && t[p] == '/'
      invariant i <= p <= |t| && Skip(t, i) == Skip(t, p)
    {
      p := p + 1;
    }
  }

  method FindEnd(t: string, i: nat) returns (p: nat)
    requires i <= |t|
    ensures p == End(t, i)
  {
    p := i;
    while p < |t| && t[p] != '/'
      invariant i <= p <= |t| && End(t, i) == End(t, p)
    {
      p := p + 1;
    }
  }

  /** The segment array holds the components of stack, as places in t. */
  ghost predicate Holds(t: string, segs: seq<nat>, lens: seq<nat>, stack: seq<string>) {
    && |segs| == |lens| == SEG_MAX && |stack| <= SEG_MAX
    && forall i | 0 <= i < |stack| :: segs[i] + lens[i] <= |t| && t[segs[i]..segs[i] + lens[i]] == stack[i]
  }

  /** One segment of the split loop: pushed, popped or dropped. */
  method PutOnStack(t: string, s: nat, e: nat, segs: array<nat>, lens: array<nat>, n: nat, ghost stack: seq<string>)
    returns (n': nat, ghost stack': seq<string>)
    requires s < e <= |t| && n == |stack| && Holds(t, segs[..], lens[..], stack) && segs != lens
    modifies segs, lens
    ensures stack' == PushCapped(stack, t[s..e]) && n' == |stack'| && Holds(t, segs[..], lens[..], stack')
  {
    n', stack' := n, stack;
    ghost var c := t[s..e];
    var len := e - s;
    assert c == "." <==> len == 1 && t[s] == '.';
    assert c == ".." <==> len == 2 && t[s] == '.' && t[s + 1] == '.';
    if len == 1 && t[s] == '.' {
      return;
    }
    if len == 2 && t[s] == '.' && t[s + 1] == '.' {
      if n > 0 {
        n', stack' := n - 1, stack[..n - 1];
      }
      return;
    }
    if n < SEG_MAX {
      segs[n] := s;
      lens[n] := len;
      n', stack' := n + 1, stack + [c];
    }
  }

  lemma FoldStep(stack: seq<string>, c: string, cs: seq<string>)
    ensures FoldCapped(stack, [c] + cs) == FoldCapped(PushCapped(stack, c), cs)
  {
    assert ([c] + cs)[1..] == cs;
  }

  /** The split loop. */
  method Split(t: string, segs: array<nat>, lens: array<nat>) returns (n: nat, ghost stack: seq<string>)
    requires segs.Length == SEG_MAX && lens.Length == SEG_MAX && segs != lens
    modifies segs, lens
    ensures stack == FoldCapped([], Comps(t)) && n == |stack| && Holds(t, segs[..], lens[..], stack)
  {
    hide Skip, End, FoldCapped, PushCapped, CompsFrom;
    n, stack := 0, [];
    var p := 0;
    while p < |t|
      invariant p <= |t| && n == |stack| && Holds(t, segs[..], lens[..], stack)
      invariant FoldCapped(stack, CompsFrom(t, p)) == FoldCapped([], Comps(t))
    {
      CompsStep(t, p);
      var s := SkipSlashes(t, p);
      if s == |t| {
        NoMore(stack);
        return;
      }
      p := FindEnd(t, s);
      FoldStep(stack, t[s..p], CompsFrom(t, p));
      n, stack := PutOnStack(t, s, p, segs, lens, n, stack);
    }
    AtEnd(t);
    NoMore(stack);
  }

  lemma NoMore(stack: seq<string>)
    ensures FoldCapped(stack, []) == stack
  {
  }

  lemma AtEnd(t: string)
    ensures CompsFrom(t, |t|) == []
  {
  }

  /** memcpy of a segment to the output. */
  method CopyOut(t: string, from: nat, l: nat, out: array<char>, at: nat)
    requires from + l <= |t| && at + l <= out.Length
    modifies out
    ensures out[..at + l] == old(out[..at]) + t[from..from + l]
  {
    ghost var before := out[..at];
    var i := 0;
    assert before + t[from..from] == before;
    while i < l
      invariant i <= l && out[..at + i] == before + t[from..from + i]
    {
      ghost var done := out[..at + i];
      out[at + i] := t[from + i];
      assert out[..at + i + 1] == done + [t[from + i]];
      assert t[from..from + i + 1] == t[from..from + i] + [t[from + i]];
      i := i + 1;
    }
  }

  /** The path of the first i components. */
  function Part(stack: seq<string>, i: nat): string
    requires i <= |stack|
  {
    Render(stack[..i])
  }

  lemma PartNext(stack: seq<string>, i: nat)
    requires i < |stack|
    ensures Part(stack, i + 1) == Part(stack, i) + (if i == 0 then "" else "/") + stack[i]
  {
    assert stack[..i + 1][..i] == stack[..i];
    if i == 0 {
      assert Slashed(stack[..0]) == "";
    }
  }

  lemma {:induction false} PartGrows(stack: seq<string>, i: nat, j: nat)
    requires i <= j <= |stack|
    ensures Part(stack, i) <= Part(stack, j)
    decreases j - i
  {
    if i < j {
      PartGrows(stack, i, j - 1);
      PartNext(stack, j - 1);
    }
  }

  /** One segment of the rebuild loop. */
  method PutSegment(t: string, from: nat, len: nat, out: array<char>, at: nat, slash: bool, ghost part: string)
    returns (w: nat)
    requires from + len <= |t| && at + 1 < out.Length && out[..at] == part
    modifies out
    ensures w < out.Length
    ensures out[..w] == Clip(part + (if slash then "/" else "") + t[from..from + len], out.Length - 1)
  {
    w := at;
    if slash {
      out[w] := '/';
      w := w + 1;
      assert out[..w] == part + "/";
    }
    var left := out.Length - w;
    var l := if len < left - 1 then len else left - 1;
    ghost var head := out[..w];
    CopyOut(t, from, l, out, w);
    Shorter(t, from, len, l);
    ClipParts(head, t[from..from + len], l, out.Length - 1);
    w := w + l;
  }

  lemma Shorter(t: string, from: nat, len: nat, l: nat)
    requires l <= len && from + len <= |t|
    ensures t[from..from + len][..l] == t[from..from + l]
  {
  }

  lemma ClipParts(head: string, seg: string, l: nat, n: nat)
    requires |head| <= n && l == if |seg| < n - |head| then |seg| else n - |head|
    ensures Clip(head + seg, n) == head + seg[..l]
  {
    assert seg[..|seg|] == seg;
  }

  /** The rebuild loop. */
  method Rebuild(t: string, segs: array<nat>, lens: array<nat>, n: nat, out: array<char>, ghost stack: seq<string>)
    returns (w: nat)
    requires Holds(t, segs[..], lens[..], stack) && n == |stack| && out.Length > 1
    modifies out
    ensures w < out.Length && out[..w] == Clip(Render(stack), out.Length - 1) && out[w] == '\0'
  {
    hide Render;
    out[0] := '/';
    w := 1;
    PartZero(stack);
    assert out[..1] == "/";
    var i := 0;
    while i < n && out.Length - w > 1
      invariant i <= n && 1 <= w < out.Length && out[..w] == Clip(Part(stack, i), out.Length - 1)
    {
      PartNext(stack, i);
      assert segs[i] == segs[..][i] && lens[i] == lens[..][i];
      w := PutSegment(t, segs[i], lens[i], out, w, i > 0, Part(stack, i));
      LongEnough(stack, i + 1, out.Length - 1);
      i := i + 1;
    }
    PartGrows(stack, i, n);
    assert stack[..n] == stack;
    assert out[..w] == Clip(Part(stack, n), out.Length - 1);
    ghost var written := out[..w];
    out[w] := '\0';
    assert out[..w] == written;
  }

  lemma PartZero(stack: seq<string>)
    ensures Part(stack, 0) == "/"
  {
  }

  lemma LongEnough(stack: seq<string>, i: nat, size: nat)
    requires i <= |stack| && size >= 1
    ensures |Clip(Part(stack, i), size)| >= 1
  {
    RenderStarts(stack[..i]);
  }

  /** path_resolve. */
  method Resolve(cwd: string, input: string, out: array<char>) returns (w: nat)
    requires out.Length > 1
    modifies out
    ensures w < out.Length && out[..w] == Resolved(cwd, input, out.Length) && out[w] == '\0'
  {
    hide Render, FoldCapped, Comps;
    var t;
    if input != "" && input[0] == '/' {
      t := if |input| < TMP_SIZE then input else input[..TMP_SIZE - 1];
    } else {
      if |cwd| + 1 + |input| >= TMP_SIZE {
        out[0], out[1] := '/', '\0';
        assert out[..1] == "/";
        return 1;
      }
      t := cwd + "/" + input;
    }
    var segs, lens := new nat[SEG_MAX], new nat[SEG_MAX];
    var n, stack := Split(t, segs, lens);
    w := Rebuild(t, segs, lens, n, out, stack);
  }
}
