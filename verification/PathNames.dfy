/** Paths as texts and as lists of components. */
module PathNames {
  import opened Base

  /** The first position from i that holds no slash. */
  function Skip(t: string, i: nat): (r: nat)
    requires i <= |t|
    ensures i <= r <= |t| && (r < |t| ==> t[r] != '/') && forall k | i <= k < r :: t[k] == '/'
    decreases |t| - i
  {
    if i < |t| && t[i] == '/' then Skip(t, i + 1) else i
  }

  /** The end of the component at i. */
  function End(t: string, i: nat): (r: nat)
    requires i <= |t|
    ensures i <= r <= |t| && (r < |t| ==> t[r] == '/') && forall k | i <= k < r :: t[k] != '/'
    decreases |t| - i
  {
    if i < |t| && t[i] != '/' then End(t, i + 1) else i
  }

  /** The components from position i: the nonempty texts between slashes. */
  function CompsFrom(t: string, i: nat): seq<string>
    requires i <= |t|
    decreases |t| - i
  {
    var s := Skip(t, i);
    if s == |t| then [] else [t[s..End(t, s)]] + CompsFrom(t, End(t, s))
  }

  function Comps(t: string): seq<string> {
    CompsFrom(t, 0)
  }

  predicate Name(c: string) {
    c != "" && '/' !in c
  }

  predicate Names(cs: seq<string>) {
    forall i | 0 <= i < |cs| :: Name(cs[i])
  }

  /** Each component with a slash before it. */
  function Slashed(cs: seq<string>): string {
    if cs == [] then "" else Slashed(cs[..|cs| - 1]) + "/" + cs[|cs| - 1]
  }

  /** The absolute path of these components. */
  function Render(cs: seq<string>): string {
    if cs == [] then "/" else Slashed(cs)
  }

  lemma {:induction false} CompsAreNames(t: string, i: nat)
    requires i <= |t|
    ensures Names(CompsFrom(t, i))
    decreases |t| - i
  {
    var s := Skip(t, i);
    if s < |t| {
      CompsAreNames(t, End(t, s));
    }
  }

  lemma {:induction false} SkipIs(t: string, i: nat, r: nat)
    requires i <= r <= |t| && (forall k | i <= k < r :: t[k] == '/') && (r < |t| ==> t[r] != '/')
    ensures Skip(t, i) == r
    decreases r - i
  {
    if i < r {
      SkipIs(t, i + 1, r);
    }
  }

  lemma {:induction false} EndIs(t: string, i: nat, r: nat)
    requires i <= r <= |t| && (forall k | i <= k < r :: t[k] != '/') && (r < |t| ==> t[r] == '/')
    ensures End(t, i) == r
    decreases r - i
  {
    if i < r {
      EndIs(t, i + 1, r);
    }
  }

  lemma {:induction false} SkipShift(x: string, t: string, i: nat)
    requires i <= |t|
    ensures Skip(x + t, |x| + i) == |x| + Skip(t, i)
    decreases |t| - i
  {
    if i < |t| {
      assert (x + t)[|x| + i] == t[i];
      if t[i] == '/' {
        SkipShift(x, t, i + 1);
      }
    }
  }

  lemma {:induction false} EndShift(x: string, t: string, i: nat)
    requires i <= |t|
    ensures End(x + t, |x| + i) == |x| + End(t, i)
    decreases |t| - i
  {
    if i < |t| {
      assert (x + t)[|x| + i] == t[i];
      if t[i] != '/' {
        EndShift(x, t, i + 1);
      }
    }
  }

  /** Skipping slashes in two stages. */
  lemma {:induction false} SkipSplit(t: string, i: nat, j: nat)
    requires i <= j <= |t| && forall k | i <= k < j :: t[k] == '/'
    ensures Skip(t, i) == Skip(t, j)
    decreases j - i
  {
    if i < j {
      SkipSplit(t, i + 1, j);
    }
  }

  lemma CompsStep(t: string, i: nat)
    requires i <= |t|
    ensures var s := Skip(t, i);
            if s == |t| then CompsFrom(t, i) == []
            else s < End(t, s) && CompsFrom(t, i) == [t[s..End(t, s)]] + CompsFrom(t, End(t, s))
  {
  }

  lemma SliceShift(x: string, t: string, s: nat, e: nat)
    requires s <= e <= |t|
    ensures (x + t)[|x| + s..|x| + e] == t[s..e]
  {
  }

  /** Components before position i do not matter. */
  lemma {:induction false} CompsShift(x: string, t: string, i: nat)
    requires i <= |t|
    ensures CompsFrom(x + t, |x| + i) == CompsFrom(t, i)
    decreases |t| - i
  {
    hide Skip, End, CompsFrom;
    var s := Skip(t, i);
    SkipShift(x, t, i);
    CompsStep(t, i);
    CompsStep(x + t, |x| + i);
    if s < |t| {
      EndShift(x, t, s);
      SliceShift(x, t, s, End(t, s));
      CompsShift(x, t, End(t, s));
    }
  }

  /** A slash separates components. */
  lemma {:induction false} CompsJoinFrom(a: string, b: string, i: nat)
    requires i <= |a|
    ensures CompsFrom(a + "/" + b, i) == CompsFrom(a, i) + Comps(b)
    decreases |a| - i
  {
    var u := a + "/" + b;
    var s := Skip(a, i);
    if s == |a| {
      JoinTail(a, b, i);
    } else {
      SkipIs(u, i, s);
      var e := End(a, s);
      EndIs(u, s, e);
      assert u[s..e] == a[s..e];
      CompsJoinFrom(a, b, e);
      assert CompsFrom(u, i) == [a[s..e]] + (CompsFrom(a, e) + Comps(b));
    }
  }

  lemma JoinTail(a: string, b: string, i: nat)
    requires i <= |a| && Skip(a, i) == |a|
    ensures CompsFrom(a + "/" + b, i) == Comps(b) && CompsFrom(a, i) == []
  {
    var u := a + "/" + b;
    var x := a + "/";
    assert forall k | i <= k < |x| :: u[k] == '/';
    SkipSplit(u, i, |x|);
    CompsShift(x, b, 0);
    assert CompsFrom(u, i) == CompsFrom(u, |x|);
  }

  lemma CompsJoin(a: string, b: string)
    ensures Comps(a + "/" + b) == Comps(a) + Comps(b)
  {
    CompsJoinFrom(a, b, 0);
  }

  lemma CompsOfName(c: string)
    requires Name(c)
    ensures Comps(c) == [c]
  {
    SkipIs(c, 0, 0);
    EndIs(c, 0, |c|);
    assert c[0..|c|] == c;
    assert CompsFrom(c, |c|) == [];
  }

  /** The text of a list of names reads back as the list. */
  lemma {:induction false} CompsOfSlashed(cs: seq<string>)
    requires Names(cs)
    ensures Comps(Slashed(cs)) == cs
  {
    if cs != [] {
      var init, last := cs[..|cs| - 1], cs[|cs| - 1];
      CompsOfSlashed(init);
      CompsJoin(Slashed(init), last);
      CompsOfName(last);
      assert init + [last] == cs;
    }
  }

  lemma CompsOfRender(cs: seq<string>)
    requires Names(cs)
    ensures Comps(Render(cs)) == cs
  {
    if cs == [] {
      assert Skip("/", 0) == 1;
    } else {
      CompsOfSlashed(cs);
    }
  }
}
