/** grep's continuation-passing matcher against the languages of its patterns (userspace/grep.c). */
module Grep {
  import opened Base
  import opened GrepSyntax

  // ---- languages ----

  /** A word of an item: an allowed number of characters, each matched by the atom. */
  ghost predicate InItem(it: Item, w: string, icase: bool) {
    && it.min <= |w| && (it.max.Some? ==> |w| <= it.max.value)
    && forall i | 0 <= i < |w| :: AtomChar(it.text, w[i], icase)
  }

  function Flatten(ws: seq<string>): string {
    if ws == [] then "" else ws[0] + Flatten(ws[1..])
  }

  ghost predicate Words(items: seq<Item>, ws: seq<string>, icase: bool) {
    |ws| == |items| && forall i | 0 <= i < |ws| :: InItem(items[i], ws[i], icase)
  }

  /** The language of a sequence of items: concatenations of one word each. */
  ghost predicate InLanguage(items: seq<Item>, w: string, icase: bool) {
    exists ws :: Words(items, ws, icase) && Flatten(ws) == w
  }

  /** Some prefix of the subject is a word of the branch, the whole subject under an end anchor. */
  ghost predicate Accepts(b: Branch, s: string, icase: bool) {
    exists n | 0 <= n <= |s| ::
      InLanguage(b.items, s[..n], icase) && b.finish != Malformed && (b.finish == Anchored ==> n == |s|)
  }

  // ---- what a zero minimum does ----

  /** The branch without its first item of minimum 0 and everything after it. */
  function Cut(b: Branch): Branch
    decreases |b.items|
  {
    if b.items == [] then b
    else if b.items[0].min == 0 then Branch([], Open)
    else
      var r := Cut(Branch(b.items[1..], b.finish));
      r.(items := [b.items[0]] + r.items)
  }

  predicate Positive(b: Branch) {
    forall i | 0 <= i < |b.items| :: b.items[i].min > 0
  }

  lemma {:induction false} PositiveUncut(b: Branch)
    requires Positive(b)
    ensures Cut(b) == b
    decreases |b.items|
  {
    if b.items != [] {
      PositiveUncut(Branch(b.items[1..], b.finish));
      assert [b.items[0]] + b.items[1..] == b.items;
    }
  }

  /** The items before the first one with minimum 0. */
  function Head(items: seq<Item>): (h: seq<Item>)
    ensures |h| <= |items|
  {
    if items == [] || items[0].min == 0 then [] else [items[0]] + Head(items[1..])
  }

  lemma {:induction false} HeadIs(items: seq<Item>)
    ensures var h := Head(items);
            && h == items[..|h|] && (forall i | 0 <= i < |h| :: h[i].min > 0)
            && (|h| < |items| ==> items[|h|].min == 0)
  {
    if items != [] && items[0].min > 0 {
      HeadIs(items[1..]);
    }
  }

  lemma {:induction false} CutIs(b: Branch)
    ensures Cut(b) == if Positive(b) then b else Branch(Head(b.items), Open)
    decreases |b.items|
  {
    if Positive(b) {
      PositiveUncut(b);
    } else if b.items[0].min > 0 {
      var r := Branch(b.items[1..], b.finish);
      CutIs(r);
      assert !Positive(r) by {
        var i :| 0 <= i < |b.items| && b.items[i].min == 0;
        assert r.items[i - 1].min == 0;
      }
    }
  }

  /** Some word is in the item's language. */
  ghost predicate Possible(it: Item, icase: bool) {
    (it.max.Some? ==> it.min <= it.max.value) && exists c :: c != '\0' && AtomChar(it.text, c, icase)
  }

  /** Every text is in the item's language, up to its minimum. */
  ghost predicate Full(it: Item, icase: bool) {
    it.max.None? && forall c | c != '\0' :: AtomChar(it.text, c, icase)
  }

  /** Everything from the first zero minimum on may be left out. */
  predicate Optional(b: Branch) {
    forall i | |Head(b.items)| <= i < |b.items| :: b.items[i].min == 0
  }

  /** From the last item before the first zero minimum on, some item takes any text. */
  ghost predicate TakesAny(b: Branch, icase: bool) {
    exists i | |Head(b.items)| - 1 <= i < |b.items| :: i >= 0 && Full(b.items[i], icase)
  }

  /** Reading a branch only up to its first zero minimum is no mistake: there is none, or what comes before it
      matches nothing, or everything from there on may be left out and, if an end anchor follows, some item there
      takes any text. */
  ghost predicate Sure(b: Branch, icase: bool) {
    || Positive(b)
    || (exists i | 0 <= i < |Head(b.items)| :: !Possible(b.items[i], icase))
    || (b.finish == Open && Optional(b))
    || (b.finish == Anchored && Optional(b) && TakesAny(b, icase))
  }

  function MinLen(items: seq<Item>): nat {
    if items == [] then 0 else items[0].min + MinLen(items[1..])
  }

  lemma {:induction false} WordsLong(items: seq<Item>, ws: seq<string>, icase: bool)
    requires Words(items, ws, icase)
    ensures |Flatten(ws)| >= MinLen(items)
    decreases |items|
  {
    if items != [] {
      assert InItem(items[0], ws[0], icase);
      forall i | 0 <= i < |ws[1..]| ensures InItem(items[1..][i], ws[1..][i], icase) {
        assert InItem(items[i + 1], ws[i + 1], icase);
      }
      WordsLong(items[1..], ws[1..], icase);
    }
  }

  lemma {:induction false} MinLenMore(items: seq<Item>, n: nat, i: nat)
    requires n <= i < |items| && items[i].min > 0
    ensures MinLen(items) > MinLen(items[..n])
    decreases |items|
  {
    var rest := items[1..];
    if n == 0 {
      if i > 0 {
        MinLenMore(rest, 0, i - 1);
      }
    } else {
      MinLenMore(rest, n - 1, i - 1);
      assert items[..n][1..] == rest[..n - 1];
    }
  }

  /** A shortest word of possible items. */
  lemma {:induction false} MinWord(items: seq<Item>, icase: bool) returns (ws: seq<string>)
    requires forall i | 0 <= i < |items| :: Possible(items[i], icase)
    ensures Words(items, ws, icase) && |Flatten(ws)| == MinLen(items) && '\0' !in Flatten(ws)
    decreases |items|
  {
    if items == [] {
      ws := [];
    } else {
      var it := items[0];
      assert Possible(it, icase);
      var c :| c != '\0' && AtomChar(it.text, c, icase);
      var w := seq(it.min, _ => c);
      assert InItem(it, w, icase);
      var rest := MinWord(items[1..], icase);
      ws := [w] + rest;
      assert ws[1..] == rest;
      assert forall i | 0 < i < |ws| :: ws[i] == rest[i - 1] && items[i] == items[1..][i - 1];
    }
  }

  /** A subject shorter than the minimums add up to is not accepted. */
  lemma TooShort(b: Branch, s: string, icase: bool)
    requires |s| < MinLen(b.items) || b.finish == Malformed
    ensures !Accepts(b, s, icase)
  {
    hide Words, Flatten, MinLen;
    if Accepts(b, s, icase) {
      var n :| 0 <= n <= |s| && InLanguage(b.items, s[..n], icase) && b.finish != Malformed
               && (b.finish == Anchored ==> n == |s|);
      var vs :| Words(b.items, vs, icase) && Flatten(vs) == s[..n];
      WordsLong(b.items, vs, icase);
      assert false;
    }
  }

  lemma AcceptsWord(items: seq<Item>, ws: seq<string>, z: string, icase: bool)
    requires Words(items, ws, icase)
    ensures Accepts(Branch(items, Open), Flatten(ws) + z, icase)
  {
    hide Words, Flatten;
    var u := Flatten(ws);
    assert (u + z)[..|u|] == u && InLanguage(items, (u + z)[..|u|], icase);
  }

  /** On an unsure branch the matcher accepts a subject that it should not. */
  lemma Unsure(b: Branch, icase: bool) returns (s: string)
    requires !Sure(b, icase) && (b.finish == Anchored ==> FewFull(b, icase))
    ensures '\0' !in s && Accepts(Cut(b), s, icase) && !Accepts(b, s, icase)
  {
    hide Possible, Accepts, Words, Flatten, MinLen, Cut, Full;
    HeadIs(b.items);
    CutIs(b);
    var h := Head(b.items);
    var ws := MinWord(h, icase);
    var z := "";
    if b.finish == Malformed || !Optional(b) {
      if b.finish != Malformed {
        var i :| |h| <= i < |b.items| && b.items[i].min > 0;
        MinLenMore(b.items, |h|, i);
      }
      assert Flatten(ws) + z == Flatten(ws);
      TooShort(b, Flatten(ws), icase);
    } else {
      z := NoFactor(b.items, icase);
      NotAccepted(b, Flatten(ws), z, icase);
    }
    s := Flatten(ws) + z;
    AcceptsWord(h, ws, z, icase);
  }

  // ---- texts that end-anchored branches do not take ----

  /** No item before the last one ahead of the first zero minimum takes any text. */
  ghost predicate FewFull(b: Branch, icase: bool) {
    forall i | 0 <= i < |Head(b.items)| - 1 :: !Full(b.items[i], icase)
  }

  predicate Factor(z: string, w: string) {
    exists k | 0 <= k <= |w| :: FactorAt(z, w, k)
  }

  predicate FactorAt(z: string, w: string, k: nat) {
    k + |z| <= |w| && w[k..k + |z|] == z
  }

  /** A text in no word of the item. */
  lemma NoFactorItem(it: Item, icase: bool) returns (y: string)
    requires !Full(it, icase)
    ensures y != "" && '\0' !in y && forall w | InItem(it, w, icase) :: !Factor(y, w)
  {
    if it.max.Some? {
      y := seq(it.max.value + 1, _ => 'a');
    } else {
      var c :| c != '\0' && !AtomChar(it.text, c, icase);
      y := [c];
      forall w, k: nat | InItem(it, w, icase) && k < |w| ensures !FactorAt(y, w, k) {
        assert w[k..k + 1][0] == w[k];
      }
    }
  }

  /** If no item takes any text, there is a text that is in no word of the items. */
  lemma {:induction false} NoFactor(items: seq<Item>, icase: bool) returns (z: string)
    requires forall i | 0 <= i < |items| :: !Full(items[i], icase)
    ensures z != "" && '\0' !in z && forall w | InLanguage(items, w, icase) :: !Factor(z, w)
    decreases |items|
  {
    hide InItem, Full;
    if items == [] {
      z := "a";
    } else {
      var y := NoFactorItem(items[0], icase);
      var z' := NoFactor(items[1..], icase);
      z := y + z';
      forall w | InLanguage(items, w, icase) ensures !Factor(z, w) {
        var ws :| Words(items, ws, icase) && Flatten(ws) == w;
        assert Words(items[1..], ws[1..], icase);
        assert InLanguage(items[1..], Flatten(ws[1..]), icase);
        NotAcross(y, z', ws[0], Flatten(ws[1..]));
      }
    }
  }

  lemma NotAcross(y: string, z: string, a: string, b: string)
    requires !Factor(y, a) && !Factor(z, b)
    ensures !Factor(y + z, a + b)
  {
    if k :| 0 <= k <= |a + b| && FactorAt(y + z, a + b, k) {
      var m := k + |y|;
      if m <= |a| {
        assert a[k..m] == (a + b)[k..k + |y + z|][..|y|] == y;
        assert FactorAt(y, a, k);
      } else {
        assert b[m - |a|..m - |a| + |z|] == (a + b)[k..k + |y + z|][|y|..] == z;
        assert FactorAt(z, b, m - |a|);
      }
    }
  }

  lemma NotAccepted(b: Branch, u: string, z: string, icase: bool)
    requires b.finish == Anchored && forall w | InLanguage(b.items, w, icase) :: !Factor(z, w)
    ensures !Accepts(b, u + z, icase)
  {
    hide InLanguage;
    var s := u + z;
    assert FactorAt(z, s, |u|);
    assert s[..|s|] == s;
  }

  lemma {:induction false} FlattenSplit(ws: seq<string>, n: nat)
    requires n <= |ws|
    ensures Flatten(ws) == Flatten(ws[..n]) + Flatten(ws[n..])
    decreases n
  {
    if n > 0 {
      FlattenSplit(ws[1..], n - 1);
      assert ws[..n][1..] == ws[1..][..n - 1] && ws[1..][n - 1..] == ws[n..];
    } else {
      assert ws[0..] == ws;
    }
  }

  function Empties(n: nat): (r: seq<string>)
    ensures |r| == n && forall i | 0 <= i < n :: r[i] == ""
  {
    seq(n, _ => "")
  }

  lemma {:induction false} FlattenNothing(n: nat)
    ensures Flatten(Empties(n)) == ""
  {
    if n > 0 {
      FlattenNothing(n - 1);
      assert Empties(n)[1..] == Empties(n - 1);
    }
  }

  /** Items that may be left out, left out. */
  lemma LeftOut(b: Branch, ws: seq<string>, icase: bool)
    requires Optional(b) && Words(Head(b.items), ws, icase)
    ensures var all := ws + Empties(|b.items| - |ws|);
            Words(b.items, all, icase) && Flatten(all) == Flatten(ws)
  {
    hide AtomChar, Flatten;
    HeadIs(b.items);
    var h := Head(b.items);
    var rest := Empties(|b.items| - |h|);
    FlattenNothing(|rest|);
    FlattenSplit(ws + rest, |ws|);
    assert (ws + rest)[..|ws|] == ws && (ws + rest)[|ws|..] == rest;
    assert Flatten(ws) + "" == Flatten(ws);
    forall i | 0 <= i < |b.items| ensures InItem(b.items[i], (ws + rest)[i], icase) {
      if i < |h| {
        assert InItem(h[i], ws[i], icase);
      } else {
        assert (ws + rest)[i] == "";
      }
    }
  }

  lemma RestLeftOut(b: Branch, s: string, icase: bool)
    requires b.finish == Open && Optional(b) && Accepts(Branch(Head(b.items), Open), s, icase)
    ensures Accepts(b, s, icase)
  {
    hide Words, Flatten, Head, Optional;
    var n :| 0 <= n <= |s| && InLanguage(Head(b.items), s[..n], icase);
    var ws :| Words(Head(b.items), ws, icase) && Flatten(ws) == s[..n];
    LeftOut(b, ws, icase);
    assert InLanguage(b.items, s[..n], icase) by {
      WordsCount(Head(b.items), ws, icase);
      assert Words(b.items, ws + Empties(|b.items| - |ws|), icase);
    }
  }

  /** The word at i is made longer, and only empty ones follow. */
  lemma FlattenLonger(ws: seq<string>, i: nat, v: string)
    requires i < |ws| && forall k | i < k < |ws| :: ws[k] == ""
    ensures Flatten(ws[i := ws[i] + v]) == Flatten(ws) + v
  {
    hide Flatten;
    var vs := ws[i := ws[i] + v];
    FlattenSplit(ws, i);
    FlattenSplit(vs, i);
    assert vs[..i] == ws[..i];
    assert ws[i..][1..] == Empties(|ws| - i - 1);
    assert vs[i..][1..] == Empties(|ws| - i - 1);
    FlattenNothing(|ws| - i - 1);
    FlattenFirst(ws[i..]);
    FlattenFirst(vs[i..]);
    assert Flatten(ws[..i]) + (ws[i] + v) == Flatten(ws[..i]) + ws[i] + v;
  }

  lemma FlattenFirst(ws: seq<string>)
    requires ws != [] && Flatten(ws[1..]) == ""
    ensures Flatten(ws) == ws[0]
  {
  }

  /** An item that takes any text takes what is left of the subject. */
  lemma RestTaken(b: Branch, s: string, icase: bool)
    requires '\0' !in s && b.finish == Anchored && Optional(b) && TakesAny(b, icase)
    requires Accepts(Branch(Head(b.items), Open), s, icase)
    ensures Accepts(b, s, icase)
  {
    hide Words, Flatten, Head, Optional, Full;
    var i :| |Head(b.items)| - 1 <= i < |b.items| && i >= 0 && Full(b.items[i], icase);
    var n :| 0 <= n <= |s| && InLanguage(Head(b.items), s[..n], icase);
    var ws :| Words(Head(b.items), ws, icase) && Flatten(ws) == s[..n];
    LeftOut(b, ws, icase);
    assert |ws| == |Head(b.items)| by {
      WordsCount(Head(b.items), ws, icase);
    }
    var all := ws + Empties(|b.items| - |ws|);
    var v := s[n..];
    FlattenLonger(all, i, v);
    LongerWord(b.items, all, i, v, icase);
    assert s[..n] + v == s[..|s|] == s;
    assert InLanguage(b.items, s[..|s|], icase);
  }

  lemma WordsCount(items: seq<Item>, ws: seq<string>, icase: bool)
    requires Words(items, ws, icase)
    ensures |ws| == |items|
  {
  }

  lemma LongerWord(items: seq<Item>, ws: seq<string>, i: nat, v: string, icase: bool)
    requires Words(items, ws, icase) && i < |items| && Full(items[i], icase) && '\0' !in v
    ensures |ws| == |items| && Words(items, ws[i := ws[i] + v], icase)
  {
    hide AtomChar;
    assert InItem(items[i], ws[i], icase);
    assert InItem(items[i], ws[i] + v, icase);
    var vs := ws[i := ws[i] + v];
    forall k | 0 <= k < |vs| ensures InItem(items[k], vs[k], icase) {
      assert k != i ==> InItem(items[k], ws[k], icase);
    }
  }

  lemma HeadAlive(h: seq<Item>, s: string, icase: bool)
    requires Accepts(Branch(h, Open), s, icase) && '\0' !in s && forall i | 0 <= i < |h| :: h[i].min > 0
    ensures forall i | 0 <= i < |h| :: Possible(h[i], icase)
  {
    hide Words, Flatten, Possible;
    var n :| 0 <= n <= |s| && InLanguage(h, s[..n], icase);
    var ws :| Words(h, ws, icase) && Flatten(ws) == s[..n];
    HeadPossible(h, ws, icase);
  }

  lemma SureAgrees(b: Branch, s: string, icase: bool)
    requires Sure(b, icase) && '\0' !in s
    ensures Accepts(Cut(b), s, icase) <==> Accepts(b, s, icase)
  {
    hide Possible, Accepts, Cut, Optional, TakesAny;
    HeadIs(b.items);
    CutIs(b);
    if !Positive(b) {
      var h := Head(b.items);
      if Accepts(b, s, icase) {
        HeadAccepts(b, s, icase);
      } else if Accepts(Branch(h, Open), s, icase) {
        HeadAlive(h, s, icase);
        if b.finish == Open {
          RestLeftOut(b, s, icase);
        } else {
          RestTaken(b, s, icase);
        }
      }
    }
  }

  /** A subject that the branch accepts begins with a word of its head. */
  lemma HeadAccepts(b: Branch, s: string, icase: bool)
    requires Accepts(b, s, icase)
    ensures Accepts(Branch(Head(b.items), Open), s, icase)
  {
    hide AtomChar, Flatten;
    HeadIs(b.items);
    var h := Head(b.items);
    var n :| 0 <= n <= |s| && InLanguage(b.items, s[..n], icase);
    var ws :| Words(b.items, ws, icase) && Flatten(ws) == s[..n];
    FlattenSplit(ws, |h|);
    var m := |Flatten(ws[..|h|])|;
    assert s[..m] == s[..n][..m] == Flatten(ws[..|h|]);
    assert Words(h, ws[..|h|], icase);
    assert InLanguage(h, s[..m], icase);
  }

  lemma HeadPossible(h: seq<Item>, ws: seq<string>, icase: bool)
    requires Words(h, ws, icase) && '\0' !in Flatten(ws) && forall i | 0 <= i < |h| :: h[i].min > 0
    ensures forall i | 0 <= i < |h| :: Possible(h[i], icase)
  {
    forall i | 0 <= i < |h| ensures Possible(h[i], icase) {
      assert InItem(h[i], ws[i], icase);
      FlattenSplit(ws, i);
      assert ws[i..][0] == ws[i];
      assert ws[i][0] in Flatten(ws[i..]);
      assert AtomChar(h[i].text, ws[i][0], icase);
    }
  }

  /** A branch is read as its language exactly when it is sure. */
  lemma SureExactly(b: Branch, icase: bool)
    requires b.finish == Anchored ==> FewFull(b, icase)
    ensures Sure(b, icase) <==> forall s | '\0' !in s :: Accepts(Cut(b), s, icase) == Accepts(b, s, icase)
  {
    hide Sure, Accepts, Cut, FewFull;
    if Sure(b, icase) {
      forall s | '\0' !in s ensures Accepts(Cut(b), s, icase) == Accepts(b, s, icase) {
        SureAgrees(b, s, icase);
      }
    } else {
      var s := Unsure(b, icase);
    }
  }

  /** The subject matches the branch, read without what follows a zero minimum. */
  ghost predicate MatchesBranch(t: string, s: string, icase: bool) {
    Accepts(Cut(Parse(t)), s, icase)
  }

  /** Some branch matches before one is met that does not fit the branch buffer. */
  ghost predicate AnyBranch(t: string, s: string, icase: bool)
    decreases |t|
  {
    var b := Find(t, '|', 0);
    b < PAT_MAX && (MatchesBranch(t[..b], s, icase) || (b < |t| && AnyBranch(t[b + 1..], s, icase)))
  }

  /** What m_seq computes. */
  ghost predicate Matches(t: string, s: string, icase: bool)
    decreases |t|
  {
    if t != "" && t[0] == '^' then Matches(t[1..], s, icase)
    else if '|' in t then AnyBranch(t, s, icase)
    else MatchesBranch(t, s, icase)
  }

  ghost predicate AllSure(t: string, icase: bool) {
    forall i | 0 <= i < |Branches(t)| :: Sure(Parse(Branches(t)[i]), icase)
  }

  lemma {:induction false} FindFirst(t: string, c: char, i: nat, k: nat)
    requires i <= k <= |t| && (forall j | i <= j < k :: t[j] != c) && (k < |t| ==> t[k] == c)
    ensures Find(t, c, i) == k
    decreases k - i
  {
    if i < k {
      FindFirst(t, c, i + 1, k);
    }
  }

  lemma {:induction false} FindSkips(t: string, c: char, i: nat)
    requires i <= |t|
    ensures forall j | i <= j < Find(t, c, i) :: t[j] != c
    decreases |t| - i
  {
    if i < |t| && t[i] != c {
      FindSkips(t, c, i + 1);
    }
  }

  ghost predicate SomeBranch(bs: seq<string>, s: string, icase: bool) {
    exists i | 0 <= i < |bs| :: Accepts(Parse(bs[i]), s, icase)
  }

  lemma SomeBranchCons(x: string, bs: seq<string>, s: string, icase: bool)
    ensures SomeBranch([x] + bs, s, icase) <==> Accepts(Parse(x), s, icase) || SomeBranch(bs, s, icase)
  {
    var all := [x] + bs;
    assert all[0] == x;
    if i :| 0 <= i < |bs| && Accepts(Parse(bs[i]), s, icase) {
      assert all[i + 1] == bs[i];
    }
    if i :| 0 <= i < |all| && Accepts(Parse(all[i]), s, icase) {
      assert i > 0 ==> all[i] == bs[i - 1];
    }
  }

  lemma SureBranch(t: string, s: string, icase: bool)
    requires Sure(Parse(t), icase) && '\0' !in s
    ensures MatchesBranch(t, s, icase) <==> Accepts(Parse(t), s, icase)
  {
    SureAgrees(Parse(t), s, icase);
  }

  lemma {:induction false} AnyBranchSome(t: string, s: string, icase: bool)
    requires AllSure(t, icase) && |t| < PAT_MAX && '\0' !in s
    ensures AnyBranch(t, s, icase) <==> SomeBranch(Branches(t), s, icase)
    decreases |t|
  {
    hide Accepts, Parse, Sure;
    var b := Find(t, '|', 0);
    assert b == |t| ==> t[..b] == t;
    assert Branches(t)[0] == t[..b];
    SureBranch(t[..b], s, icase);
    if b < |t| {
      var u := t[b + 1..];
      forall i | 0 <= i < |Branches(u)| ensures Sure(Parse(Branches(u)[i]), icase) {
        assert Branches(t)[i + 1] == Branches(u)[i];
      }
      AnyBranchSome(u, s, icase);
      SomeBranchCons(t[..b], Branches(u), s, icase);
    } else {
      SomeBranchCons(t, [], s, icase);
      assert [t] + [] == [t];
    }
  }

  /** With sure branches the matcher's relation is the language of the pattern. */
  lemma {:induction false} SureMatches(t: string, s: string, icase: bool)
    requires AllSure(t, icase) && |t| < PAT_MAX && '\0' !in s
    ensures Matches(t, s, icase) <==> SomeBranch(Branches(t), s, icase)
    decreases |t|
  {
    hide Accepts, Parse, Sure;
    if t != "" && t[0] == '^' {
      CaretBranches(t, icase);
      SureMatches(t[1..], s, icase);
      CaretSome(t, s, icase);
    } else if '|' in t {
      AnyBranchSome(t, s, icase);
    } else {
      FindFirst(t, '|', 0, |t|);
      assert Sure(Parse(Branches(t)[0]), icase);
      SureBranch(t, s, icase);
      SomeBranchCons(t, [], s, icase);
      assert [t] + [] == [t];
    }
  }

  /** A leading caret belongs to the first branch, which it does not change. */
  lemma CaretSplit(t: string)
    requires t != "" && t[0] == '^'
    ensures var bs, us := Branches(t), Branches(t[1..]);
            |us| == |bs| && us[1..] == bs[1..] && bs[0] == "^" + us[0]
  {
    var u := t[1..];
    var b := Find(u, '|', 0);
    FindSkips(u, '|', 0);
    FindFirst(t, '|', 0, b + 1);
    hide Find;
    assert t[..b + 1] == "^" + u[..b];
    assert b < |u| ==> t[b + 2..] == u[b + 1..];
    assert t[..|t|] == t && u[..|u|] == u;
  }

  lemma CaretBranches(t: string, icase: bool)
    requires t != "" && t[0] == '^'
    ensures var bs, us := Branches(t), Branches(t[1..]);
            |us| == |bs| && us[1..] == bs[1..] && Parse(bs[0]) == Parse(us[0])
    ensures AllSure(t, icase) <==> AllSure(t[1..], icase)
  {
    hide Sure, Branches;
    CaretSplit(t);
    var bs, us := Branches(t), Branches(t[1..]);
    CaretParse(us[0]);
    assert forall i | 0 < i < |us| :: us[i] == us[1..][i - 1] == bs[1..][i - 1] == bs[i];
  }

  lemma CaretParse(x: string)
    ensures Parse("^" + x) == Parse(x)
  {
    assert ("^" + x)[1..] == x;
  }

  lemma CaretSome(t: string, s: string, icase: bool)
    requires t != "" && t[0] == '^'
    ensures SomeBranch(Branches(t), s, icase) <==> SomeBranch(Branches(t[1..]), s, icase)
  {
    hide Accepts, Parse;
    CaretBranches(t, icase);
    var bs, us := Branches(t), Branches(t[1..]);
    assert bs == [bs[0]] + bs[1..] && us == [us[0]] + us[1..];
    SomeBranchCons(bs[0], bs[1..], s, icase);
    SomeBranchCons(us[0], us[1..], s, icase);
  }

  // ---- one item at a time ----

  predicate AllMatch(t: string, s: string, n: nat, icase: bool)
    requires n <= |s|
  {
    forall i | 0 <= i < n :: AtomChar(t, s[i], icase)
  }

  lemma AcceptsNone(f: Finish, s: string, icase: bool)
    ensures Accepts(Branch([], f), s, icase) <==> f == Open || (f == Anchored && s == "")
  {
    var b := Branch([], f);
    assert Words(b.items, [], icase) && Flatten([]) == "";
    if f == Open {
      assert s[..0] == "";
      assert InLanguage(b.items, s[..0], icase);
    } else if f == Anchored && s == "" {
      assert s[..|s|] == "";
      assert InLanguage(b.items, s[..|s|], icase);
    }
    if Accepts(b, s, icase) {
      var n :| 0 <= n <= |s| && InLanguage(b.items, s[..n], icase) && f != Malformed && (f == Anchored ==> n == |s|);
      var ws :| Words(b.items, ws, icase) && Flatten(ws) == s[..n];
      assert ws == [];
    }
  }

  /** k characters for the first item, the rest for the others. */
  ghost predicate Splits(b: Branch, s: string, k: nat, icase: bool)
    requires b.items != [] && k <= |s|
  {
    InItem(b.items[0], s[..k], icase) && Accepts(Branch(b.items[1..], b.finish), s[k..], icase)
  }

  lemma AcceptsCons(b: Branch, s: string, icase: bool)
    requires b.items != []
    ensures Accepts(b, s, icase) <==> exists k | 0 <= k <= |s| :: Splits(b, s, k, icase)
  {
    if Accepts(b, s, icase) {
      var n :| 0 <= n <= |s| && InLanguage(b.items, s[..n], icase) && b.finish != Malformed
        && (b.finish == Anchored ==> n == |s|);
      AcceptsHead(b, s, n, icase);
    }
    if k: nat :| k <= |s| && Splits(b, s, k, icase) {
      AcceptsTail(b, s, k, icase);
    }
  }

  lemma AcceptsHead(b: Branch, s: string, n: nat, icase: bool)
    requires b.items != [] && n <= |s| && InLanguage(b.items, s[..n], icase) && b.finish != Malformed
    requires b.finish == Anchored ==> n == |s|
    ensures exists k | 0 <= k <= |s| :: Splits(b, s, k, icase)
  {
    var ws :| Words(b.items, ws, icase) && Flatten(ws) == s[..n];
    var k := |ws[0]|;
    assert s[..n] == ws[0] + Flatten(ws[1..]);
    assert s[..k] == s[..n][..k] == ws[0];
    assert s[k..][..n - k] == s[..n][k..] == Flatten(ws[1..]);
    assert Words(b.items[1..], ws[1..], icase);
    assert InLanguage(b.items[1..], s[k..][..n - k], icase);
    assert Splits(b, s, k, icase);
  }

  lemma AcceptsTail(b: Branch, s: string, k: nat, icase: bool)
    requires b.items != [] && k <= |s| && Splits(b, s, k, icase)
    ensures Accepts(b, s, icase)
  {
    var c := Branch(b.items[1..], b.finish);
    var t := s[k..];
    var m :| 0 <= m <= |t| && InLanguage(c.items, t[..m], icase) && c.finish != Malformed
      && (c.finish == Anchored ==> m == |t|);
    var ws :| Words(c.items, ws, icase) && Flatten(ws) == t[..m];
    var ws' := [s[..k]] + ws;
    assert ws'[1..] == ws;
    assert Flatten(ws') == s[..k] + t[..m] == s[..k + m];
    assert Words(b.items, ws', icase) by {
      forall i | 0 <= i < |ws'| ensures InItem(b.items[i], ws'[i], icase) {
        if i > 0 {
          assert ws'[i] == ws[i - 1] && b.items[i] == c.items[i - 1];
        }
      }
    }
    assert InLanguage(b.items, s[..k + m], icase);
  }

  /** The item at the start of a branch, matched k times, leaves a rest that matches. */
  ghost predicate Reps(t: string, rest: string, s: string, k: nat, icase: bool) {
    k <= |s| && AllMatch(t, s, k, icase) && Matches(rest, s[k..], icase)
  }

  lemma RepsMore(t: string, rest: string, s: string, k: nat, icase: bool)
    ensures Reps(t, rest, s, 0, icase) <==> Matches(rest, s, icase)
    ensures Reps(t, rest, s, k + 1, icase) <==> s != "" && AtomChar(t, s[0], icase) && Reps(t, rest, s[1..], k, icase)
  {
    hide Matches, AtomChar;
    assert s[0..] == s;
    if s != "" {
      var u := s[1..];
      if k <= |u| {
        assert u[k..] == s[k + 1..];
        assert AllMatch(t, s, k + 1, icase) <==> AtomChar(t, s[0], icase) && AllMatch(t, u, k, icase) by {
          if AllMatch(t, s, k + 1, icase) {
            forall i | 0 <= i < k ensures AtomChar(t, u[i], icase) {
              assert u[i] == s[i + 1];
            }
          }
          assert forall i | 0 < i < k + 1 :: s[i] == u[i - 1];
        }
      }
    }
  }

  /** A text that starts an item of a branch. */
  predicate Starts(t: string) {
    t != "" && '|' !in t && t[0] != '^' && t != "$" && AtomLen(t) > 0
  }

  function Rest(t: string): (r: string)
    requires Starts(t)
    ensures |r| < |t|
  {
    t[AtomLen(t) + QuantAt(t[AtomLen(t)..]).len..]
  }

  predicate Allowed(q: Quant, k: nat) {
    q.min <= k && (q.max.Some? ==> k <= q.max.value)
  }

  /** An item matches by some allowed number of repetitions; with a minimum of 0 it always does. */
  lemma MatchesItem(t: string, s: string, icase: bool)
    requires Starts(t)
    ensures var q := QuantAt(t[AtomLen(t)..]);
            Matches(t, s, icase) <==>
            q.min == 0 || exists k | 0 <= k <= |s| :: Allowed(q, k) && Reps(t, Rest(t), s, k, icase)
  {
    hide Accepts, AtomLen, QuantAt, AtomChar;
    var q := QuantAt(t[AtomLen(t)..]);
    var rest := Rest(t);
    assert '|' !in rest;
    forall u: string ensures Matches(rest, u, icase) <==> MatchesBranch(rest, u, icase) {
      NoBars(rest, u, icase);
    }
    var b := Parse(t);
    assert b.items[1..] == Parse(rest).items;
    if q.min == 0 {
      AcceptsNone(Open, s, icase);
    } else {
      ItemSplits(t, s, icase);
    }
  }

  lemma {:induction false} NoBars(t: string, s: string, icase: bool)
    requires '|' !in t
    ensures Matches(t, s, icase) <==> MatchesBranch(t, s, icase)
    decreases |t|
  {
    hide Accepts, AtomLen, QuantAt, AtomChar, Cut;
    if t != "" && t[0] == '^' {
      NoBars(t[1..], s, icase);
    }
  }

  lemma ItemSplits(t: string, s: string, icase: bool)
    requires Starts(t) && QuantAt(t[AtomLen(t)..]).min > 0
    ensures var q := QuantAt(t[AtomLen(t)..]);
            MatchesBranch(t, s, icase) <==>
            exists k | 0 <= k <= |s| :: Allowed(q, k) && AllMatch(t, s, k, icase)
              && MatchesBranch(Rest(t), s[k..], icase)
  {
    hide Accepts, AtomLen, QuantAt, AtomChar;
    var q := QuantAt(t[AtomLen(t)..]);
    var b := Parse(t);
    var c := Cut(b);
    var r := Cut(Parse(Rest(t)));
    assert b.items[1..] == Parse(Rest(t)).items && b.finish == Parse(Rest(t)).finish;
    assert Branch(b.items[1..], b.finish) == Parse(Rest(t));
    assert c.items[1..] == r.items && c.finish == r.finish && Branch(c.items[1..], c.finish) == r;
    assert c.items[0] == Item(t, q.min, q.max);
    AcceptsCons(c, s, icase);
    forall k | 0 <= k <= |s|
      ensures Splits(c, s, k, icase) <==>
              Allowed(q, k) && AllMatch(t, s, k, icase) && MatchesBranch(Rest(t), s[k..], icase)
    {
      assert forall i | 0 <= i < k :: s[..k][i] == s[i];
      assert AllMatch(t, s, k, icase) <==> forall i | 0 <= i < k :: AtomChar(t, s[..k][i], icase);
    }
  }

  // ---- the matcher ----

  /** mseq_cont: 0 stops the enumeration. ok is the flag it leaves in its context. */
  method MseqCont(rest: string, s: string, icase: bool) returns (code: int, ok: bool)
    requires NoGroups(rest)
    ensures ok == Matches(rest, s, icase) && code == if ok then 0 else 1
    decreases |rest|, 2
  {
    ok := MSeq(rest, s, icase);
    if ok {
      return 0, true;
    }
    return 1, false;
  }

  /** q_cont with count repetitions still to go, one of which has just been matched. ok is its own
      flag, tail that of the final continuation. */
  method QCont(atom: string, rest: string, count: nat, s: string, icase: bool) returns (code: int, ok: bool, tail: bool)
    requires NoGroups(rest) && count > 0
    ensures ok == Reps(atom, rest, s, count - 1, icase) && tail == ok && code == if ok then 0 else 1
    decreases |rest|, 2 * count + 1
  {
    RepsMore(atom, rest, s, 0, icase);
    if count <= 1 {
      var stop;
      stop, tail := MseqCont(rest, s, icase);
      if stop == 0 {
        return 0, true, tail;
      }
      return 1, false, tail;
    }
    var found;
    found, ok, tail := AtomEach(atom, rest, count - 1, s, icase);
    if ok {
      return 0, true, tail;
    }
    return 1, false, tail;
  }

  /** atom_each for an atom of one character, with q_cont as its callback. */
  method AtomEach(atom: string, rest: string, count: nat, s: string, icase: bool)
    returns (found: bool, ok: bool, tail: bool)
    requires NoGroups(rest) && count > 0
    ensures ok == Reps(atom, rest, s, count, icase) && tail == ok && found == ok
    decreases |rest|, 2 * count + 2
  {
    RepsMore(atom, rest, s, count - 1, icase);
    if s == "" {
      return false, false, false;
    }
    if !AtomChar(atom, s[0], icase) {
      return false, false, false;
    }
    var code;
    code, ok, tail := QCont(atom, rest, count, s[1..], icase);
    return code == 0, ok, tail;
  }

  /** reps_match: at count 0 it hands through the continuation's code, which is 0 on success. */
  method RepsMatch(atom: string, rest: string, count: nat, s: string, icase: bool) returns (r: bool, tail: bool)
    requires NoGroups(rest)
    ensures tail == Reps(atom, rest, s, count, icase)
    ensures r == if count == 0 then !tail else tail
    decreases |rest|, 2 * count + 3
  {
    RepsMore(atom, rest, s, 0, icase);
    if count == 0 {
      var code;
      code, tail := MseqCont(rest, s, icase);
      return code != 0, tail;
    }
    var found, ok;
    found, ok, tail := AtomEach(atom, rest, count, s, icase);
    return ok, tail;
  }

  /** The scan for a bar from i. */
  method FindBar(t: string, i: nat) returns (p: nat)
    requires i <= |t|
    ensures p == Find(t, '|', i)
  {
    p := i;
    while p < |t|
      invariant i <= p <= |t| && Find(t, '|', i) == Find(t, '|', p)
    {
      if t[p] == '|' {
        return;
      }
      p := p + 1;
    }
  }

  /** The loop of m_seq over the branches of a pattern. */
  method AnyOf(re: string, s: string, icase: bool) returns (r: bool)
    requires NoGroups(re) && '|' in re
    ensures r == AnyBranch(re, s, icase)
    decreases |re|, 0
  {
    hide MatchesBranch, AnyBranch, Matches, Find;
    BarInside(re);
    var start := 0;
    assert re[0..] == re;
    while true
      invariant start <= |re| && AnyBranch(re, s, icase) == AnyBranch(re[start..], s, icase)
      decreases |re| - start
    {
      var end := FindBar(re, start);
      BranchStep(re, start, s, icase);
      if end - start >= PAT_MAX {
        return false;
      }
      r := MSeq(re[start..end], s, icase);
      if r {
        return;
      }
      if end == |re| {
        return false;
      }
      start := end + 1;
    }
  }

  lemma BarInside(t: string)
    requires '|' in t
    ensures Find(t, '|', 0) < |t|
  {
    FindSkips(t, '|', 0);
  }

  /** The branch at start decides, or the branches after it do. */
  lemma BranchStep(t: string, start: nat, s: string, icase: bool)
    requires start <= |t|
    ensures var end := Find(t, '|', start);
            && start <= end <= |t| && '|' !in t[start..end]
            && (AnyBranch(t[start..], s, icase) <==>
                end - start < PAT_MAX && (Matches(t[start..end], s, icase)
                  || (end < |t| && AnyBranch(t[end + 1..], s, icase))))
  {
    hide MatchesBranch, Matches;
    var end := Find(t, '|', start);
    FindShift(t, '|', start);
    NoBarIn(t, start, end);
    NoBars(t[start..end], s, icase);
    hide Find;
    assert t[start..][..end - start] == t[start..end];
    assert end < |t| ==> t[start..][end - start + 1..] == t[end + 1..];
  }

  lemma {:induction false} FindShift(t: string, c: char, i: nat)
    requires i <= |t|
    ensures Find(t[i..], c, 0) == Find(t, c, i) - i
  {
    var k := Find(t, c, i);
    FindSkips(t, c, i);
    FindFirst(t[i..], c, 0, k - i);
  }

  lemma NoBarIn(t: string, i: nat, j: nat)
    requires i <= |t| && j == Find(t, '|', i)
    ensures '|' !in t[i..j]
  {
    FindSkips(t, '|', i);
  }

  /** m_seq. */
  method MSeq(re: string, s: string, icase: bool) returns (r: bool)
    requires NoGroups(re)
    ensures r == Matches(re, s, icase)
    decreases |re|, 1
  {
    hide AtomLen, QuantAt, Reps, AtomChar;
    if re == "" {
      AcceptsNone(Open, s, icase);
      return true;
    }
    if re[0] == '^' {
      r := MSeq(re[1..], s, icase);
      return;
    }
    if re == "$" {
      AcceptsNone(Anchored, s, icase);
      return s == "";
    }
    var bar := FindBar(re, 0);
    FindSkips(re, '|', 0);
    if bar < |re| {
      r := AnyOf(re, s, icase);
      return;
    }
    assert '|' !in re;
    var n := AtomLen(re);
    if n == 0 {
      AcceptsNone(Malformed, s, icase);
      return false;
    }
    var q := QuantAt(re[n..]);
    var rest := re[n + q.len..];
    assert Starts(re) && rest == Rest(re);
    r := Repeat(re, s, icase);
  }

  /** The loop of m_seq over repetition counts, the largest first. */
  method Repeat(re: string, s: string, icase: bool) returns (r: bool)
    requires NoGroups(re) && Starts(re)
    ensures r == Matches(re, s, icase)
    decreases |re|, 0
  {
    hide AtomLen, QuantAt, Reps, AtomChar, Matches;
    var n := AtomLen(re);
    var q := QuantAt(re[n..]);
    var rest := re[n + q.len..];
    assert rest == Rest(re);
    MatchesItem(re, s, icase);
    var max := if q.max.None? then |s| + 1 else q.max.value;
    var count: int := max;
    while count >= q.min
      invariant q.min - 1 <= count || count == max
      invariant count <= max
      invariant q.min == 0 ==> count >= 0
      invariant forall k | 0 <= k <= |s| && Allowed(q, k) && k > count :: !Reps(re, rest, s, k, icase)
    {
      var found, ok := RepsMatch(re, rest, count, s, icase);
      if found {
        RepsBound(re, rest, s, count, icase);
        return true;
      }
      if ok {
        RepsBound(re, rest, s, count, icase);
        return true;
      }
      count := count - 1;
    }
    return false;
  }

  lemma RepsBound(t: string, rest: string, s: string, k: nat, icase: bool)
    ensures Reps(t, rest, s, k, icase) ==> k <= |s|
  {
  }

  // ---- the search in a line ----

  const LINE_MAX: nat := 4096

  /** The pattern without a leading caret and a final dollar sign. */
  function Inner(pat: string): string {
    var p := if pat != "" && pat[0] == '^' then pat[1..] else pat;
    if p != "" && p[|p| - 1] == '$' then p[..|p| - 1] else p
  }

  predicate EndsInDollar(pat: string) {
    pat != "" && pat[|pat| - 1] == '$'
  }

  /** The pattern is found at some position, at the first one if it starts with a caret. */
  ghost predicate Found(pat: string, line: string, icase: bool) {
    exists i | 0 <= i <= |line| :: (pat != "" && pat[0] == '^' ==> i == 0) && Matches(Inner(pat), line[i..], icase)
  }

  /** re_search without the fixed-string option. A final dollar sign is removed, and the match that is
      then repeated for the tail of the line is the same match again, so it has no effect. */
  method ReSearch(pat: string, line: string, icase: bool) returns (r: bool)
    requires NoGroups(pat)
    ensures r ==> |Inner(pat)| < PAT_MAX && Found(pat, line, icase)
    ensures |line| < LINE_MAX || !EndsInDollar(pat) ==> r == (|Inner(pat)| < PAT_MAX && Found(pat, line, icase))
  {
    hide Matches;
    var anchored := pat != "" && pat[0] == '^';
    var atEnd := EndsInDollar(pat);
    var from := if anchored then 1 else 0;
    var len := |pat| - from - if atEnd then 1 else 0;
    var buf := pat[from..from + len];
    assert buf == Inner(pat);
    if len >= PAT_MAX {
      return false;
    }
    var i := 0;
    while i <= |line|
      invariant i <= |line| + 1 && (anchored ==> i == 0)
      invariant forall k | 0 <= k < i :: !Matches(buf, line[k..], icase)
    {
      r := MSeq(buf, line[i..], icase);
      if r {
        if atEnd {
          var tail := line[i..];
          if |tail| >= LINE_MAX {
            return false;
          }
          r := MSeq(buf, tail, icase);
        }
        return;
      }
      if anchored {
        return false;
      }
      i := i + 1;
    }
    return false;
  }

  // ---- the final dollar sign ----

  /** A final dollar sign never changes what is found. */
  lemma DollarIgnored(pat: string, line: string, icase: bool)
    requires !EndsInDollar(pat)
    ensures Found(pat + "$", line, icase) <==> Found(pat, line, icase)
  {
    hide Matches;
    assert Inner(pat + "$") == Inner(pat) by {
      if pat != "" && pat[0] == '^' {
        assert (pat + "$")[1..] == pat[1..] + "$";
      }
    }
    assert pat != "" ==> (pat + "$")[0] == pat[0];
  }

  /** Items of exactly one character each. */
  predicate Singles(items: seq<Item>) {
    forall i | 0 <= i < |items| :: items[i].min == 1 && items[i].max == Some(1)
  }

  lemma {:induction false} SinglesLanguage(items: seq<Item>, w: string, icase: bool)
    requires Singles(items)
    ensures InLanguage(items, w, icase) <==>
            |w| == |items| && forall k | 0 <= k < |items| :: AtomChar(items[k].text, w[k], icase)
  {
    if InLanguage(items, w, icase) {
      var ws :| Words(items, ws, icase) && Flatten(ws) == w;
      forall i | 0 <= i < |ws| ensures |ws[i]| == 1 && AtomChar(items[i].text, ws[i][0], icase) {
        assert InItem(items[i], ws[i], icase);
      }
      FlattenOnes(ws);
    }
    if |w| == |items| && forall k | 0 <= k < |items| :: AtomChar(items[k].text, w[k], icase) {
      var ws := seq(|w|, i requires 0 <= i < |w| => [w[i]]);
      FlattenOnes(ws);
      assert Words(items, ws, icase);
    }
  }

  lemma {:induction false} FlattenOnes(ws: seq<string>)
    requires forall i | 0 <= i < |ws| :: |ws[i]| == 1
    ensures |Flatten(ws)| == |ws| && forall i | 0 <= i < |ws| :: Flatten(ws)[i] == ws[i][0]
    decreases |ws|
  {
    if ws != [] {
      FlattenOnes(ws[1..]);
    }
  }

  /** The branch is found somewhere in the line. */
  ghost predicate FoundIn(b: Branch, line: string, icase: bool) {
    exists i | 0 <= i <= |line| :: Accepts(b, line[i..], icase)
  }

  /** What a final dollar sign asks for: some end of the line is a word of the branch. */
  ghost predicate FoundAtEnd(b: Branch, line: string, icase: bool) {
    exists i | 0 <= i <= |line| :: InLanguage(b.items, line[i..], icase)
  }

  /** The search for a pattern of single characters with a final dollar sign finds the pattern anywhere. */
  lemma DollarSearch(p: string, line: string, icase: bool)
    requires '|' !in p && !EndsInDollar(p) && (p != "" ==> p[0] != '^') && Singles(Parse(p).items)
    ensures Found(p + "$", line, icase) <==> FoundIn(Parse(p), line, icase)
  {
    hide Matches, Accepts, Parse;
    DollarIgnored(p, line, icase);
    assert Inner(p) == p;
    forall i | 0 <= i <= |line| ensures Matches(p, line[i..], icase) <==> Accepts(Parse(p), line[i..], icase) {
      NoBars(p, line[i..], icase);
      PositiveUncut(Parse(p));
    }
  }

  ghost predicate MatchesAny(it: Item, icase: bool) {
    forall c | c != '\0' :: AtomChar(it.text, c, icase)
  }

  /** The characters at position i spell a word of as many single items. */
  ghost predicate WordAt(items: seq<Item>, line: string, i: int, icase: bool) {
    0 <= i <= |line| - |items| && InLanguage(items, line[i..i + |items|], icase)
  }

  lemma SinglesFound(items: seq<Item>, line: string, icase: bool)
    requires Singles(items)
    ensures FoundIn(Branch(items, Open), line, icase) <==> exists i :: WordAt(items, line, i, icase)
  {
    hide InLanguage;
    var n, b := |items|, Branch(items, Open);
    if FoundIn(b, line, icase) {
      var i :| 0 <= i <= |line| && Accepts(b, line[i..], icase);
      var m :| 0 <= m <= |line[i..]| && InLanguage(items, line[i..][..m], icase);
      SinglesLanguage(items, line[i..][..m], icase);
      assert line[i..][..m] == line[i..i + m];
      assert WordAt(items, line, i, icase);
    }
    if i :| WordAt(items, line, i, icase) {
      assert line[i..][..n] == line[i..i + n];
      assert Accepts(b, line[i..], icase);
    }
  }

  /** Where every item matches every character, any match can be moved to the end of the line. */
  lemma AnyMoves(items: seq<Item>, line: string, icase: bool)
    requires Singles(items) && '\0' !in line && (forall k | 0 <= k < |items| :: MatchesAny(items[k], icase))
    requires |items| <= |line|
    ensures FoundAtEnd(Branch(items, Open), line, icase)
  {
    var i := |line| - |items|;
    SinglesLanguage(items, line[i..], icase);
    assert InLanguage(Branch(items, Open).items, line[i..], icase);
  }

  lemma DeadItem(items: seq<Item>, k: nat, w: string, icase: bool)
    requires Singles(items) && k < |items| && !Possible(items[k], icase) && '\0' !in w
    ensures !InLanguage(items, w, icase)
  {
    SinglesLanguage(items, w, icase);
  }

  /** A line in which the pattern is found, but not at its end. */
  lemma NotAtEnd(items: seq<Item>, k: nat, icase: bool) returns (line: string)
    requires Singles(items) && k < |items| && !MatchesAny(items[k], icase)
    requires forall i | 0 <= i < |items| :: Possible(items[i], icase)
    ensures '\0' !in line
    ensures FoundIn(Branch(items, Open), line, icase) && !FoundAtEnd(Branch(items, Open), line, icase)
  {
    hide Possible;
    var n := |items|;
    var ws := MinWord(items, icase);
    var w := Flatten(ws);
    var x :| x != '\0' && !AtomChar(items[k].text, x, icase);
    assert InLanguage(items, w, icase);
    SinglesLanguage(items, w, icase);
    line := w + seq(n, _ => x);
    assert line[0..0 + n] == w;
    assert WordAt(items, line, 0, icase);
    SinglesFound(items, line, icase);
    forall i | 0 <= i <= |line| ensures !InLanguage(items, line[i..], icase) {
      SinglesLanguage(items, line[i..], icase);
      if i == n {
        assert line[i..][k] == x;
      }
    }
  }

  /** For a pattern of single characters, a final dollar sign is answered as it should be, on every line,
      exactly when every atom matches every character or some atom matches none. */
  lemma DollarExactly(items: seq<Item>, icase: bool)
    requires Singles(items)
    ensures (forall line | '\0' !in line ::
               FoundIn(Branch(items, Open), line, icase) == FoundAtEnd(Branch(items, Open), line, icase))
            <==> (forall k | 0 <= k < |items| :: MatchesAny(items[k], icase))
                 || (exists k | 0 <= k < |items| :: !Possible(items[k], icase))
  {
    hide Possible, MatchesAny, InLanguage;
    var b := Branch(items, Open);
    forall line | '\0' !in line && FoundAtEnd(b, line, icase) ensures FoundIn(b, line, icase) {
      var i :| 0 <= i <= |line| && InLanguage(items, line[i..], icase);
      assert line[i..][..|line[i..]|] == line[i..];
      assert Accepts(b, line[i..], icase);
    }
    if forall k | 0 <= k < |items| :: MatchesAny(items[k], icase) {
      forall line | '\0' !in line && FoundIn(b, line, icase) ensures FoundAtEnd(b, line, icase) {
        SinglesFound(items, line, icase);
        var i :| WordAt(items, line, i, icase);
        AnyMoves(items, line, icase);
      }
    } else if k: nat :| k < |items| && !Possible(items[k], icase) {
      forall line | '\0' !in line ensures !FoundIn(b, line, icase) {
        SinglesFound(items, line, icase);
        forall i | 0 <= i <= |line| - |items| ensures !WordAt(items, line, i, icase) {
          DeadItem(items, k, line[i..i + |items|], icase);
        }
      }
    } else {
      var k: nat :| k < |items| && !MatchesAny(items[k], icase);
      var line := NotAtEnd(items, k, icase);
    }
  }

  /** "a$" is found in "ab". */
  lemma DollarExample(icase: bool)
    ensures Found("a$", "ab", icase) && !FoundAtEnd(Parse("a"), "ab", icase)
  {
    hide Found, FoundIn, Matches, InLanguage;
    var line := "ab";
    assert Parse("a") == Branch([Item("a", 1, Some(1))], Open) by {
      assert "a"[1..] == "" && AtomLen("a") == 1 && QuantAt("") == ONCE;
    }
    assert "a" + "$" == "a$";
    DollarSearch("a", line, icase);
    var items := [Item("a", 1, Some(1))];
    assert line[0..0 + 1] == "a";
    SinglesLanguage(items, line[0..0 + 1], icase);
    assert WordAt(items, line, 0, icase);
    SinglesFound(items, line, icase);
    forall i | 0 <= i <= 2 ensures !InLanguage(items, line[i..], icase) {
      SinglesLanguage(items, line[i..], icase);
    }
  }
}
