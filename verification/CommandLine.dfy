/** The shell's reading of a token list as a pipeline (kernel/shell/commands.c). */
module CommandLine {
  import opened Base

  const MAX_STAGES: nat := 8
  const MAX_ARGS: nat := 16

  datatype Mode = Truncate | Append | Input

  datatype Redirect = Redirect(mode: Mode, file: string)

  /** The redirections of slots 0, 1 and 2. */
  type Redirects = s: seq<Option<Redirect>> | |s| == 3 witness [None, None, None]

  /** A stage: its words and its redirections. */
  datatype Stage = Stage(argv: seq<string>, redir: Redirects)

  function EmptyStage(): Stage {
    Stage([], [None, None, None])
  }

  /** What an operator redirects, and how. */
  function Operator(t: string): (r: Option<(nat, Mode)>)
    ensures r.Some? ==> r.value.0 < 3
  {
    if t == ">" then Some((1, Truncate))
    else if t == ">>" then Some((1, Append))
    else if t == "<" then Some((0, Input))
    else if t == "2>" then Some((2, Truncate))
    else if t == "2>>" then Some((2, Append))
    else None
  }

  predicate Word(t: string) {
    t != "|" && Operator(t).None?
  }

  // ---- the grammar ----

  /** An item of a command line; a redirection takes the token after its operator, whatever it is. */
  datatype Item = Arg(text: string) | Redir(slot: nat, redirect: Redirect) | Bar

  /** The items of a token list; None if an operator has no file. */
  function Items(ts: seq<string>): Option<seq<Item>>
    decreases |ts|
  {
    if ts == [] then Some([])
    else
      match Operator(ts[0])
      case Some((slot, mode)) =>
        if |ts| == 1 then None else Prepend(Redir(slot, Redirect(mode, ts[1])), Items(ts[2..]))
      case None => Prepend(if ts[0] == "|" then Bar else Arg(ts[0]), Items(ts[1..]))
  }

  function Prepend(i: Item, r: Option<seq<Item>>): Option<seq<Item>> {
    if r.None? then None else Some([i] + r.value)
  }

  /** The words among items, in order. */
  function ArgsOf(s: seq<Item>): seq<string> {
    if s == [] then [] else (if s[0].Arg? then [s[0].text] else []) + ArgsOf(s[1..])
  }

  /** The last redirection of a slot among items. */
  function LastRedirect(s: seq<Item>, slot: nat): Option<Redirect> {
    if s == [] then None
    else
      var last := s[|s| - 1];
      if last.Redir? && last.slot == slot then Some(last.redirect) else LastRedirect(s[..|s| - 1], slot)
  }

  /** The stage that items without a bar describe. */
  function StageOf(s: seq<Item>): Stage {
    Stage(ArgsOf(s), [LastRedirect(s, 0), LastRedirect(s, 1), LastRedirect(s, 2)])
  }

  /** The items between bars. */
  function Groups(s: seq<Item>): (r: seq<seq<Item>>)
    ensures |r| > 0
  {
    if s == [] then [[]]
    else
      var r := Groups(s[1..]);
      if s[0].Bar? then [[]] + r else [[s[0]] + r[0]] + r[1..]
  }

  predicate StageOk(s: Stage) {
    0 < |s.argv| <= MAX_ARGS
  }

  function Stages(gs: seq<seq<Item>>): (r: seq<Stage>)
    ensures |r| == |gs| && forall i | 0 <= i < |r| :: r[i] == StageOf(gs[i])
  {
    seq(|gs|, i requires 0 <= i < |gs| => StageOf(gs[i]))
  }

  /** The pipeline that a token list describes, if any: every stage has a word and not too many, and
      there are not too many stages. */
  function Meaning(ts: seq<string>): Option<seq<Stage>> {
    match Items(ts)
    case None => None
    case Some(s) =>
      var st := Stages(Groups(s));
      if |st| <= MAX_STAGES && forall i | 0 <= i < |st| :: StageOk(st[i]) then Some(st) else None
  }

  // ---- reading from left to right ----

  function Fill(s: Stage, i: Item): Stage
    requires !i.Bar? && (i.Redir? ==> i.slot < 3)
  {
    match i
    case Arg(t) => s.(argv := s.argv + [t])
    case Redir(slot, r) => s.(redir := s.redir[slot := Some(r)])
  }

  lemma ArgsSnoc(s: seq<Item>, i: Item)
    ensures ArgsOf(s + [i]) == ArgsOf(s) + if i.Arg? then [i.text] else []
  {
    ArgsConcat(s, [i]);
    assert [i][1..] == [] && ArgsOf([]) == [];
  }

  /** One more item of the current stage. */
  lemma StageSnoc(s: seq<Item>, i: Item)
    requires !i.Bar? && (i.Redir? ==> i.slot < 3)
    ensures StageOf(s + [i]) == Fill(StageOf(s), i)
  {
    ArgsSnoc(s, i);
    var u := s + [i];
    assert u[..|u| - 1] == s && u[|u| - 1] == i;
  }

  predicate NoBars(s: seq<Item>) {
    forall i | 0 <= i < |s| :: !s[i].Bar?
  }

  /** Items without a bar in front belong to the first group. */
  lemma {:induction false} GroupsFrom(g: seq<Item>, s: seq<Item>)
    requires NoBars(g)
    ensures Groups(g + s) == [g + Groups(s)[0]] + Groups(s)[1..]
    decreases |g|
  {
    if g == [] {
      assert g + s == s && g + Groups(s)[0] == Groups(s)[0];
      assert Groups(s) == [Groups(s)[0]] + Groups(s)[1..];
    } else {
      assert (g + s)[1..] == g[1..] + s;
      GroupsFrom(g[1..], s);
      assert [g[0]] + (g[1..] + Groups(s)[0]) == g + Groups(s)[0];
    }
  }

  lemma GroupsAtBar(g: seq<Item>, s: seq<Item>)
    requires NoBars(g)
    ensures Groups(g + [Bar] + s) == [g] + Groups(s)
  {
    assert g + [Bar] + s == g + ([Bar] + s);
    GroupsFrom(g, [Bar] + s);
    assert ([Bar] + s)[1..] == s;
    assert g + [] == g;
  }

  lemma GroupsAtEnd(g: seq<Item>)
    requires NoBars(g)
    ensures Groups(g) == [g]
  {
    GroupsFrom(g, []);
    assert g + [] == g;
  }

  /** Complete stages with a bar after each. */
  function Flat(gs: seq<seq<Item>>): seq<Item> {
    if gs == [] then [] else gs[0] + [Bar] + Flat(gs[1..])
  }

  predicate Barless(gs: seq<seq<Item>>) {
    forall i | 0 <= i < |gs| :: NoBars(gs[i])
  }

  lemma {:induction false} FlatSnoc(gs: seq<seq<Item>>, g: seq<Item>)
    ensures Flat(gs + [g]) == Flat(gs) + g + [Bar]
    decreases |gs|
  {
    if gs == [] {
      assert gs + [g] == [g] && [g][1..] == [];
    } else {
      assert (gs + [g])[1..] == gs[1..] + [g];
      FlatSnoc(gs[1..], g);
    }
  }

  lemma {:induction false} GroupsOfFlat(gs: seq<seq<Item>>, s: seq<Item>)
    requires Barless(gs)
    ensures Groups(Flat(gs) + s) == gs + Groups(s)
    decreases |gs|
  {
    hide Groups;
    if gs == [] {
      assert Flat(gs) + s == s;
    } else {
      GroupsOfFlat(gs[1..], s);
      GroupsAtBar(gs[0], Flat(gs[1..]) + s);
      assert Flat(gs) + s == gs[0] + [Bar] + (Flat(gs[1..]) + s);
      assert gs == [gs[0]] + gs[1..];
    }
  }

  /** The tokens read so far are these items, whatever follows. */
  ghost predicate ReadSoFar(ts: seq<string>, t: nat, before: seq<Item>)
    requires t <= |ts|
  {
    Items(ts) == match Items(ts[t..]) { case None => None case Some(r) => Some(before + r) }
  }

  /** The first item of a token list. */
  lemma FirstItem(u: seq<string>)
    requires u != []
    ensures match Operator(u[0])
            case Some((slot, mode)) =>
              if |u| == 1 then Items(u) == None
              else Items(u) == Prepend(Redir(slot, Redirect(mode, u[1])), Items(u[2..]))
            case None => Items(u) == Prepend(if u[0] == "|" then Bar else Arg(u[0]), Items(u[1..]))
  {
    hide Operator;
  }

  lemma ReadNext(ts: seq<string>, t: nat, t': nat, before: seq<Item>, i: Item)
    requires t <= t' <= |ts| && ReadSoFar(ts, t, before) && Items(ts[t..]) == Prepend(i, Items(ts[t'..]))
    ensures ReadSoFar(ts, t', before + [i])
  {
    hide Items;
    if Items(ts[t'..]).Some? {
      var r := Items(ts[t'..]).value;
      assert before + ([i] + r) == before + [i] + r;
    }
  }

  lemma ReadOne(ts: seq<string>, t: nat, before: seq<Item>)
    requires t < |ts| && ReadSoFar(ts, t, before)
    ensures match Operator(ts[t])
            case Some((slot, mode)) =>
              if t + 1 == |ts| then Items(ts).None?
              else ReadSoFar(ts, t + 2, before + [Redir(slot, Redirect(mode, ts[t + 1]))])
            case None => ReadSoFar(ts, t + 1, before + [if ts[t] == "|" then Bar else Arg(ts[t])])
  {
    hide Items, Operator, Prepend;
    var u := ts[t..];
    FirstItem(u);
    assert u[0] == ts[t] && u[1..] == ts[t + 1..];
    match Operator(ts[t])
    case Some((slot, mode)) =>
      if t + 1 < |ts| {
        assert u[1] == ts[t + 1] && u[2..] == ts[t + 2..];
        ReadNext(ts, t, t + 2, before, Redir(slot, Redirect(mode, ts[t + 1])));
      }
    case None =>
      ReadNext(ts, t, t + 1, before, if ts[t] == "|" then Bar else Arg(ts[t]));
  }

  /** What is wrong with the k-th stage is wrong with the line. */
  lemma BadStage(ts: seq<string>, gs: seq<seq<Item>>)
    requires Items(ts).Some? ==> Groups(Items(ts).value) == gs
    requires |gs| > MAX_STAGES || exists k | 0 <= k < |gs| :: !StageOk(StageOf(gs[k]))
    ensures Meaning(ts).None?
  {
    if Items(ts).Some? {
      if k :| 0 <= k < |gs| && !StageOk(StageOf(gs[k])) {
        assert Stages(gs)[k] == StageOf(gs[k]);
      }
    }
  }

  lemma {:induction false} ArgsConcat(s: seq<Item>, u: seq<Item>)
    ensures ArgsOf(s + u) == ArgsOf(s) + ArgsOf(u)
    decreases |s|
  {
    if s == [] {
      assert s + u == u;
    } else {
      assert (s + u)[1..] == s[1..] + u;
      ArgsConcat(s[1..], u);
    }
  }

  /** The items that follow t, if the line is complete. */
  ghost function Rest(ts: seq<string>, t: nat): seq<Item>
    requires t <= |ts|
  {
    match Items(ts[t..])
    case None => []
    case Some(r) => r
  }

  /** A stage that ends with a bar is finished. */
  lemma StageEnds(ts: seq<string>, t: nat, gs: seq<seq<Item>>, g: seq<Item>)
    requires t <= |ts| && Barless(gs) && NoBars(g) && ReadSoFar(ts, t, Flat(gs) + g + [Bar])
    requires !StageOk(StageOf(g)) || |gs| + 2 > MAX_STAGES
    ensures Meaning(ts).None?
  {
    hide Groups, Flat, StageOf, Items;
    var r := Rest(ts, t);
    var all := gs + ([g] + Groups(r));
    assert Flat(gs) + g + [Bar] + r == Flat(gs) + (g + [Bar] + r);
    GroupsOfFlat(gs, g + [Bar] + r);
    GroupsAtBar(g, r);
    assert all[|gs|] == g;
    BadStage(ts, all);
  }

  /** A stage with too many words stays one. */
  lemma StageOverflows(ts: seq<string>, t: nat, gs: seq<seq<Item>>, g: seq<Item>)
    requires t <= |ts| && Barless(gs) && NoBars(g) && ReadSoFar(ts, t, Flat(gs) + g) && |ArgsOf(g)| > MAX_ARGS
    ensures Meaning(ts).None?
  {
    hide Groups, Flat, Items;
    var r := Rest(ts, t);
    var all := gs + ([g + Groups(r)[0]] + Groups(r)[1..]);
    assert Flat(gs) + g + r == Flat(gs) + (g + r);
    GroupsOfFlat(gs, g + r);
    GroupsFrom(g, r);
    ArgsConcat(g, Groups(r)[0]);
    assert all[|gs|] == g + Groups(r)[0];
    BadStage(ts, all);
  }

  /** At the end of the tokens the groups are the finished stages and the current one. */
  lemma LineEnds(ts: seq<string>, gs: seq<seq<Item>>, g: seq<Item>)
    requires Barless(gs) && NoBars(g) && ReadSoFar(ts, |ts|, Flat(gs) + g)
    ensures Items(ts).Some? && Groups(Items(ts).value) == gs + [g]
  {
    assert ts[|ts|..] == [];
    assert Flat(gs) + g + [] == Flat(gs) + g;
    GroupsOfFlat(gs, g);
    GroupsAtEnd(g);
  }

  ghost predicate Finished(gs: seq<seq<Item>>, segs: seq<Stage>) {
    |segs| == |gs| && Barless(gs) && forall i | 0 <= i < |gs| :: segs[i] == StageOf(gs[i]) && StageOk(segs[i])
  }

  /** parse_pipeline. */
  method ParsePipeline(ts: seq<string>) returns (r: Option<seq<Stage>>)
    ensures r == Meaning(ts)
  {
    hide Meaning, Items, Groups, ReadSoFar, Flat, StageOf, Operator;
    var segs: seq<Stage> := [];
    var cur := EmptyStage();
    ghost var gs: seq<seq<Item>>, g: seq<Item> := [], [];
    NothingRead(ts);
    var t := 0;
    while t < |ts|
      invariant t <= |ts| && Finished(gs, segs) && NoBars(g) && cur == StageOf(g)
      invariant |segs| < MAX_STAGES && |cur.argv| <= MAX_ARGS
      invariant ReadSoFar(ts, t, Flat(gs) + g)
    {
      ReadOne(ts, t, Flat(gs) + g);
      BarIsWord();
      if ts[t] == "|" {
        if |cur.argv| == 0 {
          StageEnds(ts, t + 1, gs, g);
          return None;
        }
        if |segs| + 1 >= MAX_STAGES {
          StageEnds(ts, t + 1, gs, g);
          return None;
        }
        FlatSnoc(gs, g);
        segs, cur := segs + [cur], EmptyStage();
        gs, g := gs + [g], [];
        EmptyIsStage();
        assert Flat(gs) + g == Flat(gs);
        t := t + 1;
        continue;
      }
      var op := Operator(ts[t]);
      if op.Some? {
        if t + 1 >= |ts| {
          NoItems(ts);
          return None;
        }
        ghost var i := Redir(op.value.0, Redirect(op.value.1, ts[t + 1]));
        StageSnoc(g, i);
        assert Flat(gs) + g + [i] == Flat(gs) + (g + [i]);
        g := g + [i];
        cur := cur.(redir := cur.redir[op.value.0 := Some(Redirect(op.value.1, ts[t + 1]))]);
        t := t + 2;
        continue;
      }
      ghost var i := Arg(ts[t]);
      StageSnoc(g, i);
      assert Flat(gs) + g + [i] == Flat(gs) + (g + [i]);
      if |cur.argv| >= MAX_ARGS {
        ArgsAre(g + [i]);
        StageOverflows(ts, t + 1, gs, g + [i]);
        return None;
      }
      g := g + [i];
      cur := cur.(argv := cur.argv + [ts[t]]);
      t := t + 1;
    }
    LineEnds(ts, gs, g);
    if |cur.argv| == 0 {
      assert (gs + [g])[|gs|] == g;
      BadStage(ts, gs + [g]);
      return None;
    }
    GoodLine(ts, gs, g, segs, cur);
    return Some(segs + [cur]);
  }

  lemma NothingRead(ts: seq<string>)
    ensures ReadSoFar(ts, 0, Flat([]) + []) && EmptyStage() == StageOf([])
  {
    assert ts[0..] == ts;
    assert Flat([]) + [] == [];
    if Items(ts).Some? {
      assert [] + Items(ts).value == Items(ts).value;
    }
  }

  lemma EmptyIsStage()
    ensures EmptyStage() == StageOf([])
  {
  }

  lemma BarIsWord()
    ensures Operator("|").None?
  {
  }

  lemma NoItems(ts: seq<string>)
    requires Items(ts).None?
    ensures Meaning(ts).None?
  {
  }

  lemma ArgsAre(s: seq<Item>)
    ensures StageOf(s).argv == ArgsOf(s)
  {
  }

  lemma GoodLine(ts: seq<string>, gs: seq<seq<Item>>, g: seq<Item>, segs: seq<Stage>, cur: Stage)
    requires Items(ts).Some? && Groups(Items(ts).value) == gs + [g] && Finished(gs, segs)
    requires cur == StageOf(g) && StageOk(cur) && |segs| < MAX_STAGES
    ensures Meaning(ts) == Some(segs + [cur])
  {
    var all := gs + [g];
    var st := Stages(all);
    forall i | 0 <= i < |all| ensures st[i] == (segs + [cur])[i] && StageOk(st[i]) {
      assert i < |gs| ==> all[i] == gs[i];
    }
    assert st == segs + [cur];
  }

  // ---- printing ----

  predicate Printable(s: Stage) {
    StageOk(s) && (forall i | 0 <= i < |s.argv| :: Word(s.argv[i])) &&
    (forall k | 0 <= k < 3 && s.redir[k].Some? :: (s.redir[k].value.mode == Input) == (k == 0))
  }

  function OperatorText(k: nat, m: Mode): string
    requires k < 3
  {
    if k == 0 then "<"
    else if k == 1 then if m == Append then ">>" else ">"
    else if m == Append then "2>>" else "2>"
  }

  function PrintRedirect(k: nat, r: Option<Redirect>): seq<string>
    requires k < 3
  {
    if r.None? then [] else [OperatorText(k, r.value.mode), r.value.file]
  }

  function PrintStage(s: Stage): seq<string>
  {
    s.argv + PrintRedirect(0, s.redir[0]) + PrintRedirect(1, s.redir[1]) + PrintRedirect(2, s.redir[2])
  }

  function PrintLine(segs: seq<Stage>): seq<string>
    requires segs != [] && forall i | 0 <= i < |segs| :: Printable(segs[i])
  {
    if |segs| == 1 then PrintStage(segs[0]) else PrintStage(segs[0]) + ["|"] + PrintLine(segs[1..])
  }

  function RedirItems(k: nat, r: Option<Redirect>): seq<Item> {
    if r.None? then [] else [Redir(k, r.value)]
  }

  function ArgSeq(ws: seq<string>): (r: seq<Item>)
    ensures |r| == |ws| && forall i | 0 <= i < |r| :: r[i] == Arg(ws[i])
  {
    seq(|ws|, i requires 0 <= i < |ws| => Arg(ws[i]))
  }

  function StageItems(s: Stage): seq<Item>
  {
    ArgSeq(s.argv) +
    RedirItems(0, s.redir[0]) + RedirItems(1, s.redir[1]) + RedirItems(2, s.redir[2])
  }

  function LineItems(segs: seq<Stage>): seq<Item>
    requires segs != [] && forall i | 0 <= i < |segs| :: Printable(segs[i])
  {
    if |segs| == 1 then StageItems(segs[0]) else StageItems(segs[0]) + [Bar] + LineItems(segs[1..])
  }

  function Extend(s: seq<Item>, r: Option<seq<Item>>): Option<seq<Item>> {
    if r.None? then None else Some(s + r.value)
  }

  lemma {:induction false} ArgsRead(ws: seq<string>, u: seq<string>)
    requires forall i | 0 <= i < |ws| :: Word(ws[i])
    ensures Items(ws + u) == Extend(ArgSeq(ws), Items(u))
    decreases |ws|
  {
    hide Operator;
    if ws == [] {
      assert ws + u == u;
      if Items(u).Some? {
        assert [] + Items(u).value == Items(u).value;
      }
    } else {
      var rest := ws[1..];
      assert (ws + u)[1..] == rest + u && (ws + u)[0] == ws[0];
      ArgsRead(rest, u);
      var a := ArgSeq(rest);
      assert [Arg(ws[0])] + a == ArgSeq(ws);
      if Items(u).Some? {
        assert [Arg(ws[0])] + (a + Items(u).value) == [Arg(ws[0])] + a + Items(u).value;
      }
    }
  }

  lemma RedirectRead(k: nat, r: Option<Redirect>, u: seq<string>)
    requires k < 3 && (r.Some? ==> (r.value.mode == Input) == (k == 0))
    ensures Items(PrintRedirect(k, r) + u) == Extend(RedirItems(k, r), Items(u))
  {
    var p := PrintRedirect(k, r);
    if r.None? {
      assert p + u == u;
      if Items(u).Some? {
        assert [] + Items(u).value == Items(u).value;
      }
    } else {
      assert (p + u)[2..] == u && (p + u)[0] == p[0] && (p + u)[1] == p[1];
      assert Operator(p[0]) == Some((k, r.value.mode));
    }
  }

  lemma ExtendTwice(a: seq<Item>, b: seq<Item>, r: Option<seq<Item>>)
    ensures Extend(a, Extend(b, r)) == Extend(a + b, r)
  {
    if r.Some? {
      assert a + (b + r.value) == a + b + r.value;
    }
  }

  lemma StageRead(s: Stage, u: seq<string>)
    requires Printable(s)
    ensures Items(PrintStage(s) + u) == Extend(StageItems(s), Items(u))
  {
    hide Items, Extend, RedirItems, PrintRedirect;
    var p0, p1, p2 := PrintRedirect(0, s.redir[0]), PrintRedirect(1, s.redir[1]), PrintRedirect(2, s.redir[2]);
    var a := ArgSeq(s.argv);
    var r0, r1, r2 := RedirItems(0, s.redir[0]), RedirItems(1, s.redir[1]), RedirItems(2, s.redir[2]);
    assert PrintStage(s) + u == s.argv + (p0 + (p1 + (p2 + u)));
    ArgsRead(s.argv, p0 + (p1 + (p2 + u)));
    RedirectRead(0, s.redir[0], p1 + (p2 + u));
    RedirectRead(1, s.redir[1], p2 + u);
    RedirectRead(2, s.redir[2], u);
    ExtendTwice(r1, r2, Items(u));
    ExtendTwice(r0, r1 + r2, Items(u));
    ExtendTwice(a, r0 + (r1 + r2), Items(u));
    assert a + (r0 + (r1 + r2)) == StageItems(s);
  }

  lemma NoTokens()
    ensures Items([]) == Some([])
  {
  }

  lemma BarRead(u: seq<string>)
    ensures Items(["|"] + u) == Prepend(Bar, Items(u))
  {
    FirstItem(["|"] + u);
    assert (["|"] + u)[1..] == u;
  }

  lemma {:induction false} LineRead(segs: seq<Stage>)
    requires segs != [] && forall i | 0 <= i < |segs| :: Printable(segs[i])
    ensures Items(PrintLine(segs)) == Some(LineItems(segs))
    decreases |segs|
  {
    hide Printable, StageItems, PrintStage, Items;
    if |segs| == 1 {
      NoTokens();
      StageRead(segs[0], []);
      assert PrintStage(segs[0]) + [] == PrintStage(segs[0]);
      assert StageItems(segs[0]) + [] == StageItems(segs[0]);
    } else {
      var rest := segs[1..];
      LineRead(rest);
      var x, u := PrintStage(segs[0]), ["|"] + PrintLine(rest);
      BarRead(PrintLine(rest));
      assert x + ["|"] + PrintLine(rest) == x + u;
      StageRead(segs[0], u);
      assert StageItems(segs[0]) + ([Bar] + LineItems(rest)) == StageItems(segs[0]) + [Bar] + LineItems(rest);
    }
  }

  lemma {:induction false} ArgItems(ws: seq<string>)
    ensures ArgsOf(ArgSeq(ws)) == ws
    ensures forall k: nat :: LastRedirect(ArgSeq(ws), k) == None
    decreases |ws|
  {
    if ws != [] {
      var init := ws[..|ws| - 1];
      ArgItems(init);
      var a := ArgSeq(ws);
      var b := ArgSeq(init);
      assert a == b + [Arg(ws[|ws| - 1])] && a[..|a| - 1] == b;
      ArgsSnoc(b, Arg(ws[|ws| - 1]));
    }
  }

  lemma AddRedirect(s: seq<Item>, k: nat, r: Option<Redirect>)
    requires k < 3
    ensures var u := s + RedirItems(k, r);
            && ArgsOf(u) == ArgsOf(s)
            && forall j: nat :: LastRedirect(u, j) == if j == k && r.Some? then r else LastRedirect(s, j)
  {
    if r.None? {
      assert s + [] == s;
    } else {
      var u := s + [Redir(k, r.value)];
      assert u[..|u| - 1] == s;
      ArgsSnoc(s, Redir(k, r.value));
    }
  }

  lemma StageItemsMean(s: Stage)
    requires Printable(s)
    ensures StageOf(StageItems(s)) == s && NoBars(StageItems(s))
  {
    hide LastRedirect, ArgsOf;
    var a := ArgSeq(s.argv);
    ArgItems(s.argv);
    AddRedirect(a, 0, s.redir[0]);
    AddRedirect(a + RedirItems(0, s.redir[0]), 1, s.redir[1]);
    AddRedirect(a + RedirItems(0, s.redir[0]) + RedirItems(1, s.redir[1]), 2, s.redir[2]);
    assert s.redir == [s.redir[0], s.redir[1], s.redir[2]];
  }

  lemma {:induction false} LineGroups(segs: seq<Stage>)
    requires segs != [] && forall i | 0 <= i < |segs| :: Printable(segs[i])
    ensures var gs := Groups(LineItems(segs)); |gs| == |segs| && forall i | 0 <= i < |segs| :: StageOf(gs[i]) == segs[i]
    decreases |segs|
  {
    hide StageItems, StageOf, Printable;
    StageItemsMean(segs[0]);
    if |segs| == 1 {
      GroupsAtEnd(StageItems(segs[0]));
    } else {
      var rest := segs[1..];
      LineGroups(rest);
      GroupsAtBar(StageItems(segs[0]), LineItems(rest));
      assert forall i | 0 < i < |segs| :: segs[i] == rest[i - 1];
    }
  }

  /** A printed pipeline is read back. */
  lemma ParsePrinted(segs: seq<Stage>)
    requires 0 < |segs| <= MAX_STAGES && forall i | 0 <= i < |segs| :: Printable(segs[i])
    ensures Meaning(PrintLine(segs)) == Some(segs)
  {
    hide Groups, LineItems, PrintLine, Items, StageOf;
    LineRead(segs);
    LineGroups(segs);
    var st := Stages(Groups(LineItems(segs)));
    forall i | 0 <= i < |segs| ensures st[i] == segs[i] && StageOk(st[i]) {
      assert Printable(segs[i]);
    }
    assert st == segs;
  }

  // ---- where a redirection goes, and which lines are refused ----

  lemma {:induction false} ItemsCat(a: seq<string>, b: seq<string>)
    requires Items(a).Some?
    ensures Items(a + b) == Extend(Items(a).value, Items(b))
    decreases |a|
  {
    if a == [] {
      assert a + b == b;
      if Items(b).Some? {
        assert [] + Items(b).value == Items(b).value;
      }
    } else {
      hide Operator, Items, Extend;
      FirstItem(a);
      FirstItem(a + b);
      assert (a + b)[0] == a[0];
      match Operator(a[0])
      case Some((slot, mode)) =>
        assert (a + b)[2..] == a[2..] + b && (a + b)[1] == a[1];
        ItemsCat(a[2..], b);
        PrependExtend(Redir(slot, Redirect(mode, a[1])), Items(a[2..]).value, Items(b));
      case None =>
        assert (a + b)[1..] == a[1..] + b;
        ItemsCat(a[1..], b);
        PrependExtend(if a[0] == "|" then Bar else Arg(a[0]), Items(a[1..]).value, Items(b));
    }
  }

  lemma PrependExtend(i: Item, s: seq<Item>, r: Option<seq<Item>>)
    ensures Prepend(i, Extend(s, r)) == Extend([i] + s, r)
  {
    if r.Some? {
      assert [i] + (s + r.value) == [i] + s + r.value;
    }
  }

  /** The last group of one list goes on in the first of the other. */
  function Joined(gx: seq<seq<Item>>, gy: seq<seq<Item>>): (r: seq<seq<Item>>)
    requires gx != [] && gy != []
    ensures |r| == |gx| + |gy| - 1 && r[|gx| - 1] == gx[|gx| - 1] + gy[0]
  {
    gx[..|gx| - 1] + [gx[|gx| - 1] + gy[0]] + gy[1..]
  }

  lemma JoinBar(g: seq<seq<Item>>, gy: seq<seq<Item>>)
    requires g != [] && gy != []
    ensures Joined([[]] + g, gy) == [[]] + Joined(g, gy)
  {
    assert ([[]] + g)[..|g|] == [[]] + g[..|g| - 1];
  }

  lemma JoinItem(i: Item, g: seq<seq<Item>>, gy: seq<seq<Item>>)
    requires g != [] && gy != []
    ensures Joined([[i] + g[0]] + g[1..], gy) == [[i] + Joined(g, gy)[0]] + Joined(g, gy)[1..]
  {
    var h, j := [[i] + g[0]] + g[1..], Joined(g, gy);
    assert |h| == |g|;
    if |g| == 1 {
      assert [i] + g[0] + gy[0] == [i] + (g[0] + gy[0]);
    } else {
      assert h[..|h| - 1] == [[i] + g[0]] + g[1..|g| - 1] && j[0] == g[0];
      assert j[1..] == g[1..|g| - 1] + [g[|g| - 1] + gy[0]] + gy[1..];
    }
  }

  lemma {:induction false} GroupsCat(x: seq<Item>, y: seq<Item>)
    ensures Groups(x + y) == Joined(Groups(x), Groups(y))
    decreases |x|
  {
    hide Joined;
    if x == [] {
      assert x + y == y;
      JoinNothing(Groups(y));
    } else {
      assert (x + y)[1..] == x[1..] + y && (x + y)[0] == x[0];
      GroupsCat(x[1..], y);
      if x[0].Bar? {
        JoinBar(Groups(x[1..]), Groups(y));
      } else {
        JoinItem(x[0], Groups(x[1..]), Groups(y));
      }
    }
  }

  lemma JoinNothing(gy: seq<seq<Item>>)
    requires gy != []
    ensures Joined([[]], gy) == gy
  {
    assert [] + gy[0] == gy[0];
  }

  predicate Names(g: seq<Item>, slot: nat) {
    exists k | 0 <= k < |g| :: g[k].Redir? && g[k].slot == slot
  }

  lemma {:induction false} LastIs(g: seq<Item>, slot: nat, r: Redirect, h: seq<Item>)
    requires !Names(h, slot)
    ensures LastRedirect(g + [Redir(slot, r)] + h, slot) == Some(r)
    decreases |h|
  {
    var s := g + [Redir(slot, r)] + h;
    if h != [] {
      var init := h[..|h| - 1];
      assert s[..|s| - 1] == g + [Redir(slot, r)] + init && s[|s| - 1] == h[|h| - 1];
      LastIs(g, slot, r, init);
    }
  }

  /** An operator that stands where a word could stand redirects the slot that it names to the file after it, in the
      stage that it stands in, unless a later one of that stage names the same slot. */
  lemma RedirectLands(before: seq<string>, op: string, file: string, rest: seq<string>, st: seq<Stage>)
    requires Meaning(before + [op, file] + rest) == Some(st) && Items(before).Some? && Items(rest).Some?
    requires Operator(op).Some? && !Names(Groups(Items(rest).value)[0], Operator(op).value.0)
    ensures var i, (slot, mode) := |Groups(Items(before).value)| - 1, Operator(op).value;
            i < |st| && st[i].redir[slot] == Some(Redirect(mode, file))
  {
    hide Groups, Operator, LastRedirect, ArgsOf, Items, Joined, Meaning, Names;
    var (slot, mode) := Operator(op).value;
    var x, y, r := Items(before).value, Items(rest).value, Redir(slot, Redirect(mode, file));
    assert before + [op, file] + rest == before + ([op, file] + rest);
    ItemsCat(before, [op, file] + rest);
    FirstItem([op, file] + rest);
    assert ([op, file] + rest)[2..] == rest;
    GroupsCat(x, [r] + y);
    GroupsFrom([r], y);
    MeaningAt(before + [op, file] + rest, st);
    var g := Groups(x)[|Groups(x)| - 1];
    LastIs(g, slot, Redirect(mode, file), Groups(y)[0]);
    assert g + ([r] + Groups(y)[0]) == g + [r] + Groups(y)[0];
  }

  lemma MeaningAt(ts: seq<string>, st: seq<Stage>)
    requires Meaning(ts) == Some(st)
    ensures Items(ts).Some? && st == Stages(Groups(Items(ts).value))
  {
  }

  /** A line is accepted exactly if every operator has its file, there are at most 8 stages, and each has at least one
      word and at most 16. */
  lemma AcceptedExactly(ts: seq<string>)
    ensures Meaning(ts).Some? <==>
            && Items(ts).Some?
            && var gs := Groups(Items(ts).value);
               |gs| <= 8 && forall i | 0 <= i < |gs| :: 1 <= |ArgsOf(gs[i])| <= 16
  {
    hide Groups, Items, ArgsOf, LastRedirect;
    if Items(ts).Some? {
      var gs := Groups(Items(ts).value);
      var st := Stages(gs);
      assert forall i | 0 <= i < |gs| :: st[i].argv == ArgsOf(gs[i]);
    }
  }

  /** An operator at the end of a line has no file. */
  lemma {:induction false} NoFileRefused(before: seq<string>, op: string)
    requires Items(before).Some? && op in [">", ">>", "<", "2>", "2>>"]
    ensures Meaning(before + [op]).None?
  {
    hide Operator;
    assert Operator(op).Some? by {
      FiveOperators(op);
    }
    ItemsCat(before, [op]);
    FirstItem([op]);
  }

  /** The five operators, their slots and their modes; no other text is one. */
  lemma FiveOperators(op: string)
    ensures Operator(op).Some? <==> op in [">", ">>", "<", "2>", "2>>"]
    ensures Operator("<") == Some((0, Input)) && Operator(">") == Some((1, Truncate))
    ensures Operator(">>") == Some((1, Append)) && Operator("2>") == Some((2, Truncate))
    ensures Operator("2>>") == Some((2, Append))
  {
  }
}
