/** Patterns as syntax trees: what their printed text means to the matcher (userspace/grep.c). */
module GrepPatterns {
  import opened Base
  import opened GrepSyntax
  import opened Grep

  /** Any character, one character, or a bracket expression of ranges. */
  datatype Atom = Any | Lit(c: char) | Set(neg: bool, ranges: seq<(char, char)>)

  datatype Rep = Rep(atom: Atom, min: nat, max: Option<nat>)

  /** One alternative: repeated atoms, at the end of the subject if anchored. */
  datatype Alt = Alt(reps: seq<Rep>, anchored: bool)

  // ---- meaning ----

  ghost predicate Means(a: Atom, c: char, icase: bool) {
    match a
    case Any => true
    case Lit(d) => Fold(icase, c) == Fold(icase, d)
    case Set(neg, ranges) => (exists i | 0 <= i < |ranges| :: ranges[i].0 <= c <= ranges[i].1) != neg
  }

  ghost predicate InRep(r: Rep, w: string, icase: bool) {
    && r.min <= |w| && (r.max.Some? ==> |w| <= r.max.value)
    && forall i | 0 <= i < |w| :: Means(r.atom, w[i], icase)
  }

  ghost predicate Spells(reps: seq<Rep>, ws: seq<string>, icase: bool) {
    |ws| == |reps| && forall i | 0 <= i < |ws| :: InRep(reps[i], ws[i], icase)
  }

  /** The words of an alternative. */
  ghost predicate Denotes(a: Alt, w: string, icase: bool) {
    exists ws :: Spells(a.reps, ws, icase) && Flatten(ws) == w
  }

  // ---- printing ----

  predicate PlainChar(c: char) {
    c !in "\0.[^$|()*+?{"
  }

  predicate PlainMember(c: char) {
    c !in "\0[]^-|()\\"
  }

  predicate PlainAtom(a: Atom) {
    match a
    case Any => true
    case Lit(c) => PlainChar(c)
    case Set(_, ranges) => ranges != [] && PlainRanges(ranges)
  }

  predicate PlainRanges(ranges: seq<(char, char)>) {
    forall i | 0 <= i < |ranges| :: PlainMember(ranges[i].0) && PlainMember(ranges[i].1)
  }

  predicate PlainAlt(a: Alt) {
    forall i | 0 <= i < |a.reps| :: PlainAtom(a.reps[i].atom)
  }

  function PrintRange(r: (char, char)): string {
    if r.0 == r.1 then [r.0] else [r.0, '-', r.1]
  }

  function PrintRanges(ranges: seq<(char, char)>): string {
    if ranges == [] then "" else PrintRange(ranges[0]) + PrintRanges(ranges[1..])
  }

  function PrintAtom(a: Atom): string {
    match a
    case Any => "."
    case Lit(c) => [c]
    case Set(neg, ranges) => (if neg then "[^" else "[") + PrintRanges(ranges) + "]"
  }

  function Digit(n: nat): char
    requires n < 10
  {
    '0' + n as char
  }

  function Dec(n: nat): (r: string)
    ensures |r| > 0 && forall i | 0 <= i < |r| :: IsDigit(r[i])
  {
    if n < 10 then [Digit(n)] else Dec(n / 10) + [Digit(n % 10)]
  }

  function PrintQuant(min: nat, max: Option<nat>): string {
    if min == 1 && max == Some(1) then ""
    else if max == None then if min == 1 then "+" else "{" + Dec(min) + ",}"
    else if max == Some(min) then "{" + Dec(min) + "}"
    else "{" + Dec(min) + "," + Dec(max.value) + "}"
  }

  function PrintRep(r: Rep): string {
    PrintAtom(r.atom) + PrintQuant(r.min, r.max)
  }

  function PrintAlt(a: Alt): string
    decreases |a.reps|
  {
    if a.reps == [] then if a.anchored then "$" else ""
    else PrintRep(a.reps[0]) + PrintAlt(Alt(a.reps[1..], a.anchored))
  }

  function Print(alts: seq<Alt>): string
    requires alts != []
  {
    if |alts| == 1 then PrintAlt(alts[0]) else PrintAlt(alts[0]) + "|" + Print(alts[1..])
  }

  // ---- numbers ----

  lemma {:induction false} DecValue(n: nat)
    ensures Value(Dec(n)) == n
  {
    if n >= 10 {
      DecValue(n / 10);
      var d := Dec(n);
      assert d[..|d| - 1] == Dec(n / 10);
    } else {
      assert Dec(n)[..0] == "";
    }
  }

  lemma {:induction false} DigitsStop(t: string, i: nat, j: nat)
    requires i <= j <= |t| && (forall k | i <= k < j :: IsDigit(t[k])) && !IsDigit(At(t, j))
    ensures DigitsEnd(t, i) == j
    decreases j - i
  {
    if i < j {
      DigitsStop(t, i + 1, j);
    }
  }

  /** A number in the text, up to a character that is no digit. */
  lemma DecInText(t: string, i: nat, n: nat)
    requires i + |Dec(n)| <= |t| && t[i..i + |Dec(n)|] == Dec(n) && !IsDigit(At(t, i + |Dec(n)|))
    ensures DigitsEnd(t, i) == i + |Dec(n)| && Value(t[i..DigitsEnd(t, i)]) == n
  {
    var j := i + |Dec(n)|;
    forall k | i <= k < j ensures IsDigit(t[k]) {
      assert t[k] == t[i..j][k - i];
    }
    DigitsStop(t, i, j);
    DecValue(n);
  }

  /** A text that starts no quantifier. */
  predicate NoQuant(t: string) {
    At(t, 0) !in "*+?{"
  }

  lemma QuantInText(min: nat, max: Option<nat>, u: string)
    requires NoQuant(u)
    ensures QuantAt(PrintQuant(min, max) + u) == Quant(min, max, |PrintQuant(min, max)|)
  {
    var p := PrintQuant(min, max);
    var t := p + u;
    if min == 1 && max == Some(1) {
      assert t == u;
    } else if min == 1 && max == None {
    } else {
      BracesInText(min, max, u);
    }
  }

  lemma BracesInText(min: nat, max: Option<nat>, u: string)
    requires !(min == 1 && (max == None || max == Some(1)))
    ensures var p := PrintQuant(min, max); At(p + u, 0) == '{' && Braces(p + u) == Quant(min, max, |p|)
  {
    hide Braces, Dec;
    if max == None {
      AtLeastInText(min, u);
    } else if max == Some(min) {
      ExactInText(min, u);
    } else {
      BetweenInText(min, max.value, u);
    }
  }

  lemma ExactInText(n: nat, u: string)
    ensures var p := "{" + Dec(n) + "}"; At(p + u, 0) == '{' && Braces(p + u) == Quant(n, Some(n), |p|)
  {
    hide Dec, Value, DigitsEnd;
    var t := "{" + Dec(n) + "}" + u;
    assert t[1..1 + |Dec(n)|] == Dec(n);
    assert At(t, 1 + |Dec(n)|) == '}';
    DecInText(t, 1, n);
  }

  lemma AtLeastInText(n: nat, u: string)
    ensures var p := "{" + Dec(n) + ",}"; At(p + u, 0) == '{' && Braces(p + u) == Quant(n, None, |p|)
  {
    hide Dec, Value, DigitsEnd;
    var t := "{" + Dec(n) + ",}" + u;
    var e := 1 + |Dec(n)|;
    assert t[1..e] == Dec(n);
    assert At(t, e) == ',' && At(t, e + 1) == '}';
    DecInText(t, 1, n);
    DigitsNone(t, e + 1);
  }

  lemma BetweenShape(d: string, g: string, u: string)
    ensures var t := "{" + d + "," + g + "}" + u;
            var e, f := 1 + |d|, 2 + |d| + |g|;
            && |t| == f + 1 + |u| && At(t, 0) == '{' && t[1..e] == d && At(t, e) == ','
            && t[e + 1..f] == g && At(t, f) == '}'
  {
    var t := "{" + d + "," + g + "}" + u;
    var e, f := 1 + |d|, 2 + |d| + |g|;
    assert t == ("{" + d + ",") + (g + ("}" + u));
    assert t[e + 1..] == g + ("}" + u);
    assert t[e + 1..f] == t[e + 1..][..|g|] == g;
    assert t[f] == t[e + 1..][|g|];
  }

  lemma BracesBetween(t: string, n: nat, m: nat)
    requires var e, f := 1 + |Dec(n)|, 2 + |Dec(n)| + |Dec(m)|;
             && f < |t| && At(t, 0) == '{' && t[1..e] == Dec(n) && At(t, e) == ','
             && t[e + 1..f] == Dec(m) && At(t, f) == '}'
    ensures Braces(t) == Quant(n, Some(m), 3 + |Dec(n)| + |Dec(m)|)
  {
    hide Dec, Value, DigitsEnd;
    DecInText(t, 1, n);
    DecInText(t, 2 + |Dec(n)|, m);
  }

  lemma BetweenInText(n: nat, m: nat, u: string)
    ensures var p := "{" + Dec(n) + "," + Dec(m) + "}"; At(p + u, 0) == '{' && Braces(p + u) == Quant(n, Some(m), |p|)
  {
    hide Dec, Value, DigitsEnd, At, Braces;
    BetweenShape(Dec(n), Dec(m), u);
    BracesBetween("{" + Dec(n) + "," + Dec(m) + "}" + u, n, m);
  }

  lemma DigitsNone(t: string, i: nat)
    requires i <= |t| && !IsDigit(At(t, i))
    ensures DigitsEnd(t, i) == i
  {
  }

  // ---- atoms ----

  /** The members of a printed bracket expression: no bracket, backslash or bar. */
  predicate Members(m: string) {
    forall i | 0 <= i < |m| :: m[i] !in "\0[]|()\\"
  }

  lemma {:induction false} RangesAreMembers(ranges: seq<(char, char)>)
    requires PlainRanges(ranges)
    ensures Members(PrintRanges(ranges))
      && (ranges != [] ==> PrintRanges(ranges) != "" && PrintRanges(ranges)[0] !in "^-")
  {
    if ranges != [] {
      assert PlainMember(ranges[0].0) && PlainMember(ranges[0].1);
      RangesAreMembers(ranges[1..]);
    }
  }

  /** The scan of a bracket expression stops at its closing bracket. */
  lemma {:induction false} BracketStops(t: string, p: nat, e: nat, first: bool)
    requires p <= e < |t| && t[e] == ']' && (first ==> p < e)
    requires forall i | p <= i < e :: t[i] !in "\0[]|()\\"
    ensures BracketEnd(t, p, first) == e
    decreases e - p
  {
    if p < e {
      assert t[p] !in "\0[]|()\\";
      BracketStops(t, p + 1, e, false);
    }
  }

  /** Reading a printed list of ranges tells whether c is in one of them. */
  lemma {:induction false} MemberOfRanges(t: string, q: nat, e: nat, ranges: seq<(char, char)>, c: char)
    requires PlainRanges(ranges) && q + |PrintRanges(ranges)| == e < |t| && t[q..e] == PrintRanges(ranges)
    ensures Member(t, q, e, c) <==> exists i | 0 <= i < |ranges| :: ranges[i].0 <= c <= ranges[i].1
    decreases |ranges|
  {
    hide Member;
    if ranges == [] {
      MemberNone(t, e, c);
    } else {
      var r := ranges[0];
      var rest := ranges[1..];
      var k := q + |PrintRange(r)|;
      assert PlainMember(r.0) && PlainMember(r.1);
      assert t[q..e] == PrintRange(r) + PrintRanges(rest);
      assert t[q..e][|PrintRange(r)|..] == t[k..e];
      assert t[k..e] == PrintRanges(rest);
      MemberOfRanges(t, k, e, rest, c);
      FirstRange(t, q, e, ranges, c);
      SomeRange(ranges, c);
    }
  }

  lemma MemberNone(t: string, e: nat, c: char)
    requires e <= |t|
    ensures !Member(t, e, e, c)
  {
  }

  lemma SomeRange(ranges: seq<(char, char)>, c: char)
    requires ranges != []
    ensures (exists i | 0 <= i < |ranges| :: ranges[i].0 <= c <= ranges[i].1) <==>
            ranges[0].0 <= c <= ranges[0].1 || exists i | 0 <= i < |ranges[1..]| ::
              ranges[1..][i].0 <= c <= ranges[1..][i].1
  {
    var rest := ranges[1..];
    if i :| 0 <= i < |ranges| && ranges[i].0 <= c <= ranges[i].1 {
      assert i > 0 ==> ranges[i] == rest[i - 1];
    }
    if i :| 0 <= i < |rest| && rest[i].0 <= c <= rest[i].1 {
      assert rest[i] == ranges[i + 1];
    }
  }

  lemma FirstRange(t: string, q: nat, e: nat, ranges: seq<(char, char)>, c: char)
    requires ranges != [] && PlainRanges(ranges) && q + |PrintRanges(ranges)| == e < |t|
      && t[q..e] == PrintRanges(ranges)
    ensures var r := ranges[0];
            Member(t, q, e, c) <==> r.0 <= c <= r.1 || Member(t, q + |PrintRange(r)|, e, c)
  {
    var r := ranges[0];
    var rest := ranges[1..];
    assert PlainMember(r.0) && PlainMember(r.1);
    var p := t[q..e];
    assert p == PrintRange(r) + PrintRanges(rest);
    assert t[q] == p[0] == r.0;
    if r.0 == r.1 {
      RangesAreMembers(rest);
      if q + 2 < e {
        assert t[q + 1] == p[1] == PrintRanges(rest)[0];
      }
    } else {
      assert t[q + 1] == p[1] == '-' && t[q + 2] == p[2] == r.1;
    }
  }

  lemma AtomInText(a: Atom, u: string)
    requires PlainAtom(a)
    ensures AtomLen(PrintAtom(a) + u) == |PrintAtom(a)| > 0
    ensures PrintAtom(a)[0] !in "^$|*+?{"
    ensures forall c, icase | c != '\0' :: AtomChar(PrintAtom(a) + u, c, icase) <==> Means(a, c, icase)
  {
    match a
    case Any =>
    case Lit(d) =>
    case Set(neg, ranges) => SetInText(neg, ranges, u);
  }

  /** Both scans of a printed bracket expression end at its closing bracket. */
  lemma SetScan(neg: bool, m: string, u: string)
    requires Members(m) && m != "" && m[0] != '^'
    ensures var t := (if neg then "[^" else "[") + m + "]" + u;
            var p := if neg then 2 else 1;
            && t[p..p + |m|] == m && (At(t, 1) == '^' <==> neg)
            && BracketEnd(t, 1, true) == BracketEnd(t, p, true) == p + |m| < |t| && t[p + |m|] == ']'
  {
    var t := (if neg then "[^" else "[") + m + "]" + u;
    var p := if neg then 2 else 1;
    var e := p + |m|;
    assert t[p..e] == m && t[e] == ']';
    assert forall i | p <= i < e :: t[i] == m[i - p];
    BracketStops(t, p, e, true);
    if neg {
      BracketStops(t, 2, e, false);
      assert t[1] == '^' && ClassEnd(t, 1) == None;
    }
  }

  lemma SetReads(t: string, e: nat, neg: bool, ranges: seq<(char, char)>)
    requires var p := if neg then 2 else 1;
             && p <= e < |t| && t[0] == '[' && t[e] == ']' && (At(t, 1) == '^' <==> neg)
             && t[p..e] == PrintRanges(ranges)
             && BracketEnd(t, 1, true) == BracketEnd(t, p, true) == e
    requires PlainRanges(ranges)
    ensures AtomLen(t) == e + 1
    ensures forall c, icase :: AtomChar(t, c, icase) <==> Means(Set(neg, ranges), c, icase)
  {
    hide PrintRanges, BracketEnd, Member;
    var p := if neg then 2 else 1;
    forall c, icase ensures AtomChar(t, c, icase) <==> Means(Set(neg, ranges), c, icase) {
      MemberOfRanges(t, p, e, ranges, c);
    }
  }

  lemma SetInText(neg: bool, ranges: seq<(char, char)>, u: string)
    requires ranges != [] && PlainRanges(ranges)
    ensures var t := PrintAtom(Set(neg, ranges)) + u;
            && AtomLen(t) == |PrintAtom(Set(neg, ranges))|
            && forall c, icase :: AtomChar(t, c, icase) <==> Means(Set(neg, ranges), c, icase)
  {
    hide PrintRanges, BracketEnd, AtomChar, AtomLen, Means;
    var m := PrintRanges(ranges);
    RangesAreMembers(ranges);
    SetScan(neg, m, u);
    SetReads(PrintAtom(Set(neg, ranges)) + u, (if neg then 2 else 1) + |m|, neg, ranges);
  }

  // ---- branches ----

  /** The item reads in the text what the repetition means. */
  ghost predicate Reads(it: Item, r: Rep, icase: bool) {
    && it.min == r.min && it.max == r.max
    && forall c | c != '\0' :: AtomChar(it.text, c, icase) <==> Means(r.atom, c, icase)
  }

  lemma AltStart(a: Alt)
    requires PlainAlt(a)
    ensures NoQuant(PrintAlt(a)) && (a.reps != [] ==> PrintAlt(a) != "" && PrintAlt(a)[0] !in "^$|")
  {
    if a.reps != [] {
      AtomInText(a.reps[0].atom, "");
    }
  }

  lemma ParseStep(t: string, n: nat, q: Quant)
    requires 0 < n <= |t| && t[0] != '^' && t != "$" && AtomLen(t) == n && QuantAt(t[n..]) == q && n + q.len <= |t|
    ensures Parse(t) == Branch([Item(t, q.min, q.max)] + Parse(t[n + q.len..]).items, Parse(t[n + q.len..]).finish)
  {
  }

  /** The text of a branch starts with the text of its first repetition. */
  lemma ParseFirst(a: Alt)
    requires PlainAlt(a) && a.reps != []
    ensures var r, t, u := a.reps[0], PrintAlt(a), PrintAlt(Alt(a.reps[1..], a.anchored));
            && Parse(t) == Branch([Item(t, r.min, r.max)] + Parse(u).items, Parse(u).finish)
            && forall c, icase | c != '\0' :: AtomChar(t, c, icase) <==> Means(r.atom, c, icase)
  {
    hide AtomLen, QuantAt, AtomChar, Means, PrintQuant, PrintAtom, Parse;
    var r, rest := a.reps[0], Alt(a.reps[1..], a.anchored);
    var t, u := PrintAlt(a), PrintAlt(rest);
    assert PlainAtom(r.atom);
    AltStart(rest);
    var x, q := PrintAtom(r.atom), PrintQuant(r.min, r.max);
    AtomInText(r.atom, q + u);
    QuantInText(r.min, r.max, u);
    assert t == x + (q + u);
    assert t[|x|..] == q + u && t[|x| + |q|..] == u && t[0] == x[0];
    ParseStep(t, |x|, Quant(r.min, r.max, |q|));
  }

  lemma {:induction false} ParsePrinted(a: Alt, icase: bool)
    requires PlainAlt(a)
    ensures var b := Parse(PrintAlt(a));
            && b.finish == (if a.anchored then Anchored else Open) && |b.items| == |a.reps|
            && forall i | 0 <= i < |b.items| :: Reads(b.items[i], a.reps[i], icase)
    decreases |a.reps|
  {
    if a.reps != [] {
      hide AtomChar, Means, Reads, PlainAtom, PrintAlt, Parse;
      var r, rest := a.reps[0], Alt(a.reps[1..], a.anchored);
      ParsePrinted(rest, icase);
      ParseFirst(a);
      var t, u := PrintAlt(a), PrintAlt(rest);
      ReadsFirst(t, r, icase);
      var b := Parse(t);
      forall i | 0 <= i < |b.items| ensures Reads(b.items[i], a.reps[i], icase) {
        assert i > 0 ==> b.items[i] == Parse(u).items[i - 1] && a.reps[i] == rest.reps[i - 1];
      }
    }
  }

  lemma ReadsFirst(t: string, r: Rep, icase: bool)
    requires forall c, icase | c != '\0' :: AtomChar(t, c, icase) <==> Means(r.atom, c, icase)
    ensures Reads(Item(t, r.min, r.max), r, icase)
  {
  }

  /** Read items have the words of the repetitions. */
  lemma SameWords(items: seq<Item>, reps: seq<Rep>, w: string, icase: bool)
    requires |items| == |reps| && '\0' !in w && forall i | 0 <= i < |items| :: Reads(items[i], reps[i], icase)
    ensures InLanguage(items, w, icase) <==> exists ws :: Spells(reps, ws, icase) && Flatten(ws) == w
  {
    hide AtomChar, Means;
    forall ws | Flatten(ws) == w && |ws| == |items| ensures Words(items, ws, icase) <==> Spells(reps, ws, icase) {
      forall i | 0 <= i < |ws| ensures InItem(items[i], ws[i], icase) <==> InRep(reps[i], ws[i], icase) {
        PartOf(ws, i);
        assert Reads(items[i], reps[i], icase);
      }
    }
  }

  lemma {:induction false} PartOf(ws: seq<string>, i: nat)
    requires i < |ws|
    ensures forall c | c in ws[i] :: c in Flatten(ws)
    decreases i
  {
    if i > 0 {
      PartOf(ws[1..], i - 1);
    }
  }

  ghost predicate Chosen(a: Alt, s: string, icase: bool) {
    exists n | 0 <= n <= |s| :: Denotes(a, s[..n], icase) && (a.anchored ==> n == |s|)
  }

  lemma PrintedAccepts(a: Alt, s: string, icase: bool)
    requires PlainAlt(a) && '\0' !in s
    ensures Accepts(Parse(PrintAlt(a)), s, icase) <==> Chosen(a, s, icase)
  {
    hide Reads, PrintAlt, InLanguage, Parse;
    ParsePrinted(a, icase);
    var b := Parse(PrintAlt(a));
    forall n | 0 <= n <= |s| ensures InLanguage(b.items, s[..n], icase) <==> Denotes(a, s[..n], icase) {
      SameWords(b.items, a.reps, s[..n], icase);
    }
  }

  // ---- whole patterns ----

  predicate Clean(t: string) {
    NoGroups(t) && '|' !in t
  }

  lemma CleanConcat(t: string, u: string)
    requires Clean(t) && Clean(u)
    ensures Clean(t + u)
  {
  }

  lemma CleanDec(n: nat)
    ensures Clean(Dec(n))
  {
    hide Dec;
    forall c | c in Dec(n) ensures c !in "\0()|" {
      assert IsDigit(c);
    }
  }

  lemma CleanQuant(min: nat, max: Option<nat>)
    ensures Clean(PrintQuant(min, max))
  {
    CleanDec(min);
    if max.Some? {
      CleanDec(max.value);
    }
    hide Dec;
  }

  lemma CleanAtom(a: Atom)
    requires PlainAtom(a)
    ensures Clean(PrintAtom(a))
  {
    if a.Set? {
      RangesAreMembers(a.ranges);
      hide PrintRanges;
    }
  }

  lemma {:induction false} CleanAlt(a: Alt)
    requires PlainAlt(a)
    ensures Clean(PrintAlt(a))
    decreases |a.reps|
  {
    if a.reps != [] {
      var r, rest := a.reps[0], Alt(a.reps[1..], a.anchored);
      CleanAlt(rest);
      CleanAtom(r.atom);
      CleanQuant(r.min, r.max);
      hide Clean, PrintAtom, PrintQuant;
      CleanConcat(PrintAtom(r.atom), PrintQuant(r.min, r.max));
      CleanConcat(PrintRep(r), PrintAlt(rest));
    }
  }

  predicate PlainAlts(alts: seq<Alt>) {
    forall i | 0 <= i < |alts| :: PlainAlt(alts[i])
  }

  lemma BranchesCons(x: string, u: string)
    requires Clean(x)
    ensures Branches(x + "|" + u) == [x] + Branches(u)
  {
    var t := x + "|" + u;
    FindFirst(t, '|', 0, |x|);
    assert t[..|x|] == x && t[|x| + 1..] == u;
  }

  lemma BranchesOne(x: string)
    requires Clean(x)
    ensures Branches(x) == [x]
  {
    FindFirst(x, '|', 0, |x|);
  }

  lemma GroupsConcat(x: string, u: string)
    requires NoGroups(x) && NoGroups(u)
    ensures NoGroups(x + "|" + u)
  {
  }

  /** The branches of a printed pattern are its printed alternatives. */
  lemma {:induction false} PrintedBranches(alts: seq<Alt>)
    requires alts != [] && PlainAlts(alts)
    ensures NoGroups(Print(alts)) && |Branches(Print(alts))| == |alts|
    ensures forall i | 0 <= i < |alts| :: Branches(Print(alts))[i] == PrintAlt(alts[i])
    decreases |alts|
  {
    hide PrintAlt, PlainAlt, Branches, NoGroups;
    var x := PrintAlt(alts[0]);
    CleanAlt(alts[0]);
    if |alts| == 1 {
      BranchesOne(x);
    } else {
      var rest := alts[1..];
      PrintedBranches(rest);
      var bs := Branches(Print(rest));
      BranchesCons(x, Print(rest));
      GroupsConcat(x, Print(rest));
      assert forall i | 0 < i < |alts| :: ([x] + bs)[i] == bs[i - 1] && alts[i] == rest[i - 1];
    }
  }

  /** Minimums of 0 come last; before an anchor, one of them is that of a dot with a star. */
  predicate SureAlt(a: Alt) {
    && (forall j, k | 0 <= j <= k < |a.reps| && a.reps[j].min == 0 :: a.reps[k].min == 0)
    && (a.anchored && (exists j | 0 <= j < |a.reps| :: a.reps[j].min == 0) ==>
          exists j | 0 <= j < |a.reps| :: a.reps[j] == Rep(Any, 0, None))
  }

  predicate SureAlts(alts: seq<Alt>) {
    forall i | 0 <= i < |alts| :: SureAlt(alts[i])
  }

  lemma SureAltParsed(a: Alt, icase: bool)
    requires PlainAlt(a) && SureAlt(a)
    ensures Sure(Parse(PrintAlt(a)), icase)
  {
    hide PrintAlt, Parse, PlainAlt;
    ParsePrinted(a, icase);
    var b := Parse(PrintAlt(a));
    HeadIs(b.items);
    forall j | 0 <= j < |b.items|
      ensures b.items[j].min == a.reps[j].min
      ensures a.reps[j] == Rep(Any, 0, None) ==> Full(b.items[j], icase)
    {
      assert Reads(b.items[j], a.reps[j], icase);
    }
  }

  lemma SureParsed(alts: seq<Alt>, icase: bool)
    requires alts != [] && PlainAlts(alts) && SureAlts(alts)
    ensures AllSure(Print(alts), icase)
  {
    hide PrintAlt, Print, Parse, PlainAlt, Sure, SureAlt;
    PrintedBranches(alts);
    forall i | 0 <= i < |alts| ensures Sure(Parse(Branches(Print(alts))[i]), icase) {
      SureAltParsed(alts[i], icase);
    }
  }

  /** What the matcher finds in a printed pattern whose minimums of 0 come last is the pattern's language. */
  lemma PrintedMatches(alts: seq<Alt>, s: string, icase: bool)
    requires alts != [] && PlainAlts(alts) && SureAlts(alts) && '\0' !in s && |Print(alts)| < PAT_MAX
    ensures Matches(Print(alts), s, icase) <==> exists i | 0 <= i < |alts| :: Chosen(alts[i], s, icase)
  {
    hide PrintAlt, Print, Parse, PlainAlt, Matches, Accepts, Chosen, AllSure, SureAlts;
    SureParsed(alts, icase);
    SureMatches(Print(alts), s, icase);
    PrintedBranches(alts);
    var bs := Branches(Print(alts));
    forall i | 0 <= i < |alts| ensures Accepts(Parse(bs[i]), s, icase) <==> Chosen(alts[i], s, icase) {
      PrintedAccepts(alts[i], s, icase);
    }
  }

  /** m_seq on a printed pattern decides its language. */
  method MatchPattern(alts: seq<Alt>, s: string, icase: bool) returns (r: bool)
    requires alts != [] && PlainAlts(alts) && SureAlts(alts) && '\0' !in s && |Print(alts)| < PAT_MAX
    ensures r <==> exists i | 0 <= i < |alts| :: Chosen(alts[i], s, icase)
  {
    hide Matches, Chosen, Print, PlainAlt, SureAlts;
    PrintedBranches(alts);
    PrintedMatches(alts, s, icase);
    r := MSeq(Print(alts), s, icase);
  }

  /** The alternative that "a?b" writes. */
  const OPTIONAL_A := Alt([Rep(Lit('a'), 0, Some(1)), Rep(Lit('b'), 1, Some(1))], false)

  lemma WordHasB(w: string, icase: bool)
    ensures Denotes(OPTIONAL_A, w, icase) ==> exists c | c in w :: Fold(icase, c) == 'b'
  {
    if Denotes(OPTIONAL_A, w, icase) {
      var ws :| Spells(OPTIONAL_A.reps, ws, icase) && Flatten(ws) == w;
      var x := ws[1];
      assert InRep(OPTIONAL_A.reps[1], x, icase);
      PartOf(ws, 1);
      assert Means(Lit('b'), x[0], icase) && x[0] in x;
    }
  }

  /** A zero minimum breaks this: "a?b" is found in a subject that has neither letter. */
  lemma ZeroMinimum(icase: bool)
    ensures Matches("a?b", "c", icase) && !Chosen(OPTIONAL_A, "c", icase)
  {
    var t := "a?b";
    assert t[1..] == "?b";
    ZeroStarts(t, "c", icase);
    hide Denotes, Matches;
    forall n | 0 <= n <= 1 ensures !Denotes(OPTIONAL_A, "c"[..n], icase) {
      WordHasB("c"[..n], icase);
    }
  }

  /** An item with a minimum of 0 matches every subject. */
  lemma ZeroStarts(t: string, s: string, icase: bool)
    requires Starts(t) && QuantAt(t[AtomLen(t)..]).min == 0
    ensures Matches(t, s, icase)
  {
    hide AtomLen, QuantAt, Matches;
    MatchesItem(t, s, icase);
  }

  lemma OnlyAs(ws: seq<string>, icase: bool)
    requires Spells([Rep(Lit('a'), 0, None)], ws, icase)
    ensures forall c | c in Flatten(ws) :: Fold(icase, c) == 'a'
  {
    assert InRep(Rep(Lit('a'), 0, None), ws[0], icase);
    assert ws[1..] == [] && Flatten(ws) == ws[0];
    forall c | c in ws[0] ensures Fold(icase, c) == 'a' {
      var i :| 0 <= i < |ws[0]| && ws[0][i] == c;
      assert Means(Lit('a'), ws[0][i], icase);
    }
  }

  /** And before an anchor: "a*$" matches the subject "c". */
  lemma ZeroBeforeAnchor(icase: bool)
    ensures Matches("a*$", "c", icase) && !Chosen(Alt([Rep(Lit('a'), 0, None)], true), "c", icase)
  {
    var t := "a*$";
    assert t[1..] == "*$";
    ZeroStarts(t, "c", icase);
    hide Matches, Spells;
    var s := "c";
    assert s[..1][0] == 'c';
    forall ws | Spells([Rep(Lit('a'), 0, None)], ws, icase) ensures Flatten(ws) != s[..1] {
      OnlyAs(ws, icase);
    }
  }

  // ---- named classes and letter case ----

  predicate Between(c: char, lo: int, hi: int) {
    lo <= c as int <= hi
  }

  /** What the class names mean, by ASCII code. */
  lemma ClassesAre(c: char)
    ensures InClass("upper", c) <==> Between(c, 65, 90)
    ensures InClass("lower", c) <==> Between(c, 97, 122)
    ensures InClass("alpha", c) <==> Between(c, 65, 90) || Between(c, 97, 122)
    ensures InClass("digit", c) <==> Between(c, 48, 57)
    ensures InClass("xdigit", c) <==> Between(c, 48, 57) || Between(c, 65, 70) || Between(c, 97, 102)
    ensures InClass("space", c) <==> Between(c, 9, 13) || Between(c, 32, 32)
    ensures InClass("punct", c) <==>
              Between(c, 33, 47) || Between(c, 58, 64) || Between(c, 91, 96) || Between(c, 123, 126)
    ensures InClass("graph", c) <==> Between(c, 33, 126)
    ensures InClass("print", c) <==> Between(c, 32, 126)
  {
  }

  /** Three of the POSIX names are not known: no character is in the class. */
  lemma UnknownNames(c: char)
    ensures !InClass("alnum", c) && !InClass("cntrl", c) && !InClass("blank", c)
  {
  }

  /** Without regard to case a letter stands for both of its forms, and any other character for itself. */
  lemma EitherCase(c: char, d: char)
    ensures Fold(true, c) == Fold(true, d) <==>
              || c == d || (Between(c, 65, 90) && d as int == c as int + 32)
              || (Between(d, 65, 90) && c as int == d as int + 32)
    ensures Fold(false, c) == Fold(false, d) <==> c == d
  {
  }

  /** A bracket expression with one class name matches the characters of that class, or the others if it is negated. */
  lemma ClassAtom(neg: bool, name: string, u: string, c: char, icase: bool)
    requires name != "" && ':' !in name && '\0' !in name
    ensures var t := (if neg then "[^[:" else "[[:") + name + ":]]" + u;
            AtomLen(t) == |t| - |u| && (AtomChar(t, c, icase) <==> InClass(name, c) != neg)
  {
    hide InClass;
    var p := if neg then 2 else 1;
    var t := (if neg then "[^[:" else "[[:") + name + ":]]" + u;
    var n := p + 2 + |name|;
    assert t[p] == '[' && t[p + 1] == ':' && t[n] == ':' && t[n + 1] == ']' && t[n + 2] == ']';
    assert forall i | p + 2 <= i < n :: t[i] == name[i - (p + 2)];
    FindFirst(t, ':', p + 2, n);
    assert ClassEnd(t, p) == Some(n + 2);
    assert BracketEnd(t, n + 2, false) == n + 2;
    assert BracketEnd(t, p, true) == n + 2;
    if neg {
      assert t[1] == '^' && ClassEnd(t, 1) == None;
      assert BracketEnd(t, 2, false) == n + 2;
    }
    assert t[p + 2..n] == name && NameEnd(t, p) == Some(n);
    assert Member(t, n + 2, n + 2, c) == false;
    assert Member(t, p, n + 2, c) == InClass(name, c);
  }

  /** An empty class name is none: the characters stand for themselves. */
  lemma EmptyName(u: string, c: char, icase: bool)
    ensures var t := "[[::]]" + u;
            AtomLen(t) == 6 && (AtomChar(t, c, icase) <==> c == '[' || c == ':' || c == ']')
  {
    var t := "[[::]]" + u;
    assert t[0] == '[' && t[1] == '[' && t[2] == ':' && t[3] == ':' && t[4] == ']' && t[5] == ']';
    assert Find(t, ':', 3) == 3;
    assert ClassEnd(t, 1) == Some(5) && NameEnd(t, 1) == None;
    assert BracketEnd(t, 5, false) == 5 && BracketEnd(t, 1, true) == 5;
    assert !Member(t, 5, 5, c);
    assert Member(t, 4, 5, c) <==> c == ']';
    assert Member(t, 3, 5, c) <==> c == ':' || c == ']';
    assert Member(t, 2, 5, c) <==> c == ':' || c == ']';
    assert Member(t, 1, 5, c) <==> c == '[' || c == ':' || c == ']';
  }

  /** A backslash in a bracket expression keeps the next character from closing it, and both are members; without a
      further bracket the expression is not closed. */
  lemma BackslashInSet(x: char, u: string, c: char, icase: bool)
    requires x != '\0'
    ensures var t := "[\\" + [x] + "]" + u;
            AtomLen(t) == 4 && (AtomChar(t, c, icase) <==> c == '\\' || c == x)
    ensures AtomLen("[\\]") == 0
  {
    var t := "[\\" + [x] + "]" + u;
    assert t[0] == '[' && t[1] == '\\' && t[2] == x && t[3] == ']';
    assert BracketEnd(t, 3, false) == 3 && BracketEnd(t, 1, true) == 3;
    assert !Member(t, 3, 3, c);
    assert Member(t, 2, 3, c) <==> c == x;
    assert Member(t, 1, 3, c) <==> c == '\\' || c == x;
    var v := "[\\]";
    assert BracketEnd(v, 3, false) == 3 && BracketEnd(v, 1, true) == 3;
  }
}
