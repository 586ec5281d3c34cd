/** The pattern text of grep's matcher in ERE mode without groups: atoms, quantifiers, branches
    (userspace/grep.c). */
module GrepSyntax {
  import opened Base

  const PAT_MAX: nat := 512

  /** Text as C sees it: NUL past the end. */
  function At(t: string, i: nat): char {
    if i < |t| then t[i] else '\0'
  }

  predicate NoGroups(t: string) {
    '\0' !in t && '(' !in t && ')' !in t
  }

  /** strchr from position i; the length if there is none. */
  function Find(t: string, c: char, i: nat): (r: nat)
    ensures i <= |t| ==> i <= r <= |t|
    ensures r < |t| ==> t[r] == c
    decreases |t| - i
  {
    if i >= |t| || t[i] == c then (if i < |t| then i else |t|) else Find(t, c, i + 1)
  }

  // ---- atoms ----

  /** A POSIX class name at p: the position after its closing bracket. */
  function ClassEnd(t: string, p: nat): (r: Option<nat>)
    ensures r.Some? ==> p < r.value <= |t|
  {
    if At(t, p) == '[' && At(t, p + 1) == ':' then
      var c := Find(t, ':', p + 2);
      if c < |t| && At(t, c + 1) == ']' then Some(c + 2) else None
    else None
  }

  /** Where the bracket expression scanned from p ends: its closing bracket, or the end of the text. */
  function BracketEnd(t: string, p: nat, first: bool): (r: nat)
    requires p <= |t|
    ensures p <= r <= |t| && (r < |t| ==> t[r] == ']')
    decreases |t| - p
  {
    if p == |t| || (t[p] == ']' && !first) then p
    else
      match ClassEnd(t, p)
      case Some(q) => BracketEnd(t, q, false)
      case None =>
        var p1 := if t[p] == '\\' && At(t, p + 1) != '\0' then p + 1 else p;
        BracketEnd(t, p1 + 1, false)
  }

  /** re_atom_len: 0 when no atom starts here. */
  function AtomLen(t: string): (r: nat)
    ensures r <= |t|
  {
    if t == "" || t[0] == ')' || t[0] == '|' then 0
    else if t[0] == '[' then
      var e := BracketEnd(t, 1, true);
      if At(t, e) == ']' then e + 1 else 0
    else 1
  }

  function Lower(c: char): char {
    if 'A' <= c <= 'Z' then c + 32 as char else c
  }

  function Fold(icase: bool, c: char): char {
    if icase then Lower(c) else c
  }

  predicate IsAlpha(c: char) { 'a' <= c <= 'z' || 'A' <= c <= 'Z' }
  predicate IsDigit(c: char) { '0' <= c <= '9' }
  predicate IsGraph(c: char) { '!' <= c <= '~' }

  /** The members of a POSIX class in the C locale; an unknown name has none. The names of three
      classes are compared with a wrong length, so only their first letters are known. */
  predicate InClass(name: string, c: char) {
    match name
    case "alpha" => IsAlpha(c)
    case "digit" => IsDigit(c)
    case "space" => c == ' ' || ('\t' <= c <= '\r')
    case "upper" => 'A' <= c <= 'Z'
    case "lower" => 'a' <= c <= 'z'
    case "punct" => IsGraph(c) && !IsAlpha(c) && !IsDigit(c)
    case "alnu" => IsAlpha(c) || IsDigit(c)
    case "cnt" => c < ' ' || c == 127 as char
    case "blan" => c == ' ' || c == '\t'
    case "xdigit" => IsDigit(c) || 'a' <= c <= 'f' || 'A' <= c <= 'F'
    case "graph" => IsGraph(c)
    case "print" => ' ' <= c <= '~'
    case _ => false
  }

  /** The loop of re_atom_char over a bracket expression's members from q to end. */
  predicate Member(t: string, q: nat, end: nat, c: char)
    requires q <= |t| && end <= |t|
    decreases |t| - q
  {
    if q >= end then false
    else if t[q] == '[' && q + 1 < end && t[q + 1] == ':' && NameEnd(t, q).Some? then
      var nn := NameEnd(t, q).value;
      InClass(t[q + 2..nn], c) || Member(t, nn + 2, end, c)
    else
      var ranged := q + 2 < end && t[q + 1] == '-';
      var hi := if ranged then t[q + 2] else t[q];
      t[q] <= c <= hi || Member(t, if ranged then q + 3 else q + 1, end, c)
  }

  /** The colon that ends a nonempty class name at q, when a bracket follows it. */
  function NameEnd(t: string, q: nat): (r: Option<nat>)
    ensures r.Some? ==> q + 2 < r.value < |t|
  {
    var nn := Find(t, ':', q + 2);
    if q + 2 < nn < |t| && At(t, nn + 1) == ']' then Some(nn) else None
  }

  /** re_atom_char: does the atom at the start of t match c? */
  predicate AtomChar(t: string, c: char, icase: bool) {
    if At(t, 0) == '.' then c != '\0'
    else if At(t, 0) == '[' then
      var neg := At(t, 1) == '^';
      var p := if neg then 2 else 1;
      if p > |t| then false
      else
        var end := BracketEnd(t, p, true);
        end < |t| && Member(t, p, end, c) != neg
    else Fold(icase, c) == Fold(icase, At(t, 0))
  }

  // ---- quantifiers ----

  /** The end of the digits from i. */
  function DigitsEnd(t: string, i: nat): (r: nat)
    requires i <= |t|
    ensures i <= r <= |t| && (forall k | i <= k < r :: IsDigit(t[k])) && !IsDigit(At(t, r))
    decreases |t| - i
  {
    if i < |t| && IsDigit(t[i]) then DigitsEnd(t, i + 1) else i
  }

  /** The number that digits write. */
  function Value(ds: string): nat
    requires forall k | 0 <= k < |ds| :: IsDigit(ds[k])
  {
    if ds == "" then 0
    else
      assert IsDigit(ds[|ds| - 1]);
      10 * Value(ds[..|ds| - 1]) + (ds[|ds| - 1] as int - '0' as int)
  }

  /** How often the atom is to occur; no max is unbounded. */
  datatype Quant = Quant(min: nat, max: Option<nat>, len: nat)

  const ONCE := Quant(1, Some(1), 0)

  /** A brace quantifier at the start of t; without a closing brace it is no quantifier. */
  function Braces(t: string): (r: Quant)
    requires At(t, 0) == '{'
    ensures r.len <= |t|
  {
    var e := DigitsEnd(t, 1);
    if e == 1 then ONCE
    else
      var lo := Value(t[1..e]);
      if At(t, e) != ',' then
        if At(t, e) == '}' then Quant(lo, Some(lo), e + 1) else ONCE
      else
        var f := DigitsEnd(t, e + 1);
        if At(t, f) != '}' then ONCE
        else if f == e + 1 then Quant(lo, None, f + 1)
        else Quant(lo, Some(Value(t[e + 1..f])), f + 1)
  }

  /** The quantifier at the start of t, if any. */
  function QuantAt(t: string): (r: Quant)
    ensures r.len <= |t|
  {
    match At(t, 0)
    case '*' => Quant(0, None, 1)
    case '+' => Quant(1, None, 1)
    case '?' => Quant(0, Some(1), 1)
    case '{' => Braces(t)
    case _ => ONCE
  }

  // ---- branches ----

  /** One atom with its quantifier; text is the pattern from the atom on. */
  datatype Item = Item(text: string, min: nat, max: Option<nat>)

  /** A branch ends open, at an end anchor, or at a position where no atom starts. */
  datatype Finish = Open | Anchored | Malformed

  datatype Branch = Branch(items: seq<Item>, finish: Finish)

  function Parse(t: string): Branch
    decreases |t|
  {
    if t == "" then Branch([], Open)
    else if t[0] == '^' then Parse(t[1..])
    else if t == "$" then Branch([], Anchored)
    else
      var n := AtomLen(t);
      if n == 0 then Branch([], Malformed)
      else
        var q := QuantAt(t[n..]);
        var b := Parse(t[n + q.len..]);
        b.(items := [Item(t, q.min, q.max)] + b.items)
  }

  /** The branches of a pattern: the texts between bars. */
  function Branches(t: string): (r: seq<string>)
    ensures |r| > 0
    decreases |t|
  {
    var b := Find(t, '|', 0);
    if b == |t| then [t] else [t[..b]] + Branches(t[b + 1..])
  }
}
