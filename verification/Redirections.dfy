/** From the tokens of a command line to the descriptors that its stages start with
    (kernel/shell/commands.c). */
module Redirections {
  import opened Base
  import opened Descriptors
  import opened DescriptorOps
  import opened ShellOps
  import opened Pipeline
  import C = CommandLine

  /** The rmode that parse_pipeline stores. */
  function Rmode(m: C.Mode): nat {
    match m
    case Truncate => 0
    case Append => 1
    case Input => 2
  }

  /** What the tree and the heap answer when stage i opens a file for slot x. */
  type Opens = (string, nat, nat) -> OpenPlan

  function RedirOf(r: Option<C.Redirect>, open: Opens, i: nat, x: nat): Option<Redir> {
    match r
    case None => None
    case Some(Redirect(mode, file)) => Some(Redir(Rmode(mode), open(file, i, x)))
  }

  /** exec_pipeline gets the redirections that were parsed. */
  predicate Describes(stages: seq<C.Stage>, segs: seq<Seg>, open: Opens) {
    && |segs| == |stages|
    && forall i | 0 <= i < |segs| :: Described(stages[i], segs[i], open, i)
  }

  predicate Described(stage: C.Stage, seg: Seg, open: Opens, i: nat) {
    seg.redir == [RedirOf(stage.redir[0], open, i, 0), RedirOf(stage.redir[1], open, i, 1),
                  RedirOf(stage.redir[2], open, i, 2)]
  }

  /** The slot that an operator redirects. */
  function SlotOf(op: string): nat {
    if op == "<" then 0 else if op == ">" || op == ">>" then 1 else 2
  }

  /** Slot x of the stage's task is a new description of the node that was found. */
  ghost predicate OnNode(st: Start, x: nat, plan: OpenPlan) {
    && st.who in st.at.tables && x < |st.at.tables[st.who]| && st.at.tables[st.who][x].Some?
    && st.at.tables[st.who][x].value in st.at.files && plan.found.Found?
    && st.at.files[st.at.tables[st.who][x].value].target == Node(plan.found.node)
  }

  ghost function FileIn(st: Start, x: nat, plan: OpenPlan): File
    requires OnNode(st, x, plan)
  {
    st.at.files[st.at.tables[st.who][x].value]
  }

  /** The bit of this value is set. */
  predicate Bit(flags: nat, bit: nat)
    requires bit > 0
  {
    flags / bit % 2 == 1
  }

  predicate IsOperator(op: string) {
    op == ">" || op == ">>" || op == "<" || op == "2>" || op == "2>>"
  }

  /** The number of the stage that the next token belongs to. */
  function StageNo(before: seq<string>): nat {
    match C.Items(before)
    case None => 0
    case Some(items) => |C.Groups(items)| - 1
  }

  /** The line, which is accepted, has this operator and this file after the tokens before; they are not themselves the
      file of another operator, and no later operator of their stage names the same slot. */
  predicate Stands(before: seq<string>, op: string, file: string, rest: seq<string>, stages: seq<C.Stage>) {
    && IsOperator(op) && C.Items(before).Some? && C.Items(rest).Some?
    && C.Meaning(before + [op, file] + rest) == Some(stages)
    && !C.Names(C.Groups(C.Items(rest).value)[0], SlotOf(op))
  }

  /** For > and 2> write-only, created if need be, emptied, at the start; for >> and 2>> write-only, created if need be,
      not emptied, at the end; for < read-only, neither created nor emptied, at the start. */
  predicate OpenedFor(op: string, f: File, size: nat) {
    && (op == ">" || op == "2>" ==>
          f.flags % 4 == 1 && Bit(f.flags, 0x40) && Bit(f.flags, 0x200) && !Bit(f.flags, 0x400) && f.pos == 0)
    && (op == ">>" || op == "2>>" ==>
          f.flags % 4 == 1 && Bit(f.flags, 0x40) && !Bit(f.flags, 0x200) && Bit(f.flags, 0x400) && f.pos == size)
    && (op == "<" ==>
          f.flags % 4 == 0 && !Bit(f.flags, 0x40) && !Bit(f.flags, 0x200) && !Bit(f.flags, 0x400) && f.pos == 0)
  }

  /** A started stage whose part of the line has an operator and a file, the last one for its slot, has that file in the
      slot, opened as the operator asks. */
  lemma TokenReachesSlot(before: seq<string>, op: string, file: string, rest: seq<string>, stages: seq<C.Stage>,
                         segs: seq<Seg>, open: Opens, b: Table, ps: seq<PipeId>, starts: seq<Start>, shell: Pid)
    requires Stands(before, op, file, rest, stages)
    requires Describes(stages, segs, open) && Plumbed(segs, b, ps, starts, shell) && StageNo(before) < |starts|
    ensures var i, x := StageNo(before), SlotOf(op);
            var plan := open(file, i, x);
            OnNode(starts[i], x, plan) && OpenedFor(op, FileIn(starts[i], x, plan), plan.found.size)
  {
    hide C.Meaning, C.Items, C.Groups, C.Operator, C.Names, Inv, StdWired, OpenedFor, RedirFlags;
    var i, x := StageNo(before), SlotOf(op);
    C.FiveOperators(op);
    C.RedirectLands(before, op, file, rest, stages);
    assert Described(stages[i], segs[i], open, i);
    StageHolds(segs, b, ps, starts, shell, i, x);
    hide Plumbed, OnNode, C.Stages;
    var mode := C.Operator(op).value.1;
    var plan := open(file, i, x);
    assert segs[i].redir[x] == Some(Redir(Rmode(mode), plan));
    OpensFor(op, FileIn(starts[i], x, plan), plan.found.size);
  }

  lemma OpensFor(op: string, f: File, size: nat)
    requires IsOperator(op) && C.Operator(op).Some?
    requires f.flags == RedirFlags(Rmode(C.Operator(op).value.1))
    requires f.pos == if f.flags / 0x400 % 2 == 1 then size else 0
    ensures OpenedFor(op, f, size)
  {
  }

  lemma StageHolds(segs: seq<Seg>, b: Table, ps: seq<PipeId>, starts: seq<Start>, shell: Pid, i: nat, x: nat)
    requires Plumbed(segs, b, ps, starts, shell) && i < |starts| && x < 3
    requires |segs[i].redir| == 3 && segs[i].redir[x].Some?
    ensures var st, r := starts[i], segs[i].redir[x].value;
            && OnNode(st, x, r.plan)
            && var f := FileIn(st, x, r.plan);
               && f.flags == RedirFlags(r.mode)
               && f.pos == if f.flags / 0x400 % 2 == 1 then r.plan.found.size else 0
  {
    hide Inv, Plumbing;
    assert StdWired(starts[i], segs[i],
                    Plumbing(b, EndOf(ps, i - 1, 1), if i < |segs| - 1 then EndOf(ps, i, 2) else None));
  }
}
