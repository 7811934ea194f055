/** What a program may do: a small-step machine with labels, calls and local variables, following
    section 4.4.5 of the WebAssembly Core Specification 1.0.  Conditions, branch-table selectors,
    stored values, indirect callees and initial locals are not in the tree, so each step takes
    them from a choice and a run ranges over every sequence of choices. */
module Semantics {
  import opened Basics
  import opened WasmTree

  /** An open construct with the code that follows it; a loop also keeps its body. */
  datatype Label =
    | BlockLabel(rest: seq<Inst>)
    | LoopLabel(loopIdx: int, body: seq<Inst>, rest: seq<Inst>)

  /** One activation: what is left of the innermost construct, then the labels, outermost first. */
  datatype Frame = Frame(funcIdx: int, locals: map<int, int>, code: seq<Inst>, labels: seq<Label>)

  /** Activations, outermost first. */
  type State = seq<Frame>

  datatype Choice = Choice(taken: bool, depth: nat, callee: int, value: int, locals: map<int, int>)

  function Enter(f: Func, locals: map<int, int>): Frame {
    Frame(f.funcIdx, locals, [Block(f.block)], [])
  }

  /** The depth a step branches to, if the step is a branch that is taken. */
  function BranchDepth(fr: Frame, c: Choice): Option<nat> {
    if fr.code == [] then None else
    match fr.code[0]
    case Br(d) => Some(d)
    case BrIf(d) => if c.taken then Some(d) else None
    case BrTable => Some(c.depth)
    case _ => None
  }

  function Jump(fr: Frame, d: nat): Frame
    requires d < |fr.labels|
  {
    var k := |fr.labels| - 1 - d;
    match fr.labels[k]
    case BlockLabel(rest) => fr.(code := rest, labels := fr.labels[..k])
    case LoopLabel(_, body, _) => fr.(code := body, labels := fr.labels[..k + 1])
  }

  function Callee(p: Program, fr: Frame, c: Choice): int
    requires fr.code != [] && (fr.code[0].Call? || fr.code[0].CallIndirect?)
  {
    if fr.code[0].Call? then fr.code[0].callee else c.callee
  }

  /** Calls to defined functions push a frame; a negative index is an import, whose body is
      outside the program, so the step only passes over it. */
  function CallStep(p: Program, base: State, fr: Frame, c: Choice): Option<State>
    requires fr.code != [] && (fr.code[0].Call? || fr.code[0].CallIndirect?)
  {
    var f := Callee(p, fr, c);
    var after := fr.(code := fr.code[1..]);
    if f < 0 then Some(base + [after])
    else if f < |p| then Some(base + [after, Enter(p[f], c.locals)])
    else None
  }

  /** One step of the innermost activation; None when nothing can run. */
  function Next(p: Program, s: State, c: Choice): Option<State> {
    if s == [] then None else
    var base, fr := s[..|s| - 1], s[|s| - 1];
    var n := |fr.labels|;
    if fr.code == [] then
      if n == 0 then Some(base)
      else Some(base + [fr.(code := fr.labels[n - 1].rest, labels := fr.labels[..n - 1])])
    else if BranchDepth(fr, c).Some? then
      var d := BranchDepth(fr, c).value;
      if d < n then Some(base + [Jump(fr, d)]) else None
    else
      var rest := fr.code[1..];
      match fr.code[0]
      case Return => Some(base)
      case Call(_) => CallStep(p, base, fr, c)
      case CallIndirect => CallStep(p, base, fr, c)
      case LocalSet(i) => Some(base + [fr.(code := rest, locals := fr.locals[i := c.value])])
      case LocalTee(i) => Some(base + [fr.(code := rest, locals := fr.locals[i := c.value])])
      case Block(b) => Some(base + [fr.(code := b, labels := fr.labels + [BlockLabel(rest)])])
      case Loop(i, b) => Some(base + [fr.(code := b, labels := fr.labels + [LoopLabel(i, b, rest)])])
      case _ => Some(base + [fr.(code := rest)])
  }

  /** A run: `run[t + 1]` follows from `run[t]` under `cs[t]`. */
  ghost predicate IsRun(p: Program, run: seq<State>, cs: seq<Choice>) {
    && |run| == |cs| + 1
    && forall t :: 0 <= t < |cs| ==> Next(p, run[t], cs[t]) == Some(run[t + 1])
  }

  /** Activation `k` is still alive and its label `j` has not been left. */
  predicate Active(s: State, k: nat, j: nat) {
    k < |s| && j < |s[k].labels|
  }

  ghost predicate ActiveThroughout(run: seq<State>, k: nat, j: nat) {
    forall t :: 0 <= t < |run| ==> Active(run[t], k, j)
  }

  /** The step branches back to the loop at label `j` of activation `k`. */
  predicate IsBackEdge(s: State, c: Choice, k: nat, j: nat) {
    && Active(s, k, j) && |s| == k + 1
    && s[k].labels[j].LoopLabel?
    && BranchDepth(s[k], c) == Some(|s[k].labels| - 1 - j)
  }

  /** The state right after the loop at label `j` of activation `k` has been entered. */
  predicate AtHeader(s: State, k: nat, j: nat) {
    && |s| == k + 1 && |s[k].labels| == j + 1
    && s[k].labels[j].LoopLabel? && s[k].code == s[k].labels[j].body
  }

}
