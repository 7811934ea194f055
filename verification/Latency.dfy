/** How long a run can go without passing a checkpoint.  Costs are static: they add up the sizes
    of the code that the open activations still have to run. */
module Latency {
  import opened Basics
  import opened WasmTree
  import opened Semantics
  import opened QuietRuns
  import SimpleFunc
  import LoopCkpt
  import Parser

  /** Steps to get past an instruction.  A simple callee is measured inside the empty program:
      it holds no calls. */
  function Size1(p: Program, inst: Inst): (n: nat)
    ensures n > 0
    decreases |p|, inst
  {
    match inst
    case Block(b) => 2 + Size(p, b)
    case Loop(_, b) => 2 + Size(p, b)
    case Call(f) => if 0 <= f < |p| then 4 + Size([], p[f].block) else 1
    case _ => 1
  }

  function Size(p: Program, insts: seq<Inst>): nat
    decreases |p|, insts
  {
    if insts == [] then 0 else Size1(p, insts[0]) + Size(p, insts[1..])
  }

  lemma {:induction false} SimpleSize1(p: Program, inst: Inst)
    requires SimpleFunc.Simple1(inst)
    ensures Size1(p, inst) == Size1([], inst)
    decreases inst
  {
    if inst.Block? {
      SimpleSize(p, inst.insts);
    }
  }

  lemma {:induction false} SimpleSize(p: Program, insts: seq<Inst>)
    requires SimpleFunc.Simple(insts)
    ensures Size(p, insts) == Size([], insts)
    decreases insts
  {
    if insts == [] {
    } else {
      SimpleSize1(p, insts[0]);
      SimpleSize(p, insts[1..]);
    }
  }

  ghost predicate BodiesUpTo(p: Program, max: nat) {
    forall k :: 0 <= k < |p| ==> |Parser.Print(p[k].block)| <= max
  }

  /** The size of code without defined callees is the number of its tokens. */
  lemma {:induction false} SizeExact1(inst: Inst)
    ensures Size1([], inst) == |Parser.Print1(inst)|
    decreases inst
  {
    if inst.IsNested() {
      SizeExact(inst.insts);
    }
  }

  lemma {:induction false} SizeExact(insts: seq<Inst>)
    ensures Size([], insts) == |Parser.Print(insts)|
    decreases insts
  {
    if insts == [] {
      assert Parser.Print(insts) == [];
    } else {
      SizeExact1(insts[0]);
      SizeExact(insts[1..]);
    }
  }

  /** Callees of up to `max` tokens add at most `max + 3` for each token. */
  lemma {:induction false} SizeInTokens1(p: Program, inst: Inst, max: nat)
    requires BodiesUpTo(p, max)
    ensures Size1(p, inst) <= (max + 4) * |Parser.Print1(inst)|
    decreases inst
  {
    if inst.IsNested() {
      SizeInTokens(p, inst.insts, max);
      assert |Parser.Print1(inst)| == |Parser.Print(inst.insts)| + 2;
    } else {
      assert |Parser.Print1(inst)| == 1;
      if inst.Call? && 0 <= inst.callee < |p| {
        SizeExact(p[inst.callee].block);
      }
    }
  }

  lemma {:induction false} SizeInTokens(p: Program, insts: seq<Inst>, max: nat)
    requires BodiesUpTo(p, max)
    ensures Size(p, insts) <= (max + 4) * |Parser.Print(insts)|
    decreases insts
  {
    if insts == [] {
      assert Size(p, insts) == 0;
    } else {
      SizeInTokens1(p, insts[0], max);
      SizeInTokens(p, insts[1..], max);
      Together(max + 4, |Parser.Print1(insts[0])|, |Parser.Print(insts[1..])|, |Parser.Print(insts)|);
    }
  }

  lemma {:induction false} Together(c: nat, m: nat, n: nat, total: nat)
    requires total == m + n
    ensures c * total == c * m + c * n
  {
  }

  /** What is left after the innermost code; a loop label in `armed` may still be started once
      more. */
  function LabelsCost(p: Program, labels: seq<Label>, armed: set<nat>): nat {
    if labels == [] then 0
    else
      var top := |labels| - 1;
      LabelsCost(p, labels[..top], armed) + 1 + Size(p, labels[top].rest)
      + (if labels[top].LoopLabel? && top in armed then 1 + Size(p, labels[top].body) else 0)
  }

  function FrameCost(p: Program, fr: Frame, armed: set<nat>): nat {
    Size(p, fr.code) + LabelsCost(p, fr.labels, armed) + 1
  }

  function StateCost(p: Program, s: State, armed: seq<set<nat>>): nat
    requires |armed| == |s|
  {
    if s == [] then 0
    else
      var top := |s| - 1;
      StateCost(p, s[..top], armed[..top]) + FrameCost(p, s[top], armed[top])
  }

  lemma {:induction false} LabelsCostPrefix(p: Program, labels: seq<Label>, armed: set<nat>, i: nat)
    requires i <= |labels|
    ensures LabelsCost(p, labels[..i], armed) <= LabelsCost(p, labels, armed)
    ensures i < |labels| ==>
      LabelsCost(p, labels[..i], armed) + 1 + Size(p, labels[i].rest)
      + (if labels[i].LoopLabel? && i in armed then 1 + Size(p, labels[i].body) else 0)
      <= LabelsCost(p, labels, armed)
  {
    if i == |labels| {
      assert labels[..i] == labels;
    } else {
      var top := |labels| - 1;
      LabelsCostPrefix(p, labels[..top], armed, i);
      assert labels[..top][..i] == labels[..i];
    }
  }

  /** Entering a construct moves its cost from the code to the labels. */
  lemma {:induction false} EnterCost(p: Program, code: seq<Inst>, labels: seq<Label>, lab: Label, armed: set<nat>)
    requires code != [] && code[0].IsNested() && lab.rest == code[1..]
    requires |labels| !in armed
    ensures Size(p, code[0].insts) + LabelsCost(p, labels + [lab], armed)
      < Size(p, code) + LabelsCost(p, labels, armed)
  {
    assert (labels + [lab])[..|labels|] == labels;
    assert Size1(p, code[0]) == 2 + Size(p, code[0].insts);
  }

  lemma {:induction false} LabelsCostArmed(p: Program, labels: seq<Label>, a: set<nat>, b: set<nat>)
    requires forall m :: 0 <= m < |labels| ==> (m in a <==> m in b)
    ensures LabelsCost(p, labels, a) == LabelsCost(p, labels, b)
  {
    if labels == [] {
    } else {
      LabelsCostArmed(p, labels[..|labels| - 1], a, b);
    }
  }

  // ------------------------------------------------------------------ programs without quiet back edges

  predicate SafeLoop(pl: Plan, f: int, i: int, body: seq<Inst>, n: nat) {
    (f, i) in pl.skipped ==> !QuietBackEdge(pl, f, body, n)
  }

  /** No skipped loop in the code can be repeated without an event. */
  predicate SafeCode(pl: Plan, f: int, insts: seq<Inst>, n: nat) {
    insts == [] ||
    ((match insts[0]
      case Block(b) => SafeCode(pl, f, b, n + 1)
      case Loop(i, b) => SafeCode(pl, f, b, n + 1) && SafeLoop(pl, f, i, b, n + 1)
      case _ => true) && SafeCode(pl, f, insts[1..], n))
  }

  predicate SafeLabel(pl: Plan, f: int, lab: Label, n: nat) {
    && SafeCode(pl, f, lab.rest, n)
    && (lab.LoopLabel? ==> SafeCode(pl, f, lab.body, n + 1) && SafeLoop(pl, f, lab.loopIdx, lab.body, n + 1))
  }

  ghost predicate SafeFrame(pl: Plan, fr: Frame) {
    && SafeCode(pl, fr.funcIdx, fr.code, |fr.labels|)
    && forall i :: 0 <= i < |fr.labels| ==> SafeLabel(pl, fr.funcIdx, fr.labels[i], i)
  }

  ghost predicate SafeState(pl: Plan, s: State) {
    forall k :: 0 <= k < |s| ==> SafeFrame(pl, s[k])
  }

  ghost predicate SafeProgram(pl: Plan, p: Program) {
    forall k :: 0 <= k < |p| ==> SafeCode(pl, p[k].funcIdx, p[k].block, 1)
  }

  /** A skipped loop that has a quiet way back to its start. */
  ghost predicate UnsafeAt(pl: Plan, f: int, root: Inst, path: Path, n: nat) {
    && ValidPath(root, path)
    && var inst := NodeAt(root, path);
       && inst.Loop? && (f, inst.loopIdx) in pl.skipped && QuietBackEdge(pl, f, inst.insts, n + |path| + 1)
  }

  lemma {:induction false} SafeInsts(pl: Plan, f: int, insts: seq<Inst>, n: nat)
    ensures SafeCode(pl, f, insts, n) <==>
      forall i, path: Path :: 0 <= i < |insts| ==> !UnsafeAt(pl, f, insts[i], path, n)
    decreases insts
  {
    if insts == [] {
      assert SafeCode(pl, f, insts, n);
    } else {
      SafeInst(pl, f, insts[0], n);
      SafeInsts(pl, f, insts[1..], n);
      assert [insts[0]][1..] == [];
      assert SafeCode(pl, f, insts, n) <==> SafeCode(pl, f, [insts[0]], n) && SafeCode(pl, f, insts[1..], n);
      assert forall i :: 0 < i < |insts| ==> insts[i] == insts[1..][i - 1];
      assert forall i :: 0 <= i < |insts[1..]| ==> insts[1..][i] == insts[i + 1];
    }
  }

  lemma {:induction false} SafeInst(pl: Plan, f: int, inst: Inst, n: nat)
    ensures SafeCode(pl, f, [inst], n) <==> forall path: Path :: !UnsafeAt(pl, f, inst, path, n)
    decreases inst, 0
  {
    assert [inst][1..] == [];
    assert UnsafeAt(pl, f, inst, [], n) <==> inst.Loop? && !SafeLoop(pl, f, inst.loopIdx, inst.insts, n + 1);
    if inst.IsNested() {
      SafeInsts(pl, f, inst.insts, n + 1);
      if SafeCode(pl, f, inst.insts, n + 1) {
        forall path: Path | path != [] ensures !UnsafeAt(pl, f, inst, path, n) {
          if ValidPath(inst, path) {
            assert !UnsafeAt(pl, f, inst.insts[path[0]], path[1..], n + 1);
          }
        }
      } else {
        var i, path: Path :| 0 <= i < |inst.insts| && UnsafeAt(pl, f, inst.insts[i], path, n + 1);
        assert ([i] + path)[1..] == path;
        assert UnsafeAt(pl, f, inst, [i] + path, n);
      }
    }
  }

  /** A program is safe exactly if no node of any function is a skipped loop with a quiet way back. */
  lemma {:induction false} SafeExact(pl: Plan, p: Program)
    ensures SafeProgram(pl, p) <==>
      forall k, path: Path :: 0 <= k < |p| ==> !UnsafeAt(pl, p[k].funcIdx, Root(p[k]), path, 0)
  {
    forall k | 0 <= k < |p|
      ensures SafeCode(pl, p[k].funcIdx, p[k].block, 1) <==>
        forall path: Path :: !UnsafeAt(pl, p[k].funcIdx, Root(p[k]), path, 0)
    {
      SafeInst(pl, p[k].funcIdx, Root(p[k]), 0);
      assert [Root(p[k])][1..] == [];
    }
  }

  lemma {:induction false} SimpleIsSafe(pl: Plan, f: int, insts: seq<Inst>, n: nat)
    requires SimpleFunc.Simple(insts)
    ensures SafeCode(pl, f, insts, n)
    decreases insts
  {
    if insts == [] {
    } else {
      SimpleIsSafe(pl, f, insts[1..], n);
      if insts[0].Block? {
        SimpleIsSafe(pl, f, insts[0].insts, n + 1);
      }
    }
  }

  lemma {:induction false} EnterIsSafe(pl: Plan, fn: Func, locals: map<int, int>)
    requires SafeCode(pl, fn.funcIdx, fn.block, 1)
    ensures SafeFrame(pl, Enter(fn, locals))
  {
    assert [Block(fn.block)][1..] == [];
  }

  /** A step of the innermost activation that does not end it leaves it safe. */
  lemma {:induction false} SafeTop(p: Program, pl: Plan, s: State, c: Choice, s': State)
    requires Next(p, s, c) == Some(s') && |s'| >= |s| && SafeFrame(pl, s[|s| - 1])
    ensures SafeFrame(pl, s'[|s| - 1])
  {
    var k := |s| - 1;
    var fr, fr' := s[k], s'[k];
    if fr.code != [] && BranchDepth(fr, c).Some? {
      assert fr' == Jump(fr, BranchDepth(fr, c).value);
      assert forall i :: 0 <= i < |fr'.labels| ==> fr'.labels[i] == fr.labels[i];
    } else if fr.code != [] {
      assert forall i :: 0 <= i < |fr.labels| ==> fr'.labels[i] == fr.labels[i];
    }
  }

  /** Every state of every run of a safe program is safe. */
  lemma {:induction false} SafeRun(p: Program, pl: Plan, run: seq<State>, cs: seq<Choice>, t: nat)
    requires SafeProgram(pl, p) && IsRun(p, run, cs) && SafeState(pl, run[0]) && t < |run|
    ensures SafeState(pl, run[t])
  {
    if t == 0 {
    } else {
      SafeRun(p, pl, run, cs, t - 1);
      var s, c, s' := run[t - 1], cs[t - 1], run[t];
      assert Next(p, s, c) == Some(s');
      forall k | 0 <= k < |s'|
        ensures SafeFrame(pl, s'[k])
      {
        if k < |s| - 1 {
          assert s'[k] == s[k];
        } else if k == |s| - 1 {
          SafeTop(p, pl, s, c, s');
        } else {
          EnterIsSafe(pl, p[Callee(p, s[|s| - 1], c)], c.locals);
        }
      }
    }
  }

  // ------------------------------------------------------------------ quiet steps use up the cost

  /** Loops that are not armed have been started, and then left alone, since the run became quiet. */
  ghost predicate FrameOk(pl: Plan, fr: Frame, armed: set<nat>) {
    && SafeFrame(pl, fr)
    && (forall m :: m in armed ==> m < |fr.labels|)
    && forall m :: 0 <= m < |fr.labels| && fr.labels[m].LoopLabel? && m !in armed ==> QuietSince(pl, fr, m)
  }

  ghost predicate StateOk(pl: Plan, s: State, armed: seq<set<nat>>) {
    |armed| == |s| && forall k :: 0 <= k < |s| ==> FrameOk(pl, s[k], armed[k])
  }

  function Below(armed: set<nat>, n: nat): set<nat> { set m | m in armed && m < n }

  /** Labels that were open before the step and still are keep their status. */
  lemma {:induction false} OldLabelsQuiet(p: Program, pl: Plan, s: State, c: Choice, s': State, armed: set<nat>, m: nat)
    requires Next(p, s, c) == Some(s') && !Emits(pl, s, c) && |s'| >= |s| > 0
    requires FrameOk(pl, s[|s| - 1], armed) && m !in armed
    requires Active(s, |s| - 1, m) && Active(s', |s| - 1, m) && s[|s| - 1].labels[m].LoopLabel?
    ensures QuietSince(pl, s'[|s| - 1], m)
    ensures !IsBackEdge(s, c, |s| - 1, m) || (s[|s| - 1].funcIdx, s[|s| - 1].labels[m].loopIdx) !in pl.skipped
  {
    QuietStep(p, pl, s, c, s', |s| - 1, m);
    assert SafeLabel(pl, s[|s| - 1].funcIdx, s[|s| - 1].labels[m], m);
  }

  /** A branch to label `i` drops the labels above it, and a loop label that is started again is not
      armed any more. */
  lemma {:induction false} JumpCost(p: Program, fr: Frame, c: Choice, d: nat, armed: set<nat>)
    requires BranchDepth(fr, c) == Some(d) && d < |fr.labels|
    requires var i := |fr.labels| - 1 - d; fr.labels[i].LoopLabel? ==> i in armed
    ensures FrameCost(p, Jump(fr, d), Below(armed, |fr.labels| - 1 - d)) < FrameCost(p, fr, armed)
  {
    var i := |fr.labels| - 1 - d;
    var labels := fr.labels[..i];
    LabelsCostPrefix(p, fr.labels, armed, i);
    LabelsCostArmed(p, labels, armed, Below(armed, i));
    if fr.labels[i].LoopLabel? {
      assert fr.labels[..i + 1][..i] == labels;
    }
  }

  /** A taken branch. */
  lemma {:induction false} BranchCost(p: Program, pl: Plan, s: State, c: Choice, s': State, armed: set<nat>)
      returns (armed': set<nat>)
    requires Next(p, s, c) == Some(s') && !Emits(pl, s, c) && s != []
    requires BranchDepth(s[|s| - 1], c).Some? && FrameOk(pl, s[|s| - 1], armed)
    ensures |s'| == |s| && FrameOk(pl, s'[|s| - 1], armed')
    ensures FrameCost(p, s'[|s| - 1], armed') < FrameCost(p, s[|s| - 1], armed)
  {
    var k := |s| - 1;
    var fr, d := s[k], BranchDepth(s[k], c).value;
    var i := |fr.labels| - 1 - d;
    assert s'[k] == Jump(fr, d);
    SafeTop(p, pl, s, c, s');
    armed' := Below(armed, i);
    if fr.labels[i].LoopLabel? {
      HeaderIsQuiet(pl, s'[k], i);
      BackEdgeArmed(p, pl, s, c, s', armed);
    }
    JumpCost(p, fr, c, d, armed);
    forall m | 0 <= m < |s'[k].labels| && s'[k].labels[m].LoopLabel? && m !in armed'
      ensures QuietSince(pl, s'[k], m)
    {
      if m < i {
        OldLabelsQuiet(p, pl, s, c, s', armed, m);
      }
    }
  }

  /** Without an event only a loop that is armed can be started again. */
  lemma {:induction false} BackEdgeArmed(p: Program, pl: Plan, s: State, c: Choice, s': State, armed: set<nat>)
    requires Next(p, s, c) == Some(s') && !Emits(pl, s, c) && s != []
    requires BranchDepth(s[|s| - 1], c).Some? && FrameOk(pl, s[|s| - 1], armed)
    requires var fr := s[|s| - 1];
      fr.labels[|fr.labels| - 1 - BranchDepth(fr, c).value].LoopLabel?
    ensures |s[|s| - 1].labels| - 1 - BranchDepth(s[|s| - 1], c).value in armed
  {
    var fr := s[|s| - 1];
    var i := |fr.labels| - 1 - BranchDepth(fr, c).value;
    assert s'[|s| - 1] == Jump(fr, BranchDepth(fr, c).value);
    if i !in armed {
      OldLabelsQuiet(p, pl, s, c, s', armed, i);
      assert false;
    }
  }

  /** Any other step that stays in the activation or calls out of it. */
  lemma {:induction false} PlainCost(p: Program, pl: Plan, s: State, c: Choice, s': State, armed: set<nat>)
      returns (armed': set<nat>)
    requires Next(p, s, c) == Some(s') && !Emits(pl, s, c) && s != []
    requires BranchDepth(s[|s| - 1], c).None? && |s'| >= |s| && FrameOk(pl, s[|s| - 1], armed)
    ensures FrameOk(pl, s'[|s| - 1], armed')
    ensures FrameCost(p, s'[|s| - 1], armed') < FrameCost(p, s[|s| - 1], armed)
    ensures s[|s| - 1].code != [] && s[|s| - 1].code[0].Call? ==>
      FrameCost(p, s'[|s| - 1], armed') + Size1(p, s[|s| - 1].code[0]) == FrameCost(p, s[|s| - 1], armed)
  {
    var k := |s| - 1;
    var fr, fr', n := s[k], s'[k], |s[k].labels|;
    SafeTop(p, pl, s, c, s');
    if fr.code == [] {
      armed' := Below(armed, n - 1);
      EndCost(p, fr, armed);
    } else {
      armed' := armed;
      if fr.code[0].IsNested() {
        EnterCost(p, fr.code, fr.labels, fr'.labels[n], armed);
        if fr.code[0].Loop? {
          HeaderIsQuiet(pl, fr', n);
        }
      }
    }
    forall m | 0 <= m < |fr'.labels| && fr'.labels[m].LoopLabel? && m !in armed'
      ensures QuietSince(pl, fr', m)
    {
      if m < n {
        OldLabelsQuiet(p, pl, s, c, s', armed, m);
      }
    }
  }

  /** Leaving a construct. */
  lemma {:induction false} EndCost(p: Program, fr: Frame, armed: set<nat>)
    requires fr.code == [] && fr.labels != []
    ensures var n := |fr.labels|;
      FrameCost(p, fr.(code := fr.labels[n - 1].rest, labels := fr.labels[..n - 1]), Below(armed, n - 1))
        < FrameCost(p, fr, armed)
  {
    var n := |fr.labels|;
    LabelsCostArmed(p, fr.labels[..n - 1], armed, Below(armed, n - 1));
  }

  /** Calling a simple function: the callee's frame is paid for by the call. */
  lemma {:induction false} CalleeCost(p: Program, pl: Plan, s: State, c: Choice, s': State)
    requires WellIndexed(p) && pl.simple == SimpleFunc.SimpleSet(p)
    requires Next(p, s, c) == Some(s') && !Emits(pl, s, c) && |s'| > |s| > 0
    ensures |s'| == |s| + 1 && s[|s| - 1].code != [] && s[|s| - 1].code[0].Call?
    ensures 0 <= s[|s| - 1].code[0].callee < |p| && s'[|s|] == Enter(p[s[|s| - 1].code[0].callee], c.locals)
    ensures FrameOk(pl, s'[|s|], {})
    ensures FrameCost(p, s'[|s|], {}) < Size1(p, s[|s| - 1].code[0])
  {
    var inst := s[|s| - 1].code[0];
    SimpleFunc.SimpleCalleesAreDefined(p, inst);
    var fn := p[inst.callee];
    assert s'[|s|] == Enter(fn, c.locals);
    SimpleIsSafe(pl, fn.funcIdx, fn.block, 1);
    EnterIsSafe(pl, fn, c.locals);
    SimpleSize(p, fn.block);
    assert [Block(fn.block)][1..] == [];
    assert Size1(p, Block(fn.block)) == 2 + Size(p, fn.block);
    assert Size(p, [Block(fn.block)]) == Size1(p, Block(fn.block)) + Size(p, []);
  }

  /** A step without event uses up some of the cost. */
  lemma {:induction false} QuietStepCost(p: Program, pl: Plan, s: State, c: Choice, s': State, armed: seq<set<nat>>)
      returns (armed': seq<set<nat>>)
    requires WellIndexed(p) && pl.simple == SimpleFunc.SimpleSet(p)
    requires Next(p, s, c) == Some(s') && !Emits(pl, s, c) && StateOk(pl, s, armed)
    ensures StateOk(pl, s', armed') && StateCost(p, s', armed') < StateCost(p, s, armed)
  {
    var k := |s| - 1;
    if |s'| < |s| {
      assert s' == s[..k];
      armed' := armed[..k];
    } else {
      armed' := TopStepCost(p, pl, s, c, s', armed);
      if |s'| > |s| {
        CalleeCost(p, pl, s, c, s');
        assert s' == s'[..k + 1] + [s'[k + 1]];
        armed' := armed' + [{}];
      } else {
        assert s'[..k + 1] == s';
      }
    }
  }

  /** The same for the activations up to the one that steps. */
  lemma {:induction false} TopStepCost(p: Program, pl: Plan, s: State, c: Choice, s': State, armed: seq<set<nat>>)
      returns (armed': seq<set<nat>>)
    requires Next(p, s, c) == Some(s') && !Emits(pl, s, c) && StateOk(pl, s, armed) && |s'| >= |s| > 0
    ensures StateOk(pl, s'[..|s|], armed')
    ensures StateCost(p, s'[..|s|], armed') < StateCost(p, s, armed)
    ensures |s'| > |s| && s[|s| - 1].code != [] && s[|s| - 1].code[0].Call? ==>
      StateCost(p, s'[..|s|], armed') + Size1(p, s[|s| - 1].code[0]) == StateCost(p, s, armed)
  {
    var k := |s| - 1;
    assert s'[..k] == s[..k];
    var a: set<nat>;
    if BranchDepth(s[k], c).Some? {
      a := BranchCost(p, pl, s, c, s', armed[k]);
    } else {
      a := PlainCost(p, pl, s, c, s', armed[k]);
    }
    armed' := armed[..k] + [a];
    assert s'[..k + 1][..k] == s[..k];
  }

  function UpTo(n: nat): (r: set<nat>)
    ensures forall m: nat :: m in r <==> m < n
  {
    if n == 0 then {} else UpTo(n - 1) + {n - 1}
  }

  /** At the start of a quiet stretch every open loop may still be started once. */
  function AllArmed(s: State): (armed: seq<set<nat>>)
    ensures |armed| == |s|
  {
    seq(|s|, k requires 0 <= k < |s| => UpTo(|s[k].labels|))
  }

  lemma {:induction false} QuietRunCost(p: Program, pl: Plan, run: seq<State>, cs: seq<Choice>, t: nat)
      returns (armed: seq<set<nat>>)
    requires WellIndexed(p) && pl.simple == SimpleFunc.SimpleSet(p)
    requires IsRun(p, run, cs) && SafeState(pl, run[0]) && t < |run|
    requires forall u :: 0 <= u < |cs| ==> !Emits(pl, run[u], cs[u])
    ensures StateOk(pl, run[t], armed)
    ensures StateCost(p, run[t], armed) + t <= StateCost(p, run[0], AllArmed(run[0]))
  {
    if t == 0 {
      armed := AllArmed(run[0]);
    } else {
      armed := QuietRunCost(p, pl, run, cs, t - 1);
      assert Next(p, run[t - 1], cs[t - 1]) == Some(run[t]);
      armed := QuietStepCost(p, pl, run[t - 1], cs[t - 1], run[t], armed);
    }
  }

  /** Checkpoint latency: if no skipped loop has a quiet back edge, a run that starts in a state
      with static cost B passes an event within its first B steps, or has ended by then. */
  lemma {:induction false} QuietRunsAreShort(p: Program, pl: Plan, run: seq<State>, cs: seq<Choice>)
    requires WellIndexed(p) && pl.simple == SimpleFunc.SimpleSet(p)
    requires IsRun(p, run, cs) && SafeState(pl, run[0])
    requires forall u :: 0 <= u < |cs| ==> !Emits(pl, run[u], cs[u])
    ensures |cs| <= StateCost(p, run[0], AllArmed(run[0]))
  {
    var armed := QuietRunCost(p, pl, run, cs, |cs|);
  }

  // ------------------------------------------------------------------ passes through unlisted loops

  /** Inside a loop body without loops and without calls of non-simple functions. */
  ghost predicate InPass(simple: set<int>, s: State, k: nat, j: nat) {
    && Active(s, k, j) && |s| <= k + 2
    && LoopCkpt.Noinf(s[k].code, simple)
    && (forall i :: j < i < |s[k].labels| ==>
          s[k].labels[i].BlockLabel? && LoopCkpt.Noinf(s[k].labels[i].rest, simple))
    && (|s| == k + 2 ==> SimpleFrame(s[k + 1]))
  }

  /** An activation of a simple function. */
  ghost predicate SimpleFrame(g: Frame) {
    && SimpleFunc.Simple(g.code)
    && forall i :: 0 <= i < |g.labels| ==> g.labels[i].BlockLabel? && SimpleFunc.Simple(g.labels[i].rest)
  }

  function PassCost(p: Program, s: State, k: nat, j: nat): nat
    requires Active(s, k, j)
  {
    Size(p, s[k].code) + LabelsCost(p, s[k].labels[j + 1..], {})
    + (if |s| == k + 2 then FrameCost(p, s[k + 1], {}) else 0)
  }

  /** The activation that runs the loop branches inside the loop body. */
  lemma {:induction false} OwnBranch(p: Program, simple: set<int>, s: State, c: Choice, s': State, k: nat, j: nat)
    requires Next(p, s, c) == Some(s') && InPass(simple, s, k, j) && |s| == k + 1
    requires BranchDepth(s[k], c).Some?
    requires Active(s', k, j) && !IsBackEdge(s, c, k, j) && s[k].labels[j].LoopLabel?
    ensures InPass(simple, s', k, j) && PassCost(p, s', k, j) < PassCost(p, s, k, j)
  {
    var fr, d := s[k], BranchDepth(s[k], c).value;
    var i := |fr.labels| - 1 - d;
    assert s'[k] == Jump(fr, d);
    LabelsCostPrefix(p, fr.labels[j + 1..], {}, i - (j + 1));
    assert s'[k].labels[j + 1..] == fr.labels[j + 1..][..i - (j + 1)];
    assert fr.labels[j + 1..][i - (j + 1)] == fr.labels[i];
  }

  /** It reaches the end of a block inside the loop body. */
  lemma {:induction false} OwnEnd(p: Program, simple: set<int>, s: State, c: Choice, s': State, k: nat, j: nat)
    requires Next(p, s, c) == Some(s') && InPass(simple, s, k, j) && |s| == k + 1
    requires s[k].code == [] && Active(s', k, j)
    ensures InPass(simple, s', k, j) && PassCost(p, s', k, j) < PassCost(p, s, k, j)
  {
    var fr, n := s[k], |s[k].labels|;
    assert s'[k].labels[j + 1..] == fr.labels[j + 1..][..n - j - 2];
  }

  /** It enters a block. */
  lemma {:induction false} OwnEnter(p: Program, simple: set<int>, s: State, c: Choice, s': State, k: nat, j: nat)
    requires Next(p, s, c) == Some(s') && InPass(simple, s, k, j) && |s| == k + 1
    requires s[k].code != [] && s[k].code[0].IsNested()
    ensures InPass(simple, s', k, j) && PassCost(p, s', k, j) < PassCost(p, s, k, j)
  {
    var fr, fr', n := s[k], s'[k], |s[k].labels|;
    assert LoopCkpt.Noinf1(fr.code[0], simple);
    EnterCost(p, fr.code, fr.labels[j + 1..], fr'.labels[n], {});
    assert fr'.labels[j + 1..] == fr.labels[j + 1..] + [fr'.labels[n]];
  }

  /** The activation calls a simple function. */
  lemma {:induction false} CallOut(p: Program, simple: set<int>, s: State, c: Choice, s': State, k: nat, j: nat)
    requires WellIndexed(p) && simple == SimpleFunc.SimpleSet(p)
    requires Next(p, s, c) == Some(s') && InPass(simple, s, k, j) && |s| == k + 1 && |s'| > k + 1
    ensures InPass(simple, s', k, j) && PassCost(p, s', k, j) < PassCost(p, s, k, j)
  {
    assert s[k].code != [] && LoopCkpt.Noinf1(s[k].code[0], simple);
    CalleeCost(p, Plan(simple, {}), s, c, s');
    SimpleFunc.SimpleCalleesAreDefined(p, s[k].code[0]);
    var body := p[s[k].code[0].callee].block;
    assert [Block(body)][1..] == [] && SimpleFunc.Simple1(Block(body));
    assert SimpleFunc.Simple([Block(body)]);
    assert s'[k + 1].code == [Block(body)] && s'[k + 1].labels == [];
  }

  /** A step of a simple function: it ends, or gets closer to its end. */
  lemma {:induction false} SimpleStep(p: Program, s: State, c: Choice, s': State)
    requires Next(p, s, c) == Some(s') && s != [] && SimpleFrame(s[|s| - 1])
    ensures s' == s[..|s| - 1] || (|s'| == |s| && s'[..|s| - 1] == s[..|s| - 1])
    ensures |s'| == |s| ==> SimpleFrame(s'[|s| - 1])
    ensures |s'| == |s| ==> FrameCost(p, s'[|s| - 1], {}) < FrameCost(p, s[|s| - 1], {})
  {
    var g, n := s[|s| - 1], |s[|s| - 1].labels|;
    assert g.code != [] ==> SimpleFunc.Simple1(g.code[0]);
    if g.code != [] && BranchDepth(g, c).Some? {
      var d := BranchDepth(g, c).value;
      assert s'[|s| - 1] == Jump(g, d);
      LabelsCostPrefix(p, g.labels, {}, n - 1 - d);
    } else if g.code != [] && g.code[0].IsNested() {
      EnterCost(p, g.code, g.labels, s'[|s| - 1].labels[n], {});
    }
  }

  lemma {:induction false} PassSteps(p: Program, simple: set<int>, run: seq<State>, cs: seq<Choice>, k: nat, j: nat,
                                     t: nat)
    requires WellIndexed(p) && simple == SimpleFunc.SimpleSet(p)
    requires IsRun(p, run, cs) && ActiveThroughout(run, k, j) && AtHeader(run[0], k, j) && t < |run|
    requires LoopCkpt.Noinf(run[0][k].labels[j].body, simple)
    requires forall u :: 0 <= u < |cs| ==> !IsBackEdge(run[u], cs[u], k, j)
    ensures InPass(simple, run[t], k, j)
    ensures run[t][k].labels[j] == run[0][k].labels[j]
    ensures PassCost(p, run[t], k, j) + t <= Size(p, run[0][k].labels[j].body)
  {
    if t == 0 {
    } else {
      PassSteps(p, simple, run, cs, k, j, t - 1);
      assert Active(run[t - 1], k, j) && Active(run[t], k, j);
      PassStep(p, simple, run[t - 1], cs[t - 1], run[t], k, j);
    }
  }

  /** One step of a pass uses up some of its cost. */
  lemma {:induction false} PassStep(p: Program, simple: set<int>, s: State, c: Choice, s': State, k: nat, j: nat)
    requires WellIndexed(p) && simple == SimpleFunc.SimpleSet(p)
    requires Next(p, s, c) == Some(s') && InPass(simple, s, k, j) && Active(s', k, j)
    requires s[k].labels[j].LoopLabel? && !IsBackEdge(s, c, k, j)
    ensures s'[k].labels[j] == s[k].labels[j]
    ensures InPass(simple, s', k, j) && PassCost(p, s', k, j) < PassCost(p, s, k, j)
  {
    assert s'[k].labels[j] == s'[k].labels[..j + 1][j] == s[k].labels[j];
    if |s| == k + 2 {
      SimpleStep(p, s, c, s');
      assert s'[k] == s[k];
    } else if |s'| > k + 1 {
      CallOut(p, simple, s, c, s', k, j);
    } else if BranchDepth(s[k], c).Some? {
      OwnBranch(p, simple, s, c, s', k, j);
    } else if s[k].code == [] {
      OwnEnd(p, simple, s, c, s', k, j);
    } else if s[k].code[0].IsNested() {
      OwnEnter(p, simple, s, c, s', k, j);
    }
  }

  /** Each pass through the body of a loop that the scan got to and did not list ends within a
      bound that depends on the sizes of the body and of its simple callees only: a run that stays
      in the loop and does not start it again has at most that many steps. */
  lemma {:induction false} UnlistedPassIsBounded(p: Program, root: Inst, path: Path, run: seq<State>,
                                                 cs: seq<Choice>, k: nat, j: nat)
    requires WellIndexed(p) && IsRun(p, run, cs) && ActiveThroughout(run, k, j) && AtHeader(run[0], k, j)
    requires LoopCkpt.Scanned(root, path, SimpleFunc.SimpleSet(p)) && ValidPath(root, path)
    requires NodeAt(root, path).Loop? && NodeAt(root, path).insts == run[0][k].labels[j].body
    requires (run[0][k].funcIdx, NodeAt(root, path).loopIdx)
      !in LoopCkpt.Skips1(run[0][k].funcIdx, root, SimpleFunc.SimpleSet(p))
    requires forall u :: 0 <= u < |cs| ==> !IsBackEdge(run[u], cs[u], k, j)
    ensures |cs| <= Size(p, run[0][k].labels[j].body)
  {
    LoopCkpt.UnlistedLoopIsBounded(run[0][k].funcIdx, root, path, SimpleFunc.SimpleSet(p));
    PassSteps(p, SimpleFunc.SimpleSet(p), run, cs, k, j, |cs|);
  }
}
