/** Where the code of a run comes from: everything an activation executes is a node of its
    function's tree, and the number of a loop names its node. */
module Provenance {
  import opened Basics
  import opened WasmTree
  import opened Semantics

  ghost predicate NodeOf(root: Inst, inst: Inst) {
    exists path: Path :: LeadsTo(root, path, inst)
  }

  predicate LeadsTo(root: Inst, path: Path, inst: Inst) {
    ValidPath(root, path) && NodeAt(root, path) == inst
  }

  ghost predicate Part(root: Inst, code: seq<Inst>) {
    forall i :: 0 <= i < |code| ==> NodeOf(root, code[i])
  }

  ghost predicate LabelIn(root: Inst, lab: Label) {
    && Part(root, lab.rest)
    && (lab.LoopLabel? ==> NodeOf(root, Loop(lab.loopIdx, lab.body)))
  }

  ghost predicate FrameIn(p: Program, fr: Frame) {
    && 0 <= fr.funcIdx < |p|
    && Part(Root(p[fr.funcIdx]), fr.code)
    && forall j :: 0 <= j < |fr.labels| ==> LabelIn(Root(p[fr.funcIdx]), fr.labels[j])
  }

  ghost predicate StateIn(p: Program, s: State) {
    forall k :: 0 <= k < |s| ==> FrameIn(p, s[k])
  }

  lemma {:induction false} ChildNodes(root: Inst, inst: Inst)
    requires NodeOf(root, inst) && inst.IsNested()
    ensures Part(root, inst.insts)
  {
    var path: Path :| LeadsTo(root, path, inst);
    forall i | 0 <= i < |inst.insts|
      ensures NodeOf(root, inst.insts[i])
    {
      ChildPath(root, path, i);
      assert LeadsTo(root, path + [i], inst.insts[i]);
    }
  }

  lemma {:induction false} EnterIn(p: Program, f: nat, locals: map<int, int>)
    requires WellIndexed(p) && f < |p|
    ensures FrameIn(p, Enter(p[f], locals))
  {
    assert LeadsTo(Root(p[f]), [], Root(p[f]));
  }

  /** A branch continues with code of a label. */
  lemma {:induction false} JumpIn(p: Program, fr: Frame, d: nat)
    requires FrameIn(p, fr) && d < |fr.labels|
    ensures FrameIn(p, Jump(fr, d))
  {
    var root, lab := Root(p[fr.funcIdx]), fr.labels[|fr.labels| - 1 - d];
    assert LabelIn(root, lab);
    if lab.LoopLabel? {
      ChildNodes(root, Loop(lab.loopIdx, lab.body));
    }
  }

  lemma {:induction false} EnterNested(p: Program, fr: Frame)
    requires FrameIn(p, fr) && fr.code != [] && fr.code[0].IsNested()
    ensures Part(Root(p[fr.funcIdx]), fr.code[1..]) && Part(Root(p[fr.funcIdx]), fr.code[0].insts)
    ensures NodeOf(Root(p[fr.funcIdx]), fr.code[0])
  {
    ChildNodes(Root(p[fr.funcIdx]), fr.code[0]);
  }

  /** Entering one. */
  lemma {:induction false} NestedIn(p: Program, fr: Frame, lab: Label)
    requires FrameIn(p, fr) && fr.code != [] && fr.code[0].IsNested() && lab.rest == fr.code[1..]
    requires lab.LoopLabel? ==> fr.code[0] == Loop(lab.loopIdx, lab.body)
    ensures FrameIn(p, fr.(code := fr.code[0].insts, labels := fr.labels + [lab]))
  {
    EnterNested(p, fr);
    assert LabelIn(Root(p[fr.funcIdx]), lab);
  }

  /** The activation that steps stays inside its function. */
  lemma {:induction false} TopIn(p: Program, s: State, c: Choice, s': State)
    requires s != [] && FrameIn(p, s[|s| - 1]) && Next(p, s, c) == Some(s') && |s'| >= |s|
    ensures FrameIn(p, s'[|s| - 1])
  {
    var fr, fr', n := s[|s| - 1], s'[|s| - 1], |s[|s| - 1].labels|;
    if BranchDepth(fr, c).Some? {
      JumpIn(p, fr, BranchDepth(fr, c).value);
      assert fr' == Jump(fr, BranchDepth(fr, c).value);
    } else if fr.code != [] && fr.code[0].IsNested() {
      NestedIn(p, fr, fr'.labels[n]);
    }
  }

  lemma {:induction false} StepIn(p: Program, s: State, c: Choice, s': State)
    requires WellIndexed(p) && StateIn(p, s) && Next(p, s, c) == Some(s')
    ensures StateIn(p, s')
  {
    forall k | 0 <= k < |s'|
      ensures FrameIn(p, s'[k])
    {
      if k < |s| - 1 {
        assert s'[k] == s[k];
      } else if k == |s| - 1 {
        TopIn(p, s, c, s');
      } else {
        EnterIn(p, Callee(p, s[|s| - 1], c), c.locals);
      }
    }
  }

  /** A run of a function of the program, from its call. */
  ghost predicate IsProgramRun(p: Program, run: seq<State>, cs: seq<Choice>, f: nat, locals: map<int, int>) {
    f < |p| && IsRun(p, run, cs) && run[0] == [Enter(p[f], locals)]
  }

  /** Everything a run executes is part of the program. */
  lemma {:induction false} RunIn(p: Program, run: seq<State>, cs: seq<Choice>, f: nat, locals: map<int, int>, t: nat)
    requires WellIndexed(p) && IsProgramRun(p, run, cs, f, locals) && t < |run|
    ensures StateIn(p, run[t])
  {
    if t == 0 {
      EnterIn(p, f, locals);
    } else {
      RunIn(p, run, cs, f, locals, t - 1);
      assert Next(p, run[t - 1], cs[t - 1]) == Some(run[t]);
      StepIn(p, run[t - 1], cs[t - 1], run[t]);
    }
  }

  // ------------------------------------------------------------------ numbers name loops

  ghost predicate Distinct(xs: seq<int>) {
    forall i, j :: 0 <= i < j < |xs| ==> xs[i] != xs[j]
  }

  lemma {:induction false} DistinctParts(a: seq<int>, b: seq<int>)
    requires Distinct(a + b)
    ensures Distinct(a) && Distinct(b)
    ensures forall x :: !(x in a && x in b)
  {
    var ab := a + b;
    assert forall i :: 0 <= i < |a| ==> ab[i] == a[i];
    assert forall i :: 0 <= i < |b| ==> ab[|a| + i] == b[i];
    forall i, j | 0 <= i < |a| && 0 <= j < |b|
      ensures a[i] != b[j]
    {
      assert ab[i] != ab[|a| + j];
    }
  }

  lemma {:induction false} NumbersConcat(a: seq<Inst>, b: seq<Inst>)
    ensures LoopNumbers(a + b) == LoopNumbers(a) + LoopNumbers(b)
  {
    if a == [] {
      assert a + b == b;
    } else {
      assert (a + b)[1..] == a[1..] + b && (a + b)[0] == a[0];
      LoopNumbersCons(a + b);
      LoopNumbersCons(a);
      NumbersConcat(a[1..], b);
      var own := LoopNumbers([a[0]]);
      assert own + (LoopNumbers(a[1..]) + LoopNumbers(b)) == own + LoopNumbers(a[1..]) + LoopNumbers(b);
    }
  }

  lemma {:induction false} NumbersSplit(insts: seq<Inst>, i: nat)
    requires i < |insts|
    ensures LoopNumbers(insts) == LoopNumbers(insts[..i]) + (LoopNumbers([insts[i]]) + LoopNumbers(insts[i + 1..]))
  {
    NumbersConcat([insts[i]], insts[i + 1..]);
    NumbersConcat(insts[..i], [insts[i]] + insts[i + 1..]);
    assert insts == insts[..i] + ([insts[i]] + insts[i + 1..]);
  }

  /** The number of a loop is among the numbers of every tree around it. */
  lemma {:induction false} NumberListed(root: Inst, path: Path)
    requires ValidPath(root, path) && NodeAt(root, path).Loop?
    ensures NodeAt(root, path).loopIdx in LoopNumbers([root])
    decreases path
  {
    if path == [] {
    } else {
      NumberListed(root.insts[path[0]], path[1..]);
      NumbersSplit(root.insts, path[0]);
    }
  }

  /** With distinct numbers, two loops with the same number are the same node. */
  lemma {:induction false} SameNumberSameLoop(root: Inst, a: Path, b: Path)
    requires ValidPath(root, a) && ValidPath(root, b) && NodeAt(root, a).Loop? && NodeAt(root, b).Loop?
    requires Distinct(LoopNumbers([root])) && NodeAt(root, a).loopIdx == NodeAt(root, b).loopIdx
    ensures NodeAt(root, a) == NodeAt(root, b)
    decreases a
  {
    if a == [] && b != [] {
      RootNumberOnce(root, b);
    } else if a != [] && b == [] {
      RootNumberOnce(root, a);
    } else if a != [] && b != [] {
      InnerDistinct(root);
      if a[0] == b[0] {
        ChildDistinct(root.insts, a[0]);
        SameNumberSameLoop(root.insts[a[0]], a[1..], b[1..]);
      } else {
        NumberListed(root.insts[a[0]], a[1..]);
        NumberListed(root.insts[b[0]], b[1..]);
        var first, second := if a[0] < b[0] then a[0] else b[0], if a[0] < b[0] then b[0] else a[0];
        OneChildOnly(root.insts, first, second, NodeAt(root, a).loopIdx);
      }
    }
  }

  lemma {:induction false} InnerDistinct(root: Inst)
    requires root.IsNested() && Distinct(LoopNumbers([root]))
    ensures Distinct(LoopNumbers(root.insts))
    ensures root.Loop? ==> root.loopIdx !in LoopNumbers(root.insts)
  {
    assert [root][1..] == [] && LoopNumbers([]) == [];
    if root.Loop? {
      assert LoopNumbers([root]) == [root.loopIdx] + LoopNumbers(root.insts);
      DistinctParts([root.loopIdx], LoopNumbers(root.insts));
      assert root.loopIdx in [root.loopIdx];
    } else {
      assert LoopNumbers([root]) == LoopNumbers(root.insts);
    }
  }

  /** No loop inside a loop carries its number. */
  lemma {:induction false} RootNumberOnce(root: Inst, path: Path)
    requires root.Loop? && Distinct(LoopNumbers([root]))
    requires path != [] && ValidPath(root, path) && NodeAt(root, path).Loop?
    ensures NodeAt(root, path).loopIdx != root.loopIdx
  {
    InnerDistinct(root);
    NumberListed(root.insts[path[0]], path[1..]);
    NumbersSplit(root.insts, path[0]);
  }

  lemma {:induction false} ChildDistinct(insts: seq<Inst>, i: nat)
    requires Distinct(LoopNumbers(insts)) && i < |insts|
    ensures Distinct(LoopNumbers([insts[i]]))
    ensures forall x :: !(x in LoopNumbers([insts[i]]) && x in LoopNumbers(insts[i + 1..]))
  {
    NumbersSplit(insts, i);
    var before, own, after := LoopNumbers(insts[..i]), LoopNumbers([insts[i]]), LoopNumbers(insts[i + 1..]);
    DistinctParts(before, own + after);
    DistinctParts(own, after);
  }

  lemma {:induction false} OneChildOnly(insts: seq<Inst>, i: nat, j: nat, x: int)
    requires Distinct(LoopNumbers(insts)) && i < j < |insts|
    ensures !(x in LoopNumbers([insts[i]]) && x in LoopNumbers([insts[j]]))
  {
    ChildDistinct(insts, i);
    NumbersSplit(insts[i + 1..], j - i - 1);
  }
}
