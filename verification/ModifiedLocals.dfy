/** ModifiedLocalsPass: which locals a loop may assign.  The pass annotates nodes bottom-up and
    reports a set for every loop. */
module ModifiedLocals {
  import opened Basics
  import opened WasmTree
  import opened Semantics

  /** The locals assigned somewhere in an instruction. */
  function Modified1(inst: Inst): set<int> {
    match inst
    case LocalSet(i) => {i}
    case LocalTee(i) => {i}
    case Block(b) => Modified(b)
    case Loop(_, b) => Modified(b)
    case _ => {}
  }

  function Modified(insts: seq<Inst>): set<int> {
    if insts == [] then {} else Modified1(insts[0]) + Modified(insts[1..])
  }

  /** A loop of a function with the locals it may assign. */
  datatype Report = Report(funcIdx: int, loopIdx: int, locals: set<int>)

  /** The loops of an instruction of function `f` with their sets, inner loops first. */
  function Reports1(f: int, inst: Inst): seq<Report> {
    match inst
    case Block(b) => Reports(f, b)
    case Loop(i, b) => Reports(f, b) + [Report(f, i, Modified(b))]
    case _ => []
  }

  function Reports(f: int, insts: seq<Inst>): seq<Report> {
    if insts == [] then [] else Reports1(f, insts[0]) + Reports(f, insts[1..])
  }

  function ProgramReports(p: Program): seq<Report> {
    if p == [] then [] else Reports(p[0].funcIdx, p[0].block) + ProgramReports(p[1..])
  }

  lemma {:induction false} ReportsUnfold(f: int, insts: seq<Inst>, i: nat, done: seq<Report>)
    requires i < |insts|
    ensures done + Reports(f, insts[i..]) == done + Reports1(f, insts[i]) + Reports(f, insts[i + 1..])
    ensures Modified(insts[i..]) == Modified1(insts[i]) + Modified(insts[i + 1..])
  {
    assert insts[i..][1..] == insts[i + 1..];
  }

  // ------------------------------------------------------------------ the pass

  class Pass {
    const p: Program
    var data: map<NodeId, set<int>>
    var results: seq<Report>
    var curFuncIdx: int

    ghost predicate Valid()
      reads this
    {
      forall id | id in data :: ValidNode(p, id) && data[id] == Modified1(Node(p, id))
    }

    constructor (p: Program)
      ensures this.p == p && data == map[] && results == [] && Valid()
    {
      this.p := p;
      data, results, curFuncIdx := map[], [], -1;
    }

    method Visit(f: nat, path: Path, inst: Inst)
      requires Valid() && ValidNode(p, TreeNode(f, path)) && Node(p, TreeNode(f, path)) == inst
      requires TreeNode(f, path) in data || Untouched(data.Keys, f, path)
      modifies this`data, this`results
      ensures Valid() && TreeNode(f, path) in data
      ensures Added(old(data.Keys), data.Keys, f, path)
      ensures results == old(results)
        + (if TreeNode(f, path) in old(data) then [] else Reports1(curFuncIdx, inst))
      decreases inst, 1
    {
      if TreeNode(f, path) in data {
        return;
      }
      if inst.IsNested() {
        VisitBlock(f, path, inst);
      } else if inst.LocalSet? || inst.LocalTee? {
        data := data[TreeNode(f, path) := {inst.local}];
      } else {
        data := data[TreeNode(f, path) := {}];
      }
    }

    method VisitBlock(f: nat, path: Path, inst: Inst)
      requires Valid() && ValidNode(p, TreeNode(f, path)) && Node(p, TreeNode(f, path)) == inst
      requires inst.IsNested() && Untouched(data.Keys, f, path)
      modifies this`data, this`results
      ensures Valid() && TreeNode(f, path) in data
      ensures Added(old(data.Keys), data.Keys, f, path)
      ensures results == old(results) + Reports1(curFuncIdx, inst)
      decreases inst, 0
    {
      var modified: set<int> := {};
      var i := 0;
      ghost var start, listed := data.Keys, results;
      assert inst.insts[0..] == inst.insts;
      while i < |inst.insts|
        invariant 0 <= i <= |inst.insts|
        invariant Valid()
        invariant AddedChildren(start, data.Keys, f, path, i)
        invariant Modified(inst.insts) == modified + Modified(inst.insts[i..])
        invariant listed + Reports(curFuncIdx, inst.insts) == results + Reports(curFuncIdx, inst.insts[i..])
      {
        ChildPath(Root(p[f]), path, i);
        NextChildUntouched(start, data.Keys, f, path, i);
        ghost var mid, before := data.Keys, results;
        assert Below(TreeNode(f, path + [i]), f, path + [i]);
        Visit(f, path + [i], inst.insts[i]);
        ChildAdded(start, mid, data.Keys, f, path, i);
        ReportsUnfold(curFuncIdx, inst.insts, i, before);
        modified := modified + data[TreeNode(f, path + [i])];
        i := i + 1;
      }
      assert results == listed + Reports(curFuncIdx, inst.insts) by {
        assert inst.insts[i..] == [];
      }
      data := data[TreeNode(f, path) := modified];
      if inst.Loop? {
        results := results + [Report(curFuncIdx, inst.loopIdx, modified)];
        assert results == listed + (Reports(curFuncIdx, inst.insts) + [Report(curFuncIdx, inst.loopIdx, modified)]);
      }
    }

    method VisitFunc(f: nat)
      requires Valid() && f < |p| && Untouched(data.Keys, f, []) && FuncNode(f) !in data
      modifies this
      ensures Valid() && FuncNode(f) in data && data.Keys >= old(data.Keys)
      ensures forall id | id in data && id !in old(data) :: id.f == f
      ensures results == old(results) + Reports(p[f].funcIdx, p[f].block)
    {
      curFuncIdx := p[f].funcIdx;
      assert Below(TreeNode(f, []), f, []);
      Visit(f, [], Root(p[f]));
      data := data[FuncNode(f) := data[TreeNode(f, [])]];
      forall id | id in data && id !in old(data)
        ensures id.f == f
      {
        assert id == FuncNode(f) || Below(id, f, []);
      }
    }
  }

  /** The whole pass over a program. */
  method Run(p: Program) returns (results: seq<Report>)
    ensures results == ProgramReports(p)
  {
    var pass := new Pass(p);
    var f := 0;
    assert p[0..] == p;
    while f < |p|
      invariant 0 <= f <= |p|
      invariant pass.p == p && pass.Valid() && fresh(pass)
      invariant forall id | id in pass.data :: id.f < f
      invariant ProgramReports(p) == pass.results + ProgramReports(p[f..])
    {
      pass.VisitFunc(f);
      assert p[f..][1..] == p[f + 1..];
      f := f + 1;
    }
    results := pass.results;
  }

  // ------------------------------------------------------------------ what a report lists

  lemma {:induction false} ModifiedMember(insts: seq<Inst>, i: nat)
    requires i < |insts|
    ensures Modified1(insts[i]) <= Modified(insts)
  {
    if i == 0 {
    } else {
      ModifiedMember(insts[1..], i - 1);
    }
  }

  /** A node assigns no local that the node around it does not: an inner loop's set lies in the
      set of every loop around it. */
  lemma {:induction false} InnerWithinOuter(root: Inst, path: Path)
    requires ValidPath(root, path)
    ensures Modified1(NodeAt(root, path)) <= Modified1(root)
  {
    if path == [] {
    } else {
      ModifiedMember(root.insts, path[0]);
      InnerWithinOuter(root.insts[path[0]], path[1..]);
    }
  }

  /** The (function, loop) pairs that are reported. */
  function ReportKeys(rs: seq<Report>): seq<(int, int)> {
    if rs == [] then [] else [(rs[0].funcIdx, rs[0].loopIdx)] + ReportKeys(rs[1..])
  }

  lemma {:induction false} ReportKeysConcat(a: seq<Report>, b: seq<Report>)
    ensures ReportKeys(a + b) == ReportKeys(a) + ReportKeys(b)
  {
    if a == [] {
      assert a + b == b;
    } else {
      assert (a + b)[1..] == a[1..] + b;
      ReportKeysConcat(a[1..], b);
    }
  }

  lemma {:induction false} TaggedConcat(f: int, a: seq<int>, b: seq<int>)
    ensures Tagged(f, a + b) == Tagged(f, a) + Tagged(f, b)
  {
  }

  lemma {:induction false} OneReportedOnce(f: int, inst: Inst)
    ensures multiset(ReportKeys(Reports1(f, inst))) == multiset(Tagged(f, LoopNumbers([inst])))
    decreases inst
  {
    assert [inst][1..] == [] && LoopNumbers([]) == [];
    if inst.Block? {
      BodyReportedOnce(f, inst.insts);
      assert LoopNumbers([inst]) == LoopNumbers(inst.insts);
    } else if inst.Loop? {
      BodyReportedOnce(f, inst.insts);
      assert LoopNumbers([inst]) == [inst.loopIdx] + LoopNumbers(inst.insts);
      TaggedConcat(f, [inst.loopIdx], LoopNumbers(inst.insts));
      ReportKeysConcat(Reports(f, inst.insts), [Report(f, inst.loopIdx, Modified(inst.insts))]);
      assert ReportKeys([Report(f, inst.loopIdx, Modified(inst.insts))]) == Tagged(f, [inst.loopIdx]);
    } else {
      assert Reports1(f, inst) == [] && LoopNumbers([inst]) == [];
    }
  }

  /** Every loop of a body is reported exactly once. */
  lemma {:induction false} BodyReportedOnce(f: int, insts: seq<Inst>)
    ensures multiset(ReportKeys(Reports(f, insts))) == multiset(Tagged(f, LoopNumbers(insts)))
    decreases insts
  {
    if insts == [] {
    } else {
      OneReportedOnce(f, insts[0]);
      BodyReportedOnce(f, insts[1..]);
      ReportKeysConcat(Reports1(f, insts[0]), Reports(f, insts[1..]));
      LoopNumbersCons(insts);
      TaggedConcat(f, LoopNumbers([insts[0]]), LoopNumbers(insts[1..]));
    }
  }

  /** Every loop of the program is reported exactly once. */
  lemma {:induction false} ReportedOnce(p: Program)
    ensures multiset(ReportKeys(ProgramReports(p))) == multiset(LoopKeys(p))
  {
    if p == [] {
    } else {
      BodyReportedOnce(p[0].funcIdx, p[0].block);
      ReportedOnce(p[1..]);
      ReportKeysConcat(Reports(p[0].funcIdx, p[0].block), ProgramReports(p[1..]));
    }
  }

  predicate ReportOf(f: int, inst: Inst, r: Report) {
    inst.Loop? && r == Report(f, inst.loopIdx, Modified(inst.insts))
  }

  ghost predicate ReportAt(f: int, root: Inst, path: Path, r: Report) {
    ValidPath(root, path) && ReportOf(f, NodeAt(root, path), r)
  }

  /** What is reported of a loop is the set of locals its body assigns, and every loop is there. */
  lemma {:induction false} ReportsExact(f: int, root: Inst, r: Report)
    ensures r in Reports1(f, root) <==> exists path: Path :: ReportAt(f, root, path, r)
  {
    if r in Reports1(f, root) {
      var path := ReportedPath(f, root, r);
    }
    forall path: Path | ReportAt(f, root, path, r)
      ensures r in Reports1(f, root)
    {
      PathReported(f, root, path, r);
    }
  }

  lemma {:induction false} ReportedPath(f: int, root: Inst, r: Report) returns (path: Path)
    requires r in Reports1(f, root)
    ensures ReportAt(f, root, path, r)
    decreases root
  {
    if ReportOf(f, root, r) {
      path := [];
    } else {
      var i := ReportedChild(f, root.insts, r);
      var rest := ReportedPath(f, root.insts[i], r);
      path := [i] + rest;
      assert path[1..] == rest;
    }
  }

  lemma {:induction false} ReportedChild(f: int, insts: seq<Inst>, r: Report) returns (i: nat)
    requires r in Reports(f, insts)
    ensures i < |insts| && r in Reports1(f, insts[i])
  {
    if r in Reports1(f, insts[0]) {
      i := 0;
    } else {
      i := ReportedChild(f, insts[1..], r);
      i := i + 1;
    }
  }

  lemma {:induction false} PathReported(f: int, root: Inst, path: Path, r: Report)
    requires ReportAt(f, root, path, r)
    ensures r in Reports1(f, root)
    decreases path
  {
    if path == [] {
    } else {
      PathReported(f, root.insts[path[0]], path[1..], r);
      ChildReported(f, root.insts, path[0], r);
    }
  }

  lemma {:induction false} ChildReported(f: int, insts: seq<Inst>, i: nat, r: Report)
    requires i < |insts| && r in Reports1(f, insts[i])
    ensures r in Reports(f, insts)
  {
    if i == 0 {
    } else {
      ChildReported(f, insts[1..], i - 1, r);
    }
  }

  predicate Assigns(inst: Inst, x: int) { inst == LocalSet(x) || inst == LocalTee(x) }

  ghost predicate AssignsAt(root: Inst, path: Path, x: int) {
    ValidPath(root, path) && Assigns(NodeAt(root, path), x)
  }

  /** A local is in the set of a node exactly if some node below it assigns that local. */
  lemma {:induction false} ModifiedExact(root: Inst, x: int)
    ensures x in Modified1(root) <==> exists path: Path :: AssignsAt(root, path, x)
  {
    if x in Modified1(root) {
      var path := AssigningPath(root, x);
    }
    forall path: Path | AssignsAt(root, path, x)
      ensures x in Modified1(root)
    {
      InnerWithinOuter(root, path);
    }
  }

  /** Code starts with an assignment of a local exactly if one step can put either of two values into
      that local and leave all others as they were. */
  lemma {:induction false} AssignmentExact(p: Program, s: State, x: int, v: int)
    requires s != [] && s[|s| - 1].code != []
    ensures Assigns(s[|s| - 1].code[0], x) <==>
      exists c: Choice :: Sets(p, s, c, x, v) && Sets(p, s, c.(value := v + 1), x, v + 1)
  {
    var fr := s[|s| - 1];
    if Assigns(fr.code[0], x) {
      var c := Choice(false, 0, 0, v, map[]);
      assert Sets(p, s, c, x, v) && Sets(p, s, c.(value := v + 1), x, v + 1);
    }
    forall c: Choice | Sets(p, s, c, x, v) && Sets(p, s, c.(value := v + 1), x, v + 1)
      ensures Assigns(fr.code[0], x)
    {
      SetsOnly(p, s, c, x, v);
      SetsOnly(p, s, c.(value := v + 1), x, v + 1);
      assert fr.locals[x := v][x] == v && fr.locals[x := v + 1][x] == v + 1;
    }
  }

  lemma {:induction false} SetsOnly(p: Program, s: State, c: Choice, x: int, v: int)
    requires s != [] && s[|s| - 1].code != [] && Sets(p, s, c, x, v)
    ensures var fr := s[|s| - 1];
      fr.locals[x := v]
      == (match fr.code[0]
          case LocalSet(y) => fr.locals[y := c.value]
          case LocalTee(y) => fr.locals[y := c.value]
          case _ => fr.locals)
  {
    var fr, s' := s[|s| - 1], Next(p, s, c).value;
    assert |s'| == |s| && s'[|s| - 1].locals == fr.locals[x := v];
    assert fr.code[0].Call? || fr.code[0].CallIndirect? ==> s'[|s| - 1].locals == fr.locals;
  }

  /** The step goes on behind the innermost instruction, with `v` in local `x` and the other locals as
      they were. */
  ghost predicate Sets(p: Program, s: State, c: Choice, x: int, v: int)
    requires s != [] && s[|s| - 1].code != []
  {
    var base, fr := s[..|s| - 1], s[|s| - 1];
    Next(p, s, c) == Some(base + [fr.(code := fr.code[1..], locals := fr.locals[x := v])])
  }

  lemma {:induction false} AssigningPath(root: Inst, x: int) returns (path: Path)
    requires x in Modified1(root)
    ensures AssignsAt(root, path, x)
    decreases root
  {
    if root.IsNested() {
      var i := AssigningChild(root.insts, x);
      var rest := AssigningPath(root.insts[i], x);
      path := [i] + rest;
      assert path[1..] == rest;
    } else {
      path := [];
    }
  }

  lemma {:induction false} AssigningChild(insts: seq<Inst>, x: int) returns (i: nat)
    requires x in Modified(insts)
    ensures i < |insts| && x in Modified1(insts[i])
  {
    if x in Modified1(insts[0]) {
      i := 0;
    } else {
      i := AssigningChild(insts[1..], x);
      i := i + 1;
    }
  }

  // ------------------------------------------------------------------ soundness over runs

  predicate SameAt(a: map<int, int>, b: map<int, int>, x: int) {
    (x in a <==> x in b) && (x in a ==> a[x] == b[x])
  }

  /** All code that activation `fr` may still execute inside label `j` assigns only locals of `m`. */
  ghost predicate Confined(fr: Frame, j: nat, m: set<int>) {
    && Modified(fr.code) <= m
    && (forall i :: j < i < |fr.labels| ==> Modified(fr.labels[i].rest) <= m)
    && (forall i :: j <= i < |fr.labels| && fr.labels[i].LoopLabel? ==> Modified(fr.labels[i].body) <= m)
  }

  lemma {:induction false} EndConfined(fr: Frame, j: nat, m: set<int>)
    requires j < |fr.labels| && Confined(fr, j, m)
    ensures var n := |fr.labels|;
      j < n - 1 ==> Confined(fr.(code := fr.labels[n - 1].rest, labels := fr.labels[..n - 1]), j, m)
  {
  }

  lemma {:induction false} NestedConfined(fr: Frame, lab: Label, j: nat, m: set<int>)
    requires j < |fr.labels| && Confined(fr, j, m) && fr.code != [] && fr.code[0].IsNested()
    requires lab.rest == fr.code[1..] && (lab.LoopLabel? ==> lab.body == fr.code[0].insts)
    ensures Confined(fr.(code := fr.code[0].insts, labels := fr.labels + [lab]), j, m)
  {
    assert Modified(fr.code) == Modified1(fr.code[0]) + Modified(fr.code[1..]);
  }

  lemma {:induction false} NextConfined(fr: Frame, locals: map<int, int>, j: nat, m: set<int>)
    requires j < |fr.labels| && Confined(fr, j, m) && fr.code != []
    ensures Confined(fr.(code := fr.code[1..], locals := locals), j, m) && Modified1(fr.code[0]) <= m
  {
    assert Modified(fr.code) == Modified1(fr.code[0]) + Modified(fr.code[1..]);
  }

  /** One step inside the loop stays confined and changes no other local of the activation; a step
      that leaves the loop changes no local at all. */
  lemma {:induction false} ConfinedStep(p: Program, s: State, c: Choice, s': State, k: nat, j: nat, m: set<int>)
    requires Next(p, s, c) == Some(s') && Active(s, k, j) && Confined(s[k], j, m) && k < |s'|
    ensures Active(s', k, j) ==> Confined(s'[k], j, m)
    ensures forall x :: x !in m ==> SameAt(s[k].locals, s'[k].locals, x)
  {
    if |s| > k + 1 {
      assert s'[k] == s[k];
    } else {
      var fr, n := s[k], |s[k].labels|;
      if fr.code == [] {
        EndConfined(fr, j, m);
      } else if BranchDepth(fr, c).Some? {
        assert s'[k] == Jump(fr, BranchDepth(fr, c).value);
      } else if fr.code[0].IsNested() {
        NestedConfined(fr, s'[k].labels[n], j, m);
      } else {
        NextConfined(fr, s'[k].locals, j, m);
      }
    }
  }

  /** For every run that starts at a loop header and stays in the loop up to its last step, the
      only locals of that activation that can differ, at any point inside the loop or right after
      leaving it, are those the pass reports for the loop. */
  lemma {:induction false} ModifiedLocalsSound(p: Program, run: seq<State>, cs: seq<Choice>, k: nat, j: nat, t: nat)
    requires IsRun(p, run, cs) && AtHeader(run[0], k, j)
    requires t < |run| && k < |run[t]|
    requires forall u :: 0 <= u < t ==> Active(run[u], k, j)
    ensures forall x :: x !in Modified(run[0][k].labels[j].body) ==>
      SameAt(run[0][k].locals, run[t][k].locals, x)
    ensures Active(run[t], k, j) ==> Confined(run[t][k], j, Modified(run[0][k].labels[j].body))
  {
    if t == 0 {
    } else {
      ModifiedLocalsSound(p, run, cs, k, j, t - 1);
      assert Next(p, run[t - 1], cs[t - 1]) == Some(run[t]);
      ConfinedStep(p, run[t - 1], cs[t - 1], run[t], k, j, Modified(run[0][k].labels[j].body));
    }
  }
}
