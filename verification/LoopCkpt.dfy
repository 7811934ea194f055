/** LoopCkptPass: which loops may leave out their own checkpoint.  The pass scans each body up to
    the first instruction that may take unboundedly long, and lists a loop when that instruction
    exists, since such an instruction carries a checkpoint of its own. */
module LoopCkpt {
  import opened WasmTree
  import SimpleFunc

  /** The instruction neither loops nor calls a function outside `simple`. */
  predicate Noinf1(inst: Inst, simple: set<int>) {
    match inst
    case Call(_) => CalleeIdx(inst) in simple
    case CallIndirect => CalleeIdx(inst) in simple
    case Loop(_, _) => false
    case Block(b) => Noinf(b, simple)
    case _ => true
  }

  predicate Noinf(insts: seq<Inst>, simple: set<int>) {
    insts == [] || (Noinf1(insts[0], simple) && Noinf(insts[1..], simple))
  }

  type Key = (int, int)

  /** The loops listed while scanning an instruction of function `f`. */
  function Skips1(f: int, inst: Inst, simple: set<int>): seq<Key> {
    match inst
    case Block(b) => Skips(f, b, simple)
    case Loop(i, b) => Skips(f, b, simple) + (if Noinf(b, simple) then [] else [(f, i)])
    case _ => []
  }

  /** The scan stops at the first instruction that may take unboundedly long. */
  function Skips(f: int, insts: seq<Inst>, simple: set<int>): seq<Key> {
    if insts == [] then []
    else Skips1(f, insts[0], simple) +
         (if Noinf1(insts[0], simple) then Skips(f, insts[1..], simple) else [])
  }

  function SkipList(p: Program, simple: set<int>): seq<Key> {
    if p == [] then []
    else Skips(p[0].funcIdx, p[0].block, simple) + SkipList(p[1..], simple)
  }

  // ------------------------------------------------------------------ the pass

  datatype Mark = Mark(noinf: bool, ckpt: bool)

  /** Every annotated node carries a checkpoint exactly when it may take unboundedly long. */
  function MarkOf(inst: Inst, simple: set<int>): Mark {
    Mark(Noinf1(inst, simple), !Noinf1(inst, simple))
  }

  lemma {:induction false} SkipsUnfold(f: int, insts: seq<Inst>, simple: set<int>, i: nat, done: seq<Key>)
    requires i < |insts|
    ensures Noinf1(insts[i], simple) ==>
      done + Skips(f, insts[i..], simple) == done + Skips1(f, insts[i], simple) + Skips(f, insts[i + 1..], simple)
    ensures !Noinf1(insts[i], simple) ==>
      done + Skips(f, insts[i..], simple) == done + Skips1(f, insts[i], simple)
    ensures Noinf(insts[i..], simple) == (Noinf1(insts[i], simple) && Noinf(insts[i + 1..], simple))
  {
    assert insts[i..][1..] == insts[i + 1..];
  }

  class Pass {
    const p: Program
    const simple: set<int>
    var data: map<NodeId, Mark>
    var results: seq<Key>
    var curFuncIdx: int

    ghost predicate Valid()
      reads this
    {
      forall id | id in data :: ValidNode(p, id) && data[id] == MarkOf(Node(p, id), simple)
    }

    constructor (p: Program, simple: set<int>)
      ensures this.p == p && this.simple == simple && data == map[] && results == [] && Valid()
    {
      this.p, this.simple := p, simple;
      data, results, curFuncIdx := map[], [], -1;
    }

    method Visit(f: nat, path: Path, inst: Inst)
      requires Valid() && ValidNode(p, TreeNode(f, path)) && Node(p, TreeNode(f, path)) == inst
      requires TreeNode(f, path) in data || Untouched(data.Keys, f, path)
      modifies this`data, this`results
      ensures Valid() && TreeNode(f, path) in data
      ensures Added(old(data.Keys), data.Keys, f, path)
      ensures results == old(results)
        + (if TreeNode(f, path) in old(data) then [] else Skips1(curFuncIdx, inst, simple))
      decreases inst, 2
    {
      if TreeNode(f, path) in data {
        return;
      }
      match inst {
        case Block(_) =>
          var mark := VisitBlock(f, path, inst);
          data := data[TreeNode(f, path) := mark];
        case Loop(_, _) => VisitLoop(f, path, inst);
        case Call(_) => VisitCall(f, path, inst);
        case CallIndirect => VisitCall(f, path, inst);
        case _ => data := data[TreeNode(f, path) := Mark(true, false)];
      }
    }

    method VisitCall(f: nat, path: Path, inst: Inst)
      requires Valid() && ValidNode(p, TreeNode(f, path)) && Node(p, TreeNode(f, path)) == inst
      requires inst.Call? || inst.CallIndirect?
      modifies this`data
      ensures Valid() && data.Keys == old(data.Keys) + {TreeNode(f, path)}
    {
      if CalleeIdx(inst) in simple {
        data := data[TreeNode(f, path) := Mark(true, false)];
      } else {
        data := data[TreeNode(f, path) := Mark(false, true)];
      }
    }

    /** The scan shared by blocks and loops; the caller stores the mark. */
    method VisitBlock(f: nat, path: Path, inst: Inst) returns (mark: Mark)
      requires Valid() && ValidNode(p, TreeNode(f, path)) && Node(p, TreeNode(f, path)) == inst
      requires inst.IsNested() && Untouched(data.Keys, f, path)
      modifies this`data, this`results
      ensures Valid() && TreeNode(f, path) !in data
      ensures Added(old(data.Keys), data.Keys + {TreeNode(f, path)}, f, path)
      ensures mark == Mark(Noinf(inst.insts, simple), !Noinf(inst.insts, simple))
      ensures results == old(results) + Skips(curFuncIdx, inst.insts, simple)
      decreases inst, 0
    {
      var noinf, ckpt := true, false;
      var i := 0;
      assert inst.insts[0..] == inst.insts;
      while i < |inst.insts|
        invariant 0 <= i <= |inst.insts|
        invariant Valid() && noinf && !ckpt
        invariant AddedChildren(old(data.Keys), data.Keys, f, path, i)
        invariant Noinf(inst.insts, simple) == Noinf(inst.insts[i..], simple)
        invariant old(results) + Skips(curFuncIdx, inst.insts, simple)
          == results + Skips(curFuncIdx, inst.insts[i..], simple)
      {
        ChildPath(Root(p[f]), path, i);
        NextChildUntouched(old(data.Keys), data.Keys, f, path, i);
        ghost var mid, before := data.Keys, results;
        assert Below(TreeNode(f, path + [i]), f, path + [i]);
        Visit(f, path + [i], inst.insts[i]);
        ChildAdded(old(data.Keys), mid, data.Keys, f, path, i);
        SkipsUnfold(curFuncIdx, inst.insts, simple, i, before);
        ckpt := ckpt || data[TreeNode(f, path + [i])].ckpt;
        i := i + 1;
        if !data[TreeNode(f, path + [i - 1])].noinf {
          noinf := false;
          break;
        }
      }
      NextChildUntouched(old(data.Keys), data.Keys, f, path, i);
      mark := Mark(noinf, ckpt);
    }

    /** A loop is listed when its scan met a checkpoint; the loop itself counts as one. */
    method VisitLoop(f: nat, path: Path, inst: Inst)
      requires Valid() && ValidNode(p, TreeNode(f, path)) && Node(p, TreeNode(f, path)) == inst
      requires inst.Loop? && Untouched(data.Keys, f, path)
      modifies this`data, this`results
      ensures Valid() && TreeNode(f, path) in data
      ensures Added(old(data.Keys), data.Keys, f, path)
      ensures results == old(results) + Skips1(curFuncIdx, inst, simple)
      decreases inst, 1
    {
      var mark := VisitBlock(f, path, inst);
      data := data[TreeNode(f, path) := Mark(false, true)];
      if mark.ckpt {
        results := results + [(curFuncIdx, inst.loopIdx)];
        assert results == old(results) + (Skips(curFuncIdx, inst.insts, simple) + [(curFuncIdx, inst.loopIdx)]);
      } else {
        assert Skips1(curFuncIdx, inst, simple) == Skips(curFuncIdx, inst.insts, simple);
      }
    }

    method VisitFunc(f: nat)
      requires Valid() && f < |p| && Untouched(data.Keys, f, [])
      modifies this
      ensures Valid() && data.Keys >= old(data.Keys)
      ensures forall id | id in data && id !in old(data) :: id.f == f
      ensures results == old(results) + Skips(p[f].funcIdx, p[f].block, simple)
    {
      curFuncIdx := p[f].funcIdx;
      assert Below(TreeNode(f, []), f, []);
      Visit(f, [], Root(p[f]));
      forall id | id in data && id !in old(data)
        ensures id.f == f
      {
        assert Below(id, f, []);
      }
    }
  }

  /** The whole pass over a program. */
  method Run(p: Program, simple: set<int>) returns (results: seq<Key>)
    ensures results == SkipList(p, simple)
  {
    var pass := new Pass(p, simple);
    var f := 0;
    assert p[0..] == p;
    while f < |p|
      invariant 0 <= f <= |p|
      invariant pass.p == p && pass.simple == simple && pass.Valid() && fresh(pass)
      invariant forall id | id in pass.data :: id.f < f
      invariant SkipList(p, simple) == pass.results + SkipList(p[f..], simple)
    {
      pass.VisitFunc(f);
      assert p[f..][1..] == p[f + 1..];
      f := f + 1;
    }
    results := pass.results;
  }

  // ------------------------------------------------------------------ what the list means

  /** The scan gets to the node at `path`: nothing before it, at any level, may take unboundedly
      long. */
  ghost predicate Scanned(root: Inst, path: Path, simple: set<int>) {
    path == [] ||
    (root.IsNested() && path[0] < |root.insts| &&
     Noinf(root.insts[..path[0]], simple) && Scanned(root.insts[path[0]], path[1..], simple))
  }

  /** A loop that the scan gets to and whose body holds something unbounded. */
  ghost predicate Skippable(f: int, root: Inst, path: Path, simple: set<int>, key: Key) {
    && Scanned(root, path, simple) && ValidPath(root, path)
    && var loop := NodeAt(root, path);
       loop.Loop? && key == (f, loop.loopIdx) && !Noinf(loop.insts, simple)
  }

  /** The list holds exactly the keys of the loops the scan gets to whose bodies hold a loop or a
      call of a non-simple function. */
  lemma {:induction false} SkipsExact(f: int, root: Inst, simple: set<int>, key: Key)
    ensures key in Skips1(f, root, simple) <==> exists path: Path :: Skippable(f, root, path, simple, key)
  {
    if key in Skips1(f, root, simple) {
      var path := SkippedPath(f, root, simple, key);
    }
    forall path: Path | Skippable(f, root, path, simple, key)
      ensures key in Skips1(f, root, simple)
    {
      PathSkipped(f, root, path, simple, key);
    }
  }

  lemma {:induction false} SkippedPath(f: int, root: Inst, simple: set<int>, key: Key) returns (path: Path)
    requires key in Skips1(f, root, simple)
    ensures Skippable(f, root, path, simple, key)
    decreases root
  {
    if root.Loop? && key == (f, root.loopIdx) && !Noinf(root.insts, simple) {
      path := [];
    } else {
      var i := SkippedChild(f, root.insts, simple, key);
      var rest := SkippedPath(f, root.insts[i], simple, key);
      path := [i] + rest;
      assert path[1..] == rest;
    }
  }

  lemma {:induction false} SkippedChild(f: int, insts: seq<Inst>, simple: set<int>, key: Key) returns (i: nat)
    requires key in Skips(f, insts, simple)
    ensures i < |insts| && Noinf(insts[..i], simple) && key in Skips1(f, insts[i], simple)
  {
    if key in Skips1(f, insts[0], simple) {
      i := 0;
    } else {
      i := SkippedChild(f, insts[1..], simple, key);
      assert insts[..i + 1][1..] == insts[1..][..i];
      i := i + 1;
    }
  }

  lemma {:induction false} PathSkipped(f: int, root: Inst, path: Path, simple: set<int>, key: Key)
    requires Skippable(f, root, path, simple, key)
    ensures key in Skips1(f, root, simple)
    decreases path
  {
    if path == [] {
    } else {
      PathSkipped(f, root.insts[path[0]], path[1..], simple, key);
      ChildSkipped(f, root.insts, path[0], simple, key);
    }
  }

  lemma {:induction false} ChildSkipped(f: int, insts: seq<Inst>, i: nat, simple: set<int>, key: Key)
    requires i < |insts| && Noinf(insts[..i], simple) && key in Skips1(f, insts[i], simple)
    ensures key in Skips(f, insts, simple)
  {
    if i == 0 {
    } else {
      assert insts[..i][1..] == insts[1..][..i - 1];
      assert Noinf1(insts[..i][0], simple);
      ChildSkipped(f, insts[1..], i - 1, simple, key);
    }
  }

  /** The first instruction of a body that may take unboundedly long. */
  lemma {:induction false} FirstUnbounded(insts: seq<Inst>, simple: set<int>) returns (i: nat)
    requires !Noinf(insts, simple)
    ensures i < |insts| && Noinf(insts[..i], simple) && !Noinf1(insts[i], simple)
  {
    if !Noinf1(insts[0], simple) {
      i := 0;
    } else {
      i := FirstUnbounded(insts[1..], simple);
      assert insts[..i + 1][1..] == insts[1..][..i];
      i := i + 1;
    }
  }

  /** A loop, or a call of a function outside `simple`. */
  predicate Unbounded(inst: Inst, simple: set<int>) {
    inst.Loop? || ((inst.Call? || inst.CallIndirect?) && CalleeIdx(inst) !in simple)
  }

  ghost predicate UnboundedAt(root: Inst, path: Path, simple: set<int>) {
    ValidPath(root, path) && Unbounded(NodeAt(root, path), simple)
  }

  /** An instruction may take unboundedly long exactly if some node of it is a loop or a call of a
      non-simple function. */
  lemma {:induction false} NoinfExact(root: Inst, simple: set<int>)
    ensures Noinf1(root, simple) <==> !exists path: Path :: UnboundedAt(root, path, simple)
  {
    if Noinf1(root, simple) {
      forall path: Path | ValidPath(root, path)
        ensures !Unbounded(NodeAt(root, path), simple)
      {
        BoundedEverywhere(root, path, simple);
      }
    } else {
      var path := UnboundedHoldsCarrier(root, simple);
      assert UnboundedAt(root, path, simple);
    }
  }

  lemma {:induction false} BoundedEverywhere(root: Inst, path: Path, simple: set<int>)
    requires Noinf1(root, simple) && ValidPath(root, path)
    ensures !Unbounded(NodeAt(root, path), simple)
    decreases path
  {
    if path == [] {
    } else {
      NoinfMember(root.insts, path[0], simple);
      BoundedEverywhere(root.insts[path[0]], path[1..], simple);
    }
  }

  lemma {:induction false} NoinfMember(insts: seq<Inst>, i: nat, simple: set<int>)
    requires Noinf(insts, simple) && i < |insts|
    ensures Noinf1(insts[i], simple)
  {
    if i == 0 {
    } else {
      NoinfMember(insts[1..], i - 1, simple);
    }
  }

  lemma {:induction false} NoinfAll(insts: seq<Inst>, simple: set<int>)
    ensures Noinf(insts, simple) <==> forall i :: 0 <= i < |insts| ==> Noinf1(insts[i], simple)
  {
    if insts == [] {
    } else {
      NoinfAll(insts[1..], simple);
      assert forall i :: 0 < i < |insts| ==> insts[i] == insts[1..][i - 1];
    }
  }

  /** On the way to the node nothing unbounded comes before it. */
  ghost predicate Unhindered(root: Inst, path: Path, simple: set<int>)
    requires ValidPath(root, path)
    decreases path
  {
    path == [] ||
    ((forall i :: 0 <= i < path[0] ==> !exists at: Path :: UnboundedAt(root.insts[i], at, simple))
     && Unhindered(root.insts[path[0]], path[1..], simple))
  }

  /** The scan gets to exactly the nodes that nothing unbounded comes before, at any level. */
  lemma {:induction false} ScannedExact(root: Inst, path: Path, simple: set<int>)
    requires ValidPath(root, path)
    ensures Scanned(root, path, simple) <==> Unhindered(root, path, simple)
    decreases path
  {
    if path == [] {
    } else {
      var before := root.insts[..path[0]];
      NoinfAll(before, simple);
      forall i | 0 <= i < path[0]
        ensures Noinf1(before[i], simple) <==> !exists at: Path :: UnboundedAt(root.insts[i], at, simple)
      {
        NoinfExact(root.insts[i], simple);
      }
      ScannedExact(root.insts[path[0]], path[1..], simple);
    }
  }

  // ------------------------------------------------------------------ each loop at most once

  lemma {:induction false} TaggedParts(f: int, a: seq<int>, b: seq<int>)
    ensures multiset(Tagged(f, a + b)) == multiset(Tagged(f, a)) + multiset(Tagged(f, b))
  {
    assert Tagged(f, a + b) == Tagged(f, a) + Tagged(f, b);
  }

  lemma {:induction false} OneListedOnce(f: int, inst: Inst, simple: set<int>)
    ensures multiset(Skips1(f, inst, simple)) <= multiset(Tagged(f, LoopNumbers([inst])))
    decreases inst
  {
    assert [inst][1..] == [] && LoopNumbers([]) == [];
    if inst.Block? {
      BodyListedOnce(f, inst.insts, simple);
      assert LoopNumbers([inst]) == LoopNumbers(inst.insts);
    } else if inst.Loop? {
      BodyListedOnce(f, inst.insts, simple);
      assert LoopNumbers([inst]) == [inst.loopIdx] + LoopNumbers(inst.insts);
      TaggedParts(f, [inst.loopIdx], LoopNumbers(inst.insts));
      assert Tagged(f, [inst.loopIdx]) == [(f, inst.loopIdx)];
    }
  }

  lemma {:induction false} BodyListedOnce(f: int, insts: seq<Inst>, simple: set<int>)
    ensures multiset(Skips(f, insts, simple)) <= multiset(Tagged(f, LoopNumbers(insts)))
    decreases insts
  {
    if insts == [] {
    } else {
      OneListedOnce(f, insts[0], simple);
      BodyListedOnce(f, insts[1..], simple);
      LoopNumbersCons(insts);
      TaggedParts(f, LoopNumbers([insts[0]]), LoopNumbers(insts[1..]));
    }
  }

  /** No loop is listed more often than the program has it. */
  lemma {:induction false} ListedOnce(p: Program, simple: set<int>)
    ensures multiset(SkipList(p, simple)) <= multiset(LoopKeys(p))
  {
    if p == [] {
    } else {
      BodyListedOnce(p[0].funcIdx, p[0].block, simple);
      ListedOnce(p[1..], simple);
    }
  }

  /** What keeps a skipped loop checkpointed: a call of a non-simple function, or a loop that is
      scanned and not skippable itself. */
  ghost predicate Carrier(root: Inst, path: Path, simple: set<int>) {
    && Scanned(root, path, simple) && ValidPath(root, path)
    && var inst := NodeAt(root, path);
       || ((inst.Call? || inst.CallIndirect?) && CalleeIdx(inst) !in simple)
       || (inst.Loop? && Noinf(inst.insts, simple))
  }

  /** Every instruction that may take unboundedly long holds a carrier at some depth. */
  lemma {:induction false} UnboundedHoldsCarrier(root: Inst, simple: set<int>) returns (path: Path)
    requires !Noinf1(root, simple)
    ensures Carrier(root, path, simple)
    decreases root
  {
    if root.IsNested() && !Noinf(root.insts, simple) {
      var i := FirstUnbounded(root.insts, simple);
      var rest := UnboundedHoldsCarrier(root.insts[i], simple);
      path := [i] + rest;
      assert path[1..] == rest;
    } else {
      path := [];
    }
  }

  lemma {:induction false} ScannedConcat(root: Inst, path: Path, more: Path, simple: set<int>)
    requires Scanned(root, path, simple) && ValidPath(root, path)
    requires Scanned(NodeAt(root, path), more, simple)
    ensures Scanned(root, path + more, simple)
    decreases path
  {
    if path == [] {
      assert path + more == more;
    } else {
      ScannedConcat(root.insts[path[0]], path[1..], more, simple);
      assert (path + more)[1..] == path[1..] + more;
    }
  }

  /** Every skipped loop contains a call of a non-simple function or a loop that is not skippable,
      and the scan of the whole function gets to it. */
  lemma {:induction false} SkippedLoopHoldsCarrier(f: int, root: Inst, simple: set<int>, key: Key)
      returns (path: Path, more: Path)
    requires key in Skips1(f, root, simple)
    ensures Skippable(f, root, path, simple, key)
    ensures more != [] && Carrier(root, path + more, simple)
  {
    path := SkippedPath(f, root, simple, key);
    var loop := NodeAt(root, path);
    var i := FirstUnbounded(loop.insts, simple);
    var rest := UnboundedHoldsCarrier(loop.insts[i], simple);
    more := [i] + rest;
    assert more[1..] == rest;
    ScannedConcat(root, path, more, simple);
    PathConcat(root, path, more);
  }

  /** A loop that the scan gets to and that is not listed has a body without loops and without
      calls of non-simple functions. */
  lemma {:induction false} UnlistedLoopIsBounded(f: int, root: Inst, path: Path, simple: set<int>)
    requires Scanned(root, path, simple) && ValidPath(root, path) && NodeAt(root, path).Loop?
    requires (f, NodeAt(root, path).loopIdx) !in Skips1(f, root, simple)
    ensures Noinf(NodeAt(root, path).insts, simple)
  {
    if !Noinf(NodeAt(root, path).insts, simple) {
      PathSkipped(f, root, path, simple, (f, NodeAt(root, path).loopIdx));
      assert false;
    }
  }
}
