/** The tree that the checkpoint-placement analysis works on: functions, blocks, loops, calls,
    branches and local assignments.  Every other WebAssembly instruction is dropped before the
    tree is built.  Branch depths are kept here because the meaning of a program needs them. */
module WasmTree {

  datatype Inst =
    | Br(depth: nat)
    | BrIf(depth: nat)
    | BrTable
    | Return
    | Call(callee: int)
    | CallIndirect
    | LocalSet(local: int)
    | LocalTee(local: int)
    | Block(insts: seq<Inst>)
    | Loop(loopIdx: int, insts: seq<Inst>)
  {
    predicate IsNested() { Block? || Loop? }
  }

  datatype Func = Func(funcIdx: int, block: seq<Inst>)

  type Program = seq<Func>

  /** Functions carry their own position, as the translator numbers them. */
  ghost predicate WellIndexed(p: Program) {
    forall i :: 0 <= i < |p| ==> p[i].funcIdx == i
  }

  /** The callee index a call node holds; an indirect call keeps the initial value -1. */
  function CalleeIdx(inst: Inst): int
    requires inst.Call? || inst.CallIndirect?
  {
    if inst.Call? then inst.callee else -1
  }

  /** A node of a tree is named by the child positions that lead to it from the root. */
  type Path = seq<nat>

  predicate ValidPath(root: Inst, path: Path) {
    path == [] ||
    (root.IsNested() && path[0] < |root.insts| && ValidPath(root.insts[path[0]], path[1..]))
  }

  function NodeAt(root: Inst, path: Path): Inst
    requires ValidPath(root, path)
  {
    if path == [] then root else NodeAt(root.insts[path[0]], path[1..])
  }

  /** Following one path and then another. */
  lemma {:induction false} PathConcat(root: Inst, path: Path, more: Path)
    requires ValidPath(root, path) && ValidPath(NodeAt(root, path), more)
    ensures ValidPath(root, path + more)
    ensures NodeAt(root, path + more) == NodeAt(NodeAt(root, path), more)
  {
    if path == [] {
      assert path + more == more;
    } else {
      PathConcat(root.insts[path[0]], path[1..], more);
      assert (path + more)[1..] == path[1..] + more;
    }
  }

  /** Going to child `i` of the node at `path`. */
  lemma {:induction false} ChildPath(root: Inst, path: Path, i: nat)
    requires ValidPath(root, path) && NodeAt(root, path).IsNested()
    requires i < |NodeAt(root, path).insts|
    ensures ValidPath(root, path + [i])
    ensures NodeAt(root, path + [i]) == NodeAt(root, path).insts[i]
  {
    assert [i][1..] == [];
    PathConcat(root, path, [i]);
  }

  /** The body block of a function, as the root of its tree. */
  function Root(f: Func): Inst { Block(f.block) }

  function LoopNumbers1(inst: Inst): seq<int> {
    match inst
    case Block(b) => LoopNumbers(b)
    case Loop(i, b) => [i] + LoopNumbers(b)
    case _ => []
  }

  /** The loop numbers of a body, outer loops before the loops inside them. */
  function LoopNumbers(insts: seq<Inst>): seq<int> {
    if insts == [] then [] else LoopNumbers1(insts[0]) + LoopNumbers(insts[1..])
  }

  lemma {:induction false} LoopNumbersCons(insts: seq<Inst>)
    requires insts != []
    ensures LoopNumbers(insts) == LoopNumbers([insts[0]]) + LoopNumbers(insts[1..])
  {
  }

  /** Every loop of the program, as the (function, loop) pair the optimisation files use. */
  function LoopKeys(p: Program): seq<(int, int)> {
    if p == [] then [] else Tagged(p[0].funcIdx, LoopNumbers(p[0].block)) + LoopKeys(p[1..])
  }

  function Tagged(f: int, loops: seq<int>): (r: seq<(int, int)>)
    ensures |r| == |loops|
    ensures forall i :: 0 <= i < |r| ==> r[i] == (f, loops[i])
  {
    seq(|loops|, i requires 0 <= i < |loops| => (f, loops[i]))
  }

  /** How a pass names the node it annotates: a whole function, or a node of its tree. */
  datatype NodeId = FuncNode(f: nat) | TreeNode(f: nat, path: Path)

  ghost predicate ValidNode(p: Program, id: NodeId) {
    id.f < |p| && (id.TreeNode? ==> ValidPath(Root(p[id.f]), id.path))
  }

  function Node(p: Program, id: NodeId): Inst
    requires ValidNode(p, id)
  {
    if id.FuncNode? then Root(p[id.f]) else NodeAt(Root(p[id.f]), id.path)
  }

  // Frames of a recursive visit: which nodes a pass has annotated so far.

  /** No node at or below `path` of function `f` is annotated. */
  ghost predicate Untouched(done: set<NodeId>, f: nat, path: Path) {
    forall id | id in done :: !Below(id, f, path)
  }

  predicate Below(id: NodeId, f: nat, path: Path) {
    id.TreeNode? && id.f == f && path <= id.path
  }

  predicate BelowChild(id: NodeId, f: nat, path: Path, i: nat) {
    id.TreeNode? && id.f == f && path < id.path && id.path[|path|] < i
  }

  /** The visit annotated nodes at or below `path` only. */
  ghost predicate Added(before: set<NodeId>, after: set<NodeId>, f: nat, path: Path) {
    before <= after && forall id | id in after && id !in before :: Below(id, f, path)
  }

  /** The visit annotated nodes below the first `i` children of `path` only. */
  ghost predicate AddedChildren(before: set<NodeId>, after: set<NodeId>, f: nat, path: Path, i: nat) {
    before <= after && forall id | id in after && id !in before :: BelowChild(id, f, path, i)
  }

  lemma {:induction false} NextChildUntouched(before: set<NodeId>, after: set<NodeId>, f: nat, path: Path, i: nat)
    requires Untouched(before, f, path) && AddedChildren(before, after, f, path, i)
    ensures Untouched(after, f, path + [i])
    ensures TreeNode(f, path) !in after
  {
    forall id | id in after
      ensures !Below(id, f, path + [i])
    {
      if Below(id, f, path + [i]) {
        assert id.path[|path|] == (path + [i])[|path|];
        assert Below(id, f, path);
      }
    }
    assert Below(TreeNode(f, path), f, path);
    assert !BelowChild(TreeNode(f, path), f, path, i);
  }

  lemma {:induction false} ChildAdded(before: set<NodeId>, mid: set<NodeId>, after: set<NodeId>, f: nat, path: Path,
                                      i: nat)
    requires AddedChildren(before, mid, f, path, i) && Added(mid, after, f, path + [i])
    ensures AddedChildren(before, after, f, path, i + 1)
  {
    forall id | id in after && id !in before
      ensures BelowChild(id, f, path, i + 1)
    {
      if id in mid {
        assert BelowChild(id, f, path, i);
      } else {
        assert Below(id, f, path + [i]);
        assert id.path[|path|] == (path + [i])[|path|];
      }
    }
  }

}
