/** SimpleFuncPass: the functions that can neither loop nor call.  A call node ends up non-simple
    whatever its callee is, so a function is simple exactly when its tree holds no call and no
    loop. */
module SimpleFunc {
  import opened Basics
  import opened WasmTree

  predicate Simple1(inst: Inst) {
    match inst
    case Call(_) => false
    case CallIndirect => false
    case Loop(_, _) => false
    case Block(b) => Simple(b)
    case _ => true
  }

  predicate Simple(insts: seq<Inst>) {
    insts == [] || (Simple1(insts[0]) && Simple(insts[1..]))
  }

  /** The indices of the functions without call and loop. */
  function SimpleSet(p: Program): set<int> {
    set f | f in p && Simple(f.block) :: f.funcIdx
  }

  // ------------------------------------------------------------------ the pass

  class Pass {
    const p: Program
    var data: map<NodeId, bool>
    var simpleFuncSet: set<int>

    ghost predicate Valid()
      reads this
    {
      forall id | id in data :: ValidNode(p, id) && data[id] == Simple1(Node(p, id))
    }

    constructor (p: Program)
      ensures this.p == p && data == map[] && simpleFuncSet == {} && Valid()
    {
      this.p := p;
      data, simpleFuncSet := map[], {};
    }

    method Visit(f: nat, path: Path, inst: Inst)
      requires Valid() && ValidNode(p, TreeNode(f, path)) && Node(p, TreeNode(f, path)) == inst
      modifies this`data
      ensures Valid() && TreeNode(f, path) in data && old(data.Keys) <= data.Keys
      decreases inst, 1
    {
      if TreeNode(f, path) in data {
        return;
      }
      match inst {
        case Loop(_, _) => data := data[TreeNode(f, path) := false];
        case Block(_) => VisitBlock(f, path, inst);
        case Call(_) => VisitCall(f, path, inst);
        case CallIndirect => VisitCall(f, path, inst);
        case _ => data := data[TreeNode(f, path) := true];
      }
    }

    /** The mark set for a simple callee is overwritten at once. */
    method VisitCall(f: nat, path: Path, inst: Inst)
      requires Valid() && ValidNode(p, TreeNode(f, path)) && Node(p, TreeNode(f, path)) == inst
      requires inst.Call? || inst.CallIndirect?
      modifies this`data
      ensures Valid() && data == old(data)[TreeNode(f, path) := false]
    {
      if CalleeIdx(inst) in simpleFuncSet {
        data := data[TreeNode(f, path) := true];
      }
      data := data[TreeNode(f, path) := false];
    }

    method VisitBlock(f: nat, path: Path, inst: Inst)
      requires Valid() && ValidNode(p, TreeNode(f, path)) && Node(p, TreeNode(f, path)) == inst
      requires inst.Block?
      modifies this`data
      ensures Valid() && TreeNode(f, path) in data && old(data.Keys) <= data.Keys
      decreases inst, 0
    {
      var i := 0;
      assert inst.insts[0..] == inst.insts;
      while i < |inst.insts|
        invariant 0 <= i <= |inst.insts| && Valid() && old(data.Keys) <= data.Keys
        invariant Simple(inst.insts) == Simple(inst.insts[i..])
      {
        ChildPath(Root(p[f]), path, i);
        Visit(f, path + [i], inst.insts[i]);
        assert inst.insts[i..][1..] == inst.insts[i + 1..];
        if !data[TreeNode(f, path + [i])] {
          data := data[TreeNode(f, path) := false];
          return;
        }
        i := i + 1;
      }
      data := data[TreeNode(f, path) := true];
    }

    method VisitFunc(f: nat)
      requires Valid() && f < |p|
      modifies this`data
      ensures Valid() && FuncNode(f) in data && old(data.Keys) <= data.Keys
    {
      if FuncNode(f) in data {
        return;
      }
      Visit(f, [], Root(p[f]));
      data := data[FuncNode(f) := data[TreeNode(f, [])]];
    }

    /** One round over all functions: memoised or not, it adds exactly the simple ones. */
    method Iteration()
      requires Valid()
      modifies this
      ensures Valid() && simpleFuncSet == old(simpleFuncSet) + SimpleSet(p)
    {
      var f := 0;
      while f < |p|
        invariant 0 <= f <= |p| && Valid()
        invariant simpleFuncSet == old(simpleFuncSet) + SimpleSet(p[..f])
      {
        VisitFunc(f);
        assert data[FuncNode(f)] == Simple1(Node(p, FuncNode(f)));
        if data[FuncNode(f)] {
          simpleFuncSet := simpleFuncSet + {p[f].funcIdx};
        }
        f := f + 1;
      }
      assert p[..f] == p;
    }
  }

  /** The whole pass: repeat rounds until the set stops growing, then list it in order.  The
      result is the ascending list of exactly the functions without call and loop, and one round
      after the first is enough. */
  method Run(p: Program) returns (simpleFunc: seq<int>, ghost extraRounds: nat)
    ensures Ascending(simpleFunc) && extraRounds == 1
    ensures forall i :: i in simpleFunc <==> exists f :: f in p && f.funcIdx == i && Simple(f.block)
  {
    var pass := new Pass(p);
    pass.Iteration();
    extraRounds := 0;
    var growing := true;
    while growing
      invariant fresh(pass) && pass.p == p && pass.Valid() && pass.simpleFuncSet == SimpleSet(p)
      invariant extraRounds == if growing then 0 else 1
      decreases growing
    {
      var previous := |pass.simpleFuncSet|;
      pass.Iteration();
      extraRounds := extraRounds + 1;
      growing := |pass.simpleFuncSet| != previous;
    }
    simpleFunc := SortedList(pass.simpleFuncSet);
  }

  /** No import and no indirect call is ever taken for a call of a simple function. */
  lemma {:induction false} SimpleCalleesAreDefined(p: Program, inst: Inst)
    requires WellIndexed(p) && (inst.Call? || inst.CallIndirect?)
    requires CalleeIdx(inst) in SimpleSet(p)
    ensures inst.Call? && 0 <= inst.callee < |p| && Simple(p[inst.callee].block)
  {
    var f :| f in p && Simple(f.block) && f.funcIdx == CalleeIdx(inst);
    var i :| 0 <= i < |p| && p[i] == f;
  }

  predicate HoldsCallOrLoop(inst: Inst) {
    inst.Call? || inst.CallIndirect? || inst.Loop?
  }

  ghost predicate OffendingNode(root: Inst, path: Path) {
    ValidPath(root, path) && HoldsCallOrLoop(NodeAt(root, path))
  }

  /** Simple means: no node anywhere in the tree is a call or a loop. */
  lemma {:induction false} SimpleExact(root: Inst)
    ensures Simple1(root) <==> !exists path: Path :: OffendingNode(root, path)
  {
    if Simple1(root) {
      forall path: Path | ValidPath(root, path)
        ensures !HoldsCallOrLoop(NodeAt(root, path))
      {
        SimpleEverywhere(root, path);
      }
    } else {
      var path := Offender(root);
    }
  }

  lemma {:induction false} SimpleMember(insts: seq<Inst>, i: nat)
    requires Simple(insts) && i < |insts|
    ensures Simple1(insts[i])
  {
    if i == 0 {
    } else {
      SimpleMember(insts[1..], i - 1);
    }
  }

  lemma {:induction false} SimpleEverywhere(root: Inst, path: Path)
    requires Simple1(root) && ValidPath(root, path)
    ensures !HoldsCallOrLoop(NodeAt(root, path))
    decreases path
  {
    if path == [] {
    } else {
      SimpleMember(root.insts, path[0]);
      SimpleEverywhere(root.insts[path[0]], path[1..]);
    }
  }

  lemma {:induction false} Offender(root: Inst) returns (path: Path)
    requires !Simple1(root)
    ensures OffendingNode(root, path)
    decreases root, 1
  {
    if HoldsCallOrLoop(root) {
      path := [];
    } else {
      var i, rest := OffenderIn(root.insts);
      path := [i] + rest;
      assert path[1..] == rest;
    }
  }

  lemma {:induction false} OffenderIn(insts: seq<Inst>) returns (i: nat, rest: Path)
    requires !Simple(insts)
    ensures i < |insts| && OffendingNode(insts[i], rest)
    decreases insts, 0
  {
    if !Simple1(insts[0]) {
      i := 0;
      rest := Offender(insts[0]);
    } else {
      i, rest := OffenderIn(insts[1..]);
      i := i + 1;
    }
  }
}
