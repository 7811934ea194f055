/** The static condition on skipped loops is exact: when it finds a quiet way back to the start of
    a loop, there are runs that take it, again and again. */
module QuietExact {
  import opened Basics
  import opened WasmTree
  import opened Semantics
  import opened QuietRuns
  import SimpleFunc
  import LoopCkpt
  import Latency

  /** Branch depths name open labels, as validation demands. */
  predicate DepthsOk(insts: seq<Inst>, n: nat) {
    insts == [] ||
    ((match insts[0]
      case Br(d) => d < n
      case BrIf(d) => d < n
      case BrTable => n > 0
      case Block(b) => DepthsOk(b, n + 1)
      case Loop(_, b) => DepthsOk(b, n + 1)
      case _ => true) && DepthsOk(insts[1..], n))
  }

  ghost predicate ValidProgram(p: Program) {
    WellIndexed(p) && forall f :: 0 <= f < |p| ==> DepthsOk(p[f].block, 1)
  }

  ghost predicate DepthsFrame(g: Frame) {
    && DepthsOk(g.code, |g.labels|)
    && forall i :: 0 <= i < |g.labels| ==> DepthsOk(g.labels[i].rest, i)
  }

  /** The choices lead from `s` to `s'` without an event and without leaving label `j` of
      activation `k`. */
  ghost predicate QuietPath(p: Program, pl: Plan, k: nat, j: nat, s: State, cs: seq<Choice>, s': State)
    decreases |cs|
  {
    Active(s, k, j) &&
    if cs == [] then s == s'
    else !Emits(pl, s, cs[0]) && Next(p, s, cs[0]).Some?
         && QuietPath(p, pl, k, j, Next(p, s, cs[0]).value, cs[1..], s')
  }

  lemma {:induction false} QuietConcat(p: Program, pl: Plan, k: nat, j: nat,
                                       s: State, a: seq<Choice>, m: State, b: seq<Choice>, s': State)
    requires QuietPath(p, pl, k, j, s, a, m) && QuietPath(p, pl, k, j, m, b, s')
    ensures QuietPath(p, pl, k, j, s, a + b, s')
    decreases |a|
  {
    if a == [] {
      assert a + b == b;
    } else {
      assert (a + b)[1..] == a[1..] + b;
      QuietConcat(p, pl, k, j, Next(p, s, a[0]).value, a[1..], m, b, s');
    }
  }

  lemma {:induction false} OneStep(p: Program, pl: Plan, k: nat, j: nat, s: State, c: Choice, s': State)
    requires Next(p, s, c) == Some(s') && !Emits(pl, s, c) && Active(s, k, j) && Active(s', k, j)
    ensures QuietPath(p, pl, k, j, s, [c], s')
  {
    assert [c][1..] == [];
  }

  const DEFAULT := Choice(false, 0, -1, 0, map[])

  // ------------------------------------------------------------------ simple callees return

  lemma {:induction false} DepthsStep(p: Program, s: State, c: Choice, s': State)
    requires Next(p, s, c) == Some(s') && s != [] && |s'| == |s|
    requires DepthsFrame(s[|s| - 1]) && Latency.SimpleFrame(s[|s| - 1])
    ensures DepthsFrame(s'[|s| - 1])
  {
    var g := s[|s| - 1];
    if BranchDepth(g, c).Some? {
      assert s'[|s| - 1] == Jump(g, BranchDepth(g, c).value);
    }
  }

  /** A call of a simple function can run to its return. */
  lemma {:induction false} SimpleReturns(p: Program, pl: Plan, k: nat, j: nat, base: State, g: Frame)
      returns (cs: seq<Choice>)
    requires Active(base, k, j) && Latency.SimpleFrame(g) && DepthsFrame(g)
    ensures QuietPath(p, pl, k, j, base + [g], cs, base)
    decreases Latency.FrameCost(p, g, {})
  {
    var s := base + [g];
    assert s[..|s| - 1] == base && s[|s| - 1] == g;
    assert g.code != [] ==> SimpleFunc.Simple1(g.code[0]);
    assert Next(p, s, DEFAULT).Some?;
    var s' := Next(p, s, DEFAULT).value;
    Latency.SimpleStep(p, s, DEFAULT, s');
    if s' == base {
      OneStep(p, pl, k, j, s, DEFAULT, base);
      cs := [DEFAULT];
    } else {
      DepthsStep(p, s, DEFAULT, s');
      assert s' == base + [s'[|base|]];
      var rest := SimpleReturns(p, pl, k, j, base, s'[|base|]);
      OneStep(p, pl, k, j, s, DEFAULT, s');
      QuietConcat(p, pl, k, j, s, [DEFAULT], s', rest, base);
      cs := [DEFAULT] + rest;
    }
  }

  // ------------------------------------------------------------------ every quiet way out is taken by some run

  /** `g` is about to take branch `d`, counted from the labels of `fr`. */
  ghost predicate Pending(fr: Frame, d: nat, g: Frame, c: Choice) {
    && g.funcIdx == fr.funcIdx && fr.labels <= g.labels
    && BranchDepth(g, c) == Some(|g.labels| - |fr.labels| + d)
  }

  /** Where a way out has been reached: past the code, or right before the branch. */
  ghost predicate Reached(fr: Frame, after: seq<Inst>, o: Out, g: Frame, c: Choice) {
    if o == Norm then g.funcIdx == fr.funcIdx && g.labels == fr.labels && g.code == after
    else o.Brk? && Pending(fr, o.depth, g, c)
  }

  ghost predicate Setting(p: Program, pl: Plan, base: State, fr: Frame, k: nat, j: nat) {
    && ValidProgram(p) && pl.simple == SimpleFunc.SimpleSet(p)
    && k <= |base| && Active(base + [fr], k, j)
  }

  /** Passing one instruction in one step. */
  lemma {:induction false} StepPast(p: Program, pl: Plan, k: nat, j: nat, base: State, fr: Frame, c: Choice, fr': Frame)
    requires k <= |base| && Active(base + [fr], k, j)
    requires Next(p, base + [fr], c) == Some(base + [fr']) && !Emits(pl, base + [fr], c)
    requires |fr'.labels| >= |fr.labels|
    ensures QuietPath(p, pl, k, j, base + [fr], [c], base + [fr'])
  {
    OneStep(p, pl, k, j, base + [fr], c, base + [fr']);
  }

  lemma {:induction false} EnterSimple(fn: Func, locals: map<int, int>)
    requires SimpleFunc.Simple(fn.block) && DepthsOk(fn.block, 1)
    ensures Latency.SimpleFrame(Enter(fn, locals)) && DepthsFrame(Enter(fn, locals))
  {
    assert [Block(fn.block)][1..] == [] && SimpleFunc.Simple1(Block(fn.block));
  }

  /** The step that calls a simple function. */
  lemma {:induction false} CallNext(p: Program, pl: Plan, base: State, fr: Frame) returns (fn: Func)
    requires ValidProgram(p) && pl.simple == SimpleFunc.SimpleSet(p) && fr.code != []
    requires (fr.code[0].Call? || fr.code[0].CallIndirect?) && CalleeIdx(fr.code[0]) in pl.simple
    ensures SimpleFunc.Simple(fn.block) && DepthsOk(fn.block, 1) && !Emits(pl, base + [fr], DEFAULT)
    ensures Next(p, base + [fr], DEFAULT) == Some(base + [fr.(code := fr.code[1..])] + [Enter(fn, map[])])
  {
    SimpleFunc.SimpleCalleesAreDefined(p, fr.code[0]);
    fn := p[fr.code[0].callee];
    var s, g := base + [fr], fr.(code := fr.code[1..]);
    assert s[..|s| - 1] == base;
    assert base + [g, Enter(fn, map[])] == base + [g] + [Enter(fn, map[])];
  }

  /** Calling a simple function and coming back. */
  lemma {:induction false} CallReturns(p: Program, pl: Plan, k: nat, j: nat, base: State, fr: Frame, after: seq<Inst>)
      returns (cs: seq<Choice>, g: Frame)
    requires Setting(p, pl, base, fr, k, j) && fr.code != [] && fr.code[1..] == after
    requires (fr.code[0].Call? || fr.code[0].CallIndirect?) && CalleeIdx(fr.code[0]) in pl.simple
    ensures QuietPath(p, pl, k, j, base + [fr], cs, base + [g]) && Reached(fr, after, Norm, g, DEFAULT)
  {
    g := fr.(code := after);
    var fn := CallNext(p, pl, base, fr);
    EnterSimple(fn, map[]);
    var back := SimpleReturns(p, pl, k, j, base + [g], Enter(fn, map[]));
    OneStep(p, pl, k, j, base + [fr], DEFAULT, base + [g] + [Enter(fn, map[])]);
    QuietConcat(p, pl, k, j, base + [fr], [DEFAULT], base + [g] + [Enter(fn, map[])], back, base + [g]);
    cs := [DEFAULT] + back;
  }

  /** Every quiet way out of an instruction, by its end or by a branch, is taken by some run. */
  lemma {:induction false} Realise1(p: Program, pl: Plan, k: nat, j: nat, base: State, fr: Frame,
                                    inst: Inst, after: seq<Inst>, o: Out)
      returns (cs: seq<Choice>, g: Frame, c: Choice)
    requires Setting(p, pl, base, fr, k, j) && fr.code == [inst] + after && o != Ret
    requires Can1(pl, fr.funcIdx, inst, |fr.labels|, o)
    ensures QuietPath(p, pl, k, j, base + [fr], cs, base + [g]) && Reached(fr, after, o, g, c)
    decreases inst
  {
    var s := base + [fr];
    assert s[..|s| - 1] == base && fr.code[1..] == after;
    c := DEFAULT;
    if inst.IsNested() {
      cs, g, c := RealiseNested(p, pl, k, j, base, fr, inst, after, o);
    } else if inst.Call? || inst.CallIndirect? {
      cs, g := CallReturns(p, pl, k, j, base, fr, after);
    } else if o.Brk? {
      c := DEFAULT.(taken := true, depth := o.depth);
      cs, g := [], fr;
    } else {
      g := Next(p, s, c).value[|base|];
      StepPast(p, pl, k, j, base, fr, c, g);
      cs := [c];
    }
  }

  lemma {:induction false} RealiseNested(p: Program, pl: Plan, k: nat, j: nat, base: State, fr: Frame,
                                         inst: Inst, after: seq<Inst>, o: Out)
      returns (cs: seq<Choice>, g: Frame, c: Choice)
    requires Setting(p, pl, base, fr, k, j) && fr.code == [inst] + after && o != Ret && inst.IsNested()
    requires Can1(pl, fr.funcIdx, inst, |fr.labels|, o)
    ensures QuietPath(p, pl, k, j, base + [fr], cs, base + [g]) && Reached(fr, after, o, g, c)
    decreases inst, 0
  {
    var s, n, b := base + [fr], |fr.labels|, inst.insts;
    assert s[..|s| - 1] == base && fr.code[1..] == after;
    var lab := if inst.Block? then BlockLabel(after) else LoopLabel(inst.loopIdx, b, after);
    var inner := fr.(code := b, labels := fr.labels + [lab]);
    StepPast(p, pl, k, j, base, fr, DEFAULT, inner);
    assert inner.code == b + [];
    var way := if o == Norm && !Can(pl, fr.funcIdx, b, n + 1, Norm) then Brk(0) else Inside(o);
    var path, g', c' := Realise(p, pl, k, j, base, inner, b, [], way);
    cs := [DEFAULT] + path;
    QuietConcat(p, pl, k, j, s, [DEFAULT], base + [inner], path, base + [g']);
    if o.Brk? {
      g, c := g', c';
      assert fr.labels <= g.labels;
    } else {
      var c1 := if way == Norm then DEFAULT else c';
      c := DEFAULT;
      g := LeaveNested(p, pl, k, j, base, fr, lab, after, way, g', c1);
      QuietConcat(p, pl, k, j, s, cs, base + [g'], [c1], base + [g]);
      cs := cs + [c1];
    }
  }

  /** The step that leaves a block or loop towards what follows it. */
  lemma {:induction false} LeaveNested(p: Program, pl: Plan, k: nat, j: nat, base: State, fr: Frame, lab: Label,
                                       after: seq<Inst>, way: Out, g': Frame, c': Choice) returns (g: Frame)
    requires k <= |base| && Active(base + [fr], k, j) && lab.rest == after
    requires way == Norm || (way == Brk(0) && lab.BlockLabel?)
    requires Active(base + [g'], k, j)
    requires Reached(fr.(labels := fr.labels + [lab]), [], way, g', c')
    ensures QuietPath(p, pl, k, j, base + [g'], [c'], base + [g]) && Reached(fr, after, Norm, g, DEFAULT)
  {
    var n := |fr.labels|;
    var s := base + [g'];
    assert s[..|s| - 1] == base;
    assert g'.labels[n] == (fr.labels + [lab])[n] && g'.labels[..n] == (fr.labels + [lab])[..n] == fr.labels;
    if way == Norm {
      g := g'.(code := after, labels := fr.labels);
    } else {
      g := Jump(g', |g'.labels| - (n + 1));
    }
    assert Next(p, s, c') == Some(base + [g]);
    OneStep(p, pl, k, j, s, c', base + [g]);
  }

  lemma {:induction false} PathEndActive(p: Program, pl: Plan, k: nat, j: nat, s: State, cs: seq<Choice>, s': State)
    requires QuietPath(p, pl, k, j, s, cs, s')
    ensures Active(s', k, j)
    decreases |cs|
  {
    if cs == [] {
    } else {
      PathEndActive(p, pl, k, j, Next(p, s, cs[0]).value, cs[1..], s');
    }
  }

  lemma {:induction false} Realise(p: Program, pl: Plan, k: nat, j: nat, base: State, fr: Frame,
                                   insts: seq<Inst>, after: seq<Inst>, o: Out)
      returns (cs: seq<Choice>, g: Frame, c: Choice)
    requires Setting(p, pl, base, fr, k, j) && fr.code == insts + after && o != Ret
    requires Can(pl, fr.funcIdx, insts, |fr.labels|, o)
    ensures QuietPath(p, pl, k, j, base + [fr], cs, base + [g]) && Reached(fr, after, o, g, c)
    ensures Active(base + [g], k, j)
    decreases insts
  {
    if insts == [] {
      cs, g, c := [], fr, DEFAULT;
      return;
    }
    assert fr.code == [insts[0]] + (insts[1..] + after);
    if o != Norm && Can1(pl, fr.funcIdx, insts[0], |fr.labels|, o) {
      cs, g, c := Realise1(p, pl, k, j, base, fr, insts[0], insts[1..] + after, o);
    } else {
      var first, m, c0 := Realise1(p, pl, k, j, base, fr, insts[0], insts[1..] + after, Norm);
      PathEndActive(p, pl, k, j, base + [fr], first, base + [m]);
      var rest;
      rest, g, c := Realise(p, pl, k, j, base, m, insts[1..], after, o);
      QuietConcat(p, pl, k, j, base + [fr], first, base + [m], rest, base + [g]);
      cs := first + rest;
    }
    PathEndActive(p, pl, k, j, base + [fr], cs, base + [g]);
  }

  // ------------------------------------------------------------------ the exact condition

  /** Some run goes from `s` back to the start of the loop without leaving it and without event. */
  ghost predicate QuietTurn(p: Program, pl: Plan, s: State, k: nat, j: nat) {
    exists cs, s1, c :: QuietTurnBy(p, pl, s, k, j, cs, s1, c)
  }

  ghost predicate QuietTurnBy(p: Program, pl: Plan, s: State, k: nat, j: nat, cs: seq<Choice>, s1: State, c: Choice) {
    QuietPath(p, pl, k, j, s, cs, s1) && IsBackEdge(s1, c, k, j) && !Emits(pl, s1, c)
  }

  lemma {:induction false} TurnExists(p: Program, pl: Plan, s: State, k: nat, j: nat)
      returns (cs: seq<Choice>, s1: State, c: Choice)
    requires ValidProgram(p) && pl.simple == SimpleFunc.SimpleSet(p) && AtHeader(s, k, j)
    requires (s[k].funcIdx, s[k].labels[j].loopIdx) in pl.skipped
    requires QuietBackEdge(pl, s[k].funcIdx, s[k].labels[j].body, j + 1)
    ensures QuietTurnBy(p, pl, s, k, j, cs, s1, c)
    ensures s1[k].labels[j] == s[k].labels[j] && s1[k].funcIdx == s[k].funcIdx
  {
    var base, fr := s[..k], s[k];
    assert base + [fr] == s && fr.code == fr.code + [];
    var g;
    cs, g, c := Realise(p, pl, k, j, base, fr, fr.code, [], Brk(0));
    s1 := base + [g];
    assert g.labels[j] == fr.labels[j];
  }

  lemma {:induction false} QuietAlong(p: Program, pl: Plan, s: State, k: nat, j: nat, cs: seq<Choice>, s1: State)
    requires QuietPath(p, pl, k, j, s, cs, s1) && QuietSince(pl, s[k], j)
    ensures Active(s1, k, j) && QuietSince(pl, s1[k], j)
    ensures s1[k].labels[j] == s[k].labels[j] && s1[k].funcIdx == s[k].funcIdx
    decreases |cs|
  {
    if cs == [] {
    } else {
      var m := Next(p, s, cs[0]).value;
      QuietStep(p, pl, s, cs[0], m, k, j);
      assert m[k].labels[j] == m[k].labels[..j + 1][j] == s[k].labels[j];
      QuietAlong(p, pl, m, k, j, cs[1..], s1);
    }
  }

  /** A skipped loop can be repeated without a checkpoint exactly when the static condition finds a
      quiet way back. */
  lemma {:induction false} QuietTurnExact(p: Program, pl: Plan, s: State, k: nat, j: nat)
    requires ValidProgram(p) && pl.simple == SimpleFunc.SimpleSet(p) && AtHeader(s, k, j)
    requires (s[k].funcIdx, s[k].labels[j].loopIdx) in pl.skipped
    ensures QuietTurn(p, pl, s, k, j) <==> QuietBackEdge(pl, s[k].funcIdx, s[k].labels[j].body, j + 1)
  {
    if QuietBackEdge(pl, s[k].funcIdx, s[k].labels[j].body, j + 1) {
      var cs, s1, c := TurnExists(p, pl, s, k, j);
    }
    forall cs, s1, c | QuietTurnBy(p, pl, s, k, j, cs, s1, c)
      ensures QuietBackEdge(pl, s[k].funcIdx, s[k].labels[j].body, j + 1)
    {
      HeaderIsQuiet(pl, s[k], j);
      QuietAlong(p, pl, s, k, j, cs, s1);
      QuietStep(p, pl, s1, c, Next(p, s1, c).value, k, j);
    }
  }

  /** With a quiet way back there is no bound on how long a run can go without a checkpoint. */
  lemma {:induction false} QuietForever(p: Program, pl: Plan, s: State, k: nat, j: nat, n: nat)
      returns (cs: seq<Choice>, s': State)
    requires ValidProgram(p) && pl.simple == SimpleFunc.SimpleSet(p) && AtHeader(s, k, j)
    requires (s[k].funcIdx, s[k].labels[j].loopIdx) in pl.skipped
    requires QuietBackEdge(pl, s[k].funcIdx, s[k].labels[j].body, j + 1)
    ensures QuietPath(p, pl, k, j, s, cs, s') && |cs| >= n
    decreases n
  {
    if n == 0 {
      cs, s' := [], s;
      return;
    }
    var turn, s1, c := TurnExists(p, pl, s, k, j);
    var m := Next(p, s1, c).value;
    OneStep(p, pl, k, j, s1, c, m);
    QuietConcat(p, pl, k, j, s, turn, s1, [c], m);
    var more;
    more, s' := QuietForever(p, pl, m, k, j, n - 1);
    QuietConcat(p, pl, k, j, s, turn + [c], m, more, s');
    cs := turn + [c] + more;
  }

  // ------------------------------------------------------------------ a simple sufficient condition

  predicate NoBranch(insts: seq<Inst>) {
    insts == [] ||
    ((match insts[0]
      case Br(_) => false
      case BrIf(_) => false
      case BrTable => false
      case Return => false
      case Block(b) => NoBranch(b)
      case Loop(_, b) => NoBranch(b)
      case _ => true) && NoBranch(insts[1..]))
  }

  /** No branch comes before the first instruction that carries a checkpoint, at any level. */
  predicate Guarded(pl: Plan, f: int, insts: seq<Inst>) {
    insts != [] &&
    ((match insts[0]
      case Call(_) => CalleeIdx(insts[0]) !in pl.simple
      case CallIndirect => CalleeIdx(insts[0]) !in pl.simple
      case Block(b) => Guarded(pl, f, b)
      case Loop(i, b) => (f, i) !in pl.skipped || Guarded(pl, f, b)
      case _ => false)
     || (NoBranch([insts[0]]) && Guarded(pl, f, insts[1..])))
  }

  predicate IsBranch(inst: Inst) { inst.Br? || inst.BrIf? || inst.BrTable? || inst.Return? }

  ghost predicate BranchAt(root: Inst, path: Path) { ValidPath(root, path) && IsBranch(NodeAt(root, path)) }

  /** Code has no branch exactly if no node of it is one. */
  lemma {:induction false} NoBranchExact(insts: seq<Inst>)
    ensures NoBranch(insts) <==> forall i, path: Path :: 0 <= i < |insts| ==> !BranchAt(insts[i], path)
    decreases insts
  {
    if insts == [] {
      assert NoBranch(insts);
    } else {
      NoBranchExact(insts[1..]);
      assert forall i :: 0 < i < |insts| ==> insts[i] == insts[1..][i - 1];
      assert forall i :: 0 <= i < |insts[1..]| ==> insts[1..][i] == insts[i + 1];
      NoBranchIn(insts[0]);
    }
  }

  predicate NoBranch1(inst: Inst) { if inst.IsNested() then NoBranch(inst.insts) else !IsBranch(inst) }

  lemma {:induction false} NoBranchIn(inst: Inst)
    ensures NoBranch1(inst) <==> forall path: Path :: !BranchAt(inst, path)
    decreases inst, 0
  {
    if inst.IsNested() {
      NoBranchExact(inst.insts);
      if NoBranch(inst.insts) {
        forall path: Path ensures !BranchAt(inst, path) {
          if path != [] && ValidPath(inst, path) {
            assert !BranchAt(inst.insts[path[0]], path[1..]);
          }
        }
      } else {
        var i, path: Path :| 0 <= i < |inst.insts| && BranchAt(inst.insts[i], path);
        assert ([i] + path)[1..] == path;
        assert BranchAt(inst, [i] + path);
      }
    } else {
      assert BranchAt(inst, []) <==> IsBranch(inst);
    }
  }

  /** The instruction carries a checkpoint, or is a block or loop that does before any branch. */
  predicate CarriesFirst(pl: Plan, f: int, inst: Inst) {
    match inst
    case Call(_) => CalleeIdx(inst) !in pl.simple
    case CallIndirect => CalleeIdx(inst) !in pl.simple
    case Block(b) => Guarded(pl, f, b)
    case Loop(i, b) => (f, i) !in pl.skipped || Guarded(pl, f, b)
    case _ => false
  }

  /** Code is guarded exactly if some instruction of it carries a checkpoint and no branch comes before
      that one. */
  lemma {:induction false} GuardedExact(pl: Plan, f: int, insts: seq<Inst>)
    ensures Guarded(pl, f, insts) <==>
      exists i :: 0 <= i < |insts| && NoBranch(insts[..i]) && CarriesFirst(pl, f, insts[i])
  {
    if insts == [] {
    } else {
      GuardedExact(pl, f, insts[1..]);
      assert insts[..0] == [];
      forall i | 0 < i < |insts|
        ensures insts[i] == insts[1..][i - 1]
        ensures NoBranch(insts[..i]) <==> NoBranch([insts[0]]) && NoBranch(insts[1..][..i - 1])
      {
        assert insts[..i][1..] == insts[1..][..i - 1] && [insts[0]][1..] == [];
      }
      if Guarded(pl, f, insts) && !CarriesFirst(pl, f, insts[0]) {
        var j :| 0 <= j < |insts[1..]| && NoBranch(insts[1..][..j]) && CarriesFirst(pl, f, insts[1..][j]);
        assert NoBranch(insts[..j + 1]) && CarriesFirst(pl, f, insts[j + 1]);
      }
    }
  }

  lemma {:induction false} NoBranchOuts(pl: Plan, f: int, insts: seq<Inst>, n: nat, o: Out)
    requires NoBranch(insts) && Can(pl, f, insts, n, o)
    ensures o == Norm
    decreases insts
  {
    if insts == [] {
    } else {
      if o != Norm && Can1(pl, f, insts[0], n, o) {
        NoBranchOuts(pl, f, insts[0].insts, n + 1, Inside(o));
      } else {
        NoBranchOuts(pl, f, insts[1..], n, o);
      }
    }
  }

  /** Code in which no branch comes before the first checkpoint cannot be left quietly at all. */
  lemma {:induction false} GuardedHasNoQuietWayOut(pl: Plan, f: int, insts: seq<Inst>, n: nat, o: Out)
    requires Guarded(pl, f, insts)
    ensures !Can(pl, f, insts, n, o)
    decreases insts
  {
    var head := insts[0];
    if head.Block? && Guarded(pl, f, head.insts) {
      GuardedHasNoQuietWayOut(pl, f, head.insts, n + 1, Inside(o));
      GuardedHasNoQuietWayOut(pl, f, head.insts, n + 1, Norm);
      GuardedHasNoQuietWayOut(pl, f, head.insts, n + 1, Brk(0));
    } else if head.Loop? && Guarded(pl, f, head.insts) {
      GuardedHasNoQuietWayOut(pl, f, head.insts, n + 1, Inside(o));
      GuardedHasNoQuietWayOut(pl, f, head.insts, n + 1, Norm);
    } else if NoBranch([head]) && Guarded(pl, f, insts[1..]) {
      GuardedHasNoQuietWayOut(pl, f, insts[1..], n, o);
      if o != Norm && Can1(pl, f, head, n, o) {
        NoBranchOuts(pl, f, [head], n, o);
      }
    }
  }

  /** A loop whose body branches back before it gets to its checkpoint. */
  function BranchFirst(): seq<Inst> { [BrIf(0), Call(-1)] }

  function BranchFirstProgram(): Program { [Func(0, [Loop(0, BranchFirst())])] }

  lemma {:induction false} BranchFirstSkips()
    ensures SimpleFunc.SimpleSet(BranchFirstProgram()) == {}
    ensures LoopCkpt.SkipList(BranchFirstProgram(), {}) == [(0, 0)]
  {
    var body, p := BranchFirst(), BranchFirstProgram();
    assert body[1..] == [Call(-1)] && [Call(-1)][1..] == [] && [Loop(0, body)][1..] == [] && p[1..] == [];
    assert !SimpleFunc.Simple([Loop(0, body)]);
    assert !LoopCkpt.Noinf1(Call(-1), {}) && !LoopCkpt.Noinf([Call(-1)], {});
    assert LoopCkpt.Noinf1(BrIf(0), {});
    assert !LoopCkpt.Noinf(body, {});
    assert LoopCkpt.Skips(0, [Call(-1)], {}) == [];
    assert LoopCkpt.Skips(0, body, {}) == [];
    assert LoopCkpt.Skips1(0, Loop(0, body), {}) == [(0, 0)];
  }

  /** A branch before the checkpoint does break it: this loop is listed as skippable, yet the static
      condition finds a quiet way back. */
  lemma {:induction false} BranchBeforeCheckpoint()
    ensures var p := BranchFirstProgram();
      var simple := SimpleFunc.SimpleSet(p);
      && ValidProgram(p)
      && LoopCkpt.SkipList(p, simple) == [(0, 0)]
      && QuietBackEdge(Plan(simple, {(0, 0)}), 0, BranchFirst(), 2)
  {
    BranchFirstSkips();
    assert DepthsOk(BranchFirst(), 2);
  }

  /** Where that program starts its loop. */
  function BranchFirstHeader(): State {
    [Frame(0, map[], BranchFirst(), [BlockLabel([]), LoopLabel(0, BranchFirst(), [])])]
  }

  lemma {:induction false} BranchFirstStarts()
    ensures var p := BranchFirstProgram();
      var start := [Enter(p[0], map[])];
      && Next(p, start, DEFAULT).Some?
      && Next(p, Next(p, start, DEFAULT).value, DEFAULT) == Some(BranchFirstHeader())
    ensures AtHeader(BranchFirstHeader(), 0, 1)
  {
    var p := BranchFirstProgram();
    var start := [Enter(p[0], map[])];
    var inside := [Frame(0, map[], p[0].block, [BlockLabel([])])];
    assert start[..0] == [] && start[0].code[1..] == [] && start[0].labels + [BlockLabel([])] == [BlockLabel([])];
    assert [] + inside == inside;
    assert Next(p, start, DEFAULT) == Some(inside);
    var lab := LoopLabel(0, BranchFirst(), []);
    assert inside[..0] == [] && inside[0].code[1..] == [] && inside[0].labels + [lab] == [BlockLabel([]), lab];
    assert [] + BranchFirstHeader() == BranchFirstHeader();
    assert Next(p, inside, DEFAULT) == Some(BranchFirstHeader());
  }

  /** So its runs can go without a checkpoint for any number of steps. */
  lemma {:induction false} BranchFirstForever(n: nat) returns (cs: seq<Choice>, s': State)
    ensures QuietPath(BranchFirstProgram(), Plan({}, {(0, 0)}), 0, 1, BranchFirstHeader(), cs, s') && |cs| >= n
  {
    BranchFirstSkips();
    BranchBeforeCheckpoint();
    BranchFirstStarts();
    cs, s' := QuietForever(BranchFirstProgram(), Plan({}, {(0, 0)}), BranchFirstHeader(), 0, 1, n);
  }
}
