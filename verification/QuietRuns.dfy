/** What leaving out checkpoints does to runs.  A plan says which callees are simple and which
    loops are skipped; a step is an event when it passes a checkpoint that the plan keeps: a call
    of a non-simple function, or the start of an iteration of a loop that is not skipped. */
module QuietRuns {
  import opened Basics
  import opened WasmTree
  import opened Semantics

  datatype Plan = Plan(simple: set<int>, skipped: set<(int, int)>)

  predicate Emits(pl: Plan, s: State, c: Choice) {
    s != [] &&
    var fr := s[|s| - 1];
    var n := |fr.labels|;
    if fr.code == [] then false
    else if BranchDepth(fr, c).Some? then
      var d := BranchDepth(fr, c).value;
      d < n && fr.labels[n - 1 - d].LoopLabel?
      && (fr.funcIdx, fr.labels[n - 1 - d].loopIdx) !in pl.skipped
    else
      match fr.code[0]
      case Call(_) => CalleeIdx(fr.code[0]) !in pl.simple
      case CallIndirect => CalleeIdx(fr.code[0]) !in pl.simple
      case Loop(i, _) => (fr.funcIdx, i) !in pl.skipped
      case _ => false
  }

  // ------------------------------------------------------------------ the static condition

  /** How control can leave a piece of code: past its end, by a branch, or by a return. */
  datatype Out = Norm | Brk(depth: nat) | Ret

  /** `o` is a way out of `inst` that can be taken without an event; `n` labels are open around it. */
  predicate Can1(pl: Plan, f: int, inst: Inst, n: nat, o: Out)
    decreases inst
  {
    match inst
    case Br(d) => o == Brk(d)
    case BrIf(d) => o == Norm || o == Brk(d)
    case BrTable => o.Brk? && o.depth < n
    case Return => o == Ret
    case Call(_) => CalleeIdx(inst) in pl.simple && o == Norm
    case CallIndirect => CalleeIdx(inst) in pl.simple && o == Norm
    case LocalSet(_) => o == Norm
    case LocalTee(_) => o == Norm
    case Block(b) => Can(pl, f, b, n + 1, Inside(o)) || (o == Norm && Can(pl, f, b, n + 1, Brk(0)))
    case Loop(i, b) => (f, i) in pl.skipped && Can(pl, f, b, n + 1, Inside(o))
  }

  predicate Can(pl: Plan, f: int, insts: seq<Inst>, n: nat, o: Out)
    decreases insts
  {
    if insts == [] then o == Norm
    else
      || (o != Norm && Can1(pl, f, insts[0], n, o))
      || (Can1(pl, f, insts[0], n, Norm) && Can(pl, f, insts[1..], n, o))
  }

  /** A way out of a construct, seen from inside it. */
  function Inside(o: Out): Out { if o.Brk? then Brk(o.depth + 1) else o }

  /** A loop body, in a function with `n` labels open inside it, can come back to the loop's start
      without an event. */
  predicate QuietBackEdge(pl: Plan, f: int, body: seq<Inst>, n: nat) {
    Can(pl, f, body, n, Brk(0))
  }

  // ------------------------------------------------------------------ soundness of the condition

  /** Way out `o` of the innermost code, followed through labels `labels[j + 1..]`, can only end as
      a way out that the body of the loop at label `j` has. */
  ghost predicate Fits(pl: Plan, f: int, labels: seq<Label>, j: nat, body: seq<Inst>, o: Out)
    requires j < |labels|
    decreases |labels|
  {
    var top := |labels| - 1;
    if top == j then Can(pl, f, body, j + 1, o)
    else if o == Norm || (o == Brk(0) && labels[top].BlockLabel?) then
      forall o' :: Can(pl, f, labels[top].rest, top, o') ==> Fits(pl, f, labels[..top], j, body, o')
    else if o == Brk(0) then true
    else Fits(pl, f, labels[..top], j, body, if o.Brk? then Brk(o.depth - 1) else o)
  }

  ghost predicate CodeFits(pl: Plan, f: int, code: seq<Inst>, labels: seq<Label>, j: nat, body: seq<Inst>)
    requires j < |labels|
  {
    forall o :: Can(pl, f, code, |labels|, o) ==> Fits(pl, f, labels, j, body, o)
  }

  ghost predicate LoopsFit(pl: Plan, f: int, labels: seq<Label>, j: nat, body: seq<Inst>)
    requires j < |labels|
  {
    forall i :: j < i < |labels| && labels[i].LoopLabel? ==>
      CodeFits(pl, f, labels[i].body, labels[..i + 1], j, body)
  }

  /** An activation that has run quietly since the last start of the loop at its label `j`. */
  ghost predicate QuietSince(pl: Plan, fr: Frame, j: nat) {
    && j < |fr.labels| && fr.labels[j].LoopLabel?
    && CodeFits(pl, fr.funcIdx, fr.code, fr.labels, j, fr.labels[j].body)
    && LoopsFit(pl, fr.funcIdx, fr.labels, j, fr.labels[j].body)
  }

  lemma {:induction false} HeaderIsQuiet(pl: Plan, fr: Frame, j: nat)
    requires |fr.labels| == j + 1 && fr.labels[j].LoopLabel? && fr.code == fr.labels[j].body
    ensures QuietSince(pl, fr, j)
  {
  }

  lemma {:induction false} FitsJump(pl: Plan, f: int, labels: seq<Label>, j: nat, body: seq<Inst>, d: nat)
    requires j < |labels| && d <= |labels| - 1 - j
    requires Fits(pl, f, labels, j, body, Brk(d))
    ensures Fits(pl, f, labels[..|labels| - d], j, body, Brk(0))
    decreases d
  {
    var top := |labels| - 1;
    if d == 0 {
      assert labels[..|labels|] == labels;
    } else {
      FitsJump(pl, f, labels[..top], j, body, d - 1);
      assert labels[..top][..top - (d - 1)] == labels[..|labels| - d];
    }
  }

  /** Taking branch `d`, which stays inside label `j`. */
  lemma {:induction false} QuietJump(pl: Plan, fr: Frame, j: nat, d: nat)
    requires QuietSince(pl, fr, j) && d <= |fr.labels| - 1 - j
    requires Can(pl, fr.funcIdx, fr.code, |fr.labels|, Brk(d))
    ensures var i := |fr.labels| - 1 - d;
      if i == j then QuietBackEdge(pl, fr.funcIdx, fr.labels[j].body, j + 1)
      else QuietSince(pl, Jump(fr, d), j)
  {
    var f, labels, body := fr.funcIdx, fr.labels, fr.labels[j].body;
    var i := |labels| - 1 - d;
    FitsJump(pl, f, labels, j, body, d);
    assert labels[..i + 1][..i] == labels[..i];
    if i > j {
      var fr' := Jump(fr, d);
      forall i' | j < i' < |fr'.labels| && fr'.labels[i'].LoopLabel?
        ensures CodeFits(pl, f, fr'.labels[i'].body, fr'.labels[..i' + 1], j, body)
      {
        assert fr'.labels[..i' + 1] == labels[..i' + 1];
      }
      assert fr'.labels[j] == labels[j];
    }
  }

  lemma {:induction false} FitsEnd(pl: Plan, f: int, labels: seq<Label>, j: nat, body: seq<Inst>, o: Out)
    requires j + 1 < |labels| && Fits(pl, f, labels, j, body, Norm)
    requires Can(pl, f, labels[|labels| - 1].rest, |labels| - 1, o)
    ensures Fits(pl, f, labels[..|labels| - 1], j, body, o)
  {
  }

  /** Reaching the end of a construct inside label `j`. */
  lemma {:induction false} QuietEnd(pl: Plan, fr: Frame, j: nat)
    requires QuietSince(pl, fr, j) && fr.code == [] && |fr.labels| > j + 1
    ensures QuietSince(pl, fr.(code := fr.labels[|fr.labels| - 1].rest, labels := fr.labels[..|fr.labels| - 1]), j)
  {
    var f, labels, body := fr.funcIdx, fr.labels, fr.labels[j].body;
    var top := |labels| - 1;
    assert Can(pl, f, fr.code, |labels|, Norm);
    assert Fits(pl, f, labels, j, body, Norm);
    forall o | Can(pl, f, labels[top].rest, top, o)
      ensures Fits(pl, f, labels[..top], j, body, o)
    {
      FitsEnd(pl, f, labels, j, body, o);
    }
    forall i | j < i < top && labels[..top][i].LoopLabel?
      ensures CodeFits(pl, f, labels[..top][i].body, labels[..top][..i + 1], j, body)
    {
      assert labels[..top][..i + 1] == labels[..i + 1];
    }
  }

  /** Passing an instruction that has the quiet way out Norm. */
  lemma {:induction false} QuietNext(pl: Plan, fr: Frame, j: nat, locals: map<int, int>)
    requires QuietSince(pl, fr, j) && fr.code != []
    requires Can1(pl, fr.funcIdx, fr.code[0], |fr.labels|, Norm)
    ensures QuietSince(pl, fr.(code := fr.code[1..], locals := locals), j)
  {
    var f, n := fr.funcIdx, |fr.labels|;
    assert forall o :: Can(pl, f, fr.code[1..], n, o) ==> Can(pl, f, fr.code, n, o);
  }

  /** Entering a block, or a skipped loop. */
  lemma {:induction false} QuietEnter(pl: Plan, fr: Frame, j: nat, lab: Label)
    requires QuietSince(pl, fr, j) && fr.code != [] && fr.code[0].IsNested()
    requires match fr.code[0]
      case Block(_) => lab == BlockLabel(fr.code[1..])
      case Loop(i, b) => (fr.funcIdx, i) in pl.skipped && lab == LoopLabel(i, b, fr.code[1..])
    ensures QuietSince(pl, fr.(code := fr.code[0].insts, labels := fr.labels + [lab]), j)
  {
    var f, n, body := fr.funcIdx, |fr.labels|, fr.labels[j].body;
    var b, labels := fr.code[0].insts, fr.labels + [lab];
    assert labels[..n] == fr.labels;
    forall o | Can(pl, f, b, n + 1, o)
      ensures Fits(pl, f, labels, j, body, o)
    {
      if o == Norm || (o == Brk(0) && lab.BlockLabel?) {
        assert Can1(pl, f, fr.code[0], n, Norm);
        assert forall o' :: Can(pl, f, lab.rest, n, o') ==> Can(pl, f, fr.code, n, o');
      } else if o != Brk(0) {
        var outer := if o.Brk? then Brk(o.depth - 1) else o;
        assert Inside(outer) == o;
        assert Can1(pl, f, fr.code[0], n, outer);
      }
    }
    forall i | j < i < |labels| && labels[i].LoopLabel?
      ensures CodeFits(pl, f, labels[i].body, labels[..i + 1], j, body)
    {
      if i < n {
        assert labels[..i + 1] == fr.labels[..i + 1];
      } else {
        assert labels[..i + 1] == labels;
      }
    }
  }

  /** A step without event keeps an activation quiet, and can only be a back edge if the static
      condition says so. */
  lemma {:induction false} QuietStep(p: Program, pl: Plan, s: State, c: Choice, s': State, k: nat, j: nat)
    requires Next(p, s, c) == Some(s') && !Emits(pl, s, c)
    requires Active(s, k, j) && Active(s', k, j) && QuietSince(pl, s[k], j)
    ensures QuietSince(pl, s'[k], j)
    ensures IsBackEdge(s, c, k, j) ==> QuietBackEdge(pl, s[k].funcIdx, s[k].labels[j].body, j + 1)
  {
    if |s| > k + 1 {
      assert s'[k] == s[k];
      return;
    }
    var fr, n := s[k], |s[k].labels|;
    if fr.code == [] {
      QuietEnd(pl, fr, j);
    } else if BranchDepth(fr, c).Some? {
      var d := BranchDepth(fr, c).value;
      assert s'[k] == Jump(fr, d);
      assert Can1(pl, fr.funcIdx, fr.code[0], n, Brk(d));
      QuietJump(pl, fr, j, d);
      if n - 1 - d == j {
        HeaderIsQuiet(pl, s'[k], j);
      }
    } else if fr.code[0].IsNested() {
      QuietEnter(pl, fr, j, s'[k].labels[n]);
    } else {
      QuietNext(pl, fr, j, s'[k].locals);
    }
  }

  // ------------------------------------------------------------------ counting over runs

  function Events(pl: Plan, run: seq<State>, cs: seq<Choice>, t: nat): nat
    requires t <= |cs| <= |run|
  {
    if t == 0 then 0
    else Events(pl, run, cs, t - 1) + (if Emits(pl, run[t - 1], cs[t - 1]) then 1 else 0)
  }

  /** How many times the run has gone back to the start of the loop. */
  function Iterations(run: seq<State>, cs: seq<Choice>, k: nat, j: nat, t: nat): nat
    requires t <= |cs| <= |run|
  {
    if t == 0 then 0
    else Iterations(run, cs, k, j, t - 1) + (if IsBackEdge(run[t - 1], cs[t - 1], k, j) then 1 else 0)
  }

  /** If the static condition rules out a quiet way back, every run that stays in the loop passes
      at least one event for every iteration it completes. */
  lemma {:induction false} EventsCoverIterations(p: Program, pl: Plan, run: seq<State>, cs: seq<Choice>,
                                                k: nat, j: nat, t: nat)
    requires IsRun(p, run, cs) && ActiveThroughout(run, k, j) && AtHeader(run[0], k, j)
    requires !QuietBackEdge(pl, run[0][k].funcIdx, run[0][k].labels[j].body, j + 1)
    requires t < |run|
    ensures Iterations(run, cs, k, j, t) <= Events(pl, run, cs, t)
    ensures run[t][k].labels[j] == run[0][k].labels[j] && run[t][k].funcIdx == run[0][k].funcIdx
    ensures Iterations(run, cs, k, j, t) == Events(pl, run, cs, t) ==> QuietSince(pl, run[t][k], j)
  {
    if t == 0 {
      HeaderIsQuiet(pl, run[0][k], j);
      return;
    }
    EventsCoverIterations(p, pl, run, cs, k, j, t - 1);
    assert Active(run[t - 1], k, j) && Active(run[t], k, j);
    CoverStep(p, pl, run[t - 1], cs[t - 1], run[t], k, j);
  }

  /** In one step a new iteration without an event can only follow events that were in excess. */
  lemma {:induction false} CoverStep(p: Program, pl: Plan, s: State, c: Choice, s': State, k: nat, j: nat)
    requires Next(p, s, c) == Some(s') && Active(s, k, j) && Active(s', k, j) && s[k].labels[j].LoopLabel?
    requires !QuietBackEdge(pl, s[k].funcIdx, s[k].labels[j].body, j + 1)
    ensures s'[k].labels[j] == s[k].labels[j] && s'[k].funcIdx == s[k].funcIdx
    ensures IsBackEdge(s, c, k, j) ==> QuietSince(pl, s'[k], j)
    ensures !Emits(pl, s, c) && QuietSince(pl, s[k], j) ==> QuietSince(pl, s'[k], j) && !IsBackEdge(s, c, k, j)
  {
    assert s'[k].labels[j] == s'[k].labels[..j + 1][j] == s[k].labels[j];
    if IsBackEdge(s, c, k, j) {
      HeaderIsQuiet(pl, s'[k], j);
    }
    if !Emits(pl, s, c) && QuietSince(pl, s[k], j) {
      QuietStep(p, pl, s, c, s', k, j);
    }
  }
}
