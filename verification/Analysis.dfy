/** The whole analysis of a file, and what its three results mean for every run of the program. */
module Analysis {
  import opened Basics
  import opened WasmTree
  import opened Semantics
  import opened Provenance
  import opened QuietRuns
  import Translator
  import Resolution
  import TextMeaning
  import Parser
  import SimpleFunc
  import ModifiedLocals
  import LoopCkpt
  import QuietExact
  import Latency

  datatype Results = Results(
    program: Program, simple: seq<int>, modified: seq<ModifiedLocals.Report>, skips: seq<LoopCkpt.Key>)

  /** The results belong to a program whose functions and loops are numbered by position. */
  ghost predicate Computed(r: Results) {
    && WellIndexed(r.program) && Translator.ProgramNumbered(r.program, 0)
    && Ascending(r.simple) && (forall i :: i in r.simple <==> i in SimpleFunc.SimpleSet(r.program))
    && r.modified == ModifiedLocals.ProgramReports(r.program)
    && r.skips == LoopCkpt.SkipList(r.program, SimpleFunc.SimpleSet(r.program))
  }

  /** Names are there and unique, calls name what the file declares, branches and assignments have
      their numbers, and every function closes its constructs. */
  ghost predicate Acceptable(lines: seq<Translator.Line>) {
    Resolution.Translatable(lines) && Translator.Balanced(lines, false, 0)
  }

  /** From the lines of a file to the three results; None where the program stops with a failed
      assertion.  A result is given for exactly the files that can be translated and whose functions
      are balanced.  Its program is the one whose printing is the translation: its functions are those
      of the function lines, its nodes are what the lines say word by word, in order, and its calls go
      where the names on the call lines say. */
  method Analyse(texts: seq<Translator.Text>) returns (r: Option<Results>)
    ensures r.Some? ==> Computed(r.value)
    ensures r.Some? ==> exists dict ::
      Translator.Translates(Translator.Classify(texts), dict, Parser.PrintProgram(r.value.program))
    ensures r.Some? ==> Resolution.ReadFrom(r.value.program, Translator.Classify(texts))
    ensures r.Some? ==> TextMeaning.Means(texts, r.value.program)
    ensures r.Some? <==> Acceptable(Translator.Classify(texts))
  {
    ghost var lines := Translator.Classify(texts);
    var tokens := Translator.Translate(texts);
    Resolution.TranslationExact(lines, tokens);
    if tokens.None? {
      return None;
    }
    ghost var dict := DictOf(lines, tokens.value);
    Translator.AcceptedIffBalanced(lines, dict, tokens.value);
    var program := Parser.Read(tokens.value);
    if program.None? {
      return None;
    }
    Parser.AcceptedIsPrinted(tokens.value);
    Translator.TranslatedIsNumbered(lines, dict, tokens.value);
    Resolution.TranslatedIsReadFrom(lines, dict, tokens.value);
    Resolution.FunctionsOfFile(dict, lines, 0, tokens.value, program.value);
    TextMeaning.ReadMeans(texts, dict, program.value);
    var results := Passes(program.value);
    r := Some(results);
  }

  /** The three passes, one after the other. */
  method Passes(p: Program) returns (r: Results)
    requires WellIndexed(p) && Translator.ProgramNumbered(p, 0)
    ensures r.program == p && Computed(r)
  {
    var simple, _ := SimpleFunc.Run(p);
    var modified := ModifiedLocals.Run(p);
    var skips := LoopCkpt.Run(p, set i | i in simple);
    assert (set i | i in simple) == SimpleFunc.SimpleSet(p);
    r := Results(p, simple, modified, skips);
  }

  lemma {:induction false} DictOf(lines: seq<Translator.Line>, ts: Parser.Tokens) returns (dict: Translator.Dict)
    requires Translator.Translation(lines, Some(ts))
    ensures Translator.Translates(lines, dict, ts)
  {
    dict :| Translator.Known(lines, dict) && Some(ts) == Translator.Emit(dict, lines, 0, 0, false);
  }

  // ------------------------------------------------------------------ one loop of a run

  /** The loop that label `j` of activation `k` is running is the one its key names. */
  lemma {:induction false} LoopOfLabel(p: Program, s: State, k: nat, j: nat, path: Path)
    requires Translator.ProgramNumbered(p, 0) && StateIn(p, s) && AtHeader(s, k, j)
    requires 0 <= s[k].funcIdx < |p|
    requires var root := Root(p[s[k].funcIdx]);
      ValidPath(root, path) && NodeAt(root, path).Loop? && NodeAt(root, path).loopIdx == s[k].labels[j].loopIdx
    ensures NodeAt(Root(p[s[k].funcIdx]), path).insts == s[k].labels[j].body
  {
    var root, lab := Root(p[s[k].funcIdx]), s[k].labels[j];
    assert FrameIn(p, s[k]) && LabelIn(root, lab);
    var own: Path :| LeadsTo(root, own, Loop(lab.loopIdx, lab.body));
    SameNumberSameLoop(root, own, path);
  }

  // ------------------------------------------------------------------ modified locals

  lemma {:induction false} ReportOfFunction(p: Program, r: ModifiedLocals.Report, from: nat) returns (f: nat)
    requires from <= |p| && r in ModifiedLocals.ProgramReports(p[from..])
    ensures f < |p| && r in ModifiedLocals.Reports(p[f].funcIdx, p[f].block)
    decreases |p| - from
  {
    assert p[from..][1..] == p[from + 1..];
    if r in ModifiedLocals.Reports(p[from].funcIdx, p[from].block) {
      f := from;
    } else {
      f := ReportOfFunction(p, r, from + 1);
    }
  }

  /** A report comes from a loop of the function it names. */
  lemma {:induction false} ReportedNode(p: Program, r: ModifiedLocals.Report) returns (path: Path)
    requires WellIndexed(p) && r in ModifiedLocals.ProgramReports(p)
    ensures 0 <= r.funcIdx < |p| && ModifiedLocals.ReportAt(r.funcIdx, Root(p[r.funcIdx]), path, r)
  {
    assert p[0..] == p;
    var f := ReportOfFunction(p, r, 0);
    path := ModifiedLocals.ReportedPath(f, Root(p[f]), r);
  }

  /** A report names a loop of the program, and lists a local exactly if some node inside that loop
      assigns it. */
  lemma {:induction false} ReportedSetExact(res: Results, r: ModifiedLocals.Report) returns (path: Path)
    requires Computed(res) && r in res.modified
    ensures 0 <= r.funcIdx < |res.program| && ValidPath(Root(res.program[r.funcIdx]), path)
    ensures var loop := NodeAt(Root(res.program[r.funcIdx]), path);
      && loop.Loop? && loop.loopIdx == r.loopIdx
      && forall x :: x in r.locals <==> exists more: Path :: ModifiedLocals.AssignsAt(loop, more, x)
  {
    path := ReportedNode(res.program, r);
    var loop := NodeAt(Root(res.program[r.funcIdx]), path);
    forall x
      ensures x in r.locals <==> exists more: Path :: ModifiedLocals.AssignsAt(loop, more, x)
    {
      ModifiedLocals.ModifiedExact(loop, x);
    }
  }

  /** For every run of the program and every loop it enters: whatever the analysis reports under the
      key of that loop contains every local that differs later inside the loop, or right after it. */
  lemma {:induction false} ReportedLocalsAreEnough(res: Results, run: seq<State>, cs: seq<Choice>, f: nat,
                                                  locals: map<int, int>, from: nat, to: nat, k: nat, j: nat,
                                                  r: ModifiedLocals.Report, x: int)
    requires Computed(res) && IsProgramRun(res.program, run, cs, f, locals)
    requires from <= to < |run| && AtHeader(run[from], k, j) && k < |run[to]|
    requires forall u :: from <= u < to ==> Active(run[u], k, j)
    requires r in res.modified && (r.funcIdx, r.loopIdx) == (run[from][k].funcIdx, run[from][k].labels[j].loopIdx)
    requires x !in r.locals
    ensures ModifiedLocals.SameAt(run[from][k].locals, run[to][k].locals, x)
  {
    var p := res.program;
    var path := ReportedNode(p, r);
    RunIn(p, run, cs, f, locals, from);
    LoopOfLabel(p, run[from], k, j, path);
    var part := run[from..to + 1];
    assert part[0] == run[from] && part[to - from] == run[to];
    ModifiedLocals.ModifiedLocalsSound(p, part, cs[from..to], k, j, to - from);
  }

  lemma {:induction false} ReportsInProgram(p: Program, r: ModifiedLocals.Report, f: nat)
    requires f < |p| && r in ModifiedLocals.Reports(p[f].funcIdx, p[f].block)
    ensures r in ModifiedLocals.ProgramReports(p)
    decreases |p|
  {
    if f == 0 {
    } else {
      assert p[1..][f - 1] == p[f];
      ReportsInProgram(p[1..], r, f - 1);
    }
  }

  /** And something is reported for every loop that a run enters. */
  lemma {:induction false} EveryLoopIsReported(res: Results, run: seq<State>, cs: seq<Choice>, f: nat,
                                              locals: map<int, int>, t: nat, k: nat, j: nat)
      returns (r: ModifiedLocals.Report)
    requires Computed(res) && IsProgramRun(res.program, run, cs, f, locals)
    requires t < |run| && AtHeader(run[t], k, j)
    ensures r in res.modified && (r.funcIdx, r.loopIdx) == (run[t][k].funcIdx, run[t][k].labels[j].loopIdx)
  {
    var p, fr, lab := res.program, run[t][k], run[t][k].labels[j];
    RunIn(p, run, cs, f, locals, t);
    assert FrameIn(p, fr) && LabelIn(Root(p[fr.funcIdx]), lab);
    var path: Path :| LeadsTo(Root(p[fr.funcIdx]), path, Loop(lab.loopIdx, lab.body));
    r := ModifiedLocals.Report(fr.funcIdx, lab.loopIdx, ModifiedLocals.Modified(lab.body));
    ModifiedLocals.PathReported(fr.funcIdx, Root(p[fr.funcIdx]), path, r);
    ReportsInProgram(p, r, fr.funcIdx);
  }

  // ------------------------------------------------------------------ checkpoints

  /** The pass looked at the loop with this number. */
  ghost predicate Visited(p: Program, f: int, loopIdx: int) {
    0 <= f < |p| && exists path: Path :: VisitedAt(p, f, loopIdx, path)
  }

  ghost predicate VisitedAt(p: Program, f: int, loopIdx: int, path: Path)
    requires 0 <= f < |p|
  {
    && LoopCkpt.Scanned(Root(p[f]), path, SimpleFunc.SimpleSet(p)) && ValidPath(Root(p[f]), path)
    && NodeAt(Root(p[f]), path).Loop? && NodeAt(Root(p[f]), path).loopIdx == loopIdx
  }

  lemma {:induction false} SkipsInProgram(p: Program, simple: set<int>, key: LoopCkpt.Key, f: nat)
    requires f < |p| && key in LoopCkpt.Skips(p[f].funcIdx, p[f].block, simple)
    ensures key in LoopCkpt.SkipList(p, simple)
    decreases |p|
  {
    if f == 0 {
    } else {
      assert p[1..][f - 1] == p[f];
      SkipsInProgram(p[1..], simple, key, f - 1);
    }
  }

  lemma {:induction false} SkipOfFunction(p: Program, simple: set<int>, key: LoopCkpt.Key) returns (f: nat)
    requires key in LoopCkpt.SkipList(p, simple)
    ensures f < |p| && key in LoopCkpt.Skips(p[f].funcIdx, p[f].block, simple)
    decreases |p|
  {
    if key in LoopCkpt.Skips(p[0].funcIdx, p[0].block, simple) {
      f := 0;
    } else {
      f := SkipOfFunction(p[1..], simple, key);
      f := f + 1;
    }
  }

  /** No key is listed twice. */
  lemma {:induction false} KeysListedOnce(res: Results)
    requires Computed(res)
    ensures forall i, j :: 0 <= i < j < |res.skips| ==> res.skips[i] != res.skips[j]
  {
    LoopCkpt.ListedOnce(res.program, SimpleFunc.SimpleSet(res.program));
    Translator.KeysFrom(res.program, 0);
    var keys := LoopKeys(res.program);
    forall i, j | 0 <= i < j < |res.skips|
      ensures res.skips[i] != res.skips[j]
    {
      if res.skips[i] == res.skips[j] {
        Twice(res.skips, i, j);
        Once(keys, res.skips[i]);
      }
    }
  }

  lemma {:induction false} Twice<T>(xs: seq<T>, i: nat, j: nat)
    requires i < j < |xs| && xs[i] == xs[j]
    ensures multiset(xs)[xs[i]] >= 2
  {
    assert xs == xs[..j] + [xs[j]] + xs[j + 1..];
    assert xs[i] in xs[..j];
  }

  lemma {:induction false} Once<T>(xs: seq<T>, x: T)
    requires forall i, j :: 0 <= i < j < |xs| ==> xs[i] != xs[j]
    ensures multiset(xs)[x] <= 1
  {
    if xs == [] {
    } else {
      Once(xs[1..], x);
      assert xs == [xs[0]] + xs[1..];
      assert forall j :: 0 < j < |xs| ==> xs[j] == xs[1..][j - 1];
      assert x == xs[0] ==> x !in xs[1..];
    }
  }

  lemma {:induction false} KeyNamesFunction(f: int, root: Inst, simple: set<int>, key: LoopCkpt.Key)
    requires key in LoopCkpt.Skips1(f, root, simple)
    ensures key.0 == f
  {
    var path := LoopCkpt.SkippedPath(f, root, simple, key);
  }

  /** A listed key is listed by the function it names. */
  lemma {:induction false} ListedByFunction(res: Results, key: LoopCkpt.Key)
    requires Computed(res) && key in res.skips
    ensures 0 <= key.0 < |res.program|
    ensures key in LoopCkpt.Skips1(key.0, Root(res.program[key.0]), SimpleFunc.SimpleSet(res.program))
  {
    var p, simple := res.program, SimpleFunc.SimpleSet(res.program);
    var f := SkipOfFunction(p, simple, key);
    KeyNamesFunction(f, Root(p[f]), simple, key);
  }

  /** A call of a non-simple function, or a loop whose key is not listed: it carries a checkpoint. */
  ghost predicate Carries(res: Results, f: int, inst: Inst) {
    || ((inst.Call? || inst.CallIndirect?) && CalleeIdx(inst) !in SimpleFunc.SimpleSet(res.program))
    || (inst.Loop? && (f, inst.loopIdx) !in res.skips)
  }

  /** A loop with a bounded body is not listed. */
  lemma {:induction false} BoundedIsUnlisted(res: Results, f: nat, path: Path)
    requires Computed(res) && f < |res.program| && ValidPath(Root(res.program[f]), path)
    requires NodeAt(Root(res.program[f]), path).Loop?
    requires LoopCkpt.Noinf(NodeAt(Root(res.program[f]), path).insts, SimpleFunc.SimpleSet(res.program))
    ensures (f, NodeAt(Root(res.program[f]), path).loopIdx) !in res.skips
  {
    var p, simple, root := res.program, SimpleFunc.SimpleSet(res.program), Root(res.program[f]);
    var key := (f, NodeAt(root, path).loopIdx);
    if key in res.skips {
      ListedByFunction(res, key);
      var listed := LoopCkpt.SkippedPath(f, root, simple, key);
      assert Translator.CountsFrom(LoopNumbers(p[f].block), 0);
      SameNumberSameLoop(root, listed, path);
    }
  }

  /** Every key in the list names a loop that strictly contains, at some depth, a call of a non-simple
      function or a loop whose own key is not in the list. */
  lemma {:induction false} SkippedLoopsCarry(res: Results, key: LoopCkpt.Key) returns (path: Path, more: Path)
    requires Computed(res) && key in res.skips
    ensures 0 <= key.0 < |res.program| && ValidPath(Root(res.program[key.0]), path)
    ensures NodeAt(Root(res.program[key.0]), path).Loop? && NodeAt(Root(res.program[key.0]), path).loopIdx == key.1
    ensures more != [] && ValidPath(Root(res.program[key.0]), path + more)
    ensures Carries(res, key.0, NodeAt(Root(res.program[key.0]), path + more))
  {
    ListedByFunction(res, key);
    var root, simple := Root(res.program[key.0]), SimpleFunc.SimpleSet(res.program);
    path, more := LoopCkpt.SkippedLoopHoldsCarrier(key.0, root, simple, key);
    var inst := NodeAt(root, path + more);
    if inst.Loop? {
      BoundedIsUnlisted(res, key.0, path + more);
    }
  }

  /** For every run and every loop it enters that the pass visited and did not list: a pass through
      the body ends within a bound given by the sizes of the body and of its simple callees: if no
      function has more than `max` tokens, within `max + 4` steps for each token of the body. */
  lemma {:induction false} UnlistedLoopsAreShort(res: Results, run: seq<State>, cs: seq<Choice>, f: nat,
                                                locals: map<int, int>, from: nat, to: nat, k: nat, j: nat)
    requires Computed(res) && IsProgramRun(res.program, run, cs, f, locals)
    requires from <= to < |run| && AtHeader(run[from], k, j)
    requires forall u :: from <= u <= to ==> Active(run[u], k, j)
    requires forall u :: from <= u < to ==> !IsBackEdge(run[u], cs[u], k, j)
    requires Visited(res.program, run[from][k].funcIdx, run[from][k].labels[j].loopIdx)
    requires (run[from][k].funcIdx, run[from][k].labels[j].loopIdx) !in res.skips
    ensures to - from <= Latency.Size(res.program, run[from][k].labels[j].body)
    ensures forall max: nat :: Latency.BodiesUpTo(res.program, max) ==>
      to - from <= (max + 4) * |Parser.Print(run[from][k].labels[j].body)|
  {
    var p, g, i := res.program, run[from][k].funcIdx, run[from][k].labels[j].loopIdx;
    var simple := SimpleFunc.SimpleSet(p);
    var path: Path :| VisitedAt(p, g, i, path);
    RunIn(p, run, cs, f, locals, from);
    LoopOfLabel(p, run[from], k, j, path);
    if (g, i) in LoopCkpt.Skips1(g, Root(p[g]), simple) {
      SkipsInProgram(p, simple, (g, i), g);
    }
    var part, choices := run[from..to + 1], cs[from..to];
    assert part[0] == run[from];
    Latency.UnlistedPassIsBounded(p, Root(p[g]), path, part, choices, k, j);
    var body := run[from][k].labels[j].body;
    forall max: nat | Latency.BodiesUpTo(p, max)
      ensures to - from <= (max + 4) * |Parser.Print(body)|
    {
      Latency.SizeInTokens(p, body, max);
    }
  }

  /** The checkpoints that are left when the analysis is followed. */
  ghost function PlanOf(res: Results): Plan {
    Plan(SimpleFunc.SimpleSet(res.program), set key | key in res.skips)
  }

  /** For every run of a program in which no skipped loop can be repeated quietly, and every stretch of
      it without a checkpoint: the length of the stretch is bounded by the static cost of the
      state it starts in. */
  lemma {:induction false} StretchesAreShort(res: Results, run: seq<State>, cs: seq<Choice>, f: nat,
                                            locals: map<int, int>, from: nat, to: nat)
    requires Computed(res) && IsProgramRun(res.program, run, cs, f, locals) && from <= to < |run|
    requires Latency.SafeProgram(PlanOf(res), res.program)
    requires forall u :: from <= u < to ==> !Emits(PlanOf(res), run[u], cs[u])
    ensures to - from <= Latency.StateCost(res.program, run[from], Latency.AllArmed(run[from]))
  {
    var p, plan := res.program, PlanOf(res);
    Latency.EnterIsSafe(plan, p[f], locals);
    Latency.SafeRun(p, plan, run, cs, from);
    var part := run[from..to + 1];
    assert part[0] == run[from];
    Latency.QuietRunsAreShort(p, plan, part, cs[from..to]);
  }

  /** For every run and every skipped loop it enters in which no branch comes before the first
      checkpoint: the run passes at least as many checkpoints as it completes iterations. */
  lemma {:induction false} GuardedLoopsKeepUp(res: Results, run: seq<State>, cs: seq<Choice>, f: nat,
                                             locals: map<int, int>, from: nat, to: nat, k: nat, j: nat)
    requires Computed(res) && IsProgramRun(res.program, run, cs, f, locals)
    requires from <= to < |run| && AtHeader(run[from], k, j)
    requires forall u :: from <= u <= to ==> Active(run[u], k, j)
    requires QuietExact.Guarded(PlanOf(res), run[from][k].funcIdx, run[from][k].labels[j].body)
    ensures Iterations(run[from..to + 1], cs[from..to], k, j, to - from)
      <= Events(PlanOf(res), run[from..to + 1], cs[from..to], to - from)
  {
    var plan, part := PlanOf(res), run[from..to + 1];
    QuietExact.GuardedHasNoQuietWayOut(plan, run[from][k].funcIdx, run[from][k].labels[j].body, j + 1, Brk(0));
    assert part[0] == run[from];
    assert ActiveThroughout(part, k, j);
    EventsCoverIterations(res.program, plan, part, cs[from..to], k, j, to - from);
  }
}
