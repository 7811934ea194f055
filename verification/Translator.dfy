/** The line translator: from the lines of a WAT file to the token stream of the analysis. */
module Translator {
  import opened Basics
  import opened WasmTree
  import opened Parser

  /** A line of the file: its first word, the function name on it (the word after the first one,
      or after "(func" on an import line), and the number on it. */
  datatype Text = Text(head: string, name: Option<string>, operand: Option<nat>)

  /** A line with its kind decided. */
  datatype Line = Line(kind: Kind, name: Option<string>, operand: Option<nat>)

  datatype Kind =
    | Import | FuncStart | BlockStart | LoopStart | BlockEnd
    | BranchIf | BranchTable | Branch | Leave | Tee | Set | IndirectCall | DirectCall | Other

  predicate StartsWith(s: string, prefix: string) {
    |prefix| <= |s| && s[..|prefix|] == prefix
  }

  /** Lines are told apart by prefixes, tried in this order. */
  function KindOf(head: string): Kind {
    if head == "(import" then Import
    else if StartsWith(head, "(func") then FuncStart
    else if StartsWith(head, "block") then BlockStart
    else if StartsWith(head, "loop") then LoopStart
    else if StartsWith(head, "end") then BlockEnd
    else if StartsWith(head, "br_if") then BranchIf
    else if StartsWith(head, "br_table") then BranchTable
    else if StartsWith(head, "br") then Branch
    else if StartsWith(head, "return") then Leave
    else if StartsWith(head, "local.tee") then Tee
    else if StartsWith(head, "local.set") then Set
    else if StartsWith(head, "call_indirect") then IndirectCall
    else if StartsWith(head, "call") then DirectCall
    else Other
  }

  function Classify(texts: seq<Text>): (lines: seq<Line>)
    ensures |lines| == |texts|
  {
    seq(|texts|, i requires 0 <= i < |texts| => Line(KindOf(texts[i].head), texts[i].name, texts[i].operand))
  }

  // ------------------------------------------------------------------ function names

  datatype Decl = Decl(imported: bool, name: string)

  predicate DeclaredIn(ds: seq<Decl>, name: string) {
    exists i :: 0 <= i < |ds| && ds[i].name == name
  }

  /** Imports and functions in the order of the file; None if a name is missing or repeated. */
  function Declared(lines: seq<Line>): Option<seq<Decl>> {
    if lines == [] then Some([])
    else
      var last := lines[|lines| - 1];
      match Declared(lines[..|lines| - 1])
      case None => None
      case Some(ds) => Declare(ds, last)
  }

  function Declare(ds: seq<Decl>, line: Line): Option<seq<Decl>> {
    var kind := line.kind;
    if kind != Import && kind != FuncStart then Some(ds)
    else if line.name.None? || DeclaredIn(ds, line.name.value) then None
    else Some(ds + [Decl(kind == Import, line.name.value)])
  }

  function Imports(ds: seq<Decl>): nat {
    if ds == [] then 0
    else Imports(ds[..|ds| - 1]) + (if ds[|ds| - 1].imported then 1 else 0)
  }

  /** The dictionary built in the first loop. */
  ghost predicate Indexes(names: map<string, int>, ds: seq<Decl>) {
    && |names| == |ds|
    && (forall name :: name in names <==> DeclaredIn(ds, name))
    && (forall i :: 0 <= i < |ds| ==> ds[i].name in names && names[ds[i].name] == i)
  }

  lemma {:induction false} IndexesSnoc(names: map<string, int>, ds: seq<Decl>, d: Decl)
    requires Indexes(names, ds) && d.name !in names
    ensures Indexes(names[d.name := |names|], ds + [d])
  {
    var ds' := ds + [d];
    assert ds'[|ds|] == d;
    forall name
      ensures name in names[d.name := |names|] <==> DeclaredIn(ds', name)
    {
      if name != d.name && DeclaredIn(ds, name) {
        var i :| 0 <= i < |ds| && ds[i].name == name;
        assert ds'[i].name == name;
      }
    }
  }

  /** The declarations leave no choice for the dictionary. */
  lemma {:induction false} IndexesUnique(names: map<string, int>, names': map<string, int>, ds: seq<Decl>)
    requires Indexes(names, ds) && Indexes(names', ds)
    ensures names == names'
  {
    forall name | name in names
      ensures name in names' && names[name] == names'[name]
    {
      assert DeclaredIn(ds, name);
    }
    assert names.Keys == names'.Keys;
  }

  lemma {:induction false} DeclaredSnoc(lines: seq<Line>, i: nat, ds: seq<Decl>)
    requires i < |lines| && Declared(lines[..i]) == Some(ds)
    ensures Declared(lines[..i + 1]) == Declare(ds, lines[i])
  {
    assert lines[..i + 1][..i] == lines[..i];
  }

  /** A new name on a declaring line. */
  lemma {:induction false} DeclareName(names: map<string, int>, ds: seq<Decl>, line: Line)
    requires Indexes(names, ds) && (line.kind == Import || line.kind == FuncStart)
    requires line.name.Some? && line.name.value !in names
    ensures var d := Decl(line.kind == Import, line.name.value);
      && Declare(ds, line) == Some(ds + [d])
      && Indexes(names[line.name.value := |names|], ds + [d])
      && Imports(ds + [d]) == Imports(ds) + (if line.kind == Import then 1 else 0)
  {
    var d := Decl(line.kind == Import, line.name.value);
    IndexesSnoc(names, ds, d);
  }

  lemma {:induction false} DeclaredStuck(lines: seq<Line>, i: nat)
    requires i <= |lines| && Declared(lines[..i]) == None
    ensures Declared(lines) == None
    decreases |lines| - i
  {
    if i == |lines| {
      assert lines[..i] == lines;
    } else {
      assert lines[..i + 1][..i] == lines[..i];
      DeclaredStuck(lines, i + 1);
    }
  }

  lemma {:induction false} NameTaken(lines: seq<Line>, i: nat, dict: Dict)
    requires i < |lines| && (lines[i].kind == Import || lines[i].kind == FuncStart)
    requires Known(lines[..i], dict) && lines[i].name.Some? && lines[i].name.value !in dict.names
    ensures Known(lines[..i + 1], Dict(dict.names[lines[i].name.value := |dict.names|],
                                       dict.importCount + (if lines[i].kind == Import then 1 else 0)))
  {
    var ds := Declared(lines[..i]).value;
    DeclaredSnoc(lines, i, ds);
    DeclareName(dict.names, ds, lines[i]);
  }

  lemma {:induction false} NameRefused(lines: seq<Line>, i: nat, dict: Dict)
    requires i < |lines| && (lines[i].kind == Import || lines[i].kind == FuncStart)
    requires Known(lines[..i], dict) && (lines[i].name.None? || lines[i].name.value in dict.names)
    ensures Declared(lines) == None
  {
    DeclaredSnoc(lines, i, Declared(lines[..i]).value);
    DeclaredStuck(lines, i + 1);
  }

  /** The first loop of the translator. */
  method CollectNames(lines: seq<Line>) returns (r: Option<Dict>)
    ensures r.Some? <==> Declared(lines).Some?
    ensures r.Some? ==> Known(lines, r.value)
  {
    var names: map<string, int> := map[];
    var importCount, i := 0, 0;
    while i < |lines|
      invariant 0 <= i <= |lines| && 0 <= importCount
      invariant Known(lines[..i], Dict(names, importCount))
    {
      var line := lines[i];
      var kind := line.kind;
      if kind == Import || kind == FuncStart {
        if line.name.None? || line.name.value in names {
          NameRefused(lines, i, Dict(names, importCount));
          return None;
        }
        NameTaken(lines, i, Dict(names, importCount));
        if kind == Import {
          importCount := importCount + 1;
        }
        names := names[line.name.value := |names|];
      } else {
        DeclaredSnoc(lines, i, Declared(lines[..i]).value);
      }
      i := i + 1;
    }
    assert lines[..i] == lines;
    r := Some(Dict(names, importCount));
  }

  /** The positions of all names, and the number of imports that is taken off them. */
  datatype Dict = Dict(names: map<string, int>, importCount: nat) {
    /** The index a name stands for. */
    function Lookup(name: string): Option<int> {
      if name in names then Some(names[name] - importCount) else None
    }
  }

  /** The dictionary of a file. */
  ghost predicate Known(lines: seq<Line>, dict: Dict) {
    && Declared(lines).Some? && Indexes(dict.names, Declared(lines).value)
    && dict.importCount == Imports(Declared(lines).value)
  }

  // ------------------------------------------------------------------ tokens

  /** The token of a line inside a function; None where the translator stops with an error. */
  function BodyToken(dict: Dict, line: Line, loopIdx: nat): Option<Token> {
    match line.kind
    case BlockStart => Some(BeginBlock)
    case LoopStart => Some(BeginLoop(loopIdx))
    case BlockEnd => Some(EndBlock)
    case BranchIf => if line.operand.None? then None else Some(OpBrIf(line.operand.value))
    case BranchTable => Some(OpBrTable)
    case Branch => if line.operand.None? then None else Some(OpBr(line.operand.value))
    case Leave => Some(OpReturn)
    case Tee => if line.operand.None? then None else Some(OpTee(line.operand.value))
    case Set => if line.operand.None? then None else Some(OpSet(line.operand.value))
    case IndirectCall => Some(OpCallIndirect)
    case DirectCall =>
      if line.name.None? || dict.Lookup(line.name.value).None? then None
      else Some(OpCall(dict.Lookup(line.name.value).value))
    case _ => None
  }

  function Closing(open: bool): Tokens { if open then [EndBlock, EndFunc] else [] }

  function Put(ts: Tokens, r: Option<Tokens>): Option<Tokens> {
    if r.None? then None else Some(ts + r.value)
  }

  /** The tokens of the remaining lines, after `funcs` functions and `loops` loops of the last one. */
  function Emit(dict: Dict, lines: seq<Line>, funcs: nat, loops: nat, open: bool): Option<Tokens> {
    if lines == [] then Some(Closing(open))
    else
      var kind := lines[0].kind;
      if kind == FuncStart then
        Put(Closing(open) + [BeginFunc(funcs), BeginBlock], Emit(dict, lines[1..], funcs + 1, 0, true))
      else if kind == Import || kind == Other then Emit(dict, lines[1..], funcs, loops, open)
      else
        var t := BodyToken(dict, lines[0], loops);
        if t.None? then None
        else Put([t.value], Emit(dict, lines[1..], funcs, if kind == LoopStart then loops + 1 else loops, open))
  }

  lemma {:induction false} PutTwice(a: Tokens, b: Tokens, r: Option<Tokens>)
    ensures Put(a, Put(b, r)) == Put(a + b, r)
  {
    if r.Some? {
      assert a + (b + r.value) == a + b + r.value;
    }
  }

  lemma {:induction false} PutNothing(r: Option<Tokens>)
    ensures Put([], r) == r
  {
    if r.Some? {
      assert [] + r.value == r.value;
    }
  }

  /** The second loop of the translator. */
  method EmitTokens(dict: Dict, lines: seq<Line>) returns (r: Option<Tokens>)
    ensures r == Emit(dict, lines, 0, 0, false)
  {
    var out: Tokens := [];
    var funcs, loops, first := 0, 0, true;
    var i := 0;
    assert lines[0..] == lines;
    PutNothing(Emit(dict, lines, 0, 0, false));
    while i < |lines|
      invariant 0 <= i <= |lines| && 0 <= funcs && 0 <= loops
      invariant Emit(dict, lines, 0, 0, false)
        == Put(out, Emit(dict, lines[i..], funcs, loops, !first))
    {
      var line := lines[i];
      var kind := line.kind;
      assert lines[i..][0] == line && lines[i..][1..] == lines[i + 1..];
      if kind == FuncStart {
        ghost var ts := Closing(!first) + [BeginFunc(funcs), BeginBlock];
        PutTwice(out, ts, Emit(dict, lines[i + 1..], funcs + 1, 0, true));
        out := out + (Closing(!first) + [BeginFunc(funcs), BeginBlock]);
        first := false;
        funcs := funcs + 1;
        loops := 0;
      } else if kind != Import && kind != Other {
        var t := BodyToken(dict, line, loops);
        if t.None? {
          return None;
        }
        ghost var loops' := if kind == LoopStart then loops + 1 else loops;
        PutTwice(out, [t.value], Emit(dict, lines[i + 1..], funcs, loops', !first));
        out := out + [t.value];
        if kind == LoopStart {
          loops := loops + 1;
        }
      }
      i := i + 1;
    }
    assert lines[i..] == [];
    r := Some(out + Closing(!first));
  }

  /** The lines are translated as the two loops say, or not at all. */
  ghost predicate Translation(lines: seq<Line>, r: Option<Tokens>) {
    match Declared(lines)
    case None => r == None
    case Some(_) => exists dict :: Known(lines, dict) && r == Emit(dict, lines, 0, 0, false)
  }

  /** Translating a file: names first, then tokens; None where an assertion of the translator
      fails. */
  method Translate(texts: seq<Text>) returns (r: Option<Tokens>)
    ensures Translation(Classify(texts), r)
  {
    var lines := Classify(texts);
    var dict := CollectNames(lines);
    if dict.None? {
      return None;
    }
    r := EmitTokens(dict.value, lines);
  }

  // ------------------------------------------------------------------ acceptance

  /** Every function's constructs are closed exactly where it ends, counting `block`, `loop` and
      `end` lines only. */
  predicate Balanced(lines: seq<Line>, open: bool, depth: nat) {
    if lines == [] then !open || depth == 0
    else
      match lines[0].kind
      case FuncStart => (!open || depth == 0) && Balanced(lines[1..], true, 0)
      case Import => Balanced(lines[1..], open, depth)
      case Other => Balanced(lines[1..], open, depth)
      case BlockStart => open && Balanced(lines[1..], open, depth + 1)
      case LoopStart => open && Balanced(lines[1..], open, depth + 1)
      case BlockEnd => open && depth > 0 && Balanced(lines[1..], open, depth - 1)
      case _ => open && Balanced(lines[1..], open, depth)
  }

  /** The emitted tokens nest properly exactly when the lines do. */
  lemma {:induction false} EmitNested(dict: Dict, lines: seq<Line>,
                                     funcs: nat, loops: nat, open: bool, depth: nat)
    requires Emit(dict, lines, funcs, loops, open).Some?
    ensures Nested(Emit(dict, lines, funcs, loops, open).value, if open then depth + 1 else 0)
      <==> Balanced(lines, open, depth)
    decreases lines
  {
    if lines == [] {
      if open {
        assert [EndBlock, EndFunc] + [] == Closing(true);
      }
      return;
    }
    var kind := lines[0].kind;
    if kind == FuncStart {
      var rest := Emit(dict, lines[1..], funcs + 1, 0, true).value;
      EmitNested(dict, lines[1..], funcs + 1, 0, true, 0);
      var ts := [BeginFunc(funcs), BeginBlock] + rest;
      assert Closing(open) + [BeginFunc(funcs), BeginBlock] + rest == Closing(open) + ts;
      if open {
      } else {
        assert Closing(open) + ts == ts;
      }
    } else if kind == Import || kind == Other {
      EmitNested(dict, lines[1..], funcs, loops, open, depth);
    } else {
      EmitNestedBody(dict, lines, funcs, loops, open, depth);
    }
  }

  lemma {:induction false} EmitNestedBody(dict: Dict, lines: seq<Line>,
                                         funcs: nat, loops: nat, open: bool, depth: nat)
    requires Emit(dict, lines, funcs, loops, open).Some? && lines != []
    requires BodyToken(dict, lines[0], loops).Some?
    ensures Nested(Emit(dict, lines, funcs, loops, open).value, if open then depth + 1 else 0)
      <==> Balanced(lines, open, depth)
    decreases lines, 0
  {
    var kind := lines[0].kind;
    var loops' := if kind == LoopStart then loops + 1 else loops;
    var t := BodyToken(dict, lines[0], loops).value;
    var rest := Emit(dict, lines[1..], funcs, loops', open).value;
    assert ([t] + rest)[1..] == rest && ([t] + rest)[0] == t;
    if open {
      if Parser.Opens(t) {
        EmitNested(dict, lines[1..], funcs, loops', open, depth + 1);
      } else if t == EndBlock {
        if depth > 0 {
          EmitNested(dict, lines[1..], funcs, loops', open, depth - 1);
        } else {
          EmitStart(dict, lines[1..], funcs, loops', true);
        }
      } else {
        EmitNested(dict, lines[1..], funcs, loops', open, depth);
      }
    }
  }

  /** What an open function emits next is never its end_func: one end_block always comes first. */
  lemma {:induction false} EmitStart(dict: Dict, lines: seq<Line>, funcs: nat, loops: nat, open: bool)
    requires Emit(dict, lines, funcs, loops, open).Some? && open
    ensures Emit(dict, lines, funcs, loops, open).value != []
    ensures Emit(dict, lines, funcs, loops, open).value[0] != EndFunc
    decreases lines
  {
    if lines == [] {
    } else {
      var kind := lines[0].kind;
      if kind == Import || kind == Other {
        EmitStart(dict, lines[1..], funcs, loops, open);
      }
    }
  }

  /** The tokens of a file, as the translator produces them. */
  ghost predicate Translates(lines: seq<Line>, dict: Dict, ts: Tokens) {
    Known(lines, dict) && Emit(dict, lines, 0, 0, false) == Some(ts)
  }

  function Count(lines: seq<Line>, kind: Kind): nat {
    if lines == [] then 0 else (if lines[0].kind == kind then 1 else 0) + Count(lines[1..], kind)
  }

  lemma {:induction false} BalancedCounts(lines: seq<Line>, open: bool, depth: nat)
    requires Balanced(lines, open, depth) && (!open ==> depth == 0)
    ensures Count(lines, BlockEnd) == Count(lines, BlockStart) + Count(lines, LoopStart) + depth
  {
    if lines == [] {
    } else {
      var kind := lines[0].kind;
      var depth' := if kind == BlockStart || kind == LoopStart then depth + 1
                    else if kind == BlockEnd then depth - 1 else depth;
      BalancedCounts(lines[1..], open || kind == FuncStart, depth');
    }
  }

  /** What the translator produces is accepted by the parser exactly when every function is
      balanced. */
  lemma {:induction false} AcceptedIffBalanced(lines: seq<Line>, dict: Dict, ts: Tokens)
    requires Translates(lines, dict, ts)
    ensures ParseProgram(ts).Some? <==> Balanced(lines, false, 0)
  {
    EmitNested(dict, lines, 0, 0, false, 0);
    AcceptsNested(ts);
  }

  // ------------------------------------------------------------------ numbering

  /** Functions are numbered from `funcs`, loops from `loops` and then from 0 in each function. */
  predicate Numbered(ts: Tokens, funcs: nat, loops: nat) {
    if ts == [] then true
    else if ts[0].BeginFunc? then ts[0].funcIdx == funcs && Numbered(ts[1..], funcs + 1, 0)
    else if ts[0].BeginLoop? then ts[0].loopIdx == loops && Numbered(ts[1..], funcs, loops + 1)
    else Numbered(ts[1..], funcs, loops)
  }

  /** Tokens that carry no number can be put in front. */
  lemma {:induction false} NumberedSkip(pre: Tokens, ts: Tokens, funcs: nat, loops: nat)
    requires forall i :: 0 <= i < |pre| ==> !pre[i].BeginFunc? && !pre[i].BeginLoop?
    ensures Numbered(pre + ts, funcs, loops) == Numbered(ts, funcs, loops)
  {
    if pre == [] {
      assert pre + ts == ts;
    } else {
      assert (pre + ts)[1..] == pre[1..] + ts;
      NumberedSkip(pre[1..], ts, funcs, loops);
    }
  }

  lemma {:induction false} NumberedFunc(rest: Tokens, funcs: nat, loops: nat, open: bool)
    requires Numbered(rest, funcs + 1, 0)
    ensures Numbered(Closing(open) + [BeginFunc(funcs), BeginBlock] + rest, funcs, loops)
  {
    var ts := [BeginFunc(funcs)] + ([BeginBlock] + rest);
    NumberedSkip(Closing(open), ts, funcs, loops);
    assert Closing(open) + [BeginFunc(funcs), BeginBlock] + rest == Closing(open) + ts;
  }

  lemma {:induction false} EmitNumbered(dict: Dict, lines: seq<Line>, funcs: nat, loops: nat, open: bool)
    requires Emit(dict, lines, funcs, loops, open).Some?
    ensures Numbered(Emit(dict, lines, funcs, loops, open).value, funcs, loops)
    decreases lines
  {
    if lines == [] {
      NumberedSkip(Closing(open), [], funcs, loops);
      assert Closing(open) + [] == Closing(open);
      return;
    }
    var kind := lines[0].kind;
    if kind == FuncStart {
      EmitNumbered(dict, lines[1..], funcs + 1, 0, true);
      NumberedFunc(Emit(dict, lines[1..], funcs + 1, 0, true).value, funcs, loops, open);
    } else if kind == Import || kind == Other {
      EmitNumbered(dict, lines[1..], funcs, loops, open);
    } else {
      var t := BodyToken(dict, lines[0], loops).value;
      var loops' := if kind == LoopStart then loops + 1 else loops;
      var rest := Emit(dict, lines[1..], funcs, loops', open).value;
      EmitNumbered(dict, lines[1..], funcs, loops', open);
      assert ([t] + rest)[1..] == rest;
    }
  }

  /** `from`, `from + 1`, `from + 2`, ... */
  ghost predicate CountsFrom(xs: seq<int>, from: int) {
    forall i :: 0 <= i < |xs| ==> xs[i] == from + i
  }

  /** The loops of printed code are numbered in pre-order. */
  lemma {:induction false} PrintedNumbers(insts: seq<Inst>, rest: Tokens, funcs: nat, loops: nat)
    requires Numbered(Print(insts) + rest, funcs, loops)
    ensures CountsFrom(LoopNumbers(insts), loops)
    ensures Numbered(rest, funcs, loops + |LoopNumbers(insts)|)
    decreases insts, 1
  {
    if insts == [] {
      assert Print(insts) + rest == rest;
    } else {
      var own := LoopNumbers([insts[0]]);
      PrintedFirst(insts, rest, funcs, loops);
      PrintedNumbers(insts[1..], rest, funcs, loops + |own|);
      LoopNumbersCons(insts);
    }
  }

  lemma {:induction false} PrintedFirst(insts: seq<Inst>, rest: Tokens, funcs: nat, loops: nat)
    requires insts != [] && Numbered(Print(insts) + rest, funcs, loops)
    ensures CountsFrom(LoopNumbers([insts[0]]), loops)
    ensures Numbered(Print(insts[1..]) + rest, funcs, loops + |LoopNumbers([insts[0]])|)
    decreases insts, 0
  {
    PrintCons(insts, rest);
    PrintedHead(insts[0], Print(insts[1..]) + rest, funcs, loops);
  }

  lemma {:induction false} PrintCons(insts: seq<Inst>, rest: Tokens)
    requires insts != []
    ensures Print(insts) + rest == Print1(insts[0]) + (Print(insts[1..]) + rest)
  {
  }

  lemma {:induction false} PrintedHead(head: Inst, after: Tokens, funcs: nat, loops: nat)
    requires Numbered(Print1(head) + after, funcs, loops)
    ensures CountsFrom(LoopNumbers([head]), loops)
    ensures Numbered(after, funcs, loops + |LoopNumbers([head])|)
    decreases head, 1
  {
    if head.IsNested() {
      PrintedNest(head, after, funcs, loops);
    }
  }

  lemma {:induction false} PrintedNest(head: Inst, after: Tokens, funcs: nat, loops: nat)
    requires head.IsNested() && Numbered(Print1(head) + after, funcs, loops)
    ensures CountsFrom(LoopNumbers([head]), loops)
    ensures Numbered(after, funcs, loops + |LoopNumbers([head])|)
    decreases head, 0
  {
    var b := head.insts;
    assert [head][1..] == [] && LoopNumbers([]) == [];
    var inside := Print(b) + ([EndBlock] + after);
    if head.Block? {
      assert Print1(head) + after == [BeginBlock] + inside;
      NumberedSkip([BeginBlock], inside, funcs, loops);
      PrintedNumbers(b, [EndBlock] + after, funcs, loops);
      NumberedSkip([EndBlock], after, funcs, loops + |LoopNumbers(b)|);
      assert LoopNumbers([head]) == LoopNumbers(b);
    } else {
      assert Print1(head) + after == [BeginLoop(head.loopIdx)] + inside;
      assert ([BeginLoop(head.loopIdx)] + inside)[1..] == inside;
      PrintedNumbers(b, [EndBlock] + after, funcs, loops + 1);
      NumberedSkip([EndBlock], after, funcs, loops + 1 + |LoopNumbers(b)|);
      assert LoopNumbers([head]) == [head.loopIdx] + LoopNumbers(b);
    }
  }

  /** Function `k` of the parsed program carries number `from + k`, and its loops are numbered
      0, 1, 2, ... in pre-order. */
  ghost predicate ProgramNumbered(p: Program, from: nat) {
    forall k :: 0 <= k < |p| ==>
      p[k].funcIdx == from + k && CountsFrom(LoopNumbers(p[k].block), 0)
  }

  lemma {:induction false} PrintedProgramNumbers(p: Program, from: nat, loops: nat)
    requires Numbered(PrintProgram(p), from, loops)
    ensures ProgramNumbered(p, from)
    decreases |p|
  {
    if p == [] {
    } else {
      var f, rest := p[0], PrintProgram(p[1..]);
      var inside := [BeginBlock] + (Print(f.block) + ([EndBlock, EndFunc] + rest));
      assert PrintProgram(p) == [BeginFunc(f.funcIdx)] + inside;
      assert PrintProgram(p)[1..] == inside;
      NumberedSkip([BeginBlock], Print(f.block) + ([EndBlock, EndFunc] + rest), from + 1, 0);
      PrintedNumbers(f.block, [EndBlock, EndFunc] + rest, from + 1, 0);
      NumberedSkip([EndBlock, EndFunc], rest, from + 1, |LoopNumbers(f.block)|);
      PrintedProgramNumbers(p[1..], from + 1, |LoopNumbers(f.block)|);
      forall k | 0 <= k < |p|
        ensures p[k].funcIdx == from + k && CountsFrom(LoopNumbers(p[k].block), 0)
      {
        if k > 0 {
          assert p[k] == p[1..][k - 1];
        }
      }
    }
  }

  /** What the translator and the parser make of a file: functions are numbered by position, the
      loops of each function 0..n-1 in pre-order. */
  lemma {:induction false} TranslatedIsNumbered(lines: seq<Line>, dict: Dict, ts: Tokens)
    requires Translates(lines, dict, ts) && ParseProgram(ts).Some?
    ensures WellIndexed(ParseProgram(ts).value) && ProgramNumbered(ParseProgram(ts).value, 0)
  {
    EmitNumbered(dict, lines, 0, 0, false);
    AcceptedIsPrinted(ts);
    PrintedProgramNumbers(ParseProgram(ts).value, 0, 0);
  }

  lemma {:induction false} KeysFrom(p: Program, from: nat)
    requires ProgramNumbered(p, from)
    ensures forall i :: 0 <= i < |LoopKeys(p)| ==> LoopKeys(p)[i].0 >= from
    ensures forall i, j :: 0 <= i < j < |LoopKeys(p)| ==> LoopKeys(p)[i] != LoopKeys(p)[j]
    decreases |p|
  {
    if p == [] {
    } else {
      assert ProgramNumbered(p[1..], from + 1) by {
        forall k | 0 <= k < |p[1..]|
          ensures p[1..][k].funcIdx == from + 1 + k
            && CountsFrom(LoopNumbers(p[1..][k].block), 0)
        {
          assert p[1..][k] == p[k + 1];
        }
      }
      KeysFrom(p[1..], from + 1);
      var own := Tagged(p[0].funcIdx, LoopNumbers(p[0].block));
      assert LoopKeys(p) == own + LoopKeys(p[1..]);
      assert forall i :: 0 <= i < |own| ==> own[i] == (from as int, i);
    }
  }

  /** So the (function, loop) keys of the optimisation files name loops uniquely. */
  lemma {:induction false} KeysAreUnique(lines: seq<Line>, dict: Dict, ts: Tokens)
    requires Translates(lines, dict, ts) && ParseProgram(ts).Some?
    ensures var keys := LoopKeys(ParseProgram(ts).value);
      forall i, j :: 0 <= i < j < |keys| ==> keys[i] != keys[j]
  {
    TranslatedIsNumbered(lines, dict, ts);
    KeysFrom(ParseProgram(ts).value, 0);
  }

  // ------------------------------------------------------------------ what prefixes decide

  lemma {:induction false} FirstChar(head: string, prefix: string)
    requires prefix != [] && head != [] && head[0] != prefix[0]
    ensures !StartsWith(head, prefix) && head != prefix
  {
  }

  /** A line that starts with a letter `r` can only be a return. */
  lemma {:induction false} StartsWithR(head: string)
    requires head != [] && head[0] == 'r'
    ensures KindOf(head) == if StartsWith(head, "return") then Leave else Other
  {
    FirstChar(head, "(import");
    FirstChar(head, "(func");
    FirstChar(head, "block");
    FirstChar(head, "loop");
    FirstChar(head, "end");
    FirstChar(head, "br_if");
    FirstChar(head, "br_table");
    FirstChar(head, "br");
    FirstChar(head, "local.tee");
    FirstChar(head, "local.set");
    FirstChar(head, "call_indirect");
    FirstChar(head, "call");
  }

  /** Whatever starts with "return" is taken for a return; so are the tail calls, and with that the
      call disappears. */
  lemma {:induction false} TailCallBecomesReturn(head: string)
    requires StartsWith(head, "return")
    ensures KindOf(head) == Leave
    ensures StartsWith("return_call", "return") && StartsWith("return_call_indirect", "return")
  {
    assert head[0] == head[..6][0] == 'r';
    StartsWithR(head);
    assert "return_call"[..6] == "return" && "return_call_indirect"[..6] == "return";
  }

  predicate IsIf(text: Text) { StartsWith(text.head, "if") }

  /** Lines that open an `if` are dropped. */
  lemma {:induction false} IfIsDropped(text: Text)
    requires IsIf(text)
    ensures KindOf(text.head) == Other
  {
    var head := text.head;
    assert head[0] == head[..2][0] == 'i';
    FirstChar(head, "(import");
    FirstChar(head, "(func");
    FirstChar(head, "block");
    FirstChar(head, "loop");
    FirstChar(head, "end");
    FirstChar(head, "br_if");
    FirstChar(head, "br_table");
    FirstChar(head, "br");
    FirstChar(head, "return");
    FirstChar(head, "local.tee");
    FirstChar(head, "local.set");
    FirstChar(head, "call_indirect");
    FirstChar(head, "call");
  }

  function CountIfs(texts: seq<Text>): nat {
    if texts == [] then 0 else (if IsIf(texts[0]) then 1 else 0) + CountIfs(texts[1..])
  }

  predicate Opening(text: Text) {
    IsIf(text) || KindOf(text.head) == BlockStart || KindOf(text.head) == LoopStart
  }

  predicate OpenAfter(text: Text, open: bool) { open || KindOf(text.head) == FuncStart }

  /** How many constructs are open after the line. */
  function DepthAfter(text: Text, depth: nat): nat {
    if KindOf(text.head) == FuncStart then 0
    else if Opening(text) then depth + 1
    else if KindOf(text.head) == BlockEnd && depth > 0 then depth - 1
    else depth
  }

  /** Where a line may stand. */
  predicate FitsHere(text: Text, open: bool, depth: nat) {
    var kind := KindOf(text.head);
    if kind == FuncStart then !open || depth == 0
    else if Opening(text) then open
    else if kind == BlockEnd then open && depth > 0
    else open || kind == Import || kind == Other
  }

  lemma {:induction false} IfsAreOther(text: Text)
    ensures IsIf(text) ==> KindOf(text.head) == Other
  {
    if IsIf(text) {
      IfIsDropped(text);
    }
  }

  /** Blocks, loops and ifs are closed exactly where the function they are in ends. */
  predicate WellNested(texts: seq<Text>, open: bool, depth: nat) {
    if texts == [] then !open || depth == 0
    else
      && FitsHere(texts[0], open, depth)
      && WellNested(texts[1..], OpenAfter(texts[0], open), DepthAfter(texts[0], depth))
  }

  lemma {:induction false} ClassifyTail(texts: seq<Text>)
    requires texts != []
    ensures Classify(texts)[1..] == Classify(texts[1..])
    ensures Classify(texts)[0] == Line(KindOf(texts[0].head), texts[0].name, texts[0].operand)
  {
  }

  /** Without an `if`, well-nested is balanced. */
  lemma {:induction false} NestedWithoutIf(texts: seq<Text>, open: bool, depth: nat)
    requires WellNested(texts, open, depth) && CountIfs(texts) == 0
    ensures Balanced(Classify(texts), open, depth)
  {
    if texts == [] {
    } else {
      ClassifyTail(texts);
      NestedWithoutIf(texts[1..], OpenAfter(texts[0], open), DepthAfter(texts[0], depth));
    }
  }

  /** And the other way round. */
  lemma {:induction false} BalancedWithoutIf(texts: seq<Text>, open: bool, depth: nat)
    requires Balanced(Classify(texts), open, depth) && CountIfs(texts) == 0
    ensures WellNested(texts, open, depth)
  {
    if texts == [] {
    } else {
      ClassifyTail(texts);
      BalancedWithoutIf(texts[1..], OpenAfter(texts[0], open), DepthAfter(texts[0], depth));
    }
  }

  /** A well-nested file has an `end` for every block, loop and `if`. */
  lemma {:induction false} NestedCounts(texts: seq<Text>, open: bool, depth: nat)
    requires WellNested(texts, open, depth) && (!open ==> depth == 0)
    ensures var lines := Classify(texts);
      Count(lines, BlockEnd) == Count(lines, BlockStart) + Count(lines, LoopStart) + CountIfs(texts) + depth
  {
    if texts == [] {
    } else {
      ClassifyTail(texts);
      IfsAreOther(texts[0]);
      NestedCounts(texts[1..], OpenAfter(texts[0], open), DepthAfter(texts[0], depth));
    }
  }

  /** An `if` line is dropped while its `end` is kept: a well-nested file is accepted exactly when it
      has no `if`. */
  lemma {:induction false} IfIsRejected(texts: seq<Text>, dict: Dict, ts: Tokens)
    requires WellNested(texts, false, 0) && Translates(Classify(texts), dict, ts)
    ensures ParseProgram(ts).Some? <==> forall i :: 0 <= i < |texts| ==> !IsIf(texts[i])
  {
    AcceptedIffBalanced(Classify(texts), dict, ts);
    NoIfsCounted(texts);
    if CountIfs(texts) == 0 {
      NestedWithoutIf(texts, false, 0);
    } else {
      NestedCounts(texts, false, 0);
      if Balanced(Classify(texts), false, 0) {
        BalancedCounts(Classify(texts), false, 0);
      }
    }
  }

  lemma {:induction false} NoIfsCounted(texts: seq<Text>)
    ensures CountIfs(texts) == 0 <==> forall i :: 0 <= i < |texts| ==> !IsIf(texts[i])
  {
    if texts == [] {
    } else {
      NoIfsCounted(texts[1..]);
      assert forall i :: 0 < i < |texts| ==> texts[i] == texts[1..][i - 1];
    }
  }

  /** The smallest such file: one function that holds an `if` and its `end`. */
  function IfFile(name: string): seq<Text> {
    [Text("(func", Some(name), None), Text("if", None, None), Text("end", None, None)]
  }

  /** It can be translated, but not parsed. */
  lemma {:induction false} IfFileIsRejected(name: string, dict: Dict)
    requires Known(Classify(IfFile(name)), dict)
    ensures WellNested(IfFile(name), false, 0)
    ensures Emit(dict, Classify(IfFile(name)), 0, 0, false).Some?
    ensures ParseProgram(Emit(dict, Classify(IfFile(name)), 0, 0, false).value) == None
  {
    var texts := IfFile(name);
    IfIsDropped(texts[1]);
    assert texts[1..] == [texts[1], texts[2]] && texts[1..][1..] == [texts[2]];
    assert WellNested([texts[2]], true, 1);
    assert WellNested(texts[1..], true, 0);
    IfFileTranslates(name, dict);
    IfIsRejected(texts, dict, Emit(dict, Classify(texts), 0, 0, false).value);
  }

  lemma {:induction false} IfFileTranslates(name: string, dict: Dict)
    ensures Emit(dict, Classify(IfFile(name)), 0, 0, false).Some?
  {
    var lines := Classify(IfFile(name));
    IfIsDropped(IfFile(name)[1]);
    assert lines[1..][1..] == [lines[2]] && [lines[2]][1..] == [];
    assert Emit(dict, [lines[2]], 1, 0, true).Some?;
  }

}
