/** What the parsed program has to do with the lines of the file: each function is the one of its
    line, and each call goes to the function whose name is on the call's line. */
module Resolution {
  import opened Basics
  import opened WasmTree
  import opened Parser
  import opened Translator
  import opened Provenance

  function FuncsAbove(lines: seq<Line>, i: nat): nat
    requires i <= |lines|
  {
    if i == 0 then 0 else FuncsAbove(lines, i - 1) + (if lines[i - 1].kind == FuncStart then 1 else 0)
  }

  function ImportsAbove(lines: seq<Line>, i: nat): nat
    requires i <= |lines|
  {
    if i == 0 then 0 else ImportsAbove(lines, i - 1) + (if lines[i - 1].kind == Import then 1 else 0)
  }

  predicate Declares(line: Line) { line.kind == Import || line.kind == FuncStart }

  function DeclOf(line: Line): Decl
    requires line.name.Some?
  {
    Decl(line.kind == Import, line.name.value)
  }

  // ------------------------------------------------------------------ declarations and their lines

  /** The place of line `i` among the declarations. */
  function Slot(lines: seq<Line>, i: nat): nat
    requires i <= |lines|
  {
    FuncsAbove(lines, i) + ImportsAbove(lines, i)
  }

  ghost predicate SlotOk(lines: seq<Line>, ds: seq<Decl>, i: nat)
    requires i < |lines|
  {
    Declares(lines[i]) ==>
      lines[i].name.Some? && Slot(lines, i) < |ds| && ds[Slot(lines, i)] == DeclOf(lines[i])
  }

  /** The first `n` lines yield these declarations. */
  lemma {:induction false} DeclaredUpTo(lines: seq<Line>, n: nat) returns (ds: seq<Decl>)
    requires Declared(lines).Some? && n <= |lines|
    ensures Declared(lines[..n]) == Some(ds)
    ensures |ds| == Slot(lines, n) && Imports(ds) == ImportsAbove(lines, n)
    ensures forall i :: 0 <= i < n ==> SlotOk(lines, ds, i)
  {
    if n == 0 {
      ds := [];
    } else {
      var before := DeclaredUpTo(lines, n - 1);
      NextDeclared(lines, n - 1, before);
      ds := Declare(before, lines[n - 1]).value;
      DeclareCounts(before, lines[n - 1]);
      SlotsSnoc(lines, n - 1, before, ds);
    }
  }

  lemma {:induction false} NextDeclared(lines: seq<Line>, n: nat, before: seq<Decl>)
    requires Declared(lines).Some? && n < |lines| && Declared(lines[..n]) == Some(before)
    ensures Declare(before, lines[n]).Some? && Declared(lines[..n + 1]) == Declare(before, lines[n])
  {
    DeclaredSnoc(lines, n, before);
    if Declared(lines[..n + 1]).None? {
      DeclaredStuck(lines, n + 1);
    }
  }

  lemma {:induction false} DeclareCounts(before: seq<Decl>, line: Line)
    requires Declare(before, line).Some?
    ensures var ds := Declare(before, line).value;
      && |ds| == |before| + (if Declares(line) then 1 else 0)
      && Imports(ds) == Imports(before) + (if line.kind == Import then 1 else 0)
  {
    if Declares(line) {
      assert (before + [DeclOf(line)])[..|before|] == before;
    }
  }

  /** One more line. */
  lemma {:induction false} SlotsSnoc(lines: seq<Line>, n: nat, before: seq<Decl>, ds: seq<Decl>)
    requires n < |lines| && Declare(before, lines[n]) == Some(ds) && |before| == Slot(lines, n)
    requires forall i :: 0 <= i < n ==> SlotOk(lines, before, i)
    ensures forall i :: 0 <= i < n + 1 ==> SlotOk(lines, ds, i)
  {
    forall i | 0 <= i < n + 1
      ensures SlotOk(lines, ds, i)
    {
      assert i < n ==> SlotOk(lines, before, i);
    }
  }

  /** Every declared name is on some line. */
  lemma {:induction false} DeclaringLine(lines: seq<Line>, n: nat, ds: seq<Decl>, name: string) returns (i: nat)
    requires n <= |lines| && Declared(lines[..n]) == Some(ds) && DeclaredIn(ds, name)
    ensures i < n && Declares(lines[i]) && lines[i].name == Some(name)
    decreases n
  {
    assert n > 0;
    assert lines[..n][..n - 1] == lines[..n - 1];
    var before := Declared(lines[..n - 1]).value;
    if Declares(lines[n - 1]) && lines[n - 1].name == Some(name) {
      i := n - 1;
    } else {
      var q :| 0 <= q < |ds| && ds[q].name == name;
      assert before[q] == ds[q];
      i := DeclaringLine(lines, n - 1, before, name);
    }
  }

  /** Every function and import line has a name, and no two of them have the same. */
  ghost predicate NamesOk(lines: seq<Line>, n: nat)
    requires n <= |lines|
  {
    && (forall i :: 0 <= i < n && Declares(lines[i]) ==> lines[i].name.Some?)
    && (forall i, j :: 0 <= i < j < n && Declares(lines[i]) && Declares(lines[j]) ==> lines[i].name != lines[j].name)
  }

  lemma {:induction false} DeclaredOnLine(lines: seq<Line>, n: nat, ds: seq<Decl>, name: string)
    requires n <= |lines| && Declared(lines[..n]) == Some(ds)
    ensures DeclaredIn(ds, name) <==> exists i :: 0 <= i < n && Declares(lines[i]) && lines[i].name == Some(name)
  {
    if DeclaredIn(ds, name) {
      var i := DeclaringLine(lines, n, ds, name);
    }
    forall i | 0 <= i < n && Declares(lines[i]) && lines[i].name == Some(name)
      ensures DeclaredIn(ds, name)
    {
      var all := DeclaredUpTo(lines[..n], n);
      assert lines[..n][..n] == lines[..n] && lines[..n][i] == lines[i];
      assert SlotOk(lines[..n], all, i);
    }
  }

  /** The declarations are accepted exactly when the names are. */
  lemma {:induction false} DeclaredExact(lines: seq<Line>, n: nat)
    requires n <= |lines|
    ensures Declared(lines[..n]).Some? <==> NamesOk(lines, n)
  {
    if n == 0 {
      assert lines[..0] == [];
    } else {
      DeclaredExact(lines, n - 1);
      assert lines[..n][..n - 1] == lines[..n - 1];
      if Declared(lines[..n - 1]).Some? {
        DeclareExact(lines, n - 1, Declared(lines[..n - 1]).value);
      }
    }
  }

  lemma {:induction false} DeclareExact(lines: seq<Line>, n: nat, ds: seq<Decl>)
    requires n < |lines| && Declared(lines[..n]) == Some(ds) && NamesOk(lines, n)
    ensures Declare(ds, lines[n]).Some? <==> NamesOk(lines, n + 1)
  {
    if Declares(lines[n]) && lines[n].name.Some? {
      DeclaredOnLine(lines, n, ds, lines[n].name.value);
    }
  }

  /** A call line names a function or import of the file; a branch or assignment has its number. */
  ghost predicate LineOk(lines: seq<Line>, line: Line) {
    match line.kind
    case DirectCall =>
      line.name.Some? && exists i :: 0 <= i < |lines| && Declares(lines[i]) && lines[i].name == line.name
    case BranchIf => line.operand.Some?
    case Branch => line.operand.Some?
    case Tee => line.operand.Some?
    case Set => line.operand.Some?
    case _ => true
  }

  lemma {:induction false} BodyTokenExact(lines: seq<Line>, dict: Dict, line: Line, loops: nat)
    requires Known(lines, dict) && !Declares(line) && line.kind != Other
    ensures BodyToken(dict, line, loops).Some? <==> LineOk(lines, line)
  {
    if line.kind == DirectCall && line.name.Some? {
      assert lines[..|lines|] == lines;
      DeclaredOnLine(lines, |lines|, Declared(lines).value, line.name.value);
    }
  }

  /** The lines from `i` on are translated exactly if each of them can be. */
  lemma {:induction false} EmitExact(lines: seq<Line>, dict: Dict, i: nat, funcs: nat, loops: nat, open: bool)
    requires Known(lines, dict) && i <= |lines|
    ensures Emit(dict, lines[i..], funcs, loops, open).Some?
      <==> (forall j :: i <= j < |lines| ==> LineOk(lines, lines[j]))
    decreases |lines| - i
  {
    if i == |lines| {
    } else {
      assert lines[i..][0] == lines[i] && lines[i..][1..] == lines[i + 1..];
      var kind := lines[i].kind;
      if kind == FuncStart {
        EmitExact(lines, dict, i + 1, funcs + 1, 0, true);
      } else {
        if kind != Import && kind != Other {
          BodyTokenExact(lines, dict, lines[i], loops);
        }
        EmitExact(lines, dict, i + 1, funcs, if kind == LoopStart then loops + 1 else loops, open);
      }
    }
  }

  /** The lines can be translated. */
  ghost predicate Translatable(lines: seq<Line>) {
    NamesOk(lines, |lines|) && forall j :: 0 <= j < |lines| ==> LineOk(lines, lines[j])
  }

  /** The translator fails exactly on the other files. */
  lemma {:induction false} TranslationExact(lines: seq<Line>, r: Option<Tokens>)
    requires Translation(lines, r)
    ensures r.Some? <==> Translatable(lines)
  {
    assert lines[..|lines|] == lines && lines[0..] == lines;
    DeclaredExact(lines, |lines|);
    if Declared(lines).Some? {
      var dict :| Known(lines, dict) && r == Emit(dict, lines, 0, 0, false);
      EmitExact(lines, dict, 0, 0, 0, false);
    }
  }

  /** The index of a name: its place among the functions, moved by the imports that are not yet
      above it. */
  lemma {:induction false} IndexOfLine(lines: seq<Line>, dict: Dict, i: nat)
    requires Known(lines, dict) && i < |lines| && Declares(lines[i])
    ensures lines[i].name.Some?
    ensures dict.Lookup(lines[i].name.value)
      == Some(FuncsAbove(lines, i) + ImportsAbove(lines, i) - ImportsAbove(lines, |lines|))
  {
    SlotOfLine(lines, i);
  }

  lemma {:induction false} SlotOfLine(lines: seq<Line>, i: nat)
    requires Declared(lines).Some? && i < |lines| && Declares(lines[i])
    ensures Imports(Declared(lines).value) == ImportsAbove(lines, |lines|)
    ensures lines[i].name.Some? && Slot(lines, i) < |Declared(lines).value|
    ensures Declared(lines).value[Slot(lines, i)].name == lines[i].name.value
  {
    var ds := DeclaredUpTo(lines, |lines|);
    assert lines[..|lines|] == lines;
    assert SlotOk(lines, ds, i);
  }

  // ------------------------------------------------------------------ call tokens

  ghost predicate NoImportBelow(lines: seq<Line>, i: nat) {
    forall j :: i < j < |lines| ==> lines[j].kind != Import
  }

  /** No import follows a function, as section 6.6.13 of the WebAssembly Core Specification 1.0
      demands of a module. */
  ghost predicate ImportsFirst(lines: seq<Line>) {
    forall i, j :: 0 <= i < j < |lines| && lines[j].kind == Import ==> lines[i].kind != FuncStart
  }

  lemma {:induction false} ImportsBetween(lines: seq<Line>, a: nat, b: nat)
    requires a <= b <= |lines|
    ensures ImportsAbove(lines, a) <= ImportsAbove(lines, b)
    ensures ImportsAbove(lines, a) == ImportsAbove(lines, b) <==> forall j :: a <= j < b ==> lines[j].kind != Import
    decreases b
  {
    if a == b {
    } else {
      ImportsBetween(lines, a, b - 1);
    }
  }

  lemma {:induction false} NoFuncsAbove(lines: seq<Line>, i: nat)
    requires i <= |lines| && forall j :: 0 <= j < i ==> lines[j].kind != FuncStart
    ensures FuncsAbove(lines, i) == 0
  {
    if i == 0 {
    } else {
      NoFuncsAbove(lines, i - 1);
    }
  }

  /** A call of the function on line `i` carries that function's own number, the count of function
      lines above it, exactly when no import is below it. */
  lemma {:induction false} CallIndexExact(lines: seq<Line>, dict: Dict, i: nat, call: Line, loops: nat)
    requires Known(lines, dict) && i < |lines| && lines[i].kind == FuncStart
    requires call.kind == DirectCall && call.name == lines[i].name
    ensures BodyToken(dict, call, loops) == Some(OpCall(FuncsAbove(lines, i))) <==> NoImportBelow(lines, i)
  {
    IndexOfLine(lines, dict, i);
    ImportsBetween(lines, i + 1, |lines|);
    assert ImportsAbove(lines, i + 1) == ImportsAbove(lines, i);
  }

  /** With imports first, calls of imports, and only those, carry negative numbers. */
  lemma {:induction false} ImportCallsNegative(lines: seq<Line>, dict: Dict, i: nat)
    requires Known(lines, dict) && ImportsFirst(lines) && i < |lines| && Declares(lines[i])
    ensures lines[i].name.Some? && dict.Lookup(lines[i].name.value).Some?
    ensures dict.Lookup(lines[i].name.value).value < 0 <==> lines[i].kind == Import
    ensures lines[i].kind == FuncStart ==> dict.Lookup(lines[i].name.value) == Some(FuncsAbove(lines, i))
  {
    IndexOfLine(lines, dict, i);
    ImportsBetween(lines, i + 1, |lines|);
    if lines[i].kind == Import {
      NoFuncsAbove(lines, i);
    }
  }

  ghost predicate OwnNumber(lines: seq<Line>, dict: Dict, i: nat)
    requires i < |lines|
  {
    lines[i].name.Some? && dict.Lookup(lines[i].name.value) == Some(FuncsAbove(lines, i))
  }

  /** All function names stand for their own numbers exactly when all imports come first. */
  lemma {:induction false} CallIndicesExact(lines: seq<Line>, dict: Dict)
    requires Known(lines, dict)
    ensures ImportsFirst(lines)
      <==> forall i :: 0 <= i < |lines| && lines[i].kind == FuncStart ==> OwnNumber(lines, dict, i)
  {
    forall i | 0 <= i < |lines| && lines[i].kind == FuncStart
      ensures OwnNumber(lines, dict, i) <==> NoImportBelow(lines, i)
    {
      IndexOfLine(lines, dict, i);
      ImportsBetween(lines, i + 1, |lines|);
    }
  }

  // ------------------------------------------------------------------ functions and their lines

  /** The tokens of the lines up to the next function line. */
  function BodyTokens(dict: Dict, lines: seq<Line>, loops: nat): Option<Tokens> {
    if lines == [] || lines[0].kind == FuncStart then Some([])
    else if lines[0].kind == Import || lines[0].kind == Other then BodyTokens(dict, lines[1..], loops)
    else
      var t := BodyToken(dict, lines[0], loops);
      if t.None? then None
      else Put([t.value], BodyTokens(dict, lines[1..], if lines[0].kind == LoopStart then loops + 1 else loops))
  }

  /** The lines from the next function line on. */
  function NextFunc(lines: seq<Line>): (n: nat)
    ensures n <= |lines|
    ensures forall j :: 0 <= j < n ==> lines[j].kind != FuncStart
    ensures n < |lines| ==> lines[n].kind == FuncStart
  {
    if lines == [] || lines[0].kind == FuncStart then 0 else 1 + NextFunc(lines[1..])
  }

  /** What an open function emits: its body, its closing, and the functions after it. */
  lemma {:induction false} EmitOpen(dict: Dict, lines: seq<Line>, funcs: nat, loops: nat)
    requires Emit(dict, lines, funcs, loops, true).Some?
    ensures BodyTokens(dict, lines, loops).Some?
    ensures Emit(dict, lines[NextFunc(lines)..], funcs, 0, false).Some?
    ensures Emit(dict, lines, funcs, loops, true).value
      == BodyTokens(dict, lines, loops).value
         + ([EndBlock, EndFunc] + Emit(dict, lines[NextFunc(lines)..], funcs, 0, false).value)
  {
    if lines == [] || lines[0].kind == FuncStart {
    } else {
      var kind := lines[0].kind;
      var loops' := if kind == LoopStart then loops + 1 else loops;
      assert lines[1..][NextFunc(lines[1..])..] == lines[NextFunc(lines)..];
      EmitOpen(dict, lines[1..], funcs, loops');
      if kind != Import && kind != Other {
        var t := BodyToken(dict, lines[0], loops).value;
        var body := BodyTokens(dict, lines[1..], loops').value;
        var rest := [EndBlock, EndFunc] + Emit(dict, lines[NextFunc(lines)..], funcs, 0, false).value;
        assert [t] + (body + rest) == [t] + body + rest;
      }
    }
  }

  ghost predicate NoEndFunc(ts: Tokens) { forall i :: 0 <= i < |ts| ==> !ts[i].EndFunc? }

  lemma {:induction false} BodyHasNoEndFunc(dict: Dict, lines: seq<Line>, loops: nat)
    requires BodyTokens(dict, lines, loops).Some?
    ensures NoEndFunc(BodyTokens(dict, lines, loops).value)
  {
    if lines == [] || lines[0].kind == FuncStart {
    } else {
      BodyHasNoEndFunc(dict, lines[1..], if lines[0].kind == LoopStart then loops + 1 else loops);
    }
  }

  lemma {:induction false} PrintHasNoEndFunc(insts: seq<Inst>)
    ensures NoEndFunc(Print(insts))
    decreases insts
  {
    if insts == [] {
    } else {
      if insts[0].IsNested() {
        PrintHasNoEndFunc(insts[0].insts);
      }
      PrintHasNoEndFunc(insts[1..]);
    }
  }

  /** The first end_func tells two splittings of a stream apart. */
  lemma {:induction false} SameSplit(a: Tokens, b: Tokens, x: Tokens, y: Tokens)
    requires NoEndFunc(a) && NoEndFunc(b)
    requires a + ([EndBlock, EndFunc] + x) == b + ([EndBlock, EndFunc] + y)
    ensures a == b && x == y
  {
    var s, t := a + ([EndBlock, EndFunc] + x), b + ([EndBlock, EndFunc] + y);
    assert s[|a| + 1] == EndFunc && t[|b| + 1] == EndFunc;
    assert |a| == |b|;
    assert a == s[..|a|] && b == t[..|b|];
    assert x == s[|a| + 2..] && y == t[|b| + 2..];
  }

  /** Function `f` is the one on line `i`: it carries the count of function lines above that line, and
      its body is what the lines from there to the next function line say. */
  ghost predicate FuncOfLine(dict: Dict, lines: seq<Line>, i: nat, funcs: nat, f: Func)
    requires i < |lines|
  {
    f.funcIdx == funcs + FuncsAbove(lines, i) && Some(Print(f.block)) == BodyTokens(dict, lines[i + 1..], 0)
  }

  ghost predicate FuncsOfLines(dict: Dict, lines: seq<Line>, funcs: nat, p: Program) {
    && |p| == FuncsAbove(lines, |lines|)
    && forall i :: 0 <= i < |lines| && lines[i].kind == FuncStart ==>
         FuncsAbove(lines, i) < |p| && FuncOfLine(dict, lines, i, funcs, p[FuncsAbove(lines, i)])
  }

  lemma {:induction false} FuncsAboveTail(lines: seq<Line>, n: nat, i: nat)
    requires n <= i <= |lines|
    ensures FuncsAbove(lines, i) == FuncsAbove(lines, n) + FuncsAbove(lines[n..], i - n)
    decreases i
  {
    if i == n {
    } else {
      FuncsAboveTail(lines, n, i - 1);
      assert lines[n..][i - n - 1] == lines[i - 1];
    }
  }

  lemma {:induction false} NoFuncsOn(lines: seq<Line>, i: nat)
    requires 0 < i <= |lines| && forall j :: 0 < j < i ==> lines[j].kind != FuncStart
    ensures FuncsAbove(lines, i) == if lines[0].kind == FuncStart then 1 else 0
  {
    if i == 1 {
      assert FuncsAbove(lines, 0) == 0;
    } else {
      NoFuncsOn(lines, i - 1);
    }
  }

  /** The functions after the first one, seen from the whole file. */
  lemma {:induction false} FuncsAfter(dict: Dict, lines: seq<Line>, n: nat, funcs: nat, f: Func, p: Program)
    requires 0 < n <= |lines| && lines[0].kind == FuncStart
    requires forall j :: 0 < j < n ==> lines[j].kind != FuncStart
    requires FuncOfLine(dict, lines, 0, funcs, f) && FuncsOfLines(dict, lines[n..], funcs + 1, p)
    ensures FuncsOfLines(dict, lines, funcs, [f] + p)
  {
    NoFuncsOn(lines, n);
    FuncsAboveTail(lines, n, |lines|);
    var all := [f] + p;
    forall i | 0 <= i < |lines| && lines[i].kind == FuncStart
      ensures FuncsAbove(lines, i) < |all| && FuncOfLine(dict, lines, i, funcs, all[FuncsAbove(lines, i)])
    {
      if i == 0 {
        assert FuncsAbove(lines, 0) == 0;
      } else {
        FuncInTail(dict, lines, n, 1, funcs, i, p);
        assert all[FuncsAbove(lines, i)] == p[FuncsAbove(lines, i) - 1];
      }
    }
  }

  /** A function line of the tail, seen from the whole. */
  lemma {:induction false} FuncInTail(dict: Dict, lines: seq<Line>, n: nat, above: nat, funcs: nat, i: nat, p: Program)
    requires n <= i < |lines| && lines[i].kind == FuncStart && FuncsAbove(lines, n) == above
    requires FuncsOfLines(dict, lines[n..], funcs + above, p)
    ensures above <= FuncsAbove(lines, i) < above + |p|
    ensures FuncOfLine(dict, lines, i, funcs, p[FuncsAbove(lines, i) - above])
  {
    FuncsAboveTail(lines, n, i);
    assert lines[n..][i - n] == lines[i] && lines[n..][i - n + 1..] == lines[i + 1..];
    assert FuncOfLine(dict, lines[n..], i - n, funcs + above, p[FuncsAbove(lines[n..], i - n)]);
  }

  /** Lines before the first function line. */
  lemma {:induction false} FuncsBehind(dict: Dict, lines: seq<Line>, funcs: nat, p: Program)
    requires lines != [] && lines[0].kind != FuncStart && FuncsOfLines(dict, lines[1..], funcs, p)
    ensures FuncsOfLines(dict, lines, funcs, p)
  {
    FuncsAboveTail(lines, 1, |lines|);
    assert FuncsAbove(lines, 0) == 0 && FuncsAbove(lines, 1) == 0;
    forall i | 0 <= i < |lines| && lines[i].kind == FuncStart
      ensures FuncsAbove(lines, i) < |p| && FuncOfLine(dict, lines, i, funcs, p[FuncsAbove(lines, i)])
    {
      FuncInTail(dict, lines, 1, 0, funcs, i, p);
    }
  }

  /** What the parser makes of a function line and its body. */
  lemma {:induction false} FirstFunc(funcs: nat, body: Tokens, rest: Tokens)
    requires NoEndFunc(body)
    requires ParseProgram([BeginFunc(funcs), BeginBlock] + (body + ([EndBlock, EndFunc] + rest))).Some?
    ensures var p := ParseProgram([BeginFunc(funcs), BeginBlock] + (body + ([EndBlock, EndFunc] + rest))).value;
      p != [] && p[0].funcIdx == funcs && Print(p[0].block) == body && ParseProgram(rest) == Some(p[1..])
  {
    var opening := [BeginFunc(funcs), BeginBlock];
    var inside := body + ([EndBlock, EndFunc] + rest);
    var ts := opening + inside;
    AcceptedFunc(ts);
    var (f, left) := ParseFunc(ts).value;
    var own := [BeginFunc(f.funcIdx), BeginBlock];
    var inside' := Print(f.block) + ([EndBlock, EndFunc] + left);
    assert PrintFunc(f) + left == own + inside';
    assert ts[0] == BeginFunc(funcs) && (own + inside')[0] == BeginFunc(f.funcIdx);
    assert inside == ts[2..] && inside' == (own + inside')[2..];
    PrintHasNoEndFunc(f.block);
    SameSplit(body, Print(f.block), rest, left);
    var p := ParseProgram(left).value;
    assert ([f] + p)[1..] == p;
  }

  /** A function line at the front: its function, and the rest of the file. */
  lemma {:induction false} EmitFirstFunc(dict: Dict, lines: seq<Line>, funcs: nat, ts: Tokens, p: Program)
      returns (rest: Tokens)
    requires lines != [] && lines[0].kind == FuncStart
    requires Emit(dict, lines, funcs, 0, false) == Some(ts) && ParseProgram(ts) == Some(p)
    ensures p != [] && FuncOfLine(dict, lines, 0, funcs, p[0])
    ensures Emit(dict, lines[NextFunc(lines[1..]) + 1..], funcs + 1, 0, false) == Some(rest)
    ensures ParseProgram(rest) == Some(p[1..])
  {
    var body, n := lines[1..], NextFunc(lines[1..]);
    EmitOpen(dict, body, funcs + 1, 0);
    BodyHasNoEndFunc(dict, body, 0);
    assert body[n..] == lines[n + 1..];
    rest := Emit(dict, lines[n + 1..], funcs + 1, 0, false).value;
    var own := BodyTokens(dict, body, 0).value;
    assert ts == [BeginFunc(funcs), BeginBlock] + (own + ([EndBlock, EndFunc] + rest));
    FirstFunc(funcs, own, rest);
  }

  /** Function `k` of the parsed program is the one of the `k`-th function line, body and all. */
  lemma {:induction false} FunctionsOfFile(dict: Dict, lines: seq<Line>, funcs: nat, ts: Tokens, p: Program)
    requires Emit(dict, lines, funcs, 0, false) == Some(ts) && ParseProgram(ts) == Some(p)
    ensures FuncsOfLines(dict, lines, funcs, p)
    decreases |lines|
  {
    if lines == [] {
      assert ts == [];
    } else if lines[0].kind == FuncStart {
      var n := NextFunc(lines[1..]);
      var rest := EmitFirstFunc(dict, lines, funcs, ts, p);
      FunctionsOfFile(dict, lines[n + 1..], funcs + 1, rest, p[1..]);
      assert p == [p[0]] + p[1..];
      FuncsAfter(dict, lines, n + 1, funcs, p[0], p[1..]);
    } else {
      FunctionsOfFile(dict, lines[1..], funcs, ts, p);
      FuncsBehind(dict, lines, funcs, p);
    }
  }

  // ------------------------------------------------------------------ calls and their lines

  lemma {:induction false} PrintedPart(insts: seq<Inst>, i: nat, t: Token)
    requires i < |insts| && t in Print1(insts[i])
    ensures t in Print(insts)
  {
    if i == 0 {
    } else {
      PrintedPart(insts[1..], i - 1, t);
    }
  }

  /** A call in the tree is a token of its printing. */
  lemma {:induction false} CallPrinted(root: Inst, path: Path, c: int)
    requires LeadsTo(root, path, Call(c))
    ensures OpCall(c) in Print1(root)
    decreases path
  {
    if path == [] {
    } else {
      CallPrinted(root.insts[path[0]], path[1..], c);
      PrintedPart(root.insts, path[0], OpCall(c));
    }
  }

  /** A call token of a body comes from a call line of it. */
  lemma {:induction false} CallLine(dict: Dict, lines: seq<Line>, loops: nat, c: int) returns (j: nat)
    requires BodyTokens(dict, lines, loops).Some? && OpCall(c) in BodyTokens(dict, lines, loops).value
    ensures j < NextFunc(lines) && lines[j].kind == DirectCall
    ensures lines[j].name.Some? && dict.Lookup(lines[j].name.value) == Some(c)
  {
    var kind := lines[0].kind;
    if kind != Import && kind != Other && BodyToken(dict, lines[0], loops).value == OpCall(c) {
      j := 0;
    } else {
      j := CallLine(dict, lines[1..], if kind == LoopStart then loops + 1 else loops, c);
      j := j + 1;
    }
  }

  lemma {:induction false} LineOfFunc(lines: seq<Line>, n: nat, k: nat) returns (i: nat)
    requires n <= |lines| && k < FuncsAbove(lines, n)
    ensures i < n && lines[i].kind == FuncStart && FuncsAbove(lines, i) == k
    decreases n
  {
    if k == FuncsAbove(lines, n - 1) {
      i := n - 1;
    } else {
      i := LineOfFunc(lines, n - 1, k);
    }
  }

  /** Line `j`, in function `k`, calls what line `i` declares, and `c` is its number: negative for an
      import, the count of function lines above it for a function. */
  ghost predicate CallOnLine(lines: seq<Line>, k: nat, c: int, j: nat, i: nat) {
    && j < |lines| && lines[j].kind == DirectCall && FuncsAbove(lines, j) == k + 1
    && i < |lines| && Declares(lines[i]) && lines[i].name == lines[j].name
    && (lines[i].kind == Import ==> c < 0)
    && (lines[i].kind == FuncStart ==> c == FuncsAbove(lines, i))
  }

  ghost predicate CallResolved(lines: seq<Line>, k: nat, c: int) {
    exists j, i :: CallOnLine(lines, k, c, j, i)
  }

  /** The names on call lines lead to the lines that declare them. */
  lemma {:induction false} NameResolved(dict: Dict, lines: seq<Line>, j: nat, c: int) returns (i: nat)
    requires Known(lines, dict) && ImportsFirst(lines) && j < |lines|
    requires lines[j].name.Some? && dict.Lookup(lines[j].name.value) == Some(c)
    ensures i < |lines| && Declares(lines[i]) && lines[i].name == lines[j].name
    ensures lines[i].kind == Import ==> c < 0
    ensures lines[i].kind == FuncStart ==> c == FuncsAbove(lines, i)
  {
    assert lines[..|lines|] == lines;
    i := DeclaringLine(lines, |lines|, Declared(lines).value, lines[j].name.value);
    ImportCallsNegative(lines, dict, i);
  }

  /** Every call of the parsed program comes from a call line of its function, and goes to the function
      or import whose name is on that line. */
  lemma {:induction false} CallsOfFile(dict: Dict, lines: seq<Line>, p: Program, k: nat, c: int)
    requires Known(lines, dict) && ImportsFirst(lines) && FuncsOfLines(dict, lines, 0, p)
    requires k < |p| && NodeOf(Root(p[k]), Call(c))
    ensures CallResolved(lines, k, c)
  {
    var f := LineOfFunc(lines, |lines|, k);
    assert FuncOfLine(dict, lines, f, 0, p[k]);
    var j := LineOfCall(dict, lines, f, p[k], c);
    var i := NameResolved(dict, lines, j, c);
    assert CallOnLine(lines, k, c, j, i);
  }

  /** The line of a call, in the function on line `f`. */
  lemma {:induction false} LineOfCall(dict: Dict, lines: seq<Line>, f: nat, fn: Func, c: int) returns (j: nat)
    requires f < |lines| && lines[f].kind == FuncStart && FuncOfLine(dict, lines, f, 0, fn)
    requires NodeOf(Root(fn), Call(c))
    ensures j < |lines| && lines[j].kind == DirectCall && FuncsAbove(lines, j) == FuncsAbove(lines, f) + 1
    ensures lines[j].name.Some? && dict.Lookup(lines[j].name.value) == Some(c)
  {
    CallInBody(fn, c);
    j := CallLine(dict, lines[f + 1..], 0, c);
    j := f + 1 + j;
    LineInFunc(lines, f, j);
  }

  lemma {:induction false} CallInBody(f: Func, c: int)
    requires NodeOf(Root(f), Call(c))
    ensures OpCall(c) in Print(f.block)
  {
    var path: Path :| LeadsTo(Root(f), path, Call(c));
    CallPrinted(Root(f), path, c);
    assert Print1(Root(f)) == [BeginBlock] + Print(f.block) + [EndBlock];
  }

  lemma {:induction false} LineInFunc(lines: seq<Line>, f: nat, j: nat)
    requires f < |lines| && f < j < f + 1 + NextFunc(lines[f + 1..]) <= |lines| && lines[f].kind == FuncStart
    ensures FuncsAbove(lines, j) == FuncsAbove(lines, f) + 1
  {
    FuncsAboveTail(lines, f, j);
    forall x | 0 < x < j - f
      ensures lines[f..][x].kind != FuncStart
    {
      assert lines[f..][x] == lines[f + 1..][x - 1];
    }
    NoFuncsOn(lines[f..], j - f);
  }

  /** A program and the lines it was read from. */
  ghost predicate ReadFrom(p: Program, lines: seq<Line>) {
    && (exists dict :: Known(lines, dict) && FuncsOfLines(dict, lines, 0, p))
    && (ImportsFirst(lines) ==>
          forall k, c :: 0 <= k < |p| && NodeOf(Root(p[k]), Call(c)) ==> CallResolved(lines, k, c))
  }

  lemma {:induction false} TranslatedIsReadFrom(lines: seq<Line>, dict: Dict, ts: Tokens)
    requires Translates(lines, dict, ts) && ParseProgram(ts).Some?
    ensures ReadFrom(ParseProgram(ts).value, lines)
  {
    var p := ParseProgram(ts).value;
    FunctionsOfFile(dict, lines, 0, ts, p);
    if ImportsFirst(lines) {
      forall k, c | 0 <= k < |p| && NodeOf(Root(p[k]), Call(c))
        ensures CallResolved(lines, k, c)
      {
        CallsOfFile(dict, lines, p, k, c);
      }
    }
  }
}
