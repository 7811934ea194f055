/** The token stream of the analysis and the recursive-descent parser that rebuilds the program
    tree from it. */
module Parser {
  import opened Basics
  import opened WasmTree

  datatype Token =
    | BeginFunc(funcIdx: int) | EndFunc
    | BeginLoop(loopIdx: int) | BeginBlock | EndBlock
    | OpBr(depth: nat) | OpBrIf(depth: nat) | OpBrTable | OpReturn
    | OpCall(callee: int) | OpCallIndirect | OpReturnCall | OpReturnCallIndirect
    | OpSet(local: int) | OpTee(local: int)
    | Unknown

  type Tokens = seq<Token>

  // ------------------------------------------------------------------ printing

  function Print1(inst: Inst): Tokens {
    match inst
    case Br(d) => [OpBr(d)]
    case BrIf(d) => [OpBrIf(d)]
    case BrTable => [OpBrTable]
    case Return => [OpReturn]
    case Call(c) => [OpCall(c)]
    case CallIndirect => [OpCallIndirect]
    case LocalSet(i) => [OpSet(i)]
    case LocalTee(i) => [OpTee(i)]
    case Block(b) => [BeginBlock] + Print(b) + [EndBlock]
    case Loop(i, b) => [BeginLoop(i)] + Print(b) + [EndBlock]
  }

  function Print(insts: seq<Inst>): Tokens {
    if insts == [] then [] else Print1(insts[0]) + Print(insts[1..])
  }

  function PrintFunc(f: Func): Tokens {
    [BeginFunc(f.funcIdx), BeginBlock] + Print(f.block) + [EndBlock, EndFunc]
  }

  function PrintProgram(p: Program): Tokens {
    if p == [] then [] else PrintFunc(p[0]) + PrintProgram(p[1..])
  }

  // ------------------------------------------------------------------ what the parser computes

  /** The instruction a token stands for on its own. */
  function Leaf(t: Token): Option<Inst> {
    match t
    case OpBr(d) => Some(Br(d))
    case OpBrIf(d) => Some(BrIf(d))
    case OpBrTable => Some(BrTable)
    case OpReturn => Some(Return)
    case OpCall(c) => Some(Call(c))
    case OpCallIndirect => Some(CallIndirect)
    case OpSet(i) => Some(LocalSet(i))
    case OpTee(i) => Some(LocalTee(i))
    case _ => None
  }

  predicate Opens(t: Token) { t.BeginBlock? || t.BeginLoop? }

  function Nest(t: Token, b: seq<Inst>): Inst
    requires Opens(t)
  {
    if t.BeginBlock? then Block(b) else Loop(t.loopIdx, b)
  }

  /** One instruction from the front of the stream, with what is left; None where the parser stops
      with an assertion failure. */
  function ParseInst(ts: Tokens): (r: Option<(Inst, Tokens)>)
    ensures r.Some? ==> |r.value.1| < |ts|
    decreases |ts|, 0
  {
    if ts == [] then None
    else if Leaf(ts[0]).Some? then Some((Leaf(ts[0]).value, ts[1..]))
    else if Opens(ts[0]) then
      match ParseInsts(ts[1..])
      case None => None
      case Some((b, rest)) => Some((Nest(ts[0], b), rest[1..]))
    else None
  }

  /** Instructions up to the next end_block, which must exist. */
  function ParseInsts(ts: Tokens): (r: Option<(seq<Inst>, Tokens)>)
    ensures r.Some? ==> 0 < |r.value.1| <= |ts|
    ensures r.Some? ==> r.value.1[0] == EndBlock
    decreases |ts|, 1
  {
    if ts == [] then None
    else if ts[0] == EndBlock then Some(([], ts))
    else
      match ParseInst(ts)
      case None => None
      case Some((inst, rest)) =>
        match ParseInsts(rest)
        case None => None
        case Some((insts, rest')) => Some(([inst] + insts, rest'))
  }

  function ParseFunc(ts: Tokens): (r: Option<(Func, Tokens)>)
    ensures r.Some? ==> |r.value.1| < |ts|
  {
    if |ts| < 2 || !ts[0].BeginFunc? || !ts[1].BeginBlock? then None
    else
      match ParseInsts(ts[2..])
      case None => None
      case Some((b, rest)) =>
        if |rest| < 2 || !rest[1].EndFunc? then None
        else Some((Func(ts[0].funcIdx, b), rest[2..]))
  }

  function ParseProgram(ts: Tokens): Option<Program>
    decreases |ts|
  {
    if ts == [] then Some([])
    else
      match ParseFunc(ts)
      case None => None
      case Some((f, rest)) =>
        match ParseProgram(rest)
        case None => None
        case Some(p) => Some([f] + p)
  }

  // ------------------------------------------------------------------ the parser

  /** The token stream with the position of the next token. */
  class InstStream {
    const insts: Tokens
    var instIdx: nat

    ghost predicate Valid()
      reads this
    {
      instIdx <= |insts|
    }

    /** The tokens that are left. */
    function Left(): Tokens
      reads this
      requires Valid()
    {
      insts[instIdx..]
    }

    constructor (insts: Tokens)
      ensures Valid() && this.insts == insts && instIdx == 0
    {
      this.insts := insts;
      instIdx := 0;
    }

    method Next() returns (t: Token)
      requires Valid() && instIdx < |insts|
      modifies this`instIdx
      ensures Valid() && t == old(Left())[0] && Left() == old(Left())[1..]
    {
      t := insts[instIdx];
      instIdx := instIdx + 1;
    }

    predicate End()
      reads this
    {
      instIdx >= |insts|
    }

    /** A branch, call, set, block or loop, dispatched on the next token. */
    method ReadInst() returns (r: Option<Inst>)
      requires Valid() && !End()
      modifies this`instIdx
      ensures Valid()
      ensures match ParseInst(old(Left()))
        case None => r == None
        case Some((inst, rest)) => r == Some(inst) && Left() == rest
      decreases |insts| - instIdx, 0
    {
      if Leaf(insts[instIdx]).Some? {
        var t := Next();
        r := Leaf(t);
      } else if Opens(insts[instIdx]) {
        var t := Next();
        ghost var inside := Left();
        var b := ReadInsts();
        if b.None? {
          return None;
        }
        var e := Next();
        r := Some(Nest(t, b.value));
      } else {
        r := None;
      }
    }

    /** The loop shared by blocks and loops: instructions are appended until end_block. */
    method ReadInsts() returns (r: Option<seq<Inst>>)
      requires Valid()
      modifies this`instIdx
      ensures Valid()
      ensures match ParseInsts(old(Left()))
        case None => r == None
        case Some((insts', rest)) => r == Some(insts') && Left() == rest
      decreases |insts| - instIdx, 1
    {
      var read: seq<Inst> := [];
      PrependNothing(ParseInsts(Left()), None);
      while !End() && insts[instIdx] != EndBlock
        invariant Valid()
        invariant old(instIdx) <= instIdx
        invariant ParseInsts(old(Left())) == Prepend(read, ParseInsts(Left()))
        decreases |insts| - instIdx
      {
        ghost var before := Left();
        var inst := ReadInst();
        if inst.None? {
          return None;
        }
        PrependSnoc(read, inst.value, ParseInsts(Left()));
        read := read + [inst.value];
      }
      assert read + [] == read;
      r := if End() then None else Some(read);
    }

    method ReadFunc() returns (r: Option<Func>)
      requires Valid()
      modifies this`instIdx
      ensures Valid()
      ensures match ParseFunc(old(Left()))
        case None => r == None
        case Some((f, rest)) => r == Some(f) && Left() == rest
    {
      if instIdx + 1 >= |insts| || !insts[instIdx].BeginFunc? || !insts[instIdx + 1].BeginBlock? {
        return None;
      }
      var t := Next();
      var b := Next();
      assert Left() == old(Left())[2..];
      var body := ReadInsts();
      if body.None? {
        return None;
      }
      ghost var rest := Left();
      var e := Next();
      if End() || !insts[instIdx].EndFunc? {
        return None;
      }
      e := Next();
      r := Some(Func(t.funcIdx, body.value));
    }
  }

  /** Parsing a whole stream. */
  method Read(ts: Tokens) returns (r: Option<Program>)
    ensures r == ParseProgram(ts)
  {
    var stream := new InstStream(ts);
    var funcs: Program := [];
    assert stream.Left() == ts;
    PrependNothing(None, ParseProgram(ts));
    while !stream.End()
      invariant fresh(stream) && stream.Valid()
      invariant ParseProgram(ts) == PrependFuncs(funcs, ParseProgram(stream.Left()))
      decreases |stream.Left()|
    {
      var f := stream.ReadFunc();
      if f.None? {
        return None;
      }
      PrependFuncsSnoc(funcs, f.value, ParseProgram(stream.Left()));
      funcs := funcs + [f.value];
    }
    assert funcs + [] == funcs;
    r := Some(funcs);
  }

  function Prepend(a: seq<Inst>, r: Option<(seq<Inst>, Tokens)>): Option<(seq<Inst>, Tokens)> {
    if r.None? then None else Some((a + r.value.0, r.value.1))
  }

  lemma {:induction false} PrependNothing(r: Option<(seq<Inst>, Tokens)>, q: Option<Program>)
    ensures Prepend([], r) == r && PrependFuncs([], q) == q
  {
    if r.Some? {
      assert [] + r.value.0 == r.value.0;
    }
    if q.Some? {
      assert [] + q.value == q.value;
    }
  }

  lemma {:induction false} PrependSnoc(a: seq<Inst>, inst: Inst, r: Option<(seq<Inst>, Tokens)>)
    ensures Prepend(a + [inst], r) == Prepend(a, Prepend([inst], r))
  {
    if r.Some? {
      assert a + [inst] + r.value.0 == a + ([inst] + r.value.0);
    }
  }

  function PrependFuncs(a: Program, r: Option<Program>): Option<Program> {
    if r.None? then None else Some(a + r.value)
  }

  lemma {:induction false} PrependFuncsSnoc(a: Program, f: Func, r: Option<Program>)
    ensures PrependFuncs(a + [f], r) == PrependFuncs(a, PrependFuncs([f], r))
  {
    if r.Some? {
      assert a + [f] + r.value == a + ([f] + r.value);
    }
  }

  // ------------------------------------------------------------------ round trips

  lemma {:induction false} ParsePrinted1(inst: Inst, post: Tokens)
    ensures ParseInst(Print1(inst) + post) == Some((inst, post))
    decreases inst
  {
    var ts := Print1(inst) + post;
    if inst.IsNested() {
      var t := if inst.Block? then BeginBlock else BeginLoop(inst.loopIdx);
      assert ts == [t] + (Print(inst.insts) + ([EndBlock] + post));
      assert ts[1..] == Print(inst.insts) + ([EndBlock] + post);
      ParsePrintedInsts(inst.insts, [EndBlock] + post);
    } else {
      assert ts[1..] == post;
    }
  }

  lemma {:induction false} ParsePrintedInsts(insts: seq<Inst>, post: Tokens)
    requires post != [] && post[0] == EndBlock
    ensures ParseInsts(Print(insts) + post) == Some((insts, post))
    decreases insts
  {
    if insts == [] {
      assert Print(insts) + post == post;
    } else {
      var ts := Print(insts) + post;
      assert ts == Print1(insts[0]) + (Print(insts[1..]) + post);
      ParsePrinted1(insts[0], Print(insts[1..]) + post);
      ParsePrintedInsts(insts[1..], post);
      PrintedStart(insts[0]);
      assert ts[0] == Print1(insts[0])[0];
      assert [insts[0]] + insts[1..] == insts;
    }
  }

  lemma {:induction false} PrintedStart(inst: Inst)
    ensures Print1(inst) != [] && Print1(inst)[0] != EndBlock
  {
  }

  lemma {:induction false} ParsePrintedFunc(f: Func, post: Tokens)
    ensures ParseFunc(PrintFunc(f) + post) == Some((f, post))
  {
    var ts := PrintFunc(f) + post;
    assert ts == [BeginFunc(f.funcIdx), BeginBlock] + (Print(f.block) + ([EndBlock, EndFunc] + post));
    assert ts[2..] == Print(f.block) + ([EndBlock, EndFunc] + post);
    ParsePrintedInsts(f.block, [EndBlock, EndFunc] + post);
    assert ([EndBlock, EndFunc] + post)[2..] == post;
  }

  /** Parsing what was printed gives the program back. */
  lemma {:induction false} ParsePrinted(p: Program)
    ensures ParseProgram(PrintProgram(p)) == Some(p)
  {
    if p == [] {
    } else {
      ParsePrintedFunc(p[0], PrintProgram(p[1..]));
      ParsePrinted(p[1..]);
      assert [p[0]] + p[1..] == p;
    }
  }

  /** A stream cut into an opening, a body, and a rest that starts with the closing. */
  lemma {:induction false} Rejoin(ts: Tokens, opening: Tokens, body: Tokens, closing: Tokens, rest: Tokens)
    requires |opening| <= |ts| && opening == ts[..|opening|] && ts[|opening|..] == body + rest
    requires closing <= rest
    ensures ts == opening + body + closing + rest[|closing|..]
  {
    assert rest == closing + rest[|closing|..];
    assert ts == opening + ts[|opening|..];
  }

  lemma {:induction false} LeafPrinted(t: Token)
    requires Leaf(t).Some?
    ensures Print1(Leaf(t).value) == [t]
  {
  }

  lemma {:induction false} NestPrinted(ts: Tokens, b: seq<Inst>, rest: Tokens)
    requires ts != [] && Opens(ts[0]) && ts[1..] == Print(b) + rest && rest != [] && rest[0] == EndBlock
    ensures ts == Print1(Nest(ts[0], b)) + rest[1..]
  {
    assert Print1(Nest(ts[0], b)) == [ts[0]] + Print(b) + [EndBlock];
    Rejoin(ts, [ts[0]], Print(b), [EndBlock], rest);
  }

  lemma {:induction false} Accepted1(ts: Tokens)
    requires ParseInst(ts).Some?
    ensures ts == Print1(ParseInst(ts).value.0) + ParseInst(ts).value.1
    decreases |ts|, 0
  {
    if Leaf(ts[0]).Some? {
      LeafPrinted(ts[0]);
    } else {
      AcceptedInsts(ts[1..]);
      NestPrinted(ts, ParseInsts(ts[1..]).value.0, ParseInsts(ts[1..]).value.1);
    }
  }

  lemma {:induction false} AcceptedInsts(ts: Tokens)
    requires ParseInsts(ts).Some?
    ensures ts == Print(ParseInsts(ts).value.0) + ParseInsts(ts).value.1
    decreases |ts|, 1
  {
    if ts[0] != EndBlock {
      Accepted1(ts);
      var (inst, rest) := ParseInst(ts).value;
      AcceptedInsts(rest);
      var insts := ParseInsts(rest).value.0;
      assert ([inst] + insts)[1..] == insts;
    }
  }

  lemma {:induction false} AcceptedFunc(ts: Tokens)
    requires ParseFunc(ts).Some?
    ensures ts == PrintFunc(ParseFunc(ts).value.0) + ParseFunc(ts).value.1
  {
    AcceptedInsts(ts[2..]);
    var (b, rest) := ParseInsts(ts[2..]).value;
    Rejoin(ts, [ts[0], ts[1]], Print(b), [EndBlock, EndFunc], rest);
  }

  /** Any accepted stream is the printing of its result. */
  lemma {:induction false} AcceptedIsPrinted(ts: Tokens)
    requires ParseProgram(ts).Some?
    ensures ts == PrintProgram(ParseProgram(ts).value)
    decreases |ts|
  {
    if ts == [] {
    } else {
      AcceptedFunc(ts);
      var (f, rest) := ParseFunc(ts).value;
      AcceptedIsPrinted(rest);
      var p := ParseProgram(rest).value;
      assert ([f] + p)[1..] == p;
    }
  }

  // ------------------------------------------------------------------ which streams are accepted

  /** The stream nests properly; `d` constructs are open, the outermost being a function's block. */
  predicate Nested(ts: Tokens, d: nat)
    decreases |ts|
  {
    if ts == [] then d == 0
    else if d == 0 then ts[0].BeginFunc? && |ts| > 1 && ts[1].BeginBlock? && Nested(ts[2..], 1)
    else if ts[0].EndBlock? then
      if d == 1 then |ts| > 1 && ts[1].EndFunc? && Nested(ts[2..], 0) else Nested(ts[1..], d - 1)
    else if Opens(ts[0]) then Nested(ts[1..], d + 1)
    else Leaf(ts[0]).Some? && Nested(ts[1..], d)
  }

  lemma {:induction false} NestedInsts(ts: Tokens, d: nat)
    requires d > 0
    ensures Nested(ts, d) <==> ParseInsts(ts).Some? && Nested(ParseInsts(ts).value.1, d)
    decreases |ts|
  {
    if ts == [] || ts[0].EndBlock? {
      return;
    }
    if Leaf(ts[0]).Some? {
      NestedInsts(ts[1..], d);
    } else if Opens(ts[0]) {
      NestedInsts(ts[1..], d + 1);
      if ParseInsts(ts[1..]).Some? {
        NestedInsts(ParseInsts(ts[1..]).value.1[1..], d);
      }
    }
  }

  /** The parser accepts exactly the properly nested streams. */
  lemma {:induction false} AcceptsNested(ts: Tokens)
    ensures ParseProgram(ts).Some? <==> Nested(ts, 0)
    decreases |ts|
  {
    if ts != [] && |ts| > 1 && ts[0].BeginFunc? && ts[1].BeginBlock? {
      NestedInsts(ts[2..], 1);
      if ParseFunc(ts).Some? {
        AcceptsNested(ParseFunc(ts).value.1);
      }
    }
  }
}
