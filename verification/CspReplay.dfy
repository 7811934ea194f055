/** Rebuilding an interpreter frame's label stack from an instruction address alone.  Code is a
    sequence of instructions with their encoded lengths; addresses are byte offsets from the start
    of the function. */
module CspReplay {
  import opened Basics

  datatype Op =
    | Plain(len: nat)               // any instruction without control effect
    | OpBlock(cells: nat)
    | OpLoop
    | OpIf(cells: nat)
    | OpElse
    | OpEnd
    | OpBr(depth: nat, len: nat)
    | OpBrIf(depth: nat, len: nat)
    | OpReturn
  {
    /** Opcode plus block type, or opcode plus immediates. */
    function Len(): nat {
      match this
      case Plain(n) => n
      case OpBr(_, n) => n
      case OpBrIf(_, n) => n
      case OpBlock(_) => 2
      case OpLoop => 2
      case OpIf(_) => 2
      case _ => 1
    }

    predicate Opens() { OpBlock? || OpLoop? || OpIf? }
  }

  type Code = seq<Op>

  function Addr(code: Code, i: nat): nat
    requires i <= |code|
  {
    if i == 0 then 0 else Addr(code, i - 1) + code[i - 1].Len()
  }

  /** A label of the control stack: where its construct begins, where a branch to it continues, and
      how many result cells it leaves. */
  datatype CspLabel = CspLabel(begin: nat, target: nat, cells: nat)

  // ------------------------------------------------------------------ matching ELSE and END

  /** The END that closes the construct open at `q`; `depth` constructs were opened since. */
  function FindEnd(code: Code, q: nat, depth: nat): Option<nat>
    decreases |code| - q
  {
    if q >= |code| then None
    else if code[q].Opens() then FindEnd(code, q + 1, depth + 1)
    else if code[q].OpEnd? then (if depth == 0 then Some(q) else FindEnd(code, q + 1, depth - 1))
    else FindEnd(code, q + 1, depth)
  }

  /** The ELSE of that construct, if it comes before the END. */
  function FindElse(code: Code, q: nat, depth: nat): Option<nat>
    decreases |code| - q
  {
    if q >= |code| then None
    else if code[q].Opens() then FindElse(code, q + 1, depth + 1)
    else if code[q].OpEnd? then (if depth == 0 then None else FindElse(code, q + 1, depth - 1))
    else if code[q].OpElse? && depth == 0 then Some(q)
    else FindElse(code, q + 1, depth)
  }

  function EndOf(code: Code, o: nat): Option<nat> { FindEnd(code, o + 1, 0) }

  function ElseOf(code: Code, o: nat): Option<nat> { FindElse(code, o + 1, 0) }

  // ------------------------------------------------------------------ the static label stack

  /** The constructs open right before instruction `pc`, outermost first. */
  function Open(code: Code, pc: nat): seq<nat>
    requires pc <= |code|
  {
    if pc == 0 then []
    else
      var before := Open(code, pc - 1);
      if code[pc - 1].Opens() then before + [pc - 1]
      else if code[pc - 1].OpEnd? && before != [] then before[..|before| - 1]
      else before
  }

  /** A construct is closed, an END closes one unless it is the last, an ELSE belongs to the innermost
      open IF. */
  ghost predicate ValidAt(code: Code, i: nat)
    requires i < |code|
  {
    && (code[i].Opens() ==> EndOf(code, i).Some?)
    && (code[i].OpEnd? && i < |code| - 1 ==> Open(code, i) != [])
    && (code[i].OpElse? ==>
          var open := Open(code, i);
          open != [] && open[|open| - 1] < |code| && code[open[|open| - 1]].OpIf?
          && ElseOf(code, open[|open| - 1]) == Some(i))
  }

  /** What validation guarantees; the last END closes the function. */
  ghost predicate WellFormed(code: Code) {
    && |code| > 0 && code[|code| - 1].OpEnd? && Open(code, |code| - 1) == []
    && (forall i :: 0 <= i < |code| ==> code[i].Len() > 0)
    && (forall i :: 0 <= i < |code| ==> ValidAt(code, i))
  }

  /** The position of the construct's END; the end of the code if there is none. */
  function EndPos(code: Code, o: nat): (e: nat)
    ensures e <= |code|
  {
    match EndOf(code, o)
    case Some(e) => if e < |code| then e else |code|
    case None => |code|
  }

  function LabelAt(code: Code, o: nat): CspLabel
    requires o < |code| && code[o].Opens()
  {
    if code[o].OpLoop? then CspLabel(Addr(code, o + 1), Addr(code, o + 1), 0)
    else CspLabel(Addr(code, o + 1), Addr(code, EndPos(code, o)), code[o].cells)
  }

  function FuncLabel(code: Code, retCells: nat): CspLabel
    requires |code| > 0 && code[|code| - 1].OpEnd?
  {
    CspLabel(0, Addr(code, |code| - 1), retCells)
  }

  ghost predicate AllOpeners(code: Code, os: seq<nat>) {
    forall h :: 0 <= h < |os| ==> os[h] < |code| && code[os[h]].Opens()
  }

  /** The labels of the given constructs inside the function's own label. */
  ghost function Stack(code: Code, os: seq<nat>, retCells: nat): (st: seq<CspLabel>)
    requires |code| > 0 && code[|code| - 1].OpEnd? && AllOpeners(code, os)
    ensures |st| == |os| + 1
  {
    if os == [] then [FuncLabel(code, retCells)]
    else Stack(code, os[..|os| - 1], retCells) + [LabelAt(code, os[|os| - 1])]
  }

  lemma {:induction false} StackAt(code: Code, os: seq<nat>, retCells: nat, h: nat)
    requires |code| > 0 && code[|code| - 1].OpEnd? && AllOpeners(code, os) && h <= |os|
    ensures Stack(code, os, retCells)[h] == if h == 0 then FuncLabel(code, retCells) else LabelAt(code, os[h - 1])
  {
    if os != [] && h < |os| {
      StackAt(code, os[..|os| - 1], retCells, h);
    }
  }

  lemma {:induction false} OpenOpeners(code: Code, pc: nat)
    requires pc <= |code|
    ensures AllOpeners(code, Open(code, pc))
    ensures forall h :: 0 <= h < |Open(code, pc)| ==> Open(code, pc)[h] < pc
  {
    if pc == 0 {
    } else {
      OpenOpeners(code, pc - 1);
      var before, now := Open(code, pc - 1), Open(code, pc);
      forall h | 0 <= h < |now|
        ensures now[h] < pc && code[now[h]].Opens()
      {
        assert now[h] == if h < |before| then before[h] else pc - 1;
      }
    }
  }

  ghost function StaticStack(code: Code, pc: nat, retCells: nat): seq<CspLabel>
    requires |code| > 0 && code[|code| - 1].OpEnd? && pc <= |code|
  {
    OpenOpeners(code, pc);
    Stack(code, Open(code, pc), retCells)
  }

  lemma {:induction false} AddrIncreasing(code: Code, i: nat, j: nat)
    requires i < j <= |code| && forall x :: 0 <= x < |code| ==> code[x].Len() > 0
    ensures Addr(code, i) < Addr(code, j)
    decreases j
  {
    if i < j - 1 {
      AddrIncreasing(code, i, j - 1);
    }
  }

  /** Between a construct's start and its END, everything open at its start stays open. */
  lemma {:induction false} OpenInside(code: Code, p: nat, q: nat, depth: nat, x: nat)
    requires p <= q <= |code| && Open(code, p) <= Open(code, q) && |Open(code, q)| == |Open(code, p)| + depth
    requires FindEnd(code, q, depth).Some? && q <= x <= FindEnd(code, q, depth).value
    ensures FindEnd(code, q, depth).value < |code| && Open(code, p) <= Open(code, x)
    decreases |code| - q
  {
    if q < x {
      var depth' := if code[q].Opens() then depth + 1 else if code[q].OpEnd? then depth - 1 else depth;
      assert Open(code, p) <= Open(code, q + 1);
      OpenInside(code, p, q + 1, depth', x);
    } else {
      FindEndRange(code, q, depth);
    }
  }

  lemma {:induction false} FindEndRange(code: Code, q: nat, depth: nat)
    requires FindEnd(code, q, depth).Some?
    ensures q <= FindEnd(code, q, depth).value < |code| && code[FindEnd(code, q, depth).value].OpEnd?
    decreases |code| - q
  {
    if !(code[q].OpEnd? && depth == 0) {
      var depth' := if code[q].Opens() then depth + 1 else if code[q].OpEnd? then depth - 1 else depth;
      FindEndRange(code, q + 1, depth');
    }
  }

  /** At its END, a construct is the innermost open one again. */
  lemma {:induction false} OpenAtEnd(code: Code, p: nat, q: nat, depth: nat)
    requires p <= q <= |code| && Open(code, p) <= Open(code, q) && |Open(code, q)| == |Open(code, p)| + depth
    requires FindEnd(code, q, depth).Some?
    ensures FindEnd(code, q, depth).value < |code| && Open(code, FindEnd(code, q, depth).value) == Open(code, p)
    decreases |code| - q
  {
    if !(code[q].OpEnd? && depth == 0) {
      var depth' := if code[q].Opens() then depth + 1 else if code[q].OpEnd? then depth - 1 else depth;
      OpenAtEnd(code, p, q + 1, depth');
    }
  }

  /** At its ELSE too. */
  lemma {:induction false} OpenAtElse(code: Code, p: nat, q: nat, depth: nat)
    requires p <= q <= |code| && Open(code, p) <= Open(code, q) && |Open(code, q)| == |Open(code, p)| + depth
    requires FindElse(code, q, depth).Some? && FindEnd(code, q, depth).Some?
    ensures q <= FindElse(code, q, depth).value < FindEnd(code, q, depth).value < |code|
    ensures Open(code, FindElse(code, q, depth).value) == Open(code, p)
    ensures code[FindElse(code, q, depth).value].OpElse?
    decreases |code| - q
  {
    if code[q].OpElse? && depth == 0 {
      FindEndRange(code, q + 1, depth);
    } else {
      var depth' := if code[q].Opens() then depth + 1 else if code[q].OpEnd? then depth - 1 else depth;
      OpenAtElse(code, p, q + 1, depth');
    }
  }

  /** The facts about one construct and its END. */
  lemma {:induction false} Construct(code: Code, o: nat)
    requires WellFormed(code) && o < |code| && code[o].Opens()
    ensures o < EndPos(code, o) < |code| && code[EndPos(code, o)].OpEnd?
    ensures EndOf(code, o) == Some(EndPos(code, o))
    ensures Open(code, o + 1) == Open(code, o) + [o]
    ensures Open(code, EndPos(code, o)) == Open(code, o + 1)
    ensures Open(code, EndPos(code, o) + 1) == Open(code, o)
  {
    assert ValidAt(code, o);
    FindEndRange(code, o + 1, 0);
    OpenAtEnd(code, o + 1, o + 1, 0);
    var e := EndPos(code, o);
    assert Open(code, e + 1) == Open(code, e)[..|Open(code, e)| - 1];
  }

  /** The facts about one construct and its ELSE. */
  lemma {:induction false} ConstructElse(code: Code, o: nat)
    requires WellFormed(code) && o < |code| && code[o].Opens() && ElseOf(code, o).Some?
    ensures var l := ElseOf(code, o).value;
      && o < l < EndPos(code, o) && l + 1 < |code| && code[l].OpElse?
      && Open(code, l + 1) == Open(code, l) == Open(code, o) + [o]
  {
    Construct(code, o);
    OpenAtElse(code, o + 1, o + 1, 0);
  }

  // ------------------------------------------------------------------ what labels hold

  /** The END at `e` closes the construct at `o`: it is the innermost open one there, and has been open
      ever since it started. */
  ghost predicate Closes(code: Code, o: nat, e: nat) {
    && o < e < |code| && code[e].OpEnd? && Open(code, e) == Open(code, o) + [o]
    && forall i :: o < i <= e ==> o in Open(code, i)
  }

  /** A label begins behind opcode and block type.  A loop's label continues at its beginning and leaves
      nothing; any other continues at the END of its construct and leaves the construct's cells. */
  ghost predicate HoldsLabel(code: Code, o: nat, lab: CspLabel)
    requires o < |code|
  {
    && lab.begin == Addr(code, o) + 2
    && match code[o]
       case OpLoop => lab.target == Addr(code, o) + 2 && lab.cells == 0
       case OpBlock(cells) => lab.cells == cells && exists e :: Closes(code, o, e) && lab.target == Addr(code, e)
       case OpIf(cells) => lab.cells == cells && exists e :: Closes(code, o, e) && lab.target == Addr(code, e)
       case _ => false
  }

  /** The function's own label, then those of the open constructs, outermost first. */
  ghost predicate HoldsLabels(code: Code, pc: nat, retCells: nat, st: seq<CspLabel>)
    requires 0 < |code| && pc <= |code|
  {
    && |st| == |Open(code, pc)| + 1
    && st[0] == CspLabel(0, Addr(code, |code| - 1), retCells)
    && forall h :: 0 <= h < |Open(code, pc)| ==>
         Open(code, pc)[h] < |code| && HoldsLabel(code, Open(code, pc)[h], st[h + 1])
  }

  lemma {:induction false} ClosedByEnd(code: Code, o: nat)
    requires WellFormed(code) && o < |code| && code[o].Opens()
    ensures Closes(code, o, EndPos(code, o))
  {
    Construct(code, o);
    forall i | o < i <= EndPos(code, o)
      ensures o in Open(code, i)
    {
      OpenInside(code, o + 1, o + 1, 0, i);
      assert Open(code, o + 1)[|Open(code, o)|] == o;
      assert Open(code, i)[|Open(code, o)|] == o;
    }
  }

  lemma {:induction false} LabelHolds(code: Code, o: nat)
    requires WellFormed(code) && o < |code| && code[o].Opens()
    ensures HoldsLabel(code, o, LabelAt(code, o))
  {
    ClosedByEnd(code, o);
    assert Addr(code, o + 1) == Addr(code, o) + 2;
  }

  /** The static stack holds what it should. */
  lemma {:induction false} StaticStackHolds(code: Code, pc: nat, retCells: nat)
    requires WellFormed(code) && pc <= |code|
    ensures HoldsLabels(code, pc, retCells, StaticStack(code, pc, retCells))
  {
    var os, st := Open(code, pc), StaticStack(code, pc, retCells);
    OpenOpeners(code, pc);
    StackAt(code, os, retCells, 0);
    forall h | 0 <= h < |os|
      ensures os[h] < |code| && HoldsLabel(code, os[h], st[h + 1])
    {
      StackAt(code, os, retCells, h + 1);
      LabelHolds(code, os[h]);
    }
  }

  // ------------------------------------------------------------------ the interpreter

  datatype Machine = Running(ip: nat, csp: seq<CspLabel>) | Stopped

  /** The instruction at a byte address. */
  function Decode(code: Code, ip: nat, i: nat): Option<nat>
    requires i <= |code|
    decreases |code| - i
  {
    if i == |code| then None else if Addr(code, i) == ip then Some(i) else Decode(code, ip, i + 1)
  }

  lemma {:induction false} DecodeAddr(code: Code, pc: nat, i: nat)
    requires i <= pc < |code| && forall x :: 0 <= x < |code| ==> code[x].Len() > 0
    ensures Decode(code, Addr(code, pc), i) == Some(pc)
    decreases pc - i
  {
    if i < pc {
      AddrIncreasing(code, i, pc);
      DecodeAddr(code, pc, i + 1);
    }
  }

  /** A branch drops `d` labels and continues at the target of the label on top. */
  function Branch(csp: seq<CspLabel>, d: nat): Machine {
    if d < |csp| then Running(csp[|csp| - 1 - d].target, csp[..|csp| - d]) else Stopped
  }

  /** One step of the interpreter; `cond` is the value popped by IF and BR_IF. */
  function Interp(code: Code, m: Machine, cond: bool): Machine
    requires m.Running? && |code| > 0 && code[|code| - 1].OpEnd?
  {
    var pc := Decode(code, m.ip, 0);
    if pc.None? || pc.value >= |code| then Stopped else
    var o := pc.value;
    var next := m.ip + code[o].Len();
    match code[o]
    case OpBlock(_) => Running(next, m.csp + [LabelAt(code, o)])
    case OpLoop => Running(next, m.csp + [LabelAt(code, o)])
    case OpIf(_) =>
      if cond then Running(next, m.csp + [LabelAt(code, o)])
      else if ElseOf(code, o).None? then Running(Addr(code, EndPos(code, o)) + 1, m.csp)
      else if ElseOf(code, o).value < |code| then
        Running(Addr(code, ElseOf(code, o).value) + 1, m.csp + [LabelAt(code, o)])
      else Stopped
    case OpElse => if m.csp == [] then Stopped else Running(m.csp[|m.csp| - 1].target, m.csp)
    case OpEnd => if |m.csp| <= 1 then Stopped else Running(next, m.csp[..|m.csp| - 1])
    case OpBr(d, _) => Branch(m.csp, d)
    case OpBrIf(d, _) => if cond then Branch(m.csp, d) else Running(next, m.csp)
    case OpReturn => Stopped
    case Plain(_) => Running(next, m.csp)
  }

  ghost predicate IsInterpRun(code: Code, retCells: nat, run: seq<Machine>, conds: seq<bool>)
    requires |code| > 0 && code[|code| - 1].OpEnd?
  {
    && |run| == |conds| + 1 && run[0] == Running(0, [FuncLabel(code, retCells)])
    && forall t :: 0 <= t < |conds| ==> run[t].Running? && run[t + 1] == Interp(code, run[t], conds[t])
  }

  /** `m` is at instruction `pc` with exactly the labels open there. */
  ghost predicate At(code: Code, retCells: nat, m: Machine, pc: nat)
    requires WellFormed(code)
  {
    pc < |code| && m == Running(Addr(code, pc), StaticStack(code, pc, retCells))
  }

  /** Where a branch to construct `o` continues. */
  function TargetPos(code: Code, o: nat): (t: nat)
    requires o < |code|
    ensures t <= |code|
  {
    if code[o].OpLoop? then o + 1 else EndPos(code, o)
  }

  lemma {:induction false} TargetOpens(code: Code, o: nat)
    requires WellFormed(code) && o < |code| && code[o].Opens()
    ensures TargetPos(code, o) < |code| && Open(code, TargetPos(code, o)) == Open(code, o) + [o]
  {
    Construct(code, o);
  }

  /** The continuation of every open label is an instruction where exactly the labels up to it are
      open. */
  lemma {:induction false} TargetOf(code: Code, pc: nat, h: nat) returns (t: nat)
    requires WellFormed(code) && pc < |code| && h <= |Open(code, pc)|
    ensures t < |code| && Open(code, t) == Open(code, pc)[..h]
    ensures h == 0 ==> t == |code| - 1
    ensures h > 0 ==> Open(code, pc)[h - 1] < |code| && t == TargetPos(code, Open(code, pc)[h - 1])
  {
    if h == 0 {
      t := |code| - 1;
    } else {
      OpenOpeners(code, pc);
      var o := Open(code, pc)[h - 1];
      t := TargetPos(code, o);
      TargetOpens(code, o);
      OpenPrefix(code, pc, h - 1);
    }
  }

  /** What was open when a construct started is what is below it now. */
  lemma {:induction false} OpenPrefix(code: Code, pc: nat, h: nat)
    requires pc <= |code| && h < |Open(code, pc)|
    ensures Open(code, pc)[h] < pc && Open(code, Open(code, pc)[h]) == Open(code, pc)[..h]
  {
    if pc == 0 {
    } else {
      if h < |Open(code, pc - 1)| && !(h == |Open(code, pc - 1)| - 1 && code[pc - 1].OpEnd?) {
        OpenPrefix(code, pc - 1, h);
        assert Open(code, pc)[..h] == Open(code, pc - 1)[..h];
      }
    }
  }

  lemma {:induction false} StackPrefix(code: Code, os: seq<nat>, h: nat, retCells: nat)
    requires |code| > 0 && code[|code| - 1].OpEnd? && AllOpeners(code, os) && h <= |os|
    ensures Stack(code, os[..h], retCells) == Stack(code, os, retCells)[..h + 1]
  {
    if h == |os| {
      assert os[..h] == os;
    } else {
      StackPrefix(code, os[..|os| - 1], h, retCells);
      assert os[..|os| - 1][..h] == os[..h];
    }
  }

  /** A branch, or an ELSE, goes to a place where the remaining labels are open. */
  lemma {:induction false} BranchTaken(code: Code, retCells: nat, pc: nat, d: nat) returns (t: nat)
    requires WellFormed(code) && pc < |code| && d < |StaticStack(code, pc, retCells)|
    ensures At(code, retCells, Branch(StaticStack(code, pc, retCells), d), t)
  {
    var os := Open(code, pc);
    var h := |os| - d;
    t := TargetOf(code, pc, h);
    OpenOpeners(code, pc);
    StackPrefix(code, os, h, retCells);
    StackAt(code, os, retCells, h);
  }

  lemma {:induction false} LastEnd(code: Code, o: nat)
    requires WellFormed(code) && o < |code| && code[o].Opens()
    ensures EndPos(code, o) + 1 < |code|
  {
    Construct(code, o);
    assert Open(code, EndPos(code, o)) != [];
  }

  /** Behind a whole construct the labels are the same as before it. */
  lemma {:induction false} Passed(code: Code, retCells: nat, o: nat)
    requires WellFormed(code) && o < |code| && code[o].Opens()
    ensures EndPos(code, o) + 1 < |code|
    ensures o < EndPos(code, o) && Addr(code, EndPos(code, o) + 1) == Addr(code, EndPos(code, o)) + 1
    ensures StaticStack(code, EndPos(code, o) + 1, retCells) == StaticStack(code, o, retCells)
  {
    Construct(code, o);
    LastEnd(code, o);
  }

  /** The two ways into a construct: its start, and the position after its ELSE. */
  lemma {:induction false} Entered(code: Code, retCells: nat, o: nat, pc': nat)
    requires WellFormed(code) && o < |code| && code[o].Opens()
    requires pc' == o + 1 || (ElseOf(code, o).Some? && pc' == ElseOf(code, o).value + 1)
    ensures o < pc' < |code| && Open(code, pc') == Open(code, o) + [o]
    ensures StaticStack(code, pc', retCells) == StaticStack(code, o, retCells) + [LabelAt(code, o)]
    ensures pc' == o + 1 ==> Addr(code, pc') == Addr(code, o) + 2
    ensures pc' != o + 1 ==> Addr(code, pc') == Addr(code, pc' - 1) + 1
    ensures ElseOf(code, o).Some? ==> o < ElseOf(code, o).value < |code|
  {
    Construct(code, o);
    if ElseOf(code, o).Some? {
      ConstructElse(code, o);
    }
  }

  /** A false IF without ELSE is passed over. */
  lemma {:induction false} PassStep(code: Code, retCells: nat, m: Machine, pc: nat)
    requires WellFormed(code) && At(code, retCells, m, pc) && code[pc].OpIf? && ElseOf(code, pc).None?
    ensures At(code, retCells, Interp(code, m, false), EndPos(code, pc) + 1)
  {
    DecodeAddr(code, pc, 0);
    Passed(code, retCells, pc);
  }

  /** Where a false IF with ELSE goes: after the ELSE, with the label of the IF. */
  function InElse(code: Code, m: Machine, pc: nat): Machine
    requires m.Running? && pc < |code| && code[pc].OpIf?
    requires ElseOf(code, pc).Some? && ElseOf(code, pc).value < |code|
  {
    Running(Addr(code, ElseOf(code, pc).value) + 1, m.csp + [LabelAt(code, pc)])
  }

  lemma {:induction false} GoesToElse(code: Code, m: Machine, pc: nat)
    requires m.Running? && pc < |code| && code[|code| - 1].OpEnd? && Decode(code, m.ip, 0) == Some(pc)
    requires code[pc].OpIf? && ElseOf(code, pc).Some? && ElseOf(code, pc).value < |code|
    ensures Interp(code, m, false) == InElse(code, m, pc)
  {
  }

  lemma {:induction false} NextAddr(code: Code, i: nat)
    requires i < |code|
    ensures Addr(code, i + 1) == Addr(code, i) + code[i].Len()
  {
  }

  lemma {:induction false} EnteredElse(code: Code, retCells: nat, o: nat)
    requires WellFormed(code) && o < |code| && code[o].OpIf? && ElseOf(code, o).Some?
    ensures var e := ElseOf(code, o).value;
      && e + 1 < |code| && Addr(code, e + 1) == Addr(code, e) + 1
      && StaticStack(code, e + 1, retCells) == StaticStack(code, o, retCells) + [LabelAt(code, o)]
  {
    ConstructElse(code, o);
    NextAddr(code, ElseOf(code, o).value);
    Entered(code, retCells, o, ElseOf(code, o).value + 1);
  }

  lemma {:induction false} ElseIsStatic(code: Code, retCells: nat, m: Machine, pc: nat)
    requires WellFormed(code) && At(code, retCells, m, pc) && code[pc].OpIf? && ElseOf(code, pc).Some?
    ensures ElseOf(code, pc).value < |code| && At(code, retCells, InElse(code, m, pc), ElseOf(code, pc).value + 1)
  {
    EnteredElse(code, retCells, pc);
  }

  lemma {:induction false} ElseStep(code: Code, retCells: nat, m: Machine, pc: nat)
    requires WellFormed(code) && At(code, retCells, m, pc) && code[pc].OpIf? && ElseOf(code, pc).Some?
    ensures At(code, retCells, Interp(code, m, false), ElseOf(code, pc).value + 1)
  {
    DecodeAddr(code, pc, 0);
    ElseIsStatic(code, retCells, m, pc);
    GoesToElse(code, m, pc);
  }

  /** Any other construct is entered at its start. */
  lemma {:induction false} EnterStep(code: Code, retCells: nat, m: Machine, pc: nat, cond: bool)
    requires WellFormed(code) && At(code, retCells, m, pc) && code[pc].Opens() && (code[pc].OpIf? ==> cond)
    ensures At(code, retCells, Interp(code, m, cond), pc + 1)
  {
    DecodeAddr(code, pc, 0);
    Entered(code, retCells, pc, pc + 1);
  }

  /** The steps that open a construct or pass over one. */
  lemma {:induction false} OpeningStep(code: Code, retCells: nat, m: Machine, pc: nat, cond: bool) returns (pc': nat)
    requires WellFormed(code) && At(code, retCells, m, pc) && code[pc].Opens()
    ensures At(code, retCells, Interp(code, m, cond), pc')
  {
    if !code[pc].OpIf? || cond {
      pc' := pc + 1;
      EnterStep(code, retCells, m, pc, cond);
    } else if ElseOf(code, pc).None? {
      pc' := EndPos(code, pc) + 1;
      PassStep(code, retCells, m, pc);
    } else {
      pc' := ElseOf(code, pc).value + 1;
      ElseStep(code, retCells, m, pc);
    }
  }

  /** The END of an inner construct. */
  lemma {:induction false} EndStep(code: Code, retCells: nat, m: Machine, pc: nat, cond: bool)
    requires WellFormed(code) && At(code, retCells, m, pc) && code[pc].OpEnd? && Interp(code, m, cond).Running?
    ensures At(code, retCells, Interp(code, m, cond), pc + 1)
  {
    DecodeAddr(code, pc, 0);
    OpenOpeners(code, pc);
    StackPrefix(code, Open(code, pc), |Open(code, pc)| - 1, retCells);
  }

  /** One interpreter step keeps the label stack equal to the static one. */
  lemma {:induction false} InterpStep(code: Code, retCells: nat, m: Machine, pc: nat, cond: bool) returns (pc': nat)
    requires WellFormed(code) && At(code, retCells, m, pc) && Interp(code, m, cond).Running?
    ensures At(code, retCells, Interp(code, m, cond), pc')
  {
    DecodeAddr(code, pc, 0);
    var op := code[pc];
    if op.Opens() {
      pc' := OpeningStep(code, retCells, m, pc, cond);
    } else if op.OpElse? {
      pc' := BranchTaken(code, retCells, pc, 0);
      assert m.csp[..|m.csp|] == m.csp;
    } else if op.OpBr? || (op.OpBrIf? && cond) {
      pc' := BranchTaken(code, retCells, pc, op.depth);
    } else if op.OpEnd? {
      pc' := pc + 1;
      EndStep(code, retCells, m, pc, cond);
    } else {
      pc' := pc + 1;
      OpenOpeners(code, pc);
    }
  }

  /** In every run, at every point, the interpreter's label stack is the static one of its
      instruction address. */
  lemma {:induction false} InterpStackIsStatic(code: Code, retCells: nat, run: seq<Machine>, conds: seq<bool>, t: nat)
      returns (pc: nat)
    requires WellFormed(code) && IsInterpRun(code, retCells, run, conds) && t < |run| && run[t].Running?
    ensures At(code, retCells, run[t], pc)
    ensures HoldsLabels(code, pc, retCells, run[t].csp)
  {
    if t == 0 {
      pc := 0;
    } else {
      pc := InterpStackIsStatic(code, retCells, run, conds, t - 1);
      assert run[t] == Interp(code, run[t - 1], conds[t - 1]);
      pc := InterpStep(code, retCells, run[t - 1], pc, conds[t - 1]);
    }
    StaticStackHolds(code, pc, retCells);
  }

  // ------------------------------------------------------------------ the replay

  /** An IF without ELSE. */
  predicate BareIf(code: Code, o: nat) {
    o < |code| && code[o].OpIf? && ElseOf(code, o).None?
  }

  /** No IF without ELSE is open at the instruction. */
  ghost predicate NoBareIf(code: Code, pc: nat)
    requires pc <= |code|
  {
    forall o :: o in Open(code, pc) ==> !BareIf(code, o)
  }

  function Reversed<T>(xs: seq<T>): (r: seq<T>)
    ensures |r| == |xs| && forall i :: 0 <= i < |xs| ==> r[i] == xs[|xs| - 1 - i]
  {
    if xs == [] then [] else [xs[|xs| - 1]] + Reversed(xs[..|xs| - 1])
  }

  /** The ELSE of every open IF is behind the scan, or not before the target. */
  ghost predicate ElseAhead(code: Code, pc: nat, target: nat)
    requires pc <= |code|
  {
    forall o :: o in Open(code, pc) && o < |code| && code[o].OpIf? && ElseOf(code, o).Some? ==>
      ElseOf(code, o).value < pc || target <= ElseOf(code, o).value
  }

  /** The scan for `target` comes to instruction `i`: no IF without ELSE is open there, and no IF whose
      ELSE lies between the instruction and the target. */
  ghost predicate Met(code: Code, i: nat, target: nat)
    requires i <= |code|
  {
    ElseAhead(code, i, target) && NoBareIf(code, i)
  }

  ghost predicate ReturnMet(code: Code, i: nat, target: nat) {
    i < target && i < |code| && code[i].OpReturn? && Met(code, i, target)
  }

  /** The scan jumped over the target together with the bare IF that is open there. */
  ghost predicate JumpedOver(code: Code, target: nat, pc: nat)
    requires target <= |code|
  {
    exists o :: o in Open(code, target) && BareIf(code, o) && pc == EndPos(code, o) + 1
  }

  /** How far the scan for the instruction at `target` has come. */
  ghost predicate Progress(code: Code, target: nat, pc: nat)
    requires target < |code| && pc <= |code|
  {
    if pc <= target then Met(code, pc, target) else JumpedOver(code, target, pc)
  }

  /** It has not come to a RETURN before. */
  ghost predicate NoReturnYet(code: Code, target: nat, pc: nat) {
    forall i :: 0 <= i < pc ==> !ReturnMet(code, i, target)
  }

  lemma {:induction false} DecodeSound(code: Code, ip: nat, i: nat)
    requires i <= |code| && Decode(code, ip, i).Some?
    ensures Decode(code, ip, i).value < |code| && Addr(code, Decode(code, ip, i).value) == ip
    decreases |code| - i
  {
    if Addr(code, i) != ip {
      DecodeSound(code, ip, i + 1);
    }
  }

  /** Comparing addresses is comparing positions. */
  lemma {:induction false} AddrOrder(code: Code, i: nat, j: nat)
    requires WellFormed(code) && i <= |code| && j <= |code|
    ensures Addr(code, i) < Addr(code, j) <==> i < j
  {
    if i < j {
      AddrIncreasing(code, i, j);
    } else if j < i {
      AddrIncreasing(code, j, i);
    }
  }

  /** The scan jumps over a bare IF. */
  lemma {:induction false} SkipBareIf(code: Code, target: nat, pc: nat)
    requires WellFormed(code) && pc < target < |code| && Progress(code, target, pc) && BareIf(code, pc)
    ensures EndPos(code, pc) + 1 <= |code| && Progress(code, target, EndPos(code, pc) + 1)
  {
    Construct(code, pc);
    if target <= EndPos(code, pc) {
      OpenInside(code, pc + 1, pc + 1, 0, target);
      assert Open(code, pc + 1)[|Open(code, pc)|] == pc;
      assert Open(code, target)[|Open(code, pc)|] == pc;
    }
  }

  /** Inside an IF that is jumped over, the scan meets nothing. */
  lemma {:induction false} NotMetInside(code: Code, target: nat, pc: nat, i: nat)
    requires WellFormed(code) && pc < i <= |code| && pc < |code| && code[pc].OpIf? && i <= EndPos(code, pc)
    requires ElseOf(code, pc).None? || i <= ElseOf(code, pc).value < target
    ensures !Met(code, i, target)
  {
    Construct(code, pc);
    OpenInside(code, pc + 1, pc + 1, 0, i);
    assert Open(code, pc + 1)[|Open(code, pc)|] == pc;
    assert Open(code, i)[|Open(code, pc)|] == pc;
    assert pc in Open(code, i);
  }

  /** What lies between an IF and the place where the scan goes on is not met. */
  lemma {:induction false} NoReturnBetween(code: Code, target: nat, pc: nat, pc': nat)
    requires WellFormed(code) && pc < pc' && pc < |code| && code[pc].OpIf? && NoReturnYet(code, target, pc)
    requires pc' == pc + 1 || (ElseOf(code, pc).None? && pc' == EndPos(code, pc) + 1)
      || (ElseOf(code, pc).Some? && ElseOf(code, pc).value < target && pc' == ElseOf(code, pc).value + 1)
    ensures NoReturnYet(code, target, pc')
  {
    Construct(code, pc);
    if ElseOf(code, pc).Some? {
      ConstructElse(code, pc);
    }
    forall i | pc < i < pc'
      ensures !ReturnMet(code, i, target)
    {
      NotMetInside(code, target, pc, i);
    }
  }

  lemma {:induction false} FewerOpen(code: Code, target: nat, o: nat)
    requires WellFormed(code) && target <= |code| && o in Open(code, target)
    requires o < |code| && code[o].Opens()
    ensures EndPos(code, o) < |code| && |Open(code, EndPos(code, o) + 1)| < |Open(code, target)|
  {
    var h :| 0 <= h < |Open(code, target)| && Open(code, target)[h] == o;
    Construct(code, o);
    OpenPrefix(code, target, h);
  }

  /** The jumped-over target has more labels than the scan has left. */
  lemma {:induction false} JumpedOverIsShort(code: Code, target: nat, pc: nat, retCells: nat)
    requires WellFormed(code) && target < |code| && pc <= |code| && JumpedOver(code, target, pc)
    ensures |StaticStack(code, pc, retCells)| < |StaticStack(code, target, retCells)|
    ensures !NoBareIf(code, target)
  {
    var o :| o in Open(code, target) && BareIf(code, o) && pc == EndPos(code, o) + 1;
    FewerOpen(code, target, o);
  }

  /** What the replay of the address of instruction `target` promises: it faults exactly if the scan
      meets a RETURN before the target, and otherwise it yields the innermost-first static stack exactly
      when no IF without ELSE is open there; this stack holds the labels it should. */
  ghost predicate ReplayOutcome(code: Code, target: nat, retCells: nat, r: Option<seq<CspLabel>>)
    requires WellFormed(code) && target < |code|
  {
    && (r.None? <==> exists i :: ReturnMet(code, i, target))
    && (r.Some? ==> (r.value == Reversed(StaticStack(code, target, retCells)) <==> NoBareIf(code, target)))
    && (r.Some? ==> (HoldsLabels(code, target, retCells, Reversed(r.value)) <==> NoBareIf(code, target)))
  }

  /** The scan may stop anywhere; if the target is the address of instruction `goal`, it is on its
      way there. */
  ghost predicate OnTheWay(code: Code, target: nat, goal: Option<nat>, pc: nat)
    requires pc <= |code|
  {
    goal.Some? ==>
      && goal.value < |code| && Addr(code, goal.value) == target
      && Progress(code, goal.value, pc) && NoReturnYet(code, goal.value, pc)
  }

  /** Instructions that leave the scan on the straight line. */
  lemma {:induction false} StraightOn(code: Code, target: nat, goal: Option<nat>, pc: nat)
    requires WellFormed(code) && pc < |code| && Addr(code, pc) < target && OnTheWay(code, target, goal, pc)
    requires !code[pc].OpIf? && !code[pc].OpElse? && !code[pc].OpReturn?
    ensures OnTheWay(code, target, goal, pc + 1)
  {
    if goal.Some? {
      AddrOrder(code, pc, goal.value);
    }
  }

  /** The scan does not meet an ELSE before the target, since it enters the right branch of every
      IF. */
  lemma {:induction false} ElseNotMet(code: Code, target: nat, goal: Option<nat>, pc: nat)
    requires WellFormed(code) && pc < |code| && Addr(code, pc) < target && OnTheWay(code, target, goal, pc)
    requires code[pc].OpElse?
    ensures goal.None?
  {
    var open := Open(code, pc);
    assert ValidAt(code, pc);
    assert open[|open| - 1] in open;
    if goal.Some? {
      AddrOrder(code, pc, goal.value);
    }
  }

  lemma {:induction false} IntoBranch(code: Code, target: nat, goal: Option<nat>, pc: nat, pc': nat)
    requires WellFormed(code) && pc < |code| && Addr(code, pc) < target && OnTheWay(code, target, goal, pc)
    requires code[pc].OpIf? && ElseOf(code, pc).Some? && ElseOf(code, pc).value < |code|
    requires pc' == if target <= Addr(code, ElseOf(code, pc).value) then pc + 1 else ElseOf(code, pc).value + 1
    requires pc < pc' < |code| && Open(code, pc') == Open(code, pc) + [pc]
    ensures OnTheWay(code, target, goal, pc')
  {
    if goal.Some? {
      AddrOrder(code, pc, goal.value);
      AddrOrder(code, ElseOf(code, pc).value, goal.value);
      NoReturnBetween(code, goal.value, pc, pc');
    }
  }

  lemma {:induction false} OverBareIf(code: Code, target: nat, goal: Option<nat>, pc: nat)
    requires WellFormed(code) && pc < |code| && Addr(code, pc) < target && OnTheWay(code, target, goal, pc)
    requires BareIf(code, pc) && EndPos(code, pc) < |code|
    ensures OnTheWay(code, target, goal, EndPos(code, pc) + 1)
  {
    if goal.Some? {
      AddrOrder(code, pc, goal.value);
      SkipBareIf(code, goal.value, pc);
      Construct(code, pc);
      NoReturnBetween(code, goal.value, pc, EndPos(code, pc) + 1);
    }
  }

  /** Where the scan goes from an IF. */
  function AfterIf(code: Code, target: nat, pc: nat): nat
    requires pc < |code|
  {
    match ElseOf(code, pc)
    case None => EndPos(code, pc) + 1
    case Some(l) => if l < |code| && target <= Addr(code, l) then pc + 1 else l + 1
  }

  lemma {:induction false} AfterIfOnTheWay(code: Code, target: nat, goal: Option<nat>, pc: nat, retCells: nat)
    requires WellFormed(code) && pc < |code| && Addr(code, pc) < target && OnTheWay(code, target, goal, pc)
    requires code[pc].OpIf?
    ensures pc < AfterIf(code, target, pc) < |code| && OnTheWay(code, target, goal, AfterIf(code, target, pc))
    ensures ElseOf(code, pc).Some? ==> ElseOf(code, pc).value < |code|
  {
    if ElseOf(code, pc).None? {
      LastEnd(code, pc);
      Construct(code, pc);
      OverBareIf(code, target, goal, pc);
    } else {
      Entered(code, retCells, pc, ElseOf(code, pc).value + 1);
      Entered(code, retCells, pc, AfterIf(code, target, pc));
      IntoBranch(code, target, goal, pc, AfterIf(code, target, pc));
    }
  }

  /** An IF with ELSE is entered at its start or after the ELSE. */
  lemma {:induction false} AfterIfPlace(code: Code, target: nat, pc: nat, e: nat)
    requires WellFormed(code) && pc < |code| && code[pc].OpIf? && ElseOf(code, pc) == Some(e)
    ensures pc < e < |code| && pc < AfterIf(code, target, pc) < |code|
    ensures Open(code, AfterIf(code, target, pc)) == Open(code, pc) + [pc]
    ensures Addr(code, AfterIf(code, target, pc))
      == if target <= Addr(code, e) then Addr(code, pc) + 2 else Addr(code, e) + 1
  {
    Construct(code, pc);
    ConstructElse(code, pc);
  }

  /** One turn of the scan at an IF. */
  method ScanIf(code: Code, target: nat, ghost retCells: nat, pc: nat, csp: seq<CspLabel>)
      returns (pc': nat, ip': nat, csp': seq<CspLabel>)
    requires WellFormed(code) && pc < |code| && code[pc].OpIf? && csp == StaticStack(code, pc, retCells)
    ensures pc' == AfterIf(code, target, pc) && pc < pc' < |code|
    ensures ip' == Addr(code, pc') && csp' == StaticStack(code, pc', retCells)
  {
    var elsePos, endPos := ElseOf(code, pc), EndPos(code, pc);
    if elsePos.None? {
      pc', ip', csp' := endPos + 1, Addr(code, endPos) + 1, csp;
      Passed(code, retCells, pc);
    } else {
      AfterIfPlace(code, target, pc, elsePos.value);
      csp' := csp + [LabelAt(code, pc)];
      if target <= Addr(code, elsePos.value) {
        pc', ip' := pc + 1, Addr(code, pc) + 2;
      } else {
        pc', ip' := elsePos.value + 1, Addr(code, elsePos.value) + 1;
      }
    }
  }

  /** An ELSE sends the scan to the END of its IF. */
  method ElseTarget(code: Code, pc: nat, csp: seq<CspLabel>, ghost retCells: nat) returns (pc': nat, ip': nat)
    requires WellFormed(code) && pc < |code| && code[pc].OpElse? && csp == StaticStack(code, pc, retCells)
    ensures pc < pc' < |code| && ip' == Addr(code, pc') && csp == StaticStack(code, pc', retCells)
  {
    ghost var open := Open(code, pc);
    assert ValidAt(code, pc);
    ghost var o := open[|open| - 1];
    OpenOpeners(code, pc);
    StackAt(code, open, retCells, |open|);
    Construct(code, o);
    ConstructElse(code, o);
    DecodeAddr(code, EndPos(code, o), 0);
    ip' := csp[|csp| - 1].target;
    pc' := Decode(code, ip', 0).value;
    assert open == Open(code, o) + [o];
  }

  /** An END closes the innermost construct, or faults at the end of the function. */
  method ScanEnd(code: Code, pc: nat, csp: seq<CspLabel>, ghost retCells: nat)
      returns (fault: bool, csp': seq<CspLabel>)
    requires WellFormed(code) && pc < |code| && code[pc].OpEnd? && csp == StaticStack(code, pc, retCells)
    ensures fault <==> pc == |code| - 1
    ensures !fault ==> csp' == StaticStack(code, pc + 1, retCells)
  {
    fault, csp' := |csp| <= 1, csp;
    EndCloses(code, pc, retCells);
    if !fault {
      csp' := csp[..|csp| - 1];
    }
  }

  lemma {:induction false} EndCloses(code: Code, pc: nat, retCells: nat)
    requires WellFormed(code) && pc < |code| && code[pc].OpEnd?
    ensures Open(code, pc) == [] <==> pc == |code| - 1
    ensures pc < |code| - 1 ==>
      StaticStack(code, pc + 1, retCells) == StaticStack(code, pc, retCells)[..|Open(code, pc)|]
  {
    assert ValidAt(code, pc);
    if pc < |code| - 1 {
      OpenOpeners(code, pc);
      StackPrefix(code, Open(code, pc), |Open(code, pc)| - 1, retCells);
    }
  }

  /** One turn of the scan at an instruction that is not an IF; a fault is a RETURN, or the END of the
      function itself. */
  method ScanPlain(code: Code, retCells: nat, pc: nat, csp: seq<CspLabel>)
      returns (fault: bool, pc': nat, ip': nat, csp': seq<CspLabel>)
    requires WellFormed(code) && pc < |code| && !code[pc].OpIf? && csp == StaticStack(code, pc, retCells)
    ensures fault <==> code[pc].OpReturn? || pc == |code| - 1
    ensures !fault ==> pc < pc' <= |code| && ip' == Addr(code, pc') && csp' == StaticStack(code, pc', retCells)
    ensures !fault && !code[pc].OpElse? ==> pc' == pc + 1
  {
    fault, pc', ip', csp' := false, pc + 1, Addr(code, pc) + code[pc].Len(), csp;
    if code[pc].OpElse? {
      pc', ip' := ElseTarget(code, pc, csp, retCells);
    } else if code[pc].Opens() {
      Entered(code, retCells, pc, pc + 1);
      csp' := csp + [LabelAt(code, pc)];
    } else if code[pc].OpEnd? {
      fault, csp' := ScanEnd(code, pc, csp, retCells);
    } else if code[pc].OpReturn? {
      fault := true;
    }
  }

  /** One turn of the scan. */
  method ScanStep(code: Code, target: nat, retCells: nat, pc: nat, csp: seq<CspLabel>, ghost goal: Option<nat>)
      returns (fault: bool, pc': nat, ip': nat, csp': seq<CspLabel>)
    requires WellFormed(code) && pc < |code| && Addr(code, pc) < target && OnTheWay(code, target, goal, pc)
    requires csp == StaticStack(code, pc, retCells)
    ensures fault && goal.Some? ==> ReturnMet(code, pc, goal.value)
    ensures !fault ==>
      pc < pc' <= |code| && ip' == Addr(code, pc') && csp' == StaticStack(code, pc', retCells)
      && OnTheWay(code, target, goal, pc')
  {
    if code[pc].OpIf? {
      fault := false;
      AfterIfOnTheWay(code, target, goal, pc, retCells);
      pc', ip', csp' := ScanIf(code, target, retCells, pc, csp);
    } else {
      fault, pc', ip', csp' := ScanPlain(code, retCells, pc, csp);
      PlainOnTheWay(code, target, goal, pc);
    }
  }

  lemma {:induction false} PlainOnTheWay(code: Code, target: nat, goal: Option<nat>, pc: nat)
    requires WellFormed(code) && pc < |code| && Addr(code, pc) < target && OnTheWay(code, target, goal, pc)
    requires !code[pc].OpIf?
    ensures code[pc].OpElse? ==> goal.None?
    ensures goal.Some? && (code[pc].OpReturn? || pc == |code| - 1) ==> ReturnMet(code, pc, goal.value)
    ensures !code[pc].OpElse? && !code[pc].OpReturn? ==> OnTheWay(code, target, goal, pc + 1)
  {
    if code[pc].OpElse? {
      ElseNotMet(code, target, goal, pc);
    } else if code[pc].OpReturn? {
      if goal.Some? {
        AddrOrder(code, pc, goal.value);
      }
    } else {
      if goal.Some? {
        AddrOrder(code, pc, goal.value);
      }
      StraightOn(code, target, goal, pc);
    }
  }

  /** The linear scan of the code up to the target address, as it is done when a frame is restored:
      nothing is executed. */
  method Replay(code: Code, target: nat, retCells: nat) returns (r: Option<seq<CspLabel>>)
    requires WellFormed(code)
    ensures target > Addr(code, |code|) ==> r == None
    ensures forall pc :: 0 <= pc < |code| && target == Addr(code, pc) ==> ReplayOutcome(code, pc, retCells, r)
  {
    ghost var goal := GoalOf(code, target);
    if target > Addr(code, |code|) {
      return None;
    }
    var pc, ip, csp := 0, 0, [FuncLabel(code, retCells)];
    while ip < target
      invariant pc <= |code| && ip == Addr(code, pc) && csp == StaticStack(code, pc, retCells)
      invariant OnTheWay(code, target, goal, pc)
      decreases |code| - pc
    {
      var fault;
      if goal.Some? {
        AddrOrder(code, pc, goal.value);
      }
      fault, pc, ip, csp := ScanStep(code, target, retCells, pc, csp, goal);
      if fault {
        return None;
      }
    }
    r := Some(Reversed(csp));
    if goal.Some? {
      AddrOrder(code, pc, goal.value);
      ScanDone(code, goal.value, pc, retCells);
    }
  }

  /** The instruction at the target address. */
  lemma {:induction false} GoalOf(code: Code, target: nat) returns (goal: Option<nat>)
    requires WellFormed(code)
    ensures forall pc :: 0 <= pc < |code| && target == Addr(code, pc) ==> goal == Some(pc)
    ensures OnTheWay(code, target, goal, 0)
    ensures goal.Some? ==> target <= Addr(code, |code|)
  {
    goal := Decode(code, target, 0);
    forall pc | 0 <= pc < |code| && target == Addr(code, pc)
      ensures goal == Some(pc)
    {
      DecodeAddr(code, pc, 0);
    }
    if goal.Some? {
      DecodeSound(code, target, 0);
      AddrOrder(code, |code|, goal.value);
    }
  }

  /** At the end of the scan the labels are right, or the target has been jumped over. */
  lemma {:induction false} ScanDone(code: Code, goal: nat, pc: nat, retCells: nat)
    requires WellFormed(code) && goal <= pc <= |code| && goal < |code|
    requires Progress(code, goal, pc) && NoReturnYet(code, goal, pc)
    ensures ReplayOutcome(code, goal, retCells, Some(Reversed(StaticStack(code, pc, retCells))))
  {
    if pc > goal {
      JumpedOverIsShort(code, goal, pc, retCells);
      ShortStackIsWrong(code, goal, retCells, StaticStack(code, pc, retCells));
    } else {
      RightStack(code, goal, retCells);
    }
  }

  lemma {:induction false} ShortStackIsWrong(code: Code, goal: nat, retCells: nat, st: seq<CspLabel>)
    requires WellFormed(code) && goal < |code| && |st| < |StaticStack(code, goal, retCells)|
    ensures Reversed(st) != Reversed(StaticStack(code, goal, retCells))
    ensures !HoldsLabels(code, goal, retCells, Reversed(Reversed(st)))
  {
  }

  lemma {:induction false} RightStack(code: Code, goal: nat, retCells: nat)
    requires WellFormed(code) && goal < |code|
    ensures HoldsLabels(code, goal, retCells, Reversed(Reversed(StaticStack(code, goal, retCells))))
  {
    StaticStackHolds(code, goal, retCells);
    BackAgain(StaticStack(code, goal, retCells));
  }

  lemma {:induction false} BackAgain<T>(xs: seq<T>)
    ensures Reversed(Reversed(xs)) == xs
  {
  }

  /** Restoring the frame: the replayed labels are reversed back and stored from the bottom up. */
  method RestoreCsp(replayed: seq<CspLabel>, bottom: array<CspLabel>) returns (csp: nat)
    requires |replayed| <= bottom.Length
    modifies bottom
    ensures csp == |replayed|
    ensures bottom[..csp] == Reversed(replayed) && bottom[csp..] == old(bottom[csp..])
  {
    var labels := Reversed(replayed);
    var i := 0;
    while i < |labels|
      invariant 0 <= i <= |labels|
      invariant bottom[..i] == labels[..i]
      invariant bottom[|labels|..] == old(bottom[|replayed|..])
    {
      bottom[i] := labels[i];
      i := i + 1;
    }
    csp := |labels|;
  }

  /** For every run that stops at some address, replaying that address and restoring the result
      gives back the interpreter's label stack exactly when no IF without ELSE is open there. */
  lemma {:induction false} ReplayMatchesInterpreter(code: Code, retCells: nat, run: seq<Machine>, conds: seq<bool>,
                                                   t: nat, r: Option<seq<CspLabel>>) returns (pc: nat)
    requires WellFormed(code) && IsInterpRun(code, retCells, run, conds) && t < |run| && run[t].Running?
    requires forall i :: 0 <= i < |code| && run[t].ip == Addr(code, i) ==> ReplayOutcome(code, i, retCells, r)
    ensures pc < |code| && Addr(code, pc) == run[t].ip
    ensures HoldsLabels(code, pc, retCells, run[t].csp)
    ensures r.Some? ==> (Reversed(r.value) == run[t].csp <==> NoBareIf(code, pc))
    ensures r.Some? ==> (HoldsLabels(code, pc, retCells, Reversed(r.value)) <==> NoBareIf(code, pc))
    ensures r.None? <==> exists i :: ReturnMet(code, i, pc)
  {
    pc := InterpStackIsStatic(code, retCells, run, conds, t);
  }

  function BareIfCode(): (code: Code)
    ensures |code| == 4 && code[3].OpEnd?
  {
    [OpIf(0), Plain(1), OpEnd, OpEnd]
  }

  lemma {:induction false} BareIfIsWellFormed()
    ensures WellFormed(BareIfCode())
  {
    var code := BareIfCode();
    forall i | 0 <= i < |code|
      ensures ValidAt(code, i)
    {
      assert i == 0 || i == 1 || i == 2 || i == 3;
    }
  }

  /** An address inside an IF without ELSE: the interpreter holds two labels there, so the replay,
      which jumps over it, does not give them back. */
  lemma {:induction false} BareIfLosesItsLabel(retCells: nat, r: seq<CspLabel>)
    requires WellFormed(BareIfCode()) && ReplayOutcome(BareIfCode(), 1, retCells, Some(r))
    ensures Interp(BareIfCode(), Running(0, [FuncLabel(BareIfCode(), retCells)]), true)
      == Running(Addr(BareIfCode(), 1), StaticStack(BareIfCode(), 1, retCells))
    ensures Reversed(r) != StaticStack(BareIfCode(), 1, retCells)
  {
    BareIfStep(retCells);
    BareIfIsOpen();
  }

  lemma {:induction false} BareIfIsOpen()
    ensures !NoBareIf(BareIfCode(), 1)
  {
    assert 0 in Open(BareIfCode(), 1);
    assert BareIf(BareIfCode(), 0);
  }

  lemma {:induction false} BareIfStep(retCells: nat)
    ensures Interp(BareIfCode(), Running(0, [FuncLabel(BareIfCode(), retCells)]), true)
      == Running(Addr(BareIfCode(), 1), StaticStack(BareIfCode(), 1, retCells))
  {
    var code := BareIfCode();
    assert Addr(code, 0) == 0 && Decode(code, 0, 0) == Some(0);
    OpenOpeners(code, 1);
    var os := Open(code, 1);
    assert os[..0] == [];
    assert Stack(code, [], retCells) == [FuncLabel(code, retCells)];
  }
}
