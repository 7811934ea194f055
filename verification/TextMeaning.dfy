/** What the program tree means in the text of the file, word by word: a definition that knows neither
    kinds of lines nor tokens, and the proof that translator and parser meet it. */
module TextMeaning {
  import opened Basics
  import opened WasmTree
  import opened Parser
  import opened Translator
  import opened Resolution

  // ------------------------------------------------------------------ the meaning

  predicate Begins(head: string, word: string) {
    |word| <= |head| && forall i :: 0 <= i < |word| ==> head[i] == word[i]
  }

  predicate FuncText(text: Text) { Begins(text.head, "(func") }

  predicate ImportText(text: Text) { text.head == "(import" }

  /** The lines of a function that matter. */
  predicate Critical(text: Text) {
    || Begins(text.head, "block") || Begins(text.head, "loop") || Begins(text.head, "end")
    || Begins(text.head, "br") || Begins(text.head, "return")
    || Begins(text.head, "local.tee") || Begins(text.head, "local.set")
    || Begins(text.head, "call")
  }

  function CriticalTexts(texts: seq<Text>): seq<Text> {
    if texts == [] then []
    else (if Critical(texts[0]) then [texts[0]] else []) + CriticalTexts(texts[1..])
  }

  function FuncTexts(texts: seq<Text>, i: nat): nat
    requires i <= |texts|
  {
    if i == 0 then 0 else FuncTexts(texts, i - 1) + (if FuncText(texts[i - 1]) then 1 else 0)
  }

  function ImportTexts(texts: seq<Text>, i: nat): nat
    requires i <= |texts|
  {
    if i == 0 then 0 else ImportTexts(texts, i - 1) + (if ImportText(texts[i - 1]) then 1 else 0)
  }

  /** How many lines come before the next function. */
  function BodyLength(texts: seq<Text>): (n: nat)
    ensures n <= |texts|
  {
    if texts == [] || FuncText(texts[0]) then 0 else 1 + BodyLength(texts[1..])
  }

  /** The number of the function or import that line `i` declares under this name: its place among
      functions and imports, less the number of imports. */
  ghost predicate StandsAt(texts: seq<Text>, name: Option<string>, c: int, i: nat) {
    && i < |texts| && (FuncText(texts[i]) || ImportText(texts[i])) && name.Some? && texts[i].name == name
    && c == FuncTexts(texts, i) + ImportTexts(texts, i) - ImportTexts(texts, |texts|)
  }

  ghost predicate Stands(texts: seq<Text>, name: Option<string>, c: int) {
    exists i :: StandsAt(texts, name, c, i)
  }

  /** A body in the order of its text: its nodes, and where its blocks and loops close. */
  datatype Item = Node(inst: Inst) | Close

  function Items1(inst: Inst): seq<Item> {
    if inst.IsNested() then [Node(inst)] + Items(inst.insts) + [Close] else [Node(inst)]
  }

  function Items(insts: seq<Inst>): seq<Item> {
    if insts == [] then [] else Items1(insts[0]) + Items(insts[1..])
  }

  /** A line says what an item is: its word and its number, or the function whose name is on it. */
  ghost predicate Says(texts: seq<Text>, text: Text, item: Item) {
    match item
    case Close => Begins(text.head, "end")
    case Node(inst) =>
      match inst
      case Block(_) => Begins(text.head, "block")
      case Loop(_, _) => Begins(text.head, "loop")
      case BrIf(d) => Begins(text.head, "br_if") && text.operand == Some(d)
      case BrTable => Begins(text.head, "br_table")
      case Br(d) =>
        && Begins(text.head, "br") && !Begins(text.head, "br_if") && !Begins(text.head, "br_table")
        && text.operand == Some(d)
      case Return => Begins(text.head, "return")
      case LocalTee(x) => Begins(text.head, "local.tee") && IsNumber(text.operand, x)
      case LocalSet(x) => Begins(text.head, "local.set") && IsNumber(text.operand, x)
      case CallIndirect => Begins(text.head, "call_indirect")
      case Call(c) => Begins(text.head, "call") && !Begins(text.head, "call_indirect") && Stands(texts, text.name, c)
  }

  predicate IsNumber(operand: Option<nat>, x: int) { operand.Some? && operand.value == x }

  /** The critical lines and the items correspond one to one, in order. */
  ghost predicate Spells(texts: seq<Text>, body: seq<Text>, insts: seq<Inst>) {
    var lines, items := CriticalTexts(body), Items(insts);
    |lines| == |items| && forall n :: 0 <= n < |lines| ==> Says(texts, lines[n], items[n])
  }

  /** Each function line has its function, in order, and the lines behind it spell its body. */
  ghost predicate Means(texts: seq<Text>, p: Program) {
    && |p| == FuncTexts(texts, |texts|)
    && forall i :: 0 <= i < |texts| && FuncText(texts[i]) ==> MeansFunc(texts, i, p)
  }

  ghost predicate MeansFunc(texts: seq<Text>, i: nat, p: Program)
    requires i < |texts|
  {
    var k, behind := FuncTexts(texts, i), texts[i + 1..];
    && k < |p| && p[k].funcIdx == k
    && Spells(texts, behind[..BodyLength(behind)], p[k].block)
  }

  // ------------------------------------------------------------------ words and kinds

  lemma {:induction false} WordsAre(head: string)
    ensures StartsWith(head, "(func") == Begins(head, "(func")
    ensures StartsWith(head, "block") == Begins(head, "block")
    ensures StartsWith(head, "loop") == Begins(head, "loop")
    ensures StartsWith(head, "end") == Begins(head, "end")
    ensures StartsWith(head, "br_if") == Begins(head, "br_if")
    ensures StartsWith(head, "br_table") == Begins(head, "br_table")
    ensures StartsWith(head, "br") == Begins(head, "br")
    ensures StartsWith(head, "return") == Begins(head, "return")
    ensures StartsWith(head, "local.tee") == Begins(head, "local.tee")
    ensures StartsWith(head, "local.set") == Begins(head, "local.set")
    ensures StartsWith(head, "call_indirect") == Begins(head, "call_indirect")
    ensures StartsWith(head, "call") == Begins(head, "call")
  {
  }

  lemma {:induction false} LongerWord(head: string, a: string, b: string)
    requires Begins(head, a) && |b| <= |a| && a[..|b|] == b
    ensures Begins(head, b)
  {
    assert forall i :: 0 <= i < |b| ==> a[..|b|][i] == a[i];
  }

  /** The kinds are told by words alone; only "br" and "call" need to exclude longer words. */
  lemma {:induction false} KindsAreWords(head: string)
    ensures KindOf(head) == Import <==> head == "(import"
    ensures KindOf(head) == FuncStart <==> Begins(head, "(func")
    ensures KindOf(head) == BlockStart <==> Begins(head, "block")
    ensures KindOf(head) == LoopStart <==> Begins(head, "loop")
    ensures KindOf(head) == BlockEnd <==> Begins(head, "end")
    ensures KindOf(head) == BranchIf <==> Begins(head, "br_if")
    ensures KindOf(head) == BranchTable <==> Begins(head, "br_table")
    ensures KindOf(head) == Branch <==>
      Begins(head, "br") && !Begins(head, "br_if") && !Begins(head, "br_table")
    ensures KindOf(head) == Leave <==> Begins(head, "return")
    ensures KindOf(head) == Tee <==> Begins(head, "local.tee")
    ensures KindOf(head) == Set <==> Begins(head, "local.set")
    ensures KindOf(head) == IndirectCall <==> Begins(head, "call_indirect")
    ensures KindOf(head) == DirectCall <==> Begins(head, "call") && !Begins(head, "call_indirect")
  {
    WordsAre(head);
    if head != [] {
      FirstLetters(head);
    }
  }

  /** The first letter, and the second or seventh where that is not enough, tell the words apart. */
  lemma {:induction false} FirstLetters(head: string)
    requires head != []
    ensures head == "(import" ==> !Begins(head, "(func")
    ensures Begins(head, "(func") ==> head[0] == '('
    ensures Begins(head, "block") ==> head[0] == 'b' && |head| > 1 && head[1] == 'l'
    ensures Begins(head, "br") ==> head[0] == 'b' && |head| > 1 && head[1] == 'r'
    ensures Begins(head, "br_if") ==> Begins(head, "br") && |head| > 3 && head[3] == 'i'
    ensures Begins(head, "br_table") ==> Begins(head, "br") && |head| > 3 && head[3] == 't'
    ensures Begins(head, "loop") ==> head[0] == 'l' && |head| > 2 && head[2] == 'o'
    ensures Begins(head, "local.tee") ==> head[0] == 'l' && |head| > 6 && head[2] == 'c' && head[6] == 't'
    ensures Begins(head, "local.set") ==> head[0] == 'l' && |head| > 6 && head[2] == 'c' && head[6] == 's'
    ensures Begins(head, "end") ==> head[0] == 'e'
    ensures Begins(head, "return") ==> head[0] == 'r'
    ensures Begins(head, "call") ==> head[0] == 'c'
    ensures Begins(head, "call_indirect") ==> Begins(head, "call")
    ensures head == "(import" ==> head[0] == '('
  {
    if Begins(head, "br_if") {
      LongerWord(head, "br_if", "br");
    }
    if Begins(head, "br_table") {
      LongerWord(head, "br_table", "br");
    }
    if Begins(head, "call_indirect") {
      LongerWord(head, "call_indirect", "call");
    }
    assert "(import"[1] == 'i' && "(func"[1] == 'f';
  }

  lemma {:induction false} CriticalKinds(text: Text)
    ensures Critical(text) <==>
      KindOf(text.head) != Import && KindOf(text.head) != FuncStart && KindOf(text.head) != Other
  {
    KindsAreWords(text.head);
    if text.head != [] {
      FirstLetters(text.head);
    }
  }

  // ------------------------------------------------------------------ texts and lines

  function LineOf(text: Text): Line { Line(KindOf(text.head), text.name, text.operand) }

  lemma {:induction false} ClassifyAt(texts: seq<Text>, i: nat)
    requires i < |texts|
    ensures Classify(texts)[i] == LineOf(texts[i])
    ensures FuncText(texts[i]) <==> Classify(texts)[i].kind == FuncStart
    ensures ImportText(texts[i]) <==> Classify(texts)[i].kind == Import
  {
    KindsAreWords(texts[i].head);
  }

  lemma {:induction false} ClassifyFrom(texts: seq<Text>, i: nat)
    requires i <= |texts|
    ensures Classify(texts[i..]) == Classify(texts)[i..]
  {
  }

  lemma {:induction false} CountsAre(texts: seq<Text>, i: nat)
    requires i <= |texts|
    ensures FuncTexts(texts, i) == FuncsAbove(Classify(texts), i)
    ensures ImportTexts(texts, i) == ImportsAbove(Classify(texts), i)
  {
    if i == 0 {
    } else {
      CountsAre(texts, i - 1);
      ClassifyAt(texts, i - 1);
    }
  }

  lemma {:induction false} BodyLengthIs(texts: seq<Text>)
    ensures BodyLength(texts) == NextFunc(Classify(texts))
  {
    if texts == [] {
    } else {
      ClassifyAt(texts, 0);
      ClassifyFrom(texts, 1);
      BodyLengthIs(texts[1..]);
    }
  }

  // ------------------------------------------------------------------ lines and tokens

  ghost predicate TokenFrom(dict: Dict, text: Text, t: Token) {
    exists loops: nat :: BodyToken(dict, LineOf(text), loops) == Some(t)
  }

  ghost predicate TokensFrom(dict: Dict, texts: seq<Text>, ts: Tokens) {
    |texts| == |ts| && forall n :: 0 <= n < |ts| ==> TokenFrom(dict, texts[n], ts[n])
  }

  lemma {:induction false} TokensFromCons(dict: Dict, text: Text, t: Token, texts: seq<Text>, ts: Tokens)
    requires TokenFrom(dict, text, t) && TokensFrom(dict, texts, ts)
    ensures TokensFrom(dict, [text] + texts, [t] + ts)
  {
  }

  /** One more line in front. */
  lemma {:induction false} TokensFromLine(dict: Dict, text: Text, body: seq<Text>, loops: nat, ts: Tokens)
    requires Critical(text) ==> BodyToken(dict, LineOf(text), loops).Some?
    requires TokensFrom(dict, CriticalTexts(body), ts)
    ensures TokensFrom(dict, CriticalTexts([text] + body),
                       (if Critical(text) then [BodyToken(dict, LineOf(text), loops).value] else []) + ts)
  {
    assert ([text] + body)[1..] == body;
    if Critical(text) {
      TokensFromCons(dict, text, BodyToken(dict, LineOf(text), loops).value, CriticalTexts(body), ts);
    } else {
      assert [] + CriticalTexts(body) == CriticalTexts(body) && [] + ts == ts;
    }
  }

  lemma {:induction false} BodyFront(texts: seq<Text>)
    requires texts != [] && !FuncText(texts[0])
    ensures texts[..BodyLength(texts)] == [texts[0]] + texts[1..][..BodyLength(texts[1..])]
  {
  }

  /** A body's tokens are those of its critical lines, in order. */
  lemma {:induction false} BodyTokensFrom(dict: Dict, texts: seq<Text>, loops: nat)
    requires BodyTokens(dict, Classify(texts), loops).Some?
    ensures TokensFrom(dict, CriticalTexts(texts[..BodyLength(texts)]), BodyTokens(dict, Classify(texts), loops).value)
  {
    if texts == [] || FuncText(texts[0]) {
      assert texts[..0] == [];
      if texts != [] {
        ClassifyAt(texts, 0);
      }
    } else {
      var rest, loops' := texts[1..], if LineOf(texts[0]).kind == LoopStart then loops + 1 else loops;
      ClassifyAt(texts, 0);
      ClassifyFrom(texts, 1);
      CriticalKinds(texts[0]);
      BodyTokensFrom(dict, rest, loops');
      BodyFront(texts);
      TokensFromLine(dict, texts[0], rest[..BodyLength(rest)], loops, BodyTokens(dict, Classify(rest), loops').value);
    }
  }

  // ------------------------------------------------------------------ tokens and items

  function ItemToken(item: Item): Token {
    match item
    case Close => EndBlock
    case Node(Block(_)) => BeginBlock
    case Node(Loop(i, _)) => BeginLoop(i)
    case Node(inst) => Print1(inst)[0]
  }

  ghost predicate PrintsItems(ts: Tokens, items: seq<Item>) {
    |ts| == |items| && forall n :: 0 <= n < |ts| ==> ts[n] == ItemToken(items[n])
  }

  lemma {:induction false} PrintsConcat(a: Tokens, x: seq<Item>, b: Tokens, y: seq<Item>)
    requires PrintsItems(a, x) && PrintsItems(b, y)
    ensures PrintsItems(a + b, x + y)
  {
  }

  lemma {:induction false} PrintIsItems1(inst: Inst)
    ensures PrintsItems(Print1(inst), Items1(inst))
    decreases inst
  {
    if inst.IsNested() {
      var opening := if inst.Block? then BeginBlock else BeginLoop(inst.loopIdx);
      PrintIsItems(inst.insts);
      PrintsConcat([opening], [Node(inst)], Print(inst.insts), Items(inst.insts));
      PrintsConcat([opening] + Print(inst.insts), [Node(inst)] + Items(inst.insts), [EndBlock], [Close]);
    } else {
      assert Print1(inst) == [ItemToken(Node(inst))];
    }
  }

  lemma {:induction false} PrintIsItems(insts: seq<Inst>)
    ensures PrintsItems(Print(insts), Items(insts))
    decreases insts
  {
    if insts == [] {
    } else {
      PrintIsItems1(insts[0]);
      PrintIsItems(insts[1..]);
      PrintsConcat(Print1(insts[0]), Items1(insts[0]), Print(insts[1..]), Items(insts[1..]));
    }
  }

  // ------------------------------------------------------------------ the translator meets the meaning

  /** The name on a call line leads to the line that declares it. */
  lemma {:induction false} CallStands(texts: seq<Text>, dict: Dict, text: Text, c: int)
    requires Known(Classify(texts), dict) && text.name.Some? && dict.Lookup(text.name.value) == Some(c)
    ensures Stands(texts, text.name, c)
  {
    var lines := Classify(texts);
    assert lines[..|lines|] == lines;
    var i := DeclaringLine(lines, |lines|, Declared(lines).value, text.name.value);
    IndexOfLine(lines, dict, i);
    ClassifyAt(texts, i);
    CountsAre(texts, i);
    CountsAre(texts, |texts|);
    assert StandsAt(texts, text.name, c, i);
  }

  lemma {:induction false} TokenSays(texts: seq<Text>, dict: Dict, text: Text, item: Item)
    requires Known(Classify(texts), dict) && TokenFrom(dict, text, ItemToken(item))
    ensures Says(texts, text, item)
  {
    var loops: nat :| BodyToken(dict, LineOf(text), loops) == Some(ItemToken(item));
    KindsAreWords(text.head);
    if item.Node? && item.inst.Call? {
      CallStands(texts, dict, text, item.inst.callee);
    }
  }

  lemma {:induction false} BodySpells(texts: seq<Text>, dict: Dict, behind: seq<Text>, insts: seq<Inst>)
    requires Known(Classify(texts), dict) && Some(Print(insts)) == BodyTokens(dict, Classify(behind), 0)
    ensures Spells(texts, behind[..BodyLength(behind)], insts)
  {
    BodyTokensFrom(dict, behind, 0);
    PrintIsItems(insts);
    var lines, items := CriticalTexts(behind[..BodyLength(behind)]), Items(insts);
    forall n | 0 <= n < |lines|
      ensures Says(texts, lines[n], items[n])
    {
      assert TokenFrom(dict, lines[n], Print(insts)[n]);
      TokenSays(texts, dict, lines[n], items[n]);
    }
  }

  lemma {:induction false} FuncRead(texts: seq<Text>, dict: Dict, p: Program, i: nat)
    requires FuncsOfLines(dict, Classify(texts), 0, p) && i < |texts| && FuncText(texts[i])
    ensures var k := FuncTexts(texts, i);
      && k < |p| && p[k].funcIdx == k
      && Some(Print(p[k].block)) == BodyTokens(dict, Classify(texts[i + 1..]), 0)
  {
    var lines := Classify(texts);
    assert lines[i].kind == FuncStart by { ClassifyAt(texts, i); }
    assert FuncOfLine(dict, lines, i, 0, p[FuncsAbove(lines, i)]);
    assert FuncTexts(texts, i) == FuncsAbove(lines, i) by { CountsAre(texts, i); }
    assert Classify(texts[i + 1..]) == lines[i + 1..] by { ClassifyFrom(texts, i + 1); }
  }

  /** Whatever is translated and accepted means what the text says. */
  lemma {:induction false} ReadMeans(texts: seq<Text>, dict: Dict, p: Program)
    requires Known(Classify(texts), dict) && FuncsOfLines(dict, Classify(texts), 0, p)
    ensures Means(texts, p)
  {
    CountsAre(texts, |texts|);
    forall i | 0 <= i < |texts| && FuncText(texts[i])
      ensures MeansFunc(texts, i, p)
    {
      FuncRead(texts, dict, p, i);
      BodySpells(texts, dict, texts[i + 1..], p[FuncTexts(texts, i)].block);
    }
  }
}
