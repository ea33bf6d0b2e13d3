/**
 The compiler turns the tokens of a well-nested program into its image, and refuses
 exactly the programs that are not legal.
 */
module UCodeLayout {
  import opened Prelude
  import opened UCodeCpu
  import opened UCodeWords
  import opened UCodeSource
  import opened UCodeCorrect
  import opened UCodeCompiler

  // ----- Tokens -----

  function Tokens(b: Body): seq<Token> {
    match b case End => [] case Seq(item, rest) => ItemTokens(item) + Tokens(rest)
  }

  function ItemTokens(item: Item): seq<Token> {
    match item
    case Primitive(p) => [PrimToken(p)]
    case Number(n) => [NumberToken(n)]
    case Call(name) => [NameToken(name)]
    case Exit => [ExitToken]
    case Return => [SemicolonToken]
    case Index => [IToken]
    case Skip(word) => [SkzToken] + ItemTokens(word)
    case If(yes) => [IfToken] + (Tokens(yes) + [ThenToken])
    case IfElse(yes, no) => [IfToken] + (Tokens(yes) + ([ElseToken] + (Tokens(no) + [ThenToken])))
    case Until(body) => [BeginToken] + (Tokens(body) + [UntilToken])
    case While(test, body) => [BeginToken] + (Tokens(test) + ([WhileToken] + (Tokens(body) + [RepeatToken])))
    case Forever(body) => [BeginToken] + (Tokens(body) + [AgainToken])
    case Count(down, body) => [LoopToken(down)] + (Tokens(body) + [AgainToken])
  }

  /** SKZ skips one word, and that word is not one that `;` joins. */
  predicate Nested(b: Body) {
    match b
    case End => true
    case Seq(item, rest) =>
      NestedItem(item) && Nested(rest) && !(item.Skip? && Fusible(item.word) && rest.Seq? && rest.item.Return?)
  }

  predicate NestedItem(item: Item) {
    match item
    case Skip(word) => OneWord(word)
    case If(yes) => Nested(yes)
    case IfElse(yes, no) => Nested(yes) && Nested(no)
    case Until(body) => Nested(body)
    case While(test, body) => Nested(test) && Nested(body)
    case Forever(body) => Nested(body)
    case Count(_, body) => Nested(body)
    case _ => true
  }

  /** `I` is directly inside a counted loop; `;` is in none; called words are defined before. */
  predicate Legal(b: Body, names: set<string>, inner: bool, within: bool) {
    match b
    case End => true
    case Seq(item, rest) => LegalItem(item, names, inner, within) && Legal(rest, names, inner, within)
  }

  predicate LegalItem(item: Item, names: set<string>, inner: bool, within: bool) {
    match item
    case Call(name) => name in names
    case Return => !within
    case Index => inner
    case Skip(word) => LegalItem(word, names, inner, within)
    case If(yes) => Legal(yes, names, false, within)
    case IfElse(yes, no) => Legal(yes, names, false, within) && Legal(no, names, false, within)
    case Until(body) => Legal(body, names, false, within)
    case While(test, body) => Legal(test, names, false, within) && Legal(body, names, false, within)
    case Forever(body) => Legal(body, names, false, within)
    case Count(_, body) => Legal(body, names, true, true)
    case _ => true
  }

  function ItemTail(item: Item): Tail {
    match item
    case Primitive(p) => if Joins(p) then EvalTail else NoTail
    case Number(_) => DataTail
    case Call(_) => CallTail
    case Skip(word) => ItemTail(word)
    case _ => NoTail
  }

  function TailAfter(b: Body, tail: Tail): Tail {
    match b
    case End => tail
    case Seq(item, rest) => if Fuses(b) then TailAfter(rest.rest, NoTail) else TailAfter(rest, ItemTail(item))
  }

  // ----- Steps of the compiler -----

  predicate Try(c: Compilation, t: Token) { true }

  /** A step function that does what `Compile` does. Only where a proof tries a token is it known what that is. */
  ghost predicate Compiles(compile: (Compilation, Token) -> Option<Compilation>) {
    forall c, t {:trigger Try(c, t)} :: Try(c, t) ==> compile(c, t) == Compile(c, t)
  }

  function After(compile: (Compilation, Token) -> Option<Compilation>, o: Option<Compilation>,
                 ts: seq<Token>): Option<Compilation> {
    match o case None => None case Some(c) => Process(compile, c, ts)
  }

  lemma {:induction false} ProcessAppend(compile: (Compilation, Token) -> Option<Compilation>, c: Compilation,
                                         x: seq<Token>, y: seq<Token>)
    ensures Process(compile, c, x + y) == After(compile, Process(compile, c, x), y)
    decreases |x|
  {
    if x == [] {
      assert x + y == y;
    } else {
      assert (x + y)[0] == x[0] && (x + y)[1..] == x[1..] + y;
      var c1 := compile(c, x[0]);
      if c1.Some? { ProcessAppend(compile, c1.value, x[1..], y); }
    }
  }

  lemma One(compile: (Compilation, Token) -> Option<Compilation>, c: Compilation, t: Token)
    requires Compiles(compile)
    ensures Process(compile, c, [t]) == Compile(c, t)
  {
    assert Try(c, t);
    var o := compile(c, t);
    assert [t][1..] == [];
    if o.Some? { assert Process(compile, o.value, []) == o; }
  }

  lemma TopOf(outer: seq<Word>, w: Word)
    ensures Top(outer + [w]) == w && Rest(outer + [w]) == outer
  {
  }

  lemma BranchAddress(kind: nat, a: nat)
    requires kind < 16 && a < 0x1000
    ensures AddressOf(Branch(kind, a)) == a
  {
  }

  lemma BranchKind(kind: nat, a: nat)
    requires kind < 16
    ensures IsAuto(Branch(kind, a)) <==> kind == 10 || kind == 11
  {
    assert Branch(kind, a) / 0x1000 == kind;
    assert Branch(kind, a) / 0x2000 == kind / 2;
  }

  lemma BranchFixup(kind: nat, a: nat, target: nat)
    requires kind < 16
    ensures Fixup(Branch(kind, a), target) == Branch(kind, target)
  {
    assert Branch(kind, a) / 0x1000 == kind;
  }

  lemma Branches(kind: nat, a: nat, target: nat)
    requires kind < 16 && a < 0x1000
    ensures AddressOf(Branch(kind, a)) == a && Fixup(Branch(kind, a), target) == Branch(kind, target)
    ensures IsAuto(Branch(kind, a)) <==> kind == 10 || kind == 11
  {
    BranchAddress(kind, a);
    BranchKind(kind, a);
    BranchFixup(kind, a, target);
  }

  lemma PatchMiddle(p: seq<Word>, x: Word, q: seq<Word>, y: Word)
    ensures Patch(p + [x] + q, |p|, y) == p + [y] + q
  {
  }

  lemma IfStep(compile: (Compilation, Token) -> Option<Compilation>, c: Compilation)
    requires Compiles(compile)
    ensures Process(compile, c, [IfToken]) ==
              Some(Compilation(c.prog + [Branch(9, |c.prog|)], c.ctrl + [Branch(9, |c.prog|)], NoTail, c.words))
  {
    One(compile, c, IfToken);
  }

  lemma BeginStep(compile: (Compilation, Token) -> Option<Compilation>, c: Compilation)
    requires Compiles(compile)
    ensures Process(compile, c, [BeginToken]) ==
              Some(Compilation(c.prog, c.ctrl + [Branch(8, |c.prog|)], NoTail, c.words))
  {
    One(compile, c, BeginToken);
  }

  lemma LoopStep(compile: (Compilation, Token) -> Option<Compilation>, c: Compilation, down: bool)
    requires Compiles(compile)
    ensures var auto := Branch(if down then 11 else 10, |c.prog| + 1);
            Process(compile, c, [LoopToken(down)]) ==
                Some(Compilation(c.prog + [0x2100, auto], c.ctrl + [auto], NoTail, c.words))
  {
    One(compile, c, LoopToken(down));
  }

  lemma ThenStep(compile: (Compilation, Token) -> Option<Compilation>, c: Compilation, p: seq<Word>, kind: nat,
                 ws: seq<Word>, ctrl: seq<Word>)
    requires Compiles(compile) && kind < 16 && |p| < 0x1000
    requires c.prog == p + [Branch(kind, |p|)] + ws && c.ctrl == ctrl + [Branch(kind, |p|)]
    ensures Process(compile, c, [ThenToken]) ==
              Some(Compilation(p + [Branch(kind, |p| + 1 + |ws|)] + ws, ctrl, NoTail, c.words))
  {
    One(compile, c, ThenToken);
    TopOf(ctrl, Branch(kind, |p|));
    Branches(kind, |p|, |c.prog|);
    PatchMiddle(p, Branch(kind, |p|), ws, Branch(kind, |c.prog|));
  }

  lemma ElseStep(compile: (Compilation, Token) -> Option<Compilation>, c: Compilation, p: seq<Word>, ws: seq<Word>,
                 ctrl: seq<Word>)
    requires Compiles(compile) && |p| < 0x1000
    requires c.prog == p + [Branch(9, |p|)] + ws && c.ctrl == ctrl + [Branch(9, |p|)]
    ensures var mid := |p| + 1 + |ws|;
            Process(compile, c, [ElseToken])
            == Some(Compilation(p + [Branch(9, mid + 1)] + ws + [Branch(8, mid)], ctrl + [Branch(8, mid)],
                                NoTail, c.words))
  {
    One(compile, c, ElseToken);
    TopOf(ctrl, Branch(9, |p|));
    Branches(9, |p|, 0);
    PatchMiddle(p, Branch(9, |p|), ws, Branch(9, |c.prog| + 1));
  }

  /** UNTIL, and AGAIN of an infinite loop. */
  lemma BackStep(compile: (Compilation, Token) -> Option<Compilation>, c: Compilation, until: bool, a: nat,
                 ctrl: seq<Word>)
    requires Compiles(compile) && a < 0x1000 && c.ctrl == ctrl + [Branch(8, a)]
    ensures Process(compile, c, [if until then UntilToken else AgainToken])
         == Some(Compilation(c.prog + [Branch(if until then 9 else 8, a)], ctrl, NoTail, c.words))
  {
    One(compile, c, if until then UntilToken else AgainToken);
    TopOf(ctrl, Branch(8, a));
    Branches(8, a, 0);
  }

  lemma WhileStep(compile: (Compilation, Token) -> Option<Compilation>, c: Compilation, a: nat, ctrl: seq<Word>)
    requires Compiles(compile) && a < 0x1000 && c.ctrl == ctrl + [Branch(8, a)]
    ensures Process(compile, c, [WhileToken])
         == Some(Compilation(c.prog + [Branch(9, a)], ctrl + [Branch(9, |c.prog|)], NoTail, c.words))
  {
    One(compile, c, WhileToken);
    TopOf(ctrl, Branch(8, a));
    Branches(8, a, 0);
  }

  /** REPEAT finds the start of the loop in the placeholder of WHILE. */
  lemma RepeatStep(compile: (Compilation, Token) -> Option<Compilation>, c: Compilation, p: seq<Word>, a: nat,
                   ws: seq<Word>, ctrl: seq<Word>)
    requires Compiles(compile) && a < 0x1000 && |p| < 0x1000
    requires c.prog == p + [Branch(9, a)] + ws && c.ctrl == ctrl + [Branch(9, |p|)]
    ensures Process(compile, c, [RepeatToken])
         == Some(Compilation(p + [Branch(9, |p| + |ws| + 2)] + ws + [Branch(8, a)], ctrl, NoTail, c.words))
  {
    One(compile, c, RepeatToken);
    TopOf(ctrl, Branch(9, |p|));
    Branches(9, |p|, 0);
    Branches(9, a, 0);
    Associates(p + [Branch(9, a)], ws, [Branch(8, a)]);
    PatchMiddle(p, Branch(9, a), ws + [Branch(8, a)], Branch(9, |c.prog| + 1));
    Associates(p + [Branch(9, |c.prog| + 1)], ws, [Branch(8, a)]);
  }

  lemma CountStep(compile: (Compilation, Token) -> Option<Compilation>, c: Compilation, p: seq<Word>, kind: nat,
                  ws: seq<Word>, ctrl: seq<Word>)
    requires Compiles(compile) && (kind == 10 || kind == 11) && |p| < 0x1000
    requires c.prog == p + [Branch(kind, |p|)] + ws && c.ctrl == ctrl + [Branch(kind, |p|)]
    ensures Process(compile, c, [AgainToken])
         == Some(Compilation(p + [Branch(8, |p| + 1 + |ws|)] + ws + [Branch(kind, |p| + 1)], ctrl, NoTail, c.words))
  {
    One(compile, c, AgainToken);
    TopOf(ctrl, Branch(kind, |p|));
    Branches(kind, |p|, |p| + 1);
    PatchMiddle(p, Branch(kind, |p|), ws, Branch(8, |c.prog|));
  }

  // ----- Bodies -----

  predicate Named(name: string) { true }

  /** The dictionary holds the calls of the entries. */
  ghost predicate Agrees(words: map<string, Word>, defs: seq<Definition>) {
    forall name {:trigger Named(name)} :: Named(name) && name in words ==> words[name] == Branch(12, Entry(defs, name))
  }

  predicate LegalHere(b: Body, c: Compilation) { Legal(b, c.words.Keys, IsAuto(Top(c.ctrl)), AnyAuto(c.ctrl)) }

  predicate LegalItemHere(item: Item, c: Compilation) {
    LegalItem(item, c.words.Keys, IsAuto(Top(c.ctrl)), AnyAuto(c.ctrl))
  }

  /** Tokens, whether they are legal, the words they add, and the kind of the last of these. */
  datatype Compiled = Compiled(ts: seq<Token>, legal: bool, ws: seq<Word>, tail: Tail)

  function Expected(c: Compilation, r: Compiled): Option<Compilation> {
    if r.legal then Some(Emit(c, r.ws, r.tail)) else None
  }

  predicate Ask(b: Body) { true }
  predicate AskItem(item: Item) { true }

  /** What a body is to be compiled to, known only where a proof asks. */
  ghost predicate IsResult(defs: seq<Definition>, b: Body, c: Compilation, code: seq<Instr>, r: Compiled) {
    forall k {:trigger Ask(k)} :: Ask(k) && k == b ==>
      r == Compiled(Tokens(k), LegalHere(k, c), Words(defs, code), TailAfter(k, c.tail))
  }

  ghost predicate IsItemResult(defs: seq<Definition>, item: Item, c: Compilation, code: seq<Instr>, r: Compiled) {
    forall k {:trigger AskItem(k)} :: AskItem(k) && k == item ==>
      r == Compiled(ItemTokens(k), LegalItemHere(k, c), Words(defs, code), ItemTail(k))
  }

  /** A `;` to come has no word to join. */
  predicate Unjoined(b: Body, tail: Tail) { b.Seq? && b.item.Return? ==> tail == NoTail || tail == DataTail }

  lemma WordsSum(defs: seq<Definition>, x: seq<Instr>, y: seq<Instr>)
    ensures Words(defs, x + y) == Words(defs, x) + Words(defs, y)
  {
  }

  lemma WordsOne(defs: seq<Definition>, i: Instr)
    ensures Words(defs, [i]) == [Assemble(defs, i)]
  {
  }

  lemma EmitTwice(c: Compilation, x: seq<Word>, y: seq<Word>, tail: Tail, tail1: Tail)
    ensures Emit(Emit(c, x, tail), y, tail1) == Emit(c, x + y, tail1)
  {
    Associates(c.prog, x, y);
  }

  lemma AutoPush(ctrl: seq<Word>, w: Word)
    ensures AnyAuto(ctrl + [w]) <==> AnyAuto(ctrl) || IsAuto(w)
    ensures Top(ctrl + [w]) == w
  {
    if AnyAuto(ctrl) {
      var i :| 0 <= i < |ctrl| && IsAuto(ctrl[i]);
      assert IsAuto((ctrl + [w])[i]);
    }
    if IsAuto(w) { assert IsAuto((ctrl + [w])[|ctrl|]); }
  }

  /** Inside a control structure. */
  lemma LegalInside(b: Body, c: Compilation, c1: Compilation, kind: nat, a: nat)
    requires kind < 16 && c1.ctrl == c.ctrl + [Branch(kind, a)] && c1.words == c.words
    ensures var auto := kind == 10 || kind == 11;
            LegalHere(b, c1) == Legal(b, c.words.Keys, auto, auto || AnyAuto(c.ctrl))
  {
    BranchKind(kind, a);
    AutoPush(c.ctrl, Branch(kind, a));
  }

  /** Every well-nested body is compiled to its code if it is legal, and refused if it is not. */
  lemma {:induction false} BodyCompiles(compile: (Compilation, Token) -> Option<Compilation>, defs: seq<Definition>,
                                        b: Body, c: Compilation, code: seq<Instr>)
    returns (r: Compiled)
    requires Compiles(compile) && Agrees(c.words, defs) && IsCode(b, |c.prog|, code) && |c.prog| + |code| <= 0x1000
    requires Nested(b) && Unjoined(b, c.tail)
    ensures IsResult(defs, b, c, code, r) && Process(compile, c, r.ts) == Expected(c, r) && |r.ws| == |code|
    decreases b, 1
  {
    if b == End {
      EndCode(|c.prog|, code);
      r := Compiled([], true, [], c.tail);
      assert c.prog + [] == c.prog;
    } else if Fuses(b) {
      r := FusedCompiles(compile, defs, b, c, code);
    } else {
      var first, rest := SeqCode(b, |c.prog|, code);
      var r1 := ItemCompiles(compile, defs, b.item, c, first);
      var c1 := Emit(c, r1.ws, r1.tail);
      TailUnjoined(defs, b, c, first, r1);
      var r2 := BodyCompiles(compile, defs, b.rest, c1, rest);
      ProcessAppend(compile, c, r1.ts, r2.ts);
      EmitTwice(c, r1.ws, r2.ws, r1.tail, r2.tail);
      r := Compiled(r1.ts + r2.ts, r1.legal && r2.legal, r1.ws + r2.ws, r2.tail);
      SeqResult(defs, b, c, c1, first, rest, r1, r2);
    }
  }

  lemma TailUnjoined(defs: seq<Definition>, b: Body, c: Compilation, first: seq<Instr>, r1: Compiled)
    requires Nested(b) && b.Seq? && !Fuses(b) && IsItemResult(defs, b.item, c, first, r1)
    ensures Nested(b.rest) && NestedItem(b.item) && Unjoined(b.rest, r1.tail)
  {
    assert AskItem(b.item);
  }

  lemma SeqResult(defs: seq<Definition>, b: Body, c: Compilation, c1: Compilation, first: seq<Instr>,
                  rest: seq<Instr>, r1: Compiled, r2: Compiled)
    requires b.Seq? && !Fuses(b) && c1 == Emit(c, r1.ws, r1.tail)
    requires IsItemResult(defs, b.item, c, first, r1) && IsResult(defs, b.rest, c1, rest, r2)
    ensures IsResult(defs, b, c, first + rest, Compiled(r1.ts + r2.ts, r1.legal && r2.legal, r1.ws + r2.ws, r2.tail))
  {
    assert AskItem(b.item) && Ask(b.rest);
    WordsSum(defs, first, rest);
  }

  lemma JoinedExit(p: Prim)
    requires Joins(p)
    ensures Opcode(p) < 0x1000 && WithExit(Opcode(p)) == Fused(p, true)
  {
    OpcodeEncodes(p);
  }

  lemma JoinedCall(a: nat)
    ensures CallToJump(Branch(12, a)) == Branch(8, a)
  {
    assert Branch(12, a) / 0x4000 == 3;
  }

  function Joined(item: Item): Instr
    requires Fusible(item)
  {
    if item.Call? then JumpTo(item.name) else Op(item.prim, true)
  }

  /** `;` after a word it joins: the word is patched, not followed. */
  lemma JoinStep(compile: (Compilation, Token) -> Option<Compilation>, defs: seq<Definition>, item: Item,
                 c: Compilation)
    requires Compiles(compile) && Agrees(c.words, defs) && Fusible(item)
    ensures Process(compile, c, ItemTokens(item) + [SemicolonToken]) ==
            Expected(c,
                     Compiled([], LegalItemHere(item, c) && !AnyAuto(c.ctrl), [Assemble(defs, Joined(item))], NoTail))
  {
    ProcessAppend(compile, c, ItemTokens(item), [SemicolonToken]);
    if item.Primitive? {
      JoinedExit(item.prim);
      One(compile, c, PrimToken(item.prim));
      SemicolonStep(compile, c, Opcode(item.prim), EvalTail);
    } else {
      assert Named(item.name);
      One(compile, c, NameToken(item.name));
      JoinedCall(Entry(defs, item.name));
      if item.name in c.words { SemicolonStep(compile, c, c.words[item.name], CallTail); }
    }
  }

  lemma SemicolonStep(compile: (Compilation, Token) -> Option<Compilation>, c: Compilation, w: Word, tail: Tail)
    requires Compiles(compile) && (tail == EvalTail || tail == CallTail)
    ensures Process(compile, Emit(c, [w], tail), [SemicolonToken]) ==
            Expected(c,
                     Compiled([], !AnyAuto(c.ctrl), [if tail == EvalTail then WithExit(w) else CallToJump(w)], NoTail))
  {
    var c1 := Emit(c, [w], tail);
    One(compile, c1, SemicolonToken);
    assert forall x: Word :: c1.prog[|c1.prog| - 1 := x] == c.prog + [x];
  }

  lemma {:induction false} FusedCompiles(compile: (Compilation, Token) -> Option<Compilation>, defs: seq<Definition>,
                                         b: Body, c: Compilation, code: seq<Instr>)
    returns (r: Compiled)
    requires Compiles(compile) && Agrees(c.words, defs) && IsCode(b, |c.prog|, code) && |c.prog| + |code| <= 0x1000
    requires Nested(b) && Fuses(b)
    ensures IsResult(defs, b, c, code, r) && Process(compile, c, r.ts) == Expected(c, r) && |r.ws| == |code|
    decreases b, 0
  {
    var w := Assemble(defs, Joined(b.item));
    var rest := FusedCode(b, |c.prog|, code);
    var c1, ts := Emit(c, [w], NoTail), ItemTokens(b.item) + [SemicolonToken];
    JoinStep(compile, defs, b.item, c);
    FusedNested(b);
    var r1 := BodyCompiles(compile, defs, b.rest.rest, c1, rest);
    ProcessAppend(compile, c, ts, r1.ts);
    EmitTwice(c, [w], r1.ws, NoTail, r1.tail);
    r := Compiled(ts + r1.ts, LegalItemHere(b.item, c) && !AnyAuto(c.ctrl) && r1.legal, [w] + r1.ws, r1.tail);
    FusedResult(defs, b, c, c1, rest, r1, r);
  }

  lemma FusedNested(b: Body)
    requires Nested(b) && Fuses(b)
    ensures Nested(b.rest.rest)
  {
  }

  lemma FusedResult(defs: seq<Definition>, b: Body, c: Compilation, c1: Compilation, rest: seq<Instr>, r1: Compiled,
                    r: Compiled)
    requires Fuses(b) && c1 == Emit(c, [Assemble(defs, Joined(b.item))], NoTail)
    requires IsResult(defs, b.rest.rest, c1, rest, r1)
    requires r ==
             Compiled(ItemTokens(b.item) + [SemicolonToken] + r1.ts,
                      LegalItemHere(b.item, c) && !AnyAuto(c.ctrl) && r1.legal,
                         [Assemble(defs, Joined(b.item))] + r1.ws, r1.tail)
    ensures IsResult(defs, b, c, [Joined(b.item)] + rest, r)
  {
    assert Ask(b.rest.rest);
    assert Tokens(b.rest) == [SemicolonToken] + Tokens(b.rest.rest);
    assert Legal(b.rest, c.words.Keys, IsAuto(Top(c.ctrl)), AnyAuto(c.ctrl)) == (!AnyAuto(c.ctrl) && r1.legal);
    Associates(ItemTokens(b.item), [SemicolonToken], Tokens(b.rest.rest));
    WordsSum(defs, [Joined(b.item)], rest);
    WordsOne(defs, Joined(b.item));
  }

  lemma {:induction false} ItemCompiles(compile: (Compilation, Token) -> Option<Compilation>, defs: seq<Definition>,
                                        item: Item, c: Compilation, code: seq<Instr>)
    returns (r: Compiled)
    requires Compiles(compile) && Agrees(c.words, defs) && IsItemCode(item, |c.prog|, code)
    requires |c.prog| + |code| <= 0x1000
    requires NestedItem(item) && (item.Return? ==> c.tail == NoTail || c.tail == DataTail)
    ensures IsItemResult(defs, item, c, code, r) && Process(compile, c, r.ts) == Expected(c, r) && |r.ws| == |code|
    decreases item, 2
  {
    match item
    case Skip(_) => r := SkipCompiles(compile, defs, item, c, code);
    case If(_) => r := IfCompiles(compile, defs, item, c, code);
    case IfElse(_, _) => r := IfElseCompiles(compile, defs, item, c, code);
    case Until(_) => r := BackCompiles(compile, defs, item, c, code);
    case Forever(_) => r := BackCompiles(compile, defs, item, c, code);
    case While(_, _) => r := WhileCompiles(compile, defs, item, c, code);
    case Count(_, _) => r := CountCompiles(compile, defs, item, c, code);
    case _ => r := SimpleCompiles(compile, defs, item, c, code);
  }

  lemma SimpleCompiles(compile: (Compilation, Token) -> Option<Compilation>, defs: seq<Definition>, item: Item,
                       c: Compilation, code: seq<Instr>)
    returns (r: Compiled)
    requires Compiles(compile) && Agrees(c.words, defs) && IsItemCode(item, |c.prog|, code)
    requires (OneWord(item) || item.Number?) && (item.Return? ==> c.tail == NoTail || c.tail == DataTail)
    ensures IsItemResult(defs, item, c, code, r) && Process(compile, c, r.ts) == Expected(c, r) && |r.ws| == |code|
  {
    SimpleCode(item, |c.prog|, code);
    One(compile, c, ItemTokens(item)[0]);
    WordsOne(defs, code[0]);
    if item.Primitive? { JoinsByOpcode(item.prim); }
    if item.Call? { assert Named(item.name); }
    if item.Number? { assert Words(defs, code) == [Assemble(defs, Literal), Assemble(defs, Datum(item.n))]; }
    r := Compiled(ItemTokens(item), LegalItemHere(item, c), Words(defs, code), ItemTail(item));
  }

  lemma SkipCompiles(compile: (Compilation, Token) -> Option<Compilation>, defs: seq<Definition>, item: Item,
                     c: Compilation, code: seq<Instr>)
    returns (r: Compiled)
    requires Compiles(compile) && Agrees(c.words, defs) && IsItemCode(item, |c.prog|, code) && item.Skip?
    requires OneWord(item.word)
    ensures IsItemResult(defs, item, c, code, r) && Process(compile, c, r.ts) == Expected(c, r) && |r.ws| == |code|
  {
    var word := SkipCode(item, |c.prog|, code);
    var jump := Jump(9, |c.prog| + 2);
    var w := Assemble(defs, jump);
    var c1 := Emit(c, [w], NoTail);
    One(compile, c, SkzToken);
    var r1 := SimpleCompiles(compile, defs, item.word, c1, word);
    ProcessAppend(compile, c, [SkzToken], r1.ts);
    EmitTwice(c, [w], r1.ws, NoTail, r1.tail);
    r := Compiled([SkzToken] + r1.ts, r1.legal, [w] + r1.ws, r1.tail);
    assert AskItem(item.word);
    WordsSum(defs, [jump], word);
    WordsOne(defs, jump);
  }

  /** A body between the tokens of a control structure. */
  lemma Around(compile: (Compilation, Token) -> Option<Compilation>, c: Compilation, first: Token, c1: Compilation,
               r: Compiled, ts: seq<Token>)
    requires Process(compile, c, [first]) == Some(c1) && Process(compile, c1, r.ts) == Expected(c1, r)
    ensures Process(compile, c, [first] + (r.ts + ts)) ==
              if r.legal then Process(compile, Emit(c1, r.ws, r.tail), ts) else None
  {
    ProcessAppend(compile, c, [first], r.ts + ts);
    ProcessAppend(compile, c1, r.ts, ts);
  }

  lemma {:induction false} IfCompiles(compile: (Compilation, Token) -> Option<Compilation>, defs: seq<Definition>,
                                      item: Item, c: Compilation, code: seq<Instr>)
    returns (r: Compiled)
    requires Compiles(compile) && Agrees(c.words, defs) && IsItemCode(item, |c.prog|, code)
    requires |c.prog| + |code| <= 0x1000
    requires item.If? && NestedItem(item)
    ensures IsItemResult(defs, item, c, code, r) && Process(compile, c, r.ts) == Expected(c, r) && |r.ws| == |code|
    decreases item, 0
  {
    var p, a := c.prog, |c.prog|;
    var yes := IfCode(item, a, code);
    var c1 := Compilation(p + [Branch(9, a)], c.ctrl + [Branch(9, a)], NoTail, c.words);
    IfStep(compile, c);
    var r1 := BodyCompiles(compile, defs, item.yes, c1, yes);
    Around(compile, c, IfToken, c1, r1, [ThenToken]);
    ThenStep(compile, Emit(c1, r1.ws, r1.tail), p, 9, r1.ws, c.ctrl);
    var w := Branch(9, a + 1 + |yes|);
    Associates(p, [w], r1.ws);
    r := Compiled([IfToken] + (r1.ts + [ThenToken]), r1.legal, [w] + r1.ws, NoTail);
    IfResult(defs, item, c, c1, yes, r1, r);
  }

  lemma IfResult(defs: seq<Definition>, item: Item, c: Compilation, c1: Compilation, yes: seq<Instr>, r1: Compiled,
                 r: Compiled)
    requires item.If? && IsResult(defs, item.yes, c1, yes, r1) && c1.ctrl == c.ctrl + [Branch(9, |c.prog|)]
    requires c1.words == c.words
    requires r ==
             Compiled([IfToken] + (r1.ts + [ThenToken]), r1.legal, [Branch(9, |c.prog| + 1 + |yes|)] + r1.ws, NoTail)
    ensures IsItemResult(defs, item, c, [Jump(9, |c.prog| + 1 + |yes|)] + yes, r)
  {
    assert Ask(item.yes);
    LegalInside(item.yes, c, c1, 9, |c.prog|);
    WordsSum(defs, [Jump(9, |c.prog| + 1 + |yes|)], yes);
    WordsOne(defs, Jump(9, |c.prog| + 1 + |yes|));
  }

  lemma {:induction false} IfElseCompiles(compile: (Compilation, Token) -> Option<Compilation>, defs: seq<Definition>,
                                          item: Item, c: Compilation, code: seq<Instr>)
    returns (r: Compiled)
    requires Compiles(compile) && Agrees(c.words, defs) && IsItemCode(item, |c.prog|, code)
    requires |c.prog| + |code| <= 0x1000
    requires item.IfElse? && NestedItem(item)
    ensures IsItemResult(defs, item, c, code, r) && Process(compile, c, r.ts) == Expected(c, r) && |r.ws| == |code|
    decreases item, 1
  {
    var yes, no := IfElseParts(item, |c.prog|, code);
    r := BothCompile(compile, defs, item, c, yes, no);
  }

  lemma {:induction false} BothCompile(compile: (Compilation, Token) -> Option<Compilation>, defs: seq<Definition>,
                                       item: Item, c: Compilation, yes: seq<Instr>, no: seq<Instr>)
    returns (r: Compiled)
    requires Compiles(compile) && Agrees(c.words, defs) && item.IfElse? && Nested(item.yes) && Nested(item.no)
    requires IsCode(item.yes, |c.prog| + 1, yes) && IsCode(item.no, |c.prog| + 2 + |yes|, no)
    requires |c.prog| + |yes| + |no| + 2 <= 0x1000
    ensures IsItemResult(defs, item, c,
                         [Jump(9, |c.prog| + 2 + |yes|)] + yes + [Jump(8, |c.prog| + 2 + |yes| + |no|)] + no, r)
    ensures Process(compile, c, r.ts) == Expected(c, r) && |r.ws| == |yes| + |no| + 2
    decreases item, 0
  {
    var p, a := c.prog, |c.prog|;
    var mid := a + 1 + |yes|;
    var c1 := Compilation(p + [Branch(9, a)], c.ctrl + [Branch(9, a)], NoTail, c.words);
    IfStep(compile, c);
    var r1 := BodyCompiles(compile, defs, item.yes, c1, yes);
    var c2 := Emit(c1, r1.ws, r1.tail);
    var r2, c3 := ElseCompiles(compile, defs, item.no, c, c2, r1.ws, no, mid + 1);
    Around(compile, c, IfToken, c1, r1, [ElseToken] + (r2.ts + [ThenToken]));
    r := IfElseResult(defs, item, c, c1, c3, yes, no, r1, r2);
    FourWords(c, [Branch(9, mid + 1)], r1.ws, [Branch(8, mid + 1 + |no|)], r2.ws);
  }

  /** From ELSE on. */
  lemma {:induction false} ElseCompiles(compile: (Compilation, Token) -> Option<Compilation>, defs: seq<Definition>,
                                        b: Body, c: Compilation, c2: Compilation, ws: seq<Word>, no: seq<Instr>,
                                        other: nat)
    returns (r: Compiled, c3: Compilation)
    requires Compiles(compile) && Agrees(c.words, defs) && Nested(b) && other == |c.prog| + 2 + |ws|
    requires IsCode(b, other, no) && other + |no| <= 0x1000
    requires c2.prog == c.prog + [Branch(9, |c.prog|)] + ws && c2.ctrl == c.ctrl + [Branch(9, |c.prog|)]
    requires c2.words == c.words
    ensures c3.ctrl == c.ctrl + [Branch(8, other - 1)] && c3.words == c.words
    ensures IsResult(defs, b, c3, no, r) && |r.ws| == |no|
    ensures Process(compile, c2, [ElseToken] + (r.ts + [ThenToken])) ==
            if r.legal
            then Some(Compilation(c.prog + [Branch(9, other)] + ws + [Branch(8, other + |no|)] + r.ws, c.ctrl,
                                  NoTail, c.words))
            else None
    decreases b, 2
  {
    var mid := |c.prog| + 1 + |ws|;
    var p := c.prog + [Branch(9, mid + 1)] + ws;
    c3 := Compilation(p + [Branch(8, mid)], c.ctrl + [Branch(8, mid)], NoTail, c.words);
    ElseStep(compile, c2, c.prog, ws, c.ctrl);
    r := BodyCompiles(compile, defs, b, c3, no);
    Around(compile, c2, ElseToken, c3, r, [ThenToken]);
    ThenStep(compile, Emit(c3, r.ws, r.tail), p, 8, r.ws, c.ctrl);
  }

  lemma FourWords(c: Compilation, v: seq<Word>, w: seq<Word>, x: seq<Word>, y: seq<Word>)
    ensures Some(Compilation(c.prog + v + w + x + y, c.ctrl, NoTail, c.words)) == Some(Emit(c, v + w + x + y, NoTail))
  {
    assert c.prog + v + w + x + y == c.prog + (v + w + x + y);
  }

  lemma IfElseResult(defs: seq<Definition>, item: Item, c: Compilation, c1: Compilation, c3: Compilation,
                     yes: seq<Instr>, no: seq<Instr>, r1: Compiled, r2: Compiled)
    returns (r: Compiled)
    requires item.IfElse? && IsResult(defs, item.yes, c1, yes, r1) && IsResult(defs, item.no, c3, no, r2)
    requires c1.ctrl == c.ctrl + [Branch(9, |c.prog|)] && c1.words == c.words
    requires c3.ctrl == c.ctrl + [Branch(8, |c.prog| + 1 + |yes|)] && c3.words == c.words
    ensures var other := |c.prog| + 2 + |yes|;
            && r == Compiled([IfToken] + (r1.ts + ([ElseToken] + (r2.ts + [ThenToken]))), r1.legal && r2.legal,
                           [Branch(9, other)] + r1.ws + [Branch(8, other + |no|)] + r2.ws, NoTail)
            && IsItemResult(defs, item, c, [Jump(9, other)] + yes + [Jump(8, other + |no|)] + no, r)
  {
    var other := |c.prog| + 2 + |yes|;
    assert Ask(item.yes) && Ask(item.no);
    LegalInside(item.yes, c, c1, 9, |c.prog|);
    LegalInside(item.no, c, c3, 8, other - 1);
    WordsFour(defs, [Jump(9, other)], yes, [Jump(8, other + |no|)], no);
    WordsOne(defs, Jump(9, other));
    WordsOne(defs, Jump(8, other + |no|));
    r := Compiled([IfToken] + (r1.ts + ([ElseToken] + (r2.ts + [ThenToken]))), r1.legal && r2.legal,
                [Branch(9, other)] + r1.ws + [Branch(8, other + |no|)] + r2.ws, NoTail);
  }

  lemma WordsFour(defs: seq<Definition>, w: seq<Instr>, x: seq<Instr>, y: seq<Instr>, z: seq<Instr>)
    ensures Words(defs, w + x + y + z) == Words(defs, w) + Words(defs, x) + Words(defs, y) + Words(defs, z)
  {
    WordsSum(defs, w, x);
    WordsSum(defs, w + x, y);
    WordsSum(defs, w + x + y, z);
  }

  lemma {:induction false} BackCompiles(compile: (Compilation, Token) -> Option<Compilation>, defs: seq<Definition>,
                                        item: Item, c: Compilation, code: seq<Instr>)
    returns (r: Compiled)
    requires Compiles(compile) && Agrees(c.words, defs) && IsItemCode(item, |c.prog|, code)
    requires |c.prog| + |code| <= 0x1000
    requires (item.Until? || item.Forever?) && NestedItem(item)
    ensures IsItemResult(defs, item, c, code, r) && Process(compile, c, r.ts) == Expected(c, r) && |r.ws| == |code|
    decreases item, 0
  {
    var a := |c.prog|;
    var body := LoopCode(item, a, code);
    var c1 := Compilation(c.prog, c.ctrl + [Branch(8, a)], NoTail, c.words);
    var last, w := if item.Until? then UntilToken else AgainToken, Branch(if item.Until? then 9 else 8, a);
    BeginStep(compile, c);
    var r1 := BodyCompiles(compile, defs, item.body, c1, body);
    Around(compile, c, BeginToken, c1, r1, [last]);
    BackStep(compile, Emit(c1, r1.ws, r1.tail), item.Until?, a, c.ctrl);
    Associates(c.prog, r1.ws, [w]);
    r := Compiled([BeginToken] + (r1.ts + [last]), r1.legal, r1.ws + [w], NoTail);
    BackResult(defs, item, c, c1, body, r1, r);
  }

  lemma BackResult(defs: seq<Definition>, item: Item, c: Compilation, c1: Compilation, body: seq<Instr>, r1: Compiled,
                   r: Compiled)
    requires (item.Until? || item.Forever?) && IsResult(defs, item.body, c1, body, r1)
    requires c1.ctrl == c.ctrl + [Branch(8, |c.prog|)] && c1.words == c.words
    requires r == Compiled([BeginToken] + (r1.ts + [if item.Until? then UntilToken else AgainToken]), r1.legal,
                         r1.ws + [Branch(if item.Until? then 9 else 8, |c.prog|)], NoTail)
    ensures IsItemResult(defs, item, c, body + [Jump(if item.Until? then 9 else 8, |c.prog|)], r)
  {
    assert Ask(item.body);
    LegalInside(item.body, c, c1, 8, |c.prog|);
    WordsSum(defs, body, [Jump(if item.Until? then 9 else 8, |c.prog|)]);
    WordsOne(defs, Jump(if item.Until? then 9 else 8, |c.prog|));
  }

  lemma {:induction false} WhileCompiles(compile: (Compilation, Token) -> Option<Compilation>, defs: seq<Definition>,
                                         item: Item, c: Compilation, code: seq<Instr>)
    returns (r: Compiled)
    requires Compiles(compile) && Agrees(c.words, defs) && IsItemCode(item, |c.prog|, code)
    requires |c.prog| + |code| <= 0x1000
    requires item.While? && NestedItem(item)
    ensures IsItemResult(defs, item, c, code, r) && Process(compile, c, r.ts) == Expected(c, r) && |r.ws| == |code|
    decreases item, 1
  {
    var test, body := WhileParts(item, |c.prog|, code);
    r := TestCompiles(compile, defs, item, c, test, body);
  }

  lemma {:induction false} TestCompiles(compile: (Compilation, Token) -> Option<Compilation>, defs: seq<Definition>,
                                        item: Item, c: Compilation, test: seq<Instr>, body: seq<Instr>)
    returns (r: Compiled)
    requires Compiles(compile) && Agrees(c.words, defs) && item.While? && Nested(item.test) && Nested(item.body)
    requires IsCode(item.test, |c.prog|, test) && IsCode(item.body, |c.prog| + |test| + 1, body)
    requires |c.prog| + |test| + |body| + 2 <= 0x1000
    ensures IsItemResult(defs, item, c,
                         test + [Jump(9, |c.prog| + |test| + |body| + 2)] + body + [Jump(8, |c.prog|)], r)
    ensures Process(compile, c, r.ts) == Expected(c, r) && |r.ws| == |test| + |body| + 2
    decreases item, 0
  {
    var a, mid := |c.prog|, |c.prog| + |test|;
    var c1 := Compilation(c.prog, c.ctrl + [Branch(8, a)], NoTail, c.words);
    BeginStep(compile, c);
    var r1 := BodyCompiles(compile, defs, item.test, c1, test);
    var c2 := Emit(c1, r1.ws, r1.tail);
    var r2, c3 := InsideCompiles(compile, defs, item.body, c, c2, body);
    Around(compile, c, BeginToken, c1, r1, [WhileToken] + (r2.ts + [RepeatToken]));
    r := WhileResult(defs, item, c, c1, c3, test, body, r1, r2);
    FourWords(c, r1.ws, [Branch(9, mid + |body| + 2)], r2.ws, [Branch(8, a)]);
  }

  /** From WHILE on. */
  lemma {:induction false} InsideCompiles(compile: (Compilation, Token) -> Option<Compilation>, defs: seq<Definition>,
                                          b: Body, c: Compilation, c2: Compilation, body: seq<Instr>)
    returns (r: Compiled, c3: Compilation)
    requires Compiles(compile) && Agrees(c.words, defs) && Nested(b) && |c.prog| <= |c2.prog|
    requires IsCode(b, |c2.prog| + 1, body) && |c2.prog| + 2 + |body| <= 0x1000
    requires c2.ctrl == c.ctrl + [Branch(8, |c.prog|)] && c2.words == c.words
    ensures c3.ctrl == c.ctrl + [Branch(9, |c2.prog|)] && c3.words == c.words
    ensures IsResult(defs, b, c3, body, r) && |r.ws| == |body|
    ensures var a, end := |c.prog|, |c2.prog| + |body| + 2;
            Process(compile, c2, [WhileToken] + (r.ts + [RepeatToken])) ==
            if r.legal
            then Some(Compilation(c2.prog + [Branch(9, end)] + r.ws + [Branch(8, a)], c.ctrl, NoTail, c.words))
            else None
    decreases b, 2
  {
    var a, p := |c.prog|, c2.prog;
    c3 := Compilation(p + [Branch(9, a)], c.ctrl + [Branch(9, |p|)], NoTail, c.words);
    WhileStep(compile, c2, a, c.ctrl);
    r := BodyCompiles(compile, defs, b, c3, body);
    Around(compile, c2, WhileToken, c3, r, [RepeatToken]);
    RepeatStep(compile, Emit(c3, r.ws, r.tail), p, a, r.ws, c.ctrl);
  }

  lemma WhileResult(defs: seq<Definition>, item: Item, c: Compilation, c1: Compilation, c3: Compilation,
                    test: seq<Instr>, body: seq<Instr>, r1: Compiled, r2: Compiled)
    returns (r: Compiled)
    requires item.While? && IsResult(defs, item.test, c1, test, r1) && IsResult(defs, item.body, c3, body, r2)
    requires c1.ctrl == c.ctrl + [Branch(8, |c.prog|)] && c1.words == c.words
    requires c3.ctrl == c.ctrl + [Branch(9, |c.prog| + |test|)] && c3.words == c.words
    ensures var a, end := |c.prog|, |c.prog| + |test| + |body| + 2;
            && r == Compiled([BeginToken] + (r1.ts + ([WhileToken] + (r2.ts + [RepeatToken]))), r1.legal && r2.legal,
                           r1.ws + [Branch(9, end)] + r2.ws + [Branch(8, a)], NoTail)
            && IsItemResult(defs, item, c, test + [Jump(9, end)] + body + [Jump(8, a)], r)
  {
    var a, end := |c.prog|, |c.prog| + |test| + |body| + 2;
    assert Ask(item.test) && Ask(item.body);
    LegalInside(item.test, c, c1, 8, a);
    LegalInside(item.body, c, c3, 9, a + |test|);
    WordsFour(defs, test, [Jump(9, end)], body, [Jump(8, a)]);
    WordsOne(defs, Jump(9, end));
    WordsOne(defs, Jump(8, a));
    r := Compiled([BeginToken] + (r1.ts + ([WhileToken] + (r2.ts + [RepeatToken]))), r1.legal && r2.legal,
                r1.ws + [Branch(9, end)] + r2.ws + [Branch(8, a)], NoTail);
  }

  lemma {:induction false} CountCompiles(compile: (Compilation, Token) -> Option<Compilation>, defs: seq<Definition>,
                                         item: Item, c: Compilation, code: seq<Instr>)
    returns (r: Compiled)
    requires Compiles(compile) && Agrees(c.words, defs) && IsItemCode(item, |c.prog|, code)
    requires |c.prog| + |code| <= 0x1000
    requires item.Count? && NestedItem(item)
    ensures IsItemResult(defs, item, c, code, r) && Process(compile, c, r.ts) == Expected(c, r) && |r.ws| == |code|
    decreases item, 0
  {
    var p, kind, a := c.prog + [0x2100], if item.down then 11 else 10, |c.prog|;
    var body := CountParts(item, a, code);
    var auto := Branch(kind, a + 1);
    var c1 := Compilation(p + [auto], c.ctrl + [auto], NoTail, c.words);
    LoopStep(compile, c, item.down);
    assert c.prog + [0x2100, auto] == p + [auto];
    var r1 := BodyCompiles(compile, defs, item.body, c1, body);
    Around(compile, c, LoopToken(item.down), c1, r1, [AgainToken]);
    CountStep(compile, Emit(c1, r1.ws, r1.tail), p, kind, r1.ws, c.ctrl);
    r := CountResult(defs, item, c, c1, kind, body, r1);
    FourWords(c, [0x2100], [Branch(8, a + 2 + |body|)], r1.ws, [Branch(kind, a + 2)]);
  }

  lemma CountResult(defs: seq<Definition>, item: Item, c: Compilation, c1: Compilation, kind: nat, body: seq<Instr>,
                    r1: Compiled)
    returns (r: Compiled)
    requires item.Count? && kind == (if item.down then 11 else 10) && IsResult(defs, item.body, c1, body, r1)
    requires c1.ctrl == c.ctrl + [Branch(kind, |c.prog| + 1)] && c1.words == c.words
    ensures var a := |c.prog|;
            && r == Compiled([LoopToken(item.down)] + (r1.ts + [AgainToken]), r1.legal,
                           [0x2100] + [Branch(8, a + 2 + |body|)] + r1.ws + [Branch(kind, a + 2)], NoTail)
            && IsItemResult(defs, item, c, [Op(ToR, false)] + [Jump(8, a + 2 + |body|)] + body + [Jump(kind, a + 2)], r)
  {
    var a := |c.prog|;
    assert Ask(item.body);
    LegalInside(item.body, c, c1, kind, a + 1);
    WordsFour(defs, [Op(ToR, false)], [Jump(8, a + 2 + |body|)], body, [Jump(kind, a + 2)]);
    WordsOne(defs, Op(ToR, false));
    WordsOne(defs, Jump(8, a + 2 + |body|));
    WordsOne(defs, Jump(kind, a + 2));
    r := Compiled([LoopToken(item.down)] + (r1.ts + [AgainToken]), r1.legal,
                [0x2100] + [Branch(8, a + 2 + |body|)] + r1.ws + [Branch(kind, a + 2)], NoTail);
  }

  // ----- Programs -----

  function DefinitionTokens(d: Definition): seq<Token> {
    match d
    case Define(name, body) => [ColonToken(name)] + Tokens(body)
    case DefineConstant(name, n) => [NumberToken(n), ConstantToken(name)]
    case DefineVariable(name) => [VariableToken(name)]
    case Allocate(n) => [NumberToken(n), CommaToken]
  }

  function ProgramTokens(defs: seq<Definition>, k: nat): seq<Token>
    requires k <= |defs|
  {
    if k == 0 then [] else ProgramTokens(defs, k - 1) + DefinitionTokens(defs[k - 1])
  }

  /** The dictionary after the first k definitions. */
  function Dictionary(defs: seq<Definition>, k: nat): map<string, Word>
    requires k <= |defs|
  {
    if k == 0 then map[]
    else if defs[k - 1].Allocate? then Dictionary(defs, k - 1)
    else Dictionary(defs, k - 1)[defs[k - 1].name := Branch(12, Start(defs, k - 1))]
  }

  /** Names are defined once; a word may call itself and the words before it. */
  predicate LegalDefinition(d: Definition, names: set<string>) {
    match d
    case Define(name, body) => name !in names && Legal(body, names + {name}, false, false)
    case DefineConstant(name, _) => name !in names
    case DefineVariable(name) => name !in names
    case Allocate(_) => true
  }

  predicate LegalTo(defs: seq<Definition>, k: nat)
    requires k <= |defs|
  {
    k == 0 || (LegalTo(defs, k - 1) && LegalDefinition(defs[k - 1], Dictionary(defs, k - 1).Keys))
  }

  predicate NestedProgram(defs: seq<Definition>) {
    forall d <- defs :: d.Define? ==> Nested(d.body)
  }

  lemma {:induction false} DictionaryNames(defs: seq<Definition>, k: nat, name: string)
    requires k <= |defs|
    ensures name in Dictionary(defs, k) <==> exists j :: 0 <= j < k && Names(defs[j], name)
  {
    if k > 0 {
      DictionaryNames(defs, k - 1, name);
      if Names(defs[k - 1], name) { assert name in Dictionary(defs, k); }
    }
  }

  lemma {:induction false} FindFirst(defs: seq<Definition>, name: string, i: nat, k: nat)
    requires i <= k < |defs| && Names(defs[k], name) && forall j :: i <= j < k ==> !Names(defs[j], name)
    ensures Find(defs, name, i) == Some(k)
    decreases k - i
  {
    if i < k { FindFirst(defs, name, i + 1, k); }
  }

  /** In a legal program every name in the dictionary is called at its entry. */
  lemma {:induction false} DictionaryAgrees(defs: seq<Definition>, k: nat)
    requires k <= |defs| && LegalTo(defs, k)
    ensures Agrees(Dictionary(defs, k), defs)
  {
    if k > 0 {
      DictionaryAgrees(defs, k - 1);
      if !defs[k - 1].Allocate? { NameAgrees(defs, k - 1, Dictionary(defs, k - 1)); }
    }
  }

  /** A fresh name can be added to the dictionary. */
  lemma NameAgrees(defs: seq<Definition>, k: nat, words: map<string, Word>)
    requires k < |defs| && words == Dictionary(defs, k) && Agrees(words, defs) && !defs[k].Allocate?
    requires defs[k].name !in words
    ensures Agrees(words[defs[k].name := Branch(12, Start(defs, k))], defs)
  {
    DictionaryNames(defs, k, defs[k].name);
    FindFirst(defs, defs[k].name, 0, k);
  }

  /** The state of the compiler after the first k definitions. */
  ghost predicate CompiledTo(defs: seq<Definition>, k: nat, c: Compilation)
    requires k <= |defs|
  {
    && c.prog == Words(defs, [LastWord(defs, k)] + CodeTo(defs, k)) && |c.prog| == Start(defs, k)
    && c.ctrl == [] && c.words == Dictionary(defs, k)
  }

  /** The image of some definitions, with the words of the next one. */
  lemma NextImage(defs: seq<Definition>, k: nat, prog: seq<Word>, part: seq<Instr>)
    requires k < |defs| && prog == Words(defs, [LastWord(defs, k)] + CodeTo(defs, k))
    requires part == DefinitionCode(defs[k], Start(defs, k))
    ensures Words(defs, [LastWord(defs, k + 1)] + CodeTo(defs, k + 1))
         == (if defs[k].Define? then Patch(prog, 0, Branch(12, Start(defs, k))) else prog) + Words(defs, part)
  {
    var code, w := CodeTo(defs, k), if defs[k].Define? then Jump(12, Start(defs, k)) else LastWord(defs, k);
    Associates([w], code, part);
    WordsSum(defs, [w] + code, part);
    WordsSum(defs, [w], code);
    WordsSum(defs, [LastWord(defs, k)], code);
    WordsOne(defs, w);
    WordsOne(defs, LastWord(defs, k));
    var ws, v, x := Words(defs, code), Assemble(defs, LastWord(defs, k)), Assemble(defs, w);
    assert ([v] + ws)[0 := x] == [x] + ws;
  }

  lemma DataCompiles(compile: (Compilation, Token) -> Option<Compilation>, c: Compilation, n: int, t: Token)
    requires Compiles(compile)
    ensures Process(compile, c, [NumberToken(n), t]) == Compile(Emit(c, [0x021F, Low16(n)], DataTail), t)
  {
    One(compile, c, NumberToken(n));
    One(compile, Emit(c, [0x021F, Low16(n)], DataTail), t);
    assert [NumberToken(n), t] == [NumberToken(n)] + [t];
    ProcessAppend(compile, c, [NumberToken(n)], [t]);
  }

  lemma ConstantCompiles(compile: (Compilation, Token) -> Option<Compilation>, c: Compilation, name: string, n: int)
    requires Compiles(compile)
    ensures Process(compile, c, [NumberToken(n), ConstantToken(name)]) ==
            if name in c.words then None
            else Some(Compilation(c.prog + [0x521F, Low16(n)], c.ctrl, NoTail, c.words[name := Branch(12, |c.prog|)]))
  {
    DataCompiles(compile, c, n, ConstantToken(name));
    var prog := c.prog + [0x021F, Low16(n)];
    assert prog[|prog| - 2 := 0x521F] == c.prog + [0x521F, Low16(n)];
  }

  lemma AllocateCompiles(compile: (Compilation, Token) -> Option<Compilation>, c: Compilation, n: int)
    requires Compiles(compile)
    ensures Process(compile, c, [NumberToken(n), CommaToken]) ==
              Some(Compilation(c.prog + [Low16(n)], c.ctrl, NoTail, c.words))
  {
    DataCompiles(compile, c, n, CommaToken);
    var prog := c.prog + [0x021F, Low16(n)];
    assert prog[..|prog| - 2] + [prog[|prog| - 1]] == c.prog + [Low16(n)];
  }

  lemma ColonCompiles(compile: (Compilation, Token) -> Option<Compilation>, defs: seq<Definition>, k: nat,
                      c: Compilation)
    requires Compiles(compile) && k < |defs| && defs[k].Define? && CompiledTo(defs, k, c) && LegalTo(defs, k)
    requires Nested(defs[k].body) && Start(defs, k + 1) <= 0x1000
    ensures var o := Process(compile, c, DefinitionTokens(defs[k]));
            && (LegalDefinition(defs[k], c.words.Keys) <==> o.Some?)
            && (o.Some? ==> CompiledTo(defs, k + 1, o.value))
  {
    var name, body, a := defs[k].name, defs[k].body, |c.prog|;
    One(compile, c, ColonToken(name));
    ProcessAppend(compile, c, [ColonToken(name)], Tokens(body));
    if name !in c.words {
      var c1 := Compilation(Patch(c.prog, 0, Branch(12, a)), [], NoTail, c.words[name := Branch(12, a)]);
      DictionaryAgrees(defs, k);
      NameAgrees(defs, k, c.words);
      var code := Code(body, a);
      var r := BodyCompiles(compile, defs, body, c1, code);
      assert Ask(body);
      assert c1.words.Keys == c.words.Keys + {name};
      NextImage(defs, k, c.prog, code);
    }
  }

  /** One definition. */
  lemma DefinitionCompiles(compile: (Compilation, Token) -> Option<Compilation>, defs: seq<Definition>, k: nat,
                           c: Compilation)
    requires Compiles(compile) && k < |defs| && CompiledTo(defs, k, c) && LegalTo(defs, k)
    requires (defs[k].Define? ==> Nested(defs[k].body)) && Start(defs, k + 1) <= 0x1000
    ensures var o := Process(compile, c, DefinitionTokens(defs[k]));
            && (LegalDefinition(defs[k], c.words.Keys) <==> o.Some?)
            && (o.Some? ==> CompiledTo(defs, k + 1, o.value))
  {
    var a := |c.prog|;
    if defs[k].Define? {
      ColonCompiles(compile, defs, k, c);
    } else {
      NextImage(defs, k, c.prog, DefinitionCode(defs[k], a));
      PartWords(defs, defs[k], a);
      match defs[k]
      case DefineConstant(name, n) => ConstantCompiles(compile, c, name, n);
      case DefineVariable(name) => One(compile, c, VariableToken(name));
      case Allocate(n) => AllocateCompiles(compile, c, n);
    }
  }

  lemma PartWords(defs: seq<Definition>, d: Definition, a: nat)
    requires !d.Define?
    ensures Words(defs, DefinitionCode(d, a))
         == match d
            case DefineConstant(_, n) => [0x521F, Low16(n)]
            case DefineVariable(_) => [0x521F, Low16(a + 2), 0]
            case Allocate(n) => [Low16(n)]
  {
  }

  predicate Check(k: nat) { true }

  /** Where the compiler has got to, known only where a proof checks it. */
  ghost predicate Built(defs: seq<Definition>, k: nat, o: Option<Compilation>) {
    forall n: nat {:trigger Check(n)} :: Check(n) && n == k && n <= |defs| ==>
      (LegalTo(defs, n) <==> o.Some?) && (o.Some? ==> CompiledTo(defs, n, o.value))
  }

  lemma BlankBuilt(defs: seq<Definition>)
    ensures Built(defs, 0, Some(Blank))
  {
    WordsOne(defs, LastWord(defs, 0));
    assert [LastWord(defs, 0)] + CodeTo(defs, 0) == [LastWord(defs, 0)];
  }

  lemma OpenBuilt(defs: seq<Definition>, k: nat, o: Option<Compilation>)
    requires k <= |defs| && Built(defs, k, o)
    ensures (LegalTo(defs, k) <==> o.Some?) && (o.Some? ==> CompiledTo(defs, k, o.value))
  {
    assert Check(k);
  }

  lemma CloseBuilt(defs: seq<Definition>, k: nat, o: Option<Compilation>)
    requires k <= |defs| && (LegalTo(defs, k) <==> o.Some?) && (o.Some? ==> CompiledTo(defs, k, o.value))
    ensures Built(defs, k, o)
  {
  }

  lemma DefinitionBuilt(compile: (Compilation, Token) -> Option<Compilation>, defs: seq<Definition>, k: nat,
                        c: Compilation)
    requires Compiles(compile) && k < |defs| && CompiledTo(defs, k, c) && LegalTo(defs, k)
    requires (defs[k].Define? ==> Nested(defs[k].body)) && Start(defs, k + 1) <= 0x1000
    ensures Built(defs, k + 1, Process(compile, c, DefinitionTokens(defs[k])))
  {
    DefinitionCompiles(compile, defs, k, c);
    CloseBuilt(defs, k + 1, Process(compile, c, DefinitionTokens(defs[k])));
  }

  lemma NextBuilt(compile: (Compilation, Token) -> Option<Compilation>, defs: seq<Definition>, k: nat,
                  o: Option<Compilation>)
    requires Compiles(compile) && k < |defs| && NestedProgram(defs) && Start(defs, k + 1) <= 0x1000 && Built(defs, k, o)
    ensures Built(defs, k + 1, After(compile, o, DefinitionTokens(defs[k])))
  {
    OpenBuilt(defs, k, o);
    assert defs[k] in defs;
    if o.Some? { DefinitionBuilt(compile, defs, k, o.value); } else { CloseBuilt(defs, k + 1, None); }
  }

  lemma NextProcessed(compile: (Compilation, Token) -> Option<Compilation>, defs: seq<Definition>, k: nat,
                      ts: seq<Token>, o: Option<Compilation>)
    requires Compiles(compile) && k < |defs| && NestedProgram(defs) && Start(defs, k + 1) <= 0x1000
    requires o == Process(compile, Blank, ts) && Built(defs, k, o)
    ensures Process(compile, Blank, ts + DefinitionTokens(defs[k])) == After(compile, o, DefinitionTokens(defs[k]))
    ensures Built(defs, k + 1, After(compile, o, DefinitionTokens(defs[k])))
  {
    ProcessAppend(compile, Blank, ts, DefinitionTokens(defs[k]));
    NextBuilt(compile, defs, k, o);
  }

  /**
   All definitions: the compiler refuses exactly the programs that are not legal, and gives the image of the others.
   */
  lemma {:induction false} ProgramCompiles(compile: (Compilation, Token) -> Option<Compilation>,
                                           defs: seq<Definition>, k: nat)
    returns (o: Option<Compilation>)
    requires Compiles(compile) && k <= |defs| && NestedProgram(defs) && Start(defs, |defs|) <= 0x1000
    ensures o == Process(compile, Blank, ProgramTokens(defs, k)) && Built(defs, k, o)
  {
    if k == 0 {
      BlankBuilt(defs);
      o := Some(Blank);
    } else {
      StartGrows(defs, k, |defs|);
      var o1 := ProgramCompiles(compile, defs, k - 1);
      NextProcessed(compile, defs, k - 1, ProgramTokens(defs, k - 1), o1);
      o := After(compile, o1, DefinitionTokens(defs[k - 1]));
    }
  }
}
