/**
 uCode source in its well-nested form: what a program means, without reference to
 addresses or jumps, and where its code is placed.
 */
module UCodeSource {
  import opened Prelude
  import opened UCodeCpu
  import opened UCodeWords

  datatype Body = End | Seq(item: Item, rest: Body)

  /** `Return` is the word `;`, `Exit` the word EXIT, `Skip` a word after SKZ, `Index` the word I. */
  datatype Item =
    | Primitive(prim: Prim)
    | Number(n: int)
    | Call(name: string)
    | Exit
    | Return
    | Index
    | Skip(word: Item)
    | If(yes: Body)
    | IfElse(yes: Body, no: Body)
    | Until(body: Body)
    | While(test: Body, body: Body)
    | Forever(body: Body)
    | Count(down: bool, body: Body)

  datatype Definition =
    | Define(name: string, body: Body)
    | DefineConstant(name: string, n: int)
    | DefineVariable(name: string)
    | Allocate(n: int)

  // ----- Placement -----

  /** A word that `;` can join: an evaluation word, or a call, which becomes a jump. */
  predicate Fusible(item: Item) {
    item.Call? || (item.Primitive? && Joins(item.prim))
  }

  predicate Fuses(b: Body) { b.Seq? && Fusible(b.item) && b.rest.Seq? && b.rest.item.Return? }

  function Size(b: Body): nat {
    match b
    case End => 0
    case Seq(item, rest) => if Fuses(b) then 1 + Size(rest.rest) else ItemSize(item) + Size(rest)
  }

  function ItemSize(item: Item): nat {
    match item
    case Number(_) => 2
    case Skip(word) => 1 + ItemSize(word)
    case If(yes) => 1 + Size(yes)
    case IfElse(yes, no) => 2 + Size(yes) + Size(no)
    case Until(body) => Size(body) + 1
    case While(test, body) => Size(test) + Size(body) + 2
    case Forever(body) => Size(body) + 1
    case Count(_, body) => Size(body) + 3
    case _ => 1
  }

  function DefinitionSize(d: Definition): nat {
    match d
    case Define(_, body) => Size(body)
    case DefineConstant(_, _) => 2
    case DefineVariable(_) => 3
    case Allocate(_) => 1
  }

  /** Where the code of a definition begins. Address 0 holds the call of the entry word. */
  function Start(defs: seq<Definition>, k: nat): (a: nat)
    requires k <= |defs|
    ensures a >= 1
  {
    if k == 0 then 1 else Start(defs, k - 1) + DefinitionSize(defs[k - 1])
  }

  predicate Names(d: Definition, name: string) { !d.Allocate? && d.name == name }

  function Find(defs: seq<Definition>, name: string, k: nat): (r: Option<nat>)
    requires k <= |defs|
    ensures r.Some? ==> k <= r.value < |defs| && Names(defs[r.value], name)
    decreases |defs| - k
  {
    if k == |defs| then None else if Names(defs[k], name) then Some(k) else Find(defs, name, k + 1)
  }

  function Entry(defs: seq<Definition>, name: string): nat {
    match Find(defs, name, 0) case None => 0 case Some(k) => Start(defs, k)
  }

  // ----- Code -----

  /** An instruction whose addresses are not yet words: jumps are by kind, calls by name. */
  datatype Instr =
    | Op(prim: Prim, exit: bool)
    | Literal
    | Constant
    | Datum(n: int)
    | Leave
    | Jump(kind: nat, target: nat)
    | JumpTo(name: string)
    | CallTo(name: string)

  function Branch(kind: nat, target: nat): Word { kind % 0x10 * 0x1000 + target % 0x1000 }

  function Assemble(defs: seq<Definition>, i: Instr): Word {
    match i
    case Op(p, exit) => if exit && Opcode(p) < 0x1000 then Fused(p, true) else Opcode(p)
    case Literal => 0x021F
    case Constant => 0x521F
    case Datum(n) => Low16(n)
    case Leave => 0x5000
    case Jump(kind, target) => Branch(kind, target)
    case JumpTo(name) => Branch(8, Entry(defs, name))
    case CallTo(name) => Branch(12, Entry(defs, name))
  }

  function Code(b: Body, a: nat): (code: seq<Instr>)
    ensures |code| == Size(b)
  {
    match b
    case End => []
    case Seq(item, rest) =>
      if Fuses(b) then
        [if item.Call? then JumpTo(item.name) else Op(item.prim, true)] + Code(rest.rest, a + 1)
      else
        var first := ItemCode(item, a);
        first + Code(rest, a + |first|)
  }

  function ItemCode(item: Item, a: nat): (code: seq<Instr>)
    ensures |code| == ItemSize(item)
  {
    match item
    case Primitive(p) => [Op(p, false)]
    case Number(n) => [Literal, Datum(n)]
    case Call(name) => [CallTo(name)]
    case Exit => [Instr.Leave]
    case Return => [Instr.Leave]
    case Index => [Op(RFetch, false)]
    case Skip(word) => [Jump(9, a + 2)] + ItemCode(word, a + 1)
    case If(yes) => IfThenCode(Code(yes, a + 1), a)
    case IfElse(yes, no) => (var code := Code(yes, a + 1); IfElseCode(code, Code(no, a + 2 + |code|), a))
    case Until(body) => BackCode(Code(body, a), 9, a)
    case While(test, body) => (var code := Code(test, a); WhileCode(code, Code(body, a + |code| + 1), a))
    case Forever(body) => BackCode(Code(body, a), 8, a)
    case Count(down, body) => CountCode(down, Code(body, a + 2), a)
  }

  function IfThenCode(yes: seq<Instr>, a: nat): (code: seq<Instr>)
    ensures |code| == |yes| + 1
  {
    [Jump(9, a + 1 + |yes|)] + yes
  }

  function BackCode(body: seq<Instr>, kind: nat, a: nat): (code: seq<Instr>)
    ensures |code| == |body| + 1
  {
    body + [Jump(kind, a)]
  }

  function IfElseCode(yes: seq<Instr>, no: seq<Instr>, a: nat): (code: seq<Instr>)
    ensures |code| == |yes| + |no| + 2
  {
    [Jump(9, a + 2 + |yes|)] + yes + [Jump(8, a + 2 + |yes| + |no|)] + no
  }

  function WhileCode(test: seq<Instr>, body: seq<Instr>, a: nat): (code: seq<Instr>)
    ensures |code| == |test| + |body| + 2
  {
    test + [Jump(9, a + |test| + |body| + 2)] + body + [Jump(8, a)]
  }

  /** The counter goes to the return stack; the loop is entered at its end, where the counter is tested. */
  function CountCode(down: bool, body: seq<Instr>, a: nat): (code: seq<Instr>)
    ensures |code| == |body| + 3
  {
    [Op(ToR, false)] + [Jump(8, a + 2 + |body|)] + body + [Jump(if down then 11 else 10, a + 2)]
  }

  function DefinitionCode(d: Definition, a: nat): (code: seq<Instr>)
    ensures |code| == DefinitionSize(d)
  {
    match d
    case Define(_, body) => Code(body, a)
    case DefineConstant(_, n) => [Constant, Datum(n)]
    case DefineVariable(_) => [Constant, Datum(a + 2), Datum(0)]
    case Allocate(n) => [Datum(n)]
  }

  /** The code of the first k definitions. */
  function CodeTo(defs: seq<Definition>, k: nat): (code: seq<Instr>)
    requires k <= |defs|
    ensures |code| + 1 == Start(defs, k)
  {
    if k == 0 then [] else CodeTo(defs, k - 1) + DefinitionCode(defs[k - 1], Start(defs, k - 1))
  }

  /** The last word of the program is its entry point. */
  function LastWord(defs: seq<Definition>, k: nat): Instr
    requires k <= |defs|
  {
    if k == 0 then Jump(8, 0)
    else if defs[k - 1].Define? then Jump(12, Start(defs, k - 1))
    else LastWord(defs, k - 1)
  }

  function Words(defs: seq<Definition>, code: seq<Instr>): (words: seq<Word>)
    ensures |words| == |code|
  {
    seq(|code|, i requires 0 <= i < |code| => Assemble(defs, code[i]))
  }

  function Image(defs: seq<Definition>): seq<Word> {
    Words(defs, [LastWord(defs, |defs|)] + CodeTo(defs, |defs|))
  }

  /** A program and its image. */
  datatype Unit = Unit(defs: seq<Definition>, code: seq<Word>)

  /** The data cell of a definition that has one. */
  function CellOf(defs: seq<Definition>, k: nat): Option<nat>
    requires k < |defs|
  {
    match defs[k]
    case DefineVariable(_) => Some(Start(defs, k) + 2)
    case Allocate(_) => Some(Start(defs, k))
    case _ => None
  }

  ghost predicate IsCell(defs: seq<Definition>, a: nat) {
    exists k :: 0 <= k < |defs| && CellOf(defs, k) == Some(a)
  }

  // ----- Meaning -----

  /** The data stack, the entries that a word has on the return stack, the data cells, and the rest of the world. */
  datatype State = State(d: Cells, r: seq<Word>, cells: map<Address, Word>, world: World)

  /**
   A word goes on, returns to its caller, or fails; runs out of fuel; or strays beyond what a
   well-behaved program may do: store into code, read outside the program, take the return
   address or more from the return stack, overfill it, or run into data.
   */
  datatype Outcome = Next(s: State) | Ret(s: State) | Failed | Stray | Timeout

  function Pop1(s: State): State { s.(d := Popped(s.d)) }
  function Push1(s: State, x: Word): State { s.(d := Pushed(s.d, x)) }

  function RunWord(code: seq<Word>, p: Prim, s: State, below: nat): Outcome {
    match p
    case Fetch(Program) =>
      var a: Address := s.d[0] % 0x1000;
      if a in s.cells then Next(s.(d := Pushed(Popped(s.d), s.cells[a])))
      else if a < |code| then Next(s.(d := Pushed(Popped(s.d), code[a])))
      else Stray
    case Store(Program) =>
      var a: Address := s.d[0] % 0x1000;
      if a in s.cells then Next(s.(d := Popped(Popped(s.d)), cells := s.cells[a := s.d[1]])) else Stray
    case Fetch(place) => Peripheral(s, place, false)
    case Store(place) => Peripheral(s, place, true)
    case ToR => if below + |s.r| < Depth then Next(s.(d := Popped(s.d), r := [s.d[0]] + s.r)) else Stray
    case RFrom => if s.r == [] then Stray else Next(Push1(s, s.r[0]).(r := s.r[1..]))
    case RFetch => if s.r == [] then Stray else Next(Push1(s, s.r[0]))
    case RDrop => if s.r == [] then Stray else Next(s.(r := s.r[1..]))
    case Reset => Stray
    case Fail => Failed
    case _ => (match StackMeaning(p, s.d) case Some(d) => Next(s.(d := d)) case None => Stray)
  }

  /** Colour markers, quads and devices. */
  function Peripheral(s: State, place: Place, write: bool): Outcome {
    match AccessMemory(Range(place), write, s.d[0], s.d[1], 0, map[], s.world)
    case BadAccess => Failed
    case Access(None, _, _) => Stray
    case Access(Some(x), _, world) =>
      Next(s.(d := if write then Popped(Popped(s.d)) else Pushed(Popped(s.d), x), world := world))
  }

  predicate OneWord(item: Item) { item.Primitive? || item.Call? || item.Exit? || item.Return? || item.Index? }

  function Returned(s: State): Outcome { if s.r == [] then Ret(s) else Stray }

  /** The rest of a body runs if what is before it goes on. */
  function RunBody(u: Unit, b: Body, s: State, below: nat, fuel: nat): Outcome
    decreases fuel, 0, b, 0
  {
    match b
    case End => Next(s)
    case Seq(item, rest) =>
      match RunItem(u, item, s, below, fuel)
      case Next(s1) => RunBody(u, rest, s1, below, fuel)
      case o => o
  }

  function RunItem(u: Unit, item: Item, s: State, below: nat, fuel: nat): Outcome
    decreases fuel, 0, item, 1
  {
    match item
    case Primitive(p) => RunWord(u.code, p, s, below)
    case Number(n) => Next(Push1(s, Low16(n)))
    case Exit => Returned(s)
    case Return => Returned(s)
    case Index => if s.r == [] then Stray else Next(Push1(s, s.r[0]))
    case Skip(word) =>
      if !OneWord(word) then Stray
      else if s.d[0] == 0 then Next(Pop1(s))
      else RunItem(u, word, Pop1(s), below, fuel)
    case If(yes) => if s.d[0] == 0 then Next(Pop1(s)) else RunBody(u, yes, Pop1(s), below, fuel)
    case IfElse(yes, no) => RunBody(u, if s.d[0] == 0 then no else yes, Pop1(s), below, fuel)
    case Until(_) => RunUntil(u, item, s, below, fuel)
    case While(_, _) => RunWhile(u, item, s, below, fuel)
    case Forever(_) => RunForever(u, item, s, below, fuel)
    case Count(_, _) =>
      if below + |s.r| < Depth then RunCount(u, item, Pop1(s).(r := [s.d[0]] + s.r), below, fuel) else Stray
    case Call(_) => RunCall(u, item, s, below, fuel)
  }

  function RunUntil(u: Unit, item: Item, s: State, below: nat, fuel: nat): Outcome
    requires item.Until?
    decreases fuel, 0, item, 0
  {
    match RunBody(u, item.body, s, below, fuel)
    case Next(s1) =>
      if s1.d[0] != 0 then Next(Pop1(s1))
      else if fuel == 0 then Timeout
      else RunUntil(u, item, Pop1(s1), below, fuel - 1)
    case o => o
  }

  function RunForever(u: Unit, item: Item, s: State, below: nat, fuel: nat): Outcome
    requires item.Forever?
    decreases fuel, 0, item, 0
  {
    match RunBody(u, item.body, s, below, fuel)
    case Next(s1) => if fuel == 0 then Timeout else RunForever(u, item, s1, below, fuel - 1)
    case o => o
  }

  function RunWhile(u: Unit, item: Item, s: State, below: nat, fuel: nat): Outcome
    requires item.While?
    decreases fuel, 0, item, 0
  {
    match RunBody(u, item.test, s, below, fuel)
    case Next(s1) => if s1.d[0] == 0 then Next(Pop1(s1)) else RunInside(u, item, Pop1(s1), below, fuel)
    case o => o
  }

  /** Past the test of a WHILE loop. */
  function RunInside(u: Unit, item: Item, s: State, below: nat, fuel: nat): Outcome
    requires item.While?
    decreases fuel, 0, item, -1
  {
    match RunBody(u, item.body, s, below, fuel)
    case Next(s1) => if fuel == 0 then Timeout else RunWhile(u, item, s1, below, fuel - 1)
    case o => o
  }

  /** A counted loop whose counter is on the return stack: it is tested, then counted, then the body runs. */
  function RunCount(u: Unit, item: Item, s: State, below: nat, fuel: nat): Outcome
    requires item.Count?
    decreases fuel, 0, item, 0
  {
    if s.r == [] then Stray
    else if s.r[0] == 0 then Next(s.(r := s.r[1..]))
    else if fuel == 0 then Timeout
    else RunCounted(u, item, s.(r := [Counted(s.r[0], item.down)] + s.r[1..]), below, fuel - 1)
  }

  /** Past the test of a counted loop. */
  function RunCounted(u: Unit, item: Item, s: State, below: nat, fuel: nat): Outcome
    requires item.Count?
    decreases fuel, 0, item, 1
  {
    match RunBody(u, item.body, s, below, fuel)
    case Next(s1) => RunCount(u, item, s1, below, fuel)
    case o => o
  }

  function RunCall(u: Unit, item: Item, s: State, below: nat, fuel: nat): Outcome
    requires item.Call?
    decreases fuel, 0, item, 0
  {
    match Find(u.defs, item.name, 0)
    case None => Stray
    case Some(k) =>
      if below + |s.r| >= Depth then Stray
      else if fuel == 0 then Timeout
      else Returning(RunFrom(u, k, s.(r := []), below + |s.r| + 1, fuel - 1), s.r)
  }

  /** Back in the caller, whose entries are on the return stack again. */
  function Returning(o: Outcome, r: seq<Word>): Outcome { if o.Ret? then Next(o.s.(r := r)) else o }

  /** Runs a definition, and on into the next one if it does not return. The end of the program is an error. */
  function RunFrom(u: Unit, k: nat, s: State, below: nat, fuel: nat): (o: Outcome)
    requires k <= |u.defs|
    ensures !o.Next?
    decreases fuel, 1 + |u.defs| - k, End, 0
  {
    if k == |u.defs| then Failed
    else
      match u.defs[k]
      case Define(_, body) =>
        (match RunBody(u, body, s, below, fuel)
         case Next(s1) => RunFrom(u, k + 1, s1, below, fuel)
         case o => o)
      case DefineConstant(_, n) => Returned(Push1(s, Low16(n)))
      case DefineVariable(_) => Returned(Push1(s, Low16(Start(u.defs, k) + 2)))
      case Allocate(_) => Stray
  }
}
