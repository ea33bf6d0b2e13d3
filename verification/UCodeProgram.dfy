/**
 Whole uCode programs: compiled, loaded and run from reset.
 */
module UCodeProgram {
  import opened Prelude
  import opened UCodeCpu
  import opened UCodeWords
  import opened UCodeSource
  import opened UCodeCorrect
  import opened UCodeCompiler
  import opened UCodeLayout

  /** Compiling succeeds exactly for the legal programs, with their image and dictionary as the outcome. */
  method Build(defs: seq<Definition>) returns (ok: bool, prog: seq<Word>, words: map<string, Word>)
    requires NestedProgram(defs) && Start(defs, |defs|) <= 0x1000
    ensures ok <==> LegalTo(defs, |defs|)
    ensures ok ==> prog == Image(defs) && words == Dictionary(defs, |defs|)
  {
    var compiler := new Compiler();
    ghost var o := ProgramCompiles(Compile, defs, |defs|);
    OpenBuilt(defs, |defs|, o);
    ok := compiler.CompileAll(ProgramTokens(defs, |defs|));
    prog, words := compiler.prog, compiler.words;
  }

  // ----- Running from reset -----

  function Loaded(code: seq<Word>): map<Address, Word>
    requires |code| <= 0x1000
  {
    map a: Address | 0 <= a < |code| :: code[a]
  }

  /** The processor at reset, whatever is on its stacks. */
  function Reset(code: seq<Word>, d: Cells, r: Cells, world: World): Cpu
    requires |code| <= 0x1000
  {
    Cpu(0, d, r, Loaded(code), world)
  }

  /** The data cells as they are loaded. */
  ghost predicate FreshCells(defs: seq<Definition>, cells: map<Address, Word>) {
    && (forall a: Address :: a in cells <==> IsCell(defs, a))
    && (forall a: Address :: a in cells ==> a < |Image(defs)| && cells[a] == Image(defs)[a])
  }

  /** There are such cells for every program. */
  lemma FreshCellsExist(defs: seq<Definition>) returns (cells: map<Address, Word>)
    requires |Image(defs)| < 0x1000
    ensures FreshCells(defs, cells)
  {
    forall a: Address | IsCell(defs, a) ensures a < |Image(defs)| {
      var k :| 0 <= k < |defs| && CellOf(defs, k) == Some(a);
      CellInside(defs, k, a);
      StartGrows(defs, k, |defs|);
    }
    cells := map a: Address | 0 <= a < |Image(defs)| && IsCell(defs, a) :: Image(defs)[a];
  }

  /** A variable starts as zero, and allocated data as what was allocated. */
  lemma CellLoaded(defs: seq<Definition>, k: nat, a: nat)
    requires k < |defs| && CellOf(defs, k) == Some(a) && |Image(defs)| < 0x1000
    ensures a < |Image(defs)| && Image(defs)[a] == if defs[k].Allocate? then Low16(defs[k].n) else 0
  {
    var u, all := Unit(defs, Image(defs)), CodeTo(defs, |defs|);
    ImageAssembled(defs);
    var part := CodeAt(defs, k, |defs|, all);
    assert Part(k);
    var start := Start(defs, k);
    var i := a - start;
    assert part[i] == all[start - 1..start - 1 + |part|][i];
    assert Nth(all, a - 1) == part[i];
  }

  /** The entry is the last word that `:` defines. */
  ghost predicate IsEntry(defs: seq<Definition>, entry: nat) {
    entry < |defs| && defs[entry].Define? && forall j :: entry < j < |defs| ==> !defs[j].Define?
  }

  lemma {:induction false} EntryWord(defs: seq<Definition>, k: nat, entry: nat)
    requires entry < k <= |defs| && defs[entry].Define? && forall j :: entry < j < k ==> !defs[j].Define?
    ensures LastWord(defs, k) == Instr.Jump(12, Start(defs, entry))
    decreases k
  {
    if entry < k - 1 { EntryWord(defs, k - 1, entry); }
  }

  lemma ResetMirrors(defs: seq<Definition>, cells: map<Address, Word>)
    requires |Image(defs)| < 0x1000 && FreshCells(defs, cells)
    ensures Mirrors(Unit(defs, Image(defs)), Loaded(Image(defs)), cells)
  {
  }

  lemma BootWord(defs: seq<Definition>, entry: nat)
    requires IsEntry(defs, entry) && |Image(defs)| < 0x1000
    ensures Start(defs, entry) < 0x1000 && Image(defs)[0] == 0xC000 + Start(defs, entry)
  {
    EntryWord(defs, |defs|, entry);
    StartGrows(defs, entry, |defs|);
  }

  /** At reset the processor calls the entry word. */
  lemma Boots(step: Cpu -> Result, defs: seq<Definition>, entry: nat, d: Cells, r: Cells, world: World,
              cells: map<Address, Word>)
    returns (m: Cpu)
    requires Obeys(step) && IsEntry(defs, entry) && |Image(defs)| < 0x1000 && FreshCells(defs, cells)
    ensures step(Reset(Image(defs), d, r, world)) == Running(m)
    ensures Represents(Unit(defs, Image(defs)), m, State(d, [], cells, world), [1], Start(defs, entry))
  {
    var c := Reset(Image(defs), d, r, world);
    BootWord(defs, entry);
    CallSteps(step, c, Start(defs, entry));
    m := c.(pc := Start(defs, entry), r := Pushed(r, 1));
    ResetMirrors(defs, cells);
    assert m.r[..1] == [1] && [] + [1 as Word] == [1];
  }

  /** What a program means from reset on: its entry word, called from address 0. */
  function Meaning(defs: seq<Definition>, entry: nat, d: Cells, cells: map<Address, Word>, world: World,
                   fuel: nat): Outcome
    requires entry <= |defs|
  {
    RunFrom(Unit(defs, Image(defs)), entry, State(d, [], cells, world), 1, fuel)
  }

  /** The compiled program does, from reset on, what the source program means. */
  lemma ProgramFollows(step: Cpu -> Result, defs: seq<Definition>, entry: nat, d: Cells, r: Cells, world: World,
                       cells: map<Address, Word>, fuel: nat)
    requires Obeys(step) && IsEntry(defs, entry) && |Image(defs)| < 0x1000 && FreshCells(defs, cells)
    ensures Follows(step, Unit(defs, Image(defs)), Reset(Image(defs), d, r, world),
                    Meaning(defs, entry, d, cells, world, fuel), [1], 0, fuel)
  {
    var u, c := Unit(defs, Image(defs)), Reset(Image(defs), d, r, world);
    ImageLinked(defs);
    var m := Boots(step, defs, entry, d, r, world, cells);
    SimFrom(step, u, entry, m, State(d, [], cells, world), [1], 1, fuel);
    StepThen(step, u, c, m, Meaning(defs, entry, d, cells, world, fuel), [1], 0, fuel, fuel);
  }

  /** Back at the instruction after the boot word. */
  ghost predicate EndsWith(u: Unit, m: Cpu, s: State) {
    m.pc == 1 && m.d == s.d && m.world == s.world && Mirrors(u, m.mem, s.cells)
  }

  lemma Comes(step: Cpu -> Result, u: Unit, c: Cpu, s: State, fuel: nat)
    requires Follows(step, u, c, Ret(s), [1], 0, fuel)
    ensures exists n :: Run(step, c, n).Running? && EndsWith(u, Run(step, c, n).cpu, s)
  {
    var n, m := Reached(step, u, c, s, [1][1..], 1);
    assert Open(m);
    assert EndsWith(u, Run(step, c, n).cpu, s);
  }

  /**
   The processor halts if the program fails, and is back at address 1 with its stack and cells if the entry word
   returns.
   */
  lemma ProgramEnds(step: Cpu -> Result, defs: seq<Definition>, entry: nat, d: Cells, r: Cells, world: World,
                    cells: map<Address, Word>, fuel: nat)
    requires Obeys(step) && IsEntry(defs, entry) && |Image(defs)| < 0x1000 && FreshCells(defs, cells)
    ensures var c, o := Reset(Image(defs), d, r, world), Meaning(defs, entry, d, cells, world, fuel);
            && (o.Failed? ==> exists n :: Run(step, c, n) == Halted)
            && (o.Ret? ==> Returns(step, defs, c, o.s))
  {
    ProgramFollows(step, defs, entry, d, r, world, cells, fuel);
    var o := Meaning(defs, entry, d, cells, world, fuel);
    if o.Ret? { Comes(step, Unit(defs, Image(defs)), Reset(Image(defs), d, r, world), o.s, fuel); }
  }

  /** A program that means to run for ever does, and one whose processor halts does not mean to run longer. */
  lemma ProgramRuns(step: Cpu -> Result, defs: seq<Definition>, entry: nat, d: Cells, r: Cells, world: World,
                    cells: map<Address, Word>, n: nat)
    requires Obeys(step) && IsEntry(defs, entry) && |Image(defs)| < 0x1000 && FreshCells(defs, cells)
    ensures Meaning(defs, entry, d, cells, world, n) == Timeout ==>
              Run(step, Reset(Image(defs), d, r, world), n).Running?
    ensures Run(step, Reset(Image(defs), d, r, world), n) == Halted ==>
              Meaning(defs, entry, d, cells, world, n) != Timeout
  {
    ProgramFollows(step, defs, entry, d, r, world, cells, n);
  }

  lemma OneMore(step: Cpu -> Result, c: Cpu, n: nat, c1: Cpu, limit: nat)
    requires Run(step, c, n) == Running(c1) && n < limit
    ensures step(c1).Running? ==> Run(step, c, n + 1) == step(c1)
    ensures step(c1).Halted? ==> Run(step, c, limit) == Halted
  {
    RunOn(step, c, n, 1);
    assert step(c1).Running? ==> Run(step, step(c1).cpu, 0) == step(c1);
    assert Run(step, c1, 1) == step(c1);
    RunOn(step, c, n + 1, limit - n - 1);
  }

  /** The run loop of the simulator, for a limited number of steps; a step that fails ends the run. */
  method RunLoop(machine: Machine, limit: nat) returns (running: bool)
    requires machine.Valid()
    modifies machine, machine.dstack, machine.rstack
    ensures running ==> Run(Execute, old(machine.State()), limit) == Running(machine.State())
    ensures !running ==> Run(Execute, old(machine.State()), limit) == Halted
  {
    var n := 0;
    running := true;
    while n < limit && running
      invariant machine.Valid() && n <= limit
      invariant running ==> Run(Execute, old(machine.State()), n) == Running(machine.State())
      invariant !running ==> Run(Execute, old(machine.State()), limit) == Halted
      decreases limit - n
    {
      OneMore(Execute, old(machine.State()), n, machine.State(), limit);
      running := machine.Step();
      n := n + 1;
    }
  }

  /**
   Compiling, loading and running. While it runs, the machine is where so many steps from reset lead; it comes to a
   halt if the program fails, and back from the entry word, with its stack, cells and devices, if that returns.
   */
  method BuildAndRun(defs: seq<Definition>, world: World, d: Cells, r: Cells, limit: nat, ghost entry: nat,
                     ghost cells: map<Address, Word>)
    returns (built: bool, running: bool, machine: Machine)
    requires NestedProgram(defs) && Start(defs, |defs|) < 0x1000 && IsEntry(defs, entry) && FreshCells(defs, cells)
    ensures built <==> LegalTo(defs, |defs|)
    ensures fresh(machine) && machine.Valid()
    ensures built && running ==> Run(Execute, Reset(Image(defs), d, r, world), limit) == Running(machine.State())
    ensures built && !running ==> Run(Execute, Reset(Image(defs), d, r, world), limit) == Halted
    ensures var o := Meaning(defs, entry, d, cells, world, limit);
            && (built && !running ==> o != Timeout)
            && (built && o == Timeout ==> running)
            && (built && o.Failed? ==> exists n :: Run(Execute, Reset(Image(defs), d, r, world), n) == Halted)
            && (built && o.Ret? ==> Returns(Execute, defs, Reset(Image(defs), d, r, world), o.s))
  {
    var prog, words;
    built, prog, words := Build(defs);
    running := false;
    machine := new Machine(Loaded(if built then prog else []), world, d, r);
    if built {
      ProgramRuns(Execute, defs, entry, d, r, world, cells, limit);
      ProgramEnds(Execute, defs, entry, d, r, world, cells, limit);
      running := RunLoop(machine, limit);
    }
  }

  /** After some steps the processor is back at the instruction after the boot word. */
  ghost predicate Returns(step: Cpu -> Result, defs: seq<Definition>, c: Cpu, s: State) {
    exists n :: Run(step, c, n).Running? && EndsWith(Unit(defs, Image(defs)), Run(step, c, n).cpu, s)
  }

  // ----- Counted loops -----

  /** How often a counted loop runs: n times down, and up as often as it takes to wrap around to 0. */
  function Rounds(n: Word, down: bool): nat { if down then n else (0x1_0000 - n) % 0x1_0000 }

  /** The value of `I` with k rounds to come, this one included. */
  function IndexWith(k: nat, down: bool): Word
    requires 0 < k < 0x1_0000
  {
    if down then k - 1 else (0x1_0000 - (k - 1)) % 0x1_0000
  }

  /** A body run k times with its index on the return stack, which it must leave as it was. */
  function Repeat(u: Unit, item: Item, s: State, k: nat, below: nat, fuel: nat): Outcome
    requires item.Count? && k < 0x1_0000
    decreases k
  {
    if k == 0 then Next(s)
    else if fuel == 0 then Timeout
    else
      var r := [IndexWith(k, item.down)] + s.r;
      match RunBody(u, item.body, s.(r := r), below, fuel - 1)
      case Next(s1) => if s1.r == r then Repeat(u, item, s1.(r := s.r), k - 1, below, fuel - 1) else Stray
      case o => o
  }

  lemma CountIsIndex(n: Word, down: bool)
    requires n != 0
    ensures 0 < Rounds(n, down) < 0x1_0000
    ensures Counted(n, down) == IndexWith(Rounds(n, down), down)
    ensures Rounds(Counted(n, down), down) == Rounds(n, down) - 1
  {
    if down {
      assert Counted(n, down) == n - 1;
    } else {
      assert Counted(n, down) == if n == 0xFFFF then 0 else n + 1;
      assert Rounds(n, down) == 0x1_0000 - n;
    }
  }

  lemma {:induction false} LoopRepeats(u: Unit, item: Item, s: State, n: Word, below: nat, fuel: nat)
    requires item.Count? && Repeat(u, item, s, Rounds(n, item.down), below, fuel) != Stray
    ensures RunCount(u, item, s.(r := [n] + s.r), below, fuel) == Repeat(u, item, s, Rounds(n, item.down), below, fuel)
    decreases Rounds(n, item.down)
  {
    var k := Rounds(n, item.down);
    var s0 := s.(r := [n] + s.r);
    assert s0.r[1..] == s.r;
    if n == 0 {
      assert s0.(r := s.r) == s;
    } else if fuel > 0 {
      CountIsIndex(n, item.down);
      var x := Counted(n, item.down);
      assert s0.(r := [x] + s.r) == s.(r := [x] + s.r);
      var o := RunBody(u, item.body, s.(r := [x] + s.r), below, fuel - 1);
      if o.Next? {
        var s1 := o.s.(r := s.r);
        assert s1.(r := [x] + s1.r) == o.s;
        LoopRepeats(u, item, s1, x, below, fuel - 1);
      }
    }
  }

  /**
   `n ?LOOP- body AGAIN` runs the body n times with `I` from n-1 down to 0, `n ?LOOP+ body AGAIN`
   runs it (65536 - n) mod 65536 times with `I` up to 0, and the counter is gone afterwards, for
   any body that leaves the return stack as it finds it.
   */
  lemma CountedLoop(u: Unit, item: Item, s: State, below: nat, fuel: nat)
    requires item.Count? && below + |s.r| < Depth
    requires Repeat(u, item, Pop1(s), Rounds(s.d[0], item.down), below, fuel) != Stray
    ensures RunItem(u, item, s, below, fuel) == Repeat(u, item, Pop1(s), Rounds(s.d[0], item.down), below, fuel)
  {
    LoopRepeats(u, item, Pop1(s), s.d[0], below, fuel);
  }

  /** The states before and after k rounds of a body, which finds its index on the return stack and leaves it there. */
  ghost predicate Turns(u: Unit, item: Item, states: seq<State>, k: nat, below: nat, fuel: nat) {
    && item.Count? && k < 0x1_0000 && k <= fuel && |states| == k + 1
    && forall i :: 0 <= i < k ==>
         var index := IndexWith(k - i, item.down);
         && states[i + 1].r == states[i].r
         && RunBody(u, item.body, states[i].(r := [index] + states[i].r), below, fuel - 1 - i) ==
            Next(states[i + 1].(r := [index] + states[i].r))
  }

  lemma {:induction false} TurnsRepeat(u: Unit, item: Item, states: seq<State>, k: nat, below: nat, fuel: nat)
    requires Turns(u, item, states, k, below, fuel)
    ensures Repeat(u, item, states[0], k, below, fuel) == Next(states[k])
    decreases k
  {
    if k > 0 {
      var rest := states[1..];
      forall i | 0 <= i < k - 1
        ensures var index := IndexWith(k - 1 - i, item.down);
                && rest[i + 1].r == rest[i].r
                && RunBody(u, item.body, rest[i].(r := [index] + rest[i].r), below, fuel - 2 - i) ==
                   Next(rest[i + 1].(r := [index] + rest[i].r))
      {
        assert states[i + 2].r == states[i + 1].r;
      }
      TurnsRepeat(u, item, rest, k - 1, below, fuel - 1);
      assert states[1].(r := states[0].r) == states[1];
    }
  }

  /** A counted loop with so many turns ends in the last of their states. */
  lemma CountedTurns(u: Unit, item: Item, s: State, states: seq<State>, below: nat, fuel: nat)
    requires item.Count? && below + |s.r| < Depth
    requires Turns(u, item, states, Rounds(s.d[0], item.down), below, fuel) && states[0] == Pop1(s)
    ensures RunItem(u, item, s, below, fuel) == Next(states[Rounds(s.d[0], item.down)])
  {
    TurnsRepeat(u, item, states, Rounds(s.d[0], item.down), below, fuel);
    CountedLoop(u, item, s, below, fuel);
  }

  // ----- A word that `;` joins but that does not return -----

  /**
   `@ ;` returns if and only if the cell exists. If it does not, the step gives up before the
   return, and without an error, so that the processor goes on into whatever follows the word.
   */
  lemma FetchReturns(c: Cpu)
    requires At(c, Fused(Fetch(Program), true)) && c.r[0] % 0x1000 != c.pc + 1
    ensures Execute(c).Running?
    ensures c.d[0] % 0x1000 in c.mem <==> Execute(c).cpu.pc == c.r[0] % 0x1000
    ensures c.d[0] % 0x1000 !in c.mem ==> Execute(c) == Running(c.(pc := c.pc + 1))
  {
    ExecuteObeys();
    MemoryWordSteps(Execute, c, Program, false, true);
  }

  /** The smallest such program: one word, fetching from an address behind it. */
  lemma FetchFallsThrough(d: Cells, r: Cells, world: World)
    requires d[0] % 0x1000 != 0 && r[0] % 0x1000 != 1
    ensures var c := Reset([Fused(Fetch(Program), true)], d, r, world); Execute(c) == Running(c.(pc := 1))
  {
    FetchReturns(Reset([Fused(Fetch(Program), true)], d, r, world));
  }
}
