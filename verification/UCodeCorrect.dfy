/**
 Compiled uCode does what its source means: from the start of any body, the machine
 goes where the meaning says, for as long as the meaning says.
 */
module UCodeCorrect {
  import opened Prelude
  import opened UCodeCpu
  import opened UCodeWords
  import opened UCodeSource

  // ----- States that represent each other -----

  /** Program memory holds the code, except where data cells are. */
  ghost predicate Mirrors(u: Unit, mem: map<Address, Word>, cells: map<Address, Word>) {
    && (forall x: Address :: x in mem <==> x < |u.code|)
    && (forall x: Address :: x in mem ==> mem[x] == if x in cells then cells[x] else u.code[x])
    && (forall x: Address :: x in cells ==> x in mem && IsCell(u.defs, x))
  }

  predicate Holds(r: Cells, top: seq<Word>) { |top| <= Depth && r[..|top|] == top }

  predicate Open(m: Cpu) { true }

  /** Only where a proof opens the state is this known in detail. */
  ghost predicate Alike(u: Unit, m: Cpu, s: State, frames: seq<Word>) {
    forall k {:trigger Open(k)} :: Open(k) && k == m ==>
      k.world == s.world && Mirrors(u, k.mem, s.cells) && Holds(k.r, s.r + frames)
  }

  /** The frames are the return addresses, and what callers keep, below the entries of the running word. */
  ghost predicate Represents(u: Unit, m: Cpu, s: State, frames: seq<Word>, pc: nat) {
    m.pc == pc && m.d == s.d && Alike(u, m, s, frames)
  }

  lemma PushHolds(r: Cells, top: seq<Word>, x: Word)
    requires Holds(r, top) && |top| < Depth
    ensures Holds(Pushed(r, x), [x] + top)
  {
  }

  lemma PopHolds(r: Cells, x: Word, top: seq<Word>)
    requires Holds(r, [x] + top)
    ensures r[0] == x && Holds(Popped(r), top)
  {
    assert r[..|top| + 1][0] == x;
    assert r[..|top| + 1][1..] == top;
  }

  lemma SetHolds(r: Cells, x: Word, y: Word, top: seq<Word>)
    requires Holds(r, [x] + top)
    ensures Holds(r[0 := y], [y] + top)
  {
    assert r[..|top| + 1][1..] == top;
  }

  lemma Uncons<T>(s: seq<T>, t: seq<T>)
    requires s != []
    ensures s + t == [s[0]] + (s[1..] + t)
  {
  }

  // ----- Placement -----

  function Nth<T>(s: seq<T>, i: nat): T
    requires i < |s|
  {
    s[i]
  }

  ghost predicate PlacedAt(u: Unit, a: nat, i: Instr) {
    a < |u.code| && u.code[a] == Assemble(u.defs, i) && !IsCell(u.defs, a)
  }

  /** The code is in memory at this address, and none of it is a data cell. */
  ghost predicate Placed(u: Unit, a: nat, code: seq<Instr>) {
    && a + |code| <= |u.code|
    && forall i {:trigger Nth(code, i)} :: 0 <= i < |code| ==> PlacedAt(u, a + i, Nth(code, i))
  }

  /** Every definition is placed where it starts, as far as it is executed, and they end where the program ends. */
  ghost predicate Here(u: Unit, k: nat) {
    k <= |u.defs| ==>
      && Start(u.defs, k) < 0x1000
      && if k == |u.defs| then Start(u.defs, k) == |u.code|
         else u.defs[k].Allocate? || Placed(u, Start(u.defs, k), Executed(u.defs, k))
  }

  function Executed(defs: seq<Definition>, k: nat): seq<Instr>
    requires k < |defs|
  {
    if defs[k].DefineVariable? then [Constant, Datum(Start(defs, k) + 2)] else DefinitionCode(defs[k], Start(defs, k))
  }

  ghost predicate Linked(u: Unit) {
    |u.code| < 0x1000 && forall k: nat {:trigger Here(u, k)} :: Here(u, k)
  }

  lemma PlacedParts(u: Unit, a: nat, first: seq<Instr>, rest: seq<Instr>)
    requires Placed(u, a, first + rest)
    ensures Placed(u, a, first) && Placed(u, a + |first|, rest)
  {
    forall i | 0 <= i < |first| ensures PlacedAt(u, a + i, Nth(first, i)) {
      assert Nth(first, i) == Nth(first + rest, i);
    }
    forall i | 0 <= i < |rest| ensures PlacedAt(u, a + |first| + i, Nth(rest, i)) {
      assert Nth(rest, i) == Nth(first + rest, |first| + i);
    }
  }

  lemma FetchPlaced(u: Unit, m: Cpu, s: State, frames: seq<Word>, a: nat, i: Instr)
    requires Represents(u, m, s, frames, a) && Placed(u, a, [i]) && Linked(u)
    ensures At(m, Assemble(u.defs, i)) && a + 1 < 0x1000
  {
    assert Open(m);
    assert Nth([i], 0) == i;
    var x: Address := a;
    assert !IsCell(u.defs, x);
    assert a + 1 < 0x1000;
  }

  lemma FetchOp(u: Unit, m: Cpu, s: State, frames: seq<Word>, a: nat, p: Prim, exit: bool)
    requires Represents(u, m, s, frames, a) && Placed(u, a, [Op(p, exit)]) && Linked(u)
    ensures if Joins(p) then Opcode(p) < 0x1000 && At(m, Fused(p, exit)) else At(m, Opcode(p))
  {
    FetchPlaced(u, m, s, frames, a, Op(p, exit));
    JoinsByOpcode(p);
  }

  lemma FetchJump(u: Unit, m: Cpu, s: State, frames: seq<Word>, a: nat, kind: nat, target: nat)
    requires Represents(u, m, s, frames, a) && Placed(u, a, [Jump(kind, target)]) && Linked(u) && kind < 16
    requires target < 0x1000
    ensures At(m, kind * 0x1000 + target) && a + 1 < 0x1000
  {
    FetchPlaced(u, m, s, frames, a, Jump(kind, target));
  }

  lemma FetchLeave(u: Unit, m: Cpu, s: State, frames: seq<Word>, a: nat)
    requires Represents(u, m, s, frames, a) && Placed(u, a, [Instr.Leave]) && Linked(u)
    ensures At(m, 0x5000)
  {
    FetchPlaced(u, m, s, frames, a, Instr.Leave);
  }

  lemma FetchCall(u: Unit, m: Cpu, s: State, frames: seq<Word>, a: nat, name: string, k: nat)
    requires Represents(u, m, s, frames, a) && Linked(u) && Find(u.defs, name, 0) == Some(k)
    ensures Start(u.defs, k) < 0x1000
    ensures Placed(u, a, [CallTo(name)]) ==> At(m, 0xC000 + Start(u.defs, k)) && a + 1 < 0x1000
    ensures Placed(u, a, [JumpTo(name)]) ==> At(m, 0x8000 + Start(u.defs, k))
  {
    assert Here(u, k);
    if Placed(u, a, [CallTo(name)]) { FetchPlaced(u, m, s, frames, a, CallTo(name)); }
    if Placed(u, a, [JumpTo(name)]) { FetchPlaced(u, m, s, frames, a, JumpTo(name)); }
  }

  /** A literal or constant, and the number after it. */
  lemma FetchNumber(u: Unit, m: Cpu, s: State, frames: seq<Word>, a: nat, i: Instr, n: int)
    requires Represents(u, m, s, frames, a) && Placed(u, a, [i, Datum(n)]) && Linked(u)
    ensures At(m, Assemble(u.defs, i)) && a + 1 < 0x1000 && a + 1 in m.mem && m.mem[a + 1] == Low16(n)
  {
    assert [i, Datum(n)] == [i] + [Datum(n)];
    PlacedParts(u, a, [i], [Datum(n)]);
    FetchPlaced(u, m, s, frames, a, i);
    Moved(u, m, s, frames, a, a + 1, s.d);
    FetchPlaced(u, m.(pc := a + 1, d := s.d), s, frames, a + 1, Datum(n));
  }

  // ----- Where a run goes -----

  ghost predicate Arrives(step: Cpu -> Result, u: Unit, m: Cpu, s: State, frames: seq<Word>, pc: nat) {
    exists n :: Run(step, m, n).Running? && Represents(u, Run(step, m, n).cpu, s, frames, pc)
  }

  /** The machine does as the outcome says: a word ends after its code or returns to the topmost frame. */
  ghost predicate Follows(step: Cpu -> Result, u: Unit, m: Cpu, o: Outcome, frames: seq<Word>, end: nat, fuel: nat) {
    match o
    case Next(s) => Arrives(step, u, m, s, frames, end)
    case Ret(s) => s.r == [] && (frames != [] ==> Arrives(step, u, m, s, frames[1..], frames[0] % 0x1000))
    case Failed => exists n :: Run(step, m, n) == Halted
    case Stray => true
    case Timeout => Run(step, m, fuel).Running?
  }

  lemma Arrived(step: Cpu -> Result, u: Unit, m: Cpu, s: State, frames: seq<Word>, pc: nat)
    requires Represents(u, m, s, frames, pc)
    ensures Arrives(step, u, m, s, frames, pc)
  {
    assert Run(step, m, 0) == Running(m);
  }

  lemma Shorter(step: Cpu -> Result, m: Cpu, n: nat, k: nat)
    requires Run(step, m, n).Running? && k <= n
    ensures Run(step, m, k).Running?
  {
    RunOn(step, m, k, n - k);
  }

  lemma ArriveLater(step: Cpu -> Result, u: Unit, m: Cpu, n: nat, m1: Cpu, s: State, frames: seq<Word>, pc: nat)
    requires Run(step, m, n) == Running(m1) && Arrives(step, u, m1, s, frames, pc)
    ensures Arrives(step, u, m, s, frames, pc)
  {
    var k :| Run(step, m1, k).Running? && Represents(u, Run(step, m1, k).cpu, s, frames, pc);
    RunOn(step, m, n, k);
  }

  /** What holds from a later state on holds from an earlier one. */
  lemma Continue(step: Cpu -> Result, u: Unit, m: Cpu, n: nat, m1: Cpu, o: Outcome, frames: seq<Word>, end: nat,
                 fuel1: nat, fuel: nat)
    requires Run(step, m, n) == Running(m1) && Follows(step, u, m1, o, frames, end, fuel1) && fuel <= fuel1 + n
    ensures Follows(step, u, m, o, frames, end, fuel)
  {
    match o
    case Next(s) => ArriveLater(step, u, m, n, m1, s, frames, end);
    case Ret(s) =>
      if frames != [] { ArriveLater(step, u, m, n, m1, s, frames[1..], frames[0] % 0x1000); }
    case Failed =>
      var k :| Run(step, m1, k) == Halted;
      RunOn(step, m, n, k);
    case Timeout =>
      RunOn(step, m, n, fuel1);
      Shorter(step, m, n + fuel1, fuel);
    case Stray =>
  }

  lemma StepThen(step: Cpu -> Result, u: Unit, m: Cpu, m1: Cpu, o: Outcome, frames: seq<Word>, end: nat, fuel1: nat,
                 fuel: nat)
    requires step(m) == Running(m1) && Follows(step, u, m1, o, frames, end, fuel1) && fuel <= fuel1 + 1
    ensures Follows(step, u, m, o, frames, end, fuel)
  {
    assert Run(step, m1, 0) == Running(m1);
    assert Run(step, m, 1) == Running(m1);
    Continue(step, u, m, 1, m1, o, frames, end, fuel1, fuel);
  }

  lemma StepTo(step: Cpu -> Result, u: Unit, m: Cpu, m1: Cpu, s: State, frames: seq<Word>, end: nat, fuel: nat)
    requires step(m) == Running(m1) && Represents(u, m1, s, frames, end)
    ensures Follows(step, u, m, Next(s), frames, end, fuel)
  {
    Arrived(step, u, m1, s, frames, end);
    StepThen(step, u, m, m1, Next(s), frames, end, fuel, fuel);
  }

  lemma StepHalts(step: Cpu -> Result, m: Cpu)
    requires step(m) == Halted
    ensures exists n :: Run(step, m, n) == Halted
  {
    assert Run(step, m, 1) == Halted;
  }

  // ----- Steps that keep the representation -----

  lemma Moved(u: Unit, m: Cpu, s: State, frames: seq<Word>, a: nat, pc: nat, d: Cells)
    requires Represents(u, m, s, frames, a)
    ensures Represents(u, m.(pc := pc, d := d), s.(d := d), frames, pc)
  {
    assert Open(m);
  }

  lemma MovedPush(u: Unit, m: Cpu, s: State, frames: seq<Word>, a: nat, pc: nat, d: Cells, x: Word)
    requires Represents(u, m, s, frames, a) && |s.r| + |frames| < Depth
    ensures Represents(u, m.(pc := pc, d := d, r := Pushed(m.r, x)), s.(d := d, r := [x] + s.r), frames, pc)
  {
    assert Open(m);
    PushHolds(m.r, s.r + frames, x);
    Uncons([x] + s.r, frames);
  }

  lemma MovedPop(u: Unit, m: Cpu, s: State, frames: seq<Word>, a: nat, pc: nat, d: Cells)
    requires Represents(u, m, s, frames, a) && s.r != []
    ensures m.r[0] == s.r[0]
    ensures Represents(u, m.(pc := pc, d := d, r := Popped(m.r)), s.(d := d, r := s.r[1..]), frames, pc)
  {
    assert Open(m);
    Uncons(s.r, frames);
    PopHolds(m.r, s.r[0], s.r[1..] + frames);
  }

  lemma MovedSet(u: Unit, m: Cpu, s: State, frames: seq<Word>, a: nat, pc: nat, x: Word)
    requires Represents(u, m, s, frames, a) && s.r != []
    ensures m.r[0] == s.r[0]
    ensures Represents(u, m.(pc := pc, r := m.r[0 := x]), s.(r := [x] + s.r[1..]), frames, pc)
  {
    assert Open(m);
    Uncons(s.r, frames);
    PopHolds(m.r, s.r[0], s.r[1..] + frames);
    SetHolds(m.r, s.r[0], x, s.r[1..] + frames);
    Uncons([x] + s.r[1..], frames);
  }

  /** Returning takes the topmost frame. */
  lemma MovedReturn(u: Unit, m: Cpu, s: State, frames: seq<Word>, a: nat, pc: nat, d: Cells)
    requires Represents(u, m, s, frames, a) && s.r == [] && frames != []
    ensures m.r[0] == frames[0]
    ensures Represents(u, m.(pc := pc, d := d, r := Popped(m.r)), s.(d := d), frames[1..], pc)
  {
    assert Open(m);
    assert s.r + frames == [frames[0]] + frames[1..];
    PopHolds(m.r, frames[0], frames[1..]);
    assert s.r + frames[1..] == frames[1..];
  }

  lemma MovedWorld(u: Unit, m: Cpu, s: State, frames: seq<Word>, a: nat, world: World)
    requires Represents(u, m, s, frames, a)
    ensures Represents(u, m.(world := world), s.(world := world), frames, a)
  {
    assert Open(m);
  }

  lemma MovedStore(u: Unit, m: Cpu, s: State, frames: seq<Word>, a: nat, x: Address, w: Word)
    requires Represents(u, m, s, frames, a) && x in s.cells
    ensures Represents(u, m.(mem := m.mem[x := w]), s.(cells := s.cells[x := w]), frames, a)
  {
    assert Open(m);
  }

  // ----- Words -----

  /** What `;` makes of the outcome of the word it joins. */
  function Exiting(o: Outcome, exit: bool): Outcome {
    if exit && o.Next? then Returned(o.s) else o
  }

  /** A step that ends a word, with the return if it has one; m0 and s0 already have the effects on memory and world. */
  lemma WordEnds(step: Cpu -> Result, u: Unit, m: Cpu, m0: Cpu, s0: State, frames: seq<Word>, a: nat, exit: bool,
                 d: Cells, fuel: nat)
    requires Represents(u, m0, s0, frames, a) && m0.r == m.r
    requires step(m) ==
             Running(m0.(pc := if exit then m.r[0] % 0x1000 else a + 1, d := d,
                         r := if exit then Popped(m.r) else m.r))
    ensures Follows(step, u, m, Exiting(Next(s0.(d := d)), exit), frames, a + 1, fuel)
  {
    if !exit {
      Moved(u, m0, s0, frames, a, a + 1, d);
      StepTo(step, u, m, m0.(pc := a + 1, d := d), s0.(d := d), frames, a + 1, fuel);
    } else if s0.r == [] && frames != [] {
      var pc := frames[0] % 0x1000;
      MovedReturn(u, m0, s0, frames, a, pc, d);
      StepTo(step, u, m, m0.(pc := pc, d := d, r := Popped(m.r)), s0.(d := d), frames[1..], pc, fuel);
    }
  }

  lemma ProgramAccess(u: Unit, m: Cpu, s: State, frames: seq<Word>, a: nat, write: bool)
    requires Represents(u, m, s, frames, a)
    ensures var x: Address := s.d[0] % 0x1000;
            var read := if x in s.cells then Some(s.cells[x]) else if x < |u.code| then Some(u.code[x]) else None;
            var access := if write then Access(Some(s.d[1]), m.mem[x := s.d[1]], m.world)
                          else Access(read, m.mem, m.world);
            AccessMemory(0, write, s.d[0], s.d[1], a + 1, m.mem, m.world) == access
  {
    assert Open(m);
  }

  lemma SimProgram(step: Cpu -> Result, u: Unit, m: Cpu, s: State, frames: seq<Word>, a: nat, write: bool, exit: bool,
                   below: nat, fuel: nat)
    requires Obeys(step) && Represents(u, m, s, frames, a)
    requires At(m, Fused(if write then Store(Program) else Fetch(Program), exit))
    ensures Follows(step, u, m,
                    Exiting(RunWord(u.code, if write then Store(Program) else Fetch(Program), s, below), exit),
                    frames, a + 1, fuel)
  {
    var x: Address := s.d[0] % 0x1000;
    assert Open(m);
    ProgramAccess(u, m, s, frames, a, write);
    MemoryWordSteps(step, m, Program, write, exit);
    if write && x in s.cells {
      MovedStore(u, m, s, frames, a, x, s.d[1]);
      WordEnds(step, u, m, m.(mem := m.mem[x := s.d[1]]), s.(cells := s.cells[x := s.d[1]]), frames, a, exit,
               Popped(Popped(s.d)), fuel);
    } else if !write && x < |u.code| {
      var value := if x in s.cells then s.cells[x] else u.code[x];
      WordEnds(step, u, m, m, s, frames, a, exit, Pushed(Popped(s.d), value), fuel);
    }
  }

  lemma OtherAccess(place: Place, write: bool, address: Word, data: Word, pc: nat, mem: map<Address, Word>,
                    world: World)
    requires place != Program
    ensures var other := AccessMemory(Range(place), write, address, data, 0, map[], world);
            AccessMemory(Range(place), write, address, data, pc, mem, world) ==
            if other.BadAccess? then BadAccess else Access(other.value, mem, other.world)
  {
  }

  lemma SimPeripheral(step: Cpu -> Result, u: Unit, m: Cpu, s: State, frames: seq<Word>, a: nat, place: Place,
                      write: bool, exit: bool, fuel: nat)
    requires Obeys(step) && Represents(u, m, s, frames, a) && place != Program
    requires At(m, Fused(if write then Store(place) else Fetch(place), exit))
    ensures Follows(step, u, m, Exiting(Peripheral(s, place, write), exit), frames, a + 1, fuel)
  {
    var access := AccessMemory(Range(place), write, s.d[0], s.d[1], 0, map[], s.world);
    assert Open(m);
    OtherAccess(place, write, s.d[0], s.d[1], a + 1, m.mem, m.world);
    MemoryWordSteps(step, m, place, write, exit);
    if access.BadAccess? {
      StepHalts(step, m);
    } else if access.value.Some? {
      MovedWorld(u, m, s, frames, a, access.world);
      var d := if write then Popped(Popped(s.d)) else Pushed(Popped(s.d), access.value.value);
      WordEnds(step, u, m, m.(world := access.world), s.(world := access.world), frames, a, exit, d, fuel);
    }
  }

  lemma SimStack(step: Cpu -> Result, u: Unit, m: Cpu, s: State, frames: seq<Word>, a: nat, p: Prim, exit: bool,
                 d: Cells, fuel: nat)
    requires Obeys(step) && Represents(u, m, s, frames, a) && StackMeaning(p, s.d) == Some(d) && Opcode(p) < 0x1000
    requires At(m, Fused(p, exit))
    ensures Follows(step, u, m, Exiting(Next(s.(d := d)), exit), frames, a + 1, fuel)
  {
    StackWordSteps(step, m, p, exit, d);
    WordEnds(step, u, m, m, s, frames, a, exit, d, fuel);
  }

  lemma SimFetchTop(step: Cpu -> Result, u: Unit, m: Cpu, s: State, frames: seq<Word>, a: nat, fuel: nat)
    requires Obeys(step) && Represents(u, m, s, frames, a) && At(m, 0x0280) && s.r != []
    ensures Follows(step, u, m, Next(Push1(s, s.r[0])), frames, a + 1, fuel)
  {
    RFetchSteps(step, m);
    MovedPop(u, m, s, frames, a, a, s.d);
    Moved(u, m, s, frames, a, a + 1, Pushed(s.d, s.r[0]));
    StepTo(step, u, m, m.(pc := a + 1, d := Pushed(s.d, s.r[0])), Push1(s, s.r[0]), frames, a + 1, fuel);
  }

  /** An evaluation or memory word, alone or joined by `;`. */
  lemma SimWord(step: Cpu -> Result, u: Unit, m: Cpu, s: State, frames: seq<Word>, a: nat, p: Prim, exit: bool,
                below: nat, fuel: nat)
    requires Obeys(step) && Represents(u, m, s, frames, a) && Joins(p) && Placed(u, a, [Op(p, exit)]) && Linked(u)
    ensures Follows(step, u, m, Exiting(RunWord(u.code, p, s, below), exit), frames, a + 1, fuel)
  {
    FetchOp(u, m, s, frames, a, p, exit);
    var d := StackMeaning(p, s.d);
    if d.Some? {
      SimStack(step, u, m, s, frames, a, p, exit, d.value, fuel);
    } else if p.Fetch? || p.Store? {
      if p.place == Program { SimProgram(step, u, m, s, frames, a, p.Store?, exit, below, fuel); }
      else { SimPeripheral(step, u, m, s, frames, a, p.place, p.Store?, exit, fuel); }
    } else if p == Fail {
      FailSteps(step, m, exit);
      StepHalts(step, m);
    } else if s.r != [] && !exit {
      SimFetchTop(step, u, m, s, frames, a, fuel);
    }
  }

  /** Words that take the top of the return stack. `;` does not join them. */
  lemma SimTake(step: Cpu -> Result, u: Unit, m: Cpu, s: State, frames: seq<Word>, a: nat, p: Prim, fuel: nat)
    requires Obeys(step) && Represents(u, m, s, frames, a) && (p == RFrom || p == RDrop) && At(m, Opcode(p))
    requires s.r != []
    ensures Follows(step, u, m, Next((if p == RFrom then Push1(s, s.r[0]) else s).(r := s.r[1..])), frames, a + 1, fuel)
  {
    var d := if p == RFrom then Pushed(s.d, s.r[0]) else s.d;
    MovedPop(u, m, s, frames, a, a + 1, d);
    if p == RFrom { RFromSteps(step, m); } else { RDropSteps(step, m); }
    StepTo(step, u, m, m.(pc := a + 1, d := d, r := Popped(m.r)), s.(d := d, r := s.r[1..]), frames, a + 1, fuel);
  }

  /** `>R`. */
  lemma SimGive(step: Cpu -> Result, u: Unit, m: Cpu, s: State, frames: seq<Word>, a: nat, fuel: nat)
    returns (m1: Cpu)
    requires Obeys(step) && Represents(u, m, s, frames, a) && At(m, 0x2100) && |s.r| + |frames| < Depth
    ensures step(m) == Running(m1) && Represents(u, m1, Pop1(s).(r := [s.d[0]] + s.r), frames, a + 1)
  {
    ToRSteps(step, m);
    MovedPush(u, m, s, frames, a, a + 1, Popped(s.d), s.d[0]);
    m1 := m.(pc := a + 1, d := Popped(m.d), r := Pushed(m.r, m.d[0]));
  }

  lemma SimReturnWord(step: Cpu -> Result, u: Unit, m: Cpu, s: State, frames: seq<Word>, a: nat, p: Prim, below: nat,
                      fuel: nat)
    requires Obeys(step) && Represents(u, m, s, frames, a) && !Joins(p) && Placed(u, a, [Op(p, false)])
    requires |frames| <= below && Linked(u)
    ensures Follows(step, u, m, RunWord(u.code, p, s, below), frames, a + 1, fuel)
  {
    FetchOp(u, m, s, frames, a, p, false);
    if p == ToR && below + |s.r| < Depth {
      var m1 := SimGive(step, u, m, s, frames, a, fuel);
      StepTo(step, u, m, m1, Pop1(s).(r := [s.d[0]] + s.r), frames, a + 1, fuel);
    } else if (p == RFrom || p == RDrop) && s.r != [] {
      SimTake(step, u, m, s, frames, a, p, fuel);
    }
  }

  // ----- Control -----

  predicate Unroll(b: Body) { true }
  predicate UnrollItem(item: Item) { true }

  /** The code of a body at an address. Only where a proof unrolls the body is it known what that is. */
  ghost predicate IsCode(b: Body, a: nat, code: seq<Instr>) {
    forall k {:trigger Unroll(k)} :: Unroll(k) && k == b ==> code == Code(k, a)
  }

  ghost predicate IsItemCode(item: Item, a: nat, code: seq<Instr>) {
    forall k {:trigger UnrollItem(k)} :: UnrollItem(k) && k == item ==> code == ItemCode(k, a)
  }

  lemma MadeCode(b: Body, a: nat) returns (code: seq<Instr>)
    ensures IsCode(b, a, code) && |code| == Size(b)
  {
    code := Code(b, a);
  }

  lemma SeqCode(b: Body, a: nat, code: seq<Instr>) returns (first: seq<Instr>, rest: seq<Instr>)
    requires IsCode(b, a, code) && b.Seq? && !Fuses(b)
    ensures code == first + rest && IsItemCode(b.item, a, first) && IsCode(b.rest, a + |first|, rest)
  {
    assert Unroll(b);
    first := ItemCode(b.item, a);
    rest := Code(b.rest, a + |first|);
  }

  lemma FusedCode(b: Body, a: nat, code: seq<Instr>) returns (rest: seq<Instr>)
    requires IsCode(b, a, code) && Fuses(b)
    ensures code == [if b.item.Call? then JumpTo(b.item.name) else Op(b.item.prim, true)] + rest
    ensures IsCode(b.rest.rest, a + 1, rest)
  {
    assert Unroll(b);
    rest := Code(b.rest.rest, a + 1);
  }

  lemma EndCode(a: nat, code: seq<Instr>)
    requires IsCode(End, a, code)
    ensures code == []
  {
    assert Unroll(End);
  }

  lemma SimpleCode(item: Item, a: nat, code: seq<Instr>)
    requires IsItemCode(item, a, code)
    ensures match item
            case Primitive(p) => code == [Op(p, false)]
            case Number(n) => code == [Literal, Datum(n)]
            case Call(name) => code == [CallTo(name)]
            case Exit => code == [Instr.Leave]
            case Return => code == [Instr.Leave]
            case Index => code == [Op(RFetch, false)]
            case _ => true
  {
    assert UnrollItem(item);
  }

  lemma SkipCode(item: Item, a: nat, code: seq<Instr>) returns (word: seq<Instr>)
    requires IsItemCode(item, a, code) && item.Skip? && OneWord(item.word)
    ensures code == [Jump(9, a + 2)] + word && IsItemCode(item.word, a + 1, word) && |word| == 1
  {
    assert UnrollItem(item);
    word := ItemCode(item.word, a + 1);
  }

  lemma IfCode(item: Item, a: nat, code: seq<Instr>) returns (yes: seq<Instr>)
    requires IsItemCode(item, a, code) && item.If?
    ensures code == [Jump(9, a + 1 + |yes|)] + yes && IsCode(item.yes, a + 1, yes)
  {
    assert UnrollItem(item);
    yes := Code(item.yes, a + 1);
  }

  lemma IfElseParts(item: Item, a: nat, code: seq<Instr>) returns (yes: seq<Instr>, no: seq<Instr>)
    requires IsItemCode(item, a, code) && item.IfElse?
    ensures code == [Jump(9, a + 2 + |yes|)] + yes + [Jump(8, a + 2 + |yes| + |no|)] + no
    ensures IsCode(item.yes, a + 1, yes) && IsCode(item.no, a + 2 + |yes|, no)
  {
    assert UnrollItem(item);
    yes := Code(item.yes, a + 1);
    no := Code(item.no, a + 2 + |yes|);
    assert code == IfElseCode(yes, no, a);
  }

  lemma LoopCode(item: Item, a: nat, code: seq<Instr>) returns (body: seq<Instr>)
    requires IsItemCode(item, a, code) && (item.Until? || item.Forever?)
    ensures code == body + [Jump(if item.Until? then 9 else 8, a)] && IsCode(item.body, a, body)
  {
    assert UnrollItem(item);
    body := Code(item.body, a);
  }

  lemma WhileParts(item: Item, a: nat, code: seq<Instr>) returns (test: seq<Instr>, body: seq<Instr>)
    requires IsItemCode(item, a, code) && item.While?
    ensures code == test + [Jump(9, a + |test| + |body| + 2)] + body + [Jump(8, a)]
    ensures IsCode(item.test, a, test) && IsCode(item.body, a + |test| + 1, body)
  {
    assert UnrollItem(item);
    test := Code(item.test, a);
    body := Code(item.body, a + |test| + 1);
    assert code == WhileCode(test, body, a);
  }

  lemma CountParts(item: Item, a: nat, code: seq<Instr>) returns (body: seq<Instr>)
    requires IsItemCode(item, a, code) && item.Count?
    ensures code == [Op(ToR, false)] + [Jump(8, a + 2 + |body|)] + body + [Jump(if item.down then 11 else 10, a + 2)]
    ensures IsCode(item.body, a + 2, body)
  {
    assert UnrollItem(item);
    body := Code(item.body, a + 2);
    assert code == CountCode(item.down, body, a);
  }

  lemma PlacedAfter(u: Unit, a: nat, w: Instr, rest: seq<Instr>)
    requires Placed(u, a, [w] + rest)
    ensures Placed(u, a, [w]) && Placed(u, a + 1, rest)
  {
    PlacedParts(u, a, [w], rest);
  }

  lemma PlacedFour(u: Unit, a: nat, w: seq<Instr>, x: seq<Instr>, y: seq<Instr>, z: seq<Instr>, b: nat, c: nat, d: nat)
    requires Placed(u, a, w + x + y + z) && b == a + |w| && c == b + |x| && d == c + |y|
    ensures Placed(u, a, w) && Placed(u, b, x) && Placed(u, c, y) && Placed(u, d, z)
  {
    PlacedParts(u, a, w + x + y, z);
    PlacedParts(u, a, w + x, y);
    PlacedParts(u, a, w, x);
  }

  /** The parts of a counted loop. */
  lemma PlacedCount(u: Unit, item: Item, body: seq<Instr>, a: nat)
    requires item.Count?
    requires Placed(u, a, [Op(ToR, false)] + [Jump(8, a + 2 + |body|)] + body
                          + [Jump(if item.down then 11 else 10, a + 2)])
    ensures Placed(u, a, [Op(ToR, false)]) && Placed(u, a + 1, [Jump(8, a + 2 + |body|)]) && Placed(u, a + 2, body)
    ensures Placed(u, a + 2 + |body|, [Jump(if item.down then 11 else 10, a + 2)])
  {
    PlacedFour(u, a, [Op(ToR, false)], [Jump(8, a + 2 + |body|)], body, [Jump(if item.down then 11 else 10, a + 2)],
               a + 1, a + 2, a + 2 + |body|);
  }

  /** An unconditional jump. */
  lemma SimJump(step: Cpu -> Result, u: Unit, m: Cpu, s: State, frames: seq<Word>, a: nat, target: nat)
    requires Obeys(step) && Represents(u, m, s, frames, a) && Placed(u, a, [Jump(8, target)])
    requires Linked(u) && target < 0x1000
    ensures step(m) == Running(m.(pc := target)) && Represents(u, m.(pc := target), s, frames, target)
  {
    FetchJump(u, m, s, frames, a, 8, target);
    JumpSteps(step, m, target);
    Moved(u, m, s, frames, a, target, s.d);
  }

  /** A test of the top of the data stack. */
  lemma SimTest(step: Cpu -> Result, u: Unit, m: Cpu, s: State, frames: seq<Word>, a: nat, target: nat)
    returns (m1: Cpu)
    requires Obeys(step) && Represents(u, m, s, frames, a) && Placed(u, a, [Jump(9, target)])
    requires Linked(u) && target < 0x1000
    ensures step(m) == Running(m1)
    ensures Represents(u, m1, Pop1(s), frames, if s.d[0] == 0 then target else a + 1)
  {
    FetchJump(u, m, s, frames, a, 9, target);
    JumpIfZeroSteps(step, m, target);
    var pc := if s.d[0] == 0 then target else a + 1;
    Moved(u, m, s, frames, a, pc, Popped(s.d));
    m1 := m.(pc := pc, d := Popped(m.d));
  }

  /** Where a body that goes on has got to. */
  lemma Reached(step: Cpu -> Result, u: Unit, m: Cpu, s: State, frames: seq<Word>, pc: nat) returns (n: nat, m1: Cpu)
    requires Arrives(step, u, m, s, frames, pc)
    ensures Run(step, m, n) == Running(m1) && Represents(u, m1, s, frames, pc)
  {
    n :| Run(step, m, n).Running? && Represents(u, Run(step, m, n).cpu, s, frames, pc);
    m1 := Run(step, m, n).cpu;
  }

  /** An outcome other than going on does not depend on where the code ends. */
  lemma Elsewhere(step: Cpu -> Result, u: Unit, m: Cpu, o: Outcome, frames: seq<Word>, end: nat, end1: nat, fuel: nat)
    requires Follows(step, u, m, o, frames, end, fuel) && !o.Next?
    ensures Follows(step, u, m, o, frames, end1, fuel)
  {
  }

  /** A body is compiled correctly. */
  lemma {:induction false} SimBody(step: Cpu -> Result, u: Unit, b: Body, code: seq<Instr>, m: Cpu, s: State,
                                   frames: seq<Word>, a: nat, below: nat, fuel: nat)
    requires Obeys(step) && Represents(u, m, s, frames, a) && IsCode(b, a, code) && Placed(u, a, code)
    requires |frames| <= below && Linked(u)
    ensures Follows(step, u, m, RunBody(u, b, s, below, fuel), frames, a + |code|, fuel)
    decreases fuel, 0, b, 1
  {
    if b == End {
      EndCode(a, code);
      Arrived(step, u, m, s, frames, a);
    } else if Fuses(b) {
      SimFused(step, u, b, code, m, s, frames, a, below, fuel);
    } else {
      var first, rest := SeqCode(b, a, code);
      PlacedParts(u, a, first, rest);
      SimItem(step, u, b.item, first, m, s, frames, a, below, fuel);
      SimRest(step, u, b.rest, rest, m, RunItem(u, b.item, s, below, fuel), frames, a + |first|, below, fuel);
    }
  }

  /** The rest of a body, after something that ended where it begins. */
  lemma {:induction false} SimRest(step: Cpu -> Result, u: Unit, b: Body, code: seq<Instr>, m: Cpu, o: Outcome,
                                   frames: seq<Word>, mid: nat, below: nat, fuel: nat)
    requires Obeys(step) && IsCode(b, mid, code) && Placed(u, mid, code) && Follows(step, u, m, o, frames, mid, fuel)
    requires |frames| <= below && Linked(u)
    ensures Follows(step, u, m, if o.Next? then RunBody(u, b, o.s, below, fuel) else o, frames, mid + |code|, fuel)
    decreases fuel, 0, b, 2
  {
    if o.Next? {
      var n, m1 := Reached(step, u, m, o.s, frames, mid);
      SimBody(step, u, b, code, m1, o.s, frames, mid, below, fuel);
      Continue(step, u, m, n, m1, RunBody(u, b, o.s, below, fuel), frames, mid + |code|, fuel, fuel);
    } else {
      Elsewhere(step, u, m, o, frames, mid, mid + |code|, fuel);
    }
  }

  /**
   `;` joined to the word before it returns just as the word followed by EXIT would, also where a call has become a
   jump.
   */
  lemma {:induction false} SimFused(step: Cpu -> Result, u: Unit, b: Body, code: seq<Instr>, m: Cpu, s: State,
                                    frames: seq<Word>, a: nat, below: nat, fuel: nat)
    requires Obeys(step) && Represents(u, m, s, frames, a) && Fuses(b) && IsCode(b, a, code) && Placed(u, a, code)
    requires |frames| <= below && Linked(u)
    ensures Follows(step, u, m, RunBody(u, b, s, below, fuel), frames, a + |code|, fuel)
    decreases fuel, 0, b, 0
  {
    var rest := FusedCode(b, a, code);
    FusedRun(u, b, s, below, fuel);
    if b.item.Primitive? {
      PlacedAfter(u, a, Op(b.item.prim, true), rest);
      SimWord(step, u, m, s, frames, a, b.item.prim, true, below, fuel);
      Elsewhere(step, u, m, Exiting(RunWord(u.code, b.item.prim, s, below), true), frames, a + 1, a + |code|, fuel);
    } else {
      PlacedAfter(u, a, JumpTo(b.item.name), rest);
      SimTailCall(step, u, b.item, m, s, frames, a, a + |code|, below, fuel);
    }
  }

  lemma FusedRun(u: Unit, b: Body, s: State, below: nat, fuel: nat)
    requires Fuses(b)
    ensures var o := if b.item.Primitive? then RunWord(u.code, b.item.prim, s, below)
              else RunCall(u, b.item, s, below, fuel);
            RunBody(u, b, s, below, fuel) == Exiting(o, true) && !Exiting(o, true).Next?
  {
    var o := RunItem(u, b.item, s, below, fuel);
    if o.Next? {
      assert RunItem(u, Return, o.s, below, fuel) == Returned(o.s);
    }
  }

  lemma {:induction false} SimTailCall(step: Cpu -> Result, u: Unit, item: Item, m: Cpu, s: State, frames: seq<Word>,
                                       a: nat, end: nat, below: nat, fuel: nat)
    requires Obeys(step) && Represents(u, m, s, frames, a) && item.Call? && Placed(u, a, [JumpTo(item.name)])
    requires |frames| <= below && Linked(u)
    ensures Follows(step, u, m, Exiting(RunCall(u, item, s, below, fuel), true), frames, end, fuel)
    decreases fuel, 0, item, 0
  {
    var found := Find(u.defs, item.name, 0);
    if found.Some? && below + |s.r| < Depth && fuel > 0 {
      var k := found.value;
      FetchCall(u, m, s, frames, a, item.name, k);
      JumpSteps(step, m, Start(u.defs, k));
      var m1, s1, frames1 := m.(pc := Start(u.defs, k)), s.(r := []), s.r + frames;
      TailCalled(u, m, s, frames, a, Start(u.defs, k));
      SimFrom(step, u, k, m1, s1, frames1, below + |s.r| + 1, fuel - 1);
      var o := RunFrom(u, k, s1, below + |s.r| + 1, fuel - 1);
      TailReturns(step, u, m1, o, s.r, frames, end, fuel - 1);
      StepThen(step, u, m, m1, Exiting(Returning(o, s.r), true), frames, end, fuel - 1, fuel);
    }
  }

  lemma TailCalled(u: Unit, m: Cpu, s: State, frames: seq<Word>, a: nat, target: nat)
    requires Represents(u, m, s, frames, a)
    ensures Represents(u, m.(pc := target), s.(r := []), s.r + frames, target)
  {
    assert Open(m);
    assert [] + (s.r + frames) == s.r + frames;
  }

  /** The callee of a tail call returns for its caller. */
  lemma TailReturns(step: Cpu -> Result, u: Unit, m: Cpu, o: Outcome, r: seq<Word>, frames: seq<Word>, end: nat,
                    fuel: nat)
    requires Follows(step, u, m, o, r + frames, 0, fuel) && !o.Next?
    ensures Follows(step, u, m, Exiting(Returning(o, r), true), frames, end, fuel)
  {
    if o.Ret? && r == [] {
      assert r + frames == frames && o.s.(r := r) == o.s;
    } else if !o.Ret? {
      EitherFrames(step, u, m, o, r + frames, frames, 0, fuel);
      Elsewhere(step, u, m, o, frames, 0, end, fuel);
    }
  }

  lemma EitherFrames(step: Cpu -> Result, u: Unit, m: Cpu, o: Outcome, frames: seq<Word>, frames1: seq<Word>,
                     end: nat, fuel: nat)
    requires Follows(step, u, m, o, frames, end, fuel) && !o.Next? && !o.Ret?
    ensures Follows(step, u, m, o, frames1, end, fuel)
  {
  }

  lemma {:induction false} SimItem(step: Cpu -> Result, u: Unit, item: Item, code: seq<Instr>, m: Cpu, s: State,
                                   frames: seq<Word>, a: nat, below: nat, fuel: nat)
    requires Obeys(step) && Represents(u, m, s, frames, a) && IsItemCode(item, a, code) && Placed(u, a, code)
    requires |frames| <= below && Linked(u)
    ensures Follows(step, u, m, RunItem(u, item, s, below, fuel), frames, a + |code|, fuel)
    decreases fuel, 0, item, 3
  {
    if OneWord(item) || item.Number? {
      SimSimple(step, u, item, code, m, s, frames, a, below, fuel);
    } else if item.Skip? || item.If? || item.IfElse? {
      SimBranch(step, u, item, code, m, s, frames, a, below, fuel);
    } else {
      SimLoop(step, u, item, code, m, s, frames, a, below, fuel);
    }
  }

  lemma {:induction false} SimSimple(step: Cpu -> Result, u: Unit, item: Item, code: seq<Instr>, m: Cpu, s: State,
                                     frames: seq<Word>, a: nat, below: nat, fuel: nat)
    requires Obeys(step) && Represents(u, m, s, frames, a) && IsItemCode(item, a, code) && Placed(u, a, code)
    requires |frames| <= below && Linked(u) && (OneWord(item) || item.Number?)
    ensures Follows(step, u, m, RunItem(u, item, s, below, fuel), frames, a + |code|, fuel)
    decreases fuel, 0, item, 2
  {
    SimpleCode(item, a, code);
    if item.Primitive? {
      if Joins(item.prim) { SimWord(step, u, m, s, frames, a, item.prim, false, below, fuel); }
      else { SimReturnWord(step, u, m, s, frames, a, item.prim, below, fuel); }
    } else if item.Number? {
      SimNumber(step, u, m, s, frames, a, item.n, fuel);
    } else if item.Index? {
      SimIndex(step, u, m, s, frames, a, fuel);
    } else if item.Call? {
      SimCall(step, u, item, m, s, frames, a, below, fuel);
    } else {
      SimExit(step, u, m, s, frames, a, fuel);
    }
  }

  lemma {:induction false} SimBranch(step: Cpu -> Result, u: Unit, item: Item, code: seq<Instr>, m: Cpu, s: State,
                                     frames: seq<Word>, a: nat, below: nat, fuel: nat)
    requires Obeys(step) && Represents(u, m, s, frames, a) && IsItemCode(item, a, code) && Placed(u, a, code)
    requires |frames| <= below && Linked(u) && (item.Skip? || item.If? || item.IfElse?)
    ensures Follows(step, u, m, RunItem(u, item, s, below, fuel), frames, a + |code|, fuel)
    decreases fuel, 0, item, 2
  {
    if item.Skip? {
      if OneWord(item.word) {
        var word := SkipCode(item, a, code);
        PlacedAfter(u, a, Jump(9, a + 2), word);
        SimSkip(step, u, item, word, m, s, frames, a, below, fuel);
      }
    } else if item.If? {
      var yes := IfCode(item, a, code);
      PlacedAfter(u, a, Jump(9, a + 1 + |yes|), yes);
      SimIf(step, u, item, yes, m, s, frames, a, below, fuel);
    } else {
      var yes, no := IfElseParts(item, a, code);
      var other := a + 2 + |yes|;
      PlacedFour(u, a, [Jump(9, other)], yes, [Jump(8, other + |no|)], no, a + 1, other - 1, other);
      SimIfElse(step, u, item, yes, no, m, s, frames, a, below, fuel);
    }
  }

  lemma {:induction false} SimLoop(step: Cpu -> Result, u: Unit, item: Item, code: seq<Instr>, m: Cpu, s: State,
                                   frames: seq<Word>, a: nat, below: nat, fuel: nat)
    requires Obeys(step) && Represents(u, m, s, frames, a) && IsItemCode(item, a, code) && Placed(u, a, code)
    requires |frames| <= below && Linked(u) && (item.Until? || item.Forever? || item.While? || item.Count?)
    ensures Follows(step, u, m, RunItem(u, item, s, below, fuel), frames, a + |code|, fuel)
    decreases fuel, 0, item, 2
  {
    if item.While? {
      var test, body := WhileParts(item, a, code);
      var inside := a + |test| + 1;
      PlacedFour(u, a, test, [Jump(9, inside + |body| + 1)], body, [Jump(8, a)], inside - 1, inside, inside + |body|);
      SimWhile(step, u, item, test, body, m, s, frames, a, below, fuel);
    } else if item.Count? {
      if below + |s.r| < Depth {
        var body := CountParts(item, a, code);
        PlacedCount(u, item, body, a);
        SimCounted(step, u, item, body, m, s, frames, a, below, fuel);
      }
    } else {
      var body := LoopCode(item, a, code);
      PlacedParts(u, a, body, [Jump(if item.Until? then 9 else 8, a)]);
      if item.Until? { SimUntil(step, u, item, body, m, s, frames, a, below, fuel); }
      else { SimForever(step, u, item, body, m, s, frames, a, below, fuel); }
    }
  }

  lemma SimNumber(step: Cpu -> Result, u: Unit, m: Cpu, s: State, frames: seq<Word>, a: nat, n: int, fuel: nat)
    requires Obeys(step) && Represents(u, m, s, frames, a) && Placed(u, a, [Literal, Datum(n)]) && Linked(u)
    ensures Follows(step, u, m, Next(Push1(s, Low16(n))), frames, a + 2, fuel)
  {
    FetchNumber(u, m, s, frames, a, Literal, n);
    LiteralSteps(step, m, Low16(n));
    Moved(u, m, s, frames, a, a + 2, Pushed(s.d, Low16(n)));
    StepTo(step, u, m, m.(pc := a + 2, d := Pushed(m.d, Low16(n))), Push1(s, Low16(n)), frames, a + 2, fuel);
  }

  lemma SimExit(step: Cpu -> Result, u: Unit, m: Cpu, s: State, frames: seq<Word>, a: nat, fuel: nat)
    requires Obeys(step) && Represents(u, m, s, frames, a) && Placed(u, a, [Instr.Leave]) && Linked(u)
    ensures Follows(step, u, m, Returned(s), frames, a + 1, fuel)
  {
    FetchLeave(u, m, s, frames, a);
    ExitSteps(step, m);
    WordEnds(step, u, m, m, s, frames, a, true, s.d, fuel);
  }

  lemma SimIndex(step: Cpu -> Result, u: Unit, m: Cpu, s: State, frames: seq<Word>, a: nat, fuel: nat)
    requires Obeys(step) && Represents(u, m, s, frames, a) && Placed(u, a, [Op(RFetch, false)]) && Linked(u)
    ensures Follows(step, u, m, if s.r == [] then Stray else Next(Push1(s, s.r[0])), frames, a + 1, fuel)
  {
    FetchOp(u, m, s, frames, a, RFetch, false);
    if s.r != [] { SimFetchTop(step, u, m, s, frames, a, fuel); }
  }

  /** A call returns to the word after it, with the caller's entries on the return stack as they were. */
  lemma {:induction false} SimCall(step: Cpu -> Result, u: Unit, item: Item, m: Cpu, s: State, frames: seq<Word>,
                                   a: nat, below: nat, fuel: nat)
    requires Obeys(step) && Represents(u, m, s, frames, a) && item.Call? && Placed(u, a, [CallTo(item.name)])
    requires |frames| <= below && Linked(u)
    ensures Follows(step, u, m, RunCall(u, item, s, below, fuel), frames, a + 1, fuel)
    decreases fuel, 0, item, 0
  {
    var found := Find(u.defs, item.name, 0);
    if found.Some? && below + |s.r| < Depth && fuel > 0 {
      var k := found.value;
      FetchCall(u, m, s, frames, a, item.name, k);
      CallSteps(step, m, Start(u.defs, k));
      var s1, back := s.(r := []), a + 1;
      var m1, frames1 := m.(pc := Start(u.defs, k), r := Pushed(m.r, back)), [back as Word] + (s.r + frames);
      Called(u, m, s, frames, a, back, Start(u.defs, k));
      SimFrom(step, u, k, m1, s1, frames1, below + |s.r| + 1, fuel - 1);
      var o := RunFrom(u, k, s1, below + |s.r| + 1, fuel - 1);
      CallReturns(step, u, m1, o, s.r, frames, back, fuel - 1);
      StepThen(step, u, m, m1, Returning(o, s.r), frames, back, fuel - 1, fuel);
    }
  }

  /** When the callee is back, the caller's entries are on the return stack again. */
  lemma CallReturns(step: Cpu -> Result, u: Unit, m: Cpu, o: Outcome, r: seq<Word>, frames: seq<Word>, back: Word,
                    fuel: nat)
    requires Follows(step, u, m, o, [back] + (r + frames), 0, fuel) && !o.Next? && back < 0x1000
    ensures Follows(step, u, m, Returning(o, r), frames, back, fuel)
  {
    var frames1 := [back] + (r + frames);
    if o.Ret? {
      assert frames1[1..] == r + frames;
      var n, m2 := Reached(step, u, m, o.s, r + frames, back);
      CallerBack(u, m2, o.s, r, frames, back);
      Arrived(step, u, m2, o.s.(r := r), frames, back);
      ArriveLater(step, u, m, n, m2, o.s.(r := r), frames, back);
    } else {
      EitherFrames(step, u, m, o, frames1, frames, 0, fuel);
      Elsewhere(step, u, m, o, frames, 0, back, fuel);
    }
  }

  lemma CallerBack(u: Unit, m: Cpu, s: State, r: seq<Word>, frames: seq<Word>, back: nat)
    requires Represents(u, m, s, r + frames, back) && s.r == []
    ensures Represents(u, m, s.(r := r), frames, back)
  {
    assert Open(m);
    assert s.r + (r + frames) == r + frames;
  }

  lemma Called(u: Unit, m: Cpu, s: State, frames: seq<Word>, a: nat, back: Word, target: nat)
    requires Represents(u, m, s, frames, a) && |s.r| + |frames| < Depth
    ensures Represents(u, m.(pc := target, r := Pushed(m.r, back)), s.(r := []), [back] + (s.r + frames), target)
  {
    assert Open(m);
    PushHolds(m.r, s.r + frames, back);
    assert [] + ([back] + (s.r + frames)) == [back] + (s.r + frames);
  }

  lemma {:induction false} SimSkip(step: Cpu -> Result, u: Unit, item: Item, word: seq<Instr>, m: Cpu, s: State,
                                   frames: seq<Word>, a: nat, below: nat, fuel: nat)
    requires Obeys(step) && Represents(u, m, s, frames, a) && item.Skip? && OneWord(item.word)
    requires IsItemCode(item.word, a + 1, word) && |word| == 1
    requires Placed(u, a, [Jump(9, a + 2)]) && Placed(u, a + 1, word) && |frames| <= below && Linked(u)
    ensures Follows(step, u, m, if s.d[0] == 0 then Next(Pop1(s)) else RunItem(u, item.word, Pop1(s), below, fuel),
                    frames, a + 2, fuel)
    decreases fuel, 0, item, 0
  {
    var m1 := SimTest(step, u, m, s, frames, a, a + 2);
    if s.d[0] == 0 {
      StepTo(step, u, m, m1, Pop1(s), frames, a + 2, fuel);
    } else {
      SimSimple(step, u, item.word, word, m1, Pop1(s), frames, a + 1, below, fuel);
      StepThen(step, u, m, m1, RunItem(u, item.word, Pop1(s), below, fuel), frames, a + 2, fuel, fuel);
    }
  }

  lemma {:induction false} SimIf(step: Cpu -> Result, u: Unit, item: Item, yes: seq<Instr>, m: Cpu, s: State,
                                 frames: seq<Word>, a: nat, below: nat, fuel: nat)
    requires Obeys(step) && Represents(u, m, s, frames, a) && item.If? && IsCode(item.yes, a + 1, yes)
    requires Placed(u, a, [Jump(9, a + 1 + |yes|)]) && Placed(u, a + 1, yes) && |frames| <= below && Linked(u)
    ensures Follows(step, u, m, if s.d[0] == 0 then Next(Pop1(s)) else RunBody(u, item.yes, Pop1(s), below, fuel),
                    frames, a + 1 + |yes|, fuel)
    decreases fuel, 0, item, 0
  {
    var end := a + 1 + |yes|;
    var m1 := SimTest(step, u, m, s, frames, a, end);
    if s.d[0] == 0 {
      StepTo(step, u, m, m1, Pop1(s), frames, end, fuel);
    } else {
      SimBody(step, u, item.yes, yes, m1, Pop1(s), frames, a + 1, below, fuel);
      StepThen(step, u, m, m1, RunBody(u, item.yes, Pop1(s), below, fuel), frames, end, fuel, fuel);
    }
  }

  lemma {:induction false} SimIfElse(step: Cpu -> Result, u: Unit, item: Item, yes: seq<Instr>, no: seq<Instr>,
                                     m: Cpu, s: State, frames: seq<Word>, a: nat, below: nat, fuel: nat)
    requires Obeys(step) && Represents(u, m, s, frames, a) && item.IfElse? && IsCode(item.yes, a + 1, yes)
    requires IsCode(item.no, a + 2 + |yes|, no)
    requires var other := a + 2 + |yes|;
             && Placed(u, a, [Jump(9, other)]) && Placed(u, a + 1, yes)
             && Placed(u, other - 1, [Jump(8, other + |no|)]) && Placed(u, other, no)
    requires |frames| <= below && Linked(u)
    ensures Follows(step, u, m, RunBody(u, if s.d[0] == 0 then item.no else item.yes, Pop1(s), below, fuel),
                    frames, a + 2 + |yes| + |no|, fuel)
    decreases fuel, 0, item, 0
  {
    var other := a + 2 + |yes|;
    var end := other + |no|;
    var m1 := SimTest(step, u, m, s, frames, a, other);
    var o := RunBody(u, if s.d[0] == 0 then item.no else item.yes, Pop1(s), below, fuel);
    if s.d[0] == 0 {
      SimBody(step, u, item.no, no, m1, Pop1(s), frames, other, below, fuel);
    } else {
      SimBody(step, u, item.yes, yes, m1, Pop1(s), frames, a + 1, below, fuel);
      JumpOver(step, u, m1, o, frames, other - 1, end, fuel);
    }
    StepThen(step, u, m, m1, o, frames, end, fuel, fuel);
  }

  /** A jump after the code takes what goes on to its target. */
  lemma JumpOver(step: Cpu -> Result, u: Unit, m: Cpu, o: Outcome, frames: seq<Word>, mid: nat, end: nat, fuel: nat)
    requires Obeys(step) && Follows(step, u, m, o, frames, mid, fuel) && Placed(u, mid, [Jump(8, end)])
    requires Linked(u) && end < 0x1000
    ensures Follows(step, u, m, o, frames, end, fuel)
  {
    if o.Next? {
      var n, m1 := Reached(step, u, m, o.s, frames, mid);
      SimJump(step, u, m1, o.s, frames, mid, end);
      StepTo(step, u, m1, m1.(pc := end), o.s, frames, end, fuel);
      Continue(step, u, m, n, m1, o, frames, end, fuel, fuel);
    } else {
      Elsewhere(step, u, m, o, frames, mid, end, fuel);
    }
  }

  lemma {:induction false} SimUntil(step: Cpu -> Result, u: Unit, item: Item, body: seq<Instr>, m: Cpu, s: State,
                                    frames: seq<Word>, a: nat, below: nat, fuel: nat)
    requires Obeys(step) && Represents(u, m, s, frames, a) && item.Until? && IsCode(item.body, a, body)
    requires Placed(u, a, body) && Placed(u, a + |body|, [Jump(9, a)]) && |frames| <= below && Linked(u)
    ensures Follows(step, u, m, RunUntil(u, item, s, below, fuel), frames, a + |body| + 1, fuel)
    decreases fuel, 0, item, 0
  {
    var mid := a + |body|;
    SimBody(step, u, item.body, body, m, s, frames, a, below, fuel);
    var o, all := RunBody(u, item.body, s, below, fuel), RunUntil(u, item, s, below, fuel);
    if o.Next? {
      var n, m1 := Reached(step, u, m, o.s, frames, mid);
      var m2 := SimTest(step, u, m1, o.s, frames, mid, a);
      if o.s.d[0] != 0 {
        StepTo(step, u, m1, m2, Pop1(o.s), frames, mid + 1, fuel);
      } else if fuel > 0 {
        SimUntil(step, u, item, body, m2, Pop1(o.s), frames, a, below, fuel - 1);
        StepThen(step, u, m1, m2, all, frames, mid + 1, fuel - 1, fuel);
      }
      Continue(step, u, m, n, m1, all, frames, mid + 1, fuel, fuel);
    } else {
      Elsewhere(step, u, m, o, frames, mid, mid + 1, fuel);
    }
  }

  lemma {:induction false} SimForever(step: Cpu -> Result, u: Unit, item: Item, body: seq<Instr>, m: Cpu, s: State,
                                      frames: seq<Word>, a: nat, below: nat, fuel: nat)
    requires Obeys(step) && Represents(u, m, s, frames, a) && item.Forever? && IsCode(item.body, a, body)
    requires Placed(u, a, body) && Placed(u, a + |body|, [Jump(8, a)]) && |frames| <= below && Linked(u)
    ensures Follows(step, u, m, RunForever(u, item, s, below, fuel), frames, a + |body| + 1, fuel)
    decreases fuel, 0, item, 0
  {
    var mid := a + |body|;
    SimBody(step, u, item.body, body, m, s, frames, a, below, fuel);
    var o, all := RunBody(u, item.body, s, below, fuel), RunForever(u, item, s, below, fuel);
    if o.Next? {
      var n, m1 := Reached(step, u, m, o.s, frames, mid);
      SimJump(step, u, m1, o.s, frames, mid, a);
      if fuel > 0 {
        SimForever(step, u, item, body, m1.(pc := a), o.s, frames, a, below, fuel - 1);
        StepThen(step, u, m1, m1.(pc := a), all, frames, mid + 1, fuel - 1, fuel);
      }
      Continue(step, u, m, n, m1, all, frames, mid + 1, fuel, fuel);
    } else {
      Elsewhere(step, u, m, o, frames, mid, mid + 1, fuel);
    }
  }

  /** Where the parts of a WHILE loop are. */
  ghost predicate WhileAt(u: Unit, item: Item, a: nat, test: seq<Instr>, body: seq<Instr>) {
    var inside := a + |test| + 1;
    && item.While? && IsCode(item.test, a, test) && IsCode(item.body, inside, body)
    && Placed(u, a, test) && Placed(u, inside - 1, [Jump(9, inside + |body| + 1)])
    && Placed(u, inside, body) && Placed(u, inside + |body|, [Jump(8, a)])
  }

  lemma {:induction false} SimWhile(step: Cpu -> Result, u: Unit, item: Item, test: seq<Instr>, body: seq<Instr>,
                                    m: Cpu, s: State, frames: seq<Word>, a: nat, below: nat, fuel: nat)
    requires Obeys(step) && Represents(u, m, s, frames, a) && WhileAt(u, item, a, test, body) && |frames| <= below
    requires Linked(u)
    ensures Follows(step, u, m, RunWhile(u, item, s, below, fuel), frames, a + |test| + |body| + 2, fuel)
    decreases fuel, 0, item, 1
  {
    var mid, end := a + |test|, a + |test| + |body| + 2;
    SimBody(step, u, item.test, test, m, s, frames, a, below, fuel);
    var o, all := RunBody(u, item.test, s, below, fuel), RunWhile(u, item, s, below, fuel);
    if o.Next? {
      var n, m1 := Reached(step, u, m, o.s, frames, mid);
      var m2 := SimTest(step, u, m1, o.s, frames, mid, end);
      if o.s.d[0] == 0 {
        StepTo(step, u, m1, m2, Pop1(o.s), frames, end, fuel);
      } else {
        SimInside(step, u, item, test, body, m2, Pop1(o.s), frames, a, below, fuel);
        StepThen(step, u, m1, m2, all, frames, end, fuel, fuel);
      }
      Continue(step, u, m, n, m1, all, frames, end, fuel, fuel);
    } else {
      Elsewhere(step, u, m, o, frames, mid, end, fuel);
    }
  }

  /** Past the test of a WHILE loop. */
  lemma {:induction false} SimInside(step: Cpu -> Result, u: Unit, item: Item, test: seq<Instr>, body: seq<Instr>,
                                     m: Cpu, s: State, frames: seq<Word>, a: nat, below: nat, fuel: nat)
    requires Obeys(step) && WhileAt(u, item, a, test, body) && Represents(u, m, s, frames, a + |test| + 1)
    requires |frames| <= below && Linked(u)
    ensures Follows(step, u, m, RunInside(u, item, s, below, fuel), frames, a + |test| + |body| + 2, fuel)
    decreases fuel, 0, item, 0
  {
    var inside := a + |test| + 1;
    var mid := inside + |body|;
    SimBody(step, u, item.body, body, m, s, frames, inside, below, fuel);
    var o, all := RunBody(u, item.body, s, below, fuel), RunInside(u, item, s, below, fuel);
    if o.Next? {
      var n, m1 := Reached(step, u, m, o.s, frames, mid);
      SimJump(step, u, m1, o.s, frames, mid, a);
      if fuel > 0 {
        SimWhile(step, u, item, test, body, m1.(pc := a), o.s, frames, a, below, fuel - 1);
        StepThen(step, u, m1, m1.(pc := a), all, frames, mid + 1, fuel - 1, fuel);
      }
      Continue(step, u, m, n, m1, all, frames, mid + 1, fuel, fuel);
    } else {
      Elsewhere(step, u, m, o, frames, mid, mid + 1, fuel);
    }
  }

  /** Where the body and the test of a counted loop are. */
  ghost predicate CountAt(u: Unit, item: Item, inside: nat, body: seq<Instr>) {
    && item.Count? && IsCode(item.body, inside, body)
    && Placed(u, inside, body) && Placed(u, inside + |body|, [Jump(if item.down then 11 else 10, inside)])
  }

  lemma {:induction false} SimCounted(step: Cpu -> Result, u: Unit, item: Item, body: seq<Instr>, m: Cpu, s: State,
                                      frames: seq<Word>, a: nat, below: nat, fuel: nat)
    requires Obeys(step) && Represents(u, m, s, frames, a) && CountAt(u, item, a + 2, body) && below + |s.r| < Depth
    requires Placed(u, a, [Op(ToR, false)]) && Placed(u, a + 1, [Jump(8, a + 2 + |body|)]) && |frames| <= below
    requires Linked(u)
    ensures Follows(step, u, m, RunCount(u, item, Pop1(s).(r := [s.d[0]] + s.r), below, fuel),
                    frames, a + |body| + 3, fuel)
    decreases fuel, 0, item, 1
  {
    var test := a + 2 + |body|;
    FetchOp(u, m, s, frames, a, ToR, false);
    var m1 := SimGive(step, u, m, s, frames, a, fuel);
    var s1 := Pop1(s).(r := [s.d[0]] + s.r);
    SimJump(step, u, m1, s1, frames, a + 1, test);
    SimCount(step, u, item, body, m1.(pc := test), s1, frames, a + 2, below, fuel);
    var o := RunCount(u, item, s1, below, fuel);
    StepThen(step, u, m1, m1.(pc := test), o, frames, test + 1, fuel, fuel);
    StepThen(step, u, m, m1, o, frames, test + 1, fuel, fuel);
  }

  /** One test of the counter. */
  lemma CounterSteps(step: Cpu -> Result, u: Unit, item: Item, body: seq<Instr>, m: Cpu, s: State, frames: seq<Word>,
                     inside: nat)
    returns (m1: Cpu)
    requires Obeys(step) && CountAt(u, item, inside, body) && Linked(u)
    requires Represents(u, m, s, frames, inside + |body|) && s.r != []
    ensures step(m) == Running(m1)
    ensures s.r[0] == 0 ==> Represents(u, m1, s.(r := s.r[1..]), frames, inside + |body| + 1)
    ensures s.r[0] != 0 ==> Represents(u, m1, s.(r := [Counted(s.r[0], item.down)] + s.r[1..]), frames, inside)
  {
    var test, x := inside + |body|, Counted(s.r[0], item.down);
    FetchJump(u, m, s, frames, test, if item.down then 11 else 10, inside);
    CountSteps(step, m, inside, item.down);
    MovedPop(u, m, s, frames, test, test + 1, s.d);
    MovedSet(u, m, s, frames, test, inside, x);
    m1 := if s.r[0] == 0 then m.(pc := test + 1, r := Popped(m.r)) else m.(pc := inside, r := m.r[0 := x]);
  }

  /** A counted loop from its test on. */
  lemma {:induction false} SimCount(step: Cpu -> Result, u: Unit, item: Item, body: seq<Instr>, m: Cpu, s: State,
                                    frames: seq<Word>, inside: nat, below: nat, fuel: nat)
    requires Obeys(step) && CountAt(u, item, inside, body) && Represents(u, m, s, frames, inside + |body|)
    requires |frames| <= below && Linked(u)
    ensures Follows(step, u, m, RunCount(u, item, s, below, fuel), frames, inside + |body| + 1, fuel)
    decreases fuel, 0, item, 0
  {
    var test := inside + |body|;
    if s.r != [] {
      var m1 := CounterSteps(step, u, item, body, m, s, frames, inside);
      if s.r[0] == 0 {
        StepTo(step, u, m, m1, s.(r := s.r[1..]), frames, test + 1, fuel);
      } else if fuel > 0 {
        SimCountBody(step, u, item, body, m1, s.(r := [Counted(s.r[0], item.down)] + s.r[1..]), frames, inside, below,
                     fuel - 1);
        StepThen(step, u, m, m1, RunCount(u, item, s, below, fuel), frames, test + 1, fuel - 1, fuel);
      }
    }
  }

  lemma {:induction false} SimCountBody(step: Cpu -> Result, u: Unit, item: Item, body: seq<Instr>, m: Cpu, s: State,
                                        frames: seq<Word>, inside: nat, below: nat, fuel: nat)
    requires Obeys(step) && CountAt(u, item, inside, body) && Represents(u, m, s, frames, inside) && |frames| <= below
    requires Linked(u)
    ensures Follows(step, u, m, RunCounted(u, item, s, below, fuel), frames, inside + |body| + 1, fuel)
    decreases fuel, 0, item, 1
  {
    var test := inside + |body|;
    SimBody(step, u, item.body, body, m, s, frames, inside, below, fuel);
    var o := RunBody(u, item.body, s, below, fuel);
    if o.Next? {
      var n, m1 := Reached(step, u, m, o.s, frames, test);
      SimCount(step, u, item, body, m1, o.s, frames, inside, below, fuel);
      Continue(step, u, m, n, m1, RunCount(u, item, o.s, below, fuel), frames, test + 1, fuel, fuel);
    } else {
      Elsewhere(step, u, m, o, frames, test, test + 1, fuel);
    }
  }

  // ----- Definitions -----

  lemma SimConstant(step: Cpu -> Result, u: Unit, m: Cpu, s: State, frames: seq<Word>, a: nat, n: int, fuel: nat)
    requires Obeys(step) && Represents(u, m, s, frames, a) && Placed(u, a, [Constant, Datum(n)]) && Linked(u)
    ensures Follows(step, u, m, Returned(Push1(s, Low16(n))), frames, 0, fuel)
  {
    FetchNumber(u, m, s, frames, a, Constant, n);
    ConstantSteps(step, m, Low16(n));
    WordEnds(step, u, m, m, s, frames, a, true, Pushed(s.d, Low16(n)), fuel);
    Elsewhere(step, u, m, Returned(Push1(s, Low16(n))), frames, a + 1, 0, fuel);
  }

  /** A program is compiled correctly, from the start of any of its definitions on. */
  lemma {:induction false} SimFrom(step: Cpu -> Result, u: Unit, k: nat, m: Cpu, s: State, frames: seq<Word>,
                                   below: nat, fuel: nat)
    requires Obeys(step) && k <= |u.defs| && Represents(u, m, s, frames, Start(u.defs, k))
    requires |frames| <= below && Linked(u)
    ensures Follows(step, u, m, RunFrom(u, k, s, below, fuel), frames, 0, fuel)
    decreases fuel, 1 + |u.defs| - k, End, 0
  {
    var a := Start(u.defs, k);
    assert Here(u, k);
    if k == |u.defs| {
      EndHalts(step, u, m, s, frames);
    } else if u.defs[k].Define? {
      var body := u.defs[k].body;
      var code := MadeCode(body, a);
      assert Unroll(body);
      SimBody(step, u, body, code, m, s, frames, a, below, fuel);
      SimNext(step, u, k, m, RunBody(u, body, s, below, fuel), frames, below, fuel);
    } else if u.defs[k].DefineConstant? {
      SimConstant(step, u, m, s, frames, a, u.defs[k].n, fuel);
    } else if u.defs[k].DefineVariable? {
      SimConstant(step, u, m, s, frames, a, a + 2, fuel);
    }
  }

  /** A word that does not return runs on into the next definition. */
  lemma {:induction false} SimNext(step: Cpu -> Result, u: Unit, k: nat, m: Cpu, o: Outcome, frames: seq<Word>,
                                   below: nat, fuel: nat)
    requires Obeys(step) && k < |u.defs| && u.defs[k].Define? && |frames| <= below && Linked(u)
    requires Follows(step, u, m, o, frames, Start(u.defs, k) + Size(u.defs[k].body), fuel)
    ensures Follows(step, u, m, if o.Next? then RunFrom(u, k + 1, o.s, below, fuel) else o, frames, 0, fuel)
    decreases fuel, 1 + |u.defs| - k - 1, End, 1
  {
    var end := Start(u.defs, k) + Size(u.defs[k].body);
    if o.Next? {
      var n, m1 := Reached(step, u, m, o.s, frames, end);
      SimFrom(step, u, k + 1, m1, o.s, frames, below, fuel);
      Continue(step, u, m, n, m1, RunFrom(u, k + 1, o.s, below, fuel), frames, 0, fuel, fuel);
    } else {
      Elsewhere(step, u, m, o, frames, end, 0, fuel);
    }
  }

  lemma EndHalts(step: Cpu -> Result, u: Unit, m: Cpu, s: State, frames: seq<Word>)
    requires Obeys(step) && Represents(u, m, s, frames, |u.code|) && Linked(u)
    ensures exists n :: Run(step, m, n) == Halted
  {
    assert Open(m);
    var end: Address := |u.code|;
    assert end !in m.mem;
    Opens(step, m, Execute(m));
    StepHalts(step, m);
  }

  // ----- Linking -----

  lemma {:induction false} StartGrows(defs: seq<Definition>, j: nat, k: nat)
    requires j <= k <= |defs|
    ensures Start(defs, j) <= Start(defs, k)
    ensures j < k ==> Start(defs, j) + DefinitionSize(defs[j]) <= Start(defs, k)
    decreases k
  {
    if j < k { StartGrows(defs, j, k - 1); }
  }

  lemma CellInside(defs: seq<Definition>, j: nat, x: nat)
    requires j < |defs| && CellOf(defs, j) == Some(x)
    ensures defs[j].Allocate? || (defs[j].DefineVariable? && x == Start(defs, j) + 2)
    ensures Start(defs, j) <= x < Start(defs, j) + DefinitionSize(defs[j])
  {
  }

  lemma NotACell(defs: seq<Definition>, k: nat, x: nat)
    requires k < |defs| && !defs[k].Allocate?
    requires Start(defs, k) <= x < Start(defs, k) + DefinitionSize(defs[k])
    requires defs[k].DefineVariable? ==> x < Start(defs, k) + 2
    ensures !IsCell(defs, x)
  {
    if IsCell(defs, x) {
      var j :| 0 <= j < |defs| && CellOf(defs, j) == Some(x);
      CellInside(defs, j, x);
      if j < k { StartGrows(defs, j, k); }
      if k < j { StartGrows(defs, k, j); }
      assert false;
    }
  }

  predicate Part(k: nat) { true }

  /** The code of a definition, known only where a proof asks for the part. */
  ghost predicate IsPart(defs: seq<Definition>, k: nat, part: seq<Instr>) {
    && k < |defs| && |part| == DefinitionSize(defs[k])
    && forall j: nat {:trigger Part(j)} :: Part(j) && j == k ==> part == DefinitionCode(defs[j], Start(defs, j))
  }

  predicate To(n: nat) { true }

  /** The code of the first n definitions, likewise. */
  ghost predicate IsCodeTo(defs: seq<Definition>, n: nat, code: seq<Instr>) {
    && n <= |defs| && |code| + 1 == Start(defs, n)
    && forall j: nat {:trigger To(j)} :: To(j) && j == n ==> code == CodeTo(defs, j)
  }

  lemma LastPart(defs: seq<Definition>, n: nat, code: seq<Instr>) returns (before: seq<Instr>, part: seq<Instr>)
    requires 0 < n && IsCodeTo(defs, n, code)
    ensures code == before + part && IsCodeTo(defs, n - 1, before) && IsPart(defs, n - 1, part)
  {
    assert To(n);
    before, part := CodeTo(defs, n - 1), DefinitionCode(defs[n - 1], Start(defs, n - 1));
  }

  lemma SliceOfSum<T>(s: seq<T>, t: seq<T>, i: nat, j: nat)
    requires i <= j
    ensures j <= |s| ==> (s + t)[i..j] == s[i..j]
    ensures i == |s| && j == |s| + |t| ==> (s + t)[i..j] == t
  {
  }

  lemma {:induction false} CodeAt(defs: seq<Definition>, k: nat, n: nat, code: seq<Instr>) returns (part: seq<Instr>)
    requires k < n && IsCodeTo(defs, n, code)
    ensures IsPart(defs, k, part) && Start(defs, k) - 1 + |part| <= |code|
    ensures code[Start(defs, k) - 1..Start(defs, k) - 1 + |part|] == part
    decreases n
  {
    var before, last := LastPart(defs, n, code);
    var a := Start(defs, k) - 1;
    part := last;
    if k < n - 1 { part := CodeAt(defs, k, n - 1, before); }
    SliceOfSum(before, last, a, a + |part|);
  }

  /** The image is the code after the bootstrap word. */
  ghost predicate Assembled(u: Unit, code: seq<Instr>) {
    && |u.code| == |code| + 1 < 0x1000
    && forall x {:trigger Nth(code, x)} :: 0 <= x < |code| ==> u.code[x + 1] == Assemble(u.defs, Nth(code, x))
  }

  lemma ImageAssembled(defs: seq<Definition>)
    requires |Image(defs)| < 0x1000
    ensures Assembled(Unit(defs, Image(defs)), CodeTo(defs, |defs|))
  {
  }

  lemma PartPlaced(u: Unit, all: seq<Instr>, a: nat, part: seq<Instr>, code: seq<Instr>)
    requires Assembled(u, all) && a >= 1 && a - 1 + |part| <= |all| && all[a - 1..a - 1 + |part|] == part
    requires |code| <= |part| && forall i :: 0 <= i < |code| ==> Nth(code, i) == Nth(part, i)
    requires forall i :: a <= i < a + |code| ==> !IsCell(u.defs, i)
    ensures Placed(u, a, code)
  {
    forall i | 0 <= i < |code| ensures PlacedAt(u, a + i, Nth(code, i)) {
      assert Nth(code, i) == Nth(part, i) == Nth(all, a - 1 + i);
    }
  }

  lemma DefinitionHere(u: Unit, k: nat)
    requires k <= |u.defs| && Assembled(u, CodeTo(u.defs, |u.defs|))
    ensures Here(u, k)
  {
    StartGrows(u.defs, k, |u.defs|);
    if k < |u.defs| && !u.defs[k].Allocate? {
      var part := CodeAt(u.defs, k, |u.defs|, CodeTo(u.defs, |u.defs|));
      var a, code := Start(u.defs, k), Executed(u.defs, k);
      ExecutedPart(u.defs, k, part, code);
      forall x | a <= x < a + |code| ensures !IsCell(u.defs, x) {
        NotACell(u.defs, k, x);
      }
      PartPlaced(u, CodeTo(u.defs, |u.defs|), a, part, code);
    }
  }

  lemma ExecutedPart(defs: seq<Definition>, k: nat, part: seq<Instr>, code: seq<Instr>)
    requires k < |defs| && !defs[k].Allocate? && IsPart(defs, k, part) && code == Executed(defs, k)
    ensures |code| == (if defs[k].DefineVariable? then 2 else |part|) && |code| <= |part|
    ensures forall i :: 0 <= i < |code| ==> Nth(code, i) == Nth(part, i)
  {
    assert Part(k);
  }

  /** What the compiler lays out is linked. */
  lemma ImageLinked(defs: seq<Definition>)
    requires |Image(defs)| < 0x1000
    ensures Linked(Unit(defs, Image(defs)))
  {
    var u := Unit(defs, Image(defs));
    ImageAssembled(defs);
    forall k: nat ensures Here(u, k) {
      if k <= |defs| { DefinitionHere(u, k); }
    }
  }
}
