/**
 The uCode processor: a 16-bit machine with a data stack and a return stack.

 `Machine` is the simulator; `Execute` is what one of its steps does to the state.
 */
module UCodeCpu {
  import opened Prelude
  import opened Bits

  type Word = x: int | 0 <= x < 0x1_0000
  type Address = x: int | 0 <= x < 0x1000

  const Depth: nat := 12
  const Width: nat := 16

  type Cells = s: seq<Word> | |s| == Depth witness [0, 0, 0, 0, 0, 0, 0, 0, 0, 0, 0, 0]

  // ----- Stacks -----

  /** A stack effect: none, drop, push, replace, swap, rotate three either way, and drop two to push one. */
  function Perform(s: Cells, effect: nat, data: Word): Cells {
    match effect
    case 1 => s[1..] + [s[11]]
    case 2 => [data] + s[..11]
    case 3 => s[0 := data]
    case 4 => s[0 := s[1]][1 := s[0]]
    case 5 => s[0 := s[2]][1 := s[0]][2 := s[1]]
    case 6 => s[0 := s[1]][1 := s[2]][2 := s[0]]
    case 7 => [data] + s[2..] + [s[11]]
    case _ => s
  }

  class Stack {
    var stack: Cells

    constructor (stack: Cells)
      ensures this.stack == stack
    {
      this.stack := stack;
    }

    method Do(effect: nat, data: Word)
      modifies this
      ensures stack == Perform(old(stack), effect, data)
    {
      if effect == 1 {
        stack := stack[1..] + stack[Depth - 1..];
      } else if effect == 2 {
        stack := [data] + stack[..Depth - 1];
      } else if effect == 3 {
        stack := stack[0 := data];
      } else if effect == 4 {
        var saved := stack[0];
        stack := stack[0 := stack[1]];
        stack := stack[1 := saved];
      } else if effect == 5 {
        var saved := stack[2];
        stack := stack[2 := stack[1]];
        stack := stack[1 := stack[0]];
        stack := stack[0 := saved];
      } else if effect == 6 {
        var saved := stack[0];
        stack := stack[0 := stack[1]];
        stack := stack[1 := stack[2]];
        stack := stack[2 := saved];
      } else if effect == 7 {
        stack := [data] + stack[2..] + stack[Depth - 1..];
      }
    }
  }

  // ----- Arithmetic -----

  /** The result has more than 16 bits where the operation carries; shifted parts never overlap, so they are added. */
  function Alu(op: nat, a: Word, b: Word): int {
    var sign := if a >= 0x8000 then 1 else 0;
    match op
    case 0 => a
    case 1 => a + b
    case 2 => a - b
    case 3 => a * b
    case 4 => Bitwise(And, a, b, Width)
    case 5 => Bitwise(Xor, a, b, Width)
    case 6 => Bitwise(Or, a, b, Width)
    case 7 => a * 2 + a / 0x8000
    case 8 => a * 4 + a / 0x4000
    case 9 => a * 16 + a / 0x1000
    case 10 => a * 256 + a / 0x100
    case 11 => a / 2 + sign * 0x8000
    case 12 => a / 4 + sign * 0xC000
    case 13 => a / 16 + sign * 0xF000
    case _ => 0
  }

  function Low16(x: int): Word { x % 0x1_0000 }

  function Counted(x: Word, down: bool): Word {
    if down then Low16((x as int) - 1) else Low16((x as int) + 1)
  }

  // ----- Memory -----

  /** Colour markers, quad memory by bank, index and field, and the devices that are present. */
  datatype World = World(gcc: map<Address, Word>, quads: map<(nat, nat, nat), Word>, devices: set<nat>,
                         inputs: seq<Word>, outputs: seq<(nat, nat, Word)>)

  /** An access yields a value (None for a cell of program memory that does not exist) or is an error. */
  datatype Access = Access(value: Option<Word>, mem: map<Address, Word>, world: World) | BadAccess

  function QuadKey(address: Word, field: nat): Option<(nat, nat, nat)> {
    if address / 0x4000 == 1 then Some((1, address % 0x1000, field))
    else if address / 0x4000 == 0 then Some((0, address % 0x2000, field))
    else None
  }

  function ReadDevice(world: World, id: nat): (Word, World) {
    if world.inputs == [] then (0, world) else (world.inputs[0], world.(inputs := world.inputs[1..]))
  }

  /**
   Ranges: 0 program memory, 1 the cell at the program counter, 2 colour markers, 3 devices, 4 to 7 the quad fields.
   */
  function AccessMemory(range: nat, write: bool, address: Word, data: Word, pc: nat, mem: map<Address, Word>,
                        world: World): Access {
    if range == 0 then
      var a: Address := address % 0x1000;
      if write then Access(Some(data), mem[a := data], world)
      else Access(if a in mem then Some(mem[a]) else None, mem, world)
    else if range == 1 then
      Access(if pc < 0x1000 && pc in mem then Some(mem[pc]) else None, mem, world)
    else if range == 2 then
      var a: Address := address % 0x1000;
      if write then Access(Some(data), mem, world.(gcc := world.gcc[a := data]))
      else Access(Some(if a in world.gcc then world.gcc[a] else 0), mem, world)
    else if range == 3 then
      var id, reg := address % 0x100 / 0x10, address % 0x10;
      if id !in world.devices then BadAccess
      else if write then Access(Some(data), mem, world.(outputs := world.outputs + [(id, reg, data)]))
      else
        var (value, next) := ReadDevice(world, id);
        Access(Some(value), mem, next)
    else
      match QuadKey(address, range % 4)
      case None => Access(Some(if write then data else 0), mem, world)
      case Some(key) =>
        if write then Access(Some(data), mem, world.(quads := world.quads[key := data]))
        else Access(Some(if key in world.quads then world.quads[key] else 0xDEAD), mem, world)
  }

  // ----- Steps -----

  datatype Cpu = Cpu(pc: nat, d: Cells, r: Cells, mem: map<Address, Word>, world: World)

  datatype Result = Running(cpu: Cpu) | Halted

  function Flag(instr: Word, bit: int): bool
    requires bit > 0
  {
    instr / bit % 2 == 1
  }

  const Empty: Cells := [0, 0, 0, 0, 0, 0, 0, 0, 0, 0, 0, 0]

  /** One step. */
  function Execute(c: Cpu): Result {
    if c.pc >= 0x1000 || c.pc !in c.mem then Halted
    else
      var instr, c1 := c.mem[c.pc], c.(pc := c.pc + 1);
      if instr == 0x11F0 then Running(c1.(d := Empty, r := Empty))
      else if Flag(instr, 0x8000) then Control(c1, instr)
      else if instr % 0x10 == 0xE then Halted
      else if instr % 0x10 == 0xF then Transfer(c1, instr)
      else Complete(c1, instr, Evaluation(c1, instr))
  }

  /**
   Jumps and calls: always, if zero, or counting up or down while not zero. The program counter is already advanced.
   */
  function Control(c: Cpu, instr: Word): Result
    requires c.pc <= 0x1000
  {
    var target, call, kind := instr % 0x1000, Flag(instr, 0x4000), instr / 0x1000 % 4;
    var r := if call then Perform(c.r, 2, c.pc) else c.r;
    if kind == 0 then Running(c.(pc := target, r := r))
    else if kind == 1 then Running(c.(pc := if c.d[0] == 0 then target else c.pc, d := Perform(c.d, 1, 0), r := r))
    else if call then Halted
    else if c.r[0] == 0 then Running(c.(r := Perform(c.r, 1, 0)))
    else Running(c.(pc := target, r := c.r[0 := Counted(c.r[0], kind == 3)]))
  }

  /** The operands of the arithmetic unit. */
  function SourceA(selector: nat, d: Cells, tors: Word): Word {
    match selector case 0 => d[0] case 1 => d[1] case 2 => tors case _ => 0
  }

  function SourceB(selector: nat, d: Cells): Word {
    match selector case 0 => d[0] case 1 => 0x0001 case 2 => 0x8000 case _ => 0xFFFF
  }

  function Evaluation(c: Cpu, instr: Word): Word {
    Low16(Alu(instr % 0x10, SourceA(instr / 0x40 % 4, c.d, c.r[0]), SourceB(instr / 0x10 % 4, c.d)))
  }

  /** A memory operation. If there is no such cell the rest of the instruction is skipped. */
  function Transfer(c: Cpu, instr: Word): Result {
    var range, write := instr / 0x10 % 8, Flag(instr, 0x80);
    match AccessMemory(range, write, c.d[0], c.d[1], c.pc, c.mem, c.world)
    case BadAccess => Halted
    case Access(None, _, _) => Running(c)
    case Access(Some(value), mem, world) =>
      var pc := if range == 1 then c.pc + 1 else c.pc;
      var d := if write then Perform(c.d, 1, 0) else c.d;
      Complete(Cpu(pc, d, c.r, mem, world), instr, value)
  }

  /** The stack effects that end an instruction, and the return it may include. */
  function Complete(c: Cpu, instr: Word, result: Word): Result {
    Running(c.(pc := if Flag(instr, 0x4000) then c.r[0] % 0x1000 else c.pc,
               d := Perform(c.d, instr / 0x100 % 8, result),
               r := Perform(c.r, instr / 0x1000 % 4, result)))
  }

  class Machine {
    var pc: nat
    const dstack: Stack
    const rstack: Stack
    var prog: map<Address, Word>
    var world: World

    ghost predicate Valid() reads this { dstack != rstack }

    ghost function State(): Cpu
      reads this, dstack, rstack
    {
      Cpu(pc, dstack.stack, rstack.stack, prog, world)
    }

    constructor (prog: map<Address, Word>, world: World, d: Cells, r: Cells)
      ensures Valid() && fresh(dstack) && fresh(rstack)
      ensures State() == Cpu(0, d, r, prog, world)
    {
      pc, this.prog, this.world := 0, prog, world;
      dstack := new Stack(d);
      rstack := new Stack(r);
    }

    method Step() returns (ok: bool)
      requires Valid()
      modifies this, dstack, rstack
      ensures Valid()
      ensures ok == Execute(old(State())).Running?
      ensures ok ==> State() == Execute(old(State())).cpu
    {
      if pc >= 0x1000 || pc !in prog { return false; }
      var instr := prog[pc];
      pc := pc + 1;
      if instr == 0x11F0 {
        dstack.stack := Empty;
        rstack.stack := Empty;
        ok := true;
      } else if Flag(instr, 0x8000) {
        ok := Branch(instr);
      } else if instr % 0x10 == 0xE {
        ok := false;
      } else if instr % 0x10 == 0xF {
        ok := MoveData(instr);
      } else {
        var tos, nos, tors := dstack.stack[0], dstack.stack[1], rstack.stack[0];
        var sel_a, sel_b := instr / 0x40 % 4, instr / 0x10 % 4;
        var alu_a := if sel_a == 0 then tos else if sel_a == 1 then nos else if sel_a == 2 then tors else 0;
        var alu_b := if sel_b == 0 then tos else if sel_b == 1 then 0x0001 else if sel_b == 2 then 0x8000 else 0xFFFF;
        var result := Low16(Alu(instr % 0x10, alu_a, alu_b));
        Finish(instr, result);
        ok := true;
      }
    }

    /** A control instruction. */
    method Branch(instr: Word) returns (ok: bool)
      requires Valid() && pc <= 0x1000
      modifies this, dstack, rstack
      ensures Valid() && ok == Control(old(State()), instr).Running?
      ensures ok ==> State() == Control(old(State()), instr).cpu
    {
      var tos, tors := dstack.stack[0], rstack.stack[0];
      var address, r_pc, r_se := instr % 0x1000, Flag(instr, 0x4000), instr / 0x1000 % 4;
      if r_pc { rstack.Do(2, pc); }
      if r_se == 0 {
        pc := address;
      } else if r_se == 1 {
        if tos == 0 { pc := address; }
        dstack.Do(1, 0);
      } else if !r_pc {
        if tors == 0 {
          rstack.Do(1, 0);
        } else {
          pc := address;
          rstack.Do(3, Counted(tors, r_se % 2 == 1));
        }
      } else {
        return false;
      }
      ok := true;
    }

    /** A memory operation. */
    method MoveData(instr: Word) returns (ok: bool)
      requires Valid()
      modifies this, dstack, rstack
      ensures Valid() && ok == Transfer(old(State()), instr).Running?
      ensures ok ==> State() == Transfer(old(State()), instr).cpu
    {
      var range, wr_en := instr / 0x10 % 8, Flag(instr, 0x80);
      var access := AccessMemory(range, wr_en, dstack.stack[0], dstack.stack[1], pc, prog, world);
      if access.BadAccess? { return false; }
      if access.value.None? { return true; }
      prog, world := access.mem, access.world;
      if range == 1 { pc := pc + 1; }
      if wr_en { dstack.Do(1, 0); }
      Finish(instr, access.value.value);
      ok := true;
    }

    /** The stack operations that end an instruction. */
    method Finish(instr: Word, result: Word)
      requires Valid()
      modifies this, dstack, rstack
      ensures Valid() && Running(State()) == Complete(old(State()), instr, result)
    {
      if Flag(instr, 0x4000) { pc := rstack.stack[0] % 0x1000; }
      dstack.Do(instr / 0x100 % 8, result);
      rstack.Do(instr / 0x1000 % 4, result);
    }
  }

  // ----- Runs -----

  predicate Look(c: Cpu) { true }

  /** A step function that does what `Execute` does. Only where a proof looks at a state is it known what that is. */
  ghost predicate Obeys(step: Cpu -> Result) {
    forall c: Cpu {:trigger Look(c)} :: Look(c) ==> step(c) == Execute(c)
  }

  lemma ExecuteObeys()
    ensures Obeys(Execute)
  {
  }

  /** Any number of steps. */
  function Run(step: Cpu -> Result, c: Cpu, n: nat): Result
    decreases n
  {
    if n == 0 then Running(c)
    else
      match step(c)
      case Halted => Halted
      case Running(c1) => Run(step, c1, n - 1)
  }

  lemma {:induction false} RunOn(step: Cpu -> Result, c: Cpu, n: nat, k: nat)
    ensures Run(step, c, n).Running? ==> Run(step, c, n + k) == Run(step, Run(step, c, n).cpu, k)
    ensures Run(step, c, n).Halted? ==> Run(step, c, n + k) == Halted
    decreases n
  {
    if n > 0 && step(c).Running? { RunOn(step, step(c).cpu, n - 1, k); }
  }
}
