/**
 What the memory words of the processor amount to: what is stored is fetched again, from the same cell and no other.
 */
module UCodeMemory {
  import opened Prelude
  import opened UCodeCpu
  import opened UCodeWords

  predicate IsQuad(p: Place) { p == QuadT || p == QuadX || p == QuadY || p == QuadZ }

  /** The bank of 4096 quads that can be written to, and that of 8192, as often as they fit into their ranges. */
  predicate InRam(address: Word) { 0x4000 <= address < 0x8000 }
  predicate InRom(address: Word) { address < 0x4000 }

  predicate SameQuad(a: Word, b: Word) {
    || (InRam(a) && InRam(b) && (a - b) % 0x1000 == 0)
    || (InRom(a) && InRom(b) && (a - b) % 0x2000 == 0)
  }

  /** The processor is about to fetch from an address. */
  predicate Fetching(c: Cpu, p: Place, address: Word) { At(c, Opcode(Fetch(p))) && c.d[0] == address }

  /** The processor is about to store a word at an address. */
  predicate Storing(c: Cpu, p: Place, address: Word, data: Word) {
    At(c, Opcode(Store(p))) && c.d[0] == address && c.d[1] == data
  }

  /** The step puts x in the place of the address, and changes nothing else. */
  predicate Fetches(c: Cpu, r: Result, x: Word) { r == Running(c.(pc := c.pc + 1, d := Pushed(Popped(c.d), x))) }

  /** The step takes the address and the data off the stack, and changes nothing else but the world. */
  predicate Stores(c: Cpu, r: Result, world: World) {
    r == Running(c.(pc := c.pc + 1, d := Popped(Popped(c.d)), world := world))
  }

  lemma FetchSteps(step: Cpu -> Result, c: Cpu, p: Place)
    requires Obeys(step) && At(c, Opcode(Fetch(p)))
    ensures step(c) ==
            Accessed(c, false, false, AccessMemory(Range(p), false, c.d[0], c.d[1], c.pc + 1, c.mem, c.world))
  {
    OpcodeEncodes(Fetch(p));
    MemoryWordSteps(step, c, p, false, false);
  }

  lemma StoreSteps(step: Cpu -> Result, c: Cpu, p: Place)
    requires Obeys(step) && At(c, Opcode(Store(p)))
    ensures step(c) ==
            Accessed(c, true, false, AccessMemory(Range(p), true, c.d[0], c.d[1], c.pc + 1, c.mem, c.world))
  {
    OpcodeEncodes(Store(p));
    MemoryWordSteps(step, c, p, true, false);
  }

  // ----- Quads -----

  function Field(q: Place): nat { match q case QuadX => 1 case QuadY => 2 case QuadZ => 3 case _ => 0 }

  /** A field of a quad as it reads. */
  function QuadOf(world: World, address: Word, field: nat): Word {
    match AccessMemory(4 + field % 4, false, address, 0, 0, map[], world)
    case Access(Some(x), _, _) => x
    case _ => 0
  }

  function QuadSet(world: World, address: Word, field: nat, data: Word): World {
    match AccessMemory(4 + field % 4, true, address, data, 0, map[], world)
    case Access(_, _, world1) => world1
    case BadAccess => world
  }

  lemma QuadAccess(field: nat, write: bool, address: Word, data: Word, pc: nat, mem: map<Address, Word>, world: World)
    requires field < 4
    ensures AccessMemory(4 + field, false, address, data, pc, mem, world) ==
            Access(Some(QuadOf(world, address, field)), mem, world)
    ensures var x := AccessMemory(4 + field, true, address, data, pc, mem, world);
            x.Access? && x.value.Some? && x.mem == mem && x.world == QuadSet(world, address, field, data)
  {
  }

  lemma QuadFetched(step: Cpu -> Result, c: Cpu, q: Place)
    requires Obeys(step) && IsQuad(q) && At(c, Opcode(Fetch(q)))
    ensures Fetches(c, step(c), QuadOf(c.world, c.d[0], Field(q)))
  {
    FetchSteps(step, c, q);
    QuadAccess(Field(q), false, c.d[0], c.d[1], c.pc + 1, c.mem, c.world);
  }

  lemma QuadStored(step: Cpu -> Result, c: Cpu, q: Place)
    requires Obeys(step) && IsQuad(q) && At(c, Opcode(Store(q)))
    ensures Stores(c, step(c), QuadSet(c.world, c.d[0], Field(q), c.d[1]))
  {
    StoreSteps(step, c, q);
    QuadAccess(Field(q), true, c.d[0], c.d[1], c.pc + 1, c.mem, c.world);
  }

  lemma QuadCells(world: World, a: Word, f: nat, x: Word, b: Word, g: nat)
    requires f < 4 && g < 4
    ensures QuadOf(QuadSet(world, a, f, x), b, g) == if f == g && SameQuad(a, b) then x else QuadOf(world, b, g)
    ensures QuadSet(world, a, f, x) == world.(quads := QuadSet(world, a, f, x).quads)
  {
    SameKeys(a, b, f, g);
  }

  /**
   After a word has been stored in a field of a quad, which changes nothing but quads, fetching gives it if the bank,
   the index and the field are the same, and otherwise what fetching gives without it.
   */
  lemma QuadReadsBack(step: Cpu -> Result, c: Cpu, p: Place, a: Word, x: Word, c1: Cpu, q: Place, b: Word)
    requires Obeys(step) && IsQuad(p) && IsQuad(q) && Storing(c, p, a, x) && Fetching(c1, q, b)
    ensures step(c).Running?
    ensures var world := step(c).cpu.world; Stores(c, step(c), world) && world == c.world.(quads := world.quads)
    ensures c1.world == step(c).cpu.world ==>
              exists y, z :: && Fetches(c1, step(c1), y)
                             && Fetches(c1.(world := c.world), step(c1.(world := c.world)), z)
                             && y == if p == q && SameQuad(a, b) then x else z
  {
    QuadStored(step, c, p);
    QuadCells(c.world, a, Field(p), x, b, Field(q));
    QuadFetched(step, c1, q);
    QuadFetched(step, c1.(world := c.world), q);
  }

  lemma SameKeys(a: Word, b: Word, f: nat, g: nat)
    requires f < 4 && g < 4
    ensures QuadKey(a, f) == QuadKey(b, g) && QuadKey(a, f).Some? <==> f == g && SameQuad(a, b)
  {
    if InRam(a) && InRam(b) { SameResidue(a, b, 0x1000); }
    if InRom(a) && InRom(b) { SameResidue(a, b, 0x2000); }
  }

  lemma SameResidue(a: int, b: int, m: int)
    requires m == 0x1000 || m == 0x2000
    ensures a % m == b % m <==> (a - b) % m == 0
  {
  }

  /** Fields that have not been written read as 0xDEAD, and addresses outside of both banks as zero. */
  lemma QuadUnwritten(step: Cpu -> Result, c: Cpu, q: Place)
    requires Obeys(step) && IsQuad(q) && At(c, Opcode(Fetch(q)))
    ensures c.world.quads == map[] && c.d[0] < 0x8000 ==> Fetches(c, step(c), 0xDEAD)
    ensures c.d[0] >= 0x8000 ==> Fetches(c, step(c), 0)
  {
    QuadFetched(step, c, q);
  }

  /** T and X of the same quad are different cells. */
  lemma FieldsApart(step: Cpu -> Result, c: Cpu, c1: Cpu, c2: Cpu)
    requires Obeys(step)
    requires Storing(c, QuadT, 0x4000, 1) && Storing(c1, QuadX, 0x4000, 2) && Fetching(c2, QuadT, 0x4000)
    requires step(c).Running? && c1.world == step(c).cpu.world
    requires step(c1).Running? && c2.world == step(c1).cpu.world
    ensures Fetches(c2, step(c2), 1)
  {
    QuadStored(step, c, QuadT);
    QuadStored(step, c1, QuadX);
    QuadFetched(step, c2, QuadT);
    QuadCells(c.world, 0x4000, 0, 1, 0x4000, 0);
    QuadCells(c1.world, 0x4000, 1, 2, 0x4000, 0);
  }

  // ----- Colour markers -----

  lemma ColourAccess(write: bool, address: Word, data: Word, pc: nat, mem: map<Address, Word>, world: World)
    ensures AccessMemory(2, false, address, data, pc, mem, world) == Access(Some(ColourOf(world, address)), mem, world)
    ensures AccessMemory(2, true, address, data, pc, mem, world) ==
            Access(Some(data), mem, ColourSet(world, address, data))
  {
  }

  function ColourOf(world: World, address: Word): Word {
    match AccessMemory(2, false, address, 0, 0, map[], world) case Access(Some(x), _, _) => x case _ => 0
  }

  function ColourSet(world: World, address: Word, data: Word): World {
    match AccessMemory(2, true, address, data, 0, map[], world) case Access(_, _, world1) => world1 case _ => world
  }

  lemma ColourCells(world: World, a: Word, x: Word, b: Word)
    ensures ColourOf(ColourSet(world, a, x), b) == if (a - b) % 0x1000 == 0 then x else ColourOf(world, b)
    ensures ColourSet(world, a, x) == world.(gcc := ColourSet(world, a, x).gcc)
    ensures world.gcc == map[] ==> ColourOf(world, b) == 0
  {
    SameResidue(a, b, 0x1000);
  }

  lemma ColourFetched(step: Cpu -> Result, c: Cpu)
    requires Obeys(step) && At(c, Opcode(Fetch(Colour)))
    ensures Fetches(c, step(c), ColourOf(c.world, c.d[0]))
    ensures c.world.gcc == map[] ==> Fetches(c, step(c), 0)
  {
    FetchSteps(step, c, Colour);
    ColourAccess(false, c.d[0], c.d[1], c.pc + 1, c.mem, c.world);
    ColourCells(c.world, 0, 0, c.d[0]);
  }

  /** Colour markers are kept by the lower twelve bits of their addresses; those that have not been written are zero. */
  lemma ColourReadsBack(step: Cpu -> Result, c: Cpu, a: Word, x: Word, c1: Cpu, b: Word)
    requires Obeys(step) && Storing(c, Colour, a, x) && Fetching(c1, Colour, b)
    ensures step(c).Running?
    ensures var world := step(c).cpu.world; Stores(c, step(c), world) && world == c.world.(gcc := world.gcc)
    ensures c1.world == step(c).cpu.world ==>
              exists y, z :: && Fetches(c1, step(c1), y)
                             && Fetches(c1.(world := c.world), step(c1.(world := c.world)), z)
                             && y == if (a - b) % 0x1000 == 0 then x else z
  {
    StoreSteps(step, c, Colour);
    ColourAccess(true, a, x, c.pc + 1, c.mem, c.world);
    ColourCells(c.world, a, x, b);
    ColourFetched(step, c1);
    ColourFetched(step, c1.(world := c.world));
  }

  // ----- Program memory -----

  /** A word stored in program memory is fetched again by any address with the same lower twelve bits. */
  lemma ProgramReadsBack(step: Cpu -> Result, c: Cpu, a: Word, x: Word, c1: Cpu, b: Word)
    requires Obeys(step) && Storing(c, Program, a, x) && Fetching(c1, Program, b)
    ensures step(c).Running?
    ensures step(c).cpu == c.(pc := c.pc + 1, d := Popped(Popped(c.d)), mem := step(c).cpu.mem)
    ensures c1.mem == step(c).cpu.mem && (a - b) % 0x1000 == 0 ==> Fetches(c1, step(c1), x)
    ensures c1.mem == step(c).cpu.mem && (a - b) % 0x1000 != 0 ==>
              var cell := b % 0x1000;
              if cell in c.mem then Fetches(c1, step(c1), c.mem[cell]) else step(c1) == Running(c1.(pc := c1.pc + 1))
  {
    StoreSteps(step, c, Program);
    FetchSteps(step, c1, Program);
    SameResidue(a, b, 0x1000);
  }

  // ----- Devices -----

  /** The address of a register of a device, whatever its upper bits. */
  ghost predicate RegisterOf(address: Word, id: nat, reg: nat) {
    id < 16 && reg < 16 && exists high: nat :: address == high * 0x100 + id * 0x10 + reg
  }

  lemma RegisterFields(address: Word, id: nat, reg: nat)
    requires RegisterOf(address, id, reg)
    ensures address % 0x100 / 0x10 == id && address % 0x10 == reg
  {
    var high: nat :| address == high * 0x100 + id * 0x10 + reg;
    LowestDigit(address, high * 0x10 + id, reg);
    LowestDigit(high * 0x10 + id, high, id);
    SecondDigit(address);
  }

  lemma LowestDigit(x: nat, rest: nat, digit: nat)
    requires x == rest * 0x10 + digit && digit < 0x10
    ensures x / 0x10 == rest && x % 0x10 == digit
  {
  }

  lemma SecondDigit(x: nat)
    ensures x % 0x100 / 0x10 == x / 0x10 % 0x10
  {
  }

  /** What is stored in a register goes to its device, after all that has gone out before; without a device it fails. */
  lemma DeviceStored(step: Cpu -> Result, c: Cpu, address: Word, data: Word, id: nat, reg: nat)
    requires Obeys(step) && Storing(c, Device, address, data) && RegisterOf(address, id, reg)
    ensures step(c) ==
            if id !in c.world.devices then Halted
            else Running(c.(pc := c.pc + 1, d := Popped(Popped(c.d)),
                            world := c.world.(outputs := c.world.outputs + [(id, reg, data)])))
  {
    StoreSteps(step, c, Device);
    RegisterFields(address, id, reg);
  }

  /** What is fetched from a device is the next word that comes in. */
  lemma DeviceFetched(step: Cpu -> Result, c: Cpu, address: Word, id: nat, reg: nat)
    requires Obeys(step) && Fetching(c, Device, address) && RegisterOf(address, id, reg) && c.world.inputs != []
    ensures step(c) ==
            if id !in c.world.devices then Halted
            else Running(c.(pc := c.pc + 1, d := Pushed(Popped(c.d), c.world.inputs[0]),
                            world := c.world.(inputs := c.world.inputs[1..])))
  {
    FetchSteps(step, c, Device);
    RegisterFields(address, id, reg);
  }

  // ----- Reset -----

  /** RESET empties both stacks: whatever is taken from them afterwards is zero. */
  lemma ResetSteps(c: Cpu, i: nat)
    requires At(c, Opcode(Reset)) && i < Depth
    ensures Execute(c).Running?
    ensures var c1 := Execute(c).cpu; c1 == c.(pc := c.pc + 1, d := c1.d, r := c1.r) && c1.d[i] == 0 && c1.r[i] == 0
  {
  }
}
