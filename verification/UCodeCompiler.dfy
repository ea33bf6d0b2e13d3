/**
 The uCode compiler: one pass over the tokens that grows the program, patches it, and
 joins `;` to the word before it.

 `Compiler` is the compiler; `Compile` is what one token does to its state.
 */
module UCodeCompiler {
  import opened Prelude
  import opened UCodeCpu
  import opened UCodeWords
  import opened UCodeSource

  datatype Token =
    | PrimToken(prim: Prim) | NumberToken(n: int) | NameToken(name: string) | ExitToken
    | SemicolonToken | IToken | SkzToken
    | IfToken | ElseToken | ThenToken
    | BeginToken | UntilToken | WhileToken | RepeatToken | AgainToken | LoopToken(down: bool)
    | ColonToken(name: string) | ConstantToken(name: string) | VariableToken(name: string) | CommaToken

  datatype Tail = NoTail | EvalTail | CallTail | DataTail

  /**
   The program so far, the stack of open control words (innermost last), the kind of the last word, and the
   dictionary.
   */
  datatype Compilation = Compilation(prog: seq<Word>, ctrl: seq<Word>, tail: Tail, words: map<string, Word>)

  const Blank: Compilation := Compilation([0x8000], [], NoTail, map[])

  function AddressOf(word: Word): Address { word % 0x1000 }

  function Fixup(word: Word, target: nat): Word { word / 0x1000 * 0x1000 + target % 0x1000 }

  predicate IsAuto(word: Word) { word / 0x2000 == 5 }

  /** `|= 0x5000`. */
  function WithExit(word: Word): Word {
    var w: Word := if word / 0x1000 % 2 == 0 then word + 0x1000 else word;
    if w / 0x4000 % 2 == 0 then w + 0x4000 else w
  }

  /** `&= ~0x4000`. */
  function CallToJump(word: Word): Word { if word / 0x4000 % 2 == 1 then word - 0x4000 else word }

  function Top(ctrl: seq<Word>): Word { if ctrl == [] then 0 else ctrl[|ctrl| - 1] }
  function Rest(ctrl: seq<Word>): seq<Word> { if ctrl == [] then [] else ctrl[..|ctrl| - 1] }

  function Patch(prog: seq<Word>, a: nat, word: Word): seq<Word> {
    if a < |prog| then prog[a := word] else prog + [word]
  }

  predicate AnyAuto(ctrl: seq<Word>) { exists i :: 0 <= i < |ctrl| && IsAuto(ctrl[i]) }

  function Emit(c: Compilation, words: seq<Word>, tail: Tail): Compilation {
    c.(prog := c.prog + words, tail := tail)
  }

  function PrimTail(p: Prim): Tail { if Opcode(p) < 0x1000 then EvalTail else NoTail }

  /** What a token does; None if it is an error. */
  function Compile(c: Compilation, t: Token): Option<Compilation> {
    match t
    case PrimToken(p) => Some(Emit(c, [Opcode(p)], PrimTail(p)))
    case NumberToken(n) => Some(Emit(c, [0x021F, Low16(n)], DataTail))
    case NameToken(name) => if name in c.words then Some(Emit(c, [c.words[name]], CallTail)) else None
    case ExitToken => Some(Emit(c, [0x5000], NoTail))
    case SkzToken => Some(Emit(c, [Branch(9, |c.prog| + 2)], NoTail))
    case IToken => if IsAuto(Top(c.ctrl)) then Some(Emit(c, [0x0280], NoTail)) else None
    case SemicolonToken => CompileReturn(c)
    case ColonToken(_) => CompileName(c, t)
    case ConstantToken(_) => CompileName(c, t)
    case VariableToken(_) => CompileName(c, t)
    case CommaToken => CompileName(c, t)
    case IfToken => Some(CompileOpen(c, t))
    case BeginToken => Some(CompileOpen(c, t))
    case LoopToken(_) => Some(CompileOpen(c, t))
    case ElseToken => Some(CompileElse(c, t))
    case ThenToken => Some(CompileElse(c, t))
    case _ => Some(CompileClose(c, t))
  }

  function CompileReturn(c: Compilation): Option<Compilation> {
    if AnyAuto(c.ctrl) then None
    else if c.tail.EvalTail? && c.prog != [] then
      Some(c.(prog := c.prog[|c.prog| - 1 := WithExit(c.prog[|c.prog| - 1])], tail := NoTail))
    else if c.tail.CallTail? && c.prog != [] then
      Some(c.(prog := c.prog[|c.prog| - 1 := CallToJump(c.prog[|c.prog| - 1])], tail := NoTail))
    else
      Some(Emit(c, [0x5000], NoTail))
  }

  /** The words that begin a control structure. */
  function CompileOpen(c: Compilation, t: Token): Compilation {
    var here := |c.prog|;
    match t
    case IfToken => Compilation(c.prog + [Branch(9, here)], c.ctrl + [Branch(9, here)], NoTail, c.words)
    case BeginToken => Compilation(c.prog, c.ctrl + [Branch(8, here)], NoTail, c.words)
    case LoopToken(down) =>
      var auto := Branch(if down then 11 else 10, here + 1);
      Compilation(c.prog + [0x2100, auto], c.ctrl + [auto], NoTail, c.words)
    case _ => c
  }

  /** ELSE and THEN. */
  function CompileElse(c: Compilation, t: Token): Compilation {
    var word, outer := Top(c.ctrl), Rest(c.ctrl);
    match t
    case ElseToken =>
      var patched := Patch(c.prog, AddressOf(word), Branch(9, |c.prog| + 1));
      Compilation(patched + [Branch(8, |patched|)], outer + [Branch(8, |patched|)], NoTail, c.words)
    case ThenToken => Compilation(Patch(c.prog, AddressOf(word), Fixup(word, |c.prog|)), outer, NoTail, c.words)
    case _ => c
  }

  /** The words that test or end a loop. */
  function CompileClose(c: Compilation, t: Token): Compilation {
    var here, word, outer := |c.prog|, Top(c.ctrl), Rest(c.ctrl);
    var a := AddressOf(word);
    match t
    case UntilToken => Compilation(c.prog + [Branch(9, a)], outer, NoTail, c.words)
    case WhileToken => Compilation(c.prog + [Branch(9, a)], outer + [Branch(9, here)], NoTail, c.words)
    case RepeatToken =>
      var back := if a < |c.prog| then AddressOf(c.prog[a]) else 0;
      Compilation(Patch(c.prog + [Branch(8, back)], a, Branch(9, here + 1)), outer, NoTail, c.words)
    case AgainToken =>
      if IsAuto(word) then Compilation(Patch(c.prog, a, Branch(8, here)) + [Fixup(word, a + 1)], outer, NoTail, c.words)
      else Compilation(c.prog + [Branch(8, a)], outer, NoTail, c.words)
    case _ => c
  }

  /** The words that define names, and the one that allocates data. */
  function CompileName(c: Compilation, t: Token): Option<Compilation> {
    var here := |c.prog|;
    match t
    case ColonToken(name) =>
      if name in c.words then None
      else
        var word := Branch(12, here);
        Some(Compilation(Patch(c.prog, 0, word), c.ctrl, NoTail, c.words[name := word]))
    case ConstantToken(name) =>
      if name in c.words || !c.tail.DataTail? || here < 2 then None
      else Some(Compilation(c.prog[here - 2 := 0x521F], c.ctrl, NoTail, c.words[name := Branch(12, here - 2)]))
    case VariableToken(name) =>
      if name in c.words then None
      else Some(Compilation(c.prog + [0x521F, Low16(here + 2), 0], c.ctrl, NoTail, c.words[name := Branch(12, here)]))
    case CommaToken =>
      if !c.tail.DataTail? || here < 2 then None
      else Some(Compilation(c.prog[..here - 2] + [c.prog[here - 1]], c.ctrl, NoTail, c.words))
    case _ => None
  }

  class Compiler {
    var prog: seq<Word>
    var ctrl_ctx: seq<Word>
    var tail_ctx: Tail
    var words: map<string, Word>

    constructor ()
      ensures State() == Blank
    {
      prog, ctrl_ctx, tail_ctx, words := [0x8000], [], NoTail, map[];
    }

    ghost function State(): Compilation
      reads this
    {
      Compilation(prog, ctrl_ctx, tail_ctx, words)
    }

    method Pop() returns (word: Word)
      modifies this`ctrl_ctx
      ensures word == Top(old(ctrl_ctx)) && ctrl_ctx == Rest(old(ctrl_ctx))
    {
      if ctrl_ctx == [] { return 0; }
      word := ctrl_ctx[|ctrl_ctx| - 1];
      ctrl_ctx := ctrl_ctx[..|ctrl_ctx| - 1];
    }

    /** Compiles one token; the state is as it was, except for names read, if that is an error. */
    method CompileWord(t: Token) returns (ok: bool)
      modifies this
      ensures ok == Compile(old(State()), t).Some?
      ensures ok ==> Some(State()) == Compile(old(State()), t)
    {
      ok := true;
      match t
      case PrimToken(p) =>
        prog := prog + [Opcode(p)];
        tail_ctx := if Opcode(p) / 0x1000 == 0 then EvalTail else NoTail;
      case NumberToken(n) =>
        prog := prog + [0x021F, Low16(n)];
        tail_ctx := DataTail;
      case NameToken(name) =>
        if name !in words { return false; }
        prog := prog + [words[name]];
        tail_ctx := CallTail;
      case ExitToken =>
        prog := prog + [0x5000];
        tail_ctx := NoTail;
      case SkzToken =>
        prog := prog + [Branch(9, |prog| + 2)];
        tail_ctx := NoTail;
      case IToken =>
        if !IsAuto(Top(ctrl_ctx)) { return false; }
        prog := prog + [0x0280];
        tail_ctx := NoTail;
      case SemicolonToken =>
        ok := Return();
      case ColonToken(_) =>
        ok := Name(t);
      case ConstantToken(_) =>
        ok := Name(t);
      case VariableToken(_) =>
        ok := Name(t);
      case CommaToken =>
        ok := Name(t);
      case IfToken =>
        Open(t);
      case BeginToken =>
        Open(t);
      case LoopToken(_) =>
        Open(t);
      case ElseToken =>
        Else(t);
      case ThenToken =>
        Else(t);
      case _ =>
        Close(t);
    }

    method Return() returns (ok: bool)
      modifies this
      ensures ok == CompileReturn(old(State())).Some?
      ensures ok ==> Some(State()) == CompileReturn(old(State()))
    {
      var i := 0;
      while i < |ctrl_ctx|
        invariant 0 <= i <= |ctrl_ctx|
        invariant forall j :: 0 <= j < i ==> !IsAuto(ctrl_ctx[j])
      {
        if IsAuto(ctrl_ctx[i]) { return false; }
        i := i + 1;
      }
      if tail_ctx.EvalTail? && |prog| > 0 {
        prog := prog[|prog| - 1 := WithExit(prog[|prog| - 1])];
      } else if tail_ctx.CallTail? && |prog| > 0 {
        prog := prog[|prog| - 1 := CallToJump(prog[|prog| - 1])];
      } else {
        prog := prog + [0x5000];
      }
      tail_ctx := NoTail;
      ok := true;
    }

    method Open(t: Token)
      requires t.IfToken? || t.BeginToken? || t.LoopToken?
      modifies this
      ensures State() == CompileOpen(old(State()), t)
    {
      if t.IfToken? {
        var word := Branch(9, |prog|);
        ctrl_ctx := ctrl_ctx + [word];
        prog := prog + [word];
      } else if t.BeginToken? {
        ctrl_ctx := ctrl_ctx + [Branch(8, |prog|)];
      } else {
        var word := Branch(if t.down then 11 else 10, |prog| + 1);
        ctrl_ctx := ctrl_ctx + [word];
        prog := prog + [0x2100, word];
      }
      tail_ctx := NoTail;
    }

    method Else(t: Token)
      requires t.ElseToken? || t.ThenToken?
      modifies this
      ensures State() == CompileElse(old(State()), t)
    {
      var word := Pop();
      if t.ElseToken? {
        prog := Patch(prog, AddressOf(word), Branch(9, |prog| + 1));
        var next := Branch(8, |prog|);
        ctrl_ctx := ctrl_ctx + [next];
        prog := prog + [next];
      } else {
        prog := Patch(prog, AddressOf(word), Fixup(word, |prog|));
      }
      tail_ctx := NoTail;
    }

    method Close(t: Token)
      requires t.UntilToken? || t.WhileToken? || t.RepeatToken? || t.AgainToken?
      modifies this
      ensures State() == CompileClose(old(State()), t)
    {
      var word := Pop();
      var addr := AddressOf(word);
      if t.UntilToken? {
        prog := prog + [Branch(9, addr)];
      } else if t.WhileToken? {
        ctrl_ctx := ctrl_ctx + [Branch(9, |prog|)];
        prog := prog + [Branch(9, addr)];
      } else if t.RepeatToken? {
        prog := prog + [Branch(8, if addr < |prog| then AddressOf(prog[addr]) else 0)];
        prog := Patch(prog, addr, Branch(9, |prog|));
      } else if IsAuto(word) {
        prog := Patch(prog, addr, Branch(8, |prog|));
        prog := prog + [Fixup(word, addr + 1)];
      } else {
        prog := prog + [Branch(8, addr)];
      }
      tail_ctx := NoTail;
    }

    method Name(t: Token) returns (ok: bool)
      modifies this
      ensures ok == CompileName(old(State()), t).Some?
      ensures ok ==> Some(State()) == CompileName(old(State()), t)
    {
      if t.ColonToken? {
        var word := Branch(12, |prog|);
        if t.name in words { return false; }
        words := words[t.name := word];
        prog := Patch(prog, 0, word);
      } else if t.ConstantToken? {
        if t.name in words || !tail_ctx.DataTail? || |prog| < 2 { return false; }
        var addr := |prog| - 2;
        prog := prog[addr := 0x521F];
        words := words[t.name := Branch(12, addr)];
      } else if t.VariableToken? {
        var word := Branch(12, |prog|);
        if t.name in words { return false; }
        prog := prog + [0x521F, Low16(|prog| + 2), 0];
        words := words[t.name := word];
      } else if t.CommaToken? {
        if !tail_ctx.DataTail? || |prog| < 2 { return false; }
        var addr := |prog| - 2;
        prog := prog[..addr] + [prog[addr + 1]];
      } else {
        return false;
      }
      tail_ctx := NoTail;
      ok := true;
    }

    /** Compiles all tokens, or stops at the first error. */
    method CompileAll(ts: seq<Token>) returns (ok: bool)
      modifies this
      ensures ok == Process(Compile, old(State()), ts).Some?
      ensures ok ==> Some(State()) == Process(Compile, old(State()), ts)
    {
      var i := 0;
      assert ts[0..] == ts;
      while i < |ts|
        invariant 0 <= i <= |ts|
        invariant Process(Compile, State(), ts[i..]) == Process(Compile, old(State()), ts)
      {
        assert ts[i..][0] == ts[i] && ts[i..][1..] == ts[i + 1..];
        ok := CompileWord(ts[i]);
        if !ok { return; }
        i := i + 1;
      }
      ok := true;
    }
  }

  function Process(compile: (Compilation, Token) -> Option<Compilation>, c: Compilation,
                   ts: seq<Token>): Option<Compilation>
    decreases |ts|
  {
    if ts == [] then Some(c)
    else
      match compile(c, ts[0])
      case None => None
      case Some(c1) => Process(compile, c1, ts[1..])
  }
}
