/**
 The stack machine that runs compiled Humus.

 The stack is written top first. Each instruction has the effect that the
 instruction reference gives it; `nth` and `part` of something that is not a pair
 yield the undefined value. An instruction that would underflow the stack is stuck.
 */
module HumusMachine {
  import opened Prelude
  import opened HumusSyntax

  datatype Value =
    | Atom(c: Constant)
    | PairV(head: Value, tail: Value)
    | CodeV(code: Code)
    | RefV(name: string)
    | ActorV(id: nat)

  datatype Op =
    | Push(v: Value)
    | Pick(n: int)
    | Roll(n: int)
    | Dup(count: nat)
    | Drop(count: nat)
    | MakePair(count: nat)
    | Part(count: nat)
    | TakeNth(n: int)
    | EqTo(v: Value)
    | IsPair
    | IsActor
    | Send

  datatype Code =
    | Instr(op: Op, k: Code)
    | If(t: Code, f: Code)
    | Jump
    | Abort
    | Label(nr: nat)

  type Stack = seq<Value>
  type Messages = seq<(Value, nat)>
  type Definitions = map<nat, Code>

  datatype State =
    | Running(code: Code, stack: Stack, sent: Messages)
    | Aborted(reason: Value)
    | Stuck

  const UndefV := Atom(Undef)
  const EqProc := RefV("$eq.proc")

  function BoolV(b: bool): Value { Atom(if b then True else False) }

  predicate Falsy(v: Value) { v in {Atom(False), Atom(Undef), Atom(Nil), Atom(Int(0))} }

  function HeadOf(v: Value): Value { if v.PairV? then v.head else UndefV }
  function TailOf(v: Value): Value { if v.PairV? then v.tail else UndefV }

  function NthOf(v: Value, n: int): Value
    decreases if n < 0 then -n else n
  {
    if n == 0 then v
    else if n == 1 then HeadOf(v)
    else NthOf(TailOf(v), if n > 0 then n - 1 else n + 1)
  }

  /** The pair list of some items ending in a tail. */
  function ListOf(items: Stack, tail: Value): Value {
    if items == [] then tail else PairV(items[0], ListOf(items[1..], tail))
  }

  /** The first n heads of a pair list, then the rest of it. */
  function PartsOf(v: Value, n: nat): Stack
    decreases n
  {
    if n == 0 then [v] else [HeadOf(v)] + PartsOf(TailOf(v), n - 1)
  }

  function Apply(op: Op, s: Stack): Option<Stack> {
    match op
    case Push(v) => Some([v] + s)
    case Pick(n) => if 1 <= n <= |s| then Some([s[n - 1]] + s) else None
    case Roll(n) =>
      if 1 <= n <= |s| then Some([s[n - 1]] + s[..n - 1] + s[n..])
      else if 1 <= -n <= |s| then Some(s[1..-n] + [s[0]] + s[-n..])
      else None
    case Dup(n) => if n <= |s| then Some(s[..n] + s) else None
    case Drop(n) => if n <= |s| then Some(s[n..]) else None
    case MakePair(n) => if n < |s| then Some([ListOf(s[..n], s[n])] + s[n + 1..]) else None
    case Part(n) => if 1 <= |s| then Some(PartsOf(s[0], n) + s[1..]) else None
    case TakeNth(n) => if 1 <= |s| then Some([NthOf(s[0], n)] + s[1..]) else None
    case EqTo(v) => if 1 <= |s| then Some([BoolV(s[0] == v)] + s[1..]) else None
    case IsPair => if 1 <= |s| then Some([BoolV(s[0].PairV?)] + s[1..]) else None
    case IsActor => if 1 <= |s| then Some([BoolV(s[0].ActorV?)] + s[1..]) else None
    case Send => if 2 <= |s| && s[0].ActorV? then Some(s[2..]) else None
  }

  function Step(defs: Definitions, st: State): State {
    match st
    case Running(code, s, sent) =>
      (match code
       case Instr(op, k) =>
         if Apply(op, s).None? then Stuck
         else Running(k, Apply(op, s).value, if op.Send? then sent + [(s[1], s[0].id)] else sent)
       case If(t, f) => if |s| == 0 then Stuck else Running(if Falsy(s[0]) then f else t, s[1..], sent)
       case Jump =>
         if |s| == 0 then Stuck
         else if s[0].CodeV? then Running(s[0].code, s[1..], sent)
         else if s[0] == EqProc && |s| >= 4 && s[1].CodeV? then
           Running(s[1].code, [BoolV(s[3] == s[2])] + s[4..], sent)
         else Stuck
       case Abort => if |s| == 0 then Stuck else Aborted(s[0])
       case Label(nr) => if nr in defs then Running(defs[nr], s, sent) else Stuck)
    case _ => st
  }

  function Exec(defs: Definitions, st: State, n: nat): State
    decreases n
  {
    if n == 0 then st else Exec(defs, Step(defs, st), n - 1)
  }

  ghost predicate Reaches(defs: Definitions, a: State, b: State) {
    exists n: nat :: Leads(defs, a, n, b)
  }

  predicate Counted(n: nat) { true }

  /** So many steps lead there. Only where a proof counts them is it known that they do. */
  ghost predicate Leads(defs: Definitions, a: State, n: nat, b: State) {
    forall k: nat {:trigger Counted(k)} :: Counted(k) && k == n ==> Exec(defs, a, k) == b
  }

  lemma {:induction false} ExecAdds(defs: Definitions, a: State, m: nat, n: nat)
    ensures Exec(defs, a, m + n) == Exec(defs, Exec(defs, a, m), n)
    decreases m
  {
    if m > 0 { ExecAdds(defs, Step(defs, a), m - 1, n); }
  }

  lemma Here(defs: Definitions, a: State)
    ensures Reaches(defs, a, a)
  {
    assert Leads(defs, a, 0, a);
  }

  lemma Then(defs: Definitions, a: State, b: State, c: State)
    requires Reaches(defs, a, b) && Reaches(defs, b, c)
    ensures Reaches(defs, a, c)
  {
    var m: nat :| Leads(defs, a, m, b);
    var n: nat :| Leads(defs, b, n, c);
    assert Counted(m) && Counted(n);
    ExecAdds(defs, a, m, n);
    assert Leads(defs, a, m + n, c);
  }

  /** One step, then wherever that leads. */
  lemma First(defs: Definitions, a: State, c: State)
    requires Reaches(defs, Step(defs, a), c)
    ensures Reaches(defs, a, c)
  {
    var n: nat :| Leads(defs, Step(defs, a), n, c);
    assert Counted(n);
    assert Leads(defs, a, n + 1, c);
  }

  // ----- Stack effects as the code generator predicts them -----

  function StackDelta(op: Op): int {
    match op
    case Push(_) => 1
    case Pick(_) => 1
    case Roll(_) => 0
    case Dup(n) => n
    case Drop(n) => 0 - n
    case MakePair(n) => 0 - n
    case Part(n) => n
    case TakeNth(_) => 0
    case EqTo(_) => 0
    case IsPair => 0
    case IsActor => 0
    case Send => -2
  }

  lemma {:induction false} PartsLength(v: Value, n: nat)
    ensures |PartsOf(v, n)| == n + 1
    decreases n
  {
    if n > 0 { PartsLength(TailOf(v), n - 1); }
  }

  /** The predicted stack effect is the real one for every instruction that does not underflow. */
  lemma StackDeltaIsReal(op: Op, s: Stack)
    requires Apply(op, s).Some?
    ensures |Apply(op, s).value| == |s| + StackDelta(op)
  {
    match op
    case Roll(n) => RollDelta(n, s);
    case MakePair(n) => PairDelta(n, s);
    case Part(n) => PartsLength(s[0], n);
    case Drop(n) => assert |s[n..]| == |s| - n;
    case Dup(n) => assert |s[..n] + s| == n + |s|;
    case Pick(_) => FlatDelta(op, s);
    case Send => assert |s[2..]| == |s| - 2;
    case _ => FlatDelta(op, s);
  }

  lemma RollDelta(n: int, s: Stack)
    requires Apply(Roll(n), s).Some?
    ensures |Apply(Roll(n), s).value| == |s|
  {
    if n >= 1 {
      assert |[s[n - 1]] + s[..n - 1] + s[n..]| == |s|;
    } else {
      assert |s[1..-n] + [s[0]] + s[-n..]| == |s|;
    }
  }

  lemma PairDelta(n: nat, s: Stack)
    requires n < |s|
    ensures |Apply(MakePair(n), s).value| == |s| - n
  {
    assert |s[n + 1..]| == |s| - n - 1;
  }

  lemma FlatDelta(op: Op, s: Stack)
    requires Apply(op, s).Some? && (op.Push? || op.Pick? || op.TakeNth? || op.EqTo? || op.IsPair? || op.IsActor?)
    ensures |Apply(op, s).value| == |s| + StackDelta(op)
  {
  }

  // ----- What instructions undo and decide -----

  lemma {:induction false} PartsOfList(items: Stack, tail: Value)
    ensures PartsOf(ListOf(items, tail), |items|) == items + [tail]
  {
    if items != [] { PartsOfList(items[1..], tail); }
  }

  /** Taking apart what has been put together restores the stack, and so does rolling back. */
  lemma PartUndoesPair(n: nat, s: Stack)
    requires n < |s|
    ensures Apply(MakePair(n), s).Some? && Apply(Part(n), Apply(MakePair(n), s).value) == Some(s)
  {
    PartsOfList(s[..n], s[n]);
    var t := [ListOf(s[..n], s[n])] + s[n + 1..];
    assert t[1..] == s[n + 1..] && s[..n] + [s[n]] + s[n + 1..] == s;
  }

  lemma RollUndoesRoll(n: int, s: Stack)
    requires 1 <= n <= |s|
    ensures Apply(Roll(n), s).Some? && Apply(Roll(0 - n), Apply(Roll(n), s).value) == Some(s)
  {
    var t := [s[n - 1]] + s[..n - 1] + s[n..];
    assert t[1..n] == s[..n - 1] && t[n..] == s[n..] && s[..n - 1] + [s[n - 1]] + s[n..] == s;
  }

  /** On what is false, undefined, nil, or zero the second branch is taken, and on everything else the first one. */
  lemma BranchTaken(defs: Definitions, t: Code, f: Code, v: Value, s: Stack, sent: Messages)
    requires t != f
    ensures Step(defs, Running(If(t, f), [v] + s, sent)) == Running(f, s, sent) <==>
            v == Atom(False) || v == Atom(Undef) || v == Atom(Nil) || v == Atom(Int(0))
    ensures Step(defs, Running(If(t, f), [v] + s, sent)) in {Running(t, s, sent), Running(f, s, sent)}
  {
    assert ([v] + s)[1..] == s;
  }
}
