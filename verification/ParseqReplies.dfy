/**
 The results of a run are what its requestors have answered first.
 */
module ParseqReplies {
  import opened Prelude
  import opened Parseq
  import opened ParseqSafety

  /** Who has replied, with what value, and with what reason. */
  type Log = seq<(nat, Option<Value>, Reason)>

  /** The first reply of a requestor. */
  function First(log: Log, number: nat): Option<Option<Value>> {
    if log == [] then None else if log[0].0 == number then Some(log[0].1) else First(log[1..], number)
  }

  lemma {:induction false} FirstAppend(x: Log, y: Log, number: nat)
    ensures First(x + y, number) == if First(x, number).Some? then First(x, number) else First(y, number)
  {
    if x == [] {
      assert x + y == y;
    } else {
      assert (x + y)[1..] == x[1..] + y;
      FirstAppend(x[1..], y, number);
    }
  }

  // ----- What is said while the run goes on -----

  /** Every reply, the first of a requestor or not, that comes while the run goes on. */
  function Said(s: State, r: Reply): Log {
    if r.Reply? && r.number < s.next && s.running then [(r.number, r.value, r.reason)] else []
  }

  function SaidAll(c: Config, s: State, rs: seq<Reply>): Log
    decreases |rs|
  {
    if rs == [] then [] else Said(s, rs[0]) + SaidAll(c, Handle(c, s, rs[0]), rs[1..])
  }

  /** A requestor that throws has failed. */
  function SaidAtStart(c: Config, s: State, value: Option<Value>, attempts: seq<Attempt>): Log
    decreases |attempts|
  {
    if !s.running || s.next >= c.n || attempts == [] then []
    else
      var number, s1 := s.next, HandleAll(c, Started(s, value), attempts[0].nested);
      SaidAll(c, Started(s, value), attempts[0].nested)
      + match attempts[0].end
        case Returns(_) => []
        case Throws(code) =>
          [(number, None, Given(code))]
          + SaidAtStart(c, ThrowAction(c, s1, number, code), value, attempts[1..])
  }

  function SaidIn(c: Config, s: State, e: Event): Log {
    match e
    case Fire(i, attempts) =>
      if i < |s.scheduled|
      then SaidAtStart(c, s.(scheduled := s.scheduled[..i] + s.scheduled[i + 1..]), s.scheduled[i], attempts)
      else []
    case Outside(r) => Said(s, r)
    case Expire => []
  }

  function LogOf(c: Config, events: seq<Event>): Log {
    if events == [] then []
    else
      var before := events[..|events| - 1];
      LogOf(c, before) + SaidIn(c, Run(c, before), events[|events| - 1])
  }

  // ----- The results -----

  function Found(results: map<nat, Option<Value>>, number: nat): Option<Option<Value>> {
    if number in results then Some(results[number]) else None
  }

  /** Between two states, the first replies of those that had not been answered are recorded. */
  ghost predicate Records(before: map<nat, Option<Value>>, log: Log, after: map<nat, Option<Value>>) {
    forall i: nat :: Found(after, i) == if i in before then Found(before, i) else First(log, i)
  }

  lemma RecordsNothing(results: map<nat, Option<Value>>)
    ensures Records(results, [], results)
  {
  }

  lemma RecordsOne(results: map<nat, Option<Value>>, number: nat, value: Option<Value>, reason: Reason)
    ensures Records(results, [(number, value, reason)], if number in results then results else results[number := value])
  {
    var log: Log := [(number, value, reason)];
    assert log[1..] == [];
    forall i: nat ensures First(log, i) == if i == number then Some(value) else None {
      assert First([], i) == None;
    }
  }

  lemma RecordsMore(a: map<nat, Option<Value>>, x: Log, b: map<nat, Option<Value>>, y: Log, c: map<nat, Option<Value>>)
    requires Records(a, x, b) && Records(b, y, c)
    ensures Records(a, x + y, c)
  {
    forall i: nat ensures Found(c, i) == if i in a then Found(a, i) else First(x + y, i) {
      FirstAppend(x, y, i);
      assert Found(b, i) == if i in a then Found(a, i) else First(x, i);
    }
  }

  lemma AnswerRecorded(c: Config, s: State, number: nat, value: Option<Value>, reason: Reason)
    ensures Answer(c, s, number, value, reason).results ==
            if s.running && number !in s.results then s.results[number := value] else s.results
  {
  }

  lemma HandleRecords(c: Config, s: State, r: Reply)
    ensures Records(s.results, Said(s, r), Handle(c, s, r).results)
  {
    RecordsNothing(s.results);
    if r.Reply? && r.number < s.next {
      AnswerRecorded(c, s, r.number, r.value, r.reason);
      RecordsOne(s.results, r.number, r.value, r.reason);
    }
  }

  lemma {:induction false} HandleAllRecords(c: Config, s: State, rs: seq<Reply>)
    ensures Records(s.results, SaidAll(c, s, rs), HandleAll(c, s, rs).results)
    decreases |rs|
  {
    if rs == [] {
      RecordsNothing(s.results);
    } else {
      var s1 := Handle(c, s, rs[0]);
      HandleRecords(c, s, rs[0]);
      HandleAllRecords(c, s1, rs[1..]);
      RecordsMore(s.results, Said(s, rs[0]), s1.results, SaidAll(c, s1, rs[1..]), HandleAll(c, s, rs).results);
    }
  }

  lemma ThrowRecords(c: Config, s: State, number: nat, code: int)
    requires number !in s.results
    ensures Records(s.results, [(number, None, Given(code))], ThrowAction(c, s, number, code).results)
  {
    RecordsOne(s.results, number, None, Given(code));
  }

  lemma {:induction false} StartRecords(c: Config, s: State, value: Option<Value>, attempts: seq<Attempt>)
    requires Tame(c, s, value, attempts)
    ensures Records(s.results, SaidAtStart(c, s, value, attempts), Start(c, s, value, attempts).results)
    decreases |attempts|
  {
    RecordsNothing(s.results);
    if s.running && s.next < c.n && attempts != [] {
      var number, s0, nested := s.next, Started(s, value), attempts[0].nested;
      var s1, said := HandleAll(c, s0, nested), SaidAll(c, s0, nested);
      HandleAllRecords(c, s0, nested);
      match attempts[0].end
      case Returns(_) => assert said + [] == said;
      case Throws(code) =>
        var s3 := ThrowAction(c, s1, number, code);
        ThrowRecords(c, s1, number, code);
        StartRecords(c, s3, value, attempts[1..]);
        var more, s4 := SaidAtStart(c, s3, value, attempts[1..]), Start(c, s3, value, attempts[1..]);
        var failure: Log := [(number, None, Given(code))];
        RecordsMore(s1.results, failure, s3.results, more, s4.results);
        RecordsMore(s.results, said, s1.results, failure + more, s4.results);
    }
  }

  lemma EventRecords(c: Config, s: State, e: Event)
    requires TameEvent(c, s, e)
    ensures Records(s.results, SaidIn(c, s, e), Happen(c, s, e).results)
  {
    RecordsNothing(s.results);
    match e
    case Fire(i, attempts) =>
      if i < |s.scheduled| {
        StartRecords(c, s.(scheduled := s.scheduled[..i] + s.scheduled[i + 1..]), s.scheduled[i], attempts);
      }
    case Outside(r) => HandleRecords(c, s, r);
    case Expire =>
  }

  /**
   In every run the results are the first replies, while the run goes on, of the requestors that have replied; to
   throw is to reply with a failure.
   */
  lemma {:induction false} RepliesRecorded(c: Config, events: seq<Event>)
    requires TameRun(c, events)
    ensures forall i: nat :: Found(Run(c, events).results, i) == First(LogOf(c, events), i)
    decreases |events|
  {
    if events != [] {
      var before, e := events[..|events| - 1], events[|events| - 1];
      var s := Run(c, before);
      RepliesRecorded(c, before);
      EventRecords(c, s, e);
      forall i: nat ensures Found(Run(c, events).results, i) == First(LogOf(c, events), i) {
        FirstAppend(LogOf(c, before), SaidIn(c, s, e), i);
      }
    }
  }
}
