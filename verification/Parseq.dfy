/**
 The requestor factories parallel, sequence, race and fallback, as a protocol.

 Requestors, timers and the caller are adversarial: any start timer may fire, any started
 requestor may call back, at any time and repeatedly, the time limit may expire, and the
 caller may cancel. While a requestor is being started it may do some of this synchronously.
 */
module Parseq {
  import opened Prelude

  type Value = int

  datatype Reason = Given(code: int) | TimedOut

  /** A callback with the results of a parallel, with one value, or with a reason. */
  datatype Outcome = Results(results: map<nat, Option<Value>>) | One(value: Option<Value>) | Failure(reason: Reason)

  /**
   What a factory has made: a race or a parallel, perhaps a sequence; the number of requestors and of
   the required ones among them, which come first.
   */
  datatype Config = Config(race: bool, sequence: bool, n: nat, required: nat, time_option: Option<bool>,
                           throttle: nat, timed: bool, initial: Option<Value>)

  /**
   The variables of a run, and what it has done so far. `cancels` are the requestors whose cancel functions
   are kept, `stopped` those whose were called; `flight` are the requestors that have started and not called
   back; `given` the values they were started with; `left` says that the caller has cancelled.
   */
  datatype State = State(
    running: bool, next: nat, timer: bool, cancels: set<nat>, scheduled: seq<Option<Value>>,
    pending: int, pending_required: int, results: map<nat, Option<Value>>, time_option: Option<bool>, callable: bool,
    calls: seq<Outcome>, crashed: bool, left: bool,
    flight: set<nat>, given: map<nat, Option<Value>>, stopped: set<nat>)

  datatype Reply = Reply(number: nat, value: Option<Value>, reason: Reason) | Leave

  /** What happens while a requestor is being called: replies of this or other requestors, then it returns or throws. */
  datatype Attempt = Attempt(nested: seq<Reply>, end: End)
  datatype End = Returns(cancellable: bool) | Throws(code: int)

  datatype Event = Fire(i: nat, attempts: seq<Attempt>) | Outside(reply: Reply) | Expire

  // ----- The factories -----

  /** None is for the exceptions. A factory without required requestors waits, one without optional ones does not. */
  function MakeParallel(required: nat, optional: nat, time_option: Option<bool>, throttle: nat, timed: bool,
                        initial: Option<Value>): Config {
    Config(false, false, required + optional, required,
           if required == 0 then Some(true) else if optional == 0 then None else time_option, throttle, timed, initial)
  }

  function MakeSequence(n: nat, timed: bool, initial: Option<Value>): Config {
    MakeParallel(n, 0, None, 1, timed, initial).(sequence := true)
  }

  function MakeRace(n: nat, throttle: nat, timed: bool, initial: Option<Value>): Option<Config> {
    if n == 0 then None else Some(Config(true, false, n, 0, None, throttle, timed, initial))
  }

  function MakeFallback(n: nat, timed: bool, initial: Option<Value>): Option<Config> { MakeRace(n, 1, timed, initial) }

  /** What the factories make. */
  predicate Made(c: Config) {
    && c.required <= c.n
    && (c.race ==> !c.sequence && c.required == 0 && c.n > 0)
    && (!c.race && c.required == 0 && c.n > 0 ==> c.time_option == Some(true))
    && (c.sequence ==> c.throttle == 1 && c.required == c.n)
    && (c.required == c.n > 0 ==> c.time_option == None)
  }

  /** A parallel of both kinds keeps its time option; a sequence is a parallel of required requestors. */
  lemma FactoriesMake(required: nat, optional: nat, time_option: Option<bool>, throttle: nat, timed: bool,
                      initial: Option<Value>)
    ensures var c := MakeParallel(required, optional, time_option, throttle, timed, initial);
            && Made(c) && !c.race && !c.sequence && c.n == required + optional && c.required == required
            && c.throttle == throttle && c.timed == timed && c.initial == initial
            && (required > 0 && optional > 0 ==> c.time_option == time_option)
    ensures var c := MakeSequence(required, timed, initial);
            && !c.race && c.sequence && c.n == required == c.required && c.timed == timed && c.initial == initial
            && (required > 0 ==> Made(c) && Width(c) == 1)
    ensures var race := MakeRace(optional, throttle, timed, initial);
            && (race.Some? <==> optional > 0)
            && (race.Some? ==>
                  && Made(race.value) && race.value.race && race.value.n == optional
                  && race.value.throttle == throttle && race.value.timed == timed && race.value.initial == initial)
    ensures MakeFallback(optional, timed, initial) == MakeRace(optional, 1, timed, initial)
    ensures var fallback := MakeFallback(optional, timed, initial);
            fallback.Some? ==> Made(fallback.value) && Width(fallback.value) == 1
  {
  }

  // ----- What happens -----

  function Width(c: Config): nat { if c.throttle == 0 || c.throttle > c.n then c.n else c.throttle }

  /** The requestor is called. If there is nothing to run, it calls back at once. */
  function Begin(c: Config): State {
    var idle := State(true, 0, c.timed, {}, seq(Width(c), _ => c.initial), c.n, c.required, map[], c.time_option, true,
                      [], false, false, {}, map[], {});
    if c.n == 0 then
      idle.(running := false, timer := false, callable := false,
            calls := [if c.sequence then One(c.initial) else Results(map[])])
    else idle
  }

  /** `cancel`. */
  function Stop(s: State): (r: State)
    ensures r.next == s.next && r.results == s.results
  {
    s.(running := false, timer := false, cancels := {},
       stopped := if s.running then s.stopped + s.cancels else s.stopped)
  }

  /** The callback is called, and forgotten if it says so. */
  function CallBack(s: State, o: Outcome, forget: bool): (r: State)
    ensures r.next == s.next && r.results == s.results
  {
    if s.callable then s.(calls := s.calls + [o], callable := !forget) else s.(crashed := true)
  }

  /** The last element of the results array. */
  function Last(results: map<nat, Option<Value>>, n: nat): Option<Value> {
    if n == 0 then None else if n - 1 in results then results[n - 1] else Last(results, n - 1)
  }

  /** The action keeps the value and counts down. */
  function Recorded(s: State, number: nat, value: Option<Value>, required: bool): (r: State)
    ensures r.next == s.next
  {
    s.(results := s.results[number := value], pending := s.pending - 1,
       pending_required := if required then s.pending_required - 1 else s.pending_required)
  }

  function ParallelAction(c: Config, s: State, number: nat, value: Option<Value>, reason: Reason): (r: State)
    ensures r.next == s.next && r.results == s.results[number := value]
  {
    var s1 := Recorded(s, number, value, number < c.required);
    if number < c.required && value == None then CallBack(Stop(s1), Failure(reason), true)
    else if s1.pending < 1 || (s1.time_option == None && s1.pending_required < 1) then
      CallBack(Stop(s1), if c.sequence then One(Last(s1.results, c.n)) else Results(s1.results), true)
    else s1
  }

  function RaceAction(s: State, number: nat, value: Option<Value>, reason: Reason): (r: State)
    ensures r.next == s.next && r.results == s.results[number := value]
  {
    var s1 := Recorded(s, number, value, false);
    if value != None then CallBack(Stop(s1), One(value), true)
    else if s1.pending < 1 then CallBack(Stop(s1), Failure(reason), true)
    else s1
  }

  function Action(c: Config, s: State, number: nat, value: Option<Value>, reason: Reason): (r: State)
    ensures r.results == s.results[number := value]
  {
    if c.race then RaceAction(s, number, value, reason) else ParallelAction(c, s, number, value, reason)
  }

  /** The action without a number: it records nothing and takes no requestor for a required one. */
  function Numberless(c: Config, s: State, reason: Reason): (r: State)
    ensures r.next == s.next && r.results == s.results
  {
    var s1 := s.(pending := s.pending - 1);
    if c.race then if s1.pending < 1 then CallBack(Stop(s1), Failure(reason), true) else s1
    else if s1.pending < 1 || (s1.time_option == None && s1.pending_required < 1) then
      CallBack(Stop(s1), if c.sequence then One(Last(s1.results, c.n)) else Results(s1.results), true)
    else s1
  }

  /** A requestor throws. If it has called back, and that has counted, its number has been cleared. */
  function ThrowAction(c: Config, s: State, number: nat, code: int): (r: State)
    ensures r.results == if number in s.results then s.results else s.results[number := None]
  {
    var s1 := s.(flight := s.flight - {number});
    if number in s.results then Numberless(c, s1, Given(code)) else Action(c, s1, number, None, Given(code))
  }

  /** A started requestor calls back: once, and only while the run goes on, does that count. */
  function Answer(c: Config, s: State, number: nat, value: Option<Value>, reason: Reason): State {
    if !s.running || number in s.results then s.(flight := s.flight - {number})
    else
      Scheduled(Action(c, s.(flight := s.flight - {number}, cancels := s.cancels - {number}), number, value, reason),
                if c.sequence then value else c.initial)
  }

  function Scheduled(s: State, value: Option<Value>): (r: State)
    ensures r.results == s.results
  {
    s.(scheduled := s.scheduled + [value])
  }

  /** A reply can come from any requestor that has started. */
  function Handle(c: Config, s: State, r: Reply): State {
    match r
    case Leave => Stop(s).(left := true)
    case Reply(number, value, reason) => if number < s.next then Answer(c, s, number, value, reason) else s
  }

  function HandleAll(c: Config, s: State, rs: seq<Reply>): State
    decreases |rs|
  {
    if rs == [] then s else HandleAll(c, Handle(c, s, rs[0]), rs[1..])
  }

  function Started(s: State, value: Option<Value>): State {
    s.(next := s.next + 1, flight := s.flight + {s.next}, given := s.given[s.next := value])
  }

  /** `start_requestor`. A requestor that throws has failed, and the next one is started at once. */
  function Start(c: Config, s: State, value: Option<Value>, attempts: seq<Attempt>): State
    decreases |attempts|
  {
    if !s.running || s.next >= c.n then s
    else if attempts == [] then Started(s, value)
    else
      var number, s1 := s.next, HandleAll(c, Started(s, value), attempts[0].nested);
      match attempts[0].end
      case Returns(cancellable) =>
        if cancellable && s1.running then s1.(cancels := s1.cancels + {number}) else s1
      case Throws(code) =>
        Start(c, ThrowAction(c, s1, number, code), value, attempts[1..])
  }

  function Expired(c: Config, s: State): State {
    if c.race then CallBack(Stop(s), Failure(TimedOut), true)
    else if s.time_option == Some(false) then
      var s1 := s.(time_option := None, timer := false);
      if s1.pending_required < 1 then CallBack(Stop(s1), Results(s1.results), false) else s1
    else CallBack(Stop(s), if s.pending_required < 1 then Results(s.results) else Failure(TimedOut), true)
  }

  function Happen(c: Config, s: State, e: Event): State {
    match e
    case Fire(i, attempts) =>
      if i < |s.scheduled|
      then Start(c, s.(scheduled := s.scheduled[..i] + s.scheduled[i + 1..]), s.scheduled[i], attempts)
      else s
    case Outside(r) => Handle(c, s, r)
    case Expire => if s.timer then Expired(c, s) else s
  }

  function Run(c: Config, events: seq<Event>): State {
    if events == [] then Begin(c) else Happen(c, Run(c, events[..|events| - 1]), events[|events| - 1])
  }

  // ----- The closures -----

  class Requestor {
    const c: Config
    var running: bool
    var next_number: nat
    var timer: bool
    var cancels: set<nat>
    var scheduled: seq<Option<Value>>
    var number_of_pending: int
    var number_of_pending_required: int
    var results: map<nat, Option<Value>>
    var time_option: Option<bool>
    var callable: bool
    var calls: seq<Outcome>
    var crashed: bool
    var left: bool
    ghost var flight: set<nat>
    ghost var given: map<nat, Option<Value>>
    var stopped: set<nat>

    ghost function Now(): State
      reads this
    {
      State(running, next_number, timer, cancels, scheduled, number_of_pending, number_of_pending_required, results,
            time_option, callable, calls, crashed, left, flight, given, stopped)
    }

    constructor (c: Config)
      ensures this.c == c && Now() == Begin(c)
    {
      this.c := c;
      running, next_number, timer, cancels := c.n > 0, 0, c.timed && c.n > 0, {};
      scheduled := seq(Width(c), _ => c.initial);
      number_of_pending, number_of_pending_required, results := c.n, c.required, map[];
      time_option, callable, crashed, left := c.time_option, c.n > 0, false, false;
      calls := if c.n > 0 then [] else if c.sequence then [One(c.initial)] else [Results(map[])];
      flight, given, stopped := {}, map[], {};
    }

    method Cancel()
      modifies this
      ensures Now() == Stop(old(Now()))
    {
      timer := false;
      if running {
        stopped := stopped + cancels;
        running := false;
      }
      cancels := {};
    }

    method Call(o: Outcome, forget: bool)
      modifies this`calls, this`callable, this`crashed
      ensures Now() == CallBack(old(Now()), o, forget)
    {
      if !callable {
        crashed := true;
      } else {
        calls := calls + [o];
        callable := !forget;
      }
    }

    method Finish(o: Outcome)
      modifies this
      ensures Now() == CallBack(Stop(old(Now())), o, true)
    {
      Cancel();
      Call(o, true);
    }

    method Record(number: nat, value: Option<Value>, required: bool)
      modifies this
      ensures Now() == Recorded(old(Now()), number, value, required)
    {
      results := results[number := value];
      number_of_pending := number_of_pending - 1;
      if required { number_of_pending_required := number_of_pending_required - 1; }
    }

    method Act(number: nat, value: Option<Value>, reason: Reason)
      modifies this
      ensures Now() == Action(c, old(Now()), number, value, reason)
    {
      if c.race { RaceAct(number, value, reason); } else { ParallelAct(number, value, reason); }
    }

    method RaceAct(number: nat, value: Option<Value>, reason: Reason)
      modifies this
      ensures Now() == RaceAction(old(Now()), number, value, reason)
    {
      Record(number, value, false);
      if value != None {
        Finish(One(value));
      } else if number_of_pending < 1 {
        Finish(Failure(reason));
      }
    }

    method ParallelAct(number: nat, value: Option<Value>, reason: Reason)
      modifies this
      ensures Now() == ParallelAction(c, old(Now()), number, value, reason)
    {
      Record(number, value, number < c.required);
      if number < c.required && value == None {
        Finish(Failure(reason));
      } else if number_of_pending < 1 || (time_option == None && number_of_pending_required < 1) {
        Finish(if c.sequence then One(Last(results, c.n)) else Results(results));
      }
    }

    method Receive(number: nat, value: Option<Value>, reason: Reason)
      modifies this
      ensures Now() == Answer(c, old(Now()), number, value, reason)
    {
      flight := flight - {number};
      if running && number !in results {
        cancels := cancels - {number};
        Act(number, value, reason);
        Schedule(if c.sequence then value else c.initial);
      }
    }

    method Schedule(value: Option<Value>)
      modifies this`scheduled
      ensures Now() == Scheduled(old(Now()), value)
    {
      scheduled := scheduled + [value];
    }

    method Obey(r: Reply)
      modifies this
      ensures Now() == Handle(c, old(Now()), r)
    {
      match r
      case Leave =>
        Cancel();
        left := true;
      case Reply(number, value, reason) =>
        if number < next_number { Receive(number, value, reason); }
    }

    method ObeyAll(rs: seq<Reply>)
      modifies this
      ensures Now() == HandleAll(c, old(Now()), rs)
      decreases |rs|
    {
      if rs != [] {
        Obey(rs[0]);
        ObeyAll(rs[1..]);
      }
    }

    method Launch(value: Option<Value>) returns (number: nat)
      modifies this`flight, this`given, this`next_number
      ensures number == old(next_number) && Now() == Started(old(Now()), value)
    {
      number := next_number;
      flight, given := flight + {number}, given[number := value];
      next_number := next_number + 1;
    }

    method Fail(number: nat, code: int)
      modifies this
      ensures Now() == ThrowAction(c, old(Now()), number, code)
    {
      flight := flight - {number};
      // Whoever has called back has no number any more.
      if number in results { ActNumberless(Given(code)); } else { Act(number, None, Given(code)); }
    }

    method ActNumberless(reason: Reason)
      modifies this
      ensures Now() == Numberless(c, old(Now()), reason)
    {
      number_of_pending := number_of_pending - 1;
      if c.race {
        if number_of_pending < 1 { Finish(Failure(reason)); }
      } else if number_of_pending < 1 || (time_option == None && number_of_pending_required < 1) {
        Finish(if c.sequence then One(Last(results, c.n)) else Results(results));
      }
    }

    method StartRequestor(value: Option<Value>, attempts: seq<Attempt>)
      modifies this
      ensures Now() == Start(c, old(Now()), value, attempts)
      decreases |attempts|
    {
      if running && next_number < c.n {
        var number := Launch(value);
        if attempts == [] { return; }
        ObeyAll(attempts[0].nested);
        match attempts[0].end
        case Returns(cancellable) =>
          if cancellable && running { cancels := cancels + {number}; }
        case Throws(code) =>
          Fail(number, code);
          StartRequestor(value, attempts[1..]);
      }
    }

    method TimeLimit()
      modifies this
      ensures Now() == Expired(c, old(Now()))
    {
      if c.race {
        Finish(Failure(TimedOut));
      } else if time_option == Some(false) {
        time_option := None;
        timer := false;
        if number_of_pending_required < 1 {
          Cancel();
          Call(Results(results), false);
        }
      } else {
        Cancel();
        if number_of_pending_required < 1 {
          Call(Results(results), true);
        } else {
          Call(Failure(TimedOut), true);
        }
      }
    }

    method Take(e: Event)
      modifies this
      ensures Now() == Happen(c, old(Now()), e)
    {
      match e
      case Fire(i, attempts) =>
        if i < |scheduled| {
          var value := scheduled[i];
          scheduled := scheduled[..i] + scheduled[i + 1..];
          StartRequestor(value, attempts);
        }
      case Outside(r) => Obey(r);
      case Expire => if timer { TimeLimit(); }
    }
  }
}
