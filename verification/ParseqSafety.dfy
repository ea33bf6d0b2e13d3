/**
 What holds in every run of a parallel, sequence, race or fallback.
 */
module ParseqSafety {
  import opened Prelude
  import opened Parseq

  /** How many of the first k requestors have not been answered. */
  function Unanswered(results: map<nat, Option<Value>>, k: nat): nat {
    if k == 0 then 0 else Unanswered(results, k - 1) + if k - 1 in results then 0 else 1
  }

  lemma {:induction false} AnswerCounts(results: map<nat, Option<Value>>, k: nat, number: nat, value: Option<Value>)
    requires number !in results
    ensures Unanswered(results[number := value], k) == Unanswered(results, k) - if number < k then 1 else 0
  {
    if k > 0 { AnswerCounts(results, k - 1, number, value); }
  }

  lemma {:induction false} NoneLeft(results: map<nat, Option<Value>>, k: nat)
    ensures Unanswered(results, k) == 0 <==> forall i :: 0 <= i < k ==> i in results
  {
    if k > 0 { NoneLeft(results, k - 1); }
  }

  predicate Succeeded(results: map<nat, Option<Value>>, i: nat) { i in results && results[i].Some? }
  predicate Failed(results: map<nat, Option<Value>>, i: nat) { i in results && results[i].None? }

  predicate AllSucceeded(c: Config, results: map<nat, Option<Value>>) {
    forall i :: 0 <= i < c.required ==> Succeeded(results, i)
  }

  /** What a callback may be called with, given what the requestors have answered. */
  ghost predicate Right(c: Config, results: map<nat, Option<Value>>, o: Outcome) {
    if c.n == 0 then o == (if c.sequence then One(c.initial) else Results(map[]))
    else
      match o
      case Results(r) => !c.race && !c.sequence && r == results && AllSucceeded(c, results)
      case One(v) =>
        if c.race then v.Some? && exists i :: i in results && results[i] == v
        else c.sequence && AllSucceeded(c, results) && c.n - 1 in results && v == results[c.n - 1]
      case Failure(reason) =>
        if c.race then
          || (reason == TimedOut && forall i :: i in results ==> results[i].None?)
          || (forall i :: 0 <= i < c.n ==> Failed(results, i))
        else
          || (reason == TimedOut && exists i :: 0 <= i < c.required && i !in results)
          || (exists i :: 0 <= i < c.required && Failed(results, i))
  }

  /**
   The numbers: who is in flight, and how many there are with the start timers; `extra` counts a start in progress.
   */
  ghost predicate Counts(c: Config, s: State, extra: nat) {
    && s.next <= c.n
    && (forall i :: i in s.results ==> i < s.next)
    && (forall i :: i in s.flight ==> i < s.next)
    && |s.flight| + |s.scheduled| + extra <= Width(c)
    && (s.running ==> forall i :: 0 <= i < s.next ==> (i in s.flight <==> i !in s.results))
    && (s.running && s.next < c.n ==> |s.flight| + |s.scheduled| + extra == Width(c))
  }

  /** While the run goes on, nothing has been decided. */
  ghost predicate Undecided(c: Config, s: State) {
    && s.calls == [] && s.callable && !s.left
    && s.pending == Unanswered(s.results, c.n) && s.pending >= 1
    && s.pending_required == Unanswered(s.results, c.required)
    && (!c.race ==>
          && (s.time_option == None ==> s.pending_required >= 1)
          && forall i :: 0 <= i < c.required && i in s.results ==> s.results[i].Some?)
    && (c.race ==> forall i :: i in s.results ==> s.results[i].None?)
  }

  /** When it has ended, the callback has been called once, or the caller has cancelled before. */
  ghost predicate Decided(c: Config, s: State) {
    && !s.timer && |s.calls| <= 1 && (s.left || |s.calls| == 1)
    && (s.calls != [] ==> Right(c, s.results, s.calls[0]))
  }

  /** What the next requestor is to be started with. */
  function Carried(c: Config, s: State): Option<Value> {
    if c.sequence && s.next > 0 then (if s.next - 1 in s.results then s.results[s.next - 1] else None) else c.initial
  }

  /** The requestors of a sequence are given the value of the one before; those of the others the initial value. */
  ghost predicate Flows(c: Config, s: State) {
    && (forall k :: 0 <= k < s.next ==>
          && k in s.given
          && s.given[k] ==
             if c.sequence && k > 0 then (if k - 1 in s.results then s.results[k - 1] else None) else c.initial)
    && (Width(c) == 1 ==> forall i :: 0 <= i && i + 1 < s.next ==> i in s.results && (c.race ==> s.results[i].None?))
    && (s.running ==> forall j :: 0 <= j < |s.scheduled| ==> s.scheduled[j] == Carried(c, s))
  }

  ghost predicate Good(c: Config, s: State, extra: nat) {
    && !s.crashed && Counts(c, s, extra) && Flows(c, s)
    && if s.running then Undecided(c, s) else Decided(c, s)
  }

  lemma BeginGood(c: Config)
    requires Made(c)
    ensures Good(c, Begin(c), 0)
  {
    var s := Begin(c);
    if c.n > 0 {
      assert s.results == map[] && s.flight == {};
      EmptyCounts(c.n);
      EmptyCounts(c.required);
    }
  }

  lemma {:induction false} EmptyCounts(k: nat)
    ensures Unanswered(map[], k) == k
  {
    if k > 0 { EmptyCounts(k - 1); }
  }

  lemma StopGood(c: Config, s: State, extra: nat)
    requires Good(c, s, extra)
    ensures Good(c, Stop(s).(left := true), extra)
  {
  }

  /** The last element of the results of a sequence. */
  lemma LastIs(results: map<nat, Option<Value>>, n: nat)
    requires n > 0 && n - 1 in results
    ensures Last(results, n) == results[n - 1]
  {
  }

  // ----- Actions -----

  lemma RecordedCounts(c: Config, s: State, number: nat, value: Option<Value>, required: bool, extra: nat, s1: State)
    requires Counts(c, s, extra) && s.running && number in s.flight
    requires s1 == Recorded(s.(flight := s.flight - {number}), number, value, required)
    ensures Counts(c, s1, extra + 1) && number !in s.results
  {
    assert s.flight == s.flight - {number} + {number};
    assert |s1.flight| == |s.flight| - 1;
  }

  /** An action records the answer, and either leaves the run undecided or decides it rightly. */
  ghost predicate Settles(c: Config, s: State, number: nat, value: Option<Value>, s1: State) {
    && s1.results == s.results[number := value] && s1.next == s.next && s1.flight == s.flight && s1.given == s.given
    && s1.scheduled == s.scheduled && s1.crashed == s.crashed
    && if s1.running then Undecided(c, s1) else Decided(c, s1)
  }

  lemma RaceSettles(c: Config, s: State, number: nat, value: Option<Value>, reason: Reason)
    requires Made(c) && c.race && s.running && Undecided(c, s) && number !in s.results && number < c.n
    ensures Settles(c, s, number, value, RaceAction(s, number, value, reason))
  {
    var results := s.results[number := value];
    AnswerCounts(s.results, c.n, number, value);
    AnswerCounts(s.results, c.required, number, value);
    NoneLeft(results, c.n);
    assert results[number] == value;
  }

  lemma ParallelCounts(c: Config, s: State, number: nat, value: Option<Value>)
    requires Made(c) && s.running && Undecided(c, s) && number !in s.results && number < c.n
    ensures var results := s.results[number := value];
            && s.pending - 1 == Unanswered(results, c.n)
            && s.pending_required - (if number < c.required then 1 else 0) == Unanswered(results, c.required)
            && (Unanswered(results, c.n) == 0 ==> Unanswered(results, c.required) == 0)
  {
    var results := s.results[number := value];
    AnswerCounts(s.results, c.n, number, value);
    AnswerCounts(s.results, c.required, number, value);
    NoneLeft(results, c.n);
    NoneLeft(results, c.required);
  }

  /** All required requestors are answered, and none has failed. */
  lemma DoneRight(c: Config, results: map<nat, Option<Value>>)
    requires Made(c) && !c.race && c.n > 0 && Unanswered(results, c.required) == 0
    requires forall i :: 0 <= i < c.required && i in results ==> results[i].Some?
    ensures Right(c, results, if c.sequence then One(Last(results, c.n)) else Results(results))
  {
    NoneLeft(results, c.required);
    if c.sequence { LastIs(results, c.n); }
  }

  lemma FinishSettles(c: Config, s: State, o: Outcome)
    requires s.running && s.calls == [] && s.callable && Right(c, s.results, o)
    ensures var s1 := CallBack(Stop(s), o, true);
            && !s1.running && Decided(c, s1) && s1.results == s.results && s1.next == s.next && s1.flight == s.flight
            && s1.given == s.given && s1.scheduled == s.scheduled && s1.crashed == s.crashed
  {
  }

  lemma ParallelSettles(c: Config, s: State, number: nat, value: Option<Value>, reason: Reason)
    requires Made(c) && !c.race && s.running && Undecided(c, s) && number !in s.results && number < c.n
    ensures Settles(c, s, number, value, ParallelAction(c, s, number, value, reason))
  {
    var s1 := Recorded(s, number, value, number < c.required);
    ParallelCounts(c, s, number, value);
    if number < c.required && value == None {
      assert Failed(s1.results, number);
      FinishSettles(c, s1, Failure(reason));
    } else {
      assert forall i :: 0 <= i < c.required && i in s1.results ==> s1.results[i].Some?;
      if Unanswered(s1.results, c.required) == 0 {
        var o := if c.sequence then One(Last(s1.results, c.n)) else Results(s1.results);
        DoneRight(c, s1.results);
        FinishSettles(c, s1, o);
      }
    }
  }

  lemma ActionSettles(c: Config, s: State, number: nat, value: Option<Value>, reason: Reason)
    requires Made(c) && s.running && Undecided(c, s) && number !in s.results && number < c.n
    ensures Settles(c, s, number, value, Action(c, s, number, value, reason))
    ensures c.sequence && value == None ==> !Action(c, s, number, value, reason).running
  {
    if c.race { RaceSettles(c, s, number, value, reason); } else { ParallelSettles(c, s, number, value, reason); }
  }

  /** With one requestor at a time, the one in flight is the last that has started. */
  lemma LastInFlight(c: Config, s: State, extra: nat, number: nat)
    requires Good(c, s, extra) && s.running && number in s.flight
    ensures number < s.next && number !in s.results
    ensures Width(c) == 1 ==> number == s.next - 1 && s.scheduled == [] && extra == 0
  {
    assert s.flight == s.flight - {number} + {number};
    assert |s.flight| >= 1;
  }

  /** A requestor in flight is answered: there is room for one more start. */
  lemma ActionGood(c: Config, s: State, s0: State, number: nat, value: Option<Value>, reason: Reason, extra: nat)
    requires Made(c) && Good(c, s, extra) && s.running && number in s.flight
    requires s0 == s.(flight := s.flight - {number}, cancels := s0.cancels)
    ensures var s1 := Action(c, s0, number, value, reason);
            && Good(c, s1, extra + 1) && (s1.running ==> Carried(c, s1) == if c.sequence then value else c.initial)
            && (c.sequence && value == None ==> !s1.running)
  {
    LastInFlight(c, s, extra, number);
    ActionSettles(c, s0, number, value, reason);
    var s1 := Action(c, s0, number, value, reason);
    RecordedCounts(c, s, number, value, false, extra,
                   Recorded(s.(flight := s.flight - {number}), number, value, false));
    SettledFlows(c, s, s0, number, value, s1, extra);
  }

  /** What follows the answer is started with the value that is carried on. */
  lemma SettledFlows(c: Config, s: State, s0: State, number: nat, value: Option<Value>, s1: State, extra: nat)
    requires Made(c) && Good(c, s, extra) && s.running && number in s.flight && s0.running
    requires s0 == s.(flight := s.flight - {number}, cancels := s0.cancels) && Settles(c, s0, number, value, s1)
    ensures Flows(c, s1) && (s1.running ==> Carried(c, s1) == if c.sequence then value else c.initial)
  {
    LastInFlight(c, s, extra, number);
  }

  lemma ScheduleGood(c: Config, s: State, value: Option<Value>, extra: nat)
    requires Good(c, s, extra + 1) && (s.running ==> value == Carried(c, s))
    ensures Good(c, Scheduled(s, value), extra)
  {
  }

  /** Only the state of an ended run can have fewer in flight than it could. */
  lemma LateGood(c: Config, s: State, number: nat, extra: nat)
    requires Good(c, s, extra) && !(s.running && number in s.flight)
    ensures Good(c, s.(flight := s.flight - {number}), extra)
  {
    FewerInFlight(s.flight, number);
    if s.running { assert s.flight - {number} == s.flight; }
  }

  lemma AnswerGood(c: Config, s: State, number: nat, value: Option<Value>, reason: Reason, extra: nat)
    requires Made(c) && Good(c, s, extra) && number < s.next
    ensures Good(c, Answer(c, s, number, value, reason), extra)
  {
    if s.running && number in s.flight {
      var s0 := s.(flight := s.flight - {number}, cancels := s.cancels - {number});
      LastInFlight(c, s, extra, number);
      ActionGood(c, s, s0, number, value, reason, extra);
      ScheduleGood(c, Action(c, s0, number, value, reason), if c.sequence then value else c.initial, extra);
    } else {
      LateGood(c, s, number, extra);
    }
  }

  lemma FewerInFlight(flight: set<nat>, number: nat)
    ensures |flight - {number}| <= |flight|
  {
    if number in flight { assert flight == flight - {number} + {number}; } else { assert flight - {number} == flight; }
  }

  lemma HandleGood(c: Config, s: State, r: Reply, extra: nat)
    requires Made(c) && Good(c, s, extra)
    ensures Good(c, Handle(c, s, r), extra)
  {
    match r
    case Leave => StopGood(c, s, extra);
    case Reply(number, value, reason) => if number < s.next { AnswerGood(c, s, number, value, reason, extra); }
  }

  lemma {:induction false} HandleAllGood(c: Config, s: State, rs: seq<Reply>, extra: nat)
    requires Made(c) && Good(c, s, extra)
    ensures Good(c, HandleAll(c, s, rs), extra) && HandleAll(c, s, rs).next == s.next
    decreases |rs|
  {
    if rs != [] {
      HandleGood(c, s, rs[0], extra);
      HandleNext(c, s, rs[0]);
      HandleAllGood(c, Handle(c, s, rs[0]), rs[1..], extra);
    }
  }

  lemma ActionNext(c: Config, s: State, number: nat, value: Option<Value>, reason: Reason)
    ensures Action(c, s, number, value, reason).next == s.next
  {
  }

  lemma HandleNext(c: Config, s: State, r: Reply)
    ensures Handle(c, s, r).next == s.next
  {
    if r.Reply? {
      ActionNext(c, s.(flight := s.flight - {r.number}, cancels := s.cancels - {r.number}), r.number, r.value,
                 r.reason);
    }
  }

  lemma StartedGood(c: Config, s: State)
    requires Made(c) && Good(c, s, 1) && s.running && s.next < c.n
    ensures Good(c, Started(s, Carried(c, s)), 0)
  {
    var s1 := Started(s, Carried(c, s));
    assert |s1.flight| == |s.flight| + 1;
    if Width(c) == 1 {
      assert s.flight == {};
    }
  }

  /** A requestor that throws has not called back, and has not had a part in ending the run. */
  ghost predicate Tame(c: Config, s: State, value: Option<Value>, attempts: seq<Attempt>)
    decreases |attempts|
  {
    s.running && s.next < c.n && attempts != [] && attempts[0].end.Throws? ==>
      var number, s1 := s.next, HandleAll(c, Started(s, value), attempts[0].nested);
      && s1.running && number !in s1.results
      && Tame(c, ThrowAction(c, s1, number, attempts[0].end.code), value, attempts[1..])
  }

  lemma {:induction false} StartGood(c: Config, s: State, value: Option<Value>, attempts: seq<Attempt>)
    requires Made(c) && Good(c, s, 1) && Tame(c, s, value, attempts) && (s.running ==> value == Carried(c, s))
    ensures Good(c, Start(c, s, value, attempts), 0)
    decreases |attempts|
  {
    if s.running && s.next < c.n {
      StartedGood(c, s);
      if attempts != [] {
        var number, s1 := s.next, HandleAll(c, Started(s, value), attempts[0].nested);
        HandleAllGood(c, Started(s, value), attempts[0].nested, 0);
        match attempts[0].end
        case Returns(cancellable) => KeepGood(c, s1, number);
        case Throws(code) =>
          ThrowGood(c, s1, number, code);
          NextAttempt(c, s, value, attempts);
          StartGood(c, ThrowAction(c, s1, number, code), value, attempts[1..]);
      }
    }
  }

  /** After an attempt that throws the next requestor is started. */
  lemma NextAttempt(c: Config, s: State, value: Option<Value>, attempts: seq<Attempt>)
    requires s.running && s.next < c.n && attempts != [] && attempts[0].end.Throws?
    ensures var number, s1 := s.next, HandleAll(c, Started(s, value), attempts[0].nested);
            var s2 := ThrowAction(c, s1, number, attempts[0].end.code);
            && Start(c, s, value, attempts) == Start(c, s2, value, attempts[1..])
            && (Tame(c, s, value, attempts) ==>
                s1.running && number !in s1.results && Tame(c, s2, value, attempts[1..]))
  {
  }

  lemma KeepGood(c: Config, s: State, number: nat)
    requires Good(c, s, 0)
    ensures Good(c, s.(cancels := s.cancels + {number}), 0)
  {
  }

  lemma ThrowGood(c: Config, s: State, number: nat, code: int)
    requires Made(c) && Good(c, s, 0) && s.running && number < s.next && number !in s.results
    ensures var s1 := ThrowAction(c, s, number, code);
            Good(c, s1, 1) && (s1.running ==> Carried(c, s1) == c.initial && !c.sequence)
  {
    assert number in s.flight;
    ActionGood(c, s, s.(flight := s.flight - {number}), number, None, Given(code), 0);
  }

  // ----- Runs -----

  ghost predicate TameEvent(c: Config, s: State, e: Event) {
    e.Fire? && e.i < |s.scheduled| ==>
      Tame(c, s.(scheduled := s.scheduled[..e.i] + s.scheduled[e.i + 1..]), s.scheduled[e.i], e.attempts)
  }

  ghost predicate TameRun(c: Config, events: seq<Event>) {
    events != [] ==>
      var before := events[..|events| - 1];
      TameRun(c, before) && TameEvent(c, Run(c, before), events[|events| - 1])
  }

  lemma ExpiredGood(c: Config, s: State)
    requires Made(c) && Good(c, s, 0) && s.timer
    ensures Good(c, Expired(c, s), 0)
  {
    if s.running {
      NoneLeft(s.results, c.required);
      NoneLeft(s.results, c.n);
    }
  }

  /** A start timer that has fired is no longer scheduled, but a start is in progress. */
  lemma FireGood(c: Config, s: State, i: nat)
    requires Good(c, s, 0) && i < |s.scheduled|
    ensures Good(c, s.(scheduled := s.scheduled[..i] + s.scheduled[i + 1..]), 1)
    ensures s.running ==> s.scheduled[i] == Carried(c, s)
  {
  }

  lemma EventGood(c: Config, s: State, e: Event)
    requires Made(c) && Good(c, s, 0) && TameEvent(c, s, e)
    ensures Good(c, Happen(c, s, e), 0)
  {
    match e
    case Fire(i, attempts) =>
      if i < |s.scheduled| {
        FireGood(c, s, i);
        StartGood(c, s.(scheduled := s.scheduled[..i] + s.scheduled[i + 1..]), s.scheduled[i], attempts);
      }
    case Outside(r) => HandleGood(c, s, r, 0);
    case Expire => if s.timer { ExpiredGood(c, s); }
  }

  lemma {:induction false} RunGood(c: Config, events: seq<Event>)
    requires Made(c) && TameRun(c, events)
    ensures Good(c, Run(c, events), 0)
    decreases |events|
  {
    if events == [] {
      BeginGood(c);
    } else {
      RunGood(c, events[..|events| - 1]);
      EventGood(c, Run(c, events[..|events| - 1]), events[|events| - 1]);
    }
  }

  /** In every run the callback is called at most once, and rightly. */
  lemma CalledOnce(c: Config, events: seq<Event>)
    requires Made(c) && TameRun(c, events)
    ensures var s := Run(c, events); !s.crashed && |s.calls| <= 1 && (s.calls != [] ==> Right(c, s.results, s.calls[0]))
  {
    RunGood(c, events);
  }

  /** At most as many requestors as the throttle allows are in flight, or, without one, as there are. */
  lemma Throttled(c: Config, events: seq<Event>)
    requires Made(c) && TameRun(c, events)
    ensures |Run(c, events).flight| <= Width(c)
    ensures c.throttle > 0 ==> |Run(c, events).flight| <= c.throttle
  {
    RunGood(c, events);
  }

  /** When nothing is scheduled or in flight, the callback has been called exactly once, or the caller has cancelled. */
  lemma Finishes(c: Config, events: seq<Event>)
    requires Made(c) && TameRun(c, events) && Run(c, events).scheduled == [] && Run(c, events).flight == {}
    ensures !Run(c, events).running
    ensures |Run(c, events).calls| == 1 || (Run(c, events).left && Run(c, events).calls == [])
  {
    RunGood(c, events);
    var s := Run(c, events);
    if s.running {
      assert s.next == c.n;
      NoneLeft(s.results, c.n);
      assert false;
    }
  }

  /**
   A sequence passes every value on to the next requestor; the others start every requestor with the initial value.
   */
  lemma ValuesFlow(c: Config, events: seq<Event>, k: nat)
    requires Made(c) && TameRun(c, events) && k < Run(c, events).next
    ensures var s := Run(c, events);
            && k in s.given
            && if c.sequence && k > 0 then k - 1 in s.results && s.given[k] == s.results[k - 1]
               else s.given[k] == c.initial
  {
    RunGood(c, events);
  }

  /** A fallback starts a requestor only when all those before it have failed. */
  lemma FallbackInOrder(c: Config, events: seq<Event>, k: nat, i: nat)
    requires Made(c) && c.race && c.throttle == 1 && TameRun(c, events) && i < k < Run(c, events).next
    ensures Failed(Run(c, events).results, i)
  {
    RunGood(c, events);
  }

  /** The closures, driven through any run, never call back more than once. */
  method Drive(c: Config, events: seq<Event>) returns (r: Requestor)
    requires Made(c) && TameRun(c, events)
    ensures fresh(r) && r.Now() == Run(c, events) && !r.crashed && |r.calls| <= 1
  {
    r := new Requestor(c);
    var i := 0;
    assert events[..|events|] == events;
    while i < |events|
      invariant 0 <= i <= |events|
      invariant fresh(r) && r.c == c && r.Now() == Run(c, events[..i])
    {
      assert events[..i + 1][..i] == events[..i];
      r.Take(events[i]);
      i := i + 1;
    }
    CalledOnce(c, events);
  }
}
