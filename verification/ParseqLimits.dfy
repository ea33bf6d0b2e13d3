/**
 Why a run has ended: the last reply before, or the time limit; and what the limit and the throttle are for.
 */
module ParseqLimits {
  import opened Prelude
  import opened Parseq
  import opened ParseqSafety
  import opened ParseqReplies

  // ----- What the last reply has decided -----

  /**
   How a reply ends a run. A parallel has all the values, unless it does not wait for optional ones; the failure is that
   of the last reply, by which the last of a race or a required requestor has failed.
   */
  ghost predicate Cause(c: Config, results: map<nat, Option<Value>>, time_option: Option<bool>, log: Log, o: Outcome) {
    match o
    case Results(_) => time_option == None || forall i: nat :: i < c.n ==> i in results
    case One(value) => c.race ==> log != [] && log[|log| - 1].1 == value
    case Failure(reason) =>
      && log != []
      && var (number, value, given) := log[|log| - 1];
      && value == None && given == reason
      && if c.race then forall i: nat :: i < c.n ==> Failed(results, i)
         else number < c.required && Failed(results, number)
  }

  ghost predicate Caused(c: Config, s: State, log: Log) {
    s.calls != [] ==> Cause(c, s.results, s.time_option, log, s.calls[0])
  }

  /** Only replies before the callback can be the cause, and nothing changes after it. */
  ghost predicate Explains(c: Config, s: State, log: Log, s1: State) {
    && s1.time_option == s.time_option && (!s.running ==> !s1.running && s1.calls == s.calls)
    && (s.calls == [] ==> Caused(c, s1, log))
    && (s.calls == [] && s1.calls != [] ==> !s1.callable)
    && (s.calls != [] ==>
          log == [] && s1.calls == s.calls && s1.results == s.results && (s1.callable ==> s.callable))
  }

  lemma ExplainsMore(c: Config, s: State, x: Log, s1: State, y: Log, s2: State)
    requires Explains(c, s, x, s1) && Explains(c, s1, y, s2)
    ensures Explains(c, s, x + y, s2)
  {
    if y == [] { assert x + y == x; }
  }

  lemma ActionCaused(c: Config, s: State, number: nat, value: Option<Value>, reason: Reason)
    requires Made(c) && s.running && Undecided(c, s) && number !in s.results && number < c.n
    ensures Explains(c, s, [(number, value, reason)], Action(c, s, number, value, reason))
  {
    ActionSettles(c, s, number, value, reason);
    NoneLeft(s.results[number := value], c.n);
    AnswerCounts(s.results, c.n, number, value);
  }

  lemma HandleCaused(c: Config, s: State, r: Reply, extra: nat)
    requires Made(c) && Good(c, s, extra)
    ensures Explains(c, s, Said(s, r), Handle(c, s, r))
  {
    if r.Reply? && r.number < s.next && s.running && r.number !in s.results {
      var s0 := s.(flight := s.flight - {r.number}, cancels := s.cancels - {r.number});
      ActionCaused(c, s0, r.number, r.value, r.reason);
    }
  }

  lemma {:induction false} HandleAllCaused(c: Config, s: State, rs: seq<Reply>, extra: nat)
    requires Made(c) && Good(c, s, extra)
    ensures Explains(c, s, SaidAll(c, s, rs), HandleAll(c, s, rs))
    decreases |rs|
  {
    if rs != [] {
      var s1 := Handle(c, s, rs[0]);
      HandleGood(c, s, rs[0], extra);
      HandleCaused(c, s, rs[0], extra);
      HandleAllCaused(c, s1, rs[1..], extra);
      ExplainsMore(c, s, Said(s, rs[0]), s1, SaidAll(c, s1, rs[1..]), HandleAll(c, s, rs));
    }
  }

  lemma ThrowCaused(c: Config, s: State, number: nat, code: int)
    requires Made(c) && Good(c, s, 0) && s.running && number < s.next && number !in s.results
    ensures Explains(c, s, [(number, None, Given(code))], ThrowAction(c, s, number, code))
  {
    ActionCaused(c, s.(flight := s.flight - {number}), number, None, Given(code));
  }

  lemma {:induction false} StartCaused(c: Config, s: State, value: Option<Value>, attempts: seq<Attempt>)
    requires Made(c) && Good(c, s, 1) && Tame(c, s, value, attempts) && (s.running ==> value == Carried(c, s))
    ensures Explains(c, s, SaidAtStart(c, s, value, attempts), Start(c, s, value, attempts))
    decreases |attempts|
  {
    if s.running && s.next < c.n && attempts != [] {
      var number, s0, nested := s.next, Started(s, value), attempts[0].nested;
      var s1, said := HandleAll(c, s0, nested), SaidAll(c, s0, nested);
      StartedGood(c, s);
      HandleAllGood(c, s0, nested, 0);
      HandleAllCaused(c, s0, nested, 0);
      assert Explains(c, s, said, s1);
      match attempts[0].end
      case Returns(_) => assert said + [] == said;
      case Throws(code) =>
        var s2, failure: Log := ThrowAction(c, s1, number, code), [(number, None, Given(code))];
        ThrowCaused(c, s1, number, code);
        ThrowGood(c, s1, number, code);
        NextAttempt(c, s, value, attempts);
        StartCaused(c, s2, value, attempts[1..]);
        var more, s3 := SaidAtStart(c, s2, value, attempts[1..]), Start(c, s2, value, attempts[1..]);
        ExplainsMore(c, s1, failure, s2, more, s3);
        ExplainsMore(c, s, said, s1, failure + more, s3);
    }
  }

  lemma EventCaused(c: Config, s: State, e: Event)
    requires Made(c) && Good(c, s, 0) && TameEvent(c, s, e) && e != Expire
    ensures Explains(c, s, SaidIn(c, s, e), Happen(c, s, e))
  {
    match e
    case Fire(i, attempts) =>
      if i < |s.scheduled| {
        FireGood(c, s, i);
        StartCaused(c, s.(scheduled := s.scheduled[..i] + s.scheduled[i + 1..]), s.scheduled[i], attempts);
      }
    case Outside(r) => HandleCaused(c, s, r, 0);
  }

  // ----- The time limit -----

  /** Nothing but the limit changes the timer, unless it ends the run. */
  ghost predicate SameLimit(s: State, s1: State) {
    s1.running ==> s.running && s1.timer == s.timer && s1.time_option == s.time_option
  }

  lemma CallLimit(s: State, o: Outcome)
    ensures SameLimit(s, CallBack(Stop(s), o, true))
  {
  }

  lemma ActionLimit(c: Config, s: State, number: nat, value: Option<Value>, reason: Reason)
    ensures SameLimit(s, Action(c, s, number, value, reason))
  {
    var s1 := Recorded(s, number, value, !c.race && number < c.required);
    forall o ensures SameLimit(s1, CallBack(Stop(s1), o, true)) {
      CallLimit(s1, o);
    }
  }

  lemma ThrowLimit(c: Config, s: State, number: nat, code: int)
    ensures SameLimit(s, ThrowAction(c, s, number, code))
  {
    var s1 := s.(flight := s.flight - {number});
    if number in s.results {
      var s2 := s1.(pending := s1.pending - 1);
      forall o ensures SameLimit(s2, CallBack(Stop(s2), o, true)) {
        CallLimit(s2, o);
      }
    } else {
      ActionLimit(c, s1, number, None, Given(code));
    }
  }

  lemma HandleLimit(c: Config, s: State, r: Reply)
    ensures SameLimit(s, Handle(c, s, r))
  {
    if r.Reply? {
      ActionLimit(c, s.(flight := s.flight - {r.number}, cancels := s.cancels - {r.number}), r.number, r.value,
                  r.reason);
    }
  }

  lemma {:induction false} HandleAllLimit(c: Config, s: State, rs: seq<Reply>)
    ensures SameLimit(s, HandleAll(c, s, rs))
    decreases |rs|
  {
    if rs != [] {
      HandleLimit(c, s, rs[0]);
      HandleAllLimit(c, Handle(c, s, rs[0]), rs[1..]);
    }
  }

  lemma {:induction false} StartLimit(c: Config, s: State, value: Option<Value>, attempts: seq<Attempt>)
    ensures SameLimit(s, Start(c, s, value, attempts))
    decreases |attempts|
  {
    if s.running && s.next < c.n && attempts != [] {
      var s1 := HandleAll(c, Started(s, value), attempts[0].nested);
      HandleAllLimit(c, Started(s, value), attempts[0].nested);
      if attempts[0].end.Throws? {
        ThrowLimit(c, s1, s.next, attempts[0].end.code);
        StartLimit(c, ThrowAction(c, s1, s.next, attempts[0].end.code), value, attempts[1..]);
      }
    }
  }

  lemma EventLimit(c: Config, s: State, e: Event)
    requires e != Expire
    ensures SameLimit(s, Happen(c, s, e))
  {
    match e
    case Fire(i, attempts) =>
      if i < |s.scheduled| {
        StartLimit(c, s.(scheduled := s.scheduled[..i] + s.scheduled[i + 1..]), s.scheduled[i], attempts);
      }
    case Outside(r) => HandleLimit(c, s, r);
  }

  predicate LimitOver(c: Config, events: seq<Event>) { c.timed && Expire in events }

  /**
   While a run goes on, the timer is on until the limit is over. After it, only a parallel with the false option goes
   on, and has none any more.
   */
  ghost predicate Timely(c: Config, events: seq<Event>, s: State) {
    s.running ==>
      && (s.timer <==> c.timed && Expire !in events)
      && (LimitOver(c, events) ==> !c.race && c.time_option == Some(false))
      && s.time_option == if LimitOver(c, events) then None else c.time_option
  }

  lemma ExpiredTimely(c: Config, before: seq<Event>, s: State)
    requires Timely(c, before, s)
    ensures Timely(c, before + [Expire], Happen(c, s, Expire))
  {
  }

  lemma {:induction false} RunTimely(c: Config, events: seq<Event>)
    ensures Timely(c, events, Run(c, events))
    decreases |events|
  {
    if events != [] {
      var before, e := events[..|events| - 1], events[|events| - 1];
      assert events == before + [e];
      RunTimely(c, before);
      if e == Expire { ExpiredTimely(c, before, Run(c, before)); } else { EventLimit(c, Run(c, before), e); }
    }
  }

  // ----- Why a run has ended -----

  /** By a reply, as above, or by the limit. */
  ghost predicate Because(c: Config, over: bool, results: map<nat, Option<Value>>, log: Log, o: Outcome) {
    match o
    case Results(_) => over || c.time_option == None || forall i: nat :: i < c.n ==> i in results
    case One(_) => Cause(c, results, None, log, o)
    case Failure(reason) =>
      (over && reason == TimedOut && (c.race || c.time_option != Some(false))) || Cause(c, results, None, log, o)
  }

  lemma ExpireBecause(c: Config, s: State, log: Log)
    requires Made(c) && Good(c, s, 0) && s.timer && s.running
    requires s.time_option == c.time_option
    ensures var s1 := Expired(c, s);
            s1.calls != [] ==>
              && Because(c, true, s1.results, log, s1.calls[0])
              && (s1.callable ==> !c.race && c.time_option == Some(false))
  {
  }

  /**
   A parallel calls back with the results when it has all of them, or when the limit is over, or without a time option.
   A failure is the time limit's, or that of the last reply, by which the last of a race or a required requestor has
   failed; a race is won by the last reply. Only the limit of a parallel with the false option keeps the callback.
   */
  lemma {:induction false} WhyEnded(c: Config, events: seq<Event>)
    requires Made(c) && TameRun(c, events) && c.n > 0
    ensures var s := Run(c, events);
            s.calls != [] ==>
              && Because(c, LimitOver(c, events), s.results, LogOf(c, events), s.calls[0])
              && (s.callable ==> LimitOver(c, events) && !c.race && c.time_option == Some(false))
    decreases |events|
  {
    if events != [] {
      var before, e := events[..|events| - 1], events[|events| - 1];
      var s, log := Run(c, before), LogOf(c, before);
      assert events == before + [e];
      RunGood(c, before);
      WhyEnded(c, before);
      RunTimely(c, before);
      if e == Expire {
        assert log + [] == log;
        if s.timer { ExpireBecause(c, s, log); }
      } else {
        EventCaused(c, s, e);
        EventSaid(c, s, log, e);
        var s1 := Happen(c, s, e);
        if s.calls == [] && s1.calls != [] { CausedBecause(c, before, e, s, s1, LogOf(c, events)); }
      }
    }
  }

  lemma CausedBecause(c: Config, before: seq<Event>, e: Event, s: State, s1: State, log: Log)
    requires Good(c, s, 0) && Timely(c, before, s) && s.calls == [] && s1.calls != []
    requires s.running && s1.time_option == s.time_option && Caused(c, s1, log)
    ensures Because(c, LimitOver(c, before + [e]), s1.results, log, s1.calls[0])
  {
  }

  lemma EventSaid(c: Config, s: State, log: Log, e: Event)
    requires Explains(c, s, SaidIn(c, s, e), Happen(c, s, e))
    ensures s.calls == [] ==> Caused(c, Happen(c, s, e), log + SaidIn(c, s, e))
    ensures s.calls != [] ==> log + SaidIn(c, s, e) == log
  {
    if SaidIn(c, s, e) == [] { assert log + [] == log; }
  }

  /**
   When the time limit is over, a race has ended, and so has a parallel unless its option is false. With that option it
   goes on while some required requestor has not replied, and until then it ends only by the failure of one, or because
   the caller cancels.
   */
  lemma LimitEnds(c: Config, events: seq<Event>)
    requires Made(c) && TameRun(c, events) && LimitOver(c, events) && Run(c, events).running
    ensures !c.race && c.time_option == Some(false)
    ensures exists i :: 0 <= i < c.required && i !in Run(c, events).results
  {
    RunGood(c, events);
    RunTimely(c, events);
    NoneLeft(Run(c, events).results, c.required);
  }

  lemma LimitSpares(c: Config, events: seq<Event>)
    requires Made(c) && TameRun(c, events) && !Run(c, events).running && !c.race && c.time_option == Some(false)
    ensures var s := Run(c, events);
            s.left || AllSucceeded(c, s.results) || exists i :: 0 <= i < c.required && Failed(s.results, i)
  {
    var s := Run(c, events);
    RunGood(c, events);
    if c.n > 0 { WhyEnded(c, events); }
    if s.calls != [] && s.calls[0].Failure? { assert Cause(c, s.results, None, LogOf(c, events), s.calls[0]); }
  }

  lemma ExpiredCallsBack(c: Config, s: State)
    requires !c.race && s.running && s.callable && s.calls == [] && s.pending_required < 1
    ensures var s1 := Expired(c, s);
            && !s1.running && s1.calls == [Results(s.results)] && s1.results == s.results
            && (s1.callable <==> s.time_option == Some(false))
  {
  }

  lemma NoneRequired(c: Config, s: State)
    requires s.running && Undecided(c, s) && AllSucceeded(c, s.results)
    ensures s.pending_required < 1
  {
    NoneLeft(s.results, c.required);
    forall i | 0 <= i < c.required ensures i in s.results {
      assert Succeeded(s.results, i);
    }
  }

  /**
   If all required requestors have succeeded when the limit is over, the results that there are then are called back.
   With the false option the callback is kept, although nothing calls it any more.
   */
  lemma LimitCallsBack(c: Config, before: seq<Event>)
    requires Made(c) && TameRun(c, before) && !c.race
    requires var s := Run(c, before); s.running && s.timer && AllSucceeded(c, s.results)
    ensures var s, s1 := Run(c, before), Run(c, before + [Expire]);
            && !s1.running && s1.calls == [Results(s.results)] && s1.results == s.results
            && (s1.callable <==> c.time_option == Some(false))
  {
    RunGood(c, before);
    RunTimely(c, before);
    NoneRequired(c, Run(c, before));
    ExpiredCallsBack(c, Run(c, before));
    assert (before + [Expire])[..|before|] == before;
  }

  lemma ActionFlight(c: Config, s: State, number: nat, value: Option<Value>, reason: Reason)
    ensures Action(c, s, number, value, reason).flight == s.flight
  {
    var s1 := Recorded(s, number, value, !c.race && number < c.required);
    forall o ensures CallBack(Stop(s1), o, true).flight == s.flight {
    }
  }

  /** Whoever replies, in time or not, is not in flight any more, and nobody else lands. */
  lemma ReplyLands(c: Config, s: State, number: nat, value: Option<Value>, reason: Reason)
    requires number < s.next
    ensures Handle(c, s, Reply(number, value, reason)).flight == s.flight - {number}
  {
    ActionFlight(c, s.(flight := s.flight - {number}, cancels := s.cancels - {number}), number, value, reason);
  }

  // ----- The throttle -----

  /**
   While requestors are left to start, as many as the throttle allows are in flight or about to start; without a
   throttle, or with one that is too large, as many as there are.
   */
  lemma FullyUsed(c: Config, events: seq<Event>)
    requires Made(c) && TameRun(c, events) && Run(c, events).running && Run(c, events).next < c.n
    ensures |Run(c, events).flight| + |Run(c, events).scheduled| == if 0 < c.throttle < c.n then c.throttle else c.n
  {
    RunGood(c, events);
  }
}
