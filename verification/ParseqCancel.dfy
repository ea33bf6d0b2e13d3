/**
 What a run does that has ended: nothing, unless a requestor throws after the run was ended while it was being called.
 */
module ParseqCancel {
  import opened Prelude
  import opened Parseq
  import opened ParseqSafety

  // ----- After the end -----

  lemma StoppedHandle(c: Config, s: State, r: Reply)
    requires !s.running
    ensures var s1 := Handle(c, s, r);
            && !s1.running && s1.calls == s.calls && s1.callable == s.callable && s1.crashed == s.crashed
            && s1.timer == (s.timer && r != Leave)
  {
  }

  lemma StoppedHappens(c: Config, s: State, e: Event)
    requires !s.running && !s.timer
    ensures var s1 := Happen(c, s, e);
            && !s1.running && !s1.timer
            && s1.calls == s.calls && s1.crashed == s.crashed
  {
    if e.Outside? { StoppedHandle(c, s, e.reply); }
  }

  lemma {:induction false} StoppedRun(c: Config, events: seq<Event>, later: seq<Event>)
    requires !Run(c, events).running && !Run(c, events).timer
    ensures var s, s1 := Run(c, events), Run(c, events + later);
            !s1.running && !s1.timer && s1.calls == s.calls && s1.crashed == s.crashed
    decreases |later|
  {
    if later == [] {
      assert events + later == events;
    } else {
      var last := |later| - 1;
      StoppedRun(c, events, later[..last]);
      assert (events + later)[..|events + later| - 1] == events + later[..last];
      StoppedHappens(c, Run(c, events + later[..last]), later[last]);
    }
  }

  /** Once the caller has cancelled, whatever happens, the callback is not called any more. */
  lemma NeverAfterCancel(c: Config, before: seq<Event>, after: seq<Event>)
    ensures var s := Run(c, before + [Outside(Leave)] + after);
            !s.running && !s.timer && s.calls == Run(c, before).calls
  {
    var events := before + [Outside(Leave)];
    assert events[..|before|] == before && events[|before|] == Outside(Leave);
    StoppedRun(c, events, after);
  }

  // ----- Cancelled while a requestor is being called -----

  lemma {:induction false} HandleAppend(c: Config, s: State, x: seq<Reply>, y: seq<Reply>)
    ensures HandleAll(c, s, x + y) == HandleAll(c, HandleAll(c, s, x), y)
    decreases |x|
  {
    if x == [] {
      assert x + y == y;
    } else {
      assert (x + y)[1..] == x[1..] + y;
      HandleAppend(c, Handle(c, s, x[0]), x[1..], y);
    }
  }

  lemma {:induction false} StoppedHandleAll(c: Config, s: State, rs: seq<Reply>)
    requires !s.running && !s.timer
    ensures var s1 := HandleAll(c, s, rs); !s1.running && !s1.timer && s1.calls == s.calls && s1.callable == s.callable
    decreases |rs|
  {
    if rs != [] {
      StoppedHandle(c, s, rs[0]);
      StoppedHandleAll(c, Handle(c, s, rs[0]), rs[1..]);
    }
  }

  /** What is nested after the caller has cancelled does not call back. */
  lemma NestedLeave(c: Config, s: State, x: seq<Reply>, y: seq<Reply>)
    ensures var s0, s1 := HandleAll(c, s, x), HandleAll(c, s, x + [Leave] + y);
            !s1.running && !s1.timer && s1.calls == s0.calls && s1.callable == s0.callable
  {
    HandleAppend(c, s, x + [Leave], y);
    HandleAppend(c, s, x, [Leave]);
    assert [Leave][1..] == [];
    StoppedHandleAll(c, HandleAll(c, s, x + [Leave]), y);
  }

  /** The state after some attempts that throw. */
  function Thrown(c: Config, s: State, value: Option<Value>, attempts: seq<Attempt>): State
    requires forall a <- attempts :: a.end.Throws?
    decreases |attempts|
  {
    if attempts == [] || !s.running || s.next >= c.n then s
    else
      var s1 := HandleAll(c, Started(s, value), attempts[0].nested);
      Thrown(c, ThrowAction(c, s1, s.next, attempts[0].end.code), value, attempts[1..])
  }

  lemma {:induction false} StartAfter(c: Config, s: State, value: Option<Value>, x: seq<Attempt>, y: seq<Attempt>)
    requires forall a <- x :: a.end.Throws?
    requires Thrown(c, s, value, x).running && Thrown(c, s, value, x).next < c.n
    ensures Start(c, s, value, x + y) == Start(c, Thrown(c, s, value, x), value, y)
    decreases |x|
  {
    if x == [] {
      assert x + y == y;
    } else if s.running && s.next < c.n {
      var s1 := HandleAll(c, Started(s, value), x[0].nested);
      assert x[0] in x && (x + y)[0] == x[0] && (x + y)[1..] == x[1..] + y;
      StartAfter(c, ThrowAction(c, s1, s.next, x[0].end.code), value, x[1..], y);
    }
  }

  /** The state in which a start timer that fires calls a requestor, after some that throw. */
  function Called(c: Config, s: State, i: nat, attempts: seq<Attempt>): State
    requires i < |s.scheduled| && forall a <- attempts :: a.end.Throws?
  {
    Thrown(c, s.(scheduled := s.scheduled[..i] + s.scheduled[i + 1..]), s.scheduled[i], attempts)
  }

  /** The state when that requestor has returned or thrown. */
  function Nested(c: Config, s: State, i: nat, attempts: seq<Attempt>, nested: seq<Reply>): State
    requires i < |s.scheduled| && forall a <- attempts :: a.end.Throws?
  {
    HandleAll(c, Started(Called(c, s, i, attempts), s.scheduled[i]), nested)
  }

  /**
   A run in which requestors are called one after the other, the last of them the one in question; then anything
   happens.
   */
  function Episode(events: seq<Event>, i: nat, before: seq<Attempt>, a: Attempt, after: seq<Attempt>,
                   later: seq<Event>): seq<Event> {
    events + [Fire(i, before + ([a] + after))] + later
  }

  /** How the episode starts. */
  lemma EpisodeStarts(c: Config, events: seq<Event>, i: nat, before: seq<Attempt>, a: Attempt, after: seq<Attempt>)
    requires i < |Run(c, events).scheduled| && forall b <- before :: b.end.Throws?
    requires Called(c, Run(c, events), i, before).running && Called(c, Run(c, events), i, before).next < c.n
    ensures Run(c, events + [Fire(i, before + ([a] + after))])
         == Start(c, Called(c, Run(c, events), i, before), Run(c, events).scheduled[i], [a] + after)
  {
    var s, fire := Run(c, events), Fire(i, before + ([a] + after));
    assert (events + [fire])[..|events|] == events && (events + [fire])[|events|] == fire;
    StartAfter(c, s.(scheduled := s.scheduled[..i] + s.scheduled[i + 1..]), s.scheduled[i], before, [a] + after);
  }

  /**
   A caller that cancels while a requestor is being called, between replies, and the requestor then returns: the
   callback is not called any more.
   */
  lemma NeverAfterNestedCancel(c: Config, events: seq<Event>, i: nat, before: seq<Attempt>, x: seq<Reply>,
                               y: seq<Reply>, end: End, after: seq<Attempt>, later: seq<Event>)
    requires i < |Run(c, events).scheduled| && end.Returns? && forall b <- before :: b.end.Throws?
    requires Called(c, Run(c, events), i, before).running && Called(c, Run(c, events), i, before).next < c.n
    ensures var s := Run(c, Episode(events, i, before, Attempt(x + [Leave] + y, end), after, later));
            !s.running && !s.timer && s.calls == Nested(c, Run(c, events), i, before, x).calls
  {
    var a := Attempt(x + [Leave] + y, end);
    var s, attempts := Called(c, Run(c, events), i, before), [a] + after;
    NestedLeave(c, Started(s, Run(c, events).scheduled[i]), x, y);
    assert attempts[0] == a;
    EpisodeStarts(c, events, i, before, a, after);
    StoppedRun(c, events + [Fire(i, before + attempts)], later);
  }

  // ----- What holds whatever requestors do -----

  /** A run that goes on has not called back; one that has ended has no timer, and has called back or been cancelled. */
  ghost predicate Steady(s: State) {
    if s.running then s.calls == [] && s.callable && !s.crashed && !s.left else !s.timer && (s.calls != [] || s.left)
  }

  /** Until the time limit, the callback is forgotten exactly when it has been called, and not called again. */
  ghost predicate Forgets(s: State) { (s.callable <==> s.calls == []) && !s.crashed }

  lemma EndSteady(s: State, o: Outcome, forget: bool)
    requires Steady(s)
    ensures Steady(CallBack(Stop(s), o, forget))
    ensures s.running && forget ==> Forgets(CallBack(Stop(s), o, forget))
  {
  }

  lemma ActionSteady(c: Config, s: State, number: nat, value: Option<Value>, reason: Reason)
    requires Steady(s)
    ensures Steady(Action(c, s, number, value, reason))
    ensures s.running ==> Forgets(Action(c, s, number, value, reason))
  {
    var s1 := Recorded(s, number, value, !c.race && number < c.required);
    forall o ensures Steady(CallBack(Stop(s1), o, true)) && (s.running ==> Forgets(CallBack(Stop(s1), o, true))) {
      EndSteady(s1, o, true);
    }
  }

  lemma ThrowSteady(c: Config, s: State, number: nat, code: int)
    requires Steady(s)
    ensures Steady(ThrowAction(c, s, number, code))
  {
    var s1 := s.(flight := s.flight - {number});
    if number in s.results {
      var s2 := s1.(pending := s1.pending - 1);
      forall o ensures Steady(CallBack(Stop(s2), o, true)) {
        EndSteady(s2, o, true);
      }
    } else {
      ActionSteady(c, s1, number, None, Given(code));
    }
  }

  lemma HandleSteady(c: Config, s: State, r: Reply)
    requires Steady(s)
    ensures Steady(Handle(c, s, r)) && (Forgets(s) ==> Forgets(Handle(c, s, r)))
  {
    if r.Reply? {
      var s1 := s.(flight := s.flight - {r.number}, cancels := s.cancels - {r.number});
      ActionSteady(c, s1, r.number, r.value, r.reason);
    }
  }

  lemma {:induction false} HandleAllSteady(c: Config, s: State, rs: seq<Reply>)
    requires Steady(s)
    ensures Steady(HandleAll(c, s, rs)) && (Forgets(s) ==> Forgets(HandleAll(c, s, rs)))
    decreases |rs|
  {
    if rs != [] {
      HandleSteady(c, s, rs[0]);
      HandleAllSteady(c, Handle(c, s, rs[0]), rs[1..]);
    }
  }

  lemma {:induction false} StartSteady(c: Config, s: State, value: Option<Value>, attempts: seq<Attempt>)
    requires Steady(s)
    ensures Steady(Start(c, s, value, attempts))
    decreases |attempts|
  {
    if s.running && s.next < c.n && attempts != [] {
      var s1 := HandleAll(c, Started(s, value), attempts[0].nested);
      HandleAllSteady(c, Started(s, value), attempts[0].nested);
      if attempts[0].end.Throws? {
        ThrowSteady(c, s1, s.next, attempts[0].end.code);
        StartSteady(c, ThrowAction(c, s1, s.next, attempts[0].end.code), value, attempts[1..]);
      }
    }
  }

  lemma {:induction false} ThrownSteady(c: Config, s: State, value: Option<Value>, attempts: seq<Attempt>)
    requires Steady(s) && forall a <- attempts :: a.end.Throws?
    ensures Steady(Thrown(c, s, value, attempts))
    decreases |attempts|
  {
    if attempts != [] && s.running && s.next < c.n {
      var s1 := HandleAll(c, Started(s, value), attempts[0].nested);
      HandleAllSteady(c, Started(s, value), attempts[0].nested);
      assert attempts[0] in attempts;
      ThrowSteady(c, s1, s.next, attempts[0].end.code);
      ThrownSteady(c, ThrowAction(c, s1, s.next, attempts[0].end.code), value, attempts[1..]);
    }
  }

  lemma ExpiredSteady(c: Config, s: State)
    requires Steady(s)
    ensures Steady(Expired(c, s))
  {
    var s1 := s.(time_option := None, timer := false);
    forall o, forget ensures Steady(CallBack(Stop(s), o, forget)) && Steady(CallBack(Stop(s1), o, forget)) {
      EndSteady(s, o, forget);
      EndSteady(s1, o, forget);
    }
  }

  lemma {:induction false} RunSteady(c: Config, events: seq<Event>)
    ensures Steady(Run(c, events))
    decreases |events|
  {
    if events != [] {
      var s, e := Run(c, events[..|events| - 1]), events[|events| - 1];
      RunSteady(c, events[..|events| - 1]);
      match e
      case Fire(i, attempts) =>
        if i < |s.scheduled| {
          StartSteady(c, s.(scheduled := s.scheduled[..i] + s.scheduled[i + 1..]), s.scheduled[i], attempts);
        }
      case Outside(r) => HandleSteady(c, s, r);
      case Expire => ExpiredSteady(c, s);
    }
  }

  /** What is nested in a call begins with nothing called back. */
  lemma NestedSteady(c: Config, events: seq<Event>, i: nat, before: seq<Attempt>, nested: seq<Reply>)
    requires i < |Run(c, events).scheduled| && forall b <- before :: b.end.Throws?
    requires Called(c, Run(c, events), i, before).running
    ensures var s := Nested(c, Run(c, events), i, before, nested); Steady(s) && Forgets(s)
  {
    var s := Run(c, events);
    RunSteady(c, events);
    ThrownSteady(c, s.(scheduled := s.scheduled[..i] + s.scheduled[i + 1..]), s.scheduled[i], before);
    HandleAllSteady(c, Started(Called(c, s, i, before), s.scheduled[i]), nested);
  }

  // ----- The requestor that does not behave -----

  /** Whether the action calls back for a requestor that has thrown. */
  predicate Decides(c: Config, s: State, number: nat) {
    || (number !in s.results && number < c.required)
    || s.pending <= 1
    || (!c.race && s.time_option == None && s.pending_required < 1)
  }

  /** What it calls back with: the failure of a race or of a required requestor, or what there is. */
  function LateOutcome(c: Config, s: State, number: nat, reason: Reason): Outcome {
    var results := if number in s.results then s.results else s.results[number := None];
    if c.race || (number !in s.results && number < c.required) then Failure(reason)
    else if c.sequence then One(Last(results, c.n))
    else Results(results)
  }

  /** The action of an ended run calls back if it decides, which is an exception if the callback has been forgotten. */
  ghost predicate Late(s: State, decides: bool, o: Outcome, s1: State) {
    && !s1.running && !s1.timer
    && s1.calls == s.calls + (if decides && s.callable then [o] else [])
    && (s1.crashed <==> s.crashed || (decides && !s.callable))
  }

  lemma LateCall(s: State, o: Outcome)
    ensures Late(s, true, o, CallBack(Stop(s), o, true))
  {
  }

  lemma LateAction(c: Config, s: State, number: nat, reason: Reason)
    requires Made(c) && !s.running && !s.timer && number !in s.results
    ensures Late(s, Decides(c, s, number), LateOutcome(c, s, number, reason), Action(c, s, number, None, reason))
  {
    var s1 := Recorded(s, number, None, !c.race && number < c.required);
    LateCall(s1, Failure(reason));
    LateCall(s1, if c.sequence then One(Last(s1.results, c.n)) else Results(s1.results));
  }

  lemma LateNumberless(c: Config, s: State, number: nat, reason: Reason)
    requires !s.running && !s.timer && number in s.results
    ensures Late(s, Decides(c, s, number), LateOutcome(c, s, number, reason), Numberless(c, s, reason))
  {
    var s1 := s.(pending := s.pending - 1);
    LateCall(s1, Failure(reason));
    LateCall(s1, if c.sequence then One(Last(s1.results, c.n)) else Results(s1.results));
  }

  lemma LateThrow(c: Config, s: State, number: nat, code: int)
    requires Made(c) && !s.running && !s.timer
    ensures Late(s, Decides(c, s, number), LateOutcome(c, s, number, Given(code)), ThrowAction(c, s, number, code))
  {
    var s1 := s.(flight := s.flight - {number});
    if number in s.results {
      LateNumberless(c, s1, number, Given(code));
    } else {
      LateAction(c, s1, number, Given(code));
    }
  }

  /**
   A requestor that throws when the run has ended while it was being called, by whatever was nested in the call: the
   action is called nevertheless. If the callback has been called, calling it again is an exception; if not, the
   caller has cancelled, and the callback is called after that. Either happens exactly if the action decides.
   */
  lemma ThrowAfterEnd(c: Config, events: seq<Event>, i: nat, before: seq<Attempt>, nested: seq<Reply>, code: int,
                      after: seq<Attempt>, later: seq<Event>)
    requires Made(c) && i < |Run(c, events).scheduled| && forall b <- before :: b.end.Throws?
    requires Called(c, Run(c, events), i, before).running && Called(c, Run(c, events), i, before).next < c.n
    requires !Nested(c, Run(c, events), i, before, nested).running
    ensures var number, s0 := Called(c, Run(c, events), i, before).next, Nested(c, Run(c, events), i, before, nested);
            var s := Run(c, Episode(events, i, before, Attempt(nested, Throws(code)), after, later));
            && !s.running && (s0.calls == [] ==> s0.left)
            && s.calls == (if Decides(c, s0, number) && s0.calls == [] then [LateOutcome(c, s0, number, Given(code))]
                           else s0.calls)
            && (s.crashed <==> Decides(c, s0, number) && s0.calls != [])
  {
    var a, value := Attempt(nested, Throws(code)), Run(c, events).scheduled[i];
    var s, attempts := Called(c, Run(c, events), i, before), [a] + after;
    NestedSteady(c, events, i, before, nested);
    assert attempts[0] == a && attempts[1..] == after;
    EpisodeStarts(c, events, i, before, a, after);
    LateThrow(c, HandleAll(c, Started(s, value), nested), s.next, code);
    StoppedRun(c, events + [Fire(i, before + attempts)], later);
  }

  /** In particular, when the caller has cancelled while it was being called. */
  lemma ThrowAfterCancel(c: Config, events: seq<Event>, i: nat, before: seq<Attempt>, x: seq<Reply>, y: seq<Reply>,
                         code: int, after: seq<Attempt>, later: seq<Event>)
    requires Made(c) && i < |Run(c, events).scheduled| && forall b <- before :: b.end.Throws?
    requires Called(c, Run(c, events), i, before).running && Called(c, Run(c, events), i, before).next < c.n
    ensures var number, s0 := Called(c, Run(c, events), i, before).next, Nested(c, Run(c, events), i, before, x);
            var s1 := Nested(c, Run(c, events), i, before, x + [Leave] + y);
            var s := Run(c, Episode(events, i, before, Attempt(x + [Leave] + y, Throws(code)), after, later));
            && !s.running
            && s.calls == (if Decides(c, s1, number) && s0.calls == [] then [LateOutcome(c, s1, number, Given(code))]
                           else s0.calls)
            && (s.crashed <==> Decides(c, s1, number) && s0.calls != [])
  {
    NestedLeave(c, Started(Called(c, Run(c, events), i, before), Run(c, events).scheduled[i]), x, y);
    ThrowAfterEnd(c, events, i, before, x + [Leave] + y, code, after, later);
  }

  /** A requestor of three required ones that replies before the caller cancels, and then throws, causes no callback. */
  lemma NoCallbackAfterReply(value: Value, code: int)
    ensures var c := MakeParallel(3, 0, None, 0, false, None);
            var nested := [Reply(0, Some(value), Given(0)), Leave];
            var s := Run(c, [Fire(0, [Attempt(nested, Throws(code))])]);
            s.left && s.calls == [] && !s.crashed
  {
    var c, nested := MakeParallel(3, 0, None, 0, false, None), [Reply(0, Some(value), Given(0)), Leave];
    var e, s := Fire(0, [Attempt(nested, Throws(code))]), Begin(c);
    var s0 := Started(s.(scheduled := s.scheduled[..0] + s.scheduled[1..]), None);
    assert [e][..0] == [] && [Attempt(nested, Throws(code))][1..] == [] && nested[1..] == [Leave] && [Leave][1..] == [];
    var s1 := Handle(c, s0, nested[0]);
    assert s1.running && s1.pending == 2 && s1.pending_required == 2 && 0 in s1.results;
    var s2 := HandleAll(c, s0, nested);
    assert s2 == HandleAll(c, s1, [Leave]) == HandleAll(c, Handle(c, s1, Leave), []) == Stop(s1).(left := true);
    var s3 := ThrowAction(c, s2, 0, code);
    assert Happen(c, s, e) == Start(c, s3, None, []) == s3;
    assert Run(c, [e]) == Happen(c, Run(c, [e][..0]), e);
  }

  /** The smallest such run: a race of one requestor fails after its caller has cancelled it. */
  lemma CallbackAfterCancel(code: int)
    ensures var c := Config(true, false, 1, 0, None, 0, false, None);
            var s := Run(c, [Fire(0, [Attempt([Leave], Throws(code))])]);
            Made(c) && s.left && s.calls == [Failure(Given(code))]
  {
    var c := Config(true, false, 1, 0, None, 0, false, None);
    var e := Fire(0, [Attempt([Leave], Throws(code))]);
    assert [e][..0] == [] && Run(c, []) == Begin(c);
    var s := Begin(c);
    BeginGood(c);
    var s1 := s.(scheduled := s.scheduled[..0] + s.scheduled[1..]);
    assert s1.scheduled == [];
    var attempts := [Attempt([Leave], Throws(code))];
    assert attempts[0].nested[1..] == [] && attempts[1..] == [];
    var s2 := HandleAll(c, Started(s1, None), [Leave]);
    assert s2 == HandleAll(c, Handle(c, Started(s1, None), Leave), []) == Stop(Started(s1, None)).(left := true);
    var s3 := RaceAction(s2.(flight := s2.flight - {0}), 0, None, Given(code));
    assert s3.left && s3.calls == [Failure(Given(code))];
    assert Start(c, s3, None, attempts[1..]) == s3;
    assert Happen(c, s, e) == s3;
    assert Run(c, [e]) == Happen(c, Run(c, [e][..0]), e);
  }
}
