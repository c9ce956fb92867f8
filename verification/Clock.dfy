/** The example program that counts seconds.

    A first routine assigns an event and wakes itself with a timer; a second one waits for the event and
    counts. What it shows after each tick depends on all that a step reads and on all runtime calls. */
module Clock {
  import opened Prelude
  import I = Instant
  import T = Timeline

  datatype Var = Event | Timer | Seconds

  datatype Routine = Main | Ticker | Reporter

  datatype Trig = OnTimer | OnEvent

  type State = I.State<Var, Routine, Trig>

  type Request = I.Request<Var, Routine, Trig>

  /** The main routine and its first child share their priority; the second child has the upper half. */
  const ENV: I.Env<Routine, Trig> :=
    I.Env(map[Main := 0, Ticker := 0, Reporter := 0x8000_0000], map[OnTimer := Ticker, OnEvent := Reporter], 3, 3)

  // ---------- the program ----------

  /** A 31-bit number as a packed value, and back. */
  function Marshal(n: nat): Word { (2 * n + 1) % 0x1_0000_0000 }

  function Unmarshal(w: Word): nat { w / 2 }

  const EVENT: Word := Marshal(0)

  /** 64-bit addition to a time. */
  function Later(now: Time, period: nat): Time { (now + period) % 0x1_0000_0000_0000_0000 }

  function PcOf(a: Routine, view: I.View<Var, Routine>): nat {
    if a in view.pcs then view.pcs[a] else 0
  }

  function MainCalls(view: I.View<Var, Routine>): seq<Request> {
    if PcOf(Main, view) == 0
    then [I.By(Main, I.Activate(Ticker)), I.By(Main, I.Activate(Reporter)), I.By(Main, I.SetPc(1))]
    else []
  }

  function TickerCalls(view: I.View<Var, Routine>, period: nat): seq<Request> {
    (if PcOf(Ticker, view) == 0 then [] else [I.By(Ticker, I.Desensitize(OnTimer))]) +
    [I.By(Ticker, I.Assign(Event, EVENT)), I.By(Ticker, I.Later(Timer, Later(view.now, period), EVENT)),
     I.By(Ticker, I.Sensitize(OnTimer, Timer)), I.By(Ticker, I.SetPc(1))]
  }

  function ReporterCalls(view: I.View<Var, Routine>): seq<Request> {
    (if PcOf(Reporter, view) == 0 then []
     else
       var count := if Seconds in view.vars then Unmarshal(view.vars[Seconds].value) else 0;
       [I.By(Reporter, I.Desensitize(OnEvent)), I.By(Reporter, I.Assign(Seconds, Marshal(count + 1)))]) +
    [I.By(Reporter, I.Sensitize(OnEvent, Event)), I.By(Reporter, I.SetPc(1))]
  }

  function Calls(a: Routine, view: I.View<Var, Routine>, period: nat): seq<Request> {
    match a
    case Main => MainCalls(view)
    case Ticker => TickerCalls(view, period)
    case Reporter => ReporterCalls(view)
  }

  function Program(period: nat): I.Program<Var, Routine, Trig> {
    (a: Routine, view: I.View<Var, Routine>) => Calls(a, view, period)
  }

  // ---------- its states ----------

  /** A state, part by part. */
  datatype Snap = Snap(
    now: Time,
    event: I.VarState,
    timer: I.VarState,
    seconds: I.VarState,
    runnable: set<Routine>,
    onTimer: bool,
    onEvent: bool,
    main: nat,
    ticker: nat,
    reporter: nat)

  function Links(onTimer: bool, onEvent: bool): map<Trig, Var> {
    (if onTimer then map[OnTimer := Timer] else map[]) + (if onEvent then map[OnEvent := Event] else map[])
  }

  function StateOf(x: Snap): State {
    I.State(x.now, map[Event := x.event, Timer := x.timer, Seconds := x.seconds], x.runnable,
            Links(x.onTimer, x.onEvent), map[Main := x.main, Ticker := x.ticker, Reporter := x.reporter])
  }

  function Unset(val: Word): I.VarState {
    I.VarState(val, NEVER, None)
  }

  /** The program is about to start. */
  const START: Snap := Snap(0, Unset(EVENT), Unset(EVENT), Unset(Marshal(0)), {Main}, false, false, 0, 0, 0)

  lemma PeriodsBound(k: nat, period: nat)
    ensures k * period <= (k + 1) * period && (k + 1) * period == k * period + period
  {
  }

  /** After k periods and the tick then: k seconds are counted, and the timer is set. */
  function Counted(k: nat, period: nat): Snap
    requires (k + 1) * period < NEVER
  {
    PeriodsBound(k, period);
    var now: Time := k * period;
    var was := if k == 0 then NEVER else now;
    Snap(now, I.VarState(EVENT, now, None), I.VarState(EVENT, was, Some(I.Pend((k + 1) * period, EVENT))),
         I.VarState(Marshal(k), was, None), {}, true, true, 1, 1, 1)
  }

  // ---------- single calls ----------

  lemma Parts(x: Snap)
    ensures StateOf(x).vars.Keys == {Event, Timer, Seconds} && StateOf(x).runnable == x.runnable
  {
    hide Links;
  }

  lemma AllRoutines(acts: set<Routine>)
    ensures acts <= {Main, Ticker, Reporter}
  {
    forall a | a in acts ensures a in {Main, Ticker, Reporter} {
      match a case Main => case Ticker => case Reporter =>
    }
  }

  lemma HasRoom(x: Snap)
    ensures I.Overflow(ENV, StateOf(x)) == Ok
  {
    Parts(x);
    AllRoutines(x.runnable);
    hide StateOf;
    SubsetSize(I.Pending(StateOf(x)), {Event, Timer, Seconds});
    SubsetSize(x.runnable, {Main, Ticker, Reporter});
  }

  /** The call is one that a program may make, and leads from one state to the other. */
  ghost predicate Does(x: Snap, q: Request, x': Snap) {
    && I.Admissible(ENV, StateOf(x), q) && !I.Past(StateOf(x), q.c)
    && I.DoCommand(ENV, StateOf(x), q.a, q.c) == StateOf(x')
  }

  lemma ListeningToEvent(x: Snap)
    ensures I.Sensitive(ENV, StateOf(x), Event) == if x.onEvent then {Reporter} else {}
  {
    var s := StateOf(x);
    assert x.onEvent ==> OnEvent in s.attached && s.attached[OnEvent] == Event;
  }

  lemma WokenByEvent(x: Snap, woken: set<Routine>)
    requires woken == set a | a in I.Sensitive(ENV, StateOf(x), Event) && a in ENV.prio && ENV.prio[a] > 0
    ensures woken == if x.onEvent then {Reporter} else {}
  {
    ListeningToEvent(x);
    hide I.Sensitive, StateOf;
  }

  lemma EventVars(x: Snap, event: I.VarState)
    ensures StateOf(x.(event := event)).vars == StateOf(x).vars[Event := event]
  {
    hide Links;
  }

  lemma AssignEvent(x: Snap)
    ensures Event in StateOf(x).vars && I.AssignNow(ENV, StateOf(x), Event, 0, EVENT) ==
      StateOf(x.(event := x.event.(value := EVENT, lastUpdated := x.now),
                 runnable := x.runnable + if x.onEvent then {Reporter} else {}))
  {
    ListeningToEvent(x);
    hide I.Sensitive, Links;
    var now := x.event.(value := EVENT, lastUpdated := x.now);
    var woken := set a | a in I.Sensitive(ENV, StateOf(x), Event) && a in ENV.prio && ENV.prio[a] > 0;
    WokenByEvent(x, woken);
    EventVars(x, now);
  }

  lemma DoAssignEvent(x: Snap)
    ensures Does(x, I.By(Ticker, I.Assign(Event, EVENT)),
              x.(event := x.event.(value := EVENT, lastUpdated := x.now),
                 runnable := x.runnable + if x.onEvent then {Reporter} else {}))
  {
    hide I.AssignNow, Links;
    AssignEvent(x);
  }

  lemma DoAssignSeconds(x: Snap, val: Word)
    ensures Does(x, I.By(Reporter, I.Assign(Seconds, val)),
              x.(seconds := x.seconds.(value := val, lastUpdated := x.now)))
  {
    assert I.Sensitive(ENV, StateOf(x), Seconds) == {};
  }

  lemma DoLater(x: Snap, when: Time)
    requires x.now <= when < NEVER
    ensures Does(x, I.By(Ticker, I.Later(Timer, when, EVENT)),
              x.(timer := x.timer.(pending := Some(I.Pend(when, EVENT)))))
  {
  }

  lemma DoTimerLink(x: Snap)
    ensures !x.onTimer ==> Does(x, I.By(Ticker, I.Sensitize(OnTimer, Timer)), x.(onTimer := true))
    ensures x.onTimer ==> Does(x, I.By(Ticker, I.Desensitize(OnTimer)), x.(onTimer := false))
  {
  }

  lemma DoEventLink(x: Snap)
    ensures !x.onEvent ==> Does(x, I.By(Reporter, I.Sensitize(OnEvent, Event)), x.(onEvent := true))
    ensures x.onEvent ==> Does(x, I.By(Reporter, I.Desensitize(OnEvent)), x.(onEvent := false))
  {
  }

  lemma PcsOf(x: Snap)
    ensures StateOf(x.(main := 1)) == StateOf(x).(pcs := StateOf(x).pcs[Main := 1])
    ensures StateOf(x.(ticker := 1)) == StateOf(x).(pcs := StateOf(x).pcs[Ticker := 1])
    ensures StateOf(x.(reporter := 1)) == StateOf(x).(pcs := StateOf(x).pcs[Reporter := 1])
  {
    hide Links;
  }

  lemma MainSetPc(x: Snap)
    ensures Does(x, I.By(Main, I.SetPc(1)), x.(main := 1))
  {
    hide StateOf;
    PcsOf(x);
  }

  lemma TickerSetPc(x: Snap)
    ensures Does(x, I.By(Ticker, I.SetPc(1)), x.(ticker := 1))
  {
    hide StateOf;
    PcsOf(x);
  }

  lemma ReporterSetPc(x: Snap)
    ensures Does(x, I.By(Reporter, I.SetPc(1)), x.(reporter := 1))
  {
    hide StateOf;
    PcsOf(x);
  }

  lemma DoActivate(x: Snap, a: Routine)
    ensures Does(x, I.By(Main, I.Activate(a)), x.(runnable := x.runnable + {a}))
  {
  }

  /** One call of a step, and the rest of it. */
  lemma OneCall(x: Snap, a: Routine, q: Request, x': Snap, rest: seq<Request>)
    requires Does(x, q, x')
    ensures I.RunStep(ENV, StateOf(x), a, [q] + rest) == I.RunStep(ENV, StateOf(x'), a, rest)
  {
    HasRoom(x');
    assert ([q] + rest)[1..] == rest;
  }

  /** The last call of a step. */
  lemma LastCall(x: Snap, a: Routine, q: Request, x': Snap)
    requires Does(x, q, x')
    ensures I.RunStep(ENV, StateOf(x), a, [q]) == I.Run(StateOf(x'), [a], I.Done)
  {
    OneCall(x, a, q, x', []);
    assert [q] + [] == [q];
  }

  // ---------- steps ----------

  /** What a step reads in such a state. */
  lemma ReadsPc(x: Snap)
    ensures var view := I.ViewOf(StateOf(x));
      && PcOf(Main, view) == x.main && PcOf(Ticker, view) == x.ticker && PcOf(Reporter, view) == x.reporter
      && view.now == x.now && Seconds in view.vars && view.vars[Seconds] == x.seconds
  {
  }

  lemma MainStep(x: Snap, period: nat)
    requires x.main == 0
    ensures I.RunStep(ENV, StateOf(x), Main, Program(period)(Main, I.ViewOf(StateOf(x)))) ==
      I.Run(StateOf(x.(runnable := x.runnable + {Ticker, Reporter}, main := 1)), [Main], I.Done)
  {
    hide I.RunStep, StateOf, Does;
    assert PcOf(Main, I.ViewOf(StateOf(x))) == 0 by { ReadsPc(x); }
    var setPc: seq<Request> := [I.By(Main, I.SetPc(1))];
    var activate: seq<Request> := [I.By(Main, I.Activate(Reporter))] + setPc;
    var x1 := x.(runnable := x.runnable + {Ticker});
    var x2 := x1.(runnable := x1.runnable + {Reporter});
    DoActivate(x, Ticker);
    OneCall(x, Main, I.By(Main, I.Activate(Ticker)), x1, activate);
    DoActivate(x1, Reporter);
    OneCall(x1, Main, I.By(Main, I.Activate(Reporter)), x2, setPc);
    MainSetPc(x2);
    LastCall(x2, Main, I.By(Main, I.SetPc(1)), x2.(main := 1));
    assert x.runnable + {Ticker} + {Reporter} == x.runnable + {Ticker, Reporter};
    assert Program(period)(Main, I.ViewOf(StateOf(x))) == [I.By(Main, I.Activate(Ticker))] + activate;
  }

  /** The ticker, with its trigger off: it makes the event, sets the timer and waits for it. */
  lemma TickerRest(x: Snap, period: nat)
    requires !x.onTimer && x.now + period < NEVER
    ensures I.RunStep(ENV, StateOf(x), Ticker,
        [I.By(Ticker, I.Assign(Event, EVENT)), I.By(Ticker, I.Later(Timer, x.now + period, EVENT)),
         I.By(Ticker, I.Sensitize(OnTimer, Timer)), I.By(Ticker, I.SetPc(1))]) ==
      I.Run(StateOf(x.(
        event := x.event.(value := EVENT, lastUpdated := x.now),
        runnable := x.runnable + if x.onEvent then {Reporter} else {},
        timer := x.timer.(pending := Some(I.Pend(x.now + period, EVENT))), onTimer := true, ticker := 1)),
        [Ticker], I.Done)
  {
    hide I.RunStep, StateOf, Does;
    var when: Time := x.now + period;
    var setPc: seq<Request> := [I.By(Ticker, I.SetPc(1))];
    var wait: seq<Request> := [I.By(Ticker, I.Sensitize(OnTimer, Timer))] + setPc;
    var later: seq<Request> := [I.By(Ticker, I.Later(Timer, when, EVENT))] + wait;
    var x1 := x.(event := x.event.(value := EVENT, lastUpdated := x.now),
                 runnable := x.runnable + if x.onEvent then {Reporter} else {});
    var x2 := x1.(timer := x1.timer.(pending := Some(I.Pend(when, EVENT))));
    var x3 := x2.(onTimer := true);
    DoAssignEvent(x);
    OneCall(x, Ticker, I.By(Ticker, I.Assign(Event, EVENT)), x1, later);
    DoLater(x1, when);
    OneCall(x1, Ticker, I.By(Ticker, I.Later(Timer, when, EVENT)), x2, wait);
    DoTimerLink(x2);
    OneCall(x2, Ticker, I.By(Ticker, I.Sensitize(OnTimer, Timer)), x3, setPc);
    TickerSetPc(x3);
    LastCall(x3, Ticker, I.By(Ticker, I.SetPc(1)), x3.(ticker := 1));
    assert [I.By(Ticker, I.Assign(Event, EVENT))] + later ==
      [I.By(Ticker, I.Assign(Event, EVENT)), I.By(Ticker, I.Later(Timer, when, EVENT)),
       I.By(Ticker, I.Sensitize(OnTimer, Timer)), I.By(Ticker, I.SetPc(1))];
  }

  lemma TickerStep(x: Snap, period: nat)
    requires (x.ticker == 0 && !x.onTimer) || (x.ticker == 1 && x.onTimer)
    requires x.now + period < NEVER
    ensures I.RunStep(ENV, StateOf(x), Ticker, Program(period)(Ticker, I.ViewOf(StateOf(x)))) ==
      I.Run(StateOf(x.(
        event := x.event.(value := EVENT, lastUpdated := x.now),
        runnable := x.runnable + if x.onEvent then {Reporter} else {},
        timer := x.timer.(pending := Some(I.Pend(x.now + period, EVENT))), onTimer := true, ticker := 1)),
        [Ticker], I.Done)
  {
    hide I.RunStep, StateOf, Does;
    ReadsPc(x);
    hide I.ViewOf;
    assert Later(x.now, period) == x.now + period;
    var rest: seq<Request> :=
      [I.By(Ticker, I.Assign(Event, EVENT)), I.By(Ticker, I.Later(Timer, x.now + period, EVENT)),
       I.By(Ticker, I.Sensitize(OnTimer, Timer)), I.By(Ticker, I.SetPc(1))];
    if x.ticker == 0 {
      TickerRest(x, period);
      assert [] + rest == rest;
    } else {
      DoTimerLink(x);
      OneCall(x, Ticker, I.By(Ticker, I.Desensitize(OnTimer)), x.(onTimer := false), rest);
      TickerRest(x.(onTimer := false), period);
    }
  }

  /** The reporter begins to wait for the event. */
  lemma ReporterRest(x: Snap)
    requires !x.onEvent
    ensures I.RunStep(ENV, StateOf(x), Reporter,
      [I.By(Reporter, I.Sensitize(OnEvent, Event)), I.By(Reporter, I.SetPc(1))]) ==
      I.Run(StateOf(x.(onEvent := true, reporter := 1)), [Reporter], I.Done)
  {
    hide I.RunStep, StateOf, Does;
    var setPc: seq<Request> := [I.By(Reporter, I.SetPc(1))];
    DoEventLink(x);
    OneCall(x, Reporter, I.By(Reporter, I.Sensitize(OnEvent, Event)), x.(onEvent := true), setPc);
    ReporterSetPc(x.(onEvent := true));
    LastCall(x.(onEvent := true), Reporter, I.By(Reporter, I.SetPc(1)), x.(onEvent := true, reporter := 1));
    assert [I.By(Reporter, I.Sensitize(OnEvent, Event))] + setPc ==
      [I.By(Reporter, I.Sensitize(OnEvent, Event)), I.By(Reporter, I.SetPc(1))];
  }

  lemma FirstReport(x: Snap, period: nat)
    requires x.reporter == 0 && !x.onEvent
    ensures I.RunStep(ENV, StateOf(x), Reporter, Program(period)(Reporter, I.ViewOf(StateOf(x)))) ==
      I.Run(StateOf(x.(onEvent := true, reporter := 1)), [Reporter], I.Done)
  {
    hide I.RunStep, StateOf, Does;
    ReadsPc(x);
    hide I.ViewOf;
    ReporterRest(x);
    assert [] + [I.By(Reporter, I.Sensitize(OnEvent, Event)), I.By(Reporter, I.SetPc(1))] ==
      [I.By(Reporter, I.Sensitize(OnEvent, Event)), I.By(Reporter, I.SetPc(1))];
  }

  lemma OneMore(k: nat)
    ensures Marshal(Unmarshal(Marshal(k)) + 1) == Marshal(k + 1)
  {
  }

  /** The reporter counts one more. */
  lemma NextReport(x: Snap, k: nat, period: nat)
    requires x.reporter == 1 && x.onEvent && x.seconds.value == Marshal(k)
    ensures I.RunStep(ENV, StateOf(x), Reporter, Program(period)(Reporter, I.ViewOf(StateOf(x)))) ==
      I.Run(StateOf(x.(seconds := x.seconds.(value := Marshal(k + 1), lastUpdated := x.now))), [Reporter], I.Done)
  {
    hide I.RunStep, StateOf, Does;
    ReadsPc(x);
    hide I.ViewOf;
    OneMore(k);
    var wait: seq<Request> := [I.By(Reporter, I.Sensitize(OnEvent, Event)), I.By(Reporter, I.SetPc(1))];
    var count: seq<Request> := [I.By(Reporter, I.Assign(Seconds, Marshal(k + 1)))] + wait;
    var x1 := x.(onEvent := false);
    var x2 := x1.(seconds := x1.seconds.(value := Marshal(k + 1), lastUpdated := x.now));
    DoEventLink(x);
    OneCall(x, Reporter, I.By(Reporter, I.Desensitize(OnEvent)), x1, count);
    DoAssignSeconds(x1, Marshal(k + 1));
    OneCall(x1, Reporter, I.By(Reporter, I.Assign(Seconds, Marshal(k + 1))), x2, wait);
    ReporterRest(x2);
    assert [I.By(Reporter, I.Desensitize(OnEvent)), I.By(Reporter, I.Assign(Seconds, Marshal(k + 1)))] + wait ==
      [I.By(Reporter, I.Desensitize(OnEvent))] + count;
  }

  // ---------- instants ----------

  /** The routines whose turn it is, by priority. */
  lemma Turns()
    ensures I.Unambiguous(ENV, {Main}) && I.First(ENV, {Main}) == Main
    ensures I.Unambiguous(ENV, {Ticker}) && I.First(ENV, {Ticker}) == Ticker
    ensures I.Unambiguous(ENV, {Reporter}) && I.First(ENV, {Reporter}) == Reporter
    ensures I.Unambiguous(ENV, {Ticker, Reporter}) && I.First(ENV, {Ticker, Reporter}) == Ticker
  {
    assert I.IsFirst(ENV, {Main}, Main) && I.IsFirst(ENV, {Ticker}, Ticker) && I.IsFirst(ENV, {Reporter}, Reporter);
    assert I.IsFirst(ENV, {Ticker, Reporter}, Ticker) && !I.IsFirst(ENV, {Ticker, Reporter}, Reporter);
  }

  /** The first routine's turn, and the rest of the instant. */
  lemma OneTurn(x: Snap, period: nat, fuel: nat, a: Routine, x': Snap, order: seq<Routine>, end: Snap)
    requires I.Unambiguous(ENV, x.runnable) && I.First(ENV, x.runnable) == a && fuel > 0
    requires var x0 := x.(runnable := x.runnable - {a});
      I.RunStep(ENV, StateOf(x0), a, Program(period)(a, I.ViewOf(StateOf(x0)))) == I.Run(StateOf(x'), [a], I.Done)
    requires I.RunActs(ENV, Program(period), StateOf(x'), fuel - 1) == I.Run(StateOf(end), order, I.Done)
    ensures I.RunActs(ENV, Program(period), StateOf(x), fuel) == I.Run(StateOf(end), [a] + order, I.Done)
  {
    hide I.RunActs, I.RunStep, I.Unambiguous, I.First, Program, I.ViewOf;
    I.Turn(ENV, Program(period), StateOf(x), fuel);
  }

  lemma NoTurn(x: Snap, period: nat, fuel: nat)
    requires x.runnable == {}
    ensures I.RunActs(ENV, Program(period), StateOf(x), fuel) == I.Run(StateOf(x), [], I.Done)
  {
  }

  /** With a routine to run and nothing pending, a tick is the instant of the routines. */
  lemma NothingDue(x: Snap, period: nat, fuel: nat)
    requires x.runnable == {Main}
    requires x.event.pending == None && x.timer.pending == None && x.seconds.pending == None
    ensures I.Tick(ENV, Program(period), StateOf(x), fuel) == I.RunActs(ENV, Program(period), StateOf(x), fuel)
  {
    hide I.RunActs, Program, Links;
    var s := StateOf(x);
    assert I.Pending(s) == {} && I.Due(s) == {};
    assert I.ApplyDue(ENV, s) == s;
  }

  /** The program starts: all three routines run, and nothing is counted yet. */
  lemma FirstTick(period: nat, fuel: nat)
    requires 0 < period < NEVER && fuel >= 3
    ensures I.Tick(ENV, Program(period), StateOf(START), fuel) ==
      I.Run(StateOf(Counted(0, period)), [Main, Ticker, Reporter], I.Done)
  {
    Turns();
    hide I.RunStep, I.RunActs, I.Unambiguous, I.First, Program, I.ViewOf, StateOf, I.Tick, Marshal;
    var x := START;
    var x1 := x.(runnable := {Ticker, Reporter}, main := 1);
    var x2 := x1.(event := I.VarState(EVENT, 0, None), runnable := {Reporter},
                  timer := x1.timer.(pending := Some(I.Pend(period, EVENT))), onTimer := true, ticker := 1);
    var x3 := x2.(runnable := {}, onEvent := true, reporter := 1);
    assert {Main} - {Main} == {} && {} + {Ticker, Reporter} == {Ticker, Reporter};
    assert {Ticker, Reporter} - {Ticker} == {Reporter} && {Reporter} + {} == {Reporter} &&
      {Reporter} - {Reporter} == {};
    MainStep(x.(runnable := {}), period);
    TickerStep(x1.(runnable := {Reporter}), period);
    FirstReport(x2.(runnable := {}), period);
    NoTurn(x3, period, fuel - 3);
    OneTurn(x2, period, fuel - 2, Reporter, x3, [], x3);
    OneTurn(x1, period, fuel - 1, Ticker, x2, [Reporter], x3);
    OneTurn(x, period, fuel, Main, x1, [Ticker, Reporter], x3);
    assert x3 == Counted(0, period);
    NothingDue(x, period, fuel);
  }

  lemma TimeMoves(x: Snap, when: Time)
    requires x.runnable == {} && x.event.pending == None && x.seconds.pending == None
    requires x.timer.pending == Some(I.Pend(when, EVENT)) && x.now < when
    ensures I.TickThrow(StateOf(x)) == Ok && I.Advance(StateOf(x)) == StateOf(x.(now := when))
  {
    var s := StateOf(x);
    assert I.Pending(s) == {Timer} by {
      assert I.IsPending(s, Timer) && !I.IsPending(s, Event) && !I.IsPending(s, Seconds);
    }
    assert I.WhenOf(s, Timer) == when;
    hide I.Pending;
    assert I.NextTime(s) == when;
  }

  lemma DueIsTimer(x: Snap, when: Time)
    requires x.event.pending == None && x.seconds.pending == None
    requires x.timer.pending == Some(I.Pend(when, EVENT)) && x.now == when
    ensures I.Due(StateOf(x)) == {Timer}
    ensures I.IsDue(StateOf(x), Timer) && !I.IsDue(StateOf(x), Event) && !I.IsDue(StateOf(x), Seconds)
  {
    hide Links;
    var s := StateOf(x);
    assert I.IsDue(s, Timer) && !I.IsDue(s, Event) && !I.IsDue(s, Seconds);
  }

  lemma WokenByTimer(x: Snap)
    requires x.onTimer
    ensures I.WokenBy(ENV, StateOf(x), {Timer}) == {Ticker}
  {
    var s := StateOf(x);
    assert OnTimer in s.attached && s.attached[OnTimer] == Timer;
    assert OnEvent in s.attached ==> s.attached[OnEvent] == Event;
  }

  lemma TimerApplied(x: Snap, when: Time)
    requires x.runnable == {} && x.onTimer && x.event.pending == None && x.seconds.pending == None
    requires x.timer.pending == Some(I.Pend(when, EVENT)) && x.now == when
    ensures I.ApplyDue(ENV, StateOf(x)) == StateOf(x.(timer := I.VarState(EVENT, when, None), runnable := {Ticker}))
  {
    DueIsTimer(x, when);
    WokenByTimer(x);
    hide I.WokenBy, I.Due, I.IsDue, Links;
    assert I.ApplyDue(ENV, StateOf(x)).vars == StateOf(x.(timer := I.VarState(EVENT, when, None))).vars;
  }

  /** The timer is due. */
  lemma TimerIsDue(x: Snap, period: nat, when: Time, fuel: nat)
    requires x.runnable == {} && x.onTimer && x.event.pending == None && x.seconds.pending == None
    requires x.timer.pending == Some(I.Pend(when, EVENT)) && x.now < when
    ensures I.Tick(ENV, Program(period), StateOf(x), fuel) ==
      I.RunActs(ENV, Program(period),
        StateOf(x.(now := when, timer := I.VarState(EVENT, when, None), runnable := {Ticker})), fuel)
  {
    hide I.RunActs, Program, StateOf, I.Advance, I.TickThrow, I.ApplyDue;
    TimeMoves(x, when);
    TimerApplied(x.(now := when), when);
    assert |{Ticker}| <= ENV.actRoom;
    Parts(x.(now := when, timer := I.VarState(EVENT, when, None), runnable := {Ticker}));
  }

  /** Both routines wait, the reporter for the event and the ticker for the timer, and k is counted. */
  predicate Waiting(x: Snap, k: nat, when: Time) {
    && x.runnable == {} && x.onTimer && x.onEvent && x.main == x.ticker == x.reporter == 1
    && x.event.pending == None && x.seconds.pending == None && x.seconds.value == Marshal(k)
    && x.timer.pending == Some(I.Pend(when, EVENT)) && x.now < when
  }

  /** The ticker runs, then the reporter, and one more is counted. */
  lemma TickFrom(x: Snap, k: nat, when: Time, period: nat, fuel: nat)
    requires Waiting(x, k, when) && 0 < period && when + period < NEVER && fuel >= 2
    ensures I.Tick(ENV, Program(period), StateOf(x), fuel) ==
      I.Run(StateOf(x.(
          now := when, event := I.VarState(EVENT, when, None),
          timer := I.VarState(EVENT, when, Some(I.Pend(when + period, EVENT))),
          seconds := I.VarState(Marshal(k + 1), when, None))),
        [Ticker, Reporter], I.Done)
  {
    Turns();
    hide I.RunStep, I.RunActs, I.Unambiguous, I.First, Program, I.ViewOf, StateOf, I.Tick, Marshal;
    TimerIsDue(x, period, when, fuel);
    var x1 := x.(now := when, timer := I.VarState(EVENT, when, None), runnable := {Ticker});
    var x2 := x1.(event := I.VarState(EVENT, when, None), runnable := {Reporter},
                  timer := x1.timer.(pending := Some(I.Pend(when + period, EVENT))));
    var x3 := x2.(runnable := {}, seconds := I.VarState(Marshal(k + 1), when, None));
    assert {Ticker} - {Ticker} == {} && {} + {Reporter} == {Reporter} && {Reporter} - {Reporter} == {};
    TickerStep(x1.(runnable := {}), period);
    NextReport(x2.(runnable := {}), k, period);
    NoTurn(x3, period, fuel - 2);
    OneTurn(x2, period, fuel - 1, Reporter, x3, [], x3);
    OneTurn(x1, period, fuel, Ticker, x2, [Reporter], x3);
  }

  /** A period later one more second is counted. */
  lemma NextTick(k: nat, period: nat, fuel: nat)
    requires 0 < period && (k + 2) * period < NEVER && fuel >= 2
    ensures (k + 1) * period < NEVER
    ensures I.Tick(ENV, Program(period), StateOf(Counted(k, period)), fuel) ==
      I.Run(StateOf(Counted(k + 1, period)), [Ticker, Reporter], I.Done)
  {
    hide StateOf, I.Tick, Program, Marshal;
    PeriodsBound(k, period);
    PeriodsBound(k + 1, period);
    TickFrom(Counted(k, period), k, (k + 1) * period, period, fuel);
  }

  // ---------- the whole run ----------

  lemma Periods(i: nat, j: nat, period: nat)
    requires i <= j
    ensures i * period <= j * period
  {
    assert (j - i) * period >= 0;
    assert j * period == i * period + (j - i) * period;
  }

  lemma {:induction false} GoesOn(j: nat, k: nat, period: nat, fuel: nat)
    requires 0 < period && (j + k + 1) * period < NEVER && fuel >= 2
    ensures (j + 1) * period < NEVER
    ensures T.TicksFrom(ENV, Program(period), StateOf(Counted(j, period)), fuel, k) == StateOf(Counted(j + k, period))
    decreases k
  {
    hide I.Tick, Program, StateOf, Counted;
    Periods(j + 1, j + k + 1, period);
    T.TicksStep(ENV, Program(period), StateOf(Counted(j, period)), fuel);
    if k > 0 {
      Periods(j + 2, j + k + 1, period);
      NextTick(j, period, fuel);
      GoesOn(j + 1, k - 1, period, fuel);
    }
  }

  lemma CountedAfter(k: nat, period: nat, fuel: nat)
    requires 0 < period && (k + 1) * period < NEVER && fuel >= 3
    ensures T.TicksFrom(ENV, Program(period), StateOf(START), fuel, k + 1) == StateOf(Counted(k, period))
  {
    hide *;
    Periods(1, k + 1, period);
    FirstTick(period, fuel);
    T.TicksStep(ENV, Program(period), StateOf(START), fuel);
    GoesOn(0, k, period, fuel);
  }

  lemma TickCompletes(k: nat, period: nat, fuel: nat)
    requires 0 < period && (k + 1) * period < NEVER && fuel >= 3
    ensures I.Tick(ENV, Program(period), T.TicksFrom(ENV, Program(period), StateOf(START), fuel, k), fuel).status ==
      I.Done
  {
    hide *;
    Periods(1, k + 1, period);
    T.TicksStep(ENV, Program(period), StateOf(START), fuel);
    FirstTick(period, fuel);
    if k > 0 {
      Periods(k, k + 1, period);
      CountedAfter(k - 1, period, fuel);
      NextTick(k - 1, period, fuel);
    }
  }

  lemma PartsOf(k: nat, period: nat)
    requires (k + 1) * period < NEVER
    ensures var s := StateOf(Counted(k, period));
      && s.now == k * period && s.vars.Keys == {Event, Timer, Seconds}
      && s.vars[Seconds].value == Marshal(k) && s.runnable == {}
      && s.vars[Timer].pending == Some(I.Pend((k + 1) * period, EVENT))
  {
  }

  /** The program keeps time: after the first tick and k others the time is k periods, k seconds have been
      counted, and the next tick is a period later. Nothing throws on the way. */
  lemma KeepsTime(k: nat, period: nat, fuel: nat)
    requires 0 < period && (k + 1) * period < NEVER && fuel >= 3
    ensures var s := T.TicksFrom(ENV, Program(period), StateOf(START), fuel, k + 1);
      && s.now == k * period && s.vars.Keys == {Event, Timer, Seconds}
      && s.vars[Seconds].value == Marshal(k) && s.runnable == {}
      && s.vars[Timer].pending == Some(I.Pend((k + 1) * period, EVENT))
    ensures I.Tick(ENV, Program(period), T.TicksFrom(ENV, Program(period), StateOf(START), fuel, k), fuel).status ==
      I.Done
  {
    hide *;
    CountedAfter(k, period, fuel);
    PartsOf(k, period);
    TickCompletes(k, period, fuel);
  }
}
