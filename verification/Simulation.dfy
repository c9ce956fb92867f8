/** The simulator: ticks until nothing is pending or a time limit is reached. */
module Simulation {
  import opened Prelude
  import I = Instant
  import T = Timeline
  import S = Scheduler

  /** What the loop can rely on before each of its remaining `n` ticks. */
  ghost predicate Ready<V, A, T>(env: I.Env<A, T>, program: I.Program<V, A, T>, s: I.State<V, A, T>, fuel: nat,
                                 stop: Time, n: nat) {
    && T.Ahead(s) && s.runnable == {} && s.now + n >= stop
    && T.ForwardLoop(env, program, s, fuel, stop, n)
  }

  /** One turn of the loop. */
  lemma Turn<V, A, T>(env: I.Env<A, T>, program: I.Program<V, A, T>, s: I.State<V, A, T>, fuel: nat, stop: Time, n: nat)
    requires Ready(env, program, s, fuel, stop, n)
    ensures s.now != NEVER
    ensures I.NextTime(s) != NEVER && s.now < stop ==>
      var run := I.Tick(env, program, s, fuel);
      && n > 0 && run.status == I.Done
      && Ready(env, program, run.state, fuel, stop, n - 1)
      && T.Simulate(env, program, s, fuel, stop, n) == T.Simulate(env, program, run.state, fuel, stop, n - 1)
    ensures I.NextTime(s) == NEVER || s.now >= stop ==> T.Simulate(env, program, s, fuel, stop, n) == s
  {
    if I.NextTime(s) != NEVER && s.now < stop {
      assert I.Pending(s) != {};
      T.ForwardTick(env, program, s, fuel);
      assert I.Tick(env, program, s, fuel).status == I.Done;
    }
  }

  /** The scheduler is `n` ticks at most from the state `end` that the loop reaches. */
  ghost predicate Heading(s: S.Scheduler, fuel: nat, stop: Time, n: nat, end: S.Abstract)
    reads s, s.eventQueue, s.actQueue, s.svs, s.acts, s.trigs
  {
    && s.Valid() && Ready(s.Env(), s.program, s.Abs(), fuel, stop, n)
    && end == T.Simulate(s.Env(), s.program, s.Abs(), fuel, stop, n)
  }

  /** There is something to wait for and time left. */
  ghost predicate GoesOn(s: S.Scheduler, stop: Time)
    reads s, s.eventQueue, s.actQueue, s.svs, s.acts, s.trigs
  {
    I.NextTime(s.Abs()) != NEVER && s.Abs().now < stop
  }

  /** The loop's condition. */
  method Continues(s: S.Scheduler, fuel: nat, stop: Time, ghost n: nat, ghost end: S.Abstract) returns (more: bool)
    requires Heading(s, fuel, stop, n, end)
    ensures more <==> GoesOn(s, stop)
    ensures more ==> n > 0
    ensures !more ==> s.Valid() && s.Abs() == end && (I.NextTime(end) == NEVER || end.now >= stop)
  {
    hide s.EventsInv, s.ActsInv, s.TrigsInv, I.NextTime, Ready, T.Simulate;
    Turn(s.Env(), s.program, s.Abs(), fuel, stop, n);
    var next := s.NextEventTime();
    more := next != NEVER && s.now < stop;
  }

  method TickOnce(s: S.Scheduler, fuel: nat, stop: Time, ghost n: nat, ghost end: S.Abstract)
    requires Heading(s, fuel, stop, n, end) && GoesOn(s, stop)
    modifies s, s.eventQueue, s.actQueue, s.svs, s.acts, s.trigs
    ensures n > 0 && Heading(s, fuel, stop, n - 1, end)
  {
    assert s.now == s.Abs().now;
    hide s.Valid, s.Abs, I.Tick, I.NextTime, Ready, T.Simulate;
    Turn(s.Env(), s.program, s.Abs(), fuel, stop, n);
    var r, done; ghost var order;
    r, done, order := s.Tick(fuel);
  }

  /** The loop makes the ticks of `Timeline.Simulate`, none of which throws, and comes to an end. */
  method Simulate(s: S.Scheduler, fuel: nat, stop: Time, ghost end: S.Abstract)
    requires Heading(s, fuel, stop, stop, end)
    modifies s, s.eventQueue, s.actQueue, s.svs, s.acts, s.trigs
    ensures s.Valid() && s.Abs() == end
    ensures I.NextTime(end) == NEVER || end.now >= stop
  {
    hide *;
    ghost var n: nat := stop;
    var more := Continues(s, fuel, stop, n, end);
    while more
      invariant Heading(s, fuel, stop, n, end) && (more ==> n > 0 && GoesOn(s, stop))
      invariant !more ==> s.Valid() && s.Abs() == end && (I.NextTime(end) == NEVER || end.now >= stop)
      decreases n
    {
      TickOnce(s, fuel, stop, n, end);
      n := n - 1;
      more := Continues(s, fuel, stop, n, end);
    }
  }
}
