/** What an instant means, without queues, arrays or lists.

    A state holds the model time, the scheduled variables, the set of routines to run and
    which trigger is on which variable. Variables, routines and triggers are only names. */
module Instant {
  import opened Prelude

  datatype Pend = Pend(when: Time, val: Word)

  datatype VarState = VarState(value: Word, lastUpdated: Time, pending: Option<Pend>)

  datatype State<V(==), A(==), T(==)> = State(
    now: Time,
    vars: map<V, VarState>,
    runnable: set<A>,
    attached: map<T, V>,
    pcs: map<A, nat>)

  /** Priorities of routines, the routine each trigger wakes, and how many variables and routines the
      two queues have room for. */
  datatype Env<A(==), T(==)> = Env(prio: map<A, nat>, owner: map<T, A>, eventRoom: nat, actRoom: nat)

  /** The runtime calls a step function can make. Cancel is what finalising a variable does when a
      value that holds the last reference to it is dropped. */
  datatype Command<V, A, T> =
    | Cancel(v: V)
    | Assign(v: V, val: Word)
    | Later(v: V, when: Time, val: Word)
    | Sensitize(t: T, v: V)
    | Desensitize(t: T)
    | Activate(a: A)
    | SetPc(pc: nat)

  /** What a step function can read: the time, the variables and the program counters. */
  datatype View<V(==), A(==)> = View(now: Time, vars: map<V, VarState>, pcs: map<A, nat>)

  function ViewOf<V, A, T>(s: State<V, A, T>): View<V, A> {
    View(s.now, s.vars, s.pcs)
  }

  /** A call and the routine that makes it. The calls of a step are mostly made by the routine whose
      turn it is; but when the last child of a routine leaves, its caller is resumed inside the step of
      the child, and the calls that follow are made by the caller. */
  datatype Request<V, A, T> = By(a: A, c: Command<V, A, T>)

  /** A program chooses the calls of a step from the routine and what it can read. */
  type Program<!V, !A, !T> = (A, View<V, A>) -> seq<Request<V, A, T>>

  /** Illegal: undefined behaviour. Ambiguous: two routines with the least priority. */
  datatype Status = Done | OutOfFuel | Threw(error: Error) | Illegal | Ambiguous

  datatype Run<V(==), A(==), T(==)> = Run(state: State<V, A, T>, order: seq<A>, status: Status)

  // ---------- events ----------

  ghost predicate IsPending<V, A, T>(s: State<V, A, T>, v: V) {
    v in s.vars && s.vars[v].pending.Some?
  }

  ghost function WhenOf<V, A, T>(s: State<V, A, T>, v: V): Time
    requires IsPending(s, v)
  {
    s.vars[v].pending.value.when
  }

  ghost function Pending<V, A, T>(s: State<V, A, T>): set<V> {
    set v | v in s.vars && IsPending(s, v)
  }

  ghost predicate IsNext<V, A, T>(s: State<V, A, T>, v: V) {
    IsPending(s, v) && forall u :: u in Pending(s) ==> WhenOf(s, v) <= WhenOf(s, u)
  }

  /** Among the pending updates one is the earliest. */
  lemma SomeNext<V, A, T>(s: State<V, A, T>)
    requires Pending(s) != {}
    ensures exists v :: v in Pending(s) && IsNext(s, v)
  {
    var whens: map<V, nat> := map v | v in Pending(s) :: WhenOf(s, v);
    SomeLeast(Pending(s), whens);
    var v :| v in Pending(s) && forall u :: u in Pending(s) ==> whens[v] <= whens[u];
    assert IsNext(s, v);
  }

  ghost function NextTime<V, A, T>(s: State<V, A, T>): (t: Time)
    ensures Pending(s) == {} ==> t == NEVER
    ensures Pending(s) != {} ==> exists v :: v in Pending(s) && IsNext(s, v) && WhenOf(s, v) == t
    ensures forall v :: v in Pending(s) ==> t <= WhenOf(s, v)
  {
    if Pending(s) == {} then NEVER else
      SomeNext(s);
      var v :| v in Pending(s) && IsNext(s, v);
      WhenOf(s, v)
  }

  ghost function Sensitive<V, A, T>(env: Env<A, T>, s: State<V, A, T>, v: V): set<A> {
    set t | t in s.attached && t in env.owner && s.attached[t] == v :: env.owner[t]
  }

  ghost function ScheduleLater<V, A, T>(s: State<V, A, T>, v: V, when: Time, val: Word): State<V, A, T>
    requires v in s.vars
  {
    s.(vars := s.vars[v := s.vars[v].(pending := Some(Pend(when, val)))])
  }

  ghost function Unschedule<V, A, T>(s: State<V, A, T>, v: V): State<V, A, T>
    requires v in s.vars
  {
    s.(vars := s.vars[v := s.vars[v].(pending := None)])
  }

  ghost function UnscheduleAll<V, A, T>(s: State<V, A, T>, vs: seq<V>): (r: State<V, A, T>)
    requires forall v :: v in vs ==> v in s.vars
    ensures r.vars.Keys == s.vars.Keys
    decreases |vs|
  {
    if vs == [] then s else UnscheduleAll(Unschedule(s, vs[0]), vs[1..])
  }

  lemma {:induction false} UnscheduleAllIs<V, A, T>(s: State<V, A, T>, vs: seq<V>)
    requires forall v :: v in vs ==> v in s.vars
    ensures UnscheduleAll(s, vs) == s.(vars := UnscheduleAll(s, vs).vars)
    ensures forall w :: w in s.vars ==>
      UnscheduleAll(s, vs).vars[w] == if w in vs then s.vars[w].(pending := None) else s.vars[w]
    decreases |vs|
  {
    if vs != [] {
      assert vs == [vs[0]] + vs[1..];
      UnscheduleAllIs(Unschedule(s, vs[0]), vs[1..]);
    }
  }

  ghost function Applied(p: VarState, now: Time): VarState
    requires p.pending.Some?
  {
    VarState(p.pending.value.val, now, None)
  }

  /** One pending update takes effect and wakes every routine sensitive to the variable. */
  ghost function ApplyOne<V, A, T>(env: Env<A, T>, s: State<V, A, T>, v: V): State<V, A, T>
    requires IsPending(s, v)
  {
    s.(vars := s.vars[v := Applied(s.vars[v], s.now)], runnable := s.runnable + Sensitive(env, s, v))
  }

  ghost predicate IsDue<V, A, T>(s: State<V, A, T>, v: V) {
    IsPending(s, v) && WhenOf(s, v) == s.now
  }

  ghost function Due<V, A, T>(s: State<V, A, T>): set<V> {
    set v | v in s.vars && IsDue(s, v)
  }

  ghost function WokenBy<V, A, T>(env: Env<A, T>, s: State<V, A, T>, vs: set<V>): set<A> {
    set t | t in s.attached && t in env.owner && s.attached[t] in vs :: env.owner[t]
  }

  /** All updates due now take effect together. */
  ghost function ApplyDue<V, A, T>(env: Env<A, T>, s: State<V, A, T>): State<V, A, T> {
    s.(vars := map v | v in s.vars :: if IsDue(s, v) then Applied(s.vars[v], s.now) else s.vars[v],
       runnable := s.runnable + WokenBy(env, s, Due(s)))
  }

  /** Applying one due update first and then the others changes nothing. */
  lemma {:induction false} ApplyDueStep<V, A, T>(env: Env<A, T>, s: State<V, A, T>, v: V)
    requires IsDue(s, v)
    ensures ApplyDue(env, ApplyOne(env, s, v)) == ApplyDue(env, s)
  {
    var s' := ApplyOne(env, s, v);
    assert Due(s) == Due(s') + {v};
    assert WokenBy(env, s, Due(s)) == WokenBy(env, s', Due(s')) + Sensitive(env, s, v);
  }

  lemma ApplyDueNone<V, A, T>(env: Env<A, T>, s: State<V, A, T>)
    requires Due(s) == {}
    ensures ApplyDue(env, s) == s
  {
    assert forall v :: v in s.vars ==> !IsDue(s, v) by {
      forall v | v in s.vars ensures !IsDue(s, v) { assert v !in Due(s); }
    }
    assert WokenBy(env, s, {}) == {};
  }

  lemma TailOf<V>(vs: seq<V>)
    requires vs != [] && forall i, j :: 0 <= i < j < |vs| ==> vs[i] != vs[j]
    ensures vs[0] in vs && forall v :: v in vs[1..] <==> v in vs && v != vs[0]
  {
    assert vs == [vs[0]] + vs[1..];
    forall v | v in vs[1..] ensures v != vs[0] {
      var i :| 0 <= i < |vs[1..]| && vs[1..][i] == v;
      assert vs[i + 1] == v;
    }
  }

  /** Applying updates one after the other in a given order. */
  ghost function ApplySeq<V, A, T>(env: Env<A, T>, s: State<V, A, T>, vs: seq<V>): State<V, A, T>
    requires forall i, j :: 0 <= i < j < |vs| ==> vs[i] != vs[j]
    requires forall v :: v in vs ==> IsPending(s, v)
    decreases |vs|
  {
    if vs == [] then s else
      var s' := ApplyOne(env, s, vs[0]);
      assert forall v :: v in vs[1..] ==> IsPending(s', v) by {
        TailOf(vs);
        forall v | v in vs[1..] ensures IsPending(s', v) {
          assert IsPending(s, v);
          assert s'.vars[v] == s.vars[v];
        }
      }
      ApplySeq(env, s', vs[1..])
  }

  /** Same-time updates can be applied in any order with the same result. */
  lemma {:induction false} AnyOrder<V, A, T>(env: Env<A, T>, s: State<V, A, T>, vs: seq<V>)
    requires forall i, j :: 0 <= i < j < |vs| ==> vs[i] != vs[j]
    requires forall v :: v in vs <==> v in Due(s)
    ensures forall v :: v in vs ==> IsPending(s, v)
    ensures ApplySeq(env, s, vs) == ApplyDue(env, s)
    decreases |vs|
  {
    assert forall v :: v in vs ==> v in Due(s);
    if vs == [] {
      assert Due(s) == {};
      ApplyDueNone(env, s);
    } else {
      TailOf(vs);
      var s' := ApplyOne(env, s, vs[0]);
      assert forall v :: v in Due(s') <==> v in Due(s) && v != vs[0];
      AnyOrder(env, s', vs[1..]);
      ApplyDueStep(env, s, vs[0]);
    }
  }

  // ---------- updates whose old values hold references ----------

  /** The variables that are finalised, in order, when the k-th update of a tick drops the old value
      of its variable. Every way in which values can hold references is some such function. */
  type Finaliser<!V> = (nat, V) -> seq<V>

  /** Dropping the old value of `v` finalises other variables only. */
  ghost predicate Finalises<V, A, T>(freed: seq<V>, s: State<V, A, T>, v: V) {
    v !in freed && forall w :: w in freed ==> w in s.vars
  }

  /** Dropping the old value cancels the updates of what it finalises; then the update takes effect. */
  ghost function ApplyDropping<V, A, T>(env: Env<A, T>, freed: seq<V>, s: State<V, A, T>, v: V): State<V, A, T>
    requires IsPending(s, v) && Finalises(freed, s, v)
  {
    UnscheduleAllIs(s, freed);
    ApplyOne(env, UnscheduleAll(s, freed), v)
  }

  ghost function Drained<V, A, T>(env: Env<A, T>, drops: Finaliser<V>, s: State<V, A, T>, vs: seq<V>): State<V, A, T>
    requires Drains(env, drops, s, vs)
    decreases |vs|, 1
  {
    if vs == [] then s
    else ApplyDropping(env, drops(|vs| - 1, vs[|vs| - 1]), Drained(env, drops, s, vs[..|vs| - 1]), vs[|vs| - 1])
  }

  /** The variables `vs` can be updated one after the other, each when it is due. */
  ghost predicate Drains<V, A, T>(env: Env<A, T>, drops: Finaliser<V>, s: State<V, A, T>, vs: seq<V>)
    decreases |vs|, 0
  {
    vs == [] ||
    (Drains(env, drops, s, vs[..|vs| - 1]) &&
     var s' := Drained(env, drops, s, vs[..|vs| - 1]);
     IsDue(s', vs[|vs| - 1]) && Finalises(drops(|vs| - 1, vs[|vs| - 1]), s', vs[|vs| - 1]))
  }

  lemma DrainMore<V, A, T>(env: Env<A, T>, drops: Finaliser<V>, s: State<V, A, T>, vs: seq<V>, v: V)
    requires Drains(env, drops, s, vs) && IsDue(Drained(env, drops, s, vs), v) &&
      Finalises(drops(|vs|, v), Drained(env, drops, s, vs), v)
    ensures Drains(env, drops, s, vs + [v])
    ensures Drained(env, drops, s, vs + [v]) == ApplyDropping(env, drops(|vs|, v), Drained(env, drops, s, vs), v)
  {
    assert (vs + [v])[..|vs + [v]| - 1] == vs;
  }

  /** Packed values hold no references, so dropping them finalises nothing. */
  function NoDrops<V>(k: nat, v: V): seq<V> {
    []
  }

  /** If nothing is finalised, the order of the updates does not matter: once none is due, all that
      were due have been applied as if at once. */
  lemma {:induction false} DrainedIsApplyDue<V, A, T>(env: Env<A, T>, s: State<V, A, T>, vs: seq<V>)
    requires Drains(env, NoDrops, s, vs)
    ensures ApplyDue(env, Drained(env, NoDrops, s, vs)) == ApplyDue(env, s)
    ensures Due(Drained(env, NoDrops, s, vs)) == {} ==> Drained(env, NoDrops, s, vs) == ApplyDue(env, s)
    decreases |vs|
  {
    var drops: Finaliser<V> := NoDrops;
    hide ApplyDue, ApplyOne;
    if vs != [] {
      var s', v := Drained(env, drops, s, vs[..|vs| - 1]), vs[|vs| - 1];
      DrainedIsApplyDue(env, s, vs[..|vs| - 1]);
      assert UnscheduleAll(s', drops(|vs| - 1, v)) == s';
      ApplyDueStep(env, s', v);
    }
    if Due(Drained(env, drops, s, vs)) == {} {
      ApplyDueNone(env, Drained(env, drops, s, vs));
    }
  }

  // ---------- routines ----------

  ghost predicate IsFirst<A, T>(env: Env<A, T>, acts: set<A>, a: A) {
    a in acts && a in env.prio && forall b :: b in acts && b in env.prio ==> env.prio[a] <= env.prio[b]
  }

  /** Exactly one routine has the least priority. */
  ghost predicate Unambiguous<A, T>(env: Env<A, T>, acts: set<A>) {
    && (exists a :: a in acts && IsFirst(env, acts, a))
    && (forall a, b :: a in acts && b in acts && IsFirst(env, acts, a) && IsFirst(env, acts, b) ==> a == b)
  }

  ghost function First<A, T>(env: Env<A, T>, acts: set<A>): (a: A)
    requires Unambiguous(env, acts)
    ensures IsFirst(env, acts, a)
  {
    var a :| a in acts && IsFirst(env, acts, a);
    a
  }

  /** Instantaneous assignment: wakes sensitive routines of strictly larger priority number. */
  ghost function AssignNow<V, A, T>(env: Env<A, T>, s: State<V, A, T>, v: V, prio: nat, val: Word): State<V, A, T>
    requires v in s.vars
  {
    s.(vars := s.vars[v := s.vars[v].(value := val, lastUpdated := s.now)],
       runnable := s.runnable + set a | a in Sensitive(env, s, v) && a in env.prio && env.prio[a] > prio)
  }

  ghost predicate Legal<V, A, T>(env: Env<A, T>, s: State<V, A, T>, c: Command<V, A, T>) {
    match c
    case Cancel(v) => v in s.vars
    case Assign(v, _) => v in s.vars
    case Later(v, when, _) => v in s.vars && when != NEVER
    case Sensitize(t, v) => t in env.owner && t !in s.attached && v in s.vars
    case Desensitize(t) => t in s.attached
    case Activate(a) => a in env.prio
    case SetPc(_) => true
  }

  ghost function DoCommand<V, A, T>(env: Env<A, T>, s: State<V, A, T>, a: A, c: Command<V, A, T>): State<V, A, T>
    requires a in env.prio && Legal(env, s, c)
  {
    match c
    case Cancel(v) => Unschedule(s, v)
    case Assign(v, val) => AssignNow(env, s, v, env.prio[a], val)
    case Later(v, when, val) => ScheduleLater(s, v, when, val)
    case Sensitize(t, v) => s.(attached := s.attached[t := v])
    case Desensitize(t) => s.(attached := s.attached - {t})
    case Activate(b) => s.(runnable := s.runnable + {b})
    case SetPc(pc) => s.(pcs := s.pcs[a := pc])
  }

  ghost predicate Past<V, A, T>(s: State<V, A, T>, c: Command<V, A, T>) {
    c.Later? && c.when < s.now
  }

  /** The queues have no room for what is scheduled. */
  ghost function Overflow<V, A, T>(env: Env<A, T>, s: State<V, A, T>): Outcome {
    if |Pending(s)| > env.eventRoom then Throw(ExhaustedEventQueue)
    else if |s.runnable| > env.actRoom then Throw(ExhaustedActQueue)
    else Ok
  }

  /** What a call throws: updates must not be in the past, and queues have room. */
  ghost function CallThrow<V, A, T>(env: Env<A, T>, s: State<V, A, T>, a: A, c: Command<V, A, T>): Outcome
    requires a in env.prio && Legal(env, s, c)
  {
    if Past(s, c) then Throw(InvalidTime) else Overflow(env, DoCommand(env, s, a, c))
  }

  ghost predicate Admissible<V, A, T>(env: Env<A, T>, s: State<V, A, T>, q: Request<V, A, T>) {
    q.a in env.prio && Legal(env, s, q.c)
  }

  /** One step of a routine: its calls in order, up to the first throw. */
  ghost function RunStep<V, A, T>(env: Env<A, T>, s: State<V, A, T>, a: A, cs: seq<Request<V, A, T>>): Run<V, A, T>
    requires a in env.prio
    decreases |cs|
  {
    if cs == [] then Run(s, [a], Done)
    else if !Admissible(env, s, cs[0]) then Run(s, [a], Illegal)
    else if CallThrow(env, s, cs[0].a, cs[0].c).Throw? then
      Run(s, [a], Threw(CallThrow(env, s, cs[0].a, cs[0].c).error))
    else RunStep(env, DoCommand(env, s, cs[0].a, cs[0].c), a, cs[1..])
  }

  /** Routines run by priority until none is left, at most `fuel` of them. */
  ghost function RunActs<V, A, T>(env: Env<A, T>, program: Program<V, A, T>, s: State<V, A, T>, fuel: nat): Run<V, A, T>
    decreases fuel
  {
    if s.runnable == {} then Run(s, [], Done)
    else if fuel == 0 then Run(s, [], OutOfFuel)
    else if !Unambiguous(env, s.runnable) then Run(s, [], Ambiguous)
    else
      var a := First(env, s.runnable);
      var s0 := s.(runnable := s.runnable - {a});
      var step := RunStep(env, s0, a, program(a, ViewOf(s0)));
      if step.status != Done then step
      else
        var rest := RunActs(env, program, step.state, fuel - 1);
        rest.(order := [a] + rest.order)
  }

  /** A run with routines that have run before it. */
  ghost function After<V, A, T>(order: seq<A>, run: Run<V, A, T>): Run<V, A, T> {
    run.(order := order + run.order)
  }

  /** One turn: the first routine runs, then the others. */
  lemma Turn<V, A, T>(env: Env<A, T>, program: Program<V, A, T>, s: State<V, A, T>, fuel: nat)
    requires s.runnable != {} && fuel > 0 && Unambiguous(env, s.runnable)
    ensures var a := First(env, s.runnable); var s0 := s.(runnable := s.runnable - {a});
      var step := RunStep(env, s0, a, program(a, ViewOf(s0)));
      RunActs(env, program, s, fuel) ==
        if step.status != Done then step else After([a], RunActs(env, program, step.state, fuel - 1))
  {
  }

  lemma NoTurn<V, A, T>(env: Env<A, T>, program: Program<V, A, T>, s: State<V, A, T>, fuel: nat)
    ensures s.runnable == {} ==> RunActs(env, program, s, fuel) == Run(s, [], Done)
    ensures s.runnable != {} && fuel == 0 ==> RunActs(env, program, s, fuel) == Run(s, [], OutOfFuel)
    ensures s.runnable != {} && fuel > 0 && RunActs(env, program, s, fuel).status != Ambiguous ==>
      Unambiguous(env, s.runnable)
  {
  }

  lemma AfterAfter<V, A, T>(o: seq<A>, p: seq<A>, run: Run<V, A, T>)
    ensures After(o, After(p, run)) == After(o + p, run) && After([], run) == run
  {
    assert o + (p + run.order) == o + p + run.order;
  }

  /** Model time moves to the earliest update only when no routine is runnable. */
  ghost function Advance<V, A, T>(s: State<V, A, T>): State<V, A, T> {
    if s.runnable == {} && Pending(s) != {} then s.(now := NextTime(s)) else s
  }

  /** The throws at the start of a tick. */
  ghost function TickThrow<V, A, T>(s: State<V, A, T>): Outcome {
    if s.runnable != {} && Pending(s) != {} && s.now > NextTime(s) then Throw(NotReady)
    else if s.runnable == {} && Pending(s) != {} && NextTime(s) <= s.now then Throw(InvalidTime)
    else Ok
  }

  /** The routines of an instant run, if there is room for all that the updates have woken. */
  ghost function RunWoken<V, A, T>(env: Env<A, T>, program: Program<V, A, T>, s: State<V, A, T>, fuel: nat)
    : Run<V, A, T>
  {
    if |s.runnable| > env.actRoom then Run(s, [], Threw(ExhaustedActQueue))
    else RunActs(env, program, s, fuel)
  }

  /** A whole tick. */
  ghost function Tick<V, A, T>(env: Env<A, T>, program: Program<V, A, T>, s: State<V, A, T>, fuel: nat): Run<V, A, T> {
    if TickThrow(s).Throw? then Run(s, [], Threw(TickThrow(s).error))
    else RunWoken(env, program, ApplyDue(env, Advance(s)), fuel)
  }

  /** The updates made at the start of a tick: all that are due, unless the queue overflows first. */
  ghost predicate UpdatesOf<V, A, T>(env: Env<A, T>, drops: Finaliser<V>, s: State<V, A, T>, vs: seq<V>) {
    TickThrow(s).Ok? ==>
      && Drains(env, drops, Advance(s), vs)
      && (Due(Drained(env, drops, Advance(s), vs)) == {} ||
        |Drained(env, drops, Advance(s), vs).runnable| > env.actRoom)
  }

  /** A whole tick in which dropping old values may finalise variables. */
  ghost function TickDropping<V, A, T>(env: Env<A, T>, program: Program<V, A, T>, drops: Finaliser<V>,
                                       s: State<V, A, T>, vs: seq<V>, fuel: nat): Run<V, A, T>
    requires UpdatesOf(env, drops, s, vs)
  {
    if TickThrow(s).Throw? then Run(s, [], Threw(TickThrow(s).error))
    else RunWoken(env, program, Drained(env, drops, Advance(s), vs), fuel)
  }

  lemma MoreWoken<V, A, T>(env: Env<A, T>, s: State<V, A, T>)
    ensures |s.runnable| <= |ApplyDue(env, s).runnable|
  {
    SubsetSize(s.runnable, ApplyDue(env, s).runnable);
  }

  ghost predicate Exhausted(status: Status) {
    status == Threw(ExhaustedActQueue) || status == Threw(ExhaustedEventQueue)
  }

  /** If nothing is finalised that is a tick, whatever the order of the updates. */
  lemma PackedTick<V, A, T>(env: Env<A, T>, program: Program<V, A, T>, s: State<V, A, T>, vs: seq<V>, fuel: nat)
    requires UpdatesOf(env, NoDrops, s, vs)
    ensures TickDropping(env, program, NoDrops, s, vs, fuel).status == Tick(env, program, s, fuel).status
    ensures !Exhausted(Tick(env, program, s, fuel).status) ==>
              TickDropping(env, program, NoDrops, s, vs, fuel) == Tick(env, program, s, fuel)
  {
    var drops: Finaliser<V> := NoDrops;
    hide ApplyDue, Due, RunActs;
    if TickThrow(s).Ok? {
      DrainedIsApplyDue(env, Advance(s), vs);
      MoreWoken(env, Drained(env, drops, Advance(s), vs));
    }
  }

  // ---------- distinct priorities ----------

  /** No two of the routines have the same priority. */
  ghost predicate Distinct<A, T>(env: Env<A, T>, acts: set<A>) {
    forall a, b :: a in acts && b in acts && a in env.prio && b in env.prio && env.prio[a] == env.prio[b] ==> a == b
  }

  /** In every state of a run, the runnable routines have different priorities. */
  ghost predicate DistinctRun<V, A, T>(env: Env<A, T>, program: Program<V, A, T>, s: State<V, A, T>, fuel: nat)
    decreases fuel
  {
    s.runnable != {} && fuel > 0 ==>
      && Distinct(env, s.runnable)
      && (Unambiguous(env, s.runnable) ==>
            var a := First(env, s.runnable);
            var s0 := s.(runnable := s.runnable - {a});
            var step := RunStep(env, s0, a, program(a, ViewOf(s0)));
            step.status == Done ==> DistinctRun(env, program, step.state, fuel - 1))
  }

  lemma SomeFirst<A, T>(env: Env<A, T>, acts: set<A>)
    requires acts != {} && acts <= env.prio.Keys
    ensures exists a :: a in acts && IsFirst(env, acts, a)
  {
    SomeLeast(acts, env.prio);
    var a :| a in acts && forall b :: b in acts ==> env.prio[a] <= env.prio[b];
    assert IsFirst(env, acts, a);
  }

  /** Every trigger's routine, and every runnable one, has a priority. */
  ghost predicate Named<V, A, T>(env: Env<A, T>, s: State<V, A, T>) {
    s.runnable <= env.prio.Keys && forall t :: t in env.owner ==> env.owner[t] in env.prio
  }

  lemma {:induction false} StepStaysNamed<V, A, T>(env: Env<A, T>, s: State<V, A, T>, a: A, cs: seq<Request<V, A, T>>)
    requires a in env.prio && Named(env, s)
    ensures Named(env, RunStep(env, s, a, cs).state)
    ensures RunStep(env, s, a, cs).status != Ambiguous
    decreases |cs|
  {
    if cs != [] && Admissible(env, s, cs[0]) && CallThrow(env, s, cs[0].a, cs[0].c).Ok? {
      StepStaysNamed(env, DoCommand(env, s, cs[0].a, cs[0].c), a, cs[1..]);
    }
  }

  lemma {:induction false} ActsUnambiguous<V, A, T>(env: Env<A, T>, program: Program<V, A, T>, s: State<V, A, T>,
                                                    fuel: nat)
    requires DistinctRun(env, program, s, fuel) && Named(env, s)
    ensures RunActs(env, program, s, fuel).status != Ambiguous
    decreases fuel
  {
    if s.runnable != {} && fuel > 0 {
      SomeFirst(env, s.runnable);
      var a := First(env, s.runnable);
      var s0 := s.(runnable := s.runnable - {a});
      var cs := program(a, ViewOf(s0));
      StepStaysNamed(env, s0, a, cs);
      if RunStep(env, s0, a, cs).status == Done {
        ActsUnambiguous(env, program, RunStep(env, s0, a, cs).state, fuel - 1);
      }
    }
  }

  /** If in no state of an instant two runnable routines have the same priority, which routine runs
      next is never in doubt. */
  lemma TickUnambiguous<V, A, T>(env: Env<A, T>, program: Program<V, A, T>, s: State<V, A, T>, fuel: nat)
    requires DistinctRun(env, program, ApplyDue(env, Advance(s)), fuel) && Named(env, s)
    ensures Tick(env, program, s, fuel).status != Ambiguous
  {
    assert Named(env, ApplyDue(env, Advance(s)));
    ActsUnambiguous(env, program, ApplyDue(env, Advance(s)), fuel);
  }

  // ---------- room in the queues ----------

  /** The queues have room for every variable and every routine. */
  ghost predicate Ample<V, A, T>(env: Env<A, T>, s: State<V, A, T>) {
    Named(env, s) && |s.vars.Keys| <= env.eventRoom && |env.prio.Keys| <= env.actRoom
  }

  lemma AmpleHasRoom<V, A, T>(env: Env<A, T>, s: State<V, A, T>)
    requires Ample(env, s)
    ensures Overflow(env, s) == Ok
  {
    SubsetSize(Pending(s), s.vars.Keys);
    SubsetSize(s.runnable, env.prio.Keys);
  }

  lemma AmpleCommand<V, A, T>(env: Env<A, T>, s: State<V, A, T>, a: A, c: Command<V, A, T>)
    requires a in env.prio && Ample(env, s) && Legal(env, s, c)
    ensures Ample(env, DoCommand(env, s, a, c))
  {
    assert DoCommand(env, s, a, c).vars.Keys == s.vars.Keys;
  }

  lemma {:induction false} AmpleStep<V, A, T>(env: Env<A, T>, s: State<V, A, T>, a: A, cs: seq<Request<V, A, T>>)
    requires a in env.prio && Ample(env, s)
    ensures Ample(env, RunStep(env, s, a, cs).state) && !Exhausted(RunStep(env, s, a, cs).status)
    decreases |cs|
  {
    hide Ample, DoCommand, Overflow;
    if cs != [] && Admissible(env, s, cs[0]) {
      var s' := DoCommand(env, s, cs[0].a, cs[0].c);
      AmpleCommand(env, s, cs[0].a, cs[0].c);
      AmpleHasRoom(env, s');
      AmpleStep(env, s', a, cs[1..]);
    }
  }

  lemma {:induction false} AmpleActs<V, A, T>(env: Env<A, T>, program: Program<V, A, T>, s: State<V, A, T>, fuel: nat)
    requires Ample(env, s)
    ensures !Exhausted(RunActs(env, program, s, fuel).status)
    decreases fuel
  {
    if s.runnable != {} && fuel > 0 && Unambiguous(env, s.runnable) {
      var a := First(env, s.runnable);
      var s0 := s.(runnable := s.runnable - {a});
      assert Ample(env, s0);
      hide Ample, RunStep, First;
      var step := RunStep(env, s0, a, program(a, ViewOf(s0)));
      AmpleStep(env, s0, a, program(a, ViewOf(s0)));
      if step.status == Done {
        AmpleActs(env, program, step.state, fuel - 1);
      }
    }
  }

  lemma AmpleApplied<V, A, T>(env: Env<A, T>, s: State<V, A, T>)
    requires Ample(env, s)
    ensures Ample(env, ApplyDue(env, s))
  {
    assert ApplyDue(env, s).vars.Keys == s.vars.Keys;
  }

  lemma TickThrowKinds<V, A, T>(s: State<V, A, T>)
    ensures TickThrow(s) in {Ok, Throw(NotReady), Throw(InvalidTime)}
  {
  }

  lemma AmpleWoken<V, A, T>(env: Env<A, T>, program: Program<V, A, T>, s: State<V, A, T>, fuel: nat)
    requires Ample(env, s)
    ensures !Exhausted(RunWoken(env, program, s, fuel).status)
  {
    hide Ample, RunActs;
    AmpleHasRoom(env, s);
    AmpleActs(env, program, s, fuel);
  }

  /** Queues with room for every variable and every routine are never exhausted. */
  lemma AmpleTick<V, A, T>(env: Env<A, T>, program: Program<V, A, T>, s: State<V, A, T>, fuel: nat)
    requires Ample(env, s)
    ensures !Exhausted(Tick(env, program, s, fuel).status)
  {
    TickThrowKinds(s);
    assert Ample(env, Advance(s));
    hide Ample, RunWoken, ApplyDue, Advance, TickThrow;
    AmpleApplied(env, Advance(s));
    AmpleWoken(env, program, ApplyDue(env, Advance(s)), fuel);
  }

  // ---------- the order of an instant ----------

  /** The routines of larger priority number than `a`, or at least of no smaller one. */
  ghost predicate Below<A, T>(env: Env<A, T>, a: A, b: A, strict: bool)
    requires a in env.prio
  {
    b in env.prio && if strict then env.prio[a] < env.prio[b] else env.prio[a] <= env.prio[b]
  }

  /** Every routine that the calls of a step make runnable is below the routine whose turn it is. */
  ghost predicate Downward<V, A, T>(env: Env<A, T>, s: State<V, A, T>, a: A, cs: seq<Request<V, A, T>>, strict: bool)
    requires a in env.prio
    decreases |cs|
  {
    cs != [] && Admissible(env, s, cs[0]) && CallThrow(env, s, cs[0].a, cs[0].c).Ok? ==>
      var s' := DoCommand(env, s, cs[0].a, cs[0].c);
      && (forall b :: b in s'.runnable ==> b in s.runnable || Below(env, a, b, strict))
      && Downward(env, s', a, cs[1..], strict)
  }

  /** The calls of a step are of this kind, whatever the state, if they activate routines below only and
      if no assignment is made by a routine of smaller priority number. */
  lemma {:induction false} CallsAreDownward<V, A, T>(env: Env<A, T>, s: State<V, A, T>, a: A,
                                                     cs: seq<Request<V, A, T>>, strict: bool)
    requires a in env.prio
    requires forall i :: 0 <= i < |cs| && cs[i].c.Assign? && cs[i].a in env.prio ==> env.prio[a] <= env.prio[cs[i].a]
    requires forall i :: 0 <= i < |cs| && cs[i].c.Activate? && cs[i].c.a in env.prio ==>
      Below(env, a, cs[i].c.a, strict)
    ensures Downward(env, s, a, cs, strict)
    decreases |cs|
  {
    if cs != [] && Admissible(env, s, cs[0]) && CallThrow(env, s, cs[0].a, cs[0].c).Ok? {
      assert forall i :: 0 <= i < |cs[1..]| ==> cs[1..][i] == cs[i + 1];
      CallsAreDownward(env, DoCommand(env, s, cs[0].a, cs[0].c), a, cs[1..], strict);
    }
  }

  /** All steps of a run are downward. */
  ghost predicate DownwardRun<V, A, T>(env: Env<A, T>, program: Program<V, A, T>, s: State<V, A, T>, fuel: nat,
                                       strict: bool)
    decreases fuel
  {
    s.runnable != {} && fuel > 0 && Unambiguous(env, s.runnable) ==>
      var a := First(env, s.runnable);
      var s0 := s.(runnable := s.runnable - {a});
      var step := RunStep(env, s0, a, program(a, ViewOf(s0)));
      && Downward(env, s0, a, program(a, ViewOf(s0)), strict)
      && (step.status == Done ==> DownwardRun(env, program, step.state, fuel - 1, strict))
  }

  lemma {:induction false} StepWakes<V, A, T>(env: Env<A, T>, s: State<V, A, T>, a: A, cs: seq<Request<V, A, T>>,
                                              strict: bool)
    requires a in env.prio && Downward(env, s, a, cs, strict)
    ensures forall b :: b in RunStep(env, s, a, cs).state.runnable ==> b in s.runnable || Below(env, a, b, strict)
    decreases |cs|
  {
    if cs != [] && Admissible(env, s, cs[0]) && CallThrow(env, s, cs[0].a, cs[0].c).Ok? {
      StepWakes(env, DoCommand(env, s, cs[0].a, cs[0].c), a, cs[1..], strict);
    }
  }

  /** Routines run in an instant in the order of their priorities. */
  ghost predicate Ascending<A, T>(env: Env<A, T>, order: seq<A>, strict: bool) {
    && (forall i :: 0 <= i < |order| ==> order[i] in env.prio)
    && (forall i, j :: 0 <= i < j < |order| ==> Below(env, order[i], order[j], strict))
  }

  lemma {:induction false} StepOrder<V, A, T>(env: Env<A, T>, s: State<V, A, T>, a: A, cs: seq<Request<V, A, T>>)
    requires a in env.prio
    ensures RunStep(env, s, a, cs).order == [a]
    decreases |cs|
  {
    if cs != [] && Admissible(env, s, cs[0]) && CallThrow(env, s, cs[0].a, cs[0].c).Ok? {
      StepOrder(env, DoCommand(env, s, cs[0].a, cs[0].c), a, cs[1..]);
    }
  }

  lemma OthersAfter<A, T>(env: Env<A, T>, acts: set<A>, a: A)
    requires Unambiguous(env, acts) && a == First(env, acts) && acts <= env.prio.Keys
    ensures forall b :: b in acts && b != a ==> env.prio[a] < env.prio[b]
  {
    forall b | b in acts && b != a ensures env.prio[a] < env.prio[b] {
      if env.prio[b] == env.prio[a] {
        assert IsFirst(env, acts, b);
      }
    }
  }

  /** If steps only activate downward, an instant runs its routines in priority order. */
  lemma {:induction false} InstantOrder<V, A, T>(env: Env<A, T>, program: Program<V, A, T>, s: State<V, A, T>,
                                                 fuel: nat, strict: bool, floor: int)
    requires DownwardRun(env, program, s, fuel, strict) && s.runnable <= env.prio.Keys
    requires forall b :: b in s.runnable ==> if strict then floor < env.prio[b] else floor <= env.prio[b]
    ensures Ascending(env, RunActs(env, program, s, fuel).order, strict)
    ensures forall b :: b in RunActs(env, program, s, fuel).order ==>
      b in env.prio && if strict then floor < env.prio[b] else floor <= env.prio[b]
    decreases fuel
  {
    if s.runnable != {} && fuel > 0 && Unambiguous(env, s.runnable) {
      var a := First(env, s.runnable);
      var s0 := s.(runnable := s.runnable - {a});
      var cs := program(a, ViewOf(s0));
      var step := RunStep(env, s0, a, cs);
      StepOrder(env, s0, a, cs);
      if step.status == Done {
        OthersAfter(env, s.runnable, a);
        StepWakes(env, s0, a, cs, strict);
        InstantOrder(env, program, step.state, fuel - 1, strict, env.prio[a]);
      }
    }
  }

  /** The routines that can still run in an instant after one of priority `floor` has run. */
  ghost function Candidates<A, T>(env: Env<A, T>, floor: int): set<A> {
    set b | b in env.prio && env.prio[b] > floor
  }

  lemma {:induction false} StepNotOutOfFuel<V, A, T>(env: Env<A, T>, s: State<V, A, T>, a: A, cs: seq<Request<V, A, T>>)
    requires a in env.prio
    ensures RunStep(env, s, a, cs).status != OutOfFuel
    decreases |cs|
  {
    if cs != [] && Admissible(env, s, cs[0]) && CallThrow(env, s, cs[0].a, cs[0].c).Ok? {
      StepNotOutOfFuel(env, DoCommand(env, s, cs[0].a, cs[0].c), a, cs[1..]);
    }
  }

  lemma SmallerSet<A>(small: set<A>, big: set<A>, x: A)
    requires small <= big - {x} && x in big
    ensures |small| < |big|
  {
    assert big == small + (big - small);
    assert x in big - small;
  }

  /** If steps wake only routines of strictly larger priority number, the instant ends:
      as many turns as there are routines are enough. */
  lemma {:induction false} InstantEnds<V, A, T>(env: Env<A, T>, program: Program<V, A, T>, s: State<V, A, T>,
                                                fuel: nat, floor: int)
    requires DownwardRun(env, program, s, fuel, true) && s.runnable <= Candidates(env, floor)
    requires fuel >= |Candidates(env, floor)|
    ensures RunActs(env, program, s, fuel).status != OutOfFuel
    decreases fuel
  {
    if s.runnable != {} {
      var b :| b in s.runnable;
      assert Candidates(env, floor) != {};
      if Unambiguous(env, s.runnable) {
        var a := First(env, s.runnable);
        var s0 := s.(runnable := s.runnable - {a});
        var cs := program(a, ViewOf(s0));
        var step := RunStep(env, s0, a, cs);
        OthersAfter(env, s.runnable, a);
        StepWakes(env, s0, a, cs, true);
        assert Candidates(env, env.prio[a]) <= Candidates(env, floor) - {a};
        SmallerSet(Candidates(env, env.prio[a]), Candidates(env, floor), a);
        StepNotOutOfFuel(env, s0, a, cs);
        if step.status == Done {
          InstantEnds(env, program, step.state, fuel - 1, env.prio[a]);
        }
      }
    }
  }

  lemma AscendingIsDistinct<A, T>(env: Env<A, T>, order: seq<A>)
    requires Ascending(env, order, true)
    ensures forall i, j :: 0 <= i < j < |order| ==> order[i] != order[j]
  {
    forall i, j | 0 <= i < j < |order| ensures order[i] != order[j] {
      assert Below(env, order[i], order[j], true);
    }
  }

  /** With steps that wake only strictly larger priority numbers, for instance only through
      assignments, every tick ends and no routine runs twice in it. */
  lemma OncePerInstant<V, A, T>(env: Env<A, T>, program: Program<V, A, T>, s: State<V, A, T>, fuel: nat)
    requires fuel >= |env.prio|
    requires s.runnable <= env.prio.Keys && forall t :: t in env.owner ==> env.owner[t] in env.prio
    requires DownwardRun(env, program, ApplyDue(env, Advance(s)), fuel, true)
    ensures Tick(env, program, s, fuel).status != OutOfFuel
    ensures Ascending(env, Tick(env, program, s, fuel).order, true)
    ensures var order := Tick(env, program, s, fuel).order; forall i, j :: 0 <= i < j < |order| ==> order[i] != order[j]
  {
    var s' := ApplyDue(env, Advance(s));
    assert s'.runnable <= env.prio.Keys;
    assert Candidates(env, -1) == env.prio.Keys && |env.prio.Keys| == |env.prio|;
    hide ApplyDue, Advance, RunActs, Candidates, TickThrow, Ascending;
    InstantOrder(env, program, s', fuel, true, -1);
    InstantEnds(env, program, s', fuel, -1);
    AscendingIsDistinct(env, Tick(env, program, s, fuel).order);
  }
}
