/** Whole runs: every update takes effect exactly once, at its time, unless it is overwritten
    or cancelled.

    A run is a sequence of small operations. A tick is an Advance, then an Apply for each due
    update (with a Cancel for each variable finalised on the way), then for each routine a Pop
    and its Calls. Platform code adds Calls and Cancels of its own between ticks. */
module Timeline {
  import opened Prelude
  import opened Instant

  datatype Op<V, A, T> =
    | Advance
    | Apply(v: V)
    | Cancel(v: V)
    | Pop(a: A)
    | Call(a: A, c: Command<V, A, T>)

  ghost predicate Enabled<V, A, T>(env: Env<A, T>, s: State<V, A, T>, op: Op<V, A, T>) {
    match op
    case Advance => TickThrow(s).Ok?
    case Apply(v) => IsDue(s, v)
    case Cancel(v) => v in s.vars
    case Pop(a) => a in s.runnable
    case Call(a, c) => a in env.prio && Legal(env, s, c) && !Past(s, c)
  }

  ghost function Do<V, A, T>(env: Env<A, T>, s: State<V, A, T>, op: Op<V, A, T>): State<V, A, T>
    requires Enabled(env, s, op)
  {
    match op
    case Advance => Instant.Advance(s)
    case Apply(v) => ApplyOne(env, s, v)
    case Cancel(v) => Unschedule(s, v)
    case Pop(a) => s.(runnable := s.runnable - {a})
    case Call(a, c) => DoCommand(env, s, a, c)
  }

  /** The states `ss` before, between and after the operations `ops`. */
  ghost predicate IsRun<V, A, T>(env: Env<A, T>, ss: seq<State<V, A, T>>, ops: seq<Op<V, A, T>>) {
    && |ss| == |ops| + 1
    && forall i :: 0 <= i < |ops| ==> Enabled(env, ss[i], ops[i]) && ss[i + 1] == Do(env, ss[i], ops[i])
  }

  /** The operation schedules or cancels an update of `v`. */
  predicate Touches<V(==), A, T>(op: Op<V, A, T>, v: V) {
    (op.Cancel? && op.v == v) || (op.Call? && (op.c.Later? || op.c.Cancel?) && op.c.v == v)
  }

  ghost predicate Schedules<V, A, T>(op: Op<V, A, T>, v: V, when: Time, val: Word) {
    op.Call? && op.c == Later(v, when, val)
  }

  /** No pending update lies in the past, and none is at the "never" time. */
  ghost predicate Timely<V, A, T>(s: State<V, A, T>) {
    s.now != NEVER && forall v :: v in Pending(s) ==> s.now <= WhenOf(s, v) && WhenOf(s, v) != NEVER
  }

  lemma TimelyStep<V, A, T>(env: Env<A, T>, s: State<V, A, T>, op: Op<V, A, T>)
    requires Timely(s) && Enabled(env, s, op)
    ensures Timely(Do(env, s, op))
    ensures s.now <= Do(env, s, op).now && Do(env, s, op).vars.Keys == s.vars.Keys
  {
    var s' := Do(env, s, op);
    forall v | v in Pending(s') ensures s'.now <= WhenOf(s', v) && WhenOf(s', v) != NEVER {
      if v in Pending(s) && WhenOf(s, v) == WhenOf(s', v) {
        assert s.now <= WhenOf(s, v);
      }
    }
  }

  /** In every run time never goes back and no pending update is ever left behind. */
  lemma {:induction false} TimelyRun<V, A, T>(env: Env<A, T>, ss: seq<State<V, A, T>>, ops: seq<Op<V, A, T>>,
                                              i: nat, j: nat)
    requires IsRun(env, ss, ops) && Timely(ss[0]) && i <= j < |ss|
    ensures Timely(ss[j]) && ss[i].now <= ss[j].now && ss[j].vars.Keys == ss[i].vars.Keys
    decreases j
  {
    if j > 0 {
      TimelyRun(env, ss, ops, if i < j then i else i - 1, j - 1);
      TimelyStep(env, ss[j - 1], ops[j - 1]);
    }
  }

  /** The update of `v` scheduled at step `k` is still waiting after `j` steps. */
  ghost predicate Waiting<V, A, T>(ss: seq<State<V, A, T>>, v: V, when: Time, val: Word, j: nat)
    requires j < |ss|
  {
    v in ss[j].vars && ss[j].vars[v].pending == Some(Pend(when, val)) && ss[j].now <= when
  }

  /** Step `m` gave `v` the value `val` at time `when`. */
  ghost predicate TookEffect<V, A, T>(ss: seq<State<V, A, T>>, ops: seq<Op<V, A, T>>, v: V, when: Time, val: Word,
                                      m: nat)
    requires m < |ops| && |ss| == |ops| + 1
  {
    && ops[m] == Apply(v) && ss[m].now == when && v in ss[m + 1].vars
    && ss[m + 1].vars[v] == VarState(val, when, None)
  }

  /** The update pending on `v`, if any. */
  ghost function PendingOn<V, A, T>(s: State<V, A, T>, v: V): Option<Pend> {
    if v in s.vars then s.vars[v].pending else None
  }

  /** What one operation does to the update pending on a variable. */
  lemma StepOn<V, A, T>(env: Env<A, T>, s: State<V, A, T>, op: Op<V, A, T>, v: V)
    requires Enabled(env, s, op)
    ensures v in Do(env, s, op).vars <==> v in s.vars
    ensures !Touches(op, v) && op != Apply(v) ==> PendingOn(Do(env, s, op), v) == PendingOn(s, v)
    ensures op == Apply(v) ==>
      && v in s.vars && s.vars[v].pending.Some? && s.vars[v].pending.value.when == s.now
      && Do(env, s, op).vars[v] == VarState(s.vars[v].pending.value.val, s.now, None)
    ensures op.Call? && op.c.Later? && op.c.v == v ==>
      v in s.vars && s.now <= op.c.when && PendingOn(Do(env, s, op), v) == Some(Pend(op.c.when, op.c.val))
    ensures Touches(op, v) && !(op.Call? && op.c.Later?) ==> PendingOn(Do(env, s, op), v) == None
    ensures op.Call? ==> Do(env, s, op).now == s.now
  {
  }

  lemma StillAhead<V, A, T>(s: State<V, A, T>, v: V)
    requires Timely(s) && IsPending(s, v)
    ensures s.now <= WhenOf(s, v)
  {
    assert v in Pending(s);
  }

  /** An update pending after i steps and neither overwritten nor cancelled before step j is either
      still waiting, not yet overdue, and was not applied; or it took effect at exactly one step, when
      the model time was its time. */
  lemma {:induction false} PendingExactness<V, A, T>(env: Env<A, T>, ss: seq<State<V, A, T>>, ops: seq<Op<V, A, T>>,
                                                     i: nat, j: nat, v: V, when: Time, val: Word)
    requires IsRun(env, ss, ops) && Timely(ss[0])
    requires i <= j <= |ops| && PendingOn(ss[i], v) == Some(Pend(when, val))
    requires forall k :: i <= k < j ==> !Touches(ops[k], v)
    ensures
      || (Waiting(ss, v, when, val, j) && forall k :: i <= k < j ==> ops[k] != Apply(v))
      || (PendingOn(ss[j], v) == None
          && exists m :: i <= m < j && TookEffect(ss, ops, v, when, val, m)
                         && forall k :: i <= k < j && k != m ==> ops[k] != Apply(v))
    decreases j
  {
    hide Enabled, Do, Timely;
    TimelyRun(env, ss, ops, 0, j);
    if j == i {
      StillAhead(ss[j], v);
    } else {
      PendingExactness(env, ss, ops, i, j - 1, v, when, val);
      var op := ops[j - 1];
      StepOn(env, ss[j - 1], op, v);
      assert !Touches(op, v);
      if Waiting(ss, v, when, val, j - 1) && forall k :: i <= k < j - 1 ==> ops[k] != Apply(v) {
        if op == Apply(v) {
          assert TookEffect(ss, ops, v, when, val, j - 1);
        } else {
          StillAhead(ss[j], v);
        }
      } else {
        assert op != Apply(v);
      }
    }
  }

  /** Exactness, forwards. An update scheduled at step k and neither overwritten nor cancelled
      before step j is either still waiting, not yet overdue, and was never applied; or it took
      effect at exactly one step, when the model time was its time. */
  lemma Exactness<V, A, T>(env: Env<A, T>, ss: seq<State<V, A, T>>, ops: seq<Op<V, A, T>>,
                           k: nat, j: nat, v: V, when: Time, val: Word)
    requires IsRun(env, ss, ops) && Timely(ss[0])
    requires k < j <= |ops| && Schedules(ops[k], v, when, val)
    requires forall i :: k < i < j ==> !Touches(ops[i], v)
    ensures
      || (Waiting(ss, v, when, val, j) && forall i :: k < i < j ==> ops[i] != Apply(v))
      || (PendingOn(ss[j], v) == None
          && exists m :: k < m < j && TookEffect(ss, ops, v, when, val, m)
                         && forall i :: k < i < j && i != m ==> ops[i] != Apply(v))
  {
    hide Enabled, Do, Timely;
    StepOn(env, ss[k], ops[k], v);
    PendingExactness(env, ss, ops, k + 1, j, v, when, val);
  }

  /** What no operation schedules, cancels or applies stays as it is. */
  lemma {:induction false} RunKeeps<V, A, T>(env: Env<A, T>, ss: seq<State<V, A, T>>, ops: seq<Op<V, A, T>>, v: V)
    requires IsRun(env, ss, ops) && forall k :: 0 <= k < |ops| ==> !Touches(ops[k], v) && ops[k] != Apply(v)
    ensures PendingOn(ss[|ops|], v) == PendingOn(ss[0], v)
    decreases |ops|
  {
    hide Enabled, Do;
    if ops != [] {
      var n := |ops| - 1;
      RunKeeps(env, ss[..n + 1], ops[..n], v);
      StepOn(env, ss[n], ops[n], v);
    }
  }

  /** Nothing is pending until a call schedules it. */
  lemma {:induction false} RunKeepsNone<V, A, T>(env: Env<A, T>, ss: seq<State<V, A, T>>, ops: seq<Op<V, A, T>>, v: V)
    requires IsRun(env, ss, ops) && PendingOn(ss[0], v) == None
    requires forall k :: 0 <= k < |ops| ==> !(ops[k].Call? && ops[k].c.Later? && ops[k].c.v == v)
    ensures PendingOn(ss[|ops|], v) == None
    decreases |ops|
  {
    hide Enabled, Do;
    if ops != [] {
      var n := |ops| - 1;
      RunKeepsNone(env, ss[..n + 1], ops[..n], v);
      StepOn(env, ss[n], ops[n], v);
    }
  }

  /** Exactness, backwards. Whatever takes effect on `v` was scheduled: a variable with a pending
      update either had it from the start, untouched, or got it from the last call that touched it. */
  lemma {:induction false} Provenance<V, A, T>(env: Env<A, T>, ss: seq<State<V, A, T>>, ops: seq<Op<V, A, T>>,
                                               j: nat, v: V)
    requires IsRun(env, ss, ops) && j <= |ops| && IsPending(ss[j], v)
    ensures var p := ss[j].vars[v].pending.value;
      || (IsPending(ss[0], v) && ss[0].vars[v].pending.value == p
          && forall i :: 0 <= i < j ==> !Touches(ops[i], v) && ops[i] != Apply(v))
      || exists k :: 0 <= k < j && Schedules(ops[k], v, p.when, p.val)
                     && forall i :: k < i < j ==> !Touches(ops[i], v) && ops[i] != Apply(v)
    decreases j
  {
    if j > 0 {
      var op := ops[j - 1];
      StepOn(env, ss[j - 1], op, v);
      hide Enabled, Do;
      var p := ss[j].vars[v].pending.value;
      if Touches(op, v) {
        assert Schedules(op, v, p.when, p.val);
      } else {
        assert op != Apply(v);
        assert PendingOn(ss[j], v) == PendingOn(ss[j - 1], v);
        Provenance(env, ss, ops, j - 1, v);
      }
    }
  }

  /** A tick with nothing runnable and something pending moves time strictly forward, onto a
      pending update, unless an update is pending for the present; then it throws. */
  lemma TickProgress<V, A, T>(s: State<V, A, T>)
    requires Timely(s) && s.runnable == {} && Pending(s) != {}
    ensures TickThrow(s).Throw? <==> exists v :: v in Pending(s) && WhenOf(s, v) == s.now
    ensures TickThrow(s).Ok? ==> s.now < Instant.Advance(s).now && Due(Instant.Advance(s)) != {}
  {
    var t := NextTime(s);
    var v :| v in Pending(s) && IsNext(s, v) && WhenOf(s, v) == t;
    assert IsDue(Instant.Advance(s), v);
    assert v in Due(Instant.Advance(s));
  }

  /** What the starting checks of a tick throw: "not ready" if there is a routine to run and an update is
      overdue, "invalid time" if there is none and an update is overdue or due already. */
  lemma TickThrowsIff<V, A, T>(s: State<V, A, T>)
    ensures TickThrow(s) == Throw(NotReady) <==> s.runnable != {} && exists v :: v in Pending(s) && WhenOf(s, v) < s.now
    ensures TickThrow(s) == Throw(InvalidTime) <==>
      s.runnable == {} && exists v :: v in Pending(s) && WhenOf(s, v) <= s.now
    ensures TickThrow(s) in {Ok, Throw(NotReady), Throw(InvalidTime)}
  {
    if Pending(s) != {} {
      var t := NextTime(s);
      var v :| v in Pending(s) && IsNext(s, v) && WhenOf(s, v) == t;
    }
  }

  /** The starting checks of a tick fail only for an update pending at the present. */
  lemma TickThrowsOnlyForPresent<V, A, T>(s: State<V, A, T>)
    requires Timely(s)
    ensures TickThrow(s).Throw? <==> s.runnable == {} && exists v :: v in Pending(s) && WhenOf(s, v) == s.now
  {
    if s.runnable == {} && Pending(s) != {} {
      TickProgress(s);
    }
  }

  // ---------- ticks as runs ----------

  lemma {:induction false} Concat<V, A, T>(env: Env<A, T>, ss: seq<State<V, A, T>>, ops: seq<Op<V, A, T>>,
                                           ss': seq<State<V, A, T>>, ops': seq<Op<V, A, T>>)
    requires IsRun(env, ss, ops) && IsRun(env, ss', ops') && ss[|ops|] == ss'[0]
    ensures IsRun(env, ss + ss'[1..], ops + ops')
    ensures (ss + ss'[1..])[0] == ss[0] && (ss + ss'[1..])[|ops + ops'|] == ss'[|ops'|]
  {
    var tt := ss + ss'[1..];
    var pp := ops + ops';
    forall i | |ops| <= i <= |pp| ensures tt[i] == ss'[i - |ops|] {
    }
    forall i | 0 <= i < |pp| ensures Enabled(env, tt[i], pp[i]) && tt[i + 1] == Do(env, tt[i], pp[i]) {
      if i < |ops| {
        assert pp[i] == ops[i];
      } else {
        assert pp[i] == ops'[i - |ops|];
      }
    }
  }

  /** One operation in front of a run. */
  lemma OneMore<V, A, T>(env: Env<A, T>, s: State<V, A, T>, op: Op<V, A, T>, ss: seq<State<V, A, T>>,
                         ops: seq<Op<V, A, T>>)
    requires IsRun(env, ss, ops) && Enabled(env, s, op) && Do(env, s, op) == ss[0]
    ensures IsRun(env, [s] + ss, [op] + ops) && ([s] + ss)[|[op] + ops|] == ss[|ops|]
  {
    hide Enabled, Do;
    forall i | 0 <= i < |[op] + ops|
      ensures Enabled(env, ([s] + ss)[i], ([op] + ops)[i]) &&
        ([s] + ss)[i + 1] == Do(env, ([s] + ss)[i], ([op] + ops)[i])
    {
      if i > 0 {
        assert ([op] + ops)[i] == ops[i - 1];
      }
    }
  }

  /** The calls of a step, as operations. */
  function CallOps<V, A, T>(cs: seq<Request<V, A, T>>): seq<Op<V, A, T>> {
    if cs == [] then [] else [Call(cs[0].a, cs[0].c)] + CallOps(cs[1..])
  }

  /** The operations of the routines of an instant: each is popped and then makes its calls. */
  ghost function ActOps<V, A, T>(env: Env<A, T>, program: Program<V, A, T>, s: State<V, A, T>, fuel: nat)
    : seq<Op<V, A, T>>
    decreases fuel
  {
    if s.runnable == {} || fuel == 0 || !Unambiguous(env, s.runnable) then []
    else
      var a := First(env, s.runnable);
      var s0 := s.(runnable := s.runnable - {a});
      var cs := program(a, ViewOf(s0));
      var step := RunStep(env, s0, a, cs);
      [Pop(a)] + CallOps(cs) + if step.status == Done then ActOps(env, program, step.state, fuel - 1) else []
  }

  /** The applications of updates, in order. */
  function Applies<V, A, T>(vs: seq<V>): seq<Op<V, A, T>> {
    if vs == [] then [] else [Apply(vs[0])] + Applies(vs[1..])
  }

  function Cancels<V, A, T>(ws: seq<V>): seq<Op<V, A, T>> {
    if ws == [] then [] else [Op.Cancel(ws[0])] + Cancels(ws[1..])
  }

  /** The applications of updates, each behind the cancellations of what its drop finalises. */
  function DropOps<V, A, T>(drops: Finaliser<V>, vs: seq<V>): seq<Op<V, A, T>> {
    if vs == [] then []
    else
      var k := |vs| - 1;
      DropOps(drops, vs[..k]) + Cancels(drops(k, vs[k])) + [Apply(vs[k])]
  }

  lemma {:induction false} StepIsRun<V, A, T>(env: Env<A, T>, s: State<V, A, T>, a: A, cs: seq<Request<V, A, T>>)
    returns (ss: seq<State<V, A, T>>)
    requires a in env.prio && RunStep(env, s, a, cs).status == Done
    ensures IsRun(env, ss, CallOps(cs)) && ss[0] == s && ss[|CallOps(cs)|] == RunStep(env, s, a, cs).state
    decreases |cs|
  {
    if cs == [] {
      ss := [s];
    } else {
      var s' := DoCommand(env, s, cs[0].a, cs[0].c);
      hide IsRun, DoCommand, Overflow;
      var ss' := StepIsRun(env, s', a, cs[1..]);
      OneMore(env, s, Call(cs[0].a, cs[0].c), ss', CallOps(cs[1..]));
      ss := [s] + ss';
    }
  }

  lemma {:induction false} ActsAreRun<V, A, T>(env: Env<A, T>, program: Program<V, A, T>, s: State<V, A, T>, fuel: nat)
    returns (ss: seq<State<V, A, T>>)
    requires RunActs(env, program, s, fuel).status in {Done, OutOfFuel}
    ensures var ops := ActOps(env, program, s, fuel);
      IsRun(env, ss, ops) && ss[0] == s && ss[|ops|] == RunActs(env, program, s, fuel).state
    decreases fuel
  {
    NoTurn(env, program, s, fuel);
    if s.runnable == {} || fuel == 0 {
      ss := [s];
    } else {
      Turn(env, program, s, fuel);
      var a := First(env, s.runnable);
      var s0 := s.(runnable := s.runnable - {a});
      var cs := program(a, ViewOf(s0));
      hide RunStep, First, Unambiguous, RunActs, IsRun;
      StepNotOutOfFuel(env, s0, a, cs);
      var ss1 := StepIsRun(env, s0, a, cs);
      OneMore(env, s, Pop(a), ss1, CallOps(cs));
      var ss2 := ActsAreRun(env, program, ss1[|CallOps(cs)|], fuel - 1);
      Concat(env, [s] + ss1, [Pop(a)] + CallOps(cs), ss2, ActOps(env, program, ss1[|CallOps(cs)|], fuel - 1));
      ss := [s] + ss1 + ss2[1..];
    }
  }

  /** Every finite set can be listed without repetition. */
  lemma {:induction false} Enumerate<V>(vs: set<V>) returns (q: seq<V>)
    ensures forall i, j :: 0 <= i < j < |q| ==> q[i] != q[j]
    ensures forall v :: v in q <==> v in vs
    decreases vs
  {
    if vs == {} {
      q := [];
    } else {
      var v :| v in vs;
      var rest := Enumerate(vs - {v});
      q := [v] + rest;
    }
  }

  lemma {:induction false} SeqIsRun<V, A, T>(env: Env<A, T>, s: State<V, A, T>, vs: seq<V>)
    returns (ss: seq<State<V, A, T>>)
    requires forall i, j :: 0 <= i < j < |vs| ==> vs[i] != vs[j]
    requires forall v :: v in vs ==> IsPending(s, v) && IsDue(s, v)
    ensures IsRun(env, ss, Applies(vs)) && ss[0] == s && ss[|Applies<V, A, T>(vs)|] == ApplySeq(env, s, vs)
    decreases |vs|
  {
    if vs == [] {
      ss := [s];
    } else {
      TailOf(vs);
      var s' := ApplyOne(env, s, vs[0]);
      forall v | v in vs[1..] ensures IsPending(s', v) && IsDue(s', v) {
        assert s'.vars[v] == s.vars[v] && IsDue(s, v);
      }
      hide IsRun;
      var ss' := SeqIsRun(env, s', vs[1..]);
      OneMore(env, s, Apply(vs[0]), ss', Applies(vs[1..]));
      ss := [s] + ss';
    }
  }

  /** An advance, a run of updates and the routines, put together. */
  lemma UpdatesThenActs<V, A, T>(env: Env<A, T>, program: Program<V, A, T>, s: State<V, A, T>,
                                 ss1: seq<State<V, A, T>>, ops1: seq<Op<V, A, T>>, fuel: nat)
    returns (ss: seq<State<V, A, T>>)
    requires TickThrow(s).Ok? && IsRun(env, ss1, ops1) && ss1[0] == Instant.Advance(s)
    requires RunActs(env, program, ss1[|ops1|], fuel).status in {Done, OutOfFuel}
    ensures var ops := [Op.Advance] + ops1 + ActOps(env, program, ss1[|ops1|], fuel);
      IsRun(env, ss, ops) && ss[0] == s && ss[|ops|] == RunActs(env, program, ss1[|ops1|], fuel).state
  {
    var s1 := Instant.Advance(s);
    assert IsRun(env, [s, s1], [Op.Advance]);
    hide IsRun, Instant.Advance, RunActs, TickThrow, ActOps;
    Concat(env, [s, s1], [Op.Advance], ss1, ops1);
    var ss2 := ActsAreRun(env, program, ss1[|ops1|], fuel);
    Concat(env, [s, s1] + ss1[1..], [Op.Advance] + ops1, ss2, ActOps(env, program, ss1[|ops1|], fuel));
    ss := [s, s1] + ss1[1..] + ss2[1..];
  }

  /** The sequence lists exactly the updates that are due, each once. */
  ghost predicate Lists<V, A, T>(vs: seq<V>, s: State<V, A, T>) {
    && (forall i, j :: 0 <= i < j < |vs| ==> vs[i] != vs[j])
    && (forall v :: v in vs ==> v in Due(s)) && (forall v :: v in Due(s) ==> v in vs)
  }

  /** The operations of a tick: the advance, one application for each update that is due then, and the
      pops and calls of the routines. */
  ghost function TickOps<V, A, T>(env: Env<A, T>, program: Program<V, A, T>, s: State<V, A, T>, vs: seq<V>, fuel: nat)
    : seq<Op<V, A, T>>
  {
    [Op.Advance] + Applies(vs) + ActOps(env, program, ApplyDue(env, Instant.Advance(s)), fuel)
  }

  /** A tick that does not throw is the run of these operations, for every order of the updates. */
  lemma TickIsRun<V, A, T>(env: Env<A, T>, program: Program<V, A, T>, s: State<V, A, T>, vs: seq<V>, fuel: nat)
    returns (ss: seq<State<V, A, T>>)
    requires Tick(env, program, s, fuel).status in {Done, OutOfFuel} && Lists(vs, Instant.Advance(s))
    ensures var ops := TickOps(env, program, s, vs, fuel);
      IsRun(env, ss, ops) && ss[0] == s && ss[|ops|] == Tick(env, program, s, fuel).state
  {
    var s1 := Instant.Advance(s);
    forall v | v in vs ensures IsPending(s1, v) && IsDue(s1, v) {
      assert v in Due(s1);
    }
    AnyOrder(env, s1, vs);
    var ss1 := SeqIsRun(env, s1, vs);
    hide IsRun, Instant.Advance, RunActs, ApplyDue, Due, IsDue, ApplySeq, ActOps;
    ss := UpdatesThenActs(env, program, s, ss1, Applies(vs), fuel);
  }

  /** Cancelling a list of variables is a run. */
  lemma {:induction false} CancelsAreRun<V, A, T>(env: Env<A, T>, s: State<V, A, T>, ws: seq<V>)
    returns (ss: seq<State<V, A, T>>)
    requires forall w :: w in ws ==> w in s.vars
    ensures IsRun(env, ss, Cancels(ws)) && ss[0] == s && ss[|Cancels<V, A, T>(ws)|] == UnscheduleAll(s, ws)
    decreases |ws|
  {
    if ws == [] {
      ss := [s];
    } else {
      hide IsRun;
      var ss' := CancelsAreRun(env, Unschedule(s, ws[0]), ws[1..]);
      OneMore(env, s, Op.Cancel(ws[0]), ss', Cancels(ws[1..]));
      ss := [s] + ss';
    }
  }

  /** One update and what dropping the old value finalises is a run: the cancellations, then the
      application. */
  lemma DropIsRun<V, A, T>(env: Env<A, T>, ws: seq<V>, s: State<V, A, T>, v: V)
    returns (ss: seq<State<V, A, T>>)
    requires IsDue(s, v) && Finalises(ws, s, v)
    ensures var ops := Cancels(ws) + [Apply(v)];
      IsRun(env, ss, ops) && ss[0] == s && ss[|ops|] == ApplyDropping(env, ws, s, v)
  {
    UnscheduleAllIs(s, ws);
    var ss' := CancelsAreRun(env, s, ws);
    var s' := UnscheduleAll(s, ws);
    assert IsRun(env, [s', ApplyOne(env, s', v)], [Apply(v)]);
    hide IsRun, ApplyOne, Cancels;
    Concat(env, ss', Cancels(ws), [s', ApplyOne(env, s', v)], [Apply(v)]);
    ss := ss' + [s', ApplyOne(env, s', v)][1..];
  }

  lemma {:induction false} DrainIsRun<V, A, T>(env: Env<A, T>, drops: Finaliser<V>, s: State<V, A, T>, vs: seq<V>)
    returns (ss: seq<State<V, A, T>>)
    requires Drains(env, drops, s, vs)
    ensures var ops := DropOps(drops, vs);
      IsRun(env, ss, ops) && ss[0] == s && ss[|ops|] == Drained(env, drops, s, vs)
    decreases |vs|
  {
    if vs == [] {
      ss := [s];
    } else {
      hide IsRun, ApplyDropping;
      var k := |vs| - 1;
      var ops1: seq<Op<V, A, T>>, ops2: seq<Op<V, A, T>> :=
        DropOps(drops, vs[..k]), Cancels(drops(k, vs[k])) + [Apply(vs[k])];
      var ss1 := DrainIsRun(env, drops, s, vs[..k]);
      var ss2 := DropIsRun(env, drops(k, vs[k]), ss1[|ops1|], vs[k]);
      Concat(env, ss1, ops1, ss2, ops2);
      assert DropOps(drops, vs) == ops1 + ops2;
      ss := ss1 + ss2[1..];
    }
  }

  /** The operations of a tick in which dropping old values finalises variables. */
  ghost function DroppingOps<V, A, T>(env: Env<A, T>, program: Program<V, A, T>, drops: Finaliser<V>,
                                      s: State<V, A, T>, vs: seq<V>, fuel: nat): seq<Op<V, A, T>>
    requires Drains(env, drops, Instant.Advance(s), vs)
  {
    [Op.Advance] + DropOps(drops, vs) + ActOps(env, program, Drained(env, drops, Instant.Advance(s), vs), fuel)
  }

  /** Such a tick is the run of these operations: cancellations and then the application for each
      update, in the order in which they are made. */
  lemma TickDroppingIsRun<V, A, T>(env: Env<A, T>, program: Program<V, A, T>, drops: Finaliser<V>,
                                   s: State<V, A, T>, vs: seq<V>, fuel: nat)
    returns (ss: seq<State<V, A, T>>)
    requires UpdatesOf(env, drops, s, vs)
    requires TickDropping(env, program, drops, s, vs, fuel).status in {Done, OutOfFuel}
    ensures var ops := DroppingOps(env, program, drops, s, vs, fuel);
      IsRun(env, ss, ops) && ss[0] == s && ss[|ops|] == TickDropping(env, program, drops, s, vs, fuel).state
  {
    hide IsRun, Instant.Advance, RunActs, ActOps;
    var ss1 := DrainIsRun(env, drops, Instant.Advance(s), vs);
    ss := UpdatesThenActs(env, program, s, ss1, DropOps(drops, vs), fuel);
  }

  // ---------- scheduling for the present ----------

  /** A routine that schedules an update for the present instant, and is the last to run in it,
      leaves a state in which the next tick throws: for every such state and variable. */
  lemma PresentThrows<V, A, T>(env: Env<A, T>, s: State<V, A, T>, a: A, v: V, val: Word)
    returns (ss: seq<State<V, A, T>>, ops: seq<Op<V, A, T>>)
    requires Timely(s) && s.runnable == {a} && a in env.prio && v in s.vars
    ensures ops == [Pop(a), Call(a, Later(v, s.now, val))]
    ensures IsRun(env, ss, ops) && ss[0] == s && Timely(ss[2])
    ensures TickThrow(ss[2]) == Throw(InvalidTime) && !Enabled(env, ss[2], Op.Advance)
  {
    var c := Later(v, s.now, val);
    var s1 := s.(runnable := {});
    var s2 := ScheduleLater(s1, v, s.now, val);
    assert s.runnable - {a} == {};
    ss, ops := [s, s1, s2], [Pop(a), Call(a, c)];
    assert Legal(env, s1, c) && s2 == DoCommand(env, s1, a, c);
    assert v in Pending(s2) && WhenOf(s2, v) == s2.now;
    TimelyStep(env, s, Pop(a));
    TimelyStep(env, s1, Call(a, c));
    TickThrowsOnlyForPresent(s2);
    TickProgress(s2);
  }

  lemma PresentActs<V, A, T>(env: Env<A, T>, s: State<V, A, T>, a: A, v: V, val: Word, program: Program<V, A, T>,
                             fuel: nat)
    requires s.runnable == {a} && a in env.prio && v in s.vars && fuel > 0 && s.now != NEVER
    requires |Pending(s) + {v}| <= env.eventRoom
    requires program(a, ViewOf(s.(runnable := {}))) == [By(a, Later(v, s.now, val))]
    ensures RunActs(env, program, s, fuel).state == ScheduleLater(s.(runnable := {}), v, s.now, val)
    ensures RunActs(env, program, s, fuel).status == Done
  {
    var s1 := s.(runnable := {});
    var s2 := ScheduleLater(s1, v, s.now, val);
    var c := Later(v, s.now, val);
    assert IsFirst(env, s.runnable, a);
    assert s.runnable - {a} == {};
    assert Pending(s2) == Pending(s) + {v};
    assert Legal(env, s1, c) && DoCommand(env, s1, a, c) == s2 && Overflow(env, s2) == Ok;
    assert [By(a, c)][1..] == [] && RunStep(env, s2, a, []) == Run(s2, [a], Done);
    assert RunStep(env, s1, a, [By(a, c)]) == Run(s2, [a], Done);
    assert Unambiguous(env, s.runnable) && First(env, s.runnable) == a;
    hide Unambiguous, First, RunStep, Pending;
    assert RunActs(env, program, s2, fuel - 1) == Run(s2, [], Done);
  }

  /** Every pending update lies strictly in the future. */
  ghost predicate Ahead<V, A, T>(s: State<V, A, T>) {
    s.now != NEVER && forall v :: v in Pending(s) ==> s.now < WhenOf(s, v) && WhenOf(s, v) != NEVER
  }

  lemma PresentIsNext<V, A, T>(s: State<V, A, T>, v: V, val: Word)
    requires Ahead(s) && v in s.vars
    ensures TickThrow(ScheduleLater(s.(runnable := {}), v, s.now, val)) == Throw(InvalidTime)
  {
    var s2 := ScheduleLater(s.(runnable := {}), v, s.now, val);
    assert v in Pending(s2) && WhenOf(s2, v) == s2.now;
    forall u | u in Pending(s2) ensures s2.now <= WhenOf(s2, u) && WhenOf(s2, u) != NEVER {
      assert u != v ==> u in Pending(s) && WhenOf(s, u) == WhenOf(s2, u);
    }
    TickProgress(s2);
  }

  /** The same with whole ticks: a program whose one runnable routine schedules for the present
      completes its tick, and the next tick throws. */
  lemma PresentTickThrows<V, A, T>(env: Env<A, T>, s: State<V, A, T>, a: A, v: V, val: Word,
                                   program: Program<V, A, T>, fuel: nat)
    requires Ahead(s) && s.runnable == {a} && a in env.prio && v in s.vars && fuel > 0
    requires |Pending(s) + {v}| <= env.eventRoom && 1 <= env.actRoom
    requires program(a, ViewOf(s.(runnable := {}))) == [By(a, Later(v, s.now, val))]
    ensures var run := Tick(env, program, s, fuel);
      run.status == Done && Tick(env, program, run.state, fuel).status == Threw(InvalidTime)
  {
    assert Due(s) == {};
    ApplyDueNone(env, s);
    PresentActs(env, s, a, v, val, program, fuel);
    PresentIsNext(s, v, val);
    hide RunActs, ApplyDue, Due, Pending, ScheduleLater, NextTime;
    assert TickThrow(s).Ok? && Instant.Advance(s) == s;
  }

  // ---------- ticks that schedule strictly forward ----------

  ghost predicate ForwardCalls<V, A, T>(now: Time, cs: seq<Request<V, A, T>>) {
    forall i :: 0 <= i < |cs| && cs[i].c.Later? ==> now < cs[i].c.when
  }

  /** Every step of an instant schedules strictly forward. */
  ghost predicate ForwardRun<V, A, T>(env: Env<A, T>, program: Program<V, A, T>, s: State<V, A, T>, fuel: nat)
    decreases fuel
  {
    s.runnable != {} && fuel > 0 && Unambiguous(env, s.runnable) ==>
      var a := First(env, s.runnable);
      var s0 := s.(runnable := s.runnable - {a});
      var step := RunStep(env, s0, a, program(a, ViewOf(s0)));
      && ForwardCalls(s.now, program(a, ViewOf(s0)))
      && (step.status == Done ==> ForwardRun(env, program, step.state, fuel - 1))
  }

  lemma ForwardCommand<V, A, T>(env: Env<A, T>, s: State<V, A, T>, a: A, c: Command<V, A, T>)
    requires a in env.prio && Legal(env, s, c) && Ahead(s) && (c.Later? ==> s.now < c.when)
    ensures Ahead(DoCommand(env, s, a, c)) && DoCommand(env, s, a, c).now == s.now
  {
    var s' := DoCommand(env, s, a, c);
    forall v | v in Pending(s') ensures s'.now < WhenOf(s', v) && WhenOf(s', v) != NEVER {
      if v in Pending(s) && WhenOf(s, v) == WhenOf(s', v) {
        assert s.now < WhenOf(s, v);
      }
    }
  }

  lemma {:induction false} ForwardStep<V, A, T>(env: Env<A, T>, s: State<V, A, T>, a: A, cs: seq<Request<V, A, T>>)
    requires a in env.prio && Ahead(s) && ForwardCalls(s.now, cs)
    ensures Ahead(RunStep(env, s, a, cs).state) && RunStep(env, s, a, cs).state.now == s.now
    ensures RunStep(env, s, a, cs).status.Threw? ==> Exhausted(RunStep(env, s, a, cs).status)
    decreases |cs|
  {
    if cs != [] && Admissible(env, s, cs[0]) && CallThrow(env, s, cs[0].a, cs[0].c).Ok? {
      var s' := DoCommand(env, s, cs[0].a, cs[0].c);
      ForwardCommand(env, s, cs[0].a, cs[0].c);
      hide Ahead, DoCommand, Overflow;
      assert forall i :: 0 <= i < |cs[1..]| ==> cs[1..][i] == cs[i + 1];
      ForwardStep(env, s', a, cs[1..]);
    }
  }

  lemma {:induction false} ForwardActs<V, A, T>(env: Env<A, T>, program: Program<V, A, T>, s: State<V, A, T>, fuel: nat)
    requires Ahead(s) && ForwardRun(env, program, s, fuel)
    ensures var run := RunActs(env, program, s, fuel);
      Ahead(run.state) && run.state.now == s.now && (run.status.Threw? ==> Exhausted(run.status)) &&
        (run.status == Done ==> run.state.runnable == {})
    decreases fuel
  {
    if s.runnable != {} && fuel > 0 && Unambiguous(env, s.runnable) {
      var a := First(env, s.runnable);
      var s0 := s.(runnable := s.runnable - {a});
      assert Pending(s0) == Pending(s) && Ahead(s0);
      ForwardStep(env, s0, a, program(a, ViewOf(s0)));
      var step := RunStep(env, s0, a, program(a, ViewOf(s0)));
      if step.status == Done {
        ForwardActs(env, program, step.state, fuel - 1);
      }
    }
  }

  /** Whatever was due has been applied: afterwards all pending updates lie ahead. */
  lemma AppliedIsAhead<V, A, T>(env: Env<A, T>, s: State<V, A, T>)
    requires Timely(s)
    ensures Ahead(ApplyDue(env, s)) && ApplyDue(env, s).now == s.now
  {
    var s' := ApplyDue(env, s);
    forall v | v in Pending(s') ensures s'.now < WhenOf(s', v) && WhenOf(s', v) != NEVER {
      assert !IsDue(s, v) && v in Pending(s);
    }
  }

  lemma ForwardAdvance<V, A, T>(env: Env<A, T>, s: State<V, A, T>)
    requires Ahead(s)
    ensures TickThrow(s).Ok? && Timely(Instant.Advance(s)) && s.now <= Instant.Advance(s).now
    ensures s.runnable == {} && Pending(s) != {} ==> s.now < Instant.Advance(s).now
  {
    TickThrowsOnlyForPresent(s);
    TimelyStep(env, s, Op.Advance);
    if s.runnable == {} && Pending(s) != {} {
      TickProgress(s);
    }
  }

  /** A tick from a state whose updates all lie ahead throws only if a queue overflows, so never if
      the queues have room for everything. It leaves all updates ahead, and strictly advances time if
      nothing was runnable and something was pending. */
  lemma ForwardTick<V, A, T>(env: Env<A, T>, program: Program<V, A, T>, s: State<V, A, T>, fuel: nat)
    requires Ahead(s) && ForwardRun(env, program, ApplyDue(env, Instant.Advance(s)), fuel)
    ensures var run := Tick(env, program, s, fuel);
      && Ahead(run.state) && (run.status.Threw? ==> Exhausted(run.status)) && s.now <= run.state.now
      && (Ample(env, s) ==> !run.status.Threw?)
      && (run.status == Done ==> run.state.runnable == {})
      && (s.runnable == {} && Pending(s) != {} ==> s.now < run.state.now)
  {
    hide Ahead, ApplyDue, Instant.Advance, RunActs, ForwardRun, Ample, TickThrow, Timely;
    ForwardAdvance(env, s);
    AppliedIsAhead(env, Instant.Advance(s));
    ForwardActs(env, program, ApplyDue(env, Instant.Advance(s)), fuel);
    if Ample(env, s) {
      AmpleTick(env, program, s, fuel);
    }
  }

  /** The simulator's loop: tick while something is pending and the time limit is not reached. */
  ghost function Simulate<V, A, T>(env: Env<A, T>, program: Program<V, A, T>, s: State<V, A, T>, fuel: nat,
                                   stop: Time, n: nat): State<V, A, T>
    decreases n
  {
    if n == 0 || NextTime(s) == NEVER || s.now >= stop then s
    else Simulate(env, program, Tick(env, program, s, fuel).state, fuel, stop, n - 1)
  }

  /** All ticks of the loop are completed and schedule strictly forward. */
  ghost predicate ForwardLoop<V, A, T>(env: Env<A, T>, program: Program<V, A, T>, s: State<V, A, T>, fuel: nat,
                                       stop: Time, n: nat)
    decreases n
  {
    n > 0 && NextTime(s) != NEVER && s.now < stop ==>
      && Tick(env, program, s, fuel).status !in {OutOfFuel, Illegal, Ambiguous}
      && !Exhausted(Tick(env, program, s, fuel).status)
      && ForwardRun(env, program, ApplyDue(env, Instant.Advance(s)), fuel)
      && ForwardLoop(env, program, Tick(env, program, s, fuel).state, fuel, stop, n - 1)
  }

  /** The loop ends: because time moves strictly, it makes no more ticks than there are time
      units up to the limit. When it ends nothing is pending or the limit is reached. */
  lemma {:induction false} SimulationEnds<V, A, T>(env: Env<A, T>, program: Program<V, A, T>, s: State<V, A, T>,
                                                   fuel: nat, stop: Time, n: nat)
    requires Ahead(s) && s.runnable == {} && ForwardLoop(env, program, s, fuel, stop, n)
    requires s.now + n >= stop
    ensures var s' := Simulate(env, program, s, fuel, stop, n);
      Ahead(s') && s'.runnable == {} && s.now <= s'.now && (NextTime(s') == NEVER || s'.now >= stop)
    decreases n
  {
    if n > 0 && NextTime(s) != NEVER && s.now < stop {
      assert Pending(s) != {};
      ForwardTick(env, program, s, fuel);
      var run := Tick(env, program, s, fuel);
      assert run.status == Done;
      SimulationEnds(env, program, run.state, fuel, stop, n - 1);
    }
  }

  /** The state after some ticks. */
  ghost function TicksFrom<V, A, T>(env: Env<A, T>, program: Program<V, A, T>, s: State<V, A, T>, fuel: nat,
                                    m: nat): State<V, A, T>
    decreases m
  {
    if m == 0 then s else TicksFrom(env, program, Tick(env, program, s, fuel).state, fuel, m - 1)
  }

  /** Nothing is pending for "never". */
  lemma NeverMeansNone<V, A, T>(s: State<V, A, T>)
    requires Ahead(s)
    ensures NextTime(s) == NEVER <==> Pending(s) == {}
  {
  }

  lemma TicksStep<V, A, T>(env: Env<A, T>, program: Program<V, A, T>, s: State<V, A, T>, fuel: nat)
    ensures TicksFrom(env, program, s, fuel, 0) == s
    ensures forall i: nat :: i > 0 ==>
      TicksFrom(env, program, s, fuel, i) == TicksFrom(env, program, Tick(env, program, s, fuel).state, fuel, i - 1)
  {
  }

  /** One turn of the loop, or its end. */
  lemma LoopStep<V, A, T>(env: Env<A, T>, program: Program<V, A, T>, s: State<V, A, T>, fuel: nat, stop: Time, n: nat)
    requires Ahead(s) && s.runnable == {} && ForwardLoop(env, program, s, fuel, stop, n)
    requires s.now + n >= stop
    ensures Pending(s) == {} || s.now >= stop ==> Simulate(env, program, s, fuel, stop, n) == s
    ensures var next := Tick(env, program, s, fuel).state;
      Pending(s) != {} && s.now < stop ==>
        && n > 0 && Ahead(next) && next.runnable == {} && ForwardLoop(env, program, next, fuel, stop, n - 1)
        && next.now + n - 1 >= stop
        && Simulate(env, program, s, fuel, stop, n) == Simulate(env, program, next, fuel, stop, n - 1)
  {
    NeverMeansNone(s);
    if Pending(s) != {} && s.now < stop {
      ForwardTick(env, program, s, fuel);
      hide Pending, Tick;
    }
  }

  /** It makes neither a tick too few nor one too many: before each of its ticks something is pending and the
      limit is not reached, and after the last one that is not so. */
  lemma {:induction false} SimulationStops<V, A, T>(env: Env<A, T>, program: Program<V, A, T>, s: State<V, A, T>,
                                                    fuel: nat, stop: Time, n: nat) returns (m: nat)
    requires Ahead(s) && s.runnable == {} && ForwardLoop(env, program, s, fuel, stop, n)
    requires s.now + n >= stop
    ensures Simulate(env, program, s, fuel, stop, n) == TicksFrom(env, program, s, fuel, m)
    ensures forall i :: 0 <= i < m ==>
      Pending(TicksFrom(env, program, s, fuel, i)) != {} && TicksFrom(env, program, s, fuel, i).now < stop
    ensures var s' := TicksFrom(env, program, s, fuel, m); Pending(s') == {} || s'.now >= stop
    decreases n
  {
    hide *;
    LoopStep(env, program, s, fuel, stop, n);
    TicksStep(env, program, s, fuel);
    m := 0;
    if Pending(s) != {} && s.now < stop {
      var rest := SimulationStops(env, program, Tick(env, program, s, fuel).state, fuel, stop, n - 1);
      m := 1 + rest;
    }
  }
}
