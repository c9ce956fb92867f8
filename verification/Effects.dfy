/** What a state holds, said by the operations that led to it.

    Each part of the state is what the last operation on it left there, or what was there at the start. */
module Effects {
  import opened Prelude
  import opened Instant
  import opened Timeline

  // ---------- values ----------

  /** The operation gives `v` a value: an assignment, or an update that takes effect. */
  predicate Writes<V(==), A, T>(op: Op<V, A, T>, v: V) {
    (op.Apply? && op.v == v) || (op.Call? && op.c.Assign? && op.c.v == v)
  }

  /** Operation k is the last before j that writes `v`, and `v` has what it wrote, since then. */
  ghost predicate WrittenAt<V, A, T>(ss: seq<State<V, A, T>>, ops: seq<Op<V, A, T>>, j: nat, v: V, k: nat)
    requires k < j <= |ops| && |ss| == |ops| + 1
  {
    && Writes(ops[k], v) && (forall i :: k < i < j ==> !Writes(ops[i], v))
    && v in ss[j].vars && ss[j].vars[v].lastUpdated == ss[k].now
    && (ops[k].Apply? ==> IsPending(ss[k], v) && ss[j].vars[v].value == ss[k].vars[v].pending.value.val)
    && (ops[k].Call? ==> ss[j].vars[v].value == ops[k].c.val)
  }

  lemma ValueStep<V, A, T>(env: Env<A, T>, s: State<V, A, T>, op: Op<V, A, T>, v: V)
    requires Enabled(env, s, op) && v in s.vars
    ensures var s' := Do(env, s, op);
      && v in s'.vars
      && (!Writes(op, v) ==> s'.vars[v].value == s.vars[v].value && s'.vars[v].lastUpdated == s.vars[v].lastUpdated)
      && (Writes(op, v) ==> s'.vars[v].lastUpdated == s.now)
      && (Writes(op, v) && op.Apply? ==> IsPending(s, v) && s'.vars[v].value == s.vars[v].pending.value.val)
      && (Writes(op, v) && op.Call? ==> s'.vars[v].value == op.c.val)
  {
  }

  /** A variable has the value of the last assignment to it or update of it, whichever was later, or its
      first value if there was none. */
  lemma {:induction false} ValueIsLast<V, A, T>(env: Env<A, T>, ss: seq<State<V, A, T>>, ops: seq<Op<V, A, T>>,
                                                j: nat, v: V)
    requires IsRun(env, ss, ops) && j <= |ops| && v in ss[0].vars
    ensures v in ss[j].vars
    ensures
      || ((forall i :: 0 <= i < j ==> !Writes(ops[i], v))
          && ss[j].vars[v].value == ss[0].vars[v].value && ss[j].vars[v].lastUpdated == ss[0].vars[v].lastUpdated)
      || exists k :: 0 <= k < j && WrittenAt(ss, ops, j, v, k)
    decreases j
  {
    hide Enabled, Do;
    if j > 0 {
      var n := j - 1;
      ValueIsLast(env, ss, ops, n, v);
      ValueStep(env, ss[n], ops[n], v);
      if Writes(ops[n], v) {
        assert WrittenAt(ss, ops, j, v, n);
      } else if k :| 0 <= k < n && WrittenAt(ss, ops, n, v, k) {
        assert WrittenAt(ss, ops, j, v, k);
      }
    }
  }

  // ---------- triggers ----------

  predicate Relinks<V, A, T(==)>(op: Op<V, A, T>, t: T) {
    op.Call? && ((op.c.Sensitize? && op.c.t == t) || (op.c.Desensitize? && op.c.t == t))
  }

  /** Operation k is the last before j that puts `t` on a list or takes it off, and so `t` is where it
      was put, or nowhere. */
  ghost predicate RelinkedAt<V, A, T>(ss: seq<State<V, A, T>>, ops: seq<Op<V, A, T>>, j: nat, t: T, k: nat)
    requires k < j <= |ops| && |ss| == |ops| + 1
  {
    && Relinks(ops[k], t) && (forall i :: k < i < j ==> !Relinks(ops[i], t))
    && (ops[k].c.Sensitize? ==> t in ss[j].attached && ss[j].attached[t] == ops[k].c.v)
    && (ops[k].c.Desensitize? ==> t !in ss[j].attached)
  }

  ghost predicate SameLink<V, A, T>(s: State<V, A, T>, s': State<V, A, T>, t: T) {
    (t in s'.attached <==> t in s.attached) && (t in s.attached ==> s'.attached[t] == s.attached[t])
  }

  lemma LinkStep<V, A, T>(env: Env<A, T>, s: State<V, A, T>, op: Op<V, A, T>, t: T)
    requires Enabled(env, s, op)
    ensures var s' := Do(env, s, op);
      && (!Relinks(op, t) ==> SameLink(s, s', t))
      && (Relinks(op, t) && op.c.Sensitize? ==> t in s'.attached && s'.attached[t] == op.c.v)
      && (Relinks(op, t) && op.c.Desensitize? ==> t !in s'.attached)
  {
  }

  /** A trigger is on a variable's list if and only if it was put there last, or was there from the start. */
  lemma {:induction false} LinkIsLast<V, A, T>(env: Env<A, T>, ss: seq<State<V, A, T>>, ops: seq<Op<V, A, T>>,
                                               j: nat, t: T)
    requires IsRun(env, ss, ops) && j <= |ops|
    ensures
      || ((forall i :: 0 <= i < j ==> !Relinks(ops[i], t)) && SameLink(ss[0], ss[j], t))
      || exists k :: 0 <= k < j && RelinkedAt(ss, ops, j, t, k)
    decreases j
  {
    hide Enabled, Do;
    if j > 0 {
      var n := j - 1;
      LinkIsLast(env, ss, ops, n, t);
      LinkStep(env, ss[n], ops[n], t);
      if Relinks(ops[n], t) {
        assert RelinkedAt(ss, ops, j, t, n);
      } else if k :| 0 <= k < n && RelinkedAt(ss, ops, n, t, k) {
        assert RelinkedAt(ss, ops, j, t, k);
      }
    }
  }

  // ---------- program counters ----------

  predicate SetsPc<V, A(==), T>(op: Op<V, A, T>, a: A) {
    op.Call? && op.c.SetPc? && op.a == a
  }

  ghost predicate PcSetAt<V, A, T>(ss: seq<State<V, A, T>>, ops: seq<Op<V, A, T>>, j: nat, a: A, k: nat)
    requires k < j <= |ops| && |ss| == |ops| + 1
  {
    && SetsPc(ops[k], a) && (forall i :: k < i < j ==> !SetsPc(ops[i], a))
    && a in ss[j].pcs && ss[j].pcs[a] == ops[k].c.pc
  }

  ghost predicate SamePc<V, A, T>(s: State<V, A, T>, s': State<V, A, T>, a: A) {
    (a in s'.pcs <==> a in s.pcs) && (a in s.pcs ==> s'.pcs[a] == s.pcs[a])
  }

  lemma PcStep<V, A, T>(env: Env<A, T>, s: State<V, A, T>, op: Op<V, A, T>, a: A)
    requires Enabled(env, s, op)
    ensures var s' := Do(env, s, op);
      && (!SetsPc(op, a) ==> SamePc(s, s', a))
      && (SetsPc(op, a) ==> a in s'.pcs && s'.pcs[a] == op.c.pc)
  {
  }

  /** A routine goes on where it said last. */
  lemma {:induction false} PcIsLast<V, A, T>(env: Env<A, T>, ss: seq<State<V, A, T>>, ops: seq<Op<V, A, T>>,
                                             j: nat, a: A)
    requires IsRun(env, ss, ops) && j <= |ops|
    ensures
      || ((forall i :: 0 <= i < j ==> !SetsPc(ops[i], a)) && SamePc(ss[0], ss[j], a))
      || exists k :: 0 <= k < j && PcSetAt(ss, ops, j, a, k)
    decreases j
  {
    hide Enabled, Do;
    if j > 0 {
      var n := j - 1;
      PcIsLast(env, ss, ops, n, a);
      PcStep(env, ss[n], ops[n], a);
      if SetsPc(ops[n], a) {
        assert PcSetAt(ss, ops, j, a, n);
      } else if k :| 0 <= k < n && PcSetAt(ss, ops, n, a, k) {
        assert PcSetAt(ss, ops, j, a, k);
      }
    }
  }

  // ---------- who is to run ----------

  /** One of the routine's triggers is on the list of `v`. */
  ghost predicate Listens<V, A, T>(env: Env<A, T>, s: State<V, A, T>, a: A, v: V) {
    exists t :: t in s.attached && s.attached[t] == v && t in env.owner && env.owner[t] == a
  }

  /** The operation makes `a` runnable: an update of a variable it listens to; an assignment to one by a
      routine of smaller priority number; or an activation. */
  ghost predicate Wakes<V, A, T>(env: Env<A, T>, s: State<V, A, T>, op: Op<V, A, T>, a: A) {
    || (op.Apply? && Listens(env, s, a, op.v))
    || (op.Call? && op.c.Assign? && Listens(env, s, a, op.c.v)
        && a in env.prio && op.a in env.prio && env.prio[op.a] < env.prio[a])
    || (op.Call? && op.c.Activate? && op.c.a == a)
  }

  lemma ListensIsSensitive<V, A, T>(env: Env<A, T>, s: State<V, A, T>, a: A)
    ensures forall v :: v in s.vars ==> (Listens(env, s, a, v) <==> a in Sensitive(env, s, v))
  {
  }

  lemma RunnableStep<V, A, T>(env: Env<A, T>, s: State<V, A, T>, op: Op<V, A, T>, a: A)
    requires Enabled(env, s, op)
    ensures a in Do(env, s, op).runnable <==> Wakes(env, s, op, a) || (a in s.runnable && op != Pop(a))
  {
    ListensIsSensitive(env, s, a);
  }

  ghost predicate WokenAt<V, A, T>(env: Env<A, T>, ss: seq<State<V, A, T>>, ops: seq<Op<V, A, T>>, j: nat, a: A, k: nat)
    requires k < j <= |ops| && |ss| == |ops| + 1
  {
    Wakes(env, ss[k], ops[k], a) && forall i :: k < i < j ==> ops[i] != Pop(a)
  }

  /** A routine is to run if and only if something has woken it, or it was to run at the start, and it has
      not been taken off the queue since. */
  lemma {:induction false} RunnableIff<V, A, T>(env: Env<A, T>, ss: seq<State<V, A, T>>, ops: seq<Op<V, A, T>>,
                                                j: nat, a: A)
    requires IsRun(env, ss, ops) && j <= |ops|
    ensures a in ss[j].runnable <==>
      || (exists k :: 0 <= k < j && WokenAt(env, ss, ops, j, a, k))
      || (a in ss[0].runnable && forall i :: 0 <= i < j ==> ops[i] != Pop(a))
    decreases j
  {
    hide Enabled, Do, Wakes;
    if j > 0 {
      var n := j - 1;
      RunnableIff(env, ss, ops, n, a);
      RunnableStep(env, ss[n], ops[n], a);
      if k :| 0 <= k < j && WokenAt(env, ss, ops, j, a, k) {
        assert k < n ==> WokenAt(env, ss, ops, n, a, k);
      }
      if Wakes(env, ss[n], ops[n], a) {
        assert WokenAt(env, ss, ops, j, a, n);
      } else if k :| 0 <= k < n && WokenAt(env, ss, ops, n, a, k) {
        assert ops[n] != Pop(a) ==> WokenAt(env, ss, ops, j, a, k);
      }
    }
  }

  // ---------- what a step reads ----------

  /** The operations from a state on determine the states. */
  lemma {:induction false} RunsAgree<V, A, T>(env: Env<A, T>, ss: seq<State<V, A, T>>, ss': seq<State<V, A, T>>,
                                              ops: seq<Op<V, A, T>>, j: nat)
    requires IsRun(env, ss, ops) && IsRun(env, ss', ops) && ss[0] == ss'[0] && j <= |ops|
    ensures ss[j] == ss'[j]
    decreases j
  {
    hide Enabled, Do;
    if j > 0 {
      RunsAgree(env, ss, ss', ops, j - 1);
    }
  }

  lemma {:induction false} CallOpsAt<V, A, T>(cs: seq<Request<V, A, T>>)
    ensures |CallOps(cs)| == |cs| && forall i :: 0 <= i < |cs| ==> CallOps(cs)[i] == Call(cs[i].a, cs[i].c)
  {
    if cs != [] {
      CallOpsAt(cs[1..]);
    }
  }

  /** The routine taken off the queue by operation k makes next, and up to the next one's turn, exactly the
      calls that the program chooses from the time, the variables and the program counters of that moment. */
  ghost predicate StepAt<V, A, T>(program: Program<V, A, T>, ss: seq<State<V, A, T>>, ops: seq<Op<V, A, T>>, k: nat)
    requires k < |ops| && |ss| == |ops| + 1 && ops[k].Pop?
  {
    var s := ss[k + 1];
    var cs := program(ops[k].a, View(s.now, s.vars, s.pcs));
    var end := k + 1 + |cs|;
    && end <= |ops| && (end < |ops| ==> ops[end].Pop?)
    && forall i :: 0 <= i < |cs| ==> ops[k + 1 + i] == Call(cs[i].a, cs[i].c)
  }

  lemma Prefix<V, A, T>(env: Env<A, T>, ss: seq<State<V, A, T>>, ops: seq<Op<V, A, T>>, n: nat)
    requires IsRun(env, ss, ops) && n <= |ops|
    ensures IsRun(env, ss[..n + 1], ops[..n]) && IsRun(env, ss[n..], ops[n..])
  {
    hide Enabled, Do;
  }

  lemma TurnOps<V, A, T>(env: Env<A, T>, program: Program<V, A, T>, s: State<V, A, T>, fuel: nat)
    returns (a: A, next: State<V, A, T>)
    requires RunActs(env, program, s, fuel).status in {Done, OutOfFuel} && s.runnable != {} && fuel > 0
    ensures a in s.runnable && a in env.prio
    ensures var s0 := s.(runnable := s.runnable - {a});
      var cs := program(a, View(s0.now, s0.vars, s0.pcs));
      && RunStep(env, s0, a, cs).status == Done && RunStep(env, s0, a, cs).state == next
      && ActOps(env, program, s, fuel) == [Pop(a)] + CallOps(cs) + ActOps(env, program, next, fuel - 1)
      && RunActs(env, program, next, fuel - 1).status in {Done, OutOfFuel}
  {
    NoTurn(env, program, s, fuel);
    Turn(env, program, s, fuel);
    a := First(env, s.runnable);
    var s0 := s.(runnable := s.runnable - {a});
    var cs := program(a, ViewOf(s0));
    StepNotOutOfFuel(env, s0, a, cs);
    hide RunStep, First, Unambiguous, CallOps;
    next := RunStep(env, s0, a, cs).state;
  }

  lemma IsRunLength<V, A, T>(env: Env<A, T>, ss: seq<State<V, A, T>>, ops: seq<Op<V, A, T>>)
    requires IsRun(env, ss, ops)
    ensures |ss| == |ops| + 1
  {
  }

  /** A run that begins by taking a routine off the queue and making its calls. */
  lemma StepPrefix<V, A, T>(env: Env<A, T>, s: State<V, A, T>, a: A, cs: seq<Request<V, A, T>>,
                            ss: seq<State<V, A, T>>, ops: seq<Op<V, A, T>>)
    requires a in s.runnable && a in env.prio && IsRun(env, ss, ops) && ss[0] == s
    requires RunStep(env, s.(runnable := s.runnable - {a}), a, cs).status == Done
    requires [Pop(a)] + CallOps(cs) <= ops
    ensures 1 + |cs| <= |ops| && |CallOps(cs)| == |cs|
    ensures ss[1] == s.(runnable := s.runnable - {a})
    ensures ss[1 + |cs|] == RunStep(env, s.(runnable := s.runnable - {a}), a, cs).state
  {
    var s0 := s.(runnable := s.runnable - {a});
    var n, first: seq<Op<V, A, T>> := 1 + |cs|, [Pop(a)] + CallOps(cs);
    CallOpsAt(cs);
    assert ops[0] == Pop(a) && ss[1] == s0;
    assert IsRun(env, [s, s0], [Pop(a)]);
    hide RunStep, CallOps, Enabled, Do, IsRun;
    var run := StepIsRun(env, s0, a, cs);
    Concat(env, [s, s0], [Pop(a)], run, CallOps(cs));
    Prefix(env, ss, ops, n);
    assert ops[..n] == first;
    IsRunLength(env, ss, ops);
    IsRunLength(env, run, CallOps(cs));
    RunsAgree(env, ss[..n + 1], [s, s0] + run[1..], first, n);
  }

  lemma InParts<T>(all: seq<T>, x: T, mid: seq<T>, rest: seq<T>)
    requires all == [x] + mid + rest
    ensures |all| == 1 + |mid| + |rest| && all[0] == x && all[1 + |mid|..] == rest && [x] + mid <= all
    ensures forall i :: 0 <= i < |mid| ==> all[1 + i] == mid[i]
    ensures forall k :: 0 < k < 1 + |mid| ==> all[k] == mid[k - 1]
  {
    assert all[1 + |mid|..] == rest;
  }

  lemma StepAtShifts<V, A, T>(program: Program<V, A, T>, ss: seq<State<V, A, T>>, ops: seq<Op<V, A, T>>, n: nat, k: nat)
    requires n + k < |ops| && |ss| == |ops| + 1 && ops[n + k].Pop? && StepAt(program, ss[n..], ops[n..], k)
    ensures StepAt(program, ss, ops, n + k)
  {
    var rest := ops[n..];
    assert forall i :: 0 <= i < |rest| ==> ops[n + i] == rest[i];
  }

  /** The first step of an instant. */
  lemma FirstStep<V, A, T>(env: Env<A, T>, program: Program<V, A, T>, s: State<V, A, T>, fuel: nat,
                           ss: seq<State<V, A, T>>) returns (next: State<V, A, T>, n: nat)
    requires RunActs(env, program, s, fuel).status in {Done, OutOfFuel} && s.runnable != {} && fuel > 0
    requires IsRun(env, ss, ActOps(env, program, s, fuel)) && ss[0] == s
    ensures var ops := ActOps(env, program, s, fuel);
      && 0 < n <= |ops| && ops[0].Pop? && (forall k :: 0 < k < n ==> ops[k].Call?)
      && ss[n] == next && ops[n..] == ActOps(env, program, next, fuel - 1)
      && RunActs(env, program, next, fuel - 1).status in {Done, OutOfFuel}
      && var cs := program(ops[0].a, View(ss[1].now, ss[1].vars, ss[1].pcs));
      && n == 1 + |cs| && forall i :: 0 <= i < |cs| ==> ops[1 + i] == Call(cs[i].a, cs[i].c)
  {
    var a;
    a, next := TurnOps(env, program, s, fuel);
    hide RunActs, RunStep, ActOps, CallOps, Enabled, Do, IsRun;
    IsRunLength(env, ss, ActOps(env, program, s, fuel));
    var s0 := s.(runnable := s.runnable - {a});
    var cs := program(a, View(s0.now, s0.vars, s0.pcs));
    CallOpsAt(cs);
    n := 1 + |cs|;
    InParts(ActOps(env, program, s, fuel), Pop(a), CallOps(cs), ActOps(env, program, next, fuel - 1));
    StepPrefix(env, s, a, cs, ss, ActOps(env, program, s, fuel));
  }

  lemma ActsStart<V, A, T>(env: Env<A, T>, program: Program<V, A, T>, s: State<V, A, T>, fuel: nat)
    ensures var ops := ActOps(env, program, s, fuel); ops != [] ==> ops[0].Pop? && s.runnable != {} && fuel > 0
  {
  }

  lemma {:induction false} ActsRead<V, A, T>(env: Env<A, T>, program: Program<V, A, T>, s: State<V, A, T>, fuel: nat,
                                             ss: seq<State<V, A, T>>, k: nat)
    requires RunActs(env, program, s, fuel).status in {Done, OutOfFuel}
    requires IsRun(env, ss, ActOps(env, program, s, fuel)) && ss[0] == s
    requires k < |ActOps(env, program, s, fuel)| && ActOps(env, program, s, fuel)[k].Pop?
    ensures StepAt(program, ss, ActOps(env, program, s, fuel), k)
    decreases fuel
  {
    var ops := ActOps(env, program, s, fuel);
    ActsStart(env, program, s, fuel);
    hide ActOps, RunActs, Enabled, Do;
    var next, n := FirstStep(env, program, s, fuel, ss);
    var rest := ActOps(env, program, next, fuel - 1);
    ActsStart(env, program, next, fuel - 1);
    assert n < |ops| ==> ops[n] == rest[0];
    if k >= n {
      Prefix(env, ss, ops, n);
      ActsRead(env, program, next, fuel - 1, ss[n..], k - n);
      StepAtShifts(program, ss, ops, n, k - n);
    }
  }

  lemma ActsReadBehind<V, A, T>(env: Env<A, T>, program: Program<V, A, T>, head: seq<Op<V, A, T>>, s: State<V, A, T>,
                                fuel: nat, ss: seq<State<V, A, T>>, k: nat)
    requires RunActs(env, program, s, fuel).status in {Done, OutOfFuel}
    requires IsRun(env, ss, head + ActOps(env, program, s, fuel)) && ss[|head|] == s
    requires forall i :: 0 <= i < |head| ==> !head[i].Pop?
    requires k < |head + ActOps(env, program, s, fuel)| && (head + ActOps(env, program, s, fuel))[k].Pop?
    ensures StepAt(program, ss, head + ActOps(env, program, s, fuel), k)
  {
    var acts, n := ActOps(env, program, s, fuel), |head|;
    var ops := head + acts;
    hide ActOps, RunActs, Enabled, Do, StepAt;
    Prefix(env, ss, ops, n);
    assert ops[n..] == acts && k >= n;
    hide IsRun;
    ActsRead(env, program, s, fuel, ss[n..], k - n);
    StepAtShifts(program, ss, ops, n, k - n);
  }

  lemma AdvanceIsRun<V, A, T>(env: Env<A, T>, s: State<V, A, T>)
    requires TickThrow(s).Ok?
    ensures IsRun(env, [s, Instant.Advance(s)], [Op.Advance])
  {
  }

  lemma TickUnfolds<V, A, T>(env: Env<A, T>, program: Program<V, A, T>, s: State<V, A, T>, vs: seq<V>, fuel: nat)
    requires Tick(env, program, s, fuel).status in {Done, OutOfFuel} && Lists(vs, Instant.Advance(s))
    ensures var s1 := Instant.Advance(s);
      && TickThrow(s).Ok? && (forall i, j :: 0 <= i < j < |vs| ==> vs[i] != vs[j])
      && (forall v :: v in vs ==> IsPending(s1, v) && IsDue(s1, v)) && ApplySeq(env, s1, vs) == ApplyDue(env, s1)
      && RunActs(env, program, ApplyDue(env, s1), fuel).status in {Done, OutOfFuel}
      && TickOps(env, program, s, vs, fuel) ==
           [Op.Advance] + Applies(vs) + ActOps(env, program, ApplyDue(env, s1), fuel)
  {
    var s1 := Instant.Advance(s);
    hide RunActs, ActOps, Instant.Advance, ApplyDue, ApplySeq;
    forall v | v in vs ensures IsPending(s1, v) && IsDue(s1, v) {
      assert v in Due(s1);
    }
    AnyOrder(env, s1, vs);
  }

  lemma {:induction false} AppliesAre<V, A, T>(vs: seq<V>)
    ensures |Applies<V, A, T>(vs)| == |vs| && forall i :: 0 <= i < |vs| ==> Applies<V, A, T>(vs)[i] == Apply(vs[i])
  {
    if vs != [] {
      AppliesAre<V, A, T>(vs[1..]);
    }
  }

  /** A run whose operations begin with those of two others ends up where they lead. */
  lemma HeadEndsIn<V, A, T>(env: Env<A, T>, ss: seq<State<V, A, T>>, s: State<V, A, T>, first: seq<State<V, A, T>>,
                            op: Op<V, A, T>, run: seq<State<V, A, T>>, ops: seq<Op<V, A, T>>, rest: seq<Op<V, A, T>>)
    requires IsRun(env, ss, [op] + ops + rest) && ss[0] == s && IsRun(env, first, [op]) && first[0] == s
    requires IsRun(env, run, ops) && run[0] == first[1]
    ensures ss[1 + |ops|] == run[|ops|]
  {
    hide Enabled, Do;
    Concat(env, first, [op], run, ops);
    Prefix(env, ss, [op] + ops + rest, 1 + |ops|);
    assert ([op] + ops + rest)[..1 + |ops|] == [op] + ops;
    RunsAgree(env, ss[..2 + |ops|], first + run[1..], [op] + ops, 1 + |ops|);
  }

  /** In a tick, every routine makes the calls that the program chooses from what is there when its turn
      comes: the time of the tick, and the variables and program counters as the updates and the steps
      before it have left them. */
  lemma TickReads<V, A, T>(env: Env<A, T>, program: Program<V, A, T>, s: State<V, A, T>, vs: seq<V>, fuel: nat,
                           ss: seq<State<V, A, T>>, k: nat)
    requires Tick(env, program, s, fuel).status in {Done, OutOfFuel} && Lists(vs, Instant.Advance(s))
    requires IsRun(env, ss, TickOps(env, program, s, vs, fuel)) && ss[0] == s
    requires k < |TickOps(env, program, s, vs, fuel)| && TickOps(env, program, s, vs, fuel)[k].Pop?
    ensures StepAt(program, ss, TickOps(env, program, s, vs, fuel), k)
  {
    var s1 := Instant.Advance(s);
    IsRunLength(env, ss, TickOps(env, program, s, vs, fuel));
    TickUnfolds(env, program, s, vs, fuel);
    AdvanceIsRun(env, s);
    AppliesAre<V, A, T>(vs);
    hide ActOps, RunActs, Tick, ApplyDue, ApplySeq, Applies, Due, IsDue, IsPending, Instant.Advance, TickThrow, IsRun,
      StepAt, Lists, TickOps;
    var run := SeqIsRun(env, s1, vs);
    var acts := ActOps(env, program, ApplyDue(env, s1), fuel);
    HeadEndsIn(env, ss, s, [s, s1], Op.Advance, run, Applies(vs), acts);
    ActsReadBehind(env, program, [Op.Advance] + Applies(vs), ApplyDue(env, s1), fuel, ss, k);
  }

  lemma TickDroppingUnfolds<V, A, T>(env: Env<A, T>, program: Program<V, A, T>, drops: Finaliser<V>,
                                     s: State<V, A, T>, vs: seq<V>, fuel: nat)
    requires UpdatesOf(env, drops, s, vs)
    requires TickDropping(env, program, drops, s, vs, fuel).status in {Done, OutOfFuel}
    ensures var s1 := Instant.Advance(s);
      && TickThrow(s).Ok? && Drains(env, drops, s1, vs)
      && RunActs(env, program, Drained(env, drops, s1, vs), fuel).status in {Done, OutOfFuel}
      && DroppingOps(env, program, drops, s, vs, fuel) ==
           [Op.Advance] + DropOps(drops, vs) + ActOps(env, program, Drained(env, drops, s1, vs), fuel)
  {
    hide RunActs, ActOps, Instant.Advance, Drained, Drains, DropOps;
  }

  lemma {:induction false} CancelsAre<V, A, T>(ws: seq<V>)
    ensures forall i :: 0 <= i < |Cancels<V, A, T>(ws)| ==> Cancels<V, A, T>(ws)[i].Cancel?
  {
    if ws != [] {
      CancelsAre<V, A, T>(ws[1..]);
    }
  }

  lemma {:induction false} DropsAre<V, A, T>(drops: Finaliser<V>, vs: seq<V>)
    ensures forall i :: 0 <= i < |DropOps<V, A, T>(drops, vs)| ==> !DropOps<V, A, T>(drops, vs)[i].Pop?
    decreases |vs|
  {
    if vs != [] {
      DropsAre<V, A, T>(drops, vs[..|vs| - 1]);
      CancelsAre<V, A, T>(drops(|vs| - 1, vs[|vs| - 1]));
    }
  }

  /** The same where dropping old values finalises variables. */
  lemma TickDroppingReads<V, A, T>(env: Env<A, T>, program: Program<V, A, T>, drops: Finaliser<V>,
                                   s: State<V, A, T>, vs: seq<V>, fuel: nat, ss: seq<State<V, A, T>>, k: nat)
    requires UpdatesOf(env, drops, s, vs)
    requires TickDropping(env, program, drops, s, vs, fuel).status in {Done, OutOfFuel}
    requires IsRun(env, ss, DroppingOps(env, program, drops, s, vs, fuel)) && ss[0] == s
    requires k < |DroppingOps(env, program, drops, s, vs, fuel)| &&
      DroppingOps(env, program, drops, s, vs, fuel)[k].Pop?
    ensures StepAt(program, ss, DroppingOps(env, program, drops, s, vs, fuel), k)
  {
    IsRunLength(env, ss, DroppingOps(env, program, drops, s, vs, fuel));
    TickDroppingUnfolds(env, program, drops, s, vs, fuel);
    AdvanceIsRun(env, s);
    DropsAre<V, A, T>(drops, vs);
    hide ActOps, RunActs, Drained, Drains, DropOps, Instant.Advance, TickThrow, IsRun, StepAt, TickDropping, UpdatesOf,
      DroppingOps;
    var s1 := Instant.Advance(s);
    var s2, ops1: seq<Op<V, A, T>> := Drained(env, drops, s1, vs), DropOps(drops, vs);
    var acts := ActOps(env, program, s2, fuel);
    var run := DrainIsRun(env, drops, s1, vs);
    HeadEndsIn(env, ss, s, [s, s1], Op.Advance, run, ops1, acts);
    ActsReadBehind(env, program, [Op.Advance] + ops1, s2, fuel, ss, k);
  }
}
