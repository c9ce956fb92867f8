/** Histories: ticks and calls that platform code makes between them, one after the other. */
module History {
  import opened Prelude
  import opened Instant
  import opened Timeline

  /** A tick, with what its updates finalise and the order in which they are made; or a call from
      outside. Packed values finalise nothing: then `drops` is `NoDrops`. */
  datatype Move<!V, A, T> =
    | Ticked(drops: Finaliser<V>, vs: seq<V>, fuel: nat)
    | Called(a: A, c: Command<V, A, T>)

  ghost predicate Possible<V, A, T>(env: Env<A, T>, program: Program<V, A, T>, s: State<V, A, T>, move: Move<V, A, T>) {
    match move
    case Ticked(drops, vs, fuel) =>
      && TickThrow(s).Ok? && UpdatesOf(env, drops, s, vs)
      && TickDropping(env, program, drops, s, vs, fuel).status in {Done, OutOfFuel}
    case Called(a, c) => Enabled(env, s, Op.Call(a, c))
  }

  ghost function Next<V, A, T>(env: Env<A, T>, program: Program<V, A, T>, s: State<V, A, T>, move: Move<V, A, T>)
    : State<V, A, T>
    requires Possible(env, program, s, move)
  {
    match move
    case Ticked(drops, vs, fuel) => TickDropping(env, program, drops, s, vs, fuel).state
    case Called(a, c) => Do(env, s, Op.Call(a, c))
  }

  /** The operations of a move. */
  ghost function OpsOf<V, A, T>(env: Env<A, T>, program: Program<V, A, T>, s: State<V, A, T>, move: Move<V, A, T>)
    : seq<Op<V, A, T>>
    requires Possible(env, program, s, move)
  {
    match move
    case Ticked(drops, vs, fuel) => DroppingOps(env, program, drops, s, vs, fuel)
    case Called(a, c) => [Op.Call(a, c)]
  }

  ghost predicate IsHistory<V, A, T>(env: Env<A, T>, program: Program<V, A, T>,
                                     ss: seq<State<V, A, T>>, moves: seq<Move<V, A, T>>) {
    && |ss| == |moves| + 1
    && forall i :: 0 <= i < |moves| ==>
         Possible(env, program, ss[i], moves[i]) && ss[i + 1] == Next(env, program, ss[i], moves[i])
  }

  lemma MoveIsRun<V, A, T>(env: Env<A, T>, program: Program<V, A, T>, s: State<V, A, T>, move: Move<V, A, T>)
    returns (ss: seq<State<V, A, T>>)
    requires Possible(env, program, s, move)
    ensures var ops := OpsOf(env, program, s, move);
      IsRun(env, ss, ops) && ss[0] == s && ss[|ops|] == Next(env, program, s, move)
  {
    match move
    case Ticked(drops, vs, fuel) => ss := TickDroppingIsRun(env, program, drops, s, vs, fuel);
    case Called(a, c) => ss := [s, Do(env, s, Op.Call(a, c))];
  }

  /** The operations of a whole history. */
  ghost function AllOps<V, A, T>(env: Env<A, T>, program: Program<V, A, T>,
                                 ss: seq<State<V, A, T>>, moves: seq<Move<V, A, T>>): seq<Op<V, A, T>>
    requires IsHistory(env, program, ss, moves)
    decreases |moves|
  {
    if moves == [] then []
    else
      var n := |moves| - 1;
      AllOps(env, program, ss[..n + 1], moves[..n]) + OpsOf(env, program, ss[n], moves[n])
  }

  /** A history is a run, operation by operation, so the theorems about runs hold of it. */
  lemma {:induction false} HistoryIsRun<V, A, T>(env: Env<A, T>, program: Program<V, A, T>,
                                                 ss: seq<State<V, A, T>>, moves: seq<Move<V, A, T>>)
    returns (run: seq<State<V, A, T>>)
    requires IsHistory(env, program, ss, moves)
    ensures var ops := AllOps(env, program, ss, moves);
      IsRun(env, run, ops) && run[0] == ss[0] && run[|ops|] == ss[|moves|]
    decreases |moves|
  {
    if moves == [] {
      run := [ss[0]];
    } else {
      hide IsRun, Possible, Next, OpsOf;
      var n := |moves| - 1;
      var run1 := HistoryIsRun(env, program, ss[..n + 1], moves[..n]);
      var run2 := MoveIsRun(env, program, ss[n], moves[n]);
      Concat(env, run1, AllOps(env, program, ss[..n + 1], moves[..n]), run2, OpsOf(env, program, ss[n], moves[n]));
      run := run1 + run2[1..];
    }
  }

  // ---------- one move ----------

  ghost predicate Untouched<V, A, T>(ops: seq<Op<V, A, T>>, v: V) {
    forall k :: 0 <= k < |ops| ==> !Touches(ops[k], v)
  }

  lemma {:induction false} CancelsAre<V, A, T>(ws: seq<V>, v: V)
    ensures var ops: seq<Op<V, A, T>> := Cancels(ws);
      |ops| == |ws| && forall k :: 0 <= k < |ws| ==> ops[k] == Op.Cancel(ws[k])
  {
    if ws != [] {
      CancelsAre<V, A, T>(ws[1..], v);
    }
  }

  /** Operation k touches `v`, and none before it applies an update of `v`. */
  ghost predicate InterferesAt<V, A, T>(ops: seq<Op<V, A, T>>, v: V, k: nat) {
    k < |ops| && Touches(ops[k], v) && Apply(v) !in ops[..k]
  }

  /** Some operation touches `v` before any applies an update of `v`: what was pending on `v` is
      overwritten or cancelled. */
  ghost predicate Interferes<V, A, T>(ops: seq<Op<V, A, T>>, v: V) {
    exists k :: InterferesAt(ops, v, k)
  }

  lemma InterferesInPartsAt<V, A, T>(ops: seq<Op<V, A, T>>, ops': seq<Op<V, A, T>>, v: V, k: nat)
    ensures k < |ops| ==> (InterferesAt(ops + ops', v, k) <==> InterferesAt(ops, v, k))
    ensures InterferesAt(ops + ops', v, |ops| + k) <==> Apply(v) !in ops && InterferesAt(ops', v, k)
  {
    if k < |ops| {
      assert (ops + ops')[..k] == ops[..k];
    }
    if k < |ops'| {
      assert (ops + ops')[..|ops| + k] == ops + ops'[..k];
    }
  }

  lemma InterferesInParts<V, A, T>(ops: seq<Op<V, A, T>>, ops': seq<Op<V, A, T>>, v: V)
    ensures Interferes(ops + ops', v) <==> Interferes(ops, v) || (Apply(v) !in ops && Interferes(ops', v))
  {
    if Interferes(ops + ops', v) {
      var k: nat :| InterferesAt(ops + ops', v, k);
      InterferesInPartsAt(ops, ops', v, if k < |ops| then k else k - |ops|);
    }
    if Interferes(ops, v) {
      var k: nat :| InterferesAt(ops, v, k);
      InterferesInPartsAt(ops, ops', v, k);
    }
    if Apply(v) !in ops && Interferes(ops', v) {
      var k: nat :| InterferesAt(ops', v, k);
      InterferesInPartsAt(ops, ops', v, k);
    }
  }

  lemma CancelsInterfere<V, A, T>(ws: seq<V>, v: V)
    ensures Interferes<V, A, T>(Cancels(ws), v) <==> v in ws
    ensures Apply(v) !in Cancels<V, A, T>(ws)
  {
    CancelsAre<V, A, T>(ws, v);
    if v in ws {
      var k :| 0 <= k < |ws| && ws[k] == v;
      assert InterferesAt<V, A, T>(Cancels(ws), v, k);
    }
  }

  /** Updates and what they finalise, as operations: nothing else, and nothing is missing. */
  lemma {:induction false} DropOpsAre<V, A, T>(drops: Finaliser<V>, vs: seq<V>, v: V)
    ensures var ops: seq<Op<V, A, T>> := DropOps(drops, vs);
      && (Apply(v) in ops <==> v in vs)
      && (forall k :: 0 <= k < |ops| ==> ops[k].Cancel? || ops[k].Apply?)
    decreases |vs|
  {
    if vs != [] {
      var n := |vs| - 1;
      DropOpsAre<V, A, T>(drops, vs[..n], v);
      CancelsAre<V, A, T>(drops(n, vs[n]), v);
      var before: seq<Op<V, A, T>>, cancels: seq<Op<V, A, T>> := DropOps(drops, vs[..n]), Cancels(drops(n, vs[n]));
      var ops := before + cancels + [Apply(vs[n])];
      assert vs == vs[..n] + [vs[n]];
      assert Apply(v) !in cancels;
    }
  }

  /** Among the updates `vs`, one finalises `v` and none before it is an update of `v`. */
  ghost predicate CancelledFirst<V>(drops: Finaliser<V>, vs: seq<V>, v: V) {
    exists k :: 0 <= k < |vs| && v in drops(k, vs[k]) && v !in vs[..k]
  }

  lemma CancelledOneMore<V>(drops: Finaliser<V>, vs: seq<V>, v: V)
    requires vs != []
    ensures var n := |vs| - 1;
      CancelledFirst(drops, vs, v) <==>
        CancelledFirst(drops, vs[..n], v) || (v in drops(n, vs[n]) && v !in vs[..n])
  {
    var n := |vs| - 1;
    assert forall k :: 0 <= k < n ==> vs[..n][k] == vs[k] && vs[..n][..k] == vs[..k];
    if CancelledFirst(drops, vs[..n], v) {
      var k :| 0 <= k < n && v in drops(k, vs[..n][k]) && v !in vs[..n][..k];
      assert v in drops(k, vs[k]) && v !in vs[..k];
    }
  }

  lemma NoneInterfere<V, A, T>(drops: Finaliser<V>, v: V)
    ensures !Interferes<V, A, T>([], v) && !CancelledFirst(drops, [], v)
  {
  }

  lemma OneInterferes<V, A, T>(op: Op<V, A, T>, v: V)
    ensures Interferes([op], v) <==> Touches(op, v)
  {
    assert InterferesAt([op], v, 0) <==> Touches(op, v);
  }

  lemma {:induction false} DropsInterfere<V, A, T>(drops: Finaliser<V>, vs: seq<V>, v: V)
    ensures Interferes<V, A, T>(DropOps(drops, vs), v) <==> CancelledFirst(drops, vs, v)
    decreases |vs|
  {
    hide Interferes, CancelledFirst;
    var ops: seq<Op<V, A, T>> := DropOps(drops, vs);
    if vs == [] {
      NoneInterfere<V, A, T>(drops, v);
    } else {
      var n := |vs| - 1;
      var before: seq<Op<V, A, T>>, cancels: seq<Op<V, A, T>> := DropOps(drops, vs[..n]), Cancels(drops(n, vs[n]));
      DropsInterfere<V, A, T>(drops, vs[..n], v);
      DropOpsAre<V, A, T>(drops, vs[..n], v);
      CancelsInterfere<V, A, T>(drops(n, vs[n]), v);
      CancelledOneMore(drops, vs, v);
      InterferesInParts(before, cancels, v);
      InterferesInParts(before + cancels, [Apply(vs[n])], v);
      OneInterferes<V, A, T>(Apply(vs[n]), v);
    }
  }

  lemma {:induction false} CallOpsAre<V, A, T>(cs: seq<Request<V, A, T>>)
    ensures forall k :: 0 <= k < |CallOps(cs)| ==> CallOps(cs)[k].Call?
  {
    if cs != [] {
      CallOpsAre(cs[1..]);
    }
  }

  lemma ConcatAre<V, A, T>(ops: seq<Op<V, A, T>>, ops': seq<Op<V, A, T>>)
    requires forall k :: 0 <= k < |ops| ==> ops[k].Pop? || ops[k].Call?
    requires forall k :: 0 <= k < |ops'| ==> ops'[k].Pop? || ops'[k].Call?
    ensures forall k :: 0 <= k < |ops + ops'| ==> (ops + ops')[k].Pop? || (ops + ops')[k].Call?
  {
  }

  lemma {:induction false} ActOpsAre<V, A, T>(env: Env<A, T>, program: Program<V, A, T>, s: State<V, A, T>, fuel: nat)
    ensures forall k :: 0 <= k < |ActOps(env, program, s, fuel)| ==>
      ActOps(env, program, s, fuel)[k].Pop? || ActOps(env, program, s, fuel)[k].Call?
    decreases fuel
  {
    if s.runnable != {} && fuel > 0 && Unambiguous(env, s.runnable) {
      var a := First(env, s.runnable);
      var s0 := s.(runnable := s.runnable - {a});
      var cs := program(a, ViewOf(s0));
      var step := RunStep(env, s0, a, cs);
      hide RunStep, First, Unambiguous, CallOps;
      CallOpsAre(cs);
      if step.status == Done {
        ActOpsAre(env, program, step.state, fuel - 1);
        ConcatAre(CallOps(cs), ActOps(env, program, step.state, fuel - 1));
      }
    }
  }

  /** One update with what it finalises, seen from one variable. */
  lemma ApplyDroppingOn<V, A, T>(env: Env<A, T>, freed: seq<V>, s: State<V, A, T>, u: V, v: V)
    requires IsDue(s, u) && Finalises(freed, s, u) && v in s.vars
    ensures var s' := ApplyDropping(env, freed, s, u);
      && s'.now == s.now && s'.vars.Keys == s.vars.Keys
      && s'.vars[v] ==
           if v == u then VarState(s.vars[u].pending.value.val, s.now, None)
           else if v in freed then s.vars[v].(pending := None)
           else s.vars[v]
  {
    UnscheduleAllIs(s, freed);
  }

  lemma LastDrained<V, A, T>(env: Env<A, T>, drops: Finaliser<V>, s: State<V, A, T>, vs: seq<V>)
    requires Drains(env, drops, s, vs) && vs != []
    ensures var n := |vs| - 1;
      && Drains(env, drops, s, vs[..n]) && IsDue(Drained(env, drops, s, vs[..n]), vs[n])
      && Finalises(drops(n, vs[n]), Drained(env, drops, s, vs[..n]), vs[n])
      && Drained(env, drops, s, vs) == ApplyDropping(env, drops(n, vs[n]), Drained(env, drops, s, vs[..n]), vs[n])
  {
  }

  /** The updates of a tick, seen from one variable. */
  lemma {:induction false} DrainOn<V, A, T>(env: Env<A, T>, drops: Finaliser<V>, s: State<V, A, T>, vs: seq<V>, v: V)
    requires Drains(env, drops, s, vs) && v in s.vars
    ensures var s' := Drained(env, drops, s, vs); var p := s.vars[v].pending;
      && s'.now == s.now && s'.vars.Keys == s.vars.Keys
      && (v in vs ==> p.Some? && p.value.when == s.now && s'.vars[v] == VarState(p.value.val, s.now, None))
      && (p == None ==> s'.vars[v].pending == None)
      && (CancelledFirst(drops, vs, v) ==> v !in vs && s'.vars[v].pending == None)
      && (!CancelledFirst(drops, vs, v) && v !in vs ==> s'.vars[v] == s.vars[v])
      && (forall i, j :: 0 <= i < j < |vs| && vs[i] == v ==> vs[j] != v)
    decreases |vs|
  {
    if vs == [] {
      NoneInterfere<V, A, T>(drops, v);
    } else {
      var n := |vs| - 1;
      LastDrained(env, drops, s, vs);
      var before := Drained(env, drops, s, vs[..n]);
      assert vs == vs[..n] + [vs[n]];
      assert forall k :: 0 <= k < n ==> vs[..n][k] == vs[k];
      hide Drains, Drained, CancelledFirst, ApplyDropping;
      DrainOn(env, drops, s, vs[..n], v);
      CancelledOneMore(drops, vs, v);
      ApplyDroppingOn(env, drops(n, vs[n]), before, vs[n], v);
    }
  }

  lemma ActsKeep<V, A, T>(env: Env<A, T>, program: Program<V, A, T>, s: State<V, A, T>, fuel: nat, v: V)
    requires RunActs(env, program, s, fuel).status in {Done, OutOfFuel}
    requires Untouched(ActOps(env, program, s, fuel), v)
    ensures PendingOn(RunActs(env, program, s, fuel).state, v) == PendingOn(s, v)
  {
    hide RunActs, IsRun;
    var ss := ActsAreRun(env, program, s, fuel);
    ActOpsAre(env, program, s, fuel);
    RunKeeps(env, ss, ActOps(env, program, s, fuel), v);
  }

  /** The updates `vs` give `v` this value, at this time, once. */
  ghost predicate MadeBy<V, A, T>(env: Env<A, T>, drops: Finaliser<V>, s: State<V, A, T>, vs: seq<V>,
                                  v: V, when: Time, val: Word) {
    && Drains(env, drops, s, vs) && s.now == when && v in vs
    && (forall i, j :: 0 <= i < j < |vs| && vs[i] == v ==> vs[j] != v)
    && v in Drained(env, drops, s, vs).vars && Drained(env, drops, s, vs).vars[v] == VarState(val, when, None)
  }

  lemma NotDue<V, A, T>(s: State<V, A, T>, v: V)
    requires Due(s) == {}
    ensures !IsDue(s, v)
  {
    assert v !in Due(s);
  }

  /** None of the operations is a call that schedules an update of `v`. */
  ghost predicate Unscheduling<V, A, T>(ops: seq<Op<V, A, T>>, v: V) {
    forall k :: 0 <= k < |ops| ==> !(ops[k].Call? && ops[k].c.Later? && ops[k].c.v == v)
  }

  /** The routines of an instant, seen from a variable with nothing pending. */
  lemma ActsKeepNone<V, A, T>(env: Env<A, T>, program: Program<V, A, T>, s: State<V, A, T>, fuel: nat, v: V)
    requires RunActs(env, program, s, fuel).status in {Done, OutOfFuel}
    requires PendingOn(s, v) == None && Unscheduling(ActOps(env, program, s, fuel), v)
    ensures PendingOn(RunActs(env, program, s, fuel).state, v) == None
  {
    hide RunActs, IsRun;
    var ss := ActsAreRun(env, program, s, fuel);
    RunKeepsNone(env, ss, ActOps(env, program, s, fuel), v);
  }

  /** The parts of a tick. */
  lemma TickParts<V, A, T>(env: Env<A, T>, program: Program<V, A, T>, s: State<V, A, T>,
                           drops: Finaliser<V>, vs: seq<V>, fuel: nat)
    requires Possible<V, A, T>(env, program, s, Ticked(drops, vs, fuel))
    ensures var s1 := Instant.Advance(s);
      && TickThrow(s).Ok? && Drains(env, drops, s1, vs) && Due(Drained(env, drops, s1, vs)) == {}
      && var s2 := Drained(env, drops, s1, vs);
      && RunActs(env, program, s2, fuel).status in {Done, OutOfFuel}
      && Next<V, A, T>(env, program, s, Ticked(drops, vs, fuel)) == RunActs(env, program, s2, fuel).state
      && OpsOf<V, A, T>(env, program, s, Ticked(drops, vs, fuel)) ==
           [Op.Advance] + DropOps(drops, vs) + ActOps(env, program, s2, fuel)
  {
    hide Drains, Drained, ActOps, RunActs, DropOps, TickThrow, Instant.Advance, Due;
  }

  lemma ActsInterfere<V, A, T>(acts: seq<Op<V, A, T>>, v: V)
    requires forall k :: 0 <= k < |acts| ==> acts[k].Pop? || acts[k].Call?
    ensures Interferes(acts, v) <==> !Untouched(acts, v)
  {
    if !Untouched(acts, v) {
      var k :| 0 <= k < |acts| && Touches(acts[k], v);
      assert InterferesAt(acts, v, k);
    }
  }

  lemma UnschedulingPart<V, A, T>(ops: seq<Op<V, A, T>>, ops': seq<Op<V, A, T>>, v: V)
    ensures Unscheduling(ops + ops', v) ==> Unscheduling(ops', v)
  {
    assert forall k :: 0 <= k < |ops'| ==> (ops + ops')[|ops| + k] == ops'[k];
  }

  /** A tick interferes with what is pending on `v` if an update before that of `v` finalises `v`, or
      if there is no update of `v` and a call touches `v`. */
  lemma TickInterferes<V, A, T>(drops: Finaliser<V>, vs: seq<V>, acts: seq<Op<V, A, T>>, v: V)
    requires forall k :: 0 <= k < |acts| ==> acts[k].Pop? || acts[k].Call?
    ensures var ops := [Op.Advance] + DropOps(drops, vs) + acts;
      && (Interferes(ops, v) <==> CancelledFirst(drops, vs, v) || (v !in vs && !Untouched(acts, v)))
      && (Unscheduling(ops, v) ==> Unscheduling(acts, v))
  {
    var ops1: seq<Op<V, A, T>> := DropOps(drops, vs);
    hide DropOps, CancelledFirst;
    DropsInterfere<V, A, T>(drops, vs, v);
    DropOpsAre<V, A, T>(drops, vs, v);
    OneInterferes<V, A, T>(Op.Advance, v);
    ActsInterfere(acts, v);
    UnschedulingPart([Op.Advance] + ops1, acts, v);
    hide Interferes, Untouched, Unscheduling;
    InterferesInParts([Op.Advance], ops1, v);
    InterferesInParts([Op.Advance] + ops1, acts, v);
  }

  /** A tick, seen from one variable. It makes the update pending on the variable if and only if its time
      is the update's and nothing in it interferes first; it never passes the update by; and it makes
      nothing that was not pending when it began. */
  lemma TickOn<V, A, T>(env: Env<A, T>, program: Program<V, A, T>, s: State<V, A, T>,
                        drops: Finaliser<V>, vs: seq<V>, fuel: nat, v: V)
    requires Timely(s) && v in s.vars
    requires Possible<V, A, T>(env, program, s, Ticked(drops, vs, fuel))
    ensures var s1, s' := Instant.Advance(s), Next<V, A, T>(env, program, s, Ticked(drops, vs, fuel));
      var ops := OpsOf<V, A, T>(env, program, s, Ticked(drops, vs, fuel));
      var p := s.vars[v].pending;
      && (v in vs <==> p.Some? && s1.now == p.value.when && !Interferes(ops, v))
      && (p.Some? ==> s1.now <= p.value.when)
      && (v in vs ==> MadeBy(env, drops, s1, vs, v, p.value.when, p.value.val))
      && (v !in vs && !Interferes(ops, v) ==> PendingOn(s', v) == p)
      && ((v in vs || p == None) && Unscheduling(ops, v) ==> PendingOn(s', v) == None)
  {
    var s1 := Instant.Advance(s);
    var s2 := Drained(env, drops, s1, vs);
    var acts := ActOps(env, program, s2, fuel);
    TickParts(env, program, s, drops, vs, fuel);
    TimelyStep(env, s, Op.Advance);
    assert s1.vars == s.vars;
    ActOpsAre(env, program, s2, fuel);
    TickInterferes(drops, vs, acts, v);
    hide Possible, Next, OpsOf, Drains, Drained, ActOps, RunActs, DropOps, TickThrow, Timely, Instant.Advance,
      Untouched, Interferes, Unscheduling, CancelledFirst;
    DrainOn(env, drops, s1, vs, v);
    NotDue(s2, v);
    hide Due;
    if s.vars[v].pending.Some? {
      StillAhead(s1, v);
    }
    if Untouched(acts, v) {
      ActsKeep(env, program, s2, fuel, v);
    }
    if PendingOn(s2, v) == None && Unscheduling(acts, v) {
      ActsKeepNone(env, program, s2, fuel, v);
    }
  }

  /** A call from outside, seen from one variable. */
  lemma CallOn<V, A, T>(env: Env<A, T>, program: Program<V, A, T>, s: State<V, A, T>, a: A, c: Command<V, A, T>, v: V)
    requires Possible<V, A, T>(env, program, s, Called(a, c))
    ensures var ops, s' := OpsOf<V, A, T>(env, program, s, Called(a, c)), Next<V, A, T>(env, program, s, Called(a, c));
      && (!Interferes(ops, v) ==> PendingOn(s', v) == PendingOn(s, v))
      && (PendingOn(s, v) == None && Unscheduling(ops, v) ==> PendingOn(s', v) == None)
  {
    var op: Op<V, A, T> := Op.Call(a, c);
    assert [op][0] == op;
    OneInterferes(op, v);
    StepOn(env, s, op, v);
  }

  // ---------- whole histories ----------

  /** Moves keep pending updates ahead of the time, and time does not go back. */
  lemma {:induction false} TimelyHistory<V, A, T>(env: Env<A, T>, program: Program<V, A, T>,
                                                  ss: seq<State<V, A, T>>, moves: seq<Move<V, A, T>>, i: nat)
    requires IsHistory(env, program, ss, moves) && Timely(ss[0]) && i <= |moves|
    ensures Timely(ss[i]) && ss[i].vars.Keys == ss[0].vars.Keys
    decreases i
  {
    if i > 0 {
      hide IsRun, Possible, Next, OpsOf, Timely;
      TimelyHistory(env, program, ss, moves, i - 1);
      var run := MoveIsRun(env, program, ss[i - 1], moves[i - 1]);
      TimelyRun(env, run, OpsOf(env, program, ss[i - 1], moves[i - 1]), 0,
        |OpsOf(env, program, ss[i - 1], moves[i - 1])|);
    }
  }

  /** A tick that makes an update of `v`. */
  ghost predicate Makes<V, A, T>(move: Move<V, A, T>, v: V) {
    move.Ticked? && v in move.vs
  }

  /** Move m is the tick that gives `v` this value at this time. */
  ghost predicate TakesEffect<V, A, T>(env: Env<A, T>, ss: seq<State<V, A, T>>, moves: seq<Move<V, A, T>>,
                                       m: nat, v: V, when: Time, val: Word)
    requires m < |moves| && |ss| == |moves| + 1
  {
    moves[m].Ticked? && MadeBy(env, moves[m].drops, Instant.Advance(ss[m]), moves[m].vs, v, when, val)
  }

  /** One move of a history, seen from one variable. */
  lemma MoveOn<V, A, T>(env: Env<A, T>, program: Program<V, A, T>, s: State<V, A, T>, move: Move<V, A, T>, v: V)
    requires Timely(s) && v in s.vars && Possible(env, program, s, move)
    ensures var p, ops, s' := PendingOn(s, v), OpsOf(env, program, s, move), Next(env, program, s, move);
      && (Makes(move, v) <==> move.Ticked? && p.Some? && Instant.Advance(s).now == p.value.when && !Interferes(ops, v))
      && (Makes(move, v) ==> MadeBy(env, move.drops, Instant.Advance(s), move.vs, v, p.value.when, p.value.val))
      && (move.Ticked? && p.Some? ==> Instant.Advance(s).now <= p.value.when)
      && (!Makes(move, v) && !Interferes(ops, v) ==> PendingOn(s', v) == p)
      && ((Makes(move, v) || p == None) && Unscheduling(ops, v) ==> PendingOn(s', v) == None)
  {
    hide Possible, Next, OpsOf, Interferes, Unscheduling, Timely, MadeBy;
    match move
    case Ticked(drops, vs, fuel) => TickOn(env, program, s, drops, vs, fuel, v);
    case Called(a, c) => CallOn(env, program, s, a, c, v);
  }

  /** From i to j the update is pending, and all ticks are earlier. */
  ghost predicate Waits<V, A, T>(ss: seq<State<V, A, T>>, moves: seq<Move<V, A, T>>, i: nat, j: nat,
                                 v: V, when: Time, val: Word)
    requires j <= |moves| && |ss| == |moves| + 1
  {
    && (forall m :: i <= m <= j ==> PendingOn(ss[m], v) == Some(Pend(when, val)))
    && (forall m :: i <= m < j ==> !Makes(moves[m], v))
    && (forall m :: i <= m < j && moves[m].Ticked? ==> Instant.Advance(ss[m]).now < when)
  }

  /** Move m overwrites or cancels the update, at the time of the update at the latest. */
  ghost predicate IsLost<V, A, T>(env: Env<A, T>, program: Program<V, A, T>, ss: seq<State<V, A, T>>,
                                  moves: seq<Move<V, A, T>>, m: nat, v: V, when: Time)
    requires IsHistory(env, program, ss, moves) && m < |moves|
  {
    && Interferes(OpsOf(env, program, ss[m], moves[m]), v) && !Makes(moves[m], v)
    && (moves[m].Ticked? ==> Instant.Advance(ss[m]).now <= when)
  }

  /** What becomes of a pending update: it waits, or the first move in which something else happens to it
      makes it or overwrites or cancels it. */
  lemma {:induction false} FirstFate<V, A, T>(env: Env<A, T>, program: Program<V, A, T>, ss: seq<State<V, A, T>>,
                                              moves: seq<Move<V, A, T>>, i: nat, j: nat, v: V, when: Time, val: Word)
    requires IsHistory(env, program, ss, moves) && Timely(ss[0]) && i <= j <= |moves|
    requires PendingOn(ss[i], v) == Some(Pend(when, val))
    ensures
      || Waits(ss, moves, i, j, v, when, val)
      || exists m :: i <= m < j && Waits(ss, moves, i, m, v, when, val)
           && (TakesEffect(env, ss, moves, m, v, when, val) || IsLost(env, program, ss, moves, m, v, when))
    decreases j
  {
    hide Possible, Next, OpsOf, Timely, MadeBy, Interferes, Instant.Advance;
    if j > i {
      var n := j - 1;
      FirstFate(env, program, ss, moves, i, n, v, when, val);
      TimelyHistory(env, program, ss, moves, n);
      TimelyHistory(env, program, ss, moves, i);
      if Waits(ss, moves, i, n, v, when, val) {
        MoveOn(env, program, ss[n], moves[n], v);
        assert TakesEffect(env, ss, moves, n, v, when, val) || IsLost(env, program, ss, moves, n, v, when)
          || Waits(ss, moves, i, j, v, when, val);
      }
    }
  }

  /** No call in the moves from m to n schedules an update of `v`. */
  ghost predicate NoneScheduled<V, A, T>(env: Env<A, T>, program: Program<V, A, T>, ss: seq<State<V, A, T>>,
                                         moves: seq<Move<V, A, T>>, m: nat, n: nat, v: V)
    requires IsHistory(env, program, ss, moves) && n <= |moves|
  {
    forall q :: m <= q < n ==> Unscheduling(OpsOf(env, program, ss[q], moves[q]), v)
  }

  /** Nothing is pending after move m, and no tick makes anything, until a call schedules again. */
  ghost predicate IsOver<V, A, T>(env: Env<A, T>, program: Program<V, A, T>, ss: seq<State<V, A, T>>,
                                  moves: seq<Move<V, A, T>>, m: nat, j: nat, v: V)
    requires IsHistory(env, program, ss, moves) && j <= |moves|
  {
    forall n :: m < n <= j && NoneScheduled(env, program, ss, moves, m, n, v) ==>
      PendingOn(ss[n], v) == None && (n < j ==> !Makes(moves[n], v))
  }

  lemma {:induction false} MadeIsOver<V, A, T>(env: Env<A, T>, program: Program<V, A, T>, ss: seq<State<V, A, T>>,
                                               moves: seq<Move<V, A, T>>, m: nat, n: nat, v: V)
    requires IsHistory(env, program, ss, moves) && Timely(ss[0]) && m < n <= |moves| && v in ss[0].vars
    requires Makes(moves[m], v) && NoneScheduled(env, program, ss, moves, m, n, v)
    ensures PendingOn(ss[n], v) == None && (n < |moves| ==> !Makes(moves[n], v))
    decreases n
  {
    hide Possible, Next, OpsOf, Timely, MadeBy, Interferes, Instant.Advance, Unscheduling, Makes;
    if m + 1 < n {
      MadeIsOver(env, program, ss, moves, m, n - 1, v);
    }
    TimelyHistory(env, program, ss, moves, n - 1);
    MoveOn(env, program, ss[n - 1], moves[n - 1], v);
    if n < |moves| {
      TimelyHistory(env, program, ss, moves, n);
      MoveOn(env, program, ss[n], moves[n], v);
    }
  }

  lemma EffectIsOver<V, A, T>(env: Env<A, T>, program: Program<V, A, T>, ss: seq<State<V, A, T>>,
                              moves: seq<Move<V, A, T>>, i: nat, m: nat, j: nat, v: V, when: Time, val: Word)
    requires IsHistory(env, program, ss, moves) && Timely(ss[0]) && i <= m < j <= |moves| && IsPending(ss[i], v)
    requires TakesEffect(env, ss, moves, m, v, when, val)
    ensures IsOver(env, program, ss, moves, m, j, v)
  {
    hide Possible, Next, NoneScheduled, Timely;
    TimelyHistory(env, program, ss, moves, i);
    forall n | m < n <= j && NoneScheduled(env, program, ss, moves, m, n, v)
      ensures PendingOn(ss[n], v) == None && (n < j ==> !Makes(moves[n], v))
    {
      MadeIsOver(env, program, ss, moves, m, n, v);
    }
  }

  /** In every history, a pending update waits while all ticks are earlier, until a move overwrites or
      cancels it, or until the tick whose time is its time makes it. What that tick does to the variable
      afterwards, and later moves do, makes no difference; and the update is not made a second time. */
  lemma UpdatesAreExact<V, A, T>(env: Env<A, T>, program: Program<V, A, T>, ss: seq<State<V, A, T>>,
                                 moves: seq<Move<V, A, T>>, i: nat, j: nat, v: V, when: Time, val: Word)
    requires IsHistory(env, program, ss, moves) && Timely(ss[0]) && i <= j <= |moves|
    requires PendingOn(ss[i], v) == Some(Pend(when, val))
    ensures
      || Waits(ss, moves, i, j, v, when, val)
      || exists m :: i <= m < j && Waits(ss, moves, i, m, v, when, val)
           && ((TakesEffect(env, ss, moves, m, v, when, val) && IsOver(env, program, ss, moves, m, j, v))
               || IsLost(env, program, ss, moves, m, v, when))
  {
    hide Possible, Next, Waits, TakesEffect, IsLost, IsOver;
    FirstFate(env, program, ss, moves, i, j, v, when, val);
    if !Waits(ss, moves, i, j, v, when, val) {
      var m :| i <= m < j && Waits(ss, moves, i, m, v, when, val)
        && (TakesEffect(env, ss, moves, m, v, when, val) || IsLost(env, program, ss, moves, m, v, when));
      if TakesEffect(env, ss, moves, m, v, when, val) {
        EffectIsOver(env, program, ss, moves, i, m, j, v, when, val);
      }
    }
  }

  lemma NoDropOps<V, A, T>(drops: Finaliser<V>, vs: seq<V>)
    ensures vs == [] ==> DropOps<V, A, T>(drops, vs) == []
  {
  }

  /** In a move, no update is applied behind a call. */
  lemma CallsComeLast<V, A, T>(env: Env<A, T>, program: Program<V, A, T>, s: State<V, A, T>, move: Move<V, A, T>,
                               k: nat, m: nat)
    requires Possible(env, program, s, move) && k < m < |OpsOf(env, program, s, move)|
    requires OpsOf(env, program, s, move)[k].Call?
    ensures !OpsOf(env, program, s, move)[m].Apply?
  {
    match move
    case Ticked(drops, vs, fuel) =>
      var s2 := Drained(env, drops, Instant.Advance(s), vs);
      var ops1: seq<Op<V, A, T>>, ops2 := DropOps(drops, vs), ActOps(env, program, s2, fuel);
      hide Drains, Drained, ActOps, DropOps, TickThrow, Instant.Advance, TickDropping;
      ActOpsAre(env, program, s2, fuel);
      if 0 < k <= |ops1| && vs != [] {
        DropOpsAre<V, A, T>(drops, vs, vs[0]);
      }
      NoDropOps<V, A, T>(drops, vs);
      assert OpsOf(env, program, s, move) == [Op.Advance] + ops1 + ops2;
    case Called(a, c) =>
  }

  /** An update scheduled in a move and not touched by the rest of it is pending after it. */
  lemma ScheduledIsPending<V, A, T>(env: Env<A, T>, program: Program<V, A, T>, s: State<V, A, T>, move: Move<V, A, T>,
                                    k: nat, v: V, when: Time, val: Word)
    requires Timely(s) && Possible(env, program, s, move) && k < |OpsOf(env, program, s, move)|
    requires Schedules(OpsOf(env, program, s, move)[k], v, when, val)
    requires forall i :: k < i < |OpsOf(env, program, s, move)| ==> !Touches(OpsOf(env, program, s, move)[i], v)
    ensures PendingOn(Next(env, program, s, move), v) == Some(Pend(when, val))
  {
    hide Possible, Next, OpsOf, Timely, IsRun;
    var ops := OpsOf(env, program, s, move);
    var run := MoveIsRun(env, program, s, move);
    forall m | k < m < |ops| ensures ops[m] != Apply(v) {
      CallsComeLast(env, program, s, move, k, m);
    }
    Exactness(env, run, ops, k, |ops|, v, when, val);
  }

  /** The same for an update scheduled by any call, of a routine in a tick or from outside. */
  lemma ScheduledUpdatesAreExact<V, A, T>(env: Env<A, T>, program: Program<V, A, T>, ss: seq<State<V, A, T>>,
                                          moves: seq<Move<V, A, T>>, i: nat, k: nat, j: nat, v: V, when: Time,
                                          val: Word)
    requires IsHistory(env, program, ss, moves) && Timely(ss[0]) && i < j <= |moves|
    requires k < |OpsOf(env, program, ss[i], moves[i])|
    requires Schedules(OpsOf(env, program, ss[i], moves[i])[k], v, when, val)
    requires forall m :: k < m < |OpsOf(env, program, ss[i], moves[i])| ==>
      !Touches(OpsOf(env, program, ss[i], moves[i])[m], v)
    ensures
      || Waits(ss, moves, i + 1, j, v, when, val)
      || exists m :: i < m < j && Waits(ss, moves, i + 1, m, v, when, val)
           && ((TakesEffect(env, ss, moves, m, v, when, val) && IsOver(env, program, ss, moves, m, j, v))
               || IsLost(env, program, ss, moves, m, v, when))
  {
    hide Possible, Next, OpsOf, Timely, TakesEffect, Waits, IsOver, IsLost, Touches;
    TimelyHistory(env, program, ss, moves, i);
    ScheduledIsPending(env, program, ss[i], moves[i], k, v, when, val);
    UpdatesAreExact(env, program, ss, moves, i + 1, j, v, when, val);
  }

  // ---------- periodic updates ----------

  ghost predicate LastSchedules<V, A, T>(ops: seq<Op<V, A, T>>, v: V, k: nat, s: State<V, A, T>, period: nat)
    requires k < |ops|
  {
    && ops[k].Call? && ops[k].c.Later? && ops[k].c.v == v && ops[k].c.when == Instant.Advance(s).now + period
    && forall m :: k < m < |ops| ==> !Touches(ops[m], v)
  }

  /** If the move makes an update of `v`, its last call on `v` schedules the next one `period` later;
      otherwise it leaves `v` alone. */
  ghost predicate Renews<V, A, T>(env: Env<A, T>, program: Program<V, A, T>, s: State<V, A, T>, move: Move<V, A, T>,
                                  v: V, period: nat)
    requires Possible(env, program, s, move)
  {
    var ops := OpsOf(env, program, s, move);
    !Interferes(ops, v) && (Makes(move, v) ==> exists k: nat :: k < |ops| && LastSchedules(ops, v, k, s, period))
  }

  /** How many of the first j moves make an update of `v`. */
  ghost function Beats<V, A, T>(moves: seq<Move<V, A, T>>, j: nat, v: V): nat
    requires j <= |moves|
  {
    if j == 0 then 0 else Beats(moves, j - 1, v) + if Makes(moves[j - 1], v) then 1 else 0
  }

  lemma RenewedOn<V, A, T>(env: Env<A, T>, program: Program<V, A, T>, s: State<V, A, T>, move: Move<V, A, T>,
                           v: V, period: nat)
    requires Timely(s) && IsPending(s, v) && Possible(env, program, s, move)
    requires Renews(env, program, s, move, v, period)
    ensures var p, p' := PendingOn(s, v), PendingOn(Next(env, program, s, move), v);
      && (move.Ticked? ==> Instant.Advance(s).now <= p.value.when)
      && (Makes(move, v) <==> move.Ticked? && Instant.Advance(s).now == p.value.when)
      && p'.Some? && p'.value.when == p.value.when + if Makes(move, v) then period else 0
  {
    hide Possible, Next, OpsOf, Timely, Interferes, Touches, MadeBy, Instant.Advance;
    MoveOn(env, program, s, move, v);
    if Makes(move, v) {
      var ops := OpsOf(env, program, s, move);
      var k: nat :| k < |ops| && LastSchedules(ops, v, k, s, period);
      ScheduledIsPending(env, program, s, move, k, v, ops[k].c.when, ops[k].c.val);
    }
  }

  /** A timer that renews itself does not drift: the k-th tick that makes its update is at the first time
      plus k periods, and the timer is never passed by. */
  lemma {:induction false} TimerIsPeriodic<V, A, T>(env: Env<A, T>, program: Program<V, A, T>, ss: seq<State<V, A, T>>,
                                                    moves: seq<Move<V, A, T>>, j: nat, v: V, period: nat)
    requires IsHistory(env, program, ss, moves) && Timely(ss[0]) && j < |moves| && IsPending(ss[0], v)
    requires forall m :: 0 <= m < |moves| ==> Renews(env, program, ss[m], moves[m], v, period)
    ensures var due := WhenOf(ss[0], v) + Beats(moves, j, v) * period;
      && IsPending(ss[j], v) && WhenOf(ss[j], v) == due
      && (moves[j].Ticked? ==> Instant.Advance(ss[j]).now <= due)
      && (Makes(moves[j], v) <==> moves[j].Ticked? && Instant.Advance(ss[j]).now == due)
    decreases j
  {
    hide Possible, Next, Renews, Timely, Makes, Instant.Advance;
    TimelyHistory(env, program, ss, moves, j);
    if j > 0 {
      TimerIsPeriodic(env, program, ss, moves, j - 1, v, period);
      TimelyHistory(env, program, ss, moves, j - 1);
      RenewedOn(env, program, ss[j - 1], moves[j - 1], v, period);
    }
    RenewedOn(env, program, ss[j], moves[j], v, period);
  }

  // ---------- ticks with packed values ----------

  lemma {:induction false} ListDrains<V, A, T>(env: Env<A, T>, s: State<V, A, T>, vs: seq<V>)
    requires (forall i, j :: 0 <= i < j < |vs| ==> vs[i] != vs[j]) && forall v :: v in vs ==> v in s.vars && IsDue(s, v)
    ensures Drains(env, NoDrops, s, vs)
    decreases |vs|
  {
    if vs != [] {
      var n := |vs| - 1;
      var before := vs[..n];
      assert forall k :: 0 <= k < n ==> before[k] == vs[k];
      ListDrains(env, s, before);
      assert vs[n] !in before && vs[n] in vs;
      DrainOn(env, NoDrops, s, before, vs[n]);
    }
  }

  lemma {:induction false} DrainKeeps<V, A, T>(env: Env<A, T>, s: State<V, A, T>, vs: seq<V>)
    requires Drains(env, NoDrops, s, vs)
    ensures Drained(env, NoDrops, s, vs).vars.Keys == s.vars.Keys && Drained(env, NoDrops, s, vs).now == s.now
    decreases |vs|
  {
    if vs != [] {
      DrainKeeps(env, s, vs[..|vs| - 1]);
    }
  }

  lemma NoneLeftDue<V, A, T>(env: Env<A, T>, s: State<V, A, T>, vs: seq<V>)
    requires Drains(env, NoDrops, s, vs) && Lists(vs, s)
    ensures Due(Drained(env, NoDrops, s, vs)) == {}
  {
    var s2 := Drained(env, NoDrops, s, vs);
    assert s2.vars.Keys == s.vars.Keys && s2.now == s.now by { DrainKeeps(env, s, vs); }
    forall v | v in s2.vars ensures !IsDue(s2, v) {
      DrainOn(env, NoDrops, s, vs, v);
      if v !in vs { assert v !in Due(s); }
    }
  }

  /** A tick with packed values is a move, for every order of the updates. */
  lemma PackedTickIsMove<V, A, T>(env: Env<A, T>, program: Program<V, A, T>, s: State<V, A, T>, vs: seq<V>, fuel: nat)
    requires Tick(env, program, s, fuel).status in {Done, OutOfFuel} && Lists(vs, Instant.Advance(s))
    ensures Possible<V, A, T>(env, program, s, Ticked(NoDrops, vs, fuel))
    ensures Next<V, A, T>(env, program, s, Ticked(NoDrops, vs, fuel)) == Tick(env, program, s, fuel).state
  {
    hide Drains, Drained, Instant.Advance, TickThrow, RunActs;
    var s1 := Instant.Advance(s);
    forall v | v in vs ensures v in s1.vars && IsDue(s1, v) { assert v in Due(s1); }
    ListDrains(env, s1, vs);
    NoneLeftDue(env, s1, vs);
    hide Due;
    PackedTick(env, program, s, vs, fuel);
  }
}
