/** Steps in which routines leave.

    When the last child of a routine leaves, the routine is resumed inside the child's step, and may leave
    in turn. The calls it makes then wake only routines behind the one whose turn it is, although its
    own priority number is not larger: whatever it has priorities for has left. */
module Joining {
  import opened Prelude
  import I = Instant
  import P = PriorityTree
  import T = ProcessTree

  // ---------- who makes the calls ----------

  /** A routine that runs in a step, and the routines that have not left when it starts. */
  datatype Stage = Stage(act: T.Act, live: set<T.Act>)

  /** The stages of a step in which `act` leaves: the routine itself, then each caller that is resumed. */
  ghost function Stages(live: set<T.Act>, top: T.Act, act: T.Act, done: set<T.Act>): (stages: seq<Stage>)
    requires T.IsTree(live, top) && act in live && T.Kids(live, act) == {}
    ensures stages != [] && stages[0] == Stage(act, live)
    decreases act.level
  {
    T.Shrunk(live, top, act);
    var rest, parent := T.Without(live, act), act.caller;
    [Stage(act, live)] +
    if T.Kids(rest, parent) != {} || parent == top then []
    else if parent !in done then [Stage(parent, rest)]
    else Stages(rest, top, parent, done)
  }

  /** The routines that run in a step are the one whose turn it is and, in order, those that the
      cascade of leaving resumes; only the record at the top does nothing. */
  lemma {:induction false} StagesAreResumed(live: set<T.Act>, top: T.Act, act: T.Act, done: set<T.Act>)
    requires T.IsTree(live, top) && act in live && T.Kids(live, act) == {}
    ensures var stages, resumed := Stages(live, top, act, done), T.Cascade(live, top, act, done).1;
      && |resumed| == (if resumed != [] && resumed[|resumed| - 1] == top then |stages| else |stages| - 1)
      && forall k :: 0 < k < |stages| ==> stages[k].act == resumed[k - 1]
    decreases act.level
  {
    T.Shrunk(live, top, act);
    var rest, parent := T.Without(live, act), act.caller;
    hide T.Kids, T.Without, T.IsTree;
    if T.Kids(rest, parent) == {} && parent != top && parent in done {
      StagesAreResumed(rest, top, parent, done);
      var stages, resumed := Stages(rest, top, parent, done), T.Cascade(rest, top, parent, done).1;
      assert Stages(live, top, act, done) == [Stage(act, live)] + stages;
      assert T.Cascade(live, top, act, done).1 == [parent] + resumed;
      hide Stages, T.Cascade;
    }
  }

  // ---------- where their priorities are ----------

  type Places = map<T.Act, P.Place>

  ghost predicate InCaller(live: set<T.Act>, place: Places, a: T.Act)
    requires live <= place.Keys && a in live
  {
    a.caller != null && a.caller in live ==> P.Within(place[a], place[a.caller])
  }

  predicate Apart(a: P.Place, b: P.Place) {
    P.Before(a, b) || P.Before(b, a)
  }

  /** Priorities are shared out by forking: a child's lie within its caller's, and those of different
      children of a caller are apart. */
  ghost predicate Nested(live: set<T.Act>, top: T.Act, place: Places) {
    && T.IsTree(live, top) && live <= place.Keys
    && (forall a :: a in live ==> InCaller(live, place, a))
    && (forall a, b :: a in live && b in live && a != b && a.caller == b.caller ==> Apart(place[a], place[b]))
  }

  ghost predicate IsAncestor(live: set<T.Act>, top: T.Act, c: T.Act, a: T.Act)
    requires T.IsTree(live, top) && a in live
    decreases a.level
  {
    a.caller in live && (a.caller == c || IsAncestor(live, top, c, a.caller))
  }

  lemma {:induction false} AncestorIsAbove(live: set<T.Act>, top: T.Act, place: Places, c: T.Act, a: T.Act)
    requires Nested(live, top, place) && a in live && IsAncestor(live, top, c, a)
    ensures c in live && c.level < a.level && P.Within(place[a], place[c]) && T.Kids(live, c) != {}
    decreases a.level
  {
    assert InCaller(live, place, a);
    if a.caller == c {
      assert a in T.Kids(live, c);
    } else {
      AncestorIsAbove(live, top, place, c, a.caller);
    }
  }

  lemma CallerIsLive(live: set<T.Act>, top: T.Act, place: Places, a: T.Act)
    requires Nested(live, top, place) && a in live
    ensures a.level >= 1 && (a.level >= 2 <==> a.caller in live) && (a.level == 1 <==> a.caller == top)
    ensures a.caller in live ==> a.caller.level == a.level - 1 && P.Within(place[a], place[a.caller])
  {
    assert InCaller(live, place, a);
    if a.caller in live {
      assert a.caller.caller != null && a.caller.level == a.caller.caller.level + 1;
    }
  }

  lemma WithinApart(a: P.Place, b: P.Place, outer: P.Place)
    requires Apart(a, outer) && P.Within(b, outer)
    ensures Apart(a, b)
  {
  }

  lemma Swapped(a: P.Place, b: P.Place)
    ensures Apart(a, b) <==> Apart(b, a)
  {
  }

  /** Of two routines that share no branch, neither has a priority of the other. */
  lemma {:induction false} BranchesAreApart(live: set<T.Act>, top: T.Act, place: Places, a: T.Act, b: T.Act)
    requires Nested(live, top, place) && a in live && b in live && a != b && a.level <= b.level
    requires !IsAncestor(live, top, a, b)
    ensures Apart(place[a], place[b])
    decreases a.level + b.level
  {
    CallerIsLive(live, top, place, a);
    CallerIsLive(live, top, place, b);
    if a.level < b.level || a.caller != b.caller {
      hide Apart, P.Within, InCaller;
      var c := b.caller;
      if a.level < b.level {
        BranchesAreApart(live, top, place, a, c);
      } else if IsAncestor(live, top, c, a) {
        AncestorIsAbove(live, top, place, c, a.caller);
        assert false;
      } else {
        BranchesAreApart(live, top, place, c, a);
        Swapped(place[c], place[a]);
      }
      WithinApart(place[a], place[b], place[c]);
    }
  }

  /** The places that a routine without children gives to the routines it forks. */
  ghost predicate ForkedBy(c: T.Act, at: P.Place, k: nat, kids: seq<T.Act>, place: Places) {
    && k <= at.depth && |kids| <= Pow2(k) && at.priority + Pow2(at.depth) <= P.PRIORITIES
    && (forall i, j :: 0 <= i < j < |kids| ==> kids[i] != kids[j])
    && (forall i :: 0 <= i < |kids| ==>
          && kids[i].caller == c && kids[i].level == c.level + 1 && kids[i] in place
          && place[kids[i]] == P.Place(P.ChildPriority(at.priority, at.depth - k, i), at.depth - k))
  }

  function Offset(i: nat, step: nat): nat {
    i * step
  }

  lemma OffsetsApart(i: nat, j: nat, step: nat)
    requires i < j
    ensures Offset(i, step) + step <= Offset(j, step)
  {
    P.Multiples(i, j, step);
  }

  lemma ChildSpan(at: P.Place, k: nat, i: nat)
    requires k <= at.depth && i < Pow2(k) && at.priority + Pow2(at.depth) <= P.PRIORITIES
    ensures P.ChildPriority(at.priority, at.depth - k, i) == at.priority + Offset(i, Pow2(at.depth - k))
    ensures Offset(i, Pow2(at.depth - k)) + Pow2(at.depth - k) <= Pow2(at.depth)
  {
    hide P.ChildPriority, Pow2;
    P.ChildIsWithin(at.priority, at.depth, k, i);
  }

  lemma SiblingsAreApart(c: T.Act, at: P.Place, k: nat, kids: seq<T.Act>, place: Places, i: nat, j: nat)
    requires ForkedBy(c, at, k, kids, place) && i < |kids| && j < |kids|
    ensures P.Within(place[kids[i]], at) && (i < j ==> P.Before(place[kids[i]], place[kids[j]]))
  {
    hide P.ChildPriority, Pow2, Offset;
    ChildSpan(at, k, i);
    ChildSpan(at, k, j);
    if i < j {
      OffsetsApart(i, j, Pow2(at.depth - k));
    }
  }

  /** Forking keeps the priorities nested. */
  lemma ForkKeepsNested(live: set<T.Act>, top: T.Act, place: Places, c: T.Act, k: nat, kids: seq<T.Act>, place': Places)
    requires Nested(live, top, place) && c in live && T.Kids(live, c) == {}
    requires forall b :: b in kids ==> b !in live && b != top
    requires forall a :: a in live ==> a in place' && place'[a] == place[a]
    requires ForkedBy(c, place[c], k, kids, place')
    ensures Nested(live + (set b | b in kids), top, place')
  {
    var all := live + (set b | b in kids);
    hide P.Within, P.Before, P.ChildPriority;
    forall a | a in all ensures InCaller(all, place', a) && (a in live ==> a.caller != c) {
      if a in live {
        assert InCaller(live, place, a) && a !in T.Kids(live, c);
        assert a.caller != null && (a.caller in live || a.caller == top);
      } else {
        var i :| 0 <= i < |kids| && kids[i] == a;
        SiblingsAreApart(c, place[c], k, kids, place', i, i);
      }
    }
    forall a, b | a in all && b in all && a != b && a.caller == b.caller ensures Apart(place'[a], place'[b]) {
      if a !in live && b !in live {
        var i :| 0 <= i < |kids| && kids[i] == a;
        var j :| 0 <= j < |kids| && kids[j] == b;
        SiblingsAreApart(c, place[c], k, kids, place', i, j);
        SiblingsAreApart(c, place[c], k, kids, place', j, i);
      }
    }
  }

  /** Whoever has a larger priority number than a routine without children is behind all its priorities. */
  lemma LargerIsBehind(live: set<T.Act>, top: T.Act, place: Places, c: T.Act, b: T.Act)
    requires Nested(live, top, place) && c in live && T.Kids(live, c) == {} && b in live
    requires place[c].priority < place[b].priority
    ensures P.Before(place[c], place[b])
  {
    if IsAncestor(live, top, b, c) {
      AncestorIsAbove(live, top, place, b, c);
    } else if IsAncestor(live, top, c, b) {
      AncestorIsAbove(live, top, place, c, b);
    } else if c.level <= b.level {
      BranchesAreApart(live, top, place, c, b);
    } else {
      BranchesAreApart(live, top, place, b, c);
    }
  }

  lemma {:induction false} StageIsWithin(live: set<T.Act>, top: T.Act, act: T.Act, done: set<T.Act>, place: Places,
                                         k: nat)
    requires Nested(live, top, place) && act in live && T.Kids(live, act) == {}
    requires k < |Stages(live, top, act, done)|
    ensures var stage := Stages(live, top, act, done)[k];
      && Nested(stage.live, top, place) && stage.act in stage.live && T.Kids(stage.live, stage.act) == {}
      && stage.live <= live && P.Within(place[act], place[stage.act])
    decreases act.level
  {
    T.Shrunk(live, top, act);
    assert InCaller(live, place, act);
    var rest, parent := T.Without(live, act), act.caller;
    if k > 0 {
      forall a | a in rest ensures InCaller(rest, place, a) {
        assert InCaller(live, place, a);
      }
      if parent in done {
        StageIsWithin(rest, top, parent, done, place, k - 1);
      }
    }
  }

  // ---------- what they wake ----------

  /** The routines have the priorities of their places. */
  ghost predicate Placed<X>(env: I.Env<T.Act, X>, live: set<T.Act>, place: Places) {
    live <= place.Keys && live <= env.prio.Keys && forall a :: a in live ==> env.prio[a] == place[a].priority
  }

  lemma PlacedFewer<X>(env: I.Env<T.Act, X>, live: set<T.Act>, some: set<T.Act>, place: Places, a: T.Act)
    requires Placed(env, live, place) && some <= live && a in live
    ensures Placed(env, some, place) && a in place && a in env.prio && env.prio[a] == place[a].priority
  {
  }

  /** Only routines that have not left are sensitive to anything. */
  ghost predicate Tidy<V, X>(env: I.Env<T.Act, X>, s: I.State<V, T.Act, X>, live: set<T.Act>) {
    forall t :: t in s.attached && t in env.owner ==> env.owner[t] in live
  }

  /** From state `s`, the calls are made in stages, from stage k on: each is made by the routine of its
      stage, when the triggers of those that have left are off, and activates routines below `a` only. */
  ghost predicate InStages<V, X>(env: I.Env<T.Act, X>, s: I.State<V, T.Act, X>, a: T.Act,
                                 cs: seq<I.Request<V, T.Act, X>>, stages: seq<Stage>, k: nat, strict: bool)
    requires a in env.prio
    decreases |cs|, |stages| - k
  {
    cs != [] && I.Admissible(env, s, cs[0]) && I.CallThrow(env, s, cs[0].a, cs[0].c).Ok? ==>
      && k < |stages|
      && (InStages(env, s, a, cs, stages, k + 1, strict) ||
          (&& cs[0].a == stages[k].act && Tidy(env, s, stages[k].live)
           && (cs[0].c.Activate? ==> I.Below(env, a, cs[0].c.a, strict))
           && InStages(env, I.DoCommand(env, s, cs[0].a, cs[0].c), a, cs[1..], stages, k, strict)))
  }

  /** One call of a resumed caller. */
  lemma CallWakes<V, X>(env: I.Env<T.Act, X>, s: I.State<V, T.Act, X>, a: T.Act, q: I.Request<V, T.Act, X>,
                        stage: Stage, top: T.Act, place: Places, strict: bool)
    requires I.Admissible(env, s, q) && a in env.prio && a in place && env.prio[a] == place[a].priority
    requires Nested(stage.live, top, place) && stage.act in stage.live && T.Kids(stage.live, stage.act) == {}
    requires Placed(env, stage.live, place) && P.Within(place[a], place[stage.act])
    requires q.a == stage.act && Tidy(env, s, stage.live)
    requires q.c.Activate? ==> I.Below(env, a, q.c.a, strict)
    ensures forall b :: b in I.DoCommand(env, s, q.a, q.c).runnable ==> b in s.runnable || I.Below(env, a, b, strict)
  {
    if q.c.Assign? {
      forall b | b in I.Sensitive(env, s, q.c.v) && b in env.prio && env.prio[b] > env.prio[q.a]
        ensures env.prio[a] < env.prio[b]
      {
        LargerIsBehind(stage.live, top, place, stage.act, b);
      }
    }
  }

  /** A step in which the routine leaves, with all the callers that are resumed on the way, makes
      runnable only routines behind the one whose turn it is. */
  lemma {:induction false} LeavingIsDownward<V, X>(env: I.Env<T.Act, X>, s: I.State<V, T.Act, X>, a: T.Act,
                                                   cs: seq<I.Request<V, T.Act, X>>, live: set<T.Act>, top: T.Act,
                                                   done: set<T.Act>, place: Places, k: nat, strict: bool)
    requires Nested(live, top, place) && Placed(env, live, place) && a in live && T.Kids(live, a) == {}
    requires InStages(env, s, a, cs, Stages(live, top, a, done), k, strict)
    ensures I.Downward(env, s, a, cs, strict)
    decreases |cs|, |Stages(live, top, a, done)| - k
  {
    var stages := Stages(live, top, a, done);
    hide Stages, Nested, Placed, Tidy, T.Kids, I.Admissible, I.CallThrow, I.DoCommand, P.Within, I.Below;
    if cs != [] && I.Admissible(env, s, cs[0]) && I.CallThrow(env, s, cs[0].a, cs[0].c).Ok? {
      if InStages(env, s, a, cs, stages, k + 1, strict) {
        LeavingIsDownward(env, s, a, cs, live, top, done, place, k + 1, strict);
      } else {
        StageIsWithin(live, top, a, done, place, k);
        PlacedFewer(env, live, stages[k].live, place, a);
        CallWakes(env, s, a, cs[0], stages[k], top, place, strict);
        LeavingIsDownward(env, I.DoCommand(env, s, cs[0].a, cs[0].c), a, cs[1..], live, top, done, place, k, strict);
      }
    }
  }

  // ---------- whole instants ----------

  /** The routines at some moment, where their priorities are, and which are done. */
  datatype Forest = Forest(live: set<T.Act>, top: T.Act, place: Places, done: set<T.Act>)

  type Layout<!V, !X> = I.State<V, T.Act, X> -> Forest

  /** The routine leaves in this step, and its calls are those of the stages of leaving. */
  ghost predicate Leaves<V, X>(env: I.Env<T.Act, X>, s: I.State<V, T.Act, X>, a: T.Act,
                               cs: seq<I.Request<V, T.Act, X>>, f: Forest, strict: bool)
    requires a in env.prio
  {
    && Nested(f.live, f.top, f.place) && Placed(env, f.live, f.place) && a in f.live && T.Kids(f.live, a) == {}
    && InStages(env, s, a, cs, Stages(f.live, f.top, a, f.done), 0, strict)
  }

  /** In every step the routine leaves, or it only makes runnable what is below it. */
  ghost predicate JoinedRun<V, X>(env: I.Env<T.Act, X>, program: I.Program<V, T.Act, X>, layout: Layout<V, X>,
                                  s: I.State<V, T.Act, X>, fuel: nat, strict: bool)
    decreases fuel
  {
    s.runnable != {} && fuel > 0 && I.Unambiguous(env, s.runnable) ==>
      var a := I.First(env, s.runnable);
      var s0 := s.(runnable := s.runnable - {a});
      var cs := program(a, I.ViewOf(s0));
      var step := I.RunStep(env, s0, a, cs);
      && (Leaves(env, s0, a, cs, layout(s), strict) || I.Downward(env, s0, a, cs, strict))
      && (step.status == I.Done ==> JoinedRun(env, program, layout, step.state, fuel - 1, strict))
  }

  lemma {:induction false} JoinedRunIsDownward<V, X>(env: I.Env<T.Act, X>, program: I.Program<V, T.Act, X>,
                                                     layout: Layout<V, X>, s: I.State<V, T.Act, X>, fuel: nat,
                                                     strict: bool)
    requires JoinedRun(env, program, layout, s, fuel, strict)
    ensures I.DownwardRun(env, program, s, fuel, strict)
    decreases fuel
  {
    if s.runnable != {} && fuel > 0 && I.Unambiguous(env, s.runnable) {
      var a := I.First(env, s.runnable);
      var s0 := s.(runnable := s.runnable - {a});
      var cs := program(a, I.ViewOf(s0));
      var step := I.RunStep(env, s0, a, cs);
      var f := layout(s);
      hide I.Downward, I.RunStep, InStages, Stages, Nested, Placed;
      if Leaves(env, s0, a, cs, f, strict) {
        LeavingIsDownward(env, s0, a, cs, f.live, f.top, f.done, f.place, 0, strict);
      }
      if step.status == I.Done {
        JoinedRunIsDownward(env, program, layout, step.state, fuel - 1, strict);
      }
    }
  }

  /** Also with routines that leave and are joined by their callers, a tick runs its routines in the order
      of their priorities. */
  lemma JoinedOrder<V, X>(env: I.Env<T.Act, X>, program: I.Program<V, T.Act, X>, layout: Layout<V, X>,
                          s: I.State<V, T.Act, X>, fuel: nat, strict: bool)
    requires s.runnable <= env.prio.Keys && forall t :: t in env.owner ==> env.owner[t] in env.prio
    requires JoinedRun(env, program, layout, I.ApplyDue(env, I.Advance(s)), fuel, strict)
    ensures I.Ascending(env, I.Tick(env, program, s, fuel).order, strict)
  {
    var s' := I.ApplyDue(env, I.Advance(s));
    assert s'.runnable <= env.prio.Keys;
    hide JoinedRun, I.DownwardRun, I.ApplyDue, I.Advance, I.RunActs, I.TickThrow;
    JoinedRunIsDownward(env, program, layout, s', fuel, strict);
    I.InstantOrder(env, program, s', fuel, strict, -1);
  }

  /** If moreover everything is woken strictly downward, the tick ends and runs no routine twice. */
  lemma JoinedTick<V, X>(env: I.Env<T.Act, X>, program: I.Program<V, T.Act, X>, layout: Layout<V, X>,
                         s: I.State<V, T.Act, X>, fuel: nat)
    requires fuel >= |env.prio|
    requires s.runnable <= env.prio.Keys && forall t :: t in env.owner ==> env.owner[t] in env.prio
    requires JoinedRun(env, program, layout, I.ApplyDue(env, I.Advance(s)), fuel, true)
    ensures I.Tick(env, program, s, fuel).status != I.OutOfFuel
    ensures var order := I.Tick(env, program, s, fuel).order;
      I.Ascending(env, order, true) && forall i, j :: 0 <= i < j < |order| ==> order[i] != order[j]
  {
    hide JoinedRun, I.DownwardRun, I.Tick, I.Ascending;
    JoinedRunIsDownward(env, program, layout, I.ApplyDue(env, I.Advance(s)), fuel, true);
    I.OncePerInstant(env, program, s, fuel);
  }
}
