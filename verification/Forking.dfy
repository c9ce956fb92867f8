/** Programs that share out their priorities by forking.

    A first child has its parent's priority, so two routines can share one. What counts is that the
    routines that are runnable together are leaves of the fork tree. */
module Forking {
  import opened Prelude
  import I = Instant
  import P = PriorityTree

  /** The fork tree at some moment, and where in it the routines are. */
  datatype Forks<A(==)> = Forks(tree: P.Routine, place: map<A, seq<nat>>)

  ghost predicate IsLeafAt(prio: nat, tree: P.Routine, path: seq<nat>)
    requires P.Fits(tree, P.ROOT_DEPTH)
  {
    && P.IsLeafPath(tree, path) && P.IsPath(tree, path)
    && prio == P.PlaceOf(tree, P.ROOT_PRIORITY, P.ROOT_DEPTH, path).priority
  }

  /** The routines are different leaves of the tree and have the priorities of their places. */
  ghost predicate AreLeaves<A, T>(env: I.Env<A, T>, acts: set<A>, forks: Forks<A>) {
    && P.Fits(forks.tree, P.ROOT_DEPTH) && acts <= forks.place.Keys && acts <= env.prio.Keys
    && (forall a :: a in acts ==> IsLeafAt(env.prio[a], forks.tree, forks.place[a]))
    && (forall a, b :: a in acts && b in acts && a != b ==> forks.place[a] != forks.place[b])
  }

  /** Leaves have different priorities. */
  lemma LeavesAreDistinct<A, T>(env: I.Env<A, T>, acts: set<A>, forks: Forks<A>)
    requires AreLeaves(env, acts, forks)
    ensures I.Distinct(env, acts)
  {
    forall a, b | a in acts && b in acts && a != b ensures env.prio[a] != env.prio[b] {
      P.LeavesAreDistinct(forks.tree, forks.place[a], forks.place[b]);
    }
  }

  /** The fork tree as it is in each state. */
  type Layout<!V, !A, !T> = I.State<V, A, T> -> Forks<A>

  /** In every state of a run, only routines without live children are runnable. */
  ghost predicate ForkedRun<V, A, T>(env: I.Env<A, T>, program: I.Program<V, A, T>, layout: Layout<V, A, T>,
                                     s: I.State<V, A, T>, fuel: nat)
    decreases fuel
  {
    s.runnable != {} && fuel > 0 ==>
      && AreLeaves(env, s.runnable, layout(s))
      && (I.Unambiguous(env, s.runnable) ==>
            var a := I.First(env, s.runnable);
            var s0 := s.(runnable := s.runnable - {a});
            var step := I.RunStep(env, s0, a, program(a, I.ViewOf(s0)));
            step.status == I.Done ==> ForkedRun(env, program, layout, step.state, fuel - 1))
  }

  lemma {:induction false} ForkedRunIsDistinct<V, A, T>(env: I.Env<A, T>, program: I.Program<V, A, T>,
                                                        layout: Layout<V, A, T>,
                                                        s: I.State<V, A, T>, fuel: nat)
    requires ForkedRun(env, program, layout, s, fuel)
    ensures I.DistinctRun(env, program, s, fuel)
    decreases fuel
  {
    if s.runnable != {} && fuel > 0 {
      LeavesAreDistinct(env, s.runnable, layout(s));
      if I.Unambiguous(env, s.runnable) {
        var a := I.First(env, s.runnable);
        var s0 := s.(runnable := s.runnable - {a});
        var step := I.RunStep(env, s0, a, program(a, I.ViewOf(s0)));
        if step.status == I.Done {
          ForkedRunIsDistinct(env, program, layout, step.state, fuel - 1);
        }
      }
    }
  }

  /** If priorities are shared out by forking and only routines without live children are runnable,
      which routine runs next is never in doubt. */
  lemma ForkedTickUnambiguous<V, A, T>(env: I.Env<A, T>, program: I.Program<V, A, T>, layout: Layout<V, A, T>,
                                       s: I.State<V, A, T>, fuel: nat)
    requires I.Named(env, s) && ForkedRun(env, program, layout, I.ApplyDue(env, I.Advance(s)), fuel)
    ensures I.Tick(env, program, s, fuel).status != I.Ambiguous
  {
    ForkedRunIsDistinct(env, program, layout, I.ApplyDue(env, I.Advance(s)), fuel);
    I.TickUnambiguous(env, program, s, fuel);
  }

  // ---------- a parent and its first child ----------

  const LEAF := P.Routine(0, [])

  const FORK := P.Routine(1, [LEAF, LEAF])

  /** Routine 0 forks routines 1 and 2; it shares its priority with routine 1. When routine 2, the last
      child, leaves, routine 0 is resumed inside its step. */
  const FORK_ENV: I.Env<nat, nat> := I.Env(map[0 := 0, 1 := 0, 2 := 0x8000_0000], map[], 0, 3)

  function ForkProgram(a: nat, view: I.View<nat, nat>): seq<I.Request<nat, nat, nat>> {
    if a == 0 then [I.By(0, I.Activate(1)), I.By(0, I.Activate(2))]
    else if a == 2 then [I.By(0, I.SetPc(1))]
    else []
  }

  function ForkLayout(s: I.State<nat, nat, nat>): Forks<nat> {
    if 0 in s.runnable then Forks(LEAF, map[0 := []]) else Forks(FORK, map[1 := [0], 2 := [1]])
  }

  function Runnable(acts: set<nat>): I.State<nat, nat, nat> {
    I.State(0, map[], acts, map[], map[])
  }

  lemma ForkPlaces()
    ensures P.Fits(LEAF, P.ROOT_DEPTH) && P.Fits(FORK, P.ROOT_DEPTH)
    ensures IsLeafAt(0, LEAF, []) && IsLeafAt(0, FORK, [0]) && IsLeafAt(0x8000_0000, FORK, [1])
  {
    P.RootOwnsAll();
    assert Pow2(32) == 2 * Pow2(31) && Pow2(1) == 2;
    assert [0][1..] == [] && [1][1..] == [];
    assert P.ChildPriority(0, 31, 1) == 0x8000_0000;
  }

  lemma ForkLeaves(acts: set<nat>)
    requires acts == {0} || acts == {1, 2} || acts == {2}
    ensures AreLeaves(FORK_ENV, acts, ForkLayout(Runnable(acts)))
  {
    ForkPlaces();
    hide IsLeafAt, P.Fits;
  }

  /** Routine 0 has been resumed by its last child and has moved on. */
  const JOINED := Runnable({}).(pcs := map[0 := 1])

  function AfterTurn(a: nat): I.State<nat, nat, nat> {
    if a == 0 then Runnable({1, 2}) else if a == 1 then Runnable({2}) else JOINED
  }

  /** Routine 0 forks. */
  lemma ForkStep()
    ensures I.RunStep(FORK_ENV, Runnable({}), 0, [I.By(0, I.Activate(1)), I.By(0, I.Activate(2))])
         == I.Run(Runnable({1, 2}), [0], I.Done)
  {
    var first: I.Request<nat, nat, nat>, second: I.Request<nat, nat, nat> :=
      I.By(0, I.Activate(1)), I.By(0, I.Activate(2));
    assert {} + {1} == {1} && {1} + {2} == {1, 2};
    assert I.Pending(Runnable({1})) == {} && I.Pending(Runnable({1, 2})) == {};
    assert [first, second][1..] == [second] && [second][1..] == [];
    assert I.DoCommand(FORK_ENV, Runnable({1}), 0, second.c) == Runnable({1, 2});
    assert I.RunStep(FORK_ENV, Runnable({1}), 0, [second]) == I.Run(Runnable({1, 2}), [0], I.Done);
  }

  /** In the step of routine 2, routine 0 makes a call. */
  lemma JoinStep()
    ensures I.RunStep(FORK_ENV, Runnable({}), 2, [I.By(0, I.SetPc(1))]) == I.Run(JOINED, [2], I.Done)
  {
    var call: I.Request<nat, nat, nat> := I.By(0, I.SetPc(1));
    assert [call][1..] == [];
    assert I.Pending(JOINED) == {};
    assert I.DoCommand(FORK_ENV, Runnable({}), 0, call.c) == JOINED;
  }

  /** The lone runnable routine, or the first of the two, takes its step. */
  lemma ForkTurn(acts: set<nat>, a: nat)
    requires (acts == {0} && a == 0) || (acts == {1, 2} && a == 1) || (acts == {2} && a == 2)
    ensures I.Unambiguous(FORK_ENV, acts) && I.First(FORK_ENV, acts) == a
    ensures var s0 := Runnable(acts - {a});
      I.RunStep(FORK_ENV, s0, a, ForkProgram(a, I.ViewOf(s0))) == I.Run(AfterTurn(a), [a], I.Done)
  {
    assert I.IsFirst(FORK_ENV, acts, a);
    if a == 1 {
      assert acts - {a} == {2};
    } else {
      assert acts - {a} == {};
      ForkStep();
      JoinStep();
    }
  }

  lemma {:induction false} ForkedFrom(acts: set<nat>, a: nat, fuel: nat)
    requires (acts == {0} && a == 0) || (acts == {1, 2} && a == 1) || (acts == {2} && a == 2)
    ensures ForkedRun(FORK_ENV, ForkProgram, ForkLayout, Runnable(acts), fuel)
    decreases fuel
  {
    if fuel > 0 {
      ForkLeaves(acts);
      ForkTurn(acts, a);
      if a < 2 {
        ForkedFrom(AfterTurn(a).runnable, a + 1, fuel - 1);
      }
    }
  }

  /** Sharing a priority with a first child does no harm: in the run of this program a parent and its
      first child have the same priority, and its routines are leaves whenever they are runnable. */
  lemma ForkedRunWithSharedPriority(fuel: nat)
    ensures FORK_ENV.prio[0] == FORK_ENV.prio[1]
    ensures ForkedRun(FORK_ENV, ForkProgram, ForkLayout, Runnable({0}), fuel)
    ensures I.RunActs(FORK_ENV, ForkProgram, Runnable({0}), fuel).status != I.Ambiguous
  {
    ForkedFrom({0}, 0, fuel);
    ForkedRunIsDistinct(FORK_ENV, ForkProgram, ForkLayout, Runnable({0}), fuel);
    I.ActsUnambiguous(FORK_ENV, ForkProgram, Runnable({0}), fuel);
  }
}
