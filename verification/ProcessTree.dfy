/** The tree of routines. Entering a routine counts it in its caller, leaving takes it off, and a
    caller whose last child has left is resumed at once, inside the child's leaving. */
module ProcessTree {
  import opened Prelude

  const COUNT_RANGE: nat := 0x1_0000

  type ChildCount = n: nat | n < 0x1_0000

  /** The tree-related part of an activation record. The caller is set when the record is made. */
  class Act {
    const caller: Act?
    ghost const level: nat
    var children: nat

    constructor (caller: Act?)
      ensures this.caller == caller && children == 0
      ensures level == if caller == null then 0 else caller.level + 1
    {
      this.caller, children := caller, 0;
      level := if caller == null then 0 else caller.level + 1;
    }
  }

  ghost function Kids(live: set<Act>, p: Act): set<Act> {
    set a | a in live && a.caller == p
  }

  ghost predicate IsTree(live: set<Act>, top: Act) {
    && top !in live && top.level == 0
    && forall a :: a in live ==>
         a.caller != null && (a.caller in live || a.caller == top) && a.level == a.caller.level + 1
  }

  /** No routine has more live children than its 16-bit count can hold. */
  ghost predicate Countable(live: set<Act>, top: Act) {
    |Kids(live, top)| < COUNT_RANGE && forall p :: p in live ==> |Kids(live, p)| < COUNT_RANGE
  }

  /** What a record's 16-bit count holds. */
  ghost function Count(live: set<Act>, p: Act): nat {
    |Kids(live, p)| % COUNT_RANGE
  }

  /** The count is the number of live children if and only if that number has sixteen bits. */
  lemma CountIsExactIff(live: set<Act>, p: Act)
    ensures Count(live, p) == |Kids(live, p)| <==> |Kids(live, p)| < Pow2(16)
  {
    WordSizes();
  }

  ghost function Size(live: set<Act>): nat {
    |live|
  }

  /** 16-bit increment and decrement. */
  function Inc(n: nat): nat { (n + 1) % COUNT_RANGE }

  function Dec(n: nat): nat { (n + COUNT_RANGE - 1) % COUNT_RANGE }

  lemma Wraps(n: nat)
    ensures Inc(n % COUNT_RANGE) == (n + 1) % COUNT_RANGE
    ensures n > 0 ==> Dec(n % COUNT_RANGE) == (n - 1) % COUNT_RANGE
    ensures n < COUNT_RANGE ==> n % COUNT_RANGE == n
  {
  }

  lemma KidsOfMore(live: set<Act>, a: Act, p: Act)
    requires a !in live
    ensures a.caller != p ==> Kids(live + {a}, p) == Kids(live, p)
    ensures a.caller == p ==> Kids(live + {a}, p) == Kids(live, p) + {a} && a !in Kids(live, p)
    ensures Count(live + {a}, p) == if a.caller == p then Inc(Count(live, p)) else Count(live, p)
  {
    if a.caller == p {
      assert Kids(live + {a}, p) == Kids(live, p) + {a};
      Wraps(|Kids(live, p)|);
    } else {
      assert Kids(live + {a}, p) == Kids(live, p);
    }
  }

  /** The routines once `a` has left. */
  ghost function Without(live: set<Act>, a: Act): set<Act> {
    live - {a}
  }

  lemma KidsOfFewer(live: set<Act>, a: Act, p: Act)
    requires a in live
    ensures Kids(Without(live, a), p) <= Kids(live, p)
    ensures a.caller != p ==> Kids(Without(live, a), p) == Kids(live, p)
    ensures Count(Without(live, a), p) == if a.caller == p then Dec(Count(live, p)) else Count(live, p)
  {
    if a.caller == p {
      assert a in Kids(live, p) && Kids(Without(live, a), p) == Kids(live, p) - {a};
      Wraps(|Kids(live, p)|);
    } else {
      assert Kids(Without(live, a), p) == Kids(live, p);
    }
  }

  lemma NoKids(live: set<Act>, p: Act)
    requires forall a :: a in live ==> a.caller != p
    ensures Count(live, p) == 0
  {
    assert Kids(live, p) == {};
  }

  /** The routines once `a` has joined. */
  ghost function With(live: set<Act>, a: Act): set<Act> {
    live + {a}
  }

  lemma More(live: set<Act>, a: Act)
    requires a !in live
    ensures Size(With(live, a)) == Size(live) + 1
    ensures forall x :: x in With(live, a) <==> x in live || x == a
  {
  }

  lemma Grown(live: set<Act>, top: Act, act: Act)
    requires IsTree(live, top) && act !in live && act != top && act.caller != null && act.level == act.caller.level + 1
    requires act.caller in live || act.caller == top
    ensures IsTree(With(live, act), top) && Count(With(live, act), act) == 0
    ensures Size(With(live, act)) == Size(live) + 1
    ensures forall x :: x in With(live, act) <==> x in live || x == act
    ensures Count(With(live, act), act.caller) == Inc(Count(live, act.caller))
    ensures forall p :: (p in live || p == top) && p != act.caller ==> Count(With(live, act), p) == Count(live, p)
  {
    More(live, act);
    NoKids(With(live, act), act);
    forall p | p in live || p == top
      ensures Count(With(live, act), p) == if p == act.caller then Inc(Count(live, p)) else Count(live, p)
    {
      hide Count, Inc, Dec, Kids;
      KidsOfMore(live, act, p);
    }
  }

  lemma Fewer(live: set<Act>, a: Act)
    requires a in live
    ensures Size(Without(live, a)) == Size(live) - 1 && Size(live) > 0
    ensures forall x :: x in Without(live, a) <==> x in live && x != a
  {
  }

  lemma SmallCount(live: set<Act>, p: Act)
    requires |Kids(live, p)| < COUNT_RANGE
    ensures Count(live, p) == 0 <==> Kids(live, p) == {}
  {
    Wraps(|Kids(live, p)|);
  }

  lemma Shrunk(live: set<Act>, top: Act, act: Act)
    requires IsTree(live, top) && act in live && Kids(live, act) == {}
    ensures act.caller != null && (act.caller in Without(live, act) || act.caller == top) &&
      act.level == act.caller.level + 1
    ensures IsTree(Without(live, act), top) && Size(Without(live, act)) == Size(live) - 1
    ensures Count(Without(live, act), act.caller) == Dec(Count(live, act.caller))
    ensures forall p :: (p in live || p == top) && p != act.caller ==> Count(Without(live, act), p) == Count(live, p)
  {
    assert forall a :: a in live && a.caller == act ==> a in Kids(live, act);
    Fewer(live, act);
    hide Size, Count, Inc, Dec, Kids, Without;
    forall p | p in live || p == top { KidsOfFewer(live, act, p); }
  }

  lemma StaysCountable(live: set<Act>, top: Act, act: Act)
    requires IsTree(live, top) && act in live && Countable(live, top)
    ensures Countable(Without(live, act), top)
    ensures Count(Without(live, act), act.caller) == 0 <==> Kids(Without(live, act), act.caller) == {}
  {
    hide Count, Inc, Dec, Kids;
    forall p | p in live || p == top ensures |Kids(Without(live, act), p)| < COUNT_RANGE {
      KidsOfFewer(live, act, p);
      SubsetSize(Kids(Without(live, act), p), Kids(live, p));
    }
    SmallCount(Without(live, act), act.caller);
  }

  /** What is left of the tree once a routine has left, and the callers resumed on the way. */
  ghost function Cascade(live: set<Act>, top: Act, act: Act, done: set<Act>): (set<Act>, seq<Act>)
    requires IsTree(live, top) && act in live && Kids(live, act) == {}
    decreases act.level
  {
    Shrunk(live, top, act);
    var rest, parent := Without(live, act), act.caller;
    if Kids(rest, parent) != {} then (rest, [])
    else if parent == top || parent !in done then (rest, [parent])
    else
      var (left, more) := Cascade(rest, top, parent, done);
      (left, [parent] + more)
  }

  /** Exactly the callers that lose their last child are resumed, and exactly those of them that are
      done leave as well; there is at most one per level of the tree. */
  lemma {:induction false} CascadeIsExact(live: set<Act>, top: Act, act: Act, done: set<Act>)
    requires IsTree(live, top) && act in live && Kids(live, act) == {}
    ensures var (left, resumed) := Cascade(live, top, act, done);
      && left <= live && IsTree(left, top)
      && (forall a :: a in live ==> (a !in left <==> a == act || (a != top && a in resumed && a in done)))
      && (forall p :: p in live || p == top ==> (p in resumed <==> Kids(live, p) != {} && Kids(left, p) == {}))
      && (forall p :: p in resumed ==> p in live || p == top)
      && |resumed| <= act.level
    decreases act.level
  {
    Shrunk(live, top, act);
    var rest, parent := Without(live, act), act.caller;
    assert act in Kids(live, parent);
    forall p | p in live || p == top ensures p != parent ==> Kids(rest, p) == Kids(live, p) {
      KidsOfFewer(live, act, p);
    }
    if Kids(rest, parent) == {} && parent != top && parent in done {
      CascadeIsExact(rest, top, parent, done);
      var (left, more) := Cascade(rest, top, parent, done);
      assert forall p :: Kids(left, p) <= Kids(rest, p);
    }
  }

  /** How many routines the last of the resumed ones enters, if it does not leave. */
  function Reborn(resumed: seq<Act>, top: Act, done: set<Act>, again: Act -> ChildCount): nat {
    if resumed == [] then 0
    else
      var last := resumed[|resumed| - 1];
      if last == top || last in done then 0 else again(last)
  }

  /** The outcome of leaving: what is left of the tree and what has been entered anew. */
  ghost predicate HasLeft(was: set<Act>, top: Act, act: Act, done: set<Act>, again: Act -> ChildCount,
                          live: set<Act>, resumed: seq<Act>, born: set<Act>)
    requires IsTree(was, top) && act in was && Kids(was, act) == {}
  {
    && live == Cascade(was, top, act, done).0 + born && resumed == Cascade(was, top, act, done).1
    && |born| == Reborn(resumed, top, done, again)
    && forall b :: b in born ==> resumed != [] && b.caller == resumed[|resumed| - 1]
  }

  /** The caller, if it is resumed, stays, and enters the routines `born`. */
  lemma CallerStays(was: set<Act>, top: Act, act: Act, done: set<Act>, again: Act -> ChildCount, born: set<Act>)
    requires IsTree(was, top) && act in was && Kids(was, act) == {} && act.caller != null
    requires Kids(Without(was, act), act.caller) != {} || act.caller == top || act.caller !in done
    requires |born| == if Kids(Without(was, act), act.caller) != {} || act.caller == top then 0 else again(act.caller)
    requires forall b :: b in born ==> b.caller == act.caller
    ensures HasLeft(was, top, act, done, again, Without(was, act) + born,
                    if Kids(Without(was, act), act.caller) != {} then [] else [act.caller], born)
  {
  }

  /** The caller is resumed and leaves too. */
  lemma CallerLeaves(was: set<Act>, top: Act, act: Act, done: set<Act>, again: Act -> ChildCount,
                     live: set<Act>, more: seq<Act>, born: set<Act>)
    requires IsTree(was, top) && act in was && Kids(was, act) == {} && act.caller != null
    requires Kids(Without(was, act), act.caller) == {} && act.caller != top && act.caller in done
    requires IsTree(Without(was, act), top) && act.caller in Without(was, act)
    requires HasLeft(Without(was, act), top, act.caller, done, again, live, more, born)
    ensures HasLeft(was, top, act, done, again, live, [act.caller] + more, born)
  {
  }

  lemma GrownCountable(live: set<Act>, top: Act, a: Act)
    requires IsTree(live, top) && Countable(live, top) && a !in live && a != top && a.caller != null
    requires a.caller in live || a.caller == top
    requires |Kids(live, a.caller)| + 1 < COUNT_RANGE
    ensures Countable(With(live, a), top) && |Kids(With(live, a), a.caller)| == |Kids(live, a.caller)| + 1
  {
    assert Kids(With(live, a), a) == {};
    hide Kids, Count, Inc;
    KidsOfMore(live, a, a.caller);
    forall p | p in live || p == top ensures |Kids(With(live, a), p)| < COUNT_RANGE {
      KidsOfMore(live, a, p);
    }
  }

  lemma Joined(live: set<Act>, born: set<Act>, b: Act)
    requires b !in live + born
    ensures With(live + born, b) == live + With(born, b) && |With(born, b)| == |born| + 1
    ensures forall x :: x in With(born, b) <==> x in born || x == b
  {
  }

  /** The sum of the counts of a set of records. */
  ghost function SumOfCounts(live: set<Act>, ps: set<Act>): nat {
    if ps == {} then 0 else
      var p :| p in ps;
      |Kids(live, p)| + SumOfCounts(live, ps - {p})
  }

  ghost function KidsOfAny(live: set<Act>, ps: set<Act>): set<Act> {
    set a | a in live && a.caller != null && a.caller in ps
  }

  lemma {:induction false} SumIsKids(live: set<Act>, ps: set<Act>)
    ensures SumOfCounts(live, ps) == |KidsOfAny(live, ps)|
  {
    if ps == {} {
      assert KidsOfAny(live, ps) == {};
    } else {
      var p :| p in ps && SumOfCounts(live, ps) == |Kids(live, p)| + SumOfCounts(live, ps - {p});
      SumIsKids(live, ps - {p});
      var some, rest := Kids(live, p), KidsOfAny(live, ps - {p});
      assert KidsOfAny(live, ps) == some + rest && some !! rest;
    }
  }

  /** The counts of all routines and of the top record add up to the number of routines. */
  lemma CountsAddUp(live: set<Act>, top: Act)
    requires IsTree(live, top)
    ensures SumOfCounts(live, live + {top}) == |live|
  {
    SumIsKids(live, live + {top});
    assert KidsOfAny(live, live + {top}) == live;
  }

  class Runtime {
    const top: Act
    var numProcesses: nat
    ghost var live: set<Act>

    ghost predicate Valid()
      reads this, live, top
    {
      && IsTree(live, top) && numProcesses == Size(live)
      && top.children == Count(live, top)
      && forall p :: p in live ==> p.children == Count(live, p)
    }

    constructor ()
      ensures Valid() && live == {} && fresh(top)
    {
      top := new Act(null);
      numProcesses, live := 0, {};
    }

    method Enter(parent: Act) returns (act: Act)
      requires Valid() && (parent in live || parent == top)
      modifies this, parent
      ensures Valid() && fresh(act) && act.caller == parent
      ensures live == With(old(live), act) && numProcesses == old(numProcesses) + 1
    {
      act := new Act(parent);
      Grown(live, top, act);
      hide IsTree, Count, Inc, Dec, Size, Kids, With;
      parent.children := Inc(parent.children);
      numProcesses := numProcesses + 1;
      assert numProcesses == Size(live) + 1;
      ghost var was := live;
      live := With(was, act);
      assert act.children == Count(live, act) && parent.children == Count(live, parent);
      forall p | p in was || p == top ensures p.children == Count(live, p) {
        if p != parent { assert p.children == Count(was, p); }
      }
    }

    /** Enters n routines, one after the other. */
    method EnterMany(parent: Act, n: nat) returns (ghost born: set<Act>)
      requires Valid() && (parent in live || parent == top)
      requires Countable(live, top) && Kids(live, parent) == {} && n < COUNT_RANGE
      modifies this, parent
      ensures Valid() && Countable(live, top) && fresh(born) && |born| == n
      ensures live == old(live) + born && forall b :: b in born ==> b.caller == parent
    {
      hide IsTree, Count, Inc, Dec, Size, Kids, With, Countable;
      born := {};
      var i := 0;
      while i < n
        invariant i <= n && Valid() && Countable(live, top) && |Kids(live, parent)| == i
        invariant fresh(born) && |born| == i && live == old(live) + born && forall b :: b in born ==> b.caller == parent
        invariant parent in live || parent == top
      {
        ghost var was := live;
        var b := Enter(parent);
        GrownCountable(was, top, b);
        Joined(old(live), born, b);
        born := With(born, b);
        i := i + 1;
      }
    }

    /** Takes a routine without children off the tree; `last` if its caller has no others. */
    method Remove(act: Act) returns (last: bool)
      requires Valid() && act in live && Kids(live, act) == {} && Countable(live, top)
      requires act.caller != null
      modifies this, act.caller
      ensures Valid() && Countable(live, top) && live == Without(old(live), act)
      ensures last <==> Kids(live, act.caller) == {}
    {
      Shrunk(live, top, act);
      Fewer(live, act);
      StaysCountable(live, top, act);
      hide IsTree, Count, Inc, Dec, Size, Kids, Countable, Without;
      numProcesses := numProcesses - 1;
      var parent := act.caller;
      parent.children := Dec(parent.children);
      live := Without(live, act);
      last := parent.children == 0;
    }

    /** Takes a routine without children off the tree and resumes its caller if it was the last one.
        `done` are the routines whose step leaves when it is resumed; the step of another one enters
        as many children as `again` says. */
    method Leave(act: Act, done: set<Act>, again: Act -> ChildCount) returns (resumed: seq<Act>, ghost born: set<Act>)
      requires Valid() && act in live && Kids(live, act) == {} && Countable(live, top)
      modifies this, live, top
      decreases act.level
      ensures Valid() && Countable(live, top) && fresh(born)
      ensures HasLeft(old(live), top, act, done, again, live, resumed, born)
    {
      born, resumed := {}, [];
      ghost var was := live;
      Shrunk(live, top, act);
      hide IsTree, Count, Size, Kids, Countable, HasLeft, Without;
      var parent := act.caller;
      var last := Remove(act);
      assert live + {} == live;
      if last && parent != top && parent in done {
        resumed, born := Leave(parent, done, again);
        CallerLeaves(was, top, act, done, again, live, resumed, born);
        resumed := [parent] + resumed;
      } else {
        if last {
          resumed := [parent];
          if parent != top {
            born := EnterMany(parent, again(parent));
          }
        }
        CallerStays(was, top, act, done, again, born);
      }
    }
  }
}
