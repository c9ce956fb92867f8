/** How a routine shares out its priorities among the children it forks. A routine of priority p
    and depth d owns the priorities from p up to p + 2^d. To fork up to 2^k children it gives each
    the depth d - k and adds 2^(d - k) to the priority from one child to the next. */
module PriorityTree {
  import opened Prelude

  const PRIORITIES: nat := 0x1_0000_0000

  type Priority = p: nat | p < 0x1_0000_0000

  const ROOT_PRIORITY: Priority := 0
  const ROOT_DEPTH: nat := 32

  /** A routine and the children it has now; `split` is the number of depth levels it used up. */
  datatype Routine = Routine(split: nat, children: seq<Routine>)

  /** 32-bit addition. */
  function Add(p: Priority, q: nat): Priority {
    (p + q) % PRIORITIES
  }

  /** Each fork uses no more levels than it has, and has no more children than they allow. */
  predicate Fits(r: Routine, d: nat) {
    && r.split <= d && |r.children| <= Pow2(r.split)
    && forall i :: 0 <= i < |r.children| ==> Fits(r.children[i], d - r.split)
  }

  /** The priority of child `i`, reached by adding the increment child after child. */
  function ChildPriority(p: Priority, depth: nat, i: nat): Priority {
    if i == 0 then p else Add(ChildPriority(p, depth, i - 1), Pow2(depth))
  }

  /** A routine's priority and depth. */
  datatype Place = Place(priority: Priority, depth: nat)

  predicate IsPath(r: Routine, path: seq<nat>) {
    path == [] || (path[0] < |r.children| && IsPath(r.children[path[0]], path[1..]))
  }

  predicate IsLeafPath(r: Routine, path: seq<nat>) {
    if path == [] then r.children == [] else path[0] < |r.children| && IsLeafPath(r.children[path[0]], path[1..])
  }

  /** Where forking along a path leads. */
  function PlaceOf(r: Routine, p: Priority, d: nat, path: seq<nat>): Place
    requires Fits(r, d) && IsPath(r, path)
  {
    if path == [] then Place(p, d)
    else PlaceOf(r.children[path[0]], ChildPriority(p, d - r.split, path[0]), d - r.split, path[1..])
  }

  /** The depth levels used up by the forks along a path. */
  function SplitsAlong(r: Routine, path: seq<nat>): nat
    requires IsPath(r, path)
  {
    if path == [] then 0 else r.split + SplitsAlong(r.children[path[0]], path[1..])
  }

  /** A routine has the depth it started with, less what the forks on the way to it used up. */
  lemma {:induction false} DepthOnPath(r: Routine, p: Priority, d: nat, path: seq<nat>)
    requires Fits(r, d) && IsPath(r, path)
    ensures SplitsAlong(r, path) + PlaceOf(r, p, d, path).depth == d
    decreases |path|
  {
    if path != [] {
      DepthOnPath(r.children[path[0]], ChildPriority(p, d - r.split, path[0]), d - r.split, path[1..]);
    }
  }

  lemma Multiples(i: nat, n: nat, step: nat)
    requires i < n
    ensures i * step + step <= n * step
  {
    assert (n - i - 1) * step >= 0;
    assert n * step == i * step + step + (n - i - 1) * step;
  }

  lemma OneMore(i: nat, step: nat)
    ensures (i + 1) * step == i * step + step
  {
  }

  lemma AddIsExact(p: Priority, q: nat)
    requires p + q < PRIORITIES
    ensures Add(p, q) == p + q
  {
  }

  /** No addition on the way to a child wraps, and the child's priorities lie within its parent's. */
  lemma {:induction false} ChildIsWithin(p: Priority, d: nat, k: nat, i: nat)
    requires k <= d && i < Pow2(k) && p + Pow2(d) <= PRIORITIES
    ensures ChildPriority(p, d - k, i) == p + i * Pow2(d - k)
    ensures p + i * Pow2(d - k) + Pow2(d - k) <= p + Pow2(d)
  {
    hide Pow2, Add;
    var step := Pow2(d - k);
    PowAdds(k, d - k);
    Multiples(i, Pow2(k), step);
    if i > 0 {
      ChildIsWithin(p, d, k, i - 1);
      OneMore(i - 1, step);
      AddIsExact(ChildPriority(p, d - k, i - 1), step);
    }
  }

  /** Up to 2^k children fit, and not one more. */
  lemma FitsExactly(p: Priority, d: nat, k: nat, n: nat)
    requires k <= d && p + Pow2(d) <= PRIORITIES
    ensures n * Pow2(d - k) <= Pow2(d) <==> n <= Pow2(k)
  {
    PowAdds(k, d - k);
    if n < Pow2(k) { Multiples(n, Pow2(k), Pow2(d - k)); }
    if Pow2(k) < n { Multiples(Pow2(k), n, Pow2(d - k)); }
  }

  predicate Within(a: Place, b: Place) {
    b.priority <= a.priority && a.priority + Pow2(a.depth) <= b.priority + Pow2(b.depth)
  }

  predicate Before(a: Place, b: Place) {
    a.priority + Pow2(a.depth) <= b.priority
  }

  /** Every descendant's priorities lie within the routine's own. */
  lemma {:induction false} DescendantsAreWithin(r: Routine, p: Priority, d: nat, path: seq<nat>)
    requires Fits(r, d) && p + Pow2(d) <= PRIORITIES && IsPath(r, path)
    ensures Within(PlaceOf(r, p, d, path), Place(p, d))
    decreases |path|
  {
    if path != [] {
      ChildIsWithin(p, d, r.split, path[0]);
      DescendantsAreWithin(r.children[path[0]], ChildPriority(p, d - r.split, path[0]), d - r.split, path[1..]);
    }
  }

  /** Left of: at the first place where two paths part, this one takes the earlier child. */
  predicate LeftOf(a: seq<nat>, b: seq<nat>) {
    a != [] && b != [] && (a[0] < b[0] || (a[0] == b[0] && LeftOf(a[1..], b[1..])))
  }

  /** Routines on different branches own disjoint priorities, in the order of the branches. */
  lemma {:induction false} BranchesAreDisjoint(r: Routine, p: Priority, d: nat, a: seq<nat>, b: seq<nat>)
    requires Fits(r, d) && p + Pow2(d) <= PRIORITIES && IsPath(r, a) && IsPath(r, b) && LeftOf(a, b)
    ensures Before(PlaceOf(r, p, d, a), PlaceOf(r, p, d, b))
    decreases |a|
  {
    var depth := d - r.split;
    ChildIsWithin(p, d, r.split, a[0]);
    ChildIsWithin(p, d, r.split, b[0]);
    var pa, pb := ChildPriority(p, depth, a[0]), ChildPriority(p, depth, b[0]);
    if a[0] < b[0] {
      Multiples(a[0], b[0], Pow2(depth));
      DescendantsAreWithin(r.children[a[0]], pa, depth, a[1..]);
      DescendantsAreWithin(r.children[b[0]], pb, depth, b[1..]);
    } else {
      BranchesAreDisjoint(r.children[a[0]], pa, depth, a[1..], b[1..]);
    }
  }

  lemma {:induction false} LeafPathIsPath(r: Routine, path: seq<nat>)
    requires IsLeafPath(r, path)
    ensures IsPath(r, path)
    decreases |path|
  {
    if path != [] {
      LeafPathIsPath(r.children[path[0]], path[1..]);
    }
  }

  lemma {:induction false} LeavesPart(r: Routine, a: seq<nat>, b: seq<nat>)
    requires IsLeafPath(r, a) && IsLeafPath(r, b) && a != b
    ensures IsPath(r, a) && IsPath(r, b) && (LeftOf(a, b) || LeftOf(b, a))
    decreases |a|
  {
    if a[0] == b[0] {
      assert a == [a[0]] + a[1..] && b == [b[0]] + b[1..];
      LeavesPart(r.children[a[0]], a[1..], b[1..]);
    } else {
      LeafPathIsPath(r, a);
      LeafPathIsPath(r, b);
    }
  }

  /** The entry point owns every 32-bit priority. */
  lemma RootOwnsAll()
    ensures ROOT_PRIORITY + Pow2(ROOT_DEPTH) == PRIORITIES
  {
    assert Pow2(8) == 256;
    PowAdds(8, 8);
    PowAdds(16, 16);
  }

  /** Two routines without children never have the same priority, whatever was forked, and lower
      priority means further to the left. */
  lemma LeavesAreDistinct(r: Routine, a: seq<nat>, b: seq<nat>)
    requires Fits(r, ROOT_DEPTH) && IsLeafPath(r, a) && IsLeafPath(r, b) && a != b
    ensures IsPath(r, a) && IsPath(r, b)
    ensures PlaceOf(r, ROOT_PRIORITY, ROOT_DEPTH, a).priority != PlaceOf(r, ROOT_PRIORITY, ROOT_DEPTH, b).priority
    ensures LeftOf(a, b) <==>
              PlaceOf(r, ROOT_PRIORITY, ROOT_DEPTH, a).priority < PlaceOf(r, ROOT_PRIORITY, ROOT_DEPTH, b).priority
  {
    RootOwnsAll();
    hide Pow2;
    LeavesPart(r, a, b);
    if LeftOf(a, b) {
      BranchesAreDisjoint(r, ROOT_PRIORITY, ROOT_DEPTH, a, b);
    } else {
      BranchesAreDisjoint(r, ROOT_PRIORITY, ROOT_DEPTH, b, a);
    }
  }
}
