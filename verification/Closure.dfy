/** Applying closures: the general path, and the in-place path for a last use. */
module Closure {
  import opened Prelude
  import opened ObjectHeap

  /** A child process started with its arguments; `ret` is where its result goes. */
  datatype Spawn = Spawn(f: nat, parent: nat, prio: nat, depth: nat, argv: seq<Value>, ret: nat)

  predicate IsClosure(h: Store, c: Ref) {
    c < |h| && h[c].Obj? && h[c].body.ClosureBody?
  }

  /** The reference counts after one more reference to each of the values. */
  function DupAll(h: Store, vs: seq<Value>): (r: Store)
    ensures |r| == |h|
    decreases |vs|
  {
    if vs == [] then h
    else if vs[0].Ptr? && vs[0].ref < |h| && h[vs[0].ref].Obj? then
      DupAll(h[vs[0].ref := WithRc(h[vs[0].ref], (h[vs[0].ref].rc + 1) % 256)], vs[1..])
    else DupAll(h, vs[1..])
  }

  ghost predicate AllLive(h: Store, vs: seq<Value>) {
    forall i :: 0 <= i < |vs| && vs[i].Ptr? ==> vs[i].ref < |h| && h[vs[i].ref].Obj? && h[vs[i].ref].rc >= 1
  }

  /** One more reference to each of the values makes no count wrap around. */
  ghost predicate NoWrap(h: Store, vs: seq<Value>) {
    forall r :: 0 <= r < |h| && h[r].Obj? ==> h[r].rc + Ptrs(vs)[r] <= 255
  }

  lemma PtrsHead(vs: seq<Value>)
    ensures vs == [] ==> Ptrs(vs) == multiset{}
    ensures vs != [] ==> Ptrs(vs) == Ptrs(vs[1..]) + if vs[0].Ptr? then multiset{vs[0].ref} else multiset{}
  {
  }

  /** Without wrap-around a count grows by the number of occurrences. */
  lemma {:induction false} DupCount(h: Store, vs: seq<Value>, r: Ref)
    requires r < |h| && (h[r].Obj? ==> h[r].rc + Ptrs(vs)[r] <= 255)
    requires forall i :: 0 <= i < |vs| && vs[i].Ptr? ==> vs[i].ref < |h| && h[vs[i].ref].Obj?
    ensures DupAll(h, vs)[r] == if h[r].Obj? then WithRc(h[r], h[r].rc + Ptrs(vs)[r]) else Free
    decreases |vs|
  {
    hide Ptrs;
    PtrsHead(vs);
    if vs != [] {
      assert forall i :: 0 <= i < |vs[1..]| ==> vs[1..][i] == vs[i + 1];
      if vs[0].Ptr? {
        var q := vs[0].ref;
        DupCount(h[q := WithRc(h[q], (h[q].rc + 1) % 256)], vs[1..], r);
      } else {
        DupCount(h, vs[1..], r);
      }
    }
  }

  lemma TailNoWrap(h: Store, vs: seq<Value>)
    requires vs != [] && AllLive(h, vs) && NoWrap(h, vs)
    ensures AllLive(h, vs[1..]) && NoWrap(h, vs[1..])
    ensures Ptrs(vs) == Ptrs(vs[1..]) + if vs[0].Ptr? then multiset{vs[0].ref} else multiset{}
  {
    assert forall i :: 0 <= i < |vs[1..]| ==> vs[1..][i] == vs[i + 1];
  }

  /** Giving the first of the duplicated references back leaves the others. */
  lemma DropFirst(h: Store, vs: seq<Value>)
    requires vs != [] && vs[0].Ptr? && AllLive(h, vs) && NoWrap(h, vs)
    ensures var d := DupAll(h, vs); var r := vs[0].ref;
      r < |d| && d[r].Obj? && d[r].rc > 1 && d[r := WithRc(d[r], d[r].rc - 1)] == DupAll(h, vs[1..])
  {
    hide Ptrs, DupAll;
    TailNoWrap(h, vs);
    var d, e, r := DupAll(h, vs), DupAll(h, vs[1..]), vs[0].ref;
    forall q | 0 <= q < |h| ensures d[q] == if q == r && e[q].Obj? then WithRc(e[q], h[q].rc + Ptrs(vs)[q]) else e[q] {
      DupCount(h, vs, q);
      DupCount(h, vs[1..], q);
    }
    DupCount(h, vs[1..], r);
    DupCount(h, vs, r);
    assert d[r := WithRc(d[r], d[r].rc - 1)] == e;
  }

  /** Dropping the values just duplicated restores the store and frees nothing. */
  lemma {:induction false} DupThenDrop(h: Store, vs: seq<Value>)
    requires AllLive(h, vs) && NoWrap(h, vs)
    ensures DropOk(DupAll(h, vs), vs) && DropAll(DupAll(h, vs), vs) == Dropped(h, [])
    decreases |vs|
  {
    hide AllLive, NoWrap, Ptrs;
    if vs != [] {
      TailNoWrap(h, vs);
      DupThenDrop(h, vs[1..]);
      if vs[0].Ptr? {
        DropFirst(h, vs);
      }
    }
  }

  function Pushed(c: Cell, arg: Value): Cell
    requires c.Obj? && c.body.ClosureBody?
  {
    Obj(c.rc, c.body.(args := c.body.args + [arg]))
  }

  /** Duplicating values does not touch an object that is not among them. */
  lemma {:induction false} DupOther(h: Store, vs: seq<Value>, c: Ref)
    requires c < |h| && Ptr(c) !in vs
    ensures DupAll(h, vs)[c] == h[c]
    decreases |vs|
  {
    if vs != [] {
      assert vs == [vs[0]] + vs[1..] && vs[0] in vs;
      if vs[0].Ptr? && vs[0].ref < |h| && h[vs[0].ref].Obj? {
        DupOther(h[vs[0].ref := WithRc(h[vs[0].ref], (h[vs[0].ref].rc + 1) % 256)], vs[1..], c);
      } else {
        DupOther(h, vs[1..], c);
      }
    }
  }

  /** The arguments of a closure with a single reference, which a root holds, are live and are not the closure. */
  lemma ArgsAreLive(h: Store, c: Ref, roots: multiset<Ref>, lost: multiset<Ref>)
    requires Counted(h, roots, lost) && IsClosure(h, c) && h[c].rc == 1 && c in roots
    ensures AllLive(h, h[c].body.args) && Ptr(c) !in h[c].body.args
    ensures forall r :: 0 <= r < |h| ==> !Dying(h[r])
  {
    hide FieldRefs, PendingRefs, Ptrs;
    var args := h[c].body.args;
    var all := roots + lost + FieldRefs(h) + PendingRefs(h);
    FieldRefsUpdate(h, c, h[c]);
    forall i | 0 <= i < |args| && args[i].Ptr?
      ensures args[i].ref != c && args[i].ref < |h| && h[args[i].ref].Obj? && h[args[i].ref].rc >= 1
    {
      PtrsMember(args, args[i].ref);
      assert args[i] in args;
      assert all[args[i].ref] >= roots[args[i].ref] + FieldRefs(h)[args[i].ref];
      assert args[i].ref in all;
    }
  }

  /** With its arguments duplicated, dropping the last reference to a closure frees just the closure. */
  lemma LastDrop(h: Store, c: Ref, extra: Store)
    requires IsClosure(h, c) && h[c].rc == 1 && AllLive(h, h[c].body.args) && NoWrap(h, h[c].body.args)
    requires Ptr(c) !in h[c].body.args
    requires forall r :: 0 <= r < |h| ==> !Dying(h[r])
    requires forall i :: 0 <= i < |extra| ==> extra[i].Obj? && extra[i].rc == 1
    ensures var d := DupAll(h, h[c].body.args) + extra;
      && Settle(d) == d && DropOk(d, [Ptr(c)])
      && DropAll(d, [Ptr(c)]) == Dropped(h[c := Free] + extra, [])
      && forall r :: 0 <= r < |d| ==> !Dying(d[r])
  {
    hide Ptrs, DupAll;
    var args := h[c].body.args;
    var d := DupAll(h, args) + extra;
    var h' := h[c := Free] + extra;
    DupOther(h, args, c);
    PtrsMember(args, c);
    forall r | 0 <= r < |d| ensures DupAll(h', args)[r] == d[c := Free][r] && !Dying(d[r]) {
      if r < |h| {
        DupCount(h, args, r);
      } else {
        PtrsMember(args, r);
      }
      DupCount(h', args, r);
    }
    assert DupAll(h', args) == d[c := Free];
    assert AllLive(h', args) && NoWrap(h', args) by {
      forall r | 0 <= r < |h'| && h'[r].Obj? ensures h'[r].rc + Ptrs(args)[r] <= 255 {
        PtrsMember(args, r);
      }
    }
    DupThenDrop(h', args);
    assert args + [Ptr(c)][1..] == args;
  }

  class Machine {
    const heap: Heap
    var spawned: seq<Spawn>

    constructor (heap: Heap)
      ensures this.heap == heap && spawned == []
    {
      this.heap, spawned := heap, [];
    }

    method Dups(vs: seq<Value>)
      requires heap.QueueInv() && AllLive(heap.cells, vs) && NoWrap(heap.cells, vs)
      modifies heap`cells
      ensures heap.QueueInv() && heap.cells == DupAll(old(heap.cells), vs)
    {
      ghost var h := heap.cells;
      var i := 0;
      while i < |vs|
        invariant i <= |vs| && heap.QueueInv()
        invariant |heap.cells| == |h| && forall r :: 0 <= r < |h| ==> (h[r].Obj? <==> heap.cells[r].Obj?)
        invariant DupAll(heap.cells, vs[i..]) == DupAll(h, vs)
      {
        assert vs[i..][1..] == vs[i + 1..];
        heap.Dup(vs[i]);
        i := i + 1;
      }
    }

    /** Puts an argument behind those a closure already has; the closure must have room for it. */
    method Push(c: Ref, arg: Value)
      requires heap.QueueInv() && IsClosure(heap.cells, c) && |heap.cells[c].body.args| < heap.cells[c].body.cap
      modifies heap`cells
      ensures heap.QueueInv()
      ensures heap.cells == old(heap.cells)[c := Pushed(old(heap.cells[c]), arg)]
    {
      heap.cells := heap.cells[c := Pushed(heap.cells[c], arg)];
    }

    /** Takes the last argument off again. */
    method Pop(c: Ref)
      requires heap.QueueInv() && IsClosure(heap.cells, c) && heap.cells[c].body.args != []
      modifies heap`cells
      ensures heap.QueueInv()
      ensures var b := old(heap.cells[c]).body;
        heap.cells == old(heap.cells)[c := Obj(old(heap.cells[c]).rc, b.(args := b.args[..|b.args| - 1]))]
    {
      var b := heap.cells[c].body;
      heap.cells := heap.cells[c := Obj(heap.cells[c].rc, b.(args := b.args[..|b.args| - 1]))];
    }

    /** Starts the function of a closure on the arguments the closure holds. */
    method Activate(c: Ref, parent: nat, prio: nat, depth: nat, ret: nat)
      requires IsClosure(heap.cells, c)
      modifies this`spawned
      ensures var b := heap.cells[c].body; spawned == old(spawned) + [Spawn(b.f, parent, prio, depth, b.args, ret)]
    {
      var b := heap.cells[c].body;
      spawned := spawned + [Spawn(b.f, parent, prio, depth, b.args, ret)];
    }

    /** A new closure with the same function, capacity and arguments. */
    method Clone(c: Ref) returns (n: Ref)
      requires heap.QueueInv() && IsClosure(heap.cells, c)
      requires AllLive(heap.cells, heap.cells[c].body.args) && NoWrap(heap.cells, heap.cells[c].body.args)
      modifies heap`cells
      ensures heap.QueueInv() && n == |old(heap.cells)|
      ensures var b := old(heap.cells[c]).body;
        heap.cells == DupAll(old(heap.cells), b.args) + [Obj(1, ClosureBody(b.f, b.cap, b.args))]
    {
      ghost var g := heap.cells;
      ghost var h := g;
      var b := heap.cells[c].body;
      var v := heap.New(ClosureBody(b.f, b.cap, []));
      n := v.ref;
      var i := 0;
      while i < |b.args|
        invariant i <= |b.args| && heap.QueueInv() && |g| == |h| == n
        invariant forall r :: 0 <= r < |h| ==> (h[r].Obj? <==> g[r].Obj?)
        invariant heap.cells == g + [Obj(1, ClosureBody(b.f, b.cap, b.args[..i]))]
        invariant DupAll(g, b.args[i..]) == DupAll(h, b.args)
      {
        assert b.args[i..][1..] == b.args[i + 1..] && b.args[i..][0] == b.args[i];
        heap.Dup(b.args[i]);
        if b.args[i].Ptr? {
          var r := b.args[i].ref;
          g := g[r := WithRc(g[r], (g[r].rc + 1) % 256)];
        }
        assert heap.cells == g + [Obj(1, ClosureBody(b.f, b.cap, b.args[..i]))];
        heap.cells := heap.cells[n := Pushed(heap.cells[n], b.args[i])];
        assert b.args[..i + 1] == b.args[..i] + [b.args[i]];
        i := i + 1;
      }
      assert b.args[..i] == b.args;
    }

    /** Applies a closure to an argument and leaves the closure as it is. A full closure starts a
        child; otherwise a clone with the argument is the result. */
    method Apply(c: Ref, arg: Value, parent: nat, prio: nat, depth: nat, ret: nat) returns (res: Option<Value>)
      requires heap.QueueInv() && IsClosure(heap.cells, c) && |heap.cells[c].body.args| < heap.cells[c].body.cap
      requires AllLive(heap.cells, heap.cells[c].body.args) && NoWrap(heap.cells, heap.cells[c].body.args)
      requires Ptr(c) !in heap.cells[c].body.args
      modifies heap`cells, this`spawned
      ensures heap.QueueInv()
      ensures var b := old(heap.cells[c]).body;
        if b.cap == |b.args| + 1 then
          && res == None && heap.cells == DupAll(old(heap.cells), b.args)
          && spawned == old(spawned) + [Spawn(b.f, parent, prio, depth, b.args + [arg], ret)]
        else
          && res == Some(Ptr(|old(heap.cells)|)) && spawned == old(spawned)
          && heap.cells == DupAll(old(heap.cells), b.args) + [Obj(1, ClosureBody(b.f, b.cap, b.args + [arg]))]
    {
      ghost var h := heap.cells;
      ghost var b := heap.cells[c].body;
      hide DupAll, AllLive, NoWrap;
      if heap.cells[c].body.cap == |heap.cells[c].body.args| + 1 {
        DupOther(h, b.args, c);
        Dups(heap.cells[c].body.args);
        Push(c, arg);
        Activate(c, parent, prio, depth, ret);
        Pop(c);
        assert (b.args + [arg])[..|b.args|] == b.args;
        assert heap.cells == DupAll(h, b.args);
        res := None;
      } else {
        var n := Clone(c);
        Push(n, arg);
        res := Some(Ptr(n));
      }
    }

    /** Applies a closure for the last time, using it in place. */
    method ApplyFinal(c: Ref, arg: Value, parent: nat, prio: nat, depth: nat, ret: nat) returns (res: Option<Value>)
      requires heap.QueueInv() && IsClosure(heap.cells, c) && |heap.cells[c].body.args| < heap.cells[c].body.cap
      requires heap.cells[c].rc == 1
      modifies heap`cells, this`spawned
      ensures heap.QueueInv()
      ensures var b := old(heap.cells[c]).body;
        if b.cap == |b.args| + 1 then
          && res == None && heap.cells == old(heap.cells)[c := Free]
          && spawned == old(spawned) + [Spawn(b.f, parent, prio, depth, b.args + [arg], ret)]
        else
          && res == Some(Ptr(c)) && spawned == old(spawned)
          && heap.cells == old(heap.cells)[c := Obj(1, ClosureBody(b.f, b.cap, b.args + [arg]))]
    {
      if heap.cells[c].body.cap == |heap.cells[c].body.args| + 1 {
        Push(c, arg);
        Activate(c, parent, prio, depth, ret);
        heap.cells := heap.cells[c := Free];
        res := None;
      } else {
        Push(c, arg);
        res := Some(Ptr(c));
      }
    }

    /** The general path followed by a drop has the effect of the in-place path: the same child,
        or the same closure at a new address, and every other object exactly as it was. */
    method ApplyThenDrop(c: Ref, arg: Value, parent: nat, prio: nat, depth: nat, ret: nat,
                         ghost roots: multiset<Ref>, ghost lost: multiset<Ref>) returns (res: Option<Value>)
      requires heap.QueueInv() && IsClosure(heap.cells, c) && |heap.cells[c].body.args| < heap.cells[c].body.cap
      requires heap.cells[c].rc == 1 && Counted(heap.cells, roots, lost) && c in roots
      requires NoWrap(heap.cells, heap.cells[c].body.args)
      modifies heap, this`spawned
      ensures heap.QueueInv() && heap.cancelled == old(heap.cancelled)
      ensures var b := old(heap.cells[c]).body;
        if b.cap == |b.args| + 1 then
          && res == None && heap.cells == old(heap.cells)[c := Free]
          && spawned == old(spawned) + [Spawn(b.f, parent, prio, depth, b.args + [arg], ret)]
        else
          && res == Some(Ptr(|old(heap.cells)|)) && spawned == old(spawned)
          && heap.cells == old(heap.cells)[c := Free] + [Obj(1, ClosureBody(b.f, b.cap, b.args + [arg]))]
    {
      ghost var h := heap.cells;
      ghost var b := heap.cells[c].body;
      hide DupAll, AllLive, NoWrap, Counted, DropAll, DropOk;
      ArgsAreLive(h, c, roots, lost);
      res := Apply(c, arg, parent, prio, depth, ret);
      ghost var extra := if b.cap == |b.args| + 1 then [] else [Obj(1, ClosureBody(b.f, b.cap, b.args + [arg]))];
      assert heap.cells == DupAll(h, b.args) + extra;
      LastDrop(h, c, extra);
      heap.Drop(Ptr(c));
      assert Settle(heap.cells) == heap.cells;
    }
  }

  // ---------- applying keeps all counts exact ----------

  lemma SumRegroups(a: multiset<Ref>, b: multiset<Ref>, c: multiset<Ref>)
    ensures a + b + c == a + (c + b)
  {
  }

  lemma FirstIsLive(h: Store, vs: seq<Value>)
    requires vs != [] && vs[0].Ptr? && AllLive(h, vs) && NoWrap(h, vs)
    ensures vs[0].ref < |h| && h[vs[0].ref].Obj? && h[vs[0].ref].rc < 255
  {
    PtrsHead(vs);
  }

  /** Once the first value is duplicated there is still room for the others. */
  lemma StillNoWrap(h: Store, vs: seq<Value>)
    requires vs != [] && vs[0].Ptr? && AllLive(h, vs) && NoWrap(h, vs)
    requires vs[0].ref < |h| && h[vs[0].ref].Obj?
    ensures var h' := h[vs[0].ref := WithRc(h[vs[0].ref], (h[vs[0].ref].rc + 1) % 256)];
      AllLive(h', vs[1..]) && NoWrap(h', vs[1..])
  {
    FirstIsLive(h, vs);
    TailNoWrap(h, vs);
    var rest, q := Ptrs(vs[1..]), vs[0].ref;
    assert forall r: Ref :: Ptrs(vs)[r] == rest[r] + if r == q then 1 else 0;
    hide Ptrs;
    var h' := h[q := WithRc(h[q], h[q].rc + 1)];
    forall r | 0 <= r < |h'| && h'[r].Obj? ensures h'[r].rc + rest[r] <= 255 {
      assert h[r].rc + Ptrs(vs)[r] <= 255;
    }
    forall i | 0 <= i < |vs[1..]| && vs[1..][i].Ptr?
      ensures vs[1..][i].ref < |h'| && h'[vs[1..][i].ref].Obj? && h'[vs[1..][i].ref].rc >= 1 {
    }
  }

  /** Duplicated values are as many more references held by the program. */
  lemma {:induction false} DupAllCounted(h: Store, vs: seq<Value>, roots: multiset<Ref>, lost: multiset<Ref>)
    requires Counted(h, roots, lost) && AllLive(h, vs) && NoWrap(h, vs)
    ensures Counted(DupAll(h, vs), roots + Ptrs(vs), lost)
    decreases |vs|
  {
    hide Counted, Ptrs, NoWrap, AllLive;
    PtrsHead(vs);
    if vs != [] {
      TailNoWrap(h, vs);
      if vs[0].Ptr? {
        var r := vs[0].ref;
        FirstIsLive(h, vs);
        StillNoWrap(h, vs);
        DupCounted(h, r, roots, lost);
        DupAllCounted(h[r := WithRc(h[r], (h[r].rc + 1) % 256)], vs[1..], roots + multiset{r}, lost);
        SumRegroups(roots, multiset{r}, Ptrs(vs[1..]));
      } else {
        DupAllCounted(h, vs[1..], roots, lost);
        assert Ptrs(vs) == Ptrs(vs[1..]);
      }
    } else {
      assert roots + Ptrs(vs) == roots;
    }
  }

  lemma PushedRefsSum(roots: multiset<Ref>, lost: multiset<Ref>, fs: multiset<Ref>, ps: multiset<Ref>,
                      oldArgs: multiset<Ref>, arg: multiset<Ref>)
    requires arg <= roots && oldArgs <= fs
    ensures (roots - arg) + lost + (fs - oldArgs + (oldArgs + arg)) + ps == roots + lost + fs + ps
    ensures ps - multiset{} + multiset{} == ps
  {
  }

  /** Pushing an argument hands its reference over to the closure. */
  lemma PushCounted(h: Store, c: Ref, arg: Value, roots: multiset<Ref>, lost: multiset<Ref>)
    requires Counted(h, roots, lost) && IsClosure(h, c) && Ptrs([arg]) <= roots
    ensures Counted(h[c := Pushed(h[c], arg)], roots - Ptrs([arg]), lost)
  {
    hide FieldRefs, PendingRefs, Ptrs;
    var h' := h[c := Pushed(h[c], arg)];
    FieldRefsUpdate(h, c, h'[c]);
    PendingRefsUpdate(h, c, h'[c]);
    PtrsConcat(h[c].body.args, [arg]);
    NoPtrs();
    PushedRefsSum(roots, lost, FieldRefs(h), PendingRefs(h), Ptrs(h[c].body.args), Ptrs([arg]));
  }

  /** Adding an object with one reference to a store in which `all` are the references. */
  lemma OneMore(h: Store, x: Cell, all: multiset<Ref>)
    requires x.Obj? && x.rc == 1
    requires forall r :: 0 <= r < |h| && h[r].Obj? ==> h[r].rc >= 1 && all[r] == h[r].rc
    requires forall r :: r in all ==> r < |h| && h[r].Obj?
    ensures var h', all' := h + [x], all + multiset{|h|};
      && (forall r :: 0 <= r < |h'| && h'[r].Obj? ==> h'[r].rc >= 1 && all'[r] == h'[r].rc)
      && (forall r :: r in all' ==> r < |h'| && h'[r].Obj?)
  {
    assert |h| !in all;
  }

  lemma AppendedRefs(h: Store, x: Cell)
    requires x.Obj? && x.body.ClosureBody?
    ensures FieldRefs(h + [x]) == FieldRefs(h) + Ptrs(x.body.args) && PendingRefs(h + [x]) == PendingRefs(h)
  {
    hide Ptrs;
    NoPtrs();
    assert (h + [x])[..|h|] == h;
  }

  lemma NewRefsSum(roots: multiset<Ref>, lost: multiset<Ref>, fs: multiset<Ref>, ps: multiset<Ref>, n: Ref,
                   args: multiset<Ref>)
    requires args <= roots
    ensures (roots - args + multiset{n}) + lost + (fs + args) + ps == roots + lost + fs + ps + multiset{n}
  {
  }

  /** A new closure takes over the references to its arguments and is itself referred to once. */
  lemma NewCounted(h: Store, f: nat, cap: Byte, args: seq<Value>, roots: multiset<Ref>, lost: multiset<Ref>)
    requires Counted(h, roots, lost) && Ptrs(args) <= roots
    ensures Counted(h + [Obj(1, ClosureBody(f, cap, args))], roots - Ptrs(args) + multiset{|h|}, lost)
  {
    var x := Obj(1, ClosureBody(f, cap, args));
    hide FieldRefs, PendingRefs, Ptrs;
    AppendedRefs(h, x);
    NewRefsSum(roots, lost, FieldRefs(h), PendingRefs(h), |h|, Ptrs(args));
    OneMore(h, x, roots + lost + FieldRefs(h) + PendingRefs(h));
  }

  lemma AppliedRefsSum(roots: multiset<Ref>, arg: multiset<Ref>, args: multiset<Ref>, n: Ref)
    requires arg <= roots
    ensures roots - arg + (args + arg) == roots + args && args + arg <= roots + args
    ensures (roots + args) - (args + arg) + multiset{n} == roots - arg + multiset{n}
  {
  }

  /** After the general path all counts are exact: the child, or the new closure, holds one
      reference to each argument, and the caller has given its reference to `arg` away. */
  lemma ApplyCounted(h: Store, c: Ref, arg: Value, roots: multiset<Ref>, lost: multiset<Ref>)
    requires Counted(h, roots, lost) && IsClosure(h, c) && Ptrs([arg]) <= roots
    requires AllLive(h, h[c].body.args) && NoWrap(h, h[c].body.args)
    ensures var b := h[c].body; var d := DupAll(h, b.args);
      && Counted(d, roots - Ptrs([arg]) + Ptrs(b.args + [arg]), lost)
      && Counted(d + [Obj(1, ClosureBody(b.f, b.cap, b.args + [arg]))], roots - Ptrs([arg]) + multiset{|h|}, lost)
  {
    hide Counted, DupAll, Ptrs, AllLive, NoWrap;
    var b := h[c].body;
    DupAllCounted(h, b.args, roots, lost);
    PtrsConcat(b.args, [arg]);
    AppliedRefsSum(roots, Ptrs([arg]), Ptrs(b.args), |h|);
    NewCounted(DupAll(h, b.args), b.f, b.cap, b.args + [arg], roots + Ptrs(b.args), lost);
  }

  lemma NoPending(h: Store, c: Ref)
    requires IsClosure(h, c)
    ensures Ptrs(PendingOf(h[c])) == multiset{}
  {
  }

  lemma FinalArgsSum(roots: multiset<Ref>, c: Ref, arg: multiset<Ref>, args: multiset<Ref>)
    requires multiset{c} + arg <= roots
    ensures roots - multiset{c} - arg + (args + arg) == roots - multiset{c} + args && arg <= roots
  {
  }

  /** So are they after the in-place path, where the closure's references move without being
      counted again. */
  lemma ApplyFinalCounted(h: Store, c: Ref, arg: Value, roots: multiset<Ref>, lost: multiset<Ref>)
    requires Counted(h, roots, lost) && IsClosure(h, c) && h[c].rc == 1 && multiset{c} + Ptrs([arg]) <= roots
    ensures var b := h[c].body;
      && Counted(h[c := Free], roots - multiset{c} - Ptrs([arg]) + Ptrs(b.args + [arg]), lost)
      && Counted(h[c := Pushed(h[c], arg)], roots - Ptrs([arg]), lost)
  {
    hide Counted, Ptrs;
    var b := h[c].body;
    assert c in multiset{c} + Ptrs([arg]);
    FreeCounted(h, c, roots, lost);
    assert lost + Ptrs(PendingOf(h[c])) == lost by { NoPending(h, c); }
    PtrsConcat(b.args, [arg]);
    FinalArgsSum(roots, c, Ptrs([arg]), Ptrs(b.args));
    PushCounted(h, c, arg, roots, lost);
  }

  /** The two outcomes for a closure that is not full yet are the same but for the closure's
      address, with as many live objects. */
  lemma SameButForAddress(h: Store, c: Ref, arg: Value)
    requires IsClosure(h, c) && h[c].rc == 1
    ensures var b := h[c].body;
      var general, fast := h[c := Free] + [Obj(1, ClosureBody(b.f, b.cap, b.args + [arg]))], h[c := Pushed(h[c], arg)];
      && general[|h|] == fast[c] && general[c] == Free
      && (forall r :: 0 <= r < |h| && r != c ==> general[r] == fast[r])
      && |LiveSet(general)| == |LiveSet(fast)|
  {
    var b := h[c].body;
    var general, fast := h[c := Free] + [Obj(1, ClosureBody(b.f, b.cap, b.args + [arg]))], h[c := Pushed(h[c], arg)];
    var others := LiveSet(h[c := Free]);
    assert LiveSet(general) == others + {|h|};
    assert LiveSet(fast) == others + {c};
  }
}
