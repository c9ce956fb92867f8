/** Reference-counted heap objects and what dropping a reference does.

    A store is a sequence of cells; a reference is an index into it. Cells are never reused
    here, so a reference to a freed object can be told from any other. */
module ObjectHeap {
  import opened Prelude

  type Byte = b: nat | b < 256

  type Ref = nat

  datatype Value = Packed(w: Word) | Ptr(ref: Ref)

  datatype Body =
    | TimeBody(time: Time)
    | AdtBody(tag: Byte, fields: seq<Value>)
    | SvBody(value: Value, laterTime: Time, laterValue: Value)
    | ClosureBody(f: nat, cap: Byte, args: seq<Value>)
    | ArrayBody(elems: seq<Value>)
    | BlobBody(scaledSize: nat)

  datatype Cell = Free | Obj(rc: Byte, body: Body)

  type Store = seq<Cell>

  /** The values that finalising an object drops, in order. */
  function Fields(b: Body): seq<Value> {
    match b
    case TimeBody(_) => []
    case AdtBody(_, fields) => fields
    case SvBody(value, _, _) => [value]
    case ClosureBody(_, _, args) => args
    case ArrayBody(elems) => elems
    case BlobBody(_) => []
  }

  predicate HasEvent(c: Cell) {
    c.Obj? && c.body.SvBody? && c.body.laterTime != NEVER
  }

  /** The value of a pending update, which also is a reference the object holds. */
  function PendingOf(c: Cell): seq<Value> {
    if HasEvent(c) then [c.body.laterValue] else []
  }

  function FieldsOf(c: Cell): seq<Value> {
    if c.Obj? then Fields(c.body) else []
  }

  // ---------- counting references ----------

  ghost function Ptrs(vs: seq<Value>): multiset<Ref> {
    if vs == [] then multiset{} else
      (if vs[0].Ptr? then multiset{vs[0].ref} else multiset{}) + Ptrs(vs[1..])
  }

  lemma {:induction false} PtrsConcat(a: seq<Value>, b: seq<Value>)
    ensures Ptrs(a + b) == Ptrs(a) + Ptrs(b)
  {
    if a == [] {
      assert a + b == b;
    } else {
      assert (a + b)[1..] == a[1..] + b;
      PtrsConcat(a[1..], b);
    }
  }

  lemma {:induction false} PtrsMember(vs: seq<Value>, r: Ref)
    ensures r in Ptrs(vs) <==> Ptr(r) in vs
  {
    if vs != [] {
      PtrsMember(vs[1..], r);
      assert vs == [vs[0]] + vs[1..];
    }
  }

  /** All references held in fields, and all held in pending updates. */
  ghost function FieldRefs(h: Store): multiset<Ref> {
    if h == [] then multiset{} else FieldRefs(h[..|h| - 1]) + Ptrs(FieldsOf(h[|h| - 1]))
  }

  ghost function PendingRefs(h: Store): multiset<Ref> {
    if h == [] then multiset{} else PendingRefs(h[..|h| - 1]) + Ptrs(PendingOf(h[|h| - 1]))
  }

  /** Exchanging a part of one of two summands. */
  lemma ExchangeInSum(a: multiset<Ref>, b: multiset<Ref>, part: multiset<Ref>, part': multiset<Ref>)
    ensures part <= a ==> part <= a + b && (a + b) - part + part' == (a - part + part') + b
    ensures (a + b + part) - part + part' == a + b + part'
    ensures a == multiset{} ==> part <= b + part && (b + part) - part + part' == b + part'
  {
  }

  lemma {:induction false} FieldRefsUpdate(h: Store, i: nat, c: Cell)
    requires i < |h|
    ensures Ptrs(FieldsOf(h[i])) <= FieldRefs(h)
    ensures FieldRefs(h[i := c]) == FieldRefs(h) - Ptrs(FieldsOf(h[i])) + Ptrs(FieldsOf(c))
  {
    hide FieldsOf, Ptrs;
    var n := |h| - 1;
    var rest, last := FieldRefs(h[..n]), Ptrs(FieldsOf(h[n]));
    assert FieldRefs(h) == rest + last;
    if i == n {
      assert h[i := c][..n] == h[..n];
      ExchangeInSum(multiset{}, rest, last, Ptrs(FieldsOf(c)));
    } else {
      FieldRefsUpdate(h[..n], i, c);
      assert h[i := c][..n] == h[..n][i := c];
      ExchangeInSum(rest, last, Ptrs(FieldsOf(h[i])), Ptrs(FieldsOf(c)));
    }
  }

  lemma {:induction false} PendingRefsUpdate(h: Store, i: nat, c: Cell)
    requires i < |h|
    ensures Ptrs(PendingOf(h[i])) <= PendingRefs(h)
    ensures PendingRefs(h[i := c]) == PendingRefs(h) - Ptrs(PendingOf(h[i])) + Ptrs(PendingOf(c))
  {
    hide PendingOf, Ptrs;
    var n := |h| - 1;
    var rest, last := PendingRefs(h[..n]), Ptrs(PendingOf(h[n]));
    assert PendingRefs(h) == rest + last;
    if i == n {
      assert h[i := c][..n] == h[..n];
      ExchangeInSum(multiset{}, rest, last, Ptrs(PendingOf(c)));
    } else {
      PendingRefsUpdate(h[..n], i, c);
      assert h[i := c][..n] == h[..n][i := c];
      ExchangeInSum(rest, last, Ptrs(PendingOf(h[i])), Ptrs(PendingOf(c)));
    }
  }

  /** A reference counted anywhere is held by some object. */
  lemma {:induction false} RefHolder(h: Store, r: Ref) returns (q: Ref)
    requires r in FieldRefs(h) + PendingRefs(h)
    ensures q < |h| && r in Ptrs(FieldsOf(h[q])) + Ptrs(PendingOf(h[q]))
  {
    var n := |h| - 1;
    if r in Ptrs(FieldsOf(h[n])) + Ptrs(PendingOf(h[n])) {
      q := n;
    } else {
      q := RefHolder(h[..n], r);
    }
  }

  /** The reference counts are exact: each object counts the references held by the program
      (`roots`), by other objects, and those that have leaked (`lost`). */
  ghost predicate Counted(h: Store, roots: multiset<Ref>, lost: multiset<Ref>) {
    var all := roots + lost + FieldRefs(h) + PendingRefs(h);
    && (forall r :: 0 <= r < |h| && h[r].Obj? ==> h[r].rc >= 1 && all[r] == h[r].rc)
    && (forall r :: r in all ==> r < |h| && h[r].Obj?)
  }

  /** No object can have more than 255 references. */
  lemma AtMost255(h: Store, roots: multiset<Ref>, lost: multiset<Ref>, r: Ref)
    requires Counted(h, roots, lost)
    ensures (roots + lost + FieldRefs(h) + PendingRefs(h))[r] <= 255
  {
    hide FieldRefs, PendingRefs;
    var all := roots + lost + FieldRefs(h) + PendingRefs(h);
    if r in all {
      assert all[r] == h[r].rc;
    }
  }

  // ---------- dropping ----------

  ghost function LiveSet(h: Store): set<Ref> {
    set i | 0 <= i < |h| && h[i].Obj?
  }

  /** What is left after drops, and the variables whose pending update was cancelled, in order. */
  datatype Dropped = Dropped(store: Store, cancelled: seq<Ref>)

  function WithRc(c: Cell, rc: Byte): Cell
    requires c.Obj?
  {
    Obj(rc, c.body)
  }

  /** Dropping values one after the other; an object without references left is freed and the
      values it holds are dropped before the remaining ones. */
  ghost function DropAll(h: Store, work: seq<Value>): (d: Dropped)
    ensures |d.store| == |h|
    decreases LiveSet(h), |work|
  {
    if work == [] then Dropped(h, [])
    else if work[0].Packed? then DropAll(h, work[1..])
    else
      var r := work[0].ref;
      if r >= |h| || h[r].Free? || h[r].rc == 0 then DropAll(h, work[1..])
      else if h[r].rc > 1 then
        assert LiveSet(h[r := WithRc(h[r], h[r].rc - 1)]) == LiveSet(h);
        DropAll(h[r := WithRc(h[r], h[r].rc - 1)], work[1..])
      else
        assert LiveSet(h[r := Free]) < LiveSet(h) by { assert r in LiveSet(h) && r !in LiveSet(h[r := Free]); }
        var d := DropAll(h[r := Free], Fields(h[r].body) + work[1..]);
        Dropped(d.store, (if HasEvent(h[r]) then [r] else []) + d.cancelled)
  }

  /** Every reference met while dropping is to an object that is still there. */
  ghost predicate DropOk(h: Store, work: seq<Value>)
    decreases LiveSet(h), |work|
  {
    if work == [] then true
    else if work[0].Packed? then DropOk(h, work[1..])
    else
      var r := work[0].ref;
      if r >= |h| || h[r].Free? || h[r].rc == 0 then false
      else if h[r].rc > 1 then
        assert LiveSet(h[r := WithRc(h[r], h[r].rc - 1)]) == LiveSet(h);
        DropOk(h[r := WithRc(h[r], h[r].rc - 1)], work[1..])
      else
        assert LiveSet(h[r := Free]) < LiveSet(h) by { assert r in LiveSet(h) && r !in LiveSet(h[r := Free]); }
        DropOk(h[r := Free], Fields(h[r].body) + work[1..])
  }

  /** Dropping two lists of values is dropping one and then the other. */
  lemma {:induction false} DropConcat(h: Store, a: seq<Value>, b: seq<Value>)
    ensures var d := DropAll(h, a); var e := DropAll(d.store, b);
      DropAll(h, a + b) == Dropped(e.store, d.cancelled + e.cancelled)
    ensures DropOk(h, a + b) <==> DropOk(h, a) && DropOk(DropAll(h, a).store, b)
    decreases LiveSet(h), |a|
  {
    if a == [] {
      assert a + b == b;
    } else {
      assert (a + b)[1..] == a[1..] + b;
      if a[0].Packed? {
        DropConcat(h, a[1..], b);
      } else {
        var r := a[0].ref;
        if r >= |h| || h[r].Free? || h[r].rc == 0 {
          DropConcat(h, a[1..], b);
        } else if h[r].rc > 1 {
          var h' := h[r := WithRc(h[r], h[r].rc - 1)];
          assert LiveSet(h') == LiveSet(h);
          DropConcat(h', a[1..], b);
        } else {
          var h' := h[r := Free];
          assert LiveSet(h') < LiveSet(h) by { assert r in LiveSet(h) && r !in LiveSet(h'); }
          assert Fields(h[r].body) + (a[1..] + b) == (Fields(h[r].body) + a[1..]) + b;
          DropConcat(h', Fields(h[r].body) + a[1..], b);
        }
      }
    }
  }

  /** Freed objects aside, dropping changes only reference counts. */
  lemma {:induction false} DropKeepsBodies(h: Store, work: seq<Value>)
    ensures var d := DropAll(h, work);
      forall r :: 0 <= r < |h| ==> d.store[r].Free? || (h[r].Obj? && d.store[r].body == h[r].body)
    decreases LiveSet(h), |work|
  {
    if work != [] {
      if work[0].Packed? {
        DropKeepsBodies(h, work[1..]);
      } else {
        var r := work[0].ref;
        if r >= |h| || h[r].Free? || h[r].rc == 0 {
          DropKeepsBodies(h, work[1..]);
        } else if h[r].rc > 1 {
          var h' := h[r := WithRc(h[r], h[r].rc - 1)];
          assert LiveSet(h') == LiveSet(h);
          DropKeepsBodies(h', work[1..]);
        } else {
          var h' := h[r := Free];
          assert LiveSet(h') < LiveSet(h) by { assert r in LiveSet(h) && r !in LiveSet(h'); }
          DropKeepsBodies(h', Fields(h[r].body) + work[1..]);
        }
      }
    }
  }

  /** Dropping values that all have further references lowers each count by the number of occurrences. */
  lemma {:induction false} DropLowers(h: Store, vs: seq<Value>)
    requires forall q: Ref :: Ptr(q) in vs ==> q < |h| && h[q].Obj? && h[q].rc > multiset(vs)[Ptr(q)]
    ensures var d := DropAll(h, vs);
      && d.cancelled == []
      && forall q: Ref :: q < |h| ==>
           d.store[q] == if h[q].Obj? && Ptr(q) in vs then Obj(h[q].rc - multiset(vs)[Ptr(q)], h[q].body) else h[q]
    decreases |vs|
  {
    if vs != [] {
      var v, rest := vs[0], vs[1..];
      assert vs == [v] + rest;
      assert multiset(vs) == multiset{v} + multiset(rest);
      if v.Packed? {
        DropLowers(h, rest);
      } else {
        assert v in vs && v == Ptr(v.ref);
        var h' := h[v.ref := WithRc(h[v.ref], h[v.ref].rc - 1)];
        assert LiveSet(h') == LiveSet(h);
        forall q: Ref | Ptr(q) in rest ensures q < |h'| && h'[q].Obj? && h'[q].rc > multiset(rest)[Ptr(q)] {
          assert Ptr(q) in vs;
        }
        DropLowers(h', rest);
      }
    }
  }

  /** The members of an object, in order. */
  predicate Members(b: Body, vs: seq<Value>) {
    match b
    case AdtBody(_, fields) => vs == fields
    case SvBody(value, _, _) => vs == [value]
    case ClosureBody(_, _, args) => vs == args
    case ArrayBody(elems) => vs == elems
    case TimeBody(_) => vs == []
    case BlobBody(_) => vs == []
  }

  /** Dropping the last reference to an object whose members all have further references frees it, lowers
      each member's count by its occurrences among them, cancels the update of a variable that has one,
      and does nothing else. */
  lemma LastDropLowers(h: Store, r: Ref, vs: seq<Value>)
    requires r < |h| && h[r].Obj? && h[r].rc == 1 && Members(h[r].body, vs) && Ptr(r) !in vs
    requires forall q: Ref :: Ptr(q) in vs ==> q < |h| && h[q].Obj? && h[q].rc > multiset(vs)[Ptr(q)]
    ensures var d := DropAll(h, [Ptr(r)]); var b := h[r].body;
      && d.cancelled == (if b.SvBody? && b.laterTime != NEVER then [r] else []) && d.store[r] == Free
      && forall q: Ref :: q < |h| && q != r ==>
           d.store[q] == if h[q].Obj? && Ptr(q) in vs then Obj(h[q].rc - multiset(vs)[Ptr(q)], h[q].body) else h[q]
  {
    var work := [Ptr(r)];
    assert work[1..] == [] && Fields(h[r].body) == vs && vs + work[1..] == vs;
    assert LiveSet(h[r := Free]) < LiveSet(h) by { assert r in LiveSet(h) && r !in LiveSet(h[r := Free]); }
    DropLowers(h[r := Free], vs);
  }

  lemma RootIsLive(h: Store, roots: multiset<Ref>, lost: multiset<Ref>, r: Ref)
    requires Counted(h, roots, lost) && r in roots
    ensures r < |h| && h[r].Obj? && h[r].rc >= 1
  {
    assert r in roots + lost + FieldRefs(h) + PendingRefs(h);
  }

  lemma SameRefs(h: Store, r: Ref, c: Cell)
    requires r < |h| && h[r].Obj? && c.Obj? && c.body == h[r].body
    ensures FieldRefs(h[r := c]) == FieldRefs(h) && PendingRefs(h[r := c]) == PendingRefs(h)
  {
    FieldRefsUpdate(h, r, c);
    PendingRefsUpdate(h, r, c);
  }

  /** Taking one of several references away. */
  lemma SharedCounted(h: Store, r: Ref, roots: multiset<Ref>, lost: multiset<Ref>)
    requires Counted(h, roots, lost) && r in roots && r < |h| && h[r].Obj? && h[r].rc > 1
    ensures Counted(h[r := WithRc(h[r], h[r].rc - 1)], roots - multiset{r}, lost)
    ensures PendingRefs(h[r := WithRc(h[r], h[r].rc - 1)]) == PendingRefs(h)
  {
    hide FieldRefs, PendingRefs;
    SameRefs(h, r, WithRc(h[r], h[r].rc - 1));
    var others := lost + FieldRefs(h) + PendingRefs(h);
    assert roots + lost + FieldRefs(h) + PendingRefs(h) == roots + others;
    assert roots - multiset{r} + lost + FieldRefs(h) + PendingRefs(h) == roots + others - multiset{r};
  }

  lemma FreeSums(roots: multiset<Ref>, r: Ref, fields: multiset<Ref>, rest: multiset<Ref>)
    requires multiset{r} + rest <= roots
    ensures rest + fields <= (roots - multiset{r}) + fields
    ensures ((roots - multiset{r}) + fields) - (fields + rest) == roots - (multiset{r} + rest)
  {
  }

  lemma LeakSums(lost: multiset<Ref>, leaked: multiset<Ref>, before: multiset<Ref>, after: multiset<Ref>)
    requires after <= before
    ensures after <= before + leaked
    ensures lost + leaked + (before - after) == lost + ((before + leaked) - after)
  {
  }

  lemma NoPtrs()
    ensures Ptrs(FieldsOf(Free)) == multiset{} && Ptrs(PendingOf(Free)) == multiset{}
  {
  }

  lemma FreedRefsSum(roots: multiset<Ref>, lost: multiset<Ref>, fs: multiset<Ref>, ps: multiset<Ref>, r: Ref,
                     f: multiset<Ref>, p: multiset<Ref>)
    requires f <= fs && p <= ps && r in roots
    ensures (roots - multiset{r} + f) + (lost + p) + (fs - f + multiset{}) + (ps - p + multiset{})
         == roots + lost + fs + ps - multiset{r}
    ensures ps == (ps - p + multiset{}) + p
  {
  }

  /** Freeing an object whose only reference is a root turns what it holds into roots. */
  lemma FreeCounted(h: Store, r: Ref, roots: multiset<Ref>, lost: multiset<Ref>)
    requires Counted(h, roots, lost) && r < |h| && h[r].Obj? && h[r].rc == 1 && r in roots
    ensures Counted(h[r := Free], roots - multiset{r} + Ptrs(Fields(h[r].body)), lost + Ptrs(PendingOf(h[r])))
    ensures PendingRefs(h) == PendingRefs(h[r := Free]) + Ptrs(PendingOf(h[r]))
  {
    hide PendingOf, Ptrs, FieldRefs, PendingRefs;
    NoPtrs();
    FieldRefsUpdate(h, r, Free);
    PendingRefsUpdate(h, r, Free);
    FreedRefsSum(roots, lost, FieldRefs(h), PendingRefs(h), r, Ptrs(Fields(h[r].body)), Ptrs(PendingOf(h[r])));
  }

  /** Dropping references the program holds meets no freed object and keeps all counts exact.
      The pending values of freed variables are not dropped: their references are lost. */
  lemma {:induction false} DropCounted(h: Store, work: seq<Value>, roots: multiset<Ref>, lost: multiset<Ref>)
    requires Counted(h, roots, lost) && Ptrs(work) <= roots
    ensures DropOk(h, work)
    ensures var h' := DropAll(h, work).store;
      && PendingRefs(h') <= PendingRefs(h)
      && Counted(h', roots - Ptrs(work), lost + (PendingRefs(h) - PendingRefs(h')))
    decreases LiveSet(h), |work|
  {
    hide Counted, FieldRefs, PendingRefs, PendingOf;
    if work == [] {
      assert roots - Ptrs(work) == roots && lost + (PendingRefs(h) - PendingRefs(h)) == lost;
    } else if work[0].Packed? {
      assert Ptrs(work) == Ptrs(work[1..]);
      DropCounted(h, work[1..], roots, lost);
    } else {
      var r := work[0].ref;
      RootIsLive(h, roots, lost, r);
      if h[r].rc > 1 {
        var h' := h[r := WithRc(h[r], h[r].rc - 1)];
        assert LiveSet(h') == LiveSet(h);
        SharedCounted(h, r, roots, lost);
        DropCounted(h', work[1..], roots - multiset{r}, lost);
        assert roots - Ptrs(work) == roots - multiset{r} - Ptrs(work[1..]);
      } else {
        var h' := h[r := Free];
        assert LiveSet(h') < LiveSet(h) by { assert r in LiveSet(h) && r !in LiveSet(h'); }
        var fields := Fields(h[r].body);
        var leaked := Ptrs(PendingOf(h[r]));
        FreeCounted(h, r, roots, lost);
        PtrsConcat(fields, work[1..]);
        FreeSums(roots, r, Ptrs(fields), Ptrs(work[1..]));
        DropCounted(h', fields + work[1..], roots - multiset{r} + Ptrs(fields), lost + leaked);
        LeakSums(lost, leaked, PendingRefs(h'), PendingRefs(DropAll(h', fields + work[1..]).store));
      }
    }
  }

  /** Nothing refers to a freed object. */
  lemma RefsAreLive(h: Store, roots: multiset<Ref>, lost: multiset<Ref>)
    requires Counted(h, roots, lost)
    ensures forall r :: r in roots || r in lost || r in PendingRefs(h) ==> r < |h| && h[r].Obj?
  {
    hide FieldRefs, PendingRefs;
    var all := roots + lost + FieldRefs(h) + PendingRefs(h);
    assert forall r :: r in roots || r in lost || r in PendingRefs(h) ==> r in all;
  }

  /** Adding a reference keeps the counts exact if and only if the eight-bit count does not wrap. */
  lemma DupCounted(h: Store, r: Ref, roots: multiset<Ref>, lost: multiset<Ref>)
    requires Counted(h, roots, lost) && r < |h| && h[r].Obj?
    ensures Counted(h[r := WithRc(h[r], (h[r].rc + 1) % 256)], roots + multiset{r}, lost) <==> h[r].rc < 255
  {
    hide FieldRefs, PendingRefs;
    var h' := h[r := WithRc(h[r], (h[r].rc + 1) % 256)];
    SameRefs(h, r, h'[r]);
    var others := lost + FieldRefs(h) + PendingRefs(h);
    assert roots + lost + FieldRefs(h) + PendingRefs(h) == roots + others;
    assert roots + multiset{r} + lost + FieldRefs(h) + PendingRefs(h) == roots + others + multiset{r};
    assert h'[r].Obj?;
  }

  // ---------- reachability ----------

  /** The value is a field, the value of a variable, an argument or an element. */
  predicate HasMember(b: Body, v: Value) {
    match b
    case AdtBody(_, fields) => v in fields
    case SvBody(value, _, _) => v == value
    case ClosureBody(_, _, args) => v in args
    case ArrayBody(elems) => v in elems
    case _ => false
  }

  /** The value is that of a variable's pending update. */
  predicate HasPending(b: Body, v: Value) {
    b.SvBody? && b.laterTime != NEVER && v == b.laterValue
  }

  /** Object q holds a reference to r, as a member or as the value of a pending update. */
  ghost predicate Holds(h: Store, q: Ref, r: Ref) {
    q < |h| && h[q].Obj? && (HasMember(h[q].body, Ptr(r)) || HasPending(h[q].body, Ptr(r)))
  }

  /** What is dropped at finalisation, and what is counted, are the members. */
  lemma MembersAreFields(c: Cell, r: Ref)
    ensures r in Ptrs(FieldsOf(c)) <==> c.Obj? && HasMember(c.body, Ptr(r))
    ensures r in Ptrs(PendingOf(c)) <==> c.Obj? && HasPending(c.body, Ptr(r))
  {
    PtrsMember(FieldsOf(c), r);
    PtrsMember(PendingOf(c), r);
  }

  /** A chain of held references from a root. */
  datatype Path = Start(end: Ref) | Step(prev: Path, end: Ref)

  ghost predicate IsPath(h: Store, roots: multiset<Ref>, p: Path) {
    match p
    case Start(r) => r in roots
    case Step(prev, r) => IsPath(h, roots, prev) && Holds(h, prev.end, r)
  }

  ghost predicate Reachable(h: Store, roots: multiset<Ref>, r: Ref) {
    exists p :: IsPath(h, roots, p) && p.end == r
  }

  lemma {:induction false} HeldIsCounted(h: Store, q: Ref, r: Ref)
    requires Holds(h, q, r)
    ensures r in FieldRefs(h) + PendingRefs(h)
  {
    hide FieldRefs, PendingRefs, PendingOf, HasMember, HasPending;
    MembersAreFields(h[q], r);
    FieldRefsUpdate(h, q, h[q]);
    PendingRefsUpdate(h, q, h[q]);
  }

  lemma {:induction false} PathIsLive(h: Store, roots: multiset<Ref>, p: Path, h': Store, roots': multiset<Ref>,
                                      lost': multiset<Ref>)
    requires IsPath(h, roots, p) && Counted(h', roots', lost') && |h'| == |h|
    requires forall r :: r in roots ==> r < |h'| && h'[r].Obj?
    requires forall r :: 0 <= r < |h| && h'[r].Obj? ==> h[r].Obj? && h'[r].body == h[r].body
    ensures p.end < |h'| && h'[p.end].Obj? && IsPath(h', roots, p)
    decreases p
  {
    hide FieldRefs, PendingRefs;
    match p
    case Start(r) =>
    case Step(prev, r) =>
      PathIsLive(h, roots, prev, h', roots', lost');
      assert Holds(h', prev.end, r);
      HeldIsCounted(h', prev.end, r);
      assert r in roots' + lost' + FieldRefs(h') + PendingRefs(h');
  }

  /** Dropping never frees an object that the remaining roots still reach. */
  lemma DropIsSafe(h: Store, work: seq<Value>, roots: multiset<Ref>, lost: multiset<Ref>, r: Ref)
    requires Counted(h, roots, lost) && Ptrs(work) <= roots
    requires Reachable(h, roots - Ptrs(work), r)
    ensures var h' := DropAll(h, work).store;
      r < |h'| && h'[r].Obj? && r < |h| && h[r].Obj? && h'[r].body == h[r].body && Reachable(h', roots - Ptrs(work), r)
  {
    hide Counted, IsPath, FieldRefs, PendingRefs;
    DropCounted(h, work, roots, lost);
    DropKeepsBodies(h, work);
    var h' := DropAll(h, work).store;
    var p :| IsPath(h, roots - Ptrs(work), p) && p.end == r;
    RefsAreLive(h', roots - Ptrs(work), lost + (PendingRefs(h) - PendingRefs(h')));
    PathIsLive(h, roots - Ptrs(work), p, h', roots - Ptrs(work), lost + (PendingRefs(h) - PendingRefs(h')));
  }

  /** A rank that decreases along every held reference: the object graph has no cycle. */
  ghost predicate Acyclic(h: Store, rank: seq<nat>) {
    |rank| == |h| && forall q: Ref, r: Ref :: Holds(h, q, r) && r < |h| ==> rank[r] < rank[q]
  }

  ghost function MaxRank(rank: seq<nat>): (m: nat)
    ensures forall i :: 0 <= i < |rank| ==> rank[i] <= m
  {
    if rank == [] then 0 else
      var m := MaxRank(rank[..|rank| - 1]);
      assert forall i :: 0 <= i < |rank| - 1 ==> rank[..|rank| - 1][i] == rank[i];
      if m < rank[|rank| - 1] then rank[|rank| - 1] else m
  }

  /** With exact counts and no cycle, every object there is reachable from a root or a lost reference. */
  lemma {:induction false} LiveIsReachable(h: Store, rank: seq<nat>, roots: multiset<Ref>, lost: multiset<Ref>, r: Ref)
    requires Counted(h, roots, lost) && Acyclic(h, rank) && r < |h| && h[r].Obj?
    ensures Reachable(h, roots + lost, r)
    decreases MaxRank(rank) - rank[r]
  {
    if r in roots + lost {
      assert IsPath(h, roots + lost, Start(r));
    } else {
      var all := roots + lost + FieldRefs(h) + PendingRefs(h);
      assert all[r] >= 1;
      var q := RefHolder(h, r);
      MembersAreFields(h[q], r);
      hide HasMember, HasPending, FieldsOf, PendingOf, Ptrs, FieldRefs, PendingRefs, Counted;
      assert Holds(h, q, r);
      LiveIsReachable(h, rank, roots, lost, q);
      var p :| IsPath(h, roots + lost, p) && p.end == q;
      assert IsPath(h, roots + lost, Step(p, r));
    }
  }

  lemma {:induction false} MoreRoots(h: Store, roots: multiset<Ref>, more: multiset<Ref>, p: Path)
    requires IsPath(h, roots, p) && forall r :: r in roots ==> r in more
    ensures IsPath(h, more, p)
    decreases p
  {
    if p.Step? {
      MoreRoots(h, roots, more, p.prev);
    }
  }

  lemma StillAcyclic(h: Store, rank: seq<nat>, h': Store)
    requires Acyclic(h, rank) && |h'| == |h|
    requires forall r :: 0 <= r < |h| && h'[r].Obj? ==> h[r].Obj? && h'[r].body == h[r].body
    ensures Acyclic(h', rank)
  {
    forall q: Ref, r: Ref | Holds(h', q, r) && r < |h'| ensures rank[r] < rank[q] {
      assert Holds(h, q, r);
    }
  }

  lemma {:induction false} SamePath(h: Store, roots: multiset<Ref>, p: Path, h': Store)
    requires IsPath(h', roots, p) && |h'| == |h|
    requires forall r :: 0 <= r < |h| && h'[r].Obj? ==> h[r].Obj? && h'[r].body == h[r].body
    ensures IsPath(h, roots, p)
    decreases p
  {
    if p.Step? {
      SamePath(h, roots, p.prev, h');
      assert Holds(h', p.prev.end, p.end);
    }
  }

  /** On an acyclic graph, dropping frees exactly the objects that neither the remaining roots, nor
      a reference lost before, nor the value of any pending update reaches. */
  lemma DropIsExact(h: Store, rank: seq<nat>, work: seq<Value>, roots: multiset<Ref>, lost: multiset<Ref>, r: Ref)
    requires Counted(h, roots, lost) && Ptrs(work) <= roots && Acyclic(h, rank) && r < |h| && h[r].Obj?
    ensures DropAll(h, work).store[r].Obj? <==> Reachable(h, roots - Ptrs(work) + lost + PendingRefs(h), r)
  {
    hide Counted, IsPath, FieldRefs, PendingRefs, Ptrs;
    DropCounted(h, work, roots, lost);
    DropKeepsBodies(h, work);
    var h' := DropAll(h, work).store;
    var kept := roots - Ptrs(work);
    var newlyLost := lost + (PendingRefs(h) - PendingRefs(h'));
    var starts := kept + lost + PendingRefs(h);
    if h'[r].Obj? {
      StillAcyclic(h, rank, h');
      LiveIsReachable(h', rank, kept, newlyLost, r);
      var p :| IsPath(h', kept + newlyLost, p) && p.end == r;
      SamePath(h, kept + newlyLost, p, h');
      MoreRoots(h, kept + newlyLost, starts, p);
    }
    if Reachable(h, starts, r) {
      var p :| IsPath(h, starts, p) && p.end == r;
      RefsAreLive(h', kept, newlyLost);
      PathIsLive(h, starts, p, h', kept, newlyLost);
    }
  }

  /** Nothing holds a heap value in a pending update. */
  ghost predicate PackedPending(h: Store) {
    forall r :: 0 <= r < |h| ==> Ptrs(PendingOf(h[r])) == multiset{}
  }

  /** A reference in a pending update is one that some object has pending. */
  lemma {:induction false} PendingHolder(h: Store, r: Ref) returns (v: Ref)
    requires r in PendingRefs(h)
    ensures v < |h| && r in Ptrs(PendingOf(h[v]))
  {
    hide PendingOf, Ptrs;
    var n := |h| - 1;
    if r in Ptrs(PendingOf(h[n])) {
      v := n;
    } else {
      v := PendingHolder(h[..n], r);
    }
  }

  lemma {:induction false} NoRoot(h: Store, p: Path)
    ensures !IsPath(h, multiset{}, p)
    decreases p
  {
    if p.Step? {
      NoRoot(h, p.prev);
    }
  }

  lemma NoRootNoPath(h: Store, r: Ref)
    ensures !Reachable(h, multiset{}, r)
  {
    forall p: Path | p.end == r ensures !IsPath(h, multiset{}, p) {
      NoRoot(h, p);
    }
  }

  /** The heap value that `v` has pending is reachable from the roots. */
  ghost predicate PendingReached(h: Store, roots: multiset<Ref>, v: Ref) {
    v < |h| ==> forall r :: r in Ptrs(PendingOf(h[v])) ==> Reachable(h, roots, r)
  }

  lemma StepIsPath(h: Store, roots: multiset<Ref>, p: Path, r: Ref)
    requires IsPath(h, roots, p) && Holds(h, p.end, r)
    ensures IsPath(h, roots, Step(p, r))
  {
  }

  /** A variable passes reachability on to the value it has pending. */
  lemma PendingOfReached(h: Store, roots: multiset<Ref>, v: Ref)
    requires v < |h| && Reachable(h, roots, v)
    ensures PendingReached(h, roots, v)
  {
    hide PendingOf, Ptrs, IsPath;
    var p :| IsPath(h, roots, p) && p.end == v;
    forall r | r in Ptrs(PendingOf(h[v])) ensures Reachable(h, roots, r) {
      MembersAreFields(h[v], r);
      assert IsPath(h, roots, Step(p, r)) by { StepIsPath(h, roots, p, r); }
    }
  }

  /** From references that are all reachable from the roots nothing else is reachable. */
  lemma {:induction false} ReachedRoots(h: Store, starts: multiset<Ref>, roots: multiset<Ref>, p: Path)
    requires IsPath(h, starts, p) && forall r :: r in starts ==> Reachable(h, roots, r)
    ensures Reachable(h, roots, p.end)
    decreases p
  {
    if p.Step? {
      ReachedRoots(h, starts, roots, p.prev);
      var q :| IsPath(h, roots, q) && q.end == p.prev.end;
      StepIsPath(h, roots, q, p.end);
    }
  }

  lemma RootReached(h: Store, roots: multiset<Ref>, r: Ref)
    requires r in roots
    ensures Reachable(h, roots, r)
  {
    assert IsPath(h, roots, Start(r));
  }

  lemma FromReached(h: Store, starts: multiset<Ref>, roots: multiset<Ref>, r: Ref)
    requires Reachable(h, starts, r) && forall q :: q in starts ==> Reachable(h, roots, q)
    ensures Reachable(h, roots, r)
  {
    var p :| IsPath(h, starts, p) && p.end == r;
    ReachedRoots(h, starts, roots, p);
  }

  /** Dropping on an acyclic graph frees everything the remaining roots do not reach if and only if
      every variable they do not reach has nothing pending but packed values and values they reach. */
  lemma NothingLeaksIff(h: Store, rank: seq<nat>, work: seq<Value>, roots: multiset<Ref>)
    requires Counted(h, roots, multiset{}) && Ptrs(work) <= roots && Acyclic(h, rank)
    ensures
      (forall r :: 0 <= r < |h| && DropAll(h, work).store[r].Obj? ==> Reachable(h, roots - Ptrs(work), r))
      <==> (forall v :: 0 <= v < |h| && !Reachable(h, roots - Ptrs(work), v) ==>
        PendingReached(h, roots - Ptrs(work), v))
  {
    hide Counted, IsPath, PendingOf, FieldRefs, PendingRefs, Ptrs, DropAll, Acyclic, Reachable;
    var kept := roots - Ptrs(work);
    var starts := kept + multiset{} + PendingRefs(h);
    DropKeepsBodies(h, work);
    forall r | 0 <= r < |h| ensures DropAll(h, work).store[r].Obj? <==> h[r].Obj? && Reachable(h, starts, r) {
      if h[r].Obj? { DropIsExact(h, rank, work, roots, multiset{}, r); }
    }
    RefsAreLive(h, roots, multiset{});
    if forall v :: 0 <= v < |h| && !Reachable(h, kept, v) ==> PendingReached(h, kept, v) {
      forall r | r in starts ensures Reachable(h, kept, r) {
        if r in kept {
          RootReached(h, kept, r);
        } else {
          var v := PendingHolder(h, r);
          if Reachable(h, kept, v) { PendingOfReached(h, kept, v); }
        }
      }
      forall r | 0 <= r < |h| && DropAll(h, work).store[r].Obj? ensures Reachable(h, kept, r) {
        FromReached(h, starts, kept, r);
      }
    }
    if forall r :: 0 <= r < |h| && DropAll(h, work).store[r].Obj? ==> Reachable(h, kept, r) {
      forall v, r | 0 <= v < |h| && r in Ptrs(PendingOf(h[v])) ensures Reachable(h, kept, r) {
        PendingRefsUpdate(h, v, h[v]);
        RootReached(h, starts, r);
      }
    }
  }

  /** With packed pending values dropping frees exactly the objects the remaining roots do not reach. */
  lemma PackedDropIsExact(h: Store, rank: seq<nat>, work: seq<Value>, roots: multiset<Ref>, r: Ref)
    requires Counted(h, roots, multiset{}) && Ptrs(work) <= roots && Acyclic(h, rank) && PackedPending(h)
    requires r < |h| && h[r].Obj?
    ensures DropAll(h, work).store[r].Obj? <==> Reachable(h, roots - Ptrs(work), r)
  {
    hide Counted, FieldRefs, Ptrs, DropAll, Acyclic, Reachable;
    NothingLeaksIff(h, rank, work, roots);
    if Reachable(h, roots - Ptrs(work), r) {
      DropIsSafe(h, work, roots, multiset{}, r);
    }
  }

  /** Dropping all roots of an acyclic graph frees everything if and only if every pending value is
      packed. */
  lemma DropAllRootsEmptiesIff(h: Store, rank: seq<nat>, work: seq<Value>, roots: multiset<Ref>)
    requires Counted(h, roots, multiset{}) && Ptrs(work) == roots && Acyclic(h, rank)
    ensures (forall r :: 0 <= r < |h| ==> DropAll(h, work).store[r].Free?) <==> PackedPending(h)
  {
    hide Counted, Ptrs, PendingOf, DropAll, Acyclic, Reachable;
    DropKeepsBodies(h, work);
    assert roots - Ptrs(work) == multiset{};
    NothingLeaksIff(h, rank, work, roots);
    forall r | 0 <= r < |h| ensures !Reachable(h, multiset{}, r) { NoRootNoPath(h, r); }
    forall v, r | 0 <= v < |h| && r in Ptrs(PendingOf(h[v]))
      ensures !Reachable(h, multiset{}, r)
    {
      NoRootNoPath(h, r);
    }
    forall v | 0 <= v < |h| ensures PendingReached(h, multiset{}, v) <==> Ptrs(PendingOf(h[v])) == multiset{} {
      if Ptrs(PendingOf(h[v])) != multiset{} {
        var r :| r in Ptrs(PendingOf(h[v]));
      }
    }
  }

  /** Object 1 is held only by the update pending on object 0. */
  const PENDING_VALUE: Store := [Obj(1, SvBody(Packed(0), 5, Ptr(1))), Obj(1, BlobBody(0))]

  /** The references of small stores. */
  lemma RefsOfOne(h: Store)
    requires |h| == 1
    ensures FieldRefs(h) == Ptrs(FieldsOf(h[0])) && PendingRefs(h) == Ptrs(PendingOf(h[0]))
  {
    hide Ptrs, FieldsOf, PendingOf;
    assert h[..0] == [];
  }

  lemma RefsOfTwo(h: Store)
    requires |h| == 2
    ensures FieldRefs(h) == Ptrs(FieldsOf(h[0])) + Ptrs(FieldsOf(h[1]))
    ensures PendingRefs(h) == Ptrs(PendingOf(h[0])) + Ptrs(PendingOf(h[1]))
  {
    hide Ptrs, FieldsOf, PendingOf;
    RefsOfOne(h[..1]);
  }

  lemma PtrsOfOne(v: Value)
    ensures Ptrs([v]) == if v.Ptr? then multiset{v.ref} else multiset{}
  {
    assert [v][1..] == [];
  }

  lemma PendingValueRefs()
    ensures FieldRefs(PENDING_VALUE) == multiset{} && PendingRefs(PENDING_VALUE) == multiset{1}
  {
    var h := PENDING_VALUE;
    RefsOfTwo(h);
    PtrsOfOne(Ptr(1));
    PtrsOfOne(Packed(0));
    hide FieldRefs, PendingRefs;
    assert PendingOf(h[0]) == [Ptr(1)] && PendingOf(h[1]) == [];
    assert FieldsOf(h[0]) == [Packed(0)] && FieldsOf(h[1]) == [];
    assert Ptrs([]) == multiset{};
  }

  lemma PendingValueCounted()
    ensures Counted(PENDING_VALUE, multiset{0}, multiset{})
  {
    PendingValueRefs();
    hide FieldRefs, PendingRefs;
    assert multiset{0} + multiset{} + FieldRefs(PENDING_VALUE) + PendingRefs(PENDING_VALUE) == multiset{0, 1};
  }

  /** A heap value waiting in a pending update is not dropped with the variable: after the only
      root is dropped, object 1 is still there although nothing reaches it. */
  lemma PendingValueIsLost()
    ensures Counted(PENDING_VALUE, multiset{0}, multiset{})
    ensures DropAll(PENDING_VALUE, [Ptr(0)]).store == [Free, PENDING_VALUE[1]]
    ensures !Reachable(PENDING_VALUE, multiset{}, 1)
  {
    hide Counted, Reachable, FieldRefs, PendingRefs, IsPath;
    PendingValueCounted();
    NoRootNoPath(PENDING_VALUE, 1);
    var h' := PENDING_VALUE[0 := Free];
    assert [Packed(0)][1..] == [] && [Ptr(0)][1..] == [];
    assert DropAll(h', [Packed(0)]).store == h';
    assert Fields(PENDING_VALUE[0].body) + [Ptr(0)][1..] == [Packed(0)];
  }

  /** The cancelled updates are exactly those of the freed variables that had one, each once. */
  lemma {:induction false} CancelledAreFreed(h: Store, work: seq<Value>)
    ensures var d := DropAll(h, work);
      && (forall r: Ref :: r in d.cancelled <==> r < |h| && HasEvent(h[r]) && d.store[r].Free?)
      && (forall i, j :: 0 <= i < j < |d.cancelled| ==> d.cancelled[i] != d.cancelled[j])
    decreases LiveSet(h), |work|
  {
    if work != [] {
      if work[0].Packed? {
        CancelledAreFreed(h, work[1..]);
      } else {
        var r := work[0].ref;
        if r >= |h| || h[r].Free? || h[r].rc == 0 {
          CancelledAreFreed(h, work[1..]);
        } else if h[r].rc > 1 {
          var h' := h[r := WithRc(h[r], h[r].rc - 1)];
          assert LiveSet(h') == LiveSet(h);
          assert forall q :: 0 <= q < |h| ==> (HasEvent(h[q]) <==> HasEvent(h'[q]));
          CancelledAreFreed(h', work[1..]);
        } else {
          var h' := h[r := Free];
          assert LiveSet(h') < LiveSet(h) by { assert r in LiveSet(h) && r !in LiveSet(h'); }
          CancelledAreFreed(h', Fields(h[r].body) + work[1..]);
          DropKeepsBodies(h', Fields(h[r].body) + work[1..]);
        }
      }
    } else {
      forall r: Ref | r < |h| && HasEvent(h[r]) ensures h[r].Obj? {
      }
    }
  }

  /** No variable that the remaining roots reach has its update cancelled. */
  lemma CancelledAreUnreachable(h: Store, work: seq<Value>, roots: multiset<Ref>, lost: multiset<Ref>, r: Ref)
    requires Counted(h, roots, lost) && Ptrs(work) <= roots && Reachable(h, roots - Ptrs(work), r)
    ensures r !in DropAll(h, work).cancelled
  {
    DropIsSafe(h, work, roots, lost, r);
    CancelledAreFreed(h, work);
  }

  // ---------- graphs with cycles ----------

  ghost predicate HeldBy(h: Store, keep: set<Ref>, r: Ref) {
    exists q :: q in keep && q < |h| && h[q].Obj? && HasMember(h[q].body, Ptr(r))
  }

  /** Objects each of which is one of the starting points or is held in a field by another of them. */
  ghost predicate Supported(h: Store, starts: multiset<Ref>, keep: set<Ref>) {
    forall r :: r in keep ==> r < |h| && h[r].Obj? && (r in starts || HeldBy(h, keep, r))
  }

  /** A supported object has another reference than the one that is dropped. */
  lemma SupportedIsShared(h: Store, r: Ref, rest: multiset<Ref>, roots: multiset<Ref>, lost: multiset<Ref>,
                          keep: set<Ref>)
    requires Counted(h, roots, lost) && multiset{r} + rest <= roots && r in keep
    requires Supported(h, roots - (multiset{r} + rest) + lost + PendingRefs(h), keep)
    ensures r < |h| && h[r].Obj? && h[r].rc >= 2
  {
    hide FieldRefs, PendingRefs, Ptrs, FieldsOf;
    var all := roots + lost + FieldRefs(h) + PendingRefs(h);
    if HeldBy(h, keep, r) {
      var q :| q in keep && q < |h| && h[q].Obj? && HasMember(h[q].body, Ptr(r));
      MembersAreFields(h[q], r);
      FieldRefsUpdate(h, q, h[q]);
    }
    assert all[r] >= 2;
  }

  lemma SameSupport(h: Store, h': Store, starts: multiset<Ref>, keep: set<Ref>)
    requires Supported(h, starts, keep) && |h'| == |h|
    requires forall r :: r in keep && r < |h| && h[r].Obj? ==> h'[r].Obj? && h'[r].body == h[r].body
    ensures Supported(h', starts, keep)
  {
    hide HasMember;
    forall r | r in keep && HeldBy(h, keep, r) ensures HeldBy(h', keep, r) {
      var q :| q in keep && q < |h| && h[q].Obj? && HasMember(h[q].body, Ptr(r));
      assert h'[q].body == h[q].body;
    }
  }

  lemma StartsAfterFree(roots: multiset<Ref>, lost: multiset<Ref>, pending: multiset<Ref>, r: Ref, rest: multiset<Ref>,
                        fields: multiset<Ref>, leaked: multiset<Ref>)
    requires multiset{r} + rest <= roots
    ensures (roots - multiset{r} + fields) - (fields + rest) + (lost + leaked) + pending
         == roots - (multiset{r} + rest) + lost + (pending + leaked)
  {
  }

  lemma StartsAfterShared(roots: multiset<Ref>, r: Ref, rest: multiset<Ref>)
    requires multiset{r} + rest <= roots
    ensures roots - multiset{r} - rest == roots - (multiset{r} + rest) && rest <= roots - multiset{r}
  {
  }

  /** Giving up one of several references keeps the others supported. */
  lemma SupportAfterShared(h: Store, r: Ref, rest: multiset<Ref>, roots: multiset<Ref>, lost: multiset<Ref>,
                           keep: set<Ref>)
    requires Counted(h, roots, lost) && multiset{r} + rest <= roots && r < |h| && h[r].Obj? && h[r].rc > 1
    requires Supported(h, roots - (multiset{r} + rest) + lost + PendingRefs(h), keep)
    ensures var h' := h[r := WithRc(h[r], h[r].rc - 1)];
      && Counted(h', roots - multiset{r}, lost) && rest <= roots - multiset{r}
      && Supported(h', roots - multiset{r} - rest + lost + PendingRefs(h'), keep)
  {
    hide Supported, Counted, PendingRefs, FieldRefs;
    var h' := h[r := WithRc(h[r], h[r].rc - 1)];
    SharedCounted(h, r, roots, lost);
    StartsAfterShared(roots, r, rest);
    SameSupport(h, h', roots - (multiset{r} + rest) + lost + PendingRefs(h), keep);
  }

  /** So does freeing an object, which is none of them. */
  lemma SupportAfterFree(h: Store, r: Ref, rest: multiset<Ref>, roots: multiset<Ref>, lost: multiset<Ref>,
                         keep: set<Ref>)
    requires Counted(h, roots, lost) && multiset{r} + rest <= roots && r < |h| && h[r].Obj? && h[r].rc == 1
    requires Supported(h, roots - (multiset{r} + rest) + lost + PendingRefs(h), keep)
    ensures var h' := h[r := Free]; var fields := Ptrs(Fields(h[r].body));
      var roots', lost' := roots - multiset{r} + fields, lost + Ptrs(PendingOf(h[r]));
      && Counted(h', roots', lost') && fields + rest <= roots'
      && Supported(h', roots' - (fields + rest) + lost' + PendingRefs(h'), keep)
  {
    hide FieldRefs, PendingRefs, PendingOf, Ptrs, Counted;
    var h', fields := h[r := Free], Ptrs(Fields(h[r].body));
    FreeCounted(h, r, roots, lost);
    FreeSums(roots, r, fields, rest);
    StartsAfterFree(roots, lost, PendingRefs(h'), r, rest, fields, Ptrs(PendingOf(h[r])));
    if r in keep {
      SupportedIsShared(h, r, rest, roots, lost, keep);
    }
    hide Supported;
    SameSupport(h, h', roots - (multiset{r} + rest) + lost + PendingRefs(h), keep);
  }

  /** Supported objects survive a drop, whatever the graph. */
  lemma {:induction false} SupportedSurvive(h: Store, work: seq<Value>, roots: multiset<Ref>, lost: multiset<Ref>,
                                            keep: set<Ref>)
    requires Counted(h, roots, lost) && Ptrs(work) <= roots
    requires Supported(h, roots - Ptrs(work) + lost + PendingRefs(h), keep)
    ensures forall r :: r in keep ==> r < |h| && DropAll(h, work).store[r].Obj?
    decreases LiveSet(h), |work|
  {
    hide Counted, FieldRefs, PendingRefs, PendingOf;
    if work != [] {
      var rest := work[1..];
      if work[0].Packed? {
        assert Ptrs(work) == Ptrs(rest);
        hide Supported;
        SupportedSurvive(h, rest, roots, lost, keep);
      } else {
        var r := work[0].ref;
        assert Ptrs(work) == multiset{r} + Ptrs(rest);
        hide Supported, Ptrs;
        RootIsLive(h, roots, lost, r);
        if h[r].rc > 1 {
          var h' := h[r := WithRc(h[r], h[r].rc - 1)];
          assert LiveSet(h') == LiveSet(h);
          SupportAfterShared(h, r, Ptrs(rest), roots, lost, keep);
          SupportedSurvive(h', rest, roots - multiset{r}, lost, keep);
        } else {
          var h' := h[r := Free];
          assert LiveSet(h') < LiveSet(h) by { assert r in LiveSet(h) && r !in LiveSet(h'); }
          var fields := Fields(h[r].body);
          SupportAfterFree(h, r, Ptrs(rest), roots, lost, keep);
          PtrsConcat(fields, rest);
          SupportedSurvive(h', fields + rest, roots - multiset{r} + Ptrs(fields), lost + Ptrs(PendingOf(h[r])), keep);
        }
      }
    }
  }

  /** A reference in a field is one that some object holds in a field. */
  lemma {:induction false} FieldHolder(h: Store, r: Ref) returns (q: Ref)
    requires r in FieldRefs(h)
    ensures q < |h| && r in Ptrs(FieldsOf(h[q]))
  {
    hide FieldsOf, Ptrs;
    var n := |h| - 1;
    if r in Ptrs(FieldsOf(h[n])) {
      q := n;
    } else {
      q := FieldHolder(h[..n], r);
    }
  }

  /** What survives a drop is supported. */
  lemma SurvivorsAreSupported(h: Store, work: seq<Value>, roots: multiset<Ref>, lost: multiset<Ref>)
    requires Counted(h, roots, lost) && Ptrs(work) <= roots
    ensures Supported(h, roots - Ptrs(work) + lost + PendingRefs(h), LiveSet(DropAll(h, work).store))
  {
    var h' := DropAll(h, work).store;
    var kept, newlyLost := roots - Ptrs(work), lost + (PendingRefs(h) - PendingRefs(h'));
    var starts, keep := kept + lost + PendingRefs(h), LiveSet(h');
    hide FieldRefs, PendingRefs, Ptrs, DropAll, FieldsOf, HasMember;
    DropCounted(h, work, roots, lost);
    DropKeepsBodies(h, work);
    var all := kept + newlyLost + FieldRefs(h') + PendingRefs(h');
    forall r | r in keep && r !in starts ensures HeldBy(h, keep, r) {
      assert all[r] >= 1 && r in FieldRefs(h');
      var q := FieldHolder(h', r);
      MembersAreFields(h'[q], r);
      assert q in keep && q < |h| && h[q].body == h'[q].body;
    }
  }

  /** On any graph, a drop leaves exactly the objects that belong to a supported set: those that the
      remaining roots, references lost before and pending values reach, and those on or behind cycles. */
  lemma DropIsExactOnAnyGraph(h: Store, work: seq<Value>, roots: multiset<Ref>, lost: multiset<Ref>, r: Ref)
    requires Counted(h, roots, lost) && Ptrs(work) <= roots && r < |h|
    ensures DropAll(h, work).store[r].Obj? <==>
              exists keep :: r in keep && Supported(h, roots - Ptrs(work) + lost + PendingRefs(h), keep)
  {
    hide Counted, FieldRefs, PendingRefs, Ptrs, DropAll, Supported;
    var starts := roots - Ptrs(work) + lost + PendingRefs(h);
    if DropAll(h, work).store[r].Obj? {
      SurvivorsAreSupported(h, work, roots, lost);
      assert r in LiveSet(DropAll(h, work).store);
    }
    forall keep | r in keep && Supported(h, starts, keep) ensures DropAll(h, work).store[r].Obj? {
      SupportedSurvive(h, work, roots, lost, keep);
    }
  }

  // ---------- the variable that is being updated ----------

  predicate IsVariable(h: Store, v: Ref) {
    v < |h| && h[v].Obj? && h[v].body.SvBody?
  }

  /** The store when a variable's old value has been taken out of it to be dropped. */
  function Emptied(h: Store, v: Ref): Store
    requires IsVariable(h, v)
  {
    h[v := Obj(h[v].rc, h[v].body.(value := Packed(0)))]
  }

  lemma EmptiedParts(h: Store, v: Ref)
    requires IsVariable(h, v)
    ensures Ptrs(FieldsOf(Emptied(h, v)[v])) == multiset{} && FieldsOf(h[v]) == [h[v].body.value]
    ensures PendingOf(Emptied(h, v)[v]) == PendingOf(h[v])
  {
    assert [Packed(0)][1..] == [];
  }

  lemma GivenUp(roots: multiset<Ref>, lost: multiset<Ref>, fields: multiset<Ref>, pending: multiset<Ref>,
                value: multiset<Ref>, part: multiset<Ref>)
    requires value <= fields && part <= pending
    ensures (roots + value) + lost + (fields - value + multiset{}) + (pending - part + part) ==
      roots + lost + fields + pending
    ensures pending - part + part == pending
  {
  }

  /** The reference the variable held is the update's to give up. */
  lemma EmptiedCounted(h: Store, v: Ref, roots: multiset<Ref>, lost: multiset<Ref>)
    requires Counted(h, roots, lost) && IsVariable(h, v)
    ensures Counted(Emptied(h, v), roots + Ptrs([h[v].body.value]), lost) &&
      PendingRefs(Emptied(h, v)) == PendingRefs(h)
  {
    hide FieldRefs, PendingRefs, Ptrs, PendingOf;
    var h' := Emptied(h, v);
    FieldRefsUpdate(h, v, h'[v]);
    PendingRefsUpdate(h, v, h'[v]);
    EmptiedParts(h, v);
    GivenUp(roots, lost, FieldRefs(h), PendingRefs(h), Ptrs([h[v].body.value]), Ptrs(PendingOf(h[v])));
  }

  /** Updating a variable finalises the variable itself if and only if, without its old value, it
      belongs to no supported set. Anything but the event queue that refers to it from outside is
      enough to prevent that. */
  lemma UpdatedIsFinalisedIff(h: Store, v: Ref, roots: multiset<Ref>, lost: multiset<Ref>)
    requires Counted(h, roots, lost) && IsVariable(h, v) && HasEvent(h[v])
    ensures v in DropAll(Emptied(h, v), [h[v].body.value]).cancelled <==>
              !exists keep :: v in keep && Supported(Emptied(h, v), roots + lost + PendingRefs(h), keep)
  {
    hide Counted, FieldRefs, PendingRefs, Ptrs, Supported, DropAll;
    var h', work := Emptied(h, v), [h[v].body.value];
    EmptiedCounted(h, v, roots, lost);
    assert roots + Ptrs(work) - Ptrs(work) == roots;
    DropIsExactOnAnyGraph(h', work, roots + Ptrs(work), lost, v);
    CancelledAreFreed(h', work);
  }

  lemma StepIsSupported(h: Store, h': Store, v: Ref, starts: multiset<Ref>, before: set<Ref>, q: Ref, r: Ref,
                        roots: multiset<Ref>, lost: multiset<Ref>)
    requires Counted(h, roots, lost) && IsVariable(h, v) && h' == Emptied(h, v) && q != v && Holds(h, q, r)
    requires Supported(h', starts, before) && q in before && forall x :: x in PendingRefs(h) ==> x in starts
    ensures Supported(h', starts, before + {r})
  {
    hide FieldRefs, PendingRefs, Ptrs, PendingOf;
    var all := roots + lost + FieldRefs(h) + PendingRefs(h);
    HeldIsCounted(h, q, r);
    assert r in all;
    PendingRefsUpdate(h, q, h[q]);
    var keep := before + {r};
    forall x | x in before && HeldBy(h', before, x) ensures HeldBy(h', keep, x) {
    }
    assert h'[q] == h[q];
    MembersAreFields(h[q], r);
    assert HasMember(h'[q].body, Ptr(r)) ==> HeldBy(h', keep, r);
  }

  /** On an acyclic graph, every object has a supported set in which v, behind it, holds nothing. */
  lemma {:induction false} PathIsSupported(h: Store, rank: seq<nat>, v: Ref, roots: multiset<Ref>,
                                           lost: multiset<Ref>, p: Path)
    returns (keep: set<Ref>)
    requires Counted(h, roots, lost) && Acyclic(h, rank) && IsVariable(h, v)
    requires IsPath(h, roots + lost, p) && p.end < |h| && rank[p.end] >= rank[v]
    ensures p.end in keep && Supported(Emptied(h, v), roots + lost + PendingRefs(h), keep)
    decreases p
  {
    hide FieldRefs, PendingRefs, Ptrs;
    RefsAreLive(h, roots, lost);
    var h', starts := Emptied(h, v), roots + lost + PendingRefs(h);
    match p
    case Start(r) =>
      keep := {r};
    case Step(prev, r) =>
      var q := prev.end;
      assert Holds(h, q, r) && rank[r] < rank[q];
      HeldIsCounted(h, q, r);
      var before := PathIsSupported(h, rank, v, roots, lost, prev);
      keep := before + {r};
      StepIsSupported(h, h', v, starts, before, q, r, roots, lost);
  }

  /** On an acyclic graph, updating a variable never finalises the variable itself. */
  lemma UpdatedSurvives(h: Store, rank: seq<nat>, v: Ref, roots: multiset<Ref>, lost: multiset<Ref>)
    requires Counted(h, roots, lost) && Acyclic(h, rank) && IsVariable(h, v) && HasEvent(h[v])
    ensures v !in DropAll(Emptied(h, v), [h[v].body.value]).cancelled
  {
    LiveIsReachable(h, rank, roots, lost, v);
    var p :| IsPath(h, roots + lost, p) && p.end == v;
    hide Counted, FieldRefs, PendingRefs, Ptrs, Supported, DropAll, IsPath, Acyclic;
    var keep := PathIsSupported(h, rank, v, roots, lost, p);
    UpdatedIsFinalisedIff(h, v, roots, lost);
  }

  /** A variable that holds the only reference to itself. */
  const SELF_HELD: Store := [Obj(1, SvBody(Ptr(0), 5, Packed(1)))]

  lemma SelfHeldCounted()
    ensures Counted(SELF_HELD, multiset{}, multiset{})
  {
    var h := SELF_HELD;
    RefsOfOne(h);
    PtrsOfOne(Ptr(0));
    PtrsOfOne(Packed(1));
    assert FieldsOf(h[0]) == [Ptr(0)] && PendingOf(h[0]) == [Packed(1)];
    hide FieldRefs, PendingRefs, Ptrs, PendingOf, FieldsOf;
    assert multiset{} + multiset{} + FieldRefs(h) + PendingRefs(h) == multiset{0};
  }

  /** On a cycle that nothing else refers to, updating a variable does finalise it. */
  lemma SelfHeldIsFinalised()
    ensures Counted(SELF_HELD, multiset{}, multiset{}) && HasEvent(SELF_HELD[0])
    ensures 0 in DropAll(Emptied(SELF_HELD, 0), [SELF_HELD[0].body.value]).cancelled
  {
    SelfHeldCounted();
    var h := Emptied(SELF_HELD, 0);
    assert [Ptr(0)][1..] == [] && Fields(h[0].body) + [Ptr(0)][1..] == [Packed(0)];
    hide Counted;
  }

  lemma DropNone(h: Store)
    ensures DropAll(h, []) == Dropped(h, [])
  {
  }

  /** Dropping the first values of a list, then one more. */
  lemma DropOneMore(h: Store, vs: seq<Value>, i: nat)
    requires DropOk(h, vs) && i < |vs|
    ensures var d := DropAll(h, vs[..i]); var e := DropAll(d.store, [vs[i]]);
      && DropOk(d.store, [vs[i]]) && LiveSet(d.store) <= LiveSet(h)
      && DropAll(h, vs[..i + 1]) == Dropped(e.store, d.cancelled + e.cancelled)
  {
    hide DropAll, DropOk;
    assert vs[..i + 1] == vs[..i] + [vs[i]] && vs == vs[..i + 1] + vs[i + 1..];
    DropConcat(h, vs[..i + 1], vs[i + 1..]);
    DropConcat(h, vs[..i], [vs[i]]);
    DropKeepsBodies(h, vs[..i]);
  }

  // ---------- the memory itself ----------

  /** An object that is being finalised: its count is zero but it is not freed yet. */
  predicate Dying(c: Cell) {
    c.Obj? && c.rc == 0
  }

  /** The store without the objects being finalised. */
  ghost function Settle(h: Store): (s: Store)
    ensures |s| == |h| && forall i :: 0 <= i < |h| ==> s[i] == if Dying(h[i]) then Free else h[i]
  {
    seq(|h|, i requires 0 <= i < |h| => if Dying(h[i]) then Free else h[i])
  }

  /** Objects being finalised are left alone, and no others are left in that state. */
  ghost predicate SameDying(h: Store, h': Store) {
    |h'| == |h| && forall i :: 0 <= i < |h| ==> (Dying(h[i]) ==> h'[i] == h[i]) && (Dying(h'[i]) ==> Dying(h[i]))
  }

  class Heap {
    var cells: Store

    /** The variables in the event queue. */
    var queue: set<Ref>

    /** The variables unscheduled so far, in order. */
    ghost var cancelled: seq<Ref>

    /** The event queue holds exactly the variables, still in memory, that have a pending update. */
    ghost predicate QueueInv()
      reads this
    {
      queue == set i | 0 <= i < |cells| && HasEvent(cells[i])
    }

    constructor ()
      ensures cells == [] && QueueInv() && cancelled == []
    {
      cells, queue, cancelled := [], {}, [];
    }

    method New(body: Body) returns (v: Value)
      requires QueueInv() && (body.SvBody? ==> body.laterTime == NEVER)
      modifies this`cells
      ensures QueueInv() && v == Ptr(|old(cells)|) && cells == old(cells) + [Obj(1, body)]
    {
      v := Ptr(|cells|);
      cells := cells + [Obj(1, body)];
    }

    /** Adds a reference; the count has eight bits and wraps around. */
    method Dup(v: Value)
      requires v.Ptr? ==> v.ref < |cells| && cells[v.ref].Obj?
      requires QueueInv()
      modifies this`cells
      ensures QueueInv()
      ensures cells == if v.Packed? then old(cells) else
        old(cells)[v.ref := WithRc(old(cells[v.ref]), (old(cells[v.ref].rc) + 1) % 256)]
    {
      if v.Ptr? {
        cells := cells[v.ref := WithRc(cells[v.ref], (cells[v.ref].rc + 1) % 256)];
      }
    }

    method Unschedule(r: Ref)
      requires QueueInv() && r < |cells| && cells[r].Obj? && cells[r].body.SvBody?
      modifies this
      ensures QueueInv() && cells == old(cells)[r := Obj(old(cells[r].rc), old(cells[r].body).(laterTime := NEVER))]
      ensures cancelled == old(cancelled) + if HasEvent(old(cells[r])) then [r] else []
    {
      if cells[r].body.laterTime != NEVER {
        queue := queue - {r};
        cells := cells[r := Obj(cells[r].rc, cells[r].body.(laterTime := NEVER))];
        cancelled := cancelled + [r];
      }
    }

    /** Gives a reference up, and finalises the object if it was the last one. */
    method Drop(v: Value)
      requires QueueInv() && DropOk(Settle(cells), [v])
      modifies this
      ensures QueueInv() && SameDying(old(cells), cells)
      ensures Settle(cells) == DropAll(Settle(old(cells)), [v]).store
      ensures cancelled == old(cancelled) + DropAll(Settle(old(cells)), [v]).cancelled
      decreases LiveSet(Settle(cells)), 0
    {
      ghost var h := Settle(cells);
      assert [v][1..] == [];
      if v.Packed? {
        return;
      }
      var r := v.ref;
      assert h[r] == cells[r];
      cells := cells[r := WithRc(cells[r], cells[r].rc - 1)];
      if cells[r].rc == 0 {
        assert Settle(cells) == h[r := Free];
        assert r in LiveSet(h) && LiveSet(Settle(cells)) < LiveSet(h);
        assert Fields(h[r].body) + [v][1..] == Fields(h[r].body);
        DropFinal(r);
      } else {
        assert Settle(cells) == h[r := WithRc(h[r], h[r].rc - 1)];
      }
    }

    /** Finalises an object: cancels its update, drops what it holds in fields, and frees it.

        The update is cancelled before the pending value is looked at, so that value is never dropped. */
    method DropFinal(r: Ref)
      requires QueueInv() && r < |cells| && Dying(cells[r])
      requires DropOk(Settle(cells), Fields(cells[r].body))
      modifies this
      ensures QueueInv() && SameDying(old(cells)[r := Free], cells)
      ensures Settle(cells) == DropAll(Settle(old(cells)), Fields(old(cells[r].body))).store
      ensures cancelled == old(cancelled) + (if HasEvent(old(cells[r])) then [r] else [])
                           + DropAll(Settle(old(cells)), Fields(old(cells[r].body))).cancelled
      decreases LiveSet(Settle(cells)), 1
    {
      hide DropAll, DropOk, LiveSet;
      DropNone(Settle(cells));
      ghost var h := Settle(cells);
      ghost var vs := Fields(cells[r].body);
      if cells[r].body.SvBody? {
        Unschedule(r);
      }
      assert Settle(cells) == h;
      ghost var before := cells;
      ghost var cancelled' := cancelled;
      var i := 0;
      while i < |Fields(cells[r].body)|
        invariant SameDying(before, cells) && QueueInv() && i <= |vs|
        invariant Settle(cells) == DropAll(h, vs[..i]).store
        invariant cancelled == cancelled' + DropAll(h, vs[..i]).cancelled
      {
        DropOneMore(h, vs, i);
        Drop(Fields(cells[r].body)[i]);
        i := i + 1;
      }
      assert vs[..i] == vs;
      assert !HasEvent(cells[r]);
      cells := cells[r := Free];
    }
  }
}
