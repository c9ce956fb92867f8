/** Binary heaps stored from slot 1, seen as sequences.

    Slot 0 is unused. The key of an element is looked up in a map, because both queues of
    the scheduler hold pointers and compare a field of what they point at. */
module BinaryHeap {
  import opened Prelude

  /** Slots 1..n hold elements that have keys. */
  ghost predicate Keyed<T>(q: seq<T>, n: nat, key: map<T, nat>) {
    n < |q| && forall i :: 1 <= i <= n ==> q[i] in key
  }

  /** No element is earlier than its parent. */
  ghost predicate Ordered<T>(q: seq<T>, n: nat, key: map<T, nat>)
    requires Keyed(q, n, key)
  {
    forall i :: 2 <= i <= n ==> key[q[i / 2]] <= key[q[i]]
  }

  /** Children of `hole` are not earlier than its parent. */
  ghost predicate Bridged<T>(q: seq<T>, n: nat, key: map<T, nat>, hole: nat)
    requires Keyed(q, n, key)
  {
    forall i :: 2 <= i <= n && i / 2 == hole && 1 <= hole / 2 ==> key[q[hole / 2]] <= key[q[i]]
  }

  /** A heap except that the element at `hole` may be earlier than its ancestors. */
  ghost predicate UpReady<T>(q: seq<T>, n: nat, key: map<T, nat>, hole: nat)
    requires Keyed(q, n, key)
  {
    && (forall i :: 2 <= i <= n && i != hole ==> key[q[i / 2]] <= key[q[i]])
    && Bridged(q, n, key, hole)
  }

  /** A heap except that the element at `hole` may be later than its descendants. */
  ghost predicate DownReady<T>(q: seq<T>, n: nat, key: map<T, nat>, hole: nat)
    requires Keyed(q, n, key)
  {
    && (forall i :: 2 <= i <= n && i / 2 != hole ==> key[q[i / 2]] <= key[q[i]])
    && Bridged(q, n, key, hole)
  }

  /** What is stored in slots 1..n, with multiplicity. */
  ghost function Elems<T>(q: seq<T>, n: nat): multiset<T>
    requires n < |q|
  {
    multiset(q[1..n + 1])
  }

  function Swap<T>(q: seq<T>, i: nat, j: nat): (r: seq<T>)
    requires i < |q| && j < |q|
    ensures |r| == |q|
  {
    q[i := q[j]][j := q[i]]
  }

  lemma ReplaceElems<T>(q: seq<T>, n: nat, i: nat, x: T)
    requires 1 <= i <= n < |q|
    ensures Elems(q[i := x], n) == Elems(q, n) - multiset{q[i]} + multiset{x}
  {
    assert q[i := x][1..n + 1] == q[1..n + 1][i - 1 := x];
  }

  lemma TakePut<T>(e: multiset<T>, x: T, y: T)
    requires x in e
    ensures e - multiset{x} + multiset{y} - multiset{y} + multiset{x} == e
  {
  }

  lemma ElemsMember<T>(q: seq<T>, n: nat, i: nat)
    requires 1 <= i <= n < |q|
    ensures q[i] in Elems(q, n)
  {
    assert q[1..n + 1][i - 1] == q[i];
  }

  lemma SwapElems<T>(q: seq<T>, n: nat, i: nat, j: nat)
    requires 1 <= i <= n < |q| && 1 <= j <= n
    ensures Elems(Swap(q, i, j), n) == Elems(q, n)
  {
    var e := Elems(q, n);
    ElemsMember(q, n, i);
    ReplaceElems(q, n, i, q[j]);
    ReplaceElems(q[i := q[j]], n, j, q[i]);
    assert Elems(Swap(q, i, j), n) == e - multiset{q[i]} + multiset{q[j]} - multiset{q[j]} + multiset{q[i]};
    TakePut(e, q[i], q[j]);
  }

  lemma MemberIndex<T>(q: seq<T>, n: nat, x: T) returns (i: nat)
    requires n < |q| && x in Elems(q, n)
    ensures 1 <= i <= n && q[i] == x
  {
    var j :| 0 <= j < n && q[1..n + 1][j] == x;
    i := j + 1;
  }

  lemma EmptyElems<T>(q: seq<T>)
    requires 0 < |q|
    ensures Elems(q, 0) == multiset{}
  {
  }

  lemma AppendElems<T>(q: seq<T>, n: nat, x: T)
    requires n + 1 < |q|
    ensures Elems(q[n + 1 := x], n + 1) == Elems(q, n) + multiset{x}
  {
    assert q[n + 1 := x][1..n + 2] == q[1..n + 1] + [x];
  }

  lemma ShrinkElems<T>(q: seq<T>, n: nat)
    requires 1 <= n < |q|
    ensures Elems(q, n) == Elems(q, n - 1) + multiset{q[n]}
  {
    assert q[1..n + 1] == q[1..n] + [q[n]];
  }

  /** The first n slots are a heap of exactly the given elements. */
  ghost predicate HeapOf<T>(q: seq<T>, n: nat, key: map<T, nat>, elems: set<T>) {
    Keyed(q, n, key) && Ordered(q, n, key) && Elems(q, n) == multiset(elems)
  }

  /** When the slots hold exactly a set, no element sits in two slots. */
  lemma DistinctSlots<T>(q: seq<T>, n: nat, elems: set<T>, i: nat, j: nat)
    requires n < |q| && Elems(q, n) == multiset(elems)
    requires 1 <= i < j <= n
    ensures q[i] != q[j]
  {
    var s := q[1..n + 1];
    assert s == s[..i - 1] + [s[i - 1]] + s[i..];
    assert s[i..][j - i - 1] == s[j - 1];
    assert multiset(s) == multiset(s[..i - 1]) + multiset{s[i - 1]} + multiset(s[i..]);
    assert s[j - 1] in multiset(s[i..]);
    assert multiset(elems)[q[i]] <= 1;
  }

  /** The root of a heap is a minimum. */
  lemma {:induction false} RootIsMin<T>(q: seq<T>, n: nat, key: map<T, nat>, i: nat)
    requires Keyed(q, n, key) && Ordered(q, n, key)
    requires 1 <= i <= n
    ensures key[q[1]] <= key[q[i]]
  {
    if i > 1 {
      RootIsMin(q, n, key, i / 2);
    }
  }

  /** Moving an earlier element one level up keeps the rest of the heap in order. */
  lemma StepUp<T>(q: seq<T>, n: nat, key: map<T, nat>, hole: nat)
    requires Keyed(q, n, key) && UpReady(q, n, key, hole)
    requires 2 <= hole <= n && key[q[hole]] < key[q[hole / 2]]
    ensures Keyed(Swap(q, hole, hole / 2), n, key)
    ensures UpReady(Swap(q, hole, hole / 2), n, key, hole / 2)
  {
  }

  /** Moving the earlier child up keeps the rest of the heap in order. */
  lemma StepDown<T>(q: seq<T>, n: nat, key: map<T, nat>, hole: nat, child: nat)
    requires Keyed(q, n, key) && DownReady(q, n, key, hole)
    requires 1 <= hole && (child == 2 * hole || child == 2 * hole + 1) && child <= n
    requires 2 * hole <= n ==> key[q[child]] <= key[q[2 * hole]]
    requires 2 * hole + 1 <= n ==> key[q[child]] <= key[q[2 * hole + 1]]
    requires key[q[child]] <= key[q[hole]]
    ensures Keyed(Swap(q, hole, child), n, key)
    ensures DownReady(Swap(q, hole, child), n, key, child)
  {
    var s := Swap(q, hole, child);
    forall i | 2 <= i <= n && i / 2 != child
      ensures key[s[i / 2]] <= key[s[i]]
    {
      if i / 2 == hole {
        assert i == 2 * hole || i == 2 * hole + 1;
      }
    }
  }

  /** The keys of all elements but `x` are the same. */
  ghost predicate SameKeysBut<T>(elems: set<T>, key: map<T, nat>, key': map<T, nat>, x: T) {
    forall y :: y in elems && y in key && y != x ==> y in key' && key'[y] == key[y]
  }

  /** Adding an element behind the last slot. */
  lemma InsertReady<T>(q: seq<T>, n: nat, key: map<T, nat>, elems: set<T>, key': map<T, nat>, x: T)
    requires Keyed(q, n, key) && Ordered(q, n, key) && Elems(q, n) == multiset(elems)
    requires n + 1 < |q| && x !in elems && x in key' && SameKeysBut(elems, key, key', x)
    ensures Keyed(q[n + 1 := x], n + 1, key') && UpReady(q[n + 1 := x], n + 1, key', n + 1)
    ensures Elems(q[n + 1 := x], n + 1) == multiset(elems + {x})
  {
    forall i | 1 <= i <= n ensures q[i] in elems {
      ElemsMember(q, n, i);
    }
    AppendElems(q, n, x);
  }

  /** The comparison with the parent decides the direction in which to move the element at `hole`. */
  lemma Perturbed<T>(q: seq<T>, n: nat, key: map<T, nat>, x: T, key': map<T, nat>, hole: nat)
    requires Keyed(q, n, key) && Ordered(q, n, key)
    requires 1 <= hole <= n && x in key'
    requires forall i :: 1 <= i <= n && i != hole ==> q[i] in key' && key'[q[i]] == key[q[i]]
    ensures Keyed(q[hole := x], n, key')
    ensures hole == 1 || key'[q[hole / 2]] < key'[x] ==> DownReady(q[hole := x], n, key', hole)
    ensures hole > 1 && key'[x] <= key'[q[hole / 2]] ==> UpReady(q[hole := x], n, key', hole)
  {
    var q' := q[hole := x];
    forall i | 2 <= i <= n && i / 2 == hole && 1 <= hole / 2
      ensures key'[q'[hole / 2]] <= key'[q'[i]]
    {
      assert key[q[i / 2]] <= key[q[i]];
      assert key[q[hole / 2]] <= key[q[hole]];
    }
  }

  lemma Others<T>(q: seq<T>, n: nat, key: map<T, nat>, elems: set<T>, key': map<T, nat>, hole: nat)
    requires Keyed(q, n, key) && Elems(q, n) == multiset(elems)
    requires 1 <= hole <= n && SameKeysBut(elems, key, key', q[hole])
    ensures forall i :: 1 <= i <= n && i != hole ==> q[i] in key' && key'[q[i]] == key[q[i]]
  {
    forall i | 1 <= i <= n && i != hole
      ensures q[i] in key' && key'[q[i]] == key[q[i]]
    {
      ElemsMember(q, n, i);
      if i < hole {
        DistinctSlots(q, n, elems, i, hole);
      } else {
        DistinctSlots(q, n, elems, hole, i);
      }
    }
  }

  /** Changing the key of the element at `hole`. */
  lemma RekeyReady<T>(q: seq<T>, n: nat, key: map<T, nat>, elems: set<T>, key': map<T, nat>, hole: nat)
    requires Keyed(q, n, key) && Ordered(q, n, key) && Elems(q, n) == multiset(elems)
    requires 1 <= hole <= n && q[hole] in key' && SameKeysBut(elems, key, key', q[hole])
    ensures Keyed(q, n, key') && (hole > 1 ==> q[hole / 2] in key')
    ensures hole == 1 || key'[q[hole / 2]] < key'[q[hole]] ==> DownReady(q, n, key', hole)
    ensures hole > 1 && key'[q[hole]] <= key'[q[hole / 2]] ==> UpReady(q, n, key', hole)
  {
    Others(q, n, key, elems, key', hole);
    assert q[hole := q[hole]] == q;
    Perturbed(q, n, key, q[hole], key', hole);
  }

  /** Dropping the last slot, when the element to remove sits there. */
  lemma RemoveLast<T>(q: seq<T>, n: nat, key: map<T, nat>, elems: set<T>, key': map<T, nat>)
    requires Keyed(q, n, key) && Ordered(q, n, key) && Elems(q, n) == multiset(elems)
    requires 1 <= n && SameKeysBut(elems, key, key', q[n])
    ensures Keyed(q, n - 1, key') && Ordered(q, n - 1, key')
    ensures Elems(q, n - 1) == multiset(elems - {q[n]})
  {
    Others(q, n, key, elems, key', n);
    ElemsMember(q, n, n);
    ShrinkElems(q, n);
    assert Elems(q, n - 1) == multiset(elems) - multiset{q[n]};
  }

  /** Filling the slot of a removed element with the last element. */
  lemma RemoveReady<T>(q: seq<T>, n: nat, key: map<T, nat>, elems: set<T>, key': map<T, nat>, hole: nat)
    requires Keyed(q, n, key) && Ordered(q, n, key) && Elems(q, n) == multiset(elems)
    requires 1 <= hole < n && SameKeysBut(elems, key, key', q[hole])
    ensures Keyed(q[hole := q[n]], n - 1, key') && q[n] in key' && (hole > 1 ==> q[hole / 2] in key')
    ensures hole == 1 || key'[q[hole / 2]] < key'[q[n]] ==> DownReady(q[hole := q[n]], n - 1, key', hole)
    ensures hole > 1 && key'[q[n]] <= key'[q[hole / 2]] ==> UpReady(q[hole := q[n]], n - 1, key', hole)
    ensures Elems(q[hole := q[n]], n - 1) == multiset(elems - {q[hole]})
    ensures hole > 1 ==> q[1] in key' && key'[q[1]] <= key'[q[n]]
  {
    Others(q, n, key, elems, key', hole);
    Perturbed(q, n - 1, key, q[n], key', hole);
    ElemsMember(q, n, hole);
    ShrinkElems(q, n);
    ReplaceElems(q, n - 1, hole, q[n]);
    ElemsMember(q, n - 1, hole);
    assert Elems(q[hole := q[n]], n - 1) == multiset(elems) - multiset{q[hole]};
    RootIsMin(q, n, key, n);
  }

  // ---------- the array after an operation ----------

  /** The array once the element at `h` has risen past all later parents. */
  ghost function PercolatedUp<T>(q: seq<T>, key: map<T, nat>, h: nat): seq<T>
    requires 1 <= h < |q|
    decreases h
  {
    if h > 1 && q[h] in key && q[h / 2] in key && key[q[h]] < key[q[h / 2]]
    then PercolatedUp(Swap(q, h, h / 2), key, h / 2)
    else q
  }

  ghost function EarlierChild<T>(q: seq<T>, n: nat, key: map<T, nat>, h: nat): nat
    requires 2 * h <= n < |q|
  {
    if 2 * h + 1 <= n && q[2 * h] in key && q[2 * h + 1] in key && key[q[2 * h + 1]] < key[q[2 * h]]
    then 2 * h + 1
    else 2 * h
  }

  /** The array once the element at `h` has sunk below all children that are not later. */
  ghost function PercolatedDown<T>(q: seq<T>, n: nat, key: map<T, nat>, h: nat): seq<T>
    requires 1 <= h && n < |q|
    decreases n - h
  {
    if 2 * h > n then q
    else
      var c := EarlierChild(q, n, key, h);
      if q[h] in key && q[c] in key && key[q[h]] < key[q[c]] then q
      else PercolatedDown(Swap(q, h, c), n, key, c)
  }

  /** One turn of the way down. */
  lemma DownTurn<T>(q: seq<T>, n: nat, key: map<T, nat>, h: nat)
    requires 1 <= h <= n && Keyed(q, n, key)
    ensures 2 * h > n ==> PercolatedDown(q, n, key, h) == q
    ensures 2 * h <= n ==>
      var c := EarlierChild(q, n, key, h);
      q[h] in key && q[c] in key &&
      PercolatedDown(q, n, key, h) == if key[q[h]] < key[q[c]] then q else PercolatedDown(Swap(q, h, c), n, key, c)
  {
  }

  /** The array once the element at `hole` has been moved up or down, whichever its parent says. */
  ghost function Repositioned<T>(q: seq<T>, n: nat, key: map<T, nat>, hole: nat): seq<T>
    requires 1 <= hole < |q| && n < |q|
  {
    if hole == 1 || (q[hole / 2] in key && q[hole] in key && key[q[hole / 2]] < key[q[hole]])
    then PercolatedDown(q, n, key, hole)
    else PercolatedUp(q, key, hole)
  }

  /** The array of n elements once the one at `hole` has been replaced by the last. */
  ghost function Removed<T>(q: seq<T>, n: nat, key: map<T, nat>, hole: nat): seq<T>
    requires 1 <= hole <= n < |q|
  {
    if hole < n then Repositioned(q[hole := q[n]], n - 1, key, hole) else q
  }

  // ---------- what the array functions do ----------

  lemma {:induction false} UpOrders<T>(q: seq<T>, n: nat, key: map<T, nat>, h: nat)
    requires 1 <= h <= n && Keyed(q, n, key) && UpReady(q, n, key, h)
    ensures Keyed(PercolatedUp(q, key, h), n, key) && Ordered(PercolatedUp(q, key, h), n, key)
    decreases h
  {
    if h > 1 && key[q[h]] < key[q[h / 2]] {
      StepUp(q, n, key, h);
      UpOrders(Swap(q, h, h / 2), n, key, h / 2);
    }
  }

  lemma {:induction false} DownOrders<T>(q: seq<T>, n: nat, key: map<T, nat>, h: nat)
    requires 1 <= h <= n && Keyed(q, n, key) && DownReady(q, n, key, h)
    ensures Keyed(PercolatedDown(q, n, key, h), n, key) && Ordered(PercolatedDown(q, n, key, h), n, key)
    decreases n - h
  {
    DownTurn(q, n, key, h);
    if 2 * h <= n {
      var c := EarlierChild(q, n, key, h);
      if key[q[h]] < key[q[c]] {
        forall i | 2 <= i <= n && i / 2 == h ensures key[q[h]] <= key[q[i]] {
          assert i == 2 * h || i == 2 * h + 1;
        }
      } else {
        StepDown(q, n, key, h, c);
        DownOrders(Swap(q, h, c), n, key, c);
      }
    }
  }

  lemma {:induction false} UpKeepsElems<T>(q: seq<T>, n: nat, key: map<T, nat>, h: nat)
    requires 1 <= h <= n < |q|
    ensures |PercolatedUp(q, key, h)| == |q| && Elems(PercolatedUp(q, key, h), n) == Elems(q, n)
    ensures forall i :: n < i < |q| ==> PercolatedUp(q, key, h)[i] == q[i]
    decreases h
  {
    hide Elems;
    if h > 1 && q[h] in key && q[h / 2] in key && key[q[h]] < key[q[h / 2]] {
      SwapElems(q, n, h, h / 2);
      UpKeepsElems(Swap(q, h, h / 2), n, key, h / 2);
    }
  }

  lemma {:induction false} DownKeepsElems<T>(q: seq<T>, n: nat, key: map<T, nat>, h: nat)
    requires 1 <= h <= n < |q|
    ensures |PercolatedDown(q, n, key, h)| == |q| && Elems(PercolatedDown(q, n, key, h), n) == Elems(q, n)
    ensures forall i :: n < i < |q| ==> PercolatedDown(q, n, key, h)[i] == q[i]
    decreases n - h
  {
    hide Elems;
    if 2 * h <= n {
      var c := EarlierChild(q, n, key, h);
      SwapElems(q, n, h, c);
      DownKeepsElems(Swap(q, h, c), n, key, c);
    }
  }

  /** What percolating up does to any array, and to one in which only the element at `h` is out of order. */
  lemma UpPercolates<T>(q: seq<T>, n: nat, key: map<T, nat>, h: nat)
    requires 1 <= h <= n && Keyed(q, n, key)
    ensures |PercolatedUp(q, key, h)| == |q| && Elems(PercolatedUp(q, key, h), n) == Elems(q, n)
    ensures forall i :: n < i < |q| ==> PercolatedUp(q, key, h)[i] == q[i]
    ensures UpReady(q, n, key, h) ==>
      Keyed(PercolatedUp(q, key, h), n, key) && Ordered(PercolatedUp(q, key, h), n, key)
  {
    hide Elems, UpReady, Ordered, PercolatedUp;
    UpKeepsElems(q, n, key, h);
    if UpReady(q, n, key, h) {
      UpOrders(q, n, key, h);
    }
  }

  /** What percolating down does to any array, and to one in which only the element at `h` is out of order. */
  lemma DownPercolates<T>(q: seq<T>, n: nat, key: map<T, nat>, h: nat)
    requires 1 <= h <= n && Keyed(q, n, key)
    ensures |PercolatedDown(q, n, key, h)| == |q| && Elems(PercolatedDown(q, n, key, h), n) == Elems(q, n)
    ensures forall i :: n < i < |q| ==> PercolatedDown(q, n, key, h)[i] == q[i]
    ensures DownReady(q, n, key, h) ==>
      Keyed(PercolatedDown(q, n, key, h), n, key) && Ordered(PercolatedDown(q, n, key, h), n, key)
  {
    hide Elems, DownReady, Ordered, PercolatedDown;
    DownKeepsElems(q, n, key, h);
    if DownReady(q, n, key, h) {
      DownOrders(q, n, key, h);
    }
  }

  lemma {:induction false} UpKeepsRoot<T>(q: seq<T>, key: map<T, nat>, h: nat)
    requires 1 < h < |q| && q[1] in key && q[h] in key && key[q[1]] <= key[q[h]]
    ensures |PercolatedUp(q, key, h)| == |q| && PercolatedUp(q, key, h)[1] == q[1]
    decreases h
  {
    if q[h / 2] in key && key[q[h]] < key[q[h / 2]] {
      UpKeepsRoot(Swap(q, h, h / 2), key, h / 2);
    }
  }

  lemma {:induction false} DownKeepsRoot<T>(q: seq<T>, n: nat, key: map<T, nat>, h: nat)
    requires 1 < h <= n < |q|
    ensures |PercolatedDown(q, n, key, h)| == |q| && PercolatedDown(q, n, key, h)[1] == q[1]
    decreases n - h
  {
    if 2 * h <= n {
      var c := EarlierChild(q, n, key, h);
      DownKeepsRoot(Swap(q, h, c), n, key, c);
    }
  }

  lemma RepositionedKeepsElems<T>(q: seq<T>, n: nat, key: map<T, nat>, hole: nat)
    requires 1 <= hole <= n < |q|
    ensures |Repositioned(q, n, key, hole)| == |q| && Elems(Repositioned(q, n, key, hole), n) == Elems(q, n)
  {
    UpKeepsElems(q, n, key, hole);
    DownKeepsElems(q, n, key, hole);
  }

  /** Another element than the root does not get to the root, unless it is earlier. */
  lemma RepositionedKeepsRoot<T>(q: seq<T>, n: nat, key: map<T, nat>, hole: nat)
    requires 1 < hole <= n < |q| && q[1] in key && q[hole] in key && key[q[1]] <= key[q[hole]]
    ensures |Repositioned(q, n, key, hole)| == |q| && Repositioned(q, n, key, hole)[1] == q[1]
  {
    UpKeepsRoot(q, key, hole);
    DownKeepsRoot(q, n, key, hole);
  }

  /** Repositioning keeps the elements, and orders the array if only the chosen direction is open. */
  lemma RepositionedOrders<T>(q: seq<T>, n: nat, key: map<T, nat>, hole: nat)
    requires 1 <= hole <= n && Keyed(q, n, key)
    requires hole == 1 || key[q[hole / 2]] < key[q[hole]] ==> DownReady(q, n, key, hole)
    requires hole > 1 && key[q[hole]] <= key[q[hole / 2]] ==> UpReady(q, n, key, hole)
    ensures var r := Repositioned(q, n, key, hole);
      |r| == |q| && Keyed(r, n, key) && Ordered(r, n, key) && Elems(r, n) == Elems(q, n)
  {
    hide Elems, Ordered, DownReady, UpReady, PercolatedDown, PercolatedUp;
    UpKeepsElems(q, n, key, hole);
    DownKeepsElems(q, n, key, hole);
    if hole == 1 || key[q[hole / 2]] < key[q[hole]] {
      DownOrders(q, n, key, hole);
    } else {
      UpOrders(q, n, key, hole);
    }
  }

  /** Filling the slot of a removed element with the last element. */
  lemma FilledElems<T>(q: seq<T>, n: nat, hole: nat)
    requires 1 <= hole <= n < |q|
    ensures Elems(q[hole := q[n]], n - 1) == Elems(q, n) - multiset{q[hole]}
  {
    hide Elems;
    ShrinkElems(q, n);
    if hole < n {
      ReplaceElems(q, n - 1, hole, q[n]);
      ElemsMember(q, n - 1, hole);
    } else {
      assert q[n := q[n]] == q;
    }
  }

  /** Removal takes exactly the removed element away, also where the array is not a heap. */
  lemma RemovedKeepsElems<T>(q: seq<T>, n: nat, key: map<T, nat>, hole: nat, elems: set<T>)
    requires 1 <= hole <= n < |q| && Elems(q, n) == multiset(elems)
    ensures |Removed(q, n, key, hole)| == |q| && Elems(Removed(q, n, key, hole), n - 1) == multiset(elems - {q[hole]})
  {
    hide Repositioned, Elems;
    ElemsMember(q, n, hole);
    FilledElems(q, n, hole);
    if hole < n {
      RepositionedKeepsElems(q[hole := q[n]], n - 1, key, hole);
    } else {
      assert q[n := q[n]] == q;
    }
    assert multiset(elems) - multiset{q[hole]} == multiset(elems - {q[hole]});
  }

  lemma FilledKeyed<T>(q: seq<T>, n: nat, key: map<T, nat>, hole: nat)
    requires Keyed(q, n, key) && 1 <= hole <= n
    ensures Keyed(q[hole := q[n]], n - 1, key)
  {
  }

  /** The depth of a slot in the tree, the floor of its base-two logarithm. */
  function Level(slot: nat): (d: nat)
    requires slot >= 1
  {
    if slot == 1 then 0 else 1 + Level(slot / 2)
  }

  lemma LevelOfChild(slot: nat, child: nat)
    requires 1 <= slot && (child == 2 * slot || child == 2 * slot + 1)
    ensures Level(child) == Level(slot) + 1
  {
  }

  /** Level is the exponent of the power of two at or below the slot number. */
  lemma {:induction false} LevelIsLog(slot: nat)
    requires slot >= 1
    ensures Pow2(Level(slot)) <= slot < Pow2(Level(slot) + 1)
  {
    if slot > 1 {
      LevelIsLog(slot / 2);
    }
  }

  lemma {:induction false} LevelMonotone(a: nat, b: nat)
    requires 1 <= a <= b
    ensures Level(a) <= Level(b)
  {
    if a > 1 {
      LevelMonotone(a / 2, b / 2);
    }
  }
}
