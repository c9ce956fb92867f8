/** When dropping the old pending value of a variable that is rescheduled does harm. */
module PendingDrop {
  import opened Prelude
  import opened BinaryHeap
  import opened EventQueue

  /** Four variables for time `o` and a last one for time `w`. */
  function LaterQueue(o: nat, w: nat): Queue<nat> {
    Queue([0, 1, 2, 3, 4, 5], 5, map[1 := o, 2 := o, 3 := o, 4 := o, 5 := w])
  }

  /** The numbers from 1 to n. */
  ghost function Ids(n: nat): set<nat> {
    if n == 0 then {} else Ids(n - 1) + {n}
  }

  lemma {:induction false} IdsAreSmall(n: nat)
    ensures forall x :: x in Ids(n) <==> 1 <= x <= n
  {
    if n > 0 { IdsAreSmall(n - 1); }
  }

  lemma {:induction false} IdElems(q: seq<nat>, n: nat)
    requires n < |q| && forall i :: 1 <= i <= n ==> q[i] == i
    ensures Elems(q, n) == multiset(Ids(n))
  {
    if n > 0 {
      ShrinkElems(q, n);
      IdElems(q, n - 1);
      IdsAreSmall(n - 1);
    } else {
      EmptyElems(q);
    }
  }

  lemma LaterQueueIsQueue(o: nat, w: nat)
    requires o < w < NEVER
    ensures IsQueue(LaterQueue(o, w), Ids(5))
  {
    IdElems(LaterQueue(o, w).q, 5);
    IdsAreSmall(5);
    hide Elems, Ids;
  }

  lemma LaterRepositioned(key: map<nat, nat>, o: nat, w: nat)
    requires o < w && {1, 3, 4, 5} <= key.Keys && key[1] == w && key[3] == o && key[4] == o && key[5] == w
    ensures Repositioned([0, 1, 5, 3, 4, 5], 4, key, 1) == [0, 3, 5, 1, 4, 5]
    ensures !IsHeap(Queue([0, 3, 5, 1, 4, 5], 4, key))
  {
    var q, r := [0, 1, 5, 3, 4, 5], [0, 3, 5, 1, 4, 5];
    assert Swap(q, 1, 3) == r;
    DownTurn(q, 4, key, 1);
    DownTurn(r, 4, key, 3);
    assert 4 / 2 == 2 && key[r[4 / 2]] == w && key[r[4]] == o;
  }

  /** Moving variable 1 from `o` to a later `w` while variable 2 is finalised. */
  lemma LaterBreaks(o: nat, w: nat)
    requires o < w < NEVER
    ensures !IsHeap(Rescheduled(LaterQueue(o, w), 1, w, [2]))
  {
    var s := LaterQueue(o, w);
    var key := s.key[1 := w];
    var s1 := s.(key := key);
    SlotIsFirst(s1, 2, 1, 2);
    var key2 := key[2 := NEVER];
    var s2 := Queue([0, 1, 5, 3, 4, 5], 4, key2);
    assert s.q[2 := 5] == s2.q;
    assert Repositioned(s2.q, 4, key2, 2) == s2.q;
    assert [2][1..] == [];
    assert UnscheduledAll(s1, [2]) == s2;
    SlotIsFirst(s2, 1, 1, 1);
    LaterRepositioned(s2.key, o, w);
  }

  /** Three variables for time `o` and one for a later time `m`. */
  function SkippingQueue(o: nat, m: nat): Queue<nat> {
    Queue([0, 1, 2, 3, 4], 4, map[1 := o, 2 := o, 3 := o, 4 := m])
  }

  lemma SkippingQueueIsQueue(o: nat, m: nat)
    requires o < m < NEVER
    ensures IsQueue(SkippingQueue(o, m), Ids(4))
  {
    IdElems(SkippingQueue(o, m).q, 4);
    IdsAreSmall(4);
    hide Elems, Ids;
  }

  lemma SkippingUnscheduled(s: Queue<nat>, o: nat, m: nat, w: nat)
    requires o < m < w < NEVER && s == SkippingQueue(o, m).(key := SkippingQueue(o, m).key[1 := w])
    ensures UnscheduledAll(s, [2]) == Queue([0, 4, 1, 3, 4], 3, s.key[2 := NEVER])
  {
    SlotIsFirst(s, 2, 1, 2);
    assert s.q[2 := 4] == [0, 1, 4, 3, 4] && Swap([0, 1, 4, 3, 4], 2, 1) == [0, 4, 1, 3, 4];
    assert [2][1..] == [];
  }

  /** The next event can be the wrong one. Moving variable 1 from `o` to `w` while variable 2 is
      finalised leaves the event of a time `m` in between at the root, although one for `o` is queued. */
  lemma LaterSkips(o: nat, m: nat, w: nat)
    requires o < m < w < NEVER
    ensures IsQueue(SkippingQueue(o, m), Ids(4))
    ensures var s := Rescheduled(SkippingQueue(o, m), 1, w, [2]);
      && !IsHeap(s) && s.n == 3 && Keyed(s.q, s.n, s.key)
      && s.key[s.q[1]] == m && s.q[3] == 3 && s.key[3] == o
  {
    SkippingQueueIsQueue(o, m);
    hide IsQueue, UnscheduledAll;
    var s := SkippingQueue(o, m);
    SkippingUnscheduled(s.(key := s.key[1 := w]), o, m, w);
    SlotIsFirst(Queue([0, 4, 1, 3, 4], 3, s.key[1 := w][2 := NEVER]), 1, 1, 2);
    assert 3 / 2 == 1;
  }

  /** Twelve variables: the left subtree and the last of the others for time `o`, the rest for time `w`. */
  function EarlierQueue(o: nat, w: nat): Queue<nat> {
    Queue([0, 1, 2, 3, 4, 5, 6, 7, 8, 9, 10, 11, 12], 12,
          map x: nat | 1 <= x <= 12 :: if x in [1, 3, 6, 7, 12] then w else o)
  }

  lemma EarlierQueueIsQueue(o: nat, w: nat)
    requires w < o < NEVER
    ensures IsQueue(EarlierQueue(o, w), Ids(12))
  {
    IdElems(EarlierQueue(o, w).q, 12);
    IdsAreSmall(12);
    hide Elems, Ids;
  }

  /** Its array after variable 8 has been finalised. */
  const EARLIER_ARRAY: seq<nat> := [0, 1, 2, 3, 4, 5, 6, 7, 12, 9, 10, 11, 12]

  lemma EarlierUnscheduled(s: Queue<nat>, o: nat, w: nat)
    requires w < o < NEVER && s == EarlierQueue(o, w).(key := EarlierQueue(o, w).key[4 := w])
    ensures UnscheduledAll(s, [8]) == Queue(EARLIER_ARRAY, 11, s.key[8 := NEVER])
  {
    hide SlotOf;
    SlotIsFirst(s, 8, 1, 8);
    assert s.q[8 := 12] == EARLIER_ARRAY;
    assert Repositioned(EARLIER_ARRAY, 11, s.key[8 := NEVER], 8) == EARLIER_ARRAY;
    assert [8][1..] == [];
  }

  lemma EarlierRepositioned(key: map<nat, nat>, o: nat, w: nat)
    requires w < o && {1, 2, 4, 12} <= key.Keys && key[1] == w && key[2] == o && key[4] == w && key[12] == w
    ensures Repositioned(EARLIER_ARRAY, 11, key, 4) == [0, 1, 4, 3, 2, 5, 6, 7, 12, 9, 10, 11, 12]
    ensures !IsHeap(Queue([0, 1, 4, 3, 2, 5, 6, 7, 12, 9, 10, 11, 12], 11, key))
  {
    var q, r := EARLIER_ARRAY, [0, 1, 4, 3, 2, 5, 6, 7, 12, 9, 10, 11, 12];
    assert Swap(q, 4, 2) == r;
    assert PercolatedUp(r, key, 2) == r;
    assert 8 / 2 == 4 && key[r[8 / 2]] == o && key[r[8]] == w;
  }

  /** Moving variable 4 from `o` to an earlier `w` while variable 8 is finalised. */
  lemma EarlierBreaks(o: nat, w: nat)
    requires w < o < NEVER
    ensures !IsHeap(Rescheduled(EarlierQueue(o, w), 4, w, [8]))
  {
    hide IsHeap, UnscheduledAll, Repositioned, SlotOf;
    var s := EarlierQueue(o, w);
    var s1 := s.(key := s.key[4 := w]);
    EarlierUnscheduled(s1, o, w);
    SlotIsFirst(Queue(EARLIER_ARRAY, 11, s1.key[8 := NEVER]), 4, 1, 4);
    EarlierRepositioned(s1.key[8 := NEVER], o, w);
  }

  /** Whatever the queue and whichever other variables are finalised, moving from `o` to `w` leaves a heap. */
  ghost predicate AlwaysSafe(o: nat, w: nat) {
    forall s: Queue<nat>, elems: set<nat>, v: nat, freed: seq<nat> ::
      IsQueue(s, elems) && v in elems && v !in freed && s.key[v] == o ==> IsHeap(Rescheduled(s, v, w, freed))
  }

  lemma UnsafeExample(o: nat, w: nat, s: Queue<nat>, elems: set<nat>, v: nat, x: nat)
    requires IsQueue(s, elems) && v in elems && v != x && s.key[v] == o && !IsHeap(Rescheduled(s, v, w, [x]))
    ensures !AlwaysSafe(o, w)
  {
    hide IsQueue, IsHeap, Rescheduled;
    assert v !in [x];
  }

  /** Rescheduling withstands finalisation in every queue if and only if the time stays the same. */
  lemma AlwaysSafeIffUnchanged(o: nat, w: nat)
    requires o < NEVER && w < NEVER
    ensures AlwaysSafe(o, w) <==> o == w
  {
    if o == w {
      forall s: Queue<nat>, elems: set<nat>, v: nat, freed: seq<nat> |
        IsQueue(s, elems) && v in elems && v !in freed && s.key[v] == o ensures IsHeap(Rescheduled(s, v, w, freed))
      {
        assert s.key[v := w] == s.key;
        hide Rescheduled;
        RescheduledIsHeap(s, elems, v, w, freed);
      }
    } else {
      hide IsHeap, IsQueue, Rescheduled, AlwaysSafe, Ids;
      if o < w {
        LaterQueueIsQueue(o, w);
        LaterBreaks(o, w);
        IdsAreSmall(5);
        UnsafeExample(o, w, LaterQueue(o, w), Ids(5), 1, 2);
      } else {
        EarlierQueueIsQueue(o, w);
        EarlierBreaks(o, w);
        IdsAreSmall(12);
        UnsafeExample(o, w, EarlierQueue(o, w), Ids(12), 4, 8);
      }
    }
  }
}
