/** The event queue as an array, with what the functions of the runtime do to it.

    `ssm_sv_later_unsafe` overwrites a variable's time, then drops the old pending value, and only then
    moves the variable to its place. If the drop finalises another variable that is queued, that one is
    unscheduled while the array need not be a heap; so the functions are defined for any array. */
module EventQueue {
  import opened Prelude
  import opened BinaryHeap

  /** An event queue: the array, the number of slots in use, and the time of each variable. */
  datatype Queue<T(==)> = Queue(q: seq<T>, n: nat, key: map<T, nat>)

  ghost predicate IsHeap<T>(s: Queue<T>) {
    Keyed(s.q, s.n, s.key) && Ordered(s.q, s.n, s.key)
  }

  /** The first slot that holds a variable. */
  ghost function SlotOf<T>(s: Queue<T>, x: T, i: nat): nat
    decreases s.n - i
  {
    if i >= s.n || (i < |s.q| && s.q[i] == x) then i else SlotOf(s, x, i + 1)
  }

  lemma {:induction false} SlotIsFirst<T>(s: Queue<T>, x: T, i: nat, at: nat)
    requires i <= at <= s.n < |s.q| && s.q[at] == x && forall j :: i <= j < at ==> s.q[j] != x
    ensures SlotOf(s, x, i) == at
    decreases at - i
  {
    if i < at {
      SlotIsFirst(s, x, i + 1, at);
    }
  }

  ghost predicate Queued<T>(s: Queue<T>, x: T) {
    x in s.key && s.key[x] != NEVER
  }

  /** Takes a variable's event out, if it has one. */
  ghost function Unscheduled<T>(s: Queue<T>, x: T): Queue<T> {
    if !Queued(s, x) then s
    else
      var hole := SlotOf(s, x, 1);
      var key := s.key[x := NEVER];
      if 1 <= hole <= s.n < |s.q| then Queue(Removed(s.q, s.n, key, hole), s.n - 1, key) else s
  }

  ghost function UnscheduledAll<T>(s: Queue<T>, freed: seq<T>): Queue<T>
    decreases |freed|
  {
    if freed == [] then s else UnscheduledAll(Unscheduled(s, freed[0]), freed[1..])
  }

  /** Moves the event of `v`; dropping the old pending value finalises the variables `freed`. */
  ghost function Rescheduled<T>(s: Queue<T>, v: T, when: nat, freed: seq<T>): Queue<T> {
    var s1 := UnscheduledAll(s.(key := s.key[v := when]), freed);
    var hole := SlotOf(s1, v, 1);
    if 1 <= hole <= s1.n < |s1.q| then s1.(q := Repositioned(s1.q, s1.n, s1.key, hole)) else s1
  }

  // ---------- when finalising is harmless ----------

  /** A heap of exactly the variables `elems`, which are those that have a time. */
  ghost predicate IsQueue<T>(s: Queue<T>, elems: set<T>) {
    && HeapOf(s.q, s.n, s.key, elems)
    && (forall x :: x in elems ==> x in s.key)
    && (forall x :: x in s.key ==> (Queued(s, x) <==> x in elems))
  }

  /** A variable of the queue has one slot, which the search finds. */
  lemma SlotOfElement<T>(s: Queue<T>, elems: set<T>, x: T)
    requires s.n < |s.q| && Elems(s.q, s.n) == multiset(elems) && x in elems
    ensures 1 <= SlotOf(s, x, 1) <= s.n && s.q[SlotOf(s, x, 1)] == x
  {
    var at := MemberIndex(s.q, s.n, x);
    forall j | 1 <= j < at ensures s.q[j] != x {
      DistinctSlots(s.q, s.n, elems, j, at);
    }
    SlotIsFirst(s, x, 1, at);
  }

  lemma HeapHasRoom<T>(s: Queue<T>)
    requires IsHeap(s)
    ensures s.n < |s.q|
  {
  }

  /** In a heap, unscheduling leaves a heap of the others. */
  lemma UnscheduledIsQueue<T>(s: Queue<T>, elems: set<T>, x: T)
    requires IsQueue(s, elems)
    ensures IsQueue(Unscheduled(s, x), elems - {x})
    ensures forall y :: y in elems && y != x ==> Unscheduled(s, x).key[y] == s.key[y]
  {
    hide Keyed, Ordered, Elems, SlotOf, Repositioned, DownReady, UpReady;
    if Queued(s, x) {
      HeapHasRoom(s);
      SlotOfElement(s, elems, x);
      var hole, key := SlotOf(s, x, 1), s.key[x := NEVER];
      if hole < s.n {
        RemoveReady(s.q, s.n, s.key, elems, key, hole);
        RepositionedOrders(s.q[hole := s.q[s.n]], s.n - 1, key, hole);
      } else {
        RemoveLast(s.q, s.n, s.key, elems, key);
      }
    } else {
      assert elems - {x} == elems;
    }
  }

  /** In a heap, unscheduling another variable leaves the next event where it is. */
  lemma UnscheduledKeepsRoot<T>(s: Queue<T>, elems: set<T>, x: T)
    requires IsQueue(s, elems) && 1 <= s.n && s.q[1] != x
    ensures 1 <= Unscheduled(s, x).n < |Unscheduled(s, x).q| && Unscheduled(s, x).q[1] == s.q[1]
  {
    hide Ordered, Elems, SlotOf, Repositioned, DownReady, UpReady;
    if Queued(s, x) {
      SlotOfElement(s, elems, x);
      var hole, key := SlotOf(s, x, 1), s.key[x := NEVER];
      if hole < s.n {
        RemoveReady(s.q, s.n, s.key, elems, key, hole);
        RepositionedKeepsRoot(s.q[hole := s.q[s.n]], s.n - 1, key, hole);
      }
    }
  }

  ghost function Without<T>(elems: set<T>, freed: seq<T>): set<T> {
    set x | x in elems && x !in freed
  }

  lemma {:induction false} UnscheduledAllIsQueue<T>(s: Queue<T>, elems: set<T>, freed: seq<T>)
    requires IsQueue(s, elems)
    ensures IsQueue(UnscheduledAll(s, freed), Without(elems, freed))
    ensures forall y :: y in Without(elems, freed) ==> UnscheduledAll(s, freed).key[y] == s.key[y]
    decreases |freed|
  {
    hide IsHeap, Unscheduled;
    if freed == [] {
      assert Without(elems, freed) == elems;
    } else {
      assert freed == [freed[0]] + freed[1..];
      UnscheduledIsQueue(s, elems, freed[0]);
      UnscheduledAllIsQueue(Unscheduled(s, freed[0]), elems - {freed[0]}, freed[1..]);
      assert Without(elems, freed) == Without(elems - {freed[0]}, freed[1..]);
    }
  }

  lemma {:induction false} UnscheduledAllKeepsRoot<T>(s: Queue<T>, elems: set<T>, freed: seq<T>)
    requires IsQueue(s, elems) && 1 <= s.n && s.q[1] !in freed
    ensures var r := UnscheduledAll(s, freed); 1 <= r.n < |r.q| && r.q[1] == s.q[1]
    decreases |freed|
  {
    hide IsHeap, Unscheduled;
    if freed != [] {
      UnscheduledIsQueue(s, elems, freed[0]);
      UnscheduledKeepsRoot(s, elems, freed[0]);
      UnscheduledAllKeepsRoot(Unscheduled(s, freed[0]), elems - {freed[0]}, freed[1..]);
    }
  }

  /** Unscheduling one more variable. */
  lemma {:induction false} UnscheduledOneMore<T>(s: Queue<T>, freed: seq<T>, x: T)
    ensures UnscheduledAll(s, freed + [x]) == Unscheduled(UnscheduledAll(s, freed), x)
    decreases |freed|
  {
    hide Unscheduled;
    if freed == [] {
      assert (freed + [x])[1..] == [];
    } else {
      assert (freed + [x])[1..] == freed[1..] + [x];
      UnscheduledOneMore(Unscheduled(s, freed[0]), freed[1..], x);
    }
  }

  lemma {:induction false} NothingUnscheduled<T>(s: Queue<T>, freed: seq<T>)
    requires forall x :: x in freed ==> !Queued(s, x)
    ensures UnscheduledAll(s, freed) == s
  {
    if freed != [] {
      NothingUnscheduled(s, freed[1..]);
    }
  }

  /** In a heap, moving a variable to where it belongs changes nothing essential. */
  lemma SettledIsQueue<T>(s: Queue<T>, elems: set<T>, v: T)
    requires IsQueue(s, elems) && v in elems
    ensures 1 <= SlotOf(s, v, 1) <= s.n < |s.q|
    ensures IsQueue(s.(q := Repositioned(s.q, s.n, s.key, SlotOf(s, v, 1))), elems)
  {
    hide Elems, SlotOf, Repositioned;
    SlotOfElement(s, elems, v);
    RepositionedOrders(s.q, s.n, s.key, SlotOf(s, v, 1));
  }

  /** Rescheduling is safe if no finalised variable is queued, or if the array is a heap as soon as
      the new time is written: then the result is a heap of the variables that are left. */
  lemma RescheduledIsHeap<T>(s: Queue<T>, elems: set<T>, v: T, when: nat, freed: seq<T>)
    requires IsQueue(s, elems) && v in elems && v !in freed && when != NEVER
    requires (forall x :: x in freed ==> x !in elems) || IsHeap(s.(key := s.key[v := when]))
    ensures IsQueue(Rescheduled(s, v, when, freed), Without(elems, freed))
    ensures Rescheduled(s, v, when, freed).key[v] == when
    ensures forall x :: x in Without(elems, freed) && x != v ==> Rescheduled(s, v, when, freed).key[x] == s.key[x]
  {
    var s1 := s.(key := s.key[v := when]);
    if IsHeap(s1) {
      hide IsHeap, Elems, SlotOf, Repositioned, UnscheduledAll;
      UnscheduledAllIsQueue(s1, elems, freed);
      HeapHasRoom(UnscheduledAll(s1, freed));
      SlotOfElement(UnscheduledAll(s1, freed), Without(elems, freed), v);
      SettledIsQueue(UnscheduledAll(s1, freed), Without(elems, freed), v);
    } else {
      assert Without(elems, freed) == elems;
      NothingUnscheduled(s1, freed);
      SlotOfElement(s1, elems, v);
      var at := SlotOf(s1, v, 1);
      hide Elems, SlotOf, Repositioned, Ordered, UpReady, DownReady;
      RekeyReady(s.q, s.n, s.key, elems, s1.key, at);
      RepositionedOrders(s.q, s.n, s1.key, at);
    }
  }
}
