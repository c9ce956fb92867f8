/** The scheduler: two array-backed heaps, trigger lists and the tick.

    Scheduled variables, routines and triggers are mutable objects. The methods below follow
    the functions of the runtime; `Abs()` reads off the state of module Instant. */
module Scheduler {
  import opened Prelude
  import opened BinaryHeap
  import opened EventQueue
  import I = Instant

  /** The first slot in use of a queue. */
  const HEAD := 1

  /** Queue indices are 16 bits wide. */
  type QIdx = i: nat | i <= 0xFFFF

  /** A doubled index, cut off to 16 bits. */
  function Twice(i: QIdx): QIdx {
    i * 2 % 0x1_0000
  }

  /** The largest queue whose slots can all be doubled. */
  const MAX_CAPACITY := 32767

  /** Doubling loses nothing for all slots of a queue if and only if its capacity is at most 32767:
      slot 32768 doubles to 0. */
  lemma TwiceIsExactIff(capacity: QIdx)
    ensures (forall i: QIdx :: 1 <= i <= capacity ==> Twice(i) == 2 * i) <==> capacity <= MAX_CAPACITY
  {
    assert Twice(32768) == 0;
  }

  /** A routine's activation record, as far as the queues are concerned. */
  class Act {
    const priority: nat
    var pc: nat
    var scheduled: bool

    constructor (priority: nat)
      ensures this.priority == priority && pc == 0 && !scheduled
    {
      this.priority, pc, scheduled := priority, 0, false;
    }
  }

  class Trigger {
    var next: Trigger?
    var prevPtr: Link
    const act: Act

    constructor (act: Act)
      ensures this.act == act
    {
      this.act, next, prevPtr := act, null, Nowhere;
    }
  }

  /** A scheduled variable. */
  class Sv {
    var laterTime: Time
    var lastUpdated: Time
    var triggers: Trigger?
    var value: Word
    var laterValue: Word

    constructor (val: Word)
      ensures laterTime == NEVER && lastUpdated == NEVER && triggers == null && value == val
    {
      laterTime, lastUpdated, triggers, value, laterValue := NEVER, NEVER, null, val, 0;
    }
  }

  /** The place that points at a trigger: a variable's head pointer or another trigger's next. */
  datatype Link = Nowhere | HeadOf(v: Sv) | NextOf(t: Trigger)

  type Abstract = I.State<Sv, Act, Trigger>

  class Scheduler {
    const eventQueue: array<Sv?>
    const actQueue: array<Act?>
    const program: I.Program<Sv, Act, Trigger>
    var eventLen: QIdx
    var actLen: QIdx
    var now: Time

    /** Every variable, routine and trigger the program ever uses. */
    const svs: set<Sv>
    const acts: set<Act>
    ghost const trigs: set<Trigger>

    /** The variables in the event queue, and the trigger list of each variable. */
    ghost var queued: set<Sv>
    ghost var lists: map<Sv, seq<Trigger>>
    ghost var attached: map<Trigger, Sv>

    // ---------- invariants ----------

    ghost predicate EventShape()
      reads this`eventLen
    {
      1 <= eventQueue.Length <= MAX_CAPACITY + 1 && eventLen < eventQueue.Length
    }

    ghost predicate ActShape()
      reads this`actLen
    {
      1 <= actQueue.Length <= MAX_CAPACITY + 1 && actLen < actQueue.Length
    }

    ghost function EventKeys(): map<Sv?, nat>
      reads svs`laterTime
    {
      map v: Sv? | v in svs :: v.laterTime
    }

    /** `key` gives the pending time of every variable. */
    ghost predicate Timed(key: map<Sv?, nat>)
      reads svs`laterTime
    {
      && (forall w :: w in key ==> w in svs)
      && (forall w :: w in svs ==> w in key && key[w] == w.laterTime)
    }

    ghost function ActKeys(): map<Act?, nat> {
      map a: Act? | a in acts :: a.priority
    }

    /** The first n slots are a heap of exactly the variables in `queued`, ordered by `key`. */
    ghost predicate HeapUnder(n: nat, key: map<Sv?, nat>)
      reads this`queued, eventQueue
    {
      n < eventQueue.Length && queued <= svs && HeapOf(eventQueue[..], n, key, queued)
    }

    /** The event array is a heap of exactly the variables in `queued`. */
    ghost predicate EventHeap()
      reads this`queued, this`eventLen, eventQueue, svs`laterTime
    {
      EventShape() && HeapUnder(eventLen, EventKeys())
    }

    /** The event queue as the functions of EventQueue see it. */
    ghost function View(): Queue<Sv?>
      reads this`eventLen, eventQueue, svs`laterTime
    {
      Queue(eventQueue[..], eventLen, EventKeys())
    }

    /** The event array holds exactly the variables in `queued`, in any order. */
    ghost predicate Filled()
      reads this`queued, this`eventLen, eventQueue
    {
      EventShape() && queued <= svs && Elems(eventQueue[..], eventLen) == multiset(queued)
    }

    /** A variable has a time to be updated at if and only if it is in the event queue. */
    ghost predicate EventsInv()
      reads this`queued, this`eventLen, eventQueue, svs`laterTime
    {
      EventHeap() && forall v :: v in svs ==> (v in queued <==> v.laterTime != NEVER)
    }

    ghost function Scheduled(): set<Act>
      reads acts`scheduled
    {
      set a | a in acts && a.scheduled
    }

    /** The first n slots are a heap of exactly the routines in `elems`, ordered by priority. */
    ghost predicate ActHeap(n: nat, elems: set<Act>)
      reads actQueue
    {
      n < actQueue.Length && elems <= acts && HeapOf(actQueue[..], n, ActKeys(), elems)
    }

    /** A routine is marked scheduled if and only if it is in the activation queue. */
    ghost predicate ActsInv()
      reads this`actLen, actQueue, acts`scheduled
    {
      ActShape() && ActHeap(actLen, Scheduled())
    }

    /** The pointers of a variable's trigger list spell out `ts`, forwards and backwards. */
    static ghost predicate Linked(v: Sv, ts: seq<Trigger>)
      reads v`triggers, ts`next, ts`prevPtr
    {
      && v.triggers == (if ts == [] then null else ts[0])
      && (forall i {:trigger ts[i].next} :: 0 <= i < |ts| ==> ts[i].next == if i + 1 < |ts| then ts[i + 1] else null)
      && (forall i {:trigger ts[i].prevPtr} :: 0 <= i < |ts| ==>
          ts[i].prevPtr == if i == 0 then HeadOf(v) else NextOf(ts[i - 1]))
      && (forall i, j :: 0 <= i < j < |ts| ==> ts[i] != ts[j])
    }

    ghost predicate Owned(v: Sv)
      requires v in lists
      reads this`lists, this`attached
    {
      forall t :: t in lists[v] ==> t in attached && attached[t] == v
    }

    /** Every variable's pointers spell out its list, and a trigger is on at most one list. */
    ghost predicate TrigsInv()
      reads this`lists, this`attached, svs`triggers, trigs`next, trigs`prevPtr
    {
      && lists.Keys == svs && attached.Keys <= trigs
      && (forall t :: t in trigs ==> t.act in acts)
      && (forall v :: v in svs ==> Owned(v))
      && (forall t :: t in attached ==> attached[t] in svs && t in lists[attached[t]])
      && (forall v :: v in svs ==> Linked(v, lists[v]))
    }

    ghost predicate Valid()
      reads this`queued, this`eventLen, this`actLen, this`lists, this`attached, eventQueue, actQueue
      reads svs`laterTime, acts`scheduled, svs`triggers, trigs`next, trigs`prevPtr
    {
      EventsInv() && ActsInv() && TrigsInv()
    }

    // ---------- abstraction ----------

    function AbsVar(v: Sv): I.VarState
      reads v`value, v`lastUpdated, v`laterTime, v`laterValue
    {
      I.VarState(v.value, v.lastUpdated,
                 if v.laterTime == NEVER then None else Some(I.Pend(v.laterTime, v.laterValue)))
    }

    ghost function Abs(): Abstract
      reads this`now, this`attached, svs, acts
    {
      I.State(now, map v | v in svs :: AbsVar(v), Scheduled(), attached, map a | a in acts :: a.pc)
    }

    /** What a step function reads. */
    function See(): I.View<Sv, Act>
      reads this`now, svs, acts
    {
      I.View(now, map v | v in svs :: AbsVar(v), map a | a in acts :: a.pc)
    }

    /** How many elements a queue has room for: its first slot is not used. */
    static function Room<T>(q: array<T>): nat {
      if q.Length == 0 then 0 else q.Length - 1
    }

    ghost function Env(): I.Env<Act, Trigger> {
      I.Env(map a | a in acts :: a.priority, map t | t in trigs :: t.act, Room(eventQueue), Room(actQueue))
    }

    /** A state that agrees with the memory everywhere is the abstraction of it. */
    lemma AbsIs(s: Abstract)
      requires s.now == now && s.attached == attached && s.runnable == Scheduled()
      requires s.vars.Keys == svs && forall v :: v in svs ==> s.vars[v] == AbsVar(v)
      requires s.pcs.Keys == acts && forall a :: a in acts ==> s.pcs[a] == a.pc
      ensures s == Abs()
    {
    }

    lemma AbsHas()
      ensures Abs().now == now && Abs().attached == attached && Abs().runnable == Scheduled()
      ensures Abs().vars.Keys == svs && forall v :: v in svs ==> Abs().vars[v] == AbsVar(v)
      ensures Abs().pcs.Keys == acts && forall a :: a in acts ==> Abs().pcs[a] == a.pc
    {
    }

    /** The event queue holds exactly the pending updates. */
    lemma QueuedArePending()
      requires EventsInv()
      ensures I.Pending(Abs()) == queued
      ensures forall v :: v in queued ==> I.WhenOf(Abs(), v) == v.laterTime
    {
    }

    /** The root of the event queue is an earliest pending update. */
    lemma RootEvent()
      requires EventsInv() && eventLen > 0
      ensures eventQueue[1] in queued && eventQueue[1] in svs
      ensures forall v :: v in queued ==> eventQueue[1].laterTime <= v.laterTime
      ensures I.NextTime(Abs()) == eventQueue[1].laterTime
    {
      var q := eventQueue[..];
      ElemsMember(q, eventLen, 1);
      forall v | v in queued ensures eventQueue[1].laterTime <= v.laterTime {
        var i := MemberIndex(q, eventLen, v);
        RootIsMin(q, eventLen, EventKeys(), i);
      }
      QueuedArePending();
    }

    /** With nothing scheduled and no trigger attached, all invariants hold. */
    lemma EmptyIsValid()
      requires EventShape() && ActShape() && eventLen == 0 && actLen == 0 && queued == {} && attached == map[]
      requires forall v :: v in svs ==> v.laterTime == NEVER && v.triggers == null
      requires forall a :: a in acts ==> !a.scheduled
      requires forall t :: t in trigs ==> t.act in acts
      requires lists == map v | v in svs :: []
      ensures Valid()
    {
      EmptyElems(eventQueue[..]);
      EmptyElems(actQueue[..]);
      assert Scheduled() == {};
    }

    constructor (eventCap: nat, actCap: nat, program: I.Program<Sv, Act, Trigger>,
                 svs: set<Sv>, acts: set<Act>, ghost trigs: set<Trigger>)
      requires eventCap <= MAX_CAPACITY && actCap <= MAX_CAPACITY
      requires forall v :: v in svs ==> v.laterTime == NEVER && v.triggers == null
      requires forall a :: a in acts ==> !a.scheduled
      requires forall t :: t in trigs ==> t.act in acts
      ensures Valid() && fresh(eventQueue) && fresh(actQueue)
      ensures this.svs == svs && this.acts == acts && this.trigs == trigs && this.program == program
      ensures eventQueue.Length == eventCap + 1 && actQueue.Length == actCap + 1
      ensures Room(eventQueue) == eventCap && Room(actQueue) == actCap
      ensures now == 0 && eventLen == 0 && actLen == 0 && attached == map[]
    {
      eventQueue := new Sv?[eventCap + 1](_ => null);
      actQueue := new Act?[actCap + 1](_ => null);
      this.program := program;
      eventLen, actLen, now := 0, 0, 0;
      this.svs, this.acts, this.trigs := svs, acts, trigs;
      queued := {};
      attached := map[];
      lists := map v | v in svs :: [];
      new;
      EmptyIsValid();
    }

    // ---------- event queue ----------

    method EventPercolateUp(hole: QIdx, v: Sv, ghost start: seq<Sv?>, ghost key: map<Sv?, nat>)
      returns (ghost moves: nat)
      requires EventShape() && HEAD <= hole <= eventLen && v in svs
      requires start == eventQueue[..][hole := v] && Timed(key) && Keyed(start, eventLen, key)
      modifies eventQueue
      ensures eventQueue[..] == PercolatedUp(start, key, hole) && moves <= Level(hole)
      ensures Elems(eventQueue[..], eventLen) == Elems(start, eventLen)
      ensures UpReady(start, eventLen, key, hole) ==>
        Keyed(eventQueue[..], eventLen, key) && Ordered(eventQueue[..], eventLen, key)
    {
      hide UpReady, Ordered, Elems;
      ghost var q := start;
      var later := v.laterTime;
      var h: QIdx := hole;
      moves := 0;
      while h > HEAD && later < eventQueue[h / 2].laterTime
        invariant HEAD <= h <= hole && |q| == eventQueue.Length && q[h] == v && moves + Level(h) <= Level(hole)
        invariant forall i :: 1 <= i <= eventLen ==> q[i] in key
        invariant PercolatedUp(q, key, h) == PercolatedUp(start, key, hole)
        invariant forall i :: 0 <= i < |q| && i != h ==> eventQueue[i] == q[i]
        decreases h
      {
        eventQueue[h] := eventQueue[h / 2];
        q := Swap(q, h, h / 2);
        h := h / 2;
        moves := moves + 1;
      }
      eventQueue[h] := v;
      assert eventQueue[..] == q;
      UpPercolates(start, eventLen, key, hole);
    }

    /** The earlier child of a slot, the left one if they are equal. */
    method EventChild(hole: QIdx, ghost q: seq<Sv?>, ghost key: map<Sv?, nat>) returns (child: QIdx)
      requires EventShape() && HEAD <= hole && hole * 2 <= eventLen
      requires Keyed(q, eventLen, key) && Timed(key) && |q| == eventQueue.Length
      requires forall i :: hole < i < |q| ==> eventQueue[i] == q[i]
      ensures child == EarlierChild(q, eventLen, key, hole)
      ensures (child == hole * 2 || child == hole * 2 + 1) && child <= eventLen
      ensures key[q[child]] <= key[q[2 * hole]]
      ensures 2 * hole + 1 <= eventLen ==> key[q[child]] <= key[q[2 * hole + 1]]
    {
      child := Twice(hole);
      if child + 1 <= eventLen && eventQueue[child + 1].laterTime < eventQueue[child].laterTime {
        child := child + 1;
      }
    }

    method EventPercolateDown(hole: QIdx, v: Sv, ghost start: seq<Sv?>, ghost key: map<Sv?, nat>)
      returns (ghost moves: nat)
      requires EventShape() && HEAD <= hole <= eventLen && v in svs
      requires start == eventQueue[..][hole := v] && Timed(key) && Keyed(start, eventLen, key)
      modifies eventQueue
      ensures eventQueue[..] == PercolatedDown(start, eventLen, key, hole) && moves <= Level(eventLen)
      ensures Elems(eventQueue[..], eventLen) == Elems(start, eventLen)
      ensures DownReady(start, eventLen, key, hole) ==>
        Keyed(eventQueue[..], eventLen, key) && Ordered(eventQueue[..], eventLen, key)
    {
      hide DownReady, Ordered, Elems, PercolatedDown, EarlierChild, Level;
      ghost var q := start;
      var later := v.laterTime;
      var h: QIdx := hole;
      moves := 0;
      while true
        invariant HEAD <= h <= eventLen && |q| == eventQueue.Length && q[h] == v && moves <= Level(h)
        invariant Keyed(q, eventLen, key)
        invariant PercolatedDown(q, eventLen, key, h) == PercolatedDown(start, eventLen, key, hole)
        invariant forall i :: 0 <= i < |q| && i != h ==> eventQueue[i] == q[i]
        decreases eventLen - h
      {
        DownTurn(q, eventLen, key, h);
        if Twice(h) > eventLen {
          break;
        }
        var child := EventChild(h, q, key);
        var c := eventQueue[child];
        if later < c.laterTime {
          break;
        }
        eventQueue[h] := c;
        q := Swap(q, h, child);
        LevelOfChild(h, child);
        h := child;
        moves := moves + 1;
      }
      eventQueue[h] := v;
      assert eventQueue[..] == q;
      LevelMonotone(h, eventLen);
      DownPercolates(start, eventLen, key, hole);
    }

    /** Finds the slot of a queued variable by linear search; None when the sanity check fails. */
    method FindQueuedEvent(v: Sv) returns (slot: Option<QIdx>)
      requires Filled() && v in queued
      ensures slot == None <==> v.laterTime == NEVER
      ensures slot.Some? ==> 1 <= slot.value <= eventLen && eventQueue[slot.value] == v
      ensures slot.Some? ==> slot.value == SlotOf(View(), v, 1)
    {
      hide Elems;
      if v.laterTime == NEVER {
        return None;
      }
      var i: QIdx := HEAD;
      ghost var s := View();
      ghost var at := MemberIndex(s.q, s.n, v);
      while i <= eventLen
        invariant 1 <= i <= at && SlotOf(s, v, i) == SlotOf(s, v, 1)
        decreases eventLen - i
      {
        if eventQueue[i] == v {
          return Some(i);
        }
        i := i + 1;
      }
      assert false;
    }

    /** Puts `v`, whose time is set, into the slot just added at the end. */
    method Enqueue(v: Sv, ghost key: map<Sv?, nat>)
      requires EventShape() && eventLen >= 1 && HeapUnder(eventLen - 1, key)
      requires v in svs && v !in queued && SameKeysBut(svs, key, EventKeys(), v)
      modifies eventQueue, this`queued
      ensures HeapUnder(eventLen, EventKeys()) && queued == old(queued) + {v}
    {
      hide Keyed, Ordered, Elems, UpReady, Level, PercolatedUp;
      ghost var q := eventQueue[..];
      InsertReady(q, eventLen - 1, key, queued, EventKeys(), v);
      ghost var moves := EventPercolateUp(eventLen, v, q[eventLen := v], EventKeys());
      queued := queued + {v};
    }

    lemma KeysAre(key: map<Sv?, nat>)
      requires Timed(key)
      ensures EventKeys() == key
    {
    }

    lemma FilledIsKeyed()
      requires Filled()
      ensures Keyed(eventQueue[..], eventLen, EventKeys()) && Timed(EventKeys())
      ensures forall i :: 1 <= i <= eventLen ==> eventQueue[i] in svs
    {
      forall i | 1 <= i <= eventLen ensures eventQueue[i] in svs {
        ElemsMember(eventQueue[..], eventLen, i);
      }
    }

    /** Moves a queued variable to its place after its time has changed. */
    method Reposition(v: Sv, hole: QIdx)
      requires Filled() && v in svs && 1 <= hole <= eventLen && eventQueue[hole] == v
      modifies eventQueue
      ensures Filled() && eventQueue[..] == old(Repositioned(eventQueue[..], eventLen, EventKeys(), hole))
      ensures EventKeys() == old(EventKeys())
    {
      hide Keyed, Ordered, Elems, UpReady, DownReady, Level, PercolatedUp, PercolatedDown;
      ghost var q := eventQueue[..];
      assert q[hole := v] == q;
      FilledIsKeyed();
      if hole == HEAD || eventQueue[hole / 2].laterTime < v.laterTime {
        ghost var moves := EventPercolateDown(hole, v, q, EventKeys());
      } else {
        ghost var moves := EventPercolateUp(hole, v, q, EventKeys());
      }
    }

    /** Removes the variable in a slot by moving the last element into it. */
    method RemoveSlot(v: Sv, hole: QIdx)
      requires Filled() && v in svs && 1 <= hole <= eventLen && eventQueue[hole] == v
      modifies this`eventLen, this`queued, eventQueue
      ensures Filled() && queued == old(queued) - {v} && eventLen == old(eventLen) - 1
      ensures eventQueue[..] == old(Removed(eventQueue[..], eventLen, EventKeys(), hole))
      ensures EventKeys() == old(EventKeys())
    {
      hide Keyed, Ordered, Elems, UpReady, DownReady, Level, PercolatedUp, PercolatedDown, EventKeys;
      ghost var q, n, key := eventQueue[..], eventLen, EventKeys();
      FilledIsKeyed();
      RemovedKeepsElems(q, n, key, hole, queued);
      var moved := eventQueue[eventLen];
      eventLen := eventLen - 1;
      if hole < HEAD + eventLen {
        FilledKeyed(q, n, key, hole);
        if hole == HEAD || eventQueue[hole / 2].laterTime < moved.laterTime {
          ghost var moves := EventPercolateDown(hole, moved, q[hole := moved], key);
        } else {
          ghost var moves := EventPercolateUp(hole, moved, q[hole := moved], key);
        }
      }
      queued := queued - {v};
      KeysAre(key);
    }

    lemma QueueSize()
      requires EventHeap()
      ensures |queued| == eventLen && queued <= svs
      ensures forall v :: v in queued ==> v in Elems(eventQueue[..], eventLen)
    {
      assert |Elems(eventQueue[..], eventLen)| == eventLen;
    }

    /** Adds an update of a variable that has none. */
    method ScheduleNew(v: Sv, when: Time) returns (r: Outcome)
      requires EventsInv() && v in svs && v !in queued
      modifies this`eventLen, this`queued, eventQueue, v`laterTime
      ensures r == Throw(ExhaustedEventQueue) <==> |old(queued) + {v}| > Room(eventQueue)
      ensures r.Throw? ==> r == Throw(ExhaustedEventQueue)
      ensures r.Ok? ==> EventHeap() && queued == old(queued) + {v} && v.laterTime == when
    {
      hide HeapUnder;
      ghost var key := EventKeys();
      QueueSize();
      v.laterTime := when;
      eventLen := eventLen + 1;
      if eventLen > Room(eventQueue) {
        return Throw(ExhaustedEventQueue);
      }
      Enqueue(v, key);
      r := Ok;
    }

    /** Finalising the variables `freed` in the middle of rescheduling `v` does no harm: none of them
        is queued, or the array is a heap where it stands once `v` has the time `when`. */
    ghost predicate MayFinalise(v: Sv, when: Time, freed: seq<Sv>)
      reads this`queued, this`eventLen, eventQueue, svs`laterTime
    {
      (forall w :: w in freed ==> w !in queued) || IsHeap(View().(key := EventKeys()[v := when]))
    }

    /** The event queue's invariant in terms of its view. */
    lemma InvIsQueue()
      ensures EventsInv() <==> EventShape() && queued <= svs && IsQueue(View(), queued)
      ensures EventHeap() ==> Filled()
    {
    }

    lemma ReschedulingKeeps(s: Queue<Sv?>, elems: set<Sv>, v: Sv, when: Time, freed: seq<Sv>)
      requires IsQueue(s, elems) && v in elems && v !in freed && when != NEVER
      requires (forall w :: w in freed ==> w !in elems) || IsHeap(s.(key := s.key[v := when]))
      requires Filled() && View() == Rescheduled(s, v, when, freed) && queued == elems - (set w | w in freed)
      ensures EventsInv()
    {
      hide IsQueue, IsHeap, Rescheduled, Elems, EventsInv;
      RescheduledIsHeap(s, elems, v, when, freed);
      assert queued == Without<Sv?>(elems, freed);
      InvIsQueue();
    }

    /** The variable is next in the event queue. */
    ghost predicate AtRoot(v: Sv)
      reads this`eventLen, eventQueue
    {
      eventLen > 0 && 1 < eventQueue.Length && eventQueue[1] == v
    }

    /** Cancels the pending update of `v`, if any. The array need not be a heap. */
    method Unschedule(v: Sv)
      requires Filled() && v in svs && (v in queued <==> v.laterTime != NEVER)
      modifies this`eventLen, this`queued, eventQueue, v`laterTime
      ensures Filled() && View() == Unscheduled(old(View()), v)
      ensures v.laterTime == NEVER && queued == old(queued) - {v}
      ensures old(EventsInv()) ==> EventsInv()
    {
      hide SlotOf, Removed, HeapUnder, Elems, IsQueue;
      ghost var s, elems := View(), queued;
      ghost var inv := EventsInv();
      InvIsQueue();
      if v.laterTime != NEVER {
        var slot := FindQueuedEvent(v);
        v.laterTime := NEVER;
        assert EventKeys() == s.key[v := NEVER];
        ghost var removed := Removed(eventQueue[..], eventLen, EventKeys(), slot.value);
        assert removed == Removed(s.q, s.n, s.key[v := NEVER], slot.value);
        RemoveSlot(v, slot.value);
      }
      if inv {
        UnscheduledIsQueue(s, elems, v);
        InvIsQueue();
      }
    }

    lemma AtRootInView(v: Sv)
      ensures AtRoot(v) <==> 1 <= View().n && 1 < |View().q| && View().q[1] == v
    {
    }

    /** Unscheduling others leaves the next event where it is. */
    lemma NextStays(v: Sv, freed: seq<Sv>)
      requires v !in freed
      ensures EventsInv() && AtRoot(v) ==>
        var s := UnscheduledAll(View(), freed); 1 <= s.n && 1 < |s.q| && s.q[1] == v
    {
      hide IsQueue, UnscheduledAll, HeapUnder;
      InvIsQueue();
      if EventsInv() && AtRoot(v) {
        UnscheduledAllKeepsRoot(View(), queued, freed);
      }
    }

    /** Unschedules variables that are being finalised; none of them is `v`. */
    method UnscheduleEach(freed: seq<Sv>, ghost v: Sv)
      requires Filled() && v in svs && v !in freed
      requires forall w :: w in freed ==> w in svs && (w in queued <==> w.laterTime != NEVER)
      modifies this`eventLen, this`queued, eventQueue, svs`laterTime
      ensures Filled() && View() == UnscheduledAll(old(View()), freed)
      ensures queued == old(queued) - (set w | w in freed)
      ensures forall w :: w in svs ==> w.laterTime == if w in freed then NEVER else old(w.laterTime)
      ensures old(EventsInv()) ==> EventsInv() && (old(AtRoot(v)) ==> AtRoot(v))
    {
      hide EventsInv, AtRoot, Filled, View, UnscheduledAll, Unscheduled;
      ghost var s := View();
      ghost var inv := EventsInv();
      NextStays(v, freed);
      NothingUnscheduled(s, freed[..0]);
      var i := 0;
      while i < |freed|
        invariant i <= |freed| && Filled() && View() == UnscheduledAll(s, freed[..i])
        invariant queued == old(queued) - (set w | w in freed[..i])
        invariant inv ==> EventsInv()
        invariant forall w :: w in svs ==> w.laterTime == if w in freed[..i] then NEVER else old(w.laterTime)
      {
        Unschedule(freed[i]);
        assert freed[..i + 1] == freed[..i] + [freed[i]];
        UnscheduledOneMore(s, freed[..i], freed[i]);
        i := i + 1;
      }
      assert freed[..|freed|] == freed;
      AtRootInView(v);
    }

    /** Moves the update of a variable that has one. Dropping the old pending value finalises the
        variables `freed`, after the new time has been written and before the variable is moved. */
    method Reschedule(v: Sv, when: Time, freed: seq<Sv>) returns (r: Outcome)
      requires EventsInv() && v in queued && v !in freed && forall w :: w in freed ==> w in svs
      modifies this`eventLen, this`queued, eventQueue, svs`laterTime
      ensures r == Throw(InternalError) <==> when == NEVER
      ensures r.Throw? ==> r == Throw(InternalError)
      ensures r.Ok? ==> View() == Rescheduled(old(View()), v, when, freed) && Filled()
      ensures r.Ok? ==> queued == old(queued) - (set w | w in freed)
      ensures r.Ok? ==> v.laterTime == when
      ensures r.Ok? ==> forall w :: w in svs && w != v ==>
        w.laterTime == if w in freed then NEVER else old(w.laterTime)
      ensures r.Ok? && old(MayFinalise(v, when, freed)) ==> EventsInv()
    {
      hide HeapUnder, IsQueue, IsHeap, SlotOf, UnscheduledAll, Repositioned, Elems;
      ghost var s, elems := View(), queued;
      ghost var may := MayFinalise(v, when, freed);
      InvIsQueue();
      QueueSize();
      v.laterTime := when;
      assert View() == s.(key := s.key[v := when]);
      UnscheduleEach(freed, v);
      var slot := FindQueuedEvent(v);
      if slot == None {
        return Throw(InternalError);
      }
      Reposition(v, slot.value);
      r := Ok;
      if may {
        ReschedulingKeeps(s, elems, v, when, freed);
      }
    }

    lemma NothingFinalised(v: Sv, when: Time)
      ensures MayFinalise(v, when, [])
    {
    }

    /** Schedules, or reschedules, an update of `v` to `val` at time `when`. If an update was pending
        already, dropping its value finalises the variables `freed`. */
    method Later(v: Sv, when: Time, val: Word, freed: seq<Sv>) returns (r: Outcome)
      requires EventsInv() && v in svs && v !in freed && forall w :: w in freed ==> w in svs
      modifies this`eventLen, this`queued, eventQueue, svs`laterTime, v`laterValue
      ensures r ==
        if when < now then Throw(InvalidTime)
        else if v !in old(queued) && |old(queued) + {v}| > Room(eventQueue) then Throw(ExhaustedEventQueue)
        else if v in old(queued) && when == NEVER then Throw(InternalError)
        else Ok
      ensures r.Ok? ==> Filled() && v.laterTime == when && v.laterValue == val
      ensures r.Ok? ==> queued == if v in old(queued) then old(queued) - (set w | w in freed) else old(queued) + {v}
      ensures r.Ok? ==> forall w :: w in svs && w != v ==>
                w.laterTime == if v in old(queued) && w in freed then NEVER else old(w.laterTime)
      ensures r.Ok? && v in old(queued) ==> View() == Rescheduled(old(View()), v, when, freed)
      ensures r.Ok? && (v in old(queued) ==> old(MayFinalise(v, when, freed))) ==>
        EventHeap() && (EventsInv() <==> when != NEVER)
      ensures
        now <= when && when + 1 < Pow2(64) && freed == [] && (v in old(queued) || |old(queued)| < Room(eventQueue)) ==>
          r.Ok? && EventsInv() && queued == old(queued) + {v} && v.laterTime == when
    {
      hide HeapUnder, MayFinalise, UnscheduledAll, Rescheduled, IsQueue, Elems, Pow2;
      InvIsQueue();
      NeverIsLast(when);
      NothingFinalised(v, when);
      if when < now {
        return Throw(InvalidTime);
      }
      if v.laterTime == NEVER {
        r := ScheduleNew(v, when);
      } else {
        r := Reschedule(v, when, freed);
      }
      if r.Ok? {
        v.laterValue := val;
        InvIsQueue();
      }
    }

    // ---------- activation queue ----------

    method ActPercolateUp(hole: QIdx, a: Act, ghost start: seq<Act?>, ghost key: map<Act?, nat>)
      returns (ghost moves: nat)
      requires ActShape() && HEAD <= hole <= actLen && a in acts
      requires start == actQueue[..][hole := a] && key == ActKeys() && Keyed(start, actLen, key)
      modifies actQueue, a`scheduled
      ensures actQueue[..] == PercolatedUp(start, key, hole) && moves <= Level(hole) && a.scheduled
      ensures Elems(actQueue[..], actLen) == Elems(start, actLen)
      ensures UpReady(start, actLen, key, hole) ==>
        Keyed(actQueue[..], actLen, key) && Ordered(actQueue[..], actLen, key)
    {
      hide UpReady, Ordered, Elems;
      ghost var q := start;
      var priority := a.priority;
      var h: QIdx := hole;
      moves := 0;
      while h > HEAD && priority < actQueue[h / 2].priority
        invariant HEAD <= h <= hole && |q| == actQueue.Length && q[h] == a && moves + Level(h) <= Level(hole)
        invariant forall i :: 1 <= i <= actLen ==> q[i] in key
        invariant PercolatedUp(q, key, h) == PercolatedUp(start, key, hole)
        invariant forall i :: 0 <= i < |q| && i != h ==> actQueue[i] == q[i]
        decreases h
      {
        actQueue[h] := actQueue[h / 2];
        q := Swap(q, h, h / 2);
        h := h / 2;
        moves := moves + 1;
      }
      actQueue[h] := a;
      a.scheduled := true;
      assert actQueue[..] == q;
      UpPercolates(start, actLen, key, hole);
    }

    /** The child of smaller priority number, the left one if they are equal. */
    method ActChild(hole: QIdx, ghost q: seq<Act?>, ghost key: map<Act?, nat>) returns (child: QIdx)
      requires ActShape() && HEAD <= hole && hole * 2 <= actLen
      requires Keyed(q, actLen, key) && key == ActKeys() && |q| == actQueue.Length
      requires forall i :: hole < i < |q| ==> actQueue[i] == q[i]
      ensures child == EarlierChild(q, actLen, key, hole)
      ensures (child == hole * 2 || child == hole * 2 + 1) && child <= actLen
      ensures key[q[child]] <= key[q[2 * hole]]
      ensures 2 * hole + 1 <= actLen ==> key[q[child]] <= key[q[2 * hole + 1]]
    {
      child := Twice(hole);
      if child + 1 <= actLen && actQueue[child + 1].priority < actQueue[child].priority {
        child := child + 1;
      }
    }

    method ActPercolateDown(hole: QIdx, a: Act, ghost start: seq<Act?>, ghost key: map<Act?, nat>)
      returns (ghost moves: nat)
      requires ActShape() && HEAD <= hole <= actLen && a in acts
      requires start == actQueue[..][hole := a] && key == ActKeys() && Keyed(start, actLen, key)
      modifies actQueue
      ensures actQueue[..] == PercolatedDown(start, actLen, key, hole) && moves <= Level(actLen)
      ensures Elems(actQueue[..], actLen) == Elems(start, actLen)
      ensures DownReady(start, actLen, key, hole) ==>
        Keyed(actQueue[..], actLen, key) && Ordered(actQueue[..], actLen, key)
    {
      hide DownReady, Ordered, Elems, PercolatedDown, EarlierChild, Level;
      ghost var q := start;
      var priority := a.priority;
      var h: QIdx := hole;
      moves := 0;
      while true
        invariant HEAD <= h <= actLen && |q| == actQueue.Length && q[h] == a && moves <= Level(h)
        invariant Keyed(q, actLen, key)
        invariant PercolatedDown(q, actLen, key, h) == PercolatedDown(start, actLen, key, hole)
        invariant forall i :: 0 <= i < |q| && i != h ==> actQueue[i] == q[i]
        decreases actLen - h
      {
        DownTurn(q, actLen, key, h);
        if Twice(h) > actLen {
          break;
        }
        var child := ActChild(h, q, key);
        var c := actQueue[child];
        if priority < c.priority {
          break;
        }
        actQueue[h] := c;
        q := Swap(q, h, child);
        LevelOfChild(h, child);
        h := child;
        moves := moves + 1;
      }
      actQueue[h] := a;
      assert actQueue[..] == q;
      LevelMonotone(h, actLen);
      DownPercolates(start, actLen, key, hole);
    }

    lemma ActQueueSize()
      requires ActsInv()
      ensures |Scheduled()| == actLen && actLen <= Room(actQueue)
    {
      assert |Elems(actQueue[..], actLen)| == actLen;
    }

    /** Schedules a routine for the current instant; scheduling it twice changes nothing. */
    method Activate(a: Act) returns (r: Outcome)
      requires ActsInv() && a in acts
      modifies this`actLen, actQueue, a`scheduled
      ensures r == Throw(ExhaustedActQueue) <==> |old(Scheduled()) + {a}| > Room(actQueue)
      ensures r != Throw(ExhaustedActQueue) ==> r == Ok && ActsInv() && Scheduled() == old(Scheduled()) + {a}
    {
      hide Keyed, Ordered, Elems, UpReady, Level;
      ActQueueSize();
      if a.scheduled {
        assert Scheduled() + {a} == Scheduled();
        return Ok;
      }
      ghost var q := actQueue[..];
      ghost var before := Scheduled();
      actLen := actLen + 1;
      if actLen > Room(actQueue) {
        return Throw(ExhaustedActQueue);
      }
      assert SameKeysBut(before, ActKeys(), ActKeys(), a);
      InsertReady(q, actLen - 1, ActKeys(), before, ActKeys(), a);
      ghost var moves := ActPercolateUp(actLen, a, q[actLen := a], ActKeys());
      assert Scheduled() == before + {a};
      r := Ok;
    }

    /** The root of the activation queue is a scheduled routine of least priority number. */
    lemma FirstAct()
      requires ActsInv() && actLen > 0
      ensures actQueue[1] in Scheduled() && actQueue[actLen] in Scheduled()
      ensures forall b :: b in Scheduled() ==> actQueue[1].priority <= b.priority
    {
      hide Ordered, Elems;
      var q := actQueue[..];
      ElemsMember(q, actLen, 1);
      ElemsMember(q, actLen, actLen);
      forall b | b in Scheduled() ensures actQueue[1].priority <= b.priority {
        var i := MemberIndex(q, actLen, b);
        RootIsMin(q, actLen, ActKeys(), i);
      }
    }

    /** Takes the routine of least priority number off the activation queue. */
    method PopAct() returns (a: Act)
      requires ActsInv() && actLen > 0
      modifies this`actLen, actQueue, acts`scheduled
      ensures ActsInv() && a in old(Scheduled()) && Scheduled() == old(Scheduled()) - {a}
      ensures forall b :: b in old(Scheduled()) ==> a.priority <= b.priority
    {
      hide Ordered, Elems, UpReady, DownReady, Level, PercolatedDown;
      ghost var q := actQueue[..];
      ghost var before := Scheduled();
      ghost var key := ActKeys();
      FirstAct();
      a := actQueue[HEAD];
      a.scheduled := false;
      var last := actQueue[actLen];
      actLen := actLen - 1;
      assert SameKeysBut(before, key, key, a);
      if actLen > 0 {
        RemoveReady(q, actLen + 1, key, before, key, 1);
        ghost var moves := ActPercolateDown(HEAD, last, q[1 := last], key);
      } else {
        RemoveLast(q, 1, key, before, key);
      }
      assert Scheduled() == before - {a};
    }

    // ---------- trigger lists ----------

    /** Links a trigger in front of one list. */
    static method Push(v: Sv, t: Trigger, ghost ts: seq<Trigger>)
      requires Linked(v, ts) && t !in ts
      modifies v`triggers, t`next, t`prevPtr, ts`prevPtr
      ensures Linked(v, [t] + ts)
    {
      t.next := v.triggers;
      if v.triggers != null {
        v.triggers.prevPtr := NextOf(t);
      }
      v.triggers := t;
      t.prevPtr := HeadOf(v);
      ghost var us := [t] + ts;
      forall i | 0 <= i < |us|
        ensures us[i].next == if i + 1 < |us| then us[i + 1] else null
        ensures us[i].prevPtr == if i == 0 then HeadOf(v) else NextOf(us[i - 1])
      {
        if i > 0 {
          assert us[i] == ts[i - 1] && ts[i - 1] in ts;
        }
      }
    }

    static lemma StillDistinct<T>(ts: seq<T>, at: nat)
      requires at < |ts| && forall i, j :: 0 <= i < j < |ts| ==> ts[i] != ts[j]
      ensures var us := ts[..at] + ts[at + 1..]; forall i, j :: 0 <= i < j < |us| ==> us[i] != us[j]
      ensures forall t :: t in ts[..at] + ts[at + 1..] <==> t in ts && t != ts[at]
    {
      var us := ts[..at] + ts[at + 1..];
      forall i | 0 <= i < |us| ensures us[i] == ts[if i < at then i else i + 1] {
      }
      forall t | t in ts && t != ts[at] ensures t in us {
        var i :| 0 <= i < |ts| && ts[i] == t;
        assert us[if i < at then i else i - 1] == t;
      }
    }

    /** The pointers of a list in which the neighbours of slot `at` point past it. */
    static lemma Rejoined(v: Sv, ts: seq<Trigger>, at: nat)
      requires at < |ts| && forall i, j :: 0 <= i < j < |ts| ==> ts[i] != ts[j]
      requires v.triggers == if at > 0 then ts[0] else if |ts| > 1 then ts[1] else null
      requires forall i {:trigger ts[i].next} :: 0 <= i < |ts| && i != at ==>
        var k := if i + 1 == at then at + 1 else i + 1; ts[i].next == if k < |ts| then ts[k] else null
      requires forall i {:trigger ts[i].prevPtr} :: 0 <= i < |ts| && i != at ==>
        var k := if i == at + 1 then at else i; ts[i].prevPtr == if k == 0 then HeadOf(v) else NextOf(ts[k - 1])
      ensures Linked(v, ts[..at] + ts[at + 1..])
    {
      var us := ts[..at] + ts[at + 1..];
      StillDistinct(ts, at);
      forall i | 0 <= i < |us|
        ensures us[i].next == if i + 1 < |us| then us[i + 1] else null
        ensures us[i].prevPtr == if i == 0 then HeadOf(v) else NextOf(us[i - 1])
      {
        assert us[i] == ts[if i < at then i else i + 1];
      }
    }

    /** Links a trigger out of the list it is on. */
    static method Unlink(t: Trigger, ghost v: Sv, ghost ts: seq<Trigger>, ghost at: nat)
      requires Linked(v, ts) && at < |ts| && ts[at] == t
      modifies v`triggers, ts`next, ts`prevPtr
      ensures Linked(v, ts[..at] + ts[at + 1..])
    {
      assert ts[at].next == if at + 1 < |ts| then ts[at + 1] else null;
      assert ts[at].prevPtr == if at == 0 then HeadOf(v) else NextOf(ts[at - 1]);
      match t.prevPtr {
        case HeadOf(head) => head.triggers := t.next;
        case NextOf(prev) => prev.next := t.next;
      }
      if t.next != null {
        t.next.prevPtr := t.prevPtr;
      }
      forall i | 0 <= i < |ts| && i != at
        ensures var k := if i + 1 == at then at + 1 else i + 1; ts[i].next == if k < |ts| then ts[k] else null
        ensures var k := if i == at + 1 then at else i; ts[i].prevPtr == if k == 0 then HeadOf(v) else NextOf(ts[k - 1])
      {
        assert i + 1 != at ==> ts[i].next == old(ts[i].next);
        assert i != at + 1 ==> ts[i].prevPtr == old(ts[i].prevPtr);
      }
      Rejoined(v, ts, at);
    }

    /** A list none of whose pointers has changed. */
    twostate lemma SameList(v: Sv)
      requires v in old(lists) && old(Linked(v, lists[v])) && v.triggers == old(v.triggers)
      requires forall t :: t in old(lists[v]) ==> t.next == old(t.next) && t.prevPtr == old(t.prevPtr)
      ensures Linked(v, old(lists[v]))
    {
      var ts := old(lists[v]);
      assert forall i :: 0 <= i < |ts| ==> ts[i] in ts;
    }

    /** Changing the list of one variable and nothing on the other lists keeps the invariant. */
    twostate lemma Relisted(v: Sv)
      requires old(TrigsInv()) && v in svs && v in lists && lists == old(lists)[v := lists[v]]
      requires Linked(v, lists[v])
      requires forall w :: w in svs && w != v ==> w.triggers == old(w.triggers)
      requires forall t :: t in old(attached) && old(attached[t]) != v ==>
        t.next == old(t.next) && t.prevPtr == old(t.prevPtr) && t in attached && attached[t] == old(attached[t])
      requires attached.Keys <= trigs
      requires forall t :: t in lists[v] ==> t in attached && attached[t] == v
      requires forall t :: t in attached && attached[t] == v ==> t in lists[v]
      requires forall t :: t in attached && attached[t] != v ==> t in old(attached) && old(attached[t]) == attached[t]
      ensures TrigsInv()
    {
      hide Linked;
      forall w | w in svs ensures Owned(w) && Linked(w, lists[w]) {
        if w != v {
          assert old(Owned(w)) && old(Linked(w, lists[w]));
          SameList(w);
        }
      }
    }

    /** Each list holds exactly the triggers attached to its variable, without repetition. */
    lemma ListOf(v: Sv)
      requires TrigsInv() && v in svs
      ensures attached.Keys <= trigs && lists.Keys == svs
      ensures Linked(v, lists[v])
      ensures forall i, j :: 0 <= i < j < |lists[v]| ==> lists[v][i] != lists[v][j]
      ensures forall t :: t in lists[v] <==> t in attached && attached[t] == v
      ensures forall t :: t in lists[v] ==> t.act in acts
    {
      assert Owned(v);
    }

    lemma PlaceOf(t: Trigger) returns (at: nat)
      requires TrigsInv() && t in attached
      ensures attached[t] in svs && attached[t] in lists
      ensures at < |lists[attached[t]]| && lists[attached[t]][at] == t
    {
      hide Linked;
      var ts := lists[attached[t]];
      at :| 0 <= at < |ts| && ts[at] == t;
    }

    /** Puts a trigger at the front of a variable's list. */
    method Sensitize(v: Sv, t: Trigger)
      requires TrigsInv() && v in svs && t in trigs && t !in attached
      modifies this`lists, this`attached, v`triggers, t`next, trigs`prevPtr
      ensures TrigsInv()
      ensures lists == old(lists)[v := [t] + old(lists[v])] && attached == old(attached)[t := v]
    {
      hide Linked, TrigsInv;
      ListOf(v);
      Push(v, t, lists[v]);
      lists := lists[v := [t] + lists[v]];
      attached := attached[t := v];
      Relisted(v);
    }

    /** Takes a trigger off its variable's list, wherever in the list it is. */
    method Desensitize(t: Trigger) returns (ghost v: Sv, ghost at: nat)
      requires TrigsInv() && t in attached
      modifies this`lists, this`attached, svs`triggers, trigs`next, trigs`prevPtr
      ensures TrigsInv()
      ensures v == old(attached[t]) && at < |old(lists[v])| && old(lists[v])[at] == t
      ensures lists == old(lists)[v := old(lists[v])[..at] + old(lists[v])[at + 1..]]
      ensures attached == old(attached) - {t}
    {
      hide Linked, TrigsInv;
      v := attached[t];
      at := PlaceOf(t);
      ListOf(v);
      ghost var ts := lists[v];
      StillDistinct(ts, at);
      Unlink(t, v, ts, at);
      lists := lists[v := ts[..at] + ts[at + 1..]];
      attached := attached - {t};
      Relisted(v);
    }

    // ---------- updates ----------

    /** The routines of the triggers on a list whose priority number is above `floor`. */
    static ghost function Woken(ts: seq<Trigger>, floor: int): set<Act> {
      set t | t in ts && t.act.priority > floor :: t.act
    }

    /** The scheduled routines once the first i triggers of a list have been walked past. */
    static ghost function Awake(scheduled: set<Act>, ts: seq<Trigger>, floor: int, i: nat): set<Act>
      requires i <= |ts|
    {
      scheduled + Woken(ts[..i], floor)
    }

    static lemma AwakeStep(scheduled: set<Act>, ts: seq<Trigger>, floor: int, i: nat)
      requires i < |ts|
      ensures Awake(scheduled, ts, floor, i + 1) ==
              if ts[i].act.priority > floor then Awake(scheduled, ts, floor, i) + {ts[i].act}
                else Awake(scheduled, ts, floor, i)
    {
      assert ts[..i + 1] == ts[..i] + [ts[i]];
    }

    static lemma AwakeEnds(scheduled: set<Act>, ts: seq<Trigger>, floor: int)
      ensures Awake(scheduled, ts, floor, 0) == scheduled
      ensures Awake(scheduled, ts, floor, |ts|) == scheduled + Woken(ts, floor)
    {
      assert ts[..|ts|] == ts;
    }

    lemma WokenAreSensitive(v: Sv, floor: int)
      requires TrigsInv() && v in svs
      ensures Woken(lists[v], floor) ==
              set a | a in I.Sensitive(Env(), Abs(), v) && a in Env().prio && Env().prio[a] > floor
      ensures Woken(lists[v], -1) == I.Sensitive(Env(), Abs(), v)
    {
      hide Linked;
      ListOf(v);
    }

    /** What is thrown when the routines `woken` are to be scheduled besides the others. */
    ghost function WakeThrow(scheduled: set<Act>, woken: set<Act>): Outcome {
      if |scheduled + woken| > Room(actQueue) then Throw(ExhaustedActQueue) else Ok
    }

    /** If there are too many routines halfway along a list, there are too many in the end. */
    lemma TooManyWoken(scheduled: set<Act>, ts: seq<Trigger>, floor: int, i: nat)
      requires i < |ts| && ts[i].act.priority > floor && |Awake(scheduled, ts, floor, i) + {ts[i].act}| > Room(actQueue)
      ensures WakeThrow(scheduled, Woken(ts, floor)) == Throw(ExhaustedActQueue)
    {
      SubsetSize(Awake(scheduled, ts, floor, i) + {ts[i].act}, scheduled + Woken(ts, floor));
    }

    lemma RoomLeft(scheduled: set<Act>, woken: set<Act>)
      requires ActsInv() && Scheduled() == scheduled + woken
      ensures WakeThrow(scheduled, woken) == Ok
    {
      ActQueueSize();
    }

    /** Activates the routines on a variable's trigger list whose priority number is above `floor`. */
    method Wake(v: Sv, floor: int) returns (r: Outcome)
      requires ActsInv() && TrigsInv() && v in svs
      modifies this`actLen, actQueue, acts`scheduled
      ensures r == old(WakeThrow(Scheduled(), Woken(lists[v], floor)))
      ensures r.Ok? ==> ActsInv() && Scheduled() == old(Scheduled()) + Woken(lists[v], floor)
    {
      hide ActHeap, TrigsInv, ActsInv, Scheduled, Woken, Awake, WakeThrow;
      ListOf(v);
      ghost var ts, before := lists[v], Scheduled();
      AwakeEnds(before, ts, floor);
      var t := v.triggers;
      ghost var i := 0;
      while t != null
        invariant i <= |ts| && t == (if i < |ts| then ts[i] else null)
        invariant ActsInv() && Scheduled() == Awake(before, ts, floor, i)
        decreases |ts| - i
      {
        AwakeStep(before, ts, floor, i);
        assert t in ts && t.act in acts;
        if t.act.priority > floor {
          r := Activate(t.act);
          if r.Throw? {
            TooManyWoken(before, ts, floor, i);
            return;
          }
        }
        t := t.next;
        i := i + 1;
      }
      RoomLeft(before, Woken(ts, floor));
      r := Ok;
    }

    /** Instantaneous assignment by a routine of priority `prio`. */
    method Assign(v: Sv, prio: nat, val: Word) returns (r: Outcome)
      requires ActsInv() && TrigsInv() && v in svs
      modifies v`value, v`lastUpdated, this`actLen, actQueue, acts`scheduled
      ensures r.Ok? ==> ActsInv() && v.value == val && v.lastUpdated == now
      ensures r == old(WakeThrow(Scheduled(), Woken(lists[v], prio)))
      ensures r.Ok? ==> Scheduled() == old(Scheduled()) + Woken(lists[v], prio)
    {
      hide ActHeap, TrigsInv;
      ListOf(v);
      v.value := val;
      v.lastUpdated := now;
      r := Wake(v, prio);
    }

    /** The event heap as it is while `v` is being updated: `v` still holds its slot, in the order of `t`. */
    ghost predicate Updating(v: Sv, t: Time)
      reads this`queued, this`eventLen, eventQueue, svs`laterTime
    {
      && EventShape() && v in queued && v in svs && v.laterTime == NEVER
      && HeapUnder(eventLen, EventKeys()[v := t])
      && (forall w :: w in svs && w != v ==> (w in queued <==> w.laterTime != NEVER))
    }

    /** The pending value becomes the value. */
    method TakePending(v: Sv)
      requires EventsInv() && v in svs && v.laterTime == now != NEVER
      modifies v`value, v`lastUpdated, v`laterTime
      ensures Updating(v, now)
      ensures v.value == v.laterValue && v.lastUpdated == now && v.laterTime == NEVER
    {
      hide HeapUnder;
      ghost var key := EventKeys();
      v.value := v.laterValue;
      v.lastUpdated := now;
      v.laterTime := NEVER;
      assert EventKeys()[v := now] == key;
    }

    /** Gives a variable its pending value and wakes every routine sensitive to it.

        Dropping the old value may finalise other variables, which unschedules them: `freed`
        lists them in order. The variable itself keeps its slot throughout. */
    method Update(v: Sv, freed: seq<Sv>) returns (r: Outcome)
      requires Valid() && now != NEVER && v in svs
      requires v !in freed && forall w :: w in freed ==> w in svs
      modifies this`eventLen, this`queued, eventQueue, svs`laterTime, v`value, v`lastUpdated
      modifies this`actLen, actQueue, acts`scheduled
      ensures r == if now != old(v.laterTime) then Throw(NotReady) else old(WakeThrow(Scheduled(), Woken(lists[v], -1)))
      ensures r.Ok? ==> Updating(v, now) && ActsInv() && TrigsInv()
      ensures r.Ok? ==> queued == old(queued) - (set w | w in freed)
      ensures r.Ok? && old(AtRoot(v)) ==> AtRoot(v)
      ensures r.Ok? ==> v.value == v.laterValue && v.lastUpdated == now && v.laterTime == NEVER
      ensures r.Ok? ==> forall w :: w in svs && w != v ==> w.laterTime == if w in freed then NEVER else old(w.laterTime)
      ensures r.Ok? ==> Scheduled() == old(Scheduled()) + Woken(lists[v], -1)
    {
      hide EventHeap, Updating, TrigsInv, ActsInv, Scheduled, Woken, AtRoot, Filled, View, IsQueue, UnscheduledAll,
        WakeThrow;
      if now != v.laterTime {
        return Throw(NotReady);
      }
      InvIsQueue();
      UnscheduleEach(freed, v);
      TakePending(v);
      r := Wake(v, -1);
    }

    lemma UpdatingKeys(v: Sv, t: Time)
      requires Updating(v, t) && AtRoot(v)
      ensures SameKeysBut(queued, EventKeys()[v := t], EventKeys(), v) && Timed(EventKeys())
      ensures eventQueue[eventLen] in svs
    {
      ElemsMember(eventQueue[..], eventLen, eventLen);
    }

    /** Takes the variable just updated off the root of the event queue. */
    method PopEvent(v: Sv, ghost t: Time)
      requires Updating(v, t) && AtRoot(v)
      modifies this`eventLen, this`queued, eventQueue
      ensures EventsInv() && queued == old(queued) - {v}
    {
      hide Keyed, Ordered, Elems, DownReady, Level, PercolatedDown, EventKeys;
      ghost var key := EventKeys()[v := t];
      ghost var q := eventQueue[..];
      var last := eventQueue[eventLen];
      UpdatingKeys(v, t);
      eventLen := eventLen - 1;
      if eventLen > 0 {
        RemoveReady(q, eventLen + 1, key, queued, EventKeys(), 1);
        ghost var moves := EventPercolateDown(HEAD, last, q[1 := last], EventKeys());
      } else {
        RemoveLast(q, 1, key, queued, EventKeys());
      }
      queued := queued - {v};
    }

    /** The state after cancelling the updates of `freed` and applying that of `v`. */
    ghost function AfterUpdate(v: Sv, freed: seq<Sv>): Abstract
      reads this`now, this`attached, svs, acts
      requires v in svs && v.laterTime != NEVER && v !in freed && forall w :: w in freed ==> w in svs
    {
      I.UnscheduleAllIs(Abs(), freed);
      I.ApplyOne(Env(), I.UnscheduleAll(Abs(), freed), v)
    }

    lemma AfterUpdateIs(v: Sv, freed: seq<Sv>)
      requires TrigsInv() && v in svs && v.laterTime != NEVER && v !in freed && forall w :: w in freed ==> w in svs
      ensures var s := AfterUpdate(v, freed);
        && s.now == now && s.attached == attached && s.runnable == Scheduled() + Woken(lists[v], -1)
        && s.pcs.Keys == acts && (forall a :: a in acts ==> s.pcs[a] == a.pc)
        && s.vars.Keys == svs && s.vars[v] == I.VarState(v.laterValue, now, None)
        && forall w :: w in svs && w != v ==> s.vars[w] == if w in freed then AbsVar(w).(pending := None) else AbsVar(w)
    {
      hide TrigsInv, Scheduled, Woken;
      WokenAreSensitive(v, -1);
      I.UnscheduleAllIs(Abs(), freed);
    }

    /** Applies the update at the root of the event queue and removes it.

        Whatever other variables the drop of the old value finalises, the result is that of
        cancelling their updates and then applying the root's. */
    method UpdateRoot(v: Sv, freed: seq<Sv>) returns (r: Outcome)
      requires Valid() && now != NEVER && AtRoot(v) && v in svs && v.laterTime == now
      requires v !in freed && forall w :: w in freed ==> w in svs
      modifies this`eventLen, this`queued, eventQueue, svs, this`actLen, actQueue, acts`scheduled
      ensures r == if |old(AfterUpdate(v, freed)).runnable| > Room(actQueue) then Throw(ExhaustedActQueue) else Ok
      ensures r.Ok? ==> Valid() && queued == old(queued) - (set w | w in freed) - {v}
      ensures r.Ok? ==> Abs() == old(AfterUpdate(v, freed))
      ensures r.Ok? ==> forall w :: w in svs && w != v ==> w.laterTime == if w in freed then NEVER else old(w.laterTime)
    {
      hide EventsInv, Updating, TrigsInv, ActsInv, Scheduled, Woken, HeapUnder, Abs, AfterUpdate;
      AfterUpdateIs(v, freed);
      ghost var s := AfterUpdate(v, freed);
      r := Update(v, freed);
      if r.Throw? {
        return;
      }
      assert TrigsInv() && ActsInv();
      PopEvent(v, now);
      assert TrigsInv() && ActsInv();
      AbsIs(s);
    }

    method NextEventTime() returns (t: Time)
      requires EventsInv()
      ensures t == I.NextTime(Abs())
    {
      if eventLen == 0 {
        QueueSize();
        QueuedArePending();
        return NEVER;
      }
      RootEvent();
      t := eventQueue[HEAD].laterTime;
    }

    /** Moves model time forward, but not past a pending update. */
    method SetNow(next: Time) returns (r: Outcome)
      requires EventsInv()
      modifies this`now
      ensures r == Throw(InvalidTime) <==> next <= old(now)
      ensures r == Throw(NotReady) <==> next > old(now) && exists v :: v in queued && v.laterTime < next
      ensures r.Ok? ==> now == next
      ensures r.Throw? ==> now == old(now) && (r == Throw(InvalidTime) || r == Throw(NotReady))
    {
      hide HeapUnder;
      if next <= now {
        return Throw(InvalidTime);
      }
      QueueSize();
      if eventLen != 0 {
        RootEvent();
        if next > eventQueue[HEAD].laterTime {
          return Throw(NotReady);
        }
      }
      now := next;
      r := Ok;
    }

    // ---------- steps ----------

    /** The queues have room for what is in them. */
    lemma NoOverflow()
      requires Valid()
      ensures I.Overflow(Env(), Abs()) == Ok
    {
      hide HeapOf;
      QueueSize();
      QueuedArePending();
      ActQueueSize();
    }

    /** What scheduling more routines throws. */
    lemma ActsOverflow(s: Abstract)
      requires Valid() && I.Pending(s) == I.Pending(Abs()) && |s.runnable| > Room(actQueue)
      ensures I.Overflow(Env(), s) == Throw(ExhaustedActQueue)
    {
      NoOverflow();
    }

    lemma AssignOverflow(a: Act, v: Sv, val: Word)
      requires Valid() && v in Abs().vars && |I.AssignNow(Env(), Abs(), v, a.priority, val).runnable| > Room(actQueue)
      ensures I.Overflow(Env(), I.AssignNow(Env(), Abs(), v, a.priority, val)) == Throw(ExhaustedActQueue)
    {
      ghost var s := I.AssignNow(Env(), Abs(), v, a.priority, val);
      assert I.Pending(s) == I.Pending(Abs());
      hide Valid, Abs, I.AssignNow;
      ActsOverflow(s);
    }

    lemma LaterOverflow(v: Sv, when: Time, val: Word)
      requires Valid() && v in Abs().vars && |queued + {v}| > Room(eventQueue)
      ensures I.Overflow(Env(), I.ScheduleLater(Abs(), v, when, val)) == Throw(ExhaustedEventQueue)
    {
      hide HeapOf, TrigsInv, ActsInv;
      QueuedArePending();
      assert I.Pending(I.ScheduleLater(Abs(), v, when, val)) == queued + {v};
    }

    /** The state after an assignment. */
    lemma AssignIs(a: Act, v: Sv, val: Word)
      requires Valid() && a in acts && v in svs
      ensures v in Abs().vars
      ensures var s := I.AssignNow(Env(), Abs(), v, a.priority, val);
        && s.now == now && s.attached == attached && s.runnable == Scheduled() + Woken(lists[v], a.priority)
        && s.pcs.Keys == acts && (forall b :: b in acts ==> s.pcs[b] == b.pc)
        && s.vars.Keys == svs && s.vars[v] == AbsVar(v).(value := val, lastUpdated := now)
        && forall w :: w in svs && w != v ==> s.vars[w] == AbsVar(w)
    {
      hide TrigsInv, EventsInv, ActsInv, Scheduled, Woken, I.Sensitive;
      WokenAreSensitive(v, a.priority);
    }

    method CallAssign(a: Act, v: Sv, val: Word) returns (r: Outcome)
      requires Valid() && a in acts && v in svs
      modifies v`value, v`lastUpdated, this`actLen, actQueue, acts`scheduled
      ensures v in old(Abs()).vars
      ensures r.Throw? ==> r == I.Overflow(Env(), I.AssignNow(Env(), old(Abs()), v, a.priority, val))
      ensures r.Ok? ==> Valid() && Abs() == I.AssignNow(Env(), old(Abs()), v, a.priority, val)
    {
      hide EventsInv, TrigsInv, ActsInv, Scheduled, Woken, I.Overflow, I.AssignNow, Abs;
      ListOf(v);
      AssignIs(a, v, val);
      ghost var s := I.AssignNow(Env(), Abs(), v, a.priority, val);
      if |s.runnable| > Room(actQueue) { AssignOverflow(a, v, val); }
      r := Assign(v, a.priority, val);
      if r.Ok? {
        AbsIs(s);
      }
    }

    /** The state after scheduling an update. */
    lemma LaterIs(v: Sv, when: Time, val: Word)
      requires Valid() && v in svs
      ensures v in Abs().vars
      ensures var s := I.ScheduleLater(Abs(), v, when, val);
        && s.now == now && s.attached == attached && s.runnable == Scheduled()
        && s.pcs.Keys == acts && (forall b :: b in acts ==> s.pcs[b] == b.pc)
        && s.vars.Keys == svs && s.vars[v] == AbsVar(v).(pending := Some(I.Pend(when, val)))
        && forall w :: w in svs && w != v ==> s.vars[w] == AbsVar(w)
    {
    }

    method CallLater(v: Sv, when: Time, val: Word) returns (r: Outcome)
      requires Valid() && v in svs && when != NEVER
      modifies this`eventLen, this`queued, eventQueue, svs`laterTime, v`laterValue
      ensures v in old(Abs()).vars
      ensures r == Throw(InvalidTime) <==> when < now
      ensures r.Throw? && when >= now ==> r == I.Overflow(Env(), I.ScheduleLater(old(Abs()), v, when, val))
      ensures r.Ok? ==> Valid() && Abs() == I.ScheduleLater(old(Abs()), v, when, val)
    {
      hide HeapUnder, TrigsInv, ActsInv, Scheduled, Abs, I.ScheduleLater, I.Overflow, Filled, View, IsHeap, Rescheduled,
        MayFinalise, EventHeap, Pow2;
      NothingFinalised(v, when);
      LaterIs(v, when, val);
      ghost var s := I.ScheduleLater(Abs(), v, when, val);
      if |queued + {v}| > Room(eventQueue) { LaterOverflow(v, when, val); }
      r := Later(v, when, val, []);
      if r.Ok? {
        assert TrigsInv() && ActsInv();
        AbsIs(s);
      }
    }

    method CallSensitize(v: Sv, t: Trigger)
      requires Valid() && v in svs && t in trigs && t !in attached
      modifies this`lists, this`attached, v`triggers, t`next, trigs`prevPtr
      ensures Valid() && Abs() == old(Abs()).(attached := old(attached)[t := v])
    {
      hide EventsInv, TrigsInv, ActsInv, Scheduled, Abs, AbsVar;
      AbsHas();
      ghost var s := Abs().(attached := attached[t := v]);
      Sensitize(v, t);
      AbsIs(s);
    }

    method CallDesensitize(t: Trigger)
      requires Valid() && t in attached
      modifies this`lists, this`attached, svs`triggers, trigs`next, trigs`prevPtr
      ensures Valid() && Abs() == old(Abs()).(attached := old(attached) - {t})
    {
      hide EventsInv, TrigsInv, ActsInv, Scheduled, Abs, AbsVar;
      AbsHas();
      ghost var s := Abs().(attached := attached - {t});
      ghost var v, at := Desensitize(t);
      AbsIs(s);
    }

    method CallActivate(b: Act) returns (r: Outcome)
      requires Valid() && b in acts
      modifies this`actLen, actQueue, b`scheduled
      ensures r.Throw? ==> r == I.Overflow(Env(), old(Abs()).(runnable := old(Abs()).runnable + {b}))
      ensures r.Ok? ==> Valid() && Abs() == old(Abs()).(runnable := old(Abs()).runnable + {b})
    {
      hide EventsInv, TrigsInv, ActsInv, Scheduled, I.Overflow;
      ghost var s := Abs().(runnable := Scheduled() + {b});
      assert I.Pending(s) == I.Pending(Abs());
      if |s.runnable| > Room(actQueue) { ActsOverflow(s); }
      r := Activate(b);
      if r.Ok? {
        AbsIs(s);
      }
    }

    method CallCancel(v: Sv)
      requires Valid() && v in svs
      modifies this`eventLen, this`queued, eventQueue, v`laterTime
      ensures v in old(Abs()).vars && Valid() && Abs() == I.Unschedule(old(Abs()), v)
    {
      hide EventHeap, TrigsInv, ActsInv, Scheduled, Filled, View, IsQueue, Unscheduled, Abs;
      AbsHas();
      ghost var s := I.Unschedule(Abs(), v);
      InvIsQueue();
      Unschedule(v);
      assert TrigsInv() && ActsInv();
      AbsIs(s);
    }

    method CallSetPc(a: Act, pc: nat)
      requires Valid() && a in acts
      modifies a`pc
      ensures Valid() && Abs() == old(Abs()).(pcs := old(Abs()).pcs[a := pc])
    {
      hide EventsInv, TrigsInv, ActsInv, Scheduled;
      ghost var s := Abs().(pcs := Abs().pcs[a := pc]);
      a.pc := pc;
      AbsIs(s);
    }

    /** One runtime call, made by `a`. */
    method Execute(a: Act, c: I.Command<Sv, Act, Trigger>) returns (r: Outcome)
      requires Valid() && a in acts && a in Env().prio && I.Legal(Env(), Abs(), c)
      modifies this`eventLen, this`queued, this`lists, this`attached, this`actLen
      modifies eventQueue, actQueue, svs, acts, trigs
      ensures r == I.CallThrow(Env(), old(Abs()), a, c)
      ensures r.Ok? ==> Valid() && Abs() == I.DoCommand(Env(), old(Abs()), a, c)
    {
      hide Valid, Scheduled, I.Overflow;
      r := Ok;
      match c {
        case Cancel(v) => CallCancel(v);
        case Assign(v, val) => r := CallAssign(a, v, val);
        case Later(v, when, val) => r := CallLater(v, when, val);
        case Sensitize(t, v) => CallSensitize(v, t);
        case Desensitize(t) => CallDesensitize(t);
        case Activate(b) => r := CallActivate(b);
        case SetPc(pc) => CallSetPc(a, pc);
      }
      if r.Ok? {
        NoOverflow();
      }
    }

    /** The step function of `a`: its calls in order, up to the first throw. */
    method Step(a: Act, cs: seq<I.Request<Sv, Act, Trigger>>) returns (r: Outcome)
      requires Valid() && a in acts && a in Env().prio
      requires I.RunStep(Env(), Abs(), a, cs).status != I.Illegal
      modifies this`eventLen, this`queued, this`lists, this`attached, this`actLen
      modifies eventQueue, actQueue, svs, acts, trigs
      ensures r.Throw? ==> old(I.RunStep(Env(), Abs(), a, cs)).status == I.Threw(r.error)
      ensures r.Ok? ==> Valid() && old(I.RunStep(Env(), Abs(), a, cs)) == I.Run(Abs(), [a], I.Done)
    {
      hide Valid, Abs, I.Legal, I.DoCommand, I.CallThrow;
      ghost var run := I.RunStep(Env(), Abs(), a, cs);
      var i := 0;
      while i < |cs|
        invariant i <= |cs| && Valid()
        invariant I.RunStep(Env(), Abs(), a, cs[i..]) == run
      {
        r := Execute(cs[i].a, cs[i].c);
        if r.Throw? {
          return;
        }
        assert cs[i..][1..] == cs[i + 1..];
        i := i + 1;
      }
      r := Ok;
    }

    // ---------- the tick ----------

    lemma RunnableIff()
      requires Valid()
      ensures Abs().runnable == {} <==> actLen == 0
      ensures I.Pending(Abs()) == {} <==> eventLen == 0
    {
      hide HeapUnder, ActHeap, TrigsInv;
      ActQueueSize();
      QueueSize();
      QueuedArePending();
    }

    /** An update is one more update of those in `vs`. */
    lemma UpdateDrains(v: Sv, freed: seq<Sv>, drops: I.Finaliser<Sv>, s: Abstract, vs: seq<Sv>)
      requires v in svs && v.laterTime == now != NEVER && freed == drops(|vs|, v) && v !in freed
      requires forall w :: w in freed ==> w in svs
      requires I.Drains(Env(), drops, s, vs) && Abs() == I.Drained(Env(), drops, s, vs)
      ensures I.Drains(Env(), drops, s, vs + [v]) && I.Drained(Env(), drops, s, vs + [v]) == AfterUpdate(v, freed)
    {
      hide I.Drains, I.Drained;
      assert I.IsDue(Abs(), v) && I.Finalises(freed, Abs(), v);
      I.DrainMore(Env(), drops, s, vs, v);
    }

    static lemma FewerQueued(before: set<Sv>, after: set<Sv>, v: Sv)
      requires after <= before - {v} && v in before
      ensures |after| < |before|
    {
      SubsetSize(after, before - {v});
    }

    /** Applies the update at the root, which is due, after those of `vs`. */
    method ApplyEvent(v: Sv, freed: seq<Sv>, ghost drops: I.Finaliser<Sv>, ghost s: Abstract, ghost vs: seq<Sv>)
      returns (r: Outcome)
      requires Valid() && now != NEVER && forall w :: w in queued ==> now <= w.laterTime
      requires AtRoot(v) && v in svs && v.laterTime == now
      requires freed == drops(|vs|, v) && v !in freed && forall w :: w in freed ==> w in svs
      requires I.Drains(Env(), drops, s, vs) && Abs() == I.Drained(Env(), drops, s, vs)
      modifies this`eventLen, this`queued, eventQueue, svs, this`actLen, actQueue, acts`scheduled
      ensures I.Drains(Env(), drops, s, vs + [v])
      ensures r ==
        if |I.Drained(Env(), drops, s, vs + [v]).runnable| > Room(actQueue) then Throw(ExhaustedActQueue) else Ok
      ensures r.Ok? ==> Valid() && |queued| < |old(queued)| && forall w :: w in queued ==> now <= w.laterTime
      ensures r.Ok? ==> Abs() == I.Drained(Env(), drops, s, vs + [v])
    {
      hide TrigsInv, ActsInv, EventHeap, Scheduled, I.Drains, I.Drained, Abs, AfterUpdate;
      UpdateDrains(v, freed, drops, s, vs);
      r := UpdateRoot(v, freed);
      if r.Ok? {
        FewerQueued(old(queued), queued, v);
      }
    }

    lemma NoneDrained(drops: I.Finaliser<Sv>, s: Abstract)
      ensures I.Drains(Env(), drops, s, []) && I.Drained(Env(), drops, s, []) == s
    {
    }

    lemma RootIsSv()
      requires Valid()
      ensures eventLen > 0 ==> eventQueue[1] in svs
    {
      if eventLen > 0 {
        RootEvent();
      }
    }

    lemma NoneDue()
      requires EventsInv() && forall v :: v in queued ==> now <= v.laterTime
      requires eventLen > 0 ==> eventQueue[1] != null && eventQueue[1].laterTime != now
      ensures I.Due(Abs()) == {}
    {
      hide HeapUnder;
      QueueSize();
      QueuedArePending();
      if eventLen > 0 {
        RootEvent();
      }
    }

    /** Applies every update that is due now, in heap order. Dropping the old values finalises what
        `drops` says; an update finalised before its turn does not take place. */
    method ApplyEvents(drops: I.Finaliser<Sv>) returns (r: Outcome, ghost vs: seq<Sv>)
      requires Valid() && now != NEVER && forall v :: v in queued ==> now <= v.laterTime
      requires forall k: nat, v :: v in svs ==> v !in drops(k, v) && forall w :: w in drops(k, v) ==> w in svs
      modifies this`eventLen, this`queued, eventQueue, svs, this`actLen, actQueue, acts`scheduled
      ensures I.Drains(Env(), drops, old(Abs()), vs) && forall v :: v in vs ==> v in svs
      ensures r ==
        if |I.Drained(Env(), drops, old(Abs()), vs).runnable| > Room(actQueue) then Throw(ExhaustedActQueue) else Ok
      ensures r.Ok? ==> Valid() && Abs() == I.Drained(Env(), drops, old(Abs()), vs) && I.Due(Abs()) == {}
    {
      hide TrigsInv, ActsInv, HeapUnder, Scheduled, I.Drained;
      ghost var s := Abs();
      vs := [];
      var k: nat := 0;
      assert I.Drained(Env(), drops, s, vs) == s by { NoneDrained(drops, s); }
      RootIsSv();
      while eventLen > 0 && eventQueue[HEAD].laterTime == now
        invariant Valid() && forall v :: v in queued ==> now <= v.laterTime
        invariant eventLen > 0 ==> eventQueue[HEAD] in svs
        invariant k == |vs| && forall v :: v in vs ==> v in svs
        invariant I.Drains(Env(), drops, s, vs) && Abs() == I.Drained(Env(), drops, s, vs)
        decreases |queued|
      {
        var v := eventQueue[HEAD];
        r := ApplyEvent(v, drops(k, v), drops, s, vs);
        k, vs := k + 1, vs + [v];
        if r.Throw? {
          return;
        }
        RootIsSv();
      }
      NoneDue();
      ActQueueSize();
      r := Ok;
    }

    /** Takes the first routine off the activation queue. */
    method PopFirst() returns (a: Act)
      requires Valid() && actLen > 0 && I.Unambiguous(Env(), Abs().runnable)
      modifies this`actLen, actQueue, acts`scheduled
      ensures Valid() && a in acts && a in Env().prio && a == I.First(Env(), old(Abs()).runnable)
      ensures Abs() == old(Abs()).(runnable := old(Abs()).runnable - {a})
      ensures I.ViewOf(Abs()) == See()
    {
      hide EventsInv, TrigsInv, ActsInv;
      ghost var s := Abs();
      a := PopAct();
      assert I.IsFirst(Env(), s.runnable, a);
      AbsIs(s.(runnable := s.runnable - {a}));
    }

    /** Runs the first of the scheduled routines. */
    method RunFirst(ghost fuel: nat) returns (r: Outcome, a: Act)
      requires Valid() && actLen > 0 && fuel > 0
      requires I.RunActs(Env(), program, Abs(), fuel).status != I.Illegal
      requires I.RunActs(Env(), program, Abs(), fuel).status != I.Ambiguous
      modifies this`eventLen, this`queued, this`lists, this`attached, this`actLen
      modifies eventQueue, actQueue, svs, acts, trigs
      ensures r.Throw? ==> old(I.RunActs(Env(), program, Abs(), fuel)).status == I.Threw(r.error)
      ensures r.Ok? ==> Valid()
      ensures r.Ok? ==>
        old(I.RunActs(Env(), program, Abs(), fuel)) == I.After([a], I.RunActs(Env(), program, Abs(), fuel - 1))
    {
      hide Valid, Abs, Scheduled, I.RunStep, I.First, I.RunActs, I.Unambiguous;
      RunnableIff();
      I.NoTurn(Env(), program, Abs(), fuel);
      I.Turn(Env(), program, Abs(), fuel);
      a := PopFirst();
      r := Step(a, program(a, See()));
    }

    /** Runs the scheduled routines by priority, at most `fuel` of them. */
    method RunActs(fuel: nat) returns (r: Outcome, done: bool, ghost order: seq<Act>)
      requires Valid()
      requires I.RunActs(Env(), program, Abs(), fuel).status != I.Illegal
      requires I.RunActs(Env(), program, Abs(), fuel).status != I.Ambiguous
      modifies this`eventLen, this`queued, this`lists, this`attached, this`actLen
      modifies eventQueue, actQueue, svs, acts, trigs
      ensures r.Throw? ==> old(I.RunActs(Env(), program, Abs(), fuel)).status == I.Threw(r.error)
      ensures r.Ok? ==> Valid()
      ensures r.Ok? ==>
        old(I.RunActs(Env(), program, Abs(), fuel)) == I.Run(Abs(), order, if done then I.Done else I.OutOfFuel)
    {
      hide Valid, Abs, I.RunActs;
      ghost var run := I.RunActs(Env(), program, Abs(), fuel);
      var left := fuel;
      order := [];
      I.AfterAfter([], [], run);
      while actLen > 0
        invariant Valid() && run == I.After(order, I.RunActs(Env(), program, Abs(), left))
        decreases left
      {
        if left == 0 {
          RunnableIff();
          I.NoTurn(Env(), program, Abs(), left);
          return Ok, false, order;
        }
        var a;
        r, a := RunFirst(left);
        if r.Throw? {
          done := false;
          return;
        }
        left := left - 1;
        I.AfterAfter(order, [a], I.RunActs(Env(), program, Abs(), left));
        order := order + [a];
      }
      RunnableIff();
      I.NoTurn(Env(), program, Abs(), left);
      return Ok, true, order;
    }

    /** The checks at the start of a tick, and the advance of model time. */
    method Advance() returns (r: Outcome)
      requires Valid() && now != NEVER
      modifies this`now
      ensures r == I.TickThrow(old(Abs()))
      ensures r.Ok? ==> Abs() == I.Advance(old(Abs()))
      ensures r.Ok? ==> now != NEVER && forall v :: v in queued ==> now <= v.laterTime
    {
      hide HeapUnder, TrigsInv, ActsInv, Scheduled, Abs, AbsVar, I.Pending;
      RunnableIff();
      QueuedArePending();
      AbsHas();
      ghost var s := I.Advance(Abs());
      var next := NextEventTime();
      if actLen != 0 && next != NEVER && now > next {
        return Throw(NotReady);
      }
      r := Ok;
      if actLen == 0 && eventLen > 0 {
        RootEvent();
        r := SetNow(next);
        if r.Ok? {
          AbsIs(s);
        }
      }
    }

    /** Runs one instant: advance time if nothing is runnable, apply the due updates, run the routines.
        `drops` says what dropping the old value of an updated variable finalises. */
    method TickDropping(drops: I.Finaliser<Sv>, fuel: nat)
      returns (r: Outcome, done: bool, ghost vs: seq<Sv>, ghost order: seq<Act>)
      requires Valid() && now != NEVER
      requires forall k: nat, v :: v in svs ==> v !in drops(k, v) && forall w :: w in drops(k, v) ==> w in svs
      requires forall us :: I.UpdatesOf(Env(), drops, Abs(), us) ==>
                 I.TickDropping(Env(), program, drops, Abs(), us, fuel).status !in {I.Illegal, I.Ambiguous}
      modifies this`now, this`eventLen, this`queued, this`lists, this`attached, this`actLen
      modifies eventQueue, actQueue, svs, acts, trigs
      ensures I.UpdatesOf(Env(), drops, old(Abs()), vs)
      ensures r.Throw? ==> I.TickDropping(Env(), program, drops, old(Abs()), vs, fuel).status == I.Threw(r.error)
      ensures r.Ok? ==> Valid() && now != NEVER
      ensures r.Ok? ==>
        I.TickDropping(Env(), program, drops, old(Abs()), vs, fuel) ==
          I.Run(Abs(), order, if done then I.Done else I.OutOfFuel)
    {
      hide EventsInv, TrigsInv, ActsInv, Scheduled, I.Drains, I.Drained, I.Advance, I.RunActs, I.TickThrow;
      done, vs, order := false, [], [];
      r := Advance();
      if r.Throw? {
        return;
      }
      r, vs := ApplyEvents(drops);
      if r.Throw? {
        return;
      }
      ActQueueSize();
      assert I.UpdatesOf(Env(), drops, old(Abs()), vs);
      r, done, order := RunActs(fuel);
    }

    /** A tick in which all values are packed. */
    method Tick(fuel: nat) returns (r: Outcome, done: bool, ghost order: seq<Act>)
      requires Valid() && now != NEVER
      requires I.Tick(Env(), program, Abs(), fuel).status != I.Illegal
      requires I.Tick(Env(), program, Abs(), fuel).status != I.Ambiguous
      modifies this`now, this`eventLen, this`queued, this`lists, this`attached, this`actLen
      modifies eventQueue, actQueue, svs, acts, trigs
      ensures r.Throw? ==> old(I.Tick(Env(), program, Abs(), fuel)).status == I.Threw(r.error)
      ensures r.Ok? ==> Valid() && now != NEVER
      ensures r.Ok? ==>
        old(I.Tick(Env(), program, Abs(), fuel)) == I.Run(Abs(), order, if done then I.Done else I.OutOfFuel)
    {
      hide Valid, Abs, I.UpdatesOf, I.TickDropping, I.Tick;
      ghost var s := Abs();
      forall us | I.UpdatesOf(Env(), I.NoDrops, s, us)
        ensures I.TickDropping(Env(), program, I.NoDrops, s, us, fuel).status !in {I.Illegal, I.Ambiguous}
      {
        I.PackedTick(Env(), program, s, us, fuel);
      }
      ghost var vs;
      r, done, vs, order := TickDropping(I.NoDrops, fuel);
      I.PackedTick(Env(), program, s, vs, fuel);
    }
  }
}
