/** The input queue between a producer (a thread, or an interrupt handler) and the tick loop.

    Both sides are state machines whose steps interleave in every possible way. On POSIX the
    producer takes several steps and a lock covers its reading of the clock and its publishing of
    the packet; on Zephyr an interrupt handler inserts a packet in one go and there is no lock. */
module InputProtocol {
  import opened Prelude

  // ---------- ring indices ----------

  function Idx(i: nat, size: nat): nat
    requires size > 0
  {
    i % size
  }

  predicate ReadReady(r: nat, w: nat, size: nat)
    requires size > 0
  {
    Idx(r, size) != Idx(w, size)
  }

  predicate WriteReady(r: nat, w: nat, size: nat)
    requires size > 0
  {
    ReadReady(r, w + 1, size)
  }

  lemma Times(d: int, size: nat)
    ensures d >= 1 ==> d * size >= size
    ensures d <= -1 ==> d * size + size <= 0
  {
    if d >= 1 {
      assert (d - 1) * size >= 0;
      assert d * size == (d - 1) * size + size;
    } else if d <= -1 {
      assert (-d - 1) * size >= 0;
      assert d * size == -((-d - 1) * size) - size;
    }
  }

  /** Quotient and remainder are unique. */
  lemma Unique(q: int, m: nat, q': int, m': nat, size: nat)
    requires m < size && m' < size && q * size + m == q' * size + m'
    ensures q == q' && m == m'
  {
    Times(q - q', size);
    assert (q - q') * size == q * size - q' * size;
  }

  lemma Division(x: nat, size: nat)
    requires size > 0
    ensures x == x / size * size + x % size
  {
  }

  /** Two indices less than `size` apart share a slot only if they are equal. */
  lemma SlotsDiffer(a: nat, b: nat, size: nat)
    requires size > 0 && a <= b && b - a < size
    ensures Idx(a, size) == Idx(b, size) <==> a == b
  {
    Division(a, size);
    Division(b, size);
    var p, q, m, n := a / size, b / size, a % size, b % size;
    Times(q - p, size);
    assert (q - p) * size == q * size - p * size;
  }

  /** An index one size further shares the slot. */
  lemma Wrap(a: nat, size: nat)
    requires size > 0
    ensures Idx(a + size, size) == Idx(a, size)
  {
    Division(a, size);
    Division(a + size, size);
    var p, q, m, n := a / size, (a + size) / size, a % size, (a + size) % size;
    assert (p + 1) * size + m == q * size + n;
    Unique(p + 1, m, q, n, size);
  }

  /** With at most size - 1 packets in the ring, the modular tests say what the counters say:
      reading is possible unless the ring is empty, writing unless it holds size - 1 packets. */
  lemma ReadinessIsCounting(r: nat, w: nat, size: nat)
    requires size > 1 && r <= w && w - r <= size - 1
    ensures ReadReady(r, w, size) <==> r < w
    ensures WriteReady(r, w, size) <==> w - r < size - 1
  {
    SlotsDiffer(r, w, size);
    if w - r < size - 1 {
      SlotsDiffer(r, w + 1, size);
    } else {
      Wrap(r, size);
    }
  }

  // ---------- states and steps ----------

  /** A packet's time, as the producer read it or converted to model time. */
  datatype Stamp = Raw(t: nat) | Scaled(t: nat)

  datatype Packet = Packet(sv: nat, payload: nat, stamp: Stamp)

  /** What was put in, for the record. */
  datatype Item = Item(sv: nat, payload: nat, t: nat)

  /** How packets are produced and the clock is read. Threaded: by a thread that takes several steps,
      or else by an interrupt handler. Guarded: the main loop takes no snapshot of the ring between the
      reading of the clock and the publishing of the packet; a thread has a lock for that, which the
      loop takes too, and a handler runs to its end. PastLoop: the producer's readings are later than
      all earlier readings of the loop. PastOwn: they are later than all its own earlier ones.
      LoopStrict: the loop's readings are later than all earlier ones, and not just not earlier. */
  datatype Mode = Mode(threaded: bool, guarded: bool, pastLoop: bool, pastOwn: bool, loopStrict: bool)

  /** What keeps packets from coming too late. */
  predicate Careful(mode: Mode) {
    mode.guarded && mode.pastLoop && mode.pastOwn
  }

  predicate Locks(mode: Mode) {
    mode.threaded && mode.guarded
  }

  datatype Holder = Nobody | ByProducer | ByConsumer

  datatype Producer =
    | Idle
    | LoadedW(w: nat)
    | LoadedWR(w: nat, r: nat)
    | Locked(w: nat)
    | Stamped(w: nat, t: nat)
    | Written(w: nat, t: nat)
    | Published
    | Early(t: nat)

  datatype Consumer =
    | Top
    | HasWall(wall: nat)
    | HasNext(wall: nat, next: nat)
    | InLock(wall: nat, next: nat)
    | HasR(wall: nat, next: nat, r: nat)
    | HasRW(wall: nat, next: nat, r: nat, w: nat)
    | Scaling(wall: nat, next: nat, r: nat, w: nat)
    | Deciding(wall: nat, next: nat, r: nat, w: nat)
    | Consuming(time: nat, r: nat, w: nat)
    | Storing(r: nat)
    | Ticking

  /** The shared memory, the two program counters with their local variables, the clock's last
      reading and the last ones of the loop and of the producer, model time and the event queue (the
      pending time of each scheduled variable). */
  datatype State = State(
    clock: nat,
    loopRead: nat,
    ownRead: nat,
    slots: seq<Packet>,
    r: nat,
    w: nat,
    scaled: nat,
    holder: Holder,
    producer: Producer,
    consumer: Consumer,
    now: nat,
    queue: map<nat, nat>,
    sent: seq<Item>,
    taken: seq<Item>)

  ghost function NextTime(queue: map<nat, nat>): (t: nat)
    ensures queue == map[] ==> t == NEVER
    ensures queue != map[] ==> exists v :: v in queue && queue[v] == t
    ensures forall v :: v in queue ==> t <= queue[v]
  {
    if queue == map[] then NEVER else
      assert queue.Keys != {} by { var v :| v in queue; }
      SomeLeast(queue.Keys, queue);
      var v :| v in queue && forall u :: u in queue ==> queue[v] <= queue[u];
      queue[v]
  }

  /** What the clock can show when the loop reads it. It never goes back. */
  ghost predicate LoopMayRead(mode: Mode, s: State, t: nat) {
    s.clock <= t < NEVER && (mode.loopStrict ==> s.clock < t)
  }

  function LoopReads(s: State, t: nat): State {
    s.(clock := t, loopRead := t)
  }

  /** What it can show when the producer reads it. */
  ghost predicate OwnMayRead(mode: Mode, s: State, t: nat) {
    s.clock <= t < NEVER && (mode.pastLoop ==> s.loopRead < t) && (mode.pastOwn ==> s.ownRead < t)
  }

  function OwnReads(s: State, t: nat): State {
    s.(clock := t, ownRead := t)
  }

  /** Writes a packet behind the last one and makes it visible. */
  function Insert(s: State, sv: nat, payload: nat, t: nat): State
    requires |s.slots| > 0
  {
    s.(slots := s.slots[Idx(s.w, |s.slots|) := Packet(sv, payload, Raw(t))],
       w := s.w + 1, sent := s.sent + [Item(sv, payload, t)])
  }

  /** The producer's next step, if it can take one; `t` is what the clock shows if it is read. */
  ghost function ProducerStep(mode: Mode, s: State, t: nat, sv: nat, payload: nat): Option<State>
    requires |s.slots| > 1
  {
    match s.producer
    case Idle =>
      if mode.threaded then Some(s.(producer := LoadedW(s.w)))
      else if !OwnMayRead(mode, s, t) then None
      else if !mode.guarded then Some(OwnReads(s, t).(producer := Early(t)))
      else if WriteReady(s.r, s.w, |s.slots|) then Some(Insert(OwnReads(s, t), sv, payload, t))
      else Some(OwnReads(s, t))
    case LoadedW(w) => Some(s.(producer := LoadedWR(w, s.r)))
    case LoadedWR(w, r) =>
      if !WriteReady(r, w, |s.slots|) then Some(s.(producer := Idle))
      else if !mode.guarded then Some(s.(producer := Locked(w)))
      else if s.holder != Nobody then None
      else Some(s.(holder := ByProducer, producer := Locked(w)))
    case Locked(w) =>
      if OwnMayRead(mode, s, t) then Some(OwnReads(s, t).(producer := Stamped(w, t))) else None
    case Stamped(w, t) =>
      Some(s.(slots := s.slots[Idx(w, |s.slots|) := Packet(sv, payload, Raw(t))], producer := Written(w, t)))
    case Written(w, t) =>
      var p := s.slots[Idx(w, |s.slots|)];
      Some(s.(w := w + 1, sent := s.sent + [Item(p.sv, p.payload, t)], producer := Published))
    case Published => Some(s.(holder := Nobody, producer := Idle))
    case Early(t) =>
      if WriteReady(s.r, s.w, |s.slots|) then Some(Insert(s.(producer := Idle), sv, payload, t))
      else Some(s.(producer := Idle))
  }

  /** The consumer is about to do something the runtime rejects, or to misread a time stamp. */
  ghost predicate Faulty(s: State)
    requires |s.slots| > 1
  {
    match s.consumer
    case Scaling(_, _, _, w) => s.scaled < w && !s.slots[Idx(s.scaled, |s.slots|)].stamp.Raw?
    case Deciding(_, _, r, w) => ReadReady(r, w, |s.slots|) && !s.slots[Idx(r, |s.slots|)].stamp.Scaled?
    case Consuming(time, r, w) => time < s.now || s.slots[Idx(r, |s.slots|)].stamp != Scaled(time)
    case Ticking => s.queue == map[] || NextTime(s.queue) <= s.now
    case _ => false
  }

  /** The consumer's next step, if it can take one. `after` is the event queue the routines of a
      tick leave behind; they schedule strictly forward. */
  ghost function ConsumerStep(mode: Mode, s: State, t: nat, after: map<nat, nat>): Option<State>
    requires |s.slots| > 1
  {
    if Faulty(s) then None else
    match s.consumer
    case Top =>
      if LoopMayRead(mode, s, t) then Some(LoopReads(s, t).(consumer := HasWall(t))) else None
    case HasWall(wall) => Some(s.(consumer := HasNext(wall, NextTime(s.queue))))
    case HasNext(wall, next) =>
      if !Locks(mode) then Some(s.(consumer := InLock(wall, next)))
      else if s.holder != Nobody then None
      else Some(s.(holder := ByConsumer, consumer := InLock(wall, next)))
    case InLock(wall, next) => Some(s.(consumer := HasR(wall, next, s.r)))
    case HasR(wall, next, r) => Some(s.(consumer := HasRW(wall, next, r, s.w)))
    case HasRW(wall, next, r, w) =>
      Some(s.(holder := if Locks(mode) then Nobody else s.holder, consumer := Scaling(wall, next, r, w)))
    case Scaling(wall, next, r, w) =>
      if s.scaled < w then
        var i := Idx(s.scaled, |s.slots|);
        Some(s.(slots := s.slots[i := s.slots[i].(stamp := Scaled(s.slots[i].stamp.t))], scaled := s.scaled + 1))
      else Some(s.(consumer := Deciding(wall, next, r, w)))
    case Deciding(wall, next, r, w) =>
      var time := s.slots[Idx(r, |s.slots|)].stamp.t;
      if ReadReady(r, w, |s.slots|) && time <= next then
        Some(s.(consumer := if NextTime(s.queue) < time then Storing(r) else Consuming(time, r, w)))
      else if next <= wall then Some(s.(consumer := Ticking))
      else Some(s.(consumer := Top))
    case Consuming(time, r, w) =>
      var p := s.slots[Idx(r, |s.slots|)];
      var more := ReadReady(r + 1, w, |s.slots|) && s.slots[Idx(r + 1, |s.slots|)].stamp == Scaled(time);
      Some(s.(queue := s.queue[p.sv := time], taken := s.taken + [Item(p.sv, p.payload, time)],
              consumer := if more then Consuming(time, r + 1, w) else Storing(r + 1)))
    case Storing(r) => Some(s.(r := r, consumer := Ticking))
    case Ticking =>
      var next := NextTime(s.queue);
      if forall v :: v in after ==> next < after[v] < NEVER
      then Some(s.(now := next, queue := after, consumer := Top))
      else None
  }

  ghost predicate Init(s: State) {
    && |s.slots| > 1 && s.r == s.w == s.scaled == 0 && s.sent == [] && s.taken == []
    && s.holder == Nobody && s.producer == Idle && s.consumer == Top
    && s.loopRead == s.ownRead == s.clock
    && s.now <= s.clock < NEVER && forall v :: v in s.queue ==> s.now < s.queue[v] < NEVER
  }

  ghost predicate StepOf(mode: Mode, s: State, s': State) {
    |s.slots| > 1 &&
    ((exists t, sv, payload :: ProducerStep(mode, s, t, sv, payload) == Some(s')) ||
     (exists t, after :: ConsumerStep(mode, s, t, after) == Some(s')))
  }

  ghost predicate IsRun(mode: Mode, ss: seq<State>) {
    ss != [] && Init(ss[0]) && forall i :: 0 < i < |ss| ==> StepOf(mode, ss[i - 1], ss[i])
  }

  // ---------- the invariant ----------

  ghost predicate Holds(s: State, i: nat)
    requires |s.slots| > 1 && i < |s.sent|
  {
    var x := s.sent[i];
    s.slots[Idx(i, |s.slots|)] == Packet(x.sv, x.payload, if i < s.scaled then Scaled(x.t) else Raw(x.t))
  }

  /** The ring holds the packets sent and not yet given back, each converted once if the cursor has passed it. */
  ghost predicate RingInv(s: State) {
    && |s.slots| > 1 && |s.sent| == s.w && |s.taken| <= s.scaled
    && s.r <= |s.taken| && s.scaled <= s.w && s.w - s.r <= |s.slots| - 1
    && s.taken == s.sent[..|s.taken|]
    && forall i :: s.r <= i < s.w ==> Holds(s, i)
  }

  /** Time stamps increase, and what has not been consumed lies ahead of model time. */
  ghost predicate TimeInv(s: State) {
    && s.now <= s.clock < NEVER
    && s.loopRead <= s.clock && s.ownRead <= s.clock && (s.clock == s.loopRead || s.clock == s.ownRead)
    && (forall i, j :: 0 <= i < j < |s.sent| ==> s.sent[i].t < s.sent[j].t)
    && (forall i :: 0 <= i < |s.sent| ==> s.sent[i].t <= s.clock)
    && (forall i :: |s.taken| <= i < |s.sent| ==> s.now < s.sent[i].t)
    && (forall v :: v in s.queue ==> s.now < s.queue[v] < NEVER)
  }

  /** A time the producer has read but not published is later than all published ones and than `bound`. */
  ghost predicate InFlightAfter(s: State, bound: nat) {
    (s.producer.Stamped? || s.producer.Written?) ==> bound < s.producer.t
  }

  ghost predicate ProducerInv(mode: Mode, s: State)
    requires |s.slots| > 1
  {
    && (!mode.threaded ==> s.producer == Idle && s.holder == Nobody)
    && (s.holder == ByProducer <==>
      s.producer.Locked? || s.producer.Stamped? || s.producer.Written? || s.producer.Published?)
    && InFlightAfter(s, s.now)
    && (s.producer.Stamped? || s.producer.Written? ==>
          s.producer.t <= s.clock && forall i :: 0 <= i < |s.sent| ==> s.sent[i].t < s.producer.t)
    && match s.producer
       case LoadedW(w) => w == s.w
       case LoadedWR(w, r) => w == s.w && r <= s.r && w - r <= |s.slots| - 1
       case Locked(w) => w == s.w && w - s.r < |s.slots| - 1
       case Stamped(w, _) => w == s.w && w - s.r < |s.slots| - 1
       case Written(w, t) => w == s.w && w - s.r < |s.slots| - 1 && s.slots[Idx(w, |s.slots|)].stamp == Raw(t)
       case Early(_) => false
       case _ => true
  }

  /** Everything not covered by the snapshot up to `w` is later than `bound`. */
  ghost predicate LateAfter(s: State, w: nat, bound: nat) {
    (forall i :: w <= i < |s.sent| ==> bound < s.sent[i].t) && InFlightAfter(s, bound)
  }

  ghost predicate ConsumerInv(mode: Mode, s: State)
    requires |s.slots| > 1
  {
    && (mode.threaded ==> (s.holder == ByConsumer <==> s.consumer.InLock? || s.consumer.HasR? || s.consumer.HasRW?))
    && (!s.consumer.Consuming? && !s.consumer.Storing? ==> |s.taken| == s.r)
    && match s.consumer
       case Top => true
       case HasWall(wall) => wall <= s.clock
       case HasNext(wall, next) => wall <= s.clock && next == NextTime(s.queue)
       case InLock(wall, next) => wall <= s.clock && next == NextTime(s.queue)
       case HasR(wall, next, r) => wall <= s.clock && next == NextTime(s.queue) && r == s.r
       case HasRW(wall, next, r, w) =>
         wall <= s.clock && next == NextTime(s.queue) && r == s.r && s.scaled <= w <= s.w && LateAfter(s, w, wall)
       case Scaling(wall, next, r, w) =>
         wall <= s.clock && next == NextTime(s.queue) && r == s.r && s.scaled <= w <= s.w && LateAfter(s, w, wall)
       case Deciding(wall, next, r, w) =>
         wall <= s.clock && next == NextTime(s.queue) && r == s.r && s.scaled == w <= s.w && LateAfter(s, w, wall)
       case Consuming(time, r, w) =>
         && r == |s.taken| < w && w == s.scaled <= s.w == |s.sent| && time == s.sent[r].t && time <= NextTime(s.queue)
       case Storing(r) =>
         && r == |s.taken| && s.queue != map[] && NextTime(s.queue) <= s.clock && LateAfter(s, r, NextTime(s.queue))
       case Ticking =>
         && s.queue != map[] && NextTime(s.queue) <= s.clock && LateAfter(s, s.r, NextTime(s.queue))
  }

  /** A consumed packet has reached its variable by its own time, or is what the coming tick is for. */
  ghost predicate SettledInv(s: State)
    requires |s.taken| <= |s.sent|
  {
    forall i :: 0 <= i < |s.taken| ==>
      || s.sent[i].t <= s.now
      || ((s.consumer.Storing? || s.consumer.Ticking?)
          && s.sent[i].sv in s.queue && s.queue[s.sent[i].sv] == s.sent[i].t == NextTime(s.queue))
  }

  ghost predicate Inv(mode: Mode, s: State) {
    && Careful(mode) && RingInv(s) && TimeInv(s)
    && ProducerInv(mode, s) && ConsumerInv(mode, s) && SettledInv(s)
  }

  /** No fault is possible where the invariant holds. */
  lemma InvIsFaultless(mode: Mode, s: State)
    requires Inv(mode, s)
    ensures !Faulty(s)
  {
    var size := |s.slots|;
    match s.consumer
    case Scaling(wall, next, r, w) =>
      if s.scaled < w { assert Holds(s, s.scaled); }
    case Deciding(wall, next, r, w) =>
      ReadinessIsCounting(r, w, size);
      if r < w { assert Holds(s, r); }
    case Consuming(time, r, w) =>
      assert Holds(s, r);
    case Ticking =>
      var v :| v in s.queue && s.queue[v] == NextTime(s.queue);
    case _ =>
  }

  // ---------- what each step keeps ----------

  lemma InitInv(mode: Mode, s: State)
    requires Careful(mode) && Init(s)
    ensures Inv(mode, s)
  {
  }

  /** Writing behind the last packet leaves every packet in the ring alone. */
  lemma WritingKeepsRing(s: State, p: Packet)
    requires RingInv(s) && s.w - s.r < |s.slots| - 1
    ensures RingInv(s.(slots := s.slots[Idx(s.w, |s.slots|) := p]))
  {
    var s' := s.(slots := s.slots[Idx(s.w, |s.slots|) := p]);
    forall i | s.r <= i < s.w ensures Holds(s', i) {
      assert Holds(s, i);
      SlotsDiffer(i, s.w, |s.slots|);
    }
  }

  /** Publishing the packet written there appends it. */
  lemma PublishingKeepsRing(s: State, x: Item)
    requires RingInv(s) && s.w - s.r < |s.slots| - 1
    requires s.slots[Idx(s.w, |s.slots|)] == Packet(x.sv, x.payload, Raw(x.t))
    ensures RingInv(s.(w := s.w + 1, sent := s.sent + [x]))
  {
    var s' := s.(w := s.w + 1, sent := s.sent + [x]);
    forall i | s.r <= i < s'.w ensures Holds(s', i) {
      if i < s.w {
        assert Holds(s, i);
        assert s'.sent[i] == s.sent[i];
      }
    }
    assert s'.sent[..|s.taken|] == s.sent[..|s.taken|];
  }

  lemma ScalingKeepsRing(s: State)
    requires RingInv(s) && s.scaled < s.w
    ensures s.slots[Idx(s.scaled, |s.slots|)].stamp == Raw(s.sent[s.scaled].t)
    ensures
      var k := Idx(s.scaled, |s.slots|);
      RingInv(s.(scaled := s.scaled + 1, slots := s.slots[k := s.slots[k].(stamp := Scaled(s.slots[k].stamp.t))]))
  {
    var k := Idx(s.scaled, |s.slots|);
    var s' := s.(scaled := s.scaled + 1, slots := s.slots[k := s.slots[k].(stamp := Scaled(s.slots[k].stamp.t))]);
    assert Holds(s, s.scaled);
    forall i | s.r <= i < s.w ensures Holds(s', i) {
      assert Holds(s, i);
      if i < s.scaled { SlotsDiffer(i, s.scaled, |s.slots|); }
      else { SlotsDiffer(s.scaled, i, |s.slots|); }
    }
  }

  lemma RingFrame(s: State, s': State)
    requires RingInv(s) && s'.slots == s.slots && s'.w == s.w && s'.scaled == s.scaled
    requires s'.sent == s.sent && s'.taken == s.taken && (s'.r == s.r || s.r <= s'.r <= |s.taken|)
    ensures RingInv(s')
  {
    forall i | s'.r <= i < s'.w ensures Holds(s', i) { assert Holds(s, i); }
  }

  lemma RingIsCounted(s: State)
    requires RingInv(s)
    ensures |s.slots| > 1 && s.r <= |s.taken| <= s.scaled <= s.w == |s.sent| && s.w - s.r <= |s.slots| - 1
    ensures ReadReady(s.r, s.w, |s.slots|) <==> s.r < s.w
    ensures WriteReady(s.r, s.w, |s.slots|) <==> s.w - s.r < |s.slots| - 1
  {
    ReadinessIsCounting(s.r, s.w, |s.slots|);
  }

  lemma ProducerKeepsRing(mode: Mode, s: State, t: nat, sv: nat, payload: nat)
    requires RingInv(s) && ProducerInv(mode, s) && Careful(mode) && ProducerStep(mode, s, t, sv, payload).Some?
    ensures RingInv(ProducerStep(mode, s, t, sv, payload).value)
  {
    var s' := ProducerStep(mode, s, t, sv, payload).value;
    hide Holds, RingInv;
    match s.producer
    case Idle =>
      if !mode.threaded && s'.w != s.w {
        RingIsCounted(s);
        WritingKeepsRing(s, Packet(sv, payload, Raw(t)));
        PublishingKeepsRing(s.(slots := s'.slots), Item(sv, payload, t));
        RingFrame(s.(slots := s'.slots, w := s.w + 1, sent := s'.sent), s');
      } else {
        RingFrame(s, s');
      }
    case Stamped(w, t) =>
      WritingKeepsRing(s, Packet(sv, payload, Raw(t)));
      RingFrame(s.(slots := s'.slots), s');
    case Written(w, t) =>
      var p := s.slots[Idx(w, |s.slots|)];
      PublishingKeepsRing(s, Item(p.sv, p.payload, t));
      RingFrame(s.(w := w + 1, sent := s'.sent), s');
    case _ => RingFrame(s, s');
  }

  /** What no step of the producer touches. */
  lemma ProducerFrame(mode: Mode, s: State, t: nat, sv: nat, payload: nat)
    requires |s.slots| > 1 && ProducerStep(mode, s, t, sv, payload).Some?
    ensures var s' := ProducerStep(mode, s, t, sv, payload).value;
      && s'.r == s.r && s'.scaled == s.scaled && s'.consumer == s.consumer && s'.now == s.now
      && s'.queue == s.queue && s'.taken == s.taken && |s'.slots| == |s.slots|
      && s.sent <= s'.sent && s.clock <= s'.clock
      && (s.producer != Published ==> (s'.holder == ByConsumer <==> s.holder == ByConsumer))
  {
    hide WriteReady;
  }

  /** What a step of the consumer touches. */
  lemma ConsumerFrame(mode: Mode, s: State, t: nat, after: map<nat, nat>)
    requires |s.slots| > 1 && ConsumerStep(mode, s, t, after).Some?
    ensures var s' := ConsumerStep(mode, s, t, after).value;
      && s'.sent == s.sent && s'.w == s.w && s'.producer == s.producer && |s'.slots| == |s.slots|
      && (!s.consumer.Scaling? || s.scaled >= s.consumer.w ==> s'.slots == s.slots && s'.scaled == s.scaled)
      && (!s.consumer.Consuming? ==> s'.taken == s.taken)
      && (!s.consumer.Consuming? && !s.consumer.Ticking? ==> s'.queue == s.queue)
      && (s'.r == if s.consumer.Storing? then s.consumer.r else s.r)
      && (!s.consumer.Ticking? ==> s'.now == s.now)
      && s'.ownRead == s.ownRead
      && (if s.consumer.Top? then s.clock <= s'.clock == s'.loopRead < NEVER
          else s'.clock == s.clock && s'.loopRead == s.loopRead)
  {
    hide ReadReady, Faulty, NextTime;
  }

  lemma ProducerKeepsTime(mode: Mode, s: State, t: nat, sv: nat, payload: nat)
    requires RingInv(s) && TimeInv(s) && ProducerInv(mode, s) && Careful(mode)
    requires ProducerStep(mode, s, t, sv, payload).Some?
    ensures TimeInv(ProducerStep(mode, s, t, sv, payload).value)
  {
    hide NextTime, Holds;
  }

  /** A reader that has moved on leaves only more room: an old reading of the read index never
      lets the producer write where it may not. */
  lemma StaleIsConservative(oldR: nat, r: nat, w: nat, size: nat)
    requires size > 1 && oldR <= r <= w && w - oldR <= size - 1 && WriteReady(oldR, w, size)
    ensures w - r < size - 1
  {
    ReadinessIsCounting(oldR, w, size);
  }

  lemma ProducerKeepsItself(mode: Mode, s: State, t: nat, sv: nat, payload: nat)
    requires RingInv(s) && TimeInv(s) && ProducerInv(mode, s) && Careful(mode)
    requires ProducerStep(mode, s, t, sv, payload).Some?
    ensures ProducerInv(mode, ProducerStep(mode, s, t, sv, payload).value)
  {
    hide NextTime, Holds;
    var s' := ProducerStep(mode, s, t, sv, payload).value;
    match s.producer
    case LoadedWR(w, r) =>
      if WriteReady(r, w, |s.slots|) { StaleIsConservative(r, s.r, w, |s.slots|); }
    case _ =>
  }

  lemma ProducerKeepsLate(mode: Mode, s: State, t: nat, sv: nat, payload: nat, w: nat, bound: nat)
    requires RingInv(s) && TimeInv(s) && ProducerInv(mode, s) && Careful(mode)
    requires ProducerStep(mode, s, t, sv, payload).Some?
    requires LateAfter(s, w, bound) && bound <= s.clock && w <= |s.sent|
    ensures LateAfter(ProducerStep(mode, s, t, sv, payload).value, w, bound)
  {
    hide Holds, WriteReady, NextTime;
  }

  lemma HolderKept(mode: Mode, s: State, t: nat, sv: nat, payload: nat)
    requires RingInv(s) && ProducerInv(mode, s) && Careful(mode) && ProducerStep(mode, s, t, sv, payload).Some?
    ensures ProducerStep(mode, s, t, sv, payload).value.holder == ByConsumer <==> s.holder == ByConsumer
    ensures |ProducerStep(mode, s, t, sv, payload).value.sent| == ProducerStep(mode, s, t, sv, payload).value.w >= s.w
  {
    hide Holds, WriteReady, Idx, InFlightAfter;
  }

  lemma ProducerKeepsConsumer(mode: Mode, s: State, t: nat, sv: nat, payload: nat)
    requires RingInv(s) && TimeInv(s) && ProducerInv(mode, s) && ConsumerInv(mode, s) && Careful(mode)
    requires ProducerStep(mode, s, t, sv, payload).Some?
    ensures ConsumerInv(mode, ProducerStep(mode, s, t, sv, payload).value)
  {
    RingIsCounted(s);
    ProducerFrame(mode, s, t, sv, payload);
    HolderKept(mode, s, t, sv, payload);
    hide Holds, WriteReady, LateAfter, RingInv, ProducerStep, TimeInv, ProducerInv, NextTime;
    match s.consumer
    case HasRW(wall, _, _, w) => ProducerKeepsLate(mode, s, t, sv, payload, w, wall);
    case Scaling(wall, _, _, w) => ProducerKeepsLate(mode, s, t, sv, payload, w, wall);
    case Deciding(wall, _, _, w) => ProducerKeepsLate(mode, s, t, sv, payload, w, wall);
    case Storing(r) => ProducerKeepsLate(mode, s, t, sv, payload, r, NextTime(s.queue));
    case Ticking => ProducerKeepsLate(mode, s, t, sv, payload, s.r, NextTime(s.queue));
    case _ =>
  }

  lemma ProducerKeepsSettled(mode: Mode, s: State, t: nat, sv: nat, payload: nat)
    requires RingInv(s) && SettledInv(s) && Careful(mode)
    requires ProducerStep(mode, s, t, sv, payload).Some? && |s.taken| <= |s.sent|
    ensures SettledInv(ProducerStep(mode, s, t, sv, payload).value)
  {
    hide Holds, NextTime, WriteReady;
  }

  /** Only one packet is consumed at a time: time stamps differ. */
  lemma ConsumesOne(mode: Mode, s: State)
    requires Inv(mode, s) && s.consumer.Consuming?
    ensures s.consumer.r < |s.sent| && s.slots[Idx(s.consumer.r, |s.slots|)] ==
              Packet(s.sent[s.consumer.r].sv, s.sent[s.consumer.r].payload, Scaled(s.consumer.time))
    ensures s.now < s.consumer.time <= NextTime(s.queue)
    ensures !(ReadReady(s.consumer.r + 1, s.consumer.w, |s.slots|)
              && s.slots[Idx(s.consumer.r + 1, |s.slots|)].stamp == Scaled(s.consumer.time))
  {
    hide NextTime;
    var r, w := s.consumer.r, s.consumer.w;
    assert Holds(s, r);
    if r + 1 < w { assert Holds(s, r + 1); }
  }

  lemma TakingKeepsRing(s: State)
    requires RingInv(s) && |s.taken| < s.scaled
    ensures RingInv(s.(taken := s.taken + [s.sent[|s.taken|]]))
  {
    var s' := s.(taken := s.taken + [s.sent[|s.taken|]]);
    forall i | s.r <= i < s.w ensures Holds(s', i) { assert Holds(s, i); }
  }

  lemma ConsumerKeepsRing(mode: Mode, s: State, t: nat, after: map<nat, nat>)
    requires Inv(mode, s) && ConsumerStep(mode, s, t, after).Some?
    ensures RingInv(ConsumerStep(mode, s, t, after).value)
  {
    var s' := ConsumerStep(mode, s, t, after).value;
    if s.consumer.Consuming? {
      ConsumesOne(mode, s);
      TakingKeepsRing(s);
      hide RingInv;
      RingFrame(s.(taken := s'.taken), s');
    } else if s.consumer.Scaling? && s.scaled < s.consumer.w {
      ScalingKeepsRing(s);
      hide RingInv;
      RingFrame(s.(slots := s'.slots, scaled := s'.scaled), s');
    } else {
      ConsumerFrame(mode, s, t, after);
      RingIsCounted(s);
      hide RingInv, TimeInv, ProducerInv, SettledInv, LateAfter, NextTime, ConsumerStep;
      RingFrame(s, s');
    }
  }

  lemma ConsumingKeepsTime(mode: Mode, s: State, t: nat, after: map<nat, nat>)
    requires Inv(mode, s) && ConsumerStep(mode, s, t, after).Some? && s.consumer.Consuming?
    ensures TimeInv(ConsumerStep(mode, s, t, after).value)
  {
    RingIsCounted(s);
    ConsumesOne(mode, s);
    hide Holds, RingInv, NextTime, ProducerInv, SettledInv, Idx;
  }

  lemma TickingKeepsTime(mode: Mode, s: State, t: nat, after: map<nat, nat>)
    requires Inv(mode, s) && ConsumerStep(mode, s, t, after).Some? && s.consumer.Ticking?
    ensures TimeInv(ConsumerStep(mode, s, t, after).value)
  {
    RingIsCounted(s);
    hide Holds, RingInv, NextTime, ProducerInv, SettledInv, Idx;
  }

  lemma ConsumerKeepsTime(mode: Mode, s: State, t: nat, after: map<nat, nat>)
    requires Inv(mode, s) && ConsumerStep(mode, s, t, after).Some?
    ensures TimeInv(ConsumerStep(mode, s, t, after).value)
  {
    RingIsCounted(s);
    ConsumerFrame(mode, s, t, after);
    hide Holds, RingInv, NextTime, ProducerInv, ConsumerInv, SettledInv, ConsumerStep;
    if s.consumer.Consuming? {
      ConsumingKeepsTime(mode, s, t, after);
    } else if s.consumer.Ticking? {
      TickingKeepsTime(mode, s, t, after);
    }
  }

  lemma ScalingKeepsProducer(mode: Mode, s: State, t: nat, after: map<nat, nat>)
    requires Inv(mode, s) && ConsumerStep(mode, s, t, after).Some? && s.consumer.Scaling?
    ensures ProducerInv(mode, ConsumerStep(mode, s, t, after).value)
  {
    RingIsCounted(s);
    if s.scaled < s.w { SlotsDiffer(s.scaled, s.w, |s.slots|); }
    hide Holds, RingInv, NextTime, ReadReady, Idx, SettledInv, Faulty, TimeInv;
  }

  lemma PollingKeepsProducer(mode: Mode, s: State, t: nat, after: map<nat, nat>)
    requires Inv(mode, s) && ConsumerStep(mode, s, t, after).Some?
    requires s.consumer.Top? || s.consumer.HasWall? || s.consumer.HasNext? || s.consumer.InLock? ||
      s.consumer.HasR? || s.consumer.HasRW?
    ensures ProducerInv(mode, ConsumerStep(mode, s, t, after).value)
  {
    hide Holds, RingInv, NextTime, ReadReady, Idx, SettledInv, Faulty, TimeInv, LateAfter;
  }

  lemma TickingKeepsProducer(mode: Mode, s: State, t: nat, after: map<nat, nat>)
    requires Inv(mode, s) && ConsumerStep(mode, s, t, after).Some? && s.consumer.Ticking?
    ensures ProducerInv(mode, ConsumerStep(mode, s, t, after).value)
  {
    hide Holds, RingInv, NextTime, ReadReady, Idx, SettledInv, Faulty, TimeInv;
  }

  lemma ConsumerKeepsProducer(mode: Mode, s: State, t: nat, after: map<nat, nat>)
    requires Inv(mode, s) && ConsumerStep(mode, s, t, after).Some?
    ensures ProducerInv(mode, ConsumerStep(mode, s, t, after).value)
  {
    RingIsCounted(s);
    hide Holds, RingInv, NextTime, ReadReady, Idx, SettledInv, Faulty, TimeInv;
    if s.consumer.Scaling? {
      ScalingKeepsProducer(mode, s, t, after);
    } else if s.consumer.Ticking? {
      TickingKeepsProducer(mode, s, t, after);
    } else if s.consumer.Deciding? || s.consumer.Consuming? || s.consumer.Storing? {
      hide LateAfter, LoopReads, LoopMayRead;
    } else {
      PollingKeepsProducer(mode, s, t, after);
    }
  }

  /** From the top of the loop to the end of the snapshot. */
  lemma PollingKeepsItself(mode: Mode, s: State, t: nat, after: map<nat, nat>)
    requires Inv(mode, s) && ConsumerStep(mode, s, t, after).Some?
    requires s.consumer.Top? || s.consumer.HasWall? || s.consumer.HasNext? || s.consumer.InLock? ||
      s.consumer.HasR? || s.consumer.HasRW?
    ensures ConsumerInv(mode, ConsumerStep(mode, s, t, after).value)
  {
    RingIsCounted(s);
    hide Holds, RingInv, NextTime, ReadReady, Idx, SettledInv;
  }

  lemma ScalingKeepsItself(mode: Mode, s: State, t: nat, after: map<nat, nat>)
    requires Inv(mode, s) && ConsumerStep(mode, s, t, after).Some? && s.consumer.Scaling?
    ensures ConsumerInv(mode, ConsumerStep(mode, s, t, after).value)
  {
    RingIsCounted(s);
    hide Holds, RingInv, NextTime, ReadReady, Idx, SettledInv;
  }

  /** Whatever is decided, all packets left behind are later than the next event. */
  lemma DecidingKeepsItself(mode: Mode, s: State, t: nat, after: map<nat, nat>)
    requires Inv(mode, s) && ConsumerStep(mode, s, t, after).Some? && s.consumer.Deciding?
    ensures ConsumerInv(mode, ConsumerStep(mode, s, t, after).value)
  {
    RingIsCounted(s);
    var r, w := s.consumer.r, s.consumer.w;
    ReadinessIsCounting(r, w, |s.slots|);
    if r < w { assert Holds(s, r); }
    if s.queue == map[] { assert NextTime(s.queue) == NEVER; }
    hide Holds, RingInv, NextTime, ReadReady, Idx, SettledInv;
  }

  /** The scheduled packet is the earliest event now. */
  lemma EarliestIsNext(queue: map<nat, nat>, sv: nat, time: nat)
    requires time <= NextTime(queue)
    ensures NextTime(queue[sv := time]) == time
  {
    var newQueue := queue[sv := time];
    assert sv in newQueue && newQueue[sv] == time;
    var v :| v in newQueue && newQueue[v] == NextTime(newQueue);
    assert v == sv || v in queue;
  }

  lemma ConsumingKeepsItself(mode: Mode, s: State, t: nat, after: map<nat, nat>)
    requires Inv(mode, s) && ConsumerStep(mode, s, t, after).Some? && s.consumer.Consuming?
    ensures ConsumerInv(mode, ConsumerStep(mode, s, t, after).value)
    ensures SettledInv(ConsumerStep(mode, s, t, after).value)
  {
    RingIsCounted(s);
    ConsumesOne(mode, s);
    EarliestIsNext(s.queue, s.sent[s.consumer.r].sv, s.consumer.time);
    hide Holds, RingInv, NextTime, ReadReady, Idx;
  }

  lemma TickingKeepsItself(mode: Mode, s: State, t: nat, after: map<nat, nat>)
    requires Inv(mode, s) && ConsumerStep(mode, s, t, after).Some? && (s.consumer.Storing? || s.consumer.Ticking?)
    ensures ConsumerInv(mode, ConsumerStep(mode, s, t, after).value)
  {
    RingIsCounted(s);
    hide Holds, RingInv, NextTime, ReadReady, Idx, SettledInv;
  }

  lemma ConsumerKeepsItself(mode: Mode, s: State, t: nat, after: map<nat, nat>)
    requires Inv(mode, s) && ConsumerStep(mode, s, t, after).Some?
    ensures ConsumerInv(mode, ConsumerStep(mode, s, t, after).value)
  {
    RingIsCounted(s);
    hide RingInv, TimeInv, ProducerInv, ConsumerInv, SettledInv, ConsumerStep;
    if s.consumer.Scaling? {
      ScalingKeepsItself(mode, s, t, after);
    } else if s.consumer.Deciding? {
      DecidingKeepsItself(mode, s, t, after);
    } else if s.consumer.Consuming? {
      ConsumingKeepsItself(mode, s, t, after);
    } else if s.consumer.Storing? || s.consumer.Ticking? {
      TickingKeepsItself(mode, s, t, after);
    } else {
      PollingKeepsItself(mode, s, t, after);
    }
  }

  lemma ConsumerKeepsSettled(mode: Mode, s: State, t: nat, after: map<nat, nat>)
    requires Inv(mode, s) && ConsumerStep(mode, s, t, after).Some?
    ensures |ConsumerStep(mode, s, t, after).value.taken| <= |ConsumerStep(mode, s, t, after).value.sent|
    ensures SettledInv(ConsumerStep(mode, s, t, after).value)
  {
    RingIsCounted(s);
    if s.consumer.Consuming? {
      ConsumesOne(mode, s);
      hide NextTime, TimeInv, ProducerInv, RingInv, ReadReady, Idx;
      ConsumingKeepsItself(mode, s, t, after);
    } else if s.consumer.Storing? || s.consumer.Ticking? {
      hide NextTime, TimeInv, ProducerInv, RingInv, ReadReady, Idx, LateAfter;
    } else {
      ConsumerFrame(mode, s, t, after);
      hide NextTime, TimeInv, ProducerInv, ConsumerInv, RingInv, ConsumerStep;
    }
  }

  lemma ProducerKeepsInv(mode: Mode, s: State, t: nat, sv: nat, payload: nat)
    requires Inv(mode, s) && ProducerStep(mode, s, t, sv, payload).Some?
    ensures Inv(mode, ProducerStep(mode, s, t, sv, payload).value)
  {
    RingIsCounted(s);
    hide RingInv, TimeInv, ProducerInv, ConsumerInv, SettledInv, ProducerStep;
    ProducerKeepsRing(mode, s, t, sv, payload);
    ProducerKeepsTime(mode, s, t, sv, payload);
    ProducerKeepsItself(mode, s, t, sv, payload);
    ProducerKeepsConsumer(mode, s, t, sv, payload);
    RingIsCounted(ProducerStep(mode, s, t, sv, payload).value);
    ProducerKeepsSettled(mode, s, t, sv, payload);
  }

  lemma ConsumerKeepsInv(mode: Mode, s: State, t: nat, after: map<nat, nat>)
    requires Inv(mode, s) && ConsumerStep(mode, s, t, after).Some?
    ensures Inv(mode, ConsumerStep(mode, s, t, after).value)
  {
    RingIsCounted(s);
    hide RingInv, TimeInv, ProducerInv, ConsumerInv, SettledInv, ConsumerStep;
    ConsumerKeepsRing(mode, s, t, after);
    ConsumerKeepsTime(mode, s, t, after);
    ConsumerKeepsProducer(mode, s, t, after);
    ConsumerKeepsItself(mode, s, t, after);
    ConsumerKeepsSettled(mode, s, t, after);
  }

  lemma StepKeepsInv(mode: Mode, s: State, s': State)
    requires Inv(mode, s) && StepOf(mode, s, s')
    ensures Inv(mode, s')
  {
    hide Inv;
    if t, sv, payload :| ProducerStep(mode, s, t, sv, payload) == Some(s') {
      ProducerKeepsInv(mode, s, t, sv, payload);
    } else {
      var t, after :| ConsumerStep(mode, s, t, after) == Some(s');
      ConsumerKeepsInv(mode, s, t, after);
    }
  }

  // ---------- whole runs ----------

  lemma {:induction false} RunInv(mode: Mode, ss: seq<State>, i: nat)
    requires IsRun(mode, ss) && i < |ss| && Careful(mode)
    ensures Inv(mode, ss[i])
  {
    hide Inv, StepOf, Init;
    if i == 0 {
      InitInv(mode, ss[0]);
    } else {
      RunInv(mode, ss, i - 1);
      StepKeepsInv(mode, ss[i - 1], ss[i]);
    }
  }

  /** In every state of every run: nothing is about to be rejected; a packet being scheduled lies
      after model time and no later than any queued event; what has been taken is what was put in,
      in that order, and no other; the ring holds at most size - 1 packets; and the time stamps put
      in increase, whatever has not been taken yet being still to come in model time. */
  lemma RunIsSafe(mode: Mode, ss: seq<State>, i: nat)
    requires IsRun(mode, ss) && i < |ss| && Careful(mode)
    ensures |ss[i].slots| > 1 && !Faulty(ss[i])
    ensures ss[i].consumer.Consuming? ==>
              ss[i].now < ss[i].consumer.time && forall v :: v in ss[i].queue ==> ss[i].consumer.time <= ss[i].queue[v]
    ensures ss[i].taken <= ss[i].sent && |ss[i].sent| == ss[i].w
    ensures ss[i].r <= |ss[i].taken| <= ss[i].scaled <= ss[i].w <= ss[i].r + |ss[i].slots| - 1
    ensures forall j, k :: 0 <= j < k < |ss[i].sent| ==> ss[i].sent[j].t < ss[i].sent[k].t
    ensures forall j :: |ss[i].taken| <= j < |ss[i].sent| ==> ss[i].now < ss[i].sent[j].t
    ensures forall v :: v in ss[i].queue ==> ss[i].now < ss[i].queue[v]
  {
    RunInv(mode, ss, i);
    InvIsFaultless(mode, ss[i]);
    if ss[i].consumer.Consuming? {
      ConsumesOne(mode, ss[i]);
    }
  }

  /** While the producer has written its packet and not published it, the loop leaves the slot alone. */
  lemma LoopKeepsSlot(mode: Mode, s: State, s': State, w: nat, t: nat)
    requires Inv(mode, s) && s.producer == Written(w, t) && s'.producer == s.producer && StepOf(mode, s, s')
    ensures |s'.slots| == |s.slots| && s'.slots[Idx(w, |s.slots|)] == s.slots[Idx(w, |s.slots|)]
  {
    var t', after :| ConsumerStep(mode, s, t', after) == Some(s');
    if s.scaled < w {
      SlotsDiffer(s.scaled, w, |s.slots|);
    }
    hide NextTime, Holds, TimeInv, SettledInv, Idx;
  }

  lemma InvHasSlots(mode: Mode, s: State)
    requires Inv(mode, s)
    ensures |s.slots| > 1
  {
  }

  lemma StepIn(mode: Mode, ss: seq<State>, i: nat)
    requires IsRun(mode, ss) && 0 < i < |ss|
    ensures StepOf(mode, ss[i - 1], ss[i])
  {
  }

  lemma {:induction false} SlotIsKept(mode: Mode, ss: seq<State>, i: nat, j: nat, w: nat, t: nat)
    requires IsRun(mode, ss) && Careful(mode) && i <= j < |ss|
    requires forall m :: i <= m <= j ==> ss[m].producer == Written(w, t)
    ensures |ss[i].slots| > 1 && |ss[j].slots| == |ss[i].slots|
    ensures ss[j].slots[Idx(w, |ss[j].slots|)] == ss[i].slots[Idx(w, |ss[i].slots|)]
    decreases j
  {
    hide *;
    RunInv(mode, ss, i);
    InvHasSlots(mode, ss[i]);
    if i < j {
      StepIn(mode, ss, j);
      SlotIsKept(mode, ss, i, j - 1, w, t);
      RunInv(mode, ss, j - 1);
      LoopKeepsSlot(mode, ss[j - 1], ss[j], w, t);
    }
  }

  /** What a thread puts in is what is sent: the packet it publishes has the variable, the payload and the
      clock reading it was written with, whatever the loop does in between. */
  lemma PutIsSent(mode: Mode, ss: seq<State>, i: nat, j: nat, w: nat, t: nat, sv: nat, payload: nat)
    requires IsRun(mode, ss) && Careful(mode) && i < j < |ss| - 1
    requires ss[i].producer == Stamped(w, t) && |ss[i].slots| > 1
    requires ProducerStep(mode, ss[i], 0, sv, payload) == Some(ss[i + 1])
    requires forall m :: i < m <= j ==> ss[m].producer == Written(w, t)
    requires ss[j + 1].producer == Published
    ensures ss[j + 1].sent == ss[j].sent + [Item(sv, payload, t)]
  {
    SlotIsKept(mode, ss, i + 1, j, w, t);
    assert StepOf(mode, ss[j], ss[j + 1]);
    hide NextTime, Idx, IsRun;
  }

  /** What a handler puts in is sent at once, with the time it reads. */
  lemma HandledIsSent(mode: Mode, s: State, s': State, t: nat, sv: nat, payload: nat)
    requires !mode.threaded && mode.guarded && |s.slots| > 1 && s.producer == Idle
    requires WriteReady(s.r, s.w, |s.slots|) && ProducerStep(mode, s, t, sv, payload) == Some(s')
    ensures s'.sent == s.sent + [Item(sv, payload, t)] && s'.clock == t && s.clock <= t
    ensures s'.slots[Idx(s.w, |s.slots|)] == Packet(sv, payload, Raw(t)) && s'.w == s.w + 1
  {
  }

  /** Some steps of the loop, one after the other. */
  ghost function LoopSteps(mode: Mode, s: State, n: nat): Option<State>
    requires |s.slots| > 1
    decreases n
  {
    if n == 0 then Some(s)
    else
      var next := ConsumerStep(mode, s, 0, map[]);
      if next == None || |next.value.slots| <= 1 then None else LoopSteps(mode, next.value, n - 1)
  }

  /** The slot of index i holds this packet, converted, and it is for `time`. */
  ghost predicate IsFor(slots: seq<Packet>, i: nat, x: Item, time: nat) {
    |slots| > 0 && slots[Idx(i, |slots|)] == Packet(x.sv, x.payload, Scaled(time)) && x.t == time
  }

  /** There is another packet for `time` behind index i. */
  ghost predicate GoesOn(slots: seq<Packet>, i: nat, w: nat, time: nat) {
    |slots| > 0 && i < w && slots[Idx(i, |slots|)].stamp == Scaled(time)
  }

  /** The loop takes one packet. */
  lemma TakesOne(mode: Mode, s: State, time: nat, r: nat, w: nat, x: Item)
    requires |s.slots| > 1 && s.consumer == Consuming(time, r, w) && s.now <= time
    requires IsFor(s.slots, r, x, time) && r < w && w - r <= |s.slots| - 1
    ensures ConsumerStep(mode, s, 0, map[]) == Some(s.(queue := s.queue[x.sv := time], taken := s.taken + [x],
      consumer := if GoesOn(s.slots, r + 1, w, time) then Consuming(time, r + 1, w) else Storing(r + 1)))
  {
    ReadinessIsCounting(r + 1, w, |s.slots|);
    hide NextTime, Idx;
  }

  lemma ForIsNext(slots: seq<Packet>, i: nat, x: Item, w: nat, time: nat)
    requires IsFor(slots, i, x, time) && i < w
    ensures GoesOn(slots, i, w, time)
  {
  }

  /** The loop takes all packets in a row that have the time of the first one, in their order, each for its
      variable, and none behind them. */
  lemma {:induction false} LoopTakesRow(mode: Mode, s: State, time: nat, r: nat, w: nat, n: nat, row: seq<Item>)
    requires |s.slots| > 1 && s.consumer == Consuming(time, r, w) && s.now <= time
    requires 0 < n == |row| && r + n <= w && w - r <= |s.slots| - 1
    requires forall i :: 0 <= i < n ==> IsFor(s.slots, r + i, row[i], time)
    requires !GoesOn(s.slots, r + n, w, time)
    ensures LoopSteps(mode, s, n).Some?
    ensures var s' := LoopSteps(mode, s, n).value;
      && s'.consumer == Storing(r + n) && s'.taken == s.taken + row
      && s' == s.(consumer := s'.consumer, taken := s'.taken, queue := s'.queue)
    decreases n
  {
    hide IsFor, GoesOn, ConsumerStep;
    assert IsFor(s.slots, r + 0, row[0], time);
    TakesOne(mode, s, time, r, w, row[0]);
    var s1 := ConsumerStep(mode, s, 0, map[]).value;
    assert row == [row[0]] + row[1..];
    if n == 1 {
      assert LoopSteps(mode, s1, 0) == Some(s1);
    } else {
      assert IsFor(s.slots, r + 1, row[1], time);
      ForIsNext(s.slots, r + 1, row[1], w, time);
      forall i | 0 <= i < n - 1 ensures IsFor(s1.slots, r + 1 + i, row[1..][i], time) {
        assert IsFor(s.slots, r + (i + 1), row[i + 1], time);
        assert r + 1 + i == r + (i + 1);
      }
      LoopTakesRow(mode, s1, time, r + 1, w, n - 1, row[1..]);
    }
  }

  /** Model time changes only when the loop ticks, and then to the next event's time. */
  lemma Ticks(mode: Mode, ss: seq<State>, i: nat)
    requires IsRun(mode, ss) && i + 1 < |ss| && Careful(mode)
    ensures ss[i].now <= ss[i + 1].now
    ensures ss[i].now != ss[i + 1].now ==>
              ss[i].consumer.Ticking? && ss[i + 1].now == NextTime(ss[i].queue) && ss[i + 1].sent == ss[i].sent
    ensures ss[i].sent <= ss[i + 1].sent && |ss[i + 1].sent| <= |ss[i].sent| + 1
    ensures ss[i + 1].sent == ss[i].sent || ss[i + 1].taken == ss[i].taken
  {
    assert StepOf(mode, ss[i], ss[i + 1]);
    hide NextTime, Idx;
  }

  /** Whatever was put in stays put in, model time never goes back, and what is put in from now on
      is stamped later than the present model time. */
  lemma {:induction false} Grows(mode: Mode, ss: seq<State>, i: nat, j: nat)
    requires IsRun(mode, ss) && i <= j < |ss| && Careful(mode)
    ensures ss[i].sent <= ss[j].sent && ss[i].now <= ss[j].now
    ensures forall k :: |ss[i].sent| <= k < |ss[j].sent| ==> ss[i].now < ss[j].sent[k].t
  {
    hide StepOf;
    if i < j {
      Grows(mode, ss, i, j - 1);
      Ticks(mode, ss, j - 1);
      RunIsSafe(mode, ss, j - 1);
      RunIsSafe(mode, ss, j);
      hide IsRun, Faulty;
      forall k | |ss[i].sent| <= k < |ss[j].sent| ensures ss[i].now < ss[j].sent[k].t {
        if k < |ss[j - 1].sent| {
          assert ss[j].sent[k] == ss[j - 1].sent[k];
        }
      }
    }
  }

  /** Time advances at every tick, and the packets stamped after the old and up to the new model
      time are stamped with the new model time itself, have been taken, and are pending for exactly
      that tick. No packet is early, late or left behind, now or in the rest of the run. */
  lemma TickIsExact(mode: Mode, ss: seq<State>, i: nat, j: nat, k: nat)
    requires IsRun(mode, ss) && i + 1 < |ss| && Careful(mode) && ss[i].now != ss[i + 1].now
    requires i < j < |ss| && k < |ss[j].sent| && ss[i].now < ss[j].sent[k].t <= ss[i + 1].now
    ensures ss[i].now < ss[i + 1].now == ss[j].sent[k].t
    ensures k < |ss[i].taken| && ss[i].taken[k] == ss[j].sent[k]
    ensures ss[j].sent[k].sv in ss[i].queue && ss[i].queue[ss[j].sent[k].sv] == ss[i + 1].now
  {
    RunInv(mode, ss, i);
    Ticks(mode, ss, i);
    Grows(mode, ss, i, j);
    Grows(mode, ss, i + 1, j);
    hide IsRun, StepOf, NextTime, Holds, ProducerInv;
    assert ss[i].sent[..] <= ss[j].sent;
    if k < |ss[i].sent| {
      assert ss[j].sent[k] == ss[i].sent[k];
    }
  }

  // ---------- why the producer and the clock must be careful ----------

  ghost predicate Reachable(mode: Mode, s: State) {
    exists ss :: IsRun(mode, ss) && ss[|ss| - 1] == s
  }

  lemma Extend(mode: Mode, s: State, s': State)
    requires Reachable(mode, s) && StepOf(mode, s, s')
    ensures Reachable(mode, s')
  {
    var ss :| IsRun(mode, ss) && ss[|ss| - 1] == s;
    hide StepOf, Init;
    var longer := ss + [s'];
    forall i | 0 < i < |longer| ensures StepOf(mode, longer[i - 1], longer[i]) {
      if i < |ss| { assert StepOf(mode, ss[i - 1], ss[i]); }
    }
    assert longer[0] == ss[0] && longer[|longer| - 1] == s';
  }

  lemma Consume(mode: Mode, s: State, t: nat, s': State)
    requires Reachable(mode, s) && |s.slots| > 1 && ConsumerStep(mode, s, t, map[]) == Some(s')
    ensures Reachable(mode, s')
  {
    Extend(mode, s, s');
  }

  lemma Produce(mode: Mode, s: State, t: nat, s': State)
    requires Reachable(mode, s) && |s.slots| > 1 && ProducerStep(mode, s, t, 0, 0) == Some(s')
    ensures Reachable(mode, s')
  {
    Extend(mode, s, s');
  }

  /** The main loop reads the clock. */
  lemma PollClock(mode: Mode, s: State, wall: nat)
    requires Reachable(mode, s) && |s.slots| > 1 && s.consumer == Top && LoopMayRead(mode, s, wall)
    ensures Reachable(mode, LoopReads(s, wall).(consumer := HasWall(wall)))
  {
    Consume(mode, s, wall, LoopReads(s, wall).(consumer := HasWall(wall)));
  }

  /** It goes on to its snapshot of the ring. */
  lemma PollRing(mode: Mode, s: State, wall: nat, next: nat)
    requires Reachable(mode, s) && |s.slots| > 1 && s.consumer == HasWall(wall) && s.holder == Nobody
    requires next == NextTime(s.queue)
    ensures Reachable(mode, s.(consumer := Scaling(wall, next, s.r, s.w)))
  {
    hide Reachable, NextTime;
    var s2 := s.(consumer := HasNext(wall, next));
    Consume(mode, s, 0, s2);
    var s3 := s.(holder := if Locks(mode) then ByConsumer else Nobody, consumer := InLock(wall, next));
    Consume(mode, s2, 0, s3);
    var s4 := s3.(consumer := HasR(wall, next, s.r));
    Consume(mode, s3, 0, s4);
    var s5 := s3.(consumer := HasRW(wall, next, s.r, s.w));
    Consume(mode, s4, 0, s5);
    Consume(mode, s5, 0, s.(consumer := Scaling(wall, next, s.r, s.w)));
  }

  const BLANK := Packet(0, 0, Raw(0))

  lemma TwoSlots(k: nat)
    requires k <= 1
    ensures Idx(k, 2) == k && Idx(k + 1, 2) == 1 - k
  {
  }

  /** A producer that has read the clock and published nothing yet. */
  function InFlight(mode: Mode, t: nat): Producer {
    if mode.threaded then Stamped(0, t) else Early(t)
  }

  /** Without a guard, the producer can stop right after reading the clock. */
  lemma ReadClock(mode: Mode, s: State, t: nat)
    requires !mode.guarded && Reachable(mode, s) && |s.slots| == 2 && s.r == s.w == 0
    requires s.producer == Idle && OwnMayRead(mode, s, t)
    ensures Reachable(mode, OwnReads(s, t).(producer := InFlight(mode, t)))
  {
    TwoSlots(0);
    hide Reachable, Idx;
    if mode.threaded {
      Produce(mode, s, 0, s.(producer := LoadedW(0)));
      Produce(mode, s.(producer := LoadedW(0)), 0, s.(producer := LoadedWR(0, 0)));
      Produce(mode, s.(producer := LoadedWR(0, 0)), 0, s.(producer := Locked(0)));
      Produce(mode, s.(producer := Locked(0)), t, OwnReads(s, t).(producer := InFlight(mode, t)));
    } else {
      Produce(mode, s, t, OwnReads(s, t).(producer := InFlight(mode, t)));
    }
  }

  /** It publishes later. */
  lemma Publish(mode: Mode, s: State, t: nat)
    requires !mode.guarded && Reachable(mode, s) && |s.slots| == 2 && s.r == s.w == 0 && s.producer == InFlight(mode, t)
    ensures exists done :: Reachable(mode, Insert(s.(producer := done), 0, 0, t))
  {
    TwoSlots(0);
    hide Reachable, Idx;
    if mode.threaded {
      var s1 := s.(slots := s.slots[0 := Packet(0, 0, Raw(t))], producer := Written(0, t));
      Produce(mode, s, 0, s1);
      Produce(mode, s1, 0, Insert(s.(producer := Published), 0, 0, t));
    } else {
      Produce(mode, s, 0, Insert(s.(producer := Idle), 0, 0, t));
    }
  }

  lemma PutBehindLock(mode: Mode, s: State, k: nat, t: nat)
    requires mode.guarded && mode.threaded && |s.slots| == 2 && s.r == s.w == k <= 1
    requires s.producer == Idle && s.holder == Nobody && OwnMayRead(mode, s, t)
    requires Reachable(mode, s.(producer := Locked(k), holder := ByProducer))
    ensures Reachable(mode, Insert(OwnReads(s, t), 0, 0, t))
  {
    TwoSlots(k);
    hide Reachable, Idx;
    var s' := Insert(OwnReads(s, t), 0, 0, t);
    var s1 := s.(producer := Locked(k), holder := ByProducer);
    var s2 := OwnReads(s1, t).(producer := Stamped(k, t));
    Produce(mode, s1, t, s2);
    var s3 := s2.(slots := s.slots[k := Packet(0, 0, Raw(t))], producer := Written(k, t));
    Produce(mode, s2, 0, s3);
    var s4 := s'.(holder := ByProducer, producer := Published);
    Produce(mode, s3, 0, s4);
    Produce(mode, s4, 0, s');
  }

  /** With a guard, the producer reads the clock and publishes before the next snapshot. */
  lemma Put(mode: Mode, s: State, k: nat, t: nat)
    requires mode.guarded && Reachable(mode, s) && |s.slots| == 2 && s.r == s.w == k <= 1
    requires s.producer == Idle && s.holder == Nobody && OwnMayRead(mode, s, t)
    ensures Reachable(mode, Insert(OwnReads(s, t), 0, 0, t))
  {
    TwoSlots(k);
    hide Reachable, Idx;
    var s' := Insert(OwnReads(s, t), 0, 0, t);
    if mode.threaded {
      Produce(mode, s, 0, s.(producer := LoadedW(k)));
      Produce(mode, s.(producer := LoadedW(k)), 0, s.(producer := LoadedWR(k, k)));
      Produce(mode, s.(producer := LoadedWR(k, k)), 0, s.(producer := Locked(k), holder := ByProducer));
      PutBehindLock(mode, s, k, t);
    } else {
      Produce(mode, s, t, s');
    }
  }

  const ONE_EVENT: map<nat, nat> := map[0 := 5]

  /** An empty ring and an event for 5, with the loop at its top. */
  const START: State :=
    State(0, 0, 0, [BLANK, BLANK], 0, 0, 0, Nobody, Idle, Top, 0, ONE_EVENT, [], [])

  lemma StartIsReachable(mode: Mode)
    ensures Reachable(mode, START)
  {
    assert IsRun(mode, [START]) && [START][0] == START;
  }

  lemma NextIsFive()
    ensures NextTime(ONE_EVENT) == 5
  {
    assert 0 in ONE_EVENT && ONE_EVENT[0] == 5;
  }

  /** The loop finds an empty ring and decides to tick. */
  lemma ReachesTick(mode: Mode, s: State, wall: nat)
    requires Reachable(mode, s) && s.consumer == Top && LoopMayRead(mode, s, wall) && wall >= 5
    requires |s.slots| == 2 && s.r == s.w == s.scaled == 0 && s.holder == Nobody && s.queue == ONE_EVENT
    ensures Reachable(mode, LoopReads(s, wall).(consumer := Ticking))
  {
    NextIsFive();
    hide Reachable, NextTime, Idx;
    var s' := LoopReads(s, wall);
    PollClock(mode, s, wall);
    PollRing(mode, s'.(consumer := HasWall(wall)), wall, 5);
    Consume(mode, s'.(consumer := Scaling(wall, 5, 0, 0)), 0, s'.(consumer := Deciding(wall, 5, 0, 0)));
    Consume(mode, s'.(consumer := Deciding(wall, 5, 0, 0)), 0, s'.(consumer := Ticking));
  }

  ghost predicate SomeFault(mode: Mode) {
    exists s: State :: |s.slots| > 1 && Reachable(mode, s) && Faulty(s)
  }

  /** The loop takes the packet, which is for 5, and is about to tick. */
  lemma Takes(mode: Mode, s: State, k: nat)
    requires Reachable(mode, s) && |s.slots| == 2 && k <= 1 && s.consumer == Consuming(5, k, k + 1)
    requires s.now <= 5 && s.slots[k] == Packet(0, 0, Scaled(5)) && s.queue[0 := 5] == ONE_EVENT
    ensures Reachable(mode, s.(queue := ONE_EVENT, taken := s.taken + [Item(0, 0, 5)], r := k + 1, consumer := Ticking))
  {
    TwoSlots(k);
    TwoSlots(1 - k);
    hide Reachable, NextTime, Idx;
    var s1 := s.(queue := ONE_EVENT, taken := s.taken + [Item(0, 0, 5)], consumer := Storing(k + 1));
    Consume(mode, s, 0, s1);
    Consume(mode, s1, 0, s1.(r := k + 1, consumer := Ticking));
  }

  lemma ScheduledForThePresent(mode: Mode, s: State, k: nat)
    requires Reachable(mode, s) && |s.slots| == 2 && k <= 1 && s.consumer == Consuming(5, k, k + 1)
    requires s.now == 5 && s.queue == map[] && s.slots[k] == Packet(0, 0, Scaled(5))
    ensures SomeFault(mode)
  {
    assert s.queue[0 := 5] == ONE_EVENT;
    NextIsFive();
    hide Reachable, NextTime;
    Takes(mode, s, k);
    var s' := s.(queue := ONE_EVENT, taken := s.taken + [Item(0, 0, 5)], r := k + 1, consumer := Ticking);
    assert Faulty(s');
  }

  /** A packet stamped at or before model time 5 is in the ring when the loop starts over. */
  lemma TooLate(mode: Mode, s: State, k: nat, t: nat)
    requires Reachable(mode, s) && |s.slots| == 2 && k <= 1 && s.r == s.scaled == k && s.w == k + 1
    requires s.slots[k] == Packet(0, 0, Raw(t)) && t <= 5 && s.clock <= 6
    requires s.consumer == Top && s.holder == Nobody && s.now == 5 && s.queue == map[]
    ensures SomeFault(mode)
  {
    hide Reachable, NextTime, Idx;
    TwoSlots(k);
    assert NextTime(map[]) == NEVER;
    var s0 := LoopReads(s, 7);
    PollClock(mode, s, 7);
    PollRing(mode, s0.(consumer := HasWall(7)), 7, NEVER);
    var s1 := s0.(consumer := Scaling(7, NEVER, k, k + 1));
    var s2 := s1.(slots := s.slots[k := Packet(0, 0, Scaled(t))], scaled := k + 1);
    Consume(mode, s1, 0, s2);
    var s3 := s2.(consumer := Deciding(7, NEVER, k, k + 1));
    Consume(mode, s2, 0, s3);
    var s4 := s2.(consumer := Consuming(t, k, k + 1));
    Consume(mode, s3, 0, s4);
    if t < 5 {
      assert Faulty(s4);
    } else {
      ScheduledForThePresent(mode, s4, k);
    }
  }

  lemma TickTo5(mode: Mode, s: State)
    requires Reachable(mode, s) && |s.slots| == 2 && s.consumer == Ticking && s.queue == ONE_EVENT && s.now == 0
    ensures Reachable(mode, s.(now := 5, queue := map[], consumer := Top))
  {
    NextIsFive();
    hide Reachable, NextTime;
    Consume(mode, s, 0, s.(now := 5, queue := map[], consumer := Top));
  }

  /** If the main loop can take its snapshot between the producer's reading of the clock and its
      publishing of the packet, model time can pass the packet by, with a thread or a handler and
      whatever the clock. */
  lemma UnguardedIsFaulty(mode: Mode)
    requires !mode.guarded
    ensures SomeFault(mode)
  {
    hide Reachable, SomeFault, NextTime;
    StartIsReachable(mode);
    ReadClock(mode, START, 1);
    var s1 := OwnReads(START, 1).(producer := InFlight(mode, 1));
    ReachesTick(mode, s1, 6);
    var s2 := LoopReads(s1, 6).(consumer := Ticking);
    TickTo5(mode, s2);
    var s3 := s2.(now := 5, queue := map[], consumer := Top);
    Publish(mode, s3, 1);
    var done :| Reachable(mode, Insert(s3.(producer := done), 0, 0, 1));
    TwoSlots(0);
    TooLate(mode, Insert(s3.(producer := done), 0, 0, 1), 0, 1);
  }

  /** If the producer can read what the loop has read, a packet can carry the time the loop is about to
      tick to: it is then scheduled for the present, and the tick that follows is rejected, also where a
      lock or a handler that runs to its end guards the producer. */
  lemma ReadingOfLoopIsFaulty(mode: Mode)
    requires mode.guarded && !mode.pastLoop
    ensures SomeFault(mode)
  {
    hide Reachable, SomeFault, NextTime;
    StartIsReachable(mode);
    ReachesTick(mode, START, 5);
    var s1 := LoopReads(START, 5).(consumer := Ticking);
    Put(mode, s1, 0, 5);
    var s2 := Insert(OwnReads(s1, 5), 0, 0, 5);
    TickTo5(mode, s2);
    TwoSlots(0);
    TooLate(mode, s2.(now := 5, queue := map[], consumer := Top), 0, 5);
  }

  /** If the producer can read the same time twice, the second packet can miss the snapshot that has
      the first one: it comes when model time has reached it. */
  lemma OwnReadingIsFaulty(mode: Mode)
    requires mode.guarded && !mode.pastOwn
    ensures SomeFault(mode)
  {
    hide Reachable, SomeFault, NextTime, Idx;
    TwoSlots(0);
    TwoSlots(1);
    NextIsFive();
    StartIsReachable(mode);
    PollClock(mode, START, 4);
    var s1 := LoopReads(START, 4).(consumer := HasWall(4));
    Put(mode, s1, 0, 5);
    var s2 := Insert(OwnReads(s1, 5), 0, 0, 5);
    PollRing(mode, s2, 4, 5);
    var s3 := s2.(consumer := Scaling(4, 5, 0, 1));
    var s4 := s3.(slots := s3.slots[0 := Packet(0, 0, Scaled(5))], scaled := 1);
    Consume(mode, s3, 0, s4);
    Consume(mode, s4, 0, s4.(consumer := Deciding(4, 5, 0, 1)));
    var s5 := s4.(consumer := Consuming(5, 0, 1));
    Consume(mode, s4.(consumer := Deciding(4, 5, 0, 1)), 0, s5);
    assert ONE_EVENT[0 := 5] == ONE_EVENT;
    Takes(mode, s5, 0);
    var s6 := s5.(taken := s5.taken + [Item(0, 0, 5)], r := 1, consumer := Ticking);
    Put(mode, s6, 1, 5);
    var s7 := Insert(OwnReads(s6, 5), 0, 0, 5);
    TickTo5(mode, s7);
    TooLate(mode, s7.(now := 5, queue := map[], consumer := Top), 1, 5);
  }

  /** No reachable state is faulty if and only if no snapshot comes between a producer's reading of the
      clock and its publishing of the packet, and the producer's readings are later than all earlier
      ones, the loop's and its own. It does not matter whether the loop's readings repeat earlier ones,
      nor whether the producer is a thread or a handler. */
  lemma FaultlessIffCareful(mode: Mode)
    ensures (forall s: State :: Reachable(mode, s) && |s.slots| > 1 ==> !Faulty(s))
       <==> mode.guarded && mode.pastLoop && mode.pastOwn
  {
    if Careful(mode) {
      forall s: State | Reachable(mode, s) && |s.slots| > 1 ensures !Faulty(s) {
        var ss :| IsRun(mode, ss) && ss[|ss| - 1] == s;
        hide Faulty, IsRun;
        RunIsSafe(mode, ss, |ss| - 1);
      }
    } else {
      hide Faulty, Reachable;
      if !mode.guarded {
        UnguardedIsFaulty(mode);
      } else if !mode.pastLoop {
        ReadingOfLoopIsFaulty(mode);
      } else {
        OwnReadingIsFaulty(mode);
      }
    }
  }
}
