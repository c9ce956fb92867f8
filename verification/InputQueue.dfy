/** The ring buffer itself and the loops that run over it, as one thread sees them: inserting a
    packet, converting the new time stamps, and handing the packets of one time to the scheduler. */
module InputQueue {
  import opened Prelude
  import opened InputProtocol

  /** The event queue once each packet in turn has been scheduled for its time. */
  function Scheduled(queue: map<nat, nat>, xs: seq<Item>): map<nat, nat> {
    if xs == [] then queue else Scheduled(queue, xs[..|xs| - 1])[xs[|xs| - 1].sv := xs[|xs| - 1].t]
  }

  /** The queue after scheduling the packets from `lo` up to `hi`, which all have one time. */
  ghost predicate Batch(was: map<nat, nat>, queue: map<nat, nat>, sent: seq<Item>, lo: nat, hi: nat) {
    && lo <= hi <= |sent| && queue == Scheduled(was, sent[lo..hi])
    && forall i :: lo <= i < hi ==> sent[i].t == sent[lo].t
  }

  lemma BatchGrows(was: map<nat, nat>, queue: map<nat, nat>, sent: seq<Item>, lo: nat, hi: nat)
    requires Batch(was, queue, sent, lo, hi) && hi < |sent| && sent[hi].t == sent[lo].t
    ensures Batch(was, queue[sent[hi].sv := sent[hi].t], sent, lo, hi + 1)
  {
    assert sent[lo..hi + 1][..hi - lo] == sent[lo..hi];
  }

  /** Scheduling packets of one time, no later than any queued event, makes that time the next one. */
  lemma {:induction false} ScheduledIsNext(queue: map<nat, nat>, xs: seq<Item>, time: nat)
    requires xs != [] && time <= NextTime(queue)
    requires forall i :: 0 <= i < |xs| ==> xs[i].t == time
    ensures NextTime(Scheduled(queue, xs)) == time
    ensures forall i :: 0 <= i < |xs| ==> xs[i].sv in Scheduled(queue, xs) && Scheduled(queue, xs)[xs[i].sv] == time
  {
    hide NextTime;
    var rest, x := xs[..|xs| - 1], xs[|xs| - 1];
    if rest != [] {
      ScheduledIsNext(queue, rest, time);
    }
    EarliestIsNext(Scheduled(queue, rest), x.sv, time);
  }

  /** Other variables keep what they had pending. */
  lemma {:induction false} OthersKeepPending(queue: map<nat, nat>, xs: seq<Item>, v: nat)
    requires forall i :: 0 <= i < |xs| ==> xs[i].sv != v
    ensures v in Scheduled(queue, xs) <==> v in queue
    ensures v in queue ==> Scheduled(queue, xs)[v] == queue[v]
  {
    if xs != [] {
      OthersKeepPending(queue, xs[..|xs| - 1], v);
    }
  }

  class Ring {
    const slots: array<Packet>
    var r: nat
    var w: nat
    var scaled: nat
    var queue: map<nat, nat>
    ghost var sent: seq<Item>
    ghost var taken: seq<Item>

    ghost function View(): State
      reads this, slots
    {
      State(0, 0, 0, slots[..], r, w, scaled, Nobody, Idle, Top, 0, queue, sent, taken)
    }

    ghost predicate Valid()
      reads this, slots
    {
      RingInv(View())
    }

    constructor (size: nat, queue: map<nat, nat>)
      requires size > 1
      ensures Valid() && fresh(slots) && slots.Length == size
      ensures sent == taken == [] && this.queue == queue
    {
      slots := new Packet[size](_ => Packet(0, 0, Raw(0)));
      r, w, scaled, this.queue, sent, taken := 0, 0, 0, queue, [], [];
    }

    /** Appends a packet, or reports that the ring holds all it can. */
    method Insert(sv: nat, payload: nat, t: nat) returns (ok: bool)
      requires Valid()
      modifies this`w, this`sent, slots
      ensures Valid()
      ensures ok <==> old(w - r) < slots.Length - 1
      ensures sent == if ok then old(sent) + [Item(sv, payload, t)] else old(sent)
      ensures w == if ok then old(w) + 1 else old(w)
    {
      ghost var s := View();
      RingIsCounted(s);
      ok := WriteReady(r, w, slots.Length);
      if ok {
        var packet, x := Packet(sv, payload, Raw(t)), Item(sv, payload, t);
        WritingKeepsRing(s, packet);
        PublishingKeepsRing(s.(slots := s.slots[Idx(w, |s.slots|) := packet]), x);
        slots[Idx(w, slots.Length)] := packet;
        assert slots[..] == s.slots[Idx(w, |s.slots|) := packet];
        w, sent := w + 1, sent + [x];
      }
    }

    method Convert()
      requires Valid() && scaled < w
      modifies this`scaled, slots
      ensures Valid() && scaled == old(scaled) + 1
    {
      ghost var s := View();
      ScalingKeepsRing(s);
      var i := Idx(scaled, slots.Length);
      slots[i] := slots[i].(stamp := Scaled(slots[i].stamp.t));
      scaled := scaled + 1;
      assert slots[..] == s.slots[i := s.slots[i].(stamp := Scaled(s.slots[i].stamp.t))];
    }

    /** Takes a snapshot of the indices and converts the time stamps that are new in it. */
    method Poll() returns (r0: nat, w0: nat)
      requires Valid()
      modifies this`scaled, slots
      ensures Valid() && r0 == r && w0 == w == scaled
    {
      r0, w0 := r, w;
      RingIsCounted(View());
      while scaled < w0
        invariant Valid() && scaled <= w0
        decreases w0 - scaled
      {
        Convert();
      }
    }

    /** Whether the snapshot holds packet `i`, and that packet's time. */
    method Readable(i: nat, w0: nat) returns (ready: bool, t: nat)
      requires Valid() && |taken| == i <= w0 == scaled
      ensures ready <==> i < w0
      ensures ready ==> i < |sent| && t == sent[i].t
    {
      RingIsCounted(View());
      ReadinessIsCounting(i, w0, slots.Length);
      ready := ReadReady(i, w0, slots.Length);
      t := slots[Idx(i, slots.Length)].stamp.t;
      if ready {
        assert Holds(View(), i);
      }
    }

    /** Schedules the first packet not taken yet. */
    method Take(i: nat, time: nat)
      requires Valid() && i == |taken| < scaled && i < |sent| && sent[i].t == time
      modifies this`queue, this`taken
      ensures Valid() && taken == old(taken) + [sent[i]]
      ensures queue == old(queue)[sent[i].sv := time]
    {
      RingIsCounted(View());
      assert Holds(View(), i);
      ghost var s := View();
      TakingKeepsRing(s);
      hide RingInv;
      var p := slots[Idx(i, slots.Length)];
      queue := queue[p.sv := time];
      taken := taken + [Item(p.sv, p.payload, time)];
      RingFrame(s.(taken := s.taken + [s.sent[i]]), View());
    }

    /** Schedules the packets that share the first packet's time, unless an event comes before;
        `next` is the time of the next event. */
    method Consume(r0: nat, w0: nat, next: nat) returns (r1: nat)
      requires Valid() && r0 == |taken| && w0 == scaled && next == NextTime(queue)
      modifies this`queue, this`taken
      ensures Valid() && r1 == |taken| && r0 <= r1 <= w0 <= |sent|
      ensures r0 < r1 <==> r0 < w0 && sent[r0].t <= NextTime(old(queue))
      ensures Batch(old(queue), queue, sent, r0, r1)
      ensures r0 < r1 < w0 ==> sent[r1].t != sent[r0].t
    {
      r1 := r0;
      RingIsCounted(View());
      ghost var was := queue;
      assert Batch(was, queue, sent, r0, r0);
      hide RingInv, NextTime, Batch;
      var ready, time := Readable(r0, w0);
      if !ready || next < time {
        return;
      }
      while ready
        invariant Valid() && r0 <= r1 == |taken| <= w0 == scaled <= |sent|
        invariant ready <==> r1 < w0 && sent[r1].t == time
        invariant r0 < w0 && sent[r0].t == time && (!ready ==> r0 < r1)
        invariant Batch(was, queue, sent, r0, r1)
        decreases w0 - r1
      {
        BatchGrows(was, queue, sent, r0, r1);
        Take(r1, time);
        r1 := r1 + 1;
        var t: nat;
        ready, t := Readable(r1, w0);
        ready := ready && t == time;
      }
    }
  }
}
