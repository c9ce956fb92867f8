/** The ring indices in a machine word. They count packets and are cut off to the range of the word, while
    the slots and the tests of the ring work modulo its size. */
module InputIndices {
  import opened Prelude
  import opened InputProtocol

  function Cut(i: nat, range: nat): nat
    requires range > 0
  {
    i % range
  }

  /** How many packets the loop over `scaled` converts, with indices cut off. */
  function Polled(scaled: nat, w: nat, range: nat): nat
    requires range > 0
  {
    if Cut(scaled, range) < Cut(w, range) then Cut(w, range) - Cut(scaled, range) else 0
  }

  lemma CutMultiple(i: nat, range: nat, size: nat)
    requires size > 0 && range > 0 && Idx(range, size) == 0
    ensures Idx(Cut(i, range), size) == Idx(i, size)
  {
    Division(i, range);
    Division(range, size);
    Division(i, size);
    Division(i % range, size);
    var q, k, m := i / range, range / size, i % range / size;
    assert q * (k * size) == (q * k) * size;
    assert i == (q * k + m) * size + Idx(Cut(i, range), size) by {
      assert (q * k + m) * size == (q * k) * size + m * size;
    }
    Unique(q * k + m, Idx(Cut(i, range), size), i / size, i % size, size);
  }

  /** Packets keep their slots when indices wrap around if and only if the size divides the range. */
  lemma SlotsSurviveIff(range: nat, size: nat)
    requires size > 0 && range > 0
    ensures (forall i: nat :: Idx(Cut(i, range), size) == Idx(i, size)) <==> Idx(range, size) == 0
  {
    if Idx(range, size) == 0 {
      forall i: nat ensures Idx(Cut(i, range), size) == Idx(i, size) {
        CutMultiple(i, range, size);
      }
    } else {
      Unique(1, 0, range / range, Cut(range, range), range);
      assert Idx(Cut(range, range), size) == 0;
    }
  }

  lemma Below(i: nat, range: nat)
    requires i < range
    ensures Cut(i, range) == i
  {
  }

  /** The conversion of packets does not survive it, whatever the size: it converts what each snapshot
      shows, for all snapshots up to a limit, if and only if the limit is below the range. */
  lemma PollsExactlyIff(limit: nat, range: nat, size: nat)
    requires 1 < size <= range
    ensures (forall scaled: nat, w: nat :: scaled <= w <= limit && w - scaled <= size - 1 ==>
               Polled(scaled, w, range) == w - scaled)
            <==> limit < range
  {
    if limit < range {
      forall scaled: nat, w: nat | scaled <= w <= limit && w - scaled <= size - 1
        ensures Polled(scaled, w, range) == w - scaled
      {
        Below(scaled, range);
        Below(w, range);
      }
    } else {
      Unique(1, 0, range / range, Cut(range, range), range);
      assert Polled(range - 1, range, range) == 0;
    }
  }

  /** In a careful run all indices, also those the producer and the loop hold, are at most `w`; so up to
      the range of the word none is cut off, and the theorems about runs hold of the program. */
  lemma IndicesAreBelow(mode: Mode, ss: seq<State>, i: nat)
    requires IsRun(mode, ss) && i < |ss| && Careful(mode)
    ensures var s := ss[i];
      && s.r <= s.w && s.scaled <= s.w
      && (match s.producer
          case LoadedW(w) => w <= s.w
          case LoadedWR(w, r) => w <= s.w && r <= s.w
          case Locked(w) => w <= s.w
          case Stamped(w, _) => w <= s.w
          case Written(w, _) => w <= s.w
          case _ => true)
      && (match s.consumer
          case HasR(_, _, r) => r <= s.w
          case HasRW(_, _, r, w) => r <= s.w && w <= s.w
          case Scaling(_, _, r, w) => r <= s.w && w <= s.w && w - s.scaled <= |s.slots| - 1
          case Deciding(_, _, r, w) => r <= s.w && w <= s.w
          case Consuming(_, r, w) => r <= s.w && w <= s.w
          case Storing(r) => r <= s.w
          case _ => true)
  {
    RunInv(mode, ss, i);
    hide Holds, NextTime, LateAfter, SettledInv, IsRun;
  }
}
