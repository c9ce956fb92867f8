/** Types shared by every part of the model. */
module Prelude {

  /** A 64-bit unsigned time stamp. */
  type Time = t: nat | t <= 0xFFFF_FFFF_FFFF_FFFF

  /** The last of them means "never". */
  const NEVER: Time := 0xFFFF_FFFF_FFFF_FFFF

  /** A packed machine word. */
  type Word = w: nat | w <= 0xFFFF_FFFF

  datatype Option<+T> = None | Some(value: T)

  /** The reasons for which the runtime throws. A throw does not return. */
  datatype Error = InternalError | ExhaustedActQueue | ExhaustedEventQueue | NotReady | InvalidTime

  datatype Outcome = Ok | Throw(error: Error)

  function Pow2(n: nat): (r: nat)
    ensures r >= 1
  {
    if n == 0 then 1 else 2 * Pow2(n - 1)
  }

  lemma {:induction false} PowAdds(a: nat, b: nat)
    ensures Pow2(a + b) == Pow2(a) * Pow2(b)
  {
    if a > 0 {
      PowAdds(a - 1, b);
      assert 2 * (Pow2(a - 1) * Pow2(b)) == (2 * Pow2(a - 1)) * Pow2(b);
    }
  }

  lemma WordSizes()
    ensures Pow2(16) == 0x1_0000 && Pow2(31) == 0x8000_0000 && Pow2(32) == 0x1_0000_0000
    ensures Pow2(64) == 0x1_0000_0000_0000_0000
  {
    assert Pow2(8) == 256;
    assert Pow2(32) == 2 * Pow2(31);
    hide Pow2;
    PowAdds(8, 8);
    PowAdds(16, 16);
    PowAdds(32, 32);
  }

  /** The time stamps are the 64-bit numbers, and "never" is later than all others. */
  lemma NeverIsLast(t: nat)
    ensures t < Pow2(64) <==> t <= NEVER
    ensures t < Pow2(64) && t != NEVER <==> t + 1 < Pow2(64)
  {
    WordSizes();
    hide Pow2;
  }

  lemma SubsetSize<T>(a: set<T>, b: set<T>)
    requires a <= b
    ensures |a| <= |b|
  {
    assert b == a + (b - a);
  }

  /** Among finitely many things one has a least key. */
  lemma {:induction false} SomeLeast<T>(s: set<T>, key: map<T, nat>)
    requires s != {} && s <= key.Keys
    ensures exists x :: x in s && forall y :: y in s ==> key[x] <= key[y]
    decreases s
  {
    var x :| x in s;
    var rest := s - {x};
    assert forall y :: y in s ==> y == x || y in rest;
    if rest != {} {
      SomeLeast(rest, key);
      var y :| y in rest && forall z :: z in rest ==> key[y] <= key[z];
      var least := if key[y] < key[x] then y else x;
      assert least in s && forall z :: z in s ==> key[least] <= key[z];
    }
  }
}
