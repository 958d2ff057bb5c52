/** One lock bit per stripe or chunk (utils/bitset_locker.hpp). */
module BitsetLocker {

  /** Bit `pos` exists and is set. */
  ghost predicate Held(bits: seq<bool>, pos: nat) {
    pos < |bits| && bits[pos]
  }

  class Locker {
    var bits: seq<bool>

    constructor ()
      ensures bits == []
    {
      bits := [];
    }

    /** Make room for at least `n` bits; new ones are free, old ones keep their state. */
    method Extend(n: nat)
      modifies this
      ensures |bits| == if n > |old(bits)| then n else |old(bits)|
      ensures old(bits) <= bits
      ensures forall pos: nat :: Held(bits, pos) <==> Held(old(bits), pos)
    {
      if n > |bits| {
        bits := bits + seq(n - |bits|, _ => false);
      }
    }

    /** Takes the lock if it is free; nobody else's bit changes. */
    method TryLock(pos: nat) returns (taken: bool)
      requires pos < |bits|
      modifies this
      ensures taken <==> !Held(old(bits), pos)
      ensures |bits| == |old(bits)|
      ensures forall p: nat :: Held(bits, p) <==> Held(old(bits), p) || p == pos
    {
      taken := !bits[pos];
      bits := bits[pos := true];
    }

    method Unlock(pos: nat)
      requires Held(bits, pos)
      modifies this
      ensures |bits| == |old(bits)|
      ensures forall p: nat :: Held(bits, p) <==> Held(old(bits), p) && p != pos
    {
      bits := bits[pos := false];
    }
  }
}
