/** 32-bit sequence numbers against 64-bit absolute ones (libsponge/wrapping_integers.cc). */
module SequenceNumbers {
  import opened Words

  function Wrap(n: nat, isn: u32): u32 {
    To64(isn + n) % TWO32
  }

  /** Counting: 0 is the initial number, and every number has the next one, around the circle of 2^32. */
  lemma WrapCounts(n: nat, isn: u32)
    requires n + 1 + isn < TWO64
    ensures Wrap(0, isn) == isn && Wrap(n + 1, isn) == (if Wrap(n, isn) == 0xffff_ffff then 0 else Wrap(n, isn) + 1)
  {
  }

  /** How far `n` lies past `isn` on the 32-bit circle. */
  function Offset(n: u32, isn: u32): u32 {
    if n >= isn then n - isn else n + TWO32 - isn
  }

  function Distance(a: int, b: int): nat {
    if a >= b then a - b else b - a
  }

  function Unwrap(n: u32, isn: u32, checkpoint: nat): u64 {
    Nearby(Offset(n, isn), checkpoint / TWO32, checkpoint)
  }

  /** The candidates with offset `init`: in the checkpoint's block, one below, and one above. */
  function Nearby(init: u32, power: nat, checkpoint: nat): u64 {
    var abs0 := To64(init + (if power <= 1 then power else power - 1) * TWO32);
    var abs1 := To64(init + power * TWO32);
    var abs2 := To64(init + (power + 1) * TWO32);
    Closest(abs0, abs1, abs2, checkpoint)
  }

  /** The candidate at the smallest distance; an earlier candidate wins a tie. */
  function Closest(abs0: u64, abs1: u64, abs2: u64, checkpoint: nat): u64 {
    var d0 := Distance(abs0, checkpoint);
    var d1 := Distance(abs1, checkpoint);
    var d2 := Distance(abs2, checkpoint);
    if d0 <= d1 then (if d0 <= d2 then abs0 else abs2)
    else (if d1 <= d2 then abs1 else abs2)
  }

  /** The inputs on which `Unwrap` never looks one block down although the value there is the
      nearest: the checkpoint lies in the second block of 2^32 numbers, and the wanted offset is
      more than half a block ahead of the checkpoint's own. */
  predicate MissesBlockBelow(n: u32, isn: u32, checkpoint: nat) {
    checkpoint / TWO32 == 1 && Offset(n, isn) - checkpoint % TWO32 > TWO31
  }

  ghost predicate IsNearest(u: u64, n: u32, isn: u32, checkpoint: u64) {
    forall v: u64 :: Wrap(v, isn) == n ==> Distance(u, checkpoint) <= Distance(v, checkpoint)
  }

  lemma WrapIsOffset(v: u64, isn: u32)
    ensures Offset(Wrap(v, isn), isn) == v % TWO32
  {
  }

  lemma OffsetIsWrap(v: u64, n: u32, isn: u32)
    requires v % TWO32 == Offset(n, isn)
    ensures Wrap(v, isn) == n
  {
  }

  /** The block of 2^32 numbers in which `Unwrap` answers, for offset `o` and checkpoint
      `p * 2^32 + r`. */
  function Block(o: u32, r: u32, p: nat): int {
    if o - r >= TWO31 && p >= 2 then p - 1
    else if r - o > TWO31 && p + 1 < TWO32 then p + 1
    else p
  }

  lemma ClosestBlock(o: u32, r: u32, p: nat)
    requires p < TWO32
    ensures var abs1 := o + p * TWO32;
            var abs0 := if p <= 1 then abs1 else abs1 - TWO32;
            var abs2 := if p + 1 < TWO32 then abs1 + TWO32 else o;
            Closest(abs0, abs1, abs2, p * TWO32 + r) == o + Block(o, r, p) * TWO32
  {
  }

  /** None of the candidates wraps around, except one block above the last. */
  lemma Candidates(o: u32, p: nat)
    requires p < TWO32
    ensures To64(o + p * TWO32) == o + p * TWO32
    ensures To64(o + (if p <= 1 then p else p - 1) * TWO32) == if p <= 1 then o + p * TWO32 else o + p * TWO32 - TWO32
    ensures To64(o + (p + 1) * TWO32) == if p + 1 < TWO32 then o + p * TWO32 + TWO32 else o
  {
  }

  lemma NearbyBlock(o: u32, r: u32, p: nat)
    requires p < TWO32
    ensures Nearby(o, p, p * TWO32 + r) == o + Block(o, r, p) * TWO32
  {
    Candidates(o, p);
    ClosestBlock(o, r, p);
  }

  lemma UnwrapBlock(n: u32, isn: u32, checkpoint: u64)
    ensures var o, r, p := Offset(n, isn), checkpoint % TWO32, checkpoint / TWO32;
            Unwrap(n, isn, checkpoint) == o + Block(o, r, p) * TWO32
  {
    NearbyBlock(Offset(n, isn), checkpoint % TWO32, checkpoint / TWO32);
  }

  /** Exactly halfway between two candidates the lower one is taken, unless that means the block below 2^32 and the
      checkpoint lies in the second block. */
  lemma TieGoesDown(v: nat, isn: u32, checkpoint: u64)
    requires v + TWO31 == checkpoint
    ensures Unwrap(Wrap(v, isn), isn, checkpoint) == if TWO32 <= checkpoint && v < TWO32 then v + TWO32 else v
  {
    WrapIsOffset(v, isn);
    UnwrapBlock(Wrap(v, isn), isn, checkpoint);
    HalfwayBlock(v, checkpoint);
  }

  lemma HalfwayBlock(v: nat, checkpoint: u64)
    requires v + TWO31 == checkpoint
    ensures var o, p := v % TWO32, v / TWO32;
            Block(o, checkpoint % TWO32, checkpoint / TWO32) == if p == 0 && o >= TWO31 then 1 else p
  {
  }

  lemma OffsetInBlock(o: u32, b: int)
    ensures (o + b * TWO32) % TWO32 == o
  {
  }

  /** `Unwrap` inverts `Wrap` from one side: its answer wraps to the number it was given. */
  lemma UnwrapWraps(n: u32, isn: u32, checkpoint: u64)
    ensures Wrap(Unwrap(n, isn, checkpoint), isn) == n
  {
    var o, r, p := Offset(n, isn), checkpoint % TWO32, checkpoint / TWO32;
    UnwrapBlock(n, isn, checkpoint);
    OffsetInBlock(o, Block(o, r, p));
    OffsetIsWrap(Unwrap(n, isn, checkpoint), n, isn);
  }

  /** Every number that wraps to `n` is the offset plus a whole number of blocks. */
  lemma WrapsToBlock(v: u64, n: u32, isn: u32)
    requires Wrap(v, isn) == n
    ensures v == Offset(n, isn) + v / TWO32 * TWO32
  {
  }

  lemma BlockNearest(o: u32, r: u32, p: nat, q: nat)
    requires p < TWO32 && q < TWO32
    requires !(p == 1 && o - r > TWO31)
    ensures Distance(o + Block(o, r, p) * TWO32, p * TWO32 + r) <= Distance(o + q * TWO32, p * TWO32 + r)
  {
  }

  lemma UnwrapNearest(v: u64, n: u32, isn: u32, checkpoint: u64)
    requires Wrap(v, isn) == n
    requires !MissesBlockBelow(n, isn, checkpoint)
    ensures Distance(Unwrap(n, isn, checkpoint), checkpoint) <= Distance(v, checkpoint)
  {
    UnwrapBlock(n, isn, checkpoint);
    WrapsToBlock(v, n, isn);
    BlockNearest(Offset(n, isn), checkpoint % TWO32, checkpoint / TWO32, v / TWO32);
  }

  /** `Unwrap` returns the nearest number exactly when it does not miss the block below. */
  lemma UnwrapNearestIff(n: u32, isn: u32, checkpoint: u64)
    ensures IsNearest(Unwrap(n, isn, checkpoint), n, isn, checkpoint)
       <==> !MissesBlockBelow(n, isn, checkpoint)
  {
    UnwrapBlock(n, isn, checkpoint);
    if MissesBlockBelow(n, isn, checkpoint) {
      var v: u64 := Offset(n, isn);
      OffsetIsWrap(v, n, isn);
      assert Distance(v, checkpoint) < Distance(Unwrap(n, isn, checkpoint), checkpoint);
    } else {
      forall v: u64 | Wrap(v, isn) == n
        ensures Distance(Unwrap(n, isn, checkpoint), checkpoint) <= Distance(v, checkpoint)
      {
        UnwrapNearest(v, n, isn, checkpoint);
      }
    }
  }

  lemma BlockWithinHalf(o: u32, r: u32, p: nat, q: nat)
    requires p < TWO32 && q < TWO32
    requires Distance(o + q * TWO32, p * TWO32 + r) < TWO31
    ensures Block(o, r, p) == q <==> !(p == 1 && q == 0)
  {
  }

  /** Numbers less than 2^31 away from the checkpoint survive the trip over the wire, with one
      exact exception. */
  lemma RoundTripIff(v: u64, isn: u32, checkpoint: u64)
    requires Distance(v, checkpoint) < TWO31
    ensures Unwrap(Wrap(v, isn), isn, checkpoint) == v
       <==> !(TWO32 <= checkpoint < TWO33 && v < TWO32)
  {
    UnwrapBlock(Wrap(v, isn), isn, checkpoint);
    WrapIsOffset(v, isn);
    BlockWithinHalf(v % TWO32, checkpoint % TWO32, checkpoint / TWO32, v / TWO32);
  }

  lemma BlockNotBelow(o: u32, r: u32, p: nat, q: nat)
    requires p < TWO32
    requires o + q * TWO32 <= p * TWO32 + r
    ensures q <= Block(o, r, p)
  {
  }

  /** `Unwrap` never answers below a number that was not ahead of the checkpoint. */
  lemma UnwrapNotBelow(v: nat, isn: u32, checkpoint: u64)
    requires v <= checkpoint
    ensures v <= Unwrap(Wrap(v, isn), isn, checkpoint)
  {
    UnwrapBlock(Wrap(v, isn), isn, checkpoint);
    WrapIsOffset(v, isn);
    BlockNotBelow(v % TWO32, checkpoint % TWO32, checkpoint / TWO32, v / TWO32);
  }

  /** Past 2^32 a number from below is taken for one that is 2^32 higher. */
  lemma UnwrapSkipsUp(v: nat, isn: u32, a: nat)
    requires v < TWO32 <= a < TWO33 && a < v + TWO31
    ensures Unwrap(Wrap(v, isn), isn, a) == v + TWO32
  {
    UnwrapBlock(Wrap(v, isn), isn, a);
    WrapIsOffset(v, isn);
  }
}
