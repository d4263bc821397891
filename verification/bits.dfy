/** Parallel-bus arithmetic shared by both decoders: pin levels as the host
    delivers them, powers of two, and the little-endian value of a bus. */
module Bits {

  /** The level the host reports for an optional channel that is not wired. */
  const Unassigned: int := 0xFF

  /** One sampled pin: logic 0, logic 1, or the unassigned marker. */
  type PinValue = v: int | v == 0 || v == 1 || v == Unassigned

  /** Every line of the bus carries a logic level (0 or 1). */
  predicate IsBits(bus: seq<int>) {
    forall i :: 0 <= i < |bus| ==> bus[i] == 0 || bus[i] == 1
  }

  /** A bus with no unassigned line carries only logic levels. */
  lemma AssignedAreBits(bus: seq<PinValue>)
    requires Unassigned !in bus
    ensures IsBits(bus)
  {
    forall i | 0 <= i < |bus| ensures bus[i] == 0 || bus[i] == 1 {
      assert bus[i] in bus;
    }
  }

  function Pow2(k: nat): (r: nat)
    ensures r >= 1
  {
    if k == 0 then 1 else 2 * Pow2(k - 1)
  }

  /** The reference value of a bus, index 0 least significant:
      the sum of bus[i] * 2^i. */
  function WeightedSum(bus: seq<int>): int {
    if |bus| == 0 then 0
    else WeightedSum(bus[..|bus| - 1]) + bus[|bus| - 1] * Pow2(|bus| - 1)
  }

  /** Peeling the least significant line instead of the most significant one
      gives the same value: WeightedSum(b) == b[0] + 2 * WeightedSum(b[1..]). */
  lemma {:induction false} WeightedSumLsbFirst(bus: seq<int>)
    requires |bus| > 0
    ensures WeightedSum(bus) == bus[0] + 2 * WeightedSum(bus[1..])
  {
    var n := |bus|;
    if n == 1 {
      assert bus[..0] == [];
      assert bus[1..] == [];
    } else {
      var init := bus[..n - 1];
      WeightedSumLsbFirst(init);
      assert init[1..] == bus[1..][..n - 2];
      assert bus[1..][n - 2] == bus[n - 1];
      assert Pow2(n - 1) == 2 * Pow2(n - 2);
      calc {
        WeightedSum(bus);
        WeightedSum(init) + bus[n - 1] * Pow2(n - 1);
        init[0] + 2 * WeightedSum(init[1..]) + bus[n - 1] * (2 * Pow2(n - 2));
        bus[0] + 2 * (WeightedSum(bus[1..][..n - 2]) + bus[1..][n - 2] * Pow2(n - 2));
        bus[0] + 2 * WeightedSum(bus[1..]);
      }
    }
  }

  /** A bus of n logic levels has a value in [0, 2^n). */
  lemma {:induction false} WeightedSumBounds(bus: seq<int>)
    requires IsBits(bus)
    ensures 0 <= WeightedSum(bus) < Pow2(|bus|)
  {
    if |bus| > 0 {
      var n := |bus|;
      var init := bus[..n - 1];
      assert IsBits(init) by {
        forall i | 0 <= i < |init| ensures init[i] == 0 || init[i] == 1 {
          assert init[i] == bus[i];
        }
      }
      WeightedSumBounds(init);
      assert bus[n - 1] == 0 || bus[n - 1] == 1;
      if bus[n - 1] == 0 {
        assert WeightedSum(bus) == WeightedSum(init);
      } else {
        assert WeightedSum(bus) == WeightedSum(init) + Pow2(n - 1);
      }
    }
  }

  /** The constants the decoders rely on. */
  lemma Pow2Constants()
    ensures Pow2(8) == 256 && Pow2(16) == 65536
  {
    assert Pow2(4) == 16;
    assert Pow2(8) == 256;
  }
}
