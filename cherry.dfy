/** A cherry tree: a Tree tagged CHERRY with its own fruit yield, which grows
 *  by 15 on every growth cycle. Tree is not part of this model: what its
 *  constructor receives is kept as constant fields, and what `super.grow()`
 *  does to it is left out.
 */
module CherryTree {
  import opened Plants

  /** One growth cycle's effect on the yield, in Java `int` arithmetic. */
  function GrowYield(y: Int32): Int32 {
    Wrap32(y + 15)
  }

  /** The yield after n growth cycles. */
  function GrowYieldTimes(y: Int32, n: nat): Int32 {
    if n == 0 then y else GrowYield(GrowYieldTimes(y, n - 1))
  }

  /** n growth cycles add 15n to the yield (modulo 2^32, as Java's `+=` on an
   *  `int` does), and exactly 15n while that stays within an `int`. */
  lemma {:induction false} GrowYieldTimesAdds(y: Int32, n: nat)
    ensures GrowYieldTimes(y, n) == Wrap32(y + 15 * n)
    ensures y + 15 * n <= IntMax ==> GrowYieldTimes(y, n) == y + 15 * n
  {
    if n > 0 {
      GrowYieldTimesAdds(y, n - 1);
      var prev := GrowYieldTimes(y, n - 1);
      assert (prev - (y + 15 * (n - 1))) % 0x1_0000_0000 == 0;
      assert Wrap32(prev + 15) == Wrap32(y + 15 * n) by {
        WrapCongruent(prev + 15, y + 15 * n);
      }
    }
  }

  /** Two numbers that differ by a multiple of 2^32 wrap to the same `int`. */
  lemma WrapCongruent(a: int, b: int)
    requires (a - b) % 0x1_0000_0000 == 0
    ensures Wrap32(a) == Wrap32(b)
  {
    var k := (a - b) / 0x1_0000_0000;
    assert a == b + k * 0x1_0000_0000;
  }

  class Cherry {
    const plantType: PlantType
    const name: string
    const waterRequirement: Int32
    const pestVulnerabilities: seq<string>
    const tempLow: Int32
    const tempHigh: Int32
    const height: Int32       // Tree's initial height
    const growthRate: Int32   // Tree's growth rate
    var fruitYield: Int32

    /** The plant's kind-specific fields as one value. */
    function Payload(): Payload
      reads this
    {
      CherryPayload(height, growthRate, fruitYield)
    }

    function FruitYield(): Int32
      reads this
    {
      fruitYield
    }

    constructor (name: string, waterRequirement: Int32, pestVulnerabilities: seq<string>,
                 tempLow: Int32, tempHigh: Int32, initialHeight: Int32, growthRate: Int32,
                 fruitYield: Int32)
      ensures plantType == CHERRY && PayloadType(Payload()) == plantType
      ensures this.name == name && this.waterRequirement == waterRequirement
      ensures this.pestVulnerabilities == pestVulnerabilities
      ensures this.tempLow == tempLow && this.tempHigh == tempHigh
      ensures Payload() == CherryPayload(initialHeight, growthRate, fruitYield)
      ensures FruitYield() == fruitYield
    {
      this.plantType := CHERRY;
      this.name := name;
      this.waterRequirement := waterRequirement;
      this.pestVulnerabilities := pestVulnerabilities;
      this.tempLow := tempLow;
      this.tempHigh := tempHigh;
      this.height := initialHeight;
      this.growthRate := growthRate;
      this.fruitYield := fruitYield;
    }

    method SetFruitYield(fruitYield: Int32)
      modifies this
      ensures FruitYield() == fruitYield
    {
      this.fruitYield := fruitYield;
    }

    /** One growth cycle: the yield rises by 15. */
    method Grow()
      modifies this
      ensures FruitYield() == GrowYield(old(FruitYield()))
    {
      fruitYield := Wrap32(fruitYield + 15);
    }
  }
}
