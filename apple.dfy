/** An apple tree: a Tree tagged APPLE with its own fruit yield, which growing
 *  leaves alone. Tree is not part of this model: what its constructor receives
 *  is kept as constant fields, and what `super.grow()` does to it is left out.
 */
module AppleTree {
  import opened Plants

  class Apple {
    const plantType: PlantType
    const name: string
    const waterRequirement: Int32
    const pestVulnerabilities: seq<string>
    const tempLow: Int32
    const tempHigh: Int32
    const height: Int32       // Tree's initial height
    const growthRate: Int32   // Tree's growth rate
    var fruitYield: Int32

    /** The plant's kind-specific fields as one value. */
    function Payload(): Payload
      reads this
    {
      ApplePayload(height, growthRate, fruitYield)
    }

    function FruitYield(): Int32
      reads this
    {
      fruitYield
    }

    constructor (name: string, waterRequirement: Int32, pestVulnerabilities: seq<string>,
                 tempLow: Int32, tempHigh: Int32, initialHeight: Int32, growthRate: Int32,
                 fruitYield: Int32)
      ensures plantType == APPLE && PayloadType(Payload()) == plantType
      ensures this.name == name && this.waterRequirement == waterRequirement
      ensures this.pestVulnerabilities == pestVulnerabilities
      ensures this.tempLow == tempLow && this.tempHigh == tempHigh
      ensures Payload() == ApplePayload(initialHeight, growthRate, fruitYield)
      ensures FruitYield() == fruitYield
    {
      this.plantType := APPLE;
      this.name := name;
      this.waterRequirement := waterRequirement;
      this.pestVulnerabilities := pestVulnerabilities;
      this.tempLow := tempLow;
      this.tempHigh := tempHigh;
      this.height := initialHeight;
      this.growthRate := growthRate;
      this.fruitYield := fruitYield;
    }

    method SetFruitYield(fruitYield: Int32)
      modifies this
      ensures FruitYield() == fruitYield
    {
      this.fruitYield := fruitYield;
    }

    /** A growth cycle: unlike a cherry's, the yield stays as it was. */
    method Grow()
      modifies this
      ensures FruitYield() == old(FruitYield())
    {
    }
  }
}
