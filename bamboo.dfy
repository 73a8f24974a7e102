/** Bamboo: a Tree tagged BAMBOO that keeps its own copy of the growth rate
 *  next to the one handed to Tree. The setter changes only its own copy.
 *  Tree is not part of this model: what its constructor receives is kept as
 *  constant fields, and what `super.grow()` does to it is left out.
 */
module BambooTree {
  import opened Plants

  class Bamboo {
    const plantType: PlantType
    const name: string
    const waterRequirement: Int32
    const pestVulnerabilities: seq<string>
    const tempLow: Int32
    const tempHigh: Int32
    const height: Int32           // Tree's initial height
    const treeGrowthRate: Int32   // the growth rate handed to Tree
    var growthRate: Int32         // Bamboo's own copy

    /** The plant's kind-specific fields as one value. */
    function Payload(): Payload
      reads this
    {
      BambooPayload(height, treeGrowthRate, growthRate)
    }

    function GrowthRate(): Int32
      reads this
    {
      growthRate
    }

    constructor (name: string, waterRequirement: Int32, pestVulnerabilities: seq<string>,
                 tempLow: Int32, tempHigh: Int32, initialHeight: Int32, growthRate: Int32)
      ensures plantType == BAMBOO && PayloadType(Payload()) == plantType
      ensures this.name == name && this.waterRequirement == waterRequirement
      ensures this.pestVulnerabilities == pestVulnerabilities
      ensures this.tempLow == tempLow && this.tempHigh == tempHigh
      ensures Payload() == BambooPayload(initialHeight, growthRate, growthRate)
      ensures GrowthRate() == treeGrowthRate == growthRate
    {
      this.plantType := BAMBOO;
      this.name := name;
      this.waterRequirement := waterRequirement;
      this.pestVulnerabilities := pestVulnerabilities;
      this.tempLow := tempLow;
      this.tempHigh := tempHigh;
      this.height := initialHeight;
      this.treeGrowthRate := growthRate;
      this.growthRate := growthRate;
    }

    /** Sets Bamboo's own growth rate; Tree's copy keeps the constructor's value. */
    method SetGrowthRate(growthRate: Int32)
      modifies this
      ensures GrowthRate() == growthRate
      ensures Payload() == BambooPayload(old(Payload()).height, old(Payload()).treeGrowthRate, growthRate)
    {
      this.growthRate := growthRate;
    }

    /** A growth cycle leaves Bamboo's own growth rate as it was. */
    method Grow()
      modifies this
      ensures GrowthRate() == old(GrowthRate())
    {
    }
  }
}
