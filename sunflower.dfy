/** A sunflower: a Bush tagged SUNFLOWER with a heliotropic property. Bush is
 *  not part of this model: what its constructor receives is kept as constant
 *  fields, and what `super.grow()` does to it is left out.
 */
module SunflowerBush {
  import opened Plants

  class Sunflower {
    const plantType: PlantType
    const name: string
    const waterRequirement: Int32
    const pestVulnerabilities: seq<string>
    const tempLow: Int32
    const tempHigh: Int32
    const density: Int32             // Bush's initial density
    const trimmingFrequency: Int32   // Bush's trimming period in days
    var heliotropic: string

    /** The plant's kind-specific fields as one value. */
    function Payload(): Payload
      reads this
    {
      SunflowerPayload(density, trimmingFrequency, heliotropic)
    }

    function Heliotropic(): string
      reads this
    {
      heliotropic
    }

    constructor (name: string, waterRequirement: Int32, pestVulnerabilities: seq<string>,
                 tempLow: Int32, tempHigh: Int32, initialDensity: Int32, trimmingFrequency: Int32,
                 heliotropic: string)
      ensures plantType == SUNFLOWER && PayloadType(Payload()) == plantType
      ensures this.name == name && this.waterRequirement == waterRequirement
      ensures this.pestVulnerabilities == pestVulnerabilities
      ensures this.tempLow == tempLow && this.tempHigh == tempHigh
      ensures Payload() == SunflowerPayload(initialDensity, trimmingFrequency, heliotropic)
      ensures Heliotropic() == heliotropic
    {
      this.plantType := SUNFLOWER;
      this.name := name;
      this.waterRequirement := waterRequirement;
      this.pestVulnerabilities := pestVulnerabilities;
      this.tempLow := tempLow;
      this.tempHigh := tempHigh;
      this.density := initialDensity;
      this.trimmingFrequency := trimmingFrequency;
      this.heliotropic := heliotropic;
    }

    method SetHeliotropic(heliotropic: string)
      modifies this
      ensures Heliotropic() == heliotropic
    {
      this.heliotropic := heliotropic;
    }

    /** A growth cycle leaves the heliotropic property as it was. */
    method Grow()
      modifies this
      ensures Heliotropic() == old(Heliotropic())
    {
    }
  }
}
