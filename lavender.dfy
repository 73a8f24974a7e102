/** Lavender: a Bush tagged LAVENDER with a fragrance. Bush is not part of this
 *  model: what its constructor receives is kept as constant fields, and what
 *  `super.grow()` does to it is left out.
 */
module LavenderBush {
  import opened Plants

  class Lavender {
    const plantType: PlantType
    const name: string
    const waterRequirement: Int32
    const pestVulnerabilities: seq<string>
    const tempLow: Int32
    const tempHigh: Int32
    const density: Int32             // Bush's initial density
    const trimmingFrequency: Int32   // Bush's trimming period in days
    var fragrance: string

    /** The plant's kind-specific fields as one value. */
    function Payload(): Payload
      reads this
    {
      LavenderPayload(density, trimmingFrequency, fragrance)
    }

    function Fragrance(): string
      reads this
    {
      fragrance
    }

    constructor (name: string, waterRequirement: Int32, pestVulnerabilities: seq<string>,
                 tempLow: Int32, tempHigh: Int32, initialDensity: Int32, trimmingFrequency: Int32,
                 fragrance: string)
      ensures plantType == LAVENDER && PayloadType(Payload()) == plantType
      ensures this.name == name && this.waterRequirement == waterRequirement
      ensures this.pestVulnerabilities == pestVulnerabilities
      ensures this.tempLow == tempLow && this.tempHigh == tempHigh
      ensures Payload() == LavenderPayload(initialDensity, trimmingFrequency, fragrance)
      ensures Fragrance() == fragrance
    {
      this.plantType := LAVENDER;
      this.name := name;
      this.waterRequirement := waterRequirement;
      this.pestVulnerabilities := pestVulnerabilities;
      this.tempLow := tempLow;
      this.tempHigh := tempHigh;
      this.density := initialDensity;
      this.trimmingFrequency := trimmingFrequency;
      this.fragrance := fragrance;
    }

    method SetFragrance(fragrance: string)
      modifies this
      ensures Fragrance() == fragrance
    {
      this.fragrance := fragrance;
    }

    /** A growth cycle leaves the fragrance as it was. */
    method Grow()
      modifies this
      ensures Fragrance() == old(Fragrance())
    {
    }
  }
}
