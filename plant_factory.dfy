/** The plant factory: a validating switch from a plant type and the
 *  `Object...` extra arguments to a tagged plant with the kind's fixed
 *  constants, or an IllegalArgumentException.
 */
module PlantFactory {
  import opened Plants

  /** One element of the extra arguments, by its runtime class. */
  datatype Arg = IntArg(n: Int32) | StringArg(s: string) | OtherArg

  /** The IllegalArgumentException the factory throws, by cause. */
  datatype FactoryError =
    | MissingParameter(plantType: PlantType)   // no extra argument at all
    | InvalidParameter(plantType: PlantType)   // the first one has the wrong class

  /** Apple, Cherry and Bamboo read an Integer; Lavender and Sunflower a String. */
  predicate ExpectsInteger(t: PlantType) {
    t == APPLE || t == CHERRY || t == BAMBOO
  }

  /** Whether the first extra argument has the class the kind casts it to. */
  predicate Accepts(t: PlantType, a: Arg) {
    if ExpectsInteger(t) then a.IntArg? else a.StringArg?
  }

  function CreatePlant(t: PlantType, name: string, waterRequirement: Int32,
                       pestVulnerabilities: seq<string>, tempLow: Int32, tempHigh: Int32,
                       additionalParams: seq<Arg>): (r: Result<Plant, FactoryError>)
    ensures |additionalParams| == 0 ==> r == Failure(MissingParameter(t))
    ensures |additionalParams| > 0 && !Accepts(t, additionalParams[0]) ==> r == Failure(InvalidParameter(t))
    ensures r.Success? <==> |additionalParams| > 0 && Accepts(t, additionalParams[0])
    ensures r.Success? ==>
      && r.value.plantType == t && PayloadType(r.value.payload) == t
      && r.value.name == name && r.value.waterRequirement == waterRequirement
      && r.value.pestVulnerabilities == pestVulnerabilities
      && r.value.tempLow == tempLow && r.value.tempHigh == tempHigh
      && r.value.health == FullHealth && r.value.waterLevel == InitialWaterLevel
  {
    if |additionalParams| < 1 then Failure(MissingParameter(t))
    else
      var a := additionalParams[0];
      match t
      case APPLE =>
        if !a.IntArg? then Failure(InvalidParameter(APPLE))
        else Success(NewPlant(name, waterRequirement, pestVulnerabilities, tempLow, tempHigh,
                              ApplePayload(200, 12, a.n)))
      case CHERRY =>
        if !a.IntArg? then Failure(InvalidParameter(CHERRY))
        else Success(NewPlant(name, waterRequirement, pestVulnerabilities, tempLow, tempHigh,
                              CherryPayload(180, 10, a.n)))
      case LAVENDER =>
        if !a.StringArg? then Failure(InvalidParameter(LAVENDER))
        else Success(NewPlant(name, waterRequirement, pestVulnerabilities, tempLow, tempHigh,
                              LavenderPayload(20, 30, a.s)))
      case BAMBOO =>
        if !a.IntArg? then Failure(InvalidParameter(BAMBOO))
        else Success(NewPlant(name, waterRequirement, pestVulnerabilities, tempLow, tempHigh,
                              BambooPayload(250, a.n, a.n)))
      case SUNFLOWER =>
        if !a.StringArg? then Failure(InvalidParameter(SUNFLOWER))
        else Success(NewPlant(name, waterRequirement, pestVulnerabilities, tempLow, tempHigh,
                              SunflowerPayload(60, 30, a.s)))
  }

  /** The fixed constants of each kind, and where the accepted argument goes:
   *  Apple 200 cm / 12 cm a day, Cherry 180 / 10, Lavender density 20 trimmed
   *  every 30 days, Bamboo 250 cm growing at the argument's rate (both copies),
   *  Sunflower density 60 trimmed every 30 days. */
  lemma FixedConstants(t: PlantType, name: string, waterRequirement: Int32,
                       pestVulnerabilities: seq<string>, tempLow: Int32, tempHigh: Int32,
                       additionalParams: seq<Arg>)
    requires |additionalParams| > 0 && Accepts(t, additionalParams[0])
    ensures var p := CreatePlant(t, name, waterRequirement, pestVulnerabilities, tempLow, tempHigh,
                                 additionalParams).value.payload;
            var a := additionalParams[0];
            && (t == APPLE ==> p == ApplePayload(200, 12, a.n))
            && (t == CHERRY ==> p == CherryPayload(180, 10, a.n))
            && (t == LAVENDER ==> p == LavenderPayload(20, 30, a.s))
            && (t == BAMBOO ==> p == BambooPayload(250, a.n, a.n))
            && (t == SUNFLOWER ==> p == SunflowerPayload(60, 30, a.s))
  {
  }

  /** Only the first extra argument is read: what follows it never matters. */
  lemma OnlyFirstArgumentRead(t: PlantType, name: string, waterRequirement: Int32,
                              pestVulnerabilities: seq<string>, tempLow: Int32, tempHigh: Int32,
                              params1: seq<Arg>, params2: seq<Arg>)
    requires |params1| > 0 && |params2| > 0 && params1[0] == params2[0]
    ensures CreatePlant(t, name, waterRequirement, pestVulnerabilities, tempLow, tempHigh, params1)
         == CreatePlant(t, name, waterRequirement, pestVulnerabilities, tempLow, tempHigh, params2)
  {
  }
}
