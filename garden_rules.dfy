/** The fixed rules of the garden simulation that compute a value and change
 *  nothing: the grid, plant naming and defaults, the recovery amount, the
 *  water-decay and auto-watering multipliers (in tenths, exactly), the
 *  water-stress and overwatering damage.
 */
module GardenRules {
  import opened Plants
  import opened Insects
  import PlantFactory

  const GridSize: int := 8

  datatype Cell = Cell(row: int, col: int)

  predicate InGrid(c: Cell) {
    0 <= c.row < GridSize && 0 <= c.col < GridSize
  }

  /** Java's `(int)` cast of a quotient: truncation toward zero, so the
   *  remainder takes the sign of the dividend. The garden's own calls (the
   *  water reduction, and auto-watering of a plant below 50) only divide
   *  non-negative numbers; the negative case is Java's cast in general. */
  function TruncDiv(a: int, b: int): (q: int)
    requires b > 0
    ensures a >= 0 ==> 0 <= q && 0 <= a - q * b < b
    ensures a < 0 ==> q <= 0 && -b < a - q * b <= 0
  {
    if a >= 0 then a / b else -((-a) / b)
  }

  function Max(a: int, b: int): int {
    if a >= b then a else b
  }

  // ---------------------------------------------------------------- planting

  /** Decimal digits of a natural number, most significant first. */
  function NatToString(n: nat): (s: string)
    ensures |s| >= 1
    ensures forall k :: 0 <= k < |s| ==> '0' <= s[k] <= '9'
  {
    if n < 10 then [DigitChar(n)] else NatToString(n / 10) + [DigitChar(n % 10)]
  }

  function DigitChar(d: nat): (ch: char)
    requires d < 10
    ensures '0' <= ch <= '9'
  {
    ['0', '1', '2', '3', '4', '5', '6', '7', '8', '9'][d]
  }

  /** The number a string of decimal digits denotes. */
  function DigitsValue(s: string): nat
    requires forall k :: 0 <= k < |s| ==> '0' <= s[k] <= '9'
  {
    if s == [] then 0 else 10 * DigitsValue(s[..|s| - 1]) + (s[|s| - 1] as int - '0' as int)
  }

  /** Printing a number in decimal and reading it back gives the number. */
  lemma {:induction false} NatToStringRoundTrip(n: nat)
    ensures DigitsValue(NatToString(n)) == n
  {
    if n >= 10 {
      NatToStringRoundTrip(n / 10);
      var s := NatToString(n);
      assert s[..|s| - 1] == NatToString(n / 10);
    }
  }

  /** The name a planted cell's plant gets: its type, a space, and the cell's
   *  index in row-major order. */
  function PlantName(t: PlantType, c: Cell): string
    requires InGrid(c)
  {
    TypeName(t) + " " + NatToString(c.row * GridSize + c.col)
  }

  /** The extra factory argument the garden passes for each type. */
  function AdditionalParam(t: PlantType): (a: PlantFactory.Arg)
    ensures PlantFactory.Accepts(t, a)
  {
    match t
    case APPLE => PlantFactory.IntArg(150)
    case CHERRY => PlantFactory.IntArg(200)
    case LAVENDER => PlantFactory.StringArg("Calming Scent")
    case BAMBOO => PlantFactory.IntArg(20)
    case SUNFLOWER => PlantFactory.StringArg("Heliotropic")
  }

  /** The plant the garden builds for a type at a cell: the factory never
   *  fails on the garden's own arguments, and the plant carries the cell's
   *  name, water requirement 8 for a sunflower and 5 otherwise, the type's
   *  vulnerabilities and the tolerance 15..35. */
  function PlantFor(t: PlantType, c: Cell): (p: Plant)
    requires InGrid(c)
    ensures PlantFactory.CreatePlant(t, PlantName(t, c), if t == SUNFLOWER then 8 else 5,
                                     Vulnerabilities(t), 15, 35, [AdditionalParam(t)]) == Success(p)
    ensures p.plantType == t && p.name == PlantName(t, c)
    ensures p.waterRequirement == (if t == SUNFLOWER then 8 else 5)
    ensures p.pestVulnerabilities == Vulnerabilities(t)
    ensures p.tempLow == 15 && p.tempHigh == 35
    ensures p.health == FullHealth && p.waterLevel == InitialWaterLevel
  {
    PlantFactory.CreatePlant(t, PlantName(t, c), if t == SUNFLOWER then 8 else 5,
                             Vulnerabilities(t), 15, 35, [AdditionalParam(t)]).value
  }

  // ---------------------------------------------------------------- recovery

  /** `calculateRecoveryAmount`: a base by health band, adjusted for the water
   *  level and the temperature, never below 1 after a reduction. */
  function RecoveryAmount(health: int, waterLevel: int, temperature: int): (r: int)
    ensures 1 <= r <= 10
  {
    var base := if health < 30 then 7 else if health < 50 then 5 else 3;
    var watered :=
      if waterLevel >= 60 then base + 2
      else if waterLevel < 40 then Max(1, base - 1)
      else base;
    if 20 <= temperature <= 30 then watered + 1
    else if temperature > 35 || temperature < 10 then Max(1, watered - 1)
    else watered
  }

  /** The recovery tiers: a weaker plant never recovers less than a stronger
   *  one, a wetter plant never less than a drier one, and health 25 with water
   *  65 at 25 degrees recovers 7 + 2 + 1. */
  lemma RecoveryAmountTiers(h1: int, h2: int, w1: int, w2: int, temperature: int)
    ensures h1 <= h2 ==> RecoveryAmount(h1, w1, temperature) >= RecoveryAmount(h2, w1, temperature)
    ensures w1 <= w2 ==> RecoveryAmount(h1, w1, temperature) <= RecoveryAmount(h1, w2, temperature)
    ensures RecoveryAmount(25, 65, 25) == 10
  {
  }

  // ---------------------------------------------------------------- water decay

  /** The water-decay temperature multiplier in tenths (2.5, 2.0, 1.5, 1.2,
   *  1.5, 1.0), tested in the order the garden tests it. */
  function DecayMultiplierTenths(temperature: int): int {
    if temperature > 35 then 25
    else if temperature > 30 then 20
    else if temperature > 25 then 15
    else if temperature < 15 then 12
    else if temperature < 10 then 15
    else 10
  }

  /** Because `< 15` is tested before `< 10`, every temperature below 15 gets
   *  1.2: the 1.5 cold band is never reached. No temperature gets less than
   *  1.0, and only the hot bands get more than 1.2. */
  lemma ColdBandUnreachable(temperature: int)
    ensures temperature < 15 ==> DecayMultiplierTenths(temperature) == 12
    ensures 10 <= DecayMultiplierTenths(temperature) <= 25
    ensures DecayMultiplierTenths(temperature) > 12 <==> temperature > 25
  {
  }

  /** The water a plant loses on one decay tick: its requirement times the
   *  multiplier, truncated. */
  function WaterReduction(waterRequirement: int, temperature: int): (r: int)
    ensures waterRequirement >= 0 ==> waterRequirement <= r <= waterRequirement * 25 / 10
  {
    TruncDiv(waterRequirement * DecayMultiplierTenths(temperature), 10)
  }

  /** Requirement 5 at 40 degrees loses floor(5 x 2.5) = 12; a sunflower at
   *  5 degrees loses floor(8 x 1.2) = 9, not floor(8 x 1.5) = 12. */
  lemma WaterReductionExamples()
    ensures WaterReduction(5, 40) == 12
    ensures WaterReduction(8, 5) == 9
  {
  }

  /** The health a dry plant loses on a decay tick (level below 30): 4, 3 or 2
   *  by dryness, 2 more in extreme heat or cold. */
  function WaterStressImpact(waterLevel: int, temperature: int): (r: int)
    ensures 2 <= r <= 6
    ensures (temperature > 35 || temperature < 10) <==> r >= 4 && (waterLevel >= 20 || r == 6)
  {
    var impact := if waterLevel < 20 then 4 else if waterLevel < 25 then 3 else 2;
    if temperature > 35 || temperature < 10 then impact + 2 else impact
  }

  /** A drier plant never loses less health than a wetter one. */
  lemma WaterStressMonotone(w1: int, w2: int, temperature: int)
    requires w1 <= w2
    ensures WaterStressImpact(w1, temperature) >= WaterStressImpact(w2, temperature)
  {
  }

  // ---------------------------------------------------------------- watering

  /** `calculateTemperatureMultiplier` in tenths (1.5, 1.3, 1.1, 0.9, 0.7, 1.0). */
  function WateringTempTenths(temperature: int): (r: int)
    ensures 9 <= r <= 15
  {
    if temperature > 35 then 15
    else if temperature > 30 then 13
    else if temperature > 25 then 11
    else if temperature < 15 then 9
    else if temperature < 10 then 7
    else 10
  }

  /** `calculateHealthMultiplier` in tenths (1.5, 1.3, 1.0). */
  function HealthTenths(health: int): (r: int)
    ensures 10 <= r <= 15
    ensures r == 10 <==> health >= 50
  {
    if health < 30 then 15 else if health < 50 then 13 else 10
  }

  /** As in the decay multiplier, `< 15` is tested before `< 10`, so every
   *  temperature below 15 gets 0.9 and the 0.7 branch is never reached; only
   *  temperatures above 25 get more than 1.0. */
  lemma WateringColdBandUnreachable(temperature: int)
    ensures temperature < 15 ==> WateringTempTenths(temperature) == 9
    ensures WateringTempTenths(temperature) != 7
    ensures WateringTempTenths(temperature) > 10 <==> temperature > 25
  {
  }

  /** A weaker plant never gets a smaller health multiplier. */
  lemma HealthMultiplierMonotone(h1: int, h2: int)
    requires h1 <= h2
    ensures HealthTenths(h1) >= HealthTenths(h2)
  {
  }

  /** The water one auto-watering tick adds: what is needed to reach 75 times
   *  both multipliers, truncated, and capped at 25. */
  function AutoWaterAmount(waterLevel: int, health: int, temperature: int): (r: int)
    ensures r <= 25
    ensures 0 <= waterLevel < 50 ==> 23 <= r && waterLevel + r < 75
  {
    var needed := 75 - waterLevel;
    var added := TruncDiv(needed * WateringTempTenths(temperature) * HealthTenths(health), 100);
    if added < 25 then added else 25
  }

  /** The health a plant loses when watering takes its level above 80: half
   *  the excess, rounded down. */
  function OverwaterDamage(waterLevel: int): (r: int)
    requires waterLevel > 80
    ensures r >= 0 && 2 * r <= waterLevel - 80 < 2 * r + 2
  {
    (waterLevel - 80) / 2
  }
}
