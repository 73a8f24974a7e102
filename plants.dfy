/** Plant values shared by the factory, the five plant kinds and the garden.
 *  Plant, Tree, Bush and PlantType are not part of this model; what the garden
 *  needs of them (the type tag, the fixed fields, health and water level and the
 *  four arithmetic operations on them) is stated here.
 */
module Plants {

  datatype Option<T> = None | Some(value: T)

  /** The failure-compatible result of an operation that can throw. */
  datatype Result<T, E> = Success(value: T) | Failure(error: E)

  function GetOr<T>(o: Option<T>, default: T): T {
    match o
    case Some(v) => v
    case None => default
  }

  const IntMin: int := -0x8000_0000
  const IntMax: int := 0x7fff_ffff

  /** A Java `int`. */
  type Int32 = x: int | IntMin <= x <= IntMax

  /** Java's two's-complement wrap-around of an `int` result. */
  function Wrap32(x: int): (r: Int32)
    ensures IntMin <= x <= IntMax ==> r == x
    ensures (r - x) % 0x1_0000_0000 == 0
  {
    (x - IntMin) % 0x1_0000_0000 + IntMin
  }

  /** The closed enumeration of plant kinds. */
  datatype PlantType = APPLE | CHERRY | LAVENDER | BAMBOO | SUNFLOWER

  /** `PlantType.name()`. */
  function TypeName(t: PlantType): string {
    match t
    case APPLE => "APPLE"
    case CHERRY => "CHERRY"
    case LAVENDER => "LAVENDER"
    case BAMBOO => "BAMBOO"
    case SUNFLOWER => "SUNFLOWER"
  }

  /** The kind-specific fields: what Tree or Bush receives from the subclass
   *  constructor, plus the subclass's own field. Bamboo keeps two growth rates:
   *  the one handed to Tree and its own. */
  datatype Payload =
    | ApplePayload(height: Int32, growthRate: Int32, fruitYield: Int32)
    | CherryPayload(height: Int32, growthRate: Int32, fruitYield: Int32)
    | LavenderPayload(density: Int32, trimmingFrequency: Int32, fragrance: string)
    | BambooPayload(height: Int32, treeGrowthRate: Int32, growthRate: Int32)
    | SunflowerPayload(density: Int32, trimmingFrequency: Int32, heliotropic: string)

  /** The type tag that the subclass owning a payload hands to its superclass. */
  function PayloadType(p: Payload): PlantType {
    match p
    case ApplePayload(_, _, _) => APPLE
    case CherryPayload(_, _, _) => CHERRY
    case LavenderPayload(_, _, _) => LAVENDER
    case BambooPayload(_, _, _) => BAMBOO
    case SunflowerPayload(_, _, _) => SUNFLOWER
  }

  datatype Plant = Plant(
    plantType: PlantType,
    name: string,
    waterRequirement: Int32,
    pestVulnerabilities: seq<string>,
    tempLow: Int32,
    tempHigh: Int32,
    health: int,
    waterLevel: int,
    payload: Payload)

  /** Health a plant starts with and cannot exceed. */
  const FullHealth: int := 100

  /** Water level of a new plant (Plant's constructor is not part of this model). */
  const InitialWaterLevel: int := 100

  /** A newly constructed plant: its tag is the payload's, its health full. */
  function NewPlant(name: string, waterRequirement: Int32, pestVulnerabilities: seq<string>,
                    tempLow: Int32, tempHigh: Int32, payload: Payload): (p: Plant)
    ensures p.plantType == PayloadType(payload) && p.payload == payload
    ensures p.health == FullHealth && p.waterLevel == InitialWaterLevel
  {
    Plant(PayloadType(payload), name, waterRequirement, pestVulnerabilities, tempLow, tempHigh,
          FullHealth, InitialWaterLevel, payload)
  }

  /** `decreaseHealth`: health falls by the amount, never below 0. */
  function DecreaseHealth(p: Plant, amount: int): (q: Plant)
    requires amount >= 0
    ensures q == p.(health := q.health)
    ensures 0 <= p.health ==> 0 <= q.health <= p.health
    ensures q.health <= 0 <==> p.health <= amount
    ensures p.health >= amount ==> q.health == p.health - amount
  {
    p.(health := if p.health - amount < 0 then 0 else p.health - amount)
  }

  /** `increaseHealth`: health rises by the amount, never above full health. */
  function IncreaseHealth(p: Plant, amount: int): (q: Plant)
    requires amount >= 0
    ensures q == p.(health := q.health)
    ensures p.health <= FullHealth ==> p.health <= q.health <= FullHealth
    ensures p.health + amount <= FullHealth ==> q.health == p.health + amount
  {
    p.(health := if p.health + amount > FullHealth then FullHealth else p.health + amount)
  }

  /** `water`: the level rises by the amount, with no upper bound. */
  function Water(p: Plant, amount: int): (q: Plant)
    ensures q == p.(waterLevel := q.waterLevel)
    ensures q.waterLevel - p.waterLevel == amount
    ensures 0 <= amount ==> p.waterLevel <= q.waterLevel
  {
    p.(waterLevel := p.waterLevel + amount)
  }

  /** `decreaseWaterLevel`: the level falls by the amount, never below 0. */
  function DecreaseWaterLevel(p: Plant, amount: int): (q: Plant)
    ensures q == p.(waterLevel := q.waterLevel)
    ensures 0 <= amount && 0 <= p.waterLevel ==> 0 <= q.waterLevel <= p.waterLevel
    ensures p.waterLevel >= amount ==> q.waterLevel == p.waterLevel - amount
  {
    p.(waterLevel := if p.waterLevel - amount < 0 then 0 else p.waterLevel - amount)
  }
}
