/** The periodic performance report: the counts gathered in one pass over the
 *  plants, and when the report raises the critical-status alert.
 */
module GardenReport {
  import opened Plants
  import opened GardenRules
  import opened GardenCells
  import opened GardenGrid

  /** What one pass over the plants gathers: the three health bands, the
   *  health and water sums (the averages are these divided by the plant
   *  count), and the number of plants of each type. */
  datatype Census = Census(
    healthy: nat,
    stressed: nat,
    dying: nat,
    healthSum: int,
    waterSum: int,
    distribution: map<PlantType, nat>)

  /** The report's numbers: the day counter, the plant count, the four
   *  statistics counters, the census, the temperature, and whether the
   *  critical-status alert is shown. */
  datatype Report = Report(
    day: nat,
    plantCount: nat,
    planted: nat,
    died: nat,
    census: Census,
    waterAdded: nat,
    pestControls: nat,
    temperature: int,
    alert: bool)

  const EmptyCensus: Census := Census(0, 0, 0, 0, 0, map[])

  /** One plant added to the counts: healthy at 80 or more, stressed from 50,
   *  dying below 50. */
  function Count(t: Census, p: Plant): Census {
    Census(
      if p.health >= 80 then t.healthy + 1 else t.healthy,
      if 50 <= p.health < 80 then t.stressed + 1 else t.stressed,
      if p.health < 50 then t.dying + 1 else t.dying,
      t.healthSum + p.health,
      t.waterSum + p.waterLevel,
      t.distribution[p.plantType := GetOr(Lookup(t.distribution, p.plantType), 0) + 1])
  }

  /** The counts over the plants at the cells of `order`, in that order. */
  function Tally(plants: map<Cell, Slot>, order: seq<Cell>): Census
    requires forall c :: c in order ==> c in plants
    decreases |order|
  {
    if order == [] then EmptyCensus
    else Count(Tally(plants, order[..|order| - 1]), plants[order[|order| - 1]].plant)
  }

  /** The pass `getState` makes over the plants, one counter per band, the
   *  two sums and the per-type statistics. */
  method TallyPlants(plants: map<Cell, Slot>, order: seq<Cell>) returns (t: Census)
    requires forall c :: c in order ==> c in plants
    ensures t == Tally(plants, order)
  {
    var stats: map<PlantType, nat> := map[];
    var healthy, stressed, dying, healthSum, waterSum := 0, 0, 0, 0, 0;
    var k := 0;
    while k < |order|
      invariant 0 <= k <= |order|
      invariant Census(healthy, stressed, dying, healthSum, waterSum, stats) == Tally(plants, order[..k])
    {
      assert order[..k + 1][..k] == order[..k];
      var p := plants[order[k]].plant;
      stats := stats[p.plantType := GetOr(Lookup(stats, p.plantType), 0) + 1];
      if p.health >= 80 {
        healthy := healthy + 1;
      } else if p.health >= 50 {
        stressed := stressed + 1;
      } else {
        dying := dying + 1;
      }
      healthSum := healthSum + p.health;
      waterSum := waterSum + p.waterLevel;
      k := k + 1;
    }
    assert order[..|order|] == order;
    t := Census(healthy, stressed, dying, healthSum, waterSum, stats);
  }

  /** The critical-status test: some plant is dying, or the average health is
   *  below 50; with no plants the average is left at 0. */
  function Alert(t: Census, count: nat): bool {
    t.dying > 0 || (if count > 0 then t.healthSum < 50 * count else true)
  }

  /** The plants counted in a distribution, over the five types. */
  function Total(m: map<PlantType, nat>): nat {
    GetOr(Lookup(m, APPLE), 0) + GetOr(Lookup(m, CHERRY), 0) + GetOr(Lookup(m, LAVENDER), 0)
    + GetOr(Lookup(m, BAMBOO), 0) + GetOr(Lookup(m, SUNFLOWER), 0)
  }

  /** Every plant falls in exactly one health band. */
  lemma {:induction false} TallyBands(plants: map<Cell, Slot>, order: seq<Cell>)
    requires forall c :: c in order ==> c in plants
    ensures Tally(plants, order).healthy + Tally(plants, order).stressed + Tally(plants, order).dying == |order|
    decreases |order|
  {
    if order != [] {
      TallyBands(plants, order[..|order| - 1]);
    }
  }

  /** The distribution counts every plant once, under its own type, and
   *  lists only types that have a plant. */
  lemma {:induction false} TallyDistribution(plants: map<Cell, Slot>, order: seq<Cell>)
    requires forall c :: c in order ==> c in plants
    ensures Total(Tally(plants, order).distribution) == |order|
    ensures forall t :: t in Tally(plants, order).distribution ==> Tally(plants, order).distribution[t] > 0
    decreases |order|
  {
    if order != [] {
      var prior := Tally(plants, order[..|order| - 1]);
      TallyDistribution(plants, order[..|order| - 1]);
      TotalBump(prior.distribution, plants[order[|order| - 1]].plant.plantType);
    }
  }

  /** One more plant of a type adds one to the total. */
  lemma TotalBump(m: map<PlantType, nat>, t: PlantType)
    ensures Total(m[t := GetOr(Lookup(m, t), 0) + 1]) == Total(m) + 1
  {
    match t
    case APPLE =>
    case CHERRY =>
    case LAVENDER =>
    case BAMBOO =>
    case SUNFLOWER =>
  }

  /** Plants that are not dying have health 50 or more, so they contribute at
   *  least 50 each to the health sum. */
  lemma {:induction false} TallyHealthFloor(plants: map<Cell, Slot>, order: seq<Cell>)
    requires forall c :: c in order ==> c in plants && plants[c].plant.health >= 0
    ensures Tally(plants, order).healthSum >= 50 * (Tally(plants, order).healthy + Tally(plants, order).stressed)
    decreases |order|
  {
    if order != [] {
      TallyHealthFloor(plants, order[..|order| - 1]);
    }
  }

  /** The average-health test adds nothing to the dying count: the alert is
   *  raised exactly when some plant is dying or the garden is empty. */
  lemma AlertExactly(plants: map<Cell, Slot>, order: seq<Cell>)
    requires forall c :: c in order ==> c in plants && plants[c].plant.health >= 0
    ensures Alert(Tally(plants, order), |order|) <==> Tally(plants, order).dying > 0 || |order| == 0
  {
    TallyBands(plants, order);
    TallyHealthFloor(plants, order);
  }

  /** A visiting order of a key set is as long as the set is large. */
  lemma {:induction false} EnumeratesCard(order: seq<Cell>, keys: set<Cell>)
    requires Enumerates(order, keys)
    ensures |order| == |keys|
    decreases |order|
  {
    if order == [] {
      assert keys == {};
    } else {
      var prefix := order[..|order| - 1];
      var last := order[|order| - 1];
      assert forall c :: c in prefix ==> c != last;
      assert Enumerates(prefix, keys - {last});
      EnumeratesCard(prefix, keys - {last});
    }
  }
}
