/** Two defects of the garden controller's loops, each modelled as written
 *  next to the corrected behaviour the rest of the model uses.
 *
 *  1. The manual attack's inner loop keeps hitting the plant it captured
 *     after a hit has killed and removed it, and counts its death again on
 *     every further harmful insect.
 *  2. The manual attack, the manual watering and the water-decay tick remove
 *     a dead plant from the plant map while iterating over that map; the
 *     map's fail-fast iterator then throws on its next step, so the plants
 *     not yet visited are left untouched.
 */
module Findings {
  import opened Plants
  import opened Insects
  import opened GardenRules
  import opened GardenCells
  import opened GardenGrid

  // ---------------------------------------------------------------- the double-counted death

  /** The manual attack's inner loop as written, on the plant it captured:
   *  every harmful insect lowers that plant's health and, whenever the
   *  health is then 0 or below, counts a death. Returns the plant and the
   *  deaths counted. */
  function CapturedPlantAttack(p: Plant, selected: seq<Insect>): (r: (Plant, nat))
    ensures r.1 <= |selected|
    ensures r.0 == p.(health := r.0.health)
    decreases |selected|
  {
    if selected == [] then (p, 0)
    else
      var prior := CapturedPlantAttack(p, selected[..|selected| - 1]);
      var i := selected[|selected| - 1];
      if Damage(i, prior.0.plantType) > 0 then
        var q := DecreaseHealth(prior.0, Damage(i, prior.0.plantType));
        (q, prior.1 + if q.health <= 0 then 1 else 0)
      else prior
  }

  /** Once the captured plant is dead, every further harmful insect counts
   *  its death again. */
  lemma {:induction false} DeadPlantCountedPerHit(p: Plant, selected: seq<Insect>)
    requires p.health <= 0
    ensures CapturedPlantAttack(p, selected).1 == |Harmful(selected, p.plantType)|
    ensures CapturedPlantAttack(p, selected).0.health <= 0
    decreases |selected|
  {
    if selected != [] {
      DeadPlantCountedPerHit(p, selected[..|selected| - 1]);
    }
  }

  /** A cherry at health 15 attacked by an aphid (15) and a grasshopper (10):
   *  the loop as written counts two deaths, the corrected attack one. */
  lemma ManualAttackCountsDeathTwice()
    ensures var p := PlantFor(CHERRY, Cell(0, 0)).(health := 15);
            && CapturedPlantAttack(p, [Aphid, Grasshopper]).1 == 2
            && Kills(CellState(Some(Slot(0, p)), None, false, false, None, {}, None, {}), [Aphid, Grasshopper]) == 1
  {
    var p := PlantFor(CHERRY, Cell(0, 0)).(health := 15);
    var cs := CellState(Some(Slot(0, p)), None, false, false, None, {}, None, {});
    assert [Aphid, Grasshopper][..1] == [Aphid];
    assert [Aphid][..0] == [];
    KilledAtMostOnce(cs, [Aphid, Grasshopper]);
  }

  // ---------------------------------------------------------------- the fail-fast iterator

  /** A loop over the plant map as written: the cells are visited from the
   *  front of the iteration order, and when a visit removes the cell's plant
   *  while cells remain, the next step of the iterator throws. Returns the
   *  grid at that point and whether the iterator threw. */
  function FailFastSweep(g: Grid, order: seq<Cell>, step: Step): (r: (Grid, bool))
    ensures r.1 ==> |order| > 1
    decreases |order|
  {
    if order == [] then (g, false)
    else
      var g1 := StepGrid(g, order[0], step);
      if order[0] in g.plants && order[0] !in g1.plants && |order| > 1 then (g1, true)
      else FailFastSweep(g1, order[1..], step)
  }

  /** Two plants watered with 100: the first (health 10, water 100) dies of
   *  overwatering, so the loop as written throws before the second is
   *  watered, while the corrected sweep waters it. */
  lemma WaterLoopStopsAfterDeath()
    ensures var g := TwoPlantGarden();
            && FailFastSweep(g, [Cell(0, 0), Cell(0, 1)], WaterBy(100)).1
            && CellOf(FailFastSweep(g, [Cell(0, 0), Cell(0, 1)], WaterBy(100)).0, Cell(0, 1)) == CellOf(g, Cell(0, 1))
            && CellOf(Sweep(g, [Cell(0, 0), Cell(0, 1)], WaterBy(100)), Cell(0, 1)).watering
  {
    var g := TwoPlantGarden();
    var order := [Cell(0, 0), Cell(0, 1)];
    WaterGridCell(g, Cell(0, 0), 100, Cell(0, 0));
    WaterGridCell(g, Cell(0, 0), 100, Cell(0, 1));
    SweepCell(g, order, WaterBy(100), Cell(0, 1));
  }

  /** A garden of two cherries: one at health 10 and water 100, one at full
   *  health with no water. */
  function TwoPlantGarden(): (g: Grid)
    ensures Cell(0, 0) in g.plants && Cell(0, 1) in g.plants
  {
    var weak := PlantFor(CHERRY, Cell(0, 0)).(health := 10);
    var dry := PlantFor(CHERRY, Cell(0, 1)).(waterLevel := 0);
    Grid(map[Cell(0, 0) := Slot(0, weak), Cell(0, 1) := Slot(1, dry)], map[], {}, {}, map[], map[], map[], map[])
  }
}
