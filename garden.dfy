/** The garden simulation controller: the 8x8 grid's maps, the toolbar's
 *  plant-type selection, the temperature, the day counter and the statistics
 *  counters, with every operation the controller performs on them.
 *
 *  Timer and thread firings are operations of their own (a water-decay tick,
 *  a firing of a watering or recovery task, the firing that takes a symbol
 *  off a cell, a day tick, the random attack, the automatic pest control);
 *  random choices are parameters. A loop over a map's keys takes the order
 *  it visits them in as a parameter, and is specified through
 *  `GardenGrid.Sweep`, whose effect on each cell does not depend on that
 *  order.
 */
module Garden {
  import opened Plants
  import opened Insects
  import opened GardenRules
  import opened GardenCells
  import opened GardenGrid
  import opened GardenReport
  import PlantFactory

  /** Which of the three messages a click on a grid cell logs. */
  datatype PlantOutcome = Planted | Occupied | NoTypeSelected

  const InitialTemperature: int := 25
  const PerformanceCheckInterval: nat := 24

  class Garden {
    var plants: map<Cell, Slot>
    var activeInsects: map<Cell, seq<Insect>>
    var watering: set<Cell>
    var pestControl: set<Cell>
    var wateringTasks: map<Cell, WateringTask>
    var liveWatering: map<Cell, set<WateringTask>>
    var recoveryTasks: map<Cell, RecoveryTask>
    var liveRecovery: map<Cell, set<RecoveryTask>>
    var plantStats: map<PlantType, nat>
    var selectedType: Option<PlantType>
    var temperature: int
    var currentDay: int
    var daysElapsed: nat
    var totalPlanted: nat
    var totalDied: nat
    var totalWaterAdded: nat
    var totalPestControls: nat

    /** The per-cell maps as one value. */
    function Maps(): Grid
      reads this`plants, this`activeInsects, this`watering, this`pestControl,
            this`wateringTasks, this`liveWatering, this`recoveryTasks, this`liveRecovery
    {
      Grid(plants, activeInsects, watering, pestControl, wateringTasks, liveWatering, recoveryTasks, liveRecovery)
    }

    function CellAt(c: Cell): CellState
      reads this`plants, this`activeInsects, this`watering, this`pestControl,
            this`wateringTasks, this`liveWatering, this`recoveryTasks, this`liveRecovery
    {
      CellOf(Maps(), c)
    }

    /** The controller's invariant: every cell sound and no dead plant left
     *  standing, the temperature within the spinner's range, and the day
     *  label one ahead of the elapsed-day counter. */
    ghost predicate Valid()
      reads this`plants, this`activeInsects, this`watering, this`pestControl,
            this`wateringTasks, this`liveWatering, this`recoveryTasks, this`liveRecovery,
            this`totalPlanted, this`temperature, this`currentDay, this`daysElapsed
    {
      && CellsOk(Maps(), totalPlanted) && AllAlive(Maps())
      && -50 <= temperature <= 50
      && currentDay == daysElapsed + 1
    }

    constructor()
      ensures Valid()
      ensures Maps() == Grid(map[], map[], {}, {}, map[], map[], map[], map[])
      ensures plantStats == map[] && selectedType == None
      ensures temperature == InitialTemperature && currentDay == 1 && daysElapsed == 0
      ensures totalPlanted == 0 && totalDied == 0 && totalWaterAdded == 0 && totalPestControls == 0
    {
      plants, activeInsects, watering, pestControl := map[], map[], {}, {};
      wateringTasks, liveWatering, recoveryTasks, liveRecovery := map[], map[], map[], map[];
      plantStats, selectedType := map[], None;
      temperature, currentDay, daysElapsed := InitialTemperature, 1, 0;
      totalPlanted, totalDied, totalWaterAdded, totalPestControls := 0, 0, 0, 0;
    }

    /** The toolbar toggle: a type is selected, or the selection cleared. */
    method SelectPlantType(t: Option<PlantType>)
      modifies this`selectedType
      ensures selectedType == t
    {
      selectedType := t;
    }

    /** The temperature spinner, which ranges over -50..50. */
    method SetTemperature(t: int)
      requires Valid() && -50 <= t <= 50
      modifies this`temperature
      ensures temperature == t && Valid()
    {
      temperature := t;
    }

    // -------------------------------------------------------------- planting

    /** `createPlant`: counts the planting, then builds the type's plant with
     *  the garden's arguments through the factory. */
    method CreatePlant(t: PlantType, c: Cell) returns (p: Plant)
      requires InGrid(c)
      modifies this`totalPlanted
      ensures totalPlanted == old(totalPlanted) + 1
      ensures p == PlantFor(t, c)
    {
      totalPlanted := totalPlanted + 1;
      var r := PlantFactory.CreatePlant(t, PlantName(t, c), if t == SUNFLOWER then 8 else 5,
                                        Vulnerabilities(t), 15, 35, [AdditionalParam(t)]);
      p := r.value;
    }

    /** A click on a grid cell: with a type selected and the cell empty, a new
     *  plant of the type is planted there under the next planting number;
     *  otherwise nothing changes, and the message says whether the cell was
     *  occupied or no type was selected. */
    method PlantAt(c: Cell) returns (outcome: PlantOutcome)
      requires Valid() && InGrid(c)
      modifies this`plants, this`totalPlanted
      ensures outcome == (if selectedType.Some? && c !in old(plants) then Planted
                          else if c in old(plants) then Occupied
                          else NoTypeSelected)
      ensures outcome == Planted ==>
                && Maps() == PlantGrid(old(Maps()), c, Slot(old(totalPlanted), PlantFor(selectedType.value, c)))
                && totalPlanted == old(totalPlanted) + 1
      ensures outcome != Planted ==> Maps() == old(Maps()) && totalPlanted == old(totalPlanted)
      ensures Valid()
    {
      if selectedType.Some? && c !in plants {
        ghost var g := Maps();
        var id := totalPlanted;
        var p := CreatePlant(selectedType.value, c);
        plants := plants[c := Slot(id, p)];
        PlantGridOk(g, c, Slot(id, p), id);
        outcome := Planted;
      } else if c in plants {
        outcome := Occupied;
      } else {
        outcome := NoTypeSelected;
      }
    }

    /** The context menu's remove: a planted cell is cleared from the plant,
     *  insect, watering and pest-control maps; no death is counted. */
    method Remove(c: Cell) returns (removed: bool)
      requires Valid()
      modifies this`plants, this`activeInsects, this`watering, this`pestControl
      ensures removed == (c in old(plants))
      ensures Maps() == if removed then ClearGrid(old(Maps()), c) else old(Maps())
      ensures Valid()
    {
      removed := c in plants;
      if removed {
        ghost var g := Maps();
        plants := plants - {c};
        activeInsects := activeInsects - {c};
        watering := watering - {c};
        pestControl := pestControl - {c};
        ClearGridOk(g, c, totalPlanted);
      }
    }

    // -------------------------------------------------------------- death

    /** `checkAndHandlePlantDeath`: a plant at health 0 or below is counted as
     *  died and cleared from the four maps. */
    method CheckAndHandleDeath(c: Cell) returns (died: bool)
      modifies this`plants, this`activeInsects, this`watering, this`pestControl, this`totalDied
      ensures died == Dead(old(CellAt(c)))
      ensures Maps() == DeathGrid(old(Maps()), c)
      ensures totalDied == old(totalDied) + (if died then 1 else 0)
    {
      died := c in plants && plants[c].plant.health <= 0;
      if died {
        totalDied := totalDied + 1;
        plants := plants - {c};
        activeInsects := activeInsects - {c};
        watering := watering - {c};
        pestControl := pestControl - {c};
      }
    }
    // -------------------------------------------------------------- insects

    /** An insect's damage applied to the plant at `c`, and the insect added
     *  to the cell's list (created if absent). */
    method DamagePlant(c: Cell, i: Insect)
      requires c in plants
      modifies this`plants, this`activeInsects
      ensures Maps() == DamageGrid(old(Maps()), c, i)
    {
      var s := plants[c];
      plants := plants[c := s.(plant := DecreaseHealth(s.plant, Damage(i, s.plant.plantType)))];
      activeInsects := activeInsects[c := GetOr(Lookup(activeInsects, c), []) + [i]];
    }

    /** One insect attacking the plant at `c`: a plant it harms loses the
     *  damage, the insect joins the cell's list, and a killed plant is counted
     *  and removed. The severity is how the random attack logs the hit. */
    method InsectHit(c: Cell, i: Insect) returns (severity: Option<Severity>)
      requires Valid()
      modifies this`plants, this`activeInsects, this`watering, this`pestControl, this`totalDied
      ensures Maps() == HitGrid(old(Maps()), c, i)
      ensures totalDied == old(totalDied) + Lost(old(CellAt(c)), CellAt(c))
      ensures severity == if HitDamage(old(CellAt(c)), i) > 0 then Some(HitSeverity(old(CellAt(c)), i)) else None
      ensures Valid()
    {
      ghost var g := Maps();
      HitGridSteps(g, c, i);
      HitGridOk(g, c, i, totalPlanted);
      if c in plants && Damage(i, plants[c].plant.plantType) > 0 {
        var damage := Damage(i, plants[c].plant.plantType);
        severity := if damage > 15 || DecreaseHealth(plants[c].plant, damage).health < 30 then Some(Severe) else Some(Ordinary);
        DamagePlant(c, i);
        var _ := CheckAndHandleDeath(c);
      } else {
        severity := None;
      }
    }

    /** The random attack: with no plants nothing happens; otherwise one
     *  insect hits each of the chosen targets (distinct planted cells) in
     *  turn, and automatic pest control is scheduled. */
    method RandomInsectAttack(i: Insect, targets: seq<Cell>) returns (pestControlScheduled: bool)
      requires Valid() && NoDup(targets) && forall c :: c in targets ==> c in plants
      modifies this`plants, this`activeInsects, this`watering, this`pestControl, this`totalDied
      ensures pestControlScheduled == (|old(plants)| > 0)
      ensures Maps() == if pestControlScheduled then Sweep(old(Maps()), targets, Attack([i])) else old(Maps())
      ensures totalDied == old(totalDied) + if pestControlScheduled then Deaths(old(Maps()), targets, Attack([i])) else 0
      ensures Valid()
    {
      if |plants| == 0 {
        return false;
      }
      ghost var g := Maps();
      var k := 0;
      while k < |targets|
        invariant 0 <= k <= |targets|
        invariant Valid()
        invariant Maps() == Sweep(g, targets[..k], Attack([i]))
        invariant totalDied == old(totalDied) + Deaths(g, targets[..k], Attack([i]))
      {
        ghost var mid := Maps();
        HitGridOk(mid, targets[k], i, totalPlanted);
        var _ := InsectHit(targets[k], i);
        SweepAdvance(g, targets, k, Attack([i]), mid, Maps());
        k := k + 1;
      }
      assert targets[..|targets|] == targets;
      return true;
    }

    /** The selected insects attacking the plant at `c` in order, each hit
     *  handled as in `InsectHit`; the plant's death is counted once. */
    method AttackCell(c: Cell, selected: seq<Insect>)
      requires Valid()
      modifies this`plants, this`activeInsects, this`watering, this`pestControl, this`totalDied
      ensures Maps() == AttackGrid(old(Maps()), c, selected)
      ensures totalDied == old(totalDied) + Lost(old(CellAt(c)), CellAt(c))
      ensures Valid()
    {
      ghost var g := Maps();
      var j := 0;
      while j < |selected|
        invariant 0 <= j <= |selected|
        invariant Valid()
        invariant Maps() == AttackGrid(g, c, selected[..j])
        invariant totalDied == old(totalDied) + Lost(CellOf(g, c), CellAt(c))
        invariant CellOf(g, c).slot.None? ==> CellAt(c) == CellOf(g, c)
      {
        AttackNext(g, old(totalDied), c, selected, j);
        j := j + 1;
      }
      assert selected[..|selected|] == selected;
    }

    /** One hit of the manual attack on `c`: the attack extends by the next
     *  selected insect, and the plant's death, if this hit kills it, is
     *  counted once from the starting count `before`. */
    method AttackNext(ghost g: Grid, ghost before: nat, c: Cell, selected: seq<Insect>, j: nat)
      requires Valid() && j < |selected|
      requires Maps() == AttackGrid(g, c, selected[..j])
      requires totalDied == before + Lost(CellOf(g, c), CellAt(c))
      requires CellOf(g, c).slot.None? ==> CellAt(c) == CellOf(g, c)
      modifies this`plants, this`activeInsects, this`watering, this`pestControl, this`totalDied
      ensures Maps() == AttackGrid(g, c, selected[..j + 1])
      ensures totalDied == before + Lost(CellOf(g, c), CellAt(c))
      ensures CellOf(g, c).slot.None? ==> CellAt(c) == CellOf(g, c)
      ensures Valid()
    {
      assert selected[..j + 1][..j] == selected[..j];
      HitGridCell(Maps(), c, selected[j], c);
      var _ := InsectHit(c, selected[j]);
    }

    /** The manual attack: with no insect selected nothing happens; otherwise
     *  every plant is attacked by every selected insect. */
    method ManualInsectAttack(selected: seq<Insect>, order: seq<Cell>)
      requires Valid() && Enumerates(order, plants.Keys)
      modifies this`plants, this`activeInsects, this`watering, this`pestControl, this`totalDied
      ensures Maps() == if |selected| > 0 then Sweep(old(Maps()), order, Attack(selected)) else old(Maps())
      ensures totalDied == old(totalDied) + if |selected| > 0 then Deaths(old(Maps()), order, Attack(selected)) else 0
      ensures Valid()
    {
      if |selected| == 0 {
        return;
      }
      ghost var g := Maps();
      var k := 0;
      while k < |order|
        invariant 0 <= k <= |order|
        invariant Valid()
        invariant Maps() == Sweep(g, order[..k], Attack(selected))
        invariant totalDied == old(totalDied) + Deaths(g, order[..k], Attack(selected))
      {
        ghost var mid := Maps();
        AttackCell(order[k], selected);
        SweepAdvance(g, order, k, Attack(selected), mid, Maps());
        k := k + 1;
      }
      assert order[..|order|] == order;
    }
    // -------------------------------------------------------------- pest control

    /** `startHealthRecovery`: a damaged plant gets a new recovery task. */
    method StartHealthRecovery(c: Cell)
      modifies this`recoveryTasks, this`liveRecovery
      ensures Maps() == RecoveryGrid(old(Maps()), c)
    {
      if c !in plants || plants[c].plant.health >= FullHealth {
        return;
      }
      var t := RecoveryTask(c, plants[c].id, NextRecoverySerial(Lookup(recoveryTasks, c)));
      recoveryTasks := recoveryTasks[c := t];
      liveRecovery := liveRecovery[c := LookupSet(liveRecovery, c) + {t}];
    }

    /** Automatic pest control of one cell's insect list. */
    method AutoPestControlAt(c: Cell)
      requires Valid()
      modifies this`activeInsects, this`pestControl, this`recoveryTasks, this`liveRecovery
      ensures Maps() == AutoPestGrid(old(Maps()), c)
      ensures Valid()
    {
      ghost var g := Maps();
      StepGridOk(g, c, AutoPest, totalPlanted);
      if c in activeInsects && |activeInsects[c]| > 0 {
        activeInsects := activeInsects[c := []];
        pestControl := pestControl + {c};
        StartHealthRecovery(c);
      }
    }

    /** The automatic pest control that follows a random attack: every
     *  non-empty insect list is emptied. */
    method AutomaticPestControl(order: seq<Cell>)
      requires Valid() && Enumerates(order, activeInsects.Keys)
      modifies this`activeInsects, this`pestControl, this`recoveryTasks, this`liveRecovery
      ensures Maps() == Sweep(old(Maps()), order, AutoPest)
      ensures Valid()
    {
      ghost var g := Maps();
      var k := 0;
      while k < |order|
        invariant 0 <= k <= |order|
        invariant Valid()
        invariant Maps() == Sweep(g, order[..k], AutoPest)
      {
        SweepNext(g, order, k, AutoPest);
        AutoPestControlAt(order[k]);
        k := k + 1;
      }
      assert order[..|order|] == order;
    }

    /** The insects of a list that are among the selected ones, in order. */
    method PickSelected(insects: seq<Insect>, selected: seq<Insect>) returns (removed: seq<Insect>)
      ensures removed == Picked(insects, selected)
    {
      removed := [];
      var k := 0;
      while k < |insects|
        invariant 0 <= k <= |insects|
        invariant removed == Picked(insects[..k], selected)
      {
        assert insects[..k + 1][..k] == insects[..k];
        if insects[k] in selected {
          removed := removed + [insects[k]];
        }
        k := k + 1;
      }
      assert insects[..|insects|] == insects;
    }

    /** Manual pest control of one cell's insect list. */
    method ManualPestControlAt(c: Cell, selected: seq<Insect>)
      requires Valid()
      modifies this`activeInsects, this`pestControl, this`recoveryTasks, this`liveRecovery
      ensures Maps() == ManualPestGrid(old(Maps()), c, selected)
      ensures Valid()
    {
      StepGridOk(Maps(), c, ManualPest(selected), totalPlanted);
      if c in activeInsects && |activeInsects[c]| > 0 {
        RemovePests(c, selected);
      }
    }

    /** The selected insects taken off a non-empty list; when any were there,
     *  the pest-control symbol is shown and health recovery starts. */
    method RemovePests(c: Cell, selected: seq<Insect>)
      requires c in activeInsects && |activeInsects[c]| > 0
      modifies this`activeInsects, this`pestControl, this`recoveryTasks, this`liveRecovery
      ensures Maps() == ManualPestGrid(old(Maps()), c, selected)
    {
      var list := activeInsects[c];
      var removed := PickSelected(list, selected);
      activeInsects := activeInsects[c := Without(list, removed)];
      if |removed| > 0 {
        pestControl := pestControl + {c};
        StartHealthRecovery(c);
      }
    }

    /** The pest-control dialog: with nothing selected only a warning;
     *  otherwise the application is counted and the selected insects are
     *  removed from every cell's list. */
    method ManualPestControl(selected: seq<Insect>, order: seq<Cell>)
      requires Valid() && Enumerates(order, activeInsects.Keys)
      modifies this`activeInsects, this`pestControl, this`recoveryTasks, this`liveRecovery, this`totalPestControls
      ensures totalPestControls == old(totalPestControls) + if |selected| > 0 then 1 else 0
      ensures Maps() == if |selected| > 0 then Sweep(old(Maps()), order, ManualPest(selected)) else old(Maps())
      ensures Valid()
    {
      if |selected| == 0 {
        return;
      }
      totalPestControls := totalPestControls + 1;
      RemoveSelectedEverywhere(selected, order);
    }

    /** Every cell's list rid of the selected insects, in the order given. */
    method RemoveSelectedEverywhere(selected: seq<Insect>, order: seq<Cell>)
      requires Valid() && Enumerates(order, activeInsects.Keys)
      modifies this`activeInsects, this`pestControl, this`recoveryTasks, this`liveRecovery
      ensures Maps() == Sweep(old(Maps()), order, ManualPest(selected))
      ensures Valid()
    {
      ghost var g := Maps();
      var k := 0;
      while k < |order|
        invariant 0 <= k <= |order|
        invariant Valid()
        invariant Maps() == Sweep(g, order[..k], ManualPest(selected))
      {
        SweepNext(g, order, k, ManualPest(selected));
        ManualPestControlAt(order[k], selected);
        k := k + 1;
      }
      assert order[..|order|] == order;
    }

    /** The firing that takes the pest-control symbol off a cell. */
    method ClearPestControlFlag(c: Cell)
      requires Valid()
      modifies this`pestControl
      ensures Maps() == PestControlOffGrid(old(Maps()), c)
      ensures Valid()
    {
      ghost var g := Maps();
      pestControl := pestControl - {c};
      PestControlOffOk(g, c, totalPlanted);
    }

    /** One firing of a recovery task at the current temperature. */
    method RecoveryFiring(t: RecoveryTask)
      requires Valid()
      modifies this`plants
      ensures Maps() == RecoverGrid(old(Maps()), t, temperature)
      ensures Valid()
    {
      ghost var g := Maps();
      RecoverGridOk(g, t, temperature, totalPlanted);
      var c := t.cell;
      if t in LookupSet(liveRecovery, c) && c in plants && plants[c].id == t.plantId
         && plants[c].plant.health < FullHealth
      {
        var s := plants[c];
        var amount := RecoveryAmount(s.plant.health, s.plant.waterLevel, temperature);
        plants := plants[c := s.(plant := IncreaseHealth(s.plant, amount))];
      }
    }

    // -------------------------------------------------------------- water

    /** The water added to the plant at `c`, the watering symbol shown, and
     *  the overwatering damage above 80; no death check yet. */
    method AddWater(c: Cell, amount: int)
      requires c in plants
      modifies this`plants, this`watering
      ensures Maps() == WateredGrid(old(Maps()), c, amount)
    {
      var s := plants[c];
      var p := Water(s.plant, amount);
      plants := plants[c := s.(plant := p)];
      watering := watering + {c};
      if p.waterLevel > 80 {
        plants := plants[c := s.(plant := DecreaseHealth(p, OverwaterDamage(p.waterLevel)))];
      }
    }

    /** Manual watering of one plant, with the overwatering damage and the
     *  death check that follows it. */
    method WaterPlant(c: Cell, amount: int)
      requires Valid() && c in plants && amount >= 0
      modifies this`plants, this`activeInsects, this`watering, this`pestControl, this`totalDied
      ensures Maps() == WaterGrid(old(Maps()), c, amount) == StepGrid(old(Maps()), c, WaterBy(amount))
      ensures totalDied == old(totalDied) + Lost(old(CellAt(c)), CellAt(c))
      ensures Valid()
    {
      ghost var g := Maps();
      StepGridOk(g, c, WaterBy(amount), totalPlanted);
      WaterGridLost(g, c, amount);
      var overwatered := plants[c].plant.waterLevel + amount > 80;
      AddWater(c, amount);
      if overwatered {
        var _ := CheckAndHandleDeath(c);
      }
    }

    /** The water dialog: the amount (the spinner's 0..100) is added to the
     *  total, then to every plant. */
    method ManualWater(amount: int, order: seq<Cell>)
      requires Valid() && 0 <= amount <= 100 && Enumerates(order, plants.Keys)
      modifies this`plants, this`activeInsects, this`watering, this`pestControl, this`totalDied, this`totalWaterAdded
      ensures totalWaterAdded == old(totalWaterAdded) + amount
      ensures Maps() == Sweep(old(Maps()), order, WaterBy(amount))
      ensures totalDied == old(totalDied) + Deaths(old(Maps()), order, WaterBy(amount))
      ensures Valid()
    {
      totalWaterAdded := totalWaterAdded + amount;
      WaterEveryPlant(amount, order);
    }

    /** Every plant watered with the same amount, in the order given. */
    method WaterEveryPlant(amount: int, order: seq<Cell>)
      requires Valid() && 0 <= amount && Enumerates(order, plants.Keys)
      modifies this`plants, this`activeInsects, this`watering, this`pestControl, this`totalDied
      ensures Maps() == Sweep(old(Maps()), order, WaterBy(amount))
      ensures totalDied == old(totalDied) + Deaths(old(Maps()), order, WaterBy(amount))
      ensures Valid()
    {
      ghost var g := Maps();
      var k := 0;
      while k < |order|
        invariant 0 <= k <= |order|
        invariant Valid()
        invariant Maps() == Sweep(g, order[..k], WaterBy(amount))
        invariant totalDied == old(totalDied) + Deaths(g, order[..k], WaterBy(amount))
      {
        ghost var mid := Maps();
        SweepKeepsNext(g, order, k, WaterBy(amount));
        WaterPlant(order[k], amount);
        SweepAdvance(g, order, k, WaterBy(amount), mid, Maps());
        k := k + 1;
      }
      assert order[..|order|] == order;
    }

    /** The firing that takes the watering symbol off a cell. */
    method ClearWateringFlag(c: Cell)
      requires Valid()
      modifies this`watering
      ensures Maps() == WateringOffGrid(old(Maps()), c)
      ensures Valid()
    {
      ghost var g := Maps();
      watering := watering - {c};
      WateringOffOk(g, c, totalPlanted);
    }

    /** `startAutomaticWatering`: the cell's registered task is cancelled and
     *  a new periodic task registered. */
    method StartAutomaticWatering(c: Cell)
      modifies this`wateringTasks, this`liveWatering
      ensures Maps() == RearmGrid(old(Maps()), c)
    {
      var t := WateringTask(c, NextWateringSerial(Lookup(wateringTasks, c)));
      var kept := LookupSet(liveWatering, c);
      if c in wateringTasks {
        kept := kept - {wateringTasks[c]};
      }
      wateringTasks := wateringTasks[c := t];
      liveWatering := liveWatering[c := kept + {t}];
    }

    /** The water lost by the plant at `c` in one tick, automatic watering
     *  started below 50 and the water-stress damage below 30; no death check
     *  yet. */
    method DrainWater(c: Cell)
      requires c in plants
      modifies this`plants, this`wateringTasks, this`liveWatering
      ensures Maps() == DriedGrid(old(Maps()), c, temperature)
    {
      var s := plants[c];
      var p := DecreaseWaterLevel(s.plant, WaterReduction(s.plant.waterRequirement, temperature));
      plants := plants[c := s.(plant := p)];
      if p.waterLevel < 50 {
        StartAutomaticWatering(c);
      }
      if p.waterLevel < 30 {
        plants := plants[c := s.(plant := DecreaseHealth(p, WaterStressImpact(p.waterLevel, temperature)))];
      }
    }

    /** One water-decay tick on one plant, with the death check that follows
     *  water stress. */
    method DecayPlant(c: Cell)
      requires Valid() && c in plants
      modifies this`plants, this`activeInsects, this`watering, this`pestControl, this`totalDied,
               this`wateringTasks, this`liveWatering
      ensures Maps() == DecayGrid(old(Maps()), c, temperature) == StepGrid(old(Maps()), c, Decay(temperature))
      ensures totalDied == old(totalDied) + Lost(old(CellAt(c)), CellAt(c))
      ensures Valid()
    {
      StepGridOk(Maps(), c, Decay(temperature), totalPlanted);
      DecayAt(c);
    }

    /** The decay tick's changes to the cell: water lost, automatic watering
     *  and stress damage as `DrainWater`, then the death check when the plant
     *  was stressed. */
    method DecayAt(c: Cell)
      requires c in plants
      modifies this`plants, this`activeInsects, this`watering, this`pestControl, this`totalDied,
               this`wateringTasks, this`liveWatering
      ensures Maps() == DecayGrid(old(Maps()), c, temperature)
      ensures totalDied == old(totalDied) + Lost(old(CellAt(c)), CellAt(c))
    {
      DecayGridLost(Maps(), c, temperature);
      var stressed := DrainedLevel(plants[c].plant, temperature) < 30;
      DrainWater(c);
      if stressed {
        var _ := CheckAndHandleDeath(c);
      }
    }

    /** The water-reduction timer's tick: every plant decays. */
    method WaterDecayTick(order: seq<Cell>)
      requires Valid() && Enumerates(order, plants.Keys)
      modifies this`plants, this`activeInsects, this`watering, this`pestControl, this`totalDied,
               this`wateringTasks, this`liveWatering
      ensures Maps() == Sweep(old(Maps()), order, Decay(temperature))
      ensures totalDied == old(totalDied) + Deaths(old(Maps()), order, Decay(temperature))
      ensures Valid()
    {
      ghost var g := Maps();
      var k := 0;
      while k < |order|
        invariant 0 <= k <= |order|
        invariant Valid()
        invariant Maps() == Sweep(g, order[..k], Decay(temperature))
        invariant totalDied == old(totalDied) + Deaths(g, order[..k], Decay(temperature))
      {
        DecayNext(g, order, k);
        k := k + 1;
      }
      assert order[..|order|] == order;
    }

    /** One iteration of the decay tick: the plant at `order[k]` decays, which
     *  extends the sweep by one cell and counts that cell's death. */
    method DecayNext(ghost g: Grid, order: seq<Cell>, k: nat)
      requires Valid() && Enumerates(order, g.plants.Keys) && k < |order|
      requires Maps() == Sweep(g, order[..k], Decay(temperature))
      modifies this`plants, this`activeInsects, this`watering, this`pestControl, this`totalDied,
               this`wateringTasks, this`liveWatering
      ensures Maps() == Sweep(g, order[..k + 1], Decay(temperature))
      ensures totalDied - old(totalDied) == Deaths(g, order[..k + 1], Decay(temperature)) - Deaths(g, order[..k], Decay(temperature))
      ensures Valid()
    {
      ghost var mid := Maps();
      SweepKeepsNext(g, order, k, Decay(temperature));
      DecayPlant(order[k]);
      SweepAdvance(g, order, k, Decay(temperature), mid, Maps());
    }

    /** One firing of an auto-watering task at the current temperature. */
    method AutoWateringFiring(t: WateringTask)
      requires Valid()
      modifies this`plants, this`watering
      ensures Maps() == AutoWaterGrid(old(Maps()), t, temperature)
      ensures Valid()
    {
      ghost var g := Maps();
      AutoWaterGridOk(g, t, temperature, totalPlanted);
      var c := t.cell;
      if t in LookupSet(liveWatering, c) && c in plants && plants[c].plant.waterLevel < 50 {
        var s := plants[c];
        var added := AutoWaterAmount(s.plant.waterLevel, s.plant.health, temperature);
        plants := plants[c := s.(plant := Water(s.plant, added))];
        watering := watering + {c};
      }
    }

    // -------------------------------------------------------------- days and report

    /** `getState`: one pass over the plants rebuilds the per-type statistics
     *  and gathers the report's numbers. */
    method GetState(order: seq<Cell>) returns (r: Report)
      requires Enumerates(order, plants.Keys)
      modifies this`plantStats
      ensures plantStats == Tally(plants, order).distribution
      ensures r == Report(daysElapsed, |plants|, totalPlanted, totalDied, Tally(plants, order),
                          totalWaterAdded, totalPestControls, temperature, Alert(Tally(plants, order), |plants|))
      ensures r.census.healthy + r.census.stressed + r.census.dying == r.plantCount
      ensures Total(plantStats) == r.plantCount
    {
      EnumeratesCard(order, plants.Keys);
      TallyBands(plants, order);
      TallyDistribution(plants, order);
      var census := TallyPlants(plants, order);
      plantStats := census.distribution;
      var count := |plants|;
      var belowHalf := if count > 0 then census.healthSum < 50 * count else true;
      r := Report(daysElapsed, count, totalPlanted, totalDied, census, totalWaterAdded, totalPestControls,
                  temperature, census.dying > 0 || belowHalf);
    }

    /** The day timer's tick: the day label and the elapsed-day counter both
     *  advance, and every 24th day the report is produced. */
    method DayTick(order: seq<Cell>) returns (report: Option<Report>)
      requires Valid() && Enumerates(order, plants.Keys)
      modifies this`currentDay, this`daysElapsed, this`plantStats
      ensures currentDay == old(currentDay) + 1 && daysElapsed == old(daysElapsed) + 1
      ensures report.Some? <==> daysElapsed % PerformanceCheckInterval == 0
      ensures report.Some? ==>
                && report.value.day == daysElapsed
                && report.value.census == Tally(plants, order)
                && report.value.alert == Alert(Tally(plants, order), |plants|)
                && plantStats == Tally(plants, order).distribution
      ensures report.None? ==> plantStats == old(plantStats)
      ensures Valid()
    {
      currentDay := currentDay + 1;
      daysElapsed := daysElapsed + 1;
      if daysElapsed % PerformanceCheckInterval == 0 {
        var r := GetState(order);
        report := Some(r);
      } else {
        report := None;
      }
    }
  }
}
