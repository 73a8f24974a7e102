/** The garden's maps keyed by grid button, taken together as one value, and
 *  each operation of the garden as a function from the maps before to the
 *  maps after. Every such function changes one cell as the matching rule of
 *  GardenCells says and leaves every other cell alone; the loops of the
 *  garden are folds of one such function over the keys they visit.
 */
module GardenGrid {
  import opened Plants
  import opened Insects
  import opened GardenRules
  import opened GardenCells

  function Lookup<K, V>(m: map<K, V>, k: K): (r: Option<V>)
    ensures r.Some? <==> k in m
    ensures r.Some? ==> r.value == m[k]
  {
    if k in m then Some(m[k]) else None
  }

  function LookupSet<K, V>(m: map<K, set<V>>, k: K): set<V> {
    if k in m then m[k] else {}
  }

  /** The plant, insect, watering-flag and pest-control-flag maps, the two
   *  task registries, and the scheduler's uncancelled tasks by cell. */
  datatype Grid = Grid(
    plants: map<Cell, Slot>,
    insects: map<Cell, seq<Insect>>,
    watering: set<Cell>,
    pestControl: set<Cell>,
    wateringTasks: map<Cell, WateringTask>,
    liveWatering: map<Cell, set<WateringTask>>,
    recoveryTasks: map<Cell, RecoveryTask>,
    liveRecovery: map<Cell, set<RecoveryTask>>)

  /** One key's entries in all the maps. */
  function CellOf(g: Grid, c: Cell): CellState {
    CellState(Lookup(g.plants, c), Lookup(g.insects, c), c in g.watering, c in g.pestControl,
              Lookup(g.wateringTasks, c), LookupSet(g.liveWatering, c),
              Lookup(g.recoveryTasks, c), LookupSet(g.liveRecovery, c))
  }

  ghost predicate CellsOk(g: Grid, planted: nat) {
    forall c :: CellOk(c, CellOf(g, c), planted)
  }

  ghost predicate AllAlive(g: Grid) {
    forall d :: Alive(CellOf(g, d))
  }

  /** Every plant but possibly the one at `c` has positive health: the state
   *  between damaging a plant and checking it for death. */
  ghost predicate AliveExcept(g: Grid, c: Cell) {
    forall d :: d != c ==> Alive(CellOf(g, d))
  }

  predicate NoDup(s: seq<Cell>) {
    forall j, k :: 0 <= j < k < |s| ==> s[j] != s[k]
  }

  /** `order` visits every key of a map exactly once: the iteration order of
   *  a HashMap's key set or of a copy of it. */
  predicate Enumerates(order: seq<Cell>, keys: set<Cell>) {
    && NoDup(order)
    && (forall c :: c in order ==> c in keys)
    && (forall c :: c in keys ==> c in order)
  }

  /** A grid that differs from a sound grid only at `c`, where its cell is
   *  sound, is sound; it is free of dead plants except perhaps at `c`. */
  lemma OnlyCellChanged(g: Grid, g1: Grid, c: Cell, planted: nat)
    requires CellsOk(g, planted) && AliveExcept(g, c)
    requires forall d :: d != c ==> CellOf(g1, d) == CellOf(g, d)
    requires CellOk(c, CellOf(g1, c), planted)
    ensures CellsOk(g1, planted) && AliveExcept(g1, c)
    ensures Alive(CellOf(g1, c)) ==> AllAlive(g1)
  {
    forall d
      ensures CellOk(d, CellOf(g1, d), planted)
    {
      if d != c {
        assert CellOk(d, CellOf(g, d), planted);
      }
    }
  }

  /** A sound grid stays sound when more plants have been planted. */
  lemma CellsOkGrows(g: Grid, planted: nat, planted': nat)
    requires CellsOk(g, planted) && planted <= planted'
    ensures CellsOk(g, planted')
  {
    forall d
      ensures CellOk(d, CellOf(g, d), planted')
    {
      assert CellOk(d, CellOf(g, d), planted);
    }
  }

  /** Putting a plant at `c` changes that cell's slot and nothing else. */
  lemma SetPlantCell(g: Grid, c: Cell, s: Slot, d: Cell)
    ensures CellOf(g.(plants := g.plants[c := s]), d) == if d == c then CellOf(g, c).(slot := Some(s)) else CellOf(g, d)
  {
  }

  /** Putting an insect list at `c` changes that cell's list and nothing
   *  else. */
  lemma SetInsectsCell(g: Grid, c: Cell, l: seq<Insect>, d: Cell)
    ensures CellOf(g.(insects := g.insects[c := l]), d) == if d == c then CellOf(g, c).(insects := Some(l)) else CellOf(g, d)
  {
  }

  /** Showing the watering symbol at `c` changes that cell's flag and
   *  nothing else. */
  lemma WateringFlagCell(g: Grid, c: Cell, d: Cell)
    ensures CellOf(g.(watering := g.watering + {c}), d) == if d == c then CellOf(g, c).(watering := true) else CellOf(g, d)
  {
  }

  /** Showing the pest-control symbol at `c` changes that cell's flag and
   *  nothing else. */
  lemma PestFlagCell(g: Grid, c: Cell, d: Cell)
    ensures CellOf(g.(pestControl := g.pestControl + {c}), d) == if d == c then CellOf(g, c).(pestControl := true) else CellOf(g, d)
  {
  }

  // ---------------------------------------------------------------- death

  /** The plant, insect, watering and pest-control maps without `c`. */
  function ClearGrid(g: Grid, c: Cell): Grid {
    g.(plants := g.plants - {c}, insects := g.insects - {c},
       watering := g.watering - {c}, pestControl := g.pestControl - {c})
  }

  lemma ClearGridCell(g: Grid, c: Cell, d: Cell)
    ensures CellOf(ClearGrid(g, c), d) == if d == c then Cleared(CellOf(g, c)) else CellOf(g, d)
  {
  }

  /** `checkAndHandlePlantDeath` on the maps. */
  function DeathGrid(g: Grid, c: Cell): Grid {
    if Dead(CellOf(g, c)) then ClearGrid(g, c) else g
  }

  lemma DeathGridCell(g: Grid, c: Cell, d: Cell)
    ensures CellOf(DeathGrid(g, c), d) == if d == c then DeathChecked(CellOf(g, c)) else CellOf(g, d)
  {
    ClearGridCell(g, c, d);
  }

  /** Removing a plant by hand clears its cell as a death does, and leaves a
   *  sound grid with no dead plant. */
  lemma ClearGridOk(g: Grid, c: Cell, planted: nat)
    requires CellsOk(g, planted) && AllAlive(g)
    ensures CellsOk(ClearGrid(g, c), planted) && AllAlive(ClearGrid(g, c))
    ensures ClearGrid(g, c).plants == g.plants - {c}
  {
    forall d
      ensures CellOf(ClearGrid(g, c), d) == if d == c then Cleared(CellOf(g, c)) else CellOf(g, d)
    {
      ClearGridCell(g, c, d);
    }
    OnlyCellChanged(g, ClearGrid(g, c), c, planted);
  }

  // ---------------------------------------------------------------- planting

  function PlantGrid(g: Grid, c: Cell, s: Slot): Grid {
    g.(plants := g.plants[c := s])
  }

  /** Planting on an empty cell of the grid with a fresh identity keeps the
   *  grid sound; the new plant is the only change. */
  lemma PlantGridOk(g: Grid, c: Cell, s: Slot, planted: nat)
    requires CellsOk(g, planted) && AllAlive(g)
    requires c !in g.plants && InGrid(c) && s.id == planted
    requires 0 < s.plant.health <= FullHealth && 0 <= s.plant.waterLevel && 0 <= s.plant.waterRequirement
    ensures CellsOk(PlantGrid(g, c, s), planted + 1) && AllAlive(PlantGrid(g, c, s))
    ensures CellOf(PlantGrid(g, c, s), c) == CellOf(g, c).(slot := Some(s))
  {
    CellsOkGrows(g, planted, planted + 1);
    var g1 := PlantGrid(g, c, s);
    forall d | d != c
      ensures CellOf(g1, d) == CellOf(g, d)
    {
    }
    assert CellOk(c, CellOf(g, c), planted);
    OnlyCellChanged(g, g1, c, planted + 1);
  }

  // ---------------------------------------------------------------- insects

  /** An insect's damage applied to the plant at `c` and the insect added to
   *  the cell's list, created if absent; no death check yet. */
  function DamageGrid(g: Grid, c: Cell, i: Insect): Grid {
    if c !in g.plants then g
    else
      var s := g.plants[c];
      g.(plants := g.plants[c := s.(plant := DecreaseHealth(s.plant, Damage(i, s.plant.plantType)))],
         insects := g.insects[c := GetOr(Lookup(g.insects, c), []) + [i]])
  }

  lemma DamageGridCell(g: Grid, c: Cell, i: Insect, d: Cell)
    ensures CellOf(DamageGrid(g, c, i), d) ==
              if d == c && c in g.plants then Damaged(CellOf(g, c), i) else CellOf(g, d)
  {
  }

  /** One insect hitting the plant at `c`, with the death check. */
  function HitGrid(g: Grid, c: Cell, i: Insect): Grid {
    if HitDamage(CellOf(g, c), i) == 0 then g else DeathGrid(DamageGrid(g, c, i), c)
  }

  lemma HitGridCell(g: Grid, c: Cell, i: Insect, d: Cell)
    ensures CellOf(HitGrid(g, c, i), d) == if d == c then Hit(CellOf(g, c), i) else CellOf(g, d)
  {
    if HitDamage(CellOf(g, c), i) != 0 {
      DamageGridCell(g, c, i, d);
      DamageGridCell(g, c, i, c);
      DeathGridCell(DamageGrid(g, c, i), c, d);
    }
  }

  /** What one hit does, in terms of the plant map: whether it lands, how it
   *  is logged, and that it removes the plant exactly when the damaged plant
   *  is dead. */
  lemma HitGridSteps(g: Grid, c: Cell, i: Insect)
    ensures HitDamage(CellOf(g, c), i) > 0 <==> c in g.plants && Damage(i, g.plants[c].plant.plantType) > 0
    ensures HitDamage(CellOf(g, c), i) > 0 ==>
              HitSeverity(CellOf(g, c), i) ==
                (var d := Damage(i, g.plants[c].plant.plantType);
                 if d > 15 || DecreaseHealth(g.plants[c].plant, d).health < 30 then Severe else Ordinary)
    ensures Lost(CellOf(g, c), CellOf(HitGrid(g, c, i), c)) ==
              if HitDamage(CellOf(g, c), i) > 0 && Dead(CellOf(DamageGrid(g, c, i), c)) then 1 else 0
  {
    HitGridCell(g, c, i, c);
    if HitDamage(CellOf(g, c), i) > 0 {
      DamageGridCell(g, c, i, c);
    }
  }

  /** The selected insects hitting the plant at `c` in order. */
  function AttackGrid(g: Grid, c: Cell, selected: seq<Insect>): Grid
    decreases |selected|
  {
    if selected == [] then g
    else HitGrid(AttackGrid(g, c, selected[..|selected| - 1]), c, selected[|selected| - 1])
  }

  lemma {:induction false} AttackGridCell(g: Grid, c: Cell, selected: seq<Insect>, d: Cell)
    ensures CellOf(AttackGrid(g, c, selected), d) == if d == c then AttackAll(CellOf(g, c), selected) else CellOf(g, d)
    decreases |selected|
  {
    if selected != [] {
      var prefix := selected[..|selected| - 1];
      AttackGridCell(g, c, prefix, d);
      HitGridCell(AttackGrid(g, c, prefix), c, selected[|selected| - 1], d);
    }
  }

  // ---------------------------------------------------------------- pest control

  /** `startHealthRecovery` on the maps: a damaged plant's new recovery task
   *  replaces the registered one, and the old one keeps running. */
  function RecoveryGrid(g: Grid, c: Cell): Grid {
    if c !in g.plants || g.plants[c].plant.health >= FullHealth then g
    else
      var t := RecoveryTask(c, g.plants[c].id, NextRecoverySerial(Lookup(g.recoveryTasks, c)));
      g.(recoveryTasks := g.recoveryTasks[c := t],
         liveRecovery := g.liveRecovery[c := LookupSet(g.liveRecovery, c) + {t}])
  }

  lemma RecoveryGridCell(g: Grid, c: Cell, d: Cell)
    ensures CellOf(RecoveryGrid(g, c), d) == if d == c then StartRecovery(c, CellOf(g, c)) else CellOf(g, d)
  {
  }

  /** Automatic pest control of one cell's list. */
  function AutoPestGrid(g: Grid, c: Cell): Grid {
    if c in g.insects && |g.insects[c]| > 0 then
      RecoveryGrid(g.(insects := g.insects[c := []], pestControl := g.pestControl + {c}), c)
    else g
  }

  lemma AutoPestGridCell(g: Grid, c: Cell, d: Cell)
    ensures CellOf(AutoPestGrid(g, c), d) == if d == c then AutoPestControlCell(c, CellOf(g, c)) else CellOf(g, d)
  {
    if c in g.insects && |g.insects[c]| > 0 {
      RecoveryGridCell(g.(insects := g.insects[c := []], pestControl := g.pestControl + {c}), c, d);
    }
  }

  /** Manual pest control of one cell's list. */
  function ManualPestGrid(g: Grid, c: Cell, selected: seq<Insect>): Grid {
    if c in g.insects && |g.insects[c]| > 0 then
      var removed := Picked(g.insects[c], selected);
      var g1 := g.(insects := g.insects[c := Without(g.insects[c], removed)]);
      if |removed| > 0 then RecoveryGrid(g1.(pestControl := g1.pestControl + {c}), c) else g1
    else g
  }

  lemma ManualPestGridCell(g: Grid, c: Cell, selected: seq<Insect>, d: Cell)
    ensures CellOf(ManualPestGrid(g, c, selected), d) ==
              if d == c then ManualPestControlCell(c, CellOf(g, c), selected) else CellOf(g, d)
  {
    if c in g.insects && |g.insects[c]| > 0 {
      var removed := Picked(g.insects[c], selected);
      var kept := Without(g.insects[c], removed);
      var g1 := g.(insects := g.insects[c := kept]);
      SetInsectsCell(g, c, kept, d);
      if |removed| > 0 {
        SetInsectsCell(g, c, kept, c);
        PestFlagCell(g1, c, d);
        RecoveryGridCell(g1.(pestControl := g1.pestControl + {c}), c, d);
      }
    }
  }

  // ---------------------------------------------------------------- water

  /** Manual watering of the plant at `c`: water, the flag, and overwatering
   *  damage above 80; no death check yet. */
  function WateredGrid(g: Grid, c: Cell, amount: int): Grid {
    if c !in g.plants then g
    else
      var s := g.plants[c];
      var p := Water(s.plant, amount);
      var g1 := g.(plants := g.plants[c := s.(plant := p)], watering := g.watering + {c});
      if p.waterLevel > 80 then g1.(plants := g1.plants[c := s.(plant := DecreaseHealth(p, OverwaterDamage(p.waterLevel)))])
      else g1
  }

  lemma WateredGridCell(g: Grid, c: Cell, amount: int, d: Cell)
    ensures CellOf(WateredGrid(g, c, amount), d) ==
              if d == c && c in g.plants then Watered(CellOf(g, c), amount) else CellOf(g, d)
  {
    if c in g.plants {
      var s := g.plants[c];
      var p := Water(s.plant, amount);
      var g0 := g.(plants := g.plants[c := s.(plant := p)]);
      var g1 := g0.(watering := g0.watering + {c});
      SetPlantCell(g, c, s.(plant := p), d);
      SetPlantCell(g, c, s.(plant := p), c);
      WateringFlagCell(g0, c, d);
      WateringFlagCell(g0, c, c);
      if p.waterLevel > 80 {
        SetPlantCell(g1, c, s.(plant := DecreaseHealth(p, OverwaterDamage(p.waterLevel))), d);
      }
    }
  }

  /** Manual watering of the plant at `c`, with the death check when it was
   *  overwatered. */
  function WaterGrid(g: Grid, c: Cell, amount: int): Grid {
    if Overwatered(CellOf(g, c), amount) then DeathGrid(WateredGrid(g, c, amount), c) else WateredGrid(g, c, amount)
  }

  lemma WaterGridCell(g: Grid, c: Cell, amount: int, d: Cell)
    ensures CellOf(WaterGrid(g, c, amount), d) == if d == c then WaterCell(CellOf(g, c), amount) else CellOf(g, d)
  {
    WateredGridCell(g, c, amount, d);
    if Overwatered(CellOf(g, c), amount) {
      WateredGridCell(g, c, amount, c);
      DeathGridCell(WateredGrid(g, c, amount), c, d);
    }
  }

  /** Watering removes the plant exactly when it was overwatered and the
   *  damage left it dead. */
  lemma WaterGridLost(g: Grid, c: Cell, amount: int)
    ensures Overwatered(CellOf(g, c), amount) <==> c in g.plants && g.plants[c].plant.waterLevel + amount > 80
    ensures Lost(CellOf(g, c), CellOf(WaterGrid(g, c, amount), c)) ==
              if Overwatered(CellOf(g, c), amount) && Dead(CellOf(WateredGrid(g, c, amount), c)) then 1 else 0
  {
    WateredGridCell(g, c, amount, c);
    if Overwatered(CellOf(g, c), amount) {
      DeathGridCell(WateredGrid(g, c, amount), c, c);
    }
  }

  /** `startAutomaticWatering` on the maps: the registered task is cancelled
   *  and a new one registered. */
  function RearmGrid(g: Grid, c: Cell): Grid {
    var t := WateringTask(c, NextWateringSerial(Lookup(g.wateringTasks, c)));
    var kept := if c in g.wateringTasks then LookupSet(g.liveWatering, c) - {g.wateringTasks[c]}
                else LookupSet(g.liveWatering, c);
    g.(wateringTasks := g.wateringTasks[c := t], liveWatering := g.liveWatering[c := kept + {t}])
  }

  lemma RearmGridCell(g: Grid, c: Cell, d: Cell)
    ensures CellOf(RearmGrid(g, c), d) == if d == c then RearmWatering(c, CellOf(g, c)) else CellOf(g, d)
  {
  }

  /** One decay tick on the plant at `c` up to the death check: the plant
   *  loses water, below 50 auto-watering is re-armed, below 30 the plant
   *  loses health to water stress. */
  function DriedGrid(g: Grid, c: Cell, temperature: int): Grid {
    if c !in g.plants then g
    else
      var s := g.plants[c];
      var p := DecreaseWaterLevel(s.plant, WaterReduction(s.plant.waterRequirement, temperature));
      var g1 := g.(plants := g.plants[c := s.(plant := p)]);
      var g2 := if p.waterLevel < 50 then RearmGrid(g1, c) else g1;
      if p.waterLevel < 30 then
        g2.(plants := g2.plants[c := s.(plant := DecreaseHealth(p, WaterStressImpact(p.waterLevel, temperature)))])
      else g2
  }

  lemma DriedGridCell(g: Grid, c: Cell, temperature: int, d: Cell)
    ensures CellOf(DriedGrid(g, c, temperature), d) ==
              if d == c && c in g.plants then Dried(c, CellOf(g, c), temperature) else CellOf(g, d)
  {
    if c in g.plants {
      var s := g.plants[c];
      var p := DecreaseWaterLevel(s.plant, WaterReduction(s.plant.waterRequirement, temperature));
      var g1 := g.(plants := g.plants[c := s.(plant := p)]);
      SetPlantCell(g, c, s.(plant := p), d);
      SetPlantCell(g, c, s.(plant := p), c);
      var g2 := if p.waterLevel < 50 then RearmGrid(g1, c) else g1;
      if p.waterLevel < 50 {
        RearmGridCell(g1, c, d);
        RearmGridCell(g1, c, c);
      }
      if p.waterLevel < 30 {
        SetPlantCell(g2, c, s.(plant := DecreaseHealth(p, WaterStressImpact(p.waterLevel, temperature))), d);
      }
    }
  }

  /** One decay tick on the plant at `c`, with the death check under water
   *  stress. */
  function DecayGrid(g: Grid, c: Cell, temperature: int): Grid {
    if Stressed(CellOf(g, c), temperature) then DeathGrid(DriedGrid(g, c, temperature), c)
    else DriedGrid(g, c, temperature)
  }

  lemma DecayGridCell(g: Grid, c: Cell, temperature: int, d: Cell)
    ensures CellOf(DecayGrid(g, c, temperature), d) ==
              if d == c then DecayCell(c, CellOf(g, c), temperature) else CellOf(g, d)
  {
    DriedGridCell(g, c, temperature, d);
    if Stressed(CellOf(g, c), temperature) {
      DriedGridCell(g, c, temperature, c);
      DeathGridCell(DriedGrid(g, c, temperature), c, d);
    }
  }

  /** A decay tick removes the plant exactly when it was stressed and the
   *  damage left it dead. */
  lemma DecayGridLost(g: Grid, c: Cell, temperature: int)
    ensures Stressed(CellOf(g, c), temperature) <==> c in g.plants && DrainedLevel(g.plants[c].plant, temperature) < 30
    ensures Lost(CellOf(g, c), CellOf(DecayGrid(g, c, temperature), c)) ==
              if Stressed(CellOf(g, c), temperature) && Dead(CellOf(DriedGrid(g, c, temperature), c)) then 1 else 0
  {
    if c in g.plants {
      assert c in DriedGrid(g, c, temperature).plants;
      if Stressed(CellOf(g, c), temperature) {
        DeathGridCell(DriedGrid(g, c, temperature), c, c);
      }
    }
  }

  /** One firing of an auto-watering task. */
  function AutoWaterGrid(g: Grid, t: WateringTask, temperature: int): Grid {
    var c := t.cell;
    if t in LookupSet(g.liveWatering, c) && c in g.plants && g.plants[c].plant.waterLevel < 50 then
      var s := g.plants[c];
      var p := s.plant;
      g.(plants := g.plants[c := s.(plant := Water(p, AutoWaterAmount(p.waterLevel, p.health, temperature)))],
         watering := g.watering + {c})
    else g
  }

  /** A watering task only ever waters the cell it was scheduled for, and
   *  keeps the grid sound. */
  lemma AutoWaterGridOk(g: Grid, t: WateringTask, temperature: int, planted: nat)
    requires CellsOk(g, planted) && AllAlive(g)
    ensures CellsOk(AutoWaterGrid(g, t, temperature), planted) && AllAlive(AutoWaterGrid(g, t, temperature))
    ensures CellOf(AutoWaterGrid(g, t, temperature), t.cell) == AutoWaterCell(CellOf(g, t.cell), t, temperature)
    ensures forall d :: d != t.cell ==> CellOf(AutoWaterGrid(g, t, temperature), d) == CellOf(g, d)
  {
    var c := t.cell;
    AutoWateringNeverOverwaters(c, CellOf(g, c), t, temperature, planted);
    OnlyCellChanged(g, AutoWaterGrid(g, t, temperature), c, planted);
  }

  /** One firing of a recovery task. */
  function RecoverGrid(g: Grid, t: RecoveryTask, temperature: int): Grid {
    var c := t.cell;
    if t in LookupSet(g.liveRecovery, c) && c in g.plants && g.plants[c].id == t.plantId
       && g.plants[c].plant.health < FullHealth
    then
      var s := g.plants[c];
      var p := s.plant;
      g.(plants := g.plants[c := s.(plant := IncreaseHealth(p, RecoveryAmount(p.health, p.waterLevel, temperature)))])
    else g
  }

  /** A recovery task only ever heals the plant it captured, and keeps the
   *  grid sound. */
  lemma RecoverGridOk(g: Grid, t: RecoveryTask, temperature: int, planted: nat)
    requires CellsOk(g, planted) && AllAlive(g)
    ensures CellsOk(RecoverGrid(g, t, temperature), planted) && AllAlive(RecoverGrid(g, t, temperature))
    ensures CellOf(RecoverGrid(g, t, temperature), t.cell) == RecoverCell(CellOf(g, t.cell), t, temperature)
    ensures forall d :: d != t.cell ==> CellOf(RecoverGrid(g, t, temperature), d) == CellOf(g, d)
  {
    var c := t.cell;
    RecoveryOutcome(c, CellOf(g, c), t, temperature, planted);
    OnlyCellChanged(g, RecoverGrid(g, t, temperature), c, planted);
  }

  /** The firing that takes a watering symbol off a cell. */
  function WateringOffGrid(g: Grid, c: Cell): Grid {
    g.(watering := g.watering - {c})
  }

  /** The firing that takes a pest-control symbol off a cell. */
  function PestControlOffGrid(g: Grid, c: Cell): Grid {
    g.(pestControl := g.pestControl - {c})
  }

  /** Taking the watering symbol off keeps the grid sound and changes
   *  nothing but the symbol. */
  lemma WateringOffOk(g: Grid, c: Cell, planted: nat)
    requires CellsOk(g, planted) && AllAlive(g)
    ensures CellsOk(WateringOffGrid(g, c), planted) && AllAlive(WateringOffGrid(g, c))
    ensures CellOf(WateringOffGrid(g, c), c) == CellOf(g, c).(watering := false)
  {
    var g1 := WateringOffGrid(g, c);
    forall d | d != c
      ensures CellOf(g1, d) == CellOf(g, d)
    {
    }
    assert CellOk(c, CellOf(g1, c), planted) && Alive(CellOf(g1, c)) by {
      assert CellOk(c, CellOf(g, c), planted) && Alive(CellOf(g, c));
      assert CellOf(g1, c) == CellOf(g, c).(watering := false);
    }
    OnlyCellChanged(g, g1, c, planted);
  }

  /** Taking the pest-control symbol off keeps the grid sound and changes
   *  nothing but the symbol. */
  lemma PestControlOffOk(g: Grid, c: Cell, planted: nat)
    requires CellsOk(g, planted) && AllAlive(g)
    ensures CellsOk(PestControlOffGrid(g, c), planted) && AllAlive(PestControlOffGrid(g, c))
    ensures CellOf(PestControlOffGrid(g, c), c) == CellOf(g, c).(pestControl := false)
  {
    var g1 := PestControlOffGrid(g, c);
    forall d | d != c
      ensures CellOf(g1, d) == CellOf(g, d)
    {
    }
    assert CellOk(c, CellOf(g1, c), planted) && Alive(CellOf(g1, c)) by {
      assert CellOk(c, CellOf(g, c), planted) && Alive(CellOf(g, c));
      assert CellOf(g1, c) == CellOf(g, c).(pestControl := false);
    }
    OnlyCellChanged(g, g1, c, planted);
  }

  // ---------------------------------------------------------------- loops

  /** What a loop over the garden's keys does at each key. */
  datatype Step =
    | Attack(selected: seq<Insect>)
    | AutoPest
    | ManualPest(selected: seq<Insect>)
    | WaterBy(amount: int)
    | Decay(temperature: int)

  /** The rule a step applies to one cell. */
  function Rule(c: Cell, cs: CellState, step: Step): CellState {
    match step
    case Attack(selected) => AttackAll(cs, selected)
    case AutoPest => AutoPestControlCell(c, cs)
    case ManualPest(selected) => ManualPestControlCell(c, cs, selected)
    case WaterBy(amount) => WaterCell(cs, amount)
    case Decay(temperature) => DecayCell(c, cs, temperature)
  }

  /** A step on the maps at one key. */
  function StepGrid(g: Grid, c: Cell, step: Step): Grid {
    match step
    case Attack(selected) => AttackGrid(g, c, selected)
    case AutoPest => AutoPestGrid(g, c)
    case ManualPest(selected) => ManualPestGrid(g, c, selected)
    case WaterBy(amount) => WaterGrid(g, c, amount)
    case Decay(temperature) => DecayGrid(g, c, temperature)
  }

  /** The garden never waters by a negative amount. */
  predicate StepOk(step: Step) {
    step.WaterBy? ==> step.amount >= 0
  }

  /** Each step changes its own cell by its rule, and no other cell. */
  lemma StepGridCell(g: Grid, c: Cell, step: Step, d: Cell)
    ensures CellOf(StepGrid(g, c, step), d) == if d == c then Rule(c, CellOf(g, c), step) else CellOf(g, d)
  {
    match step
    case Attack(selected) => AttackGridCell(g, c, selected, d);
    case AutoPest => AutoPestGridCell(g, c, d);
    case ManualPest(selected) => ManualPestGridCell(g, c, selected, d);
    case WaterBy(amount) => WaterGridCell(g, c, amount, d);
    case Decay(temperature) => DecayGridCell(g, c, temperature, d);
  }

  /** Each rule keeps a sound cell sound and leaves no dead plant standing. */
  lemma RuleOk(c: Cell, cs: CellState, step: Step, planted: nat)
    requires CellOk(c, cs, planted) && Alive(cs) && StepOk(step)
    ensures CellOk(c, Rule(c, cs, step), planted) && Alive(Rule(c, cs, step))
  {
    match step
    case Attack(selected) => AttackAllKeepsCell(c, cs, selected, planted);
    case AutoPest => AutoPestControlOutcome(c, cs, planted);
    case ManualPest(selected) => ManualPestControlOutcome(c, cs, selected, planted);
    case WaterBy(amount) => WaterCellOutcome(c, cs, amount, planted);
    case Decay(temperature) => DecayOutcome(c, cs, temperature, planted);
  }

  /** Each step keeps a sound grid sound and free of dead plants. */
  lemma StepGridOk(g: Grid, c: Cell, step: Step, planted: nat)
    requires CellsOk(g, planted) && AllAlive(g) && StepOk(step)
    ensures CellsOk(StepGrid(g, c, step), planted) && AllAlive(StepGrid(g, c, step))
  {
    var g1 := StepGrid(g, c, step);
    forall d | d != c
      ensures CellOf(g1, d) == CellOf(g, d)
    {
      StepGridCell(g, c, step, d);
    }
    assert CellOk(c, CellOf(g1, c), planted) && Alive(CellOf(g1, c)) by {
      StepGridCell(g, c, step, c);
      RuleOk(c, CellOf(g, c), step, planted);
    }
    OnlyCellChanged(g, g1, c, planted);
  }

  /** A loop applying a step at each key of `order` in turn. */
  function Sweep(g: Grid, order: seq<Cell>, step: Step): Grid
    decreases |order|
  {
    if order == [] then g
    else StepGrid(Sweep(g, order[..|order| - 1], step), order[|order| - 1], step)
  }

  /** A loop over distinct keys changes each visited cell by the step's rule
   *  applied to that cell as it was before the loop, and no other cell: the
   *  result does not depend on the order of the visit. */
  lemma {:induction false} SweepCell(g: Grid, order: seq<Cell>, step: Step, d: Cell)
    requires NoDup(order)
    ensures CellOf(Sweep(g, order, step), d) == if d in order then Rule(d, CellOf(g, d), step) else CellOf(g, d)
    decreases |order|
  {
    if order != [] {
      var prefix := order[..|order| - 1];
      var c := order[|order| - 1];
      assert NoDup(prefix);
      SweepCell(g, prefix, step, d);
      StepGridCell(Sweep(g, prefix, step), c, step, d);
      if d == c {
        assert d !in prefix;
      } else {
        assert d in order <==> d in prefix;
      }
    }
  }

  /** A loop of steps keeps a sound grid sound and free of dead plants. */
  lemma {:induction false} SweepOk(g: Grid, order: seq<Cell>, step: Step, planted: nat)
    requires CellsOk(g, planted) && AllAlive(g) && StepOk(step)
    ensures CellsOk(Sweep(g, order, step), planted) && AllAlive(Sweep(g, order, step))
    decreases |order|
  {
    if order != [] {
      var prefix := order[..|order| - 1];
      SweepOk(g, prefix, step, planted);
      StepGridOk(Sweep(g, prefix, step), order[|order| - 1], step, planted);
    }
  }

  /** 1 when a cell's plant is gone after a change, 0 otherwise. */
  function Lost(before: CellState, after: CellState): nat {
    if before.slot.Some? && after.slot.None? then 1 else 0
  }

  /** The plants a loop of steps kills: the visited cells whose plant the
   *  step's rule removes. */
  function Deaths(g: Grid, order: seq<Cell>, step: Step): nat
    decreases |order|
  {
    if order == [] then 0
    else
      var c := order[|order| - 1];
      Deaths(g, order[..|order| - 1], step) + Lost(CellOf(g, c), Rule(c, CellOf(g, c), step))
  }

  /** One more iteration of a loop of steps. */
  lemma SweepNext(g: Grid, order: seq<Cell>, k: int, step: Step)
    requires 0 <= k < |order| && NoDup(order)
    ensures CellOf(Sweep(g, order[..k], step), order[k]) == CellOf(g, order[k])
    ensures Sweep(g, order[..k + 1], step) == StepGrid(Sweep(g, order[..k], step), order[k], step)
    ensures Deaths(g, order[..k + 1], step) ==
              Deaths(g, order[..k], step) + Lost(CellOf(g, order[k]), Rule(order[k], CellOf(g, order[k]), step))
  {
    assert order[..k + 1][..k] == order[..k];
    assert NoDup(order[..k]);
    SweepCell(g, order[..k], step, order[k]);
  }

  /** The next cell to visit still holds the plant it held before the sweep. */
  lemma SweepKeepsNext(g: Grid, order: seq<Cell>, k: int, step: Step)
    requires 0 <= k < |order| && NoDup(order)
    ensures order[k] in Sweep(g, order[..k], step).plants <==> order[k] in g.plants
  {
    SweepNext(g, order, k, step);
    assert Lookup(Sweep(g, order[..k], step).plants, order[k]) == Lookup(g.plants, order[k]);
  }

  /** One more visited cell: the grid after it is the sweep one longer, and
   *  the deaths grow by what happened at that cell. */
  lemma SweepAdvance(g: Grid, order: seq<Cell>, k: int, step: Step, mid: Grid, next: Grid)
    requires 0 <= k < |order| && NoDup(order)
    requires mid == Sweep(g, order[..k], step) && next == StepGrid(mid, order[k], step)
    ensures next == Sweep(g, order[..k + 1], step)
    ensures Deaths(g, order[..k + 1], step) == Deaths(g, order[..k], step) + Lost(CellOf(mid, order[k]), CellOf(next, order[k]))
  {
    SweepNext(g, order, k, step);
    StepGridCell(mid, order[k], step, order[k]);
  }

  /** One insect's hit keeps a sound grid sound and free of dead plants. */
  lemma HitGridOk(g: Grid, c: Cell, i: Insect, planted: nat)
    requires CellsOk(g, planted) && AllAlive(g)
    ensures CellsOk(HitGrid(g, c, i), planted) && AllAlive(HitGrid(g, c, i))
    ensures HitGrid(g, c, i) == StepGrid(g, c, Attack([i]))
  {
    assert [i][..|[i]| - 1] == [];
    assert AttackGrid(g, c, [i]) == HitGrid(AttackGrid(g, c, []), c, i);
    StepGridOk(g, c, Attack([i]), planted);
  }
}
