/** What the garden keeps about one grid cell, and the rules by which each
 *  garden operation changes one cell. The garden keeps its state in several
 *  maps keyed by grid button (plant, insect list, watering flag, pest-control
 *  flag, watering task, recovery task); a CellState gathers one key's entries,
 *  and every operation of the garden is specified cell by cell through the
 *  functions below.
 */
module GardenCells {
  import opened Plants
  import opened Insects
  import opened GardenRules

  /** A plant in the garden together with its planting number (the planted
   *  counter before it was incremented). The number stands for the Plant
   *  object's identity, which a recovery task captures. */
  datatype Slot = Slot(id: nat, plant: Plant)

  /** A periodic auto-watering task: the cell it looks up on every firing and
   *  a serial number telling it apart from earlier tasks for the same cell. */
  datatype WateringTask = WateringTask(cell: Cell, serial: nat)

  /** A periodic health-recovery task: the cell, the plant it captured, and a
   *  serial number. */
  datatype RecoveryTask = RecoveryTask(cell: Cell, plantId: nat, serial: nat)

  /** Whether an insect hit is logged as important (severe) or ordinarily. */
  datatype Severity = Ordinary | Severe

  /** One cell's entries in the garden's maps. `liveWatering` and
   *  `liveRecovery` are the scheduled tasks for the cell that have not been
   *  cancelled; the registries hold only the most recently scheduled one. */
  datatype CellState = CellState(
    slot: Option<Slot>,
    insects: Option<seq<Insect>>,
    watering: bool,
    pestControl: bool,
    wateringTask: Option<WateringTask>,
    liveWatering: set<WateringTask>,
    recoveryTask: Option<RecoveryTask>,
    liveRecovery: set<RecoveryTask>)

  predicate SlotOk(s: Slot, planted: nat) {
    && s.id < planted
    && 0 <= s.plant.health <= FullHealth
    && 0 <= s.plant.waterLevel
    && 0 <= s.plant.waterRequirement
  }

  /** The invariant of one cell: a plant only on the grid, with health in
   *  0..100, a numbered identity and non-negative water; insect lists and
   *  flags only where a plant stands; only insects that harm the plant's
   *  type on its list; at most one uncancelled watering task, the registered
   *  one; recovery tasks never newer than the registered one. */
  predicate CellOk(c: Cell, cs: CellState, planted: nat) {
    match cs.slot
    case None => cs.insects.None? && !cs.watering && !cs.pestControl && TasksOk(c, cs)
    case Some(s) =>
      && InGrid(c) && SlotOk(s, planted)
      && (cs.insects.Some? ==> forall i :: i in cs.insects.value ==> Damage(i, s.plant.plantType) > 0)
      && TasksOk(c, cs)
  }

  predicate TasksOk(c: Cell, cs: CellState) {
    && (cs.wateringTask.Some? ==> cs.wateringTask.value.cell == c)
    && (forall t :: t in cs.liveWatering ==> cs.wateringTask == Some(t))
    && (cs.recoveryTask.Some? ==> cs.recoveryTask.value.cell == c)
    && (forall t :: t in cs.liveRecovery ==>
          t.cell == c && cs.recoveryTask.Some? && t.serial <= cs.recoveryTask.value.serial)
  }

  /** No plant with health 0 is left standing: a death is always removed. */
  predicate Alive(cs: CellState) {
    cs.slot.Some? ==> cs.slot.value.plant.health > 0
  }

  // ---------------------------------------------------------------- death

  /** The cell after the plant is removed from the plant, insect, watering
   *  and pest-control maps; the task registries are left alone. */
  function Cleared(cs: CellState): CellState {
    cs.(slot := None, insects := None, watering := false, pestControl := false)
  }

  predicate Dead(cs: CellState) {
    cs.slot.Some? && cs.slot.value.plant.health <= 0
  }

  /** `checkAndHandlePlantDeath`: a plant at health 0 or below is removed. */
  function DeathChecked(cs: CellState): CellState {
    if Dead(cs) then Cleared(cs) else cs
  }

  /** Death handling leaves a cell without a dead plant, keeps its invariant,
   *  and changes the cell exactly when the plant had died. */
  lemma DeathCheckedOutcome(c: Cell, cs: CellState, planted: nat)
    requires CellOk(c, cs, planted)
    ensures CellOk(c, DeathChecked(cs), planted) && Alive(DeathChecked(cs))
    ensures DeathChecked(cs) == cs <==> !Dead(cs)
    ensures Dead(cs) ==> DeathChecked(cs).slot.None? && DeathChecked(cs).insects.None?
  {
  }

  // ---------------------------------------------------------------- insects

  /** The damage an insect does to the cell's plant, 0 on an empty cell. */
  function HitDamage(cs: CellState, i: Insect): nat {
    if cs.slot.Some? then Damage(i, cs.slot.value.plant.plantType) else 0
  }

  /** One insect hitting a cell: a plant it harms loses the damage, the insect
   *  joins the cell's list (created if absent), and a killed plant is
   *  removed. A cell without a plant, or whose plant it does not harm, is
   *  unchanged. */
  function Hit(cs: CellState, i: Insect): CellState {
    if HitDamage(cs, i) == 0 then cs else DeathChecked(Damaged(cs, i))
  }

  /** A hit before the death check: the plant has lost the damage and the
   *  insect is on the cell's list. */
  function Damaged(cs: CellState, i: Insect): CellState
    requires cs.slot.Some?
  {
    var s := cs.slot.value;
    cs.(slot := Some(s.(plant := DecreaseHealth(s.plant, HitDamage(cs, i)))),
        insects := Some(GetOr(cs.insects, []) + [i]))
  }

  predicate HitKills(cs: CellState, i: Insect) {
    HitDamage(cs, i) > 0 && cs.slot.value.plant.health <= HitDamage(cs, i)
  }

  /** How the random attack logs a hit: severe when the damage exceeds 15 or
   *  the plant is left below 30. */
  function HitSeverity(cs: CellState, i: Insect): Severity
    requires HitDamage(cs, i) > 0
  {
    var d := HitDamage(cs, i);
    if d > 15 || DecreaseHealth(cs.slot.value.plant, d).health < 30 then Severe else Ordinary
  }

  /** A hit is severe exactly when it does more than 15 or leaves less than
   *  30; the only hit that does more than 15 is a ladybug on lavender, so at
   *  full health every other hit is ordinary. */
  lemma SeverityOfHit(cs: CellState, i: Insect)
    requires HitDamage(cs, i) > 0 && cs.slot.value.plant.health >= 0
    ensures HitSeverity(cs, i) == Severe <==>
              HitDamage(cs, i) > 15 || cs.slot.value.plant.health - HitDamage(cs, i) < 30
    ensures HitDamage(cs, i) > 15 <==> i == Ladybug && cs.slot.value.plant.plantType == LAVENDER
    ensures (cs.slot.value.plant.health == FullHealth && !(i == Ladybug && cs.slot.value.plant.plantType == LAVENDER))
              ==> HitSeverity(cs, i) == Ordinary
  {
  }

  /** A hit keeps the cell's invariant, never leaves a dead plant standing,
   *  and removes the plant exactly when it kills it. */
  lemma HitOutcome(c: Cell, cs: CellState, i: Insect, planted: nat)
    requires CellOk(c, cs, planted) && Alive(cs)
    ensures CellOk(c, Hit(cs, i), planted) && Alive(Hit(cs, i))
    ensures HitKills(cs, i) <==> cs.slot.Some? && Hit(cs, i).slot.None?
    ensures Hit(cs, i).wateringTask == cs.wateringTask && Hit(cs, i).liveWatering == cs.liveWatering
    ensures Hit(cs, i).recoveryTask == cs.recoveryTask && Hit(cs, i).liveRecovery == cs.liveRecovery
  {
  }

  /** The selected insects hitting one cell in order, each through `Hit`:
   *  once the plant is gone, later insects find an empty cell. */
  function AttackAll(cs: CellState, selected: seq<Insect>): CellState
    decreases |selected|
  {
    if selected == [] then cs
    else Hit(AttackAll(cs, selected[..|selected| - 1]), selected[|selected| - 1])
  }

  /** How many of those hits kill the plant. */
  function Kills(cs: CellState, selected: seq<Insect>): nat
    decreases |selected|
  {
    if selected == [] then 0
    else
      var prefix := selected[..|selected| - 1];
      Kills(cs, prefix) + (if HitKills(AttackAll(cs, prefix), selected[|selected| - 1]) then 1 else 0)
  }

  /** The insects of a list that harm a plant type, in order. */
  function Harmful(selected: seq<Insect>, t: PlantType): (r: seq<Insect>)
    ensures forall i :: i in r <==> i in selected && Damage(i, t) > 0
  {
    if selected == [] then []
    else
      var last := selected[|selected| - 1];
      Harmful(selected[..|selected| - 1], t) + (if Damage(last, t) > 0 then [last] else [])
  }

  /** The damage a list of insects does to a plant type in total. */
  function TotalDamage(selected: seq<Insect>, t: PlantType): nat {
    if selected == [] then 0
    else TotalDamage(selected[..|selected| - 1], t) + Damage(selected[|selected| - 1], t)
  }

  /** A manual attack on one cell: a plant survives exactly when its health
   *  exceeds the summed damage of the selected insects; a survivor has lost
   *  exactly that sum and has the harmful insects appended to its list in
   *  order; otherwise the cell is cleared. Flags and tasks of a survivor are
   *  untouched. */
  lemma {:induction false} AttackAllOutcome(cs: CellState, selected: seq<Insect>)
    requires cs.slot.Some? && cs.slot.value.plant.health > 0
    ensures var s := cs.slot.value;
            var t := s.plant.plantType;
            var r := AttackAll(cs, selected);
            && (r.slot.Some? <==> s.plant.health > TotalDamage(selected, t))
            && (r.slot.Some? ==>
                  r == cs.(slot := Some(s.(plant := s.plant.(health := s.plant.health - TotalDamage(selected, t)))),
                           insects := if Harmful(selected, t) == [] then cs.insects
                                      else Some(GetOr(cs.insects, []) + Harmful(selected, t))))
            && (r.slot.None? ==> r == Cleared(cs))
    decreases |selected|
  {
    if selected != [] {
      var prefix := selected[..|selected| - 1];
      var last := selected[|selected| - 1];
      AttackAllOutcome(cs, prefix);
      var s := cs.slot.value;
      var t := s.plant.plantType;
      var mid := AttackAll(cs, prefix);
      if mid.slot.Some? && Damage(last, t) > 0 {
        var rest := GetOr(cs.insects, []);
        assert Harmful(selected, t) == Harmful(prefix, t) + [last];
        assert GetOr(mid.insects, []) == rest + Harmful(prefix, t);
        assert rest + Harmful(prefix, t) + [last] == rest + (Harmful(prefix, t) + [last]);
        var h := s.plant.health - TotalDamage(selected, t);
        if h > 0 {
          assert mid.slot.value.plant.health == s.plant.health - TotalDamage(prefix, t);
          assert AttackAll(cs, selected).slot == Some(s.(plant := s.plant.(health := h)));
          assert AttackAll(cs, selected).insects == Some(rest + Harmful(selected, t));
        }
      } else if mid.slot.Some? {
        assert Harmful(selected, t) == Harmful(prefix, t);
        assert TotalDamage(selected, t) == TotalDamage(prefix, t);
      }
    }
  }

  /** A manual attack kills a plant at most once: the number of killing hits
   *  is 1 exactly when the cell had a plant and is empty afterwards, and 0
   *  otherwise. */
  lemma {:induction false} KilledAtMostOnce(cs: CellState, selected: seq<Insect>)
    requires Alive(cs)
    ensures Kills(cs, selected) == (if cs.slot.Some? && AttackAll(cs, selected).slot.None? then 1 else 0)
    ensures Alive(AttackAll(cs, selected))
    ensures cs.slot.None? ==> AttackAll(cs, selected) == cs
    decreases |selected|
  {
    if selected != [] {
      KilledAtMostOnce(cs, selected[..|selected| - 1]);
    }
  }

  /** A manual attack keeps the cell's invariant. */
  lemma {:induction false} AttackAllKeepsCell(c: Cell, cs: CellState, selected: seq<Insect>, planted: nat)
    requires CellOk(c, cs, planted) && Alive(cs)
    ensures CellOk(c, AttackAll(cs, selected), planted) && Alive(AttackAll(cs, selected))
    decreases |selected|
  {
    if selected != [] {
      var prefix := selected[..|selected| - 1];
      AttackAllKeepsCell(c, cs, prefix, planted);
      HitOutcome(c, AttackAll(cs, prefix), selected[|selected| - 1], planted);
    }
  }

  // ---------------------------------------------------------------- pest control

  function NextRecoverySerial(registered: Option<RecoveryTask>): nat {
    if registered.Some? then registered.value.serial + 1 else 0
  }

  /** `startHealthRecovery`: a damaged plant gets a new recovery task that
   *  captures it; the task replaces the registered one without cancelling
   *  it. An empty cell or a plant at full health is unchanged. */
  function StartRecovery(c: Cell, cs: CellState): CellState {
    if cs.slot.None? || cs.slot.value.plant.health >= FullHealth then cs
    else
      var t := RecoveryTask(c, cs.slot.value.id, NextRecoverySerial(cs.recoveryTask));
      cs.(recoveryTask := Some(t), liveRecovery := cs.liveRecovery + {t})
  }

  /** Recovery tasks accumulate: starting one keeps every earlier task alive
   *  and adds exactly one new task, for the plant standing there. */
  lemma RecoveryTasksAccumulate(c: Cell, cs: CellState, planted: nat)
    requires CellOk(c, cs, planted)
    ensures CellOk(c, StartRecovery(c, cs), planted)
    ensures cs.liveRecovery <= StartRecovery(c, cs).liveRecovery
    ensures cs.slot.Some? && cs.slot.value.plant.health < FullHealth ==>
              |StartRecovery(c, cs).liveRecovery| == |cs.liveRecovery| + 1
              && StartRecovery(c, cs).recoveryTask.value.plantId == cs.slot.value.id
              && StartRecovery(c, cs).recoveryTask.value in StartRecovery(c, cs).liveRecovery
    ensures StartRecovery(c, cs).(recoveryTask := cs.recoveryTask, liveRecovery := cs.liveRecovery) == cs
  {
    if cs.slot.Some? && cs.slot.value.plant.health < FullHealth {
      var t := StartRecovery(c, cs).recoveryTask.value;
      assert t !in cs.liveRecovery;
    }
  }

  /** Automatic pest control on one cell: a non-empty insect list is emptied
   *  (the entry stays), the pest-control flag is set and recovery starts. */
  function AutoPestControlCell(c: Cell, cs: CellState): CellState {
    if cs.insects.Some? && |cs.insects.value| > 0 then
      StartRecovery(c, cs.(insects := Some([]), pestControl := true))
    else cs
  }

  /** The elements of a list that are among the selected ones, in order. */
  function Picked(s: seq<Insect>, selected: seq<Insect>): (r: seq<Insect>)
    ensures forall i :: i in r <==> i in s && i in selected
  {
    if s == [] then []
    else Picked(s[..|s| - 1], selected) + (if s[|s| - 1] in selected then [s[|s| - 1]] else [])
  }

  /** `List.removeAll`: the elements of a list that are not among the given
   *  ones, in order. */
  function Without(s: seq<Insect>, removed: seq<Insect>): (r: seq<Insect>)
    ensures forall i :: i in r <==> i in s && i !in removed
    ensures forall i :: i !in removed ==> multiset(r)[i] == multiset(s)[i]
    ensures |r| <= |s|
  {
    if s == [] then []
    else
      var init := s[..|s| - 1];
      assert s == init + [s[|s| - 1]];
      Without(init, removed) + (if s[|s| - 1] in removed then [] else [s[|s| - 1]])
  }

  /** Removing the picked insects is removing the selected ones: the two
   *  lists agree on every element of the list. */
  lemma {:induction false} WithoutAgrees(s: seq<Insect>, a: seq<Insect>, b: seq<Insect>)
    requires forall i :: i in s ==> (i in a <==> i in b)
    ensures Without(s, a) == Without(s, b)
  {
    if s != [] {
      WithoutAgrees(s[..|s| - 1], a, b);
    }
  }

  /** Manual pest control on one cell: the insects of the cell's list that
   *  are among the selected ones are picked and removed; if any were, the
   *  pest-control flag is set and recovery starts. */
  function ManualPestControlCell(c: Cell, cs: CellState, selected: seq<Insect>): CellState {
    if cs.insects.Some? && |cs.insects.value| > 0 then
      var removed := Picked(cs.insects.value, selected);
      var cs1 := cs.(insects := Some(Without(cs.insects.value, removed)));
      if |removed| > 0 then StartRecovery(c, cs1.(pestControl := true)) else cs1
    else cs
  }

  /** Manual pest control leaves no selected insect on the cell, keeps every
   *  other insect with its multiplicity, sets the flag exactly when a
   *  selected insect was there, and keeps the cell's invariant. */
  lemma ManualPestControlOutcome(c: Cell, cs: CellState, selected: seq<Insect>, planted: nat)
    requires CellOk(c, cs, planted)
    ensures var r := ManualPestControlCell(c, cs, selected);
            && CellOk(c, r, planted)
            && r.slot == cs.slot && r.watering == cs.watering
            && r.insects.Some? == cs.insects.Some?
            && (cs.insects.Some? ==>
                  && (forall i :: i in r.insects.value ==> i !in selected)
                  && (forall i :: i !in selected ==> multiset(r.insects.value)[i] == multiset(cs.insects.value)[i])
                  && r.insects.value == Without(cs.insects.value, selected))
            && (r.pestControl <==> cs.pestControl || (cs.insects.Some? && exists i :: i in cs.insects.value && i in selected))
  {
    if cs.insects.Some? && |cs.insects.value| > 0 {
      var removed := Picked(cs.insects.value, selected);
      WithoutAgrees(cs.insects.value, removed, selected);
      var r := ManualPestControlCell(c, cs, selected);
      if |removed| > 0 {
        assert removed[0] in removed;
        RecoveryTasksAccumulate(c, cs.(insects := Some(Without(cs.insects.value, removed)), pestControl := true), planted);
      }
    }
  }

  /** Automatic pest control empties the list, keeps the cell's invariant, and
   *  sets the flag exactly when there were insects. */
  lemma AutoPestControlOutcome(c: Cell, cs: CellState, planted: nat)
    requires CellOk(c, cs, planted)
    ensures var r := AutoPestControlCell(c, cs);
            && CellOk(c, r, planted)
            && r.slot == cs.slot && r.watering == cs.watering
            && (cs.insects.Some? ==> r.insects == Some([]))
            && (cs.insects.None? ==> r == cs)
            && (r.pestControl <==> cs.pestControl || (cs.insects.Some? && |cs.insects.value| > 0))
  {
    if cs.insects.Some? && |cs.insects.value| > 0 {
      RecoveryTasksAccumulate(c, cs.(insects := Some([]), pestControl := true), planted);
    }
  }

  // ---------------------------------------------------------------- water

  /** Manual watering of one cell: the level rises by the amount and the
   *  watering flag is set; above 80 the plant loses half the excess and may
   *  die. An empty cell is unchanged. */
  function WaterCell(cs: CellState, amount: int): CellState {
    if cs.slot.None? then cs
    else if Overwatered(cs, amount) then DeathChecked(Watered(cs, amount))
    else Watered(cs, amount)
  }

  predicate Overwatered(cs: CellState, amount: int) {
    cs.slot.Some? && cs.slot.value.plant.waterLevel + amount > 80
  }

  /** Manual watering before the death check. */
  function Watered(cs: CellState, amount: int): CellState
    requires cs.slot.Some?
  {
    var s := cs.slot.value;
    var p := Water(s.plant, amount);
    var cs1 := cs.(slot := Some(s.(plant := p)), watering := true);
    if p.waterLevel > 80 then cs1.(slot := Some(s.(plant := DecreaseHealth(p, OverwaterDamage(p.waterLevel)))))
    else cs1
  }

  /** Watering a plant raises its level by exactly the amount; it costs
   *  health exactly when the new level exceeds 80, and then half the excess;
   *  the cell keeps its invariant. */
  lemma WaterCellOutcome(c: Cell, cs: CellState, amount: int, planted: nat)
    requires CellOk(c, cs, planted) && Alive(cs) && amount >= 0
    ensures var r := WaterCell(cs, amount);
            && CellOk(c, r, planted) && Alive(r)
            && (cs.slot.None? ==> r == cs)
            && (r.slot.Some? ==>
                  var p := cs.slot.value.plant;
                  var level := p.waterLevel + amount;
                  && r.watering
                  && r.slot.value.plant.waterLevel == level
                  && r.slot.value.plant.health ==
                       (if level > 80 then p.health - OverwaterDamage(level) else p.health))
            && (cs.slot.Some? && r.slot.None? <==>
                  cs.slot.Some? && cs.slot.value.plant.waterLevel + amount > 80
                  && cs.slot.value.plant.health <= OverwaterDamage(cs.slot.value.plant.waterLevel + amount))
  {
  }

  function NextWateringSerial(registered: Option<WateringTask>): nat {
    if registered.Some? then registered.value.serial + 1 else 0
  }

  /** `startAutomaticWatering`: the registered task is cancelled and a new
   *  one scheduled and registered. */
  function RearmWatering(c: Cell, cs: CellState): CellState {
    var t := WateringTask(c, NextWateringSerial(cs.wateringTask));
    var kept := if cs.wateringTask.Some? then cs.liveWatering - {cs.wateringTask.value} else cs.liveWatering;
    cs.(wateringTask := Some(t), liveWatering := kept + {t})
  }

  /** Re-arming leaves exactly one live watering task for the cell, the new
   *  one, which differs from every earlier task. */
  lemma RearmLeavesOneLive(c: Cell, cs: CellState, planted: nat)
    requires CellOk(c, cs, planted)
    ensures var r := RearmWatering(c, cs);
            && CellOk(c, r, planted)
            && r.liveWatering == {r.wateringTask.value}
            && (cs.wateringTask.Some? ==> r.wateringTask.value != cs.wateringTask.value)
            && r.(wateringTask := cs.wateringTask, liveWatering := cs.liveWatering) == cs
  {
  }

  /** One decay tick on one cell: the level falls by the temperature-scaled
   *  requirement; below 50 auto-watering is re-armed; below 30 the plant loses
   *  health to water stress and may die. */
  function DecayCell(c: Cell, cs: CellState, temperature: int): CellState {
    if cs.slot.None? then cs
    else if Stressed(cs, temperature) then DeathChecked(Dried(c, cs, temperature))
    else Dried(c, cs, temperature)
  }

  /** The plant's level after a decay tick. */
  function DrainedLevel(p: Plant, temperature: int): int {
    DecreaseWaterLevel(p, WaterReduction(p.waterRequirement, temperature)).waterLevel
  }

  predicate Stressed(cs: CellState, temperature: int) {
    cs.slot.Some? && DrainedLevel(cs.slot.value.plant, temperature) < 30
  }

  /** A decay tick up to the death check: the plant has lost water, below 50
   *  watering is re-armed, and below 30 the plant has lost health. */
  function Dried(c: Cell, cs: CellState, temperature: int): CellState
    requires cs.slot.Some?
  {
    var s := cs.slot.value;
    var p := DecreaseWaterLevel(s.plant, WaterReduction(s.plant.waterRequirement, temperature));
    var cs1 := cs.(slot := Some(s.(plant := p)));
    var cs2 := if p.waterLevel < 50 then RearmWatering(c, cs1) else cs1;
    if p.waterLevel < 30 then
      cs2.(slot := Some(s.(plant := DecreaseHealth(p, WaterStressImpact(p.waterLevel, temperature)))))
    else cs2
  }

  /** A decayed cell keeps its invariant, though its plant may be dead; only
   *  a stressed plant can be. */
  lemma DriedOk(c: Cell, cs: CellState, temperature: int, planted: nat)
    requires CellOk(c, cs, planted) && Alive(cs) && cs.slot.Some?
    ensures CellOk(c, Dried(c, cs, temperature), planted)
    ensures !Stressed(cs, temperature) ==> Alive(Dried(c, cs, temperature))
  {
    var s := cs.slot.value;
    var p := DecreaseWaterLevel(s.plant, WaterReduction(s.plant.waterRequirement, temperature));
    var cs1 := cs.(slot := Some(s.(plant := p)));
    if p.waterLevel < 50 {
      RearmLeavesOneLive(c, cs1, planted);
    }
  }

  /** A decay tick keeps the cell's invariant; the new level is the old one
   *  less the reduction, floored at 0; watering is re-armed exactly when the
   *  new level is below 50, and health falls exactly when it is below 30. */
  lemma DecayOutcome(c: Cell, cs: CellState, temperature: int, planted: nat)
    requires CellOk(c, cs, planted) && Alive(cs)
    ensures var r := DecayCell(c, cs, temperature);
            && CellOk(c, r, planted) && Alive(r)
            && (cs.slot.None? ==> r == cs)
            && (cs.slot.Some? ==>
                  var p := cs.slot.value.plant;
                  var reduction := WaterReduction(p.waterRequirement, temperature);
                  var level := if p.waterLevel >= reduction then p.waterLevel - reduction else 0;
                  && (r.wateringTask != cs.wateringTask <==> level < 50)
                  && (r.slot.Some? ==>
                        && r.slot.value.plant.waterLevel == level
                        && r.slot.value.plant.health ==
                             (if level < 30 then p.health - WaterStressImpact(level, temperature) else p.health)))
  {
    if cs.slot.Some? {
      DriedOk(c, cs, temperature, planted);
      var s := cs.slot.value;
      var p := DecreaseWaterLevel(s.plant, WaterReduction(s.plant.waterRequirement, temperature));
      var cs1 := cs.(slot := Some(s.(plant := p)));
      if p.waterLevel < 50 {
        RearmLeavesOneLive(c, cs1, planted);
      }
      if Stressed(cs, temperature) {
        DeathCheckedOutcome(c, Dried(c, cs, temperature), planted);
      }
    }
  }

  /** One firing of an auto-watering task: only a live task waters, and only a
   *  plant below 50 (looked up afresh in the cell), by `AutoWaterAmount`. */
  function AutoWaterCell(cs: CellState, t: WateringTask, temperature: int): CellState {
    if t in cs.liveWatering && cs.slot.Some? && cs.slot.value.plant.waterLevel < 50 then
      var s := cs.slot.value;
      var p := s.plant;
      cs.(slot := Some(s.(plant := Water(p, AutoWaterAmount(p.waterLevel, p.health, temperature)))),
          watering := true)
    else cs
  }

  /** Auto-watering never overwaters: a plant below 50 is raised by 23 to 25
   *  and stays below 75, so it never reaches the 80 where watering costs
   *  health; a cancelled task does nothing. */
  lemma AutoWateringNeverOverwaters(c: Cell, cs: CellState, t: WateringTask, temperature: int, planted: nat)
    requires CellOk(c, cs, planted) && Alive(cs)
    ensures var r := AutoWaterCell(cs, t, temperature);
            && CellOk(c, r, planted) && Alive(r)
            && (t !in cs.liveWatering ==> r == cs)
            && (r != cs ==>
                  var before := cs.slot.value.plant.waterLevel;
                  var after := r.slot.value.plant.waterLevel;
                  before < 50 && before + 23 <= after < 75 && r.watering)
  {
  }

  /** One firing of a recovery task: it heals the plant it captured, if that
   *  plant still stands in the cell and is below full health. */
  function RecoverCell(cs: CellState, t: RecoveryTask, temperature: int): CellState {
    if t in cs.liveRecovery && cs.slot.Some? && cs.slot.value.id == t.plantId
       && cs.slot.value.plant.health < FullHealth
    then
      var s := cs.slot.value;
      var p := s.plant;
      cs.(slot := Some(s.(plant := IncreaseHealth(p, RecoveryAmount(p.health, p.waterLevel, temperature)))))
    else cs
  }

  /** A recovery firing only ever raises the health of the plant it captured,
   *  by 1 to 10 and never above 100; a replanted cell is left alone. */
  lemma RecoveryOutcome(c: Cell, cs: CellState, t: RecoveryTask, temperature: int, planted: nat)
    requires CellOk(c, cs, planted) && Alive(cs)
    ensures var r := RecoverCell(cs, t, temperature);
            && CellOk(c, r, planted) && Alive(r)
            && (cs.slot.None? || cs.slot.value.id != t.plantId ==> r == cs)
            && (r != cs ==>
                  var h := cs.slot.value.plant.health;
                  var h' := r.slot.value.plant.health;
                  h < h' <= FullHealth && h' <= h + 10
                  && r == cs.(slot := Some(cs.slot.value.(plant := cs.slot.value.plant.(health := h')))))
  {
  }
}
