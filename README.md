# Garden simulation, modelled in Dafny

This project models the simulation core of a Java garden manager:
- an 8 x 8 grid of cells, each of which can hold one plant;
- five plant kinds (apple, cherry, lavender, bamboo, sunflower), built by a plant factory;
- insects that attack the plants, and automatic and manual pest control;
- health recovery after pest control;
- manual watering and overwatering damage;
- a water-decay tick driven by the temperature, with water-stress damage and automatic re-watering;
- a day counter that prints a performance report every 24 days.

The model has four layers:

- **Plant values and kinds.** `Plants` holds the plant record and its four health and water operations. `Insects` holds the insect damage tables and the pest-vulnerability lists. `PlantFactory` is the validating factory. `CherryTree`, `AppleTree`, `LavenderBush`, `BambooTree` and `SunflowerBush` are the five plant classes. Each is a Dafny class whose own field is updated in place, in Java `int` arithmetic.
- **Rules.** `GardenRules` holds the fixed rules that compute a value: plant names, the factory arguments the garden passes, the recovery amount, the water-decay and auto-watering multipliers (exactly, in tenths), water-stress and overwatering damage.
- **Cells and maps.** `GardenCells` describes what each operation does to one cell's entries in the garden's maps. `GardenGrid` lifts this to all of the maps, including the loops over all keys (`Sweep`) and the number of plants each loop kills (`Deaths`). `GardenReport` holds the performance report's census.
- **The garden.** `Garden.Garden` is the controller's state as a class: the plant, insect, watering-flag and pest-control-flag maps, the task registries, the temperature, the day counters and the statistics. Every operation is a method, and every loop is a `while` loop over a given visiting order of the map's keys. Each method is proved to change the maps exactly as the pure definition says and to keep the garden's invariant `Valid()`:
  - every plant stands on a grid cell;
  - no plant with health 0 is left standing;
  - insect and flag entries exist only on planted cells;
  - the temperature stays within -50..50;
  - the day label is one ahead of the days elapsed.

Timers, threads and randomness become explicit inputs:
- an insect attack gets its insect and target list as parameters;
- each loop gets the order in which the map is iterated;
- each firing of a scheduled task is a method call (`AutoWateringFiring`, `RecoveryFiring`, `ClearWateringFlag`, `ClearPestControlFlag`, `WaterDecayTick`, `DayTick`).

All paths below are relative to the repository root.

## Model

| member | source | states |
|---|---|---|
| Plants.NewPlant | Garden_Managment_System/Project/src/main/java/com/project/modules/Cherry.java:15-18 | a freshly built plant carries its kind's type tag and payload, full health 100 and water level 100 |
| Plants.DecreaseHealth | Garden_Managment_System/Project/src/main/java/com/project/controller/GardenSimulation.java:1539-1540 | health falls by the amount and never below 0; it reaches 0 exactly when the amount is at least the old health; nothing else changes |
| Plants.IncreaseHealth | Garden_Managment_System/Project/src/main/java/com/project/controller/GardenSimulation.java:862-868 | health rises by the amount and is capped at 100; nothing else changes |
| Plants.Water | Garden_Managment_System/Project/src/main/java/com/project/controller/GardenSimulation.java:1249 | the assumed `Plant.water`, as the garden calls it: the level rises by exactly the amount, with no upper bound, and nothing else changes |
| Plants.DecreaseWaterLevel | Garden_Managment_System/Project/src/main/java/com/project/controller/GardenSimulation.java:1511-1512 | the water level falls by the amount and never below 0; nothing else changes |
| Plants.Wrap32 | Garden_Managment_System/Project/src/main/java/com/project/modules/Cherry.java:36 | Java `int` wrap-around: it is the identity inside the `int` range and congruent to its input modulo 2^32 |
| Insects.DamageTablesAgree | Garden_Managment_System/Project/src/main/java/com/project/controller/GardenSimulation.java:217-245 | the insect list's damage table and the name-keyed damage map give every insect and type the same damage, and the map has exactly the four insects |
| Insects.VulnerabilitiesArePositiveDamage | Garden_Managment_System/Project/src/main/java/com/project/controller/GardenSimulation.java:357-370 | a type's vulnerability list names exactly the insects that do it positive damage, each once |
| PlantFactory.CreatePlant | Garden_Managment_System/Project/src/main/java/com/project/factory/PlantFactory.java:26-144 | no extra argument gives a missing-parameter error; a first argument of the wrong class gives an invalid-parameter error; otherwise the result is a plant of the requested type with the given name, water requirement, vulnerabilities and tolerances, at full health |
| PlantFactory.FixedConstants | Garden_Managment_System/Project/src/main/java/com/project/factory/PlantFactory.java:36-138 | each kind's fixed constants: Apple 200/12, Cherry 180/10, Lavender 20/30, Bamboo 250 with the argument as both growth rates, Sunflower 60/30; the accepted argument lands in the kind's own field |
| PlantFactory.OnlyFirstArgumentRead | Garden_Managment_System/Project/src/main/java/com/project/factory/PlantFactory.java:37-42 | arguments after the first never change the result |
| CherryTree.Cherry.constructor | Garden_Managment_System/Project/src/main/java/com/project/modules/Cherry.java:15-18 | the new cherry is tagged CHERRY and keeps every argument, including the fruit yield |
| CherryTree.Cherry.SetFruitYield | Garden_Managment_System/Project/src/main/java/com/project/modules/Cherry.java:28-31 | the yield becomes the given value |
| CherryTree.Cherry.Grow | Garden_Managment_System/Project/src/main/java/com/project/modules/Cherry.java:34-38 | the yield rises by 15 in `int` arithmetic |
| CherryTree.GrowYieldTimesAdds | Garden_Managment_System/Project/src/main/java/com/project/modules/Cherry.java:34-38 | n growth cycles add 15n modulo 2^32, and exactly 15n while the sum fits in an `int` |
| AppleTree.Apple.constructor | Garden_Managment_System/Project/src/main/java/com/project/modules/Apple.java:12-15 | the new apple is tagged APPLE and keeps every argument, including the fruit yield |
| AppleTree.Apple.SetFruitYield | Garden_Managment_System/Project/src/main/java/com/project/modules/Apple.java:25-28 | the yield becomes the given value |
| AppleTree.Apple.Grow | Garden_Managment_System/Project/src/main/java/com/project/modules/Apple.java:31-34 | the apple's own yield is left unchanged |
| BambooTree.Bamboo.constructor | Garden_Managment_System/Project/src/main/java/com/project/modules/Bamboo.java:19-22 | the new bamboo is tagged BAMBOO; the growth rate goes both to Tree and to its own field |
| BambooTree.Bamboo.SetGrowthRate | Garden_Managment_System/Project/src/main/java/com/project/modules/Bamboo.java:29-32 | only bamboo's own growth rate changes; Tree's copy keeps the constructor's value |
| BambooTree.Bamboo.Grow | Garden_Managment_System/Project/src/main/java/com/project/modules/Bamboo.java:35-38 | the own growth rate is left unchanged |
| LavenderBush.Lavender.constructor | Garden_Managment_System/Project/src/main/java/com/project/modules/Lavender.java:19-22 | the new lavender is tagged LAVENDER and keeps every argument, including the fragrance |
| LavenderBush.Lavender.SetFragrance | Garden_Managment_System/Project/src/main/java/com/project/modules/Lavender.java:29-32 | the fragrance becomes the given value |
| LavenderBush.Lavender.Grow | Garden_Managment_System/Project/src/main/java/com/project/modules/Lavender.java:35-38 | the fragrance is left unchanged |
| SunflowerBush.Sunflower.constructor | Garden_Managment_System/Project/src/main/java/com/project/modules/Sunflower.java:19-22 | the new sunflower is tagged SUNFLOWER and keeps every argument, including the heliotropic property |
| SunflowerBush.Sunflower.SetHeliotropic | Garden_Managment_System/Project/src/main/java/com/project/modules/Sunflower.java:29-32 | the property becomes the given value |
| SunflowerBush.Sunflower.Grow | Garden_Managment_System/Project/src/main/java/com/project/modules/Sunflower.java:35-38 | the property is left unchanged |
| GardenRules.TruncDiv | Garden_Managment_System/Project/src/main/java/com/project/controller/GardenSimulation.java:1511 | a Java `(int)` cast of a quotient truncates toward zero: the remainder lies in 0..b-1 for a non-negative dividend and in -(b-1)..0 for a negative one |
| GardenRules.NatToStringRoundTrip | Garden_Managment_System/Project/src/main/java/com/project/controller/GardenSimulation.java:1074 | the cell index printed into a plant's name reads back as the same number |
| GardenRules.AdditionalParam | Garden_Managment_System/Project/src/main/java/com/project/controller/GardenSimulation.java:1347-1362 | the extra factory argument the garden passes for each type is always of the class the factory accepts |
| GardenRules.PlantFor | Garden_Managment_System/Project/src/main/java/com/project/controller/GardenSimulation.java:1328-1345 | the garden's call to the factory never fails; the plant has the type, the name "TYPE index", water requirement 8 for a sunflower and 5 otherwise, the type's vulnerabilities, tolerance 15..35 and full health |
| GardenRules.RecoveryAmount | Garden_Managment_System/Project/src/main/java/com/project/controller/GardenSimulation.java:876-903 | the recovery amount is always between 1 and 10 |
| GardenRules.RecoveryAmountTiers | Garden_Managment_System/Project/src/main/java/com/project/controller/GardenSimulation.java:876-903 | a weaker plant never recovers less and a wetter plant never recovers less; health 25 and water 65 at 25 degrees give 10 |
| GardenRules.ColdBandUnreachable | Garden_Managment_System/Project/src/main/java/com/project/controller/GardenSimulation.java:1496-1509 | every temperature below 15 gets the 1.2 multiplier, so the 1.5 branch for below 10 is dead; the multiplier stays in 1.0..2.5 and exceeds 1.2 exactly above 25 degrees |
| GardenRules.WaterReduction | Garden_Managment_System/Project/src/main/java/com/project/controller/GardenSimulation.java:1511 | a decay tick takes between the requirement and 2.5 times the requirement |
| GardenRules.WaterReductionExamples | Garden_Managment_System/Project/src/main/java/com/project/controller/GardenSimulation.java:1496-1511 | requirement 5 at 40 degrees loses 12; requirement 8 at 5 degrees loses 9 |
| GardenRules.WaterStressImpact | Garden_Managment_System/Project/src/main/java/com/project/controller/GardenSimulation.java:1523-1537 | water-stress damage is 2..6 and includes the extra 2 exactly at extreme temperatures |
| GardenRules.WaterStressMonotone | Garden_Managment_System/Project/src/main/java/com/project/controller/GardenSimulation.java:1523-1537 | a drier plant never loses less health |
| GardenRules.WateringTempTenths | Garden_Managment_System/Project/src/main/java/com/project/controller/GardenSimulation.java:1602-1609 | the auto-watering temperature multiplier lies in 0.9..1.5 |
| GardenRules.WateringColdBandUnreachable | Garden_Managment_System/Project/src/main/java/com/project/controller/GardenSimulation.java:1602-1609 | every temperature below 15 gets 0.9, so the 0.7 branch is dead; the multiplier exceeds 1.0 exactly above 25 degrees |
| GardenRules.HealthTenths | Garden_Managment_System/Project/src/main/java/com/project/controller/GardenSimulation.java:1611-1615 | the health multiplier lies in 1.0..1.5 and is 1.0 exactly at health 50 or more |
| GardenRules.HealthMultiplierMonotone | Garden_Managment_System/Project/src/main/java/com/project/controller/GardenSimulation.java:1611-1615 | a weaker plant never gets a smaller health multiplier |
| GardenRules.AutoWaterAmount | Garden_Managment_System/Project/src/main/java/com/project/controller/GardenSimulation.java:1566-1615 | one auto-watering firing adds at most 25; a plant below 50 gets at least 23 and stays below 75 |
| GardenRules.OverwaterDamage | Garden_Managment_System/Project/src/main/java/com/project/controller/GardenSimulation.java:1264-1266 | overwatering damage is half the excess over 80, rounded down |
| GardenCells.DeathCheckedOutcome | Garden_Managment_System/Project/src/main/java/com/project/controller/GardenSimulation.java:1617-1624 | the death check removes the plant, its insects and both flags exactly when health is 0 or below, and otherwise changes nothing |
| GardenCells.SeverityOfHit | Garden_Managment_System/Project/src/main/java/com/project/controller/GardenSimulation.java:271-289 | a hit is logged as severe exactly when the damage exceeds 15 or the health left is below 30; only a ladybug on lavender does more than 15 |
| GardenCells.HitOutcome | Garden_Managment_System/Project/src/main/java/com/project/controller/GardenSimulation.java:271-296 | one hit keeps the cell sound and leaves no dead plant; it removes the plant exactly when it kills; it leaves the tasks alone |
| GardenCells.Harmful | Garden_Managment_System/Project/src/main/java/com/project/controller/GardenSimulation.java:936 | the insects of the list that harm the type, in order |
| GardenCells.AttackAllOutcome | Garden_Managment_System/Project/src/main/java/com/project/controller/GardenSimulation.java:932-954 | after a manual attack, the plant survives exactly when its health exceeds the total damage of the harmful insects, with that much less health and those insects appended to its list |
| GardenCells.KilledAtMostOnce | Garden_Managment_System/Project/src/main/java/com/project/controller/GardenSimulation.java:932-954 | the hits of one manual attack kill a plant at most once, and only if the plant is gone afterwards |
| GardenCells.AttackAllKeepsCell | Garden_Managment_System/Project/src/main/java/com/project/controller/GardenSimulation.java:932-954 | a manual attack keeps the cell sound and leaves no dead plant |
| GardenCells.RecoveryTasksAccumulate | Garden_Managment_System/Project/src/main/java/com/project/controller/GardenSimulation.java:858-874 | a damaged plant gets a new live recovery task; earlier tasks stay live because they are never cancelled; only the task entries change |
| GardenCells.Picked | Garden_Managment_System/Project/src/main/java/com/project/controller/GardenSimulation.java:794-809 | the insects of the cell's list that are among the selected ones |
| GardenCells.Without | Garden_Managment_System/Project/src/main/java/com/project/controller/GardenSimulation.java:811 | `removeAll`: exactly the non-removed elements stay, each as often as before |
| GardenCells.WithoutAgrees | Garden_Managment_System/Project/src/main/java/com/project/controller/GardenSimulation.java:794-811 | removing the picked insects is the same as removing the selected insects |
| GardenCells.ManualPestControlOutcome | Garden_Managment_System/Project/src/main/java/com/project/controller/GardenSimulation.java:790-836 | no selected insect is left; every other insect stays; the flag is raised and recovery starts exactly when something was removed |
| GardenCells.AutoPestControlOutcome | Garden_Managment_System/Project/src/main/java/com/project/controller/GardenSimulation.java:313-346 | a non-empty insect list is emptied, the flag raised and recovery started; an empty list changes nothing |
| GardenCells.WaterCellOutcome | Garden_Managment_System/Project/src/main/java/com/project/controller/GardenSimulation.java:1247-1272 | watering raises the level by exactly the amount and sets the flag; above 80 the plant loses half the excess, and it is removed if that kills it |
| GardenCells.RearmLeavesOneLive | Garden_Managment_System/Project/src/main/java/com/project/controller/GardenSimulation.java:1558-1600 | re-arming auto-watering leaves exactly one live watering task for the cell, the new one |
| GardenCells.DriedOk | Garden_Managment_System/Project/src/main/java/com/project/controller/GardenSimulation.java:1511-1541 | after the water loss and stress damage the cell is still sound; a plant that was not stressed is still alive |
| GardenCells.DecayOutcome | Garden_Managment_System/Project/src/main/java/com/project/controller/GardenSimulation.java:1487-1545 | a decay tick takes exactly the water reduction (not below 0); it re-arms auto-watering below 50; it applies stress damage below 30 and removes the plant if that kills it |
| GardenCells.AutoWateringNeverOverwaters | Garden_Managment_System/Project/src/main/java/com/project/controller/GardenSimulation.java:1566-1597 | only the cell's live task waters; it waters only a plant below 50, which ends below 75 and is never overwatered |
| GardenCells.RecoveryOutcome | Garden_Managment_System/Project/src/main/java/com/project/controller/GardenSimulation.java:862-870 | a recovery firing only raises the health of the plant it captured, to at most 100, and only while that plant still stands in the cell |
| GardenGrid.ClearGridOk | Garden_Managment_System/Project/src/main/java/com/project/controller/GardenSimulation.java:1043-1051 | removal deletes the key from the plant, insect and both flag maps, and keeps the grid sound |
| GardenGrid.PlantGridOk | Garden_Managment_System/Project/src/main/java/com/project/controller/GardenSimulation.java:1072-1076 | planting on an empty cell changes only that cell and keeps the grid sound |
| GardenGrid.HitGridSteps | Garden_Managment_System/Project/src/main/java/com/project/controller/GardenSimulation.java:271-296 | a hit lands exactly when the cell holds a plant the insect harms; it counts a death exactly when it kills |
| GardenGrid.WaterGridLost | Garden_Managment_System/Project/src/main/java/com/project/controller/GardenSimulation.java:1263-1272 | watering counts a death exactly when the level exceeds 80 and the overwatering damage kills |
| GardenGrid.DecayGridLost | Garden_Managment_System/Project/src/main/java/com/project/controller/GardenSimulation.java:1523-1544 | a decay tick counts a death exactly when the drained level is below 30 and the stress damage kills |
| GardenGrid.AutoWaterGridOk | Garden_Managment_System/Project/src/main/java/com/project/controller/GardenSimulation.java:1566-1597 | an auto-watering firing changes only its own cell and keeps the grid sound |
| GardenGrid.RecoverGridOk | Garden_Managment_System/Project/src/main/java/com/project/controller/GardenSimulation.java:862-870 | a recovery firing changes only its own cell and keeps the grid sound |
| GardenGrid.WateringOffOk | Garden_Managment_System/Project/src/main/java/com/project/controller/GardenSimulation.java:1256-1261 | removing the watering symbol changes only that cell's flag |
| GardenGrid.PestControlOffOk | Garden_Managment_System/Project/src/main/java/com/project/controller/GardenSimulation.java:333-343 | removing the pest-control symbol changes only that cell's flag |
| GardenGrid.RuleOk | Garden_Managment_System/Project/src/main/java/com/project/controller/GardenSimulation.java:1617-1624 | every per-cell step leaves a sound cell with no dead plant |
| GardenGrid.StepGridOk | Garden_Managment_System/Project/src/main/java/com/project/controller/GardenSimulation.java:1617-1624 | every per-cell step keeps the whole grid sound and free of dead plants |
| GardenGrid.SweepCell | Garden_Managment_System/Project/src/main/java/com/project/controller/GardenSimulation.java:1247-1276 | a loop over distinct keys changes each visited cell by the step's rule, and no other cell, whatever the visiting order |
| GardenGrid.SweepOk | Garden_Managment_System/Project/src/main/java/com/project/controller/GardenSimulation.java:1484-1547 | a loop of steps keeps the grid sound and free of dead plants |
| GardenGrid.HitGridOk | Garden_Managment_System/Project/src/main/java/com/project/controller/GardenSimulation.java:267-297 | a random hit keeps the grid sound and is the one-insect case of the manual attack step |
| GardenReport.TallyPlants | Garden_Managment_System/Project/src/main/java/com/project/controller/GardenSimulation.java:1404-1420 | the report loop computes the census: the three bands, both sums and the per-type counts |
| GardenReport.TallyBands | Garden_Managment_System/Project/src/main/java/com/project/controller/GardenSimulation.java:1410-1416 | every plant falls in exactly one health band |
| GardenReport.TallyDistribution | Garden_Managment_System/Project/src/main/java/com/project/controller/GardenSimulation.java:1404-1407 | the per-type statistics count every plant once, under its own type |
| GardenReport.TallyHealthFloor | Garden_Managment_System/Project/src/main/java/com/project/controller/GardenSimulation.java:1410-1418 | plants that are not dying add at least 50 each to the health sum |
| GardenReport.AlertExactly | Garden_Managment_System/Project/src/main/java/com/project/controller/GardenSimulation.java:1422-1459 | the critical alert shows exactly when some plant is dying or the garden is empty; the average-health test adds nothing |
| GardenReport.EnumeratesCard | Garden_Managment_System/Project/src/main/java/com/project/controller/GardenSimulation.java:1396-1405 | an order that visits every key once is as long as the map, so the report loop visits exactly `plantMap.size()` plants |
| Garden.Garden.constructor | Garden_Managment_System/Project/src/main/java/com/project/controller/GardenSimulation.java:48-67 | a new garden has empty maps, no selection, 25 degrees, day 1 and zeroed counters |
| Garden.Garden.SelectPlantType | Garden_Managment_System/Project/src/main/java/com/project/controller/GardenSimulation.java:542-550 | the selected type becomes the toggle's type, or none |
| Garden.Garden.SetTemperature | Garden_Managment_System/Project/src/main/java/com/project/controller/GardenSimulation.java:1304-1307 | the temperature becomes the spinner's value, within -50..50 |
| Garden.Garden.CreatePlant | Garden_Managment_System/Project/src/main/java/com/project/controller/GardenSimulation.java:1328-1345 | counts one more planted plant and returns the factory's plant for the type and cell |
| Garden.Garden.PlantAt | Garden_Managment_System/Project/src/main/java/com/project/controller/GardenSimulation.java:1072-1085 | planting succeeds exactly when a type is selected and the cell is empty, and then adds the factory's plant; an occupied cell and a missing selection change nothing |
| Garden.Garden.Remove | Garden_Managment_System/Project/src/main/java/com/project/controller/GardenSimulation.java:1043-1061 | removes exactly when the cell holds a plant, clearing it from all four maps |
| Garden.Garden.CheckAndHandleDeath | Garden_Managment_System/Project/src/main/java/com/project/controller/GardenSimulation.java:1617-1624 | a plant at health 0 or below is removed from all four maps and counted as died |
| Garden.Garden.InsectHit | Garden_Managment_System/Project/src/main/java/com/project/controller/GardenSimulation.java:271-296 | one insect hit: damage, the insect recorded, the severity the log uses, and the death check with its count |
| Garden.Garden.RandomInsectAttack | Garden_Managment_System/Project/src/main/java/com/project/controller/GardenSimulation.java:256-299 | on an empty garden nothing happens; otherwise the insect hits each target in turn, deaths are counted, and pest control is scheduled |
| Garden.Garden.AttackCell | Garden_Managment_System/Project/src/main/java/com/project/controller/GardenSimulation.java:933-954 | (corrected, see ## Findings) the selected insects hit one plant in order and its maps end as the source's do; its death is counted at most once, where the source counts it again on every later harmful hit |
| Garden.Garden.ManualInsectAttack | Garden_Managment_System/Project/src/main/java/com/project/controller/GardenSimulation.java:923-957 | (corrected, see ## Findings) with a non-empty selection every plant is attacked, and the deaths counted are the plants the attack kills; the source counts a death more than once and stops after the first removal when keys remain |
| Garden.Garden.StartHealthRecovery | Garden_Managment_System/Project/src/main/java/com/project/controller/GardenSimulation.java:858-874 | a damaged plant gets a new recovery task |
| Garden.Garden.AutoPestControlAt | Garden_Managment_System/Project/src/main/java/com/project/controller/GardenSimulation.java:317-345 | one cell of automatic pest control |
| Garden.Garden.AutomaticPestControl | Garden_Managment_System/Project/src/main/java/com/project/controller/GardenSimulation.java:313-346 | every cell with insects is cleared and flagged, and gets recovery |
| Garden.Garden.PickSelected | Garden_Managment_System/Project/src/main/java/com/project/controller/GardenSimulation.java:794-809 | the loop picks exactly the cell's insects that are among the selected ones |
| Garden.Garden.ManualPestControlAt | Garden_Managment_System/Project/src/main/java/com/project/controller/GardenSimulation.java:791-836 | one cell of manual pest control |
| Garden.Garden.ManualPestControl | Garden_Managment_System/Project/src/main/java/com/project/controller/GardenSimulation.java:784-839 | a non-empty selection counts one application and removes the selected insects everywhere; an empty selection changes nothing |
| Garden.Garden.ClearPestControlFlag | Garden_Managment_System/Project/src/main/java/com/project/controller/GardenSimulation.java:827-832 | the delayed firing that removes a pest-control symbol |
| Garden.Garden.RecoveryFiring | Garden_Managment_System/Project/src/main/java/com/project/controller/GardenSimulation.java:862-870 | one firing of a recovery task |
| Garden.Garden.WaterPlant | Garden_Managment_System/Project/src/main/java/com/project/controller/GardenSimulation.java:1248-1272 | one plant watered, with overwatering damage and a counted death |
| Garden.Garden.ManualWater | Garden_Managment_System/Project/src/main/java/com/project/controller/GardenSimulation.java:1244-1276 | (corrected, see ## Findings) the amount is added to the water total; every plant is watered, and the deaths counted are the plants overwatering kills; the source stops after the first removal when keys remain |
| Garden.Garden.ClearWateringFlag | Garden_Managment_System/Project/src/main/java/com/project/controller/GardenSimulation.java:1256-1261 | the delayed firing that removes a watering symbol |
| Garden.Garden.StartAutomaticWatering | Garden_Managment_System/Project/src/main/java/com/project/controller/GardenSimulation.java:1558-1600 | the cell's registered watering task is cancelled and a new one registered |
| Garden.Garden.DecayPlant | Garden_Managment_System/Project/src/main/java/com/project/controller/GardenSimulation.java:1489-1545 | one plant's decay tick with its counted death |
| Garden.Garden.WaterDecayTick | Garden_Managment_System/Project/src/main/java/com/project/controller/GardenSimulation.java:1484-1547 | (corrected, see ## Findings) every plant decays, and the deaths counted are the plants water stress kills; the source stops after the first removal when entries remain |
| Garden.Garden.AutoWateringFiring | Garden_Managment_System/Project/src/main/java/com/project/controller/GardenSimulation.java:1566-1597 | one firing of an auto-watering task |
| Garden.Garden.GetState | Garden_Managment_System/Project/src/main/java/com/project/controller/GardenSimulation.java:1394-1466 | the report holds the day, the counts, the census of the plants and the alert; the per-type statistics are replaced by the census's; the three bands together and the statistics each count exactly the garden's plants |
| Garden.Garden.DayTick | Garden_Managment_System/Project/src/main/java/com/project/controller/GardenSimulation.java:1370-1385 | the day label and the elapsed days each advance by one; a report is made exactly every 24th day |
| Findings.CapturedPlantAttack | Garden_Managment_System/Project/src/main/java/com/project/controller/GardenSimulation.java:932-954 | the manual attack as written keeps hitting the captured plant and counts at most one death per hit |
| Findings.DeadPlantCountedPerHit | Garden_Managment_System/Project/src/main/java/com/project/controller/GardenSimulation.java:933-953 | as written, a plant that is already dead is counted again on every further harmful hit |
| Findings.ManualAttackCountsDeathTwice | Garden_Managment_System/Project/src/main/java/com/project/controller/GardenSimulation.java:932-954 | a cherry at health 15 attacked by an aphid and a grasshopper is counted dead twice as written, and once by the corrected attack |
| Findings.FailFastSweep | Garden_Managment_System/Project/src/main/java/com/project/controller/GardenSimulation.java:1247-1276 | a key-set loop as written throws when a visit removes a plant and keys remain |
| Findings.WaterLoopStopsAfterDeath | Garden_Managment_System/Project/src/main/java/com/project/controller/GardenSimulation.java:1247-1276 | two plants watered by 100 where the first visited dies: as written the second is never watered; the corrected loop waters it |

## Left out

- User interface, layout, logging, log files and emojis (including each plant class's static `getEmoji`): they do not change the simulation state. The severity a log line would use is returned by `InsectHit`.
- Threads, timers and the scheduler: each delayed or periodic firing is a method that is called explicitly. Interleavings and the delays are not modelled.
- Randomness: the attacking insect, the shuffled target list and the number of targets are parameters of `RandomInsectAttack`.
- HashMap iteration order: each loop takes the visiting order as a parameter (`Enumerates`). The model does not prove that the report is independent of that order.
- Floating point: the multipliers are exact tenths. The products that matter (requirements 5 and 8, up to 75 units of water needed) truncate to the same integers as the `double` expressions.
- Plant, Tree, Bush, Insect and PlantType are not part of this model. Their assumed behaviour is in `Plants` and `Insects`:
  - a new plant has health 100 and water level 100;
  - health is clamped to 0..100;
  - the water level has no upper bound and is clamped at 0 from below;
  - insects are the four named in the garden's tables.
- `super.grow()`, `dailyCheck` and `displaySpecialCareInstructions`: they call into Tree, Bush, the logger and standard output, which are not part of this model.
- The per-type statistics are keyed by `PlantType` rather than by the type's name string. The two are in one-to-one correspondence through `TypeName`.
- The survival-rate and average percentages are formatted text. The report carries the sums and counts they are computed from.
- The statistics counters (`totalPlanted`, `totalDied`, `totalWaterAdded`, `totalPestControls`, `daysElapsed`) are unbounded. Java's 32-bit overflow after 2^31 events is not modelled.
- A recovery task registered for a cell replaces the registry entry but is never cancelled. The model keeps every started task live (`liveRecovery`) and does not model their end.
- PlantFactory.CreatePlant: a `null` first extra argument is not modelled, because the argument type has no null. For APPLE, CHERRY and BAMBOO the `(Integer)` unboxing throws NullPointerException rather than IllegalArgumentException. For LAVENDER and SUNFLOWER the `(String)` cast accepts null, and the factory builds a plant whose fragrance or heliotropic value is null.
- The decay tick's `plant != null` test is dropped: the plant map never holds null.

## Findings

| source | as written | input that shows it | evidently intended | confidence | as-written member | corrected member |
|---|---|---|---|---|---|---|
| Garden_Managment_System/Project/src/main/java/com/project/controller/GardenSimulation.java:932-954 | the manual attack keeps hitting the plant it captured after the plant has been removed, and calls the death check on every hit, so one death is counted once per remaining harmful insect | a cherry at health 15 with Aphid and Grasshopper selected: the aphid kills it (counted), then the grasshopper hits the removed plant and it is counted again, so the died total rises by 2 | stop attacking a plant once it is removed, counting each death once | not executed | Findings.ManualAttackCountsDeathTwice | GardenCells.KilledAtMostOnce, Garden.Garden.AttackCell, Garden.Garden.ManualInsectAttack |
| Garden_Managment_System/Project/src/main/java/com/project/controller/GardenSimulation.java:1247-1276 | manual watering (and likewise the manual attack at 932 and the decay tick at 1484-1545) removes a dead plant from the map it is iterating over by key set or entry set; HashMap's fail-fast iterator then throws ConcurrentModificationException at the next step, and the remaining plants are skipped | two plants, the first visited at health 10 and water 100, the second dry; water by 100: the first dies of overwatering and the second is never watered | visit every plant, removing dead ones without breaking the iteration | not executed | Findings.WaterLoopStopsAfterDeath | GardenGrid.SweepCell, Garden.Garden.ManualWater, Garden.Garden.WaterDecayTick, Garden.Garden.ManualInsectAttack |
