/** The insect catalogue of the garden: the four insects, the damage each does
 *  to each plant type, and the per-type vulnerability lists. The garden keeps
 *  the damage table twice (once inside its Insect objects, once as a map keyed
 *  by names); both copies are stated here and shown to agree.
 */
module Insects {
  import opened Plants

  datatype Insect = Aphid | Ant | Grasshopper | Ladybug

  function Name(i: Insect): string {
    match i
    case Aphid => "Aphid"
    case Ant => "Ant"
    case Grasshopper => "Grasshopper"
    case Ladybug => "Ladybug"
  }

  /** The catalogue in the order the garden builds it; the random attack picks
   *  one of its entries. */
  const Catalogue: seq<Insect> := [Aphid, Ant, Grasshopper, Ladybug]

  /** `Insect.getDamage`: the damage stored in the insect's own table, 0 for a
   *  plant type it has no entry for (Insect is not part of this model; a missing
   *  entry is taken to mean harmless). */
  function Damage(i: Insect, t: PlantType): nat {
    match i
    case Aphid => (match t case APPLE => 10 case CHERRY => 15 case SUNFLOWER => 12 case _ => 0)
    case Ant => (match t case APPLE => 8 case BAMBOO => 12 case _ => 0)
    case Grasshopper => (match t case CHERRY => 10 case BAMBOO => 7 case SUNFLOWER => 15 case _ => 0)
    case Ladybug => (match t case LAVENDER => 20 case _ => 0)
  }

  /** The second copy of the table: insect name to (type name to damage). */
  const InsectDamageMap: map<string, map<string, nat>> := map[
    "Aphid" := map["APPLE" := 10, "CHERRY" := 15, "SUNFLOWER" := 12],
    "Ant" := map["APPLE" := 8, "BAMBOO" := 12],
    "Grasshopper" := map["CHERRY" := 10, "BAMBOO" := 7, "SUNFLOWER" := 15],
    "Ladybug" := map["LAVENDER" := 20]
  ]

  /** A lookup in the name-keyed table, 0 where an entry is missing. */
  function MapDamage(insectName: string, typeName: string): nat {
    if insectName in InsectDamageMap && typeName in InsectDamageMap[insectName]
    then InsectDamageMap[insectName][typeName]
    else 0
  }

  /** The vulnerability list the garden hands to every new plant of a type. */
  function Vulnerabilities(t: PlantType): seq<string> {
    match t
    case APPLE => ["Aphid", "Ant"]
    case CHERRY => ["Aphid", "Grasshopper"]
    case LAVENDER => ["Ladybug"]
    case BAMBOO => ["Ant", "Grasshopper"]
    case SUNFLOWER => ["Aphid", "Grasshopper"]
  }

  /** Both copies of the damage table give every insect the same damage for
   *  every plant type, and the name-keyed copy has an entry for exactly the
   *  four catalogue insects. */
  lemma DamageTablesAgree()
    ensures forall i: Insect, t: PlantType :: MapDamage(Name(i), TypeName(t)) == Damage(i, t)
    ensures forall s :: s in InsectDamageMap <==> exists i: Insect :: Name(i) == s
  {
    forall i: Insect, t: PlantType
      ensures MapDamage(Name(i), TypeName(t)) == Damage(i, t)
    {
      match i
      case Aphid =>
        assert InsectDamageMap["Aphid"] == map["APPLE" := 10, "CHERRY" := 15, "SUNFLOWER" := 12];
      case Ant =>
        assert InsectDamageMap["Ant"] == map["APPLE" := 8, "BAMBOO" := 12];
      case Grasshopper =>
        assert InsectDamageMap["Grasshopper"] == map["CHERRY" := 10, "BAMBOO" := 7, "SUNFLOWER" := 15];
      case Ladybug =>
        assert InsectDamageMap["Ladybug"] == map["LAVENDER" := 20];
    }
    forall s | s in InsectDamageMap
      ensures exists i: Insect :: Name(i) == s
    {
      if s == "Aphid" { assert Name(Aphid) == s; }
      else if s == "Ant" { assert Name(Ant) == s; }
      else if s == "Grasshopper" { assert Name(Grasshopper) == s; }
      else { assert Name(Ladybug) == s; }
    }
  }

  /** A type's vulnerability list names exactly the insects that do it damage,
   *  each once. */
  lemma VulnerabilitiesArePositiveDamage(t: PlantType)
    ensures forall i: Insect :: Name(i) in Vulnerabilities(t) <==> Damage(i, t) > 0
    ensures forall s :: s in Vulnerabilities(t) ==> exists i: Insect :: Name(i) == s
    ensures forall j, k :: 0 <= j < k < |Vulnerabilities(t)| ==> Vulnerabilities(t)[j] != Vulnerabilities(t)[k]
  {
    forall s | s in Vulnerabilities(t)
      ensures exists i: Insect :: Name(i) == s
    {
      if s == "Aphid" { assert Name(Aphid) == s; }
      else if s == "Ant" { assert Name(Ant) == s; }
      else if s == "Grasshopper" { assert Name(Grasshopper) == s; }
      else { assert Name(Ladybug) == s; }
    }
  }
}
