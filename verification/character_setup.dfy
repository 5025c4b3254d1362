// Setting up a character's traits: plot points, the six attributes, the
// nineteen skills and the three distinction slots, each added only where
// the character does not have it yet. A trait handler is a map from trait
// key to trait; a trait is "there" when its key is in the map.

module CharacterSetup {
  import opened Wrappers
  import opened Strings

  /** A stored trait: display name, trait type, base die (or count), optional minimum, description. */
  datatype Trait = Trait(name: string, traitType: string, base: int, min: Option<int>, desc: string)

  /** One row of a defaults table: key, display name, description. */
  datatype Default = Default(key: string, name: string, desc: string)

  const Attributes: seq<Default> := [
    Default("prowess", "Prowess", "Strength, endurance and ability to fight"),
    Default("finesse", "Finesse", "Dexterity and agility"),
    Default("leadership", "Leadership", "Capacity as a leader"),
    Default("social", "Social", "Charisma and social navigation"),
    Default("acuity", "Acuity", "Perception and information processing"),
    Default("erudition", "Erudition", "Learning and recall ability")
  ]

  const Skills: seq<Default> := [
    Default("administration", "Administration", "Organizing affairs of large groups"),
    Default("arcana", "Arcana", "Knowledge of magic"),
    Default("athletics", "Athletics", "General physical feats"),
    Default("dexterity", "Dexterity", "Precision physical feats"),
    Default("diplomacy", "Diplomacy", "Protocol and high politics"),
    Default("direction", "Direction", "Leading in non-combat"),
    Default("exploration", "Exploration", "Wilderness and ruins"),
    Default("fighting", "Fighting", "Melee combat"),
    Default("influence", "Influence", "Personal persuasion"),
    Default("learning", "Learning", "Education and research"),
    Default("making", "Making", "Crafting and building"),
    Default("medicine", "Medicine", "Healing and medical knowledge"),
    Default("perception", "Perception", "Awareness and searching"),
    Default("performance", "Performance", "Entertainment arts"),
    Default("presentation", "Presentation", "Style and bearing"),
    Default("rhetoric", "Rhetoric", "Public speaking"),
    Default("seafaring", "Seafaring", "Sailing and navigation"),
    Default("shooting", "Shooting", "Ranged combat"),
    Default("warfare", "Warfare", "Military leadership and strategy")
  ]

  const Distinctions: seq<Default> := [
    Default("concept", "Character Concept", "Core character concept (e.g. Bold Adventurer)"),
    Default("culture", "Cultural Background", "Character's cultural origin"),
    Default("reputation", "Reputation", "How others perceive the character")
  ]

  /** Attributes start at d6 ("typical person"), skills at d4 ("untrained"), distinctions at d8. */
  const AttributeDie := 6
  const SkillDie := 4
  const DistinctionDie := 8

  const PlotPointsKey := "plot_points"
  /** A counter starting at one plot point that cannot go below zero. */
  const PlotPointsTrait := Trait("Plot Points", "counter", 1, Some(0), "")

  /** The static trait a defaults row adds. */
  function StaticTrait(d: Default, base: int): Trait
  {
    Trait(d.name, "static", base, None, d.desc)
  }

  predicate DistinctKeys(table: seq<Default>)
  {
    forall i, j :: 0 <= i < j < |table| ==> table[i].key != table[j].key
  }

  /**
   * The handler after the first `i` rows of `table` have been offered to it:
   * a row whose key is missing is added, a present key is left alone.
   */
  function WithDefaults(m: map<string, Trait>, table: seq<Default>, base: int, i: nat): (r: map<string, Trait>)
    requires i <= |table|
    ensures forall k :: k in m ==> k in r && r[k] == m[k]
    ensures forall j :: 0 <= j < i ==> table[j].key in r
  {
    if i == 0 then m
    else
      var prev := WithDefaults(m, table, base, i - 1);
      var d := table[i - 1];
      if d.key in prev then prev else prev[d.key := StaticTrait(d, base)]
  }

  /** The change notes for the first `i` rows: one per row whose key was missing, in table order. */
  function AddedNotes(m: map<string, Trait>, table: seq<Default>, base: int, prefix: string, i: nat): (r: seq<string>)
    requires i <= |table|
    ensures |r| <= i
  {
    if i == 0 then []
    else
      var d := table[i - 1];
      AddedNotes(m, table, base, prefix, i - 1) + (if d.key in WithDefaults(m, table, base, i - 1) then [] else [prefix + d.name])
  }

  /** A key that no offered row carries is added only if it was there already. */
  lemma {:induction false} OnlyTableKeys(m: map<string, Trait>, table: seq<Default>, base: int, i: nat, k: string)
    requires i <= |table|
    requires k !in m && forall j :: 0 <= j < i ==> table[j].key != k
    ensures k !in WithDefaults(m, table, base, i)
  {
    if i > 0 {
      OnlyTableKeys(m, table, base, i - 1, k);
    }
  }

  /** With distinct keys, a row whose key was missing ends up holding exactly its default. */
  lemma {:induction false} DefaultAdded(m: map<string, Trait>, table: seq<Default>, base: int, i: nat, j: nat)
    requires i <= |table| && DistinctKeys(table)
    requires j < i && table[j].key !in m
    ensures WithDefaults(m, table, base, i)[table[j].key] == StaticTrait(table[j], base)
  {
    var prev := WithDefaults(m, table, base, i - 1);
    var d := table[i - 1];
    if j < i - 1 {
      DefaultAdded(m, table, base, i - 1, j);
      assert d.key != table[j].key && table[j].key in prev;
      if d.key in prev {
        assert WithDefaults(m, table, base, i) == prev;
      } else {
        assert WithDefaults(m, table, base, i) == prev[d.key := StaticTrait(d, base)];
      }
    } else {
      OnlyTableKeys(m, table, base, j, d.key);
      assert d == table[j] && d.key !in prev;
    }
  }

  /** When every key is already there, nothing is added and nothing is noted — and only then. */
  lemma {:induction false} NothingMissing(m: map<string, Trait>, table: seq<Default>, base: int, prefix: string, i: nat)
    requires i <= |table|
    ensures (forall j :: 0 <= j < i ==> table[j].key in m) ==> WithDefaults(m, table, base, i) == m
    ensures AddedNotes(m, table, base, prefix, i) == [] <==> forall j :: 0 <= j < i ==> table[j].key in m
  {
    if i > 0 {
      NothingMissing(m, table, base, prefix, i - 1);
      var prev := WithDefaults(m, table, base, i - 1);
      var d := table[i - 1];
      if d.key !in m && d.key in prev {
        if forall j :: 0 <= j < i - 1 ==> table[j].key != d.key {
          OnlyTableKeys(m, table, base, i - 1, d.key);
          assert false;
        }
      }
    }
  }

  /** Offering the table a second time changes nothing. */
  lemma WithDefaultsIdempotent(m: map<string, Trait>, table: seq<Default>, base: int, prefix: string)
    ensures WithDefaults(WithDefaults(m, table, base, |table|), table, base, |table|) == WithDefaults(m, table, base, |table|)
    ensures AddedNotes(WithDefaults(m, table, base, |table|), table, base, prefix, |table|) == []
  {
    NothingMissing(WithDefaults(m, table, base, |table|), table, base, prefix, |table|);
  }

  /** A trait handler: the traits stored under one attribute key of the character. */
  class TraitHandler {
    var data: map<string, Trait>

    constructor(data: map<string, Trait>)
      ensures this.data == data
    {
      this.data := data;
    }
  }

  /**
   * One loop of `initialize_traits`: every row of `table` whose key the
   * handler lacks is added as a static trait with the given base die, and
   * a note "<prefix><name>" is recorded for it.
   */
  method AddDefaults(h: TraitHandler, table: seq<Default>, base: int, prefix: string) returns (notes: seq<string>)
    modifies h
    ensures h.data == WithDefaults(old(h.data), table, base, |table|)
    ensures notes == AddedNotes(old(h.data), table, base, prefix, |table|)
  {
    notes := [];
    var i := 0;
    while i < |table|
      invariant i <= |table|
      invariant h.data == WithDefaults(old(h.data), table, base, i)
      invariant notes == AddedNotes(old(h.data), table, base, prefix, i)
    {
      var d := table[i];
      if d.key !in h.data {
        h.data := h.data[d.key := StaticTrait(d, base)];
        notes := notes + [prefix + d.name];
      }
      i := i + 1;
    }
  }

  /** The four handlers `initialize_traits` fills, as plain maps. */
  datatype Sheet = Sheet(traits: map<string, Trait>, attributes: map<string, Trait>,
                         skills: map<string, Trait>, distinctions: map<string, Trait>)

  /** The general handler after the plot-point step. */
  function WithPlotPoints(m: map<string, Trait>): (r: map<string, Trait>)
    ensures PlotPointsKey in r && forall k :: k in m ==> k in r && r[k] == m[k]
    ensures forall k :: k in r ==> k in m || k == PlotPointsKey
  {
    if PlotPointsKey in m then m else m[PlotPointsKey := PlotPointsTrait]
  }

  /** The sheet `initialize_traits` leaves behind. */
  function Initialized(s: Sheet): Sheet
  {
    Sheet(WithPlotPoints(s.traits),
          WithDefaults(s.attributes, Attributes, AttributeDie, |Attributes|),
          WithDefaults(s.skills, Skills, SkillDie, |Skills|),
          WithDefaults(s.distinctions, Distinctions, DistinctionDie, |Distinctions|))
  }

  /** The change notes, in the order the steps run. */
  function Changes(s: Sheet): seq<string>
  {
    (if PlotPointsKey in s.traits then [] else ["Added plot points"])
    + AddedNotes(s.attributes, Attributes, AttributeDie, "Added attribute: ", |Attributes|)
    + AddedNotes(s.skills, Skills, SkillDie, "Added skill: ", |Skills|)
    + AddedNotes(s.distinctions, Distinctions, DistinctionDie, "Added distinction slot: ", |Distinctions|)
  }

  /** The report: a fixed sentence when nothing changed, otherwise the notes joined by ", ". */
  function Report(changes: seq<string>): (r: string)
    ensures changes == [] ==> r == "Character traits were already fully initialized"
    ensures changes != [] ==> StartsWith(r, "Initialized missing traits: ")
  {
    if changes == [] then "Character traits were already fully initialized"
    else
      var r := "Initialized missing traits: " + Join(", ", changes);
      assert r[..|"Initialized missing traits: "|] == "Initialized missing traits: ";
      r
  }

  /** A character's trait handlers; the four are separate stores. */
  class Character {
    const traits: TraitHandler
    const attributes: TraitHandler
    const skills: TraitHandler
    const distinctions: TraitHandler

    constructor(s: Sheet)
      ensures traits.data == s.traits && attributes.data == s.attributes
      ensures skills.data == s.skills && distinctions.data == s.distinctions
      ensures fresh(traits) && fresh(attributes) && fresh(skills) && fresh(distinctions)
      ensures Valid()
    {
      traits := new TraitHandler(s.traits);
      attributes := new TraitHandler(s.attributes);
      skills := new TraitHandler(s.skills);
      distinctions := new TraitHandler(s.distinctions);
    }

    predicate Valid()
    {
      traits != attributes && traits != skills && traits != distinctions
      && attributes != skills && attributes != distinctions && skills != distinctions
    }

    function State(): Sheet
      reads traits, attributes, skills, distinctions
    {
      Sheet(traits.data, attributes.data, skills.data, distinctions.data)
    }

    /**
     * `initialize_traits`: adds the plot-point counter, the attributes, the
     * skills and the distinction slots that are missing, and always reports
     * success with a message naming what was added.
     */
    method InitializeTraits() returns (success: bool, message: string)
      requires Valid()
      modifies traits, attributes, skills, distinctions
      ensures success
      ensures State() == Initialized(old(State()))
      ensures message == Report(Changes(old(State())))
    {
      var plot: seq<string> := [];
      if PlotPointsKey !in traits.data {
        traits.data := traits.data[PlotPointsKey := PlotPointsTrait];
        plot := ["Added plot points"];
      }
      var added := AddDefaults(attributes, Attributes, AttributeDie, "Added attribute: ");
      var learned := AddDefaults(skills, Skills, SkillDie, "Added skill: ");
      var slots := AddDefaults(distinctions, Distinctions, DistinctionDie, "Added distinction slot: ");
      var changes := plot + added + learned + slots;
      return true, Report(changes);
    }
  }

  /** Initialising twice is the same as initialising once, and the second run adds nothing. */
  lemma InitializeIdempotent(s: Sheet)
    ensures Initialized(Initialized(s)) == Initialized(s)
    ensures Changes(Initialized(s)) == []
    ensures Report(Changes(Initialized(s))) == "Character traits were already fully initialized"
  {
    WithDefaultsIdempotent(s.attributes, Attributes, AttributeDie, "Added attribute: ");
    WithDefaultsIdempotent(s.skills, Skills, SkillDie, "Added skill: ");
    WithDefaultsIdempotent(s.distinctions, Distinctions, DistinctionDie, "Added distinction slot: ");
  }

  /** An existing trait is never overwritten, in any of the four handlers. */
  lemma InitializeKeeps(s: Sheet, k: string)
    ensures k in s.traits ==> Initialized(s).traits[k] == s.traits[k]
    ensures k in s.attributes ==> Initialized(s).attributes[k] == s.attributes[k]
    ensures k in s.skills ==> Initialized(s).skills[k] == s.skills[k]
    ensures k in s.distinctions ==> Initialized(s).distinctions[k] == s.distinctions[k]
  {
  }

  /** A fresh plot-point counter holds one point and cannot go below zero. */
  lemma PlotPointsDefault(s: Sheet)
    ensures PlotPointsKey !in s.traits ==> Initialized(s).traits[PlotPointsKey] == Trait("Plot Points", "counter", 1, Some(0), "")
    ensures PlotPointsKey in s.traits ==> Initialized(s).traits == s.traits
  {
  }

  /** The six attributes, each added at d6 where it was missing. */
  lemma AttributeDefaults(s: Sheet)
    ensures |Attributes| == 6
    ensures forall j :: 0 <= j < |Attributes| && Attributes[j].key !in s.attributes ==>
      Initialized(s).attributes[Attributes[j].key] == Trait(Attributes[j].name, "static", 6, None, Attributes[j].desc)
  {
    assert DistinctKeys(Attributes);
    forall j | 0 <= j < |Attributes| && Attributes[j].key !in s.attributes
      ensures Initialized(s).attributes[Attributes[j].key] == StaticTrait(Attributes[j], AttributeDie)
    {
      DefaultAdded(s.attributes, Attributes, AttributeDie, |Attributes|, j);
    }
  }

  /** Rows `lo` up to `hi` carry keys that no later row repeats. */
  predicate KeysApart(table: seq<Default>, lo: nat, hi: nat)
  {
    forall i, j :: lo <= i < hi && i < j < |table| ==> table[i].key != table[j].key
  }

  // The nineteen skill keys differ; checked in four slices to keep each proof small.
  lemma SkillKeysFirst() ensures KeysApart(Skills, 0, 3) {}
  lemma SkillKeysSecond() ensures KeysApart(Skills, 3, 6) {}
  lemma SkillKeysThird() ensures KeysApart(Skills, 6, 9) {}
  lemma SkillKeysLast() ensures KeysApart(Skills, 9, 19) {}

  /** The nineteen skills, each added at d4 where it was missing. */
  lemma SkillDefaults(s: Sheet)
    ensures |Skills| == 19
    ensures forall j :: 0 <= j < |Skills| && Skills[j].key !in s.skills ==>
      Initialized(s).skills[Skills[j].key] == Trait(Skills[j].name, "static", 4, None, Skills[j].desc)
  {
    SkillKeysFirst();
    SkillKeysSecond();
    SkillKeysThird();
    SkillKeysLast();
    assert DistinctKeys(Skills);
    forall j | 0 <= j < |Skills| && Skills[j].key !in s.skills
      ensures Initialized(s).skills[Skills[j].key] == StaticTrait(Skills[j], SkillDie)
    {
      DefaultAdded(s.skills, Skills, SkillDie, |Skills|, j);
    }
  }

  /** The three distinction slots, each added at d8 where it was missing. */
  lemma DistinctionDefaults(s: Sheet)
    ensures |Distinctions| == 3
    ensures forall j :: 0 <= j < |Distinctions| && Distinctions[j].key !in s.distinctions ==>
      Initialized(s).distinctions[Distinctions[j].key] == Trait(Distinctions[j].name, "static", 8, None, Distinctions[j].desc)
  {
    assert DistinctKeys(Distinctions);
    forall j | 0 <= j < |Distinctions| && Distinctions[j].key !in s.distinctions
      ensures Initialized(s).distinctions[Distinctions[j].key] == StaticTrait(Distinctions[j], DistinctionDie)
    {
      DefaultAdded(s.distinctions, Distinctions, DistinctionDie, |Distinctions|, j);
    }
  }
}
