/**
 * The Cortex Prime dice engine: step arithmetic on the die ladder, trait
 * lookup on a character sheet, the prime-set rule for dice pools, and the
 * processing of rolled values into hitches, a total and an effect die.
 * Rolled values are inputs; nothing here draws random numbers.
 */
module Cortex {
  import opened Wrappers
  import opened Strings

  // ---------------------------------------------------------------------
  // Constants

  /** The die ladder, smallest first; a size is the text after the "d". */
  const DieSizes: seq<string> := ["4", "6", "8", "10", "12"]

  datatype Difficulty = Difficulty(name: string, value: int)

  /** The named difficulties, in table order. */
  const Difficulties: seq<Difficulty> := [
    Difficulty("very easy", 3),
    Difficulty("easy", 7),
    Difficulty("challenging", 11),
    Difficulty("hard", 15),
    Difficulty("very hard", 19)
  ]

  /** The trait categories, in the order a lookup tries them. */
  const Categories: seq<string> := ["attributes", "skills", "distinctions", "resources", "signature_assets"]

  // ---------------------------------------------------------------------
  // Stepping a die along the ladder

  /** `DIE_SIZES.index(size)`, or None where Python raises ValueError. */
  function LadderIndex(size: string): (i: Option<nat>)
    ensures i.Some? ==> i.value < |DieSizes| && DieSizes[i.value] == size
    ensures i.None? ==> size !in DieSizes
  {
    if size == "4" then Some(0)
    else if size == "6" then Some(1)
    else if size == "8" then Some(2)
    else if size == "10" then Some(3)
    else if size == "12" then Some(4)
    else None
  }

  /** Every rung of the ladder is found again at its own position. */
  lemma LadderIndexOfRung(i: nat)
    requires i < |DieSizes|
    ensures LadderIndex(DieSizes[i]) == Some(i)
  {
  }

  function Clamp(lo: int, hi: int, x: int): (r: int)
    requires lo <= hi
    ensures lo <= r <= hi
    ensures lo <= x <= hi ==> r == x
  {
    if x < lo then lo else if x > hi then hi else x
  }

  /** A die moved `steps` places along the ladder, stopping at either end; a size off the ladder is kept. */
  function StepDie(size: string, steps: int): (r: string)
    ensures (r in DieSizes) == (size in DieSizes)
    ensures size !in DieSizes ==> r == size
  {
    match LadderIndex(size)
    case None => size
    case Some(i) => DieSizes[Clamp(0, |DieSizes| - 1, i + steps)]
  }

  /** The ladder position of a stepped die is the old position plus the steps, clamped to the ends. */
  lemma StepDiePosition(size: string, steps: int)
    requires LadderIndex(size).Some?
    ensures LadderIndex(StepDie(size, steps)) == Some(Clamp(0, 4, LadderIndex(size).value + steps))
  {
    LadderIndexOfRung(Clamp(0, 4, LadderIndex(size).value + steps));
  }

  lemma StepDieExamples()
    ensures StepDie("12", 1) == "12"
    ensures StepDie("4", -1) == "4"
    ensures StepDie("4", 2) == "8"
    ensures StepDie("8", -1) == "6"
    ensures StepDie("20", 1) == "20"
  {
  }

  /** Two steps in the same direction add up (clamping never undoes progress). */
  lemma StepDieCompose(size: string, a: int, b: int)
    requires (a >= 0 && b >= 0) || (a <= 0 && b <= 0)
    ensures StepDie(StepDie(size, a), b) == StepDie(size, a + b)
  {
    if LadderIndex(size).Some? {
      StepDiePosition(size, a);
    }
  }

  // ---------------------------------------------------------------------
  // Trait specifications: "name", "name(U)", "name(D)", "name(double)"

  datatype TraitSpec = TraitSpec(name: string, stepMod: Option<string>, doubled: bool)

  /**
   * Splits a trait specification into the trait name and its suffix. A suffix
   * is read only when both parentheses occur: "U" or "D" (upper case only)
   * becomes a step modifier, "double" in any case sets `doubled`.
   */
  function ParseTraitSpec(spec: string): (t: TraitSpec)
    ensures !(t.stepMod.Some? && t.doubled)
    ensures t.stepMod == None || t.stepMod == Some("U") || t.stepMod == Some("D")
    ensures !('(' in spec && ')' in spec) ==> t == TraitSpec(spec, None, false)
  {
    if '(' in spec && ')' in spec then
      var i := IndexOf(spec, '(');
      var m := RStripChar(spec[i + 1..], ')');
      var stepMod := if m == "U" || m == "D" then Some(m) else None;
      TraitSpec(Strip(spec[..i]), stepMod, stepMod == None && Lower(m) == "double")
    else
      TraitSpec(spec, None, false)
  }

  /** The suffix of "name(m)" is `m` itself, read after the one '(' that follows the name. */
  lemma SuffixRead(name: string, m: string)
    requires '(' !in name
    requires m == [] || m[|m| - 1] != ')'
    ensures var spec := name + "(" + m + ")";
      && '(' in spec && ')' in spec
      && IndexOf(spec, '(') == |name|
      && spec[..|name|] == name
      && RStripChar(spec[|name| + 1..], ')') == m
  {
    var spec := name + "(" + m + ")";
    assert spec[|name|] == '(' && spec[|spec| - 1] == ')';
    assert spec[..|name|] == name;
    IndexOfAt(spec, '(', |name|);
    assert spec[|name| + 1..] == m + ")";
    assert (m + ")")[..|m|] == m;
  }

  /**
   * A name followed by a parenthesised suffix: the name is stripped, "U" and
   * "D" become step modifiers, and any other suffix that reads "double" in
   * some case doubles the die.
   */
  lemma SuffixParsed(name: string, m: string)
    requires '(' !in name
    requires m == [] || m[|m| - 1] != ')'
    ensures var t := ParseTraitSpec(name + "(" + m + ")");
      && t.name == Strip(name)
      && (t.stepMod == Some("U") <==> m == "U")
      && (t.stepMod == Some("D") <==> m == "D")
      && (t.doubled <==> Lower(m) == "double")
  {
    SuffixRead(name, m);
    var stepMod := if m == "U" || m == "D" then Some(m) else None;
    assert ParseTraitSpec(name + "(" + m + ")") == TraitSpec(Strip(name), stepMod, stepMod == None && Lower(m) == "double");
    if Lower(m) == "double" {
      assert |m| == 6;
    }
  }

  /** Lower-case "u" is not a step modifier. */
  lemma LowerUIgnored(spec: string)
    requires spec == "prowess(u)"
    ensures ParseTraitSpec(spec).stepMod == None
  {
    assert spec[..7] == "prowess";
    IndexOfAt(spec, '(', 7);
    StepModIsUpper(spec);
  }

  /** A lone "(" is not a suffix. */
  lemma UnclosedIgnored(spec: string)
    requires spec == "prowess(U"
    ensures ParseTraitSpec(spec) == TraitSpec(spec, None, false)
  {
    assert forall k :: 0 <= k < |spec| ==> spec[k] != ')';
  }

  /** A step modifier comes from an upper-case letter right after the first '('. */
  lemma StepModIsUpper(spec: string)
    ensures ParseTraitSpec(spec).stepMod.Some? ==>
      '(' in spec && IndexOf(spec, '(') + 1 < |spec| && IsUpper(spec[IndexOf(spec, '(') + 1])
  {
    if '(' in spec && ')' in spec {
      var i := IndexOf(spec, '(');
      var m := RStripChar(spec[i + 1..], ')');
      if m == "U" || m == "D" {
        assert m[0] == spec[i + 1];
      }
    }
  }

  /** A specification with no upper-case letters never carries a step modifier. */
  lemma LowercaseSpecNeverSteps(spec: string)
    requires IsLower(spec)
    ensures ParseTraitSpec(spec).stepMod == None
  {
    StepModIsUpper(spec);
  }

  // ---------------------------------------------------------------------
  // Looking a trait up on a character

  /**
   * The trait stores of a character, one per category, mapping a trait name
   * to its base die. `hasTraitHandlers` is false for an object that has no
   * trait stores at all.
   */
  datatype Sheet = Sheet(
    hasTraitHandlers: bool,
    attributes: map<string, int>,
    skills: map<string, int>,
    distinctions: map<string, int>,
    resources: map<string, int>,
    signatureAssets: map<string, int>)

  /** The store for `Categories[k]`. */
  function Store(c: Sheet, k: nat): map<string, int>
    requires k < |Categories|
  {
    match k
    case 0 => c.attributes
    case 1 => c.skills
    case 2 => c.distinctions
    case 3 => c.resources
    case _ => c.signatureAssets
  }

  /** The first category at or after `k` whose store holds `name`. */
  function FirstHit(c: Sheet, name: string, k: nat): (r: Option<nat>)
    requires k <= |Categories|
    ensures r.Some? ==> k <= r.value < |Categories| && name in Store(c, r.value)
    ensures r.Some? ==> forall j :: k <= j < r.value ==> name !in Store(c, j)
    ensures r.None? ==> forall j :: k <= j < |Categories| ==> name !in Store(c, j)
    decreases |Categories| - k
  {
    if k == |Categories| then None
    else if name in Store(c, k) then Some(k)
    else FirstHit(c, name, k + 1)
  }

  /** What a successful lookup yields. */
  datatype TraitHit = TraitHit(size: string, category: string, stepMod: Option<string>, doubled: bool)

  /** The die a stored base gives under an optional step modifier. */
  function SteppedSize(base: int, stepMod: Option<string>): string
  {
    match stepMod
    case None => IntStr(base)
    case Some(m) => StepDie(IntStr(base), if m == "U" then 1 else -1)
  }

  /** The lookup of a trait specification, as a value. */
  function TraitDieOf(c: Sheet, spec: string): Option<TraitHit>
  {
    if !c.hasTraitHandlers then None
    else
      var t := ParseTraitSpec(spec);
      match FirstHit(c, t.name, 0)
      case None => None
      case Some(k) => Some(TraitHit(SteppedSize(Store(c, k)[t.name], t.stepMod), Categories[k], t.stepMod, t.doubled))
  }

  /** Tries the categories in order and returns at the first store holding the trait. */
  method GetTraitDie(c: Sheet, spec: string) returns (r: Option<TraitHit>)
    ensures r == TraitDieOf(c, spec)
  {
    if !c.hasTraitHandlers {
      return None;
    }
    var t := ParseTraitSpec(spec);
    var k := 0;
    while k < |Categories|
      invariant 0 <= k <= |Categories|
      invariant FirstHit(c, t.name, 0) == FirstHit(c, t.name, k)
    {
      var store := Store(c, k);
      if t.name in store {
        var size := SteppedSize(store[t.name], t.stepMod);
        return Some(TraitHit(size, Categories[k], t.stepMod, t.doubled));
      }
      k := k + 1;
    }
    return None;
  }

  /** The category a successful lookup reports pins down the store it was found in. */
  lemma HitCategory(c: Sheet, spec: string, k: nat)
    requires k < |Categories|
    requires TraitDieOf(c, spec).Some? && TraitDieOf(c, spec).value.category == Categories[k]
    ensures FirstHit(c, ParseTraitSpec(spec).name, 0) == Some(k)
  {
    var h := FirstHit(c, ParseTraitSpec(spec).name, 0);
    CategoryNamesDistinct(h.value, k);
  }

  /** No two categories share a name (their names even differ in length). */
  lemma CategoryNamesDistinct(i: nat, j: nat)
    requires i < |Categories| && j < |Categories| && Categories[i] == Categories[j]
    ensures i == j
  {
    assert |Categories[0]| == 10 && |Categories[1]| == 6 && |Categories[2]| == 12;
    assert |Categories[3]| == 9 && |Categories[4]| == 16;
  }

  /**
   * A lookup succeeds exactly when the character has trait stores and some
   * store holds the parsed name; it reports the first category whose store
   * holds the name.
   */
  lemma TraitDiePriority(c: Sheet, spec: string, k: nat)
    requires k < |Categories|
    ensures var name := ParseTraitSpec(spec).name;
      TraitDieOf(c, spec).Some? <==>
        c.hasTraitHandlers && exists j :: 0 <= j < |Categories| && name in Store(c, j)
    ensures var name := ParseTraitSpec(spec).name;
      (TraitDieOf(c, spec).Some? && TraitDieOf(c, spec).value.category == Categories[k])
      <==>
      (c.hasTraitHandlers && name in Store(c, k) && forall j :: 0 <= j < k ==> name !in Store(c, j))
  {
    var name := ParseTraitSpec(spec).name;
    var h := FirstHit(c, name, 0);
    if TraitDieOf(c, spec).Some? && TraitDieOf(c, spec).value.category == Categories[k] {
      HitCategory(c, spec, k);
    }
    if c.hasTraitHandlers && name in Store(c, k) && forall j :: 0 <= j < k ==> name !in Store(c, j) {
      assert h.Some?;
      assert h.value == k;
    }
  }

  /** The die reported is the stored base, moved one step up for "U" and one down for "D". */
  lemma TraitDieSize(c: Sheet, spec: string, k: nat)
    requires k < |Categories|
    requires TraitDieOf(c, spec).Some? && TraitDieOf(c, spec).value.category == Categories[k]
    ensures var t := ParseTraitSpec(spec);
      var hit := TraitDieOf(c, spec).value;
      && t.name in Store(c, k)
      && hit.stepMod == t.stepMod && hit.doubled == t.doubled
      && (t.stepMod == None ==> hit.size == IntStr(Store(c, k)[t.name]))
      && (t.stepMod == Some("U") ==> hit.size == StepDie(IntStr(Store(c, k)[t.name]), 1))
      && (t.stepMod == Some("D") ==> hit.size == StepDie(IntStr(Store(c, k)[t.name]), -1))
  {
    HitCategory(c, spec, k);
  }

  // ---------------------------------------------------------------------
  // Dice pools and the prime-set rule

  /** One die of a pool; a raw die has no category, no name and no step modifier. */
  datatype TraitDie = TraitDie(size: string, category: Option<string>, name: Option<string>, stepMod: Option<string>)

  /** A Python truth test on an optional string: present and non-empty. */
  predicate Truthy(s: Option<string>) { s.Some? && s.value != "" }

  predicate HasCategory(dice: seq<TraitDie>, cat: string)
  {
    exists i :: 0 <= i < |dice| && dice[i].category == Some(cat)
  }

  /** Some die of the pool comes from a trait of a known category. */
  predicate UsesTraits(dice: seq<TraitDie>)
  {
    exists i :: 0 <= i < |dice| && dice[i].category.Some? && dice[i].category.value in Categories
  }

  /** The prime sets that are absent, in the order Attribute, Skill, Distinction. */
  function MissingSets(hasAttribute: bool, hasSkill: bool, hasDistinction: bool): (r: seq<string>)
    ensures ("Attribute" in r) == !hasAttribute
    ensures ("Skill" in r) == !hasSkill
    ensures ("Distinction" in r) == !hasDistinction
    ensures |r| == (if hasAttribute then 0 else 1) + (if hasSkill then 0 else 1) + (if hasDistinction then 0 else 1)
  {
    (if hasAttribute then [] else ["Attribute"]) +
    (if hasSkill then [] else ["Skill"]) +
    (if hasDistinction then [] else ["Distinction"])
  }

  /** The error text naming the missing sets. */
  function MissingMessage(missing: seq<string>): string
    requires |missing| > 0
  {
    if |missing| == 1 then "When using traits, you must include a " + missing[0] + "."
    else "When using traits, you must include an " + Join(", ", missing[..|missing| - 1]) + " and " + missing[|missing| - 1] + "."
  }

  /** The verdict of the prime-set rule on a pool, as a value. */
  function PoolError(dice: seq<TraitDie>): Option<string>
  {
    if !UsesTraits(dice) then None
    else
      var missing := MissingSets(HasCategory(dice, "attributes"), HasCategory(dice, "skills"), HasCategory(dice, "distinctions"));
      if missing == [] then None else Some(MissingMessage(missing))
  }

  /** Walks the pool once, recording which prime sets occur and whether any trait is used. */
  method ValidateDicePool(dice: seq<TraitDie>) returns (error: Option<string>)
    ensures error == PoolError(dice)
  {
    var hasAttribute, hasSkill, hasDistinction, requiresPrimeSets := false, false, false, false;
    var i := 0;
    while i < |dice|
      invariant 0 <= i <= |dice|
      invariant hasAttribute == HasCategory(dice[..i], "attributes")
      invariant hasSkill == HasCategory(dice[..i], "skills")
      invariant hasDistinction == HasCategory(dice[..i], "distinctions")
      invariant requiresPrimeSets == UsesTraits(dice[..i])
    {
      var cat := dice[i].category;
      if Truthy(cat) {
        if cat.value == "attributes" {
          hasAttribute, requiresPrimeSets := true, true;
        } else if cat.value == "skills" {
          hasSkill, requiresPrimeSets := true, true;
        } else if cat.value == "distinctions" {
          hasDistinction, requiresPrimeSets := true, true;
        } else if cat.value == "signature_assets" || cat.value == "resources" {
          requiresPrimeSets := true;
        }
      }
      assert dice[..i + 1] == dice[..i] + [dice[i]];
      i := i + 1;
    }
    assert dice[..i] == dice;
    if requiresPrimeSets {
      var missing := MissingSets(hasAttribute, hasSkill, hasDistinction);
      if missing != [] {
        return Some(MissingMessage(missing));
      }
    }
    return None;
  }

  /** A pool of raw dice only (no categories at all) always passes. */
  lemma RawPoolPasses(dice: seq<TraitDie>)
    requires forall i :: 0 <= i < |dice| ==> dice[i].category == None
    ensures PoolError(dice) == None
  {
  }

  /** A pool that uses a trait passes exactly when it holds an attribute, a skill and a distinction. */
  lemma PrimeSetRule(dice: seq<TraitDie>)
    requires UsesTraits(dice)
    ensures PoolError(dice) == None <==>
      HasCategory(dice, "attributes") && HasCategory(dice, "skills") && HasCategory(dice, "distinctions")
  {
    var missing := MissingSets(HasCategory(dice, "attributes"), HasCategory(dice, "skills"), HasCategory(dice, "distinctions"));
    if missing == [] {
      assert "Attribute" !in missing && "Skill" !in missing && "Distinction" !in missing;
    }
  }

  lemma MissingOneExample()
    ensures MissingMessage(MissingSets(true, false, true)) == "When using traits, you must include a Skill."
  {
    assert MissingSets(true, false, true) == ["Skill"];
  }

  /** Three missing sets are listed as "an A, B and C." */
  lemma MissingThree(a: string, b: string, c: string)
    ensures MissingMessage([a, b, c]) == "When using traits, you must include an " + (a + ", " + b) + " and " + c + "."
  {
    assert [a, b, c][..2] == [a, b];
    assert [a, b][1..] == [b];
    assert Join(", ", [b]) == b;
    assert Join(", ", [a, b]) == a + ", " + b;
  }

  /** With no prime set present, all three are named, in order. */
  lemma MissingAllExample()
    ensures MissingMessage(MissingSets(false, false, false))
      == "When using traits, you must include an " + ("Attribute" + ", " + "Skill") + " and " + "Distinction" + "."
  {
    assert MissingSets(false, false, false) == ["Attribute", "Skill", "Distinction"];
    MissingThree("Attribute", "Skill", "Distinction");
  }

  // ---------------------------------------------------------------------
  // Processing results

  /** A rolled die: the value, the die size, and the die's place in the pool. */
  datatype Roll = Roll(value: int, die: string, index: int)

  /** A roll that counts towards total and effect: value and die size. */
  datatype Scored = Scored(value: int, die: string)

  /** The die sizes of the rolls that came up 1, in pool order. */
  function Hitches(rolls: seq<Roll>): (r: seq<string>)
    ensures |r| <= |rolls|
  {
    if rolls == [] then []
    else (if rolls[0].value == 1 then [rolls[0].die] else []) + Hitches(rolls[1..])
  }

  /** The rolls above 1, in pool order. */
  function ValidRolls(rolls: seq<Roll>): (r: seq<Scored>)
    ensures |r| <= |rolls|
    ensures forall k :: 0 <= k < |r| ==> r[k].value > 1
  {
    if rolls == [] then []
    else (if rolls[0].value > 1 then [Scored(rolls[0].value, rolls[0].die)] else []) + ValidRolls(rolls[1..])
  }

  /** The filters on a sequence with a given head. */
  lemma FiltersCons(x: Roll, t: seq<Roll>)
    ensures Hitches([x] + t) == (if x.value == 1 then [x.die] else []) + Hitches(t)
    ensures ValidRolls([x] + t) == (if x.value > 1 then [Scored(x.value, x.die)] else []) + ValidRolls(t)
  {
    assert ([x] + t)[1..] == t;
  }

  /** Both filters distribute over concatenation, so each keeps pool order. */
  lemma {:induction false} FiltersAppend(a: seq<Roll>, b: seq<Roll>)
    ensures Hitches(a + b) == Hitches(a) + Hitches(b)
    ensures ValidRolls(a + b) == ValidRolls(a) + ValidRolls(b)
  {
    if a == [] {
      assert a + b == b;
    } else {
      var t := a[1..];
      assert a == [a[0]] + t;
      assert a + b == [a[0]] + (t + b);
      FiltersAppend(t, b);
      FiltersCons(a[0], t + b);
      FiltersCons(a[0], t);
    }
  }

  /** Every roll is either a hitch, a scored roll, or (below 1) neither; none is both. */
  lemma {:induction false} HitchesAndValidPartition(rolls: seq<Roll>)
    requires forall i :: 0 <= i < |rolls| ==> rolls[i].value >= 1
    ensures |Hitches(rolls)| + |ValidRolls(rolls)| == |rolls|
  {
    if rolls != [] {
      HitchesAndValidPartition(rolls[1..]);
    }
  }

  predicate IsSortedDesc(s: seq<Scored>)
  {
    forall i, j :: 0 <= i < j < |s| ==> s[i].value >= s[j].value
  }

  /** `x` placed before the first element whose value does not exceed its own. */
  function Insert(x: Scored, s: seq<Scored>): (r: seq<Scored>)
    ensures |r| == |s| + 1
    ensures multiset(r) == multiset(s) + multiset{x}
  {
    if s == [] || x.value >= s[0].value then [x] + s
    else
      assert s == [s[0]] + s[1..];
      [s[0]] + Insert(x, s[1..])
  }

  /**
   * A stable sort by value, highest first: rolls of equal value stay in pool
   * order, as Python's `list.sort(key=..., reverse=True)` guarantees.
   */
  function SortDesc(s: seq<Scored>): (r: seq<Scored>)
    ensures |r| == |s|
    ensures multiset(r) == multiset(s)
  {
    if s == [] then []
    else
      assert s == [s[0]] + s[1..];
      Insert(s[0], SortDesc(s[1..]))
  }

  /** Every value in `s` is at most `b`. */
  predicate AllAtMost(s: seq<Scored>, b: int)
  {
    forall i :: 0 <= i < |s| ==> s[i].value <= b
  }

  /** Inserting a value no larger than a bound keeps every value within it. */
  lemma {:induction false} InsertAtMost(x: Scored, s: seq<Scored>, b: int)
    requires AllAtMost(s, b) && x.value <= b
    ensures AllAtMost(Insert(x, s), b)
  {
    if s != [] && x.value < s[0].value {
      InsertAtMost(x, s[1..], b);
      ConsAtMost(s[0], Insert(x, s[1..]), b);
    } else {
      ConsAtMost(x, s, b);
    }
  }

  lemma ConsAtMost(a: Scored, t: seq<Scored>, b: int)
    requires AllAtMost(t, b) && a.value <= b
    ensures AllAtMost([a] + t, b)
  {
    assert forall i :: 1 <= i < |t| + 1 ==> ([a] + t)[i] == t[i - 1];
  }

  /** A sorted tail under a head at least as large as all of it is sorted. */
  lemma ConsSorted(a: Scored, t: seq<Scored>)
    requires IsSortedDesc(t) && AllAtMost(t, a.value)
    ensures IsSortedDesc([a] + t)
  {
    assert forall i :: 1 <= i < |t| + 1 ==> ([a] + t)[i] == t[i - 1];
  }

  /** The tail of a sorted sequence is sorted and bounded by its head. */
  lemma SortedTail(s: seq<Scored>)
    requires s != [] && IsSortedDesc(s)
    ensures IsSortedDesc(s[1..]) && AllAtMost(s[1..], s[0].value)
  {
    assert forall i :: 0 <= i < |s| - 1 ==> s[1..][i] == s[i + 1];
  }

  lemma {:induction false} InsertSorted(x: Scored, s: seq<Scored>)
    requires IsSortedDesc(s)
    ensures IsSortedDesc(Insert(x, s))
  {
    if s == [] || x.value >= s[0].value {
      if s != [] {
        SortedTail(s);
        assert AllAtMost(s, x.value) by {
          assert forall i :: 1 <= i < |s| ==> s[i] == s[1..][i - 1];
        }
      }
      ConsSorted(x, s);
    } else {
      SortedTail(s);
      InsertSorted(x, s[1..]);
      InsertAtMost(x, s[1..], s[0].value);
      ConsSorted(s[0], Insert(x, s[1..]));
    }
  }

  lemma {:induction false} SortDescSorted(s: seq<Scored>)
    ensures IsSortedDesc(SortDesc(s))
  {
    if s != [] {
      SortDescSorted(s[1..]);
      InsertSorted(s[0], SortDesc(s[1..]));
    }
  }

  /** The rolls of one value, in order. */
  function WithValue(s: seq<Scored>, v: int): seq<Scored>
  {
    if s == [] then [] else (if s[0].value == v then [s[0]] else []) + WithValue(s[1..], v)
  }

  /** The rolls of one value in a sequence with a given head. */
  lemma WithValueCons(a: Scored, t: seq<Scored>, v: int)
    ensures WithValue([a] + t, v) == (if a.value == v then [a] else []) + WithValue(t, v)
  {
    assert ([a] + t)[1..] == t;
  }

  lemma {:induction false} InsertStable(x: Scored, s: seq<Scored>, v: int)
    ensures WithValue(Insert(x, s), v) == (if x.value == v then [x] else []) + WithValue(s, v)
  {
    if s != [] && x.value < s[0].value {
      var t := s[1..];
      InsertStable(x, t, v);
      WithValueCons(s[0], Insert(x, t), v);
      WithValueCons(s[0], t, v);
      assert s == [s[0]] + t;
      if x.value == v {
        assert WithValue(Insert(x, s), v) == [x] + WithValue(t, v);
        assert WithValue(s, v) == WithValue(t, v);
      } else {
        assert WithValue(Insert(x, s), v) == WithValue(s, v);
      }
    } else {
      WithValueCons(x, s, v);
    }
  }

  /** Stability: for every value, the rolls with that value appear in the same order before and after sorting. */
  lemma {:induction false} SortDescStable(s: seq<Scored>, v: int)
    ensures WithValue(SortDesc(s), v) == WithValue(s, v)
  {
    if s != [] {
      SortDescStable(s[1..], v);
      InsertStable(s[0], SortDesc(s[1..]), v);
    }
  }

  /** Total, effect die and hitches of a roll. */
  datatype Outcome = Outcome(total: int, effect: string, hitches: seq<string>)

  /**
   * Hitches are the 1s; the total is the sum of the two highest other values
   * and the effect die the third entry of the sorted rolls; with fewer than two
   * rolls above 1 the total is 0 and the effect d4.
   */
  function ProcessResults(rolls: seq<Roll>): (r: Outcome)
    ensures r.hitches == Hitches(rolls)
    ensures |ValidRolls(rolls)| < 2 ==> r.total == 0 && r.effect == "d4"
    ensures |ValidRolls(rolls)| <= 2 ==> r.effect == "d4"
    ensures |ValidRolls(rolls)| > 2 ==> r.effect == "d" + SortDesc(ValidRolls(rolls))[2].die
  {
    var sorted := SortDesc(ValidRolls(rolls));
    if |sorted| < 2 then Outcome(0, "d4", Hitches(rolls))
    else
      var effect := if |sorted| > 2 then "d" + sorted[2].die else "d4";
      Outcome(sorted[0].value + sorted[1].value, effect, Hitches(rolls))
  }

  lemma PairInMultiset(s: seq<Scored>, i: nat, j: nat)
    requires i < |s| && j < |s| && i != j
    ensures multiset{s[i], s[j]} <= multiset(s)
  {
    var rest := s[..i] + s[i + 1..];
    assert s == s[..i] + [s[i]] + s[i + 1..];
    assert multiset(s) == multiset(rest) + multiset{s[i]};
    var k := if j < i then j else j - 1;
    assert rest[k] == s[j];
  }

  /** `x` sits at `p` and `y` at a different position `q` of `s`. */
  predicate AtTwoPlaces(s: seq<Scored>, x: Scored, y: Scored, p: int, q: int)
  {
    0 <= p < |s| && 0 <= q < |s| && p != q && s[p] == x && s[q] == y
  }

  /** Some position of `s` holds an element of its multiset. */
  lemma PositionOf(s: seq<Scored>, x: Scored) returns (p: nat)
    requires x in multiset(s)
    ensures p < |s| && s[p] == x
  {
    p :| 0 <= p < |s| && s[p] == x;
  }

  lemma {:induction false} DistinctPositions(s: seq<Scored>, x: Scored, y: Scored)
    requires multiset{x, y} <= multiset(s)
    ensures exists p, q :: AtTwoPlaces(s, x, y, p, q)
  {
    var t := s[1..];
    assert s == [s[0]] + t;
    if s[0] == x {
      assert y in multiset(t);
      var q := PositionOf(t, y);
      assert AtTwoPlaces(s, x, y, 0, q + 1);
    } else if s[0] == y {
      assert x in multiset(t);
      var p := PositionOf(t, x);
      assert AtTwoPlaces(s, x, y, p + 1, 0);
    } else {
      assert multiset{x, y} <= multiset(t);
      DistinctPositions(t, x, y);
      var p, q :| AtTwoPlaces(t, x, y, p, q);
      assert AtTwoPlaces(s, x, y, p + 1, q + 1);
    }
  }

  /** In a list sorted highest first, no two distinct entries sum to more than the first two. */
  lemma SortedPairBound(sorted: seq<Scored>, p: nat, q: nat)
    requires IsSortedDesc(sorted) && p < |sorted| && q < |sorted| && p != q
    ensures sorted[p].value + sorted[q].value <= sorted[0].value + sorted[1].value
  {
    if p < q {
      assert sorted[p].value <= sorted[0].value;
      assert sorted[q].value <= sorted[1].value;
    } else {
      assert sorted[q].value <= sorted[0].value;
      assert sorted[p].value <= sorted[1].value;
    }
  }

  /** Any two distinct entries of a list sum to at most the first two entries of its sorted copy. */
  lemma PairBoundedBySorted(valid: seq<Scored>, i: nat, j: nat)
    requires i < |valid| && j < |valid| && i != j
    ensures |SortDesc(valid)| >= 2
    ensures valid[i].value + valid[j].value <= SortDesc(valid)[0].value + SortDesc(valid)[1].value
  {
    var sorted := SortDesc(valid);
    SortDescSorted(valid);
    PairInMultiset(valid, i, j);
    DistinctPositions(sorted, valid[i], valid[j]);
    var p, q :| AtTwoPlaces(sorted, valid[i], valid[j], p, q);
    SortedPairBound(sorted, p, q);
  }

  /** With at least two rolls above 1, the total is the largest sum of two distinct such rolls. */
  lemma TotalIsBestPair(rolls: seq<Roll>)
    requires |ValidRolls(rolls)| >= 2
    ensures var valid := ValidRolls(rolls);
      var t := ProcessResults(rolls).total;
      && (forall i, j :: 0 <= i < |valid| && 0 <= j < |valid| && i != j ==> valid[i].value + valid[j].value <= t)
      && (exists i, j :: 0 <= i < |valid| && 0 <= j < |valid| && i != j && valid[i].value + valid[j].value == t)
  {
    TotalBound(rolls);
    TotalAttained(rolls);
  }

  lemma TotalBound(rolls: seq<Roll>)
    requires |ValidRolls(rolls)| >= 2
    ensures var valid := ValidRolls(rolls);
      forall i, j :: 0 <= i < |valid| && 0 <= j < |valid| && i != j ==> valid[i].value + valid[j].value <= ProcessResults(rolls).total
  {
    var valid := ValidRolls(rolls);
    var sorted := SortDesc(valid);
    assert ProcessResults(rolls).total == sorted[0].value + sorted[1].value;
    forall i, j | 0 <= i < |valid| && 0 <= j < |valid| && i != j
      ensures valid[i].value + valid[j].value <= sorted[0].value + sorted[1].value
    {
      PairBoundedBySorted(valid, i, j);
    }
  }

  lemma TotalAttained(rolls: seq<Roll>)
    requires |ValidRolls(rolls)| >= 2
    ensures var valid := ValidRolls(rolls);
      exists i, j :: 0 <= i < |valid| && 0 <= j < |valid| && i != j && valid[i].value + valid[j].value == ProcessResults(rolls).total
  {
    var valid := ValidRolls(rolls);
    var sorted := SortDesc(valid);
    assert ProcessResults(rolls).total == sorted[0].value + sorted[1].value;
    PairInMultiset(sorted, 0, 1);
    DistinctPositions(valid, sorted[0], sorted[1]);
    var p, q :| AtTwoPlaces(valid, sorted[0], sorted[1], p, q);
    assert valid[p].value + valid[q].value == ProcessResults(rolls).total;
  }

  /** Ties are broken by pool order: of three 5s, the third one rolled gives the effect die. */
  lemma ProcessResultsExample(rolls: seq<Roll>)
    requires rolls == [Roll(5, "8", 0), Roll(1, "6", 1), Roll(5, "10", 2), Roll(5, "12", 3)]
    ensures ProcessResults(rolls) == Outcome(10, "d12", ["6"])
  {
    var valid := ExampleFilters(rolls);
    ExampleSorted(valid);
    var sorted := SortDesc(ValidRolls(rolls));
    assert ProcessResults(rolls) == Outcome(sorted[0].value + sorted[1].value, "d" + sorted[2].die, Hitches(rolls));
  }

  lemma ExampleFilters(rolls: seq<Roll>) returns (valid: seq<Scored>)
    requires rolls == [Roll(5, "8", 0), Roll(1, "6", 1), Roll(5, "10", 2), Roll(5, "12", 3)]
    ensures valid == [Scored(5, "8"), Scored(5, "10"), Scored(5, "12")]
    ensures ValidRolls(rolls) == valid && Hitches(rolls) == ["6"]
  {
    valid := [Scored(5, "8"), Scored(5, "10"), Scored(5, "12")];
    assert rolls[3..][1..] == [];
    assert rolls[2..][1..] == rolls[3..];
    assert rolls[1..][1..] == rolls[2..];
    assert ValidRolls(rolls[3..]) == [Scored(5, "12")];
    assert ValidRolls(rolls[2..]) == [Scored(5, "10"), Scored(5, "12")];
    assert ValidRolls(rolls[1..]) == [Scored(5, "10"), Scored(5, "12")];
    assert Hitches(rolls[3..]) == [];
    assert Hitches(rolls[2..]) == [];
    assert Hitches(rolls[1..]) == ["6"];
  }

  lemma ExampleSorted(valid: seq<Scored>)
    requires valid == [Scored(5, "8"), Scored(5, "10"), Scored(5, "12")]
    ensures SortDesc(valid) == valid
  {
    assert SortDesc(valid[2..]) == valid[2..];
    assert SortDesc(valid[1..]) == valid[1..];
  }

  // ---------------------------------------------------------------------
  // Success level

  /** Without a difficulty every roll succeeds and none is heroic. */
  function GetSuccessLevel(total: int, difficulty: Option<int>): (r: (bool, bool))
    ensures difficulty == None ==> r == (true, false)
    ensures r.1 ==> r.0
    ensures difficulty.Some? ==> (r.0 <==> total >= difficulty.value) && (r.1 <==> total >= difficulty.value + 5)
  {
    match difficulty
    case None => (true, false)
    case Some(d) => (total >= d, total >= d + 5)
  }
}
