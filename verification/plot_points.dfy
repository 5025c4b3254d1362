// Plot points: a per-character counter that staff hand out and players
// spend. A character either has a `plot_points` trait, whose base is the
// count, or has none. Finding a character by name is a parameter: the
// character the search returned, if any.

module PlotPoints {
  import opened Wrappers
  import opened Strings

  /** Why a plot-point command did nothing. */
  datatype PPError = Usage | NotFound | NotANumber | Negative | NoTrait | NoPoints

  class Character {
    /** The base of the `plot_points` trait; `None` when there is no such trait. */
    var plotPoints: Option<int>

    constructor(plotPoints: Option<int>)
      ensures this.plotPoints == plotPoints
    {
      this.plotPoints := plotPoints;
    }

    /** `givepp`: one more plot point, for a character that has the trait. */
    method Give() returns (err: Option<PPError>)
      modifies this
      ensures err == if old(plotPoints).None? then Some(NoTrait) else None
      ensures plotPoints == AfterGive(old(plotPoints))
    {
      if plotPoints.None? {
        return Some(NoTrait);
      }
      plotPoints := Some(plotPoints.value + 1);
      return None;
    }

    /** `spendpp`: one plot point fewer, refused when there is none to spend. */
    method Spend() returns (err: Option<PPError>)
      modifies this
      ensures err == if old(plotPoints).None? || old(plotPoints).value < 1 then Some(NoPoints) else None
      ensures plotPoints == AfterSpend(old(plotPoints))
    {
      if plotPoints.None? || plotPoints.value < 1 {
        return Some(NoPoints);
      }
      plotPoints := Some(plotPoints.value - 1);
      return None;
    }
  }

  /** The count after `givepp`. */
  function AfterGive(pp: Option<int>): (r: Option<int>)
    ensures r.None? <==> pp.None?
    ensures r.Some? ==> r.value == pp.value + 1
  {
    if pp.None? then None else Some(pp.value + 1)
  }

  /** The count after `spendpp`: unchanged below one, otherwise one less. */
  function AfterSpend(pp: Option<int>): (r: Option<int>)
    ensures r.None? <==> pp.None?
    ensures r.Some? ==> r.value == if pp.value < 1 then pp.value else pp.value - 1
  {
    if pp.None? || pp.value < 1 then pp else Some(pp.value - 1)
  }

  /** A count that is never negative: no trait at all, or a base of zero or more. */
  predicate NonNegative(pp: Option<int>)
  {
    pp.None? || pp.value >= 0
  }

  /** Giving and spending keep the count non-negative; spending never takes it below zero. */
  lemma GiveSpendKeepNonNegative(pp: Option<int>)
    requires NonNegative(pp)
    ensures NonNegative(AfterGive(pp)) && NonNegative(AfterSpend(pp))
    ensures AfterSpend(pp) != pp ==> pp.value >= 1 && AfterSpend(pp).value >= 0
  {
  }

  /** Spending right after a gift restores the count. */
  lemma SpendUndoesGive(pp: Option<int>)
    requires NonNegative(pp)
    ensures AfterSpend(AfterGive(pp)) == pp
  {
  }

  /** `int(amount)` followed by the "cannot be negative" check of `setpp` and `setroompp`. */
  function ParseAmount(text: string): (r: Result<int, PPError>)
    ensures ParseInt(text).None? ==> r == Err(NotANumber)
    ensures ParseInt(text).Some? && ParseInt(text).value < 0 ==> r == Err(Negative)
    ensures r.Ok? ==> r.value >= 0 && ParseInt(text) == Some(r.value)
  {
    match ParseInt(text)
    case None => Err(NotANumber)
    case Some(n) => if n < 0 then Err(Negative) else Ok(n)
  }

  /** The decimal text of a count reads back as that count, and of a negative number as a refusal. */
  lemma ParseAmountOfText(n: int)
    ensures ParseAmount(IntStr(n)) == if n < 0 then Err(Negative) else Ok(n)
  {
    ParseIntStr(n);
  }

  /** `parts` is the stripped text before and after the '=' at `i`, the first '=' of `args`. */
  predicate CutAtFirstEquals(args: string, i: int, parts: (string, string))
  {
    0 <= i < |args| && args[i] == '=' && '=' !in args[..i]
    && parts == (Strip(args[..i]), Strip(args[i + 1..]))
  }

  /** `setpp <character>=<amount>`: the stripped name and amount on either side of the first '='. */
  function SplitSetArgs(args: string): (r: Result<(string, string), PPError>)
    ensures r.Err? <==> args == [] || '=' !in args
    ensures r.Ok? ==> exists i :: CutAtFirstEquals(args, i, r.value)
  {
    if args == [] || '=' !in args then Err(Usage)
    else
      var i := IndexOf(args, '=');
      var parts := (Strip(args[..i]), Strip(args[i + 1..]));
      assert CutAtFirstEquals(args, i, parts);
      Ok(parts)
  }

  /**
   * `setpp`: needs "<character>=<amount>", a character the search found,
   * an amount that is a non-negative integer and a plot-point trait, in
   * that order; then the count becomes the amount.
   */
  method SetPP(args: string, found: Option<Character>) returns (err: Option<PPError>)
    modifies if found.Some? then {found.value} else {}
    ensures SplitSetArgs(args).Err? ==> err == Some(Usage)
    ensures SplitSetArgs(args).Ok? && found.None? ==> err == Some(NotFound)
    ensures SplitSetArgs(args).Ok? && found.Some? ==>
      var amount := ParseAmount(SplitSetArgs(args).value.1);
      && (amount.Err? ==> err == Some(amount.error))
      && (amount.Ok? && old(found.value.plotPoints).None? ==> err == Some(NoTrait))
      && (amount.Ok? && old(found.value.plotPoints).Some? ==> err == None && found.value.plotPoints == Some(amount.value))
    ensures found.Some? && err.Some? ==> found.value.plotPoints == old(found.value.plotPoints)
  {
    var parts := SplitSetArgs(args);
    if parts.Err? {
      return Some(Usage);
    }
    if found.None? {
      return Some(NotFound);
    }
    var amount := ParseAmount(parts.value.1);
    if amount.Err? {
      return Some(amount.error);
    }
    var c := found.value;
    if c.plotPoints.None? {
      return Some(NoTrait);
    }
    c.plotPoints := Some(amount.value);
    return None;
  }

  /**
   * The characters `setroompp` writes to: with "<character>=<amount>" the
   * one the search found, otherwise the room's characters that have an
   * account and traits (`room`).
   */
  function Targets(args: string, found: Option<Character>, room: seq<Character>): seq<Character>
  {
    if '=' in args then (if found.Some? then [found.value] else []) else room
  }

  /** The amount text of `setroompp`: after the first '=', or the whole (stripped) argument. */
  function RoomAmountText(args: string): string
  {
    if '=' in args then args[IndexOf(args, '=') + 1..] else Strip(args)
  }

  /** The plot-point counts of a list of characters. */
  ghost function Counts(cs: seq<Character>): (r: seq<Option<int>>)
    reads cs
    ensures |r| == |cs| && forall k :: 0 <= k < |cs| ==> r[k] == cs[k].plotPoints
  {
    seq(|cs|, k requires 0 <= k < |cs| reads cs => cs[k].plotPoints)
  }

  /** How many of the first `i` counts exist: the characters that have the trait. */
  function WithTrait(counts: seq<Option<int>>, i: nat): (n: nat)
    requires i <= |counts|
    ensures n <= i
  {
    if i == 0 then 0 else WithTrait(counts, i - 1) + (if counts[i - 1].Some? then 1 else 0)
  }

  /** Every character has the trait exactly when the count reaches the length. */
  lemma {:induction false} WithTraitAll(counts: seq<Option<int>>, i: nat)
    requires i <= |counts|
    ensures WithTrait(counts, i) == i <==> forall k :: 0 <= k < i ==> counts[k].Some?
  {
    if i > 0 {
      WithTraitAll(counts, i - 1);
    }
  }

  /**
   * `setroompp`: every target that has a plot-point trait gets the amount;
   * the others are skipped; the count of characters written is returned.
   * A missing argument, a failed search, a non-integer or a negative amount
   * stops the command before anything is written.
   */
  method SetRoomPP(args: string, found: Option<Character>, room: seq<Character>) returns (err: Option<PPError>, successCount: nat)
    modifies Targets(args, found, room)
    ensures args == [] ==> err == Some(Usage)
    ensures args != [] && '=' in args && found.None? ==> err == Some(NotFound)
    ensures args != [] && ('=' !in args || found.Some?) ==>
      var amount := ParseAmount(RoomAmountText(args));
      (amount.Err? ==> err == Some(amount.error)) && (amount.Ok? ==> err == None)
    ensures err.Some? ==> successCount == 0 && forall c :: c in Targets(args, found, room) ==> c.plotPoints == old(c.plotPoints)
    ensures err.None? ==>
      var amount := ParseAmount(RoomAmountText(args)).value;
      && (forall c :: c in Targets(args, found, room) ==>
            c.plotPoints == if old(c.plotPoints).Some? then Some(amount) else old(c.plotPoints))
      && successCount == WithTrait(old(Counts(Targets(args, found, room))), |Targets(args, found, room)|)
  {
    if args == [] {
      return Some(Usage), 0;
    }
    if '=' in args && found.None? {
      return Some(NotFound), 0;
    }
    var parsed := ParseAmount(RoomAmountText(args));
    if parsed.Err? {
      return Some(parsed.error), 0;
    }
    successCount := SetAll(Targets(args, found, room), parsed.value);
    return None, successCount;
  }

  /** The loop of `setroompp`: each character that has the trait gets `amount`, and is counted. */
  method SetAll(chars: seq<Character>, amount: int) returns (successCount: nat)
    modifies chars
    ensures forall c :: c in chars ==> c.plotPoints == if old(c.plotPoints).Some? then Some(amount) else old(c.plotPoints)
    ensures successCount == WithTrait(old(Counts(chars)), |chars|)
  {
    ghost var counts := Counts(chars);
    successCount := 0;
    var i := 0;
    while i < |chars|
      invariant i <= |chars|
      invariant successCount == WithTrait(counts, i)
      invariant forall c :: c in chars ==>
        c.plotPoints == if c in chars[..i] && old(c.plotPoints).Some? then Some(amount) else old(c.plotPoints)
    {
      var c := chars[i];
      assert c.plotPoints.Some? <==> counts[i].Some?;
      if c.plotPoints.Some? {
        c.plotPoints := Some(amount);
        successCount := successCount + 1;
      }
      assert chars[..i + 1] == chars[..i] + [c];
      i := i + 1;
    }
    assert chars[..i] == chars;
  }
}
