// Organisation helpers: rank validation and collision-free resource names.
// The splitting helpers `parse_equals` and `parse_comma` of the same file
// are identical to those in CommandUtils and are modelled there once.

module OrgUtils {
  import opened Wrappers
  import opened Strings
  import opened Sets

  /** The lowest and highest rank number. */
  const MinRank := 1
  const MaxRank := 10

  /**
   * `validate_rank(rank_str, default)`: the number when `int()` reads one
   * in 1..10, nothing when it reads one outside that range (the default is
   * not consulted), and the default when the input does not read as a
   * number at all (`None` stands for Python's `None`, whose `int()` is a
   * TypeError).
   */
  function ValidateRank(rankStr: Option<string>, default: Option<int>): (r: Option<int>)
    ensures r.Some? ==> (MinRank <= r.value <= MaxRank || r == default)
    ensures rankStr.Some? && ParseInt(rankStr.value).Some? ==>
      (r.Some? <==> MinRank <= ParseInt(rankStr.value).value <= MaxRank)
    ensures (rankStr.None? || ParseInt(rankStr.value).None?) ==> r == default
  {
    var n := if rankStr.Some? then ParseInt(rankStr.value) else None;
    match n
    case Some(v) => if MinRank <= v <= MaxRank then Some(v) else None
    case None => default
  }

  /** The decimal text of a rank in range validates to that rank, whatever the default. */
  lemma ValidRankRoundTrip(n: int, default: Option<int>)
    requires MinRank <= n <= MaxRank
    ensures ValidateRank(Some(IntStr(n)), default) == Some(n)
  {
    ParseIntStr(n);
  }

  /** A number outside 1..10 is refused even when a default is given. */
  lemma OutOfRangeIgnoresDefault(n: int, default: Option<int>)
    requires n < MinRank || n > MaxRank
    ensures ValidateRank(Some(IntStr(n)), default) == None
  {
    ParseIntStr(n);
  }

  // ---------------------------------------------------------------------
  // `re.sub(r'\s+\d+$', '', name)`

  /** The length of the run of digits that ends the text. */
  function TrailingDigits(s: string): (k: nat)
    ensures k <= |s|
    ensures forall i :: |s| - k <= i < |s| ==> IsDigit(s[i])
    ensures k == |s| || !IsDigit(s[|s| - k - 1])
  {
    if s == [] || !IsDigit(s[|s| - 1]) then 0 else 1 + TrailingDigits(s[..|s| - 1])
  }

  /** The length of the run of whitespace that ends the text. */
  function TrailingSpaces(s: string): (k: nat)
    ensures k <= |s|
    ensures forall i :: |s| - k <= i < |s| ==> IsSpace(s[i])
    ensures k == |s| || !IsSpace(s[|s| - k - 1])
  {
    if s == [] || !IsSpace(s[|s| - 1]) then 0 else 1 + TrailingSpaces(s[..|s| - 1])
  }

  /**
   * Removes a final run of whitespace followed by a final run of digits,
   * when both are there. The leftmost match of the pattern starts at the
   * first of those whitespace characters.
   */
  function TrimNumber(s: string): (r: string)
    ensures |r| <= |s| && r == s[..|r|]
    ensures r == s || (|r| < |s| && (r == [] || !IsSpace(r[|r| - 1])))
  {
    var d := TrailingDigits(s);
    var w := TrailingSpaces(s[..|s| - d]);
    if d > 0 && w > 0 then s[..|s| - d - w] else s
  }

  /**
   * The whole substitution. Python's `$` also matches just before a final
   * newline, so a name ending in '\n' loses its number suffix and keeps
   * the newline.
   */
  function StripNumberSuffix(name: string): (r: string)
  {
    if name != [] && name[|name| - 1] == '\n' then TrimNumber(name[..|name| - 1]) + "\n"
    else TrimNumber(name)
  }

  /** The name the numbering loop tries for a counter. */
  function Numbered(base: string, n: nat): string
  {
    base + " " + NatStr(n)
  }

  lemma NumberedInjective(base: string, a: nat, b: nat)
    requires Numbered(base, a) == Numbered(base, b)
    ensures a == b
  {
    assert NatStr(a) == Numbered(base, a)[|base| + 1..];
    assert NatStr(b) == Numbered(base, b)[|base| + 1..];
    DigitsOfNatStr(a);
    DigitsOfNatStr(b);
  }

  /** After a space, a run of digits is exactly the trailing digits. */
  lemma TrailingDigitsAfterSpace(pre: string, digits: string)
    requires IsDigits(digits)
    ensures TrailingDigits(pre + " " + digits) == |digits|
  {
    var s := pre + " " + digits;
    forall i | |s| - |digits| <= i < |s|
      ensures IsDigit(s[i])
    {
      assert s[i] == digits[i - (|s| - |digits|)];
    }
    assert s[|s| - |digits| - 1] == ' ';
    TrailingDigitsUnique(s, |digits|);
  }

  /** A single space after text that does not end in whitespace is the only trailing whitespace. */
  lemma TrailingSpaceAfter(base: string)
    requires base == [] || !IsSpace(base[|base| - 1])
    ensures TrailingSpaces(base + " ") == 1
  {
    var t := base + " ";
    assert t[|t| - 1] == ' ';
    if base != [] {
      assert t[|t| - 2] == base[|base| - 1];
    }
    TrailingSpacesUnique(t, 1);
  }

  /** A numbered name loses exactly its number: "gold 2" gives back "gold". */
  lemma StripNumbered(base: string, n: nat)
    requires base == [] || !IsSpace(base[|base| - 1])
    ensures StripNumberSuffix(Numbered(base, n)) == base
  {
    var s := Numbered(base, n);
    var digits := NatStr(n);
    assert s[|s| - 1] == digits[|digits| - 1];
    TrailingDigitsAfterSpace(base, digits);
    assert s[..|s| - |digits|] == base + " ";
    TrailingSpaceAfter(base);
    assert s[..|s| - |digits| - 1] == base;
  }

  lemma TrailingDigitsUnique(s: string, k: nat)
    requires k <= |s|
    requires forall i :: |s| - k <= i < |s| ==> IsDigit(s[i])
    requires k == |s| || !IsDigit(s[|s| - k - 1])
    ensures TrailingDigits(s) == k
  {
  }

  lemma TrailingSpacesUnique(s: string, k: nat)
    requires k <= |s|
    requires forall i :: |s| - k <= i < |s| ==> IsSpace(s[i])
    requires k == |s| || !IsSpace(s[|s| - k - 1])
    ensures TrailingSpaces(s) == k
  {
  }

  /**
   * What `get_unique_resource_name` promises: the stripped base name when
   * it is free, otherwise the base numbered with the smallest counter from
   * 1 whose name is free.
   */
  ghost predicate UniqueNameSpec(name: string, existing: set<string>, r: string)
  {
    var base := StripNumberSuffix(name);
    if base !in existing then r == base
    else
      exists n: nat ::
        && 1 <= n && r == Numbered(base, n) && r !in existing
        && forall k: nat :: 1 <= k < n ==> Numbered(base, k) in existing
  }

  /** The promise leaves one answer only. */
  lemma UniqueNameDetermined(name: string, existing: set<string>, r1: string, r2: string)
    requires UniqueNameSpec(name, existing, r1) && UniqueNameSpec(name, existing, r2)
    ensures r1 == r2
  {
    var base := StripNumberSuffix(name);
    if base in existing {
      var n1: nat :| 1 <= n1 && r1 == Numbered(base, n1) && r1 !in existing &&
        forall k: nat :: 1 <= k < n1 ==> Numbered(base, k) in existing;
      var n2: nat :| 1 <= n2 && r2 == Numbered(base, n2) && r2 !in existing &&
        forall k: nat :: 1 <= k < n2 ==> Numbered(base, k) in existing;
      assert !(n1 < n2) && !(n2 < n1);
    }
  }

  /** The names numbered 1 up to (not including) `c`. */
  ghost function NumberedBelow(base: string, c: nat): set<string>
  {
    if c <= 1 then {} else NumberedBelow(base, c - 1) + {Numbered(base, c - 1)}
  }

  /** No name numbered `m` or more is among the names numbered below `c <= m`. */
  lemma {:induction false} NotNumberedBelow(base: string, c: nat, m: nat)
    requires c <= m
    ensures Numbered(base, m) !in NumberedBelow(base, c)
  {
    if c > 1 {
      NotNumberedBelow(base, c - 1, m);
      if Numbered(base, c - 1) == Numbered(base, m) {
        NumberedInjective(base, c - 1, m);
      }
    }
  }

  /** There are `c - 1` names numbered below `c`. */
  lemma {:induction false} NumberedBelowSize(base: string, c: nat)
    requires c >= 1
    ensures |NumberedBelow(base, c)| == c - 1
  {
    if c > 1 {
      NumberedBelowSize(base, c - 1);
      NotNumberedBelow(base, c - 1, c - 1);
    }
  }

  /** When the name for `counter` is taken too, the names up to it are all taken and there are at least `counter` names. */
  lemma TakenCounter(base: string, counter: nat, existing: set<string>)
    requires 1 <= counter && NumberedBelow(base, counter) <= existing && Numbered(base, counter) in existing
    ensures NumberedBelow(base, counter + 1) <= existing && counter <= |existing|
  {
    NumberedBelowSize(base, counter + 1);
    SubsetSize(NumberedBelow(base, counter + 1), existing);
  }

  /** The counting loop: tries "base 1", "base 2", ... until a name is free. */
  method GetUniqueResourceName(name: string, existing: set<string>) returns (r: string)
    ensures r !in existing
    ensures UniqueNameSpec(name, existing, r)
  {
    var base := StripNumberSuffix(name);
    if base !in existing {
      return base;
    }
    var counter: nat := 1;
    while Numbered(base, counter) in existing
      invariant 1 <= counter
      invariant NumberedBelow(base, counter) <= existing
      invariant forall k: nat :: 1 <= k < counter ==> Numbered(base, k) in existing
      decreases |existing| - (counter - 1)
    {
      TakenCounter(base, counter, existing);
      counter := counter + 1;
    }
    r := Numbered(base, counter);
  }
}
