/**
 * The `roll` command: turning the typed arguments into a dice pool and an
 * optional difficulty, and turning rolled values into a botch or a report
 * whose dice are grouped for display.
 */
module CortexRoll {
  import opened Wrappers
  import opened Strings
  import opened Cortex

  const MaxDicePool: nat := 10
  const ValidDieSizes: set<string> := {"4", "6", "8", "10", "12"}

  /** Why a parse left the command with no dice (the message sent is not modelled). */
  datatype ParseError =
    | NoArgs
    | DifficultyOutOfRange(n: int)
    | VeryAlone
    | Ambiguous(matches: seq<string>)
    | UnknownDifficulty(value: string)
    | NoDiceGiven
    | TooManyDice
    | RawDieStepped
    | InvalidDieSize(arg: string)
    | InvalidTraitName(base: string)
    | UnknownTrait(arg: string)
    | PoolInvalid(message: string)

  // ---------------------------------------------------------------------
  // Tokenising

  /** The tokeniser's state after some words: finished arguments, the open quoted words, the quote flag. */
  datatype QuoteState = QuoteState(args: seq<string>, current: seq<string>, inQuotes: bool)

  /** One word of the tokenising loop. */
  function QuoteStep(st: QuoteState, word: string): QuoteState
  {
    if StartsWith(word, "\"") then
      QuoteState(st.args, st.current + [word[1..]], true)
    else if EndsWith(word, "\"") then
      QuoteState(st.args + [Join(" ", st.current + [word[..|word| - 1]])], [], false)
    else if st.inQuotes then
      QuoteState(st.args, st.current + [word], st.inQuotes)
    else
      QuoteState(st.args + [word], st.current, st.inQuotes)
  }

  /** The state after all of `words`, one word at a time from the left. */
  function QuoteFold(words: seq<string>): QuoteState
  {
    if words == [] then QuoteState([], [], false)
    else QuoteStep(QuoteFold(words[..|words| - 1]), words[|words| - 1])
  }

  /** The arguments collected from `words`, an unterminated quote included. */
  function RawArgs(words: seq<string>): seq<string>
  {
    var st := QuoteFold(words);
    st.args + (if st.current != [] then [Join(" ", st.current)] else [])
  }

  /** Strips and lowercases every argument and drops those that strip to nothing. */
  function CleanArgs(args: seq<string>): (r: seq<string>)
    ensures |r| <= |args|
    ensures forall k :: 0 <= k < |r| ==> r[k] != [] && IsLower(r[k])
  {
    if args == [] then []
    else
      LowerIsLower(Strip(args[0]));
      (if Strip(args[0]) != [] then [Lower(Strip(args[0]))] else []) + CleanArgs(args[1..])
  }

  /** The tokens of a command line. */
  function Tokens(text: string): seq<string>
  {
    CleanArgs(RawArgs(SplitWords(text)))
  }

  /** Walks the words with a quote flag and a buffer of quoted words. */
  method Tokenize(text: string) returns (tokens: seq<string>)
    ensures tokens == Tokens(text)
  {
    var words := SplitWords(text);
    var args: seq<string> := [];
    var current: seq<string> := [];
    var inQuotes := false;
    var i := 0;
    while i < |words|
      invariant 0 <= i <= |words|
      invariant QuoteState(args, current, inQuotes) == QuoteFold(words[..i])
    {
      var word := words[i];
      FoldNext(words, i);
      ghost var before := QuoteState(args, current, inQuotes);
      if StartsWith(word, "\"") {
        inQuotes := true;
        current := current + [word[1..]];
      } else if EndsWith(word, "\"") {
        inQuotes := false;
        current := current + [word[..|word| - 1]];
        args := args + [Join(" ", current)];
        current := [];
      } else if inQuotes {
        current := current + [word];
      } else {
        args := args + [word];
      }
      assert QuoteState(args, current, inQuotes) == QuoteStep(before, word);
      i := i + 1;
    }
    assert words[..i] == words;
    ghost var st := QuoteFold(words);
    assert st == QuoteState(args, current, inQuotes);
    if current != [] {
      args := args + [Join(" ", current)];
    }
    assert args == RawArgs(words);
    tokens := CleanArgs(args);
  }

  lemma FoldNext(words: seq<string>, i: nat)
    requires i < |words|
    ensures QuoteFold(words[..i + 1]) == QuoteStep(QuoteFold(words[..i]), words[i])
  {
    assert words[..i + 1][..i] == words[..i];
  }

  predicate NoQuote(w: string) { '"' !in w }

  function LowerAll(ws: seq<string>): (r: seq<string>)
    ensures |r| == |ws|
    ensures forall k :: 0 <= k < |r| ==> r[k] == Lower(ws[k])
  {
    if ws == [] then [] else [Lower(ws[0])] + LowerAll(ws[1..])
  }

  lemma {:induction false} FoldWithoutQuotes(words: seq<string>)
    requires forall k :: 0 <= k < |words| ==> NoQuote(words[k])
    ensures QuoteFold(words) == QuoteState(words, [], false)
  {
    if words != [] {
      var w := words[|words| - 1];
      FoldWithoutQuotes(words[..|words| - 1]);
      assert w != [] ==> w[0] in w && w[|w| - 1] in w;
      assert words[..|words| - 1] + [w] == words;
    }
  }

  lemma {:induction false} CleanWords(words: seq<string>)
    requires forall k :: 0 <= k < |words| ==> IsWord(words[k])
    ensures CleanArgs(words) == LowerAll(words)
  {
    if words != [] {
      StripOfStripped(words[0]);
      CleanWords(words[1..]);
    }
  }

  /** Without quotation marks the tokens are exactly the whitespace-separated words, lowercased. */
  lemma PlainTokens(text: string)
    requires forall k :: 0 <= k < |SplitWords(text)| ==> NoQuote(SplitWords(text)[k])
    ensures Tokens(text) == LowerAll(SplitWords(text))
  {
    var words := SplitWords(text);
    FoldWithoutQuotes(words);
    assert RawArgs(words) == words + [] == words;
    CleanWords(words);
  }

  /** A word opening a quote and a word closing it make one argument, joined by a single space. */
  lemma QuotedPair(a: string, b: string)
    requires b != [] && b[0] != '"'
    ensures RawArgs(["\"" + a, b + "\""]) == [a + " " + b]
  {
    var w1, w2 := "\"" + a, b + "\"";
    assert StartsWith(w1, "\"") && w1[1..] == a;
    assert !StartsWith(w2, "\"") && EndsWith(w2, "\"");
    assert w2[..|w2| - 1] == b;
    var both: seq<string> := [w1, w2];
    var one: seq<string> := [w1];
    assert both[..1] == one;
    assert one[..0] == [];
    assert QuoteFold([w1]) == QuoteState([], [a], true);
    assert Join(" ", [a, b]) == a + " " + b;
  }

  // ---------------------------------------------------------------------
  // The difficulty clause

  /** `xs.index(x)` */
  function FirstIndex(xs: seq<string>, x: string): (i: nat)
    requires x in xs
    ensures i < |xs| && xs[i] == x
    ensures forall j :: 0 <= j < i ==> xs[j] != x
  {
    if xs[0] == x then 0 else 1 + FirstIndex(xs[1..], x)
  }

  /** The dice tokens and, when a value follows the first "vs", the difficulty text. */
  datatype VsSplit = VsSplit(dice: seq<string>, value: Option<string>)

  function SplitVs(args: seq<string>): (r: VsSplit)
    ensures r.value.None? ==> r.dice == args
    ensures r.value.Some? ==> "vs" !in r.dice && |r.dice| < |args| - 1 && args[|r.dice|] == "vs"
    ensures r.value.Some? ==> args[..|r.dice|] == r.dice && r.value.value == Join(" ", args[|r.dice| + 1..])
  {
    if "vs" in args && FirstIndex(args, "vs") < |args| - 1 then
      var i := FirstIndex(args, "vs");
      assert forall j :: 0 <= j < i ==> args[..i][j] != "vs";
      VsSplit(args[..i], Some(Join(" ", args[i + 1..])))
    else
      VsSplit(args, None)
  }

  /** The first table entry whose lowercased name is the value itself. */
  function ExactMatch(v: string, table: seq<Difficulty>): (r: Option<int>)
    ensures r.Some? <==> exists k :: 0 <= k < |table| && Lower(table[k].name) == v
  {
    if table == [] then None
    else if v == Lower(table[0].name) then Some(table[0].value)
    else
      var r := ExactMatch(v, table[1..]);
      assert forall k :: 1 <= k < |table| ==> table[k] == table[1..][k - 1];
      r
  }

  /** An entry the value partly names: the value occurs inside the lowercased name. */
  predicate PartialHit(v: string, d: Difficulty)
  {
    var n := Lower(d.name);
    IsSubstring(v, n) && !(v == "very" && StartsWith(n, "very"))
  }

  /** The entries the value partly names, in table order. */
  function PartialMatches(v: string, table: seq<Difficulty>): (r: seq<Difficulty>)
    ensures |r| <= |table|
    ensures forall k :: 0 <= k < |r| ==> PartialHit(v, r[k]) && r[k] in table
  {
    if table == [] then []
    else
      var init := table[..|table| - 1];
      var r := PartialMatches(v, init) + (if PartialHit(v, table[|table| - 1]) then [table[|table| - 1]] else []);
      assert forall d :: d in init ==> d in table;
      r
  }

  /** An exact match is the value of a table entry, so it lies within any bounds all entries keep. */
  lemma {:induction false} ExactMatchBounded(v: string, table: seq<Difficulty>, lo: int, hi: int)
    requires forall k :: 0 <= k < |table| ==> lo <= table[k].value <= hi
    ensures ExactMatch(v, table).Some? ==> lo <= ExactMatch(v, table).value <= hi
  {
    if table != [] && v != Lower(table[0].name) {
      ExactMatchBounded(v, table[1..], lo, hi);
    }
  }

  function Names(ds: seq<Difficulty>): (r: seq<string>)
    ensures |r| == |ds|
  {
    if ds == [] then [] else [ds[0].name] + Names(ds[1..])
  }

  /** The difficulty a value stands for, or why it was refused. */
  function ParseDifficulty(v: string): (r: Result<int, ParseError>)
    ensures IsDigits(v) ==> (r.Ok? <==> 1 <= DigitsValue(v) <= 30)
    ensures r.Ok? ==> 1 <= r.value <= 30
  {
    if IsDigits(v) then
      var n: int := DigitsValue(v);
      if 1 <= n <= 30 then Ok(n) else Err(DifficultyOutOfRange(n))
    else
      match ExactMatch(v, Difficulties)
      case Some(d) => ExactMatchBounded(v, Difficulties, 1, 30); Ok(d)
      case None =>
        if v == "very" then Err(VeryAlone)
        else
          var m := PartialMatches(v, Difficulties);
          if |m| == 1 then Ok(m[0].value)
          else if |m| > 1 then Err(Ambiguous(Names(m)))
          else Err(UnknownDifficulty(v))
  }

  /** The table loops of the difficulty clause: an exact pass with early exit, then a pass collecting partial matches. */
  method MatchDifficulty(v: string) returns (r: Result<int, ParseError>)
    ensures r == ParseDifficulty(v)
  {
    if IsDigits(v) {
      var n: int := DigitsValue(v);
      if 1 <= n <= 30 {
        return Ok(n);
      }
      return Err(DifficultyOutOfRange(n));
    }
    var exact := ExactPass(v);
    if exact.Some? {
      return Ok(exact.value);
    }
    if v == "very" {
      return Err(VeryAlone);
    }
    var partial := PartialPass(v);
    if |partial| == 1 {
      return Ok(partial[0].value);
    } else if |partial| > 1 {
      return Err(Ambiguous(Names(partial)));
    }
    return Err(UnknownDifficulty(v));
  }

  /** The exact pass: the value of the first entry whose lowercased name is the value, stopping there. */
  method ExactPass(v: string) returns (exact: Option<int>)
    ensures exact == ExactMatch(v, Difficulties)
  {
    exact := None;
    var k := 0;
    while k < |Difficulties|
      invariant 0 <= k <= |Difficulties|
      invariant ExactMatch(v, Difficulties) == ExactMatch(v, Difficulties[k..])
    {
      if v == Lower(Difficulties[k].name) {
        exact := Some(Difficulties[k].value);
        return;
      }
      assert Difficulties[k..][1..] == Difficulties[k + 1..];
      k := k + 1;
    }
  }

  /** The partial pass: every entry the value partly names, in table order. */
  method PartialPass(v: string) returns (partial: seq<Difficulty>)
    ensures partial == PartialMatches(v, Difficulties)
  {
    partial := [];
    var k := 0;
    while k < |Difficulties|
      invariant 0 <= k <= |Difficulties|
      invariant partial == PartialMatches(v, Difficulties[..k])
    {
      var d := Difficulties[k];
      if PartialHit(v, d) {
        partial := partial + [d];
      }
      assert Difficulties[..k + 1][..k] == Difficulties[..k];
      k := k + 1;
    }
    assert Difficulties[..k] == Difficulties;
  }

  /** An all-digit value is accepted exactly when its number lies in 1..30. */
  lemma NumericDifficulty(v: string)
    requires IsDigits(v)
    ensures ParseDifficulty(v).Ok? <==> 1 <= DigitsValue(v) <= 30
    ensures ParseDifficulty(v).Ok? ==> ParseDifficulty(v).value == DigitsValue(v)
    ensures ParseDifficulty(v).Err? ==> ParseDifficulty(v).error == DifficultyOutOfRange(DigitsValue(v))
  {
  }

  /** Writing a number in 1..30 in decimal and reading it back as a difficulty gives the number. */
  lemma NumericDifficultyRoundTrip(n: nat)
    requires 1 <= n <= 30
    ensures ParseDifficulty(NatStr(n)) == Ok(n)
  {
    DigitsOfNatStr(n);
  }

  /** A value that is not all digits and equals no table name is accepted only through exactly one partial match. */
  lemma NamedDifficulty(v: string)
    requires !IsDigits(v) && v != "very"
    requires forall k :: 0 <= k < |Difficulties| ==> Lower(Difficulties[k].name) != v
    ensures ParseDifficulty(v).Ok? <==> |PartialMatches(v, Difficulties)| == 1
    ensures |PartialMatches(v, Difficulties)| == 1 ==> ParseDifficulty(v) == Ok(PartialMatches(v, Difficulties)[0].value)
    ensures |PartialMatches(v, Difficulties)| > 1 ==> ParseDifficulty(v).Err? && ParseDifficulty(v).error.Ambiguous?
    ensures PartialMatches(v, Difficulties) == [] ==> ParseDifficulty(v) == Err(UnknownDifficulty(v))
  {
    assert ExactMatch(v, Difficulties) == None;
  }

  // ---------------------------------------------------------------------
  // Building the pool

  /** `arg.split('(')[0]`: the text before the first '('. */
  function BeforeParen(arg: string): (r: string)
    ensures '(' !in r && |r| <= |arg| && r == arg[..|r|]
  {
    if '(' in arg then arg[..IndexOf(arg, '(')] else arg
  }

  /** The dice one token adds: a raw die, a trait die, or a trait die and its echo. */
  function TokenDice(c: Sheet, arg: string): (r: Result<seq<TraitDie>, ParseError>)
    ensures arg == "" ==> r == Ok([])
    ensures r.Ok? && arg != "" ==> 1 <= |r.value| <= 2
    ensures r.Ok? && StartsWith(arg, "d") && arg != "" ==> |r.value| == 1 && r.value[0].category.None?
  {
    if arg == "" then Ok([])
    else if StartsWith(arg, "d") then
      if '(' in arg then Err(RawDieStepped)
      else if |arg| > 1 && arg[1..] in ValidDieSizes then Ok([TraitDie(arg[1..], None, None, None)])
      else Err(InvalidDieSize(arg))
    else
      var base := BeforeParen(arg);
      if !IsAlnum(RemoveChar(base, ' ')) then Err(InvalidTraitName(base))
      else
        match TraitDieOf(c, arg)
        case None => Err(UnknownTrait(arg))
        case Some(hit) =>
          var die := TraitDie(hit.size, Some(hit.category), Some(Strip(base)), hit.stepMod);
          Ok(if hit.doubled then [die, TraitDie(hit.size, None, None, None)] else [die])
  }

  /** The pool of a list of tokens: the first failing token decides the error. */
  function PoolOf(c: Sheet, args: seq<string>): Result<seq<TraitDie>, ParseError>
  {
    if args == [] then Ok([])
    else
      match PoolOf(c, args[..|args| - 1])
      case Err(e) => Err(e)
      case Ok(pool) =>
        match TokenDice(c, args[|args| - 1])
        case Err(e) => Err(e)
        case Ok(d) => Ok(pool + d)
  }

  /** One pass of the token loop: the dice a token adds, or the message that ends the parse. */
  method ReadToken(c: Sheet, arg: string) returns (r: Result<seq<TraitDie>, ParseError>)
    ensures r == TokenDice(c, arg)
  {
    if arg == "" {
      return Ok([]);
    }
    if StartsWith(arg, "d") {
      if '(' in arg {
        return Err(RawDieStepped);
      }
      if |arg| > 1 && arg[1..] in ValidDieSizes {
        return Ok([TraitDie(arg[1..], None, None, None)]);
      }
      return Err(InvalidDieSize(arg));
    }
    var base := BeforeParen(arg);
    if !IsAlnum(RemoveChar(base, ' ')) {
      return Err(InvalidTraitName(base));
    }
    var hit := GetTraitDie(c, arg);
    if hit.None? {
      return Err(UnknownTrait(arg));
    }
    var die := TraitDie(hit.value.size, Some(hit.value.category), Some(Strip(base)), hit.value.stepMod);
    if hit.value.doubled {
      return Ok([die, TraitDie(hit.value.size, None, None, None)]);
    }
    return Ok([die]);
  }

  /** The token loop of the parse: appends each token's dice, stopping at the first bad token. */
  method BuildDicePool(c: Sheet, args: seq<string>) returns (r: Result<seq<TraitDie>, ParseError>)
    ensures r == PoolOf(c, args)
  {
    var pool: seq<TraitDie> := [];
    var i := 0;
    while i < |args|
      invariant 0 <= i <= |args|
      invariant PoolOf(c, args[..i]) == Ok(pool)
    {
      PoolNext(c, args, i);
      var dice := ReadToken(c, args[i]);
      if dice.Err? {
        PoolErrorStays(c, args, i + 1);
        return Err(dice.error);
      }
      pool := pool + dice.value;
      i := i + 1;
    }
    assert args[..i] == args;
    return Ok(pool);
  }

  lemma PoolNext(c: Sheet, args: seq<string>, i: nat)
    requires i < |args|
    ensures PoolOf(c, args[..i + 1]) ==
      match PoolOf(c, args[..i])
      case Err(e) => Err(e)
      case Ok(pool) =>
        match TokenDice(c, args[i])
        case Err(e) => Err(e)
        case Ok(d) => Ok(pool + d)
  {
    assert args[..i + 1][..i] == args[..i];
  }

  /** Once a prefix of the tokens fails, every longer prefix fails the same way. */
  lemma {:induction false} PoolErrorStays(c: Sheet, args: seq<string>, i: nat)
    requires i <= |args| && PoolOf(c, args[..i]).Err?
    ensures PoolOf(c, args) == PoolOf(c, args[..i])
    decreases |args| - i
  {
    if i < |args| {
      assert args[..i + 1][..i] == args[..i];
      PoolErrorStays(c, args, i + 1);
    } else {
      assert args[..i] == args;
    }
  }

  /** Every non-empty token adds one or two dice, so the pool is between one and two times the token count. */
  lemma {:induction false} PoolLength(c: Sheet, args: seq<string>)
    requires forall k :: 0 <= k < |args| ==> args[k] != ""
    requires PoolOf(c, args).Ok?
    ensures |args| <= |PoolOf(c, args).value| <= 2 * |args|
  {
    if args != [] {
      var init := args[..|args| - 1];
      assert forall k :: 0 <= k < |init| ==> init[k] == args[k];
      PoolLength(c, init);
    }
  }

  /** A token starting with "d" is read as a raw die whatever the character's traits are. */
  lemma RawTokenIgnoresTraits(c1: Sheet, c2: Sheet, arg: string)
    requires StartsWith(arg, "d")
    ensures TokenDice(c1, arg) == TokenDice(c2, arg)
    ensures TokenDice(c1, arg).Ok? ==> TokenDice(c1, arg).value == [TraitDie(arg[1..], None, None, None)]
  {
  }

  /** A doubled trait adds its die followed at once by an echo of the same size with no category or name. */
  lemma DoubledTraitEcho(c: Sheet, arg: string)
    requires TokenDice(c, arg).Ok? && |TokenDice(c, arg).value| == 2
    ensures var d := TokenDice(c, arg).value;
      d[0].category.Some? && d[0].name.Some? && d[1] == TraitDie(d[0].size, None, None, None)
    ensures TraitDieOf(c, arg).Some? && TraitDieOf(c, arg).value.doubled
  {
  }

  /** Through the command every token is lower case, so no die in a pool ever carries a step modifier. */
  lemma {:induction false} PoolNeverStepped(c: Sheet, args: seq<string>)
    requires forall k :: 0 <= k < |args| ==> IsLower(args[k])
    requires PoolOf(c, args).Ok?
    ensures forall k :: 0 <= k < |PoolOf(c, args).value| ==> PoolOf(c, args).value[k].stepMod == None
  {
    if args != [] {
      var init := args[..|args| - 1];
      assert forall k :: 0 <= k < |init| ==> init[k] == args[k];
      PoolNeverStepped(c, init);
      TokenNeverStepped(c, args[|args| - 1]);
      NoSteppedAppend(PoolOf(c, init).value, TokenDice(c, args[|args| - 1]).value);
    }
  }

  /** No die of the pool carries a step modifier. */
  predicate NoStepped(pool: seq<TraitDie>)
  {
    forall k :: 0 <= k < |pool| ==> pool[k].stepMod == None
  }

  lemma NoSteppedAppend(a: seq<TraitDie>, b: seq<TraitDie>)
    requires NoStepped(a) && NoStepped(b)
    ensures NoStepped(a + b)
  {
    assert forall k :: |a| <= k < |a + b| ==> (a + b)[k] == b[k - |a|];
  }

  /** A lower-case token adds no die with a step modifier. */
  lemma TokenNeverStepped(c: Sheet, arg: string)
    requires IsLower(arg) && TokenDice(c, arg).Ok?
    ensures NoStepped(TokenDice(c, arg).value)
  {
    if arg != "" && !StartsWith(arg, "d") {
      var hit := TraitDieOf(c, arg).value;
      assert hit.stepMod == ParseTraitSpec(arg).stepMod;
      LowercaseSpecNeverSteps(arg);
    }
  }

  function Sizes(pool: seq<TraitDie>): (r: seq<string>)
    ensures |r| == |pool|
    ensures forall k :: 0 <= k < |r| ==> r[k] == pool[k].size
  {
    if pool == [] then [] else [pool[0].size] + Sizes(pool[1..])
  }

  // ---------------------------------------------------------------------
  // The whole parse

  /**
   * What a parse leaves behind: the dice (None on any error), the difficulty
   * field, the new pool when one was stored, and the error.
   */
  datatype ParseOutcome = ParseOutcome(dice: Option<seq<string>>, difficulty: Option<int>, pool: Option<seq<TraitDie>>, error: Option<ParseError>)

  /** The stored difficulty after a refused difficulty clause: only an out-of-range number was already written. */
  function StoredAfterError(e: ParseError): Option<int>
  {
    if e.DifficultyOutOfRange? then Some(e.n) else None
  }

  function Failed(difficulty: Option<int>, e: ParseError): ParseOutcome
  {
    ParseOutcome(None, difficulty, None, Some(e))
  }

  /** The parse of a command line against a character, given the difficulty field before it. */
  function ParseCommand(c: Sheet, text: string, oldDifficulty: Option<int>): ParseOutcome
  {
    if text == "" || Tokens(text) == [] then Failed(oldDifficulty, NoArgs)
    else ParseTokens(c, Tokens(text))
  }

  /** The difficulty named after "vs", if any. */
  function DifficultyOf(value: Option<string>): Result<Option<int>, ParseError>
  {
    match value
    case None => Ok(None)
    case Some(v) =>
      match ParseDifficulty(v)
      case Ok(d) => Ok(Some(d))
      case Err(e) => Err(e)
  }

  /** The parse once tokens exist: the difficulty field was reset, then the "vs" clause and the dice are read. */
  function ParseTokens(c: Sheet, tokens: seq<string>): ParseOutcome
  {
    var vs := SplitVs(tokens);
    match DifficultyOf(vs.value)
    case Err(e) => Failed(StoredAfterError(e), e)
    case Ok(diff) => ParseDice(c, vs.dice, diff)
  }

  /** The count check, the pool and the prime-set rule. */
  function ParseDice(c: Sheet, args: seq<string>, diff: Option<int>): (out: ParseOutcome)
    ensures out.difficulty == diff
    ensures out.error.Some? <==> out.dice.None?
    ensures out.error.Some? ==> out.pool.None?
    ensures out.error.None? ==> 1 <= |args| <= MaxDicePool && out.pool.Some? && PoolOf(c, args) == Ok(out.pool.value)
  {
    if args == [] then Failed(diff, NoDiceGiven)
    else if |args| > MaxDicePool then Failed(diff, TooManyDice)
    else
      match PoolOf(c, args)
      case Err(e) => Failed(diff, e)
      case Ok(pool) =>
        match PoolError(pool)
        case Some(m) => Failed(diff, PoolInvalid(m))
        case None => ParseOutcome(Some(Sizes(pool)), diff, Some(pool), None)
  }

  /**
   * A successful parse of lower-case tokens has between one and ten of them
   * (the limit is on tokens, not dice); its pool passes the prime-set rule,
   * the dice are the pool's sizes, there are at most twice as many dice as
   * tokens, and no die carries a step modifier.
   */
  lemma ParseDiceSuccess(c: Sheet, args: seq<string>, diff: Option<int>)
    requires forall k :: 0 <= k < |args| ==> args[k] != [] && IsLower(args[k])
    requires ParseDice(c, args, diff).error == None
    ensures var out := ParseDice(c, args, diff);
      && 1 <= |args| <= MaxDicePool
      && out.dice.Some? && out.pool.Some?
      && PoolError(out.pool.value) == None
      && out.dice.value == Sizes(out.pool.value)
      && |args| <= |out.dice.value| <= 2 * |args|
      && (forall k :: 0 <= k < |out.pool.value| ==> out.pool.value[k].stepMod == None)
  {
    PoolLength(c, args);
    PoolNeverStepped(c, args);
  }

  /** A whole command line: success means one to ten dice tokens before any "vs" and a pool that passes. */
  lemma ParseSuccess(c: Sheet, text: string, oldDifficulty: Option<int>)
    requires ParseCommand(c, text, oldDifficulty).error == None
    ensures var out := ParseCommand(c, text, oldDifficulty);
      var n := |SplitVs(Tokens(text)).dice|;
      && 1 <= n <= MaxDicePool
      && out.dice.Some? && out.pool.Some?
      && PoolError(out.pool.value) == None
      && out.dice.value == Sizes(out.pool.value)
      && n <= |out.dice.value| <= 2 * n
      && (forall k :: 0 <= k < |out.pool.value| ==> out.pool.value[k].stepMod == None)
  {
    var tokens := Tokens(text);
    var vs := SplitVs(tokens);
    assert forall k :: 0 <= k < |vs.dice| ==> vs.dice[k] == tokens[k];
    var diff := DifficultyOf(vs.value);
    ParseDiceSuccess(c, vs.dice, diff.value);
  }

  /** Before the dice are read, the difficulty is None without a "vs" value and the named difficulty with one. */
  lemma ParseDifficultyField(c: Sheet, tokens: seq<string>)
    ensures var out := ParseTokens(c, tokens);
      var vs := SplitVs(tokens);
      && (vs.value.None? ==> out.difficulty == None)
      && (vs.value.Some? && ParseDifficulty(vs.value.value).Ok? ==> out.difficulty == Some(ParseDifficulty(vs.value.value).value))
      && (vs.value.Some? && ParseDifficulty(vs.value.value).Err? ==> out.dice == None)
  {
  }

  // ---------------------------------------------------------------------
  // Rolling and display grouping

  /** One entry of the displayed roll: a single die, or a named die shown with the echo after it. */
  datatype Shown =
    | Single(value: int, die: string, info: TraitDie)
    | Paired(value: int, extra: int, die: string, info: TraitDie)

  /**
   * The display grouping from position `i` on: a named die followed by an
   * unnamed one is shown as one doubled pair.
   */
  function Pairing(values: seq<int>, dice: seq<string>, traits: seq<TraitDie>, i: nat): (r: seq<Shown>)
    requires |values| == |dice| == |traits| && i <= |values|
    ensures |r| <= |values| - i <= 2 * |r|
    decreases |values| - i
  {
    if i == |values| then []
    else if i + 1 < |values| && Truthy(traits[i].name) && !Truthy(traits[i + 1].name) then
      [Paired(values[i], values[i + 1], dice[i], traits[i])] + Pairing(values, dice, traits, i + 2)
    else
      [Single(values[i], dice[i], traits[i])] + Pairing(values, dice, traits, i + 1)
  }

  /** The rolled values an entry shows. */
  function ShownValues(shown: seq<Shown>): seq<int>
  {
    if shown == [] then []
    else
      match shown[0]
      case Single(v, _, _) => [v] + ShownValues(shown[1..])
      case Paired(v, e, _, _) => [v, e] + ShownValues(shown[1..])
  }

  /** The values one entry shows. */
  function EntryValues(e: Shown): seq<int>
  {
    match e
    case Single(v, _, _) => [v]
    case Paired(v, x, _, _) => [v, x]
  }

  lemma ShownValuesCons(e: Shown, rest: seq<Shown>)
    ensures ShownValues([e] + rest) == EntryValues(e) + ShownValues(rest)
  {
    assert ([e] + rest)[0] == e && ([e] + rest)[1..] == rest;
  }

  lemma {:induction false} ShownValuesAppend(a: seq<Shown>, b: seq<Shown>)
    ensures ShownValues(a + b) == ShownValues(a) + ShownValues(b)
  {
    if a == [] {
      assert a + b == b;
    } else {
      var t := a[1..];
      assert a == [a[0]] + t;
      assert a + b == [a[0]] + (t + b);
      ShownValuesAppend(t, b);
      ShownValuesCons(a[0], t + b);
      ShownValuesCons(a[0], t);
    }
  }

  /** The display shows every rolled value exactly once, in pool order. */
  lemma {:induction false} PairingShowsEveryValue(values: seq<int>, dice: seq<string>, traits: seq<TraitDie>, i: nat)
    requires |values| == |dice| == |traits| && i <= |values|
    ensures ShownValues(Pairing(values, dice, traits, i)) == values[i..]
    decreases |values| - i
  {
    if i < |values| {
      if i + 1 < |values| && Truthy(traits[i].name) && !Truthy(traits[i + 1].name) {
        PairingShowsEveryValue(values, dice, traits, i + 2);
        ShownValuesCons(Paired(values[i], values[i + 1], dice[i], traits[i]), Pairing(values, dice, traits, i + 2));
        assert values[i..] == [values[i], values[i + 1]] + values[i + 2..];
      } else {
        PairingShowsEveryValue(values, dice, traits, i + 1);
        ShownValuesCons(Single(values[i], dice[i], traits[i]), Pairing(values, dice, traits, i + 1));
        assert values[i..] == [values[i]] + values[i + 1..];
      }
    }
  }

  /** A pair is shown only for a named die: the die that opens a pair always carries a trait name. */
  lemma {:induction false} PairsAreNamed(values: seq<int>, dice: seq<string>, traits: seq<TraitDie>, i: nat)
    requires |values| == |dice| == |traits| && i <= |values|
    ensures forall k :: 0 <= k < |Pairing(values, dice, traits, i)| && Pairing(values, dice, traits, i)[k].Paired? ==>
      Truthy(Pairing(values, dice, traits, i)[k].info.name)
    decreases |values| - i
  {
    if i < |values| {
      if i + 1 < |values| && Truthy(traits[i].name) && !Truthy(traits[i + 1].name) {
        PairsAreNamed(values, dice, traits, i + 2);
      } else {
        PairsAreNamed(values, dice, traits, i + 1);
      }
    }
  }

  /** One pass of the display loop that shows a pair. */
  lemma PairedStep(shown: seq<Shown>, values: seq<int>, dice: seq<string>, traits: seq<TraitDie>, i: nat)
    requires |values| == |dice| == |traits| && i + 1 < |values|
    requires Truthy(traits[i].name) && !Truthy(traits[i + 1].name)
    ensures shown + Pairing(values, dice, traits, i) ==
      (shown + [Paired(values[i], values[i + 1], dice[i], traits[i])]) + Pairing(values, dice, traits, i + 2)
  {
    var p := Paired(values[i], values[i + 1], dice[i], traits[i]);
    assert Pairing(values, dice, traits, i) == [p] + Pairing(values, dice, traits, i + 2);
  }

  /** One pass of the display loop that shows a single die. */
  lemma SingleStep(shown: seq<Shown>, values: seq<int>, dice: seq<string>, traits: seq<TraitDie>, i: nat)
    requires |values| == |dice| == |traits| && i < |values|
    requires !(i + 1 < |values| && Truthy(traits[i].name) && !Truthy(traits[i + 1].name))
    ensures shown + Pairing(values, dice, traits, i) ==
      (shown + [Single(values[i], dice[i], traits[i])]) + Pairing(values, dice, traits, i + 1)
  {
    var s := Single(values[i], dice[i], traits[i]);
    assert Pairing(values, dice, traits, i) == [s] + Pairing(values, dice, traits, i + 1);
  }

  /** The `while i < len(rolls)` loop that groups the rolls for display. */
  method GroupForDisplay(values: seq<int>, dice: seq<string>, traits: seq<TraitDie>) returns (shown: seq<Shown>)
    requires |values| == |dice| == |traits|
    ensures shown == Pairing(values, dice, traits, 0)
    ensures ShownValues(shown) == values
  {
    shown := [];
    var i := 0;
    while i < |values|
      invariant 0 <= i <= |values|
      invariant Pairing(values, dice, traits, 0) == shown + Pairing(values, dice, traits, i)
      decreases |values| - i
    {
      var t := traits[i];
      if i + 1 < |values| && Truthy(t.name) && !Truthy(traits[i + 1].name) {
        PairedStep(shown, values, dice, traits, i);
        shown := shown + [Paired(values[i], values[i + 1], dice[i], t)];
        i := i + 2;
      } else {
        SingleStep(shown, values, dice, traits, i);
        shown := shown + [Single(values[i], dice[i], t)];
        i := i + 1;
      }
    }
    PairingShowsEveryValue(values, dice, traits, 0);
  }

  /** The rolls of a pool: value, die size, and position. */
  function RollsOf(values: seq<int>, dice: seq<string>): (r: seq<Roll>)
    requires |values| == |dice|
    ensures |r| == |values|
    ensures forall k :: 0 <= k < |r| ==> r[k] == Roll(values[k], dice[k], k)
  {
    seq(|values|, k requires 0 <= k < |values| => Roll(values[k], dice[k], k))
  }

  predicate AllOnes(values: seq<int>) { forall k :: 0 <= k < |values| ==> values[k] == 1 }

  /** What the command reports. */
  datatype RollReport =
    | NoRoll
    | Botch(shown: seq<Shown>)
    | Rolled(shown: seq<Shown>, outcome: Outcome, twoDiceNote: bool, level: Option<(bool, bool)>)

  /** The report for a pool, its rolled values and the difficulty, as a value. */
  function Report(dice: Option<seq<string>>, traits: seq<TraitDie>, difficulty: Option<int>, values: seq<int>): RollReport
    requires dice.Some? ==> |dice.value| == |traits| == |values|
  {
    if dice.None? || dice.value == [] then NoRoll
    else
      var shown := Pairing(values, dice.value, traits, 0);
      if AllOnes(values) then Botch(shown)
      else
        var outcome := ProcessResults(RollsOf(values, dice.value));
        var level := if difficulty.Some? then Some(GetSuccessLevel(outcome.total, difficulty)) else None;
        Rolled(shown, outcome, |dice.value| == 2, level)
  }

  /** With every value at least 1, a roll is a botch exactly when every die is a hitch. */
  lemma BotchIffAllHitches(dice: seq<string>, traits: seq<TraitDie>, difficulty: Option<int>, values: seq<int>)
    requires |dice| == |traits| == |values| && |dice| > 0
    requires forall k :: 0 <= k < |values| ==> values[k] >= 1
    ensures Report(Some(dice), traits, difficulty, values).Botch? <==> |Hitches(RollsOf(values, dice))| == |dice|
  {
    var rolls := RollsOf(values, dice);
    HitchesAndValidPartition(rolls);
    if !AllOnes(values) {
      var k :| 0 <= k < |values| && values[k] != 1;
      ValidRollsHas(rolls, k);
    } else {
      NoValidRolls(rolls);
    }
  }

  lemma {:induction false} NoValidRolls(rolls: seq<Roll>)
    requires forall k :: 0 <= k < |rolls| ==> rolls[k].value == 1
    ensures ValidRolls(rolls) == []
  {
    if rolls != [] {
      NoValidRolls(rolls[1..]);
    }
  }

  lemma {:induction false} ValidRollsHas(rolls: seq<Roll>, k: nat)
    requires k < |rolls| && rolls[k].value > 1
    ensures |ValidRolls(rolls)| > 0
  {
    if k > 0 {
      ValidRollsHas(rolls[1..], k - 1);
    }
  }

  /**
   * The `roll` command's state: the dice sizes, the difficulty and the pool
   * left by the last parse.
   */
  class CmdCortexRoll {
    var dice: Option<seq<string>>
    var difficulty: Option<int>
    var traitInfo: seq<TraitDie>

    ghost predicate Valid()
      reads this
    {
      dice.Some? ==> |dice.value| == |traitInfo|
    }

    constructor ()
      ensures Valid() && dice == None && difficulty == None && traitInfo == []
    {
      dice := None;
      difficulty := None;
      traitInfo := [];
    }

    /** Parses a command line against the caller's traits and stores dice, difficulty and pool. */
    method Parse(c: Sheet, text: string) returns (error: Option<ParseError>)
      modifies this
      ensures Valid()
      ensures var out := ParseCommand(c, text, old(difficulty));
        && dice == out.dice && difficulty == out.difficulty && error == out.error
        && traitInfo == (if out.pool.Some? then out.pool.value else old(traitInfo))
    {
      ghost var out := ParseCommand(c, text, old(difficulty));
      if text == "" {
        dice := None;
        return Some(NoArgs);
      }
      var args := Tokenize(text);
      if args == [] {
        dice := None;
        return Some(NoArgs);
      }
      difficulty := None;
      var vs := SplitVs(args);
      if vs.value.Some? {
        var d := MatchDifficulty(vs.value.value);
        if d.Err? {
          difficulty := StoredAfterError(d.error);
          dice := None;
          return Some(d.error);
        }
        difficulty := Some(d.value);
      }
      if vs.dice == [] {
        dice := None;
        return Some(NoDiceGiven);
      }
      if |vs.dice| > MaxDicePool {
        dice := None;
        return Some(TooManyDice);
      }
      var pool := BuildDicePool(c, vs.dice);
      if pool.Err? {
        dice := None;
        return Some(pool.error);
      }
      var message := ValidateDicePool(pool.value);
      if message.Some? {
        dice := None;
        return Some(PoolInvalid(message.value));
      }
      dice := Some(Sizes(pool.value));
      traitInfo := pool.value;
      return None;
    }

    /**
     * Rolls the stored dice with the given values: a botch when every value
     * is 1, otherwise the processed outcome, the grouped display, the
     * two-dice note and, with a difficulty, the success level.
     */
    method Func(values: seq<int>) returns (report: RollReport)
      requires Valid()
      requires dice.Some? ==> |values| == |dice.value|
      requires dice.Some? ==> forall k :: 0 <= k < |values| ==> values[k] >= 1
      ensures report == Report(dice, traitInfo, difficulty, values)
      ensures dice.Some? && dice.value != [] && !AllOnes(values) ==>
        report.Rolled? && report.outcome.hitches == Hitches(RollsOf(values, dice.value))
    {
      if dice.None? || dice.value == [] {
        return NoRoll;
      }
      var sizes := dice.value;
      var shown := GroupForDisplay(values, sizes, traitInfo);
      if forall k :: 0 <= k < |values| ==> values[k] == 1 {
        return Botch(shown);
      }
      var outcome := ProcessResults(RollsOf(values, sizes));
      var level: Option<(bool, bool)> := None;
      if difficulty.Some? {
        level := Some(GetSuccessLevel(outcome.total, difficulty));
      }
      report := Rolled(shown, outcome, |sizes| == 2, level);
    }
  }
}
