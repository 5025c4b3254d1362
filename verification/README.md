# Empire: a verified model of the Cortex Prime dice engine and its game services

Empire is a MUD built on Evennia that runs the Cortex Prime role-playing rules. This project models in Dafny:

- its dice engine: step arithmetic on the die ladder d4..d12, trait lookup across five categories, the prime-set rule (attribute, skill and distinction), and result processing into hitches, total and effect die;
- the `roll` command's parsing, botch check and display pairing;
- the services around the engine, each with its own module:
  - organisation membership and ranks, in both the current and the older variant;
  - resources and their ownership history;
  - room access and the `orgmember` lock;
  - the request (ticket) lifecycle and the handler that ages requests;
  - bulletin boards;
  - trait initialisation;
  - plot points;
  - temporary assets;
  - the `resource` command's lookups and listing;
  - the staff sheet editor.

Each module follows its source file. Objects whose fields the code updates in place are classes, with `modifies` clauses on their methods. Pure helpers are functions. Loops are methods with invariants, proved against specification functions. Python exceptions are returned as error values. Evennia's searches, lock checks and trait handlers become parameters: what the search found, and whether the lock passed. Rolled die values and the wall clock are inputs.

The model follows the code as written, including where it departs from the documentation or the tests:

- The `roll` command lower-cases every token, while `get_trait_die` recognises only an upper-case `U` or `D` step suffix. Through the command, step suffixes never apply (`Cortex.LowercaseSpecNeverSteps`, `CortexRoll.PoolNeverStepped`).
- The 10-die limit counts tokens before doubling. A doubled trait adds a die after that check (`CortexRoll.PoolLength`).
- `setdist` checks the slot in lower case but stores the distinction under the slot as typed. "Concept" therefore lands beside the "concept" slot rather than replacing it (`CharsheetEditor.SetDistKeyIsSlot`, `CharsheetEditor.CapitalSlotExample`).
- `get_unique_resource_name` turns a taken "gold" into "gold 1", not the "gold_2" that tests/test_resources.py:203 expects (`OrgUtils.GetUniqueResourceName`).
- `process_results` returns the list of hitch dice, not a count, and its total is the two highest non-hitch values (`Cortex.ProcessResultsExample`).
- The board's listing sorts on a plain `pinned` attribute that `pin_post` never writes, so posts are listed newest first (`Boards.Board.GetPosts`).
- Both organisation objects read rank names through `self.ranks`, an Evennia `lazy_property`. Its first read stores a copy of `db.ranks` on the object, and names set after that are neither used as `add_member`'s default nor shown by `get_rank` (`Organisations.StaleRankNames`, `Organizations.StaleRankName`).

Supporting modules:

- `Wrappers`: Option and Result.
- `Strings`: the Python string operations used, on ASCII. These are strip, lower, split, `int()` and `str()`.
- `Sets` and `Lists`: minimum of a finite set, and `list.remove`.

utils/org_utils.py:130-159 repeats `parse_equals` and `parse_comma` of utils/command_utils.py with the same behaviour; `CommandUtils.ParseEquals` and `CommandUtils.ParseComma` model both copies.

## Model

| member | source | states |
|---|---|---|
| Cortex.LadderIndex | utils/cortex.py:19-33 | the position of a size on the ladder 4/6/8/10/12, or none exactly when the size is not on it |
| Cortex.LadderIndexOfRung | utils/cortex.py:19-33 | every rung is found at its own position |
| Cortex.StepDie | utils/cortex.py:21-37 | stepping keeps a size on the ladder on it, and returns a size off the ladder unchanged |
| Cortex.StepDiePosition | utils/cortex.py:33-35 | the new position is the old one plus the steps, clamped to 0..4 |
| Cortex.StepDieExamples | utils/cortex.py:21-37 | d12 up one stays d12, d4 down one stays d4, d4 up two is d8, d8 down one is d6, "20" is returned as is |
| Cortex.StepDieCompose | utils/cortex.py:33-35 | two steps in the same direction equal one step of their sum |
| Cortex.ParseTraitSpec | utils/cortex.py:64-74 | a suffix is read only when both parentheses occur; the step modifier is only "U" or "D"; a step modifier and doubling are never both set |
| Cortex.SuffixParsed | utils/cortex.py:67-74 | for "name(m)": the name is stripped, "U"/"D" set the step modifier exactly when m is that letter, and doubling is set exactly when m lower-cased is "double" |
| Cortex.LowerUIgnored | utils/cortex.py:67-73 | a lower-case "u" after the "(" is no step modifier |
| Cortex.UnclosedIgnored | utils/cortex.py:67 | without ")" no suffix is read: the whole text is the name, with no modifier and no doubling |
| Cortex.StepModIsUpper | utils/cortex.py:67-73 | a step modifier is only ever read from an upper-case letter right after the first "(" |
| Cortex.LowercaseSpecNeverSteps | utils/cortex.py:70 | a lower-cased specification (as the roll command passes) never gets a step modifier |
| Cortex.FirstHit | utils/cortex.py:77-87 | the first category, in the fixed order, whose store holds the name; none exactly when no store holds it |
| Cortex.GetTraitDie | utils/cortex.py:60-94 | the loop returns the lookup of the first category whose store holds the trait, or none (also when the character has no trait stores) |
| Cortex.HitCategory | utils/cortex.py:85-92 | the category reported is the first store holding the name |
| Cortex.TraitDiePriority | utils/cortex.py:60-94 | a lookup succeeds iff the character has trait stores and some store holds the name; it reports category k iff store k holds the name and no earlier store does |
| Cortex.TraitDieSize | utils/cortex.py:86-92 | the size is the stored base as text, stepped up one for "U" and down one for "D"; the step modifier and doubling are passed through |
| Cortex.MissingSets | utils/cortex.py:135-141 | each prime set is listed exactly when it is absent, in the order Attribute, Skill, Distinction |
| Cortex.ValidateDicePool | utils/cortex.py:113-150 | the loop's verdict equals the prime-set rule on the whole pool |
| Cortex.RawPoolPasses | utils/cortex.py:119-120 | a pool with no categories (raw dice and doubling echoes) always passes |
| Cortex.PrimeSetRule | utils/cortex.py:133-150 | a pool using any trait passes iff it holds an attributes, a skills and a distinctions die |
| Cortex.MissingOneExample | utils/cortex.py:144-145 | one missing set gives "... you must include a Skill." |
| Cortex.MissingAllExample | utils/cortex.py:146-148 | three missing sets give "... an Attribute, Skill and Distinction." |
| Cortex.Hitches | utils/cortex.py:170 | the die sizes of the rolls equal to 1, in pool order |
| Cortex.ValidRolls | utils/cortex.py:173 | the rolls above 1, in pool order |
| Cortex.FiltersAppend | utils/cortex.py:170-173 | both filters keep pool order (they distribute over concatenation) |
| Cortex.HitchesAndValidPartition | utils/cortex.py:170-173 | with rolls of at least 1, every roll is a hitch or scored and never both |
| Cortex.Insert | utils/cortex.py:176 | insertion keeps the contents (as a multiset) and adds one element |
| Cortex.SortDesc | utils/cortex.py:176 | the sort is a permutation of its input |
| Cortex.InsertSorted | utils/cortex.py:176 | inserting into a descending list keeps it descending |
| Cortex.SortDescSorted | utils/cortex.py:176 | the sort's output is descending by value |
| Cortex.InsertStable | utils/cortex.py:176 | insertion places a new element before the existing elements of the same value |
| Cortex.SortDescStable | utils/cortex.py:176 | the sort is stable: rolls of each value keep pool order |
| Cortex.ProcessResults | utils/cortex.py:156-189 | hitches are exactly the 1s; with fewer than two rolls above 1 the result is 0 and d4; with at most two the effect is d4; with three or more the effect die is the die of the third entry of the stable descending order of the rolls above 1 (`Cortex.SortDescSorted`, `Cortex.SortDescStable`) |
| Cortex.SortedPairBound | utils/cortex.py:182 | in a descending list no two entries sum to more than the first two |
| Cortex.PairBoundedBySorted | utils/cortex.py:176-182 | any two distinct rolls sum to at most the first two of the sorted copy |
| Cortex.TotalIsBestPair | utils/cortex.py:178-182 | the total is the largest sum of two distinct rolls above 1, and some such pair attains it |
| Cortex.TotalBound | utils/cortex.py:182 | no two distinct rolls above 1 sum to more than the total |
| Cortex.TotalAttained | utils/cortex.py:182 | some two distinct rolls above 1 sum to the total |
| Cortex.ProcessResultsExample | utils/cortex.py:176-189 | rolls 5(d8), 1(d6), 5(d10), 5(d12) give total 10, effect d12 (ties broken by pool order) and hitches [d6] |
| Cortex.GetSuccessLevel | utils/cortex.py:191-214 | no difficulty gives (success, not heroic); otherwise success iff total >= difficulty and heroic iff total >= difficulty + 5, so heroic implies success |
| CortexRoll.CleanArgs | commands/cortex_roll.py:156 | every argument kept is non-empty and lower case, and none is added |
| CortexRoll.Tokenize | commands/cortex_roll.py:133-156 | the word loop with its quote flag and buffer yields the tokens of the command line |
| CortexRoll.FoldNext | commands/cortex_roll.py:138-150 | the loop state after one more word is one step of the quote rules |
| CortexRoll.FoldWithoutQuotes | commands/cortex_roll.py:147-150 | words without quotation marks are appended one by one and the buffer stays empty |
| CortexRoll.CleanWords | commands/cortex_roll.py:156 | cleaning whitespace-free words only lowercases them |
| CortexRoll.PlainTokens | commands/cortex_roll.py:133-156 | without quotation marks the tokens are the whitespace-separated words, lowercased |
| CortexRoll.QuotedPair | commands/cortex_roll.py:139-145 | a word opening a quote and a word closing it become one argument joined by one space |
| CortexRoll.FirstIndex | commands/cortex_roll.py:166 | the position of the first "vs" |
| CortexRoll.SplitVs | commands/cortex_roll.py:164-171 | with a value after the first "vs", the dice are the tokens before it and the value is the rest joined by spaces; otherwise the tokens are all dice |
| CortexRoll.ExactMatch | commands/cortex_roll.py:186-190 | a value is found exactly when it equals some lower-cased table name |
| CortexRoll.PartialMatches | commands/cortex_roll.py:201-207 | the table entries whose lower-cased name contains the value, in table order |
| CortexRoll.MatchDifficulty | commands/cortex_roll.py:174-218 | the two table loops give the difficulty the value names, or why it was refused |
| CortexRoll.ExactPass | commands/cortex_roll.py:186-189 | the exact pass yields the value of the first table entry whose lower-cased name is the value, or none |
| CortexRoll.PartialPass | commands/cortex_roll.py:201-206 | the partial pass collects, in table order, every entry whose lower-cased name contains the value (a bare "very" never counts as a prefix match) |
| CortexRoll.ParseDifficulty | commands/cortex_roll.py:174-218 | an all-digit value is accepted iff its number is in 1..30, and every accepted difficulty, numeric or named, lies in 1..30 |
| CortexRoll.ExactMatchBounded | commands/cortex_roll.py:186-190 | an exact name match yields the value of a table entry, so it keeps any bounds the table keeps |
| CortexRoll.NumericDifficulty | commands/cortex_roll.py:174-180 | an all-digit value is accepted iff its number is in 1..30, and then gives that number |
| CortexRoll.NumericDifficultyRoundTrip | commands/cortex_roll.py:174-180 | the decimal text of any number in 1..30 reads back as that number |
| CortexRoll.NamedDifficulty | commands/cortex_roll.py:182-218 | a non-numeric value that is no exact name and not "very" is accepted iff exactly one name contains it; several matches are ambiguous and none is unknown |
| CortexRoll.BeforeParen | commands/cortex_roll.py:259 | the text before the first "(" |
| CortexRoll.TokenDice | commands/cortex_roll.py:242-279 | an empty token adds nothing; an accepted token adds one or two dice; an accepted raw "d" token adds exactly one die with no category |
| CortexRoll.ReadToken | commands/cortex_roll.py:242-279 | one pass of the token loop adds the token's dice or ends the parse with its message |
| CortexRoll.BuildDicePool | commands/cortex_roll.py:235-279 | the token loop appends each token's dice in order and stops at the first bad token |
| CortexRoll.PoolNext | commands/cortex_roll.py:237-279 | the pool of one more token extends the pool so far by that token's dice |
| CortexRoll.PoolErrorStays | commands/cortex_roll.py:237-279 | the first failing token decides the error |
| CortexRoll.PoolLength | commands/cortex_roll.py:237-279 | each token adds one or two dice, so a doubled trait can take the pool past ten |
| CortexRoll.RawTokenIgnoresTraits | commands/cortex_roll.py:243-256 | a token starting with "d" never reaches trait lookup and gives a raw die with no category |
| CortexRoll.DoubledTraitEcho | commands/cortex_roll.py:266-275 | a doubled trait adds its die followed at once by a die of the same size with no category or name |
| CortexRoll.PoolNeverStepped | commands/cortex_roll.py:156 | from lower-case tokens no die carries a step modifier |
| CortexRoll.TokenNeverStepped | commands/cortex_roll.py:242-279 | the dice added by one lower-case token carry no step modifier |
| CortexRoll.Sizes | commands/cortex_roll.py:289 | the stored dice are the pool's sizes, position by position |
| CortexRoll.ParseDice | commands/cortex_roll.py:223-290 | an error exactly when no dice are stored; success needs 1..10 tokens and the token loop's pool |
| CortexRoll.ParseDiceSuccess | commands/cortex_roll.py:223-290 | a successful parse has 1..10 tokens, a pool that passes the prime-set rule, dice that are its sizes, at most twice as many dice as tokens and no step modifier |
| CortexRoll.ParseSuccess | commands/cortex_roll.py:125-290 | a successful parse of a command line has 1..10 dice tokens before "vs" and a pool that passes the prime-set rule |
| CortexRoll.ParseDifficultyField | commands/cortex_roll.py:164-221 | the difficulty is reset to none, set by a valid "vs" value, and a refused value stores no dice |
| CortexRoll.ShownValuesAppend | commands/cortex_roll.py:328-337 | the shown values of two displays in a row are the values of each in turn |
| CortexRoll.PairingShowsEveryValue | commands/cortex_roll.py:328-337 | the display shows every rolled value exactly once, in pool order |
| CortexRoll.PairsAreNamed | commands/cortex_roll.py:331-334 | a pair is shown only where a die with a name comes first |
| CortexRoll.Pairing | commands/cortex_roll.py:328-337 | the display from position i has between half and all as many entries as there are rolls left |
| CortexRoll.PairedStep | commands/cortex_roll.py:331-334 | a named die followed by an unnamed one is shown as one pair, and the walk resumes two places on |
| CortexRoll.SingleStep | commands/cortex_roll.py:335-337 | otherwise the die is shown alone and the walk resumes at the next one |
| CortexRoll.GroupForDisplay | commands/cortex_roll.py:328-337 | the index loop groups the rolls by adjacency and shows every value in order |
| CortexRoll.RollsOf | commands/cortex_roll.py:299 | each roll carries its value, its die size and its position |
| CortexRoll.BotchIffAllHitches | commands/cortex_roll.py:302-321 | with rolls of at least 1, a roll is a botch iff every die is a hitch |
| CortexRoll.CmdCortexRoll.constructor | commands/cortex_roll.py:125-130 | no dice, no difficulty and no trait information yet |
| CortexRoll.CmdCortexRoll.Parse | commands/cortex_roll.py:125-290 | the stored dice, difficulty and error are those of the parse of the line, and the pool is stored only on success |
| CortexRoll.CmdCortexRoll.Func | commands/cortex_roll.py:292-345 | the report is a botch for all 1s and otherwise the processed outcome, whose hitches are the 1s of the rolls |
| OrgUtils.ValidateRank | utils/org_utils.py:37-49 | a number that reads and lies in 1..10 is returned; one that reads but lies outside gives none even with a default; input that does not read gives the default |
| OrgUtils.ValidRankRoundTrip | utils/org_utils.py:37-43 | the decimal text of a rank in 1..10 validates to that rank whatever the default |
| OrgUtils.OutOfRangeIgnoresDefault | utils/org_utils.py:39-42 | a number outside 1..10 gives none even when a default is given |
| OrgUtils.TrailingDigits | utils/org_utils.py:179 | the final run of digits is maximal |
| OrgUtils.TrailingSpaces | utils/org_utils.py:179 | the final run of whitespace is maximal |
| OrgUtils.TrimNumber | utils/org_utils.py:179 | removing a whitespace-and-digits suffix leaves a prefix that, if shorter, does not end in whitespace |
| OrgUtils.NumberedInjective | utils/org_utils.py:188-192 | different counters give different names |
| OrgUtils.StripNumbered | utils/org_utils.py:179 | "base n" loses exactly its number |
| OrgUtils.UniqueNameDetermined | utils/org_utils.py:178-196 | the promise of the function leaves exactly one answer |
| OrgUtils.GetUniqueResourceName | utils/org_utils.py:162-196 | the result is never taken: the stripped base when free, otherwise "base n" for the smallest free n from 1 |
| CommandUtils.StripAll | utils/command_utils.py:20 | every part stripped, in order |
| CommandUtils.ParseEquals | utils/command_utils.py:16-20 | nothing iff there is no "="; otherwise the stripped parts before and after the first "=" |
| CommandUtils.EqualsSplitTail | utils/command_utils.py:20 | a split at most once yields two parts, the second being everything after the first "=" |
| CommandUtils.ParseEqualsAt | utils/command_utils.py:20 | only the first "=" cuts: the right part keeps any further "=" |
| CommandUtils.SplitNLength | utils/command_utils.py:36 | a split limited to n cuts yields one more part than the cuts it makes |
| CommandUtils.CommaParts | utils/command_utils.py:36 | one stripped part per piece of the limited split |
| CommandUtils.ParseComma | utils/command_utils.py:35-45 | parts come back only in the expected number, each stripped |
| CommandUtils.ParseCommaCount | utils/command_utils.py:36-40 | the parts come back iff at least one part is expected and the text has at least expected - 1 commas |
| CommandUtils.ParseCommaParts | utils/command_utils.py:36 | the raw pieces of the split, joined again by commas, give the text back: nothing is lost before the pieces are stripped |
| CommandUtils.ParseCommaKeepsLast | utils/command_utils.py:36 | with two parts expected the last part keeps every further comma |
| Organisations.Character.constructor | typeclasses/organisations.py:91 | a character starts with no organisations map |
| Organisations.ChosenRank | typeclasses/organisations.py:79-84 | a given rank is kept; without one the lowest defined rank number is used if any rank is defined, else 1 |
| Organisations.Organisation.constructor | typeclasses/organisations.py:63-69 | no members, no rank names, no head, and `self.ranks` not yet read |
| Organisations.Organisation.RankOf | typeclasses/organisations.py:133-136 | a result exactly for a member with a non-zero rank: its number, with its name in `self.ranks` when it has one and "Rank n" otherwise |
| Organisations.Organisation.GetRank | typeclasses/organisations.py:123-136 | returns `RankOf`; only for a member with a non-zero rank does it read `self.ranks`, which stores the copy of `db.ranks` if none is stored yet; the names shown do not change |
| Organisations.Organisation.AddMember | typeclasses/organisations.py:71-92 | without a rank `self.ranks` is read (its copy stored if not yet stored) and the default comes from that copy; a chosen rank outside 1..10 is refused before the maps change; otherwise both maps record the rank and stay in step |
| Organisations.Organisation.RemoveMember | typeclasses/organisations.py:94-104 | the member leaves both maps; a non-member changes nothing; a non-empty character map that lacks the organisation raises after the member entry is gone |
| Organisations.Organisation.SetRank | typeclasses/organisations.py:106-121 | a rank outside 1..10 is refused before anything changes; a non-member is added; a member has both maps updated (a character without a map raises after the member entry is written) |
| Organisations.Organisation.RankName | typeclasses/organisations.py:135 | a rank named in `self.ranks` (the stored copy once taken, else `db.ranks`) shows that name; any other rank n shows "Rank n" |
| Organisations.Organisation.SetRankName | typeclasses/organisations.py:138-149 | only rank numbers 1..10 can be named, and only that entry of `db.ranks` changes; the new name shows only while `self.ranks` has not been read, after which the names shown stay those of the stored copy |
| Organisations.StaleRankNames | typeclasses/organisations.py:28-31 | after `add_member` without a rank, `set_rank_name(3, "Squire")` and another `add_member` without a rank, `get_rank` gives (1, "Rank 1") |
| Organisations.Organisation.Delete | typeclasses/organisations.py:168-184 | every member the search finds leaves both maps, the others stay, and the head is cleared |
| Organizations.Organisation.constructor | typeclasses/organizations.py:60-66 | no members, no ranks, no head, and `self.ranks` not yet read |
| Organizations.Organisation.RankOf | typeclasses/organizations.py:118-121 | a rank name exactly for a member with a truthy rank that `self.ranks` names |
| Organizations.Organisation.GetRank | typeclasses/organizations.py:108-121 | returns `RankOf`; only for a member with a truthy rank does it read `self.ranks`, which stores `db.ranks or {}` if nothing is stored yet; the names shown do not change |
| Organizations.Organisation.AddMember | typeclasses/organizations.py:68-82 | without a rank `self.ranks` is read (stored if not yet stored) and its lowest rank id is used when it has one; otherwise the given value, none included, is stored unchecked in both maps |
| Organizations.Organisation.RemoveMember | typeclasses/organizations.py:84-94 | as in the current variant: the member leaves both maps and a non-member changes nothing |
| Organizations.Organisation.SetRank | typeclasses/organizations.py:96-106 | only an existing member's rank changes, in both maps; a non-member changes nothing |
| Organizations.Organisation.AddRank | typeclasses/organizations.py:123-131 | the rank id gets the name in `db.ranks` and nothing else changes; once `self.ranks` is stored, the names shown stay those stored |
| Organizations.StaleRankName | typeclasses/organizations.py:25-28 | rank 1 named "Page", a member added without a rank, then rank 1 renamed "Knight": `get_rank` still gives "Page" |
| Organizations.Organisation.RemoveRank | typeclasses/organizations.py:133-145 | a defined rank is removed and every member holding it leaves the members map (the characters' maps are untouched); an undefined rank changes nothing |
| Resources.Giver | typeclasses/resources.py:80-82 | the transfer comes from the named giver when there is one, else the previous owner; none only when both are absent |
| Resources.NameOf | typeclasses/resources.py:96-97 | an absent end of a transfer is shown as "Unknown", a present one by its name |
| Resources.HistoryLine | typeclasses/resources.py:98 | a line starts with the time and ": " and ends with " -> " and the receiver's name |
| Resources.FormatHistory | typeclasses/resources.py:87-99 | one line per recorded transfer |
| Resources.FormatHistoryLines | typeclasses/resources.py:94-99 | the k-th line is the line of the k-th recorded transfer, so the lines keep the order of the history |
| Resources.FormatHistoryOnly | typeclasses/resources.py:87-99 | a list with one line per transfer, each the line of that transfer, is the formatted history |
| Resources.FormatHistoryAppend | typeclasses/resources.py:94-99 | recording one more transfer adds exactly its line at the end |
| Resources.HistoryLineTime | typeclasses/resources.py:98 | the time reads back from the text before the first ":" of a line |
| Resources.Resource.constructor | typeclasses/resources.py:35-38 | a new resource is a d6 with no owner, no origin and an empty history |
| Resources.Resource.SetDieSize | typeclasses/resources.py:45-58 | only 4, 6, 8, 10 or 12 is stored; anything else is refused and the size is kept; nothing else changes |
| Resources.Resource.SetOwner | typeclasses/resources.py:65-85 | the owner becomes the new one; the origin is set only when there was none; one transfer line is appended exactly when there is a giver or a previous owner, and the earlier history is kept |
| Resources.Resource.GetHistory | typeclasses/resources.py:87-99 | the loop builds the formatted history: one line per entry, the k-th line that of the k-th entry, "Unknown" for an absent end |
| Resources.OriginIsFixed | typeclasses/resources.py:75-77 | once set, the origin survives any later ownership changes |
| Resources.OriginIsFirstOwner | typeclasses/resources.py:75-77 | starting without an origin, the origin is the first owner actually set |
| Rooms.Ids | typeclasses/rooms.py:33-46 | an unset record holds no ids, a set one holds its keys |
| Rooms.OrgShared | typeclasses/rooms.py:65-68 | the walk over the owning organisations reports a shared one only when there is one |
| Rooms.OrgSharedComplete | typeclasses/rooms.py:65-68 | the walk finds a shared organisation whenever there is one |
| Rooms.HasAccess | typeclasses/rooms.py:48-70 | an owner and a key holder are always let in (the full rule is `Rooms.HasAccessGrounds`) |
| Rooms.HasAccessGrounds | typeclasses/rooms.py:48-70 | access is granted iff the character is an owner, or holds a key, or shares an organisation with the room's owning organisations |
| Rooms.UnsetIsEmpty | typeclasses/rooms.py:33-46 | an unset record and an empty one give the same answer |
| Rooms.NoRecordsNoAccess | typeclasses/rooms.py:58-70 | a room with no records lets nobody in |
| Rooms.KeyGrantsAccess | typeclasses/rooms.py:61-62 | recording a key holder grants that character access |
| Rooms.OrgOwnerMonotone | typeclasses/rooms.py:65-68 | adding an owning organisation never takes access away |
| Lockfuncs.MinRank | server/conf/lockfuncs.py:44 | the second argument read as a number, or 10 when there is none |
| Lockfuncs.OrgMember | server/conf/lockfuncs.py:32-64 | no arguments give false; a rank that does not read is an error; with a readable rank an unknown organisation gives false and a character without an organisations attribute is an error; true iff the organisation is found and the character's rank there is at most the asked rank |
| Lockfuncs.RankThreshold | server/conf/lockfuncs.py:59-62 | with a written rank m, a member passes iff its rank is at most m (lower is better) |
| Lockfuncs.DefaultRankIsTen | server/conf/lockfuncs.py:44 | leaving out the rank is the same as asking for 10 |
| Lockfuncs.LooserRankKeepsAccess | server/conf/lockfuncs.py:59-62 | raising the asked rank never locks out someone who passed |
| Lockfuncs.NonMemberRefused | server/conf/lockfuncs.py:59-64 | a character who is not in the organisation found is refused |
| Requests.ExpiryIsStrict | typeclasses/requests.py:291-305 | exactly 30 days after closing (60 after archiving) is not yet enough, one second more is |
| Requests.ShouldAutoArchive | typeclasses/requests.py:291-297 | due only for a closed request whose closing date lies before now (the 30-day boundary is `Requests.ExpiryIsStrict`) |
| Requests.ShouldBeDeleted | typeclasses/requests.py:299-305 | due only for an archived request whose archiving date lies before now (the 60-day boundary is `Requests.ExpiryIsStrict`) |
| Requests.ExpiryNeedsState | typeclasses/requests.py:291-305 | only a closed request with a closing date expires into the archive, and only an archived one with an archiving date is due for deletion |
| Requests.NextId | typeclasses/requests.py:147-162 | the smallest positive id not in use |
| Requests.Request.constructor | typeclasses/requests.py:99-119 | the smallest free id, status Open, category General, no comments, not archived, created and modified now |
| Requests.Request.AddComment | typeclasses/requests.py:220-231 | one comment appended and the modification date set; nothing else changes |
| Requests.Request.AssignTo | typeclasses/requests.py:240-244 | the assignee and the modification date change, nothing else |
| Requests.Request.ChangeStatus | typeclasses/requests.py:252-265 | only Open, In Progress, Resolved and Closed are accepted and anything else changes nothing; Closed stamps the closing date; only a non-empty resolution replaces the old one |
| Requests.Request.Archive | typeclasses/requests.py:273-277 | archived and stamped now, so not due for deletion at that moment |
| Requests.Request.Unarchive | typeclasses/requests.py:282-286 | the flag and the archiving date are cleared, so it is never due for deletion |
| Requests.Request.Age | typeclasses/requests.py:37-42 | one request's share of a pass: deleted when due for deletion, archived when not archived and due for archiving; kept on the list iff not deleted |
| Requests.Request.Delete | typeclasses/requests.py:37-40 | a deleted request no longer exists and keeps its attributes |
| Requests.Live | typeclasses/requests.py:66-74 | only requests that still exist, from the list |
| Requests.Active | typeclasses/requests.py:66-69 | a sub-list of the requests, each still existing and not archived |
| Requests.Archived | typeclasses/requests.py:71-74 | a sub-list of the requests, each still existing and archived |
| Requests.ActiveArchivedPartition | typeclasses/requests.py:66-74 | the active and the archived requests split the live ones: every live request is in exactly one |
| Requests.Aged | typeclasses/requests.py:37-42 | a request due for deletion is deleted as it is; a non-archived one due for archiving is archived now |
| Requests.AgedCases | typeclasses/requests.py:37-42 | a pass never both archives and deletes a request, and leaves every other request as it was |
| Requests.Snapshot | typeclasses/requests.py:37 | the attributes and existence of each request of the copy, in order |
| Requests.KeptUpTo | typeclasses/requests.py:37-40 | the swept requests that stay on the list, in order |
| Requests.KeptMembers | typeclasses/requests.py:37-40 | exactly the swept requests not due for deletion stay |
| Requests.KeptExcludesRest | typeclasses/requests.py:37-40 | in a list without repeats a request not yet swept is not among the kept ones |
| Requests.KeptDistinct | typeclasses/requests.py:37-40 | the kept list has no repeats |
| Requests.SweepStep | typeclasses/requests.py:38-42 | one pass of the loop ages the next request and keeps it unless deleted |
| Requests.SweepAll | typeclasses/requests.py:35-42 | the loop over the copy ages every request and keeps, in order, those not deleted |
| Requests.RequestHandler.constructor | typeclasses/requests.py:22-28 | the handler starts with an empty list |
| Requests.RequestHandler.AddRequest | typeclasses/requests.py:54-59 | a request is appended only when not already there, so the list never holds one twice |
| Requests.RequestHandler.RemoveRequest | typeclasses/requests.py:61-64 | the request is removed; an absent one leaves the list unchanged |
| Requests.RequestHandler.AtRepeat | typeclasses/requests.py:30-42 | the list becomes the requests not due for deletion, in order and without repeats; each request is aged once |
| Boards.Post.constructor | typeclasses/boards.py:123-129 | a new board post from the poster, with its title and text, tagged as a board post, not pinned, not archived and read by nobody |
| Boards.Listed | typeclasses/boards.py:181-193 | only board posts of the store are listed, and archived ones only when they are asked for |
| Boards.ListedComplete | typeclasses/boards.py:181-193 | every board post that is not skipped for being archived is listed |
| Boards.ListedChronological | typeclasses/boards.py:181-196 | filtering keeps the posts in order of creation |
| Boards.FirstUnpinned | typeclasses/boards.py:136-140 | the oldest unpinned post, every older one being pinned; none when all are pinned |
| Boards.Board.constructor | typeclasses/boards.py:30-42 | no subscribers, read and write open to all, admin for Admin, archiving on with at most 50 posts |
| Boards.Board.Subscribe | typeclasses/boards.py:49-64 | refused without read access; otherwise the subscriber is on the list exactly once |
| Boards.Board.Unsubscribe | typeclasses/boards.py:66-79 | succeeds iff the subscriber was on the list, and it is not on it afterwards |
| Boards.Board.SetAccess | typeclasses/boards.py:81-107 | succeeds iff the caller may administer (or none is given) and the access type is read, write or admin; only that lock is replaced |
| Boards.Board.GetPosts | typeclasses/boards.py:166-198 | nothing without read access; otherwise every listed post, newest first, each with whether the reader has yet to read it |
| Boards.Board.CreatePost | typeclasses/boards.py:109-142 | refused without write access, changing nothing; otherwise the new post is stored last, and when archiving is on and the poster's view exceeds the maximum the oldest unpinned post before it (the new post itself when all older ones are pinned) is archived and no other; pins, readers and texts are unchanged |
| Boards.Board.StorePost | typeclasses/boards.py:123-129 | the new post joins the end of the store and of the unarchived listing |
| Boards.Board.ArchiveOldest | typeclasses/boards.py:132-140 | the post OldestUnpinned picks, if any, is archived, and no other post changes |
| Boards.Board.EditPost | typeclasses/boards.py:144-164 | only the first sender or an admin may edit; then text, edit time and editor are replaced |
| Boards.Board.MarkRead | typeclasses/boards.py:204-215 | the reader is on the read list exactly once and no longer sees the post as unread; other readers are unaffected |
| Boards.Board.DeletePost | typeclasses/boards.py:217-239 | deletes iff the character sent the post or is an admin and the board received it; the post is then gone |
| Boards.Board.PinPost | typeclasses/boards.py:241-257 | only an admin may pin or unpin; only the pinned flag changes |
| Boards.Board.OldestUnpinned | typeclasses/boards.py:133-140 | the post picked for archiving: none unless the poster's view holds more than the maximum; otherwise the oldest unpinned post before the new one, or the new post itself when every older post is pinned |
| Boards.Board.NewestPinnedRun | typeclasses/boards.py:137-138 | walking the newest-first list from its oldest end stops at the first unpinned post; every post passed over is pinned |
| Boards.NewestFirstScan | typeclasses/boards.py:137-140 | where that walk stops in the newest-first list is the position of the oldest unpinned post in creation order; running out means every post is pinned |
| Boards.FirstUnpinnedSnoc | typeclasses/boards.py:136-140 | with an unpinned new post added last, the oldest unpinned post is the oldest unpinned older post if there is one, and the new post otherwise; a pinned post is never chosen |
| Boards.RemovePostKeepsOrder | typeclasses/boards.py:235-237 | deleting a post from a store without repeats leaves it without repeats, in order of creation, and without that post |
| CharacterSetup.WithDefaults | utils/character_setup.py:49-53 | a defaults loop never changes a trait that exists and leaves every offered key present |
| CharacterSetup.AddedNotes | utils/character_setup.py:49-53 | at most one change note per offered row |
| CharacterSetup.OnlyTableKeys | utils/character_setup.py:49-95 | a loop adds no key outside its table |
| CharacterSetup.DefaultAdded | utils/character_setup.py:49-95 | a missing key ends up holding its static default with the loop's base die |
| CharacterSetup.NothingMissing | utils/character_setup.py:49-100 | when every key is present nothing is added, and the notes are empty exactly then |
| CharacterSetup.WithDefaultsIdempotent | utils/character_setup.py:5-8 | offering a table twice adds nothing the second time |
| CharacterSetup.TraitHandler.constructor | utils/character_setup.py:21-32 | a handler over the given traits |
| CharacterSetup.AddDefaults | utils/character_setup.py:49-95 | one defaults loop: the handler gains the missing rows and the notes name them in table order |
| CharacterSetup.WithPlotPoints | utils/character_setup.py:35-37 | the plot-point key is present afterwards and no other trait is added or changed |
| CharacterSetup.Report | utils/character_setup.py:97-100 | the fixed sentence when nothing changed, otherwise a message starting "Initialized missing traits: " |
| CharacterSetup.Character.constructor | utils/character_setup.py:21-28 | a character whose four handlers hold the given sheet |
| CharacterSetup.Character.InitializeTraits | utils/character_setup.py:5-100 | always succeeds; the handlers become the initialised sheet and the message reports exactly what was added |
| CharacterSetup.InitializeIdempotent | utils/character_setup.py:5-8 | running it twice is the same as once, and the second run reports that everything was already initialised |
| CharacterSetup.InitializeKeeps | utils/character_setup.py:35-95 | an existing trait is never overwritten in any of the four handlers |
| CharacterSetup.PlotPointsDefault | utils/character_setup.py:35-37 | a new plot-point counter starts at 1 with minimum 0; a present one is left alone |
| CharacterSetup.AttributeDefaults | utils/character_setup.py:39-53 | six attributes, each missing one added as a static d6 with its name and description |
| CharacterSetup.SkillDefaults | utils/character_setup.py:55-82 | nineteen skills, each missing one added as a static d4 with its name and description |
| CharacterSetup.DistinctionDefaults | utils/character_setup.py:84-95 | three distinction slots, each missing one added as a static d8 with its name and description |
| CharsheetEditor.SplitTraitArgs | commands/charsheet_editor.py:37-42 | refused iff the text has no space; otherwise a name without spaces, one space and the value make up the text |
| CharsheetEditor.SplitTraitArgsRoundTrip | commands/charsheet_editor.py:37-42 | a space-free name, a space and any value split back into that name and value |
| CharsheetEditor.SetTrait | commands/charsheet_editor.py:27-43 | the usage check, the character search and the split, in that order; on success the name and value handed to the trait handler |
| CharsheetEditor.DeleteCheck | commands/charsheet_editor.py:82-88 | refused iff the first word of the lower-cased stripped name is "attributes" or "skills", or there is no word; otherwise the stripped name |
| CharsheetEditor.ProtectedIgnoresCase | commands/charsheet_editor.py:85 | names that agree up to letter case get the same verdict |
| CharsheetEditor.ProtectedWord | commands/charsheet_editor.py:82-88 | a name that starts with a protected word is refused, whatever follows it |
| CharsheetEditor.DeleteTrait | commands/charsheet_editor.py:72-100 | after the checks, the trait under the stripped name is removed iff it exists, and nothing else changes |
| CharsheetEditor.SlotsAreSetupKeys | commands/charsheet_editor.py:148 | the valid slots are exactly the distinction keys the setup creates |
| CharsheetEditor.SetDistParts | commands/charsheet_editor.py:129-151 | refused without '=' and ':', with other than three parts after the first '=', without a character, or with a slot that is not concept, culture or reputation in any letter case |
| CharsheetEditor.SlotParts | commands/charsheet_editor.py:136-151 | exactly three ':'-separated stripped parts, a slot that lower-cases to a valid one, the search between the checks |
| CharsheetEditor.DistinctionTrait | commands/charsheet_editor.py:158-160 | a distinction is stored as a static d8 with the name and description |
| CharsheetEditor.SetDistWrite | commands/charsheet_editor.py:158-160 | the key stored is the slot as typed and lower-cases to a valid slot; the trait is a d8 |
| CharsheetEditor.SetDistKeyIsSlot | commands/charsheet_editor.py:147-160 | the key written is one of the three distinction slots exactly when the slot was typed in lower case |
| CharsheetEditor.CapitalNotSlot | commands/charsheet_editor.py:147-160 | a slot with a capital letter is not a slot key |
| CharsheetEditor.CapitalSlotExample | commands/charsheet_editor.py:129-160 | "Bob=Concept:Bold:Brave" passes the checks and is stored under "Concept", beside the real slot |
| CharsheetEditor.SetDistPartsOf | commands/charsheet_editor.py:129-151 | "<character>=<slot>:<name>:<description>" with stripped parts and a valid slot reads back as those parts |
| CharsheetEditor.SlotPartsOf | commands/charsheet_editor.py:136-151 | stripped parts joined by ':' read back as themselves |
| CharsheetEditor.SetDistinction | commands/charsheet_editor.py:127-168 | on success the handler holds the new d8 distinction under the slot as typed and nothing else changes; on refusal nothing changes |
| TemporaryAssets.AssetKeyNormal | commands/temporary_assets.py:73 | a key has no spaces and no capitals, keeps the name's length, and normalising it again changes nothing |
| TemporaryAssets.ParseAdd | commands/temporary_assets.py:56-69 | refused without '='; otherwise the text after the first '=' decides: not a number is NotANumber, a number other than 4, 6, 8, 10 or 12 is BadDieSize, and success gives the stripped name before the first '=' and exactly that number |
| TemporaryAssets.ParseAddRoundTrip | commands/temporary_assets.py:56-69 | a stripped name without '=', then '=', then the decimal text of a die size reads back as that name and size |
| TemporaryAssets.ParseAddOf | commands/temporary_assets.py:60-63 | "name=rest" gives the name and the number `int()` reads from the rest, when that number is a die size |
| TemporaryAssets.SplitAtEquals | commands/temporary_assets.py:60 | in "name=rest" with no '=' in the name, `split("=", 1)` gives exactly the name and the rest |
| TemporaryAssets.AfterAdd | commands/temporary_assets.py:56-77 | refused iff the arguments are; otherwise the asset is stored under its key with value and base the die size, every other key unchanged |
| TemporaryAssets.AfterRemove | commands/temporary_assets.py:85-100 | refused without arguments or for an unknown key; otherwise exactly that key is removed |
| TemporaryAssets.AddThenRemove | commands/temporary_assets.py:56-100 | removing by the name an asset was added under takes exactly that key away |
| TemporaryAssets.AssetStore.constructor | commands/temporary_assets.py:72 | a store starts empty |
| TemporaryAssets.AssetStore.Add | commands/temporary_assets.py:55-77 | the store becomes the result of the add; on refusal it is unchanged |
| TemporaryAssets.AssetStore.Remove | commands/temporary_assets.py:85-100 | the store becomes the result of the remove; on refusal it is unchanged |
| PlotPoints.Character.constructor | commands/plot_points.py:40 | a character with the given plot-point count, or none |
| PlotPoints.Character.Give | commands/plot_points.py:38-47 | refused without the trait; otherwise one point more |
| PlotPoints.Character.Spend | commands/plot_points.py:85-98 | refused without the trait or with fewer than one point; otherwise one point less |
| PlotPoints.AfterGive | commands/plot_points.py:38-47 | a character with the trait has one point more, one without still has none |
| PlotPoints.AfterSpend | commands/plot_points.py:85-98 | one point less from one up; below one the count is unchanged |
| PlotPoints.GiveSpendKeepNonNegative | commands/plot_points.py:85-98 | giving and spending keep a non-negative count non-negative, and spending only happens from one up |
| PlotPoints.SpendUndoesGive | commands/plot_points.py:38-98 | spending right after giving restores the count |
| PlotPoints.ParseAmount | commands/plot_points.py:199-206 | a non-integer is refused as not a number and a negative integer as negative; otherwise the integer |
| PlotPoints.ParseAmountOfText | commands/plot_points.py:199-206 | the decimal text of a count reads back as that count, of a negative number as a refusal |
| PlotPoints.SplitSetArgs | commands/plot_points.py:257-263 | refused iff there is no '='; otherwise the stripped texts on either side of the first '=' |
| PlotPoints.SetPP | commands/plot_points.py:255-299 | usage, search, amount and trait checks in order; on success the count becomes the amount, on refusal it is unchanged |
| PlotPoints.WithTrait | commands/plot_points.py:209-220 | the number of characters with the trait among the first ones, never more than looked at |
| PlotPoints.WithTraitAll | commands/plot_points.py:209-220 | every character is counted exactly when all have the trait |
| PlotPoints.SetRoomPP | commands/plot_points.py:177-234 | refusals write nothing and count nothing; otherwise every target with the trait gets the amount, the others are skipped, and the count is the number written |
| PlotPoints.SetAll | commands/plot_points.py:209-220 | each character with the trait gets the amount and is counted; the others are unchanged |
| ResourceCommands.ParseResourceName | commands/resources.py:39-54 | a stripped name containing '[' and ending in ']' splits at its last '[' into a stripped base and owner; any other name is itself, stripped, with no owner |
| ResourceCommands.ParseNamedOwner | commands/resources.py:39-54 | "base [owner]" reads back as that base and that owner |
| ResourceCommands.ParsePlainName | commands/resources.py:49-54 | a stripped name without '[' is its own base, with no owner |
| ResourceCommands.OwnedBy | commands/resources.py:81 | exactly the resources held by the owner |
| ResourceCommands.FindResources | commands/resources.py:56-86 | nothing found is an error; a non-empty owner name must find an owner and narrows the result to exactly its resources, which must not be empty; otherwise everything found |
| ResourceCommands.SingleMatch | commands/resources.py:242-253 | an error or more than one match is refused; success is the one match |
| ResourceCommands.OwnerDisambiguates | commands/resources.py:242-253 | naming the owner singles out a resource exactly when that owner holds one resource of that name |
| ResourceCommands.WithKey | commands/resources.py:104-110 | the resources sharing a key, in order |
| ResourceCommands.WithKeyEmpty | commands/resources.py:104-110 | a key has a group exactly when some resource carries it |
| ResourceCommands.InOwnGroup | commands/resources.py:104-110 | every resource is in the group of its own key |
| ResourceCommands.GroupsOfWithKey | commands/resources.py:104-110 | after any number of steps of the grouping loop, the keys present are those some resource so far carries, each holding those resources in order |
| ResourceCommands.GroupResources | commands/resources.py:104-110 | each key that some resource carries maps to exactly the resources carrying it, in order, and no other key is present |
| ResourceCommands.RowName | commands/resources.py:113-127 | the name with " (xN)" for a group of N > 1, the bare name otherwise |
| ResourceCommands.RowNameShowsCount | commands/resources.py:113-127 | the count suffix appears exactly when the group has more than one member |
| ResourceCommands.Row | commands/resources.py:113-127 | the row shows the counted name and the first member's owner name, or "No owner" |

## Left out

- Randomness: `roll_die` draws with `random.randint`. Rolled values are inputs in 1..sides, and nothing is claimed about their distribution.
- Text output: message strings, colour codes, `format_colored_roll`, `format_roll_result` and EvTable layout. Only which error or outcome is chosen is modelled, plus the row names of the resource listing.
- ResourceCommands.GroupResources, ResourceCommands.Row: the row order of `show_resource_list` is not modelled. `sorted()` at commands/resources.py:113 compares the group keys as tuples. When two groups share a name and one has an owner while the other has none, Python compares `None` with a dbref string and raises `TypeError`, so the whole listing fails. The model still produces the groups and their rows in that case.
- CortexRoll.BuildDicePool, CortexRoll.TokenDice, CortexRoll.ReadToken, CortexRoll.GroupForDisplay, CortexRoll.Pairing: as written, the roll command cannot build a pool. It calls `TraitDie` with five arguments (commands/cortex_roll.py:252, 271 and 275), but `TraitDie` is a four-field `NamedTuple` (utils/cortex.py:39-44), so every die token raises `TypeError`. The display loop also reads a `.key` field (commands/cortex_roll.py:311 and 331) that the record does not have. The model uses the four-field record utils/cortex.py:39-44 defines and takes a die's trait name where the code reads `.key`.
- Requests.NextId, Requests.Request.constructor: as written, `_get_next_id` passes `cls.__path` (typeclasses/requests.py:153). Python's name mangling turns that into `_Request__path`, which does not exist, so `at_object_creation` (typeclasses/requests.py:106) raises `AttributeError`. Even with the path fixed, the search filters on the attribute category "request" (typeclasses/requests.py:150-154), while `self.db.id` (typeclasses/requests.py:106) is stored with no category, so the ids in use would not be found. The model takes the set of used ids as given and computes the smallest free one, as the method intends. The constructor does not call `add_to_handler()` (typeclasses/requests.py:129-134); the model registers a request through a separate `Requests.RequestHandler.AddRequest` call.
- Boards.Board.CreatePost, Boards.Board.StorePost: post timestamps are assumed distinct. Both require every stored post to be strictly older than `now`, so two posts created in the same second of the model's clock are excluded. Django stores timestamps to the microsecond, where such ties do not occur in practice. With equal timestamps, the source's stable reverse sort (typeclasses/boards.py:201) would keep store order among them, and the model does not describe that case.
- Strings.ParseInt: only ASCII text with an optional sign and decimal digits is read. Python's `int()` also accepts single underscores between digits ("1_0" is 10) and non-ASCII decimal digits, and `str.isdigit()` accepts non-ASCII digits too. The model refuses both forms. This affects TemporaryAssets.ParseAdd, OrgUtils.ValidateRank, PlotPoints.ParseAmount, Lockfuncs.MinRank and CortexRoll.ParseDifficulty.
- Notifications: `notify_users`, offline notifications, `_notify_new_post`, the game-master notices of the roll command, and every `caller.msg`.
- Evennia and Django: `search_object`, `create_object`, `create_script`, `create_message`, `search_message`, tags, lock strings and `ObjectDB` queries. A search becomes the object it found (or none), and an `access` check becomes a boolean parameter.
- Evennia's `TraitHandler` is not part of this model. A handler is a map from key to trait, and "the handler has a trait under this key" is map membership. Lazy creation of handlers (`hasattr` checks) is left out, as is every `except Exception` path around handler calls.
- CharsheetEditor.SetTrait: the write `traits.add(name, value)` goes to the trait handler, which is not part of this model, so only the checks and the split that produce the name and value are modelled.
- PlotPoints.Character.Give, PlotPoints.Character.Spend, PlotPoints.SetPP, PlotPoints.SetRoomPP: `traits.add("plot_points", n)` is taken to set the count to `n`; what Evennia's handler does with the second positional argument is not part of this model.
- CharsheetEditor.DeleteTrait: a blank name makes `split()[0]` raise `IndexError`, modelled as the `BlankName` error. A failed `traits.remove` of a missing key (a falsy result or an exception) is modelled as `NoSuchTrait`.
- ResourceCommands: ownership and Builder-permission checks of transfer and delete, the transfer itself (`set_owner` or an organisation's `transfer_resource`), and deletion. Only the lookup, the single-match rule and the listing are modelled.
- Command plumbing: for the commands built on Evennia's `MuxCommand` (commands/resources.py and commands/temporary_assets.py), the splitting of command text into `lhs`/`rhs`/`switches` is Evennia's, and those parts are given strings.
- CharsheetEditor.SetTrait, CharsheetEditor.DeleteTrait: as written, `CmdSetTrait` and `CmdDeleteTrait` subclass the plain Evennia `Command` (commands/charsheet_editor.py:4, 9, 54) and define no `parse`, so nothing sets `lhs` or `rhs`. Reading `self.rhs` (commands/charsheet_editor.py:29, 74) then raises `AttributeError` for any non-empty argument, and neither command reaches its split or its protected-type check. The model assumes the `lhs`/`rhs` split at the first '=' that `MuxCommand` would give, as the usage text describes, and takes both sides as parameters.
- CharsheetEditor.DeleteTrait: the reported outcome of removing a present trait follows the truthiness of `traits.remove` (commands/charsheet_editor.py:93). The model reports success and removes the key. If Evennia's handler returns `None` there, as its API suggests, the command removes the trait but reports it as missing; the model does not capture that message.
- The wall clock: `datetime.now()` is an integer `now` in seconds, so a 30-day limit is 30 × 86400 seconds.
- Request notifications, the request commands and their cleanup loop (which repeats `at_repeat`), and the Evennia script timer that calls `at_repeat`.
- Tests that disagree with the code: the hitch count and totals expected by tests/test_cortex_utils.py, the missing names imported by tests/test_requests.py and tests/test_organisations.py, the commands `CmdDelTrait`, `CmdBiography`, `CmdBackground` and `CmdPersonality` imported by tests/test_charsheet_editor.py (which commands/charsheet_editor.py does not define) and that file's expected `settrait` syntax and `character_attributes.add("strength", value=8, ...)` call, and "gold_2" in tests/test_resources.py. The model follows the code.
- The unused helper `get_trait_dice` of the roll command.
- Rooms.HasAccess, Lockfuncs.OrgMember: the character's organisation map `charOrgs` stands for `character.organisations` (typeclasses/rooms.py:65, server/conf/lockfuncs.py:59). typeclasses/characters.py defines no such attribute, while the organisation modules write `character.db.organisations` (typeclasses/organisations.py:91-92). In the code as shown the attribute is therefore missing, which the model covers as `None`: an empty map in Rooms and `NoOrganisations` in Lockfuncs. A present map is modelled for the case where the attribute is provided.
- Persistence, concurrency and object deletion by the database: an object's attributes are fields, and deletion is a flag. The `ranks` lazy property of both organisation objects is a field of its own (`cachedRanks`) that holds its stored copy; the object is assumed to stay in Evennia's idmapper cache, so the copy is never dropped. The unused `members` lazy property is not modelled.
