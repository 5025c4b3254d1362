// Staff commands that edit a character sheet: `settrait`, `deletetrait`
// and `setdist`. Each takes the text after the command; `settrait` and
// `deletetrait` are taken to receive it split at the first '=' into `lhs`
// and `rhs`, as a MuxCommand would (an empty `rhs` meaning none was given).
// Whether the character search found someone is a parameter.

module CharsheetEditor {
  import opened Wrappers
  import opened Strings
  import opened CharacterSetup

  /** Why an edit was refused. */
  datatype EditError =
    | Usage            // arguments missing or malformed
    | NotFound         // the character search found nobody
    | NeedNameAndValue // `settrait` without a space in the right-hand side
    | BlankName        // `deletetrait` with a name of only spaces (an IndexError in the command)
    | Protected        // `deletetrait` on attributes or skills
    | NoSuchTrait      // `deletetrait` on a key the handler does not hold
    | BadParts         // `setdist` without exactly three ':'-separated parts
    | BadSlot          // `setdist` with a slot other than concept, culture or reputation

  // ---------------------------------------------------------------------
  // settrait

  /** `settrait`: the right-hand side splits at its first space into the trait name and the value. */
  function SplitTraitArgs(rhs: string): (r: Result<(string, string), EditError>)
    ensures r.Err? <==> ' ' !in rhs
    ensures r.Ok? ==> ' ' !in r.value.0 && r.value.0 + " " + r.value.1 == rhs
  {
    if ' ' !in rhs then Err(NeedNameAndValue)
    else
      var i := IndexOf(rhs, ' ');
      assert rhs == rhs[..i] + " " + rhs[i + 1..];
      Ok((rhs[..i], rhs[i + 1..]))
  }

  /** A name without spaces, a space and any value split back into that name and that value. */
  lemma SplitTraitArgsRoundTrip(name: string, value: string)
    requires ' ' !in name
    ensures SplitTraitArgs(name + " " + value) == Ok((name, value))
  {
    var s := name + " " + value;
    assert s[..|name|] == name && s[|name|] == ' ';
    IndexOfAt(s, ' ', |name|);
    assert s[|name| + 1..] == value;
  }

  /**
   * The checks of `settrait` in order: both sides given, the character
   * found, a name and a value; the result is the (name, value) pair the
   * command hands to the trait handler.
   */
  function SetTrait(args: string, rhs: string, found: bool): (r: Result<(string, string), EditError>)
    ensures args == [] || rhs == [] ==> r == Err(Usage)
    ensures args != [] && rhs != [] && !found ==> r == Err(NotFound)
    ensures args != [] && rhs != [] && found ==> r == SplitTraitArgs(rhs)
  {
    if args == [] || rhs == [] then Err(Usage)
    else if !found then Err(NotFound)
    else SplitTraitArgs(rhs)
  }

  // ---------------------------------------------------------------------
  // deletetrait

  /** The trait kinds `deletetrait` refuses to touch. */
  const Undeletable: set<string> := {"attributes", "skills"}

  /**
   * The protected-type check of `deletetrait`: the first whitespace word
   * of the lower-cased, stripped name; a name that is all spaces has no
   * first word.
   */
  function DeleteCheck(rhs: string): (r: Result<string, EditError>)
    ensures SplitWords(Lower(Strip(rhs))) == [] ==> r == Err(BlankName)
    ensures SplitWords(Lower(Strip(rhs))) != [] ==>
      (SplitWords(Lower(Strip(rhs)))[0] in Undeletable <==> r == Err(Protected))
    ensures r.Ok? ==> r.value == Strip(rhs)
  {
    var name := Strip(rhs);
    var words := SplitWords(Lower(name));
    if words == [] then Err(BlankName)
    else if words[0] in Undeletable then Err(Protected)
    else Ok(name)
  }

  /** The check ignores letter case: "Skills ..." and "SKILLS ..." are refused like "skills ...". */
  lemma ProtectedIgnoresCase(a: string, b: string)
    requires Lower(Strip(a)) == Lower(Strip(b))
    ensures DeleteCheck(a).Err? && DeleteCheck(a).error == Protected <==> DeleteCheck(b).Err? && DeleteCheck(b).error == Protected
  {
  }

  /** The protected words are single lower-case words. */
  lemma UndeletableWord(w: string)
    requires w in Undeletable
    ensures IsWord(w) && Lower(w) == w
  {
    assert IsLower(w);
    LowerOfLower(w);
  }

  /** Lower-casing works character by character, so it distributes over concatenation. */
  lemma LowerConcat(a: string, b: string)
    ensures Lower(a + b) == Lower(a) + Lower(b)
  {
    assert forall i :: 0 <= i < |a + b| ==> Lower(a + b)[i] == (Lower(a) + Lower(b))[i];
  }

  /** The first word `deletetrait` looks at, for a stripped name that starts with a protected word. */
  lemma FirstWordProtected(word: string, tail: string)
    requires word in Undeletable && (tail == [] || IsSpace(tail[0])) && IsStripped(word + tail)
    ensures SplitWords(Lower(Strip(word + tail))) == [word] + SplitWords(Lower(tail))
  {
    var lt := Lower(tail);
    LoweredName(word, tail);
    if tail != [] {
      LowerSpace(tail[0]);
    }
    SplitOneWord(word, lt);
  }

  /** Lower-casing leaves a space a space. */
  lemma LowerSpace(c: char)
    requires IsSpace(c)
    ensures LowerChar(c) == c
  {
  }

  lemma LoweredName(word: string, tail: string)
    requires word in Undeletable && IsStripped(word + tail)
    ensures IsWord(word) && Lower(Strip(word + tail)) == word + Lower(tail)
  {
    UndeletableWord(word);
    StripOfStripped(word + tail);
    LowerConcat(word, tail);
  }

  /** A stripped name whose first word is a protected one is refused, whatever follows it. */
  lemma ProtectedWord(word: string, tail: string)
    requires word in Undeletable && (tail == [] || IsSpace(tail[0])) && IsStripped(word + tail)
    ensures DeleteCheck(word + tail) == Err(Protected)
  {
    FirstWordProtected(word, tail);
  }

  /**
   * `deletetrait`: refused without both sides, without a character, on a
   * blank or protected name, or when the handler holds no trait under the
   * stripped name; otherwise that trait is removed and nothing else changes.
   */
  method DeleteTrait(h: TraitHandler, args: string, rhs: string, found: bool) returns (err: Option<EditError>)
    modifies h
    ensures args == [] || rhs == [] ==> err == Some(Usage)
    ensures args != [] && rhs != [] && !found ==> err == Some(NotFound)
    ensures args != [] && rhs != [] && found && DeleteCheck(rhs).Err? ==> err == Some(DeleteCheck(rhs).error)
    ensures args != [] && rhs != [] && found && DeleteCheck(rhs).Ok? ==>
      err == (if Strip(rhs) in old(h.data) then None else Some(NoSuchTrait))
    ensures h.data == if err.None? then old(h.data) - {Strip(rhs)} else old(h.data)
  {
    if args == [] || rhs == [] {
      return Some(Usage);
    }
    if !found {
      return Some(NotFound);
    }
    var checked := DeleteCheck(rhs);
    if checked.Err? {
      return Some(checked.error);
    }
    var name := checked.value;
    if name !in h.data {
      return Some(NoSuchTrait);
    }
    h.data := h.data - {name};
    return None;
  }

  // ---------------------------------------------------------------------
  // setdist

  /** The three distinction slots. */
  const Slots: set<string> := {"concept", "culture", "reputation"}

  /** The slots are exactly the keys `initialize_traits` gives the distinction handler. */
  lemma SlotsAreSetupKeys()
    ensures forall j :: 0 <= j < |Distinctions| ==> Distinctions[j].key in Slots
    ensures forall s :: s in Slots ==> exists j :: 0 <= j < |Distinctions| && Distinctions[j].key == s
  {
    assert Distinctions[0].key == "concept";
    assert Distinctions[1].key == "culture";
    assert Distinctions[2].key == "reputation";
  }

  /**
   * The argument checks of `setdist`: the text must hold '=' and ':', and
   * what follows the first '=' must pass `SlotParts`.
   */
  function SetDistParts(args: string, found: bool): (r: Result<(string, string, string), EditError>)
    ensures args == [] || ':' !in args || '=' !in args ==> r == Err(Usage)
    ensures args != [] && ':' in args && '=' in args ==> r == SlotParts(args[IndexOf(args, '=') + 1..], found)
  {
    if args == [] || ':' !in args || '=' !in args then Err(Usage)
    else SlotParts(args[IndexOf(args, '=') + 1..], found)
  }

  /**
   * The text after the first '=' must split on ':' into exactly three
   * parts, which are stripped into slot, name and description; the slot,
   * lower-cased, must be a distinction slot. The character search sits
   * between the two checks.
   */
  function SlotParts(rest: string, found: bool): (r: Result<(string, string, string), EditError>)
    ensures |SplitAll(rest, ':')| != 3 ==> r == Err(BadParts)
    ensures |SplitAll(rest, ':')| == 3 && !found ==> r == Err(NotFound)
    ensures r.Ok? ==> found && Lower(r.value.0) in Slots && IsStripped(r.value.0) && IsStripped(r.value.1) && IsStripped(r.value.2)
  {
    var parts := SplitAll(rest, ':');
    if |parts| != 3 then Err(BadParts)
    else if !found then Err(NotFound)
    else
      var (slot, name, desc) := (Strip(parts[0]), Strip(parts[1]), Strip(parts[2]));
      StripIsStripped(parts[0]);
      StripIsStripped(parts[1]);
      StripIsStripped(parts[2]);
      if Lower(slot) !in Slots then Err(BadSlot)
      else Ok((slot, name, desc))
  }

  /** The trait a distinction is stored as: static, always d8. */
  function DistinctionTrait(name: string, desc: string): (t: Trait)
    ensures t.base == 8 && t.traitType == "static" && t.name == name && t.desc == desc
  {
    Trait(name, "static", DistinctionDie, None, desc)
  }

  /**
   * The write `setdist` makes: the slot is checked in lower case but the
   * trait is stored under the slot exactly as typed, always as a d8.
   */
  function SetDistWrite(args: string, found: bool): (r: Result<(string, Trait), EditError>)
    ensures r.Err? <==> SetDistParts(args, found).Err?
    ensures r.Err? ==> r.error == SetDistParts(args, found).error
    ensures r.Ok? ==> r.value.1.base == 8 && Lower(r.value.0) in Slots
  {
    match SetDistParts(args, found)
    case Err(e) => Err(e)
    case Ok((slot, name, desc)) => Ok((slot, DistinctionTrait(name, desc)))
  }

  /**
   * The key written is one of the three slots `initialize_traits` creates
   * exactly when the slot was typed in lower case. A slot typed with a
   * capital letter passes the check but lands beside those three, leaving
   * the slot itself as it was.
   */
  lemma SetDistKeyIsSlot(args: string, found: bool)
    requires SetDistWrite(args, found).Ok?
    ensures SetDistWrite(args, found).value.0 in Slots <==> IsLower(SetDistWrite(args, found).value.0)
    ensures IsLower(SetDistWrite(args, found).value.0) ==>
      exists j :: 0 <= j < |Distinctions| && Distinctions[j].key == SetDistWrite(args, found).value.0
  {
    var slot := SetDistWrite(args, found).value.0;
    if IsLower(slot) {
      LowerOfLower(slot);
      SlotsAreSetupKeys();
    } else {
      CapitalNotSlot(slot);
    }
  }

  /** No slot name holds a capital letter. */
  lemma CapitalNotSlot(slot: string)
    requires !IsLower(slot)
    ensures slot !in Slots
  {
    if slot in Slots {
      assert false;
    }
  }

  /** "Bob=Concept:Bold:Brave" passes the check and is stored under "Concept", which is not a slot. */
  lemma CapitalSlotExample()
    ensures SetDistWrite("Bob=Concept:Bold:Brave", true) == Ok(("Concept", DistinctionTrait("Bold", "Brave")))
    ensures "Concept" !in Slots
  {
    assert "Bob=Concept:Bold:Brave" == "Bob" + "=" + ("Concept" + ":" + "Bold" + ":" + "Brave");
    assert Lower("Concept") == "concept";
    SetDistPartsOf("Bob", "Concept", "Bold", "Brave");
    assert IsUpper("Concept"[0]);
    CapitalNotSlot("Concept");
  }

  /** The parts `setdist` reads from "<character>=<slot>:<name>:<description>" with stripped parts. */
  lemma SetDistPartsOf(who: string, slot: string, name: string, desc: string)
    requires '=' !in who && ':' !in slot && ':' !in name && ':' !in desc
    requires IsStripped(slot) && IsStripped(name) && IsStripped(desc) && Lower(slot) in Slots
    ensures SetDistParts(who + "=" + (slot + ":" + name + ":" + desc), true) == Ok((slot, name, desc))
  {
    var rest := slot + ":" + name + ":" + desc;
    assert rest[|slot|] == ':';
    AfterFirstEquals(who, rest);
    SlotPartsOf(slot, name, desc);
  }

  /** In "who=rest" with no '=' in `who`, the first '=' is the one after `who`, and `rest` follows it. */
  lemma AfterFirstEquals(who: string, rest: string)
    requires '=' !in who
    ensures var args := who + "=" + rest;
      && '=' in args && IndexOf(args, '=') == |who| && args[|who| + 1..] == rest
      && forall c :: c in rest ==> c in args
  {
    var args := who + "=" + rest;
    assert args[..|who|] == who && args[|who|] == '=';
    IndexOfAt(args, '=', |who|);
    assert args[|who| + 1..] == rest;
  }

  /** Stripped slot, name and description joined by ':' read back as themselves. */
  lemma SlotPartsOf(slot: string, name: string, desc: string)
    requires ':' !in slot && ':' !in name && ':' !in desc
    requires IsStripped(slot) && IsStripped(name) && IsStripped(desc) && Lower(slot) in Slots
    ensures SlotParts(slot + ":" + name + ":" + desc, true) == Ok((slot, name, desc))
  {
    var parts := SplitAll(slot + ":" + name + ":" + desc, ':');
    ThreeParts(slot, name, desc);
    assert parts[0] == slot && parts[1] == name && parts[2] == desc;
    StripOfStripped(slot);
    StripOfStripped(name);
    StripOfStripped(desc);
  }

  /** Three parts without ':', joined by ':', split back into those parts. */
  lemma ThreeParts(a: string, b: string, c: string)
    requires ':' !in a && ':' !in b && ':' !in c
    ensures SplitAll(a + ":" + b + ":" + c, ':') == [a, b, c]
  {
    assert a + ":" + b + ":" + c == a + [':'] + (b + [':'] + c);
    SplitAllHead(a, b + [':'] + c, ':');
    SplitAllHead(b, c, ':');
  }

  /** Text without the separator, the separator and more text split into that text and the pieces of the rest. */
  lemma SplitAllHead(a: string, b: string, sep: char)
    requires sep !in a
    ensures sep in a + [sep] + b && IndexOf(a + [sep] + b, sep) == |a|
    ensures SplitAll(a + [sep] + b, sep) == [a] + SplitAll(b, sep)
  {
    var s := a + [sep] + b;
    assert s[..|a|] == a && s[|a|] == sep;
    IndexOfAt(s, sep, |a|);
    assert s[|a| + 1..] == b;
  }

  /**
   * `setdist`: when every check passes, the handler holds the new d8
   * distinction under the slot as typed and no other trait changes;
   * otherwise nothing changes.
   */
  method SetDistinction(h: TraitHandler, args: string, found: bool) returns (err: Option<EditError>)
    modifies h
    ensures err.None? <==> SetDistWrite(args, found).Ok?
    ensures err.Some? ==> err.value == SetDistWrite(args, found).error && h.data == old(h.data)
    ensures err.None? ==>
      var (key, t) := SetDistWrite(args, found).value;
      h.data == old(h.data)[key := t]
  {
    var write := SetDistWrite(args, found);
    if write.Err? {
      return Some(write.error);
    }
    h.data := h.data[write.value.0 := write.value.1];
    return None;
  }
}
