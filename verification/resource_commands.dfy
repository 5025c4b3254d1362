// The `resource` command's own logic: reading "name [owner]", narrowing the
// resources a name finds, grouping a listing by (name, owner, die), and the
// rule that transfer and delete act only on a single match. Object searches
// are parameters: the resources found under a name and the owner found
// under an owner name.

module ResourceCommands {
  import opened Wrappers
  import opened Strings

  /** An owner as the listing sees it: its database reference and its name. */
  datatype Owner = Owner(dbref: string, name: string)

  /** A resource as the command sees it. */
  datatype Res = Res(name: string, owner: Option<Owner>, dieSize: int)

  /** Why a lookup, transfer or delete stopped. */
  datatype FindError = NoResource | NoOwner | NoneOwned | Ambiguous

  // ---------------------------------------------------------------------
  // "name [owner]"

  /**
   * `parse_resource_name`: a stripped name that contains '[' and ends with
   * ']' splits at its last '[' into the stripped base and the stripped text
   * inside the brackets; any other name is returned stripped, with no owner.
   */
  function ParseResourceName(name: string): (r: (string, Option<string>))
    ensures !('[' in Strip(name) && EndsWith(Strip(name), "]")) ==> r == (Strip(name), None)
    ensures r.1.Some? <==> '[' in Strip(name) && EndsWith(Strip(name), "]")
    ensures IsStripped(r.0) && (r.1.Some? ==> IsStripped(r.1.value))
  {
    var t := Strip(name);
    StripIsStripped(name);
    if '[' in t && EndsWith(t, "]") then
      var i := LastIndexOf(t, '[');
      StripIsStripped(t[..i]);
      StripIsStripped(t[i + 1..|t| - 1]);
      (Strip(t[..i]), Some(Strip(t[i + 1..|t| - 1])))
    else (t, None)
  }

  /** Stripping text that ends in one space after stripped, non-empty text gives that text. */
  lemma StripTrailingSpace(s: string)
    requires s != [] && IsStripped(s)
    ensures Strip(s + " ") == s
  {
    var t := s + " ";
    assert t[0] == s[0];
    assert StripLeft(t) == t;
    var r := StripRight(t);
    assert IsSpace(t[|t| - 1]);
    assert t[|s| - 1] == s[|s| - 1];
    assert r == t[..|s|] == s;
  }

  /** In "base [owner]" with no '[' in the owner, the last '[' is the one written before the owner. */
  lemma LastBracket(base: string, owner: string)
    requires '[' !in owner
    ensures var t := base + " [" + owner + "]";
      && '[' in t && LastIndexOf(t, '[') == |base| + 1
      && t[..|base| + 1] == base + " " && t[|base| + 2..|t| - 1] == owner
  {
    var pre := base + " ";
    var rest := owner + "]";
    var t := base + " [" + owner + "]";
    assert t == pre + ("[" + rest);
    var i := |pre|;
    assert t[i..] == "[" + rest;
    assert t[i + 1..] == rest;
    LastIndexOfAt(t, '[', i);
    assert t[i + 1..|t| - 1] == rest[..|rest| - 1];
  }

  /** Writing "base [owner]" and reading it back gives the base and the owner. */
  lemma ParseNamedOwner(base: string, owner: string)
    requires base != [] && IsStripped(base) && IsStripped(owner) && '[' !in owner
    ensures ParseResourceName(base + " [" + owner + "]") == (base, Some(owner))
  {
    var t := base + " [" + owner + "]";
    LastBracket(base, owner);
    assert t[0] == base[0] && t[|t| - 1] == ']';
    StripOfStripped(t);
    assert EndsWith(t, "]");
    StripTrailingSpace(base);
    StripOfStripped(owner);
  }

  /** A plain stripped name with no brackets is its own base, with no owner. */
  lemma ParsePlainName(name: string)
    requires IsStripped(name) && '[' !in name
    ensures ParseResourceName(name) == (name, None)
  {
    StripOfStripped(name);
  }

  // ---------------------------------------------------------------------
  // Looking resources up

  /** The resources of `rs` whose owner is `o`, in order. */
  function OwnedBy(rs: seq<Res>, o: Owner): (r: seq<Res>)
    ensures forall x :: x in r <==> x in rs && x.owner == Some(o)
  {
    if rs == [] then []
    else OwnedBy(rs[..|rs| - 1], o) + (if rs[|rs| - 1].owner == Some(o) then [rs[|rs| - 1]] else [])
  }

  /**
   * `find_resources`: `named` is what the search for the base name found
   * and `ownerFound` the first match of the owner search. Nothing found is
   * an error; an owner name that is given (and not empty) narrows the
   * result to that owner's resources, and must find an owner and leave at
   * least one resource.
   */
  function FindResources(name: string, named: seq<Res>, ownerFound: Option<Owner>): (r: Result<seq<Res>, FindError>)
    ensures named == [] ==> r == Err(NoResource)
    ensures r.Ok? ==> r.value != [] && forall x :: x in r.value ==> x in named
    ensures r.Ok? && ParseResourceName(name).1.Some? && ParseResourceName(name).1.value != [] ==>
      ownerFound.Some? && forall x :: x in named ==> (x in r.value <==> x.owner == ownerFound)
    ensures r.Ok? && (ParseResourceName(name).1.None? || ParseResourceName(name).1.value == []) ==> r.value == named
  {
    var (base, ownerName) := ParseResourceName(name);
    if named == [] then Err(NoResource)
    else if ownerName.Some? && ownerName.value != [] then
      if ownerFound.None? then Err(NoOwner)
      else
        var owned := OwnedBy(named, ownerFound.value);
        if owned == [] then Err(NoneOwned) else Ok(owned)
    else Ok(named)
  }

  /** Transfer and delete act on one resource only: more than one match is refused. */
  function SingleMatch(found: Result<seq<Res>, FindError>): (r: Result<Res, FindError>)
    ensures found.Err? ==> r == Err(found.error)
    ensures found.Ok? && |found.value| > 1 ==> r == Err(Ambiguous)
    ensures r.Ok? ==> found.Ok? && found.value == [r.value]
  {
    match found
    case Err(e) => Err(e)
    case Ok(rs) =>
      if |rs| > 1 then Err(Ambiguous)
      else if rs == [] then Err(NoResource)
      else Ok(rs[0])
  }

  /** Naming the owner singles out a resource exactly when that owner holds one resource of that name. */
  lemma OwnerDisambiguates(name: string, named: seq<Res>, o: Owner)
    requires named != [] && ParseResourceName(name).1 == Some(o.name) && o.name != []
    ensures SingleMatch(FindResources(name, named, Some(o))).Ok? <==> |OwnedBy(named, o)| == 1
  {
  }

  // ---------------------------------------------------------------------
  // Grouping a listing

  /** Rows group resources by name, owner reference and die size. */
  datatype GroupKey = GroupKey(name: string, ownerRef: Option<string>, dieSize: int)

  function KeyOf(r: Res): GroupKey
  {
    GroupKey(r.name, if r.owner.Some? then Some(r.owner.value.dbref) else None, r.dieSize)
  }

  /** The first `i` resources that share the key `k`, in order. */
  function WithKey(rs: seq<Res>, k: GroupKey, i: nat): (g: seq<Res>)
    requires i <= |rs|
    ensures |g| <= i
    ensures forall x :: x in g ==> KeyOf(x) == k
  {
    if i == 0 then []
    else WithKey(rs, k, i - 1) + (if KeyOf(rs[i - 1]) == k then [rs[i - 1]] else [])
  }

  /** A key has a group exactly when one of the resources carries it. */
  lemma {:induction false} WithKeyEmpty(rs: seq<Res>, k: GroupKey, i: nat)
    requires i <= |rs|
    ensures WithKey(rs, k, i) == [] <==> forall j :: 0 <= j < i ==> KeyOf(rs[j]) != k
  {
    if i > 0 {
      WithKeyEmpty(rs, k, i - 1);
    }
  }

  /** Every resource is in the group of its own key. */
  lemma {:induction false} InOwnGroup(rs: seq<Res>, i: nat, j: nat)
    requires j < i <= |rs|
    ensures rs[j] in WithKey(rs, KeyOf(rs[j]), i)
  {
    if j < i - 1 {
      InOwnGroup(rs, i - 1, j);
    }
  }

  /** The groups after the first `i` resources: each appended to the list under its key. */
  function GroupsOf(rs: seq<Res>, i: nat): map<GroupKey, seq<Res>>
    requires i <= |rs|
  {
    if i == 0 then map[]
    else
      var g := GroupsOf(rs, i - 1);
      var key := KeyOf(rs[i - 1]);
      g[key := (if key in g then g[key] else []) + [rs[i - 1]]]
  }

  /** A key has a group exactly when a resource carries it, and the group is its resources in order. */
  lemma {:induction false} GroupsOfWithKey(rs: seq<Res>, i: nat)
    requires i <= |rs|
    ensures forall k :: k in GroupsOf(rs, i) <==> WithKey(rs, k, i) != []
    ensures forall k :: k in GroupsOf(rs, i) ==> GroupsOf(rs, i)[k] == WithKey(rs, k, i)
  {
    if i > 0 {
      GroupsOfWithKey(rs, i - 1);
    }
  }

  /**
   * The grouping loop of `show_resource_list`: each resource is appended to
   * the list under its key, a key's list being started on first use.
   */
  method GroupResources(rs: seq<Res>) returns (groups: map<GroupKey, seq<Res>>)
    ensures forall k :: k in groups <==> WithKey(rs, k, |rs|) != []
    ensures forall k :: k in groups ==> groups[k] == WithKey(rs, k, |rs|)
  {
    groups := map[];
    var i := 0;
    while i < |rs|
      invariant i <= |rs|
      invariant groups == GroupsOf(rs, i)
    {
      var key := KeyOf(rs[i]);
      if key !in groups {
        groups := groups[key := []];
      }
      groups := groups[key := groups[key] + [rs[i]]];
      i := i + 1;
    }
    GroupsOfWithKey(rs, |rs|);
  }

  /** A row's name: the name, followed by " (xN)" when the group holds N > 1 resources. */
  function RowName(name: string, count: nat): (r: string)
    ensures count > 1 ==> r == name + " (x" + NatStr(count) + ")"
    ensures count <= 1 ==> r == name
  {
    if count > 1 then name + " (x" + NatStr(count) + ")" else name
  }

  /** The count suffix is there exactly when the group has more than one member. */
  lemma RowNameShowsCount(name: string, count: nat)
    ensures RowName(name, count) == name <==> count <= 1
    ensures count > 1 ==> StartsWith(RowName(name, count), name + " (x") && EndsWith(RowName(name, count), ")")
  {
    var r := RowName(name, count);
    if count > 1 {
      assert |r| > |name|;
      assert r[..|name + " (x"|] == name + " (x";
    }
  }

  /** A row: the name with its count, the first member's owner name (or "No owner") and the die. */
  function Row(group: seq<Res>): (row: (string, string, string))
    requires group != []
    ensures row.0 == RowName(group[0].name, |group|)
    ensures row.1 == if group[0].owner.Some? then group[0].owner.value.name else "No owner"
  {
    (RowName(group[0].name, |group|),
     if group[0].owner.Some? then group[0].owner.value.name else "No owner",
     "d" + IntStr(group[0].dieSize))
  }
}
