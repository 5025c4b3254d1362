// Room access: a character may enter a room it owns, holds a key to, or
// whose owning organisation it belongs to. The character's organisation
// map stands for `character.organisations`; `None` when it is missing.

module Rooms {
  import opened Wrappers
  import opened Sets

  /**
   * The three ownership records of a room, by id. An attribute that was
   * never set is `None`; the properties read it as an empty dictionary.
   */
  datatype Room = Room(
    orgOwners: Option<map<int, string>>,
    characterOwners: Option<map<int, string>>,
    keyHolders: Option<map<int, string>>)

  /** `self.db.X or {}`: the ids recorded in an attribute, none when it is unset or empty. */
  function Ids(m: Option<map<int, string>>): (r: set<int>)
    ensures m.None? ==> r == {}
    ensures m.Some? ==> r == m.value.Keys
  {
    if m.None? then {} else m.value.Keys
  }

  /**
   * Whether some owning organisation of the room is one of the character's
   * organisations: the owners are walked one at a time (here in increasing
   * id order; the answer does not depend on the order) and the walk stops at
   * the first shared one.
   */
  function OrgShared(owners: set<int>, charOrgs: set<int>): (r: bool)
    ensures r ==> exists o :: o in owners && o in charOrgs
  {
    if owners == {} then false
    else
      var o := MinKey(owners);
      if o in charOrgs then true else OrgShared(owners - {o}, charOrgs)
  }

  /** The walk over the owners finds a shared organisation whenever there is one. */
  lemma {:induction false} OrgSharedComplete(owners: set<int>, charOrgs: set<int>, o: int)
    requires o in owners && o in charOrgs
    ensures OrgShared(owners, charOrgs)
    decreases |owners|
  {
    var m := MinKey(owners);
    if m !in charOrgs {
      assert o != m;
      OrgSharedComplete(owners - {m}, charOrgs, o);
    }
  }

  /**
   * `has_access`: a character owner or key holder gets in; otherwise the
   * room is entered through an owning organisation among the character's
   * own. A character without an `organisations` attribute (`None`) has none.
   */
  function HasAccess(room: Room, charId: int, charOrgs: Option<map<int, int>>): (r: bool)
    ensures charId in Ids(room.characterOwners) ==> r
    ensures charId in Ids(room.keyHolders) ==> r
  {
    if charId in Ids(room.characterOwners) then true
    else if charId in Ids(room.keyHolders) then true
    else OrgShared(Ids(room.orgOwners), if charOrgs.None? then {} else charOrgs.value.Keys)
  }

  /** Access is granted exactly on one of the three grounds. */
  lemma HasAccessGrounds(room: Room, charId: int, charOrgs: Option<map<int, int>>)
    ensures HasAccess(room, charId, charOrgs) <==>
      || charId in Ids(room.characterOwners)
      || charId in Ids(room.keyHolders)
      || (charOrgs.Some? && exists o :: o in Ids(room.orgOwners) && o in charOrgs.value)
  {
    if charOrgs.Some? && exists o :: o in Ids(room.orgOwners) && o in charOrgs.value {
      var o :| o in Ids(room.orgOwners) && o in charOrgs.value;
      OrgSharedComplete(Ids(room.orgOwners), charOrgs.value.Keys, o);
    }
  }

  /** An unset record and an empty one give the same answer for every character. */
  lemma UnsetIsEmpty(room: Room, charId: int, charOrgs: Option<map<int, int>>)
    ensures HasAccess(room.(orgOwners := None), charId, charOrgs) == HasAccess(room.(orgOwners := Some(map[])), charId, charOrgs)
    ensures HasAccess(room.(characterOwners := None), charId, charOrgs) == HasAccess(room.(characterOwners := Some(map[])), charId, charOrgs)
    ensures HasAccess(room.(keyHolders := None), charId, charOrgs) == HasAccess(room.(keyHolders := Some(map[])), charId, charOrgs)
  {
  }

  /** A room with no records at all lets nobody in. */
  lemma NoRecordsNoAccess(charId: int, charOrgs: Option<map<int, int>>)
    ensures !HasAccess(Room(None, None, None), charId, charOrgs)
  {
  }

  /** Recording a key holder grants that character access, whatever else the room says. */
  lemma KeyGrantsAccess(room: Room, charId: int, name: string, charOrgs: Option<map<int, int>>)
    ensures HasAccess(room.(keyHolders := Some((if room.keyHolders.None? then map[] else room.keyHolders.value)[charId := name])), charId, charOrgs)
  {
  }

  /** Adding an owning organisation never takes access away from anyone. */
  lemma OrgOwnerMonotone(room: Room, org: int, name: string, charId: int, charOrgs: Option<map<int, int>>)
    requires HasAccess(room, charId, charOrgs)
    ensures HasAccess(room.(orgOwners := Some((if room.orgOwners.None? then map[] else room.orgOwners.value)[org := name])), charId, charOrgs)
  {
    var room' := room.(orgOwners := Some((if room.orgOwners.None? then map[] else room.orgOwners.value)[org := name]));
    HasAccessGrounds(room, charId, charOrgs);
    HasAccessGrounds(room', charId, charOrgs);
    assert Ids(room.orgOwners) <= Ids(room'.orgOwners);
  }
}
