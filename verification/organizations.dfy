// The older organisation object. Ranks are free identifiers with names,
// a member's rank is stored without any range check (possibly `None`),
// setting a rank only touches existing members, and removing a rank
// drops every member who held it.
//
// As in the current object, `self.ranks` is a `lazy_property`; here it is
// `db.ranks or {}`, so the first read stores either a copy of the rank map
// or a fresh empty map. `cachedRanks` holds what it stored.

module Organizations {
  import opened Wrappers
  import opened Sets
  import opened Organisations

  class Organisation {
    const id: int
    var members: map<int, Option<int>>
    var ranks: map<int, string>
    var head: Option<int>
    var cachedRanks: Option<map<int, string>>

    /** `at_object_creation`: no members, no ranks, no head, and `self.ranks` not yet read. */
    constructor(id: int)
      ensures this.id == id && members == map[] && ranks == map[] && head == None
      ensures cachedRanks == None
    {
      this.id := id;
      members := map[];
      ranks := map[];
      head := None;
      cachedRanks := None;
    }

    /** What `self.ranks` yields: the stored value once taken, else `db.ranks` itself (which the read then stores). */
    function RankNames(): map<int, string>
      reads this
    {
      if cachedRanks.Some? then cachedRanks.value else ranks
    }

    /** The organisation and the character agree on the character's membership and rank. */
    predicate InStep(ch: Character)
      reads this, ch
    {
      && (ch.id in members <==> ch.organisations.Some? && id in ch.organisations.value)
      && (ch.id in members ==> ch.organisations.value[id] == members[ch.id])
    }

    /** What `get_rank` returns: the name of a member's rank when the member has a truthy rank that `self.ranks` names. */
    function RankOf(ch: Character): (r: Option<string>)
      reads this
      ensures r.Some? <==> ch.id in members && !Falsy(members[ch.id]) && members[ch.id].value in RankNames()
      ensures r.Some? ==> r.value == RankNames()[members[ch.id].value]
    {
      if ch.id in members && !Falsy(members[ch.id]) then
        var n := members[ch.id].value;
        var names := RankNames();
        if n in names then Some(names[n]) else None
      else None
    }

    /** `get_rank`: reads `self.ranks` only for a member with a truthy rank, which stores it if not yet stored. */
    method GetRank(ch: Character) returns (r: Option<string>)
      modifies this
      ensures r == old(RankOf(ch)) && r == RankOf(ch)
      ensures cachedRanks ==
        if ch.id in members && !Falsy(members[ch.id]) then Some(old(RankNames())) else old(cachedRanks)
      ensures RankNames() == old(RankNames())
      ensures members == old(members) && ranks == old(ranks) && head == old(head)
    {
      r := None;
      if ch.id in members && !Falsy(members[ch.id]) {
        if cachedRanks.None? {
          cachedRanks := Some(ranks);
        }
        var n := members[ch.id].value;
        if n in cachedRanks.value {
          r := Some(cachedRanks.value[n]);
        }
      }
    }

    /**
     * `add_member`: without a rank `self.ranks` is read (and stored if not
     * yet stored), and its lowest rank identifier is used when it has one;
     * otherwise the given value, `None` included, is stored unchecked in
     * both maps.
     */
    method AddMember(ch: Character, rank: Option<int>)
      modifies this, ch
      ensures var names := old(RankNames());
        var r := if Falsy(rank) && names != map[] then Some(MinKey(names.Keys)) else rank;
        && members == old(members)[ch.id := r]
        && ch.organisations == Some(WithOrg(old(ch.organisations), id, r))
      ensures Falsy(rank) && old(RankNames()) != map[] ==>
        members[ch.id].Some? && members[ch.id].value in RankNames()
      ensures cachedRanks == if Falsy(rank) then Some(old(RankNames())) else old(cachedRanks)
      ensures RankNames() == old(RankNames())
      ensures ranks == old(ranks) && head == old(head)
      ensures InStep(ch)
    {
      if Falsy(rank) && cachedRanks.None? {
        cachedRanks := Some(ranks);
      }
      var r := rank;
      var names := RankNames();
      if Falsy(rank) && names != map[] {
        r := Some(MinKey(names.Keys));
      }
      members := members[ch.id := r];
      ch.organisations := Some(WithOrg(ch.organisations, id, r));
    }

    /**
     * `remove_member`: as in the current organisation object, a member
     * leaves both maps, and a non-empty character map without this
     * organisation raises KeyError after the member entry is gone.
     */
    method RemoveMember(ch: Character) returns (err: Option<OrgError>)
      modifies this, ch
      ensures members == old(members) - {ch.id}
      ensures ranks == old(ranks) && head == old(head) && cachedRanks == old(cachedRanks)
      ensures var orgs := old(ch.organisations);
        err.Some? <==> old(ch.id in members) && orgs.Some? && orgs.value != map[] && id !in orgs.value
      ensures err.Some? ==> err == Some(MissingOrgKey)
      ensures var orgs := old(ch.organisations);
        ch.organisations ==
          if old(ch.id in members) && orgs.Some? && orgs.value != map[] && id in orgs.value
          then Some(orgs.value - {id}) else orgs
      ensures old(InStep(ch)) ==> err.None? && InStep(ch) && ch.id !in members
    {
      err := None;
      if ch.id in members {
        members := members - {ch.id};
        if ch.organisations.Some? && ch.organisations.value != map[] {
          if id in ch.organisations.value {
            ch.organisations := Some(ch.organisations.value - {id});
          } else {
            err := Some(MissingOrgKey);
          }
        }
      }
    }

    /**
     * `set_rank`: only an existing member's rank changes, in both maps (a
     * character without a map raises TypeError after the member entry is
     * written); a non-member changes nothing.
     */
    method SetRank(ch: Character, rank: Option<int>) returns (err: Option<OrgError>)
      modifies this, ch
      ensures old(ch.id !in members) ==> err.None? && unchanged(this, ch)
      ensures old(ch.id in members) ==> members == old(members)[ch.id := rank]
      ensures err.Some? <==> old(ch.id in members) && old(ch.organisations).None?
      ensures err.Some? ==> err == Some(NoOrganisations) && ch.organisations == old(ch.organisations)
      ensures old(ch.id in members) && err.None? ==> ch.organisations == Some(old(ch.organisations).value[id := rank])
      ensures ranks == old(ranks) && head == old(head) && cachedRanks == old(cachedRanks)
      ensures old(InStep(ch)) ==> err.None? && InStep(ch)
    {
      err := None;
      if ch.id in members {
        members := members[ch.id := rank];
        if ch.organisations.None? {
          return Some(NoOrganisations);
        }
        ch.organisations := Some(ch.organisations.value[id := rank]);
      }
    }

    /**
     * `add_rank`: names a rank identifier in `db.ranks` and changes nothing
     * else; once `self.ranks` has been stored, the names it shows stay
     * those it stored.
     */
    method AddRank(rankId: int, name: string)
      modifies this
      ensures ranks == old(ranks)[rankId := name]
      ensures cachedRanks.Some? ==> RankNames() == old(RankNames())
      ensures members == old(members) && head == old(head) && cachedRanks == old(cachedRanks)
    {
      ranks := ranks[rankId := name];
    }

    /**
     * `remove_rank`: a defined rank is removed and every member holding it
     * is dropped from the members map (the characters' own maps are not
     * touched); an undefined rank changes nothing.
     */
    method RemoveRank(rankId: int)
      modifies this
      ensures ranks == old(ranks) - {rankId}
      ensures rankId in old(ranks) ==>
        members == map c | c in old(members) && old(members)[c] != Some(rankId) :: old(members)[c]
      ensures rankId !in old(ranks) ==> members == old(members)
      ensures rankId in old(ranks) ==> forall c :: c in members ==> members[c] != Some(rankId)
      ensures head == old(head) && cachedRanks == old(cachedRanks)
    {
      if rankId in ranks {
        ranks := ranks - {rankId};
        var todo := members.Keys;
        while todo != {}
          invariant todo <= old(members).Keys
          invariant ranks == old(ranks) - {rankId} && head == old(head) && cachedRanks == old(cachedRanks)
          invariant members ==
            map c | c in old(members) && (c in todo || old(members)[c] != Some(rankId)) :: old(members)[c]
          decreases todo
        {
          assert exists d :: d in todo by { var d := Pick(todo); }
          var c :| c in todo;
          todo := todo - {c};
          if members[c] == Some(rankId) {
            members := members - {c};
          }
        }
        assert forall c :: c !in todo;
      }
    }
  }
  /**
   * A rank renamed after the first read of `self.ranks` keeps its old
   * name in `get_rank`: the first `add_member` without a rank stores the
   * map holding "Page".
   */
  method StaleRankName() returns (r: Option<string>)
    ensures r == Some("Page")
  {
    var org := new Organisation(1);
    var ch := new Character(2);
    org.AddRank(1, "Page");
    org.AddMember(ch, None);
    assert org.RankNames() == map[1 := "Page"];
    assert org.members[ch.id].value in org.RankNames();
    assert org.members[ch.id] == Some(1);
    org.AddRank(1, "Knight");
    r := org.GetRank(ch);
  }
}
