// The organisation object (noble houses, orders, guilds): a map from
// character id to rank number 1..10, a map from rank number to rank name,
// and a head. Every membership is mirrored on the character, whose
// `organisations` attribute maps organisation ids to ranks.
//
// Python's exceptions are returned as an error value, together with the
// state the object is in when the exception is raised.
//
// `self.ranks` is an Evennia `lazy_property` over `db.ranks`: its first read
// stores what it got on the object, and later reads return that stored
// value. Each read of an attribute unpickles a fresh copy, so the stored
// value is a snapshot that later writes to `db.ranks` do not reach.
// `cachedRanks` holds that snapshot (`None` before the first read).

module Organisations {
  import opened Wrappers
  import opened Strings
  import opened Sets

  const MaxRanks := 10

  /** The exceptions the membership methods can raise. */
  datatype OrgError =
    | RankOutOfRange        // ValueError: a rank outside 1..10
    | MissingOrgKey         // KeyError: the character's map lacks this organisation
    | NoOrganisations       // TypeError: the character has no organisations map

  /** A character as far as memberships go. A rank stored there may be `None` (the legacy variant stores it). */
  class Character {
    const id: int
    var organisations: Option<map<int, Option<int>>>

    constructor(id: int)
      ensures this.id == id && organisations == None
    {
      this.id := id;
      organisations := None;
    }
  }

  /** A Python rank argument is "not given" when it is `None` or 0. */
  predicate Falsy(rank: Option<int>) { rank.None? || rank == Some(0) }

  /** `add_member`'s rank: the given one, else the lowest defined rank number, else 1. */
  function ChosenRank(ranks: map<int, string>, rank: Option<int>): (r: int)
    ensures !Falsy(rank) ==> r == rank.value
    ensures Falsy(rank) && ranks != map[] ==> r in ranks && forall k :: k in ranks ==> r <= k
    ensures Falsy(rank) && ranks == map[] ==> r == 1
  {
    if Falsy(rank) && ranks != map[] then MinKey(ranks.Keys)
    else if Falsy(rank) then 1
    else rank.value
  }

  /** The character-side map after this organisation is written into it (`organisations or {}` first). */
  function WithOrg(orgs: Option<map<int, Option<int>>>, org: int, rank: Option<int>): map<int, Option<int>>
  {
    (if orgs.Some? then orgs.value else map[])[org := rank]
  }

  class Organisation {
    const id: int
    var members: map<int, int>
    var ranks: map<int, string>
    var head: Option<int>
    var cachedRanks: Option<map<int, string>>

    /** `at_object_creation`: no members, no rank names, no head, and `self.ranks` not yet read. */
    constructor(id: int)
      ensures this.id == id && members == map[] && ranks == map[] && head == None
      ensures cachedRanks == None
    {
      this.id := id;
      members := map[];
      ranks := map[];
      head := None;
      cachedRanks := None;
    }

    /** What `self.ranks` yields: the snapshot once taken, else `db.ranks` itself (which the read then stores). */
    function RankNames(): map<int, string>
      reads this
    {
      if cachedRanks.Some? then cachedRanks.value else ranks
    }

    /** The organisation and the character agree on the character's membership and rank. */
    predicate InStep(ch: Character)
      reads this, ch
    {
      && (ch.id in members <==> ch.organisations.Some? && id in ch.organisations.value)
      && (ch.id in members ==> ch.organisations.value[id] == Some(members[ch.id]))
    }

    /** The name shown for a rank number: its name in `self.ranks`, or "Rank n". */
    function RankName(n: int): (r: string)
      reads this
      ensures n in RankNames() ==> r == RankNames()[n]
      ensures n !in RankNames() ==> r == "Rank " + IntStr(n)
      ensures cachedRanks.None? && n in ranks ==> r == ranks[n]
      ensures cachedRanks.Some? && n in cachedRanks.value ==> r == cachedRanks.value[n]
    {
      var names := RankNames();
      if n in names then names[n] else "Rank " + IntStr(n)
    }

    /** What `get_rank` returns: the rank number and its name for a member, nothing otherwise. */
    function RankOf(ch: Character): (r: Option<(int, string)>)
      reads this
      ensures r.Some? <==> ch.id in members && members[ch.id] != 0
      ensures r.Some? ==> r.value.0 == members[ch.id] && r.value.1 == RankName(members[ch.id])
    {
      if ch.id in members && members[ch.id] != 0 then Some((members[ch.id], RankName(members[ch.id])))
      else None
    }

    /**
     * `get_rank`: reads `self.ranks` only for a member with a non-zero
     * rank, which takes the snapshot if none was taken yet.
     */
    method GetRank(ch: Character) returns (r: Option<(int, string)>)
      modifies this
      ensures r == old(RankOf(ch)) && r == RankOf(ch)
      ensures cachedRanks == if r.Some? then Some(old(RankNames())) else old(cachedRanks)
      ensures RankNames() == old(RankNames())
      ensures members == old(members) && ranks == old(ranks) && head == old(head)
    {
      if ch.id in members && members[ch.id] != 0 {
        var n := members[ch.id];
        if cachedRanks.None? {
          cachedRanks := Some(ranks);
        }
        var names := cachedRanks.value;
        r := Some((n, if n in names then names[n] else "Rank " + IntStr(n)));
      } else {
        r := None;
      }
    }

    /**
     * `add_member`: without a rank `self.ranks` is read (taking the
     * snapshot if none was taken yet) and the chosen rank comes from it;
     * the chosen rank must lie in 1..10; then both maps record it.
     */
    method AddMember(ch: Character, rank: Option<int>) returns (err: Option<OrgError>)
      modifies this, ch
      ensures cachedRanks == if Falsy(rank) then Some(old(RankNames())) else old(cachedRanks)
      ensures RankNames() == old(RankNames())
      ensures ranks == old(ranks) && head == old(head)
      ensures var r := ChosenRank(old(RankNames()), rank);
        err.Some? <==> !(1 <= r <= MaxRanks)
      ensures err.Some? ==> err == Some(RankOutOfRange) && members == old(members) && unchanged(ch)
      ensures err.None? ==>
        var r := ChosenRank(old(RankNames()), rank);
        && members == old(members)[ch.id := r]
        && ch.organisations == Some(WithOrg(old(ch.organisations), id, Some(r)))
        && InStep(ch)
        && RankOf(ch) == Some((r, RankName(r)))
    {
      if Falsy(rank) && cachedRanks.None? {
        cachedRanks := Some(ranks);
      }
      var r := ChosenRank(RankNames(), rank);
      if !(1 <= r <= MaxRanks) {
        return Some(RankOutOfRange);
      }
      members := members[ch.id := r];
      ch.organisations := Some(WithOrg(ch.organisations, id, Some(r)));
      return None;
    }

    /**
     * `remove_member`: a member leaves both maps; a non-member changes
     * nothing. A character map that is empty or missing is left alone; one
     * that lacks this organisation raises KeyError after the member entry
     * is gone.
     */
    method RemoveMember(ch: Character) returns (err: Option<OrgError>)
      modifies this, ch
      ensures members == old(members) - {ch.id}
      ensures ranks == old(ranks) && head == old(head) && cachedRanks == old(cachedRanks)
      ensures var orgs := old(ch.organisations);
        err.Some? <==> old(ch.id in members) && orgs.Some? && orgs.value != map[] && id !in orgs.value
      ensures err.Some? ==> err == Some(MissingOrgKey)
      ensures var orgs := old(ch.organisations);
        ch.organisations ==
          if old(ch.id in members) && orgs.Some? && orgs.value != map[] && id in orgs.value
          then Some(orgs.value - {id}) else orgs
      ensures old(InStep(ch)) ==> err.None? && InStep(ch) && ch.id !in members
    {
      err := None;
      if ch.id in members {
        members := members - {ch.id};
        if ch.organisations.Some? && ch.organisations.value != map[] {
          if id in ch.organisations.value {
            ch.organisations := Some(ch.organisations.value - {id});
          } else {
            err := Some(MissingOrgKey);
          }
        }
      }
    }

    /**
     * `set_rank`: the rank must lie in 1..10; a non-member is added with it,
     * a member has both maps updated (a character without a map raises
     * TypeError after the member entry is updated).
     */
    method SetRank(ch: Character, rank: int) returns (err: Option<OrgError>)
      modifies this, ch
      ensures !(1 <= rank <= MaxRanks) ==> err == Some(RankOutOfRange) && unchanged(this, ch)
      ensures 1 <= rank <= MaxRanks ==>
        && members == old(members)[ch.id := rank]
        && ranks == old(ranks) && head == old(head) && cachedRanks == old(cachedRanks)
      ensures 1 <= rank <= MaxRanks ==>
        (err.Some? <==> old(ch.id in members) && old(ch.organisations).None?)
      ensures err.None? ==>
        && ch.organisations == Some(WithOrg(old(ch.organisations), id, Some(rank)))
        && RankOf(ch) == Some((rank, RankName(rank)))
      ensures err.Some? ==> ch.organisations == old(ch.organisations)
      ensures old(InStep(ch)) && 1 <= rank <= MaxRanks ==> err.None? && InStep(ch)
    {
      if !(1 <= rank <= MaxRanks) {
        return Some(RankOutOfRange);
      }
      if ch.id !in members {
        err := AddMember(ch, Some(rank));
      } else {
        members := members[ch.id := rank];
        if ch.organisations.None? {
          return Some(NoOrganisations);
        }
        ch.organisations := Some(ch.organisations.value[id := Some(rank)]);
        err := None;
      }
    }

    /**
     * `set_rank_name`: only rank numbers 1..10 can be named, and only that
     * entry of `db.ranks` changes. Once `self.ranks` has been read, the
     * names it shows stay those of the snapshot.
     */
    method SetRankName(n: int, name: string) returns (err: Option<OrgError>)
      modifies this
      ensures err.Some? <==> !(1 <= n <= MaxRanks)
      ensures err.Some? ==> err == Some(RankOutOfRange) && ranks == old(ranks)
      ensures err.None? ==> ranks == old(ranks)[n := name]
      ensures err.None? && cachedRanks.None? ==> RankName(n) == name
      ensures cachedRanks.Some? ==> RankNames() == old(RankNames())
      ensures members == old(members) && head == old(head) && cachedRanks == old(cachedRanks)
    {
      if !(1 <= n <= MaxRanks) {
        return Some(RankOutOfRange);
      }
      ranks := ranks[n := name];
      return None;
    }

    /**
     * `delete`: every member the character lookup finds is removed from
     * both maps, one at a time, and the head is cleared. `found` stands for
     * the character search: it maps an id to the character with that id.
     */
    method Delete(found: map<int, Character>) returns (err: Option<OrgError>)
      requires forall i :: i in found ==> found[i].id == i
      modifies this, found.Values
      ensures ranks == old(ranks) && cachedRanks == old(cachedRanks)
      ensures err.None? ==> head == None
      ensures err.None? ==> members == map i | i in old(members) && i !in found :: old(members)[i]
      ensures (forall i :: i in found ==> old(InStep(found[i]))) ==>
        && err.None?
        && forall i :: i in found ==> InStep(found[i]) && i !in members
    {
      ghost var allInStep := forall i :: i in found ==> InStep(found[i]);
      var todo := members.Keys;
      while todo != {}
        invariant todo <= members.Keys
        invariant members == map i | i in old(members) && (i in todo || i !in found) :: old(members)[i]
        invariant ranks == old(ranks) && head == old(head) && cachedRanks == old(cachedRanks)
        invariant allInStep ==> forall i :: i in found ==> InStep(found[i])
        decreases todo
      {
        assert exists j :: j in todo by { var j := Pick(todo); }
        var i :| i in todo;
        todo := todo - {i};
        if i in found {
          var ch := found[i];
          assert forall j :: j in found && j != i ==> found[j] != ch;
          err := RemoveMember(ch);
          if err.Some? {
            return;
          }
        }
      }
      if head.Some? {
        head := None;
      }
      err := None;
    }
  }
  /**
   * Names set after the first read of `self.ranks` are not seen: the
   * first `add_member` without a rank takes the (empty) snapshot, so a
   * rank named afterwards is neither chosen as the default nor shown.
   */
  method StaleRankNames() returns (r: Option<(int, string)>)
    ensures r == Some((1, "Rank 1"))
  {
    var org := new Organisation(1);
    var head := new Character(2);
    var ch := new Character(3);
    var err := org.AddMember(head, None);
    assert org.cachedRanks == Some(map[]);
    err := org.SetRankName(3, "Squire");
    assert org.RankNames() == map[];
    err := org.AddMember(ch, None);
    assert org.members[ch.id] == 1 && org.RankNames() == map[];
    assert IntStr(1) == "1";
    assert org.RankName(1) == "Rank 1";
    r := org.GetRank(ch);
  }
}
