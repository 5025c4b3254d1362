// The `orgmember` lock function: passes when the accessing character
// belongs to the named organisation with a rank at least as good (a number
// at most as large) as the one the lock asks for. The organisation search
// is a parameter: the id of its first match, if any. The character's
// organisation map stands for `character.organisations`, `None` when the
// character has no such attribute.

module Lockfuncs {
  import opened Wrappers
  import opened Strings

  /** What `orgmember` raises instead of answering. */
  datatype LockError =
    | BadRank        // `int(args[1])` fails: ValueError
    | NoOrganisations  // the character has no `organisations` attribute: AttributeError

  /** The rank the lock asks for: the second argument, or 10 when there is none. */
  function MinRank(args: seq<string>): (r: Option<int>)
    ensures |args| <= 1 ==> r == Some(10)
    ensures |args| > 1 ==> r == ParseInt(args[1])
  {
    if |args| > 1 then ParseInt(args[1]) else Some(10)
  }

  /**
   * `orgmember(accessing_obj, accessed_obj, *args)`. `found` is the id of
   * the first organisation the search returns for `args[0]`; `charOrgs` is
   * the character's organisation-to-rank map, `None` when it has none.
   */
  function OrgMember(args: seq<string>, found: Option<int>, charOrgs: Option<map<int, int>>): (r: Result<bool, LockError>)
    ensures args == [] ==> r == Ok(false)
    ensures args != [] && MinRank(args).None? ==> r == Err(BadRank)
    ensures r.Err? && r.error == NoOrganisations ==> args != [] && found.Some? && charOrgs.None?
    ensures args != [] && MinRank(args).Some? && found.None? ==> r == Ok(false)
    ensures args != [] && MinRank(args).Some? && found.Some? && charOrgs.None? ==> r == Err(NoOrganisations)
    ensures r == Ok(true) <==>
      && args != [] && MinRank(args).Some? && found.Some? && charOrgs.Some?
      && found.value in charOrgs.value && charOrgs.value[found.value] <= MinRank(args).value
  {
    if args == [] then Ok(false)
    else
      var minRank := MinRank(args);
      if minRank.None? then Err(BadRank)
      else if found.None? then Ok(false)
      else if charOrgs.None? then Err(NoOrganisations)
      else if found.value in charOrgs.value then Ok(charOrgs.value[found.value] <= minRank.value)
      else Ok(false)
  }

  /** With the rank written out as a number, a member passes exactly when its rank is that number or better. */
  lemma RankThreshold(name: string, m: int, org: int, orgs: map<int, int>)
    requires org in orgs
    ensures OrgMember([name, IntStr(m)], Some(org), Some(orgs)) == Ok(orgs[org] <= m)
  {
    ParseIntStr(m);
  }

  /** Leaving out the rank is the same as asking for rank 10. */
  lemma DefaultRankIsTen(name: string, found: Option<int>, charOrgs: Option<map<int, int>>)
    ensures OrgMember([name], found, charOrgs) == OrgMember([name, IntStr(10)], found, charOrgs)
  {
    ParseIntStr(10);
  }

  /** Loosening the rank a lock asks for never locks out someone it let in. */
  lemma LooserRankKeepsAccess(name: string, m: int, m': int, found: Option<int>, charOrgs: Option<map<int, int>>)
    requires m <= m'
    requires OrgMember([name, IntStr(m)], found, charOrgs) == Ok(true)
    ensures OrgMember([name, IntStr(m')], found, charOrgs) == Ok(true)
  {
    ParseIntStr(m);
    ParseIntStr(m');
  }

  /** Someone who is not a member of the organisation found is refused, whatever rank is asked for. */
  lemma NonMemberRefused(args: seq<string>, org: int, orgs: map<int, int>)
    requires args != [] && MinRank(args).Some? && org !in orgs
    ensures OrgMember(args, Some(org), Some(orgs)) == Ok(false)
  {
  }
}
