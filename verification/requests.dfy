// Player-staff requests (tickets) and the global handler that keeps the
// list of them and archives or deletes them as they age. The wall clock
// is an integer parameter `now`, in seconds.

module Requests {
  import opened Wrappers
  import opened Sets
  import opened Lists

  const Day := 86400
  /** A closed request is archived once it has been closed for more than 30 days. */
  const ArchiveAfter := 30 * Day
  /** An archived request is deleted once it has been archived for more than 60 days. */
  const DeleteAfter := 60 * Day

  const ValidStatuses := ["Open", "In Progress", "Resolved", "Closed"]

  datatype Comment = Comment(author: string, text: string, date: int)

  /** The attributes of a request. */
  datatype RequestData = RequestData(
    id: int,
    title: string,
    text: string,
    category: string,
    status: string,
    submitter: Option<int>,
    assignedTo: Option<int>,
    dateCreated: int,
    dateModified: int,
    comments: seq<Comment>,
    resolution: string,
    dateClosed: Option<int>,
    archived: bool,
    dateArchived: Option<int>)

  /** `should_auto_archive`: closed, with a closing date more than 30 days back. */
  predicate ShouldAutoArchive(d: RequestData, now: int)
    ensures ShouldAutoArchive(d, now) ==> d.status == "Closed" && d.dateClosed.Some? && d.dateClosed.value < now
  {
    d.status == "Closed" && d.dateClosed.Some? && now - d.dateClosed.value > ArchiveAfter
  }

  /** `should_be_deleted`: archived, with an archiving date more than 60 days back. */
  predicate ShouldBeDeleted(d: RequestData, now: int)
    ensures ShouldBeDeleted(d, now) ==> d.archived && d.dateArchived.Some? && d.dateArchived.value < now
  {
    d.archived && d.dateArchived.Some? && now - d.dateArchived.value > DeleteAfter
  }

  /** Both limits are strict: exactly 30 (60) days is not yet enough, one second more is. */
  lemma ExpiryIsStrict(d: RequestData, t: int)
    ensures ShouldAutoArchive(d.(status := "Closed", dateClosed := Some(t)), t + ArchiveAfter) == false
    ensures ShouldAutoArchive(d.(status := "Closed", dateClosed := Some(t)), t + ArchiveAfter + 1)
    ensures ShouldBeDeleted(d.(archived := true, dateArchived := Some(t)), t + DeleteAfter) == false
    ensures ShouldBeDeleted(d.(archived := true, dateArchived := Some(t)), t + DeleteAfter + 1)
  {
  }

  /** Only a closed request ever expires into the archive, and only an archived one is ever deleted. */
  lemma ExpiryNeedsState(d: RequestData, now: int)
    ensures ShouldAutoArchive(d, now) ==> d.status == "Closed" && d.dateClosed.Some?
    ensures ShouldBeDeleted(d, now) ==> d.archived && d.dateArchived.Some?
    ensures d.status != "Closed" ==> !ShouldAutoArchive(d, now)
    ensures !d.archived ==> !ShouldBeDeleted(d, now)
  {
  }

  /** `_get_next_id`: counts up from 1 past every id already in use. */
  method NextId(used: set<int>) returns (n: int)
    ensures n >= 1 && n !in used
    ensures forall k :: 1 <= k < n ==> k in used
  {
    n := 1;
    ghost var seen: set<int> := {};
    while n in used
      invariant n >= 1
      invariant forall k :: k in seen <==> 1 <= k < n
      invariant seen <= used && |seen| == n - 1
      decreases |used| - |seen|
    {
      assert n !in seen;
      seen := seen + {n};
      SubsetSize(seen, used);
      n := n + 1;
    }
  }

  class Request {
    var data: RequestData
    /** False once the object is deleted (its `pk` is gone). */
    var alive: bool

    /** `at_object_creation`: the smallest free id, status Open, category General, nothing archived. */
    constructor(used: set<int>, now: int)
      ensures data.id >= 1 && data.id !in used && forall k :: 1 <= k < data.id ==> k in used
      ensures data == RequestData(data.id, "", "", "General", "Open", None, None, now, now, [], "", None, false, None)
      ensures alive
    {
      var id := NextId(used);
      data := RequestData(id, "", "", "General", "Open", None, None, now, now, [], "", None, false, None);
      alive := true;
    }

    /** `add_comment`: one comment appended, modification date updated. */
    method AddComment(author: string, text: string, now: int)
      modifies this
      ensures data == old(data).(comments := old(data).comments + [Comment(author, text, now)], dateModified := now)
      ensures alive == old(alive)
    {
      data := data.(comments := data.comments + [Comment(author, text, now)], dateModified := now);
    }

    /** `assign_to` */
    method AssignTo(staff: int, now: int)
      modifies this
      ensures data == old(data).(assignedTo := Some(staff), dateModified := now)
      ensures alive == old(alive)
    {
      data := data.(assignedTo := Some(staff), dateModified := now);
    }

    /**
     * `change_status`: only the four statuses are accepted, and anything
     * else raises before a write. "Closed" stamps the closing date; a
     * non-empty resolution replaces the old one.
     */
    method ChangeStatus(newStatus: string, resolution: Option<string>, now: int) returns (err: bool)
      modifies this
      ensures err <==> newStatus !in ValidStatuses
      ensures err ==> data == old(data)
      ensures !err ==>
        data == old(data).(
          status := newStatus,
          dateClosed := if newStatus == "Closed" then Some(now) else old(data).dateClosed,
          resolution := if resolution.Some? && resolution.value != "" then resolution.value else old(data).resolution,
          dateModified := now)
      ensures !err && newStatus == "Closed" ==> !ShouldAutoArchive(data, now)
      ensures alive == old(alive)
    {
      if newStatus !in ValidStatuses {
        return true;
      }
      data := data.(status := newStatus);
      if newStatus == "Closed" {
        data := data.(dateClosed := Some(now));
      }
      if resolution.Some? && resolution.value != "" {
        data := data.(resolution := resolution.value);
      }
      data := data.(dateModified := now);
      return false;
    }

    /** `archive`: archived, stamped now; it cannot be due for deletion at that moment. */
    method Archive(now: int)
      modifies this
      ensures data == old(data).(archived := true, dateArchived := Some(now), dateModified := now)
      ensures !ShouldBeDeleted(data, now)
      ensures alive == old(alive)
    {
      data := data.(archived := true, dateArchived := Some(now), dateModified := now);
    }

    /** `unarchive`: the flag and the archiving date are both cleared, so it is never due for deletion. */
    method Unarchive(now: int)
      modifies this
      ensures data == old(data).(archived := false, dateArchived := None, dateModified := now)
      ensures forall t :: !ShouldBeDeleted(data, t)
      ensures alive == old(alive)
    {
      data := data.(archived := false, dateArchived := None, dateModified := now);
    }

    /**
     * One request's share of an `at_repeat` pass: deleted when archived and
     * past its 60 days, archived when not archived and past its 30 closed
     * days; `keep` says whether it stays on the handler's list.
     */
    method Age(now: int) returns (keep: bool)
      modifies this
      ensures keep <==> !ShouldBeDeleted(old(data), now)
      ensures (data, alive) == Aged(old(data), old(alive), now)
    {
      if data.archived && ShouldBeDeleted(data, now) {
        Delete();
        return false;
      }
      if !data.archived && ShouldAutoArchive(data, now) {
        Archive(now);
      }
      return true;
    }

    /** `delete` */
    method Delete()
      modifies this
      ensures !alive && data == old(data)
    {
      alive := false;
    }
  }

  /** The live (not deleted) requests, in order. */
  function Live(rs: seq<Request>): (r: seq<Request>)
    reads rs
    ensures forall k :: 0 <= k < |r| ==> r[k] in rs && r[k].alive
  {
    if rs == [] then [] else (if rs[0].alive then [rs[0]] else []) + Live(rs[1..])
  }

  /** `active_requests`: live and not archived. */
  function Active(rs: seq<Request>): (r: seq<Request>)
    reads rs
    ensures |r| <= |rs|
    ensures forall k :: 0 <= k < |r| ==> r[k] in rs && r[k].alive && !r[k].data.archived
  {
    if rs == [] then [] else (if rs[0].alive && !rs[0].data.archived then [rs[0]] else []) + Active(rs[1..])
  }

  /** `archived_requests`: live and archived. */
  function Archived(rs: seq<Request>): (r: seq<Request>)
    reads rs
    ensures |r| <= |rs|
    ensures forall k :: 0 <= k < |r| ==> r[k] in rs && r[k].alive && r[k].data.archived
  {
    if rs == [] then [] else (if rs[0].alive && rs[0].data.archived then [rs[0]] else []) + Archived(rs[1..])
  }

  /** The active and the archived requests split the live ones between them: every live one lands in exactly one. */
  lemma {:induction false} ActiveArchivedPartition(rs: seq<Request>)
    ensures |Active(rs)| + |Archived(rs)| == |Live(rs)|
    ensures forall x :: x in Active(rs) <==> x in Live(rs) && !x.data.archived
    ensures forall x :: x in Archived(rs) <==> x in Live(rs) && x.data.archived
  {
    if rs != [] {
      ActiveArchivedPartition(rs[1..]);
    }
  }

  /** What one `at_repeat` pass does to a request's attributes and to its existence. */
  function Aged(d: RequestData, alive: bool, now: int): (r: (RequestData, bool))
    ensures ShouldBeDeleted(d, now) ==> r == (d, false)
    ensures !d.archived && ShouldAutoArchive(d, now) ==>
      r == (d.(archived := true, dateArchived := Some(now), dateModified := now), alive)
  {
    if d.archived && ShouldBeDeleted(d, now) then (d, false)
    else if !d.archived && ShouldAutoArchive(d, now) then
      (d.(archived := true, dateArchived := Some(now), dateModified := now), alive)
    else (d, alive)
  }

  /**
   * A pass never both archives and deletes a request: a deleted one keeps
   * its attributes, an archived one stays in existence, and one that is
   * neither due for deletion nor for archiving is left exactly as it was.
   */
  lemma AgedCases(d: RequestData, alive: bool, now: int)
    ensures var (d', alive') := Aged(d, alive, now);
      && (!alive' && alive ==> d' == d)
      && (d' != d ==> alive' == alive && d'.archived && !d.archived)
      && (!ShouldBeDeleted(d, now) && !(!d.archived && ShouldAutoArchive(d, now)) ==> d' == d && alive' == alive)
      && (!ShouldBeDeleted(d', now) || !alive')
  {
  }

  /** The attributes and existence of each request, in order: a snapshot of the list's state. */
  function Snapshot(rs: seq<Request>): (r: seq<(RequestData, bool)>)
    reads rs
    ensures |r| == |rs| && forall k :: 0 <= k < |rs| ==> r[k] == (rs[k].data, rs[k].alive)
  {
    if rs == [] then [] else [(rs[0].data, rs[0].alive)] + Snapshot(rs[1..])
  }

  /** The requests from position `i` on still have the state recorded in `st`. */
  predicate Pending(rs: seq<Request>, st: seq<(RequestData, bool)>, i: nat)
    reads rs
  {
    |st| == |rs| && i <= |rs| && forall j :: i <= j < |rs| ==> (rs[j].data, rs[j].alive) == st[j]
  }

  /** The requests before position `i` have gone through one pass from the state recorded in `st`. */
  predicate Swept(rs: seq<Request>, st: seq<(RequestData, bool)>, i: nat, now: int)
    reads rs
  {
    |st| == |rs| && i <= |rs| && forall j :: 0 <= j < i ==> (rs[j].data, rs[j].alive) == Aged(st[j].0, st[j].1, now)
  }

  /**
   * The first `i` requests of `rs` whose recorded attributes are not due
   * for deletion, in order: what is left of the list once `i` of them are swept.
   */
  function KeptUpTo(rs: seq<Request>, st: seq<(RequestData, bool)>, i: nat, now: int): (r: seq<Request>)
    requires i <= |rs| == |st|
    ensures |r| <= i
  {
    if i == 0 then []
    else KeptUpTo(rs, st, i - 1, now) + (if ShouldBeDeleted(st[i - 1].0, now) then [] else [rs[i - 1]])
  }

  /** Exactly the swept requests that are not due for deletion are kept. */
  lemma {:induction false} KeptMembers(rs: seq<Request>, st: seq<(RequestData, bool)>, i: nat, now: int)
    requires i <= |rs| == |st|
    ensures forall x :: x in KeptUpTo(rs, st, i, now) <==> exists k :: 0 <= k < i && rs[k] == x && !ShouldBeDeleted(st[k].0, now)
  {
    if i > 0 {
      KeptMembers(rs, st, i - 1, now);
    }
  }

  /** In a list without repeats, a request not yet swept is not among the kept ones. */
  lemma KeptExcludesRest(rs: seq<Request>, st: seq<(RequestData, bool)>, i: nat, now: int)
    requires i < |rs| == |st| && Distinct(rs)
    ensures rs[i] !in KeptUpTo(rs, st, i, now)
  {
    KeptMembers(rs, st, i, now);
  }

  /** Filtering a list without repeats leaves a list without repeats. */
  lemma {:induction false} KeptDistinct(rs: seq<Request>, st: seq<(RequestData, bool)>, i: nat, now: int)
    requires i <= |rs| == |st| && Distinct(rs)
    ensures Distinct(KeptUpTo(rs, st, i, now))
  {
    if i > 0 {
      KeptDistinct(rs, st, i - 1, now);
      if !ShouldBeDeleted(st[i - 1].0, now) {
        KeptExcludesRest(rs, st, i - 1, now);
        DistinctSnoc(KeptUpTo(rs, st, i - 1, now), rs[i - 1]);
      }
    }
  }

  /** After `i` steps of the walk: those requests are aged, the rest untouched, and `kept` gathered. */
  predicate SweptUpTo(rs: seq<Request>, st: seq<(RequestData, bool)>, i: nat, now: int, kept: seq<Request>)
    reads rs
  {
    i <= |rs| == |st| && kept == KeptUpTo(rs, st, i, now) && Pending(rs, st, i) && Swept(rs, st, i, now)
  }

  /** One step of the `at_repeat` walk: the `i`-th request of the copy is aged and, unless deleted, kept. */
  method SweepStep(copy: seq<Request>, ghost st: seq<(RequestData, bool)>, i: nat, kept: seq<Request>, now: int)
    returns (kept': seq<Request>)
    requires i < |copy| == |st| && Distinct(copy)
    requires SweptUpTo(copy, st, i, now, kept)
    modifies copy[i]
    ensures SweptUpTo(copy, st, i + 1, now, kept')
  {
    var r := copy[i];
    assert forall j :: 0 <= j < |copy| && j != i ==> copy[j] != r;
    var keep := r.Age(now);
    kept' := if keep then kept + [r] else kept;
  }

  /**
   * The `at_repeat` walk over a copy of the list: every request is aged in
   * turn, and the ones not deleted are gathered in order.
   */
  method SweepAll(copy: seq<Request>, now: int) returns (kept: seq<Request>)
    requires Distinct(copy)
    modifies copy
    ensures kept == KeptUpTo(copy, old(Snapshot(copy)), |copy|, now)
    ensures Swept(copy, old(Snapshot(copy)), |copy|, now)
    ensures Distinct(kept)
  {
    ghost var st := Snapshot(copy);
    kept := [];
    var i := 0;
    while i < |copy|
      invariant SweptUpTo(copy, st, i, now, kept)
      decreases |copy| - i
    {
      kept := SweepStep(copy, st, i, kept, now);
      i := i + 1;
    }
    KeptDistinct(copy, st, i, now);
  }

  class RequestHandler {
    var requests: seq<Request>

    /** `at_script_creation`: an empty list. */
    constructor()
      ensures requests == []
    {
      requests := [];
    }

    /** `add_request`: appended unless already there, so the list never holds a request twice. */
    method AddRequest(r: Request)
      modifies this
      ensures requests == if r in old(requests) then old(requests) else old(requests) + [r]
      ensures Distinct(old(requests)) ==> Distinct(requests)
      ensures r in requests
    {
      if r !in requests {
        requests := requests + [r];
      }
    }

    /** `remove_request`: the first occurrence goes; an absent request leaves the list as it was. */
    method RemoveRequest(r: Request)
      modifies this
      ensures requests == RemoveFirst(old(requests), r)
      ensures Distinct(old(requests)) ==> r !in requests && Distinct(requests)
    {
      if r in requests {
        var i := FirstPosition(requests, r);
        assert requests == requests[..i] + [r] + requests[i + 1..];
        RemoveFirstAt(requests[..i], r, requests[i + 1..]);
        if Distinct(requests) {
          RemoveFirstDistinct(requests, r);
        }
        requests := requests[..i] + requests[i + 1..];
      }
    }

    /**
     * `at_repeat`: walks a copy of the list; an archived request past its
     * 60 days is dropped from the list and deleted, a non-archived one past
     * its 30 closed days is archived, and every other request is left alone.
     * The survivors are gathered as the walk goes and written back at the end.
     */
    method AtRepeat(now: int)
      requires Distinct(requests)
      modifies this, requests
      ensures requests == KeptUpTo(old(requests), old(Snapshot(requests)), |old(requests)|, now)
      ensures Swept(old(requests), old(Snapshot(requests)), |old(requests)|, now)
      ensures Distinct(requests)
    {
      var kept := SweepAll(requests, now);
      requests := kept;
    }
  }
}
