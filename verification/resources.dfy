// A resource: a die (d4..d12) that characters and organisations own and
// hand to each other. It remembers its first owner (the origin) and keeps
// a history of transfers. The clock that stamps a transfer is a parameter.

module Resources {
  import opened Wrappers
  import opened Strings

  /** The die sizes a resource may have. */
  const ValidDieSizes := [4, 6, 8, 10, 12]

  /** A character or an organisation, as far as a resource sees it. */
  datatype Entity = Entity(id: int, name: string)

  /** One transfer: when, from whom (if known) and to whom (if anyone). */
  datatype Transfer = Transfer(time: int, from: Option<Entity>, to: Option<Entity>)

  /** `transfer_from or self.db.owner`: the first of the two that is set. */
  function Giver(transferFrom: Option<Entity>, owner: Option<Entity>): (r: Option<Entity>)
    ensures r.None? <==> transferFrom.None? && owner.None?
    ensures transferFrom.Some? ==> r == transferFrom
  {
    if transferFrom.Some? then transferFrom else owner
  }

  /** The name shown for one end of a transfer. */
  function NameOf(e: Option<Entity>): (r: string)
    ensures e.None? ==> r == "Unknown"
    ensures e.Some? ==> r == e.value.name
  {
    match e
    case None => "Unknown"
    case Some(x) => x.name
  }

  /** One line of `get_history`: "<time>: <from> -> <to>". */
  function HistoryLine(t: Transfer): (r: string)
    ensures StartsWith(r, IntStr(t.time) + ": ")
    ensures EndsWith(r, " -> " + NameOf(t.to))
  {
    var r := IntStr(t.time) + ": " + NameOf(t.from) + " -> " + NameOf(t.to);
    assert r[..|IntStr(t.time) + ": "|] == IntStr(t.time) + ": ";
    assert r[|r| - |" -> " + NameOf(t.to)|..] == " -> " + NameOf(t.to);
    r
  }

  /** The lines of `get_history` for a history, oldest first. */
  function FormatHistory(h: seq<Transfer>): (r: seq<string>)
    ensures |r| == |h|
  {
    if h == [] then [] else FormatHistory(h[..|h| - 1]) + [HistoryLine(h[|h| - 1])]
  }

  /** Line `k` of the formatted history is the line of transfer `k`. */
  lemma {:induction false} FormatHistoryLines(h: seq<Transfer>)
    ensures forall k :: 0 <= k < |h| ==> FormatHistory(h)[k] == HistoryLine(h[k])
  {
    if h != [] {
      var init := h[..|h| - 1];
      FormatHistoryLines(init);
      forall k | 0 <= k < |h| - 1
        ensures FormatHistory(h)[k] == HistoryLine(h[k])
      {
        assert h[k] == init[k];
      }
    }
  }

  /** The formatted history is the only list holding the line of each transfer at its position. */
  lemma FormatHistoryOnly(h: seq<Transfer>, r: seq<string>)
    requires |r| == |h| && forall k :: 0 <= k < |h| ==> r[k] == HistoryLine(h[k])
    ensures r == FormatHistory(h)
  {
    FormatHistoryLines(h);
  }

  /** Appending the line of the next transfer keeps each line at the position of its transfer. */
  lemma NextHistoryLine(h: seq<Transfer>, r: seq<string>)
    requires |r| < |h| && forall k :: 0 <= k < |r| ==> r[k] == HistoryLine(h[k])
    ensures forall k :: 0 <= k <= |r| ==> (r + [HistoryLine(h[|r|])])[k] == HistoryLine(h[k])
  {
  }

  /** A recorded transfer adds exactly its own line at the end of the formatted history. */
  lemma FormatHistoryAppend(h: seq<Transfer>, t: Transfer)
    ensures FormatHistory(h + [t]) == FormatHistory(h) + [HistoryLine(t)]
  {
    assert (h + [t])[..|h|] == h;
  }

  /** The time stamp of a transfer reads back from the text before the first ':' of its line. */
  lemma HistoryLineTime(t: Transfer)
    ensures ':' in HistoryLine(t)
    ensures ParseInt(HistoryLine(t)[..IndexOf(HistoryLine(t), ':')]) == Some(t.time)
  {
    var s := IntStr(t.time);
    var line := HistoryLine(t);
    assert line == s + ": " + NameOf(t.from) + " -> " + NameOf(t.to);
    assert line[|s|] == ':';
    var d := NatStr(if t.time < 0 then -t.time else t.time);
    assert forall i :: 0 <= i < |d| ==> IsDigit(d[i]);
    assert forall i :: 0 <= i < |s| ==> s[i] != ':' by {
      if t.time < 0 {
        assert s == "-" + d;
        forall i | 0 <= i < |s| ensures s[i] != ':' {
          if i > 0 { assert s[i] == d[i - 1]; }
        }
      }
    }
    assert line[..|s|] == s;
    IndexOfAt(line, ':', |s|);
    ParseIntStr(t.time);
  }

  class Resource {
    var dieSize: int
    var owner: Option<Entity>
    var origin: Option<Entity>
    var history: seq<Transfer>

    /** The die is always one of the five sizes, and a resource with an owner has an origin. */
    predicate Valid()
      reads this
    {
      dieSize in ValidDieSizes && (owner.Some? ==> origin.Some?)
    }

    /** `at_object_creation`: a d6 with no owner, no origin and no history. */
    constructor()
      ensures dieSize == 6 && owner == None && origin == None && history == []
      ensures Valid()
    {
      dieSize := 6;
      owner := None;
      origin := None;
      history := [];
    }

    /** The `die_size` setter: only 4, 6, 8, 10 or 12 is stored; anything else is refused (ValueError). */
    method SetDieSize(value: int) returns (err: bool)
      requires Valid()
      modifies this
      ensures err <==> value !in ValidDieSizes
      ensures dieSize == if err then old(dieSize) else value
      ensures owner == old(owner) && origin == old(origin) && history == old(history)
      ensures Valid()
    {
      if value !in ValidDieSizes {
        return true;
      }
      dieSize := value;
      return false;
    }

    /**
     * `set_owner`: the first owner ever set becomes the origin for good; a
     * transfer is recorded at time `now` when there is someone it comes from
     * (the named giver or the previous owner); then the new owner is stored.
     */
    method SetOwner(newOwner: Option<Entity>, transferFrom: Option<Entity>, now: int)
      requires Valid()
      modifies this
      ensures owner == newOwner
      ensures origin == if old(origin).None? then newOwner else old(origin)
      ensures old(origin).Some? ==> origin == old(origin)
      ensures history == old(history) + (if Giver(transferFrom, old(owner)).Some?
        then [Transfer(now, Giver(transferFrom, old(owner)), newOwner)] else [])
      ensures |old(history)| <= |history| <= |old(history)| + 1 && history[..|old(history)|] == old(history)
      ensures dieSize == old(dieSize)
      ensures Valid()
    {
      if origin.None? {
        origin := newOwner;
      }
      if transferFrom.Some? || owner.Some? {
        history := history + [Transfer(now, Giver(transferFrom, owner), newOwner)];
      }
      owner := newOwner;
    }

    /** `get_history` on this resource: one formatted line per history entry, built in order. */
    method GetHistory() returns (r: seq<string>)
      ensures r == FormatHistory(history)
      ensures |r| == |history|
      ensures forall k :: 0 <= k < |history| ==> r[k] == HistoryLine(history[k])
    {
      r := [];
      var i := 0;
      while i < |history|
        invariant i <= |history| && |r| == i
        invariant forall k :: 0 <= k < i ==> r[k] == HistoryLine(history[k])
      {
        NextHistoryLine(history, r);
        r := r + [HistoryLine(history[i])];
        i := i + 1;
      }
      FormatHistoryOnly(history, r);
    }
  }

  /**
   * The origin after a run of ownership changes, starting from `origin`:
   * the first owner that is set stays the origin from then on.
   */
  function OriginAfter(origin: Option<Entity>, owners: seq<Option<Entity>>): Option<Entity>
    decreases |owners|
  {
    if owners == [] then origin
    else OriginAfter(if origin.None? then owners[0] else origin, owners[1..])
  }

  /** Once set, the origin survives any number of later ownership changes. */
  lemma {:induction false} OriginIsFixed(origin: Option<Entity>, owners: seq<Option<Entity>>)
    requires origin.Some?
    ensures OriginAfter(origin, owners) == origin
  {
    if owners != [] {
      OriginIsFixed(origin, owners[1..]);
    }
  }

  /** Starting from nothing, the origin is the first owner that was actually set, if any. */
  lemma {:induction false} OriginIsFirstOwner(owners: seq<Option<Entity>>, k: nat)
    requires k < |owners| && owners[k].Some?
    requires forall j :: 0 <= j < k ==> owners[j].None?
    ensures OriginAfter(None, owners) == owners[k]
  {
    if k == 0 {
      OriginIsFixed(owners[0], owners[1..]);
    } else {
      OriginIsFirstOwner(owners[1..], k - 1);
    }
  }
}
