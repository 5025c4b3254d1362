// A bulletin board: subscribers, access rules, and the posts it has
// received. Whether a character passes the board's read, write or admin
// lock is a parameter of each operation; characters are ids; the clock is
// an integer `now`.

module Boards {
  import opened Wrappers
  import opened Lists

  /** A post: a message whose receivers include the board. */
  class Post {
    const sender: int
    const title: string
    const dateCreated: int
    /** Carries the ("board_post", "board_messages") tag. */
    const boardPost: bool
    var message: string
    var pinned: bool
    /** Carries the ("archived", "board_messages") tag. */
    var archived: bool
    /** `read_by`, `None` until the first `mark_read`. */
    var readBy: Option<seq<int>>
    var lastEdited: Option<int>
    var editedBy: Option<int>

    /** `create_message` with the board-post tag: unpinned, unarchived, read by nobody. */
    constructor(sender: int, title: string, text: string, now: int)
      ensures this.sender == sender && this.title == title && dateCreated == now && boardPost
      ensures message == text && !pinned && !archived && readBy == None
      ensures lastEdited == None && editedBy == None
    {
      this.sender := sender;
      this.title := title;
      dateCreated := now;
      boardPost := true;
      message := text;
      pinned := false;
      archived := false;
      readBy := None;
      lastEdited := None;
      editedBy := None;
    }
  }

  /** A post is unread by `reader` until `reader` is on its `read_by` list. */
  predicate Unread(p: Post, reader: int)
    reads p
  {
    p.readBy.None? || reader !in p.readBy.value
  }

  /**
   * The posts `get_posts` keeps, oldest first: board posts only, and
   * archived ones only when asked for.
   */
  function Listed(ps: seq<Post>, includeArchived: bool): (r: seq<Post>)
    reads ps
    ensures |r| <= |ps|
    ensures forall k :: 0 <= k < |r| ==> r[k] in ps && r[k].boardPost && (includeArchived || !r[k].archived)
  {
    if ps == [] then []
    else
      var p := ps[|ps| - 1];
      Listed(ps[..|ps| - 1], includeArchived) + (if p.boardPost && (includeArchived || !p.archived) then [p] else [])
  }

  /** Every board post of the store that is not left out for being archived is listed. */
  lemma {:induction false} ListedComplete(ps: seq<Post>, includeArchived: bool, p: Post)
    requires p in ps && p.boardPost && (includeArchived || !p.archived)
    ensures p in Listed(ps, includeArchived)
  {
    var last := ps[|ps| - 1];
    if p != last {
      assert p in ps[..|ps| - 1];
      ListedComplete(ps[..|ps| - 1], includeArchived, p);
    }
  }

  /** Creation dates strictly increase along the store. */
  predicate Chronological(ps: seq<Post>)
  {
    forall i, j :: 0 <= i < j < |ps| ==> ps[i].dateCreated < ps[j].dateCreated
  }

  /** Filtering keeps the order of creation. */
  lemma {:induction false} ListedChronological(ps: seq<Post>, includeArchived: bool)
    requires Chronological(ps)
    ensures Chronological(Listed(ps, includeArchived))
  {
    if ps != [] {
      var init := ps[..|ps| - 1];
      ListedChronological(init, includeArchived);
      var l := Listed(init, includeArchived);
      forall k | 0 <= k < |l|
        ensures l[k].dateCreated < ps[|ps| - 1].dateCreated
      {
        var i :| 0 <= i < |init| && init[i] == l[k];
      }
    }
  }

  /** Leaving one post out keeps the rest in order of creation. */
  lemma ChronologicalDropAt(ps: seq<Post>, i: nat)
    requires Chronological(ps) && i < |ps|
    ensures Chronological(ps[..i] + ps[i + 1..])
  {
    var r := ps[..i] + ps[i + 1..];
    forall a, b | 0 <= a < b < |r|
      ensures r[a].dateCreated < r[b].dateCreated
    {
      var a' := if a < i then a else a + 1;
      var b' := if b < i then b else b + 1;
      assert r[a] == ps[a'] && r[b] == ps[b'];
    }
  }

  /** Taking a post out of a store without repeats leaves it in order, without repeats and without that post. */
  lemma RemovePostKeepsOrder(ps: seq<Post>, p: Post)
    requires Chronological(ps) && Distinct(ps) && p in ps
    ensures Chronological(RemoveFirst(ps, p)) && Distinct(RemoveFirst(ps, p)) && p !in RemoveFirst(ps, p)
  {
    RemoveFirstDistinct(ps, p);
    RemoveFirstIsDrop(ps, p);
    ChronologicalDropAt(ps, FirstPosition(ps, p));
  }

  /** The position of the oldest unpinned post of `ps`, if there is one. */
  function FirstUnpinned(ps: seq<Post>): (r: Option<nat>)
    reads ps
    ensures r.Some? ==> r.value < |ps| && !ps[r.value].pinned && forall j :: 0 <= j < r.value ==> ps[j].pinned
    ensures r.None? ==> forall j :: 0 <= j < |ps| ==> ps[j].pinned
  {
    if ps == [] then None
    else if !ps[0].pinned then Some(0)
    else
      var r := FirstUnpinned(ps[1..]);
      if r.None? then None else Some(r.value + 1)
  }

  class Board {
    var subscribers: seq<int>
    /** The lock string for each access type. */
    var locks: map<string, string>
    var archivePosts: bool
    var maxPosts: int
    /** The messages received by the board, in the order they were created. */
    var posts: seq<Post>

    predicate Valid()
      reads this
    {
      Distinct(subscribers) && Chronological(posts) && Distinct(posts)
    }

    /** `at_script_creation`: no subscribers or posts, reading and writing open to all, at most 50 live posts. */
    constructor()
      ensures subscribers == [] && posts == []
      ensures locks == map["read" := "all()", "write" := "all()", "admin" := "perm(Admin)"]
      ensures archivePosts && maxPosts == 50
      ensures Valid()
    {
      subscribers := [];
      locks := map["read" := "all()", "write" := "all()", "admin" := "perm(Admin)"];
      archivePosts := true;
      maxPosts := 50;
      posts := [];
    }

    /** `subscribe`: refused without read access; otherwise the subscriber is on the list exactly once. */
    method Subscribe(subscriber: int, canRead: bool) returns (ok: bool)
      requires Valid()
      modifies this
      ensures ok == canRead
      ensures subscribers == if canRead && subscriber !in old(subscribers) then old(subscribers) + [subscriber] else old(subscribers)
      ensures canRead ==> subscriber in subscribers
      ensures posts == old(posts) && locks == old(locks)
      ensures Valid()
    {
      if !canRead {
        return false;
      }
      if subscriber !in subscribers {
        subscribers := subscribers + [subscriber];
      }
      return true;
    }

    /** `unsubscribe`: succeeds exactly when the subscriber was on the list, and takes it off. */
    method Unsubscribe(subscriber: int) returns (ok: bool)
      requires Valid()
      modifies this
      ensures ok <==> subscriber in old(subscribers)
      ensures subscribers == RemoveFirst(old(subscribers), subscriber)
      ensures subscriber !in subscribers
      ensures posts == old(posts) && locks == old(locks)
      ensures Valid()
    {
      if subscriber in subscribers {
        RemoveFirstDistinct(subscribers, subscriber);
        subscribers := RemoveFirst(subscribers, subscriber);
        return true;
      }
      return false;
    }

    /**
     * `set_access`: a caller that is given must pass the admin lock; then
     * only "read", "write" and "admin" may be set, each replacing its own lock.
     */
    method SetAccess(accessType: string, lockstring: string, caller: Option<int>, callerIsAdmin: bool) returns (ok: bool)
      requires Valid()
      modifies this
      ensures ok <==> (caller.None? || callerIsAdmin) && accessType in {"read", "write", "admin"}
      ensures locks == if ok then old(locks)[accessType := lockstring] else old(locks)
      ensures subscribers == old(subscribers) && posts == old(posts)
      ensures Valid()
    {
      if caller.Some? && !callerIsAdmin {
        return false;
      }
      if accessType == "read" || accessType == "write" || accessType == "admin" {
        locks := locks[accessType := lockstring];
        return true;
      }
      return false;
    }

    /**
     * `get_posts`: nothing without read access; otherwise the board posts,
     * archived ones only when asked for, newest first, each with whether
     * `reader` has yet to read it. The sort key's pinned component reads a
     * plain `pinned` attribute that `pin_post` never writes (it writes
     * `db.pinned`), so it is the same for every post and the order is by
     * creation date alone.
     */
    function GetPosts(reader: int, includeArchived: bool, canRead: bool): (r: seq<(Post, bool)>)
      reads this, posts
      ensures !canRead ==> r == []
      ensures canRead ==> |r| == |Listed(posts, includeArchived)|
      ensures forall k :: 0 <= k < |r| ==>
        var l := Listed(posts, includeArchived);
        r[k] == (l[|l| - 1 - k], Unread(l[|l| - 1 - k], reader))
    {
      if !canRead then []
      else
        var l := Listed(posts, includeArchived);
        seq(|l|, k requires 0 <= k < |l| reads l => (l[|l| - 1 - k], Unread(l[|l| - 1 - k], reader)))
    }

    /**
     * `create_post`: refused (nothing created) without write access.
     * Otherwise a new post is stored; then, when archiving is on, the
     * overflow rule below runs on the store that now holds the new post.
     */
    method CreatePost(poster: int, title: string, text: string, canWrite: bool, canRead: bool, now: int)
      returns (post: Option<Post>, ghost archivedPost: Option<Post>)
      requires Valid()
      requires forall k :: 0 <= k < |posts| ==> posts[k].dateCreated < now
      modifies this, posts
      ensures !canWrite ==> post.None? && posts == old(posts) && archivedPost == None
      ensures canWrite ==> post.Some? && fresh(post.value) && posts == old(posts) + [post.value]
      ensures canWrite ==> post.value.sender == poster && post.value.title == title && post.value.message == text
      ensures canWrite ==> post.value.dateCreated == now && post.value.boardPost && !post.value.pinned
      ensures canWrite ==>
        var older := old(Listed(posts, false));
        var first := old(FirstUnpinned(Listed(posts, false)));
        archivedPost == if !(archivePosts && canRead && |older| + 1 > maxPosts) then None
          else if first.Some? then Some(older[first.value]) else post
      ensures canWrite ==> post.value.archived == (archivedPost == post)
      ensures forall q :: q in old(posts) ==> q.archived == (old(q.archived) || archivedPost == Some(q))
      ensures forall q :: q in old(posts) ==> q.pinned == old(q.pinned) && q.readBy == old(q.readBy) && q.message == old(q.message)
      ensures subscribers == old(subscribers) && locks == old(locks) && archivePosts == old(archivePosts) && maxPosts == old(maxPosts)
      ensures Valid()
    {
      if !canWrite {
        return None, None;
      }
      ghost var before := Listed(posts, false);
      ghost var first := FirstUnpinned(before);
      var p := StorePost(poster, title, text, now);
      post := Some(p);
      assert FirstUnpinned(before) == first;
      if archivePosts {
        var archived := ArchiveOldest(poster, canRead, before, p);
        archivedPost := archived;
      } else {
        archivedPost := None;
      }
    }

    /** The new post of `create_post`, stored after every earlier one. */
    method StorePost(poster: int, title: string, text: string, now: int) returns (p: Post)
      requires Valid()
      requires forall k :: 0 <= k < |posts| ==> posts[k].dateCreated < now
      modifies this
      ensures fresh(p) && posts == old(posts) + [p]
      ensures p.sender == poster && p.title == title && p.message == text && p.dateCreated == now
      ensures p.boardPost && !p.pinned && !p.archived
      ensures Listed(posts, false) == old(Listed(posts, false)) + [p]
      ensures subscribers == old(subscribers) && locks == old(locks) && archivePosts == old(archivePosts) && maxPosts == old(maxPosts)
      ensures Valid()
    {
      p := new Post(poster, title, text, now);
      DistinctSnoc(posts, p);
      posts := posts + [p];
      assert posts[..|posts| - 1] == old(posts);
    }

    /**
     * The overflow rule of `create_post`: when the poster's view of the
     * unarchived board posts holds more than `max_posts`, the oldest
     * unpinned post in it is archived, and nothing else changes. Without
     * read access the view is empty.
     */
    method ArchiveOldest(poster: int, canRead: bool, ghost older: seq<Post>, ghost p: Post) returns (victim: Option<Post>)
      requires Listed(posts, false) == older + [p] && p !in older && !p.pinned
      modifies posts
      ensures
        var first := old(FirstUnpinned(older));
        victim == if !(canRead && |older| + 1 > maxPosts) then None else if first.Some? then Some(older[first.value]) else Some(p)
      ensures forall q :: q in posts ==> q.archived == (old(q.archived) || victim == Some(q))
      ensures forall q :: q in posts ==> q.pinned == old(q.pinned) && q.readBy == old(q.readBy) && q.message == old(q.message)
    {
      victim := OldestUnpinned(poster, canRead, older, p);
      if victim.Some? {
        victim.value.archived := true;
      }
    }

    /**
     * The post the overflow rule archives: in `get_posts`' newest-first
     * list, walked from its oldest end, the first post that is not pinned;
     * none when the list is within `max_posts` or every post is pinned.
     */
    method OldestUnpinned(poster: int, canRead: bool, ghost older: seq<Post>, ghost p: Post) returns (victim: Option<Post>)
      requires Listed(posts, false) == older + [p] && p !in older && !p.pinned
      ensures victim == if !(canRead && |older| + 1 > maxPosts) then None
        else if FirstUnpinned(older).Some? then Some(older[FirstUnpinned(older).value]) else Some(p)
      ensures victim.Some? ==> victim.value in posts
    {
      FirstUnpinnedSnoc(older, p);
      victim := None;
      ghost var view := Listed(posts, false);
      var visible := GetPosts(poster, false, canRead);
      if |visible| > maxPosts {
        var i := NewestPinnedRun(visible);
        if canRead {
          NewestFirstScan(view, visible, i);
        }
        if i > 0 {
          victim := Some(visible[i - 1].0);
        }
      }
    }

    /**
     * The walk of `reversed(posts)` from the oldest post: `i - 1` is the
     * position of the oldest unpinned post in the newest-first list `visible`,
     * or `i` is 0 when every post is pinned.
     */
    method NewestPinnedRun(visible: seq<(Post, bool)>) returns (i: nat)
      ensures i <= |visible|
      ensures i > 0 ==> !visible[i - 1].0.pinned
      ensures forall k :: i <= k < |visible| ==> visible[k].0.pinned
    {
      i := |visible|;
      while i > 0 && visible[i - 1].0.pinned
        invariant 0 <= i <= |visible|
        invariant forall k :: i <= k < |visible| ==> visible[k].0.pinned
      {
        i := i - 1;
      }
    }

    /** `edit_post`: only the first sender or an admin may edit; the text, edit time and editor are replaced. */
    method EditPost(editor: int, post: Post, newText: string, isAdmin: bool, now: int) returns (ok: bool)
      modifies post
      ensures ok <==> editor == post.sender || isAdmin
      ensures ok ==> post.message == newText && post.lastEdited == Some(now) && post.editedBy == Some(editor)
      ensures !ok ==> post.message == old(post.message) && post.lastEdited == old(post.lastEdited) && post.editedBy == old(post.editedBy)
      ensures post.pinned == old(post.pinned) && post.archived == old(post.archived) && post.readBy == old(post.readBy)
    {
      if !(editor == post.sender || isAdmin) {
        return false;
      }
      post.message := newText;
      post.lastEdited := Some(now);
      post.editedBy := Some(editor);
      return true;
    }

    /** `mark_read`: the reader is on `read_by` afterwards, exactly once, and the post no longer shows as unread to it. */
    method MarkRead(reader: int, post: Post)
      modifies post
      ensures post.readBy == Some(if old(post.readBy).None? then [reader]
        else if reader in old(post.readBy).value then old(post.readBy).value
        else old(post.readBy).value + [reader])
      ensures !Unread(post, reader)
      ensures forall other :: other != reader ==> Unread(post, other) == old(Unread(post, other))
      ensures post.message == old(post.message) && post.pinned == old(post.pinned) && post.archived == old(post.archived)
    {
      var readBy := if post.readBy.None? then [] else post.readBy.value;
      if reader !in readBy {
        assert [] + [reader] == [reader];
        readBy := readBy + [reader];
      }
      post.readBy := Some(readBy);
    }

    /**
     * `delete_post`: only the first sender or an admin may delete, and only
     * a post this board received; it is then gone from the board.
     */
    method DeletePost(character: int, post: Post, isAdmin: bool) returns (ok: bool)
      requires Valid()
      modifies this
      ensures ok <==> (character == post.sender || isAdmin) && post in old(posts)
      ensures posts == if ok then RemoveFirst(old(posts), post) else old(posts)
      ensures ok ==> post !in posts
      ensures subscribers == old(subscribers) && locks == old(locks)
      ensures Valid()
    {
      if !(character == post.sender || isAdmin) {
        return false;
      }
      if post in posts {
        RemovePostKeepsOrder(posts, post);
        posts := RemoveFirst(posts, post);
        return true;
      }
      return false;
    }

    /** `pin_post`: only an admin may pin or unpin, and nothing but the pinned flag changes. */
    method PinPost(post: Post, isAdmin: bool, pin: bool) returns (ok: bool)
      modifies post
      ensures ok == isAdmin
      ensures post.pinned == if ok then pin else old(post.pinned)
      ensures post.archived == old(post.archived) && post.readBy == old(post.readBy) && post.message == old(post.message)
    {
      if !isAdmin {
        return false;
      }
      post.pinned := pin;
      return true;
    }
  }

  /** An unpinned post with only pinned posts before it is the oldest unpinned one. */
  lemma FirstUnpinnedAt(ps: seq<Post>, j: nat)
    requires j < |ps| && !ps[j].pinned
    requires forall k :: 0 <= k < j ==> ps[k].pinned
    ensures FirstUnpinned(ps) == Some(j)
  {
  }

  /**
   * Scanning a newest-first copy of `view` from its oldest end: when the
   * scan stops at `i - 1`, that is the oldest unpinned post; when it runs
   * out, every post is pinned.
   */
  lemma NewestFirstScan(view: seq<Post>, visible: seq<(Post, bool)>, i: nat)
    requires |visible| == |view| && i <= |visible|
    requires forall k :: 0 <= k < |visible| ==> visible[k].0 == view[|view| - 1 - k]
    requires i > 0 ==> !visible[i - 1].0.pinned
    requires forall k :: i <= k < |visible| ==> visible[k].0.pinned
    ensures FirstUnpinned(view) == if i > 0 then Some(|view| - i) else None
  {
    forall j | 0 <= j < |view| - i
      ensures view[j].pinned
    {
      assert visible[|view| - 1 - j].0 == view[j];
    }
    if i > 0 {
      assert view[|view| - i] == visible[i - 1].0;
      FirstUnpinnedAt(view, |view| - i);
    }
  }

  /**
   * The post archived to make room: the oldest unpinned one among the older
   * posts, and the new (unpinned) post itself only when every older post is
   * pinned. A pinned post is never chosen.
   */
  lemma {:induction false} FirstUnpinnedSnoc(older: seq<Post>, p: Post)
    requires !p.pinned
    ensures FirstUnpinned(older + [p]) == if FirstUnpinned(older).Some? then FirstUnpinned(older) else Some(|older|)
    ensures FirstUnpinned(older).Some? ==> (older + [p])[FirstUnpinned(older).value] == older[FirstUnpinned(older).value]
    ensures (older + [p])[|older|] == p
  {
    var s := older + [p];
    if older == [] {
      assert s == [p];
    } else {
      assert s[0] == older[0];
      if older[0].pinned {
        assert s[1..] == older[1..] + [p];
        FirstUnpinnedSnoc(older[1..], p);
      }
    }
  }
}
