/**
 * Likes and dislikes: the Opinion table, where every vote on a post or a
 * thread is one row worth +1 or -1, and the aggregates read from it.
 */
module Votes {
  import opened Wrappers
  import opened Threads
  import Ordering

  /** The two values an opinion may hold. */
  const Like: int := 1
  const Dislike: int := -1

  /** What a vote is about: a post or a thread. */
  datatype Target = OnPost(post: PostId) | OnThread(thread: ThreadId)

  /** An Opinion row: the voter, a post and a thread foreign key (either may be NULL), and the value. */
  datatype Opinion = Opinion(user: nat, post: Option<PostId>, thread: Option<ThreadId>, likes: int)

  /** The row is one of the target's `opinions`. */
  predicate AttachedTo(o: Opinion, t: Target)
  {
    match t
    case OnPost(p) => o.post == Some(p)
    case OnThread(th) => o.thread == Some(th)
  }

  /** Every row carries one of the two allowed values and belongs to exactly one post or thread. */
  ghost predicate ValidRows(rows: seq<Opinion>)
  {
    forall i :: 0 <= i < |rows| ==>
      (rows[i].likes == Like || rows[i].likes == Dislike) && (rows[i].post.Some? != rows[i].thread.Some?)
  }

  /** The row `add_like`/`add_dislike` creates: only the target's own foreign key is set. */
  function Cast(t: Target, user: nat, likes: int): (o: Opinion)
    ensures o.user == user && o.likes == likes
    ensures forall t' :: AttachedTo(o, t') <==> t' == t
  {
    match t
    case OnPost(p) => Opinion(user, Some(p), None, likes)
    case OnThread(th) => Opinion(user, None, Some(th), likes)
  }

  /**
   * `get_likes()`: `Coalesce(Sum('likes'), 0)` over the target's opinions,
   * so 0 when it has none.
   */
  function GetLikes(rows: seq<Opinion>, t: Target): (r: int)
    ensures (forall i :: 0 <= i < |rows| ==> !AttachedTo(rows[i], t)) ==> r == 0
    ensures ValidRows(rows) ==> -|rows| <= r <= |rows|
  {
    if rows == [] then 0
    else
      var last := rows[|rows| - 1];
      GetLikes(rows[..|rows| - 1], t) + (if AttachedTo(last, t) then last.likes else 0)
  }

  /** How many of the target's opinions hold the value `v`. */
  function Count(rows: seq<Opinion>, t: Target, v: int): nat
  {
    if rows == [] then 0
    else
      var last := rows[|rows| - 1];
      Count(rows[..|rows| - 1], t, v) + (if AttachedTo(last, t) && last.likes == v then 1 else 0)
  }

  /** On a well-formed table the sum of a target's opinions is its likes less its dislikes. */
  lemma {:induction false} LikesLessDislikes(rows: seq<Opinion>, t: Target)
    requires ValidRows(rows)
    ensures GetLikes(rows, t) == Count(rows, t, Like) - Count(rows, t, Dislike)
  {
    if rows != [] {
      var init := rows[..|rows| - 1];
      assert ValidRows(init) by {
        forall i | 0 <= i < |init| ensures init[i] == rows[i] {
        }
      }
      LikesLessDislikes(init, t);
    }
  }

  /** The opinions of a table made of two parts add up. */
  lemma {:induction false} GetLikesSplits(a: seq<Opinion>, b: seq<Opinion>, t: Target)
    ensures GetLikes(a + b, t) == GetLikes(a, t) + GetLikes(b, t)
    decreases |b|
  {
    if b != [] {
      var ab := a + b;
      assert ab[..|ab| - 1] == a + b[..|b| - 1];
      assert ab[|ab| - 1] == b[|b| - 1];
      GetLikesSplits(a, b[..|b| - 1], t);
    } else {
      assert a + b == a;
    }
  }

  /** The rows `users` create by each voting `v` on `t`, in order. */
  function Ballots(t: Target, users: seq<nat>, v: int): seq<Opinion>
  {
    seq(|users|, i requires 0 <= i < |users| => Cast(t, users[i], v))
  }

  /** `n` votes of the same value `v` on `t` add up to `n * v`. */
  lemma {:induction false} UniformBallots(t: Target, users: seq<nat>, v: int)
    ensures GetLikes(Ballots(t, users, v), t) == |users| * v
  {
    if users != [] {
      var rows := Ballots(t, users, v);
      var init := users[..|users| - 1];
      var initRows := Ballots(t, init, v);
      assert rows[..|rows| - 1] == initRows by {
        forall i | 0 <= i < |initRows| ensures rows[i] == initRows[i] {
        }
      }
      var last := rows[|rows| - 1];
      assert last == Cast(t, users[|users| - 1], v);
      assert AttachedTo(last, t);
      UniformBallots(t, init, v);
      assert GetLikes(rows, t) == GetLikes(initRows, t) + v;
      MultiplySucc(|init|, v);
    }
  }

  lemma MultiplySucc(n: nat, v: int)
    ensures n * v + v == (n + 1) * v
  {
  }

  /**
   * After `k` likes and then `m` dislikes on a target with no earlier
   * opinions, `get_likes()` is `k - m`: 0, 1 and -1 in the simplest cases.
   */
  lemma LikesAfterVotes(t: Target, likers: seq<nat>, dislikers: seq<nat>)
    ensures GetLikes(Ballots(t, likers, Like) + Ballots(t, dislikers, Dislike), t) == |likers| - |dislikers|
  {
    GetLikesSplits(Ballots(t, likers, Like), Ballots(t, dislikers, Dislike), t);
    UniformBallots(t, likers, Like);
    UniformBallots(t, dislikers, Dislike);
  }

  /** A vote counts for its own target only: a post's votes never reach a thread's sum and back. */
  lemma VoteCountsForItsTargetOnly(rows: seq<Opinion>, t: Target, user: nat, v: int, other: Target)
    ensures GetLikes(rows + [Cast(t, user, v)], t) == GetLikes(rows, t) + v
    ensures other != t ==> GetLikes(rows + [Cast(t, user, v)], other) == GetLikes(rows, other)
  {
  }

  /** The Opinion table, which `add_like` and `add_dislike` insert into. */
  class OpinionTable {
    var rows: seq<Opinion>

    /** Every row is a like or a dislike on exactly one post or thread. */
    ghost predicate Valid()
      reads this
    {
      ValidRows(rows)
    }

    /** An empty table. */
    constructor ()
      ensures rows == [] && Valid()
    {
      rows := [];
    }

    /**
     * `Post.add_like(user)`: one new row worth +1 for the post. Its
     * sum goes up by one and every other post's and thread's sum stays as it was.
     */
    method PostAddLike(post: PostId, user: nat)
      modifies this
      ensures rows == old(rows) + [Cast(OnPost(post), user, Like)]
      ensures GetLikes(rows, OnPost(post)) == old(GetLikes(rows, OnPost(post))) + 1
      ensures forall other :: other != OnPost(post) ==> GetLikes(rows, other) == old(GetLikes(rows, other))
      ensures old(Valid()) ==> Valid()
    {
      Insert(OnPost(post), user, Like);
    }

    /**
     * `Post.add_dislike(user)`: one new row worth -1 for the post. Its
     * sum goes down by one and every other post's and thread's sum stays as it was.
     */
    method PostAddDislike(post: PostId, user: nat)
      modifies this
      ensures rows == old(rows) + [Cast(OnPost(post), user, Dislike)]
      ensures GetLikes(rows, OnPost(post)) == old(GetLikes(rows, OnPost(post))) - 1
      ensures forall other :: other != OnPost(post) ==> GetLikes(rows, other) == old(GetLikes(rows, other))
      ensures old(Valid()) ==> Valid()
    {
      Insert(OnPost(post), user, Dislike);
    }

    /**
     * `Thread.add_like(user)`: one new row worth +1 for the thread. Its
     * sum goes up by one and every other post's and thread's sum stays as it was.
     */
    method ThreadAddLike(thread: ThreadId, user: nat)
      modifies this
      ensures rows == old(rows) + [Cast(OnThread(thread), user, Like)]
      ensures GetLikes(rows, OnThread(thread)) == old(GetLikes(rows, OnThread(thread))) + 1
      ensures forall other :: other != OnThread(thread) ==> GetLikes(rows, other) == old(GetLikes(rows, other))
      ensures old(Valid()) ==> Valid()
    {
      Insert(OnThread(thread), user, Like);
    }

    /**
     * `Thread.add_dislike(user)`: one new row worth -1 for the thread. Its
     * sum goes down by one and every other post's and thread's sum stays as it was.
     */
    method ThreadAddDislike(thread: ThreadId, user: nat)
      modifies this
      ensures rows == old(rows) + [Cast(OnThread(thread), user, Dislike)]
      ensures GetLikes(rows, OnThread(thread)) == old(GetLikes(rows, OnThread(thread))) - 1
      ensures forall other :: other != OnThread(thread) ==> GetLikes(rows, other) == old(GetLikes(rows, other))
      ensures old(Valid()) ==> Valid()
    {
      Insert(OnThread(thread), user, Dislike);
    }

    /** `Opinion.objects.create(...)` for one of the two allowed values. */
    method Insert(t: Target, user: nat, v: int)
      requires v == Like || v == Dislike
      modifies this
      ensures rows == old(rows) + [Cast(t, user, v)]
      ensures GetLikes(rows, t) == old(GetLikes(rows, t)) + v
      ensures forall other :: other != t ==> GetLikes(rows, other) == old(GetLikes(rows, other))
      ensures old(Valid()) ==> Valid()
    {
      var before := rows;
      rows := rows + [Cast(t, user, v)];
      forall other
        ensures GetLikes(rows, other) == GetLikes(before, other) + (if other == t then v else 0)
      {
        VoteCountsForItsTargetOnly(before, t, user, v, other);
      }
    }
  }

  /** `all_likes` with a missing value read as 0 (`Coalesce(..., 0)`, `if not all_likes`). */
  function LikesOrZero(allLikes: Option<int>): int
  {
    match allLikes
    case None => 0
    case Some(v) => v
  }

  /**
   * `score`: the post's `all_likes` (0 when missing) plus the number of its
   * threads, nested replies included; at least the likes plus the main threads.
   */
  function Score(allLikes: Option<int>, threads: seq<Thread>, post: PostId): (s: int)
    ensures s - LikesOrZero(allLikes) == |OfPost(threads, post)|
    ensures s >= LikesOrZero(allLikes) + |Roots(threads, post)|
  {
    RootsAmongThreadsOfPost(threads, post);
    LikesOrZero(allLikes) + |OfPost(threads, post)|
  }

  /** Every thread written under a post raises its score by one, and leaves other posts' scores alone. */
  lemma ScoreCountsEveryThread(allLikes: Option<int>, threads: seq<Thread>, post: PostId, th: Thread)
    ensures Score(allLikes, threads + [th], post) == Score(allLikes, threads, post) + (if th.post == post then 1 else 0)
  {
    OfPostGrows(threads, th, post);
  }

  /** A post as `data_with_likes` annotates it. */
  datatype PostRow = PostRow(id: PostId, allLikes: Option<int>)

  function RowLikes(p: PostRow): int { LikesOrZero(p.allLikes) }

  /**
   * `data_with_likes()`: every post once, the most `all_likes` first, a post
   * without votes counting as 0.
   */
  function DataWithLikes(posts: seq<PostRow>): (r: seq<PostRow>)
    ensures multiset(r) == multiset(posts)
    ensures forall i, j :: 0 <= i < j < |r| ==> LikesOrZero(r[i].allLikes) >= LikesOrZero(r[j].allLikes)
  {
    var r := Ordering.SortDesc(posts, RowLikes);
    assert forall i, j :: 0 <= i < j < |r| ==> RowLikes(r[i]) >= RowLikes(r[j]);
    r
  }
}
