/**
 * The reply threads of the forum: a forest of parent pointers, fetched one
 * level at a time (`get_main`, `get_secondary`) or as a whole nested tree
 * (`show_children`, `get_all_children`).
 *
 * The threads table is a sequence; a thread's primary key is its position.
 */
module Threads {
  import opened Wrappers

  type ThreadId = nat
  type PostId = nat

  /**
   * A thread row: the post it belongs to, its author (NULL once the author's
   * account is deleted), and the thread it replies to.
   */
  datatype Thread = Thread(post: PostId, author: Option<nat>, parent: Option<ThreadId>)

  /** What `summarise()` reports about a thread, without its text and formatted date. */
  datatype Summary = Summary(id: ThreadId, row: Thread, author: nat, childrenCount: nat, threadParent: Option<ThreadId>)

  /** `summarise()` reads the author's username, which fails on a NULL author. */
  datatype ThreadError = AuthorDeleted

  /** A nested reply tree: a thread and the trees of its replies, as `{thread: [...]}`. */
  datatype Branch = Branch(thread: ThreadId, replies: seq<Branch>)

  /** `has_parent()`: the thread replies to another one. */
  function HasParent(t: Thread): (b: bool)
    ensures b <==> t.parent != None
  {
    match t.parent
    case Some(_) => true
    case None => false
  }

  /** Every parent pointer names a row of the table (a foreign key). */
  ghost predicate ParentsExist(threads: seq<Thread>)
  {
    forall i :: 0 <= i < |threads| && threads[i].parent.Some? ==> threads[i].parent.value < |threads|
  }

  /** The thread reached from `x` by following `k` parent pointers, if the chain is that long. */
  ghost function Ancestor(threads: seq<Thread>, x: ThreadId, k: nat): (a: Option<ThreadId>)
    requires ParentsExist(threads) && x < |threads|
    ensures a.Some? ==> a.value < |threads|
  {
    if k == 0 then Some(x)
    else match Ancestor(threads, x, k - 1)
      case None => None
      case Some(y) => threads[y].parent
  }

  /** Following `i` and then `j` parent pointers is following `i + j`. */
  lemma {:induction false} AncestorShift(threads: seq<Thread>, x: ThreadId, i: nat, j: nat)
    requires ParentsExist(threads) && x < |threads|
    ensures Ancestor(threads, x, i + j) ==
      match Ancestor(threads, x, i)
      case None => None
      case Some(y) => Ancestor(threads, y, j)
    decreases j
  {
    if j > 0 {
      AncestorShift(threads, x, i, j - 1);
    }
  }

  /** A chain that ends at a root stays ended. */
  lemma {:induction false} NoneStaysNone(threads: seq<Thread>, x: ThreadId, k: nat, m: nat)
    requires ParentsExist(threads) && x < |threads|
    ensures Ancestor(threads, x, k) == None && k <= m ==> Ancestor(threads, x, m) == None
    decreases m
  {
    if k < m {
      NoneStaysNone(threads, x, k, m - 1);
    }
  }

  /** `x` lies strictly below `t`: following parents from `x` reaches `t`. */
  ghost predicate Below(threads: seq<Thread>, x: ThreadId, t: ThreadId)
    requires ParentsExist(threads) && x < |threads|
  {
    exists k: nat :: k >= 1 && Ancestor(threads, x, k) == Some(t)
  }

  /** `t` is its own ancestor: `show_children(t)` would recurse without end. */
  ghost predicate OnCycle(threads: seq<Thread>, t: ThreadId)
    requires ParentsExist(threads) && t < |threads|
  {
    Below(threads, t, t)
  }

  /** A thread without a parent is on no cycle. */
  lemma RootOffCycle(threads: seq<Thread>, r: ThreadId)
    requires ParentsExist(threads) && r < |threads| && threads[r].parent == None
    ensures !OnCycle(threads, r)
  {
    assert Ancestor(threads, r, 1) == None;
    forall k: nat | k >= 1 ensures Ancestor(threads, r, k) != Some(r) {
      NoneStaysNone(threads, r, 1, k);
    }
  }

  /**
   * `rank` witnesses that the replies below every positively ranked thread
   * form a finite tree: a reply to such a thread is ranked positive and
   * below it. Threads of rank 0 are unconstrained.
   */
  ghost predicate Ranked(threads: seq<Thread>, rank: seq<nat>)
  {
    && |rank| == |threads|
    && ParentsExist(threads)
    && forall i :: 0 <= i < |threads| && threads[i].parent.Some? && rank[threads[i].parent.value] > 0 ==>
      0 < rank[i] < rank[threads[i].parent.value]
  }

  /** When replies are created after the thread they answer, every thread is ranked. */
  lemma IncreasingIdsAreRanked(threads: seq<Thread>)
    requires forall i :: 0 <= i < |threads| && threads[i].parent.Some? ==> threads[i].parent.value < i
    ensures Ranked(threads, seq(|threads|, i requires 0 <= i < |threads| => |threads| - i))
  {
  }

  /** Ancestors of a positively ranked thread's descendants outrank them, one per step. */
  lemma {:induction false} AncestorsOutrank(threads: seq<Thread>, rank: seq<nat>, x: ThreadId, k: nat, y: ThreadId)
    requires Ranked(threads, rank) && x < |threads| && y < |threads|
    ensures Ancestor(threads, x, k) == Some(y) && rank[y] > 0 ==> rank[x] > 0 && rank[x] + k <= rank[y]
    decreases k
  {
    if k > 0 {
      AncestorShift(threads, x, 1, k - 1);
      if threads[x].parent.Some? {
        AncestorsOutrank(threads, rank, threads[x].parent.value, k - 1, y);
      }
    }
  }

  /** A positively ranked thread is on no cycle. */
  lemma RankedOffCycle(threads: seq<Thread>, rank: seq<nat>, t: ThreadId)
    requires Ranked(threads, rank) && t < |threads| && rank[t] > 0
    ensures !OnCycle(threads, t)
  {
    forall k: nat | k >= 1 ensures Ancestor(threads, t, k) != Some(t) {
      AncestorsOutrank(threads, rank, t, k, t);
    }
  }

  /** A chain from `x` to a thread on no cycle visits no thread twice, so it is shorter than the table. */
  lemma DistanceBounded(threads: seq<Thread>, x: ThreadId, t: ThreadId, k: nat)
    requires ParentsExist(threads) && x < |threads| && t < |threads| && !OnCycle(threads, t)
    requires Ancestor(threads, x, k) == Some(t)
    ensures k < |threads|
  {
    forall i | 0 <= i <= k ensures Ancestor(threads, x, i).Some? {
      NoneStaysNone(threads, x, i, k);
    }
    var s := seq(k + 1, i requires 0 <= i <= k => Ancestor(threads, x, i).value);
    forall i, j | 0 <= i < j < |s| ensures s[i] != s[j] {
      AncestorShift(threads, x, j, k - i);
      AncestorShift(threads, x, i, k - i);
      AncestorShift(threads, x, k, j - i);
      assert j + (k - i) == k + (j - i);
    }
    DistinctBelowBound(s, |threads|);
  }

  /** A chain from `x` reaches a thread on no cycle after one number of steps only. */
  lemma DistanceUnique(threads: seq<Thread>, x: ThreadId, t: ThreadId, k: nat)
    requires ParentsExist(threads) && x < |threads| && t < |threads| && !OnCycle(threads, t)
    requires Ancestor(threads, x, k) == Some(t)
    ensures forall m: nat :: Ancestor(threads, x, m) == Some(t) ==> m == k
  {
    forall m: nat | Ancestor(threads, x, m) == Some(t) ensures m == k {
      var lo := if m < k then m else k;
      var d := if m < k then k - m else m - k;
      AncestorShift(threads, x, lo, d);
    }
  }

  /** `|threads|` minus the distance from `x` up to `t`, or 0 when `t` is not above `x`. */
  ghost function DistanceRank(threads: seq<Thread>, t: ThreadId, x: ThreadId): (r: nat)
    requires ParentsExist(threads) && x < |threads| && t < |threads| && !OnCycle(threads, t)
    ensures r > 0 <==> exists k: nat :: Ancestor(threads, x, k) == Some(t)
    ensures forall k: nat :: Ancestor(threads, x, k) == Some(t) ==> r == |threads| - k
  {
    if exists k: nat :: Ancestor(threads, x, k) == Some(t) then
      var k: nat :| Ancestor(threads, x, k) == Some(t);
      DistanceBounded(threads, x, t, k);
      DistanceUnique(threads, x, t, k);
      |threads| - k
    else 0
  }

  lemma DescentRankRanked(threads: seq<Thread>, t: ThreadId, rank: seq<nat>)
    requires ParentsExist(threads) && t < |threads| && !OnCycle(threads, t)
    requires |rank| == |threads|
    requires forall x :: 0 <= x < |threads| ==> rank[x] == DistanceRank(threads, t, x)
    ensures Ranked(threads, rank) && rank[t] > 0
  {
    assert Ancestor(threads, t, 0) == Some(t);
    forall c | 0 <= c < |threads| && threads[c].parent.Some? && rank[threads[c].parent.value] > 0
      ensures 0 < rank[c] < rank[threads[c].parent.value]
    {
      var p := threads[c].parent.value;
      var k: nat :| Ancestor(threads, p, k) == Some(t);
      AncestorShift(threads, c, 1, k);
      assert Ancestor(threads, c, 1 + k) == Some(t);
    }
  }

  /**
   * Every thread on no parent cycle has a ranking, so `show_children` is
   * defined on it: its descendants ranked by their distance below it.
   */
  ghost function DescentRank(threads: seq<Thread>, t: ThreadId): (rank: seq<nat>)
    requires ParentsExist(threads) && t < |threads| && !OnCycle(threads, t)
    ensures Ranked(threads, rank) && rank[t] > 0
  {
    var rank := seq(|threads|, x requires 0 <= x < |threads| => DistanceRank(threads, t, x));
    DescentRankRanked(threads, t, rank);
    rank
  }

  /** The positions below `n` whose rows `keep` accepts, in table order. */
  function Select(threads: seq<Thread>, keep: Thread -> bool, n: nat): (r: seq<ThreadId>)
    requires n <= |threads|
    ensures forall i :: 0 <= i < |r| ==> r[i] < n && keep(threads[r[i]])
    ensures forall c :: c in r ==> c < n && keep(threads[c])
    ensures forall c: ThreadId :: c < n && keep(threads[c]) ==> c in r
    ensures forall i, j :: 0 <= i < j < |r| ==> r[i] < r[j]
  {
    if n == 0 then []
    else
      var prev := Select(threads, keep, n - 1);
      assert forall c :: c in prev ==> c < n - 1;
      prev + (if keep(threads[n - 1]) then [n - 1] else [])
  }

  /** `children.all()` / `filter(parent_id=t)`: the direct replies to `t`, in table order. */
  function Children(threads: seq<Thread>, t: ThreadId): (r: seq<ThreadId>)
    ensures forall i :: 0 <= i < |r| ==> r[i] < |threads| && threads[r[i]].parent == Some(t)
    ensures forall c :: c in r ==> c < |threads| && threads[c].parent == Some(t)
    ensures forall c: ThreadId :: c < |threads| && threads[c].parent == Some(t) ==> c in r
    ensures forall i, j :: 0 <= i < j < |r| ==> r[i] < r[j]
  {
    Select(threads, (th: Thread) => th.parent == Some(t), |threads|)
  }

  /** `filter(post_id=post, parent__isnull=True)`: the main threads of a post. */
  function Roots(threads: seq<Thread>, post: PostId): (r: seq<ThreadId>)
    ensures forall i :: 0 <= i < |r| ==> r[i] < |threads| && threads[r[i]].post == post && threads[r[i]].parent == None
    ensures forall c :: c in r ==> c < |threads| && threads[c].post == post && threads[c].parent == None
    ensures forall c: ThreadId :: c < |threads| && threads[c].post == post && threads[c].parent == None ==> c in r
    ensures forall i, j :: 0 <= i < j < |r| ==> r[i] < r[j]
  {
    Select(threads, (th: Thread) => th.post == post && th.parent == None, |threads|)
  }

  /** `filter(parent__isnull=True)`: every thread that replies to no thread. */
  function AllRoots(threads: seq<Thread>): (r: seq<ThreadId>)
    ensures forall i :: 0 <= i < |r| ==> r[i] < |threads| && threads[r[i]].parent == None
    ensures forall c :: c in r ==> c < |threads| && threads[c].parent == None
    ensures forall c: ThreadId :: c < |threads| && threads[c].parent == None ==> c in r
    ensures forall i, j :: 0 <= i < j < |r| ==> r[i] < r[j]
  {
    Select(threads, (th: Thread) => th.parent == None, |threads|)
  }

  /** `post.threads`: every thread of a post, nested replies included. */
  function OfPost(threads: seq<Thread>, post: PostId): (r: seq<ThreadId>)
    ensures forall i :: 0 <= i < |r| ==> r[i] < |threads| && threads[r[i]].post == post
    ensures forall c :: c in r ==> c < |threads| && threads[c].post == post
    ensures forall c: ThreadId :: c < |threads| && threads[c].post == post ==> c in r
    ensures forall i, j :: 0 <= i < j < |r| ==> r[i] < r[j]
  {
    Select(threads, InPost(post), |threads|)
  }

  /** The test `post_id=post`. */
  function InPost(post: PostId): Thread -> bool
  {
    (th: Thread) => th.post == post
  }

  /** Rows added after position `n` do not change the selection below `n`. */
  lemma {:induction false} SelectIgnoresLaterRows(threads: seq<Thread>, extra: seq<Thread>, keep: Thread -> bool, n: nat)
    requires n <= |threads|
    ensures Select(threads + extra, keep, n) == Select(threads, keep, n)
  {
    if n > 0 {
      SelectIgnoresLaterRows(threads, extra, keep, n - 1);
      var last := (threads + extra)[n - 1];
      assert last == threads[n - 1];
      calc {
        Select(threads + extra, keep, n);
        Select(threads + extra, keep, n - 1) + (if keep(last) then [n - 1] else []);
        Select(threads, keep, n - 1) + (if keep(threads[n - 1]) then [n - 1] else []);
        Select(threads, keep, n);
      }
    }
  }

  /** A new thread adds one to the thread count of its own post and to no other. */
  lemma OfPostGrows(threads: seq<Thread>, th: Thread, post: PostId)
    ensures |OfPost(threads + [th], post)| == |OfPost(threads, post)| + (if th.post == post then 1 else 0)
  {
    SelectIgnoresLaterRows(threads, [th], InPost(post), |threads|);
  }

  /** In an increasing sequence a smaller element sits at an earlier position. */
  lemma IncreasingIndexOrder(t: seq<nat>, j: int, k: int)
    requires forall i, i' :: 0 <= i < i' < |t| ==> t[i] < t[i']
    requires 0 <= j < |t| && 0 <= k < |t| && t[j] < t[k]
    ensures j < k
  {
  }

  /** An increasing sequence whose elements all occur in another increasing one is no longer. */
  lemma {:induction false} IncreasingSubsetShorter(s: seq<nat>, t: seq<nat>)
    requires forall i, j :: 0 <= i < j < |s| ==> s[i] < s[j]
    requires forall i, j :: 0 <= i < j < |t| ==> t[i] < t[j]
    requires forall x :: x in s ==> x in t
    ensures |s| <= |t|
    decreases |t|
  {
    if s != [] {
      var last := s[|s| - 1];
      var init := s[..|s| - 1];
      assert last in s;
      var k :| 0 <= k < |t| && t[k] == last;
      var tInit := t[..k];
      forall x | x in init ensures x in tInit {
        var i :| 0 <= i < |init| && init[i] == x;
        assert s[i] == x && x < last;
        assert x in s;
        var j :| 0 <= j < |t| && t[j] == x;
        IncreasingIndexOrder(t, j, k);
      }
      IncreasingSubsetShorter(init, tInit);
    }
  }

  /** The main threads of a post are among all its threads. */
  lemma RootsAmongThreadsOfPost(threads: seq<Thread>, post: PostId)
    ensures |Roots(threads, post)| <= |OfPost(threads, post)|
  {
    IncreasingSubsetShorter(Roots(threads, post), OfPost(threads, post));
  }


  /**
   * `summarise()`: the row, its author, its number of replies and the id of
   * its parent; reading the username of a deleted (NULL) author fails.
   */
  function Summarise(threads: seq<Thread>, t: ThreadId): (r: Result<Summary, ThreadError>)
    requires t < |threads|
    ensures r.Failure? <==> threads[t].author.None?
    ensures r.Failure? ==> r.error == AuthorDeleted
    ensures r.Success? ==> r.value.id == t && r.value.row == threads[t] && r.value.threadParent == threads[t].parent
    ensures r.Success? ==> Some(r.value.author) == threads[t].author
    ensures r.Success? ==> r.value.childrenCount == |Children(threads, t)|
  {
    match threads[t].author
    case None => Failure(AuthorDeleted)
    case Some(a) => Success(Summary(t, threads[t], a, |Children(threads, t)|, threads[t].parent))
  }

  /** The decimal digit for `d`. */
  function Digit(d: nat): char
    requires d < 10
  {
    ('0' as int + d) as char
  }

  /** `str(n)`: the decimal numeral for `n`. */
  function DecimalString(n: nat): (s: string)
    ensures 1 <= |s|
    ensures n >= 10 ==> |s| >= 2
  {
    if n < 10 then [Digit(n)] else DecimalString(n / 10) + [Digit(n % 10)]
  }

  /** Different numbers have different numerals, so `get_main`'s keys never collide. */
  lemma {:induction false} DecimalStringInjective(a: nat, b: nat)
    requires DecimalString(a) == DecimalString(b)
    ensures a == b
  {
    var sa, sb := DecimalString(a), DecimalString(b);
    if a < 10 && b < 10 {
      assert sa[0] == sb[0];
    } else if a >= 10 && b >= 10 {
      assert sa[|sa| - 1] == sb[|sb| - 1];
      assert Digit(a % 10) == Digit(b % 10);
      assert sa[..|sa| - 1] == DecimalString(a / 10);
      assert sb[..|sb| - 1] == DecimalString(b / 10);
      DecimalStringInjective(a / 10, b / 10);
    }
  }

  /** The keys "0" .. str(num): one more than those below `num`, and the new one is fresh. */
  lemma NumeralsStep(num: nat)
    ensures DecimalString(num) !in (set i | 0 <= i < num :: DecimalString(i))
    ensures (set i | 0 <= i < num + 1 :: DecimalString(i))
      == (set i | 0 <= i < num :: DecimalString(i)) + {DecimalString(num)}
  {
    forall i | 0 <= i < num ensures DecimalString(i) != DecimalString(num) {
      if DecimalString(i) == DecimalString(num) {
        DecimalStringInjective(i, num);
      }
    }
  }

  /**
   * `get_main(post_id)`: the main threads of the post, summarised, under the
   * keys "0", "1", ... in table order; fails when one of them has lost its author.
   */
  method GetMain(threads: seq<Thread>, post: PostId) returns (r: Result<map<string, Summary>, ThreadError>)
    ensures r.Failure? <==>
      exists i :: 0 <= i < |Roots(threads, post)| && threads[Roots(threads, post)[i]].author.None?
    ensures r.Failure? ==> r.error == AuthorDeleted
    ensures r.Success? ==> r.value.Keys == set i | 0 <= i < |Roots(threads, post)| :: DecimalString(i)
    ensures r.Success? ==> forall i :: 0 <= i < |Roots(threads, post)| ==>
      Summarise(threads, Roots(threads, post)[i]) == Success(r.value[DecimalString(i)])
  {
    var mainThreads := Roots(threads, post);
    var threadsDict := map[];
    for num := 0 to |mainThreads|
      invariant threadsDict.Keys == set i | 0 <= i < num :: DecimalString(i)
      invariant forall i :: 0 <= i < num ==> Summarise(threads, mainThreads[i]) == Success(threadsDict[DecimalString(i)])
      invariant forall i :: 0 <= i < num ==> threads[mainThreads[i]].author.Some?
    {
      var summary := Summarise(threads, mainThreads[num]);
      if summary.Failure? {
        assert threads[mainThreads[num]].author.None?;
        return Failure(summary.error);
      }
      ghost var before := threadsDict;
      threadsDict := threadsDict[DecimalString(num) := summary.value];
      NumeralsStep(num);
      forall i | 0 <= i < num + 1
        ensures Summarise(threads, mainThreads[i]) == Success(threadsDict[DecimalString(i)])
      {
        if i < num {
          assert threadsDict[DecimalString(i)] == before[DecimalString(i)];
        }
      }
    }
    return Success(threadsDict);
  }

  /**
   * `get_secondary(thread_id)`: the direct replies to `t`, summarised, under
   * the integer keys 0, 1, ... in table order; each names `t` as its parent.
   * Fails when one of them has lost its author.
   */
  method GetSecondary(threads: seq<Thread>, t: ThreadId) returns (r: Result<map<int, Summary>, ThreadError>)
    ensures r.Failure? <==>
      exists i :: 0 <= i < |Children(threads, t)| && threads[Children(threads, t)[i]].author.None?
    ensures r.Failure? ==> r.error == AuthorDeleted
    ensures r.Success? ==> forall k :: k in r.value <==> 0 <= k < |Children(threads, t)|
    ensures r.Success? ==> forall i :: 0 <= i < |Children(threads, t)| ==>
      Summarise(threads, Children(threads, t)[i]) == Success(r.value[i])
    ensures r.Success? ==> forall k :: k in r.value ==> r.value[k].threadParent == Some(t)
  {
    var replies := Children(threads, t);
    var threadsDict := map[];
    for num := 0 to |replies|
      invariant forall k :: k in threadsDict <==> 0 <= k < num
      invariant forall i :: 0 <= i < num ==> Summarise(threads, replies[i]) == Success(threadsDict[i])
      invariant forall i :: 0 <= i < num ==> threads[replies[i]].author.Some?
    {
      var summary := Summarise(threads, replies[num]);
      if summary.Failure? {
        assert threads[replies[num]].author.None?;
        return Failure(summary.error);
      }
      threadsDict := threadsDict[num := summary.value];
    }
    return Success(threadsDict);
  }

  /**
   * `show_children()`: one entry per direct reply, in table order, each holding
   * the reply's own nested replies; no replies gives []. The recursion ends
   * because every reply is outranked by the thread it answers.
   */
  function ShowChildren(threads: seq<Thread>, ghost rank: seq<nat>, t: ThreadId): (r: seq<Branch>)
    requires Ranked(threads, rank) && t < |threads| && rank[t] > 0
    ensures |r| == |Children(threads, t)|
    ensures forall i :: 0 <= i < |r| ==>
      r[i] == Branch(Children(threads, t)[i], ShowChildren(threads, rank, Children(threads, t)[i]))
    decreases rank[t]
  {
    var children := Children(threads, t);
    if children == [] then []
    else
      seq(|children|, i requires 0 <= i < |children| =>
        Branch(children[i], ShowChildren(threads, rank, children[i])))
  }

  /** The ranking only proves termination: any two give the same tree. */
  lemma {:induction false} ShowChildrenIgnoresRank(threads: seq<Thread>, rank1: seq<nat>, rank2: seq<nat>, t: ThreadId)
    requires Ranked(threads, rank1) && Ranked(threads, rank2) && t < |threads| && rank1[t] > 0 && rank2[t] > 0
    ensures ShowChildren(threads, rank1, t) == ShowChildren(threads, rank2, t)
    decreases rank1[t]
  {
    var children := Children(threads, t);
    forall i | 0 <= i < |children|
      ensures ShowChildren(threads, rank1, children[i]) == ShowChildren(threads, rank2, children[i])
    {
      ShowChildrenIgnoresRank(threads, rank1, rank2, children[i]);
    }
  }

  /** The threads anywhere in a nested reply forest. */
  function NodesIn(bs: seq<Branch>): set<ThreadId>
    decreases bs
  {
    if bs == [] then {} else {bs[0].thread} + NodesIn(bs[0].replies) + NodesIn(bs[1..])
  }

  lemma {:induction false} NodesInMember(bs: seq<Branch>, x: ThreadId)
    ensures x in NodesIn(bs) <==> exists i :: 0 <= i < |bs| && (x == bs[i].thread || x in NodesIn(bs[i].replies))
    decreases bs
  {
    if bs != [] {
      NodesInMember(bs[1..], x);
      if x in NodesIn(bs[1..]) {
        var i :| 0 <= i < |bs[1..]| && (x == bs[1..][i].thread || x in NodesIn(bs[1..][i].replies));
        assert bs[1..][i] == bs[i + 1];
      }
      if exists i :: 0 <= i < |bs| && (x == bs[i].thread || x in NodesIn(bs[i].replies)) {
        var i :| 0 <= i < |bs| && (x == bs[i].thread || x in NodesIn(bs[i].replies));
        if i > 0 {
          assert bs[1..][i - 1] == bs[i];
        }
      }
    }
  }

  /** The threads in `show_children(t)`: each reply, and the threads of its own tree. */
  lemma ShowChildrenNodes(threads: seq<Thread>, rank: seq<nat>, t: ThreadId, x: ThreadId)
    requires Ranked(threads, rank) && t < |threads| && rank[t] > 0
    ensures var children := Children(threads, t);
      x in NodesIn(ShowChildren(threads, rank, t)) <==>
      exists i :: 0 <= i < |children| &&
        (x == children[i] || x in NodesIn(ShowChildren(threads, rank, children[i])))
  {
    NodesInMember(ShowChildren(threads, rank, t), x);
  }

  /** Every thread in `show_children(t)` lies below `t`. */
  lemma {:induction false} ShowChildrenOnlyBelow(threads: seq<Thread>, rank: seq<nat>, t: ThreadId, x: ThreadId)
    requires Ranked(threads, rank) && t < |threads| && rank[t] > 0 && x < |threads|
    requires x in NodesIn(ShowChildren(threads, rank, t))
    ensures Below(threads, x, t)
    decreases rank[t]
  {
    var children := Children(threads, t);
    ShowChildrenNodes(threads, rank, t, x);
    var i :| 0 <= i < |children| &&
      (x == children[i] || x in NodesIn(ShowChildren(threads, rank, children[i])));
    var c := children[i];
    assert Ancestor(threads, c, 1) == Some(t);
    if x != c {
      ShowChildrenOnlyBelow(threads, rank, c, x);
      var k: nat :| k >= 1 && Ancestor(threads, x, k) == Some(c);
      AncestorShift(threads, x, k, 1);
      assert Ancestor(threads, x, k + 1) == Some(t);
    }
  }

  /** Every thread below `t` appears in `show_children(t)`. */
  lemma {:induction false} ShowChildrenAllBelow(threads: seq<Thread>, rank: seq<nat>, t: ThreadId, x: ThreadId)
    requires Ranked(threads, rank) && t < |threads| && rank[t] > 0 && x < |threads|
    requires Below(threads, x, t)
    ensures x in NodesIn(ShowChildren(threads, rank, t))
    decreases rank[t]
  {
    var children := Children(threads, t);
    var k: nat :| k >= 1 && Ancestor(threads, x, k) == Some(t);
    NoneStaysNone(threads, x, k - 1, k);
    var c := Ancestor(threads, x, k - 1).value;
    assert c in children;
    var i :| 0 <= i < |children| && children[i] == c;
    if k > 1 {
      assert Below(threads, x, c);
      ShowChildrenAllBelow(threads, rank, c, x);
    }
    ShowChildrenNodes(threads, rank, t, x);
    assert x == children[i] || x in NodesIn(ShowChildren(threads, rank, children[i]));
  }

  /** `show_children(t)` holds exactly the threads below `t`, each reply tree complete. */
  lemma ShowChildrenIsSubtree(threads: seq<Thread>, rank: seq<nat>, t: ThreadId, x: ThreadId)
    requires Ranked(threads, rank) && t < |threads| && rank[t] > 0 && x < |threads|
    ensures x in NodesIn(ShowChildren(threads, rank, t)) <==> Below(threads, x, t)
  {
    if x in NodesIn(ShowChildren(threads, rank, t)) {
      ShowChildrenOnlyBelow(threads, rank, t, x);
    }
    if Below(threads, x, t) {
      ShowChildrenAllBelow(threads, rank, t, x);
    }
  }

  /** A thread is not among its own replies, however deep. */
  lemma ShowChildrenExcludesRoot(threads: seq<Thread>, rank: seq<nat>, t: ThreadId)
    requires Ranked(threads, rank) && t < |threads| && rank[t] > 0
    ensures t !in NodesIn(ShowChildren(threads, rank, t))
  {
    ShowChildrenIsSubtree(threads, rank, t, t);
    RankedOffCycle(threads, rank, t);
  }

  /** A thread without a parent has a ranking, whatever cycles lie elsewhere in the table. */
  lemma RootRanked(threads: seq<Thread>, r: ThreadId) returns (rank: seq<nat>)
    requires ParentsExist(threads) && r < |threads| && threads[r].parent == None
    ensures Ranked(threads, rank) && rank[r] > 0
  {
    RootOffCycle(threads, r);
    rank := DescentRank(threads, r);
  }

  /**
   * `get_all_children()`: one entry per thread without a parent, in table
   * order, holding that thread's `show_children()` (the root itself is not
   * kept). Every root has a ranking (`RootRanked`), and all rankings give
   * the same trees.
   */
  method GetAllChildren(threads: seq<Thread>) returns (node: seq<seq<Branch>>)
    requires ParentsExist(threads)
    ensures |node| == |AllRoots(threads)|
    ensures forall i, rank :: 0 <= i < |node| && Ranked(threads, rank) && rank[AllRoots(threads)[i]] > 0 ==>
      node[i] == ShowChildren(threads, rank, AllRoots(threads)[i])
  {
    var roots := AllRoots(threads);
    node := [];
    for k := 0 to |roots|
      invariant |node| == k
      invariant forall i, rank :: 0 <= i < k && Ranked(threads, rank) && rank[roots[i]] > 0 ==>
        node[i] == ShowChildren(threads, rank, roots[i])
    {
      ghost var rootRank := RootRanked(threads, roots[k]);
      var data := ShowChildren(threads, rootRank, roots[k]);
      forall rank | Ranked(threads, rank) && rank[roots[k]] > 0
        ensures data == ShowChildren(threads, rank, roots[k])
      {
        ShowChildrenIgnoresRank(threads, rootRank, rank, roots[k]);
      }
      node := node + [data];
    }
  }
}
