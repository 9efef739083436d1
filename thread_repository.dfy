/**
 * The tables behind threads, comments and replies, and the repository
 * methods of internal/repository/thread.go that change them in place.
 *
 * The like_count and dislike_count columns of `thread`, `thread_comment`
 * and `thread_comment_reply` are gathered in `counters`, keyed by target;
 * `thread_activity` and `thread_comment_activity` are the `ledger`, keyed by
 * (target, actor). Every SQL `UPDATE ... WHERE id = ?` is a no-op when no
 * row has that id, and so is each method here.
 */
module ThreadRepo {
  import opened Wrappers
  import opened Reactions

  datatype ThreadRow = ThreadRow(userId: string, title: string, commentCount: int)
  datatype CommentRow = CommentRow(threadId: string, userId: string, content: string, replyCount: int)
  datatype ReplyRow = ReplyRow(threadId: string, commentId: string, userId: string, content: string)
  datatype Subscription = Subscription(id: string, isSubscribed: bool)

  /** Every (target, actor) pair with rows has exactly one. */
  predicate OneRowEach(ledger: Ledger)
  {
    forall k :: k in ledger ==> |ledger[k]| == 1
  }

  /** The rows of one (target, actor) pair after `UPDATE ... SET action = a`: every row matches the filter. */
  function Rewrite(rows: seq<Activity>, a: Action): (r: seq<Activity>)
    ensures |r| == |rows|
    ensures forall i :: 0 <= i < |r| ==> r[i] == rows[i].(action := a)
  {
    seq(|rows|, i requires 0 <= i < |rows| => rows[i].(action := a))
  }

  /**
   * The ledger after a toggle recorded `row` for (t, actor): the existing
   * rows are rewritten to the row's action when the lookup found one,
   * otherwise `row` is inserted.
   */
  function Record(ledger: Ledger, t: Target, actor: string, row: Activity): Ledger
  {
    if LastAction(ledger, t, actor).Some? then ledger[(t, actor) := Rewrite(ledger[(t, actor)], row.action)]
    else ledger[(t, actor) := [row]]
  }

  /**
   * Recording keeps one row per (target, actor), inserts a pair only when
   * the lookup found none, and leaves the pair's newest action the row's.
   */
  lemma {:induction false} RecordOneRow(ledger: Ledger, t: Target, actor: string, row: Activity)
    requires OneRowEach(ledger)
    ensures OneRowEach(Record(ledger, t, actor, row))
    ensures LastAction(Record(ledger, t, actor, row), t, actor) == Some(row.action)
    ensures Record(ledger, t, actor, row).Keys == ledger.Keys + {(t, actor)}
    ensures (t, actor) in ledger ==> Record(ledger, t, actor, row).Keys == ledger.Keys
    ensures var k := (t, actor); var r := Record(ledger, t, actor, row)[k];
            |r| == 1 && r[0].action == row.action && (k !in ledger ==> r[0] == row) &&
            (k in ledger ==> r[0].threadId == ledger[k][0].threadId && r[0].commentId == ledger[k][0].commentId)
  {
    var k := (t, actor);
    if k in ledger {
      assert |ledger[k]| == 1;
      assert LastAction(ledger, t, actor).Some?;
    }
  }

  /**
   * The tables agree: a target is counted exactly when its row exists, the
   * counters equal the ledger's holders, and the ledger has one row per
   * (target, actor).
   */
  ghost predicate Consistent(threads: map<string, ThreadRow>, comments: map<string, CommentRow>,
                             replies: map<string, ReplyRow>, counters: map<Target, Counter>, ledger: Ledger)
  {
    (forall id :: OnThread(id) in counters <==> id in threads) &&
    (forall id :: OnComment(id) in counters <==> id in comments) &&
    (forall id :: OnReply(id) in counters <==> id in replies) &&
    Counted(counters, ledger) && OneRowEach(ledger)
  }

  /** Saving a comment under a fresh id, with zero counters, keeps the tables in agreement. */
  lemma {:induction false} AddCommentConsistent(threads: map<string, ThreadRow>, comments: map<string, CommentRow>,
                                                replies: map<string, ReplyRow>, counters: map<Target, Counter>,
                                                ledger: Ledger, threads2: map<string, ThreadRow>, id: string, row: CommentRow)
    requires Consistent(threads, comments, replies, counters, ledger)
    requires id !in comments && forall k :: k in ledger ==> k.0 != OnComment(id)
    requires threads2.Keys == threads.Keys
    ensures Consistent(threads2, comments[id := row], replies, counters[OnComment(id) := Counter(0, 0)], ledger)
  {
    FreshTargetCounted(counters, ledger, OnComment(id));
    var c2 := counters[OnComment(id) := Counter(0, 0)];
    forall x
      ensures (OnThread(x) in c2 <==> x in threads2) && (OnReply(x) in c2 <==> x in replies) &&
              (OnComment(x) in c2 <==> x in comments[id := row])
    {
    }
  }

  /** Saving a reply under a fresh id, with zero counters, keeps the tables in agreement. */
  lemma {:induction false} AddReplyConsistent(threads: map<string, ThreadRow>, comments: map<string, CommentRow>,
                                              replies: map<string, ReplyRow>, counters: map<Target, Counter>,
                                              ledger: Ledger, comments2: map<string, CommentRow>, id: string, row: ReplyRow)
    requires Consistent(threads, comments, replies, counters, ledger)
    requires id !in replies && forall k :: k in ledger ==> k.0 != OnReply(id)
    requires comments2.Keys == comments.Keys
    ensures Consistent(threads, comments2, replies[id := row], counters[OnReply(id) := Counter(0, 0)], ledger)
  {
    FreshTargetCounted(counters, ledger, OnReply(id));
    var c2 := counters[OnReply(id) := Counter(0, 0)];
    forall x
      ensures (OnThread(x) in c2 <==> x in threads) && (OnComment(x) in c2 <==> x in comments2) &&
              (OnReply(x) in c2 <==> x in replies[id := row])
    {
    }
  }

  class ThreadRepository {
    var threads: map<string, ThreadRow>
    var comments: map<string, CommentRow>
    var replies: map<string, ReplyRow>
    var counters: map<Target, Counter>
    var ledger: Ledger
    var subscriptions: map<(string, string), Subscription>

    /**
     * The tables agree: a target is counted exactly when its row exists, the
     * counters equal the ledger's holders, and the ledger has one row per
     * (target, actor).
     */
    ghost predicate Valid()
      reads this
    {
      Consistent(threads, comments, replies, counters, ledger)
    }

    /** An empty database. */
    constructor()
      ensures Valid()
      ensures threads == map[] && comments == map[] && replies == map[]
      ensures counters == map[] && ledger == map[] && subscriptions == map[]
    {
      threads, comments, replies := map[], map[], map[];
      counters, ledger, subscriptions := map[], map[], map[];
    }

    /**
     * `UPDATE ... SET like_count = like_count + delta, dislike_count = dislike_count + delta2
     * WHERE id = ?` on the target's table: IncrementLikesCountTx and its eleven
     * siblings for threads, comments and replies, each changing one column by one.
     */
    method AddToCounter(t: Target, likeDelta: int, dislikeDelta: int)
      requires (likeDelta == 0) != (dislikeDelta == 0)
      requires -1 <= likeDelta <= 1 && -1 <= dislikeDelta <= 1
      modifies this
      ensures counters == Apply(old(counters), t, Effect(likeDelta, dislikeDelta, Like))
      ensures t in old(counters) ==> counters[t].likes - old(counters)[t].likes == likeDelta
      ensures t in old(counters) ==> counters[t].dislikes - old(counters)[t].dislikes == dislikeDelta
      ensures forall u :: u in counters ==> u == t || counters[u] == old(counters)[u]
      ensures counters.Keys == old(counters).Keys
      ensures threads == old(threads) && comments == old(comments) && replies == old(replies)
      ensures ledger == old(ledger) && subscriptions == old(subscriptions)
    {
      if t in counters {
        var c := counters[t];
        counters := counters[t := Counter(c.likes + likeDelta, c.dislikes + dislikeDelta)];
      }
    }

    /** IncrementCommentsCountTx / DecrementCommentsCountTx: `comment_count` of one thread by ±1. */
    method AddToCommentCount(threadId: string, delta: int)
      requires delta == 1 || delta == -1
      modifies this
      ensures threadId in old(threads) ==>
                threads == old(threads)[threadId := old(threads)[threadId].(commentCount := old(threads)[threadId].commentCount + delta)]
      ensures threadId !in old(threads) ==> threads == old(threads)
      ensures comments == old(comments) && replies == old(replies) && counters == old(counters)
      ensures ledger == old(ledger) && subscriptions == old(subscriptions)
    {
      if threadId in threads {
        var th := threads[threadId];
        threads := threads[threadId := th.(commentCount := th.commentCount + delta)];
      }
    }

    /** IncrementCommentReplyCountTx: `reply_count` of one comment by 1. */
    method IncrementCommentReplyCount(commentId: string)
      modifies this
      ensures commentId in old(comments) ==>
                comments == old(comments)[commentId := old(comments)[commentId].(replyCount := old(comments)[commentId].replyCount + 1)]
      ensures commentId !in old(comments) ==> comments == old(comments)
      ensures threads == old(threads) && replies == old(replies) && counters == old(counters)
      ensures ledger == old(ledger) && subscriptions == old(subscriptions)
    {
      if commentId in comments {
        var c := comments[commentId];
        comments := comments[commentId := c.(replyCount := c.replyCount + 1)];
      }
    }

    /**
     * UpdateThreadActivityTx, UpdateThreadCommentActivityTx and
     * UpdateThreadCommentActivityReplyTx: every row of (t, actor) gets the new action.
     */
    method UpdateActivity(t: Target, actor: string, a: Action)
      modifies this
      ensures (t, actor) in old(ledger) ==> ledger == old(ledger)[(t, actor) := Rewrite(old(ledger)[(t, actor)], a)]
      ensures (t, actor) !in old(ledger) ==> ledger == old(ledger)
      ensures threads == old(threads) && comments == old(comments) && replies == old(replies)
      ensures counters == old(counters) && subscriptions == old(subscriptions)
    {
      if (t, actor) in ledger {
        ledger := ledger[(t, actor) := Rewrite(ledger[(t, actor)], a)];
      }
    }

    /** SaveThreadActivityTx and SaveThreadCommentActivityTx: a new, newest row for (t, actor). */
    method SaveActivity(t: Target, actor: string, row: Activity)
      modifies this
      ensures ledger == old(ledger)[(t, actor) := (if (t, actor) in old(ledger) then old(ledger)[(t, actor)] else []) + [row]]
      ensures threads == old(threads) && comments == old(comments) && replies == old(replies)
      ensures counters == old(counters) && subscriptions == old(subscriptions)
    {
      var rows := if (t, actor) in ledger then ledger[(t, actor)] else [];
      ledger := ledger[(t, actor) := rows + [row]];
    }

    /** SaveThreadCommentTx: a new comment, with its counters at the column defaults. */
    method SaveThreadComment(id: string, row: CommentRow)
      requires id !in comments
      modifies this
      ensures comments == old(comments)[id := row]
      ensures counters == old(counters)[OnComment(id) := Counter(0, 0)]
      ensures threads == old(threads) && replies == old(replies)
      ensures ledger == old(ledger) && subscriptions == old(subscriptions)
    {
      comments := comments[id := row];
      counters := counters[OnComment(id) := Counter(0, 0)];
    }

    /** SaveCommentReplyTx: a new reply, with its counters at the column defaults. */
    method SaveCommentReply(id: string, row: ReplyRow)
      requires id !in replies
      modifies this
      ensures replies == old(replies)[id := row]
      ensures counters == old(counters)[OnReply(id) := Counter(0, 0)]
      ensures threads == old(threads) && comments == old(comments)
      ensures ledger == old(ledger) && subscriptions == old(subscriptions)
    {
      replies := replies[id := row];
      counters := counters[OnReply(id) := Counter(0, 0)];
    }

    /**
     * SaveThreadSubscription, and UpdateThreadSubscriptionIsSubscribed on the
     * row a lookup returned (ids are unique, so the row with that id is the
     * row stored under its (user, thread) pair).
     */
    method PutSubscription(userId: string, threadId: string, s: Subscription)
      modifies this
      ensures subscriptions == old(subscriptions)[(userId, threadId) := s]
      ensures threads == old(threads) && comments == old(comments) && replies == old(replies)
      ensures counters == old(counters) && ledger == old(ledger)
    {
      subscriptions := subscriptions[(userId, threadId) := s];
    }
  }
}
