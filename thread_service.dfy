/**
 * The thread service of internal/service/thread.go: the like/dislike
 * toggles on threads, comments and replies, commenting and replying,
 * thread subscriptions, and the mapping of stored rows to responses.
 *
 * Comment and reply ledger lookups are keyed by the comment or reply id
 * alone; how the source's lookup also filters on the request's thread id,
 * and what that does, is modelled in the CommentActivity module.
 */
module ThreadSvc {
  import opened Wrappers
  import opened ResponseCode
  import opened Reactions
  import opened ThreadRepo
  import Util

  /**
   * The counters and ledger after one like or dislike request by `actor` on
   * `t`; a row it inserts records `threadId` and `commentId`.
   */
  function ToggleState(counters: map<Target, Counter>, ledger: Ledger, t: Target, actor: string,
                       r: Reaction, threadId: string, commentId: Option<string>): (map<Target, Counter>, Ledger)
  {
    var e := Transition(r, LastAction(ledger, t, actor));
    (Apply(counters, t, e), Record(ledger, t, actor, Activity(threadId, commentId, e.action)))
  }

  /**
   * A toggle keeps every counter equal to its number of holders and the
   * ledger at one row per (target, actor), counts the same targets, and
   * leaves the actor holding the reaction exactly when they did not before.
   */
  lemma {:induction false} ToggleKeepsCounts(threads: map<string, ThreadRow>, comments: map<string, CommentRow>,
                                             replies: map<string, ReplyRow>, counters: map<Target, Counter>, ledger: Ledger,
                                             t: Target, actor: string, r: Reaction, threadId: string, commentId: Option<string>)
    requires Consistent(threads, comments, replies, counters, ledger)
    ensures Consistent(threads, comments, replies, ToggleState(counters, ledger, t, actor, r, threadId, commentId).0,
                       ToggleState(counters, ledger, t, actor, r, threadId, commentId).1)
    ensures var held := if r == LikeRequest then Like else Dislike;
            (LastAction(ToggleState(counters, ledger, t, actor, r, threadId, commentId).1, t, actor) == Some(held)
             <==> LastAction(ledger, t, actor) != Some(held))
  {
    var e := Transition(r, LastAction(ledger, t, actor));
    var row := Activity(threadId, commentId, e.action);
    RecordOneRow(ledger, t, actor, row);
    var l2 := Record(ledger, t, actor, row);
    var rows := l2[(t, actor)];
    assert rows[|rows| - 1].action == e.action;
    assert l2 == ledger[(t, actor) := rows];
    ToggleKeepsCounted(counters, ledger, t, actor, r, rows);
    assert Apply(counters, t, e).Keys == counters.Keys;
  }

  /** A notification device of a user, as GetUserDevices returns it. */
  datatype Device = Device(token: string, notificationActive: bool)

  /** The push notification request CommentThread sends. */
  datatype Push = Push(tokens: seq<string>, title: string, content: string, route: string)

  /** The tokens of the devices with notifications switched on, in device order. */
  function ActiveTokens(ds: seq<Device>): seq<string>
  {
    if |ds| == 0 then []
    else (if ds[0].notificationActive then [ds[0].token] else []) + ActiveTokens(ds[1..])
  }

  /** A token is collected exactly when some device with notifications on has it, and no more tokens than devices. */
  lemma {:induction false} ActiveTokensSpec(ds: seq<Device>)
    ensures |ActiveTokens(ds)| <= |ds|
    ensures forall tok :: tok in ActiveTokens(ds) <==> exists i :: 0 <= i < |ds| && ds[i].notificationActive && ds[i].token == tok
    decreases |ds|
  {
    if |ds| > 0 {
      ActiveTokensSpec(ds[1..]);
      forall tok
        ensures tok in ActiveTokens(ds) <==> exists i :: 0 <= i < |ds| && ds[i].notificationActive && ds[i].token == tok
      {
        if tok in ActiveTokens(ds[1..]) {
          var i :| 0 <= i < |ds[1..]| && ds[1..][i].notificationActive && ds[1..][i].token == tok;
          assert ds[i + 1] == ds[1..][i];
        }
        if exists i :: 0 <= i < |ds| && ds[i].notificationActive && ds[i].token == tok {
          var i :| 0 <= i < |ds| && ds[i].notificationActive && ds[i].token == tok;
          if i > 0 {
            assert ds[1..][i - 1] == ds[i];
          }
        }
      }
    }
  }

  lemma {:induction false} ActiveTokensAppend(ds: seq<Device>, d: Device)
    ensures ActiveTokens(ds + [d]) == ActiveTokens(ds) + (if d.notificationActive then [d.token] else [])
    decreases |ds|
  {
    if |ds| == 0 {
      assert ds + [d] == [d];
      assert [d][1..] == [];
    } else {
      assert (ds + [d])[1..] == ds[1..] + [d];
      ActiveTokensAppend(ds[1..], d);
    }
  }

  /** The `for` loop of CommentThread that gathers the notification tokens. */
  method CollectActiveTokens(ds: seq<Device>) returns (tokens: seq<string>)
    ensures tokens == ActiveTokens(ds)
  {
    tokens := [];
    var i := 0;
    while i < |ds|
      invariant 0 <= i <= |ds|
      invariant tokens == ActiveTokens(ds[..i])
    {
      ActiveTokensAppend(ds[..i], ds[i]);
      assert ds[..i + 1] == ds[..i] + [ds[i]];
      if ds[i].notificationActive {
        tokens := tokens + [ds[i].token];
      }
      i := i + 1;
    }
    assert ds[..i] == ds;
  }

  const CommentPushTitle: string := "Someone commented on your thread!"

  /** The notification text: the commenter's name, then the comment cut to 50 runes. */
  function CommentPushContent(username: string, content: string): (r: string)
    ensures |content| <= 50 ==> r == username + ": " + content
    ensures |content| > 50 ==> r == username + ": " + content[..50] + "..."
  {
    username + ": " + Util.TruncateWithEllipsis(content, 50)
  }

  class ThreadService {
    const repo: ThreadRepository

    constructor(repo: ThreadRepository)
      ensures this.repo == repo
    {
      this.repo := repo;
    }

    /**
     * The toggle every like and dislike entry point runs once its target is
     * known (LikeThread, DislikeThread, LikeComment, DislikeComment, their
     * reply paths and the unlike/undislike helpers): undo the same reaction,
     * or take the opposite one back, add this one, then rewrite the actor's
     * row or insert the first one.
     */
    method Toggle(r: Reaction, t: Target, threadId: string, commentId: Option<string>, actor: string)
      requires repo.Valid()
      modifies repo
      ensures repo.Valid()
      ensures (repo.counters, repo.ledger) == ToggleState(old(repo.counters), old(repo.ledger), t, actor, r, threadId, commentId)
      ensures repo.threads == old(repo.threads) && repo.comments == old(repo.comments)
      ensures repo.replies == old(repo.replies) && repo.subscriptions == old(repo.subscriptions)
    {
      ghost var c0, l0 := repo.counters, repo.ledger;
      ToggleKeepsCounts(repo.threads, repo.comments, repo.replies, c0, l0, t, actor, r, threadId, commentId);
      ghost var e := Transition(r, LastAction(l0, t, actor));
      var last := LastAction(repo.ledger, t, actor);
      assert last.None? ==> (t, actor) !in l0;
      var same, undo, opposite := Like, Unlike, Dislike;
      if r == DislikeRequest {
        same, undo, opposite := Dislike, Undislike, Like;
      }
      var up := if r == LikeRequest then 1 else 0;
      if last == Some(same) {
        repo.AddToCounter(t, -up, up - 1);
        ApplySameDeltas(c0, t, Effect(-up, up - 1, Like), e);
        repo.UpdateActivity(t, actor, undo);
        return;
      }
      if last == Some(opposite) {
        repo.AddToCounter(t, up - 1, -up);
        repo.AddToCounter(t, up, 1 - up);
        ApplyDeltas(c0, t, Effect(up - 1, -up, Like), Effect(up, 1 - up, Like), e);
      } else {
        repo.AddToCounter(t, up, 1 - up);
        ApplySameDeltas(c0, t, Effect(up, 1 - up, Like), e);
      }
      if last.Some? {
        repo.UpdateActivity(t, actor, same);
        return;
      }
      repo.SaveActivity(t, actor, Activity(threadId, commentId, same));
      assert [] + [Activity(threadId, commentId, same)] == [Activity(threadId, commentId, same)];
    }

    /** LikeThread: no check that the thread exists. */
    method LikeThread(threadId: string, actor: string)
      requires repo.Valid()
      modifies repo
      ensures repo.Valid()
      ensures (repo.counters, repo.ledger) ==
              ToggleState(old(repo.counters), old(repo.ledger), OnThread(threadId), actor, LikeRequest, threadId, None)
      ensures repo.threads == old(repo.threads) && repo.comments == old(repo.comments)
      ensures repo.replies == old(repo.replies) && repo.subscriptions == old(repo.subscriptions)
    {
      Toggle(LikeRequest, OnThread(threadId), threadId, None, actor);
    }

    /** DislikeThread: no check that the thread exists. */
    method DislikeThread(threadId: string, actor: string)
      requires repo.Valid()
      modifies repo
      ensures repo.Valid()
      ensures (repo.counters, repo.ledger) ==
              ToggleState(old(repo.counters), old(repo.ledger), OnThread(threadId), actor, DislikeRequest, threadId, None)
      ensures repo.threads == old(repo.threads) && repo.comments == old(repo.comments)
      ensures repo.replies == old(repo.replies) && repo.subscriptions == old(repo.subscriptions)
    {
      Toggle(DislikeRequest, OnThread(threadId), threadId, None, actor);
    }

    /**
     * LikeComment and DislikeComment: a comment toggle needs no existing
     * comment; the reply path (likeCommentReply, dislikeCommentReply) fails
     * with NotFound, changing nothing, when the reply does not exist, and a
     * reply row it inserts records the reply's parent comment.
     */
    method ReactToComment(r: Reaction, threadId: string, commentId: string, isReply: bool, actor: string)
      returns (res: Outcome)
      requires repo.Valid()
      modifies repo
      ensures repo.Valid()
      ensures res.Fail? <==> isReply && commentId !in old(repo.replies)
      ensures res.Fail? ==> res.failure == Failure(NotFound, "Thread comment reply does not exist")
      ensures res.Fail? ==> repo.counters == old(repo.counters) && repo.ledger == old(repo.ledger)
      ensures res.Done? && !isReply ==>
                (repo.counters, repo.ledger) ==
                ToggleState(old(repo.counters), old(repo.ledger), OnComment(commentId), actor, r, threadId, Some(commentId))
      ensures res.Done? && isReply ==>
                (repo.counters, repo.ledger) ==
                ToggleState(old(repo.counters), old(repo.ledger), OnReply(commentId), actor, r, threadId,
                            Some(old(repo.replies)[commentId].commentId))
      ensures repo.threads == old(repo.threads) && repo.comments == old(repo.comments)
      ensures repo.replies == old(repo.replies) && repo.subscriptions == old(repo.subscriptions)
    {
      if isReply {
        if commentId !in repo.replies {
          return Fail(Failure(NotFound, "Thread comment reply does not exist"));
        }
        var reply := repo.replies[commentId];
        Toggle(r, OnReply(commentId), threadId, Some(reply.commentId), actor);
        return Done;
      }
      Toggle(r, OnComment(commentId), threadId, Some(commentId), actor);
      return Done;
    }

    /**
     * CommentThread: BadRequest for a missing thread and NotFound when its
     * owner has no devices, both before any write; otherwise the thread's
     * comment_count rises by one and the comment is saved. A push to the
     * owner's active tokens is requested only when someone else commented
     * and some token is active; its outcome does not matter.
     */
    method CommentThread(threadId: string, commentId: string, actor: string, username: string, content: string,
                         devices: map<string, seq<Device>>)
      returns (res: Outcome, push: Option<Push>)
      requires repo.Valid()
      requires commentId !in repo.comments
      requires forall k :: k in repo.ledger ==> k.0 != OnComment(commentId)
      modifies repo
      ensures repo.Valid()
      ensures threadId !in old(repo.threads) ==> res == Fail(Failure(BadRequest, "Thread does not exist"))
      ensures threadId in old(repo.threads) ==>
                var owner := old(repo.threads)[threadId].userId;
                (res == Fail(Failure(NotFound, "User devices not found")) <==> owner !in devices || |devices[owner]| == 0)
      ensures res.Done? <==> threadId in old(repo.threads) && old(repo.threads)[threadId].userId in devices &&
                             |devices[old(repo.threads)[threadId].userId]| > 0
      ensures res.Fail? ==> push.None? && unchanged(repo)
      ensures res.Done? ==>
                var th := old(repo.threads)[threadId];
                repo.threads == old(repo.threads)[threadId := th.(commentCount := th.commentCount + 1)] &&
                repo.comments == old(repo.comments)[commentId := CommentRow(threadId, actor, content, 0)] &&
                repo.counters == old(repo.counters)[OnComment(commentId) := Counter(0, 0)] &&
                repo.replies == old(repo.replies) && repo.ledger == old(repo.ledger) &&
                repo.subscriptions == old(repo.subscriptions)
      ensures res.Done? ==>
                var owner := old(repo.threads)[threadId].userId;
                (push.Some? <==> owner != actor && |ActiveTokens(devices[owner])| > 0) &&
                (push.Some? ==> push.value == Push(ActiveTokens(devices[owner]), CommentPushTitle,
                                                   CommentPushContent(username, content), "/thread/" + threadId))
    {
      push := None;
      if threadId !in repo.threads {
        return Fail(Failure(BadRequest, "Thread does not exist")), None;
      }
      var owner := repo.threads[threadId].userId;
      var ds := if owner in devices then devices[owner] else [];
      if |ds| == 0 {
        return Fail(Failure(NotFound, "User devices not found")), None;
      }
      var th := repo.threads[threadId];
      var threads2 := repo.threads[threadId := th.(commentCount := th.commentCount + 1)];
      AddCommentConsistent(repo.threads, repo.comments, repo.replies, repo.counters, repo.ledger,
                           threads2, commentId, CommentRow(threadId, actor, content, 0));
      repo.AddToCommentCount(threadId, 1);
      assert repo.threads == threads2;
      repo.SaveThreadComment(commentId, CommentRow(threadId, actor, content, 0));
      if owner != actor {
        var tokens := CollectActiveTokens(ds);
        if |tokens| > 0 {
          push := Some(Push(tokens, CommentPushTitle, CommentPushContent(username, content), "/thread/" + threadId));
        }
      }
      res := Done;
    }

    /**
     * ReplyComment: no existence check; the comment's reply_count rises by
     * one when the comment exists, and the reply is saved either way.
     */
    method ReplyComment(threadId: string, commentId: string, replyId: string, actor: string, content: string)
      returns (res: Outcome)
      requires repo.Valid()
      requires replyId !in repo.replies
      requires forall k :: k in repo.ledger ==> k.0 != OnReply(replyId)
      modifies repo
      ensures repo.Valid()
      ensures res == Done
      ensures commentId in old(repo.comments) ==>
                var c := old(repo.comments)[commentId];
                repo.comments == old(repo.comments)[commentId := c.(replyCount := c.replyCount + 1)]
      ensures commentId !in old(repo.comments) ==> repo.comments == old(repo.comments)
      ensures repo.replies == old(repo.replies)[replyId := ReplyRow(threadId, commentId, actor, content)]
      ensures repo.counters == old(repo.counters)[OnReply(replyId) := Counter(0, 0)]
      ensures repo.threads == old(repo.threads) && repo.ledger == old(repo.ledger)
      ensures repo.subscriptions == old(repo.subscriptions)
    {
      var comments2 := repo.comments;
      if commentId in repo.comments {
        var c := repo.comments[commentId];
        comments2 := repo.comments[commentId := c.(replyCount := c.replyCount + 1)];
      }
      AddReplyConsistent(repo.threads, repo.comments, repo.replies, repo.counters, repo.ledger, comments2,
                         replyId, ReplyRow(threadId, commentId, actor, content));
      repo.IncrementCommentReplyCount(commentId);
      assert repo.comments == comments2;
      repo.SaveCommentReply(replyId, ReplyRow(threadId, commentId, actor, content));
      res := Done;
    }

    /**
     * SubscribeThread: NotFound for a missing thread, BadRequest for the
     * owner; an active subscription is left alone, an inactive one
     * re-activated, and otherwise one new active subscription created.
     */
    method SubscribeThread(threadId: string, actor: string, newId: string) returns (res: Outcome)
      requires repo.Valid()
      modifies repo
      ensures repo.Valid()
      ensures threadId !in old(repo.threads) ==> res == Fail(Failure(NotFound, "Thread not found"))
      ensures threadId in old(repo.threads) && old(repo.threads)[threadId].userId == actor ==>
                res == Fail(Failure(BadRequest, "Cannot subscribe to the user's own thread"))
      ensures res.Done? <==> threadId in old(repo.threads) && old(repo.threads)[threadId].userId != actor
      ensures res.Fail? ==> unchanged(repo)
      ensures res.Done? ==> var key := (actor, threadId);
                key in repo.subscriptions && repo.subscriptions[key].isSubscribed &&
                repo.subscriptions.Keys == old(repo.subscriptions).Keys + {key} &&
                (forall k :: k in old(repo.subscriptions) && k != key ==> repo.subscriptions[k] == old(repo.subscriptions)[k]) &&
                repo.subscriptions[key].id == (if key in old(repo.subscriptions) then old(repo.subscriptions)[key].id else newId)
      ensures res.Done? ==> (repo.threads == old(repo.threads) && repo.comments == old(repo.comments) &&
                             repo.replies == old(repo.replies) && repo.counters == old(repo.counters) &&
                             repo.ledger == old(repo.ledger))
    {
      if threadId !in repo.threads {
        return Fail(Failure(NotFound, "Thread not found"));
      }
      if repo.threads[threadId].userId == actor {
        return Fail(Failure(BadRequest, "Cannot subscribe to the user's own thread"));
      }
      var key := (actor, threadId);
      if key in repo.subscriptions {
        var ts := repo.subscriptions[key];
        if ts.isSubscribed {
          return Done;
        }
        repo.PutSubscription(actor, threadId, ts.(isSubscribed := true));
        return Done;
      }
      repo.PutSubscription(actor, threadId, Subscription(newId, true));
      return Done;
    }

    /**
     * UnSubscribeThread: NotFound when there is no subscription (the thread
     * itself is not looked up); an inactive one is left alone, an active one
     * switched off.
     */
    method UnSubscribeThread(threadId: string, actor: string) returns (res: Outcome)
      requires repo.Valid()
      modifies repo
      ensures repo.Valid()
      ensures res.Fail? <==> (actor, threadId) !in old(repo.subscriptions)
      ensures res.Fail? ==> res.failure == Failure(NotFound, "Thread subscription not found") && unchanged(repo)
      ensures res.Done? ==> var key := (actor, threadId);
                repo.subscriptions == old(repo.subscriptions)[key := old(repo.subscriptions)[key].(isSubscribed := false)]
      ensures repo.threads == old(repo.threads) && repo.comments == old(repo.comments) &&
              repo.replies == old(repo.replies) && repo.counters == old(repo.counters) && repo.ledger == old(repo.ledger)
    {
      var key := (actor, threadId);
      if key !in repo.subscriptions {
        return Fail(Failure(NotFound, "Thread subscription not found"));
      }
      var ts := repo.subscriptions[key];
      if !ts.isSubscribed {
        assert repo.subscriptions == repo.subscriptions[key := ts.(isSubscribed := false)];
        return Done;
      }
      repo.PutSubscription(actor, threadId, ts.(isSubscribed := false));
      return Done;
    }
  }

  /** A stored thread with the caller's action column, as GetList and GetByID scan it. */
  datatype ThreadData = ThreadData(id: string, userId: string, title: string, likeCount: int, dislikeCount: int,
                                   commentCount: int)

  /** The thread fields of a response together with the caller's flags. */
  datatype ThreadView = ThreadView(data: ThreadData, isLiked: bool, isDisliked: bool)

  /** The response entry for a thread whose caller's action column reads `action` ("" when there is none). */
  function ThreadEntry(t: ThreadData, action: string): (v: ThreadView)
    ensures v.data == t
    ensures v.isLiked <==> ParseAction(action) == Some(Like)
    ensures v.isDisliked <==> ParseAction(action) == Some(Dislike)
    ensures !(v.isLiked && v.isDisliked)
  {
    var (liked, disliked) := Flags(action);
    ThreadView(t, liked, disliked)
  }

  /** mapThreadListData: one entry per thread, in list order. */
  method MapThreadListData(threads: seq<(ThreadData, string)>) returns (out: seq<ThreadView>)
    ensures |out| == |threads|
    ensures forall i :: 0 <= i < |out| ==> out[i] == ThreadEntry(threads[i].0, threads[i].1)
  {
    out := [];
    var i := 0;
    while i < |threads|
      invariant 0 <= i <= |threads|
      invariant |out| == i
      invariant forall j :: 0 <= j < i ==> out[j] == ThreadEntry(threads[j].0, threads[j].1)
    {
      var (t, action) := threads[i];
      var entry := ThreadView(t, false, false);
      if action != "" {
        if action == ActionName(Like) {
          entry := entry.(isLiked := true);
        }
        if action == ActionName(Dislike) {
          entry := entry.(isDisliked := true);
        }
      }
      out := out + [entry];
      i := i + 1;
    }
  }

  /** mapThreadDetailData: the flags come from the caller's ledger row, if any. */
  function MapThreadDetailData(t: ThreadData, activity: Option<Action>): (v: ThreadView)
    ensures v.data == t
    ensures v.isLiked <==> activity == Some(Like)
    ensures v.isDisliked <==> activity == Some(Dislike)
  {
    match activity
    case None => ThreadView(t, false, false)
    case Some(a) => ThreadEntry(t, ActionName(a))
  }

  /** A stored comment, or reply, with the caller's action column. */
  datatype CommentData = CommentData(id: string, likeCount: int, dislikeCount: int, action: string)

  datatype EntryView = EntryView(id: string, likeCount: int, dislikeCount: int, isLiked: bool, isDisliked: bool)
  datatype CommentView = CommentView(entry: EntryView, replies: seq<EntryView>)

  function CommentEntry(c: CommentData): (v: EntryView)
    ensures v.id == c.id && v.likeCount == c.likeCount && v.dislikeCount == c.dislikeCount
    ensures v.isLiked <==> ParseAction(c.action) == Some(Like)
    ensures v.isDisliked <==> ParseAction(c.action) == Some(Dislike)
  {
    var (liked, disliked) := Flags(c.action);
    EntryView(c.id, c.likeCount, c.dislikeCount, liked, disliked)
  }

  function FlagOf(action: string, wanted: Action): bool
  {
    action != "" && action == ActionName(wanted)
  }

  /** The entries of one comment's replies, in stored order. */
  method MapReplies(rs: seq<CommentData>) returns (out: seq<EntryView>)
    ensures |out| == |rs|
    ensures forall j :: 0 <= j < |out| ==> out[j] == CommentEntry(rs[j])
  {
    out := [];
    var j := 0;
    while j < |rs|
      invariant 0 <= j <= |rs|
      invariant |out| == j
      invariant forall k :: 0 <= k < j ==> out[k] == CommentEntry(rs[k])
    {
      var r := rs[j];
      out := out + [EntryView(r.id, r.likeCount, r.dislikeCount, FlagOf(r.action, Like), FlagOf(r.action, Dislike))];
      j := j + 1;
    }
  }

  /** mapThreadCommentsData: one entry per comment with its replies nested, both in stored order. */
  method MapThreadCommentsData(comments: seq<(CommentData, seq<CommentData>)>) returns (out: seq<CommentView>)
    ensures |out| == |comments|
    ensures forall i :: 0 <= i < |out| ==>
              out[i].entry == CommentEntry(comments[i].0) &&
              |out[i].replies| == |comments[i].1| &&
              forall j :: 0 <= j < |out[i].replies| ==> out[i].replies[j] == CommentEntry(comments[i].1[j])
  {
    out := [];
    var i := 0;
    while i < |comments|
      invariant 0 <= i <= |comments|
      invariant |out| == i
      invariant forall k :: 0 <= k < i ==>
                  out[k].entry == CommentEntry(comments[k].0) &&
                  |out[k].replies| == |comments[k].1| &&
                  forall j :: 0 <= j < |out[k].replies| ==> out[k].replies[j] == CommentEntry(comments[k].1[j])
    {
      var (c, rs) := comments[i];
      var head := EntryView(c.id, c.likeCount, c.dislikeCount, FlagOf(c.action, Like), FlagOf(c.action, Dislike));
      var nested := MapReplies(rs);
      out := out + [CommentView(head, nested)];
      i := i + 1;
    }
  }
}
