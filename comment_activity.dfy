/**
 * The `thread_comment_activity` table as the comment and reply toggles of
 * internal/service/thread.go use it, with the row filters exactly as
 * internal/repository/thread.go writes them.
 *
 * Comment rows have no reply id; reply rows carry the reply id and the
 * parent comment id. Rows are in creation order, so "newest" is "last".
 * The lookups filter on the thread id taken from the request, while the
 * updates filter on the comment (or reply) and the actor alone: the same
 * actor on the same comment reached through another thread id is neither
 * found nor kept apart, which the counter lemma at the end exhibits.
 */
module CommentActivity {
  import opened Wrappers
  import opened Reactions

  datatype ActivityRow = ActivityRow(threadId: string, commentId: string, replyId: Option<string>,
                                     actor: string, action: Action)

  /** The WHERE clauses of the four statements on the table. */
  datatype Filter =
    | CommentLookup(threadId: string, commentId: string, actor: string)  // GetLastThreadCommentActivityByUserID
    | CommentUpdate(commentId: string, actor: string)                    // UpdateThreadCommentActivityTx
    | ReplyLookup(threadId: string, replyId: string, actor: string)      // GetLastThreadCommentActivityReplyByUserID
    | ReplyUpdate(replyId: string, actor: string)                        // UpdateThreadCommentActivityReplyTx

  predicate Matches(f: Filter, r: ActivityRow)
  {
    match f
    case CommentLookup(t, c, a) => r.threadId == t && r.commentId == c && r.actor == a && r.replyId.None?
    case CommentUpdate(c, a) => r.commentId == c && r.actor == a && r.replyId.None?
    case ReplyLookup(t, p, a) => r.threadId == t && r.replyId == Some(p) && r.actor == a
    case ReplyUpdate(p, a) => r.replyId == Some(p) && r.actor == a
  }

  predicate OnComments(f: Filter)
  {
    f.CommentLookup? || f.CommentUpdate?
  }

  /** A comment filter and a reply filter never select the same row. */
  lemma {:induction false} KindsDisjoint(f: Filter, g: Filter, r: ActivityRow)
    requires OnComments(f) && !OnComments(g)
    ensures !(Matches(f, r) && Matches(g, r))
  {
  }

  /** `ORDER BY created_at DESC LIMIT 1`: the action of the newest matching row. */
  function Newest(rows: seq<ActivityRow>, f: Filter): Option<Action>
    decreases |rows|
  {
    if |rows| == 0 then None
    else if Matches(f, rows[|rows| - 1]) then Some(rows[|rows| - 1].action)
    else Newest(rows[..|rows| - 1], f)
  }

  /**
   * The lookup finds a row exactly when one matches, and then returns the
   * action of a matching row that no later matching row follows.
   */
  lemma {:induction false} NewestIsLatest(rows: seq<ActivityRow>, f: Filter)
    ensures Newest(rows, f).None? <==> forall i :: 0 <= i < |rows| ==> !Matches(f, rows[i])
    ensures Newest(rows, f).Some? ==>
              exists i :: 0 <= i < |rows| && Matches(f, rows[i]) && rows[i].action == Newest(rows, f).value &&
                          forall j :: i < j < |rows| ==> !Matches(f, rows[j])
    decreases |rows|
  {
    if |rows| > 0 && !Matches(f, rows[|rows| - 1]) {
      var init := rows[..|rows| - 1];
      NewestIsLatest(init, f);
      assert forall i :: 0 <= i < |init| ==> init[i] == rows[i];
    }
  }

  /** `UPDATE ... SET action = a WHERE <f>`. */
  function UpdateWhere(rows: seq<ActivityRow>, f: Filter, a: Action): (r: seq<ActivityRow>)
    ensures |r| == |rows|
    ensures forall i :: 0 <= i < |r| ==> r[i] == if Matches(f, rows[i]) then rows[i].(action := a) else rows[i]
  {
    seq(|rows|, i requires 0 <= i < |rows| => if Matches(f, rows[i]) then rows[i].(action := a) else rows[i])
  }

  /** A comment-level update is invisible to every reply-level lookup, and the other way round. */
  lemma {:induction false} UpdateLeavesOtherKind(rows: seq<ActivityRow>, f: Filter, a: Action, g: Filter)
    requires f.CommentUpdate? || f.ReplyUpdate?
    requires OnComments(f) != OnComments(g)
    ensures Newest(UpdateWhere(rows, f, a), g) == Newest(rows, g)
    decreases |rows|
  {
    if |rows| > 0 {
      var r := UpdateWhere(rows, f, a);
      var n := |rows| - 1;
      if Matches(g, rows[n]) {
        if OnComments(f) {
          KindsDisjoint(f, g, rows[n]);
        } else {
          KindsDisjoint(g, f, rows[n]);
        }
        assert r[n] == rows[n];
      } else {
        assert !Matches(g, r[n]);
        UpdateWhereInit(rows, f, a);
        UpdateLeavesOtherKind(rows[..n], f, a, g);
      }
    }
  }

  /** Updating, then dropping the newest row, is dropping it first. */
  lemma UpdateWhereInit(rows: seq<ActivityRow>, f: Filter, a: Action)
    requires |rows| > 0
    ensures UpdateWhere(rows, f, a)[..|rows| - 1] == UpdateWhere(rows[..|rows| - 1], f, a)
  {
  }

  /** The activity table with the like/dislike columns of the comments and replies. */
  datatype Tables = Tables(rows: seq<ActivityRow>, counters: map<Target, Counter>)

  /**
   * LikeComment/DislikeComment on the comment path, as written: look up with
   * the request's thread id, move the counters, then update by (comment,
   * actor) or insert a row under the request's thread id.
   */
  function ReactToCommentAsWritten(s: Tables, r: Reaction, threadId: string, commentId: string, actor: string): (s2: Tables)
    ensures |s2.rows| == |s.rows| + Ind(Newest(s.rows, CommentLookup(threadId, commentId, actor)).None?)
  {
    var last := Newest(s.rows, CommentLookup(threadId, commentId, actor));
    var e := Transition(r, last);
    var counters := Apply(s.counters, OnComment(commentId), e);
    if last.Some? then Tables(UpdateWhere(s.rows, CommentUpdate(commentId, actor), e.action), counters)
    else Tables(s.rows + [ActivityRow(threadId, commentId, None, actor, e.action)], counters)
  }

  /**
   * The reply path, as written, for a reply that exists under
   * `parentCommentId`: the same shape with the reply filters.
   */
  function ReactToReplyAsWritten(s: Tables, r: Reaction, threadId: string, replyId: string,
                                 parentCommentId: string, actor: string): (s2: Tables)
    ensures |s2.rows| == |s.rows| + Ind(Newest(s.rows, ReplyLookup(threadId, replyId, actor)).None?)
  {
    var last := Newest(s.rows, ReplyLookup(threadId, replyId, actor));
    var e := Transition(r, last);
    var counters := Apply(s.counters, OnReply(replyId), e);
    if last.Some? then Tables(UpdateWhere(s.rows, ReplyUpdate(replyId, actor), e.action), counters)
    else Tables(s.rows + [ActivityRow(threadId, parentCommentId, Some(replyId), actor, e.action)], counters)
  }

  /** A reaction on a comment leaves every reply's lookup as it was, and the other way round. */
  lemma {:induction false} ReactionsStayApart(s: Tables, r: Reaction, threadId: string, id: string, parent: string,
                                              actor: string, t2: string, id2: string, actor2: string)
    ensures Newest(ReactToCommentAsWritten(s, r, threadId, id, actor).rows, ReplyLookup(t2, id2, actor2))
            == Newest(s.rows, ReplyLookup(t2, id2, actor2))
    ensures Newest(ReactToReplyAsWritten(s, r, threadId, id, parent, actor).rows, CommentLookup(t2, id2, actor2))
            == Newest(s.rows, CommentLookup(t2, id2, actor2))
  {
    var a1 := Transition(r, Newest(s.rows, CommentLookup(threadId, id, actor))).action;
    var a2 := Transition(r, Newest(s.rows, ReplyLookup(threadId, id, actor))).action;
    UpdateLeavesOtherKind(s.rows, CommentUpdate(id, actor), a1, ReplyLookup(t2, id2, actor2));
    UpdateLeavesOtherKind(s.rows, ReplyUpdate(id, actor), a2, CommentLookup(t2, id2, actor2));
    var n := |s.rows|;
    var c := s.rows + [ActivityRow(threadId, id, None, actor, a1)];
    assert c[..n] == s.rows;
    var p := s.rows + [ActivityRow(threadId, parent, Some(id), actor, a2)];
    assert p[..n] == s.rows;
  }

  /**
   * One actor likes comment "c" through thread "t1", then through thread
   * "t2", then through "t1" again. The second like is not found by the
   * lookup and counts the actor twice; the third rewrites both rows to
   * UNLIKE, leaving a like counted that no row holds.
   */
  lemma {:induction false} CommentLikeThroughTwoThreads()
    ensures var s0 := Tables([], map[OnComment("c") := Counter(0, 0)]);
            var s1 := ReactToCommentAsWritten(s0, LikeRequest, "t1", "c", "u");
            var s2 := ReactToCommentAsWritten(s1, LikeRequest, "t2", "c", "u");
            var s3 := ReactToCommentAsWritten(s2, LikeRequest, "t1", "c", "u");
            s2.counters[OnComment("c")] == Counter(2, 0) &&
            |s2.rows| == 2 && (forall i :: 0 <= i < 2 ==> s2.rows[i].actor == "u" && s2.rows[i].action == Like) &&
            s3.counters[OnComment("c")] == Counter(1, 0) &&
            |s3.rows| == 2 && (forall i :: 0 <= i < 2 ==> s3.rows[i].action == Unlike)
  {
    var s0 := Tables([], map[OnComment("c") := Counter(0, 0)]);
    var row1 := ActivityRow("t1", "c", None, "u", Like);
    var row2 := ActivityRow("t2", "c", None, "u", Like);
    var s1 := ReactToCommentAsWritten(s0, LikeRequest, "t1", "c", "u");
    assert s1 == Tables([row1], map[OnComment("c") := Counter(1, 0)]);
    assert "t1" != "t2" by {
      assert "t1"[1] != "t2"[1];
    }
    assert !Matches(CommentLookup("t2", "c", "u"), row1);
    assert [row1][..0] == [];
    assert Newest([row1], CommentLookup("t2", "c", "u")) == None;
    var s2 := ReactToCommentAsWritten(s1, LikeRequest, "t2", "c", "u");
    assert s2 == Tables([row1, row2], map[OnComment("c") := Counter(2, 0)]);
    assert !Matches(CommentLookup("t1", "c", "u"), row2);
    assert [row1, row2][..1] == [row1];
    assert Newest([row1, row2], CommentLookup("t1", "c", "u")) == Some(Like);
    var s3 := ReactToCommentAsWritten(s2, LikeRequest, "t1", "c", "u");
    assert s3.rows == [row1.(action := Unlike), row2.(action := Unlike)];
  }
}
