/**
 * The reaction toggle shared by threads, comments and replies
 * (internal/service/thread.go): the actions stored in the activity ledger,
 * the transition each like or dislike request applies to an actor's last
 * action, and how a ledger rewrite moves the number of actors holding each
 * action.
 *
 * The ledger holds, for every (target, actor) pair, its activity rows in
 * creation order; the lookup reads the newest one. The empty string the
 * source uses for "no row" is `None` here.
 */
module Reactions {
  import opened Wrappers
  import Constants

  /** What a like/dislike counter row belongs to. */
  datatype Target = OnThread(id: string) | OnComment(id: string) | OnReply(id: string)

  /** The four values of the `action` column. */
  datatype Action = Like | Unlike | Dislike | Undislike

  /** The constant each action is stored as. */
  function ActionName(a: Action): (s: string)
    ensures s in {Constants.LikeAction, Constants.UnlikeAction, Constants.DislikeAction, Constants.UndislikeAction}
    ensures ParseAction(s) == Some(a)
  {
    match a
    case Like => Constants.LikeAction
    case Unlike => Constants.UnlikeAction
    case Dislike => Constants.DislikeAction
    case Undislike => Constants.UndislikeAction
  }

  /** Reads an `action` column back; None for text that is none of the four. */
  function ParseAction(s: string): Option<Action>
  {
    if s == Constants.LikeAction then Some(Like)
    else if s == Constants.UnlikeAction then Some(Unlike)
    else if s == Constants.DislikeAction then Some(Dislike)
    else if s == Constants.UndislikeAction then Some(Undislike)
    else None
  }

  /** The two requests a client can send for a target. */
  datatype Reaction = LikeRequest | DislikeRequest

  /**
   * What one request does: the change to the target's like_count and
   * dislike_count, and the action the actor's row ends with. Whether that
   * row is rewritten or inserted depends only on whether a row existed.
   */
  datatype Effect = Effect(likeDelta: int, dislikeDelta: int, action: Action)

  function Ind(b: bool): int
  {
    if b then 1 else 0
  }

  /**
   * The branch structure of LikeThread/DislikeThread and their comment and
   * reply twins. Each counter moves by exactly the change in whether the
   * actor holds that reaction, and the request leaves the actor holding it
   * unless it already did.
   */
  function Transition(r: Reaction, last: Option<Action>): (e: Effect)
    ensures e.likeDelta == Ind(e.action == Like) - Ind(last == Some(Like))
    ensures e.dislikeDelta == Ind(e.action == Dislike) - Ind(last == Some(Dislike))
    ensures e.action == Like <==> (r == LikeRequest && last != Some(Like))
    ensures e.action == Dislike <==> (r == DislikeRequest && last != Some(Dislike))
    ensures r == LikeRequest && last == Some(Like) ==> e.action == Unlike
    ensures r == DislikeRequest && last == Some(Dislike) ==> e.action == Undislike
  {
    match r
    case LikeRequest =>
      if last == Some(Like) then Effect(-1, 0, Unlike)
      else Effect(1, if last == Some(Dislike) then -1 else 0, Like)
    case DislikeRequest =>
      if last == Some(Dislike) then Effect(0, -1, Undislike)
      else Effect(if last == Some(Like) then -1 else 0, 1, Dislike)
  }

  /** Sending the same request twice from a neutral state returns to neutral counts. */
  lemma {:induction false} TransitionTwice(r: Reaction, last: Option<Action>)
    requires last != Some(Like) && last != Some(Dislike)
    ensures var e1 := Transition(r, last); var e2 := Transition(r, Some(e1.action));
            e1.likeDelta + e2.likeDelta == 0 && e1.dislikeDelta + e2.dislikeDelta == 0 &&
            e2.action != Like && e2.action != Dislike
  {
    var e1 := Transition(r, last);
    assert e1.action == (if r == LikeRequest then Like else Dislike);
  }

  /**
   * The response flags set from an action column as the list, detail and
   * comment mappings do: `IsLiked` for "LIKE", `IsDisliked` for "DISLIKE".
   */
  function Flags(stored: string): (f: (bool, bool))
    ensures f.0 <==> ParseAction(stored) == Some(Like)
    ensures f.1 <==> ParseAction(stored) == Some(Dislike)
    ensures !(f.0 && f.1)
  {
    (stored == Constants.LikeAction, stored == Constants.DislikeAction)
  }

  /** Neither flag is raised by "UNLIKE", "UNDISLIKE" or a missing row. */
  lemma FlagsNeutral(stored: string)
    requires stored == "" || ParseAction(stored) == Some(Unlike) || ParseAction(stored) == Some(Undislike)
    ensures Flags(stored) == (false, false)
  {
  }

  /** One activity row: the thread it was recorded under, the parent comment of a reply, the action. */
  datatype Activity = Activity(threadId: string, commentId: Option<string>, action: Action)

  type Ledger = map<(Target, string), seq<Activity>>

  /** The newest row's action for (target, actor), None when there is no row. */
  function LastAction(ledger: Ledger, t: Target, actor: string): (r: Option<Action>)
    ensures r.Some? ==> (t, actor) in ledger && |ledger[(t, actor)]| > 0
  {
    if (t, actor) in ledger && |ledger[(t, actor)]| > 0 then
      var rows := ledger[(t, actor)];
      Some(rows[|rows| - 1].action)
    else None
  }

  /** The actors whose last action on `t` is `a`. */
  function Holders(ledger: Ledger, t: Target, a: Action): set<string>
  {
    set k | k in ledger && k.0 == t && LastAction(ledger, k.0, k.1) == Some(a) :: k.1
  }

  lemma {:induction false} HoldersMember(ledger: Ledger, t: Target, a: Action, actor: string)
    ensures actor in Holders(ledger, t, a) <==> LastAction(ledger, t, actor) == Some(a)
  {
    if LastAction(ledger, t, actor) == Some(a) {
      assert (t, actor) in ledger;
    }
  }

  /** Changing whether one element belongs to a set moves its size by that change alone. */
  lemma {:induction false} CardSwap(before: set<string>, after: set<string>, x: string)
    requires forall y :: y != x ==> (y in after <==> y in before)
    ensures |after| == |before| - Ind(x in before) + Ind(x in after)
  {
    var rest := before - {x};
    assert after - {x} == rest;
    if x in before {
      assert before == rest + {x};
    }
    if x in after {
      assert after == rest + {x};
    }
  }

  /**
   * Giving one actor's rows on `t` a new newest action moves the number of
   * holders of each action by exactly the change for that actor.
   */
  lemma {:induction false} HoldersAfterWrite(ledger: Ledger, t: Target, actor: string, rows: seq<Activity>, a: Action)
    requires |rows| > 0
    ensures |Holders(ledger[(t, actor) := rows], t, a)| == |Holders(ledger, t, a)|
              - Ind(LastAction(ledger, t, actor) == Some(a)) + Ind(rows[|rows| - 1].action == a)
  {
    var l2 := ledger[(t, actor) := rows];
    forall y | y != actor
      ensures y in Holders(l2, t, a) <==> y in Holders(ledger, t, a)
    {
      HoldersMember(ledger, t, a, y);
      HoldersMember(l2, t, a, y);
    }
    HoldersMember(ledger, t, a, actor);
    HoldersMember(l2, t, a, actor);
    CardSwap(Holders(ledger, t, a), Holders(l2, t, a), actor);
  }

  /** Writing one actor's rows on `t` leaves every other target's holders alone. */
  lemma {:induction false} HoldersElsewhere(ledger: Ledger, t: Target, actor: string, rows: seq<Activity>, u: Target, a: Action)
    requires u != t
    ensures Holders(ledger[(t, actor) := rows], u, a) == Holders(ledger, u, a)
  {
    forall x
      ensures x in Holders(ledger[(t, actor) := rows], u, a) <==> x in Holders(ledger, u, a)
    {
      HoldersMember(ledger, u, a, x);
      HoldersMember(ledger[(t, actor) := rows], u, a, x);
    }
  }

  /** The like and dislike columns of one target. */
  datatype Counter = Counter(likes: int, dislikes: int)

  /**
   * The denormalised counters agree with the ledger: every counted target's
   * like_count is its number of LIKE holders and its dislike_count its
   * number of DISLIKE holders.
   */
  predicate Counted(counters: map<Target, Counter>, ledger: Ledger)
  {
    forall t :: t in counters ==>
      counters[t].likes == |Holders(ledger, t, Like)| && counters[t].dislikes == |Holders(ledger, t, Dislike)|
  }

  /** Counters that agree with a ledger are never negative. */
  lemma CountedNonNegative(counters: map<Target, Counter>, ledger: Ledger, t: Target)
    requires Counted(counters, ledger) && t in counters
    ensures counters[t].likes >= 0 && counters[t].dislikes >= 0
  {
  }

  /** The counter row after applying an effect, as the SQL `SET x = x ± 1` statements do. */
  function Apply(counters: map<Target, Counter>, t: Target, e: Effect): map<Target, Counter>
  {
    if t in counters then
      counters[t := Counter(counters[t].likes + e.likeDelta, counters[t].dislikes + e.dislikeDelta)]
    else counters
  }

  /** Only an effect's deltas matter to the counters, and two effects in a row add up. */
  lemma {:induction false} ApplyDeltas(counters: map<Target, Counter>, t: Target, e1: Effect, e2: Effect, e: Effect)
    requires e.likeDelta == e1.likeDelta + e2.likeDelta && e.dislikeDelta == e1.dislikeDelta + e2.dislikeDelta
    ensures Apply(Apply(counters, t, e1), t, e2) == Apply(counters, t, e)
  {
  }

  lemma {:induction false} ApplySameDeltas(counters: map<Target, Counter>, t: Target, e1: Effect, e: Effect)
    requires e.likeDelta == e1.likeDelta && e.dislikeDelta == e1.dislikeDelta
    ensures Apply(counters, t, e1) == Apply(counters, t, e)
  {
  }

  /**
   * A toggle keeps counters and ledger in agreement: applying the
   * transition's deltas to the counters while the actor's rows get the
   * transition's action.
   */
  lemma {:induction false} ToggleKeepsCounted(counters: map<Target, Counter>, ledger: Ledger, t: Target, actor: string,
                                              r: Reaction, rows: seq<Activity>)
    requires Counted(counters, ledger)
    requires |rows| > 0 && rows[|rows| - 1].action == Transition(r, LastAction(ledger, t, actor)).action
    ensures Counted(Apply(counters, t, Transition(r, LastAction(ledger, t, actor))), ledger[(t, actor) := rows])
  {
    var e := Transition(r, LastAction(ledger, t, actor));
    var c2 := Apply(counters, t, e);
    var l2 := ledger[(t, actor) := rows];
    HoldersAfterWrite(ledger, t, actor, rows, Like);
    HoldersAfterWrite(ledger, t, actor, rows, Dislike);
    forall u | u in c2
      ensures c2[u].likes == |Holders(l2, u, Like)| && c2[u].dislikes == |Holders(l2, u, Dislike)|
    {
      if u != t {
        HoldersElsewhere(ledger, t, actor, rows, u, Like);
        HoldersElsewhere(ledger, t, actor, rows, u, Dislike);
      }
    }
  }

  /** A target that nobody has reacted to can be counted from zero. */
  lemma {:induction false} FreshTargetCounted(counters: map<Target, Counter>, ledger: Ledger, t: Target)
    requires Counted(counters, ledger)
    requires forall k :: k in ledger ==> k.0 != t
    ensures Counted(counters[t := Counter(0, 0)], ledger)
  {
    forall a
      ensures Holders(ledger, t, a) == {}
    {
      forall x
        ensures x !in Holders(ledger, t, a)
      {
        HoldersMember(ledger, t, a, x);
      }
    }
  }
}
