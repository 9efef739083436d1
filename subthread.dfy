/**
 * Subthreads and their followers: internal/repository/subthread.go and
 * internal/service/subthread.go.
 *
 * `subthread` rows are soft-deleted: the lookups by id and by name and the
 * listing never see a deleted row, while the raw `followers_count`
 * updates still reach it. `subthread_follower` holds one row per (user,
 * subthread) pair, with its `is_following` flag.
 */
module SubThreads {
  import opened Wrappers
  import opened ResponseCode
  import opened Common
  import opened Pagination
  import Reactions

  datatype SubThread = SubThread(name: string, description: string, imageUrl: string, labelColor: string,
                                 universityId: Option<string>, isUniversity: bool, followersCount: int, deleted: bool)

  datatype Follower = Follower(id: string, isFollowing: bool)

  type Followers = map<(string, string), Follower>

  /** The users following subthread `sid`. */
  function FollowingUsers(followers: Followers, sid: string): set<string>
  {
    set k | k in followers && k.1 == sid && followers[k].isFollowing :: k.0
  }

  lemma {:induction false} FollowingMember(followers: Followers, sid: string, u: string)
    ensures u in FollowingUsers(followers, sid) <==> (u, sid) in followers && followers[(u, sid)].isFollowing
  {
    if (u, sid) in followers && followers[(u, sid)].isFollowing {
      assert (u, sid).0 == u;
    }
  }

  predicate IsFollowing(followers: Followers, u: string, sid: string)
  {
    (u, sid) in followers && followers[(u, sid)].isFollowing
  }

  /**
   * `followers_count` of every subthread row, deleted or not, is the number
   * of users following it.
   */
  ghost predicate FollowCounted(subthreads: map<string, SubThread>, followers: Followers)
  {
    forall id :: id in subthreads ==> subthreads[id].followersCount == |FollowingUsers(followers, id)|
  }

  /** Counts that agree with the follower rows are never negative. */
  lemma FollowCountNonNegative(subthreads: map<string, SubThread>, followers: Followers, id: string)
    requires FollowCounted(subthreads, followers) && id in subthreads
    ensures subthreads[id].followersCount >= 0
  {
  }

  /** `UPDATE subthread SET followers_count = followers_count + delta WHERE id = ?`. */
  function Bump(subthreads: map<string, SubThread>, id: string, delta: int): map<string, SubThread>
  {
    if id in subthreads then subthreads[id := subthreads[id].(followersCount := subthreads[id].followersCount + delta)]
    else subthreads
  }

  /**
   * Writing one follower row while the subthread's count moves by the change
   * in that user's following keeps every count equal to its followers.
   */
  lemma {:induction false} FollowKeepsCounted(subthreads: map<string, SubThread>, followers: Followers,
                                              u: string, sid: string, row: Follower)
    requires FollowCounted(subthreads, followers)
    ensures FollowCounted(Bump(subthreads, sid, Reactions.Ind(row.isFollowing) - Reactions.Ind(IsFollowing(followers, u, sid))),
                          followers[(u, sid) := row])
  {
    var f2 := followers[(u, sid) := row];
    var s2 := Bump(subthreads, sid, Reactions.Ind(row.isFollowing) - Reactions.Ind(IsFollowing(followers, u, sid)));
    forall y | y != u
      ensures y in FollowingUsers(f2, sid) <==> y in FollowingUsers(followers, sid)
    {
      FollowingMember(followers, sid, y);
      FollowingMember(f2, sid, y);
    }
    FollowingMember(followers, sid, u);
    FollowingMember(f2, sid, u);
    Reactions.CardSwap(FollowingUsers(followers, sid), FollowingUsers(f2, sid), u);
    forall id | id in s2 && id != sid
      ensures s2[id].followersCount == |FollowingUsers(f2, id)|
    {
      forall x
        ensures x in FollowingUsers(f2, id) <==> x in FollowingUsers(followers, id)
      {
        FollowingMember(followers, id, x);
        FollowingMember(f2, id, x);
      }
      assert FollowingUsers(f2, id) == FollowingUsers(followers, id);
      assert s2[id] == subthreads[id];
    }
  }

  /** A subthread nobody has a follower row for can be counted from zero. */
  lemma {:induction false} FreshSubThreadCounted(subthreads: map<string, SubThread>, followers: Followers,
                                                 id: string, st: SubThread)
    requires FollowCounted(subthreads, followers)
    requires st.followersCount == 0 && forall k :: k in followers ==> k.1 != id
    ensures FollowCounted(subthreads[id := st], followers)
  {
    forall x
      ensures x !in FollowingUsers(followers, id)
    {
      FollowingMember(followers, id, x);
    }
    assert FollowingUsers(followers, id) == {};
  }

  /** GetByID: the row, unless there is none or it is deleted. */
  predicate Live(subthreads: map<string, SubThread>, id: string)
  {
    id in subthreads && !subthreads[id].deleted
  }

  /** GetByName finds a row: some live subthread has that name. */
  predicate NameTaken(subthreads: map<string, SubThread>, name: string)
  {
    exists id :: id in subthreads && !subthreads[id].deleted && subthreads[id].name == name
  }

  /**
   * The `updateValues` UpdateSubThread writes: the four text fields always,
   * `university_id` only when given and non-empty, `is_university_subthread`
   * only when given.
   */
  function Edited(st: SubThread, name: string, description: string, imageUrl: string, labelColor: string,
                  universityId: Option<string>, isUniversity: Option<bool>): (e: SubThread)
    ensures e.name == name && e.description == description && e.imageUrl == imageUrl && e.labelColor == labelColor
    ensures e.universityId == (if universityId.Some? && universityId.value != "" then universityId else st.universityId)
    ensures e.isUniversity == (if isUniversity.Some? then isUniversity.value else st.isUniversity)
    ensures e.followersCount == st.followersCount && e.deleted == st.deleted
  {
    var e := st.(name := name, description := description, imageUrl := imageUrl, labelColor := labelColor);
    var e := if universityId.Some? && universityId.value != "" then e.(universityId := universityId) else e;
    if isUniversity.Some? then e.(isUniversity := isUniversity.value) else e
  }

  /** An edit with nothing optional given keeps the university link and flag. */
  lemma {:induction false} EditKeepsUniversity(st: SubThread, name: string, description: string, imageUrl: string,
                                               labelColor: string, universityId: Option<string>)
    requires universityId == None || universityId == Some("")
    ensures var e := Edited(st, name, description, imageUrl, labelColor, universityId, None);
            e.universityId == st.universityId && e.isUniversity == st.isUniversity &&
            e == st.(name := name, description := description, imageUrl := imageUrl, labelColor := labelColor)
  {
    var e := Edited(st, name, description, imageUrl, labelColor, universityId, None);
    assert e.universityId == st.universityId;
  }

  class SubThreadRepository {
    var subthreads: map<string, SubThread>
    var followers: Followers

    /** Every subthread's followers_count is its number of followers. */
    ghost predicate Valid()
      reads this
    {
      FollowCounted(subthreads, followers)
    }

    constructor()
      ensures Valid() && subthreads == map[] && followers == map[]
    {
      subthreads, followers := map[], map[];
    }

    /** IncrementFollowersCountTx / DecrementFollowersCountTx: raw SQL, deleted rows included. */
    method AddToFollowersCount(id: string, delta: int)
      requires delta == 1 || delta == -1
      modifies this
      ensures subthreads == Bump(old(subthreads), id, delta)
      ensures id in old(subthreads) ==> subthreads[id].followersCount == old(subthreads)[id].followersCount + delta
      ensures subthreads.Keys == old(subthreads).Keys && followers == old(followers)
    {
      if id in subthreads {
        var st := subthreads[id];
        subthreads := subthreads[id := st.(followersCount := st.followersCount + delta)];
      }
    }

    /** Save: a new row under a fresh id. */
    method Save(id: string, st: SubThread)
      requires id !in subthreads
      modifies this
      ensures subthreads == old(subthreads)[id := st] && followers == old(followers)
    {
      subthreads := subthreads[id := st];
    }

    /** UpdateByID and DeleteByID: `UPDATE subthread SET ... WHERE id = ?` on an existing row. */
    method Put(id: string, st: SubThread)
      requires id in subthreads
      modifies this
      ensures subthreads == old(subthreads)[id := st] && followers == old(followers)
    {
      subthreads := subthreads[id := st];
    }

    /**
     * SaveSubThreadFollowerTx, and UpdateSubThreadFollowerIsFollowingTx on the
     * row the lookup returned (its id is the row stored for the pair).
     */
    method PutFollower(u: string, sid: string, f: Follower)
      modifies this
      ensures followers == old(followers)[(u, sid) := f] && subthreads == old(subthreads)
    {
      followers := followers[(u, sid) := f];
    }
  }

  class SubThreadService {
    const repo: SubThreadRepository

    constructor(repo: SubThreadRepository)
      ensures this.repo == repo
    {
      this.repo := repo;
    }

    /**
     * CreateSubThread: BadRequest, writing nothing, when a live subthread
     * already has the name; otherwise one new row with no followers.
     */
    method CreateSubThread(id: string, name: string, description: string, imageUrl: string, labelColor: string,
                           universityId: Option<string>, isUniversity: bool) returns (res: Outcome)
      requires repo.Valid()
      requires id !in repo.subthreads && forall k :: k in repo.followers ==> k.1 != id
      modifies repo
      ensures repo.Valid()
      ensures res.Fail? <==> NameTaken(old(repo.subthreads), name)
      ensures res.Fail? ==> res.failure == Failure(BadRequest, "Subthread already exists") && unchanged(repo)
      ensures res.Done? ==>
                repo.subthreads == old(repo.subthreads)[id := SubThread(name, description, imageUrl, labelColor,
                                                                         universityId, isUniversity, 0, false)]
      ensures repo.followers == old(repo.followers)
    {
      if NameTaken(repo.subthreads, name) {
        return Fail(Failure(BadRequest, "Subthread already exists"));
      }
      var st := SubThread(name, description, imageUrl, labelColor, universityId, isUniversity, 0, false);
      FreshSubThreadCounted(repo.subthreads, repo.followers, id, st);
      repo.Save(id, st);
      res := Done;
    }

    /**
     * UpdateSubThread: NotFound before any write when the subthread is
     * missing or deleted; otherwise the row takes the edit.
     */
    method UpdateSubThread(id: string, name: string, description: string, imageUrl: string, labelColor: string,
                           universityId: Option<string>, isUniversity: Option<bool>) returns (res: Outcome)
      requires repo.Valid()
      modifies repo
      ensures repo.Valid()
      ensures res.Fail? <==> !Live(old(repo.subthreads), id)
      ensures res.Fail? ==> res.failure == Failure(NotFound, "SubThread not found") && unchanged(repo)
      ensures res.Done? ==>
                repo.subthreads == old(repo.subthreads)[id := Edited(old(repo.subthreads)[id], name, description, imageUrl,
                                                                       labelColor, universityId, isUniversity)]
      ensures repo.followers == old(repo.followers)
    {
      if !Live(repo.subthreads, id) {
        return Fail(Failure(NotFound, "SubThread not found"));
      }
      var st := Edited(repo.subthreads[id], name, description, imageUrl, labelColor, universityId, isUniversity);
      repo.Put(id, st);
      res := Done;
    }

    /** DeleteSubThread: the same NotFound; otherwise the row is marked deleted, its count kept. */
    method DeleteSubThread(id: string) returns (res: Outcome)
      requires repo.Valid()
      modifies repo
      ensures repo.Valid()
      ensures res.Fail? <==> !Live(old(repo.subthreads), id)
      ensures res.Fail? ==> res.failure == Failure(NotFound, "SubThread not found") && unchanged(repo)
      ensures res.Done? ==> repo.subthreads == old(repo.subthreads)[id := old(repo.subthreads)[id].(deleted := true)]
      ensures res.Done? ==> !Live(repo.subthreads, id)
      ensures repo.followers == old(repo.followers)
    {
      if !Live(repo.subthreads, id) {
        return Fail(Failure(NotFound, "SubThread not found"));
      }
      repo.Put(id, repo.subthreads[id].(deleted := true));
      res := Done;
    }

    /**
     * FollowSubThread: nothing happens when the user already follows;
     * otherwise the count rises by one and the pair's row, updated or newly
     * inserted with `newId`, ends following. The subthread is not looked up.
     */
    method FollowSubThread(sid: string, u: string, newId: string)
      requires repo.Valid()
      modifies repo
      ensures repo.Valid()
      ensures IsFollowing(repo.followers, u, sid)
      ensures IsFollowing(old(repo.followers), u, sid) ==> unchanged(repo)
      ensures !IsFollowing(old(repo.followers), u, sid) ==>
                repo.subthreads == Bump(old(repo.subthreads), sid, 1) &&
                repo.followers == old(repo.followers)[(u, sid) :=
                  if (u, sid) in old(repo.followers) then old(repo.followers)[(u, sid)].(isFollowing := true)
                  else Follower(newId, true)]
    {
      var key := (u, sid);
      if key in repo.followers && repo.followers[key].isFollowing {
        return;
      }
      var row := if key in repo.followers then repo.followers[key].(isFollowing := true) else Follower(newId, true);
      FollowKeepsCounted(repo.subthreads, repo.followers, u, sid, row);
      repo.AddToFollowersCount(sid, 1);
      repo.PutFollower(u, sid, row);
    }

    /**
     * UnFollowSubThread: NotFound when the pair has no row; nothing happens
     * when it is not following; otherwise the count drops by one and the
     * row stops following.
     */
    method UnFollowSubThread(sid: string, u: string) returns (res: Outcome)
      requires repo.Valid()
      modifies repo
      ensures repo.Valid()
      ensures res.Fail? <==> (u, sid) !in old(repo.followers)
      ensures res.Fail? ==> res.failure == Failure(NotFound, "Subthread follower not found") && unchanged(repo)
      ensures res.Done? && !IsFollowing(old(repo.followers), u, sid) ==> unchanged(repo)
      ensures IsFollowing(old(repo.followers), u, sid) ==>
                repo.subthreads == Bump(old(repo.subthreads), sid, -1) &&
                repo.followers == old(repo.followers)[(u, sid) := old(repo.followers)[(u, sid)].(isFollowing := false)]
      ensures !IsFollowing(repo.followers, u, sid)
    {
      var key := (u, sid);
      if key !in repo.followers {
        return Fail(Failure(NotFound, "Subthread follower not found"));
      }
      var stf := repo.followers[key];
      if !stf.isFollowing {
        return Done;
      }
      FollowKeepsCounted(repo.subthreads, repo.followers, u, sid, stf.(isFollowing := false));
      repo.AddToFollowersCount(sid, -1);
      repo.PutFollower(u, sid, stf.(isFollowing := false));
      res := Done;
    }
  }

  /** The request flags of the subthread listing. */
  datatype ListFilter = ListFilter(includeUniversity: bool, isFollowing: bool, excludeFollowing: bool, userId: string)

  /**
   * The WHERE clauses of GetList, the soft-delete filter included:
   * university subthreads only when asked for, only followed ones under
   * `isFollowing`, only unfollowed ones under `excludeFollowing`.
   */
  predicate Listed(f: ListFilter, followers: Followers, r: Row<SubThread>)
  {
    !r.item.deleted &&
    (f.includeUniversity || !r.item.isUniversity) &&
    (f.isFollowing ==> IsFollowing(followers, f.userId, r.id)) &&
    (f.excludeFollowing ==> !IsFollowing(followers, f.userId, r.id))
  }

  function Visible(rows: seq<Row<SubThread>>, followers: Followers, f: ListFilter): (v: seq<Row<SubThread>>)
    ensures |v| <= |rows|
  {
    if |rows| == 0 then []
    else (if Listed(f, followers, rows[0]) then [rows[0]] else []) + Visible(rows[1..], followers, f)
  }

  /** The listing shows exactly the rows that pass its filters, keeping the table's order and distinct ids. */
  lemma {:induction false} VisibleRows(rows: seq<Row<SubThread>>, followers: Followers, f: ListFilter)
    ensures forall x :: x in Visible(rows, followers, f) <==> x in rows && Listed(f, followers, x)
    ensures SortedDesc(rows) ==> SortedDesc(Visible(rows, followers, f))
    ensures IdsFree(rows) ==> IdsFree(Visible(rows, followers, f))
    decreases |rows|
  {
    if |rows| > 0 {
      var tail := rows[1..];
      VisibleRows(tail, followers, f);
      var v := Visible(rows, followers, f);
      var vt := Visible(tail, followers, f);
      assert forall x :: x in rows <==> x == rows[0] || x in tail;
      if SortedDesc(rows) {
        assert SortedDesc(tail);
        forall x | x in vt
          ensures PosLt(Pos(x), Pos(rows[0]))
        {
          var j :| 0 <= j < |tail| && tail[j] == x;
          assert rows[j + 1] == x;
        }
        if Listed(f, followers, rows[0]) {
          forall i, j | 0 <= i < j < |v|
            ensures PosLt(Pos(v[j]), Pos(v[i]))
          {
            assert v[j] == vt[j - 1] && v[j] in vt;
            if i > 0 {
              assert v[i] == vt[i - 1];
            }
          }
        }
      }
      if IdsFree(rows) {
        forall i | 0 <= i < |v|
          ensures '_' !in v[i].id
        {
          assert v[i] in rows;
        }
      }
    }
  }

  /**
   * GetList: the rows that pass the filters, paged by (created_at, id).
   * Both follower flags at once join `subthread_follower` twice under the
   * alias `stf`, which the database refuses.
   */
  method GetList(table: seq<Row<SubThread>>, followers: Followers, f: ListFilter, limit: nat, cursor: string)
    returns (res: Option<ListPage<SubThread>>)
    requires cursor == "" || '_' in cursor
    ensures f.isFollowing && f.excludeFollowing ==> res.None?
    ensures !(f.isFollowing && f.excludeFollowing) ==> res == Page(Visible(table, followers, f), Recency, PairSeek, limit, cursor)
  {
    if f.isFollowing && f.excludeFollowing {
      return None;
    }
    res := GetPage(Visible(table, followers, f), Recency, PairSeek, limit, cursor);
  }

  /** Following the cursors of the subthread listing yields every listed subthread once, in order. */
  lemma {:induction false} GetListWalk(table: seq<Row<SubThread>>, followers: Followers, f: ListFilter, limit: nat)
    requires SortedDesc(table) && IdsFree(table) && limit > 0
    ensures var v := Visible(table, followers, f);
            Walk(v, Recency, PairSeek, limit, |v| + 1) == Some(v)
  {
    VisibleRows(table, followers, f);
    WalkVisitsEachRowOnce(Visible(table, followers, f), Recency, limit);
  }
}
