/**
 * University ratings: the `university_rating` and `university_rating_point`
 * tables of internal/repository/university.go and the rating operations of
 * internal/service/university.go.
 *
 * A rating keeps the integer `totalRating`, the sum of its five
 * sub-ratings; the stored `overall_rating` is that sum over 5 as a float
 * and is not modelled. Points are kept in insertion order, and a rating's
 * points are read back in that order.
 */
module Universities {
  import opened Wrappers
  import opened ResponseCode
  import Constants
  import opened Users
  import opened Pagination

  datatype Scores = Scores(facility: int, priceToValue: int, educationQuality: int,
                           studentOrganization: int, socialEnvironment: int)

  /** totalRating: the sum of the five sub-ratings. */
  function Total(s: Scores): int
  {
    s.facility + s.priceToValue + s.educationQuality + s.studentOrganization + s.socialEnvironment
  }

  datatype Rating = Rating(id: string, userId: string, universityId: string, title: string, content: string,
                           major: string, scores: Scores, totalRating: int, createdBy: string, updatedBy: string)

  datatype Point = Point(ratingId: string, kind: string, content: string)

  lemma ProIsNotCon()
    ensures Constants.UniRatingPro != Constants.UniRatingCon
  {
    assert Constants.UniRatingPro[0] != Constants.UniRatingCon[0];
  }

  // ---------------------------------------------------------------- checks

  /**
   * The checks shared by create and update, in order: the user exists,
   * belongs to a university, and to this one. On success, the user's index.
   */
  function CheckRater(users: seq<User>, userId: string, universityId: string): (r: Result<nat, Failure>)
    ensures r.Ok? <==> FindById(users, userId).Some? && users[FindById(users, userId).value].universityId == Some(universityId)
    ensures r.Ok? ==> r.value == FindById(users, userId).value
    ensures FindById(users, userId).None? ==> r == Err(Failure(NotFound, "User not found"))
    ensures FindById(users, userId).Some? && users[FindById(users, userId).value].universityId.None? ==>
              r == Err(Failure(BadRequest, "User does not belong to any university"))
    ensures FindById(users, userId).Some? && users[FindById(users, userId).value].universityId.Some? &&
            users[FindById(users, userId).value].universityId != Some(universityId) ==>
              r == Err(Failure(BadRequest, "User does not belong to this university"))
  {
    match FindById(users, userId)
    case None => Err(Failure(NotFound, "User not found"))
    case Some(i) =>
      if users[i].universityId.None? then Err(Failure(BadRequest, "User does not belong to any university"))
      else if users[i].universityId.value != universityId then Err(Failure(BadRequest, "User does not belong to this university"))
      else Ok(i)
  }

  /** GetUniversityRatingByUserIDAndUniversityID: the first rating of the user for the university. */
  function FindRating(ratings: seq<Rating>, userId: string, universityId: string): (r: Option<nat>)
    ensures r.Some? ==> r.value < |ratings| && ratings[r.value].userId == userId && ratings[r.value].universityId == universityId
    ensures r.None? ==> forall j :: 0 <= j < |ratings| ==> !(ratings[j].userId == userId && ratings[j].universityId == universityId)
    decreases |ratings|
  {
    if |ratings| == 0 then None
    else if ratings[0].userId == userId && ratings[0].universityId == universityId then Some(0)
    else match FindRating(ratings[1..], userId, universityId)
      case None => None
      case Some(i) => Some(i + 1)
  }

  /** CreateUniversityRating's checks: the rater checks, then "no rating yet". */
  function CreateCheck(users: seq<User>, ratings: seq<Rating>, userId: string, universityId: string): (r: Result<(), Failure>)
    ensures r.Ok? <==> CheckRater(users, userId, universityId).Ok? && FindRating(ratings, userId, universityId).None?
    ensures CheckRater(users, userId, universityId).Err? ==> r == Err(CheckRater(users, userId, universityId).error)
    ensures CheckRater(users, userId, universityId).Ok? && FindRating(ratings, userId, universityId).Some? ==>
              r == Err(Failure(BadRequest, "University rating already exists"))
  {
    var c := CheckRater(users, userId, universityId);
    if c.Err? then Err(c.error)
    else if FindRating(ratings, userId, universityId).Some? then Err(Failure(BadRequest, "University rating already exists"))
    else Ok(())
  }

  /**
   * UpdateUniversityRating's checks and the rating it should rewrite: the
   * rater checks, then the caller's own rating for the university.
   */
  function UpdateTarget(users: seq<User>, ratings: seq<Rating>, userId: string, universityId: string): (r: Result<nat, Failure>)
    ensures r.Ok? <==> CheckRater(users, userId, universityId).Ok? && FindRating(ratings, userId, universityId).Some?
    ensures r.Ok? ==> r.value < |ratings| && ratings[r.value].userId == userId && ratings[r.value].universityId == universityId
    ensures CheckRater(users, userId, universityId).Err? ==> r == Err(CheckRater(users, userId, universityId).error)
    ensures CheckRater(users, userId, universityId).Ok? && FindRating(ratings, userId, universityId).None? ==>
              r == Err(Failure(NotFound, "User university rating not found"))
  {
    var c := CheckRater(users, userId, universityId);
    if c.Err? then Err(c.error)
    else match FindRating(ratings, userId, universityId)
      case None => Err(Failure(NotFound, "User university rating not found"))
      case Some(k) => Ok(k)
  }

  /**
   * The rating UpdateUniversityRating rewrites as written: after the same
   * checks, the id from the URL, whoever owns that rating.
   */
  function UpdateTargetAsWritten(users: seq<User>, ratings: seq<Rating>, userId: string, universityId: string,
                                 urlRatingId: string): (r: Result<string, Failure>)
    ensures r.Err? <==> UpdateTarget(users, ratings, userId, universityId).Err?
    ensures r.Err? ==> r.error == UpdateTarget(users, ratings, userId, universityId).error
  {
    var t := UpdateTarget(users, ratings, userId, universityId);
    if t.Err? then Err(t.error) else Ok(urlRatingId)
  }

  // ---------------------------------------------------------------- points

  /** The points of one kind for a rating, in the given order. */
  function Tagged(ratingId: string, kind: string, xs: seq<string>): (r: seq<Point>)
    ensures |r| == |xs|
    ensures forall i :: 0 <= i < |xs| ==> r[i] == Point(ratingId, kind, xs[i])
  {
    seq(|xs|, i requires 0 <= i < |xs| => Point(ratingId, kind, xs[i]))
  }

  /** The points create and update insert: every pro, then every con. */
  function PointsOf(ratingId: string, pros: seq<string>, cons: seq<string>): seq<Point>
  {
    Tagged(ratingId, Constants.UniRatingPro, pros) + Tagged(ratingId, Constants.UniRatingCon, cons)
  }

  /** The point-building loops of create and update. */
  method BuildPoints(ratingId: string, pros: seq<string>, cons: seq<string>) returns (points: seq<Point>)
    ensures points == PointsOf(ratingId, pros, cons)
    ensures |points| == |pros| + |cons|
  {
    points := [];
    for i := 0 to |pros|
      invariant points == Tagged(ratingId, Constants.UniRatingPro, pros[..i])
    {
      points := points + [Point(ratingId, Constants.UniRatingPro, pros[i])];
    }
    assert pros[..|pros|] == pros;
    ghost var prosPart := points;
    for j := 0 to |cons|
      invariant points == prosPart + Tagged(ratingId, Constants.UniRatingCon, cons[..j])
    {
      points := points + [Point(ratingId, Constants.UniRatingCon, cons[j])];
    }
    assert cons[..|cons|] == cons;
  }

  /** The contents of the points of one kind, in order: the response's `pros` or `cons`. */
  function Contents(points: seq<Point>, kind: string): (r: seq<string>)
    ensures |r| <= |points|
    decreases |points|
  {
    if |points| == 0 then []
    else Contents(points[..|points| - 1], kind) +
         (if points[|points| - 1].kind == kind then [points[|points| - 1].content] else [])
  }

  /** A content is listed exactly when some point of that kind carries it. */
  lemma {:induction false} ContentsMembers(points: seq<Point>, kind: string)
    ensures forall c :: c in Contents(points, kind) <==>
              exists i :: 0 <= i < |points| && points[i].kind == kind && points[i].content == c
    decreases |points|
  {
    if |points| > 0 {
      var init := points[..|points| - 1];
      ContentsMembers(init, kind);
      assert forall i :: 0 <= i < |init| ==> init[i] == points[i];
    }
  }

  lemma {:induction false} ContentsAppend(a: seq<Point>, b: seq<Point>, kind: string)
    ensures Contents(a + b, kind) == Contents(a, kind) + Contents(b, kind)
    decreases |b|
  {
    if |b| == 0 {
      assert a + b == a;
    } else {
      var n := |b| - 1;
      assert (a + b)[..|a + b| - 1] == a + b[..n];
      ContentsAppend(a, b[..n], kind);
    }
  }

  lemma {:induction false} ContentsTagged(ratingId: string, kind: string, xs: seq<string>, k: string)
    ensures Contents(Tagged(ratingId, kind, xs), k) == if kind == k then xs else []
    decreases |xs|
  {
    if |xs| > 0 {
      var n := |xs| - 1;
      assert Tagged(ratingId, kind, xs)[..n] == Tagged(ratingId, kind, xs[..n]);
      ContentsTagged(ratingId, kind, xs[..n], k);
      assert xs[..n] + [xs[n]] == xs;
    }
  }

  lemma {:induction false} ContentsPointsOf(ratingId: string, pros: seq<string>, cons: seq<string>, k: string)
    ensures Contents(PointsOf(ratingId, pros, cons), k) ==
              (if k == Constants.UniRatingPro then pros else []) + (if k == Constants.UniRatingCon then cons else [])
  {
    var p := Tagged(ratingId, Constants.UniRatingPro, pros);
    var c := Tagged(ratingId, Constants.UniRatingCon, cons);
    ProIsNotCon();
    ContentsAppend(p, c, k);
    ContentsTagged(ratingId, Constants.UniRatingPro, pros, k);
    ContentsTagged(ratingId, Constants.UniRatingCon, cons, k);
    if k == Constants.UniRatingPro {
      assert Contents(c, k) == [];
    } else if k == Constants.UniRatingCon {
      assert Contents(p, k) == [];
    } else {
      assert Contents(p, k) == [] && Contents(c, k) == [];
    }
  }

  /** Reading back the points a request stored gives its pros and its cons. */
  lemma {:induction false} PartitionRoundTrip(ratingId: string, pros: seq<string>, cons: seq<string>)
    ensures Contents(PointsOf(ratingId, pros, cons), Constants.UniRatingPro) == pros
    ensures Contents(PointsOf(ratingId, pros, cons), Constants.UniRatingCon) == cons
  {
    ProIsNotCon();
    ContentsPointsOf(ratingId, pros, cons, Constants.UniRatingPro);
    ContentsPointsOf(ratingId, pros, cons, Constants.UniRatingCon);
    assert pros + [] == pros;
    assert [] + cons == cons;
  }

  /** The loop of mapUniversityRatingListData/DetailData over one rating's points. */
  method MapRatingPoints(points: seq<Point>) returns (pros: seq<string>, cons: seq<string>)
    ensures pros == Contents(points, Constants.UniRatingPro)
    ensures cons == Contents(points, Constants.UniRatingCon)
  {
    ProIsNotCon();
    pros, cons := [], [];
    for i := 0 to |points|
      invariant pros == Contents(points[..i], Constants.UniRatingPro)
      invariant cons == Contents(points[..i], Constants.UniRatingCon)
    {
      assert points[..i + 1][..i] == points[..i];
      if points[i].kind == Constants.UniRatingPro {
        pros := pros + [points[i].content];
        continue;
      }
      if points[i].kind == Constants.UniRatingCon {
        cons := cons + [points[i].content];
        continue;
      }
    }
    assert points[..|points|] == points;
  }

  /** The points of one rating, in stored order (the `UniversityRatingPoints` relation). */
  function PointsFor(points: seq<Point>, ratingId: string): (r: seq<Point>)
    ensures |r| <= |points|
    decreases |points|
  {
    if |points| == 0 then []
    else PointsFor(points[..|points| - 1], ratingId) +
         (if points[|points| - 1].ratingId == ratingId then [points[|points| - 1]] else [])
  }

  lemma {:induction false} PointsForAppend(a: seq<Point>, b: seq<Point>, ratingId: string)
    ensures PointsFor(a + b, ratingId) == PointsFor(a, ratingId) + PointsFor(b, ratingId)
    decreases |b|
  {
    if |b| == 0 {
      assert a + b == a;
    } else {
      var n := |b| - 1;
      assert (a + b)[..|a + b| - 1] == a + b[..n];
      PointsForAppend(a, b[..n], ratingId);
    }
  }

  /** A table with no point of a rating reads back none for it. */
  lemma {:induction false} PointsForAbsent(points: seq<Point>, ratingId: string)
    requires forall i :: 0 <= i < |points| ==> points[i].ratingId != ratingId
    ensures PointsFor(points, ratingId) == []
    decreases |points|
  {
    if |points| > 0 {
      PointsForAbsent(points[..|points| - 1], ratingId);
    }
  }

  lemma {:induction false} PointsForTagged(ratingId: string, kind: string, xs: seq<string>, r: string)
    ensures PointsFor(Tagged(ratingId, kind, xs), r) == if r == ratingId then Tagged(ratingId, kind, xs) else []
    decreases |xs|
  {
    if |xs| > 0 {
      var n := |xs| - 1;
      assert Tagged(ratingId, kind, xs)[..n] == Tagged(ratingId, kind, xs[..n]);
      PointsForTagged(ratingId, kind, xs[..n], r);
    }
  }

  /** A request's points belong to its rating alone. */
  lemma {:induction false} PointsForPointsOf(ratingId: string, pros: seq<string>, cons: seq<string>, r: string)
    ensures PointsFor(PointsOf(ratingId, pros, cons), r) == if r == ratingId then PointsOf(ratingId, pros, cons) else []
  {
    var p := Tagged(ratingId, Constants.UniRatingPro, pros);
    var c := Tagged(ratingId, Constants.UniRatingCon, cons);
    PointsForAppend(p, c, r);
    PointsForTagged(ratingId, Constants.UniRatingPro, pros, r);
    PointsForTagged(ratingId, Constants.UniRatingCon, cons, r);
  }

  /** DeleteUniversityRatingPointsTx: `DELETE ... WHERE university_rating_id = ?`. */
  function Without(points: seq<Point>, ratingId: string): (r: seq<Point>)
    ensures |r| <= |points|
    decreases |points|
  {
    if |points| == 0 then []
    else Without(points[..|points| - 1], ratingId) +
         (if points[|points| - 1].ratingId != ratingId then [points[|points| - 1]] else [])
  }

  /**
   * The delete removes every point of the rating and no other: each other
   * rating reads back the same points in the same order.
   */
  lemma {:induction false} WithoutPointsFor(points: seq<Point>, ratingId: string, r: string)
    ensures PointsFor(Without(points, ratingId), r) == if r == ratingId then [] else PointsFor(points, r)
    decreases |points|
  {
    if |points| > 0 {
      var n := |points| - 1;
      var p := points[n];
      var init := points[..n];
      WithoutPointsFor(init, ratingId, r);
      assert PointsFor(points, r) == PointsFor(init, r) + (if p.ratingId == r then [p] else []);
      if p.ratingId != ratingId {
        assert Without(points, ratingId) == Without(init, ratingId) + [p];
        PointsForAppend(Without(init, ratingId), [p], r);
        PointsForOne(p, r);
      } else {
        assert Without(points, ratingId) == Without(init, ratingId);
      }
    }
  }

  lemma PointsForOne(p: Point, r: string)
    ensures PointsFor([p], r) == if p.ratingId == r then [p] else []
  {
    assert [p][..0] == [];
  }

  /** The points left by the delete are exactly the stored points of other ratings. */
  lemma {:induction false} WithoutMembers(points: seq<Point>, ratingId: string)
    ensures forall q :: q in Without(points, ratingId) <==> q in points && q.ratingId != ratingId
    decreases |points|
  {
    if |points| > 0 {
      var n := |points| - 1;
      WithoutMembers(points[..n], ratingId);
      assert points == points[..n] + [points[n]];
    }
  }

  /** Every point a request stores belongs to its rating. */
  lemma {:induction false} PointsOfMembers(ratingId: string, pros: seq<string>, cons: seq<string>)
    ensures forall q :: q in PointsOf(ratingId, pros, cons) ==> q.ratingId == ratingId
  {
    var p := Tagged(ratingId, Constants.UniRatingPro, pros);
    var c := Tagged(ratingId, Constants.UniRatingCon, cons);
    forall q: Point | q in p + c
      ensures q.ratingId == ratingId
    {
      if q in p {
        var i :| 0 <= i < |p| && p[i] == q;
      } else {
        var i :| 0 <= i < |c| && c[i] == q;
      }
    }
  }

  // ---------------------------------------------------------------- tables

  function RatingIds(ratings: seq<Rating>): set<string>
  {
    set r | r in ratings :: r.id
  }

  /** Rating ids are unique, and a user has at most one rating per university. */
  predicate RatingsOk(ratings: seq<Rating>)
  {
    forall i, j :: 0 <= i < j < |ratings| ==>
      ratings[i].id != ratings[j].id &&
      (ratings[i].userId != ratings[j].userId || ratings[i].universityId != ratings[j].universityId)
  }

  /** Every point belongs to a stored rating. */
  predicate PointsOk(ratings: seq<Rating>, points: seq<Point>)
  {
    forall p :: p in points ==> p.ratingId in RatingIds(ratings)
  }

  /** The tables' invariant. */
  predicate TablesOk(ratings: seq<Rating>, points: seq<Point>)
  {
    RatingsOk(ratings) && PointsOk(ratings, points)
  }

  /** UpdateUniversityRatingByIDTx: the columns an update writes, on every rating with that id. */
  function EditById(ratings: seq<Rating>, id: string, title: string, content: string, major: string,
                    scores: Scores, email: string): (r: seq<Rating>)
    ensures |r| == |ratings|
    ensures forall i :: 0 <= i < |r| ==>
              r[i] == if ratings[i].id == id
                      then ratings[i].(title := title, content := content, major := major, scores := scores,
                                       totalRating := Total(scores), updatedBy := email)
                      else ratings[i]
  {
    seq(|ratings|, i requires 0 <= i < |ratings| =>
      if ratings[i].id == id
      then ratings[i].(title := title, content := content, major := major, scores := scores,
                       totalRating := Total(scores), updatedBy := email)
      else ratings[i])
  }

  /** With unique ids, an update by the id of rating k changes rating k alone. */
  lemma {:induction false} EditByIdOnlyOne(ratings: seq<Rating>, k: nat, title: string,
                                           content: string, major: string, scores: Scores, email: string)
    requires RatingsOk(ratings) && k < |ratings|
    ensures var r := EditById(ratings, ratings[k].id, title, content, major, scores, email);
            r == ratings[k := ratings[k].(title := title, content := content, major := major, scores := scores,
                                          totalRating := Total(scores), updatedBy := email)] &&
            RatingIds(r) == RatingIds(ratings) && RatingsOk(r)
  {
    var r := EditById(ratings, ratings[k].id, title, content, major, scores, email);
    forall i | 0 <= i < |ratings| && i != k
      ensures ratings[i].id != ratings[k].id
    {
      if i < k {
        assert ratings[i].id != ratings[k].id;
      } else {
        assert ratings[k].id != ratings[i].id;
      }
    }
    forall x | x in RatingIds(r)
      ensures x in RatingIds(ratings)
    {
      var i :| 0 <= i < |r| && r[i].id == x;
      assert ratings[i] in ratings;
    }
    forall x | x in RatingIds(ratings)
      ensures x in RatingIds(r)
    {
      var i :| 0 <= i < |ratings| && ratings[i].id == x;
      assert r[i] in r;
    }
  }

  class UniversityRepository {
    var ratings: seq<Rating>
    var points: seq<Point>

    ghost predicate Valid()
      reads this
    {
      TablesOk(ratings, points)
    }

    constructor()
      ensures Valid() && ratings == [] && points == []
    {
      ratings, points := [], [];
    }

    /** SaveUniversityRatingTx. */
    method Save(r: Rating)
      modifies this
      ensures ratings == old(ratings) + [r] && points == old(points)
    {
      ratings := ratings + [r];
    }

    /** UpdateUniversityRatingByIDTx. */
    method UpdateByID(id: string, title: string, content: string, major: string, scores: Scores, email: string)
      modifies this
      ensures ratings == EditById(old(ratings), id, title, content, major, scores, email) && points == old(points)
    {
      ratings := EditById(ratings, id, title, content, major, scores, email);
    }

    /** BulkSaveUniversityRatingPointsTx. */
    method BulkSave(ps: seq<Point>)
      modifies this
      ensures points == old(points) + ps && ratings == old(ratings)
    {
      points := points + ps;
    }

    /** DeleteUniversityRatingPointsTx. */
    method DeletePoints(ratingId: string)
      modifies this
      ensures points == Without(old(points), ratingId) && ratings == old(ratings)
    {
      points := Without(points, ratingId);
    }
  }

  /** Storing a new rating with its points keeps the tables' invariant. */
  lemma {:induction false} CreateKeepsTables(ratings: seq<Rating>, points: seq<Point>, r: Rating,
                                             pros: seq<string>, cons: seq<string>)
    requires TablesOk(ratings, points)
    requires r.id !in RatingIds(ratings) && FindRating(ratings, r.userId, r.universityId).None?
    ensures TablesOk(ratings + [r], points + PointsOf(r.id, pros, cons))
    ensures forall i :: 0 <= i < |points| ==> points[i].ratingId != r.id
  {
    var rs := ratings + [r];
    forall i, j | 0 <= i < j < |rs|
      ensures rs[i].id != rs[j].id && (rs[i].userId != rs[j].userId || rs[i].universityId != rs[j].universityId)
    {
      if j == |ratings| {
        assert rs[i] == ratings[i] && ratings[i] in ratings;
      }
    }
    assert RatingIds(rs) == RatingIds(ratings) + {r.id};
    PointsOfMembers(r.id, pros, cons);
    forall i | 0 <= i < |points|
      ensures points[i].ratingId != r.id
    {
      assert points[i] in points;
    }
  }

  /** Adding the points of a rating that had none: it reads back those, every other rating its old ones. */
  lemma {:induction false} AddPoints(points: seq<Point>, id: string, pros: seq<string>, cons: seq<string>)
    requires forall i :: 0 <= i < |points| ==> points[i].ratingId != id
    ensures forall x :: PointsFor(points + PointsOf(id, pros, cons), x) ==
                          if x == id then PointsOf(id, pros, cons) else PointsFor(points, x)
  {
    PointsForAbsent(points, id);
    forall x
      ensures PointsFor(points + PointsOf(id, pros, cons), x) == if x == id then PointsOf(id, pros, cons) else PointsFor(points, x)
    {
      PointsForAppend(points, PointsOf(id, pros, cons), x);
      PointsForPointsOf(id, pros, cons, x);
    }
  }

  /** Rewriting rating k and replacing its points keeps the tables' invariant. */
  lemma {:induction false} UpdateKeepsTables(ratings: seq<Rating>, points: seq<Point>, k: nat, title: string,
                                             content: string, major: string, scores: Scores, email: string,
                                             pros: seq<string>, cons: seq<string>)
    requires TablesOk(ratings, points) && k < |ratings|
    ensures var id := ratings[k].id;
            TablesOk(EditById(ratings, id, title, content, major, scores, email),
                     Without(points, id) + PointsOf(id, pros, cons))
  {
    var id := ratings[k].id;
    EditByIdOnlyOne(ratings, k, title, content, major, scores, email);
    var kept := Without(points, id);
    WithoutMembers(points, id);
    PointsOfMembers(id, pros, cons);
    assert ratings[k] in ratings;
    assert forall p :: p in kept + PointsOf(id, pros, cons) ==> p in kept || p in PointsOf(id, pros, cons);
  }

  /** After replacing rating id's points, it reads back the new ones and every other rating its old ones. */
  lemma {:induction false} ReplacePoints(points: seq<Point>, id: string, pros: seq<string>, cons: seq<string>)
    ensures forall x :: PointsFor(Without(points, id) + PointsOf(id, pros, cons), x) ==
                          if x == id then PointsOf(id, pros, cons) else PointsFor(points, x)
  {
    forall x
      ensures PointsFor(Without(points, id) + PointsOf(id, pros, cons), x) ==
                if x == id then PointsOf(id, pros, cons) else PointsFor(points, x)
    {
      PointsForAppend(Without(points, id), PointsOf(id, pros, cons), x);
      PointsForPointsOf(id, pros, cons, x);
      WithoutPointsFor(points, id, x);
    }
  }

  /** UpdateUniversityRating as written, on values: rewrite the rating named in the URL and replace its points. */
  function UpdateAsWritten(users: seq<User>, ratings: seq<Rating>, points: seq<Point>, userId: string,
                           universityId: string, urlRatingId: string, title: string, content: string, major: string,
                           scores: Scores, email: string, pros: seq<string>, cons: seq<string>)
    : (r: Result<(seq<Rating>, seq<Point>), Failure>)
    ensures r.Err? <==> UpdateTarget(users, ratings, userId, universityId).Err?
  {
    match UpdateTargetAsWritten(users, ratings, userId, universityId, urlRatingId)
    case Err(e) => Err(e)
    case Ok(t) => Ok((EditById(ratings, t, title, content, major, scores, email), Without(points, t) + PointsOf(t, pros, cons)))
  }

  /** Two students of university "x", "a" and "b", who have each rated it; "b"'s rating has one pro. */
  function ExampleUsers(): seq<User>
  {
    [User("a", "a", "a@x.ac.id", "", Constants.UserRole, false, true, true, 50, Some("x"), "a@x.ac.id"),
     User("b", "b", "b@x.ac.id", "", Constants.UserRole, false, true, true, 50, Some("x"), "b@x.ac.id")]
  }

  function ExampleRatings(): seq<Rating>
  {
    [Rating("ra", "a", "x", "title", "content", "major", Scores(3, 3, 3, 3, 3), 15, "a@x.ac.id", "a@x.ac.id"),
     Rating("rb", "b", "x", "title", "content", "major", Scores(3, 3, 3, 3, 3), 15, "b@x.ac.id", "b@x.ac.id")]
  }

  function ExamplePoints(): seq<Point>
  {
    [Point("rb", Constants.UniRatingPro, "b's pro")]
  }

  lemma ExampleTablesOk()
    ensures TablesOk(ExampleRatings(), ExamplePoints())
  {
    assert "ra"[1] != "rb"[1];
    assert "a"[0] != "b"[0];
    assert ExamplePoints()[0].ratingId == ExampleRatings()[1].id;
    assert ExampleRatings()[1] in ExampleRatings();
  }

  /** The checks find "a"'s own rating, the first one. */
  lemma {:induction false} ExampleTarget()
    ensures UpdateTarget(ExampleUsers(), ExampleRatings(), "a", "x") == Ok(0)
  {
    var users, ratings := ExampleUsers(), ExampleRatings();
    assert FindById(users, "a") == Some(0);
    assert FindRating(ratings, "a", "x") == Some(0);
  }

  /** Editing by "b"'s rating id rewrites "b"'s rating and leaves "a"'s. */
  lemma {:induction false} ExampleEdit()
    ensures var r := EditById(ExampleRatings(), "rb", "a's title", "a's content", "a's major", Scores(1, 1, 1, 1, 1), "a@x.ac.id");
            r[0] == ExampleRatings()[0] && r[1].userId == "b" && r[1].title == "a's title"
  {
    assert "ra"[1] != "rb"[1];
  }

  /** Replacing "b"'s points leaves it the new ones. */
  lemma {:induction false} ExampleReplace()
    ensures Contents(PointsFor(Without(ExamplePoints(), "rb") + PointsOf("rb", ["a's pro"], ["a's con"]), "rb"),
                     Constants.UniRatingPro) == ["a's pro"]
  {
    var points := ExamplePoints();
    assert points[..0] == [];
    assert Without(points, "rb") == [];
    var added := PointsOf("rb", ["a's pro"], ["a's con"]);
    assert Without(points, "rb") + added == added;
    PointsForPointsOf("rb", ["a's pro"], ["a's con"], "rb");
    PartitionRoundTrip("rb", ["a's pro"], ["a's con"]);
  }

  /**
   * As written, "a" updating with the URL id of "b"'s rating passes every
   * check, rewrites "b"'s rating and replaces "b"'s pros, and leaves "a"'s
   * own rating, the one the checks found, untouched.
   */
  lemma {:induction false} UpdateOverwritesOthersRating()
    ensures TablesOk(ExampleRatings(), ExamplePoints())
    ensures UpdateTarget(ExampleUsers(), ExampleRatings(), "a", "x") == Ok(0)
    ensures var r := UpdateAsWritten(ExampleUsers(), ExampleRatings(), ExamplePoints(), "a", "x", "rb", "a's title",
                                     "a's content", "a's major", Scores(1, 1, 1, 1, 1), "a@x.ac.id", ["a's pro"], ["a's con"]);
            r.Ok? && r.value.0[0] == ExampleRatings()[0] &&
            r.value.0[1].userId == "b" && r.value.0[1].title == "a's title" &&
            Contents(PointsFor(r.value.1, "rb"), Constants.UniRatingPro) == ["a's pro"]
  {
    ExampleTablesOk();
    ExampleTarget();
    ExampleEdit();
    ExampleReplace();
  }

  // ---------------------------------------------------------------- service

  /** mapUniversityRatingListData/DetailData: a rating with its pros and cons. */
  datatype RatingData = RatingData(rating: Rating, pros: seq<string>, cons: seq<string>)

  /** mapUniversityRatingDetailData. */
  method MapRatingDetail(r: Rating, points: seq<Point>) returns (d: RatingData)
    ensures d.rating == r
    ensures d.pros == Contents(PointsFor(points, r.id), Constants.UniRatingPro)
    ensures d.cons == Contents(PointsFor(points, r.id), Constants.UniRatingCon)
  {
    var pros, cons := MapRatingPoints(PointsFor(points, r.id));
    d := RatingData(r, pros, cons);
  }

  /** mapUniversityRatingListData: one entry per rating, in order. */
  method MapRatingList(ratings: seq<Rating>, points: seq<Point>) returns (data: seq<RatingData>)
    ensures |data| == |ratings|
    ensures forall i :: 0 <= i < |ratings| ==>
              data[i] == RatingData(ratings[i], Contents(PointsFor(points, ratings[i].id), Constants.UniRatingPro),
                                    Contents(PointsFor(points, ratings[i].id), Constants.UniRatingCon))
  {
    data := [];
    for i := 0 to |ratings|
      invariant |data| == i
      invariant forall j :: 0 <= j < i ==>
                  data[j] == RatingData(ratings[j], Contents(PointsFor(points, ratings[j].id), Constants.UniRatingPro),
                                        Contents(PointsFor(points, ratings[j].id), Constants.UniRatingCon))
    {
      var d := MapRatingDetail(ratings[i], points);
      data := data + [d];
    }
  }

  /** GetList: ratings newest first by (created_at, id), paged with a cursor. */
  method GetList(table: seq<Row<Rating>>, limit: nat, cursor: string) returns (res: Option<ListPage<Rating>>)
    requires cursor == "" || '_' in cursor
    ensures res == Page(table, Recency, PairSeek, limit, cursor)
  {
    res := GetPage(table, Recency, PairSeek, limit, cursor);
  }

  /** Following the cursors of the rating listing yields every rating once, in order. */
  lemma {:induction false} GetListWalk(table: seq<Row<Rating>>, limit: nat)
    requires SortedDesc(table) && IdsFree(table) && limit > 0
    ensures Walk(table, Recency, PairSeek, limit, |table| + 1) == Some(table)
  {
    WalkVisitsEachRowOnce(table, Recency, limit);
  }

  class UniversityService {
    const users: UserRepository
    const unis: UniversityRepository

    constructor(users: UserRepository, unis: UniversityRepository)
      ensures this.users == users && this.unis == unis
    {
      this.users := users;
      this.unis := unis;
    }

    /**
     * CreateUniversityRating: the first failing check, with nothing
     * written; otherwise the rating, its pros then its cons, and the user's
     * has-rated flag.
     */
    method CreateUniversityRating(ratingId: string, userId: string, universityId: string, title: string,
                                  content: string, major: string, scores: Scores, email: string,
                                  pros: seq<string>, cons: seq<string>) returns (res: Outcome)
      requires unis.Valid() && ratingId !in RatingIds(unis.ratings)
      modifies users, unis
      ensures unis.Valid()
      ensures var c := CreateCheck(old(users.users), old(unis.ratings), userId, universityId);
              (res.Fail? <==> c.Err?) && (c.Err? ==> res.failure == c.error && unchanged(users) && unchanged(unis))
      ensures res.Done? ==>
                unis.ratings == old(unis.ratings) + [Rating(ratingId, userId, universityId, title, content, major, scores,
                                                            Total(scores), email, email)] &&
                unis.points == old(unis.points) + PointsOf(ratingId, pros, cons) &&
                users.users == SetHasRate(old(users.users), userId, true) && users.verifies == old(users.verifies)
      ensures res.Done? ==> PointsFor(unis.points, ratingId) == PointsOf(ratingId, pros, cons) &&
                            forall x :: x != ratingId ==> PointsFor(unis.points, x) == PointsFor(old(unis.points), x)
    {
      var c := CreateCheck(users.users, unis.ratings, userId, universityId);
      if c.Err? {
        return Fail(c.error);
      }
      var rating := Rating(ratingId, userId, universityId, title, content, major, scores, Total(scores), email, email);
      var points := BuildPoints(ratingId, pros, cons);
      CreateKeepsTables(unis.ratings, unis.points, rating, pros, cons);
      AddPoints(unis.points, ratingId, pros, cons);
      unis.Save(rating);
      unis.BulkSave(points);
      users.SetHasRateUniversity(userId, true);
      res := Done;
    }

    /**
     * UpdateUniversityRating, rewriting the caller's own rating: the first
     * failing check with nothing written; otherwise that rating's columns
     * and its points are replaced, and no other rating or point changes.
     */
    method UpdateUniversityRating(userId: string, universityId: string, title: string, content: string,
                                  major: string, scores: Scores, email: string,
                                  pros: seq<string>, cons: seq<string>) returns (res: Outcome)
      requires unis.Valid()
      modifies unis
      ensures unis.Valid()
      ensures var t := UpdateTarget(old(users.users), old(unis.ratings), userId, universityId);
              (res.Fail? <==> t.Err?) && (t.Err? ==> res.failure == t.error && unchanged(unis))
      ensures res.Done? ==>
                var k := UpdateTarget(old(users.users), old(unis.ratings), userId, universityId).value;
                var id := old(unis.ratings)[k].id;
                old(unis.ratings)[k].userId == userId &&
                unis.ratings == old(unis.ratings)[k := old(unis.ratings)[k].(title := title, content := content,
                                  major := major, scores := scores, totalRating := Total(scores), updatedBy := email)] &&
                PointsFor(unis.points, id) == PointsOf(id, pros, cons) &&
                forall x :: x != id ==> PointsFor(unis.points, x) == PointsFor(old(unis.points), x)
    {
      var t := UpdateTarget(users.users, unis.ratings, userId, universityId);
      if t.Err? {
        return Fail(t.error);
      }
      var k := t.value;
      var id := unis.ratings[k].id;
      EditByIdOnlyOne(unis.ratings, k, title, content, major, scores, email);
      UpdateKeepsTables(unis.ratings, unis.points, k, title, content, major, scores, email, pros, cons);
      ReplacePoints(unis.points, id, pros, cons);
      unis.UpdateByID(id, title, content, major, scores, email);
      unis.DeletePoints(id);
      var points := BuildPoints(id, pros, cons);
      unis.BulkSave(points);
      res := Done;
    }
  }
}
