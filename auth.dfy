/**
 * Registration, login and email verification (internal/service/auth.go).
 *
 * Password hashing is a parameter: `hash` is the stored hash of the
 * submitted password, and `matches` stands for bcrypt's comparison. The
 * verification code, the ids and the current time are inputs too.
 */
module Auth {
  import opened Wrappers
  import opened ResponseCode
  import Constants
  import opened Users

  /** mapCreateUserReqToUserModel: the row Register stores. */
  function NewUser(id: string, username: string, email: string, hash: string): User
  {
    User(id, username, email, hash, Constants.UserRole, false, false, false, 50, None, email)
  }

  /** The verification record Register stores, valid for `expiryMins` minutes from `now`. */
  function NewVerifyRecord(verifyId: string, userId: string, code: string, email: string, now: int, expiryMins: int): VerifyRecord
  {
    VerifyRecord(verifyId, userId, code, email, false, now + expiryMins * 60)
  }

  /**
   * Login's decision: the user when the email is known and the password
   * matches its hash, and the same BadRequest for every other case.
   */
  function Login(users: seq<User>, email: string, password: string, matches: (string, string) -> bool): (r: Result<User, Failure>)
    ensures r.Ok? <==> FindByEmail(users, email).Some? && matches(password, users[FindByEmail(users, email).value].passwordHash)
    ensures r.Ok? ==> r.value.email == email
    ensures r.Err? ==> r.error == Failure(BadRequest, "Invalid Email/Password")
  {
    match FindByEmail(users, email)
    case None => Err(Failure(BadRequest, "Invalid Email/Password"))
    case Some(i) =>
      if !matches(password, users[i].passwordHash) then Err(Failure(BadRequest, "Invalid Email/Password"))
      else Ok(users[i])
  }

  /**
   * VerifyEmail's checks, in order: the user, whether it is already
   * verified, the newest verification record for the email, its expiry,
   * the code. On success, the indices of the user and the record.
   */
  function VerifyCheck(users: seq<User>, records: seq<VerifyRecord>, email: string, code: string, now: int)
    : (r: Result<(nat, nat), Failure>)
    ensures r.Ok? ==> r.value.0 < |users| && r.value.1 < |records|
    ensures r.Err? ==> r.error.code == BadRequest
    ensures r.Ok? <==>
              FindByEmail(users, email).Some? && !users[FindByEmail(users, email).value].isEmailVerified &&
              LatestRecord(records, email).Some? &&
              records[LatestRecord(records, email).value].expiredAt >= now &&
              records[LatestRecord(records, email).value].code == code
    ensures r.Ok? ==> r.value == (FindByEmail(users, email).value, LatestRecord(records, email).value)
  {
    match FindByEmail(users, email)
    case None => Err(Failure(BadRequest, "User not found"))
    case Some(i) =>
      if users[i].isEmailVerified then Err(Failure(BadRequest, "User is already verified"))
      else match LatestRecord(records, email)
        case None => Err(Failure(BadRequest, "User verify email not found"))
        case Some(j) =>
          if records[j].expiredAt < now then Err(Failure(BadRequest, "Code has expired"))
          else if records[j].code != code then Err(Failure(BadRequest, "Code does not match"))
          else Ok((i, j))
  }

  /**
   * Right after registering, the code verifies until it expires; afterwards
   * the expiry is reported, and any other code is reported as a mismatch.
   */
  lemma {:induction false} RegisterThenVerify(users: seq<User>, records: seq<VerifyRecord>, id: string, username: string,
                                              email: string, hash: string, verifyId: string, code: string,
                                              now: int, expiryMins: int, later: int, tried: string)
    requires FindByEmail(users, email).None?
    ensures var u2 := users + [NewUser(id, username, email, hash)];
            var r2 := records + [NewVerifyRecord(verifyId, id, code, email, now, expiryMins)];
            (VerifyCheck(u2, r2, email, code, later).Ok? <==> later <= now + expiryMins * 60) &&
            (later > now + expiryMins * 60 ==> VerifyCheck(u2, r2, email, tried, later) == Err(Failure(BadRequest, "Code has expired"))) &&
            (later <= now + expiryMins * 60 && tried != code ==>
               VerifyCheck(u2, r2, email, tried, later) == Err(Failure(BadRequest, "Code does not match")))
  {
    var u := NewUser(id, username, email, hash);
    FindByEmailAppend(users, u, email);
    var r2 := records + [NewVerifyRecord(verifyId, id, code, email, now, expiryMins)];
    assert LatestRecord(r2, email) == Some(|records|);
  }

  /** A successful verification cannot be repeated: the next attempt finds the user verified. */
  lemma {:induction false} VerifyOnlyOnce(users: seq<User>, records: seq<VerifyRecord>, email: string, code: string,
                                          now: int, records2: seq<VerifyRecord>, code2: string, later: int)
    requires Distinct(users)
    requires VerifyCheck(users, records, email, code, now).Ok?
    ensures var i := VerifyCheck(users, records, email, code, now).value.0;
            VerifyCheck(SetVerified(users, users[i].id), records2, email, code2, later)
              == Err(Failure(BadRequest, "User is already verified"))
  {
    var i := VerifyCheck(users, records, email, code, now).value.0;
    var u2 := SetVerified(users, users[i].id);
    FlagsKeepKeys(users, u2);
    assert FindByEmail(u2, email) == Some(i);
  }

  class AuthService {
    const repo: UserRepository

    constructor(repo: UserRepository)
      ensures this.repo == repo
    {
      this.repo := repo;
    }

    /**
     * Register: BadRequest, writing nothing, when the email is taken;
     * otherwise a new USER, unbanned, unverified, with 50 reputation points
     * and created by its own email, and an unused verification record.
     */
    method Register(id: string, username: string, email: string, hash: string, verifyId: string, code: string,
                    now: int, expiryMins: int) returns (res: Outcome)
      requires repo.Valid() && FindById(repo.users, id).None?
      modifies repo
      ensures repo.Valid()
      ensures res.Fail? <==> FindByEmail(old(repo.users), email).Some?
      ensures res.Fail? ==> res.failure == Failure(BadRequest, "User already exists") && unchanged(repo)
      ensures res.Done? ==>
                repo.users == old(repo.users) + [NewUser(id, username, email, hash)] &&
                repo.verifies == old(repo.verifies) + [NewVerifyRecord(verifyId, id, code, email, now, expiryMins)]
      ensures res.Done? ==> var u := repo.users[|repo.users| - 1];
                u.role == Constants.UserRole && !u.isBanned && !u.isEmailVerified && u.reputationPoints == 50 &&
                u.createdBy == email && FindByEmail(repo.users, email) == Some(|repo.users| - 1)
      ensures res.Done? ==> var v := repo.verifies[|repo.verifies| - 1];
                !v.isUsed && v.expiredAt == now + expiryMins * 60 && v.userId == id && v.code == code
    {
      if FindByEmail(repo.users, email).Some? {
        return Fail(Failure(BadRequest, "User already exists"));
      }
      var u := NewUser(id, username, email, hash);
      AppendDistinct(repo.users, u);
      FindByEmailAppend(repo.users, u, email);
      repo.Save(u);
      repo.SaveVerify(NewVerifyRecord(verifyId, id, code, email, now, expiryMins));
      res := Done;
    }

    /**
     * VerifyEmail: the first failing check is reported with nothing
     * written; on success the record is marked used and the user verified.
     */
    method VerifyEmail(email: string, code: string, now: int) returns (res: Outcome)
      requires repo.Valid()
      modifies repo
      ensures repo.Valid()
      ensures var c := VerifyCheck(old(repo.users), old(repo.verifies), email, code, now);
              (res.Fail? <==> c.Err?) && (c.Err? ==> res.failure == c.error && unchanged(repo))
      ensures res.Done? ==> var (i, j) := VerifyCheck(old(repo.users), old(repo.verifies), email, code, now).value;
                repo.users == SetVerified(old(repo.users), old(repo.users)[i].id) &&
                |repo.verifies| == |old(repo.verifies)| && repo.verifies[j].isUsed &&
                (forall k :: 0 <= k < |repo.verifies| && old(repo.verifies)[k].id != old(repo.verifies)[j].id ==>
                   repo.verifies[k] == old(repo.verifies)[k])
      ensures res.Done? ==> VerifyCheck(repo.users, repo.verifies, email, code, now) == Err(Failure(BadRequest, "User is already verified"))
    {
      var c := VerifyCheck(repo.users, repo.verifies, email, code, now);
      if c.Err? {
        return Fail(c.error);
      }
      var (i, j) := c.value;
      var userId := repo.users[i].id;
      var recordId := repo.verifies[j].id;
      VerifyOnlyOnce(repo.users, repo.verifies, email, code, now, repo.verifies, code, now);
      FlagsKeepKeys(repo.users, SetVerified(repo.users, userId));
      ghost var users1 := repo.users;
      repo.MarkVerifyUsed(recordId);
      assert VerifyCheck(SetVerified(users1, userId), repo.verifies, email, code, now) == Err(Failure(BadRequest, "User is already verified")) by {
        VerifyOnlyOnce(users1, old(repo.verifies), email, code, now, repo.verifies, code, now);
      }
      repo.SetEmailVerified(userId);
      res := Done;
    }
  }
}
