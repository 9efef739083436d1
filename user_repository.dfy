/**
 * The `user` and `user_verify_email` tables of internal/repository/user.go
 * as the auth and university services use them.
 *
 * Both are kept in insertion order. A lookup by email or id returns the
 * first matching user; the verification lookup returns the newest record
 * for an email. Times are whole seconds.
 */
module Users {
  import opened Wrappers

  datatype User = User(id: string, username: string, email: string, passwordHash: string, role: string,
                       isBanned: bool, isEmailVerified: bool, hasRateUniversity: bool, reputationPoints: int,
                       universityId: Option<string>, createdBy: string)

  datatype VerifyRecord = VerifyRecord(id: string, userId: string, code: string, email: string,
                                       isUsed: bool, expiredAt: int)

  /** GetByEmail: the index of the first user with that email. */
  function FindByEmail(users: seq<User>, email: string): (r: Option<nat>)
    ensures r.Some? ==> r.value < |users| && users[r.value].email == email &&
                        forall j :: 0 <= j < r.value ==> users[j].email != email
    ensures r.None? ==> forall j :: 0 <= j < |users| ==> users[j].email != email
    decreases |users|
  {
    if |users| == 0 then None
    else if users[0].email == email then Some(0)
    else match FindByEmail(users[1..], email)
      case None => None
      case Some(i) => Some(i + 1)
  }

  /** GetByID: the index of the first user with that id. */
  function FindById(users: seq<User>, id: string): (r: Option<nat>)
    ensures r.Some? ==> r.value < |users| && users[r.value].id == id &&
                        forall j :: 0 <= j < r.value ==> users[j].id != id
    ensures r.None? ==> forall j :: 0 <= j < |users| ==> users[j].id != id
    decreases |users|
  {
    if |users| == 0 then None
    else if users[0].id == id then Some(0)
    else match FindById(users[1..], id)
      case None => None
      case Some(i) => Some(i + 1)
  }

  /** The verification lookup by email: the index of the newest record. */
  function LatestRecord(records: seq<VerifyRecord>, email: string): (r: Option<nat>)
    ensures r.Some? ==> r.value < |records| && records[r.value].email == email &&
                        forall j :: r.value < j < |records| ==> records[j].email != email
    ensures r.None? ==> forall j :: 0 <= j < |records| ==> records[j].email != email
    decreases |records|
  {
    if |records| == 0 then None
    else if records[|records| - 1].email == email then Some(|records| - 1)
    else LatestRecord(records[..|records| - 1], email)
  }

  /** No two users share an id or an email. */
  predicate Distinct(users: seq<User>)
  {
    forall i, j :: 0 <= i < j < |users| ==> users[i].id != users[j].id && users[i].email != users[j].email
  }

  /** Appending a user whose id and email are new keeps them distinct. */
  lemma {:induction false} AppendDistinct(users: seq<User>, u: User)
    requires Distinct(users)
    requires FindByEmail(users, u.email).None? && FindById(users, u.id).None?
    ensures Distinct(users + [u])
  {
    var s := users + [u];
    forall i, j | 0 <= i < j < |s|
      ensures s[i].id != s[j].id && s[i].email != s[j].email
    {
      if j == |users| {
        assert s[i] == users[i];
      }
    }
  }

  /** `UPDATE "user" SET is_email_verified = TRUE WHERE id = ?`. */
  function SetVerified(users: seq<User>, id: string): (r: seq<User>)
    ensures |r| == |users|
    ensures forall i :: 0 <= i < |r| ==> r[i] == if users[i].id == id then users[i].(isEmailVerified := true) else users[i]
  {
    seq(|users|, i requires 0 <= i < |users| => if users[i].id == id then users[i].(isEmailVerified := true) else users[i])
  }

  /** `UPDATE "user" SET has_rate_university = ? WHERE id = ?`. */
  function SetHasRate(users: seq<User>, id: string, b: bool): (r: seq<User>)
    ensures |r| == |users|
    ensures forall i :: 0 <= i < |r| ==> r[i] == if users[i].id == id then users[i].(hasRateUniversity := b) else users[i]
  {
    seq(|users|, i requires 0 <= i < |users| => if users[i].id == id then users[i].(hasRateUniversity := b) else users[i])
  }

  /** Changing a flag keeps every id and email in place. */
  lemma {:induction false} FlagsKeepKeys(users: seq<User>, r: seq<User>)
    requires |r| == |users| && forall i :: 0 <= i < |r| ==> r[i].id == users[i].id && r[i].email == users[i].email
    requires Distinct(users)
    ensures Distinct(r)
    ensures forall e :: FindByEmail(r, e) == FindByEmail(users, e)
    ensures forall x :: FindById(r, x) == FindById(users, x)
  {
    forall e
      ensures FindByEmail(r, e) == FindByEmail(users, e)
    {
      SameEmails(users, r, e);
    }
    forall x
      ensures FindById(r, x) == FindById(users, x)
    {
      SameIds(users, r, x);
    }
  }

  lemma {:induction false} SameEmails(a: seq<User>, b: seq<User>, e: string)
    requires |a| == |b| && forall i :: 0 <= i < |a| ==> a[i].email == b[i].email
    ensures FindByEmail(a, e) == FindByEmail(b, e)
    decreases |a|
  {
    if |a| > 0 {
      SameEmails(a[1..], b[1..], e);
    }
  }

  lemma {:induction false} SameIds(a: seq<User>, b: seq<User>, x: string)
    requires |a| == |b| && forall i :: 0 <= i < |a| ==> a[i].id == b[i].id
    ensures FindById(a, x) == FindById(b, x)
    decreases |a|
  {
    if |a| > 0 {
      SameIds(a[1..], b[1..], x);
    }
  }

  /** A lookup in a table with a row appended finds the old match, or else the new row. */
  lemma {:induction false} FindByEmailAppend(users: seq<User>, u: User, e: string)
    ensures FindByEmail(users + [u], e) ==
              if FindByEmail(users, e).Some? then FindByEmail(users, e)
              else if u.email == e then Some(|users|) else None
    decreases |users|
  {
    if |users| > 0 {
      assert (users + [u])[1..] == users[1..] + [u];
      FindByEmailAppend(users[1..], u, e);
    }
  }

  class UserRepository {
    var users: seq<User>
    var verifies: seq<VerifyRecord>

    /** Ids and emails are unique. */
    ghost predicate Valid()
      reads this
    {
      Distinct(users)
    }

    constructor()
      ensures Valid() && users == [] && verifies == []
    {
      users, verifies := [], [];
    }

    /** SaveTx. */
    method Save(u: User)
      modifies this
      ensures users == old(users) + [u] && verifies == old(verifies)
    {
      users := users + [u];
    }

    /** SaveUserVerifyEmailTx. */
    method SaveVerify(v: VerifyRecord)
      modifies this
      ensures verifies == old(verifies) + [v] && users == old(users)
    {
      verifies := verifies + [v];
    }

    /** SetUserToEmailVerifiedTx. */
    method SetEmailVerified(id: string)
      modifies this
      ensures users == SetVerified(old(users), id) && verifies == old(verifies)
    {
      users := SetVerified(users, id);
    }

    /** SetUserHasRateUniversityTx. */
    method SetHasRateUniversity(id: string, b: bool)
      modifies this
      ensures users == SetHasRate(old(users), id, b) && verifies == old(verifies)
    {
      users := SetHasRate(users, id, b);
    }

    /** UpdateUserVerifyEmailByIDTx and SetUserVerifyEmailToUsedTx: `is_used` of the record with that id. */
    method MarkVerifyUsed(id: string)
      modifies this
      ensures |verifies| == |old(verifies)| && users == old(users)
      ensures forall i :: 0 <= i < |verifies| ==>
                verifies[i] == if old(verifies)[i].id == id then old(verifies)[i].(isUsed := true) else old(verifies)[i]
    {
      var vs := verifies;
      verifies := seq(|vs|, i requires 0 <= i < |vs| => if vs[i].id == id then vs[i].(isUsed := true) else vs[i]);
    }
  }
}
