/** Request sequences run against a fresh store. Each one is stated for every
    input the serializers accept unchanged, and each assertion follows from
    the contracts of the view methods alone. */
module Scenarios {
  import opened Common
  import opened Models
  import opened Validators
  import opened Permissions
  import opened Serializers
  import opened Views

  /** A fresh store after one successful sign-up: the new user is inactive
      and holds the code. */
  method SignedUpStore(name: string, email: string, code: string) returns (db: Store)
    requires ValidateSignUp(name, email) == Ok(SignUpData(name, email))
    ensures fresh(db) && db.Valid()
    ensures db.users == map[name := Account(email, User, false, false, Some(code))]
  {
    db := new Store();
    var s := Signup(db, name, email, code);
    assert s == Ok(SignUpData(name, email));
  }

  /** A user signs up, a wrong code is refused, the right code is accepted,
      and the same code is accepted again. */
  method SignUpThenExchangeCode(name: string, email: string, code: string, wrong: string)
    requires ValidateSignUp(name, email) == Ok(SignUpData(name, email))
    requires ValidateTokenRequest(Some(name), Some(code)) == Ok(TokenRequest(name, code))
    requires ValidateTokenRequest(Some(name), Some(wrong)) == Ok(TokenRequest(name, wrong)) && wrong != code
  {
    var db := SignedUpStore(name, email, code);
    var t1 := ObtainToken(db, Some(name), Some(wrong));
    assert t1 == Err(BadRequest);
    var t2 := ObtainToken(db, Some(name), Some(code));
    assert t2 == Ok(AccessToken(name));
    assert db.users[name].isActive && db.users[name].code == Some(code);
    var t3 := ObtainToken(db, Some(name), Some(code));
    assert t3 == Ok(AccessToken(name));
  }

  /** After a sign-up, a code sent for another username is not found, even
      the one that was issued, and nothing changes. */
  method StrangerIsNotFound(name: string, email: string, code: string, stranger: string)
    requires ValidateSignUp(name, email) == Ok(SignUpData(name, email))
    requires ValidateTokenRequest(Some(stranger), Some(code)) == Ok(TokenRequest(stranger, code)) && stranger != name
  {
    var db := SignedUpStore(name, email, code);
    var t := ObtainToken(db, Some(stranger), Some(code));
    assert t == Err(NotFound);
    assert db.users == map[name := Account(email, User, false, false, Some(code))];
  }

  /** A store with a plain user, a second user with the given role and one
      title, and nothing else. */
  method TwoUsersAndTitle(name: string, email: string, other: string, otherEmail: string, otherRole: Role, titleName: string)
    returns (db: Store, t: nat)
    requires name != other && email != otherEmail
    ensures fresh(db) && db.Valid()
    ensures db.users == map[name := Account(email, User, false, true, None), other := Account(otherEmail, otherRole, false, true, None)]
    ensures t in db.titles && db.reviews == map[] && db.nextReviewId == 0 && db.clock == 0
  {
    db := new Store();
    db.PutAccount(name, Account(email, User, false, true, None));
    db.PutAccount(other, Account(otherEmail, otherRole, false, true, None));
    t := db.AddTitle(Title(titleName, 1999, None, {}, None));
  }

  /** On that store the first user posts a review with score 8; the author
      and title sent by the client are not used. */
  method FirstReview(name: string, email: string, other: string, otherEmail: string, otherRole: Role, text: string)
    returns (db: Store, t: nat, id: nat)
    requires name != other && email != otherEmail
    requires Strip(text) != []
    ensures fresh(db) && db.Valid()
    ensures db.users == map[name := Account(email, User, false, true, None), other := Account(otherEmail, otherRole, false, true, None)]
    ensures t in db.titles
    ensures db.reviews == map[id := Review(t, Some(name), Strip(text), 8, 0)]
  {
    db, t := TwoUsersAndTitle(name, email, other, otherEmail, otherRole, "The Matrix");
    var payload := ReviewPayload(Some(text), Some(8), Some(other), Some(t + 1));
    var v := ValidateReview(payload, name, t, db.reviews);
    assert v == Ok(ReviewDraft(t, name, Strip(text), 8));
    assert PrincipalOf(db.users, Some(name)).Member?;
    var r := CreateReview(db, Some(name), t, payload);
    assert r.Ok?;
    id := r.value;
  }

  /** A second review by the same user on the same title is refused, the
      title's rating is 8, another user may not delete the review while a
      moderator may. */
  method ReviewThenRate(name: string, email: string, other: string, otherEmail: string, text: string)
    requires name != other && email != otherEmail
    requires Strip(text) != []
  {
    var db, t, id := FirstReview(name, email, other, otherEmail, User, text);

    var again := ReviewPayload(Some(text), Some(3), None, None);
    DuplicateReviewRefused(again, name, t, db.reviews, id);
    var r := CreateReview(db, Some(name), t, again);
    assert r == Err(BadRequest);

    TitleRatingOfEqualScores(db.reviews, t, db.nextReviewId, db.clock, id, 8);
    assert TitleRating(db.reviews, t, db.nextReviewId) == Some(8);
  }

  /** Another plain user may not delete the review. */
  method OtherUserCannotDeleteReview(name: string, email: string, other: string, otherEmail: string, text: string)
    requires name != other && email != otherEmail
    requires Strip(text) != []
  {
    var db, t, id := FirstReview(name, email, other, otherEmail, User, text);
    assert ReviewInRoute(db.titles, db.reviews, t, id) && db.reviews[id].author == Some(name);
    var who := PrincipalOf(db.users, Some(other));
    assert who == Member(other, Account(otherEmail, User, false, true, None));
    PlainUserOnlyOwnObjects(other, who.account, Delete, Some(name));
    var r := DestroyReview(db, Some(other), t, id);
    assert r == Err(Forbidden) && id in db.reviews;
  }

  /** Without a user the review cannot be deleted. */
  method AnonymousCannotDeleteReview(name: string, email: string, other: string, otherEmail: string, text: string)
    requires name != other && email != otherEmail
    requires Strip(text) != []
  {
    var db, t, id := FirstReview(name, email, other, otherEmail, User, text);
    var r := DestroyReview(db, None, t, id);
    assert r == Err(NotAuthenticated) && id in db.reviews;
  }

  /** A moderator may delete another user's review. */
  method ModeratorDeletesReview(name: string, email: string, other: string, otherEmail: string, text: string)
    requires name != other && email != otherEmail
    requires Strip(text) != []
  {
    var db, t, id := FirstReview(name, email, other, otherEmail, Moderator, text);
    assert ReviewInRoute(db.titles, db.reviews, t, id);
    assert StaffOrAuthorOrReadOnly(PrincipalOf(db.users, Some(other)), Delete, db.reviews[id].author);
    ghost var before := db.reviews;
    var r := DestroyReview(db, Some(other), t, id);
    assert ReviewInRoute(db.titles, before, t, id);
    assert PrincipalOf(db.users, Some(other)).Member?;
    assert r.Ok?;
    assert id !in db.reviews;
  }

  /** An admin cannot add a title dated after the current year, and a plain
      user cannot add one at all. */
  method FutureTitleScenario(admin: string, user: string, p: TitlePayload)
    requires admin != user
    requires p.year == Some(2999)
  {
    var db := new Store();
    db.PutAccount(admin, Account("admin@x.com", User, true, true, None));
    db.PutAccount(user, Account("user@x.com", User, false, true, None));
    FutureTitleRefused(p, 2026, db.categories.Keys, db.genres.Keys);
    var r1 := CreateTitle(db, Some(admin), p, 2026);
    assert r1 == Err(BadRequest);
    var r2 := CreateTitle(db, Some(user), p, 2026);
    assert r2 == Err(Forbidden);
    assert db.titles == map[];
  }
}
