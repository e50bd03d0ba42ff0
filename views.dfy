/** The request handlers: sign-up and token exchange, the review and comment
    endpoints nested under a title, the catalog and user endpoints, and the
    rating annotation of the title listing. */
module Views {
  import opened Common
  import opened Models
  import opened Validators
  import opened Permissions
  import opened Serializers

  // ---------------------------------------------------------------- rating

  function Sum(scores: seq<int>): int {
    if scores == [] then 0 else scores[0] + Sum(scores[1..])
  }

  /** `r` is the mean `sum / n` rounded to the nearest integer, halves up. */
  predicate IsRoundedMean(r: int, sum: int, n: int) {
    n > 0 && 2 * sum - n < 2 * n * r <= 2 * sum + n
  }

  lemma FloorDivision(a: int, d: int)
    requires d > 0
    ensures d * (a / d) <= a < d * (a / d) + d
  {
  }

  /** The rating of a set of scores: none without scores, otherwise the mean
      rounded half up, in integer arithmetic. */
  function Rating(scores: seq<int>): (r: Option<int>)
    ensures r.None? <==> scores == []
    ensures r.Some? ==> IsRoundedMean(r.value, Sum(scores), |scores|)
  {
    if scores == [] then None
    else
      var n := |scores|;
      FloorDivision(2 * Sum(scores) + n, 2 * n);
      Some((2 * Sum(scores) + n) / (2 * n))
  }

  /** A positive factor keeps the order of its other operand. */
  lemma {:induction false} MulMonotone(d: int, x: int, y: int)
    requires d > 0 && x <= y
    ensures d * x <= d * y
    decreases y - x
  {
    if x < y {
      MulMonotone(d, x, y - 1);
      assert d * y == d * (y - 1) + d;
    }
  }

  /** A positive factor can be cancelled from a strict inequality. */
  lemma MulCancel(d: int, x: int, y: int)
    requires d > 0 && d * x < d * y
    ensures x < y
  {
    if y <= x {
      MulMonotone(d, y, x);
    }
  }

  /** The rounded mean is unique. */
  lemma RoundedMeanUnique(r: int, r': int, sum: int, n: int)
    requires IsRoundedMean(r, sum, n) && IsRoundedMean(r', sum, n)
    ensures r == r'
  {
    assert 2 * n * (r' + 1) == 2 * n * r' + 2 * n;
    MulCancel(2 * n, r, r' + 1);
    assert 2 * n * (r + 1) == 2 * n * r + 2 * n;
    MulCancel(2 * n, r', r + 1);
  }

  /** Scores in [lo, hi] sum to between n * lo and n * hi. */
  lemma {:induction false} SumBounds(scores: seq<int>, lo: int, hi: int)
    requires forall k :: 0 <= k < |scores| ==> lo <= scores[k] <= hi
    ensures |scores| * lo <= Sum(scores) <= |scores| * hi
  {
    if scores != [] {
      SumBounds(scores[1..], lo, hi);
      assert |scores| * lo == lo + (|scores| - 1) * lo;
      assert |scores| * hi == hi + (|scores| - 1) * hi;
    }
  }

  /** The rating lies between the lowest and the highest bound of the scores. */
  lemma RatingWithinBounds(scores: seq<int>, lo: int, hi: int)
    requires scores != []
    requires forall k :: 0 <= k < |scores| ==> lo <= scores[k] <= hi
    ensures lo <= Rating(scores).value <= hi
  {
    var n, r := |scores|, Rating(scores).value;
    SumBounds(scores, lo, hi);
    assert 2 * n * (hi + 1) == 2 * (n * hi) + 2 * n;
    MulCancel(2 * n, r, hi + 1);
    assert 2 * n * (lo - 1) == 2 * (n * lo) - 2 * n;
    MulCancel(2 * n, lo - 1, r);
  }

  /** When every score is `s` the rating is `s`. */
  lemma RatingOfEqualScores(scores: seq<int>, s: int)
    requires scores != []
    requires forall k :: 0 <= k < |scores| ==> scores[k] == s
    ensures Rating(scores) == Some(s)
  {
    RatingWithinBounds(scores, s, s);
  }

  /** Valid scores give a rating in [1, 10]. */
  lemma RatingInScoreRange(scores: seq<int>)
    requires scores != []
    requires forall k :: 0 <= k < |scores| ==> ScoreValid(scores[k])
    ensures ScoreValid(Rating(scores).value)
  {
    RatingWithinBounds(scores, MinScore, MaxScore);
  }

  /** The scores of the listed reviews. */
  function ScoresOf(reviews: map<nat, Review>, ids: seq<nat>): (s: seq<int>)
    requires forall k :: 0 <= k < |ids| ==> ids[k] in reviews
    ensures |s| == |ids|
    ensures forall k :: 0 <= k < |ids| ==> s[k] == reviews[ids[k]].score
  {
    seq(|ids|, k requires 0 <= k < |ids| => reviews[ids[k]].score)
  }

  /** The `rating` annotation of a title: the rating of its reviews' scores. */
  function TitleRating(reviews: map<nat, Review>, t: nat, nextReviewId: nat): Option<int> {
    Rating(ScoresOf(reviews, ReviewsOf(reviews, t, nextReviewId)))
  }

  /** A title has no rating exactly when it has no reviews; otherwise its
      rating is in [1, 10]. */
  lemma TitleRatingFacts(reviews: map<nat, Review>, t: nat, nextReviewId: nat, clock: nat)
    requires ScoresValid(reviews) && ReviewStamps(reviews, nextReviewId, clock)
    ensures TitleRating(reviews, t, nextReviewId).None? <==>
            forall i :: i in reviews ==> reviews[i].title != t
    ensures TitleRating(reviews, t, nextReviewId).Some? ==>
            ScoreValid(TitleRating(reviews, t, nextReviewId).value)
  {
    var ids := ReviewsOf(reviews, t, nextReviewId);
    ReviewsOfNewestFirst(reviews, t, nextReviewId, clock);
    if ids != [] {
      RatingInScoreRange(ScoresOf(reviews, ids));
    }
  }

  /** When every review of a title carries the same score, that score is the
      title's rating. */
  lemma TitleRatingOfEqualScores(reviews: map<nat, Review>, t: nat, nextReviewId: nat, clock: nat, i: nat, s: int)
    requires ReviewStamps(reviews, nextReviewId, clock)
    requires i in reviews && reviews[i].title == t
    requires forall j :: j in reviews && reviews[j].title == t ==> reviews[j].score == s
    ensures TitleRating(reviews, t, nextReviewId) == Some(s)
  {
    var ids := ReviewsOf(reviews, t, nextReviewId);
    ReviewsOfNewestFirst(reviews, t, nextReviewId, clock);
    assert i in ids;
    var scores := ScoresOf(reviews, ids);
    forall k | 0 <= k < |scores|
      ensures scores[k] == s
    {
      assert ids[k] in ids;
    }
    RatingOfEqualScores(scores, s);
  }

  // ---------------------------------------------------------------- listing

  /** The reviews of a title, newest first; 404 when the title is absent. */
  function ListReviews(titles: map<nat, Title>, reviews: map<nat, Review>, t: nat, nextReviewId: nat, clock: nat): (r: Result<seq<nat>>)
    requires ReviewStamps(reviews, nextReviewId, clock)
    ensures r.Err? <==> t !in titles
    ensures r.Err? ==> r.failure == NotFound
    ensures r.Ok? ==> forall i :: i in r.value <==> i in reviews && reviews[i].title == t
    ensures r.Ok? ==> forall k, l :: 0 <= k < l < |r.value| ==> reviews[r.value[k]].pubDate > reviews[r.value[l]].pubDate
  {
    ReviewsOfNewestFirst(reviews, t, nextReviewId, clock);
    if t !in titles then Err(NotFound) else Ok(ReviewsOf(reviews, t, nextReviewId))
  }

  /** The comments of a review, newest first; 404 when the review is absent.
      The title in the route is not consulted. */
  function ListComments(reviews: map<nat, Review>, comments: map<nat, Comment>, i: nat, nextCommentId: nat, clock: nat): (r: Result<seq<nat>>)
    requires CommentStamps(comments, nextCommentId, clock)
    ensures r.Err? <==> i !in reviews
    ensures r.Err? ==> r.failure == NotFound
    ensures r.Ok? ==> forall c :: c in r.value <==> c in comments && comments[c].review == i
    ensures r.Ok? ==> forall k, l :: 0 <= k < l < |r.value| ==> comments[r.value[k]].pubDate > comments[r.value[l]].pubDate
  {
    CommentsOfNewestFirst(comments, i, nextCommentId, clock);
    if i !in reviews then Err(NotFound) else Ok(CommentsOf(comments, i, nextCommentId))
  }

  // ---------------------------------------------------------------- sign-up and token

  /** An access token, standing for the signed token issued for a user. */
  datatype AccessToken = AccessToken(subject: string)

  /** A user with exactly this username and e-mail exists. */
  predicate PairExists(users: map<string, Account>, d: SignUpData) {
    d.username in users && users[d.username].email == d.email
  }

  /** Sign-up: get-or-create the user for the (username, e-mail) pair, new
      users inactive; a collision on one of the two alone is refused; then
      the fresh confirmation code replaces the stored one. */
  method Signup(db: Store, rawUsername: string, rawEmail: string, freshCode: string) returns (r: Result<SignUpData>)
    requires db.Valid()
    modifies db`users
    ensures db.Valid()
    ensures r.Err? ==> r.failure == BadRequest && db.users == old(db.users)
    ensures ValidateSignUp(rawUsername, rawEmail).Err? ==> r.Err?
    ensures r.Ok? ==> r == ValidateSignUp(rawUsername, rawEmail)
    ensures r.Ok? && PairExists(old(db.users), r.value) ==>
            db.users == old(db.users)[r.value.username := old(db.users)[r.value.username].(code := Some(freshCode))]
    ensures r.Ok? && !PairExists(old(db.users), r.value) ==>
            && r.value.username !in old(db.users)
            && db.users == old(db.users)[r.value.username := SignedUpAccount(r.value.email).(code := Some(freshCode))]
            && |db.users| == |old(db.users)| + 1
    ensures r.Ok? && PairExists(old(db.users), r.value) ==> db.users.Keys == old(db.users).Keys
    ensures ValidateSignUp(rawUsername, rawEmail).Ok? ==>
            var d := ValidateSignUp(rawUsername, rawEmail).value;
            (r.Err? <==> !PairExists(old(db.users), d) && (d.username in old(db.users) || EmailTaken(old(db.users), d.email)))
  {
    var v := ValidateSignUp(rawUsername, rawEmail);
    if v.Err? {
      return Err(BadRequest);
    }
    var d := v.value;
    if PairExists(db.users, d) {
      db.PutAccount(d.username, db.users[d.username].(code := Some(freshCode)));
    } else if d.username in db.users || EmailTaken(db.users, d.email) {
      return Err(BadRequest);
    } else {
      db.PutAccount(d.username, SignedUpAccount(d.email).(code := Some(freshCode)));
    }
    r := Ok(d);
  }

  /** Token exchange: 404 for an unknown username, 400 unless the code equals
      the stored one; on a match the user becomes active and the code stays. */
  method ObtainToken(db: Store, rawUsername: Option<string>, rawCode: Option<string>) returns (r: Result<AccessToken>)
    requires db.Valid()
    modifies db`users
    ensures db.Valid()
    ensures r.Err? ==> db.users == old(db.users)
    ensures r.Ok? ==> r.value.subject in old(db.users) && old(db.users)[r.value.subject].code.Some?
    ensures ValidateTokenRequest(rawUsername, rawCode).Err? ==> r == Err(BadRequest)
    ensures ValidateTokenRequest(rawUsername, rawCode).Ok? ==>
            var q := ValidateTokenRequest(rawUsername, rawCode).value;
            && (q.username !in old(db.users) ==> r == Err(NotFound))
            && (q.username in old(db.users) && old(db.users)[q.username].code != Some(q.code) ==>
                  r == Err(BadRequest))
            && (q.username in old(db.users) && old(db.users)[q.username].code == Some(q.code) ==>
                  r == Ok(AccessToken(q.username)) &&
                  db.users == old(db.users)[q.username := old(db.users)[q.username].(isActive := true)])
  {
    var v := ValidateTokenRequest(rawUsername, rawCode);
    if v.Err? {
      return Err(BadRequest);
    }
    var q := v.value;
    if q.username !in db.users {
      return Err(NotFound);
    }
    var account := db.users[q.username];
    if account.code != Some(q.code) {
      return Err(BadRequest);
    }
    db.PutAccount(q.username, account.(isActive := true));
    r := Ok(AccessToken(q.username));
  }

  // ---------------------------------------------------------------- reviews and comments

  /** The requesting user, looked up by the username the request was
      authenticated as; nobody, or a name without a row, is anonymous. */
  function PrincipalOf(users: map<string, Account>, requester: Option<string>): (p: Principal)
    ensures p.Member? <==> requester.Some? && requester.value in users
    ensures p.Member? ==> p.username == requester.value && p.account == users[p.username]
  {
    if requester.Some? && requester.value in users then Member(requester.value, users[requester.value])
    else Anonymous
  }

  /** Creates a review: 401 without a user, 400 when the body is refused
      (checked before the title is looked up), 404 for a missing title; the
      author is the requesting user and the title the one in the route. */
  method CreateReview(db: Store, requester: Option<string>, titleId: nat, p: ReviewPayload) returns (r: Result<nat>)
    requires db.Valid()
    modifies db`reviews, db`nextReviewId, db`clock
    ensures db.Valid()
    ensures r.Err? ==> db.reviews == old(db.reviews) && db.nextReviewId == old(db.nextReviewId) && db.clock == old(db.clock)
    ensures PrincipalOf(db.users, requester).Anonymous? ==> r == Err(NotAuthenticated)
    ensures PrincipalOf(db.users, requester).Member? && ValidateReview(p, requester.value, titleId, old(db.reviews)).Err? ==>
            r == Err(BadRequest)
    ensures (PrincipalOf(db.users, requester).Member? && ValidateReview(p, requester.value, titleId, old(db.reviews)).Ok? &&
             titleId !in db.titles) ==> r == Err(NotFound)
    ensures r.Ok? <==>
            PrincipalOf(db.users, requester).Member? && ValidateReview(p, requester.value, titleId, old(db.reviews)).Ok? &&
            titleId in db.titles
    ensures r.Ok? ==>
            var d := ValidateReview(p, requester.value, titleId, old(db.reviews)).value;
            r.value == old(db.nextReviewId) &&
            db.reviews == old(db.reviews)[r.value := Review(titleId, requester, d.text, d.score, old(db.clock))] &&
            db.nextReviewId == old(db.nextReviewId) + 1 && db.clock == old(db.clock) + 1
  {
    var who := PrincipalOf(db.users, requester);
    if who.Anonymous? {
      return Err(NotAuthenticated);
    }
    var v := ValidateReview(p, who.username, titleId, db.reviews);
    if v.Err? {
      return Err(BadRequest);
    }
    if titleId !in db.titles {
      return Err(NotFound);
    }
    var id := db.AddReview(titleId, who.username, v.value.text, v.value.score);
    r := Ok(id);
  }

  /** The review exists and belongs to the title in the route (with the
      title present, as `get_title` demands). */
  predicate ReviewInRoute(titles: map<nat, Title>, reviews: map<nat, Review>, titleId: nat, reviewId: nat) {
    titleId in titles && reviewId in reviews && reviews[reviewId].title == titleId
  }

  /** Partially updates a review's text or score: 401 without a user, 404
      unless the review is in the route, 403 unless the user is an admin, a
      moderator or the author, 400 for a blank text or a score outside
      [1, 10]. Author, title and stamp never change. */
  method UpdateReview(db: Store, requester: Option<string>, titleId: nat, reviewId: nat, text: Option<string>, score: Option<int>)
    returns (r: Result<nat>)
    requires db.Valid()
    modifies db`reviews
    ensures db.Valid()
    ensures r.Err? ==> db.reviews == old(db.reviews)
    ensures PrincipalOf(db.users, requester).Anonymous? ==> r == Err(NotAuthenticated)
    ensures (PrincipalOf(db.users, requester).Member? && !ReviewInRoute(db.titles, old(db.reviews), titleId, reviewId)) ==>
            r == Err(NotFound)
    ensures (ReviewInRoute(db.titles, old(db.reviews), titleId, reviewId) &&
             PrincipalOf(db.users, requester).Member? &&
             !StaffOrAuthorOrReadOnly(PrincipalOf(db.users, requester), Patch, old(db.reviews)[reviewId].author)) ==>
            r == Err(Forbidden)
    ensures (ReviewInRoute(db.titles, old(db.reviews), titleId, reviewId) &&
             PrincipalOf(db.users, requester).Member? &&
             StaffOrAuthorOrReadOnly(PrincipalOf(db.users, requester), Patch, old(db.reviews)[reviewId].author) &&
             !(CleanText(text).Some? == text.Some? && (score.None? || ScoreValid(score.value)))) ==>
            r == Err(BadRequest)
    ensures r.Ok? <==>
            && ReviewInRoute(db.titles, old(db.reviews), titleId, reviewId)
            && PrincipalOf(db.users, requester).Member?
            && StaffOrAuthorOrReadOnly(PrincipalOf(db.users, requester), Patch, old(db.reviews)[reviewId].author)
            && CleanText(text).Some? == text.Some?
            && (score.None? || ScoreValid(score.value))
    ensures r.Ok? ==>
            var row := old(db.reviews)[reviewId];
            r.value == reviewId &&
            db.reviews == old(db.reviews)[reviewId := row.(
              text := if text.Some? then Strip(text.value) else row.text,
              score := if score.Some? then score.value else row.score)]
  {
    var who := PrincipalOf(db.users, requester);
    if who.Anonymous? {
      return Err(NotAuthenticated);
    }
    if !ReviewInRoute(db.titles, db.reviews, titleId, reviewId) {
      return Err(NotFound);
    }
    var row := db.reviews[reviewId];
    if !StaffOrAuthorOrReadOnly(who, Patch, row.author) {
      return Err(Refusal(who));
    }
    var newText := CleanText(text);
    if newText.Some? != text.Some? || (score.Some? && !ScoreValid(score.value)) {
      return Err(BadRequest);
    }
    db.EditReview(reviewId,
      if newText.Some? then newText.value else row.text,
      if score.Some? then score.value else row.score);
    r := Ok(reviewId);
  }

  /** Deletes a review with its comments: 401 without a user, 404 unless the
      review is in the route, 403 unless the user is an admin, a moderator
      or the author. */
  method DestroyReview(db: Store, requester: Option<string>, titleId: nat, reviewId: nat) returns (r: Result<nat>)
    requires db.Valid()
    modifies db`reviews, db`comments
    ensures db.Valid()
    ensures PrincipalOf(db.users, requester).Anonymous? ==> r == Err(NotAuthenticated)
    ensures (PrincipalOf(db.users, requester).Member? && !ReviewInRoute(db.titles, old(db.reviews), titleId, reviewId)) ==>
            r == Err(NotFound)
    ensures (ReviewInRoute(db.titles, old(db.reviews), titleId, reviewId) &&
             PrincipalOf(db.users, requester).Member? &&
             !StaffOrAuthorOrReadOnly(PrincipalOf(db.users, requester), Delete, old(db.reviews)[reviewId].author)) ==>
            r == Err(Forbidden)
    ensures r.Ok? <==>
            && ReviewInRoute(db.titles, old(db.reviews), titleId, reviewId)
            && PrincipalOf(db.users, requester).Member?
            && StaffOrAuthorOrReadOnly(PrincipalOf(db.users, requester), Delete, old(db.reviews)[reviewId].author)
    ensures r.Err? ==> db.reviews == old(db.reviews) && db.comments == old(db.comments)
    ensures r.Ok? ==>
            r.value == reviewId && db.reviews == old(db.reviews) - {reviewId} &&
            db.comments == CommentsOnSurvivingReviews(old(db.comments), db.reviews)
  {
    var who := PrincipalOf(db.users, requester);
    if who.Anonymous? {
      return Err(NotAuthenticated);
    }
    if !ReviewInRoute(db.titles, db.reviews, titleId, reviewId) {
      return Err(NotFound);
    }
    if !StaffOrAuthorOrReadOnly(who, Delete, db.reviews[reviewId].author) {
      return Err(Refusal(who));
    }
    db.DeleteReview(reviewId);
    r := Ok(reviewId);
  }

  /** Creates a comment: 401 without a user, 400 for a blank text, 404 for a
      missing review (looked up by its id alone); the author is the
      requesting user and the review the one in the route. */
  method CreateComment(db: Store, requester: Option<string>, titleId: nat, reviewId: nat, p: CommentPayload) returns (r: Result<nat>)
    requires db.Valid()
    modifies db`comments, db`nextCommentId, db`clock
    ensures db.Valid()
    ensures r.Err? ==> db.comments == old(db.comments) && db.nextCommentId == old(db.nextCommentId) && db.clock == old(db.clock)
    ensures PrincipalOf(db.users, requester).Anonymous? ==> r == Err(NotAuthenticated)
    ensures PrincipalOf(db.users, requester).Member? && ValidateComment(p).Err? ==> r == Err(BadRequest)
    ensures PrincipalOf(db.users, requester).Member? && ValidateComment(p).Ok? && reviewId !in db.reviews ==>
            r == Err(NotFound)
    ensures r.Ok? <==> PrincipalOf(db.users, requester).Member? && ValidateComment(p).Ok? && reviewId in db.reviews
    ensures r.Ok? ==>
            r.value == old(db.nextCommentId) &&
            db.comments == old(db.comments)[r.value := Comment(reviewId, requester, ValidateComment(p).value, old(db.clock))] &&
            db.nextCommentId == old(db.nextCommentId) + 1 && db.clock == old(db.clock) + 1
  {
    var who := PrincipalOf(db.users, requester);
    if who.Anonymous? {
      return Err(NotAuthenticated);
    }
    var v := ValidateComment(p);
    if v.Err? {
      return Err(BadRequest);
    }
    if reviewId !in db.reviews {
      return Err(NotFound);
    }
    var id := db.AddComment(reviewId, who.username, v.value);
    r := Ok(id);
  }

  /** The review exists and the comment is one of its comments. */
  predicate CommentInRoute(reviews: map<nat, Review>, comments: map<nat, Comment>, reviewId: nat, commentId: nat) {
    reviewId in reviews && commentId in comments && comments[commentId].review == reviewId
  }

  /** Partially updates a comment's text: 401 without a user, 404 unless the
      comment is on the review in the route, 403 unless the user is an
      admin, a moderator or the author, 400 for a blank text. */
  method UpdateComment(db: Store, requester: Option<string>, titleId: nat, reviewId: nat, commentId: nat, text: Option<string>)
    returns (r: Result<nat>)
    requires db.Valid()
    modifies db`comments
    ensures db.Valid()
    ensures r.Err? ==> db.comments == old(db.comments)
    ensures PrincipalOf(db.users, requester).Anonymous? ==> r == Err(NotAuthenticated)
    ensures (PrincipalOf(db.users, requester).Member? && !CommentInRoute(db.reviews, old(db.comments), reviewId, commentId)) ==>
            r == Err(NotFound)
    ensures (CommentInRoute(db.reviews, old(db.comments), reviewId, commentId) &&
             PrincipalOf(db.users, requester).Member? &&
             !StaffOrAuthorOrReadOnly(PrincipalOf(db.users, requester), Patch, old(db.comments)[commentId].author)) ==>
            r == Err(Forbidden)
    ensures (CommentInRoute(db.reviews, old(db.comments), reviewId, commentId) &&
             PrincipalOf(db.users, requester).Member? &&
             StaffOrAuthorOrReadOnly(PrincipalOf(db.users, requester), Patch, old(db.comments)[commentId].author) &&
             CleanText(text).Some? != text.Some?) ==>
            r == Err(BadRequest)
    ensures r.Ok? <==>
            && CommentInRoute(db.reviews, old(db.comments), reviewId, commentId)
            && PrincipalOf(db.users, requester).Member?
            && StaffOrAuthorOrReadOnly(PrincipalOf(db.users, requester), Patch, old(db.comments)[commentId].author)
            && CleanText(text).Some? == text.Some?
    ensures r.Ok? ==>
            var row := old(db.comments)[commentId];
            r.value == commentId &&
            db.comments == old(db.comments)[commentId := row.(text := if text.Some? then Strip(text.value) else row.text)]
  {
    var who := PrincipalOf(db.users, requester);
    if who.Anonymous? {
      return Err(NotAuthenticated);
    }
    if !CommentInRoute(db.reviews, db.comments, reviewId, commentId) {
      return Err(NotFound);
    }
    var row := db.comments[commentId];
    if !StaffOrAuthorOrReadOnly(who, Patch, row.author) {
      return Err(Refusal(who));
    }
    var newText := CleanText(text);
    if newText.Some? != text.Some? {
      return Err(BadRequest);
    }
    db.EditComment(commentId, if newText.Some? then newText.value else row.text);
    r := Ok(commentId);
  }

  /** Deletes a comment: 401 without a user, 404 unless the comment is on the
      review in the route, 403 unless the user is an admin, a moderator or
      the author. */
  method DestroyComment(db: Store, requester: Option<string>, titleId: nat, reviewId: nat, commentId: nat) returns (r: Result<nat>)
    requires db.Valid()
    modifies db`comments
    ensures db.Valid()
    ensures PrincipalOf(db.users, requester).Anonymous? ==> r == Err(NotAuthenticated)
    ensures (PrincipalOf(db.users, requester).Member? && !CommentInRoute(db.reviews, old(db.comments), reviewId, commentId)) ==>
            r == Err(NotFound)
    ensures (CommentInRoute(db.reviews, old(db.comments), reviewId, commentId) &&
             PrincipalOf(db.users, requester).Member? &&
             !StaffOrAuthorOrReadOnly(PrincipalOf(db.users, requester), Delete, old(db.comments)[commentId].author)) ==>
            r == Err(Forbidden)
    ensures r.Ok? <==>
            && CommentInRoute(db.reviews, old(db.comments), reviewId, commentId)
            && PrincipalOf(db.users, requester).Member?
            && StaffOrAuthorOrReadOnly(PrincipalOf(db.users, requester), Delete, old(db.comments)[commentId].author)
    ensures r.Err? ==> db.comments == old(db.comments)
    ensures r.Ok? ==> r.value == commentId && db.comments == old(db.comments) - {commentId}
  {
    var who := PrincipalOf(db.users, requester);
    if who.Anonymous? {
      return Err(NotAuthenticated);
    }
    if !CommentInRoute(db.reviews, db.comments, reviewId, commentId) {
      return Err(NotFound);
    }
    if !StaffOrAuthorOrReadOnly(who, Delete, db.comments[commentId].author) {
      return Err(Refusal(who));
    }
    db.DeleteComment(commentId);
    r := Ok(commentId);
  }

  // ---------------------------------------------------------------- catalog

  /** Creates a title: 401/403 unless an admin asks, 400 when the body is
      refused; the client's rating is ignored. */
  method CreateTitle(db: Store, requester: Option<string>, p: TitlePayload, currentYear: int) returns (r: Result<nat>)
    requires db.Valid()
    modifies db`titles, db`nextTitleId
    ensures db.Valid()
    ensures r.Err? ==> db.titles == old(db.titles) && db.nextTitleId == old(db.nextTitleId)
    ensures !AdminOnly(PrincipalOf(db.users, requester)) ==> r == Err(Refusal(PrincipalOf(db.users, requester)))
    ensures AdminOnly(PrincipalOf(db.users, requester)) ==>
            var v := ValidateTitle(p, currentYear, db.categories.Keys, db.genres.Keys);
            && (v.Err? ==> r == Err(BadRequest))
            && (v.Ok? ==> r == Ok(old(db.nextTitleId)) && db.titles == old(db.titles)[r.value := v.value] &&
                          db.nextTitleId == old(db.nextTitleId) + 1)
  {
    var who := PrincipalOf(db.users, requester);
    if !AdminOrReadOnly(who, Post) {
      return Err(Refusal(who));
    }
    var v := ValidateTitle(p, currentYear, db.categories.Keys, db.genres.Keys);
    if v.Err? {
      return Err(BadRequest);
    }
    var id := db.AddTitle(v.value);
    r := Ok(id);
  }

  /** Deletes a title with its reviews and their comments: 401/403 unless an
      admin asks, 404 for a missing title. */
  method DestroyTitle(db: Store, requester: Option<string>, titleId: nat) returns (r: Result<nat>)
    requires db.Valid()
    modifies db`titles, db`reviews, db`comments
    ensures db.Valid()
    ensures !AdminOnly(PrincipalOf(db.users, requester)) ==> r == Err(Refusal(PrincipalOf(db.users, requester)))
    ensures AdminOnly(PrincipalOf(db.users, requester)) && titleId !in old(db.titles) ==> r == Err(NotFound)
    ensures r.Ok? <==> AdminOnly(PrincipalOf(db.users, requester)) && titleId in old(db.titles)
    ensures r.Err? ==> db.titles == old(db.titles) && db.reviews == old(db.reviews) && db.comments == old(db.comments)
    ensures r.Ok? ==>
            && r.value == titleId
            && db.titles == old(db.titles) - {titleId}
            && db.reviews == ReviewsAfterTitleDeleted(old(db.reviews), titleId)
            && db.comments == CommentsOnSurvivingReviews(old(db.comments), db.reviews)
  {
    var who := PrincipalOf(db.users, requester);
    if !AdminOrReadOnly(who, Delete) {
      return Err(Refusal(who));
    }
    if titleId !in db.titles {
      return Err(NotFound);
    }
    db.DeleteTitle(titleId);
    r := Ok(titleId);
  }

  /** The two rubric tables, which share one view. */
  datatype Catalog = Categories | Genres

  function RubricSlugs(kind: Catalog, categories: map<string, Rubric>, genres: map<string, Rubric>): set<string> {
    if kind == Categories then categories.Keys else genres.Keys
  }

  /** Creates a category or a genre: 401/403 unless an admin asks, 400 when
      the name or the slug is refused or the slug is taken. */
  method CreateRubric(db: Store, requester: Option<string>, kind: Catalog, rawName: Option<string>, rawSlug: Option<string>)
    returns (r: Result<RubricData>)
    requires db.Valid()
    modifies db`categories, db`genres
    ensures db.Valid()
    ensures r.Err? ==> db.categories == old(db.categories) && db.genres == old(db.genres)
    ensures !AdminOnly(PrincipalOf(db.users, requester)) ==> r == Err(Refusal(PrincipalOf(db.users, requester)))
    ensures AdminOnly(PrincipalOf(db.users, requester)) ==>
            r == ValidateRubric(rawName, rawSlug, RubricSlugs(kind, old(db.categories), old(db.genres)))
    ensures r.Ok? && kind == Categories ==>
            db.categories == old(db.categories)[r.value.slug := Rubric(r.value.name)] && db.genres == old(db.genres)
    ensures r.Ok? && kind == Genres ==>
            db.genres == old(db.genres)[r.value.slug := Rubric(r.value.name)] && db.categories == old(db.categories)
  {
    var who := PrincipalOf(db.users, requester);
    if !AdminOrReadOnly(who, Post) {
      return Err(Refusal(who));
    }
    var used := RubricSlugs(kind, db.categories, db.genres);
    var v := ValidateRubric(rawName, rawSlug, used);
    if v.Err? {
      return v;
    }
    AddRubric(db, kind, v.value);
    r := v;
  }

  /** Stores a validated category or genre under its slug. */
  method AddRubric(db: Store, kind: Catalog, d: RubricData)
    requires db.Valid() && d.slug !in RubricSlugs(kind, db.categories, db.genres)
    modifies db`categories, db`genres
    ensures db.Valid()
    ensures kind == Categories ==>
            db.categories == old(db.categories)[d.slug := Rubric(d.name)] && db.genres == old(db.genres)
    ensures kind == Genres ==>
            db.genres == old(db.genres)[d.slug := Rubric(d.name)] && db.categories == old(db.categories)
  {
    if kind == Categories {
      db.AddCategory(d.slug, d.name);
    } else {
      db.AddGenre(d.slug, d.name);
    }
  }

  /** Deletes a category (its titles lose their category) or a genre (its
      links to titles go): 401/403 unless an admin asks, 404 for an unknown
      slug. */
  method DestroyRubric(db: Store, requester: Option<string>, kind: Catalog, slug: string) returns (r: Result<string>)
    requires db.Valid()
    modifies db`categories, db`genres, db`titles
    ensures db.Valid()
    ensures !AdminOnly(PrincipalOf(db.users, requester)) ==> r == Err(Refusal(PrincipalOf(db.users, requester)))
    ensures AdminOnly(PrincipalOf(db.users, requester)) && slug !in RubricSlugs(kind, old(db.categories), old(db.genres)) ==> r == Err(NotFound)
    ensures r.Ok? <==> AdminOnly(PrincipalOf(db.users, requester)) && slug in RubricSlugs(kind, old(db.categories), old(db.genres))
    ensures r.Err? ==>
            db.categories == old(db.categories) && db.genres == old(db.genres) && db.titles == old(db.titles)
    ensures r.Ok? ==> r.value == slug
    ensures r.Ok? && kind == Categories ==>
            && db.categories == old(db.categories) - {slug} && db.genres == old(db.genres)
            && db.titles == TitlesAfterCategoryDeleted(old(db.titles), slug)
    ensures r.Ok? && kind == Genres ==>
            && db.genres == old(db.genres) - {slug} && db.categories == old(db.categories)
            && db.titles == TitlesAfterGenreDeleted(old(db.titles), slug)
  {
    var who := PrincipalOf(db.users, requester);
    if !AdminOrReadOnly(who, Delete) {
      return Err(Refusal(who));
    }
    if slug !in RubricSlugs(kind, db.categories, db.genres) {
      return Err(NotFound);
    }
    if kind == Categories {
      db.DeleteCategory(slug);
    } else {
      db.DeleteGenre(slug);
    }
    r := Ok(slug);
  }

  // ---------------------------------------------------------------- users

  /** Updates the requesting user's own account: 401 without a user, 400 when
      the patch is refused; the role is read-only here. */
  method UpdateMe(db: Store, requester: Option<string>, p: UserPatch) returns (r: Result<Account>)
    requires db.Valid()
    modifies db`users
    ensures db.Valid()
    ensures r.Err? ==> db.users == old(db.users)
    ensures PrincipalOf(old(db.users), requester).Anonymous? ==> r == Err(NotAuthenticated)
    ensures PrincipalOf(old(db.users), requester).Member? ==>
            && r == ApplyUserPatch(old(db.users), requester.value, p, false)
            && (r.Ok? ==> db.users == old(db.users)[requester.value := r.value])
            && (r.Ok? ==> r.value.role == old(db.users)[requester.value].role &&
                          r.value.isStaff == old(db.users)[requester.value].isStaff)
  {
    var who := PrincipalOf(db.users, requester);
    if who.Anonymous? {
      return Err(NotAuthenticated);
    }
    r := ApplyUserPatch(db.users, who.username, p, false);
    if r.Ok? {
      db.PutAccount(who.username, r.value);
    }
  }

  /** Updates any user's account: 401/403 unless an admin asks, 404 for an
      unknown username, 400 when the patch is refused; the role is writable. */
  method UpdateUser(db: Store, requester: Option<string>, username: string, p: UserPatch) returns (r: Result<Account>)
    requires db.Valid()
    modifies db`users
    ensures db.Valid()
    ensures r.Err? ==> db.users == old(db.users)
    ensures !AdminOnly(PrincipalOf(old(db.users), requester)) ==> r == Err(Refusal(PrincipalOf(old(db.users), requester)))
    ensures AdminOnly(PrincipalOf(old(db.users), requester)) && username !in old(db.users) ==> r == Err(NotFound)
    ensures AdminOnly(PrincipalOf(old(db.users), requester)) && username in old(db.users) ==>
            && r == ApplyUserPatch(old(db.users), username, p, true)
            && (r.Ok? ==> db.users == old(db.users)[username := r.value])
  {
    var who := PrincipalOf(db.users, requester);
    if !AdminOnly(who) {
      return Err(Refusal(who));
    }
    if username !in db.users {
      return Err(NotFound);
    }
    r := ApplyUserPatch(db.users, username, p, true);
    if r.Ok? {
      db.PutAccount(username, r.value);
    }
  }

  /** Deletes a user: 401/403 unless an admin asks, 404 for an unknown
      username; their reviews and comments stay without an author. */
  method DestroyUser(db: Store, requester: Option<string>, username: string) returns (r: Result<string>)
    requires db.Valid()
    modifies db`users, db`reviews, db`comments
    ensures db.Valid()
    ensures !AdminOnly(PrincipalOf(old(db.users), requester)) ==> r == Err(Refusal(PrincipalOf(old(db.users), requester)))
    ensures AdminOnly(PrincipalOf(old(db.users), requester)) && username !in old(db.users) ==> r == Err(NotFound)
    ensures r.Ok? <==> AdminOnly(PrincipalOf(old(db.users), requester)) && username in old(db.users)
    ensures r.Err? ==> db.users == old(db.users) && db.reviews == old(db.reviews) && db.comments == old(db.comments)
    ensures r.Ok? ==>
            && r.value == username
            && db.users == old(db.users) - {username}
            && db.reviews == ReviewsAfterUserDeleted(old(db.reviews), username)
            && db.comments == CommentsAfterUserDeleted(old(db.comments), username)
  {
    var who := PrincipalOf(db.users, requester);
    if !AdminOnly(who) {
      return Err(Refusal(who));
    }
    if username !in db.users {
      return Err(NotFound);
    }
    db.DeleteUser(username);
    r := Ok(username);
  }
}
