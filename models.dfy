/** The tables of the reviews app (users, categories, genres, titles, reviews,
    comments), the integrity rules the database keeps on them, and what the
    deletion of a row does to the rows that refer to it. */
module Models {
  import opened Common

  // ---------------------------------------------------------------- users

  /** The three role choices of a user. */
  datatype Role = User | Admin | Moderator

  /** The stored value of each role choice. */
  function RoleName(role: Role): string {
    match role
    case User => "user"
    case Admin => "admin"
    case Moderator => "moderator"
  }

  /** The role column is as wide as the longest choice. */
  const RoleFieldLength: nat := 9

  /** A role a new user gets. */
  const DefaultRole: Role := User

  /** Reads a stored or submitted role value; anything but a choice is refused. */
  function ParseRole(s: string): (r: Option<Role>)
    ensures r.Some? ==> RoleName(r.value) == s
    ensures r.None? ==> forall role :: RoleName(role) != s
  {
    if s == "user" then Some(User)
    else if s == "admin" then Some(Admin)
    else if s == "moderator" then Some(Moderator)
    else None
  }

  /** Every role round-trips through its stored value, which fits the column. */
  lemma RoleChoices(role: Role)
    ensures ParseRole(RoleName(role)) == Some(role)
    ensures |RoleName(role)| <= RoleFieldLength
  {
  }

  /** The user row, keyed by its username in the store. */
  datatype Account = Account(
    email: string,
    role: Role,
    isStaff: bool,
    isActive: bool,
    code: Option<string>)

  /** The row sign-up creates: default role, not staff, inactive, no code yet. */
  function SignedUpAccount(email: string): Account {
    Account(email, DefaultRole, false, false, None)
  }

  /** Admin rights: the staff flag or the admin role. */
  predicate IsAdmin(a: Account) {
    a.isStaff || a.role == Admin
  }

  /** The moderator role alone gives no admin rights, and nor does sign-up. */
  lemma ModeratorIsNotAdmin(a: Account, email: string)
    ensures a.role == Moderator && !a.isStaff ==> !IsAdmin(a)
    ensures !IsAdmin(SignedUpAccount(email)) && SignedUpAccount(email).role == User
  {
  }

  // ---------------------------------------------------------------- catalog and ledger rows

  const MinScore: int := 1
  const MaxScore: int := 10
  const DefaultScore: int := 1

  predicate ScoreValid(score: int) {
    MinScore <= score <= MaxScore
  }

  /** A category or genre row, keyed by its slug in the store. */
  datatype Rubric = Rubric(name: string)

  /** A title row; `genres` and `category` hold slugs. */
  datatype Title = Title(
    name: string,
    year: int,
    description: Option<string>,
    genres: set<string>,
    category: Option<string>)

  /** A review row; `author` holds a username, `pubDate` the insertion stamp. */
  datatype Review = Review(
    title: nat,
    author: Option<string>,
    text: string,
    score: int,
    pubDate: nat)

  /** A comment row. */
  datatype Comment = Comment(
    review: nat,
    author: Option<string>,
    text: string,
    pubDate: nat)

  // ---------------------------------------------------------------- printing

  /** Python's `s[:limit]`, including a negative limit counting from the end. */
  function SlicePrefix(s: string, limit: int): (r: string)
    ensures r <= s
    ensures 0 <= limit ==> |r| <= limit
    ensures |s| <= limit ==> r == s
    ensures 0 <= limit <= |s| ==> |r| == limit
    ensures limit < 0 ==> |r| == if |s| + limit < 0 then 0 else |s| + limit
  {
    if 0 <= limit then (if |s| <= limit then s else s[..limit])
    else if |s| + limit < 0 then []
    else s[..|s| + limit]
  }

  /** The printed form of a row: a prefix of its text if it has one, else of
      its name, else the framework's default representation. */
  function Str(text: Option<string>, name: Option<string>, fallback: string, limit: int): (r: string)
    ensures text.Some? ==> r <= text.value
    ensures text.None? && name.Some? ==> r <= name.value
    ensures text.None? && name.None? ==> r == fallback
    ensures (text.Some? || name.Some?) && 0 <= limit ==> |r| <= limit
    ensures text.Some? && |text.value| <= limit ==> r == text.value
    ensures text.Some? && 0 <= limit ==> |r| == (if |text.value| <= limit then |text.value| else limit)
    ensures text.None? && name.Some? && |name.value| <= limit ==> r == name.value
    ensures text.None? && name.Some? && 0 <= limit ==> |r| == (if |name.value| <= limit then |name.value| else limit)
  {
    if text.Some? then SlicePrefix(text.value, limit)
    else if name.Some? then SlicePrefix(name.value, limit)
    else fallback
  }

  // ---------------------------------------------------------------- integrity rules

  /** The e-mail column is unique. */
  ghost predicate EmailsUnique(users: map<string, Account>) {
    forall u, v {:trigger EmailsDistinct(users, u, v)} :: EmailsDistinct(users, u, v)
  }

  /** Two users with the same e-mail are the same user. */
  predicate EmailsDistinct(users: map<string, Account>, u: string, v: string) {
    u in users && v in users && users[u].email == users[v].email ==> u == v
  }

  /** Storing an account keeps the e-mails unique when it keeps the user's
      own e-mail or takes one nobody else holds. */
  lemma {:induction false} EmailsUniqueAfterPut(users: map<string, Account>, u: string, a: Account)
    requires EmailsUnique(users)
    requires (u in users && a.email == users[u].email) ||
             (forall v :: v in users && v != u ==> users[v].email != a.email)
    ensures EmailsUnique(users[u := a])
  {
    var users' := users[u := a];
    forall x, y
      ensures EmailsDistinct(users', x, y)
    {
      assert EmailsDistinct(users, x, y);
      assert EmailsDistinct(users, x, u) && EmailsDistinct(users, u, y);
    }
  }

  /** Removing a user keeps the e-mails unique. */
  lemma {:induction false} EmailsUniqueAfterRemove(users: map<string, Account>, u: string)
    requires EmailsUnique(users)
    ensures EmailsUnique(users - {u})
  {
    forall x, y
      ensures EmailsDistinct(users - {u}, x, y)
    {
      assert EmailsDistinct(users, x, y);
    }
  }

  predicate EmailTaken(users: map<string, Account>, email: string) {
    exists u :: u in users && users[u].email == email
  }

  predicate ScoresValid(reviews: map<nat, Review>) {
    forall i :: i in reviews ==> ScoreValid(reviews[i].score)
  }

  /** The unique constraint on (title, author); rows whose author was nulled
      are not constrained. */
  ghost predicate OneReviewPerAuthor(reviews: map<nat, Review>) {
    forall i: nat, j: nat {:trigger SameAuthorSameReview(reviews, i, j)} :: SameAuthorSameReview(reviews, i, j)
  }

  /** Two reviews by the same (non-null) author of the same title are one. */
  predicate SameAuthorSameReview(reviews: map<nat, Review>, i: nat, j: nat) {
    (i in reviews && j in reviews && reviews[i].author.Some? &&
     reviews[i].title == reviews[j].title && reviews[i].author == reviews[j].author) ==> i == j
  }

  /** A review by an author who has none on that title keeps the constraint. */
  lemma {:induction false} OneReviewPerAuthorAfterInsert(reviews: map<nat, Review>, id: nat, row: Review)
    requires OneReviewPerAuthor(reviews) && id !in reviews
    requires row.author.Some? ==> !HasReview(reviews, row.title, row.author.value)
    ensures OneReviewPerAuthor(reviews[id := row])
  {
    var reviews' := reviews[id := row];
    forall i: nat, j: nat
      ensures SameAuthorSameReview(reviews', i, j)
    {
      assert SameAuthorSameReview(reviews, i, j);
    }
  }

  /** Dropping reviews, or nulling authors, keeps the constraint. */
  lemma {:induction false} OneReviewPerAuthorAfterShrink(reviews: map<nat, Review>, reviews': map<nat, Review>)
    requires OneReviewPerAuthor(reviews)
    requires forall i :: i in reviews' ==>
               i in reviews && reviews'[i].title == reviews[i].title &&
               (reviews'[i].author == reviews[i].author || reviews'[i].author.None?)
    ensures OneReviewPerAuthor(reviews')
  {
    forall i: nat, j: nat
      ensures SameAuthorSameReview(reviews', i, j)
    {
      assert SameAuthorSameReview(reviews, i, j);
    }
  }

  predicate HasReview(reviews: map<nat, Review>, title: nat, author: string) {
    exists i :: i in reviews && reviews[i].title == title && reviews[i].author == Some(author)
  }

  predicate TitleRefsResolve(titles: map<nat, Title>, categories: map<string, Rubric>, genres: map<string, Rubric>) {
    forall t :: t in titles ==>
      (titles[t].category.Some? ==> titles[t].category.value in categories) &&
      titles[t].genres <= genres.Keys
  }

  predicate ReviewRefsResolve(reviews: map<nat, Review>, titles: map<nat, Title>, users: map<string, Account>) {
    forall i :: i in reviews ==>
      reviews[i].title in titles &&
      (reviews[i].author.Some? ==> reviews[i].author.value in users)
  }

  predicate CommentRefsResolve(comments: map<nat, Comment>, reviews: map<nat, Review>, users: map<string, Account>) {
    forall c :: c in comments ==>
      comments[c].review in reviews &&
      (comments[c].author.Some? ==> comments[c].author.value in users)
  }

  /** Ids and publication stamps are handed out by increasing counters, so a
      later row has both the larger id and the later stamp. */
  ghost predicate ReviewStamps(reviews: map<nat, Review>, nextId: nat, clock: nat) {
    && (forall i :: i in reviews ==> i < nextId && reviews[i].pubDate < clock)
    && (forall i: nat, j: nat {:trigger ReviewStampedBefore(reviews, i, j)} :: ReviewStampedBefore(reviews, i, j))
  }

  /** Of two reviews, the one with the smaller id was published first. */
  predicate ReviewStampedBefore(reviews: map<nat, Review>, i: nat, j: nat) {
    i in reviews && j in reviews && i < j ==> reviews[i].pubDate < reviews[j].pubDate
  }

  ghost predicate CommentStamps(comments: map<nat, Comment>, nextId: nat, clock: nat) {
    && (forall c :: c in comments ==> c < nextId && comments[c].pubDate < clock)
    && (forall c: nat, d: nat {:trigger CommentStampedBefore(comments, c, d)} :: CommentStampedBefore(comments, c, d))
  }

  /** Of two comments, the one with the smaller id was published first. */
  predicate CommentStampedBefore(comments: map<nat, Comment>, c: nat, d: nat) {
    c in comments && d in comments && c < d ==> comments[c].pubDate < comments[d].pubDate
  }

  /** A new review, stamped with the clock under the next id, keeps the
      stamps in id order. */
  lemma {:induction false} ReviewStampsAfterInsert(reviews: map<nat, Review>, row: Review, nextId: nat, clock: nat)
    requires ReviewStamps(reviews, nextId, clock) && row.pubDate == clock
    ensures ReviewStamps(reviews[nextId := row], nextId + 1, clock + 1)
  {
    var reviews' := reviews[nextId := row];
    forall i: nat, j: nat
      ensures ReviewStampedBefore(reviews', i, j)
    {
      assert ReviewStampedBefore(reviews, i, j);
    }
  }

  /** Dropping reviews, or changing anything but their stamps, keeps the
      stamps in id order; so does a later clock. */
  lemma {:induction false} ReviewStampsAfterShrink(
    reviews: map<nat, Review>, reviews': map<nat, Review>, nextId: nat, clock: nat, clock': nat)
    requires ReviewStamps(reviews, nextId, clock) && clock <= clock'
    requires forall i :: i in reviews' ==> i in reviews && reviews'[i].pubDate == reviews[i].pubDate
    ensures ReviewStamps(reviews', nextId, clock')
  {
    forall i: nat, j: nat
      ensures ReviewStampedBefore(reviews', i, j)
    {
      assert ReviewStampedBefore(reviews, i, j);
    }
  }

  /** A new comment, stamped with the clock under the next id, keeps the
      stamps in id order. */
  lemma {:induction false} CommentStampsAfterInsert(comments: map<nat, Comment>, row: Comment, nextId: nat, clock: nat)
    requires CommentStamps(comments, nextId, clock) && row.pubDate == clock
    ensures CommentStamps(comments[nextId := row], nextId + 1, clock + 1)
  {
    var comments' := comments[nextId := row];
    forall c: nat, d: nat
      ensures CommentStampedBefore(comments', c, d)
    {
      assert CommentStampedBefore(comments, c, d);
    }
  }

  /** Dropping comments, or changing anything but their stamps, keeps the
      stamps in id order; so does a later clock. */
  lemma {:induction false} CommentStampsAfterShrink(
    comments: map<nat, Comment>, comments': map<nat, Comment>, nextId: nat, clock: nat, clock': nat)
    requires CommentStamps(comments, nextId, clock) && clock <= clock'
    requires forall c :: c in comments' ==> c in comments && comments'[c].pubDate == comments[c].pubDate
    ensures CommentStamps(comments', nextId, clock')
  {
    forall c: nat, d: nat
      ensures CommentStampedBefore(comments', c, d)
    {
      assert CommentStampedBefore(comments, c, d);
    }
  }

  /** The rules on the review table: scores in range, one review per
      (title, author), references that resolve, stamps in id order. */
  ghost predicate ReviewsValid(reviews: map<nat, Review>, titles: map<nat, Title>, users: map<string, Account>, nextId: nat, clock: nat) {
    && ScoresValid(reviews)
    && OneReviewPerAuthor(reviews)
    && ReviewRefsResolve(reviews, titles, users)
    && ReviewStamps(reviews, nextId, clock)
  }

  /** The rules on the comment table: references that resolve, stamps in id
      order. */
  ghost predicate CommentsValid(comments: map<nat, Comment>, reviews: map<nat, Review>, users: map<string, Account>, nextId: nat, clock: nat) {
    && CommentRefsResolve(comments, reviews, users)
    && CommentStamps(comments, nextId, clock)
  }

  /** The rules on the title table: references that resolve, ids below the
      counter. */
  predicate TitlesValid(titles: map<nat, Title>, categories: map<string, Rubric>, genres: map<string, Rubric>, nextId: nat) {
    && TitleRefsResolve(titles, categories, genres)
    && (forall t :: t in titles ==> t < nextId)
  }

  /** All integrity rules of the schema over one state of the tables. */
  ghost predicate StoreRules(
    users: map<string, Account>, categories: map<string, Rubric>, genres: map<string, Rubric>,
    titles: map<nat, Title>, reviews: map<nat, Review>, comments: map<nat, Comment>,
    nextTitleId: nat, nextReviewId: nat, nextCommentId: nat, clock: nat)
  {
    && EmailsUnique(users)
    && TitlesValid(titles, categories, genres, nextTitleId)
    && ReviewsValid(reviews, titles, users, nextReviewId, clock)
    && CommentsValid(comments, reviews, users, nextCommentId, clock)
  }

  // ---------------------------------------------------------------- deletion effects

  /** Reviews cascade with their title. */
  function ReviewsAfterTitleDeleted(reviews: map<nat, Review>, t: nat): map<nat, Review> {
    map i | i in reviews && reviews[i].title != t :: reviews[i]
  }

  /** Comments cascade with their review: those whose review is gone go too. */
  function CommentsOnSurvivingReviews(comments: map<nat, Comment>, reviews: map<nat, Review>): map<nat, Comment> {
    map c | c in comments && comments[c].review in reviews :: comments[c]
  }

  /** The author of a review is set to null when the user is deleted. */
  function ReviewsAfterUserDeleted(reviews: map<nat, Review>, u: string): map<nat, Review> {
    map i | i in reviews :: if reviews[i].author == Some(u) then reviews[i].(author := None) else reviews[i]
  }

  function CommentsAfterUserDeleted(comments: map<nat, Comment>, u: string): map<nat, Comment> {
    map c | c in comments :: if comments[c].author == Some(u) then comments[c].(author := None) else comments[c]
  }

  /** The category of a title is set to null when the category is deleted. */
  function TitlesAfterCategoryDeleted(titles: map<nat, Title>, slug: string): map<nat, Title> {
    map t | t in titles :: if titles[t].category == Some(slug) then titles[t].(category := None) else titles[t]
  }

  /** Deleting a genre deletes its rows of the title-genre link table. */
  function TitlesAfterGenreDeleted(titles: map<nat, Title>, slug: string): map<nat, Title> {
    map t | t in titles :: titles[t].(genres := titles[t].genres - {slug})
  }

  /** Deleting a title removes exactly its reviews and the comments on them,
      keeps every other row as it was, and leaves no dangling reference. */
  lemma TitleCascade(
    titles: map<nat, Title>, reviews: map<nat, Review>, comments: map<nat, Comment>,
    users: map<string, Account>, t: nat)
    requires ReviewRefsResolve(reviews, titles, users)
    requires CommentRefsResolve(comments, reviews, users)
    ensures var reviews' := ReviewsAfterTitleDeleted(reviews, t);
            var comments' := CommentsOnSurvivingReviews(comments, reviews');
            && (forall i :: i in reviews' <==> i in reviews && reviews[i].title != t)
            && (forall i :: i in reviews' ==> reviews'[i] == reviews[i])
            && (forall c :: c in comments' <==> c in comments && reviews[comments[c].review].title != t)
            && (forall c :: c in comments' ==> comments'[c] == comments[c])
            && ReviewRefsResolve(reviews', titles - {t}, users)
            && CommentRefsResolve(comments', reviews', users)
  {
  }

  /** Deleting a review removes exactly the comments on it. */
  lemma ReviewCascade(reviews: map<nat, Review>, comments: map<nat, Comment>, users: map<string, Account>, i: nat)
    requires CommentRefsResolve(comments, reviews, users)
    ensures var comments' := CommentsOnSurvivingReviews(comments, reviews - {i});
            && (forall c :: c in comments' <==> c in comments && comments[c].review != i)
            && (forall c :: c in comments' ==> comments'[c] == comments[c])
            && CommentRefsResolve(comments', reviews - {i}, users)
  {
  }

  /** Deleting a user keeps every review and comment, with its text, and
      nulls the author exactly where it was that user; uniqueness of
      (title, author) survives and no author refers to the deleted user. */
  lemma UserNullify(
    titles: map<nat, Title>, reviews: map<nat, Review>, comments: map<nat, Comment>,
    users: map<string, Account>, u: string)
    requires ReviewRefsResolve(reviews, titles, users)
    requires CommentRefsResolve(comments, reviews, users)
    requires OneReviewPerAuthor(reviews)
    ensures var reviews' := ReviewsAfterUserDeleted(reviews, u);
            var comments' := CommentsAfterUserDeleted(comments, u);
            && reviews'.Keys == reviews.Keys && comments'.Keys == comments.Keys
            && (forall i :: i in reviews' ==>
                  reviews'[i].text == reviews[i].text && reviews'[i].title == reviews[i].title &&
                  reviews'[i].score == reviews[i].score && reviews'[i].pubDate == reviews[i].pubDate &&
                  reviews'[i].author == (if reviews[i].author == Some(u) then None else reviews[i].author))
            && (forall c :: c in comments' ==>
                  comments'[c].text == comments[c].text && comments'[c].review == comments[c].review &&
                  comments'[c].pubDate == comments[c].pubDate &&
                  comments'[c].author == (if comments[c].author == Some(u) then None else comments[c].author))
            && OneReviewPerAuthor(reviews')
            && ReviewRefsResolve(reviews', titles, users - {u})
            && CommentRefsResolve(comments', reviews', users - {u})
  {
    OneReviewPerAuthorAfterShrink(reviews, ReviewsAfterUserDeleted(reviews, u));
  }

  /** Dropping a title keeps the title rules. */
  lemma TitleRemovalKeepsRules(titles: map<nat, Title>, categories: map<string, Rubric>, genres: map<string, Rubric>, nextId: nat, t: nat)
    requires TitlesValid(titles, categories, genres, nextId)
    ensures TitlesValid(titles - {t}, categories, genres, nextId)
  {
  }

  /** Deleting a title keeps the review and comment rules. */
  lemma TitleDeletionKeepsRules(
    users: map<string, Account>, categories: map<string, Rubric>, genres: map<string, Rubric>,
    titles: map<nat, Title>, reviews: map<nat, Review>, comments: map<nat, Comment>,
    nextTitleId: nat, nextReviewId: nat, nextCommentId: nat, clock: nat, t: nat)
    requires StoreRules(users, categories, genres, titles, reviews, comments, nextTitleId, nextReviewId, nextCommentId, clock)
    ensures StoreRules(users, categories, genres, titles - {t}, ReviewsAfterTitleDeleted(reviews, t),
                       CommentsOnSurvivingReviews(comments, ReviewsAfterTitleDeleted(reviews, t)),
                       nextTitleId, nextReviewId, nextCommentId, clock)
  {
    TitleRemovalKeepsRules(titles, categories, genres, nextTitleId, t);
    TitleCascade(titles, reviews, comments, users, t);
    var reviews' := ReviewsAfterTitleDeleted(reviews, t);
    OneReviewPerAuthorAfterShrink(reviews, reviews');
    ReviewStampsAfterShrink(reviews, reviews', nextReviewId, clock, clock);
    CommentStampsAfterShrink(comments, CommentsOnSurvivingReviews(comments, reviews'), nextCommentId, clock, clock);
  }

  /** Deleting a review keeps the review and comment rules. */
  lemma ReviewDeletionKeepsRules(
    users: map<string, Account>, categories: map<string, Rubric>, genres: map<string, Rubric>,
    titles: map<nat, Title>, reviews: map<nat, Review>, comments: map<nat, Comment>,
    nextTitleId: nat, nextReviewId: nat, nextCommentId: nat, clock: nat, i: nat)
    requires StoreRules(users, categories, genres, titles, reviews, comments, nextTitleId, nextReviewId, nextCommentId, clock)
    ensures StoreRules(users, categories, genres, titles, reviews - {i}, CommentsOnSurvivingReviews(comments, reviews - {i}),
                       nextTitleId, nextReviewId, nextCommentId, clock)
  {
    ReviewCascade(reviews, comments, users, i);
    OneReviewPerAuthorAfterShrink(reviews, reviews - {i});
    ReviewStampsAfterShrink(reviews, reviews - {i}, nextReviewId, clock, clock);
    CommentStampsAfterShrink(comments, CommentsOnSurvivingReviews(comments, reviews - {i}), nextCommentId, clock, clock);
  }

  /** Deleting a user keeps the review and comment rules. */
  lemma UserDeletionKeepsRules(
    users: map<string, Account>, categories: map<string, Rubric>, genres: map<string, Rubric>,
    titles: map<nat, Title>, reviews: map<nat, Review>, comments: map<nat, Comment>,
    nextTitleId: nat, nextReviewId: nat, nextCommentId: nat, clock: nat, u: string)
    requires StoreRules(users, categories, genres, titles, reviews, comments, nextTitleId, nextReviewId, nextCommentId, clock)
    ensures StoreRules(users - {u}, categories, genres, titles, ReviewsAfterUserDeleted(reviews, u),
                       CommentsAfterUserDeleted(comments, u), nextTitleId, nextReviewId, nextCommentId, clock)
  {
    EmailsUniqueAfterRemove(users, u);
    UserNullify(titles, reviews, comments, users, u);
    ReviewStampsAfterShrink(reviews, ReviewsAfterUserDeleted(reviews, u), nextReviewId, clock, clock);
    CommentStampsAfterShrink(comments, CommentsAfterUserDeleted(comments, u), nextCommentId, clock, clock);
  }

  /** Deleting a category keeps every title with all its other fields and
      nulls the category exactly where it was that one. */
  lemma CategoryNullify(titles: map<nat, Title>, categories: map<string, Rubric>, genres: map<string, Rubric>, slug: string)
    requires TitleRefsResolve(titles, categories, genres)
    ensures var titles' := TitlesAfterCategoryDeleted(titles, slug);
            && titles'.Keys == titles.Keys
            && (forall t :: t in titles' ==>
                  titles'[t] == titles[t].(category := if titles[t].category == Some(slug) then None else titles[t].category))
            && TitleRefsResolve(titles', categories - {slug}, genres)
  {
  }

  /** Deleting a genre keeps every title with all its other fields and takes
      that genre off each. */
  lemma GenreUnlink(titles: map<nat, Title>, categories: map<string, Rubric>, genres: map<string, Rubric>, slug: string)
    requires TitleRefsResolve(titles, categories, genres)
    ensures var titles' := TitlesAfterGenreDeleted(titles, slug);
            && titles'.Keys == titles.Keys
            && (forall t :: t in titles' ==> titles'[t] == titles[t].(genres := titles[t].genres - {slug}))
            && TitleRefsResolve(titles', categories, genres - {slug})
  {
  }

  // ---------------------------------------------------------------- ordering

  /** The ids below `bound` of the rows that `keep` selects, highest id first. */
  function NewestFirst<T>(rows: map<nat, T>, keep: T -> bool, bound: nat): (ids: seq<nat>)
    ensures forall k :: 0 <= k < |ids| ==> ids[k] in rows && keep(rows[ids[k]]) && ids[k] < bound
    ensures forall id :: id in rows && id < bound && keep(rows[id]) ==> id in ids
    ensures forall k, l :: 0 <= k < l < |ids| ==> ids[k] > ids[l]
  {
    if bound == 0 then []
    else
      var rest := NewestFirst(rows, keep, bound - 1);
      if bound - 1 in rows && keep(rows[bound - 1]) then [bound - 1] + rest else rest
  }

  /** The reviews of a title in the order the model declares: newest first. */
  function ReviewsOf(reviews: map<nat, Review>, t: nat, bound: nat): seq<nat> {
    NewestFirst(reviews, (r: Review) => r.title == t, bound)
  }

  /** The comments of a review, newest first. */
  function CommentsOf(comments: map<nat, Comment>, i: nat, bound: nat): seq<nat> {
    NewestFirst(comments, (c: Comment) => c.review == i, bound)
  }

  /** Listed reviews are exactly the title's reviews, in strictly decreasing
      order of publication stamp. */
  lemma ReviewsOfNewestFirst(reviews: map<nat, Review>, t: nat, nextId: nat, clock: nat)
    requires ReviewStamps(reviews, nextId, clock)
    ensures var ids := ReviewsOf(reviews, t, nextId);
            && (forall i :: i in ids <==> i in reviews && reviews[i].title == t)
            && (forall k, l :: 0 <= k < l < |ids| ==> reviews[ids[k]].pubDate > reviews[ids[l]].pubDate)
  {
    var ids := ReviewsOf(reviews, t, nextId);
    forall k, l | 0 <= k < l < |ids|
      ensures reviews[ids[k]].pubDate > reviews[ids[l]].pubDate
    {
      assert ReviewStampedBefore(reviews, ids[l], ids[k]);
    }
  }

  /** Listed comments are exactly the review's comments, newest first. */
  lemma CommentsOfNewestFirst(comments: map<nat, Comment>, i: nat, nextId: nat, clock: nat)
    requires CommentStamps(comments, nextId, clock)
    ensures var ids := CommentsOf(comments, i, nextId);
            && (forall c :: c in ids <==> c in comments && comments[c].review == i)
            && (forall k, l :: 0 <= k < l < |ids| ==> comments[ids[k]].pubDate > comments[ids[l]].pubDate)
  {
    var ids := CommentsOf(comments, i, nextId);
    forall k, l | 0 <= k < l < |ids|
      ensures comments[ids[k]].pubDate > comments[ids[l]].pubDate
    {
      assert CommentStampedBefore(comments, ids[l], ids[k]);
    }
  }

  // ---------------------------------------------------------------- the store

  /** The database: one map per table, the id counters and the clock that
      stamps `pub_date`. */
  class Store {
    var users: map<string, Account>
    var categories: map<string, Rubric>
    var genres: map<string, Rubric>
    var titles: map<nat, Title>
    var reviews: map<nat, Review>
    var comments: map<nat, Comment>
    var nextTitleId: nat
    var nextReviewId: nat
    var nextCommentId: nat
    var clock: nat

    /** The integrity rules the schema keeps. */
    ghost predicate Valid()
      reads this
    {
      StoreRules(users, categories, genres, titles, reviews, comments, nextTitleId, nextReviewId, nextCommentId, clock)
    }

    constructor ()
      ensures Valid()
      ensures users == map[] && categories == map[] && genres == map[]
      ensures titles == map[] && reviews == map[] && comments == map[]
      ensures nextTitleId == 0 && nextReviewId == 0 && nextCommentId == 0 && clock == 0
    {
      users, categories, genres := map[], map[], map[];
      titles, reviews, comments := map[], map[], map[];
      nextTitleId, nextReviewId, nextCommentId, clock := 0, 0, 0, 0;
    }

    /** Stores an account under a username; it keeps the user's own e-mail
        or takes one no other user holds. */
    method PutAccount(u: string, a: Account)
      requires Valid()
      requires (u in users && a.email == users[u].email) ||
               (forall v :: v in users && v != u ==> users[v].email != a.email)
      modifies this`users
      ensures Valid()
      ensures users == old(users)[u := a]
    {
      EmailsUniqueAfterPut(users, u, a);
      users := users[u := a];
    }

    /** Inserts a review under the next id, stamped with the clock. */
    method AddReview(t: nat, author: string, text: string, score: int) returns (id: nat)
      requires Valid() && t in titles && author in users
      requires ScoreValid(score) && !HasReview(reviews, t, author)
      modifies this`reviews, this`nextReviewId, this`clock
      ensures Valid()
      ensures id == old(nextReviewId) && id !in old(reviews)
      ensures reviews == old(reviews)[id := Review(t, Some(author), text, score, old(clock))]
      ensures nextReviewId == old(nextReviewId) + 1 && clock == old(clock) + 1
    {
      OneReviewPerAuthorAfterInsert(reviews, nextReviewId, Review(t, Some(author), text, score, clock));
      ReviewStampsAfterInsert(reviews, Review(t, Some(author), text, score, clock), nextReviewId, clock);
      CommentStampsAfterShrink(comments, comments, nextCommentId, clock, clock + 1);
      id := nextReviewId;
      reviews := reviews[id := Review(t, Some(author), text, score, clock)];
      nextReviewId := nextReviewId + 1;
      clock := clock + 1;
    }

    /** Replaces the text and score of a review; title, author and stamp stay. */
    method EditReview(i: nat, text: string, score: int)
      requires Valid() && i in reviews && ScoreValid(score)
      modifies this`reviews
      ensures Valid()
      ensures reviews == old(reviews)[i := old(reviews)[i].(text := text, score := score)]
    {
      OneReviewPerAuthorAfterShrink(reviews, reviews[i := reviews[i].(text := text, score := score)]);
      ReviewStampsAfterShrink(reviews, reviews[i := reviews[i].(text := text, score := score)], nextReviewId, clock, clock);
      reviews := reviews[i := reviews[i].(text := text, score := score)];
    }

    /** Inserts a comment under the next id, stamped with the clock. */
    method AddComment(i: nat, author: string, text: string) returns (id: nat)
      requires Valid() && i in reviews && author in users
      modifies this`comments, this`nextCommentId, this`clock
      ensures Valid()
      ensures id == old(nextCommentId) && id !in old(comments)
      ensures comments == old(comments)[id := Comment(i, Some(author), text, old(clock))]
      ensures nextCommentId == old(nextCommentId) + 1 && clock == old(clock) + 1
    {
      CommentStampsAfterInsert(comments, Comment(i, Some(author), text, clock), nextCommentId, clock);
      ReviewStampsAfterShrink(reviews, reviews, nextReviewId, clock, clock + 1);
      id := nextCommentId;
      comments := comments[id := Comment(i, Some(author), text, clock)];
      nextCommentId := nextCommentId + 1;
      clock := clock + 1;
    }

    /** Replaces the text of a comment; review, author and stamp stay. */
    method EditComment(c: nat, text: string)
      requires Valid() && c in comments
      modifies this`comments
      ensures Valid()
      ensures comments == old(comments)[c := old(comments)[c].(text := text)]
    {
      CommentStampsAfterShrink(comments, comments[c := comments[c].(text := text)], nextCommentId, clock, clock);
      comments := comments[c := comments[c].(text := text)];
    }

    /** Inserts a title under the next id; its category and genres exist. */
    method AddTitle(t: Title) returns (id: nat)
      requires Valid()
      requires (t.category.Some? ==> t.category.value in categories) && t.genres <= genres.Keys
      modifies this`titles, this`nextTitleId
      ensures Valid()
      ensures id == old(nextTitleId) && id !in old(titles)
      ensures titles == old(titles)[id := t] && nextTitleId == old(nextTitleId) + 1
    {
      id := nextTitleId;
      titles := titles[id := t];
      nextTitleId := nextTitleId + 1;
    }

    /** Adds a category under a slug not yet in use. */
    method AddCategory(slug: string, name: string)
      requires Valid() && slug !in categories
      modifies this`categories
      ensures Valid()
      ensures categories == old(categories)[slug := Rubric(name)]
    {
      categories := categories[slug := Rubric(name)];
    }

    /** Adds a genre under a slug not yet in use. */
    method AddGenre(slug: string, name: string)
      requires Valid() && slug !in genres
      modifies this`genres
      ensures Valid()
      ensures genres == old(genres)[slug := Rubric(name)]
    {
      genres := genres[slug := Rubric(name)];
    }

    /** Deletes a title with its reviews and their comments. */
    method DeleteTitle(t: nat)
      requires Valid() && t in titles
      modifies this`titles, this`reviews, this`comments
      ensures Valid()
      ensures titles == old(titles) - {t}
      ensures reviews == ReviewsAfterTitleDeleted(old(reviews), t)
      ensures comments == CommentsOnSurvivingReviews(old(comments), reviews)
    {
      TitleDeletionKeepsRules(users, categories, genres, titles, reviews, comments, nextTitleId, nextReviewId, nextCommentId, clock, t);
      titles := titles - {t};
      reviews := ReviewsAfterTitleDeleted(reviews, t);
      comments := CommentsOnSurvivingReviews(comments, reviews);
    }

    /** Deletes a review with its comments. */
    method DeleteReview(i: nat)
      requires Valid() && i in reviews
      modifies this`reviews, this`comments
      ensures Valid()
      ensures reviews == old(reviews) - {i}
      ensures comments == CommentsOnSurvivingReviews(old(comments), reviews)
    {
      ReviewDeletionKeepsRules(users, categories, genres, titles, reviews, comments, nextTitleId, nextReviewId, nextCommentId, clock, i);
      reviews := reviews - {i};
      comments := CommentsOnSurvivingReviews(comments, reviews);
    }

    method DeleteComment(c: nat)
      requires Valid() && c in comments
      modifies this`comments
      ensures Valid()
      ensures comments == old(comments) - {c}
    {
      CommentStampsAfterShrink(comments, comments - {c}, nextCommentId, clock, clock);
      comments := comments - {c};
    }

    /** Deletes a user; their reviews and comments stay, without author. */
    method DeleteUser(u: string)
      requires Valid() && u in users
      modifies this`users, this`reviews, this`comments
      ensures Valid()
      ensures users == old(users) - {u}
      ensures reviews == ReviewsAfterUserDeleted(old(reviews), u)
      ensures comments == CommentsAfterUserDeleted(old(comments), u)
    {
      UserDeletionKeepsRules(users, categories, genres, titles, reviews, comments, nextTitleId, nextReviewId, nextCommentId, clock, u);
      users := users - {u};
      reviews := ReviewsAfterUserDeleted(reviews, u);
      comments := CommentsAfterUserDeleted(comments, u);
    }

    /** Deletes a category; its titles stay, without category. */
    method DeleteCategory(slug: string)
      requires Valid() && slug in categories
      modifies this`categories, this`titles
      ensures Valid()
      ensures categories == old(categories) - {slug}
      ensures titles == TitlesAfterCategoryDeleted(old(titles), slug)
    {
      CategoryNullify(titles, categories, genres, slug);
      categories := categories - {slug};
      titles := TitlesAfterCategoryDeleted(titles, slug);
    }

    /** Deletes a genre and its links to titles. */
    method DeleteGenre(slug: string)
      requires Valid() && slug in genres
      modifies this`genres, this`titles
      ensures Valid()
      ensures genres == old(genres) - {slug}
      ensures titles == TitlesAfterGenreDeleted(old(titles), slug)
    {
      GenreUnlink(titles, categories, genres, slug);
      genres := genres - {slug};
      titles := TitlesAfterGenreDeleted(titles, slug);
    }
  }
}
