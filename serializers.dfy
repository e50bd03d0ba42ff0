/** The request serializers of the API: what each endpoint accepts, which
    fields the server fills in itself and which fields a client cannot set. */
module Serializers {
  import opened Common
  import opened Models
  import opened Validators

  const EmailMaxLength: nat := 254
  const UsernameMaxLength: nat := 150

  /** A required character field: trimmed, and refused when blank. */
  function CleanText(raw: Option<string>): (r: Option<string>)
    ensures r.Some? <==> raw.Some? && Strip(raw.value) != []
    ensures r.Some? ==> r.value == Strip(raw.value) && r.value != []
  {
    if raw.None? then None
    else
      var s := Strip(raw.value);
      if s == [] then None else Some(s)
  }

  // ---------------------------------------------------------------- sign-up and token

  datatype SignUpData = SignUpData(username: string, email: string)

  /** Sign-up input: a username of at most 150 characters that matches the
      username pattern, and a non-blank e-mail of at most 254 characters,
      both trimmed. The pattern is applied as the full-string rule, which is
      what the validator as written decides on trimmed input
      (`TrimmedUsernameCheckAgrees`). */
  function ValidateSignUp(rawUsername: string, rawEmail: string): (r: Result<SignUpData>)
    ensures r.Err? ==> r.failure == BadRequest
    ensures r.Ok? <==>
            IsUsername(Strip(rawUsername)) && |Strip(rawUsername)| <= UsernameMaxLength &&
            Strip(rawEmail) != [] && |Strip(rawEmail)| <= EmailMaxLength
    ensures r.Ok? ==> r.value == SignUpData(Strip(rawUsername), Strip(rawEmail))
  {
    var username := Strip(rawUsername);
    var email := Strip(rawEmail);
    if username == [] || |username| > UsernameMaxLength || !IsUsername(username)
       || email == [] || |email| > EmailMaxLength
    then Err(BadRequest)
    else Ok(SignUpData(username, email))
  }

  /** An accepted username contains neither `/` nor whitespace. */
  lemma SignUpNamesHaveNoSlashOrSpace(rawUsername: string, rawEmail: string, i: nat)
    requires ValidateSignUp(rawUsername, rawEmail).Ok?
    requires i < |Strip(rawUsername)|
    ensures Strip(rawUsername)[i] != '/' && !IsSpace(Strip(rawUsername)[i])
  {
    var u := Strip(rawUsername);
    assert IsUsernameChar(u[i]);
    UsernameCharIsNotSpace(u[i]);
  }

  datatype TokenRequest = TokenRequest(username: string, code: string)

  /** Token request input: a username and a confirmation code, both required,
      trimmed and not blank. */
  function ValidateTokenRequest(rawUsername: Option<string>, rawCode: Option<string>): (r: Result<TokenRequest>)
    ensures r.Err? ==> r.failure == BadRequest
    ensures r.Ok? <==> CleanText(rawUsername).Some? && CleanText(rawCode).Some?
    ensures r.Ok? ==> r.value.username != [] && r.value.code != []
    ensures r.Ok? ==> r.value.username == Strip(rawUsername.value) && r.value.code == Strip(rawCode.value)
  {
    var username := CleanText(rawUsername);
    var code := CleanText(rawCode);
    if username.None? || code.None? then Err(BadRequest)
    else Ok(TokenRequest(username.value, code.value))
  }

  // ---------------------------------------------------------------- reviews and comments

  /** The body of a review request. `author` and `title` may be sent but are
      read-only and hidden fields: they are never used. */
  datatype ReviewPayload = ReviewPayload(
    text: Option<string>,
    score: Option<int>,
    author: Option<string>,
    title: Option<int>)

  /** What the serializer hands to the view: the author is the requesting
      user and the title is the one in the route. */
  datatype ReviewDraft = ReviewDraft(title: nat, author: string, text: string, score: int)

  /** Review input: non-blank text, a score in [1, 10] that defaults to 1, and
      no review yet by this user on the route's title. */
  function ValidateReview(p: ReviewPayload, requester: string, routeTitle: nat, reviews: map<nat, Review>): (r: Result<ReviewDraft>)
    ensures r.Err? ==> r.failure == BadRequest
    ensures r.Ok? <==>
            CleanText(p.text).Some? && (p.score.None? || ScoreValid(p.score.value)) &&
            !HasReview(reviews, routeTitle, requester)
    ensures r.Ok? ==> r.value.author == requester && r.value.title == routeTitle
    ensures r.Ok? ==> ScoreValid(r.value.score) && r.value.text != []
    ensures r.Ok? ==> r.value.score == if p.score.Some? then p.score.value else DefaultScore
  {
    var text := CleanText(p.text);
    var score := if p.score.Some? then p.score.value else DefaultScore;
    if text.None? || !ScoreValid(score) || HasReview(reviews, routeTitle, requester) then Err(BadRequest)
    else Ok(ReviewDraft(routeTitle, requester, text.value, score))
  }

  /** A client-supplied author or title never changes the outcome. */
  lemma ReviewIgnoresClientAuthorAndTitle(
    p: ReviewPayload, author: Option<string>, title: Option<int>,
    requester: string, routeTitle: nat, reviews: map<nat, Review>)
    ensures ValidateReview(p, requester, routeTitle, reviews) ==
            ValidateReview(p.(author := author, title := title), requester, routeTitle, reviews)
  {
  }

  /** A score of exactly 1 or 10 is accepted; a score outside [1, 10] never is. */
  lemma ReviewScoreBoundaries(text: string, score: int, requester: string, routeTitle: nat, reviews: map<nat, Review>)
    requires Strip(text) != [] && !HasReview(reviews, routeTitle, requester)
    ensures ValidateReview(ReviewPayload(Some(text), Some(1), None, None), requester, routeTitle, reviews).Ok?
    ensures ValidateReview(ReviewPayload(Some(text), Some(10), None, None), requester, routeTitle, reviews).Ok?
    ensures !(1 <= score <= 10) ==>
            ValidateReview(ReviewPayload(Some(text), Some(score), None, None), requester, routeTitle, reviews) == Err(BadRequest)
  {
  }

  /** A second review by the same user on the same title is refused. */
  lemma DuplicateReviewRefused(p: ReviewPayload, requester: string, routeTitle: nat, reviews: map<nat, Review>, i: nat)
    requires i in reviews && reviews[i].title == routeTitle && reviews[i].author == Some(requester)
    ensures ValidateReview(p, requester, routeTitle, reviews) == Err(BadRequest)
  {
  }

  /** The body of a comment request; `author` is read-only and never used. */
  datatype CommentPayload = CommentPayload(text: Option<string>, author: Option<string>)

  /** Comment input: non-blank text. */
  function ValidateComment(p: CommentPayload): (r: Result<string>)
    ensures r.Err? ==> r.failure == BadRequest
    ensures r.Ok? <==> CleanText(p.text).Some?
    ensures r.Ok? ==> r.value == Strip(p.text.value) && r.value != []
  {
    var text := CleanText(p.text);
    if text.None? then Err(BadRequest) else Ok(text.value)
  }

  // ---------------------------------------------------------------- titles

  /** The body of a title write. `rating` is read-only and never used. */
  datatype TitlePayload = TitlePayload(
    name: Option<string>,
    year: Option<int>,
    description: Option<string>,
    genre: Option<seq<string>>,
    category: Option<string>,
    rating: Option<int>)

  /** Title input: a non-blank name, a year that is not in the future, a
      category slug and a list of genre slugs that all name existing rows;
      the description is optional. */
  function ValidateTitle(p: TitlePayload, currentYear: int, categories: set<string>, genres: set<string>): (r: Result<Title>)
    ensures r.Err? ==> r.failure == BadRequest
    ensures r.Ok? <==>
            CleanText(p.name).Some? && p.year.Some? && YearValid(p.year.value, currentYear) &&
            p.category.Some? && p.category.value in categories &&
            p.genre.Some? && (forall k :: 0 <= k < |p.genre.value| ==> p.genre.value[k] in genres)
    ensures r.Ok? ==> r.value.name == Strip(p.name.value)
    ensures r.Ok? ==> r.value.description == (if p.description.Some? then Some(Strip(p.description.value)) else None)
    ensures r.Ok? ==> YearValid(r.value.year, currentYear) && Some(r.value.year) == p.year
    ensures r.Ok? ==> r.value.category == p.category && r.value.category.value in categories
    ensures r.Ok? ==> r.value.genres <= genres
    ensures r.Ok? ==> forall g :: g in r.value.genres <==> g in p.genre.value
  {
    var name := CleanText(p.name);
    if name.None? || p.year.None? || !YearValid(p.year.value, currentYear)
       || p.category.None? || p.category.value !in categories
       || p.genre.None? || exists k :: 0 <= k < |p.genre.value| && p.genre.value[k] !in genres
    then Err(BadRequest)
    else
      var description := if p.description.Some? then Some(Strip(p.description.value)) else None;
      var genreSlugs := set g | g in p.genre.value;
      Ok(Title(name.value, p.year.value, description, genreSlugs, p.category))
  }

  /** The rating a client sends is never used. */
  lemma TitleIgnoresClientRating(p: TitlePayload, rating: Option<int>, currentYear: int, categories: set<string>, genres: set<string>)
    ensures ValidateTitle(p, currentYear, categories, genres) == ValidateTitle(p.(rating := rating), currentYear, categories, genres)
  {
  }

  /** A title from the future is refused, whatever else it carries. */
  lemma FutureTitleRefused(p: TitlePayload, currentYear: int, categories: set<string>, genres: set<string>)
    requires p.year.Some? && p.year.value > currentYear
    ensures ValidateTitle(p, currentYear, categories, genres) == Err(BadRequest)
  {
  }

  // ---------------------------------------------------------------- categories and genres

  const RubricNameMaxLength: nat := 256
  const SlugMaxLength: nat := 50

  /** The slug alphabet: ASCII letters, digits, `-` and `_`. */
  predicate IsSlugChar(c: char) {
    ('a' <= c <= 'z') || ('A' <= c <= 'Z') || ('0' <= c <= '9') || c == '-' || c == '_'
  }

  predicate IsSlug(s: string) {
    0 < |s| <= SlugMaxLength && forall i :: 0 <= i < |s| ==> IsSlugChar(s[i])
  }

  datatype RubricData = RubricData(name: string, slug: string)

  /** Category and genre input: a non-blank name of at most 256 characters
      and a slug that is well formed and not used yet. */
  function ValidateRubric(rawName: Option<string>, rawSlug: Option<string>, used: set<string>): (r: Result<RubricData>)
    ensures r.Err? ==> r.failure == BadRequest
    ensures r.Ok? ==> IsSlug(r.value.slug) && r.value.slug !in used
    ensures r.Ok? ==> r.value.name != [] && |r.value.name| <= RubricNameMaxLength
    ensures r.Ok? <==>
            CleanText(rawName).Some? && |CleanText(rawName).value| <= RubricNameMaxLength &&
            CleanText(rawSlug).Some? && IsSlug(CleanText(rawSlug).value) && CleanText(rawSlug).value !in used
  {
    var name := CleanText(rawName);
    var slug := CleanText(rawSlug);
    if name.None? || |name.value| > RubricNameMaxLength || slug.None? || !IsSlug(slug.value) || slug.value in used
    then Err(BadRequest)
    else Ok(RubricData(name.value, slug.value))
  }

  // ---------------------------------------------------------------- users

  /** A partial update of a user: e-mail and role. */
  datatype UserPatch = UserPatch(email: Option<string>, role: Option<string>)

  /** A submitted e-mail: trimmed, non-blank, at most 254 characters and not
      held by a user other than `username`. */
  function NewEmail(users: map<string, Account>, username: string, raw: string): (r: Option<string>)
    ensures r.Some? ==> r.value == Strip(raw) && 0 < |r.value| <= EmailMaxLength
    ensures r.Some? ==> forall v :: v in users && v != username ==> users[v].email != r.value
    ensures r.None? ==> Strip(raw) == [] || |Strip(raw)| > EmailMaxLength ||
                        exists v :: v in users && v != username && users[v].email == Strip(raw)
  {
    var e := Strip(raw);
    if e == [] || |e| > EmailMaxLength || exists v :: v in users && v != username && users[v].email == e
    then None else Some(e)
  }

  /** Applies a user patch. The role is taken only when the serializer lets it
      be written (admin user management); the current-user serializer
      declares it read-only and ignores it. A new e-mail must be non-blank,
      at most 254 characters and not held by another user. */
  function ApplyUserPatch(users: map<string, Account>, username: string, p: UserPatch, roleWritable: bool): (r: Result<Account>)
    requires username in users
    ensures r.Err? ==> r.failure == BadRequest
    ensures r.Ok? <==> (p.email.None? || NewEmail(users, username, p.email.value).Some?) &&
                       (!roleWritable || p.role.None? || ParseRole(p.role.value).Some?)
    ensures r.Ok? ==> r.value.isStaff == users[username].isStaff
    ensures r.Ok? ==> r.value.isActive == users[username].isActive && r.value.code == users[username].code
    ensures r.Ok? && (!roleWritable || p.role.None?) ==> r.value.role == users[username].role
    ensures r.Ok? && roleWritable && p.role.Some? ==> RoleName(r.value.role) == p.role.value
    ensures r.Ok? && p.email.None? ==> r.value.email == users[username].email
    ensures r.Ok? && p.email.Some? ==>
            r.value.email == Strip(p.email.value) && 0 < |r.value.email| <= EmailMaxLength &&
            forall v :: v in users && v != username ==> users[v].email != r.value.email
  {
    var account := users[username];
    var email := if p.email.None? then Some(account.email) else NewEmail(users, username, p.email.value);
    var role := if roleWritable && p.role.Some? then ParseRole(p.role.value) else Some(account.role);
    if email.None? || role.None? then Err(BadRequest)
    else Ok(account.(email := email.value, role := role.value))
  }

  /** The current-user serializer treats a patch as if it carried no role. */
  lemma CurrentUserRoleIgnored(users: map<string, Account>, username: string, p: UserPatch)
    requires username in users
    ensures ApplyUserPatch(users, username, p, false) == ApplyUserPatch(users, username, p.(role := None), true)
  {
  }

  /** Through the current-user serializer a user cannot change their role,
      whatever they send. */
  lemma CurrentUserCannotChangeRole(users: map<string, Account>, username: string, p: UserPatch)
    requires username in users
    ensures var r := ApplyUserPatch(users, username, p, false);
            r.Ok? ==> r.value.role == users[username].role && !(IsAdmin(r.value) && !IsAdmin(users[username]))
  {
  }
}
