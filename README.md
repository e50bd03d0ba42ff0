# yamdb review service — a Dafny model

yamdb is a Django REST API where users review titles (films, books, music),
comment on reviews, and see each title's average score. This project models
its core in Dafny and proves properties of the model:

- **Sign-up and token exchange.** `signup` does get-or-create on the
  (username, e-mail) pair and stores a fresh confirmation code. `token`
  compares the code and activates the user.
- **The review ledger.** Titles, reviews and comments with their integrity
  rules:
  - scores lie in [1, 10];
  - at most one review per (title, author);
  - references resolve;
  - deletions cascade or set null;
  - rows are listed newest first.
- **The rating annotation** of the title listing.
- **The three permission classes.**
- **The validators**: the release-year bound and the username pattern.
- **The request serializers**: which fields the server fills in itself and
  which a client cannot set.
- **The title filter.**

The database is the class `Models.Store`. It holds one `map` per table, the id
counters, and a clock that stamps `pub_date`. Its methods insert, edit and
delete rows and preserve `Valid()`, which states every integrity rule of the
schema. The request handlers in `Views` are methods on a `Store`. They run the
checks in the framework's order, which differs between creating an object and
changing or deleting one.

A create (`POST` on a list route) runs:

1. the view's permission classes: 401 for an anonymous user, 403 for an
   authenticated user who is refused;
2. the serializer: 400;
3. the route lookups `get_title` / `get_review` in `perform_create`: 404;
4. the write itself.

An update or delete of one object (`PATCH`/`DELETE` on a detail route) runs:

1. the view's permission classes: 401 or 403 as above;
2. the object lookup `get_object`: 404;
3. the object permission: 403;
4. for an update, the serializer: 400;
5. the write itself.

The validators, the permission classes, the serializers and the filter are
pure functions and predicates, each with lemmas about it.

Files, one module per source file:

| file | module | models |
|---|---|---|
| `common.dfy` | `Common` | `Option`, `Result` and the failure kinds 400/401/403/404 |
| `validators.dfy` | `Validators` | `reviews/validators.py` and the trimming every character field applies |
| `models.dfy` | `Models` | `reviews/models.py`: rows, integrity rules, deletion effects, ordering, `Store` |
| `permissions.dfy` | `Permissions` | `api/permissions.py` |
| `filters.dfy` | `Filters` | `api/filters.py` |
| `serializers.dfy` | `Serializers` | `api/serializers.py` |
| `views.dfy` | `Views` | `api/views.py`: rating, listing, sign-up, token, create/update/delete handlers |
| `scenarios.dfy` | `Scenarios` | request sequences on a fresh store, stated for all inputs |

Modelling choices:

- **The clock and the year.** The current year is a parameter, as is the fresh
  confirmation code. `pub_date` is a counter that every insert advances.
- **The rating.** It is computed in integers, rounding half up:
  `(2 * sum + n) / (2 * n)`. It is characterised by `IsRoundedMean`.
- **User keys.** Users are keyed by username. Reviews and comments refer to
  their author by username, and to their parent row by id.
- **Trimming.** DRF's `CharField` trims surrounding whitespace and refuses a
  blank value. `Validators.Strip` and `Serializers.CleanText` model this, and
  every serializer applies it.
- **The comment route.** `get_review` looks the review up by its id alone,
  ignoring the title in the route. The model does the same: `ListComments`,
  `CreateComment` and `CommentInRoute` never consult the title.

## Model

| member | source | states |
|---|---|---|
| Validators.YearValid | api_yamdb/reviews/validators.py:6-14 | the year validator: a release year is valid when it is not after the current year |
| Validators.IsUsername | api_yamdb/reviews/validators.py:17-21 | the intended username rule: non-empty, and every character in `[\w.@+-]` |
| Validators.UsernameMatchesAsWritten | api_yamdb/reviews/validators.py:17-21 | the pattern as Python's `re.search` applies it: the leading run covers the string, or all of it but one final newline |
| Validators.YearBoundary | api_yamdb/reviews/validators.py:6-14 | the current year is a valid release year, the next one is not, and validity is closed downwards |
| Validators.LeadingRun | api_yamdb/reviews/validators.py:17-21 | the greedy run of `[\w.@+-]` from the start: every character in it is in the class, and the character after it is not |
| Validators.AsWrittenCharacterisation | api_yamdb/reviews/validators.py:17-21 | the pattern as written (a search where `$` also matches before a final newline) accepts exactly the usernames, plus a username followed by one newline |
| Validators.AsWrittenAcceptsTrailingNewline | api_yamdb/reviews/validators.py:17-21 | "bob\n" passes the validator as written but is not a username |
| Validators.AsWrittenAgreesWithoutTrailingNewline | api_yamdb/reviews/validators.py:17-21 | on a string that does not end in a newline, the validator as written agrees with the full-string rule |
| Validators.UsernameRejectsSlashAndSpace | api_yamdb/reviews/validators.py:19-20 | `/` or whitespace anywhere makes a username invalid, although the message lists `/` as allowed |
| Validators.UsernameCharIsNotSpace | api_yamdb/reviews/validators.py:19 | no character of the class is `/` or whitespace |
| Validators.UsernameConcat | api_yamdb/reviews/validators.py:19 | the empty string is not a username, and two usernames concatenated form a username |
| Validators.TrimStart | api_yamdb/api/serializers.py:125-128 | the result is a suffix of the input, does not start with whitespace, and only whitespace was dropped |
| Validators.TrimEnd | api_yamdb/api/serializers.py:125-128 | the result is a prefix of the input, does not end with whitespace, and only whitespace was dropped |
| Validators.Strip | api_yamdb/api/serializers.py:125-128 | the trimmed value is a slice `s[a..b]` of the input with only whitespace before `a` and after `b`; it has no whitespace at either end, and is empty exactly when the input is all whitespace |
| Validators.TrimmedIsSlice | api_yamdb/api/serializers.py:125-128 | dropping leading and then trailing whitespace leaves a slice of the input surrounded only by whitespace |
| Validators.StripKeepsTrimmed | api_yamdb/api/serializers.py:125-128 | a value without surrounding whitespace is left unchanged |
| Validators.StripIdempotent | api_yamdb/api/serializers.py:125-128 | trimming twice is trimming once |
| Validators.TrimmedUsernameCheckAgrees | api_yamdb/api/serializers.py:118-122 | on a trimmed username, the validator as written decides exactly the full-string rule |
| Models.ParseRole | api_yamdb/reviews/models.py:22-30 | a role value parses only to the choice whose stored value it is; any other value is refused |
| Models.RoleChoices | api_yamdb/reviews/models.py:50-55 | every role round-trips through its stored value, which fits the column width (the longest choice) |
| Models.IsAdmin | api_yamdb/reviews/models.py:58-63 | `is_admin`: the staff flag or the `admin` role |
| Models.ModeratorIsNotAdmin | api_yamdb/reviews/models.py:58-63 | the moderator role without the staff flag is not admin; a signed-up user has the default role `user` and is not admin |
| Models.SlicePrefix | api_yamdb/reviews/models.py:14 | Python's `s[:limit]`: a prefix, at most `limit` long for a non-negative limit, the whole string when it fits, and the negative-limit case |
| Models.Str | api_yamdb/reviews/models.py:10-17 | the printed form is the first `limit` characters of `text` if there is one (all of it when it fits), else the first `limit` characters of `name` (all of it when it fits), else the default |
| Models.EmailsUniqueAfterPut | api_yamdb/reviews/models.py:38 | storing an account that keeps its own e-mail, or takes one no other user holds, keeps e-mails unique |
| Models.EmailsUniqueAfterRemove | api_yamdb/reviews/models.py:38 | removing a user keeps e-mails unique |
| Models.OneReviewPerAuthorAfterInsert | api_yamdb/reviews/models.py:172-176 | inserting a review by an author who has none on that title keeps one review per (title, author) |
| Models.OneReviewPerAuthorAfterShrink | api_yamdb/reviews/models.py:172-176 | dropping reviews or nulling authors, with titles unchanged, keeps one review per (title, author) |
| Models.ReviewStampsAfterInsert | api_yamdb/reviews/models.py:142-146 | a review inserted under the next id with the current stamp keeps "larger id, later stamp" and keeps every stamp below the clock |
| Models.ReviewStampsAfterShrink | api_yamdb/reviews/models.py:142-146 | dropping reviews, or editing them without touching the stamp, keeps the stamp order |
| Models.CommentStampsAfterInsert | api_yamdb/reviews/models.py:142-146 | the same as ReviewStampsAfterInsert, for comments |
| Models.CommentStampsAfterShrink | api_yamdb/reviews/models.py:142-146 | the same as ReviewStampsAfterShrink, for comments |
| Models.ReviewsAfterTitleDeleted | api_yamdb/reviews/models.py:157-160 | the `CASCADE` from a title: the reviews of other titles |
| Models.CommentsOnSurvivingReviews | api_yamdb/reviews/models.py:182-186 | the `CASCADE` from a review: the comments whose review is still there |
| Models.ReviewsAfterUserDeleted | api_yamdb/reviews/models.py:136-141 | the `SET_NULL` on review authors: the deleted user's reviews lose their author |
| Models.CommentsAfterUserDeleted | api_yamdb/reviews/models.py:136-141 | the `SET_NULL` on comment authors: the deleted user's comments lose their author |
| Models.TitlesAfterCategoryDeleted | api_yamdb/reviews/models.py:120-125 | the `SET_NULL` on a title's category |
| Models.TitlesAfterGenreDeleted | api_yamdb/reviews/models.py:114-119 | deleting the genre's rows of the title-genre link table |
| Models.TitleCascade | api_yamdb/reviews/models.py:156-160 | deleting a title removes exactly its reviews and the comments on them, leaves every other row as it was, and leaves no dangling reference |
| Models.ReviewCascade | api_yamdb/reviews/models.py:182-186 | deleting a review removes exactly its comments, leaves the others as they were, and leaves no dangling reference |
| Models.UserNullify | api_yamdb/reviews/models.py:136-141 | deleting a user keeps every review and comment with its text, title, score and stamp; it nulls the author exactly where it was that user; one-review-per-author survives |
| Models.TitleRemovalKeepsRules | api_yamdb/reviews/models.py:114-125 | dropping a title keeps the title rules |
| Models.TitleDeletionKeepsRules | api_yamdb/reviews/models.py:156-160 | the title cascade keeps every integrity rule of the store |
| Models.ReviewDeletionKeepsRules | api_yamdb/reviews/models.py:182-186 | the review cascade keeps every integrity rule of the store |
| Models.UserDeletionKeepsRules | api_yamdb/reviews/models.py:136-141 | deleting a user with the author nulling keeps every integrity rule of the store |
| Models.CategoryNullify | api_yamdb/reviews/models.py:120-125 | deleting a category keeps every title, each equal to the old one with only its category changed: nulled exactly where it was that one; references still resolve |
| Models.GenreUnlink | api_yamdb/reviews/models.py:114-119 | deleting a genre keeps every title, each equal to the old one with only that genre taken off its genres; references still resolve |
| Models.NewestFirst | api_yamdb/reviews/models.py:148-150 | lists exactly the selected rows below the bound, in strictly decreasing id order |
| Models.ReviewsOfNewestFirst | api_yamdb/reviews/models.py:148-150 | a title's reviews are listed exactly, with strictly decreasing `pub_date` |
| Models.CommentsOfNewestFirst | api_yamdb/reviews/models.py:148-150 | a review's comments are listed exactly, with strictly decreasing `pub_date` |
| Models.Store.PutAccount | api_yamdb/reviews/models.py:32-38 | stores an account under its username and keeps every rule (unique e-mail) |
| Models.Store.AddReview | api_yamdb/reviews/models.py:156-176 | inserts the review under the next id, with the current stamp, and keeps every rule |
| Models.Store.EditReview | api_yamdb/reviews/models.py:161-168 | replaces text and score only, and keeps every rule |
| Models.Store.AddComment | api_yamdb/reviews/models.py:181-186 | inserts the comment under the next id, with the current stamp, and keeps every rule |
| Models.Store.EditComment | api_yamdb/reviews/models.py:135 | replaces the text only, and keeps every rule |
| Models.Store.AddTitle | api_yamdb/reviews/models.py:101-125 | inserts a title whose category and genres exist under the next id, and keeps every rule |
| Models.Store.AddCategory | api_yamdb/reviews/models.py:69-90 | adds a category under an unused slug |
| Models.Store.AddGenre | api_yamdb/reviews/models.py:69-98 | adds a genre under an unused slug |
| Models.Store.DeleteTitle | api_yamdb/reviews/models.py:156-160 | removes the title, its reviews and their comments, and keeps every rule |
| Models.Store.DeleteReview | api_yamdb/reviews/models.py:182-186 | removes the review and its comments, and keeps every rule |
| Models.Store.DeleteComment | api_yamdb/reviews/models.py:181-191 | removes the comment and keeps every rule |
| Models.Store.DeleteUser | api_yamdb/reviews/models.py:136-141 | removes the user, nulls the author of their reviews and comments, and keeps every rule |
| Models.Store.DeleteCategory | api_yamdb/reviews/models.py:120-125 | removes the category, nulls it on its titles, and keeps every rule |
| Models.Store.DeleteGenre | api_yamdb/reviews/models.py:114-119 | removes the genre and its links to titles, and keeps every rule |
| Permissions.AdminOnly | api_yamdb/api/permissions.py:6-9 | `IsAdminAsDefinedByUserModel`: an authenticated admin |
| Permissions.AdminOrReadOnly | api_yamdb/api/permissions.py:12-18 | `IsAdminUserOrReadOnly`: a safe method, or an authenticated admin |
| Permissions.StaffOrAuthorOrReadOnly | api_yamdb/api/permissions.py:21-34 | the object permission: an authenticated admin, moderator or the object's author, or a safe method |
| Permissions.Refusal | api_yamdb/api/permissions.py:6-9 | a refused request is 401 exactly for an anonymous user and 403 exactly for an authenticated one |
| Permissions.SafeMethodsAlwaysAllowed | api_yamdb/api/permissions.py:12-34 | safe methods pass admin-or-read-only and the object permission, whoever asks |
| Permissions.AnonymousNeverWrites | api_yamdb/api/permissions.py:6-34 | an anonymous user passes none of the three classes for a method that writes |
| Permissions.CatalogWriteIsAdminOnly | api_yamdb/api/permissions.py:12-18 | for a method that writes, admin-or-read-only is exactly admin-only |
| Permissions.ModeratorRights | api_yamdb/api/permissions.py:12-34 | a moderator without the staff flag cannot write the catalog but may change any review or comment |
| Permissions.AdminPassesEverything | api_yamdb/api/permissions.py:6-34 | an admin passes all three classes |
| Permissions.Promote | api_yamdb/reviews/models.py:58-63 | making a user admin, by role or by the staff flag, yields an admin and keeps e-mail, activity and code |
| Permissions.PromotionKeepsPermissions | api_yamdb/api/permissions.py:6-34 | promotion never takes a permission away |
| Permissions.OrphanedObjectOnlyForStaff | api_yamdb/api/permissions.py:27-34 | an object whose author was nulled can be changed exactly by an admin or a moderator |
| Permissions.PlainUserOnlyOwnObjects | api_yamdb/api/permissions.py:27-34 | a plain user may change an object exactly when they are its author |
| Filters.LowerString | api_yamdb/api/filters.py:7-8 | the lower-cased string has no upper-case letter, and a string without one is returned unchanged |
| Filters.LowerStringIdempotent | api_yamdb/api/filters.py:7-8 | lower-casing twice is lower-casing once |
| Filters.ContainsHasOffset | api_yamdb/api/filters.py:7-8 | a substring found by the recursive search occurs at some offset |
| Filters.OffsetIsContained | api_yamdb/api/filters.py:7-8 | an occurrence at any offset is found by the search |
| Filters.ContainsIff | api_yamdb/api/filters.py:7-8 | the search holds exactly when the query occurs at some offset |
| Filters.Matches | api_yamdb/api/filters.py:5-15 | the conjunction of the applied filters: name `icontains`, year equality, genre slug, category slug |
| Filters.MatchesMeaning | api_yamdb/api/filters.py:7-11 | a title passes exactly when the lower-cased name query occurs at some offset of its lower-cased name, its year is the year queried, it has the genre queried and its category is the one queried, each when applied |
| Filters.Select | api_yamdb/api/filters.py:5-15 | a title is kept exactly when the lower-cased name query occurs at some offset of its lower-cased name, its year equals the year queried, its genres include the genre queried and its category is the one queried (each when applied) |
| Filters.NameFilterIsSubstring | api_yamdb/api/filters.py:7-8 | the name filter keeps a title exactly when the lower-cased query occurs in its lower-cased name |
| Filters.StripLower | api_yamdb/api/filters.py:7-8 | trimming a lower-cased query gives the lower-cased trimmed query |
| Filters.NameFilterIgnoresCase | api_yamdb/api/filters.py:7-8 | two name queries that lower-case to the same string select the same titles, a blank query included |
| Filters.YearFilterIsEquality | api_yamdb/api/filters.py:9 | the year filter keeps exactly the titles of that year |
| Filters.GenreFilterIsMembership | api_yamdb/api/filters.py:10 | the genre filter keeps exactly the titles that have a genre with that slug |
| Filters.NullCategoryNeverMatches | api_yamdb/api/filters.py:11 | a title without category never matches a category query |
| Filters.EmptyFilterKeepsAll | api_yamdb/api/filters.py:13-15 | without parameters every title is kept |
| Serializers.CleanText | api_yamdb/api/serializers.py:125-128 | a character field is present and non-blank exactly when accepted, and its value is the trimmed input |
| Serializers.ValidateSignUp | api_yamdb/api/serializers.py:118-122 | accepted exactly when the trimmed username is a username of at most 150 characters and the trimmed e-mail is non-blank and at most 254; the values are the trimmed ones; a refusal is 400 |
| Serializers.SignUpNamesHaveNoSlashOrSpace | api_yamdb/api/serializers.py:118-122 | an accepted username contains no `/` and no whitespace |
| Serializers.ValidateTokenRequest | api_yamdb/api/serializers.py:125-128 | accepted exactly when both username and code are present and non-blank; the values are trimmed |
| Serializers.ValidateReview | api_yamdb/api/serializers.py:19-37 | accepted exactly when the text is non-blank, the score is in [1, 10] (default 1), and the requester has no review of the title; author and title come from the request and the route |
| Serializers.ReviewIgnoresClientAuthorAndTitle | api_yamdb/api/serializers.py:20-25 | a client-supplied author or title never changes the outcome |
| Serializers.ReviewScoreBoundaries | api_yamdb/reviews/models.py:161-168 | scores 1 and 10 are accepted; any score outside [1, 10] is refused |
| Serializers.DuplicateReviewRefused | api_yamdb/api/serializers.py:31-37 | a second review by the same author of the same title is refused with 400 |
| Serializers.ValidateComment | api_yamdb/api/serializers.py:40-49 | accepted exactly when the text is non-blank; the value is the trimmed text |
| Serializers.ValidateTitle | api_yamdb/api/serializers.py:70-89 | accepted exactly when the name is non-blank, the year is not in the future, the category exists and every genre exists; the title takes exactly the trimmed name, the trimmed description (or none when none is sent), that year, that category and that set of genres |
| Serializers.TitleIgnoresClientRating | api_yamdb/api/serializers.py:83 | the rating a client sends is never used |
| Serializers.FutureTitleRefused | api_yamdb/api/serializers.py:71-73 | a year after the current one is refused with 400 |
| Serializers.ValidateRubric | api_yamdb/api/serializers.py:52-67 | accepted exactly when the name is non-blank and at most 256 characters, and the slug is well formed and unused |
| Serializers.NewEmail | api_yamdb/api/serializers.py:105-110 | a new e-mail is accepted only when non-blank, at most 254 characters, and held by no other user; otherwise one of these fails |
| Serializers.ApplyUserPatch | api_yamdb/api/serializers.py:105-115 | a patch is accepted exactly when its e-mail, if any, is acceptable and its role, if any and writable, is one of the choices. It keeps staff flag, activity and code; it changes the role only where role is writable, and the e-mail only to one no other user holds |
| Serializers.CurrentUserRoleIgnored | api_yamdb/api/serializers.py:113-115 | the current-user serializer treats every patch as if it carried no role |
| Serializers.CurrentUserCannotChangeRole | api_yamdb/api/serializers.py:113-115 | through the current-user serializer a user can neither change their role nor become admin |
| Views.RoundedMeanUnique | api_yamdb/api/views.py:92-94 | the rounded mean is unique |
| Views.Rating | api_yamdb/api/views.py:92-94 | no rating exactly when there are no scores; otherwise the mean rounded half up |
| Views.RatingWithinBounds | api_yamdb/api/views.py:92-94 | the rating lies between any lower and upper bound of the scores |
| Views.RatingOfEqualScores | api_yamdb/api/views.py:92-94 | when every score is `s`, the rating is `s` |
| Views.RatingInScoreRange | api_yamdb/api/views.py:92-94 | valid scores give a rating in [1, 10] |
| Views.TitleRating | api_yamdb/api/views.py:92-94 | the `rating` annotation: the rating of the scores of the title's reviews |
| Views.TitleRatingFacts | api_yamdb/api/views.py:92-94 | a title has no rating exactly when it has no reviews; otherwise its rating is in [1, 10] |
| Views.TitleRatingOfEqualScores | api_yamdb/api/views.py:92-94 | when every review of a title has score `s`, the title's rating is `s` |
| Views.ListReviews | api_yamdb/api/views.py:49-53 | 404 exactly for a missing title; otherwise exactly the title's reviews, newest first |
| Views.ListComments | api_yamdb/api/views.py:68-72 | 404 exactly for a missing review; otherwise exactly the review's comments, newest first |
| Views.Signup | api_yamdb/api/views.py:133-151 | invalid input is 400. An existing (username, e-mail) pair only gets the fresh code. Otherwise a conflict on one of the two is 400 with nothing changed. Otherwise exactly one inactive `user`-role account with the code is added |
| Views.ObtainToken | api_yamdb/api/views.py:154-168 | invalid input is 400, an unknown username 404, a code other than the stored one 400. A match activates the user, keeps the code and issues the token. A user without a code never gets one |
| Views.PrincipalOf | api_yamdb/api/views.py:55-59 | the requester is authenticated exactly when the username has a row, and then carries that row |
| Views.CreateReview | api_yamdb/api/views.py:43-59 | 401, then 400, then 404 for a missing title; a refusal changes neither the reviews, the review counter nor the clock. Success inserts exactly one review under the next id, with the requester as author, the route's title and the current stamp, and advances the counter and the clock by one |
| Views.UpdateReview | api_yamdb/api/views.py:43-53 | 401, 404 unless the review is under the title, 403 unless admin, moderator or author, then exactly 400 for a blank text or a score outside [1, 10]. Success changes only text and score |
| Views.DestroyReview | api_yamdb/api/views.py:43-53 | 401, 404, 403 as for updates. Success removes exactly the review and its comments |
| Views.CreateComment | api_yamdb/api/views.py:62-78 | 401, 400, then 404 for a missing review, looked up by id alone; a refusal changes neither the comments, the comment counter nor the clock. Success inserts exactly one comment under the next id, with the requester as author and the route's review, and advances the counter and the clock by one |
| Views.UpdateComment | api_yamdb/api/views.py:62-72 | 401, 404 unless the comment is on the review, 403 unless admin, moderator or author, then exactly 400 for a blank text. Success changes only the text |
| Views.DestroyComment | api_yamdb/api/views.py:62-72 | 401, 404, 403 as for updates. Success removes exactly the comment |
| Views.CreateTitle | api_yamdb/api/views.py:91-104 | refused unless an admin asks, then 400 for a refused body; a refusal changes neither the titles nor the title counter. Success inserts exactly the validated title under the next id and advances the counter by one |
| Views.DestroyTitle | api_yamdb/api/views.py:91-97 | refused unless an admin asks, then 404. Success cascades to reviews and comments |
| Views.CreateRubric | api_yamdb/api/views.py:31-40 | refused unless an admin asks; otherwise the result is the serializer's decision, and success adds exactly that category or genre |
| Views.AddRubric | api_yamdb/api/views.py:81-88 | stores a category or a genre in its own table and leaves the other untouched |
| Views.DestroyRubric | api_yamdb/api/views.py:31-40 | refused unless an admin asks, then 404. Success deletes the category (nulling titles) or the genre (unlinking titles) |
| Views.UpdateMe | api_yamdb/api/views.py:120-130 | 401 without a user. Otherwise the current-user serializer decides; role and staff flag never change |
| Views.UpdateUser | api_yamdb/api/views.py:107-118 | refused unless an admin asks, then 404. Otherwise the user serializer decides, with the role writable |
| Views.DestroyUser | api_yamdb/api/views.py:107-111 | refused unless an admin asks, then 404. Success removes the user and nulls their authorship |
| Scenarios.SignedUpStore | api_yamdb/api/views.py:140-149 | after one sign-up on an empty store there is exactly one user: inactive, role `user`, holding the code |
| Scenarios.TwoUsersAndTitle | api_yamdb/reviews/models.py:32-38 | two accounts with distinct e-mails and one title form a valid store |
| Scenarios.FirstReview | api_yamdb/api/views.py:55-59 | a review created with a client-sent author and title is stored under the requester and the route's title |

The scenario methods `SignUpThenExchangeCode`, `StrangerIsNotFound`,
`ReviewThenRate`, `OtherUserCannotDeleteReview`,
`AnonymousCannotDeleteReview`, `ModeratorDeletesReview` and
`FutureTitleScenario` assert request outcomes from the handler contracts
alone:

- a wrong code is refused, and the right code is accepted twice;
- a duplicate review gets 400, and the title's rating is then the one score;
- another plain user gets 403, an anonymous user 401, and a moderator may
  delete;
- a future year is refused for an admin, and a plain user gets 403.

## Left out

- `ValidateUsernameMixin` (the unshown `.mixins` module): its rules are not invented. Sign-up and user updates apply only the field rules visible in the serializers.
- Serializers.ValidateSignUp: does not check the e-mail format (`EmailField`'s validator), only that the e-mail is non-blank and at most 254 characters.
- Serializers.NewEmail: does not check the e-mail format either, on `PATCH /users/me/` and `PATCH /users/{username}/`. It checks only that the e-mail is non-blank, at most 254 characters and held by no other user.
- Serializers.ApplyUserPatch: accepts an e-mail whenever `NewEmail` does, so it also skips the format check.
- Serializers.CleanText: does not model DRF's `ProhibitNullCharactersValidator`, which refuses a character field containing `\0`. The same holds for every trimmed field of the other serializers.
- Validators.IsWordChar: `\w` is ASCII letters, digits and `_`. Python's Unicode `\w` is wider.
- Filters.Lower: case folding covers ASCII letters only. The database's `icontains` folds more.
- Views.Rating: the database computes `Round(Avg(score))` in floating point. The model rounds half up in integer arithmetic.
- Confirmation e-mail sending is I/O and is left out. The confirmation code generator is a parameter (`freshCode`).
- JWT signing: the token is the opaque `AccessToken(username)`. Authenticating later requests with it, including what happens for an inactive user, is left out. A request names its user by username, or by `None` for no user.
- Reading, retrieve and list endpoints other than the review and comment listings are left out. They only read.
- Title ordering by name is left out, because it depends on the database collation. So is the search filter on rubric and user names.
- Title updates (`update`/`partial_update` of `TitleViewSet`) and full `PUT` updates of reviews and comments are left out. Only `PATCH` of reviews and comments is modelled.
- Creating a user through the admin endpoint (`POST /users/`) and full `PUT` updates of users are left out. Only `PATCH` of users and `DELETE` are modelled.
- Renaming a user through a patch is left out, because users are keyed by username. First name, last name and bio are not modelled either, since nothing depends on them.
- Filters.Select: the year query is taken as already parsed to an integer. A non-numeric `year` (a 400) and a fractional one (which matches nothing) are not modelled.
- The `SmallIntegerField` and `PositiveSmallIntegerField` ranges are left out. Integers are unbounded, and the score bounds are checked explicitly.
- Concurrency is left out, including the race between duplicate inserts that the unique index guards against.
- `pub_date` is a counter, not wall-clock time, and the current year is a parameter instead of `date.today()`.
- HTTP statuses and routing are reduced to the `Failure` kinds. Response bodies are reduced to the created id or the validated data.
- `admin.py`, the migration and the `sampledata` command are not part of this model.

## Findings

| source | as written | input that shows it | evidently intended | confidence | as-written member | corrected member |
|---|---|---|---|---|---|---|
| api_yamdb/reviews/validators.py:19 | `RegexValidator` searches `^[\w.@+-]+$`; Python's `$` also matches just before a final newline | the username `"bob\n"` is accepted | only names made entirely of the class `[\w.@+-]` (a full-string match, `\Z`) | high; not executed | Validators.AsWrittenAcceptsTrailingNewline | Validators.TrimmedUsernameCheckAgrees |

Sign-up uses the corrected full-string rule, `Validators.IsUsername`. On the
API path the two rules agree, because DRF trims the username before
validating it (`TrimmedUsernameCheckAgrees`). The model field's validator, as
written, still accepts a trailing newline wherever untrimmed input reaches it.
