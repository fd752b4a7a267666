# drf_blog in Dafny

A model of the rules at the core of drf_blog, a Django REST Framework blog
backend. Users register and log in; authors publish posts in categories;
readers like posts, comment on them and keep favourites. The model covers:

- the permission classes that decide between allowed, 401 and 403;
- the post-list filters (`author__in`, `category__name`, `created_at__range`)
  and the selectors built on them;
- the like and favourite toggles, and post creation with its slug-collision
  answer;
- post deletion and partial update, with their permission checks ahead of
  any write;
- the category endpoints and the model-level invariants (unique names and
  slugs, `unique_together` on likes, cascade and set-null on delete, the
  `status` default, the slug pre-save hook, `Category.clean`);
- user and superuser creation with their flag rules, `full_name`, and the
  hook that gives every saved user a profile;
- the registration and login serializers' checks.

The database is one object, `Database.Database`. Its tables are fields:
users, profiles and categories are maps keyed by primary key, posts are a
sequence in table order, likes and favourites are sets, and comments are a
map. `Valid()` gathers the constraints the schema declares:
- unique keys;
- unique e-mails, category names and slugs;
- the lengths of the e-mail, first-name, last-name, category-name, title
  and slug columns;
- foreign keys, one profile per user, and one like per (user, post) pair;
- keys below the next key to hand out.

No column of the model can be null: every field holds a value of its type.
The one place where the source writes a null is a post created without
`published_at`, or from a JSON body without `status`. A form or multipart
body without `status` gives it the boolean field's default, false, instead
(`Views.StatusReceived`). `Views.CreatePost` answers a null the way the NOT
NULL columns make the database answer it. Every method that changes the
tables keeps `Valid()`. A request
handler in `Views` is a method on the database that returns a status code
and a `detail` text.

Foreign functions are parameters:

- `slugify` and `normalize_email` are fixed when the database is built;
- `validate_password`, `authenticate`, the parsing of dates and the
  full-text match of the `search` filter are passed in;
- "now" is an argument.

An exception a handler does not catch (`DoesNotExist`, `DataError`) is
answered with 500 and changes nothing. DRF answers a failed permission
check with 401 when the request is anonymous and with 403 otherwise.

Text fields arrive as DRF's `CharField` delivers them. Surrounding
whitespace is stripped. A field that is blank once stripped is refused,
unless it may be blank. Length limits apply to the stripped value.

Modules: `Common` (options, results, filtering of sequences), `Text`
(splitting, stripping, ASCII case, substring search), `Permissions`, `Accounts`,
`Blog`, `Signals`, `Filters`, `Selectors`, `Database`, `Views`,
`AccountSerializers`.

## Model

| member | source | states |
|---|---|---|
| Permissions.SafeMethodsPassAdminOrReadOnly | src/blog/api/v1/permissions.py:5-7 | a GET, HEAD or OPTIONS request always passes `IsAdminUserOrReadOnly` and the category check |
| Permissions.AdminOrReadOnly | src/blog/api/v1/permissions.py:5-8 | `IsAdminUserOrReadOnly.has_permission`: safe methods pass, others need the staff flag (characterised by `SafeMethodsPassAdminOrReadOnly` and `UnsafeMethodsNeedStaff`) |
| Permissions.UnsafeMethodsNeedStaff | src/blog/api/v1/permissions.py:5-8 | a writing request passes `IsAdminUserOrReadOnly` iff the user is staff; anonymous users get 401, other non-staff users 403 |
| Permissions.OwnerOrReadOnly | src/blog/api/v1/permissions.py:12-16 | `IsOwnerOrReadOnly.has_object_permission`: safe methods pass, others need the author (stated by `PostWriteAccess` and `PostReadAccess`) |
| Permissions.CommentUserOnly | src/blog/api/v1/permissions.py:20-22 | `CommentUserOrReadOnly.has_object_permission`: the user wrote the comment, whatever the method |
| Permissions.Deny | src/blog/api/v1/views.py:44 | a refused check is 401 for an anonymous user and 403 otherwise (stated by `DenialCodes`) |
| Permissions.Check | src/blog/api/v1/views.py:44 | a passed check allows, a failed one is denied (stated by `DenialCodes`) |
| Permissions.PostWriteAccess | src/blog/api/v1/permissions.py:11-16 | a post write by an anonymous user fails the inherited view-level check (401); by a non-author it fails the object check (403); by the author it is allowed |
| Permissions.PostReadAccess | src/blog/api/v1/permissions.py:11-16 | both post checks pass every read |
| Permissions.CommentObjectCheckIgnoresMethod | src/blog/api/v1/permissions.py:20-22 | the comment object check is the same for every method and holds iff the user wrote the comment |
| Permissions.CommentWriteAccess | src/blog/api/v1/permissions.py:19-22 | a comment write is 401 for anonymous users, 403 for anyone but its author, and allowed for its author |
| Permissions.DenialCodes | src/blog/api/v1/permissions.py:11 | a check allows iff it passes; a refusal is 401 exactly for anonymous users and 403 exactly for logged-in ones |
| Text.Split | src/blog/api/v1/filters.py:34 | `str.split(",")` always yields at least one piece |
| Text.SplitLength | src/blog/api/v1/filters.py:41 | the number of pieces is the number of separators plus one |
| Text.SplitPiecesHaveNoSeparator | src/blog/api/v1/filters.py:34 | no piece contains the separator |
| Text.JoinSplit | src/blog/api/v1/filters.py:34 | joining the pieces with the separator gives back the string |
| Text.SplitJoin | src/blog/api/v1/filters.py:34 | splitting a join of separator-free pieces gives back the pieces |
| Text.SplitWithoutSeparator | src/blog/api/v1/filters.py:34 | a string without the separator splits into itself alone |
| Text.SplitPrefix | src/blog/api/v1/filters.py:34 | a separator-free word before the first separator is the first piece |
| Text.Upper | src/blog/api/v1/filters.py:21 | upper-casing keeps the length and maps each character |
| Text.Lower | src/blog/api/v1/filters.py:21 | lower-casing keeps the length and maps each character |
| Text.Capitalize | src/blog/models.py:12 | `str.capitalize`: same length, first character upper-cased, every other character lower-cased |
| Text.CapitalizeIdempotent | src/blog/models.py:11-13 | capitalising twice gives what capitalising once gives |
| Text.OccursIff | src/blog/api/v1/filters.py:21 | the substring test holds iff the needle matches at some offset |
| Text.ContainsIgnoreCase | src/blog/api/v1/filters.py:21 | `icontains`: the upper-cased needle occurs in the upper-cased text |
| Text.IsSpace | src/blog/api/v1/serializers.py:84-93 | the ASCII characters `str.strip` removes |
| Text.LeadingSpaces | src/blog/api/v1/serializers.py:84-93 | the length of the leading whitespace run: all of it whitespace, and the next character not |
| Text.TrailingSpaces | src/blog/api/v1/serializers.py:84-93 | the length of the trailing whitespace run: all of it whitespace, and the character before it not |
| Text.Trim | src/blog/api/v1/serializers.py:84-93 | `str.strip`: the part of the string between a leading and a trailing whitespace run, neither starting nor ending with whitespace; empty iff the string is all whitespace |
| Text.TrimIdempotent | src/blog/api/v1/serializers.py:84-93 | stripping twice gives what stripping once gives |
| Text.TrimUnpadded | src/blog/api/v1/serializers.py:84-93 | a string without whitespace at either end is its own stripped form |
| Filters.FilterCategoryName | src/blog/api/v1/filters.py:20-21 | keeps exactly the rows whose category name contains the value, ignoring case, in their order |
| Filters.CategoryMatches | src/blog/api/v1/filters.py:21 | `category__name__icontains`: the post has a category whose name contains the value, ignoring case |
| Filters.CategoryMatchesIff | src/blog/api/v1/filters.py:21 | a row matches iff it has a category and the upper-cased value occurs in its upper-cased name; rows without a category never match |
| Filters.FilterAuthorInAsWritten | src/blog/api/v1/filters.py:23-37 | the author filter as written: an error iff there are more than ten names, reporting the number of names given |
| Filters.AuthorLimitMessageAsWritten | src/blog/api/v1/filters.py:36 | the as-written message never explains the rejection: the input has exactly the number of names it claims to exceed; eleven names give "more than 11" |
| Filters.FilterAuthorIn | src/blog/api/v1/filters.py:33-37 | an error with the limit iff there are more than ten names; otherwise exactly the rows whose author e-mail is one of the names, as a subsequence of the input |
| Filters.AuthorLimitMessage | src/blog/api/v1/filters.py:35-36 | the corrected filter rejects exactly the inputs with more names than its message allows |
| Filters.SingleAuthor | src/blog/api/v1/filters.py:34-37 | an e-mail without a comma selects exactly that author's posts |
| Filters.InWindow | src/blog/api/v1/filters.py:47-53 | an open start admits the dates before the upper bound; two bounds admit the dates between them, both included |
| Filters.DateWindow | src/blog/api/v1/filters.py:39-53 | more than two pieces give the "just two" error and fewer the unpacking error with the count; a window only for exactly two pieces; an unreadable date is reported with its own piece |
| Filters.FilterCreatedAtRange | src/blog/api/v1/filters.py:39-53 | an error iff reading the range fails, with that error, whatever the rows; otherwise exactly the rows created on a date of the window, as a subsequence of the input |
| Filters.DateRangeNeedsTwoPieces | src/blog/api/v1/filters.py:40-45 | two or more commas give the "just two" error; no comma fails the two-way unpacking with one value, before any date is read |
| Filters.DateRangeOpenStart | src/blog/api/v1/filters.py:47-51 | an empty first piece keeps exactly the posts created strictly before the upper bound; an empty second piece makes that bound today |
| Filters.DateRangeClosed | src/blog/api/v1/filters.py:53 | with both bounds, exactly the posts created within them, both ends included; a bad first date is reported before a bad second one |
| Filters.FilterSearch | src/blog/api/v1/filters.py:55-59 | exactly the rows whose title matches the query, in their order |
| Filters.Given | src/blog/api/v1/filters.py:15-18 | a declared filter is applied only to a present, non-empty value |
| Filters.PassesSearch | src/blog/api/v1/filters.py:55-59 | the search filter is not given or the title matches |
| Filters.PassesCategory | src/blog/api/v1/filters.py:20-21 | the category filter is not given or the category name contains the value |
| Filters.PassesAuthor | src/blog/api/v1/filters.py:33-37 | the author filter is not given or the author's e-mail is one of the names |
| Filters.PassesDate | src/blog/api/v1/filters.py:39-53 | the date filter is not given, cannot be read, or the creation date is in its window |
| Filters.Keeps | src/blog/api/v1/filters.py:15-18 | a row passes every filter of the set |
| Filters.ParamsError | src/blog/api/v1/filters.py:33-45 | the filter set's error depends only on the parameters: too many authors comes first; otherwise the error of an unreadable date range; no error when neither |
| Filters.ApplyPostFilter | src/blog/api/v1/filters.py:15-59 | an error iff the parameters have one, and that error; otherwise exactly the rows every given filter keeps, in their order; no parameters give the input; too many authors is the author error |
| Filters.FilterSetIsWhere | src/blog/selectors.py:27 | running the four filters one after another keeps exactly the rows all four keep, in their order |
| Selectors.Get | src/blog/selectors.py:34 | `.get` returns a row of the table that satisfies the condition; it reports `DoesNotExist` iff no row does |
| Selectors.GetAtMostOne | src/blog/models.py:29 | when at most one row satisfies the condition, `.get` never reports several |
| Selectors.GetBySlug | src/blog/api/v1/views.py:69 | `Post.objects.get(slug=...)` over all posts (characterised by `GetBySlugSpec`) |
| Selectors.GetPost | src/blog/selectors.py:30-35 | `get_post`: `.get` by slug over the published posts (characterised by `GetPostSpec`) |
| Selectors.GetPostSpec | src/blog/selectors.py:30-35 | with unique slugs, `get_post` succeeds iff a published post has the slug, and returns that post; otherwise, and for an unpublished post with the slug, `DoesNotExist` |
| Selectors.GetBySlugSpec | src/blog/api/v1/views.py:221 | with unique slugs, `Post.objects.get(slug=...)` succeeds iff some post has the slug, whatever its status |
| Selectors.GetSlug | src/blog/selectors.py:17-20 | nothing iff there are no posts, otherwise the first post's slug |
| Selectors.Published | src/blog/selectors.py:24 | exactly the rows of published posts |
| Selectors.GetPosts | src/blog/selectors.py:23-27 | only published rows of the table, as a subsequence; no filters give the published rows; with filters, an error iff the parameters have one, otherwise exactly the published rows the filters keep |
| Selectors.GetPostsWithoutFilters | src/blog/selectors.py:25-27 | with no filters every published post is listed and only those; when all are published, the whole table |
| Selectors.EmptyFiltersAreNoFilters | src/blog/selectors.py:25 | `filters or {}`: an empty filter set gives the same result as none |
| Signals.StorePreSave | src/blog/signals.py:9-11 | the instance's slug becomes the pre-save slug; no other field is modified |
| Signals.PreSaveSlug | src/blog/signals.py:10-11 | the slug the hook leaves: an empty slug becomes `slugify(title)` (stated by `StorePreSave` and `PreSaveSlugIdempotent`) |
| Signals.PreSaveSlugIdempotent | src/blog/signals.py:9-11 | applying the hook twice gives the same slug as once |
| Signals.StorePreSaveTwice | src/blog/signals.py:9-11 | running the hook twice on an instance leaves it as running it once |
| Blog.CategoryInstance.Clean | src/blog/models.py:11-13 | `clean` sets the name to its capitalised form |
| Blog.CleanTwice | src/blog/models.py:11-13 | cleaning twice leaves the name as cleaning once |
| Blog.PostInstance.constructor | src/blog/models.py:32 | a new instance takes the given fields, and `status` falls back to its default |
| Blog.PostInstance.Row | src/blog/models.py:23-35 | the saved row carries the instance's key, slug, title and status |
| Blog.NewPostIsUnpublished | src/blog/models.py:32 | a post created without a status is unpublished |
| Blog.AtMostOneLikePerPair | src/blog/models.py:49-50 | under `unique_together` a (user, post) pair has at most one like |
| Blog.ToggleLike | src/blog/api/v1/views.py:223-228 | the like table after a toggle: the pair's likes deleted if it has any, otherwise a new like (stated by `ToggleLikeOutcome`, `ToggleLikeFrame` and `ToggleLikeTwice`) |
| Blog.ToggleLikeOutcome | src/blog/api/v1/views.py:223-228 | after a toggle the pair has no like if it had one, otherwise exactly the new like; `unique_together` is kept |
| Blog.ToggleLikeFrame | src/blog/api/v1/views.py:220-227 | a toggle changes no like of another user or another post |
| Blog.ToggleLikeTwice | src/blog/api/v1/views.py:223-228 | two toggles of one pair give back the same pairs, and the very same table when the pair had no like |
| Blog.ToggleFavorite | src/blog/api/v1/views.py:249-256 | the favourite set with the pair removed if present, added otherwise (stated by `ToggleFavoriteProperties`) |
| Blog.ToggleFavoriteProperties | src/blog/api/v1/views.py:249-256 | a favourite toggle flips the pair, changes nothing else, and two toggles give back the table |
| Blog.DetachAll | src/blog/models.py:27 | `SET_NULL`: same length, each post detached from the deleted category |
| Blog.DetachAllProperties | src/blog/models.py:27 | deleting a category deletes no post, changes no column but `category`, and leaves no post in it |
| Blog.CascadeProperties | src/blog/models.py:44-58 | deleting a post keeps exactly the posts with another key, in their order |
| Blog.CascadeTwice | src/blog/models.py:44-58 | deleting a post a second time, with its likes and comments, changes nothing more |
| Blog.DeleteRemovesOne | src/blog/models.py:23-41 | with unique keys, deleting a stored post removes exactly one row |
| Accounts.NewUser | src/accounts/models.py:22-28 | the user built from the fields and flags (stated by `NewUserFlags` and `PlainUserDefaults`) |
| Accounts.FieldsFit | src/accounts/models.py:59-61 | the e-mail and both names each fit the 250-character columns |
| Accounts.UserFits | src/accounts/models.py:59-61 | a user whose e-mail and names fit their columns |
| Accounts.NewUserFlags | src/accounts/models.py:22-28 | each flag of a new user is the one passed, otherwise its column default; the stored password checks against the raw one only |
| Accounts.PlainUserDefaults | src/accounts/models.py:62-65 | a user created without extra fields is active, unverified, not staff, not a superuser |
| Accounts.SetDefault | src/accounts/models.py:37-40 | `setdefault` adds the key with the value only when absent, and touches no other key |
| Accounts.SuperuserFields | src/accounts/models.py:37-47 | accepted iff `is_staff` and `is_superuser` are not passed as false; the staff error comes first; accepted flags are the ones passed, otherwise true |
| Accounts.SuperuserDefaults | src/accounts/models.py:37-40 | a superuser created without extra fields has all four flags set |
| Accounts.SuperuserActiveAndVerifiedUnchecked | src/accounts/models.py:42-47 | an inactive, unverified superuser is accepted |
| Accounts.FullName | src/accounts/models.py:79-81 | the first name, one space, then the last name |
| Database.PatchPost | src/blog/api/v1/views.py:79-82 | each given field replaces the column; key, author and creation time are kept; the rest is unchanged |
| Database.PatchWhere | src/blog/api/v1/views.py:82 | only the post with the key is patched; all others are kept, in order |
| Database.Join | src/blog/selectors.py:24 | `select_related`: one row per post, in order, with its author's e-mail and its category's name |
| Database.PatchKeepsSlugsUnique | src/blog/models.py:29 | a patch whose slug no other post has keeps slugs unique |
| Database.Database.OneProfile | src/accounts/models.py:85 | with the one-to-one profile link, a user's profiles are exactly the one found |
| Database.Database.constructor | src/blog/models.py:8-63 | an empty database satisfies every constraint and every user has a profile |
| Database.Database.Rows | src/blog/selectors.py:24 | one joined row per post, in table order |
| Database.Database.ProfileHook | src/accounts/models.py:98-106 | after any save the user has exactly one profile: a new one for a created user or one whose profile is missing, none added otherwise; other users unaffected |
| Database.Database.SaveUser | src/accounts/models.py:30 | a value longer than its column is refused first, then an e-mail another user has; a refusal changes nothing; otherwise the user is stored under its key and has exactly one profile |
| Database.Database.CreateUser | src/accounts/models.py:13-31 | an empty e-mail is refused before anything is saved; then an overlong normalised e-mail or name, then a taken e-mail, each iff it happens; otherwise a new user from the normalised e-mail and the flags, with one new profile |
| Database.Database.CreateSuperuser | src/accounts/models.py:33-55 | the flag checks come first; then `create_user` with its errors each iff it happens; the new user is staff and superuser and has exactly one new profile |
| Database.Database.InsertPost | src/blog/models.py:28-29 | after the slug hook: a title or slug longer than its column, a used slug and a missing author or category each fail in that order, changing nothing; otherwise the row is appended under a fresh key |
| Database.Database.UpdatePost | src/blog/api/v1/views.py:82 | an overlong column, a slug of another post or a missing category fail, changing nothing; otherwise exactly the patch is applied to that post |
| Database.Database.DeletePost | src/blog/models.py:44-58 | the post goes, with its likes and comments; nothing else changes |
| Database.Database.InsertLike | src/blog/models.py:44-50 | a second like of a pair violates `unique_together`; unknown user or post violates a key; otherwise exactly the new like is added |
| Database.Database.DeleteLikes | src/blog/api/v1/views.py:224 | exactly the likes of the pair are deleted |
| Database.Database.InsertFavorite | src/blog/api/v1/views.py:255 | the favourite of the pair is added; the constraints of `Valid()` are kept |
| Database.Database.DeleteFavorite | src/blog/api/v1/views.py:250 | the favourite of the pair is removed; the constraints of `Valid()` are kept |
| Database.Database.InsertCategory | src/blog/models.py:9 | a name over 20 characters or already used fails, changing nothing; otherwise stored under a fresh key |
| Database.Database.DeleteCategory | src/blog/models.py:27 | the category goes and its posts lose it; no post is deleted |
| Views.Refusal | src/blog/api/v1/views.py:44 | the 401 and 403 answers with the framework's messages |
| Views.Authentic | src/blog/api/v1/views.py:80 | the request user is a stored user with its stored staff flag |
| Views.ToggleLike | src/blog/api/v1/views.py:216-228 | anonymous: 401; unknown slug: 500 before any like changes; otherwise the like table becomes the toggle of the pair, answered "Like deleted." or "Like created." |
| Views.ToggleFavorite | src/blog/api/v1/views.py:239-256 | anonymous: 401; no profile or unknown slug: 500, no change; otherwise the user's one profile's favourite of the post is toggled, with the matching message; the constraints of `Valid()` are kept |
| Views.FlipFavorite | src/blog/api/v1/views.py:249-256 | the pair's favourite is toggled and the message says whether it was removed or added; the constraints of `Valid()` are kept |
| Views.FilledWithin | src/blog/api/v1/serializers.py:63-80 | a text field that may not be blank: stripped, not empty, within its limit |
| Views.IsSlug | src/blog/models.py:29 | the characters a slug field accepts: letters, digits, `-` and `_` |
| Views.SlugAccepted | src/blog/models.py:29 | the slug field: a blank slug is taken as empty; otherwise stripped, a valid slug, at most 50 characters, used by no other post |
| Views.ValidPostInput | src/blog/api/v1/views.py:119-120 | `PostSerializer` on a create: an existing category, a non-blank title within 200, a slug the slug field accepts, non-blank content |
| Views.StatusReceived | src/blog/api/v1/views.py:131 | the `status` the view passes on: the given value; for an omitted one, false in a form or multipart body and `None` exactly in a JSON body |
| Views.CreatePost | src/blog/api/v1/views.py:118-142 | anonymous: 401; invalid data: 400; an overlong slug from the hook: 500; an omitted `published_at`, or `status` omitted from a JSON body, or a slug some post has: 400 "Slug already exists."; no post added in any of these; otherwise 201 and exactly the new post, with stripped title and content, appended, unpublished when a form body omitted `status` |
| Views.SaveNewPost | src/blog/api/v1/views.py:124-142 | the final save of a creation: an overlong hook slug is 500, a used one 400 "Slug already exists.", and otherwise the post is appended under the next key; nothing changes unless the answer is 201 |
| Views.DestroyPost | src/blog/api/v1/views.py:108-116 | anonymous: 401; no published post with the slug: 500; a non-author: 403; in all three nothing changes; the author: 204 and the post, its likes and its comments go |
| Views.TrimPatch | src/blog/api/v1/views.py:71-79 | the validated data of a partial update: the given text fields stripped |
| Views.ValidPatch | src/blog/api/v1/views.py:71-77 | the partial `PostSerializer`: each given field checked after stripping; the slug check skips the post itself |
| Views.AcceptedPatch | src/blog/api/v1/views.py:71-82 | the data of an accepted patch fits the columns, writes no blank or unstripped title or content, and collides with another post's slug only as the empty slug |
| Views.PartialUpdatePost | src/blog/api/v1/views.py:68-88 | anonymous: 401; unknown slug: 500; non-author: 403, before the data is looked at; invalid data: 400; a blank slug another post has: 500; in all of these nothing changes; otherwise 200 and exactly the stripped patch applied |
| Views.ErrorText | src/blog/api/v1/views.py:55-58 | `str(ex)` of each filter error (its digits by `Decimal`) |
| Views.Decimal | src/blog/api/v1/filters.py:36 | the decimal form of a count: at least one character, digits only |
| Views.FieldAccepted | src/blog/api/v1/serializers.py:89-93 | an optional `FilterSerializer` field is absent or empty (an empty query parameter is skipped as absent), or non-blank and at most 100 characters once stripped; whitespace alone is refused |
| Views.QueryAccepted | src/blog/api/v1/serializers.py:84-93 | every field of `FilterSerializer` is accepted |
| Views.FilterData | src/blog/api/v1/views.py:49-53 | the validated data the filter set reads: of accepted parameters, each filter is applied exactly when its field was given and not empty |
| Views.ListPosts | src/blog/api/v1/views.py:47-65 | rejected parameters: 400; a filter-set error iff the stripped parameters have one, answered 400 with "Filter Error - " and its message; otherwise exactly the published posts every given filter keeps, in table order |
| Views.UnsetQueryListsPublished | src/blog/api/v1/views.py:47-65 | a query whose parameters are all absent or empty, such as `?author__in=`, lists every published post in table order |
| Views.RetrievePost | src/blog/api/v1/views.py:90-97 | the published post with the slug, or 404 "Post does not exist"; found iff such a post exists |
| Views.CreateCategory | src/blog/api/v1/views.py:231-236 | non-staff: 401 or 403; a name blank or over 20 characters once stripped, or used: 400; otherwise 201 and exactly the new category, with the stripped name, added |
| Views.DestroyCategory | src/blog/api/v1/views.py:231-236 | non-staff: 401 or 403; unknown key: 404; otherwise 204, the category goes and its posts lose it |
| AccountSerializers.ValidateRegistration | src/accounts/api/v1/serializers.py:12-20 | accepted iff the passwords match and the validators report nothing; a mismatch is "Passwords do not match."; strength messages are reported as given |
| AccountSerializers.MismatchHidesStrength | src/accounts/api/v1/serializers.py:13-19 | with a mismatch the outcome is the same whatever the password validators say |
| AccountSerializers.MatchingPasswords | src/accounts/api/v1/serializers.py:16-20 | with matching passwords, acceptance iff the validators report nothing |
| AccountSerializers.Register | src/accounts/api/v1/serializers.py:22-24 | `create_user` without the confirmation: an empty e-mail or a taken normalised one fails, changing nothing; otherwise a new plain user |
| AccountSerializers.Registered | src/accounts/api/v1/serializers.py:22-24 | the stored user has the normalised e-mail, the names, the password, and the plain-user flags |
| AccountSerializers.ConfirmationDropped | src/accounts/api/v1/serializers.py:23 | the stored user does not depend on the confirmation |
| AccountSerializers.ValidateLogin | src/accounts/api/v1/serializers.py:41-63 | a missing or empty e-mail or password: "Must include"; no user authenticated: "Unable to log in"; otherwise every attribute kept and "user" set to the authenticated user |
| AccountSerializers.LoginSucceedsIff | src/accounts/api/v1/serializers.py:45-62 | login succeeds iff both credentials are given and authenticate a user, and then that user is returned |

## Left out

- `filter_search`: PostgreSQL's full-text match is the parameter `matches`.
  The tokenising of the `simple` configuration is not modelled.
- Pagination, serializer representation (`to_representation`, absolute URLs,
  nested comments in the detail view) and response bodies: success answers
  carry an empty `detail`, and 400 answers do not carry the serializer's
  error dictionary.
- E-mail sending, JWT and token handling, password hashing, the password
  validators, `authenticate`, `slugify`, `normalize_email` and clock reads
  are parameters or left out. A password is stored as the opaque
  `Hashed(raw)`.
- The account views, including the change-password view. The only view
  path kept is the serializers' checks.
- The field-level validators of the registration serializer (e-mail format,
  required names, lengths, its unique-e-mail validator) and of the login
  serializer (required, non-blank `email` and `password`). They run before
  `validate`, so through the login serializer the "Must include" answer of
  `AccountSerializers.ValidateLogin` is not reached.
- `update_post` and `delete_post` from `blog.services` are not part of this
  model; `src/blog/services.py` shows only `create_post`. Deletion is the
  model-level cascade. A partial update writes the patched columns directly
  and does not run the pre-save hook.
- The shown `create_post(validated_data, user)` does not accept the keyword
  arguments the create view passes. The model uses the evident intent: a
  `Post.objects.create` with those fields.
- `FavoritePost`'s model definition is not part of this model. Favourites are
  a set of (profile, post) pairs with no key or cascade constraints.
- The `image`, `updated_at` and `published_at` columns, user timestamps and
  profile fields other than `bio` are not kept.
- Comment views and services: only their permission checks are modelled.
- Categories: the framework's list, retrieve and update actions are not
  modelled beyond their permission check. `Category.clean` is not run by
  the API.
- User deletion and its cascades are not modelled.
- Case mapping is ASCII only; `str.capitalize` and `icontains` on other
  scripts are not modelled. Stripping removes ASCII whitespace only, where
  Python's `str.strip` also removes Unicode spaces.
- Extra fields of the user manager are the four flags only.
- Filters.ApplyPostFilter: uses the corrected author filter. A rejection
  reports the limit (10), where the source reports the number of names
  given. The as-written filter and the discrepancy are under Findings.
- Selectors.GetPosts: built on `Filters.ApplyPostFilter`, so it also reports
  the limit rather than the number of names.
- Views.ListPosts: built on `Selectors.GetPosts`, so a rejected `author__in`
  says "more than 10 usernames" rather than the number given.
- Table order: `Post` declares no ordering, so the database may return rows
  in any order. The model uses table (insertion) order for `get_slug`, for
  `.get`'s choice and for the order of the listed posts.
- Database.Database.SaveUser: the length of the `password` column
  (`varchar(128)`) is not checked, because the model stores no real hash.
- A timestamp in a date filter: `created_at__date` compares dates, so the
  default upper bound is today's date rather than the current instant.
- Views.ErrorText: the message of an unparsable date is not Django's exact
  wording.
- Views.CreatePost: the order of outcomes is fixed as the overlong slug
  (500) first, then a null `status` or `published_at`, then a used slug (the
  last two both give 400). The publication time is not stored. A slug in
  the request data is validated but, as in the view, not stored. Whether a
  slug over 50 characters reaches the database depends on the database's
  enforcement of `varchar(50)`; the model treats it as an uncaught error
  (500). The body's encoding is an input (`Encoding`); the parsers that
  turn a body into request data are not part of this model.
- Database.Database.InsertPost: the order in which the database reports
  several violations at once is fixed as length, then uniqueness, then
  foreign keys.
- Concurrency and transaction isolation.

## Findings

| source | as written | input that shows it | evidently intended | confidence | as-written member | corrected member |
|---|---|---|---|---|---|---|
| src/blog/api/v1/filters.py:36 | the error for too many authors reports `len(authors)`, the number of names given | `author__in` with eleven names gives "You cannot add more than 11 usernames", though eleven is exactly what was sent | report the limit: "You cannot add more than 10 usernames" | not executed | Filters.AuthorLimitMessageAsWritten | Filters.AuthorLimitMessage |

The rest of the model uses the corrected `Filters.FilterAuthorIn`: so do
`Filters.ApplyPostFilter`, `Selectors.GetPosts` and `Views.ListPosts`, as
their lines under "## Left out" say.
