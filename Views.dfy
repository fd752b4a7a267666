/** The request handlers of src/blog/api/v1/views.py that change or read the
    tables: the like and favourite toggles, post creation with its slug
    collision answer, post deletion and partial update with their permission
    checks before any write, the post list with its filter errors, the post
    detail, and the category endpoints. A handler is a method on the database;
    its answer is a status code and a `detail` text. An exception a handler
    does not catch is answered with status 500 and leaves the tables as they
    were. */
module Views {
  import opened Common
  import opened Permissions
  import opened Blog
  import Selectors
  import Filters
  import Text
  import Database

  datatype Response = Response(status: nat, detail: string)

  /** The framework's answer to a failed permission check. */
  function Refusal(d: Decision): (r: Response)
    ensures d == NotAuthenticated ==> r == Response(401, "Authentication credentials were not provided.")
    ensures d == Forbidden ==> r == Response(403, "You do not have permission to perform this action.")
    ensures d == Allowed ==> r.status == 200
  {
    match d
    case NotAuthenticated => Response(401, "Authentication credentials were not provided.")
    case Forbidden => Response(403, "You do not have permission to perform this action.")
    case Allowed => Response(200, "")
  }

  /** An uncaught exception (`DoesNotExist`, `DataError`). */
  const ServerError := Response(500, "")
  /** A serializer that rejects the request data (`is_valid(raise_exception=True)`). */
  const Invalid := Response(400, "")

  /** The request user is a stored user, with the staff flag it has in the table. */
  predicate Authentic(db: Database.Database, u: RequestUser)
    reads db`users
  {
    u.Authenticated? ==> u.id in db.users && u.isStaff == db.users[u.id].isStaff
  }

  // ---------------------------------------------------------------------------
  // Likes and favourites

  /** `LikeViewSet.create`: anonymous requests are refused; the post is looked
      up by slug whatever its status (an unknown slug is an uncaught
      `DoesNotExist`, before any like is touched); then the like of the pair is
      deleted if there is one and created otherwise. */
  method ToggleLike(db: Database.Database, user: RequestUser, slug: string, now: Moment)
    returns (resp: Response)
    requires db.Valid() && Authentic(db, user)
    modifies db`likes
    ensures db.Valid()
    ensures user.Anonymous? ==> resp == Refusal(NotAuthenticated) && db.likes == old(db.likes)
    ensures user.Authenticated? && Selectors.GetBySlug(old(db.posts), slug).Err? ==>
      resp == ServerError && db.likes == old(db.likes)
    ensures user.Authenticated? && Selectors.GetBySlug(old(db.posts), slug).Ok? ==>
      var post := Selectors.GetBySlug(old(db.posts), slug).value;
      && db.likes == Blog.ToggleLike(old(db.likes), user.id, post.id, now)
      && resp == Response(200, if HasLike(old(db.likes), user.id, post.id) then "Like deleted." else "Like created.")
  {
    var access := ToggleAccess(user);
    if access != Allowed {
      return Refusal(access);
    }
    var found := Selectors.GetBySlug(db.posts, slug);
    if found.Err? {
      return ServerError;
    }
    var post := found.value;
    assert post.id in PostIds(db.posts);
    assert user.id in db.users;
    if HasLike(db.likes, user.id, post.id) {
      db.DeleteLikes(user.id, post.id);
      resp := Response(200, "Like deleted.");
    } else {
      var created := db.InsertLike(user.id, post.id, now);
      assert created.Ok?;
      resp := Response(200, "Like created.");
    }
  }

  /** `FavoritePostViewSet.create`: anonymous requests are refused; the
      profile of the user is looked up first and the post by slug next (a
      missing one is an uncaught `DoesNotExist`); then the favourite of the
      pair is removed if there is one and added otherwise. */
  method ToggleFavorite(db: Database.Database, user: RequestUser, slug: string) returns (resp: Response)
    requires db.Valid() && Authentic(db, user)
    modifies db`favorites
    ensures db.Valid()
    ensures user.Anonymous? ==> resp == Refusal(NotAuthenticated) && db.favorites == old(db.favorites)
    ensures user.Authenticated? && (!db.HasProfile(user.id) || Selectors.GetBySlug(db.posts, slug).Err?) ==>
      resp == ServerError && db.favorites == old(db.favorites)
    ensures user.Authenticated? && db.HasProfile(user.id) && Selectors.GetBySlug(db.posts, slug).Ok? ==>
      var post := Selectors.GetBySlug(db.posts, slug).value;
      exists profile :: db.ProfilesOf(user.id) == {profile}
        && db.favorites == Blog.ToggleFavorite(old(db.favorites), profile, post.id)
        && resp == Response(200,
             if FavoritePost(profile, post.id) in old(db.favorites)
             then "This post has been removed from your favorites."
             else "This post has been added to your favorites.")
  {
    var access := ToggleAccess(user);
    if access != Allowed {
      return Refusal(access);
    }
    if !db.HasProfile(user.id) {
      return ServerError;
    }
    var profile :| profile in db.profiles && db.profiles[profile].user == user.id;
    db.OneProfile(user.id, profile);
    var found := Selectors.GetBySlug(db.posts, slug);
    if found.Err? {
      return ServerError;
    }
    resp := FlipFavorite(db, profile, found.value.id);
  }

  /** The last step of `FavoritePostViewSet.create`: the pair's favourite is
      removed if there is one and added otherwise, with the matching message. */
  method FlipFavorite(db: Database.Database, profile: ProfileId, post: PostId) returns (resp: Response)
    requires db.Valid()
    modifies db`favorites
    ensures db.Valid()
    ensures db.favorites == Blog.ToggleFavorite(old(db.favorites), profile, post)
    ensures resp == Response(200,
      if FavoritePost(profile, post) in old(db.favorites)
      then "This post has been removed from your favorites."
      else "This post has been added to your favorites.")
  {
    if FavoritePost(profile, post) in db.favorites {
      db.DeleteFavorite(profile, post);
      resp := Response(200, "This post has been removed from your favorites.");
    } else {
      db.InsertFavorite(profile, post);
      resp := Response(200, "This post has been added to your favorites.");
    }
  }

  // ---------------------------------------------------------------------------
  // Posts

  /** How a request body is encoded. In a form or multipart body an omitted
      boolean field takes its HTML default, false; a JSON body leaves it out. */
  datatype Encoding = Json | Form

  /** The request data of a post creation, with the fields the request gave.
      The slug is validated but the view does not pass it on; of the
      publication time only whether it was given matters here. */
  datatype PostInput = PostInput(encoding: Encoding, category: Option<CategoryId>, title: string,
                                 slug: Option<string>, content: string, status: Option<bool>,
                                 publishedAt: Option<Moment>)

  /** `validated_data.get("status")`: the given value; for an omitted `status`
      the boolean field's HTML default, false, in a form body, and `None` in
      a JSON body, where the field is skipped. */
  function StatusReceived(input: PostInput): (r: Option<bool>)
    ensures input.status.Some? ==> r == input.status
    ensures input.status.None? && input.encoding.Form? ==> r == Some(false)
    ensures r.None? <==> input.status.None? && input.encoding.Json?
  {
    if input.status.None? && input.encoding.Form? then Some(false) else input.status
  }

  /** A text field that may not be blank: its stripped value is not empty and
      fits `maxLength`. */
  predicate FilledWithin(text: string, maxLength: nat)
  {
    Text.Trim(text) != "" && |Text.Trim(text)| <= maxLength
  }

  /** What the slug field accepts: a blank slug is taken as the empty slug and
      not checked further; otherwise the stripped slug must be a valid slug of
      at most 50 characters that no post other than `self` has. */
  predicate SlugAccepted(posts: seq<Post>, self: Option<PostId>, slug: string)
  {
    var t := Text.Trim(slug);
    t == "" || (IsSlug(t) && |t| <= SlugMaxLength && forall p :: p in posts && Some(p.id) != self ==> p.slug != t)
  }

  /** What `PostSerializer` accepts for a new post: an existing category, a
      non-blank title that fits its column, a slug (optional) the slug field
      accepts, and non-blank content. */
  predicate ValidPostInput(posts: seq<Post>, categories: map<CategoryId, Category>, input: PostInput)
  {
    && input.category.Some? && input.category.value in categories
    && FilledWithin(input.title, TitleMaxLength)
    && (input.slug.Some? ==> SlugAccepted(posts, None, input.slug.value))
    && Text.Trim(input.content) != ""
  }

  /** `PostViewSet.create`: anonymous requests are refused and invalid data
      answered with 400; the post is created by the request user from the
      stripped title and content, with an empty slug, which the pre-save hook
      replaces with `slugify(title)`. A slug too long for its column is an
      uncaught error. An omitted `published_at`, or a `status` omitted from a
      JSON body, is passed as `None`, which the NOT NULL columns refuse with an `IntegrityError`, as
      they do a slug some post already has: both are answered with 400 "Slug
      already exists." and add no post. */
  method CreatePost(db: Database.Database, user: RequestUser, input: PostInput, now: Moment)
    returns (resp: Response)
    requires db.Valid() && Authentic(db, user)
    modifies db`posts, db`nextId
    ensures db.Valid()
    ensures resp.status != 201 ==> db.posts == old(db.posts) && db.nextId == old(db.nextId)
    ensures user.Anonymous? ==> resp == Refusal(NotAuthenticated)
    ensures user.Authenticated? && !ValidPostInput(old(db.posts), db.categories, input) ==> resp == Invalid
    ensures user.Authenticated? && ValidPostInput(old(db.posts), db.categories, input) ==>
      var title := Text.Trim(input.title);
      var slug := db.slugify(title);
      if |slug| > SlugMaxLength then resp == ServerError
      else if StatusReceived(input).None? || input.publishedAt.None? || exists p :: p in old(db.posts) && p.slug == slug
      then resp == Response(400, "Slug already exists.")
      else
        && resp.status == 201
        && db.posts == old(db.posts) + [Post(old(db.nextId), user.id, input.category, title, slug,
                                             Text.Trim(input.content), StatusReceived(input).value, now)]
  {
    var access := PostAccess(POST, user);
    if access != Allowed {
      return Refusal(access);
    }
    if !ValidPostInput(db.posts, db.categories, input) {
      return Invalid;
    }
    var title := Text.Trim(input.title);
    var status := StatusReceived(input);
    if status.None? || input.publishedAt.None? {
      if |db.slugify(title)| > SlugMaxLength {
        return ServerError;
      }
      return Response(400, "Slug already exists.");
    }
    resp := SaveNewPost(db, user.id, input.category.value, title, Text.Trim(input.content), status.value, now);
  }

  /** The save at the end of `PostViewSet.create`, once the data is valid and
      no column is null: the hook's slug must fit its column (an uncaught
      error otherwise) and be unused (400 "Slug already exists."), and then
      the post is appended under the next key. */
  method SaveNewPost(db: Database.Database, author: UserId, category: CategoryId, title: string,
                     content: string, status: bool, now: Moment) returns (resp: Response)
    requires db.Valid() && author in db.users && category in db.categories
    requires |title| <= TitleMaxLength
    modifies db`posts, db`nextId
    ensures db.Valid()
    ensures resp.status != 201 ==> db.posts == old(db.posts) && db.nextId == old(db.nextId)
    ensures var slug := db.slugify(title);
      if |slug| > SlugMaxLength then resp == ServerError
      else if exists p :: p in old(db.posts) && p.slug == slug then resp == Response(400, "Slug already exists.")
      else
        && resp.status == 201
        && db.posts == old(db.posts) + [Post(old(db.nextId), author, Some(category), title, slug, content, status, now)]
  {
    var inst := new PostInstance(author, Some(category), title, "", content, Some(status), now);
    var created := db.InsertPost(inst);
    if created.Err? {
      if created.error == Database.UniqueViolation {
        return Response(400, "Slug already exists.");
      }
      return ServerError;
    }
    resp := Response(201, "");
  }

  /** `PostViewSet.destroy`: anonymous requests are refused; the published
      post with the slug is looked up (a missing one is an uncaught
      `DoesNotExist`); only its author may delete it, and the delete takes
      the post's likes and comments with it. Nothing changes unless the
      answer is 204. */
  method DestroyPost(db: Database.Database, user: RequestUser, slug: string) returns (resp: Response)
    requires db.Valid() && Authentic(db, user)
    modifies db`posts, db`likes, db`comments
    ensures db.Valid()
    ensures resp.status != 204 ==>
      db.posts == old(db.posts) && db.likes == old(db.likes) && db.comments == old(db.comments)
    ensures user.Anonymous? ==> resp == Refusal(NotAuthenticated)
    ensures user.Authenticated? && Selectors.GetPost(old(db.posts), slug).Err? ==> resp == ServerError
    ensures user.Authenticated? && Selectors.GetPost(old(db.posts), slug).Ok? ==>
      var post := Selectors.GetPost(old(db.posts), slug).value;
      if post.author != user.id then resp == Refusal(Forbidden)
      else
        && resp.status == 204
        && db.posts == PostsWithout(old(db.posts), post.id)
        && db.likes == LikesOfOtherPosts(old(db.likes), post.id)
        && db.comments == CommentsOfOtherPosts(old(db.comments), post.id)
  {
    var access := PostAccess(DELETE, user);
    if access != Allowed {
      return Refusal(access);
    }
    var found := Selectors.GetPost(db.posts, slug);
    if found.Err? {
      return ServerError;
    }
    var post := found.value;
    var objectAccess := PostObjectAccess(DELETE, user, post.author);
    if objectAccess != Allowed {
      return Refusal(objectAccess);
    }
    db.DeletePost(post.id);
    resp := Response(204, "");
  }

  /** A slug as `SlugField` accepts it: letters, digits, `-` and `_`. */
  predicate IsSlug(s: string)
  {
    forall i :: 0 <= i < |s| ==>
      ('a' <= s[i] <= 'z') || ('A' <= s[i] <= 'Z') || ('0' <= s[i] <= '9') || s[i] == '-' || s[i] == '_'
  }

  /** The stripped value of an optional text field. */
  function TrimmedOption(v: Option<string>): Option<string>
  {
    if v.Some? then Some(Text.Trim(v.value)) else None
  }

  /** The validated data of a partial update: the text fields stripped. */
  function TrimPatch(patch: Database.PostPatch): Database.PostPatch
  {
    patch.(title := TrimmedOption(patch.title), slug := TrimmedOption(patch.slug),
           content := TrimmedOption(patch.content))
  }

  /** What the partial `PostSerializer` accepts for post `post`: only the
      fields given are checked, each after stripping; the slug validator
      skips the post itself. */
  predicate ValidPatch(posts: seq<Post>, categories: map<CategoryId, Category>, post: Post,
                       patch: Database.PostPatch)
  {
    && (patch.title.Some? ==> FilledWithin(patch.title.value, TitleMaxLength))
    && (patch.content.Some? ==> Text.Trim(patch.content.value) != "")
    && (patch.slug.Some? ==> SlugAccepted(posts, Some(post.id), patch.slug.value))
    && (patch.category.Some? ==> patch.category.value in categories)
  }

  /** The validated data of an accepted patch fits the columns; it writes no
      blank title or content and no text with whitespace at either end, and
      its slug is taken by another post only when it is the blank slug. */
  lemma AcceptedPatch(posts: seq<Post>, categories: map<CategoryId, Category>, post: Post,
                      patch: Database.PostPatch)
    requires ValidPatch(posts, categories, post, patch)
    ensures var data := TrimPatch(patch);
      && Database.PatchFits(data)
      && (data.title.Some? ==> data.title.value != "" && Text.Trim(data.title.value) == data.title.value)
      && (data.content.Some? ==> data.content.value != "" && Text.Trim(data.content.value) == data.content.value)
      && (Database.SlugTakenByOther(posts, post.id, data) ==> data.slug == Some(""))
  {
    var data := TrimPatch(patch);
    if patch.title.Some? {
      Text.TrimIdempotent(patch.title.value);
    }
    if patch.content.Some? {
      Text.TrimIdempotent(patch.content.value);
    }
  }

  /** `PostViewSet.partial_update`: anonymous requests are refused; the post
      with the slug is looked up whatever its status (a missing one is an
      uncaught `DoesNotExist`); only its author may change it, and only then
      is the data validated and its stripped fields written. A blank slug
      passes validation, and when another post has the empty slug the unique
      constraint refuses it with an uncaught `IntegrityError`. Nothing changes
      unless the answer is 200. */
  method PartialUpdatePost(db: Database.Database, user: RequestUser, slug: string, patch: Database.PostPatch)
    returns (resp: Response)
    requires db.Valid() && Authentic(db, user)
    modifies db`posts
    ensures db.Valid()
    ensures resp.status != 200 ==> db.posts == old(db.posts)
    ensures user.Anonymous? ==> resp == Refusal(NotAuthenticated)
    ensures user.Authenticated? && Selectors.GetBySlug(old(db.posts), slug).Err? ==> resp == ServerError
    ensures user.Authenticated? && Selectors.GetBySlug(old(db.posts), slug).Ok? ==>
      var post := Selectors.GetBySlug(old(db.posts), slug).value;
      if post.author != user.id then resp == Refusal(Forbidden)
      else if !ValidPatch(old(db.posts), db.categories, post, patch) then resp == Invalid
      else if Database.SlugTakenByOther(old(db.posts), post.id, TrimPatch(patch)) then resp == ServerError
      else resp.status == 200 && db.posts == Database.PatchWhere(old(db.posts), post.id, TrimPatch(patch))
  {
    var access := PostAccess(PATCH, user);
    if access != Allowed {
      return Refusal(access);
    }
    var found := Selectors.GetBySlug(db.posts, slug);
    if found.Err? {
      return ServerError;
    }
    var post := found.value;
    var objectAccess := PostObjectAccess(PATCH, user, post.author);
    if objectAccess != Allowed {
      return Refusal(objectAccess);
    }
    if !ValidPatch(db.posts, db.categories, post, patch) {
      return Invalid;
    }
    AcceptedPatch(db.posts, db.categories, post, patch);
    var updated := db.UpdatePost(post.id, TrimPatch(patch));
    if updated.Err? {
      return ServerError;
    }
    resp := Response(200, "");
  }

  /** `str(ex)` of the exceptions the filters raise. */
  function ErrorText(e: Filters.FilterError): string
  {
    match e
    case TooManyAuthors(shown) => "You cannot add more than " + Decimal(shown) + " usernames"
    case TooManyDates => "Please just add two created_at with , in the middle"
    case NotEnoughDates(got) => "not enough values to unpack (expected 2, got " + Decimal(got) + ")"
    case InvalidDate(text) => "invalid date: " + text
  }

  /** The decimal digits of `n`. */
  function Decimal(n: nat): (r: string)
    ensures |r| >= 1
    ensures forall i :: 0 <= i < |r| ==> '0' <= r[i] <= '9'
  {
    var digit := ['0' + (n % 10) as char];
    if n < 10 then digit else Decimal(n / 10) + digit
  }

  /** The query parameters `FilterSerializer` reads. `title` is validated but
      no filter of the filter set uses it. The full-text match behind `search`
      is the parameter `matches`. */
  datatype QueryParams = QueryParams(
    title: Option<string>,
    search: Option<string>,
    authorIn: Option<string>,
    categoryName: Option<string>,
    createdAtRange: Option<string>)

  /** The length limit of every `FilterSerializer` field. */
  const QueryMaxLength: nat := 100

  /** An optional field of `FilterSerializer` is absent or empty, or is not
      blank and fits the limit once stripped. An empty query parameter of an
      optional field that refuses blanks is skipped by `Field.get_value`, as
      if it were absent; one made of whitespace only is refused. */
  predicate FieldAccepted(v: Option<string>)
  {
    v.Some? && v.value != "" ==> FilledWithin(v.value, QueryMaxLength)
  }

  /** The value `FilterSerializer` keeps for a field: none for an absent or
      empty parameter, the stripped text otherwise. */
  function ValidatedField(v: Option<string>): Option<string>
  {
    if v.Some? && v.value != "" then Some(Text.Trim(v.value)) else None
  }

  predicate QueryAccepted(q: QueryParams)
  {
    && FieldAccepted(q.title) && FieldAccepted(q.search) && FieldAccepted(q.authorIn)
    && FieldAccepted(q.categoryName) && FieldAccepted(q.createdAtRange)
  }

  /** `filter_serializer.validated_data` as the filter set reads it: the
      stripped values of the fields given. Every field of accepted
      parameters is applied exactly when it was given and is not empty. */
  function FilterData(q: QueryParams): (f: Filters.FilterParams)
    ensures QueryAccepted(q) ==>
      && (Filters.Given(f.search) <==> q.search.Some? && q.search.value != "")
      && (Filters.Given(f.categoryName) <==> q.categoryName.Some? && q.categoryName.value != "")
      && (Filters.Given(f.authorIn) <==> q.authorIn.Some? && q.authorIn.value != "")
      && (Filters.Given(f.createdAtRange) <==> q.createdAtRange.Some? && q.createdAtRange.value != "")
  {
    Filters.FilterParams(ValidatedField(q.search), ValidatedField(q.categoryName),
                         ValidatedField(q.authorIn), ValidatedField(q.createdAtRange))
  }

  /** A query parameter that is absent or empty. */
  predicate Unset(v: Option<string>)
  {
    v.None? || v == Some("")
  }

  /** `PostViewSet.list`: parameters `FilterSerializer` rejects are answered
      with 400; otherwise the published posts narrowed by the filter set,
      where an error a filter raises is answered with 400 and the text
      "Filter Error - " followed by the error's message. */
  function ListPosts(db: Database.Database, query: QueryParams, today: Date,
                     parse: string -> Option<Date>, matches: (string, string) -> bool)
    : (r: Result<seq<Filters.PostRow>, Response>)
    reads db`posts, db`users, db`categories
    requires Database.PostsOk(db.posts, db.users.Keys, db.categories.Keys)
    ensures !QueryAccepted(query) ==> r == Err(Invalid)
    ensures QueryAccepted(query) ==>
      (r.Err? <==> Filters.ParamsError(FilterData(query), today, parse).Some?)
    ensures QueryAccepted(query) && r.Err? ==>
      r.error == Response(400, "Filter Error - " + ErrorText(Filters.ParamsError(FilterData(query), today, parse).value))
    ensures QueryAccepted(query) ==>
      (r.Err? <==> Selectors.GetPosts(db.Rows(), Some(FilterData(query)), today, parse, matches).Err?)
    ensures r.Ok? ==> forall x :: x in r.value <==>
      x in db.Rows() && x.post.status && Filters.Keeps(FilterData(query), today, parse, matches, x)
    ensures r.Ok? ==> forall x :: x in r.value ==> x.post in db.posts && x.post.status
    ensures r.Ok? ==> IsSubsequence(r.value, db.Rows())
  {
    if !QueryAccepted(query) then Err(Invalid)
    else
      var rows := db.Rows();
      match Selectors.GetPosts(rows, Some(FilterData(query)), today, parse, matches)
      case Ok(listed) =>
        assert forall x :: x in rows ==> x.post in db.posts by {
          forall x | x in rows ensures x.post in db.posts {
            var i :| 0 <= i < |rows| && rows[i] == x;
          }
        }
        Ok(listed)
      case Err(e) => Err(Response(400, "Filter Error - " + ErrorText(e)))
  }

  /** A query whose every parameter is absent or empty, such as
      `?author__in=`, lists every published post, in table order. */
  lemma UnsetQueryListsPublished(db: Database.Database, q: QueryParams, today: Date,
                                 parse: string -> Option<Date>, matches: (string, string) -> bool)
    requires Database.PostsOk(db.posts, db.users.Keys, db.categories.Keys)
    requires Unset(q.title) && Unset(q.search) && Unset(q.authorIn)
    requires Unset(q.categoryName) && Unset(q.createdAtRange)
    ensures ListPosts(db, q, today, parse, matches) == Ok(Selectors.Published(db.Rows()))
  {
    assert FilterData(q) == Filters.NoFilters;
    Selectors.EmptyFiltersAreNoFilters(db.Rows(), today, parse, matches);
  }

  /** `PostViewSet.retrieve`: the published post with the slug, or 404. */
  function RetrievePost(db: Database.Database, slug: string): (r: Result<Post, Response>)
    reads db`posts
    ensures r.Err? ==> r.error == Response(404, "Post does not exist")
    ensures r.Ok? ==> r.value in db.posts && r.value.status && r.value.slug == slug
    ensures Selectors.SlugsUnique(db.posts) ==>
      (r.Ok? <==> exists p :: p in db.posts && p.status && p.slug == slug)
  {
    var answer := match Selectors.GetPost(db.posts, slug)
      case Ok(p) => Ok(p)
      case Err(_) => Err(Response(404, "Post does not exist"));
    if Selectors.SlugsUnique(db.posts) then (Selectors.GetPostSpec(db.posts, slug); answer) else answer
  }

  // ---------------------------------------------------------------------------
  // Categories

  /** `CategoryViewSet.create`: only staff may create, anonymous requests are
      refused with 401 and other users with 403; the name is stripped, and a
      blank, too long or used name is invalid. `Category.clean` is not run on
      this path. */
  method CreateCategory(db: Database.Database, user: RequestUser, name: string) returns (resp: Response)
    requires db.Valid() && Authentic(db, user)
    modifies db`categories, db`nextId
    ensures db.Valid()
    ensures resp.status != 201 ==> db.categories == old(db.categories) && db.nextId == old(db.nextId)
    ensures !IsStaff(user) ==> resp == Refusal(if user.Anonymous? then NotAuthenticated else Forbidden)
    ensures IsStaff(user) ==>
      var stripped := Text.Trim(name);
      if !FilledWithin(name, CategoryNameMaxLength)
         || exists c :: c in old(db.categories) && old(db.categories)[c].name == stripped
      then resp == Invalid
      else
        && resp.status == 201
        && exists c: CategoryId :: c !in old(db.categories) && db.categories == old(db.categories)[c := Category(stripped)]
  {
    var access := CategoryAccess(POST, user);
    if access != Allowed {
      return Refusal(access);
    }
    var stripped := Text.Trim(name);
    if !FilledWithin(name, CategoryNameMaxLength) || exists c :: c in db.categories && db.categories[c].name == stripped {
      return Invalid;
    }
    var created := db.InsertCategory(stripped);
    resp := Response(201, "");
  }

  /** `CategoryViewSet.destroy`: only staff may delete; an unknown key is
      answered with 404; the category's posts stay and lose their category. */
  method DestroyCategory(db: Database.Database, user: RequestUser, id: CategoryId) returns (resp: Response)
    requires db.Valid() && Authentic(db, user)
    modifies db`categories, db`posts
    ensures db.Valid()
    ensures resp.status != 204 ==> db.categories == old(db.categories) && db.posts == old(db.posts)
    ensures !IsStaff(user) ==> resp == Refusal(if user.Anonymous? then NotAuthenticated else Forbidden)
    ensures IsStaff(user) && id !in old(db.categories) ==> resp == Response(404, "Not found.")
    ensures IsStaff(user) && id in old(db.categories) ==>
      resp.status == 204 && db.categories == old(db.categories) - {id} && db.posts == DetachAll(old(db.posts), id)
  {
    var access := CategoryAccess(DELETE, user);
    if access != Allowed {
      return Refusal(access);
    }
    if id !in db.categories {
      return Response(404, "Not found.");
    }
    db.DeleteCategory(id);
    resp := Response(204, "");
  }
}
