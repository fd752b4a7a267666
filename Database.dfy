/** The tables of the application and the writes the ORM performs on them:
    saving users with the profile hook of src/accounts/models.py, the manager
    methods `create_user` and `create_superuser`, inserting posts (with the
    pre-save hook of src/blog/signals.py), likes, favourites and categories,
    and deleting posts and categories with their on-delete rules. The
    constraints the schema declares are the invariant `Valid`. */
module Database {
  import opened Common
  import opened Accounts
  import opened Blog
  import Signals
  import Selectors
  import Filters

  /** What the database refuses: a unique or foreign-key constraint
      (`IntegrityError`), or a value longer than its column (`DataError`). */
  datatype DbError = UniqueViolation | ForeignKeyViolation | ValueTooLong

  /** The fields a partial update of a post may set; a missing one keeps its value. */
  datatype PostPatch = PostPatch(
    category: Option<CategoryId>,
    title: Option<string>,
    slug: Option<string>,
    content: Option<string>,
    status: Option<bool>)

  /** A post with the fields of `patch` written into it. */
  function PatchPost(p: Post, patch: PostPatch): (q: Post)
    ensures q.id == p.id && q.author == p.author && q.createdAt == p.createdAt
    ensures q.slug == (if patch.slug.Some? then patch.slug.value else p.slug)
    ensures q.category == (if patch.category.Some? then patch.category else p.category)
    ensures q.title == (if patch.title.Some? then patch.title.value else p.title)
    ensures q.content == (if patch.content.Some? then patch.content.value else p.content)
    ensures q.status == (if patch.status.Some? then patch.status.value else p.status)
  {
    p.(category := if patch.category.Some? then patch.category else p.category,
       title := if patch.title.Some? then patch.title.value else p.title,
       slug := if patch.slug.Some? then patch.slug.value else p.slug,
       content := if patch.content.Some? then patch.content.value else p.content,
       status := if patch.status.Some? then patch.status.value else p.status)
  }

  /** The post table after `UPDATE ... WHERE id = id`. */
  function PatchWhere(posts: seq<Post>, id: PostId, patch: PostPatch): (r: seq<Post>)
    ensures |r| == |posts|
    ensures forall i :: 0 <= i < |posts| ==>
      r[i] == if posts[i].id == id then PatchPost(posts[i], patch) else posts[i]
    decreases |posts|
  {
    if posts == [] then []
    else [if posts[0].id == id then PatchPost(posts[0], patch) else posts[0]] + PatchWhere(posts[1..], id, patch)
  }

  /** The posts joined with their author and category (`select_related`). */
  function Join(posts: seq<Post>, users: map<UserId, User>, categories: map<CategoryId, Category>)
    : (rows: seq<Filters.PostRow>)
    requires forall p :: p in posts ==> p.author in users
    ensures |rows| == |posts|
    ensures forall i :: 0 <= i < |posts| ==>
      && rows[i].post == posts[i]
      && rows[i].authorEmail == users[posts[i].author].email
      && rows[i].categoryName ==
           (if posts[i].category.Some? && posts[i].category.value in categories
            then Some(categories[posts[i].category.value].name) else None)
    decreases |posts|
  {
    if posts == [] then []
    else
      var p := posts[0];
      var name := if p.category.Some? && p.category.value in categories
                  then Some(categories[p.category.value].name) else None;
      [Filters.PostRow(p, users[p.author].email, name)] + Join(posts[1..], users, categories)
  }

  /** The posts other than `id`: their keys are the old keys less `id`. */
  lemma PostIdsWithout(posts: seq<Post>, id: PostId)
    ensures PostIds(PostsWithout(posts, id)) == PostIds(posts) - {id}
  {
    var r := PostsWithout(posts, id);
    forall x | x in PostIds(posts) - {id} ensures x in PostIds(r) {
      var p :| p in posts && p.id == x;
      assert p in r;
    }
  }

  /** Set-null changes no key of the post table. */
  lemma DetachKeepsKeys(posts: seq<Post>, c: CategoryId)
    ensures PostIds(DetachAll(posts, c)) == PostIds(posts)
    ensures forall p :: p in DetachAll(posts, c) ==> exists q :: q in posts && q.id == p.id
  {
    DetachAllProperties(posts, c);
    var r := DetachAll(posts, c);
    forall p | p in r ensures exists q :: q in posts && q.id == p.id {
      var i :| 0 <= i < |r| && r[i] == p;
      assert posts[i].id == p.id;
    }
  }

  // ---------------------------------------------------------------------------
  // The constraints of the schema, on table values

  /** `User.email` is unique and every e-mail and name fits its column; a
      profile belongs to a stored user, and no user has two (`Profile.user` is
      one-to-one). */
  ghost predicate AccountsOk(users: map<UserId, User>, profiles: map<ProfileId, Profile>)
  {
    && (forall k :: k in users ==> UserFits(users[k]))
    && (forall a, b :: a in users && b in users && users[a].email == users[b].email ==> a == b)
    && (forall p :: p in profiles ==> profiles[p].user in users)
    && (forall p, q :: p in profiles && q in profiles && profiles[p].user == profiles[q].user ==> p == q)
  }

  /** `Category.name` has at most 20 characters and is unique. */
  ghost predicate CategoriesOk(categories: map<CategoryId, Category>)
  {
    && (forall c :: c in categories ==> |categories[c].name| <= CategoryNameMaxLength)
    && (forall a, b :: a in categories && b in categories && categories[a].name == categories[b].name ==> a == b)
  }

  /** Post keys and slugs are unique, titles fit their column, and authors and
      categories are keys of the user and category tables. */
  ghost predicate PostsOk(posts: seq<Post>, userKeys: set<UserId>, categoryKeys: set<CategoryId>)
  {
    && Selectors.SlugsUnique(posts)
    && UniqueBy(posts, IdOf)
    && (forall p :: p in posts ==> p.author in userKeys)
    && (forall p :: p in posts ==> Fits(p))
    && (forall p :: p in posts && p.category.Some? ==> p.category.value in categoryKeys)
  }

  /** `Like.Meta.unique_together`, and likes refer to stored users and posts. */
  ghost predicate LikesOk(likes: set<Like>, userKeys: set<UserId>, postKeys: set<PostId>)
  {
    && UniqueTogether(likes)
    && (forall l :: l in likes ==> l.likeUser in userKeys && l.likePost in postKeys)
  }

  /** Comments refer to stored users and posts. */
  ghost predicate CommentsOk(comments: map<CommentId, Comment>, userKeys: set<UserId>, postKeys: set<PostId>)
  {
    forall c :: c in comments ==> comments[c].commentUser in userKeys && comments[c].commentPost in postKeys
  }

  /** Every key is below `bound`. */
  ghost predicate Below(keys: set<nat>, bound: nat)
  {
    forall k :: k in keys ==> k < bound
  }

  /** Appending a post with a new key and slug whose references hold keeps the
      post constraints, and adds its key. */
  lemma PostsAppend(posts: seq<Post>, row: Post, userKeys: set<UserId>, categoryKeys: set<CategoryId>)
    requires PostsOk(posts, userKeys, categoryKeys)
    requires row.author in userKeys && Fits(row)
    requires row.category.Some? ==> row.category.value in categoryKeys
    requires forall p :: p in posts ==> p.slug != row.slug && p.id != row.id
    ensures PostsOk(posts + [row], userKeys, categoryKeys)
    ensures PostIds(posts + [row]) == PostIds(posts) + {row.id}
  {
    assert forall i :: 0 <= i < |posts| ==> posts[i] in posts;
    AppendKeepsUnique(posts, row, SlugOf);
    AppendKeepsUnique(posts, row, IdOf);
    var r := posts + [row];
    assert forall p :: p in r ==> p in posts || p == row;
    assert row in r;
  }

  /** A table `r` that has, position by position, the keys, slugs and authors of
      `posts`, and whose titles and categories are valid, keeps the post
      constraints and has the same keys. */
  lemma SameKeys(posts: seq<Post>, r: seq<Post>, userKeys: set<UserId>,
                 oldCategoryKeys: set<CategoryId>, categoryKeys: set<CategoryId>)
    requires PostsOk(posts, userKeys, oldCategoryKeys)
    requires |r| == |posts|
    requires forall i :: 0 <= i < |posts| ==>
      r[i].id == posts[i].id && r[i].slug == posts[i].slug && r[i].author == posts[i].author
    requires forall i :: 0 <= i < |r| ==> Fits(r[i])
    requires forall i :: 0 <= i < |r| && r[i].category.Some? ==> r[i].category.value in categoryKeys
    ensures PostsOk(r, userKeys, categoryKeys)
    ensures PostIds(r) == PostIds(posts)
  {
    assert forall i :: 0 <= i < |posts| ==> posts[i] in posts;
    assert forall i :: 0 <= i < |r| ==> SlugOf(r[i]) == SlugOf(posts[i]) && IdOf(r[i]) == IdOf(posts[i]);
    forall q | q in r ensures q.author in userKeys && Fits(q)
      && (q.category.Some? ==> q.category.value in categoryKeys)
    {
      var i :| 0 <= i < |r| && r[i] == q;
    }
    forall x | x in PostIds(posts) ensures x in PostIds(r) {
      var i :| 0 <= i < |posts| && posts[i].id == x;
      assert r[i] in r;
    }
    forall x | x in PostIds(r) ensures x in PostIds(posts) {
      var i :| 0 <= i < |r| && r[i].id == x;
      assert posts[i] in posts;
    }
  }

  /** The new title and slug of a patch fit their columns. */
  predicate PatchFits(patch: PostPatch)
  {
    && (patch.title.Some? ==> |patch.title.value| <= TitleMaxLength)
    && (patch.slug.Some? ==> |patch.slug.value| <= SlugMaxLength)
  }

  /** A post other than `id` already has the new slug of `patch`. */
  predicate SlugTakenByOther(posts: seq<Post>, id: PostId, patch: PostPatch)
  {
    patch.slug.Some? && exists q :: q in posts && q.id != id && q.slug == patch.slug.value
  }

  /** A patch whose slug no other post has keeps slugs unique. */
  lemma PatchKeepsSlugsUnique(posts: seq<Post>, id: PostId, patch: PostPatch)
    requires Selectors.SlugsUnique(posts) && UniqueBy(posts, IdOf)
    requires !SlugTakenByOther(posts, id, patch)
    ensures Selectors.SlugsUnique(PatchWhere(posts, id, patch))
  {
    var r := PatchWhere(posts, id, patch);
    assert forall k :: 0 <= k < |posts| && posts[k].id != id && patch.slug.Some? ==>
      posts[k] in posts && posts[k].slug != patch.slug.value;
    forall i, j | 0 <= i < |r| && 0 <= j < |r| && SlugOf(r[i]) == SlugOf(r[j])
      ensures i == j
    {
      if posts[i].id == id && posts[j].id == id {
        assert IdOf(posts[i]) == IdOf(posts[j]);
      } else {
        assert SlugOf(posts[i]) == SlugOf(posts[j]);
      }
    }
  }

  /** A patch changes no key of the post table. */
  lemma PatchKeepsKeys(posts: seq<Post>, id: PostId, patch: PostPatch)
    ensures UniqueBy(posts, IdOf) ==> UniqueBy(PatchWhere(posts, id, patch), IdOf)
    ensures PostIds(PatchWhere(posts, id, patch)) == PostIds(posts)
  {
    var r := PatchWhere(posts, id, patch);
    assert forall i :: 0 <= i < |r| ==> IdOf(r[i]) == IdOf(posts[i]);
    forall x | x in PostIds(posts) ensures x in PostIds(r) {
      var i :| 0 <= i < |posts| && posts[i].id == x;
      assert r[i] in r;
    }
    forall x | x in PostIds(r) ensures x in PostIds(posts) {
      var i :| 0 <= i < |r| && r[i].id == x;
      assert posts[i] in posts;
    }
  }

  /** A patch whose values fit, whose slug no other post has and whose
      category exists keeps the post constraints and the post keys. */
  lemma PatchKeepsPosts(posts: seq<Post>, id: PostId, patch: PostPatch,
                        userKeys: set<UserId>, categoryKeys: set<CategoryId>)
    requires PostsOk(posts, userKeys, categoryKeys)
    requires PatchFits(patch) && !SlugTakenByOther(posts, id, patch)
    requires patch.category.Some? ==> patch.category.value in categoryKeys
    ensures PostsOk(PatchWhere(posts, id, patch), userKeys, categoryKeys)
    ensures PostIds(PatchWhere(posts, id, patch)) == PostIds(posts)
  {
    PatchKeepsSlugsUnique(posts, id, patch);
    PatchKeepsKeys(posts, id, patch);
    var r := PatchWhere(posts, id, patch);
    forall q | q in r ensures q.author in userKeys && Fits(q) && (q.category.Some? ==> q.category.value in categoryKeys)
    {
      var i :| 0 <= i < |r| && r[i] == q;
      assert posts[i] in posts;
    }
  }

  /** The reference constraints only get easier to meet with more keys. */
  lemma MoreKeys(posts: seq<Post>, likes: set<Like>, comments: map<CommentId, Comment>,
                 u0: set<UserId>, u1: set<UserId>, c0: set<CategoryId>, c1: set<CategoryId>,
                 p0: set<PostId>, p1: set<PostId>)
    requires u0 <= u1 && c0 <= c1 && p0 <= p1
    ensures PostsOk(posts, u0, c0) ==> PostsOk(posts, u1, c1)
    ensures LikesOk(likes, u0, p0) ==> LikesOk(likes, u1, p1)
    ensures CommentsOk(comments, u0, p0) ==> CommentsOk(comments, u1, p1)
  {
  }

  /** A raised bound keeps every key below it. */
  lemma HigherBound(keys: set<nat>, b0: nat, b1: nat)
    requires Below(keys, b0) && b0 <= b1
    ensures Below(keys, b1)
  {
  }

  /** Writing user `u` under `id`, when no other user has its e-mail, keeps
      the account constraints. */
  lemma PutUserOk(users: map<UserId, User>, profiles: map<ProfileId, Profile>, id: UserId, u: User)
    requires AccountsOk(users, profiles) && UserFits(u)
    requires forall k :: k in users && users[k].email == u.email ==> k == id
    ensures AccountsOk(users[id := u], profiles)
  {
  }

  /** Adding a profile for a stored user who has none keeps the account
      constraints. */
  lemma AddProfileOk(users: map<UserId, User>, profiles: map<ProfileId, Profile>, p: ProfileId, id: UserId)
    requires AccountsOk(users, profiles) && id in users && p !in profiles
    requires forall q :: q in profiles ==> profiles[q].user != id
    ensures AccountsOk(users, profiles[p := Profile(id, "")])
  {
  }

  /** The constraints of the schema over all tables, and a key sequence above
      every key in use. */
  ghost predicate Consistent(users: map<UserId, User>, profiles: map<ProfileId, Profile>,
                             categories: map<CategoryId, Category>, posts: seq<Post>, likes: set<Like>,
                             comments: map<CommentId, Comment>, nextId: nat)
  {
    && AccountsOk(users, profiles)
    && CategoriesOk(categories)
    && PostsOk(posts, users.Keys, categories.Keys)
    && LikesOk(likes, users.Keys, PostIds(posts))
    && CommentsOk(comments, users.Keys, PostIds(posts))
    && Below(users.Keys, nextId)
    && Below(profiles.Keys, nextId)
    && Below(categories.Keys, nextId)
    && Below(PostIds(posts), nextId)
    && Below(comments.Keys, nextId)
  }

  /** Writing a user that fits its columns and whose e-mail no other user has keeps the tables
      consistent, with the key sequence moved past its key. */
  lemma PutUserConsistent(users: map<UserId, User>, profiles: map<ProfileId, Profile>,
                          categories: map<CategoryId, Category>, posts: seq<Post>, likes: set<Like>,
                          comments: map<CommentId, Comment>, nextId: nat, id: UserId, u: User)
    requires Consistent(users, profiles, categories, posts, likes, comments, nextId)
    requires UserFits(u) && forall k :: k in users && users[k].email == u.email ==> k == id
    ensures Consistent(users[id := u], profiles, categories, posts, likes, comments,
                       if nextId <= id then id + 1 else nextId)
  {
    var bound := if nextId <= id then id + 1 else nextId;
    PutUserOk(users, profiles, id, u);
    HigherBound(profiles.Keys, nextId, bound);
    HigherBound(categories.Keys, nextId, bound);
    HigherBound(PostIds(posts), nextId, bound);
    HigherBound(comments.Keys, nextId, bound);
    MoreKeys(posts, likes, comments, users.Keys, users[id := u].Keys, categories.Keys, categories.Keys,
             PostIds(posts), PostIds(posts));
  }

  /** Adding a profile under the next key for a stored user who has none keeps
      the tables consistent. */
  lemma AddProfileConsistent(users: map<UserId, User>, profiles: map<ProfileId, Profile>,
                             categories: map<CategoryId, Category>, posts: seq<Post>, likes: set<Like>,
                             comments: map<CommentId, Comment>, nextId: nat, id: UserId)
    requires Consistent(users, profiles, categories, posts, likes, comments, nextId)
    requires id in users && forall q :: q in profiles ==> profiles[q].user != id
    ensures Consistent(users, profiles[nextId := Profile(id, "")], categories, posts, likes, comments, nextId + 1)
  {
    AddProfileOk(users, profiles, nextId, id);
    HigherBound(users.Keys, nextId, nextId + 1);
    HigherBound(categories.Keys, nextId, nextId + 1);
    HigherBound(PostIds(posts), nextId, nextId + 1);
    HigherBound(comments.Keys, nextId, nextId + 1);
  }

  /** Appending a post under the next key, with a new slug and valid references,
      keeps the tables consistent. */
  lemma AppendPostConsistent(users: map<UserId, User>, profiles: map<ProfileId, Profile>,
                             categories: map<CategoryId, Category>, posts: seq<Post>, likes: set<Like>,
                             comments: map<CommentId, Comment>, nextId: nat, row: Post)
    requires Consistent(users, profiles, categories, posts, likes, comments, nextId)
    requires row.id == nextId && row.author in users && Fits(row)
    requires row.category.Some? ==> row.category.value in categories
    requires forall p :: p in posts ==> p.slug != row.slug
    ensures Consistent(users, profiles, categories, posts + [row], likes, comments, nextId + 1)
  {
    assert forall p :: p in posts ==> p.id in PostIds(posts);
    PostsAppend(posts, row, users.Keys, categories.Keys);
    MoreKeys(posts, likes, comments, users.Keys, users.Keys, categories.Keys, categories.Keys,
             PostIds(posts), PostIds(posts) + {row.id});
    HigherBound(users.Keys, nextId, nextId + 1);
    HigherBound(profiles.Keys, nextId, nextId + 1);
    HigherBound(categories.Keys, nextId, nextId + 1);
    HigherBound(comments.Keys, nextId, nextId + 1);
  }

  class Database {
    /** `django.utils.text.slugify`, used by the pre-save hook. */
    const slugify: string -> string
    /** `BaseUserManager.normalize_email`. */
    const normalizeEmail: string -> string

    var users: map<UserId, User>
    var profiles: map<ProfileId, Profile>
    var categories: map<CategoryId, Category>
    /** The post table in insertion order. */
    var posts: seq<Post>
    var likes: set<Like>
    var comments: map<CommentId, Comment>
    var favorites: set<FavoritePost>
    /** The next key the database hands out (one sequence for every table). */
    var nextId: nat

    /** The constraints of the schema, and fresh keys above every key in use. */
    ghost predicate Valid()
      reads this`users, this`profiles, this`categories, this`posts, this`likes, this`comments, this`nextId
    {
      Consistent(users, profiles, categories, posts, likes, comments, nextId)
    }

    /** `Profile.objects.filter(user=u).exists()`. */
    predicate HasProfile(u: UserId)
      reads this`profiles
    {
      exists p :: p in profiles && profiles[p].user == u
    }

    /** The profiles of user `u`. */
    function ProfilesOf(u: UserId): set<ProfileId>
      reads this`profiles
    {
      set p | p in profiles && profiles[p].user == u
    }

    /** Every stored user has a profile: what the post-save hook maintains. */
    ghost predicate ProfilesComplete()
      reads this`users, this`profiles
    {
      forall u :: u in users ==> HasProfile(u)
    }

    /** Under the one-to-one rule a user's profile is the only one. */
    lemma OneProfile(u: UserId, p: ProfileId)
      requires AccountsOk(users, profiles) && p in profiles && profiles[p].user == u
      ensures ProfilesOf(u) == {p}
    {
    }

    /** An empty database. */
    constructor (slugify: string -> string, normalizeEmail: string -> string)
      ensures Valid() && ProfilesComplete()
      ensures this.slugify == slugify && this.normalizeEmail == normalizeEmail
      ensures users == map[] && profiles == map[] && categories == map[]
      ensures posts == [] && likes == {} && comments == map[] && favorites == {}
    {
      this.slugify := slugify;
      this.normalizeEmail := normalizeEmail;
      users, profiles, categories := map[], map[], map[];
      posts, likes, comments, favorites := [], {}, map[], {};
      nextId := 0;
    }

    /** The post rows with the author and category columns the filters read. */
    function Rows(): (rows: seq<Filters.PostRow>)
      reads this`posts, this`users, this`categories
      requires PostsOk(posts, users.Keys, categories.Keys)
      ensures |rows| == |posts|
      ensures forall i :: 0 <= i < |posts| ==> rows[i].post == posts[i] && rows[i].authorEmail == users[posts[i].author].email
    {
      Join(posts, users, categories)
    }

    // -------------------------------------------------------------------------
    // Users and profiles

    /** `create_or_update_user_profile` after user `id` was saved (`created`
        when the save inserted it): a new user gets a profile; an existing user
        keeps its profile (re-saving it changes no column the model keeps), or
        gets one when it has none. */
    method ProfileHook(id: UserId, created: bool) returns (p: ProfileId)
      requires Valid() && id in users
      requires created ==> !HasProfile(id)
      modifies this`profiles, this`nextId
      ensures Valid()
      ensures p in profiles && profiles[p].user == id && ProfilesOf(id) == {p}
      ensures old(HasProfile(id)) ==> profiles == old(profiles) && nextId == old(nextId)
      ensures !old(HasProfile(id)) ==>
        p == old(nextId) && p !in old(profiles) && profiles == old(profiles)[p := Profile(id, "")]
      ensures forall v :: v != id ==> (HasProfile(v) <==> old(HasProfile(v)))
    {
      if created {
        p := nextId;
        AddProfileConsistent(users, profiles, categories, posts, likes, comments, nextId, id);
        profiles := profiles[p := Profile(id, "")];
        nextId := nextId + 1;
      } else if HasProfile(id) {
        p :| p in profiles && profiles[p].user == id;
      } else {
        p := nextId;
        AddProfileConsistent(users, profiles, categories, posts, likes, comments, nextId, id);
        profiles := profiles[p := Profile(id, "")];
        nextId := nextId + 1;
      }
      OneProfile(id, p);
      forall v | v != id ensures HasProfile(v) <==> old(HasProfile(v)) {
        if old(HasProfile(v)) {
          var q :| q in old(profiles) && old(profiles)[q].user == v;
          assert q in profiles && profiles[q] == old(profiles)[q];
        }
      }
    }

    /** `user.save()` (an update when `key` is a stored user, an insert under
        `key`, or under a fresh key when there is none) followed by the profile
        hook. An e-mail or name longer than its column is refused first; then
        an e-mail already used by another user violates the unique
        constraint. A refused save changes nothing. */
    method SaveUser(key: Option<UserId>, u: User) returns (r: Result<UserId, AccountError>)
      requires Valid()
      modifies this`users, this`profiles, this`nextId
      ensures Valid()
      ensures old(ProfilesComplete()) ==> ProfilesComplete()
      ensures r == Err(FieldTooLong) <==> !UserFits(u)
      ensures r == Err(EmailTaken) <==>
        UserFits(u) && exists k :: k in old(users) && old(users)[k].email == u.email && Some(k) != key
      ensures r.Err? ==> r.error == FieldTooLong || r.error == EmailTaken
      ensures r.Err? ==> users == old(users) && profiles == old(profiles) && nextId == old(nextId)
      ensures r.Ok? ==> users == old(users)[r.value := u]
      ensures r.Ok? && key.Some? ==> r.value == key.value
      ensures r.Ok? && key.None? ==> r.value !in old(users)
      ensures r.Ok? ==> HasProfile(r.value) && |ProfilesOf(r.value)| == 1
      ensures r.Ok? && r.value in old(users) && old(HasProfile(r.value)) ==> profiles == old(profiles)
      ensures r.Ok? && !(r.value in old(users) && old(HasProfile(r.value))) ==>
        exists p: ProfileId :: p !in old(profiles) && profiles == old(profiles)[p := Profile(r.value, "")]
    {
      if !UserFits(u) {
        return Err(FieldTooLong);
      }
      if exists k :: k in users && users[k].email == u.email && Some(k) != key {
        return Err(EmailTaken);
      }
      var created := key.None? || key.value !in users;
      var id := if key.Some? then key.value else nextId;
      assert created ==> !HasProfile(id);
      PutUserConsistent(users, profiles, categories, posts, likes, comments, nextId, id, u);
      users := users[id := u];
      nextId := if nextId <= id then id + 1 else nextId;
      ghost var completeBefore := old(ProfilesComplete());
      var p := ProfileHook(id, created);
      r := Ok(id);
      if completeBefore {
        forall v | v in users ensures HasProfile(v) {
          if v != id {
            assert v in old(users);
          }
        }
      }
    }

    /** `UserManager.create_user`: an empty e-mail is refused before anything
        is saved; otherwise the user is built from the normalised e-mail, the
        names, the password and the extra flags, and saved as a new user,
        which fails when a value is too long for its column or the e-mail is
        taken. */
    method CreateUser(email: string, firstName: string, lastName: string, password: string,
                      extra: ExtraFields) returns (r: Result<UserId, AccountError>)
      requires Valid()
      modifies this`users, this`profiles, this`nextId
      ensures Valid()
      ensures old(ProfilesComplete()) ==> ProfilesComplete()
      ensures r.Err? ==> users == old(users) && profiles == old(profiles) && nextId == old(nextId)
      ensures r == Err(MissingEmail) <==> email == ""
      ensures r == Err(FieldTooLong) <==>
        email != "" && !FieldsFit(normalizeEmail(email), firstName, lastName)
      ensures r == Err(EmailTaken) <==>
        && email != "" && FieldsFit(normalizeEmail(email), firstName, lastName)
        && exists k :: k in old(users) && old(users)[k].email == normalizeEmail(email)
      ensures r.Err? ==> r.error == MissingEmail || r.error == FieldTooLong || r.error == EmailTaken
      ensures r.Ok? ==>
        && r.value !in old(users)
        && users == old(users)[r.value := NewUser(normalizeEmail(email), firstName, lastName, password, extra)]
      ensures r.Ok? ==>
        && |ProfilesOf(r.value)| == 1
        && exists p: ProfileId :: p !in old(profiles) && profiles == old(profiles)[p := Profile(r.value, "")]
    {
      if email == "" {
        return Err(MissingEmail);
      }
      var normalized := normalizeEmail(email);
      var user := NewUser(normalized, firstName, lastName, password, extra);
      r := SaveUser(None, user);
    }

    /** `UserManager.create_superuser`: the flag defaults and checks of
        `SuperuserFields`, then `create_user` with the normalised e-mail (which
        normalises it once more), then one more save of the new user, which
        changes nothing. */
    method CreateSuperuser(email: string, firstName: string, lastName: string, password: string,
                           extra: ExtraFields) returns (r: Result<UserId, AccountError>)
      requires Valid()
      modifies this`users, this`profiles, this`nextId
      ensures Valid()
      ensures old(ProfilesComplete()) ==> ProfilesComplete()
      ensures r.Err? ==> users == old(users) && profiles == old(profiles) && nextId == old(nextId)
      ensures SuperuserFields(extra).Err? ==> r == Err(SuperuserFields(extra).error)
      ensures SuperuserFields(extra).Ok? ==> (r == Err(MissingEmail) <==> normalizeEmail(email) == "")
      ensures SuperuserFields(extra).Ok? ==>
        (r == Err(FieldTooLong) <==>
           normalizeEmail(email) != "" && !FieldsFit(normalizeEmail(normalizeEmail(email)), firstName, lastName))
      ensures SuperuserFields(extra).Ok? ==>
        (r == Err(EmailTaken) <==>
           && normalizeEmail(email) != "" && FieldsFit(normalizeEmail(normalizeEmail(email)), firstName, lastName)
           && exists k :: k in old(users) && old(users)[k].email == normalizeEmail(normalizeEmail(email)))
      ensures r.Err? ==>
        r.error in {MissingEmail, StaffRequired, SuperuserRequired, FieldTooLong, EmailTaken}
      ensures r.Ok? ==>
        && r.value !in old(users)
        && users == old(users)[r.value := NewUser(normalizeEmail(normalizeEmail(email)), firstName, lastName,
                                                  password, SuperuserFields(extra).value)]
      ensures r.Ok? ==> users[r.value].isStaff && users[r.value].isSuperuser && |ProfilesOf(r.value)| == 1
      ensures r.Ok? ==>
        exists p: ProfileId :: p !in old(profiles) && profiles == old(profiles)[p := Profile(r.value, "")]
    {
      var fields := SuperuserFields(extra);
      if fields.Err? {
        return Err(fields.error);
      }
      var normalized := normalizeEmail(email);
      r := CreateUser(normalized, firstName, lastName, password, fields.value);
      if r.Ok? {
        var id := r.value;
        ghost var before := users;
        ghost var beforeProfiles := profiles;
        assert before[id := before[id]] == before;
        assert HasProfile(id) by {
          var p :| p in ProfilesOf(id);
        }
        var saved := SaveUser(Some(id), users[id]);
        assert saved.Ok?;
        assert users == before;
        assert profiles == beforeProfiles;
      }
    }

    // -------------------------------------------------------------------------
    // Posts

    /** `Post.objects.create(...)`: the pre-save hook fills an empty slug, then
        the row is checked against the title and slug columns, the unique slug
        and the two foreign keys, in that order, and appended under a fresh key. */
    method InsertPost(inst: PostInstance) returns (r: Result<PostId, DbError>)
      requires Valid()
      modifies this`posts, this`nextId, inst`slug
      ensures Valid()
      ensures inst.slug == Signals.PreSaveSlug(old(inst.slug), old(inst.title), slugify)
      ensures r.Err? ==> posts == old(posts) && nextId == old(nextId)
      ensures r.Err? ==> r.error == ValueTooLong || r.error == UniqueViolation || r.error == ForeignKeyViolation
      ensures r == Err(ValueTooLong) <==> |inst.title| > TitleMaxLength || |inst.slug| > SlugMaxLength
      ensures r == Err(UniqueViolation) <==>
        && |inst.title| <= TitleMaxLength && |inst.slug| <= SlugMaxLength
        && exists p :: p in old(posts) && p.slug == inst.slug
      ensures r == Err(ForeignKeyViolation) <==>
        && |inst.title| <= TitleMaxLength && |inst.slug| <= SlugMaxLength
        && (forall p :: p in old(posts) ==> p.slug != inst.slug)
        && (inst.author !in users || (inst.category.Some? && inst.category.value !in categories))
      ensures r.Ok? ==> r.value == old(nextId) && r.value !in old(PostIds(posts))
      ensures r.Ok? ==> posts == old(posts) + [inst.Row(r.value)]
    {
      Signals.StorePreSave(inst, slugify);
      if |inst.title| > TitleMaxLength || |inst.slug| > SlugMaxLength {
        return Err(ValueTooLong);
      }
      if exists p :: p in posts && p.slug == inst.slug {
        return Err(UniqueViolation);
      }
      if inst.author !in users || (inst.category.Some? && inst.category.value !in categories) {
        return Err(ForeignKeyViolation);
      }
      var id := nextId;
      var row := inst.Row(id);
      AppendPostConsistent(users, profiles, categories, posts, likes, comments, nextId, row);
      posts := posts + [row];
      nextId := nextId + 1;
      r := Ok(id);
    }

    /** A partial update of post `id`: the new title and slug must fit their
        columns, the new slug must be unused by any other post and a new
        category must exist; no other column changes and no other post. */
    method UpdatePost(id: PostId, patch: PostPatch) returns (r: Result<(), DbError>)
      requires Valid()
      modifies this`posts
      ensures Valid()
      ensures r == Err(ValueTooLong) <==> !PatchFits(patch)
      ensures r == Err(UniqueViolation) <==> PatchFits(patch) && SlugTakenByOther(old(posts), id, patch)
      ensures r == Err(ForeignKeyViolation) <==>
        && PatchFits(patch) && !SlugTakenByOther(old(posts), id, patch)
        && patch.category.Some? && patch.category.value !in categories
      ensures r.Err? ==> r.error == ValueTooLong || r.error == UniqueViolation || r.error == ForeignKeyViolation
      ensures r.Err? ==> posts == old(posts)
      ensures r.Ok? ==> posts == PatchWhere(old(posts), id, patch)
    {
      if !PatchFits(patch) {
        return Err(ValueTooLong);
      }
      if SlugTakenByOther(posts, id, patch) {
        return Err(UniqueViolation);
      }
      if patch.category.Some? && patch.category.value !in categories {
        return Err(ForeignKeyViolation);
      }
      PatchKeepsPosts(posts, id, patch, users.Keys, categories.Keys);
      posts := PatchWhere(posts, id, patch);
      r := Ok(());
    }

    /** Deleting post `id`: its likes and comments go with it
        (`on_delete=CASCADE`); favourites are not touched. */
    method DeletePost(id: PostId)
      requires Valid()
      modifies this`posts, this`likes, this`comments
      ensures Valid()
      ensures posts == PostsWithout(old(posts), id)
      ensures likes == LikesOfOtherPosts(old(likes), id)
      ensures comments == CommentsOfOtherPosts(old(comments), id)
    {
      PostIdsWithout(posts, id);
      WhereKeepsUnique(posts, (p: Post) => p.id != id, SlugOf);
      WhereKeepsUnique(posts, (p: Post) => p.id != id, IdOf);
      ghost var keys := PostIds(posts) - {id};
      posts := PostsWithout(posts, id);
      likes := LikesOfOtherPosts(likes, id);
      comments := CommentsOfOtherPosts(comments, id);
      assert PostIds(posts) == keys;
    }

    // -------------------------------------------------------------------------
    // Likes and favourites

    /** `Like.objects.create(...)`: a second like of the same pair violates
        `unique_together`; a like of an unknown user or post violates a
        foreign key. */
    method InsertLike(user: UserId, post: PostId, now: Moment) returns (r: Result<(), DbError>)
      requires Valid()
      modifies this`likes
      ensures Valid()
      ensures r == Err(UniqueViolation) <==> HasLike(old(likes), user, post)
      ensures r == Err(ForeignKeyViolation) <==>
        !HasLike(old(likes), user, post) && (user !in users || post !in PostIds(posts))
      ensures r.Err? ==> r.error == UniqueViolation || r.error == ForeignKeyViolation
      ensures r.Err? ==> likes == old(likes)
      ensures r.Ok? ==> likes == old(likes) + {Like(user, post, now)}
    {
      if HasLike(likes, user, post) {
        return Err(UniqueViolation);
      }
      if user !in users || post !in PostIds(posts) {
        return Err(ForeignKeyViolation);
      }
      ToggleLikeOutcome(likes, user, post, now);
      likes := likes + {Like(user, post, now)};
      r := Ok(());
    }

    /** `Like.objects.filter(like_post=post, like_user=user).delete()`. */
    method DeleteLikes(user: UserId, post: PostId)
      requires Valid()
      modifies this`likes
      ensures Valid()
      ensures likes == Blog.DeleteLikes(old(likes), user, post)
    {
      likes := Blog.DeleteLikes(likes, user, post);
    }

    /** `FavoritePost.objects.create(post=post, user=profile)`. */
    method InsertFavorite(profile: ProfileId, post: PostId)
      requires Valid()
      modifies this`favorites
      ensures Valid()
      ensures favorites == old(favorites) + {FavoritePost(profile, post)}
    {
      favorites := favorites + {FavoritePost(profile, post)};
    }

    /** `FavoritePost.objects.filter(post=post, user=profile).delete()`. */
    method DeleteFavorite(profile: ProfileId, post: PostId)
      requires Valid()
      modifies this`favorites
      ensures Valid()
      ensures favorites == old(favorites) - {FavoritePost(profile, post)}
    {
      favorites := favorites - {FavoritePost(profile, post)};
    }

    // -------------------------------------------------------------------------
    // Categories

    /** Inserting a category: the name must fit its column and be unused. */
    method InsertCategory(name: string) returns (r: Result<CategoryId, DbError>)
      requires Valid()
      modifies this`categories, this`nextId
      ensures Valid()
      ensures r == Err(ValueTooLong) <==> |name| > CategoryNameMaxLength
      ensures r == Err(UniqueViolation) <==>
        |name| <= CategoryNameMaxLength && exists c :: c in old(categories) && old(categories)[c].name == name
      ensures r.Err? ==> r.error == ValueTooLong || r.error == UniqueViolation
      ensures r.Err? ==> categories == old(categories) && nextId == old(nextId)
      ensures r.Ok? ==> r.value == old(nextId) && r.value !in old(categories)
      ensures r.Ok? ==> categories == old(categories)[r.value := Category(name)]
    {
      if |name| > CategoryNameMaxLength {
        return Err(ValueTooLong);
      }
      if exists c :: c in categories && categories[c].name == name {
        return Err(UniqueViolation);
      }
      var id := nextId;
      MoreKeys(posts, likes, comments, users.Keys, users.Keys, categories.Keys, categories.Keys + {id},
               PostIds(posts), PostIds(posts));
      HigherBound(users.Keys, nextId, nextId + 1);
      HigherBound(profiles.Keys, nextId, nextId + 1);
      HigherBound(PostIds(posts), nextId, nextId + 1);
      HigherBound(comments.Keys, nextId, nextId + 1);
      categories := categories[id := Category(name)];
      nextId := nextId + 1;
      r := Ok(id);
    }

    /** Deleting category `c`: its posts stay, with no category
        (`on_delete=SET_NULL`). */
    method DeleteCategory(c: CategoryId)
      requires Valid()
      modifies this`categories, this`posts
      ensures Valid()
      ensures categories == old(categories) - {c}
      ensures posts == DetachAll(old(posts), c)
    {
      var detached := DetachAll(posts, c);
      ghost var remaining := categories.Keys - {c};
      forall i | 0 <= i < |detached| && detached[i].category.Some?
        ensures detached[i].category.value in remaining
      {
        assert posts[i] in posts;
        assert detached[i] == DetachCategory(posts[i], c);
      }
      forall i | 0 <= i < |detached|
        ensures |detached[i].title| <= TitleMaxLength
      {
        assert posts[i] in posts;
      }
      SameKeys(posts, detached, users.Keys, categories.Keys, remaining);
      posts := detached;
      categories := categories - {c};
      assert categories.Keys == remaining;
    }
  }
}
