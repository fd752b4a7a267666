/** The blog records of src/blog/models.py, the column limits and defaults,
    `Category.clean`, and the table updates behind the like and favourite
    toggles and the two on-delete rules (cascade and set-null), stated as
    functions on table values that the database methods follow. */
module Blog {
  import opened Common
  import Text

  /** `Category.name`: at most this many characters. */
  const CategoryNameMaxLength: nat := 20
  /** `Post.title`: at most this many characters. */
  const TitleMaxLength: nat := 200
  /** `Post.slug` (a `SlugField` of the default length): at most this many characters. */
  const SlugMaxLength: nat := 50
  /** `Post.status` of a post created without one: unpublished. */
  const DefaultStatus: bool := false

  datatype Category = Category(name: string)

  /** A post row; the image, update and publication times are not kept. */
  datatype Post = Post(
    id: PostId,
    author: UserId,
    category: Option<CategoryId>,
    title: string,
    slug: string,
    content: string,
    status: bool,
    createdAt: Moment)

  /** The title and slug of a post fit their columns. */
  predicate Fits(p: Post)
  {
    |p.title| <= TitleMaxLength && |p.slug| <= SlugMaxLength
  }

  /** The unique columns of a post. */
  function SlugOf(p: Post): string { p.slug }
  function IdOf(p: Post): PostId { p.id }

  datatype Like = Like(likeUser: UserId, likePost: PostId, createdAt: Moment)

  datatype Comment = Comment(commentUser: UserId, commentPost: PostId, comment: string, createdAt: Moment)

  /** A favourite: a profile and a post. */
  datatype FavoritePost = FavoritePost(user: ProfileId, post: PostId)

  /** A category as an unsaved model instance, whose `clean` rewrites its name. */
  class CategoryInstance {
    var name: string

    constructor (name: string)
      ensures this.name == name
    {
      this.name := name;
    }

    /** `Category.clean`: the name becomes its capitalised form. */
    method Clean()
      modifies this`name
      ensures name == Text.Capitalize(old(name))
      ensures |name| == |old(name)|
    {
      name := Text.Capitalize(name);
    }
  }

  /** Cleaning twice leaves the name as cleaning once does. */
  method CleanTwice(c: CategoryInstance)
    modifies c
    ensures c.name == Text.Capitalize(old(c.name))
  {
    c.Clean();
    ghost var once := c.name;
    c.Clean();
    Text.CapitalizeIdempotent(old(c.name));
    assert c.name == once;
  }

  /** A post as an unsaved model instance: the object the pre-save hook edits. */
  class PostInstance {
    var author: UserId
    var category: Option<CategoryId>
    var title: string
    var slug: string
    var content: string
    var status: bool
    var createdAt: Moment

    /** An instance built with the given fields; `status` falls back to the
        column default when it is not given. */
    constructor (author: UserId, category: Option<CategoryId>, title: string, slug: string,
                 content: string, status: Option<bool>, createdAt: Moment)
      ensures this.author == author && this.category == category && this.title == title
      ensures this.slug == slug && this.content == content && this.createdAt == createdAt
      ensures this.status == (if status.Some? then status.value else DefaultStatus)
    {
      this.author := author;
      this.category := category;
      this.title := title;
      this.slug := slug;
      this.content := content;
      this.status := if status.Some? then status.value else DefaultStatus;
      this.createdAt := createdAt;
    }

    /** The row that saving this instance under key `id` writes. */
    function Row(id: PostId): (p: Post)
      reads this
      ensures p.id == id && p.slug == slug && p.title == title && p.status == status
    {
      Post(id, author, category, title, slug, content, status, createdAt)
    }
  }

  /** A new post created without a status is unpublished. */
  method NewPostIsUnpublished(author: UserId, title: string, content: string, now: Moment)
    returns (inst: PostInstance)
    ensures fresh(inst) && !inst.status
  {
    inst := new PostInstance(author, None, title, "", content, None, now);
  }

  // ---------------------------------------------------------------------------
  // Like rows

  predicate IsPair(l: Like, user: UserId, post: PostId)
  {
    l.likeUser == user && l.likePost == post
  }

  /** `Like.objects.filter(like_post=post, like_user=user).exists()`. */
  predicate HasLike(likes: set<Like>, user: UserId, post: PostId)
  {
    exists l :: l in likes && IsPair(l, user, post)
  }

  /** `Like.Meta.unique_together`: no two rows share a (user, post) pair. */
  ghost predicate UniqueTogether(likes: set<Like>)
  {
    forall a, b :: a in likes && b in likes && a.likeUser == b.likeUser && a.likePost == b.likePost ==> a == b
  }

  /** The (user, post) pairs of a like table. */
  function LikePairs(likes: set<Like>): set<(UserId, PostId)>
  {
    set l | l in likes :: (l.likeUser, l.likePost)
  }

  /** The rows of `likes` for the pair (user, post). */
  function RowsOf(likes: set<Like>, user: UserId, post: PostId): set<Like>
  {
    set l | l in likes && IsPair(l, user, post)
  }

  /** `Like.objects.filter(like_post=post, like_user=user).delete()`. */
  function DeleteLikes(likes: set<Like>, user: UserId, post: PostId): set<Like>
  {
    set l | l in likes && !IsPair(l, user, post)
  }

  /** The like table after the toggle of `LikeViewSet.create`: the pair's row
      is deleted when there is one, and a row created at `now` otherwise. */
  function ToggleLike(likes: set<Like>, user: UserId, post: PostId, now: Moment): set<Like>
  {
    if HasLike(likes, user, post) then DeleteLikes(likes, user, post)
    else likes + {Like(user, post, now)}
  }

  /** Under the uniqueness rule a pair has at most one row. */
  lemma AtMostOneLikePerPair(likes: set<Like>, user: UserId, post: PostId)
    requires UniqueTogether(likes)
    ensures |RowsOf(likes, user, post)| <= 1
  {
    var rows := RowsOf(likes, user, post);
    if rows != {} {
      var l :| l in rows;
      assert rows == {l};
    }
  }

  /** After a toggle the pair has no row if it had one, and exactly the row
      created at `now` if it had none; the uniqueness rule is kept. */
  lemma ToggleLikeOutcome(likes: set<Like>, user: UserId, post: PostId, now: Moment)
    requires UniqueTogether(likes)
    ensures UniqueTogether(ToggleLike(likes, user, post, now))
    ensures HasLike(likes, user, post) ==> RowsOf(ToggleLike(likes, user, post, now), user, post) == {}
    ensures !HasLike(likes, user, post) ==>
      RowsOf(ToggleLike(likes, user, post, now), user, post) == {Like(user, post, now)}
  {
    var t := ToggleLike(likes, user, post, now);
    if !HasLike(likes, user, post) {
      forall a, b | a in t && b in t && a.likeUser == b.likeUser && a.likePost == b.likePost
        ensures a == b
      {
        if a !in likes || b !in likes {
          assert a == Like(user, post, now) || b == Like(user, post, now);
          assert IsPair(a, user, post) && IsPair(b, user, post);
          assert a == b;
        }
      }
    }
  }

  /** A toggle changes no row of another pair. */
  lemma ToggleLikeFrame(likes: set<Like>, user: UserId, post: PostId, now: Moment, l: Like)
    requires !IsPair(l, user, post)
    ensures l in ToggleLike(likes, user, post, now) <==> l in likes
  {
  }

  /** Two toggles of the same pair give back the same pairs, and the very same
      table when the pair had no like to begin with. */
  lemma ToggleLikeTwice(likes: set<Like>, user: UserId, post: PostId, t1: Moment, t2: Moment)
    ensures LikePairs(ToggleLike(ToggleLike(likes, user, post, t1), user, post, t2)) == LikePairs(likes)
    ensures !HasLike(likes, user, post) ==>
      ToggleLike(ToggleLike(likes, user, post, t1), user, post, t2) == likes
  {
    var once := ToggleLike(likes, user, post, t1);
    var twice := ToggleLike(once, user, post, t2);
    if HasLike(likes, user, post) {
      assert !HasLike(once, user, post);
      assert twice == once + {Like(user, post, t2)};
      var w :| w in likes && IsPair(w, user, post);
      assert (user, post) == (w.likeUser, w.likePost);
      forall q | q in LikePairs(likes) ensures q in LikePairs(twice) {
        var l :| l in likes && q == (l.likeUser, l.likePost);
        if !IsPair(l, user, post) {
          assert l in twice;
        } else {
          assert Like(user, post, t2) in twice;
        }
      }
    } else {
      assert HasLike(once, user, post) by {
        assert Like(user, post, t1) in once;
      }
      assert twice == likes;
    }
  }

  // ---------------------------------------------------------------------------
  // Favourite rows

  /** The favourite table after the toggle of `FavoritePostViewSet.create`. */
  function ToggleFavorite(favorites: set<FavoritePost>, user: ProfileId, post: PostId): set<FavoritePost>
  {
    var f := FavoritePost(user, post);
    if f in favorites then favorites - {f} else favorites + {f}
  }

  /** A favourite toggle flips the one pair, changes nothing else, and two
      toggles give back the table. */
  lemma ToggleFavoriteProperties(favorites: set<FavoritePost>, user: ProfileId, post: PostId, g: FavoritePost)
    ensures FavoritePost(user, post) in ToggleFavorite(favorites, user, post) <==>
            FavoritePost(user, post) !in favorites
    ensures g != FavoritePost(user, post) ==>
      (g in ToggleFavorite(favorites, user, post) <==> g in favorites)
    ensures ToggleFavorite(ToggleFavorite(favorites, user, post), user, post) == favorites
  {
  }

  // ---------------------------------------------------------------------------
  // On-delete rules

  function PostIds(posts: seq<Post>): set<PostId>
  {
    set p | p in posts :: p.id
  }

  /** `Post.category`'s `on_delete=SET_NULL` for one post. */
  function DetachCategory(p: Post, c: CategoryId): Post
  {
    if p.category == Some(c) then p.(category := None) else p
  }

  /** Deleting category `c`: every post that pointed at it now has no category. */
  function DetachAll(posts: seq<Post>, c: CategoryId): (r: seq<Post>)
    ensures |r| == |posts|
    ensures forall i :: 0 <= i < |posts| ==> r[i] == DetachCategory(posts[i], c)
    decreases |posts|
  {
    if posts == [] then [] else [DetachCategory(posts[0], c)] + DetachAll(posts[1..], c)
  }

  /** Set-null deletes no post and changes no column but `category`, and no post
      keeps the deleted category. */
  lemma DetachAllProperties(posts: seq<Post>, c: CategoryId)
    ensures PostIds(DetachAll(posts, c)) == PostIds(posts)
    ensures forall i :: 0 <= i < |posts| ==>
      DetachAll(posts, c)[i] == posts[i].(category := DetachAll(posts, c)[i].category)
    ensures forall p :: p in DetachAll(posts, c) ==> p.category != Some(c)
  {
    var r := DetachAll(posts, c);
    forall x | x in PostIds(posts) ensures x in PostIds(r) {
      var i :| 0 <= i < |posts| && posts[i].id == x;
      assert r[i].id == x;
    }
    forall x | x in PostIds(r) ensures x in PostIds(posts) {
      var i :| 0 <= i < |r| && r[i].id == x;
      assert posts[i].id == x;
    }
  }

  /** Cascade for `Like.like_post`: the likes of the deleted post go with it. */
  function LikesOfOtherPosts(likes: set<Like>, post: PostId): set<Like>
  {
    set l | l in likes && l.likePost != post
  }

  /** Cascade for `Comment.comment_post`: the comments of the deleted post go with it. */
  function CommentsOfOtherPosts(comments: map<CommentId, Comment>, post: PostId): map<CommentId, Comment>
  {
    map k | k in comments && comments[k].commentPost != post :: comments[k]
  }

  /** The posts other than `id`, in their order. */
  function PostsWithout(posts: seq<Post>, id: PostId): (r: seq<Post>)
  {
    Where(posts, (p: Post) => p.id != id)
  }

  /** Deleting a post removes exactly the rows with its key and keeps the
      order of the others. */
  lemma CascadeProperties(posts: seq<Post>, id: PostId)
    ensures forall p :: p in PostsWithout(posts, id) <==> p in posts && p.id != id
    ensures IsSubsequence(PostsWithout(posts, id), posts)
  {
    WhereIsSubsequence(posts, (p: Post) => p.id != id);
  }

  /** Deleting a post that is gone already changes nothing more. */
  lemma CascadeTwice(posts: seq<Post>, likes: set<Like>, comments: map<CommentId, Comment>, id: PostId)
    ensures PostsWithout(PostsWithout(posts, id), id) == PostsWithout(posts, id)
    ensures LikesOfOtherPosts(LikesOfOtherPosts(likes, id), id) == LikesOfOtherPosts(likes, id)
    ensures CommentsOfOtherPosts(CommentsOfOtherPosts(comments, id), id) == CommentsOfOtherPosts(comments, id)
  {
    var other := (p: Post) => p.id != id;
    WhereWhere(posts, other, other, other);
  }

  /** With unique keys, deleting a stored post removes exactly one row. */
  lemma {:induction false} DeleteRemovesOne(posts: seq<Post>, id: PostId)
    requires UniqueBy(posts, IdOf)
    requires exists p :: p in posts && p.id == id
    ensures |PostsWithout(posts, id)| == |posts| - 1
    decreases |posts|
  {
    var tail := posts[1..];
    assert forall i :: 0 <= i < |tail| ==> tail[i] == posts[i + 1];
    assert UniqueBy(tail, IdOf);
    if posts[0].id == id {
      assert forall i :: 0 <= i < |tail| ==> tail[i].id != id;
      WhereAll(tail, (p: Post) => p.id != id);
    } else {
      var q :| q in posts && q.id == id;
      assert q in tail;
      DeleteRemovesOne(tail, id);
    }
  }
}
