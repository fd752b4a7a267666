/** The read-only queries of src/blog/selectors.py, and the ORM's `.get()`
    that they and the views rely on. */
module Selectors {
  import opened Common
  import opened Blog
  import opened Filters

  datatype LookupError = DoesNotExist | MultipleObjectsReturned

  /** Post slugs are unique (`Post.slug` is declared `unique=True`). */
  predicate SlugsUnique(posts: seq<Post>)
  {
    UniqueBy(posts, SlugOf)
  }

  /** `queryset.get(...)`: the one row that satisfies `p`, or an error when there
      is none or more than one. */
  function Get(posts: seq<Post>, p: Post -> bool): (r: Result<Post, LookupError>)
    ensures r.Ok? ==> r.value in posts && p(r.value)
    ensures r == Err(DoesNotExist) <==> forall x :: x in posts ==> !p(x)
  {
    var found := Where(posts, p);
    if |found| == 0 then Err(DoesNotExist)
    else if |found| == 1 then (assert found[0] in found; Ok(found[0]))
    else (assert found[0] in found; Err(MultipleObjectsReturned))
  }

  /** When no two rows satisfy `p`, `get` never reports several rows. */
  lemma {:induction false} GetAtMostOne(posts: seq<Post>, p: Post -> bool)
    requires forall i, j :: 0 <= i < |posts| && 0 <= j < |posts| && p(posts[i]) && p(posts[j]) ==> i == j
    ensures |Where(posts, p)| <= 1
    ensures Get(posts, p) != Err(MultipleObjectsReturned)
    decreases |posts|
  {
    if posts != [] {
      var tail := posts[1..];
      forall i, j | 0 <= i < |tail| && 0 <= j < |tail| && p(tail[i]) && p(tail[j])
        ensures i == j
      {
        assert posts[i + 1] == tail[i] && posts[j + 1] == tail[j];
      }
      GetAtMostOne(tail, p);
      if p(posts[0]) {
        forall x | x in tail ensures !p(x) {
          var k :| 0 <= k < |tail| && tail[k] == x;
          assert posts[k + 1] == x;
        }
        assert Where(tail, p) == [];
      }
    }
  }

  /** `.get(slug=slug)` over every post (`Post.objects.get(slug=...)`). */
  function GetBySlug(posts: seq<Post>, slug: string): Result<Post, LookupError>
  {
    Get(posts, (x: Post) => x.slug == slug)
  }

  /** `get_post(slug)`: the published post with that slug. */
  function GetPost(posts: seq<Post>, slug: string): Result<Post, LookupError>
  {
    Get(posts, (x: Post) => x.status && x.slug == slug)
  }

  /** With unique slugs, `get_post(slug)` returns a post exactly when a published
      post has that slug, and then it is that post; otherwise it raises
      `DoesNotExist` (also for an unpublished post with that slug). */
  lemma GetPostSpec(posts: seq<Post>, slug: string)
    requires SlugsUnique(posts)
    ensures var r := GetPost(posts, slug);
      && (r.Ok? <==> exists x :: x in posts && x.status && x.slug == slug)
      && (r.Ok? ==> r.value in posts && r.value.status && r.value.slug == slug)
      && (r.Err? ==> r.error == DoesNotExist)
    ensures forall x :: x in posts && x.slug == slug && !x.status ==> GetPost(posts, slug) == Err(DoesNotExist)
  {
    GetAtMostOne(posts, (x: Post) => x.status && x.slug == slug);
    forall x | x in posts && x.slug == slug && !x.status
      ensures GetPost(posts, slug) == Err(DoesNotExist)
    {
      var i :| 0 <= i < |posts| && posts[i] == x;
      forall y | y in posts ensures !(y.status && y.slug == slug) {
        var j :| 0 <= j < |posts| && posts[j] == y;
        if y.slug == slug { assert i == j; }
      }
    }
  }

  /** With unique slugs, `Post.objects.get(slug=...)` finds the post with that slug
      whatever its status. */
  lemma GetBySlugSpec(posts: seq<Post>, slug: string)
    requires SlugsUnique(posts)
    ensures var r := GetBySlug(posts, slug);
      && (r.Ok? <==> exists x :: x in posts && x.slug == slug)
      && (r.Ok? ==> r.value in posts && r.value.slug == slug)
      && (r.Err? ==> r.error == DoesNotExist)
  {
    GetAtMostOne(posts, (x: Post) => x.slug == slug);
  }

  /** `get_slug()`: the slug of the first post, or nothing when there is no post. */
  function GetSlug(posts: seq<Post>): (r: Option<string>)
    ensures r.None? <==> posts == []
    ensures r.Some? ==> r.value == posts[0].slug
  {
    if posts == [] then None else Some(posts[0].slug)
  }

  /** The published rows, in their order (`filter(status=True)`). */
  function Published(rows: seq<PostRow>): (r: seq<PostRow>)
    ensures forall x :: x in r <==> x in rows && x.post.status
  {
    Where(rows, (x: PostRow) => x.post.status)
  }

  /** `get_posts(filters)`: the published rows, narrowed by the filter set; no
      filters at all means an empty filter set. */
  function GetPosts(rows: seq<PostRow>, filters: Option<FilterParams>, today: Date,
                    parse: string -> Option<Date>, matches: (string, string) -> bool)
    : (r: Result<seq<PostRow>, FilterError>)
    ensures r.Ok? ==> forall x :: x in r.value ==> x in rows && x.post.status
    ensures r.Ok? ==> IsSubsequence(r.value, rows)
    ensures filters.None? ==> r == Ok(Published(rows))
    ensures filters.Some? ==> (r.Err? <==> ParamsError(filters.value, today, parse).Some?)
    ensures filters.Some? && r.Err? ==> r.error == ParamsError(filters.value, today, parse).value
    ensures filters.Some? && r.Ok? ==>
      forall x :: x in r.value <==> x in rows && x.post.status && Keeps(filters.value, today, parse, matches, x)
  {
    var params := if filters.Some? then filters.value else NoFilters;
    var r := ApplyPostFilter(Published(rows), params, today, parse, matches);
    WhereIsSubsequence(rows, (x: PostRow) => x.post.status);
    if r.Ok? then SubsequenceTransitive(r.value, Published(rows), rows); r else r
  }

  /** With no filters, every published post is listed, in order, and only those;
      when all posts are published that is the whole table. */
  lemma GetPostsWithoutFilters(rows: seq<PostRow>, today: Date, parse: string -> Option<Date>,
                                 matches: (string, string) -> bool)
    ensures GetPosts(rows, None, today, parse, matches).Ok?
    ensures forall x :: x in GetPosts(rows, None, today, parse, matches).value <==> x in rows && x.post.status
    ensures (forall i :: 0 <= i < |rows| ==> rows[i].post.status) ==>
      GetPosts(rows, None, today, parse, matches) == Ok(rows)
  {
    if forall i :: 0 <= i < |rows| ==> rows[i].post.status {
      WhereAll(rows, (x: PostRow) => x.post.status);
    }
  }

  /** An empty filter set is the same as no filters. */
  lemma EmptyFiltersAreNoFilters(rows: seq<PostRow>, today: Date, parse: string -> Option<Date>,
                                 matches: (string, string) -> bool)
    ensures GetPosts(rows, Some(NoFilters), today, parse, matches) == GetPosts(rows, None, today, parse, matches)
  {
  }
}
