/** The post-list filters of src/blog/api/v1/filters.py (`PostFilter`), over a
    sequence of post rows joined with their author and category, as
    `select_related("author", "category")` loads them. Date parsing and the
    full-text match behind `search` are parameters. */
module Filters {
  import opened Common
  import opened Text
  import Blog

  /** A post with the columns of its author and category that the filters read. */
  datatype PostRow = PostRow(post: Blog.Post, authorEmail: string, categoryName: Option<string>)

  /** At most this many comma-separated author e-mails. */
  const AuthorLimit: nat := 10
  /** At most this many comma-separated dates. */
  const DateLimit: nat := 2

  datatype FilterError =
    | TooManyAuthors(shown: nat)  // "You cannot add more than <shown> usernames"
    | TooManyDates                // "Please just add two created_at with , in the middle"
    | NotEnoughDates(got: nat)    // the two-way unpacking of the pieces fails
    | InvalidDate(text: string)   // a piece that is not a date

  // ---------------------------------------------------------------------------
  // category__name

  /** `category__name__icontains=value`: the post has a category whose name
      contains `value`, ignoring case. */
  predicate CategoryMatches(row: PostRow, value: string)
  {
    row.categoryName.Some? && ContainsIgnoreCase(row.categoryName.value, value)
  }

  /** `filter_category__name`. */
  function FilterCategoryName(rows: seq<PostRow>, value: string): (r: seq<PostRow>)
    ensures forall x :: x in r <==> x in rows && CategoryMatches(x, value)
    ensures IsSubsequence(r, rows)
  {
    WhereIsSubsequence(rows, (x: PostRow) => CategoryMatches(x, value));
    Where(rows, (x: PostRow) => CategoryMatches(x, value))
  }

  /** A row passes the category filter exactly when the upper-cased value starts
      at some offset of the upper-cased category name; posts without a category
      never pass. */
  lemma CategoryMatchesIff(row: PostRow, value: string)
    ensures CategoryMatches(row, value) <==>
      row.categoryName.Some? && exists i: nat :: MatchAt(Upper(value), Upper(row.categoryName.value), i)
  {
    if row.categoryName.Some? {
      var name := row.categoryName.value;
      OccursIff(Upper(value), Upper(name));
      assert CategoryMatches(row, value) == Occurs(Upper(value), Upper(name));
    }
  }

  // ---------------------------------------------------------------------------
  // author__in

  /** `filter_author__in` as written: the error message reports how many names
      were given, not the limit. */
  function FilterAuthorInAsWritten(rows: seq<PostRow>, value: string): (r: Result<seq<PostRow>, FilterError>)
    ensures r.Err? <==> |Split(value, ',')| > AuthorLimit
    ensures r.Err? ==> r.error == TooManyAuthors(|Split(value, ',')|)
  {
    var authors := Split(value, ',');
    if |authors| > AuthorLimit then Err(TooManyAuthors(|authors|))
    else Ok(Where(rows, (x: PostRow) => x.authorEmail in authors))
  }

  /** The message of a rejection as written says more than `shown` names are not
      allowed, yet the rejected input has exactly `shown` names: the message never
      describes why the input was rejected. Eleven names are one such input. */
  lemma AuthorLimitMessageAsWritten(rows: seq<PostRow>, value: string)
    ensures var r := FilterAuthorInAsWritten(rows, value);
      r.Err? ==> r.error.TooManyAuthors? && !(|Split(value, ',')| > r.error.shown)
    ensures var eleven := Join(seq(11, _ => "a@x.io"), ',');
      FilterAuthorInAsWritten(rows, eleven) == Err(TooManyAuthors(11))
  {
    var names := seq(11, _ => "a@x.io");
    forall i | 0 <= i < |names| ensures ',' !in names[i] {
      assert names[i] == "a@x.io";
    }
    SplitJoin(names, ',');
  }

  /** `filter_author__in` with the message the limit intends: more than ten
      names is an error reported with the limit itself; otherwise the rows kept
      are those whose author e-mail is one of the comma-separated names, in
      their original order. */
  function FilterAuthorIn(rows: seq<PostRow>, value: string): (r: Result<seq<PostRow>, FilterError>)
    ensures r.Err? <==> |Split(value, ',')| > AuthorLimit
    ensures r.Err? ==> r.error == TooManyAuthors(AuthorLimit)
    ensures r.Ok? ==> forall x :: x in r.value <==> x in rows && x.authorEmail in Split(value, ',')
    ensures r.Ok? ==> IsSubsequence(r.value, rows)
  {
    var authors := Split(value, ',');
    if |authors| > AuthorLimit then Err(TooManyAuthors(AuthorLimit))
    else
      WhereIsSubsequence(rows, (x: PostRow) => x.authorEmail in authors);
      Ok(Where(rows, (x: PostRow) => x.authorEmail in authors))
  }

  /** With the intended message, an input is rejected exactly when it has more
      names than the message allows. */
  lemma AuthorLimitMessage(rows: seq<PostRow>, value: string)
    ensures var r := FilterAuthorIn(rows, value);
      r.Err? <==> r == Err(TooManyAuthors(AuthorLimit)) && |Split(value, ',')| > AuthorLimit
  {
  }

  /** A single e-mail (no comma) selects exactly the posts of that author. */
  lemma SingleAuthor(rows: seq<PostRow>, email: string)
    requires ',' !in email
    ensures FilterAuthorIn(rows, email).Ok?
    ensures forall x :: x in FilterAuthorIn(rows, email).value <==> x in rows && x.authorEmail == email
  {
    SplitWithoutSeparator(email, ',');
  }

  // ---------------------------------------------------------------------------
  // created_at__range

  /** The upper bound: an empty second piece stands for the current date. */
  function UpperBound(text: string, today: Date, parse: string -> Option<Date>): Option<Date>
  {
    if text == "" then Some(today) else parse(text)
  }

  /** The date a post was created on (`created_at__date`). */
  function CreatedOn(x: PostRow): Date
  {
    x.post.createdAt.date
  }

  /** The dates a `created_at__range` value selects: those before an upper
      bound (an empty first piece) or those between two bounds, both
      included. */
  datatype Window = Before(upper: Date) | Between(lower: Date, upper: Date)

  predicate InWindow(d: Date, w: Window)
  {
    match w
    case Before(upper) => d < upper
    case Between(lower, upper) => lower <= d <= upper
  }

  /** The window a `created_at__range` value names, or the error reading it
      raises: more than two pieces, fewer than two, or a piece that is not a
      date, the first piece being read before the second. */
  function DateWindow(value: string, today: Date, parse: string -> Option<Date>): (r: Result<Window, FilterError>)
    ensures |Split(value, ',')| > DateLimit ==> r == Err(TooManyDates)
    ensures |Split(value, ',')| < 2 ==> r == Err(NotEnoughDates(|Split(value, ',')|))
    ensures r.Ok? ==> |Split(value, ',')| == 2
    ensures r.Err? && r.error.InvalidDate? ==> r.error.text in Split(value, ',')
  {
    var pieces := Split(value, ',');
    if |pieces| > DateLimit then Err(TooManyDates)
    else if |pieces| < 2 then Err(NotEnoughDates(|pieces|))
    else
      var upper := UpperBound(pieces[1], today, parse);
      if pieces[0] == "" then
        if upper.None? then Err(InvalidDate(pieces[1])) else Ok(Before(upper.value))
      else
        var lower := parse(pieces[0]);
        if lower.None? then Err(InvalidDate(pieces[0]))
        else if upper.None? then Err(InvalidDate(pieces[1]))
        else Ok(Between(lower.value, upper.value))
  }

  /** `filter_created_at__range`: the error of reading the value, whatever the
      rows; otherwise the rows created on a date of the window, in order. */
  function FilterCreatedAtRange(rows: seq<PostRow>, value: string, today: Date,
                                parse: string -> Option<Date>): (r: Result<seq<PostRow>, FilterError>)
    ensures r.Err? <==> DateWindow(value, today, parse).Err?
    ensures r.Err? ==> r.error == DateWindow(value, today, parse).error
    ensures r.Ok? ==> forall x :: x in r.value <==> x in rows && InWindow(CreatedOn(x), DateWindow(value, today, parse).value)
    ensures r.Ok? ==> IsSubsequence(r.value, rows)
  {
    match DateWindow(value, today, parse)
    case Err(e) => Err(e)
    case Ok(w) =>
      WhereIsSubsequence(rows, (x: PostRow) => InWindow(CreatedOn(x), w));
      Ok(Where(rows, (x: PostRow) => InWindow(CreatedOn(x), w)))
  }

  /** More than two pieces, or fewer than two, are errors, before any date is read. */
  lemma DateRangeNeedsTwoPieces(rows: seq<PostRow>, value: string, today: Date, parse: string -> Option<Date>)
    ensures Count(value, ',') > 1 ==> FilterCreatedAtRange(rows, value, today, parse) == Err(TooManyDates)
    ensures Count(value, ',') == 0 ==> FilterCreatedAtRange(rows, value, today, parse) == Err(NotEnoughDates(1))
  {
    SplitLength(value, ',');
  }

  /** With an empty first piece, the rows kept are those created strictly before
      the upper bound; an empty second piece makes that bound today. */
  lemma DateRangeOpenStart(rows: seq<PostRow>, value: string, today: Date, parse: string -> Option<Date>)
    requires |Split(value, ',')| == 2 && Split(value, ',')[0] == ""
    ensures var upper := UpperBound(Split(value, ',')[1], today, parse);
      var r := FilterCreatedAtRange(rows, value, today, parse);
      (r.Ok? <==> upper.Some?) &&
      (r.Ok? ==> forall x :: x in r.value <==> x in rows && CreatedOn(x) < upper.value)
    ensures Split(value, ',')[1] == "" ==>
      var r := FilterCreatedAtRange(rows, value, today, parse);
      r.Ok? && forall x :: x in r.value <==> x in rows && CreatedOn(x) < today
  {
  }

  /** With a first piece, the rows kept are those created within the two bounds,
      both included; the first piece is read before the second. */
  lemma DateRangeClosed(rows: seq<PostRow>, value: string, today: Date, parse: string -> Option<Date>)
    requires |Split(value, ',')| == 2 && Split(value, ',')[0] != ""
    ensures var pieces := Split(value, ',');
      var lower := parse(pieces[0]);
      var upper := UpperBound(pieces[1], today, parse);
      var r := FilterCreatedAtRange(rows, value, today, parse);
      (lower.None? ==> r == Err(InvalidDate(pieces[0]))) &&
      (lower.Some? && upper.None? ==> r == Err(InvalidDate(pieces[1]))) &&
      (lower.Some? && upper.Some? ==>
        r.Ok? && forall x :: x in r.value <==> x in rows && lower.value <= CreatedOn(x) <= upper.value)
  {
  }

  // ---------------------------------------------------------------------------
  // search

  /** `filter_search`: the rows whose title matches the query under the
      `simple` text-search configuration; `matches(title, query)` is that
      database match. */
  function FilterSearch(rows: seq<PostRow>, value: string, matches: (string, string) -> bool): (r: seq<PostRow>)
    ensures forall x :: x in r <==> x in rows && matches(x.post.title, value)
    ensures IsSubsequence(r, rows)
  {
    WhereIsSubsequence(rows, (x: PostRow) => matches(x.post.title, value));
    Where(rows, (x: PostRow) => matches(x.post.title, value))
  }

  // ---------------------------------------------------------------------------
  // The filter set

  /** The query parameters the filter set reads. */
  datatype FilterParams = FilterParams(
    search: Option<string>,
    categoryName: Option<string>,
    authorIn: Option<string>,
    createdAtRange: Option<string>)

  const NoFilters := FilterParams(None, None, None, None)

  /** A parameter is applied only when it is present and not empty. */
  predicate Given(v: Option<string>)
  {
    v.Some? && v.value != ""
  }

  /** The search filter keeps `x`, or is not applied. */
  predicate PassesSearch(params: FilterParams, matches: (string, string) -> bool, x: PostRow)
  {
    Given(params.search) ==> matches(x.post.title, params.search.value)
  }

  /** The category filter keeps `x`, or is not applied. */
  predicate PassesCategory(params: FilterParams, x: PostRow)
  {
    Given(params.categoryName) ==> CategoryMatches(x, params.categoryName.value)
  }

  /** The author filter keeps `x`, or is not applied. */
  predicate PassesAuthor(params: FilterParams, x: PostRow)
  {
    Given(params.authorIn) ==> x.authorEmail in Split(params.authorIn.value, ',')
  }

  /** The date filter keeps `x`, or is not applied (or fails). */
  predicate PassesDate(params: FilterParams, today: Date, parse: string -> Option<Date>, x: PostRow)
  {
    Given(params.createdAtRange) && DateWindow(params.createdAtRange.value, today, parse).Ok? ==>
      InWindow(CreatedOn(x), DateWindow(params.createdAtRange.value, today, parse).value)
  }

  /** Every applied filter keeps `x`. */
  predicate Keeps(params: FilterParams, today: Date, parse: string -> Option<Date>,
                  matches: (string, string) -> bool, x: PostRow)
  {
    && PassesSearch(params, matches, x) && PassesCategory(params, x) && PassesAuthor(params, x)
    && PassesDate(params, today, parse, x)
  }

  /** The error the filter set raises, which does not depend on the rows: too
      many authors first, then a date range that cannot be read. */
  function ParamsError(params: FilterParams, today: Date, parse: string -> Option<Date>): (e: Option<FilterError>)
    ensures Given(params.authorIn) && |Split(params.authorIn.value, ',')| > AuthorLimit ==>
      e == Some(TooManyAuthors(AuthorLimit))
    ensures e.Some? && e.value.TooManyAuthors? ==> Given(params.authorIn)
    ensures e.Some? && !e.value.TooManyAuthors? ==>
      Given(params.createdAtRange) && DateWindow(params.createdAtRange.value, today, parse) == Err(e.value)
    ensures e.None? ==> !(Given(params.createdAtRange) && DateWindow(params.createdAtRange.value, today, parse).Err?)
  {
    if Given(params.authorIn) && |Split(params.authorIn.value, ',')| > AuthorLimit then Some(TooManyAuthors(AuthorLimit))
    else if Given(params.createdAtRange) && DateWindow(params.createdAtRange.value, today, parse).Err? then
      Some(DateWindow(params.createdAtRange.value, today, parse).error)
    else None
  }

  /** `PostFilter(filters, queryset).qs`: the filters in their declaration order,
      the first error ending the evaluation. The result is the error of the
      parameters, if any, and otherwise the rows every applied filter keeps, in
      their original order. */
  function ApplyPostFilter(rows: seq<PostRow>, params: FilterParams, today: Date,
                           parse: string -> Option<Date>, matches: (string, string) -> bool)
    : (r: Result<seq<PostRow>, FilterError>)
    ensures r.Err? <==> ParamsError(params, today, parse).Some?
    ensures r.Err? ==> r.error == ParamsError(params, today, parse).value
    ensures r.Ok? ==> r.value == Where(rows, (x: PostRow) => Keeps(params, today, parse, matches, x))
    ensures r.Ok? ==> IsSubsequence(r.value, rows)
    ensures r.Ok? ==> forall x :: x in r.value <==> x in rows && Keeps(params, today, parse, matches, x)
    ensures (!Given(params.search) && !Given(params.categoryName) && !Given(params.authorIn)
             && !Given(params.createdAtRange)) ==> r == Ok(rows)
    ensures Given(params.authorIn) && |Split(params.authorIn.value, ',')| > AuthorLimit ==>
      r == Err(TooManyAuthors(AuthorLimit))
    ensures r.Ok? && Given(params.categoryName) ==>
      forall x :: x in r.value ==> CategoryMatches(x, params.categoryName.value)
    ensures r.Ok? && Given(params.authorIn) ==>
      forall x :: x in r.value ==> x.authorEmail in Split(params.authorIn.value, ',')
  {
    var bySearch := if Given(params.search) then FilterSearch(rows, params.search.value, matches) else rows;
    var byCategory := if Given(params.categoryName) then FilterCategoryName(bySearch, params.categoryName.value) else bySearch;
    var byAuthor := if Given(params.authorIn) then FilterAuthorIn(byCategory, params.authorIn.value) else Ok(byCategory);
    if byAuthor.Err? then byAuthor
    else
      var byDate := if Given(params.createdAtRange)
                    then FilterCreatedAtRange(byAuthor.value, params.createdAtRange.value, today, parse)
                    else byAuthor;
      if byDate.Err? then byDate
      else
        FilterSetIsWhere(rows, params, today, parse, matches, bySearch, byCategory, byAuthor.value, byDate.value);
        WhereIsSubsequence(rows, (x: PostRow) => Keeps(params, today, parse, matches, x));
        if !Given(params.search) && !Given(params.categoryName) && !Given(params.authorIn)
           && !Given(params.createdAtRange) then
          WhereAll(rows, (x: PostRow) => Keeps(params, today, parse, matches, x));
          byDate
        else byDate
  }

  /** The four stages of the filter set, each the rows of the one before that
      its filter keeps, together keep the rows all four keep. */
  lemma FilterSetIsWhere(rows: seq<PostRow>, params: FilterParams, today: Date, parse: string -> Option<Date>,
                         matches: (string, string) -> bool, bySearch: seq<PostRow>,
                         byCategory: seq<PostRow>, byAuthor: seq<PostRow>, byDate: seq<PostRow>)
    requires bySearch == (if Given(params.search) then FilterSearch(rows, params.search.value, matches) else rows)
    requires byCategory ==
      (if Given(params.categoryName) then FilterCategoryName(bySearch, params.categoryName.value) else bySearch)
    requires Ok(byAuthor) ==
      (if Given(params.authorIn) then FilterAuthorIn(byCategory, params.authorIn.value) else Ok(byCategory))
    requires Ok(byDate) == (if Given(params.createdAtRange)
                            then FilterCreatedAtRange(byAuthor, params.createdAtRange.value, today, parse)
                            else Ok(byAuthor))
    ensures byDate == Where(rows, (x: PostRow) => Keeps(params, today, parse, matches, x))
  {
    var s := (x: PostRow) => PassesSearch(params, matches, x);
    var c := (x: PostRow) => PassesCategory(params, x);
    var a := (x: PostRow) => PassesAuthor(params, x);
    var d := (x: PostRow) => PassesDate(params, today, parse, x);
    if Given(params.search) {
      WhereCongruent(rows, (x: PostRow) => matches(x.post.title, params.search.value), s);
    } else {
      WhereAll(rows, s);
    }
    assert bySearch == Where(rows, s);
    if Given(params.categoryName) {
      WhereCongruent(bySearch, (x: PostRow) => CategoryMatches(x, params.categoryName.value), c);
    } else {
      WhereAll(bySearch, c);
    }
    assert byCategory == Where(bySearch, c);
    if Given(params.authorIn) {
      WhereCongruent(byCategory, (x: PostRow) => x.authorEmail in Split(params.authorIn.value, ','), a);
    } else {
      WhereAll(byCategory, a);
    }
    assert byAuthor == Where(byCategory, a);
    if Given(params.createdAtRange) {
      var w := DateWindow(params.createdAtRange.value, today, parse).value;
      WhereCongruent(byAuthor, (x: PostRow) => InWindow(CreatedOn(x), w), d);
    } else {
      WhereAll(byAuthor, d);
    }
    assert byDate == Where(byAuthor, d);
    var sc := (x: PostRow) => s(x) && c(x);
    var sca := (x: PostRow) => sc(x) && a(x);
    WhereWhere(rows, s, c, sc);
    WhereWhere(rows, sc, a, sca);
    WhereWhere(rows, sca, d, (x: PostRow) => Keeps(params, today, parse, matches, x));
  }
}
