/**
 * The `/api/blogs` endpoint: `GET` lists published posts through a filter,
 * a sort on publication date and a page window; `POST` checks the required
 * fields, fills the defaults and inserts a post through the pre-save hook
 * and the schema's validators.
 */
module BlogsRoute {
  import opened Wrappers
  import opened Ascii
  import opened Slug
  import opened BlogModel

  // ---------------------------------------------------------------- listing

  /** A query parameter counts only when present and non-empty (JavaScript
      truthiness of the string). */
  function Given(v: Option<string>): (r: Option<string>)
    ensures r.Some? <==> v.Some? && v.value != ""
    ensures r.Some? ==> r == v
  {
    if v.Some? && v.value != "" then v else None
  }

  /** The filter the handler builds from its query parameters. */
  function BuildQuery(category: Option<string>, tag: Option<string>, search: Option<string>): Query
  {
    Query(Given(category), Given(tag), Given(search))
  }

  /** A list entry: the post without its content. */
  datatype ListItem = ListItem(
    id: nat,
    title: string,
    slug: string,
    excerpt: string,
    author: string,
    category: Category,
    tags: seq<string>,
    featuredImage: Option<string>,
    published: bool,
    publishedAt: Option<int>,
    readTime: nat,
    views: nat)

  function Listing(p: Post): ListItem
  {
    ListItem(p.id, p.title, p.slug, p.excerpt, p.author, p.category, p.tags,
             p.featuredImage, p.published, p.publishedAt, p.readTime, p.views)
  }

  /** Leaving out the content loses nothing else: the post is recovered from
      its list entry and its content. */
  lemma {:induction false} ListingOmitsOnlyContent(p: Post)
    ensures var e := Listing(p);
      Post(e.id, e.title, e.slug, p.content, e.excerpt, e.author, e.category, e.tags,
           e.featuredImage, e.published, e.publishedAt, e.readTime, e.views) == p
  {
  }

  datatype Pagination = Pagination(
    page: nat, limit: nat, total: nat, totalPages: nat, hasNext: bool, hasPrev: bool)

  /** `Math.ceil(total / limit)`. */
  function PageCount(total: nat, limit: nat): (n: nat)
    requires limit >= 1
    ensures n == 0 <==> total == 0
    ensures total > 0 ==> limit * (n - 1) < total <= limit * n
  {
    (total + limit - 1) / limit
  }

  function Paginate(page: nat, limit: nat, total: nat): (r: Pagination)
    requires page >= 1 && limit >= 1
    ensures r.totalPages == PageCount(total, limit)
    ensures r.hasPrev <==> page > 1
    ensures r.hasNext <==> page < r.totalPages
  {
    var n := PageCount(total, limit);
    Pagination(page, limit, total, n, page < n, page > 1)
  }

  lemma {:induction false} MulMonotone(a: nat, b: nat, c: nat)
    requires a <= b
    ensures a * c <= b * c
  {
    assert b * c == a * c + (b - a) * c;
  }

  /** A next page is announced exactly when matches remain after this page. */
  lemma {:induction false} HasNextIffMoreMatches(page: nat, limit: nat, total: nat)
    requires page >= 1 && limit >= 1
    ensures Paginate(page, limit, total).hasNext <==> page * limit < total
  {
    var n := PageCount(total, limit);
    if page < n {
      MulMonotone(page, n - 1, limit);
      assert limit * (n - 1) < total;
    }
    if page * limit < total {
      assert total <= limit * n;
      if n <= page {
        MulMonotone(n, page, limit);
      }
    }
  }

  /** The number of matches before page `page`. */
  function Skip(page: nat, limit: nat): nat
    requires page >= 1
  {
    (page - 1) * limit
  }

  /** `.skip(skip).limit(limit)` on a sorted result. */
  function Window<T>(xs: seq<T>, skip: nat, limit: nat): (w: seq<T>)
    ensures |w| <= limit
    ensures w != [] ==> skip + |w| <= |xs|
    ensures skip < |xs| ==> |w| == if skip + limit <= |xs| then limit else |xs| - skip
    ensures forall i :: 0 <= i < |w| ==> skip + i < |xs| && w[i] == xs[skip + i]
  {
    if |xs| <= skip then []
    else if skip + limit <= |xs| then xs[skip..skip + limit]
    else xs[skip..]
  }

  /** `.select('-content')`. */
  function Listings(ps: seq<Post>): (r: seq<ListItem>)
    ensures |r| == |ps|
    ensures forall i :: 0 <= i < |ps| ==> r[i] == Listing(ps[i])
  {
    seq(|ps|, i requires 0 <= i < |ps| => Listing(ps[i]))
  }

  datatype ListResponse =
    | ListOk(blogs: seq<ListItem>, pagination: Pagination)
    | ListFailed   // 500, "Failed to fetch blogs"

  /** `GET /api/blogs`. `connected` is whether the database connection could
      be made; `page` and `limit` are the parsed query parameters. */
  function ListBlogs(store: seq<Post>, connected: bool, page: nat, limit: nat,
                     category: Option<string>, tag: Option<string>, search: Option<string>)
    : (r: ListResponse)
    requires page >= 1 && limit >= 1
    ensures !connected <==> r.ListFailed?
    ensures r.ListOk? ==> |r.blogs| <= limit
    ensures r.ListOk? ==> r.pagination.page == page && r.pagination.limit == limit
  {
    if !connected then ListFailed
    else
      var matches := Find(store, BuildQuery(category, tag, search));
      ListOk(Listings(Window(matches, Skip(page, limit), limit)), Paginate(page, limit, |matches|))
  }

  /** The page holds the matches from position `(page - 1) * limit` on, at
      most `limit` of them and as many as remain, without their content; the
      total counts every match. */
  lemma {:induction false} ListWindow(store: seq<Post>, page: nat, limit: nat,
                            category: Option<string>, tag: Option<string>, search: Option<string>)
    requires page >= 1 && limit >= 1
    ensures var r := ListBlogs(store, true, page, limit, category, tag, search);
      var matches := Find(store, BuildQuery(category, tag, search));
      var skip := Skip(page, limit);
      && (r.blogs != [] ==> skip + |r.blogs| <= |matches|)
      && (forall i :: 0 <= i < |r.blogs| ==> skip + i < |matches| && r.blogs[i] == Listing(matches[skip + i]))
      && (skip < |matches| ==> |r.blogs| == if skip + limit <= |matches| then limit else |matches| - skip)
      && r.pagination.total == |Select(store, BuildQuery(category, tag, search))|
  {
  }

  /** `e` is the list entry of a stored post that matches `q`. */
  predicate ListsStoredMatch(e: ListItem, store: seq<Post>, q: Query)
  {
    exists p :: p in store && Matches(q, p) && Listing(p) == e
  }

  /** A window of a sorted sequence of stored matches. */
  lemma {:induction false} WindowFacts(matches: seq<Post>, skip: nat, limit: nat,
                                       store: seq<Post>, q: Query)
    requires NewestFirst(matches)
    requires StoredMatches(matches, store, q)
    ensures var items := Listings(Window(matches, skip, limit));
      && (forall i :: 0 <= i < |items| ==> items[i].published && ListsStoredMatch(items[i], store, q))
      && (forall i, j :: 0 <= i < j < |items| ==> NotBefore(items[i].publishedAt, items[j].publishedAt))
  {
    var w := Window(matches, skip, limit);
    var items := Listings(w);
    forall i | 0 <= i < |items|
      ensures items[i].published && ListsStoredMatch(items[i], store, q)
    {
      assert w[i] in matches;
    }
    forall i, j | 0 <= i < j < |items|
      ensures NotBefore(items[i].publishedAt, items[j].publishedAt)
    {
      assert w[i] == matches[skip + i] && w[j] == matches[skip + j];
    }
  }

  /** Whatever the filters, every listed post is published, matches the
      filters, and is stored; the entries come newest first. */
  lemma {:induction false} ListOnlyPublished(store: seq<Post>, page: nat, limit: nat,
                            category: Option<string>, tag: Option<string>, search: Option<string>)
    requires page >= 1 && limit >= 1
    ensures var r := ListBlogs(store, true, page, limit, category, tag, search);
      && (forall i :: 0 <= i < |r.blogs| ==> r.blogs[i].published)
      && (forall i :: 0 <= i < |r.blogs| ==>
            ListsStoredMatch(r.blogs[i], store, BuildQuery(category, tag, search)))
      && (forall i, j :: 0 <= i < j < |r.blogs| ==>
            NotBefore(r.blogs[i].publishedAt, r.blogs[j].publishedAt))
  {
    var q := BuildQuery(category, tag, search);
    var matches := Find(store, q);
    assert NewestFirst(matches) && StoredMatches(matches, store, q) by {
      FindSpec(store, q);
    }
    WindowFacts(matches, Skip(page, limit), limit, store, q);
  }

  /** The filters in closed form: the category is compared exactly, the tag
      must be one of the post's tags, and the search must occur, ignoring case,
      in the title, the excerpt or the content. Empty parameters filter nothing. */
  lemma {:induction false} QueryMeaning(category: Option<string>, tag: Option<string>,
                                        search: Option<string>, p: Post)
    ensures Matches(BuildQuery(category, tag, search), p) <==>
      && p.published
      && (category.Some? && category.value != "" ==> CategoryName(p.category) == category.value)
      && (tag.Some? && tag.value != "" ==> tag.value in p.tags)
      && (search.Some? && search.value != "" ==>
            || Contains(Lower(p.title), Lower(search.value))
            || Contains(Lower(p.excerpt), Lower(search.value))
            || Contains(Lower(p.content), Lower(search.value)))
  {
  }

  // ---------------------------------------------------------------- creating

  /** The JSON body of a create request; a field left out is `None`. */
  datatype CreateBody = CreateBody(
    title: Option<string>,
    content: Option<string>,
    excerpt: Option<string>,
    author: Option<string>,
    category: Option<string>,
    tags: Option<seq<string>>,
    featuredImage: Option<string>,
    published: Option<bool>)

  const DefaultCategory: string := "Career Guidance"
  const MissingFields: string := "Title, content, and excerpt are required"
  const SlugTaken: string := "Blog with this slug already exists"

  /** The response and the collection after the request. `created` is the
      stored post on 201. */
  datatype CreateResult = CreateResult(status: int, message: string, created: Option<Post>, store: seq<Post>)

  predicate Truthy(v: Option<string>)
  {
    v.Some? && v.value != ""
  }

  /** `v || d` on an optional string. */
  function OrElse(v: Option<string>, d: string): (r: string)
    ensures Truthy(v) ==> r == v.value
    ensures !Truthy(v) ==> r == d
  {
    if Truthy(v) then v.value else d
  }

  /** The document the constructor builds, before the hook: setters trim the
      title and the tags, and defaults fill what the body left out. */
  function Draft(b: CreateBody, c: Category, id: nat): Post
    requires Truthy(b.title) && Truthy(b.content) && Truthy(b.excerpt)
  {
    Post(id, Trim(b.title.value), "", b.content.value, b.excerpt.value,
         OrElse(b.author, DefaultAuthor), c,
         if b.tags.Some? then TrimAll(b.tags.value) else [],
         b.featuredImage, b.published == Some(true), None, DefaultReadTime, 0)
  }

  /** Whether the insert would violate the unique index on `slug` or the
      primary key (both duplicate-key errors, code 11000). */
  predicate Collides(store: seq<Post>, p: Post)
  {
    exists i :: 0 <= i < |store| && (store[i].slug == p.slug || store[i].id == p.id)
  }

  /** `POST /api/blogs`. `body` is `None` when the request body is not a JSON
      object; `newId` is the id the new document receives; `now` is the
      instant of the save. */
  function CreateBlog(store: seq<Post>, connected: bool, body: Option<CreateBody>,
                      newId: nat, now: int): (r: CreateResult)
    ensures r.status in {201, 400, 500}
    ensures r.status != 201 ==> r.store == store && r.created.None?
    ensures r.status == 201 ==> r.created.Some? && r.store == store + [r.created.value]
    ensures connected && body.Some?
      && !(Truthy(body.value.title) && Truthy(body.value.content) && Truthy(body.value.excerpt))
      ==> r.status == 400 && r.message == MissingFields
    ensures r.status == 201 ==> (connected && body.Some? && Truthy(body.value.title)
      && Truthy(body.value.content) && Truthy(body.value.excerpt))
    ensures r.status == 201 ==>
      var b := body.value;
      var p := r.created.value;
      && SchemaValid(p) && !Collides(store, p)
      && p.id == newId && p.views == 0
      && p.title == Trim(b.title.value) && p.content == b.content.value
      && p.excerpt == b.excerpt.value
      && IsSlug(p.slug) && p.slug == Slugify(p.title)
      && p.readTime == ReadingTime.ReadTime(p.content)
      && (p.publishedAt.Some? <==> p.published)
      && (p.published ==> p.publishedAt == Some(now))
      && p.author == (if Truthy(b.author) then b.author.value else DefaultAuthor)
      && CategoryName(p.category) == (if Truthy(b.category) then b.category.value else DefaultCategory)
      && p.tags == (if b.tags.Some? then TrimAll(b.tags.value) else [])
      && p.published == (b.published == Some(true))
      && p.featuredImage == b.featuredImage
  {
    if !connected || body.None? then CreateResult(500, "Failed to create blog", None, store)
    else
      var b := body.value;
      if !(Truthy(b.title) && Truthy(b.content) && Truthy(b.excerpt)) then
        CreateResult(400, MissingFields, None, store)
      else
        var category := ParseCategory(OrElse(b.category, DefaultCategory));
        if category.None? then CreateResult(500, "Failed to create blog", None, store)
        else
          var p := PreSave(Draft(b, category.value, newId), AllChanged, now);
          if !SchemaValid(p) then CreateResult(500, "Failed to create blog", None, store)
          else if Collides(store, p) then CreateResult(400, SlugTaken, None, store)
          else CreateResult(201, "Blog created successfully", Some(p), store + [p])
  }

  /** What the schema's validators demand of a create body that passes the
      required-field check, stated on the body itself: the category, or its
      default, is one of the seven names; the trimmed title has 1 to 200
      characters and a non-empty slug; the excerpt has at most 300. */
  predicate BodyValid(b: CreateBody)
  {
    && Truthy(b.title) && Truthy(b.content) && Truthy(b.excerpt)
    && OrElse(b.category, DefaultCategory) in CategoryNames
    && 1 <= |Trim(b.title.value)| <= 200
    && |b.excerpt.value| <= 300
    && Slugify(Trim(b.title.value)) != ""
  }

  /** No stored post has this slug or this id. */
  predicate Fresh(store: seq<Post>, slug: string, id: nat)
  {
    forall i :: 0 <= i < |store| ==> store[i].slug != slug && store[i].id != id
  }

  /** The post the hook derives from a valid body passes the validators, and
      its slug is the slug of the trimmed title. */
  lemma {:induction false} HookedDraftValid(b: CreateBody, c: Category, newId: nat, now: int)
    requires BodyValid(b) && ParseCategory(OrElse(b.category, DefaultCategory)) == Some(c)
    ensures SchemaValid(PreSave(Draft(b, c, newId), AllChanged, now))
    ensures PreSave(Draft(b, c, newId), AllChanged, now).slug == Slugify(Trim(b.title.value))
    ensures PreSave(Draft(b, c, newId), AllChanged, now).id == newId
  {
    TrimIsTrimmed(b.title.value);
    if b.tags.Some? {
      TrimAllTrimmed(b.tags.value);
    }
  }

  /** A create whose body passes the required-field check and names a valid
      category: the hooked post is validated, then checked for collisions. */
  lemma {:induction false} CreateOutcome(store: seq<Post>, b: CreateBody, c: Category, newId: nat, now: int)
    requires Truthy(b.title) && Truthy(b.content) && Truthy(b.excerpt)
    requires ParseCategory(OrElse(b.category, DefaultCategory)) == Some(c)
    ensures var p := PreSave(Draft(b, c, newId), AllChanged, now);
      CreateBlog(store, true, Some(b), newId, now) ==
        if !SchemaValid(p) then CreateResult(500, "Failed to create blog", None, store)
        else if Collides(store, p) then CreateResult(400, SlugTaken, None, store)
        else CreateResult(201, "Blog created successfully", Some(p), store + [p])
  {
  }

  /** Only a connected create with a valid body and a fresh slug and id succeeds. */
  lemma {:induction false} CreatedOnlyIfValid(store: seq<Post>, connected: bool, body: Option<CreateBody>,
                                              newId: nat, now: int)
    requires CreateBlog(store, connected, body, newId, now).status == 201
    ensures connected && body.Some? && BodyValid(body.value)
    ensures Fresh(store, Slugify(Trim(body.value.title.value)), newId)
  {
    var p := CreateBlog(store, connected, body, newId, now).created.value;
    assert CategoryName(p.category) in CategoryNames;
    forall i | 0 <= i < |store| ensures store[i].slug != p.slug && store[i].id != p.id
    {
      assert !(store[i].slug == p.slug || store[i].id == p.id);
    }
  }

  /** A connected create with a valid body and a fresh slug and id succeeds. */
  lemma {:induction false} CreatedIfValid(store: seq<Post>, b: CreateBody, newId: nat, now: int)
    requires BodyValid(b) && Fresh(store, Slugify(Trim(b.title.value)), newId)
    ensures CreateBlog(store, true, Some(b), newId, now).status == 201
  {
    var c := ParseCategory(OrElse(b.category, DefaultCategory)).value;
    HookedDraftValid(b, c, newId, now);
    CreateOutcome(store, b, c, newId, now);
    var p := PreSave(Draft(b, c, newId), AllChanged, now);
    assert !Collides(store, p);
  }

  /** Exactly which creates succeed: connected, a body the validators accept,
      and neither its slug nor the new id already stored. */
  lemma {:induction false} CreateSucceedsIff(store: seq<Post>, connected: bool, body: Option<CreateBody>,
                                             newId: nat, now: int)
    ensures CreateBlog(store, connected, body, newId, now).status == 201 <==>
      connected && body.Some? && BodyValid(body.value)
      && Fresh(store, Slugify(Trim(body.value.title.value)), newId)
  {
    if CreateBlog(store, connected, body, newId, now).status == 201 {
      CreatedOnlyIfValid(store, connected, body, newId, now);
    } else if connected && body.Some? && BodyValid(body.value)
           && Fresh(store, Slugify(Trim(body.value.title.value)), newId) {
      CreatedIfValid(store, body.value, newId, now);
    }
  }

  /** A create whose slug is taken answers 400 and stores nothing. */
  lemma {:induction false} DuplicateSlugRejected(store: seq<Post>, b: CreateBody, newId: nat, now: int, i: nat)
    requires BodyValid(b)
    requires i < |store| && store[i].slug == Slugify(Trim(b.title.value))
    ensures CreateBlog(store, true, Some(b), newId, now) == CreateResult(400, SlugTaken, None, store)
  {
    var c := ParseCategory(OrElse(b.category, DefaultCategory)).value;
    HookedDraftValid(b, c, newId, now);
    CreateOutcome(store, b, c, newId, now);
    var p := PreSave(Draft(b, c, newId), AllChanged, now);
    assert Collides(store, p);
  }

  /** Appending a valid post that collides with nothing keeps the collection valid. */
  lemma {:induction false} AppendKeepsStoreValid(store: seq<Post>, p: Post)
    requires StoreValid(store) && SchemaValid(p) && !Collides(store, p)
    ensures StoreValid(store + [p])
  {
    var s := store + [p];
    forall i, j | 0 <= i < j < |s| ensures s[i].slug != s[j].slug && s[i].id != s[j].id
    {
      if j == |store| {
        assert s[j] == p && s[i] == store[i];
      } else {
        assert s[i] == store[i] && s[j] == store[j];
      }
    }
    forall i | 0 <= i < |s| ensures SchemaValid(s[i])
    {
      if i < |store| {
        assert s[i] == store[i];
      }
    }
  }

  /** Creating a post keeps the collection valid. */
  lemma {:induction false} CreateKeepsStoreValid(store: seq<Post>, connected: bool,
                                                 body: Option<CreateBody>, newId: nat, now: int)
    requires StoreValid(store)
    ensures StoreValid(CreateBlog(store, connected, body, newId, now).store)
  {
    var r := CreateBlog(store, connected, body, newId, now);
    if r.status == 201 {
      AppendKeepsStoreValid(store, r.created.value);
    }
  }

  /** A title whose trimmed form is all punctuation and whitespace passes the
      required-field check but yields an empty slug, which the schema rejects. */
  lemma {:induction false} PunctuationTitleFails(store: seq<Post>, b: CreateBody, newId: nat, now: int)
    requires Truthy(b.title) && Truthy(b.content) && Truthy(b.excerpt)
    requires Slugify(Trim(b.title.value)) == ""
    ensures CreateBlog(store, true, Some(b), newId, now).status == 500
  {
    var c := ParseCategory(OrElse(b.category, DefaultCategory));
    if c.Some? {
      var d := Draft(b, c.value, newId);
      assert d.slug == "";
      assert PreSave(d, AllChanged, now).slug == "";
    }
  }

  // ---------------------------------------------------------------- validation before the hook

  /** The create when the schema's validators run before the pre-save hook, as
      Mongoose orders `save()`: the draft is validated while its slug is still
      unset, and only then does the hook derive it. */
  function CreateBlogValidatingFirst(store: seq<Post>, connected: bool, body: Option<CreateBody>,
                                     newId: nat, now: int): (r: CreateResult)
    ensures r.status in {400, 500} && r.store == store && r.created.None?
  {
    if !connected || body.None? then CreateResult(500, "Failed to create blog", None, store)
    else
      var b := body.value;
      if !(Truthy(b.title) && Truthy(b.content) && Truthy(b.excerpt)) then
        CreateResult(400, MissingFields, None, store)
      else
        var category := ParseCategory(OrElse(b.category, DefaultCategory));
        if category.None? then CreateResult(500, "Failed to create blog", None, store)
        else
          var d := Draft(b, category.value, newId);
          if !SchemaValid(d) then CreateResult(500, "Failed to create blog", None, store)
          else
            var p := PreSave(d, AllChanged, now);
            if Collides(store, p) then CreateResult(400, SlugTaken, None, store)
            else CreateResult(201, "Blog created successfully", Some(p), store + [p])
  }

  /** With the validators first, the required slug refuses every create that
      reaches the database, including each one the hook-first order accepts. */
  lemma {:induction false} ValidatingFirstRefusesEveryCreate(store: seq<Post>, b: CreateBody, newId: nat, now: int)
    requires BodyValid(b) && Fresh(store, Slugify(Trim(b.title.value)), newId)
    ensures CreateBlog(store, true, Some(b), newId, now).status == 201
    ensures CreateBlogValidatingFirst(store, true, Some(b), newId, now).status == 500
  {
    CreatedIfValid(store, b, newId, now);
    var c := ParseCategory(OrElse(b.category, DefaultCategory)).value;
    assert !SchemaValid(Draft(b, c, newId));
  }
}
