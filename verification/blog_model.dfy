/**
 * Blog posts as the `Blog` collection stores them: the schema constraints,
 * the pre-save hook (slug, reading time, first-publication date), the view
 * counter and the published-only finders, which order by publication date,
 * newest first.
 */
module BlogModel {
  import opened Wrappers
  import opened Ascii
  import opened Slug
  import opened ReadingTime

  // ---------------------------------------------------------------- categories

  datatype Category =
    | InsuranceTips | CareerGuidance | SuccessStories | Training
    | IndustryNews | SalesTechniques | FinancialPlanning

  /** The enumeration of the `category` path, in schema order. */
  const CategoryNames: seq<string> := [
    "Insurance Tips", "Career Guidance", "Success Stories", "Training",
    "Industry News", "Sales Techniques", "Financial Planning"]

  function CategoryName(c: Category): (r: string)
    ensures r in CategoryNames
  {
    match c
    case InsuranceTips => "Insurance Tips"
    case CareerGuidance => "Career Guidance"
    case SuccessStories => "Success Stories"
    case Training => "Training"
    case IndustryNews => "Industry News"
    case SalesTechniques => "Sales Techniques"
    case FinancialPlanning => "Financial Planning"
  }

  /** The enum validator: a string outside the seven names is rejected. */
  function ParseCategory(s: string): (r: Option<Category>)
    ensures r.Some? <==> s in CategoryNames
    ensures r.Some? ==> CategoryName(r.value) == s
  {
    if s == "Insurance Tips" then Some(InsuranceTips)
    else if s == "Career Guidance" then Some(CareerGuidance)
    else if s == "Success Stories" then Some(SuccessStories)
    else if s == "Training" then Some(Training)
    else if s == "Industry News" then Some(IndustryNews)
    else if s == "Sales Techniques" then Some(SalesTechniques)
    else if s == "Financial Planning" then Some(FinancialPlanning)
    else None
  }

  /** Parsing a category's name gives the category back. */
  lemma {:induction false} ParseName(c: Category)
    ensures ParseCategory(CategoryName(c)) == Some(c)
  {
  }

  // ---------------------------------------------------------------- posts

  const DefaultAuthor: string := "LIC Career Team"
  const DefaultReadTime: nat := 5

  /** A stored post. `slug == ""` stands for a slug that is not set; dates are
      instants on an abstract clock; `createdAt`/`updatedAt` are not modelled. */
  datatype Post = Post(
    id: nat,
    title: string,
    slug: string,
    content: string,
    excerpt: string,
    author: string,
    category: Category,
    tags: seq<string>,
    featuredImage: Option<string>,
    published: bool,
    publishedAt: Option<int>,
    readTime: nat,
    views: nat)

  /** The schema's validators on a post about to be written: required strings
      are non-empty, the title is trimmed and at most 200 characters, the excerpt
      at most 300, the tags trimmed. The category is an enum value by its type. */
  predicate SchemaValid(p: Post)
  {
    && 1 <= |p.title| <= 200 && IsTrimmed(p.title)
    && p.slug != ""
    && p.content != ""
    && 1 <= |p.excerpt| <= 300
    && p.author != ""
    && AllTrimmed(p.tags)
  }

  /** Which paths `isModified` reports for this save. */
  datatype Changes = Changes(title: bool, content: bool, published: bool)

  const NoChanges: Changes := Changes(false, false, false)

  /** A new document: every path was set by the constructor. */
  const AllChanged: Changes := Changes(true, true, true)

  /** Whether the hook recomputes the slug: it is unset, or the title changed. */
  predicate SlugStale(p: Post, m: Changes)
  {
    p.slug == "" || m.title
  }

  /** Whether the hook stamps the publication date: `published` changed, is
      now true, and no date was stamped before. */
  predicate FirstPublication(p: Post, m: Changes)
  {
    m.published && p.published && p.publishedAt.None?
  }

  /** The pre-save hook, at instant `now`. */
  function PreSave(p: Post, m: Changes, now: int): (r: Post)
    ensures r.(slug := p.slug, readTime := p.readTime, publishedAt := p.publishedAt) == p
    ensures SlugStale(p, m) ==> r.slug == Slugify(p.title)
    ensures !SlugStale(p, m) ==> r.slug == p.slug
    ensures m.content ==> r.readTime >= 1 && r.readTime == ReadTime(p.content)
    ensures !m.content ==> r.readTime == p.readTime
    ensures p.publishedAt.Some? ==> r.publishedAt == p.publishedAt
    ensures r.publishedAt != p.publishedAt <==> FirstPublication(p, m)
    ensures FirstPublication(p, m) ==> r.publishedAt == Some(now)
  {
    p.(slug := if SlugStale(p, m) then Slugify(p.title) else p.slug,
       readTime := if m.content then ReadTime(p.content) else p.readTime,
       publishedAt := if FirstPublication(p, m) then Some(now) else p.publishedAt)
  }

  /** A recomputed slug is the title's lower-cased `[a-z0-9]` runs joined by
      single hyphens. */
  lemma {:induction false} PreSaveSlug(p: Post, m: Changes, now: int)
    requires SlugStale(p, m)
    ensures IsSlug(PreSave(p, m, now).slug)
    ensures PreSave(p, m, now).slug == JoinWords(Words(Lower(p.title)))
  {
    SlugifyJoinsWords(p.title);
  }

  /** Saving again without changes is a no-op: the hook is idempotent. */
  lemma {:induction false} PreSaveIdempotent(p: Post, m: Changes, now: int, later: int)
    ensures PreSave(PreSave(p, m, now), NoChanges, later) == PreSave(p, m, now)
  {
    var r := PreSave(p, m, now);
    if r.slug == "" {
      assert SlugStale(p, m);
      assert Slugify(r.title) == r.slug;
    }
  }

  /** One save in a post's life: `published` is set to a value, the paths in
      `changes` are marked modified, and the document is saved at `at`. */
  datatype Edit = Edit(published: bool, changes: Changes, at: int)

  function ApplyEdit(p: Post, e: Edit): Post
  {
    PreSave(p.(published := e.published), e.changes, e.at)
  }

  function ApplyEdits(p: Post, es: seq<Edit>): Post
    decreases |es|
  {
    if es == [] then p else ApplyEdits(ApplyEdit(p, es[0]), es[1..])
  }

  /** Once stamped, the publication date survives every later save, including
      unpublishing and publishing again. */
  lemma {:induction false} PublishedAtSetOnce(p: Post, es: seq<Edit>)
    requires p.publishedAt.Some?
    ensures ApplyEdits(p, es).publishedAt == p.publishedAt
    decreases |es|
  {
    if es != [] {
      PublishedAtSetOnce(ApplyEdit(p, es[0]), es[1..]);
    }
  }

  predicate SomePublishingEdit(es: seq<Edit>)
  {
    exists i :: 0 <= i < |es| && es[i].published && es[i].changes.published
  }

  /** A publication date only appears through a save that marks the post
      published. */
  lemma {:induction false} PublishedAtNeedsPublishing(p: Post, es: seq<Edit>)
    requires p.publishedAt.None?
    requires ApplyEdits(p, es).publishedAt.Some?
    ensures SomePublishingEdit(es)
    decreases |es|
  {
    assert es != [];
    var q := ApplyEdit(p, es[0]);
    if q.publishedAt.Some? {
      assert es[0].published && es[0].changes.published;
    } else {
      PublishedAtNeedsPublishing(q, es[1..]);
      var i :| 0 <= i < |es[1..]| && es[1..][i].published && es[1..][i].changes.published;
      assert es[i + 1] == es[1..][i];
    }
  }

  /** `incrementViews`: one more view, then a save with nothing modified. */
  function IncrementViews(p: Post, now: int): (r: Post)
    ensures r.views == p.views + 1
  {
    PreSave(p.(views := p.views + 1), NoChanges, now)
  }

  /** On a post whose slug is set, as every stored post's is, incrementing the
      views changes nothing but the count. */
  lemma {:induction false} IncrementViewsOnlyCounts(p: Post, now: int)
    requires p.slug != ""
    ensures IncrementViews(p, now) == p.(views := p.views + 1)
  {
  }

  // ---------------------------------------------------------------- finders

  /** A find filter: always `published: true`, optionally an exact category
      name, a tag the post carries, and a case-insensitive search. */
  datatype Query = Query(category: Option<string>, tag: Option<string>, search: Option<string>)

  predicate Matches(q: Query, p: Post)
  {
    && p.published
    && (q.category.Some? ==> CategoryName(p.category) == q.category.value)
    && (q.tag.Some? ==> q.tag.value in p.tags)
    && (q.search.Some? ==>
          || ContainsIgnoreCase(p.title, q.search.value)
          || ContainsIgnoreCase(p.excerpt, q.search.value)
          || ContainsIgnoreCase(p.content, q.search.value))
  }

  /** The posts of `ps` that match `q`, in store order. */
  function Select(ps: seq<Post>, q: Query): (r: seq<Post>)
    ensures |r| <= |ps|
  {
    if ps == [] then []
    else if Matches(q, ps[0]) then [ps[0]] + Select(ps[1..], q)
    else Select(ps[1..], q)
  }

  /** `Select` keeps exactly the matching posts, each as often as it occurs. */
  lemma {:induction false} SelectKeepsMatches(ps: seq<Post>, q: Query)
    ensures forall p :: p in Select(ps, q) <==> p in ps && Matches(q, p)
    ensures forall p :: Matches(q, p) ==> multiset(Select(ps, q))[p] == multiset(ps)[p]
    ensures forall p :: !Matches(q, p) ==> multiset(Select(ps, q))[p] == 0
  {
    if ps != [] {
      SelectKeepsMatches(ps[1..], q);
      assert ps == [ps[0]] + ps[1..];
    }
  }

  /** `a` comes no later than `b` in a sort on `publishedAt` descending; an
      unset date sorts after every set one. */
  predicate NotBefore(a: Option<int>, b: Option<int>)
  {
    b.None? || (a.Some? && a.value >= b.value)
  }

  predicate NewestFirst(ps: seq<Post>)
  {
    forall i, j :: 0 <= i < j < |ps| ==> NotBefore(ps[i].publishedAt, ps[j].publishedAt)
  }

  function Insert(p: Post, ps: seq<Post>): (r: seq<Post>)
    ensures |r| == |ps| + 1
  {
    if ps == [] || NotBefore(p.publishedAt, ps[0].publishedAt) then [p] + ps
    else [ps[0]] + Insert(p, ps[1..])
  }

  /** Orders by `publishedAt`, newest first. The order among posts with equal
      dates is not specified by the store; this one keeps store order. */
  function SortNewestFirst(ps: seq<Post>): (r: seq<Post>)
    ensures |r| == |ps|
  {
    if ps == [] then [] else Insert(ps[0], SortNewestFirst(ps[1..]))
  }

  lemma {:induction false} InsertPermutes(p: Post, ps: seq<Post>)
    ensures multiset(Insert(p, ps)) == multiset{p} + multiset(ps)
  {
    if ps != [] && !NotBefore(p.publishedAt, ps[0].publishedAt) {
      InsertPermutes(p, ps[1..]);
      assert ps == [ps[0]] + ps[1..];
    }
  }

  /** The head of an insertion is the inserted post or the old head. */
  lemma {:induction false} InsertHead(p: Post, ps: seq<Post>)
    ensures Insert(p, ps)[0] == p || (ps != [] && Insert(p, ps)[0] == ps[0])
  {
  }

  /** Every post of `ps` comes no earlier than date `b`. */
  predicate AllAfter(b: Option<int>, ps: seq<Post>)
  {
    forall k :: 0 <= k < |ps| ==> NotBefore(b, ps[k].publishedAt)
  }

  lemma {:induction false} TailSorted(ps: seq<Post>)
    requires ps != [] && NewestFirst(ps)
    ensures NewestFirst(ps[1..]) && AllAfter(ps[0].publishedAt, ps[1..])
  {
    var tail := ps[1..];
    forall i, j | 0 <= i < j < |tail|
      ensures NotBefore(tail[i].publishedAt, tail[j].publishedAt)
    {
      assert tail[i] == ps[i + 1] && tail[j] == ps[j + 1];
    }
    forall k | 0 <= k < |tail| ensures NotBefore(ps[0].publishedAt, tail[k].publishedAt)
    {
      assert tail[k] == ps[k + 1];
    }
  }

  lemma {:induction false} ConsSorted(h: Post, t: seq<Post>)
    requires NewestFirst(t) && AllAfter(h.publishedAt, t)
    ensures NewestFirst([h] + t)
  {
    var r := [h] + t;
    forall i, j | 0 <= i < j < |r|
      ensures NotBefore(r[i].publishedAt, r[j].publishedAt)
    {
      assert r[j] == t[j - 1];
      if i > 0 {
        assert r[i] == t[i - 1];
      }
    }
  }

  /** Inserting a post dated no earlier than `b` into posts dated no earlier
      than `b` keeps them all so. */
  lemma {:induction false} InsertKeepsBound(b: Option<int>, p: Post, ps: seq<Post>)
    requires NotBefore(b, p.publishedAt) && AllAfter(b, ps)
    ensures AllAfter(b, Insert(p, ps))
  {
    var r := Insert(p, ps);
    if ps == [] || NotBefore(p.publishedAt, ps[0].publishedAt) {
      forall k | 0 <= k < |r| ensures NotBefore(b, r[k].publishedAt)
      {
        if k > 0 {
          assert r[k] == ps[k - 1];
        }
      }
    } else {
      assert AllAfter(b, ps[1..]) by {
        forall k | 0 <= k < |ps| - 1 ensures NotBefore(b, ps[1..][k].publishedAt)
        {
          assert ps[1..][k] == ps[k + 1];
        }
      }
      InsertKeepsBound(b, p, ps[1..]);
      var t := Insert(p, ps[1..]);
      forall k | 0 <= k < |r| ensures NotBefore(b, r[k].publishedAt)
      {
        if k > 0 {
          assert r[k] == t[k - 1];
        }
      }
    }
  }

  lemma {:induction false} InsertSorted(p: Post, ps: seq<Post>)
    requires NewestFirst(ps)
    ensures NewestFirst(Insert(p, ps))
  {
    if ps == [] || NotBefore(p.publishedAt, ps[0].publishedAt) {
      if ps != [] {
        TailSorted(ps);
        forall k | 0 <= k < |ps| ensures NotBefore(p.publishedAt, ps[k].publishedAt)
        {
          if k > 0 {
            assert ps[k] == ps[1..][k - 1];
          }
        }
      }
      ConsSorted(p, ps);
    } else {
      TailSorted(ps);
      InsertSorted(p, ps[1..]);
      InsertKeepsBound(ps[0].publishedAt, p, ps[1..]);
      ConsSorted(ps[0], Insert(p, ps[1..]));
    }
  }

  /** The sort is a permutation of its input and is ordered newest first. */
  lemma {:induction false} SortSpec(ps: seq<Post>)
    ensures multiset(SortNewestFirst(ps)) == multiset(ps)
    ensures NewestFirst(SortNewestFirst(ps))
  {
    if ps != [] {
      SortSpec(ps[1..]);
      InsertPermutes(ps[0], SortNewestFirst(ps[1..]));
      InsertSorted(ps[0], SortNewestFirst(ps[1..]));
      assert ps == [ps[0]] + ps[1..];
    }
  }

  /** A find with filter `q`, sorted on `publishedAt` descending. */
  function Find(ps: seq<Post>, q: Query): seq<Post>
  {
    SortNewestFirst(Select(ps, q))
  }

  /** Every post of `found` is a stored post that matches `q`. */
  predicate StoredMatches(found: seq<Post>, ps: seq<Post>, q: Query)
  {
    forall p :: p in found ==> p in ps && Matches(q, p)
  }

  /** What every find returns: exactly the matching posts, each as often as it
      is stored, newest first. */
  lemma {:induction false} FindSpec(ps: seq<Post>, q: Query)
    ensures NewestFirst(Find(ps, q))
    ensures forall p :: p in Find(ps, q) <==> p in ps && Matches(q, p)
    ensures forall p :: Matches(q, p) ==> multiset(Find(ps, q))[p] == multiset(ps)[p]
    ensures forall p :: p in Find(ps, q) ==> p.published
    ensures StoredMatches(Find(ps, q), ps, q)
  {
    SelectKeepsMatches(ps, q);
    SortSpec(Select(ps, q));
    forall p ensures p in Find(ps, q) <==> p in Select(ps, q)
    {
      assert p in Find(ps, q) <==> p in multiset(Find(ps, q));
    }
  }

  /** `findPublished`. */
  function FindPublished(ps: seq<Post>): seq<Post>
  {
    Find(ps, Query(None, None, None))
  }

  /** `findByCategory`. */
  function FindByCategory(ps: seq<Post>, category: string): seq<Post>
  {
    Find(ps, Query(Some(category), None, None))
  }

  /** `findByTag`. */
  function FindByTag(ps: seq<Post>, tag: string): seq<Post>
  {
    Find(ps, Query(None, Some(tag), None))
  }

  /** The three finders in closed form. */
  lemma {:induction false} FindersSpec(ps: seq<Post>, category: string, tag: string)
    ensures NewestFirst(FindPublished(ps)) && NewestFirst(FindByCategory(ps, category))
      && NewestFirst(FindByTag(ps, tag))
    ensures forall p :: p in FindPublished(ps) <==> p in ps && p.published
    ensures forall p :: p in FindByCategory(ps, category) <==>
      p in ps && p.published && CategoryName(p.category) == category
    ensures forall p :: p in FindByTag(ps, tag) <==> p in ps && p.published && tag in p.tags
  {
    FindSpec(ps, Query(None, None, None));
    FindSpec(ps, Query(Some(category), None, None));
    FindSpec(ps, Query(None, Some(tag), None));
  }

  // ---------------------------------------------------------------- the collection

  predicate SlugsUnique(ps: seq<Post>)
  {
    forall i, j :: 0 <= i < j < |ps| ==> ps[i].slug != ps[j].slug
  }

  predicate IdsUnique(ps: seq<Post>)
  {
    forall i, j :: 0 <= i < j < |ps| ==> ps[i].id != ps[j].id
  }

  /** The collection's invariant: every document passed validation, and the
      unique index on `slug` and the primary key hold. */
  predicate StoreValid(ps: seq<Post>)
  {
    && (forall i :: 0 <= i < |ps| ==> SchemaValid(ps[i]))
    && SlugsUnique(ps)
    && IdsUnique(ps)
  }

  /** `incrementViews` on the stored post at index `i`. */
  function IncrementViewsAt(ps: seq<Post>, i: nat, now: int): (r: seq<Post>)
    requires i < |ps|
    ensures |r| == |ps|
    ensures forall j :: 0 <= j < |ps| && j != i ==> r[j] == ps[j]
  {
    ps[i := IncrementViews(ps[i], now)]
  }

  /** Counting a view keeps the collection valid and changes only that post's count. */
  lemma {:induction false} IncrementViewsKeepsStore(ps: seq<Post>, i: nat, now: int)
    requires StoreValid(ps) && i < |ps|
    ensures IncrementViewsAt(ps, i, now)[i] == ps[i].(views := ps[i].views + 1)
    ensures StoreValid(IncrementViewsAt(ps, i, now))
  {
    IncrementViewsOnlyCounts(ps[i], now);
  }
}
