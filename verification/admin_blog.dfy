/**
 * The blog admin page: the client-side schema of its post form, the data it
 * sends, and how it updates its own list of posts after the server answers
 * (create puts the new post first, update merges the form into the matching
 * entries, delete drops them).
 */
module AdminBlog {
  import opened Wrappers
  import opened Schema
  import opened BlogModel
  import opened Tags

  // ---------------------------------------------------------------- the form schema

  /** The form as submitted; a field left out is `None`. */
  datatype AdminForm = AdminForm(
    title: Option<string>,
    content: Option<string>,
    excerpt: Option<string>,
    author: Option<string>,
    category: Option<string>,
    tags: Option<string>,
    featuredImage: Option<string>,
    published: Option<bool>)

  const TitleField: Field := Field(false, [MinLength(1), MaxLength(200)])
  const ContentField: Field := Field(false, [MinLength(1)])
  const ExcerptField: Field := Field(false, [MinLength(1), MaxLength(300)])
  const AuthorField: Field := Field(false, [MinLength(1)])
  const CategoryField: Field := Field(false, [OneOf(CategoryNames)])
  const TagsField: Field := Field(false, [])
  const FeaturedImageField: Field := Field(true, [])

  /** No field of this form has an e-mail check. */
  const NoEmailCheck: string -> bool := s => false

  /** `blogSchema` accepts the form. `published` must be a boolean. */
  predicate ValidForm(f: AdminForm)
  {
    && Accepts(TitleField, f.title, NoEmailCheck)
    && Accepts(ContentField, f.content, NoEmailCheck)
    && Accepts(ExcerptField, f.excerpt, NoEmailCheck)
    && Accepts(AuthorField, f.author, NoEmailCheck)
    && Accepts(CategoryField, f.category, NoEmailCheck)
    && Accepts(TagsField, f.tags, NoEmailCheck)
    && Accepts(FeaturedImageField, f.featuredImage, NoEmailCheck)
    && f.published.Some?
  }

  /** A field whose only check is a minimum length of 1 accepts exactly the
      present, non-empty values. */
  lemma {:induction false} NonEmptyField(v: Option<string>)
    ensures Accepts(Field(false, [MinLength(1)]), v, NoEmailCheck) <==> v.Some? && v.value != ""
  {
    if v.Some? && PassesAll([MinLength(1)], v.value, NoEmailCheck) {
      assert Passes([MinLength(1)][0], v.value, NoEmailCheck);
    }
  }

  /** The schema in closed form: title 1 to 200 characters, excerpt 1 to 300,
      content and author non-empty, category one of the seven names, tags a
      string, published a boolean; the featured image may be left out. */
  lemma {:induction false} FormRule(f: AdminForm)
    ensures ValidForm(f) <==>
      && f.title.Some? && 1 <= |f.title.value| <= 200
      && f.content.Some? && f.content.value != ""
      && f.excerpt.Some? && 1 <= |f.excerpt.value| <= 300
      && f.author.Some? && f.author.value != ""
      && f.category.Some? && f.category.value in CategoryNames
      && f.tags.Some?
      && f.published.Some?
  {
    LengthRange(1, 200, f.title, NoEmailCheck);
    LengthRange(1, 300, f.excerpt, NoEmailCheck);
    NonEmptyField(f.content);
    NonEmptyField(f.author);
    Enumeration(CategoryNames, f.category, NoEmailCheck);
  }

  /** The request body built on submit: the form's values with the tag string
      parsed into a list. */
  datatype BlogData = BlogData(
    title: string,
    content: string,
    excerpt: string,
    author: string,
    category: string,
    tags: seq<string>,
    featuredImage: Option<string>,
    published: bool)

  function ToBlogData(f: AdminForm): (d: BlogData)
    requires ValidForm(f)
    ensures d.tags == ParseTags(f.tags.value)
    ensures forall t :: t in d.tags ==> CleanTag(t)
    ensures d.title == f.title.value && d.content == f.content.value && d.excerpt == f.excerpt.value
    ensures d.author == f.author.value && d.category == f.category.value
    ensures d.featuredImage == f.featuredImage && d.published == f.published.value
  {
    ParsedTagsAreClean(f.tags.value);
    BlogData(f.title.value, f.content.value, f.excerpt.value, f.author.value,
             f.category.value, ParseTags(f.tags.value), f.featuredImage, f.published.value)
  }

  // ---------------------------------------------------------------- the page's list of posts

  /** An entry of the page's list. `content` and `featuredImage` are present
      only once a merge has put them there. */
  datatype Row = Row(
    id: string,
    title: string,
    slug: string,
    excerpt: string,
    author: string,
    category: string,
    tags: seq<string>,
    published: bool,
    publishedAt: Option<string>,
    views: nat,
    readTime: nat,
    content: Option<string>,
    featuredImage: Option<string>)

  /** `{ ...blog, ...blogData, tags: blogData.tags }`: every key the body
      carries overrides the entry's; an absent featured image leaves the
      entry's as it was. */
  function Merge(row: Row, d: BlogData): (r: Row)
    ensures r.id == row.id && r.slug == row.slug && r.publishedAt == row.publishedAt
    ensures r.views == row.views && r.readTime == row.readTime
    ensures r.title == d.title && r.content == Some(d.content) && r.excerpt == d.excerpt
    ensures r.author == d.author && r.category == d.category && r.tags == d.tags
    ensures r.published == d.published
    ensures r.featuredImage == (if d.featuredImage.Some? then d.featuredImage else row.featuredImage)
  {
    row.(title := d.title, content := Some(d.content), excerpt := d.excerpt, author := d.author,
         category := d.category, tags := d.tags, published := d.published,
         featuredImage := if d.featuredImage.Some? then d.featuredImage else row.featuredImage)
  }

  function Ids(rows: seq<Row>): (r: seq<string>)
    ensures |r| == |rows| && forall i :: 0 <= i < |rows| ==> r[i] == rows[i].id
  {
    seq(|rows|, i requires 0 <= i < |rows| => rows[i].id)
  }

  /** After a successful create: the post the server returned goes first. */
  function CreateLocal(rows: seq<Row>, created: Row): (r: seq<Row>)
    ensures |r| == |rows| + 1 && r[0] == created && r[1..] == rows
  {
    [created] + rows
  }

  /** After a successful update of post `id`. */
  function UpdateLocal(rows: seq<Row>, id: string, d: BlogData): (r: seq<Row>)
    ensures |r| == |rows|
    ensures forall i :: 0 <= i < |rows| && rows[i].id == id ==> r[i] == Merge(rows[i], d)
    ensures forall i :: 0 <= i < |rows| && rows[i].id != id ==> r[i] == rows[i]
    decreases |rows|
  {
    if rows == [] then []
    else [if rows[0].id == id then Merge(rows[0], d) else rows[0]] + UpdateLocal(rows[1..], id, d)
  }

  /** After a successful delete of post `id`. */
  function DeleteLocal(rows: seq<Row>, id: string): (r: seq<Row>)
    ensures |r| <= |rows|
    ensures forall i :: 0 <= i < |r| ==> r[i].id != id && r[i] in rows
    decreases |rows|
  {
    if rows == [] then []
    else if rows[0].id == id then DeleteLocal(rows[1..], id)
    else [rows[0]] + DeleteLocal(rows[1..], id)
  }

  /** Updating keeps every entry's id, hence the list's ids in order, and
      a second update with the same data changes nothing more. */
  lemma {:induction false} UpdateKeepsIds(rows: seq<Row>, id: string, d: BlogData)
    ensures Ids(UpdateLocal(rows, id, d)) == Ids(rows)
    ensures UpdateLocal(UpdateLocal(rows, id, d), id, d) == UpdateLocal(rows, id, d)
  {
    var once := UpdateLocal(rows, id, d);
    var twice := UpdateLocal(once, id, d);
    forall i | 0 <= i < |rows| ensures Ids(once)[i] == Ids(rows)[i] && twice[i] == once[i]
    {
      if rows[i].id == id {
        assert once[i] == Merge(rows[i], d);
        assert twice[i] == Merge(once[i], d);
      }
    }
  }

  /** Updating a post the list does not hold leaves the list as it is. */
  lemma {:induction false} UpdateAbsent(rows: seq<Row>, id: string, d: BlogData)
    requires id !in Ids(rows)
    ensures UpdateLocal(rows, id, d) == rows
  {
    var r := UpdateLocal(rows, id, d);
    forall i | 0 <= i < |rows| ensures r[i] == rows[i]
    {
      assert Ids(rows)[i] == rows[i].id;
    }
  }

  /** Delete drops exactly the entries with that id: every other entry keeps
      its number of occurrences. */
  lemma {:induction false} DeleteKeepsOthers(rows: seq<Row>, id: string, x: Row)
    requires x.id != id
    ensures multiset(DeleteLocal(rows, id))[x] == multiset(rows)[x]
    decreases |rows|
  {
    if rows != [] {
      DeleteKeepsOthers(rows[1..], id, x);
      assert rows == [rows[0]] + rows[1..];
      assert multiset(rows) == multiset{rows[0]} + multiset(rows[1..]);
      if rows[0].id != id {
        assert DeleteLocal(rows, id) == [rows[0]] + DeleteLocal(rows[1..], id);
      }
    }
  }

  /** Delete keeps the survivors in order: deleting from a concatenation
      deletes from each part. */
  lemma {:induction false} DeleteInOrder(a: seq<Row>, b: seq<Row>, id: string)
    ensures DeleteLocal(a + b, id) == DeleteLocal(a, id) + DeleteLocal(b, id)
    decreases |a|
  {
    if a == [] {
      assert a + b == b;
    } else {
      assert (a + b)[0] == a[0];
      assert (a + b)[1..] == a[1..] + b;
      DeleteInOrder(a[1..], b, id);
    }
  }

  /** Deleting an id the list does not hold leaves the list as it is. */
  lemma {:induction false} DeleteAbsent(rows: seq<Row>, id: string)
    requires id !in Ids(rows)
    ensures DeleteLocal(rows, id) == rows
    decreases |rows|
  {
    if rows != [] {
      assert Ids(rows)[0] == rows[0].id;
      assert id !in Ids(rows[1..]) by {
        forall i | 0 <= i < |rows| - 1 ensures Ids(rows[1..])[i] != id
        {
          assert Ids(rows[1..])[i] == Ids(rows)[i + 1];
        }
      }
      DeleteAbsent(rows[1..], id);
    }
  }

  /** Deleting a freshly created post undoes the create. */
  lemma {:induction false} CreateThenDelete(rows: seq<Row>, created: Row)
    requires created.id !in Ids(rows)
    ensures DeleteLocal(CreateLocal(rows, created), created.id) == rows
  {
    var r := CreateLocal(rows, created);
    assert r[1..] == rows;
    DeleteAbsent(rows, created.id);
  }

  // ---------------------------------------------------------------- editing

  /** The content the form is given when a post is opened for editing; the
      list does not carry the real content. */
  const EditPlaceholder: string := "Blog content would be loaded here..."

  /** `handleEdit`: the form takes the entry's title, excerpt, author,
      category and published flag, its tags joined with ", ", and the
      placeholder content; the featured image keeps what the form held. */
  function EditForm(row: Row, current: AdminForm): (f: AdminForm)
    ensures f.tags.Some? && f.content == Some(EditPlaceholder)
    ensures f.featuredImage == current.featuredImage
  {
    current.(title := Some(row.title), excerpt := Some(row.excerpt), author := Some(row.author),
             category := Some(row.category), tags := Some(JoinTags(row.tags)),
             published := Some(row.published), content := Some(EditPlaceholder))
  }

  /** Opening a post with clean tags for editing and submitting the form
      unchanged gives back its tags and every other field it shows; the merge
      then changes only the content, which becomes the placeholder, and the
      featured image when the form held one. */
  lemma {:induction false} EditThenSubmit(row: Row, current: AdminForm)
    requires AllClean(row.tags)
    requires ValidForm(EditForm(row, current))
    ensures var d := ToBlogData(EditForm(row, current));
      && d.tags == row.tags
      && d.title == row.title && d.excerpt == row.excerpt && d.author == row.author
      && d.category == row.category && d.published == row.published
      && d.content == EditPlaceholder
    ensures Merge(row, ToBlogData(EditForm(row, current))) ==
      row.(content := Some(EditPlaceholder),
           featuredImage := if current.featuredImage.Some? then current.featuredImage else row.featuredImage)
  {
    JoinThenParse(row.tags);
  }
}
