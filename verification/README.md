# LIC Career site: blog, forms and intake rules in Dafny

This project models the rule-carrying core of the LIC Career recruitment
site: a Next.js application backed by MongoDB. The model covers these parts:

- **Blog posts** (`BlogModel`, `Slug`, `ReadingTime`). This covers the `Blog`
  schema's constraints and the pre-save hook. The hook derives the slug from
  the title and the reading time from a whitespace word count, and stamps
  `publishedAt` once. It also covers `incrementViews` and the three
  published-only finders, which sort newest first.
- **`/api/blogs`** (`BlogsRoute`). `GET` builds the filter from its query
  parameters (category, tag, case-insensitive search), sorts, cuts the page
  window, drops the content and computes the pagination. `POST` checks the
  required fields and fills the defaults. It then runs the hook and the
  validators, refuses a duplicate key with 400, and inserts.
- **Form validators** (`Regex`, `Schema`, `Validations`). These are the zod
  schemas of the application and contact forms, written as data and
  restated rule by rule in closed form.
- **Agent applications** (`ApplicationModel`, `SubmitApplication`, `Mail`).
  The stored record is trimmed, its email lower-cased, education is an enum,
  and a unique index allows one record per email. The intake endpoint
  validates, saves on a best-effort basis (it swallows every save error),
  fans out the notification emails and answers.
- **Contact endpoint** (`ContactRoute`). It validates the form, lists the
  sender's details with a phone line only when a phone was given, cuts the
  quoted message to 150 characters, and builds the admin subject. Its emails
  fan out the same way.
- **Admin page** (`Tags`, `AdminBlog`). This is the client-side post form
  schema. Tags are parsed from a comma-separated string and joined back for
  editing. After a create, update or delete, the page changes its own list
  of posts.
- **FAQ accordion** (`Faq`). Each click toggles an id in the list of open
  items. An item is open exactly when its id is in that list.

Strings are `seq<char>` restricted to ASCII semantics. `toLowerCase` maps
`A`–`Z` only, and `\s` and `trim` use the ASCII whitespace characters.

The environment becomes plain parameters of the handlers:

- whether a database URI is set and whether the connection succeeds;
- the outcome of a save, which the model computes from the store;
- whether a mail key is set, the admin address ("" when unset), and whether a
  send rejects;
- the id a new document receives;
- the current instant.

An email is modelled as its recipient and subject only. The e-mail format
check of zod is an opaque predicate `emailOk`.

Three decisions in the model follow the code rather than a tidier reading
of it:

- **Duplicate applications.** The intake endpoint's 409 branch for duplicate
  emails cannot be reached from the save. Every database error is caught
  inside the save block, so a second application with a stored email is
  answered 200 with a null id (`SubmitApplication.DuplicateSubmission`).
- **Hook before validation.** Mongoose runs a document's validators
  before its `pre('save')` hooks. Under that order the required `slug` path
  refuses every create, because the endpoint never sends a slug and the hook
  that derives one has not yet run (see "## Findings"). The model of the
  endpoint (`BlogsRoute.CreateBlog`) assumes the order the code evidently
  intends, hook first, which is contrary to Mongoose's documented order. Its
  201 branch, `BlogsRoute.CreateSucceedsIff` and
  `BlogsRoute.PunctuationTitleFails` all rest on that assumption. Under it, a
  title made only of punctuation and blanks passes the required-field check,
  slugifies to "", and the create answers 500.
- **Unset query parameters.** An empty query parameter counts as absent,
  because the handler tests them for JavaScript truthiness.

## Model

| member | source | states |
|---|---|---|
| Regex.LettersAndSpacesMatch | src/lib/validations.ts:7 | `^[a-zA-Z\s]+$` matches exactly the non-empty strings of ASCII letters and whitespace |
| Regex.MobileNumberMatch | src/lib/validations.ts:10 | `^[6-9]\d{9}$` matches exactly ten characters, the first 6–9 and the rest digits |
| Schema.LengthRange | src/lib/validations.ts:16-18 | a `.min(lo).max(hi)` field accepts exactly the present values with lo ≤ length ≤ hi, both ends included |
| Schema.Enumeration | src/lib/validations.ts:20-28 | a `z.enum` field accepts exactly the listed values |
| Validations.FullNameAccepts | src/lib/validations.ts:4-7 | fullName is accepted iff it has 2 to 50 characters, each an ASCII letter or whitespace |
| Validations.MobileAccepts | src/lib/validations.ts:9-10 | mobile is accepted iff it has 10 characters, the first in 6–9 and the others digits |
| Validations.MobileStartingWithFiveRejected | src/lib/validations.ts:9-10 | "5123456789" is refused |
| Validations.EmailAccepts | src/lib/validations.ts:12-14 | email is accepted iff it passes the format predicate and has at most 100 characters |
| Validations.ApplicationRules | src/lib/validations.ts:3-46 | the application schema accepts iff all eight fields are present and each meets its closed-form rule (city 2–50, reason 10–500, the three enumerations) |
| Validations.ValidIffEveryField | src/lib/validations.ts:3-46 | the application is valid iff no single field is refused |
| Validations.ApplicationIssues | src/lib/validations.ts:3-46 | the reported fields are exactly the refused ones, and none are reported iff the form is valid |
| Validations.ContactRules | src/lib/validations.ts:50-69 | the contact schema accepts iff name is 2–50, email passes the format check, phone is absent or meets the mobile rule, subject is 5–100 and message 10–1000 |
| Slug.Slugify | src/models/Blog.ts:99-102 | the derived slug has only `[a-z0-9-]`, no `--`, and no `-` at either end |
| Slug.SlugifyJoinsWords | src/models/Blog.ts:99-102 | the slug is the maximal `[a-z0-9]` runs of the lower-cased title joined by single hyphens (an independent definition) |
| Slug.EmptySlugIffNoWordChar | src/models/Blog.ts:99-102 | the slug is empty exactly when the lower-cased title has no `[a-z0-9]` character |
| Slug.SlugifyIdempotent | src/models/Blog.ts:99-102 | slugifying a slug again changes nothing |
| Slug.SlugIsFixedPoint | src/models/Blog.ts:99-102 | every well-formed slug is its own slug |
| Slug.CollapseShape | src/models/Blog.ts:101 | after replacing each run of other characters by `-`, the string is `[a-z0-9]` and single hyphens |
| Slug.CollapseEnds | src/models/Blog.ts:101 | the collapsed string is empty iff the input is, and starts (ends) with `-` iff the input starts (ends) with a character outside `[a-z0-9]` |
| Slug.CollapseIsJoin | src/models/Blog.ts:101 | on a string starting with a word, collapsing gives the words joined by `-`, plus one `-` when the string ends in separators |
| Slug.TrimHyphensGivesSlug | src/models/Blog.ts:102 | removing the edge hyphens of such a string leaves a well-formed slug |
| ReadingTime.ReadTime | src/models/Blog.ts:107-108 | the reading time is the least r ≥ 1 with word count ≤ 200·r, i.e. the ceiling of count/200 |
| ReadingTime.PiecesAreRunsPlusOne | src/models/Blog.ts:107 | `split(/\s+/)` gives one more piece than the content has maximal whitespace runs |
| ReadingTime.PiecesKeepEverythingElse | src/models/Blog.ts:107 | the pieces, concatenated, are the content without its whitespace |
| ReadingTime.PiecesAreSpaceFree | src/models/Blog.ts:107 | no piece contains whitespace |
| ReadingTime.InnerPiecesNonEmpty | src/models/Blog.ts:107 | only the first and last piece can be empty |
| ReadingTime.OneWordOneMinute | src/models/Blog.ts:107-108 | content without whitespace (including "") counts one word and reads in one minute |
| BlogModel.ParseCategory | src/models/Blog.ts:48-60 | a category string is accepted iff it is one of the seven names, and it prints back as itself |
| BlogModel.ParseName | src/models/Blog.ts:48-60 | every category's name parses back to that category |
| BlogModel.PreSave | src/models/Blog.ts:96-114 | the hook changes only slug, readTime and publishedAt. The slug is recomputed iff unset or the title changed. readTime is recomputed (and ≥ 1) iff the content changed. publishedAt changes iff `published` changed to true with no date set, and then it becomes now |
| BlogModel.PreSaveSlug | src/models/Blog.ts:98-103 | a recomputed slug is well-formed and equals the title's words joined by hyphens |
| BlogModel.PreSaveIdempotent | src/models/Blog.ts:96-114 | saving again with nothing modified leaves the post unchanged |
| BlogModel.PublishedAtSetOnce | src/models/Blog.ts:111-113 | once set, publishedAt survives any sequence of later saves, unpublishing and republishing included |
| BlogModel.PublishedAtNeedsPublishing | src/models/Blog.ts:111-113 | a publication date appears only through a save that marks the post published |
| BlogModel.IncrementViews | src/models/Blog.ts:130-133 | views grows by exactly one |
| BlogModel.IncrementViewsOnlyCounts | src/models/Blog.ts:130-133 | on a post with a slug, nothing but the view count changes |
| BlogModel.IncrementViewsKeepsStore | src/models/Blog.ts:130-133 | incrementing one stored post keeps the collection valid and changes only that post's count |
| BlogModel.SelectKeepsMatches | src/models/Blog.ts:117-127 | the filter keeps exactly the matching posts, each with its multiplicity |
| BlogModel.InsertPermutes | src/models/Blog.ts:118 | an insertion adds exactly the inserted post |
| BlogModel.InsertSorted | src/models/Blog.ts:118 | inserting into a newest-first list keeps it newest first |
| BlogModel.SortSpec | src/models/Blog.ts:118 | the sort on publishedAt descending is a permutation and is newest first, unset dates last |
| BlogModel.FindSpec | src/models/Blog.ts:117-127 | a find returns exactly the stored published posts matching the filter, with their multiplicities, newest first |
| BlogModel.FindersSpec | src/models/Blog.ts:117-127 | findPublished, findByCategory and findByTag return exactly the published posts, those of that exact category, and those carrying that tag, newest first |
| BlogsRoute.Given | src/app/api/blogs/route.ts:22-36 | a query parameter filters iff it is present and non-empty |
| BlogsRoute.QueryMeaning | src/app/api/blogs/route.ts:20-36 | a post matches the built query iff it is published, its category equals the category parameter, the tag parameter is among its tags, and the search occurs case-insensitively in title, excerpt or content; empty parameters filter nothing |
| BlogsRoute.PageCount | src/app/api/blogs/route.ts:45 | totalPages is 0 iff there are no matches, and otherwise the least n with total ≤ limit·n |
| BlogsRoute.Paginate | src/app/api/blogs/route.ts:44-58 | hasPrev iff page > 1, hasNext iff page < totalPages |
| BlogsRoute.HasNextIffMoreMatches | src/app/api/blogs/route.ts:56 | a next page is announced exactly when matches remain after this page (page·limit < total) |
| BlogsRoute.Window | src/app/api/blogs/route.ts:40-41 | skip/limit returns at most limit entries, as many as remain, the i-th being the (skip+i)-th of the input |
| BlogsRoute.ListingOmitsOnlyContent | src/app/api/blogs/route.ts:42 | a list entry plus the content gives back the post: nothing else is dropped |
| BlogsRoute.ListBlogs | src/app/api/blogs/route.ts:6-69 | the endpoint fails (500) iff the connection fails; otherwise at most limit entries, echoing page and limit |
| BlogsRoute.ListWindow | src/app/api/blogs/route.ts:17-45 | the page holds the sorted matches from position (page−1)·limit on, without content, and total counts every match |
| BlogsRoute.ListOnlyPublished | src/app/api/blogs/route.ts:20-42 | for every filter combination, each listed entry is a stored, published, matching post, and the entries are newest first |
| BlogsRoute.CreateBlog | src/app/api/blogs/route.ts:72-121 | with the hook run before the validators: statuses are 201/400/500 and only 201 stores (appending one post). A missing or empty title, content or excerpt gives 400. A created post is schema-valid, collides with no stored slug or id, and has a well-formed slug of its trimmed title, the reading time of its content, and publishedAt set iff published. Author defaults to "LIC Career Team", category to "Career Guidance", tags to [] (given tags trimmed), published to false |
| BlogsRoute.CreateSucceedsIff | src/app/api/blogs/route.ts:72-104 | a create answers 201 iff connected, title, content and excerpt are given, the category (or its default) is one of the seven, the trimmed title has 1–200 characters and a non-empty slug, the excerpt at most 300, and neither that slug nor the new id is stored |
| BlogsRoute.DuplicateSlugRejected | src/app/api/blogs/route.ts:109-114 | a create with a valid body whose slug is already stored answers 400 "Blog with this slug already exists" and stores nothing |
| BlogsRoute.PunctuationTitleFails | src/app/api/blogs/route.ts:116-119 | a title that slugifies to "" passes the required-field check but the create answers 500 |
| BlogsRoute.CreateKeepsStoreValid | src/app/api/blogs/route.ts:98 | a create keeps the collection valid: unique slugs and ids, every post schema-valid |
| BlogsRoute.CreateBlogValidatingFirst | src/models/Blog.ts:27-33 | with the validators run on the draft before the hook, no create ever answers 201 and the collection never changes |
| BlogsRoute.ValidatingFirstRefusesEveryCreate | src/models/Blog.ts:96-103 | every create the hook-first order answers 201 is answered 500 when the validators run first |
| ApplicationModel.EducationAgreesWithForm | src/models/ApplicationForm.ts:35-39 | the stored education enum accepts exactly the form's four levels, and names parse back |
| ApplicationModel.Record | src/models/ApplicationForm.ts:5-48 | the stored email is trimmed and lower-cased; name, mobile, city, occupation and reason are trimmed; salesExperience is a boolean |
| ApplicationModel.Save | src/models/ApplicationForm.ts:3-59 | a save appends the normalised record, or fails with the store unchanged: validation fails iff a required value is empty after trimming or education is outside the enum; the duplicate key fails iff the normalised email is stored |
| ApplicationModel.RecordIsValid | src/models/ApplicationForm.ts:5-48 | a record built by the setters has every string non-empty and trimmed and the email lower-case |
| ApplicationModel.SaveKeepsStoreValid | src/models/ApplicationForm.ts:59 | saving keeps at most one record per email |
| ApplicationModel.SecondSaveFails | src/models/ApplicationForm.ts:59 | a second application whose email normalises to a stored one is refused and the first record stays |
| Mail.FanOut | src/app/api/submit-application/route.ts:127-157 | no key: nothing is sent. With a key, the admin notice comes first when an address is set, then exactly one reply to the sender |
| Mail.OneEach | src/app/api/contact/route.ts:83-111 | with a key, the sender gets exactly one message, or two when the admin address is the sender's own; a distinct admin address gets one iff it is set; nobody gets anything without a key |
| SubmitApplication.ToSubmission | src/app/api/submit-application/route.ts:30-39 | salesExperience is true iff the form said "yes" |
| SubmitApplication.Submit | src/app/api/submit-application/route.ts:9-201 | statuses are 200/400/500. An invalid form gives 400 with no save and no email. A 200 needs a valid form. A returned id is the new document's and comes with exactly one appended record. A 200 without an id leaves the store unchanged. Conversely, a valid form that is storable, with a new email, a database and working mail, is answered 200 with the new id |
| SubmitApplication.SalesExperienceIsYes | src/app/api/submit-application/route.ts:37 | the stored salesExperience is true iff the form said "yes" |
| SubmitApplication.NoDatabaseStillSucceeds | src/app/api/submit-application/route.ts:16-50 | without a database URI or connection, a valid form is answered 200 with a null id and nothing saved |
| SubmitApplication.SaveFailureSwallowed | src/app/api/submit-application/route.ts:44-47 | a failed save gives the same answer as no database at all, 200 |
| SubmitApplication.DuplicateSubmission | src/app/api/submit-application/route.ts:42-47 | submitting the same form twice answers the second with 200, a null id and no new record |
| SubmitApplication.SavedRecordIsNormalised | src/app/api/submit-application/route.ts:30-42 | a returned id belongs to the appended record, which holds the normalised email |
| SubmitApplication.MessagesSent | src/app/api/submit-application/route.ts:127-157 | an invalid form sends nothing. A valid one sends nothing without a key; with a key, one confirmation to the applicant plus one notice iff an admin address is set |
| ContactRoute.Summary | src/app/api/contact/route.ts:47 | the quoted message is the message when it has at most 150 characters, else its first 150 plus "...", so at most 153 |
| ContactRoute.SummaryForgetsOnlyTheTail | src/app/api/contact/route.ts:47 | two messages share a summary iff they are equal or both exceed 150 characters and agree on the first 150 |
| ContactRoute.PhoneLineIffPhone | src/app/api/contact/route.ts:19-22 | on a valid form, the admin notice has a "Phone: " line iff a phone was given, carrying that number |
| ContactRoute.Contact | src/app/api/contact/route.ts:7-144 | statuses are 200/400/500. An invalid form gives 400 with no email. 200 iff the form is valid and mail does not fail (configured or not). Without a key, nothing is sent |
| ContactRoute.ContactMessages | src/app/api/contact/route.ts:83-120 | with working mail: 200, the notice's subject is "Contact Form: subject - name" when an admin address is set, one auto-reply to the sender, and the summary is quoted |
| Tags.SplitThenJoin | src/app/admin/blog/page.tsx:103 | splitting at commas loses nothing: joining the pieces with "," gives the string back |
| Tags.SplitAtComma | src/app/admin/blog/page.tsx:103 | the pieces of a + "," + b are those of a followed by those of b |
| Tags.ParsedTagsAreClean | src/app/admin/blog/page.tsx:103 | a parsed tag is non-empty, has no surrounding whitespace and no comma |
| Tags.ParseTagsInOrder | src/app/admin/blog/page.tsx:103 | tags keep input order: parsing a + "," + b gives a's tags then b's |
| Tags.NonEmptyKeepsOthers | src/app/admin/blog/page.tsx:103 | the filter drops only empty strings: every other string keeps its count |
| Tags.JoinThenParse | src/app/admin/blog/page.tsx:158 | non-empty, trimmed, comma-free tags joined with ", " for editing parse back to the same list |
| AdminBlog.FormRule | src/app/admin/blog/page.tsx:10-27 | the form is accepted iff title is 1–200, content and author are non-empty, excerpt is 1–300, category is one of the seven, tags is a string and published a boolean |
| AdminBlog.ToBlogData | src/app/admin/blog/page.tsx:101-104 | every tag sent is non-empty, trimmed and comma-free, and the tags are those parsed from the form's string |
| AdminBlog.EditThenSubmit | src/app/admin/blog/page.tsx:151-162 | opening a post with clean tags for editing and submitting unchanged sends back its tags, title, excerpt, author, category and published flag; the merge then changes only the content, to the placeholder, and the featured image when the form held one |
| AdminBlog.Merge | src/app/admin/blog/page.tsx:118 | merging keeps id, slug, publishedAt, views and readTime and takes every other field from the body; an absent featured image keeps the old one |
| AdminBlog.UpdateLocal | src/app/admin/blog/page.tsx:116-120 | same length; entries with the id are replaced by their merge, all others are unchanged |
| AdminBlog.UpdateKeepsIds | src/app/admin/blog/page.tsx:116-120 | an update keeps the list's ids in order, and repeating it changes nothing |
| AdminBlog.UpdateAbsent | src/app/admin/blog/page.tsx:116-120 | updating an id the list does not hold leaves it unchanged |
| AdminBlog.CreateLocal | src/app/admin/blog/page.tsx:135 | the created post goes first, followed by the old list |
| AdminBlog.CreateThenDelete | src/app/admin/blog/page.tsx:173 | deleting a freshly created post (with a new id) gives the old list back |
| AdminBlog.DeleteLocal | src/app/admin/blog/page.tsx:173 | no surviving entry has the id, and every survivor was in the list |
| AdminBlog.DeleteKeepsOthers | src/app/admin/blog/page.tsx:173 | every entry with another id keeps its number of occurrences |
| AdminBlog.DeleteInOrder | src/app/admin/blog/page.tsx:173 | deleting keeps the survivors in order: it distributes over concatenation |
| AdminBlog.DeleteAbsent | src/app/admin/blog/page.tsx:173 | deleting an id the list does not hold leaves it unchanged |
| Faq.Remove | src/components/sections/FAQ.tsx:76 | the filtered list lacks the id and keeps membership of every other id |
| Faq.ToggleFlipsOnlyThatItem | src/components/sections/FAQ.tsx:73-79 | a click flips whether that item is open and no other item's |
| Faq.RemoveInOrder | src/components/sections/FAQ.tsx:76 | the filter keeps the remaining ids in order |
| Faq.RemoveKeepsCounts | src/components/sections/FAQ.tsx:76 | every other id keeps its number of occurrences |
| Faq.ToggleKeepsNoDuplicates | src/components/sections/FAQ.tsx:74-78 | a duplicate-free open list stays duplicate-free |
| Faq.ToggleTwiceRestores | src/components/sections/FAQ.tsx:74-78 | opening a closed item and closing it again gives back exactly the original list |

## Left out

- Unicode: `toLowerCase`, `\s` and `trim` are modelled for ASCII only. Non-ASCII letters, and Unicode spaces such as U+00A0, are treated as ordinary characters.
- The search parameter is matched as a plain case-insensitive substring. Regular-expression metacharacters in it, which MongoDB would interpret, are not modelled.
- BlogsRoute.CreateBlog: the hook is assumed to run before the validators, contrary to Mongoose's documented order (see "## Findings"). The uniqueness errors (code 11000) are computed from the store: a duplicate slug or a duplicate id.
- ApplicationModel.Save: the unique email index is assumed to exist, as declared at src/models/ApplicationForm.ts:59. Line 54 first declares a non-unique index on the same key `{ email: 1 }`, and MongoDB refuses a second index with the same key and different options, so whether uniqueness is enforced is not visible in the source. The `DuplicateKey` outcome, `ApplicationModel.SaveKeepsStoreValid`, `ApplicationModel.SecondSaveFails` and `SubmitApplication.DuplicateSubmission` rest on this assumption.
- The update, delete and publish endpoints (`src/app/api/blogs/[slug]/`) are not part of this model. The admin page's calls to them appear only through the list changes it makes after a successful answer.
- Connection caching (`src/lib/mongodb.ts`) is reduced to a boolean "connected" per request.
- The Resend calls, the email HTML bodies, the sender address and the `toLocaleString` timestamp are left out. An email is its recipient and subject.
- `createdAt`/`updatedAt` timestamps are not modelled. `publishedAt` is an instant on an abstract clock.
- BlogsRoute.ListBlogs: requires page ≥ 1 and limit ≥ 1. `parseInt` yielding NaN, page 0 (a negative skip) and a zero or negative limit depend on how MongoDB treats such values and how JSON renders `Infinity`, none of which is visible here.
- BlogModel.SortNewestFirst: the order among posts with equal `publishedAt` is left to the database, so the model fixes one (store order). Properties are stated only up to that choice: newest first and a permutation.
- JSON bodies are modelled with string-or-absent fields. Non-string values, whose JavaScript truthiness differs, are left out. An unparsable body is `None` (500).
- The client IP and user agent read by the intake endpoint are never stored, so they are left out.
- The blog listing page reads `data.blogs` while the endpoint nests the list under `data.data`. That page is presentation and is not part of this model.
- Presentation files, layout, UI components and the commission table are left out: they render static content and compute nothing.
- AdminBlog: the admin page's mock initial data and its `confirm`/`alert` dialogs are left out, as they are UI only.

## Findings

| source | as written | input that shows it | evidently intended | confidence | as-written member | corrected member |
|---|---|---|---|---|---|---|
| src/models/Blog.ts:27-103 | `slug` is `required`, and the slug is derived in a `pre('save')` hook. Mongoose validates before that hook runs, so a new post without a slug is refused. | `POST /api/blogs` with `{ "title": "Hello", "content": "x", "excerpt": "y" }` on an empty collection: 500 "Failed to create blog" | the hook fills the slug before the required check (a `pre('validate')` hook), so that this create answers 201 | medium: rests on Mongoose's documented hook order; not executed | BlogsRoute.ValidatingFirstRefusesEveryCreate | BlogsRoute.CreateSucceedsIff |
