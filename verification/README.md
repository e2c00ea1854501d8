# Portfolio site content model

A Dafny model of the `core` app of a Django portfolio and blog site. The
site keeps site settings, an "about" text, skills, projects and their
images, education, certifications, extracurricular activities, blog posts
and tags, and the messages sent through the contact form. This model covers
the logic of the app:

- **Save-time derivation.** The rules that fill a project's, tag's or post's
  slug, and a post's excerpt, at save time. Also the technologies column.
- **Store rules.** The database rules the app depends on: unique slugs (and
  unique tag names), per-table primary keys, and images deleted along with
  their project.
- **Public views.** The selections behind the home page, the paginated blog
  listing and the featured rails. The slug lookups of the detail pages. The
  insert performed by the contact view.
- **Admin.** The computed list columns. The bulk actions on skills and
  contact messages. The single-row rule for site settings.
- **Contact form.** The checks on the email and message fields.

## Layout

| file | module | contents |
|---|---|---|
| `wrappers.dfy` | `Wrappers` | `Option`, `Result` |
| `text.dfy` | `Text` | Python's `str.strip`, `str.split` on one character, `join`, lexicographic order |
| `ordering.dfy` | `Ordering` | filter, stable sort by a comparator, slice `[:n]` |
| `tables.dfy` | `Tables` | unique columns, primary keys, insert-or-update by key, `first()` |
| `models.dfy` | `Models` | records, default orderings, save-time derivation, the `ContentStore` class |
| `views.dfy` | `Views` | the view selections, pagination, lookups, `contact` |
| `admin.dfy` | `Admin` | list columns, bulk actions, site-settings permission |
| `forms.dfy` | `Forms` | `clean_email`, `clean_message` |

### Representation choices

- **Tables.** Each table is a sequence of records, in insertion order, held
  in a field of `ContentStore`. Writes reassign those fields.
- **Primary keys.** A record's `id` is its primary key; `0` stands for an
  instance that has not been saved yet. Each of the five tables the model
  inserts into (site settings, projects, contact messages, tags and posts)
  has its own key counter, and a new row takes the counter's value.
- **Dates.** Dates and times are integers. Nullable dates are `Option<int>`.
- **Inputs from outside.** Django's `slugify` is a function parameter. The
  current time and the mail transport's success are parameters as well.
- **Database refusals.** A write that breaks a UNIQUE constraint returns
  `UniqueViolation(column)` and leaves the table as it was.
- **Query results.** The database's `ORDER BY` is a stable sort by the
  ordering's comparator. `[:n]` is `Take`. `get_object_or_404` is a `Lookup`
  that is `Found`, `NotFound` or `MultipleFound`.

### Behaviour of the code worth noting

- **Excerpt.** The excerpt gets `"..."` when the first 150 characters of
  the content are exactly 150 long. So content of exactly 150 characters
  gets it too, not only longer content (`core/models.py:157-158`).
- **Contact view.** The view does not use `ContactForm`: it stores whatever
  was posted. A field missing from the POST data is written as NULL, which
  the NOT NULL column refuses. `Views.Contact` therefore performs no
  validation, and `Forms` models the form's checks on their own.
- **Page numbers.** The page number is clamped as Django's
  `Paginator.get_page` clamps it. A number below 1 or past the end gives
  the last page. A missing or non-integer one gives page 1.

## Model

| member | source | states |
|---|---|---|
| Models.DeriveExcerpt | core/models.py:156-158 | the excerpt is the content's first 150 characters plus "..." when the content has 150 or more characters, the content itself otherwise; at most 153 characters; empty exactly when the content is |
| Models.ProjectSlugDerivedOnce | core/models.py:50-53 | saving a project fills an empty slug with `slugify(title)`, keeps a non-empty slug even if the title changed, and changes nothing else |
| Models.TagSlugDerivedOnce | core/models.py:126-129 | the same rule for tags, from the name |
| Models.PostSaveDerivation | core/models.py:153-159 | saving a post fills an empty slug from the title, keeps a non-empty excerpt, leaves the excerpt empty when the content is empty, derives it otherwise, stamps `updated_date`, and changes nothing else |
| Models.PostSaveIdempotent | core/models.py:153-159 | saving a saved post again yields the same slug and excerpt; only `updated_date` moves |
| Models.TechnologiesList | core/models.py:55-56 | the list has one entry per comma plus one, and entry `i` is the `i`-th comma-separated piece stripped |
| Models.TechnologiesRebuildColumn | core/models.py:55-56 | the list is never empty, and the pieces joined with commas give back the column |
| Text.Strip | core/models.py:56 | `str.strip` returns the middle of the string: everything cut off on either side is whitespace, and the result neither starts nor ends with whitespace |
| Text.LeadingSpace | core/models.py:56 | the count of leading characters cut is a run of whitespace followed by a non-whitespace character or the end |
| Text.TrailingSpace | core/models.py:56 | the count of trailing characters cut is a run of whitespace preceded by a non-whitespace character or the start |
| Text.StripIdempotent | core/models.py:56 | stripping twice is stripping once |
| Text.JoinSplit | core/models.py:56 | `split(',')` loses nothing: joining the pieces with the separator gives back the string |
| Text.SplitJoin | core/models.py:56 | splitting a join of separator-free pieces gives back the pieces |
| Models.PostUrl | core/models.py:161-162 | `get_absolute_url` is `/blog/<slug>/` and exists exactly when the slug matches the URL's slug pattern |
| Models.SkillOrderIsPreorder | core/models.py:36 | the skill ordering (category, then level descending, then name) is total and transitive, so sorting by it is well defined |
| Models.CertificationOrderIsPreorder | core/models.py:102 | the certification ordering (latest issue date first, undated last) is total and transitive |
| Models.ContentStore.SaveProject | core/models.py:38-53 | an empty slug is derived, then the project is inserted with a fresh key or updated in place by key; when another project has the slug the save is refused with a slug violation and nothing changes; the table invariant (unique keys, unique slugs, images refer to projects) is kept |
| Models.ContentStore.SaveTag | core/models.py:122-129 | as for projects, refusing a duplicate name first and then a duplicate slug |
| Models.ContentStore.PreparePost | core/models.py:153-158 | the field updates `Post.save` makes one after another (slug, then excerpt, then `updated_date`) give the prepared post |
| Models.ContentStore.SavePost | core/models.py:153-159 | the post is prepared as `Post.save` prepares it, then written or refused on a duplicate slug, keeping keys and slugs unique |
| Models.ContentStore.DeleteProject | core/models.py:62 | the project and every image that refers to it are removed; every other project and image stays, in order |
| Models.DeleteProjectKeepsTables | core/models.py:62 | after the cascade, every remaining image still refers to a remaining project |
| Models.ContentStore.CreateMessage | core/models.py:69-75 | a new message row with the given values, a fresh key, the creation time and `read` false is appended |
| Tables.UpsertContents | core/models.py:53 | a save by key leaves the saved row in the table, keeps every row with another key, and adds nothing else |
| Tables.First | core/views.py:11-12 | `first()` is empty exactly for an empty table and otherwise a row with the smallest key |
| Views.FeaturedProjects | core/views.py:14 | at most three featured projects from the table, in ascending `order`, none shown more often than it occurs; all featured projects when there are fewer than three |
| Views.FeaturedProjectsAreFirst | core/views.py:14 | a featured project left out has an `order` no lower than any shown |
| Views.AllProjects | core/views.py:15 | every project exactly once, featured before non-featured, each group by ascending `order` |
| Views.RecentPosts | core/views.py:19 | at most three published posts from the table, newest first, none shown more often than it occurs; all of them when there are fewer than three |
| Views.RecentPostsAreNewest | core/views.py:19 | a published post left out is no newer than any shown |
| Views.Home | core/views.py:9-21 | plain assembly of the `home` context: each field is the listing of its own table (first settings and About rows, the skill, featured-project, all-project, education, certification and extracurricular listings, the three recent posts) |
| Views.SkillListing | core/views.py:13 | every skill exactly once, sorted by the skill ordering |
| Views.EducationListing | core/models.py:88-89 | every entry exactly once, highest `order` first |
| Views.CertificationListing | core/models.py:101-102 | every certification exactly once, latest issue date first, undated ones after dated ones |
| Views.ExtracurricularListing | core/models.py:116-117 | every entry exactly once, highest `order` first |
| Views.PublishedPosts | core/views.py:24 | exactly the published posts, newest first |
| Views.PageCount | core/views.py:25 | one page when there are no posts, otherwise the fewest pages of six that hold them all |
| Views.PageNumber | core/views.py:27-28 | the page shown is always a real page: the requested one when it is in range, page 1 when none or a non-integer was given, the last page otherwise |
| Views.PageSlice | core/views.py:25-28 | page `k` holds at most six rows, the rows from position `(k - 1) * 6` on, and at least one when the listing is not empty |
| Views.BlogPage | core/views.py:23-28 | the page shown is the one `Views.PageNumber` picks for the requested number; it holds that page's slice of the published posts (at most six, newest first) and is never empty while there are published posts |
| Views.RowIsOnItsPage | core/views.py:25-28 | in any listing, the row at position `i` is on page `i / 6 + 1`, a real page, at position `i % 6` |
| Views.EveryPublishedPostIsOnItsPage | core/views.py:25-28 | the post at position `i` of the listing is on page `i / 6 + 1` at position `i % 6`, so the pages of one fixed listing together show every published post; for the program this holds when published dates are distinct, or when every page query orders tied posts the same way |
| Views.ThirteenPublishedPosts | core/views.py:25-28 | with thirteen published posts there are three pages: six posts on page 1, one on page 3; page 99 and page 0 show page 3, and a missing page number shows page 1 |
| Views.FeaturedPosts | core/views.py:33 | at most three posts, each published and featured, newest first (the `Post` default ordering), none shown more often than it occurs; all such posts when there are fewer than three |
| Views.FeaturedPostsAreNewest | core/views.py:33 | a published, featured post left out is no newer than any shown |
| Views.BlogList | core/views.py:23-35 | plain assembly of the `blog_list` context: `posts` is the requested page of published posts, `site_settings` the first settings row, `featured_posts` the featured listing |
| Views.PostDetail | core/views.py:38 | a post is found only if its slug matches and it is published; not found exactly when no published post has the slug |
| Views.PostDetailIsUnambiguous | core/views.py:38 | with unique slugs the post lookup never finds two |
| Views.ProjectDetail | core/views.py:57 | the project with the slug is found whether featured or not; not found exactly when no project has the slug |
| Views.ProjectDetailIsUnambiguous | core/views.py:57 | with unique slugs the project lookup never finds two |
| Views.Contact | core/views.py:64-91 | a POST carrying all four fields appends exactly one unread message with those values under the next key, moves the key counter on by one, and redirects with the thank-you note, or fails after storing it when the mail does not go out; a POST missing a field stores nothing, hands out no id and fails; any other method only redirects and changes nothing; the store invariant holds throughout |
| Admin.SubjectPreview | core/admin.py:133-134 | subjects of at most 50 characters are shown unchanged; longer ones as their first 50 characters followed by "...", 53 in all |
| Admin.TechnologyCount | core/admin.py:86-87 | the count is the number of commas plus one, so at least one |
| Admin.PreviewLink | core/admin.py:43-49 | an unsaved post shows "Save post first to preview"; a saved post links to `/blog/<slug>/` when that URL exists, and fails to build it otherwise |
| Admin.ResetLevels | core/admin.py:108-109 | selected skills get level 50 and keep every other field; unselected skills are unchanged |
| Admin.ResetLevelsIdempotent | core/admin.py:108-109 | resetting the same selection twice is resetting it once |
| Admin.ResetRows | core/admin.py:109 | updating row by row yields the reset table and counts the rows the selection matches |
| Admin.ResetSkillLevels | core/admin.py:108-110 | the skills table becomes the reset table and the reported count is the number of selected skills; the store invariant holds |
| Admin.CountSelectedIsSelectedKeys | core/admin.py:109 | with unique keys the reported count is the number of selected keys present in the table |
| Admin.CountSelectedOfPresentKeys | core/admin.py:109-110 | selecting rows that exist, the reported count equals the number of rows selected |
| Admin.WithReadFlag | core/admin.py:151-158 | exactly the selected messages get the new `read` flag and keep every other field; the rest are unchanged |
| Admin.WithReadFlagIdempotent | core/admin.py:151-158 | marking the same selection twice is marking it once |
| Admin.FlagRows | core/admin.py:152 | updating row by row yields the table with the new `read` flag on the selection and counts the rows the selection matches |
| Admin.SetReadFlag | core/admin.py:151-158 | the store's messages table becomes the flagged table; keys stay unique and the store invariant holds |
| Admin.MarkAsRead | core/admin.py:151-153 | the messages table becomes the table with the selection marked read; the count is the number of selected messages |
| Admin.MarkAsUnread | core/admin.py:156-158 | the messages table becomes the table with the selection marked unread; the count is the number of selected messages |
| Admin.HasAddPermission | core/admin.py:163-164 | adding is permitted exactly when the site settings table is empty |
| Admin.AddSiteSettings | core/admin.py:161-164 | an admin addition succeeds only on an empty table and then leaves exactly one row, the submitted settings under the next primary key, and the key counter moves on by one; otherwise nothing changes, the key counter included, so admin additions never make a second row |
| Forms.CleanEmail | core/forms.py:33-37 | an email is accepted exactly when present and non-empty, and then unchanged; otherwise the error is "Email is required." |
| Forms.CleanMessage | core/forms.py:39-45 | a message is accepted exactly when present with at least 10 characters, and then unchanged; a missing or empty one is "Message is required." (never the length error); a shorter non-empty one is "Message should be at least 10 characters long." |

## Left out

- Markdown rendering and the table of contents in `post_detail` come from a third-party library. The model returns the post without its HTML.
- Sending the notification mail, rendering templates, redirect targets and flash messages are I/O. The mail's success is a parameter of `Views.Contact`, and the response names only the outcome.
- HTML produced by the admin (`skill_bar`, `reply_action`, `reply_link`, `image_preview`, the preview link's markup) is presentation. So are list displays, filters, fieldsets and widgets. `Admin.PreviewLink` returns the URL, not the anchor tag.
- The PostAdmin list display names `view_count`, which Post does not have. That is admin configuration and is not modelled.
- The front-end script, the URL table and the seeding command are not part of this model. Only the blog post URL's shape is modelled (`Models.PostUrl`), with the app assumed mounted at the site root. `core/urls.py` names view classes (`HomeView`, `PostDetailView` and others) that `core/views.py` does not define, so `Models.PostUrl` assumes a URL configuration that loads, with the `blog/<slug:slug>/` route that table gives `post_detail`.
- Django's `slugify`, the `Paginator`'s parsing of the page parameter, `EmailField` syntax checks and the automatic timestamps are outside inputs. They are a function parameter, `Option<int>` and `now` parameters.
- Image and file fields are storage concerns and are not modelled: the profile image, the résumé, project images' files and the post header image.
- The post–tag many-to-many relation is not modelled.
- Field length limits (`max_length`) are not modelled.
- Views.SkillListing, Views.AllProjects, Views.FeaturedProjects, Views.RecentPosts, Views.FeaturedPosts, Views.PublishedPosts, Views.BlogPage, Views.EducationListing, Views.ExtracurricularListing, Views.CertificationListing: rows that tie on every ordering column keep table order here. The database leaves their order unspecified. Ties are common for education and extracurricular entries, whose `order` defaults to 0.
- Views.BlogPage, Views.EveryPublishedPostIsOnItsPage: every page of the blog is its own `LIMIT 6 OFFSET …` query. When published posts share a `published_date`, the database may order them differently from one query to the next, so one of them can appear on two pages and another on none. The model pages a single fixed order, so it does not capture this.
- Views.CertificationListing: the model follows SQLite, where NULL sorts lowest, so undated certifications come last in the descending issue-date order. PostgreSQL sorts NULL highest and would list them first.
- Views.SkillListing: skill names are compared character by character by code point, as SQLite's default BINARY collation does. A database using a locale collation would order names differently (for example, ignoring case).
- Models.ContentStore.SaveTag: when both the name and the slug are taken, the name is the one reported. The database may report either constraint.
- Models.ContentStore.SaveProject, Models.ContentStore.SaveTag, Models.ContentStore.SavePost: a save with an explicit key that is not in the table inserts a row with that key, as Django's update-then-insert does. Concurrent writers are not modelled.
- Views.Contact: a field missing from the POST data is modelled as the insert failing on the NOT NULL column. The database's error text and any partial transaction state are not modelled.
- Admin.ResetSkillLevels, Admin.MarkAsRead, Admin.MarkAsUnread: the selection is a set of primary keys. The admin's checkbox selection and the confirmation message are not modelled.
