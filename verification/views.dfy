/**
 * The public pages: what each view selects from the tables (filter, order,
 * slice, paginate, look up by slug), and the contact view, which writes.
 * Rendering templates and Markdown is not part of the model; each view
 * returns the values it hands to its template.
 */
module Views {

  import opened Wrappers
  import opened Ordering
  import opened Tables
  import opened Models

  // ---------------------------------------------------------------------
  // Home page.

  predicate IsFeaturedProject(p: Project) { p.featured }
  predicate IsPublished(p: Post) { p.isPublished }
  predicate IsPublishedAndFeatured(p: Post) { p.isPublished && p.isFeatured }

  /** `featured_projects`: up to three featured projects, lowest `order` first. */
  function FeaturedProjects(projects: seq<Project>): (r: seq<Project>)
    ensures |r| <= 3
    ensures forall i :: 0 <= i < |r| ==> r[i].featured && r[i] in projects
    ensures forall i, j :: 0 <= i < j < |r| ==> r[i].order <= r[j].order
    ensures multiset(r) <= multiset(Filter(projects, IsFeaturedProject))
    ensures |r| == 3 || multiset(r) == multiset(Filter(projects, IsFeaturedProject))
  {
    TopSelection(projects, IsFeaturedProject, ByOrder, 3);
    Take(Sort(Filter(projects, IsFeaturedProject), ByOrder), 3)
  }

  /** No featured project left off the rail has a lower `order` than one shown. */
  lemma FeaturedProjectsAreFirst(projects: seq<Project>, p: Project)
    requires p in projects && p.featured && p !in FeaturedProjects(projects)
    ensures forall q :: q in FeaturedProjects(projects) ==> q.order <= p.order
  {
    var featured := Filter(projects, IsFeaturedProject);
    FilterMembership(projects, IsFeaturedProject, p);
    TopIsLeast(featured, ByOrder, 3, p);
  }

  /**
   * `all_projects`: every project once, featured ones before the others,
   * each group by ascending `order`.
   */
  function AllProjects(projects: seq<Project>): (r: seq<Project>)
    ensures multiset(r) == multiset(projects)
    ensures forall i, j :: 0 <= i < j < |r| && r[j].featured ==> r[i].featured
    ensures forall i, j :: 0 <= i < j < |r| && r[i].featured == r[j].featured ==> r[i].order <= r[j].order
  {
    SortSorted(projects, FeaturedFirst);
    Sort(projects, FeaturedFirst)
  }

  /** `recent_posts`: up to three published posts, newest first. */
  function RecentPosts(posts: seq<Post>): (r: seq<Post>)
    ensures |r| <= 3
    ensures forall i :: 0 <= i < |r| ==> r[i].isPublished && r[i] in posts
    ensures forall i, j :: 0 <= i < j < |r| ==> r[i].publishedDate >= r[j].publishedDate
    ensures multiset(r) <= multiset(Filter(posts, IsPublished))
    ensures |r| == 3 || multiset(r) == multiset(Filter(posts, IsPublished))
  {
    TopSelection(posts, IsPublished, NewestFirst, 3);
    Take(Sort(Filter(posts, IsPublished), NewestFirst), 3)
  }

  /** No published post left off `recent_posts` is newer than one shown. */
  lemma RecentPostsAreNewest(posts: seq<Post>, p: Post)
    requires p in posts && p.isPublished && p !in RecentPosts(posts)
    ensures forall q :: q in RecentPosts(posts) ==> q.publishedDate >= p.publishedDate
  {
    FilterMembership(posts, IsPublished, p);
    TopIsLeast(Filter(posts, IsPublished), NewestFirst, 3, p);
  }

  /** `skills`: every skill once, by category, then highest level, then name. */
  function SkillListing(skills: seq<Skill>): (r: seq<Skill>)
    ensures multiset(r) == multiset(skills)
    ensures Sorted(r, SkillOrder)
  {
    SkillOrderIsPreorder();
    SortSorted(skills, SkillOrder);
    Sort(skills, SkillOrder)
  }

  /** `certifications`: every certification once, latest issue date first, undated last. */
  function CertificationListing(certifications: seq<Certification>): (r: seq<Certification>)
    ensures multiset(r) == multiset(certifications)
    ensures forall i, j :: 0 <= i < j < |r| && r[j].issueDate.Some? ==>
      r[i].issueDate.Some? && r[i].issueDate.value >= r[j].issueDate.value
  {
    CertificationOrderIsPreorder();
    SortSorted(certifications, CertificationOrder);
    Sort(certifications, CertificationOrder)
  }

  /** `education`: every entry once, highest `order` first. */
  function EducationListing(education: seq<Education>): (r: seq<Education>)
    ensures multiset(r) == multiset(education)
    ensures forall i, j :: 0 <= i < j < |r| ==> r[i].order >= r[j].order
  {
    SortSorted(education, EducationOrder);
    Sort(education, EducationOrder)
  }

  /** `extracurriculars`: every entry once, highest `order` first. */
  function ExtracurricularListing(extracurriculars: seq<Extracurricular>): (r: seq<Extracurricular>)
    ensures multiset(r) == multiset(extracurriculars)
    ensures forall i, j :: 0 <= i < j < |r| ==> r[i].order >= r[j].order
  {
    SortSorted(extracurriculars, ExtracurricularOrder);
    Sort(extracurriculars, ExtracurricularOrder)
  }

  datatype HomePage = HomePage(
    siteSettings: Option<SiteSettings>, about: Option<About>, skills: seq<Skill>,
    featuredProjects: seq<Project>, allProjects: seq<Project>, education: seq<Education>,
    certifications: seq<Certification>, extracurriculars: seq<Extracurricular>, recentPosts: seq<Post>)

  /**
   * The `home` view's context: the settings and About rows (if any), and
   * each listing the page shows, taken from its own table.
   */
  function Home(store: ContentStore): (h: HomePage)
    reads store
    ensures h.siteSettings == First(store.siteSettings, SettingsId)
    ensures h.about == First(store.abouts, AboutId)
    ensures h.skills == SkillListing(store.skills)
    ensures h.featuredProjects == FeaturedProjects(store.projects)
    ensures h.allProjects == AllProjects(store.projects)
    ensures h.education == EducationListing(store.education)
    ensures h.certifications == CertificationListing(store.certifications)
    ensures h.extracurriculars == ExtracurricularListing(store.extracurriculars)
    ensures h.recentPosts == RecentPosts(store.posts)
  {
    HomePage(
      First(store.siteSettings, SettingsId), First(store.abouts, AboutId), SkillListing(store.skills),
      FeaturedProjects(store.projects), AllProjects(store.projects), EducationListing(store.education),
      CertificationListing(store.certifications), ExtracurricularListing(store.extracurriculars),
      RecentPosts(store.posts))
  }

  // ---------------------------------------------------------------------
  // Blog listing.

  const PostsPerPage: nat := 6

  /** The published posts, newest first: what the blog paginates. */
  function PublishedPosts(posts: seq<Post>): (r: seq<Post>)
    ensures multiset(r) == multiset(Filter(posts, IsPublished))
    ensures forall i :: 0 <= i < |r| ==> r[i].isPublished && r[i] in posts
    ensures forall i, j :: 0 <= i < j < |r| ==> r[i].publishedDate >= r[j].publishedDate
  {
    var published := Filter(posts, IsPublished);
    SortedSelectionMembers(posts, IsPublished, NewestFirst);
    SortSorted(published, NewestFirst);
    Sort(published, NewestFirst)
  }

  /**
   * The paginator's page count: one page even when there are no posts,
   * otherwise enough pages of six to hold them all and no more.
   */
  function PageCount(count: nat): (n: nat)
    ensures n >= 1
    ensures count > 0 ==> (n - 1) * 6 < count <= n * 6
  {
    if count == 0 then 1 else (count + PostsPerPage - 1) / PostsPerPage
  }

  /**
   * `paginator.get_page(page)`: a missing or non-integer page number gives
   * page 1; a number below 1 or past the last page gives the last page.
   * `requested` is `None` when the `page` parameter is absent or not an integer.
   */
  function PageNumber(requested: Option<int>, count: nat): (k: nat)
    ensures 1 <= k <= PageCount(count)
    ensures requested.None? ==> k == 1
    ensures requested.Some? && 1 <= requested.value <= PageCount(count) ==> k == requested.value
    ensures requested.Some? && !(1 <= requested.value <= PageCount(count)) ==> k == PageCount(count)
  {
    match requested
    case None => 1
    case Some(n) => if 1 <= n <= PageCount(count) then n else PageCount(count)
  }

  /**
   * Page `k` of a listing: the rows from position `(k - 1) * 6` on, six at
   * most, and at least one when the listing is not empty.
   */
  function PageSlice<T>(all: seq<T>, k: nat): (items: seq<T>)
    requires 1 <= k <= PageCount(|all|)
    ensures |items| <= PostsPerPage
    ensures |all| > 0 ==> |items| > 0
    ensures |all| > 0 ==> |items| == if |all| - (k - 1) * 6 < 6 then |all| - (k - 1) * 6 else 6
    ensures forall i :: 0 <= i < |items| ==> (k - 1) * 6 + i < |all| && items[i] == all[(k - 1) * 6 + i]
  {
    if |all| == 0 then []
    else
      var bottom := (k - 1) * 6;
      var top := if bottom + 6 >= |all| then |all| else bottom + 6;
      all[bottom..top]
  }

  datatype Page = Page(items: seq<Post>, number: nat, numPages: nat)

  /** One page of the published posts, newest first, six to a page. */
  function BlogPage(posts: seq<Post>, requested: Option<int>): (page: Page)
    ensures |page.items| <= PostsPerPage
    ensures 1 <= page.number <= page.numPages == PageCount(|PublishedPosts(posts)|)
    ensures page.number == PageNumber(requested, |PublishedPosts(posts)|)
    ensures page.items == PageSlice(PublishedPosts(posts), page.number)
    ensures forall i :: 0 <= i < |page.items| ==> page.items[i].isPublished && page.items[i] in posts
    ensures forall i, j :: 0 <= i < j < |page.items| ==> page.items[i].publishedDate >= page.items[j].publishedDate
    ensures |PublishedPosts(posts)| > 0 ==> |page.items| > 0
  {
    var all := PublishedPosts(posts);
    var k := PageNumber(requested, |all|);
    Page(PageSlice(all, k), k, PageCount(|all|))
  }

  /**
   * The pages partition a listing: the row at position `i` is on page
   * `i / 6 + 1`, at position `i % 6`.
   */
  lemma RowIsOnItsPage<T>(all: seq<T>, i: nat)
    requires i < |all|
    ensures 1 <= i / 6 + 1 <= PageCount(|all|)
    ensures i % 6 < |PageSlice(all, i / 6 + 1)| && PageSlice(all, i / 6 + 1)[i % 6] == all[i]
  {
    var q, r := i / 6, i % 6;
    assert i == q * 6 + r && r < 6;
    var n := PageCount(|all|);
    assert q * 6 < n * 6;
  }

  /** Every published post is on page `i / 6 + 1` of the blog, where `i` is its position in the listing. */
  lemma EveryPublishedPostIsOnItsPage(posts: seq<Post>, i: nat)
    requires i < |PublishedPosts(posts)|
    ensures var page := BlogPage(posts, Some(i / PostsPerPage + 1));
      && page.number == i / PostsPerPage + 1
      && i % PostsPerPage < |page.items|
      && page.items[i % PostsPerPage] == PublishedPosts(posts)[i]
  {
    RowIsOnItsPage(PublishedPosts(posts), i);
  }

  /**
   * Thirteen published posts make three pages: six on the first, one on the
   * third, and a page number past the end shows the third.
   */
  lemma ThirteenPublishedPosts(posts: seq<Post>)
    requires |PublishedPosts(posts)| == 13
    ensures PageCount(13) == 3
    ensures |BlogPage(posts, Some(1)).items| == 6
    ensures |BlogPage(posts, Some(3)).items| == 1
    ensures BlogPage(posts, Some(99)) == BlogPage(posts, Some(3))
    ensures BlogPage(posts, Some(0)) == BlogPage(posts, Some(3))
    ensures BlogPage(posts, None) == BlogPage(posts, Some(1))
  {
  }

  /** `featured_posts`: up to three posts both published and featured, newest first. */
  function FeaturedPosts(posts: seq<Post>): (r: seq<Post>)
    ensures |r| <= 3
    ensures forall i :: 0 <= i < |r| ==> r[i].isPublished && r[i].isFeatured && r[i] in posts
    ensures forall i, j :: 0 <= i < j < |r| ==> r[i].publishedDate >= r[j].publishedDate
    ensures multiset(r) <= multiset(Filter(posts, IsPublishedAndFeatured))
    ensures |r| == 3 || multiset(r) == multiset(Filter(posts, IsPublishedAndFeatured))
  {
    TopSelection(posts, IsPublishedAndFeatured, NewestFirst, 3);
    Take(Sort(Filter(posts, IsPublishedAndFeatured), NewestFirst), 3)
  }

  /** No published, featured post left off `featured_posts` is newer than one shown. */
  lemma FeaturedPostsAreNewest(posts: seq<Post>, p: Post)
    requires p in posts && p.isPublished && p.isFeatured && p !in FeaturedPosts(posts)
    ensures forall q :: q in FeaturedPosts(posts) ==> q.publishedDate >= p.publishedDate
  {
    FilterMembership(posts, IsPublishedAndFeatured, p);
    TopIsLeast(Filter(posts, IsPublishedAndFeatured), NewestFirst, 3, p);
  }

  datatype BlogListPage = BlogListPage(posts: Page, siteSettings: Option<SiteSettings>, featuredPosts: seq<Post>)

  /**
   * The `blog_list` view's context: the requested page of published posts,
   * the settings row (if any) and the featured posts.
   */
  function BlogList(store: ContentStore, requested: Option<int>): (b: BlogListPage)
    reads store
    ensures b.posts == BlogPage(store.posts, requested)
    ensures b.siteSettings == First(store.siteSettings, SettingsId)
    ensures b.featuredPosts == FeaturedPosts(store.posts)
  {
    BlogListPage(BlogPage(store.posts, requested), First(store.siteSettings, SettingsId), FeaturedPosts(store.posts))
  }

  // ---------------------------------------------------------------------
  // Lookups by slug.

  /** The outcome of `get_object_or_404`: one match, none (a 404), or several (an error). */
  datatype Lookup<T> = Found(value: T) | NotFound | MultipleFound

  function GetOne<T>(matches: seq<T>): Lookup<T>
  {
    if |matches| == 0 then NotFound else if |matches| == 1 then Found(matches[0]) else MultipleFound
  }

  function PublishedWithSlug(slug: string): Post -> bool
  {
    (p: Post) => p.slug == slug && p.isPublished
  }

  function ProjectWithSlug(slug: string): Project -> bool
  {
    (p: Project) => p.slug == slug
  }

  /**
   * `post_detail`: the post with this slug, and only if it is published;
   * an unpublished or unknown slug is not found.
   */
  function PostDetail(posts: seq<Post>, slug: string): (r: Lookup<Post>)
    ensures r.Found? ==> r.value in posts && r.value.slug == slug && r.value.isPublished
    ensures r.NotFound? <==> forall p :: p in posts ==> !(p.slug == slug && p.isPublished)
  {
    FilterEmpty(posts, PublishedWithSlug(slug));
    FilterSubset(posts, PublishedWithSlug(slug));
    GetOne(Filter(posts, PublishedWithSlug(slug)))
  }

  /** With unique slugs, as the store keeps them, a post lookup never finds two. */
  lemma PostDetailIsUnambiguous(posts: seq<Post>, slug: string)
    requires UniqueKeys(posts, PostSlug)
    ensures !PostDetail(posts, slug).MultipleFound?
  {
    UniqueKeyMatchesAtMostOne(posts, PublishedWithSlug(slug), PostSlug, slug);
  }

  /** `project_detail`: the project with this slug, featured or not; an unknown slug is not found. */
  function ProjectDetail(projects: seq<Project>, slug: string): (r: Lookup<Project>)
    ensures r.Found? ==> r.value in projects && r.value.slug == slug
    ensures r.NotFound? <==> forall p :: p in projects ==> p.slug != slug
  {
    FilterEmpty(projects, ProjectWithSlug(slug));
    FilterSubset(projects, ProjectWithSlug(slug));
    GetOne(Filter(projects, ProjectWithSlug(slug)))
  }

  /** With unique slugs, as the store keeps them, a project lookup never finds two. */
  lemma ProjectDetailIsUnambiguous(projects: seq<Project>, slug: string)
    requires UniqueKeys(projects, ProjectSlug)
    ensures !ProjectDetail(projects, slug).MultipleFound?
  {
    UniqueKeyMatchesAtMostOne(projects, ProjectWithSlug(slug), ProjectSlug, slug);
  }

  // ---------------------------------------------------------------------
  // Contact.

  /** An HTTP request: its method and its form fields. */
  datatype Request = Request(verb: string, form: map<string, string>)

  datatype Response = RedirectHome(flash: Option<string>) | ServerError(cause: string)

  const ThankYou: string := "Thank you for your message! I will get back to you soon."

  predicate HasContactFields(form: map<string, string>)
  {
    "name" in form && "email" in form && "subject" in form && "message" in form
  }

  /**
   * `contact`: a POST stores what was posted as a new, unread message, with
   * no validation; a field missing from the form is a NULL the table refuses,
   * and nothing is stored. The notification mail follows the write;
   * `mailSent` says whether it went out, and when it did not the message
   * stays stored but the request fails. Any other method only redirects.
   */
  method Contact(store: ContentStore, request: Request, now: int, mailSent: bool) returns (response: Response)
    requires store.Valid()
    modifies store`messages, store`nextMessageId
    ensures store.Valid()
    ensures request.verb != "POST" ==>
      && response == RedirectHome(None)
      && store.messages == old(store.messages) && store.nextMessageId == old(store.nextMessageId)
    ensures request.verb == "POST" && !HasContactFields(request.form) ==>
      && response == ServerError("integrity")
      && store.messages == old(store.messages) && store.nextMessageId == old(store.nextMessageId)
    ensures request.verb == "POST" && HasContactFields(request.form) ==>
      && store.messages == old(store.messages) + [ContactMessage(
           old(store.nextMessageId), request.form["name"], request.form["email"],
           request.form["subject"], request.form["message"], now, false)]
      && store.nextMessageId == old(store.nextMessageId) + 1
      && response == (if mailSent then RedirectHome(Some(ThankYou)) else ServerError("mail"))
  {
    if request.verb != "POST" {
      return RedirectHome(None);
    }
    if !HasContactFields(request.form) {
      return ServerError("integrity");
    }
    var form := request.form;
    var _ := store.CreateMessage(form["name"], form["email"], form["subject"], form["message"], now);
    if !mailSent {
      return ServerError("mail");
    }
    response := RedirectHome(Some(ThankYou));
  }
}
