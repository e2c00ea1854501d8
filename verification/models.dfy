/**
 * The content model: one record type per table, the tables' default
 * orderings, the values `save()` derives before writing (slug, excerpt),
 * the technologies accessor, and the store that holds the tables and
 * enforces their UNIQUE columns and the Project -> ProjectImage cascade.
 *
 * A primary key of 0 stands for Python's `None`: a record not saved yet.
 * Dates and times are integers. `slugify` is a parameter: the model fixes
 * only that the same text always gives the same slug.
 */
module Models {

  import opened Wrappers
  import opened Text
  import opened Ordering
  import opened Tables

  datatype SiteSettings = SiteSettings(id: nat, siteName: string, heroTitle: string, heroSubtitle: string)

  datatype About = About(id: nat, content: string)

  datatype Category = Eng | Prog | Design | Soft
  {
    /** The value stored in the `category` column. */
    function Code(): string
    {
      match this
      case Eng => "ENG"
      case Prog => "PROG"
      case Design => "DESIGN"
      case Soft => "SOFT"
    }
  }

  datatype Skill = Skill(id: nat, name: string, level: nat, category: Category, order: nat)

  datatype Project = Project(
    id: nat, title: string, slug: string, shortDescription: string, longDescription: string,
    featured: bool, technologies: string, githubUrl: string, demoUrl: string, order: nat,
    completionDate: Option<int>)

  /** An image of a project; `project` is the owning project's primary key. */
  datatype ProjectImage = ProjectImage(id: nat, project: nat, caption: string)

  datatype ContactMessage = ContactMessage(
    id: nat, name: string, email: string, subject: string, message: string, createdAt: int, read: bool)

  datatype Education = Education(
    id: nat, degree: string, institution: string, period: string, description: string, current: bool, order: nat)

  datatype Certification = Certification(
    id: nat, title: string, issuer: string, issueDate: Option<int>, credentialUrl: string, inProgress: bool)

  datatype Extracurricular = Extracurricular(
    id: nat, title: string, organization: string, role: string, period: string, description: string,
    current: bool, order: nat)

  datatype Tag = Tag(id: nat, name: string, slug: string)

  datatype Post = Post(
    id: nat, title: string, slug: string, author: string, markdownContent: string, excerpt: string,
    publishedDate: int, updatedDate: int, isPublished: bool, isFeatured: bool)

  // Column accessors, used as the keys of the generic table lemmas.
  function ProjectId(p: Project): nat { p.id }
  function ProjectSlug(p: Project): string { p.slug }
  function ImageId(im: ProjectImage): nat { im.id }
  function TagId(t: Tag): nat { t.id }
  function TagSlug(t: Tag): string { t.slug }
  function TagName(t: Tag): string { t.name }
  function PostId(p: Post): nat { p.id }
  function PostSlug(p: Post): string { p.slug }
  function SkillId(s: Skill): nat { s.id }
  function MessageId(m: ContactMessage): nat { m.id }
  function SettingsId(s: SiteSettings): nat { s.id }
  function AboutId(a: About): nat { a.id }

  function ProjectIds(projects: seq<Project>): set<nat>
  {
    set p | p in projects :: p.id
  }

  // ---------------------------------------------------------------------
  // Default orderings (Meta.ordering) and the orderings the views ask for.

  /** `Skill.Meta.ordering = ['category', '-level', 'name']`. */
  predicate SkillOrder(a: Skill, b: Skill)
  {
    if a.category != b.category then LexLeq(a.category.Code(), b.category.Code())
    else if a.level != b.level then a.level > b.level
    else LexLeq(a.name, b.name)
  }

  /** `Post.Meta.ordering = ['-published_date']`, also `order_by('-published_date')`. */
  predicate NewestFirst(a: Post, b: Post)
  {
    a.publishedDate >= b.publishedDate
  }

  /** `order_by('order')` on projects. */
  predicate ByOrder(a: Project, b: Project)
  {
    a.order <= b.order
  }

  /** `order_by('-featured', 'order')`: featured projects first, then by `order`. */
  predicate FeaturedFirst(a: Project, b: Project)
  {
    if a.featured != b.featured then a.featured else a.order <= b.order
  }

  /** `Education.Meta.ordering = ['-order']`. */
  predicate EducationOrder(a: Education, b: Education)
  {
    a.order >= b.order
  }

  /** `Extracurricular.Meta.ordering = ['-order']`. */
  predicate ExtracurricularOrder(a: Extracurricular, b: Extracurricular)
  {
    a.order >= b.order
  }

  /**
   * `Certification.Meta.ordering = ['-issue_date']`, with rows lacking a
   * date last, as a database that sorts NULL lowest puts them.
   */
  predicate CertificationOrder(a: Certification, b: Certification)
  {
    match (a.issueDate, b.issueDate)
    case (Some(x), Some(y)) => x >= y
    case (Some(_), None) => true
    case (None, Some(_)) => false
    case (None, None) => true
  }

  lemma CategoryCodesDistinct(a: Category, b: Category)
    requires a != b
    ensures a.Code() != b.Code()
  {
    assert a.Code()[0] != b.Code()[0];
  }

  /** The skill ordering is a total preorder, so sorting by it is well defined. */
  lemma SkillOrderIsPreorder()
    ensures Preorder(SkillOrder)
  {
    forall a: Skill, b: Skill
      ensures SkillOrder(a, b) || SkillOrder(b, a)
    {
      LexLeqTotal(a.category.Code(), b.category.Code());
      LexLeqTotal(a.name, b.name);
    }
    forall a: Skill, b: Skill, c: Skill | SkillOrder(a, b) && SkillOrder(b, c)
      ensures SkillOrder(a, c)
    {
      var ca, cb, cc := a.category.Code(), b.category.Code(), c.category.Code();
      if a.category != b.category {
        CategoryCodesDistinct(a.category, b.category);
      }
      if b.category != c.category {
        CategoryCodesDistinct(b.category, c.category);
      }
      if a.category != c.category {
        CategoryCodesDistinct(a.category, c.category);
        if a.category == b.category {
          assert LexLeq(ca, cc);
        } else if b.category == c.category {
          assert LexLeq(ca, cc);
        } else {
          LexLeqTransitive(ca, cb, cc);
        }
      } else if a.category != b.category {
        // a and c share a category that b does not: the codes order both ways.
        LexLeqAntisymmetric(ca, cb);
      } else if a.level == b.level && b.level == c.level {
        LexLeqTransitive(a.name, b.name, c.name);
      }
    }
  }

  lemma CertificationOrderIsPreorder()
    ensures Preorder(CertificationOrder)
  {
  }

  // ---------------------------------------------------------------------
  // Values derived at save time.

  const ExcerptLength: nat := 150
  const Ellipsis: string := "..."

  /**
   * The excerpt `Post.save` derives from the Markdown source: its first 150
   * characters, with "..." added when those 150 characters are all there,
   * that is when the source is 150 characters or longer.
   */
  function DeriveExcerpt(content: string): (r: string)
    ensures |r| <= ExcerptLength + |Ellipsis|
    ensures |content| >= ExcerptLength ==> r == content[..ExcerptLength] + Ellipsis
    ensures |content| < ExcerptLength ==> r == content
    ensures r == [] <==> content == []
  {
    var plain := Take(content, ExcerptLength);
    if |plain| == ExcerptLength then plain + Ellipsis else plain
  }

  /** What `Project.save` does to the instance before writing: fill an empty slug from the title. */
  function PreparedProject(p: Project, slugify: string -> string): Project
  {
    if p.slug == [] then p.(slug := slugify(p.title)) else p
  }

  /** What `Tag.save` does to the instance before writing: fill an empty slug from the name. */
  function PreparedTag(t: Tag, slugify: string -> string): Tag
  {
    if t.slug == [] then t.(slug := slugify(t.name)) else t
  }

  /**
   * What `Post.save` does to the instance before writing: fill an empty slug
   * from the title, an empty excerpt from non-empty content, and stamp
   * `updated_date` (`auto_now`) with the time of the save.
   */
  function PreparedPost(p: Post, slugify: string -> string, now: int): Post
  {
    var withSlug := if p.slug == [] then p.(slug := slugify(p.title)) else p;
    var withExcerpt :=
      if withSlug.excerpt == [] && withSlug.markdownContent != []
      then withSlug.(excerpt := DeriveExcerpt(withSlug.markdownContent))
      else withSlug;
    withExcerpt.(updatedDate := now)
  }

  /**
   * A slug is derived once: an empty one becomes `slugify(title)`, a
   * non-empty one is kept whatever the title now says.
   */
  lemma ProjectSlugDerivedOnce(p: Project, slugify: string -> string)
    ensures var q := PreparedProject(p, slugify);
      && (p.slug == [] ==> q.slug == slugify(p.title))
      && (p.slug != [] ==> q.slug == p.slug)
      && q == p.(slug := q.slug)
  {
  }

  lemma TagSlugDerivedOnce(t: Tag, slugify: string -> string)
    ensures var u := PreparedTag(t, slugify);
      && (t.slug == [] ==> u.slug == slugify(t.name))
      && (t.slug != [] ==> u.slug == t.slug)
      && u == t.(slug := u.slug)
  {
  }

  /**
   * `Post.save` changes the slug only when it is empty, the excerpt only when
   * it is empty and there is content, and nothing but those and `updated_date`.
   */
  lemma PostSaveDerivation(p: Post, slugify: string -> string, now: int)
    ensures var q := PreparedPost(p, slugify, now);
      && q.slug == (if p.slug == [] then slugify(p.title) else p.slug)
      && (p.excerpt != [] ==> q.excerpt == p.excerpt)
      && (p.markdownContent == [] ==> q.excerpt == p.excerpt)
      && (p.excerpt == [] && p.markdownContent != [] ==> q.excerpt == DeriveExcerpt(p.markdownContent))
      && q == p.(slug := q.slug, excerpt := q.excerpt, updatedDate := now)
  {
  }

  /** Saving a post again derives nothing new: the slug and the excerpt stay as the first save left them. */
  lemma PostSaveIdempotent(p: Post, slugify: string -> string, now: int, later: int)
    ensures PreparedPost(PreparedPost(p, slugify, now), slugify, later) == PreparedPost(p, slugify, later)
  {
  }

  /** `Project.get_technologies_list`: the comma-separated pieces, each stripped. */
  function TechnologiesList(p: Project): (r: seq<string>)
    ensures |r| == Occurrences(p.technologies, ',') + 1
    ensures forall i :: 0 <= i < |r| ==> r[i] == Strip(Split(p.technologies, ',')[i])
  {
    var pieces := Split(p.technologies, ',');
    seq(|pieces|, i requires 0 <= i < |pieces| => Strip(pieces[i]))
  }

  /** The pieces of the technologies column put back together give the column. */
  lemma TechnologiesRebuildColumn(p: Project)
    ensures |TechnologiesList(p)| >= 1
    ensures Join(Split(p.technologies, ','), ',') == p.technologies
  {
    JoinSplit(p.technologies, ',');
  }

  /**
   * The URL of a post, `reverse('post_detail', kwargs={'slug': slug})` for
   * the route `blog/<slug:slug>/`, assuming the app is mounted at the site
   * root. The slug converter accepts only non-empty runs of ASCII letters,
   * digits, hyphens and underscores; for any other slug `reverse` fails.
   */
  function PostUrl(slug: string): (r: Option<string>)
    ensures r.Some? <==> IsSlug(slug)
    ensures r.Some? ==> r.value == "/blog/" + slug + "/"
  {
    if IsSlug(slug) then Some("/blog/" + slug + "/") else None
  }

  predicate IsSlugChar(c: char)
  {
    'a' <= c <= 'z' || 'A' <= c <= 'Z' || '0' <= c <= '9' || c == '-' || c == '_'
  }

  predicate IsSlug(s: string)
  {
    s != [] && forall i :: 0 <= i < |s| ==> IsSlugChar(s[i])
  }

  // ---------------------------------------------------------------------
  // The store.

  /** A write the database refuses: a UNIQUE column would hold a value twice. */
  datatype StoreError = UniqueViolation(column: string)

  function Max(a: nat, b: nat): nat
  {
    if a < b then b else a
  }

  /** Site settings rows: keyed by the table's own sequence. */
  ghost predicate SettingsTableValid(rows: seq<SiteSettings>, next: nat)
  {
    Keyed(rows, SettingsId, next)
  }

  /** Projects and their images: keyed, unique slugs, no image without its project. */
  ghost predicate ProjectTablesValid(projects: seq<Project>, next: nat, images: seq<ProjectImage>)
  {
    && Keyed(projects, ProjectId, next) && UniqueKeys(projects, ProjectSlug)
    && UniqueKeys(images, ImageId)
    && forall i :: 0 <= i < |images| ==> images[i].project in ProjectIds(projects)
  }

  ghost predicate TagTableValid(tags: seq<Tag>, next: nat)
  {
    Keyed(tags, TagId, next) && UniqueKeys(tags, TagSlug) && UniqueKeys(tags, TagName)
  }

  ghost predicate PostTableValid(posts: seq<Post>, next: nat)
  {
    Keyed(posts, PostId, next) && UniqueKeys(posts, PostSlug)
  }

  /** The tables the invariant speaks about, as one value. */
  datatype KeyedTables = KeyedTables(
    siteSettings: seq<SiteSettings>, nextSettingsId: nat,
    skills: seq<Skill>,
    projects: seq<Project>, nextProjectId: nat, images: seq<ProjectImage>,
    messages: seq<ContactMessage>, nextMessageId: nat,
    tags: seq<Tag>, nextTagId: nat,
    posts: seq<Post>, nextPostId: nat)
  {
    /**
     * Primary keys are unique; slugs of projects, tags and posts and names
     * of tags are unique; every image belongs to an existing project.
     */
    ghost predicate Valid()
    {
      && SettingsTableValid(siteSettings, nextSettingsId)
      && UniqueKeys(skills, SkillId)
      && ProjectTablesValid(projects, nextProjectId, images)
      && Keyed(messages, MessageId, nextMessageId)
      && TagTableValid(tags, nextTagId)
      && PostTableValid(posts, nextPostId)
    }
  }

  /**
   * The tables of the site. Each table whose rows the model inserts has
   * its own primary key sequence (`next...Id`), as the database keeps one
   * per table.
   */
  class ContentStore {
    var siteSettings: seq<SiteSettings>
    var abouts: seq<About>
    var skills: seq<Skill>
    var projects: seq<Project>
    var images: seq<ProjectImage>
    var messages: seq<ContactMessage>
    var education: seq<Education>
    var certifications: seq<Certification>
    var extracurriculars: seq<Extracurricular>
    var tags: seq<Tag>
    var posts: seq<Post>
    var nextSettingsId: nat
    var nextProjectId: nat
    var nextMessageId: nat
    var nextTagId: nat
    var nextPostId: nat

    /** The invariant of the tables; see `KeyedTables.Valid`. */
    ghost predicate Valid()
      reads this
    {
      Keys().Valid()
    }

    /** The tables that carry an invariant, with their key sequences. */
    ghost function Keys(): KeyedTables
      reads this
    {
      KeyedTables(siteSettings, nextSettingsId, skills, projects, nextProjectId, images,
                  messages, nextMessageId, tags, nextTagId, posts, nextPostId)
    }

    constructor ()
      ensures Valid()
      ensures siteSettings == [] && abouts == [] && skills == [] && projects == [] && images == []
      ensures messages == [] && education == [] && certifications == [] && extracurriculars == []
      ensures tags == [] && posts == []
    {
      siteSettings, abouts, skills, projects, images := [], [], [], [], [];
      messages, education, certifications, extracurriculars := [], [], [], [];
      tags, posts := [], [];
      nextSettingsId, nextProjectId, nextMessageId, nextTagId, nextPostId := 1, 1, 1, 1, 1;
    }

    /**
     * `Project.save()`: an empty slug is filled from the title, then the row
     * is written, unless another project already has that slug.
     * `saved` is the instance afterwards; it gets its primary key only when
     * the write succeeds.
     */
    method SaveProject(project: Project, slugify: string -> string) returns (saved: Project, err: Option<StoreError>)
      requires Valid()
      modifies this`projects, this`nextProjectId
      ensures Valid()
      ensures var p := PreparedProject(project, slugify);
        if KeyFree(old(projects), ProjectSlug, p.slug, ProjectId, p.id) then
          && err == None
          && saved == (if p.id == 0 then p.(id := old(nextProjectId)) else p)
          && projects == Upsert(old(projects), saved, ProjectId)
          && nextProjectId == Max(old(nextProjectId), saved.id + 1)
        else
          && err == Some(UniqueViolation("slug"))
          && saved == p
          && projects == old(projects) && nextProjectId == old(nextProjectId)
    {
      saved := project;
      if saved.slug == [] {
        saved := saved.(slug := slugify(saved.title));
      }
      if !KeyFree(projects, ProjectSlug, saved.slug, ProjectId, saved.id) {
        err := Some(UniqueViolation("slug"));
        return;
      }
      if saved.id == 0 {
        KeyFreeForNewRow(projects, ProjectSlug, saved.slug, ProjectId, nextProjectId);
        saved := saved.(id := nextProjectId);
      }
      SaveProjectKeepsTables(projects, nextProjectId, images, saved);
      projects := Upsert(projects, saved, ProjectId);
      nextProjectId := Max(nextProjectId, saved.id + 1);
      err := None;
    }

    /**
     * `Tag.save()`: an empty slug is filled from the name, then the row is
     * written, unless another tag already has that name or that slug.
     */
    method SaveTag(tag: Tag, slugify: string -> string) returns (saved: Tag, err: Option<StoreError>)
      requires Valid()
      modifies this`tags, this`nextTagId
      ensures Valid()
      ensures var t := PreparedTag(tag, slugify);
        if !KeyFree(old(tags), TagName, t.name, TagId, t.id) then
          err == Some(UniqueViolation("name")) && saved == t && tags == old(tags) && nextTagId == old(nextTagId)
        else if !KeyFree(old(tags), TagSlug, t.slug, TagId, t.id) then
          err == Some(UniqueViolation("slug")) && saved == t && tags == old(tags) && nextTagId == old(nextTagId)
        else
          && err == None
          && saved == (if t.id == 0 then t.(id := old(nextTagId)) else t)
          && tags == Upsert(old(tags), saved, TagId)
          && nextTagId == Max(old(nextTagId), saved.id + 1)
    {
      saved := tag;
      if saved.slug == [] {
        saved := saved.(slug := slugify(saved.name));
      }
      if !KeyFree(tags, TagName, saved.name, TagId, saved.id) {
        err := Some(UniqueViolation("name"));
        return;
      }
      if !KeyFree(tags, TagSlug, saved.slug, TagId, saved.id) {
        err := Some(UniqueViolation("slug"));
        return;
      }
      if saved.id == 0 {
        KeyFreeForNewRow(tags, TagName, saved.name, TagId, nextTagId);
        KeyFreeForNewRow(tags, TagSlug, saved.slug, TagId, nextTagId);
        saved := saved.(id := nextTagId);
      }
      SaveTagKeepsTable(tags, nextTagId, saved);
      tags := Upsert(tags, saved, TagId);
      nextTagId := Max(nextTagId, saved.id + 1);
      err := None;
    }

    /**
     * The field updates `Post.save()` makes, one after the other, before it
     * writes the row.
     */
    static method PreparePost(post: Post, slugify: string -> string, now: int) returns (p: Post)
      ensures p == PreparedPost(post, slugify, now)
    {
      p := post;
      if p.slug == [] {
        p := p.(slug := slugify(p.title));
      }
      if p.excerpt == [] && p.markdownContent != [] {
        p := p.(excerpt := DeriveExcerpt(p.markdownContent));
      }
      p := p.(updatedDate := now);
    }

    /**
     * `Post.save()`: an empty slug is filled from the title, an empty excerpt
     * from non-empty content, `updated_date` is stamped, then the row is
     * written, unless another post already has that slug.
     */
    method SavePost(post: Post, slugify: string -> string, now: int) returns (saved: Post, err: Option<StoreError>)
      requires Valid()
      modifies this`posts, this`nextPostId
      ensures Valid()
      ensures var p := PreparedPost(post, slugify, now);
        if KeyFree(old(posts), PostSlug, p.slug, PostId, p.id) then
          && err == None
          && saved == (if p.id == 0 then p.(id := old(nextPostId)) else p)
          && posts == Upsert(old(posts), saved, PostId)
          && nextPostId == Max(old(nextPostId), saved.id + 1)
        else
          && err == Some(UniqueViolation("slug"))
          && saved == p
          && posts == old(posts) && nextPostId == old(nextPostId)
    {
      saved := PreparePost(post, slugify, now);
      if !KeyFree(posts, PostSlug, saved.slug, PostId, saved.id) {
        err := Some(UniqueViolation("slug"));
        return;
      }
      if saved.id == 0 {
        KeyFreeForNewRow(posts, PostSlug, saved.slug, PostId, nextPostId);
        saved := saved.(id := nextPostId);
      }
      SavePostKeepsTable(posts, nextPostId, saved);
      posts := Upsert(posts, saved, PostId);
      nextPostId := Max(nextPostId, saved.id + 1);
      err := None;
    }

    /**
     * Deleting a project: its row goes, and with it (`on_delete=CASCADE`)
     * every image whose `project` is that project; nothing else changes.
     */
    method DeleteProject(id: nat)
      requires Valid()
      modifies this`projects, this`images
      ensures Valid()
      ensures projects == Filter(old(projects), OtherProject(id))
      ensures images == Filter(old(images), ImageNotOf(id))
    {
      DeleteProjectKeepsTables(projects, nextProjectId, images, id);
      projects := Filter(projects, OtherProject(id));
      images := Filter(images, ImageNotOf(id));
    }

    /**
     * `ContactMessage.objects.create(...)`: a new row with the given values,
     * `created_at` stamped with the time (`auto_now_add`) and `read` false.
     */
    method CreateMessage(name: string, email: string, subject: string, message: string, now: int)
      returns (m: ContactMessage)
      requires Valid()
      modifies this`messages, this`nextMessageId
      ensures Valid()
      ensures m == ContactMessage(old(nextMessageId), name, email, subject, message, now, false)
      ensures messages == old(messages) + [m] && nextMessageId == old(nextMessageId) + 1
    {
      m := ContactMessage(nextMessageId, name, email, subject, message, now, false);
      AppendKeyed(messages, m, MessageId, nextMessageId);
      messages := messages + [m];
      nextMessageId := nextMessageId + 1;
    }

    /** Adds a site settings row, with a new primary key. */
    method CreateSiteSettings(settings: SiteSettings) returns (s: SiteSettings)
      requires Valid()
      modifies this`siteSettings, this`nextSettingsId
      ensures Valid()
      ensures s == settings.(id := old(nextSettingsId))
      ensures siteSettings == old(siteSettings) + [s] && nextSettingsId == old(nextSettingsId) + 1
    {
      s := settings.(id := nextSettingsId);
      AppendKeyed(siteSettings, s, SettingsId, nextSettingsId);
      siteSettings := siteSettings + [s];
      nextSettingsId := nextSettingsId + 1;
    }
  }

  lemma SaveProjectKeepsTables(projects: seq<Project>, next: nat, images: seq<ProjectImage>, p: Project)
    requires ProjectTablesValid(projects, next, images)
    requires 0 < p.id && KeyFree(projects, ProjectSlug, p.slug, ProjectId, p.id)
    ensures ProjectTablesValid(Upsert(projects, p, ProjectId), Max(next, p.id + 1), images)
  {
    UpsertKeyed(projects, p, ProjectId, next);
    UpsertKeepsUnique(projects, p, ProjectId, ProjectSlug);
    UpsertKeepsProjectIds(projects, p);
  }

  lemma SaveTagKeepsTable(tags: seq<Tag>, next: nat, t: Tag)
    requires TagTableValid(tags, next)
    requires 0 < t.id && KeyFree(tags, TagName, t.name, TagId, t.id) && KeyFree(tags, TagSlug, t.slug, TagId, t.id)
    ensures TagTableValid(Upsert(tags, t, TagId), Max(next, t.id + 1))
  {
    UpsertKeyed(tags, t, TagId, next);
    UpsertKeepsUnique(tags, t, TagId, TagSlug);
    UpsertKeepsUnique(tags, t, TagId, TagName);
  }

  lemma SavePostKeepsTable(posts: seq<Post>, next: nat, p: Post)
    requires PostTableValid(posts, next)
    requires 0 < p.id && KeyFree(posts, PostSlug, p.slug, PostId, p.id)
    ensures PostTableValid(Upsert(posts, p, PostId), Max(next, p.id + 1))
  {
    UpsertKeyed(posts, p, PostId, next);
    UpsertKeepsUnique(posts, p, PostId, PostSlug);
  }

  /** After the cascade no image is left without its project. */
  lemma DeleteProjectKeepsTables(projects: seq<Project>, next: nat, images: seq<ProjectImage>, id: nat)
    requires ProjectTablesValid(projects, next, images)
    ensures ProjectTablesValid(Filter(projects, OtherProject(id)), next, Filter(images, ImageNotOf(id)))
  {
    var keptProjects := Filter(projects, OtherProject(id));
    var keptImages := Filter(images, ImageNotOf(id));
    FilterKeepsUnique(projects, OtherProject(id), ProjectId);
    FilterKeepsUnique(projects, OtherProject(id), ProjectSlug);
    FilterKeepsUnique(images, ImageNotOf(id), ImageId);
    forall i | 0 <= i < |keptProjects|
      ensures 0 < keptProjects[i].id < next
    {
      FilterMembership(projects, OtherProject(id), keptProjects[i]);
    }
    forall i | 0 <= i < |keptImages|
      ensures keptImages[i].project in ProjectIds(keptProjects)
    {
      ImageKeepsProject(projects, next, images, id, keptImages[i]);
    }
  }

  lemma ImageKeepsProject(projects: seq<Project>, next: nat, images: seq<ProjectImage>, id: nat, im: ProjectImage)
    requires ProjectTablesValid(projects, next, images)
    requires im in Filter(images, ImageNotOf(id))
    ensures im.project in ProjectIds(Filter(projects, OtherProject(id)))
  {
    FilterMembership(images, ImageNotOf(id), im);
    var i :| 0 <= i < |images| && images[i] == im;
    assert im.project in ProjectIds(projects);
    var p :| p in projects && p.id == im.project;
    FilterMembership(projects, OtherProject(id), p);
  }

  /** Keeps the projects other than the one with primary key `id`. */
  function OtherProject(id: nat): Project -> bool
  {
    (p: Project) => p.id != id
  }

  /** Keeps the images that do not belong to the project with primary key `id`. */
  function ImageNotOf(id: nat): ProjectImage -> bool
  {
    (im: ProjectImage) => im.project != id
  }

  /** Saving a project never loses a primary key an image may refer to. */
  lemma UpsertKeepsProjectIds(projects: seq<Project>, p: Project)
    requires UniqueKeys(projects, ProjectId)
    ensures ProjectIds(projects) <= ProjectIds(Upsert(projects, p, ProjectId))
  {
    UpsertContents(projects, p, ProjectId);
    forall k | k in ProjectIds(projects)
      ensures k in ProjectIds(Upsert(projects, p, ProjectId))
    {
      var x :| x in projects && x.id == k;
      if x.id == p.id {
        assert p in Upsert(projects, p, ProjectId);
      } else {
        assert x in Upsert(projects, p, ProjectId);
      }
    }
  }
}
