/**
 * The admin site's rules: computed list columns, the bulk actions on skills
 * and contact messages, and the single-row rule for site settings.
 * Widget markup and list configuration are presentation and are not modelled.
 */
module Admin {

  import opened Wrappers
  import opened Text
  import opened Tables
  import opened Models

  // ---------------------------------------------------------------------
  // List columns.

  const SubjectPreviewLength: nat := 50

  /** `subject_preview`: a subject longer than 50 characters is cut to 50 and marked with "...". */
  function SubjectPreview(subject: string): (r: string)
    ensures |subject| <= SubjectPreviewLength ==> r == subject
    ensures |subject| > SubjectPreviewLength ==>
      |r| == SubjectPreviewLength + 3 && r[..SubjectPreviewLength] == subject[..SubjectPreviewLength]
      && r[SubjectPreviewLength..] == "..."
  {
    if |subject| > SubjectPreviewLength then subject[..SubjectPreviewLength] + "..." else subject
  }

  /** `technology_count`: the number of comma-separated entries, never zero. */
  function TechnologyCount(p: Project): (n: nat)
    ensures n >= 1
    ensures n == Occurrences(p.technologies, ',') + 1
  {
    |TechnologiesList(p)|
  }

  /** What the read-only "Post Preview" field shows. */
  datatype Preview =
    | ViewOnSite(url: string)   // a link to the post's page
    | PreviewText(text: string) // plain text instead of a link
    | NoReverseMatch            // the post's URL cannot be built, and the page fails

  const SaveFirst: string := "Save post first to preview"

  /**
   * `preview_link`: a post that has been saved links to its page; an unsaved
   * one says so. Building the URL fails for a slug the URL pattern refuses.
   */
  function PreviewLink(post: Post): (r: Preview)
    ensures post.id == 0 <==> r == PreviewText(SaveFirst)
    ensures r.ViewOnSite? <==> post.id != 0 && IsSlug(post.slug)
    ensures r.ViewOnSite? ==> r.url == "/blog/" + post.slug + "/"
  {
    if post.id == 0 then PreviewText(SaveFirst)
    else match PostUrl(post.slug)
      case Some(url) => ViewOnSite(url)
      case None => NoReverseMatch
  }

  // ---------------------------------------------------------------------
  // Bulk actions. The admin's selection is a set of primary keys; the
  // queryset holds the rows whose key is in it.

  /** How many rows of `rows` the selection matches: what `update()` reports. */
  function CountSelected<T>(rows: seq<T>, id: T -> nat, selected: set<nat>): nat
  {
    if rows == [] then 0
    else CountSelected(rows[..|rows| - 1], id, selected) + (if id(rows[|rows| - 1]) in selected then 1 else 0)
  }

  /** The primary keys present in a table. */
  function KeySet<T>(rows: seq<T>, id: T -> nat): set<nat>
  {
    set i | 0 <= i < |rows| :: id(rows[i])
  }

  /** A table without its last row still has unique keys. */
  lemma UniqueKeysOfInit<T(!new)>(rows: seq<T>, id: T -> nat)
    requires rows != [] && UniqueKeys(rows, id)
    ensures UniqueKeys(rows[..|rows| - 1], id)
  {
    var init := rows[..|rows| - 1];
    forall a, b | 0 <= a < |init| && 0 <= b < |init| && a != b
      ensures id(init[a]) != id(init[b])
    {
      assert init[a] == rows[a] && init[b] == rows[b];
    }
  }

  /** The keys of a table are those of all but its last row, plus the last row's, which is new. */
  lemma KeySetOfLast<T(!new)>(rows: seq<T>, id: T -> nat)
    requires rows != [] && UniqueKeys(rows, id)
    ensures var init, last := rows[..|rows| - 1], rows[|rows| - 1];
      KeySet(rows, id) == KeySet(init, id) + {id(last)} && id(last) !in KeySet(init, id)
  {
    var init, last := rows[..|rows| - 1], rows[|rows| - 1];
    forall k | k in KeySet(rows, id)
      ensures k in KeySet(init, id) + {id(last)}
    {
      var j :| 0 <= j < |rows| && id(rows[j]) == k;
      if j < |init| {
        assert rows[j] == init[j];
      }
    }
    forall k | k in KeySet(init, id)
      ensures k in KeySet(rows, id)
    {
      var j :| 0 <= j < |init| && id(init[j]) == k;
      assert rows[j] == init[j];
    }
  }

  /**
   * With unique primary keys the count is the number of selected keys
   * present in the table, so selecting rows that exist counts each once.
   */
  lemma {:induction false} CountSelectedIsSelectedKeys<T(!new)>(rows: seq<T>, id: T -> nat, selected: set<nat>)
    requires UniqueKeys(rows, id)
    ensures CountSelected(rows, id, selected) == |selected * KeySet(rows, id)|
  {
    if rows != [] {
      var init, last := rows[..|rows| - 1], rows[|rows| - 1];
      UniqueKeysOfInit(rows, id);
      CountSelectedIsSelectedKeys(init, id, selected);
      KeySetOfLast(rows, id);
      var before := selected * KeySet(init, id);
      if id(last) in selected {
        assert selected * KeySet(rows, id) == before + {id(last)};
      } else {
        assert selected * KeySet(rows, id) == before;
      }
    }
  }

  /** Selecting rows that exist, the action reports exactly how many were selected. */
  lemma CountSelectedOfPresentKeys<T(!new)>(rows: seq<T>, id: T -> nat, selected: set<nat>)
    requires UniqueKeys(rows, id) && selected <= KeySet(rows, id)
    ensures CountSelected(rows, id, selected) == |selected|
  {
    CountSelectedIsSelectedKeys(rows, id, selected);
    assert selected * KeySet(rows, id) == selected;
  }

  lemma CountSelectedOfPrefix<T>(rows: seq<T>, id: T -> nat, selected: set<nat>, i: nat)
    requires i < |rows|
    ensures CountSelected(rows[..i + 1], id, selected)
      == CountSelected(rows[..i], id, selected) + (if id(rows[i]) in selected then 1 else 0)
  {
    assert rows[..i + 1][..i] == rows[..i];
  }

  const ResetLevel: nat := 50

  /** One skill after `reset_skill_levels`. */
  function ResetRow(s: Skill, selected: set<nat>): Skill
  {
    if s.id in selected then s.(level := ResetLevel) else s
  }

  /** The skills table after `reset_skill_levels`. */
  function ResetLevels(skills: seq<Skill>, selected: set<nat>): (r: seq<Skill>)
    ensures |r| == |skills|
    ensures forall i :: 0 <= i < |r| && skills[i].id in selected ==>
      r[i].level == ResetLevel && r[i].(level := skills[i].level) == skills[i]
    ensures forall i :: 0 <= i < |r| && skills[i].id !in selected ==> r[i] == skills[i]
  {
    seq(|skills|, i requires 0 <= i < |skills| => ResetRow(skills[i], selected))
  }

  /** Resetting the same selection twice changes nothing more. */
  lemma ResetLevelsIdempotent(skills: seq<Skill>, selected: set<nat>)
    ensures ResetLevels(ResetLevels(skills, selected), selected) == ResetLevels(skills, selected)
  {
  }

  /** `queryset.update(level=50)`, row by row: the new table and the number of rows matched. */
  method ResetRows(skills: seq<Skill>, selected: set<nat>) returns (rows: seq<Skill>, updated: nat)
    ensures rows == ResetLevels(skills, selected)
    ensures updated == CountSelected(skills, SkillId, selected)
  {
    rows := skills;
    updated := 0;
    var i := 0;
    while i < |rows|
      invariant 0 <= i <= |rows| == |skills|
      invariant forall k :: 0 <= k < i ==> rows[k] == ResetRow(skills[k], selected)
      invariant forall k :: i <= k < |rows| ==> rows[k] == skills[k]
      invariant updated == CountSelected(skills[..i], SkillId, selected)
    {
      CountSelectedOfPrefix(skills, SkillId, selected, i);
      if rows[i].id in selected {
        rows := rows[i := rows[i].(level := ResetLevel)];
        updated := updated + 1;
      }
      i := i + 1;
    }
    assert skills[..i] == skills;
  }

  /**
   * `reset_skill_levels`: every selected skill gets level 50, nothing else
   * changes, and the reported count is the number of selected skills.
   */
  method ResetSkillLevels(store: ContentStore, selected: set<nat>) returns (updated: nat)
    requires store.Valid()
    modifies store`skills
    ensures store.Valid()
    ensures store.skills == ResetLevels(old(store.skills), selected)
    ensures updated == CountSelected(old(store.skills), SkillId, selected)
  {
    var rows;
    rows, updated := ResetRows(store.skills, selected);
    SameKeysKeepUnique(store.skills, rows, SkillId);
    store.skills := rows;
  }

  /** One message after marking the selection read (`read`) or unread. */
  function FlagRow(m: ContactMessage, selected: set<nat>, read: bool): ContactMessage
  {
    if m.id in selected then m.(read := read) else m
  }

  /** The messages table after marking the selection read (`read`) or unread. */
  function WithReadFlag(messages: seq<ContactMessage>, selected: set<nat>, read: bool): (r: seq<ContactMessage>)
    ensures |r| == |messages|
    ensures forall i :: 0 <= i < |r| && messages[i].id in selected ==>
      r[i].read == read && r[i].(read := messages[i].read) == messages[i]
    ensures forall i :: 0 <= i < |r| && messages[i].id !in selected ==> r[i] == messages[i]
  {
    seq(|messages|, i requires 0 <= i < |messages| => FlagRow(messages[i], selected, read))
  }

  /** Marking the same selection twice changes nothing more. */
  lemma WithReadFlagIdempotent(messages: seq<ContactMessage>, selected: set<nat>, read: bool)
    ensures WithReadFlag(WithReadFlag(messages, selected, read), selected, read) == WithReadFlag(messages, selected, read)
  {
  }

  /** `queryset.update(read=...)`, row by row: the new table and the number of rows matched. */
  method FlagRows(messages: seq<ContactMessage>, selected: set<nat>, read: bool)
    returns (rows: seq<ContactMessage>, updated: nat)
    ensures rows == WithReadFlag(messages, selected, read)
    ensures updated == CountSelected(messages, MessageId, selected)
  {
    rows := messages;
    updated := 0;
    var i := 0;
    while i < |rows|
      invariant 0 <= i <= |rows| == |messages|
      invariant forall k :: 0 <= k < i ==> rows[k] == FlagRow(messages[k], selected, read)
      invariant forall k :: i <= k < |rows| ==> rows[k] == messages[k]
      invariant updated == CountSelected(messages[..i], MessageId, selected)
    {
      CountSelectedOfPrefix(messages, MessageId, selected, i);
      if rows[i].id in selected {
        rows := rows[i := rows[i].(read := read)];
        updated := updated + 1;
      }
      i := i + 1;
    }
    assert messages[..i] == messages;
  }

  /** Sets the `read` flag of the selected messages in the store. */
  method SetReadFlag(store: ContentStore, selected: set<nat>, read: bool) returns (updated: nat)
    requires store.Valid()
    modifies store`messages
    ensures store.Valid()
    ensures store.messages == WithReadFlag(old(store.messages), selected, read)
    ensures updated == CountSelected(old(store.messages), MessageId, selected)
  {
    var rows;
    rows, updated := FlagRows(store.messages, selected, read);
    SameKeysKeepKeyed(store.messages, rows, MessageId, store.nextMessageId);
    store.messages := rows;
  }

  /** `mark_as_read`: exactly the selected messages become read; the count is reported. */
  method MarkAsRead(store: ContentStore, selected: set<nat>) returns (updated: nat)
    requires store.Valid()
    modifies store`messages
    ensures store.Valid()
    ensures store.messages == WithReadFlag(old(store.messages), selected, true)
    ensures updated == CountSelected(old(store.messages), MessageId, selected)
  {
    updated := SetReadFlag(store, selected, true);
  }

  /** `mark_as_unread`: exactly the selected messages become unread; the count is reported. */
  method MarkAsUnread(store: ContentStore, selected: set<nat>) returns (updated: nat)
    requires store.Valid()
    modifies store`messages
    ensures store.Valid()
    ensures store.messages == WithReadFlag(old(store.messages), selected, false)
    ensures updated == CountSelected(old(store.messages), MessageId, selected)
  {
    updated := SetReadFlag(store, selected, false);
  }

  // ---------------------------------------------------------------------
  // Site settings.

  /** `has_add_permission`: the admin may add site settings only while there are none. */
  function HasAddPermission(siteSettings: seq<SiteSettings>): (allowed: bool)
    ensures allowed <==> siteSettings == []
  {
    |siteSettings| == 0
  }

  /**
   * Adding site settings through the admin: refused while a row exists, so
   * admin additions never make a second row.
   */
  method AddSiteSettings(store: ContentStore, settings: SiteSettings) returns (added: Option<SiteSettings>)
    requires store.Valid()
    modifies store`siteSettings, store`nextSettingsId
    ensures store.Valid()
    ensures added.Some? <==> old(store.siteSettings) == []
    ensures added.Some? ==> store.siteSettings == [added.value]
    ensures added.Some? ==> added.value == settings.(id := old(store.nextSettingsId))
    ensures added.None? ==> store.siteSettings == old(store.siteSettings)
    ensures store.nextSettingsId == if added.Some? then old(store.nextSettingsId) + 1 else old(store.nextSettingsId)
    ensures |old(store.siteSettings)| <= 1 ==> |store.siteSettings| <= 1
  {
    if !HasAddPermission(store.siteSettings) {
      return None;
    }
    var s := store.CreateSiteSettings(settings);
    added := Some(s);
  }
}
