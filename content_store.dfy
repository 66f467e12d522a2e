/** The content store itself (`ContentProvider` in src/contexts/ContentContext.tsx): the site
    content and the five collections, and the operations the site and the admin screens call
    on them. Each operation replaces the state it changes wholesale, as the React setters do;
    what the environment supplies (generated ids, blob URLs, clock readings, the random draw
    of the email simulation) arrives as parameters. */
module ContentStore {
  import opened Js
  import opened Seqs
  import opened SiteContent
  import opened ContentModel

  /** `content.emailSettings`. */
  function EmailSettings(content: Value): Value
    requires content.Obj?
  {
    Get(content, "emailSettings").value
  }

  /** The log entry `sendEmail` prepends for one attempt. */
  function LogEntry(id: string, timestamp: string, to: Value, subject: string, kind: EmailKind,
                    settings: Value, randomOk: bool): (r: EmailLog)
    ensures r.status == Success <==> EmailConfigured(settings) && randomOk
    ensures r.error.Some? <==> r.status == Failed
  {
    var err := EmailError(settings, randomOk);
    EmailLog(id, timestamp, to, subject, if err.None? then Success else Failed, err, kind)
  }

  /** With the email settings the site ships with (sending disabled, no credentials) every
      notification fails, and its log entry says the settings are not configured. */
  lemma DefaultSettingsNeverSend(randomOk: bool)
    ensures EmailError(DefaultEmailSettings(), randomOk) == Some(NotConfiguredError)
  {
    assert !Truthy(Setting(DefaultEmailSettings(), "enabled"));
  }

  const ContactSubject := "New Inquiry from Photography Website"
  const TestSubject := "Test Email from Photography Website"

  function GalleryPatchWith(p: GalleryPatch): GalleryItem -> GalleryItem {
    (g: GalleryItem) => ApplyGalleryPatch(g, p)
  }

  function PostPatchWith(p: PostPatch): BlogPost -> BlogPost {
    (q: BlogPost) => ApplyPostPatch(q, p)
  }

  class Store {
    var content: Value
    var mediaLibrary: seq<MediaItem>
    var galleryItems: seq<GalleryItem>
    var contactSubmissions: seq<ContactSubmission>
    var blogPosts: seq<BlogPost>
    var emailLogs: seq<EmailLog>

    /** The content is always an object: it starts as one and every write rebuilds it as one. */
    ghost predicate Valid()
      reads this
    {
      content.Obj?
    }

    /** The store after `loadAllData`, started from `defaults` (the provider passes
        `DefaultContent()`): each saved entry, when present, replaces the empty collection, and
        saved content is merged over the defaults section by section. */
    constructor Load(defaults: Value, savedContent: Option<Value>, savedMedia: Option<seq<MediaItem>>,
                     savedGallery: Option<seq<GalleryItem>>, savedContacts: Option<seq<ContactSubmission>>,
                     savedPosts: Option<seq<BlogPost>>, savedLogs: Option<seq<EmailLog>>)
      requires defaults.Obj?
      ensures Valid()
      ensures content == if savedContent.Some? then MergeSaved(defaults, savedContent.value) else defaults
      ensures mediaLibrary == if savedMedia.Some? then savedMedia.value else []
      ensures galleryItems == if savedGallery.Some? then savedGallery.value else []
      ensures contactSubmissions == if savedContacts.Some? then savedContacts.value else []
      ensures blogPosts == if savedPosts.Some? then savedPosts.value else []
      ensures emailLogs == if savedLogs.Some? then savedLogs.value else []
    {
      content := if savedContent.Some? then MergeSaved(defaults, savedContent.value) else defaults;
      mediaLibrary := if savedMedia.Some? then savedMedia.value else [];
      galleryItems := if savedGallery.Some? then savedGallery.value else [];
      contactSubmissions := if savedContacts.Some? then savedContacts.value else [];
      blogPosts := if savedPosts.Some? then savedPosts.value else [];
      emailLogs := if savedLogs.Some? then savedLogs.value else [];
    }

    /** `updateContent(section, data)`: walks the dotted path to the parent container and
        writes `data` under the last segment. A read from a missing section, or a write into
        a primitive, throws; then nothing changes and `false` is returned. */
    method UpdateContent(section: string, data: Value) returns (ok: bool)
      requires Valid()
      modifies this
      ensures Valid()
      ensures ok == AssignPath(old(content), Split(section, '.'), data).Ok?
      ensures content == if ok then AssignPath(old(content), Split(section, '.'), data).value else old(content)
      ensures mediaLibrary == old(mediaLibrary) && galleryItems == old(galleryItems)
      ensures contactSubmissions == old(contactSubmissions) && blogPosts == old(blogPosts)
      ensures emailLogs == old(emailLogs)
    {
      var keys := Split(section, '.');
      var current := content;
      var i := 0;
      while i < |keys| - 1
        invariant 0 <= i <= |keys| - 1
        invariant Walk(content, keys[..i]) == Ok(current)
        invariant unchanged(this)
      {
        WalkSnoc(content, keys[..i], keys[i]);
        assert keys[..i] + [keys[i]] == keys[..i + 1];
        match Get(current, keys[i]) {
          case TypeError =>
            assert keys[..|keys| - 1][..i + 1] == keys[..i + 1];
            WalkFailurePersists(content, keys[..|keys| - 1], i + 1);
            AssignSucceedsIffParentIsObject(content, keys, data);
            return false;
          case Ok(next) =>
            current := next;
        }
        i := i + 1;
      }
      AssignSucceedsIffParentIsObject(content, keys, data);
      if !current.Obj? {
        return false;
      }
      AssignKeepsObject(content, keys, data);
      content := AssignPath(content, keys, data).value;
      ok := true;
    }

    /** `uploadMedia(file)`: appends the new item and returns it. */
    method UploadMedia(file: FileInfo, stamp: UploadStamp) returns (item: MediaItem)
      modifies this
      ensures item == NewMediaItem(file, stamp)
      ensures mediaLibrary == old(mediaLibrary) + [item]
      ensures content == old(content) && galleryItems == old(galleryItems)
      ensures contactSubmissions == old(contactSubmissions) && blogPosts == old(blogPosts)
      ensures emailLogs == old(emailLogs)
    {
      item := NewMediaItem(file, stamp);
      mediaLibrary := mediaLibrary + [item];
    }

    /** `uploadGalleryImage(file, category)`: appends the new image at the end of its category. */
    method UploadGalleryImage(file: FileInfo, stamp: UploadStamp, category: string) returns (item: GalleryItem)
      modifies this
      ensures item == NewGalleryItem(old(galleryItems), file, stamp, category)
      ensures galleryItems == old(galleryItems) + [item]
      ensures content == old(content) && mediaLibrary == old(mediaLibrary)
      ensures contactSubmissions == old(contactSubmissions) && blogPosts == old(blogPosts)
      ensures emailLogs == old(emailLogs)
    {
      item := NewGalleryItem(galleryItems, file, stamp, category);
      galleryItems := galleryItems + [item];
    }

    method DeleteMedia(id: string)
      modifies this
      ensures mediaLibrary == DeleteById(old(mediaLibrary), MediaId, id)
      ensures content == old(content) && galleryItems == old(galleryItems)
      ensures contactSubmissions == old(contactSubmissions) && blogPosts == old(blogPosts)
      ensures emailLogs == old(emailLogs)
    {
      mediaLibrary := DeleteById(mediaLibrary, MediaId, id);
    }

    method DeleteGalleryImage(id: string)
      modifies this
      ensures galleryItems == DeleteById(old(galleryItems), GalleryId, id)
      ensures content == old(content) && mediaLibrary == old(mediaLibrary)
      ensures contactSubmissions == old(contactSubmissions) && blogPosts == old(blogPosts)
      ensures emailLogs == old(emailLogs)
    {
      galleryItems := DeleteById(galleryItems, GalleryId, id);
    }

    method ReorderGalleryImages(category: string, ids: seq<string>)
      modifies this
      ensures galleryItems == Reorder(old(galleryItems), category, ids)
      ensures content == old(content) && mediaLibrary == old(mediaLibrary)
      ensures contactSubmissions == old(contactSubmissions) && blogPosts == old(blogPosts)
      ensures emailLogs == old(emailLogs)
    {
      galleryItems := Reorder(galleryItems, category, ids);
    }

    method UpdateGalleryImage(id: string, patch: GalleryPatch)
      modifies this
      ensures galleryItems == UpdateById(old(galleryItems), GalleryId, id, GalleryPatchWith(patch))
      ensures content == old(content) && mediaLibrary == old(mediaLibrary)
      ensures contactSubmissions == old(contactSubmissions) && blogPosts == old(blogPosts)
      ensures emailLogs == old(emailLogs)
    {
      galleryItems := UpdateById(galleryItems, GalleryId, id, GalleryPatchWith(patch));
    }

    /** `sendEmail`: every attempt prepends exactly one log entry; the result says whether
        the simulated send succeeded. */
    method SendEmail(to: Value, subject: string, kind: EmailKind, logId: string, timestamp: string,
                     randomOk: bool) returns (sent: bool)
      requires Valid()
      modifies this
      ensures Valid()
      ensures sent <==> EmailConfigured(EmailSettings(old(content))) && randomOk
      ensures emailLogs == [LogEntry(logId, timestamp, to, subject, kind, EmailSettings(old(content)), randomOk)] + old(emailLogs)
      ensures content == old(content) && mediaLibrary == old(mediaLibrary) && galleryItems == old(galleryItems)
      ensures contactSubmissions == old(contactSubmissions) && blogPosts == old(blogPosts)
    {
      var entry := LogEntry(logId, timestamp, to, subject, kind, EmailSettings(content), randomOk);
      sent := entry.status == Success;
      emailLogs := [entry] + emailLogs;
    }

    /** `addContactSubmission(fields)`: reads the recipient (which throws when `emailSettings`
        is missing, leaving everything unchanged), attempts the notification, and prepends the
        submission recording whether the email went out. */
    method AddContactSubmission(fields: ContactFields, id: string, submittedAt: string, logId: string,
                                timestamp: string, randomOk: bool) returns (r: Result<bool>)
      requires Valid()
      modifies this
      ensures Valid()
      ensures r.Ok? <==> !EmailSettings(old(content)).Undefined?
      ensures r.TypeError? ==> emailLogs == old(emailLogs) && contactSubmissions == old(contactSubmissions)
      ensures r.Ok? ==>
                && r.value == (EmailConfigured(EmailSettings(old(content))) && randomOk)
                && emailLogs == [LogEntry(logId, timestamp, Setting(EmailSettings(old(content)), "toEmail"),
                                          ContactSubject, ContactEmail, EmailSettings(old(content)), randomOk)]
                                + old(emailLogs)
                && contactSubmissions == [NewSubmission(fields, id, submittedAt, r.value)] + old(contactSubmissions)
      ensures content == old(content) && mediaLibrary == old(mediaLibrary) && galleryItems == old(galleryItems)
      ensures blogPosts == old(blogPosts)
    {
      var settings := EmailSettings(content);
      if settings.Undefined? {
        return TypeError;
      }
      var sent := SendEmail(Setting(settings, "toEmail"), ContactSubject, ContactEmail, logId, timestamp, randomOk);
      contactSubmissions := [NewSubmission(fields, id, submittedAt, sent)] + contactSubmissions;
      r := Ok(sent);
    }

    /** `sendContactEmail` and `sendTestEmail`: one attempt with the given subject, or the
        TypeError of reading the recipient from missing settings. */
    method SendNotification(subject: string, kind: EmailKind, logId: string, timestamp: string,
                            randomOk: bool) returns (r: Result<bool>)
      requires Valid()
      modifies this
      ensures Valid()
      ensures r.Ok? <==> !EmailSettings(old(content)).Undefined?
      ensures r.TypeError? ==> emailLogs == old(emailLogs)
      ensures r.Ok? ==>
                && r.value == (EmailConfigured(EmailSettings(old(content))) && randomOk)
                && emailLogs == [LogEntry(logId, timestamp, Setting(EmailSettings(old(content)), "toEmail"),
                                          subject, kind, EmailSettings(old(content)), randomOk)]
                                + old(emailLogs)
      ensures content == old(content) && mediaLibrary == old(mediaLibrary) && galleryItems == old(galleryItems)
      ensures contactSubmissions == old(contactSubmissions) && blogPosts == old(blogPosts)
    {
      var settings := EmailSettings(content);
      if settings.Undefined? {
        return TypeError;
      }
      var sent := SendEmail(Setting(settings, "toEmail"), subject, kind, logId, timestamp, randomOk);
      r := Ok(sent);
    }

    method SendContactEmail(logId: string, timestamp: string, randomOk: bool) returns (r: Result<bool>)
      requires Valid()
      modifies this
      ensures Valid()
      ensures r.Ok? <==> !EmailSettings(old(content)).Undefined?
      ensures r.TypeError? ==> emailLogs == old(emailLogs)
      ensures r.Ok? ==> emailLogs == [LogEntry(logId, timestamp, Setting(EmailSettings(old(content)), "toEmail"),
                                               ContactSubject, ContactEmail, EmailSettings(old(content)), randomOk)]
                                     + old(emailLogs)
      ensures content == old(content) && contactSubmissions == old(contactSubmissions)
    {
      r := SendNotification(ContactSubject, ContactEmail, logId, timestamp, randomOk);
    }

    method SendTestEmail(logId: string, timestamp: string, randomOk: bool) returns (r: Result<bool>)
      requires Valid()
      modifies this
      ensures Valid()
      ensures r.Ok? <==> !EmailSettings(old(content)).Undefined?
      ensures r.TypeError? ==> emailLogs == old(emailLogs)
      ensures r.Ok? ==> emailLogs == [LogEntry(logId, timestamp, Setting(EmailSettings(old(content)), "toEmail"),
                                               TestSubject, TestEmail, EmailSettings(old(content)), randomOk)]
                                     + old(emailLogs)
      ensures content == old(content) && contactSubmissions == old(contactSubmissions)
    {
      r := SendNotification(TestSubject, TestEmail, logId, timestamp, randomOk);
    }

    method MarkContactAsRead(id: string)
      modifies this
      ensures contactSubmissions == UpdateById(old(contactSubmissions), ContactId, id, MarkRead)
      ensures content == old(content) && mediaLibrary == old(mediaLibrary) && galleryItems == old(galleryItems)
      ensures blogPosts == old(blogPosts) && emailLogs == old(emailLogs)
    {
      contactSubmissions := UpdateById(contactSubmissions, ContactId, id, MarkRead);
    }

    method DeleteContact(id: string)
      modifies this
      ensures contactSubmissions == DeleteById(old(contactSubmissions), ContactId, id)
      ensures content == old(content) && mediaLibrary == old(mediaLibrary) && galleryItems == old(galleryItems)
      ensures blogPosts == old(blogPosts) && emailLogs == old(emailLogs)
    {
      contactSubmissions := DeleteById(contactSubmissions, ContactId, id);
    }

    /** `saveBlogPost(post)`: the new post goes first. */
    method SaveBlogPost(post: PostFields, id: string)
      modifies this
      ensures blogPosts == [WithId(post, id)] + old(blogPosts)
      ensures content == old(content) && mediaLibrary == old(mediaLibrary) && galleryItems == old(galleryItems)
      ensures contactSubmissions == old(contactSubmissions) && emailLogs == old(emailLogs)
    {
      blogPosts := [WithId(post, id)] + blogPosts;
    }

    method UpdateBlogPost(id: string, patch: PostPatch)
      modifies this
      ensures blogPosts == UpdateById(old(blogPosts), PostId, id, PostPatchWith(patch))
      ensures content == old(content) && mediaLibrary == old(mediaLibrary) && galleryItems == old(galleryItems)
      ensures contactSubmissions == old(contactSubmissions) && emailLogs == old(emailLogs)
    {
      blogPosts := UpdateById(blogPosts, PostId, id, PostPatchWith(patch));
    }

    method DeleteBlogPost(id: string)
      modifies this
      ensures blogPosts == DeleteById(old(blogPosts), PostId, id)
      ensures content == old(content) && mediaLibrary == old(mediaLibrary) && galleryItems == old(galleryItems)
      ensures contactSubmissions == old(contactSubmissions) && emailLogs == old(emailLogs)
    {
      blogPosts := DeleteById(blogPosts, PostId, id);
    }

    /** `applyDesignChanges(settings)`: replaces the whole `design` section; it cannot fail,
        since the path has a single segment and the content is an object. */
    method ApplyDesignChanges(settings: Value)
      requires Valid()
      modifies this
      ensures Valid()
      ensures content == Obj(old(content).fields["design" := settings])
      ensures mediaLibrary == old(mediaLibrary) && galleryItems == old(galleryItems)
      ensures contactSubmissions == old(contactSubmissions) && blogPosts == old(blogPosts)
      ensures emailLogs == old(emailLogs)
    {
      SplitWhole("design", '.');
      var ok := UpdateContent("design", settings);
    }
  }
}
