/** The blog administration screen (src/components/Admin/BlogManager.tsx): the search and
    status filter over the post list and the editor's form state machine. The form's values are
    in module BlogForm, the publish time shown in and read back from the form in module
    PublishTime. */
module BlogManager {
  import opened Js
  import opened Seqs
  import opened ContentModel
  import opened ContentStore
  import opened Slugs
  import opened BlogForm
  import opened PublishTime

  // ---------------------------------------------------------------- post list

  datatype StatusFilter = AllStatuses | OnlyStatus(status: PostStatus)

  /** Whether a post is listed: the search term occurs, ignoring case, in either title or either
      content, and its status passes the filter. */
  predicate PostListed(p: BlogPost, term: string, filter: StatusFilter) {
    (IncludesIgnoringCase(p.title.he, term) || IncludesIgnoringCase(p.title.en, term)
     || IncludesIgnoringCase(p.content.he, term) || IncludesIgnoringCase(p.content.en, term))
    && (filter == AllStatuses || p.status == filter.status)
  }

  function ListedBy(term: string, filter: StatusFilter): BlogPost -> bool {
    (p: BlogPost) => PostListed(p, term, filter)
  }

  /** `filteredPosts`. */
  function FilteredPosts(posts: seq<BlogPost>, term: string, filter: StatusFilter): seq<BlogPost> {
    Filter(posts, ListedBy(term, filter))
  }

  /** Exactly the stored posts that match are listed, each as often as it is stored; with no
      search term and no status filter the whole list shows. */
  lemma FilteredPostsSpec(posts: seq<BlogPost>, term: string, filter: StatusFilter, p: BlogPost)
    ensures multiset(FilteredPosts(posts, term, filter))[p] ==
              if PostListed(p, term, filter) then multiset(posts)[p] else 0
    ensures FilteredPosts(posts, "", AllStatuses) == posts
  {
    FilterCount(posts, ListedBy(term, filter), p);
    forall i | 0 <= i < |posts| ensures ListedBy("", AllStatuses)(posts[i]) {
      EmptyTermMatches(posts[i].title.he);
    }
    FilterAll(posts, ListedBy("", AllStatuses));
  }

  // ---------------------------------------------------------------- editor

  /** The editor's state. `now16` parameters stand for `new Date().toISOString().slice(0, 16)`
      at the moment of the call. */
  class BlogEditor {
    var isEditing: bool
    var editingPost: Option<string>
    var searchTerm: string
    var filterStatus: StatusFilter
    var formData: PostFields
    const store: Store

    constructor (store: Store, now16: string)
      ensures !isEditing && editingPost == None && searchTerm == "" && filterStatus == AllStatuses
      ensures formData == EmptyForm(now16) && this.store == store
    {
      isEditing := false;
      editingPost := None;
      searchTerm := "";
      filterStatus := AllStatuses;
      formData := EmptyForm(now16);
      this.store := store;
    }

    /** The "new post" button opens the form as it stands. */
    method HandleNew()
      modifies this
      ensures isEditing && editingPost == old(editingPost) && formData == old(formData)
      ensures searchTerm == old(searchTerm) && filterStatus == old(filterStatus)
    {
      isEditing := true;
    }

    /** `handleEdit(post)`: opens the post in the form, its publish time cut to the minute. */
    method HandleEdit(post: BlogPost)
      modifies this
      ensures isEditing && editingPost == Some(post.id)
      ensures formData == PostFields(post.title, post.content, post.excerpt, post.slug,
                                     post.featuredImage, First16(post.publishedAt), post.status, post.author)
      ensures searchTerm == old(searchTerm) && filterStatus == old(filterStatus)
    {
      editingPost := Some(post.id);
      formData := PostFields(post.title, post.content, post.excerpt, post.slug,
                             post.featuredImage, First16(post.publishedAt), post.status, post.author);
      isEditing := true;
    }

    /** Typing a title in one language sets that title and that language's slug. */
    method HandleTitleChange(lang: Lang, value: string)
      modifies this
      ensures formData == TitleEdited(old(formData), lang, value)
      ensures isEditing == old(isEditing) && editingPost == old(editingPost)
      ensures searchTerm == old(searchTerm) && filterStatus == old(filterStatus)
    {
      formData := TitleEdited(formData, lang, value);
    }

    /** `handleCancel()`: closes the form and empties it. */
    method HandleCancel(now16: string)
      modifies this
      ensures !isEditing && editingPost == None && formData == EmptyForm(now16)
      ensures searchTerm == old(searchTerm) && filterStatus == old(filterStatus)
    {
      isEditing := false;
      editingPost := None;
      formData := EmptyForm(now16);
    }

    /** `handleSave()`. `publishedIso` is `new Date(formData.publishedAt).toISOString()`, or
        `None` when that throws on an invalid date. A form without both titles is refused; so is
        one whose date does not parse. Otherwise the post is updated in place (when a post is
        open for editing) or added with the id `newId`, and the form is reset. */
    method HandleSave(publishedIso: Option<string>, newId: string, now16: string) returns (saved: bool)
      modifies this, store
      ensures saved <==> old(formData.title.he) != "" && old(formData.title.en) != "" && publishedIso.Some?
      ensures !saved ==> formData == old(formData) && isEditing == old(isEditing)
                         && editingPost == old(editingPost) && store.blogPosts == old(store.blogPosts)
      ensures saved ==> !isEditing && editingPost == None && formData == EmptyForm(now16)
      ensures saved ==>
                var post := old(formData).(publishedAt := publishedIso.value);
                store.blogPosts ==
                  if old(editingPost).Some? && old(editingPost).value != ""
                  then UpdateById(old(store.blogPosts), PostId, old(editingPost).value, PostPatchWith(FullPatch(post)))
                  else [WithId(post, newId)] + old(store.blogPosts)
      ensures searchTerm == old(searchTerm) && filterStatus == old(filterStatus)
      ensures store.content == old(store.content) && store.mediaLibrary == old(store.mediaLibrary)
      ensures store.galleryItems == old(store.galleryItems)
      ensures store.contactSubmissions == old(store.contactSubmissions) && store.emailLogs == old(store.emailLogs)
    {
      if formData.title.he == "" || formData.title.en == "" {
        return false;
      }
      if publishedIso.None? {
        return false;
      }
      var post := formData.(publishedAt := publishedIso.value);
      if editingPost.Some? && editingPost.value != "" {
        store.UpdateBlogPost(editingPost.value, FullPatch(post));
      } else {
        store.SaveBlogPost(post, newId);
      }
      HandleCancel(now16);
      saved := true;
    }

    /** The corrected `handleEdit`: the form shows the publish time `t` of the post as the
        browser's local wall clock, the form a `datetime-local` input expects. */
    method HandleEditLocal(post: BlogPost, c: DateCodec, t: int, offset: int)
      requires post.publishedAt == c.iso(t)
      modifies this
      ensures isEditing && editingPost == Some(post.id)
      ensures formData == PostFields(post.title, post.content, post.excerpt, post.slug, post.featuredImage,
                                     First16(c.iso(t + offset * MsPerMinute)), post.status, post.author)
      ensures searchTerm == old(searchTerm) && filterStatus == old(filterStatus)
    {
      editingPost := Some(post.id);
      formData := PostFields(post.title, post.content, post.excerpt, post.slug, post.featuredImage,
                             First16(c.iso(t + offset * MsPerMinute)), post.status, post.author);
      isEditing := true;
    }

    /** Opening a stored post whose publish time is `t` and saving it unchanged, as written:
        `handleEdit` puts the UTC wall clock in the form, and `handleSave` reads it back as local
        time, `new Date(formData.publishedAt).toISOString()`. Every post with that id becomes the
        opened post with its publish time moved to `ResavedAsWritten(t, offset)`, which
        `ResaveMovesPublishTime` shows is off by the offset. */
    method ResaveAsWritten(post: BlogPost, c: DateCodec, t: int, offset: int, now16: string)
      requires post.publishedAt == c.iso(t) && c.wall(First16(c.iso(t))) == Some(UtcMinute(t))
      requires post.id != "" && post.title.he != "" && post.title.en != ""
      modifies this, store
      ensures |store.blogPosts| == |old(store.blogPosts)|
      ensures forall i :: 0 <= i < |old(store.blogPosts)| ==>
                store.blogPosts[i] ==
                  if old(store.blogPosts)[i].id == post.id
                  then post.(publishedAt := c.iso(ResavedAsWritten(t, offset)))
                  else old(store.blogPosts)[i]
    {
      HandleEdit(post);
      var shown := c.wall(formData.publishedAt);
      var publishedIso := if shown.Some? then Some(c.iso(ParseLocal(shown.value, offset))) else None;
      ghost var f := formData.(publishedAt := c.iso(ResavedAsWritten(t, offset)));
      SaveEditReplacesPost(store.blogPosts, post.id, f);
      var saved := HandleSave(publishedIso, "", now16);
    }

    /** The same, with the corrected `handleEdit`: every post with that id keeps its publish
        time, to the minute. */
    method ResaveLocal(post: BlogPost, c: DateCodec, t: int, offset: int, now16: string)
      requires post.publishedAt == c.iso(t)
      requires c.wall(First16(c.iso(t + offset * MsPerMinute))) == Some(UtcMinute(t + offset * MsPerMinute))
      requires post.id != "" && post.title.he != "" && post.title.en != ""
      modifies this, store
      ensures |store.blogPosts| == |old(store.blogPosts)|
      ensures forall i :: 0 <= i < |old(store.blogPosts)| ==>
                store.blogPosts[i] ==
                  if old(store.blogPosts)[i].id == post.id
                  then post.(publishedAt := c.iso(UtcMinute(t)))
                  else old(store.blogPosts)[i]
    {
      HandleEditLocal(post, c, t, offset);
      var shown := c.wall(formData.publishedAt);
      var publishedIso := if shown.Some? then Some(c.iso(ParseLocal(shown.value, offset))) else None;
      ResaveKeepsPublishTime(t, offset);
      ghost var f := formData.(publishedAt := c.iso(UtcMinute(t)));
      SaveEditReplacesPost(store.blogPosts, post.id, f);
      var saved := HandleSave(publishedIso, "", now16);
    }

    /** `handleDelete(id)` after the confirmation dialog. */
    method HandleDelete(id: string, confirmed: bool)
      modifies store
      ensures store.blogPosts == if confirmed then DeleteById(old(store.blogPosts), PostId, id) else old(store.blogPosts)
      ensures store.content == old(store.content) && store.mediaLibrary == old(store.mediaLibrary)
      ensures store.galleryItems == old(store.galleryItems)
      ensures store.contactSubmissions == old(store.contactSubmissions) && store.emailLogs == old(store.emailLogs)
    {
      if confirmed {
        store.DeleteBlogPost(id);
      }
    }
  }
}
