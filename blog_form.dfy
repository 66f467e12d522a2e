/** The post form of the blog editor (src/components/Admin/BlogManager.tsx): its empty state,
    the title and slug edits, and what a save writes to the store. */
module BlogForm {
  import opened ContentModel
  import opened ContentStore
  import opened Slugs

  /** `post.publishedAt.slice(0, 16)`. */
  function First16(s: string): (r: string)
    ensures |r| == if |s| < 16 then |s| else 16
    ensures r == s[..|r|]
  {
    if |s| <= 16 then s else s[..16]
  }

  /** The empty form: blank texts, the given time, a draft by "Admin". */
  function EmptyForm(now16: string): PostFields {
    PostFields(Bilingual("", ""), Bilingual("", ""), Bilingual("", ""), Bilingual("", ""),
               "", now16, Draft, "Admin")
  }

  /** Saving an edited post replaces every stored post with that id by the form's fields and
      leaves the others as they were. */
  lemma SaveEditReplacesPost(posts: seq<BlogPost>, id: string, f: PostFields)
    ensures |UpdateById(posts, PostId, id, PostPatchWith(FullPatch(f)))| == |posts|
    ensures forall i :: 0 <= i < |posts| ==>
              UpdateById(posts, PostId, id, PostPatchWith(FullPatch(f)))[i] ==
                if posts[i].id == id then WithId(f, id) else posts[i]
  {
  }

  /** The form after typing `value` as the title in `lang`: the slug is `generateSlug` as the
      program writes it. */
  function TitleEdited(f: PostFields, lang: Lang, value: string): PostFields {
    f.(title := WithText(f.title, lang, value), slug := WithText(f.slug, lang, GenerateSlugAsWritten(value)))
  }

  /** Typing a title sets that language's title and that language's slug, a string of slug
      characters that is its own slug, and keeps the other language's title and slug and every
      other field of the form. */
  lemma TitleEditedSpec(f: PostFields, lang: Lang, value: string, other: Lang)
    requires other != lang
    ensures Text(TitleEdited(f, lang, value).title, lang) == value
    ensures Text(TitleEdited(f, lang, value).slug, lang) == GenerateSlugAsWritten(value)
    ensures var slug := Text(TitleEdited(f, lang, value).slug, lang);
            (forall i :: 0 <= i < |slug| ==> IsSlugChar(slug[i])) && GenerateSlugAsWritten(slug) == slug
    ensures Text(TitleEdited(f, lang, value).title, other) == Text(f.title, other)
    ensures Text(TitleEdited(f, lang, value).slug, other) == Text(f.slug, other)
    ensures TitleEdited(f, lang, value).(title := f.title, slug := f.slug) == f
  {
    SlugAsWrittenCharsIdempotent(value);
  }
}
