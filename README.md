# Photography studio site: content store and admin screens in Dafny

This project models the browser-side state of a bilingual (Hebrew/English) photography
studio website and its admin panel. The site has no server: the content store
(`ContentProvider`) keeps site content (one nested record) and five collections in memory:
media items, gallery items, contact submissions, blog posts and email logs. The admin
screens call the store's operations. The model covers:

- the content store (`content_store.dfy`, with its records and pure transformations in
  `content_model.dfy` and the content aggregate in `site_content.dfy`). It is a class
  `ContentStore.Store` with one field per state variable. Each method replaces the field it
  changes, as the React setters do, and states the new value of every field.
- the admin screens: gallery editor, blog manager, contact manager, content editor, design
  customizer and media library. Each is a class holding the screen's local state and a
  reference to the store. The public gallery page and the language provider are modelled too.
- the JavaScript semantics the code depends on (`js.dfy`): dynamically typed values,
  property reads that throw on `undefined`, strict-mode property writes, truthiness,
  `toLowerCase`/`includes`/`split`/`join`. Array `filter`, `indexOf` and the stable numeric
  `sort` are in `seqs.dfy`.

The environment supplies some values: generated ids, blob URLs, clock readings, the 95%
random success draw of the simulated email, the confirmation dialog, and a post's parsed
publish date. These are parameters. The site content is a generic value tree of
objects, strings, integers, booleans and `undefined` (`Js.Value`), because `updateContent` accepts any dotted path and any value.

The public gallery page starts on the tab `GalleryPage.InitialCategory`, which is `"all"`
(src/pages/Gallery.tsx:10).

Three behaviours of the code that the model reproduces:

- `updateContent` with a path whose intermediate section is missing throws. Reading a property of `undefined` throws a `TypeError`. Writing a property of a
  string or number throws too, because ES modules run in strict mode. In both cases the
  model returns `false` and leaves the state unchanged. A missing last segment is added.
- The email check reads `content.emailSettings.enabled`. When the whole `emailSettings`
  section is missing, that read throws inside the `try`, so a failed log entry is still
  written. But `addContactSubmission`, `sendContactEmail` and `sendTestEmail` read
  `content.emailSettings.toEmail` first, outside any `try`. So for them a missing section
  throws, and nothing is logged or stored.
- Every email attempt is prepended to the log, so the log is newest first.

## Model

| member | source | states |
|---|---|---|
| ContentStore.Store.Load | src/contexts/ContentContext.tsx:305-340 | each saved collection replaces the empty one; saved content is merged over the defaults |
| SiteContent.MergeSaved | src/contexts/ContentContext.tsx:310 | every default section is kept; each property the spread copies from the saved value replaces the default one whole and reads as in the saved value |
| Js.SpreadReadsBack | src/components/Admin/ContentEditor.tsx:29-30 | a key of `{...v}` reads as it reads of `v` when the spread copies it (not from `undefined`, not a string's `length`), and as `undefined` otherwise |
| ContentStore.Store.UpdateContent | src/contexts/ContentContext.tsx:365-377 | loop walks all but the last path segment; result is the path assignment, or unchanged state and `false` when the walk or the write throws; collections unchanged |
| SiteContent.AssignSucceedsIffParentIsObject | src/contexts/ContentContext.tsx:370-374 | the update succeeds iff walking all but the last segment reaches an object |
| SiteContent.WalkFailurePersists | src/contexts/ContentContext.tsx:370-372 | once a read along the path throws, the longer walk throws too |
| SiteContent.AssignThenWalk | src/contexts/ContentContext.tsx:374 | after the update the full path reads back the written value |
| SiteContent.AssignLeavesSiblings | src/contexts/ContentContext.tsx:365-375 | every path that leaves the updated path at some segment reads the same before and after |
| Js.Split | src/contexts/ContentContext.tsx:367 | `split` returns at least one piece and no piece contains the separator |
| ContentModel.AltTextSpec | src/contexts/ContentContext.tsx:387 | the alt text is the name without its final `.ext` (ext non-empty, no `.` or `/`); it is the whole name iff no such suffix exists |
| ContentModel.LastDot | src/contexts/ContentContext.tsx:387 | the index found holds a dot and no dot follows it, or it is -1 |
| ContentStore.Store.UploadMedia | src/contexts/ContentContext.tsx:383-399 | exactly one new item with the derived alt text is appended; everything else unchanged |
| ContentModel.MaxOrder | src/contexts/ContentContext.tsx:403 | the result is some item's order and no item's order exceeds it |
| ContentModel.NextOrder | src/contexts/ContentContext.tsx:402-414 | 0 for an empty category; otherwise one more than the largest order in the category |
| ContentStore.Store.UploadGalleryImage | src/contexts/ContentContext.tsx:401-422 | the new item is appended with the next order of its category; earlier items unchanged |
| ContentModel.UploadedImageComesLast | src/contexts/ContentContext.tsx:401-417 | a new upload reads back last in its category, after all earlier items |
| Seqs.FilterCount | src/contexts/ContentContext.tsx:631 | `filter` keeps each element satisfying the predicate as often as it occurs, and no other |
| Seqs.FilterConcat | src/contexts/ContentContext.tsx:631 | `filter` keeps the relative order of the kept elements |
| Seqs.SortByPermutation | src/contexts/ContentContext.tsx:632 | the sort returns a permutation of its input |
| Seqs.SortBySorted | src/contexts/ContentContext.tsx:632 | the sort returns non-decreasing keys |
| Seqs.SortByStable | src/contexts/ContentContext.tsx:632 | elements with equal keys keep their input order |
| ContentModel.ByCategorySpec | src/contexts/ContentContext.tsx:629-633 | exactly the category's items, as often as stored, sorted by order, ties in insertion order |
| Seqs.IndexOf | src/contexts/ContentContext.tsx:439 | -1 iff absent; otherwise the first position of the value |
| ContentModel.Reorder | src/contexts/ContentContext.tsx:436-443 | same length and positions; each item of the category takes its id's index, or keeps its order when absent; other categories unchanged |
| ContentModel.ReorderFrame | src/contexts/ContentContext.tsx:437-442 | only `order` changes, only for listed items of the category, and the new order indexes the item's id |
| ContentModel.ReorderedCategory | src/contexts/ContentContext.tsx:436-443 | given a permutation of the category's ids, every item of the category holds its id's position as its order |
| ContentModel.ReorderThenByCategory | src/contexts/ContentContext.tsx:436-446 | reordering by a duplicate-free arrangement of the category's ids reads the category back in exactly that order |
| ContentStore.Store.ReorderGalleryImages | src/contexts/ContentContext.tsx:436-446 | the gallery becomes the reorder of the old gallery; nothing else changes |
| ContentModel.DeleteByIdSpec | src/contexts/ContentContext.tsx:424-434 | a delete keeps exactly the elements with another id, in their order |
| ContentModel.DeleteByIdIdempotent | src/contexts/ContentContext.tsx:430-434 | repeating a delete is a no-op; deleting an absent id changes nothing |
| ContentModel.UpdateById | src/contexts/ContentContext.tsx:448-454 | same length; exactly the records with the id are transformed |
| ContentModel.UpdateThenDelete | src/contexts/ContentContext.tsx:585-597 | an id-preserving update is undone by deleting that id: no other record was touched |
| ContentModel.DeleteAllMembership | src/components/Admin/ContactManager.tsx:40-46 | after deleting a list of ids one by one, exactly the elements whose id was not listed remain |
| ContentStore.Store.DeleteMedia | src/contexts/ContentContext.tsx:424-428 | media library filtered by id; nothing else changes |
| ContentStore.Store.DeleteGalleryImage | src/contexts/ContentContext.tsx:430-434 | gallery filtered by id; nothing else changes |
| ContentStore.Store.UpdateGalleryImage | src/contexts/ContentContext.tsx:448-454 | matching gallery items get the patch merged in; nothing else changes |
| ContentModel.EmailError | src/contexts/ContentContext.tsx:466-490 | no error iff configured and the draw succeeds; otherwise the first failing check's message: missing settings, not configured, invalid configuration, or server unavailable |
| ContentStore.LogEntry | src/contexts/ContentContext.tsx:457-500 | the entry's status is success iff configured and the draw succeeds; it carries an error iff it failed |
| ContentStore.DefaultSettingsNeverSend | src/contexts/ContentContext.tsx:268-276 | with the shipped settings (disabled, no credentials) every attempt fails as not configured |
| ContentStore.Store.SendEmail | src/contexts/ContentContext.tsx:456-508 | exactly one log entry is prepended; the result is true iff that entry is a success; nothing else changes |
| ContentModel.NewSubmission | src/contexts/ContentContext.tsx:511-541 | the new submission is unread; `emailSent` is the email result; it has an error iff sending failed |
| ContentStore.Store.AddContactSubmission | src/contexts/ContentContext.tsx:510-546 | one log entry and one submission are prepended, or nothing changes when the email settings are missing |
| ContentStore.Store.SendNotification | src/contexts/ContentContext.tsx:548-583 | one attempt to the configured recipient, or the TypeError of missing settings |
| ContentStore.Store.SendContactEmail | src/contexts/ContentContext.tsx:548-566 | one contact-type log entry is prepended; submissions unchanged |
| ContentStore.Store.SendTestEmail | src/contexts/ContentContext.tsx:568-583 | one test-type log entry is prepended |
| ContentStore.Store.MarkContactAsRead | src/contexts/ContentContext.tsx:585-591 | only submissions with the id become read; nothing else changes |
| ContentStore.Store.DeleteContact | src/contexts/ContentContext.tsx:593-597 | submissions filtered by id; nothing else changes |
| ContentStore.Store.SaveBlogPost | src/contexts/ContentContext.tsx:599-608 | exactly one post with the given id is prepended |
| ContentStore.Store.UpdateBlogPost | src/contexts/ContentContext.tsx:610-616 | matching posts get the patch merged in; nothing else changes |
| ContentStore.Store.DeleteBlogPost | src/contexts/ContentContext.tsx:618-622 | posts filtered by id; nothing else changes |
| ContentStore.Store.ApplyDesignChanges | src/contexts/ContentContext.tsx:624-627 | the design section is replaced whole; other sections and collections unchanged |
| Js.Contains | src/components/Admin/GalleryEditor.tsx:47-48 | `includes` holds iff the term occurs at some position |
| Js.Lower | src/components/Admin/GalleryEditor.tsx:47-48 | lower-casing keeps the length and maps each character |
| Js.EmptyTermMatches | src/components/Admin/GalleryEditor.tsx:46-49 | every string contains the empty search term |
| GalleryEditor.DisplayedImagesSpec | src/components/Admin/GalleryEditor.tsx:46-49 | shown iff in the active category and the file name or alt contains the term; the view is sorted by order |
| GalleryEditor.EmptySearchShowsCategory | src/components/Admin/GalleryEditor.tsx:46-49 | with no search the view is the whole category in store order |
| GalleryEditor.MoveToSpec | src/components/Admin/GalleryEditor.tsx:111-115 | the move is a permutation, puts the dragged item at the target index, and keeps the others' relative order |
| GalleryEditor.MovedAtIsMoveTo | src/components/Admin/GalleryEditor.tsx:111-113 | the position-by-position shift description equals the splice move |
| GalleryEditor.SpliceMove | src/components/Admin/GalleryEditor.tsx:111-113 | the in-place array becomes the splice move of its old contents |
| GalleryEditor.Editor.HandleReorder | src/components/Admin/GalleryEditor.tsx:104-118 | no change unless both ids are shown; otherwise the store reorders the category by the moved list of shown ids |
| GalleryEditor.DragThenReadBack | src/components/Admin/GalleryEditor.tsx:104-116 | with no search and unique ids, the category reads back in the dragged order |
| GalleryEditor.HiddenItemsKeepOrder | src/components/Admin/GalleryEditor.tsx:104-116 | items hidden by the search keep their order through a drag |
| GalleryEditor.Editor.HandleDropOnImage | src/components/Admin/GalleryEditor.tsx:223-227 | dropping with nothing dragged, or onto the dragged item itself, changes nothing; dropping another dragged image reorders exactly as the reorder handler does with that image's id |
| GalleryEditor.UploadAllSpec | src/components/Admin/GalleryEditor.tsx:54-59 | uploads keep existing items and add one item per image file, all in the active category |
| GalleryEditor.Editor.HandleFileUpload | src/components/Admin/GalleryEditor.tsx:51-68 | only `image/` files are uploaded; the reported count is the number of image files |
| GalleryEditor.Editor.HandleDelete | src/components/Admin/GalleryEditor.tsx:82-87 | deletes only when confirmed |
| GalleryEditor.Editor.HandleUpdateImage | src/components/Admin/GalleryEditor.tsx:89-93 | applies the patch to matching items and closes the edit dialog |
| GalleryEditor.Editor.HandleDragStart | src/components/Admin/GalleryEditor.tsx:95-98 | records the dragged id |
| GalleryEditor.Editor.HandleDragEnd | src/components/Admin/GalleryEditor.tsx:100-102 | clears the dragged id |
| GalleryEditor.Editor.constructor | src/components/Admin/GalleryEditor.tsx:31-35 | starts on `chalaka` with no search, drag or edit |
| GalleryPage.AllImagesHoldsShownCategories | src/pages/Gallery.tsx:22-28 | the "all" view is a permutation of the stored items of the four categories; other categories never appear |
| GalleryPage.AllImagesNewestFirst | src/pages/Gallery.tsx:29 | the "all" view is in non-increasing upload time; equal times keep the concatenated order |
| GalleryPage.FilteredImagesMembers | src/pages/Gallery.tsx:32-34 | on "all" an item shows iff it is in one of the four categories; on any other tab iff it is in that category |
| BlogManager.FilteredPostsSpec | src/components/Admin/BlogManager.tsx:25-36 | a post is listed iff a title or content contains the term and the status passes the filter; empty search and `all` list everything |
| BlogForm.TitleEditedSpec | src/components/Admin/BlogManager.tsx:257-263 | typing a title sets that language's title and its slug as `generateSlug` writes it, a string of slug characters that is its own slug; the other language and all other fields are unchanged |
| BlogManager.BlogEditor.HandleTitleChange | src/components/Admin/BlogManager.tsx:274-280 | the form becomes the title edit of the old form, with the slug as written |
| BlogManager.BlogEditor.HandleSave | src/components/Admin/BlogManager.tsx:53-73 | refused with no store call when a title is empty; otherwise updates the open post or prepends a new one, then resets the form |
| BlogForm.SaveEditReplacesPost | src/components/Admin/BlogManager.tsx:64-65 | saving an edited post replaces exactly the posts with that id by the form |
| BlogManager.BlogEditor.HandleCancel | src/components/Admin/BlogManager.tsx:75-88 | closes the editor and resets the form to its defaults |
| BlogManager.BlogEditor.HandleEdit | src/components/Admin/BlogManager.tsx:38-51 | opens the post in the form with its publish time cut to 16 characters |
| BlogForm.First16 | src/components/Admin/BlogManager.tsx:46 | the result is the first 16 characters, or the whole string when shorter |
| BlogManager.BlogEditor.HandleNew | src/components/Admin/BlogManager.tsx:110 | opens the editor with the form as it stands |
| BlogManager.BlogEditor.HandleDelete | src/components/Admin/BlogManager.tsx:90-95 | deletes only when confirmed |
| BlogManager.BlogEditor.constructor | src/components/Admin/BlogManager.tsx:9-23 | starts closed, unfiltered, with the empty form |
| PublishTime.ResaveMovesPublishTime | src/components/Admin/BlogManager.tsx:46 | as written, each unchanged save moves the publish time by the offset again, so two saves move it twice; a save keeps it iff the browser is on UTC |
| BlogManager.BlogEditor.ResaveAsWritten | src/components/Admin/BlogManager.tsx:38-73 | opening a post and saving it unchanged leaves every post with that id as the opened post, its publish time `ResavedAsWritten` of the old one, and every other post as it was |
| BlogManager.BlogEditor.HandleEditLocal | src/components/Admin/BlogManager.tsx:38-51 | the corrected edit: the form shows the publish time as the local wall clock |
| BlogManager.BlogEditor.ResaveLocal | src/components/Admin/BlogManager.tsx:38-73 | with the corrected edit, an unchanged save leaves every post with that id as the opened post with its publish time kept to the minute |
| PublishTime.ResaveKeepsPublishTime | src/components/Admin/BlogManager.tsx:59-62 | with the local wall clock in the form, an unchanged save keeps the time to the minute, and a second save changes nothing |
| Slugs.Runs | src/components/Admin/BlogManager.tsx:101 | hyphenation leaves no whitespace |
| Slugs.HyphenateRun | src/components/Admin/BlogManager.tsx:101 | each maximal whitespace run becomes exactly one hyphen |
| Slugs.StrippedChars | src/components/Admin/BlogManager.tsx:99-100 | after lower-casing and stripping, only `[a-z0-9_-]` and whitespace remain; Hebrew letters are dropped |
| Slugs.TrimSpec | src/components/Admin/BlogManager.tsx:102 | `trim` keeps characters of its input and leaves no whitespace at either end |
| Slugs.SlugTrimIsDead | src/components/Admin/BlogManager.tsx:97-103 | the final `trim` of the written slug never removes anything |
| Slugs.LeadingSpaceSlug | src/components/Admin/BlogManager.tsx:97-103 | the title " a" gets the slug "-a" as written and "a" once trimmed first |
| Slugs.SlugAsWrittenCharsIdempotent | src/components/Admin/BlogManager.tsx:97-103 | the written slug holds only `[a-z0-9_-]` and is its own slug |
| Slugs.SlugChars | src/components/Admin/BlogManager.tsx:97-103 | the corrected slug (trimmed before hyphenation) holds only `[a-z0-9_-]` |
| Slugs.SlugIdempotent | src/components/Admin/BlogManager.tsx:97-103 | the corrected slug of a corrected slug is that slug |
| Slugs.SlugEnds | src/components/Admin/BlogManager.tsx:97-103 | for a title without hyphens, the slug neither starts nor ends with a hyphen |
| ContactManager.FilteredContactsSpec | src/components/Admin/ContactManager.tsx:14-26 | listed iff name, email or message contains the term and the read state passes the filter |
| ContactManager.ReadUnreadPartition | src/components/Admin/ContactManager.tsx:20-23 | the read and unread views split the full view |
| ContactManager.MarkReadLowersUnread | src/components/Admin/ContactManager.tsx:140 | marking an id read lowers the unread count by that id's unread submissions |
| ContactManager.ExportLines | src/components/Admin/ContactManager.tsx:49-60 | with no line breaks in the values, the file is the header line and then one line per listed contact, in order |
| ContactManager.CsvRowAsWrittenReadsBack | src/components/Admin/ContactManager.tsx:52-58 | a written row reads back as its six values when the unquoted ones are comma-free; the status is the read label iff read |
| ContactManager.CellsRoundTrip | src/components/Admin/ContactManager.tsx:52-59 | any row whose fields are either quoted or left bare only when free of commas and of a leading quote reads back as the fields' texts |
| ContactManager.CommaInNameSplits | src/components/Admin/ContactManager.tsx:52-59 | as written, a name with a comma is read back cut at the comma |
| ContactManager.QuotedFieldEscape | src/components/Admin/ContactManager.tsx:56 | a quoted field with doubled inner quotes reads back as the original text |
| ContactManager.QuotedRecordRoundTrip | src/components/Admin/ContactManager.tsx:56 | a record of quoted fields reads back as its fields, whatever they contain |
| ContactManager.CsvRowRoundTrip | src/components/Admin/ContactManager.tsx:52-59 | a fully quoted row reads back as its six values |
| ContactManager.Inbox.HandleSelectAll | src/components/Admin/ContactManager.tsx:171-177 | selects all shown ids or none; the header box is then checked iff some row is shown |
| ContactManager.Inbox.HandleCheck | src/components/Admin/ContactManager.tsx:200-205 | checking appends the id; unchecking removes exactly that id |
| ContactManager.Inbox.HandleMarkAsRead | src/components/Admin/ContactManager.tsx:28-31 | marks the id read in the store |
| ContactManager.Inbox.HandleDelete | src/components/Admin/ContactManager.tsx:33-38 | deletes only when confirmed |
| ContactManager.Inbox.HandleBulkDelete | src/components/Admin/ContactManager.tsx:40-46 | when confirmed, deletes each selected id in turn and empties the selection |
| ContactManager.BulkDeleteKeepsEarlierSelections | src/components/Admin/ContactManager.tsx:42 | as run on one render's list, only the last selected id is deleted |
| ContactManager.Inbox.constructor | src/components/Admin/ContactManager.tsx:9-12 | starts unfiltered with nothing selected |
| Language.ParseSaved | src/contexts/LanguageContext.tsx:128-132 | a saved value is adopted iff it is `he` or `en` |
| Language.SavedRoundTrip | src/contexts/LanguageContext.tsx:129-137 | a stored language reads back as itself |
| Language.Translate | src/contexts/LanguageContext.tsx:142-144 | the active language's non-empty text, otherwise the key itself |
| Language.LanguageState.SetLanguage | src/contexts/LanguageContext.tsx:135-140 | sets and stores the language, the direction (`rtl` iff Hebrew) and the document language |
| Language.DirectionIsRtlIffHebrew | src/contexts/LanguageContext.tsx:138 | the direction is `rtl` iff the language is Hebrew, `ltr` iff English |
| Language.LanguageState.constructor | src/contexts/LanguageContext.tsx:126-133 | starts in Hebrew and adopts a valid saved language |
| ContentEditor.EditPathSegments | src/components/Admin/ContentEditor.tsx:24 | the edit path is the section followed by the field's own segments |
| ContentEditor.NestedFieldPath | src/components/Admin/ContentEditor.tsx:331 | `socialMedia.instagram` under a section is a three-segment path |
| ContentEditor.MergeBilingual | src/components/Admin/ContentEditor.tsx:29-30 | the edited language holds the new text; a missing pair counts as two empty texts |
| ContentEditor.StringFieldMerge | src/components/Admin/ContentEditor.tsx:29-30 | a field holding the string "ab" is spread by index: editing its Hebrew text stores `{0: "a", 1: "b", he: "x"}` |
| ContentEditor.MergeKeepsOtherLanguage | src/components/Admin/ContentEditor.tsx:29-30 | the other language reads as it read of the old value when that was truthy (an object, or a string, whose indices are copied), and as the empty text otherwise |
| ContentEditor.BilingualEditLands | src/components/Admin/ContentEditor.tsx:28-31 | succeeds iff the section is an object; the pair at the path holds the merge; other paths are untouched |
| ContentEditor.Editor.HandleContentChange | src/components/Admin/ContentEditor.tsx:23-26 | `ok` iff the write at `section.field` does not throw, and the content is then that write; the unsaved flag is set either way, since the update is asynchronous and not awaited |
| ContentEditor.Editor.HandleBilingualChange | src/components/Admin/ContentEditor.tsx:28-33 | the merged pair is written at `section.field` when the write does not throw; the unsaved flag is set exactly when the read of the current pair does not throw |
| ContentEditor.Editor.HandleSave | src/components/Admin/ContentEditor.tsx:35-38 | only clears the flag; the save button is then disabled |
| ContentEditor.Editor.constructor | src/components/Admin/ContentEditor.tsx:11-13 | starts on `hero`, Hebrew, with no unsaved changes |
| DesignCustomizer.WithGroupKey | src/components/Admin/DesignCustomizer.tsx:70-78 | fails only on `undefined` settings; otherwise the group is an object |
| DesignCustomizer.WithGroupKeySpec | src/components/Admin/DesignCustomizer.tsx:70-98 | the key holds the value; other keys of the group and other groups are unchanged |
| DesignCustomizer.WithPreset | src/components/Admin/DesignCustomizer.tsx:100-105 | colours become the preset's palette; every other key reads as before wherever the spread copies it |
| DesignCustomizer.Customizer.constructor | src/components/Admin/DesignCustomizer.tsx:9-10 | starts from the store's design, preview off |
| DesignCustomizer.Customizer.ApplyIfPreviewing | src/components/Admin/DesignCustomizer.tsx:128-133 | in preview the store's design becomes the local settings; otherwise nothing changes |
| DesignCustomizer.Customizer.HandleColorChange | src/components/Admin/DesignCustomizer.tsx:70-78 | one colour key changes; the store follows in preview |
| DesignCustomizer.Customizer.HandleFontChange | src/components/Admin/DesignCustomizer.tsx:80-88 | one font key changes; the store follows in preview |
| DesignCustomizer.Customizer.HandleLayoutChange | src/components/Admin/DesignCustomizer.tsx:90-98 | one layout key changes; the store follows in preview |
| DesignCustomizer.Customizer.ApplyPreset | src/components/Admin/DesignCustomizer.tsx:100-105 | the local palette is replaced whole; the store follows in preview |
| DesignCustomizer.Customizer.HandleSave | src/components/Admin/DesignCustomizer.tsx:107-110 | the store's design becomes the local settings |
| DesignCustomizer.Customizer.HandleResetAsWritten | src/components/Admin/DesignCustomizer.tsx:112-115 | local settings copied back from the store; in preview this changes nothing |
| DesignCustomizer.Customizer.HandleReset | src/components/Admin/DesignCustomizer.tsx:112-115 | local settings, and the store in preview, return to the committed design |
| DesignCustomizer.Customizer.HandlePreviewAsWritten | src/components/Admin/DesignCustomizer.tsx:117-126 | flips preview; the store's design ends as the local settings in both directions |
| DesignCustomizer.Customizer.HandlePreview | src/components/Admin/DesignCustomizer.tsx:117-126 | flips preview; entering shows the local settings, leaving restores the design preview started from |
| DesignCustomizer.Customizer.PreviewColorAsWritten | src/components/Admin/DesignCustomizer.tsx:117-133 | preview on, change a colour, preview off: the unsaved colour stays in the store |
| DesignCustomizer.Customizer.PreviewColor | src/components/Admin/DesignCustomizer.tsx:117-133 | the same steps leave the store's design as before the preview |
| MediaLibrary.FilteredMediaSpec | src/components/Admin/MediaLibrary.tsx:16-19 | listed iff the file name or alt contains the term; empty search shows all |
| MediaLibrary.ImageUploadsSpec | src/components/Admin/MediaLibrary.tsx:24-29 | one new item per image file, in file order, carrying that file's name, size, type and alt text |
| MediaLibrary.Library.HandleFileUpload | src/components/Admin/MediaLibrary.tsx:21-36 | the loop appends the image uploads in order; the reported count is the number of files chosen |
| MediaLibrary.Library.HandleCheck | src/components/Admin/MediaLibrary.tsx:178-184 | checking appends the id; unchecking removes exactly that id |
| MediaLibrary.Library.HandleDelete | src/components/Admin/MediaLibrary.tsx:50-55 | deletes only when confirmed |
| MediaLibrary.Library.HandleBulkDelete | src/components/Admin/MediaLibrary.tsx:57-63 | when confirmed, deletes each selected id in turn and clears the selection |
| MediaLibrary.Library.constructor | src/components/Admin/MediaLibrary.tsx:10-12 | starts with no search, no selection, not uploading |

## Findings

| source | as written | input that shows it | evidently intended | confidence | as-written member | corrected member |
|---|---|---|---|---|---|---|
| src/components/Admin/DesignCustomizer.tsx:117-126 | leaving preview applies `content.design`, which the preview effect has already overwritten with the local settings | turn preview on, change a colour, turn preview off | leaving preview restores the saved design ("Reset to saved design") | high, not executed | DesignCustomizer.Customizer.PreviewColorAsWritten | DesignCustomizer.Customizer.PreviewColor |
| src/components/Admin/DesignCustomizer.tsx:112-115 | in preview, reset copies `content.design`, which already equals the local settings | reset while previewing | reset discards the unsaved changes | high, not executed | DesignCustomizer.Customizer.HandleResetAsWritten | DesignCustomizer.Customizer.HandleReset |
| src/components/Admin/BlogManager.tsx:97-103 | `trim()` runs after whitespace became hyphens, so it never removes anything | title " a" gives the slug "-a" | surrounding whitespace is dropped, giving "a" | medium, not executed | Slugs.LeadingSpaceSlug | Slugs.SlugEnds |
| src/components/Admin/BlogManager.tsx:46 | the form shows the UTC wall clock, and saving parses it as local time | 10:00 UTC, saved unchanged from a browser at UTC+2, becomes 08:00 UTC | an unchanged save keeps the publish time | high, not executed | PublishTime.ResaveMovesPublishTime | PublishTime.ResaveKeepsPublishTime |
| src/components/Admin/ContactManager.tsx:52-59 | only the message is quoted | a name "Cohen, Dana" reads back as "Cohen" | every field reads back as written (quote each field that needs it, section 2 of RFC 4180) | medium, not executed | ContactManager.CommaInNameSplits | ContactManager.CsvRowRoundTrip |
| src/components/Admin/ContactManager.tsx:42 | every `deleteContact` call filters the list of the same render, so only the last call's result survives | select two contacts and bulk-delete | every selected contact is deleted | high, not executed | ContactManager.BulkDeleteKeepsEarlierSelections | ContentModel.DeleteAllMembership |

## Left out

- Storage: the `localStorage` reads and writes, JSON encoding and the swallowed storage
  errors are browser I/O. The store's fields stand for the last value written under each
  key. `saveContent` only persists, so it is not modelled.
- `ContentStore.Store.UpdateContent`: the code copies only the top level. The walk then
  writes into nested objects that the previous state and the default content share. The
  model rebuilds each container on the path instead, so it does not capture that aliasing.
- React render timing: each store function closes over the state of the render that
  created it. In the app, `forEach(deleteContact)`, `forEach(deleteMedia)`, the parallel
  `Promise.all` gallery uploads and the sequential media uploads therefore all start from
  the same list, and only the last call's result is kept. The methods model each call as
  acting on the current state. `ContactManager.BulkDeleteKeepsEarlierSelections` shows
  the difference for contacts.
- `ContentStore.Store.SendEmail`: the 1.5-second delay and the 95% random draw are the
  parameter `randomOk`. The email body is not modelled, because it is never stored.
- DOM effects: CSS variable injection in `applyDesignChanges`, the root element's `dir` and
  `lang` (kept as fields of `Language.LanguageState`), `window.confirm` (a boolean
  parameter), the anchor-click download of the CSV, toasts and animation.
- `Js.Get` and `Js.Spread`: only own properties are modelled: an object's fields, and a
  string's `length` and indices. Inherited members (`toString`, `constructor`, a string's
  methods) read as `undefined`. `null`, arrays and non-integer numbers are not values of the
  model. The screens modelled here never write them into the content.
- `Js.Lower`: lower-cases ASCII letters only. `toLowerCase` also maps non-ASCII capitals.
  This does not matter for Hebrew, which has no case.
- Dates: upload times are integer milliseconds; their ISO strings encode them one-to-one.
  Other timestamps and the locale-formatted dates in the CSV are opaque strings. The
  "this week" counter reads the clock and is left out. `formatFileSize` uses floating
  point and is left out too.
- `BlogManager.BlogEditor.HandleSave`: the date parse `new Date(...).toISOString()` is the
  parameter `publishedIso`, which is `None` when the date is invalid (where the code throws).
  `BlogManager.BlogEditor.ResaveAsWritten` and `ResaveLocal` supply it from a
  `PublishTime.DateCodec`. That codec stands for the browser's `toISOString` and its reading of a
  `YYYY-MM-DDTHH:mm` string. The model takes of it only what the requires clauses state; the
  calendar arithmetic behind ISO strings is not modelled.
- Login and the session store: their source is not part of this model. EmailSettings and
  AnalyticsSettings only copy store fields into local state. The pages Home, About,
  Contact and Dashboard, and the layout components, only render.
- The translation dictionaries are data. `Language.Translate` takes them as a parameter.
