/** The media library screen (src/components/Admin/MediaLibrary.tsx): search over file names
    and alt texts, sequential upload of the image files among a selection, ticked items and
    single and bulk deletes. */
module MediaLibrary {
  import opened Js
  import opened Seqs
  import opened ContentModel
  import opened ContentStore
  import opened GalleryEditor

  /** The search test: the file name or the alt text contains the term, ignoring case. */
  predicate MediaListed(m: MediaItem, term: string) {
    IncludesIgnoringCase(m.filename, term) || IncludesIgnoringCase(m.alt, term)
  }

  function ListedBy(term: string): MediaItem -> bool {
    (m: MediaItem) => MediaListed(m, term)
  }

  /** `filteredMedia`. */
  function FilteredMedia(items: seq<MediaItem>, term: string): seq<MediaItem> {
    Filter(items, ListedBy(term))
  }

  /** Exactly the matching items are shown, each as often as stored and in library order; an
      empty search shows the whole library. */
  lemma FilteredMediaSpec(items: seq<MediaItem>, term: string, m: MediaItem)
    ensures multiset(FilteredMedia(items, term))[m] == if MediaListed(m, term) then multiset(items)[m] else 0
    ensures FilteredMedia(items, "") == items
  {
    FilterCount(items, ListedBy(term), m);
    forall i | 0 <= i < |items| ensures ListedBy("")(items[i]) {
      EmptyTermMatches(items[i].filename);
    }
    FilterAll(items, ListedBy(""));
  }

  /** The items the upload loop appends: one per image file, in file order. */
  function ImageUploads(files: seq<FileInfo>, stamps: seq<UploadStamp>): seq<MediaItem>
    requires |stamps| == |files|
    decreases |files|
  {
    if files == [] then []
    else
      var n := |files| - 1;
      ImageUploads(files[..n], stamps[..n]) + (if IsImage(files[n]) then [NewMediaItem(files[n], stamps[n])] else [])
  }

  /** The item `m` records the file `f`: its name, size, type and derived alt text. */
  predicate Records(m: MediaItem, f: FileInfo) {
    m.filename == f.name && m.size == f.size && m.mimeType == f.mimeType && m.alt == AltText(f.name)
  }

  /** Only image files are uploaded, each once and in order: the k-th new item records the k-th
      image file, and a file of another type adds nothing. */
  lemma {:induction false} ImageUploadsSpec(files: seq<FileInfo>, stamps: seq<UploadStamp>)
    requires |stamps| == |files|
    ensures |ImageUploads(files, stamps)| == |Filter(files, IsImage)|
    ensures forall k :: 0 <= k < |ImageUploads(files, stamps)| ==>
              Records(ImageUploads(files, stamps)[k], Filter(files, IsImage)[k])
    decreases |files|
  {
    if files != [] {
      var n := |files| - 1;
      var prev := ImageUploads(files[..n], stamps[..n]);
      var fp := Filter(files[..n], IsImage);
      ImageUploadsSpec(files[..n], stamps[..n]);
      assert files == files[..n] + [files[n]];
      FilterConcat(files[..n], [files[n]], IsImage);
      var all := Filter(files, IsImage);
      var ups := ImageUploads(files, stamps);
      if IsImage(files[n]) {
        assert Filter([files[n]], IsImage) == [files[n]];
        assert all == fp + [files[n]];
        assert ups == prev + [NewMediaItem(files[n], stamps[n])];
      } else {
        assert Filter([files[n]], IsImage) == [];
        assert all == fp;
        assert ups == prev;
      }
      forall k | 0 <= k < |ups| ensures Records(ups[k], all[k]) {
        if k < |prev| {
          assert ups[k] == prev[k] && all[k] == fp[k];
        }
      }
    }
  }

  /** One more file of the loop uploads it when it is an image. */
  lemma ImageUploadsStep(files: seq<FileInfo>, stamps: seq<UploadStamp>, i: nat)
    requires |stamps| == |files| && i < |files|
    ensures ImageUploads(files[..i + 1], stamps[..i + 1]) ==
              ImageUploads(files[..i], stamps[..i]) + (if IsImage(files[i]) then [NewMediaItem(files[i], stamps[i])] else [])
  {
    assert files[..i + 1][..i] == files[..i] && stamps[..i + 1][..i] == stamps[..i];
  }

  /** The screen's state: the search term, the ticked ids and the upload spinner. */
  class Library {
    var searchTerm: string
    var selectedMedia: seq<string>
    var isUploading: bool
    const store: Store

    constructor (store: Store)
      ensures searchTerm == "" && selectedMedia == [] && !isUploading && this.store == store
    {
      searchTerm := "";
      selectedMedia := [];
      isUploading := false;
      this.store := store;
    }

    /** The items the grid shows. */
    function Displayed(): seq<MediaItem>
      reads this, store
    {
      FilteredMedia(store.mediaLibrary, searchTerm)
    }

    /** `handleFileUpload(files)`: uploads the image files one after another and reports the
        number of files chosen, skipped ones included. */
    method HandleFileUpload(files: seq<FileInfo>, stamps: seq<UploadStamp>) returns (reported: nat)
      requires |stamps| == |files|
      modifies this, store
      ensures reported == |files|
      ensures store.mediaLibrary == old(store.mediaLibrary) + ImageUploads(files, stamps)
      ensures !isUploading && searchTerm == old(searchTerm) && selectedMedia == old(selectedMedia)
      ensures store.content == old(store.content) && store.galleryItems == old(store.galleryItems)
      ensures store.contactSubmissions == old(store.contactSubmissions) && store.blogPosts == old(store.blogPosts)
      ensures store.emailLogs == old(store.emailLogs)
    {
      isUploading := true;
      var i := 0;
      while i < |files|
        invariant 0 <= i <= |files|
        invariant store.mediaLibrary == old(store.mediaLibrary) + ImageUploads(files[..i], stamps[..i])
        invariant searchTerm == old(searchTerm) && selectedMedia == old(selectedMedia)
        invariant store.content == old(store.content) && store.galleryItems == old(store.galleryItems)
        invariant store.contactSubmissions == old(store.contactSubmissions) && store.blogPosts == old(store.blogPosts)
        invariant store.emailLogs == old(store.emailLogs)
      {
        ImageUploadsStep(files, stamps, i);
        if IsImage(files[i]) {
          var item := store.UploadMedia(files[i], stamps[i]);
          assert store.mediaLibrary == old(store.mediaLibrary) + (ImageUploads(files[..i], stamps[..i]) + [item]);
        }
        i := i + 1;
      }
      assert files[..i] == files && stamps[..i] == stamps;
      reported := |files|;
      isUploading := false;
    }

    /** An item's checkbox appends its id when ticked and removes that id when cleared. */
    method HandleCheck(id: string, checked: bool)
      modifies this
      ensures checked ==> selectedMedia == old(selectedMedia) + [id]
      ensures !checked ==> selectedMedia == Filter(old(selectedMedia), (x: string) => x != id)
      ensures !checked ==>
                id !in selectedMedia &&
                forall x :: x != id ==> (x in selectedMedia <==> x in old(selectedMedia))
      ensures searchTerm == old(searchTerm) && isUploading == old(isUploading)
    {
      if checked {
        selectedMedia := selectedMedia + [id];
      } else {
        selectedMedia := Filter(selectedMedia, (x: string) => x != id);
        forall x ensures x in selectedMedia <==> x in old(selectedMedia) && x != id {
          FilterMembership(old(selectedMedia), (x: string) => x != id, x);
        }
      }
    }

    /** `handleDelete(id)` after the confirmation dialog. */
    method HandleDelete(id: string, confirmed: bool)
      modifies store
      ensures store.mediaLibrary == if confirmed then DeleteById(old(store.mediaLibrary), MediaId, id)
                                    else old(store.mediaLibrary)
      ensures store.content == old(store.content) && store.galleryItems == old(store.galleryItems)
      ensures store.contactSubmissions == old(store.contactSubmissions) && store.blogPosts == old(store.blogPosts)
      ensures store.emailLogs == old(store.emailLogs)
    {
      if confirmed {
        store.DeleteMedia(id);
      }
    }

    /** `handleBulkDelete()`: after confirmation, deletes the ticked ids one after another and
        clears the selection. */
    method HandleBulkDelete(confirmed: bool)
      modifies this, store
      ensures confirmed ==>
                selectedMedia == [] &&
                store.mediaLibrary == DeleteAll(old(store.mediaLibrary), MediaId, old(selectedMedia))
      ensures !confirmed ==>
                selectedMedia == old(selectedMedia) && store.mediaLibrary == old(store.mediaLibrary)
      ensures searchTerm == old(searchTerm) && isUploading == old(isUploading)
      ensures store.content == old(store.content) && store.galleryItems == old(store.galleryItems)
      ensures store.contactSubmissions == old(store.contactSubmissions) && store.blogPosts == old(store.blogPosts)
      ensures store.emailLogs == old(store.emailLogs)
    {
      if !confirmed {
        return;
      }
      var ids := selectedMedia;
      var i := 0;
      while i < |ids|
        invariant 0 <= i <= |ids|
        invariant store.mediaLibrary == DeleteAll(old(store.mediaLibrary), MediaId, ids[..i])
        invariant unchanged(this)
        invariant store.content == old(store.content) && store.galleryItems == old(store.galleryItems)
        invariant store.contactSubmissions == old(store.contactSubmissions) && store.blogPosts == old(store.blogPosts)
        invariant store.emailLogs == old(store.emailLogs)
      {
        assert ids[..i + 1][..i] == ids[..i];
        store.DeleteMedia(ids[i]);
        i := i + 1;
      }
      assert ids[..|ids|] == ids;
      selectedMedia := [];
    }
  }
}
